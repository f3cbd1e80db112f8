/** Properties of `CStatsDOTA::ProcessAction`: the scan is the sequential
    handling of the records the framing finds; the table invariant it
    keeps; the winner it reports; and the effect of each kind of record. */
module StatsDotaFacts {
  import opened Base
  import opened Util
  import opened GhostDb
  import opened StatsScan
  import opened StatsDota

  // ---------------------------------------------------------------------
  // The scan handles exactly the records the framing finds, in order
  // ---------------------------------------------------------------------

  /** Scanning from offset i is handling, one after another, the records
      found from offset i. */
  lemma {:induction false} ScanIsApplyAll(buf: Bytes, i: nat, st: Stats, env: Env)
    ensures ScanFrom(buf, i, st, env) == ApplyAll(st, Records(buf, i), env)
    decreases |buf| - i
  {
    if |buf| >= i + 6 {
      var n := Next(buf, i);
      match ParseAt(buf, i)
      case None =>
        ScanIsApplyAll(buf, n, st, env);
      case Some(r) =>
        var rs := Records(buf, i);
        assert rs == [r] + Records(buf, n);
        assert rs[1..] == Records(buf, n);
        match Dispatch(st, r, env)
        case NullDeref(c) =>
        case Ok(st1, ev1) =>
          ScanIsApplyAll(buf, n, st1, env);
    }
  }

  /** Well-formed records written back to back in one buffer are all
      handled, in order. */
  lemma ProcessEncoded(st: Stats, rs: seq<Record>, env: Env)
    requires forall k :: 0 <= k < |rs| ==> WellFormed(rs[k])
    ensures ProcessAction(st, EncodeAll(rs), env) ==
      match ApplyAll(st, rs, env)
      case NullDeref(c) => Crashed(c)
      case Ok(st', ev) => Processed(st', ev, st'.winner != 0)
  {
    RecordsOfEncoded(rs);
    ScanIsApplyAll(EncodeAll(rs), 0, st, env);
  }

  /** Two records sent back to back in one action are both handled. */
  lemma ProcessTwoRecords(st: Stats, r1: Record, r2: Record, env: Env)
    requires WellFormed(r1) && WellFormed(r2)
    ensures ProcessAction(st, Encode(r1) + Encode(r2), env) ==
      match Dispatch(st, r1, env)
      case NullDeref(c) => Crashed(c)
      case Ok(st1, ev1) =>
        match Dispatch(st1, r2, env)
        case NullDeref(c) => Crashed(c)
        case Ok(st2, ev2) => Processed(st2, ev1 + ev2, st2.winner != 0)
  {
    var rs := [r1, r2];
    assert EncodeAll(rs) == Encode(r1) + Encode(r2) by {
      assert rs[1..] == [r2];
      assert EncodeAll(rs[1..]) == Encode(r2) + EncodeAll([]);
    }
    ProcessEncoded(st, rs, env);
    assert rs[0] == r1 && rs[1..] == [r2];
    assert [r2][0] == r2 && [r2][1..] == [];
    match Dispatch(st, r1, env)
    case NullDeref(c) =>
    case Ok(st1, ev1) =>
      match Dispatch(st1, r2, env)
      case NullDeref(c) =>
        assert ApplyAll(st1, [r2], env) == NullDeref(c);
      case Ok(st2, ev2) =>
        assert ApplyAll(st2, [], env) == Ok(st2, []);
        assert ApplyAll(st1, [r2], env) == Ok(st2, ev2 + []);
        assert ev2 + [] == ev2;
  }

  /** An action shorter than twelve bytes cannot hold a record: nothing
      changes and the game-over report is just the stored winner. */
  lemma ShortActionIgnored(st: Stats, buf: Bytes, env: Env)
    requires |buf| < 12
    ensures ProcessAction(st, buf, env) == Processed(st, [], st.winner != 0)
  {
    ShortBufferHasNoRecords(buf, 0);
    ScanIsApplyAll(buf, 0, st, env);
  }

  // ---------------------------------------------------------------------
  // The table invariant
  // ---------------------------------------------------------------------

  /** Only player colours ever own a slot, and a slot's record carries
      either the never-set colour 0 or the slot's own colour. */
  predicate Wf(st: Stats) {
    forall c :: 0 <= c < SLOTS && st.players[c].Some? ==>
      ValidColour(c) && (st.players[c].value.colour == 0 || st.players[c].value.colour == c)
  }

  lemma InitWf()
    ensures Wf(Init())
  {
  }

  /** Upserting a valid colour with an update that keeps or sets the
      slot's colour keeps the invariant. */
  lemma UpsertWf(st: Stats, c: u32, f: DotAPlayer -> DotAPlayer)
    requires Wf(st) && ValidColour(c)
    requires f(Slot(st.players, c)).colour == 0 || f(Slot(st.players, c)).colour == c
    ensures Wf(st.(players := Upsert(st.players, c, f)))
  {
  }

  lemma OnPlayerKeyKeepsColour(p: DotAPlayer, key: string, raw: Bytes, v: u32)
    ensures OnPlayerKey(p, key, raw, v).colour == p.colour
  {
    if ItemSlot(key).Some? {
      var q := SetItem(p, ItemSlot(key).value, AsString(Reverse(raw)));
      assert q.(items := p.items) == p;
    }
  }

  lemma OnHeroWf(st: Stats, vc: u32, kc: u32, env: Env)
    requires Wf(st)
    ensures Wf(OnHero(st, vc, kc, env).stats)
  {
    var killer := PlayerFromColour(env, kc);
    var victim := PlayerFromColour(env, vc);
    var t1 :=
      if !(killer.Some? && victim.Some? && ValidColour(kc)) then st.players
      else if killer.value != victim.value then Upsert(st.players, kc, AddKill)
      else Upsert(st.players, kc, (p: DotAPlayer) => p);
    assert Wf(st.(players := t1));
    assert Wf(st.(players := CreditDeath(t1, vc)));
  }

  lemma OnLevelWf(st: Stats, level: u32, colour: u32, env: Env)
    requires Wf(st)
    ensures Wf(OnLevel(st, level, colour, env))
  {
  }

  lemma OnAssistWf(st: Stats, assister: u32, victimColour: u32, env: Env)
    requires Wf(st)
    ensures Wf(OnAssist(st, assister, victimColour, env))
  {
  }

  lemma OnTowerWf(st: Stats, key: string, killerColour: u32, env: Env)
    requires Wf(st) && |key| >= 8
    ensures Wf(OnTower(st, key, killerColour, env).stats)
  {
  }

  lemma OnRaxWf(st: Stats, killerColour: u32)
    requires Wf(st)
    ensures OnRax(st, killerColour).Ok? ==> Wf(OnRax(st, killerColour).stats)
  {
  }

  lemma OnCreepCountWf(st: Stats, c: u32, which: CreepCounter, v: u32)
    requires Wf(st)
    ensures Wf(OnCreepCount(st, c, which, v))
  {
    if ValidColour(c) {
      var p := Slot(st.players, c);
      assert SetCreepCounter(p, which, v).colour == p.colour;
    }
  }

  lemma OnDataWf(st: Stats, key: string, v: u32, env: Env)
    requires Wf(st)
    ensures OnData(st, key, v, env).Ok? ==> Wf(OnData(st, key, v, env).stats)
  {
    if KeyIs(key, 5, "Hero") {
      OnHeroWf(st, ToUInt32(key[4..]), v, env);
    } else if KeyIs(key, 6, "Level") {
      OnLevelWf(st, ToUInt32(key[5..]), v, env);
    } else if KeyIs(key, 7, "Assist") {
      OnAssistWf(st, ToUInt32(key[6..]), v, env);
    } else if KeyIs(key, 8, "Courier") {
    } else if KeyIs(key, 8, "Tower") {
      OnTowerWf(st, key, v, env);
    } else if KeyIs(key, 6, "Rax") {
      OnRaxWf(st, v);
    } else if KeyIs(key, 6, "Throne") || KeyIs(key, 4, "Tree") || KeyIs(key, 2, "CK") {
    } else if KeyIs(key, 3, "CSK") {
      OnCreepCountWf(st, ToUInt32(key[3..]), CreepKills, v);
    } else if KeyIs(key, 3, "CSD") {
      OnCreepCountWf(st, ToUInt32(key[3..]), CreepDenies, v);
    } else if KeyIs(key, 2, "NK") {
      OnCreepCountWf(st, ToUInt32(key[2..]), NeutralKills, v);
    }
  }

  lemma OnPlayerWf(st: Stats, id: u32, key: string, raw: Bytes, v: u32)
    requires Wf(st)
    ensures Wf(OnPlayer(st, id, key, raw, v))
  {
    if ValidColour(id) {
      OnPlayerKeyKeepsColour(Slot(st.players, id).(colour := id), key, raw, v);
    }
  }

  lemma DispatchPreservesWf(st: Stats, r: Record, env: Env)
    requires Wf(st)
    ensures Dispatch(st, r, env).Ok? ==> Wf(Dispatch(st, r, env).stats)
  {
    var ns := AsString(r.ns);
    var key := AsString(r.key);
    var v := ByteArrayToUInt32(r.value);
    OnDataWf(st, key, v, env);
    OnPlayerWf(st, ToUInt32(ns), key, r.value, v);
  }

  lemma {:induction false} ApplyAllPreservesWf(st: Stats, rs: seq<Record>, env: Env)
    requires Wf(st)
    ensures ApplyAll(st, rs, env).Ok? ==> Wf(ApplyAll(st, rs, env).stats)
    decreases |rs|
  {
    if |rs| > 0 {
      DispatchPreservesWf(st, rs[0], env);
      match Dispatch(st, rs[0], env)
      case NullDeref(c) =>
      case Ok(st1, ev1) => ApplyAllPreservesWf(st1, rs[1..], env);
    }
  }

  /** `ProcessAction` keeps the table invariant. */
  lemma ProcessActionPreservesWf(st: Stats, buf: Bytes, env: Env)
    requires Wf(st)
    ensures ProcessAction(st, buf, env).Processed? ==> Wf(ProcessAction(st, buf, env).stats)
  {
    ScanIsApplyAll(buf, 0, st, env);
    ApplyAllPreservesWf(st, Records(buf, 0), env);
  }

  // ---------------------------------------------------------------------
  // The winner and the game-over report
  // ---------------------------------------------------------------------

  predicate IsWinnerRecord(r: Record) {
    AsString(r.ns) == "Global" && AsString(r.key) == "Winner"
  }

  /** The value of the last `Global`/`Winner` record in rs, if any. */
  function LastWinner(rs: seq<Record>): Option<u32>
    decreases |rs|
  {
    if |rs| == 0 then None
    else match LastWinner(rs[1..])
      case Some(w) => Some(w)
      case None => if IsWinnerRecord(rs[0]) then Some(ByteArrayToUInt32(rs[0].value)) else None
  }

  /** Only a `Global`/`Winner` record touches the winner, and it stores the
      value verbatim. */
  lemma DispatchWinner(st: Stats, r: Record, env: Env)
    ensures Dispatch(st, r, env).Ok? ==>
      Dispatch(st, r, env).stats.winner ==
        if IsWinnerRecord(r) then ByteArrayToUInt32(r.value) else st.winner
  {
    var ns := AsString(r.ns);
    if ns == "Data" {
      OnDataKeepsWinner(st, AsString(r.key), ByteArrayToUInt32(r.value), env);
    }
  }

  /** No `Data` record touches the winner. */
  lemma OnDataKeepsWinner(st: Stats, key: string, v: u32, env: Env)
    ensures OnData(st, key, v, env).Ok? ==> OnData(st, key, v, env).stats.winner == st.winner
  {
    if KeyIs(key, 5, "Hero") {
    } else if KeyIs(key, 6, "Level") {
    } else if KeyIs(key, 7, "Assist") {
    } else if KeyIs(key, 8, "Courier") {
    } else if KeyIs(key, 8, "Tower") {
    } else if KeyIs(key, 6, "Rax") {
    }
  }

  lemma {:induction false} ApplyAllWinner(st: Stats, rs: seq<Record>, env: Env)
    ensures ApplyAll(st, rs, env).Ok? ==>
      ApplyAll(st, rs, env).stats.winner ==
        match LastWinner(rs) case Some(w) => w case None => st.winner
    decreases |rs|
  {
    if |rs| > 0 {
      DispatchWinner(st, rs[0], env);
      match Dispatch(st, rs[0], env)
      case NullDeref(c) =>
      case Ok(st1, ev1) => ApplyAllWinner(st1, rs[1..], env);
    }
  }

  /** `ProcessAction` reports game over exactly when, after the scan, a
      nonzero winner is stored: the last winner record of this action if
      it has one, the earlier winner otherwise. */
  lemma GameOverReport(st: Stats, buf: Bytes, env: Env)
    ensures ProcessAction(st, buf, env).Processed? ==>
      (ProcessAction(st, buf, env).gameOver <==>
        match LastWinner(Records(buf, 0)) case Some(w) => w != 0 case None => st.winner != 0)
  {
    ScanIsApplyAll(buf, 0, st, env);
    ApplyAllWinner(st, Records(buf, 0), env);
    var r := ProcessAction(st, buf, env);
    if r.Processed? {
      assert ScanFrom(buf, 0, st, env) == Ok(r.stats, r.events);
    }
  }

  predicate NoMarker(buf: Bytes) {
    forall i: nat :: i + 6 <= |buf| ==> !MarkerAt(buf, i)
  }

  lemma {:induction false} NoMarkerNoRecords(buf: Bytes, i: nat)
    requires NoMarker(buf)
    ensures Records(buf, i) == []
    decreases |buf| - i
  {
    if |buf| >= i + 6 {
      assert !MarkerAt(buf, i);
      NoMarkerNoRecords(buf, i + 1);
    }
  }

  /** After `SetWinner(w)` with w nonzero, an action without any telemetry
      marker changes nothing and still reports game over. */
  lemma SetWinnerThenQuietAction(st: Stats, w: u32, buf: Bytes, env: Env)
    requires w != 0 && NoMarker(buf)
    ensures ProcessAction(SetWinner(st, w), buf, env) == Processed(SetWinner(st, w), [], true)
  {
    NoMarkerNoRecords(buf, 0);
    ScanIsApplyAll(buf, 0, SetWinner(st, w), env);
  }
}
