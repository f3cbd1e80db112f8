/** The effect of each kind of DotA telemetry record, stated for the
    record as it travels on the wire: an action buffer holding one encoded
    record, handled by `CStatsDOTA::ProcessAction`. */
module StatsDotaRecords {
  import opened Base
  import opened Util
  import opened GhostDb
  import opened StatsScan
  import opened StatsDota
  import opened StatsDotaFacts

  // ---------------------------------------------------------------------
  // Building records from text
  // ---------------------------------------------------------------------

  /** Text that can travel as a C string: every character is a nonzero
      byte. */
  predicate CText(s: string) {
    forall k :: 0 <= k < |s| ==> 0 < s[k] as int < 256
  }

  lemma DigitsAreCText(s: string)
    requires AllDigits(s)
    ensures CText(s)
  {
  }

  lemma CTextAppend(a: string, b: string)
    requires CText(a) && CText(b)
    ensures CText(a + b)
  {
  }

  /** The record with namespace `ns`, key `key` and the little-endian
      value v. */
  function MakeRecord(ns: string, key: string, v: u32): (r: Record)
    requires CText(ns) && CText(key)
    ensures WellFormed(r)
    ensures AsString(r.ns) == ns && AsString(r.key) == key
    ensures ByteArrayToUInt32(r.value) == v
  {
    DecodeEncodeUInt32(v);
    Record(AsBytes(ns), AsBytes(key), UInt32ToByteArray(v))
  }

  /** An action made of one well-formed record is that record's handling. */
  lemma ProcessOne(st: Stats, r: Record, env: Env)
    requires WellFormed(r)
    ensures ProcessAction(st, Encode(r), env) ==
      match Dispatch(st, r, env)
      case NullDeref(c) => Crashed(c)
      case Ok(st', ev) => Processed(st', ev, st'.winner != 0)
  {
    var rs := [r];
    assert EncodeAll(rs) == Encode(r) + EncodeAll([]);
    assert Encode(r) + [] == Encode(r);
    ProcessEncoded(st, rs, env);
    assert rs[1..] == [];
    match Dispatch(st, r, env)
    case NullDeref(c) =>
    case Ok(st', ev) =>
      assert ApplyAll(st', [], env) == Ok(st', []);
      assert ev + [] == ev;
  }

  /** The decimal rendering of a colour has at most two digits. */
  lemma ColourDigits(c: u32)
    requires c < 100
    ensures |Decimal(c)| <= 2
  {
    if c >= 10 {
      assert Decimal(c) == Decimal(c / 10) + [DigitChar(c % 10)];
    }
  }

  /** A record of the `Data` namespace goes to the `Data` handler. */
  lemma DataRoute(st: Stats, key: string, v: u32, env: Env)
    requires CText(key)
    ensures CText("Data")
    ensures Dispatch(st, MakeRecord("Data", key, v), env) == OnData(st, key, v, env)
  {
  }

  /** A key that matches a prefix test agrees with the prefix at index j. */
  lemma KeyIsCharAt(key: string, n: nat, p: string, j: nat)
    requires j < |p| <= n
    ensures KeyIs(key, n, p) ==> key[j] == p[j]
  {
    if KeyIs(key, n, p) {
      assert key[..|p|][j] == key[j];
    }
  }

  lemma PrefixOfConcat(a: string, b: string)
    ensures (a + b)[..|a|] == a && (a + b)[|a|..] == b
  {
  }

  // ---------------------------------------------------------------------
  // Counters that a record overwrites
  // ---------------------------------------------------------------------

  /** Only `players` changes, and only in slot c. */
  predicate OnlySlotChanged(st: Stats, st': Stats, c: nat) {
    && st'.(players := st.players) == st
    && forall k :: 0 <= k < SLOTS && k != c ==> st'.players[k] == st.players[k]
  }

  /** An action holding one `Data` record is that record's `Data`
      handling. */
  lemma ProcessData(st: Stats, key: string, v: u32, env: Env)
    requires CText(key)
    ensures CText("Data")
    ensures ProcessAction(st, Encode(MakeRecord("Data", key, v)), env) ==
      match OnData(st, key, v, env)
      case NullDeref(c) => Crashed(c)
      case Ok(st', ev) => Processed(st', ev, st'.winner != 0)
  {
    DataRoute(st, key, v, env);
    ProcessOne(st, MakeRecord("Data", key, v), env);
  }

  /** A creep counter record changes only slot c, and there only the one
      counter, and only for a player colour. */
  lemma CreepCountEffect(st: Stats, c: u32, which: CreepCounter, v: u32)
    ensures var st' := OnCreepCount(st, c, which, v);
      && OnlySlotChanged(st, st', c)
      && (ValidColour(c) ==> st'.players[c] == Some(SetCreepCounter(Slot(st.players, c), which, v)))
      && (!ValidColour(c) ==> st' == st)
  {
  }

  /** `CSK<c>` reaches the creep kill counter of colour c. */
  lemma CreepKillsRoute(st: Stats, c: u32, v: u32, env: Env)
    ensures CText("CSK" + Decimal(c))
    ensures OnData(st, "CSK" + Decimal(c), v, env) == Ok(OnCreepCount(st, c, CreepKills, v), [])
  {
    var key := "CSK" + Decimal(c);
    DigitsAreCText(Decimal(c));
    CTextAppend("CSK", Decimal(c));
    PrefixOfConcat("CSK", Decimal(c));
    ToUInt32OfDecimal(c);
    assert key[0] == 'C' && key[1] == 'S' && key[2] == 'K';
    KeyIsCharAt(key, 5, "Hero", 0);
    KeyIsCharAt(key, 6, "Level", 0);
    KeyIsCharAt(key, 7, "Assist", 0);
    KeyIsCharAt(key, 8, "Courier", 1);
    KeyIsCharAt(key, 8, "Tower", 0);
    KeyIsCharAt(key, 6, "Rax", 0);
    KeyIsCharAt(key, 6, "Throne", 0);
    KeyIsCharAt(key, 4, "Tree", 0);
    KeyIsCharAt(key, 2, "CK", 1);
    assert KeyIs(key, 3, "CSK");
  }

  /** `CSD<c>` reaches the creep denies counter of colour c. */
  lemma CreepDeniesRoute(st: Stats, c: u32, v: u32, env: Env)
    ensures CText("CSD" + Decimal(c))
    ensures OnData(st, "CSD" + Decimal(c), v, env) == Ok(OnCreepCount(st, c, CreepDenies, v), [])
  {
    var key := "CSD" + Decimal(c);
    DigitsAreCText(Decimal(c));
    CTextAppend("CSD", Decimal(c));
    PrefixOfConcat("CSD", Decimal(c));
    ToUInt32OfDecimal(c);
    assert key[0] == 'C' && key[1] == 'S' && key[2] == 'D';
    KeyIsCharAt(key, 5, "Hero", 0);
    KeyIsCharAt(key, 6, "Level", 0);
    KeyIsCharAt(key, 7, "Assist", 0);
    KeyIsCharAt(key, 8, "Courier", 1);
    KeyIsCharAt(key, 8, "Tower", 0);
    KeyIsCharAt(key, 6, "Rax", 0);
    KeyIsCharAt(key, 6, "Throne", 0);
    KeyIsCharAt(key, 4, "Tree", 0);
    KeyIsCharAt(key, 2, "CK", 1);
    KeyIsCharAt(key, 3, "CSK", 2);
    assert KeyIs(key, 3, "CSD");
  }

  /** `NK<c>` reaches the neutral kill counter of colour c. */
  lemma NeutralKillsRoute(st: Stats, c: u32, v: u32, env: Env)
    ensures CText("NK" + Decimal(c))
    ensures OnData(st, "NK" + Decimal(c), v, env) == Ok(OnCreepCount(st, c, NeutralKills, v), [])
  {
    var key := "NK" + Decimal(c);
    DigitsAreCText(Decimal(c));
    CTextAppend("NK", Decimal(c));
    PrefixOfConcat("NK", Decimal(c));
    ToUInt32OfDecimal(c);
    assert key[0] == 'N' && key[1] == 'K';
    KeyIsCharAt(key, 5, "Hero", 0);
    KeyIsCharAt(key, 6, "Level", 0);
    KeyIsCharAt(key, 7, "Assist", 0);
    KeyIsCharAt(key, 8, "Courier", 0);
    KeyIsCharAt(key, 8, "Tower", 0);
    KeyIsCharAt(key, 6, "Rax", 0);
    KeyIsCharAt(key, 6, "Throne", 0);
    KeyIsCharAt(key, 4, "Tree", 0);
    KeyIsCharAt(key, 2, "CK", 0);
    KeyIsCharAt(key, 3, "CSK", 0);
    KeyIsCharAt(key, 3, "CSD", 0);
    assert KeyIs(key, 2, "NK");
  }

  /** `CSK<c>` with value v, for any colour c: a player colour's creep
      kills become v whatever they were (the slot is created if needed and
      nothing else of it changes); any other colour changes nothing. */
  lemma CreepKillsRecord(st: Stats, c: u32, v: u32, env: Env)
    ensures var key := "CSK" + Decimal(c);
      CText(key) &&
      var r := ProcessAction(st, Encode(MakeRecord("Data", key, v)), env);
      && r.Processed? && r.events == []
      && OnlySlotChanged(st, r.stats, c)
      && (ValidColour(c) ==>
            && r.stats.players[c].Some?
            && r.stats.players[c].value.creepKills == v
            && r.stats.players[c].value.(creepKills := Slot(st.players, c).creepKills) == Slot(st.players, c))
      && (!ValidColour(c) ==> r.stats == st)
  {
    CreepKillsRoute(st, c, v, env);
    ProcessData(st, "CSK" + Decimal(c), v, env);
    CreepCountEffect(st, c, CreepKills, v);
  }

  /** `CSD<c>` with value v overwrites the creep denies of a player
      colour c and changes nothing for any other colour. */
  lemma CreepDeniesRecord(st: Stats, c: u32, v: u32, env: Env)
    ensures var key := "CSD" + Decimal(c);
      CText(key) &&
      var r := ProcessAction(st, Encode(MakeRecord("Data", key, v)), env);
      && r.Processed? && r.events == []
      && OnlySlotChanged(st, r.stats, c)
      && (ValidColour(c) ==>
            && r.stats.players[c].Some?
            && r.stats.players[c].value.creepDenies == v
            && r.stats.players[c].value.(creepDenies := Slot(st.players, c).creepDenies) == Slot(st.players, c))
      && (!ValidColour(c) ==> r.stats == st)
  {
    CreepDeniesRoute(st, c, v, env);
    ProcessData(st, "CSD" + Decimal(c), v, env);
    CreepCountEffect(st, c, CreepDenies, v);
  }

  /** `NK<c>` with value v overwrites the neutral kills of a player colour
      c and changes nothing for any other colour. */
  lemma NeutralKillsRecord(st: Stats, c: u32, v: u32, env: Env)
    ensures var key := "NK" + Decimal(c);
      CText(key) &&
      var r := ProcessAction(st, Encode(MakeRecord("Data", key, v)), env);
      && r.Processed? && r.events == []
      && OnlySlotChanged(st, r.stats, c)
      && (ValidColour(c) ==>
            && r.stats.players[c].Some?
            && r.stats.players[c].value.neutralKills == v
            && r.stats.players[c].value.(neutralKills := Slot(st.players, c).neutralKills) == Slot(st.players, c))
      && (!ValidColour(c) ==> r.stats == st)
  {
    NeutralKillsRoute(st, c, v, env);
    ProcessData(st, "NK" + Decimal(c), v, env);
    CreepCountEffect(st, c, NeutralKills, v);
  }

  // ---------------------------------------------------------------------
  // Hero kills
  // ---------------------------------------------------------------------

  /** `Hero<victim>` with value = killer colour. With both players present
      the killer's kills go up by one when the killer is a player colour
      and the two names differ, and the victim's deaths go up by one when
      the victim is a player colour; an event row names both. With only
      the victim present only the death counts. Without the victim
      nothing changes. */
  lemma HeroAccounting(st: Stats, vc: u32, kc: u32, env: Env)
    ensures var r := OnHero(st, vc, kc, env);
      var killer := PlayerFromColour(env, kc);
      var victim := PlayerFromColour(env, vc);
      && r.Ok?
      && r.stats.(players := st.players) == st
      && (forall k :: 0 <= k < SLOTS && k != kc && k != vc ==> r.stats.players[k] == st.players[k])
      && (victim.None? ==> r.stats == st)
      && (victim.Some? && ValidColour(vc) ==>
            && r.stats.players[vc].Some?
            && r.stats.players[vc].value == AddDeath(Slot(st.players, vc)))
      && (victim.Some? && !ValidColour(vc) && 0 <= vc < SLOTS as int ==> r.stats.players[vc] == st.players[vc])
      && (killer.Some? && victim.Some? && ValidColour(kc) && kc != vc ==>
            && r.stats.players[kc].Some?
            && r.stats.players[kc].value ==
                 if killer.value != victim.value then AddKill(Slot(st.players, kc)) else Slot(st.players, kc))
      && (!(killer.Some? && victim.Some? && ValidColour(kc)) && kc != vc && 0 <= kc < SLOTS as int ==>
            r.stats.players[kc] == st.players[kc])
      && r.events == if killer.Some? && victim.Some?
                     then [EventAdd(0, env.gameName, killer.value, victim.value, kc, vc)]
                     else []
  {
  }

  /** A `Hero<victim>` record as it arrives: the suffix of the key names
      the victim, the value the killer. */
  lemma HeroRecord(st: Stats, vc: u32, kc: u32, env: Env)
    ensures var key := "Hero" + Decimal(vc);
      CText(key) &&
      Dispatch(st, MakeRecord("Data", key, kc), env) == OnHero(st, vc, kc, env)
  {
    var key := "Hero" + Decimal(vc);
    DigitsAreCText(Decimal(vc));
    CTextAppend("Hero", Decimal(vc));
    PrefixOfConcat("Hero", Decimal(vc));
    ToUInt32OfDecimal(vc);
  }

  /** A hero killed by the same player (the same name on both colours)
      counts a death but no kill. */
  lemma SelfKillCountsNoKill(st: Stats, vc: u32, kc: u32, env: Env)
    requires vc != kc && ValidColour(kc) && ValidColour(vc)
    requires kc in env.roster && vc in env.roster && env.roster[kc] == env.roster[vc]
    ensures OnHero(st, vc, kc, env).stats.players[kc] == Some(Slot(st.players, kc))
    ensures OnHero(st, vc, kc, env).stats.players[vc] == Some(AddDeath(Slot(st.players, vc)))
  {
    HeroAccounting(st, vc, kc, env);
  }

  // ---------------------------------------------------------------------
  // Levels, assists, couriers and towers
  // ---------------------------------------------------------------------

  /** `Level<n>` with value = colour: the colour, if a present player with
      a player colour, reaches level n; nothing else changes. */
  lemma LevelSubject(st: Stats, level: u32, colour: u32, env: Env)
    ensures var st' := OnLevel(st, level, colour, env);
      && (PlayerFromColour(env, colour).Some? && ValidColour(colour) ==>
            && OnlySlotChanged(st, st', colour)
            && st'.players[colour] == Some(Slot(st.players, colour).(level := level)))
      && (!(PlayerFromColour(env, colour).Some? && ValidColour(colour)) ==> st' == st)
  {
  }

  /** `Assist<c>` with value = victim colour: the assister c gets one more
      assist only when both c and the victim are present players and c is
      a player colour. */
  lemma AssistSubject(st: Stats, assister: u32, victimColour: u32, env: Env)
    ensures var st' := OnAssist(st, assister, victimColour, env);
      var fires := PlayerFromColour(env, assister).Some? && PlayerFromColour(env, victimColour).Some?
                   && ValidColour(assister);
      && (fires ==> OnlySlotChanged(st, st', assister)
                    && st'.players[assister] == Some(AddAssist(Slot(st.players, assister))))
      && (!fires ==> st' == st)
  {
  }

  /** `Courier*` and `Tower*` credit the killer colour before any player
      lookup: a player colour gets the kill even when nobody plays it. A
      tower event row is written only for a present killer. */
  lemma CourierAndTowerCredit(st: Stats, key: string, kc: u32, env: Env)
    requires |key| >= 8
    ensures ValidColour(kc) ==>
      && OnlySlotChanged(st, OnCourier(st, kc), kc)
      && OnCourier(st, kc).players[kc] == Some(AddCourierKill(Slot(st.players, kc)))
      && OnlySlotChanged(st, OnTower(st, key, kc, env).stats, kc)
      && OnTower(st, key, kc, env).stats.players[kc] == Some(AddTowerKill(Slot(st.players, kc)))
    ensures !ValidColour(kc) ==> OnCourier(st, kc) == st && OnTower(st, key, kc, env).stats == st
    ensures |OnTower(st, key, kc, env).events| == (if PlayerFromColour(env, kc).Some? then 1 else 0)
  {
  }

  /** `Level<n>` reaches the level handler with n from the key suffix and
      the value as the colour. */
  lemma LevelRoute(st: Stats, n: u32, colour: u32, env: Env)
    ensures CText("Level" + Decimal(n))
    ensures OnData(st, "Level" + Decimal(n), colour, env) == Ok(OnLevel(st, n, colour, env), [])
  {
    var key := "Level" + Decimal(n);
    DigitsAreCText(Decimal(n));
    CTextAppend("Level", Decimal(n));
    PrefixOfConcat("Level", Decimal(n));
    ToUInt32OfDecimal(n);
    assert key[0] == 'L';
    KeyIsCharAt(key, 5, "Hero", 0);
  }

  /** A `Level<n>` record as it arrives is `OnLevel` and emits nothing. */
  lemma LevelRecord(st: Stats, n: u32, colour: u32, env: Env)
    ensures var key := "Level" + Decimal(n);
      CText(key) &&
      var st' := OnLevel(st, n, colour, env);
      ProcessAction(st, Encode(MakeRecord("Data", key, colour)), env) == Processed(st', [], st'.winner != 0)
  {
    LevelRoute(st, n, colour, env);
    ProcessData(st, "Level" + Decimal(n), colour, env);
  }

  /** `Assist<c>` reaches the assist handler with c from the key suffix
      and the value as the victim colour. */
  lemma AssistRoute(st: Stats, c: u32, victimColour: u32, env: Env)
    ensures CText("Assist" + Decimal(c))
    ensures OnData(st, "Assist" + Decimal(c), victimColour, env) == Ok(OnAssist(st, c, victimColour, env), [])
  {
    var key := "Assist" + Decimal(c);
    DigitsAreCText(Decimal(c));
    CTextAppend("Assist", Decimal(c));
    PrefixOfConcat("Assist", Decimal(c));
    ToUInt32OfDecimal(c);
    assert key[0] == 'A';
    KeyIsCharAt(key, 5, "Hero", 0);
    KeyIsCharAt(key, 6, "Level", 0);
  }

  /** An `Assist<c>` record as it arrives is `OnAssist` and emits nothing. */
  lemma AssistRecord(st: Stats, c: u32, victimColour: u32, env: Env)
    ensures var key := "Assist" + Decimal(c);
      CText(key) &&
      var st' := OnAssist(st, c, victimColour, env);
      ProcessAction(st, Encode(MakeRecord("Data", key, victimColour)), env) == Processed(st', [], st'.winner != 0)
  {
    AssistRoute(st, c, victimColour, env);
    ProcessData(st, "Assist" + Decimal(c), victimColour, env);
  }

  /** A `Courier*` key of at least 8 characters reaches the courier
      handler. */
  lemma CourierRoute(st: Stats, key: string, kc: u32, env: Env)
    requires |key| >= 8 && key[..7] == "Courier"
    ensures OnData(st, key, kc, env) == Ok(OnCourier(st, kc), [])
  {
    assert key[0] == 'C' && key[..7][0] == 'C';
    KeyIsCharAt(key, 5, "Hero", 0);
    KeyIsCharAt(key, 6, "Level", 0);
    KeyIsCharAt(key, 7, "Assist", 0);
  }

  /** A `Courier*` record as it arrives is `OnCourier` and emits nothing. */
  lemma CourierRecord(st: Stats, key: string, kc: u32, env: Env)
    requires CText(key) && |key| >= 8 && key[..7] == "Courier"
    ensures var st' := OnCourier(st, kc);
      ProcessAction(st, Encode(MakeRecord("Data", key, kc)), env) == Processed(st', [], st'.winner != 0)
  {
    CourierRoute(st, key, kc, env);
    ProcessData(st, key, kc, env);
  }

  /** A `Tower*` key of at least 8 characters reaches the tower handler. */
  lemma TowerRoute(st: Stats, key: string, kc: u32, env: Env)
    requires |key| >= 8 && key[..5] == "Tower"
    ensures OnData(st, key, kc, env) == OnTower(st, key, kc, env)
  {
    assert key[0] == 'T' && key[..5][0] == 'T';
    KeyIsCharAt(key, 5, "Hero", 0);
    KeyIsCharAt(key, 6, "Level", 0);
    KeyIsCharAt(key, 7, "Assist", 0);
    KeyIsCharAt(key, 8, "Courier", 0);
  }

  /** A `Tower*` record as it arrives is `OnTower`, event row included. */
  lemma TowerRecord(st: Stats, key: string, kc: u32, env: Env)
    requires CText(key) && |key| >= 8 && key[..5] == "Tower"
    ensures var t := OnTower(st, key, kc, env);
      t.Ok? &&
      ProcessAction(st, Encode(MakeRecord("Data", key, kc)), env) == Processed(t.stats, t.events, t.stats.winner != 0)
  {
    TowerRoute(st, key, kc, env);
    ProcessData(st, key, kc, env);
  }

  // ---------------------------------------------------------------------
  // Rax, no-op keys, game start, the Global namespace
  // ---------------------------------------------------------------------

  /** `Rax<alliance><side><type>` with value = killer colour: a player
      colour whose slot exists gets one more rax kill; a player colour
      whose slot was never created is dereferenced as a null pointer;
      any other value changes nothing. */
  lemma RaxRecord(st: Stats, key: string, kc: u32, env: Env)
    requires CText(key) && |key| >= 6 && key[..3] == "Rax"
    ensures var r := ProcessAction(st, Encode(MakeRecord("Data", key, kc)), env);
      && (ValidColour(kc) && st.players[kc].None? <==> r.Crashed?)
      && (r.Crashed? ==> r.colour == kc)
      && (ValidColour(kc) && st.players[kc].Some? ==>
            r.Processed? && OnlySlotChanged(st, r.stats, kc)
            && r.stats.players[kc] == Some(AddRaxKill(st.players[kc].value)))
      && (!ValidColour(kc) ==> r == Processed(st, [], st.winner != 0))
  {
    RaxRoute(st, key, kc, env);
    ProcessData(st, key, kc, env);
  }

  /** A key starting with `Rax` reaches the rax handler. */
  lemma RaxRoute(st: Stats, key: string, kc: u32, env: Env)
    requires |key| >= 6 && key[..3] == "Rax"
    ensures OnData(st, key, kc, env) == OnRax(st, kc)
  {
    assert key[0] == 'R';
    assert key[..4][0] == 'R';
  }

  /** `Throne*`, `Tree*` and `CK*` keys change nothing and emit nothing. */
  lemma NoOpRecords(st: Stats, key: string, v: u32, env: Env)
    requires (|key| >= 6 && key[..6] == "Throne") || (|key| >= 4 && key[..4] == "Tree")
             || (|key| >= 2 && key[..2] == "CK")
    ensures OnData(st, key, v, env) == Ok(st, [])
  {
    KeyIsCharAt(key, 5, "Hero", 0);
    KeyIsCharAt(key, 6, "Level", 0);
    KeyIsCharAt(key, 7, "Assist", 0);
    if key[0] == 'T' {
      assert key[..4][1] == key[1];
      KeyIsCharAt(key, 8, "Tower", 1);
    } else {
      assert key[..2][1] == key[1];
      KeyIsCharAt(key, 8, "Courier", 1);
    }
    KeyIsCharAt(key, 6, "Rax", 0);
  }

  /** A `Throne*`, `Tree*` or `CK*` record as it arrives leaves the state
      as it was and emits nothing. */
  lemma NoOpRecordWire(st: Stats, key: string, v: u32, env: Env)
    requires CText(key)
    requires (|key| >= 6 && key[..6] == "Throne") || (|key| >= 4 && key[..4] == "Tree")
             || (|key| >= 2 && key[..2] == "CK")
    ensures ProcessAction(st, Encode(MakeRecord("Data", key, v)), env) == Processed(st, [], st.winner != 0)
  {
    NoOpRecords(st, key, v, env);
    ProcessData(st, key, v, env);
  }

  /** `GameStart` stores the clock reading and changes nothing else. */
  lemma GameStartRecord(st: Stats, v: u32, env: Env)
    ensures CText("GameStart")
    ensures ProcessAction(st, Encode(MakeRecord("Data", "GameStart", v)), env)
      == Processed(st.(gameStart := env.now), [], st.winner != 0)
  {
    var key := "GameStart";
    KeyIsCharAt(key, 5, "Hero", 0);
    KeyIsCharAt(key, 6, "Level", 0);
    KeyIsCharAt(key, 7, "Assist", 0);
    KeyIsCharAt(key, 8, "Courier", 0);
    KeyIsCharAt(key, 8, "Tower", 0);
    KeyIsCharAt(key, 6, "Rax", 0);
    KeyIsCharAt(key, 6, "Throne", 0);
    KeyIsCharAt(key, 4, "Tree", 0);
    KeyIsCharAt(key, 2, "CK", 0);
    KeyIsCharAt(key, 3, "CSK", 0);
    KeyIsCharAt(key, 3, "CSD", 0);
    KeyIsCharAt(key, 2, "NK", 0);
    assert KeyIs(key, 9, "GameStart");
    assert OnData(st, key, v, env) == Ok(st.(gameStart := env.now), []);
    DataRoute(st, key, v, env);
    ProcessOne(st, MakeRecord("Data", key, v), env);
  }

  /** A `Global` record overwrites the winner, the minutes or the seconds
      with its value verbatim (any value, not only 1 or 2) and leaves the
      rest; any other `Global` key changes nothing. */
  lemma GlobalRecord(st: Stats, key: string, v: u32, env: Env)
    requires CText(key)
    ensures CText("Global")
    ensures var r := ProcessAction(st, Encode(MakeRecord("Global", key, v)), env);
      && r.Processed? && r.events == []
      && r.stats.winner == (if key == "Winner" then v else st.winner)
      && r.stats.min == (if key == "m" then v else st.min)
      && r.stats.sec == (if key == "s" then v else st.sec)
      && r.stats.players == st.players && r.stats.gameStart == st.gameStart
      && r.gameOver == (r.stats.winner != 0)
  {
    ProcessOne(st, MakeRecord("Global", key, v), env);
  }

  // ---------------------------------------------------------------------
  // Per-player namespaces
  // ---------------------------------------------------------------------

  /** A record in the namespace of a player colour c creates slot c and
      stamps it with colour c, whatever its key. */
  lemma PlayerRecordRoute(st: Stats, c: u32, key: string, raw: Bytes, env: Env)
    requires ValidColour(c) && CText(key) && |raw| == 4
    ensures CText(Decimal(c))
    ensures Dispatch(st, Record(AsBytes(Decimal(c)), AsBytes(key), raw), env)
      == Ok(st.(players := Upsert(st.players, c,
               (p: DotAPlayer) => OnPlayerKey(p.(colour := c), key, raw, ByteArrayToUInt32(raw)))), [])
  {
    DigitsAreCText(Decimal(c));
    ColourDigits(c);
    ToUInt32OfDecimal(c);
    var ns := Decimal(c);
    assert IsDigit(ns[0]);
    assert AsString(AsBytes(ns)) == ns;
  }

  /** Item slot k of a player colour's record receives the four value
      bytes in reverse order: an item code that DotA writes byte-reversed
      is stored as the code. Nothing else of the record changes except
      its colour. */
  lemma ItemRecord(st: Stats, c: u32, k: nat, code: string, env: Env)
    requires ValidColour(c) && k < ITEM_SLOTS && |code| == 4
    requires forall j :: 0 <= j < |code| ==> code[j] as int < 256
    ensures var key := "8_" + [DigitChar(k)];
      var raw := Reverse(AsBytes(code));
      var r := ProcessAction(st, Encode(Record(AsBytes(Decimal(c)), AsBytes(key), raw)), env);
      && r.Processed? && r.events == [] && OnlySlotChanged(st, r.stats, c)
      && r.stats.players[c].Some?
      && GetItem(r.stats.players[c].value, k) == code
      && r.stats.players[c].value.colour == c
      && r.stats.players[c].value.(items := Slot(st.players, c).items, colour := Slot(st.players, c).colour)
           == Slot(st.players, c)
  {
    var key := "8_" + [DigitChar(k)];
    var raw := Reverse(AsBytes(code));
    assert CText(key);
    ReverseInvolution(AsBytes(code));
    assert ItemSlot(key) == Some(k);
    PlayerRecordRoute(st, c, key, raw, env);
    DigitsAreCText(Decimal(c));
    var rec := Record(AsBytes(Decimal(c)), AsBytes(key), raw);
    assert WellFormed(rec);
    ProcessOne(st, rec, env);
    var p := Slot(st.players, c).(colour := c);
    var q := SetItem(p, k, AsString(Reverse(raw)));
    assert q.(items := p.items) == p;
  }

  /** An empty item slot arrives as the value 0, four NUL bytes, and is
      stored as a string of four NUL characters. */
  lemma EmptyItemRecord(st: Stats, c: u32, k: nat, env: Env)
    requires ValidColour(c) && k < ITEM_SLOTS
    ensures var r := ProcessAction(st, Encode(Record(AsBytes(Decimal(c)), AsBytes("8_" + [DigitChar(k)]), [0, 0, 0, 0])), env);
      && r.Processed? && r.stats.players[c].Some?
      && GetItem(r.stats.players[c].value, k) == [0 as char, 0 as char, 0 as char, 0 as char]
  {
    var code := [0 as char, 0 as char, 0 as char, 0 as char];
    assert Reverse(AsBytes(code)) == [0, 0, 0, 0];
    ItemRecord(st, c, k, code, env);
  }

  /** The `id` key sets the new colour: DotA numbers the Scourge 6..10,
      colours run 7..11, so ids from 6 up are shifted by one. */
  lemma IdRecord(st: Stats, c: u32, v: u32, env: Env)
    requires ValidColour(c)
    ensures var r := ProcessAction(st, Encode(Record(AsBytes(Decimal(c)), AsBytes("id"), UInt32ToByteArray(v))), env);
      && r.Processed? && OnlySlotChanged(st, r.stats, c)
      && r.stats.players[c].Some?
      && r.stats.players[c].value.newColour == (if v >= 6 then AddU32(v, 1) else v)
      && (v < 6 ==> r.stats.players[c].value.newColour == v)
      && (6 <= v < U32_LIMIT - 1 ==> r.stats.players[c].value.newColour == v + 1)
      && r.stats.players[c].value.colour == c
  {
    var raw := UInt32ToByteArray(v);
    DecodeEncodeUInt32(v);
    PlayerRecordRoute(st, c, "id", raw, env);
    DigitsAreCText(Decimal(c));
    var rec := Record(AsBytes(Decimal(c)), AsBytes("id"), raw);
    assert WellFormed(rec);
    ProcessOne(st, rec, env);
  }

  /** Keys `1`, `2` and `5` of a player namespace only create the slot
      and stamp its colour. */
  lemma IgnoredPlayerKeys(p: DotAPlayer, key: string, raw: Bytes, v: u32)
    requires key == "1" || key == "2" || key == "5"
    ensures OnPlayerKey(p, key, raw, v) == p
  {
    assert ItemSlot(key).None?;
  }

  /** Keys `3`, `4`, `6` and `7` overwrite creep kills, creep denies,
      gold and neutral kills with the value. */
  lemma CounterPlayerKeys(p: DotAPlayer, raw: Bytes, v: u32)
    ensures OnPlayerKey(p, "3", raw, v).creepKills == v
    ensures OnPlayerKey(p, "4", raw, v).creepDenies == v
    ensures OnPlayerKey(p, "6", raw, v).gold == v
    ensures OnPlayerKey(p, "7", raw, v).neutralKills == v
    ensures OnPlayerKey(p, "3", raw, v).(creepKills := p.creepKills) == p
    ensures OnPlayerKey(p, "4", raw, v).(creepDenies := p.creepDenies) == p
    ensures OnPlayerKey(p, "6", raw, v).(gold := p.gold) == p
    ensures OnPlayerKey(p, "7", raw, v).(neutralKills := p.neutralKills) == p
  {
    assert ItemSlot("3").None? && ItemSlot("4").None? && ItemSlot("6").None? && ItemSlot("7").None?;
  }

  /** Key "9": the hero code arrives as the value's four bytes in reverse
      order and is stored as the code; nothing else of the record
      changes. */
  lemma HeroKeyRecord(p: DotAPlayer, code: string, v: u32)
    requires |code| == 4 && forall j :: 0 <= j < |code| ==> code[j] as int < 256
    ensures OnPlayerKey(p, "9", Reverse(AsBytes(code)), v) == p.(hero := code)
  {
    ReverseInvolution(AsBytes(code));
    assert ItemSlot("9").None?;
  }
}
