/** What `Save` writes for the tables that `ProcessAction` builds, and the
    behaviour of the source's discard branch as written. */
module StatsSaveFacts {
  import opened Base
  import opened GhostDb
  import opened StatsDota
  import opened StatsDotaFacts
  import opened StatsSave

  /** For a table `ProcessAction` built, the colour check fails exactly
      when two slots were created by `Data` records but never stamped by
      their player namespace (both still carry colour 0): two distinct
      stamped slots cannot collide. */
  lemma SaveAbortsIffTwoUnstamped(st: Stats)
    requires Wf(st)
    ensures SharedColour(st.players) <==>
      exists a, b :: 0 <= a < b < SLOTS && st.players[a].Some? && st.players[b].Some?
        && st.players[a].value.colour == 0 && st.players[b].value.colour == 0
  {
    if SharedColour(st.players) {
      var a, b :| 0 <= a < b < SLOTS && st.players[a].Some? && st.players[b].Some?
        && st.players[a].value.colour == st.players[b].value.colour;
      assert st.players[a].value.colour == 0;
    }
  }

  /** For a table `ProcessAction` built, the slots that yield a row are
      the stamped ones: an occupied slot whose record carries the slot's
      own colour. */
  lemma KeptIffStamped(st: Stats, c: nat)
    requires Wf(st) && c < SLOTS
    ensures Kept(st.players, c) <==> st.players[c].Some? && st.players[c].value.colour == c
  {
  }

  /** Starting from the constructor and handling any sequence of records
      that does not crash, the table passes the colour check unless two
      unstamped slots exist. */
  lemma SaveAfterRecords(rs: seq<StatsScan.Record>, env: Env, gps: seq<GamePlayer>, gameId: u32)
    requires ApplyAll(Init(), rs, env).Ok?
    ensures var st := ApplyAll(Init(), rs, env).stats;
      var rows := Save(st, gps, gameId, env.now, true);
      && |rows| >= 1
      && (|rows| == 1 <==>
            SharedColour(st.players) || forall c :: 0 <= c < SLOTS ==> !Kept(st.players, c))
  {
    InitWf();
    ApplyAllPreservesWf(Init(), rs, env);
    var st := ApplyAll(Init(), rs, env).stats;
    PlayerRowsAreKeptSlots(st.players, st.winner, gps, gameId, 0);
    KeptFromSpec(st.players, 0);
    var cs := KeptFrom(st.players, 0);
    if !SharedColour(st.players) && exists c :: 0 <= c < SLOTS && Kept(st.players, c) {
      var c :| 0 <= c < SLOTS && Kept(st.players, c);
      assert c in cs;
    }
  }

  // ---------------------------------------------------------------------
  // The discard branch as written
  // ---------------------------------------------------------------------

  /** The first occupied slot from i on whose colour is not a player
      colour. */
  function FirstDiscarded(t: Table, i: nat): (r: Option<nat>)
    ensures r.Some? ==> i <= r.value < SLOTS && t[r.value].Some? && !ValidColour(t[r.value].value.colour)
    ensures r.None? ==> forall c :: i <= c < SLOTS && t[c].Some? ==> ValidColour(t[c].value.colour)
    ensures r.Some? ==> forall c :: i <= c < r.value && t[c].Some? ==> ValidColour(t[c].value.colour)
    decreases SLOTS - i
  {
    if i >= SLOTS then None
    else if t[i].Some? && !ValidColour(t[i].value.colour) then Some(i)
    else FirstDiscarded(t, i + 1)
  }

  /** `Save` as the source has it, or the slot whose freed record it reads. */
  datatype WrittenSave = Written(rows: seq<Submission>) | ReadsFreed(slot: nat)

  /** `Save` as written: a slot with a non-player colour is deleted but its
      pointer is kept, so when the colour check then passes, the row loop
      reads the freed record. */
  function SaveAsWritten(st: Stats, gps: seq<GamePlayer>, gameId: u32, now: u32, began: bool): (r: WrittenSave)
    ensures r.ReadsFreed? <==>
      began && !SharedColour(st.players) && FirstDiscarded(st.players, 0).Some?
    ensures r.ReadsFreed? ==> r.slot == FirstDiscarded(st.players, 0).value
  {
    DuplicateCheckSound(st.players);
    if !began then Written([])
    else
      var d := Duration(st, now);
      var game := GameAdd(gameId, st.winner, d.0, d.1);
      if DuplicateFrom(st.players, 0) then Written([game])
      else match FirstDiscarded(st.players, 0)
        case Some(i) => ReadsFreed(i)
        case None => Written([game] + PlayerRows(st.players, st.winner, gps, gameId, 0))
  }

  /** Where no slot is discarded, the source as written and the model of
      `Save` agree. */
  lemma SaveAsWrittenAgrees(st: Stats, gps: seq<GamePlayer>, gameId: u32, now: u32, began: bool)
    requires forall c :: 0 <= c < SLOTS && st.players[c].Some? ==> ValidColour(st.players[c].value.colour)
    ensures SaveAsWritten(st, gps, gameId, now, began) == Written(Save(st, gps, gameId, now, began))
  {
    DuplicateCheckSound(st.players);
  }

  /** `~CStatsDOTA` after `Save` as written: a deleted record's pointer
      stays set, so the destructor frees it a second time. The result is
      the set of slots whose record is freed twice. */
  function FreedTwiceAsWritten(st: Stats, began: bool): (twice: set<nat>)
    ensures !began ==> twice == {}
    ensures began && !SharedColour(st.players) ==>
      forall c :: c in twice <==> 0 <= c < SLOTS && st.players[c].Some? && !ValidColour(st.players[c].value.colour)
  {
    DuplicateCheckSound(st.players);
    if !began then {} else DeletedFrom(st.players, 0) * DestructorFrees(st.players)
  }

  /** Two occupied slots that share a colour share a non-player colour. */
  predicate SharedColoursInvalid(t: Table) {
    forall a, b :: 0 <= a < b < SLOTS && t[a].Some? && t[b].Some? && t[a].value.colour == t[b].value.colour
      ==> !ValidColour(t[a].value.colour)
  }

  /** When the check finds a duplicate among shared non-player colours,
      the slot where it stops has been deleted first. */
  lemma {:induction false} DeletedOnDuplicate(t: Table, i: nat)
    requires SharedColoursInvalid(t) && DuplicateFrom(t, i)
    ensures DeletedFrom(t, i) != {}
    decreases SLOTS - i
  {
    if t[i].Some? && ClashFrom(t, t[i].value.colour, i + 1) {
      ClashFromSpec(t, t[i].value.colour, i + 1);
      var k :| i + 1 <= k < SLOTS && t[k].Some? && t[k].value.colour == t[i].value.colour;
      assert i in DeletedFrom(t, i);
    } else {
      DeletedOnDuplicate(t, i + 1);
      var c :| c in DeletedFrom(t, i + 1);
      assert c in DeletedFrom(t, i);
    }
  }

  /** For a table the scan built, when the colour check fails `Save` as
      written returns early with the game row alone, yet the first of the
      two unstamped slots was deleted before the check stopped, and the
      destructor frees that record again. */
  lemma DoubleFreeOnAbort(st: Stats, gps: seq<GamePlayer>, gameId: u32, now: u32)
    requires Wf(st) && SharedColour(st.players)
    ensures SaveAsWritten(st, gps, gameId, now, true).Written?
    ensures FreedTwiceAsWritten(st, true) != {}
  {
    DuplicateCheckSound(st.players);
    DeletedOnDuplicate(st.players, 0);
    var c :| c in DeletedFrom(st.players, 0);
    assert c in FreedTwiceAsWritten(st, true);
  }

  /** A table whose only record sits in slot k under a non-player colour:
      `Save` as written reads that record after deleting it and the
      destructor frees it again; the model writes the game row alone. */
  lemma LoneDiscardedSlot(st: Stats, k: nat, gps: seq<GamePlayer>, gameId: u32, now: u32)
    requires k < SLOTS && st.players[k].Some? && !ValidColour(st.players[k].value.colour)
    requires forall c :: 0 <= c < SLOTS && c != k ==> st.players[c].None?
    ensures SaveAsWritten(st, gps, gameId, now, true) == ReadsFreed(k)
    ensures FreedTwiceAsWritten(st, true) == {k}
    ensures Save(st, gps, gameId, now, true) == [GameAdd(gameId, st.winner, Duration(st, now).0, Duration(st, now).1)]
  {
    var t := st.players;
    assert forall c :: 0 <= c < SLOTS && t[c].Some? ==> c == k;
    assert !SharedColour(t);
    var fd := FirstDiscarded(t, 0);
    assert fd.Some? && fd.value == k;
    PlayerRowsAreKeptSlots(t, st.winner, gps, gameId, 0);
    KeptFromSpec(t, 0);
    var cs := KeptFrom(t, 0);
    assert forall c :: 0 <= c < SLOTS ==> !Kept(t, c);
    assert |cs| == 0;
    var twice := FreedTwiceAsWritten(st, true);
    assert forall c :: c in twice <==> c == k;
    assert twice == {k};
  }

  /** The game of one `Hero2` record whose killer is the Sentinel itself
      (colour 0, no player) and whose victim, colour 2, is in the game:
      the victim's slot is created for the death but never stamped. Saved
      as written, the row loop reads the record it just deleted and the
      destructor frees it a second time; the model of `Save` writes the
      game row alone. */
  lemma DanglingAfterSentinelKill()
    ensures var env := Env(map[2 := "b"], 0, "g");
      var st := OnHero(Init(), 2, 0, env).stats;
      && SaveAsWritten(st, [], 1, 0, true) == ReadsFreed(2)
      && Save(st, [], 1, 0, true) == [GameAdd(1, 0, 0, 0)]
      && FreedTwiceAsWritten(st, true) == {2}
  {
    var env := Env(map[2 := "b"], 0, "g");
    var st := OnHero(Init(), 2, 0, env).stats;
    assert PlayerFromColour(env, 0).None?;
    assert st.players[2] == Some(AddDeath(NewDotAPlayer()));
    assert forall c :: 0 <= c < SLOTS && c != 2 ==> st.players[c].None?;
    LoneDiscardedSlot(st, 2, [], 1, 0);
  }
}
