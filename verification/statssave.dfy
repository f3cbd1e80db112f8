/** `CStatsDOTA::Save`: turns the table into one game row and, when the
    table passes the colour check, one row per player. The clock reading
    and the game's player list are parameters; `began` is what the
    database's `Begin` returned (always true for the base class). */
module StatsSave {
  import opened Base
  import opened GhostDb
  import opened StatsDota

  /** A `CDBGamePlayer` as far as `Save` reads it. */
  datatype GamePlayer = GamePlayer(name: string, colour: u32)

  // ---------------------------------------------------------------------
  // The game length
  // ---------------------------------------------------------------------

  /** The minutes-and-seconds split of a length in seconds, by repeated
      subtraction of 60 as the source does it. */
  method SplitMinutes(length: u32) returns (min: u32, sec: u32)
    ensures min * 60 + sec == length
    ensures sec < 60
  {
    min := 0;
    var rest := length;
    while rest >= 60
      invariant min * 60 + rest == length
      decreases rest
    {
      min := min + 1;
      rest := rest - 60;
    }
    sec := rest;
  }

  /** The reported (minutes, seconds). The values DotA sent are kept;
      when DotA sent none (both 0) and the game start is known, the length
      is the clock minus the game start in unsigned 32-bit arithmetic. */
  function Duration(st: Stats, now: u32): (d: (u32, u32))
    ensures st.min == 0 && st.sec == 0 && st.gameStart > 0 ==>
      d.0 * 60 + d.1 == SubU32(now, st.gameStart) && d.1 < 60
    ensures !(st.min == 0 && st.sec == 0 && st.gameStart > 0) ==> d == (st.min, st.sec)
  {
    if st.min == 0 && st.sec == 0 && st.gameStart > 0 then
      var length := SubU32(now, st.gameStart);
      (length / 60, length % 60)
    else (st.min, st.sec)
  }

  /** The game-length step of `Save` as the source runs it: the loop split
      of the unsigned difference when DotA sent no length and the start
      is known, the reported values otherwise. It agrees with `Duration`. */
  method SaveDuration(st: Stats, now: u32) returns (min: u32, sec: u32)
    ensures (min, sec) == Duration(st, now)
  {
    if st.min == 0 && st.sec == 0 && st.gameStart > 0 {
      var length := SubU32(now, st.gameStart);
      min, sec := SplitMinutes(length);
      SplitIsDivMod(length, min, sec);
    } else {
      min, sec := st.min, st.sec;
    }
  }

  /** A split into whole minutes and seconds under 60 is unique. */
  lemma SplitIsDivMod(length: nat, min: nat, sec: nat)
    requires min * 60 + sec == length && sec < 60
    ensures min == length / 60 && sec == length % 60
  {
  }

  // ---------------------------------------------------------------------
  // The colour check
  // ---------------------------------------------------------------------

  /** The inner loop: an occupied slot from j on carries `colour`. */
  function ClashFrom(t: Table, colour: u32, j: nat): bool
    decreases SLOTS - j
  {
    if j >= SLOTS then false
    else (t[j].Some? && t[j].value.colour == colour) || ClashFrom(t, colour, j + 1)
  }

  /** The outer loop: some occupied slot from i on shares its colour with
      a later occupied slot. */
  function DuplicateFrom(t: Table, i: nat): bool
    decreases SLOTS - i
  {
    if i >= SLOTS then false
    else (t[i].Some? && ClashFrom(t, t[i].value.colour, i + 1)) || DuplicateFrom(t, i + 1)
  }

  /** Two different occupied slots carry the same colour. */
  predicate SharedColour(t: Table) {
    exists a, b :: 0 <= a < b < SLOTS && t[a].Some? && t[b].Some? && t[a].value.colour == t[b].value.colour
  }

  lemma {:induction false} ClashFromSpec(t: Table, colour: u32, j: nat)
    ensures ClashFrom(t, colour, j) <==>
      exists k :: j <= k < SLOTS && t[k].Some? && t[k].value.colour == colour
    decreases SLOTS - j
  {
    if j < SLOTS {
      ClashFromSpec(t, colour, j + 1);
    }
  }

  lemma {:induction false} DuplicateFromSpec(t: Table, i: nat)
    ensures DuplicateFrom(t, i) <==>
      exists a, b :: i <= a < b < SLOTS && t[a].Some? && t[b].Some? && t[a].value.colour == t[b].value.colour
    decreases SLOTS - i
  {
    if i < SLOTS {
      DuplicateFromSpec(t, i + 1);
      if t[i].Some? {
        ClashFromSpec(t, t[i].value.colour, i + 1);
      }
    }
  }

  /** The nested loops find a duplicate exactly when two occupied slots
      share a colour. The slots checked are all the occupied ones,
      including those discarded for an invalid colour. */
  lemma DuplicateCheckSound(t: Table)
    ensures DuplicateFrom(t, 0) <==> SharedColour(t)
  {
    DuplicateFromSpec(t, 0);
  }

  // ---------------------------------------------------------------------
  // Discarded records and the destructor
  // ---------------------------------------------------------------------

  /** The slots whose record the colour check deletes, from slot i on:
      each occupied slot with a non-player colour, up to and including the
      slot whose duplicate test ends the check early. */
  function DeletedFrom(t: Table, i: nat): (d: set<nat>)
    ensures forall c :: c in d ==> i <= c < SLOTS && t[c].Some? && !ValidColour(t[c].value.colour)
    ensures !DuplicateFrom(t, i) ==>
      forall c :: i <= c < SLOTS && t[c].Some? && !ValidColour(t[c].value.colour) ==> c in d
    decreases SLOTS - i
  {
    if i >= SLOTS then {}
    else if t[i].None? then DeletedFrom(t, i + 1)
    else
      var here: set<nat> := if ValidColour(t[i].value.colour) then {} else {i};
      if ClashFrom(t, t[i].value.colour, i + 1) then here else here + DeletedFrom(t, i + 1)
  }

  /** The records `~CStatsDOTA` frees: one per slot whose pointer is set. */
  function DestructorFrees(t: Table): set<nat> {
    set c: nat | c < SLOTS && t[c].Some?
  }

  /** A record as the row loop leaves it: the game's name for its colour
      and its outcome are written into it. */
  function Saved(p: DotAPlayer, winner: u32, gps: seq<GamePlayer>): DotAPlayer {
    p.(name := NameFor(gps, p.colour, p.name), outcome := Outcome(p.colour, winner))
  }

  /** The table `Save` leaves for the destructor. After a successful
      `Begin` each deleted record's slot is cleared, and when the colour
      check passes the row loop writes the name and outcome into every
      record it reads. */
  function SaveTable(t: Table, began: bool, winner: u32, gps: seq<GamePlayer>): (t': Table)
    ensures forall c :: 0 <= c < SLOTS && t'[c].Some? ==>
      t[c].Some? && t'[c].value.(name := t[c].value.name, outcome := t[c].value.outcome) == t[c].value
    ensures began && !SharedColour(t) ==>
      forall c :: 0 <= c < SLOTS && t'[c].Some? ==>
        && t'[c].value.name == NameFor(gps, t[c].value.colour, t[c].value.name)
        && t'[c].value.outcome == Outcome(t[c].value.colour, winner)
    ensures !(began && !SharedColour(t)) ==>
      forall c :: 0 <= c < SLOTS && t'[c].Some? ==> t'[c] == t[c]
    ensures began && !SharedColour(t) ==>
      forall c :: 0 <= c < SLOTS && Kept(t, c) ==> t'[c] == Some(Row(t[c].value, winner, gps).(apm := t[c].value.apm))
  {
    DuplicateCheckSound(t);
    if !began then t else Rewrite(t, DeletedFrom(t, 0), !DuplicateFrom(t, 0), winner, gps)
  }

  /** Clears the slots in `deleted` and, when `saving`, rewrites the
      other records as the row loop does. */
  function Rewrite(t: Table, deleted: set<nat>, saving: bool, winner: u32, gps: seq<GamePlayer>): (t': Table)
    ensures forall c :: 0 <= c < SLOTS ==>
      t'[c] == if c in deleted then None else if saving && t[c].Some? then Some(Saved(t[c].value, winner, gps)) else t[c]
  {
    seq(SLOTS, c requires 0 <= c < SLOTS =>
      if c in deleted then None
      else if saving && t[c].Some? then Some(Saved(t[c].value, winner, gps))
      else t[c])
  }

  /** With the deleted slots cleared, the destructor frees every record
      that `Save` did not delete, and none that it did. When the colour
      check passes, the slots left are exactly the kept ones. */
  lemma NoDoubleFree(t: Table, began: bool, winner: u32, gps: seq<GamePlayer>)
    ensures var deleted := if began then DeletedFrom(t, 0) else {};
      && deleted * DestructorFrees(SaveTable(t, began, winner, gps)) == {}
      && DestructorFrees(SaveTable(t, began, winner, gps)) == DestructorFrees(t) - deleted
    ensures began && !SharedColour(t) ==>
      forall c :: 0 <= c < SLOTS ==> (SaveTable(t, began, winner, gps)[c].Some? <==> Kept(t, c))
  {
    DuplicateCheckSound(t);
  }

  // ---------------------------------------------------------------------
  // Player rows
  // ---------------------------------------------------------------------

  /** 1 for a win, 0 for a draw (no winner), 2 for a loss. Colours below 6
      win when the winner is 1, colours above 6 when it is 2. */
  function Outcome(colour: u32, winner: u32): (o: u32)
    ensures o == 1 <==> (colour < 6 && winner == 1) || (colour > 6 && winner == 2)
    ensures o == 0 <==> winner == 0
    ensures o == 2 <==> winner != 0 && !((colour < 6 && winner == 1) || (colour > 6 && winner == 2))
  {
    if (colour < 6 && winner == 1) || (colour > 6 && winner == 2) then 1
    else if winner == 0 then 0
    else 2
  }

  /** With winner 1 or 2 exactly one side wins: a Sentinel and a Scourge
      colour always get opposite outcomes. Any other nonzero winner makes
      every player lose. */
  lemma OutcomeSides(sentinel: u32, scourge: u32, winner: u32)
    requires 1 <= sentinel <= 5 && 7 <= scourge <= 11
    ensures winner == 1 || winner == 2 ==>
      {Outcome(sentinel, winner), Outcome(scourge, winner)} == {1, 2}
    ensures winner > 2 ==> Outcome(sentinel, winner) == 2 && Outcome(scourge, winner) == 2
  {
  }

  /** The name of the first game player with the given colour, or
      `current` when none has it. */
  function NameFor(gps: seq<GamePlayer>, colour: u32, current: string): (n: string)
    ensures (forall k :: 0 <= k < |gps| ==> gps[k].colour != colour) ==> n == current
  {
    if |gps| == 0 then current
    else if gps[0].colour == colour then gps[0].name
    else NameFor(gps[1..], colour, current)
  }

  /** The name comes from the first game player with the colour, not a
      later one. */
  lemma {:induction false} NameForFirstMatch(gps: seq<GamePlayer>, colour: u32, current: string, k: nat)
    requires k < |gps| && gps[k].colour == colour
    requires forall m :: 0 <= m < k ==> gps[m].colour != colour
    ensures NameFor(gps, colour, current) == gps[k].name
  {
    if k > 0 {
      assert gps[0].colour != colour;
      NameForFirstMatch(gps[1..], colour, current, k - 1);
    }
  }

  /** The row of one player: the name from the game's player list, the
      outcome, and an APM of 0. */
  function Row(p: DotAPlayer, winner: u32, gps: seq<GamePlayer>): (q: DotAPlayer)
    ensures q.outcome == Outcome(p.colour, winner)
    ensures q.(name := p.name, outcome := p.outcome, apm := p.apm) == p
  {
    p.(name := NameFor(gps, p.colour, p.name), outcome := Outcome(p.colour, winner), apm := 0)
  }

  /** A slot that yields a row: occupied with a player colour. */
  predicate Kept(t: Table, c: nat)
    requires c < SLOTS
  {
    t[c].Some? && ValidColour(t[c].value.colour)
  }

  /** The player rows for slots i..11 in slot order; a slot whose colour
      is not a player colour is discarded. */
  function PlayerRows(t: Table, winner: u32, gps: seq<GamePlayer>, gameId: u32, i: nat): (rows: seq<Submission>)
    decreases SLOTS - i
  {
    if i >= SLOTS then []
    else (if Kept(t, i) then [PlayerAdd(gameId, Row(t[i].value, winner, gps))] else [])
         + PlayerRows(t, winner, gps, gameId, i + 1)
  }

  /** The slots from i on that yield a row, in slot order. */
  function KeptFrom(t: Table, i: nat): (cs: seq<nat>)
    decreases SLOTS - i
  {
    if i >= SLOTS then [] else (if Kept(t, i) then [i] else []) + KeptFrom(t, i + 1)
  }

  /** Row k comes from the k-th kept slot: its record with the game's name
      and the outcome filled in, for this game id. */
  lemma {:induction false} PlayerRowsAreKeptSlots(t: Table, winner: u32, gps: seq<GamePlayer>, gameId: u32, i: nat)
    ensures var rows := PlayerRows(t, winner, gps, gameId, i);
      var cs := KeptFrom(t, i);
      && |rows| == |cs|
      && forall k :: 0 <= k < |rows| ==>
           && cs[k] < SLOTS && Kept(t, cs[k])
           && rows[k] == PlayerAdd(gameId, Row(t[cs[k]].value, winner, gps))
    decreases SLOTS - i
  {
    if i < SLOTS {
      PlayerRowsAreKeptSlots(t, winner, gps, gameId, i + 1);
    }
  }

  /** The kept slots are exactly the occupied slots with a player colour,
      each once, in increasing order. */
  lemma {:induction false} KeptFromSpec(t: Table, i: nat)
    ensures var cs := KeptFrom(t, i);
      && (forall k :: 0 <= k < |cs| ==> i <= cs[k] < SLOTS && Kept(t, cs[k]))
      && (forall c :: i <= c < SLOTS && Kept(t, c) ==> c in cs)
      && (forall a, b :: 0 <= a < b < |cs| ==> cs[a] < cs[b])
    decreases SLOTS - i
  {
    if i < SLOTS {
      KeptFromSpec(t, i + 1);
      var rest := KeptFrom(t, i + 1);
      var head: seq<nat> := if Kept(t, i) then [i] else [];
      assert KeptFrom(t, i) == head + rest;
      assert forall k :: 0 <= k < |head| ==> head[k] == i;
    }
  }

  // ---------------------------------------------------------------------
  // Save
  // ---------------------------------------------------------------------

  /** `Save`: after a successful `Begin` the game row goes first, always.
      If two occupied slots share a colour the player rows are dropped;
      otherwise every occupied slot with a player colour yields a row, in
      slot order, and the others are discarded. Without a transaction
      nothing is written. */
  function Save(st: Stats, gps: seq<GamePlayer>, gameId: u32, now: u32, began: bool): (rows: seq<Submission>)
    ensures !began ==> rows == []
    ensures began ==>
      |rows| >= 1 && rows[0] == GameAdd(gameId, st.winner, Duration(st, now).0, Duration(st, now).1)
    ensures began && SharedColour(st.players) ==> |rows| == 1
    ensures began && !SharedColour(st.players) ==>
      rows[1..] == PlayerRows(st.players, st.winner, gps, gameId, 0)
  {
    if !began then []
    else
      var d := Duration(st, now);
      DuplicateCheckSound(st.players);
      [GameAdd(gameId, st.winner, d.0, d.1)]
      + (if DuplicateFrom(st.players, 0) then [] else PlayerRows(st.players, st.winner, gps, gameId, 0))
  }

  /** With the base database class the game row is always written. */
  lemma SaveWithBaseDb(st: Stats, gps: seq<GamePlayer>, gameId: u32, now: u32)
    ensures |Save(st, gps, gameId, now, Begin())| >= 1
    ensures Save(st, gps, gameId, now, Begin())[0].GameAdd?
  {
  }

  /** A game that reported no length but a start time: 125 seconds after
      the start the game row says 2 minutes 5 seconds. */
  lemma DurationExample(st: Stats)
    requires st.min == 0 && st.sec == 0 && st.gameStart == 1000
    ensures Duration(st, 1125) == (2, 5)
  {
  }

  /** A clock reading before the game start wraps around in 32 bits. */
  lemma DurationWraps(st: Stats)
    requires st.min == 0 && st.sec == 0 && st.gameStart == 10
    ensures Duration(st, 9) == (71582788, 15)
  {
  }
}
