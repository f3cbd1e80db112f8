/** `CStatsDOTA`: the DotA statistics of one game. Each action buffer is
    scanned for telemetry records (see StatsScan); each record found is
    dispatched on its namespace and key and updates a table of twelve
    optional player records indexed by colour, together with the winner,
    the reported duration and the game start time. */
module StatsDota {
  import opened Base
  import opened Util
  import opened GhostDb
  import opened StatsScan

  /** `m_Players[12]`: one optional record per colour 0..11. */
  const SLOTS: nat := 12

  type Table = t: seq<Option<DotAPlayer>> | |t| == SLOTS
    witness [None, None, None, None, None, None, None, None, None, None, None, None]

  /** The state of `CStatsDOTA`. */
  datatype Stats = Stats(
    players: Table,
    winner: u32,
    min: u32,
    sec: u32,
    gameStart: u32)

  /** A player colour: 1..5 is the Sentinel, 7..11 the Scourge. */
  predicate ValidColour(c: int) {
    1 <= c <= 5 || 7 <= c <= 11
  }

  /** The constructor: every slot empty, every scalar 0. */
  function Init(): (st: Stats)
    ensures forall c :: 0 <= c < SLOTS ==> st.players[c].None?
    ensures st.winner == 0 && st.min == 0 && st.sec == 0 && st.gameStart == 0
  {
    Stats([None, None, None, None, None, None, None, None, None, None, None, None], 0, 0, 0, 0)
  }

  /** `SetWinner(w)`: overwrites the winner and nothing else. */
  function SetWinner(st: Stats, w: u32): (st': Stats)
    ensures st'.winner == w
    ensures st'.(winner := st.winner) == st
  {
    st.(winner := w)
  }

  /** The record in slot c, or what a freshly created record would hold
      when the slot is empty. */
  function Slot(t: Table, c: nat): DotAPlayer
    requires c < SLOTS
  {
    if t[c].Some? then t[c].value else NewDotAPlayer()
  }

  /** `if (!m_Players[c]) m_Players[c] = new CDBDotAPlayer(); m_Players[c]->...`:
      creates slot c when it is empty, then applies `f` to its record.
      Only slot c changes. */
  function Upsert(t: Table, c: u32, f: DotAPlayer -> DotAPlayer): (t': Table)
    requires ValidColour(c)
    ensures t'[c] == Some(f(Slot(t, c)))
    ensures forall k :: 0 <= k < SLOTS && k != c ==> t'[k] == t[k]
  {
    t[c := Some(f(Slot(t, c)))]
  }

  /** What the game supplies: `GetPlayerFromColour` as a map from colour to
      the player's name (no entry: nobody, or the player left), the clock
      reading `GetTime()`, and the game's name for event rows. */
  datatype Env = Env(roster: map<nat, string>, now: u32, gameName: string)

  function PlayerFromColour(env: Env, c: nat): Option<string> {
    if c in env.roster then Some(env.roster[c]) else None
  }

  /** A request handed to the asynchronous database sink. */
  datatype Submission =
    | GameAdd(gameId: u32, winner: u32, min: u32, sec: u32)
    | PlayerAdd(gameId: u32, player: DotAPlayer)
    | EventAdd(kind: u32, gameName: string, killer: string, victim: string,
               killerColour: u32, victimColour: u32)

  /** The outcome of handling records: the new state and the event rows
      submitted, or a null-pointer dereference (a `Rax` record crediting a
      colour whose slot was never created). */
  datatype Step = Ok(stats: Stats, events: seq<Submission>) | NullDeref(colour: u32)

  // ---------------------------------------------------------------------
  // Key matching
  // ---------------------------------------------------------------------

  /** `key.size() >= minLen && key.substr(0, |prefix|) == prefix`. */
  predicate KeyIs(key: string, minLen: nat, prefix: string)
    requires |prefix| <= minLen
  {
    |key| >= minLen && key[..|prefix|] == prefix
  }

  function AllianceName(a: string): string {
    if a == "0" then "Sentinel" else if a == "1" then "Scourge" else "unknown"
  }

  function SideName(s: string): string {
    if s == "0" then "top" else if s == "1" then "mid" else if s == "2" then "bottom" else "unknown"
  }

  /** The victim text of a tower event: level, alliance and side, taken
      from the characters of a `Tower<alliance><level><side>` key. */
  function TowerDescription(key: string): string
    requires |key| >= 8
  {
    key[6..7] + "," + AllianceName(key[5..6]) + "," + SideName(key[7..8])
  }

  // ---------------------------------------------------------------------
  // Handlers of the "Data" namespace
  // ---------------------------------------------------------------------

  function AddKill(p: DotAPlayer): DotAPlayer { p.(kills := AddU32(p.kills, 1)) }
  function AddDeath(p: DotAPlayer): DotAPlayer { p.(deaths := AddU32(p.deaths, 1)) }
  function AddAssist(p: DotAPlayer): DotAPlayer { p.(assists := AddU32(p.assists, 1)) }
  function AddCourierKill(p: DotAPlayer): DotAPlayer { p.(courierKills := AddU32(p.courierKills, 1)) }
  function AddTowerKill(p: DotAPlayer): DotAPlayer { p.(towerKills := AddU32(p.towerKills, 1)) }
  function AddRaxKill(p: DotAPlayer): DotAPlayer { p.(raxKills := AddU32(p.raxKills, 1)) }

  /** Credits a death to colour c when c is a player colour. */
  function CreditDeath(t: Table, c: u32): Table {
    if ValidColour(c) then Upsert(t, c, AddDeath) else t
  }

  /** `Hero<victim>` with value = killer colour. */
  function OnHero(st: Stats, victimColour: u32, killerColour: u32, env: Env): Step {
    var killer := PlayerFromColour(env, killerColour);
    var victim := PlayerFromColour(env, victimColour);
    if killer.Some? && victim.Some? then
      var t1 :=
        if !ValidColour(killerColour) then st.players
        else if killer.value != victim.value then Upsert(st.players, killerColour, AddKill)
        else Upsert(st.players, killerColour, (p: DotAPlayer) => p);
      Ok(st.(players := CreditDeath(t1, victimColour)),
         [EventAdd(0, env.gameName, killer.value, victim.value, killerColour, victimColour)])
    else if victim.Some? then
      Ok(st.(players := CreditDeath(st.players, victimColour)), [])
    else
      Ok(st, [])
  }

  /** `Level<level>` with value = the colour that levelled up. */
  function OnLevel(st: Stats, level: u32, colour: u32, env: Env): Stats {
    if PlayerFromColour(env, colour).Some? && ValidColour(colour) then
      st.(players := Upsert(st.players, colour, (p: DotAPlayer) => p.(level := level)))
    else st
  }

  /** `Assist<assister>` with value = the victim's colour. */
  function OnAssist(st: Stats, assister: u32, victimColour: u32, env: Env): Stats {
    if PlayerFromColour(env, assister).Some? && PlayerFromColour(env, victimColour).Some?
       && ValidColour(assister)
    then st.(players := Upsert(st.players, assister, AddAssist))
    else st
  }

  /** `Courier<owner>` with value = killer colour. */
  function OnCourier(st: Stats, killerColour: u32): Stats {
    if ValidColour(killerColour) then st.(players := Upsert(st.players, killerColour, AddCourierKill))
    else st
  }

  /** `Tower<alliance><level><side>` with value = killer colour. */
  function OnTower(st: Stats, key: string, killerColour: u32, env: Env): Step
    requires |key| >= 8
  {
    var st' :=
      if ValidColour(killerColour) then st.(players := Upsert(st.players, killerColour, AddTowerKill))
      else st;
    var killer := PlayerFromColour(env, killerColour);
    Ok(st', if killer.Some? then [EventAdd(1, env.gameName, killer.value, TowerDescription(key), killerColour, 0)]
            else [])
  }

  /** `Rax<alliance><side><type>` with value = killer colour. The source
      increments the slot without creating it first. */
  function OnRax(st: Stats, killerColour: u32): Step {
    if !ValidColour(killerColour) then Ok(st, [])
    else if st.players[killerColour].None? then NullDeref(killerColour)
    else Ok(st.(players := Upsert(st.players, killerColour, AddRaxKill)), [])
  }

  /** The counters that `CSK`, `CSD` and `NK` report. */
  datatype CreepCounter = CreepKills | CreepDenies | NeutralKills

  function SetCreepCounter(p: DotAPlayer, which: CreepCounter, v: u32): DotAPlayer {
    match which
    case CreepKills => p.(creepKills := v)
    case CreepDenies => p.(creepDenies := v)
    case NeutralKills => p.(neutralKills := v)
  }

  /** `CSK<c>`, `CSD<c>` and `NK<c>`: overwrite one creep counter of colour c. */
  function OnCreepCount(st: Stats, c: u32, which: CreepCounter, v: u32): Stats {
    if ValidColour(c) then st.(players := Upsert(st.players, c, (p: DotAPlayer) => SetCreepCounter(p, which, v)))
    else st
  }

  function OnData(st: Stats, key: string, v: u32, env: Env): Step {
    if KeyIs(key, 5, "Hero") then OnHero(st, ToUInt32(key[4..]), v, env)
    else if KeyIs(key, 6, "Level") then Ok(OnLevel(st, ToUInt32(key[5..]), v, env), [])
    else if KeyIs(key, 7, "Assist") then Ok(OnAssist(st, ToUInt32(key[6..]), v, env), [])
    else if KeyIs(key, 8, "Courier") then Ok(OnCourier(st, v), [])
    else if KeyIs(key, 8, "Tower") then OnTower(st, key, v, env)
    else if KeyIs(key, 6, "Rax") then OnRax(st, v)
    else if KeyIs(key, 6, "Throne") || KeyIs(key, 4, "Tree") || KeyIs(key, 2, "CK") then Ok(st, [])
    else if KeyIs(key, 3, "CSK") then Ok(OnCreepCount(st, ToUInt32(key[3..]), CreepKills, v), [])
    else if KeyIs(key, 3, "CSD") then Ok(OnCreepCount(st, ToUInt32(key[3..]), CreepDenies, v), [])
    else if KeyIs(key, 2, "NK") then Ok(OnCreepCount(st, ToUInt32(key[2..]), NeutralKills, v), [])
    else if KeyIs(key, 9, "GameStart") then Ok(st.(gameStart := env.now), [])
    else Ok(st, [])
  }

  // ---------------------------------------------------------------------
  // Handlers of the "Global" and per-player namespaces
  // ---------------------------------------------------------------------

  function OnGlobal(st: Stats, key: string, v: u32): Stats {
    if key == "Winner" then st.(winner := v)
    else if key == "m" then st.(min := v)
    else if key == "s" then st.(sec := v)
    else st
  }

  /** The slot of an item key `8_0` .. `8_5`. */
  function ItemSlot(key: string): Option<nat> {
    if |key| == 3 && key[..2] == "8_" && '0' <= key[2] <= '5' then Some(key[2] as int - '0' as int)
    else None
  }

  /** `id` values number the Scourge 6..10; colours number it 7..11. */
  function NewColourOf(v: u32): u32 {
    if v >= 6 then AddU32(v, 1) else v
  }

  /** A key of a per-player namespace applied to that player's record;
      `raw` is the value's four bytes as received. */
  function OnPlayerKey(p: DotAPlayer, key: string, raw: Bytes, v: u32): DotAPlayer {
    if key == "3" then p.(creepKills := v)
    else if key == "4" then p.(creepDenies := v)
    else if key == "6" then p.(gold := v)
    else if key == "7" then p.(neutralKills := v)
    else if ItemSlot(key).Some? then SetItem(p, ItemSlot(key).value, AsString(Reverse(raw)))
    else if key == "9" then p.(hero := AsString(Reverse(raw)))
    else if key == "id" then p.(newColour := NewColourOf(v))
    else p
  }

  /** A numeric namespace of at most two digits names a colour: that slot
      is created, its colour set, and the key applied. */
  function OnPlayer(st: Stats, id: u32, key: string, raw: Bytes, v: u32): Stats {
    if ValidColour(id) then
      st.(players := Upsert(st.players, id, (p: DotAPlayer) => OnPlayerKey(p.(colour := id), key, raw, v)))
    else st
  }

  /** The handling of one telemetry record. */
  function Dispatch(st: Stats, r: Record, env: Env): Step {
    var ns := AsString(r.ns);
    var key := AsString(r.key);
    var v := ByteArrayToUInt32(r.value);
    if ns == "Data" then OnData(st, key, v, env)
    else if ns == "Global" then Ok(OnGlobal(st, key, v), [])
    else if |ns| <= 2 && AllDigits(ns) then Ok(OnPlayer(st, ToUInt32(ns), key, r.value, v), [])
    else Ok(st, [])
  }

  // ---------------------------------------------------------------------
  // The scan
  // ---------------------------------------------------------------------

  /** The scan loop of `ProcessAction` from offset i: each record found is
      dispatched at once and the scan resumes where Next says. */
  function ScanFrom(buf: Bytes, i: nat, st: Stats, env: Env): Step
    decreases |buf| - i
  {
    if |buf| < i + 6 then Ok(st, [])
    else match ParseAt(buf, i)
      case None => ScanFrom(buf, Next(buf, i), st, env)
      case Some(r) =>
        match Dispatch(st, r, env)
        case NullDeref(c) => NullDeref(c)
        case Ok(st1, ev1) =>
          match ScanFrom(buf, Next(buf, i), st1, env)
          case NullDeref(c) => NullDeref(c)
          case Ok(st2, ev2) => Ok(st2, ev1 + ev2)
  }

  /** The records handled one after another. */
  function ApplyAll(st: Stats, rs: seq<Record>, env: Env): Step
    decreases |rs|
  {
    if |rs| == 0 then Ok(st, [])
    else match Dispatch(st, rs[0], env)
      case NullDeref(c) => NullDeref(c)
      case Ok(st1, ev1) =>
        match ApplyAll(st1, rs[1..], env)
        case NullDeref(c) => NullDeref(c)
        case Ok(st2, ev2) => Ok(st2, ev1 + ev2)
  }

  /** What `ProcessAction` leaves behind: the new state, the event rows it
      submitted, and its return value; or the crash of a null dereference. */
  datatype ActionResult =
    | Processed(stats: Stats, events: seq<Submission>, gameOver: bool)
    | Crashed(colour: u32)

  /** `ProcessAction`: scans the whole buffer, then reports whether a
      nonzero winner is stored (a level, not an edge). */
  function ProcessAction(st: Stats, buf: Bytes, env: Env): (r: ActionResult)
    ensures r.Processed? ==> r.gameOver == (r.stats.winner != 0)
  {
    match ScanFrom(buf, 0, st, env)
    case NullDeref(c) => Crashed(c)
    case Ok(st', ev) => Processed(st', ev, st'.winner != 0)
  }
}
