/** Pure decision rules of the in-game command handler and of
    `CGame::EventPlayerAction`: the game-over latch, the `!tempban`
    duration table, ban target matching, `!hcl` validation and the
    `!latency` and `!synclimit` clamps. Chat output and the network are
    not modelled; each rule returns the state it leaves behind. */
module GameRules {
  import opened Base
  import opened Util
  import opened GhostDb

  // ---------------------------------------------------------------------
  // The game-over latch
  // ---------------------------------------------------------------------

  /** `m_GameOverTime` (0 = not over yet) and the number of end messages
      sent. */
  datatype Latch = Latch(gameOverTime: u32, endMessages: nat)

  /** One action: when the statistics report game over and no game-over
      time is stored yet, the end message goes out and the time is
      recorded. */
  function OnAction(l: Latch, reported: bool, now: u32): (l': Latch)
    ensures reported && l.gameOverTime == 0 ==> l' == Latch(now, l.endMessages + 1)
    ensures !(reported && l.gameOverTime == 0) ==> l' == l
  {
    if reported && l.gameOverTime == 0 then Latch(now, l.endMessages + 1) else l
  }

  /** A run of actions, each with the statistics' report and the clock. */
  function RunLatch(l: Latch, actions: seq<(bool, u32)>): Latch
    decreases |actions|
  {
    if |actions| == 0 then l else RunLatch(OnAction(l, actions[0].0, actions[0].1), actions[1..])
  }

  /** Once a game-over time is stored, nothing changes any more. */
  lemma {:induction false} LatchStaysClosed(l: Latch, actions: seq<(bool, u32)>)
    requires l.gameOverTime != 0
    ensures RunLatch(l, actions) == l
    decreases |actions|
  {
    if |actions| > 0 {
      LatchStaysClosed(l, actions[1..]);
    }
  }

  /** From the initial state, with a clock that never reads 0, the level
      signal of the statistics fires the end sequence exactly once if it
      is ever reported and never otherwise, and the stored time is that
      of the first report. */
  lemma {:induction false} LatchFiresOnce(actions: seq<(bool, u32)>)
    requires forall k :: 0 <= k < |actions| ==> actions[k].1 > 0
    ensures var l := RunLatch(Latch(0, 0), actions);
      && l.endMessages <= 1
      && (l.endMessages == 1 <==> exists k :: 0 <= k < |actions| && actions[k].0)
      && (forall k :: 0 <= k < |actions| && actions[k].0 && (forall m :: 0 <= m < k ==> !actions[m].0)
            ==> l.gameOverTime == actions[k].1)
    decreases |actions|
  {
    if |actions| > 0 {
      var a := actions[0];
      if a.0 {
        LatchStaysClosed(Latch(a.1, 1), actions[1..]);
      } else {
        LatchFiresOnce(actions[1..]);
        assert forall k :: 1 <= k < |actions| ==> actions[k] == actions[1..][k - 1];
        assert (exists k :: 0 <= k < |actions| && actions[k].0) ==>
               (exists k :: 0 <= k < |actions[1..]| && actions[1..][k].0);
      }
    }
  }

  // ---------------------------------------------------------------------
  // !tempban
  // ---------------------------------------------------------------------

  /** Seconds per unit of a lower-cased suffix. The minute names take
      3600 like the hour names, and "m" is caught by the minute test
      before the month test sees it. */
  function SecondsPerUnit(suffix: string): (r: Option<u32>)
    ensures r.Some? <==>
      suffix in {"minute", "minutes", "m", "hour", "hours", "h", "day", "days", "d",
                 "week", "weeks", "w", "month", "months"}
  {
    if suffix == "minute" || suffix == "minutes" || suffix == "m" then Some(3600)
    else if suffix == "hour" || suffix == "hours" || suffix == "h" then Some(3600)
    else if suffix == "day" || suffix == "days" || suffix == "d" then Some(86400)
    else if suffix == "week" || suffix == "weeks" || suffix == "w" then Some(604800)
    else if suffix == "month" || suffix == "months" || suffix == "m" then Some(2419200)
    else None
  }

  /** The unit table: "m" means 3600 seconds, and only the spelled-out
      month names reach the month entry. */
  lemma UnitTable(suffix: string)
    ensures SecondsPerUnit("m") == Some(3600) && SecondsPerUnit("minute") == Some(3600)
    ensures SecondsPerUnit("h") == Some(3600) && SecondsPerUnit("d") == Some(86400)
    ensures SecondsPerUnit("w") == Some(604800)
    ensures SecondsPerUnit(suffix) == Some(2419200) <==> suffix == "month" || suffix == "months"
  {
  }

  /** The unit table as evidently intended: the minute names count 60
      seconds. Every other suffix keeps its unit. */
  function IntendedSecondsPerUnit(suffix: string): (r: Option<u32>)
    ensures r.Some? <==> SecondsPerUnit(suffix).Some?
  {
    if suffix == "minute" || suffix == "minutes" || suffix == "m" then Some(60)
    else SecondsPerUnit(suffix)
  }

  /** The intended table gives a minute 60 seconds and an hour 60
      minutes, and differs from the table as written only on the minute
      names. */
  lemma IntendedUnitTable(suffix: string)
    ensures IntendedSecondsPerUnit("minute") == Some(60) && IntendedSecondsPerUnit("m") == Some(60)
    ensures IntendedSecondsPerUnit("hour") == Some(60 * 60)
    ensures IntendedSecondsPerUnit(suffix) != SecondsPerUnit(suffix) <==>
      suffix == "minute" || suffix == "minutes" || suffix == "m"
  {
  }

  /** As written, "5 minutes" is a ban of five hours. */
  lemma MinutesAreHours()
    ensures DecideTempBan("x", Some(5), "minutes") == TempBan("x", 18000)
    ensures DecideTempBan("x", Some(5), "minutes") == DecideTempBan("x", Some(5), "hours")
    ensures MulU32(5, IntendedSecondsPerUnit("minutes").value) == 300
  {
    assert Lower("minutes") == "minutes";
    assert Lower("hours") == "hours";
  }

  /** The outcome of `!tempban <victim> <amount> <suffix>`. A token that
      could not be read is the empty string (victim, suffix) or None
      (amount). */
  datatype TempBanDecision =
    | BadVictim
    | BadAmount
    | BadSuffix
    | UnknownSuffix(suffix: string)
    | TempBan(victim: string, seconds: u32)

  function DecideTempBan(victim: string, amount: Option<u32>, suffix: string): (d: TempBanDecision)
    ensures d.TempBan? <==>
      victim != "" && amount.Some? && amount.value != 0 && suffix != ""
      && SecondsPerUnit(Lower(suffix)).Some?
    ensures d.TempBan? ==>
      d.victim == victim && d.seconds == MulU32(amount.value, SecondsPerUnit(Lower(suffix)).value)
    ensures amount == Some(0) && victim != "" ==> d == BadAmount
  {
    if victim == "" then BadVictim
    else if amount.None? || amount.value == 0 then BadAmount
    else if suffix == "" then BadSuffix
    else
      var lower := Lower(suffix);
      match SecondsPerUnit(lower)
      case None => UnknownSuffix(lower)
      case Some(unit) => TempBan(victim, MulU32(amount.value, unit))
  }

  /** The suffix is case-insensitive. */
  lemma TempBanIgnoresCase(victim: string, amount: Option<u32>, suffix: string)
    ensures DecideTempBan(victim, amount, suffix) == DecideTempBan(victim, amount, Lower(suffix))
  {
    LowerIdempotent(suffix);
  }

  /** Two weeks is 1209600 seconds; 3 minutes is 10800 seconds, as long as
      3 hours. */
  lemma TempBanExamples()
    ensures DecideTempBan("x", Some(2), "Weeks") == TempBan("x", 1209600)
    ensures DecideTempBan("x", Some(3), "M") == DecideTempBan("x", Some(3), "hours")
    ensures DecideTempBan("x", Some(3), "M") == TempBan("x", 10800)
  {
    assert Lower("Weeks") == "weeks";
    assert Lower("M") == "m";
    assert Lower("hours") == "hours";
  }

  // ---------------------------------------------------------------------
  // Ban target matching
  // ---------------------------------------------------------------------

  /** `hay.find(needle) != npos`. */
  predicate IsSubstring(needle: string, hay: string)
    decreases |hay|
  {
    needle <= hay || (|hay| > 0 && IsSubstring(needle, hay[1..]))
  }

  /** `find` succeeds exactly when the needle occurs at some offset. */
  lemma {:induction false} IsSubstringAt(needle: string, hay: string)
    ensures IsSubstring(needle, hay) <==> exists k :: 0 <= k <= |hay| && needle <= hay[k..]
    decreases |hay|
  {
    if IsSubstring(needle, hay) {
      if needle <= hay {
        assert hay[0..] == hay;
      } else {
        IsSubstringAt(needle, hay[1..]);
        var k :| 0 <= k <= |hay[1..]| && needle <= hay[1..][k..];
        assert hay[1..][k..] == hay[k + 1..];
      }
    }
    if exists k :: 0 <= k <= |hay| && needle <= hay[k..] {
      var k :| 0 <= k <= |hay| && needle <= hay[k..];
      if k == 0 {
        assert hay[k..] == hay;
      } else {
        assert hay[1..][k - 1..] == hay[k..];
        IsSubstringAt(needle, hay[1..]);
        assert IsSubstring(needle, hay[1..]);
      }
    }
  }

  /** The bans, in order, whose lower-cased name contains `lowered`. */
  function MatchingBans(bans: seq<Ban>, lowered: string): (ms: seq<Ban>)
    ensures |ms| <= |bans|
    decreases |bans|
  {
    if |bans| == 0 then []
    else
      var last := bans[|bans| - 1];
      MatchingBans(bans[..|bans| - 1], lowered) + (if IsSubstring(lowered, Lower(last.name)) then [last] else [])
  }

  /** A ban is among the matches exactly when it is one of the bans and
      its name contains the victim text, ignoring case. */
  lemma {:induction false} MatchingBansSpec(bans: seq<Ban>, lowered: string, b: Ban)
    ensures b in MatchingBans(bans, lowered) <==> b in bans && IsSubstring(lowered, Lower(b.name))
    decreases |bans|
  {
    if |bans| > 0 {
      var init := bans[..|bans| - 1];
      MatchingBansSpec(init, lowered, b);
      assert bans == init + [bans[|bans| - 1]];
    }
  }

  /** The ban a name fragment designates: the only match, if exactly one
      ban matches. */
  function UniqueMatch(bans: seq<Ban>, victim: string): Option<Ban> {
    var ms := MatchingBans(bans, Lower(victim));
    if |ms| == 1 then Some(ms[0]) else None
  }

  /** The matching loop: counts the bans whose lower-cased name contains
      the lower-cased victim text and remembers the last one; a ban
      request follows only for exactly one match. */
  method BanTarget(bans: seq<Ban>, victim: string) returns (matches: nat, target: Option<Ban>)
    ensures matches == |MatchingBans(bans, Lower(victim))|
    ensures target == UniqueMatch(bans, victim)
    ensures target.Some? ==> target.value in bans && IsSubstring(Lower(victim), Lower(target.value.name))
  {
    var lowered := Lower(victim);
    matches := 0;
    var lastMatch: Option<Ban> := None;
    var i := 0;
    while i < |bans|
      invariant 0 <= i <= |bans|
      invariant matches == |MatchingBans(bans[..i], lowered)|
      invariant lastMatch.Some? <==> matches > 0
      invariant lastMatch.Some? ==> lastMatch.value == MatchingBans(bans[..i], lowered)[matches - 1]
    {
      assert bans[..i + 1][..i] == bans[..i];
      if IsSubstring(lowered, Lower(bans[i].name)) {
        matches := matches + 1;
        lastMatch := Some(bans[i]);
      }
      i := i + 1;
    }
    assert bans[..|bans|] == bans;
    target := if matches == 1 then lastMatch else None;
    if target.Some? {
      MatchingBansSpec(bans, lowered, target.value);
    }
  }

  /** `!tempban` once the game has loaded: the decision combined with the
      matching loop over the recorded bans. The result is the ban to
      record and its length in seconds, or None when no ban is requested. */
  function TempBanRequest(bans: seq<Ban>, victim: string, amount: Option<u32>, suffix: string): (req: Option<(Ban, u32)>)
    ensures req.Some? <==>
      DecideTempBan(victim, amount, suffix).TempBan? && |MatchingBans(bans, Lower(victim))| == 1
  {
    match DecideTempBan(victim, amount, suffix)
    case TempBan(_, seconds) =>
      (match UniqueMatch(bans, victim)
       case Some(b) => Some((b, seconds))
       case None => None)
    case _ => None
  }

  /** A requested temporary ban names a recorded ban whose name contains
      the victim text ignoring case, every such ban is that one, and the
      length is the amount times the unit of the lower-cased suffix, in 32
      bits. */
  lemma TempBanRequestTarget(bans: seq<Ban>, victim: string, amount: Option<u32>, suffix: string)
    requires TempBanRequest(bans, victim, amount, suffix).Some?
    ensures var (b, seconds) := TempBanRequest(bans, victim, amount, suffix).value;
      && b in bans && IsSubstring(Lower(victim), Lower(b.name))
      && (forall b' :: b' in bans && IsSubstring(Lower(victim), Lower(b'.name)) ==> b' == b)
      && amount.Some? && SecondsPerUnit(Lower(suffix)).Some?
      && seconds == MulU32(amount.value, SecondsPerUnit(Lower(suffix)).value)
  {
    var ms := MatchingBans(bans, Lower(victim));
    var b := ms[0];
    MatchingBansSpec(bans, Lower(victim), b);
    forall b' | b' in bans && IsSubstring(Lower(victim), Lower(b'.name))
      ensures b' == b
    {
      MatchingBansSpec(bans, Lower(victim), b');
    }
  }

  // ---------------------------------------------------------------------
  // !hcl
  // ---------------------------------------------------------------------

  const HCL_CHARS: string := "abcdefghijklmnopqrstuvwxyz0123456789 -=,."

  /** `s.find_first_not_of(chars)`: the first position holding a character
      outside `chars`, if any. */
  method FirstNotOf(s: string, chars: string) returns (pos: Option<nat>)
    ensures pos.None? <==> forall k :: 0 <= k < |s| ==> s[k] in chars
    ensures pos.Some? ==>
      pos.value < |s| && s[pos.value] !in chars && forall k :: 0 <= k < pos.value ==> s[k] in chars
  {
    var i := 0;
    while i < |s|
      invariant 0 <= i <= |s|
      invariant forall k :: 0 <= k < i ==> s[k] in chars
    {
      if s[i] !in chars {
        return Some(i);
      }
      i := i + 1;
    }
    return None;
  }

  /** A map-config command string: at most one character per slot, and
      only characters of the HCL alphabet. */
  predicate ValidHcl(s: string, slots: nat) {
    |s| <= slots && forall k :: 0 <= k < |s| ==> s[k] in HCL_CHARS
  }

  /** The stored HCL command string and whether a command overrode it. */
  datatype Hcl = Hcl(command: string, overridden: bool)

  /** `!hcl <payload>`: an empty payload only reports the current string;
      otherwise the payload is stored and the override set exactly when
      it is valid for the number of slots. */
  function SetHcl(h: Hcl, payload: string, slots: nat): (h': Hcl)
    ensures payload != "" && ValidHcl(payload, slots) ==> h' == Hcl(payload, true)
    ensures !(payload != "" && ValidHcl(payload, slots)) ==> h' == h
  {
    if payload == "" then h
    else if |payload| > slots then h
    else if forall k :: 0 <= k < |payload| ==> payload[k] in HCL_CHARS then Hcl(payload, true)
    else h
  }

  /** Storing valid strings only: a valid stored string stays valid
      whatever payloads follow. */
  lemma {:induction false} SetHclKeepsValid(h: Hcl, payloads: seq<string>, slots: nat)
    requires ValidHcl(h.command, slots)
    ensures ValidHcl(SetHclAll(h, payloads, slots).command, slots)
    decreases |payloads|
  {
    if |payloads| > 0 {
      SetHclKeepsValid(SetHcl(h, payloads[0], slots), payloads[1..], slots);
    }
  }

  function SetHclAll(h: Hcl, payloads: seq<string>, slots: nat): Hcl
    decreases |payloads|
  {
    if |payloads| == 0 then h else SetHclAll(SetHcl(h, payloads[0], slots), payloads[1..], slots)
  }

  /** `!hcl <payload>` as the command handler runs it: the length test,
      then the alphabet test through `find_first_not_of`. It agrees with
      `SetHcl`. */
  method HclCommand(h: Hcl, payload: string, slots: nat) returns (h': Hcl)
    ensures h' == SetHcl(h, payload, slots)
    ensures h'.overridden <==> h.overridden || (payload != "" && ValidHcl(payload, slots))
  {
    h' := h;
    if payload != "" && |payload| <= slots {
      var pos := FirstNotOf(payload, HCL_CHARS);
      if pos.None? {
        h' := Hcl(payload, true);
      }
    }
  }

  /** An override, once set, is never cleared by `!hcl`. */
  lemma {:induction false} OverrideSticks(h: Hcl, payloads: seq<string>, slots: nat)
    requires h.overridden
    ensures SetHclAll(h, payloads, slots).overridden
    decreases |payloads|
  {
    if |payloads| > 0 {
      OverrideSticks(SetHcl(h, payloads[0], slots), payloads[1..], slots);
    }
  }

  // ---------------------------------------------------------------------
  // !latency and !synclimit
  // ---------------------------------------------------------------------

  /** The setter scheme shared by `!latency` and `!synclimit`: an empty
      payload keeps the current value; otherwise the parsed value, raised
      to `lo` if it is at most `lo` and lowered to `hi` if at least `hi`. */
  function ClampSetting(current: u32, payload: string, lo: u32, hi: u32): (r: u32)
    requires lo < hi
    ensures payload == "" ==> r == current
    ensures payload != "" ==> lo <= r <= hi
    ensures payload != "" && lo < ToUInt32(payload) < hi ==> r == ToUInt32(payload)
  {
    if payload == "" then current
    else
      var v := ToUInt32(payload);
      if v <= lo then lo else if v >= hi then hi else v
  }

  /** `!latency`: the result lies in [50, 500]. */
  function SetLatency(current: u32, payload: string): (r: u32)
    ensures payload != "" ==> 50 <= r <= 500
    ensures payload == "" ==> r == current
  {
    ClampSetting(current, payload, 50, 500)
  }

  /** `!synclimit`: the result lies in [10, 10000]. */
  function SetSyncLimit(current: u32, payload: string): (r: u32)
    ensures payload != "" ==> 10 <= r <= 10000
    ensures payload == "" ==> r == current
  {
    ClampSetting(current, payload, 10, 10000)
  }

  /** Typing back the value the bot reports sets it again unchanged: a
      clamped value is a fixed point of the setter. */
  lemma ClampFixedPoint(current: u32, payload: string, lo: u32, hi: u32, other: u32)
    requires lo < hi && payload != ""
    ensures var r := ClampSetting(current, payload, lo, hi);
      ClampSetting(other, Decimal(r), lo, hi) == r
  {
    var r := ClampSetting(current, payload, lo, hi);
    ToUInt32OfDecimal(r);
  }

  /** The latency is set to the typed number when it lies strictly between
      the bounds, to the nearer bound otherwise. */
  lemma LatencyOfNumber(current: u32, n: u32)
    ensures SetLatency(current, Decimal(n)) == if n <= 50 then 50 else if n >= 500 then 500 else n
    ensures SetSyncLimit(current, Decimal(n)) == if n <= 10 then 10 else if n >= 10000 then 10000 else n
  {
    ToUInt32OfDecimal(n);
  }
}
