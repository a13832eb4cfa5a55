/** Feedback time expressions: the shared regular expression
    `(\d+):(\d+)(?:-(\d+):(\d+))?`, the jump-target parser `parseTimestamp`
    and the live activation test `isIssueActiveAtTime`.

    The expression is unanchored, so JavaScript's `match` tries it at every
    position from the left and keeps the first position where it succeeds.
    At one position the two greedy digit groups never need to give characters
    back: a shorter run of digits is followed by a digit, which is neither the
    `:` nor the `-` the expression needs next. So one attempt is "the maximal
    run of digits, a colon, the maximal run of digits", optionally followed
    by `-` and the same shape again. */
module Timestamps {
  import opened Common

  /** `\d` in a JavaScript regular expression: ASCII digits only. */
  predicate IsDigit(c: char) {
    '0' <= c <= '9'
  }

  predicate AllDigits(s: string) {
    forall i :: 0 <= i < |s| ==> IsDigit(s[i])
  }

  /** End of the longest run of digits that starts at position `i`. */
  function RunEnd(s: string, i: nat): (j: nat)
    requires i <= |s|
    ensures i <= j <= |s|
    ensures AllDigits(s[i..j])
    ensures j == |s| || !IsDigit(s[j])
    decreases |s| - i
  {
    if i < |s| && IsDigit(s[i]) then RunEnd(s, i + 1) else i
  }

  function DigitValue(c: char): nat
    requires IsDigit(c)
  {
    c as int - '0' as int
  }

  function Pow10(n: nat): nat {
    if n == 0 then 1 else 10 * Pow10(n - 1)
  }

  /** `parseInt` of a string of decimal digits (leading zeros allowed): a
      number with at most `|d|` decimal digits, the digit itself for one. */
  function ParseDigits(d: string): (v: nat)
    requires AllDigits(d)
    ensures v < Pow10(|d|)
    ensures |d| == 1 ==> v == DigitValue(d[0])
    decreases |d|
  {
    if |d| == 0 then 0
    else 10 * ParseDigits(d[..|d| - 1]) + DigitValue(d[|d| - 1])
  }

  /** Two digit runs side by side form one digit run. */
  lemma AllDigitsAppend(a: string, b: string)
    requires AllDigits(a) && AllDigits(b)
    ensures AllDigits(a + b)
  {
    forall i | 0 <= i < |a + b|
      ensures IsDigit((a + b)[i])
    {
      if i >= |a| {
        assert (a + b)[i] == b[i - |a|];
      }
    }
  }

  /** One more digit at the end: the step of `ParseDigitsAppend`. */
  lemma ShiftStep(x: nat, y: nat, pb: nat, d: nat)
    ensures 10 * (x * y + pb) + d == x * (10 * y) + (10 * pb + d)
  {
  }

  /** `parseInt` reads positionally: the digits in front count `10^|b|`
      times what they count alone. */
  lemma {:induction false} ParseDigitsAppend(a: string, b: string)
    requires AllDigits(a) && AllDigits(b)
    ensures AllDigits(a + b)
    ensures ParseDigits(a + b) == ParseDigits(a) * Pow10(|b|) + ParseDigits(b)
    decreases |b|
  {
    AllDigitsAppend(a, b);
    if |b| == 0 {
      assert a + b == a;
    } else {
      var ab, b', last := a + b, b[..|b| - 1], b[|b| - 1];
      assert ab[..|ab| - 1] == a + b';
      assert ab[|ab| - 1] == last;
      assert AllDigits(b');
      ParseDigitsAppend(a, b');
      assert ParseDigits(ab) == 10 * ParseDigits(a + b') + DigitValue(last);
      assert ParseDigits(b) == 10 * ParseDigits(b') + DigitValue(last);
      ShiftStep(ParseDigits(a), Pow10(|b'|), ParseDigits(b'), DigitValue(last));
    }
  }

  /** Leading zeros do not change the value: `parseInt("05") == 5`. */
  lemma LeadingZeroIgnored(d: string)
    requires AllDigits(d)
    ensures AllDigits("0" + d) && ParseDigits("0" + d) == ParseDigits(d)
  {
    ParseDigitsAppend("0", d);
  }

  /** One `minutes:seconds` group of a match, with `next` the position just
      after it. */
  datatype Clock = Clock(minutes: nat, seconds: nat, next: nat) {
    function Seconds(): nat {
      60 * minutes + seconds
    }
  }

  /** `c` is what `(\d+):(\d+)` captures at `i`: `parseInt` of the digits
      before a colon and of the maximal run of digits after it, which ends at
      `c.next`. */
  predicate Captures(s: string, i: nat, c: Clock) {
    exists j :: i < j && j + 1 < c.next <= |s| && s[j] == ':'
                && AllDigits(s[i..j]) && AllDigits(s[j + 1..c.next])
                && (c.next == |s| || !IsDigit(s[c.next]))
                && c.minutes == ParseDigits(s[i..j])
                && c.seconds == ParseDigits(s[j + 1..c.next])
  }

  /** The sub-expression `(\d+):(\d+)` tried at position `i`. */
  function ClockAt(s: string, i: nat): (r: Option<Clock>)
    requires i <= |s|
    ensures r.Some? ==> i + 3 <= r.value.next <= |s|
    ensures r.Some? ==> Captures(s, i, r.value)
  {
    var j := RunEnd(s, i);
    if j == i || j == |s| || s[j] != ':' then None
    else
      var k := RunEnd(s, j + 1);
      if k == j + 1 then None
      else Some(Clock(ParseDigits(s[i..j]), ParseDigits(s[j + 1..k]), k))
  }

  /** What a successful match captured: groups 1-2 only, or groups 1-4. */
  datatype TimeMatch =
    | PointMatch(from: Clock)
    | RangeMatch(from: Clock, to: Clock)

  /** The whole expression tried at position `i`; the optional range part is
      taken whenever it matches. */
  function MatchAt(s: string, i: nat): (r: Option<TimeMatch>)
    requires i <= |s|
    ensures r.Some? <==> ClockAt(s, i).Some?
    ensures r.Some? ==> r.value.from == ClockAt(s, i).value
    ensures r.Some? ==>
              (r.value.RangeMatch? <==>
                 var n := ClockAt(s, i).value.next;
                 n < |s| && s[n] == '-' && ClockAt(s, n + 1).Some?)
    ensures r.Some? && r.value.RangeMatch? ==>
              r.value.to == ClockAt(s, ClockAt(s, i).value.next + 1).value
  {
    match ClockAt(s, i)
    case None => None
    case Some(c) =>
      if c.next < |s| && s[c.next] == '-' && ClockAt(s, c.next + 1).Some? then
        Some(RangeMatch(c, ClockAt(s, c.next + 1).value))
      else
        Some(PointMatch(c))
  }

  /** The leftmost position at or after `i` where the expression matches. */
  function LeftmostFrom(s: string, i: nat): (r: Option<nat>)
    requires i <= |s|
    ensures r.Some? ==> i <= r.value <= |s| && MatchAt(s, r.value).Some?
    ensures forall q :: i <= q <= |s| && (r.None? || q < r.value) ==> MatchAt(s, q).None?
    decreases |s| - i
  {
    if MatchAt(s, i).Some? then Some(i)
    else if i == |s| then None
    else LeftmostFrom(s, i + 1)
  }

  /** `s.match(/(\d+):(\d+)(?:-(\d+):(\d+))?/)`. */
  function FindMatch(s: string): (r: Option<TimeMatch>)
    ensures r.None? <==> forall q :: 0 <= q <= |s| ==> MatchAt(s, q).None?
    ensures r.Some? ==> exists q :: 0 <= q <= |s| && r == MatchAt(s, q)
                                    && forall q' :: 0 <= q' < q ==> MatchAt(s, q').None?
  {
    match LeftmostFrom(s, 0)
    case None => None
    case Some(p) => MatchAt(s, p)
  }

  /** The expressions both functions treat as "the whole video"; the empty
      string also stands for a missing `timestamp` field (both are falsy). */
  predicate IsSentinel(ts: string) {
    ts == "" || ts == "throughout video" || ts == "N/A"
  }

  /** The `{start, end}` object returned by `parseTimestamp`. */
  datatype Span = Span(start: real, end: real)

  /** `parseTimestamp(timestamp, duration)`: the window a jump seeks into.
      A start of -1 is the failure value callers test for. */
  function ParseTimestamp(ts: string, duration: real): (r: Span)
    ensures IsSentinel(ts) ==> r == Span(0.0, duration)
    ensures r.start < 0.0 <==> !IsSentinel(ts) && FindMatch(ts).None?
    ensures r.start < 0.0 ==> r == Span(-1.0, -1.0)
    ensures !IsSentinel(ts) && FindMatch(ts).Some? ==>
              r.start == FindMatch(ts).value.from.Seconds() as real
    ensures !IsSentinel(ts) && FindMatch(ts).Some? ==>
              r.end == match FindMatch(ts).value
                       case RangeMatch(_, b) => b.Seconds() as real
                       case PointMatch(a) => a.Seconds() as real + 2.0
  {
    if IsSentinel(ts) then Span(0.0, duration)
    else
      match FindMatch(ts)
      case None => Span(-1.0, -1.0)
      case Some(RangeMatch(a, b)) => Span(a.Seconds() as real, b.Seconds() as real)
      case Some(PointMatch(a)) => Span(a.Seconds() as real, a.Seconds() as real + 2.0)
  }

  /** `isIssueActiveAtTime(timestamp, currentTime, duration)`; the source
      never reads `duration`, so it is not a parameter here. */
  function IsIssueActiveAtTime(ts: string, t: real): (active: bool)
    ensures IsSentinel(ts) || FindMatch(ts).None? ==> active
  {
    if IsSentinel(ts) then true
    else
      match FindMatch(ts)
      case None => true
      case Some(RangeMatch(a, b)) => a.Seconds() as real <= t <= b.Seconds() as real
      case Some(PointMatch(a)) => Abs(t - a.Seconds() as real) < 3.0
  }

  // ---------------------------------------------------------------------
  // The scanner against the regular expression's own reading.
  // ---------------------------------------------------------------------

  /** `(\d+):\d` can begin at `i`, with the colon at `j`. */
  predicate ClockShapeAt(s: string, i: nat, j: nat) {
    i < j && j + 1 < |s| && AllDigits(s[i..j]) && s[j] == ':' && IsDigit(s[j + 1])
  }

  /** A run of digits that stops at a non-digit (or the end) is the maximal run. */
  lemma {:induction false} RunEndIsMaximalRun(s: string, i: nat, j: nat)
    requires i <= j <= |s|
    requires AllDigits(s[i..j])
    requires j == |s| || !IsDigit(s[j])
    ensures RunEnd(s, i) == j
    decreases j - i
  {
    if i < j {
      assert s[i..j][0] == s[i];
      assert s[i + 1..j] == s[i..j][1..];
      RunEndIsMaximalRun(s, i + 1, j);
    }
  }

  /** The scanner accepts `(\d+):(\d+)` at `i` exactly when some split of the
      input has that shape there. */
  lemma ClockAtIffShape(s: string, i: nat)
    requires i <= |s|
    ensures ClockAt(s, i).Some? <==> exists j :: ClockShapeAt(s, i, j)
  {
    var j := RunEnd(s, i);
    if ClockAt(s, i).Some? {
      assert RunEnd(s, j + 1) > j + 1;
      assert ClockShapeAt(s, i, j);
    }
    if exists j' :: ClockShapeAt(s, i, j') {
      var j' :| ClockShapeAt(s, i, j');
      RunEndIsMaximalRun(s, i, j');
    }
  }

  /** A digit in front of a `(\d+):(\d+)` match extends it to the left. */
  lemma ClockExtendsLeft(s: string, q: nat)
    requires q < |s|
    ensures IsDigit(s[q]) && ClockAt(s, q + 1).Some? ==> ClockAt(s, q).Some?
  {
    if IsDigit(s[q]) {
      assert RunEnd(s, q) == RunEnd(s, q + 1);
    }
  }

  /** The leftmost match starts a maximal run of digits: the character before
      it, if any, is not a digit. */
  lemma FirstMatchStartsDigitRun(s: string)
    requires LeftmostFrom(s, 0).Some?
    ensures var p := LeftmostFrom(s, 0).value;
            p == 0 || !IsDigit(s[p - 1])
  {
    var p := LeftmostFrom(s, 0).value;
    if p > 0 {
      ClockExtendsLeft(s, p - 1);
      assert MatchAt(s, p - 1).None? && MatchAt(s, p).Some?;
    }
  }

  // ---------------------------------------------------------------------
  // parseTimestamp and isIssueActiveAtTime agree.
  // ---------------------------------------------------------------------

  /** A range is active exactly on the parsed closed interval [start, end]. */
  lemma RangeActiveIffWithinParsed(ts: string, t: real, duration: real)
    requires !IsSentinel(ts) && FindMatch(ts).Some? && FindMatch(ts).value.RangeMatch?
    ensures var r := ParseTimestamp(ts, duration);
            IsIssueActiveAtTime(ts, t) <==> r.start <= t <= r.end
  {
  }

  /** A single time is active strictly less than 3 seconds either side of the
      parsed start, while a jump to it dwells on [start, start + 2]. */
  lemma PointActiveIffNearParsedStart(ts: string, t: real, duration: real)
    requires !IsSentinel(ts) && FindMatch(ts).Some? && FindMatch(ts).value.PointMatch?
    ensures var r := ParseTimestamp(ts, duration);
            && r.end == r.start + 2.0
            && (IsIssueActiveAtTime(ts, t) <==> Abs(t - r.start) < 3.0)
  {
  }

  /** Every time inside the parsed window is an active time, for every input:
      sentinels, failures, ranges and points alike. */
  lemma ParsedWindowIsActive(ts: string, t: real, duration: real)
    requires ParseTimestamp(ts, duration).start <= t <= ParseTimestamp(ts, duration).end
    ensures IsIssueActiveAtTime(ts, t)
  {
  }

  /** Where the parser fails the activation test fails open. */
  lemma ParseFailureIsAlwaysActive(ts: string, t: real, duration: real)
    requires ParseTimestamp(ts, duration).start == -1.0
    ensures IsIssueActiveAtTime(ts, t)
  {
  }

  /** A range written backwards is still a successful parse, with a start
      that is not the failure value, and it is active at no time. */
  lemma InvertedRangeNeverActive(ts: string, t: real, duration: real)
    requires !IsSentinel(ts) && FindMatch(ts).Some? && FindMatch(ts).value.RangeMatch?
    requires ParseTimestamp(ts, duration).start > ParseTimestamp(ts, duration).end
    ensures ParseTimestamp(ts, duration).start >= 0.0
    ensures !IsIssueActiveAtTime(ts, t)
  {
  }

  /** How the expression reads "01:05". */
  lemma PointMatchExample()
    ensures FindMatch("01:05") == Some(PointMatch(Clock(1, 5, 5)))
  {
    var s := "01:05";
    assert RunEnd(s, 0) == 2 && RunEnd(s, 3) == 5;
    assert s[0..2] == "01" && s[3..5] == "05";
    assert ParseDigits("01") == 1 && ParseDigits("05") == 5;
    assert ClockAt(s, 0) == Some(Clock(1, 5, 5));
  }

  /** A single time: the tolerance is strict, 3 seconds either side. */
  lemma PointToleranceExample()
    ensures ParseTimestamp("01:05", 100.0) == Span(65.0, 67.0)
    ensures !IsIssueActiveAtTime("01:05", 62.0) && IsIssueActiveAtTime("01:05", 63.0)
    ensures IsIssueActiveAtTime("01:05", 67.0) && !IsIssueActiveAtTime("01:05", 68.0)
  {
    assert !IsSentinel("01:05");
    PointMatchExample();
  }

  /** The two clocks of "12:00-01:00". */
  lemma BackwardsRangeFrom()
    ensures ClockAt("12:00-01:00", 0) == Some(Clock(12, 0, 5))
  {
    var s := "12:00-01:00";
    assert RunEnd(s, 0) == 2 && RunEnd(s, 3) == 5;
    assert s[0..2] == "12" && s[3..5] == "00";
    assert ParseDigits("12") == 12 && ParseDigits("00") == 0;
  }

  lemma BackwardsRangeTo()
    ensures ClockAt("12:00-01:00", 6) == Some(Clock(1, 0, 11))
  {
    var s := "12:00-01:00";
    assert RunEnd(s, 6) == 8 && RunEnd(s, 9) == 11;
    assert s[6..8] == "01" && s[9..11] == "00";
    assert ParseDigits("01") == 1 && ParseDigits("00") == 0;
  }

  /** How the expression reads "12:00-01:00". */
  lemma BackwardsRangeMatch()
    ensures FindMatch("12:00-01:00") == Some(RangeMatch(Clock(12, 0, 5), Clock(1, 0, 11)))
  {
    BackwardsRangeFrom();
    BackwardsRangeTo();
    assert "12:00-01:00"[5] == '-';
    assert MatchAt("12:00-01:00", 0) == Some(RangeMatch(Clock(12, 0, 5), Clock(1, 0, 11)));
  }

  /** A range written backwards parses as it stands and is never active. */
  lemma BackwardsRangeExample(t: real)
    ensures ParseTimestamp("12:00-01:00", 100.0) == Span(720.0, 60.0)
    ensures !IsIssueActiveAtTime("12:00-01:00", t)
  {
    assert !IsSentinel("12:00-01:00");
    BackwardsRangeMatch();
  }

  /** The first time in the text wins, even a point before a range. */
  lemma LeftmostWinsExample()
    ensures ParseTimestamp("x 7:5 0:10-0:20", 100.0) == Span(425.0, 427.0)
  {
    var s := "x 7:5 0:10-0:20";
    assert !IsSentinel(s);
    assert RunEnd(s, 0) == 0 && RunEnd(s, 1) == 1;
    assert RunEnd(s, 2) == 3 && RunEnd(s, 4) == 5;
    assert s[2..3] == "7" && s[4..5] == "5";
    assert ClockAt(s, 2) == Some(Clock(7, 5, 5));
    assert LeftmostFrom(s, 0) == Some(2);
    assert FindMatch(s) == Some(PointMatch(Clock(7, 5, 5)));
  }
}
