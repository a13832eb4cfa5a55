/** The two text-shortening loops: the caption's in `drawSingleLineText`
    (floor 20) and `truncateText` (floor 10). Both repeat
    `text = text.slice(0, -4) + "..."` while the measured width exceeds the
    limit and the text is longer than the floor; the early exits in front of
    the two loops test only the width, which the loop tests first, so they
    change nothing. The canvas's
    `measureText` is a parameter `width`: every property here holds for every
    width function. */
module Truncation {
  import opened Common

  const Ellipsis: string := "..."

  /** One pass: `s.slice(0, -4) + "..."` (a slice past the start is empty). */
  function Shorten(s: string): (r: string)
    ensures |s| >= 4 ==> |r| == |s| - 1 && r == s[..|s| - 4] + Ellipsis
    ensures |s| < 4 ==> r == Ellipsis
  {
    (if |s| >= 4 then s[..|s| - 4] else []) + Ellipsis
  }

  /** The text after `k >= 1` passes: all but the last `3 + k` characters of
      the original, then the ellipsis. */
  function Cut(text: string, k: nat): string
    requires 3 + k <= |text|
  {
    text[..|text| - 3 - k] + Ellipsis
  }

  /** A further pass over a cut text cuts one more character. */
  lemma ShortenCut(text: string, k: nat)
    requires 4 + k <= |text|
    ensures k == 0 ==> Shorten(text) == Cut(text, 1)
    ensures k >= 1 ==> Shorten(Cut(text, k)) == Cut(text, k + 1)
  {
    if k >= 1 {
      var c := Cut(text, k);
      assert c[..|c| - 4] == text[..|text| - 3 - (k + 1)];
    }
  }

  /** The loop as a recursive definition. */
  function Truncate(text: string, width: string -> real, maxWidth: real, floor: nat): (r: string)
    requires 3 <= floor
    ensures width(text) <= maxWidth || |text| <= floor ==> r == text
    ensures width(r) <= maxWidth || |r| <= floor
    ensures Min(|text|, floor) <= |r| <= |text|
    ensures r == text || exists k :: 1 <= k <= |text| - floor && r == Cut(text, k)
    decreases |text|
  {
    if width(text) <= maxWidth || |text| <= floor then text
    else
      var shorter := Shorten(text);
      var r := Truncate(shorter, width, maxWidth, floor);
      ShortenCut(text, 0);
      if r == shorter then r
      else
        var k :| 1 <= k <= |shorter| - floor && r == Cut(shorter, k);
        ShortenCut(text, k);
        assert Shorten(Cut(text, k)) == Cut(shorter, k) by {
          assert Cut(text, k)[..|text| - 4 - k] == shorter[..|shorter| - 3 - k];
        }
        r
  }

  /** Cutting a cut text cuts the original further. */
  lemma CutOfCut(text: string, k: nat)
    requires 4 + k <= |text|
    ensures Cut(Cut(text, 1), k) == Cut(text, k + 1)
  {
    var c := Cut(text, 1);
    assert c[..|c| - 3 - k] == text[..|text| - 4 - k];
  }

  /** The loop stops at the first pass whose text fits or reaches the floor:
      every shorter cut it went through was too wide and above the floor. */
  lemma {:induction false} TruncateStopsAtFirstFit(text: string, width: string -> real, maxWidth: real, floor: nat)
    requires 3 <= floor
    ensures var r := Truncate(text, width, maxWidth, floor);
            forall k :: 1 <= k < |text| - |r| && 3 + k <= |text| ==>
              width(Cut(text, k)) > maxWidth && |Cut(text, k)| > floor
    decreases |text|
  {
    var r := Truncate(text, width, maxWidth, floor);
    if !(width(text) <= maxWidth || |text| <= floor) {
      var shorter := Shorten(text);
      ShortenCut(text, 0);
      assert r == Truncate(shorter, width, maxWidth, floor);
      TruncateStopsAtFirstFit(shorter, width, maxWidth, floor);
      forall k | 1 <= k < |text| - |r| && 3 + k <= |text|
        ensures width(Cut(text, k)) > maxWidth && |Cut(text, k)| > floor
      {
        if k > 1 {
          CutOfCut(text, k - 1);
        }
      }
    }
  }

  /** The loop itself, counting its passes. */
  method TruncateLoop(text: string, width: string -> real, maxWidth: real, floor: nat)
    returns (r: string, passes: nat)
    requires 3 <= floor
    ensures r == Truncate(text, width, maxWidth, floor)
    ensures |r| == |text| - passes
    ensures passes == 0 <==> r == text
    ensures passes >= 1 ==> 3 + passes <= |text| && r == Cut(text, passes)
  {
    r, passes := text, 0;
    while width(r) > maxWidth && |r| > floor
      invariant Truncate(r, width, maxWidth, floor) == Truncate(text, width, maxWidth, floor)
      invariant |r| == |text| - passes
      invariant passes == 0 ==> r == text
      invariant passes >= 1 ==> 3 + passes <= |text| && r == Cut(text, passes)
      decreases |r|
    {
      ShortenCut(text, passes);
      r, passes := Shorten(r), passes + 1;
    }
  }

  /** When nothing fits, the floor decides: the text ends exactly at the
      floor and is still too wide. */
  lemma {:induction false} FloorWinsWhenNothingFits(text: string, width: string -> real, maxWidth: real, floor: nat)
    requires 3 <= floor < |text|
    requires forall s :: width(s) > maxWidth
    ensures |Truncate(text, width, maxWidth, floor)| == floor
    ensures width(Truncate(text, width, maxWidth, floor)) > maxWidth
    decreases |text|
  {
    if |text| > floor + 1 {
      FloorWinsWhenNothingFits(Shorten(text), width, maxWidth, floor);
    }
  }
}
