/** The "Top Issues & Fixes" list of the dashboard: a copy of the feedback
    pairs sorted with the source's comparator by a stable sort (the sort
    `Array.prototype.sort` must be since ECMAScript 2019), then cut to the
    first three. */
module Ranking {
  import opened Common
  import opened Feedback

  /** `severityOrder[a.severity || "low"]`. */
  function SeverityRank(s: Severity): nat {
    match s
    case Critical => 0
    case High => 1
    case Medium => 2
    case Low => 3
    case Missing => 3
  }

  /** `a.confidence || 0`. */
  function ConfidenceOrZero(p: FeedbackPair): real {
    p.confidence.GetOr(0.0)
  }

  /** The comparator passed to `sort`: negative puts `a` first, which it
      does exactly when `b` may not stand before `a`; zero exactly for pairs
      it cannot tell apart. */
  function Compare(a: FeedbackPair, b: FeedbackPair): (r: real)
    ensures r >= 0.0 <==> InOrder(b, a)
    ensures r == 0.0 <==> Tied(a, b)
  {
    var severityDiff := SeverityRank(a.severity) - SeverityRank(b.severity);
    if severityDiff != 0 then severityDiff as real
    else ConfidenceOrZero(b) - ConfidenceOrZero(a)
  }

  /** `a` may stand before `b`: more severe, or as severe and at least as confident. */
  predicate InOrder(a: FeedbackPair, b: FeedbackPair) {
    || SeverityRank(a.severity) < SeverityRank(b.severity)
    || (SeverityRank(a.severity) == SeverityRank(b.severity)
        && ConfidenceOrZero(a) >= ConfidenceOrZero(b))
  }

  /** The comparator cannot tell `a` and `b` apart. */
  predicate Tied(a: FeedbackPair, b: FeedbackPair) {
    SortKey(a) == SortKey(b)
  }

  /** Everything the comparator looks at. */
  function SortKey(p: FeedbackPair): (nat, real) {
    (SeverityRank(p.severity), ConfidenceOrZero(p))
  }

  predicate Sorted(s: seq<FeedbackPair>) {
    forall i, j :: 0 <= i < j < |s| ==> InOrder(s[i], s[j])
  }

  /** `p` may stand before every element of `s`. */
  predicate AllAfter(p: FeedbackPair, s: seq<FeedbackPair>) {
    forall j :: 0 <= j < |s| ==> InOrder(p, s[j])
  }

  lemma AllAfterPermutation(p: FeedbackPair, a: seq<FeedbackPair>, b: seq<FeedbackPair>)
    requires multiset(a) == multiset(b) && AllAfter(p, a)
    ensures AllAfter(p, b)
  {
    forall j | 0 <= j < |b|
      ensures InOrder(p, b[j])
    {
      assert b[j] in multiset(a);
      var k :| 0 <= k < |a| && a[k] == b[j];
    }
  }

  /** One step of a stable insertion sort: `x` goes after every element the
      comparator does not put behind it. */
  function Insert(x: FeedbackPair, s: seq<FeedbackPair>): (r: seq<FeedbackPair>)
    ensures multiset(r) == multiset(s) + multiset{x}
    ensures |r| == |s| + 1
  {
    if s == [] then [x]
    else if Compare(x, s[0]) < 0.0 then [x] + s
    else
      assert s == [s[0]] + s[1..];
      [s[0]] + Insert(x, s[1..])
  }

  /** A head that may stand before every element of a sorted sequence. */
  lemma SortedCons(h: FeedbackPair, r: seq<FeedbackPair>)
    requires Sorted(r) && AllAfter(h, r)
    ensures Sorted([h] + r)
  {
    forall i, j | 0 <= i < j < |[h] + r|
      ensures InOrder(([h] + r)[i], ([h] + r)[j])
    {
      if i > 0 {
        assert ([h] + r)[i] == r[i - 1];
      }
      assert ([h] + r)[j] == r[j - 1];
    }
  }

  /** Inserting into a sorted sequence keeps it sorted. */
  lemma {:induction false} InsertKeepsSorted(x: FeedbackPair, s: seq<FeedbackPair>)
    requires Sorted(s)
    ensures Sorted(Insert(x, s))
    decreases |s|
  {
    if s != [] {
      if Compare(x, s[0]) < 0.0 {
        assert AllAfter(x, s);
        SortedCons(x, s);
      } else {
        var rest := Insert(x, s[1..]);
        InsertKeepsSorted(x, s[1..]);
        assert s == [s[0]] + s[1..];
        assert AllAfter(s[0], s[1..] + [x]);
        AllAfterPermutation(s[0], s[1..] + [x], rest);
        SortedCons(s[0], rest);
      }
    }
  }

  /** The sorted copy: later elements are inserted into the sorted prefix. */
  function SortPairs(s: seq<FeedbackPair>): (r: seq<FeedbackPair>)
    ensures Sorted(r)
    ensures multiset(r) == multiset(s)
    ensures |r| == |s|
  {
    if s == [] then []
    else
      var init, last := s[..|s| - 1], s[|s| - 1];
      assert s == init + [last];
      InsertKeepsSorted(last, SortPairs(init));
      Insert(last, SortPairs(init))
  }

  /** The top-issues list: the first three of the sorted copy. */
  function TopIssues(pairs: seq<FeedbackPair>): (r: seq<FeedbackPair>)
    ensures |r| == Min(3, |pairs|)
    ensures Sorted(r)
    ensures multiset(r) <= multiset(pairs)
    ensures forall i, x :: 0 <= i < |r| && x in multiset(pairs) - multiset(r) ==> InOrder(r[i], x)
  {
    var sorted := SortPairs(pairs);
    var n := Min(3, |pairs|);
    PrefixBeatsRest(sorted, n);
    assert multiset(pairs) - multiset(sorted[..n]) == multiset(sorted[n..]);
    sorted[..n]
  }

  /** In a sorted sequence every element of a prefix may stand before every
      element left after it. */
  lemma PrefixBeatsRest(s: seq<FeedbackPair>, n: nat)
    requires Sorted(s) && n <= |s|
    ensures multiset(s) - multiset(s[..n]) == multiset(s[n..])
    ensures forall i, x :: 0 <= i < n && x in multiset(s[n..]) ==> InOrder(s[i], x)
    ensures multiset(s[..n]) <= multiset(s) && Sorted(s[..n])
  {
    assert s == s[..n] + s[n..];
    forall i, x | 0 <= i < n && x in multiset(s[n..])
      ensures InOrder(s[i], x)
    {
      var j :| n <= j < |s| && s[j] == x;
    }
  }

  // ---------------------------------------------------------------------
  // Stability: pairs the comparator ties keep their original order.
  // ---------------------------------------------------------------------

  /** The elements of `s` tied with `p`, in order. */
  function Ties(s: seq<FeedbackPair>, p: FeedbackPair): seq<FeedbackPair> {
    if s == [] then []
    else (if Tied(s[0], p) then [s[0]] else []) + Ties(s[1..], p)
  }

  lemma {:induction false} TiesAppend(a: seq<FeedbackPair>, b: seq<FeedbackPair>, p: FeedbackPair)
    ensures Ties(a + b, p) == Ties(a, p) + Ties(b, p)
    decreases |a|
  {
    if a != [] {
      assert (a + b)[1..] == a[1..] + b;
      TiesAppend(a[1..], b, p);
    } else {
      assert a + b == b;
    }
  }

  lemma {:induction false} NoTies(s: seq<FeedbackPair>, p: FeedbackPair)
    requires forall j :: 0 <= j < |s| ==> !Tied(s[j], p)
    ensures Ties(s, p) == []
    decreases |s|
  {
    if s != [] {
      NoTies(s[1..], p);
    }
  }

  /** Ahead of a sorted sequence's head means ahead of all of it, so tied
      with none of it. */
  lemma AheadOfSortedTiesNone(x: FeedbackPair, s: seq<FeedbackPair>, p: FeedbackPair)
    requires Sorted(s) && s != [] && Compare(x, s[0]) < 0.0 && Tied(x, p)
    ensures forall j :: 0 <= j < |s| ==> !Tied(s[j], p)
  {
    forall j | 0 <= j < |s|
      ensures !Tied(s[j], p)
    {
      assert j == 0 || InOrder(s[0], s[j]);
    }
  }

  lemma InsertTiesAhead(x: FeedbackPair, s: seq<FeedbackPair>, p: FeedbackPair)
    requires Sorted(s) && s != [] && Compare(x, s[0]) < 0.0
    ensures Ties(Insert(x, s), p) == Ties(s, p) + (if Tied(x, p) then [x] else [])
  {
    assert Insert(x, s) == [x] + s;
    assert ([x] + s)[1..] == s;
    assert Ties([x] + s, p) == (if Tied(x, p) then [x] else []) + Ties(s, p);
    if Tied(x, p) {
      AheadOfSortedTiesNone(x, s, p);
      NoTies(s, p);
    }
  }

  /** `Ties` of a sequence with a known head. */
  lemma TiesCons(h: FeedbackPair, rest: seq<FeedbackPair>, p: FeedbackPair)
    ensures Ties([h] + rest, p) == (if Tied(h, p) then [h] else []) + Ties(rest, p)
  {
    assert ([h] + rest)[1..] == rest;
  }

  /** Putting the same head on two sequences keeps their tied parts related. */
  lemma TiesPrepend(h: FeedbackPair, rest: seq<FeedbackPair>, tail: seq<FeedbackPair>,
                    own: seq<FeedbackPair>, p: FeedbackPair)
    requires Ties(rest, p) == Ties(tail, p) + own
    ensures Ties([h] + rest, p) == Ties([h] + tail, p) + own
  {
    var head := if Tied(h, p) then [h] else [];
    TiesCons(h, rest, p);
    TiesCons(h, tail, p);
    assert head + (Ties(tail, p) + own) == (head + Ties(tail, p)) + own;
  }


  lemma {:induction false} InsertTies(x: FeedbackPair, s: seq<FeedbackPair>, p: FeedbackPair)
    requires Sorted(s)
    ensures Ties(Insert(x, s), p) == Ties(s, p) + (if Tied(x, p) then [x] else [])
    decreases |s|
  {
    if s == [] {
      TiesSingleton(x, p);
    } else if Compare(x, s[0]) < 0.0 {
      InsertTiesAhead(x, s, p);
    } else {
      InsertTies(x, s[1..], p);
      assert Insert(x, s) == [s[0]] + Insert(x, s[1..]);
      assert s == [s[0]] + s[1..];
      TiesPrepend(s[0], Insert(x, s[1..]), s[1..], if Tied(x, p) then [x] else [], p);
    }
  }

  lemma TiesSingleton(x: FeedbackPair, p: FeedbackPair)
    ensures Ties([x], p) == if Tied(x, p) then [x] else []
  {
    assert Ties([x], p) == (if Tied(x, p) then [x] else []) + Ties([], p);
  }

  /** The sort is stable: for every key, the pairs with that key appear in
      the sorted copy exactly as they appear in the source. */
  lemma {:induction false} SortPairsStable(s: seq<FeedbackPair>, p: FeedbackPair)
    ensures Ties(SortPairs(s), p) == Ties(s, p)
    decreases |s|
  {
    if s != [] {
      var init, last := s[..|s| - 1], s[|s| - 1];
      var sortedInit := SortPairs(init);
      var tail := if Tied(last, p) then [last] else [];
      calc {
        Ties(SortPairs(s), p);
        { assert SortPairs(s) == Insert(last, sortedInit); }
        Ties(Insert(last, sortedInit), p);
        { InsertTies(last, sortedInit, p); }
        Ties(sortedInit, p) + tail;
        { SortPairsStable(init, p); }
        Ties(init, p) + tail;
        { TiesSingleton(last, p); }
        Ties(init, p) + Ties([last], p);
        { TiesAppend(init, [last], p); }
        Ties(init + [last], p);
        { assert s == init + [last]; }
        Ties(s, p);
      }
    }
  }

  /** The top three keep tied pairs in source order: the tied pairs they
      contain are a prefix of the tied pairs of the source. */
  lemma TopIssuesStable(pairs: seq<FeedbackPair>, p: FeedbackPair)
    ensures var t := Ties(TopIssues(pairs), p);
            t <= Ties(pairs, p)
  {
    var sorted := SortPairs(pairs);
    var r := TopIssues(pairs);
    assert sorted == r + sorted[|r|..];
    TiesAppend(r, sorted[|r|..], p);
    SortPairsStable(pairs, p);
  }
}
