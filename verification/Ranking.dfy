/**
 The margin gate and the stable ranking, twice: mozc_compat/rerank_margin.h in C++ and `rerank`
 of runtime/rerank_daemon.py. Scores are exact reals.
 */
module Ranking {
  import opened Text
  import opened Utf8
  import Guard

  // ----- the order -----

  /** a is ranked before b: a higher score, or the same score and earlier in Mozc's order. */
  predicate Before(scores: seq<real>, a: nat, b: nat)
    requires a < |scores| && b < |scores|
  {
    scores[a] > scores[b] || (scores[a] == scores[b] && a < b)
  }

  ghost predicate Indices(order: seq<nat>, n: nat) { forall k :: 0 <= k < |order| ==> order[k] < n }

  ghost predicate SortedBefore(scores: seq<real>, order: seq<nat>)
    requires Indices(order, |scores|)
  {
    forall i, j :: 0 <= i < j < |order| ==> Before(scores, order[i], order[j])
  }

  /** All the indices, each once, in the one stable descending order. */
  ghost predicate IsRanking(scores: seq<real>, order: seq<nat>) {
    && Indices(order, |scores|)
    && multiset(order) == multiset(Range(|scores|))
    && SortedBefore(scores, order)
  }

  function Range(n: nat): (r: seq<nat>)
    ensures |r| == n && forall k :: 0 <= k < n ==> r[k] == k
  {
    seq(n, i => i)
  }

  lemma MultisetTail<T>(s: seq<T>)
    requires s != []
    ensures multiset(s[1..]) == multiset(s) - multiset{s[0]}
  {
    assert s == [s[0]] + s[1..];
  }

  /** The smallest element of a sorted list comes first. */
  lemma FirstIsLeast(scores: seq<real>, a: seq<nat>, x: nat)
    requires Indices(a, |scores|) && SortedBefore(scores, a) && x in multiset(a)
    ensures x == a[0] || (x < |scores| && Before(scores, a[0], x))
  {
    var k :| 0 <= k < |a| && a[k] == x;
  }

  lemma SortedTail(scores: seq<real>, a: seq<nat>)
    requires a != [] && Indices(a, |scores|) && SortedBefore(scores, a)
    ensures Indices(a[1..], |scores|) && SortedBefore(scores, a[1..])
  {
    assert forall k :: 0 <= k < |a| - 1 ==> a[1..][k] == a[k + 1];
  }

  lemma {:induction false} SortedUnique(scores: seq<real>, a: seq<nat>, b: seq<nat>)
    requires Indices(a, |scores|) && Indices(b, |scores|)
    requires SortedBefore(scores, a) && SortedBefore(scores, b) && multiset(a) == multiset(b)
    ensures a == b
  {
    hide *;
    assert |multiset(a)| == |a| && |multiset(b)| == |b|;
    if a != [] {
      var x, y, s, t := a[0], b[0], a[1..], b[1..];
      SortedTail(scores, a);
      SortedTail(scores, b);
      HeadsMeet(scores, a, b);
      MultisetTail(a);
      MultisetTail(b);
      SortedUnique(scores, s, t);
      assert a == [x] + s && b == [y] + t;
    }
  }

  lemma HeadsMeet(scores: seq<real>, a: seq<nat>, b: seq<nat>)
    requires Indices(a, |scores|) && Indices(b, |scores|) && a != [] && b != []
    requires SortedBefore(scores, a) && SortedBefore(scores, b) && multiset(a) == multiset(b)
    ensures a[0] == b[0]
  {
    hide SortedBefore, Indices;
    assert a[0] in multiset(a) && b[0] in multiset(b);
    FirstIsLeast(scores, a, b[0]);
    FirstIsLeast(scores, b, a[0]);
  }

  /** There is only one ranking, so two implementations of it cannot differ. */
  lemma RankingUnique(scores: seq<real>, a: seq<nat>, b: seq<nat>)
    requires IsRanking(scores, a) && IsRanking(scores, b)
    ensures a == b
  {
    SortedUnique(scores, a, b);
  }

  // ----- C++: std::stable_sort with a > comparison -----

  /** A stable sort of the index vector: each index goes behind every index of a score not below its own. */
  method StableSort(scores: seq<real>) returns (order: seq<nat>)
    ensures IsRanking(scores, order)
  {
    order := [];
    NothingSorted(scores);
    hide SortedBefore, Range;
    for i := 0 to |scores|
      invariant Indices(order, i) && |order| == i
      invariant SortedBefore(scores, order)
      invariant multiset(order) == multiset(Range(i))
    {
      var p := |order|;
      while p > 0 && scores[i] > scores[order[p - 1]]
        invariant 0 <= p <= |order|
        invariant forall k :: p <= k < |order| ==> scores[i] > scores[order[k]]
      {
        p := p - 1;
      }
      InsertAt(scores, order, i, p);
      order := order[..p] + [i] + order[p..];
    }
  }

  lemma NothingSorted(scores: seq<real>)
    ensures SortedBefore(scores, []) && Range(0) == []
  {
  }

  lemma InsertAt(scores: seq<real>, order: seq<nat>, i: nat, p: nat)
    requires i < |scores| && p <= |order| && Indices(order, i) && SortedBefore(scores, order)
    requires multiset(order) == multiset(Range(i))
    requires forall k :: p <= k < |order| ==> scores[i] > scores[order[k]]
    requires p > 0 ==> scores[i] <= scores[order[p - 1]]
    ensures var r := order[..p] + [i] + order[p..];
      Indices(r, i + 1) && SortedBefore(scores, r) && multiset(r) == multiset(Range(i + 1))
  {
    forall k | 0 <= k < p
      ensures Before(scores, order[k], i)
    {
      assert k < p - 1 ==> Before(scores, order[k], order[p - 1]);
    }
    hide *;
    InsertSorted(scores, order, i, p);
    MultisetInsert(order, i, p);
  }

  lemma MultisetInsert(order: seq<nat>, i: nat, p: nat)
    requires p <= |order| && multiset(order) == multiset(Range(i))
    ensures multiset(order[..p] + [i] + order[p..]) == multiset(Range(i + 1))
  {
    assert order == order[..p] + order[p..];
    assert Range(i + 1) == Range(i) + [i];
  }

  lemma InsertSorted(scores: seq<real>, order: seq<nat>, i: nat, p: nat)
    requires i < |scores| && p <= |order| && Indices(order, i) && SortedBefore(scores, order)
    requires forall k :: 0 <= k < p ==> Before(scores, order[k], i)
    requires forall k :: p <= k < |order| ==> scores[i] > scores[order[k]]
    ensures var r := order[..p] + [i] + order[p..]; Indices(r, i + 1) && SortedBefore(scores, r)
  {
    var r := order[..p] + [i] + order[p..];
    assert forall k :: 0 <= k < p ==> r[k] == order[k];
    assert forall k :: p < k < |r| ==> r[k] == order[k - 1];
    assert r[p] == i;
    forall a, b | 0 <= a < b < |r|
      ensures Before(scores, r[a], r[b])
    {
      if a < p && b > p {
        assert Before(scores, order[a], order[b - 1]);
      } else if a > p {
        assert Before(scores, order[a - 1], order[b - 1]);
      } else if b < p {
        assert Before(scores, order[a], order[b]);
      } else if b == p {
        assert r[b] == i && Before(scores, order[a], i);
      } else {
        assert r[a] == i && scores[i] > scores[order[b - 1]];
      }
    }
  }

  // ----- Python: sorted(range(n), key=..., reverse=True) -----

  function Reverse(s: seq<nat>): (r: seq<nat>)
    ensures |r| == |s| && forall k :: 0 <= k < |s| ==> r[k] == s[|s| - 1 - k]
  {
    if s == [] then [] else Reverse(s[1..]) + [s[0]]
  }

  lemma {:induction false} ReverseMultiset(s: seq<nat>)
    ensures multiset(Reverse(s)) == multiset(s)
  {
    if s != [] {
      ReverseMultiset(s[1..]);
      assert s == [s[0]] + s[1..];
    }
  }

  /** Stable ascending insertion: x stands before the elements of s that tie with it. */
  function InsertAscending(scores: seq<real>, x: nat, s: seq<nat>): (r: seq<nat>)
    requires x < |scores| && Indices(s, |scores|)
    ensures Indices(r, |scores|) && multiset(r) == multiset(s) + multiset{x}
  {
    if s == [] || scores[x] <= scores[s[0]] then [x] + s
    else
      assert s == [s[0]] + s[1..];
      [s[0]] + InsertAscending(scores, x, s[1..])
  }

  function SortAscending(scores: seq<real>, s: seq<nat>): (r: seq<nat>)
    requires Indices(s, |scores|)
    ensures Indices(r, |scores|) && multiset(r) == multiset(s)
  {
    if s == [] then []
    else
      assert s == [s[0]] + s[1..];
      InsertAscending(scores, s[0], SortAscending(scores, s[1..]))
  }

  /** CPython sorts in reverse by reversing, sorting stably, and reversing again. */
  function SortedReverse(scores: seq<real>): (r: seq<nat>)
  {
    Reverse(SortAscending(scores, Reverse(Range(|scores|))))
  }

  ghost predicate SortedAfter(scores: seq<real>, s: seq<nat>)
    requires Indices(s, |scores|)
  {
    forall i, j :: 0 <= i < j < |s| ==> Before(scores, s[j], s[i])
  }

  lemma PrependSorted(scores: seq<real>, x: nat, s: seq<nat>)
    requires x < |scores| && Indices(s, |scores|) && SortedAfter(scores, s)
    requires forall j :: 0 <= j < |s| ==> Before(scores, s[j], x)
    ensures Indices([x] + s, |scores|) && SortedAfter(scores, [x] + s)
  {
    hide Before;
    var r := [x] + s;
    assert forall i :: 0 < i < |r| ==> r[i] == s[i - 1];
  }

  lemma TailAfter(scores: seq<real>, s: seq<nat>)
    requires s != [] && Indices(s, |scores|) && SortedAfter(scores, s)
    ensures Indices(s[1..], |scores|) && SortedAfter(scores, s[1..])
    ensures forall j :: 0 < j < |s| ==> Before(scores, s[j], s[0])
  {
    hide Before;
    assert forall i :: 0 <= i < |s| - 1 ==> s[1..][i] == s[i + 1];
  }

  lemma InsertedFrom(scores: seq<real>, x: nat, s: seq<nat>, j: nat)
    requires x < |scores| && Indices(s, |scores|) && j < |InsertAscending(scores, x, s)|
    ensures var v := InsertAscending(scores, x, s)[j]; v == x || v in s
  {
    var t := InsertAscending(scores, x, s);
    assert t[j] in multiset(t);
    assert multiset(t) == multiset(s) + multiset{x};
    hide InsertAscending;
  }

  lemma {:induction false} InsertAscendingSorted(scores: seq<real>, x: nat, s: seq<nat>)
    requires x < |scores| && Indices(s, |scores|) && SortedAfter(scores, s)
    requires forall k :: 0 <= k < |s| ==> s[k] < x
    ensures SortedAfter(scores, InsertAscending(scores, x, s))
  {
    if s == [] || scores[x] <= scores[s[0]] {
      if s != [] {
        TailAfter(scores, s);
      }
      PrependSorted(scores, x, s);
    } else {
      var t := InsertAscending(scores, x, s[1..]);
      TailAfter(scores, s);
      InsertAscendingSorted(scores, x, s[1..]);
      assert InsertAscending(scores, x, s) == [s[0]] + t;
      assert Before(scores, x, s[0]);
      hide InsertAscending, SortedAfter, Before;
      forall j | 0 <= j < |t|
        ensures Before(scores, t[j], s[0])
      {
        InsertedFrom(scores, x, s[1..], j);
        if t[j] != x {
          var k :| 0 <= k < |s| - 1 && s[1..][k] == t[j];
          assert t[j] == s[k + 1];
        }
      }
      PrependSorted(scores, s[0], t);
    }
  }

  lemma {:induction false} SortAscendingSorted(scores: seq<real>, s: seq<nat>)
    requires Indices(s, |scores|)
    requires forall i, j :: 0 <= i < j < |s| ==> s[j] < s[i]
    ensures SortedAfter(scores, SortAscending(scores, s))
  {
    if s != [] {
      var t := SortAscending(scores, s[1..]);
      SortAscendingSorted(scores, s[1..]);
      forall k | 0 <= k < |t|
        ensures t[k] < s[0]
      {
        assert t[k] in multiset(s[1..]);
      }
      InsertAscendingSorted(scores, s[0], t);
    }
  }

  /** Python's reverse sort is the same ranking. */
  lemma SortedReverseRanks(scores: seq<real>)
    ensures IsRanking(scores, SortedReverse(scores))
  {
    var down := Reverse(Range(|scores|));
    assert Indices(down, |scores|);
    var up := SortAscending(scores, down);
    SortAscendingSorted(scores, down);
    ReverseMultiset(Range(|scores|));
    ReverseMultiset(up);
    var r := Reverse(up);
    forall i, j | 0 <= i < j < |r|
      ensures Before(scores, r[i], r[j])
    {
      assert Before(scores, up[|up| - 1 - i], up[|up| - 1 - j]);
    }
  }

  // ----- the best score -----

  ghost predicate IsFirstMax(scores: seq<real>, best: nat) {
    && best < |scores|
    && (forall k :: 0 <= k < |scores| ==> scores[k] <= scores[best])
    && (forall k :: 0 <= k < best ==> scores[k] < scores[best])
  }

  /** Python's max over the indices keeps the first of several maxima. */
  function FirstMax(scores: seq<real>): (best: nat)
    requires scores != []
    ensures IsFirstMax(scores, best)
  {
    FirstMaxUpTo(scores, |scores|)
  }

  function FirstMaxUpTo(scores: seq<real>, n: nat): (best: nat)
    requires 1 <= n <= |scores|
    ensures IsFirstMax(scores[..n], best)
  {
    if n == 1 then 0
    else
      var m := FirstMaxUpTo(scores, n - 1);
      assert forall k :: 0 <= k < n - 1 ==> scores[..n - 1][k] == scores[..n][k];
      if scores[n - 1] > scores[m] then n - 1 else m
  }

  method ArgMax(scores: seq<real>) returns (best: nat)
    ensures if scores == [] then best == 0 else best == FirstMax(scores)
  {
    best := 0;
    var i := 1;
    while i < |scores|
      invariant 1 <= i && best < i && (scores == [] ==> best == 0)
      invariant scores != [] ==> i <= |scores| && IsFirstMax(scores[..i], best)
    {
      assert forall k :: 0 <= k < i ==> scores[..i + 1][k] == scores[..i][k];
      if scores[i] > scores[best] {
        best := i;
      }
      i := i + 1;
    }
    assert scores != [] ==> scores[..i] == scores;
  }

  // ----- the margin gate -----

  datatype MarginDecision = MarginDecision(
    finalTop1: Surface, rerankTop1: Surface, mozcTop1: Surface,
    scoreRerank: real, scoreMozc: real, margin: real, overwritten: bool, mozcMissing: bool)

  /** The first position of v, or the length. */
  function IndexOf(s: seq<Surface>, v: Surface): (i: nat)
    ensures i <= |s| && (i < |s| ==> s[i] == v)
    ensures forall k :: 0 <= k < i ==> s[k] != v
  {
    if s == [] || s[0] == v then 0 else 1 + IndexOf(s[1..], v)
  }

  function Margin(candidates: seq<Surface>, scores: seq<real>, mozcTop1: Surface, tau: real): MarginDecision {
    if candidates == [] || |candidates| != |scores| then
      MarginDecision(mozcTop1, [], mozcTop1, 0.0, 0.0, 0.0, false, true)
    else
      var best := FirstMax(scores);
      var i := IndexOf(candidates, mozcTop1);
      if i == |candidates| then
        MarginDecision(mozcTop1, candidates[best], mozcTop1, scores[best], 0.0, 0.0, false, true)
      else
        var margin := scores[best] - scores[i];
        var over := candidates[best] != mozcTop1 && margin >= tau;
        MarginDecision(if over then candidates[best] else mozcTop1, candidates[best], mozcTop1,
                       scores[best], scores[i], margin, over, false)
  }

  /**
   The gate against the score of Mozc's own candidate, wherever it stands: the best candidate replaces it
   when it is another surface and ahead by tau; without Mozc's candidate nothing is replaced.
   */
  lemma GateExactly(candidates: seq<Surface>, scores: seq<real>, mozcTop1: Surface, tau: real, i: nat, best: nat)
    requires |candidates| == |scores| && IsFirstMax(scores, best)
    requires i < |candidates| && candidates[i] == mozcTop1 && forall k :: 0 <= k < i ==> candidates[k] != mozcTop1
    ensures var d := Margin(candidates, scores, mozcTop1, tau);
      && !d.mozcMissing && d.rerankTop1 == candidates[best] && d.mozcTop1 == mozcTop1
      && d.scoreRerank == scores[best] && d.scoreMozc == scores[i] && d.margin == scores[best] - scores[i]
      && (d.overwritten <==> candidates[best] != mozcTop1 && scores[best] >= scores[i] + tau)
      && d.finalTop1 == if d.overwritten then candidates[best] else mozcTop1
  {
    assert IndexOf(candidates, mozcTop1) == i;
    assert FirstMax(scores) == best;
    hide IndexOf, FirstMax;
  }

  lemma GateWithoutMozc(candidates: seq<Surface>, scores: seq<real>, mozcTop1: Surface, tau: real)
    requires mozcTop1 !in candidates || |candidates| != |scores|
    ensures var d := Margin(candidates, scores, mozcTop1, tau);
      d.mozcMissing && !d.overwritten && d.finalTop1 == mozcTop1
  {
    hide FirstMax;
  }

  method ApplyMargin(candidates: seq<Surface>, scores: seq<real>, mozcTop1: Surface, tau: real)
    returns (d: MarginDecision)
    ensures d == Margin(candidates, scores, mozcTop1, tau)
  {
    d := MarginDecision([], [], mozcTop1, 0.0, 0.0, 0.0, false, false);
    if candidates == [] || |candidates| != |scores| {
      return d.(finalTop1 := mozcTop1, mozcMissing := true);
    }
    var best := ArgMax(scores);
    d := d.(rerankTop1 := candidates[best], scoreRerank := scores[best]);
    var mozc := 0;
    while mozc < |candidates| && candidates[mozc] != mozcTop1
      invariant mozc <= |candidates|
      invariant forall k :: 0 <= k < mozc ==> candidates[k] != mozcTop1
    {
      mozc := mozc + 1;
    }
    if mozc == |candidates| {
      return d.(finalTop1 := mozcTop1, mozcMissing := true);
    }
    d := d.(scoreMozc := scores[mozc], margin := scores[best] - scores[mozc]);
    var over := candidates[best] != mozcTop1 && d.margin >= tau;
    d := d.(overwritten := over, finalTop1 := if over then candidates[best] else mozcTop1);
  }

  // ----- the ranked list -----

  /** The candidates in ranking order, without the ones that spell the final choice. */
  function Others(candidates: seq<Surface>, order: seq<nat>, finalTop1: Surface): seq<Surface>
    requires Indices(order, |candidates|)
  {
    if order == [] then []
    else
      (if candidates[order[0]] != finalTop1 then [candidates[order[0]]] else [])
      + Others(candidates, order[1..], finalTop1)
  }

  lemma {:induction false} OthersSnoc(candidates: seq<Surface>, order: seq<nat>, i: nat, finalTop1: Surface)
    requires Indices(order, |candidates|) && i < |candidates|
    ensures Others(candidates, order + [i], finalTop1) ==
      Others(candidates, order, finalTop1) + if candidates[i] != finalTop1 then [candidates[i]] else []
  {
    if order == [] {
      assert Others(candidates, [i], finalTop1) ==
        (if candidates[i] != finalTop1 then [candidates[i]] else []) + Others(candidates, [], finalTop1);
    } else {
      assert (order + [i])[1..] == order[1..] + [i];
      OthersSnoc(candidates, order[1..], i, finalTop1);
    }
  }

  ghost function Ranked(candidates: seq<Surface>, scores: seq<real>, finalTop1: Surface): (r: seq<Surface>)
    requires |candidates| == |scores|
  {
    SortedReverseRanks(scores);
    [finalTop1] + Others(candidates, SortedReverse(scores), finalTop1)
  }

  method RankedSurfaces(candidates: seq<Surface>, scores: seq<real>, finalTop1: Surface) returns (out: seq<Surface>)
    requires |candidates| == |scores|
    ensures out == Ranked(candidates, scores, finalTop1)
  {
    var order := StableSort(scores);
    hide *;
    SortedReverseRanks(scores);
    RankingUnique(scores, order, SortedReverse(scores));
    RankingIs(scores, order);
    RankedIs(candidates, scores, finalTop1);
    out := [finalTop1];
    OthersNone(candidates, finalTop1);
    for k := 0 to |order|
      invariant Indices(order[..k], |candidates|)
      invariant out == [finalTop1] + Others(candidates, order[..k], finalTop1)
    {
      var i := order[k];
      IndexAt(order, k, |candidates|);
      OthersSnoc(candidates, order[..k], i, finalTop1);
      if candidates[i] != finalTop1 {
        out := out + [candidates[i]];
      }
    }
    assert order[..|order|] == order;
  }

  lemma IndexAt(order: seq<nat>, k: nat, n: nat)
    requires k < |order| && Indices(order, n)
    ensures order[k] < n && Indices(order[..k], n) && Indices(order[..k + 1], n)
    ensures order[..k + 1] == order[..k] + [order[k]]
  {
  }

  lemma OthersNone(candidates: seq<Surface>, finalTop1: Surface)
    ensures Others(candidates, [], finalTop1) == [] && Indices([], |candidates|)
  {
  }

  // ----- the daemon -----

  ghost predicate DaemonJunk(surface: Surface) { Guard.PyJunk(Decode(surface)) }

  /** The scoring part of `rerank`, from the scores on. */
  ghost function DaemonRerank(candidates: seq<Surface>, scores: seq<real>, tau: real): HookResult<Surface>
    requires candidates != [] && |candidates| == |scores|
  {
    var best := FirstMax(scores);
    var over := best != 0 && scores[best] - scores[0] >= tau && !DaemonJunk(candidates[best]);
    var top := if over then candidates[best] else candidates[0];
    HookResult(Ranked(candidates, scores, top), candidates[best], top, over)
  }

  /** The best candidate is another surface, wins by the margin, and is junk to the daemon. */
  ghost predicate JunkWins(candidates: seq<Surface>, scores: seq<real>, tau: real)
    requires candidates != [] && |candidates| == |scores|
  {
    var best := FirstMax(scores);
    candidates[best] != candidates[0] && scores[best] - scores[0] >= tau && DaemonJunk(candidates[best])
  }

  /**
   The two programs choose the same surface and rank the same list exactly when no junk surface
   wins by the margin; ties and duplicates make no difference.
   */
  lemma RankingsAgree(candidates: seq<Surface>, scores: seq<real>, tau: real)
    requires candidates != [] && |candidates| == |scores|
    ensures var cpp := Margin(candidates, scores, candidates[0], tau);
      var py := DaemonRerank(candidates, scores, tau);
      && cpp.rerankTop1 == py.rerankTop1
      && (cpp.finalTop1 == py.finalTop1 && Ranked(candidates, scores, cpp.finalTop1) == py.ranked
          <==> !JunkWins(candidates, scores, tau))
  {
    var best := FirstMax(scores);
    assert IndexOf(candidates, candidates[0]) == 0;
    hide Others, SortedReverse, FirstMax, DaemonJunk, IndexOf;
    var py := DaemonRerank(candidates, scores, tau);
    assert py.ranked[0] == py.finalTop1;
  }

  /** A hiragana candidate against the katakana one: the gate promotes it, the daemon refuses it. */
  lemma KatakanaWins()
    ensures var candidates := [Encode([0x3042]), Encode([0x30A2])];
      var cpp := Margin(candidates, [0.0, 3.0], candidates[0], 2.5);
      var py := DaemonRerank(candidates, [0.0, 3.0], 2.5);
      cpp.finalTop1 == candidates[1] && py.finalTop1 == candidates[0] && cpp.overwritten && !py.overwritten
  {
    var candidates := [Encode([0x3042]), Encode([0x30A2])];
    DecodeEncode([0x3042]);
    DecodeEncode([0x30A2]);
    KatakanaIsJunk();
    assert FirstMax([0.0, 3.0]) == 1;
    hide Encode, Decode, Guard.PyJunk, Ranked, FirstMax;
    assert candidates[0] != candidates[1];
    assert IndexOf(candidates, candidates[0]) == 0;
  }

  lemma KatakanaIsJunk()
    ensures Guard.PyJunk([0x30A2])
  {
    var s: U32 := [0x30A2];
    assert Guard.IsKana(s[0]);
  }

  /** Their `overwritten` flags differ in one more case: the best candidate repeats the first one. */
  lemma FlagsAgree(candidates: seq<Surface>, scores: seq<real>, tau: real)
    requires candidates != [] && |candidates| == |scores|
    ensures var best := FirstMax(scores);
      var wide := scores[best] - scores[0] >= tau;
      var repeated := best != 0 && candidates[best] == candidates[0];
      Margin(candidates, scores, candidates[0], tau).overwritten == DaemonRerank(candidates, scores, tau).overwritten
      <==> !(wide && best != 0 && (repeated != DaemonJunk(candidates[best])))
  {
    assert IndexOf(candidates, candidates[0]) == 0;
    hide Others, SortedReverse, FirstMax, DaemonJunk, IndexOf, Ranked;
  }

  // ----- what a ranked list contains -----

  lemma {:induction false} OthersCount(candidates: seq<Surface>, order: seq<nat>, finalTop1: Surface, v: Surface)
    requires Indices(order, |candidates|)
    ensures multiset(Others(candidates, order, finalTop1))[v] == if v == finalTop1 then 0
      else CountAt(candidates, order, v)
  {
    if order != [] {
      OthersCount(candidates, order[1..], finalTop1, v);
    }
  }

  /** How many of the listed positions hold v. */
  ghost function CountAt(candidates: seq<Surface>, order: seq<nat>, v: Surface): nat
    requires Indices(order, |candidates|)
  {
    if order == [] then 0 else (if candidates[order[0]] == v then 1 else 0) + CountAt(candidates, order[1..], v)
  }

  lemma {:induction false} CountRemove(candidates: seq<Surface>, order: seq<nat>, k: nat, v: Surface)
    requires Indices(order, |candidates|) && k < |order|
    ensures CountAt(candidates, order, v) ==
      CountAt(candidates, order[..k] + order[k + 1..], v) + if candidates[order[k]] == v then 1 else 0
  {
    var rest := order[..k] + order[k + 1..];
    if k == 0 {
      assert rest == order[1..];
    } else {
      CountRemove(candidates, order[1..], k - 1, v);
      assert rest[1..] == order[1..][..k - 1] + order[1..][k..];
      assert rest[0] == order[0];
    }
  }

  lemma {:induction false} CountPermutation(candidates: seq<Surface>, a: seq<nat>, b: seq<nat>, v: Surface)
    requires Indices(a, |candidates|) && Indices(b, |candidates|) && multiset(a) == multiset(b)
    ensures CountAt(candidates, a, v) == CountAt(candidates, b, v)
  {
    assert |multiset(a)| == |a| && |multiset(b)| == |b|;
    if a == [] {
    } else {
      assert a[0] in multiset(b);
      var k :| 0 <= k < |b| && b[k] == a[0];
      var rest := b[..k] + b[k + 1..];
      assert Indices(a[1..], |candidates|) && Indices(rest, |candidates|);
      CountRemove(candidates, b, k, v);
      CountHead(candidates, a, v);
      hide CountAt, Indices;
      MultisetRemove(b, k);
      MultisetTail(a);
      CountPermutation(candidates, a[1..], rest, v);
    }
  }

  lemma CountHead(candidates: seq<Surface>, a: seq<nat>, v: Surface)
    requires a != [] && Indices(a, |candidates|)
    ensures Indices(a[1..], |candidates|)
    ensures CountAt(candidates, a, v) == CountAt(candidates, a[1..], v) + if candidates[a[0]] == v then 1 else 0
  {
  }

  lemma MultisetRemove<T>(s: seq<T>, k: nat)
    requires k < |s|
    ensures multiset(s[..k] + s[k + 1..]) == multiset(s) - multiset{s[k]}
  {
    assert s == s[..k] + [s[k]] + s[k + 1..];
  }

  lemma {:induction false} CountRange(candidates: seq<Surface>, n: nat, v: Surface)
    requires n <= |candidates|
    ensures CountAt(candidates, Range(n), v) == multiset(candidates[..n])[v]
  {
    if n > 0 {
      CountRange(candidates, n - 1, v);
      var r := Range(n);
      assert r[..n - 1] + r[n..] == Range(n - 1);
      CountRemove(candidates, r, n - 1, v);
      assert candidates[..n] == candidates[..n - 1] + [candidates[n - 1]];
    }
  }

  /** Nothing lost but repetitions of the winner, nothing invented. */
  lemma RankedContents(candidates: seq<Surface>, scores: seq<real>, finalTop1: Surface, v: Surface)
    requires |candidates| == |scores|
    ensures multiset(Ranked(candidates, scores, finalTop1))[v] ==
      if v == finalTop1 then 1 else multiset(candidates)[v]
  {
    hide *;
    SortedReverseRanks(scores);
    var order := SortedReverse(scores);
    RankingIs(scores, order);
    OthersCount(candidates, order, finalTop1, v);
    RangeIndices(|scores|);
    CountPermutation(candidates, order, Range(|scores|), v);
    CountRange(candidates, |candidates|, v);
    assert candidates[..|candidates|] == candidates;
    RankedIs(candidates, scores, finalTop1);
    assert multiset([finalTop1] + Others(candidates, order, finalTop1)) ==
      multiset{finalTop1} + multiset(Others(candidates, order, finalTop1));
  }

  lemma RankingIs(scores: seq<real>, order: seq<nat>)
    requires IsRanking(scores, order)
    ensures Indices(order, |scores|) && multiset(order) == multiset(Range(|scores|))
  {
  }

  lemma RangeIndices(n: nat)
    ensures Indices(Range(n), n)
  {
  }

  lemma RankedIs(candidates: seq<Surface>, scores: seq<real>, finalTop1: Surface)
    requires |candidates| == |scores| && Indices(SortedReverse(scores), |candidates|)
    ensures Ranked(candidates, scores, finalTop1) == [finalTop1] + Others(candidates, SortedReverse(scores), finalTop1)
  {
  }
}
