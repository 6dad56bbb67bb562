/** Segments and the in-place reordering of mozc_compat/rerank_rewriter.cc. */
module Reorder {
  import opened Text
  import opened Subsequence

  datatype Candidate = Candidate(value: Surface, contentValue: Surface, contentKey: Surface, description: Surface,
    cost: int)

  function Values(c: seq<Candidate>): (v: seq<Surface>)
    ensures |v| == |c| && forall k :: 0 <= k < |c| ==> v[k] == c[k].value
  {
    seq(|c|, i requires 0 <= i < |c| => c[i].value)
  }

  /** The first candidate that spells v, or the length. */
  function Find(c: seq<Candidate>, v: Surface): (i: nat)
    ensures i <= |c| && (i < |c| ==> c[i].value == v)
    ensures forall k :: 0 <= k < i ==> c[k].value != v
  {
    if c == [] || c[0].value == v then 0 else 1 + Find(c[1..], v)
  }

  lemma {:induction false} FindUnique(c: seq<Candidate>, v: Surface, i: nat)
    requires i <= |c| && (i < |c| ==> c[i].value == v)
    requires forall k :: 0 <= k < i ==> c[k].value != v
    ensures Find(c, v) == i
  {
    if i > 0 {
      FindUnique(c[1..], v, i - 1);
    }
  }

  function Without(c: seq<Candidate>, k: nat): (d: seq<Candidate>)
    requires k < |c|
    ensures |d| == |c| - 1
  {
    c[..k] + c[k + 1..]
  }

  /** Take the ranked surfaces in turn: the first candidate spelling it moves up, or the next one stays. */
  function Reordered(c: seq<Candidate>, ranked: seq<Surface>): seq<Candidate>
    decreases |ranked|
  {
    if c == [] || ranked == [] then c
    else
      var k := Find(c, ranked[0]);
      if k < |c| then [c[k]] + Reordered(Without(c, k), ranked[1..])
      else [c[0]] + Reordered(c[1..], ranked[1..])
  }

  /** Mozc's move_candidate for an earlier target: what stood between moves down by one. */
  function Moved(c: seq<Candidate>, from: nat, to: nat): (d: seq<Candidate>)
    requires to < from < |c|
    ensures |d| == |c| && d[to] == c[from]
  {
    c[..to] + [c[from]] + c[to..from] + c[from + 1..]
  }

  class Segment {
    const key: Surface
    var candidates: seq<Candidate>

    constructor (key: Surface, candidates: seq<Candidate>)
      ensures this.key == key && this.candidates == candidates
    {
      this.key := key;
      this.candidates := candidates;
    }

    method MoveCandidate(from: nat, to: nat)
      requires to < from < |candidates|
      modifies this`candidates
      ensures candidates == Moved(old(candidates), from, to)
    {
      candidates := candidates[..to] + [candidates[from]] + candidates[to..from] + candidates[from + 1..];
    }
  }

  /** found: the first position from t on that spells v, or the length. */
  ghost predicate FoundFrom(c: seq<Candidate>, v: Surface, t: nat, found: nat) {
    && t <= found <= |c|
    && (found < |c| ==> c[found].value == v)
    && (forall k :: t <= k < found ==> c[k].value != v)
  }

  lemma FindInTail(c: seq<Candidate>, v: Surface, t: nat, found: nat)
    requires FoundFrom(c, v, t, found)
    ensures Find(c[t..], v) == found - t
  {
    var s := c[t..];
    assert forall k :: 0 <= k < found - t ==> s[k] == c[t + k];
    hide Find;
    FindUnique(s, v, found - t);
  }

  lemma ReorderedUnfold(c: seq<Candidate>, r: seq<Surface>, k: nat)
    requires c != [] && r != [] && k == Find(c, r[0])
    ensures k < |c| ==> Reordered(c, r) == [c[k]] + Reordered(Without(c, k), r[1..])
    ensures k == |c| || k == 0 ==> Reordered(c, r) == [c[0]] + Reordered(c[1..], r[1..])
  {
    if k == 0 {
      assert Without(c, 0) == c[1..];
    }
    hide Find;
  }

  lemma StepStays(c: seq<Candidate>, r: seq<Surface>, t: nat, found: nat)
    requires t < |c| && t < |r| && FoundFrom(c, r[t], t, found) && (found == |c| || found == t)
    ensures c[..t] + Reordered(c[t..], r[t..]) == c[..t + 1] + Reordered(c[t + 1..], r[t + 1..])
  {
    hide *;
    FindInTail(c, r[t], t, found);
    ReorderedUnfold(c[t..], r[t..], found - t);
    assert r[t..][1..] == r[t + 1..];
    assert c[t..][1..] == c[t + 1..];
    assert c[..t + 1] == c[..t] + [c[t]];
  }

  lemma StepMoves(c: seq<Candidate>, r: seq<Surface>, t: nat, found: nat)
    requires t < |c| && t < |r| && FoundFrom(c, r[t], t, found) && t < found < |c|
    ensures var d := Moved(c, found, t);
      c[..t] + Reordered(c[t..], r[t..]) == d[..t + 1] + Reordered(d[t + 1..], r[t + 1..])
  {
    hide *;
    FindInTail(c, r[t], t, found);
    ReorderedUnfold(c[t..], r[t..], found - t);
    assert r[t..][1..] == r[t + 1..];
    MovedParts(c, found, t);
  }

  lemma MovedParts(c: seq<Candidate>, from: nat, to: nat)
    requires to < from < |c|
    ensures var d := Moved(c, from, to);
      d[..to + 1] == c[..to] + [c[from]] && d[to + 1..] == Without(c[to..], from - to)
    ensures forall k :: 0 <= k < to ==> Moved(c, from, to)[k] == c[k]
  {
  }

  lemma ReorderedDone(c: seq<Candidate>, r: seq<Surface>, t: nat)
    requires t <= |c| && t <= |r| && (t == |c| || t == |r|)
    ensures c[..t] + Reordered(c[t..], r[t..]) == c
  {
  }

  method FindCandidate(segment: Segment, target: nat, v: Surface) returns (found: nat)
    requires target <= |segment.candidates|
    ensures FoundFrom(segment.candidates, v, target, found)
  {
    found := target;
    while found < |segment.candidates| && segment.candidates[found].value != v
      invariant target <= found <= |segment.candidates|
      invariant forall k :: target <= k < found ==> segment.candidates[k].value != v
    {
      found := found + 1;
    }
  }

  /** Reorders in place; the flag says whether the sequence of surfaces is a different one. */
  method ReorderSegment(segment: Segment, ranked: seq<Surface>) returns (changed: bool)
    modifies segment`candidates
    ensures segment.candidates == Reordered(old(segment.candidates), ranked)
    ensures changed <==> Values(segment.candidates) != Values(old(segment.candidates))
  {
    hide *;
    changed := false;
    ghost var before := segment.candidates;
    ghost var moved := 0;
    ReorderedStart(before, ranked);
    var limit := if |ranked| < |segment.candidates| then |ranked| else |segment.candidates|;
    for target := 0 to limit
      invariant |segment.candidates| == |before|
      invariant segment.candidates[..target] + Reordered(segment.candidates[target..], ranked[target..]) ==
        Reordered(before, ranked)
      invariant !changed ==> segment.candidates == before
      invariant changed ==> moved < target && segment.candidates[moved].value != before[moved].value
    {
      var c := segment.candidates;
      var found := FindCandidate(segment, target, ranked[target]);
      FoundIs(c, ranked[target], target, found);
      if found < |c| && found > target {
        StepMoves(c, ranked, target, found);
        MovedParts(c, found, target);
        segment.MoveCandidate(found, target);
        if !changed {
          moved := target;
        }
        changed := true;
      } else {
        StepStays(c, ranked, target, found);
      }
    }
    ReorderedDone(segment.candidates, ranked, limit);
    ValuesDiffer(before, segment.candidates, moved);
  }

  lemma FoundIs(c: seq<Candidate>, v: Surface, t: nat, found: nat)
    requires FoundFrom(c, v, t, found)
    ensures t <= found <= |c| && (found < |c| ==> c[found].value == v)
    ensures t < found < |c| ==> c[t].value != v
  {
  }

  lemma ReorderedStart(c: seq<Candidate>, r: seq<Surface>)
    ensures c[..0] + Reordered(c[0..], r[0..]) == Reordered(c, r)
  {
    assert c[0..] == c && r[0..] == r;
  }

  lemma ValuesDiffer(a: seq<Candidate>, b: seq<Candidate>, k: nat)
    ensures k < |a| && k < |b| && a[k].value != b[k].value ==> Values(a) != Values(b)
  {
    if k < |a| && k < |b| && a[k].value != b[k].value {
      assert Values(a)[k] != Values(b)[k];
    }
  }

  // ----- what the reordering does -----

  lemma WithoutMultiset(c: seq<Candidate>, k: nat)
    requires k < |c|
    ensures multiset(Without(c, k)) + multiset{c[k]} == multiset(c)
  {
    assert c == c[..k] + [c[k]] + c[k + 1..];
  }

  /** No candidate is lost or invented, whatever the ranked list says. */
  lemma {:induction false} ReorderedPermutes(c: seq<Candidate>, ranked: seq<Surface>)
    ensures multiset(Reordered(c, ranked)) == multiset(c)
    decreases |ranked|
  {
    if c != [] && ranked != [] {
      var k := Find(c, ranked[0]);
      if k < |c| {
        ReorderedPermutes(Without(c, k), ranked[1..]);
        WithoutMultiset(c, k);
      } else {
        ReorderedPermutes(c[1..], ranked[1..]);
        WithoutMultiset(c, 0);
        assert Without(c, 0) == c[1..];
      }
      hide Find, Without;
    }
  }

  lemma OwnHeadParts(c: seq<Candidate>, n: nat)
    requires 0 < n <= |c|
    ensures Without(c, 0) == c[1..] && Values(c[..n])[1..] == Values(c[1..][..n - 1])
    ensures Values(c[..n])[0] == c[0].value && c == [c[0]] + c[1..]
  {
  }

  /** The list's own head as the ranking changes nothing. */
  lemma {:induction false} ReorderedOwnHead(c: seq<Candidate>, n: nat)
    requires n <= |c|
    ensures Reordered(c, Values(c[..n])) == c
    decreases n
  {
    if n > 0 {
      FindUnique(c, Values(c[..n])[0], 0);
      OwnHeadParts(c, n);
      ReorderedOwnHead(c[1..], n - 1);
      hide Values, Without;
    }
  }

  lemma ValuesRemove(c: seq<Candidate>, n: nat, k: nat)
    requires k < n <= |c|
    ensures var d := Without(c, k);
      && d[..n - 1] == Without(c[..n], k) && d[n - 1..] == c[n..]
      && multiset(Values(d[..n - 1])) == multiset(Values(c[..n])) - multiset{c[k].value}
  {
    var d := Without(c, k);
    var v := Values(c[..n]);
    assert d[..n - 1] == Without(c[..n], k);
    assert v == v[..k] + [v[k]] + v[k + 1..];
    assert Values(d[..n - 1]) == v[..k] + v[k + 1..];
  }

  lemma WithoutIsSubseq(c: seq<Candidate>, k: nat)
    requires k < |c|
    ensures IsSubseq(Without(c, k), c)
  {
    hide *;
    var a, x, b := c[..k], c[k], c[k + 1..];
    assert c == a + ([x] + b);
    WithoutIs(c, k);
    SubseqRefl(a);
    SubseqRefl(b);
    SubseqSkip(b, x, b);
    SubseqAppend(a, a, b, [x] + b);
  }

  lemma WithoutIs(c: seq<Candidate>, k: nat)
    requires k < |c|
    ensures Without(c, k) == c[..k] + c[k + 1..]
  {
  }

  /**
   d has the ranked surfaces on top exactly as ranked; the rest of the first n candidates of c follow
   in their old order; from position n on nothing has moved.
   */
  ghost predicate RankedOnTop(c: seq<Candidate>, ranked: seq<Surface>, n: nat, d: seq<Candidate>) {
    && |ranked| <= n <= |c| && |d| == |c|
    && Values(d[..|ranked|]) == ranked
    && IsSubseq(d[|ranked|..n], c[..n])
    && d[n..] == c[n..]
  }

  /** Any ranked list drawn from the first n surfaces comes out on top. */
  lemma {:induction false} ReorderedFront(c: seq<Candidate>, ranked: seq<Surface>, n: nat)
    requires n <= |c| && multiset(ranked) <= multiset(Values(c[..n]))
    ensures RankedOnTop(c, ranked, n, Reordered(c, ranked))
    decreases |ranked|
  {
    hide *;
    if ranked == [] {
      ReorderedNone(c, n);
    } else {
      var k := PickRanked(c, ranked, n);
      ValuesRemove(c, n, k);
      ReorderedUnfold(c, ranked, k);
      ReorderedFront(Without(c, k), ranked[1..], n - 1);
      RankedOnTopCons(c, ranked, n, k, Reordered(Without(c, k), ranked[1..]));
    }
  }

  lemma RankedOnTopCons(c: seq<Candidate>, ranked: seq<Surface>, n: nat, k: nat, f: seq<Candidate>)
    requires k < n <= |c| && ranked != [] && c[k].value == ranked[0]
    requires RankedOnTop(Without(c, k), ranked[1..], n - 1, f)
    ensures RankedOnTop(c, ranked, n, [c[k]] + f)
  {
    var e, r := Without(c, k), ranked[1..];
    hide Values, Without, IsSubseq;
    ValuesRemove(c, n, k);
    FrontSlices(c[k], f, |r|, n - 1);
    FrontValues(c[k], f, ranked);
    WithoutIsSubseq(c[..n], k);
    SubseqTrans(f[|r|..n - 1], e[..n - 1], c[..n]);
  }

  lemma ReorderedNone(c: seq<Candidate>, n: nat)
    requires n <= |c|
    ensures Reordered(c, []) == c && RankedOnTop(c, [], n, c)
  {
    SubseqRefl(c[..n]);
    assert c[0..n] == c[..n];
  }

  lemma FrontSlices(x: Candidate, f: seq<Candidate>, a: nat, b: nat)
    requires a <= b <= |f|
    ensures var d := [x] + f; d[a + 1..b + 1] == f[a..b] && d[b + 1..] == f[b..]
  {
  }

  /** The next ranked surface is found among the first n, and what is left of both still fits. */
  lemma PickRanked(c: seq<Candidate>, ranked: seq<Surface>, n: nat) returns (k: nat)
    requires n <= |c| && ranked != [] && multiset(ranked) <= multiset(Values(c[..n]))
    ensures k < n && k == Find(c, ranked[0]) && c[k].value == ranked[0]
    ensures multiset(ranked[1..]) <= multiset(Values(c[..n])) - multiset{ranked[0]}
  {
    var v := Values(c[..n]);
    assert ranked == [ranked[0]] + ranked[1..];
    assert ranked[0] in multiset(ranked);
    assert ranked[0] in multiset(v);
    var i :| 0 <= i < |v| && v[i] == ranked[0];
    k := Find(c, ranked[0]);
    assert c[i].value == ranked[0];
    hide Find, Values;
  }

  lemma FrontValues(first: Candidate, f: seq<Candidate>, ranked: seq<Surface>)
    requires ranked != [] && first.value == ranked[0] && |f| + 1 >= |ranked|
    requires Values(f[..|ranked| - 1]) == ranked[1..]
    ensures Values(([first] + f)[..|ranked|]) == ranked
  {
    var d := ([first] + f)[..|ranked|];
    var r := ranked[1..];
    forall k | 0 <= k < |ranked|
      ensures Values(d)[k] == ranked[k]
    {
      if k > 0 {
        assert d[k] == f[k - 1] && Values(f[..|ranked| - 1])[k - 1] == r[k - 1];
      }
    }
  }
}
