/** Byte strings, code-point strings and the sequence helpers shared by the text modules. */
module Text {
  datatype Option<+T> = None | Some(value: T)

  /** The daemon's answer: the ranked surfaces, its own choice, the final one, and whether that is an overwrite. */
  datatype HookResult<+S> = HookResult(ranked: seq<S>, rerankTop1: S, finalTop1: S, overwritten: bool)

  /** An octet of a C++ std::string. */
  type Byte = b: int | 0 <= b < 0x100
  type Bytes = seq<Byte>

  /** The value of a candidate of the reranker. */
  type Surface = Bytes

  /** A char32_t as the hand-written decoder can produce it: four-byte forms carry 21 bits. */
  type CodePoint = c: int | 0 <= c < 0x200000
  type U32 = seq<CodePoint>

  ghost predicate All(s: U32, p: CodePoint -> bool) { forall k :: 0 <= k < |s| ==> p(s[k]) }

  /** How many leading characters satisfy p: where a `while (p(s[j])) ++j` loop stops. */
  function Span(s: U32, p: CodePoint -> bool): (n: nat)
    ensures n <= |s|
    ensures forall k :: 0 <= k < n ==> p(s[k])
    ensures n < |s| ==> !p(s[n])
  {
    if s == [] || !p(s[0]) then 0 else 1 + Span(s[1..], p)
  }

  /** The two facts that pin Span down. */
  lemma {:induction false} SpanUnique(s: U32, p: CodePoint -> bool, n: nat)
    requires n <= |s|
    requires forall k :: 0 <= k < n ==> p(s[k])
    requires n < |s| ==> !p(s[n])
    ensures Span(s, p) == n
  {
    if n > 0 {
      SpanUnique(s[1..], p, n - 1);
    }
  }

  /** The same between two positions a <= j <= e of s, seen from position i. */
  lemma SpanFrom(s: U32, i: nat, a: nat, j: nat, e: nat, p: CodePoint -> bool)
    requires i <= a <= j <= e <= |s|
    requires forall k :: a <= k < j ==> p(s[k])
    requires j < e ==> !p(s[j])
    ensures Span(s[i..][a - i..e - i], p) == j - a
    ensures e == |s| ==> Span(s[i..][a - i..], p) == j - a
  {
    hide *;
    var t := s[i..][a - i..e - i];
    assert forall k :: 0 <= k < j - a ==> t[k] == s[a + k];
    SpanUnique(t, p, j - a);
    assert e == |s| ==> s[i..][a - i..] == t;
  }

  /** Slices of a suffix are slices of the whole. */
  lemma SliceOfTail<T>(s: seq<T>, i: nat, a: nat, b: nat)
    requires i <= a <= b <= |s|
    ensures s[i..][a - i..b - i] == s[a..b]
  {
  }

  method SkipWhile(s: U32, i: nat, p: CodePoint -> bool) returns (j: nat)
    requires i <= |s|
    ensures j == i + Span(s[i..], p)
  {
    j := i;
    while j < |s| && p(s[j])
      invariant i <= j <= |s|
      invariant forall k :: i <= k < j ==> p(s[k])
    {
      j := j + 1;
    }
    SpanUnique(s[i..], p, j - i);
  }

  function Map(f: CodePoint -> CodePoint, s: U32): (r: U32)
    ensures |r| == |s| && forall k :: 0 <= k < |s| ==> r[k] == f(s[k])
  {
    if s == [] then [] else [f(s[0])] + Map(f, s[1..])
  }

  /** a can be obtained from b by deleting elements. */
  ghost predicate IsSubseq<T(!new)>(a: seq<T>, b: seq<T>)
    decreases |b|
  {
    if a == [] then true
    else if b == [] then false
    else if a[0] == b[0] then IsSubseq(a[1..], b[1..])
    else IsSubseq(a, b[1..])
  }

  /** Lexicographic order on sequences of numbers. */
  predicate LexLess(a: seq<int>, b: seq<int>) {
    if b == [] then false
    else if a == [] then true
    else a[0] < b[0] || (a[0] == b[0] && LexLess(a[1..], b[1..]))
  }

  lemma {:induction false} LexIrreflexive(a: seq<int>)
    ensures !LexLess(a, a)
  {
    if a != [] {
      LexIrreflexive(a[1..]);
    }
  }

  lemma {:induction false} LexTransitive(a: seq<int>, b: seq<int>, c: seq<int>)
    requires LexLess(a, b) && LexLess(b, c)
    ensures LexLess(a, c)
  {
    if a != [] && a[0] == b[0] == c[0] {
      LexTransitive(a[1..], b[1..], c[1..]);
    }
  }

  /** A common prefix does not influence the order. */
  lemma {:induction false} LexCommonPrefix(p: seq<int>, a: seq<int>, b: seq<int>)
    ensures LexLess(p + a, p + b) <==> LexLess(a, b)
  {
    if p == [] {
      assert p + a == a && p + b == b;
    } else {
      LexCommonPrefix(p[1..], a, b);
      assert (p + a)[1..] == p[1..] + a && (p + b)[1..] == p[1..] + b;
    }
  }

  /** The first difference decides the order. */
  lemma {:induction false} LexAtDifference(a: seq<int>, b: seq<int>, k: nat)
    requires k < |a| && k < |b|
    requires a[..k] == b[..k] && a[k] < b[k]
    ensures LexLess(a, b) && !LexLess(b, a)
  {
    assert a == a[..k] + a[k..] && b == a[..k] + b[k..];
    LexCommonPrefix(a[..k], a[k..], b[k..]);
    LexCommonPrefix(a[..k], b[k..], a[k..]);
  }
}
