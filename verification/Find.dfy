/** std::string::find, and when a first occurrence is where one expects it. */
module Find {
  import opened Text

  predicate OccursAt(s: string, t: string, p: nat) { p + |t| <= |s| && s[p..p + |t|] == t }

  /** A key as it stands in JSON. */
  function Needle(key: string): string { "\"" + key + "\"" }

  /** The first occurrence of t at or after i. */
  function IndexFrom(s: string, t: string, i: nat): (r: Option<nat>)
    ensures r.Some? ==> i <= r.value && OccursAt(s, t, r.value)
    ensures r.Some? ==> forall p :: i <= p < r.value ==> !OccursAt(s, t, p)
    ensures r.None? ==> forall p :: i <= p ==> !OccursAt(s, t, p)
    decreases |s| - i
  {
    if i + |t| > |s| then None
    else if OccursAt(s, t, i) then Some(i)
    else IndexFrom(s, t, i + 1)
  }

  lemma IndexIs(s: string, t: string, i: nat, r: nat)
    requires i <= r && OccursAt(s, t, r) && forall p :: i <= p < r ==> !OccursAt(s, t, p)
    ensures IndexFrom(s, t, i) == Some(r)
  {
    hide OccursAt;
    var f := IndexFrom(s, t, i);
    assert f.Some?;
    assert f.value == r;
  }

  /** No occurrence of t in x + rest begins inside x. */
  ghost predicate Clear(x: string, t: string, rest: string) {
    forall p :: 0 <= p < |x| ==> !OccursAt(x + rest, t, p)
  }

  lemma OccursShift(x: string, s: string, t: string, p: nat)
    ensures OccursAt(x + s, t, |x| + p) <==> OccursAt(s, t, p)
  {
    if p + |t| <= |s| {
      assert (x + s)[|x| + p..|x| + p + |t|] == s[p..p + |t|];
    }
  }

  lemma ClearAppend(x: string, y: string, t: string, rest: string)
    requires Clear(x, t, y + rest) && Clear(y, t, rest)
    ensures Clear(x + y, t, rest)
  {
    assert x + y + rest == x + (y + rest);
    forall p | 0 <= p < |x + y|
      ensures !OccursAt(x + y + rest, t, p)
    {
      if p >= |x| {
        OccursShift(x, y + rest, t, p - |x|);
      }
    }
  }

  lemma ClearEmpty(t: string, rest: string)
    ensures Clear("", t, rest)
  {
  }

  /** An occurrence begins with the first character of t. */
  lemma ClearWithout(x: string, t: string, rest: string)
    requires t != "" && forall k :: 0 <= k < |x| ==> x[k] != t[0]
    ensures Clear(x, t, rest)
  {
    forall p | 0 <= p < |x|
      ensures !OccursAt(x + rest, t, p)
    {
      if p + |t| <= |x + rest| {
        assert (x + rest)[p..p + |t|][0] == x[p];
      }
    }
  }

  /** Behind a clear prefix, the first occurrence is the one that follows it. */
  lemma FirstOccurrence(pre: string, t: string, post: string)
    requires Clear(pre, t, t + post)
    ensures IndexFrom(pre + t + post, t, 0) == Some(|pre|)
  {
    var s := pre + t + post;
    assert s == pre + (t + post);
    assert s[|pre|..|pre| + |t|] == t;
    hide OccursAt, IndexFrom;
    assert OccursAt(s, t, |pre|) by {
      OccursHere(pre, t, post);
    }
    IndexIs(s, t, 0, |pre|);
  }

  lemma OccursHere(pre: string, t: string, post: string)
    ensures OccursAt(pre + t + post, t, |pre|)
  {
    assert (pre + t + post)[|pre|..|pre| + |t|] == t;
  }

  // ----- where a one-character mark is found -----

  lemma Reassociate(a: string, b: string, c: string)
    ensures a + b + c == a + (b + c)
  {
  }

  /** Behind a gap that does not hold it, the mark is found right there. */
  lemma MarkAt(head: string, gap: string, mark: string, rest: string)
    requires |mark| == 1 && forall k :: 0 <= k < |gap| ==> gap[k] != mark[0]
    ensures IndexFrom(head + (gap + mark + rest), mark, |head|) == Some(|head| + |gap|)
  {
    hide *;
    MarkThere(head, gap, mark, rest);
    MarkNotBefore(head, gap, mark, rest);
    IndexIs(head + (gap + mark + rest), mark, |head|, |head| + |gap|);
  }

  lemma MarkThere(head: string, gap: string, mark: string, rest: string)
    ensures OccursAt(head + (gap + mark + rest), mark, |head| + |gap|)
  {
    hide *;
    OccursHere(gap, mark, rest);
    OccursShift(head, gap + mark + rest, mark, |gap|);
  }

  lemma MarkNotBefore(head: string, gap: string, mark: string, rest: string)
    requires |mark| == 1 && forall k :: 0 <= k < |gap| ==> gap[k] != mark[0]
    ensures forall p :: |head| <= p < |head| + |gap| ==> !OccursAt(head + (gap + mark + rest), mark, p)
  {
    hide *;
    Reassociate(gap, mark, rest);
    ClearWithout(gap, mark, mark + rest);
    ClearShift(head, gap, mark, mark + rest);
  }

  lemma ClearShift(head: string, gap: string, t: string, rest: string)
    requires Clear(gap, t, rest)
    ensures forall p :: |head| <= p < |head| + |gap| ==> !OccursAt(head + (gap + rest), t, p)
  {
    forall p | |head| <= p < |head| + |gap|
      ensures !OccursAt(head + (gap + rest), t, p)
    {
      OccursShift(head, gap + rest, t, p - |head|);
      assert !OccursAt(gap + rest, t, p - |head|);
      hide OccursAt;
    }
  }
}
