/** Order-preserving deletion: reflexive, transitive, and compatible with concatenation. */
module Subsequence {
  import opened Text

  lemma {:induction false} SubseqTail<T(!new)>(a: seq<T>, b: seq<T>)
    requires a != [] && IsSubseq(a, b)
    ensures IsSubseq(a[1..], b)
    decreases |b|
  {
    if a[0] == b[0] {
      SubseqSkip(a[1..], b[0], b[1..]);
      assert [b[0]] + b[1..] == b;
    } else {
      SubseqTail(a, b[1..]);
      SubseqSkip(a[1..], b[0], b[1..]);
      assert [b[0]] + b[1..] == b;
    }
  }

  lemma {:induction false} SubseqSkip<T(!new)>(a: seq<T>, x: T, b: seq<T>)
    requires IsSubseq(a, b)
    ensures IsSubseq(a, [x] + b)
    decreases |b|
  {
    assert ([x] + b)[1..] == b;
    if a != [] && a[0] == x {
      if a[0] == b[0] {
        SubseqSkip(a[1..], b[0], b[1..]);
        assert [b[0]] + b[1..] == b;
      } else {
        SubseqTail(a, b[1..]);
        SubseqSkip(a[1..], b[0], b[1..]);
        assert [b[0]] + b[1..] == b;
      }
    }
  }

  lemma {:induction false} SubseqRefl<T(!new)>(a: seq<T>)
    ensures IsSubseq(a, a)
  {
    if a != [] {
      SubseqRefl(a[1..]);
    }
  }

  lemma {:induction false} SubseqAppend<T(!new)>(a: seq<T>, b: seq<T>, c: seq<T>, d: seq<T>)
    requires IsSubseq(a, b) && IsSubseq(c, d)
    ensures IsSubseq(a + c, b + d)
    decreases |b|
  {
    if b == [] {
      assert a + c == c && b + d == d;
    } else {
      assert (b + d)[1..] == b[1..] + d;
      if a == [] {
        SubseqAppend(a, b[1..], c, d);
        SubseqSkip(a + c, b[0], b[1..] + d);
        assert b + d == [b[0]] + (b[1..] + d);
      } else if a[0] == b[0] {
        SubseqAppend(a[1..], b[1..], c, d);
        assert (a + c)[1..] == a[1..] + c;
      } else {
        SubseqAppend(a, b[1..], c, d);
      }
    }
  }

  lemma {:induction false} SubseqTrans<T(!new)>(a: seq<T>, b: seq<T>, c: seq<T>)
    requires IsSubseq(a, b) && IsSubseq(b, c)
    ensures IsSubseq(a, c)
    decreases |c|
  {
    if a != [] {
      assert c == [c[0]] + c[1..];
      if b[0] == c[0] {
        if a[0] == b[0] {
          SubseqTrans(a[1..], b[1..], c[1..]);
        } else {
          SubseqTrans(a, b[1..], c[1..]);
          SubseqSkip(a, c[0], c[1..]);
        }
      } else {
        SubseqTrans(a, b, c[1..]);
        SubseqSkip(a, c[0], c[1..]);
      }
    }
  }

  lemma SubseqInside<T(!new)>(u: seq<T>, x: seq<T>, v: seq<T>)
    ensures IsSubseq(x, u + x + v)
  {
    SubseqRefl(x);
    assert IsSubseq<T>([], u) && IsSubseq<T>([], v);
    hide *;
    SubseqAppend([], u, x, x);
    SubseqAppend([] + x, u + x, [], v);
    assert [] + x + [] == x;
  }
}
