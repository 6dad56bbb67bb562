/** Squeezing commutes with everything the scanners do: how many spaces stood somewhere never matters. */
module SpaceSqueeze {
  import opened Text
  import opened ContextClip

  // ----- squeezing -----

  lemma SqueezeCons(c: CodePoint, s: U32)
    ensures Squeeze([c] + s) == if IsSpaceLike(c) then [SPACE] + DropLead(Squeeze(s)) else [c] + Squeeze(s)
  {
    assert ([c] + s)[1..] == s;
    hide IsSpaceLike;
  }

  lemma SqueezeHead(s: U32)
    requires s != []
    ensures Squeeze(s) != [] && Squeeze(s)[0] == if IsSpaceLike(s[0]) then SPACE else s[0]
  {
    hide IsSpaceLike;
  }

  lemma {:induction false} SqueezeAppend(p: U32, q: U32)
    requires q != [] ==> !IsSpaceLike(q[0])
    ensures Squeeze(p + q) == Squeeze(p) + Squeeze(q)
  {
    if p == [] {
      assert p + q == q;
    } else {
      var c, t := p[0], p[1..];
      SqueezeNoLead(q);
      hide *;
      SqueezeAppend(t, q);
      assert p == [c] + t && p + q == [c] + (t + q);
      SqueezeAppendStep(c, t, q);
    }
  }

  lemma SqueezeAppendStep(c: CodePoint, t: U32, q: U32)
    requires Squeeze(q) != [] ==> Squeeze(q)[0] != SPACE
    requires Squeeze(t + q) == Squeeze(t) + Squeeze(q)
    ensures Squeeze([c] + (t + q)) == Squeeze([c] + t) + Squeeze(q)
  {
    hide *;
    DropLeadAppend(Squeeze(t), Squeeze(q));
    SqueezeCons(c, t + q);
    SqueezeCons(c, t);
    if IsSpaceLike(c) {
      assert Squeeze([c] + (t + q)) == [SPACE] + (DropLead(Squeeze(t)) + Squeeze(q));
    } else {
      assert Squeeze([c] + (t + q)) == [c] + (Squeeze(t) + Squeeze(q));
    }
  }

  lemma SqueezeNoLead(q: U32)
    requires q != [] ==> !IsSpaceLike(q[0])
    ensures Squeeze(q) != [] ==> Squeeze(q)[0] != SPACE
  {
  }

  lemma DropLeadAppend(a: U32, b: U32)
    requires b != [] ==> b[0] != SPACE
    ensures DropLead(a + b) == DropLead(a) + b
  {
    if a == [] {
      assert a + b == b;
    }
  }

  /** A run without spaces stays, and the rest is squeezed. */
  lemma {:induction false} SqueezeSolidPrefix(s: U32, n: nat)
    requires n <= |s| && forall k :: 0 <= k < n ==> !IsSpaceLike(s[k])
    ensures Squeeze(s) == s[..n] + Squeeze(s[n..])
    decreases n
  {
    if n == 0 {
      assert s[..0] + Squeeze(s[0..]) == Squeeze(s) by { assert s[0..] == s; }
    } else {
      SqueezeSolidPrefix(s[1..], n - 1);
      assert s[1..][n - 1..] == s[n..] && s[..n] == [s[0]] + s[1..][..n - 1];
      assert Squeeze(s) == [s[0]] + Squeeze(s[1..]);
      hide *;
    }
  }

  ghost predicate Solid(p: CodePoint -> bool) { forall c: CodePoint :: p(c) ==> !IsSpaceLike(c) }

  /** A run of a solid class at the head of s is the same run at the head of the squeezed text. */
  lemma SpanSqueeze(s: U32, p: CodePoint -> bool)
    requires Solid(p)
    ensures var n := Span(s, p);
      && Squeeze(s) == s[..n] + Squeeze(s[n..])
      && Span(Squeeze(s), p) == n
      && Squeeze(s)[n..] == Squeeze(s[n..])
  {
    var n := Span(s, p);
    SqueezeSolidPrefix(s, n);
    if n < |s| {
      SqueezeHead(s[n..]);
      assert p(s[n]) == false;
    }
    hide Span, Squeeze, IsSpaceLike;
    var t := Squeeze(s);
    assert t[n..] == Squeeze(s[n..]);
    assert forall k :: 0 <= k < n ==> t[k] == s[k];
    SpanUnique(t, p, n);
  }

  /** A class that contains the space sees a squeezed body of the squeezed length. */
  lemma {:induction false} SqueezeKeeps(s: U32, p: CodePoint -> bool)
    requires p(SPACE) && forall k :: 0 <= k < |s| ==> p(s[k])
    ensures forall k :: 0 <= k < |Squeeze(s)| ==> p(Squeeze(s)[k])
  {
    if s != [] {
      SqueezeKeeps(s[1..], p);
    }
  }

  /** The output of squeezing has no other spaces and no two in a row. */
  ghost predicate Squeezed(s: U32) {
    && (forall k :: 0 <= k < |s| && IsSpaceLike(s[k]) ==> s[k] == SPACE)
    && (forall k :: 0 < k < |s| && s[k - 1] == SPACE ==> s[k] != SPACE)
  }

  lemma {:induction false} SqueezeShape(s: U32)
    ensures Squeezed(Squeeze(s))
  {
    if s != [] {
      SqueezeShape(s[1..]);
      var t := Squeeze(s[1..]);
      assert Squeeze(s) == if IsSpaceLike(s[0]) then [SPACE] + DropLead(t) else [s[0]] + t;
      hide Squeeze;
    }
  }

  lemma {:induction false} SqueezeFixed(s: U32)
    requires Squeezed(s)
    ensures Squeeze(s) == s
  {
    if s != [] {
      var t := s[1..];
      assert Squeezed(t) by {
        assert forall k :: 0 <= k < |t| ==> t[k] == s[k + 1];
      }
      SqueezeFixed(t);
      assert s == [s[0]] + t;
      assert s[0] == SPACE ==> DropLead(t) == t;
      hide Squeezed;
    }
  }

  // ----- substitution, one step at a time -----

  lemma SubstHit(m: Matcher, s: U32)
    requires s != [] && Usable(m(s), s)
    ensures Substitute(m, s) == m(s).value.text + Substitute(m, s[m(s).value.n..])
  {
  }

  lemma SubstMiss(m: Matcher, s: U32)
    requires s != [] && m(s).None?
    ensures Substitute(m, s) == [s[0]] + Substitute(m, s[1..])
  {
  }

  /** Replacement texts consist of characters that are already there, or spaces. */
  ghost predicate Keeps(m: Matcher, p: CodePoint -> bool) {
    forall t: U32 :: All(t, p) && Usable(m(t), t) ==> All(m(t).value.text, p)
  }

  lemma {:induction false} SubstituteKeeps(m: Matcher, s: U32, p: CodePoint -> bool)
    requires All(s, p) && Keeps(m, p)
    ensures All(Substitute(m, s), p)
    decreases |s|
  {
    if s != [] {
      var n := if Usable(m(s), s) then m(s).value.n else 1;
      SubstituteKeeps(m, s[n..], p);
    }
  }

  lemma {:induction false} NothingToReplace(m: Matcher, s: U32)
    requires forall k :: 0 <= k < |s| ==> m(s[k..]).None?
    ensures Substitute(m, s) == s
    decreases |s|
  {
    if s != [] {
      var t := s[1..];
      assert s[0..] == s;
      forall k | 0 <= k < |t|
        ensures m(t[k..]).None?
      {
        assert t[k..] == s[k + 1..];
        assert m(s[k + 1..]).None?;
      }
      NothingToReplace(m, t);
    }
  }

  // ----- headings and '=' runs together -----

  /** Headings first, then the remaining '=' runs: what the two passes come to. */
  function Ruled(s: U32): U32
    decreases |s|
  {
    if s == [] then []
    else
      var a := Span(s, IsEq);
      if a < 2 then [s[0]] + Ruled(s[1..])
      else if Heading(s).Some? then [SPACE] + Ruled(s[Heading(s).value.n..])
      else [SPACE] + Ruled(s[a..])
  }

  lemma EqRunOnRun(p: U32, z: U32)
    requires |p| >= 2 && forall k :: 0 <= k < |p| ==> IsEq(p[k])
    requires z != [] ==> !IsEq(z[0])
    ensures Substitute(EqRun, p + z) == [SPACE] + Substitute(EqRun, z)
  {
    var s := p + z;
    assert Span(s, IsEq) == |p| by {
      hide Span;
      SpanUnique(s, IsEq, |p|);
    }
    assert s[|p|..] == z;
    assert EqRun(s) == Some(Hit(|p|, [SPACE]));
    SubstHit(EqRun, s);
  }

  lemma EqRunOnOther(c: CodePoint, z: U32)
    requires !IsEq(c) || (z != [] ==> !IsEq(z[0]))
    ensures Substitute(EqRun, [c] + z) == [c] + Substitute(EqRun, z)
  {
    var s := [c] + z;
    assert s[1..] == z;
    assert Span(s, IsEq) < 2 by {
      assert Span(s, IsEq) == if IsEq(c) then 1 + Span(z, IsEq) else 0;
    }
    SubstMiss(EqRun, s);
  }

  // ----- squeezing before or after the two passes -----

  /** Whether and where a heading ends does not depend on the number of spaces in its body. */
  lemma HeadingSqueeze(s: U32)
    ensures Heading(Squeeze(s)).Some? == Heading(s).Some?
    ensures Heading(s).Some? ==>
      Squeeze(s)[Heading(Squeeze(s)).value.n..] == Squeeze(s[Heading(s).value.n..])
  {
    hide *;
    var a, b, c, rest := HeadingParts(s);
    var z := Squeeze(s);
    var a', b', c', rest' := HeadingParts(z);
    var t := s[a..];
    IsEqSolid();
    SpanSqueeze(s, IsEq);
    BodySqueeze(t);
    SpanSqueeze(t[b..], IsEq);
  }

  lemma IsEqSolid()
    ensures Solid(IsEq) && Solid(IsBulletChar)
  {
  }

  lemma HeadingParts(s: U32) returns (a: nat, b: nat, c: nat, rest: U32)
    ensures a == Span(s, IsEq) && b == Span(s[a..], IsHeadingBody) && c == Span(s[a..][b..], IsEq)
    ensures Heading(s).Some? <==> a >= 2 && c >= 2
    ensures rest == s[a..][b..][c..]
    ensures Heading(s).Some? ==> s[Heading(s).value.n..] == rest
  {
    hide Span;
    a := Span(s, IsEq);
    b := Span(s[a..], IsHeadingBody);
    assert s[a + b..] == s[a..][b..];
    c := Span(s[a + b..], IsEq);
    assert s[a + b + c..] == s[a + b..][c..];
    rest := s[a + b..][c..];
  }

  lemma BodySqueeze(t: U32)
    ensures var b := Span(t, IsHeadingBody); var q := Squeeze(t[..b]);
      && Span(Squeeze(t), IsHeadingBody) == |q|
      && Squeeze(t)[|q|..] == Squeeze(t[b..])
  {
    var b := Span(t, IsHeadingBody);
    var q := Squeeze(t[..b]);
    assert t == t[..b] + t[b..];
    SqueezeAppend(t[..b], t[b..]);
    SqueezeKeeps(t[..b], IsHeadingBody);
    if b < |t| {
      SqueezeHead(t[b..]);
      assert !IsHeadingBody(t[b]);
    }
    hide Span, Squeeze;
    var z := Squeeze(t);
    assert z[|q|..] == Squeeze(t[b..]);
    assert forall k :: 0 <= k < |q| ==> z[k] == q[k];
    SpanUnique(z, IsHeadingBody, |q|);
  }

  lemma RuledCons(c: CodePoint, s: U32)
    requires !IsEq(c) || (s != [] ==> !IsEq(s[0]))
    ensures Ruled([c] + s) == [c] + Ruled(s)
  {
    assert ([c] + s)[1..] == s;
    assert Span([c] + s, IsEq) == if IsEq(c) then 1 + Span(s, IsEq) else 0;
  }

  lemma RuledRun(s: U32)
    requires Span(s, IsEq) >= 2
    ensures Ruled(s) == [SPACE] + Ruled(s[if Heading(s).Some? then Heading(s).value.n else Span(s, IsEq)..])
  {
    hide Span, Heading;
  }

  /** The step for a space: dropping one more leading space makes no difference. */
  lemma RuledDropLead(u: U32)
    ensures DropLead(Squeeze(Ruled(DropLead(u)))) == DropLead(Squeeze(Ruled(u)))
  {
    if u != [] && u[0] == SPACE {
      var v := u[1..];
      assert u == [SPACE] + v;
      hide *;
      RuledCons(SPACE, v);
      SqueezeCons(SPACE, Ruled(v));
      DropLeadTwice(Squeeze(Ruled(v)));
    }
  }

  lemma DropLeadTwice(z: U32)
    ensures DropLead([SPACE] + z) == z
  {
  }

  lemma SpanHead(s: U32)
    requires s != []
    ensures Span(s, IsEq) < 2 ==> !IsEq(s[0]) || (s[1..] != [] ==> !IsEq(s[1..][0]))
    ensures !IsSpaceLike(s[0]) && Span(s, IsEq) < 2 ==>
      !IsEq(s[0]) || (Squeeze(s[1..]) != [] ==> !IsEq(Squeeze(s[1..])[0]))
  {
    if |s| > 1 {
      assert Span(s, IsEq) == if IsEq(s[0]) then 1 + Span(s[1..], IsEq) else 0;
      SqueezeHead(s[1..]);
    }
  }

  lemma SpaceIsNotEq(c: CodePoint)
    ensures !IsEq(SPACE) && (IsSpaceLike(c) ==> !IsEq(c) && !IsBulletChar(c))
    ensures IsSpaceLike(SPACE) && !IsBulletChar(SPACE)
  {
  }

  /** How many spaces the text had does not matter for the two passes. */
  lemma {:induction false} SqueezeRuled(s: U32)
    ensures Squeeze(Ruled(s)) == Squeeze(Ruled(Squeeze(s)))
    decreases |s|
  {
    hide *;
    if s == [] {
      RuledEmpty();
    } else if Span(s, IsEq) < 2 {
      SqueezeRuled(s[1..]);
      SqueezeRuledCopy(s);
    } else {
      SqueezeRuledRun(s);
      var r := HeadingRest(s);
      SqueezeRuled(r);
      SqueezeCons(SPACE, Ruled(r));
      SqueezeCons(SPACE, Ruled(Squeeze(r)));
    }
  }

  lemma RuledEmpty()
    ensures Squeeze([]) == [] && Ruled([]) == []
  {
  }

  /** The text after what the two passes replace at the head of s. */
  ghost function HeadingRest(s: U32): (r: U32)
    requires Span(s, IsEq) >= 2
    ensures |r| < |s|
  {
    s[if Heading(s).Some? then Heading(s).value.n else Span(s, IsEq)..]
  }

  lemma SqueezeRuledRun(s: U32)
    requires Span(s, IsEq) >= 2
    ensures Ruled(s) == [SPACE] + Ruled(HeadingRest(s))
    ensures Ruled(Squeeze(s)) == [SPACE] + Ruled(Squeeze(HeadingRest(s)))
  {
    hide Span, Squeeze, Ruled, Heading, IsEq;
    IsEqSolid();
    SpanSqueeze(s, IsEq);
    HeadingSqueeze(s);
    RuledRun(s);
    RuledRun(Squeeze(s));
  }

  lemma SqueezeRuledCopy(s: U32)
    requires s != [] && Span(s, IsEq) < 2
    requires Squeeze(Ruled(s[1..])) == Squeeze(Ruled(Squeeze(s[1..])))
    ensures Squeeze(Ruled(s)) == Squeeze(Ruled(Squeeze(s)))
  {
    hide *;
    var c, t := s[0], s[1..];
    var u := Squeeze(t);
    assert s == [c] + t;
    SpanHead(s);
    SpaceIsNotEq(c);
    RuledCons(c, t);
    SqueezeCons(c, t);
    SqueezeCons(c, Ruled(t));
    if IsSpaceLike(c) {
      RuledCons(SPACE, DropLead(u));
      SqueezeCons(SPACE, Ruled(DropLead(u)));
      RuledDropLead(u);
    } else {
      RuledCons(c, u);
      SqueezeCons(c, Ruled(u));
    }
  }

  // ----- bullets -----

  lemma BulletsCopy(atBound: bool, c: CodePoint, t: U32)
    requires BulletLen(atBound, [c] + t) == 0
    ensures Bullets(atBound, [c] + t) == [c] + Bullets(IsSpaceLike(c), t)
  {
    assert ([c] + t)[1..] == t;
    hide BulletLen, IsSpaceLike;
  }

  lemma BulletsMark(atBound: bool, s: U32)
    requires BulletLen(atBound, s) > 0
    ensures Bullets(atBound, s) == [SPACE] + Bullets(false, s[BulletLen(atBound, s)..])
  {
    hide BulletLen;
  }

  lemma NoBulletAtOther(atBound: bool, c: CodePoint, t: U32)
    requires !IsBulletChar(c)
    ensures BulletLen(atBound, [c] + t) == 0
  {
  }

  lemma BulletsDropLead(u: U32)
    ensures DropLead(Squeeze(Bullets(true, DropLead(u)))) == DropLead(Squeeze(Bullets(true, u)))
  {
    if u != [] && u[0] == SPACE {
      var v := u[1..];
      assert u == [SPACE] + v && DropLead(u) == v;
      hide *;
      SpaceIsNotEq(SPACE);
      NoBulletAtOther(true, SPACE, v);
      BulletsCopy(true, SPACE, v);
      SqueezeCons(SPACE, Bullets(true, v));
      DropLeadTwice(DropLead(Squeeze(Bullets(true, v))));
    }
  }

  lemma BulletLenSqueeze(atBound: bool, s: U32)
    ensures BulletLen(atBound, Squeeze(s)) == BulletLen(atBound, s)
    ensures Squeeze(s)[BulletLen(atBound, s)..] == Squeeze(s[BulletLen(atBound, s)..])
  {
    var n := Span(s, IsBulletChar);
    IsEqSolid();
    SpanSqueeze(s, IsBulletChar);
    if n < |s| {
      SqueezeHead(s[n..]);
      assert Squeeze(s)[n] == Squeeze(s)[n..][0];
      assert Squeeze(s)[n] == if IsSpaceLike(s[n]) then SPACE else s[n];
    } else {
      assert Squeeze([]) == [];
      assert s[n..] == [];
    }
    hide Span, Squeeze, IsBulletChar;
    assert Squeeze(s)[0..] == Squeeze(s) && s[0..] == s;
  }

  lemma {:induction false} SqueezeBullets(atBound: bool, s: U32)
    ensures Squeeze(Bullets(atBound, s)) == Squeeze(Bullets(atBound, Squeeze(s)))
    decreases |s|
  {
    hide *;
    if s == [] {
      BulletsEmpty(atBound);
    } else {
      BulletLenSqueeze(atBound, s);
      var n := BulletLen(atBound, s);
      if n > 0 {
        var r := s[n..];
        SqueezeBullets(false, r);
        BulletsMark(atBound, s);
        BulletsMark(atBound, Squeeze(s));
        SqueezeCons(SPACE, Bullets(false, r));
        SqueezeCons(SPACE, Bullets(false, Squeeze(r)));
      } else {
        SqueezeBullets(IsSpaceLike(s[0]), s[1..]);
        SqueezeBulletsCopy(atBound, s);
      }
    }
  }

  lemma BulletsEmpty(atBound: bool)
    ensures Squeeze([]) == [] && Bullets(atBound, []) == []
  {
  }

  lemma SqueezeBulletsCopy(atBound: bool, s: U32)
    requires s != [] && BulletLen(atBound, s) == 0 && BulletLen(atBound, Squeeze(s)) == 0
    requires var b := IsSpaceLike(s[0]); Squeeze(Bullets(b, s[1..])) == Squeeze(Bullets(b, Squeeze(s[1..])))
    ensures Squeeze(Bullets(atBound, s)) == Squeeze(Bullets(atBound, Squeeze(s)))
  {
    hide *;
    var c, t := s[0], s[1..];
    var u := Squeeze(t);
    assert s == [c] + t;
    SpaceIsNotEq(c);
    SqueezeCons(c, t);
    BulletsCopy(atBound, c, t);
    SqueezeCons(c, Bullets(IsSpaceLike(c), t));
    if IsSpaceLike(c) {
      BulletsCopy(atBound, SPACE, DropLead(u));
      SqueezeCons(SPACE, Bullets(true, DropLead(u)));
      BulletsDropLead(u);
    } else {
      BulletsCopy(atBound, c, u);
      SqueezeCons(c, Bullets(false, u));
    }
  }

  lemma TrimmedUnfold(s: U32)
    ensures Trimmed(s) == TrimEnd(TrimStart(Squeeze(Scanned(s))))
  {
    hide Scanned, Squeeze;
  }
}
