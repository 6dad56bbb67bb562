/** What a cleaned context looks like, and what cleaning it again does. */
module CleanShape {
  import opened Text
  import opened Utf8
  import opened Subsequence
  import opened ContextClip
  import S = SpaceSqueeze

  // ----- nothing is invented: the visible characters are a subsequence -----

  predicate IsInk(c: CodePoint) { !IsSpaceLike(c) && c != CR && c != LF }

  /** The characters that are not white space. */
  function Ink(s: U32): U32 {
    if s == [] then [] else (if IsInk(s[0]) then [s[0]] else []) + Ink(s[1..])
  }

  lemma {:induction false} InkAppend(a: U32, b: U32)
    ensures Ink(a + b) == Ink(a) + Ink(b)
  {
    if a == [] {
      assert a + b == b;
    } else {
      var c, t := a[0], a[1..];
      hide *;
      assert a == [c] + t && a + b == [c] + (t + b);
      InkAppend(t, b);
      InkCons(c, t + b);
      InkCons(c, t);
      if IsInk(c) {
        assert Ink(a + b) == [c] + (Ink(t) + Ink(b));
      }
    }
  }

  lemma InkCons(c: CodePoint, s: U32)
    ensures Ink([c] + s) == (if IsInk(c) then [c] else []) + Ink(s)
  {
    assert ([c] + s)[1..] == s;
  }

  /** Dropping both ends of a text, or nothing, leaves a subsequence. */
  lemma InkSlice(s: U32, a: nat, b: nat)
    requires a <= b <= |s|
    ensures IsSubseq(Ink(s[a..b]), Ink(s))
  {
    hide *;
    assert s == s[..a] + s[a..b] + s[b..];
    InkAppend(s[..a] + s[a..b], s[b..]);
    InkAppend(s[..a], s[a..b]);
    SubseqInside(Ink(s[..a]), Ink(s[a..b]), Ink(s[b..]));
  }

  /** Every replacement text keeps to the characters it replaces. */
  ghost predicate Faithful(m: Matcher) {
    forall t: U32 :: Usable(m(t), t) ==> IsSubseq(Ink(m(t).value.text), Ink(t[..m(t).value.n]))
  }

  lemma {:induction false} InkSubstitute(m: Matcher, s: U32)
    requires Faithful(m)
    ensures IsSubseq(Ink(Substitute(m, s)), Ink(s))
    decreases |s|
  {
    if s != [] {
      var n, text := 1, [s[0]];
      if Usable(m(s), s) {
        n, text := m(s).value.n, m(s).value.text;
      } else {
        assert s[..1] == [s[0]];
        SubseqRefl(Ink(text));
      }
      assert IsSubseq(Ink(text), Ink(s[..n]));
      assert Substitute(m, s) == text + Substitute(m, s[n..]);
      InkSubstitute(m, s[n..]);
      hide *;
      assert s == s[..n] + s[n..];
      InkAppend(s[..n], s[n..]);
      InkAppend(text, Substitute(m, s[n..]));
      SubseqAppend(Ink(text), Ink(s[..n]), Ink(Substitute(m, s[n..])), Ink(s[n..]));
    }
  }

  lemma BlankTexts()
    ensures Ink([]) == [] && Ink([SPACE]) == []
    ensures forall a: U32 :: IsSubseq([], a)
  {
    InkCons(SPACE, []);
    assert [SPACE] + [] == [SPACE];
  }

  lemma FaithfulMatchers()
    ensures Faithful(EditMark) && Faithful(Heading) && Faithful(WikiLink) && Faithful(WikiRef) && Faithful(EqRun)
  {
    BlankTexts();
    forall t: U32 | Usable(WikiLink(t), t)
      ensures IsSubseq(Ink(WikiLink(t).value.text), Ink(t[..WikiLink(t).value.n]))
    {
      var a, b := LinkLabel(t);
      var n := WikiLink(t).value.n;
      hide *;
      assert t[a..b] == t[..n][a..b];
      InkSlice(t[..n], a, b);
    }
    forall t: U32
      ensures EditMark(t).Some? ==> EditMark(t).value.text == []
      ensures WikiRef(t).Some? ==> WikiRef(t).value.text == []
      ensures Heading(t).Some? ==> Heading(t).value.text == [SPACE]
      ensures EqRun(t).Some? ==> EqRun(t).value.text == [SPACE]
    {
      FixedTexts(t);
    }
    hide Ink, EditMark, Heading, WikiLink, WikiRef, EqRun, IsSubseq;
  }

  lemma FixedTexts(t: U32)
    ensures EditMark(t).Some? ==> EditMark(t).value.text == []
    ensures WikiRef(t).Some? ==> WikiRef(t).value.text == []
    ensures Heading(t).Some? ==> Heading(t).value.text == [SPACE]
    ensures EqRun(t).Some? ==> EqRun(t).value.text == [SPACE]
  {
    hide Span, EqualsIgnoreCaseAscii, FindCloseRef;
  }

  lemma LinkLabel(t: U32) returns (a: nat, b: nat)
    requires WikiLink(t).Some?
    ensures a <= b <= WikiLink(t).value.n <= |t| && WikiLink(t).value.text == t[a..b]
  {
    hide Span;
    b := 2 + Span(t[2..], NotClose);
    var pipe := 2 + Span(t[2..b], NotPipe);
    a := if pipe < b then pipe + 1 else 2;
  }

  lemma {:induction false} InkBullets(atBound: bool, s: U32)
    ensures IsSubseq(Ink(Bullets(atBound, s)), Ink(s))
    decreases |s|
  {
    if s != [] {
      var n := BulletLen(atBound, s);
      BlankTexts();
      BulletsUnfold(atBound, s);
      assert s == [s[0]] + s[1..] && s == s[..n] + s[n..];
      if n > 0 {
        InkBullets(false, s[n..]);
        hide *;
        InkAppend([SPACE], Bullets(false, s[n..]));
        InkAppend(s[..n], s[n..]);
        SubseqAppend([], Ink(s[..n]), Ink(Bullets(false, s[n..])), Ink(s[n..]));
      } else {
        InkBullets(IsSpaceLike(s[0]), s[1..]);
        hide *;
        var rest := Bullets(IsSpaceLike(s[0]), s[1..]);
        InkAppend([s[0]], rest);
        InkAppend([s[0]], s[1..]);
        SubseqRefl(Ink([s[0]]));
        SubseqAppend(Ink([s[0]]), Ink([s[0]]), Ink(rest), Ink(s[1..]));
      }
    }
  }

  lemma {:induction false} InkSqueeze(s: U32)
    ensures Ink(Squeeze(s)) == Ink(s)
  {
    if s != [] {
      InkSqueeze(s[1..]);
      var q := Squeeze(s[1..]);
      assert s == [s[0]] + s[1..];
      S.SqueezeCons(s[0], s[1..]);
      InkCons(s[0], s[1..]);
      InkDropLead(q);
      assert IsSpaceLike(s[0]) ==> !IsInk(s[0]);
      assert !IsInk(SPACE);
      hide *;
      InkCons(SPACE, DropLead(q));
      InkCons(s[0], q);
    }
  }

  lemma InkDropLead(q: U32)
    ensures Ink(DropLead(q)) == Ink(q)
  {
    if q != [] && q[0] == SPACE {
      InkCons(SPACE, q[1..]);
      assert q == [SPACE] + q[1..];
    }
  }

  lemma {:induction false} InkBreaks(s: U32)
    ensures Ink(Map(BreakToSpace, s)) == Ink(s)
  {
    if s != [] {
      InkBreaks(s[1..]);
    }
  }

  /** Trimming, the sentence cut and the bound only drop characters at the ends. */
  lemma TailOfSqueezed(s: U32, max: int) returns (a: nat, b: nat)
    ensures var q := Squeeze(Scanned(s)); a <= b <= |q| && CleanU32(s, max) == q[a..b]
    ensures var q := Squeeze(Scanned(s)); b > a ==> q[b - 1] != SPACE
  {
    var q := Squeeze(Scanned(s));
    hide Scanned, Squeeze, Span, TrimEnd, LastEnd;
    a := Span(q, IsPlainSpace);
    b := TrimEndIs(q, a);
    var t := q[a..b];
    assert Trimmed(s) == t;
    var cut := LastEnd(t);
    var lead := Span(t[cut..], IsBlank);
    assert LastSentence(t) == q[a + cut + lead..b];
    a := a + cut + lead;
    if max > 0 && b - a > max {
      assert TakeLast(q[a..b], max) == q[b - max..b];
      a := b - max;
    }
  }

  lemma {:induction false} TrimEndIs(q: U32, a: nat) returns (b: nat)
    requires a <= |q|
    ensures a <= b <= |q| && TrimEnd(q[a..]) == q[a..b]
    ensures b > a ==> q[b - 1] != SPACE
  {
    b := |q|;
    assert q[a..] == q[a..b];
    while b > a && q[b - 1] == SPACE
      invariant a <= b <= |q| && TrimEnd(q[a..b]) == TrimEnd(q[a..])
    {
      TrimEndStep(q, a, b);
      b := b - 1;
    }
    TrimEndStop(q, a, b);
  }

  /** Cleaning deletes and never invents: what is visible is a subsequence of the input. */
  lemma CleanIsSubsequence(s: U32, max: int)
    ensures IsSubseq(Ink(CleanU32(s, max)), Ink(s))
  {
    hide *;
    FaithfulMatchers();
    var x0 := Map(BreakToSpace, s);
    var x1 := Substitute(EditMark, x0);
    var x2 := Substitute(Heading, x1);
    var x3 := Substitute(WikiLink, x2);
    var x4 := Substitute(WikiRef, x3);
    var x5 := Substitute(EqRun, x4);
    var x6 := Bullets(true, x5);
    StagesAre(s);
    InkBreaks(s);
    InkSubstitute(EditMark, x0);
    InkSubstitute(Heading, x1);
    InkSubstitute(WikiLink, x2);
    InkSubstitute(WikiRef, x3);
    InkSubstitute(EqRun, x4);
    InkBullets(true, x5);
    InkSqueeze(x6);
    SubseqTrans(Ink(x2), Ink(x1), Ink(x0));
    SubseqTrans(Ink(x3), Ink(x2), Ink(x0));
    SubseqTrans(Ink(x4), Ink(x3), Ink(x0));
    SubseqTrans(Ink(x5), Ink(x4), Ink(x0));
    SubseqTrans(Ink(x6), Ink(x5), Ink(x0));
    var a, b := TailOfSqueezed(s, max);
    InkSlice(Squeeze(x6), a, b);
    SubseqTrans(Ink(CleanU32(s, max)), Ink(x6), Ink(x0));
  }

  lemma StagesAre(s: U32)
    ensures Scanned(s) == Bullets(true, Substitute(EqRun, Substitute(WikiRef,
      Substitute(WikiLink, Substitute(Heading, Substitute(EditMark, Map(BreakToSpace, s)))))))
  {
    hide Substitute, Bullets, Map;
  }

  // ----- no character of another kind, no double '=' -----

  lemma {:induction false} BulletsKeep(atBound: bool, s: U32, p: CodePoint -> bool)
    requires All(s, p) && p(SPACE)
    ensures All(Bullets(atBound, s), p)
    decreases |s|
  {
    if s != [] {
      var n := BulletLen(atBound, s);
      BulletsUnfold(atBound, s);
      BulletsKeep(if n > 0 then false else IsSpaceLike(s[0]), s[if n > 0 then n else 1..], p);
      hide BulletLen, IsSpaceLike, Bullets;
    }
  }

  lemma MatchersKeep(p: CodePoint -> bool)
    requires p(SPACE)
    ensures S.Keeps(EditMark, p) && S.Keeps(Heading, p) && S.Keeps(WikiLink, p) && S.Keeps(WikiRef, p)
      && S.Keeps(EqRun, p)
  {
    forall t: U32
      ensures EditMark(t).Some? ==> EditMark(t).value.text == []
      ensures WikiRef(t).Some? ==> WikiRef(t).value.text == []
      ensures Heading(t).Some? ==> Heading(t).value.text == [SPACE]
      ensures EqRun(t).Some? ==> EqRun(t).value.text == [SPACE]
    {
      FixedTexts(t);
    }
    forall t: U32 | All(t, p) && Usable(WikiLink(t), t)
      ensures All(WikiLink(t).value.text, p)
    {
      var a, b := LinkLabel(t);
    }
    hide EditMark, Heading, WikiLink, WikiRef, EqRun;
  }

  /** A class of characters that has the space and all the input's characters has all the output's. */
  lemma CleanKeeps(s: U32, max: int, p: CodePoint -> bool)
    requires All(Map(BreakToSpace, s), p) && p(SPACE)
    ensures All(Squeeze(Scanned(s)), p) && All(CleanU32(s, max), p)
  {
    hide *;
    MatchersKeep(p);
    var x0 := Map(BreakToSpace, s);
    var x1 := Substitute(EditMark, x0);
    var x2 := Substitute(Heading, x1);
    var x3 := Substitute(WikiLink, x2);
    var x4 := Substitute(WikiRef, x3);
    var x5 := Substitute(EqRun, x4);
    StagesAre(s);
    S.SubstituteKeeps(EditMark, x0, p);
    S.SubstituteKeeps(Heading, x1, p);
    S.SubstituteKeeps(WikiLink, x2, p);
    S.SubstituteKeeps(WikiRef, x3, p);
    S.SubstituteKeeps(EqRun, x4, p);
    BulletsKeep(true, x5, p);
    SqueezeKeep(Scanned(s), p);
    var a, b := TailOfSqueezed(s, max);
    SliceKeeps(Squeeze(Scanned(s)), a, b, p);
  }

  lemma SqueezeKeep(s: U32, p: CodePoint -> bool)
    requires All(s, p) && p(SPACE)
    ensures All(Squeeze(s), p)
  {
    hide Squeeze;
    S.SqueezeKeeps(s, p);
  }

  lemma SliceKeeps(s: U32, a: nat, b: nat, p: CodePoint -> bool)
    requires All(s, p) && a <= b <= |s|
    ensures All(s[a..b], p)
  {
  }

  /** No two '=' stand together. */
  ghost predicate NoDoubleEq(s: U32) { forall k :: 0 < k < |s| && s[k - 1] == EQ ==> s[k] != EQ }

  lemma NoDoubleEqCons(c: CodePoint, s: U32)
    requires NoDoubleEq(s) && (c == EQ && s != [] ==> s[0] != EQ)
    ensures NoDoubleEq([c] + s)
  {
  }

  lemma {:induction false} EqRunsGone(s: U32)
    ensures NoDoubleEq(Substitute(EqRun, s))
    ensures Span(s, IsEq) != 1 && Substitute(EqRun, s) != [] ==> Substitute(EqRun, s)[0] != EQ
    decreases |s|
  {
    if s != [] {
      var a := Span(s, IsEq);
      if a >= 2 {
        S.SubstHit(EqRun, s);
        EqRunsGone(s[a..]);
        hide Span, Substitute;
        NoDoubleEqCons(SPACE, Substitute(EqRun, s[a..]));
      } else {
        S.SubstMiss(EqRun, s);
        EqRunsGone(s[1..]);
        assert Span(s, IsEq) == if IsEq(s[0]) then 1 + Span(s[1..], IsEq) else 0;
        hide Span, Substitute;
        NoDoubleEqCons(s[0], Substitute(EqRun, s[1..]));
      }
    }
  }

  lemma {:induction false} BulletsNoDoubleEq(atBound: bool, s: U32)
    requires NoDoubleEq(s)
    ensures NoDoubleEq(Bullets(atBound, s))
    ensures Bullets(atBound, s) != [] ==> s != [] && (Bullets(atBound, s)[0] == SPACE || Bullets(atBound, s)[0] == s[0])
    decreases |s|
  {
    if s != [] {
      var n := BulletLen(atBound, s);
      BulletsUnfold(atBound, s);
      var b, k := if n > 0 then false else IsSpaceLike(s[0]), if n > 0 then n else 1;
      TailNoDoubleEq(s, k);
      BulletsNoDoubleEq(b, s[k..]);
      hide BulletLen, IsSpaceLike, Bullets;
      NoDoubleEqCons(if n > 0 then SPACE else s[0], Bullets(b, s[k..]));
    }
  }

  lemma TailNoDoubleEq(s: U32, k: nat)
    requires NoDoubleEq(s) && k <= |s|
    ensures NoDoubleEq(s[k..]) && (0 < k < |s| && s[k - 1] == EQ ==> s[k..][0] != EQ)
  {
    var t := s[k..];
    forall i | 0 < i < |t| && t[i - 1] == EQ
      ensures t[i] != EQ
    {
      assert s[k + i - 1] == EQ;
    }
  }

  lemma {:induction false} SqueezeNoDoubleEq(s: U32)
    requires NoDoubleEq(s)
    ensures NoDoubleEq(Squeeze(s))
  {
    if s != [] {
      var t := s[1..];
      TailNoDoubleEq(s, 1);
      SqueezeNoDoubleEq(t);
      var q := Squeeze(t);
      if t != [] {
        S.SqueezeHead(t);
      }
      assert s == [s[0]] + t;
      S.SqueezeCons(s[0], t);
      hide Squeeze, IsSpaceLike;
      if q != [] {
        TailNoDoubleEq(q, 1);
      }
      NoDoubleEqCons(SPACE, DropLead(q));
      if !IsSpaceLike(s[0]) {
        NoDoubleEqCons(s[0], q);
      }
    }
  }

  // ----- the shape -----

  /** What CleanContext promises about the characters of its result. */
  ghost predicate Tidy(t: U32) {
    && (forall k :: 0 <= k < |t| ==> !IsSentEnd(t[k]) && t[k] != TAB && t[k] != CR && t[k] != LF && t[k] != IDEO_SPACE)
    && (forall k :: 0 < k < |t| && t[k - 1] == SPACE ==> t[k] != SPACE)
    && NoDoubleEq(t)
    && (t != [] ==> t[|t| - 1] != SPACE)
  }

  predicate NoBreak(c: CodePoint) { c != TAB && c != CR && c != LF }

  lemma CleanTidy(s: U32, max: int)
    ensures Tidy(CleanU32(s, max))
    ensures max > 0 ==> |CleanU32(s, max)| <= max
  {
    hide *;
    var q := Squeeze(Scanned(s));
    BreaksGone(s);
    CleanKeeps(s, max, NoBreak);
    S.SqueezeShape(Scanned(s));
    ScannedNoDoubleEq(s);
    SqueezeNoDoubleEq(Scanned(s));
    var a, b := TailOfSqueezed(s, max);
    NoSentenceEnd(s, max);
    TidySlice(q, a, b);
  }

  lemma BreaksGone(s: U32)
    ensures All(Map(BreakToSpace, s), NoBreak) && NoBreak(SPACE)
  {
  }

  lemma ScannedNoDoubleEq(s: U32)
    ensures NoDoubleEq(Scanned(s))
  {
    hide *;
    var x4 := Substitute(WikiRef,
      Substitute(WikiLink, Substitute(Heading, Substitute(EditMark, Map(BreakToSpace, s)))));
    EqRunsGone(x4);
    BulletsNoDoubleEq(true, Substitute(EqRun, x4));
    StagesAre(s);
  }

  lemma NoSentenceEnd(s: U32, max: int)
    ensures var t := CleanU32(s, max);
      (forall k :: 0 <= k < |t| ==> !IsSentEnd(t[k])) && (max > 0 ==> |t| <= max)
  {
    var v := Trimmed(s);
    hide Trimmed, Span, IsSentEnd;
    var cut := v[LastEnd(v)..];
    assert forall k :: 0 <= k < |cut| ==> !IsSentEnd(cut[k]);
    var lead := Span(cut, IsBlank);
    assert LastSentence(v) == cut[lead..];
  }

  lemma TidySlice(q: U32, a: nat, b: nat)
    requires a <= b <= |q| && All(q, NoBreak) && S.Squeezed(q) && NoDoubleEq(q)
    requires b > a ==> q[b - 1] != SPACE
    requires forall k :: 0 <= k < b - a ==> !IsSentEnd(q[a..b][k])
    ensures Tidy(q[a..b])
  {
    var t := q[a..b];
    assert forall k :: 0 <= k < |t| ==> t[k] == q[a + k] && NoBreak(q[a + k]);
    assert IsSpaceLike(IDEO_SPACE);
    forall k | 0 < k < |t|
      ensures t[k - 1] == SPACE ==> t[k] != SPACE
      ensures t[k - 1] == EQ ==> t[k] != EQ
    {
      assert t[k - 1] == q[a + k - 1];
    }
    hide IsSentEnd, IsSpaceLike;
  }

  /** The shape theorem on octets: for every input and every bound. */
  lemma CleanContextShape(text: Bytes, max: int)
    ensures var given, t := Decode(text), Decode(Encode(CleanU32(Decode(text), max)));
      && (max > 0 ==> |t| <= max)
      && Tidy(t)
      && IsSubseq(Ink(t), Ink(given))
  {
    hide *;
    DecodeEncode(CleanU32(Decode(text), max));
    CleanTidy(Decode(text), max);
    CleanIsSubsequence(Decode(text), max);
  }

  // ----- cleaning again -----

  /** No character that a scanner for marks or bullets could start on. */
  predicate Unmarked(c: CodePoint) { c != OPEN && c != LESS && !IsBulletChar(c) }

  lemma NoMatchHere(s: U32, k: nat)
    requires All(s, Unmarked) && NoDoubleEq(s) && k < |s|
    ensures EditMark(s[k..]).None? && WikiLink(s[k..]).None? && WikiRef(s[k..]).None?
    ensures Heading(s[k..]).None? && EqRun(s[k..]).None?
  {
    var t := s[k..];
    assert t[0] == s[k] && Unmarked(s[k]);
    assert |t| > 1 && IsEq(t[0]) ==> t[1] == s[k + 1] && !IsEq(t[1]);
    assert Span(t, IsEq) < 2;
    hide Span, EqualsIgnoreCaseAscii, FindCloseRef;
  }

  lemma {:induction false} NoBullets(atBound: bool, s: U32)
    requires All(s, Unmarked)
    ensures Bullets(atBound, s) == s
    decreases |s|
  {
    if s != [] {
      assert Unmarked(s[0]);
      assert Span(s, IsBulletChar) == 0;
      BulletsUnfold(atBound, s);
      NoBullets(IsSpaceLike(s[0]), s[1..]);
      hide Span, IsSpaceLike, Bullets;
    }
  }

  lemma ScannedFixed(t: U32)
    requires Tidy(t) && All(t, Unmarked)
    ensures Scanned(t) == t && Squeeze(t) == t
  {
    assert Map(BreakToSpace, t) == t;
    assert S.Squeezed(t) by {
      assert forall k :: 0 <= k < |t| && IsSpaceLike(t[k]) ==> t[k] == SPACE;
    }
    S.SqueezeFixed(t);
    forall k | 0 <= k < |t|
      ensures EditMark(t[k..]).None? && WikiLink(t[k..]).None? && WikiRef(t[k..]).None?
      ensures Heading(t[k..]).None? && EqRun(t[k..]).None?
    {
      NoMatchHere(t, k);
    }
    hide *;
    S.NothingToReplace(EditMark, t);
    S.NothingToReplace(Heading, t);
    S.NothingToReplace(WikiLink, t);
    S.NothingToReplace(WikiRef, t);
    S.NothingToReplace(EqRun, t);
    NoBullets(true, t);
    StagesAre(t);
  }

  /** Cleaning a tidy text without marks only drops one leading space. */
  lemma CleanTidyText(t: U32, max: int)
    requires Tidy(t) && All(t, Unmarked) && (max > 0 ==> |t| <= max)
    ensures CleanU32(t, max) == DropLead(t)
    ensures Tidy(DropLead(t)) && All(DropLead(t), Unmarked) && DropLead(DropLead(t)) == DropLead(t)
  {
    hide *;
    ScannedFixed(t);
    TrimsTidy(t);
    S.TrimmedUnfold(t);
    TidyTail(t);
    UnmarkedTail(t);
    NothingToCut(DropLead(t));
    CleanUnbounded(t, max);
  }

  /** Of a longer one the last characters stay. */
  lemma CleanTidyCut(t: U32, max: int)
    requires Tidy(t) && All(t, Unmarked)
    ensures var u := DropLead(t);
      CleanU32(t, max) == if 0 < max < |u| then u[|u| - max..] else u
  {
    CleanTidyText(t, 0);
    hide Trimmed, LastSentence, DropLead;
  }

  lemma CleanUnbounded(s: U32, max: int)
    requires max > 0 ==> |LastSentence(Trimmed(s))| <= max
    ensures CleanU32(s, max) == LastSentence(Trimmed(s))
  {
    hide Trimmed, LastSentence;
  }

  lemma UnmarkedTail(t: U32)
    requires All(t, Unmarked)
    ensures All(DropLead(t), Unmarked) && |DropLead(t)| <= |t|
  {
  }

  lemma TrimsTidy(t: U32)
    requires Tidy(t)
    ensures TrimEnd(TrimStart(t)) == DropLead(t) && DropLead(DropLead(t)) == DropLead(t)
  {
    var u := DropLead(t);
    assert u == [] || u[0] != SPACE;
    var n := if t != [] && t[0] == SPACE then 1 else 0;
    assert u == t[n..];
    hide Span, IsSentEnd;
    SpanUnique(t, IsPlainSpace, n);
    assert TrimEnd(u) == u;
  }

  lemma TidyTail(t: U32)
    requires Tidy(t)
    ensures Tidy(DropLead(t)) && (forall k :: 0 <= k < |DropLead(t)| ==> !IsSentEnd(DropLead(t)[k]))
    ensures DropLead(t) != [] ==> !IsBlank(DropLead(t)[0])
  {
    if t != [] && t[0] == SPACE {
      var u := t[1..];
      assert forall k :: 0 <= k < |u| ==> u[k] == t[k + 1];
      TailNoDoubleEq(t, 1);
      forall k | 0 < k < |u| && u[k - 1] == SPACE
        ensures u[k] != SPACE
      {
        assert t[k] == SPACE;
      }
      hide IsSentEnd;
    }
  }

  lemma NothingToCut(u: U32)
    requires (forall k :: 0 <= k < |u| ==> !IsSentEnd(u[k])) && (u != [] ==> !IsBlank(u[0]))
    ensures LastSentence(u) == u
  {
    assert LastEnd(u) == 0;
    assert u[0..] == u;
    assert Span(u, IsBlank) == 0;
  }

  /** A text without brackets or bullets: the second cleaning drops a leading space, a third nothing. */
  lemma CleanAgain(s: U32, max: int)
    requires All(s, Unmarked)
    ensures var once := CleanU32(s, max); var twice := CleanU32(once, max);
      twice == DropLead(once) && CleanU32(twice, max) == twice
  {
    hide *;
    BreaksUnmarked(s);
    var once := CleanU32(s, max);
    CleanKeeps(s, max, Unmarked);
    CleanTidy(s, max);
    CleanTidyText(once, max);
    UnmarkedTail(once);
    CleanTidyText(DropLead(once), max);
  }

  lemma BreaksUnmarked(s: U32)
    requires All(s, Unmarked)
    ensures All(Map(BreakToSpace, s), Unmarked) && Unmarked(SPACE)
  {
  }

  lemma CleanContextAgain(text: Bytes, max: int)
    requires All(Decode(text), Unmarked)
    ensures var once := Encode(CleanU32(Decode(text), max));
      var twice := Encode(CleanU32(Decode(once), max));
      twice == Encode(DropLead(Decode(once))) && Encode(CleanU32(Decode(twice), max)) == twice
  {
    hide *;
    var once := CleanU32(Decode(text), max);
    var twice := CleanU32(once, max);
    DecodeEncode(once);
    DecodeEncode(twice);
    CleanAgain(Decode(text), max);
  }
}
