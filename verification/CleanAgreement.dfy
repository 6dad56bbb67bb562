/**
 The C++ scanners and the daemon's regular expressions clean a text to the same result,
 although they disagree stage by stage: on "\r\n", on '=' runs of four or more, and on the
 space in front of a bullet. The differences are gone once spaces are squeezed.
 */
module CleanAgreement {
  import opened Text
  import opened Utf8
  import opened SpaceSqueeze
  import opened PatternMeaning
  import C = ContextClip
  import P = PyContext
  import R = PyRegex

  // ----- headings -----

  ghost predicate StartsWithEq(s: U32) { s != [] && C.IsEq(s[0]) }

  /** A matcher that, like both heading matchers, only ever looks at a run of two or more '='. */
  ghost predicate NeedsRun(m: C.Matcher) { forall t: U32 :: Span(t, C.IsEq) < 2 ==> m(t).None? }

  lemma HeadingsNeedRun()
    ensures NeedsRun(C.Heading) && NeedsRun(PyHeading)
  {
    hide Span;
  }

  lemma CopyKeepsStart(m: C.Matcher, s: U32)
    requires NeedsRun(m) && !StartsWithEq(s)
    ensures !StartsWithEq(C.Substitute(m, s))
  {
    if s != [] {
      assert Span(s, C.IsEq) == 0;
      SubstMiss(m, s);
    }
  }

  /** A run that is no heading is copied whole by the C++ scanner, one '=' at a time. */
  lemma {:induction false} RunCopied(s: U32)
    requires C.Heading(s).None?
    ensures var a := Span(s, C.IsEq); C.Substitute(C.Heading, s) == s[..a] + C.Substitute(C.Heading, s[a..])
    decreases |s|
  {
    hide *;
    var a := Span(s, C.IsEq);
    if a == 0 {
      assert s[..a] == [] && s[a..] == s;
    } else {
      var t := s[1..];
      ShorterRun(s);
      RunCopied(t);
      SubstMiss(C.Heading, s);
      assert t[a - 1..] == s[a..];
      assert s[..a] == [s[0]] + t[..a - 1];
    }
  }

  lemma ShorterRun(s: U32)
    requires s != [] && Span(s, C.IsEq) > 0 && C.Heading(s).None?
    ensures Span(s[1..], C.IsEq) == Span(s, C.IsEq) - 1 && C.Heading(s[1..]).None?
  {
    var a := Span(s, C.IsEq);
    assert Span(s[1..], C.IsEq) == a - 1;
    if a >= 2 {
      assert s[1..][a - 1..] == s[a..];
      hide Span;
      var b := Span(s[a..], C.IsHeadingBody);
      assert s[1..][a - 1 + b..] == s[a + b..];
    }
  }

  /** What a '=' run without a heading becomes after the '=' pass. */
  lemma PlainRun(m: C.Matcher, s: U32)
    requires NeedsRun(m) && Span(s, C.IsEq) >= 2
    requires var a := Span(s, C.IsEq); C.Substitute(m, s) == s[..a] + C.Substitute(m, s[a..])
    ensures C.Substitute(C.EqRun, C.Substitute(m, s)) ==
      [C.SPACE] + C.Substitute(C.EqRun, C.Substitute(m, s[Span(s, C.IsEq)..]))
  {
    var a := Span(s, C.IsEq);
    assert forall k :: 0 <= k < a ==> C.IsEq(s[..a][k]);
    CopyKeepsStart(m, s[a..]);
    EqRunOnRun(s[..a], C.Substitute(m, s[a..]));
  }

  /** A replaced piece stays one space in the '=' pass. */
  lemma ReplacedRun(m: C.Matcher, s: U32)
    requires s != [] && C.Usable(m(s), s) && m(s).value.text == [C.SPACE]
    ensures C.Substitute(C.EqRun, C.Substitute(m, s)) ==
      [C.SPACE] + C.Substitute(C.EqRun, C.Substitute(m, s[m(s).value.n..]))
  {
    SubstHit(m, s);
    SpaceIsNotEq(C.SPACE);
    hide *;
    EqRunOnOther(C.SPACE, C.Substitute(m, s[m(s).value.n..]));
  }

  lemma CopiedChar(m: C.Matcher, s: U32)
    requires NeedsRun(m) && s != [] && Span(s, C.IsEq) < 2
    ensures C.Substitute(C.EqRun, C.Substitute(m, s)) == [s[0]] + C.Substitute(C.EqRun, C.Substitute(m, s[1..]))
  {
    SubstMiss(m, s);
    SpanHead(s);
    if !StartsWithEq(s[1..]) {
      CopyKeepsStart(m, s[1..]);
    }
    hide C.Substitute, Span;
    EqRunOnOther(s[0], C.Substitute(m, s[1..]));
  }

  lemma {:induction false} CppRuled(s: U32)
    ensures C.Substitute(C.EqRun, C.Substitute(C.Heading, s)) == Ruled(s)
    decreases |s|
  {
    hide *;
    HeadingsNeedRun();
    if s == [] {
      SubstituteEmpty();
    } else if Span(s, C.IsEq) < 2 {
      CppRuled(s[1..]);
      CopiedChar(C.Heading, s);
      RuledCopy(s);
    } else {
      var r := HeadingRest(s);
      CppRuled(r);
      SqueezeRuledRun(s);
      RestIs(s);
      if C.Heading(s).Some? {
        ReplacedRun(C.Heading, s);
      } else {
        RunCopied(s);
        PlainRun(C.Heading, s);
      }
    }
  }

  lemma RuledCopy(s: U32)
    requires s != [] && Span(s, C.IsEq) < 2
    ensures Ruled(s) == [s[0]] + Ruled(s[1..])
  {
    hide Span;
  }

  lemma SubstituteEmpty()
    ensures forall m: C.Matcher :: C.Substitute(m, []) == []
    ensures Ruled([]) == []
  {
  }

  lemma RestIs(s: U32)
    requires Span(s, C.IsEq) >= 2
    ensures C.Heading(s).Some? ==> C.Heading(s).value.text == [C.SPACE] && HeadingRest(s) == s[C.Heading(s).value.n..]
    ensures C.Heading(s).Some? ==> PyHeading(s) == C.Heading(s)
    ensures C.Heading(s).None? ==> HeadingRest(s) == s[Span(s, C.IsEq)..]
    ensures C.Heading(s).None? ==>
      PyHeading(s) == if Span(s, C.IsEq) >= 4 then Some(C.Hit(Span(s, C.IsEq), [C.SPACE])) else None
  {
    hide Span;
  }

  /** Runs of two or three without a heading are copied by the pattern too. */
  lemma PyShortRun(s: U32)
    requires 2 <= Span(s, C.IsEq) <= 3 && C.Heading(s).None?
    ensures var a := Span(s, C.IsEq); C.Substitute(PyHeading, s) == s[..a] + C.Substitute(PyHeading, s[a..])
  {
    hide *;
    var a := Span(s, C.IsEq);
    var t := s[1..];
    PyCopyOne(s);
    PyCopyOne(t);
    assert t[1..] == s[2..];
    assert s[..2] == [s[0], t[0]];
    if a == 3 {
      PyCopyOne(s[2..]);
      assert s[2..][1..] == s[3..];
      assert s[..3] == [s[0], t[0], s[2..][0]];
    }
  }

  lemma PyCopyOne(s: U32)
    requires s != [] && 1 <= Span(s, C.IsEq) <= 3 && C.Heading(s).None?
    ensures C.Substitute(PyHeading, s) == [s[0]] + C.Substitute(PyHeading, s[1..])
    ensures C.Heading(s[1..]).None? && Span(s[1..], C.IsEq) == Span(s, C.IsEq) - 1
  {
    ShorterRun(s);
    SubstMiss(PyHeading, s);
  }

  lemma {:induction false} PyRuled(s: U32)
    ensures C.Substitute(C.EqRun, C.Substitute(PyHeading, s)) == Ruled(s)
    decreases |s|
  {
    hide *;
    HeadingsNeedRun();
    if s == [] {
      SubstituteEmpty();
    } else if Span(s, C.IsEq) < 2 {
      PyRuled(s[1..]);
      CopiedChar(PyHeading, s);
      RuledCopy(s);
    } else {
      var r := HeadingRest(s);
      PyRuled(r);
      SqueezeRuledRun(s);
      RestIs(s);
      if PyHeading(s).Some? {
        ReplacedRun(PyHeading, s);
      } else {
        PyShortRun(s);
        PlainRun(PyHeading, s);
      }
    }
  }

  // ----- bullets -----

  /** Python's white space in s is exactly what the C++ code calls space-like. */
  ghost predicate SameSpaces(s: U32) {
    forall k :: 0 <= k < |s| ==> (P.IsPySpace(s[k]) <==> C.IsSpaceLike(s[k]))
  }

  lemma MarkLenIs(s: U32)
    requires SameSpaces(s)
    ensures MarkLen(s) == C.BulletLen(true, s)
  {
    hide Span, P.IsPySpace, C.IsSpaceLike;
  }

  lemma BulletsWithoutMark(t: U32)
    requires C.BulletLen(true, t) == 0
    ensures C.Bullets(true, t) == C.Bullets(false, t)
  {
    if t != [] {
      hide Span, C.IsSpaceLike;
    }
  }

  /** The pattern swallows the space that the scanner keeps. */
  lemma {:induction false} BulletsAgree(atStart: bool, s: U32)
    requires SameSpaces(s)
    ensures C.Squeeze(PyBullets(atStart, s)) == C.Squeeze(C.Bullets(atStart, s))
    decreases |s|
  {
    if s == [] {
    } else {
      var t := s[1..];
      assert SameSpaces(t);
      MarkLenIs(s);
      MarkLenIs(t);
      var n := C.BulletLen(true, s);
      var m := C.BulletLen(true, t);
      assert SameSpaces(s[n..]) && SameSpaces(t[m..]);
      BulletHead(atStart, s);
      assert P.IsPySpace(s[0]) <==> C.IsSpaceLike(s[0]);
      hide *;
      if atStart && n > 0 {
        BulletsAgree(false, s[n..]);
        BulletsMark(true, s);
        SqueezeCons(C.SPACE, PyBullets(false, s[n..]));
        SqueezeCons(C.SPACE, C.Bullets(false, s[n..]));
      } else if C.IsSpaceLike(s[0]) && m > 0 {
        BulletsAgree(false, t[m..]);
        KeptSpace(atStart, s);
      } else {
        BulletsAgree(false, t);
        PlainChar(atStart, s);
      }
    }
  }

  lemma BulletHead(atStart: bool, s: U32)
    requires s != []
    ensures var n := MarkLen(s); var m := MarkLen(s[1..]);
      PyBullets(atStart, s) ==
        if atStart && n > 0 then [C.SPACE] + PyBullets(false, s[n..])
        else if P.IsPySpace(s[0]) && m > 0 then [C.SPACE] + PyBullets(false, s[1..][m..])
        else [s[0]] + PyBullets(false, s[1..])
  {
    hide MarkLen, P.IsPySpace;
    assert s[1 + MarkLen(s[1..])..] == s[1..][MarkLen(s[1..])..];
  }

  lemma NoMarkAtSpace(atBound: bool, s: U32)
    requires s != [] && C.IsSpaceLike(s[0])
    ensures C.BulletLen(atBound, s) == 0
  {
    SpaceIsNotEq(s[0]);
  }

  lemma KeptSpace(atStart: bool, s: U32)
    requires s != [] && C.IsSpaceLike(s[0]) && C.BulletLen(true, s[1..]) > 0
    requires var r := s[1..][C.BulletLen(true, s[1..])..];
      C.Squeeze(PyBullets(false, r)) == C.Squeeze(C.Bullets(false, r)) &&
      PyBullets(atStart, s) == [C.SPACE] + PyBullets(false, r)
    ensures C.Squeeze(PyBullets(atStart, s)) == C.Squeeze(C.Bullets(atStart, s))
  {
    hide *;
    var t := s[1..];
    var r := t[C.BulletLen(true, t)..];
    assert s == [s[0]] + t;
    NoMarkAtSpace(atStart, s);
    BulletsCopy(atStart, s[0], t);
    BulletsMark(true, t);
    SqueezeCons(C.SPACE, PyBullets(false, r));
    SqueezeCons(s[0], C.Bullets(true, t));
    SqueezeCons(C.SPACE, C.Bullets(false, r));
    SpaceIsNotEq(C.SPACE);
    DropLeadTwice(C.DropLead(C.Squeeze(C.Bullets(false, r))));
  }

  lemma PlainChar(atStart: bool, s: U32)
    requires s != [] && C.BulletLen(atStart, s) == 0
    requires C.IsSpaceLike(s[0]) ==> C.BulletLen(true, s[1..]) == 0
    requires C.Squeeze(PyBullets(false, s[1..])) == C.Squeeze(C.Bullets(false, s[1..]))
    requires PyBullets(atStart, s) == [s[0]] + PyBullets(false, s[1..])
    ensures C.Squeeze(PyBullets(atStart, s)) == C.Squeeze(C.Bullets(atStart, s))
  {
    hide *;
    var t := s[1..];
    assert s == [s[0]] + t;
    BulletsCopy(atStart, s[0], t);
    if C.IsSpaceLike(s[0]) {
      BulletsWithoutMark(t);
    }
    SqueezeCons(s[0], PyBullets(false, t));
    SqueezeCons(s[0], C.Bullets(false, t));
  }

  // ----- line breaks -----

  lemma {:induction false} ReplaceChar(s: U32, a: CodePoint, b: CodePoint)
    ensures P.Replace(s, [a], [b]) == Map(c => if c == a then b else c, s)
    decreases |s|
  {
    if s != [] {
      assert s[..1] == [s[0]];
      ReplaceChar(s[1..], a, b);
    }
  }

  function Unix(s: U32): U32 { P.Replace(s, [C.CR, C.LF], [C.LF]) }

  lemma BreaksAsMap(s: U32)
    ensures P.Breaks(s) == Map(C.BreakToSpace, Unix(s))
  {
    var u := Unix(s);
    ReplaceChar(u, C.CR, C.LF);
    var v := P.Replace(u, [C.CR], [C.LF]);
    ReplaceChar(v, C.LF, C.SPACE);
    var w := P.Replace(v, [C.LF], [C.SPACE]);
    ReplaceChar(w, C.TAB, C.SPACE);
    assert |u| == |v| == |w| == |P.Breaks(s)|;
    assert forall k :: 0 <= k < |u| ==> P.Breaks(s)[k] == C.BreakToSpace(u[k]);
  }

  lemma MapCons(f: CodePoint -> CodePoint, c: CodePoint, s: U32)
    ensures Map(f, [c] + s) == [f(c)] + Map(f, s)
  {
    assert ([c] + s)[1..] == s;
  }

  /** Dropping the CR of a CR LF removes one of two spaces. */
  lemma {:induction false} BreaksAgree(s: U32)
    ensures C.Squeeze(P.Breaks(s)) == C.Squeeze(Map(C.BreakToSpace, s))
    decreases |s|
  {
    hide C.Squeeze, P.Breaks, Unix;
    BreaksAsMap(s);
    if s == [] {
      UnixEmpty();
    } else {
      UnixStep(s);
      var n := if 2 <= |s| && s[0] == C.CR && s[1] == C.LF then 2 else 1;
      var t := s[n..];
      BreaksAgree(t);
      BreaksAsMap(t);
      hide *;
      var f := C.BreakToSpace;
      BreakIsSpace();
      if n == 2 {
        assert s == [s[0]] + ([s[1]] + t);
        MapCons(f, s[0], [s[1]] + t);
        MapCons(f, s[1], t);
        MapCons(f, C.LF, Unix(t));
        SqueezeCons(C.SPACE, Map(f, Unix(t)));
        SqueezeCons(C.SPACE, Map(f, t));
        SqueezeCons(C.SPACE, [C.SPACE] + Map(f, t));
        DropLeadTwice(C.DropLead(C.Squeeze(Map(f, t))));
      } else {
        assert s == [s[0]] + t;
        MapCons(f, s[0], t);
        MapCons(f, s[0], Unix(t));
        SqueezeCons(f(s[0]), Map(f, Unix(t)));
        SqueezeCons(f(s[0]), Map(f, t));
      }
    }
  }

  lemma BreakIsSpace()
    ensures C.BreakToSpace(C.LF) == C.SPACE && C.BreakToSpace(C.CR) == C.SPACE && C.IsSpaceLike(C.SPACE)
  {
  }

  lemma UnixEmpty()
    ensures Unix([]) == []
  {
  }

  lemma UnixStep(s: U32)
    requires s != []
    ensures Unix(s) ==
      if 2 <= |s| && s[0] == C.CR && s[1] == C.LF then [C.LF] + Unix(s[2..]) else [s[0]] + Unix(s[1..])
  {
    if 2 <= |s| {
      assert s[..2] == [C.CR, C.LF] <==> s[0] == C.CR && s[1] == C.LF;
    }
  }

  // ----- space runs and trimming -----

  lemma {:induction false} SqueezeSpaceRun(s: U32)
    ensures var n := Span(s, C.IsSpaceLike); n > 0 ==> C.Squeeze(s) == [C.SPACE] + C.Squeeze(s[n..])
  {
    var n := Span(s, C.IsSpaceLike);
    if n > 0 {
      var t := s[1..];
      SqueezeSpaceRun(t);
      assert Span(t, C.IsSpaceLike) == n - 1 && t[n - 1..] == s[n..];
      assert C.Squeeze(s) == [C.SPACE] + C.DropLead(C.Squeeze(t));
      if n == 1 {
        assert t == s[1..];
        if t != [] {
          SqueezeHead(t);
        }
      }
      hide Span, C.IsSpaceLike;
    }
  }

  lemma {:induction false} SpacesAgree(s: U32)
    ensures C.Substitute(SpaceRun, s) == C.Squeeze(s)
    decreases |s|
  {
    if s != [] {
      SqueezeSpaceRun(s);
      var n := Span(s, C.IsSpaceLike);
      SpacesAgree(s[if n > 0 then n else 1..]);
      hide Span;
    }
  }

  lemma {:induction false} StripRightPlain(s: U32)
    requires Squeezed(s)
    ensures P.StripRight(s) == C.TrimEnd(s)
    decreases |s|
  {
    if s != [] && C.IsBlank(s[|s| - 1]) {
      var t := s[..|s| - 1];
      assert forall k :: 0 <= k < |t| ==> t[k] == s[k];
      StripRightPlain(t);
    }
  }

  lemma StripLeftPlain(s: U32)
    requires Squeezed(s)
    ensures P.StripLeft(s) == C.TrimStart(s)
  {
    var n := Span(s, C.IsPlainSpace);
    if n < |s| {
      assert !C.IsPlainSpace(s[n]);
      assert !C.IsSpaceLike(s[n]);
    }
    assert forall k :: 0 <= k < n ==> C.IsBlank(s[k]) by {
      assert forall k :: 0 <= k < n ==> C.IsPlainSpace(s[k]);
    }
    hide Span;
    SpanUnique(s, C.IsBlank, n);
  }

  lemma SqueezedTail(s: U32, n: nat)
    requires Squeezed(s) && n <= |s|
    ensures Squeezed(s[n..])
  {
    var t := s[n..];
    assert forall k :: 0 <= k < |t| ==> t[k] == s[n + k];
    forall k | 0 < k < |t| && t[k - 1] == C.SPACE
      ensures t[k] != C.SPACE
    {
      assert s[n + k - 1] == C.SPACE;
    }
  }

  lemma TrimsAgree(s: U32)
    ensures P.Spaces(s) == C.TrimEnd(C.TrimStart(C.Squeeze(s)))
  {
    hide *;
    var q := C.Squeeze(s);
    SubSpaces(s);
    SpacesAgree(s);
    SqueezeShape(s);
    StripLeftPlain(q);
    TrimStartTail(q);
    StripRightPlain(C.TrimStart(q));
    SpacesUnfold(s);
  }

  lemma SpacesUnfold(s: U32)
    ensures P.Spaces(s) == P.StripRight(P.StripLeft(P.Subst(P.MULTI_SPACE, R.Fixed([C.SPACE]), s)))
  {
    hide P.Subst;
  }

  lemma TrimStartTail(q: U32)
    requires Squeezed(q)
    ensures Squeezed(C.TrimStart(q))
  {
    hide Squeezed;
    SqueezedTail(q, Span(q, C.IsPlainSpace));
  }

  // ----- what the characters can be, stage by stage -----

  /** The characters on which the theorem speaks: no bracket, and no white space but the usual. */
  predicate Plain(c: CodePoint) {
    && c != C.OPEN && c != C.LESS
    && (P.IsPySpace(c) ==> c == C.SPACE || c == C.TAB || c == C.CR || c == C.LF || c == C.IDEO_SPACE)
  }

  /** The same once line breaks and tabs are spaces. */
  predicate PlainNow(c: CodePoint) {
    c != C.OPEN && c != C.LESS && (P.IsPySpace(c) <==> C.IsSpaceLike(c))
  }

  lemma PlainAfterBreaks(s: U32)
    requires All(s, Plain)
    ensures All(Map(C.BreakToSpace, s), PlainNow) && All(P.Breaks(s), PlainNow)
  {
    UnixKeeps(s);
    BreaksAsMap(s);
    hide P.Breaks, Unix;
    assert forall c: CodePoint :: Plain(c) ==> PlainNow(C.BreakToSpace(c));
  }

  lemma {:induction false} UnixKeeps(s: U32)
    requires All(s, Plain)
    ensures All(Unix(s), Plain)
    decreases |s|
  {
    hide Unix;
    if s == [] {
      UnixEmpty();
    } else {
      UnixStep(s);
      UnixKeeps(s[1..]);
      if |s| >= 2 {
        UnixKeeps(s[2..]);
      }
    }
  }

  lemma PassesKeepPlain()
    ensures Keeps(C.Heading, PlainNow) && Keeps(PyHeading, PlainNow) && Keeps(C.EqRun, PlainNow)
  {
    assert PlainNow(C.SPACE);
    hide Span, P.IsPySpace;
    SpaceTexts();
    hide C.Heading, PyHeading, C.EqRun;
  }

  lemma SpaceTexts()
    ensures forall t: U32 :: C.Heading(t).Some? ==> C.Heading(t).value.text == [C.SPACE]
    ensures forall t: U32 :: PyHeading(t).Some? ==> PyHeading(t).value.text == [C.SPACE]
    ensures forall t: U32 :: C.EqRun(t).Some? ==> C.EqRun(t).value.text == [C.SPACE]
  {
    hide Span;
  }

  // ----- the C++ passes that need a bracket -----

  lemma CppWithoutBrackets(s: U32)
    requires All(s, PlainNow)
    ensures C.Substitute(C.EditMark, s) == s
    ensures C.Substitute(C.WikiLink, s) == s
    ensures C.Substitute(C.WikiRef, s) == s
  {
    forall k | 0 <= k < |s|
      ensures C.EditMark(s[k..]).None? && C.WikiLink(s[k..]).None? && C.WikiRef(s[k..]).None?
    {
      assert PlainNow(s[k]) && s[k..][0] == s[k];
      hide Span, C.EqualsIgnoreCaseAscii, C.FindCloseRef;
    }
    hide *;
    NothingToReplace(C.EditMark, s);
    NothingToReplace(C.WikiLink, s);
    NothingToReplace(C.WikiRef, s);
  }

  lemma CppScanned(s: U32)
    requires All(Map(C.BreakToSpace, s), PlainNow)
    ensures C.Scanned(s) == C.Bullets(true, Ruled(Map(C.BreakToSpace, s)))
  {
    hide *;
    var x := Map(C.BreakToSpace, s);
    PassesKeepPlain();
    CppWithoutBrackets(x);
    var h := C.Substitute(C.Heading, x);
    SubstituteKeeps(C.Heading, x, PlainNow);
    CppWithoutBrackets(h);
    CppRuled(x);
    CppScannedUnfold(s);
  }

  lemma CppScannedUnfold(s: U32)
    ensures C.Scanned(s) == C.Bullets(true, C.Substitute(C.EqRun, C.Substitute(C.WikiRef,
      C.Substitute(C.WikiLink, C.Substitute(C.Heading, C.Substitute(C.EditMark, Map(C.BreakToSpace, s)))))))
  {
    hide C.Substitute, C.Bullets, Map;
  }

  lemma PyScanned(s: U32)
    requires All(P.Breaks(s), PlainNow)
    ensures P.Scanned(s) == PyBullets(true, Ruled(P.Breaks(s)))
    ensures SameSpaces(Ruled(P.Breaks(s)))
  {
    hide *;
    var y := P.Breaks(s);
    PassesKeepPlain();
    PlainHasNoBrackets(y);
    SubWithoutBrackets(y);
    SubHeading(y);
    var h := C.Substitute(PyHeading, y);
    SubstituteKeeps(PyHeading, y, PlainNow);
    PlainHasNoBrackets(h);
    SubWithoutBrackets(h);
    SubEqRun(h);
    PyRuled(y);
    SubstituteKeeps(C.EqRun, h, PlainNow);
    PlainHasNoBrackets(Ruled(y));
    SubBullets(Ruled(y), 0);
    assert Ruled(y)[0..] == Ruled(y);
    PyScannedUnfold(s);
  }

  lemma PlainHasNoBrackets(s: U32)
    requires All(s, PlainNow)
    ensures NoBrackets(s) && SameSpaces(s)
  {
    hide P.IsPySpace, C.IsSpaceLike;
    assert forall k :: 0 <= k < |s| ==> PlainNow(s[k]);
  }

  lemma PyScannedUnfold(s: U32)
    ensures var noEdits := P.Subst(P.WIKI_EDIT, R.Fixed([]), P.Breaks(s));
      var noHeadings := P.Subst(P.WIKI_HEADING, R.Fixed([C.SPACE]), noEdits);
      var noRefs := P.Subst(P.WIKI_REF, R.Fixed([]), P.Subst(P.WIKI_LINK, R.Group1, noHeadings));
      P.Scanned(s) == R.Sub(P.BULLET_MARK, R.Fixed([C.SPACE]), P.Subst(P.EQ_RUN, R.Fixed([C.SPACE]), noRefs), 0)
  {
    hide R.Sub, P.Breaks;
  }

  // ----- the agreement -----

  /** After all passes the two texts differ at most in how many spaces stand together. */
  lemma ScannedAgree(s: U32)
    requires All(s, Plain)
    ensures C.Squeeze(P.Scanned(s)) == C.Squeeze(C.Scanned(s))
  {
    hide *;
    var x, y := Map(C.BreakToSpace, s), P.Breaks(s);
    PlainAfterBreaks(s);
    CppScanned(s);
    PyScanned(s);
    BreaksAgree(s);
    BulletsAgree(true, Ruled(y));
    SqueezeRuled(x);
    SqueezeRuled(y);
    SqueezeBullets(true, Ruled(x));
    SqueezeBullets(true, Ruled(y));
  }

  lemma TrimmedAgree(s: U32)
    requires All(s, Plain)
    ensures P.Spaces(P.Scanned(s)) == C.Trimmed(s)
  {
    hide *;
    ScannedAgree(s);
    TrimsAgree(P.Scanned(s));
    TrimmedUnfold(s);
  }

  /** The last sentence is cut alike; the bounds agree unless the bound is negative and something is left. */
  lemma CutsAgree(value: U32, max: int)
    ensures P.StripLeft(value[C.LastEnd(value)..]) == C.LastSentence(value)
    ensures P.Bound(C.LastSentence(value), max) == C.TakeLast(C.LastSentence(value), max)
      <==> max >= 0 || C.LastSentence(value) == []
  {
    hide Span, C.LastEnd;
    var t := C.LastSentence(value);
    if 0 > max && t != [] {
      assert |P.Bound(t, max)| < |t|;
    }
  }

  /**
   The C++ cleaner and the daemon's `clean_context` agree on every plain text, for every bound
   that is not negative; with a negative bound Python drops characters from the front instead.
   */
  lemma CleanersAgree(s: U32, max: int)
    requires All(s, Plain)
    ensures C.CleanU32(s, max) == P.CleanContext(s, max) <==> max >= 0 || C.CleanU32(s, max) == []
  {
    hide *;
    TrimmedAgree(s);
    CutsAgree(C.Trimmed(s), max);
    CleanUnfold(s, max);
  }

  lemma CleanUnfold(s: U32, max: int)
    ensures C.CleanU32(s, max) == C.TakeLast(C.LastSentence(C.Trimmed(s)), max)
    ensures C.CleanU32(s, max) == [] <==> C.LastSentence(C.Trimmed(s)) == []
    ensures s == [] ==> C.Trimmed(s) == []
    ensures C.Trimmed(s) == [] ==> C.LastSentence(C.Trimmed(s)) == []
    ensures P.CleanContext(s, max) ==
      if s == [] || P.Spaces(P.Scanned(s)) == [] then []
      else P.Bound(P.StripLeft(P.Spaces(P.Scanned(s))[C.LastEnd(P.Spaces(P.Scanned(s)))..]), max)
  {
    C.CleanEmpty(max);
    EmptyTrimmed();
    hide C.Trimmed, P.Scanned, P.Spaces;
  }

  lemma EmptyTrimmed()
    ensures C.Trimmed([]) == []
  {
    SubstituteEmpty();
    BulletsEmpty(true);
    assert Map(C.BreakToSpace, []) == [];
    hide C.Substitute, C.Bullets, Map, C.Squeeze;
  }

  /** The same for the octet strings that the two programs exchange. */
  lemma CleanersAgreeOnBytes(text: Bytes, max: int)
    requires WellFormed(text) && All(Decode(text), Plain) && max >= 0
    ensures Encode(P.CleanContext(Decode(text), max)) == Encode(C.CleanU32(Decode(text), max))
    ensures Encode(Decode(text)) == text
  {
    hide *;
    CleanersAgree(Decode(text), max);
    EncodeDecodeWellFormed(text);
  }
}
