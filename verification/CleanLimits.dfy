/** Where the two cleaners part: below bound zero, and on an empty link. */
module CleanLimits {
  import opened Text
  import opened SpaceSqueeze
  import opened PatternMeaning
  import opened CleanAgreement
  import opened CleanShape
  import C = ContextClip
  import L = LinkPass
  import M = MarkPasses
  import P = PyContext
  import R = PyRegex

  // ----- the bound -----

  /** A bound suits every plain text exactly when it is not negative; below zero the text "a" is cut by Python. */
  lemma CleanersAgreeForBound(max: int)
    ensures (forall s: U32 :: All(s, Plain) ==> C.CleanU32(s, max) == P.CleanContext(s, max)) <==> max >= 0
  {
    OneLetter(max);
    hide *;
    forall s: U32 | All(s, Plain)
      ensures max >= 0 ==> C.CleanU32(s, max) == P.CleanContext(s, max)
    {
      CleanersAgree(s, max);
    }
    CleanersAgree([0x61], max);
  }

  lemma OneLetter(max: int)
    ensures All([0x61], Plain) && C.CleanU32([0x61], max) == [0x61]
  {
    assert All([0x61], Plain) && All([0x61], Unmarked) && Tidy([0x61]);
    hide *;
    CleanTidyText([0x61], max);
    NoLead();
  }

  lemma OneLetterAgrees(max: int)
    ensures max >= 0 ==> P.CleanContext([0x61], max) == [0x61]
  {
    hide *;
    OneLetter(max);
    CleanersAgree([0x61], max);
  }

  lemma NoLead()
    ensures C.DropLead([0x61]) == [0x61]
  {
  }

  // ----- the empty link -----

  /** Brackets alone: only the link passes can change them. */
  predicate IsBracket(c: CodePoint) { c == C.OPEN || c == C.CLOSE }

  lemma {:induction false} ReplaceAbsent(s: U32, was: U32, now: U32)
    requires was != [] && forall k :: 0 <= k < |s| ==> s[k] != was[0]
    ensures P.Replace(s, was, now) == s
    decreases |s|
  {
    if s != [] {
      assert |was| <= |s| ==> s[..|was|][0] == s[0];
      ReplaceAbsent(s[1..], was, now);
    }
  }

  lemma BracketBreaks(s: U32)
    requires All(s, IsBracket)
    ensures P.Breaks(s) == s && Map(C.BreakToSpace, s) == s
  {
    ReplaceAbsent(s, [C.CR, C.LF], [C.LF]);
    ReplaceAbsent(s, [C.CR], [C.LF]);
    ReplaceAbsent(s, [C.LF], [C.SPACE]);
    ReplaceAbsent(s, [C.TAB], [C.SPACE]);
    hide P.Replace;
  }

  lemma NoSpan(s: U32, i: nat)
    requires i <= |s| && All(s, IsBracket)
    ensures Span(s[i..], P.IsPySpace) == Span(s[i..], C.IsEq) == 0
    ensures Span(s[i..], C.IsSpaceLike) == Span(s[i..], C.IsBulletChar) == Span(s[i..], C.IsBlank) == 0
    ensures i < |s| ==> IsBracket(s[i])
  {
    assert i < |s| ==> s[i..][0] == s[i] && IsBracket(s[i]);
  }

  lemma BracketIs(c: CodePoint)
    requires IsBracket(c)
    ensures !P.IsPySpace(c) && !P.IsPyDigit(c) && !P.IsE(c) && !P.IsHen(c) && c != C.LESS
  {
    if P.IsPyDigit(c) {
      M.DigitIsNoBracket(c);
    }
    hide P.IsOtherDigit;
  }

  /** Among brackets the pattern finds no edit mark and no reference. */
  lemma NoMarkHere(s: U32, k: nat)
    requires k < |s| && All(s, IsBracket)
    ensures M.PyEdit(s[k..]) == None && M.PyRef(s[k..]) == None
  {
    var t := s[k..];
    assert t[0] == s[k] && forall j :: 0 <= j < |t| ==> IsBracket(t[j]) by {
      assert forall j :: 0 <= j < |t| ==> t[j] == s[k + j] && IsBracket(s[k + j]);
    }
    BracketIs(t[0]);
    if |t| > 1 {
      BracketIs(t[1]);
      assert t[1..][0] == t[1];
    }
    hide M.PyEnd, M.TagEnd, C.EqualsIgnoreCaseAscii, P.IsPySpace, P.IsPyDigit, P.IsE, P.IsHen, P.IsWordChar, IsBracket;
    assert Span(t[1..], P.IsPySpace) == 0 && Span(t[1..], P.IsPyDigit) == 0;
    assert t[1..][0..] == t[1..];
  }

  lemma {:induction false} NoPyBullets(atStart: bool, s: U32)
    requires All(s, IsBracket)
    ensures PyBullets(atStart, s) == s
    decreases |s|
  {
    if s != [] {
      NoSpan(s, 0);
      NoSpan(s, 1);
      assert s[0..] == s;
      assert !P.IsPySpace(s[0]);
      NoPyBullets(false, s[1..]);
    }
  }

  lemma PythonKeeps(s: U32)
    requires All(s, IsBracket) && P.Subst(P.WIKI_LINK, R.Group1, s) == s
    ensures P.Scanned(s) == s
  {
    hide P.Breaks, P.Subst, P.WIKI_EDIT, P.WIKI_HEADING, P.WIKI_LINK, P.WIKI_REF, P.EQ_RUN, P.BULLET_MARK;
    BracketBreaks(s);
    EditKeeps(s);
    RunsKeep(s);
    ReferencesKeep(s);
    BulletsKeepAll(s);
  }

  lemma EditKeeps(s: U32)
    requires All(s, IsBracket)
    ensures P.Subst(P.WIKI_EDIT, R.Fixed([]), s) == s
  {
    hide *;
    forall k | 0 <= k < |s|
      ensures M.PyEdit(s[k..]).None?
    {
      NoMarkHere(s, k);
    }
    M.SubEdit(s);
    NothingToReplace(M.PyEdit, s);
  }

  lemma ReferencesKeep(s: U32)
    requires All(s, IsBracket)
    ensures P.Subst(P.WIKI_REF, R.Fixed([]), s) == s
  {
    hide *;
    forall k | 0 <= k < |s|
      ensures M.PyRef(s[k..]).None?
    {
      NoMarkHere(s, k);
    }
    M.SubRef(s);
    NothingToReplace(M.PyRef, s);
  }

  lemma RunsKeep(s: U32)
    requires All(s, IsBracket)
    ensures P.Subst(P.WIKI_HEADING, R.Fixed([C.SPACE]), s) == s
    ensures P.Subst(P.EQ_RUN, R.Fixed([C.SPACE]), s) == s
    ensures P.Subst(P.MULTI_SPACE, R.Fixed([C.SPACE]), s) == s
  {
    hide P.Subst, P.WIKI_HEADING, P.EQ_RUN, P.MULTI_SPACE, Span, IsBracket;
    forall k | 0 <= k < |s|
      ensures PyHeading(s[k..]).None? && C.EqRun(s[k..]).None? && SpaceRun(s[k..]).None?
    {
      NoSpan(s, k);
    }
    SubHeading(s);
    SubEqRun(s);
    SubSpaces(s);
    NothingToReplace(PyHeading, s);
    NothingToReplace(C.EqRun, s);
    NothingToReplace(SpaceRun, s);
  }

  lemma BulletsKeepAll(s: U32)
    requires All(s, IsBracket)
    ensures P.Subst(P.BULLET_MARK, R.Fixed([C.SPACE]), s) == s
  {
    assert s[0..] == s;
    hide *;
    SubBullets(s, 0);
    NoPyBullets(true, s);
    assert P.Subst(P.BULLET_MARK, R.Fixed([C.SPACE]), s) == R.Sub(P.BULLET_MARK, R.Fixed([C.SPACE]), s, 0) by {
      SubstIs(s);
    }
  }

  lemma SubstIs(s: U32)
    ensures P.Subst(P.BULLET_MARK, R.Fixed([C.SPACE]), s) == R.Sub(P.BULLET_MARK, R.Fixed([C.SPACE]), s, 0)
  {
  }

  lemma PythonLeaves(s: U32, max: int)
    requires All(s, IsBracket) && P.Scanned(s) == s && s != []
    ensures P.CleanContext(s, max) == P.Bound(s, max)
  {
    hide P.Scanned, P.Subst, P.Bound;
    RunsKeep(s);
    NoSpan(s, 0);
    NoSpan(s, |s| - 1);
    assert s[0..] == s;
    assert P.StripLeft(s) == s && P.StripRight(s) == s;
    assert C.LastEnd(s) == 0;
  }

  const EMPTY_LINK: U32 := [C.OPEN, C.OPEN, C.CLOSE, C.CLOSE]

  lemma LinkPasses()
    ensures All(EMPTY_LINK, IsBracket)
    ensures C.Substitute(C.WikiLink, EMPTY_LINK) == [] && P.Subst(P.WIKI_LINK, R.Group1, EMPTY_LINK) == EMPTY_LINK
  {
    var s := EMPTY_LINK;
    assert C.WikiLink(s) == Some(C.Hit(4, [])) by {
      SpanFrom(s, 0, 2, 2, 4, C.NotClose);
      SpanFrom(s, 0, 2, 2, 2, C.NotPipe);
      assert s[0..] == s;
    }
    SubstHit(C.WikiLink, s);
    SubstituteEmpty();
    hide C.WikiLink;
    L.SubLink(s);
    L.LinkHere(s);
    L.EmptyLinkCopied(s);
    hide C.Substitute;
    assert s[4..] == [] && s[..4] == s;
  }

  /** The scanners before the link pass leave brackets alone, and nothing is left behind it. */
  lemma CppRemoves(s: U32, max: int)
    requires All(s, IsBracket) && C.Substitute(C.WikiLink, s) == []
    requires forall k :: 0 <= k < |s| ==> C.EditMark(s[k..]).None?
    ensures C.CleanU32(s, max) == []
  {
    BracketBreaks(s);
    forall k | 0 <= k < |s|
      ensures C.Heading(s[k..]).None?
    {
      NoSpan(s, k);
    }
    EmptyTrimmed();
    hide C.EditMark, C.Heading, C.WikiLink, C.Substitute, C.Squeeze, C.Bullets, IsBracket;
    NothingToReplace(C.EditMark, s);
    NothingToReplace(C.Heading, s);
    NothingLeft(s, max);
  }

  lemma NothingLeft(s: U32, max: int)
    requires C.Marks(Map(C.BreakToSpace, s)) == C.Substitute(C.WikiRef, [])
    ensures C.CleanU32(s, max) == []
  {
    SubstituteEmpty();
    BulletsEmpty(true);
    hide C.Marks, C.Substitute, C.Bullets;
    assert C.Scanned(s) == [];
  }

  lemma NoEditWord(t: U32)
    requires t == [] || IsBracket(t[0])
    ensures C.EditWord(t) == 0
  {
    assert C.EDIT_WORD[0] == 0x65;
  }

  lemma NoEditMark(s: U32, k: nat)
    requires k < |s| && All(s, IsBracket)
    ensures C.EditMark(s[k..]).None?
  {
    assert s[k..][1..] == s[k + 1..];
    NoSpan(s, k + 1);
    assert s[k + 1..] == [] || s[k + 1..][0] == s[k + 1];
    NoEditWord(s[k + 1..]);
    hide Span, C.EditWord, IsBracket;
  }

  /** On the empty link "[[]]" the two cleaners differ: C++ removes it, Python keeps it. */
  lemma CleanersDifferOnEmptyLink(max: int)
    requires max >= 0
    ensures C.CleanU32(EMPTY_LINK, max) == []
    ensures P.CleanContext(EMPTY_LINK, max) == P.Bound(EMPTY_LINK, max) != []
  {
    LinkPasses();
    forall k | 0 <= k < 4
      ensures C.EditMark(EMPTY_LINK[k..]).None?
    {
      NoEditMark(EMPTY_LINK, k);
    }
    assert |EMPTY_LINK| == 4;
    hide C.CleanU32, C.Substitute, C.WikiLink, C.EditMark, P.CleanContext, P.Scanned, P.Subst, P.WIKI_LINK, IsBracket;
    CppRemoves(EMPTY_LINK, max);
    PythonKeeps(EMPTY_LINK);
    PythonLeaves(EMPTY_LINK, max);
  }
}
