/** The edit and reference passes of the two cleaners: what the patterns match, and where the scanners do the same. */
module MarkPasses {
  import opened Text
  import opened PyRegex
  import opened PatternMeaning
  import C = ContextClip
  import L = LinkPass
  import P = PyContext

  // ----- edit marks -----

  const EDIT_WORDS: Item := Either([One(P.IsE), One(P.IsD), One(P.IsI), One(P.IsT)], [One(P.IsHen), One(P.IsShu)])
  const EDIT_END: Pattern := [Greedy(P.IsPySpace, 0)] + [One(P.IsClose)]

  lemma EditItems()
    ensures P.WIKI_EDIT == [One(P.IsOpen)] + ([Greedy(P.IsPySpace, 0)] + ([EDIT_WORDS] + EDIT_END))
  {
  }

  function PyWord(u: U32): (n: nat)
    ensures n <= |u|
  {
    if |u| >= 4 && P.IsE(u[0]) && P.IsD(u[1]) && P.IsI(u[2]) && P.IsT(u[3]) then 4
    else if |u| >= 2 && P.IsHen(u[0]) && P.IsShu(u[1]) then 2
    else 0
  }

  /** Spaces up to k and a closing bracket. */
  function PyEnd(s: U32, k: nat): (e: nat)
    requires k <= |s|
    ensures e <= |s|
  {
    var m := k + Span(s[k..], P.IsPySpace);
    if m < |s| && s[m] == C.CLOSE then m + 1 else 0
  }

  /** The edit pattern as a matcher. */
  function PyEdit(t: U32): (h: Option<C.Hit>)
    ensures h.Some? ==> C.Usable(h, t)
  {
    if t == [] || t[0] != C.OPEN then None
    else
      var j := 1 + Span(t[1..], P.IsPySpace);
      var word := PyWord(t[j..]);
      if word > 0 && PyEnd(t, j + word) > 0 then Some(C.Hit(PyEnd(t, j + word), [])) else None
  }

  lemma MatchSpaces(s: U32, k: nat)
    requires k <= |s|
    ensures MatchAt(EDIT_END, s, k, 0, 0) == if PyEnd(s, k) > 0 then Some(Match(PyEnd(s, k), 0, 0)) else None
  {
    var n := Span(s[k..], P.IsPySpace);
    var close := [One(P.IsClose)];
    L.SpanInside(s, k, P.IsPySpace);
    hide MatchAt, Span, P.IsPySpace, Shrink;
    forall q | k <= q <= k + n
      ensures MatchAt(close, s, q, 0, 0) == if q < |s| && s[q] == C.CLOSE then Some(Match(q + 1, 0, 0)) else None
    {
      MatchOne(P.IsClose, [], s, q);
      assert close + [] == close;
      if q < |s| {
        MatchNil(s, q + 1, 0, 0);
      }
    }
    forall q | k <= q < k + n
      ensures MatchAt(close, s, q, 0, 0).None?
    {
      SpaceIsNoBracket(s[q]);
    }
    MatchGreedy(P.IsPySpace, 0, close, s, k);
    if MatchAt(close, s, k + n, 0, 0).Some? {
      ShrinkFirst(close, s, k, n, 0);
    } else {
      ShrinkNone(close, s, k, n, 0, 0, 0);
    }
  }

  lemma SpaceIsNoBracket(c: CodePoint)
    requires P.IsPySpace(c)
    ensures c != C.CLOSE && c != C.OPEN && !P.IsE(c) && !P.IsHen(c)
  {
  }

  lemma MatchTwo(p: Class, q: Class, rest: Pattern, s: U32, j: nat)
    requires j <= |s|
    ensures MatchAt([One(p), One(q)] + rest, s, j, 0, 0) ==
      if j + 2 <= |s| && p(s[j]) && q(s[j + 1]) then MatchAt(rest, s, j + 2, 0, 0) else None
  {
    assert [One(p), One(q)] + rest == [One(p)] + ([One(q)] + rest);
    hide *;
    MatchOne(p, [One(q)] + rest, s, j);
    if j < |s| {
      MatchOne(q, rest, s, j + 1);
    }
  }

  lemma MatchWord(s: U32, j: nat)
    requires j <= |s|
    ensures var n := PyWord(s[j..]);
      MatchAt([EDIT_WORDS] + EDIT_END, s, j, 0, 0) == if n > 0 then MatchAt(EDIT_END, s, j + n, 0, 0) else None
  {
    var edit := [One(P.IsE), One(P.IsD), One(P.IsI), One(P.IsT)];
    var hen := [One(P.IsHen), One(P.IsShu)];
    WordIs(s, j);
    assert edit + EDIT_END == [One(P.IsE), One(P.IsD)] + ([One(P.IsI), One(P.IsT)] + EDIT_END);
    hide MatchAt, EDIT_END, PyWord;
    MatchEither(edit, hen, EDIT_END, s, j);
    MatchTwo(P.IsE, P.IsD, [One(P.IsI), One(P.IsT)] + EDIT_END, s, j);
    MatchTwo(P.IsHen, P.IsShu, EDIT_END, s, j);
    if j + 2 <= |s| {
      MatchTwo(P.IsI, P.IsT, EDIT_END, s, j + 2);
    }
  }

  lemma WordIs(s: U32, j: nat)
    requires j <= |s|
    ensures PyWord(s[j..]) ==
      if j + 4 <= |s| && P.IsE(s[j]) && P.IsD(s[j + 1]) && P.IsI(s[j + 2]) && P.IsT(s[j + 3]) then 4
      else if j + 2 <= |s| && P.IsHen(s[j]) && P.IsShu(s[j + 1]) then 2
      else 0
  {
    hide P.IsE, P.IsD, P.IsI, P.IsT, P.IsHen, P.IsShu;
  }

  lemma PyEndFrom(s: U32, i: nat, k: nat)
    requires i <= k <= |s|
    ensures PyEnd(s[i..], k - i) == if PyEnd(s, k) > 0 then PyEnd(s, k) - i else 0
  {
    assert s[i..][k - i..] == s[k..];
    hide Span;
  }

  /** One character, then all of a run. */
  lemma MatchOneThenRun(p: Class, q: Class, rest: Pattern, s: U32, i: nat, n: nat)
    requires i < |s| && p(s[i]) && n == Span(s[i + 1..], q) && i + 1 + n <= |s|
    requires Shrink(rest, s, i + 1, n, 0, 0, 0) == MatchAt(rest, s, i + 1 + n, 0, 0)
    ensures MatchAt([One(p)] + ([Greedy(q, 0)] + rest), s, i, 0, 0) == MatchAt(rest, s, i + 1 + n, 0, 0)
  {
    hide *;
    MatchOne(p, [Greedy(q, 0)] + rest, s, i);
    MatchGreedy(q, 0, rest, s, i + 1);
  }

  lemma MatchOpening(s: U32, i: nat, n: nat)
    requires i < |s| && s[i] == C.OPEN && n == Span(s[i + 1..], P.IsPySpace)
    ensures MatchAt(P.WIKI_EDIT, s, i, 0, 0) == MatchAt([EDIT_WORDS] + EDIT_END, s, i + 1 + n, 0, 0)
  {
    assert P.IsOpen(s[i]);
    L.SpanInside(s, i + 1, P.IsPySpace);
    hide *;
    EditBehindSpaces(s, i + 1, n);
    MatchOneThenRun(P.IsOpen, P.IsPySpace, [EDIT_WORDS] + EDIT_END, s, i, n);
    EditItems();
  }

  lemma MatchWordEnd(s: U32, j: nat)
    requires j <= |s|
    ensures var word := PyWord(s[j..]);
      MatchAt([EDIT_WORDS] + EDIT_END, s, j, 0, 0) ==
        if word > 0 && PyEnd(s, j + word) > 0 then Some(Match(PyEnd(s, j + word), 0, 0)) else None
  {
    hide *;
    MatchWord(s, j);
    if PyWord(s[j..]) > 0 {
      MatchSpaces(s, j + PyWord(s[j..]));
    }
  }

  lemma MatchEditOpen(s: U32, i: nat)
    requires i < |s| && s[i] == C.OPEN
    ensures var j := i + 1 + Span(s[i + 1..], P.IsPySpace);
      var word := PyWord(s[j..]);
      MatchAt(P.WIKI_EDIT, s, i, 0, 0) ==
        if word > 0 && PyEnd(s, j + word) > 0 then Some(Match(PyEnd(s, j + word), 0, 0)) else None
  {
    hide *;
    MatchOpening(s, i, Span(s[i + 1..], P.IsPySpace));
    MatchWordEnd(s, i + 1 + Span(s[i + 1..], P.IsPySpace));
  }

  lemma PyEditFrom(s: U32, i: nat)
    requires i < |s| && s[i] == C.OPEN
    ensures var j := i + 1 + Span(s[i + 1..], P.IsPySpace);
      var word := PyWord(s[j..]);
      PyEdit(s[i..]) == if word > 0 && PyEnd(s, j + word) > 0 then Some(C.Hit(PyEnd(s, j + word) - i, [])) else None
  {
    hide Span, PyWord, PyEnd, P.IsPySpace;
    var j := i + 1 + Span(s[i + 1..], P.IsPySpace);
    assert s[i..][1..] == s[i + 1..] && s[i..][j - i..] == s[j..];
    PyEndFrom(s, i, j + PyWord(s[j..]));
    PyEndBeyond(s, j + PyWord(s[j..]));
  }

  lemma PyEndBeyond(s: U32, k: nat)
    requires k <= |s|
    ensures PyEnd(s, k) > 0 ==> PyEnd(s, k) > k
  {
    hide Span;
  }

  lemma PyEditElsewhere(s: U32, i: nat)
    requires i < |s| && s[i] != C.OPEN
    ensures PyEdit(s[i..]) == None
  {
  }

  /** A backtracking match of the edit pattern at any position. */
  lemma MatchEdit(s: U32, i: nat)
    requires i < |s|
    ensures MatchAt(P.WIKI_EDIT, s, i, 0, 0) ==
      match PyEdit(s[i..]) { case Some(h) => Some(Match(i + h.n, 0, 0)) case None => None }
  {
    hide *;
    if s[i] == C.OPEN {
      MatchEditOpen(s, i);
      PyEditFrom(s, i);
    } else {
      EditNeedsBracket(s, i);
      PyEditElsewhere(s, i);
    }
  }

  /** No word begins with a space, so all spaces are taken. */
  lemma EditBehindSpaces(s: U32, i: nat, n: nat)
    requires i + n <= |s| && forall k :: i <= k < i + n ==> P.IsPySpace(s[k])
    ensures var rest := [EDIT_WORDS] + EDIT_END;
      Shrink(rest, s, i, n, 0, 0, 0) == MatchAt(rest, s, i + n, 0, 0)
  {
    var rest := [EDIT_WORDS] + EDIT_END;
    hide *;
    forall k | i <= k < i + n
      ensures MatchAt(rest, s, k, 0, 0).None?
    {
      MatchWord(s, k);
      WordIs(s, k);
      SpaceIsNoBracket(s[k]);
    }
    if MatchAt(rest, s, i + n, 0, 0).Some? {
      ShrinkFirst(rest, s, i, n, 0);
    } else {
      ShrinkNone(rest, s, i, n, 0, 0, 0);
    }
  }

  lemma SubEdit(s: U32)
    ensures P.Subst(P.WIKI_EDIT, Fixed([]), s) == C.Substitute(PyEdit, s)
  {
    hide MatchAt, PyEdit, P.WIKI_EDIT, Sub, C.Substitute;
    forall k | 0 <= k < |s|
      ensures MatchAt(P.WIKI_EDIT, s, k, 0, 0) ==
        match PyEdit(s[k..]) { case Some(h) => Some(Match(k + h.n, 0, 0)) case None => None }
      ensures PyEdit(s[k..]).Some? ==> PyEdit(s[k..]).value.text == []
    {
      MatchEdit(s, k);
      EditText(s[k..]);
    }
    SubSubstitutes(PyEdit, P.WIKI_EDIT, [], s, 0);
    assert s[0..] == s;
  }

  lemma EditText(t: U32)
    ensures PyEdit(t).Some? ==> PyEdit(t).value.text == []
  {
    hide Span, PyWord, PyEnd;
  }

  // ----- numbered references -----

  lemma NumberItems()
    ensures P.NUMBER_REF == [One(P.IsOpen)] + ([Greedy(P.IsPyDigit, 1)] + [One(P.IsClose)])
  {
  }

  function PyNumber(t: U32): (h: Option<C.Hit>)
    ensures h.Some? ==> C.Usable(h, t)
  {
    if t == [] || t[0] != C.OPEN then None
    else
      var j := 1 + Span(t[1..], P.IsPyDigit);
      if 1 < j < |t| && t[j] == C.CLOSE then Some(C.Hit(j + 1, [])) else None
  }

  lemma MatchCloseAlone(s: U32, q: nat)
    requires q <= |s|
    ensures MatchAt([One(P.IsClose)], s, q, 0, 0) ==
      if q < |s| && s[q] == C.CLOSE then Some(Match(q + 1, 0, 0)) else None
  {
    assert [One(P.IsClose)] + [] == [One(P.IsClose)];
    hide MatchAt;
    MatchOne(P.IsClose, [], s, q);
    if q < |s| {
      MatchNil(s, q + 1, 0, 0);
    }
  }

  lemma DigitIsNoBracket(c: CodePoint)
    requires P.IsPyDigit(c)
    ensures c != C.CLOSE && c != C.OPEN && c != C.LESS
  {
    hide P.OTHER_ZEROS;
  }

  lemma MatchDigits(s: U32, i: nat, n: nat)
    requires i <= |s| && n == Span(s[i..], P.IsPyDigit) && i + n <= |s|
    ensures MatchAt([Greedy(P.IsPyDigit, 1)] + [One(P.IsClose)], s, i, 0, 0) ==
      if n > 0 && i + n < |s| && s[i + n] == C.CLOSE then Some(Match(i + n + 1, 0, 0)) else None
  {
    var close := [One(P.IsClose)];
    L.SpanInside(s, i, P.IsPyDigit);
    hide *;
    forall q | i <= q <= i + n
      ensures MatchAt(close, s, q, 0, 0) ==
        if q == i + n && q < |s| && s[q] == C.CLOSE then Some(Match(q + 1, 0, 0)) else None
    {
      MatchCloseAlone(s, q);
      if q < i + n {
        DigitIsNoBracket(s[q]);
      }
    }
    MatchGreedy(P.IsPyDigit, 1, close, s, i);
    ShrinkFirst(close, s, i, n, 1);
    if n > 0 && MatchAt(close, s, i + n, 0, 0).None? {
      ShrinkNone(close, s, i, n, 1, 0, 0);
    }
  }

  lemma MatchNumber(s: U32, i: nat)
    requires i < |s|
    ensures MatchAt(P.NUMBER_REF, s, i, 0, 0) ==
      match PyNumber(s[i..]) { case Some(h) => Some(Match(i + h.n, 0, 0)) case None => None }
  {
    NumberItems();
    hide MatchAt, Span, P.NUMBER_REF, P.IsPyDigit;
    MatchOne(P.IsOpen, [Greedy(P.IsPyDigit, 1)] + [One(P.IsClose)], s, i);
    if s[i] == C.OPEN {
      MatchDigits(s, i + 1, Span(s[i + 1..], P.IsPyDigit));
      assert s[i..][1..] == s[i + 1..];
    }
  }

  // ----- tagged references -----

  const CLOSE_TAG: Pattern :=
    [One(P.IsLess), One(P.IsSlash)] + ([One(P.IsR), One(P.IsE)] + ([One(P.IsF), One(P.IsGreater)] + []))
  const TAG_BODY: Pattern := [Greedy(C.NotGreater, 0)] + ([One(P.IsGreater)] + ([Lazy(P.AnyChar)] + CLOSE_TAG))

  lemma TagItems()
    ensures P.TAG_REF ==
      [One(P.IsLess), One(P.IsR)] + ([One(P.IsE), One(P.IsF)] + ([WordEdge(P.IsWordChar)] + TAG_BODY))
  {
  }

  lemma RefLetters(c: CodePoint)
    ensures P.IsR(c) <==> C.ToLowerAscii(c) == 0x72
    ensures P.IsE(c) <==> C.ToLowerAscii(c) == 0x65
    ensures P.IsF(c) <==> C.ToLowerAscii(c) == 0x66
  {
  }

  lemma RefWordIs(s: U32, k: nat)
    requires k <= |s|
    ensures C.EqualsIgnoreCaseAscii(s[k..], C.REF_WORD) <==>
      k + 3 <= |s| && P.IsR(s[k]) && P.IsE(s[k + 1]) && P.IsF(s[k + 2])
  {
    if k + 3 <= |s| {
      RefLetters(s[k]);
      RefLetters(s[k + 1]);
      RefLetters(s[k + 2]);
      var t := s[k..];
      assert t[0] == s[k] && t[1] == s[k + 1] && t[2] == s[k + 2];
      assert C.REF_WORD[0] == 0x72 && C.REF_WORD[1] == 0x65 && C.REF_WORD[2] == 0x66;
      assert C.EqualsIgnoreCaseAscii(t, C.REF_WORD) <==>
        C.ToLowerAscii(t[0]) == 0x72 && C.ToLowerAscii(t[1]) == 0x65 && C.ToLowerAscii(t[2]) == 0x66;
    }
    hide P.IsR, P.IsE, P.IsF, C.ToLowerAscii;
  }

  lemma MatchCloseTag(s: U32, k: nat)
    requires k <= |s|
    ensures MatchAt(CLOSE_TAG, s, k, 0, 0) == if C.CloseRefAt(s, k) then Some(Match(k + 6, 0, 0)) else None
  {
    CloseTagIs(s, k);
    hide MatchAt, C.CloseRefAt;
    MatchTwo(P.IsLess, P.IsSlash, [One(P.IsR), One(P.IsE)] + ([One(P.IsF), One(P.IsGreater)] + []), s, k);
    if k + 2 <= |s| {
      MatchTwo(P.IsR, P.IsE, [One(P.IsF), One(P.IsGreater)] + [], s, k + 2);
    }
    if k + 4 <= |s| {
      MatchTwo(P.IsF, P.IsGreater, [], s, k + 4);
    }
    if k + 6 <= |s| {
      MatchNil(s, k + 6, 0, 0);
    }
  }

  lemma CloseTagIs(s: U32, k: nat)
    requires k <= |s|
    ensures C.CloseRefAt(s, k) <==>
      k + 6 <= |s| && P.IsLess(s[k]) && P.IsSlash(s[k + 1]) && P.IsR(s[k + 2]) && P.IsE(s[k + 3]) && P.IsF(s[k + 4])
      && P.IsGreater(s[k + 5])
  {
    if k + 6 <= |s| {
      RefWordIs(s, k + 2);
    }
    hide C.EqualsIgnoreCaseAscii, P.IsR, P.IsE, P.IsF;
  }

  /** The end of the first closing tag from k on. */
  function CloseEnd(s: U32, k: nat): (e: nat)
    ensures e > 0 ==> k + 6 <= e <= |s|
  {
    match C.FindCloseRef(s, k)
    case None => 0
    case Some(q) => q + 6
  }

  function EndMatch(e: nat): Option<Match> { if e > 0 then Some(Match(e, 0, 0)) else None }

  lemma CloseEndStep(s: U32, q: nat)
    requires q <= |s|
    ensures C.CloseRefAt(s, q) ==> CloseEnd(s, q) == q + 6
    ensures !C.CloseRefAt(s, q) && q < |s| ==> CloseEnd(s, q) == CloseEnd(s, q + 1)
    ensures !C.CloseRefAt(s, q) && q == |s| ==> CloseEnd(s, q) == 0
  {
    hide C.EqualsIgnoreCaseAscii;
  }

  lemma GrowStep(rest: Pattern, s: U32, k: nat, n: nat)
    requires k + n <= |s|
    ensures Grow(rest, s, k, n, |s| - k, 0, 0) ==
      var m := MatchAt(rest, s, k + n, 0, 0);
      if m.Some? || k + n == |s| then m else Grow(rest, s, k, n + 1, |s| - k, 0, 0)
  {
    hide MatchAt;
  }

  /** The lazy middle stops at the first closing tag. */
  lemma {:induction false} GrowFinds(s: U32, k: nat, n: nat)
    requires k + n <= |s|
    ensures Grow(CLOSE_TAG, s, k, n, |s| - k, 0, 0) == EndMatch(CloseEnd(s, k + n))
    decreases |s| - k - n
  {
    MatchCloseTag(s, k + n);
    CloseEndStep(s, k + n);
    GrowStep(CLOSE_TAG, s, k, n);
    hide MatchAt, C.CloseRefAt, CLOSE_TAG, CloseEnd, Grow;
    if k + n < |s| {
      GrowFinds(s, k, n + 1);
    }
  }

  lemma {:induction false} AllOf(t: U32)
    ensures Span(t, P.AnyChar) == |t|
  {
    if t != [] {
      AllOf(t[1..]);
    }
  }

  lemma MatchLazy(s: U32, k: nat)
    requires k <= |s|
    ensures MatchAt([Lazy(P.AnyChar)] + CLOSE_TAG, s, k, 0, 0) == EndMatch(CloseEnd(s, k))
  {
    AllOf(s[k..]);
    GrowFinds(s, k, 0);
    assert ([Lazy(P.AnyChar)] + CLOSE_TAG)[1..] == CLOSE_TAG;
    hide Span, CLOSE_TAG, Grow, CloseEnd, EndMatch;
  }

  lemma MatchGreater(s: U32, q: nat)
    requires q <= |s|
    ensures MatchAt([One(P.IsGreater)] + ([Lazy(P.AnyChar)] + CLOSE_TAG), s, q, 0, 0) ==
      if q < |s| && s[q] == C.GREATER then EndMatch(CloseEnd(s, q + 1)) else None
  {
    assert q < |s| ==> (P.IsGreater(s[q]) <==> s[q] == C.GREATER);
    hide *;
    MatchOne(P.IsGreater, [Lazy(P.AnyChar)] + CLOSE_TAG, s, q);
    if q < |s| {
      MatchLazy(s, q + 1);
    }
  }

  /** The end of a tagged reference whose head ends at k. */
  function TagEnd(s: U32, k: nat): (e: nat)
    requires k <= |s|
    ensures e > 0 ==> k < e <= |s|
  {
    var j := k + Span(s[k..], C.NotGreater);
    if j < |s| then CloseEnd(s, j + 1) else 0
  }

  lemma MatchTagBody(s: U32, k: nat)
    requires k <= |s|
    ensures MatchAt(TAG_BODY, s, k, 0, 0) == EndMatch(TagEnd(s, k))
  {
    var n := Span(s[k..], C.NotGreater);
    L.SpanInside(s, k, C.NotGreater);
    TagEndIs(s, k);
    hide *;
    GreaterBehindRun(s, k, n);
    MatchGreedy(C.NotGreater, 0, [One(P.IsGreater)] + ([Lazy(P.AnyChar)] + CLOSE_TAG), s, k);
    TagBodyIs();
  }

  lemma TagBodyIs()
    ensures TAG_BODY == [Greedy(C.NotGreater, 0)] + ([One(P.IsGreater)] + ([Lazy(P.AnyChar)] + CLOSE_TAG))
    ensures EndMatch(0) == None
  {
  }

  lemma TagEndIs(s: U32, k: nat)
    requires k <= |s|
    ensures var j := k + Span(s[k..], C.NotGreater); TagEnd(s, k) == if j < |s| then CloseEnd(s, j + 1) else 0
    ensures EndMatch(0) == None
  {
    hide Span, CloseEnd;
  }

  lemma GreaterBehindRun(s: U32, k: nat, n: nat)
    requires k + n <= |s| && (forall q :: k <= q < k + n ==> C.NotGreater(s[q]))
    requires k + n < |s| ==> !C.NotGreater(s[k + n])
    ensures var rest := [One(P.IsGreater)] + ([Lazy(P.AnyChar)] + CLOSE_TAG);
      Shrink(rest, s, k, n, 0, 0, 0) == if k + n < |s| then EndMatch(CloseEnd(s, k + n + 1)) else None
  {
    var rest := [One(P.IsGreater)] + ([Lazy(P.AnyChar)] + CLOSE_TAG);
    assert forall q :: k <= q < |s| ==> (C.NotGreater(s[q]) <==> s[q] != C.GREATER);
    hide *;
    forall q | k <= q < k + n
      ensures MatchAt(rest, s, q, 0, 0).None?
    {
      MatchGreater(s, q);
    }
    MatchGreater(s, k + n);
    if MatchAt(rest, s, k + n, 0, 0).Some? {
      ShrinkFirst(rest, s, k, n, 0);
    } else {
      ShrinkNone(rest, s, k, n, 0, 0, 0);
    }
  }

  /** The tag pattern as a matcher: behind the name stands no word character. */
  function PyTag(t: U32): (h: Option<C.Hit>)
    ensures h.Some? ==> C.Usable(h, t)
  {
    if |t| < 5 || t[0] != C.LESS || !C.EqualsIgnoreCaseAscii(t[1..], C.REF_WORD) || P.IsWordChar(t[4]) then None
    else if TagEnd(t, 4) > 0 then Some(C.Hit(TagEnd(t, 4), []))
    else None
  }

  lemma MatchEdge(word: Class, rest: Pattern, s: U32, k: nat)
    requires 0 < k <= |s| && word(s[k - 1])
    ensures MatchAt([WordEdge(word)] + rest, s, k, 0, 0) ==
      if k < |s| && word(s[k]) then None else MatchAt(rest, s, k, 0, 0)
  {
    assert ([WordEdge(word)] + rest)[1..] == rest;
  }

  lemma CloseEndFrom(s: U32, i: nat, k: nat)
    requires i <= k && i <= |s|
    ensures CloseEnd(s[i..], k - i) == if CloseEnd(s, k) > 0 then CloseEnd(s, k) - i else 0
  {
    C.FindCloseRefShift(s, i, k);
    hide C.FindCloseRef;
  }

  lemma TagEndFrom(s: U32, i: nat, k: nat)
    requires i <= k <= |s|
    ensures TagEnd(s[i..], k - i) == if TagEnd(s, k) > 0 then TagEnd(s, k) - i else 0
  {
    hide *;
    assert s[i..][k - i..] == s[k..];
    TagEndIs(s, k);
    TagEndIs(s[i..], k - i);
    CloseEndFrom(s, i, k + Span(s[k..], C.NotGreater) + 1);
  }

  lemma MatchTagHead(s: U32, i: nat)
    requires i < |s|
    ensures MatchAt(P.TAG_REF, s, i, 0, 0) ==
      if i + 4 <= |s| && s[i] == C.LESS && C.EqualsIgnoreCaseAscii(s[i + 1..], C.REF_WORD)
         && !(i + 4 < |s| && P.IsWordChar(s[i + 4]))
      then MatchAt(TAG_BODY, s, i + 4, 0, 0) else None
  {
    var edge := [WordEdge(P.IsWordChar)] + TAG_BODY;
    TagItems();
    RefWordIs(s, i + 1);
    assert forall c: CodePoint :: P.IsF(c) ==> P.IsWordChar(c);
    hide MatchAt, TAG_BODY, P.TAG_REF, C.EqualsIgnoreCaseAscii, P.IsWordChar, P.IsF, P.IsR, P.IsE;
    MatchTwo(P.IsLess, P.IsR, [One(P.IsE), One(P.IsF)] + edge, s, i);
    if i + 2 <= |s| {
      MatchTwo(P.IsE, P.IsF, edge, s, i + 2);
    }
    if i + 4 <= |s| && P.IsF(s[i + 3]) {
      MatchEdge(P.IsWordChar, TAG_BODY, s, i + 4);
    }
  }

  lemma EndMatchIs()
    ensures forall e: nat :: EndMatch(e) == if e > 0 then Some(Match(e, 0, 0)) else None
  {
  }

  lemma NothingBehind(s: U32)
    ensures TagEnd(s, |s|) == 0
  {
  }

  lemma PyTagFrom(s: U32, i: nat)
    requires i < |s|
    ensures PyTag(s[i..]) ==
      if i + 4 < |s| && s[i] == C.LESS && C.EqualsIgnoreCaseAscii(s[i + 1..], C.REF_WORD)
         && !P.IsWordChar(s[i + 4]) && TagEnd(s, i + 4) > 0
      then Some(C.Hit(TagEnd(s, i + 4) - i, [])) else None
  {
    hide TagEnd, C.EqualsIgnoreCaseAscii, P.IsWordChar;
    assert s[i..][1..] == s[i + 1..];
    if i + 4 <= |s| {
      TagEndFrom(s, i, i + 4);
    }
  }

  lemma MatchTag(s: U32, i: nat)
    requires i < |s|
    ensures MatchAt(P.TAG_REF, s, i, 0, 0) ==
      match PyTag(s[i..]) { case Some(h) => Some(Match(i + h.n, 0, 0)) case None => None }
  {
    hide *;
    MatchTagHead(s, i);
    PyTagFrom(s, i);
    NothingBehind(s);
    EndMatchIs();
    if i + 4 <= |s| {
      MatchTagBody(s, i + 4);
    }
  }

  // ----- references -----

  function PyRef(t: U32): (h: Option<C.Hit>)
    ensures h.Some? ==> C.Usable(h, t)
  {
    if PyNumber(t).Some? then PyNumber(t) else PyTag(t)
  }

  /** A backtracking match of the reference pattern at any position. */
  lemma MatchRef(s: U32, i: nat)
    requires i < |s|
    ensures MatchAt(P.WIKI_REF, s, i, 0, 0) ==
      match PyRef(s[i..]) { case Some(h) => Some(Match(i + h.n, 0, 0)) case None => None }
  {
    hide *;
    RefItems();
    MatchNumber(s, i);
    MatchTag(s, i);
    EitherAlone(P.NUMBER_REF, P.TAG_REF, s, i);
    PyRefIs(s[i..]);
  }

  lemma EitherAlone(a: Pattern, b: Pattern, s: U32, i: nat)
    requires i <= |s|
    ensures MatchAt([Either(a, b)] + [], s, i, 0, 0) ==
      var first := MatchAt(a, s, i, 0, 0); if first.Some? then first else MatchAt(b, s, i, 0, 0)
  {
    hide *;
    MatchEither(a, b, [], s, i);
    assert a + [] == a && b + [] == b;
  }

  lemma PyRefIs(t: U32)
    ensures PyRef(t) == if PyNumber(t).Some? then PyNumber(t) else PyTag(t)
  {
    hide PyNumber, PyTag;
  }

  lemma SubRef(s: U32)
    ensures P.Subst(P.WIKI_REF, Fixed([]), s) == C.Substitute(PyRef, s)
  {
    hide MatchAt, PyRef, P.WIKI_REF, Sub, C.Substitute;
    forall k | 0 <= k < |s|
      ensures MatchAt(P.WIKI_REF, s, k, 0, 0) ==
        match PyRef(s[k..]) { case Some(h) => Some(Match(k + h.n, 0, 0)) case None => None }
      ensures PyRef(s[k..]).Some? ==> PyRef(s[k..]).value.text == []
    {
      MatchRef(s, k);
      RefText(s[k..]);
    }
    SubSubstitutes(PyRef, P.WIKI_REF, [], s, 0);
    assert s[0..] == s;
  }

  lemma RefText(t: U32)
    ensures PyRef(t).Some? ==> PyRef(t).value.text == []
  {
    hide Span, TagEnd, C.EqualsIgnoreCaseAscii, P.IsWordChar, P.IsPyDigit;
  }

  // ----- two passes that remove -----

  /** What m removes, n removes as well. */
  ghost predicate Within(m: C.Matcher, n: C.Matcher) {
    forall t: U32 :: (m(t).Some? ==> n(t) == m(t)) && (n(t).Some? ==> C.Usable(n(t), t) && n(t).value.text == [])
  }

  /** n removes something here that m leaves. */
  predicate Odd(m: C.Matcher, n: C.Matcher, t: U32) { n(t).Some? && m(t).None? }

  /** The scan of n comes to such a place. */
  predicate Meets(m: C.Matcher, n: C.Matcher, s: U32)
    decreases |s|
  {
    if s == [] then false
    else
      var h := n(s);
      if h.Some? && 0 < h.value.n <= |s| then Odd(m, n, s) || Meets(m, n, s[h.value.n..]) else Meets(m, n, s[1..])
  }

  lemma {:induction false} SamePass(m: C.Matcher, n: C.Matcher, s: U32)
    requires Within(m, n) && !Meets(m, n, s)
    ensures C.Substitute(m, s) == C.Substitute(n, s)
    decreases |s|
  {
    if s != [] {
      SamePass(m, n, s[if n(s).Some? then n(s).value.n else 1..]);
    }
  }

  lemma {:induction false} CopiedRun(m: C.Matcher, s: U32, n: nat)
    requires n <= |s| && forall k :: 0 <= k < n ==> m(s[k..]).None?
    ensures C.Substitute(m, s) == s[..n] + C.Substitute(m, s[n..])
    decreases n
  {
    if n > 0 {
      assert s[0..] == s;
      forall k | 0 <= k < n - 1
        ensures m(s[1..][k..]).None?
      {
        assert s[1..][k..] == s[k + 1..];
      }
      CopiedRun(m, s[1..], n - 1);
      assert s[1..][n - 1..] == s[n..];
      assert s[..n] == [s[0]] + s[1..][..n - 1];
    }
  }

  /** Inside what n removes alone, m finds nothing either. */
  ghost predicate Inert(m: C.Matcher, n: C.Matcher, s: U32) {
    forall i, k :: 0 <= i < |s| && Odd(m, n, s[i..]) && i <= k < i + n(s[i..]).value.n <= |s| ==> m(s[k..]).None?
  }

  lemma InertFrom(m: C.Matcher, n: C.Matcher, s: U32, j: nat)
    requires Inert(m, n, s) && j <= |s|
    ensures Inert(m, n, s[j..])
  {
    forall i, k | 0 <= i < |s| - j && Odd(m, n, s[j..][i..]) && i <= k < i + n(s[j..][i..]).value.n <= |s| - j
      ensures m(s[j..][k..]).None?
    {
      assert s[j..][i..] == s[j + i..] && s[j..][k..] == s[j + k..];
    }
  }

  lemma InertHere(m: C.Matcher, n: C.Matcher, s: U32)
    requires s != [] && Inert(m, n, s) && Odd(m, n, s) && n(s).value.n <= |s|
    ensures forall k :: 0 <= k < n(s).value.n ==> m(s[k..]).None?
  {
    assert s[0..] == s;
  }

  /** n leaves less as soon as it meets such a place, and then the results differ. */
  lemma {:induction false} LeavesLess(m: C.Matcher, n: C.Matcher, s: U32)
    requires Within(m, n) && Inert(m, n, s)
    ensures |C.Substitute(n, s)| <= |C.Substitute(m, s)|
    ensures Meets(m, n, s) ==> |C.Substitute(n, s)| < |C.Substitute(m, s)|
    decreases |s|
  {
    if s != [] {
      var step := if n(s).Some? then n(s).value.n else 1;
      InertFrom(m, n, s, step);
      LeavesLess(m, n, s[step..]);
      if Odd(m, n, s) {
        InertHere(m, n, s);
        CopiedRun(m, s, step);
      }
      hide Inert;
    }
  }

  lemma PassesAgree(m: C.Matcher, n: C.Matcher, s: U32)
    requires Within(m, n) && Inert(m, n, s)
    ensures C.Substitute(m, s) == C.Substitute(n, s) <==> !Meets(m, n, s)
  {
    hide *;
    LeavesLess(m, n, s);
    if !Meets(m, n, s) {
      SamePass(m, n, s);
    }
  }
}
