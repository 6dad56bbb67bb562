/** On which texts the edit and reference passes of the two cleaners do the same. */
module MarkAgreement {
  import opened Text
  import opened PyRegex
  import opened MarkPasses
  import C = ContextClip
  import L = LinkPass
  import P = PyContext

  // ----- edit marks -----

  /** Not a space that only Python knows, nor one of the two letters that it takes for an i. */
  predicate Usual(c: CodePoint) { (P.IsPySpace(c) ==> C.IsSpaceLike(c)) && c != 0x130 && c != 0x131 }

  lemma SpaceKinds(c: CodePoint)
    ensures C.IsSpaceLike(c) ==> P.IsPySpace(c) && Usual(c) && c != C.OPEN
    ensures P.IsPySpace(c) && Usual(c) ==> C.IsSpaceLike(c)
    ensures P.IsPySpace(c) ==> c != C.OPEN && c != C.CLOSE
  {
  }

  lemma EditLetters(c: CodePoint)
    ensures C.ToLowerAscii(c) == 0x65 <==> P.IsE(c)
    ensures C.ToLowerAscii(c) == 0x64 <==> P.IsD(c)
    ensures C.ToLowerAscii(c) == 0x69 <==> P.IsI(c) && Usual(c)
    ensures C.ToLowerAscii(c) == 0x74 <==> P.IsT(c)
    ensures P.IsE(c) || P.IsD(c) || P.IsT(c) || P.IsHen(c) || P.IsShu(c) ==> Usual(c)
    ensures P.IsE(c) || P.IsD(c) || P.IsI(c) || P.IsT(c) || P.IsHen(c) || P.IsShu(c) ==>
      c != C.OPEN && !P.IsPySpace(c) && !C.IsSpaceLike(c)
  {
  }

  /** The scanner's word is the pattern's, when its letters are usual ones. */
  lemma SameWord(u: U32)
    ensures C.EditWord(u) > 0 ==> PyWord(u) == C.EditWord(u)
    ensures PyWord(u) > 0 ==> (C.EditWord(u) > 0 <==> forall k :: 0 <= k < PyWord(u) ==> Usual(u[k]))
    ensures forall k :: 0 <= k < PyWord(u) ==> u[k] != C.OPEN && !P.IsPySpace(u[k]) && !C.IsSpaceLike(u[k])
  {
    if |u| >= 4 {
      EditLetters(u[0]);
      EditLetters(u[1]);
      EditLetters(u[2]);
      EditLetters(u[3]);
      EditWordIs(u);
    }
    if |u| >= 2 {
      EditLetters(u[0]);
      EditLetters(u[1]);
    }
    hide P.IsE, P.IsD, P.IsI, P.IsT, Usual, P.IsPySpace, C.IsSpaceLike, C.ToLowerAscii;
  }

  lemma EditWordIs(u: U32)
    requires |u| >= 4
    ensures C.EqualsIgnoreCaseAscii(u, C.EDIT_WORD) <==>
      C.ToLowerAscii(u[0]) == 0x65 && C.ToLowerAscii(u[1]) == 0x64 && C.ToLowerAscii(u[2]) == 0x69
      && C.ToLowerAscii(u[3]) == 0x74
  {
    assert C.EDIT_WORD[0] == 0x65 && C.EDIT_WORD[1] == 0x64 && C.EDIT_WORD[2] == 0x69 && C.EDIT_WORD[3] == 0x74;
    hide C.ToLowerAscii;
  }

  /** A run of usual spaces is the same run for both; otherwise the scanner's is shorter. */
  lemma SameSpaces(s: U32, k: nat)
    requires k <= |s|
    ensures var n, m := Span(s[k..], P.IsPySpace), Span(s[k..], C.IsSpaceLike);
      && m <= n && (m == n <==> forall q :: k <= q < k + n ==> Usual(s[q]))
      && (m < n ==> k + m < |s| && P.IsPySpace(s[k + m]))
  {
    var n, m := Span(s[k..], P.IsPySpace), Span(s[k..], C.IsSpaceLike);
    L.SpanInside(s, k, P.IsPySpace);
    L.SpanInside(s, k, C.IsSpaceLike);
    hide Span, P.IsPySpace, C.IsSpaceLike, Usual;
    forall q | k <= q < |s|
      ensures C.IsSpaceLike(s[q]) ==> P.IsPySpace(s[q]) && Usual(s[q])
      ensures P.IsPySpace(s[q]) && Usual(s[q]) ==> C.IsSpaceLike(s[q])
    {
      SpaceKinds(s[q]);
    }
  }

  /** The scanner's edit mark in parts. */
  lemma ScannerEdit(t: U32, j: nat, word: nat, after: nat)
    requires t != [] && t[0] == C.OPEN && j == 1 + Span(t[1..], C.IsSpaceLike) && j <= |t|
    requires word == C.EditWord(t[j..]) && j + word <= |t| && after == j + word + Span(t[j + word..], C.IsSpaceLike)
    ensures C.EditMark(t) == if 0 < word && after < |t| && t[after] == C.CLOSE then Some(C.Hit(after + 1, [])) else None
  {
    hide Span, C.EditWord;
  }

  lemma PatternEdit(t: U32, j: nat, word: nat, after: nat)
    requires t != [] && t[0] == C.OPEN && j == 1 + Span(t[1..], P.IsPySpace) && j <= |t|
    requires word == PyWord(t[j..]) && j + word <= |t| && after == j + word + Span(t[j + word..], P.IsPySpace)
    ensures PyEdit(t) == if 0 < word && after < |t| && t[after] == C.CLOSE then Some(C.Hit(after + 1, [])) else None
  {
    hide Span, PyWord;
  }

  ghost predicate Between(t: U32, a: nat, b: nat, p: CodePoint -> bool) {
    b <= |t| && forall k :: a <= k < b ==> p(t[k])
  }

  lemma BetweenJoin(t: U32, a: nat, b: nat, c: nat, p: CodePoint -> bool)
    requires a <= b <= c <= |t|
    ensures Between(t, a, c, p) <==> Between(t, a, b, p) && Between(t, b, c, p)
  {
  }

  lemma BetweenWord(t: U32, j: nat, n: nat, p: CodePoint -> bool)
    requires j + n <= |t|
    ensures Between(t, j, j + n, p) <==> forall k :: 0 <= k < n ==> p(t[j..][k])
  {
    assert forall k :: 0 <= k < n ==> t[j..][k] == t[j + k];
    if forall k :: 0 <= k < n ==> p(t[j..][k]) {
      forall k | j <= k < j + n
        ensures p(t[k])
      {
        assert t[j..][k - j] == t[k];
      }
    }
  }

  predicate NotOpen(c: CodePoint) { c != C.OPEN }

  lemma SpacesBetween(t: U32, k: nat)
    requires k <= |t|
    ensures var n := Span(t[k..], P.IsPySpace);
      k + n <= |t| && Between(t, k, k + n, NotOpen)
      && (Between(t, k, k + n, Usual) <==> Span(t[k..], C.IsSpaceLike) == n)
      && Span(t[k..], C.IsSpaceLike) <= n
      && (Span(t[k..], C.IsSpaceLike) < n ==>
           k + Span(t[k..], C.IsSpaceLike) < |t| && P.IsPySpace(t[k + Span(t[k..], C.IsSpaceLike)]))
  {
    var n := Span(t[k..], P.IsPySpace);
    L.SpanInside(t, k, P.IsPySpace);
    SameSpaces(t, k);
    forall q | k <= q < k + n
      ensures NotOpen(t[q])
    {
      SpaceKinds(t[q]);
    }
    hide Span, P.IsPySpace, C.IsSpaceLike, Usual;
  }

  lemma WordBetween(t: U32, j: nat)
    requires j <= |t|
    ensures var word := PyWord(t[j..]);
      && Between(t, j, j + word, NotOpen)
      && (C.EditWord(t[j..]) > 0 ==> word == C.EditWord(t[j..]))
      && (word > 0 ==> (C.EditWord(t[j..]) > 0 <==> Between(t, j, j + word, Usual)))
  {
    SameWord(t[j..]);
    BetweenWord(t, j, PyWord(t[j..]), NotOpen);
    BetweenWord(t, j, PyWord(t[j..]), Usual);
    hide PyWord, C.EditWord, Usual, Between;
  }

  lemma BracketsAreUsual(t: U32, after: nat)
    requires t != [] && t[0] == C.OPEN && after < |t| && t[after] == C.CLOSE
    ensures Between(t, 0, 1, Usual) && Between(t, after, after + 1, Usual) && Between(t, after, after + 1, NotOpen)
  {
  }

  /** What the pattern takes: a bracket, spaces, a word, spaces and a bracket. */
  lemma EditParts(t: U32, j: nat, word: nat, after: nat)
    requires t != [] && t[0] == C.OPEN && j == 1 + Span(t[1..], P.IsPySpace) && word == PyWord(t[j..])
    requires after == j + word + Span(t[j + word..], P.IsPySpace) && word > 0 && after < |t| && t[after] == C.CLOSE
    ensures Between(t, 1, after + 1, NotOpen)
    ensures Between(t, 0, after + 1, Usual) <==>
      Between(t, 1, j, Usual) && Between(t, j, j + word, Usual) && Between(t, j + word, after, Usual)
  {
    hide *;
    SpacesBetween(t, 1);
    SpacesBetween(t, j + word);
    WordBetween(t, j);
    BracketsAreUsual(t, after);
    BetweenJoin(t, 1, j, j + word, NotOpen);
    BetweenJoin(t, 1, j + word, after, NotOpen);
    BetweenJoin(t, 1, after, after + 1, NotOpen);
    BetweenJoin(t, 0, 1, j, Usual);
    BetweenJoin(t, 0, j, j + word, Usual);
    BetweenJoin(t, 0, j + word, after, Usual);
    BetweenJoin(t, 0, after, after + 1, Usual);
  }

  /** The scanner's word behind usual spaces begins where the pattern's does. */
  lemma WordStops(t: U32, k: nat)
    requires k <= |t|
    ensures C.EditWord(t[k..]) > 0 ==> k < |t| && !P.IsPySpace(t[k])
  {
    WordHead(t[k..]);
    assert k < |t| ==> t[k..][0] == t[k];
    hide C.EditWord, P.IsPySpace;
  }

  lemma WordHead(u: U32)
    ensures C.EditWord(u) > 0 ==> u != [] && !P.IsPySpace(u[0])
  {
    if |u| >= 4 {
      EditWordIs(u);
    }
    if u != [] {
      EditLetters(u[0]);
    }
    assert |C.EDIT_WORD| == 4;
    hide P.IsPySpace, P.IsE, C.ToLowerAscii;
  }

  lemma ClosingIsNoSpace(c: CodePoint)
    requires c == C.CLOSE
    ensures !P.IsPySpace(c)
  {
  }

  /** Usual spaces before a word: neither stops earlier than the other. */
  lemma SpacesBeforeWord(t: U32, k: nat, i: nat, j: nat)
    requires k <= |t| && i == k + Span(t[k..], C.IsSpaceLike) && j == k + Span(t[k..], P.IsPySpace)
    requires i < |t| && !P.IsPySpace(t[i])
    ensures i == j
  {
    hide *;
    SpacesBetween(t, k);
  }

  /** Where the scanner takes a mark, its spaces and its word are the pattern's. */
  lemma ScannerWord(t: U32, i: nat, j: nat, word: nat, m: nat)
    requires t != [] && t[0] == C.OPEN && i == 1 + Span(t[1..], C.IsSpaceLike) && j == 1 + Span(t[1..], P.IsPySpace)
    requires i <= |t| && word == C.EditWord(t[i..]) && i + word <= |t|
    requires m == i + word + Span(t[i + word..], C.IsSpaceLike) && C.EditMark(t).Some?
    ensures i == j && PyWord(t[i..]) == word > 0 && m < |t| && t[m] == C.CLOSE
    ensures m == i + word + Span(t[i + word..], P.IsPySpace)
  {
    hide *;
    ScannerEdit(t, i, word, m);
    WordStops(t, i);
    SpacesBeforeWord(t, 1, i, j);
    WordBetween(t, i);
    ClosingIsNoSpace(t[m]);
    SpacesBeforeWord(t, i + word, m, i + word + Span(t[i + word..], P.IsPySpace));
  }

  /** The parts that a scan goes through. */
  lemma ScannedParts(t: U32) returns (i: nat, word: nat, m: nat)
    requires t != [] && t[0] == C.OPEN
    ensures i == 1 + Span(t[1..], C.IsSpaceLike) && i <= |t| && word == C.EditWord(t[i..]) && i + word <= |t|
    ensures m == i + word + Span(t[i + word..], C.IsSpaceLike)
  {
    i := 1 + Span(t[1..], C.IsSpaceLike);
    word := C.EditWord(t[i..]);
    m := i + word + Span(t[i + word..], C.IsSpaceLike);
    hide Span, C.EditWord;
  }

  lemma ScannerTakes(t: U32)
    requires C.EditMark(t).Some? && t != [] && t[0] == C.OPEN
    ensures PyEdit(t) == C.EditMark(t)
  {
    hide *;
    var i, word, m := ScannedParts(t);
    ScannerWord(t, i, 1 + Span(t[1..], P.IsPySpace), word, m);
    ScannerEdit(t, i, word, m);
    PatternEdit(t, i, word, m);
  }

  lemma UsualParts(t: U32, j: nat, word: nat)
    requires t != [] && t[0] == C.OPEN && j == 1 + Span(t[1..], P.IsPySpace) && word == PyWord(t[j..])
    requires C.EditMark(t).Some?
    ensures j + word <= |t| && word > 0 && C.EditWord(t[j..]) > 0
    ensures Span(t[1..], C.IsSpaceLike) == j - 1
    ensures Span(t[j + word..], C.IsSpaceLike) == Span(t[j + word..], P.IsPySpace)
  {
    hide *;
    var i, w, m := ScannedParts(t);
    ScannerWord(t, i, j, w, m);
  }

  /** The pattern's mark is the scanner's when each of its parts is. */
  lemma PatternTakes(t: U32, j: nat, word: nat, after: nat)
    requires t != [] && t[0] == C.OPEN && j == 1 + Span(t[1..], P.IsPySpace) && word == PyWord(t[j..])
    requires after == j + word + Span(t[j + word..], P.IsPySpace) && word > 0 && after < |t| && t[after] == C.CLOSE
    ensures C.EditMark(t).Some? <==>
      Between(t, 1, j, Usual) && Between(t, j, j + word, Usual) && Between(t, j + word, after, Usual)
  {
    hide *;
    SpacesBetween(t, 1);
    WordBetween(t, j);
    SpacesBetween(t, j + word);
    if C.EditMark(t).Some? {
      UsualParts(t, j, word);
    } else if Between(t, 1, j, Usual) && Between(t, j, j + word, Usual) && Between(t, j + word, after, Usual) {
      ScannerEdit(t, j, word, after);
    }
  }

  /** The scanner takes what the pattern takes, exactly when every character of it is a usual one. */
  lemma EditHere(t: U32)
    ensures C.EditMark(t).Some? ==> PyEdit(t) == C.EditMark(t)
    ensures PyEdit(t).Some? ==>
      var n := PyEdit(t).value.n;
      && 0 < n <= |t| && Between(t, 1, n, NotOpen)
      && (C.EditMark(t).Some? <==> Between(t, 0, n, Usual))
  {
    OnlyBehindOpen(t);
    hide *;
    if C.EditMark(t).Some? {
      ScannerTakes(t);
    }
    if PyEdit(t).Some? {
      var j := 1 + Span(t[1..], P.IsPySpace);
      var word := PyWord(t[j..]);
      var after := j + word + Span(t[j + word..], P.IsPySpace);
      PatternEdit(t, j, word, after);
      EditParts(t, j, word, after);
      PatternTakes(t, j, word, after);
    }
  }

  lemma OnlyBehindOpen(t: U32)
    ensures C.EditMark(t).Some? || PyEdit(t).Some? ==> t != [] && t[0] == C.OPEN
  {
    hide Span, PyWord, C.EditWord, PyEnd;
  }

  lemma EditWithin()
    ensures Within(C.EditMark, PyEdit)
  {
    hide C.EditMark, PyEdit;
    forall t: U32
      ensures C.EditMark(t).Some? ==> PyEdit(t) == C.EditMark(t)
      ensures PyEdit(t).Some? ==> C.Usable(PyEdit(t), t) && PyEdit(t).value.text == []
    {
      EditHere(t);
      EditText(t);
    }
  }

  lemma NoEditHere(s: U32, k: nat)
    requires k < |s| && s[k] != C.OPEN
    ensures C.EditMark(s[k..]) == None && C.NumberRef(s[k..]) == None
  {
  }

  lemma EditInert(s: U32)
    ensures Inert(C.EditMark, PyEdit, s)
  {
    hide C.EditMark, PyEdit;
    forall i, k | 0 <= i < |s| && Odd(C.EditMark, PyEdit, s[i..]) && i <= k < i + PyEdit(s[i..]).value.n <= |s|
      ensures C.EditMark(s[k..]).None?
    {
      EditHere(s[i..]);
      if k > i {
        assert NotOpen(s[i..][k - i]);
        assert s[i..][k - i] == s[k];
        NoEditHere(s, k);
      }
    }
  }

  /**
   The two edit passes agree exactly on the texts in which the pattern meets no mark with a space that only
   Python knows or with a letter that it takes for an i.
   */
  lemma EditPassesAgree(s: U32)
    ensures P.Subst(P.WIKI_EDIT, Fixed([]), s) == C.Substitute(C.EditMark, s) <==> !Meets(C.EditMark, PyEdit, s)
  {
    hide *;
    SubEdit(s);
    EditWithin();
    EditInert(s);
    PassesAgree(C.EditMark, PyEdit, s);
  }

  // ----- references -----

  lemma DigitKinds(c: CodePoint)
    ensures C.IsDigit(c) ==> P.IsPyDigit(c)
    ensures P.IsPyDigit(c) ==> c != C.OPEN && c != C.CLOSE
  {
    if P.IsPyDigit(c) {
      DigitIsNoBracket(c);
    }
    hide P.IsOtherDigit;
  }

  lemma SameDigits(s: U32, k: nat)
    requires k <= |s|
    ensures var n, m := Span(s[k..], P.IsPyDigit), Span(s[k..], C.IsDigit);
      && m <= n && k + n <= |s| && Between(s, k, k + n, NotOpen)
      && (m == n <==> Between(s, k, k + n, C.IsDigit))
      && (m < n ==> k + m < |s| && P.IsPyDigit(s[k + m]))
  {
    var n, m := Span(s[k..], P.IsPyDigit), Span(s[k..], C.IsDigit);
    L.SpanInside(s, k, P.IsPyDigit);
    L.SpanInside(s, k, C.IsDigit);
    hide Span, P.IsPyDigit, C.IsDigit;
    forall q | k <= q < |s|
      ensures C.IsDigit(s[q]) ==> P.IsPyDigit(s[q])
      ensures P.IsPyDigit(s[q]) ==> NotOpen(s[q])
    {
      DigitKinds(s[q]);
    }
  }

  /** The scanner takes a numbered reference of the pattern exactly when its digits are ASCII ones. */
  lemma NumberHere(t: U32)
    ensures C.NumberRef(t).Some? ==> PyNumber(t) == C.NumberRef(t)
    ensures PyNumber(t).Some? ==>
      var n := PyNumber(t).value.n;
      && 2 < n <= |t| && Between(t, 1, n, NotOpen)
      && (C.NumberRef(t).Some? <==> Between(t, 1, n - 1, C.IsDigit))
  {
    if t != [] && t[0] == C.OPEN {
      SameDigits(t, 1);
      hide Span, P.IsPyDigit, C.IsDigit, Between;
      var m, n := 1 + Span(t[1..], C.IsDigit), 1 + Span(t[1..], P.IsPyDigit);
      if m < |t| && t[m] == C.CLOSE {
        DigitKinds(t[m]);
      }
      if n < |t| && t[n] == C.CLOSE {
        NoOpenEnd(t, n);
      }
    }
  }

  lemma NoOpenEnd(t: U32, n: nat)
    requires 1 <= n < |t| && t[n] == C.CLOSE && Between(t, 1, n, NotOpen)
    ensures Between(t, 1, n + 1, NotOpen)
  {
  }

  /** The characters behind `<ref` after which the scanner takes a tag. */
  predicate EndsName(c: CodePoint) { c == C.GREATER || C.IsSpaceLike(c) || c == C.SLASH }

  lemma NameEnds(c: CodePoint)
    requires EndsName(c)
    ensures !P.IsWordChar(c)
  {
  }

  /** The scanner takes a tagged reference of the pattern exactly when its name ends in one of these. */
  lemma TagHere(t: U32)
    ensures C.TagRef(t).Some? ==> PyTag(t) == C.TagRef(t)
    ensures PyTag(t).Some? ==> |t| > 4 && t[0] == C.LESS && (C.TagRef(t).Some? <==> EndsName(t[4]))
  {
    if |t| > 4 {
      if EndsName(t[4]) {
        NameEnds(t[4]);
      }
      hide Span, C.FindCloseRef, C.EqualsIgnoreCaseAscii, P.IsWordChar, C.IsSpaceLike;
    }
  }

  lemma RefWithin()
    ensures Within(C.WikiRef, PyRef)
  {
    forall t: U32
      ensures C.WikiRef(t).Some? ==> PyRef(t) == C.WikiRef(t)
      ensures PyRef(t).Some? ==> C.Usable(PyRef(t), t) && PyRef(t).value.text == []
    {
      NumberHere(t);
      TagHere(t);
      RefText(t);
      FirstCharacter(t);
      hide C.NumberRef, C.TagRef, PyNumber, PyTag, Between;
    }
  }

  lemma FirstCharacter(t: U32)
    ensures PyNumber(t).Some? || C.NumberRef(t).Some? ==> t != [] && t[0] == C.OPEN
    ensures PyTag(t).Some? || C.TagRef(t).Some? ==> t != [] && t[0] == C.LESS
    ensures C.OPEN != C.LESS
  {
    hide Span, C.FindCloseRef, C.EqualsIgnoreCaseAscii, P.IsWordChar, C.IsSpaceLike, TagEnd;
  }

  predicate NoTag(c: CodePoint) { c != C.LESS }

  lemma RefInert(s: U32)
    requires All(s, NoTag)
    ensures Inert(C.WikiRef, PyRef, s)
  {
    forall i, k | 0 <= i < |s| && Odd(C.WikiRef, PyRef, s[i..]) && i <= k < i + PyRef(s[i..]).value.n <= |s|
      ensures C.WikiRef(s[k..]).None?
    {
      var t := s[i..];
      assert t[0] == s[i] && NoTag(s[i]) && s[k..][0] == s[k] && NoTag(s[k]);
      FirstCharacter(t);
      FirstCharacter(s[k..]);
      NumberHere(t);
      if k > i {
        assert NotOpen(t[k - i]) && t[k - i] == s[k];
      }
      hide C.NumberRef, C.TagRef, PyNumber, PyTag;
    }
  }

  /** The two reference passes agree whenever the pattern meets nothing that the scanner leaves. */
  lemma RefPassesAgree(s: U32)
    requires !Meets(C.WikiRef, PyRef, s)
    ensures P.Subst(P.WIKI_REF, Fixed([]), s) == C.Substitute(C.WikiRef, s)
  {
    hide *;
    SubRef(s);
    RefWithin();
    SamePass(C.WikiRef, PyRef, s);
  }

  /** On texts without tags, exactly then: the numbers must have ASCII digits. */
  lemma NumberPassesAgree(s: U32)
    requires All(s, NoTag)
    ensures P.Subst(P.WIKI_REF, Fixed([]), s) == C.Substitute(C.WikiRef, s) <==> !Meets(C.WikiRef, PyRef, s)
  {
    hide *;
    SubRef(s);
    RefWithin();
    RefInert(s);
    PassesAgree(C.WikiRef, PyRef, s);
  }
}
