/** `clean_context` of runtime/rerank_daemon.py over code points. */
module PyContext {
  import opened Text
  import opened PyRegex
  import C = ContextClip

  /** The characters Python's `\s` and `str.isspace` accept. */
  predicate IsPySpace(c: CodePoint) {
    || 0x09 <= c <= 0x0D || 0x1C <= c <= 0x20 || c == 0x85 || c == 0xA0 || c == 0x1680
    || 0x2000 <= c <= 0x200A || c == 0x2028 || c == 0x2029 || c == 0x202F || c == 0x205F || c == 0x3000
  }

  // Letters under re.IGNORECASE; the dotted and dotless i are equivalent to i there.
  predicate IsE(c: CodePoint) { c == 0x45 || c == 0x65 }
  predicate IsD(c: CodePoint) { c == 0x44 || c == 0x64 }
  predicate IsI(c: CodePoint) { c == 0x49 || c == 0x69 || c == 0x130 || c == 0x131 }
  predicate IsT(c: CodePoint) { c == 0x54 || c == 0x74 }
  predicate IsR(c: CodePoint) { c == 0x52 || c == 0x72 }
  predicate IsF(c: CodePoint) { c == 0x46 || c == 0x66 }
  predicate IsOpen(c: CodePoint) { c == C.OPEN }
  predicate IsClose(c: CodePoint) { c == C.CLOSE }
  predicate IsLess(c: CodePoint) { c == C.LESS }
  predicate IsGreater(c: CodePoint) { c == C.GREATER }
  predicate IsSlash(c: CodePoint) { c == C.SLASH }
  predicate IsPipe(c: CodePoint) { c == C.PIPE }
  predicate NotPipeOrClose(c: CodePoint) { c != C.PIPE && c != C.CLOSE }
  predicate IsHen(c: CodePoint) { c == C.HEN }
  predicate IsShu(c: CodePoint) { c == C.SHU }

  /** The bracketed classes of the patterns, as they are written. */
  const SENTENCE_ENDS: seq<CodePoint> := [0x3002, 0xFF01, 0xFF1F, 0x21, 0x3F]
  const BULLETS: seq<CodePoint> := [0x2A, 0xFF0A, 0x23, 0xFF03, 0x30FB]
  const SPACES: seq<CodePoint> := [0x20, 0x09, 0x3000]
  const STRIPPED: seq<CodePoint> := [0x20, 0x3000]

  /** They are the classes of the scanners. */
  lemma SameClasses(c: CodePoint)
    ensures c in SENTENCE_ENDS <==> C.IsSentEnd(c)
    ensures c in BULLETS <==> C.IsBulletChar(c)
    ensures c in SPACES <==> C.IsSpaceLike(c)
    ensures c in STRIPPED <==> C.IsBlank(c)
    ensures C.IsEq(c) <==> c == 0x3D
    ensures C.IsHeadingBody(c) <==> c != 0x3D && c != 0x0A
    ensures C.NotClose(c) <==> c != 0x5D
    ensures NotPipeOrClose(c) <==> c != 0x7C && c != 0x5D
    ensures C.NotGreater(c) <==> c != 0x3E
    ensures C.IsDigit(c) <==> 0x30 <= c <= 0x39
  {
  }

  /** The decimal digits beyond ASCII, by the zero of each ten (Unicode 15). */
  const OTHER_ZEROS: seq<CodePoint> := [
    0x0660, 0x06F0, 0x07C0, 0x0966, 0x09E6, 0x0A66, 0x0AE6, 0x0B66, 0x0BE6, 0x0C66, 0x0CE6, 0x0D66, 0x0DE6, 0x0E50,
    0x0ED0, 0x0F20, 0x1040, 0x1090, 0x17E0, 0x1810, 0x1946, 0x19D0, 0x1A80, 0x1A90, 0x1B50, 0x1BB0, 0x1C40, 0x1C50,
    0xA620, 0xA8D0, 0xA900, 0xA9D0, 0xA9F0, 0xAA50, 0xABF0, 0xFF10, 0x104A0, 0x10D30, 0x11066, 0x110F0, 0x11136,
    0x111D0, 0x112F0, 0x11450, 0x114D0, 0x11650, 0x116C0, 0x11730, 0x118E0, 0x11950, 0x11C50, 0x11D50, 0x11DA0,
    0x11F50, 0x16A60, 0x16AC0, 0x16B50, 0x1D7CE, 0x1D7D8, 0x1D7E2, 0x1D7EC, 0x1D7F6, 0x1E140, 0x1E2F0, 0x1E4F0,
    0x1E950, 0x1FBF0]

  predicate IsOtherDigit(c: CodePoint) {
    c >= 0x660 && exists k :: 0 <= k < |OTHER_ZEROS| && 0 <= c - OTHER_ZEROS[k] < 10
  }

  /** The characters that `\d` accepts. */
  predicate IsPyDigit(c: CodePoint) { C.IsDigit(c) || IsOtherDigit(c) }

  /** Those that make up words for `\b`. */
  predicate IsWordChar(c: CodePoint) {
    0x30 <= c <= 0x39 || 0x41 <= c <= 0x5A || c == 0x5F || 0x61 <= c <= 0x7A || (c >= 0xAA && !IsPySpace(c))
  }

  predicate AnyChar(c: CodePoint) { true }

  const WIKI_EDIT: Pattern :=
    [One(IsOpen), Greedy(IsPySpace, 0), Either([One(IsE), One(IsD), One(IsI), One(IsT)], [One(IsHen), One(IsShu)]),
     Greedy(IsPySpace, 0), One(IsClose)]
  const WIKI_HEADING: Pattern := [Greedy(C.IsEq, 2), Greedy(C.IsHeadingBody, 0), Greedy(C.IsEq, 2)]
  const WIKI_LINK: Pattern :=
    [One(IsOpen), One(IsOpen), Either([Greedy(NotPipeOrClose, 1), One(IsPipe)], []),
     GroupStart, Greedy(C.NotClose, 1), GroupEnd, One(IsClose), One(IsClose)]
  const NUMBER_REF: Pattern := [One(IsOpen), Greedy(IsPyDigit, 1), One(IsClose)]
  const TAG_REF: Pattern :=
    [One(IsLess), One(IsR), One(IsE), One(IsF), WordEdge(IsWordChar), Greedy(C.NotGreater, 0), One(IsGreater),
     Lazy(AnyChar),
     One(IsLess), One(IsSlash), One(IsR), One(IsE), One(IsF), One(IsGreater)]
  const WIKI_REF: Pattern := [Either(NUMBER_REF, TAG_REF)]
  const BULLET_MARK: Pattern := [Either([Start], [One(IsPySpace)]), Greedy(C.IsBulletChar, 1), Ahead(IsPySpace)]
  const EQ_RUN: Pattern := [Greedy(C.IsEq, 2)]
  const MULTI_SPACE: Pattern := [Greedy(C.IsSpaceLike, 1)]

  /** `str.replace` of a non-empty string. */
  function Replace(s: U32, old_: U32, new_: U32): U32
    requires old_ != []
  {
    if s == [] then []
    else if |old_| <= |s| && s[..|old_|] == old_ then new_ + Replace(s[|old_|..], old_, new_)
    else [s[0]] + Replace(s[1..], old_, new_)
  }

  function Breaks(s: U32): U32 {
    var lines := Replace(Replace(s, [C.CR, C.LF], [C.LF]), [C.CR], [C.LF]);
    Replace(Replace(lines, [C.LF], [C.SPACE]), [C.TAB], [C.SPACE])
  }

  function Subst(re: Pattern, r: Replacement, s: U32): U32 { Sub(re, r, s, 0) }

  function Marks(s: U32): U32 {
    var noEdits := Subst(WIKI_EDIT, Fixed([]), s);
    var noHeadings := Subst(WIKI_HEADING, Fixed([C.SPACE]), noEdits);
    var noLinks := Subst(WIKI_LINK, Group1, noHeadings);
    Subst(WIKI_REF, Fixed([]), noLinks)
  }

  function StripRight(s: U32): U32 {
    if s != [] && C.IsBlank(s[|s| - 1]) then StripRight(s[..|s| - 1]) else s
  }

  function StripLeft(s: U32): U32 { s[Span(s, C.IsBlank)..] }

  function Spaces(s: U32): U32 { StripRight(StripLeft(Subst(MULTI_SPACE, Fixed([C.SPACE]), s))) }

  function Scanned(s: U32): U32 {
    Subst(BULLET_MARK, Fixed([C.SPACE]), Subst(EQ_RUN, Fixed([C.SPACE]), Marks(Breaks(s))))
  }

  /** sentence if len(sentence) <= max_chars else sentence[-max_chars:] */
  function Bound(s: U32, max: int): U32 {
    if |s| <= max then s
    else if max > 0 then s[|s| - max..]
    else if -max <= |s| then s[-max..]
    else []
  }

  function CleanContext(s: U32, max: int): U32 {
    if s == [] then []
    else
      var value := Spaces(Scanned(s));
      if value == [] then [] else Bound(StripLeft(value[C.LastEnd(value)..]), max)
  }
}
