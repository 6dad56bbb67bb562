/**
 The context cleaner of mozc_compat/context_clip.cc: six scanners over code points, space
 collapsing, the cut after the last sentence end, and the code-point bound.
 Every scanner looks at the text from its position on and either replaces a piece of it or
 copies one character; a Matcher is that look, and Substitute is the scan.
 */
module ContextClip {
  import opened Text
  import opened Utf8

  const TAB: CodePoint := 0x09
  const LF: CodePoint := 0x0A
  const CR: CodePoint := 0x0D
  const SPACE: CodePoint := 0x20
  const BANG: CodePoint := 0x21
  const HASH: CodePoint := 0x23
  const STAR: CodePoint := 0x2A
  const SLASH: CodePoint := 0x2F
  const LESS: CodePoint := 0x3C
  const EQ: CodePoint := 0x3D
  const GREATER: CodePoint := 0x3E
  const QUESTION: CodePoint := 0x3F
  const OPEN: CodePoint := 0x5B
  const CLOSE: CodePoint := 0x5D
  const PIPE: CodePoint := 0x7C
  const IDEO_SPACE: CodePoint := 0x3000
  const IDEO_STOP: CodePoint := 0x3002
  const MIDDLE_DOT: CodePoint := 0x30FB
  const WIDE_BANG: CodePoint := 0xFF01
  const WIDE_HASH: CodePoint := 0xFF03
  const WIDE_STAR: CodePoint := 0xFF0A
  const WIDE_QUESTION: CodePoint := 0xFF1F
  const HEN: CodePoint := 0x7DE8
  const SHU: CodePoint := 0x96C6

  predicate IsSpaceLike(c: CodePoint) { c == SPACE || c == TAB || c == IDEO_SPACE }

  predicate IsSentEnd(c: CodePoint) {
    c == IDEO_STOP || c == WIDE_BANG || c == WIDE_QUESTION || c == BANG || c == QUESTION
  }

  predicate IsEq(c: CodePoint) { c == EQ }

  predicate IsHeadingBody(c: CodePoint) { c != EQ && c != LF }

  predicate IsBulletChar(c: CodePoint) {
    c == STAR || c == WIDE_STAR || c == HASH || c == WIDE_HASH || c == MIDDLE_DOT
  }

  predicate IsDigit(c: CodePoint) { 0x30 <= c <= 0x39 }
  predicate NotClose(c: CodePoint) { c != CLOSE }
  predicate NotPipe(c: CodePoint) { c != PIPE }
  predicate NotGreater(c: CodePoint) { c != GREATER }

  function ToLowerAscii(c: CodePoint): CodePoint { if 0x41 <= c <= 0x5A then c + 0x20 else c }

  /** `lit` is a lower-case ASCII literal. */
  predicate EqualsIgnoreCaseAscii(s: U32, lit: U32) {
    |lit| <= |s| && forall k :: 0 <= k < |lit| ==> ToLowerAscii(s[k]) == lit[k]
  }

  const EDIT_WORD: U32 := [0x65, 0x64, 0x69, 0x74]
  const REF_WORD: U32 := [0x72, 0x65, 0x66]

  /** n characters are replaced by text. */
  datatype Hit = Hit(n: nat, text: U32)
  type Matcher = U32 -> Option<Hit>

  ghost predicate Usable(h: Option<Hit>, s: U32) { h.Some? && 0 < h.value.n <= |s| }

  /** A left-to-right scan that replaces every match and copies everything else. */
  function Substitute(m: Matcher, s: U32): U32 {
    if s == [] then []
    else
      var h := m(s);
      if h.Some? && 0 < h.value.n <= |s| then h.value.text + Substitute(m, s[h.value.n..])
      else [s[0]] + Substitute(m, s[1..])
  }

  lemma SubstituteHit(m: Matcher, s: U32, i: nat, out: U32)
    requires i < |s| && Usable(m(s[i..]), s[i..])
    ensures var h := m(s[i..]).value;
      out + h.text + Substitute(m, s[i + h.n..]) == out + Substitute(m, s[i..])
  {
    var h := m(s[i..]).value;
    assert s[i..][h.n..] == s[i + h.n..];
    assert Substitute(m, s[i..]) == h.text + Substitute(m, s[i + h.n..]);
    hide *;
  }

  lemma SubstituteMiss(m: Matcher, s: U32, i: nat, out: U32)
    requires i < |s| && m(s[i..]).None?
    ensures out + [s[i]] + Substitute(m, s[i + 1..]) == out + Substitute(m, s[i..])
  {
    assert s[i..][1..] == s[i + 1..];
    assert Substitute(m, s[i..]) == [s[i]] + Substitute(m, s[i + 1..]);
    hide *;
  }

  lemma SubstituteEnd(m: Matcher, s: U32, out: U32)
    ensures out + Substitute(m, s[|s|..]) == out
  {
  }

  // ----- what each scanner matches at the head of s -----

  function EditWord(s: U32): (n: nat)
    ensures n <= |s|
  {
    if EqualsIgnoreCaseAscii(s, EDIT_WORD) then 4
    else if 1 < |s| && s[0] == HEN && s[1] == SHU then 2
    else 0
  }

  function EditMark(s: U32): (h: Option<Hit>)
    ensures h.Some? ==> Usable(h, s)
  {
    if s == [] || s[0] != OPEN then None
    else
      var j := 1 + Span(s[1..], IsSpaceLike);
      var word := EditWord(s[j..]);
      var after := j + word + Span(s[j + word..], IsSpaceLike);
      if 0 < word && after < |s| && s[after] == CLOSE then Some(Hit(after + 1, [])) else None
  }

  function Heading(s: U32): (h: Option<Hit>)
    ensures h.Some? ==> Usable(h, s)
  {
    var a := Span(s, IsEq);
    if a < 2 then None
    else
      var b := a + Span(s[a..], IsHeadingBody);
      var c := b + Span(s[b..], IsEq);
      if c - b >= 2 then Some(Hit(c, [SPACE])) else None
  }

  function WikiLink(s: U32): (h: Option<Hit>)
    ensures h.Some? ==> Usable(h, s)
  {
    if |s| < 2 || s[0] != OPEN || s[1] != OPEN then None
    else
      var j := 2 + Span(s[2..], NotClose);
      var pipe := 2 + Span(s[2..j], NotPipe);
      if j + 1 < |s| && s[j] == CLOSE && s[j + 1] == CLOSE then
        Some(Hit(j + 2, if pipe < j then s[pipe + 1..j] else s[2..j]))
      else None
  }

  predicate CloseRefAt(s: U32, j: nat) {
    && j + 5 < |s| && s[j] == LESS && s[j + 1] == SLASH
    && EqualsIgnoreCaseAscii(s[j + 2..], REF_WORD) && s[j + 5] == GREATER
  }

  /** Where the first </ref> at or after j starts. */
  function FindCloseRef(s: U32, j: nat): (r: Option<nat>)
    ensures r.Some? ==> j <= r.value && CloseRefAt(s, r.value)
    decreases |s| - j
  {
    if j + 5 >= |s| then None
    else if CloseRefAt(s, j) then Some(j)
    else FindCloseRef(s, j + 1)
  }

  function NumberRef(s: U32): (h: Option<Hit>)
    ensures h.Some? ==> Usable(h, s)
  {
    if s == [] || s[0] != OPEN then None
    else
      var j := 1 + Span(s[1..], IsDigit);
      if 1 < j < |s| && s[j] == CLOSE then Some(Hit(j + 1, [])) else None
  }

  function TagRef(s: U32): (h: Option<Hit>)
    ensures h.Some? ==> Usable(h, s)
  {
    if |s| < 5 || s[0] != LESS || !EqualsIgnoreCaseAscii(s[1..], REF_WORD) then None
    else if s[4] != GREATER && !IsSpaceLike(s[4]) && s[4] != SLASH then None
    else
      var j := 4 + Span(s[4..], NotGreater);
      var close := FindCloseRef(s, j + 1);
      if j < |s| && close.Some? then Some(Hit(close.value + 6, [])) else None
  }

  function WikiRef(s: U32): (h: Option<Hit>)
    ensures h.Some? ==> Usable(h, s)
  {
    if NumberRef(s).Some? then NumberRef(s) else TagRef(s)
  }

  function EqRun(s: U32): (h: Option<Hit>)
    ensures h.Some? ==> Usable(h, s)
  {
    if Span(s, IsEq) >= 2 then Some(Hit(Span(s, IsEq), [SPACE])) else None
  }

  // ----- the scanners -----

  lemma EditMarkAt(s: U32, i: nat, j: nat, word: nat)
    requires i < |s| && s[i] == OPEN
    requires j == i + 1 + Span(s[i + 1..], IsSpaceLike) && word == EditWord(s[j..])
    ensures word == 0 ==> EditMark(s[i..]).None?
    ensures j + word <= |s|
    ensures var after := j + word + Span(s[j + word..], IsSpaceLike);
      word > 0 ==> EditMark(s[i..]) == if after < |s| && s[after] == CLOSE then Some(Hit(after + 1 - i, [])) else None
  {
    hide Span, EditWord;
    var t := s[i..];
    assert t[1..] == s[i + 1..];
    assert t[j - i..] == s[j..];
    assert t[j - i + word..] == s[j + word..];
  }

  lemma EditMarkElsewhere(s: U32, i: nat)
    requires i < |s| && s[i] != OPEN
    ensures EditMark(s[i..]).None?
  {
  }

  method StripWikiEdit(s: U32) returns (out: U32)
    ensures out == Substitute(EditMark, s)
  {
    hide Substitute, EditMark, EqualsIgnoreCaseAscii, Span;
    out := [];
    var i := 0;
    while i < |s|
      invariant i <= |s|
      invariant out + Substitute(EditMark, s[i..]) == Substitute(EditMark, s)
    {
      if s[i] != OPEN {
        EditMarkElsewhere(s, i);
        SubstituteMiss(EditMark, s, i, out);
        out := out + [s[i]];
        i := i + 1;
        continue;
      }
      var j := SkipWhile(s, i + 1, IsSpaceLike);
      var word := 0;
      if EqualsIgnoreCaseAscii(s[j..], EDIT_WORD) {
        word := 4;
      } else if j + 1 < |s| && s[j] == HEN && s[j + 1] == SHU {
        word := 2;
      }
      EditMarkAt(s, i, j, word);
      if word > 0 {
        var after := SkipWhile(s, j + word, IsSpaceLike);
        if after < |s| && s[after] == CLOSE {
          SubstituteHit(EditMark, s, i, out);
          i := after + 1;
          continue;
        }
      }
      SubstituteMiss(EditMark, s, i, out);
      out := out + [s[i]];
      i := i + 1;
    }
    SubstituteEnd(EditMark, s, out);
  }

  lemma HeadingAt(s: U32, i: nat, a: nat)
    requires i < |s| && a == i + Span(s[i..], IsEq)
    ensures a - i < 2 ==> Heading(s[i..]).None?
    ensures var b := a + Span(s[a..], IsHeadingBody); var c := b + Span(s[b..], IsEq);
      a - i >= 2 ==> Heading(s[i..]) == if c - b >= 2 then Some(Hit(c - i, [SPACE])) else None
  {
    hide Span;
    var t := s[i..];
    assert t[a - i..] == s[a..];
    var b := a + Span(s[a..], IsHeadingBody);
    assert t[b - i..] == s[b..];
  }

  method StripWikiHeading(s: U32) returns (out: U32)
    ensures out == Substitute(Heading, s)
  {
    hide Substitute, Heading, Span;
    out := [];
    var i := 0;
    while i < |s|
      invariant i <= |s|
      invariant out + Substitute(Heading, s[i..]) == Substitute(Heading, s)
    {
      var a := SkipWhile(s, i, IsEq);
      HeadingAt(s, i, a);
      if a - i < 2 {
        SubstituteMiss(Heading, s, i, out);
        out := out + [s[i]];
        i := i + 1;
        continue;
      }
      var b := SkipWhile(s, a, IsHeadingBody);
      var c := SkipWhile(s, b, IsEq);
      if c - b >= 2 {
        SubstituteHit(Heading, s, i, out);
        out := out + [SPACE];
        i := c;
        continue;
      }
      SubstituteMiss(Heading, s, i, out);
      out := out + [s[i]];
      i := i + 1;
    }
    SubstituteEnd(Heading, s, out);
  }

  /** j: the first ']' from i + 2 on; start: after the first '|' before it, if any. */
  lemma WikiLinkAt(s: U32, i: nat, j: nat, pipe: nat, start: nat)
    requires i + 1 < |s| && s[i] == OPEN && s[i + 1] == OPEN
    requires i + 2 <= pipe <= j <= |s|
    requires forall k :: i + 2 <= k < j ==> NotClose(s[k])
    requires j < |s| ==> !NotClose(s[j]) && s[j] == CLOSE
    requires forall k :: i + 2 <= k < pipe ==> NotPipe(s[k])
    requires pipe < j ==> !NotPipe(s[pipe])
    requires start == if pipe < j then pipe + 1 else i + 2
    ensures WikiLink(s[i..]) ==
      if j + 1 < |s| && s[j + 1] == CLOSE then Some(Hit(j + 2 - i, s[start..j])) else None
  {
    hide *;
    SpanFrom(s, i, i + 2, j, |s|, NotClose);
    SpanFrom(s, i, i + 2, pipe, j, NotPipe);
    WikiLinkUnfold(s[i..], j - i, pipe - i, start - i);
    SliceOfTail(s, i, start, j);
  }

  lemma WikiLinkUnfold(t: U32, j: nat, pipe: nat, start: nat)
    requires 2 <= j <= |t| && t[0] == OPEN && t[1] == OPEN
    requires j == 2 + Span(t[2..], NotClose) && pipe == 2 + Span(t[2..j], NotPipe)
    requires start == if pipe < j then pipe + 1 else 2
    ensures WikiLink(t) ==
      if j + 1 < |t| && t[j] == CLOSE && t[j + 1] == CLOSE then Some(Hit(j + 2, t[start..j])) else None
  {
    hide Span;
  }

  lemma WikiLinkElsewhere(s: U32, i: nat)
    requires i < |s| && !(i + 1 < |s| && s[i] == OPEN && s[i + 1] == OPEN)
    ensures WikiLink(s[i..]).None?
  {
  }

  method StripWikiLink(s: U32) returns (out: U32)
    ensures out == Substitute(WikiLink, s)
  {
    hide Substitute, WikiLink;
    out := [];
    var i := 0;
    while i < |s|
      invariant i <= |s|
      invariant out + Substitute(WikiLink, s[i..]) == Substitute(WikiLink, s)
    {
      if i + 1 < |s| && s[i] == OPEN && s[i + 1] == OPEN {
        var j := i + 2;
        var pipe: Option<nat> := None;
        while j < |s| && s[j] != CLOSE
          invariant i + 2 <= j <= |s|
          invariant forall k :: i + 2 <= k < j ==> NotClose(s[k])
          invariant pipe.Some? ==> i + 2 <= pipe.value < j && s[pipe.value] == PIPE
          invariant forall k :: i + 2 <= k < (if pipe.Some? then pipe.value else j) ==> NotPipe(s[k])
        {
          if s[j] == PIPE && pipe.None? {
            pipe := Some(j);
          }
          j := j + 1;
        }
        var start := if pipe.None? then i + 2 else pipe.value + 1;
        WikiLinkAt(s, i, j, if pipe.Some? then pipe.value else j, start);
        if j + 1 < |s| && s[j] == CLOSE && s[j + 1] == CLOSE {
          SubstituteHit(WikiLink, s, i, out);
          out := out + s[start..j];
          i := j + 2;
          continue;
        }
      } else {
        WikiLinkElsewhere(s, i);
      }
      SubstituteMiss(WikiLink, s, i, out);
      out := out + [s[i]];
      i := i + 1;
    }
    SubstituteEnd(WikiLink, s, out);
  }

  lemma NumberRefAt(s: U32, i: nat, j: nat)
    requires i < |s| && s[i] == OPEN && j == i + 1 + Span(s[i + 1..], IsDigit)
    ensures WikiRef(s[i..]) == if i + 1 < j < |s| && s[j] == CLOSE then Some(Hit(j + 1 - i, [])) else None
  {
    hide Span, EqualsIgnoreCaseAscii;
    assert s[i..][1..] == s[i + 1..];
  }

  lemma {:induction false} FindCloseRefShift(s: U32, i: nat, j: nat)
    requires i <= j && i <= |s|
    ensures FindCloseRef(s[i..], j - i) ==
      match FindCloseRef(s, j) { case Some(r) => Some(r - i) case None => None }
    decreases |s| - j
  {
    if j + 5 < |s| {
      assert s[i..][j - i + 2..] == s[j + 2..];
      assert CloseRefAt(s[i..], j - i) == CloseRefAt(s, j);
      hide CloseRefAt;
      FindCloseRefShift(s, i, j + 1);
    }
  }

  /** j: the first '>' from i + 4 on. */
  lemma TagRefAt(s: U32, i: nat, j: nat)
    requires i + 4 < |s| && s[i] == LESS && EqualsIgnoreCaseAscii(s[i + 1..], REF_WORD)
    requires s[i + 4] == GREATER || IsSpaceLike(s[i + 4]) || s[i + 4] == SLASH
    requires j == i + 4 + Span(s[i + 4..], NotGreater)
    ensures WikiRef(s[i..]) ==
      if j < |s| && FindCloseRef(s, j + 1).Some? then Some(Hit(FindCloseRef(s, j + 1).value + 6 - i, [])) else None
  {
    hide Span, EqualsIgnoreCaseAscii, CloseRefAt, FindCloseRef;
    var t := s[i..];
    assert t[1..] == s[i + 1..] && t[4..] == s[i + 4..];
    if j < |s| {
      FindCloseRefShift(s, i, j + 1);
    }
  }

  lemma WikiRefElsewhere(s: U32, i: nat)
    requires i < |s| && s[i] != OPEN
    requires !(s[i] == LESS && EqualsIgnoreCaseAscii(s[i + 1..], REF_WORD) && i + 4 < |s| &&
               (s[i + 4] == GREATER || IsSpaceLike(s[i + 4]) || s[i + 4] == SLASH))
    ensures WikiRef(s[i..]).None?
  {
    hide Span, EqualsIgnoreCaseAscii, FindCloseRef;
    assert s[i..][1..] == s[i + 1..];
  }

  method StripWikiRef(s: U32) returns (out: U32)
    ensures out == Substitute(WikiRef, s)
  {
    hide Substitute, WikiRef, Span, EqualsIgnoreCaseAscii, CloseRefAt;
    out := [];
    var i := 0;
    while i < |s|
      invariant i <= |s|
      invariant out + Substitute(WikiRef, s[i..]) == Substitute(WikiRef, s)
    {
      if s[i] == OPEN {
        var j := SkipWhile(s, i + 1, IsDigit);
        NumberRefAt(s, i, j);
        if i + 1 < j < |s| && s[j] == CLOSE {
          SubstituteHit(WikiRef, s, i, out);
          i := j + 1;
          continue;
        }
      } else if s[i] == LESS && EqualsIgnoreCaseAscii(s[i + 1..], REF_WORD) && i + 4 < |s| &&
                (s[i + 4] == GREATER || IsSpaceLike(s[i + 4]) || s[i + 4] == SLASH) {
        var j := SkipWhile(s, i + 4, NotGreater);
        TagRefAt(s, i, j);
        if j < |s| {
          j := j + 1;
          ghost var from := j;
          while j + 5 < |s| && !CloseRefAt(s, j)
            invariant from <= j
            invariant FindCloseRef(s, j) == FindCloseRef(s, from)
          {
            j := j + 1;
          }
          if j + 5 < |s| {
            SubstituteHit(WikiRef, s, i, out);
            i := j + 6;
            continue;
          }
        }
      } else {
        WikiRefElsewhere(s, i);
      }
      SubstituteMiss(WikiRef, s, i, out);
      out := out + [s[i]];
      i := i + 1;
    }
    SubstituteEnd(WikiRef, s, out);
  }

  lemma EqRunAt(s: U32, i: nat, j: nat)
    requires i < |s| && j == i + Span(s[i..], IsEq)
    ensures EqRun(s[i..]) == if j - i >= 2 then Some(Hit(j - i, [SPACE])) else None
    ensures !IsEq(s[i]) ==> j == i
  {
  }

  method StripEqRun(s: U32) returns (out: U32)
    ensures out == Substitute(EqRun, s)
  {
    hide Substitute, EqRun, Span;
    out := [];
    var i := 0;
    while i < |s|
      invariant i <= |s|
      invariant out + Substitute(EqRun, s[i..]) == Substitute(EqRun, s)
    {
      EqRunAt(s, i, i + Span(s[i..], IsEq));
      if IsEq(s[i]) {
        var j := SkipWhile(s, i, IsEq);
        if j - i >= 2 {
          SubstituteHit(EqRun, s, i, out);
          out := out + [SPACE];
          i := j;
          continue;
        }
      }
      SubstituteMiss(EqRun, s, i, out);
      out := out + [s[i]];
      i := i + 1;
    }
    SubstituteEnd(EqRun, s, out);
  }

  /** Length of the bullet mark to be replaced at the head of s, or 0. */
  function BulletLen(atBound: bool, s: U32): (n: nat)
    ensures n <= |s|
  {
    var j := Span(s, IsBulletChar);
    if atBound && (j == |s| || IsSpaceLike(s[j])) then j else 0
  }

  /** atBound: s starts the text or the character before it is a space. */
  function Bullets(atBound: bool, s: U32): U32
    decreases |s|
  {
    if s == [] then []
    else
      var j := BulletLen(atBound, s);
      if j > 0 then [SPACE] + Bullets(false, s[j..])
      else [s[0]] + Bullets(IsSpaceLike(s[0]), s[1..])
  }

  lemma BulletsStep(s: U32, i: nat, out: U32)
    requires i < |s|
    ensures var atBound := i == 0 || IsSpaceLike(s[i - 1]);
      var j := i + Span(s[i..], IsBulletChar);
      out + Bullets(atBound, s[i..]) ==
        if atBound && j > i && (j == |s| || IsSpaceLike(s[j])) then out + [SPACE] + Bullets(false, s[j..])
        else out + [s[i]] + Bullets(IsSpaceLike(s[i]), s[i + 1..])
    ensures !IsBulletChar(s[i]) ==> Span(s[i..], IsBulletChar) == 0
  {
    hide Span, IsBulletChar, IsSpaceLike, Bullets;
    var atBound := i == 0 || IsSpaceLike(s[i - 1]);
    var t := s[i..];
    var n := Span(t, IsBulletChar);
    assert t[1..] == s[i + 1..];
    assert t[n..] == s[i + n..];
    BulletsUnfold(atBound, t);
  }

  lemma BulletsUnfold(atBound: bool, t: U32)
    requires t != []
    ensures var j := BulletLen(atBound, t);
      Bullets(atBound, t) ==
        if j > 0 then [SPACE] + Bullets(false, t[j..]) else [t[0]] + Bullets(IsSpaceLike(t[0]), t[1..])
  {
    hide Span, BulletLen, IsSpaceLike;
  }

  method StripBullets(s: U32) returns (out: U32)
    ensures out == Bullets(true, s)
  {
    hide Bullets, Span;
    out := [];
    var i := 0;
    while i < |s|
      invariant i <= |s|
      invariant out + Bullets(i == 0 || IsSpaceLike(s[i - 1]), s[i..]) == Bullets(true, s)
    {
      BulletsStep(s, i, out);
      var atBound := i == 0 || IsSpaceLike(s[i - 1]);
      if atBound && IsBulletChar(s[i]) {
        var j := SkipWhile(s, i, IsBulletChar);
        var afterOk := j == |s| || IsSpaceLike(s[j]);
        if afterOk && j > i {
          // The space before the mark has already been copied; this is the replacement.
          out := out + [SPACE];
          assert IsBulletChar(s[j - 1]);
          i := j;
          continue;
        }
      }
      out := out + [s[i]];
      i := i + 1;
    }
    BulletsEnd(s);
  }

  lemma BulletsEnd(s: U32)
    ensures forall b: bool :: Bullets(b, s[|s|..]) == []
  {
  }

  function DropLead(s: U32): U32 { if s != [] && s[0] == SPACE then s[1..] else s }

  /** Every maximal run of space-like characters becomes one space. */
  function Squeeze(s: U32): U32 {
    if s == [] then []
    else if IsSpaceLike(s[0]) then [SPACE] + DropLead(Squeeze(s[1..]))
    else [s[0]] + Squeeze(s[1..])
  }

  predicate IsPlainSpace(c: CodePoint) { c == SPACE }

  function TrimStart(s: U32): U32 { s[Span(s, IsPlainSpace)..] }

  function TrimEnd(s: U32): U32 {
    if s != [] && s[|s| - 1] == SPACE then TrimEnd(s[..|s| - 1]) else s
  }

  lemma SqueezeStep(s: U32, i: nat, out: U32)
    requires i < |s|
    ensures var rest := Squeeze(s[i + 1..]);
      && (IsSpaceLike(s[i]) ==> out + Squeeze(s[i..]) == out + [SPACE] + DropLead(rest))
      && (IsSpaceLike(s[i]) ==> out + DropLead(Squeeze(s[i..])) == out + DropLead(rest))
      && (!IsSpaceLike(s[i]) ==> out + Squeeze(s[i..]) == out + [s[i]] + rest)
      && (!IsSpaceLike(s[i]) ==> out + DropLead(Squeeze(s[i..])) == out + [s[i]] + rest)
  {
    assert s[i..][1..] == s[i + 1..];
    hide IsSpaceLike;
  }

  method CollapseSpaces(s: U32) returns (r: U32)
    ensures r == TrimEnd(TrimStart(Squeeze(s)))
  {
    hide Squeeze, Span, IsSpaceLike, TrimEnd;
    var out: U32 := [];
    var inSpace := false;
    for i := 0 to |s|
      invariant out + (if inSpace then DropLead(Squeeze(s[i..])) else Squeeze(s[i..])) == Squeeze(s)
    {
      SqueezeStep(s, i, out);
      if IsSpaceLike(s[i]) {
        if !inSpace {
          out := out + [SPACE];
          inSpace := true;
        }
      } else {
        out := out + [s[i]];
        inSpace := false;
      }
    }
    SqueezeEnd(s, out);
    var a := SkipWhile(out, 0, IsPlainSpace);
    assert out[0..] == out && out[a..|out|] == out[a..];
    var b := |out|;
    while b > a && out[b - 1] == SPACE
      invariant a <= b <= |out|
      invariant TrimEnd(out[a..b]) == TrimEnd(out[a..])
    {
      TrimEndStep(out, a, b);
      b := b - 1;
    }
    TrimEndStop(out, a, b);
    r := out[a..b];
  }

  lemma TrimEndStep(s: U32, a: nat, b: nat)
    requires a < b <= |s| && s[b - 1] == SPACE
    ensures TrimEnd(s[a..b]) == TrimEnd(s[a..b - 1])
  {
    assert s[a..b][..b - a - 1] == s[a..b - 1];
  }

  lemma TrimEndStop(s: U32, a: nat, b: nat)
    requires a <= b <= |s| && (b > a ==> s[b - 1] != SPACE)
    ensures TrimEnd(s[a..b]) == s[a..b]
  {
  }

  lemma SqueezeEnd(s: U32, out: U32)
    ensures out + Squeeze(s[|s|..]) == out && out + DropLead(Squeeze(s[|s|..])) == out
  {
  }

  // ----- the whole cleaner -----

  function BreakToSpace(c: CodePoint): CodePoint {
    if c == CR || c == LF || c == TAB then SPACE else c
  }

  predicate IsBlank(c: CodePoint) { c == SPACE || c == IDEO_SPACE }

  /** The position just after the last sentence end, or 0. */
  function LastEnd(s: U32): (n: nat)
    ensures n <= |s| && (n > 0 ==> IsSentEnd(s[n - 1]))
    ensures forall k :: n <= k < |s| ==> !IsSentEnd(s[k])
  {
    if s == [] then 0
    else
      var n := LastEnd(s[1..]);
      if n > 0 then n + 1 else if IsSentEnd(s[0]) then 1 else 0
  }

  /** The last max characters; max <= 0 is no bound. */
  function TakeLast(s: U32, max: int): U32 {
    if max > 0 && |s| > max then s[|s| - max..] else s
  }

  function Marks(s: U32): U32 {
    Substitute(WikiRef, Substitute(WikiLink, Substitute(Heading, Substitute(EditMark, s))))
  }

  function Scanned(s: U32): U32 { Bullets(true, Substitute(EqRun, Marks(Map(BreakToSpace, s)))) }

  function Trimmed(s: U32): U32 { TrimEnd(TrimStart(Squeeze(Scanned(s)))) }

  /** What is left after the last sentence end, without leading blanks. */
  function LastSentence(s: U32): U32 {
    var t := s[LastEnd(s)..];
    t[Span(t, IsBlank)..]
  }

  function CleanU32(s: U32, max: int): U32 { TakeLast(LastSentence(Trimmed(s)), max) }

  method BreaksToSpaces(s: U32) returns (r: U32)
    ensures r == Map(BreakToSpace, s)
  {
    r := s;
    for i := 0 to |s|
      invariant |r| == |s|
      invariant forall k :: 0 <= k < i ==> r[k] == BreakToSpace(s[k])
      invariant forall k :: i <= k < |s| ==> r[k] == s[k]
    {
      if r[i] == CR || r[i] == LF || r[i] == TAB {
        r := r[i := SPACE];
      }
    }
  }

  method CutSentence(s: U32) returns (sentence: U32)
    ensures sentence == LastSentence(s)
  {
    var last := -1;
    for i := 0 to |s|
      invariant last == -1 || (1 <= last <= i && IsSentEnd(s[last - 1]))
      invariant forall k :: (if last < 0 then 0 else last) <= k < i ==> !IsSentEnd(s[k])
    {
      if IsSentEnd(s[i]) {
        last := i + 1;
      }
    }
    assert (if last < 0 then 0 else last) == LastEnd(s);
    hide IsSentEnd, Span;
    sentence := if last >= 0 then s[last..] else s;
    assert sentence == s[LastEnd(s)..];
    var ls := SkipWhile(sentence, 0, IsBlank);
    assert sentence[0..] == sentence;
    sentence := sentence[ls..];
  }

  method CleanContext(text: Bytes, max: int) returns (r: Bytes)
    ensures r == Encode(CleanU32(Decode(text), max))
  {
    hide *;
    CleanEmpty(max);
    if text == [] {
      return [];
    }
    var s := Utf8ToU32(text);
    ghost var given := s;
    s := BreaksToSpaces(s);
    s := StripWikiEdit(s);
    s := StripWikiHeading(s);
    s := StripWikiLink(s);
    s := StripWikiRef(s);
    s := StripEqRun(s);
    s := StripBullets(s);
    s := CollapseSpaces(s);
    CleanStages(given, max);
    if s == [] {
      return [];
    }
    var sentence := CutSentence(s);
    if sentence == [] {
      return [];
    }
    if |sentence| > max && max > 0 {
      sentence := sentence[|sentence| - max..];
    }
    r := U32ToUtf8(sentence);
  }

  lemma CleanEmpty(max: int)
    ensures Decode([]) == [] && Encode(CleanU32([], max)) == []
  {
    assert forall m: Matcher :: Substitute(m, []) == [];
    assert Bullets(true, []) == [] && Squeeze([]) == [] && Map(BreakToSpace, []) == [];
    assert Encode([]) == [] && Decode([]) == [];
    hide Substitute, Bullets, Squeeze, Map, Encode, Decode;
    assert Trimmed([]) == [];
    assert LastSentence([]) == [];
  }

  /** The stages in the order of the code. */
  lemma CleanStages(s: U32, max: int)
    ensures var t := Trimmed(s);
      && t == TrimEnd(TrimStart(Squeeze(Bullets(true, Substitute(EqRun, Substitute(WikiRef, Substitute(WikiLink,
                Substitute(Heading, Substitute(EditMark, Map(BreakToSpace, s))))))))))
      && (t == [] ==> Encode(CleanU32(s, max)) == [])
      && (LastSentence(t) == [] ==> Encode(CleanU32(s, max)) == [])
      && CleanU32(s, max) ==
           (if |LastSentence(t)| > max && max > 0 then LastSentence(t)[|LastSentence(t)| - max..] else LastSentence(t))
  {
    assert LastSentence([]) == [];
    assert Encode([]) == [];
  }

  /** The text left of a token, cleaned. */
  method ClipContextPrev(fullText: Bytes, tokenStart: int, max: int) returns (r: Bytes)
    ensures tokenStart <= 0 ==> r == []
    ensures tokenStart > 0 ==>
      var s := Decode(fullText);
      r == Encode(CleanU32(if tokenStart > |s| then s else s[..tokenStart], max))
  {
    hide *;
    CleanEmpty(max);
    if tokenStart <= 0 || fullText == [] {
      return [];
    }
    var s := Utf8ToU32(fullText);
    var start := tokenStart;
    if start > |s| {
      start := |s|;
    }
    var left := U32ToUtf8(s[..start]);
    DecodeEncode(s[..start]);
    assert s[..|s|] == s;
    r := CleanContext(left, max);
  }

  /** Full-width ASCII to ASCII, the ideographic space to a space, katakana to hiragana. */
  function NormalizeChar(c: CodePoint): CodePoint {
    if 0xFF01 <= c <= 0xFF5E then c - 0xFEE0
    else if c == IDEO_SPACE then SPACE
    else if 0x30A1 <= c <= 0x30F6 then c - 0x60
    else c
  }

  method NormalizeReading(text: Bytes) returns (r: Bytes)
    ensures r == Encode(Map(NormalizeChar, Decode(text)))
  {
    if text == [] {
      return [];
    }
    var s := Utf8ToU32(text);
    var out: U32 := [];
    for i := 0 to |s|
      invariant |out| == i && forall k :: 0 <= k < i ==> out[k] == NormalizeChar(s[k])
    {
      var c := s[i];
      if 0xFF01 <= c <= 0xFF5E {
        c := c - 0xFEE0;
      } else if c == IDEO_SPACE {
        c := SPACE;
      }
      if 0x30A1 <= c <= 0x30F6 {
        c := c - 0x60;
      }
      out := out + [c];
    }
    assert out == Map(NormalizeChar, s);
    r := U32ToUtf8(out);
  }

  /** Normalising a reading a second time changes nothing. */
  lemma NormalizeReadingIdempotent(text: Bytes)
    ensures var once := Encode(Map(NormalizeChar, Decode(text)));
      Encode(Map(NormalizeChar, Decode(once))) == once
  {
    var once := Map(NormalizeChar, Decode(text));
    DecodeEncode(once);
    assert Map(NormalizeChar, once) == once;
  }
}
