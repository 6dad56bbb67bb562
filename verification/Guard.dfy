/**
 The usage guard of mozc_compat/rerank_guard.cc: the strict code-point reader, the surface and
 context checks, and the binary search in the table of eligible readings.
 */
module Guard {
  import opened Text
  import opened Utf8
  import C = ContextClip
  import P = PyContext

  const REPLACEMENT: CodePoint := 0xFFFD

  /** One round of the strict reader: an octet that starts no complete unit counts as U+FFFD. */
  function NextUnit(b: Bytes): (u: Unit)
    requires b != []
    ensures 1 <= u.n <= |b|
  {
    var c := b[0];
    if c < 0x80 then Unit(c, 1)
    else if 0xC0 <= c < 0xE0 && 1 < |b| && Continuation(b[1]) then Unit(Low5(c) * 64 + Low6(b[1]), 2)
    else if 0xE0 <= c < 0xF0 && 2 < |b| && Continuation(b[1]) && Continuation(b[2]) then
      Unit(Low4(c) * 4096 + Low6(b[1]) * 64 + Low6(b[2]), 3)
    else if 0xF0 <= c < 0xF8 && 3 < |b| && Continuation(b[1]) && Continuation(b[2]) && Continuation(b[3]) then
      Unit(Low3(c) * 262144 + Low6(b[1]) * 4096 + Low6(b[2]) * 64 + Low6(b[3]), 4)
    else Unit(REPLACEMENT, 1)
  }

  /** All the code points the strict reader sees. */
  function Cps(b: Bytes): U32 {
    if b == [] then [] else [NextUnit(b).cp] + Cps(b[NextUnit(b).n..])
  }

  method NextCodepoint(s: Bytes, i: nat) returns (more: bool, next: nat, cp: CodePoint)
    ensures more <==> i < |s|
    ensures more ==> i < next <= |s| && NextUnit(s[i..]) == Unit(cp, next - i)
    ensures !more ==> next == i
  {
    if i >= |s| {
      return false, i, 0;
    }
    more := true;
    var c := s[i];
    var n := 0;
    hide Low3, Low4, Low5, Low6;
    if c < 0x80 {
      cp, n := c, 1;
    } else if 0xC0 <= c < 0xE0 && i + 1 < |s| && Continuation(s[i + 1]) {
      cp, n := Low5(c) * 64 + Low6(s[i + 1]), 2;
    } else if 0xE0 <= c < 0xF0 && i + 2 < |s| && Continuation(s[i + 1]) && Continuation(s[i + 2]) {
      cp, n := Low4(c) * 4096 + Low6(s[i + 1]) * 64 + Low6(s[i + 2]), 3;
    } else if 0xF0 <= c < 0xF8 && i + 3 < |s| && Continuation(s[i + 1]) && Continuation(s[i + 2])
      && Continuation(s[i + 3]) {
      cp := Low3(c) * 262144 + Low6(s[i + 1]) * 4096 + Low6(s[i + 2]) * 64 + Low6(s[i + 3]);
      n := 4;
    } else {
      next := i + 1;
      cp := REPLACEMENT;
      return;
    }
    next := i + n;
  }

  lemma CpsStep(s: Bytes, i: nat)
    requires i < |s|
    ensures var u := NextUnit(s[i..]); i + u.n <= |s| && Cps(s[i..]) == [u.cp] + Cps(s[i + u.n..])
  {
    hide NextUnit;
    assert s[i..][NextUnit(s[i..]).n..] == s[i + NextUnit(s[i..]).n..];
  }

  /** What was encoded is read back: the guard sees exactly the characters the cleaner produced. */
  lemma {:induction false} CpsEncode(s: U32)
    ensures Cps(Encode(s)) == s
  {
    if s != [] {
      var e, rest := EncodeOne(s[0]), Encode(s[1..]);
      NextUnitOfEncoded(s[0], rest);
      hide NextUnit, EncodeOne;
      assert (e + rest)[|e|..] == rest;
      CpsEncode(s[1..]);
    }
  }

  lemma NextUnitOfEncoded(cp: CodePoint, rest: Bytes)
    ensures NextUnit(EncodeOne(cp) + rest) == Unit(cp, |EncodeOne(cp)|)
  {
    DecodeHeadOfEncoded(cp, rest);
    var b := EncodeOne(cp) + rest;
    assert forall k :: 1 <= k < |EncodeOne(cp)| ==> Continuation(b[k]) by {
      hide Shift6, Shift12, Shift18, Trail, Low3, Low4, Low5, Low6;
    }
    hide EncodeOne, Low3, Low4, Low5, Low6, Shift6, Shift12, Shift18, Trail;
  }

  lemma EncodedBegins(s: U32)
    requires s != []
    ensures Encode(s) != [] && !Continuation(Encode(s)[0])
  {
    hide Shift6, Shift12, Shift18, Trail;
  }

  /** One octet too many costs one replacement character and nothing of the text behind it. */
  lemma StrayOctet(c: Byte, s: U32)
    requires c >= 0x80
    ensures Cps([c] + Encode(s)) == [0xFFFD] + s
  {
    var b := [c] + Encode(s);
    CpsEncode(s);
    if s != [] {
      EncodedBegins(s);
      assert b[1] == Encode(s)[0];
    } else {
      assert b == [c];
    }
    assert b[1..] == Encode(s);
    assert NextUnit(b) == Unit(REPLACEMENT, 1);
    hide Encode, NextUnit;
  }

  /** The strict reader and the lenient decoder agree on shortest-form text. */
  lemma ReadersAgree(b: Bytes)
    requires Canonical(b)
    ensures Cps(b) == Decode(b)
  {
    hide *;
    CanonicalReencodes(b);
    CpsEncode(Decode(b));
  }

  // ----- lengths and contents -----

  method Utf8CodepointLength(s: Bytes) returns (n: nat)
    ensures n == |Cps(s)|
  {
    hide Cps, NextUnit;
    n := 0;
    var i := 0;
    CpsEnd(s);
    assert s[0..] == s;
    var more, next, cp := NextCodepoint(s, i);
    while more
      invariant i <= |s| && n + |Cps(s[i..])| == |Cps(s)|
      invariant more <==> i < |s|
      invariant more ==> i < next <= |s| && NextUnit(s[i..]) == Unit(cp, next - i)
      decreases |s| - i
    {
      CpsStep(s, i);
      n := n + 1;
      i := next;
      more, next, cp := NextCodepoint(s, i);
    }
  }

  lemma CpsEnd(s: Bytes)
    ensures Cps(s[|s|..]) == []
  {
  }

  predicate IsHiragana(c: CodePoint) { 0x3040 <= c <= 0x309F }
  predicate IsKatakana(c: CodePoint) { 0x30A0 <= c <= 0x30FF }
  predicate IsKanji(c: CodePoint) { 0x3400 <= c <= 0x9FFF || 0xF900 <= c <= 0xFAFF }
  predicate IsHwKanaLetter(c: CodePoint) { 0xFF66 <= c <= 0xFF9D }
  predicate IsHwKanaBlock(c: CodePoint) { 0xFF61 <= c <= 0xFF9F }

  predicate IsLatinLetter(c: CodePoint) {
    0x41 <= c <= 0x5A || 0x61 <= c <= 0x7A || 0xC0 <= c <= 0x24F || 0xFF21 <= c <= 0xFF3A || 0xFF41 <= c <= 0xFF5A
  }

  predicate IsLinguistic(c: CodePoint) {
    IsHiragana(c) || IsKatakana(c) || IsKanji(c) || IsHwKanaLetter(c) || 0x31F0 <= c <= 0x31FF || IsLatinLetter(c)
  }

  ghost predicate Any(s: U32, p: CodePoint -> bool) { exists k :: 0 <= k < |s| && p(s[k]) }

  method HasLinguisticContent(s: Bytes) returns (r: bool)
    ensures r <==> Any(Cps(s), IsLinguistic)
  {
    hide Cps, NextUnit, IsLinguistic;
    var i := 0;
    ghost var seen: U32 := [];
    CpsEnd(s);
    assert s[0..] == s;
    var more, next, c := NextCodepoint(s, i);
    while more
      invariant i <= |s| && seen + Cps(s[i..]) == Cps(s)
      invariant forall k :: 0 <= k < |seen| ==> !IsLinguistic(seen[k])
      invariant more <==> i < |s|
      invariant more ==> i < next <= |s| && NextUnit(s[i..]) == Unit(c, next - i)
      decreases |s| - i
    {
      CpsStep(s, i);
      if IsLinguistic(c) {
        assert Cps(s)[|seen|] == c;
        return true;
      }
      seen := seen + [c];
      i := next;
      more, next, c := NextCodepoint(s, i);
    }
    return false;
  }

  predicate IsGuardBlank(c: CodePoint) { c == C.SPACE || c == C.TAB || c == C.IDEO_SPACE || c == C.LF || c == C.CR }

  /** The separate blank check is subsumed: no blank is linguistic. */
  method ContextEmptyOrSymbol(context: Bytes) returns (r: bool)
    ensures r <==> !Any(Cps(context), IsLinguistic)
  {
    hide Cps, NextUnit;
    if context == [] {
      CpsEnd(context);
      return true;
    }
    var anyNonSpace := false;
    var i := 0;
    ghost var seen: U32 := [];
    CpsEnd(context);
    assert context[0..] == context;
    var more, next, c := NextCodepoint(context, i);
    while more && !anyNonSpace
      invariant i <= |context|
      invariant !anyNonSpace ==> seen + Cps(context[i..]) == Cps(context)
      invariant forall k :: 0 <= k < |seen| ==> IsGuardBlank(seen[k])
      invariant !anyNonSpace ==> (more <==> i < |context|)
      invariant !anyNonSpace && more ==> i < next <= |context| && NextUnit(context[i..]) == Unit(c, next - i)
      decreases !anyNonSpace, |context| - i
    {
      CpsStep(context, i);
      if !IsGuardBlank(c) {
        anyNonSpace := true;
      } else {
        seen := seen + [c];
        i := next;
        more, next, c := NextCodepoint(context, i);
      }
    }
    if !anyNonSpace {
      assert forall k :: 0 <= k < |seen| ==> !IsLinguistic(seen[k]);
      return true;
    }
    var has := HasLinguisticContent(context);
    return !has;
  }

  predicate IsKyujitai(c: CodePoint) {
    || c == 0x5BE6 || c == 0x820A || c == 0x8B83 || c == 0x8207 || c == 0x5B78 || c == 0x9AD4 || c == 0x5EE3
    || c == 0x61C9 || c == 0x85DD || c == 0x7E23 || c == 0x64E7 || c == 0x7027 || c == 0x975C
  }

  predicate IsKana(c: CodePoint) { c == 0x30FC || IsKatakana(c) || IsHwKanaLetter(c) }
  predicate IsKanaOrBlank(c: CodePoint) { IsKana(c) || c == C.SPACE || c == C.TAB || c == C.IDEO_SPACE }

  /** Empty, old-form kanji, half-width kana throughout, or katakana and blanks only. */
  ghost predicate Junk(s: U32) {
    s == [] || Any(s, IsKyujitai) || All(s, IsHwKanaBlock) || (Any(s, IsKana) && All(s, IsKanaOrBlank))
  }

  method IsJunkSurface(surface: Bytes) returns (r: bool)
    ensures r <==> Junk(Cps(surface))
  {
    hide *;
    CpsEmpty(surface);
    NothingSeen();
    JunkIs(Cps(surface));
    CpsEnd(surface);
    if surface == [] {
      return true;
    }
    var kana, other := 0, 0;
    var allHw := true;
    var i := 0;
    ghost var seen: U32 := [];
    assert surface[0..] == surface;
    var more, next, c := NextCodepoint(surface, i);
    CpsStep(surface, 0);
    while more
      invariant i <= |surface| && seen + Cps(surface[i..]) == Cps(surface)
      invariant allHw <==> All(seen, IsHwKanaBlock)
      invariant kana > 0 <==> Any(seen, IsKana)
      invariant other == 0 <==> All(seen, IsKanaOrBlank)
      invariant kana >= 0 && other >= 0 && !Any(seen, IsKyujitai)
      invariant more <==> i < |surface|
      invariant more ==> i < next <= |surface| && NextUnit(surface[i..]) == Unit(c, next - i)
      decreases |surface| - i
    {
      CpsStep(surface, i);
      if IsKyujitai(c) {
        AnyAt(seen, c, Cps(surface[next..]), IsKyujitai);
        assert seen + ([c] + Cps(surface[next..])) == Cps(surface);
        return true;
      }
      KanaOrBlankIs(c);
      if !IsHwKanaBlock(c) {
        allHw := false;
      }
      if IsKana(c) {
        kana := kana + 1;
      } else if c == C.SPACE || c == C.TAB || c == C.IDEO_SPACE {
      } else {
        other := other + 1;
      }
      SeenOne(seen, c, IsHwKanaBlock);
      SeenOne(seen, c, IsKana);
      SeenOne(seen, c, IsKanaOrBlank);
      SeenOne(seen, c, IsKyujitai);
      seen := seen + [c];
      i := next;
      more, next, c := NextCodepoint(surface, i);
    }
    assert seen == Cps(surface);
    if allHw {
      return true;
    }
    return kana > 0 && other == 0;
  }

  lemma NothingSeen()
    ensures forall p: CodePoint -> bool :: All([], p) && !Any([], p)
  {
  }

  lemma AnyAt(a: U32, c: CodePoint, b: U32, p: CodePoint -> bool)
    requires p(c)
    ensures Any(a + ([c] + b), p)
  {
    assert (a + ([c] + b))[|a|] == c;
  }

  lemma KanaOrBlankIs(c: CodePoint)
    ensures IsKanaOrBlank(c) <==> IsKana(c) || c == C.SPACE || c == C.TAB || c == C.IDEO_SPACE
  {
  }

  lemma JunkIs(s: U32)
    ensures Junk(s) <==>
      s == [] || Any(s, IsKyujitai) || All(s, IsHwKanaBlock) || (Any(s, IsKana) && All(s, IsKanaOrBlank))
  {
  }

  lemma SeenOne(seen: U32, c: CodePoint, p: CodePoint -> bool)
    ensures All(seen + [c], p) <==> All(seen, p) && p(c)
    ensures Any(seen + [c], p) <==> Any(seen, p) || p(c)
  {
    var t := seen + [c];
    assert t[|seen|] == c;
    assert forall k :: 0 <= k < |seen| ==> t[k] == seen[k];
    if Any(seen, p) {
      var k :| 0 <= k < |seen| && p(seen[k]);
      assert p(t[k]);
    }
  }

  /** `is_junk_surface` of the daemon: the same, with every Unicode space skipped. */
  predicate IsKanaOrPySpace(c: CodePoint) { IsKana(c) || P.IsPySpace(c) }

  ghost predicate PyJunk(s: U32) {
    s == [] || Any(s, IsKyujitai) || All(s, IsHwKanaBlock) || (Any(s, IsKana) && All(s, IsKanaOrPySpace))
  }

  /** The old forms of kanji that the daemon lists. */
  const KYUJITAI: seq<CodePoint> :=
    [0x5BE6, 0x820A, 0x8B83, 0x8207, 0x5B78, 0x9AD4, 0x5EE3, 0x61C9, 0x85DD, 0x7E23, 0x64E7, 0x7027, 0x975C]

  /** The kana of the daemon's check: the long vowel mark, the katakana block and the half-width letters. */
  lemma SameJunkClasses(c: CodePoint)
    ensures c in KYUJITAI <==> IsKyujitai(c)
    ensures IsKana(c) <==> c == 0x30FC || 0x30A0 <= c <= 0x30FF || 0xFF66 <= c <= 0xFF9D
    ensures IsHwKanaBlock(c) <==> 0xFF61 <= c <= 0xFF9F
  {
  }

  predicate IsOddSpace(c: CodePoint) { P.IsPySpace(c) && c != C.SPACE && c != C.TAB && c != C.IDEO_SPACE }

  /** The daemon rejects whatever the rewriter rejects; they agree unless kana stands with an odd space. */
  lemma JunkAgrees(s: U32)
    ensures Junk(s) ==> PyJunk(s)
    ensures !Any(s, IsOddSpace) ==> (Junk(s) <==> PyJunk(s))
    ensures PyJunk(s) && !Junk(s) ==> Any(s, IsKana) && Any(s, IsOddSpace)
  {
    hide IsKana, IsKyujitai, IsHwKanaBlock;
    if All(s, IsKanaOrPySpace) && !Any(s, IsOddSpace) {
      assert All(s, IsKanaOrBlank) by {
        forall k | 0 <= k < |s|
          ensures IsKanaOrBlank(s[k])
        {
          assert IsKanaOrPySpace(s[k]) && !IsOddSpace(s[k]);
        }
      }
    }
    assert forall c: CodePoint :: IsKanaOrBlank(c) ==> IsKanaOrPySpace(c);
  }

  // ----- the table of eligible readings -----

  /** A std::string seen through c_str(): what stands before the first NUL. */
  function CStr(b: Bytes): Bytes {
    if b == [] || b[0] == 0 then [] else [b[0]] + CStr(b[1..])
  }

  predicate NulFree(s: seq<int>) { forall k :: 0 <= k < |s| ==> s[k] != 0 }

  lemma {:induction false} CStrNulFree(b: Bytes)
    ensures NulFree(CStr(b))
    ensures NulFree(b) <==> CStr(b) == b
  {
    if b != [] && b[0] != 0 {
      CStrNulFree(b[1..]);
      assert b == [b[0]] + b[1..];
      assert NulFree(b) <==> NulFree(b[1..]);
      assert CStr(b)[1..] == CStr(b[1..]);
    } else if b != [] {
      assert !NulFree(b);
    }
  }

  /** strcmp(a, b) < 0 */
  predicate StrcmpLess(a: Bytes, b: Bytes) { LexLess(CStr(a), CStr(b)) }

  /** The generated table: NUL-free words, strictly increasing by code point, each encoded. */
  ghost predicate EligibleTable(words: seq<U32>, table: seq<Bytes>) {
    && |words| == |table|
    && (forall i :: 0 <= i < |words| ==> NulFree(words[i]) && table[i] == Encode(words[i]))
    && (forall i, j :: 0 <= i < j < |words| ==> LexLess(words[i], words[j]))
  }

  lemma {:induction false} EncodeNulFree(s: U32)
    requires NulFree(s)
    ensures NulFree(Encode(s))
  {
    if s != [] {
      EncodeNulFree(s[1..]);
      assert s[0] != 0;
      assert NulFree(EncodeOne(s[0])) by {
        hide Shift6, Shift12, Shift18, Trail;
      }
      hide EncodeOne;
    }
  }

  /** The code-point order of the words is the strcmp order of the table. */
  lemma TableSorted(words: seq<U32>, table: seq<Bytes>)
    requires EligibleTable(words, table)
    ensures forall i :: 0 <= i < |table| ==> CStr(table[i]) == table[i]
    ensures forall i, j :: 0 <= i < j < |table| ==> LexLess(table[i], table[j])
  {
    hide Encode, CStr, LexLess;
    forall i | 0 <= i < |table|
      ensures CStr(table[i]) == table[i]
    {
      EncodeNulFree(words[i]);
      CStrNulFree(table[i]);
    }
    forall i, j | 0 <= i < j < |table|
      ensures LexLess(table[i], table[j])
    {
      EncodePreservesOrder(words[i], words[j]);
    }
  }

  /** std::lower_bound with strcmp, then the equality test: membership of the C string. */
  method IsEligibleReading(table: seq<Bytes>, reading: Bytes, ghost words: seq<U32>) returns (r: bool)
    requires EligibleTable(words, table)
    ensures r <==> CStr(reading) in table
  {
    TableSorted(words, table);
    hide EligibleTable, CStr, LexLess;
    ghost var key := CStr(reading);
    var first: nat, len: nat := 0, |table|;
    while len > 0
      invariant first + len <= |table|
      invariant forall k :: 0 <= k < first ==> LexLess(table[k], key)
      invariant forall k :: first + len <= k < |table| ==> !LexLess(table[k], key)
    {
      var half := len / 2;
      var mid := first + half;
      if StrcmpLess(table[mid], reading) {
        forall k | 0 <= k < mid
          ensures LexLess(table[k], key)
        {
          LexTransitive(table[k], table[mid], key);
        }
        first := mid + 1;
        len := len - half - 1;
      } else {
        forall k | mid < k < |table|
          ensures !LexLess(table[k], key)
        {
          if LexLess(table[k], key) {
            LexTransitive(table[mid], table[k], key);
          }
        }
        len := half;
      }
    }
    r := first != |table| && CStr(table[first]) == CStr(reading);
    if key in table {
      var k :| 0 <= k < |table| && table[k] == key;
      LexIrreflexive(key);
      assert first <= k;
    }
  }

  /** Table membership of the reading itself, except when a NUL hides the rest of an eligible word. */
  lemma EligibilityExact(words: seq<U32>, table: seq<Bytes>, reading: Bytes)
    requires EligibleTable(words, table)
    ensures (CStr(reading) in table <==> reading in table) <==> NulFree(reading) || CStr(reading) !in table
  {
    TableSorted(words, table);
    CStrNulFree(reading);
    forall k | 0 <= k < |table|
      ensures NulFree(table[k])
    {
      CStrNulFree(table[k]);
    }
    hide EligibleTable, CStr;
  }

  // ----- the decision -----

  datatype Skip = NoSkip | ReadingTooShort | ContextHasNoWords | ReadingNotEligible

  /** The environment switches and the table. */
  datatype Mode = Mode(enabled: bool, strict: bool, table: seq<Bytes>)

  ghost function SkipReason(g: Mode, reading: Bytes, context: Bytes): Skip {
    if !g.enabled then NoSkip
    else if |Cps(reading)| <= 2 then ReadingTooShort
    else if !Any(Cps(context), IsLinguistic) then ContextHasNoWords
    else if g.strict && CStr(reading) !in g.table then ReadingNotEligible
    else NoSkip
  }

  method RerankSkipReason(g: Mode, reading: Bytes, context: Bytes, ghost words: seq<U32>) returns (r: Skip)
    requires EligibleTable(words, g.table)
    ensures r == SkipReason(g, reading, context)
  {
    hide Cps, CStr, Any, EligibleTable;
    if !g.enabled {
      return NoSkip;
    }
    var n := Utf8CodepointLength(reading);
    if reading == [] || n <= 2 {
      CpsEmpty(reading);
      return ReadingTooShort;
    }
    var symbol := ContextEmptyOrSymbol(context);
    if symbol {
      return ContextHasNoWords;
    }
    if g.strict {
      var eligible := IsEligibleReading(g.table, reading, words);
      if !eligible {
        return ReadingNotEligible;
      }
    }
    return NoSkip;
  }

  lemma CpsEmpty(b: Bytes)
    ensures b == [] <==> Cps(b) == []
  {
  }

  /** With the guard on, an empty context always skips. */
  lemma EmptyContextSkips(g: Mode, reading: Bytes)
    requires g.enabled
    ensures SkipReason(g, reading, []) != NoSkip
  {
    assert Cps([]) == [];
  }

  lemma TableHas(words: seq<U32>, table: seq<Bytes>, w: U32)
    requires EligibleTable(words, table)
    ensures Encode(w) in table <==> w in words
  {
    hide Encode, Decode;
    if Encode(w) in table {
      var k :| 0 <= k < |table| && table[k] == Encode(w);
      DecodeEncode(w);
      DecodeEncode(words[k]);
      assert words[k] == w;
    }
    if w in words {
      var k :| 0 <= k < |words| && words[k] == w;
      assert table[k] == Encode(w);
    }
  }

  lemma WholeReading(words: seq<U32>, table: seq<Bytes>, w: U32)
    requires EligibleTable(words, table) && NulFree(w)
    ensures CStr(Encode(w)) in table <==> w in words
  {
    hide *;
    EncodeNulFree(w);
    CStrNulFree(Encode(w));
    TableHas(words, table, w);
  }

  /**
   With the guard on, a reading is let through exactly when it has at least three characters, the context has
   a letter, kana or kanji, and, under the strict guard, the reading is one of the words of the table.
   */
  lemma LetThroughExactly(words: seq<U32>, g: Mode, w: U32, context: U32)
    requires EligibleTable(words, g.table) && g.enabled && NulFree(w)
    ensures SkipReason(g, Encode(w), Encode(context)) == NoSkip <==>
      |w| >= 3 && (exists k :: 0 <= k < |context| && IsLinguistic(context[k])) && (g.strict ==> w in words)
    ensures SkipReason(g, Encode(w), Encode(context)) == ReadingTooShort <==> |w| < 3
    ensures SkipReason(g, Encode(w), Encode(context)) == ContextHasNoWords <==>
      |w| >= 3 && forall k :: 0 <= k < |context| ==> !IsLinguistic(context[k])
  {
    hide EligibleTable, CStr, Encode, Cps, IsLinguistic;
    CpsEncode(w);
    CpsEncode(context);
    WholeReading(words, g.table, w);
  }
}
