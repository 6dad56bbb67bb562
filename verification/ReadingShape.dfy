/** What normalize_reading makes of a key, stated by the characters alone. */
module ReadingShape {
  import opened Text
  import opened Utf8
  import C = ContextClip
  import Daemon

  /** What NormalizeReading returns. */
  function Normalized(key: Bytes): Bytes { Encode(Map(C.NormalizeChar, Decode(key))) }

  predicate IsFullWidth(c: CodePoint) { 0xFF01 <= c <= 0xFF5E }
  predicate IsIdeographicSpace(c: CodePoint) { c == 0x3000 }
  /** Small a to small ke: the katakana that have a hiragana 0x60 below. */
  predicate IsFoldable(c: CodePoint) { 0x30A1 <= c <= 0x30F6 }
  predicate IsHiraganaOrAscii(c: CodePoint) { 0x3041 <= c <= 0x3096 || c < 0x80 }

  /** The characters that a normalised reading does not have. */
  predicate IsVariant(c: CodePoint) { IsFullWidth(c) || IsIdeographicSpace(c) || IsFoldable(c) }

  lemma NormalizedText(s: U32)
    ensures Normalized(Encode(s)) == Encode(Map(C.NormalizeChar, s))
  {
    DecodeEncode(s);
    hide Encode, Decode, Map;
  }

  /** Character by character, on any bytes. */
  lemma CharByChar(key: Bytes)
    ensures var s, t := Decode(key), Decode(Normalized(key));
      && |t| == |s|
      && forall k :: 0 <= k < |s| ==>
           && (IsFullWidth(s[k]) ==> t[k] == s[k] - 0xFEE0 && 0x21 <= t[k] <= 0x7E)
           && (IsIdeographicSpace(s[k]) ==> t[k] == 0x20)
           && (IsFoldable(s[k]) ==> t[k] == s[k] - 0x60 && 0x3041 <= t[k] <= 0x3096)
           && (!IsVariant(s[k]) ==> t[k] == s[k])
  {
    DecodeEncode(Map(C.NormalizeChar, Decode(key)));
    hide Encode, Decode;
  }

  /** No variant is left. */
  lemma NoVariantLeft(key: Bytes)
    ensures var t := Decode(Normalized(key)); forall k :: 0 <= k < |t| ==> !IsVariant(t[k])
  {
    CharByChar(key);
    hide Encode, Decode, Normalized;
  }

  /** A text comes back unchanged exactly when it has no variant. */
  lemma StaysExactly(s: U32)
    ensures Normalized(Encode(s)) == Encode(s) <==> forall k :: 0 <= k < |s| ==> !IsVariant(s[k])
  {
    CharByChar(Encode(s));
    DecodeEncode(s);
    NormalizedText(s);
    var t := Map(C.NormalizeChar, s);
    hide Encode, Decode, Normalized, Map;
    DecodeEncode(t);
    if forall k :: 0 <= k < |s| ==> !IsVariant(s[k]) {
      assert t == s;
    }
    if exists k :: 0 <= k < |s| && IsVariant(s[k]) {
      var k :| 0 <= k < |s| && IsVariant(s[k]);
      assert t[k] != s[k];
    }
  }

  /** An ordinary reading, hiragana and ASCII, is its own normal form. */
  lemma HiraganaStays(s: U32)
    requires forall k :: 0 <= k < |s| ==> IsHiraganaOrAscii(s[k])
    ensures Normalized(Encode(s)) == Encode(s)
  {
    StaysExactly(s);
    hide Encode, Normalized;
  }

  /** Katakana becomes the hiragana of the same sounds. */
  lemma KatakanaFolds(katakana: U32, hiragana: U32)
    requires |hiragana| == |katakana|
    requires forall k :: 0 <= k < |katakana| ==> IsFoldable(katakana[k]) && hiragana[k] == katakana[k] - 0x60
    ensures Normalized(Encode(katakana)) == Encode(hiragana)
  {
    NormalizedText(katakana);
    CharByChar(Encode(katakana));
    DecodeEncode(katakana);
    hide Encode, Decode, Normalized, Map;
    DecodeEncode(Map(C.NormalizeChar, katakana));
    assert Map(C.NormalizeChar, katakana) == hiragana;
  }

  /** The daemon shifts katakana as well; in what the client sends there is nothing to shift. */
  lemma NothingToShift(key: Bytes)
    ensures Map(Daemon.KanaShift, Decode(Normalized(key))) == Decode(Normalized(key))
  {
    NoVariantLeft(key);
    hide Encode, Decode, Normalized;
  }

  /** Apart from what NFKC does for it, the daemon's step is the client's. */
  lemma ShiftIsNormalisation(c: CodePoint)
    requires !IsFullWidth(c) && !IsIdeographicSpace(c)
    ensures Daemon.KanaShift(c) == C.NormalizeChar(c)
  {
  }
}
