/** The hand-written UTF-8 decoder and encoder of mozc_compat/context_clip.cc. */
module Utf8 {
  import opened Text

  /** One decoded character and the number of octets it took. */
  datatype Unit = Unit(cp: CodePoint, n: nat)

  // The payload bits of lead and continuation octets: c & 0x3F and its like.
  function Low3(c: Byte): (r: int) ensures 0 <= r < 8 { c as int % 8 }
  function Low4(c: Byte): (r: int) ensures 0 <= r < 16 { c as int % 16 }
  function Low5(c: Byte): (r: int) ensures 0 <= r < 32 { c as int % 32 }
  function Low6(c: Byte): (r: int) ensures 0 <= r < 64 { c as int % 64 }

  /** What one round of the decoder does at the head of b; None is the one-octet skip. */
  function DecodeHead(b: Bytes): (u: Option<Unit>)
    requires b != []
    ensures u.Some? ==> 1 <= u.value.n <= |b|
  {
    var c := b[0];
    if c < 0x80 then Some(Unit(c, 1))
    else if 0xC0 <= c < 0xE0 && 1 < |b| then Some(Unit(Low5(c) * 64 + Low6(b[1]), 2))
    else if 0xE0 <= c < 0xF0 && 2 < |b| then
      Some(Unit(Low4(c) * 4096 + Low6(b[1]) * 64 + Low6(b[2]), 3))
    else if 0xF0 <= c < 0xF8 && 3 < |b| then
      Some(Unit(Low3(c) * 262144 + Low6(b[1]) * 4096 + Low6(b[2]) * 64 + Low6(b[3]), 4))
    else None
  }

  function Decode(b: Bytes): U32 {
    if b == [] then []
    else match DecodeHead(b)
      case Some(u) => [u.cp] + Decode(b[u.n..])
      case None => Decode(b[1..])
  }

  // cp >> 6k, and the six bits that a continuation octet carries.
  function Shift6(cp: CodePoint): (r: int) ensures 0 <= r && 64 * r <= cp < 64 * r + 64 { cp as int / 64 }
  function Shift12(cp: CodePoint): (r: int) ensures 0 <= r && 4096 * r <= cp < 4096 * r + 4096 { cp as int / 4096 }
  function Shift18(cp: CodePoint): (r: int)
    ensures 0 <= r && 262144 * r <= cp < 262144 * r + 262144
  { cp as int / 262144 }
  function Trail(v: int): (r: Byte) ensures 0x80 <= r < 0xC0 { 0x80 + v % 64 }

  function EncodeOne(cp: CodePoint): (e: Bytes)
    ensures 1 <= |e| <= 4
  {
    if cp < 0x80 then [cp]
    else if cp < 0x800 then [0xC0 + Shift6(cp), Trail(cp)]
    else if cp < 0x10000 then [0xE0 + Shift12(cp), Trail(Shift6(cp)), Trail(cp)]
    else [0xF0 + Shift18(cp), Trail(Shift12(cp)), Trail(Shift6(cp)), Trail(cp)]
  }

  function Encode(s: U32): Bytes {
    if s == [] then [] else EncodeOne(s[0]) + Encode(s[1..])
  }

  lemma DecodeGot(b: Bytes, p: nat, u: Unit, out: U32)
    requires p < |b| && DecodeHead(b[p..]) == Some(u)
    ensures p + u.n <= |b| && out + [u.cp] + Decode(b[p + u.n..]) == out + Decode(b[p..])
  {
    hide DecodeHead;
    assert b[p..][u.n..] == b[p + u.n..];
    assert Decode(b[p..]) == [u.cp] + Decode(b[p + u.n..]);
    hide *;
  }

  lemma DecodeSkip(b: Bytes, p: nat)
    requires p < |b| && DecodeHead(b[p..]) == None
    ensures Decode(b[p + 1..]) == Decode(b[p..])
  {
    hide DecodeHead;
    assert b[p..][1..] == b[p + 1..];
  }

  method Utf8ToU32(b: Bytes) returns (out: U32)
    ensures out == Decode(b)
  {
    hide Decode, Low3, Low4, Low5, Low6;
    out := [];
    var p := 0;
    while p < |b|
      invariant p <= |b|
      invariant out + Decode(b[p..]) == Decode(b)
    {
      var c := b[p];
      var cp: CodePoint;
      var n: nat;
      if c < 0x80 {
        cp, n := c, 1;
      } else if 0xC0 <= c < 0xE0 && p + 1 < |b| {
        cp, n := Low5(c) * 64 + Low6(b[p + 1]), 2;
      } else if 0xE0 <= c < 0xF0 && p + 2 < |b| {
        cp, n := Low4(c) * 4096 + Low6(b[p + 1]) * 64 + Low6(b[p + 2]), 3;
      } else if 0xF0 <= c < 0xF8 && p + 3 < |b| {
        cp := Low3(c) * 262144 + Low6(b[p + 1]) * 4096 + Low6(b[p + 2]) * 64 + Low6(b[p + 3]);
        n := 4;
      } else {
        DecodeSkip(b, p);
        p := p + 1;
        continue;
      }
      assert DecodeHead(b[p..]) == Some(Unit(cp, n));
      DecodeGot(b, p, Unit(cp, n), out);
      p := p + n;
      out := out + [cp];
    }
    DecodeEnd(b, out);
  }

  lemma DecodeEnd(b: Bytes, out: U32)
    ensures out + Decode(b[|b|..]) == out
  {
  }

  method U32ToUtf8(s: U32) returns (out: Bytes)
    ensures out == Encode(s)
  {
    hide Shift6, Shift12, Shift18, Trail;
    out := [];
    for i := 0 to |s|
      invariant out + Encode(s[i..]) == Encode(s)
    {
      var cp := s[i];
      EncodeStep(s, i, out);
      ghost var before := out;
      if cp < 0x80 {
        out := out + [cp];
      } else if cp < 0x800 {
        out := out + [0xC0 + Shift6(cp), Trail(cp)];
      } else if cp < 0x10000 {
        out := out + [0xE0 + Shift12(cp), Trail(Shift6(cp)), Trail(cp)];
      } else {
        out := out + [0xF0 + Shift18(cp), Trail(Shift12(cp)), Trail(Shift6(cp)), Trail(cp)];
      }
      assert out == before + EncodeOne(cp);
    }
  }

  lemma EncodeStep(s: U32, i: nat, before: Bytes)
    requires i < |s|
    ensures before + EncodeOne(s[i]) + Encode(s[i + 1..]) == before + Encode(s[i..])
  {
    assert s[i..][1..] == s[i + 1..];
    assert Encode(s[i..]) == EncodeOne(s[i]) + Encode(s[i + 1..]);
    hide *;
  }

  // ----- round trips -----

  /** The trailing octets and the shifted lead bits make up the character again. */
  lemma TrailRebuilds(cp: CodePoint)
    ensures 64 * Shift6(cp) + Low6(Trail(cp)) == cp
    ensures 4096 * Shift12(cp) + 64 * Low6(Trail(Shift6(cp))) + Low6(Trail(cp)) == cp
    ensures 262144 * Shift18(cp) + 4096 * Low6(Trail(Shift12(cp))) + 64 * Low6(Trail(Shift6(cp))) + Low6(Trail(cp))
      == cp
  {
    assert Low6(Trail(cp)) == cp as int % 64;
    assert Low6(Trail(Shift6(cp))) == Shift6(cp) % 64;
    assert Low6(Trail(Shift12(cp))) == Shift12(cp) % 64;
    assert Shift12(cp) == Shift6(cp) / 64;
    assert Shift18(cp) == Shift12(cp) / 64;
  }

  lemma OctetsAsDigits(cp: CodePoint)
    ensures cp == 64 * Shift6(cp) + (Trail(cp) - 0x80)
    ensures cp == 4096 * Shift12(cp) + 64 * (Trail(Shift6(cp)) - 0x80) + (Trail(cp) - 0x80)
    ensures cp == 262144 * Shift18(cp) + 4096 * (Trail(Shift12(cp)) - 0x80) + 64 * (Trail(Shift6(cp)) - 0x80)
      + (Trail(cp) - 0x80)
  {
    TrailRebuilds(cp);
  }

  lemma DecodeHeadOfEncoded(cp: CodePoint, rest: Bytes)
    ensures DecodeHead(EncodeOne(cp) + rest) == Some(Unit(cp, |EncodeOne(cp)|))
  {
    TrailRebuilds(cp);
    LeadPayload(cp);
    hide Low3, Low4, Low5, Low6, Shift6, Shift12, Shift18, Trail;
    var e := EncodeOne(cp);
    var b := e + rest;
    assert forall k :: 0 <= k < |e| ==> b[k] == e[k];
  }

  lemma LeadPayload(cp: CodePoint)
    ensures cp < 0x800 ==> Low5(0xC0 + Shift6(cp)) == Shift6(cp)
    ensures cp < 0x10000 ==> Low4(0xE0 + Shift12(cp)) == Shift12(cp)
    ensures Low3(0xF0 + Shift18(cp)) == Shift18(cp)
  {
  }

  lemma {:induction false} DecodeEncode(s: U32)
    ensures Decode(Encode(s)) == s
  {
    if s != [] {
      DecodeHeadOfEncoded(s[0], Encode(s[1..]));
      assert Encode(s)[|EncodeOne(s[0])|..] == Encode(s[1..]);
      DecodeEncode(s[1..]);
    }
  }

  predicate Continuation(b: Byte) { 0x80 <= b < 0xC0 }

  /** Length of the shortest-form unit at the head of b (any value below 0x200000), or 0. */
  function CanonicalUnit(b: Bytes): (n: nat)
    requires b != []
    ensures n <= |b|
  {
    if b[0] < 0x80 then 1
    else if 0xC2 <= b[0] < 0xE0 && 1 < |b| && Continuation(b[1]) then 2
    else if 0xE0 <= b[0] < 0xF0 && 2 < |b| && Continuation(b[1]) && Continuation(b[2])
         && (b[0] == 0xE0 ==> 0xA0 <= b[1]) then 3
    else if 0xF0 <= b[0] < 0xF8 && 3 < |b| && Continuation(b[1]) && Continuation(b[2]) && Continuation(b[3])
         && (b[0] == 0xF0 ==> 0x90 <= b[1]) then 4
    else 0
  }

  predicate Canonical(b: Bytes) {
    b == [] || (CanonicalUnit(b) > 0 && Canonical(b[CanonicalUnit(b)..]))
  }

  /** Length of the UTF8-char of section 4 of RFC 3629 at the head of b, or 0. */
  function Rfc3629Unit(b: Bytes): (n: nat)
    requires b != []
    ensures n <= |b|
  {
    if b[0] <= 0x7F then 1
    else if 0xC2 <= b[0] <= 0xDF && 1 < |b| && Continuation(b[1]) then 2
    else if 2 < |b| && Continuation(b[2]) &&
         ((b[0] == 0xE0 && 0xA0 <= b[1] <= 0xBF) || (0xE1 <= b[0] <= 0xEC && Continuation(b[1])) ||
          (b[0] == 0xED && 0x80 <= b[1] <= 0x9F) || (0xEE <= b[0] <= 0xEF && Continuation(b[1]))) then 3
    else if 3 < |b| && Continuation(b[2]) && Continuation(b[3]) &&
         ((b[0] == 0xF0 && 0x90 <= b[1] <= 0xBF) || (0xF1 <= b[0] <= 0xF3 && Continuation(b[1])) ||
          (b[0] == 0xF4 && 0x80 <= b[1] <= 0x8F)) then 4
    else 0
  }

  predicate WellFormed(b: Bytes) {
    b == [] || (Rfc3629Unit(b) > 0 && WellFormed(b[Rfc3629Unit(b)..]))
  }

  lemma {:induction false} WellFormedIsCanonical(b: Bytes)
    requires WellFormed(b)
    ensures Canonical(b)
  {
    if b != [] {
      WellFormedIsCanonical(b[Rfc3629Unit(b)..]);
    }
  }

  lemma TwoOctets(b: Bytes)
    requires |b| > 1 && 0xC2 <= b[0] < 0xE0 && Continuation(b[1])
    ensures var cp := Low5(b[0]) * 64 + Low6(b[1]);
      0x80 <= cp < 0x800 && 0xC0 + Shift6(cp) == b[0] && Trail(cp) == b[1]
  {
  }

  lemma ThreeOctets(b: Bytes)
    requires |b| > 2 && 0xE0 <= b[0] < 0xF0 && Continuation(b[1]) && Continuation(b[2])
    requires b[0] == 0xE0 ==> 0xA0 <= b[1]
    ensures var cp := Low4(b[0]) * 4096 + Low6(b[1]) * 64 + Low6(b[2]);
      && 0x800 <= cp < 0x10000 && 0xE0 + Shift12(cp) == b[0]
      && Trail(Shift6(cp)) == b[1] && Trail(cp) == b[2]
  {
    var cp := Low4(b[0]) * 4096 + Low6(b[1]) * 64 + Low6(b[2]);
    var hi := Low4(b[0]) * 64 + Low6(b[1]);
    assert cp == 64 * hi + Low6(b[2]);
    assert Shift6(cp) == hi;
  }

  lemma FourOctets(b: Bytes)
    requires |b| > 3 && 0xF0 <= b[0] < 0xF8 && Continuation(b[1]) && Continuation(b[2]) && Continuation(b[3])
    requires b[0] == 0xF0 ==> 0x90 <= b[1]
    ensures var cp := Low3(b[0]) * 262144 + Low6(b[1]) * 4096 + Low6(b[2]) * 64 + Low6(b[3]);
      && 0x10000 <= cp < 0x200000 && 0xF0 + Shift18(cp) == b[0]
      && Trail(Shift12(cp)) == b[1] && Trail(Shift6(cp)) == b[2] && Trail(cp) == b[3]
  {
    var cp := Low3(b[0]) * 262144 + Low6(b[1]) * 4096 + Low6(b[2]) * 64 + Low6(b[3]);
    var mid := Low3(b[0]) * 64 + Low6(b[1]);
    PayloadOf(b[0], b[1]);
    PayloadOf(b[0], b[2]);
    PayloadOf(b[0], b[3]);
    ShiftTwice(cp);
    hide Low3, Low6, Shift12, Shift18, Continuation;
    Digits(mid * 64 + Low6(b[2]), Low6(b[3]));
    Digits(mid, Low6(b[2]));
    Digits(Low3(b[0]), Low6(b[1]));
  }

  lemma PayloadOf(lead: Byte, trail: Byte)
    ensures 0xF0 <= lead < 0xF8 ==> lead == 0xF0 + Low3(lead)
    ensures Continuation(trail) ==> trail == 0x80 + Low6(trail)
  {
  }

  lemma Digits(hi: int, lo: int)
    requires 0 <= hi && 0 <= lo < 64
    ensures (64 * hi + lo) / 64 == hi && (64 * hi + lo) % 64 == lo
  {
  }

  lemma ShiftTwice(cp: CodePoint)
    ensures Shift12(cp) == Shift6(cp) / 64 && Shift18(cp) == Shift12(cp) / 64
  {
  }

  lemma CanonicalUnitReencodes(b: Bytes)
    requires b != [] && CanonicalUnit(b) > 0
    ensures DecodeHead(b).Some? && DecodeHead(b).value.n == CanonicalUnit(b)
    ensures EncodeOne(DecodeHead(b).value.cp) == b[..CanonicalUnit(b)]
  {
    var n := CanonicalUnit(b);
    if n == 2 {
      TwoOctets(b);
    } else if n == 3 {
      ThreeOctets(b);
    } else if n == 4 {
      FourOctets(b);
    }
    hide Low3, Low4, Low5, Low6, Shift6, Shift12, Shift18, Trail;
  }

  lemma EncodedUnitIsCanonical(cp: CodePoint, rest: Bytes)
    ensures CanonicalUnit(EncodeOne(cp) + rest) == |EncodeOne(cp)|
  {
  }

  lemma {:induction false} EncodedIsCanonical(s: U32)
    ensures Canonical(Encode(s))
  {
    if s != [] {
      EncodedUnitIsCanonical(s[0], Encode(s[1..]));
      assert Encode(s)[|EncodeOne(s[0])|..] == Encode(s[1..]);
      EncodedIsCanonical(s[1..]);
    }
  }

  lemma EncodeCons(cp: CodePoint, s: U32)
    ensures Encode([cp] + s) == EncodeOne(cp) + Encode(s)
  {
    assert ([cp] + s)[1..] == s;
  }

  lemma {:induction false} CanonicalReencodes(b: Bytes)
    requires Canonical(b)
    ensures Encode(Decode(b)) == b
  {
    if b != [] {
      var n := CanonicalUnit(b);
      CanonicalUnitReencodes(b);
      var cp, rest := DecodeHead(b).value.cp, b[n..];
      assert Decode(b) == [cp] + Decode(rest);
      assert Canonical(rest);
      hide *;
      CanonicalReencodes(rest);
      EncodeCons(cp, Decode(rest));
      assert b == b[..n] + rest;
    }
  }

  /** Exactly the shortest-form strings survive decoding and encoding. */
  lemma EncodeDecodeExact(b: Bytes)
    ensures Encode(Decode(b)) == b <==> Canonical(b)
  {
    if Canonical(b) {
      CanonicalReencodes(b);
    }
    EncodedIsCanonical(Decode(b));
  }

  lemma EncodeDecodeWellFormed(b: Bytes)
    requires WellFormed(b)
    ensures Encode(Decode(b)) == b
  {
    WellFormedIsCanonical(b);
    CanonicalReencodes(b);
  }

  /** On arbitrary octets, repair is idempotent: a second pass changes nothing. */
  lemma RepairIdempotent(b: Bytes)
    ensures var once := Encode(Decode(b)); Encode(Decode(once)) == once && Decode(once) == Decode(b)
  {
    DecodeEncode(Decode(b));
  }

  // ----- order -----

  /** x and y first differ at k, where x is smaller. */
  ghost predicate SmallerAt(x: Bytes, y: Bytes, k: nat) {
    k < |x| && k < |y| && x[k] < y[k] && forall m :: 0 <= m < k ==> x[m] == y[m]
  }

  /** Two different characters: their encodings first differ where both still have octets. */
  lemma EncodeOneOrder(a: CodePoint, b: CodePoint) returns (k: nat)
    requires a < b
    ensures SmallerAt(EncodeOne(a), EncodeOne(b), k)
  {
    OctetsAsDigits(a);
    OctetsAsDigits(b);
    LeadOrder(a);
    LeadOrder(b);
    hide Shift6, Shift12, Shift18, Trail;
    var x, y := EncodeOne(a), EncodeOne(b);
    assert |x| <= |y| && x[0] <= y[0];
    assert x[0] == y[0] ==> |x| == |y| && |x| > 1;
    if x[0] < y[0] {
      k := 0;
    } else if x[1] < y[1] {
      k := 1;
    } else if x[2] < y[2] {
      k := 2;
    } else {
      k := 3;
    }
  }

  /** The lead octet grows with the length of the encoding. */
  lemma LeadOrder(cp: CodePoint)
    ensures 0x80 <= cp ==> 0xC2 <= EncodeOne(cp)[0]
    ensures cp < 0x800 ==> EncodeOne(cp)[0] < 0xE0
    ensures 0x800 <= cp ==> 0xE0 <= EncodeOne(cp)[0]
    ensures cp < 0x10000 ==> EncodeOne(cp)[0] < 0xF0
    ensures 0x10000 <= cp ==> 0xF0 <= EncodeOne(cp)[0]
  {
  }

  lemma {:induction false} EncodePreservesOrder(s: U32, t: U32)
    ensures LexLess(Encode(s), Encode(t)) <==> LexLess(s, t)
  {
    if s == [] || t == [] {
    } else if s[0] == t[0] {
      EncodePreservesOrder(s[1..], t[1..]);
      LexCommonPrefix(EncodeOne(s[0]), Encode(s[1..]), Encode(t[1..]));
    } else if s[0] < t[0] {
      EncodeOrderAtHead(s, t);
    } else {
      EncodeOrderAtHead(t, s);
    }
  }

  lemma EncodeOrderAtHead(s: U32, t: U32)
    requires s != [] && t != [] && s[0] < t[0]
    ensures LexLess(Encode(s), Encode(t)) && !LexLess(Encode(t), Encode(s))
  {
    var k := EncodeOneOrder(s[0], t[0]);
    var x, y := Encode(s), Encode(t);
    assert SmallerAt(x, y, k);
    hide Encode, LexLess;
    assert x[..k] == y[..k];
    LexAtDifference(x, y, k);
  }

  /** The decoder drops an octet that begins no unit, and nothing of the text behind it. */
  lemma StrayOctetDropped(c: Byte, s: U32)
    requires 0x80 <= c < 0xC0 || c >= 0xF8
    ensures Decode([c] + Encode(s)) == s
  {
    var b := [c] + Encode(s);
    DecodeEncode(s);
    assert b[1..] == Encode(s);
    assert DecodeHead(b) == None;
    hide Encode, DecodeHead;
  }
}
