/**
 JSON strings on the wire. A byte string is a Dafny string; EscapeJson is the printer of
 mozc_compat/rerank_rewriter.cc, and the reader below follows the grammar of RFC 8259
 (without numbers, which no request contains).
 */
module Json {
  import opened Text
  import Utf8

  const BACKSPACE: char := 8 as char
  const FORM_FEED: char := 12 as char

  // ----- the printer -----

  function HexDigit(n: nat): char
    requires n < 16
  {
    "0123456789abcdef"[n]
  }

  function EscapeChar(c: char): (e: string) {
    if c == '"' then ['\\', '"']
    else if c == '\\' then ['\\', '\\']
    else if c == BACKSPACE then ['\\', 'b']
    else if c == FORM_FEED then ['\\', 'f']
    else if c == '\n' then ['\\', 'n']
    else if c == '\r' then ['\\', 'r']
    else if c == '\t' then ['\\', 't']
    else if c < ' ' then ['\\', 'u', '0', '0', HexDigit(c as int / 16), HexDigit(c as int % 16)]
    else [c]
  }

  function Escape(s: string): string {
    if s == "" then "" else EscapeChar(s[0]) + Escape(s[1..])
  }

  lemma {:induction false} EscapeAppend(a: string, b: string)
    ensures Escape(a + b) == Escape(a) + Escape(b)
  {
    if a == "" {
      assert a + b == b;
    } else {
      assert (a + b)[1..] == a[1..] + b;
      EscapeAppend(a[1..], b);
      hide EscapeChar;
    }
  }

  lemma EscapeStep(s: string, i: nat, out: string)
    requires i < |s|
    ensures out + Escape(s[i..]) == out + EscapeChar(s[i]) + Escape(s[i + 1..])
  {
    assert s[i..][1..] == s[i + 1..];
    hide EscapeChar;
  }

  method EscapeJson(s: string) returns (out: string)
    ensures out == Escape(s)
  {
    hide Escape;
    out := "";
    EscapeEnd(s);
    for i := 0 to |s|
      invariant out + Escape(s[i..]) == Escape(s)
    {
      EscapeStep(s, i, out);
      var c := s[i];
      if c == '"' {
        out := out + ['\\', '"'];
      } else if c == '\\' {
        out := out + ['\\', '\\'];
      } else if c == BACKSPACE {
        out := out + ['\\', 'b'];
      } else if c == FORM_FEED {
        out := out + ['\\', 'f'];
      } else if c == '\n' {
        out := out + ['\\', 'n'];
      } else if c == '\r' {
        out := out + ['\\', 'r'];
      } else if c == '\t' {
        out := out + ['\\', 't'];
      } else if c < ' ' {
        out := out + ['\\', 'u', '0', '0', HexDigit(c as int / 16), HexDigit(c as int % 16)];
      } else {
        out := out + [c];
      }
    }
  }

  lemma EscapeEnd(s: string)
    ensures Escape(s[|s|..]) == "" && s[0..] == s
  {
  }

  /** Nothing to escape. */
  predicate PlainChar(c: char) { c >= ' ' && c != '"' && c != '\\' }

  ghost predicate PlainText(s: string) { forall k :: 0 <= k < |s| ==> PlainChar(s[k]) }

  lemma {:induction false} EscapePlain(s: string)
    requires PlainText(s)
    ensures Escape(s) == s
  {
    if s != "" {
      EscapePlain(s[1..]);
      assert PlainChar(s[0]);
    }
  }

  /** No control character leaves the printer, so no newline does. */
  lemma {:induction false} EscapeHasNoControl(s: string)
    ensures forall k :: 0 <= k < |Escape(s)| ==> Escape(s)[k] >= ' '
  {
    if s != "" {
      EscapeHasNoControl(s[1..]);
      assert forall k :: 0 <= k < |EscapeChar(s[0])| ==> EscapeChar(s[0])[k] >= ' ';
      hide EscapeChar;
    }
  }

  function Quoted(s: string): string { "\"" + Escape(s) + "\"" }

  // ----- the reader: section 7 of RFC 8259 -----

  datatype Parsed<+T> = Parsed(value: T, rest: string)

  function HexValue(c: char): Option<nat> {
    if '0' <= c <= '9' then Some(c as int - '0' as int)
    else if 'a' <= c <= 'f' then Some(c as int - 'a' as int + 10)
    else if 'A' <= c <= 'F' then Some(c as int - 'A' as int + 10)
    else None
  }

  /** The four hexadecimal digits at the head of s. */
  function Hex4(s: string): (v: Option<nat>)
    ensures v.Some? ==> |s| >= 4 && v.value < 0x10000
  {
    if |s| < 4 then None
    else
      match (HexValue(s[0]), HexValue(s[1]), HexValue(s[2]), HexValue(s[3]))
      case (Some(a), Some(b), Some(c), Some(d)) =>
        if a < 16 && b < 16 && c < 16 && d < 16 then Some(a * 4096 + b * 256 + c * 16 + d) else None
      case _ => None
  }

  /** The octets of one code point. */
  function EncodedChars(cp: CodePoint): string {
    var e := Utf8.EncodeOne(cp);
    seq(|e|, i requires 0 <= i < |e| => e[i] as char)
  }

  /** What a \u escape denotes: one code unit, or a surrogate pair; s stands behind the `u`. */
  function UnicodeEscape(s: string): (p: Option<Parsed<string>>)
    ensures p.Some? ==> |p.value.rest| < |s|
  {
    var high := Hex4(s);
    if high.None? then None
    else if high.value < 0xD800 || high.value >= 0xE000 then Some(Parsed(EncodedChars(high.value), s[4..]))
    else if high.value < 0xDC00 && |s| >= 10 && s[4] == '\\' && s[5] == 'u' && Hex4(s[6..]).Some?
         && 0xDC00 <= Hex4(s[6..]).value < 0xE000 then
      Some(Parsed(EncodedChars(0x10000 + (high.value - 0xD800) * 0x400 + (Hex4(s[6..]).value - 0xDC00)), s[10..]))
    else None
  }

  function SimpleEscape(e: char): Option<char> {
    if e == '"' || e == '\\' || e == '/' then Some(e)
    else if e == 'b' then Some(BACKSPACE)
    else if e == 'f' then Some(FORM_FEED)
    else if e == 'n' then Some('\n')
    else if e == 'r' then Some('\r')
    else if e == 't' then Some('\t')
    else None
  }

  /** The rest of a string literal, behind its opening quotation mark. */
  function ParseString(s: string): (p: Option<Parsed<string>>)
    ensures p.Some? ==> |p.value.rest| < |s|
  {
    if s == "" || s[0] < ' ' then None
    else if s[0] == '"' then Some(Parsed("", s[1..]))
    else if s[0] != '\\' then
      var more := ParseString(s[1..]);
      if more.None? then None else Some(Parsed([s[0]] + more.value.value, more.value.rest))
    else if |s| < 2 then None
    else if s[1] == 'u' then
      var u := UnicodeEscape(s[2..]);
      if u.None? then None
      else
        var more := ParseString(u.value.rest);
        if more.None? then None else Some(Parsed(u.value.value + more.value.value, more.value.rest))
    else
      var e := SimpleEscape(s[1]);
      if e.None? then None
      else
        var more := ParseString(s[2..]);
        if more.None? then None else Some(Parsed([e.value] + more.value.value, more.value.rest))
  }

  lemma ControlEscape(c: char, rest: string)
    requires c < ' '
    ensures UnicodeEscape(['0', '0', HexDigit(c as int / 16), HexDigit(c as int % 16)] + rest)
      == Some(Parsed([c], rest))
  {
    var n := c as int;
    var s := ['0', '0', HexDigit(n / 16), HexDigit(n % 16)] + rest;
    assert HexValue(HexDigit(n / 16)) == Some(n / 16) && HexValue(HexDigit(n % 16)) == Some(n % 16);
    assert HexValue('0') == Some(0);
    assert Hex4(s) == Some(n);
    assert Utf8.EncodeOne(n) == [n];
    assert EncodedChars(n) == [c];
    assert s[4..] == rest;
  }

  lemma ParseEscapedChar(c: char, t: string)
    requires ParseString(t).Some?
    ensures ParseString(EscapeChar(c) + t) == Some(Parsed([c] + ParseString(t).value.value, ParseString(t).value.rest))
  {
    var s := EscapeChar(c) + t;
    if |EscapeChar(c)| == 1 {
      assert s[1..] == t;
    } else if |EscapeChar(c)| == 2 {
      assert s[2..] == t;
      assert SimpleEscape(s[1]) == Some(c);
    } else {
      var u := ['0', '0', HexDigit(c as int / 16), HexDigit(c as int % 16)] + t;
      assert s[2..] == u;
      ControlEscape(c, t);
    }
    hide HexDigit, EncodedChars, Hex4;
  }

  /** Reading back what the printer wrote, for every byte string. */
  lemma {:induction false} ParseEscaped(s: string, rest: string)
    ensures ParseString(Escape(s) + "\"" + rest) == Some(Parsed(s, rest))
  {
    if s == "" {
      assert Escape(s) + "\"" + rest == ['"'] + rest;
    } else {
      var t := Escape(s[1..]) + "\"" + rest;
      ParseEscaped(s[1..], rest);
      assert Escape(s) + "\"" + rest == EscapeChar(s[0]) + t;
      hide *;
      ParseEscapedChar(s[0], t);
      assert s == [s[0]] + s[1..];
    }
  }

  // ----- values -----

  datatype Value =
    | String(s: string)
    | Array(items: seq<Value>)
    | Object(members: seq<(string, Value)>)
    | True
    | False
    | Null

  predicate IsWhite(c: char) { c == ' ' || c == '\t' || c == '\n' || c == '\r' }

  function SkipWhite(s: string): (r: string)
    ensures |r| <= |s| && (r != "" ==> !IsWhite(r[0]))
  {
    if s == "" || !IsWhite(s[0]) then s else SkipWhite(s[1..])
  }

  predicate StartsWith(s: string, prefix: string) { |prefix| <= |s| && s[..|prefix|] == prefix }

  function ParseValue(s: string): (p: Option<Parsed<Value>>)
    ensures p.Some? ==> |p.value.rest| < |s|
    decreases |s|, 0
  {
    var t := SkipWhite(s);
    if t == "" then None
    else if t[0] == '"' then
      var p := ParseString(t[1..]);
      if p.None? then None else Some(Parsed(String(p.value.value), p.value.rest))
    else if t[0] == '[' then
      var u := SkipWhite(t[1..]);
      if u != "" && u[0] == ']' then Some(Parsed(Array([]), u[1..]))
      else
        var p := ParseElements(t[1..]);
        if p.None? then None else Some(Parsed(Array(p.value.value), p.value.rest))
    else if t[0] == '{' then
      var u := SkipWhite(t[1..]);
      if u != "" && u[0] == '}' then Some(Parsed(Object([]), u[1..]))
      else
        var p := ParseMembers(t[1..]);
        if p.None? then None else Some(Parsed(Object(p.value.value), p.value.rest))
    else if StartsWith(t, "true") then Some(Parsed(True, t[4..]))
    else if StartsWith(t, "false") then Some(Parsed(False, t[5..]))
    else if StartsWith(t, "null") then Some(Parsed(Null, t[4..]))
    else None
  }

  /** One or more elements and the closing bracket. */
  function ParseElements(s: string): (p: Option<Parsed<seq<Value>>>)
    ensures p.Some? ==> |p.value.rest| < |s|
    decreases |s|, 1
  {
    var v := ParseValue(s);
    if v.None? then None
    else
      var t := SkipWhite(v.value.rest);
      if t != "" && t[0] == ']' then Some(Parsed([v.value.value], t[1..]))
      else if t != "" && t[0] == ',' then
        var more := ParseElements(t[1..]);
        if more.None? then None else Some(Parsed([v.value.value] + more.value.value, more.value.rest))
      else None
  }

  /** One or more members and the closing brace. */
  function ParseMembers(s: string): (p: Option<Parsed<seq<(string, Value)>>>)
    ensures p.Some? ==> |p.value.rest| < |s|
    decreases |s|, 1
  {
    var t := SkipWhite(s);
    if t == "" || t[0] != '"' then None
    else
      var key := ParseString(t[1..]);
      if key.None? then None
      else
        var u := SkipWhite(key.value.rest);
        if u == "" || u[0] != ':' then None
        else
          var v := ParseValue(u[1..]);
          if v.None? then None
          else
            var w := SkipWhite(v.value.rest);
            var m := (key.value.value, v.value.value);
            if w != "" && w[0] == '}' then Some(Parsed([m], w[1..]))
            else if w != "" && w[0] == ',' then
              var more := ParseMembers(w[1..]);
              if more.None? then None else Some(Parsed([m] + more.value.value, more.value.rest))
            else None
  }

  /** A JSON text: one value and white space. */
  function ParseText(s: string): Option<Value> {
    var p := ParseValue(s);
    if p.Some? && SkipWhite(p.value.rest) == "" then Some(p.value.value) else None
  }

  lemma ParseQuoted(s: string, rest: string)
    ensures ParseValue(Quoted(s) + rest) == Some(Parsed(String(s), rest))
  {
    hide ParseString, Escape;
    ParseEscaped(s, rest);
    var t := Quoted(s) + rest;
    assert t[1..] == Escape(s) + "\"" + rest;
  }

  /** One member, and what follows it. */
  lemma ParseMember(key: string, text: string, v: Value, rest: string)
    requires ParseValue(text + rest) == Some(Parsed(v, rest))
    requires rest != "" && (rest[0] == '}' || rest[0] == ',')
    ensures var s := Quoted(key) + ":" + text + rest;
      ParseMembers(s) ==
        if rest[0] == '}' then Some(Parsed([(key, v)], rest[1..]))
        else
          (match ParseMembers(rest[1..])
           case None => None
           case Some(more) => Some(Parsed([(key, v)] + more.value, more.rest)))
  {
    hide ParseString, Escape, ParseValue, SkipWhite;
    var s := Quoted(key) + ":" + text + rest;
    var u := ":" + text + rest;
    ParseEscaped(key, u);
    assert s[1..] == Escape(key) + "\"" + u;
    assert u[1..] == text + rest;
    NoWhite(s);
    NoWhite(u);
    NoWhite(rest);
  }

  lemma NoWhite(s: string)
    ensures s != "" && !IsWhite(s[0]) ==> SkipWhite(s) == s
  {
  }
}
