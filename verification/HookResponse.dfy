/**
 Reading the daemon's answer: ExtractJsonString, ExtractJsonBool, ExtractJsonStringArray and
 ParseHookResponse of mozc_compat/rerank_rewriter.cc, against the compact JSON that the daemon
 writes (runtime/rerank_daemon.py).
 */
module HookResponse {
  import opened Text
  import opened Json
  import opened Find
  import opened Request

  // ----- what the extractors compute -----

  function Unescaped(e: char): char {
    if e == 'n' then '\n' else if e == 'r' then '\r' else if e == 't' then '\t' else e
  }

  /** The string behind an opening quotation mark; \b, \f and \u are not decoded. */
  function ScanString(s: string): Option<string> {
    if s == "" then None
    else if s[0] == '\\' then
      if |s| < 2 then None
      else
        var more := ScanString(s[2..]);
        if more.None? then None else Some([Unescaped(s[1])] + more.value)
    else if s[0] == '"' then Some("")
    else
      var more := ScanString(s[1..]);
      if more.None? then None else Some([s[0]] + more.value)
  }

  /** An array item behind its opening quotation mark; a backslash only protects the next byte. */
  function ScanItem(s: string): (p: Option<Parsed<string>>)
    ensures p.Some? ==> |p.value.rest| < |s|
  {
    if s == "" then None
    else if s[0] == '\\' then
      if |s| < 2 then None
      else
        var more := ScanItem(s[2..]);
        if more.None? then None else Some(Parsed([s[1]] + more.value.value, more.value.rest))
    else if s[0] == '"' then Some(Parsed("", s[1..]))
    else
      var more := ScanItem(s[1..]);
      if more.None? then None else Some(Parsed([s[0]] + more.value.value, more.value.rest))
  }

  predicate IsSeparator(c: char) { IsWhite(c) || c == ',' }

  function SkipSeparators(s: string): (r: string)
    ensures |r| <= |s| && (r != "" ==> !IsSeparator(r[0]))
  {
    if s == "" || !IsSeparator(s[0]) then s else SkipSeparators(s[1..])
  }

  /** The items found, and whether the closing bracket was. */
  datatype Scan = Scan(items: seq<string>, closed: bool)

  function ScanArray(s: string): Scan
    decreases |s|
  {
    var t := SkipSeparators(s);
    if t == "" then Scan([], false)
    else if t[0] == ']' then Scan([], true)
    else if t[0] != '"' then Scan([], false)
    else
      var item := ScanItem(t[1..]);
      if item.None? then Scan([], false)
      else
        var more := ScanArray(item.value.rest);
        Scan([item.value.value] + more.items, more.closed)
  }

  /** What stands behind the first `"key"` and the next occurrence of mark. */
  function Behind(json: string, key: string, mark: string): Option<string>
    requires |mark| == 1
  {
    match IndexFrom(json, Needle(key), 0)
    case None => None
    case Some(p) =>
      match IndexFrom(json, mark, p + |Needle(key)|)
      case None => None
      case Some(q) => Some(json[q + 1..])
  }

  function ExtractString(json: string, key: string): Option<string> {
    match Behind(json, key, ":")
    case None => None
    case Some(s) =>
      var t := SkipWhite(s);
      if t == "" || t[0] != '"' then None else ScanString(t[1..])
  }

  function ExtractBool(json: string, key: string): Option<bool> {
    match Behind(json, key, ":")
    case None => None
    case Some(s) =>
      var t := SkipWhite(s);
      if StartsWith(t, "true") then Some(true) else if StartsWith(t, "false") then Some(false) else None
  }

  function ExtractStringArray(json: string, key: string): Option<seq<string>> {
    match Behind(json, key, "[")
    case None => None
    case Some(s) =>
      var a := ScanArray(s);
      if a.closed || a.items != [] then Some(a.items) else None
  }

  function ParsedResponse(json: string): Option<HookResult<string>> {
    match ExtractStringArray(json, "ranked_surfaces")
    case None => None
    case Some(ranked) =>
      if ranked == [] then None
      else
        var rerankTop1 := ExtractString(json, "rerank_top1");
        var finalTop1 := ExtractString(json, "final_top1");
        var overwritten := ExtractBool(json, "overwritten");
        Some(HookResult(
          ranked,
          if rerankTop1.Some? then rerankTop1.value else "",
          if finalTop1.Some? && finalTop1.value != "" then finalTop1.value else ranked[0],
          overwritten.Some? && overwritten.value))
  }

  // ----- the code -----

  method FindString(s: string, t: string, from: nat) returns (r: Option<nat>)
    ensures r == IndexFrom(s, t, from)
  {
    var i := from;
    while i + |t| <= |s| && s[i..i + |t|] != t
      invariant from <= i && IndexFrom(s, t, i) == IndexFrom(s, t, from)
    {
      i := i + 1;
    }
    r := if i + |t| <= |s| then Some(i) else None;
  }

  lemma SkipWhiteStep(s: string, i: nat)
    requires i < |s| && IsWhite(s[i])
    ensures SkipWhite(s[i..]) == SkipWhite(s[i + 1..])
  {
    assert s[i..][1..] == s[i + 1..];
  }

  lemma ScanStringStep(s: string, i: nat, out: string)
    requires i < |s|
    ensures s[i] == '\\' && i + 1 == |s| ==> ScanString(s[i..]) == None
    ensures s[i] == '\\' && i + 1 < |s|
      ==> Prepend(out, ScanString(s[i..])) == Prepend(out + [Unescaped(s[i + 1])], ScanString(s[i + 2..]))
    ensures s[i] == '"' ==> ScanString(s[i..]) == Some("")
    ensures s[i] != '\\' && s[i] != '"'
      ==> Prepend(out, ScanString(s[i..])) == Prepend(out + [s[i]], ScanString(s[i + 1..]))
  {
    var t := s[i..];
    assert t[1..] == s[i + 1..];
    MoreOf(out, [s[i]], ScanString(s[i + 1..]));
    if i + 1 < |s| {
      assert t[2..] == s[i + 2..];
      MoreOf(out, [Unescaped(s[i + 1])], ScanString(s[i + 2..]));
    }
    hide Unescaped;
  }

  lemma MoreOf(out: string, x: string, r: Option<string>)
    ensures r.Some? ==> out + (x + r.value) == out + x + r.value
  {
  }

  function Prepend(out: string, r: Option<string>): Option<string> {
    if r.None? then None else Some(out + r.value)
  }

  lemma ScanStringEnd(s: string)
    ensures ScanString(s[|s|..]) == None && forall r: Option<string> :: Prepend("", r) == r
  {
    forall r: Option<string>
      ensures Prepend("", r) == r
    {
      if r.Some? {
        assert "" + r.value == r.value;
      }
    }
  }

  method ExtractJsonString(json: string, key: string) returns (value: Option<string>)
    ensures value == ExtractString(json, key)
  {
    hide ScanString, SkipWhite, IndexFrom, Prepend;
    var p := FindString(json, Needle(key), 0);
    if p.None? {
      return None;
    }
    var q := FindString(json, ":", p.value + |Needle(key)|);
    if q.None? {
      return None;
    }
    var pos := SkipWhites(json, q.value + 1);
    if pos >= |json| || json[pos] != '"' {
      return None;
    }
    pos := pos + 1;
    ghost var from := pos;
    var out := "";
    ScanStringEnd(json);
    while pos < |json|
      invariant from <= pos <= |json|
      invariant Prepend(out, ScanString(json[pos..])) == ScanString(json[from..])
    {
      ScanStringStep(json, pos, out);
      var c := json[pos];
      pos := pos + 1;
      if c == '\\' {
        if pos >= |json| {
          break;
        }
        var e := json[pos];
        pos := pos + 1;
        out := out + [if e == 'n' then '\n' else if e == 'r' then '\r' else if e == 't' then '\t' else e];
      } else if c == '"' {
        PrependNothing(out);
        return Some(out);
      } else {
        out := out + [c];
      }
    }
    PrependNone(out);
    return None;
  }

  lemma PrependNothing(out: string)
    ensures Prepend(out, Some("")) == Some(out)
  {
    assert out + "" == out;
  }

  lemma PrependNone(out: string)
    ensures Prepend(out, None) == None
  {
  }

  method SkipWhites(s: string, from: nat) returns (pos: nat)
    requires from <= |s|
    ensures from <= pos <= |s| && SkipWhite(s[from..]) == s[pos..]
  {
    pos := from;
    while pos < |s| && IsWhite(s[pos])
      invariant from <= pos <= |s| && SkipWhite(s[pos..]) == SkipWhite(s[from..])
    {
      SkipWhiteStep(s, pos);
      pos := pos + 1;
    }
  }

  method ExtractJsonBool(json: string, key: string) returns (value: Option<bool>)
    ensures value == ExtractBool(json, key)
  {
    hide SkipWhite, IndexFrom;
    var p := FindString(json, Needle(key), 0);
    if p.None? {
      return None;
    }
    var q := FindString(json, ":", p.value + |Needle(key)|);
    if q.None? {
      return None;
    }
    var pos := SkipWhites(json, q.value + 1);
    if StartsWith(json[pos..], "true") {
      return Some(true);
    }
    if StartsWith(json[pos..], "false") {
      return Some(false);
    }
    return None;
  }

  lemma ScanItemStep(s: string, i: nat, out: string)
    requires i < |s|
    ensures s[i] == '\\' && i + 1 == |s| ==> ScanItem(s[i..]) == None
    ensures s[i] == '\\' && i + 1 < |s|
      ==> Ahead(out, ScanItem(s[i..])) == Ahead(out + [s[i + 1]], ScanItem(s[i + 2..]))
    ensures s[i] == '"' ==> ScanItem(s[i..]) == Some(Parsed("", s[i + 1..]))
    ensures s[i] != '\\' && s[i] != '"' ==> Ahead(out, ScanItem(s[i..])) == Ahead(out + [s[i]], ScanItem(s[i + 1..]))
  {
    var t := s[i..];
    assert t[1..] == s[i + 1..];
    AheadOf(out, [s[i]], ScanItem(s[i + 1..]));
    if i + 1 < |s| {
      assert t[2..] == s[i + 2..];
      AheadOf(out, [s[i + 1]], ScanItem(s[i + 2..]));
    }
  }

  lemma AheadOf(out: string, x: string, r: Option<Parsed<string>>)
    ensures r.Some? ==> out + (x + r.value.value) == out + x + r.value.value
  {
  }

  function Ahead(out: string, r: Option<Parsed<string>>): Option<Parsed<string>> {
    if r.None? then None else Some(Parsed(out + r.value.value, r.value.rest))
  }

  lemma AheadFacts(s: string, out: string)
    ensures ScanItem(s[|s|..]) == None && Ahead(out, None) == None
    ensures forall rest: string :: Ahead(out, Some(Parsed("", rest))) == Some(Parsed(out, rest))
  {
    assert out + "" == out;
  }

  lemma AheadStart(r: Option<Parsed<string>>)
    ensures Ahead("", r) == r
  {
    if r.Some? {
      assert "" + r.value.value == r.value.value;
    }
  }

  /** One array item, from the byte behind its opening quotation mark. */
  method ReadItem(json: string, from: nat) returns (item: Option<string>, pos: nat)
    requires from <= |json|
    ensures from <= pos <= |json| && (item.Some? ==> from < pos)
    ensures ScanItem(json[from..]) == if item.Some? then Some(Parsed(item.value, json[pos..])) else None
    ensures item.None? ==> pos == |json|
  {
    hide ScanItem, Ahead;
    pos := from;
    var out := "";
    AheadStart(ScanItem(json[from..]));
    while pos < |json|
      invariant from <= pos <= |json|
      invariant Ahead(out, ScanItem(json[pos..])) == ScanItem(json[from..])
    {
      ScanItemStep(json, pos, out);
      AheadFacts(json, out);
      var c := json[pos];
      pos := pos + 1;
      if c == '\\' {
        if pos >= |json| {
          break;
        }
        out := out + [json[pos]];
        pos := pos + 1;
      } else if c == '"' {
        return Some(out), pos;
      } else {
        out := out + [c];
      }
    }
    AheadFacts(json, out);
    return None, pos;
  }

  method SkipSeparatorRun(s: string, from: nat) returns (pos: nat)
    requires from <= |s|
    ensures from <= pos <= |s| && SkipSeparators(s[from..]) == s[pos..]
  {
    pos := from;
    while pos < |s| && IsSeparator(s[pos])
      invariant from <= pos <= |s| && SkipSeparators(s[pos..]) == SkipSeparators(s[from..])
    {
      assert s[pos..][1..] == s[pos + 1..];
      pos := pos + 1;
    }
  }

  /** More items in front. */
  function WithItems(values: seq<string>, a: Scan): Scan { Scan(values + a.items, a.closed) }

  lemma ScanArrayStep(s: string, from: nat, pos: nat, values: seq<string>)
    requires from <= pos <= |s| && SkipSeparators(s[from..]) == s[pos..]
    ensures pos == |s| ==> WithItems(values, ScanArray(s[from..])) == Scan(values, false)
    ensures pos < |s| && s[pos] == ']' ==> WithItems(values, ScanArray(s[from..])) == Scan(values, true)
    ensures pos < |s| && s[pos] != ']' && s[pos] != '"'
      ==> WithItems(values, ScanArray(s[from..])) == Scan(values, false)
    ensures pos < |s| && s[pos] == '"' ==>
      WithItems(values, ScanArray(s[from..])) ==
        (match ScanItem(s[pos + 1..])
         case None => Scan(values, false)
         case Some(p) => WithItems(values + [p.value], ScanArray(p.rest)))
  {
    hide ScanItem, SkipSeparators;
    assert values + [] == values;
    if pos < |s| {
      assert s[pos..][1..] == s[pos + 1..];
      if s[pos] == '"' && ScanItem(s[pos + 1..]).Some? {
        var p := ScanItem(s[pos + 1..]).value;
        assert values + ([p.value] + ScanArray(p.rest).items) == values + [p.value] + ScanArray(p.rest).items;
      }
    }
  }

  method ExtractJsonStringArray(json: string, key: string) returns (result: Option<seq<string>>)
    ensures result == ExtractStringArray(json, key)
  {
    hide ScanArray, ScanItem, SkipSeparators, IndexFrom, WithItems;
    var p := FindString(json, Needle(key), 0);
    if p.None? {
      return None;
    }
    var q := FindString(json, "[", p.value + |Needle(key)|);
    if q.None? {
      return None;
    }
    var pos := q.value + 1;
    var values: seq<string> := [];
    ghost var total := ScanArray(json[pos..]);
    WithNoItems(total);
    while pos < |json|
      invariant pos <= |json| && WithItems(values, ScanArray(json[pos..])) == total
    {
      var from := pos;
      pos := SkipSeparatorRun(json, from);
      ScanArrayStep(json, from, pos, values);
      if pos < |json| && json[pos] == ']' {
        return Some(values);
      }
      if pos >= |json| || json[pos] != '"' {
        return if values != [] then Some(values) else None;
      }
      var item, next := ReadItem(json, pos + 1);
      if item.Some? {
        values := values + [item.value];
        pos := next;
      } else {
        // The inner loop has run off the end; so does the outer one.
        return if values != [] then Some(values) else None;
      }
    }
    ScanArrayEnd(json, values);
    return if values != [] then Some(values) else None;
  }

  lemma WithNoItems(a: Scan)
    ensures WithItems([], a) == a
  {
    assert [] + a.items == a.items;
  }

  lemma ScanArrayEnd(s: string, values: seq<string>)
    ensures WithItems(values, ScanArray(s[|s|..])) == Scan(values, false)
  {
    assert values + [] == values;
  }

  method ParseHookResponse(json: string) returns (out: Option<HookResult<string>>)
    ensures out == ParsedResponse(json)
  {
    hide ExtractString, ExtractStringArray, ExtractBool;
    var ranked := ExtractJsonStringArray(json, "ranked_surfaces");
    if ranked.None? {
      return None;
    }
    var result := HookResult(ranked.value, "", "", false);
    var rerankTop1 := ExtractJsonString(json, "rerank_top1");
    if rerankTop1.Some? {
      result := result.(rerankTop1 := rerankTop1.value);
    }
    var finalTop1 := ExtractJsonString(json, "final_top1");
    if finalTop1.Some? {
      result := result.(finalTop1 := finalTop1.value);
    }
    var overwritten := ExtractJsonBool(json, "overwritten");
    if overwritten.Some? {
      result := result.(overwritten := overwritten.value);
    }
    if result.finalTop1 == "" && result.ranked != [] {
      result := result.(finalTop1 := result.ranked[0]);
    }
    return if result.ranked != [] then Some(result) else None;
  }

  // ----- what the extractors make of printed strings -----

  /** The bytes that ExtractJsonString gives back. */
  ghost predicate OnlyLineControls(s: string) {
    forall k :: 0 <= k < |s| ==> s[k] >= ' ' || s[k] == '\n' || s[k] == '\r' || s[k] == '\t'
  }

  /** What ExtractJsonString makes of one printed byte. */
  function ReadBack(c: char): string {
    if c == BACKSPACE then "b" else if c == FORM_FEED then "f"
    else if c >= ' ' || c == '\n' || c == '\r' || c == '\t' then [c]
    else ['u', '0', '0', HexDigit(c as int / 16), HexDigit(c as int % 16)]
  }

  lemma {:induction false} ScanPlainRun(x: string, t: string)
    requires PlainText(x) && ScanString(t).Some?
    ensures ScanString(x + t) == Some(x + ScanString(t).value)
  {
    if x == "" {
      assert x + t == t && x + ScanString(t).value == ScanString(t).value;
    } else {
      assert PlainChar(x[0]);
      assert (x + t)[1..] == x[1..] + t;
      ScanPlainRun(x[1..], t);
      assert [x[0]] + (x[1..] + ScanString(t).value) == x + ScanString(t).value;
    }
  }

  lemma ScanEscaped(e: char, t: string)
    requires ScanString(t).Some?
    ensures ScanString(['\\', e] + t) == Some([Unescaped(e)] + ScanString(t).value)
  {
    assert (['\\', e] + t)[2..] == t;
    hide Unescaped;
  }

  lemma ScanUnicode(a: char, b: char, t: string)
    requires PlainChar(a) && PlainChar(b) && ScanString(t).Some?
    ensures ScanString(['\\', 'u', '0', '0', a, b] + t) == Some(['u', '0', '0', a, b] + ScanString(t).value)
  {
    hide ScanString;
    var x := ['0', '0', a, b];
    assert PlainText(x);
    ScanPlainRun(x, t);
    ScanEscaped('u', x + t);
    assert ['\\', 'u', '0', '0', a, b] + t == ['\\', 'u'] + (x + t);
    assert ['u'] + (x + ScanString(t).value) == ['u', '0', '0', a, b] + ScanString(t).value;
  }

  lemma ScanOneChar(c: char, t: string)
    requires ScanString(t).Some?
    ensures ScanString(EscapeChar(c) + t) == Some(ReadBack(c) + ScanString(t).value)
  {
    hide ScanString, HexDigit;
    var e := EscapeChar(c);
    if |e| == 1 {
      ScanPlainRun(e, t);
    } else if |e| == 2 {
      ScanEscaped(e[1], t);
    } else {
      HexIsPlain(c as int / 16);
      HexIsPlain(c as int % 16);
      ScanUnicode(HexDigit(c as int / 16), HexDigit(c as int % 16), t);
    }
  }

  lemma HexIsPlain(n: nat)
    requires n < 16
    ensures PlainChar(HexDigit(n))
  {
  }

  lemma ReadBackExact(c: char)
    ensures ReadBack(c) != ""
    ensures ReadBack(c)[0] == c <==> c >= ' ' || c == '\n' || c == '\r' || c == '\t'
    ensures ReadBack(c)[0] == c ==> ReadBack(c) == [c]
  {
  }

  /** Whether a decoded head and a decoded tail are the original ones. */
  lemma ConsExact(b: string, w: string, c: char, t: string)
    requires b != "" && (b[0] == c ==> b == [c])
    ensures b + w == [c] + t <==> b[0] == c && w == t
  {
    if b + w == [c] + t {
      assert (b + w)[0] == b[0];
      assert (b + w)[1..] == w && ([c] + t)[1..] == t;
    }
  }

  lemma EscapeQuoted(c: char, t: string, rest: string)
    ensures Escape([c] + t) + "\"" + rest == EscapeChar(c) + (Escape(t) + "\"" + rest)
  {
    assert ([c] + t)[1..] == t;
    hide EscapeChar;
  }

  lemma OnlyLineCons(c: char, t: string)
    ensures OnlyLineControls([c] + t) <==> (c >= ' ' || c == '\n' || c == '\r' || c == '\t') && OnlyLineControls(t)
  {
    var s := [c] + t;
    assert s[0] == c && forall k :: 0 < k < |s| ==> s[k] == t[k - 1];
    if OnlyLineControls(s) {
      forall k | 0 <= k < |t|
        ensures t[k] == s[k + 1]
      {
      }
    }
  }

  lemma NoControlCons(c: char, t: string)
    ensures NoControl([c] + t) <==> c >= ' ' && NoControl(t)
  {
    var s := [c] + t;
    assert s[0] == c && forall k :: 0 < k < |s| ==> s[k] == t[k - 1];
    if NoControl(s) {
      forall k | 0 <= k < |t|
        ensures t[k] == s[k + 1]
      {
      }
    }
  }

  /** A printed string is recovered exactly when its only control bytes are the line controls. */
  lemma {:induction false} ScanStringExact(s: string, rest: string) returns (v: string)
    ensures ScanString(Escape(s) + "\"" + rest) == Some(v)
    ensures v == s <==> OnlyLineControls(s)
  {
    if s == "" {
      assert Escape(s) + "\"" + rest == "\"" + rest;
      v := "";
    } else {
      hide *;
      var c := s[0];
      assert s == [c] + s[1..];
      var w := ScanStringExact(s[1..], rest);
      EscapeQuoted(c, s[1..], rest);
      ScanOneChar(c, Escape(s[1..]) + "\"" + rest);
      v := ReadBack(c) + w;
      ReadBackExact(c);
      OnlyLineCons(c, s[1..]);
      ConsExact(ReadBack(c), w, c, s[1..]);
    }
  }

  /** What ExtractJsonStringArray makes of one printed byte: the letter of the escape. */
  function ItemBack(c: char): string {
    if c >= ' ' then [c]
    else if c == '\n' then "n" else if c == '\r' then "r" else if c == '\t' then "t"
    else if c == BACKSPACE then "b" else if c == FORM_FEED then "f"
    else ['u', '0', '0', HexDigit(c as int / 16), HexDigit(c as int % 16)]
  }

  lemma {:induction false} ItemPlainRun(x: string, t: string)
    requires PlainText(x) && ScanItem(t).Some?
    ensures ScanItem(x + t) == Some(Parsed(x + ScanItem(t).value.value, ScanItem(t).value.rest))
  {
    if x == "" {
      assert x + t == t && x + ScanItem(t).value.value == ScanItem(t).value.value;
    } else {
      assert PlainChar(x[0]);
      assert (x + t)[1..] == x[1..] + t;
      ItemPlainRun(x[1..], t);
      var v := ScanItem(t).value;
      assert ScanItem(x + t) == Some(Parsed([x[0]] + (x[1..] + v.value), v.rest));
      hide *;
      assert [x[0]] + (x[1..] + v.value) == x + v.value;
    }
  }

  lemma ItemEscaped(e: char, t: string)
    requires ScanItem(t).Some?
    ensures ScanItem(['\\', e] + t) == Some(Parsed([e] + ScanItem(t).value.value, ScanItem(t).value.rest))
  {
    assert (['\\', e] + t)[2..] == t;
  }

  lemma ItemUnicode(a: char, b: char, t: string)
    requires PlainChar(a) && PlainChar(b) && ScanItem(t).Some?
    ensures ScanItem(['\\', 'u', '0', '0', a, b] + t)
      == Some(Parsed(['u', '0', '0', a, b] + ScanItem(t).value.value, ScanItem(t).value.rest))
  {
    hide ScanItem;
    var x := ['0', '0', a, b];
    assert PlainText(x);
    ItemPlainRun(x, t);
    ItemEscaped('u', x + t);
    assert ['\\', 'u', '0', '0', a, b] + t == ['\\', 'u'] + (x + t);
    assert ['u'] + (x + ScanItem(t).value.value) == ['u', '0', '0', a, b] + ScanItem(t).value.value;
  }

  lemma ItemOneChar(c: char, t: string)
    requires ScanItem(t).Some?
    ensures ScanItem(EscapeChar(c) + t) == Some(Parsed(ItemBack(c) + ScanItem(t).value.value, ScanItem(t).value.rest))
  {
    hide ScanItem, HexDigit;
    var e := EscapeChar(c);
    if |e| == 1 {
      ItemPlainRun(e, t);
    } else if |e| == 2 {
      ItemEscaped(e[1], t);
    } else {
      HexIsPlain(c as int / 16);
      HexIsPlain(c as int % 16);
      ItemUnicode(HexDigit(c as int / 16), HexDigit(c as int % 16), t);
    }
  }

  lemma ItemBackExact(c: char)
    ensures ItemBack(c) != ""
    ensures ItemBack(c)[0] == c <==> c >= ' '
    ensures ItemBack(c)[0] == c ==> ItemBack(c) == [c]
  {
  }

  /** A printed array item is recovered exactly when it has no control byte at all. */
  lemma {:induction false} ScanItemExact(s: string, rest: string) returns (v: string)
    ensures ScanItem(Escape(s) + "\"" + rest) == Some(Parsed(v, rest))
    ensures v == s <==> NoControl(s)
  {
    if s == "" {
      assert Escape(s) + "\"" + rest == ['"'] + rest;
      v := "";
    } else {
      hide *;
      var c := s[0];
      assert s == [c] + s[1..];
      var w := ScanItemExact(s[1..], rest);
      EscapeQuoted(c, s[1..], rest);
      ItemOneChar(c, Escape(s[1..]) + "\"" + rest);
      v := ItemBack(c) + w;
      ItemBackExact(c);
      NoControlCons(c, s[1..]);
      ConsExact(ItemBack(c), w, c, s[1..]);
    }
  }

  // ----- white space that the daemon does not write -----

  predicate WhiteOnly(ws: string) { forall k :: 0 <= k < |ws| ==> ws[k] in {' ', '\t', '\n', '\r'} }

  lemma {:induction false} WhiteSkipped(ws: string, s: string)
    requires WhiteOnly(ws)
    ensures SkipWhite(ws + s) == SkipWhite(s)
  {
    if ws == "" {
      assert ws + s == s;
    } else {
      assert (ws + s)[1..] == ws[1..] + s && ws[0] in {' ', '\t', '\n', '\r'};
      WhiteSkipped(ws[1..], s);
    }
  }

  lemma {:induction false} SeparatorsSkipped(ws: string, s: string)
    requires forall k :: 0 <= k < |ws| ==> ws[k] in {' ', '\t', '\n', '\r', ','}
    ensures SkipSeparators(ws + s) == SkipSeparators(s)
  {
    if ws == "" {
      assert ws + s == s;
    } else {
      assert (ws + s)[1..] == ws[1..] + s && ws[0] in {' ', '\t', '\n', '\r', ','};
      SeparatorsSkipped(ws[1..], s);
    }
  }

  /** Other spacing than the daemon's makes no difference: behind a colon, and between the items of a list. */
  lemma SpacingIsIgnored(json: string, key: string, ws: string, s: string, rest: string)
    requires WhiteOnly(ws) && OnlyLineControls(s) && Behind(json, key, ":") == Some(ws + (Quoted(s) + rest))
    ensures ExtractString(json, key) == Some(s)
  {
    hide *;
    WhiteSkipped(ws, Quoted(s) + rest);
    var v := ScanStringExact(s, rest);
    QuotedText(s, rest);
    StringBehind(json, key, ws + (Quoted(s) + rest), Quoted(s) + rest);
  }

  lemma QuotedText(s: string, rest: string)
    ensures var t := Quoted(s) + rest; SkipWhite(t) == t && t != "" && t[0] == '"' && t[1..] == Escape(s) + "\"" + rest
  {
    var t := Quoted(s) + rest;
    assert t[0] == '"' && t[1..] == Escape(s) + "\"" + rest;
    hide Escape;
  }

  lemma StringBehind(json: string, key: string, s: string, t: string)
    requires Behind(json, key, ":") == Some(s) && SkipWhite(s) == t && t != "" && t[0] == '"'
    ensures ExtractString(json, key) == ScanString(t[1..])
  {
    hide Behind, SkipWhite, ScanString;
  }

  lemma ListSpacingIsIgnored(ws: string, s: string)
    requires forall k :: 0 <= k < |ws| ==> ws[k] in {' ', '\t', '\n', '\r', ','}
    ensures ScanArray(ws + s) == ScanArray(s)
  {
    SeparatorsSkipped(ws, s);
    hide SkipSeparators, ScanItem;
  }
}
