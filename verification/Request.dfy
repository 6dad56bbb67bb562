/** The request line that CallDaemon sends, and what a JSON reader makes of it. */
module Request {
  import opened Text
  import opened Json

  /** The n-best list between its brackets. */
  function Items(nbest: seq<string>): string {
    if nbest == [] then ""
    else if |nbest| == 1 then Quoted(nbest[0])
    else Quoted(nbest[0]) + "," + Items(nbest[1..])
  }

  lemma {:induction false} ItemsSnoc(nbest: seq<string>, s: string)
    ensures Items(nbest + [s]) == Items(nbest) + (if nbest == [] then "" else ",") + Quoted(s)
  {
    hide Quoted;
    if nbest == [] {
      assert nbest + [s] == [s];
    } else {
      ItemsSnoc(nbest[1..], s);
      assert (nbest + [s])[1..] == nbest[1..] + [s];
      assert (nbest + [s])[0] == nbest[0];
      if |nbest| == 1 {
        assert Items(nbest[1..] + [s]) == Quoted(s) by {
          assert nbest[1..] + [s] == [s];
        }
      }
    }
  }

  function RequestBody(reading: string, nbest: seq<string>, context: string): string {
    "{\"reading\":\"" + Escape(reading) + "\",\"context_prev\":\"" + Escape(context) + "\",\"nbest\":["
      + Items(nbest) + "]}"
  }

  function RequestLine(reading: string, nbest: seq<string>, context: string): string {
    RequestBody(reading, nbest, context) + "\n"
  }

  method RenderItems(nbest: seq<string>) returns (out: string)
    ensures out == Items(nbest)
  {
    out := "";
    for i := 0 to |nbest|
      invariant out == Items(nbest[..i])
    {
      ItemsSnoc(nbest[..i], nbest[i]);
      assert nbest[..i + 1] == nbest[..i] + [nbest[i]];
      hide Items;
      if i > 0 {
        out := out + ",";
      }
      var e := EscapeJson(nbest[i]);
      out := out + "\"" + e + "\"";
    }
    assert nbest[..|nbest|] == nbest;
  }

  method RenderRequest(reading: string, nbest: seq<string>, context: string) returns (line: string)
    ensures line == RequestLine(reading, nbest, context)
  {
    hide Escape, Items;
    var r := EscapeJson(reading);
    var c := EscapeJson(context);
    var items := RenderItems(nbest);
    line := "{\"reading\":\"" + r + "\",\"context_prev\":\"" + c + "\",\"nbest\":[" + items + "]}\n";
    hide *;
    assert line == RequestBody(reading, nbest, context) + "\n" by {
      BodyIs(reading, nbest, context);
      Newline("{\"reading\":\"" + r + "\",\"context_prev\":\"" + c + "\",\"nbest\":[" + items);
    }
    LineIs(reading, nbest, context);
  }

  lemma Newline(s: string)
    ensures s + "]}\n" == s + "]}" + "\n"
  {
  }

  lemma BodyIs(reading: string, nbest: seq<string>, context: string)
    ensures RequestBody(reading, nbest, context) ==
      "{\"reading\":\"" + Escape(reading) + "\",\"context_prev\":\"" + Escape(context) + "\",\"nbest\":["
      + Items(nbest) + "]}"
  {
  }

  lemma LineIs(reading: string, nbest: seq<string>, context: string)
    ensures RequestLine(reading, nbest, context) == RequestBody(reading, nbest, context) + "\n"
  {
  }

  // ----- framing -----

  ghost predicate NoControl(s: string) { forall k :: 0 <= k < |s| ==> s[k] >= ' ' }

  lemma {:induction false} ItemsNoControl(nbest: seq<string>)
    ensures NoControl(Items(nbest))
  {
    if nbest != [] {
      EscapeHasNoControl(nbest[0]);
      assert NoControl(Quoted(nbest[0]));
      ItemsNoControl(nbest[1..]);
      hide Quoted, Escape;
    }
  }

  /** The line is one line: its only newline is its last byte, so `readline` returns all of it. */
  lemma RequestIsOneLine(reading: string, nbest: seq<string>, context: string)
    ensures var line := RequestLine(reading, nbest, context);
      forall k :: 0 <= k < |line| ==> (line[k] == '\n' <==> k == |line| - 1)
  {
    EscapeHasNoControl(reading);
    EscapeHasNoControl(context);
    ItemsNoControl(nbest);
    hide Escape, Items;
    var body := RequestBody(reading, nbest, context);
    assert NoControl("{\"reading\":\"") && NoControl("\",\"context_prev\":\"") && NoControl("\",\"nbest\":[")
      && NoControl("]}");
    NoControlBody("{\"reading\":\"", Escape(reading), "\",\"context_prev\":\"", Escape(context), "\",\"nbest\":[",
      Items(nbest), "]}");
    hide RequestBody;
  }

  lemma NoControlBody(a: string, b: string, c: string, d: string, e: string, f: string, g: string)
    requires NoControl(a) && NoControl(b) && NoControl(c) && NoControl(d) && NoControl(e) && NoControl(f)
      && NoControl(g)
    ensures NoControl(a + b + c + d + e + f + g)
  {
    NoControlAppend(a, b);
    NoControlAppend(a + b, c);
    NoControlAppend(a + b + c, d);
    NoControlAppend(a + b + c + d, e);
    NoControlAppend(a + b + c + d + e, f);
    NoControlAppend(a + b + c + d + e + f, g);
    hide NoControl;
  }

  lemma NoControlAppend(a: string, b: string)
    requires NoControl(a) && NoControl(b)
    ensures NoControl(a + b)
  {
  }

  // ----- round trip -----

  function Strings(nbest: seq<string>): (v: seq<Value>)
    ensures |v| == |nbest|
  {
    if nbest == [] then [] else [String(nbest[0])] + Strings(nbest[1..])
  }

  lemma {:induction false} ParseItems(nbest: seq<string>, rest: string)
    requires nbest != []
    ensures ParseElements(Items(nbest) + ("]" + rest)) == Some(Parsed(Strings(nbest), rest))
  {
    hide ParseValue, Quoted;
    if |nbest| == 1 {
      ParseQuoted(nbest[0], "]" + rest);
      assert Strings(nbest) == [String(nbest[0])];
      assert ("]" + rest)[1..] == rest;
    } else {
      var tail := Items(nbest[1..]) + ("]" + rest);
      ParseItems(nbest[1..], rest);
      ParseQuoted(nbest[0], "," + tail);
      hide Items;
      assert ("," + tail)[1..] == tail;
      ItemsCons(nbest, "]" + rest);
      ParseElementsCons(Quoted(nbest[0]), String(nbest[0]), tail);
    }
  }

  lemma ItemsCons(nbest: seq<string>, rest: string)
    requires |nbest| > 1
    ensures Items(nbest) + rest == Quoted(nbest[0]) + ("," + (Items(nbest[1..]) + rest))
    ensures Strings(nbest) == [String(nbest[0])] + Strings(nbest[1..])
  {
    hide Quoted;
  }

  lemma ParseElementsCons(text: string, v: Value, tail: string)
    requires ParseValue(text + ("," + tail)) == Some(Parsed(v, "," + tail))
    requires ParseElements(tail).Some?
    ensures ParseElements(text + ("," + tail)) ==
      Some(Parsed([v] + ParseElements(tail).value.value, ParseElements(tail).value.rest))
  {
    hide ParseValue;
    assert ("," + tail)[1..] == tail;
    assert SkipWhite("," + tail) == "," + tail;
  }

  lemma ParseArray(nbest: seq<string>, rest: string)
    ensures ParseValue("[" + Items(nbest) + "]" + rest) == Some(Parsed(Array(Strings(nbest)), rest))
  {
    var s := "[" + Items(nbest) + "]" + rest;
    assert s[1..] == Items(nbest) + ("]" + rest);
    assert SkipWhite(s) == s;
    if nbest == [] {
      assert s[1..] == "]" + rest;
      assert SkipWhite(s[1..]) == s[1..];
      assert s[1..][1..] == rest;
    } else {
      ParseItems(nbest, rest);
      assert s[1] == '"' by {
        ItemsHead(nbest);
      }
      assert SkipWhite(s[1..]) == s[1..];
      hide Items, ParseElements;
    }
  }

  lemma ItemsHead(nbest: seq<string>)
    requires nbest != []
    ensures Items(nbest) != "" && Items(nbest)[0] == '"'
  {
    hide Escape;
  }

  /** A JSON reader gets back exactly what the rewriter put in, for all byte strings. */
  lemma RequestRoundTrip(reading: string, nbest: seq<string>, context: string)
    ensures ParseText(RequestLine(reading, nbest, context)) ==
      Some(Object([("reading", String(reading)), ("context_prev", String(context)), ("nbest", Array(Strings(nbest)))]))
  {
    var list := "[" + Items(nbest) + "]";
    var m3 := Quoted("nbest") + ":" + list + "}\n";
    var m2 := Quoted("context_prev") + ":" + Quoted(context) + ("," + m3);
    var m1 := Quoted("reading") + ":" + Quoted(reading) + ("," + m2);
    hide *;
    LineAsMembers(reading, nbest, context);
    ParseArray(nbest, "}\n");
    ParseQuoted(context, "," + m3);
    ParseQuoted(reading, "," + m2);
    ParseMember("nbest", list, Array(Strings(nbest)), "}\n");
    ParseMember("context_prev", Quoted(context), String(context), "," + m3);
    ParseMember("reading", Quoted(reading), String(reading), "," + m2);
    assert ("," + m3)[1..] == m3 && ("," + m2)[1..] == m2 && "}\n"[1..] == "\n";
    var a, b, c := ("reading", String(reading)), ("context_prev", String(context)), ("nbest", Array(Strings(nbest)));
    assert [a] + ([b] + [c]) == [a, b, c];
    ParseBraces(m1, [a, b, c]);
  }

  lemma ParseBraces(members: string, m: seq<(string, Value)>)
    requires members != "" && members[0] == '"' && ParseMembers(members) == Some(Parsed(m, "\n"))
    ensures ParseText("{" + members) == Some(Object(m))
  {
    hide ParseMembers;
    var s := "{" + members;
    assert s[1..] == members && SkipWhite(s) == s && SkipWhite(members) == members;
    assert SkipWhite("\n") == "" by {
      assert "\n"[1..] == "";
    }
  }

  lemma LineAsMembers(reading: string, nbest: seq<string>, context: string)
    ensures var m3 := Quoted("nbest") + ":" + ("[" + Items(nbest) + "]") + "}\n";
      var m2 := Quoted("context_prev") + ":" + Quoted(context) + ("," + m3);
      var m1 := Quoted("reading") + ":" + Quoted(reading) + ("," + m2);
      RequestLine(reading, nbest, context) == "{" + m1 && m1 != "" && m1[0] == '"'
  {
    hide *;
    QuotedIs(reading);
    QuotedIs(context);
    KeysQuoted();
    BodyIs(reading, nbest, context);
    LineIs(reading, nbest, context);
    Regroup("\"reading\"", "\"context_prev\"", "\"nbest\"", Escape(reading), Escape(context), Items(nbest));
    Literals();
  }

  lemma QuotedIs(s: string)
    ensures Quoted(s) == "\"" + Escape(s) + "\""
  {
  }

  lemma QuotedPlain(s: string)
    requires PlainText(s)
    ensures Quoted(s) == "\"" + s + "\""
  {
    EscapePlain(s);
    hide Escape;
  }

  lemma KeysQuoted()
    ensures Quoted("reading") == "\"reading\""
    ensures Quoted("context_prev") == "\"context_prev\""
    ensures Quoted("nbest") == "\"nbest\""
  {
    hide Quoted;
    QuotedPlain("reading");
    QuotedPlain("context_prev");
    QuotedPlain("nbest");
  }

  /** The printed literals are the quoted keys and the punctuation around them. */
  lemma Literals()
    ensures "{\"reading\":\"" == "{" + "\"reading\"" + ":" + "\""
    ensures "\",\"context_prev\":\"" == "\"" + "," + "\"context_prev\"" + ":" + "\""
    ensures "\",\"nbest\":[" == "\"" + "," + "\"nbest\"" + ":" + "["
    ensures "]}" == "]" + "}"
  {
  }

  /** The same bytes, cut at the members instead of at the printed pieces. */
  lemma Regroup(k1: string, k2: string, k3: string, r: string, c: string, items: string)
    ensures var q := "\"";
      var m3 := k3 + ":" + ("[" + items + "]") + "}\n";
      var m2 := k2 + ":" + (q + c + q) + ("," + m3);
      var m1 := k1 + ":" + (q + r + q) + ("," + m2);
      && ("{" + k1 + ":" + q) + r + (q + "," + k2 + ":" + q) + c + (q + "," + k3 + ":" + "[") + items + ("]" + "}")
           + "\n" == "{" + m1
      && (k1 != "" && k1[0] == '"' ==> m1 != "" && m1[0] == '"')
  {
    var q := "\"";
    var m3 := k3 + ":" + ("[" + items + "]") + "}\n";
    var m2 := k2 + ":" + (q + c + q) + ("," + m3);
    assert m3 == k3 + ":" + "[" + items + ("]" + "}") + "\n";
    assert q + "," + m3 == (q + "," + k3 + ":" + "[") + items + ("]" + "}") + "\n";
    assert (q + c + q) + ("," + m3) == q + c + (q + "," + m3);
    assert q + "," + m2 == (q + "," + k2 + ":" + q) + c + (q + "," + m3);
  }
}
