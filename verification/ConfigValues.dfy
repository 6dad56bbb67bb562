/** What the three readers of the configuration make of the value behind a colon. */
module ConfigValues {
  import opened Text
  import opened Find
  import opened Config
  import opened ConfigText

  /**
   Where a reader arrives: p is the first occurrence of the key, and head all that stands before the
   colon found from there.
   */
  ghost predicate Found(json: string, key: string, p: nat, head: string) {
    IndexFrom(json, Needle(key), 0) == Some(p) && IndexFrom(json, ":", p) == Some(|head|)
  }

  // ----- strings -----

  lemma StringAfter(json: string, key: string, p: nat, head: string, gap: string, s: string, more: string,
                    default: string)
    requires Found(json, key, p, head) && NoQuote(gap) && NoQuote(s)
    requires json == head + (gap + "\"" + (s + "\"" + more))
    ensures ReadString(json, key, default) == s
  {
    FoundIs(json, key, p, head);
    hide *;
    var a := |head| + |gap|;
    QuoteAfter(json, head, gap, s + "\"" + more);
    ClosingQuote(json, head, gap, s, more, a);
    StringIs(json, key, default, p, |head|, a, a + 1 + |s|);
  }

  lemma ClosingQuote(json: string, head: string, gap: string, s: string, more: string, a: nat)
    requires json == head + (gap + "\"" + (s + "\"" + more)) && NoQuote(s) && a == |head| + |gap|
    ensures IndexFrom(json, "\"", a + 1) == Some(a + 1 + |s|)
    ensures a + 1 + |s| <= |json| && json[a + 1..a + 1 + |s|] == s
  {
    hide *;
    BodyParts(head, gap, s, more);
    QuoteAfter(json, head + (gap + "\""), s, more);
  }

  lemma FoundIs(json: string, key: string, p: nat, head: string)
    requires Found(json, key, p, head)
    ensures IndexFrom(json, Needle(key), 0) == Some(p) && IndexFrom(json, ":", p) == Some(|head|)
  {
  }

  lemma BodyParts(head: string, gap: string, s: string, more: string)
    ensures var json := head + (gap + "\"" + (s + "\"" + more)); var body := head + (gap + "\"");
      && json == body + (s + "\"" + more) && |body| == |head| + |gap| + 1
      && |json| >= |body| + |s| && json[|body|..|body| + |s|] == s
  {
    var json := head + (gap + "\"" + (s + "\"" + more));
    var body := head + (gap + "\"");
    assert json == body + (s + "\"" + more);
    assert json[|body|..|body| + |s|] == s;
  }

  lemma QuoteAfter(json: string, head: string, gap: string, rest: string)
    requires json == head + (gap + "\"" + rest) && NoQuote(gap)
    ensures IndexFrom(json, "\"", |head|) == Some(|head| + |gap|)
  {
    hide IndexFrom, OccursAt;
    MarkAt(head, gap, "\"", rest);
  }

  lemma StringIs(json: string, key: string, default: string, p: nat, q: nat, a: nat, b: nat)
    requires IndexFrom(json, Needle(key), 0) == Some(p) && IndexFrom(json, ":", p) == Some(q)
    requires IndexFrom(json, "\"", q) == Some(a) && IndexFrom(json, "\"", a + 1) == Some(b) && b <= |json|
    ensures ReadString(json, key, default) == json[a + 1..b]
  {
    hide IndexFrom, Needle;
  }

  lemma StringNowhere(json: string, key: string, p: nat, head: string, tail: string, default: string)
    requires Found(json, key, p, head) && json == head + tail && NoQuote(tail)
    ensures ReadString(json, key, default) == default
  {
    var a := IndexFrom(json, "\"", |head|);
    assert forall k :: |head| <= k < |json| ==> json[k] == tail[k - |head|];
    assert forall k :: |head| <= k < |json| ==> json[k] != '"';
    hide IndexFrom, OccursAt, NoQuote;
    if a.Some? {
      MarkOccurs(json, '"', a.value);
    }
  }

  /** What GetString makes of line r: its string, or the key of the line below it. */
  function StringOf(es: seq<Entry>, r: nat, default: string): string
    requires r < |es|
  {
    if es[r].value.Str? then es[r].value.s else if r + 1 < |es| then es[r + 1].key else default
  }

  lemma StringRead(es: seq<Entry>, r: nat, key: string, p: nat, head: string, default: string)
    requires r < |es| && QuoteFree(es) && DistinctKeys(es) && Found(File(es), key, p, head)
    requires File(es) == head + (":" + (" " + (ValueText(es[r].value) + Rest(es, r))))
    ensures ReadString(File(es), key, default) == StringOf(es, r, default)
  {
    var v := es[r].value;
    FromIs(es, r);
    if v.Str? {
      StringText(v.s);
      assert NoQuote(v.s) && NoQuote(": ");
      StringGap(v.s, Rest(es, r));
      hide *;
      StringAfter(File(es), key, p, head, ": ", v.s, Rest(es, r), default);
    } else {
      PlainValue(v);
      KeyHolds(es[r].key);
      if r + 1 < |es| {
        KeyHolds(es[r + 1].key);
        FromIs(es, r + 1);
        hide ValueText, Rest, From, File, Found;
        GapNoQuote(ValueText(v));
        OtherGap(ValueText(v), es[r + 1], Rest(es, r + 1));
        var more := ": " + ValueText(es[r + 1].value) + Rest(es, r + 1);
        StringAfter(File(es), key, p, head, ": " + ValueText(v) + ",\n  ", es[r + 1].key, more, default);
      } else {
        hide ValueText, Rest, From, File, Found;
        LastNoQuote(ValueText(v));
        StringNowhere(File(es), key, p, head, ":" + (" " + (ValueText(v) + "\n}\n")), default);
      }
    }
  }

  lemma StringGap(s: string, rest: string)
    ensures ":" + (" " + ("\"" + s + "\"" + rest)) == ": " + "\"" + (s + "\"" + rest)
  {
  }

  lemma GapNoQuote(v: string)
    requires NoQuote(v)
    ensures NoQuote(": " + v + ",\n  ")
  {
  }

  lemma LastNoQuote(v: string)
    requires NoQuote(v)
    ensures NoQuote(":" + (" " + (v + "\n}\n")))
  {
  }

  lemma OtherGap(v: string, next: Entry, rest: string)
    ensures ":" + (" " + (v + (",\n  " + (Chunk(next) + rest)))) ==
      ": " + v + ",\n  " + "\"" + (next.key + "\"" + (": " + ValueText(next.value) + rest))
  {
    hide ValueText;
  }

  // ----- numbers -----

  lemma {:induction false} LeadingIs(s: string, p: char -> bool, n: nat)
    requires n <= |s| && (forall k :: 0 <= k < n ==> p(s[k])) && (n < |s| ==> !p(s[n]))
    ensures Leading(s, p) == n
  {
    if n > 0 {
      LeadingIs(s[1..], p, n - 1);
    }
  }

  lemma {:induction false} DigitsRead(n: nat)
    ensures DigitsValue(Digits(n)) == n
  {
    if n >= 10 {
      DigitsRead(n / 10);
      assert Digits(n)[..|Digits(n)| - 1] == Digits(n / 10);
    } else {
      assert DigitsValue(Digits(n)[..0]) == 0;
    }
  }

  lemma StoiDecimal(n: Int32)
    ensures Stoi(Decimal(n)) == Some(n)
  {
    hide *;
    NumberEndsWithDigits(n, "");
    assert Decimal(n) + "" == Decimal(n);
  }

  /** A number ends where its digits do, whatever minus signs follow. */
  lemma NumberEndsWithDigits(n: Int32, rest: string)
    requires rest == "" || rest[0] == '-'
    ensures Stoi(Decimal(n) + rest) == Some(n)
  {
    var m: nat := if n < 0 then -(n as int) else n;
    var d := Digits(m);
    assert IsDigit(d[0]) && !IsDigit('-');
    assert Decimal(n) + rest == if n < 0 then "-" + (d + rest) else d + rest;
    hide *;
    DigitsRead(m);
    StoiSign(d + rest);
    FittingDigits(d, rest, if n < 0 then -1 else 1);
  }

  lemma StoiSign(d: string)
    requires d != "" && IsDigit(d[0])
    ensures Stoi(d) == Fitting(d, 1) && Stoi("-" + d) == Fitting(d, -1)
  {
    assert ("-" + d)[1..] == d;
    hide Fitting;
  }

  lemma FittingDigits(d: string, rest: string, sign: int)
    requires d != "" && (forall k :: 0 <= k < |d| ==> IsDigit(d[k]))
      && -0x8000_0000 <= sign * DigitsValue(d) < 0x8000_0000
    requires rest != "" ==> !IsDigit(rest[0])
    ensures Fitting(d + rest, sign) == Some(sign * DigitsValue(d))
  {
    LeadingIs(d + rest, IsDigit, |d|);
    assert (d + rest)[..|d|] == d;
    hide DigitsValue, Leading, IsDigit;
  }

  lemma DecimalChars(n: Int32)
    ensures Decimal(n) != "" && forall k :: 0 <= k < |Decimal(n)| ==> IsNumberChar(Decimal(n)[k])
  {
    hide Digits;
  }

  lemma DecimalRead(n: Int32, rest: string, default: Int32)
    requires rest != "" && !IsNumberChar(rest[0])
    ensures NumberBehind(":" + (" " + (Decimal(n) + rest)), default) == n
  {
    var t := Decimal(n) + rest;
    var s := ":" + (" " + t);
    DecimalChars(n);
    assert s[0] == ':' && s[1] == ' ' && s[2] == t[0] == Decimal(n)[0] && s[2..] == t;
    LeadingIs(s, IsColonOrSpace, 2);
    LeadingIs(t, IsNumberChar, |Decimal(n)|);
    assert t[..|Decimal(n)|] == Decimal(n);
    StoiDecimal(n);
    hide Stoi, Decimal, Leading;
  }

  /** What GetInt makes of a value: its number, or the default. */
  function NumberOf(v: Value, default: Int32): Int32 { if v.Number? then v.n else default }

  lemma NoNumberThere(t: string, default: Int32)
    requires t != "" && !IsNumberChar(t[0]) && !IsColonOrSpace(t[0])
    ensures NumberBehind(":" + (" " + t), default) == default
  {
    var s := ":" + (" " + t);
    assert s[0] == ':' && s[1] == ' ' && s[2..] == t && s[2] == t[0];
    LeadingIs(s, IsColonOrSpace, 2);
    LeadingIs(t, IsNumberChar, 0);
    hide Stoi, Leading;
  }

  lemma NumberRead(v: Value, rest: string, key: string, p: nat, head: string, json: string, default: Int32)
    requires Found(json, key, p, head) && json == head + (":" + (" " + (ValueText(v) + rest)))
    requires rest != "" && !IsNumberChar(rest[0])
    ensures ReadInt(json, key, default) == NumberOf(v, default)
  {
    assert json[|head|..] == ":" + (" " + (ValueText(v) + rest));
    if v.Number? {
      DecimalRead(v.n, rest, default);
    } else {
      assert (ValueText(v) + rest)[0] in {'t', 'f', '"'};
      NoNumberThere(ValueText(v) + rest, default);
    }
    hide IndexFrom, Needle, NumberBehind, ValueText;
  }

  // ----- flags -----

  predicate IsLetter(c: char) { 'a' <= c <= 'z' }
  predicate IsStop(c: char) { c == ',' || c == '}' }
  predicate NotStop(c: char) { !IsStop(c) }

  lemma MarkOccurs(s: string, c: char, p: nat)
    ensures OccursAt(s, [c], p) <==> p < |s| && s[p] == c
  {
    if p < |s| {
      assert s[p..p + 1] == [s[p]];
    }
  }

  /** The first word that a text holds decides. */
  function WordsIn(h: string, default: bool): bool {
    if IndexFrom(h, "true", 0).Some? then true else if IndexFrom(h, "false", 0).Some? then false else default
  }

  /** s is the text from the colon on: lead, then h, and from the end of h to the first stop, at e, no letter. */
  ghost predicate Stops(s: string, lead: string, h: string, e: nat) {
    && |lead| + |h| <= e < |s| && lead + h <= s && IsStop(s[e])
    && (forall k :: 0 <= k < e ==> NotStop(s[k]))
    && (forall k :: |lead| + |h| <= k <= e ==> !IsLetter(s[k]))
    && (forall k :: 0 <= k < |lead| ==> !IsLetter(lead[k]))
  }

  /** The earlier of the first comma and the first brace. */
  lemma EndIs(json: string, head: string, s: string, e: nat)
    requires json == head + s && e < |s| && IsStop(s[e]) && forall k :: 0 <= k < e ==> NotStop(s[k])
    ensures var comma, brace := IndexFrom(json, ",", |head|), IndexFrom(json, "}", |head|);
      (if Before(comma, brace) then comma else brace) == Some(|head| + e)
  {
    hide IndexFrom, OccursAt;
    var comma, brace := IndexFrom(json, ",", |head|), IndexFrom(json, "}", |head|);
    MarkOccurs(json, ',', |head| + e);
    MarkOccurs(json, '}', |head| + e);
    if comma.Some? {
      MarkOccurs(json, ',', comma.value);
      assert json[comma.value] == s[comma.value - |head|];
    }
    if brace.Some? {
      MarkOccurs(json, '}', brace.value);
      assert json[brace.value] == s[brace.value - |head|];
    }
    assert json[|head| + e] == s[e];
  }

  lemma OccursChars(s: string, w: string, p: nat)
    ensures OccursAt(s, w, p) <==> p + |w| <= |s| && forall k :: 0 <= k < |w| ==> s[p + k] == w[k]
  {
    if p + |w| <= |s| {
      var t := s[p..p + |w|];
      assert forall k :: 0 <= k < |w| ==> t[k] == s[p + k];
    }
  }

  /** A word that begins before the stop lies inside h. */
  lemma WordInside(s: string, lead: string, h: string, e: nat, w: string, p: nat)
    requires Stops(s, lead, h, e) && w != "" && (forall k :: 0 <= k < |w| ==> IsLetter(w[k])) && p < e
      && OccursAt(s, w, p)
    ensures p >= |lead| && OccursAt(h, w, p - |lead|)
  {
    var x := lead + h;
    OccursChars(s, w, p);
    forall q | p <= q < p + |w|
      ensures IsLetter(s[q])
    {
      assert s[p + (q - p)] == w[q - p];
    }
    assert IsLetter(s[p]);
    assert !IsLetter(s[|x|]) && p != |x|;
    assert forall k :: 0 <= k < |x| ==> s[k] == x[k];
    assert forall k :: 0 <= k < |lead| ==> s[k] == lead[k];
    assert p >= |lead|;
    assert p < |x|;
    assert p + |w| <= |x|;
    assert s[p..p + |w|] == h[p - |lead|..p - |lead| + |w|];
    hide Stops, IsLetter;
  }

  lemma WordOutside(s: string, lead: string, h: string, w: string, k: nat)
    requires lead + h <= s && OccursAt(h, w, k)
    ensures OccursAt(s, w, |lead| + k)
  {
    var y := s[|lead| + |h|..];
    assert s == lead + (h + y);
    OccursChars(h, w, k);
    OccursChars(h + y, w, k);
    OccursShift(lead, h + y, w, k);
  }

  lemma WordBefore(json: string, head: string, s: string, lead: string, h: string, e: nat, w: string)
    requires json == head + s && Stops(s, lead, h, e) && w != "" && forall k :: 0 <= k < |w| ==> IsLetter(w[k])
    ensures Before(IndexFrom(json, w, |head|), Some(|head| + e)) <==> IndexFrom(h, w, 0).Some?
  {
    hide *;
    if IndexFrom(h, w, 0).Some? {
      WordFound(json, head, s, lead, h, e, w);
    }
    if Before(IndexFrom(json, w, |head|), Some(|head| + e)) {
      WordKept(json, head, s, lead, h, e, w);
    }
  }

  lemma WordFound(json: string, head: string, s: string, lead: string, h: string, e: nat, w: string)
    requires json == head + s && Stops(s, lead, h, e) && w != "" && IndexFrom(h, w, 0).Some?
    ensures Before(IndexFrom(json, w, |head|), Some(|head| + e))
  {
    var k := IndexFrom(h, w, 0).value;
    hide IndexFrom, OccursAt;
    WordOutside(s, lead, h, w, k);
    OccursShift(head, s, w, |lead| + k);
    Fits(h, w, k);
    hide Stops;
  }

  lemma WordKept(json: string, head: string, s: string, lead: string, h: string, e: nat, w: string)
    requires json == head + s && Stops(s, lead, h, e) && w != "" && forall k :: 0 <= k < |w| ==> IsLetter(w[k])
    requires Before(IndexFrom(json, w, |head|), Some(|head| + e))
    ensures IndexFrom(h, w, 0).Some?
  {
    var p := IndexFrom(json, w, |head|).value;
    hide IndexFrom, OccursAt, Stops, IsLetter;
    OccursShift(head, s, w, p - |head|);
    WordInside(s, lead, h, e, w, p - |head|);
  }

  lemma Fits(h: string, w: string, k: nat)
    requires OccursAt(h, w, k) && w != ""
    ensures k < |h|
  {
  }

  lemma TheWords()
    ensures forall k :: 0 <= k < |"true"| ==> IsLetter("true"[k])
    ensures forall k :: 0 <= k < |"false"| ==> IsLetter("false"[k])
    ensures "true" != "" && "false" != ""
  {
  }

  lemma FlagRead(json: string, key: string, p: nat, head: string, s: string, lead: string, h: string, e: nat,
                 default: bool)
    requires Found(json, key, p, head) && json == head + s && Stops(s, lead, h, e)
    ensures ReadBool(json, key, default) == WordsIn(h, default)
  {
    FoundIs(json, key, p, head);
    TheWords();
    StopIs(s, lead, h, e);
    hide *;
    EndIs(json, head, s, e);
    WordBefore(json, head, s, lead, h, e, "true");
    WordBefore(json, head, s, lead, h, e, "false");
    BoolIs(json, key, default, p, |head|, |head| + e);
    WordsAre(h, default);
  }

  lemma StopIs(s: string, lead: string, h: string, e: nat)
    requires Stops(s, lead, h, e)
    ensures e < |s| && IsStop(s[e]) && forall k :: 0 <= k < e ==> NotStop(s[k])
  {
    hide IsStop, NotStop, IsLetter;
  }

  lemma WordsAre(h: string, default: bool)
    ensures WordsIn(h, default) ==
      if IndexFrom(h, "true", 0).Some? then true else if IndexFrom(h, "false", 0).Some? then false else default
  {
    hide IndexFrom;
  }

  lemma BoolIs(json: string, key: string, default: bool, p: nat, q: nat, end: nat)
    requires IndexFrom(json, Needle(key), 0) == Some(p) && IndexFrom(json, ":", p) == Some(q)
    requires var comma, brace := IndexFrom(json, ",", q), IndexFrom(json, "}", q);
      (if Before(comma, brace) then comma else brace) == Some(end)
    ensures ReadBool(json, key, default) ==
      if Before(IndexFrom(json, "true", q), Some(end)) then true
      else if Before(IndexFrom(json, "false", q), Some(end)) then false
      else default
  {
    hide IndexFrom, Needle, Before;
  }

  /** What GetBool makes of a value: a flag, the default, or the words before the first comma or brace of a string. */
  function FlagOf(v: Value, default: bool): bool {
    match v
    case Flag(b) => b
    case Number(_) => default
    case Str(s) => WordsIn(s[..Leading(s, NotStop)], default)
  }

  lemma PlainStops(h: string, rest: string)
    requires (forall k :: 0 <= k < |h| ==> NotStop(h[k])) && (rest == "\n}\n" || (rest != "" && rest[0] == ','))
    ensures Stops(":" + (" " + (h + rest)), ": ", h, 2 + |h| + if rest[0] == ',' then 0 else 1)
  {
    var s := ":" + (" " + (h + rest));
    assert s == ": " + h + rest;
    assert s[2 + |h|] == rest[0] && (|rest| > 1 ==> s[2 + |h| + 1] == rest[1]);
    assert forall k :: 2 <= k < 2 + |h| ==> s[k] == h[k - 2];
  }

  /** A string with a comma or a brace at k: what stands before it decides. */
  lemma StopInside(t: string, k: nat, rest: string)
    requires k < |t| && IsStop(t[k]) && forall i :: 0 <= i < k ==> NotStop(t[i])
    ensures Stops(":" + (" " + ("\"" + t + "\"" + rest)), ": \"", t[..k], 3 + k)
  {
    QuotedChars(t, rest);
    var s := ":" + (" " + ("\"" + t + "\"" + rest));
    assert s[..3 + k] == ": \"" + t[..k];
    assert s[3 + k] == t[k];
  }

  lemma QuotedChars(t: string, rest: string)
    ensures var s := ":" + (" " + ("\"" + t + "\"" + rest));
      && |s| == 4 + |t| + |rest| && s[0] == ':' && s[1] == ' ' && s[2] == '"' && s[3 + |t|] == '"'
      && (forall i :: 3 <= i < 3 + |t| ==> s[i] == t[i - 3])
      && (forall i :: 4 + |t| <= i < |s| ==> s[i] == rest[i - 4 - |t|])
  {
  }

  /** A string without them: the stop is behind its closing quotation mark. */
  lemma StopBehind(t: string, rest: string)
    requires (forall i :: 0 <= i < |t| ==> NotStop(t[i])) && (rest == "\n}\n" || (rest != "" && rest[0] == ','))
    ensures Stops(":" + (" " + ("\"" + t + "\"" + rest)), ": \"", t, 3 + |t| + 1 + if rest[0] == ',' then 0 else 1)
  {
    QuotedChars(t, rest);
    var s := ":" + (" " + ("\"" + t + "\"" + rest));
    assert s[..3 + |t|] == ": \"" + t;
    assert s[4 + |t|] == rest[0] && (|rest| > 1 ==> s[5 + |t|] == rest[1]);
  }

  lemma NoWord(h: string, w: string)
    requires w != "" && forall k :: 0 <= k < |h| ==> h[k] != w[0]
    ensures IndexFrom(h, w, 0).None?
  {
    var at := IndexFrom(h, w, 0);
    hide IndexFrom, OccursAt;
    if at.Some? {
      WordStarts(h, w, at.value);
    }
  }

  lemma WordStarts(s: string, w: string, p: nat)
    requires w != "" && OccursAt(s, w, p)
    ensures p < |s| && s[p] == w[0]
  {
    assert s[p..p + |w|][0] == w[0];
  }

  lemma FlagWords(b: bool, default: bool)
    ensures WordsIn(FlagText(b), default) == b
    ensures forall k :: 0 <= k < |FlagText(b)| ==> NotStop(FlagText(b)[k])
  {
    var h := FlagText(b);
    assert h[0..0 + |h|] == h;
    assert OccursAt(h, h, 0);
    if !b {
      NoWord(h, "true");
    }
  }

  lemma NumberWords(n: Int32, default: bool)
    ensures WordsIn(Decimal(n), default) == default
    ensures forall k :: 0 <= k < |Decimal(n)| ==> NotStop(Decimal(n)[k])
  {
    DecimalChars(n);
    hide Decimal;
    NoWord(Decimal(n), "true");
    NoWord(Decimal(n), "false");
  }

  lemma BoolRead(json: string, key: string, p: nat, head: string, v: Value, rest: string, default: bool)
    requires Found(json, key, p, head) && json == head + (":" + (" " + (ValueText(v) + rest)))
    requires rest == "\n}\n" || (rest != "" && rest[0] == ',')
    ensures ReadBool(json, key, default) == FlagOf(v, default)
  {
    var h := ValueText(v);
    var s := ":" + (" " + (h + rest));
    var e := if rest[0] == ',' then 0 else 1;
    match v
    case Flag(b) =>
      FlagWords(b, default);
      PlainStops(h, rest);
      hide *;
      FlagRead(json, key, p, head, s, ": ", h, 2 + |h| + e, default);
    case Number(n) =>
      NumberWords(n, default);
      PlainStops(h, rest);
      hide *;
      FlagRead(json, key, p, head, s, ": ", h, 2 + |h| + e, default);
    case Str(t) =>
      var k := Leading(t, NotStop);
      if k < |t| {
        StopInside(t, k, rest);
        hide *;
        FlagRead(json, key, p, head, s, ": \"", t[..k], 3 + k, default);
      } else {
        StopBehind(t, rest);
        assert t[..k] == t;
        hide *;
        FlagRead(json, key, p, head, s, ": \"", t, 3 + |t| + 1 + e, default);
      }
  }
}
