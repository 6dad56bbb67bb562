/** Compact JSON as string literals and punctuation: where a quoted key is found in it, and the colon behind it. */
module ResponseText {
  import opened Text
  import opened Json
  import opened Find
  import opened Request
  import opened HookResponse

  // ----- JSON text as string literals and punctuation -----

  datatype Piece = Str(s: string) | Punct(p: string)

  function RenderPiece(p: Piece): string { if p.Str? then Quoted(p.s) else p.p }

  function Render(ps: seq<Piece>): string {
    if ps == [] then "" else RenderPiece(ps[0]) + Render(ps[1..])
  }

  lemma {:induction false} RenderAppend(a: seq<Piece>, b: seq<Piece>)
    ensures Render(a + b) == Render(a) + Render(b)
  {
    hide RenderPiece;
    if a == [] {
      assert a + b == b;
    } else {
      assert (a + b)[1..] == a[1..] + b;
      RenderAppend(a[1..], b);
    }
  }

  /** The n-best list as pieces. */
  function ItemPieces(ranked: seq<string>): seq<Piece> {
    if ranked == [] then []
    else if |ranked| == 1 then [Str(ranked[0])]
    else [Str(ranked[0]), Punct(",")] + ItemPieces(ranked[1..])
  }

  lemma {:induction false} RenderItemPieces(ranked: seq<string>)
    ensures Render(ItemPieces(ranked)) == Items(ranked)
  {
    hide Quoted;
    if ranked == [] {
    } else if |ranked| == 1 {
      assert Render([Str(ranked[0])]) == Quoted(ranked[0]) + Render([]);
    } else {
      RenderItemPieces(ranked[1..]);
      var rest := ItemPieces(ranked[1..]);
      assert [Str(ranked[0]), Punct(",")] + rest == [Str(ranked[0])] + ([Punct(",")] + rest);
      RenderAppend([Str(ranked[0])], [Punct(",")] + rest);
      RenderAppend([Punct(",")], rest);
      RenderOne(Str(ranked[0]));
      RenderOne(Punct(","));
      hide *;
      RenderPieces();
      ItemsTwo(ranked);
      ItemPiecesTwo(ranked);
    }
  }

  lemma RenderOne(p: Piece)
    ensures Render([p]) == RenderPiece(p)
  {
    hide RenderPiece;
    assert Render([p][1..]) == "";
  }

  lemma RenderPieces()
    ensures forall s: string :: RenderPiece(Str(s)) == Quoted(s)
    ensures forall s: string :: RenderPiece(Punct(s)) == s
  {
    hide Quoted;
  }

  lemma ItemsTwo(ranked: seq<string>)
    requires |ranked| > 1
    ensures Items(ranked) == Quoted(ranked[0]) + ("," + Items(ranked[1..]))
  {
    hide Quoted;
  }

  lemma ItemPiecesTwo(ranked: seq<string>)
    requires |ranked| > 1
    ensures ItemPieces(ranked) == [Str(ranked[0]), Punct(",")] + ItemPieces(ranked[1..])
  {
  }

  // ----- where a key can occur -----

  /** key is a run of plain characters that starts with a letter. */
  ghost predicate IsKey(key: string) { PlainText(key) && key != "" && 'a' <= key[0] <= 'z' }

  /** s ends in a quotation mark and the key. */
  predicate QuoteThenKey(s: string, key: string) {
    |s| > |key| && s[|s| - |key|..] == key && s[|s| - |key| - 1] == '"'
  }

  /** Only such a literal, or the key itself, can show the quoted key when printed. */
  predicate EndsInKey(s: string, key: string) { s == key || QuoteThenKey(s, key) }

  /** If the printed literal starts with the key and a quotation mark, it is the key. */
  lemma {:induction false} PrefixIsKey(s: string, key: string, rest: string)
    requires PlainText(key) && StartsWith(Escape(s) + "\"" + rest, key + "\"")
    ensures s == key
  {
    var x, n := Escape(s) + "\"" + rest, key + "\"";
    StartsWithHead(x, n);
    assert key == "" || (n[0] == key[0] && PlainChar(key[0]));
    if s != "" {
      assert x[0] == EscapeChar(s[0])[0];
      if key != "" {
        var y := Escape(s[1..]) + "\"" + rest;
        assert EscapeChar(s[0]) == [s[0]];
        assert x[1..] == y;
        assert y[..|key|] == x[..|n|][1..] == key[1..] + "\"";
        PrefixIsKey(s[1..], key[1..], rest);
        assert s == [s[0]] + s[1..] && key == [key[0]] + key[1..];
      }
    }
  }

  lemma StartsWithHead(x: string, n: string)
    requires n != ""
    ensures StartsWith(x, n) ==> x != "" && x[0] == n[0]
  {
    if StartsWith(x, n) {
      assert x[..|n|][0] == n[0];
    }
  }

  /** An occurrence begins with a quotation mark and goes on with the key. */
  lemma NeedleAt(x: string, key: string, y: string, p: nat)
    requires p < |x| && OccursAt(x + y, Needle(key), p)
    ensures x[p] == '"'
    ensures p == |x| - 1 ==> StartsWith(y, key + "\"")
  {
    var n := Needle(key);
    assert (x + y)[p..p + |n|][0] == n[0];
    if p == |x| - 1 {
      assert y[..|key| + 1] == (x + y)[p + 1..p + |n|] == n[1..] == key + "\"";
    }
  }

  /** A quotation mark at the end of x, followed by something other than the key and another one. */
  lemma ClearByLast(x: string, key: string, y: string)
    requires forall k :: 0 <= k < |x| - 1 ==> x[k] != '"'
    requires x != "" && x[|x| - 1] == '"' ==> !StartsWith(y, key + "\"")
    ensures Clear(x, Needle(key), y)
  {
    forall p | 0 <= p < |x|
      ensures !OccursAt(x + y, Needle(key), p)
    {
      if OccursAt(x + y, Needle(key), p) {
        NeedleAt(x, key, y, p);
      }
    }
  }

  /** No occurrence of the quoted key begins inside the printed content of another literal. */
  lemma {:induction false} ClearEscaped(s: string, key: string, rest: string)
    requires IsKey(key) && !QuoteThenKey(s, key)
    ensures Clear(Escape(s), Needle(key), "\"" + rest)
  {
    hide *;
    if s == "" {
      EscapeNothing();
      ClearEmpty(Needle(key), "\"" + rest);
    } else {
      var c, t := s[0], s[1..];
      TailIsSafe(s, key);
      ClearEscaped(t, key, rest);
      ClearEscapedChar(c, t, key, rest);
      EscapeSplit(s);
      ClearAppend(EscapeChar(c), Escape(t), Needle(key), "\"" + rest);
    }
  }

  lemma EscapeNothing()
    ensures Escape("") == ""
  {
  }

  lemma EscapeSplit(s: string)
    requires s != ""
    ensures Escape(s) == EscapeChar(s[0]) + Escape(s[1..])
  {
    hide EscapeChar;
  }

  lemma TailIsSafe(s: string, key: string)
    requires s != "" && !QuoteThenKey(s, key)
    ensures !QuoteThenKey(s[1..], key) && (s[0] == '"' ==> s[1..] != key)
  {
    var t := s[1..];
    if |t| > |key| {
      assert t[|t| - |key|..] == s[|s| - |key|..];
    }
    if t == key {
      assert s[|s| - |key|..] == t;
    }
  }

  lemma ClearEscapedChar(c: char, t: string, key: string, rest: string)
    requires IsKey(key) && (c == '"' ==> t != key)
    ensures Clear(EscapeChar(c), Needle(key), Escape(t) + ("\"" + rest))
  {
    var x := EscapeChar(c);
    var y := Escape(t) + ("\"" + rest);
    EscapeCharQuotes(c);
    assert y == Escape(t) + "\"" + rest;
    if c == '"' && StartsWith(y, key + "\"") {
      PrefixIsKey(t, key, rest);
    }
    hide *;
    ClearByLast(x, key, y);
  }

  lemma EscapeCharQuotes(c: char)
    ensures var x := EscapeChar(c);
      x != "" && (forall k :: 0 <= k < |x| - 1 ==> x[k] != '"') && (x[|x| - 1] == '"' ==> c == '"')
  {
  }

  /** A printed literal shows the quoted key only if it is the key or ends in it behind a quotation mark. */
  lemma ClearQuoted(s: string, key: string, rest: string)
    requires IsKey(key) && !EndsInKey(s, key) && (rest != "" ==> rest[0] != key[0])
    ensures Clear(Quoted(s), Needle(key), rest)
  {
    var content := Escape(s);
    if StartsWith(content + "\"" + rest, key + "\"") {
      PrefixIsKey(s, key, rest);
    }
    StartsWithHead(rest, key + "\"");
    assert (key + "\"")[0] == key[0];
    ClearEscaped(s, key, rest);
    assert content + ("\"" + rest) == content + "\"" + rest;
    assert Quoted(s) == "\"" + (content + "\"");
    assert content + "\"" + rest == (content + "\"") + rest;
    hide *;
    ClearByLast("\"", key, content + "\"" + rest);
    ClearByLast("\"", key, rest);
    ClearAppend(content, "\"", Needle(key), rest);
    ClearAppend("\"", content + "\"", Needle(key), rest);
  }

  // ----- a literal that shows the key -----

  /** What stands before the quoted key in the printed form of a literal that ends in it. */
  function Lead(s: string, key: string): string
    requires EndsInKey(s, key)
  {
    if s == key then "" else "\"" + (Escape(s[..|s| - |key| - 1]) + "\\")
  }

  /** The last quotation mark of such a literal is the one that the key needs. */
  lemma LeadShows(s: string, key: string)
    requires IsKey(key) && EndsInKey(s, key)
    ensures Quoted(s) == Lead(s, key) + Needle(key)
  {
    EscapePlain(key);
    assert s == key ==> Quoted(s) == Needle(key) && Lead(s, key) == "";
    if s != key {
      LeadIs(s, key);
      hide *;
      BeforeMark(s, key);
      var t := s[..|s| - |key| - 1];
      EscapeAppend(t, "\"" + key);
      EscapeQuote(key);
      LeadText(Escape(t), key);
      QuotedIsEscaped(s);
    } else {
      assert "" + Needle(key) == Needle(key);
    }
  }

  lemma LeadIs(s: string, key: string)
    requires EndsInKey(s, key) && s != key
    ensures QuoteThenKey(s, key) && |s| > |key| && Lead(s, key) == "\"" + (Escape(s[..|s| - |key| - 1]) + "\\")
    ensures Needle(key) == "\"" + key + "\""
  {
    hide Escape;
  }

  lemma QuotedIsEscaped(s: string)
    ensures Quoted(s) == "\"" + Escape(s) + "\""
  {
  }

  lemma EscapeQuote(key: string)
    requires Escape(key) == key
    ensures Escape("\"" + key) == "\\\"" + key
  {
    assert ("\"" + key)[1..] == key;
  }

  lemma LeadText(x: string, key: string)
    ensures "\"" + (x + ("\\\"" + key)) + "\"" == "\"" + (x + "\\") + ("\"" + key + "\"")
  {
  }

  /** Nothing before that mark shows the key: t is what precedes it, s the whole literal. */
  lemma {:induction false} ClearToMark(t: string, key: string, rest: string)
    requires IsKey(key)
    ensures Clear(Escape(t) + "\\", Needle(key), Needle(key) + rest)
  {
    var last := "\\";
    if t == "" {
      hide *;
      EscapeNothing();
      assert "" + last == last;
      ClearByLast(last, key, Needle(key) + rest);
    } else {
      var c, u := t[0], t[1..];
      var s := u + ("\"" + key);
      assert |s| > |key|;
      MarkText(u, key, rest);
      hide *;
      ClearToMark(u, key, rest);
      ClearEscapedChar(c, s, key, rest);
      EscapeSplit(t);
      ClearAppend(EscapeChar(c), Escape(u) + last, Needle(key), Needle(key) + rest);
      Reassociate(EscapeChar(c), Escape(u), last);
    }
  }

  lemma MarkText(u: string, key: string, rest: string)
    requires IsKey(key)
    ensures Escape(u + ("\"" + key)) + ("\"" + rest) == Escape(u) + "\\" + (Needle(key) + rest)
  {
    EscapePlain(key);
    EscapeAppend(u, "\"" + key);
    EscapeQuote(key);
    hide Escape;
    MarkParts(Escape(u), key, rest);
  }

  lemma MarkParts(x: string, key: string, rest: string)
    ensures x + ("\\\"" + key) + ("\"" + rest) == x + "\\" + ("\"" + key + "\"" + rest)
  {
  }

  lemma ClearLead(s: string, key: string, rest: string)
    requires IsKey(key) && EndsInKey(s, key)
    ensures Clear(Lead(s, key), Needle(key), Needle(key) + rest)
  {
    if s == key {
      ClearEmpty(Needle(key), Needle(key) + rest);
    } else {
      var t := s[..|s| - |key| - 1];
      var x := Escape(t) + "\\";
      LeadShows(s, key);
      QuotedParts(s, key, rest);
      if StartsWith(x + (Needle(key) + rest), key + "\"") {
        PrefixIsKey(s, key, rest);
      }
      assert Lead(s, key) == "\"" + x;
      hide *;
      ClearToMark(t, key, rest);
      ClearByLast("\"", key, x + (Needle(key) + rest));
      ClearAppend("\"", x, Needle(key), Needle(key) + rest);
    }
  }

  lemma BeforeMark(s: string, key: string)
    requires QuoteThenKey(s, key)
    ensures |s| > |key| && s == s[..|s| - |key| - 1] + ("\"" + key)
  {
  }

  lemma QuotedParts(s: string, key: string, rest: string)
    requires IsKey(key) && QuoteThenKey(s, key)
    ensures Escape(s[..|s| - |key| - 1]) + "\\" + (Needle(key) + rest) == Escape(s) + "\"" + rest
  {
    hide *;
    BeforeMark(s, key);
    MarkText(s[..|s| - |key| - 1], key, rest);
    Reassociate(Escape(s), "\"", rest);
  }

  // ----- the first literal that shows the key -----

  /** Between two literals there is punctuation, without quotation marks, that does not begin with a letter. */
  predicate IsGap(p: string) { p != "" && !('a' <= p[0] <= 'z') && '"' !in p }

  ghost predicate Laid(ps: seq<Piece>) {
    && (forall i :: 0 <= i < |ps| && ps[i].Str? ==> i + 1 < |ps| && ps[i + 1].Punct?)
    && (forall i :: 0 <= i < |ps| && ps[i].Punct? ==> IsGap(ps[i].p))
  }

  lemma LaidTail(ps: seq<Piece>)
    requires ps != [] && Laid(ps)
    ensures Laid(ps[1..])
    ensures ps[0].Punct? ==> IsGap(ps[0].p)
    ensures ps[0].Str? ==> Render(ps[1..]) != "" && !('a' <= Render(ps[1..])[0] <= 'z')
  {
    hide Quoted;
    var qs := ps[1..];
    assert forall i :: 0 <= i < |qs| ==> qs[i] == ps[i + 1];
    if ps[0].Str? {
      assert qs[0] == ps[1];
      assert Render(qs) == ps[1].p + Render(qs[1..]);
    }
  }

  lemma LaidAppend(a: seq<Piece>, b: seq<Piece>)
    requires Laid(a) && Laid(b)
    ensures Laid(a + b)
  {
    var c := a + b;
    assert forall i :: 0 <= i < |a| ==> c[i] == a[i];
    assert forall i :: |a| <= i < |c| ==> c[i] == b[i - |a|];
    hide IsGap;
  }

  /** The pieces behind the first literal that shows the key. */
  function PiecesAfter(ps: seq<Piece>, key: string): Option<seq<Piece>> {
    if ps == [] then None
    else if ps[0].Str? && EndsInKey(ps[0].s, key) then Some(ps[1..])
    else PiecesAfter(ps[1..], key)
  }

  lemma GapIsClear(p: string, key: string, rest: string)
    requires IsGap(p)
    ensures Clear(p, Needle(key), rest)
  {
    assert p[|p| - 1] in p;
    forall k | 0 <= k < |p|
      ensures p[k] != '"'
    {
      assert p[k] in p;
    }
    ClearByLast(p, key, rest);
  }

  /** The quoted key first occurs in that literal, at its end. */
  lemma {:induction false} KeyFound(ps: seq<Piece>, key: string, rest: string) returns (pre: string)
    requires IsKey(key) && Laid(ps) && PiecesAfter(ps, key).Some?
    ensures var behind := Render(PiecesAfter(ps, key).value) + rest;
      Render(ps) + rest == pre + Needle(key) + behind && Clear(pre, Needle(key), Needle(key) + behind)
  {
    var p, qs := ps[0], ps[1..];
    var shown := p.Str? && EndsInKey(p.s, key);
    assert PiecesAfter(ps, key) == if shown then Some(qs) else PiecesAfter(qs, key);
    assert 'a' <= key[0] <= 'z';
    RenderSplit(ps);
    LaidTail(ps);
    hide *;
    if shown {
      pre := Lead(p.s, key);
      LeadShows(p.s, key);
      ClearLead(p.s, key, Render(qs) + rest);
      Reassociate(pre + Needle(key), Render(qs), rest);
    } else {
      var more := KeyFound(qs, key, rest);
      var behind := Render(PiecesAfter(qs, key).value) + rest;
      pre := RenderPiece(p) + more;
      Reassociate(RenderPiece(p), Render(qs), rest);
      Regroup4(RenderPiece(p), more, Needle(key), behind);
      if p.Str? {
        FirstOfSum(Render(qs), rest);
        ClearQuoted(p.s, key, Render(qs) + rest);
      } else {
        GapIsClear(p.p, key, Render(qs) + rest);
      }
      ClearAppend(RenderPiece(p), more, Needle(key), Needle(key) + behind);
    }
  }

  lemma FirstOfSum(a: string, b: string)
    ensures a != "" ==> a + b != "" && (a + b)[0] == a[0]
  {
  }

  lemma Regroup4(a: string, b: string, c: string, d: string)
    ensures a + (b + c + d) == a + b + c + d && b + (c + d) == b + c + d
  {
  }

  lemma RenderNothing()
    ensures Render([]) == ""
  {
  }

  lemma RenderSplit(ps: seq<Piece>)
    requires ps != []
    ensures Render(ps) == RenderPiece(ps[0]) + Render(ps[1..])
    ensures RenderPiece(ps[0]) == if ps[0].Str? then Quoted(ps[0].s) else ps[0].p
  {
    hide Quoted;
  }

  // ----- the first colon behind it -----

  /** The first colon, or the length. */
  function ColonAt(s: string): (n: nat)
    ensures n <= |s| && (n < |s| ==> s[n] == ':')
    ensures forall k :: 0 <= k < n ==> s[k] != ':'
  {
    if s == "" || s[0] == ':' then 0 else 1 + ColonAt(s[1..])
  }

  /** What stands behind the first colon of the pieces: it may be one inside a literal. */
  function ColonText(ps: seq<Piece>): Option<string> {
    if ps == [] then None
    else
      var t := if ps[0].Str? then ps[0].s else ps[0].p;
      var n := ColonAt(t);
      if n == |t| then ColonText(ps[1..])
      else if ps[0].Str? then Some(Escape(t[n + 1..]) + ("\"" + Render(ps[1..])))
      else Some(t[n + 1..] + Render(ps[1..]))
  }

  lemma {:induction false} EscapeNoColon(s: string)
    requires forall k :: 0 <= k < |s| ==> s[k] != ':'
    ensures forall k :: 0 <= k < |Escape(s)| ==> Escape(s)[k] != ':'
  {
    if s != "" {
      EscapeNoColon(s[1..]);
      CharNoColon(s[0]);
      hide EscapeChar;
    }
  }

  lemma CharNoColon(c: char)
    requires c != ':'
    ensures forall k :: 0 <= k < |EscapeChar(c)| ==> EscapeChar(c)[k] != ':'
  {
  }

  /** A literal up to and behind its first colon. */
  lemma QuotedColon(s: string)
    ensures var n := ColonAt(s);
      n < |s| ==> Quoted(s) == "\"" + Escape(s[..n]) + (":" + (Escape(s[n + 1..]) + "\""))
    ensures var n := ColonAt(s); forall k :: 0 <= k < |"\"" + Escape(s[..n])| ==> ("\"" + Escape(s[..n]))[k] != ':'
    ensures ColonAt(s) == |s| ==> forall k :: 0 <= k < |Quoted(s)| ==> Quoted(s)[k] != ':'
  {
    var n := ColonAt(s);
    EscapeNoColon(s[..n]);
    QuotedIsEscaped(s);
    hide Escape, ColonAt, Quoted;
    assert n == |s| ==> s[..n] == s;
    if n < |s| {
      ColonSplit(s, n);
    }
  }

  lemma ColonSplit(s: string, n: nat)
    requires n < |s| && s[n] == ':'
    ensures "\"" + Escape(s) + "\"" == "\"" + Escape(s[..n]) + (":" + (Escape(s[n + 1..]) + "\""))
  {
    hide *;
    assert s == s[..n] + ([':'] + s[n + 1..]);
    EscapeAppend(s[..n], [':'] + s[n + 1..]);
    EscapeAppend([':'], s[n + 1..]);
    ColonStays();
    ColonParts(Escape(s[..n]), Escape(s[n + 1..]));
  }

  lemma ColonStays()
    ensures Escape([':']) == ":"
  {
    assert Escape([':'][1..]) == "";
  }

  lemma ColonParts(a: string, b: string)
    ensures "\"" + (a + (":" + b)) + "\"" == "\"" + a + (":" + (b + "\""))
  {
  }

  /** The first colon of the text, and what stands before it. */
  lemma {:induction false} ColonFound(ps: seq<Piece>) returns (gap: string)
    requires ColonText(ps).Some?
    ensures Render(ps) == gap + (":" + ColonText(ps).value) && forall k :: 0 <= k < |gap| ==> gap[k] != ':'
  {
    var p, qs := ps[0], ps[1..];
    var t := if p.Str? then p.s else p.p;
    var n := ColonAt(t);
    RenderSplit(ps);
    if n == |t| {
      var more := ColonFound(qs);
      gap := RenderPiece(p) + more;
      if p.Str? {
        QuotedColon(p.s);
      }
      assert ColonText(ps) == ColonText(qs);
      hide *;
      Reassociate(RenderPiece(p), more, ":" + ColonText(qs).value);
    } else if p.Str? {
      QuotedColon(p.s);
      gap := "\"" + Escape(p.s[..n]);
      var b := Escape(p.s[n + 1..]);
      assert ColonText(ps) == Some(b + ("\"" + Render(qs)));
      hide *;
      BehindColon(gap, b, Render(qs));
    } else {
      gap := p.p[..n];
      assert p.p == gap + (":" + p.p[n + 1..]);
      assert ColonText(ps) == Some(p.p[n + 1..] + Render(qs));
      hide *;
      PunctColon(gap, p.p[n + 1..], Render(qs));
    }
  }

  lemma BehindColon(a: string, b: string, c: string)
    ensures a + (":" + (b + "\"")) + c == a + (":" + (b + ("\"" + c)))
  {
  }

  lemma PunctColon(a: string, b: string, c: string)
    ensures a + (":" + b) + c == a + (":" + (b + c))
  {
  }

  // ----- what stands behind a key -----

  lemma BehindKey(pre: string, key: string, gap: string, mark: string, rest: string)
    requires |mark| == 1 && Clear(pre, Needle(key), Needle(key) + (gap + mark + rest))
    requires forall k :: 0 <= k < |gap| ==> gap[k] != mark[0]
    ensures Behind(pre + Needle(key) + (gap + mark + rest), key, mark) == Some(rest)
  {
    hide *;
    FirstOccurrence(pre, Needle(key), gap + mark + rest);
    MarkAt(pre + Needle(key), gap, mark, rest);
    TailIs(pre + Needle(key), gap, mark, rest);
    BehindIs(pre + Needle(key) + (gap + mark + rest), key, mark, |pre|, |pre + Needle(key)| + |gap|);
  }

  lemma TailIs(head: string, gap: string, mark: string, rest: string)
    requires |mark| == 1
    ensures |head + (gap + mark + rest)| > |head| + |gap|
    ensures (head + (gap + mark + rest))[|head| + |gap| + 1..] == rest
  {
  }

  lemma BehindIs(json: string, key: string, mark: string, p: nat, q: nat)
    requires |mark| == 1 && IndexFrom(json, Needle(key), 0) == Some(p)
    requires IndexFrom(json, mark, p + |Needle(key)|) == Some(q) && q < |json|
    ensures Behind(json, key, mark) == Some(json[q + 1..])
  {
    hide IndexFrom, Needle, OccursAt;
  }

  /**
   Whatever stands between: behind a key the extractors read on from the first colon after the first
   literal that shows it.
   */
  lemma FieldBehind(ps: seq<Piece>, key: string, rest: string)
    requires IsKey(key) && Laid(ps) && PiecesAfter(ps, key).Some? && ColonText(PiecesAfter(ps, key).value).Some?
    ensures Behind(Render(ps) + rest, key, ":") == Some(ColonText(PiecesAfter(ps, key).value).value + rest)
  {
    hide *;
    var qs := PiecesAfter(ps, key).value;
    var v := ColonText(qs).value;
    var pre := KeyFound(ps, key, rest);
    var gap := ColonFound(qs);
    GapParts(gap, v, rest);
    BehindKey(pre, key, gap, ":", v + rest);
  }

  lemma GapParts(gap: string, v: string, rest: string)
    ensures gap + (":" + v) + rest == gap + ":" + (v + rest) && |":"| == 1 && ":"[0] == ':'
  {
  }
}
