/**
 What ParseHookResponse makes of the daemon's compact JSON, whatever quotation marks, backslashes,
 commas, colons and brackets the surfaces hold, and exactly when that is what the daemon sent.
 */
module ResponseRoundTrip {
  import opened Text
  import opened Json
  import opened Find
  import opened Request
  import opened HookResponse
  import opened ResponseText

  // ----- the answer -----

  function RankedHead(): seq<Piece> { [Punct("{"), Str("ok"), Punct(":true,")] }
  function RankedOpen(): seq<Piece> { [Str("ranked_surfaces"), Punct(":[")] }
  function FlagPart(): seq<Piece> { [Str("overwritten"), Punct(":")] }

  function FinalPart(final: string): seq<Piece> {
    [Str("final_top1"), Punct(":")] + ([Str(final), Punct(",")] + FlagPart())
  }

  function TopPart(top: string, final: string): seq<Piece> {
    [Str("rerank_top1"), Punct(":")] + ([Str(top), Punct(",")] + FinalPart(final))
  }

  function More(top: string, final: string): seq<Piece> { [Punct("],")] + TopPart(top, final) }

  function AnswerPieces(ranked: seq<string>, top: string, final: string): seq<Piece> {
    RankedHead() + (RankedOpen() + (ItemPieces(ranked) + More(top, final)))
  }

  function FlagAndTail(overwritten: bool, tail: string): string { (if overwritten then "true" else "false") + tail }

  /** json.dumps of the answer, separators (",", ":"); tail is what follows the flag. */
  function DaemonJson(ranked: seq<string>, top: string, final: string, overwritten: bool, tail: string): string {
    Render(AnswerPieces(ranked, top, final)) + FlagAndTail(overwritten, tail)
  }

  // ----- where the search for a field lands -----

  /** The surfaces behind the first one that shows the key. */
  function After(ranked: seq<string>, key: string): Option<seq<string>> {
    if ranked == [] then None
    else if EndsInKey(ranked[0], key) then Some(ranked[1..])
    else After(ranked[1..], key)
  }

  /** The surfaces from the first one that holds a colon. */
  function FromColon(ranked: seq<string>): (r: seq<string>)
    ensures r != [] ==> ColonAt(r[0]) < |r[0]|
  {
    if ranked == [] || ColonAt(ranked[0]) < |ranked[0]| then ranked else FromColon(ranked[1..])
  }

  /** Past the list; at the first field behind it; or behind the colon of a surface, the last of the list or not. */
  datatype Landing = Past | NextField | Inside(behind: string, last: bool)

  function Lands(ranked: seq<string>, key: string): Landing {
    match After(ranked, key)
    case None => Past
    case Some(rest) =>
      var m := FromColon(rest);
      if m == [] then NextField else Inside(m[0][ColonAt(m[0]) + 1..], |m| == 1)
  }

  function Separator(last: bool): string { if last then "]," else "," }

  function DropSpaces(s: string): (r: string)
    ensures r != "" ==> r[0] != ' ' && r[0] in s
  {
    if s != "" && s[0] == ' ' then DropSpaces(s[1..]) else s
  }

  // ----- pieces one after the other -----

  lemma SkipGap(p: string, rest: seq<Piece>, key: string)
    ensures PiecesAfter([Punct(p)] + rest, key) == PiecesAfter(rest, key)
    ensures ColonAt(p) == |p| ==> ColonText([Punct(p)] + rest) == ColonText(rest)
    ensures Render([Punct(p)] + rest) == p + Render(rest)
  {
    assert ([Punct(p)] + rest)[1..] == rest;
    hide Quoted, EndsInKey;
  }

  lemma SkipString(s: string, rest: seq<Piece>, key: string)
    ensures PiecesAfter([Str(s)] + rest, key) == if EndsInKey(s, key) then Some(rest) else PiecesAfter(rest, key)
    ensures ColonText([Str(s)] + rest) ==
      if ColonAt(s) == |s| then ColonText(rest) else Some(Escape(s[ColonAt(s) + 1..]) + ("\"" + Render(rest)))
    ensures Render([Str(s)] + rest) == Quoted(s) + Render(rest)
  {
    assert ([Str(s)] + rest)[1..] == rest;
    hide Quoted, EndsInKey, Escape;
  }

  lemma Gaps()
    ensures ColonAt(",") == 1 && ColonAt("],") == 2 && ColonAt(":") == 0
  {
    assert "],"[1..] == "," && ","[1..] == "";
  }

  /** A field: its name shows only itself, and its colon is the first one. */
  lemma Field(name: string, rest: seq<Piece>, key: string)
    requires FieldName(name) && FieldName(key)
    ensures var ps := [Str(name), Punct(":")] + rest;
      && PiecesAfter(ps, key) == (if name == key then Some([Punct(":")] + rest) else PiecesAfter(rest, key))
      && ColonText(ps) == Some(Render(rest)) && ColonText([Punct(":")] + rest) == Some(Render(rest))
  {
    assert [Str(name), Punct(":")] + rest == [Str(name)] + ([Punct(":")] + rest);
    if name != key {
      OtherFieldIsSafe(name, key);
    }
    FieldHasNoColon(name);
    Gaps();
    hide FieldName, EndsInKey;
    SkipString(name, [Punct(":")] + rest, key);
    SkipGap(":", rest, key);
    ColonFirst(rest);
    assert EndsInKey(key, key) by { OwnKey(key); }
  }

  lemma OwnKey(key: string)
    ensures EndsInKey(key, key)
  {
  }

  lemma ColonFirst(rest: seq<Piece>)
    ensures ColonText([Punct(":")] + rest) == Some(Render(rest))
  {
    assert ([Punct(":")] + rest)[1..] == rest && ":"[1..] + Render(rest) == Render(rest);
  }

  lemma FieldHasNoColon(name: string)
    requires FieldName(name)
    ensures ColonAt(name) == |name|
  {
    hide FieldName;
    if ColonAt(name) < |name| {
      FieldsHaveNoColon(name, ColonAt(name));
    }
  }

  lemma FieldsHaveNoColon(name: string, n: nat)
    requires FieldName(name) && n < |name|
    ensures name[n] != ':'
  {
  }

  /** A value: it may show the key. */
  lemma FieldValue(v: string, rest: seq<Piece>, key: string)
    ensures var ps := [Str(v), Punct(",")] + rest;
      && PiecesAfter(ps, key) == (if EndsInKey(v, key) then Some([Punct(",")] + rest) else PiecesAfter(rest, key))
      && ColonText([Punct(",")] + rest) == ColonText(rest)
      && Render(ps) == Quoted(v) + ("," + Render(rest))
  {
    assert [Str(v), Punct(",")] + rest == [Str(v)] + ([Punct(",")] + rest);
    Gaps();
    hide EndsInKey, Quoted;
    SkipString(v, [Punct(",")] + rest, key);
    SkipGap(",", rest, key);
  }

  lemma PlainIsSafe(s: string, key: string)
    requires PlainText(s) && s != key
    ensures !EndsInKey(s, key)
  {
    assert |s| > |key| ==> PlainChar(s[|s| - |key| - 1]);
  }

  /** The field names, none of which hides in another. */
  predicate FieldName(key: string) { key in {"ok", "ranked_surfaces", "rerank_top1", "final_top1", "overwritten"} }

  lemma FieldsAreKeys(key: string)
    requires FieldName(key)
    ensures IsKey(key)
  {
    if key == "ok" {
    } else if key == "ranked_surfaces" {
    } else if key == "rerank_top1" {
    } else if key == "final_top1" {
    } else {
    }
  }

  lemma OtherFieldIsSafe(s: string, key: string)
    requires FieldName(s) && FieldName(key) && s != key
    ensures !EndsInKey(s, key)
  {
    FieldsAreKeys(s);
    hide FieldName;
    PlainIsSafe(s, key);
  }

  // ----- the list -----

  lemma ItemsSplit(ranked: seq<string>, more: seq<Piece>)
    ensures ranked == [] ==> ItemPieces(ranked) + more == more
    ensures |ranked| == 1 ==> ItemPieces(ranked) + more == [Str(ranked[0])] + more
    ensures |ranked| > 1 ==>
      ItemPieces(ranked) + more == [Str(ranked[0])] + ([Punct(",")] + (ItemPieces(ranked[1..]) + more))
  {
    if |ranked| > 1 {
      ItemPiecesTwo(ranked);
      hide ItemPieces;
      PairAppend(Str(ranked[0]), Punct(","), ItemPieces(ranked[1..]), more);
    }
  }

  lemma PairAppend(a: Piece, b: Piece, x: seq<Piece>, y: seq<Piece>)
    ensures [a, b] + x + y == [a] + ([b] + (x + y))
  {
  }

  /** How the list with what follows it begins. */
  lemma {:induction false} ColonInList(ranked: seq<string>, more: seq<Piece>)
    ensures var m := FromColon(ranked);
      && (m == [] ==> ColonText(ItemPieces(ranked) + more) == ColonText(more))
      && (m != [] ==> ColonText(ItemPieces(ranked) + more) == Some(BehindSurface(m, more)))
    decreases |ranked|
  {
    ItemsSplit(ranked, more);
    Gaps();
    hide Escape, ItemPieces, Render;
    if ranked != [] {
      var tail := ranked[1..];
      SkipString(ranked[0], AfterFirst(ranked, more), "");
      if |ranked| > 1 {
        SkipGap(",", ItemPieces(tail) + more, "");
      }
      ColonInList(tail, more);
      ItemsSplit(tail, more);
    }
  }

  /** The text behind the colon of the first surface of m. */
  function BehindSurface(m: seq<string>, more: seq<Piece>): string
    requires m != [] && ColonAt(m[0]) < |m[0]|
  {
    Escape(m[0][ColonAt(m[0]) + 1..]) + ("\"" + Render(AfterFirst(m, more)))
  }

  /** What follows the first surface of m: the next one, or the end of the list. */
  function AfterFirst(m: seq<string>, more: seq<Piece>): seq<Piece>
    requires m != []
  {
    if |m| == 1 then more else [Punct(",")] + (ItemPieces(m[1..]) + more)
  }

  /** The search for a key that starts in the list. */
  lemma {:induction false} KeyInList(ranked: seq<string>, more: seq<Piece>, key: string)
    ensures match After(ranked, key)
      case None => PiecesAfter(ItemPieces(ranked) + more, key) == PiecesAfter(more, key)
      case Some(rest) =>
        PiecesAfter(ItemPieces(ranked) + more, key).Some?
        && ColonText(PiecesAfter(ItemPieces(ranked) + more, key).value) == ColonText(ItemPieces(rest) + more)
    decreases |ranked|
  {
    ItemsSplit(ranked, more);
    Gaps();
    hide Escape, ItemPieces, Render, EndsInKey;
    if ranked != [] {
      var tail := ranked[1..];
      SkipString(ranked[0], AfterFirst(ranked, more), key);
      SkipGap(",", ItemPieces(tail) + more, key);
      ItemsSplit(tail, more);
      KeyInList(tail, more, key);
    }
  }

  /** What stands behind the colon, for each landing. */
  lemma ListLanding(ranked: seq<string>, more: seq<Piece>, key: string)
    ensures match Lands(ranked, key)
      case Past => PiecesAfter(ItemPieces(ranked) + more, key) == PiecesAfter(more, key)
      case NextField =>
        PiecesAfter(ItemPieces(ranked) + more, key).Some?
        && ColonText(PiecesAfter(ItemPieces(ranked) + more, key).value) == ColonText(more)
      case Inside(b, last) =>
        PiecesAfter(ItemPieces(ranked) + more, key).Some?
        && exists w :: ColonText(PiecesAfter(ItemPieces(ranked) + more, key).value) == Some(Escape(b) + ("\"" + w))
             && (if last then w == Render(more) else ListGoesOn(w))
  {
    KeyInList(ranked, more, key);
    hide Escape, ItemPieces, Render, EndsInKey, PiecesAfter, ColonText;
    match After(ranked, key)
    case None =>
    case Some(rest) =>
      ColonInList(rest, more);
      var m := FromColon(rest);
      if |m| > 1 {
        NextItem(m[1..], more);
      }
  }

  /** A comma and the quotation mark of the next surface. */
  ghost predicate ListGoesOn(w: string) { |w| >= 2 && w[0] == ',' && w[1] == '"' }

  lemma NextItem(tail: seq<string>, more: seq<Piece>)
    requires tail != []
    ensures ListGoesOn(Render([Punct(",")] + (ItemPieces(tail) + more)))
  {
    ItemsSplit(tail, more);
    var rest := ItemPieces(tail) + more;
    var behind := if |tail| == 1 then more else [Punct(",")] + (ItemPieces(tail[1..]) + more);
    assert rest == [Str(tail[0])] + behind;
    hide ItemPieces, Render, Escape;
    SkipGap(",", rest, "");
    SkipString(tail[0], behind, "");
    assert (Quoted(tail[0]) + Render(behind))[0] == '"';
  }

  // ----- the whole answer -----

  /** The three fields that are looked for behind the list. */
  predicate LateField(key: string) { key in {"rerank_top1", "final_top1", "overwritten"} }

  lemma HeadSkipped(rest: seq<Piece>, key: string)
    requires LateField(key)
    ensures PiecesAfter(RankedHead() + (RankedOpen() + rest), key) == PiecesAfter(rest, key)
  {
    assert FieldName(key) && key != "ok" && key != "ranked_surfaces";
    OtherFieldIsSafe("ok", key);
    OtherFieldIsSafe("ranked_surfaces", key);
    HeadPieces(rest);
    hide *;
    SkipGap("{", [Str("ok")] + ([Punct(":true,")] + ([Str("ranked_surfaces")] + ([Punct(":[")] + rest))), key);
    SkipString("ok", [Punct(":true,")] + ([Str("ranked_surfaces")] + ([Punct(":[")] + rest)), key);
    SkipGap(":true,", [Str("ranked_surfaces")] + ([Punct(":[")] + rest), key);
    SkipString("ranked_surfaces", [Punct(":[")] + rest, key);
    SkipGap(":[", rest, key);
  }

  lemma HeadPieces(rest: seq<Piece>)
    ensures RankedHead() + (RankedOpen() + rest) ==
      [Punct("{")] + ([Str("ok")] + ([Punct(":true,")] + ([Str("ranked_surfaces")] + ([Punct(":[")] + rest))))
  {
  }

  lemma LaidPair(s: string, p: string)
    requires IsGap(p)
    ensures Laid([Str(s), Punct(p)])
  {
  }

  lemma LaidGap(p: string)
    requires IsGap(p)
    ensures Laid([Punct(p)])
  {
  }

  lemma GapsAreGaps()
    ensures IsGap("{") && IsGap(":true,") && IsGap(":[") && IsGap(",") && IsGap(":") && IsGap("],")
  {
  }

  lemma {:induction false} LaidItems(ranked: seq<string>, more: seq<Piece>)
    requires Laid(more) && more != [] && more[0].Punct?
    ensures Laid(ItemPieces(ranked) + more)
    decreases |ranked|
  {
    ItemsSplit(ranked, more);
    GapsAreGaps();
    hide Laid, ItemPieces, IsGap;
    if ranked != [] {
      if |ranked| == 1 {
        LaidOneMore(ranked[0], more);
      } else {
        LaidItems(ranked[1..], more);
        LaidGap(",");
        LaidAppend([Punct(",")], ItemPieces(ranked[1..]) + more);
        LaidOneMore(ranked[0], [Punct(",")] + (ItemPieces(ranked[1..]) + more));
      }
    }
  }

  lemma LaidOneMore(s: string, rest: seq<Piece>)
    requires Laid(rest) && rest != [] && rest[0].Punct?
    ensures Laid([Str(s)] + rest)
  {
    var c := [Str(s)] + rest;
    assert c[1] == rest[0] && forall i :: 1 <= i < |c| ==> c[i] == rest[i - 1];
    hide IsGap;
  }

  lemma LaidAnswer(ranked: seq<string>, top: string, final: string)
    ensures Laid(AnswerPieces(ranked, top, final)) && Laid(More(top, final))
  {
    GapsAreGaps();
    LaidMore(top, final);
    assert More(top, final)[0] == Punct("],");
    assert RankedHead() == [Punct("{")] + [Str("ok"), Punct(":true,")];
    LaidGap("{");
    LaidPair("ok", ":true,");
    LaidPair("ranked_surfaces", ":[");
    hide Laid, IsGap, ItemPieces, More;
    LaidAppend([Punct("{")], [Str("ok"), Punct(":true,")]);
    LaidItems(ranked, More(top, final));
    LaidAppend(RankedOpen(), ItemPieces(ranked) + More(top, final));
    LaidAppend(RankedHead(), RankedOpen() + (ItemPieces(ranked) + More(top, final)));
  }

  lemma LaidMore(top: string, final: string)
    ensures Laid(More(top, final))
  {
    GapsAreGaps();
    LaidGap("],");
    LaidPair("rerank_top1", ":");
    LaidPair(top, ",");
    LaidPair("final_top1", ":");
    LaidPair(final, ",");
    LaidPair("overwritten", ":");
    hide Laid, IsGap;
    LaidAppend([Str(final), Punct(",")], FlagPart());
    LaidAppend([Str("final_top1"), Punct(":")], [Str(final), Punct(",")] + FlagPart());
    LaidAppend([Str(top), Punct(",")], FinalPart(final));
    LaidAppend([Str("rerank_top1"), Punct(":")], [Str(top), Punct(",")] + FinalPart(final));
    LaidAppend([Punct("],")], TopPart(top, final));
  }

  /** The text behind the key, and what follows it. */
  function BehindField(ranked: seq<string>, top: string, final: string, key: string, flag: string): Option<string> {
    Behind(Render(AnswerPieces(ranked, top, final)) + flag, key, ":")
  }

  lemma AnswerSearch(ranked: seq<string>, top: string, final: string, key: string, flag: string)
    requires LateField(key)
    ensures var after := PiecesAfter(ItemPieces(ranked) + More(top, final), key);
      after.Some? && ColonText(after.value).Some? ==>
        BehindField(ranked, top, final, key, flag) == Some(ColonText(after.value).value + flag)
  {
    assert FieldName(key);
    FieldsAreKeys(key);
    var list := ItemPieces(ranked) + More(top, final);
    assert BehindField(ranked, top, final, key, flag)
      == Behind(Render(AnswerPieces(ranked, top, final)) + flag, key, ":");
    hide *;
    AnswerIs(ranked, top, final);
    HeadSkipped(list, key);
    LaidAnswer(ranked, top, final);
    if PiecesAfter(list, key).Some? && ColonText(PiecesAfter(list, key).value).Some? {
      FieldBehind(AnswerPieces(ranked, top, final), key, flag);
    }
  }

  lemma PastLanding(ranked: seq<string>, top: string, final: string, key: string, flag: string)
    requires LateField(key) && Lands(ranked, key) == Past
    requires PiecesAfter(More(top, final), key).Some? && ColonText(PiecesAfter(More(top, final), key).value).Some?
    ensures BehindField(ranked, top, final, key, flag) ==
      Some(ColonText(PiecesAfter(More(top, final), key).value).value + flag)
  {
    hide *;
    ListLanding(ranked, More(top, final), key);
    AnswerSearch(ranked, top, final, key, flag);
  }

  lemma NextLanding(ranked: seq<string>, top: string, final: string, key: string, flag: string)
    requires LateField(key) && Lands(ranked, key) == NextField
    ensures BehindField(ranked, top, final, key, flag) == Some(Quoted(top) + ("," + Render(FinalPart(final))) + flag)
  {
    hide *;
    ListLanding(ranked, More(top, final), key);
    MoreColon(top, final, key);
    AnswerSearch(ranked, top, final, key, flag);
  }

  lemma InsideLanding(ranked: seq<string>, top: string, final: string, key: string, flag: string) returns (w: string)
    requires LateField(key) && Lands(ranked, key).Inside?
    ensures BehindField(ranked, top, final, key, flag) == Some(Escape(Lands(ranked, key).behind) + ("\"" + w))
    ensures AfterSurface(w, Lands(ranked, key).last)
  {
    hide *;
    var list := ItemPieces(ranked) + More(top, final);
    var b, last := Lands(ranked, key).behind, Lands(ranked, key).last;
    ListLanding(ranked, More(top, final), key);
    AnswerSearch(ranked, top, final, key, flag);
    var u :| ColonText(PiecesAfter(list, key).value) == Some(Escape(b) + ("\"" + u))
      && (if last then u == Render(More(top, final)) else ListGoesOn(u));
    InsideText(Escape(b), u, flag);
    SurfaceEnds(u, last, top, final, flag);
    w := u + flag;
  }

  lemma InsideText(b: string, w: string, flag: string)
    ensures b + ("\"" + w) + flag == b + ("\"" + (w + flag))
  {
  }

  lemma SurfaceEnds(w: string, last: bool, top: string, final: string, flag: string)
    requires if last then w == Render(More(top, final)) else ListGoesOn(w)
    ensures AfterSurface(w + flag, last)
  {
    var z: string;
    if last {
      z := MoreBegins(top, final);
    } else {
      z := w[2..];
      assert w == "," + ("\"" + z);
    }
    hide Render, More;
    EndsOn(Separator(last), z, flag);
    assert w + flag == Separator(last) + ("\"" + (z + flag));
  }

  lemma EndsOn(sep: string, z: string, flag: string)
    ensures sep + ("\"" + z) + flag == sep + ("\"" + (z + flag))
  {
  }

  lemma MoreBegins(top: string, final: string) returns (z: string)
    ensures Render(More(top, final)) == "]," + ("\"" + z)
  {
    TopIs(top, final);
    var rest := [Punct(":")] + ([Str(top), Punct(",")] + FinalPart(final));
    assert TopPart(top, final) == [Str("rerank_top1")] + rest;
    z := Escape("rerank_top1") + "\"" + Render(rest);
    hide *;
    SkipGap("],", TopPart(top, final), "");
    SkipString("rerank_top1", rest, "");
    QuotedIsEscaped("rerank_top1");
    Reassociate("\"", Escape("rerank_top1"), "\"");
    TailText("\"", Escape("rerank_top1"), "\"", Render(rest));
  }

  lemma TailText(a: string, b: string, c: string, d: string)
    ensures a + b + c + d == a + (b + c + d)
  {
  }

  /** A separator and the quotation mark of what comes next. */
  ghost predicate AfterSurface(w: string, last: bool) {
    exists z :: w == Separator(last) + ("\"" + z)
  }

  lemma AnswerIs(ranked: seq<string>, top: string, final: string)
    ensures AnswerPieces(ranked, top, final) == RankedHead() + (RankedOpen() + (ItemPieces(ranked) + More(top, final)))
  {
  }

  lemma MoreColon(top: string, final: string, key: string)
    requires LateField(key)
    ensures ColonText(More(top, final)) == Some(Quoted(top) + ("," + Render(FinalPart(final))))
  {
    Gaps();
    assert FieldName("rerank_top1") && FieldName(key);
    hide *;
    SkipGap("],", TopPart(top, final), key);
    TopIs(top, final);
    Field("rerank_top1", [Str(top), Punct(",")] + FinalPart(final), key);
    FieldValue(top, FinalPart(final), key);
  }

  lemma TopIs(top: string, final: string)
    ensures More(top, final) == [Punct("],")] + TopPart(top, final)
    ensures TopPart(top, final) == [Str("rerank_top1"), Punct(":")] + ([Str(top), Punct(",")] + FinalPart(final))
    ensures FinalPart(final) == [Str("final_top1"), Punct(":")] + ([Str(final), Punct(",")] + FlagPart())
    ensures FlagPart() == [Str("overwritten"), Punct(":")] + []
  {
  }

  // ----- the values behind the keys -----

  lemma {:induction false} ScanItems(ranked: seq<string>, rest: string)
    requires ranked != [] && forall i :: 0 <= i < |ranked| ==> NoControl(ranked[i])
    ensures ScanArray(Items(ranked) + ("]" + rest)) == Scan(ranked, true)
    decreases |ranked|
  {
    hide ScanItem, Escape, NoControl, Items, ScanArray;
    if |ranked| == 1 {
      var v := ScanItemExact(ranked[0], "]" + rest);
      ItemsOne(ranked);
      ScanLast(ranked[0], rest);
      assert ranked == [ranked[0]];
    } else {
      var tail := Items(ranked[1..]) + ("]" + rest);
      var v := ScanItemExact(ranked[0], "," + tail);
      ScanItems(ranked[1..], rest);
      ItemsTwo(ranked);
      assert Items(ranked) + ("]" + rest) == Quoted(ranked[0]) + ("," + tail);
      ScanMore(ranked[0], tail);
      assert ranked == [ranked[0]] + ranked[1..];
    }
  }

  lemma ItemsOne(ranked: seq<string>)
    requires |ranked| == 1
    ensures Items(ranked) == Quoted(ranked[0])
  {
  }

  lemma ScanLast(s: string, rest: string)
    requires ScanItem(Escape(s) + "\"" + ("]" + rest)) == Some(Parsed(s, "]" + rest))
    ensures ScanArray(Quoted(s) + ("]" + rest)) == Scan([s], true)
  {
    hide ScanItem, Escape;
    var x := Quoted(s) + ("]" + rest);
    assert x[1..] == Escape(s) + "\"" + ("]" + rest);
    assert SkipSeparators(x) == x && SkipSeparators("]" + rest) == "]" + rest;
    assert ScanArray("]" + rest) == Scan([], true);
  }

  lemma ScanMore(s: string, tail: string)
    requires ScanItem(Escape(s) + "\"" + ("," + tail)) == Some(Parsed(s, "," + tail))
    ensures ScanArray(Quoted(s) + ("," + tail)) == Scan([s] + ScanArray(tail).items, ScanArray(tail).closed)
  {
    hide ScanItem, Escape;
    var x := Quoted(s) + ("," + tail);
    assert x[1..] == Escape(s) + "\"" + ("," + tail);
    assert SkipSeparators(x) == x;
    assert ("," + tail)[1..] == tail;
    assert SkipSeparators("," + tail) == SkipSeparators(tail);
    assert ScanArray("," + tail) == ScanArray(tail);
  }

  lemma ReadString(s: string, rest: string)
    requires OnlyLineControls(s)
    ensures var t := Quoted(s) + rest; SkipWhite(t) == t && t != "" && t[0] == '"' && ScanString(t[1..]) == Some(s)
  {
    hide ScanString, Escape;
    var v := ScanStringExact(s, rest);
    assert (Quoted(s) + rest)[1..] == Escape(s) + "\"" + rest;
  }

  lemma ArrayIs(json: string, key: string, after: string)
    requires Behind(json, key, "[") == Some(after) && ScanArray(after).closed
    ensures ExtractStringArray(json, key) == Some(ScanArray(after).items)
  {
    hide ScanArray, Behind;
  }

  lemma StringIs(json: string, key: string, s: string, rest: string)
    requires Behind(json, key, ":") == Some(Quoted(s) + rest) && OnlyLineControls(s)
    ensures ExtractString(json, key) == Some(s)
  {
    hide Behind, Quoted, SkipWhite, ScanString;
    ReadString(s, rest);
  }

  lemma BoolIs(json: string, key: string, b: bool, tail: string)
    requires Behind(json, key, ":") == Some((if b then "true" else "false") + tail)
    ensures ExtractBool(json, key) == Some(b)
  {
    hide Behind;
    var s := (if b then "true" else "false") + tail;
    assert SkipWhite(s) == s;
    if b {
      assert s[..4] == "true";
    } else {
      assert s[..5] == "false";
      assert s[0] == 'f' && "true"[0] == 't';
      assert s[..4][0] == 'f';
    }
  }

  /** Leading spaces are the only white space of a text without control bytes. */
  lemma {:induction false} SkipsSpaces(b: string, w: string)
    requires NoControl(b)
    ensures var d := DropSpaces(b); NoControl(d) && SkipWhite(Escape(b) + ("\"" + w)) == Escape(d) + ("\"" + w)
  {
    if b == "" {
      assert "" + ("\"" + w) == "\"" + w;
    } else {
      var rest := b[1..];
      EscapeSplit(b);
      CharBegins(b[0]);
      hide Escape, EscapeChar;
      assert EscapeChar(b[0]) + Escape(rest) + ("\"" + w) == EscapeChar(b[0]) + (Escape(rest) + ("\"" + w));
      if b[0] == ' ' {
        assert (EscapeChar(b[0]) + (Escape(rest) + ("\"" + w)))[1..] == Escape(rest) + ("\"" + w);
        SkipsSpaces(rest, w);
      }
    }
  }

  lemma CharBegins(c: char)
    requires c >= ' '
    ensures var e := EscapeChar(c);
      e != "" && (c == ' ' ==> e == " ") && (c != ' ' ==> !IsWhite(e[0])) && e[0] != '"'
      && (PlainChar(c) ==> e == [c]) && (!PlainChar(c) ==> e[0] == '\\')
  {
  }

  lemma EscapeBegins(d: string)
    requires NoControl(d) && d != ""
    ensures Escape(d) != "" && Escape(d)[0] != '"'
  {
    EscapeSplit(d);
    CharBegins(d[0]);
    hide EscapeChar, Escape;
  }

  /** A colon inside a surface: a string is read only if nothing but spaces follows it. */
  lemma SurfaceString(json: string, key: string, b: string, w: string, last: bool)
    requires NoControl(b) && Behind(json, key, ":") == Some(Escape(b) + ("\"" + w)) && AfterSurface(w, last)
    ensures ExtractString(json, key) == if DropSpaces(b) == "" then Some(Separator(last)) else None
  {
    var d := DropSpaces(b);
    SkipsSpaces(b, w);
    if d == "" {
      EscapeNothing();
      SeparatorRead(w, last);
      assert "" + ("\"" + w) == "\"" + w && ("\"" + w)[1..] == w;
    } else {
      EscapeBegins(d);
      assert (Escape(d) + ("\"" + w))[0] == Escape(d)[0];
    }
    hide Behind, SkipWhite, ScanString, Escape;
  }

  lemma SeparatorRead(w: string, last: bool)
    requires AfterSurface(w, last)
    ensures ScanString(w) == Some(Separator(last))
  {
    var z :| w == Separator(last) + ("\"" + z);
    assert ScanString("\"" + z) == Some("");
    hide ScanString;
    ScanPlainRun(Separator(last), "\"" + z);
    assert Separator(last) + "" == Separator(last);
  }

  function WordRead(s: string): Option<bool> {
    if StartsWith(s, "true") then Some(true) else if StartsWith(s, "false") then Some(false) else None
  }

  lemma SurfaceWord(json: string, key: string, b: string, w: string)
    requires NoControl(b) && Behind(json, key, ":") == Some(Escape(b) + ("\"" + w))
    ensures ExtractBool(json, key) == WordRead(DropSpaces(b))
  {
    SkipsSpaces(b, w);
    PlainTrue();
    hide Behind, SkipWhite, Escape, StartsWith, PlainText;
    WordPrefix(DropSpaces(b), "true", w);
    WordPrefix(DropSpaces(b), "false", w);
  }

  lemma PlainTrue()
    ensures PlainText("true") && PlainText("false")
  {
  }

  /** A printed text begins with a plain word exactly when the text does. */
  lemma {:induction false} WordPrefix(d: string, word: string, w: string)
    requires NoControl(d) && PlainText(word)
    ensures StartsWith(Escape(d) + ("\"" + w), word) <==> StartsWith(d, word)
  {
    if word != "" {
      assert PlainChar(word[0]);
      var x := Escape(d) + ("\"" + w);
      StartsWithCons(x, word);
      StartsWithCons(d, word);
      if d != "" {
        EscapeSplit(d);
        CharBegins(d[0]);
        WordPrefix(d[1..], word[1..], w);
        hide Escape, EscapeChar, StartsWith;
        assert EscapeChar(d[0]) + Escape(d[1..]) + ("\"" + w) == EscapeChar(d[0]) + (Escape(d[1..]) + ("\"" + w));
        if PlainChar(d[0]) {
          assert x[1..] == Escape(d[1..]) + ("\"" + w);
        }
      } else {
        EscapeNothing();
        assert x == "\"" + w;
      }
    }
  }

  lemma StartsWithCons(x: string, word: string)
    requires word != ""
    ensures StartsWith(x, word) <==> x != "" && x[0] == word[0] && StartsWith(x[1..], word[1..])
  {
    if |word| <= |x| {
      assert x[..|word|] == [x[0]] + x[1..][..|word| - 1];
      assert word == [word[0]] + word[1..];
    }
  }

  // ----- what is read -----

  ghost predicate AllClean(ranked: seq<string>) { forall i :: 0 <= i < |ranked| ==> NoControl(ranked[i]) }

  lemma CleanTail(ranked: seq<string>)
    requires AllClean(ranked) && ranked != []
    ensures NoControl(ranked[0]) && AllClean(ranked[1..])
  {
    hide NoControl;
    assert forall i :: 0 <= i < |ranked[1..]| ==> ranked[1..][i] == ranked[i + 1];
  }

  /** The surface in which the search lands has no control byte either. */
  lemma LandingNoControl(ranked: seq<string>, key: string)
    requires AllClean(ranked)
    ensures Lands(ranked, key).Inside? ==> NoControl(Lands(ranked, key).behind)
  {
    hide NoControl, EndsInKey, AllClean;
    AfterAll(ranked, key);
    if After(ranked, key).Some? {
      var rest := After(ranked, key).value;
      FromAll(rest);
      var m := FromColon(rest);
      if m != [] {
        CleanTail(m);
        SuffixNoControl(m[0], ColonAt(m[0]) + 1);
      }
    }
  }

  lemma SuffixNoControl(s: string, n: nat)
    requires n <= |s| && NoControl(s)
    ensures NoControl(s[n..])
  {
  }

  lemma {:induction false} AfterAll(ranked: seq<string>, key: string)
    requires AllClean(ranked)
    ensures After(ranked, key).Some? ==> AllClean(After(ranked, key).value)
  {
    hide AllClean, EndsInKey;
    if ranked != [] {
      CleanTail(ranked);
      AfterAll(ranked[1..], key);
    }
  }

  lemma {:induction false} FromAll(ranked: seq<string>)
    requires AllClean(ranked)
    ensures AllClean(FromColon(ranked))
  {
    hide AllClean;
    if ranked != [] {
      CleanTail(ranked);
      FromAll(ranked[1..]);
    }
  }

  function SurfaceRead(b: string, last: bool): Option<string> {
    if DropSpaces(b) == "" then Some(Separator(last)) else None
  }

  function TopRead(ranked: seq<string>, top: string): Option<string> {
    match Lands(ranked, "rerank_top1")
    case Past => Some(top)
    case NextField => Some(top)
    case Inside(b, last) => SurfaceRead(b, last)
  }

  function FinalRead(ranked: seq<string>, top: string, final: string): Option<string> {
    match Lands(ranked, "final_top1")
    case Past => Some(final)
    case NextField => Some(top)
    case Inside(b, last) => SurfaceRead(b, last)
  }

  function FlagRead(ranked: seq<string>, top: string, overwritten: bool): Option<bool> {
    match Lands(ranked, "overwritten")
    case Past => if EndsInKey(top, "overwritten") then None else Some(overwritten)
    case NextField => None
    case Inside(b, _) => WordRead(DropSpaces(b))
  }

  lemma MoreTop(top: string, final: string)
    ensures var after := PiecesAfter(More(top, final), "rerank_top1");
      after.Some? && ColonText(after.value) == Some(Quoted(top) + ("," + Render(FinalPart(final))))
  {
    var key := "rerank_top1";
    assert FieldName(key);
    hide *;
    TopIs(top, final);
    SkipGap("],", TopPart(top, final), key);
    Field(key, [Str(top), Punct(",")] + FinalPart(final), key);
    FieldValue(top, FinalPart(final), key);
  }

  lemma MoreFinal(top: string, final: string)
    ensures var after := PiecesAfter(More(top, final), "final_top1");
      after.Some? && ColonText(after.value) == Some(Quoted(final) + ("," + Render(FlagPart())))
  {
    var key := "final_top1";
    assert FieldName(key) && FieldName("rerank_top1") && key != "rerank_top1";
    hide *;
    TopIs(top, final);
    SkipGap("],", TopPart(top, final), key);
    Field("rerank_top1", [Str(top), Punct(",")] + FinalPart(final), key);
    FieldValue(top, FinalPart(final), key);
    Field(key, [Str(final), Punct(",")] + FlagPart(), key);
    FieldValue(final, FlagPart(), key);
  }

  lemma MoreFlag(top: string, final: string)
    ensures var after := PiecesAfter(More(top, final), "overwritten");
      after.Some? && ColonText(after.value) ==
        Some(if EndsInKey(top, "overwritten") then Quoted(final) + ("," + Render(FlagPart())) else "")
  {
    var key := "overwritten";
    assert FieldName(key) && FieldName("rerank_top1") && FieldName("final_top1") && key != "rerank_top1"
      && key != "final_top1";
    RenderNothing();
    hide *;
    TopIs(top, final);
    SkipGap("],", TopPart(top, final), key);
    Field("rerank_top1", [Str(top), Punct(",")] + FinalPart(final), key);
    FieldValue(top, FinalPart(final), key);
    Field("final_top1", [Str(final), Punct(",")] + FlagPart(), key);
    FieldValue(final, FlagPart(), key);
    Field(key, [], key);
  }

  lemma ReadTop(ranked: seq<string>, top: string, final: string, overwritten: bool, tail: string)
    requires AllClean(ranked) && OnlyLineControls(top)
    ensures ExtractString(DaemonJson(ranked, top, final, overwritten, tail), "rerank_top1") == TopRead(ranked, top)
  {
    var json, key := DaemonJson(ranked, top, final, overwritten, tail), "rerank_top1";
    var flag := FlagAndTail(overwritten, tail);
    assert LateField(key);
    assert Behind(json, key, ":") == BehindField(ranked, top, final, key, flag);
    hide AnswerPieces, DaemonJson, Lands, ExtractString, BehindField, Behind, More, PiecesAfter, ColonText, Render,
      Quoted,
      OnlyLineControls, NoControl, AllClean, SurfaceRead, AfterSurface, FlagAndTail, FinalPart;
    match Lands(ranked, key)
    case Past =>
      MoreTop(top, final);
      PastLanding(ranked, top, final, key, flag);
      ValueText(json, key, top, Render(FinalPart(final)), flag);
    case NextField =>
      NextLanding(ranked, top, final, key, flag);
      ValueText(json, key, top, Render(FinalPart(final)), flag);
    case Inside(b, last) =>
      LandingNoControl(ranked, key);
      var w := InsideLanding(ranked, top, final, key, flag);
      SurfaceString(json, key, b, w, last);
      SurfaceReadIs(b, last);
  }

  lemma SurfaceReadIs(b: string, last: bool)
    ensures SurfaceRead(b, last) == if DropSpaces(b) == "" then Some(Separator(last)) else None
  {
  }

  lemma ValueText(json: string, key: string, s: string, more: string, flag: string)
    requires Behind(json, key, ":") == Some(Quoted(s) + ("," + more) + flag) && OnlyLineControls(s)
    ensures ExtractString(json, key) == Some(s)
  {
    hide *;
    Reassociate(Quoted(s), "," + more, flag);
    StringIs(json, key, s, "," + more + flag);
  }

  lemma ReadFinal(ranked: seq<string>, top: string, final: string, overwritten: bool, tail: string)
    requires AllClean(ranked) && OnlyLineControls(top) && OnlyLineControls(final)
    ensures ExtractString(DaemonJson(ranked, top, final, overwritten, tail), "final_top1")
      == FinalRead(ranked, top, final)
  {
    var json, key := DaemonJson(ranked, top, final, overwritten, tail), "final_top1";
    var flag := FlagAndTail(overwritten, tail);
    assert LateField(key);
    assert Behind(json, key, ":") == BehindField(ranked, top, final, key, flag);
    hide AnswerPieces, DaemonJson, Lands, ExtractString, BehindField, Behind, More, PiecesAfter, ColonText, Render,
      Quoted,
      OnlyLineControls, NoControl, AllClean, SurfaceRead, AfterSurface, FlagAndTail, FinalPart, FlagPart;
    match Lands(ranked, key)
    case Past =>
      MoreFinal(top, final);
      PastLanding(ranked, top, final, key, flag);
      ValueText(json, key, final, Render(FlagPart()), flag);
    case NextField =>
      NextLanding(ranked, top, final, key, flag);
      ValueText(json, key, top, Render(FinalPart(final)), flag);
    case Inside(b, last) =>
      LandingNoControl(ranked, key);
      var w := InsideLanding(ranked, top, final, key, flag);
      SurfaceString(json, key, b, w, last);
      SurfaceReadIs(b, last);
  }

  lemma ReadFlag(ranked: seq<string>, top: string, final: string, overwritten: bool, tail: string)
    requires AllClean(ranked)
    ensures ExtractBool(DaemonJson(ranked, top, final, overwritten, tail), "overwritten")
      == FlagRead(ranked, top, overwritten)
  {
    var json, key := DaemonJson(ranked, top, final, overwritten, tail), "overwritten";
    var flag := FlagAndTail(overwritten, tail);
    assert LateField(key);
    assert Behind(json, key, ":") == BehindField(ranked, top, final, key, flag);
    hide AnswerPieces, DaemonJson, Lands, ExtractBool, BehindField, Behind, More, PiecesAfter, ColonText, Render,
      Quoted,
      OnlyLineControls, NoControl, AllClean, AfterSurface, FlagAndTail, FinalPart, FlagPart, WordRead, EndsInKey;
    match Lands(ranked, key)
    case Past =>
      MoreFlag(top, final);
      PastLanding(ranked, top, final, key, flag);
      if EndsInKey(top, key) {
        NoFlagText(json, key, final, "," + Render(FlagPart()), flag);
      } else {
        FlagText(json, key, overwritten, tail);
      }
    case NextField =>
      NextLanding(ranked, top, final, key, flag);
      NoFlagText(json, key, top, "," + Render(FinalPart(final)), flag);
    case Inside(b, last) =>
      LandingNoControl(ranked, key);
      var w := InsideLanding(ranked, top, final, key, flag);
      SurfaceWord(json, key, b, w);
  }

  lemma FlagText(json: string, key: string, b: bool, tail: string)
    requires Behind(json, key, ":") == Some("" + FlagAndTail(b, tail))
    ensures ExtractBool(json, key) == Some(b)
  {
    assert "" + FlagAndTail(b, tail) == FlagAndTail(b, tail);
    hide Behind, ExtractBool;
    BoolIs(json, key, b, tail);
  }

  /** A string where the flag is expected. */
  lemma NoFlagText(json: string, key: string, s: string, more: string, flag: string)
    requires Behind(json, key, ":") == Some(Quoted(s) + more + flag)
    ensures ExtractBool(json, key) == None
  {
    var t := Quoted(s) + more + flag;
    assert t[0] == '"';
    assert SkipWhite(t) == t;
    assert "true"[0] == 't' && "false"[0] == 'f';
    hide Behind, Quoted;
    StartsWithHead(t, "true");
    StartsWithHead(t, "false");
  }

  lemma ReadRanked(ranked: seq<string>, top: string, final: string, overwritten: bool, tail: string)
    requires AllClean(ranked) && ranked != []
    ensures ExtractStringArray(DaemonJson(ranked, top, final, overwritten, tail), "ranked_surfaces") == Some(ranked)
  {
    var json, key := DaemonJson(ranked, top, final, overwritten, tail), "ranked_surfaces";
    var flag := FlagAndTail(overwritten, tail);
    var list := ItemPieces(ranked) + More(top, final);
    var rest := "," + Render(TopPart(top, final)) + flag;
    assert json == Render(AnswerPieces(ranked, top, final)) + flag;
    assert FieldName(key) && forall i :: 0 <= i < |ranked| ==> NoControl(ranked[i]);
    FieldsAreKeys(key);
    ListBehind(list);
    ListText(ranked, top, final, flag);
    hide *;
    LaidAnswer(ranked, top, final);
    AnswerIs(ranked, top, final);
    var pre := KeyFound(AnswerPieces(ranked, top, final), key, flag);
    BracketBehind(json, pre, key, Items(ranked) + ("]" + rest));
    ScanItems(ranked, rest);
    ArrayIs(json, key, Items(ranked) + ("]" + rest));
  }

  lemma ListBehind(list: seq<Piece>)
    ensures PiecesAfter(RankedHead() + (RankedOpen() + list), "ranked_surfaces") == Some([Punct(":[")] + list)
  {
    var key := "ranked_surfaces";
    assert FieldName(key) && FieldName("ok") && key != "ok";
    OtherFieldIsSafe("ok", key);
    OwnKey(key);
    HeadPieces(list);
    hide *;
    SkipGap("{", [Str("ok")] + ([Punct(":true,")] + ([Str(key)] + ([Punct(":[")] + list))), key);
    SkipString("ok", [Punct(":true,")] + ([Str(key)] + ([Punct(":[")] + list)), key);
    SkipGap(":true,", [Str(key)] + ([Punct(":[")] + list), key);
    SkipString(key, [Punct(":[")] + list, key);
  }

  lemma ListText(ranked: seq<string>, top: string, final: string, flag: string)
    ensures Render([Punct(":[")] + (ItemPieces(ranked) + More(top, final))) + flag ==
      ":" + "[" + (Items(ranked) + ("]" + ("," + Render(TopPart(top, final)) + flag)))
  {
    TopIs(top, final);
    hide *;
    SkipGap(":[", ItemPieces(ranked) + More(top, final), "");
    RenderAppend(ItemPieces(ranked), More(top, final));
    RenderItemPieces(ranked);
    SkipGap("],", TopPart(top, final), "");
    BracketParts(Items(ranked), Render(TopPart(top, final)), flag);
  }

  lemma BracketParts(items: string, more: string, flag: string)
    ensures ":[" + (items + ("]," + more)) + flag == ":" + "[" + (items + ("]" + ("," + more + flag)))
  {
  }

  lemma BracketBehind(json: string, pre: string, key: string, after: string)
    requires json == pre + Needle(key) + (":" + "[" + after)
      && Clear(pre, Needle(key), Needle(key) + (":" + "[" + after))
    ensures Behind(json, key, "[") == Some(after)
  {
    assert ":"[0] != "["[0];
    hide *;
    BehindKey(pre, key, ":", "[", after);
  }

  // ----- the theorems -----

  function OrEmpty(s: Option<string>): string { if s.Some? then s.value else "" }

  /** What the rewriter gets for an answer. */
  function Received(ranked: seq<string>, top: string, final: string, overwritten: bool): HookResult<string>
    requires ranked != []
  {
    var f := OrEmpty(FinalRead(ranked, top, final));
    HookResult(ranked, OrEmpty(TopRead(ranked, top)), if f != "" then f else ranked[0],
               FlagRead(ranked, top, overwritten) == Some(true))
  }

  /** Whatever the surfaces hold, control bytes apart: the list is exact, and each field is what its search lands on. */
  lemma AnswerReceived(ranked: seq<string>, top: string, final: string, overwritten: bool, tail: string)
    requires ranked != [] && AllClean(ranked) && OnlyLineControls(top) && OnlyLineControls(final)
    ensures ParsedResponse(DaemonJson(ranked, top, final, overwritten, tail)) ==
      Some(Received(ranked, top, final, overwritten))
  {
    ReadRanked(ranked, top, final, overwritten, tail);
    ReadTop(ranked, top, final, overwritten, tail);
    ReadFinal(ranked, top, final, overwritten, tail);
    ReadFlag(ranked, top, final, overwritten, tail);
    hide DaemonJson, ExtractString, ExtractStringArray, ExtractBool, AllClean, OnlyLineControls, TopRead, FinalRead,
      FlagRead;
  }

  /** No colon stands between a surface that shows the key and the field, or what follows the colon reads the same. */
  predicate TopKept(ranked: seq<string>, top: string) {
    match Lands(ranked, "rerank_top1")
    case Past => true
    case NextField => true
    case Inside(b, last) => top == if DropSpaces(b) == "" then Separator(last) else ""
  }

  predicate FinalKept(ranked: seq<string>, top: string, final: string)
    requires ranked != []
  {
    match Lands(ranked, "final_top1")
    case Past => final != "" || ranked[0] == ""
    case NextField => final == if top != "" then top else ranked[0]
    case Inside(b, last) => final == if DropSpaces(b) == "" then Separator(last) else ranked[0]
  }

  predicate FlagKept(ranked: seq<string>, top: string, overwritten: bool) {
    match Lands(ranked, "overwritten")
    case Past => EndsInKey(top, "overwritten") ==> !overwritten
    case NextField => !overwritten
    case Inside(b, _) => overwritten == StartsWith(DropSpaces(b), "true")
  }

  /** The answer is received as it was sent exactly when each of the three fields is kept. */
  lemma RoundTrip(ranked: seq<string>, top: string, final: string, overwritten: bool, tail: string)
    requires ranked != [] && AllClean(ranked) && OnlyLineControls(top) && OnlyLineControls(final)
    ensures ParsedResponse(DaemonJson(ranked, top, final, overwritten, tail)) ==
      Some(HookResult(ranked, top, final, overwritten))
      <==> TopKept(ranked, top) && FinalKept(ranked, top, final) && FlagKept(ranked, top, overwritten)
  {
    AnswerReceived(ranked, top, final, overwritten, tail);
    TopKeptIs(ranked, top);
    FinalKeptIs(ranked, top, final);
    FlagKeptIs(ranked, top, overwritten);
    hide ParsedResponse, DaemonJson, AllClean, OnlyLineControls, TopRead, FinalRead, FlagRead, TopKept, FinalKept,
      FlagKept;
  }

  lemma TopKeptIs(ranked: seq<string>, top: string)
    ensures OrEmpty(TopRead(ranked, top)) == top <==> TopKept(ranked, top)
  {
    hide Lands, DropSpaces;
  }

  lemma FinalKeptIs(ranked: seq<string>, top: string, final: string)
    requires ranked != []
    ensures var f := OrEmpty(FinalRead(ranked, top, final));
      (if f != "" then f else ranked[0]) == final <==> FinalKept(ranked, top, final)
  {
    hide Lands, DropSpaces;
  }

  lemma FlagKeptIs(ranked: seq<string>, top: string, overwritten: bool)
    ensures (FlagRead(ranked, top, overwritten) == Some(true)) == overwritten <==> FlagKept(ranked, top, overwritten)
  {
    hide Lands, DropSpaces, EndsInKey, StartsWith;
  }

  /** An answer the daemon can send: two candidates, the second one scored best but not by the margin. */
  lemma FieldNameAsSurface(tail: string)
    ensures ParsedResponse(DaemonJson(["rerank_top1", "a:b"], "a:b", "rerank_top1", false, tail)) ==
      Some(HookResult(["rerank_top1", "a:b"], "", "rerank_top1", false))
  {
    var ranked := ["rerank_top1", "a:b"];
    ExampleIsClean();
    ExampleLands();
    AnswerReceived(ranked, "a:b", "rerank_top1", false, tail);
    hide ParsedResponse, DaemonJson, AllClean, OnlyLineControls, Lands;
    assert DropSpaces("b") == "b";
  }

  lemma ExampleIsClean()
    ensures AllClean(["rerank_top1", "a:b"]) && OnlyLineControls("a:b") && OnlyLineControls("rerank_top1")
  {
  }

  lemma ExampleLands()
    ensures var ranked := ["rerank_top1", "a:b"];
      && Lands(ranked, "rerank_top1") == Inside("b", true) && Lands(ranked, "final_top1") == Past
      && Lands(ranked, "overwritten") == Past && !EndsInKey("a:b", "overwritten")
  {
    var ranked := ["rerank_top1", "a:b"];
    assert ranked[1..] == ["a:b"] && ["a:b"][1..] == [];
    assert FieldName("rerank_top1") && FieldName("final_top1") && FieldName("overwritten");
    OtherFieldIsSafe("rerank_top1", "final_top1");
    OtherFieldIsSafe("rerank_top1", "overwritten");
    ShortIsSafe();
    ColonOfExample();
    hide FieldName, EndsInKey, ColonAt;
    OwnKey("rerank_top1");
    assert "a:b"[2..] == "b";
  }

  lemma ShortIsSafe()
    ensures !EndsInKey("a:b", "final_top1") && !EndsInKey("a:b", "overwritten")
  {
    assert |"a:b"| == 3 && |"final_top1"| == 10 && |"overwritten"| == 11;
  }

  lemma ColonOfExample()
    ensures ColonAt("a:b") == 1
  {
    assert "a:b"[1..] == ":b";
  }
}
