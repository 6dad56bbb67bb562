/**
 Client and daemon together: the request is printed, parsed and answered, the answer is printed and
 read back, and the candidates come out in the daemon's order. On the wire a byte is a char.
 */
module EndToEnd {
  import opened Text
  import opened Json
  import opened Request
  import opened HookResponse
  import opened ResponseText
  import opened RerankRewriter
  import opened Reorder
  import D = Degrade
  import Daemon
  import F = FailSafe
  import G = Guard
  import R = ResponseRoundTrip

  // ----- bytes on the wire -----

  function Chars(b: Bytes): string { seq(|b|, k requires 0 <= k < |b| => b[k] as char) }

  function Octets(s: string): Bytes {
    seq(|s|, k requires 0 <= k < |s| => if s[k] < 256 as char then s[k] as int else 0)
  }

  function AllChars(bs: seq<Bytes>): seq<string> { seq(|bs|, k requires 0 <= k < |bs| => Chars(bs[k])) }
  function AllOctets(ss: seq<string>): seq<Bytes> { seq(|ss|, k requires 0 <= k < |ss| => Octets(ss[k])) }

  lemma OctetsOfChars(b: Bytes)
    ensures Octets(Chars(b)) == b
  {
  }

  lemma AllOctetsOfChars(bs: seq<Bytes>)
    ensures AllOctets(AllChars(bs)) == bs
  {
    hide Octets, Chars;
    forall k | 0 <= k < |bs|
      ensures AllOctets(AllChars(bs))[k] == bs[k]
    {
      OctetsOfChars(bs[k]);
    }
  }

  // ----- the handler -----

  /** The name of a Python exception, or nothing. */
  ghost predicate IsName(s: string) { PlainText(s) && s != "ranked_surfaces" }

  function ErrorPart(error: string): seq<Piece> {
    if error == "" then [] else [Str("error_type"), Punct(":"), Str(error), Punct(",")]
  }

  function Refused(error: string): seq<Piece> {
    [Punct("{"), Str("ok"), Punct(":false,")] + (ErrorPart(error) + [Str("ranked_surfaces"), Punct(":[]")])
  }

  /** The printed answer; without candidates it may name an exception. */
  function Printed(a: HookResult<Surface>, error: string, tail: string): string {
    if a.ranked == [] then Render(Refused(error)) + tail
    else R.DaemonJson(AllChars(a.ranked), Chars(a.rerankTop1), Chars(a.finalTop1), a.overwritten, tail)
  }

  function Member(members: seq<(string, Value)>, key: string): Option<Value> {
    if members == [] then None else if members[0].0 == key then Some(members[0].1) else Member(members[1..], key)
  }

  function TextOf(v: Option<Value>): string { if v.Some? && v.value.String? then v.value.s else "" }

  /** The strings of a list. */
  function TextsOf(vs: seq<Value>): seq<string> {
    if vs == [] then [] else (if vs[0].String? then [vs[0].s] else []) + TextsOf(vs[1..])
  }

  function ListOf(v: Option<Value>): seq<string> { if v.Some? && v.value.Array? then TextsOf(v.value.items) else [] }

  /** The three fields of a request; a line that is no object has none of them. */
  ghost function Asked(line: string): (string, seq<string>, string) {
    match ParseText(line)
    case Some(Object(m)) =>
      (TextOf(Member(m, "reading")), ListOf(Member(m, "nbest")), TextOf(Member(m, "context_prev")))
    case _ => ("", [], "")
  }

  /**
   The answer to one line. Python decodes the whole line before it parses it; a line is UTF-8
   exactly when its strings are, since all else on it is ASCII, and Rerank refuses the others.
   */
  ghost function Reply(env: Daemon.Env, line: string, error: string, tail: string): string {
    var (reading, nbest, context) := Asked(line);
    Printed(Daemon.Rerank(env, Octets(reading), Octets(context), AllOctets(nbest)), error, tail)
  }

  function ToOutcome(r: Option<HookResult<string>>): Outcome {
    if r.None? then Failed
    else
      var h := r.value;
      Answered(HookResult(AllOctets(h.ranked), Octets(h.rerankTop1), Octets(h.finalTop1), h.overwritten))
  }

  /** The hook: the request goes out, the answer comes back. */
  ghost function Exchange(env: Daemon.Env, error: string, tail: string, reading: Bytes, nbest: seq<Bytes>,
                          context: Bytes): Outcome {
    ToOutcome(ParsedResponse(Reply(env, RequestLine(Chars(reading), AllChars(nbest), Chars(context)), error, tail)))
  }

  // ----- the way out -----

  lemma {:induction false} TextsOfStrings(nbest: seq<string>)
    ensures TextsOf(Strings(nbest)) == nbest
  {
    if nbest != [] {
      TextsOfStrings(nbest[1..]);
      assert Strings(nbest)[1..] == Strings(nbest[1..]);
    }
  }

  lemma MemberNext(m: (string, Value), rest: seq<(string, Value)>, key: string)
    ensures Member([m] + rest, key) == if m.0 == key then Some(m.1) else Member(rest, key)
  {
    assert ([m] + rest)[1..] == rest;
  }

  lemma MembersFound(a: Value, b: Value, c: Value)
    ensures var m := [("reading", a), ("context_prev", b), ("nbest", c)];
      Member(m, "reading") == Some(a) && Member(m, "context_prev") == Some(b) && Member(m, "nbest") == Some(c)
  {
    hide Member;
    var x, y, z := ("reading", a), ("context_prev", b), ("nbest", c);
    assert [x, y, z] == [x] + ([y] + ([z] + []));
    forall key: string
      ensures Member([x, y, z], key) == if key == x.0 then Some(a) else Member([y] + ([z] + []), key)
      ensures Member([y] + ([z] + []), key) == if key == y.0 then Some(b) else Member([z] + [], key)
      ensures Member([z] + [], key) == if key == z.0 then Some(c) else Member([], key)
    {
      MemberNext(x, [y] + ([z] + []), key);
      MemberNext(y, [z] + [], key);
      MemberNext(z, [], key);
    }
  }

  /** The daemon is asked for the very fields that the rewriter sent. */
  lemma AskedIsSent(reading: string, nbest: seq<string>, context: string)
    ensures Asked(RequestLine(reading, nbest, context)) == (reading, nbest, context)
  {
    hide RequestLine, ParseText, Strings, TextsOf, Member;
    RequestRoundTrip(reading, nbest, context);
    MembersFound(String(reading), String(context), Array(Strings(nbest)));
    TextsOfStrings(nbest);
  }

  lemma ReplyIsPrinted(env: Daemon.Env, error: string, tail: string, reading: Bytes, nbest: seq<Bytes>, context: Bytes)
    ensures Reply(env, RequestLine(Chars(reading), AllChars(nbest), Chars(context)), error, tail) ==
      Printed(Daemon.Rerank(env, reading, context, nbest), error, tail)
  {
    hide RequestLine, Asked, Chars, Octets, AllChars, AllOctets, Printed, Daemon.Rerank;
    AskedIsSent(Chars(reading), AllChars(nbest), Chars(context));
    OctetsOfChars(reading);
    OctetsOfChars(context);
    AllOctetsOfChars(nbest);
  }

  // ----- the way back -----

  /** A literal without the key and the punctuation behind it. */
  lemma PassPair(s: string, p: string, rest: seq<Piece>, key: string)
    requires !EndsInKey(s, key) && IsGap(p) && Laid(rest)
    ensures var ps := [Str(s), Punct(p)] + rest; Laid(ps) && PiecesAfter(ps, key) == PiecesAfter(rest, key)
  {
    hide *;
    assert [Str(s), Punct(p)] + rest == [Str(s)] + ([Punct(p)] + rest);
    R.SkipString(s, [Punct(p)] + rest, key);
    R.SkipGap(p, rest, key);
    R.LaidPair(s, p);
    LaidAppend([Str(s), Punct(p)], rest);
  }

  lemma OtherNames(error: string)
    requires IsName(error)
    ensures var key := "ranked_surfaces";
      !EndsInKey("ok", key) && !EndsInKey("error_type", key) && !EndsInKey(error, key)
    ensures IsGap("{") && IsGap(":false,") && IsGap(":") && IsGap(",") && IsGap(":[]")
  {
    R.PlainIsSafe(error, "ranked_surfaces");
  }

  lemma RefusedIs(error: string)
    ensures var last := [Str("ranked_surfaces"), Punct(":[]")];
      Refused(error) == [Punct("{")] + ([Str("ok"), Punct(":false,")] +
        if error == "" then last else [Str("error_type"), Punct(":")] + ([Str(error), Punct(",")] + last))
  {
  }

  lemma RefusedPieces(error: string)
    requires IsName(error)
    ensures Laid(Refused(error)) && PiecesAfter(Refused(error), "ranked_surfaces") == Some([Punct(":[]")])
  {
    hide *;
    var key := "ranked_surfaces";
    var last := [Str(key), Punct(":[]")];
    OtherNames(error);
    RefusedIs(error);
    R.OwnKey(key);
    R.SkipString(key, [Punct(":[]")], key);
    assert last == [Str(key)] + [Punct(":[]")];
    R.LaidPair(key, ":[]");
    PassPair(error, ",", last, key);
    PassPair("error_type", ":", [Str(error), Punct(",")] + last, key);
    var rest := if error == "" then last else [Str("error_type"), Punct(":")] + ([Str(error), Punct(",")] + last);
    PassPair("ok", ":false,", rest, key);
    R.LaidGap("{");
    LaidAppend([Punct("{")], [Str("ok"), Punct(":false,")] + rest);
    R.SkipGap("{", [Str("ok"), Punct(":false,")] + rest, key);
  }

  /** An answer without candidates is no answer to the rewriter. */
  lemma RefusalIsNone(error: string, tail: string)
    requires IsName(error)
    ensures ParsedResponse(Render(Refused(error)) + tail) == None
  {
    var key := "ranked_surfaces";
    var json := Render(Refused(error)) + tail;
    R.FieldsAreKeys(key);
    RefusedPieces(error);
    EmptyListText(tail);
    EmptyScan(tail);
    var pre := KeyFound(Refused(error), key, tail);
    hide Render, Laid, PiecesAfter, IsKey, ScanArray, Behind;
    BehindKey(pre, key, ":", "[", "]" + tail);
  }

  lemma EmptyListText(tail: string)
    ensures Render([Punct(":[]")]) + tail == ":" + "[" + ("]" + tail)
  {
    assert [Punct(":[]")][1..] == [];
  }

  lemma EmptyScan(tail: string)
    ensures ScanArray("]" + tail) == Scan([], true)
  {
  }

  ghost predicate NoControls(nbest: seq<Surface>) { R.AllClean(AllChars(nbest)) }

  lemma MemberIsClean(nbest: seq<Surface>, v: Surface)
    requires NoControls(nbest) && v in nbest
    ensures NoControl(Chars(v)) && OnlyLineControls(Chars(v))
  {
    hide Chars;
    var k :| 0 <= k < |nbest| && nbest[k] == v;
    assert AllChars(nbest)[k] == Chars(v);
  }

  lemma PartIsClean(part: seq<Surface>, nbest: seq<Surface>)
    requires NoControls(nbest) && multiset(part) <= multiset(nbest)
    ensures NoControls(part)
  {
    hide Chars, NoControl;
    forall k | 0 <= k < |part|
      ensures NoControl(AllChars(part)[k])
    {
      assert part[k] in multiset(part) && part[k] in multiset(nbest);
      MemberIsClean(nbest, part[k]);
    }
  }

  /** What the rewriter gets for a printed answer with candidates. */
  function Seen(a: HookResult<Surface>): HookResult<string>
    requires a.ranked != []
  {
    R.Received(AllChars(a.ranked), Chars(a.rerankTop1), Chars(a.finalTop1), a.overwritten)
  }

  /** The hook's outcome: nothing for an answer without candidates, else its list and what the fields read as. */
  lemma ExchangeIs(env: Daemon.Env, error: string, tail: string, reading: Bytes, nbest: seq<Surface>, context: Bytes)
    requires NoControls(nbest) && IsName(error)
    ensures var a := Daemon.Rerank(env, reading, context, nbest);
      Exchange(env, error, tail, reading, nbest, context) ==
        if a.ranked == [] then Failed
        else Answered(HookResult(a.ranked, Octets(Seen(a).rerankTop1), Octets(Seen(a).finalTop1), Seen(a).overwritten))
  {
    hide Daemon.Rerank, Reply, ParsedResponse, Refused, NoControls, IsName, Octets, Chars, AllChars, AllOctets,
      R.DaemonJson, NoControl, OnlyLineControls, R.TopRead, R.FinalRead, R.FlagRead;
    var a := Daemon.Rerank(env, reading, context, nbest);
    ReplyIsPrinted(env, error, tail, reading, nbest, context);
    if a.ranked == [] {
      RefusalIsNone(error, tail);
    } else {
      Daemon.AnswerIsDrawn(env, reading, context, nbest);
      PartIsClean(a.ranked, nbest);
      MemberIsClean(nbest, a.rerankTop1);
      MemberIsClean(nbest, a.finalTop1);
      NoControlsIs(a.ranked);
      AllOctetsOfChars(a.ranked);
      R.AnswerReceived(AllChars(a.ranked), Chars(a.rerankTop1), Chars(a.finalTop1), a.overwritten, tail);
    }
  }

  lemma NoControlsIs(part: seq<Surface>)
    ensures NoControls(part) <==> R.AllClean(AllChars(part))
    ensures |AllChars(part)| == |part|
  {
  }

  // ----- the whole way -----

  /** The fields of the answer read as an overwrite with junk. */
  ghost predicate ReadsAsJunk(a: HookResult<Surface>)
    requires a.ranked != []
  {
    Seen(a).overwritten && G.Junk(G.Cps(Octets(Seen(a).finalTop1)))
  }

  ghost predicate Asks(cfg: Config, d: D.State, i: Input, env: Daemon.Env, error: string, tail: string)
    requires i.conversion != []
  {
    && Applies(cfg, d, i) && !Skips(cfg, d, i) && NoControls(NBest(cfg, d, i)) && IsName(error)
    && i.hook(Reading(i), NBest(cfg, d, i), ContextPrev(cfg, d, i)) ==
         Exchange(env, error, tail, Reading(i), NBest(cfg, d, i), ContextPrev(cfg, d, i))
  }

  /**
   Over the wire the daemon's order arrives, its final choice on top, unless it has no candidates or
   its fields read as a junk overwrite; then the order stays.
   */
  lemma EndToEnd(cfg: Config, d: D.State, i: Input, env: Daemon.Env, error: string, tail: string)
    requires i.conversion != [] && cfg.candCap > 0 && Asks(cfg, d, i, env, error, tail)
    ensures var nbest := NBest(cfg, d, i);
      var a := Daemon.Rerank(env, Reading(i), ContextPrev(cfg, d, i), nbest);
      var e := Rewritten(cfg, d, i);
      if a.ranked == [] || ReadsAsJunk(a) then e.candidates == Last(i).candidates && !e.changed
      else
        && RankedOnTop(Last(i).candidates, a.ranked, |nbest|, e.candidates)
        && e.candidates != [] && e.candidates[0].value == a.finalTop1
  {
    hide Reordered, ContextPrev, Reading, Skips, Applies, NBest, Last, G.Junk, G.Cps, Rewritten, Values, IsSubseq,
      Daemon.Rerank, RankedOnTop, Exchange, Seen, Octets, NoControls, IsName;
    var nbest, context := NBest(cfg, d, i), ContextPrev(cfg, d, i);
    var a := Daemon.Rerank(env, Reading(i), context, nbest);
    ExchangeIs(env, error, tail, Reading(i), nbest, context);
    if a.ranked == [] || ReadsAsJunk(a) {
      F.TroubleKeepsOrder(cfg, d, i);
    } else {
      Daemon.AnswerIsDrawn(env, Reading(i), context, nbest);
      F.AnswerMovesOnlyTheHead(cfg, d, i);
      F.TopOfRanked(Last(i).candidates, a.ranked, |nbest|, Rewritten(cfg, d, i).candidates);
    }
  }

  /** Surfaces that show neither field name never read as junk, so the daemon always decides. */
  lemma NoFieldNameNoJunk(env: Daemon.Env, reading: Bytes, context: Bytes, nbest: seq<Surface>)
    requires forall v :: v in nbest ==> !EndsInKey(Chars(v), "overwritten") && !EndsInKey(Chars(v), "final_top1")
    ensures var a := Daemon.Rerank(env, reading, context, nbest); a.ranked != [] ==> !ReadsAsJunk(a)
  {
    hide Daemon.Rerank, EndsInKey, Octets, Chars, G.Junk, G.Cps, R.Lands;
    var a := Daemon.Rerank(env, reading, context, nbest);
    if a.ranked != [] {
      Daemon.AnswerIsDrawn(env, reading, context, nbest);
      Daemon.NeverJunk(env, reading, context, nbest);
      PartOf(a.ranked, nbest);
      NotShown(AllChars(a.ranked), "overwritten");
      NotShown(AllChars(a.ranked), "final_top1");
      OctetsOfChars(a.finalTop1);
      assert |Octets(Chars(a.finalTop1))| == |a.finalTop1|;
      SameLength(a.finalTop1);
    }
  }

  lemma SameLength(b: Bytes)
    ensures |Chars(b)| == |b|
  {
  }

  lemma PartOf(part: seq<Surface>, nbest: seq<Surface>)
    requires multiset(part) <= multiset(nbest)
    ensures forall k :: 0 <= k < |part| ==> AllChars(part)[k] == Chars(part[k]) && part[k] in nbest
  {
    hide Chars;
    forall k | 0 <= k < |part|
      ensures part[k] in nbest
    {
      assert part[k] in multiset(part) && part[k] in multiset(nbest);
    }
  }

  lemma {:induction false} NotShown(ranked: seq<string>, key: string)
    requires forall k :: 0 <= k < |ranked| ==> !EndsInKey(ranked[k], key)
    ensures R.Lands(ranked, key) == R.Past
  {
    hide EndsInKey;
    if ranked != [] {
      NotShown(ranked[1..], key);
    }
  }
}
