/** Requests whose candidates are field names, from the rewriter to the daemon and back. */
module FieldNames {
  import opened Text
  import opened Utf8
  import opened ResponseText
  import opened RerankRewriter
  import opened Reorder
  import opened EndToEnd
  import C = ContextClip
  import D = Degrade
  import Daemon
  import G = Guard
  import H = HookInput
  import L = CleanLimits
  import P = PyContext
  import R = ResponseRoundTrip
  import RK = Ranking

  // ----- scores below the margin -----

  /** Scores below the margin leave the first candidate in place. */
  lemma Scored(candidates: seq<Surface>, scores: seq<real>, order: seq<nat>, best: nat)
    requires candidates != [] && |candidates| == |scores|
    requires RK.IsRanking(scores, order) && RK.IsFirstMax(scores, best) && scores[best] - scores[0] < 2.5
    ensures var top := candidates[0];
      RK.DaemonRerank(candidates, scores, 2.5) ==
        HookResult([top] + RK.Others(candidates, order, top), candidates[best], top, false)
  {
    RK.SortedReverseRanks(scores);
    RK.RankingUnique(scores, order, RK.SortedReverse(scores));
    hide RK.SortedReverse, RK.FirstMax, RK.DaemonJunk, RK.Others, RK.IsRanking;
    assert RK.FirstMax(scores) == best;
  }

  lemma TwoRanking()
    ensures RK.IsRanking([0.0, 1.0], [1, 0]) && RK.IsFirstMax([0.0, 1.0], 1)
  {
    assert RK.Range(2) == [0, 1];
  }

  lemma OthersNext(candidates: seq<Surface>, k: nat, rest: seq<nat>, top: Surface)
    requires k < |candidates| && RK.Indices(rest, |candidates|)
    ensures RK.Indices([k] + rest, |candidates|)
    ensures RK.Others(candidates, [k] + rest, top) ==
      (if candidates[k] != top then [candidates[k]] else []) + RK.Others(candidates, rest, top)
  {
    assert ([k] + rest)[1..] == rest;
  }

  lemma TwoScored(a: Surface, b: Surface)
    requires a != b
    ensures RK.DaemonRerank([a, b], [0.0, 1.0], 2.5) == HookResult([a, b], b, a, false)
  {
    hide *;
    var c := [a, b];
    TwoRanking();
    Scored(c, [0.0, 1.0], [1, 0], 1);
    NoOthers(c, a);
    OthersNext(c, 0, [], a);
    OthersNext(c, 1, [0] + [], a);
    assert [1] + ([0] + []) == [1, 0];
    assert [a] + ([b] + []) == [a, b];
  }

  lemma NoOthers(candidates: seq<Surface>, top: Surface)
    ensures RK.Indices([], |candidates|) && RK.Others(candidates, [], top) == []
  {
  }

  lemma ThreeIndices()
    ensures var order: seq<nat> := [2, 1, 0]; RK.Indices(order, 3) && multiset(order) == multiset(RK.Range(3))
  {
    assert RK.Range(3) == [0, 1, 2];
    assert multiset([2, 1, 0]) == multiset([0, 1, 2]);
  }

  lemma ThreeRanking(scores: seq<real>)
    requires |scores| == 3 && scores[0] < scores[1] < scores[2]
    ensures RK.IsRanking(scores, [2, 1, 0]) && RK.IsFirstMax(scores, 2)
  {
    hide RK.Range, RK.Indices;
    ThreeIndices();
  }

  lemma ThreeScored(a: Surface, b: Surface, c: Surface)
    requires a != b && a != c
    ensures RK.DaemonRerank([a, b, c], [0.0, 0.5, 1.0], 2.5) == HookResult([a, c, b], c, a, false)
  {
    hide *;
    var s := [a, b, c];
    ThreeRanking([0.0, 0.5, 1.0]);
    Scored(s, [0.0, 0.5, 1.0], [2, 1, 0], 2);
    NoOthers(s, a);
    OthersNext(s, 0, [], a);
    OthersNext(s, 1, [0] + [], a);
    OthersNext(s, 2, [1] + ([0] + []), a);
    assert [2] + ([1] + ([0] + [])) == [2, 1, 0];
    assert [a] + ([c] + ([b] + [])) == [a, c, b];
  }

  const KATAKANA: Surface := [0xE3, 0x82, 0xA2]

  lemma KatakanaJunk()
    ensures G.Junk(G.Cps(KATAKANA))
  {
    assert Encode([0x30A2]) == KATAKANA by {
      assert [0x30A2][1..] == [];
    }
    G.CpsEncode([0x30A2]);
    var s: U32 := [0x30A2];
    assert G.IsKana(s[0]);
    hide G.Cps;
  }

  lemma NamesEnd(k: string)
    requires |k| == 3
    ensures !EndsInKey(k, "overwritten") && !EndsInKey(k, "final_top1") && !EndsInKey("x:true", "final_top1")
  {
    assert |"x:true"| == 6 && |"final_top1"| == 10 && |"overwritten"| == 11;
  }

  lemma ColonOfX()
    ensures ColonAt("x:true") == 1 && "x:true"[2..] == "true" && |"x:true"| > 1
  {
    assert "x:true"[1..] == ":true";
  }

  lemma LandsNext(s: string, rest: seq<string>, key: string)
    requires !EndsInKey(s, key)
    ensures R.Lands([s] + rest, key) == R.Lands(rest, key)
  {
    assert ([s] + rest)[1..] == rest;
  }

  lemma LandsInside(s: string, x: string, key: string)
    requires EndsInKey(s, key) && ColonAt(x) < |x|
    ensures R.Lands([s] + [x], key) == R.Inside(x[ColonAt(x) + 1..], true)
  {
    assert ([s] + [x])[1..] == [x];
  }

  lemma SurfacesLand(k: string)
    requires |k| == 3
    ensures var ranked := [k, "overwritten", "x:true"];
      R.Lands(ranked, "overwritten") == R.Inside("true", true) && R.Lands(ranked, "final_top1") == R.Past
  {
    var x, y, z := "x:true", "overwritten", "final_top1";
    NamesEnd(k);
    ColonOfX();
    R.OtherFieldIsSafe(y, z);
    R.OwnKey(y);
    hide *;
    LandsNext(k, [y] + [x], y);
    LandsInside(y, x, y);
    LandsNext(k, [y] + [x], z);
    LandsNext(y, [x], z);
    LandsNext(x, [], z);
    LandsNowhere(z);
    assert [x] + [] == [x];
    assert [k] + ([y] + [x]) == [k, y, x];
  }

  lemma LandsNowhere(key: string)
    ensures R.Lands([], key) == R.Past
  {
  }

  lemma FlagReadInside(ranked: seq<string>, top: string, final: string)
    requires ranked != [] && final != ""
    requires R.Lands(ranked, "overwritten") == R.Inside("true", true) && R.Lands(ranked, "final_top1") == R.Past
    ensures var r := R.Received(ranked, top, final, false); r.overwritten && r.finalTop1 == final
  {
    TrueRead();
    hide R.Lands, R.WordRead, R.DropSpaces, R.TopRead;
  }

  lemma FlagInside(k: Surface, x: Surface, y: Surface)
    requires var ranked := [Chars(k), Chars(y), Chars(x)];
      R.Lands(ranked, "overwritten") == R.Inside("true", true) && R.Lands(ranked, "final_top1") == R.Past
    requires G.Junk(G.Cps(k)) && k != []
    ensures ReadsAsJunk(HookResult([k, y, x], y, k, false))
  {
    OctetsOfChars(k);
    SameLength(k);
    CharsOfThree(k, y, x);
    FlagReadInside([Chars(k), Chars(y), Chars(x)], Chars(y), Chars(k));
    hide AllChars, Chars, Octets, R.Lands, G.Junk, G.Cps, R.Received;
  }

  lemma CharsOfThree(a: Bytes, b: Bytes, c: Bytes)
    ensures AllChars([a, b, c]) == [Chars(a), Chars(b), Chars(c)]
  {
    hide Chars;
  }

  lemma TrueRead()
    ensures R.WordRead(R.DropSpaces("true")) == Some(true)
  {
  }

  lemma CharsOfTwo(a: Bytes, b: Bytes)
    ensures AllChars([a, b]) == [Chars(a), Chars(b)]
  {
    hide Chars;
  }

  lemma CharsOfOctets(s: string)
    requires forall k :: 0 <= k < |s| ==> s[k] < 256 as char
    ensures Chars(Octets(s)) == s
  {
  }

  // ----- the requests -----

  const READING: Bytes := [0x61, 0x61, 0x61]
  const CONTEXT: Bytes := [0x61]

  /** A daemon that scores whatever it is asked like this. */
  function ScoringEnv(scores: seq<real>): Daemon.Env {
    Daemon.Env(s => s, c => true, (reading, context, nbest) => Some(scores), 2.5, 30)
  }

  function Plainly(value: Surface): Candidate { Candidate(value, value, value, [], 0) }

  function AllPlainly(values: seq<Surface>): seq<Candidate> {
    seq(|values|, k requires 0 <= k < |values| => Plainly(values[k]))
  }

  /** One segment with these candidates, the letter a before it, and that daemon behind the hook. */
  ghost function Asking(values: seq<Surface>, scores: seq<real>): Input {
    Input([SegmentView(READING, AllPlainly(values))], [], CONTEXT,
          (reading, nbest, context) => Exchange(ScoringEnv(scores), "", "", reading, nbest, context))
  }

  lemma {:induction false} AsciiIsItself(b: Bytes)
    requires forall k :: 0 <= k < |b| ==> b[k] < 0x80
    ensures WellFormed(b) && Decode(b) == b && Encode(b) == b
  {
    if b != [] {
      AsciiIsItself(b[1..]);
      assert b == [b[0]] + b[1..];
    }
  }

  lemma OctetsAreAscii(s: string)
    requires forall k :: 0 <= k < |s| ==> s[k] < 128 as char
    ensures WellFormed(Octets(s)) && |Octets(s)| == |s|
  {
    AsciiIsItself(Octets(s));
    hide WellFormed, Decode, Encode;
  }

  lemma {:induction false} NonEmptyAll(nbest: seq<Surface>)
    requires forall k :: 0 <= k < |nbest| ==> nbest[k] != []
    ensures Daemon.NonEmpty(nbest) == nbest
  {
    if nbest != [] {
      NonEmptyAll(nbest[1..]);
      assert nbest == [nbest[0]] + nbest[1..];
    }
  }

  lemma ShortContext(max: int)
    ensures Decode(CONTEXT) == CONTEXT && (max >= 0 ==> P.CleanContext(CONTEXT, max) == CONTEXT)
    ensures C.CleanU32(CONTEXT, max) == CONTEXT && Encode(CONTEXT) == CONTEXT
  {
    AsciiIsItself(CONTEXT);
    L.OneLetter(max);
    hide *;
    L.OneLetterAgrees(max);
  }

  lemma WellFormedCps(b: Bytes)
    requires WellFormed(b) && Decode(b) == b
    ensures G.Cps(b) == b
  {
    hide *;
    WellFormedIsCanonical(b);
    G.ReadersAgree(b);
  }

  lemma ReadingMaps()
    ensures Map(C.NormalizeChar, READING) == READING && Map(Daemon.KanaShift, READING) == READING
  {
  }

  lemma ReadingIs()
    ensures Decode(READING) == READING && Encode(Map(C.NormalizeChar, Decode(READING))) == READING
    ensures Map(Daemon.KanaShift, READING) == READING && WellFormed(READING) && WellFormed(CONTEXT)
    ensures G.Cps(READING) == READING && G.Cps(CONTEXT) == CONTEXT
  {
    AsciiIsItself(READING);
    AsciiIsItself(CONTEXT);
    hide *;
    ReadingMaps();
    WellFormedCps(READING);
    WellFormedCps(CONTEXT);
  }

  lemma AllScored(nbest: seq<Surface>, env: Daemon.Env)
    requires |nbest| <= env.candCap && forall k :: 0 <= k < |nbest| ==> nbest[k] != []
    ensures Daemon.Candidates(env, nbest) == nbest
  {
    NonEmptyAll(nbest);
    hide Daemon.NonEmpty;
  }

  lemma NoSkip(scores: seq<real>)
    ensures !Daemon.Skips(ScoringEnv(scores), READING, CONTEXT)
  {
    assert Daemon.IsLinguistic(ScoringEnv(scores), CONTEXT[0]);
    hide Daemon.IsLinguistic;
  }

  /** The scoring path of rerank. */
  lemma RerankScores(env: Daemon.Env, reading: Bytes, context: Bytes, nbest: seq<Surface>, r: U32, c: U32)
    requires Daemon.Readable(reading, context, nbest)
    requires r == Map(Daemon.KanaShift, env.nfkc(Decode(reading)))
    requires c == P.CleanContext(Decode(context), Daemon.MAX_CHARS)
    requires r != [] && nbest != [] && Daemon.Candidates(env, nbest) == nbest && !Daemon.Skips(env, r, c)
    requires env.score(r, c, nbest).Some? && |env.score(r, c, nbest).value| == |nbest|
    ensures Daemon.Rerank(env, reading, context, nbest) == RK.DaemonRerank(nbest, env.score(r, c, nbest).value, env.tau)
  {
    hide Decode, P.CleanContext, Map, RK.DaemonRerank, Daemon.Readable, Daemon.Candidates, Daemon.Skips;
  }

  /** The daemon comes to its scores. */
  lemma DaemonScores(nbest: seq<Surface>, scores: seq<real>)
    requires 0 < |nbest| == |scores| <= 30 && forall k :: 0 <= k < |nbest| ==> nbest[k] != [] && WellFormed(nbest[k])
    ensures Daemon.Rerank(ScoringEnv(scores), READING, CONTEXT, nbest) == RK.DaemonRerank(nbest, scores, 2.5)
  {
    var env := ScoringEnv(scores);
    ReadingIs();
    ShortContext(Daemon.MAX_CHARS);
    AllScored(nbest, env);
    NoSkip(scores);
    hide Decode, WellFormed, P.CleanContext, Map, RK.DaemonRerank, Daemon.Candidates, Daemon.Skips, Daemon.Rerank;
    RerankScores(env, READING, CONTEXT, nbest, READING, CONTEXT);
  }

  /** The settings under which the request is made: the guard may be on, but not the table. */
  function Settings(mode: G.Mode): Config { Config(true, 30, 20, mode) }

  lemma PlainValues(values: seq<Surface>)
    ensures Values(AllPlainly(values)) == values && |AllPlainly(values)| == |values|
  {
  }

  lemma FreshChars(cfg: Config)
    ensures EffectiveContextChars(cfg, D.FRESH) == cfg.contextChars && EffectiveCandCap(cfg, D.FRESH) == cfg.candCap
  {
  }

  lemma ContextIs(i: Input, cfg: Config)
    requires |i.conversion| == 1 && i.preceding == CONTEXT && cfg.contextChars > 0
    ensures ContextPrev(cfg, D.FRESH, i) == CONTEXT
  {
    ShortContext(cfg.contextChars);
    FreshChars(cfg);
    assert H.AreTops(i.conversion[..0], []) && H.StandsBefore(i, CONTEXT, []);
    assert CONTEXT + H.Joined([]) == CONTEXT;
    hide *;
    H.ContextSent(cfg, D.FRESH, i, CONTEXT, [], []);
    H.CleanedIs(cfg, D.FRESH.tier, CONTEXT);
    H.CharsAtTier(cfg, D.FRESH);
  }

  lemma AskingInput(values: seq<Surface>, scores: seq<real>)
    ensures var i := Asking(values, scores);
      && |i.conversion| == 1 && i.preceding == CONTEXT && Last(i) == SegmentView(READING, AllPlainly(values))
      && i.hook(READING, values, CONTEXT) == Exchange(ScoringEnv(scores), "", "", READING, values, CONTEXT)
  {
    hide Exchange, AllPlainly;
  }

  lemma SettingsAre(mode: G.Mode)
    ensures var cfg := Settings(mode);
      cfg.candCap == 30 && cfg.contextChars == 20 && cfg.enabled && cfg.mode == mode
  {
  }

  lemma ReadingOf(i: Input)
    requires i.conversion != [] && Last(i).key == READING
    ensures Reading(i) == READING
  {
    ReadingIs();
    hide Decode, Encode, Map, G.Cps;
  }

  lemma NBestOf(i: Input, cfg: Config, d: D.State, values: seq<Surface>)
    requires i.conversion != [] && Last(i).candidates == AllPlainly(values) && |values| <= EffectiveCandCap(cfg, d)
    ensures NBest(cfg, d, i) == values
  {
    PlainValues(values);
    hide Values, AllPlainly, EffectiveCandCap;
    var c := Last(i).candidates;
    assert |c| == EffectiveCandCap(cfg, d) ==> c[..|c|] == c;
  }

  lemma AppliesTo(i: Input, cfg: Config)
    requires i.conversion != [] && Last(i).candidates != [] && Reading(i) != [] && cfg.enabled
    ensures Applies(cfg, D.FRESH, i)
  {
    hide Reading;
  }

  lemma AskingIs(values: seq<Surface>, scores: seq<real>, mode: G.Mode)
    requires 0 < |values| <= 30
    ensures var i, cfg := Asking(values, scores), Settings(mode);
      && Reading(i) == READING && NBest(cfg, D.FRESH, i) == values && ContextPrev(cfg, D.FRESH, i) == CONTEXT
      && Applies(cfg, D.FRESH, i) && Last(i).candidates == AllPlainly(values) && i.conversion != []
  {
    var i, cfg := Asking(values, scores), Settings(mode);
    assert READING != [];
    hide *;
    AskingInput(values, scores);
    SettingsAre(mode);
    FreshChars(cfg);
    ReadingOf(i);
    PlainValues(values);
    NBestOf(i, cfg, D.FRESH, values);
    ContextIs(i, cfg);
    AppliesTo(i, cfg);
  }

  lemma NotSkipped(mode: G.Mode)
    requires !mode.strict
    ensures G.SkipReason(mode, READING, CONTEXT) == G.NoSkip
  {
    ReadingIs();
    assert G.IsLinguistic(CONTEXT[0]);
    hide G.Cps, Decode, Encode, Map;
  }

  lemma Asked(values: seq<Surface>, scores: seq<real>, mode: G.Mode)
    requires 0 < |values| <= 30 && !mode.strict && NoControls(values)
    ensures Asks(Settings(mode), D.FRESH, Asking(values, scores), ScoringEnv(scores), "", "")
  {
    hide *;
    AskingIs(values, scores, mode);
    AskingInput(values, scores);
    SettingsAre(mode);
    NotSkipped(mode);
    EmptyName();
    AsksIs(Settings(mode), D.FRESH, Asking(values, scores), ScoringEnv(scores), values);
  }

  lemma AsksIs(cfg: Config, d: D.State, i: Input, env: Daemon.Env, values: seq<Surface>)
    requires i.conversion != [] && Applies(cfg, d, i) && NBest(cfg, d, i) == values && NoControls(values) && IsName("")
    requires Reading(i) == READING && ContextPrev(cfg, d, i) == CONTEXT
    requires G.SkipReason(cfg.mode, READING, CONTEXT) == G.NoSkip
    requires i.hook(READING, values, CONTEXT) == Exchange(env, "", "", READING, values, CONTEXT)
    ensures Asks(cfg, d, i, env, "", "")
  {
    hide Reading, NBest, ContextPrev, Applies, G.SkipReason, Exchange, NoControls, IsName;
  }

  // ----- what comes of them -----

  const COLON_TRUE := "x:true"
  const FLAG_NAME := "overwritten"

  lemma ThreeSurfaces(x: Surface, y: Surface)
    requires x == Octets(COLON_TRUE) && y == Octets(FLAG_NAME)
    ensures WellFormed(KATAKANA) && WellFormed(x) && WellFormed(y) && x != [] && y != []
    ensures KATAKANA != x && KATAKANA != y
    ensures NoControls([KATAKANA, x, y])
  {
    OctetsAreAscii(COLON_TRUE);
    OctetsAreAscii(FLAG_NAME);
    assert WellFormed(KATAKANA) by {
      assert KATAKANA[3..] == [];
    }
    CharsOfOctets(COLON_TRUE);
    CharsOfOctets(FLAG_NAME);
    CharsOfThree(KATAKANA, x, y);
    hide Octets, WellFormed, AllChars;
  }

  /** The daemon's answer to KATAKANA, x:true and overwritten: they are ranked, and nothing is overwritten. */
  lemma FlagNameAnswer(x: Surface, y: Surface)
    requires x == Octets(COLON_TRUE) && y == Octets(FLAG_NAME)
    ensures var a := Daemon.Rerank(ScoringEnv([0.0, 0.5, 1.0]), READING, CONTEXT, [KATAKANA, x, y]);
      a == HookResult([KATAKANA, y, x], y, KATAKANA, false) && ReadsAsJunk(a)
  {
    CharsOfOctets(COLON_TRUE);
    CharsOfOctets(FLAG_NAME);
    SameLength(KATAKANA);
    SurfacesLand(Chars(KATAKANA));
    hide *;
    ThreeSurfaces(x, y);
    DaemonScores([KATAKANA, x, y], [0.0, 0.5, 1.0]);
    ThreeScored(KATAKANA, x, y);
    KatakanaJunk();
    FlagInside(KATAKANA, x, y);
  }

  /**
   A request for which the daemon's order is lost, with the guard on or off: it ranks the third candidate
   before the second and overwrites nothing; the flag is read out of these two, the first candidate is
   junk, and so the rewriter keeps its order.
   */
  lemma FieldNameKeepsOrder(mode: G.Mode)
    requires !mode.strict
    ensures var x, y := Octets(COLON_TRUE), Octets(FLAG_NAME);
      var env, i := ScoringEnv([0.0, 0.5, 1.0]), Asking([KATAKANA, x, y], [0.0, 0.5, 1.0]);
      && Asks(Settings(mode), D.FRESH, i, env, "", "")
      && Daemon.Rerank(env, Reading(i), ContextPrev(Settings(mode), D.FRESH, i), NBest(Settings(mode), D.FRESH, i)) ==
           HookResult([KATAKANA, y, x], y, KATAKANA, false)
      && Rewritten(Settings(mode), D.FRESH, i).candidates == AllPlainly([KATAKANA, x, y])
      && !Rewritten(Settings(mode), D.FRESH, i).changed
  {
    var x, y := Octets(COLON_TRUE), Octets(FLAG_NAME);
    var scores := [0.0, 0.5, 1.0];
    hide *;
    ThreeSurfaces(x, y);
    FlagNameAnswer(x, y);
    AskingIs([KATAKANA, x, y], scores, mode);
    Asked([KATAKANA, x, y], scores, mode);
    SettingsAre(mode);
    EndToEnd.EndToEnd(Settings(mode), D.FRESH, Asking([KATAKANA, x, y], scores), ScoringEnv(scores), "", "");
  }

  /** A request whose answer arrives without the reranker's own choice. */
  lemma FieldNameIsSent()
    ensures var x, y := Octets("rerank_top1"), Octets("a:b");
      var a := Daemon.Rerank(ScoringEnv([0.0, 1.0]), READING, CONTEXT, [x, y]);
      && a == HookResult([x, y], y, x, false)
      && Exchange(ScoringEnv([0.0, 1.0]), "", "", READING, [x, y], CONTEXT) ==
           Answered(HookResult([x, y], [], x, false))
  {
    var x, y := Octets("rerank_top1"), Octets("a:b");
    hide *;
    TwoSurfaces(x, y);
    DaemonScores([x, y], [0.0, 1.0]);
    TwoScored(x, y);
    EmptyName();
    ExchangeIs(ScoringEnv([0.0, 1.0]), "", "", READING, [x, y], CONTEXT);
    TopMissed(x, y);
  }

  lemma EmptyName()
    ensures IsName("")
  {
  }

  lemma TwoSurfaces(x: Surface, y: Surface)
    requires x == Octets("rerank_top1") && y == Octets("a:b")
    ensures WellFormed(x) && WellFormed(y) && x != [] && y != [] && x != y && NoControls([x, y])
    ensures Chars(x) == "rerank_top1" && Chars(y) == "a:b"
    ensures var ranked := [Chars(x), Chars(y)];
      && R.Lands(ranked, "rerank_top1") == R.Inside("b", true) && R.Lands(ranked, "final_top1") == R.Past
      && R.Lands(ranked, "overwritten") == R.Past && !EndsInKey(Chars(y), "overwritten")
  {
    OctetsAreAscii("rerank_top1");
    OctetsAreAscii("a:b");
    CharsOfOctets("rerank_top1");
    CharsOfOctets("a:b");
    CharsOfTwo(x, y);
    R.ExampleLands();
    R.ExampleIsClean();
    hide Octets, WellFormed, AllChars, EndsInKey, R.Lands;
  }

  lemma TopMissed(x: Bytes, y: Bytes)
    requires x != []
    requires var ranked := [Chars(x), Chars(y)];
      && R.Lands(ranked, "rerank_top1") == R.Inside("b", true) && R.Lands(ranked, "final_top1") == R.Past
      && R.Lands(ranked, "overwritten") == R.Past && !EndsInKey(Chars(y), "overwritten")
    ensures var seen := Seen(HookResult([x, y], y, x, false));
      Octets(seen.rerankTop1) == [] && Octets(seen.finalTop1) == x && !seen.overwritten
  {
    CharsOfTwo(x, y);
    OctetsOfChars(x);
    SameLength(x);
    TopMissedIn([Chars(x), Chars(y)], Chars(y), Chars(x));
    assert Octets("") == [];
    hide AllChars, Chars, Octets, R.Lands, R.Received;
  }

  lemma TopMissedIn(ranked: seq<string>, top: string, final: string)
    requires ranked != [] && final != "" && !EndsInKey(top, "overwritten")
    requires R.Lands(ranked, "rerank_top1") == R.Inside("b", true) && R.Lands(ranked, "final_top1") == R.Past
    requires R.Lands(ranked, "overwritten") == R.Past
    ensures var r := R.Received(ranked, top, final, false);
      r.rerankTop1 == "" && r.finalTop1 == final && !r.overwritten
  {
    assert R.DropSpaces("b") == "b";
    hide R.Lands, R.DropSpaces, EndsInKey;
  }
}
