/**
 RerankRewriter::Rewrite of mozc_compat/rerank_rewriter.cc with the degrade counters and the guard.
 The hook is an arbitrary function; a timeout and a failure are one outcome.
 */
module RerankRewriter {
  import opened Text
  import opened Utf8
  import opened Reorder
  import C = ContextClip
  import D = Degrade
  import G = Guard

  // ----- values -----

  datatype Outcome = Failed | Answered(result: HookResult<Surface>)
  /** reading, n-best, context */
  type Hook = (Bytes, seq<Surface>, Bytes) -> Outcome

  datatype PendingLog = PendingLog(
    reading: Bytes, nbest: seq<Surface>, contextPrev: Bytes, rerankTop1: Surface, finalTop1: Surface, overwritten: bool)

  /** The settings; the code accepts only positive caps. */
  datatype Config = Config(enabled: bool, candCap: nat, contextChars: int, mode: G.Mode)

  datatype SegmentView = SegmentView(key: Bytes, candidates: seq<Candidate>)

  /** What one call of Rewrite sees besides the rewriter's own state. */
  datatype Input = Input(conversion: seq<SegmentView>, history: seq<SegmentView>, preceding: Bytes, hook: Hook)

  /** What it does: the candidates of the last segment, the result, the counters, the hook call, the log. */
  datatype Effect = Effect(
    candidates: seq<Candidate>, changed: bool, state: D.State, called: Option<bool>, log: Option<PendingLog>)

  // ----- the specification -----

  function EffectiveCandCap(cfg: Config, d: D.State): nat {
    if d.tier >= 1 then (if cfg.candCap < 15 then cfg.candCap else 15) else cfg.candCap
  }

  function EffectiveContextChars(cfg: Config, d: D.State): int {
    if d.tier >= 3 then 0 else if d.tier >= 2 then 20 else cfg.contextChars
  }

  /** The top candidates of the segments, run together. */
  function Tops(segments: seq<SegmentView>): Bytes {
    if segments == [] then []
    else (if segments[0].candidates == [] then [] else segments[0].candidates[0].value) + Tops(segments[1..])
  }

  function History(i: Input): Bytes
    requires i.conversion != []
  {
    (if i.preceding != [] then i.preceding else Tops(i.history)) + Tops(i.conversion[..|i.conversion| - 1])
  }

  function Reading(i: Input): Bytes
    requires i.conversion != []
  {
    Encode(Map(C.NormalizeChar, Decode(Last(i).key)))
  }

  function Last(i: Input): SegmentView
    requires i.conversion != []
  {
    i.conversion[|i.conversion| - 1]
  }

  function NBest(cfg: Config, d: D.State, i: Input): seq<Surface>
    requires i.conversion != []
  {
    var cap := EffectiveCandCap(cfg, d);
    var c := Last(i).candidates;
    Values(if cap < |c| then c[..cap] else c)
  }

  function ContextPrev(cfg: Config, d: D.State, i: Input): Bytes
    requires i.conversion != []
  {
    var n := EffectiveContextChars(cfg, d);
    if n <= 0 then [] else Encode(C.CleanU32(Decode(History(i)), n))
  }

  /** The rewriter has something to look at. */
  predicate Applies(cfg: Config, d: D.State, i: Input) {
    cfg.enabled && i.conversion != [] && d.tier < 4 && Last(i).candidates != [] && Reading(i) != []
  }

  ghost predicate Skips(cfg: Config, d: D.State, i: Input)
    requires i.conversion != []
  {
    G.SkipReason(cfg.mode, Reading(i), ContextPrev(cfg, d, i)) != G.NoSkip
  }

  /** The answer after the junk check: a junk overwrite is taken back. */
  ghost function Checked(r: HookResult<Surface>, nbest: seq<Surface>): HookResult<Surface>
    requires nbest != []
  {
    if r.overwritten && G.Junk(G.Cps(r.finalTop1)) then HookResult(nbest, r.rerankTop1, nbest[0], false) else r
  }

  ghost function Rewritten(cfg: Config, d: D.State, i: Input): Effect
    requires i.conversion != [] && cfg.candCap > 0
  {
    var c := Last(i).candidates;
    var nothing := Effect(c, false, d, None, None);
    if !Applies(cfg, d, i) then nothing
    else
      var nbest, context := NBest(cfg, d, i), ContextPrev(cfg, d, i);
      if Skips(cfg, d, i) then
        nothing.(log := Some(PendingLog(Reading(i), nbest, context, nbest[0], nbest[0], false)))
      else
        match i.hook(Reading(i), nbest, context)
        case Failed => nothing.(state := D.AfterTimeout(d), called := Some(false))
        case Answered(r) =>
          var noted := nothing.(state := D.AfterSuccess(d), called := Some(true));
          if r.ranked == [] then noted
          else
            var ok := Checked(r, nbest);
            var after := Reordered(c, ok.ranked);
            noted.(candidates := after, changed := Values(after) != Values(c),
                   log := Some(PendingLog(Reading(i), nbest, context, ok.rerankTop1, ok.finalTop1, ok.overwritten)))
  }

  // ----- the class -----

  ghost function Views(segments: seq<Segment>): (v: seq<SegmentView>)
    reads segments
    ensures |v| == |segments|
    ensures forall k :: 0 <= k < |v| ==> v[k] == SegmentView(segments[k].key, segments[k].candidates)
  {
    seq(|segments|, k requires 0 <= k < |segments| reads segments =>
      SegmentView(segments[k].key, segments[k].candidates))
  }

  lemma {:induction false} TopsAppend(a: seq<SegmentView>, s: SegmentView)
    ensures Tops(a + [s]) == Tops(a) + if s.candidates == [] then [] else s.candidates[0].value
  {
    if a == [] {
      assert Tops([s]) == (if s.candidates == [] then [] else s.candidates[0].value) + Tops([s][1..]);
    } else {
      assert (a + [s])[1..] == a[1..] + [s];
      TopsAppend(a[1..], s);
    }
  }

  class RerankRewriter {
    const cfg: Config
    ghost const words: seq<U32>
    var consecutiveTimeouts: nat
    var consecutiveOk: nat
    var degradeTier: nat
    var pendingLog: Option<PendingLog>

    ghost predicate Valid()
      reads this
    {
      cfg.candCap > 0 && G.EligibleTable(words, cfg.mode.table) && D.Valid(Counters())
    }

    ghost function Counters(): D.State
      reads this
    {
      D.State(consecutiveTimeouts, consecutiveOk, degradeTier)
    }

    constructor (cfg: Config, ghost words: seq<U32>)
      requires cfg.candCap > 0 && G.EligibleTable(words, cfg.mode.table)
      ensures this.cfg == cfg && Counters() == D.FRESH && pendingLog == None && Valid()
    {
      this.cfg := cfg;
      this.words := words;
      consecutiveTimeouts, consecutiveOk, degradeTier := 0, 0, 0;
      pendingLog := None;
    }

    method NoteTimeout()
      modifies this`consecutiveTimeouts, this`consecutiveOk, this`degradeTier
      ensures Counters() == D.AfterTimeout(old(Counters()))
    {
      consecutiveOk := 0;
      consecutiveTimeouts := consecutiveTimeouts + 1;
      if consecutiveTimeouts >= 5 && degradeTier < 4 {
        degradeTier := degradeTier + 1;
        consecutiveTimeouts := 0;
      }
    }

    method NoteSuccess()
      modifies this`consecutiveTimeouts, this`consecutiveOk, this`degradeTier
      ensures Counters() == D.AfterSuccess(old(Counters()))
    {
      consecutiveTimeouts := 0;
      consecutiveOk := consecutiveOk + 1;
      if consecutiveOk >= 5 && degradeTier > 0 {
        degradeTier := degradeTier - 1;
        consecutiveOk := 0;
      }
    }

    /** The hook answered in time and well, or did not. */
    method CallHookWithTimeout(hook: Hook, reading: Bytes, nbest: seq<Surface>, context: Bytes) returns (out: Outcome)
      modifies this`consecutiveTimeouts, this`consecutiveOk, this`degradeTier
      ensures out == hook(reading, nbest, context)
      ensures Counters() == D.Note(old(Counters()), out.Answered?)
    {
      out := hook(reading, nbest, context);
      if out.Answered? {
        NoteSuccess();
      } else {
        NoteTimeout();
      }
    }

    method CollectNBest(segment: Segment) returns (nbest: seq<Surface>)
      ensures var cap := EffectiveCandCap(cfg, Counters()); var c := segment.candidates;
        nbest == Values(if cap < |c| then c[..cap] else c)
    {
      var cap := if degradeTier >= 1 && cfg.candCap >= 15 then 15 else cfg.candCap;
      var n := if cap < |segment.candidates| then cap else |segment.candidates|;
      nbest := [];
      for i := 0 to n
        invariant |nbest| == i && forall k :: 0 <= k < i ==> nbest[k] == segment.candidates[k].value
      {
        nbest := nbest + [segment.candidates[i].value];
      }
    }

    method CollectTops(segments: seq<Segment>) returns (history: Bytes)
      ensures history == Tops(Views(segments))
    {
      history := [];
      ghost var views := Views(segments);
      for i := 0 to |segments|
        invariant history == Tops(views[..i])
      {
        TopsAppend(views[..i], views[i]);
        assert views[..i + 1] == views[..i] + [views[i]];
        if |segments[i].candidates| > 0 {
          history := history + segments[i].candidates[0].value;
        }
      }
      assert views[..|segments|] == views;
    }

    method CollectContext(conversion: seq<Segment>, history: seq<Segment>, preceding: Bytes, ghost hook: Hook)
      returns (context: Bytes)
      requires conversion != []
      ensures context == ContextPrev(cfg, Counters(), Input(Views(conversion), Views(history), preceding, hook))
    {
      hide Tops, C.CleanU32, Encode, Decode;
      var text := preceding;
      if text == [] {
        text := CollectTops(history);
      }
      var before := CollectTops(conversion[..|conversion| - 1]);
      assert Views(conversion[..|conversion| - 1]) == Views(conversion)[..|conversion| - 1];
      text := text + before;
      var n := if degradeTier >= 3 then 0 else if degradeTier >= 2 then 20 else cfg.contextChars;
      if n <= 0 {
        context := [];
      } else {
        context := C.CleanContext(text, n);
      }
    }

    /** The hook call and what follows it. */
    method AskAndReorder(segment: Segment, reading: Bytes, nbest: seq<Surface>, context: Bytes, hook: Hook)
      returns (changed: bool)
      requires nbest != []
      modifies this`consecutiveTimeouts, this`consecutiveOk, this`degradeTier, this`pendingLog, segment`candidates
      ensures var out := hook(reading, nbest, context);
        && Counters() == D.Note(old(Counters()), out.Answered?)
        && (out.Failed? || out.result.ranked == [] ==>
             !changed && segment.candidates == old(segment.candidates) && pendingLog == old(pendingLog))
        && (out.Answered? && out.result.ranked != [] ==>
             var ok := Checked(out.result, nbest);
             && segment.candidates == Reordered(old(segment.candidates), ok.ranked)
             && changed == (Values(segment.candidates) != Values(old(segment.candidates)))
             && pendingLog == Some(PendingLog(reading, nbest, context, ok.rerankTop1, ok.finalTop1, ok.overwritten)))
    {
      hide D.Note, G.Junk, G.Cps, Reordered, Values;
      var out := CallHookWithTimeout(hook, reading, nbest, context);
      if out.Failed? || out.result.ranked == [] {
        return false;
      }
      var result := out.result;
      if result.overwritten {
        var junk := G.IsJunkSurface(result.finalTop1);
        if junk {
          result := HookResult(nbest, result.rerankTop1, nbest[0], false);
        }
      }
      changed := ReorderSegment(segment, result.ranked);
      pendingLog := Some(PendingLog(reading, nbest, context, result.rerankTop1, result.finalTop1, result.overwritten));
    }

    /** The state after a call is the one the effect describes. */
    ghost predicate Shows(e: Effect, segment: Segment, changed: bool, logBefore: Option<PendingLog>)
      reads this, segment
    {
      && segment.candidates == e.candidates && changed == e.changed && Counters() == e.state
      && pendingLog == if e.log.Some? then e.log else logBefore
    }

    /** The guard, the hook call and what follows, for a segment that applies. */
    method Rerank(segment: Segment, reading: Bytes, nbest: seq<Surface>, context: Bytes, hook: Hook, ghost i: Input)
      returns (changed: bool)
      requires cfg.candCap > 0 && G.EligibleTable(words, cfg.mode.table)
      requires i.conversion != [] && Applies(cfg, Counters(), i) && Last(i).candidates == segment.candidates
        && i.hook == hook
      requires nbest != [] && nbest == NBest(cfg, Counters(), i) && context == ContextPrev(cfg, Counters(), i)
      requires reading == Reading(i)
      modifies this`consecutiveTimeouts, this`consecutiveOk, this`degradeTier, this`pendingLog, segment`candidates
      ensures Shows(Rewritten(cfg, old(Counters()), i), segment, changed, old(pendingLog))
    {
      RewrittenIs(cfg, Counters(), i);
      assert Skips(cfg, Counters(), i) <==> G.SkipReason(cfg.mode, reading, context) != G.NoSkip;
      hide Rewritten, G.EligibleTable, Values, Reordered, G.SkipReason, ContextPrev, NBest, Applies, Reading, Checked,
        Last,
        Skips, D.AfterTimeout, D.AfterSuccess;
      var skip := G.RerankSkipReason(cfg.mode, reading, context, words);
      if skip != G.NoSkip {
        pendingLog := Some(PendingLog(reading, nbest, context, nbest[0], nbest[0], false));
        return false;
      }
      changed := AskAndReorder(segment, reading, nbest, context, hook);
    }

    /** The checks before the guard, for a request that has a segment. */
    method RewriteLast(segment: Segment, conversion: seq<Segment>, history: seq<Segment>, preceding: Bytes, hook: Hook,
                       ghost i: Input) returns (changed: bool)
      requires cfg.candCap > 0 && G.EligibleTable(words, cfg.mode.table)
      requires conversion != [] && segment == conversion[|conversion| - 1]
      requires i == Input(Views(conversion), Views(history), preceding, hook)
      modifies this`consecutiveTimeouts, this`consecutiveOk, this`degradeTier, this`pendingLog, segment`candidates
      ensures Shows(Rewritten(cfg, old(Counters()), i), segment, changed, old(pendingLog))
    {
      ghost var d := Counters();
      LastIs(cfg, d, i, segment);
      hide Rewritten, G.EligibleTable, Encode, Decode, Map, Values, ContextPrev, NBest, Applies, Reading, Last;
      if !cfg.enabled || degradeTier >= 4 || |segment.candidates| == 0 {
        DoesNothing(cfg, d, i);
        return false;
      }
      var reading := C.NormalizeReading(segment.key);
      if reading == [] {
        DoesNothing(cfg, d, i);
        return false;
      }
      var nbest := CollectNBest(segment);
      var context := CollectContext(conversion, history, preceding, hook);
      NBestIs(cfg, d, i);
      changed := Rerank(segment, reading, nbest, context, hook, i);
    }

    /** Reranks the last conversion segment and touches no other. */
    method Rewrite(conversion: seq<Segment>, history: seq<Segment>, preceding: Bytes, hook: Hook)
      returns (changed: bool)
      requires Valid()
      requires forall j, k :: 0 <= j < k < |conversion| ==> conversion[j] != conversion[k]
      modifies this`consecutiveTimeouts, this`consecutiveOk, this`degradeTier, this`pendingLog
      modifies (if conversion == [] then {} else {conversion[|conversion| - 1]})`candidates
      ensures Valid()
      ensures conversion == [] ==> !changed && Counters() == old(Counters()) && pendingLog == old(pendingLog)
      ensures conversion != [] ==>
        Shows(Rewritten(cfg, old(Counters()), old(Input(Views(conversion), Views(history), preceding, hook))),
              conversion[|conversion| - 1], changed, old(pendingLog))
      ensures forall k :: 0 <= k < |conversion| - 1 ==> conversion[k].candidates == old(conversion[k].candidates)
    {
      if conversion == [] {
        return false;
      }
      ghost var i := Input(Views(conversion), Views(history), preceding, hook);
      RewrittenValid(cfg, Counters(), i);
      hide Rewritten, D.Valid, G.EligibleTable;
      changed := RewriteLast(conversion[|conversion| - 1], conversion, history, preceding, hook, i);
    }
  }

  lemma LastIs(cfg: Config, d: D.State, i: Input, segment: Segment)
    requires i.conversion != [] && i.conversion[|i.conversion| - 1] == SegmentView(segment.key, segment.candidates)
    ensures Last(i).candidates == segment.candidates && Reading(i) == Encode(Map(C.NormalizeChar, Decode(segment.key)))
    ensures Applies(cfg, d, i) <==> cfg.enabled && d.tier < 4 && segment.candidates != [] && Reading(i) != []
  {
    hide Encode, Decode, Map;
  }

  lemma RewrittenValid(cfg: Config, d: D.State, i: Input)
    requires i.conversion != [] && cfg.candCap > 0 && D.Valid(d)
    ensures D.Valid(Rewritten(cfg, d, i).state)
  {
    NotesKeepValid(d);
    StateAfter(cfg, d, i);
  }

  /** The counters move only with a hook call, and then by its outcome. */
  lemma StateAfter(cfg: Config, d: D.State, i: Input)
    requires i.conversion != [] && cfg.candCap > 0
    ensures var e := Rewritten(cfg, d, i);
      e.state == match e.called { case None => d case Some(ok) => D.Note(d, ok) }
  {
    hide Reordered, Values, ContextPrev, Reading, Skips, Checked, D.AfterTimeout, D.AfterSuccess, Applies, NBest;
    if Applies(cfg, d, i) {
      NBestNotEmpty(cfg, d, i);
      RewrittenIs(cfg, d, i);
    }
  }

  lemma NotesKeepValid(d: D.State)
    requires D.Valid(d)
    ensures D.Valid(D.AfterTimeout(d)) && D.Valid(D.AfterSuccess(d))
  {
  }

  lemma DoesNothing(cfg: Config, d: D.State, i: Input)
    requires i.conversion != [] && cfg.candCap > 0 && !Applies(cfg, d, i)
    ensures Rewritten(cfg, d, i) == Effect(Last(i).candidates, false, d, None, None)
  {
  }

  lemma NBestIs(cfg: Config, d: D.State, i: Input)
    requires i.conversion != [] && cfg.candCap > 0 && Last(i).candidates != []
    ensures var cap := EffectiveCandCap(cfg, d); var c := Last(i).candidates;
      NBest(cfg, d, i) != [] && NBest(cfg, d, i) == Values(if cap < |c| then c[..cap] else c)
  {
  }

  lemma NBestNotEmpty(cfg: Config, d: D.State, i: Input)
    requires i.conversion != [] && cfg.candCap > 0 && Applies(cfg, d, i)
    ensures NBest(cfg, d, i) != [] && |NBest(cfg, d, i)| <= |Last(i).candidates|
    ensures NBest(cfg, d, i) == Values(Last(i).candidates[..|NBest(cfg, d, i)|])
  {
    var c := Last(i).candidates;
    assert c[..|c|] == c;
  }

  /** The specification spelled out case by case for a segment the rewriter applies to. */
  lemma RewrittenIs(cfg: Config, d: D.State, i: Input)
    requires i.conversion != [] && cfg.candCap > 0 && Applies(cfg, d, i) && NBest(cfg, d, i) != []
    ensures var e := Rewritten(cfg, d, i); var c := Last(i).candidates;
      var nbest, context := NBest(cfg, d, i), ContextPrev(cfg, d, i);
      var out := i.hook(Reading(i), nbest, context);
      && (Skips(cfg, d, i) ==>
           e == Effect(c, false, d, None, Some(PendingLog(Reading(i), nbest, context, nbest[0], nbest[0], false))))
      && (!Skips(cfg, d, i) && out.Failed? ==> e == Effect(c, false, D.AfterTimeout(d), Some(false), None))
      && (!Skips(cfg, d, i) && out.Answered? && out.result.ranked == [] ==>
           e == Effect(c, false, D.AfterSuccess(d), Some(true), None))
      && (!Skips(cfg, d, i) && out.Answered? && out.result.ranked != [] ==>
           var ok := Checked(out.result, nbest); var after := Reordered(c, ok.ranked);
           e == Effect(after, Values(after) != Values(c), D.AfterSuccess(d), Some(true),
             Some(PendingLog(Reading(i), nbest, context, ok.rerankTop1, ok.finalTop1, ok.overwritten))))
  {
    hide Reordered, Values, NBest, ContextPrev, Reading, Skips, Checked, D.AfterTimeout, D.AfterSuccess;
  }
}
