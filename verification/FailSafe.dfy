/** What RerankRewriter guarantees over every hook answer and every sequential run. */
module FailSafe {
  import opened Text
  import opened Reorder
  import opened RerankRewriter
  import D = Degrade
  import G = Guard
  import Daemon

  // ----- one call -----

  /** Nothing lost, nothing invented, and the result says whether the order changed. */
  lemma RewriteFailSafe(cfg: Config, d: D.State, i: Input)
    requires i.conversion != [] && cfg.candCap > 0
    ensures var e := Rewritten(cfg, d, i); var c := Last(i).candidates;
      && multiset(e.candidates) == multiset(c)
      && (e.changed <==> Values(e.candidates) != Values(c))
  {
    hide Reordered, Values, ContextPrev, Reading, Skips, Checked, D.AfterTimeout, D.AfterSuccess, Applies, NBest, Last;
    var c := Last(i).candidates;
    if Applies(cfg, d, i) {
      NBestNotEmpty(cfg, d, i);
      RewrittenIs(cfg, d, i);
      var out := i.hook(Reading(i), NBest(cfg, d, i), ContextPrev(cfg, d, i));
      if out.Answered? {
        ReorderedPermutes(c, Checked(out.result, NBest(cfg, d, i)).ranked);
      }
    } else {
      DoesNothing(cfg, d, i);
    }
  }

  /** The reasons to keep Mozc's order. */
  ghost predicate KeepsOrder(cfg: Config, d: D.State, i: Input)
    requires i.conversion != []
  {
    || !Applies(cfg, d, i)
    || Skips(cfg, d, i)
    || (var nbest := NBest(cfg, d, i);
        var out := i.hook(Reading(i), nbest, ContextPrev(cfg, d, i));
        || out.Failed?
        || out.result.ranked == []
        || (out.result.overwritten && G.Junk(G.Cps(out.result.finalTop1))))
  }

  /** A disabled tier, a guard skip, a hook failure, an empty answer or a junk overwrite changes nothing. */
  lemma TroubleKeepsOrder(cfg: Config, d: D.State, i: Input)
    requires i.conversion != [] && cfg.candCap > 0 && KeepsOrder(cfg, d, i)
    ensures var e := Rewritten(cfg, d, i); e.candidates == Last(i).candidates && !e.changed
  {
    hide Reordered, Values, ContextPrev, Reading, Skips, D.AfterTimeout, D.AfterSuccess, Applies, NBest, Last, G.Junk,
      G.Cps;
    var c := Last(i).candidates;
    if Applies(cfg, d, i) {
      var nbest := NBest(cfg, d, i);
      NBestNotEmpty(cfg, d, i);
      RewrittenIs(cfg, d, i);
      ReorderedOwnHead(c, |nbest|);
    } else {
      DoesNothing(cfg, d, i);
    }
  }

  /** An answer drawn from the n-best list only permutes the head: its ranking on top, the rest untouched. */
  lemma AnswerMovesOnlyTheHead(cfg: Config, d: D.State, i: Input)
    requires i.conversion != [] && cfg.candCap > 0 && !KeepsOrder(cfg, d, i)
    requires var nbest := NBest(cfg, d, i);
      multiset(i.hook(Reading(i), nbest, ContextPrev(cfg, d, i)).result.ranked) <= multiset(nbest)
    ensures var nbest := NBest(cfg, d, i);
      RankedOnTop(Last(i).candidates, i.hook(Reading(i), nbest, ContextPrev(cfg, d, i)).result.ranked, |nbest|,
                  Rewritten(cfg, d, i).candidates)
  {
    hide Reordered, Values, ContextPrev, Reading, Skips, D.AfterTimeout, D.AfterSuccess, Applies, NBest, Last, G.Junk,
      G.Cps,
      RankedOnTop;
    var nbest := NBest(cfg, d, i);
    NBestNotEmpty(cfg, d, i);
    RewrittenIs(cfg, d, i);
    ReorderedFront(Last(i).candidates, i.hook(Reading(i), nbest, ContextPrev(cfg, d, i)).result.ranked, |nbest|);
  }

  // ----- with the daemon behind the hook -----

  /** The hook answers what the daemon does; an answer without candidates counts as a failure. */
  ghost predicate FromDaemon(out: Outcome, a: HookResult<Surface>) {
    out == if a.ranked == [] then Failed else Answered(a)
  }

  /**
   With the daemon behind the hook, whatever it answers: without an answer the order stays; otherwise
   the answer comes out on top of the list with its final choice first, the rest of the head in its old
   order, and the candidates past the n-best list where they were.
   */
  lemma DaemonDecides(cfg: Config, d: D.State, i: Input, env: Daemon.Env)
    requires i.conversion != [] && cfg.candCap > 0 && Applies(cfg, d, i) && !Skips(cfg, d, i)
    requires var nbest, context := NBest(cfg, d, i), ContextPrev(cfg, d, i);
      FromDaemon(i.hook(Reading(i), nbest, context), Daemon.Rerank(env, Reading(i), context, nbest))
    ensures var nbest := NBest(cfg, d, i);
      var a := Daemon.Rerank(env, Reading(i), ContextPrev(cfg, d, i), nbest);
      var e := Rewritten(cfg, d, i);
      && (a.ranked == [] ==> e.candidates == Last(i).candidates && !e.changed)
      && (a.ranked != [] ==>
           RankedOnTop(Last(i).candidates, a.ranked, |nbest|, e.candidates)
           && e.candidates != [] && e.candidates[0].value == a.finalTop1)
  {
    hide Reordered, ContextPrev, Reading, Skips, Applies, NBest, Last, G.Junk, G.Cps, Rewritten, Values, IsSubseq,
      Daemon.Rerank, RankedOnTop;
    var nbest, context := NBest(cfg, d, i), ContextPrev(cfg, d, i);
    var a := Daemon.Rerank(env, Reading(i), context, nbest);
    if a.ranked == [] {
      TroubleKeepsOrder(cfg, d, i);
    } else {
      Daemon.AnswerIsDrawn(env, Reading(i), context, nbest);
      Daemon.NeverJunk(env, Reading(i), context, nbest);
      AnswerMovesOnlyTheHead(cfg, d, i);
      TopOfRanked(Last(i).candidates, a.ranked, |nbest|, Rewritten(cfg, d, i).candidates);
    }
  }

  lemma TopOfRanked(c: seq<Candidate>, ranked: seq<Surface>, n: nat, e: seq<Candidate>)
    requires RankedOnTop(c, ranked, n, e) && ranked != []
    ensures e != [] && e[0].value == ranked[0]
  {
    assert Values(e[..|ranked|])[0] == ranked[0];
  }

  // ----- the log -----

  lemma RankedFirst(c: seq<Candidate>, ranked: seq<Surface>)
    requires ranked != [] && ranked[0] in Values(c)
    ensures Reordered(c, ranked) != [] && Reordered(c, ranked)[0].value == ranked[0]
  {
    var k :| 0 <= k < |Values(c)| && Values(c)[k] == ranked[0];
    assert c[k].value == ranked[0];
  }

  /** The hook's answer has its final choice, one of the surfaces it was asked for, in front. */
  ghost predicate ChoiceFirst(out: Outcome, nbest: seq<Surface>) {
    out.Answered? && out.result.ranked != [] ==>
      out.result.ranked[0] == out.result.finalTop1 && out.result.finalTop1 in nbest
  }

  /** Whatever is logged names the request, the surface that the user sees first, and no junk overwrite. */
  lemma LogTellsTheOutcome(cfg: Config, d: D.State, i: Input)
    requires i.conversion != [] && cfg.candCap > 0 && Rewritten(cfg, d, i).log.Some?
    requires ChoiceFirst(i.hook(Reading(i), NBest(cfg, d, i), ContextPrev(cfg, d, i)), NBest(cfg, d, i))
    ensures var e := Rewritten(cfg, d, i); var log := e.log.value;
      && log.reading == Reading(i) && log.nbest == NBest(cfg, d, i) && log.contextPrev == ContextPrev(cfg, d, i)
      && e.candidates != [] && log.finalTop1 == e.candidates[0].value
      && !(log.overwritten && G.Junk(G.Cps(log.finalTop1)))
      && (e.called == None ==> log.rerankTop1 == log.finalTop1 && !log.overwritten && !e.changed)
      && (e.called.Some? ==>
           var out := i.hook(Reading(i), NBest(cfg, d, i), ContextPrev(cfg, d, i));
           out.Answered? && log.rerankTop1 == out.result.rerankTop1)
  {
    var c, nbest := Last(i).candidates, NBest(cfg, d, i);
    if !Applies(cfg, d, i) {
      DoesNothing(cfg, d, i);
    } else {
      NBestNotEmpty(cfg, d, i);
      RewrittenIs(cfg, d, i);
      HeadValues(c, |nbest|);
      ReorderedOwnHead(c, |nbest|);
      var out := i.hook(Reading(i), nbest, ContextPrev(cfg, d, i));
      if !Skips(cfg, d, i) && out.Answered? && out.result.ranked != [] {
        assert out.result.finalTop1 in Values(c);
        RankedFirst(c, out.result.ranked);
      }
      hide Rewritten, Reordered, Values, ContextPrev, Reading, Skips, D.AfterTimeout, D.AfterSuccess, Applies, NBest,
        Last, G.Junk, G.Cps;
    }
  }

  lemma HeadValues(c: seq<Candidate>, n: nat)
    requires 0 < n <= |c|
    ensures Values(c[..n])[0] == c[0].value && forall v :: v in Values(c[..n]) ==> v in Values(c)
  {
    assert forall k :: 0 <= k < n ==> Values(c[..n])[k] == Values(c)[k];
  }

  // ----- runs -----

  /** The counters and the hook outcomes of a run of requests that each have a conversion segment. */
  datatype Trace = Trace(state: D.State, outcomes: seq<bool>)

  /** The outcome of a hook call, if one was made. */
  function Asked(called: Option<bool>): seq<bool> { if called.Some? then [called.value] else [] }

  ghost predicate Requests(inputs: seq<Input>) { forall k :: 0 <= k < |inputs| ==> inputs[k].conversion != [] }

  ghost function RunAll(cfg: Config, d: D.State, inputs: seq<Input>): (t: Trace)
    requires cfg.candCap > 0 && Requests(inputs)
    decreases |inputs|
  {
    if inputs == [] then Trace(d, [])
    else
      var e := Rewritten(cfg, d, inputs[0]);
      var rest := RunAll(cfg, e.state, inputs[1..]);
      Trace(rest.state, Asked(e.called) + rest.outcomes)
  }

  lemma RunAllUnfold(cfg: Config, d: D.State, inputs: seq<Input>) returns (e: Effect, rest: Trace)
    requires cfg.candCap > 0 && Requests(inputs) && inputs != []
    ensures e == Rewritten(cfg, d, inputs[0]) && Requests(inputs[1..]) && rest == RunAll(cfg, e.state, inputs[1..])
    ensures e.state == match e.called { case None => d case Some(ok) => D.Note(d, ok) }
    ensures RunAll(cfg, d, inputs) ==
      Trace(rest.state, Asked(e.called) + rest.outcomes)
  {
    hide Rewritten, D.Note;
    StateAfter(cfg, d, inputs[0]);
    e := Rewritten(cfg, d, inputs[0]);
    rest := RunAll(cfg, e.state, inputs[1..]);
  }

  /** The counters after a run are the counters of its hook outcomes, so the closed form applies. */
  lemma {:induction false} RunFollowsOutcomes(cfg: Config, d: D.State, inputs: seq<Input>)
    requires cfg.candCap > 0 && Requests(inputs)
    ensures RunAll(cfg, d, inputs).state == D.Run(d, RunAll(cfg, d, inputs).outcomes)
    decreases |inputs|
  {
    hide *;
    if inputs == [] {
      RunAllEmpty(cfg, d);
    } else {
      var e, rest := RunAllUnfold(cfg, d, inputs);
      RunFollowsOutcomes(cfg, e.state, inputs[1..]);
      OneOutcome(d, e.called, rest.outcomes);
    }
  }

  lemma RunAllEmpty(cfg: Config, d: D.State)
    requires cfg.candCap > 0
    ensures Requests([]) && RunAll(cfg, d, []) == Trace(d, []) && D.Run(d, []) == d
  {
  }

  lemma OneOutcome(d: D.State, called: Option<bool>, rest: seq<bool>)
    ensures called == None ==> Asked(called) + rest == rest
    ensures called.Some? ==> D.Run(d, Asked(called) + rest) == D.Run(D.Note(d, called.value), rest)
  {
    if called.Some? {
      assert ([called.value] + rest)[1..] == rest;
    }
  }

  /** With the guard on, tier 3 asks for no context and the guard skips every request without one. */
  lemma NoCallAtTierThree(cfg: Config, d: D.State, i: Input)
    requires i.conversion != [] && cfg.candCap > 0 && cfg.mode.enabled && d.tier >= 3
    ensures Rewritten(cfg, d, i).called == None
  {
    hide Reordered, Values, Reading, Checked, Applies, NBest, G.SkipReason;
    if Applies(cfg, d, i) {
      G.EmptyContextSkips(cfg.mode, Reading(i));
      assert ContextPrev(cfg, d, i) == [];
      NBestNotEmpty(cfg, d, i);
      RewrittenIs(cfg, d, i);
    }
  }

  lemma NoCallAtTierFour(cfg: Config, d: D.State, i: Input)
    requires i.conversion != [] && cfg.candCap > 0 && d.tier >= 4
    ensures Rewritten(cfg, d, i).called == None
  {
    hide Reordered, Values, Reading, Checked, NBest, Skips;
    DoesNothing(cfg, d, i);
  }

  /** The tier from which no hook is called any more. */
  function LastTier(cfg: Config): nat { if cfg.mode.enabled then 3 else 4 }

  /** Once there, a run stays there for ever: no call is made and no counter moves. */
  lemma {:induction false} LastTierAbsorbs(cfg: Config, d: D.State, inputs: seq<Input>)
    requires cfg.candCap > 0 && Requests(inputs) && d.tier >= LastTier(cfg)
    ensures RunAll(cfg, d, inputs) == Trace(d, [])
    decreases |inputs|
  {
    if inputs == [] {
    } else {
      assert inputs[0].conversion != [];
      var e, rest := RunAllUnfold(cfg, d, inputs);
      if cfg.mode.enabled {
        NoCallAtTierThree(cfg, d, inputs[0]);
      } else {
        NoCallAtTierFour(cfg, d, inputs[0]);
      }
      LastTierAbsorbs(cfg, d, inputs[1..]);
    }
  }

  ghost predicate AlwaysFails(i: Input) { forall r: Bytes, n: seq<Surface>, c: Bytes :: i.hook(r, n, c).Failed? }

  /** A failing hook is never reported as a success. */
  lemma CallFails(cfg: Config, d: D.State, i: Input)
    requires i.conversion != [] && cfg.candCap > 0 && AlwaysFails(i)
    ensures Rewritten(cfg, d, i).called in {None, Some(false)}
  {
    hide Reordered, Values, Reading, Checked, NBest, Skips, ContextPrev;
    if Applies(cfg, d, i) {
      NBestNotEmpty(cfg, d, i);
      RewrittenIs(cfg, d, i);
    }
  }

  /** When every call fails, each of them is paid for by the counters, which stop at the last tier. */
  lemma {:induction false} FailingCallsCounted(cfg: Config, d: D.State, inputs: seq<Input>)
    requires cfg.candCap > 0 && Requests(inputs) && D.Valid(d)
    requires forall k :: 0 <= k < |inputs| ==> AlwaysFails(inputs[k])
    requires d.tier < LastTier(cfg) || (d.tier == LastTier(cfg) && d.timeouts == 0)
    ensures |RunAll(cfg, d, inputs).outcomes| + 5 * d.tier + d.timeouts <= 5 * LastTier(cfg)
    decreases |inputs|
  {
    hide Requests, AlwaysFails, RunAll;
    if d.tier == LastTier(cfg) {
      LastTierAbsorbs(cfg, d, inputs);
    } else if inputs == [] {
      RunAllEmpty(cfg, d);
    } else {
      var e, rest := RunAllUnfold(cfg, d, inputs);
      FirstRequest(inputs);
      CallFails(cfg, d, inputs[0]);
      FailingCallsCounted(cfg, e.state, inputs[1..]);
    }
  }

  lemma FirstRequest(inputs: seq<Input>)
    requires Requests(inputs) && inputs != []
    ensures inputs[0].conversion != []
  {
  }

  /** A dead daemon is asked at most 15 times, 20 with the guard off, however long the run. */
  lemma DeadDaemonBound(cfg: Config, inputs: seq<Input>)
    requires cfg.candCap > 0 && Requests(inputs)
    requires forall k :: 0 <= k < |inputs| ==> AlwaysFails(inputs[k])
    ensures |RunAll(cfg, D.FRESH, inputs).outcomes| <= if cfg.mode.enabled then 15 else 20
  {
    hide RunAll, AlwaysFails;
    FailingCallsCounted(cfg, D.FRESH, inputs);
  }

  /** Over any run from the start: the closed form of the tier, and what it cost. */
  lemma RunTier(cfg: Config, inputs: seq<Input>)
    requires cfg.candCap > 0 && Requests(inputs)
    ensures var t := RunAll(cfg, D.FRESH, inputs);
      && t.state.tier == D.TierAfter(0, D.Blocks(t.outcomes))
      && 5 * t.state.tier + t.state.timeouts <= D.Failures(t.outcomes)
  {
    hide *;
    RunFollowsOutcomes(cfg, D.FRESH, inputs);
    D.TierClosedForm(RunAll(cfg, D.FRESH, inputs).outcomes);
  }
}
