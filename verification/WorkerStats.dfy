/** What the worker's counters and flags say about the steps of a run. */
module WorkerStats {
  import opened Worker

  /** The answers of the backend, in their order. */
  function Answers(actions: seq<Action>): seq<Result> {
    if actions == [] then []
    else (if actions[0].Finish? then [actions[0].result] else []) + Answers(actions[1..])
  }

  function Successes(results: seq<Result>): nat {
    if results == [] then 0 else (if results[0].success then 1 else 0) + Successes(results[1..])
  }

  function Latency(results: seq<Result>): int {
    if results == [] then 0 else results[0].elapsedMs + Latency(results[1..])
  }

  lemma OneAnswer(r: Result, more: seq<Result>)
    ensures |[r] + more| == 1 + |more|
    ensures Successes([r] + more) == (if r.success then 1 else 0) + Successes(more)
    ensures Latency([r] + more) == r.elapsedMs + Latency(more)
  {
    assert ([r] + more)[1..] == more;
  }

  /** The four counters that a run changes by its answers alone. */
  ghost predicate Counts(before: Stats, results: seq<Result>, after: Stats) {
    && after.processed == before.processed + |results|
    && after.succeeded == before.succeeded + Successes(results)
    && after.failed == before.failed + |results| - Successes(results)
    && after.totalLatencyMs == before.totalLatencyMs + Latency(results)
  }

  lemma StepCounts(s: State, a: Action)
    requires Enabled(s, a)
    ensures Counts(s.stats, if a.Finish? then [a.result] else [], After(s, a).stats)
  {
    if a.Finish? {
      OneAnswer(a.result, []);
      assert [a.result] + [] == [a.result];
    }
  }

  lemma {:induction false} RunCounts(s: State, actions: seq<Action>, t: State)
    requires Run(s, actions, t)
    ensures Counts(s.stats, Answers(actions), t.stats)
    decreases |actions|
  {
    hide After, Enabled, Successes, Latency;
    if actions == [] {
      NoAnswers();
    } else {
      StepCounts(s, actions[0]);
      RunCounts(After(s, actions[0]), actions[1..], t);
      NoAnswers();
      if actions[0].Finish? {
        OneAnswer(actions[0].result, Answers(actions[1..]));
        OneAnswer(actions[0].result, []);
        assert [actions[0].result] + [] == [actions[0].result];
      } else {
        assert [] + Answers(actions[1..]) == Answers(actions[1..]);
      }
    }
  }

  lemma NoAnswers()
    ensures Successes([]) == 0 && Latency([]) == 0
  {
  }

  /** Over every run the statistics are those of its answers, and the dropped requests are counted. */
  lemma StatsAddUp(actions: seq<Action>, t: State)
    requires Run(INITIAL, actions, t)
    ensures var results := Answers(actions);
      && t.stats.processed == |results| && t.stats.succeeded == Successes(results)
      && t.stats.failed == |results| - Successes(results) && t.stats.totalLatencyMs == Latency(results)
      && t.stats.dropped == |t.log.dropped|
  {
    RunCounts(INITIAL, actions, t);
    InitialInv();
    RunKeeps(INITIAL, actions, t);
    assert StatsInv(t);
    hide Run, QueueInv, FateInv, WorkInv, ControlInv;
  }

  // ----- readiness -----

  lemma StepReady(s: State, a: Action)
    requires Enabled(s, a)
    ensures After(s, a).ready <==> s.ready || a == WarmUp(true)
    ensures s.ready ==> After(s, a).log.discarded == s.log.discarded
    ensures !s.ready ==> After(s, a).log.processed == s.log.processed
  {
  }

  /** The backend is ready exactly once an initialisation has succeeded, and stays so. */
  lemma {:induction false} ReadyExactly(s: State, actions: seq<Action>, t: State)
    requires Run(s, actions, t)
    ensures t.ready <==> s.ready || WarmUp(true) in actions
    decreases |actions|
  {
    hide After, Enabled;
    if actions != [] {
      StepReady(s, actions[0]);
      ReadyExactly(After(s, actions[0]), actions[1..], t);
      assert actions == [actions[0]] + actions[1..];
    }
  }

  /** Before that nothing is answered; after it no request is thrown away. */
  lemma {:induction false} AnsweredOnceReady(s: State, actions: seq<Action>, t: State)
    requires Run(s, actions, t)
    ensures s.ready ==> t.log.discarded == s.log.discarded
    ensures !t.ready ==> t.log.processed == s.log.processed
    decreases |actions|
  {
    hide After, Enabled;
    if actions != [] {
      StepReady(s, actions[0]);
      ReadyExactly(After(s, actions[0]), actions[1..], t);
      AnsweredOnceReady(After(s, actions[0]), actions[1..], t);
    }
  }
}
