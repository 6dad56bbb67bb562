/**
 AIWorker (src/ai/ai_worker.cc): a bounded queue that drops its oldest request, and one worker thread.
 Each method is one atomic step, the code between two points at which another thread can be seen:
 a critical section, or an access to an atomic flag.
 */
module Worker {
  import opened Cache

  const MAX_QUEUE_SIZE := 10

  datatype Request = Request(inputKey: string, cacheKey: string, existing: seq<string>, contextHistory: seq<string>)
  datatype Result = Result(success: bool, candidates: seq<string>, elapsedMs: int)
  datatype Stats = Stats(processed: int, succeeded: int, failed: int, dropped: int, totalLatencyMs: int)

  /**
   Where the worker thread is. Checked: it holds the queue's lock and has seen the flag on; Holding: a
   request is out of the queue; Recorded: its result is counted.
   */
  datatype Phase =
    | NoThread
    | Warming
    | Waiting
    | Checked
    | Holding(request: Request)
    | Recorded(request: Request, result: Result)
    | Ended

  /** What happened so far: requests are numbered in the order in which they were enqueued. */
  datatype Log = Log(enqueued: seq<Request>, dropped: seq<int>, popped: seq<int>, processed: seq<int>,
    discarded: seq<int>)

  /** stopping: the controlling thread is inside Stop, waiting for the worker thread to end. */
  datatype State = State(running: bool, stopping: bool, ready: bool, phase: Phase, queue: seq<Request>, stats: Stats,
    log: Log)

  const INITIAL := State(false, false, false, NoThread, [], Stats(0, 0, 0, 0, 0), Log([], [], [], [], []))

  datatype Action =
    | Start
    | StopSignal
    | StopReturn
    | Enqueue(request: Request)
    | WarmUp(initialized: bool)
    | Check
    | Take
    | Discard
    | Finish(result: Result)
    | Store

  /**
   One thread calls Start and Stop, so neither is called before a Stop has returned. Stop changes the
   flag without the queue's lock; Enqueue waits for it.
   */
  predicate Enabled(s: State, a: Action) {
    match a
    case Start => !s.stopping
    case StopSignal => !s.stopping
    case StopReturn => s.stopping && s.phase.Ended?
    case Enqueue(_) => !s.phase.Checked?
    case WarmUp(_) => s.phase.Warming?
    case Check => s.phase.Waiting?
    case Take => s.phase.Checked?
    case Discard => s.phase.Holding? && !s.ready
    case Finish(_) => s.phase.Holding? && s.ready
    case Store => s.phase.Recorded?
  }

  /** The number of the request at the front of the queue. */
  function Front(s: State): int { |s.log.enqueued| - |s.queue| }

  function DropFront(s: State): State
    requires s.queue != []
  {
    s.(queue := s.queue[1..],
       stats := s.stats.(dropped := s.stats.dropped + 1),
       log := s.log.(dropped := s.log.dropped + [Front(s)]))
  }

  function Push(s: State, r: Request): State {
    s.(queue := s.queue + [r], log := s.log.(enqueued := s.log.enqueued + [r]))
  }

  function PopFront(s: State): State
    requires s.queue != []
  {
    s.(queue := s.queue[1..], phase := Holding(s.queue[0]), log := s.log.(popped := s.log.popped + [Front(s)]))
  }

  function Counted(st: Stats, result: Result): Stats {
    Stats(st.processed + 1, st.succeeded + (if result.success then 1 else 0),
      st.failed + (if result.success then 0 else 1),
          st.dropped, st.totalLatencyMs + result.elapsedMs)
  }

  function After(s: State, a: Action): State
    requires Enabled(s, a)
  {
    match a
    case Start => if s.running then s else s.(running := true, phase := Warming)
    case StopSignal => if s.running then s.(running := false, stopping := true) else s
    case StopReturn => s.(stopping := false, phase := NoThread)
    case Enqueue(r) => Push(if |s.queue| >= MAX_QUEUE_SIZE then DropFront(s) else s, r)
    case WarmUp(initialized) => s.(ready := s.ready || initialized, phase := Waiting)
    case Check => s.(phase := if s.running then Checked else Ended)
    case Take => if s.queue == [] then s.(phase := Waiting) else PopFront(s)
    case Discard => s.(phase := Waiting, log := s.log.(discarded := s.log.discarded + InHand(s)))
    case Finish(result) =>
      s.(phase := Recorded(s.phase.request, result),
         stats := Counted(s.stats, result),
         log := s.log.(processed := s.log.processed + InHand(s)))
    case Store => s.(phase := Waiting)
  }

  // ----- what every step keeps -----

  ghost predicate Ascending(s: seq<int>) { forall i, j :: 0 <= i < j < |s| ==> s[i] < s[j] }

  /** The pending requests are the last ones that were enqueued, ten at most. */
  ghost predicate QueueInv(s: State) {
    && |s.queue| <= MAX_QUEUE_SIZE
    && Front(s) >= 0
    && s.queue == s.log.enqueued[Front(s)..]
  }

  /**
   Every request that left the queue was either dropped or taken, once, in order; the ten newest are
   never dropped.
   */
  ghost predicate FateInv(s: State) {
    && Ascending(s.log.dropped) && Ascending(s.log.popped)
    && (forall i :: i in s.log.dropped ==> 0 <= i < Front(s) && i + MAX_QUEUE_SIZE < |s.log.enqueued|)
    && (forall i :: i in s.log.popped ==> 0 <= i < Front(s) && i !in s.log.dropped)
    && (forall i :: 0 <= i < Front(s) ==> i in s.log.dropped || i in s.log.popped)
    && |s.log.enqueued| == |s.queue| + |s.log.dropped| + |s.log.popped|
  }

  /** The number of the request in hand: the one taken last. */
  function InHand(s: State): seq<int> {
    if s.phase.Holding? && s.log.popped != [] then [s.log.popped[|s.log.popped| - 1]] else []
  }

  /** A taken request is processed, discarded or the one in hand, and they are processed in order. */
  ghost predicate WorkInv(s: State) {
    && Ascending(s.log.processed) && Ascending(s.log.discarded)
    && (forall i :: i in s.log.processed ==> i in s.log.popped && i !in s.log.discarded)
    && (forall i :: i in s.log.discarded ==> i in s.log.popped)
    && (forall i :: i in s.log.popped ==> i in s.log.processed || i in s.log.discarded || i in InHand(s))
    && (s.phase.Holding? ==> s.log.popped != [])
    && (forall i :: i in InHand(s) ==>
          i in s.log.popped && 0 <= i < |s.log.enqueued| && s.phase.request == s.log.enqueued[i])
    && (forall i, j :: i in InHand(s) && j in s.log.processed + s.log.discarded ==> j < i)
    && |s.log.popped| == |s.log.processed| + |s.log.discarded| + |InHand(s)|
  }

  ghost predicate StatsInv(s: State) {
    && s.stats.processed == |s.log.processed| == s.stats.succeeded + s.stats.failed
    && s.stats.dropped == |s.log.dropped|
  }

  ghost predicate ControlInv(s: State) {
    && (s.running ==> !s.stopping)
    && (s.phase.NoThread? <==> !s.running && !s.stopping)
    && (s.phase.Ended? ==> s.stopping)
  }

  ghost predicate Inv(s: State) {
    QueueInv(s) && FateInv(s) && WorkInv(s) && StatsInv(s) && ControlInv(s)
  }

  lemma InitialInv()
    ensures Inv(INITIAL)
  {
  }

  lemma AscendingPush(s: seq<int>, x: int)
    requires Ascending(s) && forall i :: i in s ==> i < x
    ensures Ascending(s + [x])
  {
    assert forall i :: 0 <= i < |s| ==> s[i] in s;
  }

  lemma PushKeeps(s: State, r: Request)
    requires Inv(s) && |s.queue| < MAX_QUEUE_SIZE
    ensures Inv(Push(s, r))
  {
    PushQueue(s, r);
    hide QueueInv;
    PushWork(s, r);
    hide WorkInv;
  }

  lemma PushQueue(s: State, r: Request)
    requires QueueInv(s) && |s.queue| < MAX_QUEUE_SIZE
    ensures QueueInv(Push(s, r)) && Front(Push(s, r)) == Front(s)
  {
    var t := Push(s, r);
    assert t.log.enqueued[Front(s)..] == s.log.enqueued[Front(s)..] + [r];
  }

  lemma PushWork(s: State, r: Request)
    requires WorkInv(s)
    ensures WorkInv(Push(s, r))
  {
    assert InHand(Push(s, r)) == InHand(s);
    hide Ascending, InHand;
  }

  /** All but the length of the queue and the newest ten, which a push restores. */
  lemma DropKeeps(s: State, r: Request)
    requires Inv(s) && |s.queue| == MAX_QUEUE_SIZE
    ensures Inv(Push(DropFront(s), r)) && |DropFront(s).queue| == MAX_QUEUE_SIZE - 1
  {
    var d := DropFront(s);
    assert |d.queue| == MAX_QUEUE_SIZE - 1;
    DropQueue(s);
    PushQueue(d, r);
    DropFate(s, r);
    DropWork(s);
    PushWork(d, r);
    hide QueueInv, WorkInv, FateInv;
  }

  lemma DropQueue(s: State)
    requires QueueInv(s) && s.queue != []
    ensures QueueInv(DropFront(s)) && Front(DropFront(s)) == Front(s) + 1
  {
    assert s.log.enqueued[Front(s) + 1..] == s.log.enqueued[Front(s)..][1..];
  }

  lemma DropFate(s: State, r: Request)
    requires QueueInv(s) && FateInv(s) && |s.queue| == MAX_QUEUE_SIZE
    ensures FateInv(Push(DropFront(s), r))
  {
    var f: nat := Front(s);
    var dropped := s.log.dropped + [f];
    var t := Push(DropFront(s), r);
    AscendingPush(s.log.dropped, f);
    assert t.log.dropped == dropped && t.log.popped == s.log.popped && Front(t) == f + 1
      && |t.log.enqueued| == |s.log.enqueued| + 1;
    assert |t.queue| == |s.queue|;
    assert f in dropped && forall i :: i in dropped <==> i in s.log.dropped || i == f;
    hide Ascending, Push, DropFront, QueueInv;
  }

  lemma DropWork(s: State)
    requires WorkInv(s) && QueueInv(s) && s.queue != []
    ensures WorkInv(DropFront(s))
  {
    assert InHand(DropFront(s)) == InHand(s);
    hide Ascending, InHand;
  }

  lemma PopKeeps(s: State)
    requires Inv(s) && s.phase.Checked? && s.queue != []
    ensures Inv(PopFront(s))
  {
    PopQueue(s);
    PopFate(s);
    PopWork(s);
    hide QueueInv, FateInv, WorkInv;
  }

  lemma PopQueue(s: State)
    requires QueueInv(s) && s.queue != []
    ensures QueueInv(PopFront(s)) && Front(PopFront(s)) == Front(s) + 1
  {
    assert s.log.enqueued[Front(s) + 1..] == s.log.enqueued[Front(s)..][1..];
  }

  lemma PopFate(s: State)
    requires QueueInv(s) && FateInv(s) && s.queue != []
    ensures FateInv(PopFront(s))
  {
    var f: nat := Front(s);
    var popped := s.log.popped + [f];
    var t := PopFront(s);
    AscendingPush(s.log.popped, f);
    assert t.log.popped == popped && t.log.dropped == s.log.dropped && Front(t) == f + 1
      && t.log.enqueued == s.log.enqueued;
    assert |t.queue| == |s.queue| - 1;
    assert f in popped && forall i :: i in popped <==> i in s.log.popped || i == f;
    hide Ascending, PopFront, QueueInv;
  }

  lemma PopWork(s: State)
    requires QueueInv(s) && FateInv(s) && WorkInv(s) && s.phase.Checked? && s.queue != []
    ensures WorkInv(PopFront(s))
  {
    var f: nat := Front(s);
    var popped := s.log.popped + [f];
    var t := PopFront(s);
    assert InHand(t) == [f] && InHand(s) == [];
    assert s.queue[0] == s.log.enqueued[f];
    assert t.log.popped == popped && t.log.processed == s.log.processed && t.log.discarded == s.log.discarded;
    assert t.log.enqueued == s.log.enqueued && t.phase == Holding(s.queue[0]);
    assert f in popped && forall i :: i in popped <==> i in s.log.popped || i == f;
    hide Ascending, PopFront, InHand, Front;
  }

  lemma SettleKeeps(s: State, a: Action)
    requires Inv(s) && Enabled(s, a) && (a.Discard? || a.Finish?)
    ensures Inv(After(s, a))
  {
    var t := After(s, a);
    assert Front(t) == Front(s) && t.queue == s.queue && t.log.enqueued == s.log.enqueued;
    assert t.log.dropped == s.log.dropped && t.log.popped == s.log.popped;
    SettleWork(s, t);
    hide QueueInv, FateInv, WorkInv;
    QueueSame(s, t);
  }

  lemma QueueSame(s: State, t: State)
    requires t.queue == s.queue && t.log.enqueued == s.log.enqueued
    requires t.log.dropped == s.log.dropped && t.log.popped == s.log.popped
    ensures QueueInv(s) ==> QueueInv(t)
    ensures FateInv(s) ==> FateInv(t)
  {
    hide Ascending;
  }

  /** The number in hand, and where it stands to the settled ones. */
  lemma HandIs(s: State) returns (x: int)
    requires WorkInv(s) && s.phase.Holding?
    ensures InHand(s) == [x] && x in s.log.popped
    ensures forall i :: i in s.log.processed ==> i < x
    ensures forall i :: i in s.log.discarded ==> i < x
  {
    x := s.log.popped[|s.log.popped| - 1];
    assert x in InHand(s);
    assert forall i :: i in s.log.processed ==> i in s.log.processed + s.log.discarded;
    assert forall i :: i in s.log.discarded ==> i in s.log.processed + s.log.discarded;
    hide Ascending;
  }

  /** The request in hand becomes a processed or a discarded one. */
  lemma SettleWork(s: State, t: State)
    requires WorkInv(s) && s.phase.Holding? && !t.phase.Holding? && t.log.popped == s.log.popped
    requires (t.log.processed == s.log.processed + InHand(s) && t.log.discarded == s.log.discarded)
      || (t.log.processed == s.log.processed && t.log.discarded == s.log.discarded + InHand(s))
    ensures WorkInv(t)
  {
    var x := HandIs(s);
    assert InHand(t) == [];
    AscendingPush(s.log.processed, x);
    AscendingPush(s.log.discarded, x);
    assert forall i :: i in s.log.processed + [x] <==> i in s.log.processed || i == x;
    assert forall i :: i in s.log.discarded + [x] <==> i in s.log.discarded || i == x;
    assert forall i :: i in [x] <==> i == x;
    hide Ascending, InHand;
  }

  lemma {:induction false} StepKeeps(s: State, a: Action)
    requires Inv(s) && Enabled(s, a)
    ensures Inv(After(s, a))
  {
    match a
    case Enqueue(r) =>
      if |s.queue| >= MAX_QUEUE_SIZE {
        DropKeeps(s, r);
      } else {
        PushKeeps(s, r);
      }
    case Take =>
      if s.queue != [] {
        PopKeeps(s);
      } else {
        OtherKeeps(s, a);
      }
    case Discard => SettleKeeps(s, a);
    case Finish(_) => SettleKeeps(s, a);
    case _ => OtherKeeps(s, a);
  }

  /** The steps that move no request. */
  lemma OtherKeeps(s: State, a: Action)
    requires Inv(s) && Enabled(s, a) && !a.Enqueue? && !a.Discard? && !a.Finish?
    requires a.Take? ==> s.queue == []
    ensures Inv(After(s, a))
  {
    var t := After(s, a);
    assert t.queue == s.queue && t.log == s.log && t.stats == s.stats && (t.phase.Holding? <==> s.phase.Holding?);
    assert t.phase.Holding? ==> t.phase == s.phase;
    assert ControlInv(t);
    hide After, Enabled, QueueInv, FateInv, WorkInv;
    QueueSame(s, t);
    WorkSame(s, t);
  }

  lemma WorkSame(s: State, t: State)
    requires WorkInv(s) && t.log == s.log && (t.phase == s.phase || (!t.phase.Holding? && !s.phase.Holding?))
    ensures WorkInv(t)
  {
    assert InHand(t) == InHand(s);
    hide Ascending, InHand;
  }

  // ----- runs -----

  ghost predicate Run(s: State, actions: seq<Action>, t: State)
    decreases |actions|
  {
    if actions == [] then s == t
    else Enabled(s, actions[0]) && Run(After(s, actions[0]), actions[1..], t)
  }

  /** Whatever the interleaving: what is pending, and how the numbers of requests add up. */
  lemma RequestsAddUp(actions: seq<Action>, t: State)
    requires Run(INITIAL, actions, t)
    ensures |t.queue| <= 10 && |t.queue| <= |t.log.enqueued|
      && t.queue == t.log.enqueued[|t.log.enqueued| - |t.queue|..]
    ensures |t.log.enqueued| == |t.queue| + t.stats.dropped + |t.log.popped|
    ensures |t.log.popped| == t.stats.processed + |t.log.discarded| + (if t.phase.Holding? then 1 else 0)
    ensures Ascending(t.log.processed) && forall i :: i in t.log.processed ==>
      i !in t.log.dropped && i !in t.log.discarded
    ensures forall i: nat :: i < |t.log.enqueued| <= i + 10 ==> i !in t.log.dropped
  {
    InitialInv();
    RunKeeps(INITIAL, actions, t);
    hide Run, Ascending;
  }

  lemma {:induction false} RunKeeps(s: State, actions: seq<Action>, t: State)
    requires Inv(s) && Run(s, actions, t)
    ensures Inv(t)
    decreases |actions|
  {
    if actions != [] {
      StepKeeps(s, actions[0]);
      RunKeeps(After(s, actions[0]), actions[1..], t);
    }
  }

  /** History is only ever extended. */
  ghost predicate Extends(s: State, t: State) {
    s.log.enqueued <= t.log.enqueued && s.log.dropped <= t.log.dropped && s.log.popped <= t.log.popped
    && s.log.processed <= t.log.processed && s.log.discarded <= t.log.discarded
  }

  lemma StepExtends(s: State, a: Action)
    requires Inv(s) && Enabled(s, a)
    ensures Extends(s, After(s, a))
  {
    hide Inv;
  }

  lemma ExtendsTransitive(s: State, t: State, u: State)
    requires Extends(s, t) && Extends(t, u)
    ensures Extends(s, u)
  {
  }

  lemma {:induction false} RunExtends(s: State, actions: seq<Action>, t: State)
    requires Inv(s) && Run(s, actions, t)
    ensures Extends(s, t)
    decreases |actions|
  {
    hide Inv, Extends, After;
    if actions == [] {
      SameExtends(s);
    } else {
      var u := After(s, actions[0]);
      StepExtends(s, actions[0]);
      StepKeeps(s, actions[0]);
      RunExtends(u, actions[1..], t);
      ExtendsTransitive(s, u, t);
    }
  }

  lemma SameExtends(s: State)
    ensures Extends(s, s)
  {
  }

  // ----- after the flag has gone off -----

  /** The request that the worker thread takes although the flag goes off: it had seen the flag on. */
  function LastOne(s: State): seq<int> { if s.phase.Checked? && s.queue != [] then [Front(s)] else [] }

  /** The requests taken or about to be taken are the same. */
  ghost predicate SameWork(s: State, t: State) {
    && !t.running && t.log.popped + LastOne(t) == s.log.popped + LastOne(s)
    && (!s.stopping ==> !t.stopping && t.phase.NoThread? && t.log.processed == s.log.processed)
  }

  lemma SameWorkStep(s: State, a: Action)
    requires Inv(s) && Enabled(s, a) && !s.running && !a.Start?
    ensures SameWork(s, After(s, a))
  {
    assert ControlInv(s);
    assert !s.stopping ==> s.phase.NoThread?;
    hide Inv;
  }

  lemma {:induction false} RunSameWork(s: State, actions: seq<Action>, t: State)
    requires Inv(s) && !s.running && Run(s, actions, t) && Action.Start !in actions
    ensures SameWork(s, t)
    decreases |actions|
  {
    assert ControlInv(s);
    hide Inv, After, LastOne;
    if actions != [] {
      var u := After(s, actions[0]);
      assert actions[0] in actions;
      SameWorkStep(s, actions[0]);
      StepKeeps(s, actions[0]);
      RunSameWork(u, actions[1..], t);
    }
  }

  lemma WorkCount(s: State)
    requires Inv(s)
    ensures |s.log.popped| == |s.log.processed| + |s.log.discarded| + |InHand(s)|
    ensures s.phase.NoThread? <==> !s.running && !s.stopping
  {
    assert WorkInv(s) && ControlInv(s);
    hide QueueInv, FateInv, StatsInv;
  }

  /**
   The flag is off and no Start follows: at most the request whose check had passed is still taken, at
   most one is still processed, and neither happens once Stop has returned.
   */
  lemma NothingAfterStop(s: State, actions: seq<Action>, t: State)
    requires Inv(s) && !s.running && Run(s, actions, t) && Action.Start !in actions
    ensures !t.running
    ensures t.log.popped == s.log.popped || (LastOne(s) != [] && t.log.popped == s.log.popped + LastOne(s))
    ensures s.log.processed <= t.log.processed && |t.log.processed| <= |s.log.processed| + 1
    ensures |t.log.processed| <= |s.log.processed| + |InHand(s)| + |LastOne(s)|
    ensures !s.stopping ==> t.log.popped == s.log.popped && t.log.processed == s.log.processed
  {
    RunSameWork(s, actions, t);
    RunExtends(s, actions, t);
    RunKeeps(s, actions, t);
    WorkCount(s);
    WorkCount(t);
    hide Inv, Run;
  }

  ghost predicate TakesMore(s: State) {
    exists actions, t :: Run(s, actions, t) && Action.Start !in actions && t.log.popped != s.log.popped
  }

  /** Such a request is taken in some run exactly when the check has passed and the queue holds one. */
  lemma OneMoreExactly(s: State)
    requires Inv(s) && !s.running
    ensures TakesMore(s) <==> LastOne(s) != []
  {
    if LastOne(s) != [] {
      var t := After(s, Take);
      assert [Take][1..] == [] && Run(t, [], t);
      assert Run(s, [Take], t);
      assert Action.Start !in [Take] && t.log.popped != s.log.popped;
    }
    hide Inv, Run, LastOne, After;
    if TakesMore(s) {
      var actions, t :| Run(s, actions, t) && Action.Start !in actions && t.log.popped != s.log.popped;
      NothingAfterStop(s, actions, t);
    }
  }

  lemma RunCons(s: State, a: Action, rest: seq<Action>, t: State)
    requires Enabled(s, a) && Run(After(s, a), rest, t)
    ensures Run(s, [a] + rest, t)
  {
    assert ([a] + rest)[1..] == rest;
    hide After, Enabled;
  }

  lemma FirstSteps(r: Request)
    ensures var started := INITIAL.(running := true, phase := Warming);
      var waiting := started.(ready := true, phase := Waiting);
      var asked := waiting.(queue := [r], log := INITIAL.log.(enqueued := [r]));
      && Enabled(INITIAL, Action.Start) && After(INITIAL, Action.Start) == started
      && Enabled(started, WarmUp(true)) && After(started, WarmUp(true)) == waiting
      && Enabled(waiting, Enqueue(r)) && After(waiting, Enqueue(r)) == asked
  {
    assert [] + [r] == [r];
  }

  /** The flag goes off between the check and the take. */
  lemma StopBetween(r: Request)
    ensures var off := State(false, true, true, Checked, [r], INITIAL.stats, INITIAL.log.(enqueued := [r]));
      && Run(INITIAL, [Action.Start, WarmUp(true), Enqueue(r), Check, StopSignal], off)
      && LastOne(off) == [0] && After(off, Take).log.popped == [0]
  {
    var started := INITIAL.(running := true, phase := Warming);
    var waiting := started.(ready := true, phase := Waiting);
    var asked := waiting.(queue := [r], log := INITIAL.log.(enqueued := [r]));
    var checked := asked.(phase := Checked);
    var off := checked.(running := false, stopping := true);
    FirstSteps(r);
    assert Run(off, [], off);
    assert Enabled(checked, StopSignal) && After(checked, StopSignal) == off;
    assert Enabled(asked, Check) && After(asked, Check) == checked;
    hide After, Enabled, Run;
    RunCons(checked, StopSignal, [], off);
    RunCons(asked, Check, [StopSignal] + [], off);
    RunCons(waiting, Enqueue(r), [Check] + ([StopSignal] + []), off);
    RunCons(started, WarmUp(true), [Enqueue(r)] + ([Check] + ([StopSignal] + [])), off);
    RunCons(INITIAL, Action.Start, [WarmUp(true)] + ([Enqueue(r)] + ([Check] + ([StopSignal] + []))), off);
    assert [Action.Start] + ([WarmUp(true)] + ([Enqueue(r)] + ([Check] + ([StopSignal] + []))))
      == [Action.Start, WarmUp(true), Enqueue(r), Check, StopSignal];
    LastTaken(off);
  }

  lemma LastTaken(s: State)
    requires s.phase.Checked? && |s.queue| == |s.log.enqueued| == 1 && s.log.popped == []
    ensures LastOne(s) == [0] && After(s, Take).log.popped == [0]
  {
  }

  // ----- the code -----

  /** The key under which a result is cached. */
  function StoreKey(r: Request): string { if r.cacheKey == "" then r.inputKey else r.cacheKey }

  lemma AfterFinish(s: State, result: Result)
    requires Inv(s) && Enabled(s, Finish(result))
    ensures s.phase.Holding?
    ensures After(s, Finish(result))
      == State(s.running, s.stopping, s.ready, Recorded(s.phase.request, result), s.queue,
      Counted(s.stats, result), s.log.(processed := s.log.processed + InHand(s)))
  {
    hide Inv;
  }

  lemma AfterTake(s: State)
    requires Inv(s) && Enabled(s, Take)
    ensures Front(s) >= 0
    ensures After(s, Take) == if s.queue == [] then s.(phase := Waiting) else PopFront(s)
  {
  }

  lemma AfterEnqueue(s: State, r: Request)
    requires Inv(s) && Enabled(s, Enqueue(r))
    ensures Front(s) >= 0 && |s.queue| <= MAX_QUEUE_SIZE
    ensures After(s, Enqueue(r)) == Push(if |s.queue| >= MAX_QUEUE_SIZE then DropFront(s) else s, r)
  {
  }

  lemma PushIs(s: State, r: Request)
    ensures Push(s, r) == s.(queue := s.queue + [r], log := s.log.(enqueued := s.log.enqueued + [r]))
  {
  }

  lemma DropShortens(s: State)
    ensures s.queue != [] ==> |DropFront(s).queue| == |s.queue| - 1
  {
  }

  class AIWorker {
    var running: bool
    var backendReady: bool
    var requestQueue: seq<Request>
    var stats: Stats
    var phase: Phase
    ghost var stopping: bool
    ghost var log: Log

    ghost function Value(): State reads this { State(running, stopping, backendReady, phase, requestQueue, stats, log) }

    ghost predicate Valid() reads this { Inv(Value()) }

    constructor ()
      ensures Valid() && Value() == INITIAL
    {
      running, stopping, backendReady, phase := false, false, false, NoThread;
      requestQueue, stats, log := [], Stats(0, 0, 0, 0, 0), Log([], [], [], [], []);
      new;
      InitialInv();
    }

    method Start()
      requires Valid() && Enabled(Value(), Action.Start)
      modifies this
      ensures Valid() && Value() == After(old(Value()), Action.Start)
    {
      StepKeeps(Value(), Action.Start);
      hide Inv;
      if running {
        return;
      }
      running := true;
      phase := Warming;
    }

    /** Stop up to the wait for the thread; it returns at once when the worker does not run. */
    method StopSignal()
      requires Valid() && Enabled(Value(), Action.StopSignal)
      modifies this
      ensures Valid() && Value() == After(old(Value()), Action.StopSignal)
    {
      StepKeeps(Value(), Action.StopSignal);
      hide Inv;
      if !running {
        return;
      }
      running := false;
      stopping := true;
    }

    /** The end of Stop: join returns when the thread has ended. */
    method StopReturn()
      requires Valid() && Enabled(Value(), Action.StopReturn)
      modifies this
      ensures Valid() && Value() == After(old(Value()), Action.StopReturn)
    {
      StepKeeps(Value(), Action.StopReturn);
      hide Inv;
      phase := NoThread;
      stopping := false;
    }

    /** The worker thread does not hold the lock. */
    method EnqueueRequest(request: Request)
      requires Valid() && Enabled(Value(), Action.Enqueue(request))
      modifies this
      ensures Valid() && Value() == After(old(Value()), Action.Enqueue(request))
    {
      ghost var s := Value();
      StepKeeps(s, Action.Enqueue(request));
      AfterEnqueue(s, request);
      hide Inv, After, Enabled, DropFront, Push;
      PushIs(if |s.queue| >= MAX_QUEUE_SIZE then DropFront(s) else s, request);
      DropShortens(s);
      while |requestQueue| >= MAX_QUEUE_SIZE
        invariant Value() == s || (|s.queue| == MAX_QUEUE_SIZE && Value() == DropFront(s))
        decreases |requestQueue|
      {
        DropOldest();
      }
      requestQueue := requestQueue + [request];
      log := log.(enqueued := log.enqueued + [request]);
    }

    /** One turn of the loop of EnqueueRequest. */
    method DropOldest()
      requires requestQueue != []
      modifies this`requestQueue, this`stats, this`log
      ensures Value() == DropFront(old(Value()))
    {
      log := log.(dropped := log.dropped + [|log.enqueued| - |requestQueue|]);
      requestQueue := requestQueue[1..];
      stats := stats.(dropped := stats.dropped + 1);
    }

    method WarmUp(initialized: bool)
      requires Valid() && Enabled(Value(), Action.WarmUp(initialized))
      modifies this
      ensures Valid() && Value() == After(old(Value()), Action.WarmUp(initialized))
    {
      StepKeeps(Value(), Action.WarmUp(initialized));
      hide Inv;
      if initialized {
        backendReady := true;
      }
      phase := Waiting;
    }

    /** The loop up to the flag: the thread ends, or holds the lock and goes on. */
    method Check()
      requires Valid() && Enabled(Value(), Action.Check)
      modifies this
      ensures Valid() && Value() == After(old(Value()), Action.Check)
    {
      StepKeeps(Value(), Action.Check);
      hide Inv;
      if !running {
        phase := Ended;
        return;
      }
      phase := Checked;
    }

    /** The rest of the critical section. */
    method Take()
      requires Valid() && Enabled(Value(), Action.Take)
      modifies this
      ensures Valid() && Value() == After(old(Value()), Action.Take)
    {
      ghost var s := Value();
      StepKeeps(s, Action.Take);
      AfterTake(s);
      hide Inv, After, Enabled;
      if requestQueue == [] {
        phase := Waiting;
        return;
      }
      log := log.(popped := log.popped + [Front(s)]);
      phase, requestQueue := Holding(requestQueue[0]), requestQueue[1..];
    }

    method Discard()
      requires Valid() && Enabled(Value(), Action.Discard)
      modifies this
      ensures Valid() && Value() == After(old(Value()), Action.Discard)
    {
      StepKeeps(Value(), Action.Discard);
      hide Inv;
      log := log.(discarded := log.discarded + InHand(Value()));
      phase := Waiting;
    }

    /** ProcessRequest up to its critical section; the backend's answer is a parameter. */
    method CountResult(result: Result)
      requires Valid() && Enabled(Value(), Action.Finish(result))
      modifies this
      ensures Valid() && Value() == After(old(Value()), Action.Finish(result))
    {
      ghost var s := Value();
      StepKeeps(s, Action.Finish(result));
      AfterFinish(s, result);
      hide Inv, After, Enabled, Counted, InHand;
      AddToStats(result);
      phase, log := Recorded(phase.request, result), log.(processed := log.processed + InHand(s));
    }

    method AddToStats(result: Result)
      modifies this`stats
      ensures stats == Counted(old(stats), result)
    {
      stats := stats.(processed := stats.processed + 1);
      if result.success {
        stats := stats.(succeeded := stats.succeeded + 1);
      } else {
        stats := stats.(failed := stats.failed + 1);
      }
      stats := stats.(totalLatencyMs := stats.totalLatencyMs + result.elapsedMs);
    }

    /** The rest of ProcessRequest: only a successful result with candidates is cached. */
    method StoreResult(cache: AICandidateCache, pruneAt: int, storedAt: int)
      requires Valid() && Enabled(Value(), Action.Store) && cache.Valid()
      modifies this, cache`cache, cache`history
      ensures Valid() && Value() == After(old(Value()), Action.Store) && cache.Valid()
      ensures var r := old(phase.result);
        cache.history == old(cache.history) + if r.success && r.candidates != []
          then [Op.Put(StoreKey(old(phase.request)), r.candidates, pruneAt, storedAt)] else []
    {
      StepKeeps(Value(), Action.Store);
      hide Inv, Reachable;
      if phase.result.success && phase.result.candidates != [] {
        var key := if phase.request.cacheKey == "" then phase.request.inputKey else phase.request.cacheKey;
        cache.Put(key, phase.result.candidates, pruneAt, storedAt);
      }
      phase := Waiting;
    }
  }
}
