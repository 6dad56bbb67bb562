/**
 AIRewriter (src/rewriter/ai_rewriter.cc): it makes its cache and its worker when it is first called, looks
 candidates up in the cache, asks the worker for those it misses, and never waits for an answer.
 */
module AiRewriter {
  import opened Text
  import opened Cache
  import opened Worker

  const MAX_CONTEXT_HISTORY := 5
  const MAX_CANDIDATES_TO_ADD := 3
  const MAX_EXISTING := 5
  const MAX_VALUE_SIZE := 60
  const MAX_INIT_FAILURES := 3
  const DESCRIPTION := "AIが生成"

  datatype Candidate = Candidate(value: string, contentValue: string, description: string)

  class Segment {
    const key: string
    var candidates: seq<Candidate>

    constructor (key: string, candidates: seq<Candidate>)
      ensures this.key == key && this.candidates == candidates
    {
      this.key, this.candidates := key, candidates;
    }
  }

  datatype RewriterStats = RewriterStats(rewriteCalls: int, cacheHits: int, cacheMisses: int, candidatesAdded: int)

  // ----- what the parts of Rewrite compute -----

  /** The key of a reading: followed by the last context item when the configuration says so. */
  function CacheKey(input: string, context: seq<string>, withContext: bool): string {
    if withContext && context != [] then input + "|" + context[|context| - 1] else input
  }

  function Values(candidates: seq<Candidate>): seq<string> {
    seq(|candidates|, i requires 0 <= i < |candidates| => candidates[i].value)
  }

  function AiCandidate(value: string): Candidate { Candidate(value, value, DESCRIPTION) }

  /** The values that are added behind those shown, at most room of them. */
  function Added(shown: seq<string>, offered: seq<string>, room: nat): seq<string>
    decreases |offered|
  {
    if offered == [] || room == 0 then []
    else if offered[0] in shown || offered[0] == "" || |offered[0]| > MAX_VALUE_SIZE then
      Added(shown, offered[1..], room)
    else [offered[0]] + Added(shown + [offered[0]], offered[1..], room - 1)
  }

  predicate Acceptable(v: string) { v != "" && |v| <= 60 }

  /**
   At most three new values, none shown before, none twice, each acceptable and offered; none is left
   out while there is room.
   */
  lemma {:induction false} AddedIsFit(shown: seq<string>, offered: seq<string>, room: nat)
    ensures var a := Added(shown, offered, room);
      && |a| <= room
      && (forall v :: v in a ==> v in offered && v !in shown && Acceptable(v))
      && (forall i, j :: 0 <= i < j < |a| ==> a[i] != a[j])
      && (|a| < room ==> forall v :: v in offered && Acceptable(v) ==> v in shown || v in a)
    decreases |offered|
  {
    if offered != [] && room > 0 {
      var v := offered[0];
      assert forall w :: w in offered <==> w == v || w in offered[1..];
      if v in shown || !Acceptable(v) {
        AddedIsFit(shown, offered[1..], room);
      } else {
        AddedIsFit(shown + [v], offered[1..], room - 1);
        var more := Added(shown + [v], offered[1..], room - 1);
        assert v in shown + [v];
        assert forall w :: w in more ==> w != v && w !in shown;
      }
    }
  }

  /** Offered values keep their order. */
  lemma {:induction false} AddedKeepsOrder(shown: seq<string>, offered: seq<string>, room: nat, i: nat, j: nat)
    returns (p: nat, q: nat)
    requires i < j < |Added(shown, offered, room)|
    ensures p < q < |offered| && Added(shown, offered, room)[i] == offered[p]
      && Added(shown, offered, room)[j] == offered[q]
    decreases |offered|
  {
    if offered[0] in shown || !Acceptable(offered[0]) {
      p, q := AddedKeepsOrder(shown, offered[1..], room, i, j);
      p, q := p + 1, q + 1;
    } else {
      var more := Added(shown + [offered[0]], offered[1..], room - 1);
      if i == 0 {
        AddedIsFit(shown + [offered[0]], offered[1..], room - 1);
        assert more[j - 1] in offered[1..];
        var k :| 0 <= k < |offered| - 1 && offered[1..][k] == more[j - 1];
        p, q := 0, k + 1;
      } else {
        p, q := AddedKeepsOrder(shown + [offered[0]], offered[1..], room - 1, i - 1, j - 1);
        p, q := p + 1, q + 1;
      }
    }
  }

  function Appended(candidates: seq<Candidate>, values: seq<string>): seq<Candidate> {
    candidates + seq(|values|, i requires 0 <= i < |values| => AiCandidate(values[i]))
  }

  /** The candidates stay as they are, and each new one spells its value and is described as an AI candidate. */
  lemma AppendedAre(candidates: seq<Candidate>, values: seq<string>)
    ensures var after := Appended(candidates, values);
      && |after| == |candidates| + |values| && after[..|candidates|] == candidates
      && forall k :: 0 <= k < |values| ==>
           var c := after[|candidates| + k];
           c.value == c.contentValue == values[k] && c.description == "AIが生成"
  {
  }

  lemma AppendedValues(candidates: seq<Candidate>, values: seq<string>)
    ensures Values(Appended(candidates, values)) == Values(candidates) + values
  {
  }

  /** The last five tops. */
  function Remembered(context: seq<string>, top: string): seq<string> {
    var c := context + [top];
    if |c| > MAX_CONTEXT_HISTORY then c[|c| - MAX_CONTEXT_HISTORY..] else c
  }

  // ----- the code -----

  class AIRewriter {
    const enabled: bool
    const disableAi: bool
    const withContext: bool
    const maxEntries: int
    const ttl: int
    var cache: AICandidateCache?
    var worker: AIWorker?
    var initialized: bool
    var initFailures: nat
    var contextHistory: seq<string>
    var stats: RewriterStats

    /** Without a backend there may be a cache, an empty one, but no worker. */
    ghost predicate Valid()
      reads this, cache, worker
    {
      && (cache != null ==> cache.Valid())
      && (worker != null ==> worker.Valid())
      && (initialized ==> cache != null && worker != null)
      && (!initialized ==> worker == null && Cached() == map[] && initFailures <= MAX_INIT_FAILURES)
      && (initFailures > 0 ==> cache != null)
      && |contextHistory| <= MAX_CONTEXT_HISTORY
    }

    ghost function Cached(): Store
      reads this, cache
    {
      if cache == null then map[] else cache.cache
    }

    /** The worker's state; a worker that is still to be made is like a new one. */
    ghost function Working(): State
      reads this, worker
    {
      if worker == null then INITIAL else worker.Value()
    }

    constructor (enabled: bool, disableAi: bool, withContext: bool, maxEntries: int, ttl: int)
      ensures Valid() && this.enabled == enabled && this.disableAi == disableAi && this.withContext == withContext
      ensures this.maxEntries == maxEntries && this.ttl == ttl
      ensures !initialized && initFailures == 0 && contextHistory == [] && cache == null && worker == null
    {
      this.enabled, this.disableAi, this.withContext := enabled, disableAi, withContext;
      this.maxEntries, this.ttl := maxEntries, ttl;
      cache, worker, initialized, initFailures := null, null, false, 0;
      contextHistory, stats := [], RewriterStats(0, 0, 0, 0);
    }

    /** Whether EnsureInitialized gets a backend; it asks for one at most until the third failure. */
    ghost predicate Initializes(created: bool)
      reads this
    {
      !initialized && initFailures < MAX_INIT_FAILURES && created
    }

    /** created: the backend can be made. */
    method EnsureInitialized(created: bool)
      requires Valid()
      modifies this`cache, this`worker, this`initialized, this`initFailures
      ensures Valid() && cache != null && Cached() == old(Cached())
      ensures initialized <==> old(initialized) || old(Initializes(created))
      ensures initFailures == old(initFailures) +
        if old(initialized) || created || old(initFailures) == 3 then 0 else 1
      ensures old(initialized) ==> cache == old(cache) && worker == old(worker)
      ensures cache == old(cache) || fresh(cache)
      ensures worker == old(worker) || fresh(worker)
      ensures Working() == if old(Initializes(created)) then After(INITIAL, Action.Start) else old(Working())
    {
      hide Inv, Reachable;
      if initialized {
        return;
      }
      if initFailures >= MAX_INIT_FAILURES {
        return;
      }
      cache := new AICandidateCache(maxEntries, ttl);
      if !created {
        initFailures := initFailures + 1;
        return;
      }
      worker := new AIWorker();
      worker.Start();
      initialized := true;
    }

    method GetCacheKey(input: string) returns (key: string)
      ensures key == CacheKey(input, contextHistory, withContext)
    {
      if !withContext {
        return input;
      }
      key := input;
      if contextHistory != [] {
        key := key + "|" + contextHistory[|contextHistory| - 1];
      }
    }

    method IsDuplicate(candidate: string, segment: Segment) returns (found: bool)
      ensures found <==> candidate in Values(segment.candidates)
    {
      var i := 0;
      while i < |segment.candidates|
        invariant 0 <= i <= |segment.candidates|
        invariant forall k :: 0 <= k < i ==> segment.candidates[k].value != candidate
      {
        if segment.candidates[i].value == candidate {
          assert Values(segment.candidates)[i] == candidate;
          return true;
        }
        i := i + 1;
      }
      found := false;
    }

    method InsertCandidates(offered: seq<string>, segment: Segment)
      modifies this`stats, segment
      ensures var values := Added(Values(old(segment.candidates)), offered, MAX_CANDIDATES_TO_ADD);
        segment.candidates == Appended(old(segment.candidates), values)
        && stats == old(stats).(candidatesAdded := old(stats).candidatesAdded + |values|)
    {
      hide Added, Appended, Values;
      ghost var was := segment.candidates;
      ghost var done: seq<string> := [];
      ghost var all := Added(Values(was), offered, MAX_CANDIDATES_TO_ADD);
      var added, i := 0, 0;
      NothingYet(was, offered);
      while i < |offered| && added < MAX_CANDIDATES_TO_ADD
        invariant 0 <= i <= |offered| && 0 <= added <= MAX_CANDIDATES_TO_ADD && added == |done|
        invariant segment.candidates == Appended(was, done)
        invariant all == done + Added(Values(was) + done, offered[i..], MAX_CANDIDATES_TO_ADD - added)
        invariant stats == old(stats)
        decreases |offered| - i
      {
        var value := offered[i];
        AppendedValues(was, done);
        AddedHead(Values(was) + done, offered, i, MAX_CANDIDATES_TO_ADD - added);
        i := i + 1;
        var duplicate := IsDuplicate(value, segment);
        if duplicate {
          continue;
        }
        if value == "" || |value| > MAX_VALUE_SIZE {
          continue;
        }
        segment.candidates := segment.candidates + [Candidate(value, value, DESCRIPTION)];
        OneMoreAppended(was, done, value);
        done := done + [value];
        added := added + 1;
      }
      AddedEnd(Values(was) + done, offered[i..], MAX_CANDIDATES_TO_ADD - added);
      assert done + [] == done;
      if added > 0 {
        stats := stats.(candidatesAdded := stats.candidatesAdded + added);
      }
    }

    method UpdateContext(segment: Segment)
      requires |contextHistory| <= MAX_CONTEXT_HISTORY
      modifies this`contextHistory
      ensures |contextHistory| <= MAX_CONTEXT_HISTORY
      ensures contextHistory ==
        if segment.candidates == [] then old(contextHistory)
        else Remembered(old(contextHistory), segment.candidates[0].value)
      ensures segment.candidates != [] ==>
        contextHistory != [] && contextHistory[|contextHistory| - 1] == segment.candidates[0].value
    {
      ghost var all := contextHistory + if segment.candidates == [] then [] else [segment.candidates[0].value];
      if segment.candidates == [] {
        return;
      }
      contextHistory := contextHistory + [segment.candidates[0].value];
      while |contextHistory| > MAX_CONTEXT_HISTORY
        invariant contextHistory == all || (|all| == MAX_CONTEXT_HISTORY + 1 && contextHistory == all[1..])
        decreases |contextHistory|
      {
        contextHistory := contextHistory[1..];
      }
    }

    method GetExistingCandidates(segment: Segment) returns (r: seq<string>)
      ensures r == Existing(segment.candidates)
    {
      var count := if |segment.candidates| < MAX_EXISTING then |segment.candidates| else MAX_EXISTING;
      r := [];
      for i := 0 to count
        invariant r == Values(segment.candidates[..i])
      {
        r := r + [segment.candidates[i].value];
      }
    }

    method RequestAICandidates(key: string, segment: Segment)
      requires worker != null && worker.Valid() && !worker.phase.Checked?
      modifies worker
      ensures worker.Valid()
      ensures worker.Value() == After(old(worker.Value()), Enqueue(
        Request(key, CacheKey(key, contextHistory, withContext), Existing(segment.candidates), contextHistory)))
    {
      var cacheKey := GetCacheKey(key);
      var existing := GetExistingCandidates(segment);
      worker.EnqueueRequest(Request(key, cacheKey, existing, contextHistory));
    }

    /** Nothing else is running: no other thread comes in between, and none holds a lock. */
    ghost predicate Alone()
      reads this, worker
    {
      worker != null ==> !worker.phase.Checked?
    }

    /**
     What Rewrite does alone; now is the time at which the cache is asked, and created says whether a
     backend can be made if one is needed.
     */
    method Rewrite(segments: seq<Segment>, now: int, created: bool) returns (ok: bool)
      requires Valid() && Alone()
      modifies this, cache, worker, segments
      ensures ok && Valid()
      ensures !enabled || disableAi || segments == [] || segments[0].key == "" ==>
        stats == old(stats).(rewriteCalls := old(stats).rewriteCalls + 1)
        && initialized == old(initialized) && initFailures == old(initFailures)
      ensures enabled && !disableAi && segments != [] && segments[0].key != "" ==>
        stats == LookedUp(old(stats).(rewriteCalls := old(stats).rewriteCalls + 1),
          Lookup(old(Cached()), CacheKey(segments[0].key, old(contextHistory), withContext), now),
          old(segments[0].candidates))
        && (initialized <==> old(initialized) || old(Initializes(created)))
      ensures Cached() == old(Cached())
      ensures forall s :: s in segments && s != segments[0] ==> s.candidates == old(s.candidates)
      ensures !enabled || disableAi || segments == [] || segments[0].key == "" ==>
        Working() == old(Working()) && contextHistory == old(contextHistory)
        && forall s :: s in segments ==> s.candidates == old(s.candidates)
      ensures enabled && !disableAi && segments != [] && segments[0].key != "" ==>
        Rewritten(segments[0].key, old(segments[0].candidates), segments[0].candidates,
          Lookup(old(Cached()), CacheKey(segments[0].key, old(contextHistory), withContext), now),
          old(contextHistory), contextHistory, withContext,
          if old(Initializes(created)) then After(INITIAL, Action.Start) else old(Working()), Working())
    {
      hide Rewritten, Lookup, CacheKey, LookedUp, Inv, After, Enabled, Reachable;
      StartsWarming();
      stats := stats.(rewriteCalls := stats.rewriteCalls + 1);
      ok := true;
      if !enabled || disableAi {
        return;
      }
      if |segments| == 0 {
        return;
      }
      var segment := segments[0];
      if segment.key == "" {
        return;
      }
      RewriteSegment(segment, now, created);
    }

    /** Steps 1 to 5 of Rewrite. */
    method RewriteSegment(segment: Segment, now: int, created: bool)
      requires Valid() && Alone()
      modifies this, cache, worker, segment
      ensures Valid() && Cached() == old(Cached()) && (initialized <==> old(initialized) || old(Initializes(created)))
      ensures stats == LookedUp(old(stats),
        Lookup(old(Cached()), CacheKey(segment.key, old(contextHistory), withContext), now), old(segment.candidates))
      ensures Rewritten(segment.key, old(segment.candidates), segment.candidates,
        Lookup(old(Cached()), CacheKey(segment.key, old(contextHistory), withContext), now),
        old(contextHistory), contextHistory, withContext,
        if old(Initializes(created)) then After(INITIAL, Action.Start) else old(Working()), Working())
    {
      hide Rewritten, Lookup, CacheKey, LookedUp, Inv, Reachable, Enabled;
      StartsWarming();
      EnsureInitialized(created);
      hide After;
      ShowOrAsk(segment, now);
    }

    /** Step 2 of Rewrite: the candidates of the cache, and a hit or a miss more. */
    method LookUp(key: string, now: int) returns (offered: seq<string>)
      requires cache != null && cache.Valid()
      modifies this`stats, cache`hits, cache`misses
      ensures cache.Valid()
      ensures var found := Lookup(cache.cache, CacheKey(key, contextHistory, withContext), now);
        && offered == (if found.Some? then found.value else [])
        && stats == if found.Some? then old(stats).(cacheHits := old(stats).cacheHits + 1)
                    else old(stats).(cacheMisses := old(stats).cacheMisses + 1)
    {
      hide Reachable, Lookup, CacheKey, LatestPut;
      offered := [];
      var cacheKey := GetCacheKey(key);
      var cached := cache.Get(cacheKey, now);
      if cached.Some? {
        offered := cached.value;
        stats := stats.(cacheHits := stats.cacheHits + 1);
      } else {
        stats := stats.(cacheMisses := stats.cacheMisses + 1);
      }
    }

    /** Steps 2 to 5 of Rewrite. */
    method ShowOrAsk(segment: Segment, now: int)
      requires Valid() && Alone() && cache != null
      modifies this`contextHistory, this`stats, cache, worker, segment
      ensures Valid()
      ensures stats == LookedUp(old(stats),
        Lookup(old(Cached()), CacheKey(segment.key, old(contextHistory), withContext), now), old(segment.candidates))
      ensures Cached() == old(Cached())
      ensures Rewritten(segment.key, old(segment.candidates), segment.candidates,
          Lookup(old(Cached()), CacheKey(segment.key, old(contextHistory), withContext), now),
          old(contextHistory), contextHistory, withContext, old(Working()), Working())
    {
      hide Inv, After, Reachable, Lookup, Added, Existing, CacheKey, Remembered, LatestPut, Values, Appended;
      var offered := LookUp(segment.key, now);
      if offered == [] && worker != null && worker.backendReady {
        RequestAICandidates(segment.key, segment);
      }
      if offered != [] {
        InsertCandidates(offered, segment);
      } else {
        NothingAdded(segment.candidates);
      }
      UpdateContext(segment);
    }
  }

  lemma StartsWarming()
    ensures Enabled(INITIAL, Action.Start) && After(INITIAL, Action.Start).phase.Warming?
    ensures !INITIAL.phase.Checked? && !INITIAL.ready
  {
  }

  lemma NothingAdded(candidates: seq<Candidate>)
    ensures Added(Values(candidates), [], MAX_CANDIDATES_TO_ADD) == []
    ensures Appended(candidates, Added(Values(candidates), [], MAX_CANDIDATES_TO_ADD)) == candidates
  {
    AddedEnd(Values(candidates), [], MAX_CANDIDATES_TO_ADD);
    assert Appended(candidates, []) == candidates;
  }

  function Existing(candidates: seq<Candidate>): seq<string> {
    Values(if |candidates| < MAX_EXISTING then candidates else candidates[..MAX_EXISTING])
  }

  /** A hit or a miss more, and the candidates that were added. */
  function LookedUp(stats: RewriterStats, found: Option<seq<string>>, before: seq<Candidate>): RewriterStats {
    var offered := if found.Some? then found.value else [];
    RewriterStats(stats.rewriteCalls, stats.cacheHits + (if found.Some? then 1 else 0),
                  stats.cacheMisses + (if found.Some? then 0 else 1),
                  stats.candidatesAdded + |Added(Values(before), offered, MAX_CANDIDATES_TO_ADD)|)
  }

  /** A hit is shown and nothing is asked; a miss leaves the candidates alone and, when the backend is ready, asks. */
  ghost predicate Rewritten(key: string, before: seq<Candidate>, after: seq<Candidate>, found: Option<seq<string>>,
    context: seq<string>, contextAfter: seq<string>, withContext: bool, worker: State, workerAfter: State)
    requires !worker.phase.Checked?
  {
    var offered := if found.Some? then found.value else [];
    && after == Appended(before, Added(Values(before), offered, MAX_CANDIDATES_TO_ADD))
    && contextAfter == (if after == [] then context else Remembered(context, after[0].value))
    && workerAfter == (if offered == [] && worker.ready
                       then After(worker, Enqueue(Request(key, CacheKey(key, context, withContext), Existing(before),
                         context)))
                       else worker)
  }

  lemma NothingYet(was: seq<Candidate>, offered: seq<string>)
    ensures Values(was) + [] == Values(was) && offered[0..] == offered && Appended(was, []) == was
  {
  }

  lemma OneMoreAppended(was: seq<Candidate>, done: seq<string>, value: string)
    ensures Appended(was, done) + [Candidate(value, value, DESCRIPTION)] == Appended(was, done + [value])
    ensures Values(was) + (done + [value]) == Values(was) + done + [value]
  {
  }

  lemma AddedHead(shown: seq<string>, offered: seq<string>, i: nat, room: nat)
    requires i < |offered| && room > 0
    ensures Added(shown, offered[i..], room) ==
      if offered[i] in shown || offered[i] == "" || |offered[i]| > MAX_VALUE_SIZE then
        Added(shown, offered[i + 1..], room)
      else [offered[i]] + Added(shown + [offered[i]], offered[i + 1..], room - 1)
  {
    assert offered[i..][1..] == offered[i + 1..];
  }

  lemma AddedEnd(shown: seq<string>, offered: seq<string>, room: nat)
    requires offered == [] || room == 0
    ensures Added(shown, offered, room) == []
  {
  }
}
