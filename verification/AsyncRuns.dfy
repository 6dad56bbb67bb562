/** What whole runs of the asynchronous path do: the context, the requests, and what the next call shows. */
module AsyncRuns {
  import opened Text
  import opened Cache
  import opened Worker
  import opened AiRewriter
  import opened AsyncSystem

  // ----- the context -----

  function LastFive(tops: seq<string>): seq<string> { if |tops| <= 5 then tops else tops[|tops| - 5..] }

  /** The tops remembered since the last clearing of the context, after one more event. */
  function TopsAfter(s: System, e: Event, tops: seq<string>): seq<string>
    requires Possible(s, e)
  {
    match e
    case ClearContext => []
    case Remember(c) =>
      if s.clients[c].candidates == [] then tops else tops + [s.clients[c].candidates[0].value]
    case _ => tops
  }

  /** s can be the state after the events, with these tops. */
  ghost predicate Remembering(cfg: Settings, events: seq<Event>, s: System, tops: seq<string>)
    decreases |events|
  {
    if events == [] then s == EMPTY && tops == []
    else
      var before, e := events[..|events| - 1], events[|events| - 1];
      exists u, earlier :: Remembering(cfg, before, u, earlier) && Possible(u, e) && Next(cfg, u, e, s)
        && tops == TopsAfter(u, e, earlier)
  }

  /** Remembering one more top is keeping the last five of all of them. */
  lemma RememberedIsLast(tops: seq<string>, top: string)
    ensures Remembered(LastFive(tops), top) == LastFive(tops + [top])
    ensures var r := Remembered(LastFive(tops), top); r[|r| - 1] == top
  {
  }

  lemma ContextStep(cfg: Settings, s: System, e: Event, t: System)
    requires Possible(s, e) && Next(cfg, s, e, t)
    ensures e.ClearContext? ==> t.context == []
    ensures e.Remember? ==>
      var shown := s.clients[e.c].candidates;
      t.context == if shown == [] then s.context else Remembered(s.context, shown[0].value)
    ensures !e.ClearContext? && !e.Remember? ==> t.context == s.context
  {
    hide After, Enabled, Step, Lookup, Added, Appended, CacheKey, Remembered, Existing;
  }

  /** In every run the context is the last five tops since it was cleared. */
  lemma {:induction false} ContextIsLastFive(cfg: Settings, events: seq<Event>, s: System, tops: seq<string>)
    requires Remembering(cfg, events, s, tops)
    ensures s.context == LastFive(tops)
    decreases |events|
  {
    if events != [] {
      var before, e := events[..|events| - 1], events[|events| - 1];
      var u, earlier :| Remembering(cfg, before, u, earlier) && Possible(u, e) && Next(cfg, u, e, s)
        && tops == TopsAfter(u, e, earlier);
      ContextIsLastFive(cfg, before, u, earlier);
      ContextStep(cfg, u, e, s);
      hide Next, Possible, Remembering, Remembered;
      if e.Remember? && u.clients[e.c].candidates != [] {
        RememberedIsLast(earlier, u.clients[e.c].candidates[0].value);
      }
    }
  }

  /** Every run remembers some tops, and only runs do. */
  lemma {:induction false} RunsRemember(cfg: Settings, events: seq<Event>, s: System)
    ensures Happens(cfg, events, s) <==> exists tops :: Remembering(cfg, events, s, tops)
    decreases |events|
  {
    hide Next, Possible, TopsAfter;
    if events == [] {
      assert s == EMPTY ==> Remembering(cfg, events, s, []);
    } else {
      var before, e := events[..|events| - 1], events[|events| - 1];
      forall u
        ensures Happens(cfg, before, u) <==> exists tops :: Remembering(cfg, before, u, tops)
      {
        RunsRemember(cfg, before, u);
      }
      if Happens(cfg, events, s) {
        var u :| Happens(cfg, before, u) && Possible(u, e) && Next(cfg, u, e, s);
        var earlier :| Remembering(cfg, before, u, earlier);
        assert Remembering(cfg, events, s, TopsAfter(u, e, earlier));
      }
    }
  }

  // ----- what is asked -----

  /** The key of a call: the reading, and the top remembered last when the context is part of it. */
  lemma KeyNamesLastTop(cfg: Settings, events: seq<Event>, s: System, tops: seq<string>, e: Event, t: System)
    requires Remembering(cfg, events, s, tops) && Possible(s, e) && Next(cfg, s, e, t) && (e.Begin? || e.Build?)
    ensures var k := t.clients[e.c];
      k.cacheKey == k.reading + if cfg.withContext && tops != [] then "|" + tops[|tops| - 1] else ""
    ensures e.Begin? ==> t.clients[e.c].reading == e.reading
    ensures e.Build? ==> t.clients[e.c].reading == s.clients[e.c].reading
  {
    KeyStep(cfg, s, e, t);
    hide *;
    ContextIsLastFive(cfg, events, s, tops);
    KeyOf(t.clients[e.c].reading, tops, cfg.withContext);
  }

  lemma KeyStep(cfg: Settings, s: System, e: Event, t: System)
    requires Possible(s, e) && Next(cfg, s, e, t) && (e.Begin? || e.Build?)
    ensures e.c in t.clients && !t.clients[e.c].Finishing?
    ensures var k := t.clients[e.c]; k.cacheKey == CacheKey(k.reading, s.context, cfg.withContext)
    ensures e.Begin? ==> t.clients[e.c].reading == e.reading
    ensures e.Build? ==> t.clients[e.c].reading == s.clients[e.c].reading
  {
    hide CacheKey;
  }

  lemma KeyOf(reading: string, tops: seq<string>, withContext: bool)
    ensures CacheKey(reading, LastFive(tops), withContext) ==
      reading + if withContext && tops != [] then "|" + tops[|tops| - 1] else ""
  {
    assert reading + "" == reading;
    if tops != [] {
      var last := LastFive(tops);
      assert last[|last| - 1] == tops[|tops| - 1];
      assert reading + "|" + tops[|tops| - 1] == reading + ("|" + tops[|tops| - 1]);
    }
  }

  /** A request carries the last five tops of the moment at which it copied them. */
  lemma CopiesLastTops(cfg: Settings, events: seq<Event>, s: System, tops: seq<string>, c: nat, t: System)
    requires Remembering(cfg, events, s, tops) && Possible(s, Copy(c)) && Next(cfg, s, Copy(c), t)
    ensures var k, was := t.clients[c], s.clients[c];
      k == Sending(was.reading, was.candidates, was.cacheKey, LastFive(tops))
  {
    ContextIsLastFive(cfg, events, s, tops);
    hide Remembering;
  }

  /** What is enqueued names the reading, the key, the first five values and those tops. */
  lemma SendsWhatWasBuilt(cfg: Settings, s: System, c: nat, t: System)
    requires Inv(s.worker) && Possible(s, Send(c)) && Next(cfg, s, Send(c), t)
    ensures var k, r := s.clients[c], t.worker.log.enqueued[|s.worker.log.enqueued|..];
      && t.worker.log.enqueued == s.worker.log.enqueued + r && |r| == 1
      && t.worker.queue != [] && t.worker.queue[|t.worker.queue| - 1] == r[0]
      && r[0].inputKey == k.reading && r[0].cacheKey == k.cacheKey && r[0].contextHistory == k.context
      && |r[0].existing| == (if |k.candidates| < 5 then |k.candidates| else 5)
      && forall j :: 0 <= j < |r[0].existing| ==> r[0].existing[j] == k.candidates[j].value
  {
    AfterEnqueue(s.worker, Asked(s.clients[c]));
    hide Inv;
  }

  // ----- what is found -----

  /** A look within the time to live of a surviving put is a hit, with the values of that put. */
  lemma LookHits(cfg: Settings, events: seq<Event>, s: System, c: nat, t: System)
    requires Happens(cfg, events, s) && Possible(s, Look(c)) && Next(cfg, s, Look(c), t)
    requires Survives(s.puts, SizeT(cfg.maxEntries), cfg.ttl, s.clients[c].cacheKey)
    requires var i := LatestPut(s.puts, s.clients[c].cacheKey).value; s.now <= s.puts[i].storedAt + cfg.ttl
    ensures var i := LatestPut(s.puts, s.clients[c].cacheKey).value;
      Hit(t.clients[c]) && t.clients[c].found == Some(s.puts[i].candidates)
  {
    var key := s.clients[c].cacheKey;
    var i := LatestPut(s.puts, key).value;
    RunKeepsSystem(cfg, events, s);
    PutsAreNotEmpty(cfg, s, i);
    GetFindsLatestPut(s.puts, SizeT(cfg.maxEntries), cfg.ttl, s.store, key, s.now);
    hide Happens, Survives, LatestPut, Lookup, SystemInv;
  }

  lemma PutsAreNotEmpty(cfg: Settings, s: System, i: nat)
    requires SystemInv(cfg, s) && i < |s.puts|
    ensures Reachable(s.puts, SizeT(cfg.maxEntries), cfg.ttl, s.store)
    ensures s.puts[i].Put? && s.puts[i].candidates != []
  {
    assert PutsStore(s.puts, s.origins, s.generated, s.now) && CacheFits(cfg, s);
    assert Stores(s.generated[s.origins[i]], s.puts[i]);
    hide Reachable, Inv, RequestsFit, Answered, ClientsFit, AllShownFit;
  }

  /** The answer to a request is shown by the next call with its key, if that comes within the time to live. */
  lemma NextCallShows(cfg: Settings, s: System, pruneAt: int, storedAt: int, t: System, c: nat, reading: string,
                      candidates: seq<Candidate>, now: int)
    returns (events: seq<Event>, u: System, after: seq<Candidate>)
    requires Possible(s, Keep(pruneAt, storedAt)) && Next(cfg, s, Keep(pruneAt, storedAt), t)
    requires storedAt <= now <= storedAt + cfg.ttl && c !in t.clients && reading != ""
    requires CacheKey(reading, t.context, cfg.withContext) == StoreKey(s.worker.phase.request)
    ensures Follows(cfg, t.(now := now), events, u)
    ensures var values := Added(Values(candidates), s.worker.phase.result.candidates, 3);
      && after == Appended(candidates, values)
      && u.shown == t.shown + [Shown(reading, StoreKey(s.worker.phase.request), values, |t.puts|, now)]
  {
    var later := t.(now := now);
    KeptIsFound(cfg, s, pruneAt, storedAt, t, now);
    var offered := s.worker.phase.result.candidates;
    hide Next, Possible, Follows, Lookup, CacheKey, StoreKey, Added, Appended, Values, After, Remembered, Existing;
    events, u, after := CallIsARun(cfg, later, c, reading, candidates);
  }

  lemma KeptIsFound(cfg: Settings, s: System, pruneAt: int, storedAt: int, t: System, now: int)
    requires Possible(s, Keep(pruneAt, storedAt)) && Next(cfg, s, Keep(pruneAt, storedAt), t)
    requires now <= storedAt + cfg.ttl
    ensures s.worker.phase.Recorded? && s.worker.phase.result.candidates != []
    ensures Lookup(t.store, StoreKey(s.worker.phase.request), now) == Some(s.worker.phase.result.candidates)
    ensures !t.worker.phase.Checked?
  {
    var op := KeptPut(s.worker, pruneAt, storedAt);
    StepShrinks(s.store, SizeT(cfg.maxEntries), cfg.ttl, op, t.store);
    hide Step, StoreKey;
  }

  // ----- every answer is put -----

  predicate Storable(g: Generation) { g.result.success && g.result.candidates != [] }

  /**
   Every successful answer with candidates is put into the cache, once and in their order; the last one may
   still be in the worker's hands.
   */
  ghost predicate PutOnce(generated: seq<Generation>, origins: seq<int>, recorded: bool) {
    && (recorded ==> generated != [])
    && (forall i :: 0 <= i < |generated| && Storable(generated[i]) ==>
          i in origins || (recorded && i == |generated| - 1))
    && (forall i, j :: 0 <= i < j < |origins| ==> origins[i] < origins[j])
    && (forall i :: i in origins ==> 0 <= i < |generated| - if recorded then 1 else 0)
  }

  lemma OneMoreAnswer(generated: seq<Generation>, origins: seq<int>, g: Generation)
    requires PutOnce(generated, origins, false)
    ensures PutOnce(generated + [g], origins, true)
  {
    hide Storable;
  }

  lemma LastIsPut(generated: seq<Generation>, origins: seq<int>)
    requires PutOnce(generated, origins, true)
    ensures PutOnce(generated, origins + [|generated| - 1], false)
  {
    hide Storable;
    var all := origins + [|generated| - 1];
    assert all[|origins|] == |generated| - 1;
    assert forall i :: i in origins ==> i in all;
    assert forall i :: 0 <= i < |origins| ==> origins[i] in origins;
  }

  lemma LastIsNotStorable(generated: seq<Generation>, origins: seq<int>)
    requires PutOnce(generated, origins, true) && !Storable(generated[|generated| - 1])
    ensures PutOnce(generated, origins, false)
  {
    hide Storable;
  }

  lemma PhaseStep(w: State, a: Action)
    requires Inv(w) && Enabled(w, a) && !a.Finish? && !a.Store?
    ensures After(w, a).phase.Recorded? <==> w.phase.Recorded?
  {
    assert ControlInv(w);
    hide Inv;
  }

  /** Steps that neither answer nor put. */
  lemma OtherStep(cfg: Settings, s: System, e: Event, t: System)
    requires Inv(s.worker) && Possible(s, e) && Next(cfg, s, e, t) && !e.Answer? && !e.Keep? && !e.Drop?
    ensures t.generated == s.generated && t.origins == s.origins
    ensures t.worker.phase.Recorded? <==> s.worker.phase.Recorded?
  {
    hide Inv, Enabled, After, CacheKey, Lookup, Added, Appended, Existing, Remembered;
    match e
    case Work(a) => PhaseStep(s.worker, a);
    case Send(c) => PhaseStep(s.worker, Enqueue(Asked(s.clients[c])));
    case _ =>
  }

  lemma AnswerPhases(cfg: Settings, s: System, e: Event, t: System)
    requires Possible(s, e) && Next(cfg, s, e, t)
    ensures e.Answer? ==>
      s.worker.phase.Holding? && t.worker.phase.Recorded? && t.origins == s.origins
      && t.generated == s.generated + [Generation(s.worker.phase.request, e.result)]
    ensures e.Keep? || e.Drop? ==>
      s.worker.phase.Recorded? && !t.worker.phase.Recorded? && t.generated == s.generated
    ensures e.Keep? ==> t.origins == s.origins + [|s.generated| - 1]
    ensures e.Drop? ==> t.origins == s.origins && !Cacheable(s.worker)
  {
    hide Step, StoreKey;
  }

  lemma LastAnswer(cfg: Settings, s: System)
    requires SystemInv(cfg, s)
    ensures Inv(s.worker)
    ensures s.worker.phase.Recorded? ==>
      s.generated != [] && (Cacheable(s.worker) <==> Storable(s.generated[|s.generated| - 1]))
  {
    assert Answered(s.worker, s.generated);
    hide Inv, RequestsFit, CacheFits, PutsStore, ClientsFit, AllShownFit;
  }

  lemma PutStep(cfg: Settings, s: System, e: Event, t: System)
    requires SystemInv(cfg, s) && PutOnce(s.generated, s.origins, s.worker.phase.Recorded?)
    requires Possible(s, e) && Next(cfg, s, e, t)
    ensures PutOnce(t.generated, t.origins, t.worker.phase.Recorded?)
  {
    hide *;
    LastAnswer(cfg, s);
    AnswerPhases(cfg, s, e, t);
    if e.Answer? {
      OneMoreAnswer(s.generated, s.origins, Generation(s.worker.phase.request, e.result));
    } else if e.Keep? {
      LastIsPut(s.generated, s.origins);
    } else if e.Drop? {
      LastIsNotStorable(s.generated, s.origins);
    } else {
      OtherStep(cfg, s, e, t);
    }
  }

  lemma {:induction false} EveryAnswerIsPut(cfg: Settings, events: seq<Event>, s: System)
    requires Happens(cfg, events, s)
    ensures PutOnce(s.generated, s.origins, s.worker.phase.Recorded?)
    decreases |events|
  {
    if events == [] {
    } else {
      var before, e := events[..|events| - 1], events[|events| - 1];
      var u :| Happens(cfg, before, u) && Possible(u, e) && Next(cfg, u, e, s);
      hide *;
      EveryAnswerIsPut(cfg, before, u);
      RunKeepsSystem(cfg, before, u);
      PutStep(cfg, u, e, s);
    }
  }
}
