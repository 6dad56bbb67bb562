/**
 The asynchronous path as a whole (src/rewriter/ai_rewriter.cc, src/ai/ai_worker.cc,
 src/ai/ai_candidate_cache.cc): any number of threads inside Rewrite, the worker thread, the
 controlling thread, the clock and a backend that may answer anything, in any interleaving.
 */
module AsyncSystem {
  import opened Text
  import opened Cache
  import opened Worker
  import opened AiRewriter

  datatype Settings = Settings(maxEntries: int, ttl: int, withContext: bool)

  datatype Generation = Generation(request: Request, result: Result)

  /** A thread inside Rewrite, between two of its critical sections. */
  datatype Client =
    | Keyed(reading: string, candidates: seq<Candidate>, cacheKey: string)
    | Looked(reading: string, candidates: seq<Candidate>, cacheKey: string, found: Option<seq<string>>,
             seen: nat, at: int)
    | Asking(reading: string, candidates: seq<Candidate>, cacheKey: string)
    | Sending(reading: string, candidates: seq<Candidate>, cacheKey: string, context: seq<string>)
    | Finishing(candidates: seq<Candidate>)

  /** Candidates added to a segment; the cache was asked at time `at`, when `seen` puts had been done. */
  datatype Shown = Shown(reading: string, cacheKey: string, values: seq<string>, seen: nat, at: int)

  /** origins[i] is the answer whose candidates the put of index i stored. */
  datatype System = System(
    worker: State, store: Store, context: seq<string>, clients: map<nat, Client>, now: int,
    puts: seq<Op>, origins: seq<int>, generated: seq<Generation>, shown: seq<Shown>)

  const EMPTY := System(INITIAL, map[], [], map[], 0, [], [], [], [])

  datatype Event =
    | Begin(c: nat, reading: string, candidates: seq<Candidate>)
    | Look(c: nat)
    | Show(c: nat)
    | Build(c: nat)
    | Copy(c: nat)
    | Send(c: nat)
    | Skip(c: nat)
    | Remember(c: nat)
    | ClearContext
    | Work(a: Action)
    | Answer(result: Result)
    | Keep(pruneAt: int, storedAt: int)
    | Drop
    | Tick(to: int)

  predicate Missed(client: Client) { client.Looked? && (client.found.None? || client.found.value == []) }

  predicate Hit(client: Client) { client.Looked? && client.found.Some? && client.found.value != [] }

  /** Whether the result in the worker's hands is cached. */
  predicate Cacheable(w: State) { w.phase.Recorded? && w.phase.result.success && w.phase.result.candidates != [] }

  predicate Possible(s: System, e: Event) {
    match e
    case Begin(c, reading, _) => c !in s.clients && reading != ""
    case Look(c) => c in s.clients && s.clients[c].Keyed?
    case Show(c) => c in s.clients && Hit(s.clients[c])
    case Build(c) => c in s.clients && Missed(s.clients[c]) && s.worker.ready
    case Skip(c) => c in s.clients && Missed(s.clients[c]) && !s.worker.ready
    case Copy(c) => c in s.clients && s.clients[c].Asking?
    case Send(c) => c in s.clients && s.clients[c].Sending? && Enabled(s.worker, Enqueue(Asked(s.clients[c])))
    case Remember(c) => c in s.clients && s.clients[c].Finishing?
    case ClearContext => true
    case Work(a) => !a.Enqueue? && !a.Finish? && !a.Store? && Enabled(s.worker, a)
    case Answer(result) => Enabled(s.worker, Finish(result))
    case Keep(pruneAt, storedAt) => Cacheable(s.worker) && s.now <= pruneAt <= storedAt
    case Drop => Enabled(s.worker, Action.Store) && !Cacheable(s.worker)
    case Tick(to) => s.now <= to
  }

  function NewValues(client: Client): seq<string>
    requires Hit(client)
  {
    Added(Values(client.candidates), client.found.value, MAX_CANDIDATES_TO_ADD)
  }

  /** The request that a thread has built. */
  function Asked(client: Client): Request
    requires client.Sending?
  {
    Request(client.reading, client.cacheKey, Existing(client.candidates), client.context)
  }

  function KeptPut(w: State, pruneAt: int, storedAt: int): Op
    requires w.phase.Recorded?
  {
    Op.Put(StoreKey(w.phase.request), w.phase.result.candidates, pruneAt, storedAt)
  }

  ghost predicate Next(cfg: Settings, s: System, e: Event, t: System)
    requires Possible(s, e)
  {
    match e
    case Begin(c, reading, candidates) =>
      t == s.(clients := s.clients[c := Keyed(reading, candidates, CacheKey(reading, s.context, cfg.withContext))])
    case Look(c) =>
      var k := s.clients[c];
      t == s.(clients := s.clients[c :=
        Looked(k.reading, k.candidates, k.cacheKey, Lookup(s.store, k.cacheKey, s.now), |s.puts|, s.now)])
    case Show(c) =>
      var k := s.clients[c];
      t == s.(clients := s.clients[c := Finishing(Appended(k.candidates, NewValues(k)))],
              shown := s.shown + [Shown(k.reading, k.cacheKey, NewValues(k), k.seen, k.at)])
    case Build(c) =>
      var k := s.clients[c];
      t == s.(clients := s.clients[c := Asking(
        k.reading, k.candidates, CacheKey(k.reading, s.context, cfg.withContext))])
    case Skip(c) => t == s.(clients := s.clients[c := Finishing(s.clients[c].candidates)])
    case Copy(c) =>
      var k := s.clients[c];
      t == s.(clients := s.clients[c := Sending(k.reading, k.candidates, k.cacheKey, s.context)])
    case Send(c) =>
      t == s.(clients := s.clients[c := Finishing(s.clients[c].candidates)],
              worker := After(s.worker, Enqueue(Asked(s.clients[c]))))
    case Remember(c) =>
      var shown := s.clients[c].candidates;
      t == s.(clients := s.clients - {c},
        context := if shown == [] then s.context else Remembered(s.context, shown[0].value))
    case ClearContext => t == s.(context := [])
    case Work(a) => t == s.(worker := After(s.worker, a))
    case Answer(result) =>
      t == s.(worker := After(s.worker, Finish(result)),
        generated := s.generated + [Generation(s.worker.phase.request, result)])
    case Keep(pruneAt, storedAt) =>
      && t == s.(worker := After(s.worker, Action.Store), store := t.store, now := storedAt,
                 puts := s.puts + [KeptPut(s.worker, pruneAt, storedAt)], origins := s.origins + [|s.generated| - 1])
      && Step(s.store, SizeT(cfg.maxEntries), cfg.ttl, KeptPut(s.worker, pruneAt, storedAt), t.store)
    case Drop => t == s.(worker := After(s.worker, Action.Store))
    case Tick(to) => t == s.(now := to)
  }

  // ----- the invariant -----

  /** The key can be that of the reading. */
  predicate FitsKey(reading: string, cacheKey: string, withContext: bool) {
    reading != "" && (cacheKey == reading || (withContext && reading + "|" <= cacheKey))
  }

  predicate FitsRequest(r: Request, withContext: bool) { FitsKey(r.inputKey, r.cacheKey, withContext) }

  ghost predicate RequestsFit(w: State, withContext: bool) {
    forall i :: 0 <= i < |w.log.enqueued| ==> FitsRequest(w.log.enqueued[i], withContext)
  }

  /** The answers are those to the processed requests, in their order; the last one may be in the worker's hands. */
  ghost predicate Answered(w: State, generated: seq<Generation>) {
    && |generated| == |w.log.processed|
    && (forall i :: 0 <= i < |generated| ==>
         0 <= w.log.processed[i] < |w.log.enqueued| && generated[i].request == w.log.enqueued[w.log.processed[i]])
    && (w.phase.Recorded? ==>
          generated != [] && generated[|generated| - 1] == Generation(w.phase.request, w.phase.result))
  }

  /** The put stores what a successful answer offered, under the key of its request. */
  predicate Stores(g: Generation, op: Op) {
    op.Put? && g.result.success && op.candidates == g.result.candidates && op.candidates != []
      && op.key == StoreKey(g.request)
  }

  ghost predicate PutsStore(puts: seq<Op>, origins: seq<int>, generated: seq<Generation>, now: int) {
    && |origins| == |puts|
    && forall i :: 0 <= i < |puts| ==>
         0 <= origins[i] < |generated| && Stores(generated[origins[i]], puts[i]) && puts[i].storedAt <= now
  }

  /** The values were in the latest put of the key at that moment, which was stored no longer ago than ttl. */
  ghost predicate FromPut(puts: seq<Op>, ttl: int, cacheKey: string, values: seq<string>, seen: nat, at: int) {
    && seen <= |puts|
    && LatestPut(puts[..seen], cacheKey).Some?
    && var put := puts[LatestPut(puts[..seen], cacheKey).value];
       put.storedAt <= at <= put.storedAt + ttl && forall v :: v in values ==> v in put.candidates
  }

  ghost predicate ClientFits(k: Client, cfg: Settings, puts: seq<Op>) {
    && (!k.Finishing? ==> FitsKey(k.reading, k.cacheKey, cfg.withContext))
    && (Hit(k) ==> FromPut(puts, cfg.ttl, k.cacheKey, k.found.value, k.seen, k.at))
  }

  ghost predicate ClientsFit(clients: map<nat, Client>, cfg: Settings, puts: seq<Op>) {
    forall c :: c in clients ==> ClientFits(clients[c], cfg, puts)
  }

  ghost predicate ShownFits(e: Shown, cfg: Settings, puts: seq<Op>) {
    FitsKey(e.reading, e.cacheKey, cfg.withContext) && FromPut(puts, cfg.ttl, e.cacheKey, e.values, e.seen, e.at)
  }

  ghost predicate AllShownFit(shown: seq<Shown>, cfg: Settings, puts: seq<Op>) {
    forall i :: 0 <= i < |shown| ==> ShownFits(shown[i], cfg, puts)
  }

  ghost predicate CacheFits(cfg: Settings, s: System) { Reachable(s.puts, SizeT(cfg.maxEntries), cfg.ttl, s.store) }

  ghost predicate SystemInv(cfg: Settings, s: System) {
    && Inv(s.worker)
    && RequestsFit(s.worker, cfg.withContext)
    && Answered(s.worker, s.generated)
    && CacheFits(cfg, s)
    && PutsStore(s.puts, s.origins, s.generated, s.now)
    && ClientsFit(s.clients, cfg, s.puts)
    && AllShownFit(s.shown, cfg, s.puts)
  }

  lemma EmptyInv(cfg: Settings)
    ensures SystemInv(cfg, EMPTY)
  {
    InitialInv();
    hide Inv;
  }

  lemma KeyFits(reading: string, context: seq<string>, withContext: bool)
    requires reading != ""
    ensures FitsKey(reading, CacheKey(reading, context, withContext), withContext)
  {
  }

  // ----- what the clients' steps keep -----

  lemma ClientSet(clients: map<nat, Client>, c: nat, k: Client, cfg: Settings, puts: seq<Op>)
    requires ClientsFit(clients, cfg, puts) && ClientFits(k, cfg, puts)
    ensures ClientsFit(clients[c := k], cfg, puts)
  {
    hide ClientFits;
  }

  lemma ClientGone(clients: map<nat, Client>, c: nat, cfg: Settings, puts: seq<Op>)
    requires ClientsFit(clients, cfg, puts)
    ensures ClientsFit(clients - {c}, cfg, puts)
  {
    hide ClientFits;
  }

  lemma ClientHas(clients: map<nat, Client>, c: nat, cfg: Settings, puts: seq<Op>)
    requires ClientsFit(clients, cfg, puts) && c in clients
    ensures ClientFits(clients[c], cfg, puts)
  {
    hide ClientFits;
  }

  lemma FinishingFits(candidates: seq<Candidate>, cfg: Settings, puts: seq<Op>)
    ensures ClientFits(Finishing(candidates), cfg, puts)
  {
    hide FromPut, FitsKey;
  }

  /** What Get returns was stored by the latest put, not too long ago. */
  lemma LookFits(cfg: Settings, s: System, k: Client)
    requires CacheFits(cfg, s) && PutsStore(s.puts, s.origins, s.generated, s.now)
    requires k.Keyed? && ClientFits(k, cfg, s.puts)
    ensures ClientFits(Looked(k.reading, k.candidates, k.cacheKey, Lookup(s.store, k.cacheKey, s.now), |s.puts|, s.now),
      cfg, s.puts)
  {
    var found := Lookup(s.store, k.cacheKey, s.now);
    if found.Some? {
      GetIsLatestPut(s.puts, SizeT(cfg.maxEntries), cfg.ttl, s.store, k.cacheKey, s.now);
      assert s.puts[..|s.puts|] == s.puts;
    }
    hide Reachable, LatestPut, FitsKey, Lookup, Stores;
  }

  lemma ShowFits(cfg: Settings, puts: seq<Op>, k: Client, shown: seq<Shown>)
    requires Hit(k) && ClientFits(k, cfg, puts) && AllShownFit(shown, cfg, puts)
    ensures AllShownFit(shown + [Shown(k.reading, k.cacheKey, NewValues(k), k.seen, k.at)], cfg, puts)
  {
    AddedIsFit(Values(k.candidates), k.found.value, MAX_CANDIDATES_TO_ADD);
    hide LatestPut, FitsKey, Added;
    assert ShownFits(Shown(k.reading, k.cacheKey, NewValues(k), k.seen, k.at), cfg, puts);
    hide ShownFits;
  }

  lemma PushFits(w: State, r: Request, withContext: bool, generated: seq<Generation>)
    requires Inv(w) && Enabled(w, Enqueue(r))
    requires RequestsFit(w, withContext) && FitsRequest(r, withContext) && Answered(w, generated)
    ensures RequestsFit(After(w, Enqueue(r)), withContext) && Answered(After(w, Enqueue(r)), generated)
  {
    hide Inv, FitsRequest;
  }

  // ----- what the worker's steps keep -----

  lemma WorkFits(w: State, a: Action, withContext: bool, generated: seq<Generation>)
    requires Inv(w) && Enabled(w, a) && !a.Enqueue? && !a.Finish?
    requires RequestsFit(w, withContext) && Answered(w, generated)
    ensures RequestsFit(After(w, a), withContext) && Answered(After(w, a), generated)
  {
    var u := After(w, a);
    assert u.log.enqueued == w.log.enqueued && u.log.processed == w.log.processed
      && (u.phase.Recorded? ==> u.phase == w.phase);
    hide Inv, FitsRequest, After;
  }

  lemma AnswerFits(w: State, result: Result, withContext: bool, generated: seq<Generation>)
    requires Inv(w) && Enabled(w, Finish(result)) && RequestsFit(w, withContext) && Answered(w, generated)
    ensures RequestsFit(After(w, Finish(result)), withContext)
    ensures Answered(After(w, Finish(result)), generated + [Generation(w.phase.request, result)])
  {
    InHandIs(w);
    AfterFinish(w, result);
    hide Inv, FitsRequest, After, InHand;
  }

  lemma InHandIs(w: State)
    requires Inv(w) && w.phase.Holding?
    ensures |InHand(w)| == 1 && 0 <= InHand(w)[0] < |w.log.enqueued| && w.phase.request == w.log.enqueued[InHand(w)[0]]
  {
    assert WorkInv(w);
    assert InHand(w)[0] in InHand(w);
    hide QueueInv, FateInv, StatsInv, ControlInv;
  }

  // ----- what the history keeps -----

  lemma PrefixPuts(puts: seq<Op>, op: Op, seen: nat)
    requires seen <= |puts|
    ensures (puts + [op])[..seen] == puts[..seen]
  {
  }

  lemma FromPutMore(puts: seq<Op>, op: Op, ttl: int, cacheKey: string, values: seq<string>, seen: nat, at: int)
    requires FromPut(puts, ttl, cacheKey, values, seen, at)
    ensures FromPut(puts + [op], ttl, cacheKey, values, seen, at)
  {
    hide LatestPut;
    PrefixPuts(puts, op, seen);
  }

  lemma ClientsMore(clients: map<nat, Client>, cfg: Settings, puts: seq<Op>, op: Op)
    requires ClientsFit(clients, cfg, puts)
    ensures ClientsFit(clients, cfg, puts + [op])
  {
    hide FromPut, FitsKey;
    forall c | c in clients
      ensures ClientFits(clients[c], cfg, puts + [op])
    {
      var k := clients[c];
      assert ClientFits(k, cfg, puts);
      if Hit(k) {
        FromPutMore(puts, op, cfg.ttl, k.cacheKey, k.found.value, k.seen, k.at);
      }
    }
  }

  lemma ShownMore(shown: seq<Shown>, cfg: Settings, puts: seq<Op>, op: Op)
    requires AllShownFit(shown, cfg, puts)
    ensures AllShownFit(shown, cfg, puts + [op])
  {
    hide FromPut, FitsKey;
    forall i | 0 <= i < |shown|
      ensures ShownFits(shown[i], cfg, puts + [op])
    {
      assert ShownFits(shown[i], cfg, puts);
      FromPutMore(puts, op, cfg.ttl, shown[i].cacheKey, shown[i].values, shown[i].seen, shown[i].at);
    }
  }

  lemma PutsLater(puts: seq<Op>, origins: seq<int>, generated: seq<Generation>, now: int, more: seq<Generation>,
                  later: int)
    requires PutsStore(puts, origins, generated, now) && now <= later
    ensures PutsStore(puts, origins, generated + more, later)
  {
    hide Stores;
  }

  lemma PutsMore(puts: seq<Op>, origins: seq<int>, generated: seq<Generation>, now: int, op: Op, later: int)
    requires PutsStore(puts, origins, generated, now) && now <= later
    requires generated != [] && Stores(generated[|generated| - 1], op) && op.storedAt <= later
    ensures PutsStore(puts + [op], origins + [|generated| - 1], generated, later)
  {
    hide Stores;
  }

  // ----- every step keeps the invariant -----

  lemma SystemInvIs(cfg: Settings, s: System)
    ensures SystemInv(cfg, s) <==>
      Inv(s.worker) && RequestsFit(s.worker, cfg.withContext) && Answered(s.worker, s.generated) && CacheFits(cfg, s)
      && PutsStore(s.puts, s.origins, s.generated, s.now) && ClientsFit(s.clients, cfg, s.puts)
      && AllShownFit(s.shown, cfg, s.puts)
  {
    hide Inv, RequestsFit, Answered, CacheFits, PutsStore, ClientsFit, AllShownFit;
  }

  lemma CacheSame(cfg: Settings, s: System, t: System)
    requires CacheFits(cfg, s) && t.puts == s.puts && t.store == s.store
    ensures CacheFits(cfg, t)
  {
    hide Reachable;
  }

  /** Steps of a thread inside Rewrite that leave the worker alone. */
  lemma ClientStep(cfg: Settings, s: System, e: Event, t: System)
    requires SystemInv(cfg, s) && Possible(s, e) && Next(cfg, s, e, t)
    requires e.Begin? || e.Look? || e.Show? || e.Build? || e.Copy? || e.Skip? || e.Remember? || e.ClearContext?
    ensures SystemInv(cfg, t)
  {
    hide Inv, RequestsFit, Answered, CacheFits, PutsStore, ClientsFit, AllShownFit, ClientFits, FitsKey, SystemInv,
      FromPut, CacheKey, Lookup, Added, Appended, Hit, Missed, Remembered, NewValues;
    SystemInvIs(cfg, s);
    SystemInvIs(cfg, t);
    CacheSame(cfg, s, t);
    if e.Begin? {
      KeyFits(e.reading, s.context, cfg.withContext);
      KeyedFits(e.reading, e.candidates, CacheKey(e.reading, s.context, cfg.withContext), cfg, s.puts);
      ClientSet(s.clients, e.c, t.clients[e.c], cfg, s.puts);
    } else if !e.ClearContext? {
      ClientHas(s.clients, e.c, cfg, s.puts);
      ClientMoves(cfg, s, e, t);
    }
  }

  lemma KeyedFits(reading: string, candidates: seq<Candidate>, cacheKey: string, cfg: Settings, puts: seq<Op>)
    requires FitsKey(reading, cacheKey, cfg.withContext)
    ensures ClientFits(Keyed(reading, candidates, cacheKey), cfg, puts)
    ensures ClientFits(Asking(reading, candidates, cacheKey), cfg, puts)
    ensures forall context :: ClientFits(Sending(reading, candidates, cacheKey, context), cfg, puts)
  {
    hide FromPut, FitsKey;
  }

  lemma HasKey(k: Client, cfg: Settings, puts: seq<Op>)
    requires ClientFits(k, cfg, puts) && !k.Finishing?
    ensures FitsKey(k.reading, k.cacheKey, cfg.withContext) && k.reading != ""
  {
    hide FromPut;
  }

  lemma ClientMoves(cfg: Settings, s: System, e: Event, t: System)
    requires Inv(s.worker) && CacheFits(cfg, s) && PutsStore(s.puts, s.origins, s.generated, s.now)
    requires ClientsFit(s.clients, cfg, s.puts) && AllShownFit(s.shown, cfg, s.puts)
    requires Possible(s, e) && Next(cfg, s, e, t)
    requires e.Look? || e.Show? || e.Build? || e.Copy? || e.Skip? || e.Remember?
    requires ClientFits(s.clients[e.c], cfg, s.puts)
    ensures ClientsFit(t.clients, cfg, t.puts) && AllShownFit(t.shown, cfg, t.puts)
  {
    var k := s.clients[e.c];
    assert Hit(k) || Missed(k) ==> k.Looked?;
    hide Inv, CacheFits, PutsStore, ClientsFit, AllShownFit, ClientFits, FitsKey,
      FromPut, CacheKey, Lookup, Added, Appended, Hit, Missed, Remembered, NewValues;
    match e
    case Look(c) =>
      LookFits(cfg, s, k);
      ClientSet(s.clients, c, t.clients[c], cfg, s.puts);
    case Show(c) =>
      FinishingFits(t.clients[c].candidates, cfg, s.puts);
      ClientSet(s.clients, c, t.clients[c], cfg, s.puts);
      ShowFits(cfg, s.puts, k, s.shown);
    case Build(c) =>
      HasKey(k, cfg, s.puts);
      KeyFits(k.reading, s.context, cfg.withContext);
      KeyedFits(k.reading, k.candidates, t.clients[c].cacheKey, cfg, s.puts);
      ClientSet(s.clients, c, t.clients[c], cfg, s.puts);
    case Copy(c) =>
      HasKey(k, cfg, s.puts);
      KeyedFits(k.reading, k.candidates, k.cacheKey, cfg, s.puts);
      ClientSet(s.clients, c, t.clients[c], cfg, s.puts);
    case Skip(c) =>
      FinishingFits(k.candidates, cfg, s.puts);
      ClientSet(s.clients, c, t.clients[c], cfg, s.puts);
    case Remember(c) => ClientGone(s.clients, c, cfg, s.puts);
  }

  lemma SendStep(cfg: Settings, s: System, e: Event, t: System)
    requires SystemInv(cfg, s) && Possible(s, e) && Next(cfg, s, e, t) && e.Send?
    ensures SystemInv(cfg, t)
  {
    var k, r := s.clients[e.c], Asked(s.clients[e.c]);
    assert r.inputKey == k.reading && r.cacheKey == k.cacheKey;
    hide Inv, After, RequestsFit, Answered, CacheFits, PutsStore, ClientsFit, AllShownFit, ClientFits, FitsKey,
      SystemInv, Existing, Asked;
    SystemInvIs(cfg, s);
    SystemInvIs(cfg, t);
    CacheSame(cfg, s, t);
    StepKeeps(s.worker, Enqueue(r));
    ClientHas(s.clients, e.c, cfg, s.puts);
    HasKey(k, cfg, s.puts);
    PushFits(s.worker, r, cfg.withContext, s.generated);
    FinishingFits(k.candidates, cfg, s.puts);
    ClientSet(s.clients, e.c, t.clients[e.c], cfg, s.puts);
  }

  lemma AnswerStep(cfg: Settings, s: System, e: Event, t: System)
    requires SystemInv(cfg, s) && Possible(s, e) && Next(cfg, s, e, t) && e.Answer?
    ensures SystemInv(cfg, t)
  {
    assert s.worker.phase.Holding?;
    hide Inv, After, Enabled, RequestsFit, Answered, CacheFits, PutsStore, ClientsFit, AllShownFit, SystemInv;
    SystemInvIs(cfg, s);
    SystemInvIs(cfg, t);
    CacheSame(cfg, s, t);
    StepKeeps(s.worker, Finish(e.result));
    AnswerFits(s.worker, e.result, cfg.withContext, s.generated);
    PutsLater(s.puts, s.origins, s.generated, s.now, [Generation(s.worker.phase.request, e.result)], s.now);
  }

  lemma WorkerStep(cfg: Settings, s: System, e: Event, t: System)
    requires SystemInv(cfg, s) && Possible(s, e) && Next(cfg, s, e, t) && (e.Work? || e.Drop? || e.Tick?)
    ensures SystemInv(cfg, t)
  {
    hide Inv, After, Enabled, RequestsFit, Answered, CacheFits, PutsStore, ClientsFit, AllShownFit, SystemInv,
      Cacheable;
    SystemInvIs(cfg, s);
    SystemInvIs(cfg, t);
    CacheSame(cfg, s, t);
    match e
    case Work(a) =>
      StepKeeps(s.worker, a);
      WorkFits(s.worker, a, cfg.withContext, s.generated);
    case Drop =>
      StepKeeps(s.worker, Action.Store);
      WorkFits(s.worker, Action.Store, cfg.withContext, s.generated);
    case Tick(to) =>
      PutsLater(s.puts, s.origins, s.generated, s.now, [], to);
      assert s.generated + [] == s.generated;
  }

  lemma KeepStep(cfg: Settings, s: System, e: Event, t: System)
    requires SystemInv(cfg, s) && Possible(s, e) && Next(cfg, s, e, t) && e.Keep?
    ensures SystemInv(cfg, t)
  {
    KeepIs(cfg, s, e, t);
    hide *;
    StoreAndGrow(cfg, s, KeptPut(s.worker, e.pruneAt, e.storedAt), t);
  }

  lemma StoreAndGrow(cfg: Settings, s: System, op: Op, t: System)
    requires SystemInv(cfg, s) && Cacheable(s.worker) && op.Put? && op == KeptPut(s.worker, op.pruneAt, op.storedAt)
    requires Enabled(s.worker, Action.Store) && t.worker == After(s.worker, Action.Store)
    requires t.clients == s.clients && t.generated == s.generated && t.shown == s.shown
    requires t.puts == s.puts + [op] && t.origins == s.origins + [|s.generated| - 1] && t.now == op.storedAt
      && s.now <= t.now
    requires Step(s.store, SizeT(cfg.maxEntries), cfg.ttl, op, t.store)
    ensures SystemInv(cfg, t)
  {
    hide *;
    SystemInvIs(cfg, s);
    SystemInvIs(cfg, t);
    KeptIsAnswer(s.worker, s.generated, op.pruneAt, op.storedAt);
    StoreGrows(cfg, s, op, t);
    StepKeeps(s.worker, Action.Store);
    WorkFits(s.worker, Action.Store, cfg.withContext, s.generated);
    PutsMore(s.puts, s.origins, s.generated, s.now, op, op.storedAt);
    ClientsMore(s.clients, cfg, s.puts, op);
    ShownMore(s.shown, cfg, s.puts, op);
  }

  lemma KeepIs(cfg: Settings, s: System, e: Event, t: System)
    requires Possible(s, e) && e.Keep? && Next(cfg, s, e, t)
    ensures s.worker.phase.Recorded? && Cacheable(s.worker) && Enabled(s.worker, Action.Store)
    ensures var op := KeptPut(s.worker, e.pruneAt, e.storedAt);
      && t.worker == After(s.worker, Action.Store) && t.clients == s.clients && t.generated == s.generated
      && t.shown == s.shown
      && t.puts == s.puts + [op] && t.origins == s.origins + [|s.generated| - 1] && t.now == e.storedAt
      && Step(s.store, SizeT(cfg.maxEntries), cfg.ttl, op, t.store) && s.now <= e.storedAt && op.storedAt == e.storedAt
  {
    hide After, Step;
  }

  lemma StoreGrows(cfg: Settings, s: System, op: Op, t: System)
    requires CacheFits(cfg, s) && Step(s.store, SizeT(cfg.maxEntries), cfg.ttl, op, t.store) && t.puts == s.puts + [op]
    ensures CacheFits(cfg, t)
  {
    hide Step, Reachable;
    assert Reachable(s.puts, SizeT(cfg.maxEntries), cfg.ttl, s.store);
    Reached(s.puts, SizeT(cfg.maxEntries), cfg.ttl, s.store, op, t.store);
  }

  lemma KeptIsAnswer(w: State, generated: seq<Generation>, pruneAt: int, storedAt: int)
    requires Answered(w, generated) && Cacheable(w)
    ensures generated != [] && Stores(generated[|generated| - 1], KeptPut(w, pruneAt, storedAt))
  {
  }

  lemma SystemStep(cfg: Settings, s: System, e: Event, t: System)
    requires SystemInv(cfg, s) && Possible(s, e) && Next(cfg, s, e, t)
    ensures SystemInv(cfg, t)
  {
    hide *;
    if e.Send? {
      SendStep(cfg, s, e, t);
    } else if e.Keep? {
      KeepStep(cfg, s, e, t);
    } else if e.Answer? {
      AnswerStep(cfg, s, e, t);
    } else if e.Work? || e.Drop? || e.Tick? {
      WorkerStep(cfg, s, e, t);
    } else {
      ClientStep(cfg, s, e, t);
    }
  }

  // ----- every run -----

  /** s can be the state after the events. */
  ghost predicate Happens(cfg: Settings, events: seq<Event>, s: System)
    decreases |events|
  {
    if events == [] then s == EMPTY
    else
      var before, e := events[..|events| - 1], events[|events| - 1];
      exists u :: Happens(cfg, before, u) && Possible(u, e) && Next(cfg, u, e, s)
  }

  lemma {:induction false} RunKeepsSystem(cfg: Settings, events: seq<Event>, s: System)
    requires Happens(cfg, events, s)
    ensures SystemInv(cfg, s)
    decreases |events|
  {
    if events == [] {
      EmptyInv(cfg);
    } else {
      var before, e := events[..|events| - 1], events[|events| - 1];
      var u :| Happens(cfg, before, u) && Possible(u, e) && Next(cfg, u, e, s);
      hide *;
      RunKeepsSystem(cfg, before, u);
      SystemStep(cfg, u, e, s);
    }
  }

  /** Whatever was added came from a successful answer, put last under the cache key and not older than ttl. */
  lemma ShownWasGenerated(cfg: Settings, events: seq<Event>, s: System, e: Shown)
    requires Happens(cfg, events, s) && e in s.shown
    ensures FromPut(s.puts, cfg.ttl, e.cacheKey, e.values, e.seen, e.at)
    ensures FitsKey(e.reading, e.cacheKey, cfg.withContext)
    ensures var i := LatestPut(s.puts[..e.seen], e.cacheKey).value;
      && i < |s.origins| && 0 <= s.origins[i] < |s.generated|
      && Stores(s.generated[s.origins[i]], s.puts[i]) && s.puts[i].key == e.cacheKey
      && FitsRequest(s.generated[s.origins[i]].request, cfg.withContext)
      && s.generated[s.origins[i]].request in s.worker.log.enqueued
  {
    hide Happens, Inv, LatestPut, FitsKey, Stores, CacheFits, FitsRequest;
    RunKeepsSystem(cfg, events, s);
    var k :| 0 <= k < |s.shown| && s.shown[k] == e;
    assert ShownFits(s.shown[k], cfg, s.puts);
    var i := LatestPut(s.puts[..e.seen], e.cacheKey).value;
    assert s.puts[..e.seen][i] == s.puts[i];
    var g := s.generated[s.origins[i]];
    assert g.request == s.worker.log.enqueued[s.worker.log.processed[s.origins[i]]];
  }

  /** b is a followed by a bar and something: the key of a in some context. */
  predicate BarPrefix(a: string, b: string) { a + "|" <= b }

  /** Two readings can have the same cache key exactly when one is the other with a context behind it. */
  lemma KeysCollideExactly(a: string, b: string, withContext: bool)
    requires a != "" && b != ""
    ensures (exists k: string :: FitsKey(a, k, withContext) && FitsKey(b, k, withContext))
      <==> a == b || (withContext && (BarPrefix(a, b) || BarPrefix(b, a)))
  {
    forall k: string | FitsKey(a, k, withContext) && FitsKey(b, k, withContext)
      ensures a == b || (withContext && (BarPrefix(a, b) || BarPrefix(b, a)))
    {
      SharedKey(a, b, k, withContext);
    }
    if a == b || (withContext && BarPrefix(b, a)) {
      assert FitsKey(a, a, withContext) && FitsKey(b, a, withContext);
    } else if withContext && BarPrefix(a, b) {
      assert FitsKey(a, b, withContext) && FitsKey(b, b, withContext);
    }
  }

  lemma SharedKey(a: string, b: string, k: string, withContext: bool)
    requires FitsKey(a, k, withContext) && FitsKey(b, k, withContext)
    ensures a == b || (withContext && (BarPrefix(a, b) || BarPrefix(b, a)))
  {
    assert a == k[..|a|] && b == k[..|b|];
    if |a| < |b| {
      assert a + "|" == k[..|a| + 1];
      assert a + "|" == b[..|a| + 1];
    } else if |b| < |a| {
      assert b + "|" == k[..|b| + 1];
      assert b + "|" == a[..|b| + 1];
    }
  }

  /**
   Every candidate added to a segment with reading k was offered by a successful answer to a request
   for k, whose put was the latest one of the cache key when the cache was asked, and not older than
   the time to live. With the context in the key this needs that no other requested reading is k with
   a context behind it, or the reverse.
   */
  lemma ShownIsForItsReading(cfg: Settings, events: seq<Event>, s: System, e: Shown, v: string)
    requires Happens(cfg, events, s) && e in s.shown && v in e.values
    requires cfg.withContext ==> forall r :: r in s.worker.log.enqueued ==>
      !BarPrefix(e.reading, r.inputKey) && !BarPrefix(r.inputKey, e.reading)
    ensures e.seen <= |s.puts| && LatestPut(s.puts[..e.seen], e.cacheKey).Some?
    ensures var i := LatestPut(s.puts[..e.seen], e.cacheKey).value;
      && s.puts[i].storedAt <= e.at <= s.puts[i].storedAt + cfg.ttl
      && i < |s.origins| && 0 <= s.origins[i] < |s.generated|
      && var g := s.generated[s.origins[i]];
        g.result.success && g.request.inputKey == e.reading && v in g.result.candidates
  {
    ShownWasGenerated(cfg, events, s, e);
    var i := LatestPut(s.puts[..e.seen], e.cacheKey).value;
    var g := s.generated[s.origins[i]];
    hide Happens, LatestPut, FitsKey, BarPrefix;
    KeyOfRequest(g.request, cfg.withContext);
    SharedKey(e.reading, g.request.inputKey, e.cacheKey, cfg.withContext);
  }

  lemma KeyOfRequest(r: Request, withContext: bool)
    requires FitsRequest(r, withContext)
    ensures FitsKey(r.inputKey, StoreKey(r), withContext)
  {
  }

  // ----- a call without interruption -----

  ghost predicate Follows(cfg: Settings, s: System, events: seq<Event>, t: System)
    decreases |events|
  {
    if events == [] then s == t
    else
      var e, rest := events[0], events[1..];
      Possible(s, e) && exists u :: Next(cfg, s, e, u) && Follows(cfg, u, rest, t)
  }

  lemma FollowsOne(cfg: Settings, s: System, e: Event, u: System, rest: seq<Event>, t: System)
    requires Possible(s, e) && Next(cfg, s, e, u) && Follows(cfg, u, rest, t)
    ensures Follows(cfg, s, [e] + rest, t)
  {
    assert ([e] + rest)[1..] == rest;
    hide Next, Possible;
  }

  lemma FollowsMore(cfg: Settings, s: System, e: Event, t: System)
    requires Possible(s, e) && Next(cfg, s, e, t)
    ensures Follows(cfg, s, [e], t)
  {
    assert [e] + [] == [e];
    assert Follows(cfg, t, [], t);
    hide *;
    FollowsOne(cfg, s, e, t, [], t);
  }

  /** The first two steps of a call. */
  function Looking(cfg: Settings, s: System, c: nat, reading: string, candidates: seq<Candidate>): System {
    var key := CacheKey(reading, s.context, cfg.withContext);
    s.(clients := s.clients[c := Looked(reading, candidates, key, Lookup(s.store, key, s.now), |s.puts|, s.now)])
  }

  /** A call of Rewrite that nothing interrupts is a run of the system, and does what the class method promises. */
  lemma CallIsARun(cfg: Settings, s: System, c: nat, reading: string, candidates: seq<Candidate>)
    returns (events: seq<Event>, t: System, after: seq<Candidate>)
    requires c !in s.clients && reading != "" && !s.worker.phase.Checked?
    ensures Follows(cfg, s, events, t)
    ensures Rewritten(reading, candidates, after, Lookup(s.store, CacheKey(reading, s.context, cfg.withContext), s.now),
      s.context, t.context, cfg.withContext, s.worker, t.worker)
    ensures t.clients == s.clients && t.store == s.store && t.now == s.now && t.worker.phase == s.worker.phase
    ensures t.puts == s.puts && t.origins == s.origins && t.generated == s.generated
    ensures var k := Looking(cfg, s, c, reading, candidates).clients[c];
      t.shown == s.shown + if Hit(k) then [Shown(k.reading, k.cacheKey, NewValues(k), k.seen, k.at)] else []
  {
    hide After, Lookup, CacheKey, Added, Appended, Remembered, Existing, Values;
    var looking := Looking(cfg, s, c, reading, candidates);
    var k := looking.clients[c];
    var shown: System;
    if Hit(k) {
      events, after := [Show(c)], Appended(candidates, NewValues(k));
      shown := looking.(clients := looking.clients[c := Finishing(after)],
                        shown := s.shown + [Shown(k.reading, k.cacheKey, NewValues(k), k.seen, k.at)]);
      FollowsMore(cfg, looking, Show(c), shown);
    } else {
      NothingAdded(candidates);
      after := candidates;
      if s.worker.ready {
        events, shown := AskingSteps(cfg, s, looking, c, reading, candidates);
      } else {
        events, shown := [Skip(c)], looking.(clients := looking.clients[c := Finishing(after)]);
        FollowsMore(cfg, looking, Skip(c), shown);
      }
    }
    events, t := WholeCall(cfg, s, looking, c, reading, candidates, events, shown, after);
  }

  lemma SameWarmth(w: State, r: Request)
    requires Enabled(w, Enqueue(r))
    ensures After(w, Enqueue(r)).phase == w.phase
  {
  }

  /** A miss is asked for. */
  lemma AskingSteps(cfg: Settings, s: System, looking: System, c: nat, reading: string, candidates: seq<Candidate>)
    returns (events: seq<Event>, sent: System)
    requires looking == Looking(cfg, s, c, reading, candidates) && Missed(looking.clients[c]) && s.worker.ready
    requires !s.worker.phase.Checked?
    ensures Follows(cfg, looking, events, sent)
    ensures var r := Request(reading, CacheKey(reading, s.context, cfg.withContext), Existing(candidates), s.context);
      sent == looking.(clients := looking.clients[c := Finishing(candidates)], worker := After(s.worker, Enqueue(r)))
    ensures sent.worker.phase == s.worker.phase
  {
    var key := CacheKey(reading, s.context, cfg.withContext);
    SameWarmth(s.worker, Request(reading, key, Existing(candidates), s.context));
    hide After, Lookup, CacheKey, Existing;
    var built := looking.(clients := looking.clients[c := Asking(reading, candidates, key)]);
    sent := looking.(clients := looking.clients[c := Finishing(candidates)],
                     worker := After(s.worker, Enqueue(Request(reading, key, Existing(candidates), s.context))));
    var copied := built.(clients := built.clients[c := Sending(reading, candidates, key, s.context)]);
    assert looking.clients[c := Asking(reading, candidates, key)] == built.clients;
    assert copied.clients[c := Finishing(candidates)] == sent.clients;
    FollowsMore(cfg, copied, Send(c), sent);
    FollowsOne(cfg, built, Copy(c), copied, [Send(c)], sent);
    FollowsOne(cfg, looking, Build(c), built, [Copy(c)] + [Send(c)], sent);
    events := [Build(c)] + ([Copy(c)] + [Send(c)]);
  }

  lemma WholeCall(cfg: Settings, s: System, looking: System, c: nat, reading: string, candidates: seq<Candidate>,
    middle: seq<Event>, shown: System, after: seq<Candidate>) returns (events: seq<Event>, t: System)
    requires c !in s.clients && reading != "" && looking == Looking(cfg, s, c, reading, candidates)
    requires Follows(cfg, looking, middle, shown)
    requires shown.clients == s.clients[c := Finishing(after)] && shown.context == s.context
    ensures Follows(cfg, s, events, t)
    ensures t == shown.(clients := s.clients,
      context := if after == [] then s.context else Remembered(s.context, after[0].value))
  {
    hide Lookup, CacheKey, Remembered, Follows;
    var key := CacheKey(reading, s.context, cfg.withContext);
    var keyed := s.(clients := s.clients[c := Keyed(reading, candidates, key)]);
    t := shown.(clients := s.clients,
      context := if after == [] then s.context else Remembered(s.context, after[0].value));
    assert shown.clients - {c} == s.clients;
    FollowsMore(cfg, shown, Remember(c), t);
    FollowsAll(cfg, looking, middle, shown, [Remember(c)], t);
    assert keyed.clients[c := looking.clients[c]] == looking.clients;
    FollowsOne(cfg, keyed, Look(c), looking, middle + [Remember(c)], t);
    events := [Look(c)] + (middle + [Remember(c)]);
    FollowsOne(cfg, s, Begin(c, reading, candidates), keyed, events, t);
    events := [Begin(c, reading, candidates)] + events;
  }

  lemma {:induction false} FollowsAll(cfg: Settings, s: System, a: seq<Event>, t: System, b: seq<Event>, u: System)
    requires Follows(cfg, s, a, t) && Follows(cfg, t, b, u)
    ensures Follows(cfg, s, a + b, u)
    decreases |a|
  {
    hide Next, Possible;
    if a == [] {
      assert a + b == b;
    } else {
      var e, rest := a[0], a[1..];
      var v :| Next(cfg, s, e, v) && Follows(cfg, v, rest, t);
      FollowsAll(cfg, v, rest, t, b, u);
      FollowsOne(cfg, s, e, v, rest + b, u);
      assert a + b == [e] + (rest + b);
    }
  }

  // ----- when an answer for one reading is shown for another -----

  /** Candidates that were generated for reading g are shown for reading k. */
  ghost predicate ShownFor(s: System, k: string, g: string) {
    exists e :: e in s.shown && CameFrom(s, e, g) && e.reading == k && e.values != []
  }

  ghost predicate CameFrom(s: System, e: Shown, g: string) {
    && e.seen <= |s.puts| && LatestPut(s.puts[..e.seen], e.cacheKey).Some?
    && var i := LatestPut(s.puts[..e.seen], e.cacheKey).value;
       i < |s.origins| && 0 <= s.origins[i] < |s.generated| && s.generated[s.origins[i]].request.inputKey == g
  }

  ghost predicate Reaches(cfg: Settings, s: System) { exists events :: Happens(cfg, events, s) }

  lemma ReachStep(cfg: Settings, s: System, e: Event, t: System)
    requires Reaches(cfg, s) && Possible(s, e) && Next(cfg, s, e, t)
    ensures Reaches(cfg, t)
  {
    hide Next, Possible;
    var events :| Happens(cfg, events, s);
    assert (events + [e])[..|events|] == events;
    assert Happens(cfg, events + [e], t);
  }

  lemma {:induction false} ReachFollows(cfg: Settings, s: System, events: seq<Event>, t: System)
    requires Reaches(cfg, s) && Follows(cfg, s, events, t)
    ensures Reaches(cfg, t)
    decreases |events|
  {
    hide Next, Possible, Reaches;
    if events != [] {
      var e, rest := events[0], events[1..];
      var u :| Next(cfg, s, e, u) && Follows(cfg, u, rest, t);
      ReachStep(cfg, s, e, u);
      ReachFollows(cfg, u, rest, t);
    }
  }

  lemma ReachStart(cfg: Settings)
    ensures Reaches(cfg, EMPTY)
  {
    assert Happens(cfg, [], EMPTY);
  }

  function Warm(): State { After(After(INITIAL, Action.Start), Action.WarmUp(true)) }

  lemma WarmIs()
    ensures Enabled(INITIAL, Action.Start) && Enabled(After(INITIAL, Action.Start), Action.WarmUp(true))
    ensures Warm().ready && Warm().phase.Waiting?
  {
  }

  /** A request goes through the idle worker. */
  lemma Trip(r: Request, result: Result)
    ensures Enabled(Warm(), Enqueue(r)) && Enabled(After(Warm(), Enqueue(r)), Check)
    ensures var checked := After(After(Warm(), Enqueue(r)), Check);
      && Enabled(checked, Take) && Enabled(After(checked, Take), Finish(result))
      && After(checked, Take).phase == Holding(r)
      && After(After(checked, Take), Finish(result)).phase == Recorded(r, result)
  {
  }

  /** One call that makes x the last context, from an empty one. */
  lemma SetContext(cfg: Settings, s: System, x: string) returns (t: System)
    requires Reaches(cfg, s) && s.clients == map[] && s.context == [] && !s.worker.phase.Checked?
    ensures !t.worker.phase.Checked?
    ensures !s.worker.ready ==> t.worker == s.worker
    ensures Reaches(cfg, t) && t.context == [x]
    ensures t.clients == s.clients && t.store == s.store && t.now == s.now
    ensures t.puts == s.puts && t.origins == s.origins && t.generated == s.generated
  {
    var events, after;
    events, t, after := CallIsARun(cfg, s, 0, "z", [AiCandidate(x)]);
    ContextIs(x, after, if Lookup(s.store, CacheKey("z", [], cfg.withContext), s.now).Some?
                        then Lookup(s.store, CacheKey("z", [], cfg.withContext), s.now).value else []);
    hide Follows, Reaches, After, Added, Existing, Lookup, Remembered;
    ReachFollows(cfg, s, events, t);
  }

  lemma ContextIs(x: string, after: seq<Candidate>, offered: seq<string>)
    requires after == Appended([AiCandidate(x)], Added(Values([AiCandidate(x)]), offered, MAX_CANDIDATES_TO_ADD))
    ensures after != [] && after[0].value == x && Remembered([], x) == [x]
  {
    hide Added;
  }

  /** The context is cleared and, if need be, one candidate is converted. */
  lemma ContextTo(cfg: Settings, s: System, context: seq<string>) returns (t: System)
    requires Reaches(cfg, s) && s.clients == map[] && |context| <= 1 && !s.worker.phase.Checked?
    ensures !t.worker.phase.Checked?
    ensures Reaches(cfg, t) && t.context == context
    ensures !s.worker.ready ==> t.worker == s.worker
    ensures t.clients == s.clients && t.store == s.store && t.now == s.now
    ensures t.puts == s.puts && t.origins == s.origins && t.generated == s.generated
  {
    t := s.(context := []);
    ReachStep(cfg, s, ClearContext, t);
    hide *;
    if context != [] {
      t := SetContext(cfg, t, context[0]);
      assert context == [context[0]];
    }
  }

  const VALUE := "v"

  /** The state of the cache after one answer: the value stored under the key at time zero. */
  ghost predicate OneStored(cfg: Settings, s: System, key: string, r: Request) {
    && s.store == map[key := Entry([VALUE], 0, cfg.ttl)] && s.now == 0
    && s.puts == [Op.Put(key, [VALUE], 0, 0)] && s.origins == [0]
    && s.generated == [Generation(r, Result(true, [VALUE], 0))]
  }

  /** A first call for reading g is answered, and the answer is cached. */
  lemma AnswerFor(cfg: Settings, g: string, context: seq<string>) returns (t: System, r: Request)
    requires g != "" && |context| <= 1
    ensures Reaches(cfg, t) && t.clients == map[] && r.inputKey == g && !t.worker.phase.Checked?
    ensures OneStored(cfg, t, CacheKey(g, context, cfg.withContext), r)
  {
    r := Request(g, CacheKey(g, context, cfg.withContext), [], context);
    assert StoreKey(r) == CacheKey(g, context, cfg.withContext) by { KeyIsNotEmpty(g, context, cfg.withContext); }
    var result := Result(true, [VALUE], 0);
    Trip(r, result);
    hide After, Enabled, Reaches, CacheKey, StoreKey, OneStored;
    var asked := AskFor(cfg, g, context, r);
    var taken := TwoSteps(cfg, asked, Check, Take);
    t := AnswerKept(cfg, taken, r, result);
  }

  lemma TwoSteps(cfg: Settings, s: System, a: Action, b: Action) returns (t: System)
    requires Reaches(cfg, s) && !a.Enqueue? && !a.Finish? && !a.Store? && !b.Enqueue? && !b.Finish? && !b.Store?
    requires Enabled(s.worker, a) && Enabled(After(s.worker, a), b)
    ensures Reaches(cfg, t) && t == s.(worker := After(After(s.worker, a), b))
  {
    hide After, Enabled, Reaches;
    var u := s.(worker := After(s.worker, a));
    t := u.(worker := After(u.worker, b));
    ReachStep(cfg, s, Work(a), u);
    ReachStep(cfg, u, Work(b), t);
  }

  lemma KeyIsNotEmpty(g: string, context: seq<string>, withContext: bool)
    requires g != ""
    ensures CacheKey(g, context, withContext) != ""
  {
  }

  lemma AskFor(cfg: Settings, g: string, context: seq<string>, r: Request) returns (t: System)
    requires g != "" && |context| <= 1 && r == Request(g, CacheKey(g, context, cfg.withContext), [], context)
    ensures Enabled(Warm(), Enqueue(r))
    ensures Reaches(cfg, t) && t == EMPTY.(worker := After(Warm(), Enqueue(r)), context := context, shown := t.shown)
  {
    var ready := ReadyWith(cfg, context);
    assert Lookup(ready.store, CacheKey(g, context, cfg.withContext), 0) == None;
    WarmIs();
    hide Reaches, CacheKey, After, Lookup, Existing, Follows, Warm, Rewritten;
    var events, after;
    events, t, after := CallIsARun(cfg, ready, 0, g, []);
    MissAsks(g, after, context, t.context, cfg.withContext, ready.worker, t.worker);
    ReachFollows(cfg, ready, events, t);
  }

  /** A miss without candidates leaves the context alone and asks. */
  lemma MissAsks(g: string, after: seq<Candidate>, context: seq<string>, contextAfter: seq<string>, withContext: bool,
                 w: State, u: State)
    requires !w.phase.Checked? && w.ready
    requires Rewritten(g, [], after, None, context, contextAfter, withContext, w, u)
    ensures contextAfter == context
    ensures u == After(w, Enqueue(Request(g, CacheKey(g, context, withContext), [], context)))
  {
    NothingAdded([]);
    assert Existing([]) == [];
    hide CacheKey, After, Existing, Added, Appended, Remembered;
  }

  /** The worker runs, and the context is as asked. */
  lemma ReadyWith(cfg: Settings, context: seq<string>) returns (t: System)
    requires |context| <= 1
    ensures Reaches(cfg, t) && t == EMPTY.(worker := Warm(), context := context, shown := t.shown)
  {
    ReachStart(cfg);
    WarmIs();
    assert !EMPTY.worker.ready && EMPTY.worker.phase.NoThread?;
    hide Reaches, Enabled, After;
    var s := ContextTo(cfg, EMPTY, context);
    t := TwoSteps(cfg, s, Action.Start, Action.WarmUp(true));
  }

  lemma AnswerKept(cfg: Settings, s: System, r: Request, result: Result) returns (t: System)
    requires Reaches(cfg, s) && s.worker.phase == Holding(r) && Enabled(s.worker, Finish(result))
    requires After(s.worker, Finish(result)).phase == Recorded(r, result) && result == Result(true, [VALUE], 0)
    requires s.store == map[] && s.puts == [] && s.origins == [] && s.generated == [] && s.now == 0
      && s.clients == map[]
    ensures Reaches(cfg, t) && t.clients == map[] && OneStored(cfg, t, StoreKey(r), r) && !t.worker.phase.Checked?
  {
    var op := Op.Put(StoreKey(r), [VALUE], 0, 0);
    hide Reaches, StoreKey, After, Enabled, OneStored;
    var answered := s.(worker := After(s.worker, Finish(result)), generated := [Generation(r, result)]);
    assert s.generated + [Generation(r, result)] == [Generation(r, result)];
    ReachStep(cfg, s, Answer(result), answered);
    t := KeepOne(cfg, answered, r, op);
  }

  lemma KeepOne(cfg: Settings, answered: System, r: Request, op: Op) returns (t: System)
    requires Reaches(cfg, answered) && op == Op.Put(StoreKey(r), [VALUE], 0, 0)
    requires answered.worker.phase == Recorded(r, Result(true, [VALUE], 0)) && answered.clients == map[]
    requires answered.store == map[] && answered.puts == [] && answered.origins == [] && answered.now == 0
    requires answered.generated == [Generation(r, Result(true, [VALUE], 0))]
    ensures Reaches(cfg, t) && t.clients == map[] && OneStored(cfg, t, StoreKey(r), r) && !t.worker.phase.Checked?
  {
    EmptyStep(op, SizeT(cfg.maxEntries), cfg.ttl);
    hide Reaches, Step, StoreKey, After;
    t := answered.(worker := After(answered.worker, Action.Store),
                   store := map[StoreKey(r) := EntryOf(op, cfg.ttl)], puts := [op], origins := [0]);
    assert answered.puts + [op] == [op] && answered.origins + [0] == [0];
    ReachStep(cfg, answered, Keep(0, 0), t);
  }

  lemma EmptyStep(op: Op, cap: int, ttl: int)
    requires op.Put?
    ensures Step(map[], cap, ttl, op, map[op.key := EntryOf(op, ttl)])
  {
    var empty: Store := map[];
    assert Live(empty, op.pruneAt) == empty;
    assert Room(empty, cap, op.pruneAt, empty);
  }

  lemma OneAdded()
    ensures Added([], [VALUE], MAX_CANDIDATES_TO_ADD) == [VALUE]
  {
    assert [VALUE][1..] == [];
  }

  /** A call for reading k with the same key shows the cached value. */
  lemma ShowStored(cfg: Settings, s: System, k: string, r: Request) returns (t: System)
    requires Reaches(cfg, s) && s.clients == map[] && k != "" && cfg.ttl >= 0 && !s.worker.phase.Checked?
    requires OneStored(cfg, s, CacheKey(k, s.context, cfg.withContext), r)
    ensures Reaches(cfg, t) && ShownFor(t, k, r.inputKey)
  {
    var key := CacheKey(k, s.context, cfg.withContext);
    assert Lookup(s.store, key, s.now) == Some([VALUE]);
    var client := Looking(cfg, s, 0, k, []).clients[0];
    assert Values([]) == [];
    OneAdded();
    hide CacheKey, Lookup, NewValues, Follows, Reaches;
    var events, after;
    events, t, after := CallIsARun(cfg, s, 0, k, []);
    ReachFollows(cfg, s, events, t);
    var e := Shown(k, key, [VALUE], 1, 0);
    assert t.shown == s.shown + [e];
    assert t.puts[..1] == [Op.Put(key, [VALUE], 0, 0)];
    assert LatestPut(t.puts[..1], key) == Some(0);
    assert CameFrom(t, e, r.inputKey);
    assert e in t.shown;
  }

  /**
   With the context in the key, an answer for one reading reaches another exactly when one is the
   other with a context behind it.
   */
  lemma MixUpExactly(cfg: Settings, a: string, b: string)
    requires a != "" && b != "" && a != b && cfg.ttl >= 0
    ensures (exists s :: Reaches(cfg, s) && ShownFor(s, a, b))
      <==> cfg.withContext && (BarPrefix(a, b) || BarPrefix(b, a))
  {
    hide Reaches, ShownFor;
    if cfg.withContext && BarPrefix(a, b) {
      var s := MixUpRun(cfg, a, b, [b[|a| + 1..]], []);
    } else if cfg.withContext && BarPrefix(b, a) {
      var s := MixUpRun(cfg, a, b, [], [a[|b| + 1..]]);
    }
    forall s | Reaches(cfg, s) && ShownFor(s, a, b)
      ensures cfg.withContext && (BarPrefix(a, b) || BarPrefix(b, a))
    {
      MixUpNeedsBar(cfg, s, a, b);
    }
  }

  lemma MixUpNeedsBar(cfg: Settings, s: System, a: string, b: string)
    requires Reaches(cfg, s) && ShownFor(s, a, b) && a != b
    ensures cfg.withContext && (BarPrefix(a, b) || BarPrefix(b, a))
  {
    var events :| Happens(cfg, events, s);
    var e :| e in s.shown && CameFrom(s, e, b) && e.reading == a && e.values != [];
    hide Happens, LatestPut, FitsKey, BarPrefix, Reaches;
    ShownWasGenerated(cfg, events, s, e);
    var g := s.generated[s.origins[LatestPut(s.puts[..e.seen], e.cacheKey).value]];
    KeyOfRequest(g.request, cfg.withContext);
    SharedKey(a, b, e.cacheKey, cfg.withContext);
  }

  lemma MixUpRun(cfg: Settings, a: string, b: string, contextA: seq<string>, contextB: seq<string>) returns (s: System)
    requires a != "" && b != "" && |contextA| <= 1 && |contextB| <= 1 && cfg.ttl >= 0
    requires CacheKey(a, contextA, cfg.withContext) == CacheKey(b, contextB, cfg.withContext)
    ensures Reaches(cfg, s) && ShownFor(s, a, b)
  {
    hide Reaches, CacheKey, ShownFor;
    var r;
    s, r := AnswerFor(cfg, b, contextB);
    s := ContextTo(cfg, s, contextA);
    s := ShowStored(cfg, s, a, r);
  }
}
