/**
 AICandidateCache (src/ai/ai_candidate_cache.cc): a bounded map whose entries expire and which drops
 the oldest entry when it is full. The clock is a parameter: each reading of steady_clock::now() is one.
 */
module Cache {
  import opened Text

  datatype Entry = Entry(candidates: seq<string>, createdAt: int, expiresAt: int)
  type Store = map<string, Entry>

  /** static_cast<size_t> of a 32-bit int, on a 64-bit machine. */
  function SizeT(n: int): int { if n < 0 then n + 0x1_0000_0000_0000_0000 else n }

  // ----- what the operations do to the store -----

  datatype Op =
    | Put(key: string, candidates: seq<string>, pruneAt: int, storedAt: int)
    | Prune(at: int)
    | Clear

  function Live(m: Store, now: int): Store { map k | k in m && now <= m[k].expiresAt :: m[k] }

  ghost predicate Oldest(m: Store, k: string) {
    k in m && forall j :: j in m ==> m[k].createdAt <= m[j].createdAt
  }

  /** Entries that share the oldest time may be dropped in any order: the hash table decides. */
  ghost predicate WithoutOldest(m: Store, after: Store) {
    if m == map[] then after == m else exists k :: Oldest(m, k) && after == m - {k}
  }

  /** The store in which the new entry is put. */
  ghost predicate Room(m: Store, cap: int, now: int, after: Store) {
    if |m| < cap then after == m
    else if |Live(m, now)| < cap then after == Live(m, now)
    else WithoutOldest(Live(m, now), after)
  }

  ghost predicate Step(m: Store, cap: int, ttl: int, op: Op, after: Store) {
    match op
    case Clear => after == map[]
    case Prune(at) => after == Live(m, at)
    case Put(key, candidates, pruneAt, storedAt) =>
      exists room :: Room(m, cap, pruneAt, room) && after == room[key := Entry(candidates, storedAt, storedAt + ttl)]
  }

  /** m can be the store after the operations of h, on a cache that was empty. */
  ghost predicate Reachable(h: seq<Op>, cap: int, ttl: int, m: Store) {
    if h == [] then m == map[]
    else
      var p, op := h[..|h| - 1], h[|h| - 1];
      exists before :: Reachable(p, cap, ttl, before) && Step(before, cap, ttl, op, m)
  }

  function Lookup(m: Store, key: string, now: int): Option<seq<string>> {
    if key in m && now <= m[key].expiresAt then Some(m[key].candidates) else None
  }

  // ----- the code -----

  class AICandidateCache {
    const maxEntries: int
    const ttl: int
    var cache: Store
    var hits: int
    var misses: int
    ghost var history: seq<Op>

    ghost predicate Valid() reads this { Reachable(history, SizeT(maxEntries), ttl, cache) }

    constructor (maxEntries: int, ttl: int)
      ensures Valid() && history == [] && cache == map[] && hits == misses == 0
      ensures this.maxEntries == maxEntries && this.ttl == ttl
    {
      this.maxEntries, this.ttl := maxEntries, ttl;
      cache, hits, misses, history := map[], 0, 0, [];
    }

    method Get(key: string, now: int) returns (r: Option<seq<string>>)
      requires Valid()
      modifies this`hits, this`misses
      ensures Valid() && r == Lookup(cache, key, now)
      ensures hits == old(hits) + (if r.Some? then 1 else 0)
      ensures misses == old(misses) + (if r.Some? then 0 else 1)
      ensures r.Some? ==> LatestPut(history, key).Some?
      ensures r.Some? ==> r.value == history[LatestPut(history, key).value].candidates
      ensures r.Some? ==> now <= history[LatestPut(history, key).value].storedAt + ttl
      ensures Survives(history, SizeT(maxEntries), ttl, key) ==> r == Unexpired(history, ttl, key, now)
    {
      FoundIfSurvives(history, SizeT(maxEntries), ttl, cache, key, now);
      if key !in cache {
        misses := misses + 1;
        return None;
      }
      if now > cache[key].expiresAt {
        misses := misses + 1;
        return None;
      }
      GetIsLatestPut(history, SizeT(maxEntries), ttl, cache, key, now);
      hits := hits + 1;
      r := Some(cache[key].candidates);
    }

    method Contains(key: string, now: int) returns (r: bool)
      requires Valid()
      ensures r <==> Lookup(cache, key, now).Some?
      ensures Survives(history, SizeT(maxEntries), ttl, key) ==> (r <==> Unexpired(history, ttl, key, now).Some?)
    {
      FoundIfSurvives(history, SizeT(maxEntries), ttl, cache, key, now);
      if key !in cache {
        return false;
      }
      r := !(now > cache[key].expiresAt);
    }

    method Put(key: string, candidates: seq<string>, pruneAt: int, storedAt: int)
      requires Valid()
      modifies this`cache, this`history
      ensures Valid() && history == old(history) + [Op.Put(key, candidates, pruneAt, storedAt)]
      ensures Step(old(cache), SizeT(maxEntries), ttl, Op.Put(key, candidates, pruneAt, storedAt), cache)
      ensures |cache| <= Bound(SizeT(maxEntries))
    {
      ghost var was, op := cache, Op.Put(key, candidates, pruneAt, storedAt);
      if |cache| >= SizeT(maxEntries) {
        EraseExpired(pruneAt);
        if |cache| >= SizeT(maxEntries) {
          EvictOldest();
        }
      }
      assert Room(was, SizeT(maxEntries), pruneAt, cache);
      cache := cache[key := Entry(candidates, storedAt, storedAt + ttl)];
      assert Step(was, SizeT(maxEntries), ttl, op, cache);
      Reached(history, SizeT(maxEntries), ttl, was, op, cache);
      history := history + [op];
      SizeIsBounded(history, SizeT(maxEntries), ttl, cache);
    }

    method Clear()
      requires Valid()
      modifies this`cache, this`history
      ensures Valid() && history == old(history) + [Op.Clear] && cache == map[]
    {
      Reached(history, SizeT(maxEntries), ttl, cache, Op.Clear, map[]);
      cache, history := map[], history + [Op.Clear];
    }

    method Prune(now: int)
      requires Valid()
      modifies this`cache, this`history
      ensures Valid() && history == old(history) + [Op.Prune(now)] && cache == Live(old(cache), now)
    {
      ghost var was := cache;
      EraseExpired(now);
      Reached(history, SizeT(maxEntries), ttl, was, Op.Prune(now), cache);
      history := history + [Op.Prune(now)];
    }

    method ResetStats()
      modifies this`hits, this`misses
      ensures hits == misses == 0
    {
      hits, misses := 0, 0;
    }

    /** The loop that Put and Prune share. */
    method EraseExpired(now: int)
      modifies this`cache
      ensures cache == Live(old(cache), now)
    {
      ghost var was := cache;
      var pending := cache.Keys;
      while pending != {}
        invariant pending <= cache.Keys && cache.Keys <= was.Keys
        invariant forall k :: k in cache ==> cache[k] == was[k]
        invariant forall k :: k in was ==> (k in cache <==> k in pending || now <= was[k].expiresAt)
        decreases |pending|
      {
        var k :| k in pending;
        if now > cache[k].expiresAt {
          cache := cache - {k};
        }
        pending := pending - {k};
      }
    }

    method EvictOldest()
      modifies this`cache
      ensures WithoutOldest(old(cache), cache)
    {
      if cache == map[] {
        return;
      }
      var oldest :| oldest in cache;
      var oldestTime := cache[oldest].createdAt;
      var pending := cache.Keys;
      while pending != {}
        invariant pending <= cache.Keys && oldest in cache && oldestTime == cache[oldest].createdAt
        invariant forall k :: k in cache && k !in pending ==> oldestTime <= cache[k].createdAt
        decreases |pending|
      {
        var k :| k in pending;
        if cache[k].createdAt < oldestTime {
          oldestTime := cache[k].createdAt;
          oldest := k;
        }
        pending := pending - {k};
      }
      assert Oldest(cache, oldest);
      cache := cache - {oldest};
    }
  }

  lemma Reached(h: seq<Op>, cap: int, ttl: int, before: Store, op: Op, after: Store)
    requires Reachable(h, cap, ttl, before) && Step(before, cap, ttl, op, after)
    ensures Reachable(h + [op], cap, ttl, after)
  {
    hide Step;
    assert (h + [op])[..|h|] == h;
  }

  // ----- the store against the history -----

  /** The put that decides the value of a key: the last one, unless the cache was cleared after it. */
  function LatestPut(h: seq<Op>, key: string): (r: Option<nat>)
    ensures r.Some? ==> r.value < |h| && h[r.value].Put? && h[r.value].key == key
    ensures r.Some? ==> forall i :: r.value < i < |h| ==> !h[i].Clear? && !(h[i].Put? && h[i].key == key)
  {
    if h == [] then None
    else
      match h[|h| - 1]
      case Clear => None
      case Put(k, _, _, _) => if k == key then Some(|h| - 1) else LatestPut(h[..|h| - 1], key)
      case Prune(_) => LatestPut(h[..|h| - 1], key)
  }

  function EntryOf(op: Op, ttl: int): Entry
    requires op.Put?
  {
    Entry(op.candidates, op.storedAt, op.storedAt + ttl)
  }

  /** Every entry is that of the latest put of its key. */
  ghost predicate Faithful(h: seq<Op>, ttl: int, m: Store) {
    forall k :: k in m ==> LatestPut(h, k).Some? && m[k] == EntryOf(h[LatestPut(h, k).value], ttl)
  }

  lemma StepShrinks(m: Store, cap: int, ttl: int, op: Op, after: Store)
    requires Step(m, cap, ttl, op, after)
    ensures forall k :: k in after && !(op.Put? && op.key == k) ==> !op.Clear? && k in m && after[k] == m[k]
    ensures op.Put? ==> op.key in after && after[op.key] == EntryOf(op, ttl)
  {
  }

  lemma {:induction false} StoreIsFaithful(h: seq<Op>, cap: int, ttl: int, m: Store)
    requires Reachable(h, cap, ttl, m)
    ensures Faithful(h, ttl, m)
  {
    if h != [] {
      var p, op := h[..|h| - 1], h[|h| - 1];
      var before :| Reachable(p, cap, ttl, before) && Step(before, cap, ttl, op, m);
      StoreIsFaithful(p, cap, ttl, before);
      StepShrinks(before, cap, ttl, op, m);
      hide Step, Reachable;
      forall k | k in m
        ensures LatestPut(h, k).Some? && m[k] == EntryOf(h[LatestPut(h, k).value], ttl)
      {
        assert (op.Put? && op.key == k) || LatestPut(h, k) == LatestPut(p, k);
      }
    }
  }

  /** What Get returns is the value of the latest put of the key since the last clear, and has not expired. */
  lemma GetIsLatestPut(h: seq<Op>, cap: int, ttl: int, m: Store, key: string, now: int)
    requires Reachable(h, cap, ttl, m) && Lookup(m, key, now).Some?
    ensures LatestPut(h, key).Some?
    ensures var put := h[LatestPut(h, key).value];
      Lookup(m, key, now) == Some(put.candidates) && now <= put.storedAt + ttl
  {
    StoreIsFaithful(h, cap, ttl, m);
    hide Reachable, LatestPut;
  }

  // ----- the size -----

  function Bound(cap: int): int { if cap < 1 then 1 else cap }

  lemma FewerKeys(m: Store, n: Store)
    requires n.Keys <= m.Keys
    ensures |n| <= |m|
  {
    SubsetSize(n.Keys, m.Keys);
  }

  lemma {:induction false} SubsetSize<T>(a: set<T>, b: set<T>)
    requires a <= b
    ensures |a| <= |b|
    ensures |a| == |b| ==> a == b
    decreases a
  {
    if a != {} {
      var x :| x in a;
      SubsetSize(a - {x}, b - {x});
    }
  }

  /** An entry too many is never kept; a bound of zero still keeps one. */
  lemma {:induction false} SizeIsBounded(h: seq<Op>, cap: int, ttl: int, m: Store)
    requires Reachable(h, cap, ttl, m)
    ensures |m| <= Bound(cap)
  {
    if h != [] {
      var p, op := h[..|h| - 1], h[|h| - 1];
      var before :| Reachable(p, cap, ttl, before) && Step(before, cap, ttl, op, m);
      SizeIsBounded(p, cap, ttl, before);
      match op
      case Clear =>
      case Prune(at) => FewerKeys(before, m);
      case Put(key, _, pruneAt, _) =>
        var room :| Room(before, cap, pruneAt, room) && m == room[key := EntryOf(op, ttl)];
        RoomIsSmaller(before, cap, pruneAt, room);
        assert m.Keys == room.Keys + {key};
    }
  }

  lemma RoomIsSmaller(m: Store, cap: int, now: int, room: Store)
    requires Room(m, cap, now, room) && |m| <= Bound(cap)
    ensures |room| < Bound(cap)
  {
    var live := Live(m, now);
    FewerKeys(m, live);
    if |m| >= cap && |live| >= cap && live != map[] {
      var k :| Oldest(live, k) && room == live - {k};
      assert room.Keys == live.Keys - {k};
    }
  }

  lemma OnePut(op: Op, cap: int, ttl: int)
    requires op.Put?
    ensures Reachable([op], cap, ttl, map[op.key := EntryOf(op, ttl)])
  {
    var empty: Store := map[];
    assert Live(empty, op.pruneAt) == empty;
    assert Room(empty, cap, op.pruneAt, empty);
    assert Step(empty, cap, ttl, op, map[op.key := EntryOf(op, ttl)]);
    assert Reachable([], cap, ttl, empty);
    hide Step, Reachable;
    Reached([], cap, ttl, empty, op, map[op.key := EntryOf(op, ttl)]);
    assert [] + [op] == [op];
  }

  /** max_entries is a bound on the cache exactly when it is positive: with zero or less one put exceeds it. */
  lemma BoundHoldsExactly(maxEntries: int, ttl: int)
    requires -0x8000_0000 <= maxEntries < 0x8000_0000
    ensures (forall h, m :: Reachable(h, SizeT(maxEntries), ttl, m) ==> |m| <= maxEntries) <==> maxEntries >= 1
  {
    if maxEntries >= 1 {
      forall h, m | Reachable(h, SizeT(maxEntries), ttl, m)
        ensures |m| <= maxEntries
      {
        SizeIsBounded(h, SizeT(maxEntries), ttl, m);
      }
    } else {
      var op := Op.Put("", [], 0, 0);
      OnePut(op, SizeT(maxEntries), ttl);
      assert |map[op.key := EntryOf(op, ttl)]| == 1;
    }
  }

  /** With a bound of zero the cache holds the last put alone. */
  lemma {:induction false} ZeroKeepsTheLast(h: seq<Op>, ttl: int, m: Store)
    requires Reachable(h, 0, ttl, m) && h != [] && h[|h| - 1].Put?
    ensures var last := h[|h| - 1]; m == map[last.key := EntryOf(last, ttl)]
  {
    SizeIsBounded(h, 0, ttl, m);
    var p, op := h[..|h| - 1], h[|h| - 1];
    var before :| Reachable(p, 0, ttl, before) && Step(before, 0, ttl, op, m);
    StepShrinks(before, 0, ttl, op, m);
    hide *;
    OnlyKey(m, op.key);
  }

  lemma OnlyKey(m: Store, key: string)
    requires key in m && |m| <= Bound(0)
    ensures m == map[key := m[key]]
  {
    SubsetSize({key}, m.Keys);
  }

  /** No explicit Prune that ran after the put of index i saw it expired. */
  ghost predicate UnprunedSince(h: seq<Op>, i: nat, ttl: int)
    requires i < |h| && h[i].Put?
  {
    forall j :: i < j < |h| && h[j].Prune? ==> h[j].at <= h[i].storedAt + ttl
  }

  /** The key was put since the last clear, and no explicit Prune has removed it. */
  ghost predicate PutAndUnpruned(h: seq<Op>, k: string, ttl: int) {
    LatestPut(h, k).Some? && UnprunedSince(h, LatestPut(h, k).value, ttl)
  }

  lemma UnprunedStep(h: seq<Op>, ttl: int, before: Store, after: Store, k: string)
    requires h != [] && var p := h[..|h| - 1]; Faithful(p, ttl, before) && (k in before <==> PutAndUnpruned(p, k, ttl))
    requires var op := h[|h| - 1];
      match op
      case Clear => after == map[]
      case Prune(at) => after == Live(before, at)
      case Put(_, _, _, _) => after == before[op.key := EntryOf(op, ttl)]
    ensures k in after <==> PutAndUnpruned(h, k, ttl)
  {
    var p, op := h[..|h| - 1], h[|h| - 1];
    if (op.Put? && op.key != k) || op.Prune? {
      assert LatestPut(h, k) == LatestPut(p, k);
      if LatestPut(h, k).Some? {
        var i := LatestPut(h, k).value;
        assert forall j :: i <= j < |p| ==> p[j] == h[j];
        assert UnprunedSince(h, i, ttl) <==> UnprunedSince(p, i, ttl) && (op.Prune? ==> op.at <= h[i].storedAt + ttl);
      }
    }
    hide LatestPut;
  }

  /**
   A negative bound becomes a huge one: until that many operations nothing is evicted and nothing
   is pruned to make room, so every key put since the last clear is there unless Prune removed it.
   */
  lemma {:induction false} NegativeNeverEvicts(h: seq<Op>, maxEntries: int, ttl: int, m: Store)
    requires -0x8000_0000 <= maxEntries < 0 && |h| < SizeT(maxEntries) && Reachable(h, SizeT(maxEntries), ttl, m)
    ensures |m| <= |h|
    ensures forall k :: k in m <==> PutAndUnpruned(h, k, ttl)
  {
    if h != [] {
      var cap := SizeT(maxEntries);
      var p, op := h[..|h| - 1], h[|h| - 1];
      var before :| Reachable(p, cap, ttl, before) && Step(before, cap, ttl, op, m);
      StoreIsFaithful(p, cap, ttl, before);
      NegativeNeverEvicts(p, maxEntries, ttl, before);
      HugeStep(before, cap, ttl, op, m);
      hide *;
      forall k
        ensures k in m <==> PutAndUnpruned(h, k, ttl)
      {
        UnprunedStep(h, ttl, before, m, k);
      }
    }
  }

  /** What an operation does when there is room. */
  lemma HugeStep(before: Store, cap: int, ttl: int, op: Op, after: Store)
    requires |before| < cap && Step(before, cap, ttl, op, after)
    ensures |after| <= |before| + 1
    ensures match op
      case Clear => after == map[]
      case Prune(at) => after == Live(before, at)
      case Put(_, _, _, _) => after == before[op.key := EntryOf(op, ttl)]
  {
    match op
    case Clear =>
    case Prune(at) => FewerKeys(before, after);
    case Put(_, _, _, _) => assert after.Keys == before.Keys + {op.key};
  }

  // ----- how long an entry stays -----

  function PutCount(h: seq<Op>): nat {
    if h == [] then 0 else PutCount(h[..|h| - 1]) + if h[|h| - 1].Put? then 1 else 0
  }

  function PutKeys(h: seq<Op>): set<string> {
    if h == [] then {} else PutKeys(h[..|h| - 1]) + if h[|h| - 1].Put? then {h[|h| - 1].key} else {}
  }

  lemma {:induction false} PutKeysCount(h: seq<Op>)
    ensures |PutKeys(h)| <= PutCount(h)
    ensures forall i :: 0 <= i < |h| && h[i].Put? ==> h[i].key in PutKeys(h)
  {
    if h != [] {
      PutKeysCount(h[..|h| - 1]);
    }
  }

  /** Puts are stored at strictly later times. */
  ghost predicate Ticking(h: seq<Op>) {
    forall i, j :: 0 <= i < j < |h| && h[i].Put? && h[j].Put? ==> h[i].storedAt < h[j].storedAt
  }

  /** Nothing that ran after the put of index i saw it expired. */
  ghost predicate FreshSince(h: seq<Op>, i: nat, ttl: int)
    requires i < |h| && h[i].Put?
  {
    forall j :: i < j < |h| ==>
      match h[j]
      case Clear => true
      case Prune(at) => at <= h[i].storedAt + ttl
      case Put(_, _, pruneAt, _) => pruneAt <= h[i].storedAt + ttl
  }

  lemma LaterPut(h: seq<Op>, i: nat, j: nat)
    requires Ticking(h) && i < |h| && j < |h| && h[i].Put? && h[j].Put?
    requires h[i].storedAt <= h[j].storedAt && h[i].key != h[j].key
    ensures h[j].key in PutKeys(h[i + 1..])
  {
    PutKeysCount(h[i + 1..]);
    assert i < j;
    assert h[i + 1..][j - i - 1] == h[j];
  }

  /** With k the oldest of the entries, every other one was put after k. */
  lemma OthersAreNewer(h: seq<Op>, ttl: int, m: Store, k: string)
    requires Faithful(h, ttl, m) && Ticking(h) && Oldest(m, k)
    ensures m.Keys - {k} <= PutKeys(h[LatestPut(h, k).value + 1..])
  {
    hide LatestPut, Ticking, PutKeys;
    var i := LatestPut(h, k).value;
    forall j | j in m && j != k
      ensures j in PutKeys(h[i + 1..])
    {
      LaterPut(h, i, LatestPut(h, j).value);
    }
  }

  lemma FewEntries(h: seq<Op>, ttl: int, m: Store, k: string, i: nat)
    requires Faithful(h, ttl, m) && Ticking(h) && Oldest(m, k) && LatestPut(h, k) == Some(i)
    ensures |m| <= PutCount(h[i + 1..]) + 1
  {
    hide *;
    OthersAreNewer(h, ttl, m, k);
    PutKeysCount(h[i + 1..]);
    OneMore(m.Keys, k, PutKeys(h[i + 1..]));
  }

  lemma OneMore<T>(a: set<T>, x: T, b: set<T>)
    requires a - {x} <= b
    ensures |a| <= |b| + 1
  {
    SubsetSize(a - {x}, b);
    assert a <= a - {x} + {x};
    SubsetSize(a, a - {x} + {x});
  }

  /** A full cache that holds few puts since k does not drop k. */
  lemma NotDropped(h: seq<Op>, ttl: int, m: Store, cap: int, now: int, room: Store, k: string, i: nat)
    requires Faithful(h, ttl, m) && Ticking(h) && Room(m, cap, now, room) && LatestPut(h, k) == Some(i)
    requires k in m && now <= m[k].expiresAt && PutCount(h[i + 1..]) + 1 < cap
    ensures k in room
  {
    hide Ticking, LatestPut, PutCount, Faithful;
    var live := Live(m, now);
    if |m| >= cap && |live| >= cap && k !in room {
      var dropped :| Oldest(live, dropped) && room == live - {dropped};
      FaithfulPart(h, ttl, m, live);
      FewEntries(h, ttl, live, k, i);
    }
  }

  /** A later operation keeps the entry. */
  lemma KeptByStep(h: seq<Op>, cap: int, ttl: int, before: Store, op: Op, after: Store, k: string, i: nat)
    requires Faithful(h, ttl, before) && Ticking(h) && Step(before, cap, ttl, op, after)
    requires LatestPut(h, k) == Some(i) && k in before && !op.Clear? && !(op.Put? && op.key == k)
    requires PutCount(h[i + 1..]) + (if op.Put? then 1 else 0) < cap
    requires op.Prune? ==> op.at <= before[k].expiresAt
    requires op.Put? ==> op.pruneAt <= before[k].expiresAt
    ensures k in after
  {
    hide Ticking, LatestPut, PutCount, Faithful, Room;
    if op.Put? {
      var room :| Room(before, cap, op.pruneAt, room) && after == room[op.key := EntryOf(op, ttl)];
      NotDropped(h, ttl, before, cap, op.pruneAt, room, k, i);
    }
  }

  lemma WithoutLast(h: seq<Op>, k: string, i: nat, ttl: int)
    requires LatestPut(h, k) == Some(i) && i < |h| - 1 && Ticking(h) && FreshSince(h, i, ttl)
    ensures var p, op := h[..|h| - 1], h[|h| - 1];
      && LatestPut(p, k) == Some(i) && p[i] == h[i] && Ticking(p) && FreshSince(p, i, ttl)
      && PutCount(h[i + 1..]) == PutCount(p[i + 1..]) + (if op.Put? then 1 else 0)
      && !op.Clear? && !(op.Put? && op.key == k)
      && (op.Prune? ==> op.at <= h[i].storedAt + ttl) && (op.Put? ==> op.pruneAt <= h[i].storedAt + ttl)
  {
    var p := h[..|h| - 1];
    assert forall j :: 0 <= j < |p| ==> p[j] == h[j];
    assert h[i + 1..][..|h[i + 1..]| - 1] == p[i + 1..];
  }

  lemma FaithfulPart(h: seq<Op>, ttl: int, m: Store, n: Store)
    requires Faithful(h, ttl, m) && n.Keys <= m.Keys && forall k :: k in n ==> n[k] == m[k]
    ensures Faithful(h, ttl, n)
  {
    hide LatestPut;
  }

  /** An entry outlives the next cap - 1 puts of any keys, as long as it is not seen expired and not cleared. */
  lemma {:induction false} EntrySurvives(h: seq<Op>, cap: int, ttl: int, m: Store, k: string)
    requires Reachable(h, cap, ttl, m) && Ticking(h) && LatestPut(h, k).Some?
    requires PutCount(h[LatestPut(h, k).value + 1..]) < cap && FreshSince(h, LatestPut(h, k).value, ttl)
    ensures k in m && m[k] == EntryOf(h[LatestPut(h, k).value], ttl)
  {
    var i := LatestPut(h, k).value;
    StoreIsFaithful(h, cap, ttl, m);
    var before := LastStep(h, cap, ttl, m);
    hide *;
    if i < |h| - 1 {
      WithoutLast(h, k, i, ttl);
      EntrySurvives(h[..|h| - 1], cap, ttl, before, k);
      KeptOnce(h, cap, ttl, before, m, k, i);
    } else {
      StepShrinks(before, cap, ttl, h[|h| - 1], m);
    }
    FaithfulIs(h, ttl, m, k, i);
  }

  lemma LastStep(h: seq<Op>, cap: int, ttl: int, m: Store) returns (before: Store)
    requires h != [] && Reachable(h, cap, ttl, m)
    ensures Reachable(h[..|h| - 1], cap, ttl, before) && Step(before, cap, ttl, h[|h| - 1], m)
  {
    before :| Reachable(h[..|h| - 1], cap, ttl, before) && Step(before, cap, ttl, h[|h| - 1], m);
    hide Step;
  }

  /** The last operation keeps the entry that the others have kept. */
  lemma KeptOnce(h: seq<Op>, cap: int, ttl: int, before: Store, m: Store, k: string, i: nat)
    requires LatestPut(h, k) == Some(i) && i < |h| - 1 && Ticking(h) && FreshSince(h, i, ttl)
    requires Reachable(h[..|h| - 1], cap, ttl, before) && Step(before, cap, ttl, h[|h| - 1], m)
    requires PutCount(h[i + 1..]) < cap && k in before
    ensures k in m
  {
    hide *;
    WithoutLast(h, k, i, ttl);
    StoreIsFaithful(h[..|h| - 1], cap, ttl, before);
    FaithfulIs(h[..|h| - 1], ttl, before, k, i);
    KeptByStep(h[..|h| - 1], cap, ttl, before, h[|h| - 1], m, k, i);
  }

  /** The key was put, and since then there were few puts, no clear, and nothing that saw it expired. */
  ghost predicate Survives(h: seq<Op>, cap: int, ttl: int, key: string) {
    && Ticking(h)
    && LatestPut(h, key).Some?
    && PutCount(h[LatestPut(h, key).value + 1..]) < cap
    && FreshSince(h, LatestPut(h, key).value, ttl)
  }

  /** What was put last under the key, until its time to live is over. */
  ghost function Unexpired(h: seq<Op>, ttl: int, key: string, now: int): Option<seq<string>> {
    match LatestPut(h, key)
    case None => None
    case Some(i) => if now <= h[i].storedAt + ttl then Some(h[i].candidates) else None
  }

  /** A surviving put is found exactly until its time to live is over: there is no other reason for a miss. */
  lemma GetFindsLatestPut(h: seq<Op>, cap: int, ttl: int, m: Store, key: string, now: int)
    requires Reachable(h, cap, ttl, m) && Survives(h, cap, ttl, key)
    ensures Lookup(m, key, now) == Unexpired(h, ttl, key, now)
  {
    EntrySurvives(h, cap, ttl, m, key);
    hide Reachable, LatestPut, Ticking, PutCount, FreshSince;
  }

  lemma FoundIfSurvives(h: seq<Op>, cap: int, ttl: int, m: Store, key: string, now: int)
    requires Reachable(h, cap, ttl, m)
    ensures Survives(h, cap, ttl, key) ==> Lookup(m, key, now) == Unexpired(h, ttl, key, now)
  {
    hide *;
    if Survives(h, cap, ttl, key) {
      GetFindsLatestPut(h, cap, ttl, m, key, now);
    }
  }

  /** What was stored just now is found until its time to live is over, by every bound. */
  lemma JustPutIsFound(h: seq<Op>, cap: int, ttl: int, m: Store, now: int)
    requires h != [] && h[|h| - 1].Put? && Reachable(h, cap, ttl, m)
    ensures var put := h[|h| - 1];
      Lookup(m, put.key, now) == if now <= put.storedAt + ttl then Some(put.candidates) else None
  {
    var p, op := h[..|h| - 1], h[|h| - 1];
    var before :| Reachable(p, cap, ttl, before) && Step(before, cap, ttl, op, m);
    StepShrinks(before, cap, ttl, op, m);
  }

  lemma FaithfulIs(h: seq<Op>, ttl: int, m: Store, k: string, i: nat)
    requires Faithful(h, ttl, m) && k in m && LatestPut(h, k) == Some(i)
    ensures m[k] == EntryOf(h[i], ttl) && m[k].expiresAt == h[i].storedAt + ttl
  {
    hide LatestPut;
  }

  /** The cap most recent puts, when their keys differ, are all that a full cache holds. */
  lemma OnlyTheLastPutsStay(h: seq<Op>, cap: int, ttl: int, m: Store, from: nat)
    requires Reachable(h, cap, ttl, m) && Ticking(h) && cap >= 1 && from + cap == |h|
    requires forall i :: from <= i < |h| ==> h[i].Put? && FreshSince(h, i, ttl)
    requires forall i, j :: from <= i < j < |h| ==> h[i].key != h[j].key
    ensures m.Keys == set i | from <= i < |h| :: h[i].key
  {
    hide *;
    var last := set i | from <= i < |h| :: h[i].key;
    KeysFromIs(h, from);
    forall i | from <= i < |h|
      ensures h[i].key in m
    {
      LastPutStays(h, cap, ttl, m, from, i);
    }
    SizeIsBounded(h, cap, ttl, m);
    assert |m| <= cap by { BoundIs(cap); }
    KeyCount(h, from);
    SubsetSize(last, m.Keys);
  }

  lemma BoundIs(cap: int)
    requires cap >= 1
    ensures Bound(cap) == cap
  {
  }

  lemma LastPutStays(h: seq<Op>, cap: int, ttl: int, m: Store, from: nat, i: nat)
    requires Reachable(h, cap, ttl, m) && Ticking(h) && from + cap == |h| && from <= i < |h|
    requires forall j :: from <= j < |h| ==> h[j].Put?
    requires FreshSince(h, i, ttl)
    requires forall j, k :: from <= j < k < |h| ==> h[j].key != h[k].key
    ensures h[i].key in m
  {
    hide *;
    LatestIs(h, h[i].key, i);
    PutCountLength(h[i + 1..]);
    EntrySurvives(h, cap, ttl, m, h[i].key);
  }

  lemma {:induction false} LatestIs(h: seq<Op>, key: string, i: nat)
    requires i < |h| && h[i].Put? && h[i].key == key
    requires forall j :: i < j < |h| ==> !h[j].Clear? && !(h[j].Put? && h[j].key == key)
    ensures LatestPut(h, key) == Some(i)
  {
    if i < |h| - 1 {
      LatestIs(h[..|h| - 1], key, i);
    }
  }

  lemma {:induction false} PutCountLength(h: seq<Op>)
    ensures PutCount(h) <= |h|
  {
    if h != [] {
      PutCountLength(h[..|h| - 1]);
    }
  }

  function KeysFrom(h: seq<Op>, from: nat): set<string>
    requires from <= |h| && forall i :: from <= i < |h| ==> h[i].Put?
  {
    set i | from <= i < |h| :: h[i].key
  }

  lemma KeysFromIs(h: seq<Op>, from: nat)
    requires from <= |h| && forall i :: from <= i < |h| ==> h[i].Put?
    ensures KeysFrom(h, from) == set i | from <= i < |h| :: h[i].key
  {
  }

  lemma KeysSnoc(h: seq<Op>, from: nat)
    requires from < |h| && forall i :: from <= i < |h| ==> h[i].Put?
    ensures KeysFrom(h, from) == KeysFrom(h[..|h| - 1], from) + {h[|h| - 1].key}
  {
    var p := h[..|h| - 1];
    assert forall i :: from <= i < |p| ==> p[i] == h[i];
    forall k | k in KeysFrom(h, from)
      ensures k in KeysFrom(p, from) + {h[|h| - 1].key}
    {
      var i :| from <= i < |h| && h[i].key == k;
      assert i < |p| ==> p[i] == h[i];
    }
  }

  lemma {:induction false} KeyCount(h: seq<Op>, from: nat)
    requires from <= |h| && forall i :: from <= i < |h| ==> h[i].Put?
    requires forall i, j :: from <= i < j < |h| ==> h[i].key != h[j].key
    ensures |KeysFrom(h, from)| == |h| - from
  {
    if from < |h| {
      var p := h[..|h| - 1];
      KeyCount(p, from);
      KeysSnoc(h, from);
      assert h[|h| - 1].key !in KeysFrom(p, from);
    } else {
      assert KeysFrom(h, from) == {};
    }
  }
}
