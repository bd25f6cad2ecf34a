/** Properties of the two-tier cache that relate several operations:
    read-after-write, read-after-purge, repopulation, eviction, statistics,
    and the capacity bound over any history of operations. */
module CacheProperties {
  import opened Results
  import opened Seqs
  import Lru
  import Remote
  import opened Cache

  /** A local hit is answered the same whatever the link and whatever the
      remote store holds: the remote store is not consulted. */
  lemma LocalHitIgnoresRemote(c: Cache, id: string, now: int,
                              link: Remote.Link, other: Remote.Store, otherLink: Remote.Link)
    requires Valid(c) && Fresh(c, id, now)
    ensures Get(c, id, now, link).result == Get(c.(redis := other), id, now, otherLink).result
    ensures Get(c, id, now, link).result == Ok(c.mem.entries[id].value)
  {
  }

  /** An entry whose expiry is not after `now` is never served: the answer is
      whatever the remote store gives, exactly as if the entry had not been
      held at all. */
  lemma ExpiredEntryIsIgnored(c: Cache, id: string, now: int, link: Remote.Link)
    requires Valid(c) && id in c.mem.entries && now >= c.mem.entries[id].expiresAt
    ensures Get(c, id, now, link) == Get(c.(mem := Lru.Remove(c.mem, id)), id, now, link)
    ensures Get(c, id, now, link).result.Ok? ==>
      link.Up? && id in c.redis && Get(c, id, now, link).result.value == c.redis[id]
  {
  }

  /** Refreshing an expired entry from the remote store replaces that one
      entry and evicts nothing else, because the stale entry is removed
      before the fresh one is added. */
  lemma ExpiredRefreshEvictsNothing(c: Cache, id: string, now: int)
    requires Valid(c) && id in c.mem.entries && now >= c.mem.entries[id].expiresAt
    requires id in c.redis
    ensures Get(c, id, now, Remote.Up).cache.mem.entries ==
      c.mem.entries[id := Entry(c.redis[id], now + c.defaultTTL)]
  {
    var e := Entry(c.redis[id], now + c.defaultTTL);
    var removed := c.(mem := Lru.Remove(c.mem, id));
    Lru.ReAddEvictsNothing(c.mem, id, e);
    RefillIsLocalAdd(removed, id, now);
    assert Get(c, id, now, Remote.Up).cache.mem.entries ==
      Fallback(removed, id, now, Remote.Up).cache.mem.entries;
  }

  /** The local half of a remote hit is an LRU add of the fetched value. */
  lemma RefillIsLocalAdd(c: Cache, id: string, now: int)
    requires Valid(c) && id !in c.mem.entries && id in c.redis
    ensures Fallback(c, id, now, Remote.Up).cache.mem ==
      Lru.Add(c.mem, id, Entry(c.redis[id], now + c.defaultTTL)).lru
  {
  }

  /** A remote hit is copied into the local tier, and until the new expiry
      every later lookup is a local hit, whatever the link then. */
  lemma RepopulatedEntryServesLocally(c: Cache, id: string, now: int, later: int, link: Remote.Link)
    requires Valid(c) && !Fresh(c, id, now) && id in c.redis
    requires later < now + c.defaultTTL
    ensures Get(c, id, now, Remote.Up).result == Ok(c.redis[id])
    ensures Fresh(Get(c, id, now, Remote.Up).cache, id, later)
    ensures Get(Get(c, id, now, Remote.Up).cache, id, later, link).result == Ok(c.redis[id])
  {
  }

  /** A lookup that ends in an error, `NotFound` or a remote failure, never
      leaves a local entry for the key. */
  lemma ErrorLeavesNoLocalEntry(c: Cache, id: string, now: int, link: Remote.Link)
    requires Valid(c)
    ensures Get(c, id, now, link).result.Err? ==> id !in Get(c, id, now, link).cache.mem.entries
  {
  }

  /** A remote failure is reported as an error that `errors.Is` does not
      take for `NotFound`, and a nil reply as exactly `NotFound`. */
  lemma RemoteFailureIsNotNotFound(c: Cache, id: string, now: int, cause: string)
    requires Valid(c) && !Fresh(c, id, now)
    ensures Get(c, id, now, Remote.Down(cause)).result.Err?
    ensures !IsNotFound(Get(c, id, now, Remote.Down(cause)).result.error)
    ensures id !in c.redis ==> Get(c, id, now, Remote.Up).result == Err(NotFound)
  {
  }

  /** Read after write: until the new expiry, a lookup returns the value
      just written, from the local tier. */
  lemma SetThenGet(c: Cache, id: string, v: Bytes, now: int, later: int, link: Remote.Link)
    requires Valid(c) && later < now + c.defaultTTL
    ensures Get(Set(c, id, v, now), id, later, link).result == Ok(v)
  {
  }

  /** With a positive TTL a lookup at the time of the write is a hit. */
  lemma SetThenGetNow(c: Cache, id: string, v: Bytes, now: int, link: Remote.Link)
    requires Valid(c) && c.defaultTTL > 0
    ensures Get(Set(c, id, v, now), id, now, link).result == Ok(v)
  {
  }

  /** With a zero TTL the local copy is stale from the moment it is written,
      while the remote copy is written without an expiry: every later lookup
      is answered by the remote store with the written value. */
  lemma ZeroTtlWriteServedFromRemote(c: Cache, id: string, v: Bytes, now: int, later: int)
    requires Valid(c) && c.defaultTTL == 0 && later >= now
    ensures !Fresh(Set(c, id, v, now), id, later)
    ensures Get(Set(c, id, v, now), id, later, Remote.Up).result == Ok(v)
  {
  }

  /** Purging twice is purging once, and purging an absent key is a no-op. */
  lemma PurgeIdempotent(c: Cache, id: string)
    requires Valid(c)
    ensures Purge(Purge(c, id), id) == Purge(c, id)
    ensures id !in c.mem.entries && id !in c.redis ==> Purge(c, id) == c
  {
  }

  /** Read after purge: with no other writer the key is `NotFound`. */
  lemma PurgeThenGet(c: Cache, id: string, now: int)
    requires Valid(c)
    ensures Get(Purge(c, id), id, now, Remote.Up).result == Err(NotFound)
  {
  }

  /** Write, purge, read: `NotFound`, whatever was written. */
  lemma SetPurgeGet(c: Cache, id: string, v: Bytes, now: int, later: int)
    requires Valid(c)
    ensures Get(Purge(Set(c, id, v, now), id), id, later, Remote.Up).result == Err(NotFound)
  {
  }

  /** A new key written to a full local tier makes the least recently used
      key a local miss; that key is still served by the remote store. */
  lemma FullTierEvictsLeastRecent(c: Cache, id: string, v: Bytes, now: int)
    requires Valid(c) && id !in c.mem.entries && |c.mem.entries| == Capacity(c)
    ensures LeastRecent(c) != id
    ensures LeastRecent(c) !in Set(c, id, v, now).mem.entries
    ensures LeastRecent(c) in c.redis ==>
      Get(Set(c, id, v, now), LeastRecent(c), now, Remote.Up).result == Ok(c.redis[LeastRecent(c)])
  {
  }

  /** A new key written while the local tier has room is added and nothing
      is evicted. */
  lemma SetWithRoomGrows(c: Cache, id: string, v: Bytes, now: int)
    requires Valid(c) && id !in c.mem.entries && |c.mem.entries| < Capacity(c)
    ensures Set(c, id, v, now).mem.entries.Keys == c.mem.entries.Keys + {id}
    ensures |Set(c, id, v, now).mem.entries| == |c.mem.entries| + 1
  {
    var e := Entry(v, now + c.defaultTTL);
    Lru.CountIsOrderLength(c.mem);
    Lru.AddWithRoomGrows(c.mem, id, e);
    assert Set(c, id, v, now).mem == Lru.Add(c.mem, id, e).lru;
  }

  /** The local half of a write is an LRU add of the new entry. */
  lemma SetWritesLocal(c: Cache, id: string, v: Bytes, now: int)
    requires Valid(c)
    ensures Set(c, id, v, now).mem == Lru.Add(c.mem, id, Entry(v, now + c.defaultTTL)).lru
  {
  }

  /** Two writes of distinct keys into an empty local tier with room for
      both leave exactly those two keys held. */
  lemma TwoSetsHeld(c: Cache, a: string, b: string, va: Bytes, vb: Bytes, now: int)
    requires Valid(c) && c.mem.entries == map[] && Capacity(c) >= 2 && a != b
    ensures Set(Set(c, a, va, now), b, vb, now).mem.entries.Keys == {a, b}
    ensures |Set(Set(c, a, va, now), b, vb, now).mem.entries| == 2
  {
    var ea := Entry(va, now + c.defaultTTL);
    var eb := Entry(vb, now + c.defaultTTL);
    Lru.TwoAddsToEmpty(c.mem, a, b, ea, eb);
    var c1 := Set(c, a, va, now);
    SetWritesLocal(c, a, va, now);
    SetWritesLocal(c1, b, vb, now);
    var m2 := Set(c1, b, vb, now).mem;
    assert m2.order == [a, b];
    Lru.CountIsOrderLength(m2);
  }

  /** Two writes of distinct keys into a fresh cache of capacity two or more
      are both held locally and both reported by the statistics. */
  lemma TwoSetsStats(opts: Options, dialled: Remote.Store, link: Remote.Link,
                     a: string, b: string, va: Bytes, vb: Bytes, now: int)
    requires New(opts, dialled, link).Ok? && opts.maxMemEntries >= 2 && a != b
    ensures var c := Set(Set(New(opts, dialled, link).value, a, va, now), b, vb, now);
      GetStats(c).memLen == 2 && Elems(GetStats(c).memKeys) == {a, b}
  {
    var c0 := New(opts, dialled, link).value;
    TwoSetsHeld(c0, a, b, va, vb, now);
  }

  /** The flow of a cache with room for one entry: a first miss, a write, a
      local hit, a remote hit after the local copy is dropped, a purge, and
      a final miss. */
  lemma CacheFlow(opts: Options, store: Remote.Store, link: Remote.Link,
                  id: string, data: Bytes, now: int)
    requires opts.maxMemEntries == 1 && opts.defaultTTL > 0
    requires opts.redisClient == Some(store) && id !in store
    ensures New(opts, map[], link).Ok?
    ensures var c0 := New(opts, map[], link).value;
      var s1 := Get(c0, id, now, Remote.Up);
      var c2 := Set(s1.cache, id, data, now);
      var s3 := Get(c2, id, now, Remote.Up);
      var c4 := s3.cache.(mem := Lru.Remove(s3.cache.mem, id));
      var s5 := Get(c4, id, now, Remote.Up);
      var s7 := Get(Purge(s5.cache, id), id, now, Remote.Up);
      && s1.result == Err(NotFound)
      && s3.result == Ok(data)
      && s5.result == Ok(data)
      && s7.result == Err(NotFound)
  {
  }

  /** Capacity one, two keys: the second write evicts the first locally, the
      first is then fetched back from the remote store, evicting the second. */
  lemma CapacityOneScenario(c: Cache, x: string, y: string, vx: Bytes, vy: Bytes, now: int)
    requires Valid(c) && Capacity(c) == 1 && c.defaultTTL > 0 && x != y
    ensures var c1 := Set(c, x, vx, now);
      var s2 := Get(c1, x, now, Remote.Up);
      var c3 := Set(s2.cache, y, vy, now);
      var s4 := Get(c3, x, now, Remote.Up);
      && s2.result == Ok(vx)
      && x !in c3.mem.entries
      && s4.result == Ok(vx)
      && s4.cache.mem.entries.Keys == {x}
  {
    var c1 := Set(c, x, vx, now);
    OneSlotHoldsOnlyLast(c1, x);
    var s2 := Get(c1, x, now, Remote.Up);
    assert s2.cache.mem.entries.Keys == {x};
    var c3 := Set(s2.cache, y, vy, now);
    OneSlotHoldsOnlyLast(c3, y);
    assert !Fresh(c3, x, now);
    var s4 := Get(c3, x, now, Remote.Up);
    assert c3.redis[x] == vx;
    OneSlotHoldsOnlyLast(s4.cache, x);
  }

  /** A local tier of capacity one holds at most the key last written. */
  lemma OneSlotHoldsOnlyLast(c: Cache, k: string)
    requires Valid(c) && Capacity(c) == 1 && k in c.mem.entries
    ensures c.mem.entries.Keys == {k}
  {
  }

  /** A fresh local hit is an LRU lookup and nothing else. */
  lemma FreshGetIsLocalLookup(c: Cache, id: string, now: int, link: Remote.Link)
    requires Valid(c) && Fresh(c, id, now)
    ensures Get(c, id, now, link).cache == c.(mem := Lru.Get(c.mem, id).lru)
  {
  }

  /** Eviction follows access, not insertion: with room for two, a key
      that was read after a second key was written outlives that second
      key when a third key arrives. */
  lemma ReadKeySurvivesEviction(c: Cache, a: string, b: string, d: string,
                                va: Bytes, vb: Bytes, vd: Bytes, now: int, link: Remote.Link)
    requires Valid(c) && c.mem.entries == map[] && Capacity(c) == 2 && c.defaultTTL > 0
    requires a != b && a != d && b != d
    ensures var c3 := Get(Set(Set(c, a, va, now), b, vb, now), a, now, link).cache;
      var c4 := Set(c3, d, vd, now);
      && a in c4.mem.entries && c4.mem.entries[a] == Entry(va, now + c.defaultTTL)
      && b !in c4.mem.entries
      && d in c4.mem.entries
  {
    var ea := Entry(va, now + c.defaultTTL);
    var eb := Entry(vb, now + c.defaultTTL);
    var ed := Entry(vd, now + c.defaultTTL);
    var c1 := Set(c, a, va, now);
    SetWritesLocal(c, a, va, now);
    var c2 := Set(c1, b, vb, now);
    SetWritesLocal(c1, b, vb, now);
    Lru.ReadKeySurvivesEviction(c.mem, a, b, d, ea, eb, ed);
    assert Fresh(c2, a, now);
    FreshGetIsLocalLookup(c2, a, now, link);
    var c3 := Get(c2, a, now, link).cache;
    SetWritesLocal(c3, d, vd, now);
  }

  /** One operation of a history. */
  datatype Op =
    | GetOp(id: string, now: int, link: Remote.Link)
    | SetOp(id: string, value: Bytes, now: int)
    | PurgeOp(id: string)

  function Apply(c: Cache, op: Op): (r: Cache)
    requires Valid(c)
    ensures Valid(r) && SameConfig(r, c)
  {
    match op
    case GetOp(id, now, link) => Get(c, id, now, link).cache
    case SetOp(id, value, now) => Set(c, id, value, now)
    case PurgeOp(id) => Purge(c, id)
  }

  /** The state after a history of operations, applied in order. */
  function Run(c: Cache, ops: seq<Op>): (r: Cache)
    requires Valid(c)
    ensures Valid(r) && SameConfig(r, c)
    decreases |ops|
  {
    if |ops| == 0 then c else Run(Apply(c, ops[0]), ops[1..])
  }

  /** From construction on, whatever the history, the local tier never holds
      more than `MaxMemEntries` entries and the statistics report exactly the
      keys it holds. */
  lemma BoundedAfterAnyHistory(opts: Options, dialled: Remote.Store, link: Remote.Link, ops: seq<Op>)
    requires New(opts, dialled, link).Ok?
    ensures var c := Run(New(opts, dialled, link).value, ops);
      && |c.mem.entries| <= opts.maxMemEntries
      && GetStats(c).memLen == |c.mem.entries|
      && Elems(GetStats(c).memKeys) == c.mem.entries.Keys
  {
    var c := Run(New(opts, dialled, link).value, ops);
    Lru.CountIsOrderLength(c.mem);
  }
}
