/** The two-tier read-through cache: a bounded in-memory LRU store whose
    entries carry an absolute expiry time, in front of a shared remote
    key-value store. Every operation is a pure function from the cache state
    (and, where the Go code reads the wall clock, an explicit `now`) to the
    next state and its result. */
module Cache {
  import opened Results
  import opened Seqs
  import Lru
  import Remote

  type Bytes = Remote.Bytes

  /** A value held in the local tier, stale from `expiresAt` on. */
  datatype Entry = Entry(value: Bytes, expiresAt: int)

  /** Construction parameters; `redisClient` is an already connected remote
      store supplied by the caller, or `None` to dial `redisAddr`. */
  datatype Options = Options(
    redisAddr: string,
    defaultTTL: int,
    maxMemEntries: int,
    redisClient: Option<Remote.Store>)

  datatype Cache = Cache(mem: Lru.LruCache<string, Entry>, redis: Remote.Store, defaultTTL: int)

  /** Construction failures, the `ErrNotFound` sentinel, and a wrapped remote
      GET failure. */
  datatype CacheError =
    | ConfigError(msg: string)
    | ConnectionError(msg: string)
    | NotFound
    | RemoteError(msg: string)

  /** Whether `errors.Is(err, ErrNotFound)` holds: only the sentinel itself
      matches, a wrapped remote failure never does. */
  predicate IsNotFound(e: CacheError) {
    e.NotFound?
  }

  /** Counters the Go code reports but never fills in are kept at zero. */
  datatype Stats = Stats(memHits: int, memMisses: int, memEvicts: int, memLen: int, memKeys: seq<string>)

  datatype GetStep = GetStep(cache: Cache, result: Result<Bytes, CacheError>)

  predicate Valid(c: Cache) {
    Lru.Valid(c.mem)
  }

  /** The capacity of the local tier, `MaxMemEntries`. */
  function Capacity(c: Cache): int {
    c.mem.size
  }

  /** The configuration is never changed by an operation. */
  predicate SameConfig(c: Cache, d: Cache) {
    c.defaultTTL == d.defaultTTL && c.mem.size == d.mem.size
  }

  /** The local tier holds an entry for `id` that is still fresh at `now`
      (the expiry comparison is strict). */
  predicate Fresh(c: Cache, id: string, now: int) {
    id in c.mem.entries && now < c.mem.entries[id].expiresAt
  }

  /** The least recently used local key, the next one a new key would
      evict. */
  function LeastRecent(c: Cache): string
    requires Valid(c) && |c.mem.entries| > 0
  {
    Lru.CountIsOrderLength(c.mem);
    c.mem.order[0]
  }

  /** Builds a cache with an empty local tier. A non-positive capacity is a
      configuration error; without a supplied client the store found at
      `redisAddr` (`dialled`) is used and must answer a ping over `link`. */
  function New(opts: Options, dialled: Remote.Store, link: Remote.Link): (r: Result<Cache, CacheError>)
    ensures r.Ok? <==> opts.maxMemEntries > 0 && (opts.redisClient.Some? || link.Up?)
    ensures opts.maxMemEntries <= 0 ==>
      r == Err(ConfigError("failed to create memory cache: " + Lru.SizeError))
    ensures opts.maxMemEntries > 0 && opts.redisClient.None? && link.Down? ==>
      r == Err(ConnectionError("failed to connect to redis: " + link.cause))
    ensures r.Ok? ==>
      && Valid(r.value)
      && r.value.mem.entries == map[]
      && Capacity(r.value) == opts.maxMemEntries
      && r.value.defaultTTL == opts.defaultTTL
      && r.value.redis == (if opts.redisClient.Some? then opts.redisClient.value else dialled)
  {
    match Lru.New<string, Entry>(opts.maxMemEntries)
    case Err(e) => Err(ConfigError("failed to create memory cache: " + e))
    case Ok(mem) =>
      if opts.redisClient.Some? then
        Ok(Cache(mem, opts.redisClient.value, opts.defaultTTL))
      else
        match Remote.Ping(link)
        case Err(e) => Err(ConnectionError("failed to connect to redis: " + e))
        case Ok(_) => Ok(Cache(mem, dialled, opts.defaultTTL))
  }

  /** Read-through lookup. A fresh local entry answers at once; a stale one
      is evicted first and the lookup falls back to the remote store. */
  function Get(c: Cache, id: string, now: int, link: Remote.Link): (r: GetStep)
    requires Valid(c)
    ensures Valid(r.cache) && SameConfig(r.cache, c) && r.cache.redis == c.redis
    // a fresh local hit: the result depends on neither the link nor the remote contents
    ensures Fresh(c, id, now) ==>
      r.result == Ok(c.mem.entries[id].value) && r.cache.mem.entries == c.mem.entries
    // ... and the hit makes `id` the most recently used key, the others keeping their order
    ensures Fresh(c, id, now) ==> r.cache.mem.order == Without(c.mem.order, id) + [id]
    // otherwise the stale or missing entry is gone before the remote store is asked
    ensures !Fresh(c, id, now) ==>
      r == Fallback(c.(mem := Lru.Remove(c.mem, id)), id, now, link)
    // no stale value is ever served
    ensures r.result.Ok? ==>
      || (Fresh(c, id, now) && r.result.value == c.mem.entries[id].value)
      || (link.Up? && id in c.redis && r.result.value == c.redis[id])
  {
    var lookup := Lru.Get(c.mem, id);
    if lookup.value.Some? && now < lookup.value.value.expiresAt then
      GetStep(c.(mem := lookup.lru), Ok(lookup.value.value.value))
    else
      var mem := if lookup.value.Some? then Lru.Remove(lookup.lru, id) else lookup.lru;
      Lru.RemoveAfterGet(c.mem, id);
      Fallback(c.(mem := mem), id, now, link)
  }

  /** The remote half of `Get`, entered with no local entry for `id`: a
      value is copied into the local tier with a new expiry, the nil reply
      is `NotFound`, and any other failure is a wrapped error that is not
      `NotFound`; neither error adds a local entry. */
  function Fallback(c: Cache, id: string, now: int, link: Remote.Link): (r: GetStep)
    requires Valid(c) && id !in c.mem.entries
    ensures Valid(r.cache) && SameConfig(r.cache, c) && r.cache.redis == c.redis
    ensures link.Up? && id in c.redis ==>
      && r.result == Ok(c.redis[id])
      && id in r.cache.mem.entries
      && r.cache.mem.entries[id] == Entry(c.redis[id], now + c.defaultTTL)
      && Last(r.cache.mem.order) == id
    ensures link.Up? && id !in c.redis ==> r == GetStep(c, Err(NotFound))
    ensures link.Down? ==> r == GetStep(c, Err(RemoteError("redis GET error: " + link.cause)))
    ensures r.result.Err? ==> (IsNotFound(r.result.error) <==> link.Up?)
    // other keys keep their entries, save for at most one eviction
    ensures forall j :: j in r.cache.mem.entries && j != id ==>
      j in c.mem.entries && r.cache.mem.entries[j] == c.mem.entries[j]
    ensures forall j :: j in c.mem.entries && j !in r.cache.mem.entries ==> j == LeastRecent(c)
  {
    match Remote.Get(c.redis, id, link)
    case Found(v) =>
      var added := Lru.Add(c.mem, id, Entry(v, now + c.defaultTTL));
      GetStep(c.(mem := added.lru), Ok(v))
    case Nil =>
      GetStep(c, Err(NotFound))
    case Failed(cause) =>
      GetStep(c, Err(RemoteError("redis GET error: " + cause)))
  }

  /** Write-through: the local tier gets the value with a new expiry whether
      or not the key was held, then the remote store gets it too. Only a new
      key arriving at a full local tier displaces another key, and then
      exactly the least recently used one. */
  function Set(c: Cache, id: string, value: Bytes, now: int): (r: Cache)
    requires Valid(c)
    ensures Valid(r) && SameConfig(r, c)
    ensures id in r.mem.entries && r.mem.entries[id] == Entry(value, now + c.defaultTTL)
    // the written key becomes the most recently used
    ensures Last(r.mem.order) == id
    ensures id in r.redis && r.redis[id] == value
    ensures forall j :: j != id && j in c.redis ==> j in r.redis && r.redis[j] == c.redis[j]
    ensures r.redis.Keys == c.redis.Keys + {id}
    ensures forall j :: j != id && j in r.mem.entries ==>
      j in c.mem.entries && r.mem.entries[j] == c.mem.entries[j]
    ensures forall j :: j in c.mem.entries && j !in r.mem.entries ==>
      id !in c.mem.entries && |c.mem.entries| == Capacity(c) && j == LeastRecent(c)
    ensures id !in c.mem.entries && |c.mem.entries| == Capacity(c) ==>
      LeastRecent(c) !in r.mem.entries
  {
    Cache(WriteLocal(c, id, Entry(value, now + c.defaultTTL)), Remote.Set(c.redis, id, value), c.defaultTTL)
  }

  /** The local half of `Set`: an LRU add of the new entry. */
  function WriteLocal(c: Cache, id: string, e: Entry): (m: Lru.LruCache<string, Entry>)
    requires Valid(c)
    ensures Lru.Valid(m) && m.size == c.mem.size
    ensures id in m.entries && m.entries[id] == e
    ensures Last(m.order) == id
    ensures forall j :: j != id && j in m.entries ==>
      j in c.mem.entries && m.entries[j] == c.mem.entries[j]
    ensures forall j :: j in c.mem.entries && j !in m.entries ==>
      id !in c.mem.entries && |c.mem.entries| == Capacity(c) && j == LeastRecent(c)
    ensures id !in c.mem.entries && |c.mem.entries| == Capacity(c) ==>
      LeastRecent(c) !in m.entries
  {
    Lru.CountIsOrderLength(c.mem);
    Lru.Add(c.mem, id, e).lru
  }

  /** Removes the key from both tiers; every other key is left as it was. */
  function Purge(c: Cache, id: string): (r: Cache)
    requires Valid(c)
    ensures Valid(r) && SameConfig(r, c)
    ensures id !in r.mem.entries && id !in r.redis
    ensures r.mem.entries == c.mem.entries - {id}
    ensures r.redis == c.redis - {id}
    ensures id !in c.mem.entries && id !in c.redis ==> r == c
  {
    Cache(Lru.Remove(c.mem, id), Remote.Del(c.redis, id), c.defaultTTL)
  }

  /** Reports the local tier only: its size, bounded by the capacity, and
      each held key exactly once. */
  function GetStats(c: Cache): (s: Stats)
    requires Valid(c)
    ensures s.memLen == |c.mem.entries| && s.memLen <= Capacity(c)
    ensures Distinct(s.memKeys) && Elems(s.memKeys) == c.mem.entries.Keys
    ensures |s.memKeys| == s.memLen
    ensures s.memHits == 0 && s.memMisses == 0 && s.memEvicts == 0
  {
    Stats(0, 0, 0, Lru.Len(c.mem), Lru.Keys(c.mem))
  }
}
