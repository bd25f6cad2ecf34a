# Two-tier read-through cache (CacheCraft) in Dafny

This project models the cache orchestrator of `pkg/cache/cache.go`: a bounded
in-memory LRU store whose entries carry an absolute expiry time, in front of a
shared remote key-value store (Redis). The model is functional: a `Cache`
value holds the LRU state (a recency-ordered key sequence and a map), the
remote store's contents (a map) and the default TTL. The operations are pure
functions. `Get` returns the next state together with the result, `Set` and
`Purge` return only the next state, and `GetStats` returns only the `Stats`.
`Get` and `Set` also take the wall-clock reading `now` as an integer.

Files:

- `results.dfy`: `Option` and `Result`, standing in for Go's `(T, error)` pairs.
- `seqs.dfy`: duplicate-free sequences, used for the LRU's recency list.
- `lru.dfy`: the LRU collaborator (hashicorp golang-lru). It is modelled
  abstractly. `order[0]` is the least recently used key, and the last key is
  the most recently used one. `Get` on a hit moves the key to the most recent
  position. `Add` inserts or overwrites a key and makes it the most recent.
  When a new key takes the store over capacity, `Add` evicts the least recent
  key. `Remove`, `Len` and `Keys` (oldest first) follow from this.
- `remote.dfy`: the remote collaborator. Its contents are a map. A `Link`
  argument (`Up` or `Down(cause)`) decides whether one request gets through.
  `Get` answers `Found(bytes)`, `Nil` or `Failed(cause)`.
- `cache.dfy`: `Entry` (`cacheEntry`), `Options`, `Cache`, `CacheError`
  (`ErrNotFound` and the wrapped errors), `Stats`, and the operations `New`,
  `Get` (split into the local step and `Fallback`, its remote half), `Set`,
  `Purge` and `GetStats`.
- `properties.dfy`: lemmas that relate several operations. They cover read
  after write, read after purge, repopulation, eviction, the statistics, the
  scenarios of `cache_test.go`, and the capacity bound over any history of
  operations (`Run`).

Two facts about the code shape the model:

- `New` does not check the TTL, so any TTL is accepted, including a zero or
  negative one.
- `Stats` returns `MemHits`, `MemMisses` and `MemEvicts`, but the code never
  fills them in, so they are always zero.

## Model

| member | source | states |
|---|---|---|
| Lru.New | pkg/cache/cache.go:60-63 | constructing the local store succeeds exactly when the capacity is positive, and then it is empty; otherwise it fails with the size error |
| Lru.Get | pkg/cache/cache.go:91 | a lookup hits exactly when the key is held and returns its value; a hit moves the key to the most recent position and keeps the other keys in their order; a miss changes nothing; the entries never change |
| Lru.Add | pkg/cache/cache.go:103-106 | after an add, the key maps to the new value and is the most recent; an eviction happens exactly when a new key meets a full store, and it removes only the least recent key; the recency order becomes the old order without the key (minus its first key on eviction), followed by the key; otherwise no other entry changes |
| Lru.Remove | pkg/cache/cache.go:128 | removing drops exactly that key from the entries and from the recency order, keeping the other keys in order; removing a key that is not held changes nothing |
| Lru.Len | pkg/cache/cache.go:137 | the reported length equals the number of held entries and never exceeds the capacity |
| Lru.Keys | pkg/cache/cache.go:138 | the listed keys are exactly the held keys, each once |
| Lru.CountIsOrderLength | pkg/cache/cache.go:137 | the recency list has as many elements as the store has entries |
| Lru.ReAddEvictsNothing | pkg/cache/cache.go:96-106 | removing a held key and adding it back evicts nothing and changes only that key's value |
| Lru.EvictsLeastRecent | pkg/cache/cache.go:121 | a new key added to a full store makes the least recent key a miss and keeps every other key |
| Lru.AddKeepsRecencyOrder | pkg/cache/cache.go:103-106 | an add leaves the other keys in their recency order, minus the least recent key when it is evicted |
| Lru.RemoveAfterGet | pkg/cache/cache.go:91-96 | a lookup followed by a removal of the same key equals the removal alone |
| Lru.ReadKeySurvivesEviction | pkg/cache/cache.go:91 | with capacity two, after adding a and b and looking up a, adding a third key evicts b and keeps a |
| Remote.Get | pkg/cache/cache.go:100 | a remote read fails exactly when the link is down; otherwise it finds the stored bytes, or reports nil for an absent key |
| Remote.Set | pkg/cache/cache.go:123 | a remote write stores the value under the key and leaves every other key alone |
| Remote.Del | pkg/cache/cache.go:129 | a remote delete removes the key, leaves every other key alone, and changes nothing when the key is absent |
| Remote.Ping | pkg/cache/cache.go:74 | the liveness check succeeds exactly when the link is up |
| Cache.New | pkg/cache/cache.go:59-85 | construction succeeds exactly when the capacity is positive and either a client is supplied or the dialled store answers the ping; a bad capacity is a configuration error and a failed ping is a connection error; on success the local tier is empty and the remote store is the supplied or dialled one |
| Cache.Get | pkg/cache/cache.go:89-97 | a fresh local entry (strictly `now < expiresAt`) is returned, the remote store is not consulted, and the key becomes the most recently used; otherwise the stale or missing local entry is removed before the remote lookup; no value is served unless it comes from a fresh local entry or from the remote store; the remote store is never changed |
| Cache.Fallback | pkg/cache/cache.go:99-114 | a remote hit is returned and copied locally with expiry `now + defaultTTL` as the most recent key; a nil reply is `NotFound` and a failure is a wrapped error that is not `NotFound`; neither error changes the state; other local entries survive except at most the least recent one |
| Cache.Set | pkg/cache/cache.go:118-124 | after a write, the local entry is the value with expiry `now + defaultTTL` whether or not the key was held, and it is the most recently used key; the remote store maps the key to the value; no other key changes in either tier; only a new key meeting a full local tier displaces a key, and then exactly the least recent one |
| Cache.Purge | pkg/cache/cache.go:127-130 | purging removes the key from both tiers and leaves every other key; purging an absent key changes nothing |
| Cache.GetStats | pkg/cache/cache.go:133-140 | `MemLen` is the number of local entries and at most the capacity; `MemKeys` lists exactly the local keys, each once; the counters are zero |
| CacheProperties.LocalHitIgnoresRemote | pkg/cache/cache.go:91-95 | a local hit gives the same answer for any link and any remote contents |
| CacheProperties.ExpiredEntryIsIgnored | pkg/cache/cache.go:93-96 | when `now >= expiresAt`, the lookup behaves exactly as if the entry were absent, and any value it returns comes from the remote store |
| CacheProperties.ExpiredRefreshEvictsNothing | pkg/cache/cache.go:96-106 | refreshing an expired entry from the remote store replaces only that entry and evicts no other key |
| CacheProperties.RepopulatedEntryServesLocally | pkg/cache/cache.go:100-107 | after a remote hit, every lookup before `now + defaultTTL` is a local hit that returns the same value, whatever the link |
| CacheProperties.ErrorLeavesNoLocalEntry | pkg/cache/cache.go:109-114 | a lookup that ends in `NotFound` or in a remote failure leaves no local entry for the key |
| CacheProperties.RemoteFailureIsNotNotFound | pkg/cache/cache.go:109-114 | a remote failure is an error that is not `NotFound`, and a nil reply is exactly `NotFound` |
| CacheProperties.SetThenGet | pkg/cache/cache.go:118-121 | a lookup before the new expiry returns the value just written, over any link |
| CacheProperties.SetThenGetNow | pkg/cache/cache_test.go:41-46 | with a positive TTL, a lookup at the time of the write returns the written value |
| CacheProperties.ZeroTtlWriteServedFromRemote | pkg/cache/cache.go:118-123 | with a zero TTL the local copy is never fresh at or after the write, and a later lookup over an up link returns the written value from the remote store, which is written without an expiry |
| CacheProperties.PurgeIdempotent | pkg/cache/cache.go:127-130 | purging twice equals purging once, and purging a key absent from both tiers is a no-op |
| CacheProperties.PurgeThenGet | pkg/cache/cache.go:127-130 | with no other writer, a lookup after a purge is `NotFound` |
| CacheProperties.SetPurgeGet | pkg/cache/cache_test.go:81-88 | writing, purging and then reading gives `NotFound` |
| CacheProperties.FullTierEvictsLeastRecent | pkg/cache/cache.go:121 | writing a new key to a full local tier makes the least recent key a local miss; at the same `now`, that key is still served from the remote store if the store holds it |
| CacheProperties.ReadKeySurvivesEviction | pkg/cache/cache.go:89-124 | with capacity two: after writing a and b and a fresh read of a, writing a third key evicts b and keeps a with its value; eviction follows access, not insertion |
| CacheProperties.TwoSetsStats | pkg/cache/cache_test.go:99-104 | two writes of distinct keys into a new cache with capacity of at least two give `MemLen == 2`, and the reported keys are exactly those two |
| CacheProperties.CacheFlow | pkg/cache/cache_test.go:51-91 | in a capacity-one cache: miss, write, local hit, remote hit once the local copy is dropped, purge, then miss again |
| CacheProperties.CapacityOneScenario | pkg/cache/cache.go:89-124 | with capacity one, writing a second key evicts the first locally; the first is then served from the remote store and the refill evicts the second |
| CacheProperties.Run | pkg/cache/cache.go:89-130 | any history of lookups, writes and purges keeps the LRU invariant and the configuration |
| CacheProperties.BoundedAfterAnyHistory | pkg/cache/cache.go:33-34 | from construction on, after any history, the local tier holds at most `MaxMemEntries` entries, and the statistics report exactly its keys |

## Left out

- `main.go`: a demo made of logging, sleeps and a fake database fetch. It has no cache logic.
- Redis client construction, addresses, `context.Context` and the transport. The store reached at `RedisAddr` and the outcome of the ping are arguments of `New`.
- The internals of the LRU library: its linked list, its locking and concurrent use. It is modelled by a recency sequence and a map. The library is not part of this model. Its behaviour (move-to-front on `Get`, overwrite without eviction on `Add`, error on a non-positive size) is stated from its documented API.
- Concurrency and cross-tier atomicity. Every operation is one sequential step.
- The remote store's own expiry. `Set` passes `defaultTTL` to Redis, so with a positive TTL the remote copy expires too. The model's remote contents are a plain map whose keys never expire. Every claim about a remote read is therefore conditional on the map still holding the key at that time. The only claim about a read long after a write is `ZeroTtlWriteServedFromRemote`, and it is restricted to a zero TTL, where the remote copy is written without an expiry. Repopulating the local tier does not refresh the remote TTL in the code, and the model has no remote TTL to refresh.
- Aliasing of values. The code stores the caller's `[]byte` slice in the local entry without copying it (line 121), and returns the stored slice itself on a local hit (line 94). A remote hit stores and returns the same slice (lines 103-107). A caller that changes such a slice afterwards changes what later local hits return, while Redis keeps the old bytes. The model's values are immutable byte sequences, so every claim about a returned value, such as `SetThenGet`, `RepopulatedEntryServesLocally`, `Cache.Set` and `Cache.Get`, assumes callers do not change the slices they pass in or get back.
- Remote write and delete failures in `Set` and `Purge`. The code ignores them, so the model always applies the write or delete.
- `Remove`'s presence flag is not modelled. `Lru.Add` does return its eviction flag, but `Cache.Set` and `Cache.Fallback` ignore it, as the code does.
- Wall-clock time. Each operation takes one integer `now`. `Get` reads the clock twice (lines 93 and 105), but the model uses the same `now` for the expiry check and for the new expiry.
- Overflow of Go's `time.Time` and `time.Duration` (int64 nanoseconds). Times and TTLs are unbounded integers.
- The type assertion at line 92. The local tier holds only `Entry` values.
- Error wrapping. The `%w` chains are kept as message strings, and `errors.Is(err, ErrNotFound)` is the predicate `IsNotFound`.
- The Go `Stats` method is named `GetStats`, because `Stats` is the name of its result datatype.
