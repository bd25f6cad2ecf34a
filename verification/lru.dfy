/** An abstract model of the bounded in-memory LRU store the cache keeps its
    hot entries in (the `lru.Cache` of hashicorp/golang-lru). The library's
    linked list and lock are replaced by a recency-ordered key sequence:
    `order[0]` is the least recently used key and the last element the most
    recently used one, which is also the order in which `Keys` lists them. */
module Lru {
  import opened Results
  import opened Seqs

  datatype LruCache<K, V> = LruCache(order: seq<K>, entries: map<K, V>, size: int)

  /** Representation invariant of every store the library hands out: a
      positive capacity, each held key listed exactly once in the recency
      order, and never more keys than the capacity. */
  predicate Valid<K, V>(l: LruCache<K, V>) {
    && l.size > 0
    && Distinct(l.order)
    && Elems(l.order) == l.entries.Keys
    && |l.order| <= l.size
  }

  /** The number of held keys equals the length of the recency list. */
  lemma CountIsOrderLength<K, V>(l: LruCache<K, V>)
    requires Valid(l)
    ensures |l.entries| == |l.order|
  {
    DistinctCard(l.order);
    assert |l.entries| == |l.entries.Keys|;
  }

  /** The library's refusal of a non-positive capacity. */
  const SizeError := "must provide a positive size"

  /** Construction refuses a non-positive capacity and otherwise yields an
      empty store. */
  function New<K, V>(size: int): (r: Result<LruCache<K, V>, string>)
    ensures r.Ok? <==> size > 0
    ensures r.Err? ==> r.error == SizeError
    ensures r.Ok? ==> Valid(r.value) && r.value.entries == map[] && r.value.size == size
  {
    if size <= 0 then Err(SizeError)
    else Ok(LruCache([], map[], size))
  }

  /** Moves a held key to the most recent position. */
  function Touch<K, V>(l: LruCache<K, V>, k: K): (r: LruCache<K, V>)
    requires Valid(l) && k in l.entries
    ensures Valid(r) && r.entries == l.entries && r.size == l.size
    ensures r.order == Without(l.order, k) + [k]
  {
    var rest := Without(l.order, k);
    var order := rest + [k];
    DistinctSnoc(rest, k);
    assert Elems(order) == Elems(rest) + {k};
    LruCache(order, l.entries, l.size)
  }

  datatype Lookup<K, V> = Lookup(value: Option<V>, lru: LruCache<K, V>)

  /** Looks a key up. A hit returns the held value and makes the key the most
      recently used; the set of held entries never changes. */
  function Get<K, V>(l: LruCache<K, V>, k: K): (r: Lookup<K, V>)
    requires Valid(l)
    ensures Valid(r.lru) && r.lru.entries == l.entries && r.lru.size == l.size
    ensures r.value.Some? <==> k in l.entries
    ensures r.value.Some? ==>
      r.value.value == l.entries[k] && r.lru.order == Without(l.order, k) + [k]
    ensures r.value.None? ==> r.lru == l
  {
    if k in l.entries then Lookup(Some(l.entries[k]), Touch(l, k))
    else Lookup(None, l)
  }

  datatype Added<K, V> = Added(lru: LruCache<K, V>, evicted: bool)

  /** Places a key that is not held at the most recent position, as the
      library's push to the front of its list. */
  function Push<K, V>(l: LruCache<K, V>, k: K, v: V): (r: LruCache<K, V>)
    requires Valid(l) && k !in l.entries
    ensures Distinct(r.order) && Elems(r.order) == r.entries.Keys
    ensures r.order == l.order + [k] && r.entries == l.entries[k := v] && r.size == l.size
  {
    DistinctSnoc(l.order, k);
    assert Elems(l.order + [k]) == Elems(l.order) + {k};
    LruCache(l.order + [k], l.entries[k := v], l.size)
  }

  /** Drops the least recently used key of a list that went over capacity
      by one. */
  function RemoveOldest<K, V>(l: LruCache<K, V>): (r: LruCache<K, V>)
    requires Distinct(l.order) && Elems(l.order) == l.entries.Keys
    requires 0 < l.size && |l.order| == l.size + 1
    ensures Valid(r) && r.size == l.size
    ensures r.order == l.order[1..] && r.entries == l.entries - {l.order[0]}
  {
    DistinctTail(l.order);
    ElemsSplit(l.order);
    LruCache(l.order[1..], l.entries - {l.order[0]}, l.size)
  }

  /** Adds a key that is not held: it becomes the most recently used one,
      and if that takes the store over capacity the least recently used key
      is evicted. */
  function Insert<K, V>(l: LruCache<K, V>, k: K, v: V): (r: Added<K, V>)
    requires Valid(l) && k !in l.entries
    ensures Valid(r.lru) && r.lru.size == l.size
    ensures r.evicted <==> |l.order| == l.size
    ensures r.evicted ==> r.lru.order == l.order[1..] + [k]
    ensures r.evicted ==> l.order[0] != k && r.lru.entries == l.entries[k := v] - {l.order[0]}
    ensures !r.evicted ==> r.lru.order == l.order + [k] && r.lru.entries == l.entries[k := v]
  {
    var pushed := Push(l, k, v);
    if |pushed.order| > l.size then
      assert pushed.order[1..] == l.order[1..] + [k];
      Added(RemoveOldest(pushed), true)
    else
      Added(pushed, false)
  }

  /** Inserts or overwrites a key and makes it the most recently used. A new
      key that takes the store over capacity evicts the least recently used
      key, and `evicted` reports exactly that. */
  function Add<K, V>(l: LruCache<K, V>, k: K, v: V): (r: Added<K, V>)
    requires Valid(l)
    ensures Valid(r.lru) && r.lru.size == l.size
    ensures k in r.lru.entries && r.lru.entries[k] == v
    ensures Last(r.lru.order) == k
    ensures r.evicted <==> k !in l.entries && |l.order| == l.size
    ensures r.evicted ==> l.order[0] != k && r.lru.entries == l.entries[k := v] - {l.order[0]}
    ensures !r.evicted ==> r.lru.entries == l.entries[k := v]
    // the key moves to the back; the other keys keep their relative order
    ensures !r.evicted ==> r.lru.order == Without(l.order, k) + [k]
    ensures r.evicted ==> r.lru.order == l.order[1..] + [k]
  {
    if k in l.entries then
      var t := Touch(l, k);
      Added(t.(entries := l.entries[k := v]), false)
    else
      Insert(l, k, v)
  }

  /** Adding a key leaves the recency order of the other keys as it was,
      minus the least recent key when that one is evicted. */
  lemma AddKeepsRecencyOrder<K, V>(l: LruCache<K, V>, k: K, v: V)
    requires Valid(l)
    ensures !Add(l, k, v).evicted ==> Without(Add(l, k, v).lru.order, k) == Without(l.order, k)
    ensures Add(l, k, v).evicted ==> Without(Add(l, k, v).lru.order, k) == l.order[1..]
  {
    var r := Add(l, k, v);
    if r.evicted {
      DistinctTail(l.order);
      WithoutSnoc(l.order[1..], k);
    } else {
      WithoutSnoc(Without(l.order, k), k);
      WithoutIdempotent(l.order, k);
    }
  }

  /** Removing a key after a lookup of it is removing it outright: the
      lookup's move to the back is undone by the removal. */
  lemma RemoveAfterGet<K, V>(l: LruCache<K, V>, k: K)
    requires Valid(l)
    ensures Remove(Get(l, k).lru, k) == Remove(l, k)
  {
    if k in l.entries {
      WithoutSnoc(Without(l.order, k), k);
      WithoutIdempotent(l.order, k);
    }
  }

  /** A new key added while there is room joins the held keys and evicts
      nothing. */
  lemma AddWithRoomGrows<K, V>(l: LruCache<K, V>, k: K, v: V)
    requires Valid(l) && k !in l.entries && |l.order| < l.size
    ensures !Add(l, k, v).evicted
    ensures Add(l, k, v).lru.entries.Keys == l.entries.Keys + {k}
    ensures |Add(l, k, v).lru.entries| == |l.entries| + 1
  {
    var r := Add(l, k, v).lru;
    assert r.entries.Keys == l.entries.Keys + {k};
    assert |r.entries.Keys| == |l.entries.Keys| + 1;
  }

  /** Two distinct keys added to an empty store with room for both are
      both held, the first one the less recent. */
  lemma TwoAddsToEmpty<K, V>(l: LruCache<K, V>, a: K, b: K, va: V, vb: V)
    requires Valid(l) && l.entries == map[] && l.size >= 2 && a != b
    ensures Add(Add(l, a, va).lru, b, vb).lru.order == [a, b]
    ensures Add(Add(l, a, va).lru, b, vb).lru.entries == map[a := va, b := vb]
  {
    CountIsOrderLength(l);
    assert l.order == [];
    assert Add(l, a, va).lru.order == [a];
  }

  /** With room for two, a key looked up after a second key was added
      outlives that second key when a third key is added. */
  lemma ReadKeySurvivesEviction<K, V>(l: LruCache<K, V>, a: K, b: K, d: K, va: V, vb: V, vd: V)
    requires Valid(l) && l.entries == map[] && l.size == 2
    requires a != b && a != d && b != d
    ensures var l3 := Get(Add(Add(l, a, va).lru, b, vb).lru, a).lru;
      var l4 := Add(l3, d, vd).lru;
      && a in l4.entries && l4.entries[a] == va
      && b !in l4.entries
      && d in l4.entries
  {
    TwoAddsToEmpty(l, a, b, va, vb);
    var l2 := Add(Add(l, a, va).lru, b, vb).lru;
    GetOlderOfTwo(l2, a, b);
    CountIsOrderLength(Get(l2, a).lru);
  }

  /** Looking up the older of two held keys makes the other one the least
      recent. */
  lemma GetOlderOfTwo<K, V>(l: LruCache<K, V>, a: K, b: K)
    requires Valid(l) && l.order == [a, b] && a != b
    ensures Get(l, a).lru.order == [b, a]
  {
    assert Without([a, b], a) == [b] by {
      assert [a, b][1..] == [b];
      assert Without([b], a) == [b];
    }
  }

  /** Removes a key if held; a key that is not held leaves the store as it
      is. */
  function Remove<K, V>(l: LruCache<K, V>, k: K): (r: LruCache<K, V>)
    requires Valid(l)
    ensures Valid(r) && r.size == l.size
    ensures r.entries == l.entries - {k}
    ensures r.order == Without(l.order, k)
    ensures k !in l.entries ==> r == l
  {
    if k in l.entries then LruCache(Without(l.order, k), l.entries - {k}, l.size)
    else l
  }

  /** Removing a key twice is removing it once. */
  lemma RemoveRemove<K, V>(l: LruCache<K, V>, k: K)
    requires Valid(l)
    ensures Remove(Remove(l, k), k) == Remove(l, k)
  {
  }

  /** Removing a held key and adding it back frees the slot it takes, so
      nothing is evicted: only that key's value changes. */
  lemma ReAddEvictsNothing<K, V>(l: LruCache<K, V>, k: K, v: V)
    requires Valid(l) && k in l.entries
    ensures !Add(Remove(l, k), k, v).evicted
    ensures Add(Remove(l, k), k, v).lru.entries == l.entries[k := v]
  {
  }

  /** The number of held entries, never above the capacity. */
  function Len<K, V>(l: LruCache<K, V>): (n: nat)
    requires Valid(l)
    ensures n == |l.entries| && n <= l.size
  {
    CountIsOrderLength(l);
    |l.order|
  }

  /** The held keys, each once, least recently used first. */
  function Keys<K, V>(l: LruCache<K, V>): (ks: seq<K>)
    requires Valid(l)
    ensures Distinct(ks) && Elems(ks) == l.entries.Keys && |ks| == |l.entries|
  {
    CountIsOrderLength(l);
    l.order
  }

  /** An added value is read back. */
  lemma AddThenGet<K, V>(l: LruCache<K, V>, k: K, v: V)
    requires Valid(l)
    ensures Get(Add(l, k, v).lru, k).value == Some(v)
  {
  }

  /** A removed key misses. */
  lemma RemoveThenGet<K, V>(l: LruCache<K, V>, k: K)
    requires Valid(l)
    ensures Get(Remove(l, k), k).value == None
  {
  }

  /** When a store at capacity takes a new key, the least recently used key
      is the one that becomes a miss, and every other key is still held. */
  lemma EvictsLeastRecent<K, V>(l: LruCache<K, V>, k: K, v: V)
    requires Valid(l) && k !in l.entries && |l.order| == l.size
    ensures Get(Add(l, k, v).lru, l.order[0]).value == None
    ensures forall j :: j in l.entries && j != l.order[0] ==> j in Add(l, k, v).lru.entries
  {
  }
}
