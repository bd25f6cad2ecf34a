/** An abstract model of the remote key-value store (Redis) behind the cache.
    Its contents are a map from key to bytes; whether a request reaches it is
    a `Link` argument, since transport failures come from outside the model.
    The store's own expiry clock is not modelled. */
module Remote {
  import opened Results

  type Bytes = seq<bv8>

  type Store = map<string, Bytes>

  /** Whether the round trip of one request succeeds, and why not if it does
      not. */
  datatype Link = Up | Down(cause: string)

  /** The three outcomes of a remote GET: the bytes, the `redis.Nil` reply
      for an absent key, or any other failure. */
  datatype Reply = Found(bytes: Bytes) | Nil | Failed(cause: string)

  function Get(s: Store, k: string, link: Link): (r: Reply)
    ensures r.Failed? <==> link.Down?
    ensures r.Failed? ==> r.cause == link.cause
    ensures r.Nil? <==> link.Up? && k !in s
    ensures r.Found? <==> link.Up? && k in s
    ensures r.Found? ==> r.bytes == s[k]
  {
    match link
    case Down(cause) => Failed(cause)
    case Up => if k in s then Found(s[k]) else Nil
  }

  /** A SET overwrites one key and leaves the others alone. */
  function Set(s: Store, k: string, v: Bytes): (r: Store)
    ensures k in r && r[k] == v
    ensures forall j :: j in s && j != k ==> j in r && r[j] == s[j]
    ensures r.Keys == s.Keys + {k}
  {
    s[k := v]
  }

  /** A DEL drops one key; deleting an absent key changes nothing. */
  function Del(s: Store, k: string): (r: Store)
    ensures k !in r
    ensures forall j :: j in s && j != k ==> j in r && r[j] == s[j]
    ensures r.Keys == s.Keys - {k}
    ensures k !in s ==> r == s
  {
    s - {k}
  }

  /** The liveness check run when the cache dials its own connection. */
  function Ping(link: Link): (r: Result<string, string>)
    ensures r.Ok? <==> link.Up?
  {
    match link
    case Up => Ok("PONG")
    case Down(cause) => Err(cause)
  }
}
