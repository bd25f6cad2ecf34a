/** Facts about duplicate-free sequences, used to model the recency list of
    the in-memory LRU store. */
module Seqs {

  /** No element occurs twice. */
  predicate Distinct<T(==)>(s: seq<T>) {
    forall i, j :: 0 <= i < j < |s| ==> s[i] != s[j]
  }

  /** The set of elements of a sequence. */
  function Elems<T(==)>(s: seq<T>): set<T>
  {
    set x | x in s
  }

  /** The last element: the most recently used key of a recency list. */
  function Last<T>(s: seq<T>): T
    requires |s| > 0
  {
    s[|s| - 1]
  }

  lemma DistinctCons<T>(x: T, s: seq<T>)
    requires x !in s && Distinct(s)
    ensures Distinct([x] + s)
  {
  }

  lemma DistinctTail<T>(s: seq<T>)
    requires |s| > 0 && Distinct(s)
    ensures Distinct(s[1..]) && s[0] !in s[1..]
  {
  }

  lemma ElemsSplit<T>(s: seq<T>)
    requires |s| > 0
    ensures Elems(s) == {s[0]} + Elems(s[1..])
  {
  }

  lemma ElemsCons<T>(x: T, s: seq<T>)
    ensures Elems([x] + s) == {x} + Elems(s)
  {
  }

  /** `s` with every occurrence of `x` dropped and the rest kept in order. */
  function Without<T(==)>(s: seq<T>, x: T): (r: seq<T>)
    ensures Elems(r) == Elems(s) - {x}
    ensures x !in s ==> r == s
    ensures Distinct(s) ==> Distinct(r)
    ensures Distinct(s) && x in s ==> |r| == |s| - 1
    decreases |s|
  {
    if |s| == 0 then []
    else
      var rest := Without(s[1..], x);
      ElemsSplit(s);
      ElemsCons(s[0], rest);
      if s[0] == x then
        (if Distinct(s) then DistinctTail(s); rest else rest)
      else
        (if Distinct(s) then DistinctTail(s); DistinctCons(s[0], rest); [s[0]] + rest
         else [s[0]] + rest)
  }

  /** A duplicate-free sequence has as many elements as its element set. */
  lemma {:induction false} DistinctCard<T>(s: seq<T>)
    requires Distinct(s)
    ensures |Elems(s)| == |s|
  {
    if |s| > 0 {
      DistinctTail(s);
      DistinctCard(s[1..]);
      ElemsSplit(s);
    }
  }

  /** Appending a fresh element keeps a sequence duplicate-free. */
  lemma DistinctSnoc<T>(s: seq<T>, x: T)
    requires Distinct(s) && x !in s
    ensures Distinct(s + [x])
  {
  }

  /** Appending the removed element changes nothing after removal. */
  lemma {:induction false} WithoutSnoc<T>(s: seq<T>, k: T)
    ensures Without(s + [k], k) == Without(s, k)
    decreases |s|
  {
    if |s| == 0 {
      assert Without([k], k) == Without([k][1..], k);
    } else {
      assert (s + [k])[1..] == s[1..] + [k];
      WithoutSnoc(s[1..], k);
    }
  }

  /** Removing an element twice is the same as removing it once. */
  lemma WithoutIdempotent<T>(s: seq<T>, k: T)
    ensures Without(Without(s, k), k) == Without(s, k)
  {
  }
}
