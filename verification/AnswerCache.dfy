/** The answer cache of assistant/cache.py: an ordered dictionary of finished answers that
drops the entry longest unused. */
module AnswerCache {
  import opened Wrappers

  /** The ordered dictionary, oldest entry first. */
  datatype Entry<K, V> = Entry(key: K, value: V)

  type Entries<K, V> = seq<Entry<K, V>>

  function Without<K(==), V>(es: Entries<K, V>, k: K): Entries<K, V> {
    if es == [] then []
    else if es[0].key == k then Without(es[1..], k)
    else [es[0]] + Without(es[1..], k)
  }

  function Find<K(==), V>(es: Entries<K, V>, k: K): Option<V> {
    if es == [] then None
    else if es[0].key == k then Some(es[0].value)
    else Find(es[1..], k)
  }

  predicate Unique<K(==), V>(es: Entries<K, V>) {
    es == [] || (Find(es[1..], es[0].key).None? && Unique(es[1..]))
  }

  // ------------------------------------------------------- the operations

  function AfterGet<K(==), V>(es: Entries<K, V>, k: K): Entries<K, V> {
    match Find(es, k)
    case None => es
    case Some(v) => Without(es, k) + [Entry(k, v)]
  }

  /** Oldest out first, until the capacity is met. */
  function Evicted<K, V>(es: Entries<K, V>, capacity: nat): Entries<K, V> {
    if |es| > capacity then es[|es| - capacity..] else es
  }

  function AfterPut<K(==), V>(es: Entries<K, V>, k: K, v: V, capacity: nat): Entries<K, V> {
    Evicted(Without(es, k) + [Entry(k, v)], capacity)
  }

  // ------------------------------------------------------------- the class

  class Cache<K(==), V> {
    const capacity: nat
    var entries: Entries<K, V>
    var hits: nat
    var misses: nat

    ghost predicate Valid()
      reads this
    {
      Unique(entries) && |entries| <= capacity
    }

    constructor (capacity: nat)
      ensures Valid() && this.capacity == capacity && entries == [] && hits == misses == 0
    {
      this.capacity := capacity;
      entries, hits, misses := [], 0, 0;
    }

    method Get(k: K) returns (answer: Option<V>)
      requires Valid()
      modifies this`entries, this`hits, this`misses
      ensures Valid()
      ensures answer == Find(old(entries), k)
      ensures entries == AfterGet(old(entries), k)
      ensures hits == old(hits) + (if answer.Some? then 1 else 0)
      ensures misses == old(misses) + (if answer.Some? then 0 else 1)
    {
      PushUnique(entries, k);
      answer := Find(entries, k);
      if answer.Some? {
        entries := Without(entries, k) + [Entry(k, answer.value)];
        hits := hits + 1;
      } else {
        misses := misses + 1;
      }
    }

    /** `removed` counts the turns of the eviction loop. */
    method Put(k: K, answer: V) returns (ghost removed: nat)
      requires Valid()
      modifies this`entries
      ensures Valid()
      ensures entries == AfterPut(old(entries), k, answer, capacity)
      ensures removed <= 1
    {
      PushUnique(entries, k);
      entries := Without(entries, k) + [Entry(k, answer)];
      ghost var all := entries;
      removed := 0;
      while |entries| > capacity
        invariant removed <= |all| && entries == all[removed..]
        invariant removed > 0 ==> |all| - removed >= capacity
        invariant Unique(entries)
        decreases |entries|
      {
        entries := entries[1..];
        removed := removed + 1;
      }
    }

    method Clear()
      modifies this`entries, this`hits, this`misses
      ensures Valid() && entries == [] && hits == misses == 0
    {
      entries, hits, misses := [], 0, 0;
    }
  }

  // ------------------------------------------------------ facts on entries

  lemma {:induction false} FindWithout<K, V>(es: Entries<K, V>, k: K, other: K)
    ensures Find(Without(es, k), other) == if other == k then None else Find(es, other)
  {
    if es != [] {
      FindWithout(es[1..], k, other);
    }
  }

  lemma {:induction false} FindAppend<K, V>(es: Entries<K, V>, e: Entry<K, V>, k: K)
    ensures Find(es + [e], k) == if Find(es, k).Some? then Find(es, k) else if e.key == k then Some(e.value) else None
  {
    if es != [] {
      assert (es + [e])[1..] == es[1..] + [e];
      FindAppend(es[1..], e, k);
    }
  }

  lemma {:induction false} WithoutFacts<K, V>(es: Entries<K, V>, k: K)
    requires Unique(es)
    ensures Unique(Without(es, k))
    ensures |Without(es, k)| == |es| - (if Find(es, k).Some? then 1 else 0)
    ensures Find(es, k).None? ==> Without(es, k) == es
  {
    if es != [] {
      WithoutFacts(es[1..], k);
      FindWithout(es[1..], k, es[0].key);
    }
  }

  lemma {:induction false} AppendUnique<K, V>(es: Entries<K, V>, e: Entry<K, V>)
    requires Unique(es) && Find(es, e.key).None?
    ensures Unique(es + [e])
  {
    if es != [] {
      assert (es + [e])[1..] == es[1..] + [e];
      AppendUnique(es[1..], e);
      FindAppend(es[1..], e, es[0].key);
    }
  }

  /** Moving or adding a key at the young end. */
  lemma PushUnique<K, V>(es: Entries<K, V>, k: K)
    requires Unique(es)
    ensures forall v :: Unique(Without(es, k) + [Entry(k, v)])
    ensures |Without(es, k)| == |es| - (if Find(es, k).Some? then 1 else 0)
  {
    WithoutFacts(es, k);
    FindWithout(es, k, k);
    forall v {
      AppendUnique(Without(es, k), Entry(k, v));
    }
  }

  lemma {:induction false} EvictedUnique<K, V>(es: Entries<K, V>, capacity: nat)
    requires Unique(es)
    ensures Unique(Evicted(es, capacity)) && |Evicted(es, capacity)| <= capacity
  {
    if |es| > capacity {
      assert Evicted(es, capacity) == Evicted(es[1..], capacity);
      EvictedUnique(es[1..], capacity);
    }
  }
}
