/** Whole runs of the answer cache: inclusion between capacities, and the trace it remembers. */
module CacheRuns {
  import opened Wrappers
  import opened AnswerCache

  datatype Op<K, V> = Get(k: K) | Put(k: K, v: V) | Clear

  datatype State<K, V> = State(entries: Entries<K, V>, hits: nat, misses: nat)

  function Next<K(==), V>(s: State<K, V>, op: Op<K, V>, capacity: nat): State<K, V> {
    match op
    case Get(k) =>
      if Find(s.entries, k).Some? then State(AfterGet(s.entries, k), s.hits + 1, s.misses)
      else s.(misses := s.misses + 1)
    case Put(k, v) => s.(entries := AfterPut(s.entries, k, v, capacity))
    case Clear => State([], 0, 0)
  }

  function Run<K(==), V>(ops: seq<Op<K, V>>, capacity: nat): State<K, V> {
    if ops == [] then State([], 0, 0)
    else Next(Run(ops[..|ops| - 1], capacity), ops[|ops| - 1], capacity)
  }

  // -------------------------------------------------------------- inclusion

  /** `s` is a subsequence of `l`: the same entries in the same order, some left out. */
  predicate Sub<K(==), V(==)>(s: Entries<K, V>, l: Entries<K, V>) {
    s == [] || (l != [] && ((s[0] == l[0] && Sub(s[1..], l[1..])) || Sub(s, l[1..])))
  }

  lemma {:induction false} SubRefl<K, V>(s: Entries<K, V>)
    ensures Sub(s, s)
  {
    if s != [] {
      SubRefl(s[1..]);
    }
  }

  lemma {:induction false} SubShorter<K, V>(s: Entries<K, V>, l: Entries<K, V>)
    requires Sub(s, l)
    ensures |s| <= |l|
    ensures s != [] ==> Sub(s[1..], l) && Sub(s[1..], l[1..])
  {
    if s != [] {
      if s[0] == l[0] && Sub(s[1..], l[1..]) {
        SubShorter(s[1..], l[1..]);
      } else {
        SubShorter(s, l[1..]);
        if |s| > 1 {
          assert Sub(s[1..], l[1..]);
        }
      }
    }
  }

  lemma {:induction false} SubAppend<K, V>(s: Entries<K, V>, l: Entries<K, V>, e: Entry<K, V>)
    requires Sub(s, l)
    ensures Sub(s + [e], l + [e])
  {
    if l == [] {
      assert s + [e] == [e] == l + [e];
      SubRefl([e]);
    } else {
      assert (l + [e])[1..] == l[1..] + [e];
      if s == [] {
        SubAppend(s, l[1..], e);
      } else if s[0] == l[0] && Sub(s[1..], l[1..]) {
        assert (s + [e])[1..] == s[1..] + [e];
        SubAppend(s[1..], l[1..], e);
      } else {
        SubAppend(s, l[1..], e);
      }
    }
  }

  lemma {:induction false} SubWithout<K, V>(s: Entries<K, V>, l: Entries<K, V>, k: K)
    requires Sub(s, l)
    ensures Sub(Without(s, k), Without(l, k))
  {
    if s != [] {
      if s[0] == l[0] && Sub(s[1..], l[1..]) {
        SubWithout(s[1..], l[1..], k);
      } else {
        SubWithout(s, l[1..], k);
      }
    }
  }

  lemma {:induction false} SubFind<K, V>(s: Entries<K, V>, l: Entries<K, V>, k: K)
    requires Sub(s, l) && Unique(l)
    ensures Find(s, k).Some? ==> Find(l, k) == Find(s, k)
  {
    if s != [] {
      if s[0] == l[0] && Sub(s[1..], l[1..]) {
        SubFind(s[1..], l[1..], k);
      } else {
        SubFind(s, l[1..], k);
      }
    }
  }

  /** The two caches run the same operations: the small one holds a subsequence of the large one,
  and it is full unless the two are equal. */
  predicate Included<K(==), V(==)>(s: Entries<K, V>, l: Entries<K, V>, n: nat, m: nat) {
    && Unique(s) && Unique(l) && |s| <= n && |l| <= m
    && Sub(s, l) && (|s| == n || s == l)
  }

  lemma GetKeepsIncluded<K, V>(s: Entries<K, V>, l: Entries<K, V>, n: nat, m: nat, k: K)
    requires Included(s, l, n, m)
    ensures Included(AfterGet(s, k), AfterGet(l, k), n, m)
  {
    SubFind(s, l, k);
    PushUnique(s, k);
    PushUnique(l, k);
    match Find(l, k)
    case None =>
    case Some(v) =>
      var e := Entry(k, v);
      SubWithout(s, l, k);
      SubAppend(Without(s, k), Without(l, k), e);
      if Find(s, k).None? {
        WithoutFacts(s, k);
        SubInAppend(s, Without(l, k), e);
      }
  }

  lemma {:induction false} SubInAppend<K, V>(s: Entries<K, V>, l: Entries<K, V>, e: Entry<K, V>)
    requires Sub(s, l)
    ensures Sub(s, l + [e])
  {
    if s != [] {
      assert (l + [e])[1..] == l[1..] + [e];
      if s[0] == l[0] && Sub(s[1..], l[1..]) {
        SubInAppend(s[1..], l[1..], e);
      } else {
        SubInAppend(s, l[1..], e);
      }
    }
  }

  lemma PutKeepsIncluded<K, V>(s: Entries<K, V>, l: Entries<K, V>, n: nat, m: nat, k: K, v: V)
    requires Included(s, l, n, m) && n <= m
    ensures Included(AfterPut(s, k, v, n), AfterPut(l, k, v, m), n, m)
  {
    var e := Entry(k, v);
    var s1 := Without(s, k) + [e];
    var l1 := Without(l, k) + [e];
    SubFind(s, l, k);
    PushUnique(s, k);
    PushUnique(l, k);
    SubWithout(s, l, k);
    SubAppend(Without(s, k), Without(l, k), e);
    SubShorter(s1, l1);
    EvictedUnique(s1, n);
    EvictedUnique(l1, m);
  }

  /** For every run of the same operations on two caches, the smaller one's entries stay a
  subsequence of the larger one's, with equal values. */
  lemma {:induction false} InclusionAlways<K, V>(ops: seq<Op<K, V>>, n: nat, m: nat)
    requires n <= m
    ensures Included(Run(ops, n).entries, Run(ops, m).entries, n, m)
    ensures Run(ops, n).hits <= Run(ops, m).hits
  {
    if ops != [] {
      var front := ops[..|ops| - 1];
      var s, l := Run(front, n).entries, Run(front, m).entries;
      InclusionAlways(front, n, m);
      match ops[|ops| - 1]
      case Get(k) =>
        GetKeepsIncluded(s, l, n, m, k);
        SubFind(s, l, k);
      case Put(k, v) =>
        PutKeepsIncluded(s, l, n, m, k, v);
      case Clear =>
    }
  }

  /** Hence every hit in the small cache is a hit in the large one, with the same answer. */
  lemma HitsIncluded<K, V>(ops: seq<Op<K, V>>, n: nat, m: nat, k: K)
    requires n <= m && Find(Run(ops, n).entries, k).Some?
    ensures Find(Run(ops, m).entries, k) == Find(Run(ops, n).entries, k)
  {
    InclusionAlways(ops, n, m);
    SubFind(Run(ops, n).entries, Run(ops, m).entries, k);
  }

  // --------------------------------------------------------- the trace spec

  /** The distinct keys touched from the last touch of `k` on, `k` included. */
  function Since<K(==)>(log: seq<K>, k: K): set<K> {
    if log == [] then {}
    else if log[|log| - 1] == k then {k}
    else Since(log[..|log| - 1], k) + {log[|log| - 1]}
  }

  /** `k` was touched, and at most `n` distinct keys since. */
  predicate Resident<K(==)>(log: seq<K>, n: nat, k: K) {
    k in log && |Since(log, k)| <= n
  }

  /** The keys touched since the last clear: every put, and every get of a resident key. */
  function Log<K(==), V>(ops: seq<Op<K, V>>, n: nat): seq<K> {
    if ops == [] then []
    else
      var log := Log(ops[..|ops| - 1], n);
      match ops[|ops| - 1]
      case Get(k) => if Resident(log, n, k) then log + [k] else log
      case Put(k, _) => log + [k]
      case Clear => []
  }

  /** The latest value put under `k` since the last clear. */
  function LatestPut<K(==), V>(ops: seq<Op<K, V>>, k: K): Option<V> {
    if ops == [] then None
    else match ops[|ops| - 1]
      case Get(_) => LatestPut(ops[..|ops| - 1], k)
      case Put(j, v) => if j == k then Some(v) else LatestPut(ops[..|ops| - 1], k)
      case Clear => None
  }

  /** The gets since the last clear, and how many of them asked for a resident key. */
  function Gets<K, V>(ops: seq<Op<K, V>>): nat {
    if ops == [] || ops[|ops| - 1].Clear? then 0
    else Gets(ops[..|ops| - 1]) + (if ops[|ops| - 1].Get? then 1 else 0)
  }

  function ResidentGets<K(==), V>(ops: seq<Op<K, V>>, n: nat): nat {
    if ops == [] || ops[|ops| - 1].Clear? then 0
    else
      var front := ops[..|ops| - 1];
      var op := ops[|ops| - 1];
      ResidentGets(front, n) + (if op.Get? && Resident(Log(front, n), n, op.k) then 1 else 0)
  }

  /** The same run without any limit on what is kept. */
  function Ideal<K(==), V>(ops: seq<Op<K, V>>, n: nat): Entries<K, V> {
    if ops == [] then []
    else
      var all := Ideal(ops[..|ops| - 1], n);
      match ops[|ops| - 1]
      case Get(k) => if Find(Evicted(all, n), k).Some? then AfterGet(all, k) else all
      case Put(k, v) => Without(all, k) + [Entry(k, v)]
      case Clear => []
  }

  lemma {:induction false} EvictedFind<K, V>(all: Entries<K, V>, n: nat, k: K)
    requires Unique(all)
    ensures Find(Evicted(all, n), k).Some? ==> Find(Evicted(all, n), k) == Find(all, k)
  {
    if |all| > n {
      assert Evicted(all, n) == Evicted(all[1..], n);
      EvictedFind(all[1..], n, k);
    }
  }

  lemma EvictedCons<K, V>(x: Entry<K, V>, es: Entries<K, V>, n: nat)
    requires |es| >= n
    ensures Evicted([x] + es, n) == Evicted(es, n)
  {
  }

  /** A key's entry at the old end, or one of another key. */
  lemma WithoutCons<K, V>(x: Entry<K, V>, es: Entries<K, V>, e: Entry<K, V>)
    requires Unique([x] + es)
    ensures Unique(es) && |Without(es, e.key) + [e]| >= |es|
    ensures Without([x] + es, e.key) + [e]
         == if x.key == e.key then Without(es, e.key) + [e] else [x] + (Without(es, e.key) + [e])
  {
    assert ([x] + es)[1..] == es;
    WithoutFacts(es, e.key);
  }

  /** Pushing a key commutes with eviction. */
  lemma {:induction false} EvictedPush<K, V>(all: Entries<K, V>, n: nat, e: Entry<K, V>)
    requires Unique(all)
    ensures Evicted(Without(all, e.key) + [e], n) == Evicted(Without(Evicted(all, n), e.key) + [e], n)
  {
    if |all| > n {
      hide Evicted, Without, Unique;
      var x, es := all[0], all[1..];
      assert all == [x] + es;
      WithoutCons(x, es, e);
      EvictedCons(x, es, n);
      EvictedPush(es, n, e);
      EvictedCons(x, Without(es, e.key) + [e], n);
    }
  }

  lemma {:induction false} IdealUnique<K, V>(ops: seq<Op<K, V>>, n: nat)
    ensures Unique(Ideal(ops, n))
  {
    if ops != [] {
      IdealUnique(ops[..|ops| - 1], n);
      var op := ops[|ops| - 1];
      if !op.Clear? {
        PushUnique(Ideal(ops[..|ops| - 1], n), op.k);
      }
    }
  }

  /** The cache is the young end of the unlimited run. */
  lemma {:induction false} RunIsIdeal<K, V>(ops: seq<Op<K, V>>, n: nat)
    ensures Run(ops, n).entries == Evicted(Ideal(ops, n), n)
  {
    if ops != [] {
      var front := ops[..|ops| - 1];
      var all := Ideal(front, n);
      RunIsIdeal(front, n);
      IdealUnique(front, n);
      EvictedUnique(all, n);
      match ops[|ops| - 1]
      case Get(k) =>
        var found := Find(Evicted(all, n), k);
        if found.Some? {
          EvictedFind(all, n, k);
          EvictedPush(all, n, Entry(k, found.value));
          PushUnique(Evicted(all, n), k);
        }
      case Put(k, v) =>
        EvictedPush(all, n, Entry(k, v));
      case Clear =>
    }
  }

  // ------------------------------------------- the unlimited run is the log

  function KeySet<K(==), V>(es: Entries<K, V>): set<K> {
    if es == [] then {} else {es[0].key} + KeySet(es[1..])
  }

  /** The entries from `k` on. */
  function FromKey<K(==), V>(es: Entries<K, V>, k: K): Entries<K, V> {
    if es == [] || es[0].key == k then es else FromKey(es[1..], k)
  }

  lemma {:induction false} KeySetFacts<K, V>(es: Entries<K, V>, k: K)
    ensures k in KeySet(es) <==> Find(es, k).Some?
    ensures Unique(es) ==> |KeySet(es)| == |es|
  {
    if es != [] {
      KeySetFacts(es[1..], k);
      KeySetFacts(es[1..], es[0].key);
    }
  }

  lemma {:induction false} KeySetPush<K, V>(es: Entries<K, V>, e: Entry<K, V>)
    ensures KeySet(Without(es, e.key) + [e]) == KeySet(es) + {e.key}
  {
    if es != [] {
      KeySetPush(es[1..], e);
      if es[0].key != e.key {
        assert (Without(es, e.key) + [e])[1..] == Without(es[1..], e.key) + [e];
      }
    }
  }

  lemma {:induction false} FromPush<K, V>(es: Entries<K, V>, e: Entry<K, V>, k: K)
    ensures k == e.key ==> FromKey(Without(es, e.key) + [e], k) == [e]
    ensures k != e.key && Find(es, k).Some? ==>
              FromKey(Without(es, e.key) + [e], k) == Without(FromKey(es, k), e.key) + [e]
  {
    if es != [] {
      FromPush(es[1..], e, k);
      if es[0].key != e.key {
        assert (Without(es, e.key) + [e])[1..] == Without(es[1..], e.key) + [e];
      }
    }
  }

  lemma {:induction false} FromUnique<K, V>(es: Entries<K, V>, k: K)
    requires Unique(es)
    ensures Unique(FromKey(es, k))
    ensures |FromKey(es, k)| <= |es| && (Find(es, k).Some? ==> FromKey(es, k) != [])
  {
    if es != [] && es[0].key != k {
      FromUnique(es[1..], k);
    }
  }

  /** A key survives eviction exactly when it and what is younger fit the capacity. */
  lemma {:induction false} EvictedKeeps<K, V>(es: Entries<K, V>, n: nat, k: K)
    requires Unique(es)
    ensures Find(Evicted(es, n), k).Some? <==> Find(es, k).Some? && |FromKey(es, k)| <= n
  {
    FromUnique(es, k);
    if |es| > n {
      assert Evicted(es, n) == Evicted(es[1..], n);
      EvictedKeeps(es[1..], n, k);
      EvictedFind(es[1..], n, k);
    }
  }

  ghost predicate Agrees<K, V>(all: Entries<K, V>, log: seq<K>, k: K, latest: Option<V>) {
    && (k in log <==> Find(all, k).Some?)
    && (k in log ==> Find(all, k) == latest && KeySet(FromKey(all, k)) == Since(log, k))
  }

  lemma AgreesAfterPush<K, V>(all: Entries<K, V>, log: seq<K>, k: K, latest: Option<V>, e: Entry<K, V>)
    requires Unique(all) && Agrees(all, log, k, latest)
    ensures Agrees(Without(all, e.key) + [e], log + [e.key], k, if k == e.key then Some(e.value) else latest)
  {
    FindWithout(all, e.key, k);
    FindAppend(Without(all, e.key), e, k);
    FromPush(all, e, k);
    assert (log + [e.key])[..|log|] == log;
    if k != e.key {
      KeySetPush(FromKey(all, k), e);
    } else {
      assert KeySet([e]) == {e.key};
    }
  }

  lemma AgreesIsResident<K, V>(all: Entries<K, V>, log: seq<K>, n: nat, k: K, latest: Option<V>)
    requires Unique(all) && Agrees(all, log, k, latest)
    ensures Find(Evicted(all, n), k) == if Resident(log, n, k) then latest else None
  {
    EvictedKeeps(all, n, k);
    EvictedFind(all, n, k);
    FromUnique(all, k);
    KeySetFacts(FromKey(all, k), k);
  }

  lemma {:induction false} IdealAgrees<K, V>(ops: seq<Op<K, V>>, n: nat, k: K)
    ensures Agrees(Ideal(ops, n), Log(ops, n), k, LatestPut(ops, k))
  {
    if ops != [] {
      var front := ops[..|ops| - 1];
      var all, log := Ideal(front, n), Log(front, n);
      IdealUnique(front, n);
      IdealAgrees(front, n, k);
      match ops[|ops| - 1]
      case Get(j) =>
        IdealAgrees(front, n, j);
        AgreesIsResident(all, log, n, j, LatestPut(front, j));
        if Resident(log, n, j) {
          EvictedFind(all, n, j);
          AgreesAfterPush(all, log, k, LatestPut(front, k), Entry(j, Find(all, j).value));
        }
      case Put(j, v) =>
        AgreesAfterPush(all, log, k, LatestPut(front, k), Entry(j, v));
      case Clear =>
    }
  }

  /** After any run the cache answers for exactly the keys of which at most `n` distinct keys were
  touched since, with the latest value put. */
  lemma CacheIsTrace<K, V>(ops: seq<Op<K, V>>, n: nat, k: K)
    ensures Find(Run(ops, n).entries, k) == if Resident(Log(ops, n), n, k) then LatestPut(ops, k) else None
  {
    RunIsIdeal(ops, n);
    IdealUnique(ops, n);
    IdealAgrees(ops, n, k);
    AgreesIsResident(Ideal(ops, n), Log(ops, n), n, k, LatestPut(ops, k));
  }

  /** A resident key always has a value. */
  lemma ResidentWasPut<K, V>(ops: seq<Op<K, V>>, n: nat, k: K)
    ensures k in Log(ops, n) ==> LatestPut(ops, k).Some?
  {
    IdealAgrees(ops, n, k);
  }

  /** The counters count the gets since the last clear, and among them those of resident keys. */
  lemma {:induction false} CountersCountGets<K, V>(ops: seq<Op<K, V>>, n: nat)
    ensures Run(ops, n).hits == ResidentGets(ops, n)
    ensures Run(ops, n).hits + Run(ops, n).misses == Gets(ops)
  {
    if ops != [] {
      var front := ops[..|ops| - 1];
      var op := ops[|ops| - 1];
      CountersCountGets(front, n);
      if op.Get? {
        CacheIsTrace(front, n, op.k);
        ResidentWasPut(front, n, op.k);
      }
    }
  }
}
