/** The embedding cache of assistant/indexing/embedcache.py, and the part of `_build` that gives
every chunk its vector. */
module EmbeddingCache {
  import opened Decimals

  type Text = string
  type Key = string
  type Vector = seq<real>

  /** The model that embeds, and how many dimensions it is asked for. */
  datatype Config = Config(model: string, dimensions: nat)

  /** The outside world: the digest of a text, the vector that a model computes, and what is left of
  a vector after the store's 32-bit floats. */
  datatype World = World(hash: Text -> string, embed: (Text, Config) -> Vector, round: Vector -> Vector)

  const WINDOW: nat := 500

  type Table = map<Key, Vector>

  function KeyFor(text: Text, g: Config, w: World): Key {
    g.model + "|" + Decimal(g.dimensions) + "|" + w.hash(text)
  }

  /** The known vectors, by position. */
  function Known(table: Table, texts: seq<Text>, g: Config, w: World): map<nat, Vector> {
    map i: nat | i < |texts| && KeyFor(texts[i], g, w) in table :: table[KeyFor(texts[i], g, w)]
  }

  function Stored(table: Table, pairs: seq<(Text, Vector)>, g: Config, w: World): Table {
    if pairs == [] then table
    else Stored(table, pairs[..|pairs| - 1], g, w)[KeyFor(pairs[|pairs| - 1].0, g, w) := w.round(pairs[|pairs| - 1].1)]
  }

  // ---------------------------------------------------------------- the key

  /** A digest is written in characters other than the bar. */
  ghost predicate Barless(w: World) {
    forall t :: '|' !in w.hash(t)
  }

  lemma BarAt(a: string, x: string)
    requires '|' !in x
    ensures var s := a + "|" + x; s[|a|] == '|' && forall i :: |a| < i < |s| ==> s[i] != '|'
  {
  }

  /** Texts that end in a part without a bar, behind one, are the same only part by part. */
  lemma LastBar(a: string, x: string, b: string, y: string)
    requires '|' !in x && '|' !in y && a + "|" + x == b + "|" + y
    ensures a == b && x == y
  {
    var s, t := a + "|" + x, b + "|" + y;
    BarAt(a, x);
    BarAt(b, y);
    assert |a| == |b|;
    assert a == s[..|a|] && b == t[..|b|] && x == s[|a| + 1..] && y == t[|b| + 1..];
  }

  /** Two keys are the same exactly if model, dimensions and the text's digest are: whatever the
  model is called, a row of another model is never taken for one of this. */
  lemma KeysSeparate(t: Text, g: Config, u: Text, h: Config, w: World)
    requires Barless(w)
    ensures KeyFor(t, g, w) == KeyFor(u, h, w) <==> g == h && w.hash(t) == w.hash(u)
  {
    if KeyFor(t, g, w) == KeyFor(u, h, w) {
      LastBar(g.model + "|" + Decimal(g.dimensions), w.hash(t), h.model + "|" + Decimal(h.dimensions), w.hash(u));
      LastBar(g.model, Decimal(g.dimensions), h.model, Decimal(h.dimensions));
      NaturalOfDecimal(g.dimensions);
      NaturalOfDecimal(h.dimensions);
    }
  }

  /** Writing rows of one model changes nothing of what is known of another. */
  lemma {:induction false} OtherModelUnseen(table: Table, pairs: seq<(Text, Vector)>, g: Config, texts: seq<Text>, h: Config, w: World)
    requires Barless(w) && g != h
    ensures Known(Stored(table, pairs, g, w), texts, h, w) == Known(table, texts, h, w)
  {
    hide KeyFor, Barless;
    if pairs != [] {
      OtherModelUnseen(table, pairs[..|pairs| - 1], g, texts, h, w);
      forall t
        ensures KeyFor(pairs[|pairs| - 1].0, g, w) != KeyFor(t, h, w)
      {
        KeysSeparate(pairs[|pairs| - 1].0, g, t, h, w);
      }
    }
  }

  /** The digests of these texts do not collide, and rounding twice is rounding once. */
  ghost predicate Faithful(corpus: set<Text>, w: World) {
    && Barless(w)
    && (forall t, u :: t in corpus && u in corpus && w.hash(t) == w.hash(u) ==> t == u)
    && (forall v :: w.round(w.round(v)) == w.round(v))
  }

  /** Every row stored for one of these texts, by whatever model, is that model's rounded embedding of it. */
  ghost predicate Honest(table: Table, corpus: set<Text>, w: World) {
    forall t, g: Config :: t in corpus && KeyFor(t, g, w) in table ==> table[KeyFor(t, g, w)] == w.round(w.embed(t, g))
  }

  ghost predicate From(texts: seq<Text>, corpus: set<Text>) {
    forall i :: 0 <= i < |texts| ==> texts[i] in corpus
  }

  class Cache {
    const world: World
    var table: Table
    var hits: nat
    var misses: nat

    constructor (world: World, stored: Table)
      ensures this.world == world && table == stored && hits == misses == 0
    {
      this.world := world;
      table, hits, misses := stored, 0, 0;
    }

    /** Read in windows, as many keys at a time as the store takes parameters. */
    method GetMany(texts: seq<Text>, g: Config) returns (found: map<nat, Vector>)
      modifies this`hits, this`misses
      ensures found == Known(table, texts, g, world)
      ensures hits == old(hits) + |found| && misses == old(misses) + |texts| - |found|
    {
      hide Known;
      found := map[];
      KnownNone(table, g, world);
      var start := 0;
      while start < |texts|
        invariant start <= |texts|
        invariant found == Known(table, texts[..start], g, world)
        invariant hits == old(hits) && misses == old(misses)
      {
        var end := if start + WINDOW < |texts| then start + WINDOW else |texts|;
        var keys := set i | start <= i < end :: KeyFor(texts[i], g, world);
        var rows := map k | k in keys && k in table :: table[k];
        for i := start to end
          invariant found == Known(table, texts[..i], g, world)
          invariant hits == old(hits) && misses == old(misses)
        {
          var key := KeyFor(texts[i], g, world);
          assert key in keys;
          KnownNext(table, texts, i, g, world);
          if key in rows {
            found := found[i := rows[key]];
          }
        }
        start := end;
      }
      assert texts[..|texts|] == texts;
      KnownFits(table, texts, g, world);
      hits := hits + |found|;
      misses := misses + (|texts| - |found|);
    }

    method PutMany(pairs: seq<(Text, Vector)>, g: Config)
      modifies this`table
      ensures table == Stored(old(table), pairs, g, world)
    {
      for i := 0 to |pairs|
        invariant table == Stored(old(table), pairs[..i], g, world)
      {
        assert pairs[..i + 1][..i] == pairs[..i];
        table := table[KeyFor(pairs[i].0, g, world) := world.round(pairs[i].1)];
      }
      assert pairs[..|pairs|] == pairs;
    }
  }

  lemma KnownNone(table: Table, g: Config, w: World)
    ensures Known(table, [], g, w) == map[]
  {
  }

  lemma KnownNext(table: Table, texts: seq<Text>, i: nat, g: Config, w: World)
    requires i < |texts|
    ensures var key := KeyFor(texts[i], g, w);
            Known(table, texts[..i + 1], g, w) ==
              if key in table then Known(table, texts[..i], g, w)[i := table[key]] else Known(table, texts[..i], g, w)
  {
    assert forall j :: 0 <= j < i ==> texts[..i + 1][j] == texts[..i][j];
  }

  lemma {:induction false} KnownFits(table: Table, texts: seq<Text>, g: Config, w: World)
    ensures |Known(table, texts, g, w)| <= |texts|
  {
    if texts != [] {
      var n := |texts| - 1;
      var front := texts[..n];
      KnownFits(table, front, g, w);
      var known := Known(table, texts, g, w);
      if n in known {
        assert known == Known(table, front, g, w)[n := known[n]];
      } else {
        assert known == Known(table, front, g, w);
      }
    }
  }

  // ---------------------------------------------------------- filling chunks

  /** The texts of all chunks of all documents, in order. */
  function Flat(documents: seq<seq<Text>>): seq<Text> {
    if documents == [] then [] else Flat(documents[..|documents| - 1]) + documents[|documents| - 1]
  }

  /** Where a document's chunks start among all of them. */
  function Offset(documents: seq<seq<Text>>, d: nat): nat
    requires d <= |documents|
  {
    |Flat(documents[..d])|
  }

  lemma {:induction false} FlatAt(documents: seq<seq<Text>>, d: nat, c: nat)
    requires d < |documents| && c < |documents[d]|
    ensures Offset(documents, d) + c < |Flat(documents)|
    ensures Flat(documents)[Offset(documents, d) + c] == documents[d][c]
  {
    var front := documents[..|documents| - 1];
    if d < |documents| - 1 {
      assert front[..d] == documents[..d];
      FlatAt(front, d, c);
    }
  }

  lemma OffsetNext(documents: seq<seq<Text>>, d: nat)
    requires d < |documents|
    ensures Offset(documents, d + 1) == Offset(documents, d) + |documents[d]|
  {
    assert documents[..d + 1][..d] == documents[..d];
  }

  /** A vector that stands for its text. */
  ghost predicate Represents(v: Vector, t: Text, g: Config, w: World) {
    w.round(v) == w.round(w.embed(t, g))
  }

  ghost predicate AllRepresent(found: map<nat, Vector>, texts: seq<Text>, g: Config, w: World) {
    forall i :: i in found ==> i < |texts| && Represents(found[i], texts[i], g, w)
  }

  lemma {:induction false} StoredHonest(table: Table, pairs: seq<(Text, Vector)>, g: Config, corpus: set<Text>, w: World)
    requires Faithful(corpus, w) && Honest(table, corpus, w)
    requires forall i :: 0 <= i < |pairs| ==> pairs[i].0 in corpus && Represents(pairs[i].1, pairs[i].0, g, w)
    ensures Honest(Stored(table, pairs, g, w), corpus, w)
  {
    hide KeyFor;
    if pairs != [] {
      var last := pairs[|pairs| - 1];
      StoredHonest(table, pairs[..|pairs| - 1], g, corpus, w);
      forall t, h: Config | t in corpus && KeyFor(t, h, w) == KeyFor(last.0, g, w)
        ensures t == last.0 && h == g
      {
        KeysSeparate(t, h, last.0, g, w);
      }
    }
  }

  lemma KnownRepresents(table: Table, texts: seq<Text>, g: Config, corpus: set<Text>, w: World)
    requires Faithful(corpus, w) && Honest(table, corpus, w) && From(texts, corpus)
    ensures AllRepresent(Known(table, texts, g, w), texts, g, w)
  {
    hide KeyFor;
  }

  /** The vectors found, handed out to the chunks by one running position. */
  method Distribute(documents: seq<seq<Text>>, found: map<nat, Vector>, g: Config, w: World)
    returns (vectors: seq<seq<Vector>>)
    requires forall i :: 0 <= i < |Flat(documents)| ==> i in found && Represents(found[i], Flat(documents)[i], g, w)
    ensures |vectors| == |documents|
    ensures forall d :: 0 <= d < |documents| ==> |vectors[d]| == |documents[d]|
    ensures forall d, c :: 0 <= d < |documents| && 0 <= c < |documents[d]| ==>
              Represents(vectors[d][c], documents[d][c], g, w)
  {
    hide Represents;
    vectors := [];
    var position := 0;
    for d := 0 to |documents|
      invariant position == Offset(documents, d)
      invariant |vectors| == d
      invariant forall e :: 0 <= e < d ==> |vectors[e]| == |documents[e]|
      invariant forall e, c :: 0 <= e < d && 0 <= c < |documents[e]| ==>
                  Represents(vectors[e][c], documents[e][c], g, w)
    {
      var row: seq<Vector> := [];
      for c := 0 to |documents[d]|
        invariant |row| == c && position == Offset(documents, d) + c
        invariant forall k :: 0 <= k < c ==> Represents(row[k], documents[d][k], g, w)
      {
        FlatAt(documents, d, c);
        row := row + [found[position]];
        position := position + 1;
      }
      OffsetNext(documents, d);
      vectors := vectors + [row];
    }
  }

  /** Every chunk gets its vector: those known from the cache, the others computed, stored, and
  all of them handed out by position. */
  method EmbedChunks(documents: seq<seq<Text>>, g: Config, cache: Cache, ghost corpus: set<Text>)
    returns (vectors: seq<seq<Vector>>)
    requires Faithful(corpus, cache.world) && Honest(cache.table, corpus, cache.world) && From(Flat(documents), corpus)
    modifies cache
    ensures Honest(cache.table, corpus, cache.world)
    ensures |vectors| == |documents|
    ensures forall d :: 0 <= d < |documents| ==> |vectors[d]| == |documents[d]|
    ensures forall d, c :: 0 <= d < |documents| && 0 <= c < |documents[d]| ==>
              Represents(vectors[d][c], documents[d][c], g, cache.world)
  {
    hide Represents, Honest, Faithful, From;
    var found := VectorsFor(Flat(documents), g, cache, corpus);
    vectors := Distribute(documents, found, g, cache.world);
  }

  method VectorsFor(texts: seq<Text>, g: Config, cache: Cache, ghost corpus: set<Text>) returns (found: map<nat, Vector>)
    requires Faithful(corpus, cache.world) && Honest(cache.table, corpus, cache.world) && From(texts, corpus)
    modifies cache
    ensures Honest(cache.table, corpus, cache.world)
    ensures forall i :: i in found <==> 0 <= i < |texts|
    ensures AllRepresent(found, texts, g, cache.world)
  {
    hide Honest, Faithful, Stored, Represents, AllRepresent;
    var w := cache.world;
    KnownRepresents(cache.table, texts, g, corpus, w);
    found := cache.GetMany(texts, g);
    var todo := Missing(found, |texts|);
    var computed := Compute(texts, todo, g, w);
    StoredHonest(cache.table, computed, g, corpus, w);
    cache.PutMany(computed, g);
    found := Merge(texts, found, todo, computed, g, w);
  }

  method Compute(texts: seq<Text>, todo: seq<nat>, g: Config, w: World) returns (computed: seq<(Text, Vector)>)
    requires forall j :: 0 <= j < |todo| ==> todo[j] < |texts|
    ensures |computed| == |todo|
    ensures forall j :: 0 <= j < |todo| ==> computed[j].0 == texts[todo[j]] && Represents(computed[j].1, computed[j].0, g, w)
  {
    computed := [];
    for k := 0 to |todo|
      invariant |computed| == k
      invariant forall j :: 0 <= j < k ==> computed[j].0 == texts[todo[j]] && Represents(computed[j].1, computed[j].0, g, w)
    {
      computed := computed + [(texts[todo[k]], w.embed(texts[todo[k]], g))];
    }
  }

  method Merge(texts: seq<Text>, known: map<nat, Vector>, todo: seq<nat>, computed: seq<(Text, Vector)>, g: Config, w: World)
    returns (found: map<nat, Vector>)
    requires |computed| == |todo|
    requires forall j :: 0 <= j < |todo| ==> todo[j] < |texts|
    requires forall j :: 0 <= j < |todo| ==> computed[j].0 == texts[todo[j]] && Represents(computed[j].1, computed[j].0, g, w)
    requires AllRepresent(known, texts, g, w)
    requires forall i: nat :: i < |texts| && i !in known ==> i in todo
    ensures forall i :: i in found <==> 0 <= i < |texts|
    ensures AllRepresent(found, texts, g, w)
  {
    hide Represents;
    found := known;
    for k := 0 to |todo|
      invariant forall i :: i in known ==> i in found
      invariant forall j :: 0 <= j < k ==> todo[j] in found
      invariant AllRepresent(found, texts, g, w)
    {
      found := found[todo[k] := computed[k].1];
    }
  }

  /** The positions without a vector, in order. */
  method Missing(found: map<nat, Vector>, n: nat) returns (todo: seq<nat>)
    ensures forall j :: 0 <= j < |todo| ==> todo[j] < n && todo[j] !in found
    ensures forall i: nat :: i < n && i !in found ==> i in todo
    ensures forall j, k :: 0 <= j < k < |todo| ==> todo[j] < todo[k]
  {
    todo := [];
    for i := 0 to n
      invariant forall j :: 0 <= j < |todo| ==> todo[j] < i && todo[j] !in found
      invariant forall k: nat :: k < i && k !in found ==> k in todo
      invariant forall j, k :: 0 <= j < k < |todo| ==> todo[j] < todo[k]
    {
      if i !in found {
        todo := todo + [i];
      }
    }
  }
}
