/** `normalise` and `AnswerCache.key` of assistant/cache.py: which requests share an answer. */
module CacheKey {
  import opened Blanks
  import opened Ordering

  // ------------------------------------------------------------- normalising

  function Lowered(s: string, lower: char -> char): string {
    seq(|s|, i requires 0 <= i < |s| => lower(s[i]))
  }

  /** `re.sub` of every run of white space by one blank. */
  function Collapse(s: string): string
    decreases |s|
  {
    if s == "" then ""
    else if IsSpace(s[0]) then
      StripShorter(s);
      [' '] + Collapse(LeftStrip(s))
    else [s[0]] + Collapse(s[1..])
  }

  lemma {:induction false} StripShorter(s: string)
    ensures |LeftStrip(s)| <= |s| && (s != "" && IsSpace(s[0]) ==> |LeftStrip(s)| < |s|)
  {
    if s != "" && IsSpace(s[0]) {
      StripShorter(s[1..]);
    }
  }

  function Normalise(question: string, lower: char -> char): string {
    Collapse(Lowered(Strip(question), lower))
  }

  lemma {:induction false} WordsSkip(s: string)
    ensures Words(LeftStrip(s)) == Words(s)
  {
    if s != "" && IsSpace(s[0]) {
      WordsSkip(s[1..]);
    }
  }

  /** The words of a text that has one more character in front that is no space. */
  lemma WordsCons(c: char, t: string)
    requires !IsSpace(c)
    ensures Words([c] + t) == if t == "" || IsSpace(t[0]) then [[c]] + Words(t) else [[c] + Words(t)[0]] + Words(t)[1..]
  {
    var s := [c] + t;
    assert s[1..] == t;
    assert s[..1 + WordLength(t)] == [c] + t[..WordLength(t)];
    assert s[1 + WordLength(t)..] == t[WordLength(t)..];
  }

  lemma {:induction false} WordsTail(s: string, c: char)
    requires IsSpace(c)
    ensures Words(s + [c]) == Words(s)
  {
    if s == "" {
      assert "" + [c] == [c] && [c][1..] == "";
    } else {
      var t := s[1..];
      assert (s + [c])[1..] == t + [c];
      WordsTail(t, c);
      if !IsSpace(s[0]) {
        assert s + [c] == [s[0]] + (t + [c]) && s == [s[0]] + t;
        WordsCons(s[0], t);
        WordsCons(s[0], t + [c]);
      }
    }
  }

  lemma {:induction false} WordsRightStrip(s: string)
    ensures Words(RightStrip(s)) == Words(s)
  {
    if s != "" && IsSpace(s[|s| - 1]) {
      var t := s[..|s| - 1];
      WordsRightStrip(t);
      WordsTail(t, s[|s| - 1]);
      assert t + [s[|s| - 1]] == s;
    }
  }

  lemma {:induction false} WordsCollapse(s: string)
    ensures Words(Collapse(s)) == Words(s)
    ensures Collapse(s) == "" <==> s == ""
    ensures s != "" ==> (IsSpace(Collapse(s)[0]) <==> IsSpace(s[0]))
    decreases |s|
  {
    if s != "" {
      if IsSpace(s[0]) {
        StripShorter(s);
        WordsCollapse(LeftStrip(s));
        WordsSkip(s);
        assert ([' '] + Collapse(LeftStrip(s)))[1..] == Collapse(LeftStrip(s));
      } else {
        WordsCollapse(s[1..]);
        WordsCons(s[0], s[1..]);
        WordsCons(s[0], Collapse(s[1..]));
        assert s == [s[0]] + s[1..];
      }
    }
  }

  predicate NoSpaceAtEnd(s: string) {
    s == "" || !IsSpace(s[|s| - 1])
  }

  lemma {:induction false} StripsToWord(s: string)
    ensures LeftStrip(s) == "" || !IsSpace(LeftStrip(s)[0])
    ensures NoSpaceAtEnd(s) ==> NoSpaceAtEnd(LeftStrip(s)) && (s != "" ==> LeftStrip(s) != "")
  {
    if s != "" && IsSpace(s[0]) {
      StripsToWord(s[1..]);
    }
  }

  /** A text's words with one blank between each two, and one in front if it begins with white space. */
  function Respaced(s: string): string {
    if s != "" && IsSpace(s[0]) then [' '] + Spaced(Words(s)) else Spaced(Words(s))
  }

  lemma {:induction false} CollapseIsSpaced(s: string)
    requires NoSpaceAtEnd(s)
    ensures s != "" ==> Words(s) != []
    ensures Collapse(s) == Respaced(s)
    decreases |s|
  {
    if s != "" {
      if IsSpace(s[0]) {
        StripShorter(s);
        StripsToWord(s);
        WordsSkip(s);
        CollapseIsSpaced(LeftStrip(s));
      } else {
        var t := s[1..];
        assert s == [s[0]] + t;
        CollapseIsSpaced(t);
        SpacedCons(s[0], t);
      }
    }
  }

  lemma SpacedCons(c: char, t: string)
    requires !IsSpace(c) && (t != "" ==> Words(t) != [])
    ensures Words([c] + t) != [] && Spaced(Words([c] + t)) == [c] + Respaced(t)
  {
    hide Words;
    WordsCons(c, t);
    var ws := Words(t);
    if t == "" {
      NoWords();
    } else if IsSpace(t[0]) {
      assert ([[c]] + ws)[1..] == ws;
      assert [c] + " " + Spaced(ws) == [c] + ([' '] + Spaced(ws));
    } else {
      SpacedFirst([c], ws);
    }
  }

  lemma NoWords()
    ensures Words("") == []
  {
  }

  lemma SpacedFirst(front: string, ws: seq<string>)
    requires ws != []
    ensures Spaced([front + ws[0]] + ws[1..]) == front + Spaced(ws)
  {
    var longer := [front + ws[0]] + ws[1..];
    var tail := Spaced(ws[1..]);
    assert longer[1..] == ws[1..];
    Associates(front, ws[0], " ", tail);
  }

  lemma Associates(a: string, b: string, c: string, d: string)
    ensures a + b + c + d == a + (b + c + d)
  {
  }

  lemma {:induction false} StripEnds(s: string)
    ensures NoSpaceAtEnd(RightStrip(s)) && (s != "" && !IsSpace(s[0]) ==> RightStrip(s) != "" && RightStrip(s)[0] == s[0])
  {
    if s != "" && IsSpace(s[|s| - 1]) {
      StripEnds(s[..|s| - 1]);
    }
  }

  /** Lowering neither makes nor removes white space. */
  ghost predicate KeepsSpace(lower: char -> char) {
    forall c :: IsSpace(lower(c)) <==> IsSpace(c)
  }

  lemma {:induction false} WordsLowered(s: string, lower: char -> char)
    requires KeepsSpace(lower)
    ensures Words(Lowered(Strip(s), lower)) == Words(Lowered(s, lower))
  {
    LeftStripLowered(s, lower);
    RightStripLowered(LeftStrip(s), lower);
    WordsSkip(Lowered(s, lower));
    WordsRightStrip(Lowered(LeftStrip(s), lower));
  }

  lemma {:induction false} LeftStripLowered(s: string, lower: char -> char)
    requires KeepsSpace(lower)
    ensures LeftStrip(Lowered(s, lower)) == Lowered(LeftStrip(s), lower)
  {
    if s != "" {
      assert Lowered(s, lower)[1..] == Lowered(s[1..], lower);
      LeftStripLowered(s[1..], lower);
    }
  }

  lemma {:induction false} RightStripLowered(s: string, lower: char -> char)
    requires KeepsSpace(lower)
    ensures RightStrip(Lowered(s, lower)) == Lowered(RightStrip(s), lower)
  {
    if s != "" {
      assert Lowered(s, lower)[..|s| - 1] == Lowered(s[..|s| - 1], lower);
      RightStripLowered(s[..|s| - 1], lower);
    }
  }

  /** A normalised question is its lowered words, one blank between each two. */
  lemma NormaliseIsWords(question: string, lower: char -> char)
    requires KeepsSpace(lower)
    ensures Normalise(question, lower) == Spaced(Words(Lowered(question, lower)))
  {
    var s := Strip(question);
    StripsToWord(question);
    StripEnds(LeftStrip(question));
    assert NoSpaceAtEnd(Lowered(s, lower));
    CollapseIsSpaced(Lowered(s, lower));
    WordsLowered(question, lower);
  }

  /** Two questions are the same to it exactly when their lowered words are. */
  lemma SameQuestion(a: string, b: string, lower: char -> char)
    requires KeepsSpace(lower)
    ensures Normalise(a, lower) == Normalise(b, lower) <==> Words(Lowered(a, lower)) == Words(Lowered(b, lower))
  {
    hide Normalise, Strip, Words, Collapse;
    NormaliseIsWords(a, lower);
    NormaliseIsWords(b, lower);
    NormaliseWords(a, lower);
    NormaliseWords(b, lower);
  }

  lemma NormaliseWords(question: string, lower: char -> char)
    requires KeepsSpace(lower)
    ensures Words(Normalise(question, lower)) == Words(Lowered(question, lower))
  {
    WordsCollapse(Lowered(Strip(question), lower));
    WordsLowered(question, lower);
  }

  // ----------------------------------------------------------------- the key

  datatype Request = Request(question: string, audiences: seq<string>, snapshot: string, model: string,
                             chunking: string, carried: map<string, string>, origins: map<string, string>,
                             history: string)

  datatype EntryKey = EntryKey(question: string, audiences: seq<string>, snapshot: string, model: string,
                               chunking: string, carried: seq<(string, string)>,
                               origins: seq<(string, string)>, digest: string)

  ghost function Least(s: set<string>): (x: string)
    requires s != {}
    ensures IsLeast(s, x)
  {
    LeastExists(s);
    var x :| IsLeast(s, x);
    x
  }

  /** `tuple(sorted(m.items()))`: the entries by name. */
  ghost function SortedItems(m: map<string, string>): seq<(string, string)>
    decreases |m|
  {
    if m == map[] then []
    else
      var k := Least(m.Keys);
      [(k, m[k])] + SortedItems(m - {k})
  }

  lemma {:induction false} ItemsAreEntries(m: map<string, string>, k: string, v: string)
    ensures (k, v) in SortedItems(m) <==> k in m && m[k] == v
    decreases |m|
  {
    if m != map[] {
      ItemsAreEntries(m - {Least(m.Keys)}, k, v);
    }
  }

  lemma SameItems(m: map<string, string>, n: map<string, string>)
    ensures SortedItems(m) == SortedItems(n) <==> m == n
  {
    if SortedItems(m) == SortedItems(n) {
      forall k | k in m
        ensures k in n && n[k] == m[k]
      {
        ItemsAreEntries(m, k, m[k]);
        ItemsAreEntries(n, k, m[k]);
      }
      forall k | k in n
        ensures k in m
      {
        ItemsAreEntries(m, k, n[k]);
        ItemsAreEntries(n, k, n[k]);
      }
    }
  }

  /** The history's digest, of which `hash` stands for the first sixteen digits; none without a history. */
  function Digest(history: string, hash: string -> string): string {
    if history == "" then "" else hash(history)
  }

  ghost function KeyOf(r: Request, lower: char -> char, hash: string -> string): EntryKey {
    EntryKey(Normalise(r.question, lower), Sorted(r.audiences), r.snapshot, r.model, r.chunking,
             SortedItems(r.carried), SortedItems(r.origins), Digest(r.history, hash))
  }

  /** Two requests share an entry exactly when nothing but case, spacing, the order in which the
  audiences are named, the order of the slots and what the digest of the history forgets tells
  them apart. */
  lemma SameEntryExactly(a: Request, b: Request, lower: char -> char, hash: string -> string)
    requires KeepsSpace(lower)
    ensures KeyOf(a, lower, hash) == KeyOf(b, lower, hash) <==>
            && Words(Lowered(a.question, lower)) == Words(Lowered(b.question, lower))
            && multiset(a.audiences) == multiset(b.audiences)
            && a.snapshot == b.snapshot && a.model == b.model && a.chunking == b.chunking
            && a.carried == b.carried && a.origins == b.origins
            && Digest(a.history, hash) == Digest(b.history, hash)
  {
    hide Words, Lowered, Sorted, SortedItems, Normalise;
    SameQuestion(a.question, b.question, lower);
    SortedSame(a.audiences, b.audiences);
    SameItems(a.carried, b.carried);
    SameItems(a.origins, b.origins);
  }
}
