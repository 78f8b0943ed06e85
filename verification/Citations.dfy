/** Citation renumbering in `_finish` and the source list of assistant/answering/answer.py. */
module Citations {
  import opened Decimals

  /** A text as its citation pattern sees it: single characters, and `[digits]` markers. */
  datatype Token = Char(c: char) | Cite(digits: string)

  /** Whether a marker starts the text. */
  predicate Matches(s: string) {
    s != "" && s[0] == '['
    && var d := DigitPrefix(s[1..]);
    d != "" && |d| + 1 < |s| && s[|d| + 1] == ']'
  }

  function Scan(s: string): seq<Token> {
    if s == "" then []
    else if Matches(s) then
      var d := DigitPrefix(s[1..]);
      [Cite(d)] + Scan(s[|d| + 2..])
    else [Char(s[0])] + Scan(s[1..])
  }

  function Write(ts: seq<Token>): string {
    if ts == [] then ""
    else match ts[0]
      case Char(c) => [c] + Write(ts[1..])
      case Cite(d) => ['['] + (d + ([']'] + Write(ts[1..])))
  }

  predicate Numbered(ts: seq<Token>) {
    forall i :: 0 <= i < |ts| && ts[i].Cite? ==>
      ts[i].digits != "" && AllDigits(ts[i].digits)
  }

  function Markers(ts: seq<Token>): seq<nat>
    requires Numbered(ts)
  {
    if ts == [] then []
    else
      assert forall i :: 0 <= i < |ts[1..]| ==> ts[1..][i] == ts[i + 1];
      (if ts[0].Cite? then [Natural(ts[0].digits)] else []) + Markers(ts[1..])
  }

  /** `_CITE.sub`: every marker's number replaced. */
  function Rename(ts: seq<Token>, f: nat -> nat): seq<Token>
    requires Numbered(ts)
  {
    if ts == [] then []
    else
      assert forall i :: 0 <= i < |ts[1..]| ==> ts[1..][i] == ts[i + 1];
      [if ts[0].Cite? then Cite(Decimal(f(Natural(ts[0].digits)))) else ts[0]] + Rename(ts[1..], f)
  }

  lemma {:induction false} ScanNumbered(s: string)
    ensures Numbered(Scan(s))
  {
    if s != "" {
      ScanNumbered(if Matches(s) then s[|DigitPrefix(s[1..])| + 2..] else s[1..]);
    }
  }

  function MarkersOf(text: string): seq<nat> {
    ScanNumbered(text);
    Markers(Scan(text))
  }

  // ---------------------------------------------------------- renumbering

  /** The numbers up to `n` that are marked, in order. */
  function Backed(marked: set<nat>, n: nat): seq<nat> {
    if n == 0 then [] else Backed(marked, n - 1) + (if n in marked then [n] else [])
  }

  function Elements(s: seq<nat>): set<nat> {
    set x | x in s
  }

  function Pick<T>(hits: seq<T>, backed: seq<nat>): seq<T>
    requires forall i :: 0 <= i < |backed| ==> 1 <= backed[i] <= |hits|
  {
    if backed == [] then [] else [hits[backed[0] - 1]] + Pick(hits, backed[1..])
  }

  /** The new number of each old one: its place among the marked ones. */
  function Rank(marked: set<nat>): nat -> nat {
    m => |Backed(marked, m)|
  }

  lemma {:induction false} BackedFacts(marked: set<nat>, n: nat)
    ensures |Backed(marked, n)| <= n
    ensures forall i :: 0 <= i < |Backed(marked, n)| ==> 1 <= Backed(marked, n)[i] <= n && Backed(marked, n)[i] in marked
    ensures forall i, j :: 0 <= i < j < |Backed(marked, n)| ==> Backed(marked, n)[i] < Backed(marked, n)[j]
  {
    if n > 0 {
      BackedFacts(marked, n - 1);
    }
  }

  /** The text and the list of sources that `_finish` prints. */
  function Finished<T>(text: string, hits: seq<T>): (string, seq<T>) {
    var marked := Elements(MarkersOf(text));
    var backed := Backed(marked, |hits|);
    BackedFacts(marked, |hits|);
    ScanNumbered(text);
    if marked != {} && |backed| == |marked| then
      (Write(Rename(Scan(text), Rank(marked))), Pick(hits, backed))
    else (text, hits)
  }

  // ---------------------------------------------------------- facts on text

  lemma MarkerSplits(s: string)
    requires Matches(s)
    ensures var d := DigitPrefix(s[1..]);
            |d| + 2 <= |s| && s == ['['] + (d + ([']'] + s[|d| + 2..]))
  {
    hide DigitPrefix;
    var d := DigitPrefix(s[1..]);
    assert s[1..] == d + s[|d| + 1..];
    assert s[|d| + 1..] == [']'] + s[|d| + 2..];
  }

  lemma {:induction false} WriteScan(s: string)
    ensures Write(Scan(s)) == s
  {
    hide DigitPrefix;
    if s != "" {
      if Matches(s) {
        MarkerSplits(s);
        WriteScan(s[|DigitPrefix(s[1..])| + 2..]);
      } else {
        WriteScan(s[1..]);
      }
    }
  }

  /** A marker in front of a text is scanned as such. */
  lemma ScanMarker(d: string, rest: string)
    requires d != "" && AllDigits(d)
    ensures Scan(['['] + (d + ([']'] + rest))) == [Cite(d)] + Scan(rest)
  {
    hide DigitPrefix;
    var tail := [']'] + rest;
    var r := ['['] + (d + tail);
    DigitPrefixOf(d, tail);
    assert r[1..] == d + tail;
    assert r[|d| + 1] == ']';
    assert r[|d| + 2..] == rest;
  }

  function Rewrite(s: string, f: nat -> nat): string {
    ScanNumbered(s);
    Write(Rename(Scan(s), f))
  }

  lemma RewriteStep(s: string, f: nat -> nat)
    requires s != ""
    ensures if Matches(s) then
              var d := DigitPrefix(s[1..]);
              Rewrite(s, f) == ['['] + (Decimal(f(Natural(d))) + ([']'] + Rewrite(s[|d| + 2..], f)))
            else Rewrite(s, f) == [s[0]] + Rewrite(s[1..], f)
  {
    ScanNumbered(s);
    assert Scan(s)[1..] == Scan(if Matches(s) then s[|DigitPrefix(s[1..])| + 2..] else s[1..]);
  }

  /** Rewriting leaves a text's leading digits, and what follows them, as they are. */
  lemma {:induction false} RewriteHead(s: string, f: nat -> nat)
    ensures var d := DigitPrefix(s);
            var r := Rewrite(s, f);
            && DigitPrefix(r) == d && (|d| < |s| <==> |d| < |r|)
            && (|d| < |s| ==> r[|d|] == s[|d|])
  {
    if s != "" {
      RewriteStep(s, f);
      if IsDigit(s[0]) {
        RewriteHead(s[1..], f);
        assert Rewrite(s, f)[1..] == Rewrite(s[1..], f);
      }
    }
  }

  lemma RenameStep(t: Token, ts: seq<Token>, f: nat -> nat)
    requires Numbered([t] + ts) && (t.Cite? ==> AllDigits(t.digits))
    ensures Numbered(ts)
    ensures Rename([t] + ts, f) == [if t.Cite? then Cite(Decimal(f(Natural(t.digits)))) else t] + Rename(ts, f)
  {
    assert ([t] + ts)[1..] == ts;
    assert forall i :: 0 <= i < |ts| ==> ts[i] == ([t] + ts)[i + 1];
  }

  /** Scanning a rewritten text finds the same tokens with the new numbers, and no others. */
  lemma {:induction false} ScanRewrite(s: string, f: nat -> nat)
    ensures Numbered(Scan(s)) && Scan(Rewrite(s, f)) == Rename(Scan(s), f)
  {
    hide DigitPrefix, Decimal, Natural, Rename, Rewrite, Numbered;
    ScanNumbered(s);
    if s != "" {
      RewriteStep(s, f);
      if Matches(s) {
        var d := DigitPrefix(s[1..]);
        var rest := s[|d| + 2..];
        ScanRewrite(rest, f);
        ScanMarker(Decimal(f(Natural(d))), Rewrite(rest, f));
        RenameStep(Cite(d), Scan(rest), f);
      } else {
        ScanRewrite(s[1..], f);
        CharStays(s, f);
        RenameStep(Char(s[0]), Scan(s[1..]), f);
      }
    } else {
      NothingRewritten(f);
    }
  }

  lemma NothingRewritten(f: nat -> nat)
    ensures Rewrite("", f) == "" && Numbered([]) && Rename([], f) == []
  {
  }

  /** What is no marker does not become one. */
  lemma CharStays(s: string, f: nat -> nat)
    requires s != "" && !Matches(s)
    ensures Scan(Rewrite(s, f)) == [Char(s[0])] + Scan(Rewrite(s[1..], f))
  {
    hide DigitPrefix, Rewrite;
    RewriteStep(s, f);
    RewriteHead(s[1..], f);
    var r := Rewrite(s, f);
    assert r[1..] == Rewrite(s[1..], f);
  }

  // ------------------------------------------------------ facts on numbering

  lemma {:induction false} BackedAt(marked: set<nat>, n: nat, m: nat)
    requires 1 <= m <= n && m in marked
    ensures var r := |Backed(marked, m)|;
            1 <= r <= |Backed(marked, n)| && Backed(marked, n)[r - 1] == m
  {
    if m < n {
      BackedAt(marked, n - 1, m);
    }
  }

  lemma {:induction false} BackedAll(marked: set<nat>, n: nat)
    requires forall m :: 1 <= m <= n ==> m in marked
    ensures |Backed(marked, n)| == n && forall i :: 0 <= i < n ==> Backed(marked, n)[i] == i + 1
  {
    if n > 0 {
      BackedAll(marked, n - 1);
    }
  }

  lemma {:induction false} PickAt<T>(hits: seq<T>, backed: seq<nat>)
    requires forall i :: 0 <= i < |backed| ==> 1 <= backed[i] <= |hits|
    ensures |Pick(hits, backed)| == |backed|
    ensures forall i :: 0 <= i < |backed| ==> Pick(hits, backed)[i] == hits[backed[i] - 1]
  {
    if backed != [] {
      PickAt(hits, backed[1..]);
    }
  }

  lemma ElementsPush(s: seq<nat>, n: nat)
    ensures Elements(s + [n]) == Elements(s) + {n}
  {
  }

  lemma {:induction false} BackedSet(marked: set<nat>, n: nat)
    ensures Elements(Backed(marked, n)) == set m | m in marked && 1 <= m <= n
    ensures |Elements(Backed(marked, n))| == |Backed(marked, n)|
  {
    if n > 0 {
      hide Elements;
      var b := Backed(marked, n - 1);
      BackedSet(marked, n - 1);
      ElementsPush(b, n);
      if n in marked {
        assert n !in Elements(b);
      } else {
        assert b + [] == b;
      }
    } else {
      assert Backed(marked, n) == [];
    }
  }

  /** Comparing the two counts tells whether every marker is in range. */
  lemma CountsMeanInRange(marked: set<nat>, n: nat)
    ensures |Backed(marked, n)| == |marked| <==> forall m :: m in marked ==> 1 <= m <= n
  {
    BackedSet(marked, n);
    var e := Elements(Backed(marked, n));
    assert e <= marked;
    if |e| == |marked| {
      SameSize(e, marked);
    }
    if forall m :: m in marked ==> 1 <= m <= n {
      assert e == marked;
    }
  }

  lemma {:induction false} SameSize(a: set<nat>, b: set<nat>)
    requires a <= b && |a| == |b|
    ensures a == b
    decreases a
  {
    if a != {} {
      var x :| x in a;
      SameSize(a - {x}, b - {x});
    }
  }

  lemma {:induction false} MarkersRename(ts: seq<Token>, f: nat -> nat)
    requires Numbered(ts)
    ensures Numbered(Rename(ts, f))
    ensures |Markers(Rename(ts, f))| == |Markers(ts)|
    ensures forall i :: 0 <= i < |Markers(ts)| ==> Markers(Rename(ts, f))[i] == f(Markers(ts)[i])
  {
    if ts != [] {
      var rest := ts[1..];
      assert forall i :: 0 <= i < |rest| ==> rest[i] == ts[i + 1];
      MarkersRename(rest, f);
      var renamed := Rename(ts, f);
      assert renamed[1..] == Rename(rest, f);
      if ts[0].Cite? {
        NaturalOfDecimal(f(Natural(ts[0].digits)));
      }
    }
  }

  /** Renaming canonical numbers by a function that leaves them alone changes nothing. */
  lemma {:induction false} RenameAgain(ts: seq<Token>, f: nat -> nat, g: nat -> nat)
    requires Numbered(ts) && forall i :: 0 <= i < |Markers(ts)| ==> g(f(Markers(ts)[i])) == f(Markers(ts)[i])
    ensures Numbered(Rename(ts, f)) && Rename(Rename(ts, f), g) == Rename(ts, f)
  {
    MarkersRename(ts, f);
    if ts != [] {
      var rest := ts[1..];
      assert forall i :: 0 <= i < |rest| ==> rest[i] == ts[i + 1];
      var renamed := Rename(ts, f);
      assert renamed[1..] == Rename(rest, f);
      if ts[0].Cite? {
        assert Markers(ts)[0] == Natural(ts[0].digits);
        assert forall i :: 0 <= i < |Markers(rest)| ==> Markers(rest)[i] == Markers(ts)[i + 1];
        NaturalOfDecimal(f(Natural(ts[0].digits)));
      } else {
        assert Markers(ts) == Markers(rest);
      }
      RenameAgain(rest, f, g);
    }
  }

  // ------------------------------------------------------------ main results

  /** Every marker of the text names one of `n` passages, and there is one. */
  predicate InRange(text: string, n: nat) {
    MarkersOf(text) != [] && forall i :: 0 <= i < |MarkersOf(text)| ==> 1 <= MarkersOf(text)[i] <= n
  }

  lemma MarkedWhen(ms: seq<nat>, n: nat)
    ensures var marked := Elements(ms);
            (marked != {} && |Backed(marked, n)| == |marked|)
            <==> (ms != [] && forall i :: 0 <= i < |ms| ==> 1 <= ms[i] <= n)
  {
    var marked := Elements(ms);
    CountsMeanInRange(marked, n);
    assert forall i :: 0 <= i < |ms| ==> ms[i] in marked;
    assert forall m :: m in marked ==> m in ms;
    if ms != [] {
      assert ms[0] in marked;
    }
  }

  /** Renumbering happens exactly when every marker is in range. */
  lemma FinishedWhen<T>(text: string, hits: seq<T>)
    ensures var marked := Elements(MarkersOf(text));
            var backed := Backed(marked, |hits|);
            && (forall i :: 0 <= i < |backed| ==> 1 <= backed[i] <= |hits|)
            && (InRange(text, |hits|) ==> Finished(text, hits) == (Rewrite(text, Rank(marked)), Pick(hits, backed)))
            && (!InRange(text, |hits|) ==> Finished(text, hits) == (text, hits))
  {
    hide MarkersOf, Rename, Write, Pick;
    MarkedWhen(MarkersOf(text), |hits|);
    BackedFacts(Elements(MarkersOf(text)), |hits|);
    ScanNumbered(text);
  }

  lemma RewrittenMarkers(text: string, f: nat -> nat)
    ensures |MarkersOf(Rewrite(text, f))| == |MarkersOf(text)|
    ensures forall i :: 0 <= i < |MarkersOf(text)| ==> MarkersOf(Rewrite(text, f))[i] == f(MarkersOf(text)[i])
  {
    ScanRewrite(text, f);
    MarkersRename(Scan(text), f);
  }

  /** Citations keep their meaning: as many markers as before, and each names in the printed list
  the passage it named among those retrieved. */
  lemma CitationsKeepMeaning<T>(text: string, hits: seq<T>, i: nat)
    requires InRange(text, |hits|) && i < |MarkersOf(text)|
    ensures var (text2, cited) := Finished(text, hits);
            && |MarkersOf(text2)| == |MarkersOf(text)|
            && 1 <= MarkersOf(text2)[i] <= |cited|
            && cited[MarkersOf(text2)[i] - 1] == hits[MarkersOf(text)[i] - 1]
  {
    hide MarkersOf, Rewrite, Pick, Rename, Write, Scan, Backed, Finished;
    var ms := MarkersOf(text);
    var marked := Elements(ms);
    FinishedWhen(text, hits);
    RewrittenMarkers(text, Rank(marked));
    assert ms[i] in marked;
    BackedAt(marked, |hits|, ms[i]);
    PickAt(hits, Backed(marked, |hits|));
  }

  /** Every listed source is cited: the new markers are exactly the numbers from 1 to the length
  of the list. */
  lemma EverySourceCited<T>(text: string, hits: seq<T>)
    requires InRange(text, |hits|)
    ensures var (text2, cited) := Finished(text, hits);
            forall j :: j in Elements(MarkersOf(text2)) <==> 1 <= j <= |cited|
  {
    hide MarkersOf, Rewrite, Pick;
    var ms := MarkersOf(text);
    var marked := Elements(ms);
    var (text2, cited) := Finished(text, hits);
    var backed := Backed(marked, |hits|);
    FinishedWhen(text, hits);
    RewrittenMarkers(text, Rank(marked));
    PickAt(hits, backed);
    BackedFacts(marked, |hits|);
    forall j | j in Elements(MarkersOf(text2))
      ensures 1 <= j <= |cited|
    {
      var i :| 0 <= i < |ms| && MarkersOf(text2)[i] == j;
      CitationsKeepMeaning(text, hits, i);
    }
    forall j | 1 <= j <= |cited|
      ensures j in Elements(MarkersOf(text2))
    {
      var m := backed[j - 1];
      var i :| 0 <= i < |ms| && ms[i] == m;
      BackedAt(marked, |hits|, m);
      assert MarkersOf(text2)[i] == j;
    }
  }

  lemma RewriteAgain(text: string, f: nat -> nat, g: nat -> nat)
    requires forall i :: 0 <= i < |MarkersOf(text)| ==> g(f(MarkersOf(text)[i])) == f(MarkersOf(text)[i])
    ensures Rewrite(Rewrite(text, f), g) == Rewrite(text, f)
  {
    ScanRewrite(text, f);
    var ms := Markers(Scan(text));
    assert forall i :: 0 <= i < |ms| ==> g(f(ms[i])) == f(ms[i]) by {
      assert ms == MarkersOf(text);
    }
    RenameAgain(Scan(text), f, g);
    WriteScan(Rewrite(text, f));
  }

  /** A list of which every entry is cited is its own renumbering. */
  lemma FullListStays<T>(marked: set<nat>, cited: seq<T>)
    requires forall m :: 1 <= m <= |cited| ==> m in marked
    ensures forall n :: 1 <= n <= |cited| ==> Rank(marked)(n) == n
    ensures forall i :: 0 <= i < |Backed(marked, |cited|)| ==> 1 <= Backed(marked, |cited|)[i] <= |cited|
    ensures Pick(cited, Backed(marked, |cited|)) == cited
  {
    forall n | 1 <= n <= |cited|
      ensures Rank(marked)(n) == n
    {
      BackedAll(marked, n);
    }
    BackedAll(marked, |cited|);
    PickAt(cited, Backed(marked, |cited|));
  }

  /** A second pass changes nothing, neither the text nor the list. */
  lemma FinishingTwice<T>(text: string, hits: seq<T>)
    requires InRange(text, |hits|)
    ensures var (text2, cited) := Finished(text, hits);
            InRange(text2, |cited|) && Finished(text2, cited) == (text2, cited)
  {
    hide MarkersOf, Rewrite, Pick, Rank, Backed;
    var f := Rank(Elements(MarkersOf(text)));
    var (text2, cited) := Finished(text, hits);
    var ms2 := MarkersOf(text2);
    FinishedWhen(text, hits);
    FinishedWhen(text2, cited);
    EverySourceCited(text, hits);
    RewrittenMarkers(text, f);
    FullListStays(Elements(ms2), cited);
    assert forall i :: 0 <= i < |ms2| ==> ms2[i] in Elements(ms2);
    RewriteAgain(text, f, Rank(Elements(ms2)));
  }

  // --------------------------------------------------------- the source list

  datatype Hit = Hit(url: string, section: string)

  datatype SourceRow = SourceRow(marker: nat, url: string, section: string, first: bool)

  /** `_source_rows`: numbered from one, and `first` where a document is listed for the first time. */
  method SourceRows(hits: seq<Hit>) returns (rows: seq<SourceRow>)
    ensures |rows| == |hits|
    ensures forall i :: 0 <= i < |rows| ==>
              rows[i].marker == i + 1 && rows[i].url == hits[i].url && rows[i].section == hits[i].section
    ensures forall i :: 0 <= i < |rows| ==>
              (rows[i].first <==> forall j :: 0 <= j < i ==> hits[j].url != hits[i].url)
  {
    rows := [];
    var seen: set<string> := {};
    for i := 0 to |hits|
      invariant |rows| == i
      invariant forall k :: 0 <= k < i ==>
                  rows[k].marker == k + 1 && rows[k].url == hits[k].url && rows[k].section == hits[k].section
      invariant forall k :: 0 <= k < i ==>
                  (rows[k].first <==> forall j :: 0 <= j < k ==> hits[j].url != hits[k].url)
      invariant forall url :: url in seen <==> exists j :: 0 <= j < i && hits[j].url == url
    {
      rows := rows + [SourceRow(i + 1, hits[i].url, hits[i].section, hits[i].url !in seen)];
      seen := seen + {hits[i].url};
    }
  }
}
