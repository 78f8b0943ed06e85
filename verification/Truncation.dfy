/** What `salvage` recovers from a response of the vision model cut at any character. */
module Truncation {
  import opened Wrappers
  import opened JsonText
  import opened JsonParser
  import opened Scanner

  // ------------------------------------------------ the list that was begun

  /** How many characters of the printed list precede the end of its `j`-th value. */
  function EndOf(es: Elems, j: nat): nat
    requires j < |Values(es)|
  {
    if j == 0 then |es.pre| + |Print(es.value)|
    else |es.pre| + |Print(es.value)| + |es.post| + 1 + EndOf(es.rest, j - 1)
  }

  /** `k` counts the values up to the last object that ends within the first `m` characters. */
  ghost predicate CompletedBy(es: Elems, m: int, k: nat) {
    && k <= |Values(es)|
    && (k > 0 ==> IsObject(Values(es)[k - 1]) && EndOf(es, k - 1) <= m)
    && forall j :: k <= j < |Values(es)| && IsObject(Values(es)[j]) ==> EndOf(es, j) > m
  }

  lemma NoneCompleted(es: Elems, m: int)
    requires m < |es.pre| + |Print(es.value)|
    ensures CompletedBy(es, m, 0)
  {
    hide Emit, IsObject, Print;
  }

  /** What counts behind the first value, counted from there. */
  lemma CompletedNext(es: Elems, m: int, later: nat)
    requires m >= |es.pre| + |Print(es.value)|
    requires if es.More? then CompletedBy(es.rest, m - |es.pre| - |Print(es.value)| - |es.post| - 1, later) else later == 0
    ensures CompletedBy(es, m, if later > 0 then later + 1 else if IsObject(es.value) then 1 else 0)
  {
    hide Emit, IsObject, Print;
    if es.More? {
      assert Values(es) == [es.value] + Values(es.rest);
      forall j | 0 < j < |Values(es)|
        ensures Values(es)[j] == Values(es.rest)[j - 1]
        ensures EndOf(es, j) == |es.pre| + |Print(es.value)| + |es.post| + 1 + EndOf(es.rest, j - 1)
      {
      }
    }
  }

  function Completed(es: Elems, m: int): (k: nat)
    ensures CompletedBy(es, m, k)
  {
    var first := |es.pre| + |Print(es.value)|;
    if m < first then
      NoneCompleted(es, m);
      0
    else
      var later := if es.More? then Completed(es.rest, m - first - |es.post| - 1) else 0;
      CompletedNext(es, m, later);
      if later > 0 then later + 1
      else if IsObject(es.value) then 1
      else 0
  }

  // ---------------------------------------------- the scanner over one value

  function EndsAfter(v: Value, at: nat, ends: seq<nat>): seq<nat>
    requires IsObject(v) ==> |Print(v)| > 0
  {
    if IsObject(v) then ends + [at + |Print(v)| - 1] else ends
  }

  /** Scanning the first `n` characters of an object that stands at depth 0. */
  lemma ObjectScan(v: Value, rest: string, at: nat, ends: seq<nat>, n: nat)
    requires Good(v) && IsObject(v) && n <= |Emit(v, rest)|
    ensures |Emit(v, rest)| == |Print(v)| + |rest| && |Print(v)| > 0
    ensures n < |Print(v)| ==>
      Calm(Run(Out(0, ends), Emit(v, rest)[..n], at), if n > 0 then 1 else 0, ends)
    ensures |Print(v)| <= n ==> (
      Run(Out(0, ends), Emit(v, rest)[..n], at)
      == Run(Out(0, EndsAfter(v, at, ends)), rest[..n - |Print(v)|], at + |Print(v)|))
  {
    hide Emit;
    PrintThen(v, rest);
    var s := Emit(v, rest);
    ReachesInside(v, rest, at, 0, ends);
    if n > 0 {
      var close := ['}'] + rest;
      assert s[..n][1..] == s[1..][..n - 1];
      ReachesRun(Out(1, ends), s[1..], at + 1, Out(1, ends), close, 1, ends, n - 1);
      if |Print(v)| <= n {
        var m := n - |Print(v)|;
        assert close[..m + 1][1..] == rest[..m];
      }
    }
  }

  lemma ValueScan(v: Value, rest: string, at: nat, ends: seq<nat>, n: nat)
    requires Good(v) && n <= |Emit(v, rest)|
    ensures |Emit(v, rest)| == |Print(v)| + |rest| && |Print(v)| > 0
    ensures n < |Print(v)| ==> Run(Out(0, ends), Emit(v, rest)[..n], at).ends == ends
    ensures |Print(v)| <= n ==> (
      Run(Out(0, ends), Emit(v, rest)[..n], at)
      == Run(Out(0, EndsAfter(v, at, ends)), rest[..n - |Print(v)|], at + |Print(v)|))
  {
    hide Emit;
    PrintThen(v, rest);
    ValueStarts(v, "");
    if IsObject(v) {
      ObjectScan(v, rest, at, ends, n);
    } else {
      ReachesValue(v, rest, at, 0, ends);
      ReachesRun(Out(0, ends), Emit(v, rest), at, Out(0, ends), rest, 0, ends, n);
    }
  }

  /** Scanning blanks or a comma changes nothing. */
  lemma PlainScan(w: string, rest: string, at: nat, ends: seq<nat>, n: nat)
    requires (forall i :: 0 <= i < |w| ==> IsPlain(w[i])) && n <= |w| + |rest|
    ensures n < |w| ==> Run(Out(0, ends), (w + rest)[..n], at).ends == ends
    ensures |w| <= n ==>
      Run(Out(0, ends), (w + rest)[..n], at) == Run(Out(0, ends), rest[..n - |w|], at + |w|)
  {
    ReachesPlain(w, rest, at, 0, ends);
    ReachesRun(Out(0, ends), w + rest, at, Out(0, ends), rest, 0, ends, n);
  }

  lemma ElemsUnfold(es: Elems, close: string)
    requires GoodElems(es, false)
    ensures EmitElems(es, close)
         == es.pre + Emit(es.value, es.post + (if es.More? then [','] + EmitElems(es.rest, close) else close))
  {
    hide Emit, Good;
  }

  /** Scanning the beginning of a list, after its opening bracket: the last position recorded
  is where the last completed object ends. */
  lemma {:induction false} ListScan(es: Elems, close: string, at: nat, ends: seq<nat>, m: nat)
    requires GoodElems(es, false) && close != "" && close[0] == ']' && m <= |EmitElems(es, close)|
    ensures var found := Run(Out(0, ends), EmitElems(es, close)[..m], at).ends;
            var k := Completed(es, m);
            if k == 0 then found == ends
            else found != [] && found[|found| - 1] == at + EndOf(es, k - 1) - 1
    decreases es
  {
    hide Emit, Run, CompletedBy, Good, EmitElems;
    ElemsUnfold(es, close);
    var tail := if es.More? then [','] + EmitElems(es.rest, close) else close;
    var s3 := es.post + tail;
    var s2 := Emit(es.value, s3);
    var first := |es.pre| + |Print(es.value)|;
    PrintThen(es.value, s3);
    PlainScan(es.pre, s2, at, ends, m);
    if m >= |es.pre| {
      ValueScan(es.value, s3, at + |es.pre|, ends, m - |es.pre|);
    }
    if m >= first {
      TailScan(es, close, at + first, EndsAfter(es.value, at + |es.pre|, ends), m - first);
    }
  }

  /** At the bracket that closes the list nothing more is recorded. */
  lemma CloseScan(s: string, at: nat, ends: seq<nat>)
    requires s == "" || s[0] == ']'
    ensures Run(Out(0, ends), s, at).ends == ends
  {
    if s != "" {
      RunClosed(Out(0, ends).(closed := true), s[1..], at + 1);
    }
  }

  /** The same from behind the first value on. */
  lemma TailScan(es: Elems, close: string, at: nat, ends: seq<nat>, m: nat)
    requires GoodElems(es, false) && close != "" && close[0] == ']'
    requires m <= |es.post + (if es.More? then [','] + EmitElems(es.rest, close) else close)|
    ensures var tail := if es.More? then [','] + EmitElems(es.rest, close) else close;
            var found := Run(Out(0, ends), (es.post + tail)[..m], at).ends;
            var k := if es.More? then Completed(es.rest, m - |es.post| - 1) else 0;
            if k == 0 then found == ends
            else found != [] && found[|found| - 1] == at + |es.post| + EndOf(es.rest, k - 1)
    decreases es, 0
  {
    hide Run, CompletedBy, EmitElems, Emit, Good;
    var tail := if es.More? then [','] + EmitElems(es.rest, close) else close;
    PlainScan(es.post, tail, at, ends, m);
    var p := at + |es.post|;
    if m >= |es.post| {
      var n := m - |es.post|;
      if es.More? {
        PlainScan([','], EmitElems(es.rest, close), p, ends, n);
        if n >= 1 {
          ListScan(es.rest, close, p + 1, ends, n - 1);
        }
      } else {
        CloseScan(close[..n], p, ends);
      }
    }
  }

  /** `CompletedBy` leaves no choice. */
  lemma CompletedByUnique(es: Elems, m: int, k1: nat, k2: nat)
    requires CompletedBy(es, m, k1) && CompletedBy(es, m, k2)
    ensures k1 == k2
  {
  }

  // ---------------------------------------------------- the rebuilt fragment

  /** The first `k` elements, ending right behind the last value. */
  function Cut(es: Elems, k: nat): Elems
    requires 0 < k <= |Values(es)|
  {
    if k == 1 then Final(es.pre, es.key, es.value, "")
    else More(es.pre, es.key, es.value, es.post, Cut(es.rest, k - 1))
  }

  /** What `Cut` leaves out of the printed list. */
  function CutOff(es: Elems, k: nat, close: string): string
    requires 0 < k <= |Values(es)|
  {
    if k == 1 then es.post + (if es.More? then [','] + EmitElems(es.rest, close) else close)
    else CutOff(es.rest, k - 1, close)
  }

  lemma {:induction false} CutPrints(es: Elems, k: nat, close: string)
    requires 0 < k <= |Values(es)| && GoodElems(es, false)
    ensures GoodElems(Cut(es, k), false)
    ensures Values(Cut(es, k)) == Values(es)[..k]
    ensures EmitElems(es, close) == EmitElems(Cut(es, k), CutOff(es, k, close))
  {
    hide Emit, EmitKey, Good;
    if k == 1 {
      assert "" + CutOff(es, 1, close) == CutOff(es, 1, close);
    } else {
      CutPrints(es.rest, k - 1, close);
    }
  }

  lemma {:induction false} CutLength(es: Elems, k: nat, rest: string)
    requires 0 < k <= |Values(es)| && GoodElems(es, false)
    ensures |EmitElems(Cut(es, k), rest)| == EndOf(es, k - 1) + |rest|
  {
    hide Emit, Good;
    var cut := Cut(es, k);
    if k == 1 {
      PrintThen(es.value, cut.post + rest);
    } else {
      CutLength(es.rest, k - 1, rest);
      PrintThen(es.value, cut.post + ([','] + EmitElems(cut.rest, rest)));
    }
  }

  lemma ListLoads(es: Elems)
    requires GoodElems(es, false)
    ensures Loads(['['] + EmitElems(es, "") + [']']) == Some(Node(false, es))
  {
    hide EmitElems, Loads, GoodElems;
    var v := Node(false, es);
    EmitElemsSplits(es, "", [']']);
    assert "" + [']'] == [']'] == [']'] + "";
    LoadsPrinted("", v, "");
    assert Emit(v, "") == "" + Emit(v, "");
    assert Emit(v, "") == ['['] + EmitElems(es, "") + [']'];
  }

  /** Closing the list behind its `k`-th value gives a list of its first `k` values. */
  lemma CutRebuilds(es: Elems, k: nat, close: string)
    requires 0 < k <= |Values(es)| && GoodElems(es, false)
    ensures EndOf(es, k - 1) <= |EmitElems(es, close)|
    ensures Rebuild(['['] + EmitElems(es, close)[..EndOf(es, k - 1)] + [']'])
         == Salvaged(Some(Values(es)[..k]), true)
  {
    hide EmitElems, Loads, Cut, CutOff, GoodElems;
    var cut := Cut(es, k);
    var off := CutOff(es, k, close);
    CutPrints(es, k, close);
    CutLength(es, k, "");
    EmitElemsSplits(cut, "", off);
    assert "" + off == off;
    assert EmitElems(es, close)[..EndOf(es, k - 1)] == EmitElems(cut, "");
    ListLoads(cut);
  }

  // ----------------------------------------------------- the whole response

  /** A response whose first field is `observations`, its name written without escapes, laid out with
  any blanks; a good one gives a list there. */
  datatype Response = Response(lead: string, pre: string, gap1: string, gap2: string, list: Value,
                               post: string, others: Option<Elems>, trail: string)

  function Plainly(s: string): seq<Piece> {
    if s == "" then [] else [Plain(s[0])] + Plainly(s[1..])
  }

  function Elements(r: Response): Elems {
    var key := Key(Plainly(Field()), r.gap1, r.gap2);
    match r.others
    case None => Final(r.pre, key, r.list, r.post)
    case Some(es) => More(r.pre, key, r.list, r.post, es)
  }

  predicate GoodResponse(r: Response) {
    && Blank(r.lead) && Blank(r.trail) && IsArray(r.list)
    && GoodElems(Elements(r), true)
  }

  function TextOf(r: Response): string {
    r.lead + Emit(Node(true, Elements(r)), r.trail)
  }

  /** Everything in front of the list's opening bracket. */
  function Head(r: Response): string {
    r.lead + (['{'] + (r.pre + (Marker() + (r.gap1 + ([':'] + r.gap2)))))
  }

  function AfterList(r: Response): string {
    var close := ['}'] + r.trail;
    r.post + (match r.others case None => close case Some(es) => [','] + EmitElems(es, close))
  }

  lemma {:induction false} PlainlyEmits(s: string, rest: string)
    ensures EmitPieces(Plainly(s), rest) == s + rest
  {
    if s == "" {
      assert s + rest == rest;
    } else {
      PlainlyEmits(s[1..], rest);
      assert [s[0]] + (s[1..] + rest) == s + rest;
    }
  }

  lemma KeyEmits(gap1: string, gap2: string, rest: string)
    ensures EmitKey(Key(Plainly(Field()), gap1, gap2), rest) == Marker() + (gap1 + ([':'] + (gap2 + rest)))
  {
    hide EmitPieces, Field, Plainly;
    PlainlyEmits(Field(), ['"'] + (gap1 + ([':'] + (gap2 + rest))));
  }

  lemma HeadThen(r: Response, s: string)
    ensures Head(r) + s == r.lead + (['{'] + (r.pre + (Marker() + (r.gap1 + ([':'] + (r.gap2 + s))))))
  {
    hide Marker;
    var s1 := [':'] + r.gap2;
    assert [':'] + (r.gap2 + s) == s1 + s;
    var s2 := r.gap1 + s1;
    assert r.gap1 + (s1 + s) == s2 + s;
    var s3 := Marker() + s2;
    assert Marker() + (s2 + s) == s3 + s;
    var s4 := r.pre + s3;
    assert r.pre + (s3 + s) == s4 + s;
    assert ['{'] + (s4 + s) == (['{'] + s4) + s;
  }

  lemma TextUnfolds(r: Response)
    ensures TextOf(r) == r.lead + (['{'] + (r.pre + EmitKey(Elements(r).key, Emit(r.list, AfterList(r)))))
  {
    hide EmitKey, Field, Plainly, EmitNumeral, EmitText, Spell;
    var es := Elements(r);
    var close := ['}'] + r.trail;
    assert Emit(Node(true, es), r.trail) == ['{'] + EmitElems(es, close);
    assert EmitElems(es, close) == EmitFirst(es, if es.More? then [','] + EmitElems(es.rest, close) else close);
  }

  lemma TextSplits(r: Response)
    ensures TextOf(r) == Head(r) + Emit(r.list, AfterList(r))
  {
    hide EmitKey, Marker, Field, Plainly;
    KeyEmits(r.gap1, r.gap2, Emit(r.list, AfterList(r)));
    TextUnfolds(r);
    HeadThen(r, Emit(r.list, AfterList(r)));
  }

  // --------------------------------------------------- finding the list

  lemma {:induction false} FindsAt(s: string, pattern: string, from: nat, i: nat)
    requires pattern != "" && from <= i && i + |pattern| <= |s| && s[i..i + |pattern|] == pattern
    requires forall j :: from <= j < i ==> s[j] != pattern[0]
    ensures Find(s, pattern, from) == Some(i)
    decreases |s| - from
  {
    if from < i {
      assert s[from..from + |pattern|][0] == s[from];
      FindsAt(s, pattern, from + 1, i);
    }
  }

  lemma {:induction false} FindsNone(s: string, pattern: string, from: nat)
    requires pattern != "" && from <= |s|
    requires forall j :: from <= j && j + |pattern| <= |s| ==> s[j] != pattern[0]
    ensures Find(s, pattern, from) == None
    decreases |s| - from
  {
    if from + |pattern| <= |s| {
      assert s[from..from + |pattern|][0] == s[from];
      FindsNone(s, pattern, from + 1);
    }
  }

  lemma MarkerChars()
    ensures |Marker()| >= 2 && Marker()[0] == '"'
    ensures forall j :: 0 <= j < |Marker()| ==> Marker()[j] != '['
  {
  }

  /** Where the field's name stands. */
  function NameAt(r: Response): nat {
    |r.lead| + 1 + |r.pre|
  }

  lemma HeadChars(r: Response)
    requires GoodResponse(r)
    ensures NameAt(r) + |Marker()| <= |Head(r)|
    ensures forall j :: 0 <= j < NameAt(r) ==> Head(r)[j] != '"'
    ensures forall j :: NameAt(r) <= j < |Head(r)| ==> Head(r)[j] != '['
    ensures Head(r)[NameAt(r)..NameAt(r) + |Marker()|] == Marker()
  {
    hide Marker, Field, Plainly, Good;
    MarkerChars();
    var lead := r.lead + (['{'] + r.pre);
    var gaps := r.gap1 + ([':'] + r.gap2);
    assert Head(r) == lead + (Marker() + gaps);
    assert forall j :: 0 <= j < |gaps| ==> gaps[j] != '[';
    assert forall j :: 0 <= j < |lead| ==> lead[j] != '"';
  }

  /** A cut in front of the list's opening bracket leaves nothing to salvage. */
  lemma CutBeforeList(r: Response, n: nat)
    requires GoodResponse(r) && n <= |Head(r)|
    ensures Salvage(Head(r)[..n]) == Salvaged(None, false)
  {
    hide Marker, Head, GoodResponse, Rebuild, Run;
    var s := Head(r)[..n];
    HeadChars(r);
    MarkerChars();
    if n < NameAt(r) + |Marker()| {
      FindsNone(s, Marker(), 0);
    } else {
      assert s[NameAt(r)..NameAt(r) + |Marker()|] == Marker();
      FindsAt(s, Marker(), 0, NameAt(r));
      FindsNone(s, "[", NameAt(r));
    }
  }

  lemma ListFound(r: Response, rest: string)
    requires GoodResponse(r)
    ensures var body := Head(r) + (['['] + rest);
            Find(body, Marker(), 0) == Some(NameAt(r)) && NameAt(r) <= |body| && Find(body, "[", NameAt(r)) == Some(|Head(r)|)
  {
    hide Marker, Head, GoodResponse;
    var body := Head(r) + (['['] + rest);
    HeadChars(r);
    MarkerChars();
    assert body[NameAt(r)..NameAt(r) + |Marker()|] == Head(r)[NameAt(r)..NameAt(r) + |Marker()|];
    FindsAt(body, Marker(), 0, NameAt(r));
    assert body[|Head(r)|..|Head(r)| + 1] == "[";
    FindsAt(body, "[", NameAt(r), |Head(r)|);
  }

  /** A cut behind it makes the scanner start right behind the bracket. */
  lemma CutInList(r: Response, rest: string)
    requires GoodResponse(r)
    ensures var body := Head(r) + (['['] + rest);
            var open := |Head(r)|;
            var ends := Run(Out(0, []), rest, open + 1).ends;
            Salvage(body) ==
              if ends == [] then Salvaged(None, true)
              else if open <= ends[|ends| - 1] < |body| then Rebuild(body[open..ends[|ends| - 1] + 1] + "]")
              else Salvaged(None, true)
  {
    hide Marker, Head, GoodResponse, Rebuild, Run, Find, NameAt;
    ListFound(r, rest);
    assert (Head(r) + (['['] + rest))[|Head(r)| + 1..] == rest;
  }

  // ------------------------------------------------------------ main results

  /** How many values survive when `m` characters follow the list's opening bracket. */
  function Kept(r: Response, m: int): (k: nat)
    requires IsArray(r.list)
    ensures k <= |ArrayValues(r.list)|
    ensures r.list.Node? ==> CompletedBy(r.list.elems, m, k)
  {
    if r.list.Node? then Completed(r.list.elems, m) else 0
  }

  /** What a cut `m` characters behind the list's opening bracket leaves: nothing in front of
  the list, and behind it the values up to the last object that is still whole. */
  function Recovered(r: Response, m: int): Salvaged
    requires IsArray(r.list)
  {
    if m < 0 then Salvaged(None, false)
    else if Kept(r, m) == 0 then Salvaged(None, true)
    else Salvaged(Some(ArrayValues(r.list)[..Kept(r, m)]), true)
  }

  /** Scanning the printed list, cut `m` characters behind its opening bracket. */
  lemma ListRun(v: Value, tail: string, at: nat, m: nat)
    requires Good(v) && IsArray(v) && m < |Emit(v, tail)|
    ensures var found := Run(Out(0, []), Emit(v, tail)[1..m + 1], at).ends;
            var k := if v.Node? then Completed(v.elems, m) else 0;
            if k == 0 then found == []
            else found != [] && found[|found| - 1] == at + EndOf(v.elems, k - 1) - 1
  {
    hide Run, Completed, GoodElems, EmitElems;
    var close := [']'] + tail;
    match v
    case Node(_, es) =>
      assert Emit(v, tail)[1..m + 1] == EmitElems(es, close)[..m];
      ListScan(es, close, at, [], m);
    case Empty(_, gap) =>
      assert Emit(v, tail)[1..m + 1] == (gap + close)[..m];
      PlainScan(gap, close, at, [], m);
      if m >= |gap| {
        CloseScan(close[..m - |gap|], at + |gap|, []);
      }
  }

  lemma ListGood(r: Response)
    requires GoodResponse(r)
    ensures Good(r.list) && (r.list.Node? ==> GoodElems(r.list.elems, false))
  {
  }

  /** For every response and every cut: nothing in front of the list, and behind it exactly the
  values up to the last object that the cut left whole, in order and unchanged. */
  lemma SalvageExact(r: Response, n: nat)
    requires GoodResponse(r) && n <= |TextOf(r)|
    ensures Salvage(TextOf(r)[..n]) == Recovered(r, n - |Head(r)| - 1)
  {
    hide Emit, Head, TextOf, Salvage, Kept, AfterList, GoodElems, Elements;
    var m := n - |Head(r)| - 1;
    TextSplits(r);
    if m < 0 {
      assert TextOf(r)[..n] == Head(r)[..n];
      CutBeforeList(r, n);
    } else {
      CutText(r, n, m);
      SalvageInList(r, m);
    }
  }

  lemma CutText(r: Response, n: nat, m: nat)
    requires IsArray(r.list) && n <= |TextOf(r)| && m == n - |Head(r)| - 1
    ensures m < |Emit(r.list, AfterList(r))|
    ensures TextOf(r)[..n] == Head(r) + (['['] + Emit(r.list, AfterList(r))[1..m + 1])
  {
    hide Emit, Head, TextOf, AfterList;
    TextSplits(r);
    ListOpens(r.list, AfterList(r));
  }

  lemma SalvageInList(r: Response, m: nat)
    requires GoodResponse(r) && m < |Emit(r.list, AfterList(r))|
    ensures Salvage(Head(r) + (['['] + Emit(r.list, AfterList(r))[1..m + 1])) == Recovered(r, m)
  {
    hide Emit, Head, Rebuild, Salvage, Run, Completed, GoodElems, AfterList, Elements, Values;
    ListGood(r);
    CutInList(r, Emit(r.list, AfterList(r))[1..m + 1]);
    ListRun(r.list, AfterList(r), |Head(r)| + 1, m);
    var k := Kept(r, m);
    if k > 0 {
      SalvageKept(r, m, k);
    }
  }

  lemma ListOpens(v: Value, rest: string)
    requires IsArray(v)
    ensures Emit(v, rest) != "" && Emit(v, rest)[0] == '['
  {
  }

  /** The fragment that the source rebuilds is the printed list up to the last recorded end. */
  lemma SalvageKept(r: Response, m: nat, k: nat)
    requires GoodResponse(r) && r.list.Node? && 0 < k <= |Values(r.list.elems)|
    requires m < |Emit(r.list, AfterList(r))| && EndOf(r.list.elems, k - 1) <= m
    ensures var open := |Head(r)|;
            var body := Head(r) + (['['] + Emit(r.list, AfterList(r))[1..m + 1]);
            var last := open + EndOf(r.list.elems, k - 1);
            && last < |body|
            && Rebuild(body[open..last + 1] + "]") == Salvaged(Some(Values(r.list.elems)[..k]), true)
  {
    hide Head, Rebuild, EmitElems, Elements, EndOf, Values, EmitFirst;
    ListGood(r);
    var es := r.list.elems;
    var close := [']'] + AfterList(r);
    var e := EndOf(es, k - 1);
    var s := EmitElems(es, close);
    assert Emit(r.list, AfterList(r))[1..m + 1] == s[..m];
    CutRebuilds(es, k, close);
    var body := Head(r) + (['['] + s[..m]);
    assert body[|Head(r)|..|Head(r)| + e + 1] == ['['] + s[..e];
  }

  // ------------------------------------------- a cut object is never JSON

  /** Scanning a whole JSON text ends outside every bracket. */
  lemma WholeScan(pre: string, v: Value, post: string)
    requires Good(v) && Blank(pre) && Blank(post)
    ensures Run(Out(0, []), pre + Emit(v, post), 0).depth == 0
  {
    hide Emit, Run;
    var s := Emit(v, post);
    PlainScan(pre, s, 0, [], |pre| + |s|);
    assert (pre + s)[..|pre| + |s|] == pre + s;
    ValueScan(v, post, |pre|, [], |s|);
    assert s[..|s|] == s && post[..|post|] == post;
    var ends := EndsAfter(v, |pre|, []);
    ReachesPlain(post, "", |pre| + |Print(v)|, 0, ends);
    assert post + "" == post;
    ReachesRun(Out(0, ends), post, |pre| + |Print(v)|, Out(0, ends), "", 0, ends, |post|);
    RunNothing(Out(0, ends), |pre| + |Print(v)| + |post|);
  }

  lemma RunNothing(st: Scan, at: nat)
    ensures Run(st, "", at) == st && Run(st, ""[..0], at) == st
  {
  }

  /** An object cut anywhere before its closing brace is no JSON text. */
  lemma CutObjectDiffers(pre: string, v: Value, post: string, n: nat, p: string, w: Value, q: string)
    requires Good(v) && IsObject(v) && Blank(pre) && n < |pre| + |Print(v)| && n <= |pre + Emit(v, post)|
    requires Good(w) && Blank(p) && Blank(q)
    ensures (pre + Emit(v, post))[..n] != p + Emit(w, q)
  {
    hide Emit, Run, Good;
    PrintThen(v, post);
    var text := Emit(v, post);
    if n > |pre| {
      PlainScan(pre, text, 0, [], n);
      ObjectScan(v, post, |pre|, [], n - |pre|);
      assert Run(Out(0, []), (pre + text)[..n], 0).depth > 0;
      WholeScan(p, w, q);
    } else {
      ValueStarts(w, q);
      assert !IsWs((p + Emit(w, q))[|p|]);
      assert (pre + text)[..n] == pre[..n];
    }
  }

  lemma CutObjectFails(pre: string, v: Value, post: string, n: nat)
    requires Good(v) && IsObject(v) && Blank(pre) && n < |pre| + |Print(v)|
    ensures n <= |pre + Emit(v, post)|
    ensures Loads((pre + Emit(v, post))[..n]) == None
  {
    hide Emit, Loads, Good;
    PrintThen(v, post);
    var s := (pre + Emit(v, post))[..n];
    if Loads(s).Some? {
      var w := Loads(s).value;
      LoadsExact(s, w);
      forall p, q | Blank(p) && Blank(q)
        ensures s != p + Emit(w, q)
      {
        CutObjectDiffers(pre, v, post, n, p, w, q);
      }
    }
  }
}
