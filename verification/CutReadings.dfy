/** Cutting a response of the vision model anywhere can only shorten what is read from it. */
module CutReadings {
  import opened Decimals
  import opened Wrappers
  import opened JsonText
  import opened JsonParser
  import opened Scanner
  import opened Truncation
  import opened Decode

  // ----------------------------------------------- prefixes through the loop

  lemma {:induction false} ReadAllPrefix(raws: seq<Value>, k: nat, image: Str, c: Contract)
    requires k <= |raws| && forall v :: v in raws ==> Good(v)
    ensures ReadAll(raws[..k], image, c).decoded <= ReadAll(raws, image, c).decoded
    ensures ReadAll(raws[..k], image, c).refused <= ReadAll(raws, image, c).refused
  {
    hide Good, ForbiddenName, DecodeObservation;
    if k == |raws| {
      assert raws[..k] == raws;
    } else {
      var shorter := raws[..|raws| - 1];
      assert raws[..k] == shorter[..k];
      ReadAllPrefix(shorter, k, image, c);
    }
  }

  lemma {:induction false} DistinctPrefix(s: seq<Str>, k: nat)
    requires k <= |s|
    ensures Distinct(s[..k]) <= Distinct(s)
  {
    if k == |s| {
      assert s[..k] == s;
    } else {
      assert s[..k] == s[..|s| - 1][..k];
      DistinctPrefix(s[..|s| - 1], k);
    }
  }

  /** Fewer raw observations give a prefix of the readings, cap and duplicates included. */
  lemma PerceivedPrefix(raws: seq<Value>, k: nat, cannot: seq<Str>, cannot2: seq<Str>, image: Str,
                        truncated: bool, c: Contract)
    requires k <= |raws| && forall v :: v in raws ==> Good(v)
    ensures var part := Perceived(raws[..k], cannot2, image, truncated, c);
            var whole := Perceived(raws, cannot, image, false, c);
            part.observations <= whole.observations && part.refused <= whole.refused
  {
    hide Good, ReadAll, Distinct;
    var capped := Capped(raws);
    var j := if k <= |capped| then k else |capped|;
    assert Capped(raws[..k]) == capped[..j];
    ReadAllPrefix(capped, j, image, c);
    var refused := ReadAll(capped, image, c).refused;
    var fewer := ReadAll(capped[..j], image, c).refused;
    assert fewer == refused[..|fewer|];
    DistinctPrefix(refused, |fewer|);
  }

  // ------------------------------------------------ what the tree's fields say

  lemma {:induction false} PlainlyDecodes(s: string)
    requires GoodPieces(Plainly(s))
    ensures DecodePieces(Plainly(s)) == Codes(s)
  {
    if s != "" {
      assert Plainly(s)[1..] == Plainly(s[1..]);
      assert forall i :: 0 <= i < |Plainly(s[1..])| ==> Plainly(s[1..])[i] == Plainly(s)[i + 1];
      PlainlyDecodes(s[1..]);
    }
  }

  /** No later field of the response is called `observations` again. */
  ghost predicate Unrepeated(r: Response)
    requires GoodResponse(r)
  {
    r.others.Some? ==> Member(r.others.value, Codes(Field())).None?
  }

  function Tree(r: Response): (v: Value)
    ensures GoodResponse(r) ==> Good(v) && IsObject(v)
  {
    Node(true, Elements(r))
  }

  lemma ListIsRead(r: Response)
    requires GoodResponse(r) && Unrepeated(r)
    ensures ListField(Tree(r), OBSERVATIONS) == Some(ArrayValues(r.list))
  {
    hide Codes, Plainly, Good;
    PlainlyDecodes(Field());
  }

  lemma WholeLoads(r: Response, n: nat)
    requires GoodResponse(r) && |r.lead| + |Print(Tree(r))| <= n <= |TextOf(r)|
    ensures Loads(TextOf(r)[..n]) == Some(Tree(r))
  {
    hide Emit, Elements;
    var t := Tree(r);
    var k := |r.lead| + |Print(t)|;
    PrintThen(t, r.trail);
    PrintThen(t, r.trail[..n - k]);
    assert TextOf(r)[..n] == r.lead + Emit(t, r.trail[..n - k]);
    LoadsPrinted(r.lead, t, r.trail[..n - k]);
  }

  lemma ListGoodValues(r: Response)
    requires GoodResponse(r)
    ensures forall v :: v in ArrayValues(r.list) ==> Good(v)
  {
    hide Elements;
    ListGood(r);
    ArrayValuesGood(r.list);
  }

  /** What the list that the scanner finds, the first of its name, would be read as. */
  function FirstReadings(r: Response, image: Str, c: Contract): Perception
    requires GoodResponse(r)
  {
    ListGoodValues(r);
    Perceived(ArrayValues(r.list), [], image, true, c)
  }

  /** What the list that the parser keeps, the last of its name, is read as, if both required
  fields are lists. */
  function LastReadings(r: Response, image: Str, c: Contract): Perception
    requires GoodResponse(r)
  {
    var list := ListField(Tree(r), OBSERVATIONS);
    if list.Some? && ListField(Tree(r), CANNOT_DETERMINE).Some?
    then Perceived(list.value, [], image, false, c) else Failed(image, false, BrokenContract)
  }

  /** A complete response is read as the last list of that name, or fails the observation contract. */
  lemma TreeReads(r: Response, image: Str, c: Contract)
    requires GoodResponse(r)
    ensures var p := FromTree(Tree(r), image, c); p == LastReadings(r, image, c).(cannot := p.cannot)
  {
    hide Good, Elements, ReadAll, Get, Strings, Codes, GoodResponse;
  }

  /** The two lists are one where the name does not repeat. */
  lemma UnrepeatedReads(r: Response, image: Str, c: Contract)
    requires GoodResponse(r) && Unrepeated(r)
    ensures var p := LastReadings(r, image, c);
            if p.error.None? then p == FirstReadings(r, image, c).(truncated := false)
            else p == Failed(image, false, BrokenContract)
  {
    hide Good, Elements, ReadAll, Get, Strings, Codes, GoodResponse, Tree;
    ListIsRead(r);
    ListGoodValues(r);
  }

  lemma WholeReads(r: Response, n: nat, image: Str, c: Contract)
    requires GoodResponse(r) && |r.lead| + |Print(Tree(r))| <= n <= |TextOf(r)|
    ensures DecodeBody(TextOf(r)[..n], image, c) == FromTree(Tree(r), image, c)
  {
    hide Loads, TextOf, Elements, FromTree, Salvage, Emit;
    WholeLoads(r, n);
  }

  /** A cut inside the object is decoded from what `salvage` recovers. */
  lemma CutReads(r: Response, n: nat, image: Str, c: Contract)
    requires GoodResponse(r) && n < |r.lead| + |Print(Tree(r))|
    ensures n <= |TextOf(r)| && n >= 0
    ensures forall v :: v in ArrayValues(r.list) ==> Good(v)
    ensures var m := n - |Head(r)| - 1;
            DecodeBody(TextOf(r)[..n], image, c) ==
              if m < 0 then Failed(image, false, NotJson)
              else if Kept(r, m) == 0 then Failed(image, true, NothingRecovered)
              else Perceived(ArrayValues(r.list)[..Kept(r, m)], [], image, true, c)
  {
    hide Loads, FromTree, Salvage, Emit, Perceived, Kept, Head, Elements;
    ListGoodValues(r);
    CutObjectFails(r.lead, Tree(r), r.trail, n);
    SalvageExact(r, n);
  }

  // ------------------------------------------------------------ main results

  /** What a shortened reading keeps of the whole one. */
  predicate Shortens(part: Perception, whole: Perception) {
    && part.observations <= whole.observations
    && part.refused <= whole.refused
    && (part == whole || part.truncated || part.error == Some(NotJson))
  }

  /** Both the readings and the refusals of `first` begin those of `whole`. */
  predicate Covers(whole: Perception, first: Perception) {
    first.observations <= whole.observations && first.refused <= whole.refused
  }

  /** Every cut reads a beginning of the first list, or the whole response, and says so if it is cut. */
  lemma CutReadsBeginning(r: Response, n: nat, image: Str, c: Contract)
    requires GoodResponse(r) && n <= |TextOf(r)|
    ensures var part := DecodeBody(TextOf(r)[..n], image, c);
            part == DecodeBody(TextOf(r), image, c)
            || (Covers(FirstReadings(r, image, c), part) && (part.truncated || part.error == Some(NotJson)))
  {
    hide DecodeBody, FromTree, Emit, Perceived, Elements, Good, Kept, Head, TextOf;
    if |r.lead| + |Print(Tree(r))| <= n {
      WholeReads(r, n, image, c);
      WholeTextReads(r, image, c);
    } else {
      CutReads(r, n, image, c);
      var m := n - |Head(r)| - 1;
      if m >= 0 {
        PerceivedPrefix(ArrayValues(r.list), Kept(r, m), [], [], image, true, c);
        PerceivedSame(ArrayValues(r.list), image, c);
        PerceivedCut(ArrayValues(r.list)[..Kept(r, m)], image, c);
      }
    }
  }

  /** For every response and every cut: if the readings of the first list begin those of the last,
  as they do where there is one list only, what is read from the cut text is a prefix of what is
  read from the whole, and a perception that does not own up to being cut is the whole perception. */
  lemma CutsOnlyShorten(r: Response, n: nat, image: Str, c: Contract)
    requires GoodResponse(r) && n <= |TextOf(r)|
    ensures Covers(LastReadings(r, image, c), FirstReadings(r, image, c)) ==>
              Shortens(DecodeBody(TextOf(r)[..n], image, c), DecodeBody(TextOf(r), image, c))
    ensures LastReadings(r, image, c).error.None? && Unrepeated(r) ==>
              Covers(LastReadings(r, image, c), FirstReadings(r, image, c))
  {
    hide DecodeBody, FromTree, TextOf, GoodResponse, Unrepeated, LastReadings, FirstReadings, Tree;
    WholeTextReads(r, image, c);
    TreeReads(r, image, c);
    CutReadsBeginning(r, n, image, c);
    if Unrepeated(r) {
      UnrepeatedReads(r, image, c);
    }
  }

  lemma PerceivedCut(raws: seq<Value>, image: Str, c: Contract)
    requires forall v :: v in raws ==> Good(v)
    ensures Perceived(raws, [], image, true, c).truncated
  {
  }

  lemma WholeTextReads(r: Response, image: Str, c: Contract)
    requires GoodResponse(r)
    ensures DecodeBody(TextOf(r), image, c) == FromTree(Tree(r), image, c)
  {
    hide DecodeBody, FromTree, Elements, Emit;
    PrintThen(Tree(r), r.trail);
    assert TextOf(r)[..|TextOf(r)|] == TextOf(r);
    WholeReads(r, |TextOf(r)|, image, c);
  }

  // ------------------------------------------------ exactly when it holds

  lemma {:induction false} EndsInside(es: Elems, j: nat)
    requires GoodElems(es, false) && j < |Values(es)|
    ensures EndOf(es, j) <= |EmitElems(es, "")|
  {
    hide EmitElems, Cut, CutOff, Good;
    CutPrints(es, j + 1, "");
    CutLength(es, j + 1, CutOff(es, j + 1, ""));
  }

  lemma AfterListLength(r: Response)
    ensures |AfterList(r)| >= 1 + |r.trail|
  {
    hide EmitElems;
    var close := ['}'] + r.trail;
    if r.others.Some? {
      EmitElemsSplits(r.others.value, "", close);
      assert "" + close == close;
    }
  }

  /** The longest cut that falls short of the object's closing brace keeps the whole list. */
  lemma LastCutLength(r: Response) returns (n: nat)
    requires GoodResponse(r)
    ensures n < |TextOf(r)| && n < |r.lead| + |Print(Tree(r))|
    ensures n - |Head(r)| >= |Print(r.list)|
  {
    hide Emit, Head, Elements, TextOf, AfterList;
    TextSplits(r);
    AfterListLength(r);
    PrintThen(r.list, AfterList(r));
    PrintThen(Tree(r), r.trail);
    TextIsTree(r);
    n := |r.lead| + |Print(Tree(r))| - 1;
  }

  lemma TextIsTree(r: Response)
    ensures TextOf(r) == r.lead + Emit(Tree(r), r.trail)
  {
  }

  lemma PrintedList(v: Value)
    requires v.Node?
    ensures |Print(v)| == |EmitElems(v.elems, "")| + 2
  {
    hide EmitElems;
    EmitElemsSplits(v.elems, "", [Close(v.isObject)]);
    assert "" + [Close(v.isObject)] == [Close(v.isObject)] == [Close(v.isObject)] + "";
  }

  /** A cut behind the list keeps every object of it. */
  lemma LongCutKeeps(r: Response, m: int)
    requires GoodResponse(r) && m >= |Print(r.list)| - 1
    ensures m >= 0 && forall j :: Kept(r, m) <= j < |ArrayValues(r.list)| ==> !IsObject(ArrayValues(r.list)[j])
  {
    hide Emit, Head, Elements, EmitElems, Print;
    ListGood(r);
    ListPrints(r.list);
    if r.list.Node? {
      PrintedList(r.list);
      forall j | Kept(r, m) <= j < |Values(r.list.elems)|
        ensures !IsObject(Values(r.list.elems)[j])
      {
        EndsInside(r.list.elems, j);
      }
    }
  }

  lemma ListPrints(v: Value)
    requires IsArray(v)
    ensures |Print(v)| >= 1
  {
  }

  /** What is no object is not read. */
  lemma {:induction false} NonObjectsUnread(raws: seq<Value>, k: nat, image: Str, c: Contract)
    requires k <= |raws| && (forall v :: v in raws ==> Good(v))
    requires forall j :: k <= j < |raws| ==> !IsObject(raws[j])
    ensures ReadAll(raws[..k], image, c) == ReadAll(raws, image, c)
  {
    hide Good, Get;
    if k == |raws| {
      assert raws[..k] == raws;
    } else {
      var front := raws[..|raws| - 1];
      assert raws[..k] == front[..k];
      NonObjectsUnread(front, k, image, c);
    }
  }

  lemma PerceivedWithout(raws: seq<Value>, k: nat, image: Str, c: Contract)
    requires k <= |raws| && (forall v :: v in raws ==> Good(v))
    requires forall j :: k <= j < |raws| ==> !IsObject(raws[j])
    ensures Perceived(raws[..k], [], image, true, c) == Perceived(raws, [], image, true, c)
  {
    hide Good, ReadAll, Distinct;
    var capped := Capped(raws);
    var j := if k <= |capped| then k else |capped|;
    assert Capped(raws[..k]) == capped[..j];
    NonObjectsUnread(capped, j, image, c);
  }

  lemma PerceivedNothing(image: Str, c: Contract)
    ensures Perceived([], [], image, true, c).observations == [] && Perceived([], [], image, true, c).refused == []
  {
  }

  /** Some cut text reads as much as the whole list, whether the response meets the contract or not. */
  lemma LastCutReads(r: Response, image: Str, c: Contract) returns (n: nat)
    requires GoodResponse(r)
    ensures n <= |TextOf(r)|
    ensures var part := DecodeBody(TextOf(r)[..n], image, c);
            var first := FirstReadings(r, image, c);
            part.observations == first.observations && part.refused == first.refused
  {
    hide DecodeBody, Emit, Perceived, Kept, Head, Elements, Good, TextOf, Print;
    n := LastCutLength(r);
    var m := n - |Head(r)| - 1;
    LongCutKeeps(r, m);
    CutReads(r, n, image, c);
    PerceivedWithout(ArrayValues(r.list), Kept(r, m), image, c);
    if Kept(r, m) == 0 {
      assert ArrayValues(r.list)[..0] == [];
      PerceivedNothing(image, c);
    }
  }

  /** For every response: cuts only shorten what is read exactly when the readings of the first
  list named `observations` begin those of the last one, which count for nothing where one of the
  two required fields is no list. */
  lemma CutsShortenExactly(r: Response, image: Str, c: Contract)
    requires GoodResponse(r)
    ensures (forall n :: 0 <= n <= |TextOf(r)| ==>
               DecodeBody(TextOf(r)[..n], image, c).observations <= DecodeBody(TextOf(r), image, c).observations)
            <==> FirstReadings(r, image, c).observations <= LastReadings(r, image, c).observations
    ensures (forall n :: 0 <= n <= |TextOf(r)| ==>
               Shortens(DecodeBody(TextOf(r)[..n], image, c), DecodeBody(TextOf(r), image, c)))
            <==> Covers(LastReadings(r, image, c), FirstReadings(r, image, c))
  {
    hide DecodeBody, TextOf, GoodResponse, FirstReadings, LastReadings, FromTree;
    var first, last := FirstReadings(r, image, c), LastReadings(r, image, c);
    WholeTextReads(r, image, c);
    TreeReads(r, image, c);
    var longest := LastCutReads(r, image, c);
    if first.observations <= last.observations {
      forall n | 0 <= n <= |TextOf(r)|
        ensures DecodeBody(TextOf(r)[..n], image, c).observations <= DecodeBody(TextOf(r), image, c).observations
      {
        CutReadsBeginning(r, n, image, c);
      }
    }
    if Covers(last, first) {
      forall n | 0 <= n <= |TextOf(r)|
        ensures Shortens(DecodeBody(TextOf(r)[..n], image, c), DecodeBody(TextOf(r), image, c))
      {
        CutsOnlyShorten(r, n, image, c);
      }
    }
  }

  /** Where the name does not repeat, that is when the whole response meets the contract or its
  list holds nothing that can be read. */
  lemma CutsShortenUnrepeated(r: Response, image: Str, c: Contract)
    requires GoodResponse(r) && Unrepeated(r)
    ensures (forall n :: 0 <= n <= |TextOf(r)| ==>
               DecodeBody(TextOf(r)[..n], image, c).observations <= DecodeBody(TextOf(r), image, c).observations)
            <==> (DecodeBody(TextOf(r), image, c).error.None? || FirstReadings(r, image, c).observations == [])
  {
    hide DecodeBody, TextOf, GoodResponse, FirstReadings, LastReadings, FromTree, Unrepeated;
    WholeTextReads(r, image, c);
    TreeReads(r, image, c);
    UnrepeatedReads(r, image, c);
    CutsShortenExactly(r, image, c);
  }

  /** What is read does not depend on the flag. */
  lemma PerceivedSame(raws: seq<Value>, image: Str, c: Contract)
    requires forall v :: v in raws ==> Good(v)
    ensures Perceived(raws, [], image, true, c) == Perceived(raws, [], image, false, c).(truncated := true)
  {
  }

  // ------------------------------------------- why the field must not repeat

  predicate Letters(s: string) {
    forall i :: 0 <= i < |s| ==> 'a' <= s[i] <= 'z' || s[i] == '_'
  }

  lemma {:induction false} NameIsPlain(s: string)
    requires Letters(s)
    ensures GoodPieces(Plainly(s)) && DecodePieces(Plainly(s)) == Codes(s) && |Codes(s)| == |s|
  {
    hide DecodePieces;
    if s != "" {
      NameIsPlain(s[1..]);
      assert GoodPieces(Plainly(s));
      PlainlyDecodes(s);
    }
    EmptyDecodes();
  }

  lemma EmptyDecodes()
    ensures DecodePieces([]) == []
  {
  }

  lemma NamesAreLetters()
    ensures Letters(OBSERVATIONS) && Letters(CANNOT_DETERMINE) && |OBSERVATIONS| != |CANNOT_DETERMINE|
  {
  }

  function Named(name: string): Key {
    Key(Plainly(name), "", "")
  }

  /** What follows the first list: an empty list named `b`, then one named `a`. */
  function Later(a: string, b: string): Elems {
    More("", Named(b), Empty(false, ""), "", Final("", Named(a), Empty(false, ""), ""))
  }

  lemma LaterFields(a: string, b: string)
    requires Letters(a) && Letters(b) && |a| != |b|
    ensures GoodElems(Later(a, b), true)
    ensures Member(Later(a, b), Codes(a)) == Some(Empty(false, ""))
    ensures Member(Later(a, b), Codes(b)) == Some(Empty(false, ""))
  {
    hide Plainly, Codes, Letters, Member, GoodElems, Named;
    var none := Empty(false, "");
    NameIsPlain(a);
    NameIsPlain(b);
    LastField(a, none);
    FieldInFront(b, none, Final("", Named(a), none, ""));
  }

  /** A response that gives `observations` twice, the second time as an empty list. */
  function Repeating(list: Value): Response {
    Response("", "", "", "", list, "", Some(Later(OBSERVATIONS, CANNOT_DETERMINE)), "")
  }

  /** A response without blanks is good if its list and its other fields are. */
  lemma PlainResponseGood(list: Value, others: Elems)
    requires Good(list) && IsArray(list) && GoodElems(others, true) && GoodPieces(Plainly(Field()))
    ensures GoodResponse(Response("", "", "", "", list, "", Some(others), ""))
  {
    hide Good, Plainly, Field, GoodPieces;
  }

  lemma RepeatingIsGood(list: Value)
    requires Good(list) && IsArray(list)
    ensures GoodResponse(Repeating(list))
  {
    hide Plainly, Later, Letters, Good, GoodElems, DecodePieces, GoodResponse, Codes;
    NamesAreLetters();
    LaterFields(OBSERVATIONS, CANNOT_DETERMINE);
    NameIsPlain(OBSERVATIONS);
    PlainResponseGood(list, Later(OBSERVATIONS, CANNOT_DETERMINE));
  }

  lemma LaterWins(r: Response, a: string, b: string)
    requires GoodResponse(r) && r.others == Some(Later(a, b)) && Letters(a) && Letters(b) && |a| != |b|
    ensures ListField(Tree(r), a) == ListField(Tree(r), b) == Some([])
  {
    hide Plainly, Later, Letters, Codes, DecodePieces, Good, GoodResponse;
    LaterFields(a, b);
  }

  lemma RepeatingReads(r: Response, image: Str, c: Contract)
    requires GoodResponse(r) && r.others == Some(Later(OBSERVATIONS, CANNOT_DETERMINE))
    ensures var p := FromTree(Tree(r), image, c); p.error.None? && p.observations == []
  {
    hide ListField, Good, GoodResponse, Elements, Letters, Later;
    NamesAreLetters();
    LaterWins(r, OBSERVATIONS, CANNOT_DETERMINE);
  }

  lemma RepeatingList(list: Value)
    ensures Repeating(list).list == list
    ensures Repeating(list).others == Some(Later(OBSERVATIONS, CANNOT_DETERMINE))
  {
  }

  /** There a cut can read more than the whole: the parser takes the last of the two lists, and the
  scanner the first. */
  lemma RepeatedFieldBreaks(list: Value, image: Str, c: Contract)
    requires Good(list) && IsArray(list) && (forall v :: v in ArrayValues(list) ==> Good(v))
    requires Perceived(ArrayValues(list), [], image, true, c).observations != []
    ensures var text := TextOf(Repeating(list));
            && DecodeBody(text, image, c).error.None?
            && exists n :: 0 <= n <= |text|
                 && !(DecodeBody(text[..n], image, c).observations <= DecodeBody(text, image, c).observations)
  {
    hide DecodeBody, Perceived, TextOf, Good, Elements, FromTree, Repeating, GoodResponse;
    var r := Repeating(list);
    RepeatingIsGood(list);
    RepeatingList(list);
    WholeTextReads(r, image, c);
    RepeatingReads(r, image, c);
    var n := LastCutReads(r, image, c);
  }

  // ------------------------------------------------------- such a list exists

  /** An observation of attribute `a` with value `b` and confidence 1. */
  function Item(a: string, b: string): Value {
    Node(true, More("", Named("attribute"), Text(Plainly(a)), "",
               More("", Named("value"), Text(Plainly(b)), "",
               Final("", Named("confidence"), Number(ONE), ""))))
  }

  function Single(a: string, b: string): Value {
    Node(false, Final("", NoKey, Item(a, b), ""))
  }

  /** Three fields with names of different lengths. */
  function Three(n1: string, v1: Value, n2: string, v2: Value, n3: string, v3: Value): Elems {
    More("", Named(n1), v1, "", More("", Named(n2), v2, "", Final("", Named(n3), v3, "")))
  }

  lemma FieldInFront(name: string, v: Value, rest: Elems)
    requires Letters(name) && Good(v) && GoodElems(rest, true)
    ensures var es := More("", Named(name), v, "", rest);
            && GoodElems(es, true)
            && forall w :: Member(es, w) ==
                 if Member(rest, w).Some? then Member(rest, w) else if w == Codes(name) then Some(v) else None
  {
    hide Plainly, Codes, DecodePieces, Letters, Good;
    NameIsPlain(name);
  }

  lemma LastField(name: string, v: Value)
    requires Letters(name) && Good(v)
    ensures var es := Final("", Named(name), v, "");
            GoodElems(es, true) && forall w :: Member(es, w) == if w == Codes(name) then Some(v) else None
  {
    hide Plainly, Codes, DecodePieces, Letters, Good;
    NameIsPlain(name);
  }

  lemma ThreeFields(n1: string, v1: Value, n2: string, v2: Value, n3: string, v3: Value)
    requires Letters(n1) && Letters(n2) && Letters(n3) && |n1| != |n2| && |n2| != |n3| && |n1| != |n3|
    requires Good(v1) && Good(v2) && Good(v3)
    ensures var es := Three(n1, v1, n2, v2, n3, v3);
            && GoodElems(es, true) && Member(es, Codes(n1)) == Some(v1)
            && Member(es, Codes(n2)) == Some(v2) && Member(es, Codes(n3)) == Some(v3)
  {
    hide Plainly, Codes, Letters, Good, Member, GoodElems, Named;
    NameIsPlain(n1);
    NameIsPlain(n2);
    NameIsPlain(n3);
    LastField(n3, v3);
    FieldInFront(n2, v2, Final("", Named(n3), v3, ""));
    FieldInFront(n1, v1, More("", Named(n2), v2, "", Final("", Named(n3), v3, "")));
  }

  lemma FieldNames()
    ensures Letters("attribute") && Letters("value") && Letters("confidence")
  {
  }

  lemma ItemFields(a: string, b: string)
    requires Letters(a) && Letters(b)
    ensures Good(Item(a, b)) && Good(Text(Plainly(a))) && Good(Text(Plainly(b)))
    ensures Get(Item(a, b), "attribute") == Some(Text(Plainly(a)))
    ensures Get(Item(a, b), "value") == Some(Text(Plainly(b)))
    ensures Get(Item(a, b), "confidence") == Some(Number(ONE))
  {
    hide Plainly, Codes, Letters, Member, GoodElems;
    NameIsPlain(a);
    NameIsPlain(b);
    FieldNames();
    ThreeFields("attribute", Text(Plainly(a)), "value", Text(Plainly(b)),
                "confidence", Number(ONE));
  }

  lemma {:induction false} CodesAt(s: string)
    ensures |Codes(s)| == |s| && forall i :: 0 <= i < |s| ==> Codes(s)[i] == s[i] as nat
  {
    if s != "" {
      CodesAt(s[1..]);
    }
  }

  lemma LettersStay(s: string)
    requires Letters(s) && s != ""
    ensures Strip(Codes(s)) == Codes(s) != []
  {
    CodesAt(s);
  }

  const ONE: Numeral := Numeral(false, "1", "", NoExponent)

  lemma OneIsOne()
    ensures GoodNumeral(ONE) && NumeralValue(ONE) == 1.0
  {
    assert "1"[..0] == "" && ONE.whole + ONE.fraction == "1";
    assert Natural("") == 0;
  }

  /** Such an item is read, where its attribute is on offer and not forbidden. */
  lemma ItemReads(a: string, b: string, image: Str, c: Contract)
    requires Letters(a) && Letters(b) && b != ""
    requires Codes(a) in c.slots && c.lower(Strip(Codes(a))) !in c.forbidden
    ensures Good(Item(a, b)) && ForbiddenName(Item(a, b), c) == None && DecodeObservation(Item(a, b), image, c).Some?
  {
    hide Item, Get, Codes, DecodePieces, Plainly, Letters, Strip, NumeralValue, DecodeRegion, ListField, Good;
    ItemFields(a, b);
    ItemIsObject(a, b);
    PiecesAreCodes(a);
    PiecesAreCodes(b);
    LettersStay(b);
    OneConfidence(c);
  }

  lemma ItemIsObject(a: string, b: string)
    ensures IsObject(Item(a, b))
  {
  }

  lemma PiecesAreCodes(s: string)
    requires Letters(s)
    ensures Good(Text(Plainly(s))) && AsString(Text(Plainly(s))) == Some(Codes(s))
  {
    hide Plainly, Codes, DecodePieces;
    NameIsPlain(s);
  }

  lemma OneConfidence(c: Contract)
    ensures Good(Number(ONE)) && DecodeConfidence(Some(Number(ONE)), c) == Some(1.0)
  {
    hide NumeralValue;
    OneIsOne();
  }

  /** So there are responses on which a cut reads more than the whole. */
  lemma RepeatedFieldHappens(image: Str, c: Contract)
    requires Codes("substrate") in c.slots && c.lower(Strip(Codes("substrate"))) !in c.forbidden
    ensures var text := TextOf(Repeating(Single("substrate", "brick")));
            && DecodeBody(text, image, c).error.None?
            && exists n :: 0 <= n <= |text|
                 && !(DecodeBody(text[..n], image, c).observations <= DecodeBody(text, image, c).observations)
  {
    hide DecodeBody, TextOf, Repeating, Single, Item, Codes, Strip, Good, Perceived;
    SubstrateLetters();
    ItemReads("substrate", "brick", image, c);
    SingleReads("substrate", "brick", image, c);
    RepeatedFieldBreaks(Single("substrate", "brick"), image, c);
  }

  lemma SubstrateLetters()
    ensures Letters("substrate") && Letters("brick")
  {
  }

  lemma SingleReads(a: string, b: string, image: Str, c: Contract)
    requires Good(Item(a, b)) && ForbiddenName(Item(a, b), c) == None && DecodeObservation(Item(a, b), image, c).Some?
    ensures Good(Single(a, b)) && IsArray(Single(a, b)) && ArrayValues(Single(a, b)) == [Item(a, b)]
    ensures forall v :: v in ArrayValues(Single(a, b)) ==> Good(v)
    ensures Perceived(ArrayValues(Single(a, b)), [], image, true, c).observations != []
  {
    hide Item, ForbiddenName, DecodeObservation;
    assert [Item(a, b)][..0] == [];
  }
}
