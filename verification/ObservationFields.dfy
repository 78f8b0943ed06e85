/** What an item of the response says, field by field: escapes, texts, numbers, the corners of the
region, and what goes where. */
module ObservationFields {
  import opened Wrappers
  import opened JsonText
  import opened JsonParser
  import opened Truncation
  import opened Decode
  import opened DecodeLaws
  import opened CutReadings

  // --------------------------------------------------------------- escapes

  const LOWER_DIGITS: string := "0123456789abcdef"
  const UPPER_DIGITS: string := "0123456789ABCDEF"

  function HexChar(u: nat, upper: bool): (c: char)
    requires u < 16
    ensures IsHex(c) && HexDigit(c) == u
  {
    if upper then UPPER_DIGITS[u] else LOWER_DIGITS[u]
  }

  /** A code unit as its escape, with the digits in either case. */
  function Escape(u: nat, upper: bool): (p: Piece)
    requires u < 0x10000
    ensures p.Unicode? && GoodPiece(p)
  {
    Unicode(HexChar(u / 0x1000, upper), HexChar(u / 0x100 % 16, upper),
            HexChar(u / 0x10 % 16, upper), HexChar(u % 16, upper))
  }

  lemma FourDigits(u: nat)
    requires u < 0x10000
    ensures ((u / 0x1000 * 16 + u / 0x100 % 16) * 16 + u / 0x10 % 16) * 16 + u % 16 == u
  {
    assert u == u / 0x10 * 16 + u % 16;
    assert u / 0x10 == u / 0x100 * 16 + u / 0x10 % 16;
    assert u / 0x100 == u / 0x1000 * 16 + u / 0x100 % 16;
  }

  lemma EscapeUnit(u: nat, upper: bool)
    requires u < 0x10000
    ensures CodeUnit(Escape(u, upper)) == u
  {
    hide HexChar, HexDigit;
    FourDigits(u);
  }

  predicate CodePoints(s: Str) {
    forall i :: 0 <= i < |s| ==> s[i] < 0x110000
  }

  /** A text with every character escaped, those beyond the first plane as surrogate pairs. */
  function Escaped(s: Str, upper: bool): seq<Piece>
    requires CodePoints(s)
  {
    if s == [] then []
    else if s[0] < 0x10000 then [Escape(s[0], upper)] + Escaped(s[1..], upper)
    else
      var u := s[0] - 0x10000;
      [Escape(0xD800 + u / 0x400, upper), Escape(0xDC00 + u % 0x400, upper)] + Escaped(s[1..], upper)
  }

  predicate PairAt(s: Str, i: nat)
    requires i + 1 < |s|
  {
    0xD800 <= s[i] <= 0xDBFF && 0xDC00 <= s[i + 1] <= 0xDFFF
  }

  /** A surrogate pair in the text itself. */
  ghost predicate Paired(s: Str) {
    exists i :: 0 <= i < |s| - 1 && PairAt(s, i)
  }

  lemma PairedInFront(s: Str)
    requires s != []
    ensures Paired(s) <==> (|s| > 1 && PairAt(s, 0)) || Paired(s[1..])
  {
    assert forall i :: 0 <= i < |s| - 2 ==> PairAt(s[1..], i) == PairAt(s, i + 1);
    if Paired(s) && !(|s| > 1 && PairAt(s, 0)) {
      var i :| 0 <= i < |s| - 1 && PairAt(s, i);
      assert PairAt(s[1..], i - 1);
    }
    if Paired(s[1..]) {
      var i :| 0 <= i < |s[1..]| - 1 && PairAt(s[1..], i);
      assert PairAt(s, i + 1);
    }
  }

  /** Escapes are read back as what they stand for, exactly if the text has no surrogate pair of its own. */
  lemma {:induction false} EscapesRead(s: Str, upper: bool)
    requires CodePoints(s)
    ensures GoodPieces(Escaped(s, upper)) && |DecodePieces(Escaped(s, upper))| <= |s|
    ensures DecodePieces(Escaped(s, upper)) == s <==> !Paired(s)
  {
    hide Escaped, DecodePieces, GoodPieces;
    if s == [] {
      NothingEscaped(upper);
    } else {
      hide Paired;
      var rest := s[1..];
      assert s == [s[0]] + rest;
      PairedInFront(s);
      EscapesRead(rest, upper);
      if |s| > 1 && PairAt(s, 0) {
        EscapesRead(rest[1..], upper);
        PairRead(s[0], rest, upper);
      } else {
        UnitRead(s[0], rest, upper);
      }
    }
  }

  lemma NothingEscaped(upper: bool)
    ensures Escaped([], upper) == [] && DecodePieces([]) == [] && GoodPieces([])
  {
  }

  lemma PairRead(u: nat, rest: Str, upper: bool)
    requires rest != [] && CodePoints([u] + rest) && CodePoints(rest) && CodePoints(rest[1..]) && PairAt([u] + rest, 0)
    requires GoodPieces(Escaped(rest[1..], upper))
    ensures GoodPieces(Escaped([u] + rest, upper))
    ensures |DecodePieces(Escaped([u] + rest, upper))| == 1 + |DecodePieces(Escaped(rest[1..], upper))|
  {
    hide CodeUnit, Escape, GoodPiece;
    var tail := Escaped(rest[1..], upper);
    var e1, e2 := Escape(u, upper), Escape(rest[0], upper);
    assert ([u] + rest)[1..] == rest;
    EscapeUnit(u, upper);
    EscapeUnit(rest[0], upper);
    assert Escaped([u] + rest, upper) == [e1] + ([e2] + tail) == [e1, e2] + tail;
    assert ([e1, e2] + tail)[2..] == tail;
  }

  lemma UnitRead(u: nat, rest: Str, upper: bool)
    requires CodePoints([u] + rest) && CodePoints(rest) && GoodPieces(Escaped(rest, upper))
    requires rest == [] || !PairAt([u] + rest, 0)
    ensures GoodPieces(Escaped([u] + rest, upper))
    ensures DecodePieces(Escaped([u] + rest, upper)) == [u] + DecodePieces(Escaped(rest, upper))
  {
    hide CodeUnit, Escape, GoodPiece, DecodePieces;
    var tail := Escaped(rest, upper);
    assert ([u] + rest)[1..] == rest && ([u] + rest)[0] == u;
    FirstUnit(rest, upper);
    if u >= 0x10000 {
      var hi, lo := 0xD800 + (u - 0x10000) / 0x400, 0xDC00 + (u - 0x10000) % 0x400;
      EscapeUnit(hi, upper);
      EscapeUnit(lo, upper);
      JoinedPair(Escape(hi, upper), Escape(lo, upper), tail);
    } else {
      EscapeUnit(u, upper);
      LoneUnit(Escape(u, upper), tail);
    }
  }

  /** What the first escape of a text says. */
  lemma FirstUnit(s: Str, upper: bool)
    requires CodePoints(s) && GoodPieces(Escaped(s, upper))
    ensures s == [] <==> Escaped(s, upper) == []
    ensures s != [] ==> Escaped(s, upper)[0].Unicode?
                        && CodeUnit(Escaped(s, upper)[0]) == if s[0] < 0x10000 then s[0] else 0xD800 + (s[0] - 0x10000) / 0x400
  {
    hide CodeUnit, Escape;
    if s != [] {
      EscapeUnit(if s[0] < 0x10000 then s[0] else 0xD800 + (s[0] - 0x10000) / 0x400, upper);
    }
  }

  lemma JoinedPair(e1: Piece, e2: Piece, tail: seq<Piece>)
    requires e1.Unicode? && e2.Unicode? && GoodPiece(e1) && GoodPiece(e2) && GoodPieces(tail)
    requires 0xD800 <= CodeUnit(e1) <= 0xDBFF && 0xDC00 <= CodeUnit(e2) <= 0xDFFF
    ensures GoodPieces([e1, e2] + tail)
    ensures DecodePieces([e1, e2] + tail)
         == [0x10000 + (CodeUnit(e1) - 0xD800) * 0x400 + (CodeUnit(e2) - 0xDC00)] + DecodePieces(tail)
  {
    hide CodeUnit, GoodPiece;
    assert ([e1, e2] + tail)[2..] == tail;
  }

  lemma LoneUnit(e: Piece, tail: seq<Piece>)
    requires GoodPiece(e) && GoodPieces(tail)
    requires tail == [] || !(0xD800 <= CodeUnit(e) <= 0xDBFF && 0xDC00 <= CodeUnit(tail[0]) <= 0xDFFF)
    ensures GoodPieces([e] + tail) && DecodePieces([e] + tail) == [CodeUnit(e)] + DecodePieces(tail)
  {
    hide CodeUnit, GoodPiece;
    assert ([e] + tail)[1..] == tail;
  }

  /** The short escapes. */
  lemma ShortEscapes()
    ensures DecodePieces([Short('b'), Short('f'), Short('n'), Short('r'), Short('t')]) == [8, 12, 10, 13, 9]
    ensures DecodePieces([Short('"')]) == [34] && DecodePieces([Short('\\')]) == [92] && DecodePieces([Short('/')]) == [47]
  {
  }

  // ---------------------------------------------------------------- objects

  /** The members of an object, or the elements of a list. */
  function Members(fs: seq<(string, Value)>): (es: Elems)
    requires fs != []
  {
    var key := Named(fs[0].0);
    if |fs| == 1 then Final("", key, fs[0].1, "") else More("", key, fs[0].1, "", Members(fs[1..]))
  }

  predicate GoodFields(fs: seq<(string, Value)>) {
    && (forall i :: 0 <= i < |fs| ==> Letters(fs[i].0) && Good(fs[i].1))
    && (forall i, j :: 0 <= i < j < |fs| ==> fs[i].0 != fs[j].0)
  }

  lemma SameCodes(s: string, t: string)
    ensures Codes(s) == Codes(t) <==> s == t
  {
    CodesAt(s);
    CodesAt(t);
    if Codes(s) == Codes(t) {
      forall i | 0 <= i < |s|
        ensures s[i] == t[i]
      {
        assert Codes(s)[i] == Codes(t)[i];
      }
    }
  }

  /** Every field is found under its name, and nothing under another. */
  lemma {:induction false} MembersRead(fs: seq<(string, Value)>, name: string)
    requires fs != [] && GoodFields(fs)
    ensures GoodElems(Members(fs), true)
    ensures forall i :: 0 <= i < |fs| && fs[i].0 == name ==> Member(Members(fs), Codes(name)) == Some(fs[i].1)
    ensures (forall i :: 0 <= i < |fs| ==> fs[i].0 != name) ==> Member(Members(fs), Codes(name)) == None
  {
    hide Codes, Letters, Good, Member, GoodElems, Named;
    SameCodes(fs[0].0, name);
    if |fs| == 1 {
      LastField(fs[0].0, fs[0].1);
    } else {
      MembersRead(fs[1..], name);
      FieldInFront(fs[0].0, fs[0].1, Members(fs[1..]));
    }
  }

  function Corners(x0: Numeral, y0: Numeral, x1: Numeral, y1: Numeral): Value {
    Node(false, More("", NoKey, Number(x0), "", More("", NoKey, Number(y0), "",
                More("", NoKey, Number(x1), "", Final("", NoKey, Number(y1), "")))))
  }

  /** The corners of a region, as the response gives them: left, top, right, bottom. */
  lemma CornersRead(x0: Numeral, y0: Numeral, x1: Numeral, y1: Numeral)
    requires GoodNumeral(x0) && GoodNumeral(y0) && GoodNumeral(x1) && GoodNumeral(y1)
    ensures Good(Corners(x0, y0, x1, y1)) && IsArray(Corners(x0, y0, x1, y1))
    ensures var vs := ArrayValues(Corners(x0, y0, x1, y1));
            && (forall v :: v in vs ==> Good(v))
            && DecodeRegion(Some(vs)) == BoxOf(NumeralValue(x0), NumeralValue(y0), NumeralValue(x1), NumeralValue(y1))
  {
    hide NumeralValue, GoodNumeral;
    var e4 := Final("", NoKey, Number(y1), "");
    var e3 := More("", NoKey, Number(x1), "", e4);
    var e2 := More("", NoKey, Number(y0), "", e3);
    assert Values(e4) == [Number(y1)] && GoodElems(e4, false);
    assert Values(e3) == [Number(x1), Number(y1)] && GoodElems(e3, false);
    assert Values(e2) == [Number(y0), Number(x1), Number(y1)] && GoodElems(e2, false);
    var e1 := More("", NoKey, Number(x0), "", e2);
    assert Values(e1) == [Number(x0), Number(y0), Number(x1), Number(y1)] && GoodElems(e1, false);
    assert ArrayValues(Corners(x0, y0, x1, y1)) == [Number(x0), Number(y0), Number(x1), Number(y1)];
  }

  /** A box inside the image, if it is one. */
  function BoxOf(left: real, top: real, right: real, bottom: real): Option<Box> {
    if 0.0 <= left < right <= 1.0 && 0.0 <= top < bottom <= 1.0 then Some((left, top, right, bottom)) else None
  }

  /** The objects among the values, in order. */
  lemma ObjectsKept(vs: seq<Value>)
    ensures forall v :: v in Objects(vs) <==> v in vs && IsObject(v)
    ensures (forall v :: v in vs ==> IsObject(v)) ==> Objects(vs) == vs
  {
    if vs != [] {
      ObjectsKept(vs[1..]);
      assert vs == [vs[0]] + vs[1..];
    }
  }

  // ------------------------------------------------------------ one item

  /** An item with all the fields that are read, in the order of the schema. */
  function Fields(attribute: Value, value: Value, confidence: Value, region: Value, note: Value, others: Value)
    : (fs: seq<(string, Value)>)
    ensures |fs| == 6
  {
    [("attribute", attribute), ("value", value), ("confidence", confidence), ("region", region),
     ("observation", note), ("possible_interpretations", others)]
  }

  lemma MoreNames()
    ensures Letters("region") && Letters("observation") && Letters("possible_interpretations")
  {
  }

  lemma FieldsGood(attribute: Value, value: Value, confidence: Value, region: Value, note: Value, others: Value)
    requires Good(attribute) && Good(value) && Good(confidence) && Good(region) && Good(note) && Good(others)
    ensures GoodFields(Fields(attribute, value, confidence, region, note, others))
  {
    hide Good, Letters;
    FieldNames();
    MoreNames();
  }

  lemma FieldsRead(attribute: Value, value: Value, confidence: Value, region: Value, note: Value, others: Value)
    requires Good(attribute) && Good(value) && Good(confidence) && Good(region) && Good(note) && Good(others)
    ensures var item := Node(true, Members(Fields(attribute, value, confidence, region, note, others)));
            && Good(item)
            && Get(item, "attribute") == Some(attribute) && Get(item, "value") == Some(value)
            && Get(item, "confidence") == Some(confidence) && Get(item, "region") == Some(region)
            && Get(item, "observation") == Some(note) && Get(item, "possible_interpretations") == Some(others)
  {
    hide Good, Members, Codes, GoodFields, Member, GoodElems;
    var fs := Fields(attribute, value, confidence, region, note, others);
    FieldsGood(attribute, value, confidence, region, note, others);
    GoodNode(fs);
    MembersRead(fs, fs[0].0);
    MembersRead(fs, fs[1].0);
    MembersRead(fs, fs[2].0);
    MembersRead(fs, fs[3].0);
    MembersRead(fs, fs[4].0);
    MembersRead(fs, fs[5].0);
  }

  lemma GoodNode(fs: seq<(string, Value)>)
    requires fs != [] && GoodFields(fs)
    ensures Good(Node(true, Members(fs)))
  {
    hide GoodElems, Members;
    MembersRead(fs, "");
  }

  /** The field of this name has this value. */
  ghost predicate Holds(item: Value, name: string, v: Value)
    requires Good(item) && IsObject(item)
  {
    Get(item, name) == Some(v)
  }

  /** An item as the response spells it. */
  datatype Spelled = Spelled(attribute: seq<Piece>, value: seq<Piece>, confidence: Value, left: Numeral, top: Numeral,
                             right: Numeral, bottom: Numeral, note: seq<Piece>, others: Value)

  predicate GoodSpelling(t: Spelled) {
    && GoodPieces(t.attribute) && GoodPieces(t.value) && GoodPieces(t.note)
    && Good(t.confidence) && Good(t.others) && IsArray(t.others)
    && GoodNumeral(t.left) && GoodNumeral(t.top) && GoodNumeral(t.right) && GoodNumeral(t.bottom)
  }

  function RegionOf(t: Spelled): Value {
    Corners(t.left, t.top, t.right, t.bottom)
  }

  function ItemOf(t: Spelled): Value {
    Node(true, Members(Fields(Text(t.attribute), Text(t.value), t.confidence, RegionOf(t), Text(t.note), t.others)))
  }

  /** The item's fields hold what it spells. */
  ghost predicate HoldsAll(item: Value, t: Spelled)
    requires Good(item) && IsObject(item)
  {
    && Holds(item, "attribute", Text(t.attribute)) && Holds(item, "value", Text(t.value))
    && Holds(item, "confidence", t.confidence) && Holds(item, "region", RegionOf(t))
    && Holds(item, "observation", Text(t.note)) && Holds(item, "possible_interpretations", t.others)
  }

  lemma {:induction false} FromItsFields(item: Value, t: Spelled, image: Str, c: Contract) returns (o: Observation)
    requires Good(item) && IsObject(item) && GoodSpelling(t) && Good(RegionOf(t)) && IsArray(RegionOf(t)) && HoldsAll(item, t)
    requires DecodePieces(t.attribute) in c.slots && Strip(DecodePieces(t.value)) != []
    requires DecodeConfidence(Some(t.confidence), c).Some?
    ensures forall v :: v in ArrayValues(RegionOf(t)) ==> Good(v)
    ensures DecodeObservation(item, image, c) == Some(o)
    ensures o.attribute == DecodePieces(t.attribute) && o.value == Strip(DecodePieces(t.value)) && o.image == image
    ensures DecodeConfidence(Some(t.confidence), c) == Some(o.confidence)
    ensures o.region == DecodeRegion(Some(ArrayValues(RegionOf(t))))
    ensures o.note == DecodePieces(t.note) && o.interpretations == Objects(ArrayValues(t.others))
  {
    hide Good, DecodePieces, Strip, DecodeConfidence, Objects, ArrayValues, DecodeRegion, Get, RegionOf;
    ArrayValuesGood(RegionOf(t));
    o := DecodeObservation(item, image, c).value;
  }

  lemma ItemHolds(t: Spelled)
    requires GoodSpelling(t)
    ensures Good(ItemOf(t)) && HoldsAll(ItemOf(t), t)
  {
    hide Good, Fields, Members, GoodNumeral, Corners, Get, GoodPieces;
    CornersRead(t.left, t.top, t.right, t.bottom);
    GoodTexts(t.attribute);
    GoodTexts(t.value);
    GoodTexts(t.note);
    FieldsRead(Text(t.attribute), Text(t.value), t.confidence, RegionOf(t), Text(t.note), t.others);
  }

  /** Every field of the observation comes from the field of its name: the two texts, the confidence,
  the four corners in their order, the note, and the interpretations that are objects. */
  lemma {:induction false} ObservationRead(t: Spelled, image: Str, c: Contract) returns (o: Observation)
    requires GoodSpelling(t) && DecodePieces(t.attribute) in c.slots && Strip(DecodePieces(t.value)) != []
    requires DecodeConfidence(Some(t.confidence), c).Some?
    ensures Good(ItemOf(t)) && DecodeObservation(ItemOf(t), image, c) == Some(o)
    ensures o.attribute == DecodePieces(t.attribute) && o.value == Strip(DecodePieces(t.value)) && o.image == image
    ensures DecodeConfidence(Some(t.confidence), c) == Some(o.confidence)
    ensures o.region == BoxOf(NumeralValue(t.left), NumeralValue(t.top), NumeralValue(t.right), NumeralValue(t.bottom))
    ensures o.note == DecodePieces(t.note) && o.interpretations == Objects(ArrayValues(t.others))
  {
    hide Good, Members, Fields, DecodePieces, Strip, DecodeConfidence, NumeralValue, GoodNumeral, Corners, Objects,
         ArrayValues, DecodeRegion, BoxOf, DecodeObservation, HoldsAll;
    CornersRead(t.left, t.top, t.right, t.bottom);
    ItemHolds(t);
    o := FromItsFields(ItemOf(t), t, image, c);
  }

  lemma GoodTexts(ps: seq<Piece>)
    requires GoodPieces(ps)
    ensures Good(Text(ps))
  {
  }

  function Listed(n1: string, v1: Value, n2: string, v2: Value, n3: string, v3: Value): (fs: seq<(string, Value)>)
    ensures |fs| == 3
  {
    [(n1, v1), (n2, v2), (n3, v3)]
  }

  /** The item that `Item` builds, as a list of its fields. */
  lemma BareIsItem(a: string, b: string)
    ensures Item(a, b) == Node(true, Members(Listed("attribute", Text(Plainly(a)), "value", Text(Plainly(b)), "confidence", Number(ONE))))
  {
    hide Named;
    var f1, f2, f3 := ("attribute", Text(Plainly(a))), ("value", Text(Plainly(b))), ("confidence", Number(ONE));
    assert [f1, f2, f3][1..] == [f2, f3] && [f2, f3][1..] == [f3];
  }

  lemma BareFields(a: string, b: string)
    requires Letters(a) && Letters(b)
    ensures Good(Item(a, b))
    ensures Get(Item(a, b), "region") == None && Get(Item(a, b), "observation") == None
            && Get(Item(a, b), "possible_interpretations") == None
  {
    hide Good, GoodFields, Members, Codes, Member, GoodElems, Plainly, Letters;
    var pa, pb := Plainly(a), Plainly(b);
    var fs := Listed("attribute", Text(pa), "value", Text(pb), "confidence", Number(ONE));
    ItemFields(a, b);
    BareIsItem(a, b);
    NameIsPlain(a);
    NameIsPlain(b);
    BareGood(pa, pb);
    assert |fs[0].0| == 9 && |fs[1].0| == 5 && |fs[2].0| == 10;
    MembersRead(fs, "region");
    MembersRead(fs, "observation");
    MembersRead(fs, "possible_interpretations");
  }

  lemma ThreeGood(n1: string, v1: Value, n2: string, v2: Value, n3: string, v3: Value)
    requires Letters(n1) && Letters(n2) && Letters(n3) && n1 != n2 && n2 != n3 && n1 != n3
    requires Good(v1) && Good(v2) && Good(v3)
    ensures GoodFields(Listed(n1, v1, n2, v2, n3, v3))
  {
    hide Letters, Good;
  }

  lemma BareGood(pa: seq<Piece>, pb: seq<Piece>)
    requires GoodPieces(pa) && GoodPieces(pb)
    ensures GoodFields(Listed("attribute", Text(pa), "value", Text(pb), "confidence", Number(ONE)))
  {
    hide Good, Letters, GoodFields, Listed;
    GoodTexts(pa);
    GoodTexts(pb);
    OneIsGood();
    FieldNames();
    assert |"attribute"| == 9 && |"value"| == 5 && |"confidence"| == 10;
    ThreeGood("attribute", Text(pa), "value", Text(pb), "confidence", Number(ONE));
  }

  lemma OneIsGood()
    ensures Good(Number(ONE))
  {
    OneIsOne();
  }

  /** Fields that an item leaves out are empty, and the region is none. */
  lemma BareRead(a: string, b: string, image: Str, c: Contract)
    requires Letters(a) && Letters(b) && b != "" && Codes(a) in c.slots
    ensures Good(Item(a, b))
    ensures DecodeObservation(Item(a, b), image, c) == Some(Observation(Codes(a), Codes(b), 1.0, image, None, [], []))
  {
    hide Item, Get, Codes, DecodePieces, Plainly, Letters, Strip, NumeralValue, Good;
    BareFields(a, b);
    ItemFields(a, b);
    ItemIsObject(a, b);
    PiecesAreCodes(a);
    PiecesAreCodes(b);
    LettersStay(b);
    OneConfidence(c);
  }

  // ----------------------------------------------------- whole responses

  /** A text that is JSON but no object is said not to be one. */
  lemma OtherValuesFail(pre: string, v: Value, post: string, image: Str, c: Contract)
    requires Good(v) && !IsObject(v) && Blank(pre) && Blank(post)
    ensures DecodeBody(pre + Emit(v, post), image, c) == Failed(image, false, NotAnObject)
  {
    hide Loads, Emit, Good;
    LoadsPrinted(pre, v, post);
  }

  lemma {:induction false} StringsExactly(vs: seq<Value>, s: Str)
    requires forall v :: v in vs ==> Good(v)
    ensures s in Strings(vs) <==> exists v :: v in vs && v.Text? && DecodePieces(v.pieces) == s
  {
    hide Good, DecodePieces;
    if vs != [] {
      StringsExactly(vs[1..], s);
      assert vs == [vs[0]] + vs[1..];
    }
  }

  /** What the model says it cannot determine is exactly the texts of that list, on a complete response. */
  lemma CannotExactly(v: Value, s: Str, image: Str, c: Contract)
    requires Good(v) && IsObject(v) && FromTree(v, image, c).error.None?
    ensures ListField(v, CANNOT_DETERMINE).Some?
    ensures s in FromTree(v, image, c).cannot <==>
            exists w :: w in ListField(v, CANNOT_DETERMINE).value && w.Text? && DecodePieces(w.pieces) == s
  {
    hide Good, DecodePieces, Strings, ListField, ReadAll, Distinct, Capped;
    StringsExactly(ListField(v, CANNOT_DETERMINE).value, s);
  }
}
