/** `_decode` of assistant/answering/vision.py: the model's text into a perception, for a
complete response and for one cut short. */
module Decode {
  import opened Decimals
  import opened Blanks
  import opened Wrappers
  import opened JsonText
  import opened JsonParser
  import opened Scanner

  /** A decoded string: code points, lone surrogates included. */
  type Str = seq<nat>

  type Box = (real, real, real, real)

  /** What the source reads from its configuration; `lower` and `upper` stand for Python's case tables. */
  datatype Contract = Contract(slots: seq<Str>, forbidden: set<Str>, lower: Str -> Str, upper: Str -> Str)

  datatype Observation = Observation(attribute: Str, value: Str, confidence: real, image: Str,
                                     region: Option<Box>, note: Str, interpretations: seq<Value>)

  datatype Failure = NothingRecovered | NotJson | NotAnObject | BrokenContract

  datatype Perception = Perception(observations: seq<Observation>, cannot: seq<Str>, image: Str,
                                   truncated: bool, refused: seq<Str>, error: Option<Failure>)

  const OBSERVATIONS: string := "observations"
  const CANNOT_DETERMINE: string := "cannot_determine_from_image"
  const MAX_OBSERVATIONS: nat := 6
  const HIGH_FLOOR: real := 0.80
  const UNCERTAIN_FLOOR: real := 0.50
  const PERCENT_FLOOR: real := 2.0
  const PERCENT_CEILING: real := 100.0

  // ------------------------------------------------------- strings and numbers

  function HexDigit(c: char): nat
    requires IsHex(c)
  {
    if c <= '9' then c as nat - '0' as nat
    else if c <= 'F' then c as nat - 'A' as nat + 10
    else c as nat - 'a' as nat + 10
  }

  function CodeUnit(p: Piece): nat
    requires GoodPiece(p)
  {
    match p
    case Plain(c) => c as nat
    case Short(c) =>
      if c == 'b' then 8 else if c == 'f' then 12 else if c == 'n' then 10
      else if c == 'r' then 13 else if c == 't' then 9 else c as nat
    case Unicode(h1, h2, h3, h4) =>
      ((HexDigit(h1) * 16 + HexDigit(h2)) * 16 + HexDigit(h3)) * 16 + HexDigit(h4)
  }

  /** A high surrogate written as an escape joins with the low one escaped right behind it. */
  function DecodePieces(ps: seq<Piece>): Str
    requires GoodPieces(ps)
  {
    if ps == [] then []
    else
      var u := CodeUnit(ps[0]);
      if |ps| > 1 && ps[0].Unicode? && ps[1].Unicode?
         && 0xD800 <= u <= 0xDBFF && 0xDC00 <= CodeUnit(ps[1]) <= 0xDFFF then
        [0x10000 + (u - 0xD800) * 0x400 + (CodeUnit(ps[1]) - 0xDC00)] + DecodePieces(ps[2..])
      else [u] + DecodePieces(ps[1..])
  }

  function Codes(s: string): Str {
    if s == "" then [] else [s[0] as nat] + Codes(s[1..])
  }

  function Strip(s: Str): Str {
    TrimRight(TrimLeft(s, IsSpaceCode), IsSpaceCode)
  }

  function Pow10(n: nat): (p: nat)
    ensures p > 0
  {
    if n == 0 then 1 else 10 * Pow10(n - 1)
  }

  function NumeralValue(n: Numeral): real
    requires GoodNumeral(n)
  {
    var magnitude := Natural(n.whole + n.fraction) as real / Pow10(|n.fraction|) as real;
    var signed := if n.minus then -magnitude else magnitude;
    match n.exponent
    case NoExponent => signed
    case Exponent(_, sign, digits) =>
      if sign == "-" then signed / Pow10(Natural(digits)) as real
      else signed * Pow10(Natural(digits)) as real
  }

  // ---------------------------------------------------------- reading a tree

  function AsString(v: Value): Option<Str>
    requires Good(v)
  {
    if v.Text? then Some(DecodePieces(v.pieces)) else None
  }

  /** The value of a finite JSON number; a boolean is none, and NaN and the infinities are in no range. */
  function AsNumber(v: Value): Option<real>
    requires Good(v)
  {
    if v.Number? then Some(NumeralValue(v.numeral)) else None
  }

  /** `dict.get` on a parsed object: the last member of that name. */
  function Member(es: Elems, name: Str): (r: Option<Value>)
    requires GoodElems(es, true)
    ensures r.Some? ==> Good(r.value)
  {
    var later := if es.More? then Member(es.rest, name) else None;
    if later.Some? then later
    else if DecodePieces(es.key.pieces) == name then Some(es.value)
    else None
  }

  function Get(v: Value, name: string): (r: Option<Value>)
    requires Good(v) && IsObject(v)
    ensures r.Some? ==> Good(r.value)
  {
    if v.Empty? then None else Member(v.elems, Codes(name))
  }

  function StringField(v: Value, name: string): Option<Str>
    requires Good(v) && IsObject(v)
  {
    var raw := Get(v, name);
    if raw.Some? then AsString(raw.value) else None
  }

  /** The values of a list field; an absent field, or one that is no list, gives none. */
  function ListField(v: Value, name: string): (r: Option<seq<Value>>)
    requires Good(v) && IsObject(v)
    ensures r.Some? ==> forall w :: w in r.value ==> Good(w)
  {
    var raw := Get(v, name);
    if raw.None? || !IsArray(raw.value) then None
    else
      ArrayValuesGood(raw.value);
      Some(ArrayValues(raw.value))
  }

  lemma {:induction false} ValuesGood(es: Elems, keyed: bool)
    requires GoodElems(es, keyed)
    ensures forall v :: v in Values(es) ==> Good(v)
  {
    if es.More? {
      ValuesGood(es.rest, keyed);
    }
  }

  lemma ArrayValuesGood(v: Value)
    requires Good(v) && IsArray(v)
    ensures forall w :: w in ArrayValues(v) ==> Good(w)
  {
    if v.Node? {
      ValuesGood(v.elems, false);
    }
  }

  // ---------------------------------------------------------- one observation

  function DecodeConfidence(raw: Option<Value>, c: Contract): Option<real>
    requires raw.Some? ==> Good(raw.value)
  {
    if raw.None? then None
    else if raw.value.Text? then
      var name := c.upper(Strip(DecodePieces(raw.value.pieces)));
      if name == Codes("HIGH") then Some(HIGH_FLOOR)
      else if name == Codes("UNCERTAIN") then Some(UNCERTAIN_FLOOR)
      else if name == Codes("NOT_DETERMINABLE") then Some(0.0)
      else None
    else match AsNumber(raw.value)
      case None => None
      case Some(x) =>
        if 0.0 <= x <= 1.0 then Some(x)
        else if PERCENT_FLOOR <= x <= PERCENT_CEILING && x == x.Floor as real then Some(x / PERCENT_CEILING)
        else None
  }

  function DecodeRegion(raw: Option<seq<Value>>): Option<Box>
    requires raw.Some? ==> forall v :: v in raw.value ==> Good(v)
  {
    if raw.None? || |raw.value| != 4 then None
    else
      var vs := raw.value;
      var x0, y0, x1, y1 := AsNumber(vs[0]), AsNumber(vs[1]), AsNumber(vs[2]), AsNumber(vs[3]);
      if x0.None? || y0.None? || x1.None? || y1.None? then None
      else if !(InImage(x0.value) && InImage(y0.value) && InImage(x1.value) && InImage(y1.value)) then None
      else if x1.value <= x0.value || y1.value <= y0.value then None
      else Some((x0.value, y0.value, x1.value, y1.value))
  }

  predicate InImage(x: real) {
    0.0 <= x <= 1.0
  }

  function Objects(vs: seq<Value>): seq<Value> {
    if vs == [] then [] else (if IsObject(vs[0]) then [vs[0]] else []) + Objects(vs[1..])
  }

  function DecodeObservation(raw: Value, image: Str, c: Contract): Option<Observation>
    requires Good(raw)
  {
    if !IsObject(raw) then None
    else
      var attribute := StringField(raw, "attribute");
      var value := StringField(raw, "value");
      var confidence := DecodeConfidence(Get(raw, "confidence"), c);
      if attribute.None? || attribute.value !in c.slots then None
      else if value.None? || Strip(value.value) == [] then None
      else if confidence.None? then None
      else
        var note := StringField(raw, "observation");
        var others := ListField(raw, "possible_interpretations");
        Some(Observation(attribute.value, Strip(value.value), confidence.value, image,
                         DecodeRegion(ListField(raw, "region")),
                         if note.Some? then note.value else [],
                         if others.Some? then Objects(others.value) else []))
  }

  // ------------------------------------------------------------- the loop

  /** What the loop over the observations has gathered; `seen` only serves the loop itself. */
  datatype Reading = Reading(decoded: seq<Observation>, refused: seq<Str>)

  function ForbiddenName(raw: Value, c: Contract): Option<Str>
    requires Good(raw)
  {
    if !IsObject(raw) then None
    else match StringField(raw, "attribute")
      case None => None
      case Some(a) => var name := c.lower(Strip(a)); if name in c.forbidden then Some(name) else None
  }

  function KeyOf(o: Observation, c: Contract): (Str, Str) {
    (o.attribute, c.lower(o.value))
  }

  predicate Taken(os: seq<Observation>, key: (Str, Str), c: Contract) {
    exists i :: 0 <= i < |os| && KeyOf(os[i], c) == key
  }

  function ReadOne(r: Reading, raw: Value, image: Str, c: Contract): Reading
    requires Good(raw)
  {
    match ForbiddenName(raw, c)
    case Some(name) => r.(refused := r.refused + [name])
    case None =>
      match DecodeObservation(raw, image, c)
      case None => r
      case Some(o) => if Taken(r.decoded, KeyOf(o, c), c) then r else r.(decoded := r.decoded + [o])
  }

  function ReadAll(raws: seq<Value>, image: Str, c: Contract): Reading
    requires forall v :: v in raws ==> Good(v)
  {
    if raws == [] then Reading([], [])
    else ReadOne(ReadAll(raws[..|raws| - 1], image, c), raws[|raws| - 1], image, c)
  }

  function Capped(raws: seq<Value>): seq<Value> {
    if |raws| <= MAX_OBSERVATIONS then raws else raws[..MAX_OBSERVATIONS]
  }

  function Strings(vs: seq<Value>): seq<Str>
    requires forall v :: v in vs ==> Good(v)
  {
    if vs == [] then []
    else (if AsString(vs[0]).Some? then [AsString(vs[0]).value] else []) + Strings(vs[1..])
  }

  // ------------------------------------------------------------- the decoder

  function Failed(image: Str, truncated: bool, why: Failure): Perception {
    Perception([], [], image, truncated, [], Some(why))
  }

  function Perceived(raws: seq<Value>, cannot: seq<Str>, image: Str, truncated: bool, c: Contract): Perception
    requires forall v :: v in raws ==> Good(v)
  {
    var r := ReadAll(Capped(raws), image, c);
    Perception(r.decoded, cannot, image, truncated, Distinct(r.refused), None)
  }

  /** A parsed object, by its two required fields. */
  function FromFields(list: Option<seq<Value>>, cannot: Option<seq<Value>>, image: Str, c: Contract): Perception
    requires list.Some? ==> forall v :: v in list.value ==> Good(v)
    requires cannot.Some? ==> forall v :: v in cannot.value ==> Good(v)
  {
    if list.None? || cannot.None? then Failed(image, false, BrokenContract)
    else Perceived(list.value, Strings(cannot.value), image, false, c)
  }

  /** A response that parsed. */
  function FromTree(v: Value, image: Str, c: Contract): Perception
    requires Good(v)
  {
    if !IsObject(v) then Failed(image, false, NotAnObject)
    else FromFields(ListField(v, OBSERVATIONS), ListField(v, CANNOT_DETERMINE), image, c)
  }

  function DecodeBody(body: string, image: Str, c: Contract): Perception {
    match Loads(body)
    case Some(v) =>
      LoadsGood(body);
      FromTree(v, image, c)
    case None =>
      var s := Salvage(body);
      match s.observations
      case None => Failed(image, s.cut, if s.cut then NothingRecovered else NotJson)
      case Some(raws) =>
        SalvageGood(body);
        Perceived(raws, [], image, s.cut, c)
  }

  lemma LoadsGood(s: string)
    requires Loads(s).Some?
    ensures Good(Loads(s).value)
  {
    LoadsExact(s, Loads(s).value);
  }

  lemma SalvageGood(body: string)
    requires Salvage(body).observations.Some?
    ensures forall v :: v in Salvage(body).observations.value ==> Good(v)
  {
    hide Good, Loads, Run, Marker;
    var open := Find(body, "[", Find(body, Marker(), 0).value).value;
    var ends := Run(Out(0, []), body[open + 1..], open + 1).ends;
    var fragment := body[open..ends[|ends| - 1] + 1] + "]";
    LoadsGood(fragment);
    ArrayValuesGood(Loads(fragment).value);
  }

  /** The decoder as the source writes it. */
  method DecodeText(body: string, image: Str, c: Contract) returns (p: Perception)
    ensures p == DecodeBody(body, image, c)
  {
    hide Salvage, Good, ParseValue, Skip;
    var raws: seq<Value>;
    var cannot: seq<Str> := [];
    var truncated := false;
    var parsed := Loads(body);
    if parsed.None? {
      var s := SalvageText(body);
      truncated := s.cut;
      if s.observations.None? {
        return Failed(image, truncated, if truncated then NothingRecovered else NotJson);
      }
      raws := s.observations.value;
      SalvageGood(body);
    } else {
      var v := parsed.value;
      LoadsGood(body);
      if !IsObject(v) {
        return Failed(image, false, NotAnObject);
      }
      var list := ListField(v, OBSERVATIONS);
      var unknown := ListField(v, CANNOT_DETERMINE);
      if list.None? || unknown.None? {
        return Failed(image, false, BrokenContract);
      }
      raws := list.value;
      cannot := Strings(unknown.value);
    }
    p := ReadLoop(raws, cannot, image, truncated, c);
  }

  /** The loop over the observations, with its set of readings already taken. */
  method ReadLoop(raws: seq<Value>, cannot: seq<Str>, image: Str, truncated: bool, c: Contract) returns (p: Perception)
    requires forall v :: v in raws ==> Good(v)
    ensures p == Perceived(raws, cannot, image, truncated, c)
  {
    hide Good, ForbiddenName, DecodeObservation, KeyOf;
    var capped := Capped(raws);
    var refused: seq<Str> := [];
    var decoded: seq<Observation> := [];
    var seen: set<(Str, Str)> := {};
    for i := 0 to |capped|
      invariant Reading(decoded, refused) == ReadAll(capped[..i], image, c)
      invariant forall key :: key in seen <==> Taken(decoded, key, c)
    {
      assert capped[..i + 1][..i] == capped[..i];
      var name := ForbiddenName(capped[i], c);
      if name.Some? {
        refused := refused + [name.value];
        continue;
      }
      var o := DecodeObservation(capped[i], image, c);
      if o.None? {
        continue;
      }
      var key := KeyOf(o.value, c);
      if key in seen {
        continue;
      }
      TakenGrows(decoded, o.value, c);
      seen := seen + {key};
      decoded := decoded + [o.value];
    }
    assert capped[..|capped|] == capped;
    p := Perception(decoded, cannot, image, truncated, Distinct(refused), None);
  }

  lemma TakenGrows(os: seq<Observation>, o: Observation, c: Contract)
    ensures forall key :: Taken(os + [o], key, c) <==> Taken(os, key, c) || key == KeyOf(o, c)
  {
    forall key | Taken(os, key, c) || key == KeyOf(o, c)
      ensures Taken(os + [o], key, c)
    {
      if Taken(os, key, c) {
        var i :| 0 <= i < |os| && KeyOf(os[i], c) == key;
        assert (os + [o])[i] == os[i];
      } else {
        assert (os + [o])[|os|] == o;
      }
    }
  }
}
