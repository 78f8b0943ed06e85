/** What the readings of a response are: the first of each, well formed, and no stronger than said. */
module DecodeLaws {
  import opened Wrappers
  import opened JsonText
  import opened Decode
  import opened Resolve

  // -------------------------------------------------------- which are kept

  /** What an item of the list is read as, if it is an observation that may be reported. */
  function ReadAs(raw: Value, image: Str, c: Contract): Option<Observation>
    requires Good(raw)
  {
    if ForbiddenName(raw, c).Some? then None else DecodeObservation(raw, image, c)
  }

  /** The two say the same: one attribute, and one value but for case. */
  predicate SameReading(o: Observation, p: Observation, c: Contract) {
    o.attribute == p.attribute && c.lower(o.value) == c.lower(p.value)
  }

  /** Item `i` is read as `o`, and no item in front of it is read as the same. */
  ghost predicate FirstReading(raws: seq<Value>, i: nat, o: Observation, image: Str, c: Contract)
    requires forall v :: v in raws ==> Good(v)
  {
    && i < |raws| && ReadAs(raws[i], image, c) == Some(o)
    && (forall j :: 0 <= j < i && ReadAs(raws[j], image, c).Some? ==>
          !SameReading(ReadAs(raws[j], image, c).value, o, c))
  }

  lemma {:induction false} TakenWhen(raws: seq<Value>, key: (Str, Str), image: Str, c: Contract)
    requires forall v :: v in raws ==> Good(v)
    ensures Taken(ReadAll(raws, image, c).decoded, key, c) <==>
            exists j :: 0 <= j < |raws| && ReadAs(raws[j], image, c).Some?
                        && KeyOf(ReadAs(raws[j], image, c).value, c) == key
  {
    hide Good, ForbiddenName, DecodeObservation, KeyOf;
    if raws != [] {
      var front, last := raws[..|raws| - 1], raws[|raws| - 1];
      TakenWhen(front, key, image, c);
      var before := ReadAll(front, image, c).decoded;
      var o := ReadAs(last, image, c);
      if o.Some? {
        TakenPush(before, o.value, key, c);
      }
      assert forall j :: 0 <= j < |front| ==> front[j] == raws[j];
    }
  }

  lemma TakenPush(os: seq<Observation>, o: Observation, key: (Str, Str), c: Contract)
    ensures Taken(os + [o], key, c) <==> Taken(os, key, c) || KeyOf(o, c) == key
  {
    hide KeyOf;
    if Taken(os, key, c) {
      var i :| 0 <= i < |os| && KeyOf(os[i], c) == key;
      assert (os + [o])[i] == os[i];
    }
    assert (os + [o])[|os|] == o;
  }

  lemma KeyIsReading(c: Contract)
    ensures forall o, p :: KeyOf(o, c) == KeyOf(p, c) <==> SameReading(o, p, c)
  {
  }

  /** The readings are exactly the first items of each attribute and value. */
  lemma {:induction false} ReadingsAreFirsts(raws: seq<Value>, o: Observation, image: Str, c: Contract)
    requires forall v :: v in raws ==> Good(v)
    ensures o in ReadAll(raws, image, c).decoded <==> exists i: nat :: FirstReading(raws, i, o, image, c)
  {
    hide Good, ForbiddenName, DecodeObservation, KeyOf, Taken, SameReading;
    KeyIsReading(c);
    if raws != [] {
      var front, last := raws[..|raws| - 1], raws[|raws| - 1];
      ReadingsAreFirsts(front, o, image, c);
      forall i: nat | i < |front|
        ensures FirstReading(front, i, o, image, c) <==> FirstReading(raws, i, o, image, c)
      {
        assert forall j :: 0 <= j < |front| ==> front[j] == raws[j];
      }
      TakenWhen(front, KeyOf(o, c), image, c);
      assert FirstReading(raws, |front|, o, image, c) <==>
             ReadAs(last, image, c) == Some(o) && !Taken(ReadAll(front, image, c).decoded, KeyOf(o, c), c);
    }
  }

  ghost predicate KeysDiffer(os: seq<Observation>, c: Contract) {
    forall i, j :: 0 <= i < j < |os| ==> !SameReading(os[i], os[j], c)
  }

  lemma KeysDifferPush(os: seq<Observation>, o: Observation, c: Contract)
    requires KeysDiffer(os, c) && !Taken(os, KeyOf(o, c), c)
    ensures KeysDiffer(os + [o], c)
  {
    hide KeyOf, SameReading;
    KeyIsReading(c);
  }

  /** No two readings have the same attribute and value. */
  lemma {:induction false} ReadingsDistinct(raws: seq<Value>, image: Str, c: Contract)
    requires forall v :: v in raws ==> Good(v)
    ensures KeysDiffer(ReadAll(raws, image, c).decoded, c)
  {
    hide Good, ForbiddenName, DecodeObservation, KeyOf, KeysDiffer, Taken;
    NoKeys(c);
    if raws != [] {
      var before := ReadAll(raws[..|raws| - 1], image, c).decoded;
      var o := ReadAs(raws[|raws| - 1], image, c);
      ReadingsDistinct(raws[..|raws| - 1], image, c);
      if o.Some? && !Taken(before, KeyOf(o.value, c), c) {
        KeysDifferPush(before, o.value, c);
      }
    }
  }

  lemma NoKeys(c: Contract)
    ensures KeysDiffer([], c)
  {
  }

  /** The item carries a forbidden attribute, reported by this name. */
  ghost predicate Carries(raw: Value, name: Str, c: Contract)
    requires Good(raw)
  {
    && IsObject(raw) && Get(raw, "attribute").Some? && Get(raw, "attribute").value.Text?
    && name == c.lower(Strip(DecodePieces(Get(raw, "attribute").value.pieces))) && name in c.forbidden
  }

  lemma ForbiddenWhen(raw: Value, name: Str, c: Contract)
    requires Good(raw)
    ensures ForbiddenName(raw, c) == Some(name) <==> Carries(raw, name, c)
  {
    hide Good, Get, Strip, DecodePieces;
  }

  /** The names reported as refused are exactly the forbidden ones that some item carries. */
  lemma {:induction false} RefusedExactly(raws: seq<Value>, name: Str, image: Str, c: Contract)
    requires forall v :: v in raws ==> Good(v)
    ensures name in ReadAll(raws, image, c).refused <==> exists i :: 0 <= i < |raws| && Carries(raws[i], name, c)
  {
    hide Good, ForbiddenName, DecodeObservation, Taken, Carries;
    if raws != [] {
      var front, last := raws[..|raws| - 1], raws[|raws| - 1];
      RefusedExactly(front, name, image, c);
      ForbiddenWhen(last, name, c);
      assert raws == front + [last];
      assert Carries(last, name, c) == Carries(raws[|front|], name, c);
    }
  }

  // ---------------------------------------------------------------- the cap

  /** Only the first six items count, and all of them do. */
  lemma FirstSixRead(raws: seq<Value>, cannot: seq<Str>, image: Str, truncated: bool, o: Observation, c: Contract)
    requires forall v :: v in raws ==> Good(v)
    ensures o in Perceived(raws, cannot, image, truncated, c).observations <==>
            exists i: nat :: i < 6 && FirstReading(raws, i, o, image, c)
  {
    hide Good, ReadAll, Distinct, ReadAs, SameReading;
    var capped := Capped(raws);
    ReadingsAreFirsts(capped, o, image, c);
    forall i: nat | i < |capped|
      ensures FirstReading(capped, i, o, image, c) <==> FirstReading(raws, i, o, image, c)
    {
      assert forall j :: 0 <= j < |capped| ==> capped[j] == raws[j];
    }
  }

  // ------------------------------------------------------------ well formed

  predicate WellFormed(o: Observation, image: Str, c: Contract) {
    && o.attribute in c.slots && o.value != [] && o.image == image
    && 0.0 <= o.confidence <= 1.0
    && (o.region.Some? ==>
          var (x0, y0, x1, y1) := o.region.value;
          0.0 <= x0 < x1 <= 1.0 && 0.0 <= y0 < y1 <= 1.0)
  }

  lemma ConfidenceInRange(raw: Option<Value>, c: Contract)
    requires raw.Some? ==> Good(raw.value)
    ensures var x := DecodeConfidence(raw, c); x.Some? ==> 0.0 <= x.value <= 1.0
  {
    hide Good, Codes;
  }

  lemma ObservationWellFormed(raw: Value, image: Str, c: Contract)
    requires Good(raw)
    ensures var o := DecodeObservation(raw, image, c); o.Some? ==> WellFormed(o.value, image, c)
  {
    hide Good, Get, StringField, ListField, Strip, DecodeConfidence;
    if IsObject(raw) {
      ConfidenceInRange(Get(raw, "confidence"), c);
    }
  }

  /** Every reading names an attribute on offer, has a value, a confidence between 0 and 1, and a
  region only if it is a box inside the image. */
  lemma {:induction false} ReadingsWellFormed(raws: seq<Value>, image: Str, c: Contract)
    requires forall v :: v in raws ==> Good(v)
    ensures forall o :: o in ReadAll(raws, image, c).decoded ==> WellFormed(o, image, c)
  {
    hide Good, ForbiddenName, DecodeObservation, KeyOf, WellFormed, Taken;
    if raws != [] {
      ReadingsWellFormed(raws[..|raws| - 1], image, c);
      ObservationWellFormed(raws[|raws| - 1], image, c);
    }
  }

  // ------------------------------------------------------- how sure it was

  predicate Whole(x: real) {
    x == x.Floor as real
  }

  /** A number lands in the top band exactly when it is at least 0.8 on the scale to 1, or a whole
  number from 80 to 100. */
  lemma HighNumbers(v: Value, c: Contract)
    requires Good(v) && v.Number?
    ensures var x := NumeralValue(v.numeral);
            var read := DecodeConfidence(Some(v), c);
            (read.Some? && BandFor(read.value) == High) <==>
              (0.8 <= x <= 1.0 || (Whole(x) && 80.0 <= x <= 100.0))
  {
    hide NumeralValue, Codes;
  }

  /** In the middle band from 0.5 or 50 on; and it is not read at all exactly if it is negative, over
  100, or between 1 and 100 without being a whole number from 2 on. */
  lemma OtherNumbers(v: Value, c: Contract)
    requires Good(v) && v.Number?
    ensures var x := NumeralValue(v.numeral);
            var read := DecodeConfidence(Some(v), c);
            && ((read.Some? && BandFor(read.value) == Uncertain) <==>
                  (0.5 <= x < 0.8 || (Whole(x) && 50.0 <= x < 80.0)))
            && (read.None? <==> x < 0.0 || x > 100.0 || (1.0 < x && !Whole(x)) || 1.0 < x < 2.0)
  {
    hide NumeralValue, Codes;
  }

  function BandName(b: Band): string {
    match b
    case High => "HIGH"
    case Uncertain => "UNCERTAIN"
    case NotDeterminable => "NOT_DETERMINABLE"
  }

  /** A band that the model names is the band that its floor is read back as, and no other text is read. */
  lemma BandNamesRead(v: Value, c: Contract)
    requires Good(v) && v.Text?
    ensures var name := c.upper(Strip(DecodePieces(v.pieces)));
            var read := DecodeConfidence(Some(v), c);
            forall b :: name == Codes(BandName(b)) <==> read.Some? && BandFor(read.value) == b
  {
    hide DecodePieces, Strip, Codes, Good, AsNumber;
    NamesDiffer();
  }

  lemma NamesDiffer()
    ensures Codes("HIGH") != Codes("UNCERTAIN") && Codes("UNCERTAIN") != Codes("NOT_DETERMINABLE")
    ensures Codes("HIGH") != Codes("NOT_DETERMINABLE")
  {
    CodesLength("HIGH");
    CodesLength("UNCERTAIN");
    CodesLength("NOT_DETERMINABLE");
  }

  lemma {:induction false} CodesLength(s: string)
    ensures |Codes(s)| == |s|
  {
    if s != "" {
      CodesLength(s[1..]);
    }
  }
}
