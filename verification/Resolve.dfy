/** `resolve` of assistant/answering/vision.py: what several perceptions say together, and the
slots that may be filled from it. */
module Resolve {
  import opened Wrappers
  import opened Decode

  /** What the resolver reads from its configuration.  `says` stands for the word patterns of the
  vocabulary, `names` for the search of an attribute's name in a text. */
  datatype Setup = Setup(known: seq<Str>, slots: set<Str>, values: map<Str, set<Str>>,
                         says: (Str, Str, Str) -> bool, names: (Str, Str) -> bool,
                         finish: Str, masonry: Str, substrate: Str, bare: Str, exposed: set<Str>)

  datatype Band = High | Uncertain | NotDeterminable

  datatype Status = Confirmed | Doubtful | Conflicting | Unsettled

  datatype Certainty = Observed | Likely | Unclear | CannotDetermine

  datatype Withheld = Nothing | NoRegion | Truncated | Disagreement | Covered | Declined

  datatype Resolved = Resolved(value: Str, status: Status, confidence: real, withheld: Withheld)

  /** One observation with the vocabulary value it means; `cut` says that its response was truncated. */
  datatype Sighting = Sighting(value: Str, observation: Observation, cut: bool)

  const LIKELY_FLOOR: real := 0.65

  // ------------------------------------------------------------ one reading

  function BandFor(confidence: real): Band {
    if confidence >= HIGH_FLOOR then High
    else if confidence >= UNCERTAIN_FLOOR then Uncertain
    else NotDeterminable
  }

  function Matched(attribute: Str, observed: Str, c: Setup): set<Str> {
    if attribute in c.values then set v | v in c.values[attribute] && c.says(attribute, v, observed) else {}
  }

  /** The one vocabulary value that an observed string means; an empty one counts for nothing. */
  ghost predicate Means(attribute: Str, observed: Str, v: Str, c: Setup) {
    Matched(attribute, observed, c) == {v} && v != []
  }

  /** `_match_value`: none when no value of the vocabulary matches, or more than one. */
  function MatchValue(attribute: Str, observed: Str, c: Setup): (r: Option<Str>)
    ensures r.Some? ==> Means(attribute, observed, r.value, c)
    ensures r.None? ==> forall v :: !Means(attribute, observed, v, c)
  {
    var matched := Matched(attribute, observed, c);
    if |matched| == 1 then
      SingletonHasOne(matched);
      var v :| v in matched;
      if v == [] then None else Some(v)
    else None
  }

  lemma SingletonHasOne(s: set<Str>)
    requires |s| == 1
    ensures exists v :: s == {v}
    ensures forall v, w :: v in s && w in s ==> v == w
  {
    var v :| v in s;
    assert |s - {v}| == 0;
    assert s == {v};
  }

  predicate Acceptable(r: Sighting) {
    r.observation.region.Some? && !r.cut && BandFor(r.observation.confidence) == High
  }

  // ---------------------------------------------- readings of one attribute

  /** What one observation says of `attribute`, if anything. */
  function ReadingOf(o: Observation, attribute: Str, cut: bool, c: Setup): seq<Sighting> {
    var value := MatchValue(attribute, o.value, c);
    if o.attribute == attribute && value.Some? then [Sighting(value.value, o, cut)] else []
  }

  function ReadingsOf(os: seq<Observation>, attribute: Str, cut: bool, c: Setup): seq<Sighting> {
    if os == [] then []
    else ReadingsOf(os[..|os| - 1], attribute, cut, c) + ReadingOf(os[|os| - 1], attribute, cut, c)
  }

  function Seen(ps: seq<Perception>, attribute: Str, c: Setup): seq<Sighting> {
    if ps == [] then []
    else
      var p := ps[|ps| - 1];
      Seen(ps[..|ps| - 1], attribute, c) + ReadingsOf(p.observations, attribute, p.truncated, c)
  }

  function Accepted(rs: seq<Sighting>): seq<Sighting> {
    if rs == [] then []
    else Accepted(rs[..|rs| - 1]) + (if Acceptable(rs[|rs| - 1]) then [rs[|rs| - 1]] else [])
  }

  /** Python's `max` by confidence: the first of the highest. */
  function Best(rs: seq<Sighting>): (r: Sighting)
    requires rs != []
    ensures r in rs && forall other :: other in rs ==> other.observation.confidence <= r.observation.confidence
  {
    if |rs| == 1 then rs[0]
    else
      var best := Best(rs[..|rs| - 1]);
      if rs[|rs| - 1].observation.confidence > best.observation.confidence then rs[|rs| - 1] else best
  }

  function ValueSet(rs: seq<Sighting>): set<Str> {
    set r | r in rs :: r.value
  }

  /** The conclusion on one attribute, before the gate. */
  function Settle(rs: seq<Sighting>): Option<Resolved> {
    var accepted := Accepted(rs);
    if accepted == [] then
      if rs == [] then None
      else
        var best := Best(rs);
        var o := best.observation;
        match BandFor(o.confidence)
        case High =>
          Some(Resolved(best.value, Doubtful, o.confidence, if o.region.None? then NoRegion else Truncated))
        case Uncertain => Some(Resolved(best.value, Doubtful, o.confidence, Nothing))
        case NotDeterminable => Some(Resolved(best.value, Unsettled, o.confidence, Nothing))
    else
      var best := Best(accepted);
      if |ValueSet(accepted)| > 1 then Some(Resolved([], Conflicting, best.observation.confidence, Disagreement))
      else Some(Resolved(best.value, Confirmed, best.observation.confidence, Nothing))
  }

  function CertaintyOf(r: Resolved): Certainty {
    if r.status == Confirmed && r.withheld == Nothing then Observed
    else if r.status == Conflicting then Unclear
    else if r.status == Unsettled then CannotDetermine
    else if r.confidence >= LIKELY_FLOOR then Likely
    else Unclear
  }

  predicate Routed(r: Resolved) {
    CertaintyOf(r) == Observed && r.withheld == Nothing
  }

  // -------------------------------------------------------- all attributes

  type Conclusions = map<Str, Resolved>

  function Settled(ps: seq<Perception>, c: Setup): Conclusions {
    map a | a in c.known && Settle(Seen(ps, a, c)).Some? :: Settle(Seen(ps, a, c)).value
  }

  /** `_covered_without_exposure`. */
  predicate CoveredWithoutExposure(found: Conclusions, c: Setup) {
    && c.finish in found && found[c.finish].value != [] && found[c.finish].value != c.bare
    && CertaintyOf(found[c.finish]) in {Observed, Likely}
    && !(c.masonry in found && found[c.masonry].value in c.exposed)
  }

  function Gated(found: Conclusions, c: Setup): Conclusions {
    if CoveredWithoutExposure(found, c) && c.substrate in found
    then found[c.substrate := found[c.substrate].(withheld := Covered)] else found
  }

  predicate NamedIn(attribute: Str, ps: seq<Perception>, c: Setup) {
    exists i :: 0 <= i < |ps| && exists j :: 0 <= j < |ps[i].cannot| && c.names(attribute, ps[i].cannot[j])
  }

  function Honoured(found: Conclusions, ps: seq<Perception>, c: Setup): Conclusions {
    map a | a in found ::
      if NamedIn(a, ps, c) && !Routed(found[a]) then found[a].(status := Unsettled, withheld := Declined) else found[a]
  }

  function Attributes(ps: seq<Perception>, c: Setup): Conclusions {
    Honoured(Gated(Settled(ps, c), c), ps, c)
  }

  function Slots(ps: seq<Perception>, c: Setup): map<Str, Str> {
    var found := Attributes(ps, c);
    map a | a in found && a in c.slots && Routed(found[a]) :: found[a].value
  }

  // ------------------------------------------------- the loops of the source

  type Sightings = map<Str, seq<Sighting>>

  ghost predicate Kept(seen: Sightings, accepted: Sightings, c: Setup) {
    && seen.Keys == accepted.Keys == (set a | a in c.known)
    && forall a :: a in c.known ==> accepted[a] == Accepted(seen[a])
  }

  /** The body of the loop over observations. */
  method Note(o: Observation, cut: bool, seen: Sightings, accepted: Sightings, c: Setup)
    returns (seen2: Sightings, accepted2: Sightings)
    requires Kept(seen, accepted, c)
    ensures Kept(seen2, accepted2, c)
    ensures forall a :: a in c.known ==> seen2[a] == seen[a] + ReadingOf(o, a, cut, c)
  {
    hide MatchValue, Means, Acceptable, Accepted;
    seen2, accepted2 := seen, accepted;
    if o.attribute !in c.known {
      return;
    }
    var value := MatchValue(o.attribute, o.value, c);
    if value.None? {
      return;
    }
    var r := Sighting(value.value, o, cut);
    AcceptedPush(seen[o.attribute], r);
    seen2 := seen[o.attribute := seen[o.attribute] + [r]];
    if Acceptable(r) {
      accepted2 := accepted[o.attribute := accepted[o.attribute] + [r]];
    }
  }

  lemma AcceptedPush(rs: seq<Sighting>, r: Sighting)
    ensures Accepted(rs + [r]) == if Acceptable(r) then Accepted(rs) + [r] else Accepted(rs)
  {
    hide Acceptable;
    assert (rs + [r])[..|rs|] == rs;
  }

  /** The loop over one perception's observations. */
  method GatherOne(p: Perception, seen: Sightings, accepted: Sightings, c: Setup)
    returns (seen2: Sightings, accepted2: Sightings)
    requires Kept(seen, accepted, c)
    ensures Kept(seen2, accepted2, c)
    ensures forall a :: a in c.known ==> seen2[a] == seen[a] + ReadingsOf(p.observations, a, p.truncated, c)
  {
    hide MatchValue, ReadingOf, Accepted;
    var os := p.observations;
    seen2, accepted2 := seen, accepted;
    for j := 0 to |os|
      invariant Kept(seen2, accepted2, c)
      invariant forall a :: a in c.known ==> seen2[a] == seen[a] + ReadingsOf(os[..j], a, p.truncated, c)
    {
      assert os[..j + 1][..j] == os[..j];
      seen2, accepted2 := Note(os[j], p.truncated, seen2, accepted2, c);
    }
    assert os[..|os|] == os;
  }

  /** The two dictionaries of readings, filled perception by perception. */
  method Gather(ps: seq<Perception>, c: Setup) returns (seen: Sightings, accepted: Sightings)
    ensures Kept(seen, accepted, c)
    ensures forall a :: a in c.known ==> seen[a] == Seen(ps, a, c)
  {
    hide ReadingsOf, Accepted;
    seen := map a | a in c.known :: [];
    accepted := map a | a in c.known :: [];
    NothingAccepted();
    for i := 0 to |ps|
      invariant Kept(seen, accepted, c)
      invariant forall a :: a in c.known ==> seen[a] == Seen(ps[..i], a, c)
    {
      assert ps[..i + 1][..i] == ps[..i];
      seen, accepted := GatherOne(ps[i], seen, accepted, c);
    }
    assert ps[..|ps|] == ps;
  }

  lemma NothingAccepted()
    ensures Accepted([]) == []
  {
  }

  /** The resolver as the source writes it: gather, settle each attribute, gate the substrate,
  honour what the model declined, and keep what may be routed. */
  method ResolveAll(ps: seq<Perception>, c: Setup) returns (slots: map<Str, Str>, found: Conclusions)
    ensures found == Attributes(ps, c) && slots == Slots(ps, c)
  {
    hide Settle, Routed, NamedIn, CoveredWithoutExposure, Accepted, Seen;
    var seen, accepted := Gather(ps, c);
    found := map[];
    for i := 0 to |c.known|
      invariant found == map a | a in c.known[..i] && Settle(Seen(ps, a, c)).Some? :: Settle(Seen(ps, a, c)).value
    {
      var a := c.known[i];
      var conclusion := SettleFrom(seen[a], accepted[a]);
      assert forall b :: b in c.known[..i + 1] <==> b in c.known[..i] || b == a;
      if conclusion.Some? {
        found := found[a := conclusion.value];
      }
    }
    assert c.known[..|c.known|] == c.known;
    assert found == Settled(ps, c);
    if CoveredWithoutExposure(found, c) && c.substrate in found {
      found := found[c.substrate := found[c.substrate].(withheld := Covered)];
    }
    found := Honoured(found, ps, c);
    slots := map a | a in found && a in c.slots && Routed(found[a]) :: found[a].value;
  }

  method SettleFrom(seen: seq<Sighting>, accepted: seq<Sighting>) returns (r: Option<Resolved>)
    requires accepted == Accepted(seen)
    ensures r == Settle(seen)
  {
    if accepted == [] {
      if seen == [] {
        return None;
      }
      var best := Best(seen);
      var o := best.observation;
      var status := if BandFor(o.confidence) == NotDeterminable then Unsettled else Doubtful;
      var withheld := if BandFor(o.confidence) != High then Nothing else if o.region.None? then NoRegion else Truncated;
      return Some(Resolved(best.value, status, o.confidence, withheld));
    }
    var best := Best(accepted);
    if |ValueSet(accepted)| > 1 {
      return Some(Resolved([], Conflicting, best.observation.confidence, Disagreement));
    }
    r := Some(Resolved(best.value, Confirmed, best.observation.confidence, Nothing));
  }
}
