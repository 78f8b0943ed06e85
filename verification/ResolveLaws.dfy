/** What a filled slot rests on, and what it does not depend on. */
module ResolveLaws {
  import opened Wrappers
  import opened Decode
  import opened Resolve

  // ------------------------------------------------- where sightings come from

  lemma {:induction false} ReadingsMembers(os: seq<Observation>, a: Str, cut: bool, c: Setup, r: Sighting)
    ensures r in ReadingsOf(os, a, cut, c) <==> exists o :: o in os && r in ReadingOf(o, a, cut, c)
  {
    hide ReadingOf;
    if os != [] {
      ReadingsMembers(os[..|os| - 1], a, cut, c, r);
      assert os == os[..|os| - 1] + [os[|os| - 1]];
    }
  }

  lemma {:induction false} SeenMembers(ps: seq<Perception>, a: Str, c: Setup, r: Sighting)
    ensures r in Seen(ps, a, c) <==>
            exists p, o :: p in ps && o in p.observations && r in ReadingOf(o, a, p.truncated, c)
  {
    hide ReadingOf, ReadingsOf;
    if ps != [] {
      var p := ps[|ps| - 1];
      SeenMembers(ps[..|ps| - 1], a, c, r);
      ReadingsMembers(p.observations, a, p.truncated, c, r);
      assert ps == ps[..|ps| - 1] + [p];
    }
  }

  lemma {:induction false} AcceptedMembers(rs: seq<Sighting>)
    ensures forall r :: r in Accepted(rs) <==> r in rs && Acceptable(r)
  {
    hide Acceptable;
    if rs != [] {
      AcceptedMembers(rs[..|rs| - 1]);
      assert rs == rs[..|rs| - 1] + [rs[|rs| - 1]];
    }
  }

  // ------------------------------------------------------- when a slot is filled

  ghost predicate Agreed(rs: seq<Sighting>, v: Str) {
    ValueSet(Accepted(rs)) == {v}
  }

  lemma SettleConfirms(rs: seq<Sighting>)
    ensures (Settle(rs).Some? && Settle(rs).value.status == Confirmed) <==> |ValueSet(Accepted(rs))| == 1
    ensures Settle(rs).Some? && Settle(rs).value.status == Confirmed ==>
              Agreed(rs, Settle(rs).value.value) && Settle(rs).value.withheld == Nothing
  {
    var accepted := Accepted(rs);
    if accepted != [] {
      assert accepted[0].value in ValueSet(accepted);
      var best := Best(accepted);
      assert best.value in ValueSet(accepted);
      if |ValueSet(accepted)| <= 1 {
        assert |ValueSet(accepted) - {best.value}| == 0;
        assert ValueSet(accepted) - {best.value} == {};
      }
    } else {
      assert ValueSet(accepted) == {};
    }
  }

  /** What the conclusion on an attribute means: none without a reading; a conflict exactly if two
  accepted readings disagree; a confirmed value exactly if the accepted ones agree on it; else the
  value of a most confident reading, unsettled exactly if all are below the middle band, and held
  back exactly if that reading is in the top band. */
  lemma SettleConcludes(rs: seq<Sighting>)
    ensures Settle(rs).None? <==> rs == []
    ensures rs != [] ==>
              var r := Settle(rs).value;
              && (r.status == Conflicting <==>
                    exists s, t :: s in rs && t in rs && Acceptable(s) && Acceptable(t) && s.value != t.value)
              && (r.status == Confirmed <==> Agreed(rs, r.value))
              && (r.status == Unsettled <==> forall s :: s in rs ==> s.observation.confidence < UNCERTAIN_FLOOR)
              && (exists s :: s in rs && s.observation.confidence == r.confidence)
              && ((forall s :: s in rs ==> !Acceptable(s)) ==>
                    && (exists s :: s in rs && s.value == r.value && s.observation.confidence == r.confidence)
                    && (forall s :: s in rs ==> s.observation.confidence <= r.confidence)
                    && (r.withheld != Nothing <==> r.confidence >= HIGH_FLOOR))
  {
    hide Accepted;
    AcceptedMembers(rs);
    SettleConfirms(rs);
    var accepted := Accepted(rs);
    if accepted != [] {
      assert accepted[0] in accepted;
      assert Best(accepted) in accepted;
      ConflictWhen(accepted);
      if |ValueSet(accepted)| > 1 {
        AgreedWhen(rs);
      }
    } else {
      NothingAgreed(rs);
      if rs != [] {
        assert Best(rs) in rs;
      }
    }
  }

  lemma NothingAgreed(rs: seq<Sighting>)
    requires Accepted(rs) == []
    ensures forall v :: !Agreed(rs, v)
    ensures forall s :: s in rs ==> !Acceptable(s)
  {
    AcceptedMembers(rs);
    forall v
      ensures !Agreed(rs, v)
    {
      assert v !in ValueSet(Accepted(rs)) && v in {v};
    }
  }

  lemma AgreedWhen(rs: seq<Sighting>)
    requires |ValueSet(Accepted(rs))| > 1
    ensures forall v :: !Agreed(rs, v)
  {
  }

  lemma ConflictWhen(rs: seq<Sighting>)
    requires rs != []
    ensures |ValueSet(rs)| > 1 <==> exists s, t :: s in rs && t in rs && s.value != t.value
  {
    var v := rs[0].value;
    assert v in ValueSet(rs);
    assert forall s :: s in rs ==> s.value in ValueSet(rs);
    if w :| w in ValueSet(rs) && w != v {
      var s :| s in rs && s.value == w;
      assert rs[0] in rs;
      assert {v, w} <= ValueSet(rs);
      assert |ValueSet(rs)| == |ValueSet(rs) - {v, w}| + |{v, w}|;
    } else {
      assert ValueSet(rs) == {v};
    }
  }

  /** A slot is filled exactly when the accepted readings of that attribute all have one value and
  there is one, and the gate does not hold the attribute back. */
  lemma SlotFilledWhen(ps: seq<Perception>, c: Setup, a: Str, v: Str)
    ensures a in Slots(ps, c) && Slots(ps, c)[a] == v <==>
            && a in c.slots && a in c.known && Agreed(Seen(ps, a, c), v)
            && !(a == c.substrate && CoveredWithoutExposure(Settled(ps, c), c))
  {
    hide Settle, Seen, CoveredWithoutExposure, NamedIn, Agreed;
    SettleConfirms(Seen(ps, a, c));
    AgreedOnce(Seen(ps, a, c), v);
  }

  lemma AgreedOnce(rs: seq<Sighting>, v: Str)
    ensures Agreed(rs, v) ==> |ValueSet(Accepted(rs))| == 1
    ensures forall w :: Agreed(rs, v) && Agreed(rs, w) ==> v == w
  {
    if Agreed(rs, v) {
      assert v in ValueSet(Accepted(rs));
      forall w | Agreed(rs, w)
        ensures v == w
      {
        assert v in {w};
      }
    }
  }

  /** Observation `j` of perception `i` is strong, can be checked against a region, comes from a
  response that was not truncated, and means exactly the value `v` of the vocabulary. */
  ghost predicate Backs(ps: seq<Perception>, i: nat, j: nat, a: Str, v: Str, c: Setup) {
    && i < |ps| && !ps[i].truncated && j < |ps[i].observations|
    && var o := ps[i].observations[j];
    o.attribute == a && o.region.Some? && BandFor(o.confidence) == High && Means(a, o.value, v, c)
  }

  lemma BacksIsAccepted(ps: seq<Perception>, i: nat, j: nat, a: Str, v: Str, c: Setup)
    requires Backs(ps, i, j, a, v, c)
    ensures v in ValueSet(Accepted(Seen(ps, a, c)))
  {
    var o := ps[i].observations[j];
    var r := Sighting(v, o, false);
    assert MatchValue(a, o.value, c) == Some(v) by {
      assert v in Matched(a, o.value, c);
    }
    assert ReadingOf(o, a, false, c) == [r];
    assert o in ps[i].observations && ps[i] in ps;
    SeenMembers(ps, a, c, r);
    AcceptedMembers(Seen(ps, a, c));
    assert r in Accepted(Seen(ps, a, c));
  }

  lemma AcceptedIsBacked(ps: seq<Perception>, a: Str, v: Str, c: Setup) returns (i: nat, j: nat)
    requires v in ValueSet(Accepted(Seen(ps, a, c)))
    ensures Backs(ps, i, j, a, v, c)
  {
    var r :| r in Accepted(Seen(ps, a, c)) && r.value == v;
    AcceptedMembers(Seen(ps, a, c));
    SeenMembers(ps, a, c, r);
    var p, o :| p in ps && o in p.observations && r in ReadingOf(o, a, p.truncated, c);
    i :| 0 <= i < |ps| && ps[i] == p;
    j :| 0 <= j < |p.observations| && p.observations[j] == o;
  }

  /** A filled slot is always backed by such an observation, and all such observations of that
  attribute agree with it. */
  lemma SlotsAreBacked(ps: seq<Perception>, c: Setup, a: Str)
    ensures a in Slots(ps, c) ==> exists i: nat, j: nat :: Backs(ps, i, j, a, Slots(ps, c)[a], c)
    ensures forall i: nat, j: nat, w :: a in Slots(ps, c) && Backs(ps, i, j, a, w, c) ==> w == Slots(ps, c)[a]
  {
    hide Slots, Settled, Backs, CoveredWithoutExposure, Accepted, Seen;
    if a in Slots(ps, c) {
      var v := Slots(ps, c)[a];
      SlotFilledWhen(ps, c, a, v);
      var i, j := AcceptedIsBacked(ps, a, v, c);
      forall i: nat, j: nat, w | Backs(ps, i, j, a, w, c)
        ensures w == v
      {
        BacksIsAccepted(ps, i, j, a, w, c);
      }
    }
  }

  // --------------------------------------------------------- order of images

  /** Ties at the top do not matter: some reading was accepted, or the most confident ones agree. */
  ghost predicate TopAgrees(rs: seq<Sighting>) {
    Accepted(rs) != [] ||
    forall r, s :: r in rs && s in rs && r.observation.confidence == s.observation.confidence == Best(rs).observation.confidence
      ==> r.value == s.value
  }

  ghost predicate SameMembers<T(!new)>(a: seq<T>, b: seq<T>) {
    forall x :: x in a <==> x in b
  }

  lemma SameSightings(ps: seq<Perception>, qs: seq<Perception>, a: Str, c: Setup)
    requires SameMembers(ps, qs)
    ensures SameMembers(Seen(ps, a, c), Seen(qs, a, c))
    ensures SameMembers(Accepted(Seen(ps, a, c)), Accepted(Seen(qs, a, c)))
    ensures ValueSet(Accepted(Seen(ps, a, c))) == ValueSet(Accepted(Seen(qs, a, c)))
  {
    hide Seen, ReadingOf, Accepted;
    forall r
      ensures r in Seen(ps, a, c) <==> r in Seen(qs, a, c)
    {
      SeenMembers(ps, a, c, r);
      SeenMembers(qs, a, c, r);
    }
    AcceptedMembers(Seen(ps, a, c));
    AcceptedMembers(Seen(qs, a, c));
  }

  /** The parts of a conclusion that the gate reads. */
  ghost predicate SameForGate(x: Option<Resolved>, y: Option<Resolved>) {
    && (x.Some? <==> y.Some?)
    && (x.Some? ==> x.value.value == y.value.value && CertaintyOf(x.value) == CertaintyOf(y.value))
  }

  lemma BestSame(rs: seq<Sighting>, ss: seq<Sighting>)
    requires SameMembers(rs, ss) && rs != []
    ensures ss != [] && Best(rs).observation.confidence == Best(ss).observation.confidence
  {
    assert rs[0] in ss;
    assert Best(rs) in ss && Best(ss) in rs;
  }

  lemma SomeMember<T(!new)>(a: seq<T>, b: seq<T>)
    requires SameMembers(a, b) && a != []
    ensures b != []
  {
    assert a[0] in b;
  }

  /** With accepted readings it does not matter for the gate which comes first. */
  lemma SettleByAccepted(rs: seq<Sighting>, ss: seq<Sighting>)
    requires SameMembers(Accepted(rs), Accepted(ss)) && Accepted(rs) != []
    requires ValueSet(Accepted(rs)) == ValueSet(Accepted(ss))
    ensures SameForGate(Settle(rs), Settle(ss))
  {
    hide Accepted;
    BestSame(Accepted(rs), Accepted(ss));
    SettleConfirms(rs);
    SettleConfirms(ss);
    if |ValueSet(Accepted(rs))| == 1 {
      AgreedOnce(rs, Settle(rs).value.value);
    }
  }

  /** Conclusions from the same readings differ for the gate only by which of the top readings comes first. */
  lemma SettleByBest(rs: seq<Sighting>, ss: seq<Sighting>)
    requires SameMembers(rs, ss) && SameMembers(Accepted(rs), Accepted(ss))
    requires ValueSet(Accepted(rs)) == ValueSet(Accepted(ss))
    requires rs != [] && ss != [] ==> Best(rs).value == Best(ss).value
    ensures SameForGate(Settle(rs), Settle(ss))
  {
    hide Accepted;
    if Accepted(rs) != [] {
      SettleByAccepted(rs, ss);
    } else {
      assert Accepted(ss) == [] by {
        if Accepted(ss) != [] {
          SomeMember(Accepted(ss), Accepted(rs));
        }
      }
      if rs != [] {
        BestSame(rs, ss);
      } else if ss != [] {
        SomeMember(ss, rs);
      }
    }
  }

  lemma SettleSame(rs: seq<Sighting>, ss: seq<Sighting>)
    requires SameMembers(rs, ss) && SameMembers(Accepted(rs), Accepted(ss)) && TopAgrees(rs)
    requires ValueSet(Accepted(rs)) == ValueSet(Accepted(ss))
    ensures SameForGate(Settle(rs), Settle(ss))
  {
    hide Accepted, Settle;
    if Accepted(rs) != [] {
      SettleByAccepted(rs, ss);
    } else {
      if rs != [] && ss != [] {
        BestSame(rs, ss);
        assert Best(ss) in rs && Best(rs) in rs;
      }
      SettleByBest(rs, ss);
    }
  }

  predicate Gate(ps: seq<Perception>, c: Setup) {
    CoveredWithoutExposure(Settled(ps, c), c)
  }

  lemma GateFrom(ps: seq<Perception>, qs: seq<Perception>, c: Setup)
    requires SameForGate(Settle(Seen(ps, c.finish, c)), Settle(Seen(qs, c.finish, c)))
    requires SameForGate(Settle(Seen(ps, c.masonry, c)), Settle(Seen(qs, c.masonry, c)))
    ensures Gate(ps, c) == Gate(qs, c)
  {
    hide Seen, Settle, CertaintyOf;
  }

  lemma GateSame(ps: seq<Perception>, qs: seq<Perception>, c: Setup)
    requires SameMembers(ps, qs)
    requires TopAgrees(Seen(ps, c.finish, c)) && TopAgrees(Seen(ps, c.masonry, c))
    ensures Gate(ps, c) == Gate(qs, c)
  {
    hide Seen, Settle, TopAgrees, SameForGate, Gate;
    SameSightings(ps, qs, c.finish, c);
    SameSightings(ps, qs, c.masonry, c);
    SettleSame(Seen(ps, c.finish, c), Seen(qs, c.finish, c));
    SettleSame(Seen(ps, c.masonry, c), Seen(qs, c.masonry, c));
    GateFrom(ps, qs, c);
  }

  /** The substrate would be filled if the gate let it through. */
  ghost predicate Fillable(ps: seq<Perception>, c: Setup) {
    c.substrate in c.slots && c.substrate in c.known && exists v :: Agreed(Seen(ps, c.substrate, c), v)
  }

  /** Where the accepted values are the same, the slots are, exactly if the gate is or has nothing to hold back. */
  lemma SlotsDifferByGate(ps: seq<Perception>, qs: seq<Perception>, c: Setup)
    requires forall a :: ValueSet(Accepted(Seen(ps, a, c))) == ValueSet(Accepted(Seen(qs, a, c)))
    ensures Slots(ps, c) == Slots(qs, c) <==> (!Fillable(ps, c) || Gate(ps, c) == Gate(qs, c))
  {
    hide Slots, Seen, Settled, CoveredWithoutExposure, Accepted;
    forall a, v
      ensures Fills(Slots(ps, c), a, v) <==>
              a in c.slots && a in c.known && Agreed(Seen(ps, a, c), v) && !(a == c.substrate && Gate(ps, c))
      ensures Fills(Slots(qs, c), a, v) <==>
              a in c.slots && a in c.known && Agreed(Seen(ps, a, c), v) && !(a == c.substrate && Gate(qs, c))
    {
      SlotFilledWhen(ps, c, a, v);
      SlotFilledWhen(qs, c, a, v);
    }
    if !Fillable(ps, c) || Gate(ps, c) == Gate(qs, c) {
      SameFilling(Slots(ps, c), Slots(qs, c));
    }
  }

  /** The filled slots depend only on which perceptions there are, not on their order or on
  repetitions, provided that the two attributes the gate reads have no disagreeing tie at the top. */
  lemma SlotsIgnoreOrder(ps: seq<Perception>, qs: seq<Perception>, c: Setup)
    requires SameMembers(ps, qs)
    requires TopAgrees(Seen(ps, c.finish, c)) && TopAgrees(Seen(ps, c.masonry, c))
    ensures Slots(ps, c) == Slots(qs, c)
  {
    hide Slots, Seen, Settled, Gate, TopAgrees, Accepted, Fillable;
    GateSame(ps, qs, c);
    forall a
      ensures ValueSet(Accepted(Seen(ps, a, c))) == ValueSet(Accepted(Seen(qs, a, c)))
    {
      SameSightings(ps, qs, a, c);
    }
    SlotsDifferByGate(ps, qs, c);
  }

  ghost predicate Fills(m: map<Str, Str>, a: Str, v: Str) {
    a in m && m[a] == v
  }

  lemma SameFilling(m: map<Str, Str>, n: map<Str, Str>)
    requires forall a, v :: Fills(m, a, v) <==> Fills(n, a, v)
    ensures m == n
  {
    assert forall a :: a in m ==> Fills(m, a, m[a]);
    assert forall a :: a in n ==> Fills(n, a, n[a]);
  }

  // ------------------------------------------------- why the ties matter

  /** A perception of one whole-image observation. */
  function Glimpse(a: Str, value: Str, confidence: real): Perception {
    var o := Observation(a, value, confidence, [], Some((0.0, 0.0, 1.0, 1.0)), [], []);
    Perception([o], [], [], false, [], None)
  }

  /** Three glimpses, seen for one attribute. */
  lemma GlimpsesSeen(p: Perception, q: Perception, r: Perception, a: Str, c: Setup)
    requires |p.observations| == |q.observations| == |r.observations| == 1
    ensures Seen([p, q, r], a, c) == ReadingOf(p.observations[0], a, p.truncated, c)
                                   + ReadingOf(q.observations[0], a, q.truncated, c)
                                   + ReadingOf(r.observations[0], a, r.truncated, c)
  {
    hide ReadingOf;
    SeenPush([], p, a, c);
    SeenPush([p], q, a, c);
    SeenPush([p, q], r, a, c);
    assert [] + [p] == [p] && [p] + [q] == [p, q] && [p, q] + [r] == [p, q, r];
    OneReading(p.observations, a, p.truncated, c);
    OneReading(q.observations, a, q.truncated, c);
    OneReading(r.observations, a, r.truncated, c);
  }

  lemma SeenPush(ps: seq<Perception>, p: Perception, a: Str, c: Setup)
    ensures Seen(ps + [p], a, c) == Seen(ps, a, c) + ReadingsOf(p.observations, a, p.truncated, c)
    ensures Seen([], a, c) == []
  {
    assert (ps + [p])[..|ps|] == ps;
  }

  lemma OneReading(os: seq<Observation>, a: Str, cut: bool, c: Setup)
    requires |os| == 1
    ensures ReadingsOf(os, a, cut, c) == ReadingOf(os[0], a, cut, c)
  {
    hide ReadingOf;
    assert os[..0] == [];
  }

  /** Of two equally confident middling readings the first one is the conclusion. */
  lemma SettleTie(r: Sighting, s: Sighting)
    requires UNCERTAIN_FLOOR <= r.observation.confidence == s.observation.confidence < HIGH_FLOOR
    ensures Settle([r, s]) == Some(Resolved(r.value, Doubtful, r.observation.confidence, Nothing))
  {
    assert [r, s][..1] == [r] && [r][..0] == [];
    NothingAccepted();
    assert Accepted([r]) == [];
  }

  lemma AcceptedAlone(r: Sighting)
    requires Acceptable(r)
    ensures Agreed([r], r.value)
  {
    hide Acceptable;
    var rs := [r];
    assert rs[..|rs| - 1] == [];
    NothingAccepted();
    assert Accepted(rs) == [] + [r];
  }

  /** Two equally confident readings of the finish, one bare and one covering: the first image
  decides whether the substrate is filled. */
  lemma TiesDecide(c: Setup, first: Str, second: Str, brick: Str, confidence: real)
    requires LIKELY_FLOOR <= confidence < HIGH_FLOOR
    requires c.finish in c.known && c.substrate in c.known && c.substrate in c.slots
    requires c.finish != c.substrate && c.masonry != c.finish && c.masonry != c.substrate
    requires MatchValue(c.finish, first, c) == Some(first) && MatchValue(c.finish, second, c) == Some(second)
    requires MatchValue(c.substrate, brick, c) == Some(brick)
    ensures var ps := [Glimpse(c.finish, first, confidence), Glimpse(c.finish, second, confidence),
                       Glimpse(c.substrate, brick, 0.9)];
            c.substrate in Slots(ps, c) <==> first == c.bare
  {
    hide MatchValue, Settle, Seen, Slots, Agreed, Accepted;
    var p, q := Glimpse(c.finish, first, confidence), Glimpse(c.finish, second, confidence);
    var r := Glimpse(c.substrate, brick, 0.9);
    var ps := [p, q, r];
    GlimpsesSeen(p, q, r, c.finish, c);
    GlimpsesSeen(p, q, r, c.masonry, c);
    GlimpsesSeen(p, q, r, c.substrate, c);
    var s1 := Sighting(first, p.observations[0], false);
    var s2 := Sighting(second, q.observations[0], false);
    var s3 := Sighting(brick, r.observations[0], false);
    assert Seen(ps, c.finish, c) == [s1, s2];
    assert Seen(ps, c.masonry, c) == [];
    assert Seen(ps, c.substrate, c) == [s3];
    SettleTie(s1, s2);
    SettleNothing();
    AcceptedAlone(s3);
    SlotFilledWhen(ps, c, c.substrate, brick);
    if c.substrate in Slots(ps, c) {
      SlotFilledWhen(ps, c, c.substrate, Slots(ps, c)[c.substrate]);
    }
  }

  lemma SettleNothing()
    ensures Settle([]) == None
  {
  }
}
