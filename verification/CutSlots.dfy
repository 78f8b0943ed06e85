/** What a cut response can do to the slots: it fills none, and only the gate on the substrate
can tell that it was there. */
module CutSlots {
  import opened Wrappers
  import opened JsonText
  import opened Truncation
  import opened Decode
  import opened CutReadings
  import opened Resolve
  import opened ResolveLaws

  /** Nothing of it may be acted on: it was truncated, or nothing was read from it. */
  predicate Powerless(p: Perception) {
    p.truncated || p.observations == []
  }

  lemma {:induction false} AcceptedJoin(rs: seq<Sighting>, ss: seq<Sighting>)
    ensures Accepted(rs + ss) == Accepted(rs) + Accepted(ss)
  {
    hide Acceptable;
    if ss == [] {
      assert rs + ss == rs && Accepted(rs) + [] == Accepted(rs);
    } else {
      assert (rs + ss)[..|rs + ss| - 1] == rs + ss[..|ss| - 1];
      AcceptedJoin(rs, ss[..|ss| - 1]);
    }
  }

  lemma {:induction false} CutReadingsRefused(os: seq<Observation>, a: Str, c: Setup)
    ensures Accepted(ReadingsOf(os, a, true, c)) == []
  {
    hide MatchValue;
    if os != [] {
      CutReadingsRefused(os[..|os| - 1], a, c);
      AcceptedJoin(ReadingsOf(os[..|os| - 1], a, true, c), ReadingOf(os[|os| - 1], a, true, c));
    }
  }

  lemma PowerlessAddsNothing(ps: seq<Perception>, p: Perception, a: Str, c: Setup)
    requires Powerless(p)
    ensures Accepted(Seen(ps + [p], a, c)) == Accepted(Seen(ps, a, c))
  {
    hide Accepted, ReadingOf;
    var more := ReadingsOf(p.observations, a, p.truncated, c);
    SeenPush(ps, p, a, c);
    AcceptedJoin(Seen(ps, a, c), more);
    if p.truncated {
      CutReadingsRefused(p.observations, a, c);
    } else {
      NothingAccepted();
    }
    assert Accepted(Seen(ps, a, c)) + [] == Accepted(Seen(ps, a, c));
  }

  /** One more such perception changes no slot but the substrate, and leaves all slots as they are
  exactly if the gate stays as it is or has no substrate to hold back. */
  lemma PowerlessMovesOnlyTheGate(ps: seq<Perception>, p: Perception, c: Setup)
    requires Powerless(p)
    ensures forall a, v :: a != c.substrate ==> (Fills(Slots(ps + [p], c), a, v) <==> Fills(Slots(ps, c), a, v))
    ensures Slots(ps, c) == Slots(ps + [p], c) <==> (!Fillable(ps, c) || Gate(ps, c) == Gate(ps + [p], c))
  {
    hide Slots, Seen, Settled, CoveredWithoutExposure, Accepted, Fillable, Gate;
    forall a
      ensures ValueSet(Accepted(Seen(ps, a, c))) == ValueSet(Accepted(Seen(ps + [p], a, c)))
    {
      PowerlessAddsNothing(ps, p, a, c);
    }
    SlotsDifferByGate(ps, ps + [p], c);
    forall a, v | a != c.substrate
      ensures Fills(Slots(ps + [p], c), a, v) <==> Fills(Slots(ps, c), a, v)
    {
      SlotFilledWhen(ps, c, a, v);
      SlotFilledWhen(ps + [p], c, a, v);
    }
  }

  /** Cut responses alone fill no slot. */
  lemma {:induction false} PowerlessFillsNothing(ps: seq<Perception>, c: Setup)
    requires forall p :: p in ps ==> Powerless(p)
    ensures Slots(ps, c) == map[]
  {
    hide Slots, Backs;
    if a :| a in Slots(ps, c) {
      SlotsAreBacked(ps, c, a);
      var i: nat, j: nat :| Backs(ps, i, j, a, Slots(ps, c)[a], c);
      BackedIsNotPowerless(ps, i, j, a, Slots(ps, c)[a], c);
    }
  }

  lemma BackedIsNotPowerless(ps: seq<Perception>, i: nat, j: nat, a: Str, v: Str, c: Setup)
    requires Backs(ps, i, j, a, v, c)
    ensures ps[i] in ps && !Powerless(ps[i])
  {
  }

  /** A response cut inside its object, as `_decode` reads it, is such a perception. */
  lemma CutIsPowerless(r: Response, n: nat, image: Str, c: Contract)
    requires GoodResponse(r) && n < |r.lead| + |Print(Tree(r))|
    ensures n <= |TextOf(r)| && Powerless(DecodeBody(TextOf(r)[..n], image, c))
  {
    hide DecodeBody, Emit, Truncation.Kept, Head, Elements, TextOf, Good;
    CutReads(r, n, image, c);
    var m := n - |Head(r)| - 1;
    if m >= 0 {
      PerceivedCut(ArrayValues(r.list)[..Truncation.Kept(r, m)], image, c);
    }
  }

  /** The gate does move: a covered wall fills no substrate, and a truncated glimpse of exposed
  masonry, which itself may fill nothing, lets it through. */
  lemma CutOpensTheGate(c: Setup, render: Str, brick: Str, yes: Str)
    requires c.finish in c.known && c.masonry in c.known && c.substrate in c.known && c.substrate in c.slots
    requires c.finish != c.substrate && c.masonry != c.finish && c.masonry != c.substrate
    requires MatchValue(c.finish, render, c) == Some(render) && render != c.bare
    requires MatchValue(c.substrate, brick, c) == Some(brick)
    requires MatchValue(c.masonry, yes, c) == Some(yes) && yes in c.exposed
    ensures var ps := [Glimpse(c.finish, render, 0.7), Glimpse(c.substrate, brick, 0.9)];
            var cut := Glimpse(c.masonry, yes, 0.7).(truncated := true);
            c.substrate !in Slots(ps, c) && Fills(Slots(ps + [cut], c), c.substrate, brick)
  {
    hide MatchValue, Settle, Seen, Slots, Agreed, Accepted;
    var p, q := Glimpse(c.finish, render, 0.7), Glimpse(c.substrate, brick, 0.9);
    var r := Glimpse(c.masonry, yes, 0.7).(truncated := true);
    var s1 := Sighting(render, p.observations[0], false);
    var s2 := Sighting(brick, q.observations[0], false);
    var s3 := Sighting(yes, r.observations[0], true);
    TwoSeen(p, q, c.finish, c);
    TwoSeen(p, q, c.masonry, c);
    TwoSeen(p, q, c.substrate, c);
    SeenPush([p, q], r, c.finish, c);
    SeenPush([p, q], r, c.masonry, c);
    SeenPush([p, q], r, c.substrate, c);
    OneReading(r.observations, c.finish, true, c);
    OneReading(r.observations, c.masonry, true, c);
    OneReading(r.observations, c.substrate, true, c);
    var ps := [p, q];
    assert Seen(ps, c.finish, c) == [s1] && Seen(ps + [r], c.finish, c) == [s1];
    assert Seen(ps, c.masonry, c) == [] && Seen(ps + [r], c.masonry, c) == [s3];
    assert Seen(ps, c.substrate, c) == [s2] && Seen(ps + [r], c.substrate, c) == [s2];
    SettleOne(s1);
    SettleOne(s3);
    SettleNothing();
    AcceptedAlone(s2);
    SlotFilledWhen(ps + [r], c, c.substrate, brick);
    if c.substrate in Slots(ps, c) {
      SlotFilledWhen(ps, c, c.substrate, Slots(ps, c)[c.substrate]);
    }
  }

  lemma TwoSeen(p: Perception, q: Perception, a: Str, c: Setup)
    requires |p.observations| == |q.observations| == 1
    ensures Seen([p, q], a, c) == ReadingOf(p.observations[0], a, p.truncated, c)
                                + ReadingOf(q.observations[0], a, q.truncated, c)
  {
    hide ReadingOf;
    SeenPush([], p, a, c);
    SeenPush([p], q, a, c);
    assert [] + [p] == [p] && [p] + [q] == [p, q];
    OneReading(p.observations, a, p.truncated, c);
    OneReading(q.observations, a, q.truncated, c);
  }

  lemma SettleOne(r: Sighting)
    requires r.observation.confidence == 0.7
    ensures Settle([r]) == Some(Resolved(r.value, Doubtful, 0.7, Nothing))
  {
    assert [r][..0] == [];
    NothingAccepted();
    assert Accepted([r]) == [];
  }
}
