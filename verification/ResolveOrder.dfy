/** When the slots depend on the order of the images: which image leads an attribute, and what
two leading images can make of the gate. */
module ResolveOrder {
  import opened Wrappers
  import opened Decode
  import opened Resolve
  import opened ResolveLaws

  /** What one image says of an attribute. */
  function Says(p: Perception, a: Str, c: Setup): seq<Sighting> {
    ReadingsOf(p.observations, a, p.truncated, c)
  }

  lemma {:induction false} SeenJoin(ps: seq<Perception>, qs: seq<Perception>, a: Str, c: Setup)
    ensures Seen(ps + qs, a, c) == Seen(ps, a, c) + Seen(qs, a, c)
  {
    hide ReadingsOf;
    if qs == [] {
      assert ps + qs == ps;
    } else {
      assert (ps + qs)[..|ps + qs| - 1] == ps + qs[..|qs| - 1];
      SeenJoin(ps, qs[..|qs| - 1], a, c);
    }
  }

  lemma SeenAlone(p: Perception, a: Str, c: Setup)
    ensures Seen([p], a, c) == Says(p, a, c)
  {
    hide ReadingsOf;
    assert [p][..0] == [];
  }

  lemma {:induction false} BestJoin(rs: seq<Sighting>, ss: seq<Sighting>)
    requires rs != [] && ss != []
    ensures Best(rs + ss) ==
            if Best(ss).observation.confidence > Best(rs).observation.confidence then Best(ss) else Best(rs)
  {
    assert (rs + ss)[..|rs + ss| - 1] == rs + ss[..|ss| - 1];
    if |ss| == 1 {
      assert rs + ss[..0] == rs;
    } else {
      BestJoin(rs, ss[..|ss| - 1]);
    }
  }

  lemma {:induction false} SaysIsSeen(ps: seq<Perception>, j: nat, a: Str, c: Setup)
    requires j < |ps|
    ensures forall r :: r in Says(ps[j], a, c) ==> r in Seen(ps, a, c)
  {
    hide ReadingsOf;
    if j < |ps| - 1 {
      SaysIsSeen(ps[..|ps| - 1], j, a, c);
    }
  }

  /** One of the image's readings is as confident as any at all. */
  predicate Leads(p: Perception, a: Str, top: real, c: Setup) {
    Says(p, a, c) != [] && Best(Says(p, a, c)).observation.confidence == top
  }

  /** The conclusion is the one of the first image that leads. */
  lemma {:induction false} FirstLeader(ps: seq<Perception>, a: Str, c: Setup) returns (i: nat)
    requires Seen(ps, a, c) != []
    ensures var best := Best(Seen(ps, a, c));
            && i < |ps| && Leads(ps[i], a, best.observation.confidence, c) && Best(Says(ps[i], a, c)) == best
            && forall j :: 0 <= j < i ==> !Leads(ps[j], a, best.observation.confidence, c)
  {
    hide ReadingsOf, Seen, Says, Best;
    var front, last := ps[..|ps| - 1], ps[|ps| - 1] by { SeenNothing(ps, a, c); }
    SeenLast(ps, a, c);
    assert forall j :: 0 <= j < |front| ==> front[j] == ps[j];
    assert Seen(front, a, c) + [] == Seen(front, a, c);
    if Says(last, a, c) == [] {
      i := FirstLeader(front, a, c);
    } else if Seen(front, a, c) == [] {
      i := |ps| - 1;
      forall j | 0 <= j < i
        ensures Says(ps[j], a, c) == []
      {
        SaysIsSeen(front, j, a, c);
        NoMembers(Says(ps[j], a, c));
      }
      assert Seen(ps, a, c) == Says(last, a, c);
    } else {
      BestJoin(Seen(front, a, c), Says(last, a, c));
      if Best(Says(last, a, c)).observation.confidence > Best(Seen(front, a, c)).observation.confidence {
        i := |ps| - 1;
        forall j | 0 <= j < i && Says(ps[j], a, c) != []
          ensures Best(Says(ps[j], a, c)).observation.confidence <= Best(Seen(front, a, c)).observation.confidence
        {
          SaysIsSeen(front, j, a, c);
          BestMember(Says(ps[j], a, c), Seen(front, a, c));
        }
      } else {
        i := FirstLeader(front, a, c);
      }
    }
  }

  lemma SeenNothing(ps: seq<Perception>, a: Str, c: Setup)
    ensures Seen(ps, a, c) != [] ==> ps != []
  {
  }

  lemma SeenLast(ps: seq<Perception>, a: Str, c: Setup)
    requires ps != []
    ensures Seen(ps, a, c) == Seen(ps[..|ps| - 1], a, c) + Says(ps[|ps| - 1], a, c)
  {
    hide ReadingsOf;
  }

  lemma NoMembers<T(!new)>(s: seq<T>)
    ensures (forall x :: x !in s) ==> s == []
  {
    assert s != [] ==> s[0] in s;
  }

  lemma BestMember(rs: seq<Sighting>, ss: seq<Sighting>)
    requires rs != [] && forall r :: r in rs ==> r in ss
    ensures ss != [] && Best(rs).observation.confidence <= Best(ss).observation.confidence
  {
    assert Best(rs) in ss;
  }

  /** Two images put in front: the first of them that leads decides. */
  lemma PairDecides(p: Perception, q: Perception, ps: seq<Perception>, a: Str, c: Setup)
    requires p in ps && q in ps && Seen(ps, a, c) != []
    ensures var top := Best(Seen(ps, a, c)).observation.confidence;
            && Seen([p, q] + ps, a, c) != []
            && Best(Seen([p, q] + ps, a, c)) ==
               if Leads(p, a, top, c) then Best(Says(p, a, c))
               else if Leads(q, a, top, c) then Best(Says(q, a, c))
               else Best(Seen(ps, a, c))
  {
    hide Seen, Says;
    assert [p, q] + ps == [p] + ([q] + ps);
    SeenJoin([p], [q] + ps, a, c);
    SeenJoin([q], ps, a, c);
    SeenAlone(p, a, c);
    SeenAlone(q, a, c);
    OneInFront(Says(q, a, c), Seen(ps, a, c)) by { InSeen(ps, q, a, c); }
    OneInFront(Says(p, a, c), Seen([q] + ps, a, c)) by {
      InSeen(ps, p, a, c);
    }
  }

  lemma InSeen(ps: seq<Perception>, p: Perception, a: Str, c: Setup)
    requires p in ps
    ensures forall r :: r in Says(p, a, c) ==> r in Seen(ps, a, c)
  {
    hide Seen, Says;
    var j :| 0 <= j < |ps| && ps[j] == p;
    SaysIsSeen(ps, j, a, c);
  }

  /** Readings put in front of others that include them win exactly if they have the top. */
  lemma OneInFront(rs: seq<Sighting>, ss: seq<Sighting>)
    requires ss != [] && forall r :: r in rs ==> r in ss
    ensures rs + ss != [] && Best(rs + ss).observation.confidence == Best(ss).observation.confidence
    ensures Best(rs + ss) ==
            if rs != [] && Best(rs).observation.confidence == Best(ss).observation.confidence then Best(rs) else Best(ss)
  {
    if rs == [] {
      assert rs + ss == ss;
    } else {
      BestMember(rs, ss);
      BestJoin(rs, ss);
    }
  }

  // ---------------------------------------------------- every order, by pairs

  /** What the gate reads of an attribute in any order, it reads with the two images in front that
  lead first, in their order. */
  lemma PairReaches(ps: seq<Perception>, qs: seq<Perception>, lo: nat, hi: nat, i: nat, a: Str, c: Setup)
    requires SameMembers(ps, qs) && lo <= hi < |qs| && (i == lo || i == hi)
    requires Seen(qs, a, c) != [] ==>
               var best := Best(Seen(qs, a, c));
               && Leads(qs[i], a, best.observation.confidence, c) && Best(Says(qs[i], a, c)) == best
               && forall j :: 0 <= j < i ==> !Leads(qs[j], a, best.observation.confidence, c)
    ensures SameForGate(Settle(Seen(qs, a, c)), Settle(Seen([qs[lo], qs[hi]] + ps, a, c)))
  {
    hide Seen, Says, Settle, Accepted, SameForGate, Leads;
    var p, q := qs[lo], qs[hi];
    assert p in qs && q in qs;
    assert SameMembers(qs, [p, q] + ps);
    SameSightings(qs, [p, q] + ps, a, c);
    SameSightings(qs, ps, a, c);
    if Seen(qs, a, c) != [] {
      SomeMember(Seen(qs, a, c), Seen(ps, a, c));
      BestSame(Seen(qs, a, c), Seen(ps, a, c));
      PairDecides(p, q, ps, a, c);
    }
    SettleByBest(Seen(qs, a, c), Seen([p, q] + ps, a, c));
  }

  lemma LeaderOrAny(qs: seq<Perception>, a: Str, c: Setup) returns (i: nat)
    requires qs != []
    ensures i < |qs|
    ensures Seen(qs, a, c) != [] ==>
              var best := Best(Seen(qs, a, c));
              && Leads(qs[i], a, best.observation.confidence, c) && Best(Says(qs[i], a, c)) == best
              && forall j :: 0 <= j < i ==> !Leads(qs[j], a, best.observation.confidence, c)
  {
    hide Seen, Says, Leads;
    i := 0;
    if Seen(qs, a, c) != [] {
      i := FirstLeader(qs, a, c);
    }
  }

  lemma OrderIsPair(ps: seq<Perception>, qs: seq<Perception>, c: Setup) returns (p: Perception, q: Perception)
    requires SameMembers(ps, qs) && qs != []
    ensures p in ps && q in ps && Gate(qs, c) == Gate([p, q] + ps, c)
  {
    hide Seen, Says, Settle, SameForGate, Leads, Gate;
    var f := LeaderOrAny(qs, c.finish, c);
    var g := LeaderOrAny(qs, c.masonry, c);
    var lo, hi := if f <= g then f else g, if f <= g then g else f;
    p, q := qs[lo], qs[hi];
    assert p in qs && q in qs;
    PairReaches(ps, qs, lo, hi, f, c.finish, c);
    PairReaches(ps, qs, lo, hi, g, c.masonry, c);
    GateFrom(qs, [p, q] + ps, c);
  }

  /** No two images, put in front, change what the gate says. */
  ghost predicate PairsAgree(ps: seq<Perception>, c: Setup) {
    forall p, q :: p in ps && q in ps ==> Gate([p, q] + ps, c) == Gate(ps, c)
  }

  /** The slots are the same in every order of the images exactly when there is no substrate for
  the gate to hold back, or no two of the images, put in front, change the gate. */
  lemma SlotsIgnoreOrderExactly(ps: seq<Perception>, c: Setup)
    ensures (forall qs :: SameMembers(ps, qs) ==> Slots(qs, c) == Slots(ps, c))
            <==> (!Fillable(ps, c) || PairsAgree(ps, c))
  {
    hide Slots, Fillable, Gate;
    if !Fillable(ps, c) || PairsAgree(ps, c) {
      forall qs | SameMembers(ps, qs)
        ensures Slots(qs, c) == Slots(ps, c)
      {
        GateDecides(ps, qs, c);
        if qs == [] {
          NoMembers(ps);
        } else {
          var p, q := OrderIsPair(ps, qs, c);
        }
      }
    } else {
      var p, q :| p in ps && q in ps && Gate([p, q] + ps, c) != Gate(ps, c);
      assert SameMembers(ps, [p, q] + ps);
      GateDecides(ps, [p, q] + ps, c);
    }
  }

  // ------------------------------------------------- the same on the readings

  /** What the first of two images that leads says of an attribute; what the first image of all that
  leads says, if neither does; nothing, if there is no reading. */
  function LeadValue(p: Perception, q: Perception, ps: seq<Perception>, a: Str, c: Setup): Str {
    if Seen(ps, a, c) == [] then []
    else
      var best := Best(Seen(ps, a, c));
      var top := best.observation.confidence;
      if Leads(p, a, top, c) then Best(Says(p, a, c)).value
      else if Leads(q, a, top, c) then Best(Says(q, a, c)).value
      else best.value
  }

  function OwnValue(ps: seq<Perception>, a: Str, c: Setup): Str {
    if Seen(ps, a, c) == [] then [] else Best(Seen(ps, a, c)).value
  }

  /** A conclusion whose value is what the leading image says, unless readings were accepted. */
  function Led(rs: seq<Sighting>, value: Str): Option<Resolved> {
    var r := Settle(rs);
    if r.Some? && Accepted(rs) == [] then Some(r.value.(value := value)) else r
  }

  /** The wall is covered: a likely finish that is not bare, and no exposed masonry. */
  predicate Covered(finish: Option<Resolved>, masonry: Option<Resolved>, c: Setup) {
    && c.finish in c.known && finish.Some? && finish.value.value != [] && finish.value.value != c.bare
    && CertaintyOf(finish.value) in {Observed, Likely}
    && !(c.masonry in c.known && masonry.Some? && masonry.value.value in c.exposed)
  }

  /** What the gate says if the leading images say these values of the finish and the masonry. */
  predicate Verdict(ps: seq<Perception>, finish: Str, masonry: Str, c: Setup) {
    Covered(Led(Seen(ps, c.finish, c), finish), Led(Seen(ps, c.masonry, c), masonry), c)
  }

  lemma GateIsCovered(ps: seq<Perception>, c: Setup)
    ensures Gate(ps, c) == Covered(Settle(Seen(ps, c.finish, c)), Settle(Seen(ps, c.masonry, c)), c)
  {
    hide Seen, Settle, CertaintyOf;
  }

  lemma CoveredSame(f: Option<Resolved>, m: Option<Resolved>, f2: Option<Resolved>, m2: Option<Resolved>, c: Setup)
    requires SameForGate(f, f2) && SameForGate(m, m2)
    ensures Covered(f, m, c) == Covered(f2, m2, c)
  {
    hide CertaintyOf;
  }

  /** An attribute's conclusion with two images in front is the one they lead to. */
  lemma LedByPair(p: Perception, q: Perception, ps: seq<Perception>, a: Str, c: Setup)
    requires p in ps && q in ps
    ensures SameForGate(Settle(Seen([p, q] + ps, a, c)), Led(Seen(ps, a, c), LeadValue(p, q, ps, a, c)))
  {
    hide Seen, Says, Accepted, CertaintyOf, Leads;
    var rs, ss := Seen([p, q] + ps, a, c), Seen(ps, a, c);
    assert SameMembers([p, q] + ps, ps);
    SameSightings([p, q] + ps, ps, a, c);
    if ss == [] {
      if rs != [] {
        SomeMember(rs, ss);
      }
    } else {
      PairDecides(p, q, ps, a, c);
      BestSame(rs, ss);
      if Accepted(ss) != [] {
        SomeMember(Accepted(ss), Accepted(rs));
        SettleByAccepted(rs, ss);
      } else if Accepted(rs) != [] {
        SomeMember(Accepted(rs), Accepted(ss));
      } else {
        SettleLed(rs, ss);
      }
    }
  }

  lemma SettleLed(rs: seq<Sighting>, ss: seq<Sighting>)
    requires rs != [] && ss != [] && Accepted(rs) == Accepted(ss) == []
    requires Best(rs).observation.confidence == Best(ss).observation.confidence
    ensures SameForGate(Settle(rs), Led(ss, Best(rs).value))
  {
    hide Accepted;
  }

  lemma LedByOwn(ps: seq<Perception>, a: Str, c: Setup)
    ensures Led(Seen(ps, a, c), OwnValue(ps, a, c)) == Settle(Seen(ps, a, c))
  {
    hide Seen;
  }

  /** Whichever two images come first, what the leading ones say of the finish and the masonry gives
  the verdict that is given now. */
  predicate LeadersAgree(ps: seq<Perception>, c: Setup) {
    forall i, j :: 0 <= i < |ps| && 0 <= j < |ps| ==>
      Verdict(ps, LeadValue(ps[i], ps[j], ps, c.finish, c), LeadValue(ps[i], ps[j], ps, c.masonry, c), c)
      == Verdict(ps, OwnValue(ps, c.finish, c), OwnValue(ps, c.masonry, c), c)
  }

  lemma VerdictIsGate(p: Perception, q: Perception, ps: seq<Perception>, c: Setup)
    requires p in ps && q in ps
    ensures Verdict(ps, LeadValue(p, q, ps, c.finish, c), LeadValue(p, q, ps, c.masonry, c), c) == Gate([p, q] + ps, c)
  {
    hide Seen, Settle, Led, LeadValue, Covered, SameForGate, Gate;
    LedByPair(p, q, ps, c.finish, c);
    LedByPair(p, q, ps, c.masonry, c);
    GateIsCovered([p, q] + ps, c);
    CoveredSame(Settle(Seen([p, q] + ps, c.finish, c)), Settle(Seen([p, q] + ps, c.masonry, c)),
                Led(Seen(ps, c.finish, c), LeadValue(p, q, ps, c.finish, c)),
                Led(Seen(ps, c.masonry, c), LeadValue(p, q, ps, c.masonry, c)), c);
  }

  lemma OwnVerdict(ps: seq<Perception>, c: Setup)
    ensures Verdict(ps, OwnValue(ps, c.finish, c), OwnValue(ps, c.masonry, c), c) == Gate(ps, c)
  {
    hide Seen, Settle, Led, OwnValue, Covered, Gate;
    LedByOwn(ps, c.finish, c);
    LedByOwn(ps, c.masonry, c);
    GateIsCovered(ps, c);
  }

  lemma PairsAreLeaders(ps: seq<Perception>, c: Setup)
    ensures PairsAgree(ps, c) <==> LeadersAgree(ps, c)
  {
    hide Verdict, LeadValue, OwnValue, Gate;
    OwnVerdict(ps, c);
    forall p, q | p in ps && q in ps
      ensures Verdict(ps, LeadValue(p, q, ps, c.finish, c), LeadValue(p, q, ps, c.masonry, c), c) == Gate([p, q] + ps, c)
    {
      VerdictIsGate(p, q, ps, c);
    }
  }

  /** The same condition read off the readings: no rearranged list is resolved to decide it. */
  lemma SlotsFollowLeaders(ps: seq<Perception>, c: Setup)
    ensures (forall qs :: SameMembers(ps, qs) ==> Slots(qs, c) == Slots(ps, c))
            <==> (!Fillable(ps, c) || LeadersAgree(ps, c))
  {
    hide Slots, Fillable, PairsAgree, LeadersAgree;
    SlotsIgnoreOrderExactly(ps, c);
    PairsAreLeaders(ps, c);
  }

  lemma GateDecides(ps: seq<Perception>, qs: seq<Perception>, c: Setup)
    requires SameMembers(ps, qs)
    ensures Slots(ps, c) == Slots(qs, c) <==> (!Fillable(ps, c) || Gate(ps, c) == Gate(qs, c))
  {
    hide Slots, Fillable, Gate, Seen, Accepted;
    forall a
      ensures ValueSet(Accepted(Seen(ps, a, c))) == ValueSet(Accepted(Seen(qs, a, c)))
    {
      SameSightings(ps, qs, a, c);
    }
    SlotsDifferByGate(ps, qs, c);
  }
}
