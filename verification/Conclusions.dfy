/** What `resolve` returns of each attribute, behind the gate and after honouring what the model declined. */
module Conclusions {
  import opened Wrappers
  import opened Decode
  import opened Resolve
  import opened ResolveLaws

  /** Some perception lists the attribute among what cannot be determined. */
  ghost predicate DeclinedBy(ps: seq<Perception>, a: Str, c: Setup) {
    exists p, item :: p in ps && item in p.cannot && c.names(a, item)
  }

  lemma NamedWhen(ps: seq<Perception>, a: Str, c: Setup)
    ensures NamedIn(a, ps, c) <==> DeclinedBy(ps, a, c)
  {
    if NamedIn(a, ps, c) {
      var i :| 0 <= i < |ps| && exists j :: 0 <= j < |ps[i].cannot| && c.names(a, ps[i].cannot[j]);
      var j :| 0 <= j < |ps[i].cannot| && c.names(a, ps[i].cannot[j]);
      assert ps[i] in ps && ps[i].cannot[j] in ps[i].cannot;
    }
    if DeclinedBy(ps, a, c) {
      var p, item :| p in ps && item in p.cannot && c.names(a, item);
      var i :| 0 <= i < |ps| && ps[i] == p;
      var j :| 0 <= j < |p.cannot| && p.cannot[j] == item;
    }
  }

  /** Two readings that may be acted on disagree. */
  ghost predicate Disputed(rs: seq<Sighting>) {
    exists s, t :: s in rs && t in rs && Acceptable(s) && Acceptable(t) && s.value != t.value
  }

  /** The attribute may be acted on: its accepted readings agree, and the gate is not in the way. */
  ghost predicate Usable(ps: seq<Perception>, a: Str, c: Setup) {
    (exists v :: Agreed(Seen(ps, a, c), v)) && !(a == c.substrate && Gate(ps, c))
  }

  lemma UsableWhen(ps: seq<Perception>, a: Str, c: Setup)
    requires a in c.known && Seen(ps, a, c) != []
    ensures var r := Settle(Seen(ps, a, c));
            r.Some? && (Usable(ps, a, c) <==> r.value.status == Confirmed && !(a == c.substrate && Gate(ps, c)))
    ensures var r := Settle(Seen(ps, a, c)); r.value.status == Confirmed ==> r.value.withheld == Nothing
  {
    hide Seen, Settle, Gate, Agreed;
    var rs := Seen(ps, a, c);
    SettleConcludes(rs);
    SettleConfirms(rs);
    if v :| Agreed(rs, v) {
      AgreedOnce(rs, v);
    }
  }

  /** Every conclusion that `resolve` returns: an attribute has one exactly if it is known and was read.
  If it may not be acted on and the model declined it, it is unsettled and says so; otherwise it is
  what its readings settle, withheld as covered if it is the substrate behind the closed gate.  The
  value and the confidence are those of the readings in any case. */
  lemma ConclusionIs(ps: seq<Perception>, c: Setup, a: Str)
    ensures a in Attributes(ps, c) <==> a in c.known && Seen(ps, a, c) != []
    ensures a in Attributes(ps, c) ==>
              var r := Attributes(ps, c)[a];
              var read := Settle(Seen(ps, a, c));
              && read.Some? && r.value == read.value.value && r.confidence == read.value.confidence
              && (r.status, r.withheld) ==
                   if !Usable(ps, a, c) && DeclinedBy(ps, a, c) then (Unsettled, Declined)
                   else (read.value.status, if a == c.substrate && Gate(ps, c) then Covered else read.value.withheld)
  {
    hide Seen, Settle, NamedIn, Agreed, DeclinedBy, Usable, CoveredWithoutExposure;
    NamedWhen(ps, a, c);
    SettleSome(Seen(ps, a, c));
    if a in c.known && Seen(ps, a, c) != [] {
      UsableWhen(ps, a, c);
    }
  }

  lemma SettleSome(rs: seq<Sighting>)
    ensures Settle(rs).Some? <==> rs != []
  {
    hide Acceptable;
    SettleConcludes(rs);
  }

  /** The confidence that a conclusion carries: the highest of the accepted readings, or of all if
  none was accepted. */
  lemma ConfidenceOf(rs: seq<Sighting>)
    requires rs != []
    ensures Settle(rs).Some?
    ensures var top := Settle(rs).value.confidence;
            var some := exists s :: s in rs && Acceptable(s);
            && (exists s :: s in rs && (Acceptable(s) || !some) && s.observation.confidence == top)
            && (forall s :: s in rs && (Acceptable(s) || !some) ==> s.observation.confidence <= top)
  {
    hide Acceptable;
    SettleSome(rs);
    AcceptedMembers(rs);
    var accepted := Accepted(rs);
    if accepted != [] {
      assert accepted[0] in accepted && Best(accepted) in accepted;
    } else {
      NothingAgreed(rs);
      assert Best(rs) in rs;
    }
  }

  /** How sure the caller is told it is: observed exactly if it may be acted on; else nothing can be
  said if the model declined it, or every reading is below the middle band; a dispute is unclear;
  and what is left is likely from 0.65 on. */
  lemma CertaintyIs(ps: seq<Perception>, c: Setup, a: Str)
    requires a in c.known && Seen(ps, a, c) != []
    ensures a in Attributes(ps, c)
    ensures var rs := Seen(ps, a, c);
            CertaintyOf(Attributes(ps, c)[a]) ==
              if Usable(ps, a, c) then Observed
              else if DeclinedBy(ps, a, c) then CannotDetermine
              else if Disputed(rs) then Unclear
              else if forall s :: s in rs ==> s.observation.confidence < 0.5 then CannotDetermine
              else if Attributes(ps, c)[a].confidence >= 0.65 then Likely else Unclear
  {
    hide Seen, Settle, Agreed, DeclinedBy, Usable, Gate, Acceptable, Attributes;
    ConclusionIs(ps, c, a);
    UsableWhen(ps, a, c);
    SettleConcludes(Seen(ps, a, c));
  }

  /** What is declined and may not be acted on is reported as such, whatever was read of it. */
  lemma DeclinedIsHonoured(ps: seq<Perception>, c: Setup, a: Str)
    requires a in Attributes(ps, c) && DeclinedBy(ps, a, c) && !Usable(ps, a, c)
    ensures var r := Attributes(ps, c)[a];
            r.status == Unsettled && r.withheld == Declined && CertaintyOf(r) == CannotDetermine
  {
    hide Attributes, Seen, Settle, Usable, DeclinedBy;
    ConclusionIs(ps, c, a);
  }
}
