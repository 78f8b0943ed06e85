/** The ordered decision of assistant/answering/router.py. */
module Router {
  import opened Wrappers

  datatype Hit = Hit(url: string, section: string, content: string)

  type Slots = map<string, string>

  /** The patterns and the vocabulary of the source, as functions of the question and the slots. */
  datatype Vocabulary = Vocabulary(
    detect: string -> Slots,
    terms: string -> seq<string>,
    properties: string -> seq<string>,
    phrase: string -> string,
    wall: (string, Slots) -> (string, seq<string>),
    needsSubstrate: (string, Slots) -> bool,
    locationMatters: (string, Slots) -> bool,
    defers: string -> bool,
    lower: char -> char)

  datatype Route = Refuse | Defer | Diagnosis | AskBack | Extract | Compose

  /** The branches in the order written. */
  datatype Step = S1 | S2 | S3 | S4 | S4s | S5 | S6 | S7 | S7s | S8

  datatype Decision = Decision(path: Route, step: Step, missingTerm: string, askedTerms: seq<string>,
                               sumRefused: bool, perOption: bool, photograph: bool)

  // ------------------------------------------------------------------ terms

  function ReplaceSpaces(s: string, by_: string): string {
    if s == "" then "" else (if s[0] == ' ' then by_ else [s[0]]) + ReplaceSpaces(s[1..], by_)
  }

  function PhraseVariants(phrase: string): seq<string> {
    if ' ' in phrase then [phrase, ReplaceSpaces(phrase, "-"), ReplaceSpaces(phrase, "")] else [phrase]
  }

  /** The property asked about, and the gate words of each property in turn. */
  function AskedByProperty(v: Vocabulary, question: string, slots: Slots): (string, seq<(string, seq<string>)>) {
    var value := if "property_asked" in slots then slots["property_asked"] else "";
    if "calculation" in slots && value == "" then ("coverage", [("coverage", v.terms("coverage"))])
    else if value != "" then
      var asked := if v.properties(question) != [] then v.properties(question) else [value];
      (value, WithTerms(v, Distinct(asked)))
    else
      var phrase := v.phrase(question);
      if phrase == "" then ("", []) else (phrase, [(phrase, PhraseVariants(phrase))])
  }

  function WithTerms(v: Vocabulary, properties: seq<string>): seq<(string, seq<string>)> {
    if properties == [] then [] else [(properties[0], v.terms(properties[0]))] + WithTerms(v, properties[1..])
  }

  function Flatten(byProperty: seq<(string, seq<string>)>): seq<string> {
    if byProperty == [] then [] else byProperty[0].1 + Flatten(byProperty[1..])
  }

  /** `_asked_terms`: the same words in one list. */
  function AskedTerms(v: Vocabulary, question: string, slots: Slots): (string, seq<string>) {
    var (value, byProperty) := AskedByProperty(v, question, slots);
    (value, Distinct(Flatten(byProperty)))
  }

  function Lower(v: Vocabulary, s: string): string {
    seq(|s|, i requires 0 <= i < |s| => v.lower(s[i]))
  }

  /** `" ".join` over the hits' sections and contents. */
  function Blob(hits: seq<Hit>): string {
    if hits == [] then ""
    else if |hits| == 1 then hits[0].section + " " + hits[0].content
    else Blob(hits[..|hits| - 1]) + " " + (hits[|hits| - 1].section + " " + hits[|hits| - 1].content)
  }

  predicate StandsAt(text: string, part: string, i: nat) {
    i + |part| <= |text| && text[i..i + |part|] == part
  }

  predicate Contains(text: string, part: string) {
    exists i :: 0 <= i <= |text| && StandsAt(text, part, i)
  }

  predicate Present(v: Vocabulary, terms: seq<string>, hits: seq<Hit>) {
    exists k :: 0 <= k < |terms| && Contains(Lower(v, Blob(hits)), Lower(v, terms[k]))
  }

  // ------------------------------------------------------------- the routes

  /** What this question says wins over what was carried into it. */
  function Merged(v: Vocabulary, question: string, carried: Slots): Slots {
    carried + v.detect(question)
  }

  function UnsupportedTerms(v: Vocabulary, question: string, hits: seq<Hit>, carried: Slots): seq<string> {
    var (_, terms) := AskedTerms(v, question, Merged(v, question, carried));
    if terms == [] || Present(v, terms, hits) then [] else terms
  }

  predicate SingleDocument(hits: seq<Hit>) {
    |set h | h in hits :: h.url| == 1
  }

  function Routed(v: Vocabulary, question: string, hits: seq<Hit>, above: bool,
                  audiences: seq<string>, carried: Slots): Decision {
    var slots := Merged(v, question, carried);
    var photo := "photograph" in slots;
    if !above || hits == [] then Decision(Refuse, S1, "", [], false, false, photo)
    else if v.defers(hits[0].content) then Decision(Defer, S2, "", [], false, false, photo)
    else if "cause_asked" in slots then Decision(Diagnosis, S3, "", [], false, false, photo)
    else
      var (asked, byProperty) := AskedByProperty(v, question, slots);
      var terms := Distinct(Flatten(byProperty));
      var (wall, wallTerms) := v.wall(question, slots);
      if terms != [] && !Present(v, terms, hits) then Decision(Refuse, S4, asked, [], false, false, photo)
      else if wallTerms != [] && !Present(v, wallTerms, hits) then Decision(Refuse, S4s, wall, [], false, false, photo)
      else if "substrate" !in slots && v.needsSubstrate(question, slots) then
        Decision(AskBack, S5, "", terms, false, false, photo)
      else
        var perOption := "location" !in slots && v.locationMatters(question, slots);
        if "calculation" in slots then Decision(Extract, S6, "", terms, true, perOption, photo)
        else if SingleDocument(hits) && asked != "" then Decision(Extract, S7, "", terms, false, perOption, photo)
        else if "staff" in audiences && "public" !in audiences then Decision(Extract, S7s, "", terms, false, false, photo)
        else Decision(Compose, S8, "", terms, false, perOption, photo)
  }

  function Rank(s: Step): nat {
    match s
    case S1 => 1 case S2 => 2 case S3 => 3 case S4 => 4 case S4s => 5
    case S5 => 6 case S6 => 7 case S7 => 8 case S7s => 9 case S8 => 10
  }

  // ------------------------------------------------------------ main results

  /** Past the first three steps, the terms reported as unsupported before routing are not empty
  exactly when routing refuses for want of them, and otherwise routing carries the gate's words. */
  lemma UnsupportedExactly(v: Vocabulary, question: string, hits: seq<Hit>, above: bool,
                           audiences: seq<string>, carried: Slots)
    requires Rank(Routed(v, question, hits, above, audiences, carried).step) > 3
    ensures UnsupportedTerms(v, question, hits, carried) != []
            <==> Routed(v, question, hits, above, audiences, carried).step == S4
    ensures Rank(Routed(v, question, hits, above, audiences, carried).step) > 5 ==>
              Routed(v, question, hits, above, audiences, carried).askedTerms
              == AskedTerms(v, question, Merged(v, question, carried)).1
    ensures UnsupportedTerms(v, question, hits, carried) != [] ==>
              && Routed(v, question, hits, above, audiences, carried).path == Refuse
              && Routed(v, question, hits, above, audiences, carried).missingTerm
                 == AskedTerms(v, question, Merged(v, question, carried)).0
  {
    hide Present, SingleDocument, AskedByProperty, Distinct, Flatten, Merged;
  }

  lemma {:induction false} BlobGrows(hits: seq<Hit>, more: seq<Hit>)
    requires hits != []
    ensures Blob(hits) <= Blob(hits + more)
  {
    if more == [] {
      assert hits + more == hits;
    } else {
      var front := more[..|more| - 1];
      assert (hits + more)[..|hits + more| - 1] == hits + front;
      BlobGrows(hits, front);
    }
  }

  /** A term that was present stays present. */
  lemma PresentGrows(v: Vocabulary, terms: seq<string>, hits: seq<Hit>, more: seq<Hit>)
    requires hits != [] && Present(v, terms, hits)
    ensures Present(v, terms, hits + more)
  {
    hide Blob;
    BlobGrows(hits, more);
    var k :| 0 <= k < |terms| && Contains(Lower(v, Blob(hits)), Lower(v, terms[k]));
    var text, text2, part := Lower(v, Blob(hits)), Lower(v, Blob(hits + more)), Lower(v, terms[k]);
    assert text <= text2;
    var i :| 0 <= i <= |text| && StandsAt(text, part, i);
    assert StandsAt(text2, part, i);
  }

  lemma SingleShrinks(hits: seq<Hit>, more: seq<Hit>)
    requires hits != [] && SingleDocument(hits + more)
    ensures SingleDocument(hits)
  {
    var few := set h | h in hits :: h.url;
    var all := set h | h in hits + more :: h.url;
    assert few <= all && hits[0].url in few;
    assert |all - {hits[0].url}| == 0;
    assert few - {hits[0].url} == {};
  }

  /** What the order of the branches turns on. */
  datatype Flags = Flags(refused: bool, defers: bool, cause: bool, missing: bool, wallMissing: bool,
                         uncued: bool, sum: bool, single: bool, asked: bool, staff: bool)

  function FlagsOf(v: Vocabulary, question: string, hits: seq<Hit>, above: bool, audiences: seq<string>, carried: Slots): Flags {
    var slots := Merged(v, question, carried);
    var (asked, terms) := AskedTerms(v, question, slots);
    var wallTerms := v.wall(question, slots).1;
    Flags(!above || hits == [], hits != [] && v.defers(hits[0].content), "cause_asked" in slots,
          terms != [] && !Present(v, terms, hits), wallTerms != [] && !Present(v, wallTerms, hits),
          "substrate" !in slots && v.needsSubstrate(question, slots), "calculation" in slots,
          SingleDocument(hits), asked != "", "staff" in audiences && "public" !in audiences)
  }

  /** The first of the branches whose condition holds. */
  function StepOf(f: Flags): Step {
    if f.refused then S1 else if f.defers then S2 else if f.cause then S3
    else if f.missing then S4 else if f.wallMissing then S4s else if f.uncued then S5
    else if f.sum then S6 else if f.single && f.asked then S7 else if f.staff then S7s else S8
  }

  lemma StepIs(v: Vocabulary, question: string, hits: seq<Hit>, above: bool, audiences: seq<string>, carried: Slots)
    ensures Routed(v, question, hits, above, audiences, carried).step
         == StepOf(FlagsOf(v, question, hits, above, audiences, carried))
  {
    hide Present, SingleDocument, AskedByProperty, Distinct, Flatten, Merged;
  }

  /** Losing a missing term or the single document moves the step on, if at all. */
  lemma StepMovesOn(f: Flags, g: Flags)
    requires g == f.(missing := g.missing, wallMissing := g.wallMissing, single := g.single)
    requires (g.missing ==> f.missing) && (g.wallMissing ==> f.wallMissing) && (g.single ==> f.single)
    ensures Rank(StepOf(f)) <= Rank(StepOf(g)) && (StepOf(f) in {S4, S4s, S7} || StepOf(g) == StepOf(f))
  {
  }

  /** The way through to an answer: something was retrieved that neither defers nor is asked for a
  cause, and the evidence states what was asked and the wall. */
  predicate Passes(f: Flags) {
    !f.refused && !f.defers && !f.cause && !f.missing && !f.wallMissing
  }

  /** What the caller gets, by the evidence: refused exactly without evidence or without a word of what
  was asked or of the wall in it; deferred exactly if the first passage defers, and a diagnosis exactly
  if a cause is asked after that; asked back exactly if the substrate is needed and unstated; printed
  exactly if a quantity was asked, one document answers, or only staff listen; composed otherwise. */
  lemma DecisionExactly(v: Vocabulary, question: string, hits: seq<Hit>, above: bool, audiences: seq<string>, carried: Slots)
    ensures var d := Routed(v, question, hits, above, audiences, carried);
            var f := FlagsOf(v, question, hits, above, audiences, carried);
            var printed := f.sum || (f.single && f.asked) || f.staff;
            && (d.path == Refuse <==> f.refused || (!f.defers && !f.cause && (f.missing || f.wallMissing)))
            && (d.path == Defer <==> !f.refused && f.defers)
            && (d.path == Diagnosis <==> !f.refused && !f.defers && f.cause)
            && (d.path == AskBack <==> Passes(f) && f.uncued)
            && (d.path == Extract <==> Passes(f) && !f.uncued && printed)
            && (d.path == Compose <==> Passes(f) && !f.uncued && !printed)
  {
    hide Present, SingleDocument, AskedByProperty, Distinct, Flatten, Merged;
  }

  /** And what it says beside: the missing property or wall at the two gates, the words asked for behind
  them, the refused sum exactly where a quantity is printed, both locations exactly where an unstated
  location matters and passages are printed or composed for the public, and the photograph always. */
  lemma DecisionCarries(v: Vocabulary, question: string, hits: seq<Hit>, above: bool, audiences: seq<string>, carried: Slots)
    ensures var d := Routed(v, question, hits, above, audiences, carried);
            var f := FlagsOf(v, question, hits, above, audiences, carried);
            var slots := Merged(v, question, carried);
            var gated := !f.refused && !f.defers && !f.cause;
            && d.missingTerm == (if gated && f.missing then AskedTerms(v, question, slots).0
                                 else if gated && f.wallMissing then v.wall(question, slots).0 else "")
            && d.askedTerms == (if Passes(f) then AskedTerms(v, question, slots).1 else [])
            && (d.sumRefused <==> Passes(f) && !f.uncued && f.sum)
            && (d.perOption <==> Passes(f) && !f.uncued && (f.sum || (f.single && f.asked) || !f.staff)
                                 && "location" !in slots && v.locationMatters(question, slots))
            && (d.photograph <==> "photograph" in slots)
  {
    hide Present, SingleDocument, AskedByProperty, Distinct, Flatten, Merged;
  }

  // --------------------------------------------------- what was asked for

  lemma {:induction false} FlattenMembers(v: Vocabulary, properties: seq<string>, t: string)
    ensures t in Flatten(WithTerms(v, properties)) <==> exists p :: p in properties && t in v.terms(p)
  {
    if properties != [] {
      FlattenMembers(v, properties[1..], t);
      assert WithTerms(v, properties)[1..] == WithTerms(v, properties[1..]);
      assert properties == [properties[0]] + properties[1..];
    }
  }

  lemma FlattenOne(p: string, words: seq<string>)
    ensures Flatten([(p, words)]) == words && Flatten([]) == []
  {
    assert [(p, words)][1..] == [];
  }

  /** The property that the slots give, none as an empty one. */
  function PropertyAsked(slots: Slots): string {
    if "property_asked" in slots then slots["property_asked"] else ""
  }

  /** A quantity without a property is asked of the coverage; a property by any word of any property that
  the question names; and otherwise the question's own phrase stands for itself. */
  lemma AskedExactly(v: Vocabulary, question: string, slots: Slots, t: string)
    ensures var (asked, terms) := AskedTerms(v, question, slots);
            var property := PropertyAsked(slots);
            if "calculation" in slots && property == "" then asked == "coverage" && (t in terms <==> t in v.terms("coverage"))
            else if property != "" then
              asked == property
              && (t in terms <==> exists p :: (if v.properties(question) == [] then p == property else p in v.properties(question))
                                              && t in v.terms(p))
            else asked == v.phrase(question)
                 && (t in terms <==> asked != "" && t in PhraseVariants(asked))
  {
    hide Flatten, WithTerms, Distinct, PhraseVariants;
    var byProperty := AskedByProperty(v, question, slots).1;
    DistinctMembers(Flatten(byProperty));
    var property := PropertyAsked(slots);
    if property != "" {
      var asked := if v.properties(question) != [] then v.properties(question) else [property];
      DistinctMembers(asked);
      FlattenMembers(v, Distinct(asked), t);
    } else if "calculation" in slots {
      FlattenOne("coverage", v.terms("coverage"));
    } else {
      FlattenOne(v.phrase(question), PhraseVariants(v.phrase(question)));
    }
  }

  lemma ReplaceFirst(c: char, t: string, by_: string)
    ensures ReplaceSpaces([c] + t, by_) == (if c == ' ' then by_ else [c]) + ReplaceSpaces(t, by_)
  {
    assert ([c] + t)[1..] == t;
  }

  lemma {:induction false} Hyphenated(s: string)
    ensures |ReplaceSpaces(s, "-")| == |s|
    ensures forall i :: 0 <= i < |s| ==> ReplaceSpaces(s, "-")[i] == if s[i] == ' ' then '-' else s[i]
  {
    if s != "" {
      hide ReplaceSpaces;
      Hyphenated(s[1..]);
      ReplaceFirst(s[0], s[1..], "-");
      assert s == [s[0]] + s[1..];
    } else {
      assert ReplaceSpaces(s, "-") == "";
    }
  }

  /** The characters of a text but for its blanks, in order. */
  ghost predicate Unspaced(s: string, t: string) {
    if s == "" then t == ""
    else if s[0] == ' ' then Unspaced(s[1..], t)
    else t != "" && t[0] == s[0] && Unspaced(s[1..], t[1..])
  }

  lemma {:induction false} Run(s: string)
    ensures Unspaced(s, ReplaceSpaces(s, ""))
  {
    if s != "" {
      Run(s[1..]);
      var t := ReplaceSpaces(s[1..], "");
      assert s[0] == ' ' ==> "" + t == t;
      assert ([s[0]] + t)[1..] == t;
    }
  }

  /** The spellings of a phrase: as it is, and if it has several words with hyphens or joined. */
  lemma Respelled(phrase: string, t: string)
    ensures t in PhraseVariants(phrase) <==>
              || t == phrase
              || (' ' in phrase && |t| == |phrase|
                  && forall i :: 0 <= i < |phrase| ==> t[i] == if phrase[i] == ' ' then '-' else phrase[i])
              || (' ' in phrase && Unspaced(phrase, t))
  {
    hide ReplaceSpaces, Unspaced;
    Hyphenated(phrase);
    Run(phrase);
    if |t| == |phrase| && forall i :: 0 <= i < |phrase| ==> t[i] == if phrase[i] == ' ' then '-' else phrase[i] {
      assert t == ReplaceSpaces(phrase, "-");
    }
    if Unspaced(phrase, t) {
      UnspacedOnce(phrase, t, ReplaceSpaces(phrase, ""));
    }
  }

  lemma {:induction false} UnspacedOnce(s: string, t: string, u: string)
    requires Unspaced(s, t) && Unspaced(s, u)
    ensures t == u
  {
    if s != "" {
      if s[0] == ' ' {
        UnspacedOnce(s[1..], t, u);
      } else {
        UnspacedOnce(s[1..], t[1..], u[1..]);
        assert t == [t[0]] + t[1..] && u == [u[0]] + u[1..];
      }
    }
  }

  /** With the threshold flag fixed and something retrieved, appending evidence never moves the
  decision to an earlier step, and leaves it where it was except at the two gates and at the
  single-document step. */
  lemma EvidenceNeverMovesBack(v: Vocabulary, question: string, hits: seq<Hit>, more: seq<Hit>,
                               above: bool, audiences: seq<string>, carried: Slots)
    requires hits != []
    ensures var before := Routed(v, question, hits, above, audiences, carried).step;
            var after := Routed(v, question, hits + more, above, audiences, carried).step;
            Rank(before) <= Rank(after) && (before in {S4, S4s, S7} || after == before)
  {
    hide Present, SingleDocument, AskedTerms, Merged, Routed, StepOf, Rank;
    var slots := Merged(v, question, carried);
    var terms := AskedTerms(v, question, slots).1;
    var wallTerms := v.wall(question, slots).1;
    if Present(v, terms, hits) {
      PresentGrows(v, terms, hits, more);
    }
    if Present(v, wallTerms, hits) {
      PresentGrows(v, wallTerms, hits, more);
    }
    if SingleDocument(hits + more) {
      SingleShrinks(hits, more);
    }
    StepIs(v, question, hits, above, audiences, carried);
    StepIs(v, question, hits + more, above, audiences, carried);
    StepMovesOn(FlagsOf(v, question, hits, above, audiences, carried),
                FlagsOf(v, question, hits + more, above, audiences, carried));
  }

  // ----------------------------------------------- what was said before

  /** What is carried into a question counts only where the question itself says nothing. */
  lemma QuestionOverrides(v: Vocabulary, question: string, hits: seq<Hit>, above: bool,
                          audiences: seq<string>, carried: Slots, other: Slots)
    requires carried - v.detect(question).Keys == other - v.detect(question).Keys
    ensures Routed(v, question, hits, above, audiences, carried) == Routed(v, question, hits, above, audiences, other)
    ensures UnsupportedTerms(v, question, hits, carried) == UnsupportedTerms(v, question, hits, other)
  {
    hide Merged, Present, SingleDocument, AskedByProperty, Distinct, Flatten;
    MergedSame(v, question, carried, other);
  }

  lemma MergedSame(v: Vocabulary, question: string, carried: Slots, other: Slots)
    requires carried - v.detect(question).Keys == other - v.detect(question).Keys
    ensures Merged(v, question, carried) == Merged(v, question, other)
  {
    var kept := carried - v.detect(question).Keys;
    assert Merged(v, question, carried) == kept + v.detect(question);
    assert Merged(v, question, other) == kept + v.detect(question);
  }

  // ------------------------------------------------- what the gate reads

  /** The text of one passage, as the gate reads it. */
  function Passage(h: Hit): string {
    h.section + " " + h.content
  }

  predicate InOnePassage(v: Vocabulary, term: string, hits: seq<Hit>) {
    exists k :: 0 <= k < |hits| && Contains(Lower(v, Passage(hits[k])), Lower(v, term))
  }

  /** Lowering neither makes nor removes a space. */
  ghost predicate SpacesStay(v: Vocabulary) {
    forall c :: v.lower(c) == ' ' <==> c == ' '
  }

  lemma StandsOn(text: string, part: string, i: nat)
    requires StandsAt(text, part, i)
    ensures forall m :: i <= m < i + |part| ==> text[m] in part
  {
    assert forall m :: i <= m < i + |part| ==> text[m] == part[m - i];
  }

  lemma StandsBehind(text: string, part: string, k: nat, i: nat)
    requires k <= i && k <= |text|
    ensures StandsAt(text, part, i) <==> StandsAt(text[k..], part, i - k)
  {
    assert i + |part| <= |text| ==> text[i..i + |part|] == text[k..][i - k..i - k + |part|];
  }

  lemma StandsInFront(text: string, part: string, k: nat, i: nat)
    requires i + |part| <= k <= |text|
    ensures StandsAt(text, part, i) <==> StandsAt(text[..k], part, i)
  {
    assert text[i..i + |part|] == text[..k][i..i + |part|];
  }

  /** Text without a space is found in two texts set a space apart exactly if it is in one of them. */
  lemma SpaceParts(x: string, y: string, part: string)
    requires ' ' !in part && part != ""
    ensures Contains(x + " " + y, part) <==> Contains(x, part) || Contains(y, part)
  {
    hide StandsAt;
    var text := x + " " + y;
    var k := |x| + 1;
    assert text[..|x|] == x && text[k..] == y && text[|x|] == ' ';
    if Contains(text, part) {
      var i :| 0 <= i <= |text| && StandsAt(text, part, i);
      StandsOn(text, part, i);
      assert !(i <= |x| < i + |part|);
      if i + |part| <= |x| {
        StandsInFront(text, part, |x|, i);
      } else {
        StandsBehind(text, part, k, i);
      }
    }
    if Contains(x, part) {
      var i :| 0 <= i <= |x| && StandsAt(x, part, i);
      StandsFits(x, part, i);
      StandsInFront(text, part, |x|, i);
    }
    if Contains(y, part) {
      var i :| 0 <= i <= |y| && StandsAt(y, part, i);
      StandsBehind(text, part, k, i + k);
    }
  }

  lemma StandsFits(text: string, part: string, i: nat)
    requires StandsAt(text, part, i)
    ensures i + |part| <= |text|
  {
  }

  lemma {:induction false} BlobParts(v: Vocabulary, term: string, hits: seq<Hit>)
    requires SpacesStay(v) && ' ' !in term && term != ""
    ensures Contains(Lower(v, Blob(hits)), Lower(v, term)) <==> InOnePassage(v, term, hits)
  {
    hide Contains, Passage, Lower;
    var part := Lower(v, term);
    LowerKeepsSpaces(v, term);
    if hits == [] {
      NothingInNothing(v, part);
    } else {
      var front, last := hits[..|hits| - 1], hits[|hits| - 1];
      assert Passage(last) == last.section + " " + last.content by { PassageIs(last); }
      if |hits| > 1 {
        BlobParts(v, term, front);
        LowerSpaced(v, Blob(front), Passage(last));
        SpaceParts(Lower(v, Blob(front)), Lower(v, Passage(last)), part);
        assert InOnePassage(v, term, hits) <==>
               InOnePassage(v, term, front) || Contains(Lower(v, Passage(last)), part) by {
          assert hits == front + [last];
        }
      }
    }
  }

  lemma PassageIs(h: Hit)
    ensures Passage(h) == h.section + " " + h.content
  {
  }

  lemma LowerKeepsSpaces(v: Vocabulary, s: string)
    requires SpacesStay(v)
    ensures |Lower(v, s)| == |s| && (' ' in Lower(v, s) <==> ' ' in s)
  {
    forall i | 0 <= i < |s|
      ensures Lower(v, s)[i] == ' ' <==> s[i] == ' '
    {
    }
  }

  lemma LowerSpaced(v: Vocabulary, x: string, y: string)
    requires SpacesStay(v)
    ensures Lower(v, x + " " + y) == Lower(v, x) + " " + Lower(v, y)
  {
    assert v.lower(' ') == ' ';
  }

  lemma NothingInNothing(v: Vocabulary, part: string)
    requires part != ""
    ensures !Contains(Lower(v, Blob([])), part)
  {
  }

  /** Two passages of which neither holds the term, while their join does. */
  lemma StraddlingPair(v: Vocabulary, a: string, b: string)
    requires SpacesStay(v) && a != "" && b != ""
    ensures var hits := [Hit("", "", a), Hit("", b, "")];
            var term := a + " " + b;
            Contains(Lower(v, Blob(hits)), Lower(v, term)) && !InOnePassage(v, term, hits)
  {
    var hits := [Hit("", "", a), Hit("", b, "")];
    assert hits[..1] == [hits[0]];
    assert Blob(hits) == ("" + " " + a) + " " + (b + " " + "");
    assert Blob(hits) == " " + (a + " " + b) + " ";
    assert StandsAt(Lower(v, Blob(hits)), Lower(v, a + " " + b), 1);
  }

  /** The gate finds a term exactly where a single passage states it, for all evidence, if and only
  if the term has no space: otherwise its words may come from the end of one passage and the
  beginning of the next. */
  lemma GateReadsPassages(v: Vocabulary, term: string)
    requires SpacesStay(v) && term != "" && term[0] != ' ' && term[|term| - 1] != ' '
    ensures (forall hits :: Present(v, [term], hits) <==> InOnePassage(v, term, hits)) <==> ' ' !in term
  {
    hide Contains, Lower, InOnePassage, Blob, SpacesStay;
    forall hits
      ensures Present(v, [term], hits) <==> Contains(Lower(v, Blob(hits)), Lower(v, term))
    {
      assert [term][0] == term;
    }
    if ' ' in term {
      var i :| 0 < i < |term| - 1 && term[i] == ' ';
      assert term == term[..i] + " " + term[i + 1..];
      StraddlingPair(v, term[..i], term[i + 1..]);
    } else {
      forall hits
        ensures Present(v, [term], hits) <==> InOnePassage(v, term, hits)
      {
        BlobParts(v, term, hits);
      }
    }
  }
}
