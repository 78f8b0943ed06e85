/** What the chunker makes of sections, names included: which sections are joined, which heading a
passage gets, where a text is cut, and which pieces go into one passage. */
module ChunkerShapes {
  import opened Blanks
  import opened Chunker
  import opened ChunkerLaws

  // -------------------------------------------------------------- headings

  predicate BlankSection(sec: Section) {
    Strip(sec.text) == ""
  }

  /** A section's own name; a nameless one is an introduction. */
  predicate Names(sec: Section, h: string) {
    && (Strip(sec.heading) != "" ==> h == Strip(sec.heading))
    && (Strip(sec.heading) == "" ==> h == "Introduction")
  }

  /** Both names while they fit, else a beginning of the first and an ellipsis. */
  ghost predicate Merges(first: string, second: string, h: string) {
    if |first + " / " + second| <= 70 then h == first + " / " + second
    else |h| <= 72 && exists p :: p <= first && h == p + ELLIPSIS && (|first| <= 70 ==> p == first)
  }

  lemma MergeMerges(first: string, second: string)
    requires first != ""
    ensures Merges(first, second, MergeHeadings(first, second))
  {
    if |first + " / " + second| > 70 {
      MergedHeading(first, second);
      if |first| <= 70 {
        assert MergeHeadings(first, second) == first + ELLIPSIS;
      } else {
        var front := first[..MAX_HEADING];
        var clipped := BeforeLastSpace(front);
        var p := TrimTail(if clipped != "" then clipped else front);
        assert p <= first && MergeHeadings(first, second) == p + ELLIPSIS;
      }
    }
  }

  /** The heading of sections `i` to `j` joined; blank ones in between do not count. */
  ghost predicate HeadingFrom(sections: seq<Section>, i: nat, j: nat, h: string)
    requires i <= j < |sections|
    decreases j - i
  {
    if i == j then Names(sections[j], h)
    else if BlankSection(sections[j]) then HeadingFrom(sections, i, j - 1, h)
    else exists g, n :: HeadingFrom(sections, i, j - 1, g) && Names(sections[j], n) && Merges(g, n, h)
  }

  /** Their text, each section on lines of its own. */
  function TextFrom(sections: seq<Section>, i: nat, j: nat): string
    requires i <= j < |sections|
    decreases j - i
  {
    if i == j then Strip(sections[j].text)
    else if BlankSection(sections[j]) then TextFrom(sections, i, j - 1)
    else TextFrom(sections, i, j - 1) + "\n" + Strip(sections[j].text)
  }

  /** Nothing was carried into section `i`, and what it began was too short up to section `j`. */
  ghost predicate JoinedSince(sections: seq<Section>, i: nat, j: nat, bullets: BulletFinder)
    requires GoodFinder(bullets)
  {
    && i <= j < |sections| && !BlankSection(sections[i])
    && Process(sections[..i], bullets).carryText == ""
    && forall k :: i <= k < j ==> |TextFrom(sections, i, k)| < MIN_CHARS
  }

  lemma {:induction false} HeadingPrefix(sections: seq<Section>, n: nat, i: nat, j: nat, h: string)
    requires i <= j < n <= |sections|
    ensures HeadingFrom(sections[..n], i, j, h) <==> HeadingFrom(sections, i, j, h)
    decreases j - i
  {
    hide Names, Merges, BlankSection;
    if i < j {
      var m := j - 1;
      forall g
        ensures HeadingFrom(sections[..n], i, m, g) <==> HeadingFrom(sections, i, m, g)
      {
        HeadingPrefix(sections, n, i, m, g);
      }
    }
  }

  lemma {:induction false} TextPrefix(sections: seq<Section>, n: nat, i: nat, j: nat)
    requires i <= j < n <= |sections|
    ensures TextFrom(sections[..n], i, j) == TextFrom(sections, i, j)
    decreases j - i
  {
    hide BlankSection;
    if i < j {
      TextPrefix(sections, n, i, j - 1);
    }
  }

  lemma JoinedPrefix(sections: seq<Section>, n: nat, i: nat, j: nat, bullets: BulletFinder)
    requires GoodFinder(bullets) && n <= |sections| && JoinedSince(sections[..n], i, j, bullets)
    ensures JoinedSince(sections, i, j, bullets)
  {
    hide Process, TextFrom, BlankSection;
    assert sections[..n][..i] == sections[..i];
    forall k | i <= k < j
      ensures TextFrom(sections[..n], i, k) == TextFrom(sections, i, k)
    {
      TextPrefix(sections, n, i, k);
    }
  }

  /** What is carried behind the sections is what some of the last ones make together. */
  ghost predicate CarryIs(sections: seq<Section>, i: nat, bullets: BulletFinder)
    requires GoodFinder(bullets)
  {
    var st := Process(sections, bullets);
    && i < |sections| && JoinedSince(sections, i, |sections| - 1, bullets)
    && HeadingFrom(sections, i, |sections| - 1, st.carryHeading) && st.carryHeading != ""
    && st.carryText == TextFrom(sections, i, |sections| - 1) && |st.carryText| < MIN_CHARS
  }

  /** What section `j` is chunked as: the sections since `i`, under their merged heading. */
  ghost predicate JoinIs(sections: seq<Section>, i: nat, j: nat, bullets: BulletFinder)
    requires GoodFinder(bullets)
  {
    && JoinedSince(sections, i, j, bullets)
    && var p := Joined(Process(sections[..j], bullets), sections[j]);
    HeadingFrom(sections, i, j, p.heading) && p.heading != "" && p.text == TextFrom(sections, i, j)
  }

  lemma OwnName(sec: Section)
    ensures Names(sec, HeadingOf(sec)) && HeadingOf(sec) != ""
  {
    hide Strip;
  }

  lemma NamesOnce(sec: Section, g: string, h: string)
    requires Names(sec, g) && Names(sec, h)
    ensures g == h
  {
    hide Strip;
  }

  lemma MergedSome(first: string, second: string)
    requires first != ""
    ensures MergeHeadings(first, second) != ""
  {
  }

  lemma JoinFromCarry(sections: seq<Section>, i: nat, j: nat, bullets: BulletFinder)
    requires GoodFinder(bullets) && j < |sections| && !BlankSection(sections[j])
    requires Process(sections[..j], bullets).carryText != "" && CarryIs(sections[..j], i, bullets)
    ensures JoinIs(sections, i, j, bullets)
  {
    hide Process, Names, Merges, MergeHeadings, HeadingOf, GoodFinder;
    var st := Process(sections[..j], bullets);
    JoinedPrefix(sections, j, i, j - 1, bullets);
    HeadingPrefix(sections, j, i, j - 1, st.carryHeading);
    TextPrefix(sections, j, i, j - 1);
    OwnName(sections[j]);
    MergeMerges(st.carryHeading, HeadingOf(sections[j]));
    MergedSome(st.carryHeading, HeadingOf(sections[j]));
    assert HeadingFrom(sections, i, j, MergeHeadings(st.carryHeading, HeadingOf(sections[j])));
  }

  lemma JoinAlone(sections: seq<Section>, j: nat, bullets: BulletFinder)
    requires GoodFinder(bullets) && j < |sections| && !BlankSection(sections[j])
    requires Process(sections[..j], bullets).carryText == ""
    ensures JoinIs(sections, j, j, bullets)
  {
    hide Process, Names, HeadingOf, GoodFinder;
    OwnName(sections[j]);
  }

  lemma CarriedIsJoined(sections: seq<Section>, bullets: BulletFinder)
    requires GoodFinder(bullets) && sections != [] && Process(sections, bullets).carryText != ""
    requires !BlankSection(sections[|sections| - 1])
    ensures var n := |sections| - 1;
            var p := Joined(Process(sections[..n], bullets), sections[n]);
            var st := Process(sections, bullets);
            st.carryHeading == p.heading && st.carryText == p.text && |st.carryText| < MIN_CHARS
  {
    hide Emit, Joined, GoodFinder, Strip;
  }

  lemma CarryFromJoin(sections: seq<Section>, i: nat, bullets: BulletFinder)
    requires GoodFinder(bullets) && sections != [] && !BlankSection(sections[|sections| - 1])
    requires JoinIs(sections, i, |sections| - 1, bullets) && Process(sections, bullets).carryText != ""
    ensures CarryIs(sections, i, bullets)
  {
    hide HeadingFrom, TextFrom, JoinedSince, GoodFinder, Process, Joined, BlankSection;
    CarriedIsJoined(sections, bullets);
    assert JoinedSince(sections, i, |sections| - 1, bullets);
    JoinedBefore(sections, i, |sections| - 1, bullets);
  }

  lemma JoinedBefore(sections: seq<Section>, i: nat, j: nat, bullets: BulletFinder)
    requires GoodFinder(bullets) && JoinedSince(sections, i, j, bullets)
    ensures i <= j < |sections|
  {
  }

  lemma SameOverBlank(sections: seq<Section>, bullets: BulletFinder)
    requires GoodFinder(bullets) && sections != [] && BlankSection(sections[|sections| - 1])
    ensures Process(sections, bullets) == Process(sections[..|sections| - 1], bullets)
  {
    hide Emit, Joined, GoodFinder;
  }

  lemma CarryOverBlank(sections: seq<Section>, i: nat, bullets: BulletFinder)
    requires GoodFinder(bullets) && sections != [] && BlankSection(sections[|sections| - 1])
    requires CarryIs(sections[..|sections| - 1], i, bullets)
    ensures CarryIs(sections, i, bullets)
  {
    hide Names, MergeHeadings, HeadingOf, Merges, GoodFinder, Emit, Joined, Process, Strip;
    SameOverBlank(sections, bullets);
    var n := |sections| - 1;
    JoinedPrefix(sections, n, i, n - 1, bullets);
    HeadingPrefix(sections, n, i, n - 1, Process(sections, bullets).carryHeading);
    TextPrefix(sections, n, i, n - 1);
  }

  lemma {:induction false} CarryKnown(sections: seq<Section>, bullets: BulletFinder)
    requires GoodFinder(bullets)
    ensures Process(sections, bullets).carryText != "" ==> exists i: nat :: CarryIs(sections, i, bullets)
    decreases |sections|, 0
  {
    hide CarryIs, JoinIs, GoodFinder, Emit, Joined;
    if sections != [] && Process(sections, bullets).carryText != "" {
      var n := |sections| - 1;
      if BlankSection(sections[n]) {
        CarryKnown(sections[..n], bullets);
        var i: nat :| CarryIs(sections[..n], i, bullets);
        CarryOverBlank(sections, i, bullets);
      } else {
        var i := JoinKnown(sections, n, bullets);
        CarryFromJoin(sections, i, bullets);
      }
    }
  }

  lemma {:induction false} JoinKnown(sections: seq<Section>, j: nat, bullets: BulletFinder) returns (i: nat)
    requires GoodFinder(bullets) && j < |sections| && !BlankSection(sections[j])
    ensures JoinIs(sections, i, j, bullets)
    decreases j, 1
  {
    hide CarryIs, JoinIs, GoodFinder, Process, BlankSection;
    i := j;
    if Process(sections[..j], bullets).carryText == "" {
      JoinAlone(sections, j, bullets);
    } else {
      CarryKnown(sections[..j], bullets);
      i :| CarryIs(sections[..j], i, bullets);
      JoinFromCarry(sections, i, j, bullets);
    }
  }

  /** Every passage that section `j` was cut into is headed as the sections joined into it are: by that
  section's own name if nothing was carried into it. */
  lemma PassageHeading(sections: seq<Section>, j: nat, p: Passage, bullets: BulletFinder)
    requires GoodFinder(bullets) && MadeFrom(sections, j, p, bullets)
    ensures j < |sections|
    ensures exists i: nat :: JoinedSince(sections, i, j, bullets) && HeadingFrom(sections, i, j, p.heading)
                             && TextAt(sections, j, bullets) == TextFrom(sections, i, j)
    ensures Process(sections[..j], bullets).carryText == "" ==> Names(sections[j], p.heading)
  {
    hide Process, Names, HeadingOf, HeadingFrom, TextFrom, JoinedSince, Strip, MergeHeadings, Emit;
    var joined := Joined(Process(sections[..j], bullets), sections[j]);
    EmitHeads(joined.heading, joined.text, bullets);
    assert !BlankSection(sections[j]);
    var i := JoinKnown(sections, j, bullets);
    OwnName(sections[j]);
  }

  lemma EmitHeads(heading: string, text: string, bullets: BulletFinder)
    requires GoodFinder(bullets)
    ensures forall p :: p in Emit(heading, text, bullets) ==> p.heading == heading
  {
    hide Strip, SplitOnBullets, Parts;
    PackHeads(heading, Parts(text, bullets), "");
  }

  lemma {:induction false} PackHeads(heading: string, parts: seq<string>, buf: string)
    ensures forall p :: p in Pack(heading, parts, buf) ==> p.heading == heading
  {
    hide Strip;
    if parts != [] {
      PackHeads(heading, parts[1..], parts[0]);
      PackHeads(heading, parts[1..], Glue(buf, parts[0]));
    }
  }

  /** The passage is what the sections since `i` make together. */
  ghost predicate IsRest(sections: seq<Section>, i: nat, p: Passage, bullets: BulletFinder)
    requires GoodFinder(bullets) && sections != []
  {
    && JoinedSince(sections, i, |sections| - 1, bullets)
    && HeadingFrom(sections, i, |sections| - 1, p.heading) && p.text == TextFrom(sections, i, |sections| - 1)
  }

  /** If no text was ever long enough, what the sections make together is the one passage. */
  lemma ShortSectionsOnly(sections: seq<Section>, bullets: BulletFinder)
    requires GoodFinder(bullets) && Process(sections, bullets).out == [] && Process(sections, bullets).carryText != ""
    ensures |Chunks(sections, bullets)| == 1 && sections != []
    ensures exists i: nat :: IsRest(sections, i, Chunks(sections, bullets)[0], bullets)
  {
    hide Process, HeadingFrom, TextFrom, JoinedSince;
    CarryKnown(sections, bullets);
    var i: nat :| CarryIs(sections, i, bullets);
    assert IsRest(sections, i, Chunks(sections, bullets)[0], bullets);
  }

  /** A section of the usual length is one passage under its own name. */
  lemma SingleSection(sec: Section, bullets: BulletFinder)
    requires GoodFinder(bullets) && 120 <= |Strip(sec.text)| <= 1800
    ensures |Chunks([sec], bullets)| == 1
    ensures Names(sec, Chunks([sec], bullets)[0].heading) && Chunks([sec], bullets)[0].text == Strip(sec.text)
  {
    hide Strip, SplitOnBullets, Parts;
    assert [sec][..0] == [];
    assert Process([], bullets) == Chunking([], "", "");
    assert Process([sec], bullets) == Step(Chunking([], "", ""), sec, bullets);
  }

  // ---------------------------------------------------------- where it is cut

  /** What stands between two neighbouring marks, or before the first or behind the last. */
  function Between(text: string, start: nat, marks: seq<nat>, k: nat): string
    requires k <= |marks| && start <= |text| && GoodMarks(text, marks)
    requires forall i :: 0 <= i < |marks| ==> start < marks[i]
  {
    text[if k == 0 then start else marks[k - 1]..if k == |marks| then |text| else marks[k]]
  }

  /** With its marks a text falls into what stands between them, from its beginning to its end. */
  lemma {:induction false} SlicesBetween(text: string, start: nat, marks: seq<nat>)
    requires start <= |text| && GoodMarks(text, marks) && forall i :: 0 <= i < |marks| ==> start < marks[i]
    ensures |Slices(text, start, marks)| == |marks| + 1
    ensures forall k: nat :: k <= |marks| ==> Slices(text, start, marks)[k] == Between(text, start, marks, k)
    decreases |marks|
  {
    if marks != [] {
      var rest := marks[1..];
      SlicesBetween(text, marks[0], rest);
      var pieces := Slices(text, start, marks);
      assert pieces == [text[start..marks[0]]] + Slices(text, marks[0], rest);
      forall k | 0 < k <= |marks|
        ensures pieces[k] == Between(text, start, marks, k)
      {
        assert Between(text, marks[0], rest, k - 1) == Between(text, start, marks, k);
      }
    }
  }

  /** A mark at the very beginning cuts nothing off. */
  lemma SlicesAtStart(text: string, marks: seq<nat>)
    requires GoodMarks(text, marks) && marks != [] && marks[0] == 0
    ensures forall i :: 0 <= i < |marks| ==> marks[i] < |text|
    ensures GoodMarks(text, marks[1..]) && Slices(text, 0, marks) == Slices(text, 0, marks[1..])
  {
  }

  // ------------------------------------------------------------- blank lines

  function Breaks(n: nat): string {
    seq(n, i => '\n')
  }

  /** Blocks with line breaks between them. */
  function Woven(bs: seq<string>, gaps: seq<nat>): string
    requires |bs| == |gaps| + 1
    decreases |gaps|
  {
    if gaps == [] then bs[0] else bs[0] + (Breaks(gaps[0]) + Woven(bs[1..], gaps[1..]))
  }

  predicate NoGap(b: string) {
    forall i :: 0 <= i < |b| - 1 ==> !(b[i] == '\n' && b[i + 1] == '\n')
  }

  lemma NoGapInFront(c: char, b: string)
    requires NoGap(b) && !(c == '\n' && b != "" && b[0] == '\n')
    ensures NoGap([c] + b)
  {
  }

  lemma {:induction false} BeforeGap(s: string)
    ensures NoGap(s[..GapAt(s)])
  {
    if s != "" && Newlines(s) < 2 {
      hide NoGap;
      BeforeGap(s[1..]);
      var b := s[1..][..GapAt(s[1..])];
      if |s| > 1 {
        FewBreaks(s);
      }
      NoGapInFront(s[0], b);
      assert s[..GapAt(s)] == [s[0]] + b;
    } else {
      assert s[..GapAt(s)] == "";
    }
  }

  lemma FewBreaks(s: string)
    requires |s| > 1 && Newlines(s) < 2
    ensures !(s[0] == '\n' && s[1] == '\n')
  {
    if s[0] == '\n' {
      assert Newlines(s) == 1 + Newlines(s[1..]);
    }
  }

  lemma {:induction false} NewlinesAre(s: string)
    ensures s[..Newlines(s)] == Breaks(Newlines(s))
  {
    if s != "" && s[0] == '\n' {
      NewlinesAre(s[1..]);
      assert s[..Newlines(s)] == [s[0]] + s[1..][..Newlines(s[1..])];
    }
  }

  /** Blank lines are where a text is cut: its blocks hold none, and with runs of two or more line
  breaks between them they are the text again. */
  lemma {:induction false} BlocksWoven(s: string) returns (gaps: seq<nat>)
    ensures |Blocks(s)| == |gaps| + 1 && s == Woven(Blocks(s), gaps)
    ensures forall i :: 0 <= i < |gaps| ==> gaps[i] >= 2
    ensures forall i :: 0 <= i < |Blocks(s)| ==> NoGap(Blocks(s)[i])
    decreases |s|
  {
    hide GapAt, Newlines, NoGap, Breaks, Woven, Blocks;
    GapFacts(s);
    BeforeGap(s);
    if GapAt(s) == |s| {
      gaps := [];
      BlocksEnd(s);
      assert s[..|s|] == s;
      WovenOne(s);
    } else {
      var i := GapAt(s);
      var n := Newlines(s[i..]);
      BlocksStep(s, i, n, s[i + n..]);
      var more := BlocksWoven(s[i + n..]);
      gaps := [n] + more;
      NewlinesAre(s[i..]);
      WovenMore(s[..i], n, Blocks(s[i + n..]), more);
      SplitTwice(s, i, n);
    }
  }

  lemma GapFacts(s: string)
    ensures GapAt(s) < |s| ==> 2 <= Newlines(s[GapAt(s)..]) <= |s| - GapAt(s)
  {
    hide GapAt, Newlines;
  }

  lemma BlocksEnd(s: string)
    requires GapAt(s) == |s|
    ensures Blocks(s) == [s]
  {
    hide GapAt, Newlines;
  }

  lemma BlocksStep(s: string, i: nat, n: nat, rest: string)
    requires i == GapAt(s) < |s| && n == Newlines(s[i..]) && i + n <= |s| && rest == s[i + n..]
    ensures Blocks(s) == [s[..i]] + Blocks(rest)
  {
    hide GapAt, Newlines;
  }

  lemma WovenOne(s: string)
    ensures Woven([s], []) == s
  {
  }

  lemma WovenMore(b: string, n: nat, bs: seq<string>, gaps: seq<nat>)
    requires |bs| == |gaps| + 1
    ensures Woven([b] + bs, [n] + gaps) == b + (Breaks(n) + Woven(bs, gaps))
  {
    assert ([b] + bs)[1..] == bs && ([n] + gaps)[1..] == gaps;
  }

  lemma SplitTwice(s: string, i: nat, n: nat)
    requires i + n <= |s|
    ensures s == s[..i] + (s[i..][..n] + s[i + n..])
  {
  }

  // ------------------------------------------------------------- packing

  /** Pieces, each on a line of its own. */
  function Lines(parts: seq<string>): string
    requires parts != []
  {
    if |parts| == 1 then parts[0] else Lines(parts[..|parts| - 1]) + "\n" + parts[|parts| - 1]
  }

  function Flat(groups: seq<seq<string>>): seq<string> {
    if groups == [] then [] else groups[0] + Flat(groups[1..])
  }

  /** No group could have taken the next piece, and each took its own while they fit. */
  ghost predicate Greedy(groups: seq<seq<string>>) {
    && (forall i :: 0 <= i < |groups| ==> groups[i] != [])
    && (forall i :: 0 <= i < |groups| - 1 ==> |Lines(groups[i])| + |groups[i + 1][0]| > 1800)
    && (forall i, k :: 0 <= i < |groups| && 0 < k < |groups[i]| ==> Fits(groups[i], k))
  }

  ghost predicate Fits(group: seq<string>, k: nat)
    requires 0 < k < |group|
  {
    |Lines(group[..k])| + |group[k]| <= 1800
  }

  ghost predicate PackedAs(ps: seq<Passage>, heading: string, groups: seq<seq<string>>) {
    && |ps| == |groups|
    && forall i :: 0 <= i < |ps| ==> groups[i] != [] && ps[i] == Passage(heading, Strip(Lines(groups[i])))
  }

  lemma GroupGrows(group: seq<string>, part: string)
    requires group != [] && Lines(group) != "" && |Lines(group)| + |part| <= 1800
    requires forall k :: 0 < k < |group| ==> Fits(group, k)
    ensures Lines(group + [part]) == Glue(Lines(group), part) != ""
    ensures forall k :: 0 < k < |group + [part]| ==> Fits(group + [part], k)
  {
    var longer := group + [part];
    assert longer[..|group|] == group;
    forall k | 0 < k < |longer|
      ensures Fits(longer, k)
    {
      if k < |group| {
        assert longer[..k] == group[..k];
        assert Fits(group, k);
      }
    }
  }

  lemma GreedyCons(group: seq<string>, more: seq<seq<string>>)
    requires group != [] && (forall k :: 0 < k < |group| ==> Fits(group, k)) && Greedy(more)
    requires more != [] ==> |Lines(group)| + |more[0][0]| > 1800
    ensures Greedy([group] + more) && Flat([group] + more) == group + Flat(more)
  {
    hide Lines, Fits;
    var all := [group] + more;
    assert all[1..] == more;
    assert forall i :: 0 < i < |all| ==> all[i] == more[i - 1];
  }

  lemma PackedCons(heading: string, group: seq<string>, more: seq<seq<string>>, ps: seq<Passage>)
    requires group != [] && PackedAs(ps, heading, more)
    ensures PackedAs([Passage(heading, Strip(Lines(group)))] + ps, heading, [group] + more)
  {
    hide Lines, Strip;
  }

  lemma {:induction false} PackGroups(heading: string, parts: seq<string>, group: seq<string>) returns (groups: seq<seq<string>>)
    requires group != [] && Lines(group) != "" && (forall k :: 0 < k < |group| ==> Fits(group, k))
    requires forall i :: 0 <= i < |parts| ==> parts[i] != ""
    ensures groups != [] && groups[0] != [] && groups[0][0] == group[0]
    ensures Flat(groups) == group + parts && Greedy(groups)
    ensures PackedAs(Pack(heading, parts, Lines(group)), heading, groups)
    decreases |parts|
  {
    hide Strip, Lines, Fits, Greedy, PackedAs, Flat;
    if parts == [] {
      NoGroups(heading);
      GreedyCons(group, []);
      PackedCons(heading, group, [], []);
      groups := [group] + [];
      assert groups[0] == group && group + [] == group + parts;
      assert Pack(heading, parts, Lines(group)) == [Passage(heading, Strip(Lines(group)))] + [];
    } else if |Lines(group)| + |parts[0]| > 1800 {
      OneLine(parts[0]);
      var more := PackGroups(heading, parts[1..], [parts[0]]);
      GreedyCons(group, more);
      PackedCons(heading, group, more, Pack(heading, parts[1..], parts[0]));
      groups := [group] + more;
      assert group + ([parts[0]] + parts[1..]) == group + parts;
    } else {
      GroupGrows(group, parts[0]);
      groups := PackGroups(heading, parts[1..], group + [parts[0]]);
      assert group + [parts[0]] + parts[1..] == group + parts;
    }
  }

  lemma NoGroups(heading: string)
    ensures Greedy([]) && Flat([]) == [] && PackedAs([], heading, [])
  {
  }

  lemma OneLine(part: string)
    ensures Lines([part]) == part
  {
  }

  /** A text's pieces go into passages in order, each piece on a line of its own, and as many into one
  as the target allows. */
  lemma PackedGreedily(heading: string, parts: seq<string>) returns (groups: seq<seq<string>>)
    requires parts != [] && forall i :: 0 <= i < |parts| ==> parts[i] != ""
    ensures Flat(groups) == parts && Greedy(groups) && PackedAs(Pack(heading, parts, ""), heading, groups)
  {
    hide Strip, Lines, Fits, Greedy, PackedAs;
    OneLine(parts[0]);
    FirstPiece(heading, parts);
    groups := PackGroups(heading, parts[1..], [parts[0]]);
    assert [parts[0]] + parts[1..] == parts;
  }

  lemma FirstPiece(heading: string, parts: seq<string>)
    requires parts != []
    ensures Pack(heading, parts, "") == Pack(heading, parts[1..], parts[0])
  {
    hide Strip;
  }

  lemma {:induction false} StrippedSome(pieces: seq<string>)
    ensures forall i :: 0 <= i < |StripAll(pieces)| ==> StripAll(pieces)[i] != ""
    ensures forall i :: 0 <= i < |NonBlank(pieces)| ==> NonBlank(pieces)[i] != ""
  {
    hide IsSpace;
    if pieces != [] {
      StrippedSome(pieces[1..]);
    }
  }

  /** A text that is too long for one passage is packed so, from its bullets, or from its blocks. */
  lemma EmitPacked(heading: string, text: string, bullets: BulletFinder) returns (groups: seq<seq<string>>)
    requires GoodFinder(bullets) && Trimmed(text) && !Unsplit(text, bullets)
    ensures Flat(groups) == Parts(text, bullets) && Greedy(groups)
    ensures PackedAs(Emit(heading, text, bullets), heading, groups)
  {
    hide Strip, GoodFinder, GoodMarks, Trimmed, Unsplit, Greedy, PackedAs, Flat, Slices;
    var parts := Parts(text, bullets);
    InkParts(text, bullets);
    TrimmedHasInk(text);
    PartsSome(text, bullets);
    if parts == [] {
      InkOfNothing();
    }
    groups := PackedGreedily(heading, parts);
  }

  lemma TrimmedHasInk(text: string)
    requires Trimmed(text)
    ensures Ink(text) != "" && InkAll([]) == ""
  {
    InkOfTrimmed(text);
  }

  lemma PartsSome(text: string, bullets: BulletFinder)
    requires GoodFinder(bullets) && text != ""
    ensures forall i :: 0 <= i < |Parts(text, bullets)| ==> Parts(text, bullets)[i] != ""
  {
    hide IsSpace, Strip, GoodMarks, Slices;
    FinderMarks(bullets, text);
    StrippedSome(Blocks(text));
    if |bullets(text)| >= 2 {
      SliceLimits(text, bullets(text));
      StrippedSome(Slices(text, 0, bullets(text)));
    }
  }

  lemma SliceLimits(text: string, marks: seq<nat>)
    requires GoodMarks(text, marks)
    ensures forall i :: 0 <= i < |marks| ==> marks[i] < |text|
  {
  }
}
