/** The structure-aware chunker of assistant/indexing/index.py. */
module Chunker {
  import opened Blanks

  datatype Section = Section(heading: string, text: string)

  datatype Passage = Passage(heading: string, text: string)

  /** The loop's variables; an empty `carryText` means that nothing is carried forward. */
  datatype Chunking = Chunking(out: seq<Passage>, carryHeading: string, carryText: string)

  /** Where the bullets of a text start: what the source's pattern finds. */
  type BulletFinder = string -> seq<nat>

  const TARGET_CHARS: nat := 1800
  const MIN_CHARS: nat := 120
  const HARD_MAX: nat := 4000
  const MAX_HEADING: nat := 70

  // --------------------------------------------------------- the splitters

  predicate GoodMarks(text: string, marks: seq<nat>) {
    && (forall i, j :: 0 <= i < j < |marks| ==> marks[i] < marks[j])
    && (forall i :: 0 <= i < |marks| ==> marks[i] < |text|)
  }

  ghost predicate GoodFinder(bullets: BulletFinder) {
    forall text :: GoodMarks(text, bullets(text))
  }

  /** The text cut at every mark behind `start`. */
  function Slices(text: string, start: nat, marks: seq<nat>): seq<string>
    requires start <= |text| && forall i :: 0 <= i < |marks| ==> marks[i] < |text|
    decreases |marks|
  {
    if marks == [] then [text[start..]]
    else if marks[0] > start then [text[start..marks[0]]] + Slices(text, marks[0], marks[1..])
    else Slices(text, start, marks[1..])
  }

  function StripAll(pieces: seq<string>): seq<string> {
    if pieces == [] then []
    else (if Strip(pieces[0]) != "" then [Strip(pieces[0])] else []) + StripAll(pieces[1..])
  }

  function SplitOnBullets(text: string, marks: seq<nat>): seq<string>
    requires GoodMarks(text, marks)
  {
    if |marks| < 2 then [text] else StripAll(Slices(text, 0, marks))
  }

  function Newlines(s: string): (n: nat)
    ensures n <= |s|
  {
    if s != "" && s[0] == '\n' then 1 + Newlines(s[1..]) else 0
  }

  /** The first place where at least two newlines follow each other, or the end. */
  function GapAt(s: string): (i: nat)
    ensures i <= |s|
    ensures i < |s| ==> Newlines(s[i..]) >= 2
  {
    if s == "" || Newlines(s) >= 2 then 0 else 1 + GapAt(s[1..])
  }

  /** `re.split` at runs of two or more newlines. */
  function Blocks(s: string): (bs: seq<string>)
    ensures bs != []
    decreases |s|
  {
    var i := GapAt(s);
    if i == |s| then [s] else [s[..i]] + Blocks(s[i + Newlines(s[i..])..])
  }

  function NonBlank(pieces: seq<string>): seq<string> {
    if pieces == [] then []
    else (if Strip(pieces[0]) != "" then [pieces[0]] else []) + NonBlank(pieces[1..])
  }

  // -------------------------------------------------------------- headings

  /** `rsplit(" ", 1)[0]`: everything in front of the last blank, or all of it. */
  function BeforeLastSpace(s: string): (r: string)
    ensures r <= s
  {
    if exists i :: 0 <= i < |s| && s[i] == ' ' then
      if s[|s| - 1] == ' ' then s[..|s| - 1] else BeforeLastSpace(s[..|s| - 1])
    else s
  }

  function TrimTail(s: string): (r: string)
    ensures r <= s
  {
    if s != "" && s[|s| - 1] in [' ', ',', ';', '/', '-'] then TrimTail(s[..|s| - 1]) else s
  }

  function MergeHeadings(carried: string, following: string): string {
    if carried == "" then following
    else
      var joined := carried + " / " + following;
      if |joined| <= MAX_HEADING then joined
      else if |carried| <= MAX_HEADING then carried + " \U{2026}"
      else
        var clipped := BeforeLastSpace(carried[..MAX_HEADING]);
        TrimTail(if clipped != "" then clipped else carried[..MAX_HEADING]) + " \U{2026}"
  }

  // ------------------------------------------------------------- one section

  /** The pieces that a text too long for one passage is packed from. */
  function Parts(text: string, bullets: BulletFinder): seq<string>
    requires GoodFinder(bullets)
  {
    var pieces := SplitOnBullets(text, bullets(text));
    if |pieces| == 1 then NonBlank(Blocks(text)) else pieces
  }

  /** Texts that become one passage as they stand. */
  predicate Unsplit(text: string, bullets: BulletFinder)
    requires GoodFinder(bullets)
  {
    |text| <= TARGET_CHARS || (|SplitOnBullets(text, bullets(text))| == 1 && |text| <= HARD_MAX)
  }

  function Glue(buf: string, part: string): string {
    if buf == "" then part else buf + "\n" + part
  }

  /** Pieces packed into passages, `buf` being the passage begun. */
  function Pack(heading: string, parts: seq<string>, buf: string): seq<Passage> {
    if parts == [] then [Passage(heading, Strip(buf))]
    else if buf != "" && |buf| + |parts[0]| > TARGET_CHARS then
      [Passage(heading, Strip(buf))] + Pack(heading, parts[1..], parts[0])
    else Pack(heading, parts[1..], Glue(buf, parts[0]))
  }

  function Emit(heading: string, text: string, bullets: BulletFinder): seq<Passage>
    requires GoodFinder(bullets)
  {
    if Unsplit(text, bullets) then [Passage(heading, text)]
    else Pack(heading, Parts(text, bullets), "")
  }

  // ----------------------------------------------------------- all sections

  function HeadingOf(sec: Section): string {
    if Strip(sec.heading) == "" then "Introduction" else Strip(sec.heading)
  }

  /** A section's text with what was carried into it. */
  function Joined(st: Chunking, sec: Section): Passage {
    if st.carryText == "" then Passage(HeadingOf(sec), Strip(sec.text))
    else Passage(MergeHeadings(st.carryHeading, HeadingOf(sec)), st.carryText + "\n" + Strip(sec.text))
  }

  function Step(st: Chunking, sec: Section, bullets: BulletFinder): Chunking
    requires GoodFinder(bullets)
  {
    var p := Joined(st, sec);
    if Strip(sec.text) == "" then st
    else if |p.text| < MIN_CHARS then Chunking(st.out, p.heading, p.text)
    else Chunking(st.out + Emit(p.heading, p.text, bullets), "", "")
  }

  function Process(sections: seq<Section>, bullets: BulletFinder): Chunking
    requires GoodFinder(bullets)
  {
    if sections == [] then Chunking([], "", "")
    else Step(Process(sections[..|sections| - 1], bullets), sections[|sections| - 1], bullets)
  }

  function Finish(st: Chunking): seq<Passage> {
    if st.carryText == "" then st.out
    else if st.out == [] then
      [Passage(if st.carryHeading == "" then "Introduction" else st.carryHeading, st.carryText)]
    else
      var last := st.out[|st.out| - 1];
      st.out[|st.out| - 1 := Passage(last.heading, last.text + "\n" + st.carryText)]
  }

  function Chunks(sections: seq<Section>, bullets: BulletFinder): seq<Passage>
    requires GoodFinder(bullets)
  {
    Finish(Process(sections, bullets))
  }

  // -------------------------------------------------- the loops of the source

  method SplitText(text: string, marks: seq<nat>) returns (pieces: seq<string>)
    requires GoodMarks(text, marks)
    ensures pieces == SplitOnBullets(text, marks)
  {
    if |marks| < 2 {
      return [text];
    }
    var raw: seq<string> := [];
    var start: nat := 0;
    for i := 0 to |marks|
      invariant start <= |text|
      invariant raw + Slices(text, start, marks[i..]) == Slices(text, 0, marks)
    {
      assert marks[i..][1..] == marks[i + 1..];
      if marks[i] > start {
        assert raw + ([text[start..marks[i]]] + Slices(text, marks[i], marks[i + 1..]))
            == raw + [text[start..marks[i]]] + Slices(text, marks[i], marks[i + 1..]);
        raw := raw + [text[start..marks[i]]];
        start := marks[i];
      }
    }
    raw := raw + [text[start..]];
    pieces := StripAll(raw);
  }

  method ChunkSections(sections: seq<Section>, bullets: BulletFinder) returns (out: seq<Passage>)
    requires GoodFinder(bullets)
    ensures out == Chunks(sections, bullets)
  {
    hide Emit, Strip, MergeHeadings;
    out := [];
    var carryHeading, carryText := "", "";
    for i := 0 to |sections|
      invariant Chunking(out, carryHeading, carryText) == Process(sections[..i], bullets)
    {
      var sec := sections[i];
      assert sections[..i + 1][..i] == sections[..i];
      var p := Joined(Chunking(out, carryHeading, carryText), sec);
      if Strip(sec.text) == "" {
        continue;
      }
      carryHeading, carryText := "", "";
      if |p.text| < MIN_CHARS {
        carryHeading, carryText := p.heading, p.text;
        continue;
      }
      var passages := EmitSection(p.heading, p.text, bullets);
      out := out + passages;
    }
    assert sections[..|sections|] == sections;
    out := Finish(Chunking(out, carryHeading, carryText));
  }

  method EmitSection(heading: string, text: string, bullets: BulletFinder) returns (out: seq<Passage>)
    requires GoodFinder(bullets)
    ensures out == Emit(heading, text, bullets)
  {
    hide Strip, SplitOnBullets, GoodFinder, GoodMarks;
    if |text| <= TARGET_CHARS {
      return [Passage(heading, text)];
    }
    FinderMarks(bullets, text);
    var parts := SplitText(text, bullets(text));
    if |parts| == 1 {
      if |text| <= HARD_MAX {
        return [Passage(heading, text)];
      }
      parts := NonBlank(Blocks(text));
    }
    out := PackParts(heading, parts);
  }

  lemma FinderMarks(bullets: BulletFinder, text: string)
    requires GoodFinder(bullets)
    ensures GoodMarks(text, bullets(text))
  {
  }

  method PackParts(heading: string, parts: seq<string>) returns (out: seq<Passage>)
    ensures out == Pack(heading, parts, "")
  {
    hide Strip;
    out := [];
    var buf := "";
    for i := 0 to |parts|
      invariant out + Pack(heading, parts[i..], buf) == Pack(heading, parts, "")
    {
      var part := parts[i];
      assert parts[i..][1..] == parts[i + 1..];
      if buf != "" && |buf| + |part| > TARGET_CHARS {
        assert out + ([Passage(heading, Strip(buf))] + Pack(heading, parts[i + 1..], part))
            == out + [Passage(heading, Strip(buf))] + Pack(heading, parts[i + 1..], part);
        out := out + [Passage(heading, Strip(buf))];
        buf := part;
      } else {
        buf := Glue(buf, part);
      }
    }
    out := out + [Passage(heading, Strip(buf))];
  }
}
