/** What chunking keeps: the text, the bullets, and the length of a passage. */
module ChunkerLaws {
  import opened Blanks
  import opened Chunker

  // ----------------------------------------------------------- conservation

  /** The characters that are not white space. */
  function Ink(s: string): string {
    if s == "" then "" else (if IsSpace(s[0]) then "" else [s[0]]) + Ink(s[1..])
  }

  function InkAll(ss: seq<string>): string {
    if ss == [] then "" else Ink(ss[0]) + InkAll(ss[1..])
  }

  function InkPassages(ps: seq<Passage>): string {
    if ps == [] then "" else Ink(ps[0].text) + InkPassages(ps[1..])
  }

  function InkSections(secs: seq<Section>): string {
    if secs == [] then "" else InkSections(secs[..|secs| - 1]) + Ink(secs[|secs| - 1].text)
  }

  lemma {:induction false} InkAppend(a: string, b: string)
    ensures Ink(a + b) == Ink(a) + Ink(b)
  {
    if a == "" {
      assert a + b == b;
    } else {
      assert (a + b)[1..] == a[1..] + b;
      InkAppend(a[1..], b);
    }
  }

  lemma {:induction false} InkLeftStrip(s: string)
    ensures Ink(LeftStrip(s)) == Ink(s)
  {
    if s != "" && IsSpace(s[0]) {
      InkLeftStrip(s[1..]);
    }
  }

  lemma {:induction false} InkRightStrip(s: string)
    ensures Ink(RightStrip(s)) == Ink(s)
  {
    if s != "" && IsSpace(s[|s| - 1]) {
      InkRightStrip(s[..|s| - 1]);
      assert s == s[..|s| - 1] + [s[|s| - 1]];
      InkAppend(s[..|s| - 1], [s[|s| - 1]]);
    }
  }

  lemma InkStrip(s: string)
    ensures Ink(Strip(s)) == Ink(s)
  {
    InkLeftStrip(s);
    InkRightStrip(LeftStrip(s));
  }

  lemma InkStripped(s: string)
    ensures Ink(Strip(s)) == Ink(s)
    ensures Strip(s) == "" ==> Ink(s) == ""
  {
    hide IsSpace, Strip;
    InkStrip(s);
  }

  lemma {:induction false} InkPassagesAppend(a: seq<Passage>, b: seq<Passage>)
    ensures InkPassages(a + b) == InkPassages(a) + InkPassages(b)
  {
    if a == [] {
      assert a + b == b;
    } else {
      assert (a + b)[1..] == a[1..] + b;
      InkPassagesAppend(a[1..], b);
    }
  }

  lemma InkAllPush(s: string, ss: seq<string>)
    ensures InkAll([s] + ss) == Ink(s) + InkAll(ss)
    ensures [] + ss == ss
  {
  }

  lemma {:induction false} InkStripAll(pieces: seq<string>)
    ensures InkAll(StripAll(pieces)) == InkAll(pieces)
    ensures InkAll(NonBlank(pieces)) == InkAll(pieces)
  {
    hide Strip, Ink;
    InkOfNothing();
    if pieces != [] {
      InkStripped(pieces[0]);
      InkStripAll(pieces[1..]);
      InkAllPush(pieces[0], StripAll(pieces[1..]));
      InkAllPush(Strip(pieces[0]), StripAll(pieces[1..]));
      InkAllPush(pieces[0], NonBlank(pieces[1..]));
    }
  }

  lemma {:induction false} InkSlices(text: string, start: nat, marks: seq<nat>)
    requires start <= |text| && forall i :: 0 <= i < |marks| ==> marks[i] < |text|
    ensures InkAll(Slices(text, start, marks)) == Ink(text[start..])
    decreases |marks|
  {
    if marks != [] {
      if marks[0] > start {
        InkSlices(text, marks[0], marks[1..]);
        assert text[start..] == text[start..marks[0]] + text[marks[0]..];
        InkAppend(text[start..marks[0]], text[marks[0]..]);
      } else {
        InkSlices(text, start, marks[1..]);
      }
    }
  }

  lemma {:induction false} InkNewlines(s: string)
    ensures Ink(s[..Newlines(s)]) == ""
  {
    if s != "" && s[0] == '\n' {
      InkNewlines(s[1..]);
      assert s[..Newlines(s)][1..] == s[1..][..Newlines(s[1..])];
    }
  }

  lemma {:induction false} InkBlocks(s: string)
    ensures InkAll(Blocks(s)) == Ink(s)
    decreases |s|
  {
    hide IsSpace, Newlines, GapAt, Ink;
    var i := GapAt(s);
    if i < |s| {
      var rest := s[i + Newlines(s[i..])..];
      InkBlocks(rest);
      InkGap(s, i);
      assert ([s[..i]] + Blocks(rest))[1..] == Blocks(rest);
    } else {
      assert Blocks(s) == [s] && [s][1..] == [];
      assert InkAll([s]) == Ink(s) + "" == Ink(s);
    }
  }

  lemma InkSplit(s: string, k: nat)
    requires k <= |s|
    ensures Ink(s) == Ink(s[..k]) + Ink(s[k..])
  {
    hide Ink;
    assert s == s[..k] + s[k..];
    InkAppend(s[..k], s[k..]);
  }

  lemma InkGap(s: string, i: nat)
    requires i < |s|
    ensures i + Newlines(s[i..]) <= |s|
    ensures Ink(s) == Ink(s[..i]) + Ink(s[i + Newlines(s[i..])..])
  {
    hide IsSpace, Newlines, Ink;
    var behind := s[i..];
    var n := Newlines(behind);
    InkSplit(s, i);
    InkNewlines(behind);
    InkSplit(behind, n);
    assert behind[n..] == s[i + n..];
    assert Ink(behind) == "" + Ink(behind[n..]) == Ink(behind[n..]);
  }

  lemma InkParts(text: string, bullets: BulletFinder)
    requires GoodFinder(bullets)
    ensures InkAll(Parts(text, bullets)) == Ink(text)
  {
    InkBlocks(text);
    InkStripAll(Blocks(text));
    var marks := bullets(text);
    assert GoodMarks(text, marks);
    if |marks| >= 2 {
      InkSlices(text, 0, marks);
      InkStripAll(Slices(text, 0, marks));
      assert text[0..] == text;
    }
  }

  lemma {:induction false} InkPack(heading: string, parts: seq<string>, buf: string)
    ensures InkPassages(Pack(heading, parts, buf)) == Ink(buf) + InkAll(parts)
  {
    InkStrip(buf);
    if parts != [] {
      if buf != "" && |buf| + |parts[0]| > TARGET_CHARS {
        InkPack(heading, parts[1..], parts[0]);
      } else {
        InkPack(heading, parts[1..], Glue(buf, parts[0]));
        InkGlue(buf, parts[0]);
      }
    }
  }

  lemma InkGlue(buf: string, part: string)
    ensures Ink(Glue(buf, part)) == Ink(buf) + Ink(part)
    ensures Ink(buf + "\n" + part) == Ink(buf) + Ink(part)
  {
    hide Ink;
    InkAppend(buf, "\n");
    InkAppend(buf + "\n", part);
    InkOfNothing();
    assert Ink(buf) + "" == Ink(buf);
  }

  lemma InkOfNothing()
    ensures Ink("\n") == "" && Ink("") == ""
  {
  }

  lemma InkEmit(heading: string, text: string, bullets: BulletFinder)
    requires GoodFinder(bullets)
    ensures InkPassages(Emit(heading, text, bullets)) == Ink(text)
  {
    hide Parts, Unsplit, GoodFinder;
    if !Unsplit(text, bullets) {
      InkParts(text, bullets);
      InkPack(heading, Parts(text, bullets), "");
    }
  }

  lemma {:induction false} InkProcess(sections: seq<Section>, bullets: BulletFinder)
    requires GoodFinder(bullets)
    ensures var st := Process(sections, bullets);
            InkPassages(st.out) + Ink(st.carryText) == InkSections(sections)
  {
    hide Emit, MergeHeadings, HeadingOf, GoodFinder, Strip, IsSpace, Step;
    if sections != [] {
      var front := sections[..|sections| - 1];
      var sec := sections[|sections| - 1];
      InkProcess(front, bullets);
      InkStep(Process(front, bullets), sec, bullets);
    }
  }

  lemma InkStep(st: Chunking, sec: Section, bullets: BulletFinder)
    requires GoodFinder(bullets)
    ensures var st2 := Step(st, sec, bullets);
            InkPassages(st2.out) + Ink(st2.carryText) == InkPassages(st.out) + Ink(st.carryText) + Ink(sec.text)
  {
    hide Emit, MergeHeadings, HeadingOf, GoodFinder, Strip, IsSpace, InkPassages;
    var p := Joined(st, sec);
    InkStripped(sec.text);
    InkGlue(st.carryText, Strip(sec.text));
    InkEmit(p.heading, p.text, bullets);
    InkPassagesAppend(st.out, Emit(p.heading, p.text, bullets));
  }

  lemma InkOne(p: Passage)
    ensures InkPassages([p]) == Ink(p.text)
  {
    hide Ink;
    assert Ink(p.text) + "" == Ink(p.text);
  }

  lemma InkGrow(front: seq<Passage>, last: Passage, extra: string)
    ensures InkPassages(front + [Passage(last.heading, last.text + "\n" + extra)])
         == InkPassages(front + [last]) + Ink(extra)
  {
    hide Ink, InkPassages;
    var grown := Passage(last.heading, last.text + "\n" + extra);
    InkPassagesAppend(front, [last]);
    InkPassagesAppend(front, [grown]);
    InkOne(last);
    InkOne(grown);
    InkGlue(last.text, extra);
  }

  lemma InkFinish(st: Chunking)
    ensures InkPassages(Finish(st)) == InkPassages(st.out) + Ink(st.carryText)
  {
    hide Ink, InkPassages;
    InkOfNothing();
    if st.carryText != "" && st.out != [] {
      var front := st.out[..|st.out| - 1];
      var last := st.out[|st.out| - 1];
      assert st.out == front + [last];
      assert Finish(st) == front + [Passage(last.heading, last.text + "\n" + st.carryText)];
      InkGrow(front, last, st.carryText);
    } else if st.carryText != "" {
      InkOne(Finish(st)[0]);
      assert InkPassages([]) == "" by {
        InkNoPassage();
      }
    }
  }

  lemma InkNoPassage()
    ensures InkPassages([]) == ""
  {
  }

  /** For every list of sections: the passages in order hold exactly the non-blank characters of
  the sections in order. */
  lemma ChunksConserveText(sections: seq<Section>, bullets: BulletFinder)
    requires GoodFinder(bullets)
    ensures InkPassages(Chunks(sections, bullets)) == InkSections(sections)
  {
    hide Process, Finish, Ink, InkPassages;
    InkProcess(sections, bullets);
    InkFinish(Process(sections, bullets));
  }

  // ----------------------------------------------------------------- length

  function Longest(pieces: seq<string>): nat {
    if pieces == [] then 0
    else if |pieces[0]| >= Longest(pieces[1..]) then |pieces[0]| else Longest(pieces[1..])
  }

  /** How long a passage made from this text may be; the newline that joins two pieces is not
  counted where the source compares with its target. */
  function Limit(text: string, bullets: BulletFinder): nat
    requires GoodFinder(bullets)
  {
    if Unsplit(text, bullets) then |text|
    else
      var longest := Longest(Parts(text, bullets));
      if longest > TARGET_CHARS + 1 then longest else TARGET_CHARS + 1
  }

  lemma {:induction false} EndStripsShorten(s: string)
    ensures |LeftStrip(s)| <= |s| && |RightStrip(s)| <= |s|
  {
    if s != "" {
      EndStripsShorten(s[1..]);
      EndStripsShorten(s[..|s| - 1]);
    }
  }

  lemma StripShortens(s: string)
    ensures |Strip(s)| <= |s|
  {
    EndStripsShorten(s);
    EndStripsShorten(LeftStrip(s));
  }

  lemma {:induction false} PackBounded(heading: string, parts: seq<string>, buf: string, bound: nat)
    requires TARGET_CHARS + 1 <= bound && |buf| <= bound && Longest(parts) <= bound
    ensures forall p :: p in Pack(heading, parts, buf) ==> |p.text| <= bound
  {
    hide Strip;
    StripShortens(buf);
    if parts != [] {
      if buf != "" && |buf| + |parts[0]| > TARGET_CHARS {
        PackBounded(heading, parts[1..], parts[0], bound);
      } else {
        PackBounded(heading, parts[1..], Glue(buf, parts[0]), bound);
      }
    }
  }

  lemma EmitBounded(heading: string, text: string, bullets: BulletFinder)
    requires GoodFinder(bullets)
    ensures forall p :: p in Emit(heading, text, bullets) ==> |p.text| <= Limit(text, bullets)
    ensures Unsplit(text, bullets) ==> Limit(text, bullets) <= HARD_MAX
  {
    hide Parts, GoodFinder;
    if !Unsplit(text, bullets) {
      PackBounded(heading, Parts(text, bullets), "", Limit(text, bullets));
    }
  }

  /** The text that section `i` is chunked as, what was carried into it included. */
  function TextAt(sections: seq<Section>, i: nat, bullets: BulletFinder): string
    requires GoodFinder(bullets) && i < |sections|
  {
    Joined(Process(sections[..i], bullets), sections[i]).text
  }

  /** The passage is one of those that section `j` was cut into, and keeps to the limit of its text. */
  ghost predicate MadeFrom(sections: seq<Section>, j: nat, p: Passage, bullets: BulletFinder)
    requires GoodFinder(bullets)
  {
    && j < |sections| && Strip(sections[j].text) != "" && |TextAt(sections, j, bullets)| >= MIN_CHARS
    && p in Emit(Joined(Process(sections[..j], bullets), sections[j]).heading, TextAt(sections, j, bullets), bullets)
    && |p.text| <= Limit(TextAt(sections, j, bullets), bullets)
  }

  lemma {:induction false} ProcessBounded(sections: seq<Section>, bullets: BulletFinder)
    requires GoodFinder(bullets)
    ensures var st := Process(sections, bullets);
            && |st.carryText| < MIN_CHARS
            && forall p :: p in st.out ==> exists j: nat :: MadeFrom(sections, j, p, bullets)
  {
    hide Limit, Emit, GoodFinder, MergeHeadings, Strip, HeadingOf;
    if sections != [] {
      var front := sections[..|sections| - 1];
      ProcessBounded(front, bullets);
      var st := Process(front, bullets);
      var p := Joined(st, sections[|sections| - 1]);
      EmitBounded(p.heading, p.text, bullets);
      assert TextAt(sections, |sections| - 1, bullets) == p.text;
      forall q | q in Process(sections, bullets).out
        ensures exists j: nat :: MadeFrom(sections, j, q, bullets)
      {
        if q in st.out {
          var j: nat :| MadeFrom(front, j, q, bullets);
          assert front[..j] == sections[..j];
          assert MadeFrom(sections, j, q, bullets);
        } else {
          assert MadeFrom(sections, |sections| - 1, q, bullets);
        }
      }
    }
  }

  /** `q` is the passage with something short on a further line. */
  predicate Extends(q: Passage, p: Passage) {
    q.heading == p.heading && p.text + "\n" <= q.text && |q.text| <= |p.text| + MIN_CHARS
  }

  /** Every passage is one of those that its own section was cut into, and keeps to the limit of
  that section's text.  Only the last may be such a passage with less than `MIN_CHARS` characters
  appended, or stand alone when nothing was long enough to be a passage. */
  lemma ChunksBounded(sections: seq<Section>, bullets: BulletFinder, i: nat)
    requires GoodFinder(bullets) && i < |Chunks(sections, bullets)|
    ensures var out := Chunks(sections, bullets);
            || (exists j: nat :: MadeFrom(sections, j, out[i], bullets))
            || (i == |out| - 1 && exists j: nat, p :: MadeFrom(sections, j, p, bullets) && Extends(out[i], p))
            || (|out| == 1 && |out[i].text| < MIN_CHARS)
  {
    hide Process, MadeFrom;
    ProcessBounded(sections, bullets);
    var st := Process(sections, bullets);
    if st.out != [] {
      var p := st.out[i];
      assert p in st.out;
      var j: nat :| MadeFrom(sections, j, p, bullets);
      if st.carryText != "" && i == |st.out| - 1 {
        assert Chunks(sections, bullets)[i] == Passage(p.heading, p.text + "\n" + st.carryText);
        assert Extends(Chunks(sections, bullets)[i], p);
      } else {
        assert Chunks(sections, bullets)[i] == p;
      }
    }
  }

  /** A bullet of half the target. */
  function HalfBullet(): (b: string)
    ensures |b| == TARGET_CHARS / 2 && b[0] == '-' && b[|b| - 1] == 'x'
  {
    "- " + seq(TARGET_CHARS / 2 - 2, i => 'x')
  }

  /** Two of them and a short third one, each on its own line, and the places where they start. */
  function ThreeBullets(): string {
    HalfBullet() + "\n" + (HalfBullet() + "\n" + "- x")
  }

  function ThreeMarks(): seq<nat> {
    [0, TARGET_CHARS / 2 + 1, TARGET_CHARS + 2]
  }

  lemma StripInked(s: string)
    requires s != "" && !IsSpace(s[0]) && !IsSpace(s[|s| - 1])
    ensures Strip(s) == s && Strip(s + "\n") == s
  {
    assert (s + "\n")[..|s|] == s;
  }

  /** Two equal lines and an end, cut where the lines end. */
  lemma LinesSlice(line: string, end: string)
    requires line != "" && end != ""
    ensures var text := line + (line + end);
            var marks := [0, |line|, 2 * |line|];
            GoodMarks(text, marks) && Slices(text, 0, marks) == [line, line, end]
  {
    var text := line + (line + end);
    var n := |line|;
    assert text[0..n] == line && text[2 * n..] == end;
    assert text[n..2 * n] == line by { assert text[n..] == line + end; }
    assert [0, n, 2 * n][1..] == [n, 2 * n] && [n, 2 * n][1..] == [2 * n] && [2 * n][1..] == [];
    assert Slices(text, 2 * n, []) == [end];
    assert Slices(text, n, [2 * n]) == [line, end];
    assert Slices(text, 0, [n, 2 * n]) == [line, line, end];
  }

  lemma BulletsSplit(text: string)
    requires text == ThreeBullets()
    ensures GoodMarks(text, ThreeMarks()) && |text| > TARGET_CHARS
    ensures SplitOnBullets(text, ThreeMarks()) == [HalfBullet(), HalfBullet(), "- x"]
  {
    hide HalfBullet, Slices, Strip;
    var a, d := HalfBullet(), "- x";
    var line := a + "\n";
    LinesSlice(line, d);
    StripInked(a);
    StripInked(d);
    assert [line, line, d][1..] == [line, d] && [line, d][1..] == [d] && [d][1..] == [];
    assert StripAll([]) == [];
    assert StripAll([d]) == [d];
    assert StripAll([line, d]) == [a, d];
  }

  /** The bound is reached: two such bullets fill a passage to one character over the target. */
  lemma BoundReached(heading: string, bullets: BulletFinder)
    requires GoodFinder(bullets) && bullets(ThreeBullets()) == ThreeMarks()
    ensures Limit(ThreeBullets(), bullets) == TARGET_CHARS + 1
    ensures exists p :: p in Emit(heading, ThreeBullets(), bullets) && |p.text| == TARGET_CHARS + 1
  {
    hide Strip, SplitOnBullets, GoodFinder, ThreeBullets, HalfBullet, Slices;
    var text := ThreeBullets();
    var a, d := HalfBullet(), "- x";
    BulletsSplit(text);
    var parts := [a, a, d];
    assert parts[1..] == [a, d] && [a, d][1..] == [d] && [d][1..] == [];
    assert Parts(text, bullets) == parts;
    assert Longest([]) == 0;
    assert Longest([d]) == 3;
    assert Longest([a, d]) == |a|;
    var full := a + "\n" + a;
    assert Pack(heading, [d], full) == [Passage(heading, Strip(full))] + Pack(heading, [], d);
    assert Pack(heading, [a, d], a) == Pack(heading, [d], full);
    assert Pack(heading, parts, "") == Pack(heading, [a, d], a);
    StripInked(full);
    assert Passage(heading, full) in Emit(heading, text, bullets);
  }

  // ---------------------------------------------------------------- bullets

  predicate StandsAt(piece: string, text: string, i: nat) {
    i + |piece| <= |text| && text[i..i + |piece|] == piece
  }

  /** `piece` stands uncut somewhere in `text`. */
  ghost predicate Within(piece: string, text: string) {
    exists i: nat :: StandsAt(piece, text, i)
  }

  ghost predicate SomePassageHas(ps: seq<Passage>, piece: string) {
    exists p :: p in ps && Within(piece, p.text)
  }

  predicate Trimmed(s: string) {
    s != "" && !IsSpace(s[0]) && !IsSpace(s[|s| - 1])
  }

  lemma WithinAround(piece: string, text: string, before: string, after: string)
    requires Within(piece, text)
    ensures Within(piece, before + text + after)
  {
    var i: nat :| StandsAt(piece, text, i);
    var s := before + text + after;
    var j := |before| + i;
    assert s[j..j + |piece|] == text[i..i + |piece|];
    assert StandsAt(piece, s, j);
  }

  lemma {:induction false} LeftStripKeeps(piece: string, text: string)
    requires Trimmed(piece) && Within(piece, text)
    ensures Within(piece, LeftStrip(text))
  {
    hide IsSpace;
    if IsSpace(text[0]) {
      var i: nat :| StandsAt(piece, text, i);
      assert piece[0] == text[i];
      assert StandsAt(piece, text[1..], i - 1);
      LeftStripKeeps(piece, text[1..]);
    }
  }

  lemma {:induction false} RightStripKeeps(piece: string, text: string)
    requires Trimmed(piece) && Within(piece, text)
    ensures Within(piece, RightStrip(text))
  {
    hide IsSpace;
    var n := |text| - 1;
    if IsSpace(text[n]) {
      var i: nat :| StandsAt(piece, text, i);
      assert piece[|piece| - 1] == text[i + |piece| - 1];
      assert StandsAt(piece, text[..n], i);
      RightStripKeeps(piece, text[..n]);
    }
  }

  lemma {:induction false} PackKeeps(heading: string, parts: seq<string>, buf: string, piece: string)
    requires Trimmed(piece) && (Within(piece, buf) || piece in parts)
    ensures SomePassageHas(Pack(heading, parts, buf), piece)
  {
    hide Within, Trimmed, Strip;
    if Within(piece, buf) {
      PackKeepsBuf(heading, parts, buf, piece);
    } else {
      var next := if buf != "" && |buf| + |parts[0]| > TARGET_CHARS then parts[0] else Glue(buf, parts[0]);
      if piece == parts[0] {
        WithinGlue(piece, buf, parts[0]);
        PackKeepsBuf(heading, parts[1..], next, piece);
      } else {
        PackKeeps(heading, parts[1..], next, piece);
      }
      var p :| p in Pack(heading, parts[1..], next) && Within(piece, p.text);
      assert p in Pack(heading, parts, buf);
    }
  }

  lemma WithinGlue(piece: string, buf: string, part: string)
    ensures Within(piece, piece)
    ensures piece == part ==> Within(piece, Glue(buf, part))
    ensures Within(piece, buf) ==> Within(piece, Glue(buf, part))
  {
    assert StandsAt(piece, piece, 0);
    if piece == part && buf != "" {
      WithinAround(piece, part, buf + "\n", "");
      assert buf + "\n" + part + "" == Glue(buf, part);
    }
    if Within(piece, buf) && buf != "" {
      WithinAround(piece, buf, "", "\n" + part);
      assert "" + buf + ("\n" + part) == Glue(buf, part);
    }
  }

  lemma {:induction false} PackKeepsBuf(heading: string, parts: seq<string>, buf: string, piece: string)
    requires Trimmed(piece) && Within(piece, buf)
    ensures SomePassageHas(Pack(heading, parts, buf), piece)
  {
    hide Within, Trimmed;
    StripKeeps(piece, buf);
    if parts == [] || (buf != "" && |buf| + |parts[0]| > TARGET_CHARS) {
      assert Pack(heading, parts, buf)[0] == Passage(heading, Strip(buf));
    } else {
      WithinGlue(piece, buf, parts[0]);
      PackKeepsBuf(heading, parts[1..], Glue(buf, parts[0]), piece);
    }
  }

  lemma StripKeeps(piece: string, text: string)
    requires Trimmed(piece) && Within(piece, text)
    ensures Within(piece, Strip(text))
  {
    LeftStripKeeps(piece, text);
    RightStripKeeps(piece, LeftStrip(text));
  }

  lemma {:induction false} StripTrims(s: string)
    ensures Strip(s) != "" ==> Trimmed(Strip(s))
    ensures Within(Strip(s), s)
  {
    hide IsSpace;
    LeftStripEnd(s);
    RightStripEnd(LeftStrip(s));
    var l := LeftStrip(s);
    var k := |s| - |l|;
    assert l == s[k..] && Strip(s) == l[..|Strip(s)|];
    assert StandsAt(Strip(s), s, k);
  }

  lemma {:induction false} LeftStripEnd(s: string)
    ensures var l := LeftStrip(s);
            |l| <= |s| && l == s[|s| - |l|..] && (l != "" ==> !IsSpace(l[0]))
  {
    hide IsSpace;
    if s != "" && IsSpace(s[0]) {
      LeftStripEnd(s[1..]);
    }
  }

  lemma {:induction false} RightStripEnd(s: string)
    ensures var r := RightStrip(s);
            |r| <= |s| && r == s[..|r|] && (r != "" ==> !IsSpace(r[|r| - 1]))
  {
    hide IsSpace;
    if s != "" && IsSpace(s[|s| - 1]) {
      RightStripEnd(s[..|s| - 1]);
    }
  }

  lemma WithinTransitive(a: string, b: string, c: string)
    requires Within(a, b) && Within(b, c)
    ensures Within(a, c)
  {
    var i: nat :| StandsAt(a, b, i);
    var j: nat :| StandsAt(b, c, j);
    var l, h := j + i, j + i + |a|;
    assert b == c[j..j + |b|];
    assert forall k :: 0 <= k < |a| ==> a[k] == b[i + k] == c[l + k];
    assert c[l..h] == a;
    assert StandsAt(a, c, j + i);
  }

  lemma {:induction false} StrippedPieces(pieces: seq<string>, text: string)
    requires forall piece :: piece in pieces ==> Within(piece, text)
    ensures forall piece :: piece in StripAll(pieces) ==> Trimmed(piece) && Within(piece, text)
  {
    hide Strip, Within, Trimmed;
    if pieces != [] {
      StripTrims(pieces[0]);
      assert Within(pieces[0], text);
      WithinTransitive(Strip(pieces[0]), pieces[0], text);
      StrippedPieces(pieces[1..], text);
    }
  }

  lemma {:induction false} SlicesWithin(text: string, start: nat, marks: seq<nat>)
    requires start <= |text| && forall i :: 0 <= i < |marks| ==> marks[i] < |text|
    ensures forall piece :: piece in Slices(text, start, marks) ==> Within(piece, text)
    decreases |marks|
  {
    if marks == [] {
      assert StandsAt(text[start..], text, start);
    } else if marks[0] > start {
      assert StandsAt(text[start..marks[0]], text, start);
      SlicesWithin(text, marks[0], marks[1..]);
    } else {
      SlicesWithin(text, start, marks[1..]);
    }
  }

  lemma PiecesTrimmed(text: string, bullets: BulletFinder)
    requires GoodFinder(bullets) && Trimmed(text)
    ensures forall piece :: piece in SplitOnBullets(text, bullets(text)) ==> Trimmed(piece) && Within(piece, text)
  {
    hide Trimmed;
    var marks := bullets(text);
    assert GoodMarks(text, marks);
    if |marks| < 2 {
      assert StandsAt(text, text, 0);
    } else {
      SlicesWithin(text, 0, marks);
      StrippedPieces(Slices(text, 0, marks), text);
    }
  }

  lemma InkOfOne(c: char)
    requires !IsSpace(c)
    ensures Ink([c]) == [c]
  {
    hide IsSpace;
    assert [c][1..] == "";
  }

  lemma InkOfTrimmed(s: string)
    requires s != "" && (!IsSpace(s[0]) || !IsSpace(s[|s| - 1]))
    ensures Ink(s) != "" && Strip(s) != ""
  {
    hide IsSpace, Ink, Strip;
    var k := if IsSpace(s[0]) then |s| - 1 else 0;
    InkSplit(s, k);
    InkSplit(s[k..], 1);
    assert s[k..][..1] == [s[k]];
    InkOfOne(s[k]);
    InkStripped(s);
    InkOfNothing();
  }

  lemma SlicesFirst(text: string, marks: seq<nat>)
    requires GoodMarks(text, marks) && |marks| >= 2
    ensures var rest := if marks[0] > 0 then marks else marks[1..];
            && 0 < rest[0] < |text| && GoodMarks(text, rest[1..])
            && Slices(text, 0, marks) == [text[..rest[0]]] + Slices(text, rest[0], rest[1..])
  {
    assert marks[0] == 0 ==> Slices(text, 0, marks) == Slices(text, 0, marks[1..]);
  }

  lemma InkedPieces(pieces: seq<string>)
    requires InkAll(pieces) != ""
    ensures StripAll(pieces) != []
  {
    InkStripAll(pieces);
  }

  /** With two marks or more, a trimmed text falls into at least two pieces. */
  lemma TwoPieces(text: string, marks: seq<nat>)
    requires Trimmed(text) && GoodMarks(text, marks) && |marks| >= 2
    ensures |SplitOnBullets(text, marks)| >= 2
  {
    hide IsSpace, Strip, Slices, Ink, InkAll, GoodMarks;
    var rest := if marks[0] > 0 then marks else marks[1..];
    var m := rest[0];
    SlicesFirst(text, marks);
    var first, others := text[..m], Slices(text, m, rest[1..]);
    InkOfTrimmed(first);
    SlicesInk(text, m, rest[1..]);
    InkOfTrimmed(text[m..]);
    InkedPieces(others);
    assert ([first] + others)[1..] == others;
    assert StripAll([first] + others) == [Strip(first)] + StripAll(others);
  }

  lemma SlicesInk(text: string, start: nat, marks: seq<nat>)
    requires start <= |text| && GoodMarks(text, marks)
    ensures (forall i :: 0 <= i < |marks| ==> marks[i] < |text|) && InkAll(Slices(text, start, marks)) == Ink(text[start..])
  {
    InkSlices(text, start, marks);
  }

  function Cost(parts: seq<string>, extra: nat): nat {
    if parts == [] then 0 else |parts[0]| + extra + Cost(parts[1..], extra)
  }

  lemma {:induction false} PackCost(heading: string, parts: seq<string>, buf: string)
    ensures forall p :: p in Pack(heading, parts, buf) ==> |p.text| <= |buf| + Cost(parts, 1)
    decreases |parts|
  {
    hide Strip;
    StripShortens(buf);
    if parts != [] {
      if buf != "" && |buf| + |parts[0]| > TARGET_CHARS {
        PackCost(heading, parts[1..], parts[0]);
      } else {
        PackCost(heading, parts[1..], Glue(buf, parts[0]));
      }
    }
  }

  lemma {:induction false} BlocksCost(s: string)
    ensures Cost(Blocks(s), 2) <= |s| + 2
    decreases |s|
  {
    hide GapAt, Newlines;
    var i := GapAt(s);
    if i < |s| {
      var rest := s[i + Newlines(s[i..])..];
      BlocksCost(rest);
      assert ([s[..i]] + Blocks(rest))[1..] == Blocks(rest);
    } else {
      assert Blocks(s) == [s] && [s][1..] == [];
    }
  }

  lemma {:induction false} CostFacts(parts: seq<string>)
    ensures Cost(parts, 1) + |parts| == Cost(parts, 2)
    ensures Cost(NonBlank(parts), 1) <= Cost(parts, 1)
  {
    hide Strip;
    if parts != [] {
      CostFacts(parts[1..]);
      assert NonBlank(parts)[if Strip(parts[0]) != "" then 1 else 0..] == NonBlank(parts[1..]);
    }
  }

  /** Where the source may cut a text that has no bullets to split on. */
  predicate KeepsPieces(text: string, bullets: BulletFinder)
    requires GoodFinder(bullets)
  {
    Unsplit(text, bullets) || |bullets(text)| >= 2 || |Blocks(text)| == 1
  }

  /** A text over the ceiling with fewer than two bullets is cut at its blank lines, and then no
  passage holds all of it. */
  lemma BlankLinesCut(heading: string, text: string, bullets: BulletFinder)
    requires GoodFinder(bullets) && Trimmed(text) && !KeepsPieces(text, bullets)
    ensures SplitOnBullets(text, bullets(text)) == [text]
    ensures forall p :: p in Emit(heading, text, bullets) ==> |p.text| < |text|
    ensures !SomePassageHas(Emit(heading, text, bullets), text)
  {
    hide Strip, Trimmed, GoodFinder;
    var parts := NonBlank(Blocks(text));
    assert Emit(heading, text, bullets) == Pack(heading, parts, "");
    CostFacts(Blocks(text));
    BlocksCost(text);
    if parts == [] {
      StripShortens("");
    } else {
      PackCost(heading, parts[1..], parts[0]);
      assert Pack(heading, parts, "") == Pack(heading, parts[1..], parts[0]);
    }
  }

  lemma PiecesKept(heading: string, text: string, bullets: BulletFinder, piece: string)
    requires GoodFinder(bullets) && Trimmed(text) && KeepsPieces(text, bullets)
    requires piece in SplitOnBullets(text, bullets(text))
    ensures SomePassageHas(Emit(heading, text, bullets), piece)
  {
    hide Strip, Trimmed, Within, GoodMarks;
    PiecesTrimmed(text, bullets);
    if Unsplit(text, bullets) {
      assert Emit(heading, text, bullets)[0].text == text;
    } else if |bullets(text)| >= 2 {
      assert GoodMarks(text, bullets(text));
      TwoPieces(text, bullets(text));
      PackKeeps(heading, Parts(text, bullets), "", piece);
    } else {
      assert Blocks(text) == [text];
      TrimmedStays(text);
      assert NonBlank([text]) == [text] + NonBlank([]);
      assert Parts(text, bullets) == [text];
      PackKeeps(heading, [text], "", text);
    }
  }

  lemma TrimmedStays(s: string)
    requires Trimmed(s)
    ensures Strip(s) != ""
  {
    hide IsSpace, Strip;
    InkOfTrimmed(s);
  }

  /** Every piece that the source splits a text into stands uncut in one of its passages, exactly
  when the text is not one without bullets, over the ceiling, and with a blank line in it. */
  lemma PiecesKeptExactly(heading: string, text: string, bullets: BulletFinder)
    requires GoodFinder(bullets) && Trimmed(text)
    ensures (forall piece :: piece in SplitOnBullets(text, bullets(text)) ==>
               SomePassageHas(Emit(heading, text, bullets), piece))
            <==> KeepsPieces(text, bullets)
  {
    hide Emit, KeepsPieces, Trimmed, GoodMarks;
    if KeepsPieces(text, bullets) {
      forall piece | piece in SplitOnBullets(text, bullets(text))
        ensures SomePassageHas(Emit(heading, text, bullets), piece)
      {
        PiecesKept(heading, text, bullets, piece);
      }
    } else {
      BlankLinesCut(heading, text, bullets);
      assert text in SplitOnBullets(text, bullets(text));
    }
  }

  function Xs(n: nat): (s: string)
    ensures |s| == n && forall i :: 0 <= i < n ==> s[i] == 'x'
  {
    seq(n, i => 'x')
  }

  /** Two paragraphs of more than half the ceiling each. */
  function TwoParagraphs(): string {
    Xs(HARD_MAX / 2) + ("\n\n" + Xs(HARD_MAX / 2))
  }

  lemma {:induction false} GapBehind(s: string, rest: string)
    requires (forall i :: 0 <= i < |s| ==> s[i] == 'x') && Newlines(rest) >= 2
    ensures GapAt(s + rest) == |s|
  {
    if s == "" {
      assert s + rest == rest;
    } else {
      assert (s + rest)[1..] == s[1..] + rest;
      GapBehind(s[1..], rest);
    }
  }

  /** There are such texts: two long paragraphs without a bullet are cut between them. */
  lemma ParagraphsCut(heading: string, bullets: BulletFinder)
    requires GoodFinder(bullets) && bullets(TwoParagraphs()) == []
    ensures Trimmed(TwoParagraphs()) && !KeepsPieces(TwoParagraphs(), bullets)
    ensures !SomePassageHas(Emit(heading, TwoParagraphs(), bullets), TwoParagraphs())
  {
    hide Strip, Emit, GoodFinder, TwoParagraphs, SplitOnBullets, Blocks, Trimmed, SomePassageHas;
    var text := TwoParagraphs();
    ParagraphsTrimmed();
    ParagraphBlocks();
    BlankLinesCut(heading, text, bullets);
  }

  lemma ParagraphsTrimmed()
    ensures Trimmed(TwoParagraphs()) && |TwoParagraphs()| > HARD_MAX
  {
    hide Xs;
    var text := TwoParagraphs();
    assert text[0] == 'x' && text[|text| - 1] == 'x';
  }

  lemma ParagraphBlocks()
    ensures |Blocks(TwoParagraphs())| > 1
  {
    hide Xs;
    var rest := "\n\n" + Xs(HARD_MAX / 2);
    assert rest[1..][0] == '\n' && Newlines(rest) >= 2;
    GapBehind(Xs(HARD_MAX / 2), rest);
  }

  // ------------------------------------------------ pieces over a whole run

  lemma TextAtTrimmed(sections: seq<Section>, i: nat, bullets: BulletFinder)
    requires GoodFinder(bullets) && i < |sections| && Strip(sections[i].text) != ""
    ensures Trimmed(TextAt(sections, i, bullets))
  {
    hide Strip, IsSpace, Process, GoodFinder;
    StripTrims(sections[i].text);
    CarryTrimmed(sections[..i], bullets);
  }

  lemma {:induction false} CarryTrimmed(sections: seq<Section>, bullets: BulletFinder)
    requires GoodFinder(bullets)
    ensures var carry := Process(sections, bullets).carryText; carry == "" || Trimmed(carry)
  {
    hide Strip, IsSpace, Emit, GoodFinder, MergeHeadings, HeadingOf;
    if sections != [] {
      CarryTrimmed(sections[..|sections| - 1], bullets);
      StripTrims(sections[|sections| - 1].text);
    }
  }

  /** What was put out stays, up to the text appended to the last passage. */
  lemma {:induction false} OutStays(sections: seq<Section>, i: nat, bullets: BulletFinder, piece: string)
    requires GoodFinder(bullets) && i <= |sections|
    requires SomePassageHas(Process(sections[..i], bullets).out, piece)
    ensures SomePassageHas(Process(sections, bullets).out, piece)
  {
    hide Emit, Within, Joined, GoodFinder, Strip;
    if i == |sections| {
      assert sections[..i] == sections;
    } else {
      var front := sections[..|sections| - 1];
      assert sections[..i] == front[..i];
      OutStays(front, i, bullets, piece);
      var p :| p in Process(front, bullets).out && Within(piece, p.text);
      assert p in Process(sections, bullets).out;
    }
  }

  lemma FinishKeeps(st: Chunking, piece: string)
    requires SomePassageHas(st.out, piece)
    ensures SomePassageHas(Finish(st), piece)
  {
    hide Within;
    var k :| 0 <= k < |st.out| && Within(piece, st.out[k].text);
    if st.carryText != "" && k == |st.out| - 1 {
      WithinAround(piece, st.out[k].text, "", "\n" + st.carryText);
      assert "" + st.out[k].text + ("\n" + st.carryText) == st.out[k].text + "\n" + st.carryText;
    }
    assert Finish(st)[k] in Finish(st);
  }

  /** In every run: each piece of each text that was long enough to be chunked ends up uncut in a
  passage, unless the text is one that is cut at blank lines. */
  lemma ChunksKeepPieces(sections: seq<Section>, i: nat, bullets: BulletFinder, piece: string)
    requires GoodFinder(bullets) && i < |sections| && Strip(sections[i].text) != ""
    requires var text := TextAt(sections, i, bullets);
             && |text| >= MIN_CHARS && KeepsPieces(text, bullets)
             && piece in SplitOnBullets(text, bullets(text))
    ensures SomePassageHas(Chunks(sections, bullets), piece)
  {
    hide Emit, KeepsPieces, GoodFinder, Strip, Finish, SplitOnBullets, Within, Trimmed, MergeHeadings, HeadingOf;
    var st := Process(sections[..i], bullets);
    var p := Joined(st, sections[i]);
    TextAtTrimmed(sections, i, bullets);
    PiecesKept(p.heading, p.text, bullets, piece);
    assert sections[..i + 1][..i] == sections[..i];
    assert Process(sections[..i + 1], bullets).out == st.out + Emit(p.heading, p.text, bullets);
    var q :| q in Emit(p.heading, p.text, bullets) && Within(piece, q.text);
    assert q in Process(sections[..i + 1], bullets).out;
    OutStays(sections, i + 1, bullets, piece);
    FinishKeeps(Process(sections, bullets), piece);
  }

  // -------------------------------------------------------------- headings

  const ELLIPSIS: string := " \U{2026}"

  predicate BetweenWords(c: char) {
    c in [' ', ',', ';', '/', '-']
  }

  lemma {:induction false} LastSpace(s: string)
    ensures var p := BeforeLastSpace(s); p == s || s[|p|] == ' '
    ensures (exists i :: 0 <= i < |s| && s[i] == ' ') ==> BeforeLastSpace(s) != s
    ensures (exists i :: 0 < i < |s| && s[i] == ' ') ==> BeforeLastSpace(s) != ""
  {
    if (exists i :: 0 <= i < |s| && s[i] == ' ') && s[|s| - 1] != ' ' {
      LastSpace(s[..|s| - 1]);
      var i :| 0 <= i < |s| && s[i] == ' ';
      assert s[..|s| - 1][i] == ' ';
      assert forall j :: 0 < j < |s| && s[j] == ' ' ==> s[..|s| - 1][j] == ' ';
    }
  }

  lemma {:induction false} TrimmedBack(s: string)
    ensures var p := TrimTail(s); p == s || BetweenWords(s[|p|])
  {
    if s != "" && BetweenWords(s[|s| - 1]) {
      TrimmedBack(s[..|s| - 1]);
    }
  }

  /** `p` is a beginning of the heading that ends between two words. */
  predicate WholeWords(p: string, heading: string) {
    p <= heading && (p == heading || BetweenWords(heading[|p|]))
  }

  /** Merging never makes a heading longer than the limit and an ellipsis.  It gives both names, or
  a beginning of the first one that is cut between words, unless its first 70 characters are one word. */
  lemma MergedHeading(carried: string, following: string)
    requires carried != ""
    ensures var r := MergeHeadings(carried, following);
            && |r| <= MAX_HEADING + 2
            && (r == carried + " / " + following
                || exists p :: p <= carried && r == p + ELLIPSIS
                               && (WholeWords(p, carried)
                                   || forall i :: 0 < i < MAX_HEADING && i < |carried| ==> carried[i] != ' '))
  {
    if |carried + " / " + following| > MAX_HEADING {
      if |carried| <= MAX_HEADING {
        assert WholeWords(carried, carried);
      } else {
        var front := carried[..MAX_HEADING];
        var clipped := BeforeLastSpace(front);
        var kept := if clipped != "" then clipped else front;
        LastSpace(front);
        TrimmedBack(kept);
        var p := TrimTail(kept);
        assert p <= carried;
        if i :| 0 < i < MAX_HEADING && carried[i] == ' ' {
          assert front[i] == ' ';
          assert kept == clipped && front[|clipped|] == ' ';
          assert WholeWords(p, carried);
        }
      }
    }
  }
}
