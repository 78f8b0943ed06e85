/** `_figure_is_published` of assistant/answering/answer.py: a search anchored by lookarounds,
and the tokeniser it agrees with. */
module Figures {
  import opened Decimals

  predicate DigitAt(s: string, i: int) {
    0 <= i < |s| && IsDigit(s[i])
  }

  predicate DotAt(s: string, i: int) {
    0 <= i < |s| && s[i] == '.'
  }

  // ------------------------------------------------------ the anchored search

  /** `(?<!\d)(?<!\d\.)` in front of position `i`. */
  predicate LeftFree(s: string, i: int) {
    !DigitAt(s, i - 1) && !(DigitAt(s, i - 2) && DotAt(s, i - 1))
  }

  /** `(?!\d)(?!\.\d)` at position `i`. */
  predicate RightFree(s: string, i: int) {
    !DigitAt(s, i) && !(DotAt(s, i) && DigitAt(s, i + 1))
  }

  predicate StandsAlone(token: string, passage: string, i: nat) {
    && i + |token| <= |passage| && passage[i..i + |token|] == token
    && LeftFree(passage, i) && RightFree(passage, i + |token|)
  }

  ghost predicate FigureIsPublished(token: string, passage: string) {
    exists i: nat :: StandsAlone(token, passage, i)
  }

  // ------------------------------------------------------------ the tokeniser

  function DigitRun(s: string): (n: nat)
    ensures n <= |s| && !DigitAt(s, n)
    ensures forall i :: 0 <= i < n ==> IsDigit(s[i])
  {
    if s != "" && IsDigit(s[0]) then 1 + DigitRun(s[1..]) else 0
  }

  /** Length of the longest number at the start: digit runs joined by dots between digits. */
  function Munch(s: string): (n: nat)
    ensures n <= |s|
    ensures DigitAt(s, 0) ==> n > 0 && DigitAt(s, n - 1) && RightFree(s, n)
    decreases |s|
  {
    var n := DigitRun(s);
    if n > 0 && DotAt(s, n) && DigitAt(s, n + 1) then
      var rest := s[n + 1..];
      var m := Munch(rest);
      MunchShift(s, n + 1, m);
      n + 1 + m
    else n
  }

  lemma MunchShift(s: string, k: nat, m: nat)
    requires k <= |s| && m <= |s| - k
    ensures RightFree(s[k..], m) ==> RightFree(s, k + m)
    ensures m > 0 && DigitAt(s[k..], m - 1) ==> DigitAt(s, k + m - 1)
    ensures DigitAt(s[k..], 0) <==> DigitAt(s, k)
  {
  }

  /** The number literals of a text, in order. */
  function Literals(s: string): seq<string>
    decreases |s|
  {
    if s == "" then []
    else if IsDigit(s[0]) then [s[..Munch(s)]] + Literals(s[Munch(s)..])
    else Literals(s[1..])
  }

  /** A number token: digits, possibly in several runs joined by single dots. */
  predicate IsNumber(token: string) {
    DigitAt(token, 0) && Munch(token) == |token|
  }

  // --------------------------------------------------------- what munching does

  /** Inside a munched number every digit is pressed against an earlier one. */
  lemma {:induction false} InsideMunch(s: string, k: nat)
    requires 0 < k < Munch(s) && DigitAt(s, k)
    ensures !LeftFree(s, k)
    decreases |s|
  {
    hide DigitRun, RightFree;
    var n := DigitRun(s);
    if k > n + 1 {
      var rest := s[n + 1..];
      InsideMunch(rest, k - n - 1);
    }
  }

  /** A number that starts a text and has nothing pressed against its end is what is munched. */
  lemma {:induction false} MunchUnique(s: string, token: string)
    requires IsNumber(token) && token <= s && RightFree(s, |token|)
    ensures Munch(s) == |token|
    decreases |s|
  {
    var n := DigitRun(token);
    DigitRunPrefix(s, token);
    if DotAt(token, n) && DigitAt(token, n + 1) {
      assert token[n + 1..] <= s[n + 1..];
      MunchUnique(s[n + 1..], token[n + 1..]);
    }
  }

  lemma {:induction false} DigitRunPrefix(s: string, token: string)
    requires token <= s && (DigitRun(token) < |token| || !DigitAt(s, |token|))
    ensures DigitRun(s) == DigitRun(token)
  {
    if token != "" && IsDigit(token[0]) {
      DigitRunPrefix(s[1..], token[1..]);
    }
  }

  /** Within a munched number what is no digit is a dot between two digits. */
  lemma {:induction false} DotInMunch(s: string, k: nat)
    requires 0 < k < Munch(s) && !DigitAt(s, k)
    ensures DigitAt(s, k - 1) && DotAt(s, k) && DigitAt(s, k + 1)
    decreases |s|
  {
    hide DigitRun, RightFree;
    var n := DigitRun(s);
    if k > n {
      var rest := s[n + 1..];
      DotInMunch(rest, k - n - 1);
    }
  }

  /** A beginning of a text that holds its first number munches the same number. */
  lemma {:induction false} MunchBeginning(s: string, k: nat)
    requires Munch(s) <= k <= |s|
    ensures Munch(s[..k]) == Munch(s)
    decreases |s|
  {
    hide RightFree, DigitRun;
    var n := DigitRun(s);
    RunBeginning(s, k) by { RunIsMunched(s); }
    if n > 0 && DotAt(s, n) && DigitAt(s, n + 1) {
      assert DigitAt(s[n + 1..], 0);
      assert s[..k][n + 1..] == s[n + 1..][..k - n - 1];
      MunchBeginning(s[n + 1..], k - n - 1);
    }
  }

  lemma RunIsMunched(s: string)
    ensures DigitRun(s) <= Munch(s)
  {
  }

  lemma {:induction false} RunBeginning(s: string, k: nat)
    requires DigitRun(s) <= k <= |s|
    ensures DigitRun(s[..k]) == DigitRun(s)
  {
    if s != "" && IsDigit(s[0]) {
      assert s[..k][1..] == s[1..][..k - 1];
      RunBeginning(s[1..], k - 1);
    }
  }

  // ------------------------------------------------ where the numbers start

  /** Position `i` is not in the middle of a number of `p`. */
  predicate Boundary(p: string, i: nat) {
    && i <= |p|
    && (DigitAt(p, i - 1) ==> RightFree(p, i))
    && (DigitAt(p, i) ==> LeftFree(p, i))
  }

  /** Where the number literals start that are read from position `i` on. */
  function Starts(p: string, i: nat): seq<nat>
    requires i <= |p|
    decreases |p| - i
  {
    if i == |p| then []
    else if IsDigit(p[i]) then [i] + Starts(p, i + Munch(p[i..]))
    else Starts(p, i + 1)
  }

  /** The literal that starts at `i`. */
  function LiteralAt(p: string, i: nat): string
    requires i <= |p|
  {
    p[i..i + Munch(p[i..])]
  }

  lemma {:induction false} StartsBounded(p: string, i: nat)
    requires i <= |p|
    ensures forall j :: j in Starts(p, i) ==> i <= j < |p| && DigitAt(p, j)
    decreases |p| - i
  {
    hide Munch;
    if i < |p| {
      if IsDigit(p[i]) {
        FirstMunch(p, i);
        StartsBounded(p, i + Munch(p[i..]));
      } else {
        StartsBounded(p, i + 1);
      }
    }
  }

  lemma FirstMunch(p: string, i: nat)
    requires DigitAt(p, i)
    ensures 0 < Munch(p[i..]) <= |p| - i
  {
  }

  /** The literals of a text stand at these places, in order. */
  lemma {:induction false} LiteralsStand(p: string, i: nat)
    requires i <= |p|
    ensures |Literals(p[i..])| == |Starts(p, i)|
    ensures forall k :: 0 <= k < |Starts(p, i)| ==>
              Starts(p, i)[k] <= |p| && Literals(p[i..])[k] == LiteralAt(p, Starts(p, i)[k])
    decreases |p| - i
  {
    hide Munch, LiteralAt, Literals, Starts;
    NumberSteps(p, i);
    if i < |p| {
      LiteralsStand(p, if IsDigit(p[i]) then i + Munch(p[i..]) else i + 1);
    }
  }

  lemma NumberSteps(p: string, i: nat)
    requires i <= |p|
    ensures i == |p| ==> Literals(p[i..]) == [] && Starts(p, i) == []
    ensures DigitAt(p, i) ==>
              var next := i + Munch(p[i..]);
              i < next <= |p| && Literals(p[i..]) == [LiteralAt(p, i)] + Literals(p[next..]) && Starts(p, i) == [i] + Starts(p, next)
    ensures i < |p| && !DigitAt(p, i) ==> Literals(p[i..]) == Literals(p[i + 1..]) && Starts(p, i) == Starts(p, i + 1)
  {
    hide Munch;
    if i < |p| {
      var s := p[i..];
      if IsDigit(p[i]) {
        var n := Munch(s);
        FirstMunch(p, i);
        assert s[n..] == p[i + n..] && s[..n] == p[i..i + n];
      } else {
        assert s[1..] == p[i + 1..];
      }
    }
  }

  lemma BoundaryAfter(p: string, i: nat)
    requires DigitAt(p, i)
    ensures var n := Munch(p[i..]); n > 0 && Boundary(p, i + n)
  {
    MunchShift(p, i, Munch(p[i..]));
  }

  lemma BoundaryNext(p: string, i: nat)
    requires Boundary(p, i) && i < |p| && !DigitAt(p, i)
    ensures Boundary(p, i + 1)
  {
  }

  lemma RightFreeShift(p: string, i: nat, k: nat)
    requires i + k <= |p|
    ensures RightFree(p[i..], k) == RightFree(p, i + k)
  {
  }

  lemma LeftFreeShift(p: string, i: nat, k: nat)
    requires i + k <= |p| && k > 0
    ensures !LeftFree(p[i..], k) ==> !LeftFree(p, i + k)
  {
  }

  lemma PressedInside(p: string, i: nat, at: nat)
    requires DigitAt(p, i) && i < at < i + Munch(p[i..]) && DigitAt(p, at)
    ensures !LeftFree(p, at)
  {
    hide Munch, LeftFree, RightFree;
    var s := p[i..];
    assert DigitAt(s, at - i);
    InsideMunch(s, at - i);
    LeftFreeShift(p, i, at - i);
  }

  lemma StartsNext(p: string, i: nat)
    requires DigitAt(p, i)
    ensures i + Munch(p[i..]) <= |p| && Starts(p, i) == [i] + Starts(p, i + Munch(p[i..]))
  {
    hide Munch, Literals, LiteralAt, RightFree;
    NumberSteps(p, i);
  }

  /** Inside the number that starts at `i` no other starts, and every digit has something in front. */
  lemma NoneInside(p: string, i: nat, at: nat)
    requires DigitAt(p, i) && i < at < i + Munch(p[i..]) && DigitAt(p, at)
    ensures at !in Starts(p, i) && !LeftFree(p, at)
  {
    hide Munch, LeftFree, RightFree, Starts, DigitAt;
    PressedInside(p, i, at);
    StartsNext(p, i);
    StartsBounded(p, i + Munch(p[i..]));
  }

  /** A digit with nothing pressed against its front starts a number, and no other digit does. */
  lemma {:induction false} StartsWhen(p: string, i: nat, at: nat)
    requires Boundary(p, i) && i <= at && DigitAt(p, at)
    ensures at in Starts(p, i) <==> LeftFree(p, at)
    decreases |p| - i
  {
    hide Munch, RightFree, LeftFree, Starts;
    NumberSteps(p, i);
    if DigitAt(p, i) {
      var n := Munch(p[i..]);
      BoundaryAfter(p, i);
      if at >= i + n {
        StartsWhen(p, i + n, at);
      } else if at > i {
        NoneInside(p, i, at);
      }
    } else {
      BoundaryNext(p, i);
      StartsWhen(p, i + 1, at);
    }
  }

  // ------------------------------------------------------------- main results

  predicate Occurs(token: string, p: string, i: nat) {
    i + |token| <= |p| && p[i..i + |token|] == token
  }

  lemma OccursFirst(token: string, p: string, i: nat)
    requires DigitAt(token, 0) && Occurs(token, p, i)
    ensures DigitAt(p, i)
  {
    assert p[i] == p[i..i + |token|][0] == token[0];
  }

  /** A token that stands in the passage from the start of one of its numbers on, with nothing pressed
  against its end. */
  ghost predicate StandsWhole(token: string, p: string, i: nat) {
    i in Starts(p, 0) && Occurs(token, p, i) && RightFree(p, i + |token|)
  }

  lemma StandsAloneWhen(token: string, p: string, i: nat)
    requires DigitAt(token, 0)
    ensures StandsAlone(token, p, i) <==> StandsWhole(token, p, i)
  {
    hide Munch, RightFree, LeftFree;
    if Occurs(token, p, i) {
      OccursFirst(token, p, i);
      NothingBefore(p);
      StartsWhen(p, 0, i);
    }
  }

  lemma NothingBefore(p: string)
    ensures Boundary(p, 0)
  {
  }

  /** For every token that begins with a digit, units and ranges included, and every passage: the
  figure is accepted exactly when it stands in the passage from the start of one of its number
  literals on, and neither a digit nor a decimal point is pressed against its end. */
  lemma FigureExactly(token: string, passage: string)
    requires DigitAt(token, 0)
    ensures FigureIsPublished(token, passage) <==> exists i: nat :: StandsWhole(token, passage, i)
  {
    hide StandsAlone, StandsWhole;
    forall i: nat
      ensures StandsAlone(token, passage, i) <==> StandsWhole(token, passage, i)
    {
      StandsAloneWhen(token, passage, i);
    }
  }

  lemma BoundaryShift(p: string, i: nat, k: nat)
    requires i <= k && Boundary(p, k)
    ensures Boundary(p[i..], k - i)
  {
  }

  /** No number reaches across a boundary. */
  lemma MunchStops(p: string, k: nat)
    requires DigitAt(p, 0) && 0 < k && Boundary(p, k)
    ensures 0 < Munch(p) <= k
  {
    var n := Munch(p);
    if k < n {
      if DigitAt(p, k) {
        InsideMunch(p, k);
      } else {
        DotInMunch(p, k);
      }
    }
  }

  /** Cutting a text at a boundary cuts its list of number literals in two. */
  lemma {:induction false} LiteralsCut(p: string, k: nat)
    requires Boundary(p, k)
    ensures Literals(p) == Literals(p[..k]) + Literals(p[k..])
    decreases |p|
  {
    hide Munch, Boundary, RightFree, LeftFree;
    if k == 0 {
      assert p[0..] == p && p[..0] == "";
    } else if p != "" && IsDigit(p[0]) {
      var n := Munch(p);
      WithinText(p, k);
      MunchStops(p, k);
      BoundaryShift(p, n, k);
      LiteralsCut(p[n..], k - n);
      BeginningLiterals(p, k);
      assert p[n..][k - n..] == p[k..];
    } else {
      WithinText(p, k);
      BoundaryShift(p, 1, k);
      LiteralsCut(p[1..], k - 1);
      assert p[..k][1..] == p[1..][..k - 1] && p[1..][k - 1..] == p[k..];
    }
  }

  lemma LiteralsStep(s: string)
    requires DigitAt(s, 0)
    ensures 0 < Munch(s) <= |s| && Literals(s) == [s[..Munch(s)]] + Literals(s[Munch(s)..])
  {
    hide Munch, RightFree;
    FirstMunch(s, 0);
    assert s[0..] == s;
  }

  /** A beginning that holds a text's first number has it as its first literal. */
  lemma BeginningLiterals(p: string, k: nat)
    requires DigitAt(p, 0) && Munch(p) <= k <= |p|
    ensures 0 < Munch(p) && Literals(p) == [p[..Munch(p)]] + Literals(p[Munch(p)..])
    ensures Literals(p[..k]) == [p[..Munch(p)]] + Literals(p[Munch(p)..][..k - Munch(p)])
  {
    hide Munch, RightFree, Literals;
    var n := Munch(p);
    LiteralsStep(p);
    MunchBeginning(p, k);
    LiteralsStep(p[..k]);
    assert p[..k][n..] == p[n..][..k - n] && p[..k][..n] == p[..n];
  }

  lemma WithinText(p: string, k: nat)
    requires Boundary(p, k)
    ensures k <= |p|
  {
  }

  /** A figure that is accepted somewhere breaks no number there: the passage's literals are those
  in front of it, its own, and those behind it. */
  lemma AloneBreaksNothing(token: string, p: string, i: nat)
    requires DigitAt(token, 0) && StandsAlone(token, p, i)
    ensures Literals(p) == Literals(p[..i]) + Literals(token) + Literals(p[i + |token|..])
  {
    hide Literals;
    OccursFirst(token, p, i);
    LiteralsCut(p, i);
    var rest := p[i..];
    BoundaryShift(p, i, i + |token|);
    LiteralsCut(rest, |token|);
    assert rest[..|token|] == token && rest[|token|..] == p[i + |token|..];
  }

  /** `part` is a run of consecutive elements. */
  ghost predicate IsRun(part: seq<string>, whole: seq<string>) {
    exists before, after :: whole == before + part + after
  }

  /** So the numbers of an accepted figure, units and ranges or not, are whole numbers of the passage
  that follow each other there: no figure passes as the tail or the head of another. */
  lemma PublishedIsRun(token: string, passage: string)
    requires DigitAt(token, 0) && FigureIsPublished(token, passage)
    ensures IsRun(Literals(token), Literals(passage))
  {
    hide Literals;
    var i: nat :| StandsAlone(token, passage, i);
    AloneBreaksNothing(token, passage, i);
  }

  /** A figure with a unit breaks no number wherever it stands from the start of a number on; yet it
  is accepted there exactly if neither a digit nor a decimal point follows the unit. */
  lemma UnitOccurs(token: string, p: string, i: nat)
    requires DigitAt(token, 0) && !IsDigit(token[|token| - 1]) && token[|token| - 1] != '.'
    requires i in Starts(p, 0) && Occurs(token, p, i)
    ensures Literals(p) == Literals(p[..i]) + Literals(token) + Literals(p[i + |token|..])
    ensures StandsAlone(token, p, i) <==> RightFree(p, i + |token|)
  {
    hide Literals, Munch;
    StandsAloneWhen(token, p, i);
    OccursFirst(token, p, i);
    NothingBefore(p);
    StartsWhen(p, 0, i);
    LiteralsCut(p, i);
    var k := i + |token|;
    assert p[k - 1] == p[i..k][|token| - 1];
    assert Boundary(p, k);
    BoundaryShift(p, i, k);
    LiteralsCut(p[i..], |token|);
    assert p[i..][..|token|] == token && p[i..][|token|..] == p[k..];
  }

  /** Where a passage gives "25 kg. 3 coats", which is compared without its spaces, the published
  figure is refused; where nothing follows the point, it is accepted. */
  lemma PressedUnit()
    ensures !FigureIsPublished("25kg", "25kg.3coats") && FigureIsPublished("25kg", "25kg.")
  {
    if FigureIsPublished("25kg", "25kg.3coats") {
      var i: nat :| StandsAlone("25kg", "25kg.3coats", i);
      OnlyAtFront(i);
    }
    assert StandsAlone("25kg", "25kg.", 0);
  }

  lemma OnlyAtFront(i: nat)
    ensures !StandsAlone("25kg", "25kg.3coats", i)
  {
    if i > 0 && i + 4 <= 11 {
      assert "25kg.3coats"[i..i + 4][0] == "25kg.3coats"[i];
    }
  }

  /** The tail of a published figure with a unit is refused, an end of a published range is not. */
  lemma DocumentedCases()
    ensures !FigureIsPublished("5kg", "25kg") && !FigureIsPublished("6", "16") && FigureIsPublished("6", "5-6")
  {
    if FigureIsPublished("5kg", "25kg") {
      var i: nat :| StandsAlone("5kg", "25kg", i);
      NeverTail(i);
    }
    assert StandsAlone("6", "5-6", 2);
  }

  lemma NeverTail(i: nat)
    ensures !StandsAlone("5kg", "25kg", i)
  {
    if i + 3 <= 4 {
      assert "25kg"[i..i + 3][0] == "25kg"[i];
    }
  }

  // ------------------------------------------------------------ bare numbers

  /** A bare number that stands alone is the whole literal there, and the other way round. */
  lemma NumberStands(token: string, p: string, i: nat)
    requires IsNumber(token) && i in Starts(p, 0) && i <= |p|
    ensures StandsWhole(token, p, i) <==> LiteralAt(p, i) == token
  {
    hide Starts;
    StartsDigit(p, i);
    var s := p[i..];
    if StandsWhole(token, p, i) {
      assert s[..|token|] == p[i..i + |token|];
      RightFreeShift(p, i, |token|);
      MunchUnique(s, token);
    }
    if LiteralAt(p, i) == token {
      RightFreeShift(p, i, Munch(s));
    }
  }

  lemma StartsDigit(p: string, i: nat)
    requires i in Starts(p, 0)
    ensures DigitAt(p, i)
  {
    StartsBounded(p, 0);
  }

  /** For every bare number and every passage: the figure is accepted exactly when it is a whole
  number literal of the passage. */
  lemma PublishedExactly(token: string, passage: string)
    requires IsNumber(token)
    ensures FigureIsPublished(token, passage) <==> token in Literals(passage)
  {
    hide Starts, Literals, Munch, StandsWhole, FigureIsPublished, LiteralAt;
    FigureExactly(token, passage);
    LiteralsStand(passage, 0);
    StartsBounded(passage, 0);
    assert passage[0..] == passage;
    StartOfWhole(token, passage);
    forall i: nat | i in Starts(passage, 0)
      ensures StandsWhole(token, passage, i) <==> LiteralAt(passage, i) == token
    {
      NumberStands(token, passage, i);
    }
    if token in Literals(passage) {
      var k :| 0 <= k < |Literals(passage)| && Literals(passage)[k] == token;
      assert StandsWhole(token, passage, Starts(passage, 0)[k]);
    }
  }

  lemma StartOfWhole(token: string, p: string)
    ensures forall i: nat :: StandsWhole(token, p, i) ==> i in Starts(p, 0)
  {
  }

  // ------------------------------------------------- what the checks ask about

  /** Digits, or digits, a point and digits, are a bare number. */
  lemma FormsAreNumbers(whole: string, fraction: string)
    requires whole != "" && AllDigits(whole) && AllDigits(fraction)
    ensures IsNumber(if fraction == "" then whole else whole + "." + fraction)
  {
    var token := if fraction == "" then whole else whole + "." + fraction;
    AllDigitsRun(whole);
    DigitRunPrefix(token, whole);
    if fraction != "" {
      AllDigitsRun(fraction);
      assert token[|whole| + 1..] == fraction;
      assert token[|whole| + 1] == fraction[0];
    }
  }

  /** A figure as the checks compare it: a number, perhaps a second one behind a hyphen, perhaps a unit. */
  function Figure(low: string, high: string, unit: string): string {
    low + ((if high == "" then "" else "-" + high) + unit)
  }

  /** Such a figure begins with a digit, and its literals are its numbers and those of its unit. */
  lemma FormsAreFigures(low: string, high: string, unit: string)
    requires IsNumber(low) && (high == "" || IsNumber(high))
    requires unit == "" || (!IsDigit(unit[0]) && unit[0] != '.')
    ensures var token := Figure(low, high, unit);
            && DigitAt(token, 0)
            && Literals(token) == [low] + (if high == "" then [] else [high]) + Literals(unit)
  {
    hide Literals, Munch, IsNumber;
    NumberLiteral(low);
    if high == "" {
      assert Figure(low, high, unit) == low + unit;
      NumberThen(low, unit);
    } else {
      NumberLiteral(high);
      var rest := ['-'] + (high + unit);
      assert Figure(low, high, unit) == low + rest;
      NumberThen(low, rest);
      HyphenSkipped(high + unit);
      NumberThen(high, unit);
    }
  }

  lemma HyphenSkipped(s: string)
    ensures Literals(['-'] + s) == Literals(s)
  {
    assert (['-'] + s)[1..] == s;
  }

  lemma NumberLiteral(number: string)
    requires IsNumber(number)
    ensures DigitAt(number, 0) && DigitAt(number, |number| - 1) && Literals(number) == [number]
  {
    assert number[..|number|] == number && number[|number|..] == "";
  }

  /** A number in front of something that is neither a digit nor a point. */
  lemma NumberThen(number: string, rest: string)
    requires DigitAt(number, |number| - 1) && (rest == "" || (!IsDigit(rest[0]) && rest[0] != '.'))
    ensures Literals(number + rest) == Literals(number) + Literals(rest)
  {
    var p := number + rest;
    LiteralsCut(p, |number|);
    assert p[..|number|] == number && p[|number|..] == rest;
  }

  lemma {:induction false} AllDigitsRun(s: string)
    requires AllDigits(s)
    ensures DigitRun(s) == |s|
  {
    if s != "" {
      AllDigitsRun(s[1..]);
    }
  }
}
