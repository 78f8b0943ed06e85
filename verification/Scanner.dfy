/** `salvage` of assistant/answering/vision.py: a one-pass scanner that keeps what completed
in a response cut short, and the proof of what it keeps for every response and every cut. */
module Scanner {
  import opened Wrappers
  import opened JsonText
  import opened JsonParser

  /** The scanner's variables; `closed` records that the loop was left by its `break`. */
  datatype Scan = Scan(depth: nat, inString: bool, escaped: bool, ends: seq<nat>, closed: bool)

  /** What comes back: the list recovered, if any, and the flag saying that the text was cut. */
  datatype Salvaged = Salvaged(observations: Option<seq<Value>>, cut: bool)

  /** The name that the scanner looks for, with its quotes. */
  function Marker(): string {
    ['"'] + Field() + ['"']
  }

  function Field(): string {
    "observations"
  }

  function Step(st: Scan, c: char, at: nat): Scan {
    if st.closed then st
    else if st.escaped then st.(escaped := false)
    else if c == '\\' then st.(escaped := st.inString)
    else if c == '"' then st.(inString := !st.inString)
    else if st.inString then st
    else if c == '{' || c == '[' then st.(depth := st.depth + 1)
    else if c == '}' || c == ']' then
      if st.depth == 0 then st.(closed := true)
      else if st.depth == 1 && c == '}' then st.(depth := 0, ends := st.ends + [at])
      else st.(depth := st.depth - 1)
    else st
  }

  /** The state after scanning `s`, whose first character stands at position `at`. */
  function Run(st: Scan, s: string, at: nat): Scan
    decreases |s|
  {
    if s == "" then st else Run(Step(st, s[0], at), s[1..], at + 1)
  }

  function Out(depth: nat, ends: seq<nat>): Scan {
    Scan(depth, false, false, ends, false)
  }

  /** `str.find`: the first place at or after `from` where `pattern` stands. */
  function Find(s: string, pattern: string, from: nat): (r: Option<nat>)
    ensures r.Some? ==> from <= r.value && r.value + |pattern| <= |s|
    ensures r.Some? ==> s[r.value..r.value + |pattern|] == pattern
    decreases |s| - from
  {
    if from + |pattern| > |s| then None
    else if s[from..from + |pattern|] == pattern then Some(from)
    else if from == |s| then None
    else Find(s, pattern, from + 1)
  }

  function Rebuild(fragment: string): Salvaged {
    match Loads(fragment)
    case None => Salvaged(None, true)
    case Some(v) => if IsArray(v) then Salvaged(Some(ArrayValues(v)), true) else Salvaged(None, true)
  }

  /** What `salvage` returns, as a function of the text. */
  function Salvage(body: string): Salvaged {
    match Find(body, Marker(), 0)
    case None => Salvaged(None, false)
    case Some(start) =>
      match Find(body, "[", start)
      case None => Salvaged(None, false)
      case Some(open) =>
        var ends := Run(Out(0, []), body[open + 1..], open + 1).ends;
        if ends == [] then Salvaged(None, true)
        else if open <= ends[|ends| - 1] < |body| then Rebuild(body[open..ends[|ends| - 1] + 1] + "]")
        else Salvaged(None, true)
  }

  /** The scanning loop of the source, which leaves at the bracket that closes the array. */
  method ScanEnds(body: string, open: nat) returns (ends: seq<nat>)
    requires open < |body|
    ensures ends == Run(Out(0, []), body[open + 1..], open + 1).ends
    ensures forall e :: e in ends ==> open < e < |body|
  {
    var depth: nat, inString, escaped := 0, false, false;
    ends := [];
    var index := open + 1;
    while index < |body|
      invariant open < index <= |body|
      invariant forall e :: e in ends ==> open < e < |body|
      invariant Run(Out(0, []), body[open + 1..], open + 1)
             == Run(Scan(depth, inString, escaped, ends, false), body[index..], index)
    {
      var c := body[index];
      ghost var before := Scan(depth, inString, escaped, ends, false);
      assert body[index..][1..] == body[index + 1..];
      assert Run(before, body[index..], index) == Run(Step(before, c, index), body[index + 1..], index + 1);
      if escaped {
        escaped := false;
      } else if c == '\\' {
        escaped := inString;
      } else if c == '"' {
        inString := !inString;
      } else if inString {
      } else if c == '{' || c == '[' {
        depth := depth + 1;
      } else if c == '}' || c == ']' {
        if depth == 0 {
          RunClosed(Step(before, c, index), body[index + 1..], index + 1);
          break;
        }
        depth := depth - 1;
        if depth == 0 && c == '}' {
          ends := ends + [index];
        }
      }
      index := index + 1;
    }
  }

  lemma {:induction false} RunClosed(st: Scan, s: string, at: nat)
    requires st.closed
    ensures Run(st, s, at) == st
  {
    if s != "" {
      RunClosed(st, s[1..], at + 1);
    }
  }

  /** `salvage` as the source writes it. */
  method SalvageText(body: string) returns (r: Salvaged)
    ensures r == Salvage(body)
  {
    hide Marker, Run, Loads;
    var start := Find(body, Marker(), 0);
    if start.None? {
      return Salvaged(None, false);
    }
    var open := Find(body, "[", start.value);
    if open.None? {
      return Salvaged(None, false);
    }
    var ends := ScanEnds(body, open.value);
    if ends == [] {
      return Salvaged(None, true);
    }
    var last := ends[|ends| - 1];
    assert last in ends;
    r := Rebuild(body[open.value..last + 1] + "]");
  }

  // ------------------------------------------- the scanner over printed trees

  ghost predicate Calm(st: Scan, d: nat, ends: seq<nat>) {
    st.depth >= d && !st.closed && st.ends == ends
  }

  /** Scanning `s` from `st` arrives in `st2` when only `rest` is left, and every state before
  that is at depth `d` or more and has recorded nothing new. */
  ghost predicate Reaches(st: Scan, s: string, at: nat, st2: Scan, rest: string, d: nat, ends: seq<nat>)
    decreases |s|
  {
    if |s| <= |rest| then s == rest && st == st2
    else Calm(st, d, ends) && Reaches(Step(st, s[0], at), s[1..], at + 1, st2, rest, d, ends)
  }

  lemma {:induction false} ReachesChain(st: Scan, s: string, at: nat, st2: Scan, mid: string,
                                        st3: Scan, rest: string, d: nat, ends: seq<nat>)
    requires |rest| <= |mid| <= |s|
    requires Reaches(st, s, at, st2, mid, d, ends)
    requires Reaches(st2, mid, at + |s| - |mid|, st3, rest, d, ends)
    ensures Reaches(st, s, at, st3, rest, d, ends)
    decreases |s|
  {
    if |s| > |mid| {
      ReachesChain(Step(st, s[0], at), s[1..], at + 1, st2, mid, st3, rest, d, ends);
    }
  }

  lemma {:induction false} ReachesShallower(st: Scan, s: string, at: nat, st2: Scan, rest: string,
                                            d: nat, d2: nat, ends: seq<nat>)
    requires Reaches(st, s, at, st2, rest, d, ends) && d2 <= d
    ensures Reaches(st, s, at, st2, rest, d2, ends)
    decreases |s|
  {
    if |s| > |rest| {
      ReachesShallower(Step(st, s[0], at), s[1..], at + 1, st2, rest, d, d2, ends);
    }
  }

  lemma {:induction false} ReachesRun(st: Scan, s: string, at: nat, st2: Scan, rest: string,
                                      d: nat, ends: seq<nat>, n: nat)
    requires |rest| <= |s| && n <= |s|
    requires Reaches(st, s, at, st2, rest, d, ends)
    ensures n < |s| - |rest| ==> Calm(Run(st, s[..n], at), d, ends)
    ensures |s| - |rest| <= n ==>
            Run(st, s[..n], at) == Run(st2, rest[..n - (|s| - |rest|)], at + (|s| - |rest|))
    decreases |s|
  {
    if |s| > |rest| && n > 0 {
      assert s[..n][1..] == s[1..][..n - 1];
      ReachesRun(Step(st, s[0], at), s[1..], at + 1, st2, rest, d, ends, n - 1);
    }
  }

  predicate IsPlain(c: char) {
    c != '\\' && c != '"' && c != '{' && c != '[' && c != '}' && c != ']'
  }

  lemma {:induction false} ReachesPlain(w: string, rest: string, at: nat, d: nat, ends: seq<nat>)
    requires forall i :: 0 <= i < |w| ==> IsPlain(w[i])
    ensures Reaches(Out(d, ends), w + rest, at, Out(d, ends), rest, d, ends)
  {
    if w == "" {
      assert w + rest == rest;
    } else {
      assert (w + rest)[1..] == w[1..] + rest;
      ReachesPlain(w[1..], rest, at + 1, d, ends);
    }
  }

  /** Inside a string literal nothing but its closing quote counts. */
  lemma {:induction false} ReachesPieces(ps: seq<Piece>, rest: string, at: nat, d: nat, ends: seq<nat>)
    requires GoodPieces(ps)
    ensures |rest| <= |EmitPieces(ps, rest)|
    ensures var st := Scan(d, true, false, ends, false);
            Reaches(st, EmitPieces(ps, rest), at, st, rest, d, ends)
  {
    if ps != [] {
      var st := Scan(d, true, false, ends, false);
      var tail := EmitPieces(ps[1..], rest);
      var s := EmitPiece(ps[0], tail);
      ReachesPieces(ps[1..], rest, at + |s| - |tail|, d, ends);
      ReachesPiece(ps[0], tail, at, d, ends);
      ReachesChain(st, s, at, st, tail, st, rest, d, ends);
    }
  }

  lemma ReachesPiece(p: Piece, rest: string, at: nat, d: nat, ends: seq<nat>)
    requires GoodPiece(p)
    ensures var st := Scan(d, true, false, ends, false);
            Reaches(st, EmitPiece(p, rest), at, st, rest, d, ends)
  {
    var st := Scan(d, true, false, ends, false);
    var s := EmitPiece(p, rest);
    match p
    case Plain(c) =>
      assert s[1..] == rest;
    case Short(c) =>
      assert s[1..][0] == c && s[1..][1..] == rest;
    case Unicode(h1, h2, h3, h4) =>
      var hex := [h1, h2, h3, h4];
      assert s[1..][0] == 'u' && s[1..][1..] == hex + rest;
      ReachesHex(hex, rest, at + 2, d, ends);
  }

  lemma {:induction false} ReachesHex(hex: string, rest: string, at: nat, d: nat, ends: seq<nat>)
    requires forall i :: 0 <= i < |hex| ==> IsHex(hex[i])
    ensures var st := Scan(d, true, false, ends, false);
            Reaches(st, hex + rest, at, st, rest, d, ends)
  {
    if hex == "" {
      assert hex + rest == rest;
    } else {
      assert (hex + rest)[1..] == hex[1..] + rest;
      ReachesHex(hex[1..], rest, at + 1, d, ends);
    }
  }

  lemma ReachesText(ps: seq<Piece>, rest: string, at: nat, d: nat, ends: seq<nat>)
    requires GoodPieces(ps)
    ensures |rest| <= |EmitText(ps, rest)|
    ensures Reaches(Out(d, ends), EmitText(ps, rest), at, Out(d, ends), rest, d, ends)
  {
    hide EmitPieces;
    var st := Scan(d, true, false, ends, false);
    var close := ['"'] + rest;
    var inner := EmitPieces(ps, close);
    assert EmitText(ps, rest)[1..] == inner;
    ReachesPieces(ps, close, at + 1, d, ends);
    assert close[1..] == rest;
    ReachesChain(st, inner, at + 1, st, close, Out(d, ends), rest, d, ends);
  }

  /** `s` is plain characters in front of `rest`. */
  predicate PlainTo(s: string, rest: string) {
    && |rest| <= |s| && s[|s| - |rest|..] == rest
    && forall i :: 0 <= i < |s| - |rest| ==> IsPlain(s[i])
  }

  lemma PlainToChain(s: string, mid: string, rest: string)
    requires PlainTo(s, mid) && PlainTo(mid, rest)
    ensures PlainTo(s, rest)
  {
    var k := |s| - |mid|;
    assert forall i :: k <= i < |s| ==> s[i] == mid[i - k];
  }

  lemma PlainToExponent(e: Exponent, rest: string)
    requires GoodExponent(e)
    ensures PlainTo(EmitExponent(e, rest), rest)
  {
    if e.Exponent? {
      PlainToChain(e.sign + (e.digits + rest), e.digits + rest, rest);
      PlainToChain(EmitExponent(e, rest), e.sign + (e.digits + rest), rest);
    }
  }

  lemma PlainToNumeral(n: Numeral, rest: string)
    requires GoodNumeral(n)
    ensures PlainTo(EmitNumeral(n, rest), rest)
  {
    hide EmitExponent;
    var s2 := EmitExponent(n.exponent, rest);
    var s1 := EmitFraction(n.fraction, s2);
    PlainToExponent(n.exponent, rest);
    if n.fraction != "" {
      PlainToChain(s1, n.fraction + s2, s2);
    }
    PlainToChain(s1, s2, rest);
    PlainToChain(n.whole + s1, s1, rest);
    PlainToChain(EmitNumeral(n, rest), n.whole + s1, rest);
  }

  lemma PlainToWord(w: Word, rest: string)
    ensures PlainTo(Spell(w) + rest, rest)
  {
  }

  lemma ReachesPlainTo(s: string, rest: string, at: nat, d: nat, ends: seq<nat>)
    requires PlainTo(s, rest)
    ensures Reaches(Out(d, ends), s, at, Out(d, ends), rest, d, ends)
  {
    var w := s[..|s| - |rest|];
    assert s == w + rest;
    ReachesPlain(w, rest, at, d, ends);
  }

  // The two lemmas below follow the tree.  An object standing at depth 0 is the one value
  // whose end is recorded, so it is treated apart, in `ReachesInside`.

  lemma {:induction false} ReachesValue(v: Value, rest: string, at: nat, d: nat, ends: seq<nat>)
    requires Good(v) && (IsObject(v) ==> d > 0)
    ensures |rest| <= |Emit(v, rest)|
    ensures Reaches(Out(d, ends), Emit(v, rest), at, Out(d, ends), rest, d, ends)
    decreases v, 2
  {
    hide EmitNumeral, EmitText, EmitElems, Spell, GoodElems, GoodNumeral;
    match v
    case Literal(w) =>
      PlainToWord(w, rest);
      ReachesPlainTo(Spell(w) + rest, rest, at, d, ends);
    case Number(n) =>
      PlainToNumeral(n, rest);
      ReachesPlainTo(EmitNumeral(n, rest), rest, at, d, ends);
    case Text(ps) =>
      ReachesText(ps, rest, at, d, ends);
    case _ =>
      ReachesContainer(v, rest, at, d, ends);
  }

  lemma ReachesContainer(v: Value, rest: string, at: nat, d: nat, ends: seq<nat>)
    requires Good(v) && (v.Empty? || v.Node?) && (IsObject(v) ==> d > 0)
    ensures |rest| <= |Emit(v, rest)|
    ensures Reaches(Out(d, ends), Emit(v, rest), at, Out(d, ends), rest, d, ends)
    decreases v, 1
  {
    var close := [Close(v.isObject)] + rest;
    var s := Emit(v, rest);
    ReachesInside(v, rest, at, d, ends);
    ReachesShallower(Out(d + 1, ends), s[1..], at + 1, Out(d + 1, ends), close, d + 1, d, ends);
    assert close[1..] == rest;
    ReachesChain(Out(d + 1, ends), s[1..], at + 1, Out(d + 1, ends), close, Out(d, ends), rest, d, ends);
  }

  /** From behind the opening bracket to the closing one, at one level deeper. */
  lemma ReachesInside(v: Value, rest: string, at: nat, d: nat, ends: seq<nat>)
    requires Good(v) && (v.Empty? || v.Node?)
    ensures var s := Emit(v, rest);
            var close := [Close(v.isObject)] + rest;
            && |close| < |s| && s[0] == Open(v.isObject)
            && Reaches(Out(d + 1, ends), s[1..], at + 1, Out(d + 1, ends), close, d + 1, ends)
    decreases v, 0
  {
    hide EmitElems, GoodElems;
    var s := Emit(v, rest);
    var close := [Close(v.isObject)] + rest;
    match v
    case Empty(o, gap) =>
      assert s[1..] == gap + close;
      ReachesPlain(gap, close, at + 1, d + 1, ends);
    case Node(o, es) =>
      assert s[1..] == EmitElems(es, close);
      ReachesElems(es, o, close, at + 1, d + 1, ends);
  }

  lemma ReachesKey(k: Key, keyed: bool, rest: string, at: nat, d: nat, ends: seq<nat>)
    requires GoodKey(k, keyed)
    ensures |rest| <= |EmitKey(k, rest)|
    ensures Reaches(Out(d, ends), EmitKey(k, rest), at, Out(d, ends), rest, d, ends)
  {
    if k.Key? {
      var s2 := [':'] + (k.gap2 + rest);
      var s1 := k.gap1 + s2;
      PlainToChain(s2, k.gap2 + rest, rest);
      PlainToChain(s1, s2, rest);
      var s := EmitKey(k, rest);
      ReachesText(k.pieces, s1, at, d, ends);
      ReachesPlainTo(s1, rest, at + |s| - |s1|, d, ends);
      ReachesChain(Out(d, ends), s, at, Out(d, ends), s1, Out(d, ends), rest, d, ends);
    }
  }

  lemma ReachesFirst(es: Elems, keyed: bool, tail: string, at: nat, d: nat, ends: seq<nat>)
    requires GoodElems(es, keyed) && d > 0
    ensures |tail| <= |EmitFirst(es, tail)|
    ensures Reaches(Out(d, ends), EmitFirst(es, tail), at, Out(d, ends), tail, d, ends)
    decreases es.value, 3
  {
    hide Emit, EmitKey, Good, GoodKey;
    var st := Out(d, ends);
    var s3 := es.post + tail;
    var s2 := Emit(es.value, s3);
    var s1 := EmitKey(es.key, s2);
    var p1 := at + |es.pre|;
    ReachesPlain(es.pre, s1, at, d, ends);
    ReachesKey(es.key, keyed, s2, p1, d, ends);
    var p2 := p1 + |s1| - |s2|;
    ReachesValue(es.value, s3, p2, d, ends);
    var p3 := p2 + |s2| - |s3|;
    ReachesPlain(es.post, tail, p3, d, ends);
    ReachesChain(st, s2, p2, st, s3, st, tail, d, ends);
    ReachesChain(st, s1, p1, st, s2, st, tail, d, ends);
    ReachesChain(st, EmitFirst(es, tail), at, st, s1, st, tail, d, ends);
  }

  lemma {:induction false} ReachesElems(es: Elems, keyed: bool, rest: string, at: nat, d: nat, ends: seq<nat>)
    requires GoodElems(es, keyed) && d > 0
    ensures |rest| <= |EmitElems(es, rest)|
    ensures Reaches(Out(d, ends), EmitElems(es, rest), at, Out(d, ends), rest, d, ends)
    decreases es
  {
    if es.Final? {
      ReachesFirst(es, keyed, rest, at, d, ends);
    } else {
      var inner := EmitElems(es.rest, rest);
      var tail := [','] + inner;
      ReachesFirst(es, keyed, tail, at, d, ends);
      var p := at + |EmitFirst(es, tail)| - |tail|;
      ReachesElems(es.rest, keyed, rest, p + 1, d, ends);
      assert tail[1..] == inner;
      ReachesChain(Out(d, ends), EmitFirst(es, tail), at, Out(d, ends), tail, Out(d, ends), rest, d, ends);
    }
  }

  // ------------------------------------------------------- where values end

  lemma {:induction false} EmitSplits(v: Value, mid: string, rest: string)
    ensures Emit(v, mid + rest) == Emit(v, mid) + rest
    decreases v, 1
  {
    hide EmitNumeral, EmitPieces, Spell, EmitElems;
    match v
    case Literal(w) =>
    case Number(n) =>
      EmitNumeralSplits(n, mid, rest);
    case Text(ps) =>
      EmitPiecesSplits(ps, ['"'] + mid, rest);
      assert ['"'] + (mid + rest) == (['"'] + mid) + rest;
    case Empty(o, gap) =>
    case Node(o, es) =>
      EmitElemsSplits(es, [Close(o)] + mid, rest);
      assert [Close(o)] + (mid + rest) == ([Close(o)] + mid) + rest;
  }

  lemma {:induction false} EmitPiecesSplits(ps: seq<Piece>, mid: string, rest: string)
    ensures EmitPieces(ps, mid + rest) == EmitPieces(ps, mid) + rest
  {
    if ps != [] {
      hide EmitPiece;
      EmitPiecesSplits(ps[1..], mid, rest);
      EmitPieceSplits(ps[0], EmitPieces(ps[1..], mid), rest);
    }
  }

  lemma EmitPieceSplits(p: Piece, mid: string, rest: string)
    ensures EmitPiece(p, mid + rest) == EmitPiece(p, mid) + rest
  {
  }

  lemma EmitNumeralSplits(n: Numeral, mid: string, rest: string)
    ensures EmitNumeral(n, mid + rest) == EmitNumeral(n, mid) + rest
  {
    assert EmitExponent(n.exponent, mid + rest) == EmitExponent(n.exponent, mid) + rest;
  }

  lemma EmitKeySplits(k: Key, mid: string, rest: string)
    ensures EmitKey(k, mid + rest) == EmitKey(k, mid) + rest
  {
    if k.Key? {
      EmitPiecesSplits(k.pieces, ['"'] + (k.gap1 + ([':'] + (k.gap2 + mid))), rest);
      assert ['"'] + (k.gap1 + ([':'] + (k.gap2 + mid))) + rest
          == ['"'] + (k.gap1 + ([':'] + (k.gap2 + (mid + rest))));
    }
  }

  lemma EmitFirstSplits(es: Elems, mid: string, rest: string)
    ensures EmitFirst(es, mid + rest) == EmitFirst(es, mid) + rest
    decreases es, 0
  {
    hide Emit, EmitKey;
    EmitSplits(es.value, es.post + mid, rest);
    assert es.post + (mid + rest) == (es.post + mid) + rest;
    EmitKeySplits(es.key, Emit(es.value, es.post + mid), rest);
  }

  lemma {:induction false} EmitElemsSplits(es: Elems, mid: string, rest: string)
    ensures EmitElems(es, mid + rest) == EmitElems(es, mid) + rest
    decreases es, 1
  {
    hide EmitFirst;
    if es.More? {
      EmitElemsSplits(es.rest, mid, rest);
      assert [','] + (EmitElems(es.rest, mid) + rest) == ([','] + EmitElems(es.rest, mid)) + rest;
    }
    EmitFirstSplits(es, if es.More? then [','] + EmitElems(es.rest, mid) else mid, rest);
  }

  lemma PrintThen(v: Value, rest: string)
    ensures Emit(v, rest) == Print(v) + rest
  {
    hide Emit;
    EmitSplits(v, "", rest);
    assert "" + rest == rest;
  }
}
