/** Python's `json.loads` as a recursive-descent reader over characters, proved to accept
exactly the printed trees of `JsonText`. */
module JsonParser {
  import opened Decimals
  import opened Wrappers
  import opened JsonText

  datatype Parse<+T> = Fail | Ok(item: T, rest: string) {
    predicate IsFailure() { Fail? }
    function PropagateFailure<U>(): Parse<U> requires Fail? { Fail }
    function Extract(): (T, string) requires Ok? { (item, rest) }
  }

  // ----------------------------------------------------------------- reading

  function WsPrefix(s: string): (w: string)
    ensures w <= s && Blank(w)
    ensures |w| < |s| ==> !IsWs(s[|w|])
  {
    if s != "" && IsWs(s[0]) then [s[0]] + WsPrefix(s[1..]) else ""
  }

  function Skip(s: string): (r: string)
    ensures |r| <= |s|
  {
    s[|WsPrefix(s)|..]
  }

  /** The rest of a string literal, up to and including its closing quote. */
  function ParsePieces(s: string): (r: Parse<seq<Piece>>)
    ensures r.Ok? ==> |r.rest| < |s|
  {
    if s == "" then Fail
    else if s[0] == '"' then Ok([], s[1..])
    else if s[0] == '\\' then
      if |s| >= 6 && s[1] == 'u' && IsHex(s[2]) && IsHex(s[3]) && IsHex(s[4]) && IsHex(s[5]) then
        var (ps, rest) :- ParsePieces(s[6..]);
        Ok([Unicode(s[2], s[3], s[4], s[5])] + ps, rest)
      else if |s| >= 2 && IsShortEscape(s[1]) then
        var (ps, rest) :- ParsePieces(s[2..]);
        Ok([Short(s[1])] + ps, rest)
      else Fail
    else if s[0] < ' ' then Fail
    else
      var (ps, rest) :- ParsePieces(s[1..]);
      Ok([Plain(s[0])] + ps, rest)
  }

  function ParseWord(s: string): Option<Word> {
    if "null" <= s then Some(Null)
    else if "true" <= s then Some(True)
    else if "false" <= s then Some(False)
    else if "NaN" <= s then Some(NaN)
    else if "Infinity" <= s then Some(Infinity)
    else if "-Infinity" <= s then Some(MinusInfinity)
    else None
  }

  function ParseWhole(s: string): (r: Parse<string>)
    ensures r.Ok? ==> |r.rest| < |s|
  {
    var d := DigitPrefix(s);
    if d == "" then Fail
    else if d[0] == '0' then Ok("0", s[1..])
    else Ok(d, s[|d|..])
  }

  function ParseFraction(s: string): (r: Parse<string>)
    ensures r.Ok? && |r.rest| <= |s|
  {
    if s != "" && s[0] == '.' && DigitPrefix(s[1..]) != "" then
      var d := DigitPrefix(s[1..]);
      Ok(d, s[1 + |d|..])
    else Ok("", s)
  }

  function SignOf(t: string): (sign: string)
    ensures sign <= t
  {
    if t != "" && (t[0] == '+' || t[0] == '-') then [t[0]] else ""
  }

  function ParseExponent(s: string): (r: Parse<Exponent>)
    ensures r.Ok? && |r.rest| <= |s|
  {
    if s != "" && (s[0] == 'e' || s[0] == 'E') then
      var sign := SignOf(s[1..]);
      var unsigned := s[1..][|sign|..];
      var d := DigitPrefix(unsigned);
      if d != "" then Ok(Exponent(s[0], sign, d), unsigned[|d|..]) else Ok(NoExponent, s)
    else Ok(NoExponent, s)
  }

  function ParseNumeral(s: string): (r: Parse<Numeral>)
    ensures r.Ok? ==> |r.rest| < |s|
  {
    var minus := s != "" && s[0] == '-';
    var (whole, s1) :- ParseWhole(if minus then s[1..] else s);
    var (fraction, s2) :- ParseFraction(s1);
    var (exponent, s3) :- ParseExponent(s2);
    Ok(Numeral(minus, whole, fraction, exponent), s3)
  }

  function ParseKey(s: string, keyed: bool): (r: Parse<Key>)
    ensures r.Ok? ==> |r.rest| <= |s|
  {
    if !keyed then Ok(NoKey, s)
    else if s == "" || s[0] != '"' then Fail
    else
      var (pieces, s1) :- ParsePieces(s[1..]);
      var s2 := Skip(s1);
      if s2 == "" || s2[0] != ':' then Fail
      else Ok(Key(pieces, WsPrefix(s1), WsPrefix(s2[1..])), Skip(s2[1..]))
  }

  function ParseValue(s: string): (r: Parse<Value>)
    ensures r.Ok? ==> |r.rest| < |s|
    decreases |s|, 0
  {
    if s == "" then Fail
    else if s[0] == '"' then
      var (ps, rest) :- ParsePieces(s[1..]);
      Ok(Text(ps), rest)
    else if s[0] == '{' || s[0] == '[' then
      var o := s[0] == '{';
      var s1 := Skip(s[1..]);
      if s1 != "" && s1[0] == Close(o) then Ok(Empty(o, WsPrefix(s[1..])), s1[1..])
      else
        var (es, rest) :- ParseElems(s[1..], o);
        Ok(Node(o, es), rest)
    else match ParseWord(s)
      case Some(w) => Ok(Literal(w), s[|Spell(w)|..])
      case None =>
        var (n, rest) :- ParseNumeral(s);
        Ok(Number(n), rest)
  }

  /** The elements of a container, up to and including its closing bracket. */
  function ParseElems(s: string, keyed: bool): (r: Parse<Elems>)
    ensures r.Ok? ==> |r.rest| < |s|
    decreases |s|, 1
  {
    var pre := WsPrefix(s);
    var (key, s1) :- ParseKey(Skip(s), keyed);
    var (v, s2) :- ParseValue(s1);
    var post := WsPrefix(s2);
    var s3 := Skip(s2);
    if s3 == "" then Fail
    else if s3[0] == Close(keyed) then Ok(Final(pre, key, v, post), s3[1..])
    else if s3[0] == ',' then
      var (es, rest) :- ParseElems(s3[1..], keyed);
      Ok(More(pre, key, v, post, es), rest)
    else Fail
  }

  /** `json.loads`: one value with blanks around it, and nothing else. */
  function Loads(s: string): Option<Value> {
    match ParseValue(Skip(s))
    case Fail => None
    case Ok(v, rest) => if Blank(rest) then Some(v) else None
  }

  // --------------------------------------------------- sound: print of parse

  lemma SkipSplits(s: string)
    ensures s == WsPrefix(s) + Skip(s)
    ensures Skip(s) != "" ==> !IsWs(Skip(s)[0])
  {
  }

  lemma {:induction false} ParsePiecesSound(s: string)
    requires ParsePieces(s).Ok?
    ensures GoodPieces(ParsePieces(s).item)
    ensures s == EmitPieces(ParsePieces(s).item, ['"'] + ParsePieces(s).rest)
  {
    if s[0] != '"' {
      var k := if s[0] != '\\' then 1 else if s[1] == 'u' then 6 else 2;
      ParsePiecesSound(s[k..]);
      var ps := ParsePieces(s).item;
      assert ps[1..] == ParsePieces(s[k..]).item;
    }
  }

  lemma ParseNumeralSound(s: string)
    requires ParseNumeral(s).Ok?
    ensures GoodNumeral(ParseNumeral(s).item)
    ensures s == EmitNumeral(ParseNumeral(s).item, ParseNumeral(s).rest)
  {
    hide ParseWhole, ParseFraction, ParseExponent, EmitFraction, EmitExponent, GoodExponent;
    var s0 := if s != "" && s[0] == '-' then s[1..] else s;
    assert s0 != s ==> s == ['-'] + s0;
    var whole := ParseWhole(s0);
    var fraction := ParseFraction(whole.rest);
    var exponent := ParseExponent(fraction.rest);
    ParseWholeSound(s0);
    ParseFractionSound(whole.rest);
    ParseExponentSound(fraction.rest);
  }

  lemma ParseWholeSound(s: string)
    requires ParseWhole(s).Ok?
    ensures var d := ParseWhole(s).item; d != "" && AllDigits(d) && (d[0] == '0' ==> d == "0")
    ensures s == ParseWhole(s).item + ParseWhole(s).rest
  {
  }

  lemma ParseFractionSound(s: string)
    ensures AllDigits(ParseFraction(s).item)
    ensures s == EmitFraction(ParseFraction(s).item, ParseFraction(s).rest)
  {
    if s != "" {
      var d := DigitPrefix(s[1..]);
      assert s[1..] == d + s[1..][|d|..];
    }
  }

  lemma ParseExponentSound(s: string)
    ensures GoodExponent(ParseExponent(s).item)
    ensures s == EmitExponent(ParseExponent(s).item, ParseExponent(s).rest)
  {
    hide DigitPrefix;
    if ParseExponent(s).item.Exponent? {
      var sign := SignOf(s[1..]);
      var unsigned := s[1..][|sign|..];
      var d := DigitPrefix(unsigned);
      assert unsigned == d + unsigned[|d|..];
      assert s[1..] == sign + unsigned;
      assert s == [s[0]] + s[1..];
    }
  }

  lemma ParseKeySound(s: string, keyed: bool)
    requires ParseKey(s, keyed).Ok?
    ensures GoodKey(ParseKey(s, keyed).item, keyed)
    ensures s == EmitKey(ParseKey(s, keyed).item, ParseKey(s, keyed).rest)
  {
    hide ParsePieces, EmitPieces, Skip, WsPrefix, GoodPieces, Blank;
    if keyed {
      ParsePiecesSound(s[1..]);
      var p := ParsePieces(s[1..]);
      var s2 := Skip(p.rest);
      SkipSplits(p.rest);
      SkipSplits(s2[1..]);
      assert s2 == [':'] + s2[1..];
      assert s == ['"'] + s[1..];
    }
  }

  lemma {:induction false} ParseValueSound(s: string)
    requires ParseValue(s).Ok?
    ensures Good(ParseValue(s).item)
    ensures s == Emit(ParseValue(s).item, ParseValue(s).rest)
    decreases |s|, 1
  {
    hide ParseWord, ParseNumeral, EmitNumeral, EmitPieces, GoodNumeral, GoodPieces, ParsePieces, ParseElems, EmitElems, GoodElems;
    if s[0] == '"' {
      ParsePiecesSound(s[1..]);
      assert s == ['"'] + s[1..];
    } else if s[0] == '{' || s[0] == '[' {
      ParseContainerSound(s);
    } else if ParseWord(s).Some? {
      hide Spell;
      ParseWordSound(s);
    } else {
      hide Spell;
      ParseNumeralSound(s);
    }
  }

  lemma {:induction false} ParseContainerSound(s: string)
    requires ParseValue(s).Ok? && (s[0] == '{' || s[0] == '[')
    ensures Good(ParseValue(s).item)
    ensures s == Emit(ParseValue(s).item, ParseValue(s).rest)
    decreases |s|, 0
  {
    hide ParseWord, ParseNumeral, EmitNumeral, EmitPieces, GoodNumeral, ParsePieces, ParseElems, EmitElems, GoodElems, Spell, Skip, WsPrefix;
    var o := s[0] == '{';
    var s1 := Skip(s[1..]);
    SkipSplits(s[1..]);
    assert s == [Open(o)] + s[1..];
    if s1 != "" && s1[0] == Close(o) {
      assert s1 == [Close(o)] + s1[1..];
    } else {
      ParseElemsSound(s[1..], o);
    }
  }

  lemma ParseWordSound(s: string)
    requires ParseWord(s).Some?
    ensures var w := Spell(ParseWord(s).value); |w| <= |s| && s == w + s[|w|..]
  {
  }

  lemma {:induction false} ParseElemsSound(s: string, keyed: bool)
    requires ParseElems(s, keyed).Ok?
    ensures GoodElems(ParseElems(s, keyed).item, keyed)
    ensures s == EmitElems(ParseElems(s, keyed).item, [Close(keyed)] + ParseElems(s, keyed).rest)
    decreases |s|, 2
  {
    hide ParseValue, ParseKey, EmitKey, Emit, Good, GoodKey;
    var key := ParseKey(Skip(s), keyed);
    var v := ParseValue(key.rest);
    var s3 := Skip(v.rest);
    SkipSplits(s);
    ParseKeySound(Skip(s), keyed);
    ParseValueSound(key.rest);
    SkipSplits(v.rest);
    assert s3 == [s3[0]] + s3[1..];
    if s3[0] != Close(keyed) {
      ParseElemsSound(s3[1..], keyed);
    }
  }

  // ------------------------------------------------ complete: parse of print

  /** What may follow a value in a JSON text: the end, a blank, a comma or a closing bracket. */
  predicate Delimited(rest: string) {
    rest == "" || IsWs(rest[0]) || rest[0] == ',' || rest[0] == ']' || rest[0] == '}'
  }

  lemma {:induction false} WsPrefixOf(w: string, rest: string)
    requires Blank(w) && (rest == "" || !IsWs(rest[0]))
    ensures WsPrefix(w + rest) == w && Skip(w + rest) == rest
  {
    if w == "" {
      assert w + rest == rest;
    } else {
      assert (w + rest)[1..] == w[1..] + rest;
      WsPrefixOf(w[1..], rest);
    }
  }

  lemma ParsePieceThen(p: Piece, tail: string, ps: seq<Piece>, rest: string)
    requires GoodPiece(p) && ParsePieces(tail) == Ok(ps, rest)
    ensures ParsePieces(EmitPiece(p, tail)) == Ok([p] + ps, rest)
  {
    assert EmitPiece(p, tail)[if p.Plain? then 1 else if p.Short? then 2 else 6..] == tail;
  }

  lemma {:induction false} ParsePiecesComplete(ps: seq<Piece>, rest: string)
    requires GoodPieces(ps)
    ensures ParsePieces(EmitPieces(ps, ['"'] + rest)) == Ok(ps, rest)
  {
    if ps != [] {
      hide ParsePieces, EmitPiece, GoodPiece;
      ParsePiecesComplete(ps[1..], rest);
      ParsePieceThen(ps[0], EmitPieces(ps[1..], ['"'] + rest), ps[1..], rest);
      assert ps == [ps[0]] + ps[1..];
    }
  }

  /** What follows the letter of an exponent. */
  lemma ExponentTail(sign: string, digits: string, rest: string)
    requires digits != "" && AllDigits(digits) && (sign == "" || sign == "+" || sign == "-")
    ensures var t := sign + (digits + rest);
            && t[|sign|..] == digits + rest && t[|sign|..][|digits|..] == rest
            && SignOf(t) == sign
  {
    assert sign + (digits + rest) == sign + digits + rest;
    assert sign == "" ==> (sign + (digits + rest))[0] == digits[0];
  }

  lemma ParseExponentComplete(e: Exponent, rest: string)
    requires GoodExponent(e) && Delimited(rest)
    ensures ParseExponent(EmitExponent(e, rest)) == Ok(e, rest)
  {
    if e.Exponent? {
      hide DigitPrefix, SignOf;
      ExponentTail(e.sign, e.digits, rest);
      DigitPrefixOf(e.digits, rest);
      assert EmitExponent(e, rest)[1..] == e.sign + (e.digits + rest);
    }
  }

  lemma ParseFractionComplete(fraction: string, rest: string)
    requires AllDigits(fraction) && (rest == "" || (!IsDigit(rest[0]) && rest[0] != '.'))
    ensures ParseFraction(EmitFraction(fraction, rest)) == Ok(fraction, rest)
  {
    if fraction != "" {
      var s := EmitFraction(fraction, rest);
      DigitPrefixOf(fraction, rest);
      assert s[1..] == fraction + rest;
      assert s[1 + |fraction|..] == rest;
    }
  }

  lemma ParseNumeralComplete(n: Numeral, rest: string)
    requires GoodNumeral(n) && Delimited(rest)
    ensures ParseNumeral(EmitNumeral(n, rest)) == Ok(n, rest)
  {
    hide ParseExponent, ParseFraction;
    var s2 := EmitExponent(n.exponent, rest);
    var s1 := EmitFraction(n.fraction, s2);
    var s0 := n.whole + s1;
    ParseExponentComplete(n.exponent, rest);
    ParseFractionComplete(n.fraction, s2);
    DigitPrefixOf(n.whole, s1);
    assert s0[0] == n.whole[0];
    assert n.minus ==> EmitNumeral(n, rest)[1..] == s0;
  }

  lemma ParseKeyComplete(k: Key, keyed: bool, rest: string)
    requires GoodKey(k, keyed) && (rest == "" || !IsWs(rest[0]))
    ensures ParseKey(EmitKey(k, rest), keyed) == Ok(k, rest)
  {
    if k.Key? {
      var s2 := [':'] + (k.gap2 + rest);
      ParsePiecesComplete(k.pieces, k.gap1 + s2);
      WsPrefixOf(k.gap1, s2);
      assert s2[1..] == k.gap2 + rest;
      WsPrefixOf(k.gap2, rest);
      assert EmitKey(k, rest)[1..] == EmitPieces(k.pieces, ['"'] + (k.gap1 + s2));
    }
  }

  lemma KeyStarts(k: Key, rest: string)
    requires rest == "" || !IsWs(rest[0])
    ensures EmitKey(k, rest) == "" || !IsWs(EmitKey(k, rest)[0])
  {
  }

  lemma ParseWordComplete(w: Word, rest: string)
    ensures ParseWord(Spell(w) + rest) == Some(w)
    ensures (Spell(w) + rest)[|Spell(w)|..] == rest
  {
    var s := Spell(w) + rest;
    assert s[0] == Spell(w)[0];
  }

  lemma NumeralStarts(n: Numeral, rest: string)
    requires GoodNumeral(n)
    ensures var s := EmitNumeral(n, rest);
            s != "" && (s[0] == '-' || IsDigit(s[0])) && ParseWord(s) == None
  {
    var s := EmitNumeral(n, rest);
    var s0 := n.whole + EmitFraction(n.fraction, EmitExponent(n.exponent, rest));
    assert s0[0] == n.whole[0];
    assert n.minus ==> s[1] == s0[0];
  }

  /** No value starts with a blank, a comma or a closing bracket. */
  lemma ValueStarts(v: Value, rest: string)
    requires Good(v)
    ensures var s := Emit(v, rest);
            s != "" && !IsWs(s[0]) && s[0] != ',' && s[0] != ']' && s[0] != '}'
  {
    if v.Number? {
      NumeralStarts(v.numeral, rest);
    }
  }

  lemma ParseEmptyComplete(o: bool, gap: string, rest: string)
    requires Blank(gap)
    ensures ParseValue(Emit(Empty(o, gap), rest)) == Ok(Empty(o, gap), rest)
  {
    hide ParseWord, ParseNumeral, ParsePieces, ParseElems, WsPrefix, Skip;
    var close := [Close(o)] + rest;
    WsPrefixOf(gap, close);
    assert ([Open(o)] + (gap + close))[1..] == gap + close;
    assert close[1..] == rest;
  }

  lemma ParseNodeComplete(o: bool, es: Elems, s: string, rest: string)
    requires ParseElems(s, o) == Ok(es, rest) && (Skip(s) == "" || Skip(s)[0] != Close(o))
    ensures ParseValue([Open(o)] + s) == Ok(Node(o, es), rest)
  {
    hide ParseWord, ParseNumeral, ParsePieces, ParseElems, WsPrefix, Skip;
    assert ([Open(o)] + s)[1..] == s;
  }

  lemma {:induction false} ParseValueComplete(v: Value, rest: string)
    requires Good(v) && Delimited(rest)
    ensures ParseValue(Emit(v, rest)) == Ok(v, rest)
    decreases v
  {
    hide ParseWord, ParseNumeral, EmitNumeral, EmitPieces, GoodNumeral, EmitElems, Spell, Skip, ParseElems, ParsePieces, GoodElems;
    match v
    case Literal(w) =>
      ParseWordComplete(w, rest);
      WordStarts(w, rest);
    case Number(n) =>
      ParseNumeralComplete(n, rest);
      NumeralStarts(n, rest);
    case Text(ps) =>
      ParsePiecesComplete(ps, rest);
    case Empty(o, gap) =>
      hide ParseValue;
      ParseEmptyComplete(o, gap, rest);
    case Node(o, es) =>
      hide ParseValue;
      var close := [Close(o)] + rest;
      ParseElemsComplete(es, o, rest);
      ElemsStart(es, o, close);
      ParseNodeComplete(o, es, EmitElems(es, close), rest);
  }

  lemma WordStarts(w: Word, rest: string)
    ensures var s := Spell(w) + rest; s != "" && s[0] != '"' && s[0] != '{' && s[0] != '['
  {
  }

  /** The first character of a container's contents that is not blank never closes it. */
  lemma ElemsStart(es: Elems, keyed: bool, rest: string)
    requires GoodElems(es, keyed)
    ensures var s := Skip(EmitElems(es, rest));
            s != "" && s[0] != ']' && s[0] != '}'
  {
    hide Emit, EmitPieces;
    var tail := if es.More? then [','] + EmitElems(es.rest, rest) else rest;
    ValueStarts(es.value, es.post + tail);
    WsPrefixOf(es.pre, EmitKey(es.key, Emit(es.value, es.post + tail)));
  }

  lemma {:induction false} ParseElemsComplete(es: Elems, keyed: bool, rest: string)
    requires GoodElems(es, keyed)
    ensures ParseElems(EmitElems(es, [Close(keyed)] + rest), keyed) == Ok(es, rest)
    decreases es
  {
    hide ParseValue, ParseKey, Emit, Good, EmitKey, GoodKey, WsPrefix, Skip;
    var close := [Close(keyed)] + rest;
    var s3 := if es.More? then [','] + EmitElems(es.rest, close) else close;
    var s2 := es.post + s3;
    var s1 := Emit(es.value, s2);
    ValueStarts(es.value, s2);
    ParseKeyComplete(es.key, keyed, s1);
    KeyStarts(es.key, s1);
    WsPrefixOf(es.pre, EmitKey(es.key, s1));
    assert Delimited(s2);
    ParseValueComplete(es.value, s2);
    WsPrefixOf(es.post, s3);
    if es.More? {
      assert s3[1..] == EmitElems(es.rest, close);
      ParseElemsComplete(es.rest, keyed, rest);
    } else {
      assert s3[1..] == rest;
    }
  }

  /** `json.loads` reads `s` as the tree `v` exactly when `s` is `v` printed, with blanks around it. */
  lemma LoadsExact(s: string, v: Value)
    ensures Loads(s) == Some(v) <==>
            Good(v) && exists pre, post :: Blank(pre) && Blank(post) && s == pre + Emit(v, post)
  {
    hide ParseValue, Emit, Good;
    if Loads(s) == Some(v) {
      SkipSplits(s);
      ParseValueSound(Skip(s));
      assert s == WsPrefix(s) + Emit(v, ParseValue(Skip(s)).rest);
    }
    if Good(v) {
      forall pre, post | Blank(pre) && Blank(post) && s == pre + Emit(v, post)
        ensures Loads(s) == Some(v)
      {
        ValueStarts(v, post);
        WsPrefixOf(pre, Emit(v, post));
        ParseValueComplete(v, post);
      }
    }
  }

  lemma LoadsPrinted(pre: string, v: Value, post: string)
    requires Good(v) && Blank(pre) && Blank(post)
    ensures Loads(pre + Emit(v, post)) == Some(v)
  {
    hide Loads, Good, Emit;
    LoadsExact(pre + Emit(v, post), v);
  }
}
