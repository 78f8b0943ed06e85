/** JSON texts as RFC 8259 defines them (sections 2 to 7), kept with their layout.

A `Value` is a concrete syntax tree: every blank run, every escape and every digit is
recorded, so `Print` reaches every JSON text and two different trees never print alike
(`JsonParser.LoadsExact`).  The three extra words that Python's `json.loads` also reads
are included. */
module JsonText {
  import opened Decimals

  datatype Word = Null | True | False | NaN | Infinity | MinusInfinity

  /** One character of a string literal: itself, a short escape, or four hex digits. */
  datatype Piece = Plain(c: char) | Short(c: char) | Unicode(h1: char, h2: char, h3: char, h4: char)

  datatype Exponent = NoExponent | Exponent(letter: char, sign: string, digits: string)

  /** An empty `fraction` means that the numeral has none. */
  datatype Numeral = Numeral(minus: bool, whole: string, fraction: string, exponent: Exponent)

  datatype Value =
    | Literal(word: Word)
    | Number(numeral: Numeral)
    | Text(pieces: seq<Piece>)
    | Empty(isObject: bool, gap: string)
    | Node(isObject: bool, elems: Elems)

  /** What stands before a value inside a container: a key in an object, nothing in an array. */
  datatype Key = NoKey | Key(pieces: seq<Piece>, gap1: string, gap2: string)

  datatype Elems =
    | Final(pre: string, key: Key, value: Value, post: string)
    | More(pre: string, key: Key, value: Value, post: string, rest: Elems)

  predicate IsWs(c: char) {
    c == ' ' || c == '\t' || c == '\n' || c == '\r'
  }

  predicate Blank(s: string) {
    forall i :: 0 <= i < |s| ==> IsWs(s[i])
  }

  predicate IsHex(c: char) {
    '0' <= c <= '9' || 'a' <= c <= 'f' || 'A' <= c <= 'F'
  }

  predicate IsShortEscape(c: char) {
    c == '"' || c == '\\' || c == '/' || c == 'b' || c == 'f' || c == 'n' || c == 'r' || c == 't'
  }

  // ---------------------------------------------------------------- printing

  // Every `Emit` puts a tree in front of the text that follows it.

  function Spell(w: Word): string {
    match w
    case Null => "null"
    case True => "true"
    case False => "false"
    case NaN => "NaN"
    case Infinity => "Infinity"
    case MinusInfinity => "-Infinity"
  }

  function EmitPiece(p: Piece, rest: string): string {
    match p
    case Plain(c) => [c] + rest
    case Short(c) => ['\\', c] + rest
    case Unicode(h1, h2, h3, h4) => ['\\', 'u', h1, h2, h3, h4] + rest
  }

  function EmitPieces(ps: seq<Piece>, rest: string): string {
    if ps == [] then rest else EmitPiece(ps[0], EmitPieces(ps[1..], rest))
  }

  function EmitFraction(fraction: string, rest: string): string {
    if fraction == "" then rest else ['.'] + (fraction + rest)
  }

  function EmitExponent(e: Exponent, rest: string): string {
    match e
    case NoExponent => rest
    case Exponent(letter, sign, digits) => [letter] + (sign + (digits + rest))
  }

  function EmitNumeral(n: Numeral, rest: string): string {
    var unsigned := n.whole + EmitFraction(n.fraction, EmitExponent(n.exponent, rest));
    if n.minus then ['-'] + unsigned else unsigned
  }

  function Open(isObject: bool): char {
    if isObject then '{' else '['
  }

  function Close(isObject: bool): char {
    if isObject then '}' else ']'
  }

  function EmitText(ps: seq<Piece>, rest: string): string {
    ['"'] + EmitPieces(ps, ['"'] + rest)
  }

  function EmitKey(k: Key, rest: string): string {
    match k
    case NoKey => rest
    case Key(pieces, gap1, gap2) => EmitText(pieces, gap1 + ([':'] + (gap2 + rest)))
  }

  function Emit(v: Value, rest: string): string
    decreases v, 0
  {
    match v
    case Literal(w) => Spell(w) + rest
    case Number(n) => EmitNumeral(n, rest)
    case Text(ps) => EmitText(ps, rest)
    case Empty(o, gap) => [Open(o)] + (gap + ([Close(o)] + rest))
    case Node(o, es) => [Open(o)] + EmitElems(es, [Close(o)] + rest)
  }

  /** The first element of a container with its blanks, up to what separates it from the rest. */
  function EmitFirst(es: Elems, tail: string): string
    decreases es, 0
  {
    es.pre + EmitKey(es.key, Emit(es.value, es.post + tail))
  }

  function EmitElems(es: Elems, rest: string): string
    decreases es, 1
  {
    EmitFirst(es, if es.More? then [','] + EmitElems(es.rest, rest) else rest)
  }

  function Print(v: Value): string {
    Emit(v, "")
  }

  // ---------------------------------------------------------- well-formedness

  predicate GoodPiece(p: Piece) {
    match p
    case Plain(c) => c != '"' && c != '\\' && ' ' <= c
    case Short(c) => IsShortEscape(c)
    case Unicode(h1, h2, h3, h4) => IsHex(h1) && IsHex(h2) && IsHex(h3) && IsHex(h4)
  }

  predicate GoodPieces(ps: seq<Piece>) {
    forall i :: 0 <= i < |ps| ==> GoodPiece(ps[i])
  }

  predicate GoodExponent(e: Exponent) {
    match e
    case NoExponent => true
    case Exponent(letter, sign, digits) =>
      (letter == 'e' || letter == 'E') && (sign == "" || sign == "+" || sign == "-")
      && digits != "" && AllDigits(digits)
  }

  predicate GoodNumeral(n: Numeral) {
    && n.whole != "" && AllDigits(n.whole) && (n.whole[0] == '0' ==> n.whole == "0")
    && AllDigits(n.fraction) && GoodExponent(n.exponent)
  }

  predicate GoodKey(k: Key, keyed: bool) {
    match k
    case NoKey => !keyed
    case Key(pieces, gap1, gap2) => keyed && GoodPieces(pieces) && Blank(gap1) && Blank(gap2)
  }

  predicate Good(v: Value) {
    match v
    case Literal(w) => true
    case Number(n) => GoodNumeral(n)
    case Text(ps) => GoodPieces(ps)
    case Empty(o, gap) => Blank(gap)
    case Node(o, es) => GoodElems(es, o)
  }

  predicate GoodElems(es: Elems, keyed: bool) {
    && Blank(es.pre) && GoodKey(es.key, keyed) && Good(es.value) && Blank(es.post)
    && (es.More? ==> GoodElems(es.rest, keyed))
  }

  /** The values of a container, in order. */
  function Values(es: Elems): (vs: seq<Value>) {
    [es.value] + if es.More? then Values(es.rest) else []
  }

  predicate IsArray(v: Value) {
    (v.Empty? || v.Node?) && !v.isObject
  }

  predicate IsObject(v: Value) {
    (v.Empty? || v.Node?) && v.isObject
  }

  function ArrayValues(v: Value): seq<Value>
    requires IsArray(v)
  {
    if v.Empty? then [] else Values(v.elems)
  }
}
