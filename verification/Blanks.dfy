/** White space as Python's `str` methods see it. */
module Blanks {
  /** The code points that `str.isspace` accepts. */
  predicate IsSpaceCode(n: nat) {
    || 0x09 <= n <= 0x0D || 0x1C <= n <= 0x20 || n == 0x85 || n == 0xA0 || n == 0x1680
    || 0x2000 <= n <= 0x200A || n == 0x2028 || n == 0x2029 || n == 0x202F || n == 0x205F || n == 0x3000
  }

  predicate IsSpace(c: char) {
    IsSpaceCode(c as nat)
  }

  function TrimLeft<T>(s: seq<T>, edge: T -> bool): seq<T> {
    if s != [] && edge(s[0]) then TrimLeft(s[1..], edge) else s
  }

  function TrimRight<T>(s: seq<T>, edge: T -> bool): seq<T> {
    if s != [] && edge(s[|s| - 1]) then TrimRight(s[..|s| - 1], edge) else s
  }

  function LeftStrip(s: string): string {
    TrimLeft(s, IsSpace)
  }

  function RightStrip(s: string): string {
    TrimRight(s, IsSpace)
  }

  /** `str.strip()`. */
  function Strip(s: string): string {
    RightStrip(LeftStrip(s))
  }

  function WordLength(s: string): (n: nat)
    ensures n <= |s| && (s != "" && !IsSpace(s[0]) ==> n > 0)
  {
    if s != "" && !IsSpace(s[0]) then 1 + WordLength(s[1..]) else 0
  }

  /** `str.split()`. */
  function Words(s: string): seq<string> {
    if s == "" then []
    else if IsSpace(s[0]) then Words(s[1..])
    else [s[..WordLength(s)]] + Words(s[WordLength(s)..])
  }

  /** `" ".join`. */
  function Spaced(parts: seq<string>): string {
    if parts == [] then ""
    else if |parts| == 1 then parts[0]
    else parts[0] + " " + Spaced(parts[1..])
  }

  /** Everything in `s` is an edge character. */
  predicate AllEdges<T>(s: seq<T>, edge: T -> bool) {
    forall i :: 0 <= i < |s| ==> edge(s[i])
  }

  lemma {:induction false} LeftTrims<T>(s: seq<T>, edge: T -> bool)
    ensures var t := TrimLeft(s, edge);
            && |t| <= |s| && s[|s| - |t|..] == t && AllEdges(s[..|s| - |t|], edge)
            && (t != [] ==> !edge(t[0]))
  {
    if s != [] && edge(s[0]) {
      LeftTrims(s[1..], edge);
    }
  }

  lemma {:induction false} RightTrims<T>(s: seq<T>, edge: T -> bool)
    ensures var t := TrimRight(s, edge);
            && |t| <= |s| && s[..|t|] == t && AllEdges(s[|t|..], edge)
            && (t != [] ==> !edge(t[|t| - 1]))
  {
    if s != [] && edge(s[|s| - 1]) {
      RightTrims(s[..|s| - 1], edge);
    }
  }

  /** Trimming at both ends takes edge characters off and nothing else, and leaves none at the ends. */
  lemma Trims<T>(s: seq<T>, edge: T -> bool) returns (before: seq<T>, after: seq<T>)
    ensures var t := TrimRight(TrimLeft(s, edge), edge);
            && s == before + t + after && AllEdges(before, edge) && AllEdges(after, edge)
            && (t != [] ==> !edge(t[0]) && !edge(t[|t| - 1]))
  {
    hide AllEdges, TrimLeft, TrimRight;
    var l := TrimLeft(s, edge);
    var t := TrimRight(l, edge);
    LeftTrims(s, edge);
    RightTrims(l, edge);
    before, after := s[..|s| - |l|], l[|t|..];
    assert s == before + l && l == t + after;
    assert t != [] ==> t[0] == l[0];
  }
}
