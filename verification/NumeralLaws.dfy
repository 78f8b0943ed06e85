/** What number a JSON numeral writes, read off its digits. */
module NumeralLaws {
  import opened Decimals
  import opened Wrappers
  import opened JsonText
  import opened Decode
  import opened DecodeLaws
  import opened Resolve

  function DigitValue(c: char): nat
    requires IsDigit(c)
  {
    c as nat - '0' as nat
  }

  lemma NaturalPush(w: string, c: char)
    requires AllDigits(w) && IsDigit(c)
    ensures AllDigits(w + [c]) && Natural(w + [c]) == 10 * Natural(w) + DigitValue(c)
  {
    assert (w + [c])[..|w|] == w;
  }

  /** More digits refine a number without leaving the unit it is in. */
  lemma {:induction false} NaturalRefined(w: string, f: string)
    requires AllDigits(w) && AllDigits(f)
    ensures AllDigits(w + f)
    ensures Natural(w) * Pow10(|f|) <= Natural(w + f) < (Natural(w) + 1) * Pow10(|f|)
    ensures Natural(w + f) == Natural(w) * Pow10(|f|) <==> forall i :: 0 <= i < |f| ==> f[i] == '0'
  {
    hide Natural, Pow10;
    PowersOfTen(if f == "" then 0 else |f| - 1);
    if f == "" {
      assert w + f == w;
    } else {
      var front, c := f[..|f| - 1], f[|f| - 1];
      NaturalRefined(w, front);
      assert w + f == (w + front) + [c] && f == front + [c];
      NaturalPush(w + front, c);
      TenTimes(Natural(w), Natural(w + front), Pow10(|front|), DigitValue(c));
      ZerosPush(front, c);
    }
  }

  lemma ZerosPush(f: string, c: char)
    requires IsDigit(c)
    ensures (forall i :: 0 <= i < |f + [c]| ==> (f + [c])[i] == '0') <==> (forall i :: 0 <= i < |f| ==> f[i] == '0') && DigitValue(c) == 0
  {
    assert (f + [c])[|f|] == c;
    assert forall i :: 0 <= i < |f| ==> (f + [c])[i] == f[i];
  }

  lemma TenTimes(a: nat, b: nat, p: nat, d: nat)
    requires a * p <= b < (a + 1) * p && d < 10
    ensures a * (10 * p) <= 10 * b + d < (a + 1) * (10 * p)
    ensures 10 * b + d == a * (10 * p) <==> b == a * p && d == 0
  {
    assert a * (10 * p) == 10 * (a * p);
    assert (a + 1) * (10 * p) == 10 * ((a + 1) * p);
  }

  predicate Unsigned(n: Numeral) {
    GoodNumeral(n) && !n.minus && n.exponent.NoExponent?
  }

  lemma Divided(a: nat, b: nat, p: nat)
    requires p > 0
    ensures a * p <= b ==> a as real <= b as real / p as real
    ensures b < a * p ==> b as real / p as real < a as real
    ensures b == a * p <==> b as real / p as real == a as real
  {
    assert (a * p) as real == a as real * p as real;
    assert b as real / p as real * p as real == b as real;
  }

  /** Without sign and exponent a numeral is its whole part and less than one more; it is just the
  whole part exactly if all digits behind the point are zeros. */
  lemma WholePart(n: Numeral)
    requires Unsigned(n)
    ensures Natural(n.whole) as real <= NumeralValue(n) < Natural(n.whole) as real + 1.0
    ensures NumeralValue(n) == Natural(n.whole) as real <==> forall i :: 0 <= i < |n.fraction| ==> n.fraction[i] == '0'
  {
    hide Natural, Pow10;
    NaturalRefined(n.whole, n.fraction);
    var b, p := Natural(n.whole + n.fraction), Pow10(|n.fraction|);
    Divided(Natural(n.whole), b, p);
    Divided(Natural(n.whole) + 1, b, p);
  }

  /** One more digit behind the point adds so many of the next smaller unit. */
  lemma NextDigit(n: Numeral, c: char)
    requires Unsigned(n) && IsDigit(c)
    ensures Unsigned(n.(fraction := n.fraction + [c]))
    ensures NumeralValue(n.(fraction := n.fraction + [c]))
         == NumeralValue(n) + DigitValue(c) as real / Pow10(|n.fraction| + 1) as real
  {
    hide Natural;
    var m := n.(fraction := n.fraction + [c]);
    assert m.whole + m.fraction == (n.whole + n.fraction) + [c];
    NaturalPush(n.whole + n.fraction, c);
    TenthMore(Natural(n.whole + n.fraction), DigitValue(c), Pow10(|n.fraction|));
  }

  lemma TenthMore(b: nat, d: nat, p: nat)
    requires p > 0
    ensures (10 * b + d) as real / (10 * p) as real == b as real / p as real + d as real / (10 * p) as real
  {
    var q := p as real;
    assert (10 * p) as real == 10.0 * q;
    assert (10 * b + d) as real == 10.0 * b as real + d as real;
    assert 10.0 * b as real / (10.0 * q) == b as real / q;
  }

  /** Ten to the power of `n`: one, and ten times as much for each step. */
  lemma PowersOfTen(n: nat)
    ensures Pow10(0) == 1 && Pow10(n + 1) == 10 * Pow10(n)
  {
  }

  /** A minus negates. */
  lemma MinusNegates(n: Numeral)
    requires GoodNumeral(n) && !n.minus
    ensures NumeralValue(n.(minus := true)) == -NumeralValue(n)
  {
    hide Natural, Pow10;
  }

  /** An exponent moves the point: to the right, or with a minus to the left. */
  lemma ExponentMoves(n: Numeral)
    requires GoodNumeral(n) && n.exponent.Exponent?
    ensures var base := NumeralValue(n.(exponent := NoExponent));
            var power := Pow10(Natural(n.exponent.digits)) as real;
            if n.exponent.sign == "-" then NumeralValue(n) * power == base else NumeralValue(n) == base * power
  {
    hide Natural, Pow10;
  }

  // ------------------------------------------------------ bands, as spelled

  predicate OnlyZeros(f: string) {
    forall i :: 0 <= i < |f| ==> f[i] == '0'
  }

  lemma FirstDigit(n: Numeral)
    requires Unsigned(n) && n.fraction != ""
    ensures var tenths := Natural(n.whole) as real + DigitValue(n.fraction[0]) as real / 10.0;
            tenths <= NumeralValue(n) < tenths + 0.1
  {
    hide Natural, Pow10;
    var f, rest := n.fraction[..1], n.fraction[1..];
    assert n.whole + n.fraction == (n.whole + f) + rest && f == [n.fraction[0]];
    NaturalPush(n.whole, n.fraction[0]);
    NaturalRefined(n.whole + f, rest);
    PowersOfTen(|rest|);
    Tenths(Natural(n.whole + f), Natural(n.whole + n.fraction), Pow10(|rest|), Natural(n.whole), DigitValue(n.fraction[0]));
  }

  lemma Tenths(a: nat, b: nat, p: nat, w: nat, d: nat)
    requires p > 0 && a * p <= b < (a + 1) * p && a == 10 * w + d
    ensures w as real + d as real / 10.0 <= b as real / (10 * p) as real < w as real + d as real / 10.0 + 0.1
  {
    Divided(a, b, p);
    Divided(a + 1, b, p);
    assert (10 * p) as real == 10.0 * p as real;
    assert b as real / (10.0 * p as real) == b as real / p as real / 10.0;
    assert a as real == 10.0 * w as real + d as real;
  }

  /** A numeral without sign and exponent lands in the top band exactly if it is spelled as `0.8...` or
  `0.9...`, as one, or as a whole number from 80 to 100, zeros behind the point aside. */
  lemma HighSpelled(n: Numeral, c: Contract)
    requires Unsigned(n)
    ensures var read := DecodeConfidence(Some(Number(n)), c);
            (read.Some? && BandFor(read.value) == High) <==>
              || (Natural(n.whole) == 0 && n.fraction != "" && DigitValue(n.fraction[0]) >= 8)
              || (Natural(n.whole) == 1 && OnlyZeros(n.fraction))
              || (80 <= Natural(n.whole) <= 100 && OnlyZeros(n.fraction))
  {
    hide Natural, NumeralValue, DecodeConfidence, Pow10;
    var x := NumeralValue(n);
    HighNumbers(Number(n), c);
    WholePart(n);
    if n.fraction != "" {
      FirstDigit(n);
    }
    WholeWhen(x, Natural(n.whole));
  }

  lemma WholeWhen(x: real, w: nat)
    requires w as real <= x < w as real + 1.0
    ensures Whole(x) <==> x == w as real
  {
    assert x.Floor == w;
  }
}
