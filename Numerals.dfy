/** Fixed-width and minimal digit strings, as the identifier generators print them, and their values. */
module Numerals {
  import opened Text

  function Pow(b: nat, e: nat): (r: nat)
    ensures b > 0 ==> r > 0
  {
    if e == 0 then 1 else b * Pow(b, e - 1)
  }

  predicate IsDecimalDigit(c: char) { '0' <= c <= '9' }

  predicate IsLowerHexDigit(c: char) { '0' <= c <= '9' || 'a' <= c <= 'f' }

  predicate IsUpperHexDigit(c: char) { '0' <= c <= '9' || 'A' <= c <= 'F' }

  predicate AllDecimal(s: string) { forall i :: 0 <= i < |s| ==> IsDecimalDigit(s[i]) }

  predicate AllLowerHex(s: string) { forall i :: 0 <= i < |s| ==> IsLowerHexDigit(s[i]) }

  predicate AllUpperHex(s: string) { forall i :: 0 <= i < |s| ==> IsUpperHexDigit(s[i]) }

  /** The lower-case digit of d, the form .NET prints. */
  function DigitChar(d: nat): (c: char)
    requires d < 16
    ensures IsLowerHexDigit(c)
    ensures d < 10 ==> IsDecimalDigit(c)
  {
    if d < 10 then ('0' as int + d) as char else ('a' as int + d - 10) as char
  }

  /** .ToUpper() of lower-case hexadecimal text is upper-case hexadecimal text, and lower-casing
      it again gives the original text back. */
  lemma UpperOfLowerHex(s: string)
    requires AllLowerHex(s)
    ensures AllUpperHex(Upper(s)) && Lower(Upper(s)) == s
  {
    forall i | 0 <= i < |s| ensures IsUpperHexDigit(Upper(s)[i]) && Lower(Upper(s))[i] == s[i] {
      assert Upper(s)[i] == UpperChar(s[i]);
    }
  }

  /** The value of a digit character (upper- or lower-case hexadecimal). */
  function DigitValue(c: char): nat
  {
    if '0' <= c <= '9' then c as int - '0' as int
    else if 'a' <= c <= 'f' then c as int - 'a' as int + 10
    else if 'A' <= c <= 'F' then c as int - 'A' as int + 10
    else 0
  }

  /** The number a digit string denotes in the given base, most significant digit first. */
  function ValueOf(s: string, base: nat): nat
  {
    if s == [] then 0 else ValueOf(s[..|s| - 1], base) * base + DigitValue(s[|s| - 1])
  }

  /** x printed with exactly `width` digits, zero-padded on the left (the "D4", "x8" style formats). */
  function PadDigits(x: nat, width: nat, base: nat): (r: string)
    requires 2 <= base <= 16
    ensures |r| == width
    ensures AllLowerHex(r)
    ensures base <= 10 ==> AllDecimal(r)
    decreases width
  {
    if width == 0 then [] else PadDigits(x / base, width - 1, base) + [DigitChar(x % base)]
  }

  /** The shortest decimal numeral of n, as string interpolation prints an int. */
  function DecimalString(n: nat): (r: string)
    ensures |r| > 0 && AllDecimal(r)
  {
    if n < 10 then [DigitChar(n)] else DecimalString(n / 10) + [DigitChar(n % 10)]
  }

  lemma DigitRoundTrip(d: nat)
    requires d < 16
    ensures DigitValue(DigitChar(d)) == d
  {
  }

  /** Reading back a padded numeral gives the number when it fits the width. */
  lemma {:induction false} PadDigitsRoundTrip(x: nat, width: nat, base: nat)
    requires 2 <= base <= 16 && x < Pow(base, width)
    ensures ValueOf(PadDigits(x, width, base), base) == x
    decreases width
  {
    if width > 0 {
      QuotientFits(x, width, base);
      PadDigitsRoundTrip(x / base, width - 1, base);
      AppendDigit(PadDigits(x / base, width - 1, base), x, base);
    }
  }

  /** Dropping the last digit of a number that fits a width leaves one that fits a digit fewer. */
  lemma QuotientFits(x: nat, width: nat, base: nat)
    requires 2 <= base && width > 0 && x < Pow(base, width)
    ensures x / base < Pow(base, width - 1)
  {
    var p := Pow(base, width - 1);
    assert Pow(base, width) == base * p;
    DivUpper(x, base, p);
  }

  /** Appending the last digit of x to a numeral of x / base gives a numeral of x. */
  lemma AppendDigit(s: string, x: nat, base: nat)
    requires 2 <= base <= 16 && ValueOf(s, base) == x / base
    ensures ValueOf(s + [DigitChar(x % base)], base) == x
  {
    ValueOfSnoc(s, DigitChar(x % base), base);
    DigitRoundTrip(x % base);
    DivMod(x, base);
  }

  lemma ValueOfSnoc(s: string, c: char, base: nat)
    ensures ValueOf(s + [c], base) == ValueOf(s, base) * base + DigitValue(c)
  {
    assert (s + [c])[..|s|] == s;
  }

  /** Two digit strings concatenate to a digit string, and each half slices back out. */
  lemma Halves(a: string, b: string)
    ensures (a + b)[..|a|] == a && (a + b)[|a|..] == b
    ensures AllDecimal(a) && AllDecimal(b) ==> AllDecimal(a + b)
  {
    assert (a + b)[..|a|] == a;
    assert (a + b)[|a|..] == b;
  }

  /** The same for three digit strings. */
  lemma Pieces(a: string, b: string, c: string)
    ensures (a + b + c)[..|a|] == a && (a + b + c)[|a|..|a| + |b|] == b && (a + b + c)[|a| + |b|..] == c
    ensures AllDecimal(a) && AllDecimal(b) && AllDecimal(c) ==> AllDecimal(a + b + c)
  {
    assert (a + b + c)[..|a|] == a;
    assert (a + b + c)[|a|..|a| + |b|] == b;
    assert (a + b + c)[|a| + |b|..] == c;
  }

  /** Euclidean division of naturals. */
  lemma DivMod(x: nat, y: nat)
    requires y > 0
    ensures x == (x / y) * y + x % y && 0 <= x % y < y
  {
  }

  lemma MulMonotone(b: nat, m: nat, n: nat)
    requires m <= n
    ensures b * m <= b * n
  {
    assert b * n == b * m + b * (n - m);
  }

  lemma DivUpper(x: nat, b: nat, p: nat)
    requires b > 0 && x < b * p
    ensures x / b < p
  {
    var q := x / b;
    assert x == b * q + x % b;
    if p <= q {
      MulMonotone(b, p, q);
      assert false;
    }
  }

  lemma DivLower(x: nat, b: nat, p: nat)
    requires b > 0 && b * p <= x
    ensures p <= x / b
  {
    var q := x / b;
    assert x == b * q + x % b;
    if q < p {
      MulMonotone(b, q + 1, p);
      assert false;
    }
  }

  lemma DecimalPowers()
    ensures Pow(10, 2) == 100 && Pow(10, 4) == 10000
    ensures Pow(10, 7) == 10000000 && Pow(10, 8) == 100000000
  {
    assert Pow(10, 2) == 100;
    assert Pow(10, 4) == 10000;
    assert Pow(10, 6) == 1000000;
  }

  /** A number with exactly k decimal digits prints as its k-digit padded numeral. */
  lemma {:induction false} DecimalStringIsPadded(n: nat, k: nat)
    requires k > 0 && Pow(10, k - 1) <= n < Pow(10, k)
    ensures DecimalString(n) == PadDigits(n, k, 10)
    decreases k
  {
    if n < 10 {
      if k > 1 {
        assert false;
      }
    } else {
      if k == 1 {
        assert false;
      }
      DivUpper(n, 10, Pow(10, k - 1));
      DivLower(n, 10, Pow(10, k - 2));
      DecimalStringIsPadded(n / 10, k - 1);
    }
  }
}
