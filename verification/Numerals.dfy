/** Decimal numerals as text. */
module Numerals {
  import Decimal
  import opened TextOrder

  function DigitChar(d: Decimal.Digit): char { ('0' as int + d) as char }

  function Numeral(ds: seq<Decimal.Digit>): (s: string)
    ensures |s| == |ds|
  {
    seq(|ds|, i requires 0 <= i < |ds| => DigitChar(ds[i]))
  }

  predicate IsDigit(c: char) { '0' <= c <= '9' }

  function DigitOf(c: char): Decimal.Digit
    requires IsDigit(c)
  {
    c as int - '0' as int
  }

  function DigitsOf(s: string): (ds: seq<Decimal.Digit>)
    requires forall c <- s :: IsDigit(c)
    ensures |ds| == |s|
  {
    seq(|s|, i requires 0 <= i < |s| => DigitOf(s[i]))
  }

  /** The number that a text of digits denotes. */
  function NumeralValue(s: string): nat
    requires forall c <- s :: IsDigit(c)
  {
    Decimal.Value(DigitsOf(s))
  }

  lemma NumeralValueStep(s: string)
    requires s != "" && forall c <- s :: IsDigit(c)
    ensures var n := |s| - 1;
      (forall c <- s[..n] :: IsDigit(c)) && NumeralValue(s) == 10 * NumeralValue(s[..n]) + DigitOf(s[n])
  {
    var n := |s| - 1;
    assert DigitsOf(s)[..n] == DigitsOf(s[..n]);
  }

  lemma NumeralReadsBack(ds: seq<Decimal.Digit>)
    ensures (forall c <- Numeral(ds) :: IsDigit(c)) && DigitsOf(Numeral(ds)) == ds
  {
    forall i | 0 <= i < |ds| ensures IsDigit(Numeral(ds)[i]) {}
    assert DigitsOf(Numeral(ds)) == ds;
  }

  lemma NumeralOfDigits(s: string)
    requires forall c <- s :: IsDigit(c)
    ensures Numeral(DigitsOf(s)) == s
  {
    forall i | 0 <= i < |s| ensures Numeral(DigitsOf(s))[i] == s[i] { assert IsDigit(s[i]); }
  }

  /** Numerals compare as text the way their digits compare. */
  lemma {:induction false} NumeralOrder(a: seq<Decimal.Digit>, b: seq<Decimal.Digit>)
    ensures Less(Numeral(a), Numeral(b)) <==> Decimal.Before(a, b)
  {
    if a != [] && b != [] {
      NumeralOrder(a[1..], b[1..]);
      assert Numeral(a)[1..] == Numeral(a[1..]) && Numeral(b)[1..] == Numeral(b[1..]);
    }
  }
}
