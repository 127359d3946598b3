/** Decimal numerals as digit sequences, most significant digit first. */
module Decimal {
  type Digit = d: int | 0 <= d < 10

  function Digits(n: nat): (ds: seq<Digit>)
    ensures ds != []
    ensures n != 0 ==> ds[0] != 0
  {
    if n < 10 then [n] else Digits(n / 10) + [n % 10]
  }

  function Value(ds: seq<Digit>): nat {
    if ds == [] then 0 else 10 * Value(ds[..|ds| - 1]) + ds[|ds| - 1]
  }

  function Pow10(k: nat): (p: nat)
    ensures p >= 1
  {
    if k == 0 then 1 else 10 * Pow10(k - 1)
  }

  function Zeros(k: nat): (z: seq<Digit>)
    ensures |z| == k
  {
    seq(k, _ => 0)
  }

  /** Zero-padded to at least `width` digits, as a `0Nd` format does. */
  function Padded(n: nat, width: nat): (ds: seq<Digit>)
    ensures |ds| >= width
  {
    if |Digits(n)| < width then Zeros(width - |Digits(n)|) + Digits(n) else Digits(n)
  }

  lemma {:induction false} ValueOfDigits(n: nat)
    ensures Value(Digits(n)) == n
  {
    if n >= 10 {
      ValueOfDigits(n / 10);
      assert Digits(n)[..|Digits(n)| - 1] == Digits(n / 10);
    } else {
      assert [n as Digit][..0] == [];
    }
  }

  lemma {:induction false} ValueIgnoresLeadingZeros(k: nat, ds: seq<Digit>)
    ensures Value(Zeros(k) + ds) == Value(ds)
  {
    if ds == [] {
      assert Zeros(k) + ds == Zeros(k);
      ValueOfZeros(k);
    } else {
      var n := |ds| - 1;
      ValueIgnoresLeadingZeros(k, ds[..n]);
      assert (Zeros(k) + ds)[..k + n] == Zeros(k) + ds[..n];
    }
  }

  lemma {:induction false} ValueOfZeros(k: nat)
    ensures Value(Zeros(k)) == 0
  {
    if k > 0 {
      ValueOfZeros(k - 1);
      assert Zeros(k)[..k - 1] == Zeros(k - 1);
    }
  }

  /** Formatting loses nothing: the numeral of `n` reads back as `n`. */
  lemma ValueOfPadded(n: nat, width: nat)
    ensures Value(Padded(n, width)) == n
  {
    ValueOfDigits(n);
    if |Digits(n)| < width { ValueIgnoresLeadingZeros(width - |Digits(n)|, Digits(n)); }
  }

  /** A numeral has at most `k` digits exactly when its value is below 10^k. */
  lemma {:induction false} DigitCount(n: nat, k: nat)
    requires k >= 1
    ensures |Digits(n)| <= k <==> n < Pow10(k)
  {
    if n < 10 {
      assert Pow10(k) == 10 * Pow10(k - 1);
    } else if k == 1 {
      assert Pow10(1) == 10 * Pow10(0);
    } else {
      DigitCount(n / 10, k - 1);
    }
  }

  lemma {:induction false} ValueBelowPower(ds: seq<Digit>)
    ensures Value(ds) < Pow10(|ds|)
  {
    if ds != [] { ValueBelowPower(ds[..|ds| - 1]); }
  }

  /** Lexicographic order on digit sequences: a proper prefix comes first. */
  predicate Before(a: seq<Digit>, b: seq<Digit>) {
    b != [] && (a == [] || a[0] < b[0] || (a[0] == b[0] && Before(a[1..], b[1..])))
  }

  lemma {:induction false} ValueSplitsFront(ds: seq<Digit>)
    requires ds != []
    ensures Value(ds) == ds[0] * Pow10(|ds| - 1) + Value(ds[1..])
  {
    var n := |ds| - 1;
    if n == 0 {
      assert ds[..0] == [] && ds[1..] == [];
    } else {
      ValueSplitsFront(ds[..n]);
      assert ds[..n][1..] == ds[1..][..n - 1];
    }
  }

  lemma LeadingDigitDecides(x: int, y: int, p: int, u: int, v: int)
    requires x < y && 0 <= u < p && 0 <= v
    ensures x * p + u < y * p + v
  {
    assert x * p + p == (x + 1) * p;
    MultiplyKeepsOrder(x + 1, y, p);
  }

  lemma MultiplyKeepsOrder(x: int, y: int, p: int)
    requires x <= y && 0 <= p
    ensures x * p <= y * p
  {
    assert 0 <= (y - x) * p == y * p - x * p;
  }

  /** On numerals of one length, lexicographic order is numeric order. */
  lemma {:induction false} EqualLengthOrder(a: seq<Digit>, b: seq<Digit>)
    requires |a| == |b|
    ensures Before(a, b) <==> Value(a) < Value(b)
  {
    if a != [] {
      var p := Pow10(|a| - 1);
      var u, v := Value(a[1..]), Value(b[1..]);
      assert Value(a) == a[0] * p + u by { ValueSplitsFront(a); }
      assert Value(b) == b[0] * p + v by { ValueSplitsFront(b); }
      assert u < p && v < p by { ValueBelowPower(a[1..]); ValueBelowPower(b[1..]); }
      if a[0] < b[0] {
        LeadingDigitDecides(a[0], b[0], p, u, v);
      } else if b[0] < a[0] {
        LeadingDigitDecides(b[0], a[0], p, v, u);
      } else {
        EqualLengthOrder(a[1..], b[1..]);
      }
    }
  }
}
