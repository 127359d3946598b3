/**
 Automatic names: the first free preferred agent name, else the first free numbered one; and the loop
 that claims an automatic name, giving up each name whose claim fails.
 */
module NameAllocation {
  import Decimal
  import opened Numerals

  /** `stem` followed by the number, zero-padded to `width`. */
  function Numbered(stem: string, width: nat, i: nat): string { stem + Numeral(Decimal.Padded(i, width)) }

  lemma NumbersDiffer(stem: string, width: nat, i: nat, j: nat)
    requires Numbered(stem, width, i) == Numbered(stem, width, j)
    ensures i == j
  {
    var x, y := Numeral(Decimal.Padded(i, width)), Numeral(Decimal.Padded(j, width));
    assert (stem + x)[|stem|..] == x && (stem + y)[|stem|..] == y;
    NumeralReadsBack(Decimal.Padded(i, width));
    NumeralReadsBack(Decimal.Padded(j, width));
    Decimal.ValueOfPadded(i, width);
    Decimal.ValueOfPadded(j, width);
  }

  /** The names numbered 1 to n. */
  ghost function FirstNames(stem: string, width: nat, n: nat): set<string> {
    set i | 1 <= i <= n :: Numbered(stem, width, i)
  }

  lemma {:induction false} FirstNamesCount(stem: string, width: nat, n: nat)
    ensures |FirstNames(stem, width, n)| == n
  {
    if n > 0 {
      FirstNamesCount(stem, width, n - 1);
      var name := Numbered(stem, width, n);
      assert FirstNames(stem, width, n) == FirstNames(stem, width, n - 1) + {name};
      if name in FirstNames(stem, width, n - 1) {
        var i :| 1 <= i <= n - 1 && Numbered(stem, width, i) == name;
        NumbersDiffer(stem, width, i, n);
      }
    }
  }

  lemma SubsetCount(a: set<string>, b: set<string>)
    requires a <= b
    ensures |a| <= |b|
  {
    if a != {} {
      var x :| x in a;
      SubsetCount(a - {x}, b - {x});
    }
  }

  /** Finitely many taken names cannot hold every number. */
  lemma TakenBound(stem: string, width: nat, n: nat, taken: set<string>)
    requires forall i :: 1 <= i <= n ==> Numbered(stem, width, i) in taken
    ensures n <= |taken|
  {
    FirstNamesCount(stem, width, n);
    SubsetCount(FirstNames(stem, width, n), taken);
  }

  /** The least free number, found after at most one more try than there are taken names. */
  method FirstFreeNumber(stem: string, width: nat, taken: set<string>) returns (index: nat)
    ensures 1 <= index <= |taken| + 1 && Numbered(stem, width, index) !in taken
    ensures forall i :: 1 <= i < index ==> Numbered(stem, width, i) in taken
  {
    index := 1;
    while Numbered(stem, width, index) in taken
      invariant 1 <= index <= |taken| + 1
      invariant forall i :: 1 <= i < index ==> Numbered(stem, width, i) in taken
      decreases |taken| + 1 - index
    {
      TakenBound(stem, width, index, taken);
      index := index + 1;
    }
  }

  /** A retry's identifier: the least retry number no existing run has. */
  method NextRetryId(original: string, existing: set<string>) returns (candidate: string)
    ensures candidate !in existing
    ensures exists k :: (1 <= k <= |existing| + 1 && candidate == Numbered(original + "-retry", 0, k) &&
      forall i :: 1 <= i < k ==> Numbered(original + "-retry", 0, i) in existing)
  {
    var index := FirstFreeNumber(original + "-retry", 0, existing);
    candidate := Numbered(original + "-retry", 0, index);
  }

  /** `name` is the first free choice: no preferred name before it, and no lower number, is free. */
  ghost predicate FirstChoice(preferred: seq<string>, prefix: string, taken: set<string>, name: string) {
    name !in taken &&
    ((exists k :: 0 <= k < |preferred| && preferred[k] == name && forall j :: 0 <= j < k ==> preferred[j] in taken) ||
    ((forall x <- preferred :: x in taken) &&
    exists k :: 1 <= k && name == Numbered(prefix + "-", 2, k) && forall i :: 1 <= i < k ==> Numbered(prefix + "-", 2, i) in taken))
  }

  /** Configuration refuses empty preferred names. */
  method AllocateName(preferred: seq<string>, prefix: string, taken: set<string>) returns (name: string)
    requires "" !in preferred
    ensures FirstChoice(preferred, prefix, taken, name)
  {
    var k := 0;
    while k < |preferred| && preferred[k] in taken
      invariant k <= |preferred| && forall j :: 0 <= j < k ==> preferred[j] in taken
    {
      k := k + 1;
    }
    if k < |preferred| { return preferred[k]; }
    var index := FirstFreeNumber(prefix + "-", 2, taken);
    name := Numbered(prefix + "-", 2, index);
  }

  /**
   The claim loop of an automatic name. `active(t)` is what the t-th scan sees, `refused(t, x)` whether
   the t-th claim finds `x` in use. If only finitely many names are ever refused, the loop ends, within
   one try more than there are such names, with a claimed name that was the first choice among the
   names neither active nor refused before.
   */
  method ClaimAutomaticName(
    preferred: seq<string>, prefix: string, active: nat -> set<string>, refused: (nat, string) -> bool, ghost contested: set<string>)
    returns (name: string, attempt: nat, unavailable: set<string>)
    requires "" !in preferred && forall t, x :: refused(t, x) ==> x in contested
    ensures attempt <= |contested| && attempt == |unavailable| && unavailable <= contested
    ensures !refused(attempt, name) && FirstChoice(preferred, prefix, active(attempt) + unavailable, name)
  {
    attempt, unavailable := 0, {};
    while true
      invariant attempt == |unavailable| && unavailable <= contested
      decreases |contested| - |unavailable|
    {
      SubsetCount(unavailable, contested);
      name := AllocateName(preferred, prefix, active(attempt) + unavailable);
      if !refused(attempt, name) { return; }
      assert name !in unavailable;
      SubsetCount(unavailable + {name}, contested);
      unavailable := unavailable + {name};
      attempt := attempt + 1;
    }
  }
}
