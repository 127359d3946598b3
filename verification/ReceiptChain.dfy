/**
 The lifecycle receipt chain as it is stored: one read-only file per receipt, named by a zero-padded
 sequence number and the action, read back in the sorted order of the file names.
 */
module ReceiptChain {
  import opened Wrappers
  import Decimal
  import opened Numerals
  import opened ReceiptText
  import opened TextOrder

  /** What a reader makes of every file, by name; `None` for a file that is no receipt. */
  type Directory = map<string, Option<Receipt>>

  /** The largest number six digits can write. */
  const MAX_RECEIPTS := 999999

  // ---------------------------------------------------------------- file names

  function Suffix(a: Action): (s: string)
    ensures |s| == 14 && s[0] == '-'
  {
    match a
    case Reviewed => "-reviewed.json"
    case Accepted => "-accepted.json"
    case Rejected => "-rejected.json"
  }

  function NameOf(k: nat, a: Action): string { Numeral(Decimal.Padded(k, 6)) + Suffix(a) }

  function ParseSuffix(s: string): Option<Action> {
    if s == Suffix(Reviewed) then Some(Reviewed)
    else if s == Suffix(Accepted) then Some(Accepted)
    else if s == Suffix(Rejected) then Some(Rejected)
    else None
  }

  /** Six digits, a dash, an action, `.json`. */
  function ParseName(name: string): Option<(nat, Action)> {
    if |name| < 6 || !(forall c <- name[..6] :: IsDigit(c)) then None
    else
      var a := ParseSuffix(name[6..]);
      if a.None? then None else Some((NumeralValue(name[..6]), a.value))
  }

  lemma {:induction false} SameValueSameDigits(a: seq<Decimal.Digit>, b: seq<Decimal.Digit>)
    requires |a| == |b| && Decimal.Value(a) == Decimal.Value(b)
    ensures a == b
  {
    if a != [] {
      var n := |a| - 1;
      SameValueSameDigits(a[..n], b[..n]);
      assert a == a[..n] + [a[n]] && b == b[..n] + [b[n]];
    }
  }

  lemma PaddedWidth(k: nat)
    ensures |Decimal.Padded(k, 6)| == 6 <==> k <= MAX_RECEIPTS
  {
    Decimal.DigitCount(k, 6);
    PowerOfSix();
  }

  lemma NameHalves(k: nat, a: Action)
    ensures var w := |Decimal.Padded(k, 6)|;
      NameOf(k, a)[..w] == Numeral(Decimal.Padded(k, 6)) && NameOf(k, a)[w..] == Suffix(a)
  {}

  /** A name reads as number `k` and action `a` exactly when it is the name written for them, and only up to six digits. */
  lemma NameReadsExactly(name: string, k: nat, a: Action)
    ensures ParseName(name) == Some((k, a)) <==> name == NameOf(k, a) && k <= MAX_RECEIPTS
  {
    if k <= MAX_RECEIPTS { WrittenNameReads(k, a); }
    if ParseName(name) == Some((k, a)) { ReadNameIsWritten(name, k, a); }
  }

  lemma WrittenNameReads(k: nat, a: Action)
    requires k <= MAX_RECEIPTS
    ensures ParseName(NameOf(k, a)) == Some((k, a))
  {
    PaddedWidth(k);
    NameHalves(k, a);
    Decimal.ValueOfPadded(k, 6);
    NumeralReadsBack(Decimal.Padded(k, 6));
    SuffixReadsBack(a);
  }

  lemma SuffixReadsBack(a: Action)
    ensures ParseSuffix(Suffix(a)) == Some(a)
  {
    forall b | Suffix(a) == Suffix(b) ensures a == b { SuffixesDiffer(a, b); }
  }

  lemma ReadNameIsWritten(name: string, k: nat, a: Action)
    requires ParseName(name) == Some((k, a))
    ensures name == NameOf(k, a) && k <= MAX_RECEIPTS
  {
    var front, ds := DigitsOf(name[..6]), Decimal.Padded(k, 6);
    Decimal.ValueBelowPower(front);
    PowerOfSix();
    PaddedWidth(k);
    Decimal.ValueOfPadded(k, 6);
    SameValueSameDigits(front, ds);
    NumeralOfDigits(name[..6]);
    assert name == name[..6] + name[6..];
  }

  lemma PowerOfSix()
    ensures Decimal.Pow10(6) == 1000000
  {
    assert Decimal.Pow10(3) == 1000;
    assert Decimal.Pow10(6) == 1000 * Decimal.Pow10(3);
  }

  lemma NamesDiffer(i: nat, a: Action, j: nat, b: Action)
    requires NameOf(i, a) == NameOf(j, b)
    ensures i == j && a == b
  {
    var x, y := Decimal.Padded(i, 6), Decimal.Padded(j, 6);
    NameHalves(i, a);
    NameHalves(j, b);
    assert |x| == |y|;
    NumeralReadsBack(x);
    NumeralReadsBack(y);
    Decimal.ValueOfPadded(i, 6);
    Decimal.ValueOfPadded(j, 6);
    SuffixesDiffer(a, b);
  }

  lemma SuffixesDiffer(a: Action, b: Action)
    requires Suffix(a) == Suffix(b)
    ensures a == b
  {
    assert Suffix(Reviewed)[3] == 'v' && Suffix(Accepted)[3] == 'c' && Suffix(Rejected)[3] == 'j';
  }

  /** Six-digit names sort in numeric order, whatever their actions. */
  lemma NamesSortNumerically(i: nat, a: Action, j: nat, b: Action)
    requires i < j <= MAX_RECEIPTS
    ensures Less(NameOf(i, a), NameOf(j, b))
  {
    var x, y := Decimal.Padded(i, 6), Decimal.Padded(j, 6);
    PaddedWidth(i);
    PaddedWidth(j);
    Decimal.ValueOfPadded(i, 6);
    Decimal.ValueOfPadded(j, 6);
    Decimal.EqualLengthOrder(x, y);
    NumeralOrder(x, y);
    FrontDecides(Numeral(x), Numeral(y), Suffix(a), Suffix(b));
  }

  // ---------------------------------------------------------------- directories that hold a chain

  function Names(chain: seq<Receipt>): (names: seq<string>)
    ensures |names| == |chain|
  {
    seq(|chain|, i requires 0 <= i < |chain| => NameOf(i + 1, chain[i].action))
  }

  /** The directory holds exactly this chain, one file per receipt. */
  ghost predicate Holds(dir: Directory, chain: seq<Receipt>) {
    (forall x :: x in dir <==> x in Names(chain)) &&
    forall i :: 0 <= i < |chain| ==> Names(chain)[i] in dir && dir[Names(chain)[i]] == Some(chain[i])
  }

  ghost predicate Genuine(chain: seq<Receipt>, runId: string, expected: Option<string>) {
    forall r <- chain :: r.runId == runId && (expected.Some? ==> r.finalHash == expected.value)
  }

  /** A directory holds at most one chain. */
  lemma OneChain(dir: Directory, a: seq<Receipt>, b: seq<Receipt>)
    requires Holds(dir, a) && Holds(dir, b)
    ensures a == b
  {
    forall i | 0 <= i < |a| ensures i < |b| && a[i] == b[i] { SamePlace(dir, a, b, i); }
    if |a| < |b| { SamePlace(dir, b, a, |a|); }
    if |b| < |a| { SamePlace(dir, a, b, |b|); }
  }

  lemma SamePlace(dir: Directory, a: seq<Receipt>, b: seq<Receipt>, i: nat)
    requires Holds(dir, a) && Holds(dir, b) && i < |a|
    ensures i < |b| && a[i] == b[i]
  {
    var name := Names(a)[i];
    assert name in dir && name in Names(b);
    var j :| 0 <= j < |Names(b)| && Names(b)[j] == name;
    SameNamePlace(a, b, i, j);
    assert dir[Names(b)[j]] == Some(b[j]);
  }

  lemma SameNamePlace(a: seq<Receipt>, b: seq<Receipt>, i: nat, j: nat)
    requires i < |a| && j < |b| && Names(a)[i] == Names(b)[j]
    ensures i == j
  {
    NamesDiffer(i + 1, a[i].action, j + 1, b[j].action);
  }

  lemma NamePlace(chain: seq<Receipt>, name: string) returns (j: nat)
    requires name in Names(chain)
    ensures j < |chain| && Names(chain)[j] == name == NameOf(j + 1, chain[j].action)
  {
    j :| 0 <= j < |Names(chain)| && Names(chain)[j] == name;
  }

  lemma NamesAscend(chain: seq<Receipt>)
    requires |chain| <= MAX_RECEIPTS
    ensures Ascending(Names(chain))
  {
    forall i, j | 0 <= i < j < |chain| ensures Less(Names(chain)[i], Names(chain)[j]) {
      NamesSortNumerically(i + 1, chain[i].action, j + 1, chain[j].action);
    }
  }

  /** Writing the next receipt never meets an existing file, at any length, and the directory then holds the longer chain. */
  lemma AppendHolds(dir: Directory, chain: seq<Receipt>, r: Receipt)
    requires Holds(dir, chain)
    ensures var name := NameOf(|chain| + 1, r.action);
      name !in dir && Holds(dir[name := Some(r)], chain + [r])
  {
    hide NameOf;
    var name := NameOf(|chain| + 1, r.action);
    if name in Names(chain) {
      var i := NamePlace(chain, name);
      NamesDiffer(i + 1, chain[i].action, |chain| + 1, r.action);
    }
    NamesGrow(chain, r);
  }

  lemma NamesGrow(chain: seq<Receipt>, r: Receipt)
    ensures Names(chain + [r]) == Names(chain) + [NameOf(|chain| + 1, r.action)]
  {}

  // ---------------------------------------------------------------- reading

  /** What the reader demands of the entry at one position of the sorted listing. */
  predicate EntryOk(dir: Directory, name: string, k: nat, runId: string, expected: Option<string>) {
    name in dir && dir[name].Some? && ParseName(name) == Some((k, dir[name].value.action)) &&
    dir[name].value.runId == runId && (expected.Some? ==> dir[name].value.finalHash == expected.value)
  }

  /** Every entry of a held chain of at most 999999 genuine receipts passes. */
  lemma HeldEntriesPass(dir: Directory, names: seq<string>, chain: seq<Receipt>, runId: string, expected: Option<string>)
    requires Lists(names, dir.Keys) && Holds(dir, chain)
    requires |chain| <= MAX_RECEIPTS && Genuine(chain, runId, expected)
    ensures forall k :: 0 <= k < |names| ==> EntryOk(dir, names[k], k + 1, runId, expected)
  {
    NamesAscend(chain);
    ListingIsUnique(names, Names(chain), dir.Keys);
    forall k | 0 <= k < |names| ensures EntryOk(dir, names[k], k + 1, runId, expected) {
      HeldEntryPasses(dir, chain, k, runId, expected);
    }
  }

  lemma HeldEntryPasses(dir: Directory, chain: seq<Receipt>, k: nat, runId: string, expected: Option<string>)
    requires Holds(dir, chain) && k < |chain| <= MAX_RECEIPTS && Genuine(chain, runId, expected)
    ensures EntryOk(dir, Names(chain)[k], k + 1, runId, expected)
  {
    hide NameOf, ParseName;
    NameReadsExactly(Names(chain)[k], k + 1, chain[k].action);
    assert dir[Names(chain)[k]] == Some(chain[k]) && chain[k] in chain;
  }

  lemma EntryName(dir: Directory, name: string, k: nat, runId: string, expected: Option<string>)
    requires EntryOk(dir, name, k, runId, expected)
    ensures name == NameOf(k, dir[name].value.action) && k <= MAX_RECEIPTS
  {
    NameReadsExactly(name, k, dir[name].value.action);
  }

  /** Entries that all pass are a held chain of at most 999999 genuine receipts. */
  lemma PassingEntriesHold(dir: Directory, names: seq<string>, chain: seq<Receipt>, runId: string, expected: Option<string>)
    requires Lists(names, dir.Keys) && |chain| == |names|
    requires forall k :: 0 <= k < |names| ==> EntryOk(dir, names[k], k + 1, runId, expected) && dir[names[k]] == Some(chain[k])
    ensures Holds(dir, chain) && |chain| <= MAX_RECEIPTS && Genuine(chain, runId, expected)
  {
    forall k | 0 <= k < |names| ensures names[k] == Names(chain)[k] && k + 1 <= MAX_RECEIPTS {
      EntryName(dir, names[k], k + 1, runId, expected);
    }
    assert names == Names(chain);
    if |names| > 0 { assert names[|names| - 1] == Names(chain)[|names| - 1]; }
    PassingEntriesAreGenuine(dir, names, chain, runId, expected);
  }

  lemma PassingEntriesAreGenuine(dir: Directory, names: seq<string>, chain: seq<Receipt>, runId: string, expected: Option<string>)
    requires |chain| == |names|
    requires forall k :: 0 <= k < |names| ==> EntryOk(dir, names[k], k + 1, runId, expected) && dir[names[k]] == Some(chain[k])
    ensures Genuine(chain, runId, expected)
  {
    forall r | r in chain ensures r.runId == runId && (expected.Some? ==> r.finalHash == expected.value) {
      var k :| 0 <= k < |chain| && chain[k] == r;
      assert EntryOk(dir, names[k], k + 1, runId, expected);
    }
  }

  ghost predicate Reads(dir: Directory, runId: string, expected: Option<string>, chain: seq<Receipt>) {
    Holds(dir, chain) && |chain| <= MAX_RECEIPTS && Genuine(chain, runId, expected)
  }

  ghost predicate Readable(dir: Directory, runId: string, expected: Option<string>) {
    exists chain :: Reads(dir, runId, expected, chain)
  }

  /** The reader returns a chain exactly when the directory holds that chain, it is genuine and it fits six digits. */
  method LifecycleReceipts(dir: Directory, runId: string, expected: Option<string>)
    returns (r: Result<seq<Receipt>>)
    ensures forall chain :: r == Ok(chain) <==> Reads(dir, runId, expected, chain)
  {
    var names := Sorted(dir.Keys);
    var entries := [];
    var i := 0;
    while i < |names|
      invariant i <= |names| && |entries| == i
      invariant forall k :: 0 <= k < i ==> EntryOk(dir, names[k], k + 1, runId, expected) && dir[names[k]] == Some(entries[k])
    {
      assert names[i] in names;
      if !EntryOk(dir, names[i], i + 1, runId, expected) {
        r := Err;
        forall chain ensures r == Ok(chain) <==> Reads(dir, runId, expected, chain) {
          if Reads(dir, runId, expected, chain) { HeldEntriesPass(dir, names, chain, runId, expected); }
        }
        return;
      }
      entries := entries + [dir[names[i]].value];
      i := i + 1;
    }
    PassingEntriesHold(dir, names, entries, runId, expected);
    r := Ok(entries);
    forall chain ensures r == Ok(chain) <==> Reads(dir, runId, expected, chain) {
      if Reads(dir, runId, expected, chain) { OneChain(dir, entries, chain); }
    }
  }

  /** Reading after an append gives the old chain plus the new receipt, for chains that still fit. */
  lemma ReadAfterAppend(dir: Directory, chain: seq<Receipt>, r: Receipt, runId: string, expected: Option<string>)
    requires Reads(dir, runId, expected, chain) && |chain| < MAX_RECEIPTS
    requires r.runId == runId && (expected.Some? ==> r.finalHash == expected.value)
    ensures Reads(dir[NameOf(|chain| + 1, r.action) := Some(r)], runId, expected, chain + [r])
  {
    AppendHolds(dir, chain, r);
  }

  /** A directory that holds a chain is readable exactly when the chain fits six digits and is genuine. */
  lemma HeldIsReadable(dir: Directory, chain: seq<Receipt>, runId: string, expected: Option<string>)
    requires Holds(dir, chain)
    ensures Readable(dir, runId, expected) <==> |chain| <= MAX_RECEIPTS && Genuine(chain, runId, expected)
  {
    if Readable(dir, runId, expected) {
      var other :| Reads(dir, runId, expected, other);
      OneChain(dir, other, chain);
    }
    if |chain| <= MAX_RECEIPTS && Genuine(chain, runId, expected) { assert Reads(dir, runId, expected, chain); }
  }

  /** The millionth receipt is written without complaint and makes the directory unreadable. */
  lemma MillionthReceiptBlocks(dir: Directory, chain: seq<Receipt>, r: Receipt, runId: string, expected: Option<string>)
    requires Holds(dir, chain)
    ensures Readable(dir[NameOf(|chain| + 1, r.action) := Some(r)], runId, expected) <==>
      |chain| < MAX_RECEIPTS && Genuine(chain + [r], runId, expected)
  {
    AppendHolds(dir, chain, r);
    HeldIsReadable(dir[NameOf(|chain| + 1, r.action) := Some(r)], chain + [r], runId, expected);
  }

  /** The next file's name with the new receipt, or with a file that is no receipt. */
  lemma NextFileBlocks(dir: Directory, chain: seq<Receipt>, r: Receipt, whole: bool, runId: string, expected: Option<string>)
    requires Holds(dir, chain)
    ensures var next := dir[NameOf(|chain| + 1, r.action) := if whole then Some(r) else None];
      && (Readable(next, runId, expected) <==> whole && |chain| < MAX_RECEIPTS && Genuine(chain + [r], runId, expected))
      && (whole ==> Holds(next, chain + [r]))
  {
    if whole {
      AppendHolds(dir, chain, r);
      MillionthReceiptBlocks(dir, chain, r, runId, expected);
    } else {
      UnreadFileBlocks(dir[NameOf(|chain| + 1, r.action) := None], NameOf(|chain| + 1, r.action), runId, expected);
    }
  }

  /** A file that is no receipt makes its directory unreadable, whatever else is there. */
  lemma UnreadFileBlocks(dir: Directory, name: string, runId: string, expected: Option<string>)
    requires name in dir && dir[name].None?
    ensures forall chain :: !Reads(dir, runId, expected, chain)
  {
    forall chain ensures !Reads(dir, runId, expected, chain) {
      if name in Names(chain) { var i := NamePlace(chain, name); }
    }
  }
}
