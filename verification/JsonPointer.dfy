/**
 JSON Pointer resolution as workflow input bindings use it, against sections 3 and 4 of RFC 6901.

 Python's `str.isdigit` and `int` also know digits outside ASCII; the table that classifies them is
 a parameter, so every statement here holds for every such table.
 */
module JsonPointer {
  import opened Numerals
  import opened SlashPaths
  import opened Wrappers

  datatype Json =
    | Null | Bool(b: bool) | Number(text: string) | Text(s: string)
    | Array(items: seq<Json>) | Object(fields: map<string, Json>)

  // ---------------------------------------------------------------- tokens (section 3)

  function EscapeChar(c: char): string {
    if c == '~' then "~0" else if c == '/' then "~1" else [c]
  }

  function Escape(t: string): string {
    if t == "" then "" else EscapeChar(t[0]) + Escape(t[1..])
  }

  function Unescape(s: string): Result<string> {
    if s == "" then Ok("")
    else if s[0] != '~' then
      var rest := Unescape(s[1..]);
      if rest.Err? then Err else Ok([s[0]] + rest.value)
    else if |s| < 2 || (s[1] != '0' && s[1] != '1') then Err
    else
      var rest := Unescape(s[2..]);
      if rest.Err? then Err else Ok([if s[1] == '0' then '~' else '/'] + rest.value)
  }

  /** The decoded text with the characters decoded so far put in front. */
  function After(done: string, rest: Result<string>): Result<string> {
    if rest.Err? then Err else Ok(done + rest.value)
  }

  lemma AfterOne(done: string, c: char, rest: Result<string>)
    ensures After(done, After([c], rest)) == After(done + [c], rest)
  {
    if rest.Ok? { assert done + ([c] + rest.value) == done + [c] + rest.value; }
  }

  method DecodeToken(token: string) returns (r: Result<string>)
    ensures r == Unescape(token)
  {
    var result := "";
    var index := 0;
    assert token[0..] == token;
    if Unescape(token).Ok? { assert "" + Unescape(token).value == Unescape(token).value; }
    while index < |token|
      invariant index <= |token|
      invariant Unescape(token) == After(result, Unescape(token[index..]))
    {
      ghost var s := token[index..];
      if token[index] != '~' {
        assert s[1..] == token[index + 1..];
        AfterOne(result, token[index], Unescape(token[index + 1..]));
        result := result + [token[index]];
        index := index + 1;
      } else {
        if index + 1 >= |token| || (token[index + 1] != '0' && token[index + 1] != '1') { return Err; }
        assert s[2..] == token[index + 2..];
        var c := if token[index + 1] == '0' then '~' else '/';
        AfterOne(result, c, Unescape(token[index + 2..]));
        result := result + [c];
        index := index + 2;
      }
    }
    assert token[index..] == "" && result + "" == result;
    r := Ok(result);
  }

  /** A tilde that starts neither `~0` nor `~1`. */
  predicate StrayTilde(s: string) {
    exists i :: 0 <= i < |s| && s[i] == '~' && (i + 1 >= |s| || (s[i + 1] != '0' && s[i + 1] != '1'))
  }

  /** Decoding inverts escaping. */
  lemma {:induction false} TokenReadsBack(t: string)
    ensures Unescape(Escape(t)) == Ok(t)
  {
    if t != "" {
      TokenReadsBack(t[1..]);
      var e := EscapeChar(t[0]);
      assert (e + Escape(t[1..]))[|e|..] == Escape(t[1..]);
      assert [t[0]] + t[1..] == t;
    }
  }

  /** Decoding rejects exactly stray tildes. */
  lemma {:induction false} RejectsStrayTildes(s: string)
    ensures Unescape(s).Err? <==> StrayTilde(s)
    decreases |s|
  {
    if s != "" {
      if s[0] != '~' {
        RejectsStrayTildes(s[1..]);
        StrayTildeTail(s, 1);
      } else if |s| >= 2 && (s[1] == '0' || s[1] == '1') {
        RejectsStrayTildes(s[2..]);
        StrayTildeTail(s, 2);
      }
    }
  }

  lemma StrayTildeTail(s: string, k: nat)
    requires 1 <= k <= 2 && k <= |s|
    requires k == 1 ==> s[0] != '~'
    requires k == 2 ==> s[0] == '~' && (s[1] == '0' || s[1] == '1')
    ensures StrayTilde(s) <==> StrayTilde(s[k..])
  {
    var t := s[k..];
    if StrayTilde(s) {
      var i :| 0 <= i < |s| && s[i] == '~' && (i + 1 >= |s| || (s[i + 1] != '0' && s[i + 1] != '1'));
      assert t[i - k] == '~' && (i + 1 < |s| ==> t[i - k + 1] == s[i + 1]);
    }
    if StrayTilde(t) {
      var i :| 0 <= i < |t| && t[i] == '~' && (i + 1 >= |t| || (t[i + 1] != '0' && t[i + 1] != '1'));
      assert s[i + k] == '~' && (i + 1 < |t| ==> s[i + k + 1] == t[i + 1]);
    }
  }

  // ---------------------------------------------------------------- array indexes (section 4)

  datatype DigitClass = NotDigit | Decimal(value: nat) | OtherDigit
  type Table = char -> DigitClass

  /** The longest numeral Python's `int` converts by default. */
  const INT_DIGITS := 4300

  /** The table agrees with ASCII. */
  ghost predicate AsciiCorrect(table: Table) {
    forall c :: c < '\U{80}' ==> table(c) == if IsDigit(c) then Decimal(DigitOf(c)) else NotDigit
  }

  datatype Lookup = At(index: nat) | NoItem | Raises

  predicate IsDigits(token: string, table: Table) {
    token != "" && forall i :: 0 <= i < |token| ==> table(token[i]) != NotDigit
  }

  function Value(token: string, table: Table): Option<nat> {
    if token == "" then Some(0)
    else
      var before, last := Value(token[..|token| - 1], table), table(token[|token| - 1]);
      if before.None? || !last.Decimal? then None else Some(10 * before.value + last.value)
  }

  /** What the list branch of `resolve_json_pointer` does with a token. */
  function ListIndex(token: string, n: nat, table: Table): Lookup {
    if token == "-" || !IsDigits(token, table) then NoItem
    else if |token| > 1 && token[0] == '0' then NoItem
    else if |token| > INT_DIGITS || Value(token, table).None? then Raises
    else if Value(token, table).value >= n then NoItem
    else At(Value(token, table).value)
  }

  /** The `array-index` rule: `0`, or ASCII digits without a leading zero. */
  predicate ArrayIndex(token: string) {
    token != "" && (forall c <- token :: IsDigit(c)) && (|token| > 1 ==> token[0] != '0')
  }

  function RfcIndex(token: string, n: nat): Lookup {
    if ArrayIndex(token) && NumeralValue(token) < n then At(NumeralValue(token)) else NoItem
  }

  /** A token that all counts as digits but is too long for `int` or not all ASCII. */
  predicate Suspicious(token: string, table: Table) {
    IsDigits(token, table) && !(|token| > 1 && token[0] == '0')
    && (|token| > INT_DIGITS || exists c <- token :: !IsDigit(c))
  }

  lemma {:induction false} AsciiValues(token: string, table: Table)
    requires AsciiCorrect(table) && forall c <- token :: IsDigit(c)
    ensures Value(token, table) == Some(NumeralValue(token))
  {
    if token != "" {
      var n := |token| - 1;
      NumeralValueStep(token);
      AsciiValues(token[..n], table);
      assert IsDigit(token[n]) && token[n] < '\U{80}';
    }
  }

  lemma OrdinaryTokenAgrees(token: string, n: nat, table: Table)
    requires AsciiCorrect(table) && !Suspicious(token, table)
    ensures ListIndex(token, n, table) == RfcIndex(token, n)
  {
    if ArrayIndex(token) {
      AsciiValues(token, table);
      forall i | 0 <= i < |token| ensures table(token[i]) != NotDigit { assert token[i] in token && IsDigit(token[i]); }
    }
  }

  /** A suspicious token that an array of this length does not simply lack: it raises, or it selects an item. */
  predicate MisreadIndex(token: string, n: nat, table: Table) {
    Suspicious(token, table) && (|token| > INT_DIGITS || Value(token, table).None? || Value(token, table).value < n)
  }

  /** On one array the code and the standard differ exactly on the misread indexes. */
  lemma MisreadIndexDiffers(token: string, n: nat, table: Table)
    requires AsciiCorrect(table)
    ensures ListIndex(token, n, table) != RfcIndex(token, n) <==> MisreadIndex(token, n, table)
    ensures MisreadIndex(token, n, table) && ListIndex(token, n, table) != Raises ==> RfcIndex(token, n) == NoItem
  {
    if Suspicious(token, table) {
      assert table('-') == NotDigit && table(token[0]) != NotDigit;
    } else {
      OrdinaryTokenAgrees(token, n, table);
    }
  }

  lemma SuspiciousTokenDiffers(token: string, table: Table) returns (n: nat)
    requires AsciiCorrect(table) && Suspicious(token, table)
    ensures ListIndex(token, n, table) != RfcIndex(token, n)
  {
    n := if Value(token, table).Some? then Value(token, table).value + 1 else 0;
    MisreadIndexDiffers(token, n, table);
  }

  /** A token selects what the standard says from arrays of every length exactly when it is not suspicious. */
  lemma IndexingIsStandard(token: string, table: Table)
    requires AsciiCorrect(table)
    ensures (forall n: nat :: ListIndex(token, n, table) == RfcIndex(token, n)) <==> !Suspicious(token, table)
  {
    if Suspicious(token, table) {
      var n := SuspiciousTokenDiffers(token, table);
    } else {
      forall n: nat ensures ListIndex(token, n, table) == RfcIndex(token, n) { OrdinaryTokenAgrees(token, n, table); }
    }
  }

  // ---------------------------------------------------------------- resolution

  datatype Found = Node(value: Json) | Missing | BadPointer | Raised

  /** One step down; `None` is missing. */
  function Child(doc: Json, token: string, table: Table): Found {
    match doc
    case Object(fields) => if token in fields then Node(fields[token]) else Missing
    case Array(items) =>
      (match ListIndex(token, |items|, table)
       case At(i) => if i < |items| then Node(items[i]) else Missing
       case NoItem => Missing
       case Raises => Raised)
    case _ => Missing
  }

  function Walk(doc: Json, raws: seq<string>, table: Table): Found {
    if raws == [] then Node(doc)
    else
      var token := Unescape(raws[0]);
      if token.Err? then BadPointer
      else
        var next := Child(doc, token.value, table);
        if next.Node? then Walk(next.value, raws[1..], table) else next
  }

  function Resolve(doc: Json, pointer: string, table: Table): Found {
    if pointer == "" then Node(doc)
    else if pointer[0] != '/' then BadPointer
    else Walk(doc, SplitSlash(pointer[1..]), table)
  }

  lemma {:induction false} WalkStep(doc: Json, raws: seq<string>, table: Table)
    requires raws != []
    ensures Unescape(raws[0]).Err? ==> Walk(doc, raws, table) == BadPointer
    ensures Unescape(raws[0]).Ok? ==>
      var next := Child(doc, Unescape(raws[0]).value, table);
      Walk(doc, raws, table) == if next.Node? then Walk(next.value, raws[1..], table) else next
  {}

  method ResolveJsonPointer(doc: Json, pointer: string, table: Table) returns (r: Found)
    ensures r == Resolve(doc, pointer, table)
  {
    if pointer == "" { return Node(doc); }
    if pointer[0] != '/' { return BadPointer; }
    r := WalkTokens(doc, SplitSlash(pointer[1..]), table);
  }

  method WalkTokens(doc: Json, raws: seq<string>, table: Table) returns (r: Found)
    ensures r == Walk(doc, raws, table)
  {
    var current := doc;
    assert raws[0..] == raws;
    for i := 0 to |raws|
      invariant Walk(doc, raws, table) == Walk(current, raws[i..], table)
    {
      WalkStep(current, raws[i..], table);
      assert raws[i..][0] == raws[i] && raws[i..][1..] == raws[i + 1..];
      var token := DecodeToken(raws[i]);
      if token.Err? { return BadPointer; }
      var next := Child(current, token.value, table);
      if !next.Node? { return next; }
      current := next.value;
    }
    r := Node(current);
  }

  // ---------------------------------------------------------------- what the standard says

  function RfcChild(doc: Json, token: string): Option<Json> {
    match doc
    case Object(fields) => if token in fields then Some(fields[token]) else None
    case Array(items) =>
      var l := RfcIndex(token, |items|);
      if l.At? && l.index < |items| then Some(items[l.index]) else None
    case _ => None
  }

  /** The node at a path of reference tokens. */
  function NodeAt(doc: Json, path: seq<string>): Option<Json> {
    if path == [] then Some(doc)
    else
      var next := RfcChild(doc, path[0]);
      if next.None? then None else NodeAt(next.value, path[1..])
  }

  function EncodePointer(path: seq<string>): string {
    if path == [] then "" else "/" + Escape(path[0]) + EncodePointer(path[1..])
  }

  /** What the standard's answer looks like from the code. */
  function Expected(doc: Json, path: seq<string>): Found {
    match NodeAt(doc, path) case Some(v) => Node(v) case None => Missing
  }

  /** The step that the standard allows reaches an array with an index the code misreads. */
  predicate MeetsMisread(doc: Json, path: seq<string>, table: Table) {
    path != [] &&
    if doc.Array? && MisreadIndex(path[0], |doc.items|, table) then true
    else RfcChild(doc, path[0]).Some? && MeetsMisread(RfcChild(doc, path[0]).value, path[1..], table)
  }

  /** No step of the path, as the code takes it, finds its child absent. */
  predicate LeadsOn(doc: Json, path: seq<string>, table: Table) {
    path == [] ||
    match doc
    case Object(fields) => path[0] in fields && LeadsOn(fields[path[0]], path[1..], table)
    case Array(items) =>
      (match ListIndex(path[0], |items|, table)
       case At(i) => i < |items| && LeadsOn(items[i], path[1..], table)
       case NoItem => false
       case Raises => true)
    case _ => false
  }

  /**
   The walk meets an index the code misreads, and the rest of the path does not happen to be absent
   below the item that was wrongly selected.
   */
  predicate Misread(doc: Json, path: seq<string>, table: Table) {
    path != [] &&
    if doc.Array? && MisreadIndex(path[0], |doc.items|, table) then LeadsOn(doc, path, table)
    else RfcChild(doc, path[0]).Some? && Misread(RfcChild(doc, path[0]).value, path[1..], table)
  }

  lemma {:induction false} EscapeHasNoSlash(t: string)
    ensures '/' !in Escape(t)
  {
    if t != "" { EscapeHasNoSlash(t[1..]); }
  }

  function EscapeAll(path: seq<string>): seq<string> {
    if path == [] then [] else [Escape(path[0])] + EscapeAll(path[1..])
  }

  lemma SlashFirst(a: string, b: string)
    ensures "/" + a + b != "" && ("/" + a + b)[0] == '/' && ("/" + a + b)[1..] == a + b
  {
    assert "/" + a + b == "/" + (a + b);
  }

  lemma {:induction false} EncodedShape(path: seq<string>)
    requires path != []
    ensures EncodePointer(path) != "" && EncodePointer(path)[0] == '/'
    ensures EncodePointer(path)[1..] == Escape(path[0]) + EncodePointer(path[1..])
  {
    var first, rest := Escape(path[0]), EncodePointer(path[1..]);
    assert EncodePointer(path) == "/" + first + rest;
    SlashFirst(first, rest);
  }

  lemma {:induction false} SplitNext(a: string, b: string)
    requires '/' !in a && b != "" && b[0] == '/'
    ensures SplitSlash(a + b) == [a] + SplitSlash(b[1..])
  {
    assert a + b == a + "/" + b[1..];
    SplitAfterName(a, b[1..]);
  }

  /** Splitting an encoded pointer recovers its escaped tokens. */
  lemma {:induction false} SplitEncoded(path: seq<string>)
    requires path != []
    ensures EncodePointer(path) != "" && EncodePointer(path)[0] == '/'
    ensures SplitSlash(EncodePointer(path)[1..]) == EscapeAll(path)
  {
    var first, rest := Escape(path[0]), EncodePointer(path[1..]);
    EscapeHasNoSlash(path[0]);
    EncodedShape(path);
    if path[1..] == [] {
      assert first + rest == first;
      SplitName(first);
    } else {
      SplitEncoded(path[1..]);
      SplitNext(first, rest);
    }
  }

  lemma {:induction false} WalkEncoded(doc: Json, path: seq<string>, table: Table)
    requires path != []
    ensures var next := Child(doc, path[0], table);
      Walk(doc, EscapeAll(path), table) == if next.Node? then Walk(next.value, EscapeAll(path[1..]), table) else next
  {
    TokenReadsBack(path[0]);
    assert EscapeAll(path)[0] == Escape(path[0]) && EscapeAll(path)[1..] == EscapeAll(path[1..]);
  }

  lemma {:induction false} LeadsOnMeaning(doc: Json, path: seq<string>, table: Table)
    ensures LeadsOn(doc, path, table) <==> Walk(doc, EscapeAll(path), table) != Missing
    decreases |path|
  {
    if path != [] {
      WalkEncoded(doc, path, table);
      var next := Child(doc, path[0], table);
      if next.Node? { LeadsOnMeaning(next.value, path[1..], table); }
    }
  }

  lemma {:induction false} WalkIsNodeAt(doc: Json, path: seq<string>, table: Table)
    requires AsciiCorrect(table)
    ensures Walk(doc, EscapeAll(path), table) == Expected(doc, path) <==> !Misread(doc, path, table)
    decreases |path|
  {
    if path != [] {
      WalkEncoded(doc, path, table);
      if doc.Array? { MisreadIndexDiffers(path[0], |doc.items|, table); }
      if doc.Array? && MisreadIndex(path[0], |doc.items|, table) {
        MisreadStep(doc, path, table);
      } else if RfcChild(doc, path[0]).Some? {
        WalkIsNodeAt(RfcChild(doc, path[0]).value, path[1..], table);
      }
    }
  }

  /** Where an index is misread the standard has nothing or the code raises. */
  lemma {:induction false} MisreadStep(doc: Json, path: seq<string>, table: Table)
    requires AsciiCorrect(table) && path != [] && doc.Array? && MisreadIndex(path[0], |doc.items|, table)
    ensures Walk(doc, EscapeAll(path), table) != Expected(doc, path) <==> LeadsOn(doc, path, table)
  {
    MisreadIndexDiffers(path[0], |doc.items|, table);
    LeadsOnMeaning(doc, path, table);
    WalkEncoded(doc, path, table);
  }

  /**
   For every document and every path, the encoded pointer resolves to the node at that path, and to
   missing where there is none, exactly when the pointer is not misread.
   */
  lemma {:induction false} PointerFindsNode(doc: Json, path: seq<string>, table: Table)
    requires AsciiCorrect(table)
    ensures Resolve(doc, EncodePointer(path), table) == Expected(doc, path) <==> !Misread(doc, path, table)
  {
    if path != [] {
      SplitEncoded(path);
      WalkIsNodeAt(doc, path, table);
    }
  }

  lemma {:induction false} MisreadMeets(doc: Json, path: seq<string>, table: Table)
    requires Misread(doc, path, table)
    ensures MeetsMisread(doc, path, table)
    decreases |path|
  {
    if !(doc.Array? && MisreadIndex(path[0], |doc.items|, table)) {
      MisreadMeets(RfcChild(doc, path[0]).value, path[1..], table);
    }
  }

  /** The path up to the first misread index is itself misread. */
  lemma {:induction false} MeetingIsMisread(doc: Json, path: seq<string>, table: Table) returns (k: nat)
    requires AsciiCorrect(table) && MeetsMisread(doc, path, table)
    ensures k <= |path| && Misread(doc, path[..k], table)
    decreases |path|
  {
    if doc.Array? && MisreadIndex(path[0], |doc.items|, table) {
      k := 1;
      MisreadIndexDiffers(path[0], |doc.items|, table);
      assert path[..1][1..] == [];
    } else {
      k := MeetingIsMisread(RfcChild(doc, path[0]).value, path[1..], table);
      k := k + 1;
      assert path[..k][1..] == path[1..][..k - 1];
    }
  }

  lemma {:induction false} PrefixMeets(doc: Json, path: seq<string>, k: nat, table: Table)
    requires k <= |path| && MeetsMisread(doc, path[..k], table)
    ensures MeetsMisread(doc, path, table)
    decreases |path|
  {
    assert path[..k][0] == path[0] && path[..k][1..] == path[1..][..k - 1];
    if !(doc.Array? && MisreadIndex(path[0], |doc.items|, table)) {
      PrefixMeets(RfcChild(doc, path[0]).value, path[1..], k - 1, table);
    }
  }

  /** A path resolves as the standard says at every step of the way exactly when it meets no misread index. */
  lemma {:induction false} EveryStepFindsNode(doc: Json, path: seq<string>, table: Table)
    requires AsciiCorrect(table)
    ensures (forall k :: 0 <= k <= |path| ==> Resolve(doc, EncodePointer(path[..k]), table) == Expected(doc, path[..k]))
      <==> !MeetsMisread(doc, path, table)
  {
    forall k | 0 <= k <= |path|
      ensures Resolve(doc, EncodePointer(path[..k]), table) == Expected(doc, path[..k]) <==> !Misread(doc, path[..k], table)
    {
      PointerFindsNode(doc, path[..k], table);
    }
    if MeetsMisread(doc, path, table) {
      var k := MeetingIsMisread(doc, path, table);
    } else {
      forall k | 0 <= k <= |path| ensures !Misread(doc, path[..k], table) {
        if Misread(doc, path[..k], table) {
          MisreadMeets(doc, path[..k], table);
          PrefixMeets(doc, path, k, table);
        }
      }
    }
  }

  lemma ResolveOne(doc: Json, token: string, table: Table)
    ensures Resolve(doc, EncodePointer([token]), table) == Child(doc, token, table)
    ensures Expected(doc, [token]) == match RfcChild(doc, token) case Some(v) => Node(v) case None => Missing
  {
    SplitEncoded([token]);
    WalkEncoded(doc, [token], table);
    assert [token][1..] == [];
    var next := RfcChild(doc, token);
    if next.Some? { assert NodeAt(next.value, []) == Some(next.value); }
  }

  /** The Arabic-Indic digit zero selects the first item of an array, which the standard does not allow. */
  lemma ForeignDigitSelects(table: Table)
    requires AsciiCorrect(table) && table('\U{660}') == Decimal(0)
    ensures MisreadIndex("\U{660}", 1, table) && ListIndex("\U{660}", 1, table) == At(0)
    ensures Resolve(Array([Null]), EncodePointer(["\U{660}"]), table) == Node(Null)
    ensures Expected(Array([Null]), ["\U{660}"]) == Missing
  {
    var zero := "\U{660}";
    assert zero[..0] == "" && Value(zero, table) == Some(0) && zero[0] in zero && !IsDigit(zero[0]);
    MisreadIndexDiffers(zero, 1, table);
    ResolveOne(Array([Null]), zero, table);
  }

  /** The superscript two counts as a digit but is no numeral: the pointer raises. */
  lemma ForeignDigitRaises(table: Table)
    requires AsciiCorrect(table) && table('\U{B2}') == OtherDigit
    ensures Resolve(Array([Null]), EncodePointer(["\U{B2}"]), table) == Raised
    ensures Expected(Array([Null]), ["\U{B2}"]) == Missing
  {
    var two := "\U{B2}";
    assert two[..0] == "" && Value(two, table) == None && two[0] in two && !IsDigit(two[0]);
    ResolveOne(Array([Null]), two, table);
  }

  /** A misread index can be masked: below the wrongly selected item the rest of the path is absent, so both say missing. */
  lemma MaskedMisread(table: Table)
    requires AsciiCorrect(table) && table('\U{660}') == Decimal(0)
    ensures var doc, path := Array([Null]), ["\U{660}", "name"];
      && MeetsMisread(doc, path, table) && !Misread(doc, path, table)
      && Resolve(doc, EncodePointer(path), table) == Missing == Expected(doc, path)
  {
    var doc, path := Array([Null]), ["\U{660}", "name"];
    ForeignDigitSelects(table);
    assert path[1..] == ["name"] && !LeadsOn(Null, ["name"], table);
    PointerFindsNode(doc, path, table);
    assert RfcChild(doc, path[0]) == None;
  }
}
