/**
 The text of one lifecycle receipt: a JSON object with sorted keys, two-space indentation and a final
 line break, whose values are strings, booleans or null. The schema and time fields carry nothing here.
 */
module ReceiptText {
  import opened Wrappers

  datatype Action = Reviewed | Accepted | Rejected

  datatype Receipt = Receipt(
    runId: string, action: Action, actor: string, reason: string, finalHash: string,
    score: Option<string>, revision: Option<string>, independent: bool)

  datatype Scalar = Nil | Truth(b: bool) | Str(s: string)

  // ---------------------------------------------------------------- values

  function EscapeChar(c: char): (e: string)
    ensures e != ""
  {
    if c == '"' then "\\\"" else if c == '\\' then "\\\\" else if c == '\n' then "\\n" else [c]
  }

  function Escape(s: string): string {
    if s == "" then "" else EscapeChar(s[0]) + Escape(s[1..])
  }

  /** Reads string contents up to the closing quote and returns them with what follows the quote. */
  function ParseString(t: string): Option<(string, string)> {
    if t == "" || t[0] == '\n' then None
    else if t[0] == '"' then Some(("", t[1..]))
    else if t[0] != '\\' then Prefixed(t[0], ParseString(t[1..]))
    else if |t| < 2 || t[1] !in "\"\\n" then None
    else Prefixed(if t[1] == 'n' then '\n' else t[1], ParseString(t[2..]))
  }

  function Prefixed(c: char, r: Option<(string, string)>): Option<(string, string)> {
    if r.None? then None else Some(([c] + r.value.0, r.value.1))
  }

  function ScalarText(v: Scalar): (t: string)
    ensures t != ""
  {
    match v
    case Nil => "null"
    case Truth(b) => if b then "true" else "false"
    case Str(s) => "\"" + Escape(s) + "\""
  }

  function ParseScalar(t: string): Option<(Scalar, string)> {
    if t == "" then None
    else if t[0] == '"' then
      var r := ParseString(t[1..]);
      if r.None? then None else Some((Str(r.value.0), r.value.1))
    else if t[0] == 'n' then ParseWord(t, "null", Nil)
    else if t[0] == 't' then ParseWord(t, "true", Truth(true))
    else if t[0] == 'f' then ParseWord(t, "false", Truth(false))
    else None
  }

  function ParseWord(t: string, word: string, v: Scalar): Option<(Scalar, string)> {
    if word <= t then Some((v, t[|word|..])) else None
  }

  /** Reading an escaped character goes on with what follows it. */
  lemma {:induction false} StringStep(c: char, tail: string)
    ensures ParseString(EscapeChar(c) + tail) == Prefixed(c, ParseString(tail))
  {
    var t := EscapeChar(c) + tail;
    assert t[|EscapeChar(c)|..] == tail;
  }

  lemma {:induction false} StringReadsBack(s: string, rest: string)
    ensures ParseString(Escape(s) + ("\"" + rest)) == Some((s, rest))
    decreases |s|
  {
    var end := "\"" + rest;
    if s == "" {
      assert "" + end == end && end[1..] == rest;
    } else {
      assert Escape(s) + end == EscapeChar(s[0]) + (Escape(s[1..]) + end);
      StringStep(s[0], Escape(s[1..]) + end);
      StringReadsBack(s[1..], rest);
      assert [s[0]] + s[1..] == s;
    }
  }

  /** A string cut before its closing quote is no string. */
  lemma {:induction false} CutStringFails(s: string, k: nat)
    requires k <= |Escape(s)|
    ensures ParseString(Escape(s)[..k]).None?
    decreases |s|
  {
    if s != "" {
      var e := EscapeChar(s[0]);
      if k >= |e| {
        CutAfter(e, Escape(s[1..]), k);
        StringStep(s[0], Escape(s[1..])[..k - |e|]);
        CutStringFails(s[1..], k - |e|);
      } else {
        CutEscape(s[0], Escape(s[1..]), k);
      }
    }
  }

  lemma CutEscape(c: char, tail: string, k: nat)
    requires k < |EscapeChar(c)|
    ensures ParseString((EscapeChar(c) + tail)[..k]).None?
  {
    if k > 0 { assert (EscapeChar(c) + tail)[..k] == "\\"; }
  }

  lemma CutAfter(key: string, tail: string, k: nat)
    requires |key| <= k <= |key + tail|
    ensures (key + tail)[..k] == key + tail[..k - |key|]
  {
  }

  lemma ScalarReadsBack(v: Scalar, rest: string)
    ensures ParseScalar(ScalarText(v) + rest) == Some((v, rest))
  {
    if v.Str? { QuotedReadsBack(v.s, rest); } else { WordReadsBack(ScalarText(v), v, rest); }
  }

  lemma QuotedReadsBack(s: string, rest: string)
    ensures ParseScalar(ScalarText(Str(s)) + rest) == Some((Str(s), rest))
  {
    var t := ScalarText(Str(s)) + rest;
    assert t[0] == '"' && t[1..] == Escape(s) + ("\"" + rest);
    StringReadsBack(s, rest);
  }

  lemma WordReadsBack(word: string, v: Scalar, rest: string)
    ensures ParseWord(word + rest, word, v) == Some((v, rest))
  {
    assert (word + rest)[|word|..] == rest;
  }

  lemma CutScalarFails(v: Scalar, k: nat)
    requires k < |ScalarText(v)|
    ensures ParseScalar(ScalarText(v)[..k]).None?
  {
    if v.Str? { CutQuotedFails(v.s, k); } else { CutWordFails(ScalarText(v), v, k); }
  }

  lemma CutQuotedFails(s: string, k: nat)
    requires k < |ScalarText(Str(s))|
    ensures ParseScalar(ScalarText(Str(s))[..k]).None?
  {
    if k > 0 {
      CutQuoted(Escape(s), k);
      CutStringFails(s, k - 1);
    }
  }

  lemma CutQuoted(e: string, k: nat)
    requires 0 < k <= |e| + 1
    ensures ("\"" + e + "\"")[..k] != "" && ("\"" + e + "\"")[..k][0] == '"' && ("\"" + e + "\"")[..k][1..] == e[..k - 1]
  {
  }

  lemma CutWordFails(word: string, v: Scalar, k: nat)
    requires k < |word|
    ensures ParseWord(word[..k], word, v).None?
  {
  }

  // ---------------------------------------------------------------- objects

  /** What stands before each value; the first opens the object. */
  const KEYS: seq<string> := [
    "{\n  \"action\": ", ",\n  \"actor\": ", ",\n  \"agent_run_id\": ", ",\n  \"final_receipt_sha256\": ",
    ",\n  \"reason\": ", ",\n  \"reviewer_independent\": ", ",\n  \"revision\": ", ",\n  \"score_receipt_sha256\": "]

  const CLOSING := "\n}"

  function ObjectText(keys: seq<string>, vs: seq<Scalar>): string
    requires |keys| == |vs|
  {
    if keys == [] then CLOSING else keys[0] + (ScalarText(vs[0]) + ObjectText(keys[1..], vs[1..]))
  }

  /** The values of an object with these keys; a final line break is optional, as JSON allows it. */
  function ParseObject(t: string, keys: seq<string>): (r: Option<seq<Scalar>>)
    ensures r.Some? ==> |r.value| == |keys|
    decreases |keys|
  {
    if keys == [] then if t == CLOSING || t == CLOSING + "\n" then Some([]) else None
    else if !(keys[0] <= t) then None
    else
      var v := ParseScalar(t[|keys[0]|..]);
      if v.None? then None
      else
        var rest := ParseObject(v.value.1, keys[1..]);
        if rest.None? then None else Some([v.value.0] + rest.value)
  }

  /** Reading a key and its value goes on with what follows them. */
  lemma {:induction false} ParseStep(keys: seq<string>, v: Scalar, rest: string)
    requires keys != []
    ensures var tail := ParseObject(rest, keys[1..]);
      ParseObject(keys[0] + (ScalarText(v) + rest), keys) == if tail.None? then None else Some([v] + tail.value)
  {
    var t := keys[0] + (ScalarText(v) + rest);
    assert keys[0] <= t && t[|keys[0]|..] == ScalarText(v) + rest;
    ScalarReadsBack(v, rest);
  }

  lemma JoinEnd(key: string, value: string, rest: string, end: string)
    ensures (key + (value + rest)) + end == key + (value + (rest + end))
  {
  }

  lemma {:induction false} ClosingReadsBack(end: string)
    requires end == "" || end == "\n"
    ensures ParseObject(CLOSING + end, []) == Some([])
  {
    if end == "" { assert CLOSING + end == CLOSING; }
  }

  lemma {:induction false} ObjectReadsBack(keys: seq<string>, vs: seq<Scalar>, end: string)
    requires |keys| == |vs| && (end == "" || end == "\n")
    ensures ParseObject(ObjectText(keys, vs) + end, keys) == Some(vs)
    decreases |keys|
  {
    if keys == [] {
      ClosingReadsBack(end);
    } else {
      ObjectReadsBack(keys[1..], vs[1..], end);
      EntryReadsBack(keys, vs, ObjectText(keys[1..], vs[1..]), end);
    }
  }

  lemma {:induction false} EntryReadsBack(keys: seq<string>, vs: seq<Scalar>, rest: string, end: string)
    requires |keys| == |vs| && keys != [] && ParseObject(rest + end, keys[1..]) == Some(vs[1..])
    ensures ParseObject(keys[0] + (ScalarText(vs[0]) + rest) + end, keys) == Some(vs)
  {
    JoinEnd(keys[0], ScalarText(vs[0]), rest, end);
    ParseStep(keys, vs[0], rest + end);
    assert [vs[0]] + vs[1..] == vs;
  }

  /** An object cut anywhere before its closing brace is no object. */
  lemma {:induction false} CutObjectFails(keys: seq<string>, vs: seq<Scalar>, k: nat)
    requires |keys| == |vs| && k < |ObjectText(keys, vs)|
    ensures ParseObject(ObjectText(keys, vs)[..k], keys).None?
    decreases |keys|
  {
    if keys != [] {
      var value, rest := ScalarText(vs[0]), ObjectText(keys[1..], vs[1..]);
      var start := |keys[0]| + |value|;
      if k < start {
        CutEntryFails(keys, vs[0], rest, k);
      } else {
        CutObjectFails(keys[1..], vs[1..], k - start);
        CutAfter(keys[0], value + rest, k);
        CutAfter(value, rest, k - |keys[0]|);
        ParseStep(keys, vs[0], rest[..k - start]);
      }
    }
  }

  /** An object cut within its first key or value is no object. */
  lemma {:induction false} CutEntryFails(keys: seq<string>, v: Scalar, rest: string, k: nat)
    requires keys != [] && k < |keys[0]| + |ScalarText(v)|
    ensures ParseObject((keys[0] + (ScalarText(v) + rest))[..k], keys).None?
  {
    var t := (keys[0] + (ScalarText(v) + rest))[..k];
    if |keys[0]| <= k {
      CutAfter(keys[0], ScalarText(v) + rest, k);
      var u := ScalarText(v)[..k - |keys[0]|];
      assert (ScalarText(v) + rest)[..k - |keys[0]|] == u && t[|keys[0]|..] == u;
      CutScalarFails(v, k - |keys[0]|);
    }
  }

  // ---------------------------------------------------------------- receipts

  function ActionText(a: Action): string {
    match a case Reviewed => "reviewed" case Accepted => "accepted" case Rejected => "rejected"
  }

  function ParseAction(s: string): Option<Action> {
    if s == ActionText(Reviewed) then Some(Reviewed)
    else if s == ActionText(Accepted) then Some(Accepted)
    else if s == ActionText(Rejected) then Some(Rejected)
    else None
  }

  function Optional(o: Option<string>): Scalar { if o.None? then Nil else Str(o.value) }

  function FromOptional(v: Scalar): Option<string>
    requires !v.Truth?
  {
    if v.Nil? then None else Some(v.s)
  }

  function Scalars(r: Receipt): (vs: seq<Scalar>)
    ensures |vs| == |KEYS|
  {
    [Str(ActionText(r.action)), Str(r.actor), Str(r.runId), Str(r.finalHash), Str(r.reason),
     Truth(r.independent), Optional(r.revision), Optional(r.score)]
  }

  function FromScalars(vs: seq<Scalar>): Option<Receipt>
    requires |vs| == |KEYS|
  {
    if !vs[0].Str? || !vs[1].Str? || !vs[2].Str? || !vs[3].Str? || !vs[4].Str? then None
    else if !vs[5].Truth? || vs[6].Truth? || vs[7].Truth? || ParseAction(vs[0].s).None? then None
    else Some(Receipt(vs[2].s, ParseAction(vs[0].s).value, vs[1].s, vs[4].s, vs[3].s,
                      FromOptional(vs[7]), FromOptional(vs[6]), vs[5].b))
  }

  /** What `_append_receipt` writes. */
  function Text(r: Receipt): string { ObjectText(KEYS, Scalars(r)) + "\n" }

  /** What a reader makes of a file. */
  function Reading(t: string): Option<Receipt> {
    var vs := ParseObject(t, KEYS);
    if vs.None? then None else FromScalars(vs.value)
  }

  lemma ScalarsReadBack(r: Receipt)
    ensures FromScalars(Scalars(r)) == Some(r)
  {
    assert ActionText(Reviewed)[2] == 'v' && ActionText(Accepted)[2] == 'c' && ActionText(Rejected)[2] == 'j';
  }

  /**
   The first `k` characters of a receipt's text read as that receipt when at most the final line break
   is missing, and as no receipt at all when more is.
   */
  lemma CutReceiptReads(r: Receipt, k: nat)
    requires k <= |Text(r)|
    ensures Reading(Text(r)[..k]) == if k + 1 >= |Text(r)| then Some(r) else None
  {
    var t := ObjectText(KEYS, Scalars(r));
    ScalarsReadBack(r);
    if k == |Text(r)| {
      assert Text(r)[..k] == t + "\n";
      ObjectReadsBack(KEYS, Scalars(r), "\n");
    } else if k == |t| {
      assert Text(r)[..k] == t + "";
      ObjectReadsBack(KEYS, Scalars(r), "");
    } else {
      assert Text(r)[..k] == t[..k];
      CutObjectFails(KEYS, Scalars(r), k);
    }
  }

  lemma ReceiptReadsBack(r: Receipt)
    ensures Reading(Text(r)) == Some(r)
  {
    CutReceiptReads(r, |Text(r)|);
    assert Text(r)[..|Text(r)|] == Text(r);
  }
}
