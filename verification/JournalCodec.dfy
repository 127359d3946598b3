/**
 One journal line: the canonical JSON text of a flat record with a string field and an integer
 field, keys in sorted order and no spaces, followed by a line feed.
 */
module JournalCodec {
  import opened Wrappers
  import opened Decimal

  type Byte = b: int | 0 <= b < 256


  datatype Record = Record(body: seq<Byte>, sequence: nat)

  const LF: Byte := 10
  const CR: Byte := 13
  const QUOTE: Byte := 34
  const BACKSLASH: Byte := 92
  const CLOSE: Byte := 125

  /** The texts `{"body":"` and `,"sequence":`. */
  const OPENING: seq<Byte> := [123, 34, 98, 111, 100, 121, 34, 58, 34]
  const MIDDLE: seq<Byte> := [44, 34, 115, 101, 113, 117, 101, 110, 99, 101, 34, 58]

  function Hex(d: int): Byte
    requires 0 <= d < 16
  {
    if d < 10 then 48 + d else 87 + d
  }

  function Unhex(b: Byte): Option<int> {
    if 48 <= b <= 57 then Some(b - 48) else if 97 <= b <= 102 then Some(b - 87) else None
  }

  /** Control characters, the quote and the backslash are escaped; every other byte stands for itself. */
  function EscapeByte(b: Byte): seq<Byte> {
    if b == QUOTE || b == BACKSLASH then [BACKSLASH, b]
    else if b == LF then [BACKSLASH, 110]
    else if b == CR then [BACKSLASH, 114]
    else if b == 9 then [BACKSLASH, 116]
    else if b == 12 then [BACKSLASH, 102]
    else if b == 8 then [BACKSLASH, 98]
    else if b < 32 then [BACKSLASH, 117, 48, 48, Hex(b / 16), Hex(b % 16)]
    else [b]
  }

  function Escape(body: seq<Byte>): seq<Byte> {
    if body == [] then [] else EscapeByte(body[0]) + Escape(body[1..])
  }

  /** The byte that an escape starting after a backslash denotes, and how long the escape is. */
  function Escaped(s: seq<Byte>): Option<(Byte, nat)> {
    if s == [] then None
    else if s[0] == QUOTE || s[0] == BACKSLASH then Some((s[0], 1))
    else if s[0] == 110 then Some((LF, 1))
    else if s[0] == 114 then Some((CR, 1))
    else if s[0] == 116 then Some((9, 1))
    else if s[0] == 102 then Some((12, 1))
    else if s[0] == 98 then Some((8, 1))
    else if s[0] == 117 && |s| >= 5 && s[1] == 48 && s[2] == 48 && Unhex(s[3]).Some? && Unhex(s[4]).Some?
    then Some((16 * Unhex(s[3]).value + Unhex(s[4]).value, 5))
    else None
  }

  /** Reads string contents up to the closing quote and returns them with what follows the quote. */
  function ParseString(s: seq<Byte>): (r: Option<(seq<Byte>, seq<Byte>)>)
    decreases |s|
  {
    if s == [] then None
    else if s[0] == QUOTE then Some(([], s[1..]))
    else if s[0] == BACKSLASH then
      var e := Escaped(s[1..]);
      if e.None? || 1 + e.value.1 > |s| then None
      else
        var tail := ParseString(s[1 + e.value.1..]);
        if tail.None? then None else Some(([e.value.0] + tail.value.0, tail.value.1))
    else if s[0] < 32 then None
    else
      var tail := ParseString(s[1..]);
      if tail.None? then None else Some(([s[0]] + tail.value.0, tail.value.1))
  }

  function DigitBytes(ds: seq<Digit>): (bs: seq<Byte>)
    ensures |bs| == |ds|
  {
    seq(|ds|, i requires 0 <= i < |ds| => 48 + (ds[i] as int))
  }

  predicate IsNumeral(bs: seq<Byte>) {
    bs != [] && (forall i :: 0 <= i < |bs| ==> 48 <= bs[i] <= 57) && (|bs| > 1 ==> bs[0] != 48)
  }

  function ReadDigits(bs: seq<Byte>): seq<Digit>
    requires IsNumeral(bs)
  {
    seq(|bs|, i requires 0 <= i < |bs| => bs[i] - 48)
  }

  /** The line without its terminator. */
  function Text(r: Record): seq<Byte> {
    OPENING + Escape(r.body) + [QUOTE] + MIDDLE + DigitBytes(Digits(r.sequence)) + [CLOSE]
  }

  function Encode(r: Record): seq<Byte> { Text(r) + [LF] }

  function ParseLine(raw: seq<Byte>): Option<Record> {
    if !(OPENING <= raw) then None
    else
      var body := ParseString(raw[|OPENING|..]);
      if body.None? || !(MIDDLE <= body.value.1) then None
      else
        var tail := body.value.1[|MIDDLE|..];
        if tail == [] || tail[|tail| - 1] != CLOSE || !IsNumeral(tail[..|tail| - 1]) then None
        else Some(Record(body.value.0, Value(ReadDigits(tail[..|tail| - 1]))))
  }

  // ---------------------------------------------------------------- the codec is faithful

  lemma EscapeReadsBack(b: Byte, tail: seq<Byte>)
    requires EscapeByte(b)[0] == BACKSLASH
    ensures var e := Escaped((EscapeByte(b) + tail)[1..]);
            e.Some? && e.value.0 == b && 1 + e.value.1 == |EscapeByte(b)|
  {
    var s := (EscapeByte(b) + tail)[1..];
    assert forall i :: 0 <= i < |EscapeByte(b)| - 1 ==> s[i] == EscapeByte(b)[i + 1];
    if EscapeByte(b)[1] == 117 {
      assert |EscapeByte(b)| == 6 && s[3] == Hex(b / 16) && s[4] == Hex(b % 16);
      assert Unhex(Hex(b / 16)) == Some(b / 16) && Unhex(Hex(b % 16)) == Some(b % 16);
    }
  }

  lemma {:induction false} StringReadsBack(body: seq<Byte>, rest: seq<Byte>)
    ensures ParseString(Escape(body) + [QUOTE] + rest) == Some((body, rest))
    decreases |body|
  {
    var s := Escape(body) + [QUOTE] + rest;
    if body == [] {
      assert s[1..] == rest;
    } else {
      var tail := Escape(body[1..]) + [QUOTE] + rest;
      var head := EscapeByte(body[0]);
      assert s == head + tail;
      assert s[|head|..] == tail;
      StringReadsBack(body[1..], rest);
      assert [body[0]] + body[1..] == body;
      if head[0] == BACKSLASH { EscapeReadsBack(body[0], tail); }
    }
  }

  lemma {:induction false} NumeralReadsBack(n: nat)
    ensures IsNumeral(DigitBytes(Digits(n))) && ReadDigits(DigitBytes(Digits(n))) == Digits(n)
  {
  }

  /** Decoding inverts encoding for every record. */
  lemma LineReadsBack(r: Record)
    ensures ParseLine(Text(r)) == Some(r)
  {
    var ds := DigitBytes(Digits(r.sequence));
    var tail := ds + [CLOSE];
    TextShape(r, tail);
    StringReadsBack(r.body, MIDDLE + tail);
    assert (MIDDLE + tail)[|MIDDLE|..] == tail && tail[..|ds|] == ds;
    NumeralReadsBack(r.sequence);
    ValueOfDigits(r.sequence);
  }

  lemma TextShape(r: Record, tail: seq<Byte>)
    requires tail == DigitBytes(Digits(r.sequence)) + [CLOSE]
    ensures OPENING <= Text(r) && Text(r)[|OPENING|..] == Escape(r.body) + [QUOTE] + (MIDDLE + tail)
  {
    var rest := Escape(r.body) + [QUOTE] + (MIDDLE + tail);
    assert Text(r) == OPENING + rest;
  }

  ghost predicate Unbroken(s: seq<Byte>) {
    forall i :: 0 <= i < |s| ==> s[i] != LF && s[i] != CR
  }

  lemma {:induction false} EscapeIsUnbroken(body: seq<Byte>)
    ensures Unbroken(Escape(body))
  {
    if body != [] { EscapeIsUnbroken(body[1..]); }
  }

  /** No line text contains a line break, so the terminator is the only one in an encoded line. */
  lemma TextIsUnbroken(r: Record)
    ensures Unbroken(Text(r)) && Text(r) != []
  {
    EscapeIsUnbroken(r.body);
    assert Unbroken(OPENING + Escape(r.body) + [QUOTE] + MIDDLE);
  }
}
