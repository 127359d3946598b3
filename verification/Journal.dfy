/**
 Append-only journals: strict decoding, bounded read-validate-append transactions, and the
 short-write loop that may stop after any number of bytes.
 */
module Journal {
  import opened Wrappers
  import opened JournalCodec

  datatype Failure = Truncated | EmptyRecord | RecordTooLarge | BadJson | SequenceMismatch | Rejected | TooManyRecords | TooManyBytes

  datatype Reading<T> = Read(value: T) | Failed(failure: Failure)

  type Validator = (Record, nat) -> bool

  /** The limits and checks one journal is always opened with. */
  datatype Policy = Policy(maxBytes: nat, maxRecord: nat, maxRecords: Option<nat>, sequenced: bool, validator: Validator)

  // ---------------------------------------------------------------- lines

  predicate IsBreak(b: Byte) { b == LF || b == CR }

  function FirstBreak(data: seq<Byte>): (i: nat)
    ensures i <= |data| && (i < |data| ==> IsBreak(data[i])) && forall k :: 0 <= k < i ==> !IsBreak(data[k])
  {
    if data == [] || IsBreak(data[0]) then 0 else 1 + FirstBreak(data[1..])
  }

  /** Splits on LF, CR and CR LF; a final line break starts no further line. */
  function SplitLines(data: seq<Byte>): seq<seq<Byte>>
    decreases |data|
  {
    if data == [] then []
    else
      var i := FirstBreak(data);
      if i == |data| then [data]
      else
        [data[..i]] + SplitLines(data[NextLine(data, i)..])
  }

  /** Where the line after the break at `i` starts. */
  function NextLine(data: seq<Byte>, i: nat): (j: nat)
    requires i < |data| && IsBreak(data[i])
    ensures i < j <= |data|
  {
    if data[i] == CR && i + 1 < |data| && data[i + 1] == LF then i + 2 else i + 1
  }

  predicate Terminated(data: seq<Byte>) { data == [] || data[|data| - 1] == LF }

  lemma FirstBreakOfAppend(data: seq<Byte>, tail: seq<Byte>)
    requires FirstBreak(data) < |data|
    ensures FirstBreak(data + tail) == FirstBreak(data)
  {
    var i, j := FirstBreak(data), FirstBreak(data + tail);
    assert (data + tail)[i] == data[i];
    if j < i { assert (data + tail)[j] == data[j]; }
  }

  lemma {:induction false} SplitOneLine(line: seq<Byte>)
    requires Unbroken(line) && line != []
    ensures SplitLines(line + [LF]) == [line]
  {
    var tail := line + [LF];
    var i := FirstBreak(tail);
    assert i == |line| by {
      assert tail[|line|] == LF && forall k :: 0 <= k < |line| ==> tail[k] == line[k];
    }
    assert tail[..i] == line && tail[NextLine(tail, i)..] == [];
  }

  lemma {:induction false} LastBreakExists(data: seq<Byte>)
    requires data != [] && Terminated(data)
    ensures FirstBreak(data) < |data|
    ensures NextLine(data, FirstBreak(data)) < |data| ==> Terminated(data[NextLine(data, FirstBreak(data))..])
  {
  }

  lemma {:induction false} SplitFirstLine(data: seq<Byte>, tail: seq<Byte>)
    requires FirstBreak(data) < |data| && data[|data| - 1] != CR
    ensures var i := FirstBreak(data);
      SplitLines(data + tail) == [data[..i]] + SplitLines(data[NextLine(data, i)..] + tail)
  {
    var i := FirstBreak(data);
    var j := NextLine(data, i);
    FirstBreakOfAppend(data, tail);
    assert (data + tail)[i] == data[i] && (i + 1 < |data| ==> (data + tail)[i + 1] == data[i + 1]);
    assert NextLine(data + tail, i) == j;
    assert (data + tail)[..i] == data[..i];
    assert (data + tail)[j..] == data[j..] + tail;
  }

  /** Appending a terminated line to terminated data adds exactly that line. */
  lemma {:induction false} SplitAfterAppend(data: seq<Byte>, line: seq<Byte>)
    requires Terminated(data) && Unbroken(line) && line != []
    ensures SplitLines(data + (line + [LF])) == SplitLines(data) + [line]
    decreases |data|
  {
    var tail := line + [LF];
    if data == [] {
      assert data + tail == tail;
      SplitOneLine(line);
    } else {
      LastBreakExists(data);
      var rest := data[NextLine(data, FirstBreak(data))..];
      SplitAfterAppend(rest, line);
      SplitFirstLine(data, tail);
      SplitFirstLine(data, []);
      assert data + [] == data && rest + [] == rest;
    }
  }

  /** No line holds a line break. */
  lemma {:induction false} LinesAreUnbroken(data: seq<Byte>)
    ensures forall line <- SplitLines(data) :: LF !in line && CR !in line
    decreases |data|
  {
    var i := FirstBreak(data);
    if i < |data| { LinesAreUnbroken(data[NextLine(data, i)..]); }
  }

  /** The lines, each followed by a line feed. */
  function Joined(lines: seq<seq<Byte>>): seq<Byte> {
    if lines == [] then [] else lines[0] + [LF] + Joined(lines[1..])
  }

  lemma {:induction false} JoinedFirst(line: seq<Byte>, lines: seq<seq<Byte>>)
    ensures Joined([line] + lines) == line + [LF] + Joined(lines)
  {
    assert ([line] + lines)[1..] == lines;
  }

  /** A terminated file without carriage returns is its lines, each followed by a line feed. */
  lemma {:induction false} JoinsBack(data: seq<Byte>)
    requires Terminated(data) && CR !in data
    ensures Joined(SplitLines(data)) == data
    decreases |data|
  {
    if data != [] {
      hide SplitLines, Joined;
      LastBreakExists(data);
      var i := FirstBreak(data);
      var rest := data[i + 1..];
      assert data[i] == LF && data == data[..i] + [LF] + rest;
      SplitFirst(data);
      JoinsBack(rest);
      JoinedFirst(data[..i], SplitLines(rest));
    }
  }

  lemma {:induction false} SplitFirst(data: seq<Byte>)
    requires FirstBreak(data) < |data| && data[FirstBreak(data)] == LF
    ensures SplitLines(data) == [data[..FirstBreak(data)]] + SplitLines(data[FirstBreak(data) + 1..])
  {}

  /** A carriage return, with or without a line feed after it, ends a line as a line feed does. */
  lemma {:induction false} ReturnsEndLines(a: seq<Byte>, b: seq<Byte>)
    requires a == [] || a[|a| - 1] != CR
    ensures SplitLines(a + ([CR, LF] + b)) == SplitLines(a + ([LF] + b))
    ensures b == [] || b[0] != LF ==> SplitLines(a + ([CR] + b)) == SplitLines(a + ([LF] + b))
    decreases |a|
  {
    var i := FirstBreak(a);
    if i < |a| {
      var rest := a[NextLine(a, i)..];
      ReturnsEndLines(rest, b);
      SplitFirstLine(a, [CR, LF] + b);
      SplitFirstLine(a, [LF] + b);
      SplitFirstLine(a, [CR] + b);
    } else {
      SplitAtBreak(a, [CR, LF], b);
      SplitAtBreak(a, [LF], b);
      if b == [] || b[0] != LF { SplitAtBreak(a, [CR], b); }
    }
  }

  lemma {:induction false} SplitAtBreak(a: seq<Byte>, end: seq<Byte>, b: seq<Byte>)
    requires FirstBreak(a) == |a|
    requires end == [LF] || end == [CR, LF] || (end == [CR] && (b == [] || b[0] != LF))
    ensures SplitLines(a + (end + b)) == [a] + SplitLines(b)
  {
    var data := a + (end + b);
    var i := FirstBreak(data);
    assert i == |a| by {
      assert data[|a|] == end[0] && forall k :: 0 <= k < |a| ==> data[k] == a[k];
    }
    assert data[..i] == a;
    assert data[NextLine(data, i)..] == b;
  }

  // ---------------------------------------------------------------- decoding

  function DecodeOne(raw: seq<Byte>, n: nat, p: Policy): Reading<Record> {
    if raw == [] then Failed(EmptyRecord)
    else if |raw| > p.maxRecord then Failed(RecordTooLarge)
    else
      var r := ParseLine(raw);
      if r.None? then Failed(BadJson)
      else if p.sequenced && r.value.sequence != n then Failed(SequenceMismatch)
      else if !p.validator(r.value, n) then Failed(Rejected)
      else if p.maxRecords.Some? && n > p.maxRecords.value then Failed(TooManyRecords)
      else Read(r.value)
  }

  /** The first failing line decides; otherwise every line is decoded in order. */
  function DecodeLines(lines: seq<seq<Byte>>, p: Policy): Reading<seq<Record>> {
    if lines == [] then Read([])
    else
      var n := |lines|;
      var before := DecodeLines(lines[..n - 1], p);
      if before.Failed? then before
      else
        var one := DecodeOne(lines[n - 1], n, p);
        if one.Failed? then Failed(one.failure) else Read(before.value + [one.value])
  }

  /** What reading the whole file under a policy yields. */
  function Decode(data: seq<Byte>, p: Policy): Reading<seq<Record>> {
    if |data| > p.maxBytes then Failed(TooManyBytes)
    else if !Terminated(data) then Failed(Truncated)
    else DecodeLines(SplitLines(data), p)
  }

  method DecodeJsonl(data: seq<Byte>, p: Policy) returns (r: Reading<seq<Record>>)
    requires |data| <= p.maxBytes
    ensures r == Decode(data, p)
  {
    if data != [] && data[|data| - 1] != LF { return Failed(Truncated); }
    var lines := SplitLines(data);
    var values: seq<Record> := [];
    for i := 0 to |lines|
      invariant DecodeLines(lines[..i], p) == Read(values)
    {
      assert lines[..i + 1][..i] == lines[..i];
      var one := DecodeOne(lines[i], i + 1, p);
      if one.Failed? {
        DecodeFailsEarly(lines, i + 1, p);
        return Failed(one.failure);
      }
      values := values + [one.value];
    }
    assert lines[..|lines|] == lines;
    r := Read(values);
  }

  lemma {:induction false} DecodeFailsEarly(lines: seq<seq<Byte>>, i: nat, p: Policy)
    requires i <= |lines| && DecodeLines(lines[..i], p).Failed?
    ensures DecodeLines(lines, p) == DecodeLines(lines[..i], p)
  {
    if i < |lines| {
      var n := |lines| - 1;
      assert lines[..n][..i] == lines[..i];
      DecodeFailsEarly(lines[..n], i, p);
    } else {
      assert lines[..i] == lines;
    }
  }

  /** The line, on its own and in place `n`, holds the record, within every limit. */
  ghost predicate Holds(raw: seq<Byte>, n: nat, p: Policy, r: Record) {
    && 1 <= |raw| <= p.maxRecord && ParseLine(raw) == Some(r)
    && (p.sequenced ==> r.sequence == n) && p.validator(r, n)
    && (p.maxRecords.None? || n <= p.maxRecords.value)
  }

  /** The reader takes exactly the lines that hold a record. */
  lemma {:induction false} DecodesExactly(raw: seq<Byte>, n: nat, p: Policy, r: Record)
    ensures DecodeOne(raw, n, p) == Read(r) <==> Holds(raw, n, p, r)
  {}

  ghost predicate LineByLine(lines: seq<seq<Byte>>, p: Policy, rs: seq<Record>) {
    |rs| == |lines| && forall i :: 0 <= i < |lines| ==> Holds(lines[i], i + 1, p, rs[i])
  }

  lemma {:induction false} DecodedLineByLine(lines: seq<seq<Byte>>, p: Policy)
    requires DecodeLines(lines, p).Read?
    ensures LineByLine(lines, p, DecodeLines(lines, p).value)
  {
    if lines != [] {
      var n := |lines| - 1;
      hide Holds, DecodeOne;
      DecodedLineByLine(lines[..n], p);
      DecodesExactly(lines[n], n + 1, p, DecodeLines(lines, p).value[n]);
      forall i | 0 <= i < n ensures Holds(lines[i], i + 1, p, DecodeLines(lines, p).value[i]) {
        assert lines[..n][i] == lines[i];
      }
    }
  }

  lemma {:induction false} LinesDecodeTogether(lines: seq<seq<Byte>>, p: Policy, rs: seq<Record>)
    requires LineByLine(lines, p, rs)
    ensures DecodeLines(lines, p) == Read(rs)
  {
    if lines != [] {
      var n := |lines| - 1;
      LinesDecodeTogether(lines[..n], p, rs[..n]);
      assert rs[..n] + [rs[n]] == rs;
    }
  }

  /** A readable journal is one whose every line holds the record in its place. */
  lemma {:induction false} DecodeMeaning(lines: seq<seq<Byte>>, p: Policy, rs: seq<Record>)
    ensures DecodeLines(lines, p) == Read(rs) <==> LineByLine(lines, p, rs)
  {
    if DecodeLines(lines, p) == Read(rs) {
      DecodedLineByLine(lines, p);
    } else if LineByLine(lines, p, rs) {
      LinesDecodeTogether(lines, p, rs);
    }
  }

  /** A file reads as these records exactly when it is within its limit, ends its last line, and holds them line by line. */
  lemma ReadsExactly(data: seq<Byte>, p: Policy, rs: seq<Record>)
    ensures Decode(data, p) == Read(rs) <==>
      |data| <= p.maxBytes && (data == [] || data[|data| - 1] == LF) && LineByLine(SplitLines(data), p, rs)
  {
    DecodeMeaning(SplitLines(data), p, rs);
  }

  /** What is wrong with a line in place `n`: the first of the reader's demands that it fails. */
  ghost predicate Fault(raw: seq<Byte>, n: nat, p: Policy, f: Failure) {
    var sized := 1 <= |raw| <= p.maxRecord;
    var r := ParseLine(raw);
    var inSequence := r.Some? && (p.sequenced ==> r.value.sequence == n);
    match f
    case EmptyRecord => raw == []
    case RecordTooLarge => raw != [] && |raw| > p.maxRecord
    case BadJson => sized && r.None?
    case SequenceMismatch => sized && r.Some? && p.sequenced && r.value.sequence != n
    case Rejected => sized && inSequence && !p.validator(r.value, n)
    case TooManyRecords => sized && inSequence && p.validator(r.value, n) && p.maxRecords.Some? && n > p.maxRecords.value
    case Truncated => false
    case TooManyBytes => false
  }

  /** Reading fails at the first line that holds no record, with that line's fault. */
  lemma {:induction false} FailsExactly(lines: seq<seq<Byte>>, p: Policy, f: Failure)
    ensures DecodeLines(lines, p) == Failed(f) <==>
      exists i: nat, rs :: i < |lines| && LineByLine(lines[..i], p, rs) && Fault(lines[i], i + 1, p, f)
  {
    if DecodeLines(lines, p).Failed? {
      var i := FirstFault(lines, p);
      var rs := DecodeLines(lines[..i], p).value;
      DecodedLineByLine(lines[..i], p);
      assert LineByLine(lines[..i], p, rs);
      forall j: nat, qs | j < |lines| && LineByLine(lines[..j], p, qs) && Fault(lines[j], j + 1, p, f) ensures j == i {
        if i < j { HeldHasNoFault(lines, p, qs, i, j, DecodeLines(lines, p).failure); }
        if j < i { HeldHasNoFault(lines, p, rs, j, i, f); }
      }
    } else {
      DecodedLineByLine(lines, p);
    }
  }

  lemma HeldHasNoFault(lines: seq<seq<Byte>>, p: Policy, rs: seq<Record>, i: nat, j: nat, f: Failure)
    requires i < j <= |lines| && LineByLine(lines[..j], p, rs)
    ensures !Fault(lines[i], i + 1, p, f)
  {
    assert lines[..j][i] == lines[i];
    assert Holds(lines[..j][i], i + 1, p, rs[i]);
  }

  lemma {:induction false} FirstFault(lines: seq<seq<Byte>>, p: Policy) returns (i: nat)
    requires DecodeLines(lines, p).Failed?
    ensures i < |lines| && DecodeLines(lines[..i], p).Read? && Fault(lines[i], i + 1, p, DecodeLines(lines, p).failure)
  {
    var n := |lines| - 1;
    if DecodeLines(lines[..n], p).Read? {
      i := n;
    } else {
      i := FirstFault(lines[..n], p);
      assert lines[..n][..i] == lines[..i];
    }
  }

  /** Sequence numbers of a readable sequenced journal are 1..n. */
  lemma SequencesAreConsecutive(data: seq<Byte>, p: Policy, i: nat)
    requires Decode(data, p).Read? && p.sequenced && i < |Decode(data, p).value|
    ensures Decode(data, p).value[i].sequence == i + 1
  {
    DecodeMeaning(SplitLines(data), p, Decode(data, p).value);
  }

  // ---------------------------------------------------------------- appending

  /** The capacity checks made before a line is written. */
  function Capacity(data: seq<Byte>, count: nat, r: Record, p: Policy): Option<Failure> {
    if |Encode(r)| > p.maxRecord then Some(RecordTooLarge)
    else if |data| + |Encode(r)| > p.maxBytes then Some(TooManyBytes)
    else if p.maxRecords.Some? && count + 1 > p.maxRecords.value then Some(TooManyRecords)
    else None
  }

  /** The record's line is within the record limit, and the file with it within both of the file's limits. */
  predicate Fits(data: seq<Byte>, count: nat, r: Record, p: Policy) {
    && |Encode(r)| <= p.maxRecord && |data| + |Encode(r)| <= p.maxBytes
    && (p.maxRecords.None? || count < p.maxRecords.value)
  }

  /** What the journal's own readers will demand of the record at this position. */
  predicate Acceptable(r: Record, n: nat, p: Policy) {
    (p.sequenced ==> r.sequence == n) && p.validator(r, n)
  }

  /**
   After a complete append the file holds the old records and the new one, exactly when the
   record is one the journal's reader accepts at that position; otherwise nothing is readable.
   */
  lemma CompleteAppend(data: seq<Byte>, r: Record, p: Policy)
    requires Decode(data, p).Read? && Fits(data, |Decode(data, p).value|, r, p)
    ensures Acceptable(r, |Decode(data, p).value| + 1, p) ==>
      Decode(data + Encode(r), p) == Read(Decode(data, p).value + [r])
    ensures !Acceptable(r, |Decode(data, p).value| + 1, p) ==> Decode(data + Encode(r), p).Failed?
  {
    var lines, records := SplitLines(data), Decode(data, p).value;
    DecodeMeaning(lines, p, records);
    assert SplitLines(data + Encode(r)) == lines + [Text(r)] by {
      TextIsUnbroken(r);
      SplitAfterAppend(data, Text(r));
    }
    LineReadsBack(r);
    DecodeOneMore(lines, Text(r), p);
  }

  lemma {:induction false} DecodeOneMore(lines: seq<seq<Byte>>, line: seq<Byte>, p: Policy)
    requires DecodeLines(lines, p).Read?
    ensures var last := DecodeOne(line, |lines| + 1, p);
      DecodeLines(lines + [line], p) == if last.Read? then Read(DecodeLines(lines, p).value + [last.value]) else Failed(last.failure)
  {
    assert (lines + [line])[..|lines|] == lines;
  }

  /**
   An append that stops after `k` bytes leaves the old records, the old records plus the new one,
   or a file that every reader reports as truncated.
   */
  lemma StoppedAppend(data: seq<Byte>, r: Record, p: Policy, k: nat)
    requires Decode(data, p).Read? && Fits(data, |Decode(data, p).value|, r, p)
    requires k <= |Encode(r)|
    ensures k == 0 ==> Decode(data + Encode(r)[..k], p) == Decode(data, p)
    ensures 0 < k < |Encode(r)| ==> Decode(data + Encode(r)[..k], p) == Failed(Truncated)
    ensures k == |Encode(r)| && Acceptable(r, |Decode(data, p).value| + 1, p) ==>
      Decode(data + Encode(r)[..k], p) == Read(Decode(data, p).value + [r])
  {
    if k == 0 {
      assert data + Encode(r)[..0] == data;
    } else if k < |Encode(r)| {
      TextIsUnbroken(r);
      assert (data + Encode(r)[..k])[|data| + k - 1] == Text(r)[k - 1];
    } else {
      assert Encode(r)[..k] == Encode(r);
      CompleteAppend(data, r, p);
    }
  }

  /** `record` is appended when present. */
  type Transaction = seq<Record> -> Option<Record>

  datatype Outcome = Unchanged | Committed(record: Record) | Refused(failure: Failure) | Interrupted

  /** Every write makes progress, often enough for `n` bytes. */
  ghost predicate Progresses(kernel: seq<int>, n: nat) { |kernel| >= n && forall i :: 0 <= i < |kernel| ==> kernel[i] > 0 }

  class JournalFile {
    var data: seq<Byte>

    /**
     The short-write loop. `kernel` lists what successive writes report; the process dies when
     it is exhausted. Whatever happens, the file has grown by a prefix of `line`.
     */
    method WriteAll(line: seq<Byte>, kernel: seq<int>) returns (offset: nat)
      modifies this
      ensures offset <= |line| && data == old(data) + line[..offset]
      ensures Progresses(kernel, |line|) ==> offset == |line|
    {
      offset := 0;
      var calls := 0;
      while offset < |line| && calls < |kernel| && kernel[calls] > 0
        invariant offset <= |line| && calls <= |kernel| && data == old(data) + line[..offset]
        invariant offset < |line| ==> calls <= offset
        decreases |kernel| - calls
      {
        var written := if kernel[calls] <= |line| - offset then kernel[calls] else |line| - offset;
        data := data + line[offset..offset + written];
        assert line[..offset] + line[offset..offset + written] == line[..offset + written];
        offset, calls := offset + written, calls + 1;
      }
    }

    /** One locked transaction: read, validate, decide, check capacity, append. */
    method Transact(p: Policy, decide: Transaction, kernel: seq<int>) returns (outcome: Outcome)
      modifies this
      ensures Decode(old(data), p).Failed? ==> outcome == Refused(Decode(old(data), p).failure)
      ensures outcome.Refused? || outcome.Unchanged? ==> data == old(data)
      ensures Decode(old(data), p).Read? ==>
        var rs := Decode(old(data), p).value;
        match decide(rs)
        case None => outcome == Unchanged
        case Some(r) =>
          // Refused exactly when the record does not fit, and committed when every write makes progress.
          && (outcome.Refused? <==> !Fits(old(data), |rs|, r, p))
          && (outcome == Refused(RecordTooLarge) <==> |Encode(r)| > p.maxRecord)
          && (outcome == Refused(TooManyBytes) <==> |Encode(r)| <= p.maxRecord && |old(data)| + |Encode(r)| > p.maxBytes)
          && outcome != Unchanged
          && (Fits(old(data), |rs|, r, p) && Progresses(kernel, |Encode(r)|) ==> outcome == Committed(r))
          && (outcome.Committed? ==> outcome.record == r && data == old(data) + Encode(r))
          && (outcome == Interrupted ==> exists k :: 0 <= k < |Encode(r)| && data == old(data) + Encode(r)[..k])
    {
      if |data| > p.maxBytes { return Refused(TooManyBytes); }
      var existing := DecodeJsonl(data, p);
      if existing.Failed? { return Refused(existing.failure); }
      var decision := decide(existing.value);
      if decision.None? { return Unchanged; }
      var line := Encode(decision.value);
      var full := Capacity(data, |existing.value|, decision.value, p);
      if full.Some? { return Refused(full.value); }
      var offset := WriteAll(line, kernel);
      if offset == |line| {
        assert line[..offset] == line;
        outcome := Committed(decision.value);
      } else {
        outcome := Interrupted;
      }
    }

    /**
     `append_jsonl`: the validator must accept the record at its position. A committed record is
     read back after the old ones; only its own sequence field can make the journal unreadable.
     */
    method Append(p: Policy, r: Record, kernel: seq<int>) returns (outcome: Outcome)
      modifies this
      ensures Decode(old(data), p).Failed? ==> outcome.Refused? && data == old(data)
      ensures Decode(old(data), p).Read? ==>
        var rs := Decode(old(data), p).value;
        match outcome
        case Unchanged => false
        case Committed(c) => c == r && p.validator(r, |rs| + 1)
          && (if !p.sequenced || r.sequence == |rs| + 1 then Decode(data, p) == Read(rs + [r]) else Decode(data, p).Failed?)
        case Refused(_) => data == old(data)
        case Interrupted => Decode(data, p) == Read(rs) || Decode(data, p) == Failed(Truncated)
      // Refused exactly when the validator rejects the record or it does not fit.
      ensures Decode(old(data), p).Read? ==>
        var rs := Decode(old(data), p).value;
        && (outcome.Refused? <==> !p.validator(r, |rs| + 1) || !Fits(old(data), |rs|, r, p))
        && (!outcome.Refused? && Progresses(kernel, |Encode(r)|) ==> outcome == Committed(r) && data == old(data) + Encode(r))
    {
      if |data| > p.maxBytes { return Refused(TooManyBytes); }
      var existing := DecodeJsonl(data, p);
      if existing.Failed? { return Refused(existing.failure); }
      if !p.validator(r, |existing.value| + 1) { return Refused(Rejected); }
      ghost var before := data;
      outcome := Transact(p, _ => Some(r), kernel);
      if outcome.Committed? {
        CompleteAppend(before, r, p);
      } else if outcome.Interrupted? {
        ghost var k :| 0 <= k < |Encode(r)| && data == before + Encode(r)[..k];
        StoppedAppend(before, r, p, k);
      }
    }
  }

  // ---------------------------------------------------------------- whole histories

  /** One transaction that ran to the end. */
  function Run(data: seq<Byte>, p: Policy, decide: Transaction): seq<Byte> {
    var rs := Decode(data, p);
    if rs.Failed? then data
    else match decide(rs.value)
      case None => data
      case Some(r) => if Fits(data, |rs.value|, r, p) then data + Encode(r) else data
  }

  function RunAll(data: seq<Byte>, p: Policy, txs: seq<Transaction>): seq<Byte>
  {
    if txs == [] then data else Run(RunAll(data, p, txs[..|txs| - 1]), p, txs[|txs| - 1])
  }

  /** A transaction that proposes only records the journal's reader accepts at the next position. */
  ghost predicate Disciplined(decide: Transaction, p: Policy) {
    forall rs :: decide(rs).Some? ==> Acceptable(decide(rs).value, |rs| + 1, p)
  }

  lemma RunStaysReadable(data: seq<Byte>, p: Policy, decide: Transaction)
    requires Decode(data, p).Read? && Disciplined(decide, p)
    ensures Decode(Run(data, p, decide), p).Read? && data <= Run(data, p, decide)
    ensures Decode(data, p).value <= Decode(Run(data, p, decide), p).value
  {
    var rs := Decode(data, p).value;
    var d := decide(rs);
    if d.Some? && Fits(data, |rs|, d.value, p) { CompleteAppend(data, d.value, p); }
  }

  /**
   A journal readable under its limits stays readable under the same limits after every sequence
   of transactions, and the records it had stay an unchanged prefix.
   */
  lemma {:induction false} HistoryStaysReadable(data: seq<Byte>, p: Policy, txs: seq<Transaction>)
    requires Decode(data, p).Read? && forall i :: 0 <= i < |txs| ==> Disciplined(txs[i], p)
    ensures Decode(RunAll(data, p, txs), p).Read?
    ensures Decode(data, p).value <= Decode(RunAll(data, p, txs), p).value
    ensures data <= RunAll(data, p, txs)
  {
    if txs != [] {
      var n := |txs| - 1;
      HistoryStaysReadable(data, p, txs[..n]);
      RunStaysReadable(RunAll(data, p, txs[..n]), p, txs[n]);
    }
  }

  /** The transaction that proposes one record, whatever the journal holds. */
  function Propose(r: Record): Transaction { _ => Some(r) }

  function Proposals(rs: seq<Record>): seq<Transaction> {
    if rs == [] then [] else Proposals(rs[..|rs| - 1]) + [Propose(rs[|rs| - 1])]
  }

  function Size(rs: seq<Record>): nat { if rs == [] then 0 else Size(rs[..|rs| - 1]) + |Encode(rs[|rs| - 1])| }

  /** Records the reader accepts, proposed one after another to a journal with room for all of them, are all kept, in order. */
  lemma {:induction false} EveryRecordIsKept(data: seq<Byte>, p: Policy, rs: seq<Record>)
    requires Decode(data, p).Read?
    requires |data| + Size(rs) <= p.maxBytes
    requires p.maxRecords.Some? ==> |Decode(data, p).value| + |rs| <= p.maxRecords.value
    requires forall i :: 0 <= i < |rs| ==> |Encode(rs[i])| <= p.maxRecord && Acceptable(rs[i], |Decode(data, p).value| + i + 1, p)
    ensures var t := RunAll(data, p, Proposals(rs));
      |t| == |data| + Size(rs) && Decode(t, p) == Read(Decode(data, p).value + rs)
  {
    hide Decode, Encode, Run, Acceptable;
    if rs == [] {
      assert Decode(data, p).value + rs == Decode(data, p).value;
    } else {
      var n := |rs| - 1;
      EveryRecordIsKept(data, p, rs[..n]);
      ProposalsStep(data, p, rs);
      ProposedIsKept(RunAll(data, p, Proposals(rs[..n])), p, rs[n]);
      assert Decode(data, p).value + rs[..n] + [rs[n]] == Decode(data, p).value + rs;
    }
  }

  lemma ProposalsStep(data: seq<Byte>, p: Policy, rs: seq<Record>)
    requires rs != []
    ensures RunAll(data, p, Proposals(rs)) == Run(RunAll(data, p, Proposals(rs[..|rs| - 1])), p, Propose(rs[|rs| - 1]))
  {
    assert Proposals(rs)[..|Proposals(rs)| - 1] == Proposals(rs[..|rs| - 1]);
  }

  lemma ProposedIsKept(data: seq<Byte>, p: Policy, r: Record)
    requires Decode(data, p).Read? && Fits(data, |Decode(data, p).value|, r, p) && Acceptable(r, |Decode(data, p).value| + 1, p)
    ensures |Run(data, p, Propose(r))| == |data| + |Encode(r)|
    ensures Decode(Run(data, p, Propose(r)), p) == Read(Decode(data, p).value + [r])
  {
    CompleteAppend(data, r, p);
  }

  /** A truncated or otherwise unreadable journal is never written again: every later transaction leaves it alone. */
  lemma {:induction false} UnreadableIsFrozen(data: seq<Byte>, p: Policy, txs: seq<Transaction>)
    requires Decode(data, p).Failed?
    ensures RunAll(data, p, txs) == data
  {
    if txs != [] { UnreadableIsFrozen(data, p, txs[..|txs| - 1]); }
  }

  // ---------------------------------------------------------------- histories with crashes

  /** A transaction and the number of bytes after which its write stops, if it gets to write and is longer. */
  datatype Attempt = Attempt(decide: Transaction, stop: nat)

  function Try(data: seq<Byte>, p: Policy, a: Attempt): seq<Byte> {
    var done := Run(data, p, a.decide);
    if |done| <= |data| + a.stop then done else data + done[|data|..][..a.stop]
  }

  /** `files` lists the journal before and after every attempt. */
  ghost predicate Trace(files: seq<seq<Byte>>, p: Policy, attempts: seq<Attempt>) {
    |files| == |attempts| + 1 && forall i :: 0 <= i < |attempts| ==> files[i + 1] == Try(files[i], p, attempts[i])
  }

  /** The write of a line is cut short. */
  ghost predicate Torn(data: seq<Byte>, p: Policy, a: Attempt) {
    a.stop > 0 && |Run(data, p, a.decide)| > |data| + a.stop
  }

  /** Both files are readable, and the second holds the first one's records and at most one more. */
  ghost predicate Grows(before: seq<Byte>, after: seq<Byte>, p: Policy) {
    && Decode(before, p).Read? && Decode(after, p).Read?
    && Decode(before, p).value <= Decode(after, p).value && |Decode(after, p).value| <= |Decode(before, p).value| + 1
  }

  /** One attempt on a readable journal: unless the line is torn it reads as before or one record longer. */
  lemma TryReads(data: seq<Byte>, p: Policy, a: Attempt)
    requires Decode(data, p).Read? && Disciplined(a.decide, p)
    ensures data <= Try(data, p, a)
    ensures Torn(data, p, a) ==> Decode(Try(data, p, a), p) == Failed(Truncated)
    ensures !Torn(data, p, a) ==> Grows(data, Try(data, p, a), p)
  {
    var rs := Decode(data, p).value;
    var d := a.decide(rs);
    if d.Some? && Fits(data, |rs|, d.value, p) {
      var done := data + Encode(d.value);
      assert done[|data|..] == Encode(d.value);
      StoppedAppend(data, d.value, p, if a.stop < |Encode(d.value)| then a.stop else |Encode(d.value)|);
      assert Encode(d.value)[..|Encode(d.value)|] == Encode(d.value);
    }
  }

  lemma TryFrozen(data: seq<Byte>, p: Policy, a: Attempt)
    requires Decode(data, p).Failed?
    ensures Try(data, p, a) == data
  {
  }

  lemma {:induction false} BeforeTearReads(files: seq<seq<Byte>>, p: Policy, attempts: seq<Attempt>, n: nat)
    requires Trace(files, p, attempts) && Decode(files[0], p).Read? && n <= |attempts|
    requires forall i :: 0 <= i < n ==> Disciplined(attempts[i].decide, p) && !Torn(files[i], p, attempts[i])
    ensures Decode(files[n], p).Read? && forall i :: 0 <= i < n ==> Grows(files[i], files[i + 1], p)
  {
    if n > 0 {
      BeforeTearReads(files, p, attempts, n - 1);
      TryReads(files[n - 1], p, attempts[n - 1]);
      assert files[n] == Try(files[n - 1], p, attempts[n - 1]);
    }
  }

  /** A list that repeats its element at `m` whenever it has it is constant from there on. */
  lemma {:induction false} Settles<T>(xs: seq<T>, m: nat, n: nat)
    requires m <= n < |xs| && forall i :: m <= i < n && xs[i] == xs[m] ==> xs[i + 1] == xs[m]
    ensures xs[n] == xs[m]
  {
    if m < n {
      Settles(xs, m, n - 1);
      assert xs[n - 1 + 1] == xs[m];
    }
  }

  lemma TornStaysTorn(files: seq<seq<Byte>>, p: Policy, attempts: seq<Attempt>, m: nat, n: nat)
    requires Trace(files, p, attempts) && m <= n <= |attempts| && Decode(files[m], p).Failed?
    ensures files[n] == files[m]
  {
    forall i | m <= i < n && files[i] == files[m] ensures files[i + 1] == files[m] { TryFrozen(files[i], p, attempts[i]); }
    Settles(files, m, n);
  }

  /** The first number below `n` that is bad, or `n`. */
  lemma {:induction false} FirstSuch(n: nat, bad: nat -> bool) returns (t: nat)
    ensures t <= n && (forall i :: 0 <= i < t ==> !bad(i)) && (t < n ==> bad(t))
  {
    if n == 0 {
      t := 0;
    } else {
      t := FirstSuch(n - 1, bad);
      if t == n - 1 && !bad(t) { t := n; }
    }
  }

  /** The number of attempts before the first that tears a line. */
  lemma FirstTear(files: seq<seq<Byte>>, p: Policy, attempts: seq<Attempt>) returns (t: nat)
    requires Trace(files, p, attempts)
    ensures t <= |attempts| && (forall i :: 0 <= i < t ==> !Torn(files[i], p, attempts[i]))
    ensures t < |attempts| ==> Torn(files[t], p, attempts[t])
  {
    var bad := (i: nat) => i < |attempts| && Torn(files[i], p, attempts[i]);
    t := FirstSuch(|attempts|, bad);
    forall i | 0 <= i < t ensures !Torn(files[i], p, attempts[i]) { assert !bad(i); }
  }

  /**
   Over every history in which each transaction may stop after any number of bytes: until the first torn
   line the journal stays readable and its records only grow; from then on every reader reports truncation
   and the file never changes again.
   */
  lemma CrashesOnlyTruncate(files: seq<seq<Byte>>, p: Policy, attempts: seq<Attempt>) returns (t: nat)
    requires Trace(files, p, attempts) && Decode(files[0], p).Read?
    requires forall i :: 0 <= i < |attempts| ==> Disciplined(attempts[i].decide, p)
    ensures t <= |attempts| && (t < |attempts| <==> exists i :: 0 <= i < |attempts| && Torn(files[i], p, attempts[i]))
    ensures forall i :: 0 <= i < t ==> Grows(files[i], files[i + 1], p)
    ensures forall i :: t < i <= |attempts| ==> files[i] == files[t + 1] && Decode(files[i], p) == Failed(Truncated)
  {
    t := FirstTear(files, p, attempts);
    BeforeTearReads(files, p, attempts, t);
    if t < |attempts| {
      TryReads(files[t], p, attempts[t]);
      assert files[t + 1] == Try(files[t], p, attempts[t]);
      forall i | t < i <= |attempts| ensures files[i] == files[t + 1] { TornStaysTorn(files, p, attempts, t + 1, i); }
    }
  }
}
