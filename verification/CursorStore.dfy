/**
 The cursor store's operations. On every protocol state in which they are called, each is proved to be a
 run of the cursor protocol, so what the protocol keeps over whole runs holds of the store.
 */
module CursorStore {
  import opened Wrappers
  import opened Messages
  import opened ConsumerCursor
  import opened CursorProtocol

  /** What the target's commit callback does: it may raise, with or without having taken effect. */
  datatype Answer =
    | Raises(committed: bool)
    | Returns(committed: bool, flagged: bool, receipt: string, id: string, digest: Message)

  predicate SafeToken(t: string) {
    0 < |t| <= 256 && forall i :: 0 <= i < |t| ==> t[i] != '/' && t[i] != '\\' && t[i] != '\0'
  }

  /** `DurableEffectReceipt.from_value` accepts the answer for this record. */
  predicate ReceiptOk(a: Answer, m: Message) {
    a.Returns? && a.flagged && SafeToken(a.receipt) && a.id == m.id && a.digest == m
  }

  /** A receipt that passes is a promise that the effect is durable. */
  predicate Truthful(a: Answer, m: Message) { ReceiptOk(a, m) ==> a.committed }

  datatype Outcome = Advanced(evidence: Evidence) | Duplicate | AlreadyCommitted | Failed

  class EffectTarget {
    var applied: seq<Message>

    method Commit(m: Message, answer: Answer)
      modifies this
      ensures applied == if answer.committed then ApplyOnce(old(applied), m) else old(applied)
    {
      if answer.committed && m !in applied { applied := applied + [m]; }
    }
  }

  /** The events one `process` call amounts to. */
  function ProcessEvents(b: Binding, f: CursorFile, m: Message, d: string, a: Answer, crash: bool, now: string): seq<Event> {
    if !Usable(b, f, m) || SameId(f, m) then []
    else if m.sequence != Position(f) + 1 || !a.committed then []
    else if ReceiptOk(a, m) && !crash && KnownDisposition(d) then [Commit(m), Advance(d, a.receipt, now)]
    else [Commit(m), Crash]
  }

  /** The record is valid and the cursor file is readable by this consumer. */
  predicate Usable(b: Binding, f: CursorFile, m: Message) {
    ValidMessage(m, m.sequence) && !f.Corrupt? && (f.Present? ==> f.cursor.binding == b)
  }

  /** The record's identifier is the one the cursor stands on. */
  predicate SameId(f: CursorFile, m: Message) { f.Present? && f.cursor.last.Some? && f.cursor.last.value.id == m.id }

  /** The record is a valid one, new to this consumer, and the next after its cursor. */
  ghost predicate IsNext(b: Binding, f: CursorFile, m: Message) {
    && ValidMessage(m, m.sequence)
    && match f
       case Missing => m.sequence == 1
       case Corrupt => false
       case Present(c) => c.binding == b && m.sequence == c.sequence + 1 && (c.last == None || c.last.value.id != m.id)
  }

  /** The target returned a committed receipt, with a usable identifier, for exactly this record. */
  ghost predicate Attests(a: Answer, m: Message) {
    && a.Returns? && a.committed && a.flagged && a.id == m.id && a.digest == m
    && 1 <= |a.receipt| <= 256 && '/' !in a.receipt && '\\' !in a.receipt && '\0' !in a.receipt
  }

  /** A system in the state the store and the target are in, with the lock free. */
  ghost predicate Views(s: System, b: Binding, f: CursorFile, applied: seq<Message>) {
    Inv(s) && s.binding == b && s.file == f && s.applied == applied && s.held.None?
  }

  class Store {
    const binding: Binding
    var file: CursorFile

    constructor (b: Binding)
      ensures binding == b && file == Missing
    {
      binding := b;
      file := Missing;
    }

    /** `process`: commit the target effect, then advance the cursor; `crash` stops it in between. */
    method Process(m: Message, d: string, target: EffectTarget, a: Answer, crash: bool, now: string) returns (out: Outcome)
      requires Truthful(a, m)
      modifies this, target
      ensures out.Advanced? ==> ReceiptOk(a, m) && KnownDisposition(d) && !crash
      ensures out.Advanced? ==> out.evidence == EvidenceOf(binding, m, d, a.receipt, now)
      ensures out.Advanced? ==> file == Present(CursorOn(binding, m, d, now))
      ensures !out.Advanced? ==> file == old(file)
      // A valid record behind or on this consumer's cursor is recognised without reaching the target.
      ensures out.Duplicate? <==>
        ValidMessage(m, m.sequence) && old(file).Present? && old(file).cursor.binding == binding && old(file).cursor.last == Some(m)
      ensures out.AlreadyCommitted? <==>
        && ValidMessage(m, m.sequence) && old(file).Present? && old(file).cursor.binding == binding
        && m.sequence <= old(file).cursor.sequence && (old(file).cursor.last == None || old(file).cursor.last.value.id != m.id)
      // The cursor advances exactly on the next record with a committed receipt for it; a committed effect is applied.
      ensures out.Advanced? <==>
        IsNext(binding, old(file), m) && Attests(a, m) && !crash && d in {"applied", "rejected", "ignored", "deferred", "security_error"}
      ensures target.applied ==
        old(target.applied) + if IsNext(binding, old(file), m) && a.committed && m !in old(target.applied) then [m] else []
      // The target's effect is applied exactly when the call reaches the commit and the target takes it.
      ensures target.applied ==
        if ProcessEvents(binding, old(file), m, d, a, crash, now) == [] then old(target.applied) else ApplyOnce(old(target.applied), m)
      ensures out.Advanced? <==>
        var es := ProcessEvents(binding, old(file), m, d, a, crash, now); es != [] && es[1].Advance?
      // On every system state it is called in, the call is a run of the protocol.
      ensures forall s :: Views(s, binding, old(file), old(target.applied)) && m in s.journal ==>
        var es := ProcessEvents(binding, old(file), m, d, a, crash, now);
        Executes(s, es) && After(s, es).file == file && After(s, es).applied == target.applied && After(s, es).held.None?
    {
      ghost var es := ProcessEvents(binding, file, m, d, a, crash, now);
      ghost var f0, applied0 := file, target.applied;
      out := Failed;
      if Usable(binding, file, m) {
        if SameId(file, m) {
          out := if file.cursor.last.value == m then Duplicate else Failed;
        } else if m.sequence <= Position(file) {
          out := AlreadyCommitted;
        } else if m.sequence == Position(file) + 1 {
          target.Commit(m, a);
          if ReceiptOk(a, m) && !crash && KnownDisposition(d) {
            file := Present(CursorOn(binding, m, d, now));
            out := Advanced(EvidenceOf(binding, m, d, a.receipt, now));
          }
        }
      }
      forall s | Views(s, binding, f0, applied0) && m in s.journal
        ensures Executes(s, es) && After(s, es).file == file && After(s, es).applied == target.applied && After(s, es).held.None?
      {
        ProcessRuns(s, m, d, a, crash, now);
      }
    }

    /** `compare_and_update`: advance only past the expected position and with a matching receipt. */
    method CompareAndUpdate(expected: int, m: Message, d: string, receipt: string, id: string, digest: Message, now: string)
      returns (ok: bool)
      modifies this
      ensures ok <==>
        && ValidMessage(m, m.sequence) && m.sequence == expected + 1
        && (match old(file) case Missing => expected == 0 case Corrupt => false case Present(c) => c.binding == binding && c.sequence == expected)
        && d in {"applied", "rejected", "ignored", "deferred", "security_error"} && id == m.id && digest == m
        && 1 <= |receipt| <= 256 && '/' !in receipt && '\\' !in receipt && '\0' !in receipt
      ensures file == if ok then Present(CursorOn(binding, m, d, now)) else old(file)
      // On every system state in which the target has applied the record, a success is the protocol's
      // event, and a matching receipt at the expected position succeeds exactly when that event is enabled.
      ensures forall s, applied :: Views(s, binding, old(file), applied) && m in applied ==>
        var e := Event.CompareAndUpdate(m, d, now);
        && (ok ==> Executes(s, [e]) && After(s, [e]).file == file && After(s, [e]).applied == applied && After(s, [e]).held.None?)
        && (SafeToken(receipt) && id == m.id && digest == m && !old(file).Corrupt? && Position(old(file)) == expected ==>
            (ok <==> Enabled(s, e)))
    {
      ok := false;
      ghost var f0 := file;
      if ValidMessage(m, m.sequence) && KnownDisposition(d) && !file.Corrupt? {
        if !(file.Present? && file.cursor.binding != binding) {
          if Position(file) == expected && m.sequence == expected + 1 && SafeToken(receipt) && id == m.id && digest == m {
            file := Present(CursorOn(binding, m, d, now));
            ok := true;
          }
        }
      }
      forall s, applied | Views(s, binding, f0, applied) && m in applied
        ensures ValidMessage(m, m.sequence)
        ensures ok ==>
          var es := [Event.CompareAndUpdate(m, d, now)];
          Executes(s, es) && After(s, es) == s.(file := Present(CursorOn(binding, m, d, now)))
      {
        PositionOf(s.journal, s.applied, m);
        if ok { OneStep(s, Event.CompareAndUpdate(m, d, now)); }
      }
    }

    /**
     `read_or_reconstruct`. `file` is read only after the rebuild, so it may have moved since the
     journal and the evidence were read; the store still ends at the rebuilt position.
     */
    method ReadOrReconstruct(source: seq<Message>, es: seq<Evidence>, now: string) returns (r: Result<Cursor>)
      modifies this
      ensures Reconstruct(binding, source, es, now).Err? ==> r.Err? && file == old(file)
      ensures r.Err? ==> file == old(file)
      ensures Reconstruct(binding, source, es, now).Ok? && !(old(file).Present? && old(file).cursor.binding != binding) ==> r.Ok?
      ensures r.Ok? ==>
        && file == Present(r.value)
        && r.value.sequence == Reconstruct(binding, source, es, now).value.sequence
        && r.value.last == Reconstruct(binding, source, es, now).value.last
        && r.value.disposition == Reconstruct(binding, source, es, now).value.disposition
      // On every system state that holds the journal and the evidence, the call succeeds exactly when the
      // rebuild does, and is then a begun and a finished rebuild of the protocol.
      ensures forall s, applied :: Views(s, binding, old(file), applied) && Known(s, source, es) ==>
        var run := RebuildEvents(binding, source, es, now);
        && (r.Ok? <==> run != [])
        && Executes(s, run) && After(s, run).file == file && After(s, run).applied == applied && After(s, run).held.None?
    {
      ghost var f0 := file;
      r := ReconstructCursor(binding, source, es, now);
      if r.Ok? {
        if file.Present? && file.cursor.binding != binding {
          r := Err;
        } else if Stale(file, r.value) {
          file := Present(r.value);
        } else {
          r := Ok(file.cursor);
        }
      }
      forall s, applied | Views(s, binding, f0, applied) && Known(s, source, es)
        ensures var run := RebuildEvents(binding, source, es, now);
          Executes(s, run) && After(s, run).file == file && After(s, run).applied == applied && After(s, run).held.None?
      {
        RebuildRuns(s, source, es, now);
      }
    }
  }

  /** The journal and the evidence given to a rebuild are ones the system holds, possibly older than its present ones. */
  ghost predicate Known(s: System, source: seq<Message>, es: seq<Evidence>) {
    source <= s.journal && forall i :: 0 <= i < |es| ==> es[i] in s.evidence
  }

  /** The events one `read_or_reconstruct` call amounts to. */
  function RebuildEvents(b: Binding, source: seq<Message>, es: seq<Evidence>, now: string): seq<Event> {
    var c := Reconstruct(b, source, es, now);
    if c.Err? then [] else [BeginRebuild(source, es, now), EndRebuild(c.value)]
  }

  lemma {:induction false} RebuildRuns(s: System, source: seq<Message>, es: seq<Evidence>, now: string)
    requires Inv(s) && s.held.None? && Known(s, source, es)
    ensures var run := RebuildEvents(s.binding, source, es, now);
      && Executes(s, run)
      && After(s, run).held.None? && After(s, run).applied == s.applied
      && (run == [] ==> After(s, run).file == s.file)
      && (run != [] ==>
          var c := Reconstruct(s.binding, source, es, now).value;
          After(s, run).file == if Stale(s.file, c) then Present(c) else s.file)
  {
    var run := RebuildEvents(s.binding, source, es, now);
    if run != [] { TwoSteps(s, run[0], run[1]); }
  }

  lemma {:induction false} ProcessRuns(s: System, m: Message, d: string, a: Answer, crash: bool, now: string)
    requires Inv(s) && s.held.None? && m in s.journal
    ensures var es := ProcessEvents(s.binding, s.file, m, d, a, crash, now);
      && Executes(s, es)
      && After(s, es).held.None?
      && After(s, es).applied == (if es == [] then s.applied else ApplyOnce(s.applied, m))
      && After(s, es).file == (if es != [] && es[1].Advance? then Present(CursorOn(s.binding, m, d, now)) else s.file)
  {
    var es := ProcessEvents(s.binding, s.file, m, d, a, crash, now);
    if es != [] {
      assert es == [es[0], es[1]];
      TwoSteps(s, es[0], es[1]);
    }
  }

  /**
   A call leaves the effect committed and the cursor where it was exactly when it reaches the target,
   the target takes the effect, and then the receipt is refused, the process stops, or the disposition
   is unknown, which is looked at only after the commit.
   */
  lemma {:induction false} CommittedButNotAdvanced(s: System, m: Message, d: string, a: Answer, crash: bool, now: string)
    requires Inv(s) && s.held.None? && m in s.journal
    ensures ProcessEvents(s.binding, s.file, m, d, a, crash, now) == [Commit(m), Crash] <==>
      !s.file.Corrupt? && m.sequence == Position(s.file) + 1 && a.committed
      && !(Attests(a, m) && !crash && KnownDisposition(d))
    ensures ProcessEvents(s.binding, s.file, m, d, a, crash, now) == [Commit(m), Crash] ==>
      var t := After(s, [Commit(m), Crash]);
      Executes(s, [Commit(m), Crash]) && m in t.applied && t.file == s.file
  {
    ProcessRuns(s, m, d, a, crash, now);
    PositionOf(s.journal, s.journal, m);
    if SameId(s.file, m) {
      // The cursor stands on a record of the journal, and identifiers are not reused there.
      var k := s.file.cursor.sequence;
      assert ValidMessage(s.journal[k - 1], k);
      assert k - 1 < m.sequence - 1 || k == m.sequence || m.sequence - 1 < k - 1;
    }
  }

  /** An unknown disposition with a perfect receipt: the effect is committed, the call fails, the cursor is unmoved. */
  lemma UnknownDispositionExample()
    ensures var m := Message(1, "m1", "r", "t", ParentToChild, Steer, "lead", "go", None);
      var s := Start(Binding("c", "p", "j")).(journal := [m]);
      var a := Returns(true, true, "x", "m1", m);
      var es := ProcessEvents(s.binding, s.file, m, "later", a, false, "now");
      Inv(s) && ReceiptOk(a, m) && Executes(s, es) && After(s, es).applied == [m] && After(s, es).file == Missing
  {
    var m := Message(1, "m1", "r", "t", ParentToChild, Steer, "lead", "go", None);
    var s := Start(Binding("c", "p", "j")).(journal := [m]);
    var a := Returns(true, true, "x", "m1", m);
    assert ValidMessage(s.journal[0], 1) && Inv(s);
    ProcessRuns(s, m, "later", a, false, "now");
  }

  lemma {:induction false} OneStep(s: System, e: Event)
    requires Enabled(s, e)
    ensures Executes(s, [e]) && After(s, [e]) == Apply(s, e)
  {
    assert [e][1..] == [];
    assert Executes(Apply(s, e), []) && After(Apply(s, e), []) == Apply(s, e);
  }

  lemma {:induction false} TwoSteps(s: System, a: Event, b: Event)
    requires Enabled(s, a) && Enabled(Apply(s, a), b)
    ensures Executes(s, [a, b]) && After(s, [a, b]) == Apply(Apply(s, a), b)
  {
    assert [a, b][1..] == [b] && [b][1..] == [];
    var t := Apply(s, a);
    assert Executes(Apply(t, b), []) && After(Apply(t, b), []) == Apply(t, b);
    assert Executes(t, [b]) && After(t, [b]) == Apply(t, b);
  }
}
