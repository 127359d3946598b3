/**
 The consumer cursor protocol as a system: an append-only source journal, a target that applies
 each message once, a cursor file that may be lost or damaged, evidence of finished handling, and
 rebuilds that read the journal and the evidence before they take the cursor lock.
 */
module CursorProtocol {
  import opened Wrappers
  import opened Messages
  import opened ConsumerCursor

  datatype CursorFile = Missing | Corrupt | Present(cursor: Cursor)

  /**
   `applied` lists the target's effects in the order of their first commit; `attempts` lists every
   commit request; `held` is the record whose effect is committed while the cursor is still locked
   and not yet advanced; `rebuilt` holds cursors computed but not yet written.
   */
  datatype System = System(
    binding: Binding,
    journal: seq<Message>,
    applied: seq<Message>,
    attempts: seq<Message>,
    file: CursorFile,
    held: Option<Message>,
    evidence: set<Evidence>,
    rebuilt: set<Cursor>)

  datatype Event =
    | Append(m: Message)                                     // the source journal grows
    | Commit(m: Message)                                     // `process`: lock, compare, commit the target effect
    | Advance(disposition: string, receipt: string, now: string)  // `process`: write the cursor, unlock
    | Crash                                                  // the process dies or fails after the commit
    | CompareAndUpdate(m: Message, disposition: string, now: string)
    | Lose                                                   // the cursor file disappears
    | Damage                                                 // the cursor file becomes unreadable
    | BeginRebuild(source: seq<Message>, evidence: seq<Evidence>, now: string)
    | EndRebuild(cursor: Cursor)

  function Start(b: Binding): System { System(b, [], [], [], Missing, None, {}, {}) }

  /** The sequence a reader of the cursor file sees; a missing file reads as the empty cursor. */
  function Position(f: CursorFile): int
    requires !f.Corrupt?
  {
    if f.Present? then f.cursor.sequence else 0
  }

  function CursorOn(b: Binding, m: Message, d: string, now: string): Cursor { Cursor(b, m.sequence, Some(m), d, now) }

  function EvidenceOf(b: Binding, m: Message, d: string, receipt: string, now: string): Evidence {
    Evidence(b, m.sequence, m.id, m, d, receipt, now)
  }

  /** An idempotent target: a message already applied is not applied again. */
  function ApplyOnce(applied: seq<Message>, m: Message): seq<Message> {
    if m in applied then applied else applied + [m]
  }

  /** The file is unreadable, or differs from the rebuilt cursor in position or disposition. */
  predicate Stale(f: CursorFile, c: Cursor) {
    !f.Present? || f.cursor.sequence != c.sequence || f.cursor.last != c.last || f.cursor.disposition != c.disposition
  }

  ghost predicate Enabled(s: System, e: Event) {
    match e
    case Append(m) => Fifo(s.journal + [m])
    case Commit(m) => s.held.None? && m in s.journal && !s.file.Corrupt? && m.sequence == Position(s.file) + 1
    case Advance(d, _, _) => s.held.Some? && KnownDisposition(d)
    case Crash => s.held.Some?
    case CompareAndUpdate(m, d, _) =>
      // The receipt attests an effect that is committed for exactly this message.
      s.held.None? && m in s.applied && !s.file.Corrupt? && m.sequence == Position(s.file) + 1 && KnownDisposition(d)
    case Lose => true
    case Damage => s.file.Present?
    case BeginRebuild(source, es, now) =>
      source <= s.journal && (forall i :: 0 <= i < |es| ==> es[i] in s.evidence)
      && Reconstruct(s.binding, source, es, now).Ok?
    case EndRebuild(c) => s.held.None? && c in s.rebuilt
  }

  ghost function Apply(s: System, e: Event): System
    requires Enabled(s, e)
  {
    match e
    case Append(m) => s.(journal := s.journal + [m])
    case Commit(m) => s.(applied := ApplyOnce(s.applied, m), attempts := s.attempts + [m], held := Some(m))
    case Advance(d, receipt, now) =>
      s.(file := Present(CursorOn(s.binding, s.held.value, d, now)), held := None,
         evidence := s.evidence + {EvidenceOf(s.binding, s.held.value, d, receipt, now)})
    case Crash => s.(held := None)
    case CompareAndUpdate(m, d, now) => s.(file := Present(CursorOn(s.binding, m, d, now)))
    case Lose => s.(file := Missing)
    case Damage => s.(file := Corrupt)
    case BeginRebuild(source, es, now) => s.(rebuilt := s.rebuilt + {Reconstruct(s.binding, source, es, now).value})
    case EndRebuild(c) =>
      s.(file := if Stale(s.file, c) then Present(c) else s.file, rebuilt := s.rebuilt - {c})
  }

  // ---------------------------------------------------------------- the invariant

  /** A cursor that stands at the end of a prefix of `ms`. */
  ghost predicate StandsIn(c: Cursor, ms: seq<Message>) {
    0 <= c.sequence <= |ms| && c.last == if c.sequence == 0 then None else Some(ms[c.sequence - 1])
  }

  ghost predicate Inv(s: System) {
    && Fifo(s.journal)
    && s.applied <= s.journal
    && (s.file.Present? ==> StandsIn(s.file.cursor, s.applied) && s.file.cursor.binding == s.binding)
    && (s.held.Some? ==> s.held.value in s.applied)
    && (forall e :: e in s.evidence ==> e.digest in s.applied && e.id == e.digest.id && e.sequence == e.digest.sequence)
    && (forall c :: c in s.rebuilt ==> StandsIn(c, s.applied) && c.binding == s.binding)
    && (forall m :: m in s.attempts ==> m in s.applied)
  }

  lemma PositionOf(journal: seq<Message>, applied: seq<Message>, m: Message)
    requires Fifo(journal) && applied <= journal && m in journal
    ensures 1 <= m.sequence <= |journal| && journal[m.sequence - 1] == m
    ensures m in applied <==> m.sequence <= |applied|
  {
    var i :| 0 <= i < |journal| && journal[i] == m;
    assert ValidMessage(journal[i], i + 1);
    if m in applied {
      var k :| 0 <= k < |applied| && applied[k] == m;
      assert ValidMessage(journal[k], k + 1);
    }
    if m.sequence <= |applied| { assert applied[m.sequence - 1] == journal[m.sequence - 1]; }
  }

  lemma StandsInLonger(c: Cursor, ms: seq<Message>, ns: seq<Message>)
    requires StandsIn(c, ms) && ms <= ns
    ensures StandsIn(c, ns)
  {
  }

  /** A rebuilt cursor never stands beyond what the target has applied, whatever evidence it used. */
  lemma RebuiltIsCovered(s: System, source: seq<Message>, es: seq<Evidence>, now: string)
    requires Inv(s) && Enabled(s, BeginRebuild(source, es, now))
    ensures StandsIn(Reconstruct(s.binding, source, es, now).value, s.applied)
  {
    var k := Frontier(source, es);
    if k > 0 {
      var m := source[k - 1];
      CoveredIsApplied(s, es, m);
      assert m == s.journal[k - 1] && ValidMessage(s.journal[k - 1], k);
      PositionOf(s.journal, s.applied, m);
    }
  }

  /** Evidence of the system covers only records whose effect is applied. */
  lemma CoveredIsApplied(s: System, es: seq<Evidence>, m: Message)
    requires Inv(s) && (forall i :: 0 <= i < |es| ==> es[i] in s.evidence) && Covered(m, es)
    ensures m in s.applied
  {
    var e := Latest(es, m.id).value;
    var i :| 0 <= i < |es| && es[i] == e;
    assert e in s.evidence;
  }

  lemma CommitKeepsInv(s: System, m: Message)
    requires Inv(s) && Enabled(s, Commit(m))
    ensures Inv(Apply(s, Commit(m)))
    ensures m !in s.applied ==> s.journal[|s.applied|] == m
  {
    var t := Apply(s, Commit(m));
    PositionOf(s.journal, s.applied, m);
    assert Position(s.file) <= |s.applied|;
    assert s.applied <= t.applied <= t.journal;
    if s.file.Present? { StandsInLonger(s.file.cursor, s.applied, t.applied); }
    forall c | c in s.rebuilt ensures StandsIn(c, t.applied) { StandsInLonger(c, s.applied, t.applied); }
  }

  lemma StepKeepsInv(s: System, e: Event)
    requires Inv(s) && Enabled(s, e)
    ensures Inv(Apply(s, e))
  {
    match e
    case Commit(m) => CommitKeepsInv(s, m);
    case Advance(d, receipt, now) => AdvanceKeepsInv(s, d, receipt, now);
    case CompareAndUpdate(m, d, now) => CursorOnStands(s, m, d, now);
    case BeginRebuild(source, es, now) => BeginKeepsInv(s, source, es, now);
    case _ =>
  }

  /** A cursor on an applied record stands within the applied effects. */
  lemma CursorOnStands(s: System, m: Message, d: string, now: string)
    requires Inv(s) && m in s.applied
    ensures StandsIn(CursorOn(s.binding, m, d, now), s.applied)
  {
    assert m in s.journal;
    PositionOf(s.journal, s.applied, m);
  }

  lemma AdvanceKeepsInv(s: System, d: string, receipt: string, now: string)
    requires Inv(s) && Enabled(s, Advance(d, receipt, now))
    ensures Inv(Apply(s, Advance(d, receipt, now)))
  {
    CursorOnStands(s, s.held.value, d, now);
  }

  lemma BeginKeepsInv(s: System, source: seq<Message>, es: seq<Evidence>, now: string)
    requires Inv(s) && Enabled(s, BeginRebuild(source, es, now))
    ensures Inv(Apply(s, BeginRebuild(source, es, now)))
  {
    RebuiltIsCovered(s, source, es, now);
  }

  // ---------------------------------------------------------------- whole runs

  ghost predicate Executes(s: System, es: seq<Event>)
    decreases |es|
  {
    es == [] || (Enabled(s, es[0]) && Executes(Apply(s, es[0]), es[1..]))
  }

  ghost function After(s: System, es: seq<Event>): System
    requires Executes(s, es)
    decreases |es|
  {
    if es == [] then s else After(Apply(s, es[0]), es[1..])
  }

  lemma {:induction false} RunKeepsInv(s: System, es: seq<Event>)
    requires Inv(s) && Executes(s, es)
    ensures Inv(After(s, es))
    decreases |es|
  {
    if es != [] {
      StepKeepsInv(s, es[0]);
      RunKeepsInv(Apply(s, es[0]), es[1..]);
    }
  }

  /**
   Over every run of processing, crashes after the target commit, retries, losses and rebuilds, the
   applied effects are exactly a prefix of the source journal: no record is skipped, none is applied
   twice, none is applied out of order, and the cursor never stands beyond them.
   */
  lemma {:induction false} EffectsArePrefix(b: Binding, es: seq<Event>)
    requires Executes(Start(b), es)
    ensures var s := After(Start(b), es);
      && s.applied <= s.journal
      && (forall i, j :: 0 <= i < j < |s.applied| ==> s.applied[i].id != s.applied[j].id)
      && (s.file.Present? ==> StandsIn(s.file.cursor, s.applied))
      && (forall m :: m in s.attempts ==> m in s.applied)
  {
    RunKeepsInv(Start(b), es);
  }

  /** Processing alone: the cursor file is neither lost, damaged nor rebuilt. */
  predicate ProcessingOnly(e: Event) { e.Append? || e.Commit? || e.Advance? || e.Crash? || e.CompareAndUpdate? }

  /** The target is at most the one record in flight ahead of the cursor. */
  ghost predicate Close(s: System) {
    && !s.file.Corrupt?
    && |s.applied| <= Position(s.file) + 1
    && (s.held.Some? ==> s.held.value.sequence == Position(s.file) + 1)
  }

  lemma {:induction false} ProcessingStaysClose(s: System, es: seq<Event>)
    requires Inv(s) && Close(s) && Executes(s, es) && forall i :: 0 <= i < |es| ==> ProcessingOnly(es[i])
    ensures Close(After(s, es))
    decreases |es|
  {
    if es != [] {
      var e := es[0];
      StepKeepsInv(s, e);
      if e.Commit? { PositionOf(s.journal, s.applied, e.m); }
      ProcessingStaysClose(Apply(s, e), es[1..]);
    }
  }

  /** Under processing alone the target is never more than one record ahead of the cursor. */
  lemma {:induction false} AtMostOneAhead(b: Binding, es: seq<Event>)
    requires Executes(Start(b), es)
    requires forall i :: 0 <= i < |es| ==> !es[i].Lose? && !es[i].Damage? && !es[i].BeginRebuild? && !es[i].EndRebuild?
    ensures var s := After(Start(b), es);
      !s.file.Corrupt? && Position(s.file) <= |s.applied| <= Position(s.file) + 1
  {
    RunKeepsInv(Start(b), es);
    ProcessingStaysClose(Start(b), es);
  }

  // ---------------------------------------------------------------- recovery

  /** Processing the journal in order from wherever the cursor stands. */
  function Replay(journal: seq<Message>, from: nat, d: string, receipt: string, now: string): seq<Event>
    requires from <= |journal|
    decreases |journal| - from
  {
    if from == |journal| then []
    else [Commit(journal[from]), Advance(d, receipt, now)] + Replay(journal, from + 1, d, receipt, now)
  }

  /**
   From every reachable state with a readable cursor and a free lock, replaying the journal is
   possible and ends with every record applied exactly once and the cursor at the end, however far
   the target had run ahead of the cursor.
   */
  lemma {:induction false} ReplayCompletes(s: System, from: nat, d: string, receipt: string, now: string)
    requires Inv(s) && s.held.None? && !s.file.Corrupt? && Position(s.file) == from && KnownDisposition(d)
    requires from <= |s.journal|
    ensures var es := Replay(s.journal, from, d, receipt, now);
      && Executes(s, es)
      && After(s, es).applied == s.journal
      && (After(s, es).file == s.file || After(s, es).file.Present?)
      && !After(s, es).file.Corrupt? && Position(After(s, es).file) == |s.journal|
    decreases |s.journal| - from
  {
    if from < |s.journal| {
      var m := s.journal[from];
      assert ValidMessage(s.journal[from], from + 1);
      var t := Apply(s, Commit(m));
      StepKeepsInv(s, Commit(m));
      var u := Apply(t, Advance(d, receipt, now));
      StepKeepsInv(t, Advance(d, receipt, now));
      ReplayCompletes(u, from + 1, d, receipt, now);
      PrependTwo(s, Commit(m), Advance(d, receipt, now), Replay(s.journal, from + 1, d, receipt, now));
    }
  }

  /**
   From every reachable state with a free lock, whether the cursor is lost just after another record has arrived or
   a cursor that is there is damaged and then removed, replay still ends with every record applied exactly once.
   */
  lemma {:induction false} LossIsRecovered(s: System, m: Message, d: string, receipt: string, now: string)
    requires Inv(s) && s.held.None? && KnownDisposition(d)
    ensures Fifo(s.journal + [m]) ==>
      var es := [Append(m), Lose] + Replay(s.journal + [m], 0, d, receipt, now);
      && Executes(s, es) && After(s, es).applied == s.journal + [m]
      && !After(s, es).file.Corrupt? && Position(After(s, es).file) == |s.journal| + 1
    ensures s.file.Present? ==>
      var es := [Damage, Lose] + Replay(s.journal, 0, d, receipt, now);
      && Executes(s, es) && After(s, es).applied == s.journal
      && !After(s, es).file.Corrupt? && Position(After(s, es).file) == |s.journal|
  {
    if Fifo(s.journal + [m]) {
      var t := Apply(Apply(s, Append(m)), Lose);
      StepKeepsInv(s, Append(m));
      StepKeepsInv(Apply(s, Append(m)), Lose);
      ReplayCompletes(t, 0, d, receipt, now);
      PrependTwo(s, Append(m), Lose, Replay(s.journal + [m], 0, d, receipt, now));
    }
    if s.file.Present? {
      var t := Apply(Apply(s, Damage), Lose);
      StepKeepsInv(s, Damage);
      StepKeepsInv(Apply(s, Damage), Lose);
      ReplayCompletes(t, 0, d, receipt, now);
      PrependTwo(s, Damage, Lose, Replay(s.journal, 0, d, receipt, now));
    }
  }

  lemma {:induction false} PrependTwo(s: System, a: Event, b: Event, rest: seq<Event>)
    requires Enabled(s, a) && Enabled(Apply(s, a), b) && Executes(Apply(Apply(s, a), b), rest)
    ensures Executes(s, [a, b] + rest) && After(s, [a, b] + rest) == After(Apply(Apply(s, a), b), rest)
  {
    var es := [a, b] + rest;
    assert es[1..] == [b] + rest && es[1..][1..] == rest;
    assert Executes(Apply(s, a), es[1..]);
  }
}
