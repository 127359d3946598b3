/**
 The external worker binding journal: an event-sourced state machine with generations and
 idempotent operations. Texts are taken after surrounding white space has been stripped.
 */
module ExternalBinding {
  import opened Wrappers

  const MAX_EVENTS := 4096

  datatype Action = Bound | Observed | Unbound

  datatype Event = Event(
    sequence: int, action: Action, run: string, worker: string,
    runtime: string, external: string, generation: int, at: string)

  datatype Projection = Projection(
    run: string, bound: bool, worker: Option<string>, runtime: Option<string>, external: Option<string>,
    generation: int, boundAt: Option<string>, observedAt: Option<string>)

  /** `_validate_event`. */
  predicate ValidEvent(e: Event, position: int) {
    && e.sequence == position && e.run != "" && e.worker != "" && e.generation >= 1 && e.at != ""
    && (!e.action.Unbound? ==> e.runtime != "" && e.external != "")
  }

  function Initial(run: string): Projection { Projection(run, false, None, None, None, 0, None, None) }

  /** One turn of the projection loop; `None` is the loop's starting value. */
  function Step(current: Option<Projection>, e: Event, run: string): Result<Projection> {
    if e.run != run then Err
    else match e.action
      case Bound =>
        Ok(Projection(run, true, Some(e.worker), Some(e.runtime), Some(e.external), e.generation, Some(e.at), Some(e.at)))
      case Observed =>
        if current.None? || !current.value.bound then Err
        else if Some(e.worker) != current.value.worker || e.generation != current.value.generation then Err
        else Ok(current.value.(observedAt := Some(e.at)))
      case Unbound =>
        if current.None? then Err
        else if Some(e.worker) != current.value.worker || e.generation != current.value.generation then Err
        else Ok(current.value.(bound := false, runtime := None, external := None, observedAt := Some(e.at)))
  }

  function Fold(es: seq<Event>, run: string): Result<Option<Projection>> {
    if es == [] then Ok(None)
    else
      var before := Fold(es[..|es| - 1], run);
      if before.Err? then Err
      else
        var next := Step(before.value, es[|es| - 1], run);
        if next.Err? then Err else Ok(Some(next.value))
  }

  /** What replaying the journal yields. */
  function Project(es: seq<Event>, run: string): Result<Projection> {
    var r := Fold(es, run);
    if r.Err? then Err else if r.value.None? then Ok(Initial(run)) else Ok(r.value.value)
  }

  method Replay(es: seq<Event>, run: string) returns (r: Result<Projection>)
    ensures r == Project(es, run)
  {
    var current: Option<Projection> := None;
    for i := 0 to |es|
      invariant Fold(es[..i], run) == Ok(current)
    {
      assert es[..i + 1][..i] == es[..i];
      var next := Step(current, es[i], run);
      if next.Err? {
        FoldFailsEarly(es, i + 1, run);
        return Err;
      }
      current := Some(next.value);
    }
    assert es[..|es|] == es;
    r := Ok(if current.None? then Initial(run) else current.value);
  }

  lemma {:induction false} FoldFailsEarly(es: seq<Event>, i: nat, run: string)
    requires i <= |es| && Fold(es[..i], run).Err?
    ensures Fold(es, run).Err?
  {
    if i < |es| {
      assert es[..|es| - 1][..i] == es[..i];
      FoldFailsEarly(es[..|es| - 1], i, run);
    } else {
      assert es[..i] == es;
    }
  }

  // ---------------------------------------------------------------- what a replay means

  /** Event `k` is the last bound event before position `n`. */
  ghost predicate LastBound(es: seq<Event>, k: nat, n: nat) {
    k < n <= |es| && es[k].action == Bound && forall j :: k < j < n ==> es[j].action != Bound
  }

  /** The projection shows the last bound event, unless it has been unbound since, and the time of the last event. */
  ghost predicate Shows(p: Projection, es: seq<Event>, k: nat)
    requires LastBound(es, k, |es|)
  {
    var b := es[k];
    && p.run == b.run && p.worker == Some(b.worker) && p.generation == b.generation && p.boundAt == Some(b.at)
    && p.observedAt == Some(es[|es| - 1].at)
    && (p.bound <==> forall j :: k < j < |es| ==> es[j].action != Unbound)
    && p.runtime == (if p.bound then Some(b.runtime) else None)
    && p.external == (if p.bound then Some(b.external) else None)
  }

  /** Event `i` belongs to the run, and observes or ends the last binding before it. */
  ghost predicate Continues(es: seq<Event>, i: nat, run: string)
    requires i < |es|
  {
    es[i].run == run &&
    (es[i].action != Bound ==>
      exists k: nat :: LastBound(es, k, i) && es[i].worker == es[k].worker && es[i].generation == es[k].generation
        && (es[i].action == Observed ==> forall j :: k < j < i ==> es[j].action != Unbound))
  }

  lemma LastBoundOfPrefix(es: seq<Event>, k: nat, n: nat, m: nat)
    requires n <= m <= |es|
    ensures LastBound(es[..m], k, n) <==> LastBound(es, k, n)
  {}

  lemma OneLastBound(es: seq<Event>, k: nat, j: nat, n: nat)
    requires LastBound(es, k, n) && LastBound(es, j, n)
    ensures k == j
  {}

  /** What a journal that replays shows. */
  lemma {:induction false} ReplayMeaning(es: seq<Event>, run: string) returns (k: nat)
    requires es != [] && Project(es, run).Ok?
    ensures LastBound(es, k, |es|) && Shows(Project(es, run).value, es, k)
  {
    var n := |es| - 1;
    if es[n].action == Bound {
      k := n;
    } else {
      assert es[..n] != [] by { assert Fold([], run) == Ok(None); }
      k := ReplayMeaning(es[..n], run);
      assert forall j :: 0 <= j < n ==> es[..n][j] == es[j];
    }
  }

  /** A journal replays exactly when every event continues it. */
  lemma {:induction false} ReplaysExactly(es: seq<Event>, run: string)
    ensures Project(es, run).Ok? <==> forall i :: 0 <= i < |es| ==> Continues(es, i, run)
  {
    if es != [] {
      var n := |es| - 1;
      ReplaysExactly(es[..n], run);
      forall i | 0 <= i < n ensures Continues(es[..n], i, run) <==> Continues(es, i, run) { ContinuesInPrefix(es, i, n, run); }
      if Project(es[..n], run).Ok? { LastContinues(es, run); }
    }
  }

  lemma ContinuesInPrefix(es: seq<Event>, i: nat, n: nat, run: string)
    requires i < n <= |es|
    ensures Continues(es[..n], i, run) <==> Continues(es, i, run)
  {
    forall k: nat ensures LastBound(es[..n], k, i) <==> LastBound(es, k, i) { LastBoundOfPrefix(es, k, i, n); }
    assert forall j :: 0 <= j < n ==> es[..n][j] == es[j];
  }

  lemma {:induction false} LastContinues(es: seq<Event>, run: string)
    requires es != [] && Project(es[..|es| - 1], run).Ok?
    ensures Project(es, run).Ok? <==> Continues(es, |es| - 1, run)
  {
    var n := |es| - 1;
    if n > 0 {
      var k := ReplayMeaning(es[..n], run);
      LastBoundOfPrefix(es, k, n, n);
      assert forall j :: 0 <= j < n ==> es[..n][j] == es[j];
      forall j: nat | LastBound(es, j, n) ensures j == k { OneLastBound(es, j, k, n); }
    }
  }

  // ---------------------------------------------------------------- operations

  datatype Op =
    | Bind(runtime: string, external: string, newWorker: string, now: string)
    | Observe(now: string)
    | Unbind(now: string)

  /** The clock and the identifier generator yield non-empty texts, and `bind` rejects empty names. */
  predicate WellFormed(op: Op) {
    op.now != "" && (op.Bind? ==> op.runtime != "" && op.external != "" && op.newWorker != "")
  }

  /** What the operation returns and which event, if any, it appends; `Err` when it raises. */
  function Decide(es: seq<Event>, run: string, op: Op): Result<(Projection, Option<Event>)> {
    var r := Project(es, run);
    if r.Err? then Err
    else
      var p := r.value;
      match op
      case Bind(runtime, external, newWorker, now) =>
        if p.bound && p.runtime == Some(runtime) && p.external == Some(external) then Ok((p, None))
        else
          var worker := if p.worker.Some? then p.worker.value else newWorker;
          Ok((Projection(run, true, Some(worker), Some(runtime), Some(external), p.generation + 1, Some(now), Some(now)),
              Some(Event(|es| + 1, Bound, run, worker, runtime, external, p.generation + 1, now))))
      case Observe(now) =>
        if !p.bound || p.worker.None? || p.runtime.None? || p.external.None? then Err
        else Ok((p.(observedAt := Some(now)),
                 Some(Event(|es| + 1, Observed, run, p.worker.value, p.runtime.value, p.external.value, p.generation, now))))
      case Unbind(now) =>
        if !p.bound || p.worker.None? then Ok((p, None))
        else Ok((p.(bound := false, runtime := None, external := None, observedAt := Some(now)),
                 Some(Event(|es| + 1, Unbound, run, p.worker.value, "", "", p.generation, now))))
  }

  /** The operation changes the binding, or records an observation of it. */
  ghost predicate Writes(p: Projection, op: Op) {
    match op
    case Bind(runtime, external, _, _) => !(p.bound && p.runtime == Some(runtime) && p.external == Some(external))
    case Observe(_) => true
    case Unbind(_) => p.bound
  }

  /** The binding after an operation that succeeds. */
  ghost predicate Moves(p: Projection, q: Projection, op: Op) {
    match op
    case Bind(runtime, external, newWorker, now) =>
      && q.run == p.run && q.bound && q.runtime == Some(runtime) && q.external == Some(external)
      && (if !Writes(p, op) then q == p else
          && q.generation == p.generation + 1 && q.worker == Some(if p.worker == None then newWorker else p.worker.value)
          && q.boundAt == Some(now) && q.observedAt == Some(now))
    case Observe(now) => q == p.(observedAt := Some(now))
    case Unbind(now) => if p.bound then q == Projection(p.run, false, p.worker, None, None, p.generation, p.boundAt, Some(now)) else q == p
  }

  /** The event an operation writes says what the binding then is. */
  ghost predicate Tells(e: Event, q: Projection, op: Op) {
    && e.run == q.run && q.worker == Some(e.worker) && e.generation == q.generation && e.at == op.now
    && (if op.Unbind? then e.runtime == "" && e.external == "" else q.runtime == Some(e.runtime) && q.external == Some(e.external))
    && e.action == match op case Bind(_, _, _, _) => Bound case Observe(_) => Observed case Unbind(_) => Unbound
  }

  /** The journal after the operation; a full journal refuses another event. */
  function After(es: seq<Event>, run: string, op: Op): seq<Event> {
    var d := Decide(es, run, op);
    if d.Err? || d.value.1.None? || |es| + 1 > MAX_EVENTS then es else es + [d.value.1.value]
  }

  function BoundCount(es: seq<Event>): nat {
    if es == [] then 0 else BoundCount(es[..|es| - 1]) + if es[|es| - 1].action.Bound? then 1 else 0
  }

  /** What holds of every journal the operations can build. */
  ghost predicate Sound(es: seq<Event>, run: string) {
    && |es| <= MAX_EVENTS
    && (forall i :: 0 <= i < |es| ==> ValidEvent(es[i], i + 1) && es[i].run == run && es[i].worker == es[0].worker)
    && (forall n :: 0 <= n <= |es| ==> SoundAt(es[..n], run))
  }

  /** What replaying one prefix yields. */
  ghost predicate SoundAt(es: seq<Event>, run: string) {
    && Project(es, run).Ok?
    && var p := Project(es, run).value;
       && p.run == run
       && p.generation == BoundCount(es)
       && (p.generation == 0 <==> es == [])
       && p.worker == (if es == [] then None else Some(es[0].worker))
       && (p.bound ==> es != [] && p.runtime.Some? && p.external.Some? && p.runtime.value != "" && p.external.value != "")
  }

  lemma {:induction false} FoldOneMore(es: seq<Event>, e: Event, run: string)
    requires Fold(es, run).Ok?
    ensures var next := Step(Fold(es, run).value, e, run);
      Project(es + [e], run) == next && BoundCount(es + [e]) == BoundCount(es) + if e.action.Bound? then 1 else 0
  {
    assert (es + [e])[..|es|] == es;
  }

  /** The value an operation returns is the replay of the journal it leaves behind. */
  lemma OperationReturnsReplay(es: seq<Event>, run: string, op: Op)
    requires Sound(es, run) && run != "" && WellFormed(op)
    ensures Decide(es, run, op).Ok? && (Decide(es, run, op).value.1.Some? ==> |es| < MAX_EVENTS) ==>
      Project(After(es, run, op), run) == Ok(Decide(es, run, op).value.0)
  {
    assert es[..|es|] == es && SoundAt(es[..|es|], run);
    var d := Decide(es, run, op);
    if d.Ok? && d.value.1.Some? { FoldOneMore(es, d.value.1.value, run); }
  }

  lemma OperationKeepsSound(es: seq<Event>, run: string, op: Op)
    requires Sound(es, run) && run != "" && WellFormed(op)
    ensures Sound(After(es, run, op), run)
  {
    var t := After(es, run, op);
    if t != es {
      assert es[..|es|] == es && SoundAt(es[..|es|], run);
      OperationReturnsReplay(es, run, op);
      var e := Decide(es, run, op).value.1.value;
      assert t == es + [e] && t[..|es|] == es;
      assert ValidEvent(e, |es| + 1) && e.run == run;
      assert e.worker == t[0].worker;
      assert SoundAt(t, run) by { FoldOneMore(es, e, run); }
      forall i | 0 <= i < |t| ensures ValidEvent(t[i], i + 1) && t[i].run == run && t[i].worker == t[0].worker {
        if i < |es| { assert t[i] == es[i]; }
      }
      forall n | 0 <= n <= |t| ensures SoundAt(t[..n], run) {
        if n <= |es| { assert t[..n] == es[..n]; } else { assert t[..n] == t; }
      }
    }
  }

  /**
   An operation is refused exactly for an observation while unbound or a write to a full journal; otherwise it moves
   the binding as asked, with one event exactly when it writes.
   */
  lemma {:induction false} OperationMeaning(es: seq<Event>, run: string, op: Op)
    requires Sound(es, run) && run != "" && WellFormed(op)
    ensures Project(es, run).Ok? && Project(After(es, run, op), run).Ok?
    ensures var p, t := Project(es, run).value, After(es, run, op);
      var ok := !(op.Observe? && !p.bound) && !(Writes(p, op) && |es| >= MAX_EVENTS);
      && (Decide(es, run, op).Ok? && !RefusedAsFull(es, run, op) <==> ok)
      && (ok ==> Moves(p, Project(t, run).value, op))
      && (if ok && Writes(p, op) then |t| == |es| + 1 && es <= t && Tells(t[|es|], Project(t, run).value, op) else t == es)
  {
    assert es[..|es|] == es && SoundAt(es[..|es|], run);
    OperationReturnsReplay(es, run, op);
  }

  function RunOps(run: string, ops: seq<Op>): seq<Event> {
    if ops == [] then [] else After(RunOps(run, ops[..|ops| - 1]), run, ops[|ops| - 1])
  }

  /**
   On every journal any sequence of bind, observe and unbind can build: replay never fails, the
   generation is the number of bound events, and the worker identifier never changes.
   */
  lemma {:induction false} ReachableJournalsAreSound(run: string, ops: seq<Op>)
    requires run != "" && forall i :: 0 <= i < |ops| ==> WellFormed(ops[i])
    ensures Sound(RunOps(run, ops), run)
  {
    if ops != [] {
      ReachableJournalsAreSound(run, ops[..|ops| - 1]);
      OperationKeepsSound(RunOps(run, ops[..|ops| - 1]), run, ops[|ops| - 1]);
    }
  }

  /** Repeating bind or unbind writes nothing and returns the same binding. */
  lemma RepeatsWriteNothing(es: seq<Event>, run: string, op: Op, again: Op)
    requires Sound(es, run) && run != "" && WellFormed(op) && WellFormed(again)
    requires (op.Unbind? && again.Unbind?) || (op.Bind? && again.Bind? && op.runtime == again.runtime && op.external == again.external)
    ensures Decide(es, run, op).Ok?
    ensures |es| < MAX_EVENTS || Decide(es, run, op).value.1.None? ==>
      var t := After(es, run, op);
      After(t, run, again) == t && Decide(t, run, again) == Ok((Decide(es, run, op).value.0, None))
  {
    assert es[..|es|] == es && SoundAt(es[..|es|], run);
    OperationReturnsReplay(es, run, op);
    var t := After(es, run, op);
    if |es| < MAX_EVENTS || Decide(es, run, op).value.1.None? {
      assert Project(t, run) == Ok(Decide(es, run, op).value.0);
      SettledWritesNothing(t, run, again);
    }
  }

  // ---------------------------------------------------------------- a full journal

  /** The operation would write, and the journal has no room for another event. */
  predicate RefusedAsFull(es: seq<Event>, run: string, op: Op) {
    Decide(es, run, op).Ok? && Decide(es, run, op).value.1.Some? && |es| >= MAX_EVENTS
  }

  function RunFrom(es: seq<Event>, run: string, ops: seq<Op>): seq<Event> {
    if ops == [] then es else After(RunFrom(es, run, ops[..|ops| - 1]), run, ops[|ops| - 1])
  }

  lemma {:induction false} RunsOn(run: string, before: seq<Op>, ops: seq<Op>)
    ensures RunOps(run, before + ops) == RunFrom(RunOps(run, before), run, ops)
  {
    if ops == [] {
      assert before + ops == before;
    } else {
      assert (before + ops)[..|before + ops| - 1] == before + ops[..|ops| - 1];
      RunsOn(run, before, ops[..|ops| - 1]);
    }
  }

  /** No sequence of operations changes a full journal, so the binding stays what it is. */
  lemma {:induction false} FullJournalIsFrozen(es: seq<Event>, run: string, ops: seq<Op>)
    requires |es| >= MAX_EVENTS
    ensures RunFrom(es, run, ops) == es
  {
    if ops != [] { FullJournalIsFrozen(es, run, ops[..|ops| - 1]); }
  }

  /** A worker is unbound after `unbind` exactly when it was unbound already or the journal has room. */
  lemma UnbindTakesEffectExactly(es: seq<Event>, run: string, now: string)
    requires Sound(es, run) && run != "" && now != ""
    ensures var t := After(es, run, Unbind(now));
      Project(es, run).Ok? && Project(t, run).Ok? &&
      (!Project(t, run).value.bound <==> !Project(es, run).value.bound || |es| < MAX_EVENTS)
  {
    assert es[..|es|] == es && SoundAt(es[..|es|], run);
    OperationReturnsReplay(es, run, Unbind(now));
  }

  /** A bind followed by `n` observations. */
  function BindThenObserve(bind: Op, now: string, n: nat): seq<Op> { [bind] + seq(n, _ => Observe(now)) }

  lemma {:induction false} ObservationsFill(run: string, bind: Op, now: string, n: nat)
    requires run != "" && now != "" && bind.Bind? && WellFormed(bind) && n < MAX_EVENTS
    ensures var es := RunOps(run, BindThenObserve(bind, now, n));
      Sound(es, run) && |es| == n + 1 && Project(es, run).Ok? && Project(es, run).value.bound
  {
    ReachableJournalsAreSound(run, BindThenObserve(bind, now, n));
    if n == 0 {
      BindingBinds(run, bind, now);
    } else {
      ObservationsFill(run, bind, now, n - 1);
      OneMoreObservation(run, bind, now, n);
      ObservingKeepsBound(RunOps(run, BindThenObserve(bind, now, n - 1)), run, now);
    }
  }

  lemma {:induction false} BindingBinds(run: string, bind: Op, now: string)
    requires run != "" && bind.Bind? && WellFormed(bind)
    ensures var es := RunOps(run, BindThenObserve(bind, now, 0)); |es| == 1 && Project(es, run).Ok? && Project(es, run).value.bound
  {
    var ops := BindThenObserve(bind, now, 0);
    assert ops[..0] == [] && RunOps(run, ops) == After([], run, bind);
    ReachableJournalsAreSound(run, []);
    OperationReturnsReplay([], run, bind);
  }

  lemma {:induction false} OneMoreObservation(run: string, bind: Op, now: string, n: nat)
    requires n > 0
    ensures RunOps(run, BindThenObserve(bind, now, n)) == After(RunOps(run, BindThenObserve(bind, now, n - 1)), run, Observe(now))
  {
    var ops := BindThenObserve(bind, now, n);
    assert ops[..n] == BindThenObserve(bind, now, n - 1) && ops[n] == Observe(now);
  }

  /** Observing a bound worker adds an event and leaves it bound. */
  lemma ObservingKeepsBound(es: seq<Event>, run: string, now: string)
    requires Sound(es, run) && run != "" && now != "" && |es| < MAX_EVENTS && Project(es, run).Ok? && Project(es, run).value.bound
    ensures var t := After(es, run, Observe(now)); |t| == |es| + 1 && Project(t, run).Ok? && Project(t, run).value.bound
  {
    assert es[..|es|] == es && SoundAt(es[..|es|], run);
    OperationReturnsReplay(es, run, Observe(now));
  }

  /** A worker that was bound once and observed 4095 times can never be unbound, bound elsewhere or observed again. */
  lemma FilledBindingStaysBound(run: string, bind: Op, now: string, ops: seq<Op>)
    requires run != "" && now != "" && bind.Bind? && WellFormed(bind)
    ensures var es := RunOps(run, BindThenObserve(bind, now, MAX_EVENTS - 1));
      |es| == MAX_EVENTS && RunFrom(es, run, ops) == es && RunOps(run, BindThenObserve(bind, now, MAX_EVENTS - 1) + ops) == es && Project(es, run).Ok? && Project(es, run).value.bound
  {
    ObservationsFill(run, bind, now, MAX_EVENTS - 1);
    FullJournalIsFrozen(RunOps(run, BindThenObserve(bind, now, MAX_EVENTS - 1)), run, ops);
    RunsOn(run, BindThenObserve(bind, now, MAX_EVENTS - 1), ops);
  }

  /** On a journal already in the state an operation asks for, the operation writes nothing. */
  lemma SettledWritesNothing(t: seq<Event>, run: string, op: Op)
    requires Project(t, run).Ok? && !op.Observe?
    requires var p := Project(t, run).value;
      if op.Bind? then p.bound && p.runtime == Some(op.runtime) && p.external == Some(op.external) else !p.bound
    ensures Decide(t, run, op) == Ok((Project(t, run).value, None)) && After(t, run, op) == t
  {}

  /** The binding journal of one run. */
  class BindingJournal {
    const run: string
    var events: seq<Event>

    constructor (r: string)
      requires r != ""
      ensures run == r && events == [] && Sound(events, run)
    {
      run := r;
      events := [];
      new;
      assert events[..0] == [];
    }

    /** `bind`, `observe` and `unbind` under the journal lock. */
    method Operate(op: Op) returns (r: Result<Projection>)
      requires run != "" && Sound(events, run)
      modifies this
      ensures Sound(events, run) && old(events) <= events && |events| <= |old(events)| + 1
      ensures r.Ok? ==> r == Project(events, run) && events == After(old(events), run, op)
      // Refusals, the binding afterwards and the event written, in terms of what the journal replays to.
      ensures Project(old(events), run).Ok? && Project(events, run).Ok?
      ensures var p := Project(old(events), run).value;
        r.Err? <==> !WellFormed(op) || (op.Observe? && !p.bound) || (Writes(p, op) && |old(events)| >= MAX_EVENTS)
      ensures r.Ok? ==>
        var p, q := Project(old(events), run).value, Project(events, run).value;
        && Moves(p, q, op)
        && (if Writes(p, op) then |events| == |old(events)| + 1 && Tells(events[|old(events)|], q, op) else events == old(events))
      ensures r.Err? ==> events == old(events)
      ensures r.Err? <==> !WellFormed(op) || Decide(old(events), run, op).Err? || RefusedAsFull(old(events), run, op)
    {
      assert events[..|events|] == events && SoundAt(events[..|events|], run);
      if !WellFormed(op) { return Err; }
      OperationMeaning(events, run, op);
      OperationKeepsSound(events, run, op);
      OperationReturnsReplay(events, run, op);
      var d := Decide(events, run, op);
      if d.Err? { return Err; }
      if d.value.1.Some? {
        if |events| + 1 > MAX_EVENTS { return Err; }
        events := events + [d.value.1.value];
      }
      r := Ok(d.value.0);
    }
  }
}
