/**
 Delivery reports interleaved with binding operations. Bind, unbind and report_delivery hold the
 gate lock; observe does not; recording an exit checks the generation without the gate.
 */
module BindingGate {
  import opened Wrappers
  import opened ExternalBinding

  type Pid = int

  datatype Phase = Inside | Authorized(generation: int) | ExitChecked(generation: int, checkedAt: nat)

  /** `at` is the length of the binding journal at the instant the record was made. */
  datatype Delivery = Delivery(generation: int, at: nat)
  datatype Exit = Exit(generation: int, checkedAt: nat, at: nat)

  datatype State = State(
    run: string, events: seq<Event>, gate: Option<Pid>, phases: map<Pid, Phase>,
    deliveries: seq<Delivery>, exits: seq<Exit>)

  datatype Act =
    | Enter(p: Pid)                        // take the gate
    | Change(p: Pid, op: Op)               // bind or unbind, holding the gate
    | Watch(op: Op)                        // observe, no gate
    | Authorize(p: Pid, generation: int)   // report_delivery: generation check, holding the gate
    | Record(p: Pid)                       // report_delivery: the delivery is recorded
    | Leave(p: Pid)                        // release the gate, or die holding it
    | CheckExit(p: Pid, generation: int)   // external_exit: generation check, no gate
    | RecordExit(p: Pid)                   // external_exit: the exit is recorded

  function Start(run: string): State { State(run, [], None, map[], [], []) }

  /** `_require_generation` passes: the journal is bound and at this generation. */
  predicate Current(es: seq<Event>, run: string, g: int) {
    Project(es, run).Ok? && Project(es, run).value.bound && Project(es, run).value.generation == g && g >= 1
  }

  predicate In(s: State, p: Pid) { p in s.phases }

  predicate Enabled(s: State, a: Act) {
    match a
    case Enter(p) => !In(s, p) && s.gate.None?
    case Change(p, op) => In(s, p) && s.phases[p].Inside? && !op.Observe? && WellFormed(op)
    case Watch(op) => op.Observe? && WellFormed(op)
    case Authorize(p, g) => In(s, p) && s.phases[p].Inside? && Current(s.events, s.run, g)
    case Record(p) => In(s, p) && s.phases[p].Authorized?
    case Leave(p) => In(s, p)
    case CheckExit(p, g) => !In(s, p) && Current(s.events, s.run, g)
    case RecordExit(p) => In(s, p) && s.phases[p].ExitChecked?
  }

  function Apply(s: State, a: Act): State
    requires Enabled(s, a)
  {
    match a
    case Enter(p) => s.(gate := Some(p), phases := s.phases[p := Inside])
    case Change(p, op) => s.(events := After(s.events, s.run, op))
    case Watch(op) => s.(events := After(s.events, s.run, op))
    case Authorize(p, g) => s.(phases := s.phases[p := Authorized(g)])
    case Record(p) => s.(deliveries := s.deliveries + [Delivery(s.phases[p].generation, |s.events|)])
    case Leave(p) => s.(gate := if s.gate == Some(p) then None else s.gate, phases := s.phases - {p})
    case CheckExit(p, g) => s.(phases := s.phases[p := ExitChecked(g, |s.events|)])
    case RecordExit(p) =>
      s.(exits := s.exits + [Exit(s.phases[p].generation, s.phases[p].checkedAt, |s.events|)], phases := s.phases - {p})
  }

  // ---------------------------------------------------------------- generations

  /** Some event from `n` on binds or unbinds. */
  predicate Rebound(es: seq<Event>, n: nat) {
    exists i :: n <= i < |es| && !es[i].action.Observed?
  }

  lemma BoundCountStep(es: seq<Event>, n: nat)
    requires n < |es|
    ensures BoundCount(es[..n + 1]) == BoundCount(es[..n]) + if es[n].action.Bound? then 1 else 0
  {
    assert es[..n + 1][..n] == es[..n];
  }

  /** Replaying one more event of a sound journal. */
  lemma CurrentStep(es: seq<Event>, run: string, n: nat)
    requires Sound(es, run) && n < |es|
    ensures es[n].action.Observed? ==> Project(es[..n + 1], run).value.bound == Project(es[..n], run).value.bound
    ensures es[n].action.Unbound? ==> !Project(es[..n + 1], run).value.bound
    ensures Project(es[..n + 1], run).value.generation ==
      Project(es[..n], run).value.generation + if es[n].action.Bound? then 1 else 0
  {
    assert SoundAt(es[..n], run) && SoundAt(es[..n + 1], run);
    assert es[..n + 1][..n] == es[..n];
    BoundCountStep(es, n);
  }

  lemma {:induction false} GenerationGrows(es: seq<Event>, run: string, n: nat)
    requires Sound(es, run) && n <= |es|
    ensures Project(es[..n], run).Ok? && Project(es, run).Ok?
    ensures Project(es[..n], run).value.generation <= Project(es, run).value.generation
    decreases |es| - n
  {
    assert SoundAt(es[..n], run) && SoundAt(es[..|es|], run) && es[..|es|] == es;
    if n < |es| {
      CurrentStep(es, run, n);
      GenerationGrows(es, run, n + 1);
    }
  }

  /**
   A generation that was current at `n` is still current at the end exactly when nothing has
   bound or unbound since: a lost generation never comes back.
   */
  lemma {:induction false} GenerationLostForever(es: seq<Event>, run: string, n: nat, g: int)
    requires Sound(es, run) && n <= |es| && Current(es[..n], run, g)
    ensures Current(es, run, g) <==> !Rebound(es, n)
    decreases |es| - n
  {
    assert SoundAt(es[..n], run) && es[..|es|] == es && SoundAt(es[..|es|], run);
    if n < |es| {
      CurrentStep(es, run, n);
      assert SoundAt(es[..n + 1], run);
      if es[n].action.Observed? {
        GenerationLostForever(es, run, n + 1, g);
      } else {
        if es[n].action.Bound? { GenerationGrows(es, run, n + 1); } else { UnboundStaysLost(es, run, n + 1, g); }
      }
    }
  }

  lemma {:induction false} UnboundStaysLost(es: seq<Event>, run: string, n: nat, g: int)
    requires Sound(es, run) && n <= |es| && Project(es[..n], run).Ok?
    requires !Project(es[..n], run).value.bound && Project(es[..n], run).value.generation == g
    ensures !Current(es, run, g)
    decreases |es| - n
  {
    assert es[..|es|] == es;
    if n < |es| {
      CurrentStep(es, run, n);
      assert SoundAt(es[..n + 1], run);
      if es[n].action.Bound? { GenerationGrows(es, run, n + 1); } else { UnboundStaysLost(es, run, n + 1, g); }
    }
  }

  // ---------------------------------------------------------------- the invariant

  /** The delivery was recorded at an instant when its generation was the bound one. */
  ghost predicate DeliveredWhenCurrent(es: seq<Event>, run: string, d: Delivery) {
    d.at <= |es| && Current(es[..d.at], run, d.generation)
  }

  /** The exit's generation was current when recorded exactly if nothing rebound since it was checked. */
  ghost predicate ExitRecorded(es: seq<Event>, run: string, x: Exit) {
    && x.checkedAt <= x.at <= |es|
    && Current(es[..x.checkedAt], run, x.generation)
    && (Current(es[..x.at], run, x.generation) <==> !Rebound(es[..x.at], x.checkedAt))
  }

  ghost predicate HistoryInv(s: State) {
    && (forall i :: 0 <= i < |s.deliveries| ==> DeliveredWhenCurrent(s.events, s.run, s.deliveries[i]))
    && (forall i :: 0 <= i < |s.exits| ==> ExitRecorded(s.events, s.run, s.exits[i]))
  }

  ghost predicate Justified(s: State, p: Pid)
    requires In(s, p)
  {
    match s.phases[p]
    case Inside => s.gate == Some(p)
    case Authorized(g) => s.gate == Some(p) && Current(s.events, s.run, g)
    case ExitChecked(g, n) => n <= |s.events| && Current(s.events[..n], s.run, g)
  }

  ghost predicate Inv(s: State) {
    && s.run != "" && Sound(s.events, s.run)
    && (forall p :: In(s, p) ==> Justified(s, p))
    && HistoryInv(s)
  }

  lemma AfterExtends(es: seq<Event>, run: string, op: Op)
    ensures es <= After(es, run, op)
    ensures op.Observe? && After(es, run, op) != es ==>
      |After(es, run, op)| == |es| + 1 && After(es, run, op)[|es|].action.Observed?
  {
  }

  lemma GrowthKeepsHistory(s: State, es: seq<Event>)
    requires HistoryInv(s) && s.events <= es
    ensures HistoryInv(s.(events := es))
  {
    var t := s.(events := es);
    assert forall n :: 0 <= n <= |s.events| ==> es[..n] == s.events[..n];
    forall i | 0 <= i < |s.deliveries| ensures DeliveredWhenCurrent(es, s.run, t.deliveries[i]) {
      assert DeliveredWhenCurrent(s.events, s.run, s.deliveries[i]);
    }
    forall i | 0 <= i < |s.exits| ensures ExitRecorded(es, s.run, t.exits[i]) {
      assert ExitRecorded(s.events, s.run, s.exits[i]);
    }
  }

  /** Observing cannot take the generation away from an authorized report. */
  lemma ObservingKeepsCurrent(es: seq<Event>, run: string, op: Op, g: int)
    requires Sound(es, run) && run != "" && WellFormed(op) && op.Observe? && Current(es, run, g)
    ensures Current(After(es, run, op), run, g)
  {
    var t := After(es, run, op);
    OperationKeepsSound(es, run, op);
    AfterExtends(es, run, op);
    assert t[..|es|] == es;
    GenerationLostForever(t, run, |es|, g);
  }

  lemma JournalStepKeepsInv(s: State, op: Op)
    requires Inv(s) && WellFormed(op)
    requires op.Observe? || forall p :: In(s, p) ==> !s.phases[p].Authorized?
    ensures Inv(s.(events := After(s.events, s.run, op)))
  {
    var t := s.(events := After(s.events, s.run, op));
    OperationKeepsSound(s.events, s.run, op);
    AfterExtends(s.events, s.run, op);
    GrowthKeepsHistory(s, t.events);
    forall p | In(t, p) ensures Justified(t, p) {
      assert Justified(s, p);
      match s.phases[p]
      case Inside =>
      case Authorized(g) => ObservingKeepsCurrent(s.events, s.run, op, g);
      case ExitChecked(g, n) => assert t.events[..n] == s.events[..n];
    }
  }

  lemma RecordKeepsInv(s: State, p: Pid)
    requires Inv(s) && In(s, p) && (s.phases[p].Authorized? || s.phases[p].ExitChecked?)
    ensures Inv(Apply(s, if s.phases[p].Authorized? then Record(p) else RecordExit(p)))
  {
    assert s.events[..|s.events|] == s.events;
    assert Justified(s, p);
    if s.phases[p].ExitChecked? {
      GenerationLostForever(s.events, s.run, s.phases[p].checkedAt, s.phases[p].generation);
      assert ExitRecorded(s.events, s.run, Exit(s.phases[p].generation, s.phases[p].checkedAt, |s.events|));
    } else {
      assert DeliveredWhenCurrent(s.events, s.run, Delivery(s.phases[p].generation, |s.events|));
    }
    var t := Apply(s, if s.phases[p].Authorized? then Record(p) else RecordExit(p));
    forall q | In(t, q) ensures Justified(t, q) { assert Justified(s, q); }
  }

  lemma StepKeepsInv(s: State, a: Act)
    requires Inv(s) && Enabled(s, a)
    ensures Inv(Apply(s, a))
  {
    var t := Apply(s, a);
    match a
    case Change(p, op) =>
      assert Justified(s, p);
      forall q | In(s, q) ensures !s.phases[q].Authorized? { assert Justified(s, q); }
      JournalStepKeepsInv(s, op);
    case Watch(op) => JournalStepKeepsInv(s, op);
    case Record(p) => RecordKeepsInv(s, p);
    case RecordExit(p) => RecordKeepsInv(s, p);
    case _ =>
      assert s.events[..|s.events|] == s.events;
      forall q | In(t, q) ensures Justified(t, q) {
        if In(s, q) { assert Justified(s, q); }
      }
  }

  predicate Executes(s: State, acts: seq<Act>)
    decreases |acts|
  {
    acts == [] || (Enabled(s, acts[0]) && Executes(Apply(s, acts[0]), acts[1..]))
  }

  function Final(s: State, acts: seq<Act>): State
    requires Executes(s, acts)
    decreases |acts|
  {
    if acts == [] then s else Final(Apply(s, acts[0]), acts[1..])
  }

  lemma {:induction false} RunKeepsInv(s: State, acts: seq<Act>)
    requires Inv(s) && Executes(s, acts)
    ensures Inv(Final(s, acts))
    decreases |acts|
  {
    if acts != [] {
      StepKeepsInv(s, acts[0]);
      RunKeepsInv(Apply(s, acts[0]), acts[1..]);
    }
  }

  /**
   In every interleaving of bind, unbind, observe, report_delivery and external_exit, each delivery
   is recorded at an instant when its generation is the bound one; an exit is, exactly when nothing
   was bound or unbound between its check and its record.
   */
  lemma {:induction false} DeliveriesAreCurrent(run: string, acts: seq<Act>)
    requires run != "" && Executes(Start(run), acts)
    ensures var s := Final(Start(run), acts);
      && (forall i :: 0 <= i < |s.deliveries| ==> DeliveredWhenCurrent(s.events, s.run, s.deliveries[i]))
      && (forall i :: 0 <= i < |s.exits| ==> ExitRecorded(s.events, s.run, s.exits[i]))
  {
    var s := Start(run);
    assert s.events[..0] == [];
    assert Sound(s.events, run);
    RunKeepsInv(s, acts);
  }

  /**
   A process that finds the gate free can deliver for a generation exactly when the journal is bound at it, whatever
   is observed meanwhile, and then leaves nothing behind but the delivery.
   */
  lemma {:induction false} DeliveryGoesThrough(s: State, p: Pid, g: int, now: string)
    requires Inv(s) && s.gate.None? && p !in s.phases && now != ""
    ensures var acts := [Enter(p), Authorize(p, g), Watch(Observe(now)), Record(p), Leave(p)];
      var bound := Project(s.events, s.run).Ok? && Project(s.events, s.run).value.bound && Project(s.events, s.run).value.generation == g;
      var es := After(s.events, s.run, Observe(now));
      && (Executes(s, acts) <==> bound)
      && (bound ==> Final(s, acts) == s.(events := es, deliveries := s.deliveries + [Delivery(g, |es|)]))
  {
    var acts := [Enter(p), Authorize(p, g), Watch(Observe(now)), Record(p), Leave(p)];
    assert s.events[..|s.events|] == s.events && SoundAt(s.events[..|s.events|], s.run);
    hide Project, Sound, SoundAt, Justified, HistoryInv, ExternalBinding.After;
    var s1 := Apply(s, Enter(p));
    assert acts[1..] == [Authorize(p, g), Watch(Observe(now)), Record(p), Leave(p)] && s1.phases[p] == Inside;
    if Current(s.events, s.run, g) {
      AuthorizedDelivers(s1, p, g, now);
      Prepend(s, Enter(p), s1, acts[1..], Final(s1, acts[1..]));
      assert acts == [Enter(p)] + acts[1..];
    }
  }

  lemma {:induction false} AuthorizedDelivers(s: State, p: Pid, g: int, now: string)
    requires In(s, p) && s.phases[p] == Inside && s.gate == Some(p) && now != "" && Current(s.events, s.run, g)
    ensures var acts, es := [Authorize(p, g), Watch(Observe(now)), Record(p), Leave(p)], After(s.events, s.run, Observe(now));
      Leads(s, acts, s.(events := es, gate := None, phases := s.phases - {p}, deliveries := s.deliveries + [Delivery(g, |es|)]))
  {
    hide Current, ExternalBinding.After;
    var s2 := Apply(s, Authorize(p, g));
    var s3 := Apply(s2, Watch(Observe(now)));
    var s4 := Apply(s3, Record(p));
    var t := Apply(s4, Leave(p));
    assert t.phases == s.phases - {p};
    assert Leads(t, [], t);
    Prepend(s4, Leave(p), t, [], t);
    Prepend(s3, Record(p), s4, [Leave(p)], t);
    Prepend(s2, Watch(Observe(now)), s3, [Record(p), Leave(p)], t);
    Prepend(s, Authorize(p, g), s2, [Watch(Observe(now)), Record(p), Leave(p)], t);
  }

  function OneBinding(run: string): seq<Event> { [Event(1, Bound, run, "w", "rt", "x", 1, "t1")] }

  lemma BindingThenUnbinding(run: string)
    ensures After([], run, Bind("rt", "x", "w", "t1")) == OneBinding(run)
    ensures Current(OneBinding(run), run, 1)
    ensures var after := After(OneBinding(run), run, Unbind("t2")); |after| == 2 && !Current(after, run, 1)
  {
    var es := OneBinding(run);
    assert es[..0] == [] && Fold([], run) == Ok(None);
    var after := After(es, run, Unbind("t2"));
    assert after[..1] == es;
  }

  /** `acts` leads from `s` to `t`. */
  ghost predicate Leads(s: State, acts: seq<Act>, t: State) { Executes(s, acts) && Final(s, acts) == t }

  lemma Prepend(s: State, a: Act, next: State, acts: seq<Act>, t: State)
    requires Enabled(s, a) && Apply(s, a) == next && Leads(next, acts, t)
    ensures Leads(s, [a] + acts, t)
  {
    assert ([a] + acts)[1..] == acts;
  }

  /** A checked exit, an unbinding, and only then the record. */
  lemma UnboundBeforeRecord(run: string) returns (acts: seq<Act>, t: State)
    requires run != ""
    ensures Leads(State(run, OneBinding(run), None, map[], [], []), acts, t)
    ensures t.exits == [Exit(1, 1, |t.events|)] && !Current(t.events, run, 1)
  {
    BindingThenUnbinding(run);
    var s3 := State(run, OneBinding(run), None, map[], [], []);
    var s4 := s3.(phases := map[2 := ExitChecked(1, 1)]);
    var s5 := s4.(gate := Some(3), phases := map[2 := ExitChecked(1, 1), 3 := Inside]);
    var s6 := s5.(events := After(s5.events, run, Unbind("t2")));
    t := s6.(phases := map[3 := Inside], exits := [Exit(1, 1, 2)]);
    assert Leads(t, [], t);
    Prepend(s6, RecordExit(2), t, [], t);
    Prepend(s5, Change(3, Unbind("t2")), s6, [RecordExit(2)] + [], t);
    acts := [Change(3, Unbind("t2"))] + ([RecordExit(2)] + []);
    Prepend(s4, Enter(3), s5, acts, t);
    acts := [Enter(3)] + acts;
    Prepend(s3, CheckExit(2, 1), s4, acts, t);
    acts := [CheckExit(2, 1)] + acts;
  }

  /** The exception happens: an exit can be recorded for a generation that was unbound after its check. */
  lemma StaleExitExample(run: string) returns (acts: seq<Act>)
    requires run != ""
    ensures Executes(Start(run), acts)
    ensures var s := Final(Start(run), acts);
      s.exits == [Exit(1, 1, |s.events|)] && !Current(s.events, run, 1)
  {
    BindingThenUnbinding(run);
    var bind := Bind("rt", "x", "w", "t1");
    var s1 := State(run, [], Some(1), map[1 := Inside], [], []);
    var s2 := s1.(events := OneBinding(run));
    var t;
    acts, t := UnboundBeforeRecord(run);
    var s3 := State(run, OneBinding(run), None, map[], [], []);
    Prepend(s2, Leave(1), s3, acts, t);
    acts := [Leave(1)] + acts;
    Prepend(s1, Change(1, bind), s2, acts, t);
    acts := [Change(1, bind)] + acts;
    Prepend(Start(run), Enter(1), s1, acts, t);
    acts := [Enter(1)] + acts;
  }
}
