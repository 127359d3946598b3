/**
 The host-side projection of external workers: write-ahead retirement of opaque host handles by
 one reconciler that may crash between any two of its steps.
 */
module HostProjection {
  import opened Wrappers

  const MAX_EVENTS := 4096

  type Handle = string

  datatype Key = Key(run: string, worker: string, generation: int)

  datatype Action = Opened | Intent(status: string) | Retirement

  datatype Event = Event(action: Action, key: Key, handle: Handle, at: string)

  datatype Stage = Open | Pending | Retired

  datatype Record = Record(key: Key, handle: Handle, stage: Stage, updatedAt: string, status: Option<string>)

  /** What the binding and status readers return; `None` stands for a reader that raised. */
  datatype BindingView = BindingView(bound: bool, run: string, worker: string, generation: int)
  datatype StatusView = StatusView(status: Option<string>, stale: bool)

  predicate Terminal(status: string) {
    status == "completed" || status == "failed" || status == "interrupted" || status == "terminated" || status == "retired"
  }

  function StageOf(a: Action): Stage {
    match a case Opened => Open case Intent(_) => Pending case Retirement => Retired
  }

  /** One turn of the projection loop. */
  function Step(records: map<Key, Record>, e: Event): Result<map<Key, Record>> {
    if e.key in records && records[e.key].handle != e.handle then Err
    else
      var prior := if e.key in records then records[e.key] else Record(e.key, e.handle, Open, e.at, None);
      var status := if e.action.Intent? then Some(e.action.status) else prior.status;
      Ok(records[e.key := prior.(stage := StageOf(e.action), updatedAt := e.at, status := status)])
  }

  function Project(es: seq<Event>): Result<map<Key, Record>> {
    if es == [] then Ok(map[])
    else
      var before := Project(es[..|es| - 1]);
      if before.Err? then Err else Step(before.value, es[|es| - 1])
  }

  method Replay(es: seq<Event>) returns (r: Result<map<Key, Record>>)
    ensures r == Project(es)
  {
    var records: map<Key, Record> := map[];
    for i := 0 to |es|
      invariant Project(es[..i]) == Ok(records)
    {
      assert es[..i + 1][..i] == es[..i];
      var next := Step(records, es[i]);
      if next.Err? {
        ReplayFailsEarly(es, i + 1);
        return Err;
      }
      records := next.value;
    }
    assert es[..|es|] == es;
    r := Ok(records);
  }

  lemma {:induction false} ReplayFailsEarly(es: seq<Event>, i: nat)
    requires i <= |es| && Project(es[..i]).Err?
    ensures Project(es).Err?
  {
    if i < |es| {
      assert es[..|es| - 1][..i] == es[..i];
      ReplayFailsEarly(es[..|es| - 1], i);
    } else {
      assert es[..i] == es;
    }
  }

  // ---------------------------------------------------------------- operations

  /** A call of the host's close function, with the journal length at that instant. */
  datatype Close = Close(key: Key, handle: Handle, at: nat, succeeded: bool)

  /** The durable journal and, beside it, every close call the host has seen. */
  datatype World = World(events: seq<Event>, closes: seq<Close>)

  /** Where the reconciler dies, if it does. */
  datatype CrashPoint = Never | BeforeIntent | BeforeClose | AfterClose

  datatype Call =
    | Register(run: string, bound: BindingView, handle: Handle, now: string)
    | Reconcile(run: string, binding: Option<BindingView>, view: Option<StatusView>, expected: Option<Handle>,
                closes: bool, crash: CrashPoint, now: string)

  function KeyOf(b: BindingView): Option<Key> {
    if b.bound && b.run != "" && b.worker != "" && b.generation >= 1 then Some(Key(b.run, b.worker, b.generation)) else None
  }

  function Append(es: seq<Event>, e: Event): Result<seq<Event>> {
    if Project(es).Err? || |es| + 1 > MAX_EVENTS then Err else Ok(es + [e])
  }

  function DoRegister(w: World, run: string, b: BindingView, handle: Handle, now: string): World {
    var key := KeyOf(b);
    if key.None? || key.value.run != run || handle == "" || Project(w.events).Err? then w
    else if key.value in Project(w.events).value then w
    else
      var r := Append(w.events, Event(Opened, key.value, handle, now));
      if r.Err? then w else w.(events := r.value)
  }

  /** The record a reconciliation acts on, when the public views allow it to act. */
  function Target(w: World, run: string, b: Option<BindingView>, v: Option<StatusView>): Option<Record> {
    if b.None? || v.None? || v.value.status.None? || v.value.stale then None
    else
      var key := KeyOf(b.value);
      if key.None? || key.value.run != run || Project(w.events).Err? || key.value !in Project(w.events).value then None
      else if !Terminal(v.value.status.value) then None
      else Some(Project(w.events).value[key.value])
  }

  function WriteIntent(w: World, r: Record, status: string, now: string): Result<World> {
    if r.stage == Pending then Ok(w)
    else
      var a := Append(w.events, Event(Intent(status), r.key, r.handle, now));
      if a.Err? then Err else Ok(w.(events := a.value))
  }

  function DoReconcile(w: World, run: string, b: Option<BindingView>, v: Option<StatusView>, expected: Option<Handle>,
                       closes: bool, crash: CrashPoint, now: string): World
  {
    var t := Target(w, run, b, v);
    if t.None? || t.value.stage == Retired || crash.BeforeIntent? then w
    else
      var i := WriteIntent(w, t.value, v.value.status.value, now);
      if i.Err? then w
      else if crash.BeforeClose? || (expected.Some? && expected.value != t.value.handle) then i.value
      else DoClose(i.value, t.value.key, t.value.handle, closes, crash, now)
  }

  /** Close the handle of a pending record and, once that has succeeded, record its retirement. */
  function DoClose(w: World, k: Key, handle: Handle, closes: bool, crash: CrashPoint, now: string): World {
    var c := w.(closes := w.closes + [Close(k, handle, |w.events|, closes)]);
    if !closes || crash.AfterClose? then c
    else
      var a := Append(c.events, Event(Retirement, k, handle, now));
      if a.Err? then c else c.(events := a.value)
  }

  function Do(w: World, c: Call): World {
    match c
    case Register(run, b, handle, now) => DoRegister(w, run, b, handle, now)
    case Reconcile(run, b, v, expected, closes, crash, now) => DoReconcile(w, run, b, v, expected, closes, crash, now)
  }

  // ---------------------------------------------------------------- the invariant

  /** The event is the next one allowed for its key: open, then pending, then retired, with one handle. */
  predicate Legal(records: map<Key, Record>, e: Event) {
    match e.action
    case Opened => e.key !in records && e.handle != ""
    case Intent(_) => e.key in records && records[e.key].stage == Open && records[e.key].handle == e.handle
    case Retirement => e.key in records && records[e.key].stage == Pending && records[e.key].handle == e.handle
  }

  ghost predicate Ordered(es: seq<Event>) {
    forall i :: 0 <= i < |es| ==> Project(es[..i]).Ok? && Legal(Project(es[..i]).value, es[i])
  }

  /** At the instant of the call the journal held the intent, and the handle is the registered one. */
  ghost predicate Justified(es: seq<Event>, c: Close) {
    && c.at <= |es| && Project(es[..c.at]).Ok?
    && c.key in Project(es[..c.at]).value
    && Project(es[..c.at]).value[c.key].stage == Pending
    && Project(es[..c.at]).value[c.key].handle == c.handle
  }

  /** Some close of exactly this key and handle succeeded before the journal grew past `i`. */
  ghost predicate ClosedBefore(closes: seq<Close>, e: Event, i: nat) {
    exists j :: 0 <= j < |closes| && closes[j].key == e.key && closes[j].handle == e.handle && closes[j].succeeded && closes[j].at <= i
  }

  ghost predicate Valid(w: World) {
    && Ordered(w.events)
    && (forall j :: 0 <= j < |w.closes| ==> Justified(w.events, w.closes[j]))
    && (forall i :: 0 <= i < |w.events| && w.events[i].action.Retirement? ==> ClosedBefore(w.closes, w.events[i], i))
  }

  /** An ordered journal always replays, and every record keeps its key. */
  lemma {:induction false} OrderedReplays(es: seq<Event>)
    requires Ordered(es)
    ensures Project(es).Ok? && forall k :: k in Project(es).value ==> Project(es).value[k].key == k
  {
    if es != [] {
      var n := |es| - 1;
      assert Ordered(es[..n]) by { assert forall i :: 0 <= i < n ==> es[..n][..i] == es[..i]; }
      OrderedReplays(es[..n]);
      assert Legal(Project(es[..n]).value, es[n]);
    }
  }

  lemma LegalEventKeepsValid(w: World, e: Event)
    requires Valid(w) && Project(w.events).Ok? && Legal(Project(w.events).value, e)
    requires e.action.Retirement? ==> ClosedBefore(w.closes, e, |w.events|)
    ensures Valid(w.(events := w.events + [e]))
  {
    var es := w.events + [e];
    assert forall n :: 0 <= n <= |w.events| ==> es[..n] == w.events[..n];
    assert w.events[..|w.events|] == w.events;
    forall j | 0 <= j < |w.closes| ensures Justified(es, w.closes[j]) { assert Justified(w.events, w.closes[j]); }
  }

  lemma JustifiedCloseKeepsValid(w: World, c: Close)
    requires Valid(w) && c.at == |w.events| && Justified(w.events, c)
    ensures Valid(w.(closes := w.closes + [c]))
  {
    var t := w.(closes := w.closes + [c]);
    forall i | 0 <= i < |t.events| && t.events[i].action.Retirement? ensures ClosedBefore(t.closes, t.events[i], i) {
      var j :| 0 <= j < |w.closes| && w.closes[j].key == w.events[i].key && w.closes[j].handle == w.events[i].handle
               && w.closes[j].succeeded && w.closes[j].at <= i;
      assert t.closes[j] == w.closes[j];
    }
  }

  lemma RegisterKeepsValid(w: World, run: string, b: BindingView, handle: Handle, now: string)
    requires Valid(w)
    ensures Valid(DoRegister(w, run, b, handle, now))
  {
    if DoRegister(w, run, b, handle, now) != w {
      LegalEventKeepsValid(w, Event(Opened, KeyOf(b).value, handle, now));
    }
  }

  /** After the write-ahead step the record is durably pending with its registered handle. */
  lemma IntentIsDurable(w: World, r: Record, status: string, now: string)
    requires Valid(w) && Project(w.events).Ok? && r.key in Project(w.events).value && Project(w.events).value[r.key] == r
    requires r.stage != Retired && WriteIntent(w, r, status, now).Ok?
    ensures var t := WriteIntent(w, r, status, now).value;
      && Valid(t) && t.closes == w.closes && w.events <= t.events
      && Project(t.events).Ok? && r.key in Project(t.events).value
      && Project(t.events).value[r.key].stage == Pending && Project(t.events).value[r.key].handle == r.handle
  {
    if r.stage != Pending {
      var e := Event(Intent(status), r.key, r.handle, now);
      LegalEventKeepsValid(w, e);
      assert (w.events + [e])[..|w.events|] == w.events;
    }
  }

  lemma ReconcileKeepsValid(w: World, run: string, b: Option<BindingView>, v: Option<StatusView>, expected: Option<Handle>,
                            closes: bool, crash: CrashPoint, now: string)
    requires Valid(w)
    ensures Valid(DoReconcile(w, run, b, v, expected, closes, crash, now))
  {
    hide Project, DoClose, WriteIntent, Append, Ordered, Justified, ClosedBefore;
    OrderedReplays(w.events);
    var t := Target(w, run, b, v);
    if t.Some? && t.value.stage != Retired && !crash.BeforeIntent? {
      var r := t.value;
      var i := WriteIntent(w, r, v.value.status.value, now);
      if i.Ok? {
        IntentIsDurable(w, r, v.value.status.value, now);
        CloseKeepsValid(i.value, r.key, r.handle, closes, crash, now);
      }
    }
  }

  /** Closing a pending record, and retiring it once the close has succeeded. */
  lemma CloseKeepsValid(w: World, k: Key, handle: Handle, closes: bool, crash: CrashPoint, now: string)
    requires Valid(w) && Project(w.events).Ok? && k in Project(w.events).value
    requires Project(w.events).value[k].stage == Pending && Project(w.events).value[k].handle == handle
    ensures Valid(DoClose(w, k, handle, closes, crash, now))
  {
    var c := Close(k, handle, |w.events|, closes);
    assert w.events[..|w.events|] == w.events;
    JustifiedCloseKeepsValid(w, c);
    var x := w.(closes := w.closes + [c]);
    if closes {
      var e := Event(Retirement, k, handle, now);
      assert ClosedBefore(x.closes, e, |x.events|) by { assert x.closes[|w.closes|] == c; }
      LegalEventKeepsValid(x, e);
    }
  }

  function DoAll(calls: seq<Call>): World {
    if calls == [] then World([], []) else Do(DoAll(calls[..|calls| - 1]), calls[|calls| - 1])
  }

  /**
   Over every history of registrations and reconciliations, crashes included: the host close is called
   only on the handle registered for that run, worker and generation and only after a durable intent,
   and a retirement is recorded only after a successful close of that handle.
   */
  lemma {:induction false} HistoriesAreValid(calls: seq<Call>)
    ensures Valid(DoAll(calls))
  {
    if calls != [] {
      HistoriesAreValid(calls[..|calls| - 1]);
      var w := DoAll(calls[..|calls| - 1]);
      match calls[|calls| - 1]
      case Register(run, b, handle, now) => RegisterKeepsValid(w, run, b, handle, now);
      case Reconcile(run, b, v, expected, closes, crash, now) =>
        ReconcileKeepsValid(w, run, b, v, expected, closes, crash, now);
    }
  }

  // ---------------------------------------------------------------- per-key progress

  function Rank(es: seq<Event>, k: Key): int {
    if Project(es).Err? || k !in Project(es).value then 0
    else match Project(es).value[k].stage case Open => 1 case Pending => 2 case Retired => 3
  }

  /** One event moves exactly its own key, and moves it exactly one stage forward. */
  lemma EventMovesOneStage(es: seq<Event>, n: nat, k: Key)
    requires Ordered(es) && n < |es|
    ensures Rank(es[..n + 1], k) == Rank(es[..n], k) + if es[n].key == k then 1 else 0
    ensures Project(es[..n]).Ok? && Project(es[..n + 1]).Ok?
    ensures k in Project(es[..n]).value ==>
      k in Project(es[..n + 1]).value && Project(es[..n + 1]).value[k].handle == Project(es[..n]).value[k].handle
    ensures k != es[n].key && k in Project(es[..n]).value ==> Project(es[..n + 1]).value[k] == Project(es[..n]).value[k]
  {
    assert es[..n + 1][..n] == es[..n];
    assert Legal(Project(es[..n]).value, es[n]);
  }

  /** Every key only moves open, pending, retired, keeps its handle, and is untouched by other generations. */
  lemma {:induction false} StagesOnlyAdvance(es: seq<Event>, m: nat, n: nat, k: Key)
    requires Ordered(es) && m <= n <= |es|
    ensures Rank(es[..m], k) <= Rank(es[..n], k)
    ensures (forall i :: m <= i < n ==> es[i].key != k) ==> Rank(es[..m], k) == Rank(es[..n], k)
    ensures Project(es[..m]).Ok? && k in Project(es[..m]).value && Project(es[..n]).Ok? ==>
      k in Project(es[..n]).value && Project(es[..n]).value[k].handle == Project(es[..m]).value[k].handle
    decreases n - m
  {
    if m < n {
      EventMovesOneStage(es, m, k);
      StagesOnlyAdvance(es, m + 1, n, k);
    }
  }

  /** Event `i` is the last one that names `k`. */
  ghost predicate LastOf(es: seq<Event>, i: nat, k: Key) {
    i < |es| && es[i].key == k && forall j :: i < j < |es| ==> es[j].key != k
  }

  /** Replay makes a record for exactly the workers some event names. */
  lemma {:induction false} RecordsAreNamed(es: seq<Event>, k: Key)
    requires Project(es).Ok?
    ensures k in Project(es).value <==> exists i: nat :: LastOf(es, i, k)
  {
    if es != [] {
      var n := |es| - 1;
      RecordsAreNamed(es[..n], k);
      if es[n].key == k {
        assert LastOf(es, n, k);
      } else {
        assert forall i: nat :: i < n ==> (LastOf(es[..n], i, k) <==> LastOf(es, i, k));
      }
    }
  }

  /** The record of a worker has the handle, the time and the stage of the last event that names it. */
  lemma {:induction false} RecordIsLastEvent(es: seq<Event>, i: nat, k: Key)
    requires Project(es).Ok? && LastOf(es, i, k)
    ensures k in Project(es).value
    ensures var r := Project(es).value[k];
      && r.handle == es[i].handle && r.updatedAt == es[i].at
      && (r.stage == Open <==> es[i].action.Opened?) && (r.stage == Retired <==> es[i].action.Retirement?)
      && (es[i].action.Intent? ==> r.status == Some(es[i].action.status))
  {
    var n := |es| - 1;
    if i < n {
      assert LastOf(es[..n], i, k);
      RecordIsLastEvent(es[..n], i, k);
    }
  }

  lemma ReconcileExtends(w: World, run: string, b: Option<BindingView>, v: Option<StatusView>, expected: Option<Handle>,
                         closes: bool, crash: CrashPoint, now: string)
    ensures var t := DoReconcile(w, run, b, v, expected, closes, crash, now);
      && w.events <= t.events
      && (t.closes == w.closes
          || (Target(w, run, b, v).Some? && Target(w, run, b, v).value.stage != Retired
              && |t.closes| == |w.closes| + 1 && t.closes[|w.closes|].key == Target(w, run, b, v).value.key))
  {
  }

  lemma CallKeepsValid(w: World, c: Call)
    requires Valid(w)
    ensures Valid(Do(w, c)) && w.events <= Do(w, c).events
  {
    match c
    case Register(run, b, handle, now) => RegisterKeepsValid(w, run, b, handle, now);
    case Reconcile(run, b, v, expected, closes, crash, now) =>
      ReconcileKeepsValid(w, run, b, v, expected, closes, crash, now);
      ReconcileExtends(w, run, b, v, expected, closes, crash, now);
  }

  /** A retired record stays retired through every later call, and no later call closes it again. */
  lemma RetiredIsFinal(w: World, c: Call, k: Key)
    requires Valid(w) && Rank(w.events, k) == 3
    ensures Rank(Do(w, c).events, k) == 3
    ensures |Do(w, c).closes| > |w.closes| ==> Do(w, c).closes[|w.closes|].key != k
  {
    var es := Do(w, c).events;
    CallKeepsValid(w, c);
    assert es[..|w.events|] == w.events && es[..|es|] == es;
    StagesOnlyAdvance(es, |w.events|, |es|, k);
    if c.Reconcile? {
      OrderedReplays(w.events);
      ReconcileExtends(w, c.run, c.binding, c.view, c.expected, c.closes, c.crash, c.now);
    }
  }

  lemma {:induction false} RetirementRetires(es: seq<Event>, e: Event)
    requires Project(es).Ok? && e.action.Retirement? && e.key in Project(es).value && Project(es).value[e.key].handle == e.handle
    ensures Rank(es + [e], e.key) == 3
  {
    assert (es + [e])[..|es|] == es;
  }

  /** The events a reconciliation still has to write before the record is retired. */
  function ToWrite(stage: Stage): nat { match stage case Open => 2 case Pending => 1 case Retired => 0 }

  /**
   A record is retried until it closes: when the views are terminal, the close works and the reconciler
   survives, one reconciliation retires it from whatever stage a crash left, exactly when the journal has
   room for what is still to be written.
   */
  lemma PendingIsRetired(w: World, run: string, b: Option<BindingView>, v: Option<StatusView>, now: string)
    requires Valid(w) && |w.events| <= MAX_EVENTS && Target(w, run, b, v).Some?
    ensures var r := Target(w, run, b, v).value;
      Rank(DoReconcile(w, run, b, v, None, true, Never, now).events, r.key) == 3 <==> |w.events| + ToWrite(r.stage) <= MAX_EVENTS
  {
    OrderedReplays(w.events);
    var r := Target(w, run, b, v).value;
    if r.stage != Retired {
      var i := WriteIntent(w, r, v.value.status.value, now);
      if i.Ok? {
        IntentIsDurable(w, r, v.value.status.value, now);
        IntentThenClose(w, run, b, v, now);
        CloseRetiresExactly(i.value, r.key, r.handle, now);
      }
    }
  }

  lemma IntentThenClose(w: World, run: string, b: Option<BindingView>, v: Option<StatusView>, now: string)
    requires Target(w, run, b, v).Some? && Target(w, run, b, v).value.stage != Retired
    requires WriteIntent(w, Target(w, run, b, v).value, v.value.status.value, now).Ok?
    ensures var r := Target(w, run, b, v).value;
      DoReconcile(w, run, b, v, None, true, Never, now) ==
      DoClose(WriteIntent(w, r, v.value.status.value, now).value, r.key, r.handle, true, Never, now)
  {
  }

  /** Closing a pending record retires it exactly when the journal has room for one more event. */
  lemma CloseRetiresExactly(w: World, k: Key, handle: Handle, now: string)
    requires Project(w.events).Ok? && k in Project(w.events).value
    requires Project(w.events).value[k].stage == Pending && Project(w.events).value[k].handle == handle
    ensures Rank(DoClose(w, k, handle, true, Never, now).events, k) == 3 <==> |w.events| + 1 <= MAX_EVENTS
  {
    if |w.events| + 1 <= MAX_EVENTS { RetirementRetires(w.events, Event(Retirement, k, handle, now)); }
  }

  // ---------------------------------------------------------------- what a reconciliation may do

  /**
   The public views say that worker `k` has ended: the binding is a live one of this run and names `k`, the status
   is fresh, and it is one of the five words that end an execution.
   */
  ghost predicate Ended(run: string, b: Option<BindingView>, v: Option<StatusView>, k: Key) {
    && b.Some? && b.value.bound && b.value.generation >= 1 && k == Key(b.value.run, b.value.worker, b.value.generation)
    && k.run == run && run != "" && k.worker != ""
    && v.Some? && !v.value.stale && v.value.status.Some?
    && v.value.status.value in {"completed", "failed", "interrupted", "terminated", "retired"}
  }

  /**
   Nothing changes unless a registered worker that is not retired has ended. For that worker an intent is written exactly when none is durable
   yet; the host is called exactly with the registered handle, after the intent, when no other handle was expected;
   and the retirement is written exactly after a call that succeeded. Each step needs a reconciler that has not died
   before it, and each event room in the journal.
   */
  ghost predicate Reconciled(w: World, t: World, run: string, b: Option<BindingView>, v: Option<StatusView>,
                             expected: Option<Handle>, closes: bool, crash: CrashPoint, now: string)
    requires Project(w.events).Ok?
  {
    var records := Project(w.events).value;
    && ((forall k :: k in records && records[k].stage != Retired ==> !Ended(run, b, v, k)) ==> t == w)
    && forall k :: k in records && records[k].stage != Retired && Ended(run, b, v, k) ==>
         var intends := records[k].stage == Open && crash != BeforeIntent && |w.events| < MAX_EVENTS;
         var durable := crash != BeforeIntent && (records[k].stage == Pending || |w.events| < MAX_EVENTS);
         var calls := durable && crash != BeforeClose && expected in {None, Some(records[k].handle)};
         var ahead := w.events + if intends then [Event(Intent(v.value.status.value), k, records[k].handle, now)] else [];
         var retires := calls && closes && crash != AfterClose && |ahead| < MAX_EVENTS;
         && t.events == ahead + (if retires then [Event(Retirement, k, records[k].handle, now)] else [])
         && t.closes == w.closes + (if calls then [Close(k, records[k].handle, |ahead|, closes)] else [])
  }

  /** A reconciliation changes exactly that. */
  lemma {:induction false} ReconcileMeaning(w: World, run: string, b: Option<BindingView>, v: Option<StatusView>,
                                            expected: Option<Handle>, closes: bool, crash: CrashPoint, now: string)
    requires Project(w.events).Ok? && forall k :: k in Project(w.events).value ==> Project(w.events).value[k].key == k
    ensures Reconciled(w, DoReconcile(w, run, b, v, expected, closes, crash, now), run, b, v, expected, closes, crash, now)
  {
    hide Project, Append, WriteIntent, DoClose;
    var records := Project(w.events).value;
    if b.Some? {
      var k := Key(b.value.run, b.value.worker, b.value.generation);
      EndedIsTarget(w, run, b, v, k);
      if k in records && records[k].stage != Retired && Ended(run, b, v, k) {
        EndedReconciles(w, run, b, v, expected, closes, crash, now, k);
        hide DoReconcile, Target;
      }
    }
  }

  lemma {:induction false} EndedReconciles(w: World, run: string, b: Option<BindingView>, v: Option<StatusView>,
                                           expected: Option<Handle>, closes: bool, crash: CrashPoint, now: string, k: Key)
    requires Project(w.events).Ok? && k in Project(w.events).value && Project(w.events).value[k].stage != Retired
    requires Project(w.events).value[k].key == k && Ended(run, b, v, k) && Target(w, run, b, v) == Some(Project(w.events).value[k])
    ensures Reconciled(w, DoReconcile(w, run, b, v, expected, closes, crash, now), run, b, v, expected, closes, crash, now)
  {
    hide Project, Append, WriteIntent, DoClose, Target;
    var r := Project(w.events).value[k];
    var i := WriteIntent(w, r, v.value.status.value, now);
    IntentMeaning(w, r, v.value.status.value, now);
    if i.Ok? { CloseMeaning(i.value, k, r.handle, closes, crash, now); }
  }

  /**
   An ended worker is retired after a reconciliation exactly when it was retired before, or the last event the
   reconciliation has written is the retirement.
   */
  lemma {:induction false} RetiredMeaning(w: World, t: World, run: string, b: Option<BindingView>, v: Option<StatusView>,
                                          expected: Option<Handle>, closes: bool, crash: CrashPoint, now: string, k: Key)
    requires Project(w.events).Ok? && Project(t.events).Ok? && b.Some? && k == Key(b.value.run, b.value.worker, b.value.generation)
    requires Reconciled(w, t, run, b, v, expected, closes, crash, now)
    ensures Ended(run, b, v, k) && Rank(t.events, k) == 3 <==>
      Target(w, run, b, v).Some?
      && (Target(w, run, b, v).value.stage == Retired
          || (|t.events| > |w.events| && t.events[|t.events| - 1].action.Retirement?))
  {
    hide Project, Target, Ended, Reconciled, Rank;
    EndedIsTarget(w, run, b, v, k);
    if Ended(run, b, v, k) { RetiredByLast(w, t, run, b, v, expected, closes, crash, now, k); }
  }

  lemma EndedIsTarget(w: World, run: string, b: Option<BindingView>, v: Option<StatusView>, k: Key)
    requires Project(w.events).Ok? && b.Some? && k == Key(b.value.run, b.value.worker, b.value.generation)
    ensures Target(w, run, b, v).Some? <==> Ended(run, b, v, k) && k in Project(w.events).value
    ensures Target(w, run, b, v).Some? ==> Target(w, run, b, v).value == Project(w.events).value[k]
  {
    hide Project;
  }

  lemma {:induction false} RetiredByLast(w: World, t: World, run: string, b: Option<BindingView>, v: Option<StatusView>,
                                         expected: Option<Handle>, closes: bool, crash: CrashPoint, now: string, k: Key)
    requires Project(w.events).Ok? && Project(t.events).Ok? && b.Some? && k == Key(b.value.run, b.value.worker, b.value.generation)
    requires Reconciled(w, t, run, b, v, expected, closes, crash, now) && Ended(run, b, v, k)
    ensures Rank(t.events, k) == 3 <==>
      k in Project(w.events).value
      && (Project(w.events).value[k].stage == Retired || (|t.events| > |w.events| && t.events[|t.events| - 1].action.Retirement?))
  {
    hide Project;
    if k in Project(w.events).value && Project(w.events).value[k].stage != Retired {
      if |t.events| > |w.events| {
        assert LastOf(t.events, |t.events| - 1, k);
        RecordIsLastEvent(t.events, |t.events| - 1, k);
      } else {
        assert t.events == w.events;
      }
    } else {
      assert forall j :: Ended(run, b, v, j) ==> j == k;
    }
  }

  /** The intent is written exactly for an open record, and only where the journal has room. */
  lemma IntentMeaning(w: World, r: Record, status: string, now: string)
    requires Project(w.events).Ok? && r.key in Project(w.events).value && Project(w.events).value[r.key] == r && r.stage != Retired
    ensures var i := WriteIntent(w, r, status, now);
      && (i.Ok? <==> r.stage == Pending || |w.events| < MAX_EVENTS)
      && (i.Ok? ==> Project(i.value.events).Ok? && i.value.closes == w.closes)
      && (i.Ok? ==> i.value.events == w.events + if r.stage == Open then [Event(Intent(status), r.key, r.handle, now)] else [])
  {
    if r.stage == Open { assert (w.events + [Event(Intent(status), r.key, r.handle, now)])[..|w.events|] == w.events; }
  }

  /** The host is called once, and the retirement is written exactly after a success the reconciler survives with room. */
  lemma CloseMeaning(w: World, k: Key, handle: Handle, closes: bool, crash: CrashPoint, now: string)
    requires Project(w.events).Ok?
    ensures var t := DoClose(w, k, handle, closes, crash, now);
      && t.closes == w.closes + [Close(k, handle, |w.events|, closes)]
      && t.events == w.events + if closes && crash != AfterClose && |w.events| < MAX_EVENTS then [Event(Retirement, k, handle, now)] else []
  {}

  /** What the reconciler's method needs to know about its own specification. */
  lemma ReconcileFacts(w: World, run: string, b: Option<BindingView>, v: Option<StatusView>,
                       expected: Option<Handle>, closes: bool, crash: CrashPoint, now: string)
    requires Valid(w)
    ensures Project(w.events).Ok? && forall k :: k in Project(w.events).value ==> Project(w.events).value[k].key == k
    ensures var t := DoReconcile(w, run, b, v, expected, closes, crash, now);
      && Valid(t) && Reconciled(w, t, run, b, v, expected, closes, crash, now)
      && (b.Some? ==>
        var k := Key(b.value.run, b.value.worker, b.value.generation);
        Ended(run, b, v, k) && Rank(t.events, k) == 3 <==>
        Target(w, run, b, v).Some?
        && (Target(w, run, b, v).value.stage == Retired
            || (|t.events| > |w.events| && t.events[|t.events| - 1].action.Retirement?)))
  {
    OrderedReplays(w.events);
    ReconcileMeaning(w, run, b, v, expected, closes, crash, now);
    ReconcileKeepsValid(w, run, b, v, expected, closes, crash, now);
    var t := DoReconcile(w, run, b, v, expected, closes, crash, now);
    OrderedReplays(t.events);
    if b.Some? {
      RetiredMeaning(w, t, run, b, v, expected, closes, crash, now, Key(b.value.run, b.value.worker, b.value.generation));
    }
  }

  /** The ordinary history: a worker is registered, ends, and its host is closed once, after the intent. */
  lemma {:induction false} EndedWorkerIsRetired(b: BindingView, handle: Handle, status: string, now: string)
    requires b.bound && b.run != "" && b.worker != "" && b.generation >= 1 && handle != ""
    requires status in {"completed", "failed", "interrupted", "terminated", "retired"}
    ensures var k := Key(b.run, b.worker, b.generation);
      DoAll([Register(b.run, b, handle, now), Reconcile(b.run, Some(b), Some(StatusView(Some(status), false)), None, true, Never, now)])
      == World([Event(Opened, k, handle, now), Event(Intent(status), k, handle, now), Event(Retirement, k, handle, now)],
               [Close(k, handle, 2, true)])
  {
    var v := Some(StatusView(Some(status), false));
    var calls := [Register(b.run, b, handle, now), Reconcile(b.run, Some(b), v, None, true, Never, now)];
    var w := DoAll([calls[0]]);
    RegisteredWorker(b, handle, now);
    assert calls[..1] == [calls[0]];
    ReconcileMeaning(w, b.run, Some(b), v, None, true, Never, now);
    assert Ended(b.run, Some(b), v, Key(b.run, b.worker, b.generation));
    hide Project, DoReconcile;
  }

  lemma {:induction false} RegisteredWorker(b: BindingView, handle: Handle, now: string)
    requires b.bound && b.run != "" && b.worker != "" && b.generation >= 1 && handle != ""
    ensures var k := Key(b.run, b.worker, b.generation);
      && DoAll([Register(b.run, b, handle, now)]) == World([Event(Opened, k, handle, now)], [])
      && Project([Event(Opened, k, handle, now)]) == Ok(map[k := Record(k, handle, Open, now, None)])
  {
    var k := Key(b.run, b.worker, b.generation);
    var first := [Event(Opened, k, handle, now)];
    assert first[..0] == [];
    assert [Register(b.run, b, handle, now)][..0] == [];
  }

  /** The reconciler object, whose methods change the journal and call the host. */
  class ExternalHostProjection {
    var world: World

    constructor ()
      ensures world == World([], []) && Valid(world)
    {
      world := World([], []);
    }

    method RegisterHandle(run: string, b: BindingView, handle: Handle, now: string) returns (r: Result<Record>)
      requires Valid(world)
      modifies this
      ensures Valid(world) && world == DoRegister(old(world), run, b, handle, now)
      // Registration is refused exactly for an unbound or mismatched worker, an empty handle, another handle
      // for a registered key, or a new key in a full journal; only a new key is written.
      ensures Project(old(world).events).Ok? && Project(world.events).Ok?
      ensures r.Err? <==>
        !b.bound || b.run != run || run == "" || b.worker == "" || b.generation < 1 || handle == "" ||
        var k, records := Key(run, b.worker, b.generation), Project(old(world).events).value;
        if k in records then records[k].handle != handle else |old(world).events| >= MAX_EVENTS
      ensures var k, records := Key(run, b.worker, b.generation), Project(old(world).events).value;
        && world.closes == old(world).closes
        && world.events == old(world).events + (if r.Ok? && k !in records then [Event(Opened, k, handle, now)] else [])
        && (r.Ok? ==> k in Project(world.events).value && r.value == Project(world.events).value[k] && r.value.handle == handle)
    {
      var key := KeyOf(b);
      RegisterKeepsValid(world, run, b, handle, now);
      OrderedReplays(world.events);
      var records := Replay(world.events);
      if key.None? || key.value.run != run || handle == "" { return Err; }
      if key.value in records.value {
        if records.value[key.value].handle != handle { return Err; }
        return Ok(records.value[key.value]);
      }
      var e := Event(Opened, key.value, handle, now);
      if |world.events| + 1 > MAX_EVENTS { return Err; }
      ghost var before := world.events;
      world := world.(events := world.events + [e]);
      assert world.events[..|before|] == before;
      records := Replay(world.events);
      r := Ok(records.value[key.value]);
    }

    /** The write-ahead step. */
    method WriteAhead(r: Record, status: string, now: string) returns (ok: bool)
      requires Valid(world) && Project(world.events).Ok? && r.key in Project(world.events).value
      requires Project(world.events).value[r.key] == r && r.stage != Retired
      modifies this
      ensures ok <==> WriteIntent(old(world), r, status, now).Ok?
      ensures world == if ok then WriteIntent(old(world), r, status, now).value else old(world)
    {
      if r.stage == Pending { return true; }
      if |world.events| + 1 > MAX_EVENTS { return false; }
      world := world.(events := world.events + [Event(Intent(status), r.key, r.handle, now)]);
      ok := true;
    }

    /** The call of the host and, once it has succeeded, the retirement. */
    method CloseHandle(k: Key, handle: Handle, closes: bool, crash: CrashPoint, now: string) returns (retired: bool)
      requires Project(world.events).Ok?
      modifies this
      ensures world == DoClose(old(world), k, handle, closes, crash, now)
      ensures retired <==> world.events == old(world).events + [Event(Retirement, k, handle, now)]
      ensures !retired ==> world.events == old(world).events
    {
      world := world.(closes := world.closes + [Close(k, handle, |world.events|, closes)]);
      retired := false;
      if !closes || crash.AfterClose? || |world.events| + 1 > MAX_EVENTS { return; }
      world := world.(events := world.events + [Event(Retirement, k, handle, now)]);
      retired := true;
    }

    /** `reconcile`; `closes` is whether the host's close succeeds, `crash` where the process dies. */
    method ReconcileRun(run: string, b: Option<BindingView>, v: Option<StatusView>, expected: Option<Handle>,
                        closes: bool, crash: CrashPoint, now: string) returns (retired: bool)
      requires Valid(world)
      modifies this
      ensures Valid(world) && world == DoReconcile(old(world), run, b, v, expected, closes, crash, now)
      ensures Project(old(world).events).Ok? && Reconciled(old(world), world, run, b, v, expected, closes, crash, now)
      ensures retired <==>
        && crash != BeforeIntent && b.Some?
        && var k := Key(b.value.run, b.value.worker, b.value.generation);
           Ended(run, b, v, k) && Rank(world.events, k) == 3
    {
      hide Project, Rank, Ended, Reconciled, Valid, Append, WriteIntent, DoClose;
      ReconcileFacts(world, run, b, v, expected, closes, crash, now);
      ghost var w0 := world;
      retired := false;
      var t := Target(world, run, b, v);
      if t.None? || crash.BeforeIntent? { return; }
      var r := t.value;
      if r.stage == Retired { return true; }
      IntentMeaning(world, r, v.value.status.value, now);
      var ahead := WriteAhead(r, v.value.status.value, now);
      if !ahead || crash.BeforeClose? || (expected.Some? && expected.value != r.handle) { return; }
      CloseMeaning(world, r.key, r.handle, closes, crash, now);
      retired := CloseHandle(r.key, r.handle, closes, crash, now);
    }
  }
}
