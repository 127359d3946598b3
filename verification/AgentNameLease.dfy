/**
 The agent-name lease protocol.

 A preparing process reserves a logical agent name by writing a lease file under a lock.
 Status publication, process death and terminal transitions take no lock, so `claim` is
 modelled as the separate reads and writes it performs, each one an atomic event that may
 interleave with every event of every other process.
 */
module AgentNameLease {
  import opened Wrappers

  type Name = string
  type RunId = string
  type Pid = int


  /** One lease file: the run it reserves the name for and the process that wrote it. */
  datatype Lease = Lease(run: RunId, pid: Pid)

  /** One status file. `active` is what `status_agent_active` answers for the run. */
  datatype Status = Status(name: Name, active: bool)

  datatype Phase =
    | Choosing                                                          // picking the next name to try
    | Scanning(name: Name, todo: set<RunId>, hit: bool)                 // lock held, reading status files
    | AtStatus(name: Name, hit: bool, owner: RunId, pid: Pid)           // lease read, another run's
    | AtJudge(name: Name, hit: bool, owner: RunId)                      // that run's status was readable
    | AtProbe(name: Name, hit: bool, owner: RunId, pid: Pid)            // that run had no status
    | Deciding(name: Name, hit: bool)                                   // about to refuse or to write
    | Wrote(name: Name)                                                 // lease written, lock held
    | Claimed(name: Name)                                               // lock released, status not yet written
    | Published(name: Name)                                             // status written
    | RollingBack(mine: bool)                                           // `mine`: the state directory is ours to remove
    | Releasing                                                         // lock held, unlinking this run's leases
    | Finished

  datatype Process = Process(run: RunId, phase: Phase)

  /** `spent` holds every process identifier ever used: identifiers are not reused. */
  datatype State = State(
    lock: Option<Pid>,
    leases: map<Name, Lease>,
    statuses: map<RunId, Status>,
    live: map<Pid, Process>,
    spent: set<Pid>)

  datatype Event =
    | Prepare(p: Pid, run: RunId)      // first preparation of a run with no state
    | Revisit(p: Pid, run: RunId)      // repeated preparation, or retirement, of a published run
    | BeginClaim(p: Pid, name: Name)
    | Scan(p: Pid, run: RunId)
    | ReadLease(p: Pid)
    | ReadStatus(p: Pid)
    | Judge(p: Pid)
    | Probe(p: Pid)
    | Refuse(p: Pid)
    | WriteLease(p: Pid)
    | Unlock(p: Pid)
    | Publish(p: Pid)
    | Fail(p: Pid)
    | RemoveStatus(p: Pid)
    | BeginRelease(p: Pid)
    | DropLease(p: Pid, name: Name)
    | EndRelease(p: Pid)
    | Terminate(run: RunId)            // the run reaches a terminal status or loses its worker
    | Die(p: Pid)

  const INITIAL := State(None, map[], map[], map[], {})

  predicate At(s: State, p: Pid) { p in s.live }

  function PhaseOf(s: State, p: Pid): Phase
    requires At(s, p)
  {
    s.live[p].phase
  }

  function RunOf(s: State, p: Pid): RunId
    requires At(s, p)
  {
    s.live[p].run
  }

  predicate Active(s: State, r: RunId, a: Name) {
    r in s.statuses && s.statuses[r] == Status(a, true)
  }

  /** The phases of a run that is being prepared and has not been published. */
  predicate Preparing(f: Phase) {
    f.Choosing? || f.Scanning? || f.AtStatus? || f.AtJudge? || f.AtProbe? || f.Deciding? || f.Wrote? || f.Claimed?
  }

  predicate HoldsLock(f: Phase) {
    f.Scanning? || f.AtStatus? || f.AtJudge? || f.AtProbe? || f.Deciding? || f.Wrote? || f.Releasing?
  }

  /** A live claimant of `a` whose run has no status yet. */
  predicate Claims(s: State, p: Pid, a: Name) {
    At(s, p) && (PhaseOf(s, p) == Wrote(a) || PhaseOf(s, p) == Claimed(a))
  }

  predicate Enabled(s: State, e: Event) {
    match e
    case Prepare(p, run) =>
      p !in s.spent && run !in s.statuses && forall q :: q in s.live ==> s.live[q].run != run
    case Revisit(p, run) => p !in s.spent && run in s.statuses
    case BeginClaim(p, name) => At(s, p) && PhaseOf(s, p).Choosing? && s.lock.None?
    case Scan(p, run) => At(s, p) && PhaseOf(s, p).Scanning? && run in PhaseOf(s, p).todo
    case ReadLease(p) => At(s, p) && PhaseOf(s, p).Scanning? && PhaseOf(s, p).todo == {}
    case ReadStatus(p) => At(s, p) && PhaseOf(s, p).AtStatus?
    case Judge(p) => At(s, p) && PhaseOf(s, p).AtJudge?
    case Probe(p) => At(s, p) && PhaseOf(s, p).AtProbe?
    case Refuse(p) => At(s, p) && PhaseOf(s, p).Deciding? && PhaseOf(s, p).hit
    case WriteLease(p) => At(s, p) && PhaseOf(s, p).Deciding? && !PhaseOf(s, p).hit
    case Unlock(p) => At(s, p) && PhaseOf(s, p).Wrote?
    case Publish(p) => At(s, p) && PhaseOf(s, p).Claimed?
    case Fail(p) => At(s, p) && (Preparing(PhaseOf(s, p)) || PhaseOf(s, p).Published?)
    case RemoveStatus(p) => At(s, p) && PhaseOf(s, p).RollingBack? && PhaseOf(s, p).mine
    case BeginRelease(p) => At(s, p) && PhaseOf(s, p).RollingBack? && s.lock.None?
    case DropLease(p, name) =>
      At(s, p) && PhaseOf(s, p).Releasing? && name in s.leases && s.leases[name].run == RunOf(s, p)
    case EndRelease(p) => At(s, p) && PhaseOf(s, p).Releasing?
    case Terminate(run) => run in s.statuses
    case Die(p) => At(s, p)
  }

  function Move(s: State, p: Pid, f: Phase): State
    requires At(s, p)
  {
    s.(live := s.live[p := s.live[p].(phase := f)])
  }

  function Unlocked(s: State, p: Pid): State {
    if s.lock == Some(p) then s.(lock := None) else s
  }

  /** The answer of reading the lease file of the name being claimed. */
  function LeaseRead(s: State, self: RunId, name: Name, hit: bool): Phase {
    if name in s.leases && s.leases[name].run != self
    then AtStatus(name, hit, s.leases[name].run, s.leases[name].pid)
    else Deciding(name, hit)
  }

  function Apply(s: State, e: Event): State
    requires Enabled(s, e)
  {
    match e
    case Prepare(p, run) => s.(live := s.live[p := Process(run, Choosing)], spent := s.spent + {p})
    case Revisit(p, run) => s.(live := s.live[p := Process(run, RollingBack(false))], spent := s.spent + {p})
    case BeginClaim(p, name) => Move(s.(lock := Some(p)), p, Scanning(name, s.statuses.Keys, false))
    case Scan(p, run) =>
      var f := PhaseOf(s, p);
      Move(s, p, Scanning(f.name, f.todo - {run}, f.hit || (run != RunOf(s, p) && Active(s, run, f.name))))
    case ReadLease(p) => Move(s, p, LeaseRead(s, RunOf(s, p), PhaseOf(s, p).name, PhaseOf(s, p).hit))
    case ReadStatus(p) =>
      var f := PhaseOf(s, p);
      Move(s, p, if f.owner in s.statuses then AtJudge(f.name, f.hit, f.owner)
                 else AtProbe(f.name, f.hit, f.owner, f.pid))
    case Judge(p) =>
      // A run whose lifecycle cannot be read counts as active.
      var f := PhaseOf(s, p);
      Move(s, p, Deciding(f.name, f.hit || f.owner !in s.statuses || s.statuses[f.owner].active))
    case Probe(p) => Move(s, p, Deciding(PhaseOf(s, p).name, PhaseOf(s, p).hit || PhaseOf(s, p).pid in s.live))
    case Refuse(p) => Unlocked(Move(s, p, Choosing), p)
    case WriteLease(p) =>
      var a := PhaseOf(s, p).name;
      Move(s.(leases := s.leases[a := Lease(RunOf(s, p), p)]), p, Wrote(a))
    case Unlock(p) => Unlocked(Move(s, p, Claimed(PhaseOf(s, p).name)), p)
    case Publish(p) =>
      var a := PhaseOf(s, p).name;
      Move(s.(statuses := s.statuses[RunOf(s, p) := Status(a, true)]), p, Published(a))
    case Fail(p) => Unlocked(Move(s, p, RollingBack(true)), p)
    case RemoveStatus(p) => Move(s.(statuses := s.statuses - {RunOf(s, p)}), p, RollingBack(false))
    case BeginRelease(p) => Move(s.(lock := Some(p)), p, Releasing)
    case DropLease(p, name) => s.(leases := s.leases - {name})
    case EndRelease(p) => Unlocked(Move(s, p, Finished), p)
    case Terminate(run) => s.(statuses := s.statuses[run := s.statuses[run].(active := false)])
    case Die(p) => Unlocked(s.(live := s.live - {p}), p)
  }

  // ---------------------------------------------------------------- the property

  /** A run holds a name while its status is active, or while a live claimant has no status yet. */
  ghost predicate Holds(s: State, r: RunId, a: Name) {
    Active(s, r, a) || exists p :: Claims(s, p, a) && RunOf(s, p) == r
  }

  ghost predicate Exclusive(s: State) {
    forall r1, r2, a :: Holds(s, r1, a) && Holds(s, r2, a) ==> r1 == r2
  }

  /**
   The event that the pid probe cannot tolerate: a process that has already published its
   status exits while a claimer of the same name still remembers that status as absent.
   */
  ghost predicate ExitsInsideProbeWindow(s: State, e: Event) {
    e.Die? && exists q :: ProbeWindow(s, q, e.p)
  }

  predicate ProbeWindow(s: State, q: Pid, p: Pid) {
    At(s, q) && PhaseOf(s, q).AtProbe? && !PhaseOf(s, q).hit && PhaseOf(s, q).pid == p
    && Active(s, PhaseOf(s, q).owner, PhaseOf(s, q).name)
  }

  // ---------------------------------------------------------------- the invariant

  ghost predicate LockInv(s: State) {
    && s.live.Keys <= s.spent
    && (forall p :: At(s, p) && HoldsLock(PhaseOf(s, p)) ==> s.lock == Some(p))
    && (forall a :: a in s.leases ==> s.leases[a].pid in s.spent)
    && (forall a :: a in s.leases && At(s, s.leases[a].pid) ==> RunOf(s, s.leases[a].pid) == s.leases[a].run)
  }

  ghost predicate FreshInv(s: State) {
    forall p :: At(s, p) && Preparing(PhaseOf(s, p)) ==>
      RunOf(s, p) !in s.statuses && forall q :: At(s, q) && q != p ==> RunOf(s, q) != RunOf(s, p)
  }

  ghost predicate ClaimInv(s: State) {
    forall p, a :: Claims(s, p, a) ==> a in s.leases && s.leases[a] == Lease(RunOf(s, p), p)
  }

  ghost predicate ActiveInv(s: State) {
    && (forall r, a :: Active(s, r, a) && a in s.leases ==> s.leases[a].run == r)
    && (forall r1, r2, a :: Active(s, r1, a) && Active(s, r2, a) ==> r1 == r2)
  }

  ghost predicate LeasedTo(s: State, a: Name, r: RunId) { a in s.leases && s.leases[a].run == r }

  ghost predicate NoClaimant(s: State, a: Name) { forall q :: !Claims(s, q, a) }

  /** What a claimer that has seen no conflict so far may conclude at each phase. */
  ghost predicate Knows(s: State, p: Pid)
    requires At(s, p)
  {
    match PhaseOf(s, p)
    case Scanning(a, todo, hit) => !hit ==> forall r :: Active(s, r, a) ==> r in todo || LeasedTo(s, a, r)
    case AtStatus(a, hit, owner, pid) =>
      && a in s.leases && s.leases[a] == Lease(owner, pid) && owner != RunOf(s, p)
      && (!hit ==> forall r :: Active(s, r, a) ==> r == owner)
    case AtJudge(a, hit, owner) =>
      && LeasedTo(s, a, owner) && NoClaimant(s, a)
      && (!hit ==> forall r :: Active(s, r, a) ==> r == owner)
    case AtProbe(a, hit, owner, pid) =>
      && a in s.leases && s.leases[a] == Lease(owner, pid) && owner != RunOf(s, p)
      && (!hit ==> forall r :: Active(s, r, a) ==> r == owner && At(s, pid))
    case Deciding(a, hit) => !hit ==> NoClaimant(s, a) && forall r :: !Active(s, r, a)
    case _ => true
  }

  ghost predicate KnowsInv(s: State) { forall p :: At(s, p) ==> Knows(s, p) }

  ghost predicate Inv(s: State) {
    LockInv(s) && FreshInv(s) && ClaimInv(s) && ActiveInv(s) && KnowsInv(s)
  }

  lemma InvIsExclusive(s: State)
    requires Inv(s)
    ensures Exclusive(s)
  {
    forall r1, r2, a | Holds(s, r1, a) && Holds(s, r2, a) ensures r1 == r2 {
      if !Active(s, r1, a) { var p :| Claims(s, p, a) && RunOf(s, p) == r1; }
      if !Active(s, r2, a) { var p :| Claims(s, p, a) && RunOf(s, p) == r2; }
    }
  }

  lemma KeepsLockInv(s: State, e: Event)
    requires Inv(s) && Enabled(s, e)
    ensures LockInv(Apply(s, e))
  {
    KeepsLockOwner(s, e);
    KeepsSpent(s, e);
    KeepsLeaseRuns(s, e);
  }

  lemma KeepsLockOwner(s: State, e: Event)
    requires LockInv(s) && Enabled(s, e)
    ensures var t := Apply(s, e); forall q :: At(t, q) && HoldsLock(PhaseOf(t, q)) ==> t.lock == Some(q)
  {
    var t := Apply(s, e);
    forall q | At(t, q) && HoldsLock(PhaseOf(t, q)) ensures t.lock == Some(q) {
      assert At(s, q) || e.Prepare? || e.Revisit?;
    }
  }

  lemma KeepsSpent(s: State, e: Event)
    requires LockInv(s) && Enabled(s, e)
    ensures var t := Apply(s, e); t.live.Keys <= t.spent && forall a :: a in t.leases ==> t.leases[a].pid in t.spent
  {}

  lemma KeepsLeaseRuns(s: State, e: Event)
    requires LockInv(s) && Enabled(s, e)
    ensures var t := Apply(s, e);
      forall a :: a in t.leases && At(t, t.leases[a].pid) ==> RunOf(t, t.leases[a].pid) == t.leases[a].run
  {
    var t := Apply(s, e);
    forall a | a in t.leases && At(t, t.leases[a].pid) ensures RunOf(t, t.leases[a].pid) == t.leases[a].run {
      KeepsRun(s, e, t.leases[a].pid);
    }
  }

  lemma KeepsFreshInv(s: State, e: Event)
    requires Inv(s) && Enabled(s, e)
    ensures FreshInv(Apply(s, e))
  {
    var t := Apply(s, e);
    forall p | At(t, p) && Preparing(PhaseOf(t, p))
      ensures RunOf(t, p) !in t.statuses && forall q :: At(t, q) && q != p ==> RunOf(t, q) != RunOf(t, p)
    {
      StaysPreparing(s, e, p);
      if e.Publish? { assert At(s, e.p) && (e.p != p ==> RunOf(s, e.p) != RunOf(s, p)); }
      forall q | At(t, q) && q != p ensures RunOf(t, q) != RunOf(t, p) { KeepsRun(s, e, q); }
    }
  }

  lemma StaysPreparing(s: State, e: Event, p: Pid)
    requires Enabled(s, e) && At(Apply(s, e), p) && Preparing(PhaseOf(Apply(s, e), p))
    ensures var t := Apply(s, e);
      e == Prepare(p, RunOf(t, p)) || (At(s, p) && Preparing(PhaseOf(s, p)) && RunOf(s, p) == RunOf(t, p))
  {}

  lemma KeepsRun(s: State, e: Event, q: Pid)
    requires Enabled(s, e) && At(Apply(s, e), q)
    ensures var t := Apply(s, e);
      (At(s, q) && RunOf(s, q) == RunOf(t, q)) || e == Prepare(q, RunOf(t, q)) || e == Revisit(q, RunOf(t, q))
  {}

  lemma KeepsClaimInv(s: State, e: Event)
    requires Inv(s) && Enabled(s, e)
    ensures ClaimInv(Apply(s, e))
  {
    var t := Apply(s, e);
    forall p, a | Claims(t, p, a) ensures a in t.leases && t.leases[a] == Lease(RunOf(t, p), p) {
      if e != WriteLease(p) {
        ClaimedBefore(s, e, p, a);
        if e.WriteLease? { assert Knows(s, e.p); }
      }
    }
  }

  lemma ClaimedBefore(s: State, e: Event, p: Pid, a: Name)
    requires Enabled(s, e) && Claims(Apply(s, e), p, a) && e != WriteLease(p)
    ensures Claims(s, p, a) && RunOf(Apply(s, e), p) == RunOf(s, p)
  {}

  lemma ActiveBefore(s: State, e: Event, r: RunId, a: Name)
    requires Enabled(s, e) && Active(Apply(s, e), r, a)
    ensures Active(s, r, a) || (e.Publish? && r == RunOf(s, e.p) && Claims(s, e.p, a))
  {}

  lemma LeasedBefore(s: State, e: Event, a: Name)
    requires Enabled(s, e) && a in Apply(s, e).leases
    ensures (a in s.leases && Apply(s, e).leases[a] == s.leases[a]) || (e.WriteLease? && PhaseOf(s, e.p).name == a)
  {}

  lemma KeepsActiveInv(s: State, e: Event)
    requires Inv(s) && Enabled(s, e)
    ensures ActiveInv(Apply(s, e))
  {
    var t := Apply(s, e);
    if e.WriteLease? { assert Knows(s, e.p); }
    forall r, a | Active(t, r, a) && a in t.leases ensures t.leases[a].run == r {
      ActiveBefore(s, e, r, a);
      LeasedBefore(s, e, a);
    }
    forall r1, r2, a | Active(t, r1, a) && Active(t, r2, a) ensures r1 == r2 {
      ActiveBefore(s, e, r1, a);
      ActiveBefore(s, e, r2, a);
    }
  }

  predicate Inquiring(f: Phase) { HoldsLock(f) && !f.Releasing? && !f.Wrote? }

  /** `t` differs from `s` only in ways that cannot mislead an inquiry about `a`. */
  ghost predicate Undisturbed(s: State, t: State, a: Name) {
    && t.leases == s.leases && (forall q :: Claims(t, q, a) ==> Claims(s, q, a))
    && (forall r :: Active(t, r, a) ==> Active(s, r, a) || (LeasedTo(s, a, r) && Claims(s, s.leases[a].pid, a)))
  }

  /** While `p` inquires under the lock, others can only publish what they have already claimed. */
  lemma OthersOnlyPublish(s: State, e: Event, p: Pid)
    requires LockInv(s) && ClaimInv(s) && Enabled(s, e) && At(s, p) && Inquiring(PhaseOf(s, p))
    requires At(Apply(s, e), p) && PhaseOf(Apply(s, e), p) == PhaseOf(s, p)
    ensures Undisturbed(s, Apply(s, e), PhaseOf(s, p).name)
  {
    var t, a := Apply(s, e), PhaseOf(s, p).name;
    assert s.lock == Some(p);
    forall q | Claims(t, q, a) ensures Claims(s, q, a) { if e != WriteLease(q) { ClaimedBefore(s, e, q, a); } }
    forall r | Active(t, r, a) ensures Active(s, r, a) || (LeasedTo(s, a, r) && Claims(s, s.leases[a].pid, a)) {
      ActiveBefore(s, e, r, a);
    }
  }

  /** The process about to be probed does not vanish while its name is in use. */
  ghost predicate ProbedStays(s: State, t: State, f: Phase) {
    f.AtProbe? && !f.hit ==> forall r :: Active(t, r, f.name) && At(s, f.pid) ==> At(t, f.pid)
  }

  lemma UndisturbedKnows(s: State, t: State, p: Pid)
    requires At(s, p) && At(t, p) && t.live[p] == s.live[p] && Knows(s, p)
    requires Inquiring(PhaseOf(s, p)) ==> Undisturbed(s, t, PhaseOf(s, p).name) && ProbedStays(s, t, PhaseOf(s, p))
    ensures Knows(t, p)
  {}

  /** A process that is in its critical section learns nothing false from other processes' events. */
  lemma BystanderKnows(s: State, e: Event, p: Pid)
    requires LockInv(s) && ClaimInv(s) && At(s, p) && Knows(s, p)
    requires Enabled(s, e) && !ExitsInsideProbeWindow(s, e)
    requires At(Apply(s, e), p) && Apply(s, e).live[p] == s.live[p]
    ensures Knows(Apply(s, e), p)
  {
    if Inquiring(PhaseOf(s, p)) {
      OthersOnlyPublish(s, e, p);
      if e.Die? { assert !ProbeWindow(s, p, e.p); }
    }
    UndisturbedKnows(s, Apply(s, e), p);
  }

  /** What the acting claimer itself concludes from the answer it has just read. */
  lemma ActorKnows(s: State, e: Event)
    requires Inv(s) && Enabled(s, e) && !e.Terminate? && !e.Die?
    ensures At(Apply(s, e), e.p) && Knows(Apply(s, e), e.p)
  {
    var t := Apply(s, e);
    var p := e.p;
    if At(s, p) {
      assert Knows(s, p);
      var f := PhaseOf(s, p);
      if Preparing(f) && !f.Choosing? {
        forall q | Claims(t, q, f.name) && q != p ensures Claims(s, q, f.name) {}
        forall r | Active(t, r, f.name) && !e.Publish? ensures Active(s, r, f.name) {}
      }
    }
  }

  lemma KeepsKnowsInv(s: State, e: Event)
    requires Inv(s) && Enabled(s, e) && !ExitsInsideProbeWindow(s, e)
    ensures KnowsInv(Apply(s, e))
  {
    var t := Apply(s, e);
    forall p | At(t, p) ensures Knows(t, p) {
      if !e.Terminate? && e.p == p { ActorKnows(s, e); } else { BystanderKnows(s, e, p); }
    }
  }

  // ---------------------------------------------------------------- whole runs

  predicate Executes(s: State, es: seq<Event>)
    decreases |es|
  {
    es == [] || (Enabled(s, es[0]) && Executes(Apply(s, es[0]), es[1..]))
  }

  function After(s: State, es: seq<Event>): State
    requires Executes(s, es)
    decreases |es|
  {
    if es == [] then s else After(Apply(s, es[0]), es[1..])
  }

  ghost predicate AvoidsProbeWindow(s: State, es: seq<Event>)
    requires Executes(s, es)
    decreases |es|
  {
    es == [] || (!ExitsInsideProbeWindow(s, es[0]) && AvoidsProbeWindow(Apply(s, es[0]), es[1..]))
  }

  lemma StepKeepsInv(s: State, e: Event)
    requires Inv(s) && Enabled(s, e) && !ExitsInsideProbeWindow(s, e)
    ensures Inv(Apply(s, e))
  {
    KeepsLockInv(s, e);
    KeepsFreshInv(s, e);
    KeepsClaimInv(s, e);
    KeepsActiveInv(s, e);
    KeepsKnowsInv(s, e);
  }

  lemma {:induction false} RunKeepsInv(s: State, es: seq<Event>)
    requires Inv(s) && Executes(s, es) && AvoidsProbeWindow(s, es)
    ensures Inv(After(s, es))
    decreases |es|
  {
    if es != [] {
      StepKeepsInv(s, es[0]);
      RunKeepsInv(Apply(s, es[0]), es[1..]);
    }
  }

  /**
   In every interleaving of claims, publications, deaths, terminal transitions, rollbacks and
   releases in which no published process exits inside a probe window, no two runs ever hold
   the same agent name.
   */
  lemma {:induction false} NamesAreExclusive(es: seq<Event>)
    requires Executes(INITIAL, es) && AvoidsProbeWindow(INITIAL, es)
    ensures Exclusive(After(INITIAL, es))
  {
    RunKeepsInv(INITIAL, es);
    InvIsExclusive(After(INITIAL, es));
  }

  /** Exiting inside the window lets the waiting claimer take a name that is still held. */
  lemma WindowBreaksExclusion(s: State, e: Event) returns (q: Pid)
    requires Inv(s) && Enabled(s, e) && ExitsInsideProbeWindow(s, e)
    ensures Executes(s, [e, Probe(q), WriteLease(q)])
    ensures !Exclusive(After(s, [e, Probe(q), WriteLease(q)]))
  {
    q :| ProbeWindow(s, q, e.p);
    assert Knows(s, q);
    var f := PhaseOf(s, q);
    var t1 := Apply(s, e);
    assert q != e.p;
    var t2 := Apply(t1, Probe(q));
    var t3 := Apply(t2, WriteLease(q));
    Prepend(t2, WriteLease(q), []);
    Prepend(t1, Probe(q), [WriteLease(q)]);
    Prepend(s, e, [Probe(q), WriteLease(q)]);
    assert Claims(t3, q, f.name) && Holds(t3, RunOf(s, q), f.name);
    assert Active(t3, f.owner, f.name) && Holds(t3, f.owner, f.name);
  }

  /**
   The window is the exact condition: a run that does exit inside it has a prefix, ending with
   the first such exit, that two more events of the waiting claimer turn into a double holding.
   */
  lemma {:induction false} ExitInWindowIsUnsafe(s: State, es: seq<Event>) returns (k: nat, q: Pid)
    requires Inv(s) && Executes(s, es) && !AvoidsProbeWindow(s, es)
    ensures 0 < k <= |es| && es[k - 1].Die?
    ensures Executes(s, es[..k] + [Probe(q), WriteLease(q)])
    ensures !Exclusive(After(s, es[..k] + [Probe(q), WriteLease(q)]))
    decreases |es|
  {
    if ExitsInsideProbeWindow(s, es[0]) {
      k := 1;
      q := WindowBreaksExclusion(s, es[0]);
      assert es[..k] + [Probe(q), WriteLease(q)] == [es[0], Probe(q), WriteLease(q)];
    } else {
      StepKeepsInv(s, es[0]);
      var k';
      k', q := ExitInWindowIsUnsafe(Apply(s, es[0]), es[1..]);
      k := k' + 1;
      var bad := es[..k] + [Probe(q), WriteLease(q)];
      assert bad[0] == es[0] && bad[1..] == es[1..][..k'] + [Probe(q), WriteLease(q)];
    }
  }

  lemma {:induction false} Prepend(s: State, e: Event, es: seq<Event>)
    requires Enabled(s, e) && Executes(Apply(s, e), es)
    ensures Executes(s, [e] + es) && After(s, [e] + es) == After(Apply(s, e), es)
  {
    assert ([e] + es)[1..] == es;
  }

  lemma {:induction false} FreeNameIsClaimed(s: State, p: Pid, a: Name)
    requires At(s, p) && PhaseOf(s, p).Choosing? && s.lock.None? && s.statuses == map[] && a !in s.leases
    ensures var es := [BeginClaim(p, a), ReadLease(p), WriteLease(p), Unlock(p)];
            Executes(s, es) && After(s, es) == Move(s.(leases := s.leases[a := Lease(RunOf(s, p), p)]), p, Claimed(a))
  {
    var t2 := Move(s.(lock := Some(p)), p, Deciding(a, false));
    FreeNameIsRead(s, p, a);
    DecidedNameIsWritten(t2, p, a);
    RunsCompose(s, [BeginClaim(p, a), ReadLease(p)], [WriteLease(p), Unlock(p)]);
    assert [BeginClaim(p, a), ReadLease(p)] + [WriteLease(p), Unlock(p)] == [BeginClaim(p, a), ReadLease(p), WriteLease(p), Unlock(p)];
    assert After(t2, [WriteLease(p), Unlock(p)]).live == s.live[p := Process(RunOf(s, p), Claimed(a))];
  }

  lemma {:induction false} FreeNameIsRead(s: State, p: Pid, a: Name)
    requires At(s, p) && PhaseOf(s, p).Choosing? && s.lock.None? && s.statuses == map[] && a !in s.leases
    ensures var es := [BeginClaim(p, a), ReadLease(p)];
            Executes(s, es) && After(s, es) == Move(s.(lock := Some(p)), p, Deciding(a, false))
  {
    var t1 := Apply(s, BeginClaim(p, a));
    assert PhaseOf(t1, p) == Scanning(a, {}, false);
    OneStep(t1, ReadLease(p));
    Prepend(s, BeginClaim(p, a), [ReadLease(p)]);
  }

  lemma {:induction false} DecidedNameIsWritten(s: State, p: Pid, a: Name)
    requires At(s, p) && PhaseOf(s, p) == Deciding(a, false) && s.lock == Some(p)
    ensures var es := [WriteLease(p), Unlock(p)];
            Executes(s, es)
            && After(s, es) == Move(s.(lock := None, leases := s.leases[a := Lease(RunOf(s, p), p)]), p, Claimed(a))
  {
    var t1 := Apply(s, WriteLease(p));
    OneStep(t1, Unlock(p));
    Prepend(s, WriteLease(p), [Unlock(p)]);
  }

  /**
   Where the lock is free, a claimer that fails, or a repeated preparation of a published run, can roll back and
   then has dropped exactly that run's lease: no status changes, so a published run may stay active without one.
   */
  lemma {:induction false} RollbackDropsLease(s: State, p: Pid, a: Name, e: Event)
    requires s.lock.None? && a in s.leases
    requires
      || (e == Fail(p) && At(s, p) && PhaseOf(s, p) in {Claimed(a), Published(a)} && RunOf(s, p) == s.leases[a].run)
      || (e == Revisit(p, s.leases[a].run) && p !in s.spent && s.leases[a].run in s.statuses)
    ensures var es := [e, BeginRelease(p), DropLease(p, a), EndRelease(p)];
      && Executes(s, es)
      && After(s, es).leases == s.leases - {a} && After(s, es).statuses == s.statuses && After(s, es).lock == None
  {
    var t := Apply(s, e);
    assert At(t, p) && PhaseOf(t, p).RollingBack? && RunOf(t, p) == t.leases[a].run && t.lock == None;
    hide Apply, Enabled;
    LeaseIsDropped(t, p, a);
    Prepend(s, e, [BeginRelease(p), DropLease(p, a), EndRelease(p)]);
  }

  lemma {:induction false} LeaseIsDropped(s: State, p: Pid, a: Name)
    requires s.lock.None? && a in s.leases && At(s, p) && PhaseOf(s, p).RollingBack? && RunOf(s, p) == s.leases[a].run
    ensures var es := [BeginRelease(p), DropLease(p, a), EndRelease(p)];
      && Executes(s, es)
      && After(s, es).leases == s.leases - {a} && After(s, es).statuses == s.statuses && After(s, es).lock == None
  {
    var t2 := Apply(s, BeginRelease(p));
    var t3 := Apply(t2, DropLease(p, a));
    OneStep(t3, EndRelease(p));
    Prepend(t2, DropLease(p, a), [EndRelease(p)]);
    Prepend(s, BeginRelease(p), [DropLease(p, a), EndRelease(p)]);
  }

  lemma {:induction false} UnpublishedNameIsProbed(s: State, q: Pid, a: Name)
    requires At(s, q) && PhaseOf(s, q).Choosing? && s.lock.None? && s.statuses == map[]
    requires a in s.leases && s.leases[a].run != RunOf(s, q)
    ensures var es := [BeginClaim(q, a), ReadLease(q), ReadStatus(q)];
            Executes(s, es)
            && After(s, es) == Move(s.(lock := Some(q)), q, AtProbe(a, false, s.leases[a].run, s.leases[a].pid))
  {
    var t1 := Apply(s, BeginClaim(q, a));
    assert PhaseOf(t1, q) == Scanning(a, {}, false);
    var t2 := Apply(t1, ReadLease(q));
    Prepend(t2, ReadStatus(q), []);
    Prepend(t1, ReadLease(q), [ReadStatus(q)]);
    Prepend(s, BeginClaim(q, a), [ReadLease(q), ReadStatus(q)]);
  }

  lemma {:induction false} RunsCompose(s: State, es: seq<Event>, fs: seq<Event>)
    requires Executes(s, es) && Executes(After(s, es), fs)
    ensures Executes(s, es + fs) && After(s, es + fs) == After(After(s, es), fs)
    decreases |es|
  {
    if es == [] {
      assert es + fs == fs;
    } else {
      RunsCompose(Apply(s, es[0]), es[1..], fs);
      Prepend(s, es[0], es[1..] + fs);
      assert [es[0]] + (es[1..] + fs) == es + fs;
    }
  }

  /** `q` is about to probe the process that leased `a` to an unpublished run. */
  ghost predicate Racing(s: State, p: Pid, q: Pid, r1: RunId, r2: RunId, a: Name) {
    At(s, p) && At(s, q) && p != q && r1 != r2 && r1 !in s.statuses &&
    s.live[p] == Process(r1, Claimed(a)) && s.live[q] == Process(r2, AtProbe(a, false, r1, p))
  }

  lemma RaceBegins(p: Pid, q: Pid, r1: RunId, r2: RunId, a: Name)
    requires p != q && r1 != r2
    ensures var es := [Prepare(p, r1)] + [BeginClaim(p, a), ReadLease(p), WriteLease(p), Unlock(p)]
                      + [Prepare(q, r2)] + [BeginClaim(q, a), ReadLease(q), ReadStatus(q)];
            Executes(INITIAL, es) && Racing(After(INITIAL, es), p, q, r1, r2, a)
  {
    var e1, e2 := [Prepare(p, r1)], [BeginClaim(p, a), ReadLease(p), WriteLease(p), Unlock(p)];
    var e3, e4 := [Prepare(q, r2)], [BeginClaim(q, a), ReadLease(q), ReadStatus(q)];
    var s1 := Apply(INITIAL, Prepare(p, r1));
    OneStep(INITIAL, Prepare(p, r1));
    FreeNameIsClaimed(s1, p, a);
    RunsCompose(INITIAL, e1, e2);
    var s2 := After(s1, e2);
    OneStep(s2, Prepare(q, r2));
    RunsCompose(INITIAL, e1 + e2, e3);
    var s3 := Apply(s2, Prepare(q, r2));
    UnpublishedNameIsProbed(s3, q, a);
    RunsCompose(INITIAL, e1 + e2 + e3, e4);
  }

  lemma {:induction false} OneStep(s: State, e: Event)
    requires Enabled(s, e)
    ensures Executes(s, [e]) && After(s, [e]) == Apply(s, e)
  {
    assert [e][1..] == [];
    assert Executes(Apply(s, e), []) && After(Apply(s, e), []) == Apply(s, e);
  }

  lemma {:induction false} RaceEnds(s: State, p: Pid, q: Pid, r1: RunId, r2: RunId, a: Name)
    requires Racing(s, p, q, r1, r2, a)
    ensures var es := [Publish(p), Die(p), Probe(q), WriteLease(q)];
            Executes(s, es) && Holds(After(s, es), r1, a) && Holds(After(s, es), r2, a)
  {
    var t1 := Apply(s, Publish(p));
    var t2 := Apply(t1, Die(p));
    var t3 := Apply(t2, Probe(q));
    var t4 := Apply(t3, WriteLease(q));
    assert Claims(t4, q, a) && RunOf(t4, q) == r2 && Active(t4, r1, a);
    OneStep(t3, WriteLease(q));
    Prepend(t2, Probe(q), [WriteLease(q)]);
    Prepend(t1, Die(p), [Probe(q), WriteLease(q)]);
    Prepend(s, Publish(p), [Die(p), Probe(q), WriteLease(q)]);
  }

  /**
   The race, for any two runs and any name: `p` claims and publishes, and exits after `q` found
   no status for the leased run and before `q` probes the leased process.
   */
  lemma DoubleHolding(p: Pid, q: Pid, r1: RunId, r2: RunId, a: Name)
    requires p != q && r1 != r2
    ensures var es := [Prepare(p, r1)] + [BeginClaim(p, a), ReadLease(p), WriteLease(p), Unlock(p)]
                      + [Prepare(q, r2)] + [BeginClaim(q, a), ReadLease(q), ReadStatus(q)]
                      + [Publish(p), Die(p), Probe(q), WriteLease(q)];
            Executes(INITIAL, es) && Holds(After(INITIAL, es), r1, a) && Holds(After(INITIAL, es), r2, a)
  {
    var es := [Prepare(p, r1)] + [BeginClaim(p, a), ReadLease(p), WriteLease(p), Unlock(p)]
              + [Prepare(q, r2)] + [BeginClaim(q, a), ReadLease(q), ReadStatus(q)];
    RaceBegins(p, q, r1, r2, a);
    RaceEnds(After(INITIAL, es), p, q, r1, r2, a);
    RunsCompose(INITIAL, es, [Publish(p), Die(p), Probe(q), WriteLease(q)]);
  }

  // ---------------------------------------------------------------- one uninterrupted claim

  /** Somebody else stands in the way of `self` claiming `a`. */
  ghost predicate Contended(s: State, self: RunId, a: Name) {
    StatusBlocks(s, self, a, s.statuses.Keys) || LeaseBlocks(s, self, a)
  }

  predicate LeaseBlocks(s: State, self: RunId, a: Name) {
    a in s.leases && s.leases[a].run != self
    && if s.leases[a].run in s.statuses then s.statuses[s.leases[a].run].active else s.leases[a].pid in s.live
  }

  ghost predicate StatusBlocks(s: State, self: RunId, a: Name, seen: set<RunId>) {
    exists r :: r in seen && r != self && Active(s, r, a)
  }

  /** The lease directory, changed only by the protocol's own events. */
  class LeaseDirectory {
    var state: State

    /** Lock and fill the table of active owners: `hit` records whether it names another run's `name`. */
    method ScanStatuses(p: Pid, name: Name) returns (hit: bool)
      requires At(state, p) && PhaseOf(state, p).Choosing? && state.lock.None?
      modifies this
      ensures state == Move(old(state).(lock := Some(p)), p, Scanning(name, {}, hit))
      ensures hit <==> StatusBlocks(old(state), RunOf(old(state), p), name, old(state).statuses.Keys)
    {
      var s0 := state;
      state := Apply(state, BeginClaim(p, name));
      var todo := s0.statuses.Keys;
      hit := false;
      while todo != {}
        invariant todo <= s0.statuses.Keys
        invariant state == Move(s0.(lock := Some(p)), p, Scanning(name, todo, hit))
        invariant hit <==> StatusBlocks(s0, RunOf(s0, p), name, s0.statuses.Keys - todo)
      {
        var r :| r in todo;
        state := Apply(state, Scan(p, r));
        hit, todo := hit || (r != RunOf(s0, p) && Active(s0, r, name)), todo - {r};
      }
      assert s0.statuses.Keys - todo == s0.statuses.Keys;
    }

    /** Read the lease and whatever it points at: `hit` now also covers a lease that is still protected. */
    method ReadOwner(p: Pid, ghost name: Name)
      requires At(state, p) && PhaseOf(state, p).Scanning? && PhaseOf(state, p).todo == {} && PhaseOf(state, p).name == name
      modifies this
      ensures var hit := PhaseOf(old(state), p).hit || LeaseBlocks(old(state), RunOf(old(state), p), name);
              state == Move(old(state), p, Deciding(name, hit))
    {
      state := Apply(state, ReadLease(p));
      if PhaseOf(state, p).AtStatus? {
        state := Apply(state, ReadStatus(p));
        if PhaseOf(state, p).AtJudge? {
          state := Apply(state, Judge(p));
        } else {
          state := Apply(state, Probe(p));
        }
      }
    }

    /**
     `claim_agent_name` with nobody interleaving: it takes the lease exactly when no other run
     is in the way, and leaves everything else as it was.
     */
    method ClaimAgentName(p: Pid, name: Name) returns (ok: bool)
      requires At(state, p) && PhaseOf(state, p).Choosing? && state.lock.None?
      modifies this
      ensures ok <==> !Contended(old(state), RunOf(old(state), p), name)
      ensures !ok ==> state == old(state)
      ensures ok ==> state == Move(old(state).(leases := old(state).leases[name := Lease(RunOf(old(state), p), p)]), p, Claimed(name))
    {
      ghost var s0 := state;
      var _ := ScanStatuses(p, name);
      ReadOwner(p, name);
      ok := !PhaseOf(state, p).hit;
      if ok {
        state := Apply(state, WriteLease(p));
        state := Apply(state, Unlock(p));
      } else {
        state := Apply(state, Refuse(p));
        assert state.live == s0.live;
      }
    }

    /** `release_agent_name`: unlinks this run's leases, all of them or the named one, and no other run's. */
    method ReleaseAgentName(p: Pid, name: Option<Name>)
      requires At(state, p) && PhaseOf(state, p).RollingBack? && state.lock.None?
      modifies this
      ensures state == Move(old(state).(leases := LeasesWithout(old(state).leases, RunOf(old(state), p), name)), p, Finished)
    {
      ghost var s0 := state;
      var self := RunOf(state, p);
      state := Apply(state, BeginRelease(p));
      var todo := if name.Some? then {name.value} else state.leases.Keys;
      DropLeases(p, todo);
      state := Apply(state, EndRelease(p));
      assert state.leases == LeasesWithout(s0.leases, self, name);
    }

    /** The loop over the candidate lease files, under the lock. */
    method DropLeases(p: Pid, names: set<Name>)
      requires At(state, p) && PhaseOf(state, p).Releasing?
      modifies this
      ensures state == old(state).(leases := LeasesWithoutIn(old(state).leases, RunOf(old(state), p), names))
    {
      var s0 := state;
      var self := RunOf(state, p);
      var todo := names;
      var done: set<Name> := {};
      assert LeasesWithoutIn(s0.leases, self, done) == s0.leases;
      while todo != {}
        invariant done + todo == names && state == s0.(leases := LeasesWithoutIn(s0.leases, self, done))
      {
        var a :| a in todo;
        DropOne(s0.leases, self, done, a);
        if a in state.leases && state.leases[a].run == self {
          state := Apply(state, DropLease(p, a));
        }
        todo, done := todo - {a}, done + {a};
      }
      assert done == names;
    }
  }

  function LeasesWithoutIn(leases: map<Name, Lease>, r: RunId, done: set<Name>): map<Name, Lease> {
    map a | a in leases && !(a in done && leases[a].run == r) :: leases[a]
  }

  lemma DropOne(leases: map<Name, Lease>, r: RunId, done: set<Name>, a: Name)
    ensures var now := LeasesWithoutIn(leases, r, done);
      LeasesWithoutIn(leases, r, done + {a}) == if a in now && now[a].run == r then now - {a} else now
  {}

  /** The leases that survive a release by run `r`. */
  function LeasesWithout(leases: map<Name, Lease>, r: RunId, name: Option<Name>): map<Name, Lease> {
    map a | a in leases && !(leases[a].run == r && (name.None? || name.value == a)) :: leases[a]
  }

  /** In every state the protocol reaches, a name held by another run is contended for everybody else. */
  lemma HeldNameIsContended(s: State, self: RunId, r: RunId, a: Name)
    requires Inv(s) && Holds(s, r, a) && r != self
    ensures Contended(s, self, a)
  {
    if !Active(s, r, a) { var p :| Claims(s, p, a) && RunOf(s, p) == r; }
  }
}
