/**
 Review, acceptance and forced acceptance of a sealed run, and the two modules that later judge the
 same receipt chain: approval (`DispositionOf`) and archiving (`ArchiveRefusal`).

 The sealed evidence never changes. The score set is not sealed, so it may be replaced between any
 two operations. Receipts are written and read one operation at a time; a receipt's writing may stop half-way.
 */
module Lifecycle {
  import opened Wrappers
  import opened ReceiptChain
  import opened ReceiptFiles
  import opened ReceiptText

  datatype Refusal =
    | BlankText | WrongRun | NotCompleted | ScoreMissing | ScoreInvalid | EvidenceInvalid | TaskResultInvalid
    | ChainUnreadable | AlreadyTerminal | NotReviewed | AlreadyReviewed | ScoreNotPassing | ScoreChanged
    | PriorNotIndependent | ResultNotCompleted | CollectionInvalid | PolicyFailed | NoTier | ActorNotIndependent
    | NoRevision | NoAcknowledgement | OverrideExists | NotTerminal | NotAccepted | RevisionMismatch

  datatype Outcome<T> = Done(value: T) | Refused(why: Refusal)

  datatype Completion = Completion(head: Option<string>, result: string)

  /** What the final receipt seals. `None` stands for an artifact that cannot be read as its contract demands. */
  datatype Evidence = Evidence(
    runId: string, finalHash: string, receiptRunId: string, statusRunId: string,
    status: string, tier: string, policy: string, executor: string, evaluation: bool,
    completion: Option<Completion>, collection: Option<string>,
    taskResultRequired: bool, taskResult: Option<string>, independentReview: Option<bool>)

  datatype ScoreFile = ScoreFile(digest: string, valid: bool, verdict: string)

  datatype GateFailure = NoReviewedReceipt | NotCompletedResult | NoValidCollection | NoRecordedTier | NormalGate

  datatype Override = Override(actor: string, reason: string, finalHash: string, failures: set<GateFailure>)

  /** `torn` says that a receipt whose writing stopped too early lies beside the chain. */
  datatype State = State(chain: seq<Receipt>, forced: Option<Override>, score: Option<ScoreFile>, torn: bool)

  datatype Op =
    | Record(action: Action, actor: string, reason: string)
    | StoppedRecord(action: Action, actor: string, reason: string, stop: nat) // dies after writing `stop` characters
    | ForceAccept(actor: string, reason: string, acknowledgement: string)
    | ReplaceScore(score: Option<ScoreFile>)

  const TERMINAL: set<string> := {"completed", "failed", "interrupted", "terminated", "retired"}
  const TIERS: set<string> := {"low", "medium", "high", "critical"}
  const HIGH_TIERS: set<string> := {"high", "critical"}

  /** The characters Python's `str.strip` removes. */
  predicate IsSpace(c: char) {
    '\t' <= c <= '\r' || '\U{1C}' <= c <= ' ' || c == '\U{85}' || c == '\U{A0}' || c == '\U{1680}' ||
    '\U{2000}' <= c <= '\U{200A}' || c == '\U{2028}' || c == '\U{2029}' || c == '\U{202F}' ||
    c == '\U{205F}' || c == '\U{3000}'
  }

  predicate Blank(s: string) { forall c <- s :: IsSpace(c) }

  // ---------------------------------------------------------------- record

  predicate Allowed(action: Action, prior: Option<Action>) {
    match action
    case Reviewed => prior == None || prior == Some(Rejected)
    case Accepted => prior == Some(Reviewed)
    case Rejected => prior == None || prior == Some(Reviewed) || prior == Some(Rejected)
  }

  function PriorRefusal(action: Action, prior: Option<Action>): Refusal {
    if prior == Some(Accepted) then AlreadyTerminal
    else if action == Accepted then NotReviewed
    else AlreadyReviewed
  }

  function Prior(chain: seq<Receipt>): Option<Action> {
    if chain == [] then None else Some(chain[|chain| - 1].action)
  }

  /** Whether the directory that holds the chain reads back; `ReceiptChain.LifecycleReceipts` decides the same. */
  ghost predicate ChainReads(ev: Evidence, s: State) {
    !s.torn && |s.chain| <= MAX_RECEIPTS && Genuine(s.chain, ev.runId, Some(ev.finalHash))
  }

  function ScoreDigest(ev: Evidence, score: Option<ScoreFile>): Outcome<Option<ScoreFile>> {
    if score == None then (if ev.evaluation then Refused(ScoreMissing) else Done(None))
    else if !score.value.valid then Refused(ScoreInvalid)
    else Done(score)
  }

  function DigestOf(score: Option<ScoreFile>): Option<string> {
    if score == None then None else Some(score.value.digest)
  }

  /** The evidence checks every record operation makes before it looks at the chain. */
  function Preconditions(ev: Evidence, score: Option<ScoreFile>): Outcome<Option<ScoreFile>> {
    if ev.statusRunId != ev.runId then Refused(WrongRun)
    else if ev.status != "completed" then Refused(NotCompleted)
    else if ScoreDigest(ev, score).Refused? then ScoreDigest(ev, score)
    else if ev.completion == None || ev.collection == None then Refused(EvidenceInvalid)
    else if ev.taskResultRequired && ev.taskResult == None then Refused(EvidenceInvalid)
    else if ev.taskResultRequired && ev.taskResult != Some("valid") then Refused(TaskResultInvalid)
    else ScoreDigest(ev, score)
  }

  /** The fixed, ordered acceptance gates; the revision to accept when all of them pass. */
  function Gates(ev: Evidence, score: Option<ScoreFile>, reviewed: Receipt, independent: bool): Outcome<string>
    requires ev.completion.Some?
  {
    if ev.independentReview == None then Refused(EvidenceInvalid)
    else if score.Some? && score.value.verdict != "pass" then Refused(ScoreNotPassing)
    else if reviewed.score != DigestOf(score) then Refused(ScoreChanged)
    else if ev.independentReview == Some(true) && !reviewed.independent then Refused(PriorNotIndependent)
    else if ev.tier in HIGH_TIERS && !reviewed.independent then Refused(PriorNotIndependent)
    else if ev.completion.value.result != "completed" then Refused(ResultNotCompleted)
    else if ev.collection != Some("valid") then Refused(CollectionInvalid)
    else if ev.policy == "failed" then Refused(PolicyFailed)
    else if ev.tier !in TIERS then Refused(NoTier)
    else if ev.tier in HIGH_TIERS && !independent then Refused(ActorNotIndependent)
    else if !HasRevision(ev) then Refused(NoRevision)
    else Done(ev.completion.value.head.value)
  }

  predicate HasRevision(ev: Evidence) {
    ev.completion.Some? && ev.completion.value.head.Some? && ev.completion.value.head.value != ""
  }

  function NewReceipt(ev: Evidence, action: Action, actor: string, reason: string, score: Option<ScoreFile>, revision: Option<string>): Receipt {
    Receipt(ev.runId, action, actor, reason, ev.finalHash, DigestOf(score), revision, actor != ev.executor)
  }

  /** What `record` decides once the chain has been read. */
  function Judge(ev: Evidence, chain: seq<Receipt>, score: Option<ScoreFile>, action: Action, actor: string, reason: string): Outcome<Receipt>
    requires ev.completion.Some?
  {
    if !Allowed(action, Prior(chain)) then Refused(PriorRefusal(action, Prior(chain)))
    else if action != Accepted then Done(NewReceipt(ev, action, actor, reason, score, None))
    else
      var gates := Gates(ev, score, chain[|chain| - 1], actor != ev.executor);
      if gates.Refused? then Refused(gates.why)
      else Done(NewReceipt(ev, action, actor, reason, score, Some(gates.value)))
  }

  ghost function RecordOutcome(ev: Evidence, s: State, action: Action, actor: string, reason: string): Outcome<Receipt> {
    if Blank(actor) || Blank(reason) then Refused(BlankText)
    else
      var pre := Preconditions(ev, s.score);
      if pre.Refused? then Refused(pre.why)
      else if !ChainReads(ev, s) then Refused(ChainUnreadable)
      else Judge(ev, s.chain, pre.value, action, actor, reason)
  }

  // ---------------------------------------------------------------- force_accept

  function Failures(ev: Evidence, chain: seq<Receipt>): set<GateFailure>
    requires ev.completion.Some?
  {
    var found :=
      (if Prior(chain) != Some(Reviewed) then {NoReviewedReceipt} else {}) +
      (if ev.completion.value.result != "completed" then {NotCompletedResult} else {}) +
      (if ev.collection != Some("valid") then {NoValidCollection} else {}) +
      (if ev.tier !in TIERS then {NoRecordedTier} else {});
    if found == {} then {NormalGate} else found
  }

  function ForcePreconditions(ev: Evidence, forced: Option<Override>, actor: string, reason: string, acknowledgement: string): Option<Refusal> {
    if Blank(actor) || Blank(reason) then Some(BlankText)
    else if acknowledgement != "FORCE-ACCEPT" then Some(NoAcknowledgement)
    else if forced.Some? then Some(OverrideExists)
    else if ev.receiptRunId != ev.runId || ev.statusRunId != ev.runId then Some(WrongRun)
    else if ev.status !in TERMINAL then Some(NotTerminal)
    else if ev.completion == None || ev.collection == None then Some(EvidenceInvalid)
    else None
  }

  ghost function ForceOutcome(ev: Evidence, s: State, actor: string, reason: string, acknowledgement: string): Outcome<Override> {
    var pre := ForcePreconditions(ev, s.forced, actor, reason, acknowledgement);
    if pre.Some? then Refused(pre.value)
    else if !ChainReads(ev, s) then Refused(ChainUnreadable)
    else if Prior(s.chain) == Some(Accepted) then Refused(AlreadyTerminal)
    else Done(Override(actor, reason, ev.finalHash, Failures(ev, s.chain)))
  }

  // ---------------------------------------------------------------- the two judges

  datatype Disposition = ForceAccepted | Recorded(action: Action)

  /** The checks the approval module makes on a chain it could read. */
  function ChainDisposition(ev: Evidence, chain: seq<Receipt>): Outcome<Option<Disposition>>
    requires HasRevision(ev)
  {
    if chain == [] then Done(None)
    else
      var n := |chain|;
      var last := chain[n - 1];
      if last.action != Accepted then Done(Some(Recorded(last.action)))
      else if last.revision != ev.completion.value.head then Refused(RevisionMismatch)
      else if n < 2 || chain[n - 2].action != Reviewed then Refused(NotReviewed)
      else if chain[n - 2].score != last.score then Refused(ScoreChanged)
      else Done(Some(Recorded(Accepted)))
  }

  ghost function DispositionOf(ev: Evidence, s: State): Outcome<Option<Disposition>> {
    if ev.receiptRunId != ev.runId then Refused(WrongRun)
    else if ev.completion == None then Refused(EvidenceInvalid)
    else if !HasRevision(ev) then Refused(NoRevision)
    else if s.forced.Some? then
      if s.forced.value.finalHash != ev.finalHash then Refused(EvidenceInvalid) else Done(Some(ForceAccepted))
    else if !ChainReads(ev, s) then Refused(ChainUnreadable)
    else ChainDisposition(ev, s.chain)
  }

  ghost predicate Approved(ev: Evidence, s: State) {
    var d := DispositionOf(ev, s);
    d == Done(Some(ForceAccepted)) || d == Done(Some(Recorded(Accepted)))
  }

  /** The archive's checks on the sealed evidence alone. */
  function ArchiveEvidence(ev: Evidence): Option<Refusal> {
    if ev.statusRunId != ev.runId then Some(WrongRun)
    else if ev.status != "completed" then Some(NotCompleted)
    else if ev.completion == None || ev.collection == None then Some(EvidenceInvalid)
    else if ev.completion.value.result != "completed" then Some(ResultNotCompleted)
    else if ev.collection.value != "valid" then Some(CollectionInvalid)
    else None
  }

  /** The archive's checks on a chain it could read, and on the score set as it is now. */
  function ArchiveChain(ev: Evidence, chain: seq<Receipt>, score: Option<ScoreFile>): Option<Refusal>
    requires ev.completion.Some?
  {
    if Prior(chain) != Some(Accepted) then Some(NotAccepted)
    else
      var last := chain[|chain| - 1];
      if last.revision != ev.completion.value.head then Some(RevisionMismatch)
      else if last.score == None then None
      else if score == None then Some(ScoreMissing)
      else if !score.value.valid then Some(ScoreInvalid)
      else if Some(score.value.digest) != last.score then Some(ScoreChanged)
      else None
  }

  ghost function ArchiveRefusal(ev: Evidence, s: State): Option<Refusal> {
    if ArchiveEvidence(ev).Some? then ArchiveEvidence(ev)
    else if !ChainReads(ev, s) then Some(ChainUnreadable)
    else ArchiveChain(ev, s.chain, s.score)
  }

  // ---------------------------------------------------------------- runs

  ghost function Apply(ev: Evidence, s: State, op: Op): State {
    match op
    case Record(action, actor, reason) =>
      var o := RecordOutcome(ev, s, action, actor, reason);
      if o.Done? then s.(chain := s.chain + [o.value]) else s
    case StoppedRecord(action, actor, reason, stop) =>
      var o := RecordOutcome(ev, s, action, actor, reason);
      if o.Refused? then s
      else if stop + 1 >= |Text(o.value)| then s.(chain := s.chain + [o.value])
      else s.(torn := true)
    case ForceAccept(actor, reason, ack) =>
      var o := ForceOutcome(ev, s, actor, reason, ack);
      if o.Done? then s.(forced := Some(o.value)) else s
    case ReplaceScore(score) => s.(score := score)
  }

  ghost function Run(ev: Evidence, s: State, ops: seq<Op>): State
    decreases |ops|
  {
    if ops == [] then s else Run(ev, Apply(ev, s, ops[0]), ops[1..])
  }

  function Initial(score: Option<ScoreFile>): State { State([], None, score, false) }

  /** Everything acceptance promises about position `i` of a chain. */
  ghost predicate AcceptedProperly(ev: Evidence, chain: seq<Receipt>, i: nat)
    requires i < |chain|
  {
    i == |chain| - 1 && i >= 1 && chain[i - 1].action == Reviewed && chain[i].score == chain[i - 1].score &&
    HasRevision(ev) && chain[i].revision == ev.completion.value.head && ArchiveEvidence(ev).None? &&
    ev.policy != "failed" && ev.tier in TIERS &&
    (ev.tier in HIGH_TIERS ==> chain[i].actor != ev.executor && chain[i - 1].actor != ev.executor) &&
    (ev.independentReview == Some(true) ==> chain[i - 1].actor != ev.executor)
  }

  ghost predicate Inv(ev: Evidence, s: State) {
    Genuine(s.chain, ev.runId, Some(ev.finalHash)) &&
    (forall r <- s.chain :: r.independent == (r.actor != ev.executor)) &&
    (forall i :: 0 <= i < |s.chain| && s.chain[i].action == Accepted ==> AcceptedProperly(ev, s.chain, i)) &&
    (s.forced.Some? ==> s.forced.value.finalHash == ev.finalHash && ev.receiptRunId == ev.runId)
  }

  lemma StepKeepsInv(ev: Evidence, s: State, op: Op)
    requires Inv(ev, s)
    ensures Inv(ev, Apply(ev, s, op))
  {
    if op.Record? || op.StoppedRecord? {
      var o := RecordOutcome(ev, s, op.action, op.actor, op.reason);
      if o.Done? {
        var chain := s.chain + [o.value];
        NothingAcceptedYet(ev, s, op.action, op.actor, op.reason);
        forall i | 0 <= i < |chain| && chain[i].action == Accepted ensures AcceptedProperly(ev, chain, i) {
          AcceptsProperly(ev, s, op.actor, op.reason);
        }
      }
    }
  }

  lemma NothingAcceptedYet(ev: Evidence, s: State, action: Action, actor: string, reason: string)
    requires Inv(ev, s) && RecordOutcome(ev, s, action, actor, reason).Done?
    ensures forall i :: 0 <= i < |s.chain| ==> s.chain[i].action != Accepted
    ensures RecordOutcome(ev, s, action, actor, reason).value.action == action
  {
    assert Prior(s.chain) != Some(Accepted);
  }

  lemma AcceptsProperly(ev: Evidence, s: State, actor: string, reason: string)
    requires Inv(ev, s) && RecordOutcome(ev, s, Accepted, actor, reason).Done?
    ensures AcceptedProperly(ev, s.chain + [RecordOutcome(ev, s, Accepted, actor, reason).value], |s.chain|)
  {
    var reviewed := s.chain[|s.chain| - 1];
    assert reviewed in s.chain && reviewed.independent == (reviewed.actor != ev.executor);
  }

  lemma {:induction false} RunKeepsInv(ev: Evidence, s: State, ops: seq<Op>)
    requires Inv(ev, s)
    ensures Inv(ev, Run(ev, s, ops))
    decreases |ops|
  {
    if ops != [] {
      StepKeepsInv(ev, s, ops[0]);
      RunKeepsInv(ev, Apply(ev, s, ops[0]), ops[1..]);
    }
  }

  /**
   On every reachable chain an accepted receipt is the last one, directly follows a review of the same
   score set, names the sealed head revision, and in a high tier neither its actor nor its reviewer is
   the executor.
   */
  lemma {:induction false} AcceptanceIsProper(ev: Evidence, score: Option<ScoreFile>, ops: seq<Op>, i: nat)
    requires var s := Run(ev, Initial(score), ops); i < |s.chain| && s.chain[i].action == Accepted
    ensures AcceptedProperly(ev, Run(ev, Initial(score), ops).chain, i)
  {
    RunKeepsInv(ev, Initial(score), ops);
  }

  // ---------------------------------------------------------------- the judges agree

  /** The chain ends in an acceptance of the sealed head revision. */
  ghost predicate EndsAccepted(ev: Evidence, chain: seq<Receipt>) {
    && chain != [] && chain[|chain| - 1].action == Accepted
    && ev.completion.Some? && chain[|chain| - 1].revision == ev.completion.value.head
  }

  /**
   What approval makes of any directory, reachable or not: the run has a head revision and its final receipt names
   it, and it was forced on this very evidence or accepted on that revision right after a review of the same score.
   */
  lemma {:induction false} ApprovesExactly(ev: Evidence, s: State)
    ensures Approved(ev, s) <==>
      && ev.receiptRunId == ev.runId && ev.completion.Some? && ev.completion.value.head.Some? && ev.completion.value.head.value != ""
      && match s.forced
         case Some(forced) => forced.finalHash == ev.finalHash
         case None =>
           ChainReads(ev, s) && EndsAccepted(ev, s.chain) && |s.chain| >= 2
           && s.chain[|s.chain| - 2].action == Reviewed && s.chain[|s.chain| - 2].score == s.chain[|s.chain| - 1].score
  {
    hide Genuine;
  }

  /**
   What the archive makes of any directory: this run's completed result, validly collected, accepted on the sealed
   head, with the score set that was accepted still in place and valid.
   */
  lemma {:induction false} ArchivesExactly(ev: Evidence, s: State)
    ensures ArchiveRefusal(ev, s).None? <==>
      && ev.statusRunId == ev.runId && ev.status == "completed" && ev.collection == Some("valid")
      && ev.completion.Some? && ev.completion.value.result == "completed"
      && ChainReads(ev, s) && EndsAccepted(ev, s.chain)
      && match s.chain[|s.chain| - 1].score
         case None => true
         case Some(digest) => s.score.Some? && s.score.value.valid && s.score.value.digest == digest
  {
    hide Genuine;
  }

  /** Exactly when a reachable run counts as approved. */
  lemma ApprovedExactly(ev: Evidence, s: State)
    requires Inv(ev, s)
    ensures Approved(ev, s) <==>
      ev.receiptRunId == ev.runId && HasRevision(ev) &&
      (s.forced.Some? || (Prior(s.chain) == Some(Accepted) && !s.torn && |s.chain| <= MAX_RECEIPTS))
  {
    if Prior(s.chain) == Some(Accepted) { assert AcceptedProperly(ev, s.chain, |s.chain| - 1); }
  }

  /** Exactly when a reachable run may be archived: it is accepted, and the accepted score set is still in place. */
  lemma ArchivableExactly(ev: Evidence, s: State)
    requires Inv(ev, s)
    ensures ArchiveRefusal(ev, s).None? <==>
      Prior(s.chain) == Some(Accepted) && !s.torn && |s.chain| <= MAX_RECEIPTS &&
      (var accepted := s.chain[|s.chain| - 1].score;
        accepted == None || (s.score.Some? && s.score.value.valid && Some(s.score.value.digest) == accepted))
  {
    if Prior(s.chain) == Some(Accepted) { assert AcceptedProperly(ev, s.chain, |s.chain| - 1); }
  }

  /** What the archive takes is approved exactly when its final receipt names this run, which archiving does not check. */
  lemma ArchivableIsApproved(ev: Evidence, s: State)
    requires Inv(ev, s) && ArchiveRefusal(ev, s).None?
    ensures Approved(ev, s) <==> ev.receiptRunId == ev.runId
  {
    ArchivableExactly(ev, s);
    assert AcceptedProperly(ev, s.chain, |s.chain| - 1);
    ApprovedExactly(ev, s);
  }

  /**
   A successful acceptance is approved and archivable at once, with one exception on each side: a chain
   that has outgrown six digits, and, for approval, a final receipt filed under another run's name,
   which acceptance does not check.
   */
  lemma AcceptedIsApprovedAndArchivable(ev: Evidence, s: State, actor: string, reason: string)
    requires Inv(ev, s) && RecordOutcome(ev, s, Accepted, actor, reason).Done?
    ensures var after := Apply(ev, s, Record(Accepted, actor, reason));
      (ArchiveRefusal(ev, after).None? <==> |s.chain| < MAX_RECEIPTS) &&
      (Approved(ev, after) <==> s.forced.Some? || (ev.receiptRunId == ev.runId && |s.chain| < MAX_RECEIPTS))
  {
    var op := Record(Accepted, actor, reason);
    var after := Apply(ev, s, op);
    StepKeepsInv(ev, s, op);
    assert AcceptedProperly(ev, after.chain, |after.chain| - 1);
    ArchivableExactly(ev, after);
    ApprovedExactly(ev, after);
  }

  /** A low-tier run of `codex` that handed over a revision; its final receipt names the given run. */
  function PlainEvidence(receiptRunId: string): Evidence {
    Evidence("r1", "h", receiptRunId, "r1", "completed", "low", "", "codex", false,
      Some(Completion(Some("abc"), "completed")), Some("valid"), false, None, Some(false))
  }

  lemma ReviewedPlainRun(receiptRunId: string) returns (s: State)
    ensures var ev := PlainEvidence(receiptRunId);
      && s == Run(ev, Initial(None), [Record(Reviewed, "lead", "ship it")]) && Inv(ev, s)
      && s.forced.None? && s.score.None? && !s.torn
      && s.chain == [Receipt("r1", Reviewed, "lead", "ship it", "h", None, None, true)]
      && !Blank("lead") && !Blank("ship it")
  {
    var ev, op := PlainEvidence(receiptRunId), Record(Reviewed, "lead", "ship it");
    assert !Blank("lead") by { assert 'l' in "lead" && !IsSpace('l'); }
    assert !Blank("ship it") by { assert 's' in "ship it" && !IsSpace('s'); }
    assert [op][1..] == [];
    s := Apply(ev, Initial(None), op);
    assert Run(ev, s, []) == s;
    RunKeepsInv(ev, Initial(None), [op]);
  }

  /** A run whose final receipt names another run is reviewed, accepted and archivable, and not approved. */
  lemma MisfiledReceiptExample()
    ensures var ev, ops := PlainEvidence("r2"), [Record(Reviewed, "lead", "ship it")];
      var s := Run(ev, Initial(None), ops);
      var after := Apply(ev, s, Record(Accepted, "lead", "ship it"));
      RecordOutcome(ev, s, Accepted, "lead", "ship it").Done? && ArchiveRefusal(ev, after).None? && !Approved(ev, after)
  {
    var s := ReviewedPlainRun("r2");
    AcceptedIsApprovedAndArchivable(PlainEvidence("r2"), s, "lead", "ship it");
  }

  /** A forced acceptance is approved exactly when the sealed completion names a head revision, which forcing does not check. */
  lemma ForcedIsApproved(ev: Evidence, s: State, actor: string, reason: string, ack: string)
    requires Inv(ev, s) && ForceOutcome(ev, s, actor, reason, ack).Done?
    ensures Approved(ev, Apply(ev, s, ForceAccept(actor, reason, ack))) <==> HasRevision(ev)
  {
    StepKeepsInv(ev, s, ForceAccept(actor, reason, ack));
    ApprovedExactly(ev, Apply(ev, s, ForceAccept(actor, reason, ack)));
  }

  /** A blocked run that handed over no revision is force-accepted and still not approved. */
  lemma ForcedWithoutApproval() returns (ev: Evidence)
    ensures ForceOutcome(ev, Initial(None), "lead", "ship it", "FORCE-ACCEPT").Done?
    ensures !Approved(ev, Run(ev, Initial(None), [ForceAccept("lead", "ship it", "FORCE-ACCEPT")]))
  {
    ev := Evidence("r1", "h", "r1", "r1", "failed", "low", "", "codex", false,
      Some(Completion(None, "blocked")), Some("valid"), false, None, Some(false));
    var op := ForceAccept("lead", "ship it", "FORCE-ACCEPT");
    assert !Blank("lead") by { assert 'l' in "lead" && !IsSpace('l'); }
    assert !Blank("ship it") by { assert 's' in "ship it" && !IsSpace('s'); }
    assert Inv(ev, Initial(None));
    ForcedIsApproved(ev, Initial(None), "lead", "ship it", "FORCE-ACCEPT");
    assert [op][1..] == [];
    assert Run(ev, Apply(ev, Initial(None), op), []) == Apply(ev, Initial(None), op);
  }

  // ---------------------------------------------------------------- the failures a forced acceptance lists

  /** The gate behind each listed failure, on its own; the catch-all stands for no gate. */
  predicate GateFails(ev: Evidence, chain: seq<Receipt>, f: GateFailure) {
    match f
    case NoReviewedReceipt => Prior(chain) != Some(Reviewed)
    case NotCompletedResult => ev.completion.Some? && ev.completion.value.result != "completed"
    case NoValidCollection => ev.collection != Some("valid")
    case NoRecordedTier => ev.tier !in TIERS
    case NormalGate => false
  }

  /**
   Each failure other than the catch-all is listed exactly when its gate fails, and that gate alone
   refuses acceptance to every actor, for every reason and under every score set.
   */
  lemma ListedFailuresAreReal(ev: Evidence, s: State, f: GateFailure, actor: string, reason: string, score: Option<ScoreFile>)
    requires f != NormalGate
    ensures ev.completion.Some? ==> (f in Failures(ev, s.chain) <==> GateFails(ev, s.chain, f))
    ensures GateFails(ev, s.chain, f) ==> RecordOutcome(ev, s.(score := score), Accepted, actor, reason).Refused?
  {
    if ev.completion.Some? && GateFails(ev, s.chain, f) { assert f in Failures(ev, s.chain); }
  }

  /** The catch-all is listed exactly when no other failure is, and then it is the only one. */
  lemma CatchAllStandsAlone(ev: Evidence, chain: seq<Receipt>)
    requires ev.completion.Some?
    ensures NormalGate in Failures(ev, chain) <==> forall f :: !GateFails(ev, chain, f)
    ensures NormalGate in Failures(ev, chain) <==> Failures(ev, chain) == {NormalGate}
    ensures Failures(ev, chain) != {}
  {
    var found := Failures(ev, chain);
    assert GateFails(ev, chain, NoReviewedReceipt) ==> NoReviewedReceipt in found;
    assert GateFails(ev, chain, NotCompletedResult) ==> NotCompletedResult in found;
    assert GateFails(ev, chain, NoValidCollection) ==> NoValidCollection in found;
    assert GateFails(ev, chain, NoRecordedTier) ==> NoRecordedTier in found;
  }

  /** The gates that a forced acceptance does not look at, apart from who accepts. */
  predicate UnlistedGatesHold(ev: Evidence, s: State)
    requires s.chain != []
  {
    var reviewed := s.chain[|s.chain| - 1];
    && ev.status == "completed"
    && (ev.taskResultRequired ==> ev.taskResult == Some("valid"))
    // The score set is there if an evaluation ran, is valid, passes, and is the one that was reviewed.
    && (s.score.None? ==> !ev.evaluation) && (s.score.Some? ==> s.score.value.valid && s.score.value.verdict == "pass")
    && reviewed.score == (match s.score case None => None case Some(file) => Some(file.digest))
    && ev.independentReview.Some?
    && (ev.independentReview == Some(true) || ev.tier in HIGH_TIERS ==> reviewed.independent)
    && ev.policy != "failed"
    && ev.completion.Some? && ev.completion.value.head.Some? && ev.completion.value.head.value != ""
  }

  /**
   When a forced acceptance lists the catch-all, the listing is untrue of the person who forced it, who
   could have accepted normally, exactly when the unlisted gates hold and, in a high tier, that person is
   not the executor.
   */
  lemma CatchAllIsUntrueExactly(ev: Evidence, s: State, actor: string, reason: string, ack: string)
    requires ForceOutcome(ev, s, actor, reason, ack).Done? && NormalGate in ForceOutcome(ev, s, actor, reason, ack).value.failures
    ensures s.chain != []
    ensures RecordOutcome(ev, s, Accepted, actor, reason).Done? <==>
      UnlistedGatesHold(ev, s) && (ev.tier in HIGH_TIERS ==> actor != ev.executor)
  {
    CatchAllStandsAlone(ev, s.chain);
    assert !GateFails(ev, s.chain, NoReviewedReceipt) && !GateFails(ev, s.chain, NotCompletedResult);
    assert !GateFails(ev, s.chain, NoValidCollection) && !GateFails(ev, s.chain, NoRecordedTier);
  }

  /** It is untrue of somebody, who could have accepted normally, exactly when the unlisted gates hold. */
  lemma CatchAllIsUntrueOfSomebody(ev: Evidence, s: State, actor: string, reason: string, ack: string)
    requires ForceOutcome(ev, s, actor, reason, ack).Done? && NormalGate in ForceOutcome(ev, s, actor, reason, ack).value.failures
    ensures s.chain != []
    ensures (exists a, r :: RecordOutcome(ev, s, Accepted, a, r).Done?) <==> UnlistedGatesHold(ev, s)
  {
    forall a, r | !Blank(a) && !Blank(r)
      ensures s.chain != [] && (RecordOutcome(ev, s, Accepted, a, r).Done? <==>
        UnlistedGatesHold(ev, s) && (ev.tier in HIGH_TIERS ==> a != ev.executor))
    {
      CatchAllIsUntrueExactly(ev, s, a, r, ack);
    }
    assert !Blank("a") by { assert 'a' in "a" && !IsSpace('a'); }
    assert !Blank("b") by { assert 'b' in "b" && !IsSpace('b'); }
    var other := if ev.executor == "a" then "b" else "a";
    assert UnlistedGatesHold(ev, s) ==> RecordOutcome(ev, s, Accepted, other, reason).Done?;
  }

  /** A reviewed run that its lead could accept; forcing it all the same lists the catch-all. */
  lemma NeedlessForceExample()
    ensures var ev, ops := PlainEvidence("r1"), [Record(Reviewed, "lead", "ship it")];
      var s := Run(ev, Initial(None), ops);
      var forced := ForceOutcome(ev, s, "lead", "ship it", "FORCE-ACCEPT");
      RecordOutcome(ev, s, Accepted, "lead", "ship it").Done? && forced.Done? && forced.value.failures == {NormalGate}
  {
    var s := ReviewedPlainRun("r1");
    CatchAllStandsAlone(PlainEvidence("r1"), s.chain);
    CatchAllIsUntrueExactly(PlainEvidence("r1"), s, "lead", "ship it", "FORCE-ACCEPT");
  }

  // ---------------------------------------------------------------- what each operation takes

  /** Every record rests on this run's completed execution, whole evidence, and a valid score set if an evaluation ran. */
  ghost predicate Reviewable(ev: Evidence, score: Option<ScoreFile>) {
    && ev.statusRunId == ev.runId && ev.status == "completed" && ev.completion.Some? && ev.collection.Some?
    && (ev.taskResultRequired ==> ev.taskResult == Some("valid"))
    && (score.None? ==> !ev.evaluation) && (score.Some? ==> score.value.valid)
  }

  /**
   A review opens a chain or follows a rejection; a rejection may follow anything but an acceptance; an acceptance
   follows a review and passes every gate.
   */
  ghost predicate Follows(ev: Evidence, s: State, action: Action, actor: string) {
    match action
    case Reviewed => s.chain == [] || s.chain[|s.chain| - 1].action == Rejected
    case Rejected => s.chain == [] || s.chain[|s.chain| - 1].action in {Reviewed, Rejected}
    case Accepted =>
      && s.chain != [] && s.chain[|s.chain| - 1].action == Reviewed
      && ev.completion.Some? && ev.completion.value.result == "completed" && ev.collection == Some("valid")
      && ev.tier in {"low", "medium", "high", "critical"}
      && UnlistedGatesHold(ev, s)
      && (ev.tier in {"high", "critical"} ==> actor != ev.executor)
  }

  ghost predicate Recordable(ev: Evidence, s: State, action: Action, actor: string, reason: string) {
    !Blank(actor) && !Blank(reason) && Reviewable(ev, s.score) && ChainReads(ev, s) && Follows(ev, s, action, actor)
  }

  /**
   A record succeeds exactly then; its receipt carries what was asked for, the sealed hash, the digest of the score
   set as it is now, and a revision, the sealed head, exactly on acceptance.
   */
  lemma {:induction false} RecordExactly(ev: Evidence, s: State, action: Action, actor: string, reason: string)
    ensures var o := RecordOutcome(ev, s, action, actor, reason);
      && (o.Done? <==> Recordable(ev, s, action, actor, reason))
      && (o.Done? ==>
          && o.value.runId == ev.runId && o.value.action == action && o.value.actor == actor && o.value.reason == reason
          && o.value.finalHash == ev.finalHash
          && o.value.score == (match s.score case None => None case Some(file) => Some(file.digest))
          && ev.completion.Some? && o.value.revision == (if action == Accepted then ev.completion.value.head else None)
          && (o.value.independent <==> actor != ev.executor))
  {
    hide Genuine, Blank;
  }

  /** On evidence that can be reviewed and a chain that reads, the refusal says what stands at the chain's end. */
  lemma {:induction false} ChainRefusal(ev: Evidence, s: State, action: Action, actor: string, reason: string)
    requires !Blank(actor) && !Blank(reason) && Reviewable(ev, s.score) && ChainReads(ev, s)
    ensures var o := RecordOutcome(ev, s, action, actor, reason);
      && (o == Refused(AlreadyTerminal) <==> s.chain != [] && s.chain[|s.chain| - 1].action == Accepted)
      && (o == Refused(NotReviewed) <==> action == Accepted && (s.chain == [] || s.chain[|s.chain| - 1].action == Rejected))
      && (o == Refused(AlreadyReviewed) <==> action == Reviewed && s.chain != [] && s.chain[|s.chain| - 1].action == Reviewed)
  {
    hide Genuine, Blank;
    var pre := Preconditions(ev, s.score);
    assert pre == Done(s.score);
    if s.chain != [] && s.chain[|s.chain| - 1].action == Reviewed && action == Accepted {
      GatesRefuse(ev, s.score, s.chain[|s.chain| - 1], actor != ev.executor);
    }
  }

  /** A gate's refusal is never one of the chain's. */
  lemma GatesRefuse(ev: Evidence, score: Option<ScoreFile>, reviewed: Receipt, independent: bool)
    requires ev.completion.Some?
    ensures Gates(ev, score, reviewed, independent).Refused? ==>
      Gates(ev, score, reviewed, independent).why !in {AlreadyTerminal, NotReviewed, AlreadyReviewed}
  {}

  /** Acceptance is forced once, with the acknowledgement, on this run's ended execution, unless it is accepted already. */
  ghost predicate Forceable(ev: Evidence, s: State, actor: string, reason: string, acknowledgement: string) {
    && !Blank(actor) && !Blank(reason) && acknowledgement == "FORCE-ACCEPT" && s.forced.None?
    && ev.receiptRunId == ev.runId && ev.statusRunId == ev.runId
    && ev.status in {"completed", "failed", "interrupted", "terminated", "retired"}
    && ev.completion.Some? && ev.collection.Some?
    && ChainReads(ev, s) && (s.chain != [] ==> s.chain[|s.chain| - 1].action != Accepted)
  }

  /** A forced acceptance succeeds exactly then, and lists exactly the gates that fail, or the catch-all when none does. */
  lemma {:induction false} ForceExactly(ev: Evidence, s: State, actor: string, reason: string, acknowledgement: string)
    ensures var o := ForceOutcome(ev, s, actor, reason, acknowledgement);
      && (o.Done? <==> Forceable(ev, s, actor, reason, acknowledgement))
      && (o.Done? ==>
          && o.value.actor == actor && o.value.reason == reason && o.value.finalHash == ev.finalHash
          && (NoReviewedReceipt in o.value.failures <==> s.chain == [] || s.chain[|s.chain| - 1].action != Reviewed)
          && (NotCompletedResult in o.value.failures <==> ev.completion.Some? && ev.completion.value.result != "completed")
          && (NoValidCollection in o.value.failures <==> ev.collection != Some("valid"))
          && (NoRecordedTier in o.value.failures <==> ev.tier !in {"low", "medium", "high", "critical"})
          && (NormalGate in o.value.failures <==> o.value.failures == {NormalGate}) && o.value.failures != {})
  {
    hide Genuine, Blank, Failures;
    if ForceOutcome(ev, s, actor, reason, acknowledgement).Done? {
      CatchAllStandsAlone(ev, s.chain);
      ListedExactly(ev, s.chain);
    }
  }

  lemma ListedExactly(ev: Evidence, chain: seq<Receipt>)
    requires ev.completion.Some?
    ensures forall f :: f != NormalGate ==> (f in Failures(ev, chain) <==> GateFails(ev, chain, f))
  {
    forall f | f != NormalGate && GateFails(ev, chain, f) ensures f in Failures(ev, chain) {}
  }

  // ---------------------------------------------------------------- approval is for ever

  lemma StepKeepsApproval(ev: Evidence, s: State, op: Op)
    requires Inv(ev, s) && Approved(ev, s)
    ensures Approved(ev, Apply(ev, s, op))
  {
    StepKeepsInv(ev, s, op);
    ApprovedExactly(ev, s);
    ApprovedExactly(ev, Apply(ev, s, op));
  }

  /** No later operation, accepted or refused, and no change of the score set takes approval away. */
  lemma {:induction false} ApprovalIsForever(ev: Evidence, s: State, ops: seq<Op>)
    requires Inv(ev, s) && Approved(ev, s)
    ensures Approved(ev, Run(ev, s, ops))
    decreases |ops|
  {
    if ops != [] {
      StepKeepsApproval(ev, s, ops[0]);
      StepKeepsInv(ev, s, ops[0]);
      ApprovalIsForever(ev, Apply(ev, s, ops[0]), ops[1..]);
    }
  }

  /** An accepted chain never changes again. */
  lemma {:induction false} AcceptedIsFinal(ev: Evidence, s: State, ops: seq<Op>)
    requires Prior(s.chain) == Some(Accepted)
    ensures Run(ev, s, ops).chain == s.chain
    decreases |ops|
  {
    if ops != [] { AcceptedIsFinal(ev, Apply(ev, s, ops[0]), ops[1..]); }
  }

  // ---------------------------------------------------------------- a torn receipt is for ever

  lemma {:induction false} TornIsForever(ev: Evidence, s: State, ops: seq<Op>)
    requires s.torn
    ensures var t := Run(ev, s, ops); t.torn && t.chain == s.chain && t.forced == s.forced
    decreases |ops|
  {
    if ops != [] { TornIsForever(ev, Apply(ev, s, ops[0]), ops[1..]); }
  }

  /**
   A record that dies with more than the final line break of its receipt unwritten ends the review for
   good: whatever follows, the chain never changes, every record and every forced acceptance is refused,
   the run is never archived, and it counts as approved only if it had been forced before.
   */
  lemma {:induction false} TornReceiptEndsReview(ev: Evidence, s: State, action: Action, actor: string, reason: string, stop: nat, ops: seq<Op>)
    requires Inv(ev, s) && RecordOutcome(ev, s, action, actor, reason).Done?
    requires stop + 1 < |Text(RecordOutcome(ev, s, action, actor, reason).value)|
    ensures var t := Run(ev, Apply(ev, s, StoppedRecord(action, actor, reason, stop)), ops);
      && t.chain == s.chain && t.forced == s.forced
      && (forall next, who, why :: RecordOutcome(ev, t, next, who, why).Refused?)
      && (forall who, why, ack :: ForceOutcome(ev, t, who, why, ack).Refused?)
      && ArchiveRefusal(ev, t).Some?
      && (Approved(ev, t) <==> s.forced.Some? && HasRevision(ev))
  {
    var op := StoppedRecord(action, actor, reason, stop);
    var u := Apply(ev, s, op);
    StepKeepsInv(ev, s, op);
    TornIsForever(ev, u, ops);
    RunKeepsInv(ev, u, ops);
    ApprovedExactly(ev, Run(ev, u, ops));
  }

  // ---------------------------------------------------------------- the run directory

  lemma ForceStep(ev: Evidence, s: State, actor: string, reason: string, ack: string, o: Outcome<Override>)
    requires Inv(ev, s) && o == ForceOutcome(ev, s, actor, reason, ack)
    ensures var t := if o.Done? then s.(forced := Some(o.value)) else s;
      Apply(ev, s, ForceAccept(actor, reason, ack)) == t && Inv(ev, t)
  {
    StepKeepsInv(ev, s, ForceAccept(actor, reason, ack));
  }

  /** What is known once a record has been decided for. */
  lemma RecordFacts(ev: Evidence, s: State, action: Action, actor: string, reason: string)
    requires RecordOutcome(ev, s, action, actor, reason).Done?
    ensures ChainReads(ev, s) && RecordOutcome(ev, s, action, actor, reason).value.runId == ev.runId
    ensures Genuine(s.chain, ev.runId, None)
  {
  }

  /** A sealed run's directory: receipt files, override file and score set, changed in place. */
  class RunDirectory {
    const evidence: Evidence
    var receipts: Files
    var forced: Option<Override>
    var score: Option<ScoreFile>
    ghost var chain: seq<Receipt>
    ghost var torn: bool

    ghost predicate Valid()
      reads this
    {
      Stores(receipts, chain, torn) && Inv(evidence, Abstract())
    }

    ghost function Abstract(): State
      reads this
    {
      State(chain, forced, score, torn)
    }

    constructor (evidence: Evidence, score: Option<ScoreFile>)
      ensures Valid() && this.evidence == evidence && Abstract() == Initial(score)
    {
      this.evidence := evidence;
      receipts, forced, this.score, chain, torn := map[], None, score, [], false;
    }

    method ReadChain() returns (r: Result<seq<Receipt>>)
      requires Valid()
      ensures r == if ChainReads(evidence, Abstract()) then Ok(chain) else Err
    {
      r := ReadReceipts(receipts, evidence.runId, Some(evidence.finalHash), chain, torn);
    }

    method Decide(action: Action, actor: string, reason: string) returns (r: Outcome<Receipt>)
      requires Valid()
      ensures r == RecordOutcome(evidence, Abstract(), action, actor, reason)
    {
      if Blank(actor) || Blank(reason) { return Refused(BlankText); }
      var pre := Preconditions(evidence, score);
      if pre.Refused? { return Refused(pre.why); }
      var read := ReadChain();
      if read.Err? { return Refused(ChainUnreadable); }
      r := Judge(evidence, read.value, pre.value, action, actor, reason);
    }

    /** Decides, then counts the files once more and writes the next one. */
    method Record(action: Action, actor: string, reason: string) returns (r: Outcome<Receipt>)
      requires Valid()
      modifies this
      ensures Valid() && forced == old(forced) && score == old(score)
      ensures Abstract() == Apply(evidence, old(Abstract()), Op.Record(action, actor, reason))
      ensures r == RecordOutcome(evidence, old(Abstract()), action, actor, reason)
      ensures chain == old(chain) + (if r.Done? then [r.value] else []) && torn == old(torn)
      ensures r.Done? <==> Recordable(evidence, old(Abstract()), action, actor, reason)
      ensures r.Done? ==>
        && r.value.runId == evidence.runId && r.value.action == action && r.value.actor == actor && r.value.reason == reason
        && r.value.finalHash == evidence.finalHash
        && r.value.score == (match score case None => None case Some(file) => Some(file.digest))
        && evidence.completion.Some? && r.value.revision == (if action == Accepted then evidence.completion.value.head else None)
        && (r.value.independent <==> actor != evidence.executor)
    {
      hide Recordable, RecordOutcome, Inv, Stores, Genuine, ChainReads;
      ghost var s := Abstract();
      r := Decide(action, actor, reason);
      StepKeepsInv(evidence, s, Op.Record(action, actor, reason));
      RecordExactly(evidence, s, action, actor, reason);
      if r.Done? {
        RecordFacts(evidence, s, action, actor, reason);
        Append(r.value, |Text(r.value)|);
      }
      assert Abstract() == Apply(evidence, s, Op.Record(action, actor, reason));
    }

    /** The same for a process that dies after writing `stop` characters of the receipt. */
    method StoppedRecord(action: Action, actor: string, reason: string, stop: nat) returns (r: Outcome<Receipt>)
      requires Valid()
      modifies this
      ensures Valid() && forced == old(forced) && score == old(score)
      ensures Abstract() == Apply(evidence, old(Abstract()), Op.StoppedRecord(action, actor, reason, stop))
      ensures r == RecordOutcome(evidence, old(Abstract()), action, actor, reason)
      // The receipt counts exactly if at most its final line break is missing; otherwise it lies torn beside the chain.
      ensures r.Done? <==> Recordable(evidence, old(Abstract()), action, actor, reason)
      ensures chain == old(chain) + (if r.Done? && stop + 1 >= |Text(r.value)| then [r.value] else [])
      ensures torn <==> old(torn) || (r.Done? && stop + 1 < |Text(r.value)|)
    {
      hide Recordable, RecordOutcome, Inv, Stores, Genuine, ChainReads;
      ghost var s := Abstract();
      r := Decide(action, actor, reason);
      StepKeepsInv(evidence, s, Op.StoppedRecord(action, actor, reason, stop));
      RecordExactly(evidence, s, action, actor, reason);
      if r.Done? {
        RecordFacts(evidence, s, action, actor, reason);
        Append(r.value, if stop <= |Text(r.value)| then stop else |Text(r.value)|);
      }
      assert Abstract() == Apply(evidence, s, Op.StoppedRecord(action, actor, reason, stop));
    }

    /** Creates the next file and writes `k` characters of the receipt into it. */
    method Append(receipt: Receipt, k: nat)
      requires Stores(receipts, chain, false) && !torn && |chain| <= MAX_RECEIPTS && Genuine(chain, receipt.runId, None)
      requires k <= |Text(receipt)|
      modifies this`receipts, this`chain, this`torn
      ensures Stores(receipts, chain, torn) && torn == (k + 1 < |Text(receipt)|)
      ensures chain == if torn then old(chain) else old(chain) + [receipt]
    {
      receipts := WriteReceipt(receipts, receipt, k, chain);
      if k + 1 >= |Text(receipt)| { chain := chain + [receipt]; } else { torn := true; }
    }

    method DecideForce(actor: string, reason: string, acknowledgement: string) returns (r: Outcome<Override>)
      requires Valid()
      ensures r == ForceOutcome(evidence, Abstract(), actor, reason, acknowledgement)
    {
      var pre := ForcePreconditions(evidence, forced, actor, reason, acknowledgement);
      if pre.Some? { return Refused(pre.value); }
      var read := ReadChain();
      if read.Err? { return Refused(ChainUnreadable); }
      if Prior(read.value) == Some(Accepted) { return Refused(AlreadyTerminal); }
      r := Done(Override(actor, reason, evidence.finalHash, Failures(evidence, read.value)));
    }

    method ForceAccept(actor: string, reason: string, acknowledgement: string) returns (r: Outcome<Override>)
      requires Valid()
      modifies this`forced
      ensures Valid()
      ensures Abstract() == Apply(evidence, old(Abstract()), Op.ForceAccept(actor, reason, acknowledgement))
      ensures r == ForceOutcome(evidence, old(Abstract()), actor, reason, acknowledgement)
      ensures r.Done? <==> Forceable(evidence, old(Abstract()), actor, reason, acknowledgement)
      ensures forced == if r.Done? then Some(r.value) else old(forced)
    {
      hide Apply, ForceOutcome, Forceable, Inv, Stores;
      ghost var s := Abstract();
      r := DecideForce(actor, reason, acknowledgement);
      ForceStep(evidence, s, actor, reason, acknowledgement, r);
      ForceExactly(evidence, s, actor, reason, acknowledgement);
      if r.Done? { forced := Some(r.value); }
      assert Abstract() == if r.Done? then s.(forced := Some(r.value)) else s;
    }

    method IsApproved() returns (r: bool)
      requires Valid()
      ensures r <==> Approved(evidence, Abstract())
      ensures r ==
        (evidence.receiptRunId == evidence.runId && HasRevision(evidence) &&
        (forced.Some? || (Prior(chain) == Some(Accepted) && !torn && |chain| <= MAX_RECEIPTS)))
    {
      ApprovedExactly(evidence, Abstract());
      if evidence.receiptRunId != evidence.runId || evidence.completion == None || !HasRevision(evidence) { return false; }
      if forced.Some? { return forced.value.finalHash == evidence.finalHash; }
      var read := ReadChain();
      if read.Err? { return false; }
      var d := ChainDisposition(evidence, read.value);
      r := d == Done(Some(Recorded(Accepted)));
    }

    method VerifyArchiveCandidate() returns (r: Option<Refusal>)
      requires Valid()
      ensures r == ArchiveRefusal(evidence, Abstract())
    {
      r := ArchiveEvidence(evidence);
      if r.Some? { return; }
      var read := ReadChain();
      if read.Err? { return Some(ChainUnreadable); }
      r := ArchiveChain(evidence, read.value, score);
    }
  }
}
