# Durable state of agent-workflow: a verified model

agent-workflow keeps its state in append-only journals, lease files, receipt chains and an index that
can be rebuilt. This project models the parts where correctness is a matter of whole runs, with
crashes and interleavings, and proves what they keep.

Check everything with `dafny verify dfyconfig.toml`.

| file | what it models |
|---|---|
| `AgentNameLease.dfy`, `NameAllocation.dfy` | exclusive agent names: claim, publication, death, rollback and release as interleaved micro-steps; automatic names |
| `JournalCodec.dfy`, `Journal.dfy` | journal bytes, strict decoding, bounded transactions, short writes and crashes |
| `Messages.dfy` | the message log of a run and the steering counters derived from it |
| `ConsumerCursor.dfy`, `CursorProtocol.dfy`, `CursorStore.dfy` | cursor reconstruction, the commit-then-advance protocol, the store that runs it |
| `ExternalBinding.dfy`, `BindingGate.dfy` | the event-sourced worker binding, and deliveries interleaved with it |
| `HostProjection.dfy` | write-ahead retirement of host handles by one crashing reconciler |
| `IndexSync.dfy` | incremental index sync against a rebuild |
| `ReceiptText.dfy`, `ReceiptFiles.dfy`, `ReceiptChain.dfy`, `Lifecycle.dfy` | receipt texts, files and chains, review and acceptance, and the two modules that judge the chain |
| `DependencyGraph.dfy`, `JsonPointer.dfy` | cycle search, ancestors, JSON Pointer (RFC 6901) |
| `Checkpoint.dfy` | the semantic checkpoint gate |
| `EvidenceManifest.dfy` | the evidence manifest: walk, capture, load, verify |
| `Decimal.dfy`, `Numerals.dfy`, `TextOrder.dfy`, `SlashPaths.dfy`, `Wrappers.dfy` | numerals, string order, slashes and optional values, used by the others |

Protocols are state machines (`State`, `Enabled`, `Apply`, runs as event sequences) whose steps are the
atomic actions of the code; a crash or a death is a step of its own. Objects that change in place are
classes whose methods are proved against functions of the old state. Loops stay loops.

## What the code does not promise

Where a natural property fails, the model keeps the code as it is, gives the failing input and proves
the exact condition under which the property holds.

- **Two runs can hold one agent name.** A claimer that finds no status for the leased run and then
  probes the leased process is misled when that process publishes and exits in between. Names are
  exclusive in all runs without such an exit (`NamesAreExclusive`); each such exit can be completed to a double
  holding (`ExitInWindowIsUnsafe`, `DoubleHolding`).
- **An exit may be recorded for a lost generation**, since recording an exit does not hold the binding
  gate: exactly when something bound or unbound between its check and its record (`DeliveriesAreCurrent`, `StaleExitExample`).
- **Rebuilding a cursor can depend on the order of the evidence**, because the last entry for a message wins:
  entries may disagree in the source sequence, which decides between success and failure, or, for the last
  covered record, in disposition and time, which the cursor copies. `OrderSensitive` is the exact condition
  under which two orders give different results (`OrderMattersExactly`, `OrderSensitiveExample`).
- **A sync can differ from a rebuild** when a workflow identifier still belongs to a run that the same
  sync visits later or prunes at its end: exactly then (`SyncEqualsRebuild`). Further syncs repair it exactly
  when the old owner is gone, or neither it nor a run after it has the workflow (`SyncsSettleExactly`); otherwise
  they never do (`NeverRepairedExample`). With distinct workflow identifiers the second sync always does.
- **A full binding journal is stuck.** After 4096 events no operation changes the binding, so a worker that was bound
  once and observed 4095 times can never be unbound (`FilledBindingStaysBound`); unbinding takes effect exactly
  when there is nothing to unbind or the journal has room (`UnbindTakesEffectExactly`). Likewise a host handle is
  retired only if the host journal has room for what is still to be written (`PendingIsRetired`).
- **A force-accepted run need not count as approved**: exactly when the completion names no head revision,
  which the completion schema allows (`ForcedIsApproved`, `ForcedWithoutApproval`).
- **A forced acceptance may list a gate failure that is none** (`NeedlessForceExample`). The catch-all is written
  whenever the four gates that forcing looks at pass, and is untrue exactly when the gates it does not look at
  hold as well (`CatchAllIsUntrueExactly`, `CatchAllIsUntrueOfSomebody`). Every other listed failure is a gate
  that alone refuses acceptance (`ListedFailuresAreReal`).
- **An accepted, archivable run need not count as approved**: acceptance and archiving do not look at the run
  named in the final receipt, approval does (`ArchivableIsApproved`, `AcceptedIsApprovedAndArchivable`, `MisfiledReceiptExample`).
- **A torn receipt ends the review.** Receipts are written in place, so a process that dies while writing one leaves
  a file that the reader refuses, unless at most the final line break is missing (`StoppedReceiptBlocks`). Then
  every later record and forced acceptance is refused, and the run counts as approved only if it was forced
  before (`TornReceiptEndsReview`).
- **The millionth receipt blocks its chain**: it is written under a seven-digit name that the reader refuses
  (`MillionthReceiptBlocks`).
- **Array indexes in JSON Pointers** may use digits outside ASCII, and more than 4300 digits raise an error
  that is not a workflow error: exactly the `Suspicious` tokens (`IndexingIsStandard`, `ForeignDigitSelects`,
  `ForeignDigitRaises`). A pointer resolves against the standard exactly when it is `Misread` (`PointerFindsNode`):
  meeting a misread index is not enough, since the rest of the path may be absent below the wrong item
  (`MaskedMisread`), but it is enough to go wrong at some step (`EveryStepFindsNode`).
- **A captured manifest may never verify**: exactly when it exceeds 16 MiB, or a file-containing directory's name is
  a proper prefix of the name of a sibling file or file-containing directory that goes on with a character below
  the slash, such as `a` beside `a.txt` (`VerifiesExactly`, `CapturedButUnverifiable`).
- **Processing commits the target's effect before it looks at the disposition**, so an unknown disposition
  leaves a committed effect and an unmoved cursor (`CommittedButNotAdvanced`, `UnknownDispositionExample`).

## Assumptions

- Process identifiers are not reused; an inactive run never becomes active again; one run identifier is
  not prepared afresh while another process works on it. Preparing an already published run again, and
  the rollback that then drops that run's lease, are part of the model.
- A digest stands for its content, and an equal source fingerprint of one run for equal content.
- Status files, score sets and override files are read and replaced atomically; a lifecycle receipt is not, and
  is written by one process at a time. A target receipt that passes its checks means the target's effect is
  durable, and the target applies a message at most once.
- Clocks and fresh identifiers are inputs.

## Model

| member | source | states |
|---|---|---|
| AgentNameLease.StepKeepsInv | src/agent_workflow/agent_identity.py:433-516 | every micro-step of claim, publish, die, end, roll back and release that is not an exit inside a probe window keeps the invariant tying leases, locks, statuses and what each claimer has read |
| AgentNameLease.NamesAreExclusive | src/agent_workflow/agent_identity.py:433-480 | in every interleaving without such an exit, no two runs hold one agent name, where holding is an active status or a live claimant without one |
| AgentNameLease.WindowBreaksExclusion | src/agent_workflow/agent_identity.py:455-466 | in every state satisfying the invariant, an exit inside the window followed by two steps of the waiting claimer gives a double holding |
| AgentNameLease.ExitInWindowIsUnsafe | src/agent_workflow/agent_identity.py:455-466 | every run that contains such an exit has a prefix that two more steps turn into a double holding, so the condition is exact |
| AgentNameLease.DoubleHolding | src/agent_workflow/agent_identity.py:455-466 | for any two processes, runs and any name, a concrete run from the initial state in which both runs hold the name |
| AgentNameLease.HeldNameIsContended | src/agent_workflow/agent_identity.py:54-100 | in every protocol state a name held by another run is refused to everybody else |
| AgentNameLease.RollbackDropsLease | src/agent_workflow/agent_identity.py:483-516 | where the lock is free, a failed claimer or a repeated preparation of a published run can roll back, and has then dropped exactly that run's lease and changed no status |
| AgentNameLease.LeaseDirectory.ClaimAgentName | src/agent_workflow/agent_identity.py:433-480 | uninterrupted, a claim takes the lease exactly when no active status and no protected lease of another run stands in the way, and otherwise changes nothing |
| AgentNameLease.LeaseDirectory.ReleaseAgentName | src/agent_workflow/agent_identity.py:483-516 | a release removes exactly this run's leases, all or the named one |
| NameAllocation.FirstFreeNumber | src/agent_workflow/agent_identity.py:286-289 | the numbering loop ends within one try more than there are taken names and returns the least free number |
| NameAllocation.AllocateName | src/agent_workflow/agent_identity.py:280-289 | the first free preferred name, else the least free numbered one |
| NameAllocation.ClaimAutomaticName | src/agent_workflow/agent_runs.py:1212-1241 | the claim loop ends within one try more than there are contested names, with an unrefused name that was the first choice left, never offering a refused name again |
| NameAllocation.NextRetryId | src/agent_workflow/agent_runs.py:1935-1942 | the retry identifier is unused and has the least such number |
| JournalCodec.LineReadsBack | src/agent_workflow/journal.py:60-65 | parsing the canonical line of any record gives the record back |
| JournalCodec.TextIsUnbroken | src/agent_workflow/journal.py:60-65 | a canonical line holds no line break, whatever bytes the record holds |
| Journal.DecodeJsonl | src/agent_workflow/journal.py:224-262 | the decoding loop is the decoding function of the whole file, including which failure is reported first |
| Journal.DecodeMeaning | src/agent_workflow/journal.py:240-262 | a journal decodes to given records exactly when each line, on its own, is non-empty, within the record limit, parses to the record in its place, stands in sequence, passes the validator and is within the record count |
| Journal.ReadsExactly | src/agent_workflow/journal.py:224-262 | a file reads as given records exactly when it is within the byte limit, ends with a line feed or is empty, and its lines hold the records line by line |
| Journal.FailsExactly | src/agent_workflow/journal.py:240-262 | decoding fails exactly at the first line that holds no record, with the first demand that line fails |
| Journal.JoinsBack | src/agent_workflow/journal.py:240 | a terminated file without carriage returns is its lines, each followed by a line feed |
| Journal.ReturnsEndLines | src/agent_workflow/journal.py:240 | a carriage return, with or without a line feed after it, ends a line as a line feed does |
| Journal.SequencesAreConsecutive | src/agent_workflow/journal.py:248-262 | the sequence numbers of a readable sequenced journal are 1..n |
| Journal.CompleteAppend | src/agent_workflow/journal.py:330-340 | after a complete append the file reads as the old records and the new one exactly when the reader accepts the record at that position |
| Journal.StoppedAppend | src/agent_workflow/journal.py:288-340 | an append that stops after any number of bytes leaves the old records, the old records and the new one, or a truncation failure |
| Journal.HistoryStaysReadable | src/agent_workflow/journal.py:297-340 | a readable journal stays readable under its limits after every sequence of transactions, with the old records an unchanged prefix |
| Journal.EveryRecordIsKept | src/agent_workflow/journal.py:297-340 | records the reader accepts, proposed one after another to a journal with room for all of them, are all kept, in order |
| Journal.UnreadableIsFrozen | src/agent_workflow/journal.py:297-340 | an unreadable journal is never written again |
| Journal.CrashesOnlyTruncate | src/agent_workflow/journal.py:288-340 | over every history whose transactions may each stop at any byte, the journal reads as growing prefixes until the first torn line, and is then truncated and unchanged for ever |
| Journal.JournalFile.WriteAll | src/agent_workflow/journal.py:288-294 | whatever the kernel reports, the file grows by a prefix of the line, and by all of it when no write fails |
| Journal.JournalFile.Transact | src/agent_workflow/journal.py:297-340 | a proposed record is refused exactly when its line exceeds the record limit, file and line exceed the byte limit, or the journal holds its full count, each with its own refusal; otherwise it is committed when every write makes progress, and the file has grown by the line or a prefix of it |
| Journal.JournalFile.Append | src/agent_workflow/journal.py:343-366 | refused exactly when the validator rejects the record or it does not fit; a committed record is read back after the old ones |
| Messages.ValidateMessageLog | src/agent_workflow/messages.py:244-261 | the validation loop accepts exactly the logs in which identifiers are unique and every acknowledgement answers an earlier, unanswered steer |
| Messages.ValidLogMeaning | src/agent_workflow/messages.py:184-261 | the checks of each message against those before it accept exactly the logs of one run with distinct identifiers, numbered 1..n, shaped as their kinds demand, in which every acknowledgement alone answers an earlier steer |
| Messages.FirstMatchDecides | src/agent_workflow/messages.py:251-255 | because identifiers are unique, the first message with an identifier decides whether an acknowledgement answers a steer |
| Messages.FirstMatchCanHide | src/agent_workflow/messages.py:251-255 | with a reused identifier the first match hides a later steer, so the uniqueness check must come first |
| Messages.MayFollow | src/agent_workflow/messages.py:263-274 | the scan with its first-match lookup accepts exactly the messages that may extend a log of unique identifiers |
| Messages.AppendAgreesWithReplay | src/agent_workflow/messages.py:263-274 | the check before an append and the check of the whole log on replay accept the same messages |
| Messages.MessageLog.AppendMessage | src/agent_workflow/messages.py:277-324 | the log grows by the message exactly when the old log is valid, all of this run, and stays valid with it, and is unchanged otherwise |
| Messages.SteeringIsConserved | src/agent_workflow/metrics.py:122-156 | on every valid log, steers are acknowledged plus pending ones, and every steer and acknowledgement counts once |
| ConsumerCursor.ValidateSourceRecords | src/agent_workflow/consumer_cursors.py:212-232 | accepts exactly bounded first-in-first-out journals without a repeated identifier |
| ConsumerCursor.ValidLogIsSource | src/agent_workflow/consumer_cursors.py:212-232 | every valid message log is such a journal, up to the replay bound |
| ConsumerCursor.IndexEvidence | src/agent_workflow/consumer_cursors.py:317-326 | succeeds exactly on well-formed evidence without two digests for one message, and keeps the last entry of each |
| ConsumerCursor.ReconstructCursor | src/agent_workflow/consumer_cursors.py:310-346 | the two loops compute the reconstruction function |
| ConsumerCursor.ReconstructMeaning | src/agent_workflow/consumer_cursors.py:310-346 | on bounded journals and bounded, well-formed evidence without two digests for one message, reconstruction stands at k exactly when k is the longest covered prefix and the record that ends it has no evidence; it fails otherwise |
| ConsumerCursor.OrderDoesNotMatter | src/agent_workflow/consumer_cursors.py:319-346 | unless some record in the prefix has both fitting and contradicting evidence, or the last one has fitting entries of different disposition or time, order and repetition of the evidence do not change the rebuilt cursor |
| ConsumerCursor.MixedEvidenceMatters | src/agent_workflow/consumer_cursors.py:319-346 | fitting and contradicting evidence for one record of the prefix: one reordering succeeds and another fails |
| ConsumerCursor.SensitiveEvidenceDiffers | src/agent_workflow/consumer_cursors.py:338-344 | under the order-sensitivity condition two reorderings of the evidence give different results |
| ConsumerCursor.OnlySensitiveEvidenceDiffers | src/agent_workflow/consumer_cursors.py:319-346 | without that condition every order and repetition gives the same cursor, disposition and time included, or fails alike |
| ConsumerCursor.OrderMattersExactly | src/agent_workflow/consumer_cursors.py:310-346 | all orders and repetitions of the evidence give one result exactly when the evidence is not order sensitive |
| ConsumerCursor.OrderSensitiveExample | src/agent_workflow/consumer_cursors.py:338-344 | two entries for one record whose order changes the disposition and time of the cursor, and two whose order decides between success and failure |
| CursorProtocol.RebuiltIsCovered | src/agent_workflow/consumer_cursors.py:310-346 | a rebuilt cursor never stands beyond what the target has applied |
| CursorProtocol.StepKeepsInv | src/agent_workflow/consumer_cursors.py:449-526 | commit, advance, crash, loss, corruption, evidence and rebuild each keep the effects a prefix of the journal at or beyond the cursor |
| CursorProtocol.EffectsArePrefix | src/agent_workflow/consumer_cursors.py:449-526 | over every run the applied effects are a prefix of the source journal never shorter than the cursor: nothing skipped, doubled or out of order |
| CursorProtocol.AtMostOneAhead | src/agent_workflow/consumer_cursors.py:449-503 | under processing alone the target is at most one record ahead of the cursor |
| CursorProtocol.ReplayCompletes | src/agent_workflow/consumer_cursors.py:449-503 | from every reachable readable state, replaying the journal ends with every record applied once and the cursor at the end |
| CursorProtocol.LossIsRecovered | src/agent_workflow/consumer_cursors.py:310-526 | from every reachable state with a free lock, a cursor lost after a new record, or damaged and removed, is followed by a replay that applies every record exactly once and ends at the end |
| CursorStore.Store.Process | src/agent_workflow/consumer_cursors.py:449-503 | the cursor advances exactly on a valid record that is the next after this consumer's cursor, with a committed receipt for its identifier and digest, a known disposition and no crash; duplicates and earlier records are recognised without reaching the target; and the call is a run of the protocol |
| CursorStore.ProcessRuns | src/agent_workflow/consumer_cursors.py:449-503 | the events of a process call are a run of the protocol from every reachable state |
| CursorStore.CommittedButNotAdvanced | src/agent_workflow/consumer_cursors.py:480-503 | a call leaves a committed effect and an unmoved cursor exactly when it reaches a target that takes the effect and then the receipt, the process or the disposition fails |
| CursorStore.UnknownDispositionExample | src/agent_workflow/consumer_cursors.py:480-503 | a perfect receipt with an unknown disposition: the effect is committed and the cursor unmoved |
| CursorStore.Store.CompareAndUpdate | src/agent_workflow/consumer_cursors.py:409-447 | on every protocol state whose target has applied the record, an update is one protocol event, and with a matching receipt at the expected position it succeeds exactly when that event is enabled |
| CursorStore.Store.ReadOrReconstruct | src/agent_workflow/consumer_cursors.py:505-526 | the store ends at the rebuilt position or unchanged; on every protocol state that holds the journal and the evidence it succeeds exactly when the rebuild does and is a run of the protocol |
| CursorStore.RebuildRuns | src/agent_workflow/consumer_cursors.py:505-526 | a rebuild from known records and evidence is a begun and a finished rebuild of the protocol, and replaces the file only if position or disposition differ |
| ExternalBinding.Replay | src/agent_workflow/external_bindings.py:81-129 | the projection loop is the replay function |
| ExternalBinding.ReplayMeaning | src/agent_workflow/external_bindings.py:81-129 | a journal that replays shows its last bound event, unless it has been unbound since, and the time of its last event |
| ExternalBinding.ReplaysExactly | src/agent_workflow/external_bindings.py:81-129 | a journal replays exactly when every event is of the run and observes or ends the last binding before it, by worker and generation |
| ExternalBinding.OperationReturnsReplay | src/agent_workflow/external_bindings.py:159-278 | the value bind, observe and unbind return is the replay of the journal they leave |
| ExternalBinding.ReachableJournalsAreSound | src/agent_workflow/external_bindings.py:81-278 | on every reachable journal every prefix replays, the generation is the number of bound events, and the worker never changes |
| ExternalBinding.RepeatsWriteNothing | src/agent_workflow/external_bindings.py:159-267 | repeating bind or unbind writes nothing and returns the same binding |
| ExternalBinding.FullJournalIsFrozen | src/agent_workflow/external_bindings.py:194-278 | once 4096 events are written no sequence of operations changes the journal |
| ExternalBinding.UnbindTakesEffectExactly | src/agent_workflow/external_bindings.py:246-267 | a worker is unbound after unbind exactly when it was already or the journal has room |
| ExternalBinding.FilledBindingStaysBound | src/agent_workflow/external_bindings.py:206-267 | a worker bound once and observed 4095 times stays bound under every later sequence of operations |
| ExternalBinding.BindingJournal.Operate | src/agent_workflow/external_bindings.py:147-278 | an operation is refused exactly when malformed, for an observation while unbound, or for a write to a full journal; a bind leaves exactly the given pair bound, one generation up and with one event exactly when unbound or bound to another pair before; an observation writes its time; an unbind ends the binding with one event exactly when there is one |
| BindingGate.ObservingKeepsCurrent | src/agent_workflow/external_bindings.py:206-239 | observing cannot take the generation from an authorized report |
| BindingGate.DeliveryGoesThrough | src/agent_workflow/external_bindings.py:441-471 | a process that finds the gate free delivers for a generation exactly when the journal is bound at it, even with an observation in between, and leaves nothing else behind |
| BindingGate.GenerationLostForever | src/agent_workflow/external_bindings.py:323-331 | a generation once current is still current exactly when nothing has bound or unbound since |
| BindingGate.DeliveriesAreCurrent | src/agent_workflow/external_bindings.py:441-471 | in every interleaving each delivery is recorded when its generation is the bound one, and an exit exactly when nothing rebound since its check |
| BindingGate.StaleExitExample | src/agent_workflow/external_bindings.py:375-421 | a run in which an exit is recorded for a generation already unbound |
| HostProjection.Replay | src/agent_workflow/external_host_projection.py:58-73 | the projection loop is the replay function |
| HostProjection.RecordsAreNamed | src/agent_workflow/external_host_projection.py:58-73 | replay makes a record for exactly the workers that some event names |
| HostProjection.RecordIsLastEvent | src/agent_workflow/external_host_projection.py:58-73 | the record of a worker has the handle, the time, the stage and, after an intent, the status of the last event that names it |
| HostProjection.HistoriesAreValid | src/agent_workflow/external_host_projection.py:122-166 | after any calls with crashes anywhere, every close was of the registered handle after a durable intent, and every retirement follows a successful close |
| HostProjection.ReconcileMeaning | src/agent_workflow/external_host_projection.py:136-166 | a reconciliation changes nothing unless the views name a live, registered, unretired worker of this run with a fresh terminal status; then the intent is written exactly when none is durable, the host is called exactly once with the registered handle unless another was expected, and the retirement is written exactly after a call that succeeded, each step with room in the journal and no crash before it |
| HostProjection.EndedWorkerIsRetired | src/agent_workflow/external_host_projection.py:122-166 | from the empty journal a registered worker that has ended is closed once, after its intent, and then retired |
| HostProjection.IntentIsDurable | src/agent_workflow/external_host_projection.py:156-160 | after the write-ahead step the record is durably pending with its handle |
| HostProjection.EventMovesOneStage | src/agent_workflow/external_host_projection.py:58-73 | an event moves its own key exactly one stage and touches no other |
| HostProjection.StagesOnlyAdvance | src/agent_workflow/external_host_projection.py:58-73 | every key moves only open, pending, retired, with one handle, whatever other generations do |
| HostProjection.RetiredIsFinal | src/agent_workflow/external_host_projection.py:136-166 | no later call moves or closes a retired record |
| HostProjection.PendingIsRetired | src/agent_workflow/external_host_projection.py:136-166 | a reconciliation that finds its target and survives a successful close retires it, from whatever stage a crash left, exactly when the journal has room for the events still to be written |
| HostProjection.ExternalHostProjection.RegisterHandle | src/agent_workflow/external_host_projection.py:122-134 | registration is refused exactly for an unbound or mismatched worker, an empty or different handle, or a new worker in a full journal, and writes one event exactly for a new worker |
| HostProjection.ExternalHostProjection.ReconcileRun | src/agent_workflow/external_host_projection.py:136-166 | the new journal and the host calls are exactly those, and `retired` is returned exactly when the named worker has ended and its record is then retired |
| IndexSync.SyncEqualsRebuild | src/agent_workflow/index_store.py:576-701 | a full sync from any earlier index equals a rebuild exactly when no run is blocked by a stale owner of its workflow identifier |
| IndexSync.RebuildMatches | src/agent_workflow/index_store.py:682-701 | a rebuild gives every run its projection, an error row, or an error row because an earlier run has its workflow |
| IndexSync.BlockedSyncDiffers | src/agent_workflow/index_store.py:217-249 | a blocked run ends as an error row that a rebuild would not have |
| IndexSync.BlockedAgainExactly | src/agent_workflow/index_store.py:576-664 | what a sync leaves blocked for the next one is exactly what stays blocked: the old owner is discovered, and it or a run after it has the workflow |
| IndexSync.SyncsSettleExactly | src/agent_workflow/index_store.py:576-701 | after two or more syncs of unchanged sources the index equals a rebuild exactly when no run stays blocked in the old index |
| IndexSync.NeverRepaired | src/agent_workflow/index_store.py:576-701 | while a run stays blocked no number of syncs gives what a rebuild gives |
| IndexSync.NeverRepairedExample | src/agent_workflow/index_store.py:217-249 | a new run that shares the workflow of a later, current run: no number of syncs gives what a rebuild gives |
| IndexSync.SecondSyncRepairs | src/agent_workflow/index_store.py:576-664 | with distinct workflow identifiers, the next sync equals a rebuild |
| IndexSync.StaleOwnerExample | src/agent_workflow/index_store.py:625-640 | a concrete index and source on which sync and rebuild differ |
| IndexSync.SyncLeavesNothingStale | src/agent_workflow/index_store.py:576-664 | right after a full sync in which no run failed, every run is up to date and no row lacks a source |
| IndexSync.IndexStore.Sync | src/agent_workflow/index_store.py:576-664 | the loop computes the sync function; its report lists as skipped, in order, exactly the runs whose old row was current at the same place and fingerprint, as errors exactly those whose row has failed, as indexed the others, and as pruned exactly the rows without a source |
| IndexSync.IndexStore.RebuildIndex | src/agent_workflow/index_store.py:682-701 | the rebuilt index is a forced sync from nothing; nothing is skipped or pruned, errors are exactly the failed rows, and every other run is listed as indexed |
| IndexSync.IndexStore.Status | src/agent_workflow/index_store.py:704-799 | what the freshness verdict and the two counts mean |
| ReceiptChain.NameReadsExactly | src/agent_workflow/lifecycle.py:24 | a name reads as a number and an action exactly when it is the name written for them and the number has at most six digits |
| ReceiptChain.NamesSortNumerically | src/agent_workflow/lifecycle.py:76-83 | six-digit names sort in numeric order whatever their actions |
| ReceiptChain.LifecycleReceipts | src/agent_workflow/lifecycle.py:56-112 | the reader returns a chain exactly when the directory holds that chain, it is genuine and it has at most 999999 receipts |
| ReceiptChain.AppendHolds | src/agent_workflow/lifecycle.py:172-184 | the next receipt's file never exists yet, and the directory then holds the longer chain |
| ReceiptChain.ReadAfterAppend | src/agent_workflow/lifecycle.py:76-184 | reading after an append gives the old chain plus the new receipt, up to 999999 |
| ReceiptChain.MillionthReceiptBlocks | src/agent_workflow/lifecycle.py:172-173 | the directory after an append is readable exactly when the chain had fewer than 999999 receipts and all are genuine |
| ReceiptText.ReceiptReadsBack | src/agent_workflow/lifecycle.py:27-46 | the text written for a receipt reads back as that receipt |
| ReceiptText.CutReceiptReads | src/agent_workflow/lifecycle.py:174-182 | the first k characters of a receipt's text read as it when at most the final line break is missing, and as no receipt otherwise |
| ReceiptFiles.StoppedReceiptBlocks | src/agent_workflow/lifecycle.py:172-184 | the directory after an append that stops after k characters is readable exactly when at most the final line break is missing, the chain had room and all receipts are genuine |
| ReceiptFiles.ReadReceipts | src/agent_workflow/lifecycle.py:56-112 | on a directory that holds a chain, torn or whole, the reader returns the chain exactly when nothing is torn, it fits six digits and it is genuine |
| ReceiptFiles.WriteReceipt | src/agent_workflow/lifecycle.py:172-184 | writing k characters of the next receipt leaves the longer chain, or the old one with a torn receipt beside it |
| Lifecycle.AcceptanceIsProper | src/agent_workflow/lifecycle.py:197-303 | on every reachable chain an accepted receipt is last, directly follows a review of the same score set, names the head revision, and in a high tier neither actor nor reviewer is the executor |
| Lifecycle.RecordExactly | src/agent_workflow/lifecycle.py:306-403 | when each action succeeds: on whole, completed evidence and a readable chain a review opens the chain or follows a rejection, a rejection follows anything but an acceptance, and an acceptance follows a review and passes every gate; and what its receipt holds |
| Lifecycle.ChainRefusal | src/agent_workflow/lifecycle.py:224-238 | on such evidence the refusal says whether the chain is already accepted, not reviewed, or already reviewed |
| Lifecycle.ForceExactly | src/agent_workflow/approval.py:42-130 | when acceptance can be forced, and that the override lists exactly the failing gates, or the catch-all when none fails |
| Lifecycle.ApprovesExactly | src/agent_workflow/approval.py:133-204 | what approval makes of any directory, reachable or not: a head revision, the right final receipt, and a force on this evidence or an acceptance of that revision right after a review of the same score |
| Lifecycle.ArchivesExactly | src/agent_workflow/archive.py:56-110 | what the archive makes of any directory: completed and validly collected, accepted on the sealed head, with the accepted score set still in place and valid |
| Lifecycle.ApprovedExactly | src/agent_workflow/approval.py:133-204 | when a reachable run counts as approved |
| Lifecycle.ArchivableExactly | src/agent_workflow/archive.py:85-100 | when a reachable run may be archived |
| Lifecycle.ArchivableIsApproved | src/agent_workflow/archive.py:56-110 | what the archive takes is approved exactly when its final receipt names this run |
| Lifecycle.AcceptedIsApprovedAndArchivable | src/agent_workflow/lifecycle.py:369-403 | a successful acceptance is at once archivable and approved, except beyond six digits or, for approval, with a misfiled final receipt |
| Lifecycle.MisfiledReceiptExample | src/agent_workflow/approval.py:133-147 | a run accepted and archivable but not approved, because its final receipt names another run |
| Lifecycle.ForcedIsApproved | src/agent_workflow/approval.py:42-130 | a forced acceptance is approved exactly when the completion names a head revision |
| Lifecycle.ForcedWithoutApproval | src/agent_workflow/approval.py:145-147 | a run that is force-accepted and not approved |
| Lifecycle.ListedFailuresAreReal | src/agent_workflow/approval.py:73-81 | each failure other than the catch-all is listed exactly when its gate fails, and that gate alone refuses acceptance to every actor, for every reason and score set |
| Lifecycle.CatchAllStandsAlone | src/agent_workflow/approval.py:73-83 | the catch-all is listed exactly when no listed gate fails, and then alone |
| Lifecycle.CatchAllIsUntrueExactly | src/agent_workflow/approval.py:82-83 | whoever forces with the catch-all could have accepted normally exactly when run status, task result, score verdict, unchanged score, reviewer independence, policy and head revision pass and, in a high tier, the actor is not the executor |
| Lifecycle.CatchAllIsUntrueOfSomebody | src/agent_workflow/approval.py:82-83 | somebody could have accepted normally exactly when those gates pass, whoever the executor is |
| Lifecycle.NeedlessForceExample | src/agent_workflow/approval.py:82-83 | a reviewed run that normal acceptance takes is forced with the catch-all listed |
| Lifecycle.ApprovalIsForever | src/agent_workflow/approval.py:133-204 | no later operation and no change of the score set takes approval away |
| Lifecycle.AcceptedIsFinal | src/agent_workflow/lifecycle.py:224-238 | an accepted chain never changes again |
| Lifecycle.TornReceiptEndsReview | src/agent_workflow/lifecycle.py:172-184 | after a record that dies with its receipt torn, whatever follows, the chain stays, every record and forced acceptance is refused, archiving too, and approval holds only if it was forced before |
| Lifecycle.RunDirectory.Record | src/agent_workflow/lifecycle.py:306-432 | succeeds exactly so; the chain then ends in a receipt with the given action, actor and reason, the sealed hash, the score digest and, on acceptance alone, the head revision |
| Lifecycle.RunDirectory.StoppedRecord | src/agent_workflow/lifecycle.py:306-432 | the same decision for a process that dies after any number of characters: the receipt counts exactly when at most its final line break is missing, and otherwise lies torn beside the chain |
| Lifecycle.RunDirectory.ForceAccept | src/agent_workflow/approval.py:42-130 | succeeds exactly so, and changes only the override |
| Lifecycle.RunDirectory.IsApproved | src/agent_workflow/approval.py:133-204 | decides approval, in both its procedural and its direct form |
| Lifecycle.RunDirectory.VerifyArchiveCandidate | src/agent_workflow/archive.py:56-110 | decides archivability and names the first refusal |
| DependencyGraph.FindDependencyCycle | src/agent_workflow/manifests.py:148-174 | terminates; a returned list is a closed path of the graph; none is returned exactly on acyclic graphs, with a topological order |
| DependencyGraph.RankedIsAcyclic | src/agent_workflow/manifests.py:148-174 | a topological order rules out every closed path |
| DependencyGraph.CycleSearch.Visit | src/agent_workflow/manifests.py:153-168 | visiting a node returns a closed path, or finishes it with stack and marks as before |
| DependencyGraph.AncestorNodes | src/agent_workflow/bindings.py:68-78 | terminates with exactly the nodes reachable by one or more edges |
| DependencyGraph.OwnAncestorMeansCycle | src/agent_workflow/bindings.py:68-78 | a node is its own ancestor exactly when it lies on a closed path |
| JsonPointer.TokenReadsBack | src/agent_workflow/bindings.py:26-38 | decoding inverts the escaping of section 3 of RFC 6901 |
| JsonPointer.RejectsStrayTildes | src/agent_workflow/bindings.py:26-38 | decoding fails on exactly the stray tildes |
| JsonPointer.DecodeToken | src/agent_workflow/bindings.py:26-38 | the decoding loop is the decoding function |
| JsonPointer.IndexingIsStandard | src/agent_workflow/bindings.py:54-61 | a token indexes arrays as section 4 of RFC 6901 says exactly when it is all ASCII and short enough to convert, or no numeral at all |
| JsonPointer.MisreadIndexDiffers | src/agent_workflow/bindings.py:54-61 | on an array of a given length the code differs from the standard exactly on suspicious tokens that raise or select an item |
| JsonPointer.PointerFindsNode | src/agent_workflow/bindings.py:41-65 | for every document and path the encoded pointer resolves to the node there, and to missing when there is none, exactly when it is not misread |
| JsonPointer.EveryStepFindsNode | src/agent_workflow/bindings.py:41-65 | a path and all its prefixes resolve as the standard says exactly when the walk meets no misread index |
| JsonPointer.ForeignDigitSelects | src/agent_workflow/bindings.py:54-61 | an Arabic-Indic zero selects the first item of an array, where the standard finds nothing |
| JsonPointer.ForeignDigitRaises | src/agent_workflow/bindings.py:54-61 | a superscript two makes the pointer raise, where the standard finds nothing |
| JsonPointer.MaskedMisread | src/agent_workflow/bindings.py:41-65 | a path that meets a misread index and still resolves to missing, as the standard says |
| JsonPointer.ResolveJsonPointer | src/agent_workflow/bindings.py:41-65 | the resolution loop is the resolution function |
| Checkpoint.NormalizeContext | src/agent_workflow/decision_checkpoint.py:104-193 | succeeds exactly on complete contexts of bounded size and returns the one projection in draft order with its distinct sources |
| Checkpoint.BuildRequest | src/agent_workflow/decision_checkpoint.py:196-233 | a request exists exactly for valid drafts whose evidence references the context covers |
| Checkpoint.RequestMeaning | src/agent_workflow/decision_checkpoint.py:80-233 | a request exists exactly for a draft of two to sixteen distinct candidates with evidence and a complete, small enough context; it shows the candidates in the draft's order and lists each cited source once, among them all the draft's evidence |
| Checkpoint.JudgmentDoesNotInterfere | src/agent_workflow/decision_checkpoint.py:196-233 | drafts that differ only in the agent's judgment give every provider one request, so evidence, candidate and decisiveness are the same |
| Checkpoint.GapMeansLeader | src/agent_workflow/decision_checkpoint.py:274-279 | the gap of the two best scores passes exactly when one entry leads all others by the margin |
| Checkpoint.OutcomeMeaning | src/agent_workflow/decision_checkpoint.py:236-283 | agreement and disagreement: successful evidence names a candidate, with enough confidence, scores exactly the candidates, and puts it ahead of every other by the margin; uncertainty: too little confidence, or no candidate ahead |
| Checkpoint.SanctionedExactly | src/agent_workflow/decision_checkpoint.py:286-363 | which resolutions are taken, disposition by disposition, with the outcome, basis, choice and references each needs |
| Checkpoint.ConcludeMeaning | src/agent_workflow/decision_checkpoint.py:409-518 | a checkpoint is refused exactly when the resolution offered is not sanctioned for what the reply establishes; its receipt carries the provider's own evidence exactly when that answers this very request |
| Checkpoint.AdvanceIsJustified | src/agent_workflow/decision_checkpoint.py:286-377 | every advance is to a listed candidate and justified by its outcome, and nothing is applied otherwise |
| Checkpoint.ResolvedAdvancesOnChoice | src/agent_workflow/decision_checkpoint.py:366-377 | with a resolution the checkpoint succeeds exactly when it is valid and advances exactly when it names a choice, never past a failed provider under a blocking policy |
| Checkpoint.UnresolvedAdvancesOnAgreement | src/agent_workflow/decision_checkpoint.py:445-474 | without a resolution it advances exactly on agreement |
| Checkpoint.RunCheckpoint | src/agent_workflow/decision_checkpoint.py:380-518 | the receipt carries the provider's own evidence exactly when decision, request digest, question set and projector match or are absent, its outcome is what that evidence establishes, and it advances exactly to the choice of a sanctioned resolution or of an agreement; it is refused exactly without a request or with an unsanctioned resolution |
| EvidenceManifest.Walk | tools/evidence_cli.py:39-57 | fails on exactly the trees with a link, a special entry or a backslash, and otherwise lists every file once in component order |
| EvidenceManifest.Capture | tools/evidence_cli.py:90-100 | succeeds on exactly the clean directories with a file, with every file's path, size and digest |
| EvidenceManifest.Load | tools/evidence_cli.py:103-128 | accepts exactly bounded, non-empty manifests in strictly ascending flat order whose paths have no empty, `.` or `..` component and no backslash, with no negative size |
| EvidenceManifest.FlatAgrees | tools/evidence_cli.py:115-122 | for two files in component order, flat order agrees exactly when they do not clash |
| EvidenceManifest.CaptureLoads | tools/evidence_cli.py:90-128 | the loader takes a captured manifest exactly when no siblings of the tree clash |
| EvidenceManifest.ManifestsAgree | tools/evidence_cli.py:90-136 | two clean trees give one manifest exactly when they hold the same files with the same contents |
| EvidenceManifest.VerifiesExactly | tools/evidence_cli.py:131-136 | a captured manifest verifies against a tree exactly when files and contents are the same, nothing clashes and the manifest fits |
| EvidenceManifest.Verify | tools/evidence_cli.py:131-136 | verification succeeds exactly so, and counts the artifacts |
| EvidenceManifest.CapturedButUnverifiable | tools/evidence_cli.py:115-122 | a directory `a` beside a file `a.txt` is captured and never verifies |

## Left out

- Operating-system mechanics (descriptors, locks as files, syncing, signals) are atomic steps, lock ownership or crash points.
- JSON other than the canonical flat records a journal writes, and UTF-8 validity; `require_trailing_newline=False`, which no caller uses.
- The schema and time fields of a lifecycle receipt, escapes other than those of quote, backslash and line feed in its text, and any other layout of that text.
- Schema validation beyond the fields named in the models, identifier syntax, stripping of texts before they are stored, and the wording of errors.
- `retire_external_agent` and the judging of statuses by processes and heartbeats: a status is active or not.
- The byte limits of the binding and host journals; their event limit is modelled.
- Concurrent `record` calls and concurrent reconcilers: the code takes no lock there, and the models are sequential.
- AgentNameLease.LeaseDirectory.ClaimAgentName: states the uninterrupted call; interleavings are in the protocol lemmas.
- Index scope of a single run or without archived runs, discovery, fingerprint computation and its exceptions, and the columns of each table.
- The second directory listing that capture makes, because the tree does not change during a capture; digest syntax in the loader; names that UTF-8 cannot encode.
- Checkpoint.RunCheckpoint: the provider's name, timing and usage fields of the receipt; a confidence that is no number at all raises in the code and is not modelled.
- Moving directories in `archive_runs`, input-binding assembly, checksum manifests, command line, configuration, doctor, release scripts: they would only add easy members.
