/**
 Validation of a source journal and reconstruction of a consumer cursor from it and from target
 evidence. The digest of a message is modelled by the message itself.
 */
module ConsumerCursor {
  import opened Wrappers
  import opened Messages

  const MAX_RECONSTRUCTION_RECORDS := 100_000

  datatype Binding = Binding(consumer: string, principal: string, journal: string)

  datatype Evidence = Evidence(
    binding: Binding, sequence: int, id: string, digest: Message, disposition: string, receipt: string, at: string)

  /** `last` is the last committed source record, if any. */
  datatype Cursor = Cursor(binding: Binding, sequence: int, last: Option<Message>, disposition: string, at: string)


  predicate KnownDisposition(d: string) {
    d == "applied" || d == "rejected" || d == "ignored" || d == "deferred" || d == "security_error"
  }

  function EmptyCursor(b: Binding, now: string): Cursor { Cursor(b, 0, None, "deferred", now) }

  // ---------------------------------------------------------------- the source journal

  /** A first-in-first-out journal in which no message identifier is reused. */
  predicate Fifo(records: seq<Message>) {
    (forall i :: 0 <= i < |records| ==> ValidMessage(records[i], i + 1)) && DistinctIds(records)
  }

  /** What `validate_source_records` accepts: such a journal within the replay bound. */
  predicate SourceOk(records: seq<Message>) { |records| <= MAX_RECONSTRUCTION_RECORDS && Fifo(records) }

  method ValidateSourceRecords(records: seq<Message>) returns (ok: bool)
    ensures ok <==> SourceOk(records)
  {
    if |records| > MAX_RECONSTRUCTION_RECORDS { return false; }
    var byId: map<string, Message> := map[];
    for i := 0 to |records|
      invariant forall k :: 0 <= k < i ==> ValidMessage(records[k], k + 1)
      invariant forall k, l :: 0 <= k < l < i ==> records[k].id != records[l].id
      invariant forall id :: id in byId <==> exists k :: 0 <= k < i && records[k].id == id
    {
      if !ValidMessage(records[i], i + 1) { return false; }
      if records[i].id in byId {
        ghost var k :| 0 <= k < i && records[k].id == records[i].id;
        return false;
      }
      byId := byId[records[i].id := records[i]];
    }
    ok := true;
  }

  /** Every log that `append_message` can build is a first-in-first-out source journal. */
  lemma ValidLogIsSource(log: seq<Message>)
    requires ValidLog(log)
    ensures Fifo(log) && (SourceOk(log) <==> |log| <= MAX_RECONSTRUCTION_RECORDS)
  {
    ValidLogIsDistinct(log);
  }

  // ---------------------------------------------------------------- evidence

  predicate EvidenceOk(e: Evidence, b: Binding) {
    e.binding == b && e.sequence >= 1 && KnownDisposition(e.disposition)
  }

  /** No message identifier appears with two digests. */
  predicate Consistent(es: seq<Evidence>) {
    forall i, j :: 0 <= i < j < |es| && es[i].id == es[j].id ==> es[i].digest == es[j].digest
  }

  /** The evidence kept for an identifier: the last one in the list. */
  function Latest(es: seq<Evidence>, id: string): (r: Option<Evidence>)
    ensures r.Some? ==> r.value in es && r.value.id == id
    ensures r.None? ==> forall e :: e in es ==> e.id != id
  {
    if es == [] then None
    else if es[|es| - 1].id == id then Some(es[|es| - 1])
    else Latest(es[..|es| - 1], id)
  }

  predicate Fits(e: Evidence, m: Message) { e.digest == m && e.sequence == m.sequence }

  /** The record is covered by the evidence kept for its identifier. */
  predicate Covered(m: Message, es: seq<Evidence>) {
    Latest(es, m.id).Some? && Fits(Latest(es, m.id).value, m)
  }

  predicate Unevidenced(m: Message, es: seq<Evidence>) { Latest(es, m.id).None? }

  /** `k` records form the longest covered prefix of the source. */
  predicate LongestCovered(source: seq<Message>, es: seq<Evidence>, k: nat) {
    && k <= |source|
    && (forall i :: 0 <= i < k ==> Covered(source[i], es))
    && (k < |source| ==> !Covered(source[k], es))
  }

  function Frontier(source: seq<Message>, es: seq<Evidence>): (k: nat)
    ensures LongestCovered(source, es, k)
  {
    FrontierFrom(source, es, 0)
  }

  function FrontierFrom(source: seq<Message>, es: seq<Evidence>, i: nat): (k: nat)
    requires i <= |source| && forall j :: 0 <= j < i ==> Covered(source[j], es)
    ensures LongestCovered(source, es, k)
    decreases |source| - i
  {
    if i == |source| || !Covered(source[i], es) then i else FrontierFrom(source, es, i + 1)
  }

  function CursorAt(b: Binding, source: seq<Message>, es: seq<Evidence>, k: nat, now: string): Cursor
    requires k <= |source| && forall i :: 0 <= i < k ==> Covered(source[i], es)
  {
    if k == 0 then EmptyCursor(b, now)
    else
      var m := source[k - 1];
      assert Covered(m, es);
      Cursor(b, m.sequence, Some(m), Latest(es, m.id).value.disposition, Latest(es, m.id).value.at)
  }

  /** The inputs are well formed: everything that does not depend on how evidence meets the source. */
  predicate InputsOk(b: Binding, source: seq<Message>, es: seq<Evidence>) {
    && SourceOk(source) && |es| <= MAX_RECONSTRUCTION_RECORDS
    && (forall i :: 0 <= i < |es| ==> EvidenceOk(es[i], b))
    && Consistent(es)
  }

  /** The record that ends the covered prefix has evidence, but evidence that contradicts it. */
  predicate Conflicted(source: seq<Message>, es: seq<Evidence>) {
    Frontier(source, es) < |source| && !Unevidenced(source[Frontier(source, es)], es)
  }

  /** Reconstruction: the longest covered prefix, or a failure on a conflict. */
  function Reconstruct(b: Binding, source: seq<Message>, es: seq<Evidence>, now: string): Result<Cursor> {
    if !InputsOk(b, source, es) || Conflicted(source, es) then Err
    else Ok(CursorAt(b, source, es, Frontier(source, es), now))
  }

  lemma LongestIsUnique(source: seq<Message>, es: seq<Evidence>, k: nat, l: nat)
    requires LongestCovered(source, es, k) && LongestCovered(source, es, l)
    ensures k == l
  {
  }

  /** A bounded journal, and bounded evidence of this consumer in which every identifier has one digest. */
  ghost predicate Admissible(b: Binding, source: seq<Message>, es: seq<Evidence>) {
    && |source| <= MAX_RECONSTRUCTION_RECORDS && Fifo(source) && |es| <= MAX_RECONSTRUCTION_RECORDS
    && (forall e <- es :: e.binding == b && e.sequence >= 1 && e.disposition in {"applied", "rejected", "ignored", "deferred", "security_error"})
    && (forall e, f :: e in es && f in es && e.id == f.id ==> e.digest == f.digest)
  }

  /**
   Reconstruction succeeds exactly when the record after some covered prefix has no evidence at
   all (or there is no such record), and then it stands at the end of that prefix.
   */
  lemma ReconstructMeaning(b: Binding, source: seq<Message>, es: seq<Evidence>, now: string, k: nat)
    ensures Admissible(b, source, es) && LongestCovered(source, es, k) && (k == |source| || forall e <- es :: e.id != source[k].id) <==>
      Reconstruct(b, source, es, now).Ok? && Reconstruct(b, source, es, now).value.sequence == k
    ensures Reconstruct(b, source, es, now).Ok? && Reconstruct(b, source, es, now).value.sequence == k ==>
      k <= |source| && Reconstruct(b, source, es, now).value.last == if k == 0 then None else Some(source[k - 1])
  {
    assert InputsOk(b, source, es) ==> forall i :: 0 <= i < |source| ==> source[i].sequence == i + 1;
    hide InputsOk, Admissible;
    InputsExactly(b, source, es);
    if k < |source| { UnevidencedExactly(source[k], es); }
    if LongestCovered(source, es, k) { LongestIsUnique(source, es, k, Frontier(source, es)); }
  }

  lemma {:induction false} UnevidencedExactly(m: Message, es: seq<Evidence>)
    ensures Unevidenced(m, es) <==> forall e <- es :: e.id != m.id
  {}

  lemma {:induction false} InputsExactly(b: Binding, source: seq<Message>, es: seq<Evidence>)
    ensures InputsOk(b, source, es) <==> Admissible(b, source, es)
  {
    hide Fifo;
  }

  /** The table holds, for every identifier, the evidence kept for it. */
  ghost predicate Tabulates(byId: map<string, Evidence>, es: seq<Evidence>) {
    forall id :: Latest(es, id) == if id in byId then Some(byId[id]) else None
  }

  lemma {:induction false} ConsistencyStep(es: seq<Evidence>, e: Evidence)
    requires Consistent(es)
    ensures Consistent(es + [e]) <==> Latest(es, e.id).None? || Latest(es, e.id).value.digest == e.digest
  {
    var grown := es + [e];
    var l := Latest(es, e.id);
    if l.Some? {
      var k :| 0 <= k < |es| && es[k] == l.value;
      assert grown[k] == es[k] && grown[|es|] == e;
      if l.value.digest == e.digest {
        forall i, j | 0 <= i < j < |grown| && grown[i].id == grown[j].id ensures grown[i].digest == grown[j].digest {
          assert i < k || i == k || k < i;
        }
      }
    }
  }

  lemma TableStep(byId: map<string, Evidence>, es: seq<Evidence>, e: Evidence)
    requires Tabulates(byId, es)
    ensures Tabulates(byId[e.id := e], es + [e])
  {
    assert (es + [e])[..|es|] == es;
  }

  /** One turn of the indexing loop. */
  lemma IndexStep(byId: map<string, Evidence>, es: seq<Evidence>, i: nat)
    requires i < |es| && Consistent(es[..i]) && Tabulates(byId, es[..i])
    ensures var e := es[i];
      && (Consistent(es[..i + 1]) <==> !(e.id in byId && byId[e.id].digest != e.digest))
      && Tabulates(byId[e.id := e], es[..i + 1])
  {
    var e := es[i];
    assert es[..i + 1] == es[..i] + [e];
    assert Latest(es[..i], e.id) == if e.id in byId then Some(byId[e.id]) else None;
    ConsistencyStep(es[..i], e);
    TableStep(byId, es[..i], e);
  }

  /** What the first loop demands of the evidence. */
  ghost predicate Proper(es: seq<Evidence>, b: Binding) {
    (forall i :: 0 <= i < |es| ==> EvidenceOk(es[i], b)) && Consistent(es)
  }

  lemma ProperPrefix(es: seq<Evidence>, b: Binding, i: nat)
    requires i <= |es| && Proper(es, b)
    ensures Proper(es[..i], b)
  {
    assert forall k :: 0 <= k < i ==> es[..i][k] == es[k];
  }

  lemma ProperStep(byId: map<string, Evidence>, es: seq<Evidence>, b: Binding, i: nat)
    requires i < |es| && Proper(es[..i], b) && Tabulates(byId, es[..i])
    ensures var e := es[i];
      && (Proper(es[..i + 1], b) <==> EvidenceOk(e, b) && !(e.id in byId && byId[e.id].digest != e.digest))
      && Tabulates(byId[e.id := e], es[..i + 1])
  {
    IndexStep(byId, es, i);
    var grown := es[..i + 1];
    assert grown[i] == es[i] && forall k :: 0 <= k < i ==> grown[k] == es[..i][k];
  }

  /** The first loop of `reconstruct_cursor`. */
  method IndexEvidence(b: Binding, es: seq<Evidence>) returns (r: Result<map<string, Evidence>>)
    ensures r.Ok? <==> (forall i :: 0 <= i < |es| ==> EvidenceOk(es[i], b)) && Consistent(es)
    ensures r.Ok? ==> Tabulates(r.value, es)
  {
    var byId: map<string, Evidence> := map[];
    var i := 0;
    while i < |es|
      invariant i <= |es| && Proper(es[..i], b) && Tabulates(byId, es[..i])
    {
      ProperStep(byId, es, b, i);
      if !EvidenceOk(es[i], b) || (es[i].id in byId && byId[es[i].id].digest != es[i].digest) {
        if Proper(es, b) { ProperPrefix(es, b, i + 1); }
        return Err;
      }
      byId := byId[es[i].id := es[i]];
      i := i + 1;
    }
    assert es[..|es|] == es;
    r := Ok(byId);
  }

  method ReconstructCursor(b: Binding, source: seq<Message>, es: seq<Evidence>, now: string) returns (r: Result<Cursor>)
    ensures r == Reconstruct(b, source, es, now)
  {
    var ok := ValidateSourceRecords(source);
    if !ok || |es| > MAX_RECONSTRUCTION_RECORDS { return Err; }
    var byId := IndexEvidence(b, es);
    if byId.Err? { return Err; }
    r := WalkSource(b, source, es, byId.value, now);
  }

  /** The second loop: follow the source as far as the evidence goes. */
  method WalkSource(b: Binding, source: seq<Message>, ghost es: seq<Evidence>, byId: map<string, Evidence>, now: string)
    returns (r: Result<Cursor>)
    requires InputsOk(b, source, es) && Tabulates(byId, es)
    ensures r == Reconstruct(b, source, es, now)
  {
    var rebuilt := EmptyCursor(b, now);
    var i := 0;
    while i < |source| && source[i].id in byId
      invariant i <= |source| && forall j :: 0 <= j < i ==> Covered(source[j], es)
      invariant rebuilt == CursorAt(b, source, es, i, now)
    {
      var m := source[i];
      var e := byId[m.id];
      CoveredStep(b, source, es, i, e, now);
      if e.digest != m || e.sequence != m.sequence {
        StopsAt(b, source, es, i, now);
        return Err;
      }
      rebuilt := Cursor(b, m.sequence, Some(m), e.disposition, e.at);
      i := i + 1;
    }
    if i < |source| { assert Unevidenced(source[i], es); }
    StopsAt(b, source, es, i, now);
    r := Ok(rebuilt);
  }

  lemma {:induction false} CoveredStep(b: Binding, source: seq<Message>, es: seq<Evidence>, k: nat, e: Evidence, now: string)
    requires k < |source| && Latest(es, source[k].id) == Some(e) && forall j :: 0 <= j < k ==> Covered(source[j], es)
    ensures !Unevidenced(source[k], es) && (Covered(source[k], es) <==> Fits(e, source[k]))
    ensures Fits(e, source[k]) ==>
      CursorAt(b, source, es, k + 1, now) == Cursor(b, source[k].sequence, Some(source[k]), e.disposition, e.at)
  {}

  /** What reconstruction yields when the covered prefix ends at `k`. */
  lemma StopsAt(b: Binding, source: seq<Message>, es: seq<Evidence>, k: nat, now: string)
    requires InputsOk(b, source, es) && LongestCovered(source, es, k)
    ensures Reconstruct(b, source, es, now) ==
      if k < |source| && !Unevidenced(source[k], es) then Err else Ok(CursorAt(b, source, es, k, now))
  {
    LongestIsUnique(source, es, k, Frontier(source, es));
  }

  // ---------------------------------------------------------------- evidence order

  predicate HasFit(m: Message, es: seq<Evidence>) { exists i :: 0 <= i < |es| && es[i].id == m.id && Fits(es[i], m) }
  predicate HasMisfit(m: Message, es: seq<Evidence>) { exists i :: 0 <= i < |es| && es[i].id == m.id && !Fits(es[i], m) }

  /** Evidence for one record of the source both fits and contradicts it (it can, in the sequence number). */
  predicate Mixed(m: Message, es: seq<Evidence>) { HasFit(m, es) && HasMisfit(m, es) }

  lemma CoveredMeaning(m: Message, es: seq<Evidence>)
    ensures Covered(m, es) ==> HasFit(m, es)
    ensures HasFit(m, es) && !HasMisfit(m, es) ==> Covered(m, es)
    ensures HasMisfit(m, es) && !HasFit(m, es) ==> !Covered(m, es) && !Unevidenced(m, es)
    ensures Unevidenced(m, es) <==> !HasFit(m, es) && !HasMisfit(m, es)
  {
    var l := Latest(es, m.id);
    if l.Some? {
      var i :| 0 <= i < |es| && es[i] == l.value;
    }
  }

  /** The same pieces of evidence, in any order and with any repetition within the replay bound. */
  ghost predicate SameEvidence(es: seq<Evidence>, fs: seq<Evidence>) {
    && (forall e :: e in es <==> e in fs)
    && (|es| <= MAX_RECONSTRUCTION_RECORDS <==> |fs| <= MAX_RECONSTRUCTION_RECORDS)
  }

  /** A pure reordering. */
  ghost predicate Reordered(es: seq<Evidence>, fs: seq<Evidence>) { multiset(es) == multiset(fs) }

  lemma ReorderedIsSame(es: seq<Evidence>, fs: seq<Evidence>)
    requires Reordered(es, fs)
    ensures SameEvidence(es, fs)
  {
    assert |multiset(es)| == |es| && |multiset(fs)| == |fs|;
    forall e ensures e in es <==> e in fs { assert e in multiset(es) <==> e in es; assert e in multiset(fs) <==> e in fs; }
  }

  lemma SameFits(m: Message, es: seq<Evidence>, fs: seq<Evidence>)
    requires SameEvidence(es, fs)
    ensures HasFit(m, es) ==> HasFit(m, fs)
    ensures HasMisfit(m, es) ==> HasMisfit(m, fs)
  {
    if HasFit(m, es) { var i :| 0 <= i < |es| && es[i].id == m.id && Fits(es[i], m); assert es[i] in fs; }
    if HasMisfit(m, es) { var i :| 0 <= i < |es| && es[i].id == m.id && !Fits(es[i], m); assert es[i] in fs; }
  }

  /**
   If no source record before the first unfitted one has mixed evidence, and the evidence for the last
   of them tells one story, every order and every repetition of the same evidence rebuilds the same
   cursor, or fails alike.
   */
  lemma OrderDoesNotMatter(b: Binding, source: seq<Message>, es: seq<Evidence>, fs: seq<Evidence>, now: string)
    requires SameEvidence(es, fs) && NoMixedPrefix(source, es) && !SplitStory(source, es)
    ensures Reconstruct(b, source, es, now) == Reconstruct(b, source, fs, now)
  {
    InputsIgnoreOrder(b, source, es, fs);
    var k := FirstUnfitted(source, es);
    FrontierIsFirstUnfitted(source, es, es, k);
    FrontierIsFirstUnfitted(source, es, fs, k);
    if k > 0 { OneStory(source, es, fs, k); }
    if k < |source| {
      CoveredMeaning(source[k], es);
      CoveredMeaning(source[k], fs);
      SameFits(source[k], es, fs);
      SameFits(source[k], fs, es);
    }
  }

  /** Without a split story the last covered record gets one disposition and one time from every order. */
  lemma {:induction false} OneStory(source: seq<Message>, es: seq<Evidence>, fs: seq<Evidence>, k: nat)
    requires SameEvidence(es, fs) && !SplitStory(source, es) && k == FirstUnfitted(source, es) && k > 0
    requires Covered(source[k - 1], es) && Covered(source[k - 1], fs)
    ensures var e, f := Latest(es, source[k - 1].id).value, Latest(fs, source[k - 1].id).value;
      e.disposition == f.disposition && e.at == f.at
  {
    var e, f := Latest(es, source[k - 1].id).value, Latest(fs, source[k - 1].id).value;
    var i :| 0 <= i < |es| && es[i] == e;
    assert f in es;
    var j :| 0 <= j < |es| && es[j] == f;
    assert !Disagree(source[k - 1], es[i], es[j]);
  }

  /** The first source record that no evidence fits. */
  function FirstUnfitted(source: seq<Message>, es: seq<Evidence>): (k: nat)
    ensures k <= |source| && (forall i :: 0 <= i < k ==> HasFit(source[i], es)) && (k < |source| ==> !HasFit(source[k], es))
  {
    if source == [] || !HasFit(source[0], es) then 0 else 1 + FirstUnfitted(source[1..], es)
  }

  /** Both entries fit the record, and the cursor would copy different things from them. */
  predicate Disagree(m: Message, e: Evidence, f: Evidence) {
    e.id == m.id && f.id == m.id && Fits(e, m) && Fits(f, m) && (e.disposition != f.disposition || e.at != f.at)
  }

  /** The last record of the fitted prefix has two fitting entries that differ in disposition or time. */
  predicate SplitStory(source: seq<Message>, es: seq<Evidence>) {
    var k := FirstUnfitted(source, es);
    k > 0 && exists i, j :: 0 <= i < |es| && 0 <= j < |es| && Disagree(source[k - 1], es[i], es[j])
  }

  predicate NoMixedPrefix(source: seq<Message>, es: seq<Evidence>) {
    forall i :: 0 <= i < FirstUnfitted(source, es) ==> !Mixed(source[i], es)
  }

  lemma InputsIgnoreOrder(b: Binding, source: seq<Message>, es: seq<Evidence>, fs: seq<Evidence>)
    requires SameEvidence(es, fs)
    ensures InputsOk(b, source, es) <==> InputsOk(b, source, fs)
  {
    if InputsOk(b, source, es) { InputsCarryOver(b, source, es, fs); }
    if InputsOk(b, source, fs) { InputsCarryOver(b, source, fs, es); }
  }

  lemma InputsCarryOver(b: Binding, source: seq<Message>, es: seq<Evidence>, fs: seq<Evidence>)
    requires InputsOk(b, source, es) && SameEvidence(es, fs)
    ensures InputsOk(b, source, fs)
  {
    forall i | 0 <= i < |fs| ensures EvidenceOk(fs[i], b) {
      assert fs[i] in fs;
      var k :| 0 <= k < |es| && es[k] == fs[i];
    }
    forall i, j | 0 <= i < j < |fs| && fs[i].id == fs[j].id ensures fs[i].digest == fs[j].digest {
      assert fs[i] in fs && fs[j] in fs;
      var k :| 0 <= k < |es| && es[k] == fs[i];
      var l :| 0 <= l < |es| && es[l] == fs[j];
      assert k < l || k == l || l < k;
    }
  }

  lemma {:induction false} FrontierIsFirstUnfitted(source: seq<Message>, es: seq<Evidence>, fs: seq<Evidence>, k: nat)
    requires SameEvidence(es, fs) && NoMixedPrefix(source, es) && k == FirstUnfitted(source, es)
    ensures Frontier(source, fs) == k
  {
    forall i | 0 <= i < k ensures Covered(source[i], fs) {
      CoveredMeaning(source[i], fs);
      SameFits(source[i], es, fs);
      SameFits(source[i], fs, es);
    }
    if k < |source| {
      CoveredMeaning(source[k], fs);
      SameFits(source[k], fs, es);
    }
    LongestIsUnique(source, fs, Frontier(source, fs), k);
  }

  // The converse: mixed evidence makes the outcome depend on the order, unless every order fails.

  predicate FitsSource(source: seq<Message>, e: Evidence) {
    exists i :: 0 <= i < |source| && source[i].id == e.id && Fits(e, source[i])
  }

  /** The same evidence with everything that contradicts the source moved to the front. */
  function FitsLast(source: seq<Message>, es: seq<Evidence>): seq<Evidence> {
    if es == [] then []
    else
      var e, rest := es[|es| - 1], FitsLast(source, es[..|es| - 1]);
      if FitsSource(source, e) then rest + [e] else [e] + rest
  }

  lemma {:induction false} FitsLastIsSame(source: seq<Message>, es: seq<Evidence>)
    ensures Reordered(es, FitsLast(source, es))
  {
    if es != [] {
      FitsLastIsSame(source, es[..|es| - 1]);
      assert es == es[..|es| - 1] + [es[|es| - 1]];
    }
  }

  lemma {:induction false} LatestAfterPrepend(e: Evidence, es: seq<Evidence>, id: string)
    requires Latest(es, id).Some?
    ensures Latest([e] + es, id) == Latest(es, id)
  {
    var n := |es| - 1;
    assert ([e] + es)[..n + 1] == [e] + es[..n] && ([e] + es)[n + 1] == es[n];
    if es[n].id != id { LatestAfterPrepend(e, es[..n], id); }
  }

  lemma {:induction false} FitsLastCovers(source: seq<Message>, es: seq<Evidence>, i: nat)
    requires DistinctIds(source) && i < |source| && HasFit(source[i], es)
    ensures Covered(source[i], FitsLast(source, es))
  {
    var m := source[i];
    var n := |es| - 1;
    var e, rest := es[n], FitsLast(source, es[..n]);
    var w :| 0 <= w < |es| && es[w].id == m.id && Fits(es[w], m);
    if FitsSource(source, e) {
      var k :| 0 <= k < |source| && source[k].id == e.id && Fits(e, source[k]);
      assert (rest + [e])[..|rest|] == rest && (rest + [e])[|rest|] == e;
      if e.id == m.id {
        assert k < i || k == i || i < k;
      } else {
        assert es[..n][w] == es[w];
        FitsLastCovers(source, es[..n], i);
      }
    } else {
      assert w < n && es[..n][w] == es[w];
      FitsLastCovers(source, es[..n], i);
      LatestAfterPrepend(e, rest, m.id);
    }
  }

  /** The record after the fitted prefix has no evidence, so some order of the evidence succeeds. */
  predicate EndsCleanly(source: seq<Message>, es: seq<Evidence>) {
    var k := FirstUnfitted(source, es);
    k == |source| || Unevidenced(source[k], es)
  }

  /** The outcome can change with the order of the evidence exactly when this holds. */
  predicate OrderSensitive(b: Binding, source: seq<Message>, es: seq<Evidence>) {
    InputsOk(b, source, es) && EndsCleanly(source, es) && (!NoMixedPrefix(source, es) || SplitStory(source, es))
  }

  lemma {:induction false} FitsLastSucceeds(b: Binding, source: seq<Message>, es: seq<Evidence>, now: string)
    requires InputsOk(b, source, es) && EndsCleanly(source, es)
    ensures Reordered(es, FitsLast(source, es)) && Reconstruct(b, source, FitsLast(source, es), now).Ok?
  {
    var k := FirstUnfitted(source, es);
    var good := FitsLast(source, es);
    FitsLastIsSame(source, es);
    ReorderedIsSame(es, good);
    InputsIgnoreOrder(b, source, es, good);
    forall i | 0 <= i < k ensures Covered(source[i], good) { FitsLastCovers(source, es, i); }
    if k < |source| {
      CoveredMeaning(source[k], es);
      CoveredMeaning(source[k], good);
      SameFits(source[k], good, es);
    }
    LongestIsUnique(source, good, Frontier(source, good), k);
  }

  /** The same evidence with the entry at `j` moved to the end. */
  function MovedLast(es: seq<Evidence>, j: nat): seq<Evidence>
    requires j < |es|
  {
    es[..j] + es[j + 1..] + [es[j]]
  }

  lemma MovedLastIsSame(es: seq<Evidence>, j: nat)
    requires j < |es|
    ensures Reordered(es, MovedLast(es, j))
  {
    assert es == es[..j] + [es[j]] + es[j + 1..];
  }

  lemma {:induction false} MisfitLastFails(b: Binding, source: seq<Message>, es: seq<Evidence>, now: string, i: nat, j: nat)
    requires i < FirstUnfitted(source, es) && j < |es| && es[j].id == source[i].id && !Fits(es[j], source[i])
    ensures Reconstruct(b, source, MovedLast(es, j), now).Err?
  {
    var bad := MovedLast(es, j);
    MovedLastIsSame(es, j);
    ReorderedIsSame(es, bad);
    var f := Frontier(source, bad);
    assert bad[|bad| - 1] == es[j] && !Covered(source[i], bad);
    assert f <= i;
    SameFits(source[f], es, bad);
    CoveredMeaning(source[f], bad);
  }

  lemma MixedEvidenceMatters(b: Binding, source: seq<Message>, es: seq<Evidence>, now: string)
    returns (good: seq<Evidence>, bad: seq<Evidence>)
    requires InputsOk(b, source, es) && EndsCleanly(source, es) && !NoMixedPrefix(source, es)
    ensures Reordered(es, good) && Reordered(es, bad)
    ensures Reconstruct(b, source, good, now).Ok? && Reconstruct(b, source, bad, now).Err?
  {
    FitsLastSucceeds(b, source, es, now);
    good := FitsLast(source, es);
    var i :| 0 <= i < FirstUnfitted(source, es) && Mixed(source[i], es);
    var j :| 0 <= j < |es| && es[j].id == source[i].id && !Fits(es[j], source[i]);
    MovedLastIsSame(es, j);
    MisfitLastFails(b, source, es, now, i, j);
    bad := MovedLast(es, j);
  }

  /** The entry moved to the end is the one the cursor is copied from. */
  lemma {:induction false} LastStoryWins(b: Binding, source: seq<Message>, es: seq<Evidence>, now: string, j: nat)
    requires InputsOk(b, source, es) && EndsCleanly(source, es) && NoMixedPrefix(source, es)
    requires var k := FirstUnfitted(source, es); k > 0 && j < |es| && es[j].id == source[k - 1].id
    ensures Reordered(es, MovedLast(es, j))
    ensures var r := Reconstruct(b, source, MovedLast(es, j), now);
      r.Ok? && r.value.disposition == es[j].disposition && r.value.at == es[j].at
  {
    var k, fs := FirstUnfitted(source, es), MovedLast(es, j);
    MovedLastIsSame(es, j);
    ReorderedIsSame(es, fs);
    InputsIgnoreOrder(b, source, es, fs);
    FrontierIsFirstUnfitted(source, es, fs, k);
    if k < |source| {
      CoveredMeaning(source[k], es);
      CoveredMeaning(source[k], fs);
      SameFits(source[k], fs, es);
    }
    assert fs[|fs| - 1] == es[j];
  }

  /** Under the sensitivity condition two reorderings rebuild different things. */
  lemma SensitiveEvidenceDiffers(b: Binding, source: seq<Message>, es: seq<Evidence>, now: string)
    returns (fs: seq<Evidence>, gs: seq<Evidence>)
    requires OrderSensitive(b, source, es)
    ensures Reordered(es, fs) && Reordered(es, gs) && Reconstruct(b, source, fs, now) != Reconstruct(b, source, gs, now)
  {
    if !NoMixedPrefix(source, es) {
      fs, gs := MixedEvidenceMatters(b, source, es, now);
    } else {
      var k := FirstUnfitted(source, es);
      var i, j :| 0 <= i < |es| && 0 <= j < |es| && Disagree(source[k - 1], es[i], es[j]);
      LastStoryWins(b, source, es, now, i);
      LastStoryWins(b, source, es, now, j);
      fs, gs := MovedLast(es, i), MovedLast(es, j);
    }
  }

  lemma ContradictedEndAlwaysFails(b: Binding, source: seq<Message>, es: seq<Evidence>, fs: seq<Evidence>, now: string)
    requires SameEvidence(es, fs) && !EndsCleanly(source, es)
    ensures Reconstruct(b, source, fs, now).Err?
  {
    var k := FirstUnfitted(source, es);
    var f := Frontier(source, fs);
    CoveredMeaning(source[k], es);
    CoveredMeaning(source[k], fs);
    SameFits(source[k], es, fs);
    SameFits(source[k], fs, es);
    assert f <= k;
    CoveredMeaning(source[f], fs);
    SameFits(source[f], es, fs);
  }

  /** Any two orders of the same evidence rebuild the same cursor unless the evidence is order sensitive. */
  lemma OnlySensitiveEvidenceDiffers(b: Binding, source: seq<Message>, es: seq<Evidence>, fs: seq<Evidence>, now: string)
    requires SameEvidence(es, fs) && !OrderSensitive(b, source, es)
    ensures Reconstruct(b, source, es, now) == Reconstruct(b, source, fs, now)
  {
    if !InputsOk(b, source, es) {
      InputsIgnoreOrder(b, source, es, fs);
    } else if EndsCleanly(source, es) {
      OrderDoesNotMatter(b, source, es, fs, now);
    } else {
      ContradictedEndAlwaysFails(b, source, es, es, now);
      ContradictedEndAlwaysFails(b, source, es, fs, now);
    }
  }

  /** All orders and repetitions of the evidence rebuild one cursor, or all fail, exactly when it is not order sensitive. */
  lemma OrderMattersExactly(b: Binding, source: seq<Message>, es: seq<Evidence>, now: string)
    ensures (forall fs :: SameEvidence(es, fs) ==> Reconstruct(b, source, es, now) == Reconstruct(b, source, fs, now)) <==>
      !OrderSensitive(b, source, es)
  {
    if OrderSensitive(b, source, es) {
      var fs, gs := SensitiveEvidenceDiffers(b, source, es, now);
      ReorderedIsSame(es, fs);
      ReorderedIsSame(es, gs);
    } else {
      forall fs | SameEvidence(es, fs) ensures Reconstruct(b, source, es, now) == Reconstruct(b, source, fs, now) {
        OnlySensitiveEvidenceDiffers(b, source, es, fs, now);
      }
    }
  }

  /** Two entries for one record, in either order: they may differ in the disposition alone, or in the sequence. */
  lemma OrderSensitiveExample()
    ensures var b, m := Binding("c", "p", "j"), Message(1, "m1", "r", "t", ParentToChild, Steer, "lead", "go", None);
      var applied := Evidence(b, 1, "m1", m, "applied", "x", "t1");
      var rejected := Evidence(b, 1, "m1", m, "rejected", "y", "t2");
      var misplaced := Evidence(b, 2, "m1", m, "applied", "x", "t1");
      && Reconstruct(b, [m], [applied, rejected], "now") == Ok(Cursor(b, 1, Some(m), "rejected", "t2"))
      && Reconstruct(b, [m], [rejected, applied], "now") == Ok(Cursor(b, 1, Some(m), "applied", "t1"))
      && Reconstruct(b, [m], [misplaced, applied], "now") == Ok(Cursor(b, 1, Some(m), "applied", "t1"))
      && Reconstruct(b, [m], [applied, misplaced], "now") == Err
  {
    var b, m := Binding("c", "p", "j"), Message(1, "m1", "r", "t", ParentToChild, Steer, "lead", "go", None);
    var applied := Evidence(b, 1, "m1", m, "applied", "x", "t1");
    var rejected := Evidence(b, 1, "m1", m, "rejected", "y", "t2");
    var misplaced := Evidence(b, 2, "m1", m, "applied", "x", "t1");
    PairRebuilds(b, m, applied, rejected, "now");
    PairRebuilds(b, m, rejected, applied, "now");
    PairRebuilds(b, m, misplaced, applied, "now");
    PairRebuilds(b, m, applied, misplaced, "now");
  }

  /** Of two entries for the only record, the second decides. */
  lemma PairRebuilds(b: Binding, m: Message, e: Evidence, f: Evidence, now: string)
    requires ValidMessage(m, 1) && EvidenceOk(e, b) && EvidenceOk(f, b) && e.id == m.id == f.id && e.digest == f.digest
    ensures Reconstruct(b, [m], [e, f], now) == if Fits(f, m) then Ok(Cursor(b, 1, Some(m), f.disposition, f.at)) else Err
  {
    var es := [e, f];
    assert Latest(es, m.id) == Some(f);
    StopsAt(b, [m], es, if Fits(f, m) then 1 else 0, now);
  }
}
