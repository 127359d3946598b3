/**
 The semantic checkpoint: a draft choice among proposals is compared with a provider's evidence, and
 the workflow advances only as policy and a validated resolution allow.

 Scores are reals; a float that is not a finite number is `Unordered`. The request digest is modelled
 as the payload it is computed from, and the encoded size of a projected state as a parameter.
 */
module Checkpoint {
  import opened Wrappers

  datatype Draft = Draft(
    decisionId: string, draftId: string, candidateIds: seq<string>, initial: string, rationale: string, evidenceRefs: seq<string>)

  datatype Requirement = Requirement(text: string, sourceRef: string)
  datatype Candidate = Candidate(id: string, artifact: string, refs: seq<string>)
  datatype Observation = Observation(sourceRef: string, kind: string, content: string, scope: Option<string>)
  datatype Context = Context(requirement: Option<Requirement>, candidates: seq<Candidate>, observations: seq<Observation>)

  datatype Projection = Projection(requirement: Requirement, candidates: seq<Candidate>, observations: seq<Observation>)
  datatype Payload = Payload(state: Projection, choices: seq<string>)
  datatype Request = Request(payload: Payload, sourceRefs: seq<string>)

  datatype Score = Number(r: real) | Unordered | NonNumeric
  datatype Evidence = Evidence(
    decisionId: string, status: string, semanticType: string, value: Option<string>, confidence: Score,
    distribution: seq<(string, Score)>, questionSet: Option<string>, requestDigest: Option<Payload>, projector: Option<string>)
  datatype Reply = Raised | WrongType | Replied(evidence: Evidence)

  datatype Outcome = Agreement | Disagreement | Uncertainty | ProviderFailure
  datatype FailurePolicy = Block | FallbackInitial
  datatype Policy = Policy(minimumConfidence: real, minimumMargin: real, providerFailure: FailurePolicy)

  datatype Disposition =
    | RetainInitial | AcceptSemantic | RejectSemantic | ResolveUncertainty | DeferForEvidence | EscalateReview | ProviderFallback
  datatype Basis =
    | SemanticAgreement | SemanticEvidence | DeterministicAuthority | AdditionalEvidence | IndependentReview
    | HumanAuthority | FailurePolicyBasis | OtherBasis
  datatype Resolution = Resolution(
    decisionId: string, draftId: string, initial: string, semantic: Option<string>, resolved: Option<string>,
    disposition: Disposition, basis: Basis, refs: seq<string>)

  datatype Receipt = Receipt(
    request: Request, evidence: Evidence, semantic: Option<string>, outcome: Outcome,
    resolution: Option<Resolution>, applied: Option<string>, advance: bool)

  const DECISION := "implementation.proposal_selection/v1"
  const QUESTION_SET := "implementation-proposal-selection/v1"
  const PROJECTOR := "implementation-proposal-selection-state/v1"
  const MAX_CANDIDATES := 16
  const MAX_PROJECTED_STATE_BYTES := 64 * 1024

  // ---------------------------------------------------------------- drafts

  predicate Distinct(s: seq<string>) { forall i, j :: 0 <= i < j < |s| ==> s[i] != s[j] }

  predicate UniqueStrings(s: seq<string>, minimum: nat) {
    (forall x <- s :: x != "") && |s| >= minimum && Distinct(s)
  }

  predicate DraftOk(d: Draft) {
    d.decisionId == DECISION && UniqueStrings(d.candidateIds, 2) && |d.candidateIds| <= MAX_CANDIDATES &&
    d.initial in d.candidateIds && UniqueStrings(d.evidenceRefs, 1)
  }

  // ---------------------------------------------------------------- projecting the context

  predicate RequirementOk(r: Option<Requirement>) { r.Some? && r.value.text != "" && r.value.sourceRef != "" }

  predicate ObservationOk(o: Observation) {
    o.sourceRef != "" && o.kind != "" && o.content != "" && o.scope != Some("")
  }

  predicate CandidateOk(c: Candidate) { UniqueStrings(c.refs, 1) && c.artifact != "" }

  function Ids(cs: seq<Candidate>): (ids: seq<string>)
    ensures |ids| == |cs|
  {
    seq(|cs|, i requires 0 <= i < |cs| => cs[i].id)
  }

  /** The candidates put in the draft's order. */
  ghost predicate Reordered(ids: seq<string>, from: seq<Candidate>, to: seq<Candidate>) {
    |to| == |ids| && forall i :: 0 <= i < |ids| ==> to[i] in from && to[i].id == ids[i]
  }

  /** The context describes exactly the draft's candidates, once each, completely. */
  ghost predicate ContextOk(ids: seq<string>, c: Context) {
    RequirementOk(c.requirement) && (forall x <- Ids(c.candidates) :: x != "") && Distinct(Ids(c.candidates)) &&
    (forall x :: x in Ids(c.candidates) <==> x in ids) &&
    (forall k <- c.candidates :: CandidateOk(k)) && (forall o <- c.observations :: ObservationOk(o))
  }

  /** What the provider may see of the context, for a draft with these candidates. */
  ghost predicate Projects(ids: seq<string>, c: Context, p: Projection) {
    ContextOk(ids, c) && p.requirement == c.requirement.value &&
    Reordered(ids, c.candidates, p.candidates) && p.observations == c.observations
  }

  function CandidateRefs(cs: seq<Candidate>): seq<string> {
    if cs == [] then [] else CandidateRefs(cs[..|cs| - 1]) + cs[|cs| - 1].refs
  }

  function ObservationRefs(os: seq<Observation>): seq<string> {
    if os == [] then [] else ObservationRefs(os[..|os| - 1]) + [os[|os| - 1].sourceRef]
  }

  function AllRefs(p: Projection): seq<string> {
    [p.requirement.sourceRef] + CandidateRefs(p.candidates) + ObservationRefs(p.observations)
  }

  /** First occurrences, in order. */
  function Unique(s: seq<string>): (r: seq<string>)
    ensures Distinct(r) && forall x :: x in r <==> x in s
  {
    if s == [] then []
    else
      var n := |s| - 1;
      var front := Unique(s[..n]);
      assert s == s[..n] + [s[n]];
      if s[n] in front then front else front + [s[n]]
  }

  lemma SameCandidate(cs: seq<Candidate>, a: Candidate, b: Candidate)
    requires Distinct(Ids(cs)) && a in cs && b in cs && a.id == b.id
    ensures a == b
  {
    var i :| 0 <= i < |cs| && cs[i] == a;
    var j :| 0 <= j < |cs| && cs[j] == b;
    assert Ids(cs)[i] == Ids(cs)[j];
  }

  lemma OneProjection(ids: seq<string>, c: Context, p: Projection, q: Projection)
    requires Projects(ids, c, p) && Projects(ids, c, q)
    ensures p == q
  {
    forall i | 0 <= i < |ids| ensures p.candidates[i] == q.candidates[i] {
      SameCandidate(c.candidates, p.candidates[i], q.candidates[i]);
    }
  }

  ghost predicate Indexes(byId: map<string, Candidate>, cs: seq<Candidate>) {
    (forall x :: x in byId <==> x in Ids(cs)) && forall i :: 0 <= i < |cs| ==> cs[i].id in byId && byId[cs[i].id] == cs[i]
  }

  lemma IndexesExtend(byId: map<string, Candidate>, cs: seq<Candidate>, c: Candidate)
    requires Indexes(byId, cs) && c.id !in byId
    ensures Indexes(byId[c.id := c], cs + [c])
  {
    assert Ids(cs + [c]) == Ids(cs) + [c.id];
  }

  method IndexCandidates(cs: seq<Candidate>) returns (r: Result<map<string, Candidate>>)
    ensures r.Ok? <==> (forall x <- Ids(cs) :: x != "") && Distinct(Ids(cs))
    ensures r.Ok? ==> Indexes(r.value, cs)
  {
    var byId: map<string, Candidate> := map[];
    var k := 0;
    while k < |cs|
      invariant k <= |cs|
      invariant Indexes(byId, cs[..k]) && Distinct(Ids(cs[..k])) && forall x <- Ids(cs[..k]) :: x != ""
    {
      var id := cs[k].id;
      assert Ids(cs)[k] == id && id in Ids(cs);
      if id == "" { return Err; }
      if id in byId {
        assert id in Ids(cs[..k]);
        var i :| 0 <= i < k && Ids(cs[..k])[i] == id;
        assert Ids(cs)[i] == Ids(cs)[k];
        return Err;
      }
      assert cs[..k + 1] == cs[..k] + [cs[k]] && Ids(cs[..k + 1]) == Ids(cs[..k]) + [id];
      IndexesExtend(byId, cs[..k], cs[k]);
      byId := byId[id := cs[k]];
      k := k + 1;
    }
    assert cs[..k] == cs;
    r := Ok(byId);
  }

  lemma IndexedIsMember(byId: map<string, Candidate>, cs: seq<Candidate>, id: string)
    requires Indexes(byId, cs) && id in byId
    ensures byId[id] in cs && byId[id].id == id
  {
    var i :| 0 <= i < |cs| && Ids(cs)[i] == id;
    assert cs[i] in cs;
  }

  lemma {:induction false} RefsSoFar(cs: seq<Candidate>, c: Candidate)
    ensures CandidateRefs(cs + [c]) == CandidateRefs(cs) + c.refs
  {
    assert (cs + [c])[..|cs|] == cs;
  }

  method ProjectCandidates(ids: seq<string>, byId: map<string, Candidate>, ghost cs: seq<Candidate>)
    returns (r: Result<seq<Candidate>>, refs: seq<string>)
    requires Indexes(byId, cs) && forall x :: x in Ids(cs) <==> x in ids
    ensures r.Ok? <==> forall k <- cs :: CandidateOk(k)
    ensures r.Ok? ==> Reordered(ids, cs, r.value) && refs == CandidateRefs(r.value)
  {
    var projected: seq<Candidate> := [];
    refs := [];
    var i := 0;
    while i < |ids|
      invariant i <= |ids| && Reordered(ids[..i], cs, projected)
      invariant forall c <- projected :: CandidateOk(c)
      invariant refs == CandidateRefs(projected)
    {
      assert ids[i] in ids;
      var raw := byId[ids[i]];
      IndexedIsMember(byId, cs, ids[i]);
      if !CandidateOk(raw) { return Err, []; }
      RefsSoFar(projected, raw);
      projected := projected + [raw];
      refs := refs + raw.refs;
      i := i + 1;
    }
    assert ids[..i] == ids;
    forall k | k in cs ensures CandidateOk(k) {
      var j :| 0 <= j < |cs| && cs[j] == k;
      assert Ids(cs)[j] in ids;
      var h :| 0 <= h < |ids| && ids[h] == k.id;
      assert projected[h] in projected && projected[h].id == k.id;
      IndexedIsMember(byId, cs, k.id);
      SameIndexed(byId, cs, projected[h]);
    }
    r := Ok(projected);
  }

  lemma SameIndexed(byId: map<string, Candidate>, cs: seq<Candidate>, c: Candidate)
    requires Indexes(byId, cs) && c in cs
    ensures c.id in byId && byId[c.id] == c
  {
    var i :| 0 <= i < |cs| && cs[i] == c;
  }

  method ProjectObservations(os: seq<Observation>) returns (ok: bool, refs: seq<string>)
    ensures ok <==> forall o <- os :: ObservationOk(o)
    ensures ok ==> refs == ObservationRefs(os)
  {
    refs := [];
    var i := 0;
    while i < |os|
      invariant i <= |os| && refs == ObservationRefs(os[..i]) && forall k :: 0 <= k < i ==> ObservationOk(os[k])
    {
      if !ObservationOk(os[i]) { return false, []; }
      assert os[..i + 1][..i] == os[..i];
      refs := refs + [os[i].sourceRef];
      i := i + 1;
    }
    assert os[..i] == os;
    ok := true;
  }

  /** Succeeds exactly on complete contexts of bounded size, and returns the one projection with its distinct sources. */
  method NormalizeContext(d: Draft, c: Context, size: Projection -> nat) returns (r: Result<(Projection, seq<string>)>)
    ensures r.Ok? <==> exists p :: Projects(d.candidateIds, c, p) && size(p) <= MAX_PROJECTED_STATE_BYTES
    ensures r.Ok? ==> Projects(d.candidateIds, c, r.value.0) && size(r.value.0) <= MAX_PROJECTED_STATE_BYTES && r.value.1 == Unique(AllRefs(r.value.0))
  {
    if !RequirementOk(c.requirement) { return Err; }
    var byId := IndexCandidates(c.candidates);
    if byId.Err? { return Err; }
    if byId.value.Keys != (set x | x in d.candidateIds) {
      if ContextOk(d.candidateIds, c) {
        assert forall x :: x in byId.value.Keys <==> x in (set x | x in d.candidateIds);
      }
      return Err;
    }
    forall x ensures x in Ids(c.candidates) <==> x in d.candidateIds {
      assert x in byId.value.Keys <==> x in (set x | x in d.candidateIds);
    }
    var candidates, candidateRefs := ProjectCandidates(d.candidateIds, byId.value, c.candidates);
    if candidates.Err? { return Err; }
    var ok, observationRefs := ProjectObservations(c.observations);
    if !ok { return Err; }
    var p := Projection(c.requirement.value, candidates.value, c.observations);
    if size(p) > MAX_PROJECTED_STATE_BYTES {
      if q :| Projects(d.candidateIds, c, q) && size(q) <= MAX_PROJECTED_STATE_BYTES {
        OneProjection(d.candidateIds, c, p, q);
      }
      return Err;
    }
    r := Ok((p, Unique([p.requirement.sourceRef] + candidateRefs + observationRefs)));
  }

  // ---------------------------------------------------------------- the request

  /** The request the provider receives for this draft and context. */
  ghost predicate Requests(d: Draft, c: Context, size: Projection -> nat, q: Request) {
    DraftOk(d) && Projects(d.candidateIds, c, q.payload.state) && size(q.payload.state) <= MAX_PROJECTED_STATE_BYTES &&
    q.payload.choices == d.candidateIds && q.sourceRefs == Unique(AllRefs(q.payload.state)) &&
    forall x <- d.evidenceRefs :: x in q.sourceRefs
  }

  ghost predicate Requestable(d: Draft, c: Context, size: Projection -> nat) { exists q :: Requests(d, c, size, q) }

  lemma OneRequest(d: Draft, c: Context, size: Projection -> nat, q: Request, r: Request)
    requires Requests(d, c, size, q) && Requests(d, c, size, r)
    ensures q == r
  {
    OneProjection(d.candidateIds, c, q.payload.state, r.payload.state);
  }

  method BuildRequest(d: Draft, c: Context, size: Projection -> nat) returns (r: Result<Request>)
    ensures r.Ok? <==> Requestable(d, c, size)
    ensures r.Ok? ==> Requests(d, c, size, r.value)
  {
    if !DraftOk(d) { return Err; }
    var n := NormalizeContext(d, c, size);
    if n.Err? { return Err; }
    var q := Request(Payload(n.value.0, d.candidateIds), n.value.1);
    if !(forall x <- d.evidenceRefs :: x in q.sourceRefs) {
      if other :| Requests(d, c, size, other) { OneProjection(d.candidateIds, c, other.payload.state, n.value.0); }
      return Err;
    }
    assert Requests(d, c, size, q);
    r := Ok(q);
  }

  /** At least `n` texts, none empty and none twice. */
  ghost predicate Texts(s: seq<string>, n: nat) {
    |s| >= n && (forall i :: 0 <= i < |s| ==> s[i] != "") && forall i, j :: 0 <= i < |s| && 0 <= j < |s| && s[i] == s[j] ==> i == j
  }

  /** A draft that chooses, for this decision, one of two to sixteen candidates, with evidence. */
  ghost predicate Choosable(d: Draft) {
    && d.decisionId == DECISION && Texts(d.candidateIds, 2) && |d.candidateIds| <= 16 && d.initial in d.candidateIds
    && Texts(d.evidenceRefs, 1)
  }

  /** A context that states the requirement and describes each of the candidates once, with every part present. */
  ghost predicate Complete(ids: seq<string>, c: Context) {
    && c.requirement.Some? && c.requirement.value.text != "" && c.requirement.value.sourceRef != ""
    && (forall i, j :: 0 <= i < j < |c.candidates| ==> c.candidates[i].id != c.candidates[j].id)
    && (forall k <- c.candidates :: k.id in ids && k.artifact != "" && Texts(k.refs, 1))
    && (forall x <- ids :: exists k :: k in c.candidates && k.id == x)
    && (forall o <- c.observations :: o.sourceRef != "" && o.kind != "" && o.content != "" && o.scope != Some(""))
  }

  /** The source is the requirement's, or one of a candidate's, or an observation's. */
  ghost predicate Cited(p: Projection, x: string) {
    || x == p.requirement.sourceRef
    || (exists k :: k in p.candidates && x in k.refs)
    || (exists o :: o in p.observations && o.sourceRef == x)
  }

  /**
   What is asked of the provider, and when: the draft is choosable and the context complete and small enough; the
   request shows the context with its candidates in the draft's order, and lists each cited source once, among
   them all the draft's evidence.
   */
  lemma {:induction false} RequestMeaning(d: Draft, c: Context, size: Projection -> nat, q: Request)
    ensures Requests(d, c, size, q) <==>
      && Choosable(d) && Complete(d.candidateIds, c) && size(q.payload.state) <= 64 * 1024
      && q.payload.choices == d.candidateIds && q.payload.state.requirement == c.requirement.value
      && q.payload.state.observations == c.observations && |q.payload.state.candidates| == |d.candidateIds|
      && (forall i :: 0 <= i < |d.candidateIds| ==>
          q.payload.state.candidates[i] in c.candidates && q.payload.state.candidates[i].id == d.candidateIds[i])
      && (forall x <- d.evidenceRefs :: Cited(q.payload.state, x))
      && q.sourceRefs == Unique(AllRefs(q.payload.state))
    ensures q.sourceRefs == Unique(AllRefs(q.payload.state)) ==>
      Distinct(q.sourceRefs) && forall x :: x in q.sourceRefs <==> Cited(q.payload.state, x)
  {
    assert DraftOk(d) <==> Choosable(d) by { TextsAreUnique(d.candidateIds, 2); TextsAreUnique(d.evidenceRefs, 1); }
    if Choosable(d) { CompleteIsOk(d.candidateIds, c); }
    forall x ensures x in Unique(AllRefs(q.payload.state)) <==> Cited(q.payload.state, x) {
      CandidateRefsMeaning(q.payload.state.candidates, x);
      ObservationRefsMeaning(q.payload.state.observations, x);
    }
  }

  lemma TextsAreUnique(s: seq<string>, n: nat)
    ensures UniqueStrings(s, n) <==> Texts(s, n)
  {
    assert forall i :: 0 <= i < |s| ==> s[i] in s;
    if Texts(s, n) {
      forall x | x in s ensures x != "" { var i :| 0 <= i < |s| && s[i] == x; }
    }
  }

  lemma CompleteIsOk(ids: seq<string>, c: Context)
    requires "" !in ids
    ensures ContextOk(ids, c) <==> Complete(ids, c)
  {
    forall k | k in c.candidates ensures CandidateOk(k) <==> k.artifact != "" && Texts(k.refs, 1) { TextsAreUnique(k.refs, 1); }
    var all := Ids(c.candidates);
    assert forall i :: 0 <= i < |all| ==> all[i] == c.candidates[i].id && c.candidates[i] in c.candidates && all[i] in all;
    forall x ensures x in all <==> exists k :: k in c.candidates && k.id == x {
      if k :| k in c.candidates && k.id == x {
        var i :| 0 <= i < |all| && c.candidates[i] == k;
        assert all[i] == x;
      }
    }
  }

  lemma {:induction false} CandidateRefsMeaning(cs: seq<Candidate>, x: string)
    ensures x in CandidateRefs(cs) <==> exists k :: k in cs && x in k.refs
  {
    if cs != [] {
      CandidateRefsMeaning(cs[..|cs| - 1], x);
      assert cs == cs[..|cs| - 1] + [cs[|cs| - 1]];
    }
  }

  lemma {:induction false} ObservationRefsMeaning(os: seq<Observation>, x: string)
    ensures x in ObservationRefs(os) <==> exists o :: o in os && o.sourceRef == x
  {
    if os != [] {
      ObservationRefsMeaning(os[..|os| - 1], x);
      assert os == os[..|os| - 1] + [os[|os| - 1]];
    }
  }

  /** Drafts that differ only in the agent's own judgment. */
  predicate SameQuestion(a: Draft, b: Draft) {
    a.decisionId == b.decisionId && a.candidateIds == b.candidateIds && a.evidenceRefs == b.evidenceRefs
  }

  /** The provider cannot tell such drafts apart: each gets the very request the other gets. */
  lemma RequestHidesJudgment(a: Draft, b: Draft, c: Context, size: Projection -> nat, q: Request)
    requires SameQuestion(a, b) && DraftOk(a) && DraftOk(b)
    ensures Requests(a, c, size, q) <==> Requests(b, c, size, q)
  {}

  // ---------------------------------------------------------------- ranking

  function InsertDescending(x: real, s: seq<real>): (r: seq<real>)
    ensures multiset(r) == multiset(s) + multiset{x}
  {
    if s == [] || x >= s[0] then
      assert multiset([x] + s) == multiset{x} + multiset(s);
      [x] + s
    else
      assert s == [s[0]] + s[1..];
      [s[0]] + InsertDescending(x, s[1..])
  }

  function Descending(s: seq<real>): (r: seq<real>)
    ensures multiset(r) == multiset(s) && |r| == |s|
  {
    if s == [] then []
    else
      assert s == [s[0]] + s[1..];
      var r := InsertDescending(s[0], Descending(s[1..]));
      assert |multiset(r)| == |r| && |multiset(s)| == |s|;
      r
  }

  ghost predicate IsDescending(s: seq<real>) { forall i, j :: 0 <= i < j < |s| ==> s[i] >= s[j] }

  lemma {:induction false} InsertKeepsOrder(x: real, s: seq<real>)
    requires IsDescending(s)
    ensures IsDescending(InsertDescending(x, s))
  {
    if s != [] && x < s[0] {
      InsertKeepsOrder(x, s[1..]);
      var tail := InsertDescending(x, s[1..]);
      forall j | 0 <= j < |tail| ensures s[0] >= tail[j] {
        assert tail[j] in multiset(tail);
        assert tail[j] == x || tail[j] in s[1..];
      }
    }
  }

  lemma {:induction false} DescendingIsOrdered(s: seq<real>)
    ensures IsDescending(Descending(s))
  {
    if s != [] {
      DescendingIsOrdered(s[1..]);
      InsertKeepsOrder(s[0], Descending(s[1..]));
    }
  }

  function Without(s: seq<real>, i: nat): seq<real>
    requires i < |s|
  {
    s[..i] + s[i + 1..]
  }

  lemma WithoutKeeps(s: seq<real>, i: nat, k: nat)
    requires i < |s| && k < |s| && i != k
    ensures s[k] in Without(s, i) && multiset(Without(s, i)) + multiset{s[i]} == multiset(s)
  {
    assert s == s[..i] + [s[i]] + s[i + 1..];
    var t := Without(s, i);
    if k < i { assert t[k] == s[k]; } else { assert t[k - 1] == s[k]; }
  }

  /** `r` is `s` in descending order. */
  ghost predicate Ranks(r: seq<real>, s: seq<real>) {
    multiset(r) == multiset(s) && |r| == |s| && IsDescending(r)
  }

  /** Removing one largest entry leaves the rest of the ranking. */
  lemma RestOfRanking(s: seq<real>, r: seq<real>, i: nat)
    requires Ranks(r, s) && |s| >= 2 && i < |s| && s[i] == r[0]
    ensures multiset(Without(s, i)) == multiset(r[1..])
  {
    WithoutKeeps(s, i, if i == 0 then 1 else 0);
    assert multiset(r) == multiset{r[0]} + multiset(r[1..]) by { assert r == [r[0]] + r[1..]; }
    assert multiset(r[1..]) == multiset(r) - multiset{r[0]} == multiset(Without(s, i));
  }

  lemma OthersBelowSecond(s: seq<real>, r: seq<real>, i: nat, k: nat)
    requires Ranks(r, s) && |s| >= 2 && i < |s| && s[i] == r[0] && k < |s| && k != i
    ensures s[k] <= r[1]
  {
    RestOfRanking(s, r, i);
    WithoutKeeps(s, i, k);
    assert s[k] in multiset(r[1..]);
  }

  lemma SecondIsAnother(s: seq<real>, r: seq<real>, i: nat) returns (k: nat)
    requires Ranks(r, s) && |s| >= 2 && i < |s| && s[i] == r[0]
    ensures k < |s| && k != i && s[k] == r[1]
  {
    RestOfRanking(s, r, i);
    var t := Without(s, i);
    assert r[1..][0] in multiset(t);
    var h :| 0 <= h < |t| && t[h] == r[1];
    k := if h < i then h else h + 1;
  }

  ghost predicate LeadsBy(s: seq<real>, i: nat, margin: real)
    requires i < |s|
  {
    forall k :: 0 <= k < |s| && k != i ==> s[i] > s[k] && s[i] - s[k] >= margin
  }

  lemma LargestIsFirst(s: seq<real>, r: seq<real>, i: nat)
    requires Ranks(r, s) && i < |s| && forall k :: 0 <= k < |s| ==> s[k] <= s[i]
    ensures s[i] == r[0]
  {
    assert r[0] in multiset(s) && s[i] in multiset(r);
  }

  /** The gap between the two best scores is positive and wide enough exactly when one entry leads all others by it. */
  lemma GapMeansLeader(s: seq<real>, r: seq<real>, i: nat, margin: real)
    requires Ranks(r, s) && |s| >= 2 && i < |s| && forall k :: 0 <= k < |s| ==> s[k] <= s[i]
    ensures (r[0] - r[1] != 0.0 && r[0] - r[1] >= margin) <==> LeadsBy(s, i, margin)
  {
    LargestIsFirst(s, r, i);
    forall k | 0 <= k < |s| && k != i ensures s[k] <= r[1] { OthersBelowSecond(s, r, i, k); }
    var k := SecondIsAnother(s, r, i);
    if LeadsBy(s, i, margin) { assert s[i] > s[k] && s[i] - s[k] >= margin; }
  }

  // ---------------------------------------------------------------- the outcome

  function SemanticCandidate(ids: seq<string>, e: Evidence): Option<string> {
    if e.decisionId != DECISION || e.status != "success" || e.semanticType != "choice" then None
    else if e.value.None? || e.value.value !in ids then None
    else e.value
  }

  /** The entries that carry a number, finite or not. */
  function Numeric(d: seq<(string, Score)>): seq<(string, Score)> {
    if d == [] then []
    else
      var n := |d| - 1;
      if d[n].1.NonNumeric? then Numeric(d[..n]) else Numeric(d[..n]) + [d[n]]
  }

  predicate InUnit(x: Score) { x.Number? && 0.0 <= x.r <= 1.0 }

  predicate AllInUnit(d: seq<(string, Score)>) { forall e <- d :: InUnit(e.1) }

  function Keys(d: seq<(string, Score)>): (ks: seq<string>)
    ensures |ks| == |d|
  {
    seq(|d|, i requires 0 <= i < |d| => d[i].0)
  }

  function Values(d: seq<(string, Score)>): (vs: seq<real>)
    requires AllInUnit(d)
    ensures |vs| == |d|
  {
    seq(|d|, i requires 0 <= i < |d| => d[i].1.r)
  }

  /** The first position of a largest value. */
  function Top(vs: seq<real>): (i: nat)
    requires vs != []
    ensures i < |vs| && forall k :: 0 <= k < |vs| ==> vs[k] <= vs[i]
  {
    var n := |vs| - 1;
    if n == 0 then 0
    else
      var i := Top(vs[..n]);
      assert forall k :: 0 <= k < n ==> vs[..n][k] == vs[k];
      if vs[n] > vs[i] then n else i
  }

  predicate SameSet(a: seq<string>, b: seq<string>) { (forall x <- a :: x in b) && forall x <- b :: x in a }

  function EvidenceOutcome(d: Draft, e: Evidence, p: Policy): Outcome {
    var c := SemanticCandidate(d.candidateIds, e);
    if c.None? || !InUnit(e.confidence) then ProviderFailure
    else if e.confidence.r < p.minimumConfidence then Uncertainty
    else
      var dist := Numeric(e.distribution);
      if !SameSet(Keys(dist), d.candidateIds) || !AllInUnit(dist) || |dist| < 2 then ProviderFailure
      else
        var ranked := Descending(Values(dist));
        var margin := ranked[0] - ranked[1];
        if margin == 0.0 || margin < p.minimumMargin then Uncertainty
        else if dist[Top(Values(dist))].0 != c.value then ProviderFailure
        else if c.value == d.initial then Agreement
        else Disagreement
  }

  /** A distribution over exactly the candidates, with every score in the unit interval. */
  ghost predicate Distribution(ids: seq<string>, d: seq<(string, Score)>) {
    SameSet(Keys(Numeric(d)), ids) && AllInUnit(Numeric(d))
  }

  /** The candidate's score is above every other candidate's by at least the margin. */
  ghost predicate Leads(d: seq<(string, Score)>, c: string, margin: real) {
    AllInUnit(Numeric(d)) &&
    exists i :: 0 <= i < |Numeric(d)| && Numeric(d)[i].0 == c && LeadsBy(Values(Numeric(d)), i, margin)
  }

  predicate Confident(e: Evidence, p: Policy) { InUnit(e.confidence) && e.confidence.r >= p.minimumConfidence }

  /** Dictionary keys are distinct. */
  ghost predicate Dictionary(d: seq<(string, Score)>) { Distinct(Keys(d)) }

  lemma {:induction false} NumericKeys(d: seq<(string, Score)>)
    requires Dictionary(d)
    ensures Dictionary(Numeric(d)) && forall e <- Numeric(d) :: e in d
  {
    if d != [] {
      var n := |d| - 1;
      assert Keys(d[..n]) == Keys(d)[..n];
      NumericKeys(d[..n]);
      if !d[n].1.NonNumeric? {
        forall i | 0 <= i < |Numeric(d[..n])| ensures Keys(Numeric(d))[i] != d[n].0 {
          assert Numeric(d[..n])[i] in d[..n];
          var j :| 0 <= j < n && d[j] == Numeric(d[..n])[i];
          assert Keys(d)[j] != Keys(d)[n];
        }
        assert Keys(Numeric(d)) == Keys(Numeric(d[..n])) + [d[n].0];
      }
    }
  }

  lemma TwoOrMore(ids: seq<string>, dist: seq<(string, Score)>)
    requires Distinct(ids) && |ids| >= 2 && SameSet(Keys(dist), ids)
    ensures |dist| >= 2
  {
    assert ids[0] in ids && ids[1] in ids && ids[0] != ids[1];
    assert ids[0] in Keys(dist) && ids[1] in Keys(dist);
  }

  /** On a sound distribution the gap test and the first largest key find exactly the leader. */
  lemma LeaderIsTop(dist: seq<(string, Score)>, c: string, margin: real)
    requires AllInUnit(dist) && |dist| >= 2 && Dictionary(dist)
    ensures var vs := Values(dist); var gap := Descending(vs)[0] - Descending(vs)[1];
      (gap != 0.0 && gap >= margin && dist[Top(vs)].0 == c) <==>
      (exists i :: 0 <= i < |dist| && dist[i].0 == c && LeadsBy(vs, i, margin))
  {
    var vs := Values(dist);
    var t := Top(vs);
    DescendingIsOrdered(vs);
    GapMeansLeader(vs, Descending(vs), t, margin);
    if i :| 0 <= i < |dist| && dist[i].0 == c && LeadsBy(vs, i, margin) { assert i == t; }
  }

  /** The evidence is a successful choice of candidate `x` for this decision. */
  ghost predicate Names(d: Draft, e: Evidence, x: string) {
    e.decisionId == DECISION && e.status == "success" && e.semanticType == "choice" && e.value == Some(x) && x in d.candidateIds
  }

  /** The numbers of the distribution score exactly the candidates, each between zero and one. */
  ghost predicate Scored(ids: seq<string>, d: seq<(string, Score)>) {
    && (forall y <- d :: y.1 != NonNumeric ==> y.0 in ids && y.1.Number? && 0.0 <= y.1.r <= 1.0)
    && (forall x <- ids :: exists y :: y in d && y.0 == x && y.1.Number?)
  }

  /** Every score of `x` is above every other candidate's, by at least the margin. */
  ghost predicate Ahead(d: seq<(string, Score)>, x: string, margin: real) {
    forall a, b :: a in d && b in d && a.0 == x && b.0 != x && a.1.Number? && b.1.Number? ==>
      a.1.r > b.1.r && a.1.r - b.1.r >= margin
  }

  /**
   What evidence establishes. Agreement and disagreement: it names a candidate, confidently, and that candidate's
   score is ahead of every other's. Uncertainty: too little confidence, or no candidate is ahead. Anything else is
   a failure of the provider.
   */
  ghost predicate Finds(d: Draft, e: Evidence, p: Policy, semantic: Option<string>, o: Outcome) {
    var judged := semantic.Some? && e.confidence.Number? && 0.0 <= e.confidence.r <= 1.0;
    var sure := judged && e.confidence.r >= p.minimumConfidence && Scored(d.candidateIds, e.distribution);
    var decisive := sure && Ahead(e.distribution, semantic.value, p.minimumMargin);
    && (forall x :: semantic == Some(x) <==> Names(d, e, x))
    && (o == Agreement <==> decisive && semantic.value == d.initial)
    && (o == Disagreement <==> decisive && semantic.value != d.initial)
    && (o == Uncertainty <==>
        judged && (e.confidence.r < p.minimumConfidence
                   || (sure && forall x <- d.candidateIds :: !Ahead(e.distribution, x, p.minimumMargin))))
  }

  lemma OutcomeMeaning(d: Draft, e: Evidence, p: Policy)
    requires DraftOk(d) && Dictionary(e.distribution)
    ensures Finds(d, e, p, SemanticCandidate(d.candidateIds, e), EvidenceOutcome(d, e, p))
  {
    hide Descending, Top, Numeric, Keys, Values, Leads, Distribution, Dictionary, LeadsBy, Scored, Ahead;
    OutcomeByLeader(d, e, p);
    ScoredIsDistribution(d.candidateIds, e.distribution);
    if Distribution(d.candidateIds, e.distribution) {
      forall x | x in d.candidateIds ensures Leads(e.distribution, x, p.minimumMargin) <==> Ahead(e.distribution, x, p.minimumMargin) {
        AheadLeads(d.candidateIds, e.distribution, x, p.minimumMargin);
      }
    }
  }

  lemma {:induction false} NumericMembers(d: seq<(string, Score)>)
    ensures forall y :: y in Numeric(d) <==> y in d && y.1 != NonNumeric
  {
    if d != [] { NumericMembers(d[..|d| - 1]); }
  }

  lemma ScoredIsDistribution(ids: seq<string>, d: seq<(string, Score)>)
    ensures Scored(ids, d) <==> Distribution(ids, d)
  {
    var dist := Numeric(d);
    NumericMembers(d);
    assert forall i :: 0 <= i < |dist| ==> Keys(dist)[i] == dist[i].0 && dist[i] in dist;
    if Distribution(ids, d) {
      forall x | x in ids ensures exists y :: y in d && y.0 == x && y.1.Number? {
        var i :| 0 <= i < |dist| && Keys(dist)[i] == x;
        assert dist[i] in d && InUnit(dist[i].1);
      }
    }
  }

  lemma AheadLeads(ids: seq<string>, d: seq<(string, Score)>, x: string, margin: real)
    requires Dictionary(d) && Distribution(ids, d) && x in ids
    ensures Leads(d, x, margin) <==> Ahead(d, x, margin)
  {
    var dist := Numeric(d);
    NumericMembers(d);
    NumericKeys(d);
    var i :| 0 <= i < |dist| && Keys(dist)[i] == x;
    assert forall k :: 0 <= k < |dist| ==> Keys(dist)[k] == dist[k].0 && dist[k] in d && Values(dist)[k] == dist[k].1.r;
    assert forall k :: 0 <= k < |dist| && k != i ==> Keys(dist)[k] != x;
  }

  /** The three outcomes in terms of the ranking's leader. */
  lemma OutcomeByLeader(d: Draft, e: Evidence, p: Policy)
    requires DraftOk(d) && Dictionary(e.distribution)
    ensures var c := SemanticCandidate(d.candidateIds, e);
      var o := EvidenceOutcome(d, e, p);
      var decisive := c.Some? && Confident(e, p) && Distribution(d.candidateIds, e.distribution) &&
        Leads(e.distribution, c.value, p.minimumMargin);
      (o == Agreement <==> decisive && c.value == d.initial) &&
      (o == Disagreement <==> decisive && c.value != d.initial) &&
      (o == Uncertainty <==>
        (c.Some? && InUnit(e.confidence) &&
        (!Confident(e, p) ||
        (Distribution(d.candidateIds, e.distribution) &&
        forall x <- d.candidateIds :: !Leads(e.distribution, x, p.minimumMargin)))))
  {
    if SemanticCandidate(d.candidateIds, e).Some? && Confident(e, p) && Distribution(d.candidateIds, e.distribution) {
      TwoOrMore(d.candidateIds, Numeric(e.distribution));
      GapFindsLeader(d.candidateIds, e.distribution, p.minimumMargin);
    }
  }

  /** The first largest key, and the gap test, in terms of the leader. */
  lemma {:induction false} GapFindsLeader(ids: seq<string>, d: seq<(string, Score)>, margin: real)
    requires Dictionary(d) && Distribution(ids, d) && |Numeric(d)| >= 2
    ensures var dist := Numeric(d);
      var vs := Values(dist);
      var gap := Descending(vs)[0] - Descending(vs)[1];
      var passes := gap != 0.0 && gap >= margin;
      (forall c :: Leads(d, c, margin) <==> passes && dist[Top(vs)].0 == c) &&
      (passes <==> exists x :: x in ids && Leads(d, x, margin))
  {
    var dist := Numeric(d);
    NumericKeys(d);
    forall c ensures Leads(d, c, margin) <==>
      (var vs := Values(dist); var gap := Descending(vs)[0] - Descending(vs)[1]; gap != 0.0 && gap >= margin && dist[Top(vs)].0 == c)
    {
      LeaderIsTop(dist, c, margin);
    }
    var t := dist[Top(Values(dist))].0;
    assert t == Keys(dist)[Top(Values(dist))] && t in ids;
  }

  // ---------------------------------------------------------------- resolutions

  predicate Postponed(d: Disposition) { d == DeferForEvidence || d == EscalateReview }

  predicate NewAuthority(b: Basis) { b == AdditionalEvidence || b == IndependentReview || b == HumanAuthority }

  predicate ResolutionOk(r: Resolution, d: Draft, semantic: Option<string>, o: Outcome, p: Policy) {
    r.decisionId == DECISION && r.draftId == d.draftId && r.initial == d.initial && r.semantic == semantic &&
    (r.resolved.Some? ==> r.resolved.value in d.candidateIds) &&
    (Postponed(r.disposition) ==> r.resolved.None?) &&
    match o
    case Agreement => r.disposition == RetainInitial && r.basis == SemanticAgreement && r.resolved == Some(d.initial)
    case Disagreement =>
      if r.disposition == AcceptSemantic then r.basis == SemanticEvidence && r.resolved == semantic
      else if r.disposition == RejectSemantic then
        (r.basis == DeterministicAuthority || NewAuthority(r.basis)) && r.resolved.Some? && r.resolved != semantic && r.refs != []
      else Postponed(r.disposition)
    case Uncertainty =>
      Postponed(r.disposition) ||
      (r.disposition == ResolveUncertainty && NewAuthority(r.basis) && r.resolved.Some? && r.refs != [])
    case ProviderFailure =>
      Postponed(r.disposition) ||
      (p.providerFailure == FallbackInitial && r.disposition == ProviderFallback &&
      r.basis == FailurePolicyBasis && r.resolved == Some(d.initial))
  }

  /**
   Which resolutions are taken, disposition by disposition: it must be about this draft and this evidence and may only
   choose a candidate; to keep the initial choice it needs agreement, to take or to overrule the provider's choice a
   disagreement, to settle an uncertainty new authority, and to fall back on the initial choice a failed provider
   under a policy that permits it. It may postpone anything but an agreement, without a choice.
   */
  ghost predicate Sanctioned(r: Resolution, d: Draft, semantic: Option<string>, o: Outcome, p: Policy) {
    && r.decisionId == DECISION && r.draftId == d.draftId && r.initial == d.initial && r.semantic == semantic
    && (r.resolved.None? || r.resolved.value in d.candidateIds)
    && match r.disposition
       case RetainInitial => o == Agreement && r.basis == SemanticAgreement && r.resolved == Some(d.initial)
       case AcceptSemantic => o == Disagreement && r.basis == SemanticEvidence && r.resolved == semantic
       case RejectSemantic =>
         o == Disagreement && r.resolved != None && r.resolved != semantic && r.refs != []
         && r.basis in {DeterministicAuthority, AdditionalEvidence, IndependentReview, HumanAuthority}
       case ResolveUncertainty =>
         o == Uncertainty && r.resolved != None && r.refs != []
         && r.basis in {AdditionalEvidence, IndependentReview, HumanAuthority}
       case ProviderFallback =>
         o == ProviderFailure && p.providerFailure == FallbackInitial && r.basis == FailurePolicyBasis && r.resolved == Some(d.initial)
       case DeferForEvidence => o != Agreement && r.resolved == None
       case EscalateReview => o != Agreement && r.resolved == None
  }

  lemma {:induction false} SanctionedExactly(r: Resolution, d: Draft, semantic: Option<string>, o: Outcome, p: Policy)
    ensures ResolutionOk(r, d, semantic, o, p) <==> Sanctioned(r, d, semantic, o, p)
  {}

  function AutomaticResolution(d: Draft, semantic: Option<string>): Resolution {
    Resolution(DECISION, d.draftId, d.initial, semantic, Some(d.initial), RetainInitial, SemanticAgreement, [])
  }

  predicate AdvanceAllowed(r: Option<Resolution>, o: Outcome) {
    r.Some? && r.value.resolved.Some? && !Postponed(r.value.disposition) &&
    (o == ProviderFailure ==> r.value.disposition == ProviderFallback)
  }

  // ---------------------------------------------------------------- the checkpoint

  function Failed(q: Request, status: string): Evidence {
    Evidence(DECISION, status, "choice", None, NonNumeric, [], Some(QUESTION_SET), Some(q.payload), Some(PROJECTOR))
  }

  /** The evidence the checkpoint goes on with: the provider's own, if it answers this very request. */
  function Accepted(q: Request, reply: Reply): Evidence {
    match reply
    case Raised => Failed(q, "service_failure")
    case WrongType => Failed(q, "invalid_contract")
    case Replied(e) =>
      if e.decisionId != DECISION || (e.requestDigest.Some? && e.requestDigest.value != q.payload) ||
        (e.questionSet.Some? && e.questionSet.value != QUESTION_SET) || (e.projector.Some? && e.projector.value != PROJECTOR)
      then Failed(q, "invalid_contract")
      else e
  }

  /** The checkpoint once the request is built. */
  function Conclude(d: Draft, q: Request, reply: Reply, p: Policy, resolution: Option<Resolution>): Result<Receipt> {
    var e := Accepted(q, reply);
    var semantic := SemanticCandidate(d.candidateIds, e);
    var o := EvidenceOutcome(d, e, p);
    if resolution.Some? && !ResolutionOk(resolution.value, d, semantic, o, p) then Err
    else
      var final := if resolution.None? && o == Agreement then Some(AutomaticResolution(d, semantic)) else resolution;
      var advance := AdvanceAllowed(final, o);
      Ok(Receipt(q, e, semantic, o, final, if advance then final.value.resolved else None, advance))
  }

  /** The provider answered, for this decision, and nothing it says of the request, the question or the projection differs. */
  ghost predicate Answers(q: Request, reply: Reply) {
    && reply.Replied? && reply.evidence.decisionId == DECISION
    && reply.evidence.requestDigest in {None, Some(q.payload)}
    && reply.evidence.questionSet in {None, Some(QUESTION_SET)}
    && reply.evidence.projector in {None, Some(PROJECTOR)}
  }

  /** The receipt's evidence is the provider's own if it answers this very request, and names nothing otherwise. */
  ghost predicate Carries(q: Request, reply: Reply, e: Evidence) {
    if Answers(q, reply) then e == reply.evidence
    else e.status == (if reply.Raised? then "service_failure" else "invalid_contract") && e.value == None
  }

  /**
   What a receipt says: the evidence, what it establishes, a resolution exactly when one was offered or the two agree,
   never one that is not sanctioned, and an advance exactly to the choice the resolution names.
   */
  ghost predicate Records(d: Draft, q: Request, reply: Reply, p: Policy, resolution: Option<Resolution>, rc: Receipt) {
    && rc.request == q && Carries(q, reply, rc.evidence) && Finds(d, rc.evidence, p, rc.semantic, rc.outcome)
    && (rc.resolution.Some? <==> resolution.Some? || rc.outcome == Agreement)
    && (resolution.Some? ==> rc.resolution == resolution)
    && (rc.resolution.Some? ==> Sanctioned(rc.resolution.value, d, rc.semantic, rc.outcome, p))
    && rc.applied == (if rc.resolution.Some? then rc.resolution.value.resolved else None)
    && (rc.advance <==> rc.applied.Some?)
  }

  /** The resolution offered is not sanctioned, whatever is made of the provider's reply. */
  ghost predicate Unsanctioned(d: Draft, q: Request, reply: Reply, p: Policy, resolution: Option<Resolution>) {
    && resolution.Some?
    && forall e, semantic, o :: Carries(q, reply, e) && Finds(d, e, p, semantic, o) ==> !Sanctioned(resolution.value, d, semantic, o, p)
  }

  /** A provider's reply whose scores have distinct keys, as a dictionary's have. */
  ghost predicate Proper(reply: Reply) { reply.Replied? ==> Dictionary(reply.evidence.distribution) }

  /** A checkpoint is refused exactly when the resolution offered is not sanctioned, and otherwise says exactly that. */
  lemma {:induction false} ConcludeMeaning(d: Draft, q: Request, reply: Reply, p: Policy, resolution: Option<Resolution>)
    requires DraftOk(d) && Proper(reply)
    ensures var r := Conclude(d, q, reply, p, resolution);
      (r.Err? <==> Unsanctioned(d, q, reply, p, resolution)) && (r.Ok? ==> Records(d, q, reply, p, resolution, r.value))
  {
    hide EvidenceOutcome, SemanticCandidate, Finds;
    var e := Accepted(q, reply);
    var semantic := SemanticCandidate(d.candidateIds, e);
    var o := EvidenceOutcome(d, e, p);
    AcceptedIsDictionary(q, reply);
    AcceptedCarries(q, reply);
    OutcomeMeaning(d, e, p);
    forall e', semantic', o' | Carries(q, reply, e') && Finds(d, e', p, semantic', o') ensures semantic' == semantic && o' == o {
      OneFinding(d, q, reply, p, e, e', semantic, semantic', o, o');
    }
    if resolution.Some? { SanctionedExactly(resolution.value, d, semantic, o, p); }
  }

  lemma {:induction false} AcceptedCarries(q: Request, reply: Reply)
    ensures Carries(q, reply, Accepted(q, reply))
  {}

  /** One reply establishes one thing. */
  lemma OneFinding(d: Draft, q: Request, reply: Reply, p: Policy, e: Evidence, f: Evidence,
                   semantic: Option<string>, other: Option<string>, o: Outcome, u: Outcome)
    requires Carries(q, reply, e) && Carries(q, reply, f) && Finds(d, e, p, semantic, o) && Finds(d, f, p, other, u)
    ensures semantic == other && o == u
  {
    hide Answers, Scored, Ahead;
    assert semantic.Some? ==> Names(d, e, semantic.value);
    assert other.Some? ==> Names(d, f, other.value);
  }

  lemma AcceptedIsDictionary(q: Request, reply: Reply)
    requires Proper(reply)
    ensures Dictionary(Accepted(q, reply).distribution)
  {}

  method RunCheckpoint(d: Draft, c: Context, provider: Request -> Reply, p: Policy, resolution: Option<Resolution>, size: Projection -> nat)
    returns (r: Result<Receipt>)
    ensures r.Ok? ==> Requests(d, c, size, r.value.request) && r == Conclude(d, r.value.request, provider(r.value.request), p, resolution)
    // A receipt says what Records states; without one there is no request, or the resolution is not sanctioned.
    ensures r.Ok? && Proper(provider(r.value.request)) ==>
      DraftOk(d) && Records(d, r.value.request, provider(r.value.request), p, resolution, r.value)
    ensures forall q :: Requests(d, c, size, q) && Proper(provider(q)) ==>
      (r.Err? <==> Unsanctioned(d, q, provider(q), p, resolution))
    ensures r.Err? ==> forall q :: Requests(d, c, size, q) ==> Conclude(d, q, provider(q), p, resolution).Err?
  {
    var request := BuildRequest(d, c, size);
    if request.Err? { return Err; }
    r := Conclude(d, request.value, provider(request.value), p, resolution);
    if Proper(provider(request.value)) { ConcludeMeaning(d, request.value, provider(request.value), p, resolution); }
    forall q | Requests(d, c, size, q) ensures q == request.value { OneRequest(d, c, size, q, request.value); }
  }

  /** Why a checkpoint may advance to a choice, outcome by outcome. */
  ghost predicate Justified(d: Draft, rc: Receipt, p: Policy, choice: string) {
    var e := rc.evidence;
    choice in d.candidateIds && rc.resolution.Some? &&
    ((rc.outcome == Agreement || rc.outcome == Disagreement) ==>
      rc.semantic.Some? && Names(d, e, rc.semantic.value) && e.confidence.Number? && e.confidence.r >= p.minimumConfidence &&
      Scored(d.candidateIds, e.distribution) && Ahead(e.distribution, rc.semantic.value, p.minimumMargin)) &&
    (rc.outcome == Agreement ==> choice == d.initial && rc.semantic == Some(choice)) &&
    (rc.outcome == Disagreement ==>
      rc.semantic == Some(choice) ||
      (rc.resolution.value.refs != [] && rc.resolution.value.basis !in {SemanticAgreement, SemanticEvidence, FailurePolicyBasis, OtherBasis})) &&
    (rc.outcome == Uncertainty ==> rc.resolution.value.refs != [] && NewAuthority(rc.resolution.value.basis)) &&
    (rc.outcome == ProviderFailure ==> choice == d.initial && p.providerFailure == FallbackInitial)
  }

  /** Every advance is to a listed candidate and justified; without an advance nothing is applied. */
  lemma AdvanceIsJustified(d: Draft, q: Request, reply: Reply, p: Policy, resolution: Option<Resolution>)
    requires DraftOk(d) && Proper(reply)
    requires Conclude(d, q, reply, p, resolution).Ok?
    ensures var rc := Conclude(d, q, reply, p, resolution).value;
      (rc.applied.Some? <==> rc.advance) && (rc.advance ==> Justified(d, rc, p, rc.applied.value))
  {
    hide Conclude, Scored, Ahead, Carries, Proper;
    ConcludeMeaning(d, q, reply, p, resolution);
    var rc := Conclude(d, q, reply, p, resolution).value;
    assert rc.semantic.Some? ==> Names(d, rc.evidence, rc.semantic.value);
  }

  /** Without a supplied resolution the checkpoint advances exactly on agreement. */
  lemma UnresolvedAdvancesOnAgreement(d: Draft, q: Request, reply: Reply, p: Policy)
    ensures var r := Conclude(d, q, reply, p, None);
      r.Ok? && (r.value.advance <==> EvidenceOutcome(d, Accepted(q, reply), p) == Agreement)
  {}

  /** With a valid resolution it advances exactly when the resolution names a choice: the later tests only repeat validation. */
  lemma ResolvedAdvancesOnChoice(d: Draft, q: Request, reply: Reply, p: Policy, res: Resolution)
    ensures var e := Accepted(q, reply);
      var o := EvidenceOutcome(d, e, p);
      var ok := ResolutionOk(res, d, SemanticCandidate(d.candidateIds, e), o, p);
      var r := Conclude(d, q, reply, p, Some(res));
      && (r.Ok? <==> ok) && (r.Ok? ==> (r.value.advance <==> res.resolved.Some?))
      // Under a blocking policy a failed provider never lets it advance, whatever resolution is offered.
      && (r.Ok? && o == ProviderFailure && p.providerFailure == Block ==> !r.value.advance)
  {}

  predicate Decisive(o: Outcome) { o == Agreement || o == Disagreement }

  /**
   The agent's judgment cannot reach the provider: for drafts that differ only in it, every provider is
   asked the same thing, so what it finds, and whether that is decisive, is the same for both.
   */
  lemma JudgmentDoesNotInterfere(a: Draft, b: Draft, c: Context, provider: Request -> Reply, p: Policy, size: Projection -> nat, q: Request, r: Request)
    requires SameQuestion(a, b) && Requests(a, c, size, q) && Requests(b, c, size, r)
    ensures q == r
    ensures var ra, rb := Conclude(a, q, provider(q), p, None).value, Conclude(b, r, provider(r), p, None).value;
      ra.evidence == rb.evidence && ra.semantic == rb.semantic &&
      (Decisive(ra.outcome) <==> Decisive(rb.outcome)) && (!Decisive(ra.outcome) ==> ra.outcome == rb.outcome)
  {
    RequestHidesJudgment(a, b, c, size, q);
    OneRequest(b, c, size, q, r);
  }
}
