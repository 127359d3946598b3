/**
 The rebuildable index: incremental sync against a rebuild from scratch.

 Projecting one run's files is an arbitrary deterministic function that may fail; equal fingerprints
 of one run stand for equal content. A run identifier is modelled by its rank in the sort order.
 */
module IndexSync {
  import opened Wrappers

  type RunId = int
  type WorkflowId = string

  datatype Storage = ActiveRuns | Archive

  /** One discovered run directory. */
  datatype Source = Source(id: RunId, storage: Storage, dir: string, fingerprint: string)

  datatype Projected = Fails | Succeeds(derived: string, workflow: Option<WorkflowId>)
  type Projector = (RunId, string) -> Projected

  /** A run row with the rows that cascade from it, or an error row. */
  datatype Row =
    | Current(storage: Storage, dir: string, fingerprint: string, derived: string, workflow: Option<WorkflowId>)
    | Failed(storage: Storage, dir: string, fingerprint: string)

  /** The run rows and the workflow table, whose primary key is the workflow identifier. */
  datatype Index = Index(rows: map<RunId, Row>, owners: map<WorkflowId, RunId>)

  const EMPTY := Index(map[], map[])

  // ---------------------------------------------------------------- one run

  function Delete(x: Index, id: RunId): Index {
    Index(x.rows - {id}, map w | w in x.owners && x.owners[w] != id :: x.owners[w])
  }

  /** Replace one run's projection in a transaction; a workflow identifier owned by another run makes it fail. */
  function IndexRun(x: Index, s: Source, project: Projector): Index {
    var y := Delete(x, s.id);
    match project(s.id, s.fingerprint)
    case Fails => y.(rows := y.rows[s.id := Failed(s.storage, s.dir, s.fingerprint)])
    case Succeeds(derived, workflow) =>
      if workflow.Some? && workflow.value in y.owners
      then y.(rows := y.rows[s.id := Failed(s.storage, s.dir, s.fingerprint)])
      else Index(y.rows[s.id := Current(s.storage, s.dir, s.fingerprint, derived, workflow)],
                 if workflow.Some? then y.owners[workflow.value := s.id] else y.owners)
  }

  predicate UpToDate(x: Index, s: Source) {
    s.id in x.rows && x.rows[s.id].Current? && x.rows[s.id].fingerprint == s.fingerprint
    && x.rows[s.id].dir == s.dir && x.rows[s.id].storage == s.storage
  }

  function SyncRun(x: Index, s: Source, force: bool, project: Projector): Index {
    if !force && UpToDate(x, s) then x else IndexRun(x, s, project)
  }

  // ---------------------------------------------------------------- a whole sync

  function SyncRuns(x: Index, d: seq<Source>, force: bool, project: Projector): Index {
    if d == [] then x else SyncRun(SyncRuns(x, d[..|d| - 1], force, project), d[|d| - 1], force, project)
  }

  function Ids(d: seq<Source>): set<RunId> { set i | 0 <= i < |d| :: d[i].id }

  function Prune(x: Index, keep: set<RunId>): Index {
    Index(map r | r in x.rows && r in keep :: x.rows[r], map w | w in x.owners && x.owners[w] in keep :: x.owners[w])
  }

  /** A sync over the whole scope: index every discovered run, then drop rows without a source. */
  function FullSync(x: Index, d: seq<Source>, force: bool, project: Projector): Index {
    Prune(SyncRuns(x, d, force, project), Ids(d))
  }

  function Rebuild(d: seq<Source>, project: Projector): Index { FullSync(EMPTY, d, true, project) }

  /** Discovery returns each run once, in identifier order. */
  predicate Sorted(d: seq<Source>) { forall i, j :: 0 <= i < j < |d| ==> d[i].id < d[j].id }

  // ---------------------------------------------------------------- every index a sync can leave

  /** Current rows hold the projection of their fingerprint, and the workflow table lists exactly their workflows. */
  ghost predicate Consistent(x: Index, project: Projector) {
    && (forall r :: r in x.rows && x.rows[r].Current? ==>
        project(r, x.rows[r].fingerprint) == Succeeds(x.rows[r].derived, x.rows[r].workflow))
    && (forall r :: r in x.rows && x.rows[r].Current? && x.rows[r].workflow.Some? ==> Owns(x, r, x.rows[r].workflow.value))
    && (forall w :: w in x.owners ==> OwnerRow(x, x.owners[w], w))
  }

  ghost predicate Owns(x: Index, r: RunId, w: WorkflowId) { w in x.owners && x.owners[w] == r }

  ghost predicate OwnerRow(x: Index, r: RunId, w: WorkflowId) { r in x.rows && x.rows[r].Current? && x.rows[r].workflow == Some(w) }

  lemma DeleteKeepsConsistent(x: Index, id: RunId, project: Projector)
    requires Consistent(x, project)
    ensures Consistent(Delete(x, id), project)
  {
    var y := Delete(x, id);
    forall w | w in y.owners ensures OwnerRow(y, y.owners[w], w) { assert OwnerRow(x, x.owners[w], w); }
    forall r | r in y.rows && y.rows[r].Current? && y.rows[r].workflow.Some? ensures Owns(y, r, y.rows[r].workflow.value) {
      assert Owns(x, r, x.rows[r].workflow.value);
    }
  }

  lemma IndexRunKeepsConsistent(x: Index, s: Source, project: Projector)
    requires Consistent(x, project)
    ensures Consistent(IndexRun(x, s, project), project)
  {
    DeleteKeepsConsistent(x, s.id, project);
    var y, z := Delete(x, s.id), IndexRun(x, s, project);
    forall w | w in z.owners ensures OwnerRow(z, z.owners[w], w) {
      if w in y.owners { assert OwnerRow(y, y.owners[w], w); }
    }
    forall r | r in z.rows && z.rows[r].Current? && z.rows[r].workflow.Some? ensures Owns(z, r, z.rows[r].workflow.value) {
      if r != s.id { assert Owns(y, r, y.rows[r].workflow.value); }
    }
  }

  lemma {:induction false} SyncKeepsConsistent(x: Index, d: seq<Source>, force: bool, project: Projector)
    requires Consistent(x, project)
    ensures Consistent(SyncRuns(x, d, force, project), project)
  {
    if d != [] {
      SyncKeepsConsistent(x, d[..|d| - 1], force, project);
      IndexRunKeepsConsistent(SyncRuns(x, d[..|d| - 1], force, project), d[|d| - 1], project);
    }
  }

  lemma PruneKeepsConsistent(x: Index, keep: set<RunId>, project: Projector)
    requires Consistent(x, project)
    ensures Consistent(Prune(x, keep), project)
  {
    var y := Prune(x, keep);
    forall w | w in y.owners ensures OwnerRow(y, y.owners[w], w) { assert OwnerRow(x, x.owners[w], w); }
    forall r | r in y.rows && y.rows[r].Current? && y.rows[r].workflow.Some? ensures Owns(y, r, y.rows[r].workflow.value) {
      assert Owns(x, r, x.rows[r].workflow.value);
    }
  }

  /** Two consistent indexes with the same rows have the same workflow table. */
  lemma RowsDetermineOwners(x: Index, y: Index, project: Projector)
    requires Consistent(x, project) && Consistent(y, project) && x.rows == y.rows
    ensures x == y
  {
    forall w | w in x.owners ensures Owns(y, x.owners[w], w) {
      assert OwnerRow(x, x.owners[w], w);
    }
    forall w | w in y.owners ensures Owns(x, y.owners[w], w) {
      assert OwnerRow(y, y.owners[w], w);
    }
    assert x.owners == y.owners;
  }

  // ---------------------------------------------------------------- what a rebuild yields

  function WorkflowOf(s: Source, project: Projector): Option<WorkflowId> {
    var p := project(s.id, s.fingerprint);
    if p.Succeeds? then p.workflow else None
  }

  /** The run projects, and no earlier run that projects has its workflow identifier. */
  predicate Wins(d: seq<Source>, i: nat, project: Projector)
    requires i < |d|
  {
    project(d[i].id, d[i].fingerprint).Succeeds?
    && (WorkflowOf(d[i], project).Some? ==> forall j :: 0 <= j < i ==> WorkflowOf(d[j], project) != WorkflowOf(d[i], project))
  }

  function ExpectedRow(d: seq<Source>, i: nat, project: Projector): Row
    requires i < |d|
  {
    if Wins(d, i, project)
    then Current(d[i].storage, d[i].dir, d[i].fingerprint, project(d[i].id, d[i].fingerprint).derived, WorkflowOf(d[i], project))
    else Failed(d[i].storage, d[i].dir, d[i].fingerprint)
  }

  /** An index that holds, for the first `k` runs, what a rebuild gives them. */
  ghost predicate MatchesRebuild(x: Index, d: seq<Source>, k: nat, project: Projector)
    requires k <= |d|
  {
    forall i :: 0 <= i < k ==> d[i].id in x.rows && x.rows[d[i].id] == ExpectedRow(d, i, project)
  }

  // ---------------------------------------------------------------- the exact condition

  /**
   Some run that a rebuild would index under workflow `w` has to be indexed again, and in the old
   index `w` still belongs to another run that this sync visits later or only prunes at the end.
   */
  predicate Blocked(x: Index, d: seq<Source>, i: nat, project: Projector)
    requires i < |d|
  {
    && Wins(d, i, project) && !UpToDate(x, d[i])
    && WorkflowOf(d[i], project).Some? && WorkflowOf(d[i], project).value in x.owners
    && var o := x.owners[WorkflowOf(d[i], project).value];
       o != d[i].id && (o !in Ids(d) || o > d[i].id)
  }

  lemma {:induction false} UntouchedRow(x: Index, d: seq<Source>, force: bool, project: Projector, r: RunId)
    requires r !in Ids(d)
    ensures r in SyncRuns(x, d, force, project).rows <==> r in x.rows
    ensures r in x.rows ==> SyncRuns(x, d, force, project).rows[r] == x.rows[r]
  {
    if d != [] {
      assert d[|d| - 1].id in Ids(d);
      assert Ids(d[..|d| - 1]) <= Ids(d) by {
        forall q | q in Ids(d[..|d| - 1]) ensures q in Ids(d) {
          var i :| 0 <= i < |d| - 1 && d[..|d| - 1][i].id == q;
          assert d[i].id == q;
        }
      }
      UntouchedRow(x, d[..|d| - 1], force, project, r);
    }
  }

  lemma PrefixIds(d: seq<Source>, k: nat, r: RunId)
    requires Sorted(d) && k <= |d|
    ensures r in Ids(d[..k]) <==> exists i :: 0 <= i < k && d[i].id == r
    ensures k < |d| ==> d[k].id !in Ids(d[..k])
  {
    if r in Ids(d[..k]) { var i :| 0 <= i < k && d[..k][i].id == r; assert d[i].id == r; }
    if i :| 0 <= i < k && d[i].id == r { assert d[..k][i].id == r; }
    if k < |d| { assert forall i :: 0 <= i < k ==> d[..k][i].id < d[k].id; }
  }

  /** Among the runs that project with one workflow identifier, the first wins. */
  lemma {:induction false} FirstWins(d: seq<Source>, j: nat, project: Projector) returns (i: nat)
    requires j < |d| && WorkflowOf(d[j], project).Some?
    ensures i <= j && Wins(d, i, project) && WorkflowOf(d[i], project) == WorkflowOf(d[j], project)
    decreases j
  {
    if k :| 0 <= k < j && WorkflowOf(d[k], project) == WorkflowOf(d[j], project) {
      i := FirstWins(d, k, project);
    } else {
      i := j;
    }
  }

  /** The state of a sync after `k` runs: those match the rebuild, all other rows are as they were. */
  ghost predicate Progress(x: Index, y: Index, d: seq<Source>, k: nat, project: Projector)
    requires k <= |d|
  {
    && Consistent(x, project) && Consistent(y, project) && Sorted(d)
    && MatchesRebuild(y, d, k, project)
    && (forall r :: r !in Ids(d[..k]) ==> (r in y.rows <==> r in x.rows) && (r in x.rows ==> y.rows[r] == x.rows[r]))
  }

  /** A run that is skipped is one the rebuild would have indexed just so. */
  lemma SkippedRunMatches(x: Index, y: Index, d: seq<Source>, k: nat, project: Projector)
    requires k < |d| && Progress(x, y, d, k, project) && UpToDate(y, d[k])
    requires forall i :: 0 <= i < |d| ==> !Blocked(x, d, i, project)
    ensures y.rows[d[k].id] == ExpectedRow(d, k, project)
  {
    PrefixIds(d, k, d[k].id);
    assert UpToDate(x, d[k]);
    var w := WorkflowOf(d[k], project);
    if !Wins(d, k, project) {
      var j :| 0 <= j < k && WorkflowOf(d[j], project) == w;
      var i := FirstWins(d, j, project);
      assert Owns(x, d[k].id, w.value);
      assert d[i].id < d[k].id;
      assert UpToDate(x, d[i]) ==> Owns(x, d[i].id, w.value);
      assert Blocked(x, d, i, project);
    }
  }

  /** A workflow identifier in the table belongs to an earlier run of this sync or to an old row. */
  lemma OwnerDuringSync(x: Index, y: Index, d: seq<Source>, k: nat, project: Projector, w: WorkflowId)
    requires k < |d| && Progress(x, y, d, k, project) && w in y.owners
    ensures (exists j :: 0 <= j < k && y.owners[w] == d[j].id && Wins(d, j, project) && WorkflowOf(d[j], project) == Some(w))
      || (y.owners[w] !in Ids(d[..k]) && Owns(x, y.owners[w], w))
  {
    var o := y.owners[w];
    assert OwnerRow(y, o, w);
    PrefixIds(d, k, o);
    if o in Ids(d[..k]) {
      var j :| 0 <= j < k && d[j].id == o;
      assert y.rows[d[j].id] == ExpectedRow(d, j, project);
    }
  }

  lemma SmallerIdIsEarlier(d: seq<Source>, k: nat, o: RunId)
    requires Sorted(d) && k < |d|
    ensures o in Ids(d) && o < d[k].id ==> o in Ids(d[..k])
  {
    if o in Ids(d) && o < d[k].id {
      var i :| 0 <= i < |d| && d[i].id == o;
      assert i < k && d[..k][i].id == o;
    }
  }

  lemma ReindexedRunMatches(x: Index, y: Index, d: seq<Source>, k: nat, project: Projector)
    requires k < |d| && Progress(x, y, d, k, project) && !UpToDate(y, d[k])
    requires forall i :: 0 <= i < |d| ==> !Blocked(x, d, i, project)
    ensures IndexRun(y, d[k], project).rows[d[k].id] == ExpectedRow(d, k, project)
  {
    PrefixIds(d, k, d[k].id);
    assert !Blocked(x, d, k, project);
    var w := WorkflowOf(d[k], project);
    if w.Some? {
      if Wins(d, k, project) {
        if w.value in y.owners && y.owners[w.value] != d[k].id {
          OwnerDuringSync(x, y, d, k, project, w.value);
          SmallerIdIsEarlier(d, k, y.owners[w.value]);
        }
      } else {
        var j :| 0 <= j < k && WorkflowOf(d[j], project) == w;
        var i := FirstWins(d, j, project);
        assert y.rows[d[i].id] == ExpectedRow(d, i, project);
        assert Owns(y, d[i].id, w.value) && d[i].id != d[k].id;
      }
    }
  }

  lemma SyncStep(x: Index, y: Index, d: seq<Source>, k: nat, project: Projector)
    requires k < |d| && Progress(x, y, d, k, project)
    requires forall i :: 0 <= i < |d| ==> !Blocked(x, d, i, project)
    ensures Progress(x, SyncRun(y, d[k], false, project), d, k + 1, project)
  {
    var z := SyncRun(y, d[k], false, project);
    IndexRunKeepsConsistent(y, d[k], project);
    if UpToDate(y, d[k]) { SkippedRunMatches(x, y, d, k, project); } else { ReindexedRunMatches(x, y, d, k, project); }
    SyncRunTouchesOne(y, d[k], false, project);
    EarlierRowsStay(y, z, d, k, project);
    forall r | r !in Ids(d[..k + 1]) ensures r != d[k].id && r !in Ids(d[..k]) { LaterPrefix(d, k, r); }
  }

  lemma EarlierRowsStay(y: Index, z: Index, d: seq<Source>, k: nat, project: Projector)
    requires Sorted(d) && k < |d| && MatchesRebuild(y, d, k, project)
    requires forall r :: r != d[k].id ==> (r in z.rows <==> r in y.rows) && (r in y.rows ==> z.rows[r] == y.rows[r])
    ensures MatchesRebuild(z, d, k, project)
  {
    forall i | 0 <= i < k ensures d[i].id in z.rows && z.rows[d[i].id] == ExpectedRow(d, i, project) { IdOrder(d, k, i); }
  }

  lemma LaterPrefix(d: seq<Source>, k: nat, r: RunId)
    requires Sorted(d) && k < |d| && r !in Ids(d[..k + 1])
    ensures r != d[k].id && r !in Ids(d[..k])
  {
    PrefixIds(d, k + 1, r);
    PrefixIds(d, k, r);
  }

  lemma {:induction false} SyncReaches(x: Index, d: seq<Source>, k: nat, project: Projector)
    requires Consistent(x, project) && Sorted(d) && k <= |d| && forall i :: 0 <= i < |d| ==> !Blocked(x, d, i, project)
    ensures Progress(x, SyncRuns(x, d[..k], false, project), d, k, project)
  {
    if k == 0 {
      assert d[..0] == [];
    } else {
      SyncReaches(x, d, k - 1, project);
      SyncStep(x, SyncRuns(x, d[..k - 1], false, project), d, k - 1, project);
      assert d[..k][..k - 1] == d[..k - 1];
    }
  }

  lemma MatchesMeansEqual(y: Index, z: Index, d: seq<Source>, project: Projector)
    requires Consistent(y, project) && Consistent(z, project)
    requires MatchesRebuild(y, d, |d|, project) && MatchesRebuild(z, d, |d|, project)
    ensures Prune(y, Ids(d)) == Prune(z, Ids(d))
  {
    PruneKeepsConsistent(y, Ids(d), project);
    PruneKeepsConsistent(z, Ids(d), project);
    var a, b := Prune(y, Ids(d)), Prune(z, Ids(d));
    forall r | r in Ids(d) ensures r in a.rows && r in b.rows && a.rows[r] == b.rows[r] {
      var i :| 0 <= i < |d| && d[i].id == r;
    }
    assert a.rows == b.rows;
    RowsDetermineOwners(a, b, project);
  }

  /** From nothing, forcing and not forcing are the same. */
  lemma {:induction false} ForceFromScratch(d: seq<Source>, project: Projector)
    requires Sorted(d)
    ensures SyncRuns(EMPTY, d, true, project) == SyncRuns(EMPTY, d, false, project)
  {
    if d != [] {
      var n := |d| - 1;
      assert Sorted(d[..n]);
      ForceFromScratch(d[..n], project);
      PrefixIds(d, n, d[n].id);
      UntouchedRow(EMPTY, d[..n], false, project, d[n].id);
    }
  }

  lemma {:induction false} RebuildMatches(d: seq<Source>, project: Projector)
    requires Sorted(d)
    ensures Consistent(SyncRuns(EMPTY, d, true, project), project)
    ensures MatchesRebuild(SyncRuns(EMPTY, d, true, project), d, |d|, project)
  {
    ForceFromScratch(d, project);
    SyncReaches(EMPTY, d, |d|, project);
    assert d[..|d|] == d;
  }

  /** A blocked run ends as an error row although a rebuild indexes it. */
  lemma {:induction false} BlockedRunFails(x: Index, d: seq<Source>, i: nat, project: Projector)
    requires Consistent(x, project) && Sorted(d) && i < |d| && Blocked(x, d, i, project)
    ensures d[i].id in SyncRuns(x, d[..i + 1], false, project).rows
    ensures SyncRuns(x, d[..i + 1], false, project).rows[d[i].id].Failed?
  {
    var y := SyncRuns(x, d[..i], false, project);
    assert d[..i + 1][..i] == d[..i];
    SyncKeepsConsistent(x, d[..i], false, project);
    var w := WorkflowOf(d[i], project).value;
    var o := x.owners[w];
    assert OwnerRow(x, o, w);
    PrefixIds(d, i, o);
    assert forall k :: 0 <= k < i ==> d[k].id in Ids(d) && d[k].id < d[i].id;
    UntouchedRow(x, d[..i], false, project, o);
    UntouchedRow(x, d[..i], false, project, d[i].id);
    assert Owns(y, o, w);
  }

  lemma {:induction false} LaterRunsLeaveRow(x: Index, d: seq<Source>, i: nat, k: nat, project: Projector)
    requires Sorted(d) && i < k <= |d| && d[i].id in SyncRuns(x, d[..i + 1], false, project).rows
    ensures d[i].id in SyncRuns(x, d[..k], false, project).rows
    ensures SyncRuns(x, d[..k], false, project).rows[d[i].id] == SyncRuns(x, d[..i + 1], false, project).rows[d[i].id]
  {
    if k > i + 1 {
      LaterRunsLeaveRow(x, d, i, k - 1, project);
      assert d[..k][..k - 1] == d[..k - 1] && d[i].id < d[k - 1].id;
    }
  }

  lemma UnblockedSyncEquals(x: Index, d: seq<Source>, project: Projector)
    requires Consistent(x, project) && Sorted(d) && forall i :: 0 <= i < |d| ==> !Blocked(x, d, i, project)
    ensures FullSync(x, d, false, project) == Rebuild(d, project)
  {
    assert d[..|d|] == d;
    RebuildMatches(d, project);
    SyncReaches(x, d, |d|, project);
    MatchesMeansEqual(SyncRuns(x, d, false, project), SyncRuns(EMPTY, d, true, project), d, project);
  }

  lemma BlockedSyncDiffers(x: Index, d: seq<Source>, i: nat, project: Projector)
    requires Consistent(x, project) && Sorted(d) && i < |d| && Blocked(x, d, i, project)
    ensures var id := d[i].id;
      && id in FullSync(x, d, false, project).rows && FullSync(x, d, false, project).rows[id].Failed?
      && id in Rebuild(d, project).rows && Rebuild(d, project).rows[id].Current?
  {
    assert d[..|d|] == d && d[i].id in Ids(d);
    assert Rebuild(d, project).rows[d[i].id] == ExpectedRow(d, i, project) by { RebuildMatches(d, project); }
    BlockedRunFails(x, d, i, project);
    LaterRunsLeaveRow(x, d, i, |d|, project);
  }

  /**
   A full sync from any earlier index equals a rebuild from scratch, rows and workflow table alike,
   exactly when no discovered run is blocked by a stale owner of its workflow identifier.
   */
  lemma SyncEqualsRebuild(x: Index, d: seq<Source>, project: Projector)
    requires Consistent(x, project) && Sorted(d)
    ensures FullSync(x, d, false, project) == Rebuild(d, project) <==> forall i :: 0 <= i < |d| ==> !Blocked(x, d, i, project)
  {
    if forall i :: 0 <= i < |d| ==> !Blocked(x, d, i, project) {
      UnblockedSyncEquals(x, d, project);
    } else {
      var i :| 0 <= i < |d| && Blocked(x, d, i, project);
      BlockedSyncDiffers(x, d, i, project);
    }
  }

  // ---------------------------------------------------------------- syncing again

  /**
   A blocked run whose blocker is discovered, too, while that blocker or a run after it has the workflow:
   one of them has it when the sync ends.
   */
  predicate StaysBlocked(x: Index, d: seq<Source>, i: nat, project: Projector)
    requires i < |d|
  {
    Blocked(x, d, i, project) && x.owners[WorkflowOf(d[i], project).value] in Ids(d) &&
    exists k :: i < k < |d| && x.owners[WorkflowOf(d[i], project).value] <= d[k].id
      && WorkflowOf(d[k], project) == WorkflowOf(d[i], project)
  }

  /** After `k` runs, the workflow belongs to one of the runs from `j` on that have it, if there is any. */
  ghost predicate TakenFrom(y: Index, d: seq<Source>, j: nat, k: nat, w: WorkflowId, project: Projector)
    requires k <= |d|
  {
    && ((exists m :: j <= m < k && WorkflowOf(d[m], project) == Some(w)) ==> w in y.owners)
    && (w in y.owners ==> exists m :: j <= m < k && y.owners[w] == d[m].id && WorkflowOf(d[m], project) == Some(w))
  }

  /** An owner that the sync has not visited yet still owns. */
  lemma {:induction false} UnvisitedOwnerKeeps(x: Index, d: seq<Source>, k: nat, w: WorkflowId, project: Projector)
    requires Consistent(x, project) && Sorted(d) && k <= |d| && w in x.owners && x.owners[w] !in Ids(d[..k])
    ensures Owns(SyncRuns(x, d[..k], false, project), x.owners[w], w)
  {
    assert OwnerRow(x, x.owners[w], w);
    UntouchedRow(x, d[..k], false, project, x.owners[w]);
    SyncKeepsConsistent(x, d[..k], false, project);
  }

  /** A run that is up to date owns its workflow. */
  lemma UpToDateOwns(x: Index, s: Source, project: Projector)
    requires Consistent(x, project) && UpToDate(x, s) && WorkflowOf(s, project).Some?
    ensures Owns(x, s.id, WorkflowOf(s, project).value)
  {
  }

  /** Visiting the old owner: it keeps the workflow exactly when it still has it. */
  lemma {:induction false} OwnerVisited(x: Index, d: seq<Source>, j: nat, w: WorkflowId, project: Projector)
    requires Consistent(x, project) && Sorted(d) && j < |d| && w in x.owners && x.owners[w] == d[j].id
    ensures TakenFrom(SyncRuns(x, d[..j + 1], false, project), d, j, j + 1, w, project)
  {
    var y := SyncRuns(x, d[..j], false, project);
    assert d[..j + 1][..j] == d[..j];
    PrefixIds(d, j, d[j].id);
    UnvisitedOwnerKeeps(x, d, j, w, project);
    SyncKeepsConsistent(x, d[..j], false, project);
    assert OwnerRow(y, d[j].id, w);
  }

  /** A later run takes the workflow exactly when it has it and nobody from `j` on had it before. */
  lemma {:induction false} LaterRunVisited(x: Index, d: seq<Source>, j: nat, k: nat, w: WorkflowId, project: Projector)
    requires Consistent(x, project) && Sorted(d) && j < k < |d| && w in x.owners && x.owners[w] == d[j].id
    requires TakenFrom(SyncRuns(x, d[..k], false, project), d, j, k, w, project)
    ensures TakenFrom(SyncRuns(x, d[..k + 1], false, project), d, j, k + 1, w, project)
  {
    var y := SyncRuns(x, d[..k], false, project);
    assert d[..k + 1][..k] == d[..k];
    if w in y.owners {
      var m :| j <= m < k && y.owners[w] == d[m].id && WorkflowOf(d[m], project) == Some(w);
      IdOrder(d, k, m);
    }
    if UpToDate(y, d[k]) { SkippedRunLacks(x, d, j, k, w, project); }
    OwnerAfterRun(y, d[k], w, project);
  }

  /** A run that the sync skips does not have a workflow that another run owned before the sync. */
  lemma {:induction false} SkippedRunLacks(x: Index, d: seq<Source>, j: nat, k: nat, w: WorkflowId, project: Projector)
    requires Consistent(x, project) && Sorted(d) && j < k < |d| && w in x.owners && x.owners[w] == d[j].id
    requires UpToDate(SyncRuns(x, d[..k], false, project), d[k])
    ensures WorkflowOf(d[k], project) != Some(w)
  {
    PrefixIds(d, k, d[k].id);
    UntouchedRow(x, d[..k], false, project, d[k].id);
    IdOrder(d, k, j);
    if WorkflowOf(d[k], project) == Some(w) { UpToDateOwns(x, d[k], project); }
  }

  /** What one turn of the sync does to a workflow that the run does not own. */
  lemma OwnerAfterRun(y: Index, s: Source, w: WorkflowId, project: Projector)
    requires w in y.owners ==> y.owners[w] != s.id
    ensures var z := SyncRun(y, s, false, project);
      if w in y.owners then w in z.owners && z.owners[w] == y.owners[w]
      else if !UpToDate(y, s) && WorkflowOf(s, project) == Some(w) then w in z.owners && z.owners[w] == s.id
      else w !in z.owners
  {
  }

  lemma {:induction false} TakenAtEnd(x: Index, d: seq<Source>, j: nat, k: nat, w: WorkflowId, project: Projector)
    requires Consistent(x, project) && Sorted(d) && j < k <= |d| && w in x.owners && x.owners[w] == d[j].id
    ensures TakenFrom(SyncRuns(x, d[..k], false, project), d, j, k, w, project)
  {
    if k == j + 1 {
      OwnerVisited(x, d, j, w, project);
    } else {
      TakenAtEnd(x, d, j, k - 1, w, project);
      LaterRunVisited(x, d, j, k - 1, w, project);
    }
  }

  /** A run that a rebuild indexes is missed by a sync only when it was blocked. */
  lemma {:induction false} MissedMeansBlocked(x: Index, d: seq<Source>, i: nat, project: Projector)
    requires Consistent(x, project) && Sorted(d) && i < |d| && Wins(d, i, project)
    requires !UpToDate(SyncRuns(x, d[..i + 1], false, project), d[i])
    ensures Blocked(x, d, i, project)
  {
    var y := SyncRuns(x, d[..i], false, project);
    assert d[..i + 1][..i] == d[..i];
    PrefixIds(d, i, d[i].id);
    UntouchedRow(x, d[..i], false, project, d[i].id);
    assert !UpToDate(y, d[i]);
    SyncKeepsConsistent(x, d[..i], false, project);
    var w := WorkflowOf(d[i], project).value;
    assert w in y.owners && y.owners[w] != d[i].id;
    var o := y.owners[w];
    assert OwnerRow(y, o, w);
    PrefixIds(d, i, o);
    if o in Ids(d[..i]) {
      var m :| 0 <= m < i && d[m].id == o;
      SyncedFingerprints(x, d, i, m, false, project);
      assert false;
    } else {
      UntouchedRow(x, d[..i], false, project, o);
      assert Owns(x, o, w);
      SmallerIdIsEarlier(d, i, o);
    }
  }

  lemma IdOrder(d: seq<Source>, i: nat, j: nat)
    requires Sorted(d) && i < |d| && j < |d|
    ensures d[i].id <= d[j].id <==> i <= j
  {
  }

  /** What one sync leaves blocked for the next is exactly what stays blocked. */
  lemma BlockedAgainExactly(x: Index, d: seq<Source>, i: nat, project: Projector)
    requires Consistent(x, project) && Sorted(d) && i < |d|
    ensures Blocked(FullSync(x, d, false, project), d, i, project) <==> StaysBlocked(x, d, i, project)
    ensures StaysBlocked(FullSync(x, d, false, project), d, i, project) <==> StaysBlocked(x, d, i, project)
  {
    if Blocked(FullSync(x, d, false, project), d, i, project) { BlockedAgainStays(x, d, i, project); }
    if StaysBlocked(x, d, i, project) { StayingIsBlockedAgain(x, d, i, project); }
  }

  lemma BlockedAgainStays(x: Index, d: seq<Source>, i: nat, project: Projector)
    requires Consistent(x, project) && Sorted(d) && i < |d| && Blocked(FullSync(x, d, false, project), d, i, project)
    ensures StaysBlocked(x, d, i, project)
  {
    assert d[..|d|] == d && d[i].id in Ids(d);
    assert Blocked(x, d, i, project) by {
      SyncedFingerprints(x, d, i + 1, i, false, project);
      LaterRunsLeaveRow(x, d, i, |d|, project);
      MissedMeansBlocked(x, d, i, project);
    }
    BlockerIsTaken(x, d, i, project, WorkflowOf(d[i], project).value);
  }

  lemma BlockerIsTaken(x: Index, d: seq<Source>, i: nat, project: Projector, w: WorkflowId)
    requires Consistent(x, project) && Sorted(d) && i < |d| && Blocked(x, d, i, project) && WorkflowOf(d[i], project) == Some(w)
    requires w in FullSync(x, d, false, project).owners
    ensures StaysBlocked(x, d, i, project)
  {
    var z := SyncRuns(x, d, false, project);
    assert d[..|d|] == d;
    if x.owners[w] !in Ids(d) {
      UnvisitedOwnerKeeps(x, d, |d|, w, project);
      assert false;
    } else {
      var j :| 0 <= j < |d| && d[j].id == x.owners[w];
      TakenAtEnd(x, d, j, |d|, w, project);
      var m :| j <= m < |d| && z.owners[w] == d[m].id && WorkflowOf(d[m], project) == Some(w);
      IdOrder(d, j, m);
      IdOrder(d, j, i);
    }
  }

  lemma StayingIsBlockedAgain(x: Index, d: seq<Source>, i: nat, project: Projector)
    requires Consistent(x, project) && Sorted(d) && i < |d| && StaysBlocked(x, d, i, project)
    ensures StaysBlocked(FullSync(x, d, false, project), d, i, project)
  {
    var z, y := SyncRuns(x, d, false, project), FullSync(x, d, false, project);
    assert d[..|d|] == d && d[i].id in Ids(d);
    BlockedSyncDiffers(x, d, i, project);
    var w := WorkflowOf(d[i], project).value;
    var j :| 0 <= j < |d| && d[j].id == x.owners[w];
    var k :| i < k < |d| && x.owners[w] <= d[k].id && WorkflowOf(d[k], project) == WorkflowOf(d[i], project);
    TakenAtEnd(x, d, j, |d|, w, project);
    IdOrder(d, j, k);
    var m :| j <= m < |d| && z.owners[w] == d[m].id && WorkflowOf(d[m], project) == Some(w);
    IdOrder(d, j, m);
    assert d[m].id in Ids(d) && y.owners[w] == d[m].id;
  }

  /** The index after `n` syncs of unchanged sources. */
  function Syncs(x: Index, d: seq<Source>, n: nat, project: Projector): Index {
    if n == 0 then x else FullSync(Syncs(x, d, n - 1, project), d, false, project)
  }

  lemma {:induction false} SyncsKeepConsistent(x: Index, d: seq<Source>, n: nat, project: Projector)
    requires Consistent(x, project)
    ensures Consistent(Syncs(x, d, n, project), project)
  {
    if n > 0 {
      var y := Syncs(x, d, n - 1, project);
      SyncsKeepConsistent(x, d, n - 1, project);
      SyncKeepsConsistent(y, d, false, project);
      PruneKeepsConsistent(SyncRuns(y, d, false, project), Ids(d), project);
    }
  }

  lemma {:induction false} SyncsKeepBlocked(x: Index, d: seq<Source>, i: nat, n: nat, project: Projector)
    requires Consistent(x, project) && Sorted(d) && i < |d|
    ensures StaysBlocked(Syncs(x, d, n, project), d, i, project) <==> StaysBlocked(x, d, i, project)
  {
    if n > 0 {
      SyncsKeepBlocked(x, d, i, n - 1, project);
      SyncsKeepConsistent(x, d, n - 1, project);
      BlockedAgainExactly(Syncs(x, d, n - 1, project), d, i, project);
    }
  }

  /**
   From the second sync of unchanged sources on, the index equals a rebuild exactly when no run stays
   blocked in the old index; otherwise no number of syncs repairs it.
   */
  lemma {:induction false} SyncsSettleExactly(x: Index, d: seq<Source>, n: nat, project: Projector)
    requires Consistent(x, project) && Sorted(d) && n >= 2
    ensures Syncs(x, d, n, project) == Rebuild(d, project) <==> forall i :: 0 <= i < |d| ==> !StaysBlocked(x, d, i, project)
  {
    var y, z := Syncs(x, d, n - 2, project), Syncs(x, d, n - 1, project);
    SyncsKeepConsistent(x, d, n - 2, project);
    SyncsKeepConsistent(x, d, n - 1, project);
    forall i | 0 <= i < |d| ensures Blocked(z, d, i, project) <==> StaysBlocked(x, d, i, project) {
      SyncsKeepBlocked(x, d, i, n - 2, project);
      BlockedAgainExactly(y, d, i, project);
    }
    SyncEqualsRebuild(z, d, project);
    assert Syncs(x, d, n, project) == FullSync(z, d, false, project);
  }

  /** No two discovered runs that project share a workflow identifier. */
  predicate DistinctWorkflows(d: seq<Source>, project: Projector) {
    forall i, j :: 0 <= i < j < |d| && WorkflowOf(d[i], project).Some? ==> WorkflowOf(d[i], project) != WorkflowOf(d[j], project)
  }

  /** With distinct workflow identifiers, whatever one sync missed because of a stale owner the next one repairs. */
  lemma SecondSyncRepairs(x: Index, d: seq<Source>, project: Projector)
    requires Consistent(x, project) && Sorted(d) && DistinctWorkflows(d, project)
    ensures var y := FullSync(x, d, false, project);
      Consistent(y, project) && FullSync(y, d, false, project) == Rebuild(d, project)
  {
    SyncsKeepConsistent(x, d, 1, project);
    assert Syncs(x, d, 0, project) == x && Syncs(x, d, 1, project) == FullSync(x, d, false, project);
    SyncsSettleExactly(x, d, 2, project);
  }

  lemma BlockedMeansUnequal(y: Index, d: seq<Source>, i: nat, project: Projector)
    requires Consistent(y, project) && Sorted(d) && i < |d| && StaysBlocked(y, d, i, project)
    ensures FullSync(y, d, false, project) != Rebuild(d, project)
  {
    BlockedSyncDiffers(y, d, i, project);
  }

  /** As long as a run stays blocked, no number of syncs gives what a rebuild gives. */
  lemma {:induction false} NeverRepaired(x: Index, d: seq<Source>, i: nat, n: nat, project: Projector)
    requires Consistent(x, project) && Sorted(d) && i < |d| && StaysBlocked(x, d, i, project) && n >= 1
    ensures Syncs(x, d, n, project) != Rebuild(d, project)
  {
    assert Consistent(Syncs(x, d, n - 1, project), project) by { SyncsKeepConsistent(x, d, n - 1, project); }
    assert StaysBlocked(Syncs(x, d, n - 1, project), d, i, project) by { SyncsKeepBlocked(x, d, i, n - 1, project); }
    BlockedMeansUnequal(Syncs(x, d, n - 1, project), d, i, project);
  }

  /** Run 2 is up to date under a workflow that a new run 1 also has: no number of syncs gives what a rebuild gives. */
  lemma NeverRepairedExample(n: nat)
    requires n >= 1
    ensures var project: Projector := (r, f) => Succeeds("", Some("w"));
      var x := Index(map[2 := Current(ActiveRuns, "b", "g", "", Some("w"))], map["w" := 2]);
      var d := [Source(1, ActiveRuns, "a", "f"), Source(2, ActiveRuns, "b", "g")];
      Consistent(x, project) && Sorted(d) && UpToDate(x, d[1]) && Syncs(x, d, n, project) != Rebuild(d, project)
  {
    var project: Projector := (r, f) => Succeeds("", Some("w"));
    var x := Index(map[2 := Current(ActiveRuns, "b", "g", "", Some("w"))], map["w" := 2]);
    var d := [Source(1, ActiveRuns, "a", "f"), Source(2, ActiveRuns, "b", "g")];
    assert Consistent(x, project) by { assert Owns(x, 2, "w") && OwnerRow(x, 2, "w"); }
    assert StaysBlocked(x, d, 0, project) by { assert d[1].id in Ids(d) && WorkflowOf(d[1], project) == WorkflowOf(d[0], project); }
    NeverRepaired(x, d, 0, n, project);
  }

  /** After a full sync every row is of a discovered run at its present fingerprint. */
  lemma {:induction false} SyncedFingerprints(x: Index, d: seq<Source>, k: nat, i: nat, force: bool, project: Projector)
    requires Sorted(d) && i < k <= |d|
    ensures var y := SyncRuns(x, d[..k], force, project);
      d[i].id in y.rows && y.rows[d[i].id].fingerprint == d[i].fingerprint && y.rows[d[i].id].dir == d[i].dir
      && y.rows[d[i].id].storage == d[i].storage
  {
    assert d[..k][..k - 1] == d[..k - 1];
    if i < k - 1 {
      SyncedFingerprints(x, d, k - 1, i, force, project);
      assert d[i].id < d[k - 1].id;
    }
  }

  /** A concrete stale owner: run 1 is gone and run 2 has taken over its workflow. */
  lemma StaleOwnerExample()
    ensures var project: Projector := (r, f) => Succeeds("", Some("w"));
      var x := Index(map[1 := Current(ActiveRuns, "a", "f", "", Some("w"))], map["w" := 1]);
      var d := [Source(2, ActiveRuns, "b", "g")];
      Consistent(x, project) && Sorted(d) && FullSync(x, d, false, project) != Rebuild(d, project)
  {
    var project: Projector := (r, f) => Succeeds("", Some("w"));
    var x := Index(map[1 := Current(ActiveRuns, "a", "f", "", Some("w"))], map["w" := 1]);
    var d := [Source(2, ActiveRuns, "b", "g")];
    assert Consistent(x, project) by { assert Owns(x, 1, "w") && OwnerRow(x, 1, "w"); }
    assert Blocked(x, d, 0, project) by { assert forall r :: r in Ids(d) ==> r == 2; }
    SyncEqualsRebuild(x, d, project);
  }

  // ---------------------------------------------------------------- the store

  datatype Freshness = Incomplete | Stale | UpToDateIndex

  datatype Report = Report(indexed: seq<RunId>, skipped: seq<RunId>, errors: seq<RunId>, pruned: set<RunId>)

  /** The identifiers of the discovered runs that are in the set, in order of discovery. */
  function Among(d: seq<Source>, ids: set<RunId>): seq<RunId> {
    if d == [] then []
    else
      var n := |d| - 1;
      Among(d[..n], ids) + if d[n].id in ids then [d[n].id] else []
  }

  lemma {:induction false} AmongStep(d: seq<Source>, k: nat, ids: set<RunId>)
    requires k < |d|
    ensures Among(d[..k + 1], ids) == Among(d[..k], ids) + if d[k].id in ids then [d[k].id] else []
  {
    assert d[..k + 1][..k] == d[..k];
  }

  lemma {:induction false} AmongAgrees(d: seq<Source>, a: set<RunId>, b: set<RunId>)
    requires forall i :: 0 <= i < |d| ==> (d[i].id in a <==> d[i].id in b)
    ensures Among(d, a) == Among(d, b)
  {
    if d != [] { AmongAgrees(d[..|d| - 1], a, b); }
  }

  lemma {:induction false} AmongNone(d: seq<Source>)
    ensures Among(d, {}) == []
  {
    if d != [] { AmongNone(d[..|d| - 1]); }
  }

  /** The runs whose row was current, at the very place and fingerprint that were discovered. */
  ghost function Fresh(x: Index, d: seq<Source>): set<RunId> {
    set i | 0 <= i < |d| && d[i].id in x.rows && x.rows[d[i].id].Current? && x.rows[d[i].id].storage == d[i].storage
      && x.rows[d[i].id].dir == d[i].dir && x.rows[d[i].id].fingerprint == d[i].fingerprint :: d[i].id
  }

  ghost function FailedIds(x: Index): set<RunId> { set r | r in x.rows && x.rows[r].Failed? }

  lemma FreshExactly(x: Index, d: seq<Source>, k: nat)
    requires Sorted(d) && k < |d|
    ensures d[k].id in Fresh(x, d) <==> UpToDate(x, d[k])
  {
    if d[k].id in Fresh(x, d) {
      var i :| 0 <= i < |d| && d[i].id == d[k].id && d[i].id in x.rows && x.rows[d[i].id].Current? && x.rows[d[i].id].storage == d[i].storage
        && x.rows[d[i].id].dir == d[i].dir && x.rows[d[i].id].fingerprint == d[i].fingerprint;
      assert i == k;
    }
  }

  /** When the loop reaches a run, its row is still the old one; the row it leaves is the one the sync ends with. */
  lemma {:induction false} RowAtVisit(x: Index, d: seq<Source>, k: nat, force: bool, project: Projector)
    requires Sorted(d) && k < |d|
    ensures UpToDate(SyncRuns(x, d[..k], force, project), d[k]) <==> UpToDate(x, d[k])
    ensures Indexed(SyncRuns(x, d[..k + 1], force, project), d[k].id) <==> Indexed(SyncRuns(x, d, force, project), d[k].id)
  {
    PrefixIds(d, k, d[k].id);
    UntouchedRow(x, d[..k], force, project, d[k].id);
    RowStays(x, d, k, k + 1, force, project);
  }

  lemma {:induction false} RowStays(x: Index, d: seq<Source>, k: nat, n: nat, force: bool, project: Projector)
    requires Sorted(d) && k < n <= |d|
    ensures Indexed(SyncRuns(x, d[..n], force, project), d[k].id) <==> Indexed(SyncRuns(x, d, force, project), d[k].id)
    decreases |d| - n
  {
    if n < |d| {
      RowStays(x, d, k, n + 1, force, project);
      SyncRunsStep(x, d, n, force, project);
      SyncRunTouchesOne(SyncRuns(x, d[..n], force, project), d[n], force, project);
      assert d[k].id < d[n].id;
    } else {
      assert d[..n] == d;
    }
  }

  class IndexStore {
    var index: Index

    /** `_sync_locked` over the whole scope. */
    method Sync(d: seq<Source>, force: bool, project: Projector) returns (report: Report)
      requires Sorted(d)
      modifies this
      ensures index == FullSync(old(index), d, force, project)
      ensures |report.indexed| + |report.skipped| + |report.errors| == |d|
      ensures report.errors == [] <==> forall r :: r in index.rows ==> index.rows[r].Current?
      ensures report.pruned == old(index).rows.Keys - Ids(d)
      // Every discovered run is on exactly one list: skipped if its old row was fresh, in error if its row has failed.
      ensures
        var skipped := if force then {} else Fresh(old(index), d);
        && report.skipped == Among(d, skipped)
        && report.errors == Among(d, FailedIds(index))
        && report.indexed == Among(d, Ids(d) - skipped - FailedIds(index))
    {
      ghost var x, skips := index, if force then {} else Fresh(index, d);
      var indexed, skipped, errors := IndexDiscovered(d, force, project);
      ghost var y := index;
      var pruned := index.rows.Keys - Ids(d);
      ReportMeaning(x, d, force, project, skips);
      index := Prune(index, Ids(d));
      report := Report(indexed, skipped, errors, pruned);
    }

    /** The loop over the discovered runs. */
    method IndexDiscovered(d: seq<Source>, force: bool, project: Projector)
      returns (indexed: seq<RunId>, skipped: seq<RunId>, errors: seq<RunId>)
      requires Sorted(d)
      modifies this
      ensures index == SyncRuns(old(index), d, force, project)
      ensures
        var skips := if force then {} else Fresh(old(index), d);
        && skipped == Among(d, skips) && errors == Among(d, FailedIds(index))
        && indexed == Among(d, Ids(d) - skips - FailedIds(index))
    {
      indexed, skipped, errors := [], [], [];
      ghost var x, skips := index, if force then {} else Fresh(index, d);
      ghost var fails := FailedIds(SyncRuns(index, d, force, project));
      ghost var rest := Ids(d) - skips - fails;
      assert d[..0] == [] && d[..|d|] == d && SyncRuns(x, [], force, project) == x;
      hide SyncRuns, SyncRun, Indexed, Fresh, FailedIds, UpToDate, Ids;
      for k := 0 to |d|
        invariant index == SyncRuns(x, d[..k], force, project)
        invariant skipped == Among(d[..k], skips) && errors == Among(d[..k], fails) && indexed == Among(d[..k], rest)
      {
        var skip := SyncOne(d[k], force, project);
        SyncRunsStep(x, d, k, force, project);
        ListedOnce(x, d, k, force, project);
        hide Among;
        AmongStep(d, k, skips);
        AmongStep(d, k, fails);
        AmongStep(d, k, rest);
        if skip {
          skipped := skipped + [d[k].id];
        } else if Indexed(index, d[k].id) {
          indexed := indexed + [d[k].id];
        } else {
          errors := errors + [d[k].id];
        }
      }
    }

    /** One turn of the sync loop: other runs' rows stay as they are. */
    method SyncOne(s: Source, force: bool, project: Projector) returns (skip: bool)
      modifies this
      ensures index == SyncRun(old(index), s, force, project)
      ensures skip <==> !force && UpToDate(old(index), s)
      ensures skip ==> Indexed(index, s.id)
    {
      skip := !force && UpToDate(index, s);
      if !skip { index := IndexRun(index, s, project); }
    }

    /** `rebuild_index` over the whole scope: the database is removed first. */
    method RebuildIndex(d: seq<Source>, project: Projector) returns (report: Report)
      requires Sorted(d)
      modifies this
      ensures index == Rebuild(d, project)
      // Nothing is skipped or pruned, whatever the index was: every run is indexed or in error.
      ensures report.skipped == [] && report.pruned == {}
      ensures report.errors == Among(d, FailedIds(index)) && report.indexed == Among(d, Ids(d) - FailedIds(index))
      ensures |report.indexed| + |report.errors| == |d|
    {
      AmongNone(d);
      index := EMPTY;
      report := Sync(d, true, project);
      assert Ids(d) - {} - FailedIds(index) == Ids(d) - FailedIds(index);
    }

    /** `index_status`, counting stale runs over the discovered sources and the rows. */
    method Status(d: seq<Source>) returns (freshness: Freshness, current: nat, stale: nat)
      requires Sorted(d)
      ensures freshness == Incomplete <==> exists r :: r in index.rows && index.rows[r].Failed?
      ensures freshness == UpToDateIndex <==> stale == 0 && forall r :: r in index.rows ==> index.rows[r].Current?
      ensures stale == 0 <==> index.rows.Keys <= Ids(d) && forall i :: 0 <= i < |d| ==> UpToDate(index, d[i])
      ensures current + stale == |d| + |index.rows.Keys - Ids(d)|
    {
      current, stale := 0, 0;
      for i := 0 to |d|
        invariant current + stale == i
        invariant stale == 0 <==> forall k :: 0 <= k < i ==> UpToDate(index, d[k])
      {
        if UpToDate(index, d[i]) { current := current + 1; } else { stale := stale + 1; }
      }
      var orphans := index.rows.Keys - Ids(d);
      assert index.rows.Keys == orphans + index.rows.Keys * Ids(d);
      assert orphans == {} <==> index.rows.Keys <= Ids(d);
      stale := stale + |orphans|;
      freshness := if exists r :: r in index.rows && index.rows[r].Failed? then Incomplete
                   else if stale != 0 then Stale else UpToDateIndex;
    }
  }

  /** On which list the run the loop visits belongs. */
  lemma ListedOnce(x: Index, d: seq<Source>, k: nat, force: bool, project: Projector)
    requires Sorted(d) && k < |d|
    ensures var skips, fails := if force then {} else Fresh(x, d), FailedIds(SyncRuns(x, d, force, project));
      && (d[k].id in skips <==> !force && UpToDate(SyncRuns(x, d[..k], force, project), d[k]))
      && (d[k].id in fails <==> !Indexed(SyncRuns(x, d[..k + 1], force, project), d[k].id))
      && d[k].id in Ids(d)
  {
    FreshExactly(x, d, k);
    RowAtVisit(x, d, k, force, project);
    SyncedFingerprints(x, d, |d|, k, force, project);
    assert d[..|d|] == d;
  }

  /** Three sets that share out the discovered runs give lists that count each of them once. */
  lemma {:induction false} AmongCounts(d: seq<Source>, a: set<RunId>, b: set<RunId>, c: set<RunId>)
    requires a !! b !! c && forall i :: 0 <= i < |d| ==> d[i].id in a + b + c
    ensures |Among(d, a)| + |Among(d, b)| + |Among(d, c)| == |d|
  {
    if d != [] {
      AmongCounts(d[..|d| - 1], a, b, c);
      assert d[|d| - 1].id in a + b + c;
    }
  }

  lemma {:induction false} AmongEmpty(d: seq<Source>, ids: set<RunId>)
    ensures Among(d, ids) == [] <==> forall i :: 0 <= i < |d| ==> d[i].id !in ids
  {
    if d != [] { AmongEmpty(d[..|d| - 1], ids); }
  }

  /** A run is not both skipped and in error. */
  lemma {:induction false} SkipsSucceed(x: Index, d: seq<Source>, project: Projector)
    requires Sorted(d)
    ensures Fresh(x, d) !! FailedIds(SyncRuns(x, d, false, project)) && Fresh(x, d) <= Ids(d)
  {
    hide SyncRuns, FailedIds;
    forall r | r in Fresh(x, d) ensures r !in FailedIds(SyncRuns(x, d, false, project)) && r in Ids(d) {
      var i :| 0 <= i < |d| && d[i].id == r;
      FreshExactly(x, d, i);
      ListedOnce(x, d, i, false, project);
      SyncRunsStep(x, d, i, false, project);
    }
  }

  /** What the sync's method says of its report, in terms of the old and the pruned index. */
  lemma ReportMeaning(x: Index, d: seq<Source>, force: bool, project: Projector, skips: set<RunId>)
    requires Sorted(d) && skips == if force then {} else Fresh(x, d)
    ensures var y, z := SyncRuns(x, d, force, project), FullSync(x, d, force, project);
      && y.rows.Keys - Ids(d) == x.rows.Keys - Ids(d)
      && Among(d, FailedIds(y)) == Among(d, FailedIds(z))
      && Among(d, Ids(d) - skips - FailedIds(y)) == Among(d, Ids(d) - skips - FailedIds(z))
      && |Among(d, skips)| + |Among(d, FailedIds(z))| + |Among(d, Ids(d) - skips - FailedIds(z))| == |d|
      && (Among(d, FailedIds(z)) == [] <==> forall r :: r in z.rows ==> z.rows[r].Current?)
  {
    hide SyncRuns;
    var y, z := SyncRuns(x, d, force, project), FullSync(x, d, force, project);
    PrunedRows(x, d, force, project);
    PrunedRowsAreDiscovered(x, d, force, project);
    PruneKeepsFailures(y, d);
    AmongAgrees(d, FailedIds(y), FailedIds(z));
    AmongAgrees(d, Ids(d) - skips - FailedIds(y), Ids(d) - skips - FailedIds(z));
    if !force { SkipsSucceed(x, d, project); }
    forall i | 0 <= i < |d| ensures d[i].id in Ids(d) {}
    assert FailedIds(z) <= FailedIds(y);
    AmongCounts(d, skips, FailedIds(z), Ids(d) - skips - FailedIds(z));
    AmongEmpty(d, FailedIds(z));
  }

  lemma PruneKeepsFailures(y: Index, d: seq<Source>)
    ensures forall i :: 0 <= i < |d| ==> (d[i].id in FailedIds(y) <==> d[i].id in FailedIds(Prune(y, Ids(d))))
  {}

  lemma {:induction false} SyncRunsStep(x: Index, d: seq<Source>, k: nat, force: bool, project: Projector)
    requires k < |d|
    ensures SyncRuns(x, d[..k + 1], force, project) == SyncRun(SyncRuns(x, d[..k], force, project), d[k], force, project)
  {
    assert d[..k + 1][..k] == d[..k];
  }

  /** Syncing one run leaves every other row alone. */
  lemma SyncRunTouchesOne(x: Index, s: Source, force: bool, project: Projector)
    ensures var y := SyncRun(x, s, force, project);
      s.id in y.rows && forall r :: r != s.id ==> (r in y.rows <==> r in x.rows) && (r in x.rows ==> y.rows[r] == x.rows[r])
  {}

  /** After pruning, exactly the discovered runs have rows. */
  lemma {:induction false} PrunedRowsAreDiscovered(x: Index, d: seq<Source>, force: bool, project: Projector)
    requires Sorted(d)
    ensures var y := SyncRuns(x, d, force, project);
      (forall r :: r in Prune(y, Ids(d)).rows ==> Indexed(y, r)) <==> forall i :: 0 <= i < |d| ==> Indexed(y, d[i].id)
  {
    var y := SyncRuns(x, d, force, project);
    assert d[..|d|] == d;
    forall i | 0 <= i < |d| ensures d[i].id in Prune(y, Ids(d)).rows {
      assert d[i].id in Ids(d);
      SyncedFingerprints(x, d, |d|, i, force, project);
    }
    forall r | r in Prune(y, Ids(d)).rows ensures exists i :: 0 <= i < |d| && d[i].id == r { assert r in Ids(d); }
  }

  predicate Indexed(x: Index, r: RunId) { r in x.rows && x.rows[r].Current? }

  lemma {:induction false} PrunedRows(x: Index, d: seq<Source>, force: bool, project: Projector)
    requires Sorted(d)
    ensures SyncRuns(x, d, force, project).rows.Keys - Ids(d) == x.rows.Keys - Ids(d)
  {
    forall r | r !in Ids(d) ensures r in SyncRuns(x, d, force, project).rows <==> r in x.rows {
      UntouchedRow(x, d, force, project, r);
    }
  }

  /** Right after a full sync in which no run failed, every discovered run is up to date and nothing is stale. */
  lemma SyncLeavesNothingStale(x: Index, d: seq<Source>, force: bool, project: Projector)
    requires Sorted(d)
    ensures var y := FullSync(x, d, force, project);
      && y.rows.Keys == Ids(d)
      && ((forall r :: r in y.rows ==> y.rows[r].Current?) ==> forall i :: 0 <= i < |d| ==> UpToDate(y, d[i]))
  {
    var y := FullSync(x, d, force, project);
    assert d[..|d|] == d;
    forall i | 0 <= i < |d|
      ensures d[i].id in y.rows && y.rows[d[i].id].fingerprint == d[i].fingerprint && y.rows[d[i].id].dir == d[i].dir
        && y.rows[d[i].id].storage == d[i].storage
    {
      SyncedFingerprints(x, d, |d|, i, force, project);
    }
    forall r | r in Ids(d) ensures r in y.rows { var i :| 0 <= i < |d| && d[i].id == r; }
  }
}
