/** The maintenance tasks of the import queue: re-evaluating holds, and rescanning everything untracked. */
module ImportMaintenance {
  import opened Basics
  import opened ImportState
  import opened ImportReview
  import P = ImportProtocol
  import opened ImportSafety
  import opened ImportRuns
  import opened ImportStore

  /** Complete every paused job, newest first, until none is left. */
  method RetirePausedJobs(store: CheckpointStore, ghost from: P.Sys, ghost past: seq<P.Event>, ghost scan: Option<seq<Path>>)
    returns (ghost trace: seq<P.Event>)
    requires P.Run(from, past) == Some(P.Sys(store.Tables(), P.Retiring(scan)))
    modifies store`jobs
    ensures P.Run(from, trace) == Some(P.Sys(store.Tables(), P.Retiring(scan)))
    ensures |store.jobs| == |old(store.jobs)| && Latest(store.jobs, Paused).None?
    ensures forall k :: 0 <= k < |store.jobs| ==>
      store.jobs[k] == if old(store.jobs[k]).status == Paused then Job(Complete, None) else old(store.jobs[k])
  {
    trace := past;
    var paused := store.GetLatestJob(Paused);
    while paused.Some?
      invariant |store.jobs| == |old(store.jobs)| && paused == Latest(store.jobs, Paused)
      invariant P.Run(from, trace) == Some(P.Sys(store.Tables(), P.Retiring(scan)))
      invariant forall k :: 0 <= k < |store.jobs| ==>
        store.jobs[k] == old(store.jobs[k]) || (old(store.jobs[k]).status == Paused && store.jobs[k] == Job(Complete, None))
      decreases PausedCount(store.jobs)
    {
      RetirementEnds(P.Sys(store.Tables(), P.Retiring(scan)));
      P.RunAppends(from, trace, P.RetireOne);
      store.MarkJobComplete(paused.value);
      trace := trace + [P.RetireOne];
      paused := store.GetLatestJob(Paused);
    }
  }

  /** Each folder of the list once, where it first occurs. */
  method FirstOccurrences(items: seq<Held>) returns (folders: seq<Path>)
    ensures folders == Distinct(FoldersOf(items))
  {
    folders := [];
    var seen: set<Path> := {};
    ghost var all := FoldersOf(items);
    for n := 0 to |items|
      invariant folders == Distinct(all[..n])
      invariant forall f :: f in seen <==> f in folders
    {
      assert all[..n + 1][..n] == all[..n];
      var folder := items[n].folder;
      if folder !in seen {
        seen := seen + {folder};
        folders := folders + [folder];
      }
    }
    assert all[..|items|] == all;
  }

  /** The folders that still have an actionable hold, in review order. */
  method LiveReviewFolders(store: CheckpointStore, disk: Disk) returns (folders: seq<Path>)
    requires DbInv(store.Tables())
    modifies store`items
    ensures store.Tables() == AllReconciled(old(store.Tables()), disk)
    ensures folders == LiveFolders(old(store.Tables()), disk)
  {
    var items := store.GetOutstandingReviewItems(disk);
    folders := FirstOccurrences(items);
  }

  /** What staging a job over fine tables with no paused job leaves. */
  ghost predicate StagedAs(before: Db, folders: seq<Path>, after: Db) {
    var job := |before.jobs|;
    && DbInv(after)
    && |after.jobs| == job + 1
    && (forall k :: 0 <= k <= job ==> (after.jobs[k].status == Paused <==> k == job))
    && (forall i :: 0 <= i < |after.items| && after.items[i].job == job ==> after.items[i].state == Pending)
    && PendingExactly(after.items, job, Distinct(folders))
    && before.items <= after.items
  }

  lemma StagedTables(before: Db, folders: seq<Path>)
    requires DbInv(before) && Latest(before.jobs, Paused).None?
    ensures StagedAs(before, folders, JobPaused(JobCreated(before, folders), |before.jobs|, None))
  {
    var created := JobCreated(before, folders);
    CreateKeeps(before, folders);
    NothingToRelease(created.items, |before.jobs|);
    LatestWithout(before.jobs, Paused);
  }

  lemma NothingToRelease(items: seq<Item>, job: nat)
    requires NoneProcessing(items, job)
    ensures Released(items, job) == items
  {
  }

  /** `_stage_paused_job`: create the snapshot, and hold it until the user starts it. */
  method StagePausedJob(store: CheckpointStore, folders: seq<Path>, ghost from: P.Sys, ghost past: seq<P.Event>, ghost recheck: bool)
    returns (job: nat, ghost trace: seq<P.Event>)
    requires P.Run(from, past) == Some(P.Sys(store.Tables(), P.Collected(recheck, folders)))
    requires DbInv(store.Tables()) && Latest(store.jobs, Paused).None?
    modifies store
    ensures P.Run(from, trace) == Some(P.Sys(store.Tables(), P.Idle))
    ensures job == |old(store.jobs)| && StagedAs(old(store.Tables()), folders, store.Tables())
  {
    StagedTables(store.Tables(), folders);
    P.RunAppends(from, past, P.CreateStaged);
    job := store.CreateJob(folders);
    trace := past + [P.CreateStaged];
    P.RunAppends(from, trace, P.PauseStaged);
    store.MarkJobPaused(job, None);
    trace := trace + [P.PauseStaged];
  }

  /** Re-evaluate the holds. Its history is a run of the protocol. It ends with exactly one paused
      job, the new one; that job's folders, all pending, are exactly those that still hold something live;
      and earlier rows change by reconciliation only. */
  method Recheck(store: CheckpointStore, disk: Disk) returns (job: nat, ghost trace: seq<P.Event>)
    requires DbInv(store.Tables())
    modifies store
    ensures P.Run(P.Sys(old(store.Tables()), P.Idle), trace) == Some(P.Sys(store.Tables(), P.Idle))
    ensures job == |old(store.jobs)|
    ensures StagedAs(AllReconciled(old(store.Tables()), disk), LiveFolders(old(store.Tables()), disk), store.Tables())
  {
    ghost var before := store.Tables();
    ghost var from := P.Sys(before, P.Idle);
    trace := Begin(from, P.BeginRecheck);
    trace := RetirePausedJobs(store, from, trace, None);
    RetiringKeepsHolds(before, store.Tables(), disk);
    var folders;
    folders, trace := CollectHolds(store, disk, from, trace);
    ghost var collected := store.Tables();
    job, trace := StagePausedJob(store, folders, from, trace, true);
    StagedOverSameRows(AllReconciled(before, disk), collected, folders, store.Tables());
  }

  method CollectHolds(store: CheckpointStore, disk: Disk, ghost from: P.Sys, ghost past: seq<P.Event>)
    returns (folders: seq<Path>, ghost trace: seq<P.Event>)
    requires P.Run(from, past) == Some(P.Sys(store.Tables(), P.Retiring(None)))
    requires DbInv(store.Tables()) && Latest(store.jobs, Paused).None?
    modifies store`items
    ensures P.Run(from, trace) == Some(P.Sys(store.Tables(), P.Collected(true, folders)))
    ensures store.Tables() == AllReconciled(old(store.Tables()), disk)
    ensures folders == LiveFolders(old(store.Tables()), disk)
  {
    trace := HoldsTaken(from, past, store.Tables(), disk);
    folders := LiveReviewFolders(store, disk);
  }

  ghost method HoldsTaken(from: P.Sys, past: seq<P.Event>, db: Db, disk: Disk) returns (trace: seq<P.Event>)
    requires P.Run(from, past) == Some(P.Sys(db, P.Retiring(None))) && Latest(db.jobs, Paused).None?
    ensures P.Run(from, trace) == Some(P.Sys(AllReconciled(db, disk), P.Collected(true, LiveFolders(db, disk))))
  {
    var after := P.Sys(AllReconciled(db, disk), P.Collected(true, LiveFolders(db, disk)));
    CollectStep(db, disk, after);
    P.RunExtends(from, past, P.Sys(db, P.Retiring(None)), P.Collect(disk), after);
    trace := past + [P.Collect(disk)];
  }

  lemma CollectStep(db: Db, disk: Disk, after: P.Sys)
    requires Latest(db.jobs, Paused).None?
    requires after == P.Sys(AllReconciled(db, disk), P.Collected(true, LiveFolders(db, disk)))
    ensures P.Step(P.Sys(db, P.Retiring(None)), P.Collect(disk)) == Some(after)
  {
  }

  lemma StagedOverSameRows(a: Db, b: Db, folders: seq<Path>, after: Db)
    requires StagedAs(b, folders, after) && a.items == b.items && |a.jobs| == |b.jobs|
    ensures StagedAs(a, folders, after)
  {
  }

  /** Rescan: the same staging, over every folder the scan found. */
  method Rescan(store: CheckpointStore, found: seq<Path>) returns (job: nat, ghost trace: seq<P.Event>)
    requires DbInv(store.Tables())
    modifies store
    ensures P.Run(P.Sys(old(store.Tables()), P.Idle), trace) == Some(P.Sys(store.Tables(), P.Idle))
    ensures job == |old(store.jobs)|
    ensures StagedAs(old(store.Tables()), found, store.Tables())
  {
    ghost var before := store.Tables();
    ghost var from := P.Sys(before, P.Idle);
    trace := Begin(from, P.BeginRescan(found));
    trace := RetirePausedJobs(store, from, trace, Some(found));
    RetiringKeepsHolds(before, store.Tables(), Disk({}, {}, {}));
    trace := ScanTaken(from, trace, store.Tables(), found);
    ghost var retired := store.Tables();
    job, trace := StagePausedJob(store, found, from, trace, false);
    StagedOverSameRows(before, retired, found, store.Tables());
  }

  ghost method ScanTaken(from: P.Sys, past: seq<P.Event>, db: Db, found: seq<Path>) returns (trace: seq<P.Event>)
    requires P.Run(from, past) == Some(P.Sys(db, P.Retiring(Some(found)))) && Latest(db.jobs, Paused).None?
    ensures P.Run(from, trace) == Some(P.Sys(db, P.Collected(false, found)))
  {
    var e := P.Collect(Disk({}, {}, {}));
    P.RunAppends(from, past, e);
    trace := past + [e];
  }

  ghost method Begin(from: P.Sys, e: P.Event) returns (trace: seq<P.Event>)
    requires P.Step(from, e).Some?
    ensures P.Run(from, trace) == P.Step(from, e)
  {
    P.RunAppends(from, [], e);
    trace := [] + [e];
  }

  /** Retiring jobs keeps the tables fine and touches nothing that is held. */
  lemma RetiringKeepsHolds(before: Db, after: Db, disk: Disk)
    requires DbInv(before) && before.items == after.items && |before.jobs| == |after.jobs|
    ensures DbInv(after) && DbInv(AllReconciled(after, disk))
    ensures AllReconciled(before, disk).items == AllReconciled(after, disk).items
    ensures LiveFolders(before, disk) == LiveFolders(after, disk)
  {
    ReconciliationSettles(after, disk);
  }
}
