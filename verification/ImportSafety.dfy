/** What holds in every reachable state of the import protocol, and over every run of it. */
module ImportSafety {
  import opened Basics
  import opened ImportState
  import opened ImportReview
  import opened ImportProtocol

  predicate Settled(it: Item) {
    it.state == Done || it.state == Review
  }

  ghost predicate NoneProcessing(items: seq<Item>, job: nat) {
    forall i :: 0 <= i < |items| && items[i].job == job ==> items[i].state != Processing
  }

  ghost predicate NoRepeats(folders: seq<Path>) {
    forall i, k :: 0 <= i < k < |folders| ==> folders[i] != folders[k]
  }

  /** `todo` lists the job's pending folders, each once. */
  ghost predicate PendingExactly(items: seq<Item>, job: nat, todo: seq<Path>) {
    && NoRepeats(todo)
    && (forall i :: 0 <= i < |items| && items[i].job == job ==> (items[i].state == Pending <==> items[i].folder in todo))
    && (forall f :: f in todo ==> exists i :: 0 <= i < |items| && items[i].job == job && items[i].folder == f)
  }

  ghost predicate AllSettled(items: seq<Item>, job: nat) {
    forall i :: 0 <= i < |items| && items[i].job == job ==> Settled(items[i])
  }

  ghost predicate IsRunning(db: Db, job: nat) {
    job < |db.jobs| && db.jobs[job].status == Running
  }

  ghost predicate WorkerInv(db: Db, t: Task)
    requires t.Import?
  {
    match t.phase
    case Begin => t.wanted.Some? ==> t.wanted.value < |db.jobs|
    case Claimed(job) => IsRunning(db, job) && NoneProcessing(db.items, job)
    case Looping(job, todo) => IsRunning(db, job) && NoneProcessing(db.items, job) && PendingExactly(db.items, job, todo)
    case Working(job, folder, todo) =>
      && IsRunning(db, job) && PendingExactly(db.items, job, todo)
      && (exists i :: 0 <= i < |db.items| && db.items[i].job == job && db.items[i].folder == folder)
      && (forall i :: 0 <= i < |db.items| && db.items[i].job == job ==>
            (db.items[i].state == Processing <==> db.items[i].folder == folder))
    case Recorded(job, folder, todo, _) =>
      && IsRunning(db, job) && NoneProcessing(db.items, job) && PendingExactly(db.items, job, todo)
      && folder !in todo
    case Leaving(job, _) =>
      && IsRunning(db, job) && NoneProcessing(db.items, job)
      && (!Stopping(t) ==> AllSettled(db.items, job))
    case Closing(claimed, current, raised) =>
      && (claimed.Some? ==>
            && claimed.value < |db.jobs|
            && (forall i :: 0 <= i < |db.items| && db.items[i].job == claimed.value && db.items[i].state == Processing ==>
                  current == Some(db.items[i].folder) && t.shutdown))
  }

  ghost predicate TaskInv(db: Db, t: Task) {
    match t
    case Idle => true
    case Import(_, _, _, _) => WorkerInv(db, t)
    case Retiring(_) => true
    case Collected(recheck, _) => recheck ==> Latest(db.jobs, Paused).None?
    case Staged(recheck, job, folders) =>
      && job == |db.jobs| - 1
      && (recheck ==> Latest(db.jobs, Paused).None?)
      && (forall i :: 0 <= i < |db.items| && db.items[i].job == job ==> db.items[i].state == Pending)
      && PendingExactly(db.items, job, Distinct(folders))
  }

  ghost predicate Inv(s: Sys) {
    DbInv(s.db) && TaskInv(s.db, s.task)
  }

  /** How one row may change in one step. */
  ghost predicate Moved(a: Item, b: Item) {
    && (b.job, b.position, b.folder) == (a.job, a.position, a.folder)
    && match a.state
       case Pending => b == a || b == a.(state := Processing)
       case Processing => b == a || b == a.(state := Pending) || Settled(b)
       case Review => b == Retired(a) || (b == a.(held := b.held) && b.held != [] && forall h :: h in b.held ==> h in a.held)
       case Done => b == a
  }

  /** How the tables may change in one step: rows keep their place, new rows start pending. */
  ghost predicate Evolved(a: Db, b: Db) {
    && |a.jobs| <= |b.jobs| && |a.items| <= |b.items|
    && (forall i :: 0 <= i < |a.items| ==> Moved(a.items[i], b.items[i]))
    && (forall i :: |a.items| <= i < |b.items| ==> b.items[i].state == Pending)
  }

  // ---------------------------------------------------------------- one statement at a time

  /** A change that leaves keys and holds alone keeps the table invariants as long as nothing new is in flight. */
  lemma StatesOnly(a: Db, b: Db)
    requires DbInv(a) && |b.jobs| == |a.jobs| && |b.items| == |a.items|
    requires forall i :: 0 <= i < |a.items| ==> b.items[i] == a.items[i].(state := b.items[i].state)
    requires forall i :: 0 <= i < |a.items| ==> (b.items[i].state == Review <==> a.items[i].state == Review)
    requires OneInFlightPerJob(b.items)
    ensures DbInv(b)
  {
  }

  lemma ReleaseKeeps(db: Db, job: nat, jobs: seq<Job>)
    requires DbInv(db) && |jobs| == |db.jobs|
    ensures var after := Db(jobs, Released(db.items, job));
      DbInv(after) && Evolved(db, after) && NoneProcessing(after.items, job)
  {
    StatesOnly(db, Db(jobs, Released(db.items, job)));
  }

  lemma ReconcileKeeps(db: Db, after: Db, disk: Disk)
    requires DbInv(db) && after.jobs == db.jobs && |after.items| == |db.items|
    requires forall i :: 0 <= i < |db.items| ==>
      after.items[i] == db.items[i] || after.items[i] == Reconciled(db.items[i], disk)
    ensures DbInv(after) && Evolved(db, after)
    ensures forall i :: 0 <= i < |db.items| ==>
      && (after.items[i].state == Pending <==> db.items[i].state == Pending)
      && (after.items[i].state == Processing <==> db.items[i].state == Processing)
      && (Settled(after.items[i]) <==> Settled(db.items[i]))
      && (after.items[i].job, after.items[i].folder) == (db.items[i].job, db.items[i].folder)
  {
    forall i | 0 <= i < |db.items|
      ensures HoldFits(after.items[i]) && Moved(db.items[i], after.items[i])
    {
      ReconciledRow(db.items[i], disk);
    }
  }

  lemma CreateKeeps(db: Db, folders: seq<Path>)
    requires DbInv(db)
    ensures var after := JobCreated(db, folders);
      && DbInv(after) && Evolved(db, after)
      && NoneProcessing(after.items, |db.jobs|)
      && PendingExactly(after.items, |db.jobs|, Distinct(folders))
      && forall i :: 0 <= i < |after.items| && after.items[i].job == |db.jobs| ==> after.items[i].state == Pending
  {
    var after := JobCreated(db, folders);
    var todo := Distinct(folders);
    CreatedRows(db, folders);
    forall f | f in todo
      ensures exists i :: 0 <= i < |after.items| && after.items[i].job == |db.jobs| && after.items[i].folder == f
    {
      var k :| 0 <= k < |todo| && todo[k] == f;
      assert after.items[|db.items| + k].folder == f;
    }
  }

  lemma CreatedRows(db: Db, folders: seq<Path>)
    requires DbInv(db)
    ensures var after := JobCreated(db, folders).items;
      && |after| == |db.items| + |Distinct(folders)|
      && (forall i :: 0 <= i < |db.items| ==> after[i] == db.items[i])
      && (forall i :: |db.items| <= i < |after| ==>
            after[i] == Item(|db.jobs|, i - |db.items|, Distinct(folders)[i - |db.items|], Pending, 0, None, []))
      && DbInv(JobCreated(db, folders))
  {
    AppendedRows(db, NewItems(|db.jobs|, Distinct(folders)), db.jobs + [Job(Running, None)]);
  }

  /** Pending rows of a new job, with new positions and folders of its own, keep the table invariants. */
  lemma AppendedRows(db: Db, rows: seq<Item>, jobs: seq<Job>)
    requires DbInv(db) && |jobs| == |db.jobs| + 1
    requires forall i :: 0 <= i < |rows| ==> rows[i].job == |db.jobs| && rows[i].state == Pending && HoldFits(rows[i])
    requires forall i, k :: 0 <= i < k < |rows| ==> rows[i].folder != rows[k].folder && rows[i].position < rows[k].position
    ensures DbInv(Db(jobs, db.items + rows))
  {
    var after, n := db.items + rows, |db.items|;
    forall i | 0 <= i < |after| ensures HoldFits(after[i]) && after[i].job < |jobs| {
      assert after[i] == if i < n then db.items[i] else rows[i - n];
    }
    forall i, k | 0 <= i < k < |after| && after[i].job == after[k].job
      ensures after[i].folder != after[k].folder && after[i].position < after[k].position
    {
      assert after[i] == if i < n then db.items[i] else rows[i - n];
      assert after[k] == if k < n then db.items[k] else rows[k - n];
    }
    assert Keyed(Db(jobs, after));
  }

  lemma ResultKeeps(db: Db, job: nat, folder: Path, imported: nat, reason: Reason, held: seq<Held>)
    requires DbInv(db)
    requires forall h :: h in held ==> h.folder == folder
    requires forall i :: 0 <= i < |db.items| && db.items[i].job == job && db.items[i].folder == folder ==>
      db.items[i].state == Processing
    ensures var after := FolderResult(db, job, folder, imported, Some(reason), held);
      && DbInv(after) && Evolved(db, after)
      && forall i :: 0 <= i < |after.items| && after.items[i].folder == folder && after.items[i].state == Review ==>
           after.items[i].job == job && after.items[i].held == held
  {
    var after := FolderResult(db, job, folder, imported, Some(reason), held);
    forall i | 0 <= i < |db.items|
      ensures HoldFits(after.items[i]) && Moved(db.items[i], after.items[i])
    {
      assert HoldFits(db.items[i]);
    }
  }

  /** The snapshot a worker iterates lists exactly its job's pending folders, each once. */
  lemma SnapshotIsPending(db: Db, job: nat)
    requires DbInv(db)
    ensures PendingExactly(db.items, job, PendingFolders(db.items, job))
  {
    SnapshotOf(db.items, job);
    var todo := PendingFolders(db.items, job);
    forall i | 0 <= i < |db.items| && db.items[i].job == job
      ensures db.items[i].state == Pending <==> db.items[i].folder in todo
    {
      if db.items[i].state == Pending { assert db.items[i] in db.items; }
      if db.items[i].folder in todo {
        var it :| it in db.items && it.job == job && it.state == Pending && it.folder == db.items[i].folder;
        var k :| 0 <= k < |db.items| && db.items[k] == it;
      }
    }
    forall f | f in todo ensures exists i :: 0 <= i < |db.items| && db.items[i].job == job && db.items[i].folder == f {
      var it :| it in db.items && it.job == job && it.state == Pending && it.folder == f;
      var k :| 0 <= k < |db.items| && db.items[k] == it;
    }
  }

  lemma {:induction false} SnapshotOf(items: seq<Item>, job: nat)
    requires forall i, k :: 0 <= i < k < |items| && items[i].job == items[k].job ==> items[i].folder != items[k].folder
    ensures NoRepeats(PendingFolders(items, job))
  {
    if items != [] {
      var front, last := items[..|items| - 1], items[|items| - 1];
      SnapshotOf(front, job);
      var todo := PendingFolders(front, job);
      forall i | 0 <= i < |todo| && last.job == job ensures todo[i] != last.folder {
        assert todo[i] in todo;
        var it :| it in front && it.job == job && it.state == Pending && it.folder == todo[i];
        var k :| 0 <= k < |front| && front[k] == it;
        assert items[k] == it;
      }
      var whole := PendingFolders(items, job);
      assert whole == todo + if last.job == job && last.state == Pending then [last.folder] else [];
      forall i, k | 0 <= i < k < |whole| ensures whole[i] != whole[k] {
        assert whole[i] == todo[i];
        if k == |todo| {
          assert whole[k] == last.folder;
        } else {
          assert whole[k] == todo[k];
        }
      }
    }
  }

  lemma LatestWithout(jobs: seq<Job>, status: JobStatus)
    ensures Latest(jobs, status).None? <==> forall k :: 0 <= k < |jobs| ==> jobs[k].status != status
  {
  }

  // ---------------------------------------------------------------- every step

  /** Every event keeps the invariant, and moves every row only along an allowed edge. */
  lemma StepKeeps(s: Sys, e: Event)
    requires Inv(s) && Step(s, e).Some?
    ensures Inv(Step(s, e).value) && Evolved(s.db, Step(s, e).value.db)
  {
    if OfWorker(e) {
      WorkerStepKeeps(s, e);
    } else if e.ReadHolds? || e.ReadJobHolds? || e.StopRoute? {
      PageKeeps(s, e);
    } else if e.RetireOne? || e.Collect? || e.CreateStaged? || e.PauseStaged? {
      MaintenanceKeeps(s, e);
    } else {
      LaunchKeeps(s, e);
    }
  }

  ghost predicate OfWorker(e: Event) {
    || e.FindPaused? || e.Resolve? || e.ReadPending? || e.Take? || e.Record? || e.Next? || e.GiveBack?
    || e.LeaveLoop? || e.Finish? || e.Raise? || e.Finally?
  }

  lemma PageKeeps(s: Sys, e: Event)
    requires Inv(s) && Step(s, e).Some? && (e.ReadHolds? || e.ReadJobHolds? || e.StopRoute?)
    ensures Inv(Step(s, e).value) && Evolved(s.db, Step(s, e).value.db)
  {
    match e
    case ReadHolds(disk) => ReadKeeps(s, AllReconciled(s.db, disk), disk);
    case ReadJobHolds(job, disk) => ReadKeeps(s, JobReconciled(s.db, job, disk), disk);
    case StopRoute => StopRouteKeeps(s);
  }

  lemma MaintenanceKeeps(s: Sys, e: Event)
    requires Inv(s) && Step(s, e).Some? && (e.RetireOne? || e.Collect? || e.CreateStaged? || e.PauseStaged?)
    ensures Inv(Step(s, e).value) && Evolved(s.db, Step(s, e).value.db)
  {
    match e
    case RetireOne => RetireOneKeeps(s);
    case Collect(disk) => CollectKeeps(s, disk);
    case CreateStaged => CreateStagedKeeps(s);
    case PauseStaged => PauseStagedKeeps(s);
  }

  lemma PauseStagedKeeps(s: Sys)
    requires Inv(s) && Step(s, PauseStaged).Some?
    ensures Inv(Step(s, PauseStaged).value) && Evolved(s.db, Step(s, PauseStaged).value.db)
  {
    ReleaseKeeps(s.db, s.task.job, JobPaused(s.db, s.task.job, None).jobs);
  }

  lemma LaunchKeeps(s: Sys, e: Event)
    requires Inv(s) && Step(s, e).Some?
    requires e.Launch? || e.UserStop? || e.Shutdown? || e.Crash? || e.BeginRecheck? || e.BeginRescan?
    ensures Inv(Step(s, e).value) && Step(s, e).value.db == s.db
  {
  }

  lemma WorkerStepKeeps(s: Sys, e: Event)
    requires OfWorker(e) && Inv(s) && Step(s, e).Some?
    ensures Inv(Step(s, e).value) && Evolved(s.db, Step(s, e).value.db)
  {
    match e
    case FindPaused => ResolveKeeps(s, []);
    case Resolve(found) => ResolveKeeps(s, found);
    case ReadPending => ReadPendingKeeps(s);
    case Take => TakeKeeps(s);
    case Record(imported, reason, held, basis) => RecordKeeps(s, imported, reason, held, basis);
    case Next => LeaveKeeps(s);
    case GiveBack => GiveBackKeeps(s);
    case LeaveLoop => LeaveKeeps(s);
    case Finish => FinishKeeps(s);
    case Raise(error) => RaiseKeeps(s, error);
    case Finally => FinallyKeeps(s);
  }

  lemma RetireOneKeeps(s: Sys)
    requires Inv(s) && StepRetireOne(s).Some?
    ensures Inv(StepRetireOne(s).value) && Evolved(s.db, StepRetireOne(s).value.db)
  {
    StatesOnly(s.db, StepRetireOne(s).value.db);
  }

  lemma CollectKeeps(s: Sys, disk: Disk)
    requires Inv(s) && StepCollect(s, disk).Some?
    ensures Inv(StepCollect(s, disk).value) && Evolved(s.db, StepCollect(s, disk).value.db)
  {
    if s.task.scan.None? { ReconcileKeeps(s.db, AllReconciled(s.db, disk), disk); }
  }

  lemma CreateStagedKeeps(s: Sys)
    requires Inv(s) && StepCreateStaged(s).Some?
    ensures Inv(StepCreateStaged(s).value) && Evolved(s.db, StepCreateStaged(s).value.db)
  {
    CreateKeeps(s.db, s.task.folders);
    LatestWithout(s.db.jobs, Paused);
    LatestWithout(StepCreateStaged(s).value.db.jobs, Paused);
  }

  lemma ResolveKeeps(s: Sys, found: seq<Path>)
    requires Inv(s)
    ensures StepResolve(s, found).Some? ==>
      Inv(StepResolve(s, found).value) && Evolved(s.db, StepResolve(s, found).value.db)
    ensures StepFindPaused(s).Some? ==> Inv(StepFindPaused(s).value) && Evolved(s.db, StepFindPaused(s).value.db)
  {
    if StepResolve(s, found).Some? {
      if s.task.wanted.Some? { ReleaseKeeps(s.db, s.task.wanted.value, JobRunning(s.db, s.task.wanted.value).jobs); }
      else { CreateKeeps(s.db, found); }
    }
  }

  lemma ReadPendingKeeps(s: Sys)
    requires Inv(s) && StepReadPending(s).Some?
    ensures Inv(StepReadPending(s).value) && Evolved(s.db, StepReadPending(s).value.db)
  {
    SnapshotIsPending(s.db, s.task.phase.job);
  }

  lemma LeaveKeeps(s: Sys)
    requires Inv(s)
    ensures StepNext(s).Some? ==> Inv(StepNext(s).value) && StepNext(s).value.db == s.db
    ensures StepLeaveLoop(s).Some? ==> Inv(StepLeaveLoop(s).value) && StepLeaveLoop(s).value.db == s.db
  {
  }

  lemma ReadKeeps(s: Sys, after: Db, disk: Disk)
    requires Inv(s) && after.jobs == s.db.jobs && |after.items| == |s.db.items|
    requires forall i :: 0 <= i < |s.db.items| ==>
      after.items[i] == s.db.items[i] || after.items[i] == Reconciled(s.db.items[i], disk)
    ensures Inv(Sys(after, s.task)) && Evolved(s.db, after)
  {
    ReconcileKeeps(s.db, after, disk);
    SameProgress(s.db, after, s.task);
  }

  /** Reconciliation is invisible to whichever task is alive. */
  lemma SameProgress(db: Db, after: Db, t: Task)
    requires TaskInv(db, t) && after.jobs == db.jobs && |after.items| == |db.items|
    requires forall i :: 0 <= i < |db.items| ==>
      && (after.items[i].state == Pending <==> db.items[i].state == Pending)
      && (after.items[i].state == Processing <==> db.items[i].state == Processing)
      && (Settled(after.items[i]) <==> Settled(db.items[i]))
      && (after.items[i].job, after.items[i].folder) == (db.items[i].job, db.items[i].folder)
    ensures TaskInv(after, t)
  {
    forall job, todo | PendingExactly(db.items, job, todo) ensures PendingExactly(after.items, job, todo) {
      forall f | f in todo ensures exists i :: 0 <= i < |after.items| && after.items[i].job == job && after.items[i].folder == f {
        var i :| 0 <= i < |db.items| && db.items[i].job == job && db.items[i].folder == f;
        assert after.items[i].folder == f;
      }
    }
    if t.Import? && t.phase.Working? {
      var i :| 0 <= i < |db.items| && db.items[i].job == t.phase.job && db.items[i].folder == t.phase.folder;
      assert after.items[i].folder == t.phase.folder;
    }
  }

  lemma StopRouteKeeps(s: Sys)
    requires Inv(s) && StepStopRoute(s).Some?
    ensures Inv(StepStopRoute(s).value) && Evolved(s.db, StepStopRoute(s).value.db)
  {
    if Latest(s.db.jobs, Running).Some? {
      var job := Latest(s.db.jobs, Running).value;
      var after := JobPaused(s.db, job, None);
      ReleaseKeeps(s.db, job, after.jobs);
      if s.task.Staged? { KeysKept(s.db.items, after.items, s.task.job, Distinct(s.task.folders)); }
    }
  }

  lemma TakeKeeps(s: Sys)
    requires Inv(s) && StepTake(s).Some?
    ensures Inv(StepTake(s).value) && Evolved(s.db, StepTake(s).value.db)
  {
    var job, todo := s.task.phase.job, s.task.phase.todo;
    var after := FolderProcessing(s.db, job, todo[0]);
    assert todo[0] in todo;
    forall i | 0 <= i < |s.db.items|
      ensures Moved(s.db.items[i], after.items[i])
      ensures s.db.items[i].job == job && s.db.items[i].folder == todo[0] ==> s.db.items[i].state == Pending
    {
    }
    StatesOnly(s.db, after);
    TakenIsNoLongerPending(s.db.items, after.items, job, todo);
  }

  lemma TakenIsNoLongerPending(a: seq<Item>, b: seq<Item>, job: nat, todo: seq<Path>)
    requires todo != [] && PendingExactly(a, job, todo) && |a| == |b|
    requires forall i :: 0 <= i < |a| ==>
      b[i] == if a[i].job == job && a[i].folder == todo[0] then a[i].(state := Processing) else a[i]
    ensures PendingExactly(b, job, todo[1..])
    ensures exists i :: 0 <= i < |b| && b[i].job == job && b[i].folder == todo[0]
  {
    var rest := todo[1..];
    assert todo == [todo[0]] + rest;
    assert forall f :: f in todo <==> f == todo[0] || f in rest;
    forall i | 0 <= i < |rest| ensures rest[i] != todo[0] { assert rest[i] == todo[i + 1]; }
    assert todo[0] !in rest;
    KeysKept(a, b, job, todo);
    assert todo[0] in todo;
  }

  lemma KeysKept(a: seq<Item>, b: seq<Item>, job: nat, todo: seq<Path>)
    requires |a| == |b|
    requires forall i :: 0 <= i < |a| ==> (b[i].job, b[i].folder) == (a[i].job, a[i].folder)
    requires forall f :: f in todo ==> exists i :: 0 <= i < |a| && a[i].job == job && a[i].folder == f
    ensures forall f :: f in todo ==> exists i :: 0 <= i < |b| && b[i].job == job && b[i].folder == f
  {
    forall f | f in todo ensures exists i :: 0 <= i < |b| && b[i].job == job && b[i].folder == f {
      var i :| 0 <= i < |a| && a[i].job == job && a[i].folder == f;
      assert b[i].folder == f;
    }
  }

  lemma RecordKeeps(s: Sys, imported: nat, reason: Reason, held: seq<Held>, basis: Basis)
    requires Inv(s) && StepRecord(s, imported, reason, held, basis).Some?
    ensures var next := StepRecord(s, imported, reason, held, basis).value;
      Inv(next) && Evolved(s.db, next.db)
  {
    var job, folder, todo := s.task.phase.job, s.task.phase.folder, s.task.phase.todo;
    ResultKeeps(s.db, job, folder, imported, reason, held);
    var after := FolderResult(s.db, job, folder, imported, Some(reason), held);
    SettledByVerdict(s.db.items, after.items, job, folder, todo);
  }

  /** The folder in flight settles, and nothing else of its job moves. */
  lemma SettledByVerdict(a: seq<Item>, b: seq<Item>, job: nat, folder: Path, todo: seq<Path>)
    requires |a| == |b| && PendingExactly(a, job, todo)
    requires forall i :: 0 <= i < |a| && a[i].job == job ==> (a[i].state == Processing <==> a[i].folder == folder)
    requires exists i :: 0 <= i < |a| && a[i].job == job && a[i].folder == folder
    requires forall i :: 0 <= i < |a| ==>
      && (b[i].job, b[i].folder) == (a[i].job, a[i].folder)
      && (a[i].job == job ==> if a[i].folder == folder then Settled(b[i]) else b[i] == a[i])
    ensures NoneProcessing(b, job) && PendingExactly(b, job, todo) && folder !in todo
  {
    KeysKept(a, b, job, todo);
    var i :| 0 <= i < |a| && a[i].job == job && a[i].folder == folder;
    assert a[i].state == Processing;
  }

  lemma GiveBackKeeps(s: Sys)
    requires Inv(s) && StepGiveBack(s).Some?
    ensures Inv(StepGiveBack(s).value) && Evolved(s.db, StepGiveBack(s).value.db)
  {
    StatesOnly(s.db, FolderPending(s.db, s.task.phase.job, s.task.phase.folder));
  }

  lemma FinishKeeps(s: Sys)
    requires Inv(s) && StepFinish(s).Some?
    ensures Inv(StepFinish(s).value) && Evolved(s.db, StepFinish(s).value.db)
  {
    var job := s.task.phase.job;
    if s.task.stopRequested {
      ReleaseKeeps(s.db, job, JobPaused(s.db, job, None).jobs);
    } else if s.task.shutdown {
      ReleaseKeeps(s.db, job, JobRunning(s.db, job).jobs);
    } else {
      StatesOnly(s.db, JobComplete(s.db, job));
    }
  }

  lemma RaiseKeeps(s: Sys, error: string)
    requires Inv(s) && StepRaise(s, error).Some?
    ensures Inv(StepRaise(s, error).value) && Evolved(s.db, StepRaise(s, error).value.db)
  {
    if JobOf(s.task).Some? {
      ReleaseKeeps(s.db, JobOf(s.task).value, JobPaused(s.db, JobOf(s.task).value, Some(error)).jobs);
    }
  }

  lemma FinallyKeeps(s: Sys)
    requires Inv(s) && StepFinally(s).Some?
    ensures Inv(StepFinally(s).value) && Evolved(s.db, StepFinally(s).value.db)
  {
    var p := s.task.phase;
    if p.claimed.Some? && p.current.Some? {
      StatesOnly(s.db, FolderPending(s.db, p.claimed.value, p.current.value));
    }
  }
}
