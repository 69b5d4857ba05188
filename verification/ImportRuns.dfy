/** Safety of the import protocol over whole runs: any number of passes, stops, crashes, restarts,
    page reads and maintenance tasks, in any order. */
module ImportRuns {
  import opened Basics
  import opened ImportState
  import opened ImportReview
  import opened ImportProtocol
  import opened ImportSafety

  /** The empty installation is fine, and everything reachable from a fine state is fine. */
  lemma {:induction false} EveryRunIsSafe(s: Sys, trace: seq<Event>)
    requires Inv(s) && Run(s, trace).Some?
    ensures Inv(Start)
    ensures var t := Run(s, trace).value;
      && Inv(t)
      && |s.db.jobs| <= |t.db.jobs| && |s.db.items| <= |t.db.items|
      && forall i :: 0 <= i < |s.db.items| ==>
           (t.db.items[i].job, t.db.items[i].folder) == (s.db.items[i].job, s.db.items[i].folder)
    decreases |trace|
  {
    if trace != [] {
      StepKeeps(s, trace[0]);
      EveryRunIsSafe(Step(s, trace[0]).value, trace[1..]);
    }
  }

  /** A recorded verdict is never undone: whatever follows, a done row stays as it is, and a held row
      stays held with no new holds or is retired. This includes the worker's own late `finally`. */
  lemma {:induction false} VerdictsAreFinal(s: Sys, trace: seq<Event>, i: nat)
    requires Inv(s) && Run(s, trace).Some? && i < |s.db.items| && Settled(s.db.items[i])
    ensures var t := Run(s, trace).value;
      && i < |t.db.items| && Settled(t.db.items[i])
      && t.db.items[i].imported == s.db.items[i].imported
      && (s.db.items[i].state == Done ==> t.db.items[i] == s.db.items[i])
      && (forall h :: h in t.db.items[i].held ==> h in s.db.items[i].held)
    decreases |trace|
  {
    if trace != [] {
      StepKeeps(s, trace[0]);
      var mid := Step(s, trace[0]).value;
      assert Moved(s.db.items[i], mid.db.items[i]);
      assert HoldFits(s.db.items[i]);
      VerdictsAreFinal(mid, trace[1..], i);
    }
  }

  /** A folder a job has recorded is never examined again by that job. */
  lemma NeverExaminedAgain(s: Sys, trace: seq<Event>, i: nat)
    requires Inv(s) && Run(s, trace).Some? && i < |s.db.items| && Settled(s.db.items[i])
    ensures var t := Run(s, trace).value;
      && (Step(t, Take).Some? ==> (t.task.phase.job, t.task.phase.todo[0]) != (s.db.items[i].job, s.db.items[i].folder))
      && (t.task.Import? && t.task.phase.Working? ==>
            (t.task.phase.job, t.task.phase.folder) != (s.db.items[i].job, s.db.items[i].folder))
  {
    VerdictsAreFinal(s, trace, i);
    EveryRunIsSafe(s, trace);
    var t := Run(s, trace).value;
    if Step(t, Take).Some? {
      assert t.task.phase.todo[0] in t.task.phase.todo;
    }
  }

  /** How a pass that was not killed settles its job: a user stop pauses it, a shutdown leaves it running
      for the next start-up, and only an undisturbed pass completes it, with every folder recorded. */
  lemma PassSettlesItsJob(s: Sys)
    requires Inv(s) && Step(s, Finish).Some?
    ensures var t := Step(s, Finish).value;
      var job := s.task.phase.job;
      && job < |t.db.jobs|
      && (t.db.jobs[job].status == Paused <==> s.task.stopRequested)
      && (t.db.jobs[job].status == Running <==> !s.task.stopRequested && s.task.shutdown)
      && (t.db.jobs[job].status == Complete <==> !s.task.stopRequested && !s.task.shutdown)
      && t.db.jobs[job].lastError == None
      && (t.db.jobs[job].status == Complete ==> AllSettled(t.db.items, job))
      && (forall k :: 0 <= k < |t.db.jobs| && k != job ==> t.db.jobs[k] == s.db.jobs[k])
  {
  }

  /** How a pass that raised settles its job: paused with the error, unless the process is shutting down,
      in which case a claimed, unsettled job is left running, as start-up expects it. */
  lemma FailureSettlesItsJob(s: Sys, error: string)
    requires Inv(s) && Step(s, Raise(error)).Some? && JobOf(s.task).Some?
    ensures var t := Step(s, Raise(error)).value;
      var job := JobOf(s.task).value;
      && job < |t.db.jobs|
      && (!s.task.shutdown ==> t.db.jobs[job] == Job(Paused, Some(error)))
      && (s.task.shutdown ==> t.db == s.db)
      && (s.task.shutdown && !s.task.phase.Begin? && !s.task.phase.Closing? ==> t.db.jobs[job].status == Running)
  {
  }

  /** After any end of a pass that claimed its job, other than a kill, none of its rows is processing. */
  lemma NothingLeftInFlight(s: Sys)
    requires Inv(s) && Step(s, Finally).Some? && s.task.phase.claimed.Some?
    ensures NoneProcessing(Step(s, Finally).value.db.items, s.task.phase.claimed.value)
  {
  }

  /** The one other exit: an exception before the job was claimed. It frees a stale in-flight row
      of the wanted job exactly when the process is not shutting down, or there was none. */
  lemma UnclaimedExit(s: Sys, error: string)
    requires Inv(s) && s.task.Import? && s.task.phase.Begin? && s.task.wanted.Some?
    ensures Run(s, [Raise(error), Finally]).Some?
    ensures NoneProcessing(Run(s, [Raise(error), Finally]).value.db.items, s.task.wanted.value)
            <==> !s.task.shutdown || NoneProcessing(s.db.items, s.task.wanted.value)
  {
    var mid := Step(s, Raise(error)).value;
    assert [Raise(error), Finally][1..] == [Finally];
    assert Run(mid, [Finally]) == Step(mid, Finally);
  }

  ghost predicate Reachable(s: Sys) {
    exists trace :: Run(Start, trace) == Some(s)
  }

  lemma ReachesNext(s: Sys, e: Event, t: Sys)
    requires Reachable(s) && Step(s, e) == Some(t)
    ensures Reachable(t)
  {
    var trace :| Run(Start, trace) == Some(s);
    RunAppends(Start, trace, e);
  }

  /** The tables of a one-folder pass. */
  function OneFolder(f: Path, state: ItemState): Db {
    Db([Job(Running, None)], [Item(0, 0, f, state, 0, None, [])])
  }

  lemma OneFolderCreated(f: Path)
    ensures JobCreated(Start.db, [f]) == OneFolder(f, Pending)
    ensures PendingFolders(OneFolder(f, Pending).items, 0) == [f]
  {
    assert Distinct([f]) == [f] by { assert [f][..0] == []; }
    var items := OneFolder(f, Pending).items;
    assert NewItems(0, [f]) == items;
    assert PendingFolders(items, 0) == [f] by { assert items[..0] == []; }
  }

  /** A first pass over one folder, working on it. */
  lemma WorkingOnFolder(f: Path)
    ensures Reachable(Sys(OneFolder(f, Processing), Import(None, Working(0, f, []), false, false)))
  {
    var pending := OneFolder(f, Pending);
    OneFolderCreated(f);
    assert Run(Start, []) == Some(Start);
    ReachesNext(Start, Launch(None), Sys(Start.db, Import(None, Begin, false, false)));
    ReachesNext(Sys(Start.db, Import(None, Begin, false, false)), Resolve([f]),
                Sys(pending, Import(None, Claimed(0), false, false)));
    ReachesNext(Sys(pending, Import(None, Claimed(0), false, false)), ReadPending,
                Sys(pending, Import(None, Looping(0, [f]), false, false)));
    assert FolderProcessing(pending, 0, f) == OneFolder(f, Processing);
    assert [f][0] == f && [f][1..] == [];
    ReachesNext(Sys(pending, Import(None, Looping(0, [f]), false, false)), Take,
                Sys(OneFolder(f, Processing), Import(None, Working(0, f, []), false, false)));
  }

  /** The same pass, killed there. */
  lemma KilledMidFolder(f: Path)
    ensures Reachable(Sys(OneFolder(f, Processing), Idle))
  {
    WorkingOnFolder(f);
    ReachesNext(Sys(OneFolder(f, Processing), Import(None, Working(0, f, []), false, false)), Crash,
                Sys(OneFolder(f, Processing), Idle));
  }

  /** A reachable instance of the exception above: after such a kill, a shutdown breaks the resume, and the
      pass ends (its `finally` ran) with the old row still processing. */
  lemma StaleRowSurvivesABrokenResume(f: Path, error: string)
    ensures exists s: Sys :: (Reachable(s) && Step(s, Finally) == Some(Sys(OneFolder(f, Processing), Idle)))
  {
    var db := OneFolder(f, Processing);
    KilledMidFolder(f);
    var resumed := Sys(db, Import(Some(0), Begin, false, false));
    ReachesNext(Sys(db, Idle), Launch(Some(0)), resumed);
    var dying := Sys(db, Import(Some(0), Begin, false, true));
    ReachesNext(resumed, Shutdown, dying);
    var closing := Sys(db, Import(Some(0), Closing(None, None, true), false, true));
    ReachesNext(dying, Raise(error), closing);
    assert Step(closing, Finally) == Some(Sys(db, Idle));
  }

  // ---------------------------------------------------------------- supersession

  /** No event of the run records a verdict for `folder`. */
  ghost predicate QuietOn(s: Sys, trace: seq<Event>, folder: Path)
    requires Run(s, trace).Some?
    decreases |trace|
  {
    trace != [] ==>
      && !(trace[0].Record? && s.task.Import? && s.task.phase.Working? && s.task.phase.folder == folder)
      && QuietOn(Step(s, trace[0]).value, trace[1..], folder)
  }

  /** Once a pass has recorded a folder, only that verdict can be in review for it, until a pass records it again. */
  lemma OnlyTheNewVerdictRemains(s: Sys, verdict: Event, trace: seq<Event>)
    requires Inv(s) && s.task.Import? && s.task.phase.Working? && verdict.Record? && Step(s, verdict).Some?
    requires var after := Step(s, verdict).value; Run(after, trace).Some? && QuietOn(after, trace, s.task.phase.folder)
    ensures var t := Run(Step(s, verdict).value, trace).value;
      forall i :: 0 <= i < |t.db.items| && t.db.items[i].folder == s.task.phase.folder && t.db.items[i].state == Review ==>
        && t.db.items[i].job == s.task.phase.job
        && forall h :: h in t.db.items[i].held ==> h in verdict.held
  {
    var job, folder := s.task.phase.job, s.task.phase.folder;
    ResultKeeps(s.db, job, folder, verdict.imported, verdict.reason, verdict.held);
    StepKeeps(s, verdict);
    StaysSuperseded(Step(s, verdict).value, trace, job, folder, verdict.held);
  }

  ghost predicate HeldOnlyBy(items: seq<Item>, job: nat, folder: Path, held: seq<Held>) {
    forall i :: 0 <= i < |items| && items[i].folder == folder && items[i].state == Review ==>
      items[i].job == job && forall h :: h in items[i].held ==> h in held
  }

  lemma {:induction false} StaysSuperseded(s: Sys, trace: seq<Event>, job: nat, folder: Path, held: seq<Held>)
    requires Inv(s) && HeldOnlyBy(s.db.items, job, folder, held)
    requires Run(s, trace).Some? && QuietOn(s, trace, folder)
    ensures HeldOnlyBy(Run(s, trace).value.db.items, job, folder, held)
    decreases |trace|
  {
    if trace != [] {
      var next := Step(s, trace[0]).value;
      StepKeeps(s, trace[0]);
      OnlyRecordHolds(s, trace[0]);
      forall i | 0 <= i < |next.db.items| && next.db.items[i].folder == folder && next.db.items[i].state == Review
        ensures next.db.items[i].job == job && forall h :: h in next.db.items[i].held ==> h in held
      {
        assert i < |s.db.items| && s.db.items[i].state == Review;
        assert Moved(s.db.items[i], next.db.items[i]);
      }
      StaysSuperseded(next, trace[1..], job, folder, held);
    }
  }

  /** A row enters review only by a verdict on its own folder. */
  lemma OnlyRecordHolds(s: Sys, e: Event)
    requires Inv(s) && Step(s, e).Some?
    ensures var next := Step(s, e).value;
      forall i :: 0 <= i < |next.db.items| && next.db.items[i].state == Review ==>
        || (i < |s.db.items| && s.db.items[i].state == Review)
        || (e.Record? && s.task.Import? && s.task.phase.Working? && next.db.items[i].folder == s.task.phase.folder)
  {
    StepKeeps(s, e);
  }

  // ---------------------------------------------------------------- re-evaluation

  /** The number of paused jobs, which every retirement lowers. */
  function PausedCount(jobs: seq<Job>): nat {
    if jobs == [] then 0
    else PausedCount(jobs[..|jobs| - 1]) + if jobs[|jobs| - 1].status == Paused then 1 else 0
  }

  lemma {:induction false} RetiringLowersTheCount(jobs: seq<Job>, k: nat)
    requires k < |jobs| && jobs[k].status == Paused
    ensures PausedCount(SetJob(jobs, k, Complete, None)) + 1 == PausedCount(jobs)
  {
    var after := SetJob(jobs, k, Complete, None);
    if k == |jobs| - 1 {
      assert after[..|jobs| - 1] == jobs[..|jobs| - 1];
    } else {
      RetiringLowersTheCount(jobs[..|jobs| - 1], k);
      assert after[..|jobs| - 1] == SetJob(jobs[..|jobs| - 1], k, Complete, None);
    }
  }

  /** The retirement loop ends: each turn lowers the number of paused jobs. */
  lemma RetirementEnds(s: Sys)
    requires Step(s, RetireOne).Some?
    ensures PausedCount(Step(s, RetireOne).value.db.jobs) + 1 == PausedCount(s.db.jobs)
  {
    RetiringLowersTheCount(s.db.jobs, Latest(s.db.jobs, Paused).value);
  }

  /** A re-evaluation ends with exactly one paused job, the new one, whose rows are all pending and are
      exactly the folders it staged; it alters no earlier row. */
  lemma RecheckStagesOneJob(s: Sys)
    requires Inv(s) && s.task.Staged? && s.task.recheck
    ensures var t := Step(s, PauseStaged).value;
      && t.task.Idle? && t.db.items == s.db.items
      && (forall k :: 0 <= k < |t.db.jobs| ==> (t.db.jobs[k].status == Paused <==> k == s.task.job))
      && (forall i :: 0 <= i < |t.db.items| && t.db.items[i].job == s.task.job ==> t.db.items[i].state == Pending)
      && (forall f :: f in s.task.folders <==>
            exists i :: 0 <= i < |t.db.items| && t.db.items[i].job == s.task.job && t.db.items[i].folder == f)
  {
    var t := Step(s, PauseStaged).value;
    assert t.db.items == s.db.items;
    var todo := Distinct(s.task.folders);
    forall f ensures f in todo <==>
        exists i :: 0 <= i < |t.db.items| && t.db.items[i].job == s.task.job && t.db.items[i].folder == f {
    }
  }

  /** Collecting holds stages exactly the folders with a live hold, and changes the tables by reconciliation only. */
  lemma RecheckCollectsLiveHolds(s: Sys, disk: Disk)
    requires Inv(s) && s.task == Retiring(None) && Latest(s.db.jobs, Paused).None?
    ensures var t := Step(s, Collect(disk)).value;
      && t.db == AllReconciled(s.db, disk)
      && t.task.Collected? && t.task.recheck
      && (forall f :: f in t.task.folders <==>
            exists i :: 0 <= i < |s.db.items| && s.db.items[i].folder == f && s.db.items[i].state == Review
                        && exists h :: h in s.db.items[i].held && Live(h, disk))
  {
    StagedFoldersAreLive(s.db, disk);
    var after := AllReconciled(s.db, disk).items;
    forall i | 0 <= i < |s.db.items|
      ensures after[i].folder == s.db.items[i].folder
      ensures after[i].state == Review <==> s.db.items[i].state == Review && exists h :: h in s.db.items[i].held && Live(h, disk)
    {
      ReconciledRow(s.db.items[i], disk);
    }
  }
}
