/** One whole pass of the importer, from its launch to its `finally` clause: how it leaves its job, and what
    it leaves in flight. The passes of other jobs, and every crash before it, are behind the state it starts in. */
module ImportPasses {
  import opened Basics
  import opened ImportState
  import opened ImportReview
  import opened ImportProtocol
  import opened ImportSafety
  import opened ImportRuns

  /** A pass so far: launched, and since then neither ended nor killed. Stops and page reads may come at any time. */
  predicate IsPass(trace: seq<Event>) {
    && trace != []
    && var e := trace[|trace| - 1];
       if |trace| == 1 then e.Launch? else !e.Finally? && !e.Crash? && IsPass(trace[..|trace| - 1])
  }

  lemma PassGoesOn(trace: seq<Event>, e: Event)
    requires IsPass(trace) && !e.Finally? && !e.Crash?
    ensures IsPass(trace + [e])
  {
    assert (trace + [e])[..|trace|] == trace;
  }

  /** The job a pass has claimed. */
  function ClaimedBy(p: Phase): Option<nat> {
    match p
    case Begin => None
    case Closing(claimed, _, _) => claimed
    case _ => Some(p.job)
  }

  /** What the last settling event of a pass made of its job: an error pauses it unless a shutdown came first;
      the end of the loop pauses it for the user, leaves it running for the next start, or completes it. */
  function EndedWith(trace: seq<Event>): Job {
    if trace == [] then Job(Running, None)
    else
      var front := trace[..|trace| - 1];
      match trace[|trace| - 1]
      case Raise(error) => if Shutdown in front then EndedWith(front) else Job(Paused, Some(error))
      case Finish => Job(if UserStop in front then Paused else if Shutdown in front then Running else Complete, None)
      case _ => EndedWith(front)
  }

  // ---------------------------------------------------------------- a pass so far

  /** Its flags are the stops it was sent, and where it stands says whether it has settled or raised. */
  ghost predicate FlagsTold(trace: seq<Event>, t: Task) {
    && t.Import?
    && (t.stopRequested <==> UserStop in trace) && (t.shutdown <==> Shutdown in trace)
    && (Finish in trace ==> t.phase.Closing?)
    && ((exists e :: e in trace && e.Raise?) ==> t.phase.Closing? && t.phase.raised)
  }

  ghost predicate StatusTold(before: Db, trace: seq<Event>, t: Sys)
    requires t.task.Import?
  {
    var job := ClaimedBy(t.task.phase);
    && (t.task.phase.Begin? ==> t.db.jobs == before.jobs && EndedWith(trace) == Job(Running, None))
    && (job.Some? ==> job.value < |t.db.jobs| && t.db.jobs[job.value] == EndedWith(trace))
    && (job.Some? ==> |before.jobs| <= |t.db.jobs| && forall k :: 0 <= k < |before.jobs| && k != job.value ==> t.db.jobs[k] == before.jobs[k])
  }

  /** Rows of other jobs are in flight exactly as they were when the pass was launched; new rows are its own. */
  ghost predicate OthersTold(before: Db, t: Sys)
    requires t.task.Import?
  {
    var job := ClaimedBy(t.task.phase);
    && |before.items| <= |t.db.items|
    && (forall i :: 0 <= i < |before.items| ==> t.db.items[i].job == before.items[i].job)
    && (t.task.phase.Begin? ==> |t.db.items| == |before.items|)
    && (t.task.phase.Begin? || job.Some? ==>
          forall i :: 0 <= i < |before.items| && Some(before.items[i].job) != job ==>
            (t.db.items[i].state == Processing <==> before.items[i].state == Processing))
    && (job.Some? ==> forall i :: |before.items| <= i < |t.db.items| ==> t.db.items[i].job == job.value)
  }

  ghost predicate Told(before: Db, trace: seq<Event>, t: Sys) {
    FlagsTold(trace, t.task) && StatusTold(before, trace, t) && OthersTold(before, t)
  }

  lemma FlagsStep(trace: seq<Event>, s: Sys, e: Event)
    requires FlagsTold(trace, s.task) && !e.Finally? && !e.Crash? && Step(s, e).Some?
    ensures FlagsTold(trace + [e], Step(s, e).value.task)
  {
    var next := Step(s, e).value.task;
    forall d ensures d in trace + [e] <==> d in trace || d == e { }
  }

  predicate Settles(e: Event) {
    e.Resolve? || e.Finish? || e.Raise?
  }

  lemma StatusStep(before: Db, trace: seq<Event>, s: Sys, e: Event)
    requires FlagsTold(trace, s.task) && StatusTold(before, trace, s) && Inv(s)
    requires !e.Finally? && !e.Crash? && Step(s, e).Some?
    ensures Step(s, e).value.task.Import? && StatusTold(before, trace + [e], Step(s, e).value)
  {
    assert (trace + [e])[..|trace|] == trace;
    if Settles(e) { SettlingStep(before, trace, s, e); } else { UnsettlingStep(s, e); }
  }

  lemma SettlingStep(before: Db, trace: seq<Event>, s: Sys, e: Event)
    requires FlagsTold(trace, s.task) && StatusTold(before, trace, s) && Inv(s) && Settles(e) && Step(s, e).Some?
    ensures Step(s, e).value.task.Import? && StatusTold(before, trace + [e], Step(s, e).value)
  {
    assert (trace + [e])[..|trace|] == trace;
  }

  lemma UnsettlingStep(s: Sys, e: Event)
    requires s.task.Import? && Inv(s) && !Settles(e) && !e.Finally? && !e.Crash? && Step(s, e).Some?
    ensures var next := Step(s, e).value;
      && next.task.Import? && next.db.jobs == s.db.jobs
      && ClaimedBy(next.task.phase) == ClaimedBy(s.task.phase) && next.task.phase.Begin? == s.task.phase.Begin?
  {
  }

  lemma OthersStep(before: Db, s: Sys, e: Event)
    requires s.task.Import? && OthersTold(before, s) && Inv(s)
    requires !e.Finally? && !e.Crash? && Step(s, e).Some?
    ensures Step(s, e).value.task.Import? && OthersTold(before, Step(s, e).value)
  {
    if e.ReadHolds? || e.ReadJobHolds? {
      StepKeeps(s, e);
    } else if Settles(e) {
      OthersAtSettling(before, s, e);
    } else {
      UnsettlingStep(s, e);
      OwnRowsOnly(s, e);
    }
  }

  lemma OthersAtSettling(before: Db, s: Sys, e: Event)
    requires s.task.Import? && OthersTold(before, s) && Inv(s) && Settles(e) && Step(s, e).Some?
    ensures Step(s, e).value.task.Import? && OthersTold(before, Step(s, e).value)
  {
  }

  /** A statement of the folder loop writes the states of its own job's rows only, but for retiring holds. */
  lemma OwnRowsOnly(s: Sys, e: Event)
    requires s.task.Import? && !Settles(e) && !e.Finally? && !e.Crash? && !e.ReadHolds? && !e.ReadJobHolds? && Step(s, e).Some?
    ensures var next := Step(s, e).value;
      && |next.db.items| == |s.db.items|
      && forall i :: 0 <= i < |s.db.items| ==>
           && next.db.items[i].job == s.db.items[i].job
           && (Some(s.db.items[i].job) != ClaimedBy(s.task.phase) ==>
                 (next.db.items[i].state == Processing <==> s.db.items[i].state == Processing))
  {
  }

  lemma ToldStep(before: Db, trace: seq<Event>, s: Sys, e: Event)
    requires Inv(s) && Told(before, trace, s) && !e.Finally? && !e.Crash? && Step(s, e).Some?
    ensures Told(before, trace + [e], Step(s, e).value)
  {
    FlagsStep(trace, s, e);
    StatusStep(before, trace, s, e);
    OthersStep(before, s, e);
  }

  lemma LaunchTold(s: Sys, e: Event)
    requires e.Launch? && Step(s, e).Some?
    ensures Told(s.db, [e], Step(s, e).value)
  {
  }

  lemma LastStep(s: Sys, front: seq<Event>, e: Event) returns (mid: Sys)
    requires Run(s, front + [e]).Some?
    ensures Run(s, front) == Some(mid) && Step(mid, e) == Run(s, front + [e])
  {
    RunAppends(s, front, e);
    mid := Run(s, front).value;
  }

  lemma {:induction false} PassSoFar(s: Sys, trace: seq<Event>)
    requires Inv(s) && IsPass(trace) && Run(s, trace).Some?
    ensures Inv(Run(s, trace).value) && Told(s.db, trace, Run(s, trace).value)
    decreases |trace|
  {
    var front, e := trace[..|trace| - 1], trace[|trace| - 1];
    assert trace == front + [e];
    EveryRunIsSafe(s, trace);
    var mid := LastStep(s, front, e);
    if front == [] {
      assert mid == s;
      LaunchTold(s, e);
      assert trace == [e];
    } else {
      PassSoFar(s, front);
      ToldStep(s.db, front, mid, e);
    }
  }

  // ---------------------------------------------------------------- the folders a pass takes

  /** Once a pass has been stopped, by the user or by a shutdown, it takes no further folder. */
  lemma {:induction false} NothingTakenAfterAStop(s: Sys, trace: seq<Event>, i: nat, k: nat)
    requires Inv(s) && IsPass(trace) && Run(s, trace).Some?
    requires i < k < |trace| && (trace[i].UserStop? || trace[i].Shutdown?)
    ensures !trace[k].Take?
    decreases |trace|
  {
    var front, e := trace[..|trace| - 1], trace[|trace| - 1];
    assert trace == front + [e];
    var mid := LastStep(s, front, e);
    if k < |front| {
      NothingTakenAfterAStop(s, front, i, k);
    } else {
      PassSoFar(s, front);
      assert front[i] in front;
    }
  }

  /** The folders a run takes, one after another. */
  function TakenFolders(s: Sys, trace: seq<Event>): seq<Path>
    requires Run(s, trace).Some?
    decreases |trace|
  {
    if trace == [] then []
    else
      var next := Step(s, trace[0]).value;
      (if trace[0].Take? && next.task.Import? && next.task.phase.Working? then [next.task.phase.folder] else [])
      + TakenFolders(next, trace[1..])
  }

  /** The folders the worker has yet to take. */
  function Ahead(p: Phase): seq<Path> {
    match p
    case Looping(_, todo) => todo
    case Working(_, _, todo) => todo
    case Recorded(_, _, todo, _) => todo
    case _ => []
  }

  lemma AheadStep(s: Sys, e: Event)
    requires s.task.Import? && !s.task.phase.Begin? && !s.task.phase.Claimed?
    requires !e.Finally? && !e.Crash? && Step(s, e).Some?
    ensures var next := Step(s, e).value.task;
      && next.Import? && !next.phase.Begin? && !next.phase.Claimed?
      && if e.Take? then next.phase.Working? && Ahead(s.task.phase) == [next.phase.folder] + Ahead(next.phase)
         else Ahead(next.phase) == Ahead(s.task.phase) || Ahead(next.phase) == []
  {
  }

  /** A pass takes the folders of its snapshot one at a time from the front, skipping none. */
  lemma {:induction false} TakenInOrder(s: Sys, trace: seq<Event>)
    requires s.task.Import? && !s.task.phase.Begin? && !s.task.phase.Claimed?
    requires Run(s, trace).Some? && forall e :: e in trace ==> !e.Finally? && !e.Crash?
    ensures TakenFolders(s, trace) <= Ahead(s.task.phase)
    decreases |trace|
  {
    if trace != [] {
      AheadStep(s, trace[0]);
      TakenInOrder(Step(s, trace[0]).value, trace[1..]);
    }
  }

  /** The stop button with no listed task behind it pauses the newest running job and lets its folders wait. */
  lemma StopButtonPausesTheNewest(s: Sys, job: nat)
    requires Step(s, StopRoute).Some?
    requires job < |s.db.jobs| && s.db.jobs[job].status == Running
    requires forall k :: job < k < |s.db.jobs| ==> s.db.jobs[k].status != Running
    ensures var t := Step(s, StopRoute).value;
      && t.task == s.task && t.db.jobs == s.db.jobs[job := Job(Paused, None)] && |t.db.items| == |s.db.items|
      && forall i :: 0 <= i < |t.db.items| ==>
           t.db.items[i] == if s.db.items[i].job == job && s.db.items[i].state == Processing
                            then s.db.items[i].(state := Pending) else s.db.items[i]
  {
    assert Latest(s.db.jobs, Running) == Some(job);
  }

  // ---------------------------------------------------------------- how a pass ends

  ghost predicate NothingInFlight(items: seq<Item>) {
    forall i :: 0 <= i < |items| ==> items[i].state != Processing
  }

  /** A row of some other job was in flight. */
  ghost predicate OthersInFlight(items: seq<Item>, job: nat) {
    exists i :: 0 <= i < |items| && items[i].job != job && items[i].state == Processing
  }

  /** A pass that claimed a job and was not killed leaves its job's status to be exactly what the user's stop,
      the shutdown and the error it met say; no other job's status moves. */
  lemma PassEndsAs(s: Sys, trace: seq<Event>, b: Sys)
    requires Inv(s) && IsPass(trace) && Run(s, trace) == Some(b)
    requires Step(b, Finally).Some? && b.task.phase.claimed.Some?
    ensures var job, jobs := b.task.phase.claimed.value, Step(b, Finally).value.db.jobs;
      && job < |jobs| && jobs[job] == EndedWith(trace)
      && (forall k :: 0 <= k < |s.db.jobs| && k != job ==> k < |jobs| && jobs[k] == s.db.jobs[k])
  {
    PassSoFar(s, trace);
  }

  /** Such a pass leaves no row at all in flight exactly when, at its launch, no row of another job was. */
  lemma NothingInFlightExactly(s: Sys, trace: seq<Event>, b: Sys)
    requires Inv(s) && IsPass(trace) && Run(s, trace) == Some(b)
    requires Step(b, Finally).Some? && b.task.phase.claimed.Some?
    ensures NothingInFlight(Step(b, Finally).value.db.items) <==> !OthersInFlight(s.db.items, b.task.phase.claimed.value)
  {
    PassSoFar(s, trace);
    NothingLeftInFlight(b);
    StepKeeps(b, Finally);
    InFlightAcross(s.db, b, Step(b, Finally).value.db.items, b.task.phase.claimed.value);
  }

  lemma InFlightAcross(before: Db, b: Sys, items: seq<Item>, job: nat)
    requires b.task.Import? && ClaimedBy(b.task.phase) == Some(job) && OthersTold(before, b)
    requires NoneProcessing(items, job) && |items| == |b.db.items|
    requires forall i :: 0 <= i < |items| ==>
      items[i].job == b.db.items[i].job && (items[i].job != job ==> items[i] == b.db.items[i])
    ensures NothingInFlight(items) <==> !OthersInFlight(before.items, job)
  {
    if OthersInFlight(before.items, job) {
      var i :| 0 <= i < |before.items| && before.items[i].job != job && before.items[i].state == Processing;
      assert items[i] == b.db.items[i];
    } else {
      forall i | 0 <= i < |items| ensures items[i].state != Processing {
        if items[i].job != job { assert i < |before.items|; }
      }
    }
  }

  lemma EndedWithAppends(trace: seq<Event>, e: Event)
    requires !e.Finish? && !e.Raise?
    ensures EndedWith(trace + [e]) == EndedWith(trace)
  {
    assert (trace + [e])[..|trace|] == trace;
  }

  // ---------------------------------------------------------------- reachable instances

  /** The tables after a killed pass and a second, untroubled one that found nothing to do. */
  function Untouched(f: Path, status: JobStatus): Db {
    Db([Job(Running, None), Job(status, None)], [Item(0, 0, f, Processing, 0, None, [])])
  }

  lemma NonePending(it: Item)
    requires it.state != Pending
    ensures PendingFolders([it], 1) == []
  {
    assert [it][..0] == [];
  }

  /** A pass over nothing adds its job and no row. */
  lemma EmptyPassCreated(db: Db)
    ensures JobCreated(db, []) == Db(db.jobs + [Job(Running, None)], db.items)
  {
    var none: seq<Path> := [];
    assert Distinct(none) == none && NewItems(|db.jobs|, none) == [];
    assert db.items + [] == db.items;
  }

  lemma SecondPassCreated(f: Path)
    ensures JobCreated(OneFolder(f, Processing), []) == Untouched(f, Running)
  {
    EmptyPassCreated(OneFolder(f, Processing));
    assert [Job(Running, None)] + [Job(Running, None)] == [Job(Running, None), Job(Running, None)];
  }

  lemma SecondPassFinishes(f: Path)
    ensures PendingFolders(Untouched(f, Running).items, 1) == []
    ensures JobComplete(Untouched(f, Running), 1) == Untouched(f, Complete)
  {
    NonePending(Untouched(f, Running).items[0]);
    assert [Job(Running, None), Job(Running, None)][1 := Job(Complete, None)] == [Job(Running, None), Job(Complete, None)];
  }

  /** The start of the second pass. Resuming looks only for a paused job, so two jobs run at once. */
  lemma SecondPassClaims(f: Path)
    ensures Reachable(Sys(Untouched(f, Running), Import(None, Claimed(1), false, false)))
  {
    var db := OneFolder(f, Processing);
    KilledMidFolder(f);
    SecondPassCreated(f);
    ReachesNext(Sys(db, Idle), Launch(None), Sys(db, Import(None, Begin, false, false)));
    assert db.jobs[..1] == db.jobs && db.jobs[..0] == [];
    ReachesNext(Sys(db, Import(None, Begin, false, false)), Resolve([]),
                Sys(Untouched(f, Running), Import(None, Claimed(1), false, false)));
  }

  ghost predicate BothRun(jobs: seq<Job>, j: nat, k: nat) {
    j < k < |jobs| && jobs[j].status == Running && jobs[k].status == Running
  }

  lemma TwoJobsCanRun(f: Path)
    ensures exists s :: Reachable(s) && BothRun(s.db.jobs, 0, 1)
  {
    SecondPassClaims(f);
    var s := Sys(Untouched(f, Running), Import(None, Claimed(1), false, false));
    assert Reachable(s) && BothRun(s.db.jobs, 0, 1);
  }

  /** Once a pass has claimed its job, that is the only one running exactly when no other job was running. */
  lemma OneJobRunsExactly(s: Sys, found: seq<Path>)
    requires Inv(s) && Step(s, Resolve(found)).Some?
    ensures var t := Step(s, Resolve(found)).value;
      (forall j, k :: !BothRun(t.db.jobs, j, k))
        <==> forall k :: 0 <= k < |s.db.jobs| && s.db.jobs[k].status == Running ==> k == t.task.phase.job
  {
    var t := Step(s, Resolve(found)).value;
    var job := t.task.phase.job;
    assert job < |t.db.jobs| && t.db.jobs[job].status == Running;
    forall k | 0 <= k < |s.db.jobs| && s.db.jobs[k].status == Running && k != job
      ensures exists j, l :: BothRun(t.db.jobs, j, l)
    {
      assert t.db.jobs[k] == s.db.jobs[k];
      assert BothRun(t.db.jobs, if k < job then k else job, if k < job then job else k);
    }
    forall j, k | BothRun(t.db.jobs, j, k)
      ensures exists l :: 0 <= l < |s.db.jobs| && s.db.jobs[l].status == Running && l != job
    {
      var l := if j == job then k else j;
      assert l != job && t.db.jobs[l] == s.db.jobs[l];
    }
  }

  /** A pass that was neither stopped nor broken completes its job, while a row of a killed pass stays in flight. */
  lemma StaleRowSurvivesACompletedPass(f: Path)
    ensures Reachable(Sys(Untouched(f, Complete), Idle))
  {
    var db := Untouched(f, Running);
    SecondPassClaims(f);
    SecondPassFinishes(f);
    ReachesNext(Sys(db, Import(None, Claimed(1), false, false)), ReadPending, Sys(db, Import(None, Looping(1, []), false, false)));
    ReachesNext(Sys(db, Import(None, Looping(1, []), false, false)), LeaveLoop,
                Sys(db, Import(None, Leaving(1, None), false, false)));
    var after := Untouched(f, Complete);
    ReachesNext(Sys(db, Import(None, Leaving(1, None), false, false)), Finish,
                Sys(after, Import(None, Closing(Some(1), None, false), false, false)));
    ReachesNext(Sys(after, Import(None, Closing(Some(1), None, false), false, false)), Finally, Sys(after, Idle));
  }

  // ---------------------------------------------------------------- an interrupted name search

  /** A folder whose name search a stop cut short is recorded done, and its job never looks at it again. */
  lemma InterruptedFolderIsDone(s: Sys, trace: seq<Event>, i: nat)
    requires Inv(s) && s.task.Import? && s.task.phase.Working? && i < |s.db.items|
    requires (s.db.items[i].job, s.db.items[i].folder) == (s.task.phase.job, s.task.phase.folder)
    requires Step(s, Record(0, EmptyFolder, [], Interrupted)).Some?
    requires Run(Step(s, Record(0, EmptyFolder, [], Interrupted)).value, trace).Some?
    ensures Stopping(s.task)
    ensures var t := Run(Step(s, Record(0, EmptyFolder, [], Interrupted)).value, trace).value;
      && i < |t.db.items| && t.db.items[i].state == Done && t.db.items[i].held == []
      && (Step(t, Take).Some? ==> (t.task.phase.job, t.task.phase.todo[0]) != (s.db.items[i].job, s.db.items[i].folder))
  {
    var next := Step(s, Record(0, EmptyFolder, [], Interrupted)).value;
    StepKeeps(s, Record(0, EmptyFolder, [], Interrupted));
    assert next.db.items[i].state == Done;
    VerdictsAreFinal(next, trace, i);
    NeverExaminedAgain(next, trace, i);
  }

  /** Such a pass over one folder: stopped by the user while it waits for its slot, it ends paused, its one
      folder done, and no search was made. */
  function Unsearched(f: Path, status: JobStatus): Db {
    Db([Job(status, None)], [Item(0, 0, f, Done, 0, None, [])])
  }

  lemma UnsearchedFolderIsDone(f: Path)
    ensures Reachable(Sys(Unsearched(f, Paused), Idle))
  {
    var working, db := OneFolder(f, Processing), Unsearched(f, Running);
    WorkingOnFolder(f);
    ReachesNext(Sys(working, Import(None, Working(0, f, []), false, false)), UserStop,
                Sys(working, Import(None, Working(0, f, []), true, false)));
    assert FolderResult(working, 0, f, 0, Some(EmptyFolder), []) == db;
    ReachesNext(Sys(working, Import(None, Working(0, f, []), true, false)), Record(0, EmptyFolder, [], Interrupted),
                Sys(db, Import(None, Recorded(0, f, [], true), true, false)));
    ReachesNext(Sys(db, Import(None, Recorded(0, f, [], true), true, false)), Next,
                Sys(db, Import(None, Looping(0, []), true, false)));
    ReachesNext(Sys(db, Import(None, Looping(0, []), true, false)), LeaveLoop,
                Sys(db, Import(None, Leaving(0, None), true, false)));
    var after := Unsearched(f, Paused);
    assert JobPaused(db, 0, None) == after;
    ReachesNext(Sys(db, Import(None, Leaving(0, None), true, false)), Finish,
                Sys(after, Import(None, Closing(Some(0), None, false), true, false)));
    ReachesNext(Sys(after, Import(None, Closing(Some(0), None, false), true, false)), Finally, Sys(after, Idle));
  }
}
