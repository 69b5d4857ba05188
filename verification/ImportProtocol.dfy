/** Continuous Library Import as a transition system.

    Each event is one atomic database statement of the importer or of a maintenance task, one of its
    control decisions, or something done to it: a stop request, a shutdown, a crash, a page that
    reconciles the backlog. The importer and the two maintenance tasks share one task lane, so at
    most one of them is alive. */
module ImportProtocol {
  import opened Basics
  import opened ImportState
  import opened ImportReview

  /** Where a worker stands in `run`. `current` is the folder its `finally` clause would hand back. */
  datatype Phase =
    | Begin                                                            // no job resolved yet
    | Claimed(job: nat)                                                // job marked running, pending rows unread
    | Looping(job: nat, todo: seq<Path>)                               // top of the folder loop
    | Working(job: nat, folder: Path, todo: seq<Path>)                 // row marked processing
    | Recorded(job: nat, folder: Path, todo: seq<Path>, empty: bool)   // verdict committed, status not emitted
    | Leaving(job: nat, current: Option<Path>)                         // loop left, job status not settled
    | Closing(claimed: Option<nat>, current: Option<Path>, raised: bool) // only `finally` remains; None: never claimed

  datatype Task =
    | Idle
    | Import(wanted: Option<nat>, phase: Phase, stopRequested: bool, shutdown: bool)
    | Retiring(scan: Option<seq<Path>>)          // maintenance; None re-evaluates holds, Some rescans
    | Collected(recheck: bool, folders: seq<Path>)
    | Staged(recheck: bool, job: nat, folders: seq<Path>)

  datatype Sys = Sys(db: Db, task: Task)

  /** What a verdict rests on: the folder's files, or for a folder without any, that its name needs no search,
      that its name was searched, or that a stop cut the wait for that search short. */
  datatype Basis = FromFiles | NotASeries | Searched | Interrupted

  datatype Event =
    // the importer
    | Launch(wanted: Option<nat>)
    | FindPaused
    | Resolve(found: seq<Path>)
    | ReadPending
    | Take
    | Record(imported: nat, reason: Reason, held: seq<Held>, basis: Basis)
    | Next
    | GiveBack
    | LeaveLoop
    | Finish
    | Raise(error: string)
    | Finally
    // what happens to it
    | UserStop
    | Shutdown
    | Crash
    // the status page
    | ReadHolds(disk: Disk)
    | ReadJobHolds(job: nat, disk: Disk)
    | StopRoute
    // maintenance
    | BeginRecheck
    | BeginRescan(found: seq<Path>)
    | RetireOne
    | Collect(disk: Disk)
    | CreateStaged
    | PauseStaged

  const Start := Sys(Db([], []), Idle)

  predicate Stopping(t: Task) {
    t.Import? && (t.stopRequested || t.shutdown)
  }

  /** The job a worker's exception handler would pause. */
  function JobOf(t: Task): Option<nat>
    requires t.Import?
  {
    match t.phase
    case Begin => t.wanted
    case Closing(claimed, _, _) => claimed
    case _ => Some(t.phase.job)
  }

  /** The folder a worker's `finally` clause would hand back if it left from here. */
  function CurrentOf(p: Phase): Option<Path> {
    match p
    case Begin => None
    case Claimed(_) => None
    case Looping(_, todo) => if todo == [] then None else Some(todo[0])
    case Working(_, f, _) => Some(f)
    case Recorded(_, f, _, _) => Some(f)
    case Leaving(_, c) => c
    case Closing(_, c, _) => c
  }

  function Goto(s: Sys, db: Db, phase: Phase): Option<Sys>
    requires s.task.Import?
  {
    Some(Sys(db, s.task.(phase := phase)))
  }

  /** One event, or None where the code cannot perform it. */
  function Step(s: Sys, e: Event): Option<Sys> {
    match e
    case Launch(wanted) =>
      if s.task.Idle? && (wanted.Some? ==> wanted.value < |s.db.jobs|)
      then Some(Sys(s.db, Import(wanted, Begin, false, false))) else None
    case FindPaused => StepFindPaused(s)
    case Resolve(found) => StepResolve(s, found)
    case ReadPending => StepReadPending(s)
    case Take => StepTake(s)
    case Record(imported, reason, held, basis) => StepRecord(s, imported, reason, held, basis)
    case Next => StepNext(s)
    case GiveBack => StepGiveBack(s)
    case LeaveLoop => StepLeaveLoop(s)
    case Finish => StepFinish(s)
    case Raise(error) => StepRaise(s, error)
    case Finally => StepFinally(s)
    case UserStop =>
      if s.task.Import? then Some(s.(task := s.task.(stopRequested := true))) else None
    case Shutdown =>
      if s.task.Import? then Some(s.(task := s.task.(shutdown := true))) else None
    case Crash => Some(s.(task := Idle))
    case ReadHolds(disk) => Some(s.(db := AllReconciled(s.db, disk)))
    case ReadJobHolds(job, disk) => Some(s.(db := JobReconciled(s.db, job, disk)))
    case StopRoute => StepStopRoute(s)
    case BeginRecheck => if s.task.Idle? then Some(s.(task := Retiring(None))) else None
    case BeginRescan(found) => if s.task.Idle? then Some(s.(task := Retiring(Some(found)))) else None
    case RetireOne => StepRetireOne(s)
    case Collect(disk) => StepCollect(s, disk)
    case CreateStaged => StepCreateStaged(s)
    case PauseStaged =>
      if s.task.Staged? then Some(Sys(JobPaused(s.db, s.task.job, None), Idle)) else None
  }

  function StepFindPaused(s: Sys): Option<Sys> {
    if s.task.Import? && s.task.phase.Begin? && s.task.wanted.None? && Latest(s.db.jobs, Paused).Some?
    then Some(s.(task := s.task.(wanted := Latest(s.db.jobs, Paused)))) else None
  }

  function StepResolve(s: Sys, found: seq<Path>): Option<Sys> {
    if !s.task.Import? || !s.task.phase.Begin? then None
    else if s.task.wanted.Some? then Goto(s, JobRunning(s.db, s.task.wanted.value), Claimed(s.task.wanted.value))
    else if Latest(s.db.jobs, Paused).Some? then None
    else Goto(s, JobCreated(s.db, found), Claimed(|s.db.jobs|))
  }

  function StepReadPending(s: Sys): Option<Sys> {
    if !s.task.Import? || !s.task.phase.Claimed? then None
    else Goto(s, s.db, Looping(s.task.phase.job, PendingFolders(s.db.items, s.task.phase.job)))
  }

  function StepTake(s: Sys): Option<Sys> {
    if !s.task.Import? || !s.task.phase.Looping? || s.task.phase.todo == [] || Stopping(s.task) then None
    else
      var p := s.task.phase;
      Goto(s, FolderProcessing(s.db, p.job, p.todo[0]), Working(p.job, p.todo[0], p.todo[1..]))
  }

  /** What a folder without files can be recorded with. */
  predicate Fits(basis: Basis, folder: Path, imported: nat, reason: Reason, held: seq<Held>, stopping: bool) {
    match basis
    case FromFiles => true
    case NotASeries => imported == 0 && held == []
    case Searched => imported == 0 && reason == EmptyFolder && held == [Held(folder, folder, EmptyFolder)]
    case Interrupted => imported == 0 && held == [] && stopping
  }

  function StepRecord(s: Sys, imported: nat, reason: Reason, held: seq<Held>, basis: Basis): Option<Sys> {
    if !s.task.Import? || !s.task.phase.Working? then None
    else
      var p := s.task.phase;
      if exists h :: h in held && h.folder != p.folder then None
      else if !Fits(basis, p.folder, imported, reason, held, Stopping(s.task)) then None
      else Goto(s, FolderResult(s.db, p.job, p.folder, imported, Some(reason), held),
                Recorded(p.job, p.folder, p.todo, !basis.FromFiles?))
  }

  /** An empty folder's verdict goes straight to the next turn; any other first looks at the stop flags. */
  function StepNext(s: Sys): Option<Sys> {
    if !s.task.Import? || !s.task.phase.Recorded? then None
    else
      var p := s.task.phase;
      if !p.empty && Stopping(s.task) then Goto(s, s.db, Leaving(p.job, None)) else Goto(s, s.db, Looping(p.job, p.todo))
  }

  function StepGiveBack(s: Sys): Option<Sys> {
    if !s.task.Import? || !s.task.phase.Working? || !Stopping(s.task) then None
    else
      var p := s.task.phase;
      Goto(s, FolderPending(s.db, p.job, p.folder), Leaving(p.job, Some(p.folder)))
  }

  function StepLeaveLoop(s: Sys): Option<Sys> {
    if !s.task.Import? || !s.task.phase.Looping? || (s.task.phase.todo != [] && !Stopping(s.task)) then None
    else Goto(s, s.db, Leaving(s.task.phase.job, CurrentOf(s.task.phase)))
  }

  function StepFinish(s: Sys): Option<Sys> {
    if !s.task.Import? || !s.task.phase.Leaving? then None
    else
      var job := s.task.phase.job;
      Goto(s, if s.task.stopRequested then JobPaused(s.db, job, None)
              else if s.task.shutdown then JobRunning(s.db, job)
              else JobComplete(s.db, job), Closing(Some(job), s.task.phase.current, false))
  }

  /** The `except` clause: every phase can raise, the status emission after the final status included. */
  function StepRaise(s: Sys, error: string): Option<Sys> {
    if !s.task.Import? || (s.task.phase.Closing? && s.task.phase.raised) then None
    else
      var job := JobOf(s.task);
      Goto(s, if job.Some? && !s.task.shutdown then JobPaused(s.db, job.value, Some(error)) else s.db,
           Closing(if s.task.phase.Begin? then None else job, CurrentOf(s.task.phase), true))
  }

  function StepFinally(s: Sys): Option<Sys> {
    if !s.task.Import? || !s.task.phase.Closing? then None
    else
      var p := s.task.phase;
      Some(Sys(if p.current.Some? && p.claimed.Some? && Stopping(s.task)
               then FolderPending(s.db, p.claimed.value, p.current.value) else s.db, Idle))
  }

  /** The stop button with no listed task behind it. A rescan is not listed, so it can land inside one. */
  function StepStopRoute(s: Sys): Option<Sys> {
    var unlisted := s.task.Idle? || (s.task.Retiring? && s.task.scan.Some?)
                    || (s.task.Collected? && !s.task.recheck) || (s.task.Staged? && !s.task.recheck);
    if !unlisted then None
    else match Latest(s.db.jobs, Running)
      case None => Some(s)
      case Some(job) => Some(s.(db := JobPaused(s.db, job, None)))
  }

  function StepRetireOne(s: Sys): Option<Sys> {
    if s.task.Retiring? && Latest(s.db.jobs, Paused).Some?
    then Some(s.(db := JobComplete(s.db, Latest(s.db.jobs, Paused).value))) else None
  }

  function StepCollect(s: Sys, disk: Disk): Option<Sys> {
    if !s.task.Retiring? || Latest(s.db.jobs, Paused).Some? then None
    else match s.task.scan
      case Some(found) => Some(s.(task := Collected(false, found)))
      case None => Some(Sys(AllReconciled(s.db, disk), Collected(true, LiveFolders(s.db, disk))))
  }

  function StepCreateStaged(s: Sys): Option<Sys> {
    if s.task.Collected?
    then Some(Sys(JobCreated(s.db, s.task.folders), Staged(s.task.recheck, |s.db.jobs|, s.task.folders))) else None
  }

  function Run(s: Sys, trace: seq<Event>): Option<Sys>
    decreases |trace|
  {
    if trace == [] then Some(s)
    else match Step(s, trace[0])
      case None => None
      case Some(next) => Run(next, trace[1..])
  }

  lemma {:induction false} RunAppends(s: Sys, trace: seq<Event>, e: Event)
    decreases |trace|
    ensures Run(s, trace + [e]) == match Run(s, trace) case None => None case Some(mid) => Step(mid, e)
  {
    if trace == [] {
      assert trace + [e] == [e];
      assert Step(s, e).Some? ==> Run(Step(s, e).value, [e][1..]) == Step(s, e);
    } else {
      assert (trace + [e])[0] == trace[0] && (trace + [e])[1..] == trace[1..] + [e];
      if Step(s, trace[0]).Some? { RunAppends(Step(s, trace[0]).value, trace[1..], e); }
    }
  }

  /** A run followed by one step from where it ended. */
  lemma RunExtends(s: Sys, trace: seq<Event>, mid: Sys, e: Event, after: Sys)
    requires Run(s, trace) == Some(mid) && Step(mid, e) == Some(after)
    ensures Run(s, trace + [e]) == Some(after)
  {
    RunAppends(s, trace, e);
  }
}
