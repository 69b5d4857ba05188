/** The durable importer's `run`, as a program over the checkpoint store and a script of answers.

    The script says what the worker meets at each point where it waits for the outside world: a reply,
    the stop flags that were raised meanwhile, a page that reconciled the backlog meanwhile. Where the
    script ends, the process dies. So a run over every script covers every crash point.
    A stop that lands between a stop check and the statement it guards is the same as one that lands
    right after that statement, since checks read only the flags. */
module ImportWorker {
  import opened Basics
  import opened ImportState
  import opened ImportReview
  import P = ImportProtocol
  import opened ImportSafety
  import opened ImportPasses
  import opened ImportRuns
  import opened ImportStore

  datatype Reply =
    | Nothing                                     // still waiting
    | Fine
    | Raises(error: string)
    | RateLimited                                 // the provider refused; cooldown over
    | Scanned(folders: seq<Path>)
    | SlotFree                                    // the lane's interval has passed
    | NoFiles(query: Option<string>)              // no files; the name to search, if it is a series nobody owns
    | TitleSearched(title: string)                // a title's search was answered
    | Judged(imported: nat, reasons: set<Reason>, held: seq<Held>)

  datatype Visit = Backlog(disk: Disk) | JobPage(job: nat, disk: Disk)

  datatype Answer = Answer(visit: Option<Visit>, userStop: bool, shutdown: bool, reply: Reply)

  datatype Ending = Completed | PausedByUser | LeftRunning | Failed(error: string) | Killed

  /** The reason a folder is held for, when its groups disagree. */
  function PrimaryReason(reasons: set<Reason>): Reason {
    if NoCandidate in reasons then NoCandidate
    else if WeakScore in reasons then WeakScore
    else if Tie in reasons then Tie
    else NoCandidate
  }

  /** The order in which the reasons of a folder's groups are considered. */
  function Precedence(r: Reason): nat {
    match r
    case NoCandidate => 0
    case WeakScore => 1
    case Tie => 2
    case EmptyFolder => 3
  }

  /** A folder is held for the first of its groups' reasons, and for lack of a candidate when they give none. */
  lemma FirstReasonIsGiven(reasons: set<Reason>)
    ensures var given := reasons - {EmptyFolder};
      if given == {} then PrimaryReason(reasons) == NoCandidate
      else PrimaryReason(reasons) in given && forall r :: r in given ==> Precedence(PrimaryReason(reasons)) <= Precedence(r)
  {
    var given := reasons - {EmptyFolder};
    if given != {} {
      var r :| r in given;
      assert r.NoCandidate? || r.WeakScore? || r.Tie?;
    } else {
      forall r | r in reasons ensures r == EmptyFolder { assert r !in given; }
    }
  }

  /** Every review row the importer builds names the folder it is working on. */
  function InFolder(held: seq<Held>, folder: Path): (r: seq<Held>)
    ensures |r| == |held| && forall i :: 0 <= i < |r| ==> r[i] == held[i].(folder := folder)
  {
    seq(|held|, i requires 0 <= i < |held| => held[i].(folder := folder))
  }

  /** Waiting for a search slot, a stop is seen before the slot comes free. */
  predicate StoppedFirst(script: seq<Answer>, stopping: bool) {
    || stopping
    || (script != [] && (script[0].userStop || script[0].shutdown
                         || (script[0].reply != SlotFree && StoppedFirst(script[1..], false))))
  }

  /** A stop had been asked for, or is before any answer that frees the slot earlier. */
  ghost predicate StopComesFirst(script: seq<Answer>, stopping: bool) {
    stopping || exists i :: 0 <= i < |script| && (script[i].userStop || script[i].shutdown)
                            && forall k :: 0 <= k < i ==> script[k].reply != SlotFree
  }

  lemma {:induction false} StoppedFirstExactly(script: seq<Answer>, stopping: bool)
    ensures StoppedFirst(script, stopping) <==> StopComesFirst(script, stopping)
    decreases |script|
  {
    if !stopping && script != [] {
      var rest := script[1..];
      StoppedFirstExactly(rest, false);
      if StoppedFirst(script, stopping) && !script[0].userStop && !script[0].shutdown {
        var i :| 0 <= i < |rest| && (rest[i].userStop || rest[i].shutdown) && forall k :: 0 <= k < i ==> rest[k].reply != SlotFree;
        assert script[i + 1] == rest[i];
        assert forall k :: 0 <= k < i + 1 ==> script[k].reply != SlotFree;
      }
      if StopComesFirst(script, stopping) && !script[0].userStop && !script[0].shutdown {
        var i :| 0 <= i < |script| && (script[i].userStop || script[i].shutdown) && forall k :: 0 <= k < i ==> script[k].reply != SlotFree;
        assert script[0].reply != SlotFree && rest[i - 1] == script[i];
        assert forall k :: 0 <= k < i - 1 ==> rest[k] == script[k + 1];
      }
    }
  }

  /** What a folder without files is recorded on: nothing to search, an answer, or a stop that came first. */
  function BasisFor(query: Option<string>, searchCache: set<string>, script: seq<Answer>, stopping: bool): P.Basis {
    if query.None? then P.NotASeries
    else if query.value !in searchCache && StoppedFirst(script, stopping) then P.Interrupted
    else P.Searched
  }

  /** The job a pass takes up: the wanted one, else the newest paused one, else a new one. */
  function Chosen(wanted: Option<nat>, jobs: seq<Job>): nat {
    if wanted.Some? then wanted.value
    else if Latest(jobs, Paused).Some? then Latest(jobs, Paused).value else |jobs|
  }

  /** The first of the script's answers that judges a folder. */
  function FirstVerdict(script: seq<Answer>): (r: Option<Reply>)
    ensures r.Some? ==> r.value.Judged?
  {
    if script == [] then None
    else if script[0].reply.Judged? then Some(script[0].reply)
    else FirstVerdict(script[1..])
  }

  /** A judged folder is recorded with everything it was judged to be. */
  ghost function VerdictOf(folder: Path, judged: Reply): P.Event
    requires judged.Judged?
  {
    P.Record(judged.imported, PrimaryReason(judged.reasons), InFolder(judged.held, folder), P.FromFiles)
  }

  /** The wanted job; without one, a paused job than which no newer one is paused; without that, a new one. */
  ghost predicate TakesUp(wanted: Option<nat>, jobs: seq<Job>, job: nat) {
    if wanted.Some? then job == wanted.value
    else if exists k :: 0 <= k < |jobs| && jobs[k].status == Paused then
      job < |jobs| && jobs[job].status == Paused && forall k :: job < k < |jobs| ==> jobs[k].status != Paused
    else job == |jobs|
  }

  lemma ChosenIsTakenUp(wanted: Option<nat>, jobs: seq<Job>)
    ensures TakesUp(wanted, jobs, Chosen(wanted, jobs))
  {
  }

  class Worker {
    const store: CheckpointStore
    var jobId: Option<nat>
    var stopRequested: bool
    var stop: bool
    var searchCache: set<string>                  // the queries answered so far; an answer only fills display fields
    var script: seq<Answer>

    ghost const from: P.Sys
    ghost var trace: seq<P.Event>
    ghost var wanted: Option<nat>
    ghost var phase: P.Phase
    ghost var lastVerdict: Option<P.Event>        // the verdict most recently recorded
    ghost var settled: Option<Job>                // what the end of the folder loop made of the job

    ghost function Now(): P.Sys
      reads this, store
    {
      P.Sys(store.Tables(), P.Import(wanted, phase, stopRequested, stop))
    }

    /** The worker's whole history is a run of the protocol, and its fields are the protocol's state. */
    ghost predicate Valid()
      reads this, store
    {
      && P.Run(from, trace) == Some(Now()) && IsPass(trace)
      && (!phase.Closing? ==> jobId == P.JobOf(Now().task) && settled.None?)
      && (phase.Closing? && !phase.raised ==>
            settled.Some? && phase.claimed.Some? && (Inv(from) ==> IsJob(phase.claimed.value, settled.value)))
    }

    constructor (store: CheckpointStore, jobId: Option<nat>, script: seq<Answer>)
      requires jobId.Some? ==> jobId.value < |store.jobs|
      ensures Valid() && this.store == store && this.jobId == jobId && this.script == script
      ensures from == P.Sys(store.Tables(), P.Idle) && phase == P.Begin && trace == [P.Launch(jobId)]
    {
      this.store, this.jobId, this.script := store, jobId, script;
      stopRequested, stop, searchCache := false, false, {};
      wanted, phase, trace, from := jobId, P.Begin, [P.Launch(jobId)], P.Sys(store.Tables(), P.Idle);
      settled, lastVerdict := None, None;
      new;
      assert P.Run(from, trace) == P.Run(Now(), trace[1..]);
    }

    ghost predicate IsJob(id: nat, job: Job)
      reads store
    {
      id < |store.jobs| && store.jobs[id] == job
    }

    predicate ShouldStop()
      reads this
    {
      stopRequested || stop
    }

    /** Record that the program has just performed one event of the protocol. */
    ghost method Did(e: P.Event, before: P.Sys)
      requires P.Run(from, trace) == Some(before) && P.Step(before, e) == Some(Now())
      requires IsPass(trace) && !e.Finally? && !e.Crash?
      modifies this`trace
      ensures P.Run(from, trace) == Some(Now()) && IsPass(trace) && trace == old(trace) + [e]
    {
      P.RunAppends(from, trace, e);
      PassGoesOn(trace, e);
      trace := trace + [e];
    }

    /** As `Did`, for the event that ends the pass. */
    ghost method Ended(e: P.Event, before: P.Sys)
      requires P.Run(from, trace) == Some(before) && P.Step(before, e) == Some(P.Sys(store.Tables(), P.Idle))
      modifies this`trace
      ensures P.Run(from, trace) == Some(P.Sys(store.Tables(), P.Idle)) && trace == old(trace) + [e]
    {
      P.RunAppends(from, trace, e);
      trace := trace + [e];
    }

    method StopAsked()
      requires Valid()
      modifies this`stopRequested, this`trace
      ensures Valid() && stopRequested
    {
      ghost var before := Now();
      stopRequested := true;
      Did(P.UserStop, before);
    }

    method ShutdownAsked()
      requires Valid()
      modifies this`stop, this`trace
      ensures Valid() && stop
    {
      ghost var before := Now();
      stop := true;
      Did(P.Shutdown, before);
    }

    /** A page reconciles holds while the worker waits. */
    method Visited(v: Visit)
      requires Valid()
      modifies this`trace, store`items
      ensures Valid() && StillSettled(old(store.items), store.items)
    {
      ghost var before := Now();
      match v
      case Backlog(disk) =>
        store.items := AllReconciled(store.Tables(), disk).items;
        Did(P.ReadHolds(disk), before);
      case JobPage(job, disk) =>
        store.items := JobReconciled(store.Tables(), job, disk).items;
        Did(P.ReadJobHolds(job, disk), before);
    }

    /** Take the next answer of the script: the flags raised and the page read meanwhile. */
    method Hear() returns (reply: Reply)
      requires Valid() && script != []
      modifies this`script, this`stopRequested, this`stop, this`trace, store`items
      ensures Valid() && StillSettled(old(store.items), store.items)
      ensures script == old(script)[1..] && reply == old(script)[0].reply
      ensures stopRequested == (old(stopRequested) || old(script)[0].userStop)
      ensures stop == (old(stop) || old(script)[0].shutdown)
    {
      var a := script[0];
      script := script[1..];
      if a.userStop { StopAsked(); }
      if a.shutdown { ShutdownAsked(); }
      if a.visit.Some? { Visited(a.visit.value); }
      return a.reply;
    }

    /** Wait for the outside world. None: the process died. */
    method Await() returns (reply: Option<Reply>)
      requires Valid()
      modifies this`script, this`stopRequested, this`stop, this`trace, store`items
      ensures Valid() && StillSettled(old(store.items), store.items)
      ensures (old(stopRequested) ==> stopRequested) && (old(stop) ==> stop)
      ensures if reply.Some? then |script| < |old(script)| else script == []
      ensures reply.Some? ==> FirstVerdict(old(script)) == if reply.value.Judged? then reply else FirstVerdict(script)
    {
      while script != []
        invariant Valid() && StillSettled(old(store.items), store.items)
        invariant (old(stopRequested) ==> stopRequested) && (old(stop) ==> stop)
        invariant |script| <= |old(script)| && FirstVerdict(script) == FirstVerdict(old(script))
        decreases |script|
      {
        var r := Hear();
        if r != Nothing { return Some(r); }
      }
      return None;
    }

    /** Wait for the next search slot without hiding a stop. False: a stop was seen first. None: the process died. */
    method AwaitSlot() returns (granted: Option<bool>)
      requires Valid()
      modifies this`script, this`stopRequested, this`stop, this`trace, store`items
      ensures Valid() && StillSettled(old(store.items), store.items) && |script| <= |old(script)|
      ensures granted.None? ==> script == []
      ensures granted.Some? ==> (granted.value <==> !StoppedFirst(old(script), old(ShouldStop())))
      ensures granted == Some(false) ==> ShouldStop()
    {
      while !ShouldStop()
        invariant Valid() && StillSettled(old(store.items), store.items) && |script| <= |old(script)|
        invariant StoppedFirst(script, ShouldStop()) == StoppedFirst(old(script), old(ShouldStop()))
        decreases |script|
      {
        if script == [] { return None; }
        var r := Hear();
        if r == SlotFree { return Some(!ShouldStop()); }
      }
      return Some(false);
    }

    /** `_start_or_resume_job`: resume the wanted job, else the newest paused one, else start a new pass. */
    method StartOrResume() returns (ending: Ending)
      requires Valid() && phase == P.Begin
      modifies this, store
      ensures Valid()
      ensures ending.Killed? || (ending.Failed? && phase == P.Begin) || (ending.Completed? && phase.Claimed?)
      ensures ending.Killed? ==> script == []
      ensures ending.Completed? ==> phase == P.Claimed(Chosen(old(jobId), old(store.jobs))) && jobId == Some(phase.job)
      ensures ending.Completed? ==> TakesUp(old(jobId), old(store.jobs), phase.job)
    {
      ChosenIsTakenUp(jobId, store.jobs);
      FindPaused();
      var r := Await();
      if r.None? { return Killed; }
      if r.value.Raises? { return Failed(r.value.error); }
      if jobId.Some? {
        Resume(jobId.value);
      } else {
        StartAnew(if r.value.Scanned? then r.value.folders else []);
      }
      return Completed;
    }

    method Resume(id: nat)
      requires Valid() && phase == P.Begin && jobId == Some(id)
      modifies this`phase, this`trace, store
      ensures Valid() && phase == P.Claimed(id)
    {
      ghost var before := Now();
      store.MarkJobRunning(id);
      phase := P.Claimed(id);
      Did(P.Resolve([]), before);
    }

    method StartAnew(found: seq<Path>)
      requires Valid() && phase == P.Begin && jobId.None? && Latest(store.jobs, Paused).None?
      modifies this`phase, this`trace, this`jobId, store
      ensures Valid() && phase == P.Claimed(|old(store.jobs)|) && jobId == Some(|old(store.jobs)|)
    {
      ghost var before := Now();
      var id := store.CreateJob(found);
      jobId := Some(id);
      phase := P.Claimed(id);
      Did(P.Resolve(found), before);
    }

    method FindPaused()
      requires Valid() && phase == P.Begin
      modifies this`jobId, this`wanted, this`trace
      ensures Valid() && (jobId.None? ==> Latest(store.jobs, Paused).None?)
      ensures jobId == if old(jobId).Some? then old(jobId) else Latest(store.jobs, Paused)
    {
      if jobId.None? {
        var paused := store.GetLatestJob(Paused);
        if paused.Some? {
          ghost var before := Now();
          jobId := paused;
          wanted := paused;
          Did(P.FindPaused, before);
        }
      }
    }

    /** Hand the folder back to the job, once a stop has been seen. */
    method GiveBack(job: nat, folder: Path, ghost rest: seq<Path>)
      requires Valid() && phase == P.Working(job, folder, rest) && ShouldStop()
      modifies this`phase, this`trace, store
      ensures Valid() && phase == P.Leaving(job, Some(folder))
    {
      ghost var before := Now();
      store.MarkFolderPending(job, folder);
      phase := P.Leaving(job, Some(folder));
      Did(P.GiveBack, before);
    }

    /** Write the verdict: one step of the protocol. */
    method Checkpoint(job: nat, folder: Path, imported: nat, reason: Reason, rows: seq<Held>, ghost basis: P.Basis, ghost rest: seq<Path>)
      requires phase == P.Working(job, folder, rest) && P.Fits(basis, folder, imported, reason, rows, ShouldStop())
      requires forall h :: h in rows ==> h.folder == folder
      modifies store
      ensures store.Tables() == FolderResult(old(store.Tables()), job, folder, imported, Some(reason), rows)
      ensures RecordedAs(old(store.items), store.items, job, folder, imported, Some(reason), rows)
      ensures P.Step(old(Now()), P.Record(imported, reason, rows, basis))
              == Some(P.Sys(store.Tables(), old(Now()).task.(phase := P.Recorded(job, folder, rest, !basis.FromFiles?))))
    {
      RecordStep(Now(), imported, reason, rows, basis);
      store.MarkFolderResult(job, folder, imported, if rows != [] then Some(reason) else None, rows);
    }

    /** Checkpoint the folder's verdict. */
    method Record(job: nat, folder: Path, imported: nat, reason: Reason, held: seq<Held>, ghost basis: P.Basis, ghost rest: seq<Path>)
      requires Valid() && phase == P.Working(job, folder, rest)
      requires P.Fits(basis, folder, imported, reason, InFolder(held, folder), ShouldStop())
      modifies this`phase, this`trace, this`lastVerdict, store
      ensures Valid() && phase == P.Recorded(job, folder, rest, !basis.FromFiles?)
      ensures lastVerdict == Some(P.Record(imported, reason, InFolder(held, folder), basis))
      ensures trace == old(trace) + [P.Record(imported, reason, InFolder(held, folder), basis)]
      ensures store.Tables() == FolderResult(old(store.Tables()), job, folder, imported, Some(reason), InFolder(held, folder))
      ensures RecordedAs(old(store.items), store.items, job, folder, imported, Some(reason), InFolder(held, folder))
    {
      ghost var before := Now();
      var rows := InFolder(held, folder);
      Checkpoint(job, folder, imported, reason, rows, basis, rest);
      phase := P.Recorded(job, folder, rest, !basis.FromFiles?);
      lastVerdict := Some(P.Record(imported, reason, rows, basis));
      Did(P.Record(imported, reason, rows, basis), before);
    }

    /** One turn of the folder loop, from the stop check on. `left`: the turn ended the loop. */
    method Examine(job: nat, folder: Path, ghost rest: seq<Path>) returns (ending: Ending, current: Option<Path>, left: bool)
      requires Valid() && phase == P.Looping(job, [folder] + rest) && !ShouldStop()
      modifies this`phase, this`trace, this`script, this`stopRequested, this`stop, this`searchCache, this`lastVerdict, store
      ensures Valid() && (ending.Killed? || ending.Failed? || ending.Completed?) && (ending.Killed? ==> script == [])
      ensures !ending.Completed? ==> !phase.Closing? && !phase.Begin? && current == P.CurrentOf(phase)
      ensures ending.Completed? && !left ==> phase == P.Looping(job, rest) && current == None
      ensures ending.Completed? && left ==> phase == P.Leaving(job, current)
    {
      left := false;
      current := Some(folder);
      Take(job, folder, rest);
      var r := Await();
      if r.None? { return Killed, current, left; }
      if r.value.Raises? { return Failed(r.value.error), current, left; }
      if r.value.NoFiles? {
        ending, current := ExamineEmpty(job, folder, r.value.query, rest);
      } else {
        ending, current, left := Decide(job, folder, rest);
      }
    }

    /** `_review_content_less_folder`: search the name of a folder without files, unless a stop comes first. */
    method ReviewContentLessFolder(folder: Path, query: Option<string>)
      returns (ending: Ending, rows: seq<Held>, ghost basis: P.Basis)
      requires Valid()
      modifies this`script, this`stopRequested, this`stop, this`trace, this`searchCache, store`items
      ensures Valid() && (ending.Killed? || ending.Failed? || ending.Completed?) && (ending.Killed? ==> script == [])
      ensures ending.Completed? ==> basis == BasisFor(query, old(searchCache), old(script), old(ShouldStop()))
      ensures ending.Completed? ==> rows == if basis.Searched? then [Held(folder, folder, EmptyFolder)] else []
      ensures ending.Completed? ==> searchCache == old(searchCache) + if basis.Searched? then {query.value} else {}
      ensures basis.Interrupted? ==> ShouldStop()
      ensures query.None? ==> ending.Completed? && rows == [] && script == old(script)
      ensures query.Some? && query.value in old(searchCache) ==>
        ending.Completed? && rows == [Held(folder, folder, EmptyFolder)] && script == old(script)
      ensures query.Some? && query.value !in old(searchCache) && ending.Completed? ==>
        (rows == [] <==> StopComesFirst(old(script), old(ShouldStop()))) && (rows != [] ==> query.value in searchCache)
    {
      StoppedFirstExactly(script, ShouldStop());
      if query.None? { return Completed, [], P.NotASeries; }
      if query.value !in searchCache {
        var granted := AwaitSlot();
        if granted.None? { return Killed, [], P.NotASeries; }
        if !granted.value { return Completed, [], P.Interrupted; }
        var r := Await();
        if r.None? { return Killed, [], P.NotASeries; }
        if r.value.Raises? { return Failed(r.value.error), [], P.NotASeries; }
        // A refusal is an error here: only the folder-with-files loop waits it out.
        if r.value.RateLimited? { return Failed("CVRateLimitReached"), [], P.NotASeries; }
        searchCache := searchCache + {query.value};
      }
      return Completed, [Held(folder, folder, EmptyFolder)], P.Searched;
    }

    /** A folder without files is recorded with what its name search suggested. A folder whose name needs a
        search is recorded done, unsearched, exactly when its query is new and a stop comes before its slot. */
    method RecordEmpty(job: nat, folder: Path, query: Option<string>, ghost rest: seq<Path>) returns (ending: Ending)
      requires Valid() && phase == P.Working(job, folder, rest)
      modifies this`phase, this`trace, this`script, this`stopRequested, this`stop, this`searchCache, this`lastVerdict, store
      ensures Valid() && (ending.Killed? || ending.Failed? || ending.Completed?) && (ending.Killed? ==> script == [])
      ensures !ending.Completed? ==> phase == P.Working(job, folder, rest)
      ensures ending.Completed? ==> phase == P.Recorded(job, folder, rest, true)
      ensures ending.Completed? ==> EmptyRecorded(job, folder, BasisFor(query, old(searchCache), old(script), old(ShouldStop())))
    {
      var rows;
      ghost var basis;
      ending, rows, basis := ReviewContentLessFolder(folder, query);
      if !ending.Completed? { return; }
      Record(job, folder, 0, EmptyFolder, rows, basis, rest);
    }

    /** The last event recorded this folder on this basis, and its row says so. */
    ghost predicate EmptyRecorded(job: nat, folder: Path, basis: P.Basis)
      reads this, store
    {
      var rows := if basis.Searched? then [Held(folder, folder, EmptyFolder)] else [];
      && trace != [] && trace[|trace| - 1] == P.Record(0, EmptyFolder, rows, basis)
      && forall i :: 0 <= i < |store.items| && store.items[i].job == job && store.items[i].folder == folder ==>
           store.items[i].state == (if basis.Searched? then Review else Done) && store.items[i].held == rows
    }

    /** A folder without files, whole: then straight on to the next turn, whatever stop was seen. */
    method ExamineEmpty(job: nat, folder: Path, query: Option<string>, ghost rest: seq<Path>)
      returns (ending: Ending, current: Option<Path>)
      requires Valid() && phase == P.Working(job, folder, rest)
      modifies this`phase, this`trace, this`script, this`stopRequested, this`stop, this`searchCache, this`lastVerdict, store
      ensures Valid() && (ending.Killed? || ending.Failed? || ending.Completed?) && (ending.Killed? ==> script == [])
      ensures !ending.Completed? ==> !phase.Closing? && !phase.Begin? && current == P.CurrentOf(phase)
      ensures ending.Completed? ==> phase == P.Looping(job, rest) && current == None
    {
      ending := RecordEmpty(job, folder, query, rest);
      if !ending.Completed? { return ending, Some(folder); }
      var r := Await();
      if r.None? { return Killed, Some(folder); }
      if r.value.Raises? { return Failed(r.value.error), Some(folder); }
      GoOn(job, folder, rest);
      return Completed, None;
    }

    /** An empty folder's turn ends without a look at the stop flags. */
    ghost method GoOn(job: nat, folder: Path, rest: seq<Path>)
      requires Valid() && phase == P.Recorded(job, folder, rest, true)
      modifies this`phase, this`trace
      ensures Valid() && phase == P.Looping(job, rest)
    {
      ghost var before := Now();
      phase := P.Looping(job, rest);
      Did(P.Next, before);
    }

    /** Record the judgement of a folder with files as it is, and look at the stop flags. */
    method RecordJudged(job: nat, folder: Path, judged: Reply, ghost rest: seq<Path>)
      returns (ending: Ending, current: Option<Path>, left: bool)
      requires Valid() && phase == P.Working(job, folder, rest) && judged.Judged?
      modifies this`phase, this`trace, this`script, this`stopRequested, this`stop, this`lastVerdict, store
      ensures Valid() && (ending.Killed? || ending.Failed? || ending.Completed?) && (ending.Killed? ==> script == [])
      ensures !ending.Completed? ==> phase == P.Recorded(job, folder, rest, false) && current == Some(folder)
      ensures ending.Completed? && !left ==> phase == P.Looping(job, rest) && current == None
      ensures ending.Completed? && left ==> phase == P.Leaving(job, None) && current == None
      ensures lastVerdict == Some(VerdictOf(folder, judged))
    {
      Record(job, folder, judged.imported, PrimaryReason(judged.reasons), judged.held, P.FromFiles, rest);
      ending, current, left := AfterVerdict(job, folder, rest);
    }

    /** Match, import and record one folder with files, or hand it back. */
    method Decide(job: nat, folder: Path, ghost rest: seq<Path>) returns (ending: Ending, current: Option<Path>, left: bool)
      requires Valid() && phase == P.Working(job, folder, rest)
      modifies this`phase, this`trace, this`script, this`stopRequested, this`stop, this`searchCache, this`lastVerdict, store
      ensures Valid() && (ending.Killed? || ending.Failed? || ending.Completed?) && (ending.Killed? ==> script == [])
      ensures !ending.Completed? ==> !phase.Closing? && !phase.Begin? && current == P.CurrentOf(phase)
      ensures ending.Completed? && !left ==> phase == P.Looping(job, rest) && current == None
      ensures ending.Completed? && left ==> phase == P.Leaving(job, current)
      ensures old(ShouldStop()) ==> ending.Completed? && phase == P.Leaving(job, Some(folder)) && script == old(script)
      ensures phase == P.Working(job, folder, rest) || phase == P.Leaving(job, Some(folder)) ||
              (FirstVerdict(old(script)).Some? && lastVerdict == Some(VerdictOf(folder, FirstVerdict(old(script)).value)))
    {
      while true
        invariant Valid() && phase == P.Working(job, folder, rest) && FirstVerdict(script) == FirstVerdict(old(script))
        invariant old(ShouldStop()) ==> ShouldStop() && script == old(script)
        decreases |script|
      {
        if ShouldStop() {
          GiveBack(job, folder, rest);
          return Completed, Some(folder), true;
        }
        var r := Await();
        if r.None? { return Killed, Some(folder), false; }
        if r.value.Raises? { return Failed(r.value.error), Some(folder), false; }
        // Anything but a verdict (a search answered, a slot refused, a cooldown over) leads back to the stop check.
        if r.value.TitleSearched? { searchCache := searchCache + {r.value.title}; }
        if r.value.Judged? {
          ending, current, left := RecordJudged(job, folder, r.value, rest);
          return;
        }
      }
    }

    method Take(job: nat, folder: Path, ghost rest: seq<Path>)
      requires Valid() && phase == P.Looping(job, [folder] + rest) && !ShouldStop()
      modifies this`phase, this`trace, store
      ensures Valid() && phase == P.Working(job, folder, rest)
    {
      ghost var before := Now();
      assert ([folder] + rest)[0] == folder && ([folder] + rest)[1..] == rest;
      store.MarkFolderProcessing(job, folder);
      phase := P.Working(job, folder, rest);
      Did(P.Take, before);
    }

    method AfterVerdict(job: nat, folder: Path, ghost rest: seq<Path>) returns (ending: Ending, current: Option<Path>, left: bool)
      requires Valid() && phase == P.Recorded(job, folder, rest, false)
      modifies this`phase, this`trace, this`script, this`stopRequested, this`stop, store`items
      ensures Valid() && (ending.Killed? || ending.Failed? || ending.Completed?) && (ending.Killed? ==> script == [])
      ensures !ending.Completed? ==> phase == P.Recorded(job, folder, rest, false) && current == Some(folder)
      ensures ending.Completed? && !left ==> phase == P.Looping(job, rest) && current == None
      ensures ending.Completed? && left ==> phase == P.Leaving(job, None) && current == None
    {
      var r := Await();
      if r.None? { return Killed, Some(folder), false; }
      if r.value.Raises? { return Failed(r.value.error), Some(folder), false; }
      ghost var before := Now();
      phase := if ShouldStop() then P.Leaving(job, None) else P.Looping(job, rest);
      Did(P.Next, before);
      return Completed, None, ShouldStop();
    }

    /** Settle the job's status once the folder loop is over. */
    method Settle(job: nat, current: Option<Path>) returns (ending: Ending)
      requires Valid() && phase == P.Leaving(job, current)
      modifies this`phase, this`trace, this`settled, store
      ensures Valid() && phase == P.Closing(Some(job), current, false)
      ensures ending == if stopRequested then PausedByUser else if stop then LeftRunning else Completed
      ensures Inv(from) ==> IsJob(job, Job(if stopRequested then Paused else if stop then Running else Complete, None))
      ensures settled == Some(Job(if stopRequested then Paused else if stop then Running else Complete, None))
      ensures Inv(from) && ending.Completed? ==> AllSettled(store.items, job)
    {
      ghost var before := Now();
      ghost var past := trace;
      if stopRequested {
        store.MarkJobPaused(job, None);
        ending := PausedByUser;
      } else if stop {
        store.MarkJobRunning(job);
        ending := LeftRunning;
      } else {
        store.MarkJobComplete(job);
        ending := Completed;
      }
      phase := P.Closing(Some(job), current, false);
      settled := Some(Job(if stopRequested then Paused else if stop then Running else Complete, None));
      Did(P.Finish, before);
      if Inv(from) {
        EveryRunIsSafe(from, past);
        PassSettlesItsJob(before);
      }
    }

    /** The folder loop over the snapshot of pending folders. */
    method FolderLoop(job: nat, todo: seq<Path>) returns (ending: Ending, current: Option<Path>)
      requires Valid() && phase == P.Looping(job, todo)
      modifies this`phase, this`trace, this`script, this`stopRequested, this`stop, this`searchCache, this`lastVerdict, store
      ensures Valid() && (ending.Killed? || ending.Failed? || ending.Completed?) && (ending.Killed? ==> script == [])
      ensures !ending.Completed? ==> !phase.Closing? && !phase.Begin? && current == P.CurrentOf(phase)
      ensures ending.Completed? ==> phase == P.Leaving(job, current)
    {
      current := None;
      var n, left := 0, false;
      while n < |todo| && !left
        invariant Valid() && 0 <= n <= |todo|
        invariant !left ==> phase == P.Looping(job, todo[n..]) && current == None
        invariant left ==> phase == P.Leaving(job, current)
        decreases |todo| - n, !left
      {
        current := Some(todo[n]);
        assert todo[n..] == [todo[n]] + todo[n + 1..];
        var r := Await();
        if r.None? { return Killed, current; }
        if r.value.Raises? { return Failed(r.value.error), current; }
        if ShouldStop() {
          LeaveLoop(job, todo[n..]);
          left := true;
        } else {
          ending, current, left := Examine(job, todo[n], todo[n + 1..]);
          if !ending.Completed? { return; }
          n := n + 1;
        }
      }
      if !left { LeaveLoop(job, todo[n..]); }
      return Completed, current;
    }

    method LeaveLoop(job: nat, ghost todo: seq<Path>)
      requires Valid() && phase == P.Looping(job, todo) && (todo == [] || ShouldStop())
      modifies this`phase, this`trace
      ensures Valid() && phase == P.Leaving(job, if todo == [] then None else Some(todo[0]))
    {
      ghost var before := Now();
      phase := P.Leaving(job, if todo == [] then None else Some(todo[0]));
      Did(P.LeaveLoop, before);
    }

    /** The body of the `try` block. `current` is the folder the `finally` clause would hand back. */
    method Body() returns (ending: Ending, current: Option<Path>)
      requires Valid() && phase == P.Begin
      modifies this, store
      ensures Valid() && (ending.Killed? ==> script == [])
      ensures ending.Failed? ==> current == P.CurrentOf(phase) && (phase.Closing? ==> !phase.raised && phase.claimed.Some?) && jobId == P.JobOf(Now().task)
      ensures !ending.Killed? && !ending.Failed? ==> SettledAs(ending) && phase.current == current
    {
      ending := StartOrResume();
      if !ending.Completed? { return ending, None; }
      ending, current := Folders(jobId.value);
    }

    /** The body once the job is claimed: its snapshot, the folder loop and its end. */
    method Folders(job: nat) returns (ending: Ending, current: Option<Path>)
      requires Valid() && phase == P.Claimed(job) && jobId == Some(job)
      modifies this, store
      ensures Valid() && (ending.Killed? ==> script == [])
      ensures ending.Failed? ==> current == P.CurrentOf(phase) && (phase.Closing? ==> !phase.raised && phase.claimed.Some?) && jobId == P.JobOf(Now().task)
      ensures !ending.Killed? && !ending.Failed? ==> SettledAs(ending) && phase.current == current
    {
      var r := Await();
      if r.None? { return Killed, None; }
      if r.value.Raises? { return Failed(r.value.error), None; }
      var todo := ReadSnapshot(job);
      ending, current := FolderLoop(job, todo);
      if !ending.Completed? { return; }
      ending := Conclude(job, current);
    }

    method ReadSnapshot(job: nat) returns (todo: seq<Path>)
      requires Valid() && phase == P.Claimed(job)
      modifies this`phase, this`trace
      ensures Valid() && phase == P.Looping(job, todo) && todo == PendingFolders(store.items, job)
    {
      ghost var before := Now();
      todo := store.GetPendingFolders(job);
      phase := P.Looping(job, todo);
      Did(P.ReadPending, before);
    }

    /** Everything after the folder loop. */
    method Conclude(job: nat, current: Option<Path>) returns (ending: Ending)
      requires Valid() && phase == P.Leaving(job, current)
      modifies this`phase, this`trace, this`script, this`stopRequested, this`stop, this`settled, store
      ensures Valid() && current == P.CurrentOf(phase) && (ending.Killed? ==> script == [])
      ensures ending.Failed? ==> (phase.Closing? ==> !phase.raised && phase.claimed.Some?) && jobId == P.JobOf(Now().task)
      ensures !ending.Killed? && !ending.Failed? ==> SettledAs(ending)
    {
      var r := Await();
      if r.None? { return Killed; }
      if r.value.Raises? { return Failed(r.value.error); }
      ending := Settle(job, current);
      r := Await();
      if r.None? { ending := Killed; }
      else if r.value.Raises? { ending := Failed(r.value.error); }
    }

    /** The job's status after a pass that neither died nor raised. */
    ghost predicate SettledAs(ending: Ending)
      reads this, store
    {
      && phase.Closing? && !phase.raised && phase.claimed.Some? && jobId == phase.claimed
      && (ending.PausedByUser? || ending.LeftRunning? || ending.Completed?)
      && (Inv(from) ==> IsJob(jobId.value, Job(if ending.PausedByUser? then Paused
                                               else if ending.LeftRunning? then Running else Complete, None)))
      && (Inv(from) && ending.Completed? ==> AllSettled(store.items, jobId.value))
    }

    /** A whole pass. Its history is a run of the protocol from the state it was launched in, so every
        invariant of the protocol holds of it; and how it ended says what the tables now hold. */
    method Run() returns (ending: Ending)
      requires Valid() && phase == P.Begin
      modifies this, store
      ensures P.Run(from, trace) == Some(P.Sys(store.Tables(), P.Idle))
      ensures Inv(from) ==> DbInv(store.Tables())
      ensures Inv(from) && ending.Completed? ==>
        jobId.Some? && IsJob(jobId.value, Job(Complete, None)) && AllSettled(store.items, jobId.value)
      ensures Inv(from) && ending.PausedByUser? ==> jobId.Some? && IsJob(jobId.value, Job(Paused, None))
      ensures Inv(from) && ending.LeftRunning? ==> jobId.Some? && IsJob(jobId.value, Job(Running, None))
      ensures Inv(from) && ending.Failed? && jobId.Some? && !stop ==>
        IsJob(jobId.value, Job(Paused, Some(ending.error))) && NoneProcessing(store.items, jobId.value)
      ensures Inv(from) && ending.Failed? && stop && phase.Closing? && phase.claimed.Some? ==>
        if settled.Some? then IsJob(phase.claimed.value, settled.value) else IsRunning(store.Tables(), phase.claimed.value)
      ensures if ending.Killed? then script == [] else phase.Closing? && (!ending.Failed? ==> phase.claimed == jobId)
      ensures Inv(from) && !ending.Killed? && phase.claimed.Some? ==> LeftAs(phase.claimed.value)
    {
      var current;
      ending, current := Body();
      if ending.Killed? {
        Ended(P.Crash, Now());
        if Inv(from) { EveryRunIsSafe(from, trace); }
      } else {
        if ending.Failed? { Handle(ending.error); }
        HandBack(current);
      }
    }

    /** How a claimed pass that was not killed leaves things: its job as its own events say, no row of its job
        in flight, and none at all exactly when no row of another job was in flight at its launch. */
    ghost predicate LeftAs(job: nat)
      reads this, store
    {
      && IsJob(job, EndedWith(trace)) && NoneProcessing(store.items, job)
      && (NothingInFlight(store.items) <==> !OthersInFlight(from.db.items, job))
    }

    /** The `except` clause: pause the job with the error, unless the process is shutting down. */
    method Handle(error: string)
      requires Valid() && (phase.Closing? ==> !phase.raised && phase.claimed.Some?) && jobId == P.JobOf(Now().task)
      modifies this`phase, this`trace, store
      ensures Valid() && phase.Closing? && phase.raised && phase.current == old(P.CurrentOf(phase))
      ensures phase.claimed == if old(phase.Begin?) then None else jobId
      ensures phase.claimed.None? ==> phase.current.None?
      ensures Inv(from) && jobId.Some? && !stop ==>
        IsJob(jobId.value, Job(Paused, Some(error))) && NoneProcessing(store.items, jobId.value)
      ensures Inv(from) && stop && phase.claimed.Some? ==>
        if settled.Some? then IsJob(phase.claimed.value, settled.value) else IsRunning(store.Tables(), phase.claimed.value)
    {
      ghost var before := Now();
      ghost var past := trace;
      if Inv(from) {
        EveryRunIsSafe(from, past);
      }
      if jobId.Some? && !stop { store.MarkJobPaused(jobId.value, Some(error)); }
      phase := P.Closing(if phase.Begin? then None else jobId, P.CurrentOf(phase), true);
      Did(P.Raise(error), before);
      if Inv(from) && jobId.Some? { FailureSettlesItsJob(before, error); }
    }

    /** The `finally` clause: a stopped worker hands its folder back, if it is still in flight. */
    method HandBack(current: Option<Path>)
      requires Valid() && phase.Closing? && current == phase.current
      requires current.Some? ==> jobId == phase.claimed
      modifies this`trace, store
      ensures P.Run(from, trace) == Some(P.Sys(store.Tables(), P.Idle))
      ensures store.jobs == old(store.jobs) && (current.None? ==> store.items == old(store.items))
      ensures Inv(from) ==> DbInv(store.Tables()) && StillSettled(old(store.items), store.items)
      ensures Inv(from) && phase.claimed.Some? ==> LeftAs(phase.claimed.value)
    {
      ghost var before := Now();
      ghost var past := trace;
      if current.Some? && jobId.Some? && ShouldStop() {
        store.MarkFolderPending(jobId.value, current.value);
      }
      Ended(P.Finally, before);
      if Inv(from) {
        EveryRunIsSafe(from, past);
        HandBackIsHarmless(before);
        if phase.claimed.Some? { PassLeaves(from, past, before, phase.claimed.value); }
      }
    }
  }

  /** What `finally` leaves of a claimed pass. */
  lemma PassLeaves(from: P.Sys, past: seq<P.Event>, b: P.Sys, job: nat)
    requires Inv(from) && IsPass(past) && P.Run(from, past) == Some(b)
    requires P.Step(b, P.Finally).Some? && b.task.phase.claimed == Some(job)
    ensures var t := P.Step(b, P.Finally).value.db;
      && job < |t.jobs| && t.jobs[job] == EndedWith(past + [P.Finally])
      && (NothingInFlight(t.items) <==> !OthersInFlight(from.db.items, job))
  {
    PassEndsAs(from, past, b);
    NothingInFlightExactly(from, past, b);
    EndedWithAppends(past, P.Finally);
  }

  lemma HandBackIsHarmless(s: P.Sys)
    requires Inv(s) && P.Step(s, P.Finally).Some?
    ensures var t := P.Step(s, P.Finally).value;
      && DbInv(t.db)
      && StillSettled(s.db.items, t.db.items)
      && (s.task.phase.claimed.Some? ==> NoneProcessing(t.db.items, s.task.phase.claimed.value))
  {
    StepKeeps(s, P.Finally);
    if s.task.phase.claimed.Some? { NothingLeftInFlight(s); }
  }

  /** Nothing a waiting worker can observe changes which rows exist, and no verdict is undone. */
  ghost predicate StillSettled(a: seq<Item>, b: seq<Item>) {
    |a| == |b| && forall i :: 0 <= i < |a| ==>
      (a[i].job, a[i].folder) == (b[i].job, b[i].folder) && (Settled(a[i]) ==> Settled(b[i]))
  }

  lemma RecordStep(s: P.Sys, imported: nat, reason: Reason, rows: seq<Held>, basis: P.Basis)
    requires s.task.Import? && s.task.phase.Working?
    requires forall h :: h in rows ==> h.folder == s.task.phase.folder
    requires P.Fits(basis, s.task.phase.folder, imported, reason, rows, P.Stopping(s.task))
    ensures var p := s.task.phase;
      var after := FolderResult(s.db, p.job, p.folder, imported, Some(reason), rows);
      && after == FolderResult(s.db, p.job, p.folder, imported, if rows != [] then Some(reason) else None, rows)
      && RecordedAs(s.db.items, after.items, p.job, p.folder, imported, Some(reason), rows)
      && P.Step(s, P.Record(imported, reason, rows, basis))
         == Some(P.Sys(after, s.task.(phase := P.Recorded(p.job, p.folder, p.todo, !basis.FromFiles?))))
  {
    UnusedReason(s.db, s.task.phase.job, s.task.phase.folder, imported, reason, rows);
  }

  /** Without held rows the reason is not recorded, whatever it is. */
  lemma UnusedReason(db: Db, job: nat, folder: Path, imported: nat, reason: Reason, held: seq<Held>)
    ensures FolderResult(db, job, folder, imported, if held != [] then Some(reason) else None, held)
            == FolderResult(db, job, folder, imported, Some(reason), held)
  {
    if held == [] {
      assert FolderResult(db, job, folder, imported, None, held).items
          == FolderResult(db, job, folder, imported, Some(reason), held).items;
    }
  }
}
