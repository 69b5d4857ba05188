/** The durable checkpoint tables of Continuous Library Import and every statement that writes them.

    A job's id is its index in `jobs`; rows are never deleted, so ids only grow. */
module ImportState {
  import opened Basics

  /** A file or folder path. Only equality of whole paths matters to the checkpoint tables. */
  datatype Path = Path(text: string)

  datatype JobStatus = Running | Paused | Complete
  datatype ItemState = Pending | Processing | Done | Review
  datatype Reason = NoCandidate | WeakScore | Tie | EmptyFolder

  /** One row of the review list: a file (or an empty folder) held for a human. */
  datatype Held = Held(filepath: Path, folder: Path, reason: Reason)

  datatype Job = Job(status: JobStatus, lastError: Option<string>)

  datatype Item = Item(job: nat, position: nat, folder: Path, state: ItemState,
                       imported: nat, reason: Option<Reason>, held: seq<Held>)

  datatype Db = Db(jobs: seq<Job>, items: seq<Item>)

  /** What reconciliation consults: the `files` table, the filesystem and the artifact names. */
  datatype Disk = Disk(imported: set<Path>, existing: set<Path>, artifacts: set<Path>)

  // ---------------------------------------------------------------- statements

  /** `UPDATE ... SET change WHERE selected`: every selected row changes, no other does. */
  function Update(items: seq<Item>, selected: Item -> bool, change: Item -> Item): (r: seq<Item>)
    ensures |r| == |items|
    ensures forall i :: 0 <= i < |items| ==> r[i] == if selected(items[i]) then change(items[i]) else items[i]
  {
    seq(|items|, i requires 0 <= i < |items| => if selected(items[i]) then change(items[i]) else items[i])
  }

  function SetState(items: seq<Item>, selected: Item -> bool, state: ItemState): (r: seq<Item>)
    ensures |r| == |items|
  {
    Update(items, selected, (it: Item) => it.(state := state))
  }

  function SetJob(jobs: seq<Job>, job: nat, status: JobStatus, error: Option<string>): (r: seq<Job>)
    ensures |r| == |jobs|
  {
    if job < |jobs| then jobs[job := Job(status, error)] else jobs
  }

  /** The replay of an interrupted folder: the job's processing rows become pending. */
  function Released(items: seq<Item>, job: nat): (r: seq<Item>)
    ensures |r| == |items|
  {
    SetState(items, (it: Item) => it.job == job && it.state == Processing, Pending)
  }

  function JobRunning(db: Db, job: nat): Db {
    Db(SetJob(db.jobs, job, Running, None), Released(db.items, job))
  }

  function JobPaused(db: Db, job: nat, error: Option<string>): Db {
    Db(SetJob(db.jobs, job, Paused, error), Released(db.items, job))
  }

  function JobComplete(db: Db, job: nat): Db {
    db.(jobs := SetJob(db.jobs, job, Complete, None))
  }

  /** Unconditional on the row's state, like the statement it models. */
  function FolderProcessing(db: Db, job: nat, folder: Path): Db {
    db.(items := SetState(db.items, (it: Item) => it.job == job && it.folder == folder, Processing))
  }

  function FolderPending(db: Db, job: nat, folder: Path): Db {
    db.(items := SetState(db.items,
                          (it: Item) => it.job == job && it.folder == folder && it.state == Processing, Pending))
  }

  /** The row a verdict writes. */
  function Verdict(it: Item, imported: nat, reason: Option<Reason>, held: seq<Held>): Item {
    it.(state := if held != [] then Review else Done,
        imported := imported,
        reason := if held != [] then reason else None,
        held := held)
  }

  /** A hold that has been superseded or resolved. */
  function Retired(it: Item): Item {
    it.(state := Done, reason := None, held := [])
  }

  /** The checkpoint of one folder: its verdict, and the retirement of what earlier passes held for it. */
  function FolderResult(db: Db, job: nat, folder: Path, imported: nat,
                        reason: Option<Reason>, held: seq<Held>): (r: Db)
    ensures r.jobs == db.jobs && |r.items| == |db.items|
    ensures forall i :: 0 <= i < |db.items| ==>
      r.items[i] == if db.items[i].folder != folder then db.items[i]
                    else if db.items[i].job == job then Verdict(db.items[i], imported, reason, held)
                    else if db.items[i].state == Review then Retired(db.items[i])
                    else db.items[i]
  {
    var judged := Update(db.items, (it: Item) => it.job == job && it.folder == folder,
                         (it: Item) => Verdict(it, imported, reason, held));
    db.(items := Update(judged, (it: Item) => it.folder == folder && it.job != job && it.state == Review,
                        (it: Item) => Retired(it)))
  }

  /** What recording a folder's verdict leaves of every row. The folder's row of the job that was working on it
      carries the verdict: it is held for review exactly when there are rows to review, and they are all kept,
      whatever was imported beside them. Other jobs' holds for the folder are retired. */
  ghost predicate RecordedAs(before: seq<Item>, after: seq<Item>, job: nat, folder: Path, imported: nat,
                             reason: Option<Reason>, held: seq<Held>)
  {
    && |after| == |before|
    && (forall i :: 0 <= i < |before| ==>
          (after[i].job, after[i].position, after[i].folder) == (before[i].job, before[i].position, before[i].folder))
    && (forall i :: 0 <= i < |before| && before[i].folder == folder && before[i].job == job ==>
          && after[i].held == held && after[i].imported == imported
          && (after[i].state == Review <==> held != []) && (after[i].state == Done <==> held == [])
          && after[i].reason == if held != [] then reason else None)
    && (forall i :: 0 <= i < |before| && before[i].folder == folder && before[i].job != job && before[i].state == Review ==>
          && after[i].state == Done && after[i].held == [] && after[i].reason.None?
          && after[i].imported == before[i].imported)
    && (forall i :: 0 <= i < |before|
                    && (before[i].folder != folder || (before[i].job != job && before[i].state != Review)) ==>
          after[i] == before[i])
  }

  /** `dict.fromkeys`: first occurrences, in order. */
  function Distinct(folders: seq<Path>): (r: seq<Path>)
    ensures forall f :: f in r <==> f in folders
    ensures forall i, k :: 0 <= i < k < |r| ==> r[i] != r[k]
  {
    if folders == [] then []
    else
      var front := Distinct(folders[..|folders| - 1]);
      var last := folders[|folders| - 1];
      assert folders == folders[..|folders| - 1] + [last];
      if last in front then front else front + [last]
  }

  /** One folder occurs in the list before the other does for the first time. */
  ghost predicate FirstSeenBefore(folders: seq<Path>, f: Path, g: Path) {
    exists i :: 0 <= i < |folders| && folders[i] == f && g !in folders[..i + 1]
  }

  lemma {:induction false} DistinctInOrder(folders: seq<Path>, i: nat, k: nat)
    requires i < k < |Distinct(folders)|
    ensures FirstSeenBefore(folders, Distinct(folders)[i], Distinct(folders)[k])
  {
    var front, last := folders[..|folders| - 1], folders[|folders| - 1];
    var r := Distinct(folders);
    if k < |Distinct(front)| {
      DistinctInOrder(front, i, k);
      var a :| 0 <= a < |front| && front[a] == r[i] && r[k] !in front[..a + 1];
      assert folders[..a + 1] == front[..a + 1];
    } else {
      assert r[i] in Distinct(front);
      var a :| 0 <= a < |front| && front[a] == r[i];
      assert r[k] == last && last !in front;
      assert forall f :: f in folders[..a + 1] ==> f in front;
      assert folders[a] == r[i];
    }
  }

  function NewItems(job: nat, folders: seq<Path>): (r: seq<Item>)
    ensures |r| == |folders|
    ensures forall i :: 0 <= i < |r| ==> r[i] == Item(job, i, folders[i], Pending, 0, None, [])
  {
    seq(|folders|, i requires 0 <= i < |folders| => Item(job, i, folders[i], Pending, 0, None, []))
  }

  function JobCreated(db: Db, folders: seq<Path>): Db {
    Db(db.jobs + [Job(Running, None)], db.items + NewItems(|db.jobs|, Distinct(folders)))
  }

  /** The newest job with the given status. */
  function Latest(jobs: seq<Job>, status: JobStatus): (r: Option<nat>)
    ensures r.Some? ==> r.value < |jobs| && jobs[r.value].status == status
                        && forall k :: r.value < k < |jobs| ==> jobs[k].status != status
    ensures r.None? ==> forall k :: 0 <= k < |jobs| ==> jobs[k].status != status
  {
    if jobs == [] then None
    else if jobs[|jobs| - 1].status == status then Some(|jobs| - 1)
    else Latest(jobs[..|jobs| - 1], status)
  }

  /** The folders of a job's pending rows. A job's rows are stored in position order (see `Keyed`). */
  function PendingFolders(items: seq<Item>, job: nat): (r: seq<Path>)
    ensures forall f :: f in r <==> exists it :: it in items && it.job == job && it.state == Pending && it.folder == f
  {
    if items == [] then []
    else
      var last := items[|items| - 1];
      var front := items[..|items| - 1];
      assert items == front + [last];
      PendingFolders(front, job)
      + if last.job == job && last.state == Pending then [last.folder] else []
  }

  // ---------------------------------------------------------------- reconciliation

  /** Whether a held row still describes something a user can act on. */
  predicate Live(h: Held, disk: Disk) {
    && h.filepath.text != ""
    && h.filepath !in disk.imported
    && h.filepath !in disk.artifacts
    && h.filepath in disk.existing
  }

  function LiveHeld(held: seq<Held>, disk: Disk): (r: seq<Held>)
    ensures |r| <= |held|
    ensures |r| == |held| ==> r == held
    ensures forall h :: h in r <==> h in held && Live(h, disk)
  {
    if held == [] then []
    else
      var last := held[|held| - 1];
      var front := held[..|held| - 1];
      assert held == front + [last];
      LiveHeld(front, disk) + if Live(last, disk) then [last] else []
  }

  function Reconciled(it: Item, disk: Disk): Item {
    if it.state != Review then it
    else
      var kept := LiveHeld(it.held, disk);
      if |kept| == |it.held| then it
      else if kept != [] then it.(held := kept)
      else Retired(it)
  }

  /** Reading the whole review backlog reconciles every held row. */
  function AllReconciled(db: Db, disk: Disk): (r: Db)
    ensures r.jobs == db.jobs && |r.items| == |db.items|
    ensures forall i :: 0 <= i < |r.items| ==> r.items[i] == Reconciled(db.items[i], disk)
  {
    db.(items := seq(|db.items|, i requires 0 <= i < |db.items| => Reconciled(db.items[i], disk)))
  }

  /** Reading one job's review rows reconciles that job's held rows only. */
  function JobReconciled(db: Db, job: nat, disk: Disk): (r: Db)
    ensures r.jobs == db.jobs && |r.items| == |db.items|
    ensures forall i :: 0 <= i < |r.items| ==>
      r.items[i] == if db.items[i].job == job then Reconciled(db.items[i], disk) else db.items[i]
  {
    db.(items := Update(db.items, (it: Item) => it.job == job, (it: Item) => Reconciled(it, disk)))
  }

  // ---------------------------------------------------------------- table invariants

  /** Rows belong to existing jobs; within a job, folders are unique and positions rise. */
  ghost predicate Keyed(db: Db) {
    && (forall i :: 0 <= i < |db.items| ==> db.items[i].job < |db.jobs|)
    && (forall i, k :: 0 <= i < k < |db.items| && db.items[i].job == db.items[k].job ==>
          db.items[i].folder != db.items[k].folder && db.items[i].position < db.items[k].position)
  }

  /** A row is in review exactly when it holds something, and exactly then its reason is set. */
  ghost predicate HoldFits(it: Item) {
    && (it.state == Review <==> it.held != [])
    && (it.state == Review <==> it.reason.Some?)
    && (forall h :: h in it.held ==> h.folder == it.folder)
  }

  /** Across all jobs at most one row per folder is in review. */
  ghost predicate OneHoldPerFolder(items: seq<Item>) {
    forall i, k :: 0 <= i < k < |items| && items[i].folder == items[k].folder ==>
      !(items[i].state == Review && items[k].state == Review)
  }

  ghost predicate OneInFlightPerJob(items: seq<Item>) {
    forall i, k :: 0 <= i < k < |items| && items[i].job == items[k].job ==>
      !(items[i].state == Processing && items[k].state == Processing)
  }

  ghost predicate DbInv(db: Db) {
    && Keyed(db)
    && (forall i :: 0 <= i < |db.items| ==> HoldFits(db.items[i]))
    && OneHoldPerFolder(db.items)
    && OneInFlightPerJob(db.items)
  }
}
