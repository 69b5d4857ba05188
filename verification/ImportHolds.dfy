/** What becomes of the rows a verdict holds: how they are recorded, and how long the review page lists them. */
module ImportHolds {
  import opened Basics
  import opened ImportState
  import opened ImportReview
  import opened ImportProtocol
  import opened ImportSafety
  import opened ImportRuns

  lemma ResultRecorded(db: Db, job: nat, folder: Path, imported: nat, reason: Option<Reason>, held: seq<Held>)
    ensures RecordedAs(db.items, FolderResult(db, job, folder, imported, reason, held).items, job, folder, imported, reason, held)
  {
  }

  /** The folder in flight has its row. */
  lemma InFlightRow(s: Sys) returns (i: nat)
    requires Inv(s) && s.task.Import? && s.task.phase.Working?
    ensures i < |s.db.items|
    ensures (s.db.items[i].job, s.db.items[i].folder, s.db.items[i].state) == (s.task.phase.job, s.task.phase.folder, Processing)
  {
    i :| i < |s.db.items| && s.db.items[i].job == s.task.phase.job && s.db.items[i].folder == s.task.phase.folder;
  }

  /** Recording a verdict: the one row in flight for that folder becomes exactly what was given, a folder with
      rows to review is held whatever was imported beside them, and only older holds of the folder are retired. */
  lemma RecordedAsGiven(s: Sys, verdict: Event) returns (i: nat)
    requires Inv(s) && s.task.Import? && s.task.phase.Working? && verdict.Record? && Step(s, verdict).Some?
    ensures var p, t := s.task.phase, Step(s, verdict).value;
      && i < |s.db.items| && (s.db.items[i].job, s.db.items[i].folder, s.db.items[i].state) == (p.job, p.folder, Processing)
      && t.db.jobs == s.db.jobs
      && RecordedAs(s.db.items, t.db.items, p.job, p.folder, verdict.imported, Some(verdict.reason), verdict.held)
  {
    i := InFlightRow(s);
    ResultRecorded(s.db, s.task.phase.job, s.task.phase.folder, verdict.imported, Some(verdict.reason), verdict.held);
  }

  /** Where the run reconciled the given job's rows, the hold was live. */
  ghost predicate LiveWhenRead(s: Sys, trace: seq<Event>, job: nat, h: Held)
    requires Run(s, trace).Some?
    decreases |trace|
  {
    trace != [] ==> ReadsLive(s, trace[0], job, h) && LiveWhenRead(Step(s, trace[0]).value, trace[1..], job, h)
  }

  /** The whole backlog is read by its page and by a re-evaluation, one job's rows by that job's page. */
  ghost predicate ReadsLive(s: Sys, e: Event, job: nat, h: Held) {
    && (e.ReadHolds? ==> Live(h, e.disk))
    && (e.ReadJobHolds? && e.job == job ==> Live(h, e.disk))
    && (e.Collect? && s.task == Retiring(None) ==> Live(h, e.disk))
  }

  predicate Holds(it: Item, h: Held) {
    it.state == Review && h in it.held
  }

  lemma HeldAcrossReconciling(it: Item, disk: Disk, h: Held)
    requires HoldFits(it)
    ensures Holds(Reconciled(it, disk), h) <==> Holds(it, h) && Live(h, disk)
  {
    ReconciledRow(it, disk);
    if it.state == Review && h in it.held && Live(h, disk) { assert h in Reconciled(it, disk).held; }
  }

  lemma HeldAcrossStep(s: Sys, e: Event, i: nat, h: Held)
    requires Inv(s) && Step(s, e).Some? && i < |s.db.items| && Settled(s.db.items[i])
    requires !(e.Record? && s.task.Import? && s.task.phase.Working? && s.task.phase.folder == s.db.items[i].folder)
    ensures var next := Step(s, e).value.db.items;
      i < |next| && (Holds(next[i], h) <==> Holds(s.db.items[i], h) && ReadsLive(s, e, s.db.items[i].job, h))
  {
    if e.ReadHolds? || e.ReadJobHolds? || (e.Collect? && s.task == Retiring(None)) {
      HeldAcrossReconciling(s.db.items[i], e.disk, h);
    } else {
      UnreadRowStays(s, e, i);
    }
  }

  /** Only a read of its row, or a new verdict on its folder, changes what a settled row holds. */
  lemma UnreadRowStays(s: Sys, e: Event, i: nat)
    requires Inv(s) && Step(s, e).Some? && i < |s.db.items| && Settled(s.db.items[i])
    requires !e.ReadHolds? && !e.ReadJobHolds? && !(e.Collect? && s.task == Retiring(None))
    requires !(e.Record? && s.task.Import? && s.task.phase.Working? && s.task.phase.folder == s.db.items[i].folder)
    ensures i < |Step(s, e).value.db.items| && Step(s, e).value.db.items[i] == s.db.items[i]
  {
    if e.Take? { assert s.task.phase.todo[0] in s.task.phase.todo; }
  }

  lemma {:induction false} HeldAcrossRun(s: Sys, trace: seq<Event>, i: nat, h: Held)
    requires Inv(s) && Run(s, trace).Some? && i < |s.db.items| && Settled(s.db.items[i])
    requires QuietOn(s, trace, s.db.items[i].folder)
    ensures var t := Run(s, trace).value.db.items;
      && i < |t| && t[i].folder == s.db.items[i].folder && t[i].job == s.db.items[i].job
      && (Holds(t[i], h) <==> Holds(s.db.items[i], h) && LiveWhenRead(s, trace, s.db.items[i].job, h))
    decreases |trace|
  {
    if trace != [] {
      var next := Step(s, trace[0]).value;
      StepKeeps(s, trace[0]);
      assert Moved(s.db.items[i], next.db.items[i]);
      HeldAcrossStep(s, trace[0], i, h);
      HeldAcrossRun(next, trace[1..], i, h);
    }
  }

  /** The row of the verdict holds, from then on, what it was given and every read of it found live. */
  lemma HeldByItsRow(s: Sys, verdict: Event, trace: seq<Event>, h: Held) returns (i: nat)
    requires Inv(s) && s.task.Import? && s.task.phase.Working? && verdict.Record? && Step(s, verdict).Some?
    requires var after := Step(s, verdict).value; Run(after, trace).Some? && QuietOn(after, trace, s.task.phase.folder)
    ensures var after := Step(s, verdict).value;
      var t := Run(after, trace).value.db;
      && DbInv(t) && i < |t.items| && (t.items[i].job, t.items[i].folder) == (s.task.phase.job, s.task.phase.folder)
      && (Holds(t.items[i], h) <==> h in verdict.held && LiveWhenRead(after, trace, s.task.phase.job, h))
  {
    var after := Step(s, verdict).value;
    i := RecordedAsGiven(s, verdict);
    StepKeeps(s, verdict);
    EveryRunIsSafe(after, trace);
    HeldAcrossRun(after, trace, i, h);
  }

  /** From a folder's verdict until it is recorded again, whatever happens in between, the review page shows for
      the folder exactly those of the verdict's rows that name a file which exists, is not imported and is not an
      artifact, and which every earlier read of the row found so too. */
  lemma ListedUntilRecordedAgain(s: Sys, verdict: Event, trace: seq<Event>, disk: Disk, h: Held)
    requires Inv(s) && s.task.Import? && s.task.phase.Working? && verdict.Record? && Step(s, verdict).Some?
    requires var after := Step(s, verdict).value; Run(after, trace).Some? && QuietOn(after, trace, s.task.phase.folder)
    requires h.folder == s.task.phase.folder
    ensures var after := Step(s, verdict).value;
      h in Outstanding(Run(after, trace).value.db, disk) <==>
        && h in verdict.held
        && h.filepath.text != "" && h.filepath in disk.existing
        && h.filepath !in disk.imported && h.filepath !in disk.artifacts
        && LiveWhenRead(after, trace, s.task.phase.job, h)
  {
    var p, after := s.task.phase, Step(s, verdict).value;
    var t := Run(after, trace).value;
    var i := HeldByItsRow(s, verdict, trace, h);
    OnlyTheNewVerdictRemains(s, verdict, trace);
    ListedHoldsAreLive(t.db, disk, h);
    forall k | 0 <= k < |t.db.items| && Holds(t.db.items[k], h) ensures k == i {
      OneRowOfTheJob(t.db, p.job, p.folder, i, k, h);
    }
  }

  /** Where only one job can hold a folder, only its row holds the folder's files. */
  lemma OneRowOfTheJob(db: Db, job: nat, folder: Path, i: nat, k: nat, h: Held)
    requires DbInv(db) && i < |db.items| && k < |db.items| && (db.items[i].job, db.items[i].folder) == (job, folder)
    requires Holds(db.items[k], h) && h.folder == folder
    requires forall n :: 0 <= n < |db.items| && db.items[n].folder == folder && db.items[n].state == Review ==> db.items[n].job == job
    ensures k == i
  {
    assert HoldFits(db.items[k]);
    assert db.items[k].folder == folder && db.items[k].job == job;
  }
}
