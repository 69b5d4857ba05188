/** The checkpoint tables as the application mutates them: one method per database function. */
module ImportStore {
  import opened Basics
  import opened ImportState
  import opened ImportReview

  class CheckpointStore {
    var jobs: seq<Job>
    var items: seq<Item>

    function Tables(): Db
      reads this
    {
      Db(jobs, items)
    }

    constructor ()
      ensures Tables() == Db([], [])
    {
      jobs, items := [], [];
    }

    method CreateJob(folders: seq<Path>) returns (job: nat)
      modifies this
      ensures job == |old(jobs)| && Tables() == JobCreated(old(Tables()), folders)
      ensures jobs == old(jobs) + [Job(Running, None)] && old(items) <= items
      ensures RowsFor(items[|old(items)|..], job, folders)
    {
      var ordered := Distinct(folders);
      job := |jobs|;
      NewRows(job, folders);
      jobs := jobs + [Job(Running, None)];
      items := items + NewItems(job, ordered);
    }

    method GetLatestJob(status: JobStatus) returns (job: Option<nat>)
      ensures job == Latest(jobs, status)
    {
      var k := |jobs|;
      while k > 0
        invariant 0 <= k <= |jobs|
        invariant Latest(jobs, status) == Latest(jobs[..k], status)
      {
        k := k - 1;
        assert jobs[..k + 1][..k] == jobs[..k];
        if jobs[k].status == status { return Some(k); }
      }
      return None;
    }

    /** The job runs, and the folders it was working on are offered to it again. */
    method MarkJobRunning(job: nat)
      modifies this
      ensures Tables() == JobRunning(old(Tables()), job)
      ensures |jobs| == |old(jobs)| && |items| == |old(items)|
      ensures forall k :: 0 <= k < |jobs| ==> jobs[k] == if k == job then Job(Running, None) else old(jobs)[k]
      ensures forall i :: 0 <= i < |items| ==> items[i] == Freed(old(items)[i], job)
      ensures forall f :: f in PendingFolders(items, job) <==> Unfinished(old(items), job, f)
    {
      items := SetState(items, (it: Item) => it.job == job && it.state == Processing, Pending);
      jobs := SetJob(jobs, job, Running, None);
      FreedIsPending(old(items), items, job);
    }

    /** The job pauses with the given error, and the folders it was working on wait for it again. */
    method MarkJobPaused(job: nat, error: Option<string>)
      modifies this
      ensures Tables() == JobPaused(old(Tables()), job, error)
      ensures |jobs| == |old(jobs)| && |items| == |old(items)|
      ensures forall k :: 0 <= k < |jobs| ==> jobs[k] == if k == job then Job(Paused, error) else old(jobs)[k]
      ensures forall i :: 0 <= i < |items| ==> items[i] == Freed(old(items)[i], job)
      ensures forall f :: f in PendingFolders(items, job) <==> Unfinished(old(items), job, f)
    {
      items := SetState(items, (it: Item) => it.job == job && it.state == Processing, Pending);
      jobs := SetJob(jobs, job, Paused, error);
      FreedIsPending(old(items), items, job);
    }

    method MarkJobComplete(job: nat)
      modifies this`jobs
      ensures Tables() == JobComplete(old(Tables()), job)
    {
      jobs := SetJob(jobs, job, Complete, None);
    }

    method GetPendingFolders(job: nat) returns (folders: seq<Path>)
      ensures folders == PendingFolders(items, job)
    {
      folders := [];
      for k := 0 to |items|
        invariant folders == PendingFolders(items[..k], job)
      {
        assert items[..k + 1][..k] == items[..k];
        if items[k].job == job && items[k].state == Pending { folders := folders + [items[k].folder]; }
      }
      assert items[..|items|] == items;
    }

    method MarkFolderProcessing(job: nat, folder: Path)
      modifies this
      ensures Tables() == FolderProcessing(old(Tables()), job, folder)
    {
      items := SetState(items, (it: Item) => it.job == job && it.folder == folder, Processing);
    }

    /** A folder in flight waits again; a folder already recorded, or never taken, is not touched. */
    method MarkFolderPending(job: nat, folder: Path)
      modifies this
      ensures Tables() == FolderPending(old(Tables()), job, folder)
      ensures jobs == old(jobs) && |items| == |old(items)|
      ensures forall i :: 0 <= i < |items| ==>
        items[i] == if old(items)[i].folder == folder then Freed(old(items)[i], job) else old(items)[i]
    {
      items := SetState(items, (it: Item) => it.job == job && it.folder == folder && it.state == Processing, Pending);
    }

    /** The verdict, then the retirement of the verdicts it supersedes, as one checkpoint. */
    method MarkFolderResult(job: nat, folder: Path, imported: nat, reason: Option<Reason>, held: seq<Held>)
      modifies this
      ensures Tables() == FolderResult(old(Tables()), job, folder, imported, reason, held)
      ensures jobs == old(jobs) && RecordedAs(old(items), items, job, folder, imported, reason, held)
    {
      var before := Tables();
      items := Update(items, (it: Item) => it.job == job && it.folder == folder,
                      (it: Item) => Verdict(it, imported, reason, held));
      items := Update(items, (it: Item) => it.folder == folder && it.job != job && it.state == Review,
                      (it: Item) => Retired(it));
      assert items == FolderResult(before, job, folder, imported, reason, held).items;
    }

    /** Reconcile the selected review rows one by one; `kept` is what each still holds. */
    method PruneReviewRows(ids: seq<nat>, disk: Disk) returns (kept: seq<seq<Held>>, changed: bool)
      requires ReviewRows(items, ids)
      modifies this`items
      ensures items == Pruned(old(items), ids, disk)
      ensures kept == KeptRows(old(items), ids, disk)
      ensures changed <==> items != old(items)
    {
      ghost var before := items;
      kept, changed := [], false;
      for n := 0 to |ids|
        invariant items == Pruned(before, ids[..n], disk)
        invariant kept == KeptRows(before, ids[..n], disk)
        invariant changed <==> items != before
      {
        var id := ids[n];
        PrunedNext(before, ids, n, disk);
        KeptNext(before, ids, n, disk);
        var filtered := LiveHeld(items[id].held, disk);
        if |filtered| != |items[id].held| {
          changed := true;
          items := items[id := if filtered != [] then items[id].(held := filtered) else Retired(items[id])];
        }
        kept := kept + [filtered];
      }
      assert ids[..|ids|] == ids;
    }

    /** Every folder still waiting for review, across all passes; reconciles the rows it reads. */
    method GetOutstandingReviewItems(disk: Disk) returns (result: seq<Held>)
      requires DbInv(Tables())
      modifies this`items
      ensures Tables() == AllReconciled(old(Tables()), disk)
      ensures result == Outstanding(old(Tables()), disk)
    {
      ghost var before := Tables();
      var ids := BacklogIds(items, |jobs|);
      BacklogPruned(before, disk);
      var kept, _ := PruneReviewRows(ids, disk);
      result := ListRows(ids, kept);
    }

    /** The loop that gives each folder to its newest pass. */
    method ListRows(ids: seq<nat>, kept: seq<seq<Held>>) returns (result: seq<Held>)
      requires |kept| == |ids|
      requires forall k :: 0 <= k < |ids| ==> ids[k] < |items| && kept[k] == items[ids[k]].held
      ensures result == Listing(items, ids, {})
    {
      result := [];
      var seen: set<Path> := {};
      for n := 0 to |ids|
        invariant Listing(items, ids, {}) == result + Listing(items, ids[n..], seen)
      {
        assert ids[n..][0] == ids[n] && ids[n..][1..] == ids[n + 1..];
        if items[ids[n]].folder !in seen && kept[n] != [] {
          seen := seen + {items[ids[n]].folder};
          result := result + kept[n];
        }
      }
    }

    /** The cheap count: distinct held folders, nothing decoded or reconciled. */
    method CountOutstandingReviewFolders() returns (amount: nat)
      ensures amount == |HeldFolders(items)|
    {
      amount := 0;
      var seen: set<Path> := {};
      for n := 0 to |items|
        invariant seen == SeenFolders(items, n) && amount == |seen|
      {
        if items[n].state == Review && items[n].folder !in seen {
          seen := seen + {items[n].folder};
          amount := amount + 1;
        }
      }
      SeenIsHeld(items, |items|);
    }
  }

  /** The rows of a new job: one for each folder of the list, in the order in which each first occurs there. */
  ghost predicate RowsFor(rows: seq<Item>, job: nat, folders: seq<Path>) {
    && (forall i :: 0 <= i < |rows| ==>
          rows[i].job == job && rows[i].position == i && rows[i].state == Pending
          && rows[i].imported == 0 && rows[i].reason.None? && rows[i].held == [])
    && (forall i :: 0 <= i < |rows| ==> rows[i].folder in folders)
    && (forall f :: f in folders ==> exists i :: 0 <= i < |rows| && rows[i].folder == f)
    && (forall i, k :: 0 <= i < k < |rows| ==> FirstSeenBefore(folders, rows[i].folder, rows[k].folder))
  }

  lemma NewRows(job: nat, folders: seq<Path>)
    ensures RowsFor(NewItems(job, Distinct(folders)), job, folders)
  {
    var rows, ordered := NewItems(job, Distinct(folders)), Distinct(folders);
    forall f | f in folders ensures exists i :: 0 <= i < |rows| && rows[i].folder == f {
      var i :| 0 <= i < |ordered| && ordered[i] == f;
      assert rows[i].folder == f;
    }
    forall i, k | 0 <= i < k < |rows| ensures FirstSeenBefore(folders, rows[i].folder, rows[k].folder) {
      DistinctInOrder(folders, i, k);
    }
  }

  /** The held folders among the first n rows. */
  function SeenFolders(items: seq<Item>, n: nat): set<Path>
    requires n <= |items|
  {
    if n == 0 then {} else SeenFolders(items, n - 1) + if items[n - 1].state == Review then {items[n - 1].folder} else {}
  }

  lemma {:induction false} SeenFolder(items: seq<Item>, n: nat, f: Path)
    requires n <= |items|
    ensures f in SeenFolders(items, n) <==> exists i :: 0 <= i < n && items[i].state == Review && items[i].folder == f
  {
    if n > 0 { SeenFolder(items, n - 1, f); }
  }

  lemma SeenIsHeld(items: seq<Item>, n: nat)
    requires n == |items|
    ensures SeenFolders(items, n) == HeldFolders(items)
  {
    forall f ensures f in SeenFolders(items, n) <==> f in HeldFolders(items) { SeenFolder(items, n, f); }
  }

  /** A row of this job that was in flight waits again; every other row is as it was. */
  function Freed(it: Item, job: nat): Item {
    if it.job == job && it.state == Processing then it.(state := Pending) else it
  }

  /** The job has this folder, and has not recorded it. */
  ghost predicate Unfinished(items: seq<Item>, job: nat, folder: Path) {
    exists i :: 0 <= i < |items| && items[i].job == job && items[i].folder == folder
                && (items[i].state == Pending || items[i].state == Processing)
  }

  lemma FreedIsPending(before: seq<Item>, after: seq<Item>, job: nat)
    requires |after| == |before| && forall i :: 0 <= i < |before| ==> after[i] == Freed(before[i], job)
    ensures forall f :: f in PendingFolders(after, job) <==> Unfinished(before, job, f)
  {
    forall f ensures f in PendingFolders(after, job) <==> Unfinished(before, job, f) {
      if f in PendingFolders(after, job) {
        var it :| it in after && it.job == job && it.state == Pending && it.folder == f;
        var i :| 0 <= i < |after| && after[i] == it;
        assert before[i].folder == f;
      }
      if Unfinished(before, job, f) {
        var i :| 0 <= i < |before| && before[i].job == job && before[i].folder == f
                 && (before[i].state == Pending || before[i].state == Processing);
        assert after[i] in after && after[i].state == Pending;
      }
    }
  }

  /** Distinct ids of rows in review. */
  ghost predicate ReviewRows(items: seq<Item>, ids: seq<nat>) {
    && (forall k :: 0 <= k < |ids| ==> ids[k] < |items| && items[ids[k]].state == Review)
    && (forall i, k :: 0 <= i < k < |ids| ==> ids[i] != ids[k])
  }

  /** What the selected rows still hold. */
  function KeptRows(items: seq<Item>, ids: seq<nat>, disk: Disk): (r: seq<seq<Held>>)
    requires forall k :: 0 <= k < |ids| ==> ids[k] < |items|
    ensures |r| == |ids| && forall k :: 0 <= k < |ids| ==> r[k] == LiveHeld(items[ids[k]].held, disk)
  {
    seq(|ids|, k requires 0 <= k < |ids| => LiveHeld(items[ids[k]].held, disk))
  }

  /** The rows after the selected ones have been reconciled in turn. */
  function Pruned(items: seq<Item>, ids: seq<nat>, disk: Disk): (r: seq<Item>)
    requires forall k :: 0 <= k < |ids| ==> ids[k] < |items|
    ensures |r| == |items|
  {
    if ids == [] then items
    else
      var id := ids[|ids| - 1];
      var before := Pruned(items, ids[..|ids| - 1], disk);
      before[id := Reconciled(before[id], disk)]
  }

  lemma {:induction false} PrunedRows(items: seq<Item>, ids: seq<nat>, disk: Disk)
    requires forall k :: 0 <= k < |ids| ==> ids[k] < |items|
    requires forall i, k :: 0 <= i < k < |ids| ==> ids[i] != ids[k]
    ensures forall i: nat :: i < |items| ==>
      Pruned(items, ids, disk)[i] == if i in ids then Reconciled(items[i], disk) else items[i]
  {
    if ids != [] {
      var rest, id := ids[..|ids| - 1], ids[|ids| - 1];
      PrunedRows(items, rest, disk);
      assert ids == rest + [id];
      assert id !in rest;
    }
  }

  /** One turn of the loop: the next selected row is still as it was, and is reconciled. */
  lemma PrunedNext(items: seq<Item>, ids: seq<nat>, n: nat, disk: Disk)
    requires n < |ids| && ReviewRows(items, ids)
    ensures var now := Pruned(items, ids[..n], disk);
      var kept := LiveHeld(items[ids[n]].held, disk);
      && now[ids[n]] == items[ids[n]]
      && Pruned(items, ids[..n + 1], disk) ==
           if |kept| == |items[ids[n]].held| then now
           else now[ids[n] := if kept != [] then items[ids[n]].(held := kept) else Retired(items[ids[n]])]
  {
    var done, id := ids[..n], ids[n];
    PrunedRows(items, done, disk);
    assert id !in done;
    assert ids[..n + 1] == done + [id];
    assert (done + [id])[..n] == done;
    assert Pruned(items, done, disk)[id] == items[id];
  }

  lemma KeptNext(items: seq<Item>, ids: seq<nat>, n: nat, disk: Disk)
    requires n < |ids| && ReviewRows(items, ids)
    ensures KeptRows(items, ids[..n + 1], disk) == KeptRows(items, ids[..n], disk) + [LiveHeld(items[ids[n]].held, disk)]
  {
  }

  /** Pruning every backlog row reconciles the whole table. */
  lemma BacklogPruned(before: Db, disk: Disk)
    requires DbInv(before)
    ensures var ids := BacklogIds(before.items, |before.jobs|);
      var after := AllReconciled(before, disk).items;
      && ReviewRows(before.items, ids)
      && Pruned(before.items, ids, disk) == after
      && forall k :: 0 <= k < |ids| ==> after[ids[k]].held == LiveHeld(before.items[ids[k]].held, disk)
  {
    var ids := BacklogIds(before.items, |before.jobs|);
    var after := AllReconciled(before, disk).items;
    assert forall k :: 0 <= k < |ids| ==> ids[k] in ids;
    PrunedRows(before.items, ids, disk);
    AllRowsPruned(before, ids, disk);
    forall k | 0 <= k < |ids| ensures after[ids[k]].held == LiveHeld(before.items[ids[k]].held, disk) {
      ReconciledRow(before.items[ids[k]], disk);
    }
  }

  lemma AllRowsPruned(before: Db, ids: seq<nat>, disk: Disk)
    requires ReviewRows(before.items, ids)
    requires forall i: nat :: i < |before.items| && before.items[i].state == Review ==> i in ids
    ensures Pruned(before.items, ids, disk) == AllReconciled(before, disk).items
  {
    PrunedRows(before.items, ids, disk);
    var pruned, after := Pruned(before.items, ids, disk), AllReconciled(before, disk).items;
    forall i: nat | i < |after| ensures pruned[i] == after[i] {}
    assert pruned == after;
  }
}
