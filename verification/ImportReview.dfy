/** The review backlog: which holds are listed, how they are counted, and what reconciliation does to both. */
module ImportReview {
  import opened ImportState

  /** Ids of a job's review rows, in position order. */
  function HeldIds(items: seq<Item>, job: nat): (r: seq<nat>)
    ensures forall x: nat :: x in r <==> x < |items| && items[x].job == job && items[x].state == Review
    ensures forall i, k :: 0 <= i < k < |r| ==> r[i] < r[k]
  {
    if items == [] then []
    else
      var last := items[|items| - 1];
      var front := HeldIds(items[..|items| - 1], job);
      assert forall i :: 0 <= i < |front| ==> front[i] in front;
      front + if last.job == job && last.state == Review then [|items| - 1] else []
  }

  /** Ids of every review row, newest job first. */
  function BacklogIds(items: seq<Item>, jobs: nat): (r: seq<nat>)
    ensures forall x: nat :: x in r <==> x < |items| && items[x].job < jobs && items[x].state == Review
    ensures forall i :: 0 <= i < |r| ==> r[i] < |items|
    ensures forall i, k :: 0 <= i < k < |r| ==> r[i] != r[k]
  {
    if jobs == 0 then []
    else
      var newest := HeldIds(items, jobs - 1);
      var older := BacklogIds(items, jobs - 1);
      assert forall i :: 0 <= i < |newest| ==> newest[i] in newest;
      assert forall i :: 0 <= i < |older| ==> older[i] in older;
      newest + older
  }

  /** Rows of newer jobs first, and those of one job in the order they are stored. */
  ghost predicate NewestFirst(items: seq<Item>, ids: seq<nat>) {
    && (forall i :: 0 <= i < |ids| ==> ids[i] < |items|)
    && forall i, k :: 0 <= i < k < |ids| ==>
         items[ids[i]].job > items[ids[k]].job || (items[ids[i]].job == items[ids[k]].job && ids[i] < ids[k])
  }

  ghost predicate AllOf(items: seq<Item>, ids: seq<nat>, job: nat) {
    && (forall i, k :: 0 <= i < k < |ids| ==> ids[i] < ids[k])
    && forall i :: 0 <= i < |ids| ==> ids[i] < |items| && items[ids[i]].job == job
  }

  ghost predicate AllBelow(items: seq<Item>, ids: seq<nat>, jobs: nat) {
    forall i :: 0 <= i < |ids| ==> ids[i] < |items| && items[ids[i]].job < jobs
  }

  lemma NewerBeforeOlder(items: seq<Item>, ids: seq<nat>, newest: seq<nat>, older: seq<nat>, job: nat)
    requires AllOf(items, newest, job) && AllBelow(items, older, job) && NewestFirst(items, older)
    requires ids == newest + older
    ensures NewestFirst(items, ids)
  {
  }

  lemma IdsOfTheJob(items: seq<Item>, job: nat)
    ensures AllOf(items, HeldIds(items, job), job)
  {
    var ids := HeldIds(items, job);
    forall i | 0 <= i < |ids| ensures ids[i] < |items| && items[ids[i]].job == job { assert ids[i] in ids; }
  }

  lemma IdsOfJobs(items: seq<Item>, jobs: nat)
    ensures AllBelow(items, BacklogIds(items, jobs), jobs)
  {
    var ids := BacklogIds(items, jobs);
    forall i | 0 <= i < |ids| ensures ids[i] < |items| && items[ids[i]].job < jobs { assert ids[i] in ids; }
  }

  lemma BacklogParts(items: seq<Item>, jobs: nat, older: seq<nat>) returns (ids: seq<nat>, newest: seq<nat>)
    requires jobs > 0 && older == BacklogIds(items, jobs - 1)
    ensures ids == BacklogIds(items, jobs) == newest + older
    ensures AllOf(items, newest, jobs - 1) && AllBelow(items, older, jobs - 1)
  {
    ids, newest := BacklogIds(items, jobs), HeldIds(items, jobs - 1);
    IdsOfTheJob(items, jobs - 1);
    IdsOfJobs(items, jobs - 1);
  }

  lemma {:induction false} BacklogInOrder(items: seq<Item>, jobs: nat) returns (ids: seq<nat>)
    ensures ids == BacklogIds(items, jobs) && NewestFirst(items, ids)
  {
    if jobs == 0 {
      ids := [];
    } else {
      var older := BacklogInOrder(items, jobs - 1);
      var newest;
      ids, newest := BacklogParts(items, jobs, older);
      NewerBeforeOlder(items, ids, newest, older, jobs - 1);
    }
  }

  /** The review list over the given rows: one contribution per folder, whole folders kept together. */
  function Listing(items: seq<Item>, ids: seq<nat>, seen: set<Path>): seq<Held>
    requires forall i :: 0 <= i < |ids| ==> ids[i] < |items|
  {
    if ids == [] then []
    else
      var it := items[ids[0]];
      if it.folder in seen || it.held == [] then Listing(items, ids[1..], seen)
      else it.held + Listing(items, ids[1..], seen + {it.folder})
  }

  /** The folders the cheap SQL count counts. */
  function HeldFolders(items: seq<Item>): (r: set<Path>)
    ensures forall f :: f in r <==> exists i :: 0 <= i < |items| && items[i].state == Review && items[i].folder == f
  {
    set i | 0 <= i < |items| && items[i].state == Review :: items[i].folder
  }

  /** What the review page lists, given the rows as they stood when it was opened. */
  function Outstanding(db: Db, disk: Disk): seq<Held> {
    Listing(AllReconciled(db, disk).items, BacklogIds(db.items, |db.jobs|), {})
  }

  function FoldersOf(held: seq<Held>): (r: seq<Path>)
    ensures |r| == |held| && forall i :: 0 <= i < |held| ==> r[i] == held[i].folder
  {
    seq(|held|, i requires 0 <= i < |held| => held[i].folder)
  }

  /** The folders a re-evaluation stages: those that still hold something live, once each. */
  function LiveFolders(db: Db, disk: Disk): seq<Path> {
    Distinct(FoldersOf(Outstanding(db, disk)))
  }

  // ---------------------------------------------------------------- the snapshot a pass works from

  lemma {:induction false} PendingAt(items: seq<Item>, job: nat, i: nat) returns (a: nat)
    requires i < |PendingFolders(items, job)|
    ensures a < |items| && items[a].job == job && items[a].state == Pending
    ensures items[a].folder == PendingFolders(items, job)[i] && |PendingFolders(items[..a], job)| == i
    decreases |items|
  {
    var front := items[..|items| - 1];
    if i < |PendingFolders(front, job)| {
      a := PendingAt(front, job, i);
      assert front[..a] == items[..a];
    } else {
      a := |items| - 1;
    }
  }

  lemma {:induction false} PendingGrows(items: seq<Item>, job: nat, a: nat, b: nat)
    requires a <= b <= |items|
    ensures |PendingFolders(items[..a], job)| <= |PendingFolders(items[..b], job)|
    decreases b
  {
    if a < b {
      assert items[..b][..b - 1] == items[..b - 1];
      PendingGrows(items, job, a, b - 1);
    }
  }

  /** The pending folders are read in the order of their rows' positions. */
  lemma SnapshotInPositionOrder(db: Db, job: nat, i: nat, k: nat) returns (a: nat, b: nat)
    requires Keyed(db) && i < k < |PendingFolders(db.items, job)|
    ensures a < |db.items| && db.items[a].folder == PendingFolders(db.items, job)[i]
    ensures b < |db.items| && db.items[b].folder == PendingFolders(db.items, job)[k]
    ensures db.items[a].job == db.items[b].job == job && db.items[a].position < db.items[b].position
  {
    a := PendingAt(db.items, job, i);
    b := PendingAt(db.items, job, k);
    if b <= a { PendingGrows(db.items, job, b, a); }
  }

  // ---------------------------------------------------------------- reconciliation

  lemma LiveHeldTwice(held: seq<Held>, disk: Disk)
    ensures LiveHeld(LiveHeld(held, disk), disk) == LiveHeld(held, disk)
  {
    AllLiveStay(LiveHeld(held, disk), disk);
  }

  lemma AllLiveStay(held: seq<Held>, disk: Disk)
    requires forall h :: h in held ==> Live(h, disk)
    ensures LiveHeld(held, disk) == held
  {
    if held != [] {
      AllLiveStay(held[..|held| - 1], disk);
      assert held == held[..|held| - 1] + [held[|held| - 1]];
    }
  }

  /** What reconciliation leaves of one row: its live holds and nothing else. */
  lemma ReconciledRow(it: Item, disk: Disk)
    requires HoldFits(it)
    ensures var r := Reconciled(it, disk);
      && HoldFits(r)
      && (r.job, r.position, r.folder, r.imported) == (it.job, it.position, it.folder, it.imported)
      && (it.state != Review ==> r == it)
      && (it.state == Review ==> r.held == LiveHeld(it.held, disk))
      && (r.state == Review <==> it.state == Review && exists h :: h in it.held && Live(h, disk))
      && (r.state != it.state ==> it.state == Review && r.state == Done)
      && Reconciled(r, disk) == r
  {
    if it.state == Review {
      var kept := LiveHeld(it.held, disk);
      LiveHeldTwice(it.held, disk);
      if kept != [] { assert kept[0] in kept; }
      if |kept| == |it.held| { assert it.held[0] in kept; }
    }
  }

  /** Reconciling keeps every table invariant, never adds a held folder, and is idempotent. */
  lemma ReconciliationSettles(db: Db, disk: Disk)
    requires DbInv(db)
    ensures var after := AllReconciled(db, disk);
      && DbInv(after)
      && HeldFolders(after.items) <= HeldFolders(db.items)
      && AllReconciled(after, disk) == after
  {
    var after := AllReconciled(db, disk);
    forall i | 0 <= i < |db.items|
      ensures HoldFits(after.items[i]) && Reconciled(after.items[i], disk) == after.items[i]
      ensures after.items[i].folder == db.items[i].folder && after.items[i].job == db.items[i].job
      ensures after.items[i].position == db.items[i].position
      ensures after.items[i].state == db.items[i].state || (db.items[i].state == Review && after.items[i].state == Done)
    {
      ReconciledRow(db.items[i], disk);
    }
    assert AllReconciled(after, disk).items == after.items;
  }

  /** Among rows with one hold per folder, the seen-folder filter drops nothing. */
  lemma {:induction false} ListingHoldsAll(items: seq<Item>, ids: seq<nat>, seen: set<Path>)
    requires forall i :: 0 <= i < |ids| ==> ids[i] < |items|
    requires forall i, k :: 0 <= i < k < |ids| ==> ids[i] != ids[k]
    requires forall i :: 0 <= i < |items| ==> HoldFits(items[i])
    requires OneHoldPerFolder(items)
    requires forall i :: 0 <= i < |ids| && items[ids[i]].held != [] ==> items[ids[i]].folder !in seen
    ensures forall h :: h in Listing(items, ids, seen) <==> exists i :: 0 <= i < |ids| && h in items[ids[i]].held
  {
    if ids != [] {
      var first, rest := ids[0], ids[1..];
      assert ids == [first] + rest;
      var it := items[first];
      forall i | 0 <= i < |rest| && items[rest[i]].held != [] && it.held != []
        ensures items[rest[i]].folder != it.folder
      {
        assert rest[i] == ids[i + 1] != first;
      }
      ListingHoldsAll(items, rest, if it.held == [] then seen else seen + {it.folder});
    }
  }

  /** What the page lists is what the reconciled rows hold. */
  lemma ListedRows(db: Db, disk: Disk)
    requires DbInv(db)
    ensures forall h :: h in Outstanding(db, disk) <==>
      exists i :: 0 <= i < |db.items| && h in AllReconciled(db, disk).items[i].held
  {
    var after := AllReconciled(db, disk);
    var ids := BacklogIds(db.items, |db.jobs|);
    ReconciliationSettles(db, disk);
    ListingHoldsAll(after.items, ids, {});
    forall h, i | 0 <= i < |db.items| && h in after.items[i].held ensures i in ids {
      ReconciledRow(db.items[i], disk);
    }
    forall h ensures h in Outstanding(db, disk) <==> exists i :: 0 <= i < |db.items| && h in after.items[i].held {
      if h in Outstanding(db, disk) {
        var k :| 0 <= k < |ids| && h in after.items[ids[k]].held;
      }
    }
  }

  /** Where a place of the list comes from. */
  lemma {:induction false} ListingAt(items: seq<Item>, ids: seq<nat>, seen: set<Path>, n: nat) returns (a: nat)
    requires forall i :: 0 <= i < |ids| ==> ids[i] < |items|
    requires n < |Listing(items, ids, seen)|
    ensures a < |ids| && Listing(items, ids, seen)[n] in items[ids[a]].held
    decreases |ids|
  {
    var it := items[ids[0]];
    if it.folder in seen || it.held == [] {
      a := ListingAt(items, ids[1..], seen, n);
      a := a + 1;
    } else if n < |it.held| {
      a := 0;
    } else {
      a := ListingAt(items, ids[1..], seen + {it.folder}, n - |it.held|);
      a := a + 1;
    }
  }

  /** Two places of the list come from rows in the order of the ids. */
  lemma {:induction false} ListingInOrder(items: seq<Item>, ids: seq<nat>, seen: set<Path>, m: nat, n: nat) returns (a: nat, b: nat)
    requires forall i :: 0 <= i < |ids| ==> ids[i] < |items|
    requires m < n < |Listing(items, ids, seen)|
    ensures a <= b < |ids|
    ensures Listing(items, ids, seen)[m] in items[ids[a]].held && Listing(items, ids, seen)[n] in items[ids[b]].held
    decreases |ids|
  {
    var it := items[ids[0]];
    if it.folder in seen || it.held == [] {
      a, b := ListingInOrder(items, ids[1..], seen, m, n);
      a, b := a + 1, b + 1;
    } else if m < |it.held| {
      a := 0;
      b := ListingAt(items, ids, seen, n);
    } else {
      a, b := ListingInOrder(items, ids[1..], seen + {it.folder}, m - |it.held|, n - |it.held|);
      a, b := a + 1, b + 1;
    }
  }

  /** The page lists the holds of newer passes first, and those of one pass in the order of its folders. */
  lemma NewestPassFirst(db: Db, disk: Disk, m: nat, n: nat) returns (a: nat, b: nat)
    requires DbInv(db) && m < n < |Outstanding(db, disk)|
    ensures a < |db.items| && Outstanding(db, disk)[m] in db.items[a].held
    ensures b < |db.items| && Outstanding(db, disk)[n] in db.items[b].held
    ensures a == b || db.items[a].job > db.items[b].job
            || (db.items[a].job == db.items[b].job && db.items[a].position < db.items[b].position)
  {
    var after := AllReconciled(db, disk).items;
    var ids := BacklogInOrder(db.items, |db.jobs|);
    var x, y := ListingInOrder(after, ids, {}, m, n);
    a, b := ids[x], ids[y];
    ReconciledHolds(db, disk, a, Outstanding(db, disk)[m]);
    ReconciledHolds(db, disk, b, Outstanding(db, disk)[n]);
  }

  /** What reconciliation leaves held is what was held and is live. */
  lemma ReconciledHolds(db: Db, disk: Disk, i: nat, h: Held)
    requires DbInv(db) && i < |db.items|
    ensures h in AllReconciled(db, disk).items[i].held
      <==> db.items[i].state == Review && h in db.items[i].held && Live(h, disk)
  {
    ReconciledRow(db.items[i], disk);
  }

  /** After the page reconciles, it lists exactly the live holds. */
  lemma ListedHoldsAreLive(db: Db, disk: Disk, h: Held)
    requires DbInv(db)
    ensures h in Outstanding(db, disk) <==>
      exists i :: 0 <= i < |db.items| && db.items[i].state == Review && h in db.items[i].held && Live(h, disk)
  {
    ListedRows(db, disk);
    var after := AllReconciled(db, disk).items;
    if i :| 0 <= i < |db.items| && h in after[i].held { ReconciledHolds(db, disk, i, h); }
    if i :| 0 <= i < |db.items| && db.items[i].state == Review && h in db.items[i].held && Live(h, disk) {
      ReconciledHolds(db, disk, i, h);
    }
  }

  /** A row still in review after reconciling shows its folder on the page. */
  lemma CountedRowIsListed(db: Db, disk: Disk, i: nat) returns (h: Held)
    requires DbInv(db) && i < |db.items| && AllReconciled(db, disk).items[i].state == Review
    ensures h in Outstanding(db, disk) && h.folder == AllReconciled(db, disk).items[i].folder
  {
    ReconciledRow(db.items[i], disk);
    var held := AllReconciled(db, disk).items[i].held;
    h := held[0];
    ListedRows(db, disk);
    assert h in held;
  }

  /** A listed hold belongs to a row still in review after reconciling. */
  lemma ListedHoldIsCounted(db: Db, disk: Disk, h: Held) returns (i: nat)
    requires DbInv(db) && h in Outstanding(db, disk)
    ensures i < |db.items| && AllReconciled(db, disk).items[i].state == Review
    ensures h.folder == AllReconciled(db, disk).items[i].folder
  {
    ListedRows(db, disk);
    i :| i < |db.items| && h in AllReconciled(db, disk).items[i].held;
    ReconciledRow(db.items[i], disk);
  }

  /** And the folders it shows are the folders the SQL count counts. */
  lemma ListedFoldersAreCounted(db: Db, disk: Disk)
    requires DbInv(db)
    ensures (set h | h in Outstanding(db, disk) :: h.folder) == HeldFolders(AllReconciled(db, disk).items)
  {
    var after, listed := AllReconciled(db, disk).items, Outstanding(db, disk);
    forall f | f in HeldFolders(after) ensures exists h :: h in listed && h.folder == f {
      var i :| 0 <= i < |after| && after[i].state == Review && after[i].folder == f;
      var h := CountedRowIsListed(db, disk, i);
    }
    forall h | h in listed ensures h.folder in HeldFolders(after) {
      var i := ListedHoldIsCounted(db, disk, h);
    }
  }

  /** Once the backlog has been read and reconciled, the two counters agree: the page lists exactly the live
      holds, in exactly the folders the SQL count counts. */
  lemma CountersAgree(db: Db, disk: Disk)
    requires DbInv(db)
    ensures forall h :: h in Outstanding(db, disk) <==>
      exists i :: 0 <= i < |db.items| && db.items[i].state == Review && h in db.items[i].held && Live(h, disk)
    ensures (set h | h in Outstanding(db, disk) :: h.folder) == HeldFolders(AllReconciled(db, disk).items)
  {
    forall h ensures h in Outstanding(db, disk) <==>
      exists i :: 0 <= i < |db.items| && db.items[i].state == Review && h in db.items[i].held && Live(h, disk)
    {
      ListedHoldsAreLive(db, disk, h);
    }
    ListedFoldersAreCounted(db, disk);
  }

  /** A re-evaluation stages exactly the folders with live holds, each once. */
  lemma StagedFoldersAreLive(db: Db, disk: Disk)
    requires DbInv(db)
    ensures forall f :: f in LiveFolders(db, disk) <==> f in HeldFolders(AllReconciled(db, disk).items)
    ensures forall i, k :: 0 <= i < k < |LiveFolders(db, disk)| ==> LiveFolders(db, disk)[i] != LiveFolders(db, disk)[k]
  {
    CountersAgree(db, disk);
    FoldersOfHolds(Outstanding(db, disk));
  }

  lemma FoldersOfHolds(held: seq<Held>)
    ensures forall f :: f in FoldersOf(held) <==> f in (set h | h in held :: h.folder)
  {
    var folders := FoldersOf(held);
    forall h | h in held ensures h.folder in folders {
      var i :| 0 <= i < |held| && held[i] == h;
      assert folders[i] == h.folder;
    }
    forall f | f in folders ensures exists h :: h in held && h.folder == f {
      var i :| 0 <= i < |folders| && folders[i] == f;
      assert held[i] in held;
    }
  }
}
