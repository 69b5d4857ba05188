/** Retention of database backups, and what the safety backup taken before a restore does to the archive
    being restored. `order` is the order in which the directory happens to be listed. */
module BackupRetention {
  import opened Basics
  import opened Sequences

  datatype Kind = Ordinary | PreRestore
  datatype Filename = Filename(prefix: Kind, stamp: nat)

  /** A database file: can SQLite open it, does its quick check pass, and which schema version it has. */
  datatype Image = Image(content: nat, opens: bool, sound: bool, version: Option<nat>)

  predicate Valid(i: Image, latest: nat) {
    i.opens && i.sound && i.version.Some? && i.version.value <= latest
  }

  /** `readable`: the manifest can be read; `intact`: the checksums hold as well. */
  datatype Archive = Archive(name: Filename, readable: bool, intact: bool, kind: Kind, createdAt: int, database: Image)

  datatype Error = NotFound | FileExists | Invalid
  datatype Result<+T> = Ok(value: T) | Fail(error: Error)

  function CreatedAt(a: Archive): int {
    a.createdAt
  }

  predicate Readable(a: Archive) {
    a.readable
  }

  predicate Counts(a: Archive) {
    a.readable && a.kind.Ordinary?
  }

  predicate IsOrdinary(a: Archive) {
    a.kind.Ordinary?
  }

  ghost predicate DistinctNames(files: seq<Archive>) {
    forall i, k :: 0 <= i < k < |files| ==> files[i].name != files[k].name
  }

  /** `list_backups`: the readable ones, newest first. */
  function Listing(order: seq<Archive>): seq<Archive> {
    SortDescending(Filter(order, Readable), CreatedAt)
  }

  /** The ordinary archives, newest first: the first `keep` of them are retained. */
  function Ranking(order: seq<Archive>): seq<Archive> {
    Filter(Listing(order), IsOrdinary)
  }

  function Dropped(order: seq<Archive>, keep: nat): seq<Archive> {
    if |Ranking(order)| <= keep then [] else Ranking(order)[keep..]
  }

  function Retained(order: seq<Archive>, keep: nat): Archive -> bool {
    (a: Archive) => a !in Dropped(order, keep)
  }

  function Pruned(files: seq<Archive>, order: seq<Archive>, keep: nat): seq<Archive> {
    Filter(files, Retained(order, keep))
  }

  // ---------------------------------------------------------------- the ranking

  lemma RankingCounts(order: seq<Archive>, a: Archive)
    ensures multiset(Ranking(order))[a] == if Counts(a) then multiset(order)[a] else 0
  {
    FilterCounts(order, Readable, a);
    SortingIsStable(Filter(order, Readable), CreatedAt);
    FilterCounts(Listing(order), IsOrdinary, a);
  }

  lemma {:induction false} FilterKeepsDescending(xs: seq<Archive>, p: Archive -> bool)
    requires Descending(xs, CreatedAt)
    ensures Descending(Filter(xs, p), CreatedAt)
  {
    if xs != [] {
      var front, last, kept := xs[..|xs| - 1], xs[|xs| - 1], Filter(xs[..|xs| - 1], p);
      FilterKeepsDescending(front, p);
      if p(last) {
        if kept != [] {
          FilterMembers(front, p);
          assert kept[|kept| - 1] in kept;
          var i :| 0 <= i < |front| && front[i] == kept[|kept| - 1];
          DescendingPairs(xs, CreatedAt, i, |xs| - 1);
        }
        DescendingAppend(kept, last, CreatedAt);
      } else {
        assert Filter(xs, p) == kept;
      }
    }
  }

  lemma RankingDescends(order: seq<Archive>, i: nat, k: nat)
    requires i <= k < |Ranking(order)|
    ensures Ranking(order)[i].createdAt >= Ranking(order)[k].createdAt
  {
    SortingIsStable(Filter(order, Readable), CreatedAt);
    FilterKeepsDescending(Listing(order), IsOrdinary);
    DescendingPairs(Ranking(order), CreatedAt, i, k);
  }

  lemma {:induction false} OnceEach(files: seq<Archive>, a: Archive)
    requires DistinctNames(files)
    ensures multiset(files)[a] <= 1
  {
    if files != [] {
      var front, last := files[..|files| - 1], files[|files| - 1];
      OnceEach(front, a);
      assert files == front + [last];
      assert last !in front;
      assert last !in multiset(front);
    }
  }

  lemma RankedOnce(order: seq<Archive>, i: nat, k: nat)
    requires DistinctNames(order) && i < |Ranking(order)| && k < |Ranking(order)| && Ranking(order)[i] == Ranking(order)[k]
    ensures i == k
  {
    var ranking, a := Ranking(order), Ranking(order)[i];
    RankingCounts(order, a);
    OnceEach(order, a);
    if i != k { TwiceIn(ranking, if i < k then i else k, if i < k then k else i); }
  }

  lemma TwiceIn(xs: seq<Archive>, i: nat, k: nat)
    requires i < k < |xs| && xs[i] == xs[k]
    ensures multiset(xs)[xs[i]] >= 2
  {
    assert xs == xs[..k] + [xs[k]] + xs[k + 1..];
    assert xs[i] == xs[..k][i];
    assert xs[i] in multiset(xs[..k]);
    assert multiset(xs) == multiset(xs[..k]) + multiset{xs[k]} + multiset(xs[k + 1..]);
  }

  /** An ordinary archive survives exactly when it is among the first `keep` of the ranking. */
  lemma DroppedFromTheEnd(order: seq<Archive>, keep: nat, i: nat)
    requires DistinctNames(order) && i < |Ranking(order)|
    ensures Ranking(order)[i] in Dropped(order, keep) <==> i >= keep
  {
    var ranking, dropped := Ranking(order), Dropped(order, keep);
    if ranking[i] in dropped {
      var k :| 0 <= k < |dropped| && dropped[k] == ranking[i];
      RankedOnce(order, i, keep + k);
    }
  }

  // ---------------------------------------------------------------- what retention promises

  predicate SameFiles(files: seq<Archive>, order: seq<Archive>) {
    multiset(files) == multiset(order)
  }

  /** Pre-restore archives and unreadable files are never pruned, nothing is invented, and an archive is
      pruned only if at least `keep` ordinary ones are at least as new. */
  lemma OnlySurplusIsPruned(files: seq<Archive>, order: seq<Archive>, keep: nat, a: Archive)
    requires SameFiles(files, order) && DistinctNames(files) && DistinctNames(order)
    ensures a in Pruned(files, order, keep) ==> a in files
    ensures a in files && !Counts(a) ==> a in Pruned(files, order, keep)
    ensures a in files && a !in Pruned(files, order, keep) ==>
      |Ranking(order)| > keep && forall i :: 0 <= i < keep ==> Ranking(order)[i].createdAt >= a.createdAt
  {
    RankingCounts(order, a);
    FilterMembers(files, Retained(order, keep));
    var dropped := Dropped(order, keep);
    if a in dropped {
      var k :| 0 <= k < |dropped| && dropped[k] == a;
      assert Ranking(order)[keep + k] == a;
      assert a in multiset(Ranking(order));
      forall i | 0 <= i < keep ensures Ranking(order)[i].createdAt >= a.createdAt {
        RankingDescends(order, i, keep + k);
      }
    }
  }

  /** Nothing deleted is newer than an ordinary archive that is kept. */
  lemma NewestAreKept(files: seq<Archive>, order: seq<Archive>, keep: nat, kept: Archive, gone: Archive)
    requires SameFiles(files, order) && DistinctNames(order)
    requires kept in Pruned(files, order, keep) && Counts(kept)
    requires gone in files && gone !in Pruned(files, order, keep)
    ensures gone.createdAt <= kept.createdAt
  {
    var ranking, dropped := Ranking(order), Dropped(order, keep);
    RankingCounts(order, kept);
    FilterMembers(files, Retained(order, keep));
    ReorderedMembers(files, order);
    assert kept in multiset(order) && kept in multiset(ranking) && kept in ranking;
    var i :| 0 <= i < |ranking| && ranking[i] == kept;
    var k :| 0 <= k < |dropped| && dropped[k] == gone;
    DroppedFromTheEnd(order, keep, i);
    RankingDescends(order, i, keep + k);
  }

  function Min(a: nat, b: nat): nat {
    if a < b then a else b
  }

  lemma SplitCount(xs: seq<Archive>, n: nat, a: Archive)
    requires n <= |xs|
    ensures multiset(xs)[a] == multiset(xs[..n])[a] + multiset(xs[n..])[a]
    ensures a in xs[n..] <==> multiset(xs[n..])[a] > 0
  {
    assert xs == xs[..n] + xs[n..];
    assert a in xs[n..] <==> a in multiset(xs[n..]);
  }

  lemma FirstOfRanking(files: seq<Archive>, order: seq<Archive>, keep: nat, a: Archive)
    requires SameFiles(files, order) && DistinctNames(files) && DistinctNames(order)
    ensures multiset(Filter(Pruned(files, order, keep), Counts))[a]
            == multiset(Ranking(order)[..Min(keep, |Ranking(order)|)])[a]
  {
    var ranking, n := Ranking(order), Min(keep, |Ranking(order)|);
    FilterCounts(files, Retained(order, keep), a);
    FilterCounts(Pruned(files, order, keep), Counts, a);
    RankingCounts(order, a);
    OnceEach(order, a);
    SplitCount(ranking, n, a);
    assert Dropped(order, keep) == ranking[n..];
  }

  lemma RankingHoldsAll(files: seq<Archive>, order: seq<Archive>)
    requires SameFiles(files, order)
    ensures |Ranking(order)| == |Filter(files, Counts)|
  {
    forall a ensures multiset(Ranking(order))[a] == multiset(Filter(files, Counts))[a] {
      RankingCounts(order, a);
      FilterCounts(files, Counts, a);
    }
    SameCounts(Ranking(order), Filter(files, Counts));
  }

  /** Exactly the smaller of `keep` and their number of ordinary archives are left: the newest ones. */
  lemma RetentionCount(files: seq<Archive>, order: seq<Archive>, keep: nat)
    requires SameFiles(files, order) && DistinctNames(files) && DistinctNames(order)
    ensures |Filter(Pruned(files, order, keep), Counts)| == Min(keep, |Filter(files, Counts)|)
  {
    var left, first := Filter(Pruned(files, order, keep), Counts), Ranking(order)[..Min(keep, |Ranking(order)|)];
    forall a ensures multiset(left)[a] == multiset(first)[a] { FirstOfRanking(files, order, keep, a); }
    SameCounts(left, first);
    RankingHoldsAll(files, order);
  }

  lemma {:induction false} FilterKeepsNames(xs: seq<Archive>, p: Archive -> bool)
    requires DistinctNames(xs)
    ensures DistinctNames(Filter(xs, p))
  {
    if xs != [] {
      var front, last := xs[..|xs| - 1], xs[|xs| - 1];
      FilterKeepsNames(front, p);
      FilterMembers(front, p);
      var kept := Filter(front, p);
      forall i | 0 <= i < |kept| ensures kept[i].name != last.name {
        assert kept[i] in kept;
      }
    }
  }

  /** Pruning again deletes nothing, however the directory is listed the second time. */
  lemma PruningIsIdempotent(files: seq<Archive>, order: seq<Archive>, again: seq<Archive>, keep: nat)
    requires SameFiles(files, order) && DistinctNames(files) && DistinctNames(order)
    requires SameFiles(Pruned(files, order, keep), again) && DistinctNames(again)
    ensures Pruned(Pruned(files, order, keep), again, keep) == Pruned(files, order, keep)
  {
    var once := Pruned(files, order, keep);
    RetentionCount(files, order, keep);
    FilterKeepsNames(files, Retained(order, keep));
    RankingHoldsAll(once, again);
    FilterAll(once, Retained(again, keep));
  }

  // ---------------------------------------------------------------- the source of a restore

  /** Ordinary archives strictly newer than `a`. */
  function Newer(a: Archive): Archive -> bool {
    (b: Archive) => Counts(b) && b.createdAt > a.createdAt
  }

  /** Other ordinary archives at least as new as `a`. */
  function AsNew(a: Archive): Archive -> bool {
    (b: Archive) => Counts(b) && b != a && b.createdAt >= a.createdAt
  }

  predicate NoTie(files: seq<Archive>, a: Archive) {
    forall i :: 0 <= i < |files| && Counts(files[i]) && files[i] != a ==> files[i].createdAt != a.createdAt
  }

  lemma RankedCounts(order: seq<Archive>, k: nat)
    requires k < |Ranking(order)|
    ensures Counts(Ranking(order)[k]) && Ranking(order)[k] in order
  {
    var a := Ranking(order)[k];
    RankingCounts(order, a);
    assert a in multiset(Ranking(order));
    assert a in multiset(order);
  }

  /** A selection among ordinary archives picks as many from the ranking as from the directory. */
  lemma RankingSelects(order: seq<Archive>, p: Archive -> bool)
    requires forall b :: p(b) ==> Counts(b)
    ensures |Filter(Ranking(order), p)| == |Filter(order, p)|
  {
    forall b ensures multiset(Filter(Ranking(order), p))[b] == multiset(Filter(order, p))[b] {
      FilterCounts(Ranking(order), p, b);
      FilterCounts(order, p, b);
      RankingCounts(order, b);
    }
    SameCounts(Filter(Ranking(order), p), Filter(order, p));
  }

  /** The rank of an archive is at least the number of newer ordinary ones, and at most the number of others
      at least as new. */
  lemma RankBounds(order: seq<Archive>, i: nat)
    requires DistinctNames(order) && i < |Ranking(order)|
    ensures |Filter(order, Newer(Ranking(order)[i]))| <= i <= |Filter(order, AsNew(Ranking(order)[i]))|
  {
    var ranking, a := Ranking(order), Ranking(order)[i];
    forall k | i <= k < |ranking| ensures !Newer(a)(ranking[k]) { RankingDescends(order, i, k); }
    forall k | 0 <= k < i ensures AsNew(a)(ranking[k]) {
      RankingDescends(order, k, i);
      RankedCounts(order, k);
      if ranking[k] == a { RankedOnce(order, k, i); }
    }
    FilterWithin(ranking, Newer(a), i);
    FilterWithin(ranking, AsNew(a), i);
    RankingSelects(order, Newer(a));
    RankingSelects(order, AsNew(a));
  }

  /** An ordinary archive is dropped if as many newer ones as are kept exist, and only if that many others at
      least as new do. */
  lemma DroppedBounds(order: seq<Archive>, keep: nat, a: Archive)
    requires DistinctNames(order) && Counts(a) && a in order
    ensures |Filter(order, Newer(a))| >= keep ==> a in Dropped(order, keep)
    ensures a in Dropped(order, keep) ==> |Filter(order, AsNew(a))| >= keep
  {
    var ranking := Ranking(order);
    RankingCounts(order, a);
    assert a in multiset(order) && a in multiset(ranking) && a in ranking;
    var i :| 0 <= i < |ranking| && ranking[i] == a;
    RankBounds(order, i);
    DroppedFromTheEnd(order, keep, i);
  }

  /** Without ties the two counts are one. */
  lemma NoTieCounts(files: seq<Archive>, a: Archive)
    requires NoTie(files, a)
    ensures Filter(files, Newer(a)) == Filter(files, AsNew(a))
  {
    if files != [] {
      assert NoTie(files[..|files| - 1], a);
      NoTieCounts(files[..|files| - 1], a);
    }
  }

  /** The safety backup is itself a pre-restore archive, so it neither ranks nor changes any rank. The source
      survives it if it is a pre-restore archive or fewer than `keep` other ordinary ones are at least as new;
      it is lost if it is ordinary and `keep` are newer. Between the two the directory order decides. */
  lemma SourceSurvivalBounds(files: seq<Archive>, order: seq<Archive>, keep: nat, source: Archive, safety: Archive)
    requires source in files && source.readable && safety.kind.PreRestore? && DistinctNames(files + [safety])
    requires SameFiles(files + [safety], order) && DistinctNames(order)
    ensures source.kind.PreRestore? || |Filter(files, AsNew(source))| < keep ==>
      source in Pruned(files + [safety], order, keep)
    ensures source.kind.Ordinary? && |Filter(files, Newer(source))| >= keep ==>
      source !in Pruned(files + [safety], order, keep)
    ensures safety in Pruned(files + [safety], order, keep)
  {
    var all := files + [safety];
    OnlySurplusIsPruned(all, order, keep, safety);
    OnlySurplusIsPruned(all, order, keep, source);
    assert all[|files|] == safety && safety in all && source in all;
    FilterMembers(all, Retained(order, keep));
    if source.kind.Ordinary? {
      ReorderedMembers(all, order);
      DroppedBounds(order, keep, source);
      FilterReordered(all, order, Newer(source));
      FilterAppend(files, safety, Newer(source));
      FilterReordered(all, order, AsNew(source));
      FilterAppend(files, safety, AsNew(source));
    }
  }

  /** With no tie in age, the source is still there afterwards exactly when it is not an ordinary archive with
      `keep` newer ones. */
  lemma SourceSurvivesExactly(files: seq<Archive>, order: seq<Archive>, keep: nat, source: Archive, safety: Archive)
    requires source in files && source.readable && safety.kind.PreRestore? && DistinctNames(files + [safety])
    requires SameFiles(files + [safety], order) && DistinctNames(order) && NoTie(files, source)
    ensures source in Pruned(files + [safety], order, keep)
      <==> source.kind.PreRestore? || |Filter(files, Newer(source))| < keep
    ensures safety in Pruned(files + [safety], order, keep)
  {
    SourceSurvivalBounds(files, order, keep, source, safety);
    NoTieCounts(files, source);
  }

  /** With one archive kept, the older of two is gone before its own restore reads it. */
  lemma OlderSourceIsLost(older: Archive, newer: Archive, safety: Archive, order: seq<Archive>)
    requires Counts(older) && Counts(newer) && newer.createdAt > older.createdAt && safety.kind.PreRestore?
    requires DistinctNames([older, newer] + [safety]) && DistinctNames(order)
    requires SameFiles([older, newer] + [safety], order)
    ensures older !in Pruned([older, newer] + [safety], order, 1)
  {
    FilterAppend([older], newer, Newer(older));
    assert [older] + [newer] == [older, newer];
    SourceSurvivalBounds([older, newer], order, 1, older, safety);
  }

  // ---------------------------------------------------------------- the backup folder

  ghost predicate PrunedSoFar(all: seq<Archive>, listing: seq<Archive>, keep: nat, i: nat, kept: nat, files: seq<Archive>) {
    && i <= |listing|
    && kept == |Filter(listing[..i], IsOrdinary)|
    && files == Filter(all, Without(Beyond(listing[..i], keep)))
  }

  lemma PruneStarts(all: seq<Archive>, listing: seq<Archive>, keep: nat)
    ensures PrunedSoFar(all, listing, keep, 0, 0, all)
  {
    FilterAll(all, Without([]));
  }

  lemma PruneTurn(all: seq<Archive>, listing: seq<Archive>, keep: nat, i: nat, kept: nat, files: seq<Archive>)
    requires i < |listing| && PrunedSoFar(all, listing, keep, i, kept, files)
    ensures
      if listing[i].kind.PreRestore? then PrunedSoFar(all, listing, keep, i + 1, kept, files)
      else if kept + 1 <= keep then PrunedSoFar(all, listing, keep, i + 1, kept + 1, files)
      else PrunedSoFar(all, listing, keep, i + 1, kept + 1, Filter(files, Without([listing[i]])))
  {
    BeyondGrows(listing, i, keep);
    if listing[i].kind.PreRestore? || kept < keep {
      assert Beyond(listing[..i + 1], keep) == Beyond(listing[..i], keep);
    }
    OneMoreGone(all, Beyond(listing[..i], keep), listing[i]);
  }

  lemma PruneEnds(all: seq<Archive>, order: seq<Archive>, keep: nat, kept: nat, files: seq<Archive>)
    requires PrunedSoFar(all, Listing(order), keep, |Listing(order)|, kept, files)
    ensures files == Pruned(all, order, keep)
  {
    assert Listing(order)[..|Listing(order)|] == Listing(order);
    FilterSame(all, Without(Dropped(order, keep)), Retained(order, keep));
  }

  class BackupFolder {
    var files: seq<Archive>
    const keep: nat

    constructor (keep: nat)
      ensures this.keep == keep && files == []
    {
      this.keep := keep;
      files := [];
    }

    /** Walk the listing from the newest and remove what is beyond the kept count. */
    method PruneBackups(order: seq<Archive>)
      requires SameFiles(files, order) && DistinctNames(files) && DistinctNames(order)
      modifies this
      ensures files == Pruned(old(files), order, keep)
    {
      var listing := Listing(order);
      var kept: nat := 0;
      ghost var all := files;
      PruneStarts(all, listing, keep);
      for i := 0 to |listing|
        invariant PrunedSoFar(all, listing, keep, i, kept, files)
      {
        PruneTurn(all, listing, keep, i, kept, files);
        if listing[i].kind.PreRestore? { continue; }
        kept := kept + 1;
        if kept <= keep { continue; }
        files := Filter(files, Without([listing[i]]));
      }
      PruneEnds(all, order, keep, kept, files);
    }

    /** Take a backup of the live database at `stamp`; `now` is the clock, `valid` the check of the copy. */
    method CreateBackup(prefix: Kind, stamp: nat, now: int, database: Image, valid: bool, order: seq<Archive>)
      returns (result: Result<Archive>)
      requires DistinctNames(files)
      requires !NameTaken(files, Filename(prefix, stamp)) ==>
        DistinctNames(order) && SameFiles(files + [Made(prefix, stamp, now, database)], order)
      modifies this
      ensures var archive := Made(prefix, stamp, now, database);
        if NameTaken(old(files), archive.name) then result == Fail(FileExists) && files == old(files)
        else if !valid then result == Fail(Invalid) && files == old(files)
        else
          && files == Pruned(old(files) + [archive], order, keep)
          && result == (if archive in files then Ok(archive) else Fail(NotFound))
      ensures result.Ok? ==> IsBackupOf(result.value, prefix, stamp, now, database) && result.value in files
      ensures valid && !NameTaken(old(files), Filename(prefix, stamp)) && SurelyKept(old(files), prefix, now, keep) ==> result.Ok?
      ensures forall a :: a in files ==> a in old(files) || IsBackupOf(a, prefix, stamp, now, database)
    {
      for i := 0 to |files|
        invariant forall k :: 0 <= k < i ==> files[k].name != Filename(prefix, stamp)
      {
        if files[i].name == Filename(prefix, stamp) { return Fail(FileExists); }
      }
      if !valid { return Fail(Invalid); }
      var archive := Made(prefix, stamp, now, database);
      NewBackupIsKept(files, archive, order, keep);
      files := files + [archive];
      PruneBackups(order);
      result := if archive in files then Ok(archive) else Fail(NotFound);
    }
  }

  predicate NameTaken(files: seq<Archive>, name: Filename) {
    exists i :: 0 <= i < |files| && files[i].name == name
  }

  /** The safety backup of a restore is never lost to the retention it triggers, whatever the clock says. */
  lemma SafetyBackupIsKept(files: seq<Archive>, stamp: nat, now: int, database: Image, order: seq<Archive>, keep: nat)
    requires DistinctNames(files) && DistinctNames(order) && !NameTaken(files, Filename(PreRestore, stamp))
    requires SameFiles(files + [Made(PreRestore, stamp, now, database)], order)
    ensures Made(PreRestore, stamp, now, database) in Pruned(files + [Made(PreRestore, stamp, now, database)], order, keep)
  {
    var archive := Made(PreRestore, stamp, now, database);
    assert (files + [archive])[|files|] == archive;
    OnlySurplusIsPruned(files + [archive], order, keep, archive);
  }

  /** The archive is a sound backup of this database, of this kind, named and dated as asked. */
  predicate IsBackupOf(a: Archive, kind: Kind, stamp: nat, now: int, database: Image) {
    && a.name.prefix == kind && a.name.stamp == stamp && a.kind == kind && a.createdAt == now
    && a.database == database && a.readable && a.intact
  }

  /** A backup taken before a restore, or one newer than every ordinary archive where at least one is kept. */
  ghost predicate SurelyKept(files: seq<Archive>, kind: Kind, now: int, keep: nat) {
    || kind == PreRestore
    || (keep > 0 && forall i :: 0 <= i < |files| && files[i].readable && files[i].kind == Ordinary ==> files[i].createdAt < now)
  }

  /** Such a backup outlives the pruning it sets off; and pruning leaves only what was there and the backup. */
  lemma NewBackupIsKept(files: seq<Archive>, a: Archive, order: seq<Archive>, keep: nat)
    requires DistinctNames(files + [a]) && DistinctNames(order) && SameFiles(files + [a], order)
    ensures a.readable && SurelyKept(files, a.kind, a.createdAt, keep) ==> a in Pruned(files + [a], order, keep)
    ensures forall b :: b in Pruned(files + [a], order, keep) ==> b in files || b == a
  {
    var all, ranking := files + [a], Ranking(order);
    assert all[|files|] == a;
    FilterMembers(all, Retained(order, keep));
    OnlySurplusIsPruned(all, order, keep, a);
    if a.readable && a.kind.Ordinary? && SurelyKept(files, a.kind, a.createdAt, keep) && |ranking| > keep {
      RankedCounts(order, 0);
      DroppedFromTheEnd(order, keep, 0);
      ReorderedMembers(all, order);
      assert ranking[0] in all;
      if ranking[0] != a {
        var i :| 0 <= i < |files| && files[i] == ranking[0];
        assert files[i].createdAt < a.createdAt;
      }
    }
  }

  function Made(prefix: Kind, stamp: nat, now: int, database: Image): Archive {
    Archive(Filename(prefix, stamp), true, true, prefix, now, database)
  }

  function Without(gone: seq<Archive>): Archive -> bool {
    (a: Archive) => a !in gone
  }

  /** The ordinary archives beyond the first `keep` of a listing. */
  function Beyond(listing: seq<Archive>, keep: nat): seq<Archive> {
    var ranking := Filter(listing, IsOrdinary);
    if |ranking| <= keep then [] else ranking[keep..]
  }

  lemma BeyondGrows(listing: seq<Archive>, i: nat, keep: nat)
    requires i < |listing|
    ensures Filter(listing[..i + 1], IsOrdinary)
      == Filter(listing[..i], IsOrdinary) + if IsOrdinary(listing[i]) then [listing[i]] else []
    ensures Beyond(listing[..i + 1], keep) == Beyond(listing[..i], keep)
      + if IsOrdinary(listing[i]) && |Filter(listing[..i], IsOrdinary)| >= keep then [listing[i]] else []
  {
    assert listing[..i + 1] == listing[..i] + [listing[i]];
    FilterAppend(listing[..i], listing[i], IsOrdinary);
  }

  lemma OneMoreGone(files: seq<Archive>, gone: seq<Archive>, a: Archive)
    ensures Filter(Filter(files, Without(gone)), Without([a])) == Filter(files, Without(gone + [a]))
  {
    FilterBoth(files, Without(gone), Without([a]));
    FilterSame(files, Both(Without(gone), Without([a])), Without(gone + [a]));
  }
}
