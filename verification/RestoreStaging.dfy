/** Staging a database restore and applying it at the next start, with a crash possible between any two
    file operations. Each function of states lists the files after every single operation. */
module RestoreStaging {
  import opened Basics
  import opened BackupRetention
  import S = Sequences

  /** The write-ahead log beside the live file: nothing left to apply, or changes on top of one image. */
  datatype Wal = NoWal | Checkpointed | Pending(base: Image, applied: Image)
  datatype Temp = NoTemp | Partial | Whole(image: Image)
  datatype Files = Files(live: Option<Image>, wal: Wal, shm: bool, staged: Option<Image>, temp: Temp)

  /** What a reader of the live database gets: a log that belongs to another image garbles it. */
  datatype Content = Missing | Is(image: Image) | Garbled

  function Logical(f: Files): Content {
    if f.live.None? then Missing
    else if f.wal.Pending? then if f.wal.base == f.live.value then Is(f.wal.applied) else Garbled
    else Is(f.live.value)
  }

  /** The copy a backup takes of the live database: all it reads as, log included. Of a missing file SQLite
      makes an empty database, and a garbled one cannot be copied; neither passes for a Kapowarr database. */
  function Snapshot(f: Files): Image {
    match Logical(f)
    case Is(image) => image
    case Missing => Image(0, true, true, None)
    case Garbled => Image(0, false, false, None)
  }

  /** The log belongs to the live file and leaves it openable. */
  predicate Consistent(f: Files) {
    f.wal.Pending? ==> f.live == Some(f.wal.base) && (f.wal.base.opens ==> f.wal.applied.opens)
  }

  predicate StagedIsSound(f: Files, latest: nat) {
    f.staged.Some? ==> Valid(f.staged.value, latest)
  }

  // ---------------------------------------------------------------- the operations

  function Checkpoint(f: Files): Files {
    if f.live.None? then f
    else f.(live := Some(if f.wal.Pending? && f.wal.base == f.live.value then f.wal.applied else f.live.value),
            wal := Checkpointed, shm := true)
  }

  function RemoveWal(f: Files): Files {
    f.(wal := NoWal)
  }

  function RemoveShm(f: Files): Files {
    f.(shm := false)
  }

  function Replace(f: Files): Files {
    f.(live := f.staged, staged := None)
  }

  function Discard(f: Files): Files {
    f.(staged := None)
  }

  /** Start-up applies a staged restore that validates; otherwise the stage is removed. */
  predicate Applies(f: Files, latest: nat) {
    f.staged.Some? && Valid(f.staged.value, latest) && (f.live.Some? ==> f.live.value.opens)
  }

  /** The files after each operation of a start. */
  function StartStates(f: Files, latest: nat): seq<Files> {
    if f.staged.None? then []
    else if !Applies(f, latest) then [Discard(f)]
    else
      var a := Checkpoint(f);
      var b := RemoveWal(a);
      var c := RemoveShm(b);
      [a, b, c, Replace(c)]
  }

  function Started(f: Files, latest: nat): Files {
    var states := StartStates(f, latest);
    if states == [] then f else states[|states| - 1]
  }

  /** The files after each operation of staging `source`. */
  function StageStates(f: Files, source: Image, latest: nat): seq<Files> {
    [f.(temp := Partial), f.(temp := Whole(source)),
     if Valid(source, latest) then f.(temp := NoTemp, staged := Some(source)) else f.(temp := NoTemp)]
  }

  // ---------------------------------------------------------------- crashes

  /** Wherever a start is cut off, the database reads as before with the stage intact, or the stage was
      found unusable and only removed, or the replacement has happened and it reads exactly as staged. */
  lemma EveryCrashPointIsSafe(f: Files, latest: nat, k: nat)
    requires Consistent(f) && k < |StartStates(f, latest)|
    ensures var s := StartStates(f, latest)[k];
      && Consistent(s)
      && (if Applies(f, latest) then
            if k < 3 then Logical(s) == Logical(f) && s.staged == f.staged
            else Logical(s) == Is(f.staged.value) && s.staged.None? && s.wal.NoWal?
          else Logical(s) == Logical(f) && s.staged.None?)
  {
  }

  /** Starting again after a cut-off start ends in the very files an uninterrupted start ends in. */
  lemma RestartConverges(f: Files, latest: nat, k: nat)
    requires Consistent(f) && k < |StartStates(f, latest)|
    ensures Started(StartStates(f, latest)[k], latest) == Started(f, latest)
  {
  }

  /** The files after a series of starts, each cut off after the given number of operations. */
  function Restarts(f: Files, latest: nat, cuts: seq<nat>): Files {
    if cuts == [] then f
    else
      var before, states := Restarts(f, latest, cuts[..|cuts| - 1]), StartStates(Restarts(f, latest, cuts[..|cuts| - 1]), latest);
      var n := cuts[|cuts| - 1];
      if n == 0 || states == [] then before else states[if n <= |states| then n - 1 else |states| - 1]
  }

  /** However often start-up crashes, the first start that gets through reaches the same end state, and in
      between the database reads as before or exactly as staged. */
  lemma {:induction false} EveryRestartConverges(f: Files, latest: nat, cuts: seq<nat>)
    requires Consistent(f)
    ensures Consistent(Restarts(f, latest, cuts))
    ensures Started(Restarts(f, latest, cuts), latest) == Started(f, latest)
    ensures Logical(Restarts(f, latest, cuts)) == Logical(f)
      || (Applies(f, latest) && Logical(Restarts(f, latest, cuts)) == Is(f.staged.value))
    ensures Logical(Restarts(f, latest, cuts)) == Logical(f) || Restarts(f, latest, cuts).staged.None?
    ensures Restarts(f, latest, cuts).staged == f.staged || Restarts(f, latest, cuts).staged.None?
  {
    if cuts != [] {
      var before := Restarts(f, latest, cuts[..|cuts| - 1]);
      var states, n := StartStates(before, latest), cuts[|cuts| - 1];
      EveryRestartConverges(f, latest, cuts[..|cuts| - 1]);
      if n > 0 && states != [] {
        var k := if n <= |states| then n - 1 else |states| - 1;
        EveryCrashPointIsSafe(before, latest, k);
        RestartConverges(before, latest, k);
        if Applies(before, latest) { AppliesStays(f, latest, before); }
      }
    }
  }

  lemma AppliesStays(f: Files, latest: nat, s: Files)
    requires s.staged.Some? && s.staged == f.staged && Applies(s, latest)
    requires Consistent(s) && Consistent(f) && Started(s, latest) == Started(f, latest)
    ensures Applies(f, latest)
  {
  }

  /** Staging never touches the live database, whose content stays what it was at every point; the staged
      file is the old one, or absent, or a validated copy of the source. */
  lemma StagingIsSafe(f: Files, source: Image, latest: nat, k: nat)
    requires StagedIsSound(f, latest) && k < |StageStates(f, source, latest)|
    ensures var s := StageStates(f, source, latest)[k];
      && s.live == f.live && s.wal == f.wal && s.shm == f.shm && Logical(s) == Logical(f)
      && StagedIsSound(s, latest)
      && (s.staged == f.staged || (s.staged == Some(source) && Valid(source, latest)))
  {
  }

  /** Stage, crash after any file operation, restart any number of times: once a start gets through, the database
      is the image that was staged at the crash, if the live file could be opened, and else what it was. That
      image is the source once the last operation was done and the source validated, and before that an earlier stage. */
  lemma StagedThenStarted(f: Files, source: Image, latest: nat, k: nat, cuts: seq<nat>)
    requires Consistent(f) && StagedIsSound(f, latest) && k < |StageStates(f, source, latest)|
    ensures var staged := if k == 2 && Valid(source, latest) then Some(source) else f.staged;
      && StageStates(f, source, latest)[k].staged == staged
      && Logical(Started(Restarts(StageStates(f, source, latest)[k], latest, cuts), latest)) ==
           if staged.Some? && (f.live.Some? ==> f.live.value.opens) then Is(staged.value) else Logical(f)
  {
    EveryRestartConverges(StageStates(f, source, latest)[k], latest, cuts);
  }

  /** A database of the program: SQLite opens it, its check passes, and its schema is known and not from the future. */
  predicate OfThisProgram(i: Image, latest: nat) {
    i.opens && i.sound && i.version.Some? && i.version.value <= latest
  }

  /** A start that gets through leaves no stage, and makes the database the staged image exactly when that is a database
      of the program and the live file, if there is one, can be opened; otherwise the database stays what it was. */
  lemma StartAppliesExactly(f: Files, latest: nat)
    requires Consistent(f) && f.staged.Some?
    ensures var t := Started(f, latest);
      && t.staged.None?
      && if OfThisProgram(f.staged.value, latest) && (f.live.None? || f.live.value.opens)
         then t.live == f.staged && Logical(t) == Is(f.staged.value)
         else t == f.(staged := None) && Logical(t) == Logical(f)
  {
    if Applies(f, latest) { EveryCrashPointIsSafe(f, latest, 3); } else { EveryCrashPointIsSafe(f, latest, 0); }
  }

  // ---------------------------------------------------------------- the procedures

  ghost predicate Usable(files: seq<Archive>, name: Filename, a: Archive) {
    a in files && a.name == name && a.readable && a.intact
  }

  /** The safety backup can be taken, and the retention it triggers removes the archive being restored. */
  ghost predicate LosesItsSource(files: seq<Archive>, name: Filename, safety: Archive, latest: nat, order: seq<Archive>, keep: nat) {
    && !NameTaken(files, safety.name) && Valid(safety.database, latest)
    && exists a :: Usable(files, name, a) && a !in Pruned(files + [safety], order, keep)
  }

  class Disk {
    var files: Files
    /** The files after every operation so far. */
    ghost var history: seq<Files>

    constructor (files: Files)
      ensures this.files == files && history == []
    {
      this.files := files;
      history := [];
    }

    method Write(f: Files)
      modifies this
      ensures files == f && history == old(history) + [f]
    {
      files := f;
      history := history + [f];
    }

    /** Apply a staged restore; false when validation or the checkpoint fails. */
    method ApplyPendingRestore(latest: nat) returns (ok: bool)
      modifies this
      ensures ok <==> old(files).staged.None? || Applies(old(files), latest)
      ensures ok ==> history == old(history) + StartStates(old(files), latest) && files == Started(old(files), latest)
      ensures !ok ==> history == old(history) && files == old(files)
    {
      if files.staged.None? { return true; }
      if !Valid(files.staged.value, latest) { return false; }
      if files.live.Some? && !files.live.value.opens { return false; }
      Write(Checkpoint(files));
      Write(files.(wal := NoWal));
      Write(files.(shm := false));
      Write(files.(live := files.staged, staged := None));
      return true;
    }

    /** The start of the program: a stage that cannot be applied is removed. */
    method StartUp(latest: nat)
      modifies this
      ensures history == old(history) + StartStates(old(files), latest) && files == Started(old(files), latest)
    {
      var ok := ApplyPendingRestore(latest);
      if !ok { Write(files.(staged := None)); }
    }

    method FindBackup(folder: BackupFolder, name: Filename) returns (found: Option<Archive>)
      ensures found.Some? ==> found.value in folder.files && found.value.name == name
      ensures found.None? <==> !NameTaken(folder.files, name)
    {
      for i := 0 to |folder.files|
        invariant forall k :: 0 <= k < i ==> folder.files[k].name != name
      {
        if folder.files[i].name == name { return Some(folder.files[i]); }
      }
      return None;
    }

    /** Copy a source into a temporary file beside the database, validate it, move it into place. */
    method Stage(source: Image, latest: nat) returns (ok: bool)
      modifies this
      ensures ok <==> OfThisProgram(source, latest)
      ensures files.staged == if OfThisProgram(source, latest) then Some(source) else old(files).staged
      ensures history == old(history) + StageStates(old(files), source, latest)
      ensures files == StageStates(old(files), source, latest)[2]
    {
      Write(files.(temp := Partial));
      Write(files.(temp := Whole(source)));
      if !Valid(source, latest) {
        Write(files.(temp := NoTemp));
        return false;
      }
      Write(files.(staged := Some(source), temp := NoTemp));
      return true;
    }

    /** Stage a saved backup for the next start, after a safety backup of the current state. */
    method StageRestore(folder: BackupFolder, name: Option<Filename>, stamp: nat, now: int,
                        latest: nat, order: seq<Archive>) returns (result: Result<Archive>)
      requires DistinctNames(folder.files)
      requires !NameTaken(folder.files, Filename(PreRestore, stamp)) ==>
        DistinctNames(order) && SameFiles(folder.files + [Made(PreRestore, stamp, now, Snapshot(files))], order)
      modifies this, folder
      ensures result.Ok? ==> Logical(old(files)) == Is(result.value.database) && OfThisProgram(result.value.database, latest)
      ensures result.Ok? ==>
        && name.Some? && result.value == Made(PreRestore, stamp, now, Snapshot(old(files))) && result.value in folder.files
        && exists a ::
          && Usable(old(folder.files), name.value, a) && OfThisProgram(a.database, latest) && a in folder.files
          && files.staged == Some(a.database)
          && history == old(history) + StageStates(old(files), a.database, latest)
          && files == StageStates(old(files), a.database, latest)[2]
      ensures result.Ok? <==>
        && name.Some? && !NameTaken(old(folder.files), Filename(PreRestore, stamp))
        && OfThisProgram(Snapshot(old(files)), latest)
        && exists a :: Usable(old(folder.files), name.value, a) && OfThisProgram(a.database, latest) && a in folder.files
      ensures result.Fail? ==>
        files == old(files).(temp := files.temp) && (files.temp == old(files).temp || files.temp == NoTemp)
      ensures result == Fail(NotFound) <==>
        && name.Some?
        && (!NameTaken(old(folder.files), name.value)
            || LosesItsSource(old(folder.files), name.value, Made(PreRestore, stamp, now, Snapshot(old(files))), latest, order, folder.keep))
    {
      if name.None? { return Fail(Invalid); }
      var source := FindBackup(folder, name.value);
      if source.None? { return Fail(NotFound); }
      ghost var before := folder.files;
      var current := Snapshot(files);
      OneOfAName(before, source.value);
      if !source.value.readable || !source.value.intact { return Fail(Invalid); }
      var safety := folder.CreateBackup(PreRestore, stamp, now, current, Valid(current, latest), order);
      if !NameTaken(before, Filename(PreRestore, stamp)) {
        SafetyBackupIsKept(before, stamp, now, current, order, folder.keep);
      }
      if safety.Fail? { return safety; }
      if source.value !in folder.files { return Fail(NotFound); }
      var ok := Stage(source.value.database, latest);
      if !ok { return Fail(Invalid); }
      return safety;
    }
  }

  lemma OneOfAName(files: seq<Archive>, a: Archive)
    requires DistinctNames(files) && a in files
    ensures forall b :: b in files && b.name == a.name ==> b == a
  {
  }

  /** With no tie in age, the safety backup costs a restore its source exactly when the source is an ordinary
      archive that already has as many newer ones as retention keeps. */
  lemma SourceLostExactly(files: seq<Archive>, a: Archive, safety: Archive, latest: nat, order: seq<Archive>, keep: nat)
    requires DistinctNames(files) && Usable(files, a.name, a) && NoTie(files, a)
    requires safety.kind.PreRestore? && !NameTaken(files, safety.name) && Valid(safety.database, latest)
    requires DistinctNames(order) && SameFiles(files + [safety], order)
    ensures LosesItsSource(files, a.name, safety, latest, order, keep)
      <==> a.kind.Ordinary? && |S.Filter(files, Newer(a))| >= keep
  {
    OneOfAName(files, a);
    SourceSurvivesExactly(files, order, keep, a, safety);
  }
}
