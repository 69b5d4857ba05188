/** Cleaning up empty folders below and above a place in the folder tree. A folder is its list of entries
    in scan order; `Other` stands for entries that are neither folder nor file, such as broken links. */
module FolderPruning {
  import opened Basics

  datatype Name = Name(text: string)
  datatype Entry = File(name: Name) | Other(name: Name) | Folder(name: Name, entries: seq<Entry>)
  type Entries = seq<Entry>
  type Path = seq<Name>

  /** Names are unique within every folder. */
  predicate WellFormed(es: Entries)
    decreases es, 1
  {
    (forall i, k :: 0 <= i < k < |es| ==> es[i].name != es[k].name) && AllWellFormed(es)
  }

  predicate AllWellFormed(es: Entries)
    decreases es, 0
  {
    es == [] || ((es[0].Folder? ==> WellFormed(es[0].entries)) && AllWellFormed(es[1..]))
  }

  /** No file at any depth. */
  predicate FileFree(es: Entries) {
    es == [] || (!es[0].File? && (es[0].Folder? ==> FileFree(es[0].entries)) && FileFree(es[1..]))
  }

  predicate Hollow(e: Entry) {
    e.Folder? && FileFree(e.entries)
  }

  function Find(es: Entries, name: Name): (r: Option<Entry>)
    ensures r.Some? ==> r.value in es && r.value.name == name
  {
    if es == [] then None else if es[0].name == name then Some(es[0]) else Find(es[1..], name)
  }

  /** The entry at a non-empty path. */
  function At(es: Entries, p: Path): Option<Entry>
    requires p != []
    decreases |p|
  {
    var e := Find(es, p[0]);
    if |p| == 1 || e.None? then e
    else if e.value.Folder? then At(e.value.entries, p[1..]) else None
  }

  predicate HollowAt(es: Entries, p: Path) {
    p != [] && At(es, p).Some? && Hollow(At(es, p).value)
  }

  // ---------------------------------------------------------------- child folders: what is collected

  /** The hollow ones among the first n entries. */
  function Direct(es: Entries, n: nat, here: Path): seq<Path>
    requires n <= |es|
  {
    if n == 0 then [] else Direct(es, n - 1, here) + if Hollow(es[n - 1]) then [here + [es[n - 1].name]] else []
  }

  /** What the scan of those among the first n entries collects that are folders but not hollow. */
  function Deep(es: Entries, n: nat, here: Path): seq<Path>
    requires n <= |es|
    decreases es, n
  {
    if n == 0 then []
    else
      var e := es[n - 1];
      Deep(es, n - 1, here) + if e.Folder? && !Hollow(e) then Below(e.entries, here + [e.name]) else []
  }

  function Below(es: Entries, here: Path): seq<Path>
    decreases es, |es| + 1
  {
    Deep(es, |es|, here) + Direct(es, |es|, here)
  }

  predicate AnyFile(es: Entries) {
    exists k :: 0 <= k < |es| && es[k].File?
  }

  predicate AnyFolder(es: Entries) {
    exists k :: 0 <= k < |es| && es[k].Folder?
  }

  predicate AllHollow(es: Entries) {
    forall k :: 0 <= k < |es| && es[k].Folder? ==> Hollow(es[k])
  }

  /** The recursive scan with its shared accumulator. */
  class Scanner {
    var resulting: seq<Path>

    constructor ()
      ensures resulting == []
    {
      resulting := [];
    }

    method Scandir(es: Entries) returns (files: bool, folders: bool)
      ensures files == AnyFile(es) && folders == AnyFolder(es)
    {
      files, folders := false, false;
      for i := 0 to |es|
        invariant files <==> exists k :: 0 <= k < i && es[k].File?
        invariant folders <==> exists k :: 0 <= k < i && es[k].Folder?
      {
        if es[i].Folder? { folders := true; } else if es[i].File? { files := true; }
      }
    }

    method Decf(es: Entries, here: Path, first: bool) returns (free: bool)
      modifies this
      ensures free == FileFree(es)
      ensures resulting == old(resulting) + if free && !first then [] else Below(es, here)
      decreases es, 1
    {
      ghost var was := resulting;
      var containsFiles, containsFolders := Scandir(es);
      ScanVerdict(es, here);
      if !containsFiles && !containsFolders { return true; }
      var empties, allEmpty := SubFolders(es, here);
      Joining(was, Deep(es, |es|, here), empties, Below(es, here));
      if !containsFiles && allEmpty {
        if first { resulting := resulting + empties; }
        return true;
      }
      resulting := resulting + empties;
      return false;
    }

    /** Scan every sub-folder; the hollow ones are kept apart from the shared result. */
    method SubFolders(es: Entries, here: Path) returns (empties: seq<Path>, allEmpty: bool)
      modifies this
      ensures resulting == old(resulting) + Deep(es, |es|, here)
      ensures empties == Direct(es, |es|, here)
      ensures allEmpty == AllHollow(es)
      decreases es, 0
    {
      empties, allEmpty := [], true;
      ghost var was, deep: seq<Path> := resulting, [];
      for i := 0 to |es|
        invariant resulting == was + deep && deep == Deep(es, i, here) && empties == Direct(es, i, here)
        invariant allEmpty <==> forall k :: 0 <= k < i && es[k].Folder? ==> Hollow(es[k])
      {
        ScanOne(es, i, here);
        if es[i].Folder? {
          var empty := Decf(es[i].entries, here + [es[i].name], false);
          if empty {
            empties := empties + [here + [es[i].name]];
          } else {
            allEmpty := false;
            deep := deep + Below(es[i].entries, here + [es[i].name]);
          }
        }
      }
    }
  }

  lemma Joining(was: seq<Path>, deep: seq<Path>, direct: seq<Path>, below: seq<Path>)
    requires below == deep + direct
    ensures (was + deep) + direct == was + below
    ensures deep == [] ==> was + deep == was
  {
  }

  /** What one more entry adds to the two collections. */
  lemma ScanOne(es: Entries, i: nat, here: Path)
    requires i < |es|
    ensures Deep(es, i + 1, here) == Deep(es, i, here)
      + if es[i].Folder? && !Hollow(es[i]) then Below(es[i].entries, here + [es[i].name]) else []
    ensures Direct(es, i + 1, here) == Direct(es, i, here) + if Hollow(es[i]) then [here + [es[i].name]] else []
  {
  }

  /** What the flags of the scan say about the folder. */
  lemma ScanVerdict(es: Entries, here: Path)
    ensures FileFree(es) <==> !AnyFile(es) && AllHollow(es)
    ensures !AnyFolder(es) ==> AllHollow(es) && Below(es, here) == []
    ensures FileFree(es) ==> Below(es, here) == Direct(es, |es|, here) && Deep(es, |es|, here) == []
    ensures Below(es, here) == Deep(es, |es|, here) + Direct(es, |es|, here)
  {
    FreeIff(es);
    if !AnyFolder(es) { NoFolders(es, |es|, here); }
    if FileFree(es) { NothingDeep(es, |es|, here); }
  }

  lemma {:induction false} FreeIff(es: Entries)
    ensures FileFree(es) <==> !AnyFile(es) && AllHollow(es)
    ensures !AnyFolder(es) ==> AllHollow(es)
  {
    if es != [] {
      var rest := es[1..];
      FreeIff(rest);
      if AnyFile(rest) { var k :| 0 <= k < |rest| && rest[k].File?; assert es[k + 1].File?; }
      if AllHollow(es) { forall k | 0 <= k < |rest| && rest[k].Folder? ensures Hollow(rest[k]) { assert rest[k] == es[k + 1]; } }
      forall k | 0 < k < |es| ensures es[k] == rest[k - 1] {}
    }
  }

  lemma {:induction false} NoFolders(es: Entries, n: nat, here: Path)
    requires !AnyFolder(es) && n <= |es|
    ensures Deep(es, n, here) == [] && Direct(es, n, here) == []
  {
    if n > 0 { NoFolders(es, n - 1, here); }
  }

  lemma {:induction false} NothingDeep(es: Entries, n: nat, here: Path)
    requires AllHollow(es) && n <= |es|
    ensures Deep(es, n, here) == []
  {
    if n > 0 { NothingDeep(es, n - 1, here); }
  }

  // ---------------------------------------------------------------- what is collected

  /** A hollow folder no folder on the way to which is hollow. */
  ghost predicate Maximal(es: Entries, p: Path) {
    HollowAt(es, p) && forall k :: 0 < k < |p| ==> !HollowAt(es, p[..k])
  }

  lemma AtStep(es: Entries, name: Name, rest: Path)
    requires rest != []
    ensures HollowAt(es, [name] + rest) <==>
      Find(es, name).Some? && Find(es, name).value.Folder? && HollowAt(Find(es, name).value.entries, rest)
  {
    assert ([name] + rest)[1..] == rest;
  }

  /** The first step of a path either ends it or leads into a folder that is not hollow. */
  lemma MaximalStep(es: Entries, p: Path)
    requires p != []
    ensures Maximal(es, p) <==>
      && Find(es, p[0]).Some? && Find(es, p[0]).value.Folder?
      && if |p| == 1 then Hollow(Find(es, p[0]).value)
         else !Hollow(Find(es, p[0]).value) && Maximal(Find(es, p[0]).value.entries, p[1..])
  {
    assert p == [p[0]] + p[1..];
    if |p| > 1 {
      AtStep(es, p[0], p[1..]);
      assert p[..1] == [p[0]];
      forall k | 0 < k < |p| - 1 ensures p[..k + 1] == [p[0]] + p[1..][..k] {}
      forall k | 0 < k < |p| - 1
        ensures HollowAt(es, p[..k + 1]) <==>
          Find(es, p[0]).Some? && Find(es, p[0]).value.Folder? && HollowAt(Find(es, p[0]).value.entries, p[1..][..k])
      {
        AtStep(es, p[0], p[1..][..k]);
      }
      forall k | 1 < k < |p| ensures p[..k] == p[..(k - 1) + 1] {}
      if Maximal(es, p) {
        assert !HollowAt(es, p[..1]);
        forall k | 0 < k < |p| - 1 ensures !HollowAt(Find(es, p[0]).value.entries, p[1..][..k]) {
          assert !HollowAt(es, p[..k + 1]);
        }
      }
      if Find(es, p[0]).Some? && Find(es, p[0]).value.Folder? && !Hollow(Find(es, p[0]).value)
         && Maximal(Find(es, p[0]).value.entries, p[1..]) {
        forall k | 0 < k < |p| ensures !HollowAt(es, p[..k]) {
          if k > 1 { assert !HollowAt(Find(es, p[0]).value.entries, p[1..][..k - 1]); }
        }
      }
    }
  }

  lemma {:induction false} FindIs(es: Entries, k: nat)
    requires WellFormed(es) && k < |es|
    ensures Find(es, es[k].name) == Some(es[k])
  {
    FindFirst(es, k);
  }

  lemma {:induction false} FindFirst(es: Entries, k: nat)
    requires k < |es| && forall i :: 0 <= i < k ==> es[i].name != es[k].name
    ensures Find(es, es[k].name) == Some(es[k])
  {
    if k > 0 { FindFirst(es[1..], k - 1); }
  }

  lemma {:induction false} WellFormedInside(es: Entries, k: nat)
    requires AllWellFormed(es) && k < |es| && es[k].Folder?
    ensures WellFormed(es[k].entries)
  {
    if k > 0 { WellFormedInside(es[1..], k - 1); }
  }

  predicate CollectedIn(e: Entry, here: Path, p: Path) {
    e.Folder? && !Hollow(e) && p in Below(e.entries, here + [e.name])
  }

  lemma {:induction false} CollectedFrom(es: Entries, n: nat, here: Path, p: Path) returns (k: nat)
    requires n <= |es| && p in Deep(es, n, here)
    ensures k < n && CollectedIn(es[k], here, p)
  {
    if CollectedIn(es[n - 1], here, p) { k := n - 1; } else { k := CollectedFrom(es, n - 1, here, p); }
  }

  lemma InJoin(whole: seq<Path>, before: seq<Path>, part: seq<Path>, mid: seq<Path>, p: Path)
    requires mid == before + part && mid <= whole && p in part
    ensures p in whole
  {
    var i :| 0 <= i < |part| && part[i] == p;
    assert whole[|before| + i] == mid[|before| + i] == p;
  }

  lemma {:induction false} DeepGrows(es: Entries, m: nat, n: nat, here: Path)
    requires m <= n <= |es|
    ensures Deep(es, m, here) <= Deep(es, n, here)
    decreases n
  {
    if m < n {
      DeepGrows(es, m, n - 1, here);
      ScanOne(es, n - 1, here);
    }
  }

  lemma CollectedInto(es: Entries, n: nat, here: Path, p: Path, k: nat)
    requires k < n <= |es| && CollectedIn(es[k], here, p)
    ensures p in Deep(es, n, here)
  {
    ScanOne(es, k, here);
    DeepGrows(es, k + 1, n, here);
    InJoin(Deep(es, n, here), Deep(es, k, here), Below(es[k].entries, here + [es[k].name]), Deep(es, k + 1, here), p);
  }

  lemma {:induction false} DirectFrom(es: Entries, n: nat, here: Path, p: Path) returns (k: nat)
    requires n <= |es| && p in Direct(es, n, here)
    ensures k < n && Hollow(es[k]) && p == here + [es[k].name]
  {
    if p in Direct(es, n - 1, here) { k := DirectFrom(es, n - 1, here, p); } else { k := n - 1; }
  }

  lemma {:induction false} DirectInto(es: Entries, n: nat, here: Path, k: nat)
    requires k < n <= |es| && Hollow(es[k])
    ensures here + [es[k].name] in Direct(es, n, here)
  {
    if k < n - 1 { DirectInto(es, n - 1, here, k); }
  }

  lemma PathStep(here: Path, name: Name, p: Path)
    ensures here + [name] <= p <==> here <= p && |p| > |here| && p[|here|] == name
    ensures here + [name] <= p ==> p[|here|..] == [name] + p[|here| + 1..] && p[|here + [name]|..] == p[|here| + 1..]
  {
  }

  /** The scan collects exactly the maximal hollow folders below the place it started from. */
  lemma {:induction false} CollectedExactly(es: Entries, here: Path, p: Path)
    requires WellFormed(es)
    ensures p in Below(es, here) <==> here <= p && Maximal(es, p[|here|..])
    decreases es
  {
    if p in Below(es, here) {
      if p in Direct(es, |es|, here) {
        var k := DirectFrom(es, |es|, here, p);
        FindIs(es, k);
        assert p[|here|..] == [es[k].name];
        MaximalStep(es, p[|here|..]);
      } else {
        var k := CollectedFrom(es, |es|, here, p);
        FindIs(es, k);
        WellFormedInside(es, k);
        CollectedExactly(es[k].entries, here + [es[k].name], p);
        PathStep(here, es[k].name, p);
        MaximalStep(es, p[|here|..]);
      }
    }
    if here <= p && Maximal(es, p[|here|..]) {
      var rel := p[|here|..];
      MaximalStep(es, rel);
      var e := Find(es, rel[0]).value;
      var k :| 0 <= k < |es| && es[k] == e;
      PathStep(here, e.name, p);
      if |rel| == 1 {
        assert p == here + [e.name];
        DirectInto(es, |es|, here, k);
      } else {
        WellFormedInside(es, k);
        CollectedExactly(e.entries, here + [e.name], p);
        CollectedInto(es, |es|, here, p, k);
      }
    }
  }

  /** No collected folder lies inside another. */
  lemma CollectedAreApart(es: Entries, p: Path, q: Path)
    requires WellFormed(es) && p in Below(es, []) && q in Below(es, []) && p <= q
    ensures p == q
  {
    CollectedExactly(es, [], p);
    CollectedExactly(es, [], q);
    assert p[0..] == p && q[0..] == q;
    assert q[..|p|] == p;
  }

  // ---------------------------------------------------------------- deleting

  /** The tree without what stands at the given paths. */
  function Remove(es: Entries, here: Path, gone: seq<Path>): Entries {
    if es == [] then []
    else
      (if here + [es[0].name] in gone then []
       else if es[0].Folder? then [Folder(es[0].name, Remove(es[0].entries, here + [es[0].name], gone))]
       else [es[0]])
      + Remove(es[1..], here, gone)
  }

  /** The tree without its hollow folders. */
  function Cleaned(es: Entries): Entries {
    if es == [] then []
    else
      (if Hollow(es[0]) then [] else if es[0].Folder? then [Folder(es[0].name, Cleaned(es[0].entries))] else [es[0]])
      + Cleaned(es[1..])
  }

  /** The files below, as paths, in scan order. */
  function Files(es: Entries, here: Path): seq<Path> {
    if es == [] then []
    else
      (if es[0].File? then [here + [es[0].name]]
       else if es[0].Folder? then Files(es[0].entries, here + [es[0].name]) else [])
      + Files(es[1..], here)
  }

  lemma {:induction false} FreeHasNoFiles(es: Entries, here: Path)
    ensures FileFree(es) <==> Files(es, here) == []
  {
    if es != [] {
      if es[0].Folder? { FreeHasNoFiles(es[0].entries, here + [es[0].name]); }
      FreeHasNoFiles(es[1..], here);
    }
  }

  /** Cleaning loses no file. */
  lemma {:induction false} CleaningKeepsFiles(es: Entries, here: Path)
    ensures Files(Cleaned(es), here) == Files(es, here)
  {
    if es != [] {
      var e, rest := es[0], Cleaned(es[1..]);
      CleaningKeepsFiles(es[1..], here);
      if Hollow(e) {
        FreeHasNoFiles(e.entries, here + [e.name]);
        assert Cleaned(es) == rest;
      } else if e.Folder? {
        CleaningKeepsFiles(e.entries, here + [e.name]);
        assert ([Folder(e.name, Cleaned(e.entries))] + rest)[1..] == rest;
      } else {
        assert ([e] + rest)[1..] == rest;
      }
    }
  }

  lemma CleaningKeepsHollowness(es: Entries)
    ensures FileFree(Cleaned(es)) <==> FileFree(es)
  {
    CleaningKeepsFiles(es, []);
    FreeHasNoFiles(es, []);
    FreeHasNoFiles(Cleaned(es), []);
  }

  lemma {:induction false} FindCleaned(es: Entries, name: Name) returns (k: nat)
    requires Find(Cleaned(es), name).Some?
    ensures k < |es| && !Hollow(es[k])
    ensures Find(Cleaned(es), name).value == if es[k].Folder? then Folder(es[k].name, Cleaned(es[k].entries)) else es[k]
  {
    var e, rest := es[0], Cleaned(es[1..]);
    if Hollow(e) {
      assert Cleaned(es) == rest;
      var j := FindCleaned(es[1..], name);
      k := j + 1;
    } else {
      var kept := if e.Folder? then Folder(e.name, Cleaned(e.entries)) else e;
      assert ([kept] + rest)[1..] == rest;
      if e.name == name { k := 0; } else {
        var j := FindCleaned(es[1..], name);
        k := j + 1;
      }
    }
  }

  /** After cleaning there is no hollow folder at any path. */
  lemma {:induction false} NoHollowFolderIsLeft(es: Entries, p: Path)
    ensures !HollowAt(Cleaned(es), p)
    decreases |p|
  {
    if HollowAt(Cleaned(es), p) {
      var k := FindCleaned(es, p[0]);
      CleaningKeepsHollowness(es[k].entries);
      if |p| > 1 { NoHollowFolderIsLeft(es[k].entries, p[1..]); }
    }
  }

  /** Deleting one list of paths after another is deleting both. */
  lemma {:induction false} RemoveTwice(es: Entries, here: Path, gone: seq<Path>, more: seq<Path>)
    ensures Remove(Remove(es, here, gone), here, more) == Remove(es, here, gone + more)
  {
    if es != [] {
      var e, rest := es[0], Remove(es[1..], here, gone);
      RemoveTwice(es[1..], here, gone, more);
      if here + [e.name] !in gone {
        if e.Folder? {
          var kept := Folder(e.name, Remove(e.entries, here + [e.name], gone));
          RemoveTwice(e.entries, here + [e.name], gone, more);
          assert ([kept] + rest)[1..] == rest;
        } else {
          assert ([e] + rest)[1..] == rest;
        }
      } else {
        assert Remove(es, here, gone) == rest;
      }
    }
  }

  /** Below this place `gone` names exactly the maximal hollow folders. */
  ghost predicate NamesMaximal(es: Entries, here: Path, gone: seq<Path>) {
    forall rel: Path :: rel != [] ==> (here + rel in gone <==> Maximal(es, rel))
  }

  lemma NamesInside(es: Entries, here: Path, gone: seq<Path>, k: nat)
    requires WellFormed(es) && k < |es| && NamesMaximal(es, here, gone) && es[k].Folder? && !Hollow(es[k])
    ensures NamesMaximal(es[k].entries, here + [es[k].name], gone)
  {
    FindIs(es, k);
    forall rel: Path | rel != [] ensures here + [es[k].name] + rel in gone <==> Maximal(es[k].entries, rel) {
      var longer := [es[k].name] + rel;
      assert here + [es[k].name] + rel == here + longer;
      MaximalStep(es, longer);
      assert longer[1..] == rel;
    }
  }

  lemma NamesHere(es: Entries, here: Path, gone: seq<Path>, k: nat)
    requires WellFormed(es) && k < |es| && NamesMaximal(es, here, gone)
    ensures here + [es[k].name] in gone <==> Hollow(es[k])
  {
    FindIs(es, k);
    MaximalStep(es, [es[k].name]);
    assert here + [es[k].name] in gone <==> Maximal(es, [es[k].name]);
  }

  /** Deleting the maximal hollow folders leaves the tree cleaned of all hollow folders. */
  lemma {:induction false} RemovingIsCleaning(es: Entries, here: Path, gone: seq<Path>, n: nat)
    requires WellFormed(es) && NamesMaximal(es, here, gone) && n <= |es|
    ensures Remove(es[n..], here, gone) == Cleaned(es[n..])
    decreases es, |es| - n
  {
    if n < |es| {
      RemovingIsCleaning(es, here, gone, n + 1);
      NamesHere(es, here, gone, n);
      assert es[n..][0] == es[n] && es[n..][1..] == es[n + 1..];
      if es[n].Folder? && !Hollow(es[n]) {
        NamesInside(es, here, gone, n);
        WellFormedInside(es, n);
        RemovingIsCleaning(es[n].entries, here + [es[n].name], gone, 0);
        assert es[n].entries[0..] == es[n].entries;
      }
    }
  }

  lemma CollectedNamesMaximal(es: Entries)
    requires WellFormed(es)
    ensures NamesMaximal(es, [], Below(es, []))
  {
    forall rel: Path | rel != [] ensures [] + rel in Below(es, []) <==> Maximal(es, rel) {
      CollectedExactly(es, [], rel);
      assert [] + rel == rel && rel[0..] == rel;
    }
  }

  /** Deleting what the scan collects leaves the tree without hollow folders. */
  lemma RemovingCollectedIsCleaning(es: Entries)
    requires WellFormed(es)
    ensures Remove(es, [], Below(es, [])) == Cleaned(es)
  {
    CollectedNamesMaximal(es);
    RemovingIsCleaning(es, [], Below(es, []), 0);
    assert es[0..] == es;
  }

  lemma RemoveOneMore(es: Entries, gone: seq<Path>, i: nat)
    requires i < |gone|
    ensures Remove(Remove(es, [], gone[..i]), [], [gone[i]]) == Remove(es, [], gone[..i + 1])
  {
    RemoveTwice(es, [], gone[..i], [gone[i]]);
    assert gone[..i + 1] == gone[..i] + [gone[i]];
  }

  /** Delete paths one at a time. */
  method DeleteAll(es: Entries, gone: seq<Path>) returns (result: Entries)
    ensures result == Remove(es, [], gone)
  {
    result := es;
    RemoveNothing(es, []);
    for i := 0 to |gone|
      invariant result == Remove(es, [], gone[..i])
    {
      RemoveOneMore(es, gone, i);
      result := Remove(result, [], [gone[i]]);
    }
    assert gone[..|gone|] == gone;
  }

  /** Delete the empty child folders of a folder with these entries. */
  method DeleteEmptyChildFolders(es: Entries) returns (result: Entries)
    requires WellFormed(es)
    ensures result == Cleaned(es)
  {
    var scanner := new Scanner();
    var free := scanner.Decf(es, [], true);
    result := DeleteAll(es, scanner.resulting);
    assert scanner.resulting == Below(es, []);
    RemovingCollectedIsCleaning(es);
  }

  lemma {:induction false} RemoveNothing(es: Entries, here: Path)
    ensures Remove(es, here, []) == es
  {
    if es != [] {
      if es[0].Folder? { RemoveNothing(es[0].entries, here + [es[0].name]); }
      RemoveNothing(es[1..], here);
      assert es == [es[0]] + es[1..];
    }
  }

  /** A second cleaning finds nothing to delete. */
  lemma {:induction false} CleaningIsIdempotent(es: Entries)
    ensures Cleaned(Cleaned(es)) == Cleaned(es)
  {
    if es != [] {
      var e, rest := es[0], Cleaned(es[1..]);
      CleaningIsIdempotent(es[1..]);
      if Hollow(e) {
        assert Cleaned(es) == rest;
      } else if e.Folder? {
        CleaningKeepsHollowness(e.entries);
        CleaningIsIdempotent(e.entries);
        assert ([Folder(e.name, Cleaned(e.entries))] + rest)[1..] == rest;
      } else {
        assert ([e] + rest)[1..] == rest;
      }
    }
  }

  // ---------------------------------------------------------------- parent folders

  datatype Error = RootMissing
  datatype Result<+T> = Ok(value: T) | Fail(error: Error)

  function NamesOf(es: Entries): (r: seq<Name>)
    ensures |r| == |es| && forall i :: 0 <= i < |r| ==> r[i] == es[i].name
  {
    seq(|es|, i requires 0 <= i < |es| => es[i].name)
  }

  /** Is there a folder at this absolute path? The empty path is the top of the file system. */
  predicate IsFolder(fs: Entries, p: Path) {
    p == [] || (At(fs, p).Some? && At(fs, p).value.Folder?)
  }

  predicate IsFile(fs: Entries, p: Path) {
    p != [] && At(fs, p).Some? && At(fs, p).value.File?
  }

  function EntriesAt(fs: Entries, p: Path): Entries
    requires IsFolder(fs, p)
  {
    if p == [] then fs else At(fs, p).value.entries
  }

  /** `folder_is_inside_folder`, on paths as their components. */
  predicate Inside(base: Path, folder: Path) {
    base <= folder
  }

  /** The climb goes on past the first n components of `top`: there is no folder, or an empty one, or one
      whose only entry is the one just left. */
  predicate Passable(fs: Entries, top: Path, n: nat)
    requires n <= |top|
  {
    IsFolder(fs, top[..n]) ==>
      var names := NamesOf(EntriesAt(fs, top[..n]));
      names == [] || (n < |top| && names == [top[n]])
  }

  /** Where the climb from `top` stops: the longest stretch of passable folders below the root. */
  function Stop(fs: Entries, root: Path, top: Path, n: nat): (r: nat)
    requires |root| <= n <= |top|
    ensures |root| <= r <= n
    ensures r > |root| ==> !Passable(fs, top, r)
    ensures forall k :: r < k <= n ==> Passable(fs, top, k)
  {
    if n == |root| || !Passable(fs, top, n) then n else Stop(fs, root, top, n - 1)
  }

  /** A file's climb starts at its folder. */
  function Start(fs: Entries, top: Path): Path {
    if IsFile(fs, top) then top[..|top| - 1] else top
  }

  /** The path that is deleted, if any. */
  function Doomed(fs: Entries, root: Path, from: Path): Option<Path>
    requires root <= from
  {
    var r := Stop(fs, root, from, |from|);
    if r < |from| then Some(from[..r + 1]) else None
  }

  function Climbed(fs: Entries, root: Path, from: Path): Entries
    requires root <= from
  {
    match Doomed(fs, root, from)
    case None => fs
    case Some(p) => Remove(fs, [], [p])
  }

  /** Where the climb is meant to stop. A root that is a file is never recognised, so the climb goes past it. */
  function Base(fs: Entries, root: Path): Path {
    if IsFile(fs, root) then [] else root
  }

  /** Past such a root the climb can pass the top of the file system as well, and then nothing is deleted. */
  predicate RunsOut(fs: Entries, root: Path, from: Path) {
    IsFile(fs, root) && Stop(fs, [], from, |from|) == 0 && Passable(fs, from, 0)
  }

  function Pruned(fs: Entries, root: Path, top: Path): Entries {
    var from := Start(fs, top);
    if root < top && root <= from && !RunsOut(fs, root, from) then Climbed(fs, Base(fs, root), from) else fs
  }

  /** Climb while there is no folder, or nothing in it but the way down. */
  method Climb(fs: Entries, base: Path, from: Path) returns (n: nat)
    requires base <= from
    ensures n == Stop(fs, base, from, |from|)
  {
    n := |from|;
    while n > |base|
      invariant |base| <= n <= |from|
      invariant Stop(fs, base, from, n) == Stop(fs, base, from, |from|)
    {
      if IsFolder(fs, from[..n]) {
        var names := NamesOf(EntriesAt(fs, from[..n]));
        if names != [] && (n == |from| || names != [from[n]]) { return; }
      }
      n := n - 1;
    }
  }

  /** Climb from `top` while nothing but the way down is there; delete the highest folder reached. With the
      root gone the climb passes it, and comparing the next folder with it fails. */
  method DeleteEmptyParentFolders(fs: Entries, top: Path, root: Path) returns (result: Result<Entries>)
    ensures result.Fail? <==> root < top && !IsFolder(fs, root) && !IsFile(fs, root)
    ensures result.Ok? ==> result.value == Pruned(fs, root, top)
  {
    if top == root || !Inside(root, top) { return Ok(fs); }
    var from := Start(fs, top);
    if !IsFolder(fs, root) { NothingUnderMissing(fs, root, top); }
    if !IsFolder(fs, root) && !IsFile(fs, root) { return Fail(RootMissing); }
    var n := Climb(fs, Base(fs, root), from);
    ClimbGives(fs, Base(fs, root), from, n);
    if n == |from| { return Ok(fs); }
    if IsFile(fs, root) && n == 0 {
      var names := NamesOf(EntriesAt(fs, []));
      if names == [] || names == [from[0]] { return Ok(fs); }
    }
    return Ok(Remove(fs, [], [from[..n + 1]]));
  }

  lemma ClimbGives(fs: Entries, base: Path, from: Path, n: nat)
    requires base <= from && n == Stop(fs, base, from, |from|)
    ensures Climbed(fs, base, from) == if n == |from| then fs else Remove(fs, [], [from[..n + 1]])
  {
  }

  lemma {:induction false} AtFirst(fs: Entries, p: Path, n: nat)
    requires 0 < n <= |p| && At(fs, p).Some?
    ensures At(fs, p[..n]).Some? && (n < |p| ==> At(fs, p[..n]).value.Folder?)
    decreases n
  {
    if n > 1 {
      AtFirst(Find(fs, p[0]).value.entries, p[1..], n - 1);
      assert p[..n][1..] == p[1..][..n - 1];
    }
  }

  /** Nothing exists below a path where there is no folder. */
  lemma NothingUnderMissing(fs: Entries, root: Path, p: Path)
    requires root < p && !IsFolder(fs, root)
    ensures At(fs, p).None?
  {
    assert p[..|root|] == root;
    if At(fs, p).Some? && root != [] { AtFirst(fs, p, |root|); }
  }

  /** Nothing stands in the way at the first n components: there is no folder, or one with nothing in it, or one
      with a single entry, the next component. */
  ghost predicate NothingElse(fs: Entries, from: Path, n: nat)
    requires n <= |from|
  {
    IsFolder(fs, from[..n]) ==>
      var es := EntriesAt(fs, from[..n]);
      |es| == 0 || (|es| == 1 && n < |from| && es[0].name == from[n])
  }

  lemma PassableExactly(fs: Entries, from: Path, n: nat)
    requires n <= |from|
    ensures Passable(fs, from, n) <==> NothingElse(fs, from, n)
  {
    if IsFolder(fs, from[..n]) {
      var es := EntriesAt(fs, from[..n]);
      if |es| == 1 { assert NamesOf(es) == [es[0].name]; }
    }
  }

  /** A path is what is deleted exactly when it lies strictly below the root, on the way to `top`, nothing else stands
      from there on down, and it is the highest such: the folder above it is the root, or has another entry. */
  lemma HighestRemovable(fs: Entries, root: Path, from: Path, p: Path)
    requires root <= from
    ensures Doomed(fs, root, from) == Some(p) <==>
      && root < p <= from
      && (forall k :: |p| <= k <= |from| ==> NothingElse(fs, from, k))
      && (|p| == |root| + 1 || !NothingElse(fs, from, |p| - 1))
  {
    var r := Stop(fs, root, from, |from|);
    forall k | 0 <= k <= |from| ensures Passable(fs, from, k) <==> NothingElse(fs, from, k) { PassableExactly(fs, from, k); }
    if root < p <= from && (forall k :: |p| <= k <= |from| ==> NothingElse(fs, from, k)) {
      assert p == from[..|p|];
      if |p| > r + 1 { assert Passable(fs, from, |p| - 1); }
    }
  }

  // ---------------------------------------------------------------- parent folders: which files are lost

  /** A file, or a folder with a file somewhere inside. */
  predicate Carries(e: Entry) {
    e.File? || (e.Folder? && !FileFree(e.entries))
  }

  lemma {:induction false} FileMember(es: Entries, here: Path, f: Path)
    ensures f in Files(es, here) <==> exists k :: 0 <= k < |es| && HoldsFile(es[k], here, f)
  {
    if es != [] {
      FileMember(es[1..], here, f);
      assert forall k :: 1 <= k < |es| ==> es[k] == es[1..][k - 1];
      assert forall k :: 0 <= k < |es| - 1 ==> es[1..][k] == es[k + 1];
    }
  }

  predicate HoldsFile(e: Entry, here: Path, f: Path) {
    (e.File? && f == here + [e.name]) || (e.Folder? && f in Files(e.entries, here + [e.name]))
  }

  lemma {:induction false} FilesAreBelow(es: Entries, here: Path, f: Path)
    requires f in Files(es, here)
    ensures here < f
    decreases es
  {
    FileMember(es, here, f);
    var k :| 0 <= k < |es| && HoldsFile(es[k], here, f);
    if es[k].Folder? { FilesAreBelow(es[k].entries, here + [es[k].name], f); }
  }

  /** Deleting one path loses exactly the files at and below it. */
  lemma {:induction false} RemoveLosesExactly(es: Entries, here: Path, p: Path, f: Path)
    requires |p| > |here|
    ensures f in Files(Remove(es, here, [p]), here) <==> f in Files(es, here) && !(p <= f)
    decreases es
  {
    if es != [] {
      var e, q, rest := es[0], here + [es[0].name], Remove(es[1..], here, [p]);
      RemoveLosesExactly(es[1..], here, p, f);
      if q == p {
        assert Remove(es, here, [p]) == rest;
        if e.Folder? && f in Files(e.entries, q) { FilesAreBelow(e.entries, q, f); }
      } else if e.Folder? {
        assert ([Folder(e.name, Remove(e.entries, q, [p]))] + rest)[1..] == rest;
        if |p| > |q| {
          RemoveLosesExactly(e.entries, q, p, f);
        } else {
          RemoveElsewhere(e.entries, q, p);
          if f in Files(e.entries, q) { FilesAreBelow(e.entries, q, f); assert f[..|p|] == q[..|p|]; }
        }
      } else {
        assert ([e] + rest)[1..] == rest;
      }
    }
  }

  lemma {:induction false} RemoveElsewhere(es: Entries, here: Path, p: Path)
    requires |p| <= |here|
    ensures Remove(es, here, [p]) == es
  {
    if es != [] {
      if es[0].Folder? { RemoveElsewhere(es[0].entries, here + [es[0].name], p); }
      RemoveElsewhere(es[1..], here, p);
      assert es == [es[0]] + es[1..];
    }
  }

  ghost predicate FileUnder(es: Entries, here: Path, p: Path) {
    exists f :: f in Files(es, here) && p <= f
  }

  /** There is a file at or below a path exactly when the entry there carries one. */
  lemma {:induction false} FilesUnder(es: Entries, here: Path, rel: Path)
    requires WellFormed(es) && rel != []
    ensures FileUnder(es, here, here + rel) <==> At(es, rel).Some? && Carries(At(es, rel).value)
    decreases |rel|
  {
    var q := here + [rel[0]];
    assert here + rel == q + rel[1..];
    if FileUnder(es, here, here + rel) {
      var f :| f in Files(es, here) && here + rel <= f;
      FileMember(es, here, f);
      var k :| 0 <= k < |es| && HoldsFile(es[k], here, f);
      FindIs(es, k);
      if es[k].Folder? {
        FilesAreBelow(es[k].entries, here + [es[k].name], f);
        assert f[|here|] == es[k].name == rel[0];
        FreeHasNoFiles(es[k].entries, q);
        if |rel| > 1 {
          WellFormedInside(es, k);
          FilesUnder(es[k].entries, q, rel[1..]);
        }
      } else {
        assert f[|here|] == es[k].name == rel[0];
      }
    }
    if At(es, rel).Some? && Carries(At(es, rel).value) {
      var e := Find(es, rel[0]).value;
      var k :| 0 <= k < |es| && es[k] == e;
      if |rel| > 1 {
        WellFormedInside(es, k);
        FilesUnder(e.entries, q, rel[1..]);
        var f :| f in Files(e.entries, q) && q + rel[1..] <= f;
        FileMember(es, here, f);
        assert HoldsFile(es[k], here, f);
      } else if e.File? {
        FileMember(es, here, q);
        assert HoldsFile(es[k], here, q);
      } else {
        FreeHasNoFiles(e.entries, q);
        var f := Files(e.entries, q)[0];
        assert f in Files(e.entries, q);
        FilesAreBelow(e.entries, q, f);
        FileMember(es, here, f);
        assert HoldsFile(es[k], here, f);
      }
    }
  }

  lemma {:induction false} AtNext(fs: Entries, p: Path, name: Name)
    requires p != [] && At(fs, p).Some?
    ensures At(fs, p + [name]) == if At(fs, p).value.Folder? then Find(At(fs, p).value.entries, name) else None
    decreases |p|
  {
    if |p| > 1 {
      AtNext(Find(fs, p[0]).value.entries, p[1..], name);
      assert (p + [name])[1..] == p[1..] + [name];
    } else {
      assert (p + [name])[1..] == [name];
    }
  }

  /** A file stands at one of the first lo to hi components of the path. */
  ghost predicate FileBetween(fs: Entries, from: Path, lo: nat, hi: nat)
    requires hi <= |from|
  {
    exists k :: lo <= k <= hi && IsFile(fs, from[..k])
  }

  lemma FileBetweenStep(fs: Entries, from: Path, lo: nat, hi: nat)
    requires lo <= hi <= |from|
    ensures FileBetween(fs, from, lo, hi) <==> IsFile(fs, from[..lo]) || FileBetween(fs, from, lo + 1, hi)
  {
    if FileBetween(fs, from, lo, hi) {
      var k :| lo <= k <= hi && IsFile(fs, from[..k]);
      if k > lo { assert lo + 1 <= k; }
    }
  }

  lemma NoFileBelow(fs: Entries, from: Path, m: nat)
    requires 0 < m <= |from| && !IsFolder(fs, from[..m])
    ensures !FileBetween(fs, from, m + 1, |from|)
  {
    forall k | m < k <= |from| ensures !IsFile(fs, from[..k]) {
      NothingUnderMissing(fs, from[..m], from[..k]);
    }
  }

  /** A folder whose only entry is the next component of the path. */
  lemma OnlyChild(fs: Entries, from: Path, m: nat)
    requires 0 < m < |from| && IsFolder(fs, from[..m]) && NamesOf(EntriesAt(fs, from[..m])) == [from[m]]
    ensures At(fs, from[..m + 1]).Some?
    ensures Carries(At(fs, from[..m]).value) <==> Carries(At(fs, from[..m + 1]).value)
  {
    var es := EntriesAt(fs, from[..m]);
    AtNext(fs, from[..m], from[m]);
    assert from[..m + 1] == from[..m] + [from[m]];
    assert |es| == |NamesOf(es)| == 1 && es[0].name == NamesOf(es)[0] == from[m];
    assert At(fs, from[..m + 1]) == Find(es, from[m]) == Some(es[0]);
    assert es[1..] == [];
    assert FileFree(es) <==> !es[0].File? && (es[0].Folder? ==> FileFree(es[0].entries));
  }

  /** Down a stretch of passable folders there is a file exactly when one stands in for a folder on the way. */
  lemma {:induction false} FileOnTheWay(fs: Entries, from: Path, m: nat)
    requires 0 < m <= |from| && (forall k :: m <= k <= |from| ==> Passable(fs, from, k))
    ensures (At(fs, from[..m]).Some? && Carries(At(fs, from[..m]).value)) <==> FileBetween(fs, from, m, |from|)
    decreases |from| - m
  {
    FileBetweenStep(fs, from, m, |from|);
    if !IsFolder(fs, from[..m]) {
      NoFileBelow(fs, from, m);
    } else {
      assert Passable(fs, from, m);
      var es := EntriesAt(fs, from[..m]);
      if NamesOf(es) == [] {
        assert |es| == 0;
        if m < |from| {
          AtNext(fs, from[..m], from[m]);
          assert from[..m + 1] == from[..m] + [from[m]];
          FileBetweenStep(fs, from, m + 1, |from|);
          NoFileBelow(fs, from, m + 1);
        }
      } else {
        OnlyChild(fs, from, m);
        FileOnTheWay(fs, from, m + 1);
      }
    }
  }

  /** Where the climb stopped there is a folder, or the root: no file stands in on the way to it. */
  lemma NoFileUpThere(fs: Entries, root: Path, from: Path, k: nat)
    requires root <= from && |root| < k <= Stop(fs, root, from, |from|)
    ensures !IsFile(fs, from[..k])
  {
    var r := Stop(fs, root, from, |from|);
    assert IsFolder(fs, from[..r]);
    if k < r {
      AtFirst(fs, from[..r], k);
      assert from[..r][..k] == from[..k];
    }
  }

  ghost predicate KeepsFiles(before: Entries, after: Entries) {
    forall f :: f in Files(before, []) ==> f in Files(after, [])
  }

  /** Deleting one path keeps every file exactly when nothing there carries one. */
  lemma RemovalKeepsFilesExactly(fs: Entries, p: Path)
    requires WellFormed(fs) && p != []
    ensures KeepsFiles(fs, Remove(fs, [], [p])) <==> !(At(fs, p).Some? && Carries(At(fs, p).value))
  {
    FilesUnder(fs, [], p);
    assert [] + p == p;
    forall f ensures f in Files(Remove(fs, [], [p]), []) <==> f in Files(fs, []) && !(p <= f) {
      RemoveLosesExactly(fs, [], p, f);
    }
  }

  lemma FilesAboveAndBelow(fs: Entries, root: Path, from: Path)
    requires root <= from
    ensures var r := Stop(fs, root, from, |from|);
      FileBetween(fs, from, |root| + 1, |from|) <==> FileBetween(fs, from, r + 1, |from|)
  {
    var r := Stop(fs, root, from, |from|);
    forall k | |root| < k <= r ensures !IsFile(fs, from[..k]) { NoFileUpThere(fs, root, from, k); }
  }

  lemma DeletionLosesNoFileExactly(fs: Entries, from: Path, n: nat)
    requires WellFormed(fs) && 0 < n <= |from| && forall k :: n <= k <= |from| ==> Passable(fs, from, k)
    ensures KeepsFiles(fs, Remove(fs, [], [from[..n]])) <==> !FileBetween(fs, from, n, |from|)
  {
    FileOnTheWay(fs, from, n);
    RemovalKeepsFilesExactly(fs, from[..n]);
  }

  lemma ClimbedBelow(fs: Entries, root: Path, from: Path, r: nat)
    requires WellFormed(fs) && root <= from && r == Stop(fs, root, from, |from|) && r < |from|
    ensures KeepsFiles(fs, Climbed(fs, root, from)) <==> !FileBetween(fs, from, r + 1, |from|)
  {
    ClimbGives(fs, root, from, r);
    DeletionLosesNoFileExactly(fs, from, r + 1);
  }

  lemma ClimbedNowhere(fs: Entries, root: Path, from: Path)
    requires root <= from && Stop(fs, root, from, |from|) == |from|
    ensures KeepsFiles(fs, Climbed(fs, root, from)) && !FileBetween(fs, from, |from| + 1, |from|)
  {
  }

  lemma ClimbLosesNoFileExactly(fs: Entries, root: Path, from: Path)
    requires WellFormed(fs) && root <= from
    ensures KeepsFiles(fs, Climbed(fs, root, from)) <==> !FileBetween(fs, from, |root| + 1, |from|)
  {
    var r := Stop(fs, root, from, |from|);
    FilesAboveAndBelow(fs, root, from);
    if r < |from| { ClimbedBelow(fs, root, from, r); } else { ClimbedNowhere(fs, root, from); }
  }

  /** No file is lost exactly when no proper ancestor of `top` below the root is a file taken for a folder. A
      root that is itself a file is lost, unless it is all there is all the way up to the top. */
  lemma ParentPruningLosesNoFileExactly(fs: Entries, root: Path, top: Path)
    requires WellFormed(fs) && root < top
    ensures KeepsFiles(fs, Pruned(fs, root, top)) <==>
      if IsFile(fs, root) then RunsOut(fs, root, top) else !FileBetween(fs, top, |root| + 1, |top| - 1)
  {
    if IsFile(fs, root) {
      FileRootIsLost(fs, root, top);
    } else {
      ClimbLosesNoFileExactly(fs, root, Start(fs, top));
      SameStart(fs, top, |root| + 1);
    }
  }

  lemma FileRootIsLost(fs: Entries, root: Path, top: Path)
    requires WellFormed(fs) && root < top && IsFile(fs, root)
    ensures Start(fs, top) == top
    ensures KeepsFiles(fs, Pruned(fs, root, top)) <==> RunsOut(fs, root, top)
  {
    NothingUnderMissing(fs, root, top);
    var r := Stop(fs, [], top, |top|);
    if r > |root| { NothingUnderMissing(fs, root, top[..r]); }
    assert top[..|root|] == root && r < |root|;
    ClimbedBelow(fs, [], top, r);
    assert IsFile(fs, top[..|root|]) && FileBetween(fs, top, r + 1, |top|);
  }

  lemma SameStart(fs: Entries, top: Path, lo: nat)
    requires top != []
    ensures FileBetween(fs, Start(fs, top), lo, |Start(fs, top)|) <==> FileBetween(fs, top, lo, |top| - 1)
  {
    var from := Start(fs, top);
    assert top[..|top|] == top;
    forall k | 0 <= k <= |from| ensures from[..k] == top[..k] {}
  }

  /** The smallest case of the loss: cleaning up from r/a/b below r, where r/a is a file, deletes that file. */
  lemma FileTakenForFolderIsDeleted(r: Name, a: Name, b: Name)
    ensures Pruned([Folder(r, [File(a)])], [r], [r, a, b]) == [Folder(r, [])]
  {
    var fs, root, top := [Folder(r, [File(a)])], [r], [r, a, b];
    assert top[1..] == [a, b] && top[..2] == [r, a] && [r, a][1..] == [a] && top[..3] == top;
    assert Find([File(a)], a) == Some(File(a)) && Find(fs, r) == Some(fs[0]);
    assert At([File(a)], [a, b]) == None && At([File(a)], [a]) == Some(File(a));
    assert At(fs, top) == None && At(fs, [r, a]) == Some(File(a));
    assert Passable(fs, top, 3) && Passable(fs, top, 2);
    assert Stop(fs, root, top, 2) == Stop(fs, root, top, 1) == 1;
    assert Doomed(fs, root, top) == Some([r, a]);
    assert [] + [r] == [r] && [r] + [a] == [r, a] && fs[1..] == [] && [File(a)][1..] == [];
    assert Remove([File(a)], [r], [[r, a]]) == [];
    assert Remove(fs, [], [[r, a]]) == [Folder(r, [])];
  }
}
