/** Grouping files that seem to belong to one volume, and letting an unambiguous run of single issues
    vote as a whole. The generic ranker is an arbitrary function; case folding of titles is a parameter. */
module RunContext {
  import opened Basics
  import opened Sequences

  datatype Title = Title(text: string)
  datatype VolumeTag = NoVolume | Volume(number: int) | Volumes(first: int, last: int)
  datatype Issue = Single(number: real) | Range(low: real, high: real)
  datatype Span = Span(low: real, high: real)

  /** Everything the file name says apart from the issue number. */
  datatype Traits = Traits(
    series: Title, year: Option<int>, volume: VolumeTag, volumeAssumed: Option<bool>,
    special: Option<Title>, annual: bool)
  datatype File = File(name: Title, traits: Traits, issue: Option<Issue>)

  /** A dictionary of groups, in insertion order. */
  datatype Group = Group(number: nat, files: seq<File>)
  type GroupMap = seq<Group>

  datatype ExternalId = Absent | Text(text: string) | Number(id: nat)
  datatype Series = Series(
    comicvineId: Option<nat>, provider: Option<string>, externalId: Option<string>,
    title: string, year: Option<int>, issueCount: nat, url: string)
  datatype Match = Match(
    id: Option<nat>, provider: string, externalId: ExternalId,
    title: string, year: Option<int>, issueCount: nat, link: string, seriesContext: bool)
  type Ranking = seq<(Series, int)>

  const MIN_MATCH_SCORE := 0
  const MIN_SCORE_MARGIN := 1
  const MIN_RUN_LENGTH := 3

  ghost predicate DistinctNumbers(groups: GroupMap) {
    forall i, k :: 0 <= i < k < |groups| ==> groups[i].number != groups[k].number
  }

  // ---------------------------------------------------------------- create_groups

  function Like(traits: Traits): File -> bool {
    (f: File) => f.traits == traits
  }

  /** The different kinds of file, in order of first appearance. */
  function Kinds(files: seq<File>): seq<Traits> {
    if files == [] then []
    else
      var front, t := Kinds(files[..|files| - 1]), files[|files| - 1].traits;
      if t in front then front else front + [t]
  }

  lemma {:induction false} KindsAreDistinct(files: seq<File>, i: nat, k: nat)
    requires i < k < |Kinds(files)|
    ensures Kinds(files)[i] != Kinds(files)[k]
    decreases |files|
  {
    var front := files[..|files| - 1];
    if k < |Kinds(front)| { KindsAreDistinct(front, i, k); }
  }

  /** The first file of one kind comes before any file of the other. */
  ghost predicate FirstSeenBefore(files: seq<File>, t: Traits, u: Traits) {
    exists i :: 0 <= i < |files| && files[i].traits == t && forall j :: 0 <= j <= i ==> files[j].traits != u
  }

  lemma {:induction false} KindsInOrder(files: seq<File>, i: nat, k: nat)
    requires i < k < |Kinds(files)|
    ensures FirstSeenBefore(files, Kinds(files)[i], Kinds(files)[k])
    decreases |files|
  {
    var front := files[..|files| - 1];
    var t, u := Kinds(files)[i], Kinds(files)[k];
    if k < |Kinds(front)| {
      KindsInOrder(front, i, k);
      var a :| 0 <= a < |front| && front[a].traits == t && forall j :: 0 <= j <= a ==> front[j].traits != u;
      assert files[a].traits == t && forall j :: 0 <= j <= a ==> files[j] == front[j];
    } else {
      var a := KindIsListed(front, i);
      assert files[a].traits == t;
      forall j | 0 <= j <= a ensures files[j].traits != u { var _ := FileHasKind(front, j); assert files[j] == front[j]; }
    }
  }

  lemma {:induction false} KindIsListed(files: seq<File>, k: nat) returns (i: nat)
    requires k < |Kinds(files)|
    ensures i < |files| && files[i].traits == Kinds(files)[k]
    decreases |files|
  {
    var front := files[..|files| - 1];
    if k < |Kinds(front)| { i := KindIsListed(front, k); } else { i := |files| - 1; }
  }

  lemma {:induction false} FileHasKind(files: seq<File>, i: nat) returns (k: nat)
    requires i < |files|
    ensures k < |Kinds(files)| && Kinds(files)[k] == files[i].traits
    decreases |files|
  {
    var front := files[..|files| - 1];
    if i < |front| { k := FileHasKind(front, i); }
    else { k :| 0 <= k < |Kinds(files)| && Kinds(files)[k] == files[i].traits; }
  }

  /** Group number k holds, in their original order, the files of the k-th kind. */
  function GroupOf(files: seq<File>, k: nat): Group
    requires k < |Kinds(files)|
  {
    Group(k + 1, Filter(files, Like(Kinds(files)[k])))
  }

  ghost predicate IsGrouping(files: seq<File>, groups: GroupMap) {
    && |groups| == |Kinds(files)|
    && forall k :: 0 <= k < |groups| ==> groups[k] == GroupOf(files, k)
  }

  method LargestNumber(groups: GroupMap) returns (top: nat)
    requires forall i :: 0 <= i < |groups| ==> groups[i].number == i + 1
    ensures top == |groups|
  {
    top := 0;
    for i := 0 to |groups|
      invariant top == i
    {
      if groups[i].number > top { top := groups[i].number; }
    }
  }

  method FindKind(mapping: seq<Traits>, traits: Traits) returns (k: nat)
    ensures k <= |mapping| && (k < |mapping| ==> mapping[k] == traits)
    ensures k == |mapping| ==> traits !in mapping
  {
    k := 0;
    while k < |mapping| && mapping[k] != traits
      invariant k <= |mapping| && traits !in mapping[..k]
    {
      k := k + 1;
    }
  }

  lemma KindsGrow(files: seq<File>, file: File)
    ensures Kinds(files + [file]) ==
      if file.traits in Kinds(files) then Kinds(files) else Kinds(files) + [file.traits]
  {
    assert (files + [file])[..|files|] == files;
  }

  lemma OldKindGrows(files: seq<File>, file: File, k: nat)
    requires k < |Kinds(files)|
    ensures k < |Kinds(files + [file])|
    ensures GroupOf(files + [file], k)
            == Group(k + 1, GroupOf(files, k).files + if file.traits == Kinds(files)[k] then [file] else [])
  {
    KindsGrow(files, file);
    FilterAppend(files, file, Like(Kinds(files)[k]));
  }

  lemma JoinsItsKind(files: seq<File>, file: File, groups: GroupMap, k: nat)
    requires IsGrouping(files, groups) && k < |groups| && Kinds(files)[k] == file.traits
    ensures IsGrouping(files + [file], groups[k := Group(groups[k].number, groups[k].files + [file])])
  {
    KindsGrow(files, file);
    forall g | 0 <= g < |groups|
      ensures GroupOf(files + [file], g) == if g == k then Group(k + 1, groups[k].files + [file]) else groups[g]
    {
      OldKindGrows(files, file, g);
      if g < k { KindsAreDistinct(files, g, k); } else if k < g { KindsAreDistinct(files, k, g); }
    }
  }

  lemma NewKind(files: seq<File>, file: File)
    requires file.traits !in Kinds(files)
    ensures |Kinds(files + [file])| == |Kinds(files)| + 1
    ensures GroupOf(files + [file], |Kinds(files)|) == Group(|Kinds(files)| + 1, [file])
  {
    KindsGrow(files, file);
    FilterAppend(files, file, Like(file.traits));
    NoneOfItsKind(files, file.traits);
  }

  lemma OpensItsKind(files: seq<File>, file: File, groups: GroupMap)
    requires IsGrouping(files, groups) && file.traits !in Kinds(files)
    ensures IsGrouping(files + [file], groups + [Group(|groups| + 1, [file])])
  {
    NewKind(files, file);
    forall g | 0 <= g < |groups| ensures g < |Kinds(files + [file])| && GroupOf(files + [file], g) == groups[g] {
      OldKindGrows(files, file, g);
      assert groups[g] == GroupOf(files, g);
    }
  }

  lemma NoneOfItsKind(files: seq<File>, traits: Traits)
    requires traits !in Kinds(files)
    ensures Filter(files, Like(traits)) == []
  {
    FilterMembers(files, Like(traits));
    var some := Filter(files, Like(traits));
    if some != [] {
      assert some[0] in some;
      var i :| 0 <= i < |files| && files[i] == some[0];
      var k := FileHasKind(files, i);
    }
  }

  /** Files that agree on what is left without the issue number join one group; a new group takes the
      next number. */
  method CreateGroups(files: seq<File>) returns (groups: GroupMap)
    ensures IsGrouping(files, groups)
  {
    var mapping: seq<Traits> := [];
    groups := [];
    for n := 0 to |files|
      invariant IsGrouping(files[..n], groups) && mapping == Kinds(files[..n])
    {
      ghost var before := files[..n];
      assert files[..n + 1] == before + [files[n]];
      KindsGrow(before, files[n]);
      var k := FindKind(mapping, files[n].traits);
      if k < |mapping| {
        JoinsItsKind(before, files[n], groups, k);
        groups := groups[k := Group(groups[k].number, groups[k].files + [files[n]])];
      } else {
        OpensItsKind(before, files[n], groups);
        var top := LargestNumber(groups);
        groups := groups + [Group(top + 1, [files[n]])];
        mapping := mapping + [files[n].traits];
      }
    }
    assert files[..|files|] == files;
  }

  /** The groups are the classes of files that agree on everything but the issue number: two grouped files
      share a group exactly when they agree, and a group holds a file exactly as often as it was given. */
  lemma GroupsAreClasses(files: seq<File>, groups: GroupMap, g: nat, h: nat, f: File, e: File)
    requires IsGrouping(files, groups) && g < |groups| && h < |groups|
    requires f in groups[g].files && e in groups[h].files
    ensures g == h <==> f.traits == e.traits
    ensures multiset(groups[g].files)[f] == multiset(files)[f]
  {
    var kinds := Kinds(files);
    assert f.traits == kinds[g] by { FilterMembers(files, Like(kinds[g])); assert groups[g] == GroupOf(files, g); }
    assert e.traits == kinds[h] by { FilterMembers(files, Like(kinds[h])); assert groups[h] == GroupOf(files, h); }
    if g < h { KindsAreDistinct(files, g, h); } else if h < g { KindsAreDistinct(files, h, g); }
    FilterCounts(files, Like(kinds[g]), f);
  }

  /** Every file is in a group. */
  lemma EveryFileIsGrouped(files: seq<File>, groups: GroupMap, i: nat) returns (g: nat)
    requires IsGrouping(files, groups) && i < |files|
    ensures g < |groups| && files[i] in groups[g].files
  {
    g := FileHasKind(files, i);
    FilterMembers(files, Like(Kinds(files)[g]));
    assert groups[g] == GroupOf(files, g);
  }

  /** No group is empty, and no number is used twice. */
  lemma GroupsAreUsed(files: seq<File>, groups: GroupMap)
    requires IsGrouping(files, groups)
    ensures DistinctNumbers(groups)
    ensures forall g :: 0 <= g < |groups| ==> groups[g].files != []
  {
    forall g | 0 <= g < |groups| ensures groups[g].files != [] {
      var i := KindIsListed(files, g);
      FilterMembers(files, Like(Kinds(files)[g]));
      assert files[i] in GroupOf(files, g).files;
    }
  }

  // ---------------------------------------------------------------- overlapping issue ranges

  predicate Covers(issue: Issue, x: real) {
    match issue
    case Single(n) => n == x
    case Range(a, b) => a <= x <= b
  }

  /** `check_overlapping_issues`. */
  function ReportsOverlap(first: Issue, second: Issue): bool {
    match (first, second)
    case (Single(a), Single(b)) => a == b
    case (Single(a), Range(c, d)) => c <= a <= d
    case (Range(a, b), Single(c)) => a <= c <= b
    case (Range(a, b), Range(c, d)) => a <= c <= b || a <= d <= b
  }

  ghost predicate Share(first: Issue, second: Issue) {
    exists x: real :: Covers(first, x) && Covers(second, x)
  }

  predicate StrictlyInside(inner: Issue, outer: Issue) {
    inner.Range? && outer.Range? && outer.low < inner.low && inner.high < outer.high
  }

  predicate Ordered(issue: Issue) {
    issue.Range? ==> issue.low <= issue.high
  }

  /** What is reported is a common number, except that a first range strictly inside the second is missed.
      A second range written backwards covers nothing, yet is reported when one of its ends is covered. */
  lemma OverlapIsReportedUnlessNested(first: Issue, second: Issue)
    ensures Ordered(second) ==> (ReportsOverlap(first, second) <==> Share(first, second) && !StrictlyInside(first, second))
    ensures !Ordered(second) ==> !Share(first, second)
    ensures !Ordered(second) ==>
      (ReportsOverlap(first, second) <==> (first.Range? && (Covers(first, second.low) || Covers(first, second.high))))
  {
    if ReportsOverlap(first, second) && Ordered(second) {
      var x := match (first, second)
        case (Single(a), _) => a
        case (Range(a, b), Single(c)) => c
        case (Range(a, b), Range(c, d)) => if a <= c <= b then c else d;
      assert Covers(first, x) && Covers(second, x);
    }
  }

  /** The smallest case of the miss, and that swapping the arguments finds it. */
  lemma NestedRangeIsMissed()
    ensures !ReportsOverlap(Range(2.0, 3.0), Range(1.0, 4.0))
    ensures Share(Range(2.0, 3.0), Range(1.0, 4.0)) && ReportsOverlap(Range(1.0, 4.0), Range(2.0, 3.0))
  {
    assert Covers(Range(2.0, 3.0), 2.0) && Covers(Range(1.0, 4.0), 2.0);
  }

  // ---------------------------------------------------------------- one run of issues

  function ForceRange(issue: Issue): Span {
    match issue
    case Single(n) => Span(n, n)
    case Range(a, b) => Span(a, b)
  }

  function AsRange(s: Span): Issue {
    Range(s.low, s.high)
  }

  function Flatten(groups: seq<seq<File>>): seq<File> {
    if groups == [] then [] else Flatten(groups[..|groups| - 1]) + groups[|groups| - 1]
  }

  ghost predicate AllNumbered(files: seq<File>) {
    forall i :: 0 <= i < |files| ==> files[i].issue.Some?
  }

  function Spans(files: seq<File>): (r: seq<Span>)
    requires AllNumbered(files)
    ensures |r| == |files|
    ensures forall i :: 0 <= i < |files| ==> r[i] == ForceRange(files[i].issue.value)
  {
    seq(|files|, i requires 0 <= i < |files| => ForceRange(files[i].issue.value))
  }

  predicate HasOne(s: Span) {
    s.low <= 1.0 <= s.high
  }

  function CountOnes(spans: seq<Span>): (n: nat) {
    if spans == [] then 0
    else CountOnes(spans[..|spans| - 1]) + if HasOne(spans[|spans| - 1]) then 1 else 0
  }

  predicate Clash(later: Span, earlier: Span) {
    ReportsOverlap(AsRange(later), AsRange(earlier))
  }

  predicate NoClash(spans: seq<Span>) {
    forall i, k :: 0 <= i < k < |spans| ==> !Clash(spans[k], spans[i])
  }

  ghost predicate IsRun(files: seq<File>) {
    && AllNumbered(files)
    && NoClash(Spans(files))
    && CountOnes(Spans(files)) == 1
    && |files| >= MIN_RUN_LENGTH
  }

  method AnyClash(current: Span, earlier: seq<Span>) returns (clash: bool)
    ensures clash <==> exists i :: 0 <= i < |earlier| && Clash(current, earlier[i])
  {
    for i := 0 to |earlier|
      invariant forall k :: 0 <= k < i ==> !Clash(current, earlier[k])
    {
      if Clash(current, earlier[i]) { return true; }
    }
    return false;
  }

  lemma SpansAppend(files: seq<File>, f: File)
    requires AllNumbered(files) && f.issue.Some?
    ensures AllNumbered(files + [f]) && Spans(files + [f]) == Spans(files) + [ForceRange(f.issue.value)]
    ensures CountOnes(Spans(files + [f])) == CountOnes(Spans(files)) + if HasOne(ForceRange(f.issue.value)) then 1 else 0
  {
    var longer := Spans(files + [f]);
    assert longer == Spans(files) + [ForceRange(f.issue.value)];
    assert longer[..|files|] == Spans(files);
  }

  /** What was refused early stays refused whatever follows. */
  lemma RefusalStands(files: seq<File>, more: seq<File>)
    requires files <= more && IsRun(more)
    ensures AllNumbered(files) && NoClash(Spans(files))
  {
    assert forall i :: 0 <= i < |files| ==> files[i] == more[i];
    assert forall i :: 0 <= i < |files| ==> Spans(files)[i] == Spans(more)[i];
  }

  lemma FlattenPrefix(groups: seq<seq<File>>, g: nat, k: nat)
    requires g < |groups| && k <= |groups[g]|
    ensures Flatten(groups[..g]) + groups[g][..k] <= Flatten(groups)
    decreases |groups|
  {
    var last := |groups| - 1;
    if g < last {
      FlattenPrefix(groups[..last], g, k);
      assert groups[..last][..g] == groups[..g];
    }
  }

  /** The state of the scan after `seen`. */
  ghost predicate Scanned(seen: seq<File>, ranges: seq<Span>, ones: nat) {
    AllNumbered(seen) && ranges == Spans(seen) && NoClash(ranges) && ones == CountOnes(ranges)
  }

  lemma ScanOn(seen: seq<File>, f: File, ranges: seq<Span>, ones: nat)
    requires Scanned(seen, ranges, ones) && f.issue.Some?
    requires forall i :: 0 <= i < |ranges| ==> !Clash(ForceRange(f.issue.value), ranges[i])
    ensures Scanned(seen + [f], ranges + [ForceRange(f.issue.value)],
                    ones + if HasOne(ForceRange(f.issue.value)) then 1 else 0)
  {
    SpansAppend(seen, f);
  }

  lemma NoClashAt(spans: seq<Span>, i: nat, k: nat)
    requires NoClash(spans) && i < k < |spans|
    ensures !Clash(spans[k], spans[i])
  {
  }

  /** An unnumbered file, or one that clashes with an earlier one, rules the run out for good. */
  lemma ScanRefuses(seen: seq<File>, f: File, ranges: seq<Span>, ones: nat, all: seq<File>)
    requires Scanned(seen, ranges, ones) && seen + [f] <= all
    requires f.issue.None? || exists i :: 0 <= i < |ranges| && Clash(ForceRange(f.issue.value), ranges[i])
    ensures !IsRun(all)
  {
    if IsRun(all) {
      RefusalStands(seen + [f], all);
      assert (seen + [f])[|seen|] == f;
      if f.issue.Some? {
        SpansAppend(seen, f);
        var i :| 0 <= i < |ranges| && Clash(ForceRange(f.issue.value), ranges[i]);
        NoClashAt(ranges + [ForceRange(f.issue.value)], i, |ranges|);
      }
    }
  }

  /** Scan one more group; `ok` is false when it rules the run out. */
  method ScanGroup(group: seq<File>, ranges: seq<Span>, ones: nat, ghost before: seq<File>, ghost all: seq<File>)
    returns (ok: bool, newRanges: seq<Span>, newOnes: nat)
    requires Scanned(before, ranges, ones)
    requires forall k :: 0 <= k <= |group| ==> before + group[..k] <= all
    ensures ok ==> Scanned(before + group, newRanges, newOnes)
    ensures !ok ==> !IsRun(all)
  {
    newRanges, newOnes := ranges, ones;
    assert before + group[..0] == before;
    for k := 0 to |group|
      invariant Scanned(before + group[..k], newRanges, newOnes)
    {
      var file := group[k];
      ghost var seen := before + group[..k];
      assert before + group[..k + 1] == seen + [file];
      if file.issue.None? {
        ScanRefuses(seen, file, newRanges, newOnes, all);
        return false, newRanges, newOnes;
      }
      var current := ForceRange(file.issue.value);
      var clash := AnyClash(current, newRanges);
      if clash {
        ScanRefuses(seen, file, newRanges, newOnes, all);
        return false, newRanges, newOnes;
      }
      ScanOn(seen, file, newRanges, newOnes);
      newOnes := newOnes + if HasOne(current) then 1 else 0;
      newRanges := newRanges + [current];
    }
    assert group[..|group|] == group;
    ok := true;
  }

  method IsSingleIssueRun(groups: seq<seq<File>>) returns (run: bool)
    ensures run <==> IsRun(Flatten(groups))
  {
    var ranges: seq<Span>, ones: nat := [], 0;
    for g := 0 to |groups|
      invariant Scanned(Flatten(groups[..g]), ranges, ones)
    {
      forall k | 0 <= k <= |groups[g]| ensures Flatten(groups[..g]) + groups[g][..k] <= Flatten(groups) {
        FlattenPrefix(groups, g, k);
      }
      var ok;
      ok, ranges, ones := ScanGroup(groups[g], ranges, ones, Flatten(groups[..g]), Flatten(groups));
      if !ok { return false; }
      assert groups[..g + 1][..g] == groups[..g];
    }
    assert groups[..|groups|] == groups;
    return ones == 1 && |ranges| >= MIN_RUN_LENGTH;
  }

  lemma {:induction false} ExactlyOne(spans: seq<Span>, i: nat, k: nat)
    requires i < k < |spans| && HasOne(spans[i]) && HasOne(spans[k])
    ensures CountOnes(spans) >= 2
    decreases |spans|
  {
    if k < |spans| - 1 {
      ExactlyOne(spans[..|spans| - 1], i, k);
    } else {
      AtLeastOne(spans[..k], i);
    }
  }

  lemma {:induction false} AtLeastOne(spans: seq<Span>, i: nat)
    requires i < |spans| && HasOne(spans[i])
    ensures CountOnes(spans) >= 1
    decreases |spans|
  {
    if i < |spans| - 1 { AtLeastOne(spans[..|spans| - 1], i); }
  }

  lemma {:induction false} SomeOne(spans: seq<Span>) returns (i: nat)
    requires CountOnes(spans) >= 1
    ensures i < |spans| && HasOne(spans[i])
    decreases |spans|
  {
    if HasOne(spans[|spans| - 1]) { i := |spans| - 1; } else { i := SomeOne(spans[..|spans| - 1]); }
  }

  /** A promoted run has exactly one file reaching issue 1; two files share a number exactly when what the
      later one spans is a range written forwards, strictly inside the earlier one's; so single issues never repeat. */
  lemma RunShape(files: seq<File>, i: nat, k: nat)
    requires IsRun(files) && i < k < |files|
    ensures exists o :: 0 <= o < |files| && HasOne(Spans(files)[o])
    ensures !(HasOne(Spans(files)[i]) && HasOne(Spans(files)[k]))
    ensures var earlier, later := AsRange(Spans(files)[i]), AsRange(Spans(files)[k]);
      Share(files[i].issue.value, files[k].issue.value) <==> StrictlyInside(later, earlier) && Ordered(later)
    ensures files[i].issue.value.Single? && files[k].issue.value.Single?
      ==> files[i].issue.value.number != files[k].issue.value.number
  {
    var spans := Spans(files);
    var o := SomeOne(spans);
    if HasOne(spans[i]) && HasOne(spans[k]) { ExactlyOne(spans, i, k); }
    assert !Clash(spans[k], spans[i]);
    OverlapIsReportedUnlessNested(AsRange(spans[k]), AsRange(spans[i]));
    SharedSpans(files[i].issue.value, files[k].issue.value);
    if StrictlyInside(AsRange(spans[k]), AsRange(spans[i])) && Ordered(AsRange(spans[k])) {
      assert Covers(AsRange(spans[k]), spans[k].low) && Covers(AsRange(spans[i]), spans[k].low);
    }
  }

  lemma {:induction false} AtMostOne(spans: seq<Span>)
    requires forall i, k :: 0 <= i < k < |spans| ==> !(HasOne(spans[i]) && HasOne(spans[k]))
    ensures CountOnes(spans) <= 1
  {
    if spans != [] {
      var front := spans[..|spans| - 1];
      AtMostOne(front);
      if CountOnes(front) >= 1 {
        var i := SomeOne(front);
        assert spans[i] == front[i];
      }
    }
  }

  ghost predicate AllSingle(files: seq<File>) {
    forall i :: 0 <= i < |files| ==> files[i].issue.Some? && files[i].issue.value.Single?
  }

  ghost predicate NoneTwice(files: seq<File>) {
    forall i, k :: 0 <= i < k < |files| ==> files[i].issue != files[k].issue
  }

  lemma SinglesClash(files: seq<File>)
    requires AllSingle(files)
    ensures NoClash(Spans(files)) <==> NoneTwice(files)
  {
    var spans := Spans(files);
    forall i, k | 0 <= i < k < |files| ensures Clash(spans[k], spans[i]) <==> files[i].issue == files[k].issue {}
  }

  lemma SinglesWithOne(files: seq<File>)
    requires AllSingle(files) && NoneTwice(files)
    ensures CountOnes(Spans(files)) == 1 <==> exists i :: 0 <= i < |files| && files[i].issue == Some(Single(1.0))
  {
    var spans := Spans(files);
    forall i | 0 <= i < |files| ensures HasOne(spans[i]) <==> files[i].issue == Some(Single(1.0)) {}
    AtMostOne(spans);
    if CountOnes(spans) == 1 { var o := SomeOne(spans); }
    if i :| 0 <= i < |files| && files[i].issue == Some(Single(1.0)) { AtLeastOne(spans, i); }
  }

  /** A folder of single issues is a run exactly when it has at least three, none twice, and issue 1 among them. */
  lemma SingleIssuesFormARunExactly(files: seq<File>)
    requires AllSingle(files)
    ensures IsRun(files) <==>
      |files| >= 3 && NoneTwice(files) && exists i :: 0 <= i < |files| && files[i].issue == Some(Single(1.0))
  {
    SinglesClash(files);
    if NoneTwice(files) { SinglesWithOne(files); }
  }

  /** Whatever its issues look like, a run has at least three files, and exactly one of them covers issue 1. */
  lemma RunHasOneFirstIssue(files: seq<File>) returns (o: nat)
    requires IsRun(files)
    ensures |files| >= 3 && o < |files|
    ensures forall i :: 0 <= i < |files| ==> files[i].issue.Some? && (Covers(files[i].issue.value, 1.0) <==> i == o)
  {
    var spans := Spans(files);
    o := SomeOne(spans);
    forall i | 0 <= i < |files| && i != o ensures !HasOne(spans[i]) {
      if HasOne(spans[i]) { ExactlyOne(spans, if i < o then i else o, if i < o then o else i); }
    }
  }

  lemma SharedSpans(a: Issue, b: Issue)
    ensures Share(a, b) <==> Share(AsRange(ForceRange(b)), AsRange(ForceRange(a)))
  {
    if Share(a, b) {
      var x :| Covers(a, x) && Covers(b, x);
      assert Covers(AsRange(ForceRange(b)), x) && Covers(AsRange(ForceRange(a)), x);
    }
    if Share(AsRange(ForceRange(b)), AsRange(ForceRange(a))) {
      var x :| Covers(AsRange(ForceRange(b)), x) && Covers(AsRange(ForceRange(a)), x);
      assert Covers(a, x) && Covers(b, x);
    }
  }

  lemma NestedRun(a: File, b: File, c: File)
    requires a.issue == Some(Range(1.0, 10.0)) && b.issue == Some(Range(2.0, 3.0)) && c.issue == Some(Range(4.0, 5.0))
    ensures IsRun([a, b, c])
  {
    ThreeSpans(Span(1.0, 10.0), Span(2.0, 3.0), Span(4.0, 5.0));
    assert Spans([a, b, c]) == [Span(1.0, 10.0), Span(2.0, 3.0), Span(4.0, 5.0)];
  }

  lemma ThreeSpans(a: Span, b: Span, c: Span)
    ensures CountOnes([a, b, c]) == (if HasOne(a) then 1 else 0) + (if HasOne(b) then 1 else 0) + if HasOne(c) then 1 else 0
    ensures !Clash(b, a) && !Clash(c, a) && !Clash(c, b) ==> NoClash([a, b, c])
  {
    var spans := [a, b, c];
    assert spans[..2] == [a, b] && [a, b][..1] == [a] && [a][..0] == [];
    assert CountOnes([a]) == if HasOne(a) then 1 else 0;
    assert CountOnes([a, b]) == CountOnes([a]) + if HasOne(b) then 1 else 0;
  }

  // ---------------------------------------------------------------- the whole-run winner

  /** The highest upper end of any numbered file. */
  function HighestIssue(files: seq<File>): (r: Option<real>)
    ensures forall i :: 0 <= i < |files| && files[i].issue.Some? ==>
      r.Some? && ForceRange(files[i].issue.value).high <= r.value
    ensures r.Some? ==> exists i :: 0 <= i < |files| && files[i].issue.Some? && ForceRange(files[i].issue.value).high == r.value
  {
    if files == [] then None
    else
      var front, last := HighestIssue(files[..|files| - 1]), files[|files| - 1].issue;
      if last.None? then front
      else
        var top := ForceRange(last.value).high;
        if front.None? || top > front.value then Some(top) else front
  }

  predicate EndsAtBoundary(highest: Option<real>, series: Series) {
    && highest.Some? && highest.value > 0.0
    && highest.value.Floor as real == highest.value
    && series.issueCount == highest.value.Floor
  }

  function ContextScore(highest: Option<real>, entry: (Series, int)): int {
    entry.1 + if EndsAtBoundary(highest, entry.0) then 1 else 0
  }

  function ScoreOf(entry: (Series, int)): int {
    entry.1
  }

  /** Strictly ahead of every rival by the margin, and not negative. */
  predicate StandsOut(highest: Option<real>, ranked: Ranking, i: nat)
    requires i < |ranked|
  {
    && ContextScore(highest, ranked[i]) >= MIN_MATCH_SCORE
    && forall k :: 0 <= k < |ranked| && k != i ==>
      ContextScore(highest, ranked[i]) - ContextScore(highest, ranked[k]) >= MIN_SCORE_MARGIN
  }

  lemma AtMostOneStandsOut(highest: Option<real>, ranked: Ranking, i: nat, k: nat)
    requires i < |ranked| && k < |ranked| && StandsOut(highest, ranked, i) && StandsOut(highest, ranked, k)
    ensures i == k
  {
  }

  /** The entry that stands out, if there is one. */
  ghost function Winner(highest: Option<real>, ranked: Ranking): Option<Series> {
    if exists i :: 0 <= i < |ranked| && StandsOut(highest, ranked, i) then
      var i :| 0 <= i < |ranked| && StandsOut(highest, ranked, i);
      Some(ranked[i].0)
    else None
  }

  lemma WinnerIs(highest: Option<real>, ranked: Ranking, i: nat)
    requires i < |ranked| && StandsOut(highest, ranked, i)
    ensures Winner(highest, ranked) == Some(ranked[i].0)
  {
    var k :| 0 <= k < |ranked| && StandsOut(highest, ranked, k) && Winner(highest, ranked) == Some(ranked[k].0);
    AtMostOneStandsOut(highest, ranked, i, k);
  }

  ghost predicate Scored(highest: Option<real>, ranked: Ranking, scored: Ranking) {
    && |scored| == |ranked|
    && forall i :: 0 <= i < |ranked| ==> scored[i] == (ranked[i].0, ContextScore(highest, ranked[i]))
  }

  /** The head of the sorted list is what the code looks at; the rest only through the runner-up. */
  predicate HeadWins(sorted: Ranking)
    requires sorted != []
  {
    && sorted[0].1 >= MIN_MATCH_SCORE
    && (|sorted| > 1 ==> sorted[0].1 - sorted[1].1 >= MIN_SCORE_MARGIN)
  }

  /** A head that beats the runner-up beats every rival. */
  lemma HeadBeatsAll(highest: Option<real>, ranked: Ranking, scored: Ranking, i: nat, k: nat)
    requires Scored(highest, ranked, scored) && i < |ranked| && k < |ranked| && i != k
    requires SortDescending(scored, ScoreOf)[0] == scored[i] && HeadWins(SortDescending(scored, ScoreOf))
    ensures ContextScore(highest, ranked[i]) - ContextScore(highest, ranked[k]) >= MIN_SCORE_MARGIN
  {
    var sorted := SortDescending(scored, ScoreOf);
    SortingIsStable(scored, ScoreOf);
    TailMembers(sorted, scored, i);
    assert scored[k] in sorted[1..];
    var j :| 0 <= j < |sorted| - 1 && sorted[1..][j] == scored[k];
    DescendingPairs(sorted, ScoreOf, 1, j + 1);
  }

  /** An entry at the head that beats every rival beats the runner-up. */
  lemma BeatsRunnerUp(highest: Option<real>, ranked: Ranking, scored: Ranking, i: nat)
    requires Scored(highest, ranked, scored) && i < |ranked| && StandsOut(highest, ranked, i)
    requires SortDescending(scored, ScoreOf)[0] == scored[i]
    ensures HeadWins(SortDescending(scored, ScoreOf))
  {
    var sorted := SortDescending(scored, ScoreOf);
    if |sorted| > 1 {
      SortingIsStable(scored, ScoreOf);
      TailMembers(sorted, scored, i);
      assert sorted[1..][0] == sorted[1] && sorted[1] in sorted[1..];
      var k :| 0 <= k < |scored| && k != i && scored[k] == sorted[1];
      assert ContextScore(highest, ranked[k]) == sorted[1].1;
    }
  }

  /** Whoever stands out is at the head. */
  lemma StandsOutLeads(highest: Option<real>, ranked: Ranking, scored: Ranking, i: nat, head: nat)
    requires Scored(highest, ranked, scored) && i < |ranked| && StandsOut(highest, ranked, i)
    requires head < |ranked| && SortDescending(scored, ScoreOf)[0] == scored[head]
    ensures i == head
  {
    var sorted := SortDescending(scored, ScoreOf);
    SortingIsStable(scored, ScoreOf);
    ReorderedMembers(scored, sorted);
    assert scored[i] in sorted;
    var j :| 0 <= j < |sorted| && sorted[j] == scored[i];
    DescendingPairs(sorted, ScoreOf, 0, j);
    assert ContextScore(highest, ranked[head]) >= ContextScore(highest, ranked[i]);
  }

  /** Among candidates that score alike, the only one with exactly as many issues as the run's last number wins. */
  lemma BoundaryBreaksTheTie(highest: nat, ranked: Ranking, i: nat)
    requires i < |ranked| && highest > 0 && ranked[i].1 >= -1 && ranked[i].0.issueCount == highest
    requires forall k :: 0 <= k < |ranked| && k != i ==> ranked[k].1 == ranked[i].1 && ranked[k].0.issueCount != highest
    ensures Winner(Some(highest as real), ranked) == Some(ranked[i].0)
  {
    assert StandsOut(Some(highest as real), ranked, i);
    WinnerIs(Some(highest as real), ranked, i);
  }

  /** A run that ends between two issues, or at none above 0, gives no candidate that point. */
  lemma NoBoundaryNoPoint(highest: Option<real>, ranked: Ranking, i: nat)
    requires i < |ranked|
    requires highest.None? || highest.value <= 0.0 || highest.value.Floor as real != highest.value
    ensures Winner(highest, ranked).Some? <==> exists k :: 0 <= k < |ranked| && LeadsByOne(ranked, k)
  {
    forall k | 0 <= k < |ranked| ensures StandsOut(highest, ranked, k) <==> LeadsByOne(ranked, k) {}
    if k :| 0 <= k < |ranked| && LeadsByOne(ranked, k) { WinnerIs(highest, ranked, k); }
  }

  /** Ahead of every rival on the ranker's score alone, and not negative. */
  predicate LeadsByOne(ranked: Ranking, i: nat)
    requires i < |ranked|
  {
    ranked[i].1 >= 0 && forall k :: 0 <= k < |ranked| && k != i ==> ranked[i].1 > ranked[k].1
  }

  method SelectSeriesRunWinner(files: seq<File>, ranked: Ranking) returns (winner: Option<Series>)
    ensures winner == Winner(HighestIssue(files), ranked)
  {
    if ranked == [] { return None; }
    var highest := HighestIssue(files);
    var scored: Ranking := [];
    for n := 0 to |ranked|
      invariant |scored| == n
      invariant forall i :: 0 <= i < n ==> scored[i] == (ranked[i].0, ContextScore(highest, ranked[i]))
    {
      var bonus := if EndsAtBoundary(highest, ranked[n].0) then 1 else 0;
      scored := scored + [(ranked[n].0, ranked[n].1 + bonus)];
    }
    var sorted := SortDescending(scored, ScoreOf);
    assert multiset(sorted) == multiset(scored) by { SortingIsStable(scored, ScoreOf); }
    ReorderedMembers(scored, sorted);
    assert sorted[0] in scored;
    ghost var head :| 0 <= head < |scored| && scored[head] == sorted[0];
    if HeadWins(sorted) {
      forall k | 0 <= k < |ranked| && k != head
        ensures ContextScore(highest, ranked[head]) - ContextScore(highest, ranked[k]) >= MIN_SCORE_MARGIN
      {
        HeadBeatsAll(highest, ranked, scored, head, k);
      }
    }
    if StandsOut(highest, ranked, head) { BeatsRunnerUp(highest, ranked, scored, head); }
    forall i | 0 <= i < |ranked| && StandsOut(highest, ranked, i) ensures i == head {
      StandsOutLeads(highest, ranked, scored, i, head);
    }
    if sorted[0].1 < MIN_MATCH_SCORE { return None; }
    if |sorted| > 1 {
      if sorted[0].1 - sorted[1].1 < MIN_SCORE_MARGIN { return None; }
    }
    WinnerIs(highest, ranked, head);
    return Some(sorted[0].0);
  }

  // ---------------------------------------------------------------- apply_series_run_context

  datatype Key = Key(series: Title, volume: VolumeTag)
  type SearchCache = map<Title, seq<Series>>
  datatype Cluster = Cluster(key: Key, members: seq<nat>)

  /** Case folding and trimming of titles, and the generic ranker. */
  datatype Env = Env(fold: Title -> Title, rank: (seq<File>, seq<Series>) -> Ranking)

  /** What must agree for one regular run; none for special versions, annuals and untitled files. */
  function RunKey(env: Env, files: seq<File>): Option<Key> {
    if files == [] || files[0].traits.special.Some? || files[0].traits.annual then None
    else
      var series := env.fold(files[0].traits.series);
      if series == Title("") then None else Some(Key(series, files[0].traits.volume))
  }

  /** Two groups belong to one regular run: their first files carry the same series title, up to case and
      surrounding blanks and not empty, and the same volume tag, and are neither specials nor annuals. */
  predicate SameRun(env: Env, a: seq<File>, b: seq<File>) {
    && a != [] && b != []
    && env.fold(a[0].traits.series) == env.fold(b[0].traits.series) && env.fold(a[0].traits.series).text != ""
    && a[0].traits.volume == b[0].traits.volume
    && a[0].traits.special.None? && b[0].traits.special.None? && !a[0].traits.annual && !b[0].traits.annual
  }

  predicate HasKey(env: Env, groups: GroupMap, m: nat, key: Key) {
    m < |groups| && RunKey(env, groups[m].files) == Some(key)
  }

  /** The positions of the groups with this key, in order. */
  function Members(env: Env, groups: GroupMap, key: Key): (r: seq<nat>)
    ensures forall i :: 0 <= i < |r| ==> HasKey(env, groups, r[i], key)
  {
    if groups == [] then []
    else
      var last := |groups| - 1;
      assert forall m :: HasKey(env, groups[..last], m, key) ==> HasKey(env, groups, m, key);
      Members(env, groups[..last], key) + if HasKey(env, groups, last, key) then [last] else []
  }

  lemma {:induction false} MembersAreAll(env: Env, groups: GroupMap, key: Key, m: nat)
    requires HasKey(env, groups, m, key)
    ensures exists i :: 0 <= i < |Members(env, groups, key)| && Members(env, groups, key)[i] == m
  {
    var last, all := |groups| - 1, Members(env, groups, key);
    if m < last {
      MembersAreAll(env, groups[..last], key, m);
      var i :| 0 <= i < |Members(env, groups[..last], key)| && Members(env, groups[..last], key)[i] == m;
      assert all[i] == m;
    } else {
      assert all[|all| - 1] == m;
    }
  }

  /** Two groups land in one cluster exactly when they belong to one regular run. */
  lemma OneClusterExactly(env: Env, groups: GroupMap, g: nat, h: nat)
    requires g < |groups| && h < |groups|
    ensures (exists key :: g in Members(env, groups, key) && h in Members(env, groups, key))
            <==> SameRun(env, groups[g].files, groups[h].files)
  {
    if key :| g in Members(env, groups, key) && h in Members(env, groups, key) {
      MemberExactly(env, groups, key, g);
      MemberExactly(env, groups, key, h);
    }
    if SameRun(env, groups[g].files, groups[h].files) {
      var key := RunKey(env, groups[g].files).value;
      MemberExactly(env, groups, key, g);
      MemberExactly(env, groups, key, h);
    }
  }

  lemma MemberExactly(env: Env, groups: GroupMap, key: Key, m: nat)
    ensures m in Members(env, groups, key) <==> HasKey(env, groups, m, key)
  {
    if HasKey(env, groups, m, key) { MembersAreAll(env, groups, key, m); }
    var members := Members(env, groups, key);
    if m in members {
      var i :| 0 <= i < |members| && members[i] == m;
      assert HasKey(env, groups, members[i], key);
    }
  }

  function FilesOf(groups: GroupMap, members: seq<nat>): (r: seq<seq<File>>)
    requires forall i :: 0 <= i < |members| ==> members[i] < |groups|
    ensures |r| == |members| && forall i :: 0 <= i < |r| ==> r[i] == groups[members[i]].files
  {
    seq(|members|, i requires 0 <= i < |members| => groups[members[i]].files)
  }

  /** `dict.update` with one more file: a name already there keeps its place. */
  function Put(files: seq<File>, file: File): seq<File> {
    if files == [] then [file]
    else if files[0].name == file.name then [file] + files[1..]
    else [files[0]] + Put(files[1..], file)
  }

  function PutAll(files: seq<File>, more: seq<File>): seq<File> {
    if more == [] then files else Put(PutAll(files, more[..|more| - 1]), more[|more| - 1])
  }

  lemma {:induction false} PutAllAppend(files: seq<File>, some: seq<File>, more: seq<File>)
    ensures PutAll(PutAll(files, some), more) == PutAll(files, some + more)
  {
    if more == [] {
      assert some + more == some;
    } else {
      var front, last := more[..|more| - 1], more[|more| - 1];
      PutAllAppend(files, some, front);
      assert (some + more)[..|some + more| - 1] == some + front;
    }
  }

  /** A name already there keeps its place and takes the later file. */
  lemma {:induction false} PutReplaces(files: seq<File>, file: File, i: nat)
    requires i < |files| && files[i].name == file.name && forall k :: 0 <= k < i ==> files[k].name != file.name
    ensures Put(files, file) == files[i := file]
  {
    if i > 0 { PutReplaces(files[1..], file, i - 1); }
  }

  method CombinedFiles(groups: seq<seq<File>>) returns (result: seq<File>)
    ensures result == PutAll([], Flatten(groups))
  {
    result := [];
    for g := 0 to |groups|
      invariant result == PutAll([], Flatten(groups[..g]))
    {
      PutAllAppend([], Flatten(groups[..g]), groups[g]);
      assert groups[..g + 1][..g] == groups[..g];
      result := PutAll(result, groups[g]);
    }
    assert groups[..|groups|] == groups;
  }

  predicate NamesDiffer(files: seq<File>) {
    forall i, k :: 0 <= i < k < |files| ==> files[i].name != files[k].name
  }

  lemma {:induction false} PutNewName(files: seq<File>, file: File)
    requires forall i :: 0 <= i < |files| ==> files[i].name != file.name
    ensures Put(files, file) == files + [file]
  {
    if files != [] { PutNewName(files[1..], file); }
  }

  /** With no name used twice, combining loses nothing. */
  lemma {:induction false} CombiningKeepsAll(files: seq<File>)
    requires NamesDiffer(files)
    ensures PutAll([], files) == files
  {
    if files != [] {
      var front, last := files[..|files| - 1], files[|files| - 1];
      CombiningKeepsAll(front);
      PutNewName(front, last);
      assert files == front + [last];
    }
  }

  /** The series a whole cluster is promoted to, if any. */
  ghost function Promotion(env: Env, groups: GroupMap, cache: SearchCache, key: Key): Option<Series> {
    var members := Members(env, groups, key);
    assert forall i :: 0 <= i < |members| ==> HasKey(env, groups, members[i], key);
    if |members| < 2 then None
    else
      var files := Flatten(FilesOf(groups, members));
      if !IsRun(files) || key.series !in cache || cache[key.series] == [] then None
      else
        var combined := PutAll([], files);
        Winner(HighestIssue(combined), env.rank(combined, cache[key.series]))
  }

  function FormatMatch(s: Series): Match {
    Match(s.comicvineId, if s.provider.Some? then s.provider.value else "comicvine",
      if s.externalId.Some? then Text(s.externalId.value)
      else if s.comicvineId.Some? then Number(s.comicvineId.value) else Absent,
      s.title, s.year, s.issueCount, s.url, true)
  }

  /** A promoted match names its series: nothing of it is lost, and one that names no provider is ComicVine's, known
      by its ComicVine id where it has no other. */
  lemma MatchNamesItsSeries(s: Series, t: Series)
    requires FormatMatch(s) == FormatMatch(t)
    ensures s.comicvineId == t.comicvineId && s.title == t.title && s.year == t.year
            && s.issueCount == t.issueCount && s.url == t.url
    ensures s.provider == t.provider || {s.provider, t.provider} == {None, Some("comicvine")}
    ensures s.externalId == t.externalId
    ensures FormatMatch(s).id == s.comicvineId && FormatMatch(s).externalId.Absent? ==> s.comicvineId.None? && s.externalId.None?
    ensures FormatMatch(s).externalId.Number? ==> s.externalId.None? && s.comicvineId == Some(FormatMatch(s).externalId.id)
  {
  }

  /** What is left for the group at position i once the clusters in `done` have been considered. */
  ghost predicate Settled(env: Env, groups: GroupMap, cache: SearchCache, done: set<Key>, i: nat,
                          before: map<nat, Match>, after: map<nat, Match>)
    requires i < |groups|
  {
    var number, key := groups[i].number, RunKey(env, groups[i].files);
    if key.Some? && key.value in done && Promotion(env, groups, cache, key.value).Some?
    then number in after && after[number] == FormatMatch(Promotion(env, groups, cache, key.value).value)
    else Same(before, after, number)
  }

  predicate Same(before: map<nat, Match>, after: map<nat, Match>, number: nat) {
    (number in after <==> number in before) && (number in before ==> after[number] == before[number])
  }

  predicate IsNumber(groups: GroupMap, number: nat) {
    exists i :: 0 <= i < |groups| && groups[i].number == number
  }

  /** Every group's match is settled, and nothing but groups' matches is touched. */
  ghost predicate AllSettled(env: Env, groups: GroupMap, cache: SearchCache, done: set<Key>,
                             before: map<nat, Match>, after: map<nat, Match>) {
    && (forall i :: 0 <= i < |groups| ==> Settled(env, groups, cache, done, i, before, after))
    && (forall n :: !IsNumber(groups, n) ==> Same(before, after, n))
  }

  ghost predicate Clustered(env: Env, groups: GroupMap, clusters: seq<Cluster>) {
    && (forall i, k :: 0 <= i < k < |clusters| ==> clusters[i].key != clusters[k].key)
    && (forall i :: 0 <= i < |clusters| ==> clusters[i].members == Members(env, groups, clusters[i].key))
    && (forall g :: 0 <= g < |groups| ==> KeyKnown(env, groups[g].files, clusters))
  }

  predicate KeyKnown(env: Env, files: seq<File>, clusters: seq<Cluster>) {
    RunKey(env, files).Some? ==>
      exists i :: 0 <= i < |clusters| && clusters[i].key == RunKey(env, files).value
  }

  method FindCluster(clusters: seq<Cluster>, key: Key) returns (k: nat)
    ensures k <= |clusters| && (k < |clusters| ==> clusters[k].key == key)
    ensures forall i :: 0 <= i < k ==> clusters[i].key != key
  {
    k := 0;
    while k < |clusters| && clusters[k].key != key
      invariant k <= |clusters| && forall i :: 0 <= i < k ==> clusters[i].key != key
    {
      k := k + 1;
    }
  }

  lemma NoMembersYet(env: Env, groups: GroupMap, clusters: seq<Cluster>, key: Key)
    requires Clustered(env, groups, clusters)
    requires forall i :: 0 <= i < |clusters| ==> clusters[i].key != key
    ensures Members(env, groups, key) == []
  {
    var members := Members(env, groups, key);
    assert members != [] ==> HasKey(env, groups, members[0], key);
  }

  /** A group whose key has a cluster joins it. */
  lemma JoinsItsCluster(env: Env, groups: GroupMap, g: nat, clusters: seq<Cluster>, k: nat)
    requires g < |groups| && Clustered(env, groups[..g], clusters) && k < |clusters|
    requires RunKey(env, groups[g].files) == Some(clusters[k].key)
    ensures Clustered(env, groups[..g + 1], clusters[k := Cluster(clusters[k].key, clusters[k].members + [g])])
  {
    var after := clusters[k := Cluster(clusters[k].key, clusters[k].members + [g])];
    forall i | 0 <= i < |after| ensures after[i].members == Members(env, groups[..g + 1], after[i].key) {
      MembersStep(env, groups, g, clusters[i].key);
    }
    assert after[k].key == RunKey(env, groups[g].files).value;
    var before, now := groups[..g], groups[..g + 1];
    forall h | 0 <= h < |now| ensures KeyKnown(env, now[h].files, after) {
      if h < g { KnownStays(env, before[h].files, clusters, after); }
    }
  }

  /** A group with a new key opens a cluster. */
  lemma OpensItsCluster(env: Env, groups: GroupMap, g: nat, clusters: seq<Cluster>, key: Key)
    requires g < |groups| && Clustered(env, groups[..g], clusters) && RunKey(env, groups[g].files) == Some(key)
    requires forall i :: 0 <= i < |clusters| ==> clusters[i].key != key
    ensures Clustered(env, groups[..g + 1], clusters + [Cluster(key, [g])])
  {
    var after := clusters + [Cluster(key, [g])];
    NoMembersYet(env, groups[..g], clusters, key);
    forall i | 0 <= i < |after| ensures after[i].members == Members(env, groups[..g + 1], after[i].key) {
      MembersStep(env, groups, g, after[i].key);
    }
    assert after[|clusters|].key == key;
    var before, now := groups[..g], groups[..g + 1];
    forall h | 0 <= h < |now| ensures KeyKnown(env, now[h].files, after) {
      if h < g { KnownStays(env, before[h].files, clusters, after); }
    }
  }

  lemma UnclusteredStep(env: Env, groups: GroupMap, g: nat, clusters: seq<Cluster>)
    requires g < |groups| && Clustered(env, groups[..g], clusters) && RunKey(env, groups[g].files).None?
    ensures Clustered(env, groups[..g + 1], clusters)
  {
    var before, now := groups[..g], groups[..g + 1];
    forall i | 0 <= i < |clusters| ensures clusters[i].members == Members(env, now, clusters[i].key) {
      MembersStep(env, groups, g, clusters[i].key);
    }
    forall h | 0 <= h < |now| ensures KeyKnown(env, now[h].files, clusters) {
      if h < g { assert now[h] == before[h]; }
    }
  }

  method MakeClusters(env: Env, groups: GroupMap) returns (clusters: seq<Cluster>)
    ensures Clustered(env, groups, clusters)
  {
    clusters := [];
    for g := 0 to |groups|
      invariant Clustered(env, groups[..g], clusters)
    {
      var key := RunKey(env, groups[g].files);
      if key.Some? {
        var k := FindCluster(clusters, key.value);
        if k < |clusters| {
          JoinsItsCluster(env, groups, g, clusters, k);
          clusters := clusters[k := Cluster(clusters[k].key, clusters[k].members + [g])];
        } else {
          OpensItsCluster(env, groups, g, clusters, key.value);
          clusters := clusters + [Cluster(key.value, [g])];
        }
      } else {
        UnclusteredStep(env, groups, g, clusters);
      }
    }
    assert groups[..|groups|] == groups;
  }

  lemma MembersStep(env: Env, groups: GroupMap, g: nat, key: Key)
    requires g < |groups|
    ensures Members(env, groups[..g + 1], key)
            == Members(env, groups[..g], key) + if RunKey(env, groups[g].files) == Some(key) then [g] else []
  {
    assert groups[..g + 1][..g] == groups[..g];
  }

  lemma KnownStays(env: Env, files: seq<File>, earlier: seq<Cluster>, clusters: seq<Cluster>)
    requires KeyKnown(env, files, earlier) && |earlier| <= |clusters|
    requires forall i :: 0 <= i < |earlier| ==> clusters[i].key == earlier[i].key
    ensures KeyKnown(env, files, clusters)
  {
    if RunKey(env, files).Some? {
      var i :| 0 <= i < |earlier| && earlier[i].key == RunKey(env, files).value;
      assert clusters[i].key == RunKey(env, files).value;
    }
  }

  /** Give every member of a cluster the same match. */
  method Assign(groups: GroupMap, members: seq<nat>, shared: Match, matches: map<nat, Match>)
    returns (result: map<nat, Match>)
    requires DistinctNumbers(groups)
    requires forall i :: 0 <= i < |members| ==> members[i] < |groups|
    ensures forall i :: 0 <= i < |members| ==>
      groups[members[i]].number in result && result[groups[members[i]].number] == shared
    ensures forall g :: 0 <= g < |groups| && g !in members ==> Same(matches, result, groups[g].number)
    ensures forall n :: !IsNumber(groups, n) ==> Same(matches, result, n)
  {
    result := matches;
    for m := 0 to |members|
      invariant forall i :: 0 <= i < m ==>
        groups[members[i]].number in result && result[groups[members[i]].number] == shared
      invariant forall g :: 0 <= g < |groups| && g !in members ==> Same(matches, result, groups[g].number)
      invariant forall n :: !IsNumber(groups, n) ==> Same(matches, result, n)
    {
      assert IsNumber(groups, groups[members[m]].number);
      result := result[groups[members[m]].number := shared];
    }
  }

  /** Decide one cluster: the winner, or none. */
  method ClusterWinner(env: Env, groups: GroupMap, cache: SearchCache, cluster: Cluster) returns (winner: Option<Series>)
    requires cluster.members == Members(env, groups, cluster.key)
    ensures winner == Promotion(env, groups, cache, cluster.key)
  {
    if |cluster.members| < 2 { return None; }
    assert forall i :: 0 <= i < |cluster.members| ==> HasKey(env, groups, cluster.members[i], cluster.key);
    var files := FilesOf(groups, cluster.members);
    var run := IsSingleIssueRun(files);
    if !run { return None; }
    if cluster.key.series !in cache || cache[cluster.key.series] == [] { return None; }
    var combined := CombinedFiles(files);
    winner := SelectSeriesRunWinner(combined, env.rank(combined, cache[cluster.key.series]));
  }

  lemma ClusterSettled(env: Env, groups: GroupMap, cache: SearchCache, done: set<Key>, key: Key, before: map<nat, Match>,
                       mid: map<nat, Match>, after: map<nat, Match>)
    requires AllSettled(env, groups, cache, done, before, mid) && key !in done
    requires match Promotion(env, groups, cache, key)
      case None => after == mid
      case Some(w) =>
        && (forall i :: 0 <= i < |Members(env, groups, key)| ==>
            var n := groups[Members(env, groups, key)[i]].number;
            n in after && after[n] == FormatMatch(w))
        && (forall g :: 0 <= g < |groups| && g !in Members(env, groups, key) ==> Same(mid, after, groups[g].number))
        && (forall n :: !IsNumber(groups, n) ==> Same(mid, after, n))
    ensures AllSettled(env, groups, cache, done + {key}, before, after)
  {
    forall g | 0 <= g < |groups| ensures Settled(env, groups, cache, done + {key}, g, before, after) {
      assert Settled(env, groups, cache, done, g, before, mid);
      if HasKey(env, groups, g, key) {
        MembersAreAll(env, groups, key, g);
      }
    }
  }

  /** The series the group at position g ends up promoted to. */
  ghost function Promoted(env: Env, groups: GroupMap, cache: SearchCache, g: nat): Option<Series>
    requires g < |groups|
  {
    var key := RunKey(env, groups[g].files);
    if key.None? then None else Promotion(env, groups, cache, key.value)
  }

  /** A promoted group has its series' match; any other group has what it had. */
  ghost predicate ContextApplied(env: Env, groups: GroupMap, cache: SearchCache, g: nat,
                                 before: map<nat, Match>, after: map<nat, Match>)
    requires g < |groups|
  {
    match Promoted(env, groups, cache, g)
    case Some(w) => groups[g].number in after && after[groups[g].number] == FormatMatch(w)
    case None => Same(before, after, groups[g].number)
  }

  /** One turn of the loop over the clusters. */
  method ApplyCluster(env: Env, groups: GroupMap, cache: SearchCache, cluster: Cluster, ghost done: set<Key>,
                      ghost before: map<nat, Match>, mid: map<nat, Match>) returns (result: map<nat, Match>)
    requires DistinctNumbers(groups) && cluster.members == Members(env, groups, cluster.key)
    requires AllSettled(env, groups, cache, done, before, mid) && cluster.key !in done
    ensures AllSettled(env, groups, cache, done + {cluster.key}, before, result)
  {
    var winner := ClusterWinner(env, groups, cache, cluster);
    result := mid;
    if winner.Some? {
      assert forall i :: 0 <= i < |cluster.members| ==> HasKey(env, groups, cluster.members[i], cluster.key);
      result := Assign(groups, cluster.members, FormatMatch(winner.value), mid);
    }
    ClusterSettled(env, groups, cache, done, cluster.key, before, mid, result);
  }

  method ApplySeriesRunContext(env: Env, groups: GroupMap, matches: map<nat, Match>, cache: SearchCache)
    returns (result: map<nat, Match>)
    requires DistinctNumbers(groups)
    ensures forall g :: 0 <= g < |groups| ==> ContextApplied(env, groups, cache, g, matches, result)
    ensures forall n :: !IsNumber(groups, n) ==> Same(matches, result, n)
    ensures PromotesWholeRuns(env, groups, matches, result)
  {
    var clusters := MakeClusters(env, groups);
    result := matches;
    for c := 0 to |clusters|
      invariant AllSettled(env, groups, cache, KeySet(clusters, c), matches, result)
    {
      if clusters[c].key in KeySet(clusters, c) { var i := InKeySet(clusters, c, clusters[c].key); }
      result := ApplyCluster(env, groups, cache, clusters[c], KeySet(clusters, c), matches, result);
    }
    forall g | 0 <= g < |groups| ensures ContextApplied(env, groups, cache, g, matches, result) {
      AllKeysAreIn(env, groups[g].files, clusters);
      assert Settled(env, groups, cache, KeySet(clusters, |clusters|), g, matches, result);
    }
    OnlyWholeRuns(env, groups, cache, matches, result);
  }

  /** The groups of one run share one fate, and a group in no run with another keeps its match. */
  ghost predicate PromotesWholeRuns(env: Env, groups: GroupMap, before: map<nat, Match>, after: map<nat, Match>) {
    && (forall g, h :: 0 <= g < |groups| && 0 <= h < |groups| && SameRun(env, groups[g].files, groups[h].files) ==>
          AllOrNothing(before, after, groups[g].number, groups[h].number))
    && (forall g :: 0 <= g < |groups| && Alone(env, groups, g) ==> Same(before, after, groups[g].number))
  }

  ghost predicate Alone(env: Env, groups: GroupMap, g: nat)
    requires g < |groups|
  {
    forall h :: 0 <= h < |groups| && h != g ==> !SameRun(env, groups[g].files, groups[h].files)
  }

  lemma OnlyWholeRuns(env: Env, groups: GroupMap, cache: SearchCache, before: map<nat, Match>, after: map<nat, Match>)
    requires forall g :: 0 <= g < |groups| ==> ContextApplied(env, groups, cache, g, before, after)
    ensures PromotesWholeRuns(env, groups, before, after)
  {
    forall g, h | 0 <= g < |groups| && 0 <= h < |groups| && SameRun(env, groups[g].files, groups[h].files)
      ensures AllOrNothing(before, after, groups[g].number, groups[h].number)
    {
      WholeRunOrNothing(env, groups, cache, g, h, before, after);
    }
    forall g | 0 <= g < |groups| && Alone(env, groups, g) ensures Same(before, after, groups[g].number) {
      LoneGroupKeepsItsMatch(env, groups, cache, g, before, after);
    }
  }

  /** The keys of the first n clusters. */
  function KeySet(clusters: seq<Cluster>, n: nat): set<Key>
    requires n <= |clusters|
  {
    if n == 0 then {} else KeySet(clusters, n - 1) + {clusters[n - 1].key}
  }

  lemma {:induction false} InKeySet(clusters: seq<Cluster>, n: nat, key: Key) returns (i: nat)
    requires n <= |clusters| && key in KeySet(clusters, n)
    ensures i < n && clusters[i].key == key
  {
    if clusters[n - 1].key == key { i := n - 1; } else { i := InKeySet(clusters, n - 1, key); }
  }

  lemma {:induction false} KeySetHolds(clusters: seq<Cluster>, n: nat, i: nat)
    requires i < n <= |clusters|
    ensures clusters[i].key in KeySet(clusters, n)
  {
    if i < n - 1 { KeySetHolds(clusters, n - 1, i); }
  }

  lemma AllKeysAreIn(env: Env, files: seq<File>, clusters: seq<Cluster>)
    requires KeyKnown(env, files, clusters)
    ensures RunKey(env, files).Some? ==> RunKey(env, files).value in KeySet(clusters, |clusters|)
  {
    if RunKey(env, files).Some? {
      var i :| 0 <= i < |clusters| && clusters[i].key == RunKey(env, files).value;
      KeySetHolds(clusters, |clusters|, i);
    }
  }

  /** Two groups keep their own matches, or end with one equal match. */
  predicate AllOrNothing(before: map<nat, Match>, after: map<nat, Match>, m: nat, n: nat) {
    || (Same(before, after, m) && Same(before, after, n))
    || (m in after && n in after && after[m] == after[n] && after[m].seriesContext)
  }

  /** Run context is all or nothing: the groups of one run end with one equal match, or all keep theirs. */
  lemma WholeRunOrNothing(env: Env, groups: GroupMap, cache: SearchCache, g: nat, h: nat,
                          before: map<nat, Match>, after: map<nat, Match>)
    requires g < |groups| && h < |groups| && SameRun(env, groups[g].files, groups[h].files)
    requires ContextApplied(env, groups, cache, g, before, after) && ContextApplied(env, groups, cache, h, before, after)
    ensures AllOrNothing(before, after, groups[g].number, groups[h].number)
  {
  }

  /** The positions are exactly those of the groups in one regular run with the group at g, in order. */
  ghost predicate IsRunOf(env: Env, groups: GroupMap, g: nat, members: seq<nat>)
    requires g < |groups|
  {
    && (forall i :: 0 <= i < |members| ==> members[i] < |groups|)
    && (forall i, k :: 0 <= i < k < |members| ==> members[i] < members[k])
    && forall h :: 0 <= h < |groups| ==> (h in members <==> SameRun(env, groups[g].files, groups[h].files))
  }

  /** A group is promoted only within a regular run of at least two groups, one of them its own, whose files taken
      together are at least three and form an unambiguous sequence; and only to a series its title's search found. */
  lemma PromotionNeedsARun(env: Env, groups: GroupMap, cache: SearchCache, g: nat) returns (members: seq<nat>)
    requires g < |groups| && Promoted(env, groups, cache, g).Some?
    ensures IsRunOf(env, groups, g, members) && g in members
    ensures exists h :: 0 <= h < |groups| && h != g && SameRun(env, groups[g].files, groups[h].files)
    ensures IsRun(Flatten(FilesOf(groups, members))) && |Flatten(FilesOf(groups, members))| >= 3
    ensures env.fold(groups[g].files[0].traits.series) in cache
    ensures Promoted(env, groups, cache, g) ==
      var combined := PutAll([], Flatten(FilesOf(groups, members)));
      Winner(HighestIssue(combined), env.rank(combined, cache[env.fold(groups[g].files[0].traits.series)]))
  {
    var key := RunKey(env, groups[g].files).value;
    members := Members(env, groups, key);
    MembersAscend(env, groups, key);
    forall h | 0 <= h < |groups| ensures h in members <==> SameRun(env, groups[g].files, groups[h].files) {
      MemberExactly(env, groups, key, h);
    }
    assert forall i :: 0 <= i < |members| ==> HasKey(env, groups, members[i], key);
    var h := if members[0] == g then members[1] else members[0];
    assert h in members;
  }

  /** And whenever a regular run is all that, its groups are promoted, to that winner. */
  lemma PromotionExactly(env: Env, groups: GroupMap, cache: SearchCache, g: nat) returns (members: seq<nat>)
    requires g < |groups| && SameRun(env, groups[g].files, groups[g].files)
    ensures IsRunOf(env, groups, g, members)
    ensures var files, title := Flatten(FilesOf(groups, members)), env.fold(groups[g].files[0].traits.series);
      Promoted(env, groups, cache, g) ==
        if |members| >= 2 && IsRun(files) && title in cache && cache[title] != []
        then Winner(HighestIssue(PutAll([], files)), env.rank(PutAll([], files), cache[title])) else None
  {
    var key := RunKey(env, groups[g].files).value;
    members := Members(env, groups, key);
    MembersAscend(env, groups, key);
    forall h | 0 <= h < |groups| ensures h in members <==> SameRun(env, groups[g].files, groups[h].files) {
      MemberExactly(env, groups, key, h);
    }
    assert forall i :: 0 <= i < |members| ==> HasKey(env, groups, members[i], key);
  }

  /** A group in no regular run with another one keeps its own match. */
  lemma LoneGroupKeepsItsMatch(env: Env, groups: GroupMap, cache: SearchCache, g: nat,
                               before: map<nat, Match>, after: map<nat, Match>)
    requires g < |groups| && ContextApplied(env, groups, cache, g, before, after)
    requires Alone(env, groups, g)
    ensures Same(before, after, groups[g].number)
  {
    if Promoted(env, groups, cache, g).Some? {
      var _ := PromotionNeedsARun(env, groups, cache, g);
    }
  }

  lemma {:induction false} MembersAscend(env: Env, groups: GroupMap, key: Key)
    ensures forall i, k :: 0 <= i < k < |Members(env, groups, key)| ==> Members(env, groups, key)[i] < Members(env, groups, key)[k]
  {
    if groups != [] {
      var front := groups[..|groups| - 1];
      MembersAscend(env, front, key);
      assert forall i :: 0 <= i < |Members(env, front, key)| ==> HasKey(env, front, Members(env, front, key)[i], key);
    }
  }

  /** When every group has a match to begin with, no key of the result is new or missing. */
  lemma KeySetIsKept(env: Env, groups: GroupMap, cache: SearchCache, before: map<nat, Match>, after: map<nat, Match>)
    requires forall g :: 0 <= g < |groups| ==> groups[g].number in before
    requires forall g :: 0 <= g < |groups| ==> ContextApplied(env, groups, cache, g, before, after)
    requires forall n :: !IsNumber(groups, n) ==> Same(before, after, n)
    ensures before.Keys == after.Keys
  {
    forall n: nat ensures n in before <==> n in after {
      if IsNumber(groups, n) {
        var g :| 0 <= g < |groups| && groups[g].number == n;
        assert ContextApplied(env, groups, cache, g, before, after);
      } else {
        assert Same(before, after, n);
      }
    }
  }

  // ---------------------------------------------------------------- an overlapping run is promoted

  lemma OneFile(a: File)
    ensures Kinds([a]) == [a.traits] && IsGrouping([a], [Group(1, [a])])
  {
    assert [] + [a] == [a];
    OpensItsKind([], a, []);
    KindsGrow([], a);
    assert [] + [Group(1, [a])] == [Group(1, [a])];
  }

  lemma TwoFiles(a: File, b: File)
    requires a.traits != b.traits
    ensures Kinds([a, b]) == [a.traits, b.traits] && IsGrouping([a, b], [Group(1, [a]), Group(2, [b])])
  {
    OneFile(a);
    assert [a] + [b] == [a, b];
    OpensItsKind([a], b, [Group(1, [a])]);
    KindsGrow([a], b);
    assert [Group(1, [a])] + [Group(2, [b])] == [Group(1, [a]), Group(2, [b])];
  }

  /** The groups `create_groups` makes of a file of one year and two of another. */
  lemma TwoYears(a: File, b: File, c: File)
    requires a.traits != b.traits && b.traits == c.traits
    ensures IsGrouping([a, b, c], [Group(1, [a]), Group(2, [b, c])])
  {
    TwoFiles(a, b);
    assert [a, b] + [c] == [a, b, c];
    JoinsItsKind([a, b], c, [Group(1, [a]), Group(2, [b])], 1);
    assert [b] + [c] == [b, c];
    assert [Group(1, [a]), Group(2, [b])][1 := Group(2, [b, c])] == [Group(1, [a]), Group(2, [b, c])];
  }

  lemma TwoMembers(env: Env, one: Group, two: Group, key: Key)
    requires RunKey(env, one.files) == Some(key) && RunKey(env, two.files) == Some(key)
    ensures Members(env, [one, two], key) == [0, 1]
    ensures Flatten([one.files, two.files]) == one.files + two.files
  {
    assert [one, two][..1] == [one] && [one][..0] == [];
    assert Members(env, [one], key) == [0];
    assert [one.files, two.files][..1] == [one.files] && [one.files][..0] == [];
    assert Flatten([one.files]) == one.files;
  }

  /** The only candidate the search offers stands out unless its score is negative. */
  lemma SoleCandidateWins(highest: Option<real>, ranked: Ranking)
    requires |ranked| == 1 && ranked[0].1 >= MIN_MATCH_SCORE
    ensures Winner(highest, ranked) == Some(ranked[0].0)
  {
    assert StandsOut(highest, ranked, 0);
    WinnerIs(highest, ranked, 0);
  }

  /** The guard against overlapping numbering lets this folder through: 1-10 of one year, then 2-3 and 4-5 of
      another, the only search result acceptable. Both groups are promoted, though their files share numbers. */
  lemma OverlappingRunIsPromoted(env: Env, cache: SearchCache, a: File, b: File, c: File)
    requires a.name != b.name && a.name != c.name && b.name != c.name
    requires a.issue == Some(Range(1.0, 10.0)) && b.issue == Some(Range(2.0, 3.0)) && c.issue == Some(Range(4.0, 5.0))
    requires b.traits == c.traits && a.traits == b.traits.(year := a.traits.year) && a.traits.year != b.traits.year
    requires a.traits.special.None? && !a.traits.annual
    requires var title := env.fold(a.traits.series);
      && title != Title("") && title in cache && cache[title] != []
      && var ranked := env.rank([a, b, c], cache[title]); |ranked| == 1 && ranked[0].1 >= MIN_MATCH_SCORE
    ensures var groups := [Group(1, [a]), Group(2, [b, c])];
      && IsGrouping([a, b, c], groups)
      && Promoted(env, groups, cache, 0).Some? && Promoted(env, groups, cache, 1) == Promoted(env, groups, cache, 0)
      && Share(a.issue.value, b.issue.value) && Share(a.issue.value, c.issue.value)
  {
    var groups := [Group(1, [a]), Group(2, [b, c])];
    var key := Key(env.fold(a.traits.series), a.traits.volume);
    TwoYears(a, b, c);
    TwoMembers(env, groups[0], groups[1], key);
    NestedRun(a, b, c);
    assert [a] + [b, c] == [a, b, c];
    assert FilesOf(groups, [0, 1]) == [[a], [b, c]];
    CombiningKeepsAll([a, b, c]);
    SoleCandidateWins(HighestIssue([a, b, c]), env.rank([a, b, c], cache[key.series]));
    assert Promotion(env, groups, cache, key).Some?;
    assert Covers(a.issue.value, 2.0) && Covers(b.issue.value, 2.0) && Covers(a.issue.value, 4.0) && Covers(c.issue.value, 4.0);
  }
}
