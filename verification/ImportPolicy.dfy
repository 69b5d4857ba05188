/** The confidence policy that decides what is imported with no human: score, margin, and the two
    tie-breaks. The generic ranker's output is taken as an arbitrary list of candidates with base scores. */
module ImportPolicy {
  import opened Basics
  import opened Characters
  import opened Sequences

  /** A path as its components, with no trailing separator. */
  type Folder = seq<string>

  datatype IssueNumber = Single(number: real) | Range(low: real, high: real)
  datatype FileEvidence = FileEvidence(issue: Option<IssueNumber>, year: Option<int>)

  datatype Candidate = Candidate(
    comicvineId: Option<nat>, externalId: string, provider: string,
    title: string, year: Option<int>, volumeNumber: Option<int>,
    issueCount: nat, alreadyAdded: Option<nat>)

  datatype Reason = NoCandidate | WeakScore | Tie
  datatype Verdict = Accept(candidate: Candidate) | Hold(reason: Reason)

  const AUTO_IMPORT_MIN_MATCH_SCORE := 0
  const AUTO_IMPORT_MIN_SCORE_MARGIN := 1
  const AUTO_IMPORT_EXACT_YEAR_BONUS := 1
  const AUTO_IMPORT_ISSUE_CAPACITY_BONUS := 2
  const AUTO_IMPORT_ISSUE_CAPACITY_PENALTY := 2
  const ISSUE_CAPACITY_RATING_PENALTY := 1
  const DEFAULT_METADATA_PROVIDER_ID := "comicvine"

  // ---------------------------------------------------------------- evidence and score

  function Top(issue: IssueNumber): real {
    match issue
    case Single(n) => n
    case Range(a, b) => if a >= b then a else b
  }

  /** No issue of the file lies above n. */
  predicate UpTo(issue: IssueNumber, n: real) {
    match issue
    case Single(number) => number <= n
    case Range(low, high) => low <= n && high <= n
  }

  /** The file carries the number n, as its issue or as an end of its range. */
  predicate Carries(issue: IssueNumber, n: real) {
    match issue
    case Single(number) => number == n
    case Range(low, high) => low == n || high == n
  }

  /** `r` is the highest issue number any of the files carries; None when none does. */
  ghost predicate IsHighest(group: seq<FileEvidence>, r: Option<real>) {
    && (forall i :: 0 <= i < |group| && group[i].issue.Some? ==> r.Some? && UpTo(group[i].issue.value, r.value))
    && (r.Some? ==> exists i :: 0 <= i < |group| && group[i].issue.Some? && Carries(group[i].issue.value, r.value))
  }

  function Highest(group: seq<FileEvidence>): (r: Option<real>)
    ensures IsHighest(group, r)
  {
    if group == [] then None
    else
      var front := Highest(group[..|group| - 1]);
      var last := group[|group| - 1].issue;
      if last.Some? && (front.None? || Top(last.value) > front.value) then Some(Top(last.value)) else front
  }

  method HighestIssueNumber(group: seq<FileEvidence>) returns (highest: Option<real>)
    ensures IsHighest(group, highest) && highest == Highest(group)
  {
    highest := None;
    for n := 0 to |group|
      invariant highest == Highest(group[..n])
    {
      assert group[..n + 1][..n] == group[..n];
      if group[n].issue.Some? {
        var candidate := Top(group[n].issue.value);
        if highest.None? || candidate > highest.value { highest := Some(candidate); }
      }
    }
    assert group[..|group|] == group;
  }

  predicate YearAgrees(group: seq<FileEvidence>, c: Candidate) {
    c.year.Some? && exists i :: 0 <= i < |group| && group[i].year == c.year
  }

  /** Base score, plus a point for an exact year, plus two for being able to hold the highest issue, or
      else the policy's penalty in place of the ranker's own. */
  function PolicyScore(group: seq<FileEvidence>, c: Candidate, base: int): int {
    var year := if YearAgrees(group, c) then AUTO_IMPORT_EXACT_YEAR_BONUS else 0;
    var highest := Highest(group);
    var capacity :=
      if highest.None? then 0
      else if c.issueCount as real >= highest.value then AUTO_IMPORT_ISSUE_CAPACITY_BONUS
      else ISSUE_CAPACITY_RATING_PENALTY - AUTO_IMPORT_ISSUE_CAPACITY_PENALTY;
    base + year + capacity
  }

  /** Being able to hold the files' issues never costs a candidate, and is worth three points. */
  lemma CapacityOrdersCandidates(group: seq<FileEvidence>, c: Candidate, d: Candidate, base: int)
    requires Highest(group).Some? && YearAgrees(group, c) == YearAgrees(group, d)
    ensures PolicyScore(group, c, base) - PolicyScore(group, d, base) ==
      (if c.issueCount as real >= Highest(group).value then 1 else 0) * 3
      - (if d.issueCount as real >= Highest(group).value then 1 else 0) * 3
  {
  }

  /** Some file was published in the candidate's year. */
  ghost predicate OfItsYear(group: seq<FileEvidence>, c: Candidate) {
    exists i :: 0 <= i < |group| && group[i].year.Some? && c.year == group[i].year
  }

  /** Some file carries an issue number. */
  ghost predicate Numbered(group: seq<FileEvidence>) {
    exists i :: 0 <= i < |group| && group[i].issue.Some?
  }

  /** The candidate has enough issues for every number the files carry. */
  ghost predicate HasRoom(group: seq<FileEvidence>, c: Candidate) {
    forall i :: 0 <= i < |group| && group[i].issue.Some? ==> UpTo(group[i].issue.value, c.issueCount as real)
  }

  /** What the files say for or against a candidate beyond the ranker's score: a point for its year; and where
      they are numbered at all, two points for room for them all, one point off for too little. */
  ghost function Evidence(group: seq<FileEvidence>, c: Candidate): int {
    (if OfItsYear(group, c) then 1 else 0) + if !Numbered(group) then 0 else if HasRoom(group, c) then 2 else -1
  }

  lemma RoomForHighest(group: seq<FileEvidence>, c: Candidate)
    ensures Numbered(group) <==> Highest(group).Some?
    ensures Numbered(group) ==> (HasRoom(group, c) <==> c.issueCount as real >= Highest(group).value)
  {
    if Numbered(group) && HasRoom(group, c) {
      var i :| 0 <= i < |group| && group[i].issue.Some? && Carries(group[i].issue.value, Highest(group).value);
    }
  }

  /** The policy's score is the ranker's plus the evidence. */
  lemma ScoreIsEvidence(group: seq<FileEvidence>, c: Candidate, base: int)
    ensures PolicyScore(group, c, base) == base + Evidence(group, c)
  {
    RoomForHighest(group, c);
    if OfItsYear(group, c) {
      var i :| 0 <= i < |group| && group[i].year.Some? && c.year == group[i].year;
      assert YearAgrees(group, c);
    }
  }

  // ---------------------------------------------------------------- identities and their order

  function Provider(c: Candidate): string {
    if c.provider == "" then DEFAULT_METADATA_PROVIDER_ID else c.provider
  }

  /** The provider's own id of the row, as text: the external id, else a non-zero ComicVine id, else empty. */
  function IdText(c: Candidate): string {
    if c.externalId != "" then c.externalId
    else if c.comicvineId.Some? && c.comicvineId.value != 0 then Decimal(c.comicvineId.value)
    else ""
  }

  function Identity(c: Candidate): (string, string) {
    (Provider(c), IdText(c))
  }

  function Alnum(title: string): string {
    if title == [] then []
    else
      var c := title[0];
      (if 'A' <= c <= 'Z' || 'a' <= c <= 'z' || IsDigit(c) then [LowerChar(c)] else []) + Alnum(title[1..])
  }

  function SeriesIdentity(c: Candidate): (string, Option<int>, Option<int>) {
    (Alnum(c.title), c.year, c.volumeNumber)
  }

  datatype Rank = Rank(secondary: int, fewer: int, provider: string, id: string)

  function RankOf(c: Candidate): Rank {
    Rank(if Provider(c) == DEFAULT_METADATA_PROVIDER_ID then 0 else 1, 0 - c.issueCount as int, Provider(c), IdText(c))
  }

  /** Tuple order. */
  predicate RankLe(a: Rank, b: Rank) {
    a.secondary < b.secondary || (a.secondary == b.secondary &&
    (a.fewer < b.fewer || (a.fewer == b.fewer &&
    (if a.provider == b.provider then !TextLess(b.id, a.id) else TextLess(a.provider, b.provider)))))
  }

  lemma RankOrder(a: Rank, b: Rank, c: Rank)
    ensures RankLe(a, b) || RankLe(b, a)
    ensures RankLe(a, b) && RankLe(b, a) ==> a == b
    ensures RankLe(a, b) && RankLe(b, c) ==> RankLe(a, c)
  {
    TextOrder(a.provider, b.provider, c.provider);
    TextOrder(a.provider, b.provider, a.provider);
    TextOrder(b.provider, c.provider, a.provider);
    TextOrder(c.id, b.id, a.id);
    TextOrder(a.id, b.id, a.id);
    TextOrder(c.id, a.id, b.id);
  }

  /** `min(tied, key=rank)`: the first of the lowest. */
  function LowestRank(tied: seq<Candidate>): (r: Candidate)
    requires tied != []
    ensures r in tied
  {
    if |tied| == 1 then tied[0]
    else
      var front := LowestRank(tied[..|tied| - 1]);
      var last := tied[|tied| - 1];
      assert tied == tied[..|tied| - 1] + [last];
      if RankLe(RankOf(front), RankOf(last)) then front else last
  }

  lemma {:induction false} LowestIsLowest(tied: seq<Candidate>)
    requires tied != []
    ensures forall c :: c in tied ==> RankLe(RankOf(LowestRank(tied)), RankOf(c))
  {
    var last := tied[|tied| - 1];
    if |tied| == 1 {
      RankOrder(RankOf(last), RankOf(last), RankOf(last));
    } else {
      var rest := tied[..|tied| - 1];
      var front := LowestRank(rest);
      assert tied == rest + [last];
      LowestIsLowest(rest);
      RankOrder(RankOf(front), RankOf(last), RankOf(last));
      forall c | c in tied ensures RankLe(RankOf(LowestRank(tied)), RankOf(c)) {
        RankOrder(RankOf(last), RankOf(front), RankOf(c));
        RankOrder(RankOf(last), RankOf(last), RankOf(last));
      }
    }
  }

  // ---------------------------------------------------------------- the tie-breaks

  /** `{c['comicvine_id']: c['already_added'] ...}`: a later candidate overwrites an earlier one with the
      same ComicVine id, and every candidate of another provider has the same one, None. */
  function AddedIds(tied: seq<Candidate>): map<Option<nat>, nat> {
    if tied == [] then map[]
    else
      var last := tied[|tied| - 1];
      var front := AddedIds(tied[..|tied| - 1]);
      if last.alreadyAdded.Some? then front[last.comicvineId := last.alreadyAdded.value] else front
  }

  predicate Inside(base: Folder, folder: Folder) {
    base <= folder
  }

  /** A candidate whose local volume was looked up, exists, and owns the files' folder. */
  predicate Owns(c: Candidate, added: map<Option<nat>, nat>, library: map<nat, Folder>, folder: Folder) {
    && c.alreadyAdded.Some?
    && (exists id :: id in added && added[id] == c.alreadyAdded.value)
    && c.alreadyAdded.value in library
    && Inside(library[c.alreadyAdded.value], folder)
  }

  function OwnerTest(added: map<Option<nat>, nat>, library: map<nat, Folder>, folder: Folder): Candidate -> bool {
    (c: Candidate) => Owns(c, added, library, folder)
  }

  function Owners(tied: seq<Candidate>, library: map<nat, Folder>, folder: Folder): seq<Candidate> {
    Filter(tied, OwnerTest(AddedIds(tied), library, folder))
  }

  function FolderOwningCandidate(tied: seq<Candidate>, library: map<nat, Folder>, folder: Option<Folder>): Option<Candidate> {
    if |tied| < 2 || AddedIds(tied) == map[] || folder.None? then None
    else
      var owners := Owners(tied, library, folder.value);
      if |owners| == 1 then Some(owners[0]) else None
  }

  predicate OneSeries(tied: seq<Candidate>) {
    && |tied| >= 2
    && (forall c, d :: c in tied && d in tied ==> SeriesIdentity(c) == SeriesIdentity(d))
    && (exists c, d :: c in tied && d in tied && Provider(c) != Provider(d))
  }

  function OneSeriesReportedTwice(tied: seq<Candidate>): Option<Candidate> {
    if OneSeries(tied) then Some(LowestRank(tied)) else None
  }

  /** The row comes from ComicVine, which is also what a row without a provider counts as. */
  predicate OfComicVine(c: Candidate) {
    c.provider == "" || c.provider == "comicvine"
  }

  /** Two rows come from different databases. */
  predicate OtherProvider(c: Candidate, d: Candidate) {
    c.provider != d.provider && !(OfComicVine(c) && OfComicVine(d))
  }

  predicate NamedAlike(c: Candidate, d: Candidate) {
    Alnum(c.title) == Alnum(d.title) && c.year == d.year && c.volumeNumber == d.volumeNumber
  }

  /** A tie is one series reported twice exactly when all rows agree on title (up to case and punctuation),
      year and volume number, and two of them come from different databases. */
  lemma OneSeriesExactly(tied: seq<Candidate>)
    ensures OneSeriesReportedTwice(tied).Some? <==>
      (forall c, d :: c in tied && d in tied ==> NamedAlike(c, d)) && (exists c, d :: c in tied && d in tied && OtherProvider(c, d))
  {
    assert (forall c, d :: c in tied && d in tied ==> SeriesIdentity(c) == SeriesIdentity(d))
      <==> (forall c, d :: c in tied && d in tied ==> NamedAlike(c, d)) by { AlikeIsIdentity(tied); }
    TwoProviders(tied);
  }

  lemma AlikeIsIdentity(tied: seq<Candidate>)
    ensures forall c, d :: c in tied && d in tied ==> (SeriesIdentity(c) == SeriesIdentity(d) <==> NamedAlike(c, d))
  {
  }

  lemma TwoProviders(tied: seq<Candidate>)
    ensures (exists c, d :: c in tied && d in tied && Provider(c) != Provider(d))
      <==> exists c, d :: c in tied && d in tied && OtherProvider(c, d)
    ensures (exists c, d :: c in tied && d in tied && OtherProvider(c, d)) ==> |tied| >= 2
  {
    if c, d :| c in tied && d in tied && Provider(c) != Provider(d) { assert OtherProvider(c, d); }
    if c, d :| c in tied && d in tied && OtherProvider(c, d) {
      assert Provider(c) != Provider(d);
      TwoMembers(tied, c, d);
    }
  }

  lemma TwoMembers(tied: seq<Candidate>, c: Candidate, d: Candidate)
    requires c in tied && d in tied && c != d
    ensures |tied| >= 2
  {
  }

  /** Letters and digits count, in either case; nothing else does. */
  predicate Counts(c: char) {
    'a' <= c <= 'z' || 'A' <= c <= 'Z' || '0' <= c <= '9'
  }

  /** Two titles count as one exactly when their letters and digits are the same ones in the same order, up to case. */
  lemma SameTitleExactly(s: string, t: string)
    ensures Alnum(s) == Alnum(t) <==> Lower(Filter(s, Counts)) == Lower(Filter(t, Counts))
  {
    AlnumIsLowerOfCounting(s);
    AlnumIsLowerOfCounting(t);
  }

  lemma {:induction false} AlnumIsLowerOfCounting(s: string)
    ensures Alnum(s) == Lower(Filter(s, Counts))
  {
    if s == [] {
    } else {
      var rest := s[1..];
      assert s == [s[0]] + rest;
      FilterPrefix([s[0]], rest, Counts);
      FilterOne(s[0], Counts);
      AlnumIsLowerOfCounting(rest);
      LowerJoins(Filter([s[0]], Counts), Filter(rest, Counts));
      assert Lower(Filter([s[0]], Counts)) == if Counts(s[0]) then [LowerChar(s[0])] else [];
    }
  }

  lemma LowerJoins(a: string, b: string)
    ensures Lower(a + b) == Lower(a) + Lower(b)
  {
  }

  /** What stands for a row's own id: the id its database gave it, else a non-zero ComicVine id, else nothing. */
  predicate Named(c: Candidate, text: string) {
    && (c.externalId != "" ==> text == c.externalId)
    && (c.externalId == "" && c.comicvineId.Some? && c.comicvineId.value > 0 ==> text == Decimal(c.comicvineId.value))
    && (c.externalId == "" && (c.comicvineId.None? || c.comicvineId.value == 0) ==> text == "")
  }

  /** Of rows for one series, a ComicVine row is taken if there is any; of those the one with the most issues;
      then the one whose database, and then whose id, comes first as text. */
  lemma FullestRowIsTaken(tied: seq<Candidate>, d: Candidate, idc: string, idd: string)
    requires OneSeriesReportedTwice(tied).Some? && d in tied
    requires Named(OneSeriesReportedTwice(tied).value, idc) && Named(d, idd)
    ensures var c := OneSeriesReportedTwice(tied).value;
      && c in tied
      && (OfComicVine(d) ==> OfComicVine(c))
      && (OfComicVine(d) == OfComicVine(c) ==> c.issueCount >= d.issueCount)
      && (OfComicVine(d) == OfComicVine(c) && c.issueCount == d.issueCount ==>
            if OfComicVine(c) || c.provider == d.provider then !TextLess(idd, idc) else TextLess(c.provider, d.provider))
  {
    LowestIsLowest(tied);
  }

  /** The row's local volume was looked up, and its folder is the files' folder or one above it. */
  lemma OwnsFromAbove(c: Candidate, added: map<Option<nat>, nat>, library: map<nat, Folder>, folder: Folder)
    ensures Owns(c, added, library, folder) <==>
      && c.alreadyAdded.Some? && c.alreadyAdded.value in added.Values && c.alreadyAdded.value in library
      && exists rest: Folder :: folder == library[c.alreadyAdded.value] + rest
  {
    if c.alreadyAdded.Some? && c.alreadyAdded.value in library {
      var base := library[c.alreadyAdded.value];
      if base <= folder { assert folder == base + folder[|base|..]; }
    }
  }

  // ---------------------------------------------------------------- the decision

  type Ranked = (Candidate, int)

  function Scored(group: seq<FileEvidence>): Ranked -> int {
    (r: Ranked) => PolicyScore(group, r.0, r.1)
  }

  function Candidates(ranked: seq<Ranked>): (r: seq<Candidate>)
    ensures |r| == |ranked| && forall i :: 0 <= i < |r| ==> r[i] == ranked[i].0
  {
    seq(|ranked|, i requires 0 <= i < |ranked| => ranked[i].0)
  }

  /** The candidates that share the best score, in list order. */
  function Tied(group: seq<FileEvidence>, ranked: seq<Ranked>, best: int): seq<Candidate> {
    Candidates(Filter(ranked, Scoring(Scored(group), best)))
  }

  function Best(group: seq<FileEvidence>, ranked: seq<Ranked>): (best: int)
    requires ranked != []
    ensures exists i :: 0 <= i < |ranked| && Scored(group)(ranked[i]) == best
    ensures forall i :: 0 <= i < |ranked| ==> Scored(group)(ranked[i]) <= best
  {
    var last := Scored(group)(ranked[|ranked| - 1]);
    if |ranked| == 1 then last
    else
      var front := Best(group, ranked[..|ranked| - 1]);
      if front >= last then front else last
  }

  /** The decision, without sorting: who has the best score, and what settles a tie. */
  function Decide(group: seq<FileEvidence>, ranked: seq<Ranked>, library: map<nat, Folder>, folder: Option<Folder>): Verdict {
    if ranked == [] then Hold(NoCandidate)
    else
      var best := Best(group, ranked);
      var tied := Tied(group, ranked, best);
      if best < AUTO_IMPORT_MIN_MATCH_SCORE then Hold(WeakScore)
      else if |tied| == 1 then Accept(tied[0])
      else
        var owner := FolderOwningCandidate(tied, library, folder);
        var series := OneSeriesReportedTwice(tied);
        if owner.Some? then Accept(owner.value)
        else if series.Some? then Accept(series.value)
        else Hold(Tie)
  }

  /** The importer's procedure: score, sort in place, look at the winner and the runner-up. */
  method SelectAutoImportVolumeResult(group: seq<FileEvidence>, ranked: seq<Ranked>,
                                      library: map<nat, Folder>, folder: Option<Folder>)
    returns (verdict: Verdict)
    ensures verdict == Decide(group, ranked, library, folder)
  {
    if ranked == [] { return Hold(NoCandidate); }
    var key := Scored(group);
    var sorted := SortDescending(ranked, key);
    SortedFacts(group, ranked);
    var best := key(sorted[0]);
    if best < AUTO_IMPORT_MIN_MATCH_SCORE { return Hold(WeakScore); }
    if |sorted| > 1 {
      var runnerUp := key(sorted[1]);
      if best - runnerUp < AUTO_IMPORT_MIN_SCORE_MARGIN {
        var tied := Tied(group, sorted, best);
        var owner := FolderOwningCandidate(tied, library, folder);
        if owner.Some? { return Accept(owner.value); }
        var series := OneSeriesReportedTwice(tied);
        if series.Some? { return Accept(series.value); }
        return Hold(Tie);
      }
    }
    return Accept(sorted[0].0);
  }

  /** What the sorted list's first two entries say about the unsorted one. */
  lemma SortedFacts(group: seq<FileEvidence>, ranked: seq<Ranked>)
    requires ranked != []
    ensures var key := Scored(group);
      var sorted := SortDescending(ranked, key);
      var best := Best(group, ranked);
      && |sorted| == |ranked| && key(sorted[0]) == best
      && Tied(group, sorted, best) == Tied(group, ranked, best)
      && (|sorted| > 1 && key(sorted[1]) == best <==> |Tied(group, ranked, best)| >= 2)
      && (|sorted| == 1 || key(sorted[1]) < best ==> Tied(group, ranked, best) == [sorted[0].0])
      && (|sorted| > 1 ==> key(sorted[1]) <= best)
  {
    var key := Scored(group);
    var sorted := SortDescending(ranked, key);
    var best := Best(group, ranked);
    SortingIsStable(ranked, key);
    BestIsOnTop(ranked, sorted, key, best);
    TopOfSorted(sorted, key, best);
  }

  lemma BestIsOnTop(ranked: seq<Ranked>, sorted: seq<Ranked>, key: Ranked -> int, best: int)
    requires multiset(sorted) == multiset(ranked) && Descending(sorted, key) && sorted != []
    requires exists i :: 0 <= i < |ranked| && key(ranked[i]) == best
    requires forall i :: 0 <= i < |ranked| ==> key(ranked[i]) <= best
    ensures key(sorted[0]) == best && forall k :: 0 <= k < |sorted| ==> key(sorted[k]) <= best
  {
    ReorderedMembers(sorted, ranked);
    forall k | 0 <= k < |sorted| ensures key(sorted[k]) <= best {
      assert sorted[k] in ranked;
      var i :| 0 <= i < |ranked| && ranked[i] == sorted[k];
    }
    var i :| 0 <= i < |ranked| && key(ranked[i]) == best;
    assert ranked[i] in sorted;
    var k :| 0 <= k < |sorted| && sorted[k] == ranked[i];
    DescendingPairs(sorted, key, 0, k);
  }

  lemma TopOfSorted(sorted: seq<Ranked>, key: Ranked -> int, best: int)
    requires sorted != [] && Descending(sorted, key) && key(sorted[0]) == best
    ensures |sorted| == 1 || key(sorted[1]) < best ==> Filter(sorted, Scoring(key, best)) == [sorted[0]]
    ensures |sorted| > 1 && key(sorted[1]) == best ==> |Filter(sorted, Scoring(key, best))| >= 2
  {
    var p := Scoring(key, best);
    var rest := sorted[1..];
    assert sorted == [sorted[0]] + rest;
    FilterPrefix([sorted[0]], rest, p);
    FilterOne(sorted[0], p);
    if |sorted| == 1 || key(sorted[1]) < best {
      NoneBelowTop(sorted, key, best);
    } else {
      assert rest == [rest[0]] + rest[1..];
      FilterPrefix([rest[0]], rest[1..], p);
      FilterOne(rest[0], p);
    }
  }

  lemma NoneBelowTop(sorted: seq<Ranked>, key: Ranked -> int, best: int)
    requires sorted != [] && Descending(sorted, key) && (|sorted| == 1 || key(sorted[1]) < best)
    ensures Filter(sorted[1..], Scoring(key, best)) == []
  {
    var rest := sorted[1..];
    forall k | 0 <= k < |rest| ensures key(rest[k]) < best {
      DescendingPairs(sorted, key, 1, k + 1);
    }
    FilterNone(rest, Scoring(key, best));
  }

  // ---------------------------------------------------------------- what an acceptance means

  /** The candidate occurs in the list with this policy score. */
  ghost predicate HasScore(group: seq<FileEvidence>, ranked: seq<Ranked>, c: Candidate, score: int) {
    exists i :: 0 <= i < |ranked| && ranked[i].0 == c && Scored(group)(ranked[i]) == score
  }

  lemma TiedMembers(group: seq<FileEvidence>, ranked: seq<Ranked>, best: int)
    ensures forall c :: c in Tied(group, ranked, best) <==> HasScore(group, ranked, c, best)
  {
    var kept := Filter(ranked, Scoring(Scored(group), best));
    var tied := Tied(group, ranked, best);
    FilterMembers(ranked, Scoring(Scored(group), best));
    forall c ensures c in tied <==> HasScore(group, ranked, c, best) {
      if c in tied {
        var k :| 0 <= k < |tied| && tied[k] == c;
        assert kept[k] in kept && kept[k] in ranked;
        var i :| 0 <= i < |ranked| && ranked[i] == kept[k];
      }
      if HasScore(group, ranked, c, best) {
        var i :| 0 <= i < |ranked| && ranked[i].0 == c && Scored(group)(ranked[i]) == best;
        assert ranked[i] in kept;
        var k :| 0 <= k < |kept| && kept[k] == ranked[i];
        assert tied[k] == c;
      }
    }
  }

  /** Nothing is imported unattended unless its score is the best, is not negative, and is either its own,
      or shared only because it is the one tied owner of the folder, or shared by rows that all name one
      series across at least two providers. */
  lemma AcceptanceIsSafe(group: seq<FileEvidence>, ranked: seq<Ranked>, library: map<nat, Folder>, folder: Option<Folder>)
    requires Decide(group, ranked, library, folder).Accept?
    ensures ranked != []
    ensures var c := Decide(group, ranked, library, folder).candidate;
      var best := Best(group, ranked);
      var tied := Tied(group, ranked, best);
      && best >= 0 && c in tied && HasScore(group, ranked, c, best)
      && (|tied| == 1
          || (folder.Some? && Owners(tied, library, folder.value) == [c])
          || (OneSeries(tied) && forall d :: d in tied ==> RankLe(RankOf(c), RankOf(d))))
  {
    var best := Best(group, ranked);
    var tied := Tied(group, ranked, best);
    TiedMembers(group, ranked, best);
    if OneSeries(tied) { LowestIsLowest(tied); }
    var owner := FolderOwningCandidate(tied, library, folder);
    if owner.Some? {
      FilterMembers(tied, OwnerTest(AddedIds(tied), library, folder.value));
      assert Owners(tied, library, folder.value)[0] in Owners(tied, library, folder.value);
    }
  }

  /** One entry whose ranking and evidence together beat every other's is what is decided on: accepted unless
      they add up to less than nothing, whatever the library holds. */
  lemma StrictlyBestDecides(group: seq<FileEvidence>, ranked: seq<Ranked>, i: nat, library: map<nat, Folder>, folder: Option<Folder>)
    requires i < |ranked|
    requires forall k :: 0 <= k < |ranked| && k != i ==>
      ranked[k].1 + Evidence(group, ranked[k].0) < ranked[i].1 + Evidence(group, ranked[i].0)
    ensures Decide(group, ranked, library, folder) ==
      if ranked[i].1 + Evidence(group, ranked[i].0) >= 0 then Accept(ranked[i].0) else Hold(WeakScore)
  {
    forall k | 0 <= k < |ranked|
      ensures Scored(group)(ranked[k]) == ranked[k].1 + Evidence(group, ranked[k].0)
    {
      ScoreIsEvidence(group, ranked[k].0, ranked[k].1);
    }
    var best := Best(group, ranked);
    OnlyBest(ranked, Scored(group), best, i);
    assert Tied(group, ranked, best) == [ranked[i].0];
  }

  lemma OnlyBest(ranked: seq<Ranked>, key: Ranked -> int, best: int, i: nat)
    requires i < |ranked| && forall k :: 0 <= k < |ranked| && k != i ==> key(ranked[k]) < key(ranked[i])
    requires exists k :: 0 <= k < |ranked| && key(ranked[k]) == best
    requires forall k :: 0 <= k < |ranked| ==> key(ranked[k]) <= best
    ensures key(ranked[i]) == best && Filter(ranked, Scoring(key, best)) == [ranked[i]]
  {
    FilterSingle(ranked, Scoring(key, best), i);
  }

  /** Among candidates the ranker and the issue numbers cannot tell apart, the only one whose year a file names
      is the one accepted. */
  lemma ExactYearWins(group: seq<FileEvidence>, ranked: seq<Ranked>, i: nat, library: map<nat, Folder>, folder: Option<Folder>)
    requires i < |ranked| && ranked[i].1 >= 0 && OfItsYear(group, ranked[i].0)
    requires forall k :: 0 <= k < |ranked| && k != i ==>
      && ranked[k].1 == ranked[i].1 && !OfItsYear(group, ranked[k].0)
      && (HasRoom(group, ranked[k].0) <==> HasRoom(group, ranked[i].0))
    ensures Decide(group, ranked, library, folder) == Accept(ranked[i].0)
  {
    StrictlyBestDecides(group, ranked, i, library, folder);
  }

  /** And the only one with room for the files' numbers is accepted, whatever their years. */
  lemma RoomWins(group: seq<FileEvidence>, ranked: seq<Ranked>, i: nat, library: map<nat, Folder>, folder: Option<Folder>)
    requires i < |ranked| && ranked[i].1 >= -2 && Numbered(group) && HasRoom(group, ranked[i].0)
    requires forall k :: 0 <= k < |ranked| && k != i ==> ranked[k].1 == ranked[i].1 && !HasRoom(group, ranked[k].0)
    ensures Decide(group, ranked, library, folder) == Accept(ranked[i].0)
  {
    StrictlyBestDecides(group, ranked, i, library, folder);
  }

  /** A tie at the top that is not below zero goes first to the one tied row that owns the files' folder, then to the
      fullest row of a series reported twice; there is no third way. */
  lemma TiesAreSettledInTurn(group: seq<FileEvidence>, ranked: seq<Ranked>, library: map<nat, Folder>, folder: Option<Folder>)
    requires ranked != [] && Best(group, ranked) >= 0 && |Tied(group, ranked, Best(group, ranked))| >= 2
    ensures var tied, v := Tied(group, ranked, Best(group, ranked)), Decide(group, ranked, library, folder);
      if folder.Some? && |Owners(tied, library, folder.value)| == 1 then v == Accept(Owners(tied, library, folder.value)[0])
      else if OneSeries(tied) then v == Accept(LowestRank(tied))
      else v == Hold(Tie)
  {
    var tied := Tied(group, ranked, Best(group, ranked));
    if folder.Some? && AddedIds(tied) == map[] { NobodyOwns(tied, library, folder.value); }
  }

  /** And what a hold means: nothing viable, everything below zero, or a tie neither rule settles. */
  lemma HoldsAreJustified(group: seq<FileEvidence>, ranked: seq<Ranked>, library: map<nat, Folder>, folder: Option<Folder>)
    ensures Decide(group, ranked, library, folder) == Hold(NoCandidate) <==> ranked == []
    ensures Decide(group, ranked, library, folder) == Hold(WeakScore) <==>
      ranked != [] && forall i :: 0 <= i < |ranked| ==> Scored(group)(ranked[i]) < 0
    ensures Decide(group, ranked, library, folder) == Hold(Tie) <==>
      && ranked != [] && Best(group, ranked) >= 0
      && var tied := Tied(group, ranked, Best(group, ranked));
         |tied| >= 2 && !OneSeries(tied) && (folder.None? || |Owners(tied, library, folder.value)| != 1)
  {
    if ranked != [] {
      SortedFacts(group, ranked);
      var tied := Tied(group, ranked, Best(group, ranked));
      if folder.Some? && AddedIds(tied) == map[] { NobodyOwns(tied, library, folder.value); }
    }
  }

  lemma NobodyOwns(tied: seq<Candidate>, library: map<nat, Folder>, folder: Folder)
    requires AddedIds(tied) == map[]
    ensures Owners(tied, library, folder) == []
  {
    FilterNone(tied, OwnerTest(AddedIds(tied), library, folder));
  }

  // ---------------------------------------------------------------- independence of list order

  ghost predicate SameOutcome(v: Verdict, w: Verdict) {
    match (v, w)
    case (Hold(r), Hold(q)) => r == q
    case (Accept(c), Accept(d)) => Identity(c) == Identity(d)
    case _ => false
  }

  /** Candidates that share a ComicVine id (or share having none) agree on the local volume they are added as. */
  ghost predicate SharedIdsAgree(tied: seq<Candidate>) {
    forall c, d :: c in tied && d in tied && c.comicvineId == d.comicvineId && c.alreadyAdded.Some? && d.alreadyAdded.Some? ==>
      c.alreadyAdded == d.alreadyAdded
  }

  /** The looked-up volumes are some candidate's, and every added candidate's ComicVine id is looked up. */
  lemma {:induction false} AddedIdsComeFromCandidates(tied: seq<Candidate>)
    ensures forall id :: id in AddedIds(tied) ==>
      exists c :: c in tied && c.comicvineId == id && c.alreadyAdded == Some(AddedIds(tied)[id])
    ensures forall c :: c in tied && c.alreadyAdded.Some? ==> c.comicvineId in AddedIds(tied)
  {
    if tied != [] {
      var front, last := tied[..|tied| - 1], tied[|tied| - 1];
      assert tied == front + [last];
      AddedIdsComeFromCandidates(front);
      forall id | id in AddedIds(tied)
        ensures exists c :: c in tied && c.comicvineId == id && c.alreadyAdded == Some(AddedIds(tied)[id])
      {
        if last.alreadyAdded.Some? && last.comicvineId == id {
          assert last in tied;
        } else {
          var c :| c in front && c.comicvineId == id && c.alreadyAdded == Some(AddedIds(front)[id]);
          assert c in tied;
        }
      }
    }
  }

  lemma AddedIdsReordered(xs: seq<Candidate>, ys: seq<Candidate>)
    requires multiset(xs) == multiset(ys) && SharedIdsAgree(xs)
    ensures AddedIds(xs) == AddedIds(ys)
  {
    ReorderedMembers(xs, ys);
    AddedIdsComeFromCandidates(xs);
    AddedIdsComeFromCandidates(ys);
    forall id | id in AddedIds(xs) ensures id in AddedIds(ys) && AddedIds(ys)[id] == AddedIds(xs)[id] {
      var c :| c in xs && c.comicvineId == id && c.alreadyAdded == Some(AddedIds(xs)[id]);
      assert c in ys;
      var d :| d in ys && d.comicvineId == id && d.alreadyAdded == Some(AddedIds(ys)[id]);
      assert d in xs;
    }
    forall id | id in AddedIds(ys) ensures id in AddedIds(xs) {
      var d :| d in ys && d.comicvineId == id && d.alreadyAdded == Some(AddedIds(ys)[id]);
      assert d in xs;
    }
  }

  /** The look-up table of the owner test is the same for every order of the tied candidates exactly when
      candidates sharing a ComicVine id agree on their local volume. */
  lemma LookupIgnoresOrderExactly(xs: seq<Candidate>)
    ensures SharedIdsAgree(xs) <==> forall ys :: multiset(ys) == multiset(xs) ==> AddedIds(ys) == AddedIds(xs)
  {
    if SharedIdsAgree(xs) {
      forall ys | multiset(ys) == multiset(xs) ensures AddedIds(ys) == AddedIds(xs) {
        AddedIdsReordered(xs, ys);
      }
    } else {
      var c, d :| c in xs && d in xs && c.comicvineId == d.comicvineId && c.alreadyAdded.Some? && d.alreadyAdded.Some?
                  && c.alreadyAdded != d.alreadyAdded;
      var cLast, dLast := MovedLast(xs, c), MovedLast(xs, d);
      assert cLast[..|cLast| - 1] + [c] == cLast && dLast[..|dLast| - 1] + [d] == dLast;
      assert AddedIds(cLast)[c.comicvineId] == c.alreadyAdded.value;
      assert AddedIds(dLast)[c.comicvineId] == d.alreadyAdded.value;
      assert AddedIds(cLast) != AddedIds(dLast);
    }
  }

  ghost function MovedLast(xs: seq<Candidate>, c: Candidate): (r: seq<Candidate>)
    requires c in xs
    ensures multiset(r) == multiset(xs) && r != [] && r[|r| - 1] == c
  {
    var k :| 0 <= k < |xs| && xs[k] == c;
    assert xs == xs[..k] + [c] + xs[k + 1..];
    xs[..k] + xs[k + 1..] + [c]
  }

  lemma {:induction false} CandidateCount(xs: seq<Ranked>, c: Candidate)
    ensures multiset(Candidates(xs))[c] == |Filter(xs, (r: Ranked) => r.0 == c)|
  {
    if xs != [] {
      var front, last := xs[..|xs| - 1], xs[|xs| - 1];
      CandidateCount(front, c);
      assert Candidates(xs) == Candidates(front) + [last.0];
    }
  }

  lemma CandidatesReordered(xs: seq<Ranked>, ys: seq<Ranked>)
    requires multiset(xs) == multiset(ys)
    ensures multiset(Candidates(xs)) == multiset(Candidates(ys))
  {
    forall c ensures multiset(Candidates(xs))[c] == multiset(Candidates(ys))[c] {
      CandidateCount(xs, c);
      CandidateCount(ys, c);
      FilterReordered(xs, ys, (r: Ranked) => r.0 == c);
    }
  }

  lemma BestReordered(group: seq<FileEvidence>, xs: seq<Ranked>, ys: seq<Ranked>)
    requires multiset(xs) == multiset(ys) && xs != []
    ensures ys != [] && Best(group, xs) == Best(group, ys)
  {
    ReorderedMembers(xs, ys);
    var key := Scored(group);
    var i :| 0 <= i < |xs| && key(xs[i]) == Best(group, xs);
    assert xs[i] in ys;
    var k :| 0 <= k < |ys| && key(ys[k]) == Best(group, ys);
    assert ys[k] in xs;
  }

  lemma OwnersReordered(xs: seq<Candidate>, ys: seq<Candidate>, library: map<nat, Folder>, folder: Option<Folder>)
    requires multiset(xs) == multiset(ys) && SharedIdsAgree(xs)
    ensures FolderOwningCandidate(xs, library, folder) == FolderOwningCandidate(ys, library, folder)
  {
    ReorderedMembers(xs, ys);
    AddedIdsReordered(xs, ys);
    if folder.Some? {
      var added := AddedIds(xs);
      FilterReordered(xs, ys, (c: Candidate) => Owns(c, added, library, folder.value));
      SingletonReordered(Owners(xs, library, folder.value), Owners(ys, library, folder.value));
    }
  }

  lemma SingletonReordered(a: seq<Candidate>, b: seq<Candidate>)
    requires multiset(a) == multiset(b)
    ensures |a| == |b| && (|a| == 1 ==> a == b)
  {
    ReorderedMembers(a, b);
    if |a| == 1 { assert a[0] in b; }
  }

  lemma SeriesReordered(xs: seq<Candidate>, ys: seq<Candidate>)
    requires multiset(xs) == multiset(ys)
    ensures OneSeries(xs) <==> OneSeries(ys)
    ensures OneSeries(xs) ==> Identity(LowestRank(xs)) == Identity(LowestRank(ys))
  {
    ReorderedMembers(xs, ys);
    if OneSeries(xs) {
      LowestIsLowest(xs);
      LowestIsLowest(ys);
      RankOrder(RankOf(LowestRank(xs)), RankOf(LowestRank(ys)), RankOf(LowestRank(xs)));
    }
  }

  lemma TiedReordered(group: seq<FileEvidence>, xs: seq<Ranked>, ys: seq<Ranked>, best: int)
    requires multiset(xs) == multiset(ys)
    ensures multiset(Tied(group, xs, best)) == multiset(Tied(group, ys, best))
  {
    var p := Scoring(Scored(group), best);
    FilterReordered(xs, ys, p);
    CandidatesReordered(Filter(xs, p), Filter(ys, p));
  }

  // ---------------------------------------------------------------- exactly when the order does not matter

  predicate Added(c: Candidate) {
    c.alreadyAdded.Some?
  }

  /** The candidate's own local volume exists and owns the files' folder. */
  predicate Claims(c: Candidate, library: map<nat, Folder>, folder: Folder) {
    Added(c) && c.alreadyAdded.value in library && Inside(library[c.alreadyAdded.value], folder)
  }

  function SameVolume(c: Candidate): Candidate -> bool {
    (d: Candidate) => Added(d) && d.alreadyAdded == c.alreadyAdded
  }

  /** It claims the folder, and no other row of the list is added as the same volume. */
  predicate ClaimsAlone(xs: seq<Candidate>, c: Candidate, library: map<nat, Folder>, folder: Folder) {
    c in xs && Claims(c, library, folder) && |Filter(xs, SameVolume(c))| == 1
  }

  /** Among the rows of every other ComicVine id that is added at all, one does not claim the folder. */
  ghost predicate OthersCanYield(xs: seq<Candidate>, c: Candidate, library: map<nat, Folder>, folder: Folder) {
    forall d :: d in xs && Added(d) && d.comicvineId != c.comicvineId ==> Yields(xs, d, library, folder)
  }

  predicate Yields(xs: seq<Candidate>, d: Candidate, library: map<nat, Folder>, folder: Folder) {
    exists e :: e in xs && Added(e) && e.comicvineId == d.comicvineId && !Claims(e, library, folder)
  }

  /** The row can be picked as the folder's owner, in some order. */
  ghost predicate CanWin(xs: seq<Candidate>, c: Candidate, library: map<nat, Folder>, folder: Folder) {
    ClaimsAlone(xs, c, library, folder) && OthersCanYield(xs, c, library, folder)
  }

  /** Some owner is picked in every order: every row of this row's ComicVine id claims alone, no other claims. */
  ghost predicate AlwaysWon(xs: seq<Candidate>, c: Candidate, library: map<nat, Folder>, folder: Folder) {
    && CanWin(xs, c, library, folder)
    && (forall d :: d in xs && Added(d) && d.comicvineId == c.comicvineId ==> ClaimsAlone(xs, d, library, folder))
    && (forall d :: d in xs && Added(d) && d.comicvineId != c.comicvineId ==> !Claims(d, library, folder))
  }

  /** What is decided when no single owner is found. */
  function WithoutOwner(tied: seq<Candidate>): Verdict {
    if OneSeries(tied) then Accept(LowestRank(tied)) else Hold(Tie)
  }

  /** Whoever can be picked is what is decided without an owner anyway; or one ComicVine id is picked in every
      order, and the rows of it that can be picked are one identity. */
  ghost predicate OrderIsIrrelevant(tied: seq<Candidate>, library: map<nat, Folder>, folder: Folder) {
    || (forall c :: CanWin(tied, c, library, folder) ==> SameOutcome(Accept(c), WithoutOwner(tied)))
    || ((exists c :: AlwaysWon(tied, c, library, folder))
        && forall c, d :: CanWin(tied, c, library, folder) && CanWin(tied, d, library, folder) ==> Identity(c) == Identity(d))
  }

  // ---- filters and rearrangements

  function Not(p: Candidate -> bool): Candidate -> bool {
    (c: Candidate) => !p(c)
  }

  /** The selected rows moved to the end. */
  function SelectedLast(xs: seq<Candidate>, p: Candidate -> bool): seq<Candidate> {
    Filter(xs, Not(p)) + Filter(xs, p)
  }

  lemma {:induction false} SelectedLastReorders(xs: seq<Candidate>, p: Candidate -> bool)
    ensures multiset(SelectedLast(xs, p)) == multiset(xs)
  {
    forall c ensures multiset(SelectedLast(xs, p))[c] == multiset(xs)[c] {
      FilterCounts(xs, p, c);
      FilterCounts(xs, Not(p), c);
    }
  }

  /** Later rows overwrite the table of earlier ones. */
  lemma {:induction false} TableOf(a: seq<Candidate>, b: seq<Candidate>)
    ensures AddedIds(a + b) == AddedIds(a) + AddedIds(b)
  {
    if b == [] {
      assert a + b == a;
    } else {
      TableOf(a, b[..|b| - 1]);
      assert (a + b)[..|a + b| - 1] == a + b[..|b| - 1];
    }
  }

  /** With the selected rows last, the table entry of an id that is selected at all comes from a selected row. */
  lemma TableEntry(xs: seq<Candidate>, p: Candidate -> bool, d: Candidate)
    requires d in xs && Added(d) && p(d)
    ensures var table := AddedIds(SelectedLast(xs, p));
      d.comicvineId in table
      && exists e :: e in xs && p(e) && Added(e) && e.comicvineId == d.comicvineId && e.alreadyAdded == Some(table[d.comicvineId])
  {
    var first, last := Filter(xs, Not(p)), Filter(xs, p);
    TableOf(first, last);
    AddedIdsComeFromCandidates(last);
    FilterMembers(xs, p);
    assert d in last;
    var e :| e in last && e.comicvineId == d.comicvineId && e.alreadyAdded == Some(AddedIds(last)[d.comicvineId]);
  }

  /** Every id in the table belongs to an added row. */
  lemma TableIds(xs: seq<Candidate>, ys: seq<Candidate>, id: Option<nat>)
    requires multiset(xs) == multiset(ys) && id in AddedIds(ys)
    ensures exists c :: c in xs && Added(c) && c.comicvineId == id && c.alreadyAdded == Some(AddedIds(ys)[id])
  {
    AddedIdsComeFromCandidates(ys);
    ReorderedMembers(xs, ys);
    var c :| c in ys && c.comicvineId == id && c.alreadyAdded == Some(AddedIds(ys)[id]);
  }

  // ---- who owns, in a given order

  /** Some id's table entry is this row's volume. */
  predicate LookedUp(table: map<Option<nat>, nat>, c: Candidate) {
    Added(c) && exists id :: id in table && table[id] == c.alreadyAdded.value
  }

  lemma OwnersOf(ys: seq<Candidate>, library: map<nat, Folder>, folder: Folder, c: Candidate)
    ensures OwnerTest(AddedIds(ys), library, folder)(c) <==> Claims(c, library, folder) && LookedUp(AddedIds(ys), c)
  {
  }

  /** In an order whose table holds this row's volume and otherwise only volumes that do not claim, the owners
      are the rows added as this row's volume. */
  lemma OwnersAre(ys: seq<Candidate>, c: Candidate, library: map<nat, Folder>, folder: Folder)
    requires c in ys && Claims(c, library, folder) && LookedUp(AddedIds(ys), c)
    requires forall d :: d in ys && Claims(d, library, folder) && LookedUp(AddedIds(ys), d) ==> d.alreadyAdded == c.alreadyAdded
    ensures Owners(ys, library, folder) == Filter(ys, SameVolume(c))
  {
    var p, q := OwnerTest(AddedIds(ys), library, folder), SameVolume(c);
    forall d | d in ys ensures p(d) <==> q(d) { OwnersOf(ys, library, folder, d); }
    FilterWhere(ys, p, q);
  }

  /** Its volume last for its own id, and rows that yield last for every other id. */
  function Favouring(c: Candidate, library: map<nat, Folder>, folder: Folder): Candidate -> bool {
    (d: Candidate) =>
      Added(d) && if d.comicvineId == c.comicvineId then d.alreadyAdded == c.alreadyAdded else !Claims(d, library, folder)
  }

  lemma FavouredOwnEntry(xs: seq<Candidate>, c: Candidate, library: map<nat, Folder>, folder: Folder)
    requires c in xs && Added(c)
    ensures var table := AddedIds(SelectedLast(xs, Favouring(c, library, folder)));
      c.comicvineId in table && c.alreadyAdded == Some(table[c.comicvineId])
  {
    TableEntry(xs, Favouring(c, library, folder), c);
  }

  lemma FavouredOtherEntry(xs: seq<Candidate>, c: Candidate, library: map<nat, Folder>, folder: Folder, d: Candidate)
    requires d in xs && Added(d) && d.comicvineId != c.comicvineId && Yields(xs, d, library, folder)
    ensures var table := AddedIds(SelectedLast(xs, Favouring(c, library, folder)));
      && d.comicvineId in table
      && var volume := table[d.comicvineId]; !(volume in library && Inside(library[volume], folder))
  {
    var e :| e in xs && Added(e) && e.comicvineId == d.comicvineId && !Claims(e, library, folder);
    TableEntry(xs, Favouring(c, library, folder), e);
  }

  lemma FavouredTable(xs: seq<Candidate>, c: Candidate, library: map<nat, Folder>, folder: Folder, id: Option<nat>)
    requires c in xs && Added(c) && OthersCanYield(xs, c, library, folder)
    requires id in AddedIds(SelectedLast(xs, Favouring(c, library, folder)))
    ensures var volume := AddedIds(SelectedLast(xs, Favouring(c, library, folder)))[id];
      if id == c.comicvineId then c.alreadyAdded == Some(volume)
      else !(volume in library && Inside(library[volume], folder))
  {
    if id == c.comicvineId {
      FavouredOwnEntry(xs, c, library, folder);
    } else {
      SelectedLastReorders(xs, Favouring(c, library, folder));
      TableIds(xs, SelectedLast(xs, Favouring(c, library, folder)), id);
      var d :| d in xs && Added(d) && d.comicvineId == id;
      FavouredOtherEntry(xs, c, library, folder, d);
    }
  }

  /** In that order the owners are the rows added as its volume, or none when it does not claim the folder. */
  lemma FavouredOwners(xs: seq<Candidate>, c: Candidate, library: map<nat, Folder>, folder: Folder)
    requires c in xs && Added(c) && OthersCanYield(xs, c, library, folder)
    ensures var ys := SelectedLast(xs, Favouring(c, library, folder));
      && multiset(ys) == multiset(xs)
      && Owners(ys, library, folder) == if Claims(c, library, folder) then Filter(ys, SameVolume(c)) else []
  {
    var p := Favouring(c, library, folder);
    var ys := SelectedLast(xs, p);
    SelectedLastReorders(xs, p);
    ReorderedMembers(xs, ys);
    TableEntry(xs, p, c);
    var table := AddedIds(ys);
    FavouredTable(xs, c, library, folder, c.comicvineId);
    forall d | d in ys && Claims(d, library, folder) && LookedUp(table, d) ensures d.alreadyAdded == c.alreadyAdded {
      var id :| id in table && table[id] == d.alreadyAdded.value;
      FavouredTable(xs, c, library, folder, id);
    }
    if Claims(c, library, folder) {
      assert LookedUp(table, c);
      OwnersAre(ys, c, library, folder);
    } else {
      forall d | d in ys ensures !OwnerTest(table, library, folder)(d) { OwnersOf(ys, library, folder, d); }
      FilterNone(ys, OwnerTest(table, library, folder));
    }
  }

  /** The owner a list order gives is the only row it gives. */
  lemma OwnerIs(ys: seq<Candidate>, library: map<nat, Folder>, folder: Folder, c: Candidate)
    requires |ys| >= 2
    ensures FolderOwningCandidate(ys, library, Some(folder)) == Some(c) <==> Owners(ys, library, folder) == [c]
    ensures FolderOwningCandidate(ys, library, Some(folder)).None? <==> |Owners(ys, library, folder)| != 1
  {
    if AddedIds(ys) == map[] { NobodyOwns(ys, library, folder); }
  }

  /** A row can be picked in some order exactly when it claims alone and every other id can yield. */
  lemma WinnersExactly(xs: seq<Candidate>, library: map<nat, Folder>, folder: Folder, c: Candidate)
    requires |xs| >= 2
    ensures CanWin(xs, c, library, folder) <==>
      exists ys :: multiset(ys) == multiset(xs) && FolderOwningCandidate(ys, library, Some(folder)) == Some(c)
  {
    if CanWin(xs, c, library, folder) {
      var ys := SelectedLast(xs, Favouring(c, library, folder));
      FavouredOwners(xs, c, library, folder);
      ReorderedMembers(xs, ys);
      OneOfItsVolume(xs, ys, c, library, folder);
      OwnerIs(ys, library, folder, c);
    }
    if ys :| multiset(ys) == multiset(xs) && FolderOwningCandidate(ys, library, Some(folder)) == Some(c) {
      PickedCanWin(xs, ys, library, folder, c);
    }
  }

  lemma OneOfItsVolume(xs: seq<Candidate>, ys: seq<Candidate>, c: Candidate, library: map<nat, Folder>, folder: Folder)
    requires multiset(xs) == multiset(ys) && ClaimsAlone(xs, c, library, folder)
    ensures Filter(ys, SameVolume(c)) == [c]
  {
    FilterReordered(xs, ys, SameVolume(c));
    FilterMembers(ys, SameVolume(c));
    ReorderedMembers(xs, ys);
    assert c in Filter(ys, SameVolume(c));
  }

  lemma PickedClaims(ys: seq<Candidate>, library: map<nat, Folder>, folder: Folder, c: Candidate)
    requires Owners(ys, library, folder) == [c]
    ensures ClaimsAlone(ys, c, library, folder) && LookedUp(AddedIds(ys), c)
  {
    var p := OwnerTest(AddedIds(ys), library, folder);
    FilterMembers(ys, p);
    assert c in Owners(ys, library, folder);
    OwnersOf(ys, library, folder, c);
    forall d | d in ys && SameVolume(c)(d) ensures p(d) { OwnersOf(ys, library, folder, d); }
    FilterWhere(ys, SameVolume(c), p);
    FilterMembers(ys, SameVolume(c));
    assert c in Filter(ys, SameVolume(c));
  }

  lemma OthersYield(ys: seq<Candidate>, library: map<nat, Folder>, folder: Folder, c: Candidate, d: Candidate)
    requires Owners(ys, library, folder) == [c] && d in ys && Added(d) && d.comicvineId != c.comicvineId
    ensures Yields(ys, d, library, folder)
  {
    var table := AddedIds(ys);
    AddedIdsComeFromCandidates(ys);
    var e :| e in ys && e.comicvineId == d.comicvineId && e.alreadyAdded == Some(table[d.comicvineId]);
    OwnersOf(ys, library, folder, e);
    FilterMembers(ys, OwnerTest(table, library, folder));
    assert e !in Owners(ys, library, folder);
  }

  lemma PickedCanWin(xs: seq<Candidate>, ys: seq<Candidate>, library: map<nat, Folder>, folder: Folder, c: Candidate)
    requires multiset(ys) == multiset(xs) && FolderOwningCandidate(ys, library, Some(folder)) == Some(c)
    ensures CanWin(xs, c, library, folder)
  {
    ReorderedMembers(xs, ys);
    PickedClaims(ys, library, folder, c);
    FilterReordered(xs, ys, SameVolume(c));
    forall d | d in xs && Added(d) && d.comicvineId != c.comicvineId ensures Yields(xs, d, library, folder) {
      OthersYield(ys, library, folder, c, d);
    }
  }

  // ---- when every order picks an owner

  /** The volumes of these two rows last for their ids. */
  function FavouringBoth(c: Candidate, d: Candidate): Candidate -> bool {
    (e: Candidate) => Added(e)
      && ((e.comicvineId == c.comicvineId && e.alreadyAdded == c.alreadyAdded)
          || (e.comicvineId == d.comicvineId && e.alreadyAdded == d.alreadyAdded))
  }

  lemma BothInTable(xs: seq<Candidate>, c: Candidate, d: Candidate)
    requires c in xs && d in xs && c.comicvineId != d.comicvineId && Added(c) && Added(d)
    ensures LookedUp(AddedIds(SelectedLast(xs, FavouringBoth(c, d))), c)
    ensures LookedUp(AddedIds(SelectedLast(xs, FavouringBoth(c, d))), d)
  {
    var table := AddedIds(SelectedLast(xs, FavouringBoth(c, d)));
    TableEntry(xs, FavouringBoth(c, d), c);
    TableEntry(xs, FavouringBoth(c, d), d);
    assert table[c.comicvineId] == c.alreadyAdded.value && table[d.comicvineId] == d.alreadyAdded.value;
  }

  /** Two claiming rows of different ids can be looked up together, and then neither is picked. */
  lemma BothLookedUp(xs: seq<Candidate>, c: Candidate, d: Candidate, library: map<nat, Folder>, folder: Folder)
    requires c in xs && d in xs && c.comicvineId != d.comicvineId && |xs| >= 2
    requires Claims(c, library, folder) && Claims(d, library, folder)
    ensures exists ys :: multiset(ys) == multiset(xs) && FolderOwningCandidate(ys, library, Some(folder)).None?
  {
    var ys := SelectedLast(xs, FavouringBoth(c, d));
    SelectedLastReorders(xs, FavouringBoth(c, d));
    ReorderedMembers(xs, ys);
    BothInTable(xs, c, d);
    TwoOwners(ys, c, d, library, folder);
    OwnerIs(ys, library, folder, c);
  }

  lemma TwoOwners(ys: seq<Candidate>, c: Candidate, d: Candidate, library: map<nat, Folder>, folder: Folder)
    requires c in ys && d in ys && c != d && Claims(c, library, folder) && Claims(d, library, folder)
    requires LookedUp(AddedIds(ys), c) && LookedUp(AddedIds(ys), d)
    ensures |Owners(ys, library, folder)| != 1
  {
    OwnersOf(ys, library, folder, c);
    OwnersOf(ys, library, folder, d);
    FilterMembers(ys, OwnerTest(AddedIds(ys), library, folder));
    assert c in Owners(ys, library, folder) && d in Owners(ys, library, folder);
  }

  lemma AlwaysPickedIsAlwaysWon(xs: seq<Candidate>, library: map<nat, Folder>, folder: Folder)
    requires |xs| >= 2
    requires forall ys :: multiset(ys) == multiset(xs) ==> FolderOwningCandidate(ys, library, Some(folder)).Some?
    ensures exists c :: AlwaysWon(xs, c, library, folder)
  {
    var c := FolderOwningCandidate(xs, library, Some(folder)).value;
    PickedCanWin(xs, xs, library, folder, c);
    forall d | d in xs && Added(d) && d.comicvineId == c.comicvineId ensures ClaimsAlone(xs, d, library, folder) {
      assert OthersCanYield(xs, d, library, folder);
      var ys := SelectedLast(xs, Favouring(d, library, folder));
      FavouredOwners(xs, d, library, folder);
      ReorderedMembers(xs, ys);
      OwnerIs(ys, library, folder, d);
      FilterReordered(xs, ys, SameVolume(d));
    }
    forall d | d in xs && Added(d) && d.comicvineId != c.comicvineId ensures !Claims(d, library, folder) {
      if Claims(d, library, folder) { BothLookedUp(xs, c, d, library, folder); }
    }
    assert AlwaysWon(xs, c, library, folder);
  }

  lemma AlwaysWonIsAlwaysPicked(xs: seq<Candidate>, ys: seq<Candidate>, c: Candidate, library: map<nat, Folder>, folder: Folder)
    requires |xs| >= 2 && multiset(ys) == multiset(xs) && AlwaysWon(xs, c, library, folder)
    ensures FolderOwningCandidate(ys, library, Some(folder)).Some?
  {
    ReorderedMembers(xs, ys);
    AddedIdsComeFromCandidates(ys);
    var table := AddedIds(ys);
    var d :| d in ys && d.comicvineId == c.comicvineId && d.alreadyAdded == Some(table[c.comicvineId]);
    assert ClaimsAlone(xs, d, library, folder) && LookedUp(table, d);
    forall e | e in ys && Claims(e, library, folder) && LookedUp(table, e) ensures e.alreadyAdded == d.alreadyAdded {
      var id :| id in table && table[id] == e.alreadyAdded.value;
      TableIds(xs, ys, id);
      var f :| f in xs && Added(f) && f.comicvineId == id && f.alreadyAdded == Some(table[id]);
      assert Claims(f, library, folder);
    }
    OwnersAre(ys, d, library, folder);
    OneOfItsVolume(xs, ys, d, library, folder);
    OwnerIs(ys, library, folder, d);
  }

  // ---- the decision among tied rows

  function Settle(tied: seq<Candidate>, library: map<nat, Folder>, folder: Folder): Verdict {
    var owner := FolderOwningCandidate(tied, library, Some(folder));
    if owner.Some? then Accept(owner.value) else WithoutOwner(tied)
  }

  lemma OutcomeOrder(u: Verdict, v: Verdict, w: Verdict)
    ensures SameOutcome(u, u) && (SameOutcome(u, v) ==> SameOutcome(v, u))
    ensures SameOutcome(u, v) && SameOutcome(v, w) ==> SameOutcome(u, w)
  {
  }

  lemma WithoutOwnerReordered(xs: seq<Candidate>, ys: seq<Candidate>)
    requires multiset(xs) == multiset(ys) && xs != []
    ensures SameOutcome(WithoutOwner(xs), WithoutOwner(ys))
  {
    ReorderedMembers(xs, ys);
    SeriesReordered(xs, ys);
  }

  lemma SettledSame(xs: seq<Candidate>, ys: seq<Candidate>, library: map<nat, Folder>, folder: Folder)
    requires |xs| >= 2 && multiset(ys) == multiset(xs) && OrderIsIrrelevant(xs, library, folder)
    ensures SameOutcome(Settle(ys, library, folder), Settle(xs, library, folder))
  {
    WithoutOwnerReordered(xs, ys);
    var picked, first := FolderOwningCandidate(ys, library, Some(folder)), FolderOwningCandidate(xs, library, Some(folder));
    if picked.Some? { PickedCanWin(xs, ys, library, folder, picked.value); }
    if first.Some? { PickedCanWin(xs, xs, library, folder, first.value); }
    if forall c :: CanWin(xs, c, library, folder) ==> SameOutcome(Accept(c), WithoutOwner(xs)) {
      OutcomeOrder(Settle(ys, library, folder), WithoutOwner(xs), Settle(xs, library, folder));
      OutcomeOrder(WithoutOwner(ys), WithoutOwner(xs), WithoutOwner(ys));
    } else {
      var c :| AlwaysWon(xs, c, library, folder);
      AlwaysWonIsAlwaysPicked(xs, ys, c, library, folder);
      AlwaysWonIsAlwaysPicked(xs, xs, c, library, folder);
    }
  }

  lemma WinnersAgree(xs: seq<Candidate>, library: map<nat, Folder>, folder: Folder, c: Candidate, v: Verdict)
    requires |xs| >= 2 && CanWin(xs, c, library, folder)
    requires forall ys :: multiset(ys) == multiset(xs) ==> SameOutcome(Settle(ys, library, folder), v)
    ensures SameOutcome(Accept(c), v)
  {
    WinnersExactly(xs, library, folder, c);
    var ys :| multiset(ys) == multiset(xs) && FolderOwningCandidate(ys, library, Some(folder)) == Some(c);
    assert Settle(ys, library, folder) == Accept(c);
  }

  /** The same verdict for every order of the tied rows. */
  ghost predicate SettledAlike(xs: seq<Candidate>, library: map<nat, Folder>, folder: Folder) {
    forall ys :: multiset(ys) == multiset(xs) ==> SameOutcome(Settle(ys, library, folder), Settle(xs, library, folder))
  }

  lemma AlikeIsIrrelevant(xs: seq<Candidate>, library: map<nat, Folder>, folder: Folder)
    requires |xs| >= 2 && SettledAlike(xs, library, folder)
    ensures OrderIsIrrelevant(xs, library, folder)
  {
    var v := Settle(xs, library, folder);
    forall c | CanWin(xs, c, library, folder) ensures SameOutcome(Accept(c), v) {
      WinnersAgree(xs, library, folder, c, v);
    }
    if forall ys :: multiset(ys) == multiset(xs) ==> FolderOwningCandidate(ys, library, Some(folder)).Some? {
      AlwaysPickedIsAlwaysWon(xs, library, folder);
    } else {
      var ys :| multiset(ys) == multiset(xs) && FolderOwningCandidate(ys, library, Some(folder)).None?;
      WithoutOwnerReordered(xs, ys);
      forall c | CanWin(xs, c, library, folder) ensures SameOutcome(Accept(c), WithoutOwner(xs)) {
        assert SameOutcome(Settle(ys, library, folder), v) && Settle(ys, library, folder) == WithoutOwner(ys);
        OutcomeOrder(WithoutOwner(ys), v, Accept(c));
        OutcomeOrder(WithoutOwner(xs), WithoutOwner(ys), Accept(c));
      }
    }
  }

  /** The outcome among tied rows is the same for every order exactly when the order is irrelevant to the owner test. */
  lemma SettledAlikeExactly(xs: seq<Candidate>, library: map<nat, Folder>, folder: Folder)
    requires |xs| >= 2
    ensures SettledAlike(xs, library, folder) <==> OrderIsIrrelevant(xs, library, folder)
  {
    if OrderIsIrrelevant(xs, library, folder) {
      forall ys | multiset(ys) == multiset(xs)
        ensures SameOutcome(Settle(ys, library, folder), Settle(xs, library, folder))
      {
        SettledSame(xs, ys, library, folder);
      }
    } else if SettledAlike(xs, library, folder) {
      AlikeIsIrrelevant(xs, library, folder);
    }
  }

  lemma CandidatesParts(ranked: seq<Ranked>, i: nat)
    requires i < |ranked|
    ensures Candidates(ranked[..i] + ranked[i + 1..]) == Candidates(ranked)[..i] + Candidates(ranked)[i + 1..]
  {
  }

  lemma PutFirst(ranked: seq<Ranked>, i: nat, tail: seq<Ranked>)
    requires i < |ranked| && multiset(tail) == multiset(ranked[..i] + ranked[i + 1..])
    ensures multiset([ranked[i]] + tail) == multiset(ranked)
    ensures Candidates([ranked[i]] + tail) == [ranked[i].0] + Candidates(tail)
  {
    OneOut(ranked, i);
    assert multiset([ranked[i]] + tail) == multiset{ranked[i]} + multiset(tail);
  }

  /** Rearranging the tied rows of a ranked list: every order of the tied rows comes from an order of the list. */
  lemma {:induction false} Realised(ranked: seq<Ranked>, zs: seq<Candidate>) returns (list: seq<Ranked>)
    requires multiset(zs) == multiset(Candidates(ranked))
    ensures multiset(list) == multiset(ranked) && Candidates(list) == zs
    decreases |zs|
  {
    ReorderedMembers(zs, Candidates(ranked));
    if zs == [] { return ranked; }
    assert zs[0] in Candidates(ranked);
    var i :| 0 <= i < |ranked| && Candidates(ranked)[i] == zs[0];
    RemoveSame(zs, Candidates(ranked), i);
    CandidatesParts(ranked, i);
    var tail := Realised(ranked[..i] + ranked[i + 1..], zs[1..]);
    PutFirst(ranked, i, tail);
    list := [ranked[i]] + tail;
    assert zs == [zs[0]] + zs[1..];
  }

  function Below(group: seq<FileEvidence>, best: int): Ranked -> bool {
    (r: Ranked) => Scored(group)(r) != best
  }

  lemma RearrangedTie(group: seq<FileEvidence>, ranked: seq<Ranked>, best: int, zs: seq<Candidate>) returns (list: seq<Ranked>)
    requires multiset(zs) == multiset(Tied(group, ranked, best))
    ensures multiset(list) == multiset(ranked) && Tied(group, list, best) == zs
  {
    var p, q := Scoring(Scored(group), best), Below(group, best);
    var some := Realised(Filter(ranked, p), zs);
    list := Filter(ranked, q) + some;
    RestFirst(ranked, p, q, some);
  }

  /** The verdict is the same for every order of the ranked list. */
  ghost predicate DecidedAlike(group: seq<FileEvidence>, xs: seq<Ranked>, library: map<nat, Folder>, folder: Option<Folder>) {
    forall ys :: multiset(ys) == multiset(xs) ==>
      SameOutcome(Decide(group, ys, library, folder), Decide(group, xs, library, folder))
  }

  /** The rows whose order could matter: at least two share a best score that is good enough. */
  predicate Contested(group: seq<FileEvidence>, xs: seq<Ranked>) {
    xs != [] && Best(group, xs) >= 0 && |Tied(group, xs, Best(group, xs))| >= 2
  }

  lemma ContestReordered(group: seq<FileEvidence>, xs: seq<Ranked>, ys: seq<Ranked>)
    requires multiset(ys) == multiset(xs)
    ensures Contested(group, ys) <==> Contested(group, xs)
    ensures Contested(group, xs) ==> multiset(Tied(group, ys, Best(group, ys))) == multiset(Tied(group, xs, Best(group, xs)))
  {
    ReorderedMembers(xs, ys);
    if xs != [] {
      BestReordered(group, xs, ys);
      var best := Best(group, xs);
      TiedReordered(group, xs, ys, best);
      SingletonReordered(Tied(group, xs, best), Tied(group, ys, best));
    }
  }

  lemma UncontestedReordered(group: seq<FileEvidence>, xs: seq<Ranked>, ys: seq<Ranked>, library: map<nat, Folder>, folder: Option<Folder>)
    requires multiset(ys) == multiset(xs) && !Contested(group, xs)
    ensures Decide(group, ys, library, folder) == Decide(group, xs, library, folder)
  {
    ReorderedMembers(xs, ys);
    if xs != [] {
      BestReordered(group, xs, ys);
      var best := Best(group, xs);
      TiedReordered(group, xs, ys, best);
      SingletonReordered(Tied(group, xs, best), Tied(group, ys, best));
      SortedFacts(group, xs);
    }
  }

  /** Reordering the list reorders its tied rows and leaves everything else the decision looks at. */
  lemma DecisionReordered(group: seq<FileEvidence>, xs: seq<Ranked>, ys: seq<Ranked>, library: map<nat, Folder>, folder: Option<Folder>)
    requires multiset(ys) == multiset(xs)
    ensures Contested(group, ys) <==> Contested(group, xs)
    ensures Contested(group, xs) ==>
      && multiset(Tied(group, ys, Best(group, ys))) == multiset(Tied(group, xs, Best(group, xs)))
      && Decide(group, ys, library, folder) == DecideTied(Tied(group, ys, Best(group, ys)), library, folder)
    ensures !Contested(group, xs) ==> Decide(group, ys, library, folder) == Decide(group, xs, library, folder)
  {
    ContestReordered(group, xs, ys);
    if !Contested(group, xs) { UncontestedReordered(group, xs, ys, library, folder); }
  }

  function DecideTied(tied: seq<Candidate>, library: map<nat, Folder>, folder: Option<Folder>): Verdict {
    if folder.Some? then Settle(tied, library, folder.value) else WithoutOwner(tied)
  }

  /** The verdict, its reason and the identity of the chosen row are the same for every order of the ranked
      list exactly when the best score is not shared by rows among which the owner test can tell orders apart. */
  lemma VerdictIgnoresOrderExactly(group: seq<FileEvidence>, xs: seq<Ranked>, library: map<nat, Folder>, folder: Option<Folder>)
    ensures DecidedAlike(group, xs, library, folder) <==>
      (Contested(group, xs) && folder.Some? ==> OrderIsIrrelevant(Tied(group, xs, Best(group, xs)), library, folder.value))
  {
    if !Contested(group, xs) || folder.None? {
      forall ys | multiset(ys) == multiset(xs)
        ensures SameOutcome(Decide(group, ys, library, folder), Decide(group, xs, library, folder))
      {
        DecisionReordered(group, xs, ys, library, folder);
        DecisionReordered(group, xs, xs, library, folder);
        if Contested(group, xs) { WithoutOwnerReordered(Tied(group, xs, Best(group, xs)), Tied(group, ys, Best(group, ys))); }
        OutcomeOrder(Decide(group, xs, library, folder), Decide(group, ys, library, folder), Decide(group, xs, library, folder));
      }
    } else {
      var tied := Tied(group, xs, Best(group, xs));
      SettledAlikeExactly(tied, library, folder.value);
      ContestedAlike(group, xs, library, folder.value);
    }
  }

  lemma ContestedAlike(group: seq<FileEvidence>, xs: seq<Ranked>, library: map<nat, Folder>, folder: Folder)
    requires Contested(group, xs)
    ensures DecidedAlike(group, xs, library, Some(folder)) <==> SettledAlike(Tied(group, xs, Best(group, xs)), library, folder)
  {
    var best := Best(group, xs);
    var tied := Tied(group, xs, best);
    DecisionReordered(group, xs, xs, library, Some(folder));
    if SettledAlike(tied, library, folder) {
      forall ys | multiset(ys) == multiset(xs)
        ensures SameOutcome(Decide(group, ys, library, Some(folder)), Decide(group, xs, library, Some(folder)))
      {
        DecisionReordered(group, xs, ys, library, Some(folder));
      }
    }
    if DecidedAlike(group, xs, library, Some(folder)) {
      forall zs | multiset(zs) == multiset(tied) ensures SameOutcome(Settle(zs, library, folder), Settle(tied, library, folder)) {
        var ys := RearrangedTie(group, xs, best, zs);
        DecisionReordered(group, xs, ys, library, Some(folder));
        BestReordered(group, xs, ys);
      }
    }
  }

  /** Tied rows that agree on the local volume of each ComicVine id give one owner, or none, in every order. */
  lemma AgreementIsEnough(tied: seq<Candidate>, library: map<nat, Folder>, folder: Folder)
    requires |tied| >= 2 && SharedIdsAgree(tied)
    ensures OrderIsIrrelevant(tied, library, folder)
  {
    forall ys | multiset(ys) == multiset(tied)
      ensures SameOutcome(Settle(ys, library, folder), Settle(tied, library, folder))
    {
      OwnersReordered(tied, ys, library, Some(folder));
      WithoutOwnerReordered(tied, ys);
      OutcomeOrder(Settle(tied, library, folder), Settle(ys, library, folder), Settle(tied, library, folder));
    }
    SettledAlikeExactly(tied, library, folder);
  }

  /** So a list whose best-scored rows agree in that way is decided alike in every order, whatever the library
      holds and whichever folder the files are in. */
  lemma VerdictIgnoresOrder(group: seq<FileEvidence>, xs: seq<Ranked>, library: map<nat, Folder>, folder: Option<Folder>)
    requires Contested(group, xs) ==> SharedIdsAgree(Tied(group, xs, Best(group, xs)))
    ensures DecidedAlike(group, xs, library, folder)
  {
    VerdictIgnoresOrderExactly(group, xs, library, folder);
    if Contested(group, xs) && folder.Some? {
      AgreementIsEnough(Tied(group, xs, Best(group, xs)), library, folder.value);
    }
  }

  /** The order can decide: two tied rows of a provider other than ComicVine, both in the library, only one of
      which owns the folder. Listed last, the owner is imported; listed first, the folder is held. */
  lemma OrderCanDecide(group: seq<FileEvidence>, owner: Ranked, other: Ranked, library: map<nat, Folder>, folder: Folder)
    requires group != [] && Scored(group)(owner) == Scored(group)(other) >= 0
    requires owner.0.comicvineId.None? && other.0.comicvineId.None? && Provider(owner.0) == Provider(other.0)
    requires Claims(owner.0, library, folder) && Added(other.0) && !Claims(other.0, library, folder)
    ensures Decide(group, [owner, other], library, Some(folder)) == Hold(Tie)
    ensures Decide(group, [other, owner], library, Some(folder)) == Accept(owner.0)
  {
    PairVerdict(group, owner, other, library, folder);
    PairVerdict(group, other, owner, library, folder);
  }

  lemma PairVerdict(group: seq<FileEvidence>, c: Ranked, d: Ranked, library: map<nat, Folder>, folder: Folder)
    requires Scored(group)(c) == Scored(group)(d) >= 0
    requires c.0.comicvineId == d.0.comicvineId && Provider(c.0) == Provider(d.0)
    requires Added(c.0) && Added(d.0) && c.0.alreadyAdded != d.0.alreadyAdded
    ensures Decide(group, [c, d], library, Some(folder)) == if Claims(d.0, library, folder) then Accept(d.0) else Hold(Tie)
  {
    PairDecision(group, c, d);
    PairOwners(c.0, d.0, library, folder);
    var owner := FolderOwningCandidate([c.0, d.0], library, Some(folder));
    assert d.0.comicvineId in AddedIds([c.0, d.0]);
    assert OneSeriesReportedTwice([c.0, d.0]) == None;
  }

  lemma PairDecision(group: seq<FileEvidence>, c: Ranked, d: Ranked)
    requires Scored(group)(c) == Scored(group)(d)
    ensures Best(group, [c, d]) == Scored(group)(c) && Tied(group, [c, d], Scored(group)(c)) == [c.0, d.0]
    ensures Provider(c.0) == Provider(d.0) ==> !OneSeries([c.0, d.0])
  {
    var xs := [c, d];
    var p := Scoring(Scored(group), Scored(group)(c));
    FilterAll(xs, p);
    assert Candidates(xs) == [c.0, d.0];
    assert forall i :: 0 <= i < |xs| ==> Scored(group)(xs[i]) == Scored(group)(c);
  }

  lemma PairOwners(c: Candidate, d: Candidate, library: map<nat, Folder>, folder: Folder)
    requires c.comicvineId == d.comicvineId && c.alreadyAdded.Some? && d.alreadyAdded.Some?
    requires c.alreadyAdded != d.alreadyAdded
    ensures AddedIds([c, d]) == map[d.comicvineId := d.alreadyAdded.value]
    ensures Owners([c, d], library, folder) ==
      if d.alreadyAdded.value in library && Inside(library[d.alreadyAdded.value], folder) then [d] else []
  {
    assert [c, d][..1] == [c] && [c][..0] == [];
    assert AddedIds([c]) == map[c.comicvineId := c.alreadyAdded.value];
    var added := AddedIds([c, d]);
    assert added == AddedIds([c])[d.comicvineId := d.alreadyAdded.value];
    assert added == map[d.comicvineId := d.alreadyAdded.value];
    assert added[d.comicvineId] == d.alreadyAdded.value;
    var p := OwnerTest(added, library, folder);
    assert [c, d] == [c] + [d];
    FilterPrefix([c], [d], p);
    FilterOne(c, p);
    FilterOne(d, p);
  }
}
