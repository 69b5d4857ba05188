/** The counters the progress panel shows, computed from one job's rows. */
module ImportSummary {
  import opened Basics
  import opened ImportState

  datatype Summary = Summary(total: nat, checked: nat, remaining: int, review: nat, imported: nat,
                             reasons: map<Reason, nat>)

  /** `COUNT(*)` over the rows that satisfy `p`. */
  function Count(items: seq<Item>, p: Item -> bool): (n: nat)
    ensures n <= |items|
  {
    if items == [] then 0
    else Count(items[..|items| - 1], p) + if p(items[|items| - 1]) then 1 else 0
  }

  function ImportedSum(items: seq<Item>, job: nat): nat {
    if items == [] then 0
    else ImportedSum(items[..|items| - 1], job)
         + if items[|items| - 1].job == job then items[|items| - 1].imported else 0
  }

  function InState(job: nat, state: ItemState): Item -> bool {
    (it: Item) => it.job == job && it.state == state
  }

  function HeldFor(job: nat, reason: Reason): Item -> bool {
    (it: Item) => it.job == job && it.state == Review && it.reason == Some(reason)
  }

  function Of(job: nat): Item -> bool {
    (it: Item) => it.job == job
  }

  function Checked(job: nat): Item -> bool {
    (it: Item) => it.job == job && (it.state == Done || it.state == Review)
  }

  const Reasons := {NoCandidate, WeakScore, Tie, EmptyFolder}

  /** None for an unknown job, where the source raises. */
  function SummaryOf(db: Db, job: nat): Option<Summary> {
    if job >= |db.jobs| then None
    else
      var total := Count(db.items, Of(job));
      var checked := Count(db.items, Checked(job));
      Some(Summary(total, checked, if total - checked > 0 then total - checked else 0,
                   Count(db.items, InState(job, Review)), ImportedSum(db.items, job),
                   map r | r in Reasons && Count(db.items, HeldFor(job, r)) > 0 :: Count(db.items, HeldFor(job, r))))
  }

  function ReasonCount(s: Summary, r: Reason): nat {
    if r in s.reasons then s.reasons[r] else 0
  }

  /** Every counter is a partition of the job's rows by state, and the reasons partition the holds. */
  lemma CountersBalance(db: Db, job: nat)
    requires DbInv(db) && job < |db.jobs|
    ensures var s := SummaryOf(db, job).value;
      && s.checked + s.remaining == s.total
      && s.remaining == Count(db.items, InState(job, Pending)) + Count(db.items, InState(job, Processing))
      && s.review == ReasonCount(s, NoCandidate) + ReasonCount(s, WeakScore) + ReasonCount(s, Tie) + ReasonCount(s, EmptyFolder)
      && s.review <= s.checked
  {
    Partition(db.items, job);
  }

  lemma {:induction false} Partition(items: seq<Item>, job: nat)
    requires forall i :: 0 <= i < |items| ==> HoldFits(items[i])
    ensures Count(items, Of(job)) == Count(items, Checked(job)) + Count(items, InState(job, Pending)) + Count(items, InState(job, Processing))
    ensures Count(items, Checked(job)) == Count(items, InState(job, Done)) + Count(items, InState(job, Review))
    ensures Count(items, InState(job, Review)) ==
      Count(items, HeldFor(job, NoCandidate)) + Count(items, HeldFor(job, WeakScore))
      + Count(items, HeldFor(job, Tie)) + Count(items, HeldFor(job, EmptyFolder))
  {
    if items != [] {
      Partition(items[..|items| - 1], job);
      OneRowOneReason(items[|items| - 1], job);
    }
  }

  /** A held row is counted under exactly one reason. */
  lemma OneRowOneReason(it: Item, job: nat)
    requires HoldFits(it)
    ensures (if InState(job, Review)(it) then 1 else 0) ==
      (if HeldFor(job, NoCandidate)(it) then 1 else 0) + (if HeldFor(job, WeakScore)(it) then 1 else 0)
      + (if HeldFor(job, Tie)(it) then 1 else 0) + (if HeldFor(job, EmptyFolder)(it) then 1 else 0)
  {
    if it.state == Review {
      match it.reason.value
      case NoCandidate =>
      case WeakScore =>
      case Tie =>
      case EmptyFolder =>
    }
  }

  /** A job with nothing left to check has no pending and no processing row, and conversely. */
  lemma NothingRemaining(db: Db, job: nat)
    requires DbInv(db) && job < |db.jobs|
    ensures SummaryOf(db, job).value.remaining == 0 <==>
      forall i :: 0 <= i < |db.items| && db.items[i].job == job ==> db.items[i].state == Done || db.items[i].state == Review
  {
    CountersBalance(db, job);
    CountIsZero(db.items, InState(job, Pending));
    CountIsZero(db.items, InState(job, Processing));
  }

  lemma {:induction false} CountIsZero(items: seq<Item>, p: Item -> bool)
    ensures Count(items, p) == 0 <==> forall i :: 0 <= i < |items| ==> !p(items[i])
  {
    if items != [] {
      CountIsZero(items[..|items| - 1], p);
    }
  }

  /** Changing one counted row changes a count by that row alone. */
  lemma {:induction false} CountAfterOne(before: seq<Item>, after: seq<Item>, i: nat, p: Item -> bool)
    requires i < |before| == |after|
    requires forall k :: 0 <= k < |before| && k != i ==> p(after[k]) == p(before[k])
    ensures Count(after, p) + (if p(before[i]) then 1 else 0) == Count(before, p) + if p(after[i]) then 1 else 0
  {
    var last := |before| - 1;
    if i < last {
      CountAfterOne(before[..last], after[..last], i, p);
    } else {
      SameCount(before[..last], after[..last], p);
    }
  }

  lemma {:induction false} SameCount(before: seq<Item>, after: seq<Item>, p: Item -> bool)
    requires |before| == |after| && forall k :: 0 <= k < |before| ==> p(after[k]) == p(before[k])
    ensures Count(after, p) == Count(before, p)
  {
    if before != [] { SameCount(before[..|before| - 1], after[..|after| - 1], p); }
  }

  lemma {:induction false} SumAfterOne(before: seq<Item>, after: seq<Item>, i: nat, job: nat)
    requires i < |before| == |after| && before[i].job == after[i].job == job
    requires forall k :: 0 <= k < |before| && k != i ==>
      (after[k].job == job <==> before[k].job == job) && (after[k].job == job ==> after[k].imported == before[k].imported)
    ensures ImportedSum(after, job) + before[i].imported == ImportedSum(before, job) + after[i].imported
  {
    var last := |before| - 1;
    if i < last {
      SumAfterOne(before[..last], after[..last], i, job);
    } else {
      SameSum(before[..last], after[..last], job);
    }
  }

  lemma {:induction false} SameSum(before: seq<Item>, after: seq<Item>, job: nat)
    requires |before| == |after|
    requires forall k :: 0 <= k < |before| ==>
      (after[k].job == job <==> before[k].job == job) && (after[k].job == job ==> after[k].imported == before[k].imported)
    ensures ImportedSum(after, job) == ImportedSum(before, job)
  {
    if before != [] { SameSum(before[..|before| - 1], after[..|after| - 1], job); }
  }

  /** Recording a folder moves it from remaining to checked, adds what it imported, and adds it to the review
      count and to its reason exactly when something is held. */
  lemma VerdictMovesTheCounters(db: Db, job: nat, i: nat, imported: nat, reason: Reason, held: seq<Held>, r: Reason)
    requires DbInv(db) && job < |db.jobs| && i < |db.items|
    requires db.items[i].job == job && db.items[i].state == Processing
    ensures var s := SummaryOf(db, job).value;
      var t := SummaryOf(FolderResult(db, job, db.items[i].folder, imported, Some(reason), held), job);
      && t.Some? && t.value.total == s.total && t.value.checked == s.checked + 1 && t.value.remaining == s.remaining - 1
      && t.value.imported + db.items[i].imported == s.imported + imported
      && t.value.review == s.review + (if held != [] then 1 else 0)
      && ReasonCount(t.value, r) == ReasonCount(s, r) + if held != [] && r == reason then 1 else 0
  {
    var after := FolderResult(db, job, db.items[i].folder, imported, Some(reason), held);
    VerdictRow(db, job, i, imported, reason, held);
    Summarised(db, job, r);
    Summarised(after, job, r);
    CountersAfterOne(db.items, after.items, job, i, r);
    SumAfterOne(db.items, after.items, i, job);
  }

  lemma Summarised(db: Db, job: nat, r: Reason)
    requires job < |db.jobs|
    ensures SummaryOf(db, job).Some?
    ensures var s := SummaryOf(db, job).value;
      && s.total == Count(db.items, Of(job)) && s.checked == Count(db.items, Checked(job))
      && s.remaining == s.total - s.checked && s.review == Count(db.items, InState(job, Review))
      && s.imported == ImportedSum(db.items, job) && ReasonCount(s, r) == Count(db.items, HeldFor(job, r))
  {
    CountedAtMost(db.items, job);
  }

  /** Of the job's rows only the recorded one changes. */
  lemma VerdictRow(db: Db, job: nat, i: nat, imported: nat, reason: Reason, held: seq<Held>)
    requires DbInv(db) && i < |db.items| && db.items[i].job == job
    ensures var after := FolderResult(db, job, db.items[i].folder, imported, Some(reason), held).items;
      && OnlyRow(db.items, after, job, i)
      && (after[i].state == if held != [] then Review else Done) && after[i].imported == imported
      && after[i].reason == if held != [] then Some(reason) else None
  {
  }

  ghost predicate OnlyRow(before: seq<Item>, after: seq<Item>, job: nat, i: nat) {
    && i < |before| == |after| && before[i].job == after[i].job == job
    && forall k :: 0 <= k < |before| && k != i ==>
         (after[k].job == job <==> before[k].job == job) && (after[k].job == job ==> after[k] == before[k])
  }

  lemma CountersAfterOne(before: seq<Item>, after: seq<Item>, job: nat, i: nat, r: Reason)
    requires OnlyRow(before, after, job, i) && before[i].state == Processing && after[i].state in {Done, Review}
    ensures Count(after, Of(job)) == Count(before, Of(job))
    ensures Count(after, Checked(job)) == Count(before, Checked(job)) + 1
    ensures Count(after, InState(job, Review)) == Count(before, InState(job, Review)) + if after[i].state == Review then 1 else 0
    ensures Count(after, HeldFor(job, r)) == Count(before, HeldFor(job, r))
                                             + if after[i].state == Review && after[i].reason == Some(r) then 1 else 0
  {
    CountAfterOne(before, after, i, Of(job));
    CountAfterOne(before, after, i, Checked(job));
    CountAfterOne(before, after, i, InState(job, Review));
    CountAfterOne(before, after, i, HeldFor(job, r));
  }

  lemma {:induction false} CountedAtMost(items: seq<Item>, job: nat)
    ensures Count(items, Checked(job)) <= Count(items, Of(job))
  {
    if items != [] { CountedAtMost(items[..|items| - 1], job); }
  }
}
