/** Publisher automation: which releases are attempted in a pass, and what the history of attempts allows
    over any series of passes. Dates are day numbers; adding or searching a release is an oracle. */
module PublisherAutomation {
  import opened Basics

  datatype Action = AutoSearch | AutoAdd
  datatype Publisher = Publisher(name: string)

  /** A retained release: its publisher in lower case and its release key. */
  datatype Release = Release(weekStart: Option<int>, releaseDate: Option<int>, publisher: Publisher, key: nat)
  datatype Subscription = Subscription(autoSearch: bool)
  datatype Job = Job(key: nat, action: Action)
  datatype Record = Record(success: bool, attemptedAt: int)
  datatype Attempt = Attempt(job: Job, at: int, success: bool)

  /** What a pass is run with; `now` is read once, at its start. */
  datatype Pass = Pass(
    releases: seq<Release>, works: seq<bool>, filter: Option<Publisher>,
    subscriptions: map<Publisher, Subscription>, currentWeek: int, today: int, now: int)

  datatype Sys = Sys(history: map<Job, Record>, log: seq<Attempt>)
  datatype Tally = Tally(attempted: nat, succeeded: nat, failed: nat, skipped: nat)

  const RETRY_INTERVAL: int := 86_400

  /** The job a release stands for in this pass, when every filter lets it through. */
  function JobOf(p: Pass, r: Release): Option<Job> {
    if r.weekStart.None? || r.weekStart.value > p.currentWeek then None
    else if r.releaseDate.Some? && r.releaseDate.value > p.today then None
    else if p.filter.Some? && r.publisher != p.filter.value then None
    else if r.publisher !in p.subscriptions then None
    else Some(Job(r.key, if p.subscriptions[r.publisher].autoSearch then AutoSearch else AutoAdd))
  }

  predicate Blocked(history: map<Job, Record>, job: Job, now: int) {
    job in history && (history[job].success || now - history[job].attemptedAt < RETRY_INTERVAL)
  }

  function Attempted(s: Sys, job: Job, now: int, success: bool): Sys {
    Sys(s.history[job := Record(success, now)], s.log + [Attempt(job, now, success)])
  }

  /** The state and the tally after the first n releases of a pass. */
  function After(s: Sys, p: Pass, n: nat): Sys
    requires |p.works| == |p.releases| && n <= |p.releases|
  {
    if n == 0 then s
    else
      var before, job := After(s, p, n - 1), JobOf(p, p.releases[n - 1]);
      if job.None? || Blocked(before.history, job.value, p.now) then before
      else Attempted(before, job.value, p.now, p.works[n - 1])
  }

  function Successes(log: seq<Attempt>): nat {
    if log == [] then 0 else Successes(log[..|log| - 1]) + if log[|log| - 1].success then 1 else 0
  }

  /** How many of the first n releases pass the filters. */
  function Eligible(p: Pass, n: nat): nat
    requires n <= |p.releases|
  {
    if n == 0 then 0 else Eligible(p, n - 1) + if JobOf(p, p.releases[n - 1]).Some? then 1 else 0
  }

  class Automation {
    var history: map<Job, Record>
    ghost var log: seq<Attempt>

    ghost function Now(): Sys
      reads this
    {
      Sys(history, log)
    }

    constructor ()
      ensures Now() == Sys(map[], [])
    {
      history, log := map[], [];
    }

    /** One pass over the releases. */
    method ProcessPublisherSubscriptions(p: Pass) returns (tally: Tally)
      requires |p.works| == |p.releases|
      modifies this
      ensures Now() == After(old(Now()), p, |p.releases|)
      ensures tally.attempted == tally.succeeded + tally.failed == |log| - |old(log)|
      ensures tally.succeeded == Successes(log) - Successes(old(log))
      ensures tally.attempted + tally.skipped == Eligible(p, |p.releases|)
    {
      var attempted, succeeded, failed, skipped := 0, 0, 0, 0;
      ghost var was := Now();
      for n := 0 to |p.releases|
        invariant Now() == After(was, p, n)
        invariant attempted == succeeded + failed == |log| - |was.log|
        invariant succeeded == Successes(log) - Successes(was.log)
        invariant attempted + skipped == Eligible(p, n)
      {
        var job := JobOf(p, p.releases[n]);
        if job.None? { continue; }
        if Blocked(history, job.value, p.now) {
          skipped := skipped + 1;
          continue;
        }
        attempted := attempted + 1;
        var success := p.works[n];
        if success { succeeded := succeeded + 1; } else { failed := failed + 1; }
        history := history[job.value := Record(success, p.now)];
        log := log + [Attempt(job.value, p.now, success)];
        assert log[..|log| - 1] == After(was, p, n).log;
      }
      return Tally(attempted, succeeded, failed, skipped);
    }
  }

  // ---------------------------------------------------------------- over all passes

  /** An attempt is the one its job's history records, or failed at least a day before that one. */
  predicate Superseded(history: map<Job, Record>, a: Attempt) {
    a.job in history
    && (history[a.job] == Record(a.success, a.at)
        || (!a.success && a.at + RETRY_INTERVAL <= history[a.job].attemptedAt))
  }

  ghost predicate HistoryIsLatest(s: Sys) {
    forall i :: 0 <= i < |s.log| ==> Superseded(s.history, s.log[i])
  }

  /** A job is never attempted after a success, nor within the interval of a failure. */
  ghost predicate WellSpaced(log: seq<Attempt>) {
    forall i, k :: 0 <= i < k < |log| && log[i].job == log[k].job ==>
      !log[i].success && log[k].at >= log[i].at + RETRY_INTERVAL
  }

  ghost predicate Inv(s: Sys) {
    HistoryIsLatest(s) && WellSpaced(s.log)
  }

  lemma AttemptKeeps(s: Sys, job: Job, now: int, success: bool)
    requires Inv(s) && !Blocked(s.history, job, now)
    ensures Inv(Attempted(s, job, now, success))
  {
    var t := Attempted(s, job, now, success);
    forall i | 0 <= i < |s.log| && s.log[i].job == job
      ensures !s.log[i].success && now >= s.log[i].at + RETRY_INTERVAL
    {
      assert Superseded(s.history, s.log[i]);
    }
    forall i | 0 <= i < |t.log| ensures Superseded(t.history, t.log[i]) {
      if i < |s.log| { assert Superseded(s.history, s.log[i]); }
    }
  }

  lemma {:induction false} PassKeeps(s: Sys, p: Pass, n: nat)
    requires Inv(s) && |p.works| == |p.releases| && n <= |p.releases|
    ensures Inv(After(s, p, n))
  {
    if n > 0 {
      PassKeeps(s, p, n - 1);
      var before, job := After(s, p, n - 1), JobOf(p, p.releases[n - 1]);
      if job.Some? && !Blocked(before.history, job.value, p.now) {
        AttemptKeeps(before, job.value, p.now, p.works[n - 1]);
      }
    }
  }

  function RunPasses(s: Sys, passes: seq<Pass>): Sys
    requires forall i :: 0 <= i < |passes| ==> |passes[i].works| == |passes[i].releases|
  {
    if passes == [] then s
    else
      var last := passes[|passes| - 1];
      After(RunPasses(s, passes[..|passes| - 1]), last, |last.releases|)
  }

  /** From an empty history, over any series of passes, and whatever the clock does between them, a job succeeds at most once, is
      never attempted after succeeding, and its attempts are at least a day apart. */
  lemma {:induction false} AttemptsAreWellSpaced(s: Sys, passes: seq<Pass>)
    requires Inv(s) && forall i :: 0 <= i < |passes| ==> |passes[i].works| == |passes[i].releases|
    ensures Inv(Sys(map[], []))
    ensures Inv(RunPasses(s, passes))
  {
    if passes != [] {
      var last := passes[|passes| - 1];
      AttemptsAreWellSpaced(s, passes[..|passes| - 1]);
      PassKeeps(RunPasses(s, passes[..|passes| - 1]), last, |last.releases|);
    }
  }

  lemma {:induction false} PassExtendsLog(s: Sys, p: Pass, n: nat)
    requires |p.works| == |p.releases| && n <= |p.releases|
    ensures s.log <= After(s, p, n).log
    ensures forall i :: |s.log| <= i < |After(s, p, n).log| ==> After(s, p, n).log[i].at == p.now
  {
    if n > 0 { PassExtendsLog(s, p, n - 1); }
  }

  /** Even with the same release listed twice, one pass attempts a job at most once. */
  lemma OncePerPass(s: Sys, p: Pass, i: nat, k: nat)
    requires Inv(s) && |p.works| == |p.releases|
    requires |s.log| <= i < k < |After(s, p, |p.releases|).log|
    ensures After(s, p, |p.releases|).log[i].job != After(s, p, |p.releases|).log[k].job
  {
    PassKeeps(s, p, |p.releases|);
    PassExtendsLog(s, p, |p.releases|);
  }

  lemma {:induction false} BlockedOnlyByAttempting(s: Sys, p: Pass, n: nat, job: Job)
    requires |p.works| == |p.releases| && n <= |p.releases| && !Blocked(s.history, job, p.now)
    ensures !Blocked(After(s, p, n).history, job, p.now)
      || exists i :: |s.log| <= i < |After(s, p, n).log| && After(s, p, n).log[i].job == job
  {
    if n > 0 {
      BlockedOnlyByAttempting(s, p, n - 1, job);
      PassExtendsLog(s, p, n - 1);
      var before, after := After(s, p, n - 1), After(s, p, n);
      if |after.log| > |before.log| && after.log[|before.log|].job == job {
        assert |s.log| <= |before.log|;
      } else if i :| |s.log| <= i < |before.log| && before.log[i].job == job {
        assert after.log[i] == before.log[i];
      }
    }
  }

  /** The release is out, in a week that has begun, and its publisher is subscribed to and asked for. */
  predicate Out(p: Pass, r: Release) {
    && r.weekStart.Some? && r.weekStart.value <= p.currentWeek
    && (r.releaseDate.Some? ==> r.releaseDate.value <= p.today)
    && (p.filter.Some? ==> p.filter.value == r.publisher)
    && r.publisher in p.subscriptions
  }

  /** The job of a release that is out: its key, to be searched for or only added, as its subscription says. */
  predicate Means(p: Pass, r: Release, job: Job) {
    Out(p, r) && job.key == r.key && (job.action == AutoSearch <==> p.subscriptions[r.publisher].autoSearch)
  }

  lemma JobExactly(p: Pass, r: Release, job: Job)
    ensures JobOf(p, r) == Some(job) <==> Means(p, r, job)
    ensures JobOf(p, r).Some? <==> Out(p, r)
  {
    assert job.action == AutoSearch || job.action == AutoAdd;
  }

  /** Nothing is attempted early or unasked: every attempt of a pass is that of one of its releases that is out, made
      when the pass runs, and succeeds exactly when adding or searching that release does. */
  lemma {:induction false} OnlyReleasesThatAreOut(s: Sys, p: Pass, n: nat, i: nat) returns (r: nat)
    requires |p.works| == |p.releases| && n <= |p.releases| && |s.log| <= i < |After(s, p, n).log|
    ensures r < n && Means(p, p.releases[r], After(s, p, n).log[i].job)
    ensures After(s, p, n).log[i].at == p.now && After(s, p, n).log[i].success == p.works[r]
  {
    PassExtendsLog(s, p, n - 1);
    if i < |After(s, p, n - 1).log| {
      r := OnlyReleasesThatAreOut(s, p, n - 1, i);
    } else {
      r := n - 1;
      JobExactly(p, p.releases[r], JobOf(p, p.releases[r]).value);
    }
  }

  /** No release that is due is forgotten: the job of a release that is out is attempted in the pass exactly when it
      had not succeeded before and its last failure, if any, was at least a day ago. */
  lemma DueJobsAreAttempted(s: Sys, p: Pass, n: nat, job: Job)
    requires Inv(s) && |p.works| == |p.releases| && n < |p.releases| && Means(p, p.releases[n], job)
    ensures var after := After(s, p, |p.releases|);
      (exists i :: |s.log| <= i < |after.log| && after.log[i].job == job)
      <==> (job in s.history ==> !s.history[job].success && p.now - s.history[job].attemptedAt >= 86_400)
  {
    JobExactly(p, p.releases[n], job);
    var after := After(s, p, |p.releases|);
    if !Blocked(s.history, job, p.now) {
      BlockedOnlyByAttempting(s, p, n, job);
      AttemptedAt(s, p, n, job);
    } else {
      StaysBlocked(s, p, |p.releases|, job);
    }
  }

  lemma {:induction false} LogGrows(s: Sys, p: Pass, n: nat, m: nat)
    requires |p.works| == |p.releases| && n <= m <= |p.releases|
    ensures After(s, p, n).log <= After(s, p, m).log
  {
    if n < m { LogGrows(s, p, n, m - 1); }
  }

  lemma AttemptedAt(s: Sys, p: Pass, n: nat, job: Job)
    requires |p.works| == |p.releases| && n < |p.releases| && JobOf(p, p.releases[n]) == Some(job)
    requires !Blocked(After(s, p, n).history, job, p.now)
      || exists i :: |s.log| <= i < |After(s, p, n).log| && After(s, p, n).log[i].job == job
    ensures exists i :: |s.log| <= i < |After(s, p, |p.releases|).log| && After(s, p, |p.releases|).log[i].job == job
  {
    var before, next, after := After(s, p, n), After(s, p, n + 1), After(s, p, |p.releases|);
    PassExtendsLog(s, p, n);
    LogGrows(s, p, n + 1, |p.releases|);
    LogGrows(s, p, n, |p.releases|);
    if !Blocked(before.history, job, p.now) {
      assert next.log[|before.log|].job == job;
      assert after.log[|before.log|] == next.log[|before.log|];
    } else {
      var i :| |s.log| <= i < |before.log| && before.log[i].job == job;
      assert after.log[i] == before.log[i];
    }
  }

  lemma {:induction false} StaysBlocked(s: Sys, p: Pass, n: nat, job: Job)
    requires |p.works| == |p.releases| && n <= |p.releases| && Blocked(s.history, job, p.now)
    ensures Blocked(After(s, p, n).history, job, p.now)
    ensures forall i :: |s.log| <= i < |After(s, p, n).log| ==> After(s, p, n).log[i].job != job
  {
    if n > 0 {
      StaysBlocked(s, p, n - 1, job);
      PassExtendsLog(s, p, n - 1);
    }
  }
}
