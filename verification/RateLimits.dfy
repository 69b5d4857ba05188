/** Requests under rate limits: the retry loop of one request, the cooldown a limit leaves behind, and which
    URLs share it. Answers and the time they take are arbitrary; sleeping takes at least what was asked. */
module RateLimits {
  import opened Basics

  /** Host and path of a URL, both in lower case. */
  datatype Url = Url(netloc: string, path: string)

  datatype Answer = Status(code: nat, retryAfter: Option<real>) | NoAnswer
  datatype Turn = Turn(answer: Answer, took: real, overslept: real)
  datatype Outcome = Response(code: nat) | RateLimited | ClientFailure

  /** The monotonic clock and the time until which each key is not asked again. */
  datatype Sys = Sys(clock: real, until: map<string, real>)

  const TOTAL_RETRIES: nat := 5
  const RATE_LIMIT_STATUS: nat := 429
  const MAX_HONOURED_WAIT: real := 30.0
  const DEFAULT_COOLDOWN: real := 900.0
  const BACKOFF_FACTOR: real := 1.0

  predicate RetriedStatus(code: nat) {
    code == 429 || code == 500 || code == 502 || code == 503 || code == 504
  }

  ghost predicate Sane(turns: seq<Turn>) {
    forall i :: 0 <= i < |turns| ==>
      && turns[i].took >= 0.0 && turns[i].overslept >= 0.0
      && (turns[i].answer.Status? && turns[i].answer.retryAfter.Some? ==> turns[i].answer.retryAfter.value >= 0.0)
  }

  // ---------------------------------------------------------------- which key a URL has

  /** The key covers the URL, and no registered scope that covers it is longer. */
  ghost predicate IsKey(scopes: seq<string>, url: Url, key: string) {
    if forall i :: 0 <= i < |scopes| ==> !(scopes[i] <= url.netloc + url.path) then key == url.netloc
    else
      && key in scopes && key <= url.netloc + url.path
      && forall i :: 0 <= i < |scopes| && scopes[i] <= url.netloc + url.path ==> |scopes[i]| <= |key|
  }

  /** There is exactly one such key, whatever the order in which scopes were registered. */
  lemma KeyIsUnique(scopes: seq<string>, more: seq<string>, url: Url, key: string, other: string)
    requires IsKey(scopes, url, key) && IsKey(more, url, other)
    requires forall s :: s in scopes <==> s in more
    ensures key == other
  {
    var within := url.netloc + url.path;
    if key in scopes && key <= within && (exists i :: 0 <= i < |scopes| && scopes[i] <= within) {
      var k :| 0 <= k < |more| && more[k] == key;
      assert other in scopes;
      var o :| 0 <= o < |scopes| && scopes[o] == other;
      assert |key| == |other| && key == within[..|key|] && other == within[..|other|];
    } else {
      forall i | 0 <= i < |more| ensures !(more[i] <= within) {
        assert more[i] in scopes;
      }
    }
  }

  function Key(scopes: seq<string>, url: Url): (key: string)
    ensures IsKey(scopes, url, key)
  {
    if scopes == [] then url.netloc
    else
      var front, last := Key(scopes[..|scopes| - 1], url), scopes[|scopes| - 1];
      var within := url.netloc + url.path;
      if last <= within && (Matches(scopes[..|scopes| - 1], within) ==> |last| > |front|) then last else front
  }

  predicate Matches(scopes: seq<string>, within: string) {
    exists i :: 0 <= i < |scopes| && scopes[i] <= within
  }

  /** Collect the scopes the URL falls inside, and take the longest. */
  method RateLimitHost(scopes: seq<string>, url: Url) returns (key: string)
    ensures IsKey(scopes, url, key)
  {
    var within := url.netloc + url.path;
    var matching: seq<string> := [];
    for i := 0 to |scopes|
      invariant forall m :: 0 <= m < |matching| ==> matching[m] in scopes && matching[m] <= within
      invariant forall k :: 0 <= k < i && scopes[k] <= within ==> scopes[k] in matching
    {
      if scopes[i] <= within { matching := matching + [scopes[i]]; }
    }
    if matching == [] { return url.netloc; }
    key := matching[0];
    for m := 1 to |matching|
      invariant key in matching && forall k :: 0 <= k < m ==> |matching[k]| <= |key|
    {
      if |matching[m]| > |key| { key := matching[m]; }
    }
    assert key in scopes;
  }

  /** Everything up to and including the last slash; a slash is added when there is none. */
  function Directory(path: string): string {
    if '/' !in path then path + "/"
    else if path[|path| - 1] == '/' then path else Directory(path[..|path| - 1])
  }

  function ScopeOf(url: Url): string {
    url.netloc + Directory(url.path)
  }

  lemma {:induction false} DirectoryIsPrefix(path: string)
    requires '/' in path
    ensures Directory(path) <= path && '/' in Directory(path)
  {
    if path[|path| - 1] != '/' {
      assert path == path[..|path| - 1] + [path[|path| - 1]];
      DirectoryIsPrefix(path[..|path| - 1]);
    }
  }

  lemma ScopeHasSlash(base: Url) returns (k: nat)
    ensures |base.netloc| <= k < |ScopeOf(base)| && ScopeOf(base)[k] == '/'
  {
    var d := Directory(base.path);
    if '/' in base.path {
      DirectoryIsPrefix(base.path);
    } else {
      assert d[|base.path|] == '/';
    }
    var i :| 0 <= i < |d| && d[i] == '/';
    k := |base.netloc| + i;
  }

  /** Once an endpoint's scope is registered, every URL inside it is rationed under a scope at least that specific,
      never under its bare host, so that it does not share a cooldown with URLs outside. The endpoint is inside
      its own scope exactly when its path has a slash. */
  lemma RegisteredEndpointHasItsOwnKey(scopes: seq<string>, base: Url, url: Url, other: Url)
    requires ScopeOf(base) in scopes && '/' !in other.netloc
    requires ScopeOf(base) <= url.netloc + url.path && !(ScopeOf(base) <= other.netloc + other.path)
    ensures Key(scopes, url) in scopes && |Key(scopes, url)| >= |ScopeOf(base)|
    ensures Key(scopes, url) != Key(scopes, other)
    ensures ScopeOf(base) <= base.netloc + base.path <==> '/' in base.path
  {
    var key := Key(scopes, url);
    var i :| 0 <= i < |scopes| && scopes[i] == ScopeOf(base);
    assert key <= url.netloc + url.path && |ScopeOf(base)| <= |key|;
    assert ScopeOf(base) == key[..|ScopeOf(base)|];
    var k := ScopeHasSlash(base);
    assert key[k] == '/' && '/' in key;
    if '/' in base.path { DirectoryIsPrefix(base.path); }
  }

  // ---------------------------------------------------------------- one request

  function Pow2(n: nat): nat {
    if n == 0 then 1 else 2 * Pow2(n - 1)
  }

  predicate HonouredWait(a: Answer) {
    a.Status? && a.code == RATE_LIMIT_STATUS && a.retryAfter.Some? && a.retryAfter.value <= MAX_HONOURED_WAIT
  }

  predicate Failure(a: Answer) {
    a.NoAnswer? || (a.code != RATE_LIMIT_STATUS && RetriedStatus(a.code))
  }

  /** Is this answer, in this round, followed by another attempt? */
  predicate Retries(a: Answer, round: nat) {
    round < TOTAL_RETRIES && (HonouredWait(a) || Failure(a))
  }

  predicate RetriesIn(turns: seq<Turn>, round: nat) {
    1 <= round <= |turns| && Retries(turns[round - 1].answer, round)
  }

  /** The round whose answer settles the request. */
  function Rounds(turns: seq<Turn>, round: nat): (r: nat)
    requires 1 <= round <= TOTAL_RETRIES <= |turns|
    ensures round <= r <= TOTAL_RETRIES
    ensures forall k :: round <= k < r ==> RetriesIn(turns, k)
    ensures !RetriesIn(turns, r)
    decreases TOTAL_RETRIES - round
  {
    if RetriesIn(turns, round) then Rounds(turns, round + 1) else round
  }

  function Verdict(a: Answer): Outcome {
    if a.NoAnswer? then ClientFailure
    else if a.code == RATE_LIMIT_STATUS then RateLimited
    else if RetriedStatus(a.code) then ClientFailure
    else Response(a.code)
  }

  function Cooldown(a: Answer): real {
    if a.Status? && a.retryAfter.Some? then a.retryAfter.value else DEFAULT_COOLDOWN
  }

  /** The server failed or was not reached, or refused and named a wait of at most half a minute. */
  predicate WorthRepeating(a: Answer) {
    || a.NoAnswer?
    || a.code in {500, 502, 503, 504}
    || (a.code == 429 && a.retryAfter.Some? && a.retryAfter.value <= 30.0)
  }

  /** Every answer but the last was worth repeating, the last was not or was the fifth, and the outcome is what it says. */
  ghost predicate AnsweredAs(turns: seq<Turn>, attempts: nat, outcome: Outcome) {
    && 1 <= attempts <= 5 && attempts <= |turns|
    && (forall k :: 0 <= k < attempts - 1 ==> WorthRepeating(turns[k].answer))
    && var last := turns[attempts - 1].answer;
       && (attempts < 5 ==> !WorthRepeating(last))
       && (outcome.RateLimited? <==> last.Status? && last.code == 429)
       && (outcome.ClientFailure? <==> last.NoAnswer? || last.code in {500, 502, 503, 504})
       && (outcome.Response? ==> outcome == Response(last.code))
  }

  lemma LastAnswerDecides(turns: seq<Turn>)
    requires |turns| >= TOTAL_RETRIES
    ensures var n := Rounds(turns, 1); AnsweredAs(turns, n, Verdict(turns[n - 1].answer))
  {
    var n := Rounds(turns, 1);
    forall k | 0 <= k < n - 1 ensures WorthRepeating(turns[k].answer) { assert RetriesIn(turns, k + 1); }
    assert !RetriesIn(turns, n);
  }

  predicate Cooling(s: Sys, key: string) {
    key in s.until && s.until[key] - s.clock > 0.0
  }

  /** What one request may do: nothing while its key cools down; otherwise at most five attempts, and at the
      end either nothing is recorded or a limit for its own key. */
  ghost predicate Served(scopes: seq<string>, url: Url, s: Sys, t: Sys, attempts: nat, outcome: Outcome) {
    var key := Key(scopes, url);
    if Cooling(s, key) then t == s && attempts == 0 && outcome == RateLimited
    else
      && 1 <= attempts <= TOTAL_RETRIES && t.clock >= s.clock
      && (if outcome.RateLimited?
          then key in t.until && t.until == s.until[key := t.until[key]] && t.until[key] >= t.clock
          else t.until == s.until)
  }

  class Session {
    var clock: real
    var until: map<string, real>
    const scopes: seq<string>

    ghost function Now(): Sys
      reads this
    {
      Sys(clock, until)
    }

    constructor (scopes: seq<string>)
      ensures this.scopes == scopes && Now() == Sys(0.0, map[])
    {
      this.scopes := scopes;
      clock, until := 0.0, map[];
    }

    method Remaining(url: Url) returns (left: real)
      ensures left > 0.0 <==> Cooling(Now(), Key(scopes, url))
      ensures left == if left > 0.0 then until[Key(scopes, url)] - clock else 0.0
    {
      var key := RateLimitHost(scopes, url);
      KeyIsUnique(scopes, scopes, url, key, Key(scopes, url));
      if key !in until { return 0.0; }
      left := until[key] - clock;
      if left < 0.0 { left := 0.0; }
    }

    method NoteRateLimit(url: Url, retryAfter: Option<real>) returns (cooldown: real)
      modifies `until
      ensures cooldown == if retryAfter.Some? then retryAfter.value else 900.0
      ensures until == old(until)[Key(scopes, url) := clock + cooldown]
    {
      cooldown := if retryAfter.Some? then retryAfter.value else DEFAULT_COOLDOWN;
      var key := RateLimitHost(scopes, url);
      KeyIsUnique(scopes, scopes, url, key, Key(scopes, url));
      until := until[key := clock + cooldown];
    }

    /** One request with its retries. It never makes more than five attempts nor sleeps more than two minutes,
        stops at the first answer that is not to be retried, and records a limit only as its last act. */
    method Request(url: Url, turns: seq<Turn>) returns (outcome: Outcome, attempts: nat, slept: real)
      requires |turns| >= TOTAL_RETRIES && Sane(turns)
      modifies this
      ensures Served(scopes, url, old(Now()), Now(), attempts, outcome)
      ensures attempts > 0 ==> attempts == Rounds(turns, 1) && outcome == Verdict(turns[attempts - 1].answer)
      ensures attempts > 0 ==> AnsweredAs(turns, attempts, outcome)
      ensures attempts > 0 && outcome.RateLimited? ==>
        until == old(until)[Key(scopes, url) := clock + Cooldown(turns[attempts - 1].answer)]
      ensures 0.0 <= slept <= MAX_HONOURED_WAIT * (TOTAL_RETRIES - 1) as real
      ensures clock >= old(clock) + slept
      ensures attempts > 0 && AllFailures(turns, attempts - 1) ==> slept == SleptBy(attempts - 1)
      ensures attempts > 0 ==> slept == TimeSlept(turns, attempts - 1)
    {
      attempts, slept := 0, 0.0;
      LastAnswerDecides(turns);
      SleepFacts(turns);
      var left := Remaining(url);
      if left > 0.0 { return RateLimited, 0, 0.0; }
      var sleepTime := BACKOFF_FACTOR;
      ghost var was := clock;
      while true
        invariant attempts < TOTAL_RETRIES && until == old(until) && clock >= was + slept
        invariant Rounds(turns, attempts + 1) == Rounds(turns, 1)
        invariant slept == TimeSlept(turns, attempts) && sleepTime == NextBackoff(turns, attempts)
        decreases TOTAL_RETRIES - attempts
      {
        var turn := turns[attempts];
        assert SleepBounds(turns, attempts);
        attempts := attempts + 1;
        clock := clock + turn.took;
        var wait := sleepTime;
        if turn.answer.Status? && turn.answer.code == RATE_LIMIT_STATUS {
          if !(HonouredWait(turn.answer) && attempts < TOTAL_RETRIES) {
            var held := NoteRateLimit(url, turn.answer.retryAfter);
            return RateLimited, attempts, slept;
          }
          wait := turn.answer.retryAfter.value;
        } else if Failure(turn.answer) {
          if attempts == TOTAL_RETRIES { return ClientFailure, attempts, slept; }
          sleepTime := BACKOFF_FACTOR * Pow2(attempts - 1) as real;
        } else {
          return Response(turn.answer.code), attempts, slept;
        }
        clock := clock + wait + turn.overslept;
        slept := slept + wait;
      }
    }
  }

  /** How long the next failure is slept off after the given number of attempts. */
  function Backoff(attempts: nat): real {
    if attempts == 0 then BACKOFF_FACTOR else BACKOFF_FACTOR * Pow2(attempts - 1) as real
  }

  /** The time slept after that many attempts that all failed: 0, 1, 2, 4, 8. */
  function SleptBy(attempts: nat): real {
    if attempts == 0 then 0.0 else BACKOFF_FACTOR * Pow2(attempts - 1) as real
  }

  /** The back-off in force after that many turns: the first is a second, each failure sets it to 1, 2, 4, 8. */
  function NextBackoff(turns: seq<Turn>, n: nat): real
    requires n <= |turns|
  {
    if n == 0 then BACKOFF_FACTOR
    else if Failure(turns[n - 1].answer) then BACKOFF_FACTOR * Pow2(n - 1) as real else NextBackoff(turns, n - 1)
  }

  /** The time slept after that many turns that were all repeated: a refusal's own wait, or the back-off. */
  function TimeSlept(turns: seq<Turn>, n: nat): real
    requires n <= |turns|
  {
    if n == 0 then 0.0
    else
      var a := turns[n - 1].answer;
      TimeSlept(turns, n - 1) + if HonouredWait(a) then a.retryAfter.value else NextBackoff(turns, n - 1)
  }

  /** The pause after a turn that is repeated is what the refusal asked for, or for a failure what the failures before
      it call for: a second after the first and the second, twice as long after each further one in a row. */
  lemma PauseAfter(turns: seq<Turn>, k: nat)
    requires k < |turns| && k < 5
    ensures turns[k].answer.Status? && turns[k].answer.code == 429 && turns[k].answer.retryAfter.Some?
            && turns[k].answer.retryAfter.value <= 30.0 ==>
      TimeSlept(turns, k + 1) == TimeSlept(turns, k) + turns[k].answer.retryAfter.value
    ensures turns[k].answer.NoAnswer? || turns[k].answer.code in {500, 502, 503, 504} ==>
      TimeSlept(turns, k + 1) == TimeSlept(turns, k) + NextBackoff(turns, k)
    ensures NextBackoff(turns, 0) == 1.0
    ensures turns[k].answer.NoAnswer? || turns[k].answer.code in {500, 502, 503, 504} ==>
      NextBackoff(turns, k + 1) == [1.0, 2.0, 4.0, 8.0, 16.0][k]
  {
    assert Pow2(0) == 1 && Pow2(1) == 2 && Pow2(2) == 4 && Pow2(3) == 8 && Pow2(4) == 16;
  }

  predicate AllFailures(turns: seq<Turn>, n: nat) {
    n <= |turns| && forall k :: 0 <= k < n ==> Failure(turns[k].answer)
  }

  /** However refusals and failures mix, each pause is short: at most half a minute, and never negative. */
  lemma {:induction false} PausesAreShort(turns: seq<Turn>, n: nat)
    requires n <= |turns| && n < TOTAL_RETRIES && Sane(turns)
    ensures 0.0 <= TimeSlept(turns, n) <= MAX_HONOURED_WAIT * n as real
    ensures 0.0 <= NextBackoff(turns, n) <= 8.0
  {
    assert Pow2(0) == 1 && Pow2(1) == 2 && Pow2(2) == 4 && Pow2(3) == 8;
    if n > 0 { PausesAreShort(turns, n - 1); }
  }

  /** Failures alone are slept off for 1, 1, 2 and 4 seconds. */
  lemma {:induction false} FailuresBackOff(turns: seq<Turn>, n: nat)
    requires AllFailures(turns, n)
    ensures TimeSlept(turns, n) == SleptBy(n) && NextBackoff(turns, n) == Backoff(n)
  {
    if n > 0 { FailuresBackOff(turns, n - 1); }
  }

  /** What the time slept adds up to, for any number of repeated turns. */
  ghost predicate SleepBounds(turns: seq<Turn>, n: nat)
    requires n <= |turns|
  {
    && 0.0 <= TimeSlept(turns, n) <= MAX_HONOURED_WAIT * (TOTAL_RETRIES - 1) as real
    && 0.0 <= NextBackoff(turns, n)
    && (AllFailures(turns, n) ==> TimeSlept(turns, n) == SleptBy(n))
  }

  lemma SleepFacts(turns: seq<Turn>)
    requires |turns| >= TOTAL_RETRIES && Sane(turns)
    ensures forall n :: 0 <= n < TOTAL_RETRIES ==> SleepBounds(turns, n)
  {
    forall n | 0 <= n < TOTAL_RETRIES ensures SleepBounds(turns, n) {
      PausesAreShort(turns, n);
      if AllFailures(turns, n) { FailuresBackOff(turns, n); }
    }
  }

  // ---------------------------------------------------------------- a series of requests

  datatype Step = Step(url: Url, before: Sys, after: Sys, attempts: nat, outcome: Outcome)

  /** Requests one after another; between them only time passes. */
  ghost predicate Series(scopes: seq<string>, steps: seq<Step>) {
    && (forall i :: 0 <= i < |steps| ==>
        Served(scopes, steps[i].url, steps[i].before, steps[i].after, steps[i].attempts, steps[i].outcome))
    && (forall i :: 0 < i < |steps| ==> Waited(steps[i - 1].after, steps[i].before))
  }

  predicate Waited(s: Sys, t: Sys) {
    t.until == s.until && t.clock >= s.clock
  }

  lemma ServedKeeps(scopes: seq<string>, step: Step, key: string, expiry: real)
    requires Served(scopes, step.url, step.before, step.after, step.attempts, step.outcome)
    requires key in step.before.until && step.before.until[key] == expiry
    ensures step.after.clock >= step.before.clock
    ensures step.before.clock < expiry || Key(scopes, step.url) != key ==>
      key in step.after.until && step.after.until[key] == expiry
    ensures Key(scopes, step.url) == key ==> (step.attempts == 0 <==> step.before.clock < expiry)
  {
  }

  /** A limit recorded for a key stands until it expires: as long as it has not, no request whose key it is
      makes an attempt; the first one after that does. Requests with other keys do not disturb it. */
  lemma {:induction false} LimitStands(scopes: seq<string>, steps: seq<Step>, key: string, expiry: real, n: nat)
    requires Series(scopes, steps) && n < |steps|
    requires key in steps[0].before.until && steps[0].before.until[key] == expiry
    requires forall i :: 0 <= i < n ==> steps[i].before.clock < expiry || Key(scopes, steps[i].url) != key
    ensures key in steps[n].before.until && steps[n].before.until[key] == expiry
    ensures Key(scopes, steps[n].url) == key ==> (steps[n].attempts == 0 <==> steps[n].before.clock < expiry)
  {
    if n > 0 {
      LimitStands(scopes, steps, key, expiry, n - 1);
      ServedKeeps(scopes, steps[n - 1], key, expiry);
      assert Waited(steps[n - 1].after, steps[n].before);
    }
    ServedKeeps(scopes, steps[n], key, expiry);
  }

  /** A limit reported for one URL leaves every URL with another key as it was. */
  lemma OtherKeysAreNotSilenced(scopes: seq<string>, step: Step, other: Url)
    requires Served(scopes, step.url, step.before, step.after, step.attempts, step.outcome)
    requires Key(scopes, other) != Key(scopes, step.url)
    ensures Cooling(step.after, Key(scopes, other)) ==> Cooling(step.before, Key(scopes, other))
  {
  }
}
