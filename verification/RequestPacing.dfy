/** Request pacing of the continuous importer: the adaptive interval, the waiting loop that honours it
    without hiding a stop, and the searches that spend it. Times are exact; sleeping takes at least as
    long as asked. */
module RequestPacing {
  import opened Basics

  const CV_REQUEST_FLOOR := 18.0
  const CV_REQUEST_CEILING := 90.0
  const CV_BACKOFF_FACTOR := 1.5
  const CV_RECOVERY_PERIOD := 3600.0
  const LARGE_FOLDER_SHARED_SEARCH_MIN_TITLES := 8

  function Min(a: real, b: real): real { if a <= b then a else b }

  function Pow(x: real, k: nat): real {
    if k == 0 then 1.0 else Pow(x, k - 1) * x
  }

  /** The interval after `blocks` refusals without a recovery. */
  function Interval(blocks: nat): real {
    if blocks == 0 then CV_REQUEST_FLOOR else Min(Interval(blocks - 1) * CV_BACKOFF_FACTOR, CV_REQUEST_CEILING)
  }

  /** Step-by-step capping is capping once: k refusals give min(18 * 1.5^k, 90), never outside [18, 90]. */
  lemma {:induction false} IntervalIsCappedPower(k: nat)
    ensures Interval(k) == Min(18.0 * Pow(1.5, k), 90.0)
    ensures 18.0 <= Interval(k) <= 90.0
    ensures Interval(k) <= Interval(k + 1)
  {
    if k > 0 { IntervalIsCappedPower(k - 1); }
  }

  lemma IntervalInRange(k: nat)
    ensures CV_REQUEST_FLOOR <= Interval(k) <= CV_REQUEST_CEILING
  {
    IntervalIsCappedPower(k);
  }

  // ---------------------------------------------------------------- the clock and the interval

  class Clock {
    var now: real

    constructor ()
    {
      now := 0.0;
    }

    /** Time passes by at least `seconds`; how much more is not known. */
    method Sleep(seconds: real)
      requires seconds >= 0.0
      modifies this
      ensures now >= old(now) + seconds
    {
      var late: real := *;
      now := now + seconds + if late > 0.0 then late else 0.0;
    }
  }

  class AdaptiveDelay {
    const clock: Clock
    var current: real
    var lastBlock: Option<real>
    ghost var blocks: nat            // refusals since the last recovery

    ghost predicate Valid()
      reads this
    {
      current == Interval(blocks) && (lastBlock.None? <==> blocks == 0)
    }

    constructor (clock: Clock)
      ensures Valid() && this.clock == clock && blocks == 0
    {
      this.clock := clock;
      current, lastBlock, blocks := CV_REQUEST_FLOOR, None, 0;
    }

    /** The interval before the next request; an hour without a complaint forgets the refusals. */
    method Current() returns (interval: real)
      requires Valid()
      modifies this
      ensures Valid() && interval == current
      ensures blocks == if old(lastBlock.Some? && clock.now - lastBlock.value >= 3600.0) then 0 else old(blocks)
      ensures lastBlock == if blocks == 0 then None else old(lastBlock)
    {
      if lastBlock.Some? && clock.now - lastBlock.value >= CV_RECOVERY_PERIOD {
        current, lastBlock, blocks := CV_REQUEST_FLOOR, None, 0;
      }
      return current;
    }

    method RecordBlock() returns (interval: real)
      requires Valid()
      modifies this
      ensures Valid() && interval == current && blocks == old(blocks) + 1
      ensures lastBlock == Some(clock.now)
      ensures old(current) <= current
    {
      IntervalIsCappedPower(blocks);
      current := Min(current * CV_BACKOFF_FACTOR, CV_REQUEST_CEILING);
      lastBlock := Some(clock.now);
      blocks := blocks + 1;
      return current;
    }
  }

  // ---------------------------------------------------------------- what the importer does with it

  datatype Lane = SearchLane | MetadataLane
  datatype Query = Query(text: string)
  type Results = seq<nat>

  datatype Entry =
    | Slot(lane: Lane, at: real, interval: real)
    | Search(query: Query, answered: bool, at: real)

  datatype Outcome = Matched(context: map<Query, Results>) | Stopped | Refused

  /** The recorded starts of one lane, in order. */
  function Starts(log: seq<Entry>, lane: Lane): seq<real> {
    if log == [] then []
    else
      var last := log[|log| - 1];
      Starts(log[..|log| - 1], lane) + if last.Slot? && last.lane == lane then [last.at] else []
  }

  /** Consecutive starts are at least `gap` apart. */
  ghost predicate Spaced(starts: seq<real>, gap: real) {
    forall i :: 0 <= i < |starts| - 1 ==> starts[i] + gap <= starts[i + 1]
  }

  /** Every slot keeps the interval it was granted under from the slot before it in its lane. */
  ghost predicate Granted(log: seq<Entry>) {
    forall i, k :: 0 <= i < k < |log| && log[i].Slot? && log[k].Slot? && log[i].lane == log[k].lane ==>
      log[i].at + log[k].interval <= log[k].at && log[k].interval >= CV_REQUEST_FLOOR
  }

  /** Every provider search comes right after a search slot of its own. */
  ghost predicate SearchesPaid(log: seq<Entry>) {
    forall i :: 0 <= i < |log| && log[i].Search? ==> i > 0 && log[i - 1].Slot? && log[i - 1].lane == SearchLane
  }

  /** The importer does one thing at a time. */
  ghost predicate TimeOrdered(log: seq<Entry>) {
    forall i, k :: 0 <= i < k < |log| ==> log[i].at <= log[k].at
  }

  predicate Answers(e: Entry, q: Query) {
    e.Search? && e.answered && e.query == q
  }

  ghost predicate Answered(log: seq<Entry>, q: Query) {
    exists i :: 0 <= i < |log| && Answers(log[i], q)
  }

  /** A query is answered at most once, and the cache holds exactly the answered ones. */
  ghost predicate CacheMatches(log: seq<Entry>, cache: map<Query, Results>) {
    && (forall q :: q in cache <==> Answered(log, q))
    && (forall i, k :: 0 <= i < k < |log| && log[i].Search? ==> !(Answers(log[i], log[i].query) && Answers(log[k], log[i].query)))
  }

  /** An importer's books: what is recorded is past, in order and spaced, searches are paid for, the cache is honest. */
  ghost predicate Books(log: seq<Entry>, lastStarted: map<Lane, real>, cache: map<Query, Results>, now: real) {
    && (forall lane :: lane in lastStarted ==> lastStarted[lane] <= now)
    && (forall i :: 0 <= i < |log| ==> log[i].at <= now)
    && (forall i :: 0 <= i < |log| && log[i].Slot? ==>
          log[i].lane in lastStarted && log[i].at <= lastStarted[log[i].lane])
    && TimeOrdered(log) && Granted(log) && SearchesPaid(log) && CacheMatches(log, cache)
  }

  lemma OrderedAppend(log: seq<Entry>, e: Entry)
    requires TimeOrdered(log) && forall i :: 0 <= i < |log| ==> log[i].at <= e.at
    ensures TimeOrdered(log + [e])
  {
  }

  lemma GrantedAppend(log: seq<Entry>, lane: Lane, now: real, interval: real)
    requires Granted(log) && interval >= CV_REQUEST_FLOOR
    requires forall i :: 0 <= i < |log| && log[i].Slot? && log[i].lane == lane ==> log[i].at + interval <= now
    ensures Granted(log + [Slot(lane, now, interval)])
  {
  }

  lemma PaidAppend(log: seq<Entry>, e: Entry)
    requires SearchesPaid(log) && (e.Search? ==> log != [] && log[|log| - 1].Slot? && log[|log| - 1].lane == SearchLane)
    ensures SearchesPaid(log + [e])
  {
    var after := log + [e];
    forall i | 0 <= i < |after| && after[i].Search? ensures i > 0 && after[i - 1].Slot? && after[i - 1].lane == SearchLane {
      if i < |log| { assert log[i].Search?; }
    }
  }

  lemma AnsweredAppend(log: seq<Entry>, e: Entry, q: Query)
    ensures Answered(log + [e], q) <==> Answered(log, q) || Answers(e, q)
  {
    var after := log + [e];
    if Answered(log, q) {
      var i :| 0 <= i < |log| && Answers(log[i], q);
      assert Answers(after[i], q);
    }
    if Answers(e, q) { assert Answers(after[|log|], q); }
  }

  lemma SlotKeepsCache(log: seq<Entry>, cache: map<Query, Results>, slot: Entry)
    requires CacheMatches(log, cache) && slot.Slot?
    ensures CacheMatches(log + [slot], cache)
  {
    forall q ensures q in cache <==> Answered(log + [slot], q) { AnsweredAppend(log, slot, q); }
  }

  /** A slot granted at least the interval after the lane's last one keeps the books. */
  lemma SlotKeepsBooks(log: seq<Entry>, lastStarted: map<Lane, real>, cache: map<Query, Results>,
                       lane: Lane, now: real, interval: real)
    requires Books(log, lastStarted, cache, now) && interval >= CV_REQUEST_FLOOR
    requires lane in lastStarted ==> lastStarted[lane] + interval <= now
    ensures Books(log + [Slot(lane, now, interval)], lastStarted[lane := now], cache, now)
  {
    GrantedAppend(log, lane, now, interval);
    PaidAppend(log, Slot(lane, now, interval));
    OrderedAppend(log, Slot(lane, now, interval));
    SlotKeepsCache(log, cache, Slot(lane, now, interval));
  }

  lemma SearchKeepsCache(log: seq<Entry>, cache: map<Query, Results>, query: Query, answer: Option<Results>, at: real)
    requires CacheMatches(log, cache) && query !in cache
    ensures CacheMatches(log + [Search(query, answer.Some?, at)], if answer.Some? then cache[query := answer.value] else cache)
  {
    var e := Search(query, answer.Some?, at);
    forall q ensures Answered(log + [e], q) <==> Answered(log, q) || Answers(e, q) { AnsweredAppend(log, e, q); }
    assert !Answered(log, query);
  }

  /** A search after its slot, for a query not yet answered, keeps the books. */
  lemma SearchKeepsBooks(log: seq<Entry>, lastStarted: map<Lane, real>, cache: map<Query, Results>, now: real,
                         query: Query, answer: Option<Results>)
    requires Books(log, lastStarted, cache, now) && query !in cache
    requires log != [] && log[|log| - 1].Slot? && log[|log| - 1].lane == SearchLane
    ensures Books(log + [Search(query, answer.Some?, now)], lastStarted,
                  if answer.Some? then cache[query := answer.value] else cache, now)
  {
    var e := Search(query, answer.Some?, now);
    PaidAppend(log, e);
    OrderedAppend(log, e);
    SearchKeepsCache(log, cache, query, answer, now);
    assert Granted(log + [e]);
  }

  class Importer {
    const clock: Clock
    const delay: AdaptiveDelay
    var stopRequested: bool
    var stop: bool
    var lastStarted: map<Lane, real>
    var searchCache: map<Query, Results>
    ghost var log: seq<Entry>

    ghost predicate Valid()
      reads this, clock, delay
    {
      delay.clock == clock && delay.Valid() && Books(log, lastStarted, searchCache, clock.now)
    }

    constructor (clock: Clock, delay: AdaptiveDelay)
      requires delay.clock == clock && delay.Valid()
      ensures Valid() && log == [] && this.clock == clock && this.delay == delay
    {
      this.clock, this.delay := clock, delay;
      stopRequested, stop, lastStarted, searchCache, log := false, false, map[], map[], [];
    }

    predicate ShouldStop()
      reads this
    {
      stopRequested || stop
    }

    /** One slice of waiting, during which a stop may be asked for. */
    method Pause(seconds: real)
      requires seconds >= 0.0
      modifies clock, this`stopRequested, this`stop
      ensures clock.now >= old(clock.now) + seconds
      ensures old(ShouldStop()) ==> ShouldStop()
    {
      clock.Sleep(seconds);
      if * { stopRequested := true; }
      if * { stop := true; }
    }

    /** Sleep in slices of at most a second. True: the whole time passed and no stop was seen. */
    method InterruptibleWait(seconds: real) returns (waited: bool)
      modifies clock, this`stopRequested, this`stop
      ensures waited ==> !ShouldStop() && clock.now >= old(clock.now) + seconds
      ensures !waited ==> ShouldStop()
      ensures clock.now >= old(clock.now)
    {
      var remaining := if seconds > 0.0 then seconds else 0.0;
      while remaining > 0.0
        invariant remaining >= 0.0
        invariant clock.now + remaining >= old(clock.now) + seconds
        invariant clock.now >= old(clock.now)
        decreases if remaining > 0.0 then remaining.Floor + 1 else 0
      {
        if ShouldStop() { return false; }
        var step := Min(1.0, remaining);
        Pause(step);
        remaining := remaining - step;
      }
      return !ShouldStop();
    }

    /** Wait for the lane's next slot. True: a slot was taken now, at least the interval after the last one.
        False: a stop was seen and nothing was taken. */
    method WaitForResourceSlot(lane: Lane) returns (granted: bool)
      requires Valid()
      modifies clock, delay, this`stopRequested, this`stop, this`lastStarted, this`log
      ensures Valid()
      ensures !granted ==> ShouldStop() && log == old(log) && lastStarted == old(lastStarted)
      ensures granted ==> !ShouldStop() && lastStarted == old(lastStarted)[lane := clock.now]
      ensures granted ==> |log| == |old(log)| + 1 && old(log) < log
                          && log[|log| - 1] == Slot(lane, clock.now, delay.current)
      ensures granted && lane in old(lastStarted) ==> clock.now - old(lastStarted[lane]) >= delay.current
      ensures clock.now >= old(clock.now)
    {
      var interval := delay.Current();
      IntervalInRange(delay.blocks);
      if lane in lastStarted {
        var waited := WaitOut(lastStarted[lane], interval);
        if !waited { return false; }
      }
      if ShouldStop() { return false; }
      TakeSlot(lane);
      return true;
    }

    /** Wait until the interval since the last start has passed. */
    method WaitOut(last: real, interval: real) returns (waited: bool)
      requires Valid()
      modifies clock, this`stopRequested, this`stop
      ensures Valid() && clock.now >= old(clock.now)
      ensures waited ==> clock.now - last >= interval
      ensures !waited ==> ShouldStop()
    {
      var remaining := interval - (clock.now - last);
      if remaining > 0.0 {
        waited := InterruptibleWait(remaining);
        return waited;
      }
      return true;
    }

    /** Start the lane's clock anew and record the start. */
    method TakeSlot(lane: Lane)
      requires Valid() && delay.current >= CV_REQUEST_FLOOR
      requires lane in lastStarted ==> lastStarted[lane] + delay.current <= clock.now
      modifies this`lastStarted, this`log
      ensures Valid() && lastStarted == old(lastStarted)[lane := clock.now]
      ensures log == old(log) + [Slot(lane, clock.now, delay.current)]
    {
      SlotKeepsBooks(log, lastStarted, searchCache, lane, clock.now, delay.current);
      lastStarted := lastStarted[lane := clock.now];
      log := log + [Slot(lane, clock.now, delay.current)];
    }

    /** One provider search. It starts after its slot: the status line is written in between. None: the provider refused. */
    method SearchProvider(query: Query) returns (results: Option<Results>)
      requires Valid() && query !in searchCache
      requires log != [] && log[|log| - 1].Slot? && log[|log| - 1].lane == SearchLane
      modifies clock, delay, this`searchCache, this`log, this`stopRequested, this`stop
      ensures Valid() && clock.now >= old(clock.now) && (old(ShouldStop()) ==> ShouldStop())
      ensures |log| == |old(log)| + 1 && old(log) < log
      ensures var e := log[|log| - 1];
        e.Search? && e.query == query && e.answered == results.Some? && old(clock.now) <= e.at <= clock.now
      ensures searchCache == if results.Some? then old(searchCache)[query := results.value] else old(searchCache)
      ensures delay.blocks == old(delay.blocks) + if results.None? then 1 else 0
      ensures results.None? ==> delay.lastBlock == Some(clock.now)
    {
      Pause(0.0);
      if * { results := None; } else { results := *; }
      BookSearch(query, results);
      Pause(0.0);
      if results.None? { var _ := delay.RecordBlock(); }
    }

    /** Record a search that starts now, and keep its answer. */
    method BookSearch(query: Query, results: Option<Results>)
      requires Valid() && query !in searchCache
      requires log != [] && log[|log| - 1].Slot? && log[|log| - 1].lane == SearchLane
      modifies this`searchCache, this`log
      ensures Valid() && log == old(log) + [Search(query, results.Some?, clock.now)]
      ensures searchCache == if results.Some? then old(searchCache)[query := results.value] else old(searchCache)
    {
      SearchKeepsBooks(log, lastStarted, searchCache, clock.now, query, results);
      log := log + [Search(query, results.Some?, clock.now)];
      if results.Some? { searchCache := searchCache[query := results.value]; }
    }

    /** The search of one title, or of a folder's name, on its own: cached, or paid for with a slot. */
    method SearchTitle(title: Query) returns (outcome: Outcome)
      requires Valid()
      modifies clock, delay, this`searchCache, this`log, this`stopRequested, this`stop, this`lastStarted
      ensures Valid()
      ensures outcome.Matched? ==> outcome.context.Keys == {title} && searchCache == old(searchCache)[title := outcome.context[title]]
      ensures !outcome.Matched? ==> searchCache == old(searchCache)
      ensures outcome.Stopped? ==> ShouldStop()
      ensures outcome.Refused? ==> delay.blocks > 0 && delay.lastBlock == Some(clock.now)
      ensures outcome.Matched? && title in old(searchCache) ==> outcome.context[title] == old(searchCache)[title]
      ensures title in old(searchCache) ==> outcome.Matched? && log == old(log) && searchCache == old(searchCache)
      ensures SearchedOnly(old(log), log, {title})
    {
      if title !in searchCache {
        var granted := WaitForResourceSlot(SearchLane);
        if !granted { return Stopped; }
        var results := SearchProvider(title);
        if results.None? { return Refused; }
      }
      return Matched(map[title := searchCache[title]]);
    }

    /** Match every title: a large folder first shares one search over its own name, and each title that
        search does not settle gets its own. `settles` is the verdict of the confidence policy. */
    method MatchSearchGroups(titles: seq<Query>, folderQuery: Option<Query>, settles: (Query, Results) -> bool)
      returns (outcome: Outcome)
      requires Valid()
      modifies clock, delay, this`searchCache, this`log, this`stopRequested, this`stop, this`lastStarted
      ensures Valid() && Grown(old(searchCache), searchCache, titles, folderQuery)
      ensures outcome.Stopped? ==> ShouldStop()
      ensures outcome.Matched? ==> ContextFits(searchCache, titles, folderQuery, settles, outcome.context)
                                   && forall t :: t in titles ==> t in outcome.context
      ensures outcome.Matched? ==> EachHasItsOwn(searchCache, titles, folderQuery, settles, outcome.context)
      ensures SearchedOnly(old(log), log, Needed(searchCache, titles, folderQuery, settles))
    {
      var shared := ShareSearch(titles, folderQuery, settles);
      if !shared.Matched? { return shared; }
      ghost var before, paid := searchCache, log;
      outcome := MatchRemaining(titles, folderQuery, settles, shared.context);
      WholeFolder(old(searchCache), before, searchCache, old(log), paid, log, titles, folderQuery, settles, shared.context);
    }

    /** One search over a large folder's own name, and the titles its answer settles. */
    method ShareSearch(titles: seq<Query>, folderQuery: Option<Query>, settles: (Query, Results) -> bool)
      returns (outcome: Outcome)
      requires Valid()
      modifies clock, delay, this`searchCache, this`log, this`stopRequested, this`stop, this`lastStarted
      ensures Valid() && Grown(old(searchCache), searchCache, titles, folderQuery)
      ensures outcome.Stopped? ==> ShouldStop()
      ensures outcome.Matched? ==> ContextFits(searchCache, titles, folderQuery, settles, outcome.context)
      ensures outcome.Matched? ==> IsShared(searchCache, titles, folderQuery, settles, outcome.context)
      ensures SearchedOnly(old(log), log, OwnQuery(titles, folderQuery))
    {
      if |titles| >= LARGE_FOLDER_SHARED_SEARCH_MIN_TITLES && folderQuery.Some? {
        outcome := SearchTitle(folderQuery.value);
        if !outcome.Matched? { return; }
        return Matched(Shared(titles, settles, searchCache[folderQuery.value]));
      }
      return Matched(map[]);
    }

    /** The title-by-title fallback, over what the shared search left. */
    method MatchRemaining(titles: seq<Query>, ghost folderQuery: Option<Query>, ghost settles: (Query, Results) -> bool,
                          settled: map<Query, Results>)
      returns (outcome: Outcome)
      requires Valid()
      requires ContextFits(searchCache, titles, folderQuery, settles, settled)
      modifies clock, delay, this`searchCache, this`log, this`stopRequested, this`stop, this`lastStarted
      ensures Valid() && Grown(old(searchCache), searchCache, titles, folderQuery)
      ensures outcome.Stopped? ==> ShouldStop()
      ensures outcome.Matched? ==> ContextFits(searchCache, titles, folderQuery, settles, outcome.context)
                                   && forall t :: t in titles ==> t in outcome.context
      ensures outcome.Matched? ==> Completed(searchCache, settled, outcome.context)
      ensures SearchedOnly(old(log), log, Unsettled(titles, settled))
    {
      var context := settled;
      for n := 0 to |titles|
        invariant Valid()
        invariant Grown(old(searchCache), searchCache, titles, folderQuery)
        invariant ContextFits(searchCache, titles, folderQuery, settles, context)
        invariant forall k :: 0 <= k < n ==> titles[k] in context
        invariant settled.Keys <= context.Keys
        invariant Completed(searchCache, settled, context) && SearchedOnly(old(log), log, Unsettled(titles, settled))
      {
        if titles[n] !in context {
          if ShouldStop() { return Stopped; }
          var own;
          ghost var was, paid, known := searchCache, log, context;
          own, context := MatchTitle(titles, folderQuery, settles, context, titles[n]);
          TitleTurn(old(log), paid, log, was, searchCache, titles, settled, known, context, titles[n]);
          if !own.Matched? { return own; }
        }
      }
      return Matched(context);
    }

    /** One title that nothing has settled yet: its own search settles it. */
    method MatchTitle(titles: seq<Query>, ghost folderQuery: Option<Query>, ghost settles: (Query, Results) -> bool,
                      context: map<Query, Results>, title: Query) returns (outcome: Outcome, after: map<Query, Results>)
      requires Valid() && title in titles && title !in context
      requires ContextFits(searchCache, titles, folderQuery, settles, context)
      modifies clock, delay, this`searchCache, this`log, this`stopRequested, this`stop, this`lastStarted
      ensures Valid() && Grown(old(searchCache), searchCache, titles, folderQuery)
      ensures outcome.Stopped? ==> ShouldStop()
      ensures outcome.Matched? ==> title in searchCache
      ensures ContextFits(searchCache, titles, folderQuery, settles, after)
      ensures after == if outcome.Matched? then context[title := searchCache[title]] else context
      ensures SearchedOnly(old(log), log, {title})
    {
      ghost var before := searchCache;
      outcome := SearchTitle(title);
      if !outcome.Matched? { return outcome, context; }
      GrownByTitle(before, searchCache, titles, folderQuery, title, outcome.context[title]);
      OneMoreTitle(before, searchCache, titles, folderQuery, settles, context, title);
      after := context[title := searchCache[title]];
    }
  }

  /** The log has only grown, and every search since was for one of these queries. */
  ghost predicate SearchedOnly(before: seq<Entry>, after: seq<Entry>, queries: set<Query>) {
    before <= after && forall i :: |before| <= i < |after| && after[i].Search? ==> after[i].query in queries
  }

  lemma SearchedTwice(a: seq<Entry>, b: seq<Entry>, c: seq<Entry>, first: set<Query>, second: set<Query>)
    requires SearchedOnly(a, b, first) && SearchedOnly(b, c, second)
    ensures SearchedOnly(a, c, first + second)
  {
    forall i | |a| <= i < |c| && c[i].Search? ensures c[i].query in first + second {
      if i < |b| { assert c[i] == b[i]; }
    }
  }

  /** A large folder's own search, where it has one. */
  function OwnQuery(titles: seq<Query>, folderQuery: Option<Query>): set<Query> {
    if |titles| >= 8 && folderQuery.Some? then {folderQuery.value} else {}
  }

  function Unsettled(titles: seq<Query>, settled: map<Query, Results>): set<Query> {
    set t | t in titles && t !in settled
  }

  /** The title belongs to a folder of at least eight, and the answer to the folder's own query settles it. */
  predicate SettledTogether(cache: map<Query, Results>, titles: seq<Query>, folderQuery: Option<Query>,
                            settles: (Query, Results) -> bool, t: Query)
  {
    |titles| >= 8 && folderQuery.Some? && folderQuery.value in cache && settles(t, cache[folderQuery.value])
  }

  /** The only queries a folder may cost: a large folder's own, and those of the titles that does not settle. */
  function Needed(cache: map<Query, Results>, titles: seq<Query>, folderQuery: Option<Query>,
                  settles: (Query, Results) -> bool): set<Query>
  {
    OwnQuery(titles, folderQuery) + set t | t in titles && !SettledTogether(cache, titles, folderQuery, settles, t)
  }

  /** What was settled together keeps its results; any other title has its own. */
  ghost predicate Completed(cache: map<Query, Results>, settled: map<Query, Results>, context: map<Query, Results>) {
    forall t :: t in context ==> if t in settled then context[t] == settled[t] else t in cache && context[t] == cache[t]
  }

  lemma OneOfUnsettled(titles: seq<Query>, settled: map<Query, Results>, t: Query)
    requires t in titles && t !in settled
    ensures Unsettled(titles, settled) + {t} == Unsettled(titles, settled)
  {
  }

  /** One turn of the fallback. */
  lemma TitleTurn(first: seq<Entry>, paid: seq<Entry>, last: seq<Entry>, before: map<Query, Results>, after: map<Query, Results>,
                  titles: seq<Query>, settled: map<Query, Results>, known: map<Query, Results>, context: map<Query, Results>, t: Query)
    requires SearchedOnly(first, paid, Unsettled(titles, settled)) && SearchedOnly(paid, last, {t})
    requires t in titles && t !in settled && Completed(before, settled, known)
    requires forall q :: q in before ==> q in after && after[q] == before[q]
    requires context == known || (t in after && context == known[t := after[t]])
    ensures SearchedOnly(first, last, Unsettled(titles, settled)) && Completed(after, settled, context)
  {
    SearchedTwice(first, paid, last, Unsettled(titles, settled), {t});
    OneOfUnsettled(titles, settled, t);
    OneMoreCompleted(before, after, settled, known, context, t);
  }

  lemma OneMoreCompleted(before: map<Query, Results>, after: map<Query, Results>,
                         settled: map<Query, Results>, known: map<Query, Results>, context: map<Query, Results>, t: Query)
    requires Completed(before, settled, known) && t !in settled
    requires forall q :: q in before ==> q in after && after[q] == before[q]
    requires context == known || (t in after && context == known[t := after[t]])
    ensures Completed(after, settled, context)
  {
  }

  ghost predicate IsShared(cache: map<Query, Results>, titles: seq<Query>, folderQuery: Option<Query>,
                           settles: (Query, Results) -> bool, settled: map<Query, Results>)
  {
    if |titles| >= 8 && folderQuery.Some?
    then folderQuery.value in cache && settled == Shared(titles, settles, cache[folderQuery.value]) else settled == map[]
  }

  /** Each title has the shared results where they settle it, its own otherwise. */
  ghost predicate EachHasItsOwn(cache: map<Query, Results>, titles: seq<Query>, folderQuery: Option<Query>,
                                settles: (Query, Results) -> bool, context: map<Query, Results>)
  {
    forall t :: t in titles ==>
      t in context && (if SettledTogether(cache, titles, folderQuery, settles, t) then context[t] == cache[folderQuery.value]
                       else t in cache && context[t] == cache[t])
  }

  /** The shared search and the fallback, put together. */
  lemma WholeFolder(a: map<Query, Results>, b: map<Query, Results>, c: map<Query, Results>,
                    first: seq<Entry>, paid: seq<Entry>, last: seq<Entry>, titles: seq<Query>, folderQuery: Option<Query>,
                    settles: (Query, Results) -> bool, settled: map<Query, Results>)
    requires Grown(a, b, titles, folderQuery) && Grown(b, c, titles, folderQuery)
    requires IsShared(b, titles, folderQuery, settles, settled)
    requires SearchedOnly(first, paid, OwnQuery(titles, folderQuery)) && SearchedOnly(paid, last, Unsettled(titles, settled))
    ensures Grown(a, c, titles, folderQuery)
    ensures SearchedOnly(first, last, Needed(c, titles, folderQuery, settles))
    ensures forall context ::
      Completed(c, settled, context) && (forall t :: t in titles ==> t in context) ==>
        EachHasItsOwn(c, titles, folderQuery, settles, context)
  {
    GrownTwice(a, b, c, titles, folderQuery);
    SearchedTwice(first, paid, last, OwnQuery(titles, folderQuery), Unsettled(titles, settled));
    SettledOnes(c, titles, folderQuery, settles, settled);
    forall context | Completed(c, settled, context) && forall t :: t in titles ==> t in context
      ensures EachHasItsOwn(c, titles, folderQuery, settles, context)
    {
      OwnOrShared(c, titles, folderQuery, settles, settled, context);
    }
  }

  lemma OwnOrShared(cache: map<Query, Results>, titles: seq<Query>, folderQuery: Option<Query>,
                    settles: (Query, Results) -> bool, settled: map<Query, Results>, context: map<Query, Results>)
    requires IsShared(cache, titles, folderQuery, settles, settled)
    requires Completed(cache, settled, context) && forall t :: t in titles ==> t in context
    ensures EachHasItsOwn(cache, titles, folderQuery, settles, context)
  {
    SettledOnes(cache, titles, folderQuery, settles, settled);
  }

  /** The titles the shared search settled are those it settles. */
  lemma SettledOnes(cache: map<Query, Results>, titles: seq<Query>, folderQuery: Option<Query>,
                    settles: (Query, Results) -> bool, settled: map<Query, Results>)
    requires IsShared(cache, titles, folderQuery, settles, settled)
    ensures forall t :: t in titles ==> (t in settled <==> SettledTogether(cache, titles, folderQuery, settles, t))
    ensures OwnQuery(titles, folderQuery) + Unsettled(titles, settled) == Needed(cache, titles, folderQuery, settles)
  {
  }

  /** What a shared search settles. */
  function Shared(titles: seq<Query>, settles: (Query, Results) -> bool, results: Results): (context: map<Query, Results>)
    ensures forall t :: t in context <==> t in titles && settles(t, results)
    ensures forall t :: t in context ==> context[t] == results
  {
    map t | t in titles && settles(t, results) :: results
  }

  lemma GrownByTitle(before: map<Query, Results>, after: map<Query, Results>, titles: seq<Query>, folderQuery: Option<Query>,
                     title: Query, results: Results)
    requires title in titles && after == before[title := results] && (title in before ==> before[title] == results)
    ensures Grown(before, after, titles, folderQuery)
  {
  }

  lemma GrownTwice(a: map<Query, Results>, b: map<Query, Results>, c: map<Query, Results>, titles: seq<Query>, folderQuery: Option<Query>)
    requires Grown(a, b, titles, folderQuery) && Grown(b, c, titles, folderQuery)
    ensures Grown(a, c, titles, folderQuery)
  {
  }

  /** The cache forgets nothing, and gains nothing but the titles and the folder's own query. */
  ghost predicate Grown(before: map<Query, Results>, after: map<Query, Results>, titles: seq<Query>, folderQuery: Option<Query>) {
    && (forall q :: q in before ==> q in after && after[q] == before[q])
    && (forall q :: q in after ==> q in before || q in titles || folderQuery == Some(q))
  }

  /** Where a title's results come from: its own search, or the shared one when that settles it. */
  ghost predicate Justified(cache: map<Query, Results>, titles: seq<Query>, folderQuery: Option<Query>,
                            settles: (Query, Results) -> bool, t: Query, r: Results)
  {
    || (t in cache && r == cache[t])
    || (|titles| >= LARGE_FOLDER_SHARED_SEARCH_MIN_TITLES && folderQuery.Some? && folderQuery.value in cache
        && r == cache[folderQuery.value] && settles(t, r))
  }

  ghost predicate ContextFits(cache: map<Query, Results>, titles: seq<Query>, folderQuery: Option<Query>,
                              settles: (Query, Results) -> bool, context: map<Query, Results>)
  {
    forall t :: t in context ==> t in titles && Justified(cache, titles, folderQuery, settles, t, context[t])
  }

  lemma ContextStillFits(before: map<Query, Results>, after: map<Query, Results>, titles: seq<Query>, folderQuery: Option<Query>,
                         settles: (Query, Results) -> bool, context: map<Query, Results>)
    requires ContextFits(before, titles, folderQuery, settles, context)
    requires forall q :: q in before ==> q in after && after[q] == before[q]
    ensures ContextFits(after, titles, folderQuery, settles, context)
  {
    forall t | t in context ensures t in titles && Justified(after, titles, folderQuery, settles, t, context[t]) {
      assert Justified(before, titles, folderQuery, settles, t, context[t]);
    }
  }

  lemma OneMoreTitle(before: map<Query, Results>, after: map<Query, Results>, titles: seq<Query>, folderQuery: Option<Query>,
                     settles: (Query, Results) -> bool, context: map<Query, Results>, title: Query)
    requires ContextFits(before, titles, folderQuery, settles, context)
    requires title in titles && title in after && title !in context
    requires forall q :: q in before ==> q in after && after[q] == before[q]
    ensures ContextFits(after, titles, folderQuery, settles, context[title := after[title]])
  {
    ContextStillFits(before, after, titles, folderQuery, settles, context);
  }

  // ---------------------------------------------------------------- the hourly bound

  function InWindow(starts: seq<real>, lo: real, hi: real): nat {
    if starts == [] then 0
    else InWindow(starts[1..], lo, hi) + if lo <= starts[0] < hi then 1 else 0
  }

  /** Starts at least `gap` apart: at most n of them fit in a half-open window of n gaps. */
  lemma {:induction false} WindowBound(starts: seq<real>, gap: real, lo: real, hi: real, n: nat)
    requires gap > 0.0 && Spaced(starts, gap) && hi - lo <= gap * n as real
    ensures InWindow(starts, lo, hi) <= n
    decreases |starts|
  {
    if starts != [] {
      var rest := starts[1..];
      assert Spaced(rest, gap) by {
        forall i | 0 <= i < |rest| - 1 ensures rest[i] + gap <= rest[i + 1] { assert starts[i + 1] + gap <= starts[i + 2]; }
      }
      if starts[0] < lo || hi <= starts[0] {
        WindowBound(rest, gap, lo, hi, n);
      } else {
        assert n > 0;
        LaterStarts(starts, gap);
        NarrowWindow(rest, lo, lo + gap, hi);
        assert gap * n as real - gap == gap * (n - 1) as real;
        WindowBound(rest, gap, lo + gap, hi, n - 1);
      }
    }
  }

  lemma {:induction false} LaterStarts(starts: seq<real>, gap: real)
    requires starts != [] && gap > 0.0 && Spaced(starts, gap)
    ensures forall i :: 0 < i < |starts| ==> starts[0] + gap <= starts[i]
    decreases |starts|
  {
    if |starts| > 1 {
      assert starts[0] + gap <= starts[1];
      var rest := starts[1..];
      assert Spaced(rest, gap) by {
        forall i | 0 <= i < |rest| - 1 ensures rest[i] + gap <= rest[i + 1] { assert starts[i + 1] + gap <= starts[i + 2]; }
      }
      LaterStarts(rest, gap);
      forall i | 0 < i < |starts| ensures starts[0] + gap <= starts[i] {
        assert starts[i] == rest[i - 1];
      }
    }
  }

  lemma {:induction false} NarrowWindow(starts: seq<real>, lo: real, later: real, hi: real)
    requires lo <= later && forall i :: 0 <= i < |starts| ==> later <= starts[i]
    ensures InWindow(starts, lo, hi) == InWindow(starts, later, hi)
  {
    if starts != [] { NarrowWindow(starts[1..], lo, later, hi); }
  }

  /** The last recorded start of a lane is that of some slot in the log. */
  lemma {:induction false} LastStart(log: seq<Entry>, lane: Lane) returns (i: nat)
    requires Starts(log, lane) != []
    ensures i < |log| && log[i].Slot? && log[i].lane == lane
    ensures log[i].at == Starts(log, lane)[|Starts(log, lane)| - 1]
  {
    var last := log[|log| - 1];
    if last.Slot? && last.lane == lane { i := |log| - 1; } else { i := LastStart(log[..|log| - 1], lane); }
  }

  lemma SpacedAppend(starts: seq<real>, gap: real, next: real)
    requires Spaced(starts, gap) && (starts != [] ==> starts[|starts| - 1] + gap <= next)
    ensures Spaced(starts + [next], gap)
  {
  }

  lemma {:induction false} GrantedIsSpaced(log: seq<Entry>, lane: Lane)
    requires Granted(log)
    ensures Spaced(Starts(log, lane), CV_REQUEST_FLOOR)
  {
    if log != [] {
      var front, last := log[..|log| - 1], log[|log| - 1];
      var earlier := Starts(front, lane);
      GrantedIsSpaced(front, lane);
      if last.Slot? && last.lane == lane {
        if earlier != [] {
          var i := LastStart(front, lane);
          assert log[i] == front[i];
          assert log[i].at + log[|log| - 1].interval <= log[|log| - 1].at;
        }
        SpacedAppend(earlier, CV_REQUEST_FLOOR, last.at);
      } else {
        assert Starts(log, lane) == earlier;
      }
    }
  }

  /** One task takes at most 200 slots of a lane in any half-open hour: the provider's documented allowance. */
  lemma HourlyAllowance(log: seq<Entry>, lane: Lane, start: real)
    requires Granted(log)
    ensures InWindow(Starts(log, lane), start, start + 3600.0) <= 200
  {
    GrantedIsSpaced(log, lane);
    WindowBound(Starts(log, lane), CV_REQUEST_FLOOR, start, start + 3600.0, 200);
  }

  function SearchStarts(log: seq<Entry>): seq<real> {
    if log == [] then []
    else
      var last := log[|log| - 1];
      SearchStarts(log[..|log| - 1]) + if last.Search? then [last.at] else []
  }

  /** Some search of the window was granted its slot before it. */
  ghost predicate Late(log: seq<Entry>, lo: real, hi: real) {
    exists i :: 0 < i < |log| && log[i].Search? && log[i - 1].at < lo <= log[i].at < hi
  }

  /** A search slot of the window that is not followed at once by a search inside the window. */
  predicate Unused(log: seq<Entry>, i: nat, lo: real, hi: real)
    requires i < |log|
  {
    && log[i].Slot? && log[i].lane == SearchLane && lo <= log[i].at < hi
    && !(i + 1 < |log| && log[i + 1].Search? && lo <= log[i + 1].at < hi)
  }

  /** How many of the first n entries are such slots. */
  function Unspent(log: seq<Entry>, n: nat, lo: real, hi: real): nat
    requires n <= |log|
  {
    if n == 0 then 0 else Unspent(log, n - 1, lo, hi) + if Unused(log, n - 1, lo, hi) then 1 else 0
  }

  lemma {:induction false} InWindowAppend(starts: seq<real>, next: real, lo: real, hi: real)
    ensures InWindow(starts + [next], lo, hi) == InWindow(starts, lo, hi) + if lo <= next < hi then 1 else 0
  {
    if starts == [] {
      assert [] + [next] == [next];
    } else {
      InWindowAppend(starts[1..], next, lo, hi);
      assert (starts + [next])[1..] == starts[1..] + [next];
    }
  }

  /** One search and its slot: what the counts of both become. */
  lemma CountsAppend(log: seq<Entry>, e: Entry, lo: real, hi: real)
    ensures InWindow(SearchStarts(log + [e]), lo, hi)
      == InWindow(SearchStarts(log), lo, hi) + if e.Search? && lo <= e.at < hi then 1 else 0
    ensures InWindow(Starts(log + [e], SearchLane), lo, hi)
      == InWindow(Starts(log, SearchLane), lo, hi) + if e.Slot? && e.lane == SearchLane && lo <= e.at < hi then 1 else 0
  {
    assert (log + [e])[..|log|] == log;
    if e.Search? { InWindowAppend(SearchStarts(log), e.at, lo, hi); }
    if e.Slot? && e.lane == SearchLane { InWindowAppend(Starts(log, SearchLane), e.at, lo, hi); }
    assert SearchStarts(log) + [] == SearchStarts(log) && Starts(log, SearchLane) + [] == Starts(log, SearchLane);
  }

  // ---- one more entry

  lemma {:induction false} UnspentPrefix(log: seq<Entry>, more: seq<Entry>, n: nat, lo: real, hi: real)
    requires n <= |log| && (n == |log| && n > 0 && more != [] ==> !more[0].Search? || !(lo <= more[0].at < hi))
    ensures Unspent(log + more, n, lo, hi) == Unspent(log, n, lo, hi)
  {
    if n > 0 {
      UnspentPrefix(log, more, n - 1, lo, hi);
      assert (log + more)[n - 1] == log[n - 1];
      if n < |log| { assert (log + more)[n] == log[n]; } else if more != [] { assert (log + more)[n] == more[0]; }
    }
  }

  lemma LateAppend(log: seq<Entry>, e: Entry, lo: real, hi: real)
    ensures Late(log + [e], lo, hi) <==>
      Late(log, lo, hi) || (log != [] && e.Search? && log[|log| - 1].at < lo <= e.at < hi)
  {
    var after := log + [e];
    if Late(log, lo, hi) {
      var i :| 0 < i < |log| && log[i].Search? && log[i - 1].at < lo <= log[i].at < hi;
      assert after[i].Search? && after[i - 1].at < lo <= after[i].at < hi;
    }
    if log != [] && e.Search? && log[|log| - 1].at < lo <= e.at < hi {
      assert after[|log|].Search? && after[|log| - 1].at < lo <= after[|log|].at < hi;
    }
    if Late(after, lo, hi) {
      var i :| 0 < i < |after| && after[i].Search? && after[i - 1].at < lo <= after[i].at < hi;
      if i < |log| { assert log[i].Search? && log[i - 1].at < lo <= log[i].at < hi; }
    }
  }

  /** Searches and unspent slots of the window add up to its slots, and the late search, if any. */
  ghost predicate Counted(log: seq<Entry>, lo: real, hi: real) {
    InWindow(SearchStarts(log), lo, hi) + Unspent(log, |log|, lo, hi)
      == InWindow(Starts(log, SearchLane), lo, hi) + if Late(log, lo, hi) then 1 else 0
  }

  /** Before the window there is nothing to count. */
  lemma {:induction false} NothingYet(log: seq<Entry>, lo: real, hi: real)
    requires forall i :: 0 <= i < |log| ==> log[i].at < lo
    ensures InWindow(SearchStarts(log), lo, hi) == 0 && InWindow(Starts(log, SearchLane), lo, hi) == 0
    ensures Unspent(log, |log|, lo, hi) == 0 && !Late(log, lo, hi)
  {
    if log != [] {
      var front, last := log[..|log| - 1], log[|log| - 1];
      assert log == front + [last];
      NothingYet(front, lo, hi);
      CountsAppend(front, last, lo, hi);
      UnspentPrefix(front, [last], |front|, lo, hi);
    }
  }

  lemma PaidPrefix(log: seq<Entry>, n: nat)
    requires n <= |log| && TimeOrdered(log) && SearchesPaid(log)
    ensures TimeOrdered(log[..n]) && SearchesPaid(log[..n])
  {
    var front := log[..n];
    forall i | 0 <= i < |front| && front[i].Search? ensures i > 0 && front[i - 1].Slot? && front[i - 1].lane == SearchLane {
      assert log[i].Search?;
    }
  }

  predicate SlotOf(e: Entry, lo: real, hi: real) {
    e.Slot? && e.lane == SearchLane && lo <= e.at < hi
  }

  lemma UnspentOther(front: seq<Entry>, last: Entry, lo: real, hi: real)
    requires !(last.Search? && lo <= last.at < hi)
    ensures Unspent(front + [last], |front| + 1, lo, hi) == Unspent(front, |front|, lo, hi) + if SlotOf(last, lo, hi) then 1 else 0
  {
    UnspentPrefix(front, [last], |front|, lo, hi);
    assert (front + [last])[|front|] == last;
  }

  lemma UnspentPair(rest: seq<Entry>, slot: Entry, last: Entry, lo: real, hi: real)
    requires slot.Slot? && last.Search? && lo <= last.at < hi
    ensures Unspent(rest + [slot] + [last], |rest| + 2, lo, hi) == Unspent(rest, |rest|, lo, hi)
  {
    var log := rest + [slot] + [last];
    assert log == rest + [slot, last] && log[|rest|] == slot && log[|rest| + 1] == last;
    UnspentPrefix(rest, [slot, last], |rest|, lo, hi);
    assert !Unused(log, |rest|, lo, hi) && !Unused(log, |rest| + 1, lo, hi);
    assert Unspent(log, |rest| + 1, lo, hi) == Unspent(log, |rest|, lo, hi);
  }

  /** An entry that is not a search of the window. */
  lemma OtherCounted(front: seq<Entry>, last: Entry, lo: real, hi: real)
    requires Counted(front, lo, hi) && !(last.Search? && lo <= last.at < hi)
    ensures Counted(front + [last], lo, hi)
  {
    CountsAppend(front, last, lo, hi);
    LateAppend(front, last, lo, hi);
    UnspentOther(front, last, lo, hi);
  }

  /** Whether the window has a late search after a search of the window and its slot. */
  lemma LatePair(rest: seq<Entry>, slot: Entry, last: Entry, lo: real, hi: real)
    requires slot.Slot? && last.Search? && lo <= last.at < hi
    ensures Late(rest + [slot] + [last], lo, hi) <==> Late(rest, lo, hi) || slot.at < lo
  {
    LateAppend(rest, slot, lo, hi);
    LateAppend(rest + [slot], last, lo, hi);
  }

  /** A search of the window and its slot, which is spent or lies before the window. */
  lemma PairCounted(rest: seq<Entry>, slot: Entry, last: Entry, lo: real, hi: real)
    requires slot.Slot? && slot.lane == SearchLane && last.Search? && slot.at <= last.at && lo <= last.at < hi
    requires Counted(rest, lo, hi) && (slot.at < lo ==> forall i :: 0 <= i < |rest| ==> rest[i].at < lo)
    ensures Counted(rest + [slot] + [last], lo, hi)
  {
    CountsAppend(rest, slot, lo, hi);
    CountsAppend(rest + [slot], last, lo, hi);
    LatePair(rest, slot, last, lo, hi);
    UnspentPair(rest, slot, last, lo, hi);
    if slot.at < lo { NothingYet(rest, lo, hi); }
  }

  /** In any window, searches and unspent search slots are as many as the search slots, but for one search
      whose slot was granted before the window. */
  lemma {:induction false} SearchesFollowSlots(log: seq<Entry>, lo: real, hi: real)
    requires TimeOrdered(log) && SearchesPaid(log)
    ensures Counted(log, lo, hi)
    decreases |log|
  {
    if log != [] {
      var n := |log| - 1;
      var last := log[n];
      if last.Search? && lo <= last.at < hi {
        PaidPrefix(log, n - 1);
        SearchesFollowSlots(log[..n - 1], lo, hi);
        assert log == log[..n - 1] + [log[n - 1]] + [last];
        PairCounted(log[..n - 1], log[n - 1], last, lo, hi);
      } else {
        PaidPrefix(log, n);
        SearchesFollowSlots(log[..n], lo, hi);
        assert log == log[..n] + [last];
        OtherCounted(log[..n], last, lo, hi);
      }
    }
  }

  /** An importer starts at most 201 provider searches in any half-open hour, and more than the 200 of the
      provider's allowance exactly when the hour begins with a search granted its slot before it, holds all
      200 slots it can, and every one of them is spent inside it. */
  lemma HourlySearches(log: seq<Entry>, lastStarted: map<Lane, real>, cache: map<Query, Results>, now: real, start: real)
    requires Books(log, lastStarted, cache, now)
    ensures InWindow(SearchStarts(log), start, start + 3600.0) <= 201
    ensures InWindow(SearchStarts(log), start, start + 3600.0) > 200 <==>
      && Late(log, start, start + 3600.0)
      && InWindow(Starts(log, SearchLane), start, start + 3600.0) == 200
      && Unspent(log, |log|, start, start + 3600.0) == 0
  {
    HourlyAllowance(log, SearchLane, start);
    SearchesFollowSlots(log, start, start + 3600.0);
  }

  // ---------------------------------------------------------------- the bound is exact

  /** Every search starts at most so long after its slot. */
  ghost predicate Prompt(log: seq<Entry>, lag: real) {
    forall i :: 0 < i < |log| && log[i].Search? ==> log[i].at - log[i - 1].at <= lag
  }

  ghost predicate Overfull(log: seq<Entry>, start: real) {
    InWindow(SearchStarts(log), start, start + 3600.0) > 200
  }

  /** No importer whose searches are so prompt ever exceeds the allowance. */
  ghost predicate AllowanceKept(lag: real) {
    forall log, lastStarted, cache, now, start ::
      Books(log, lastStarted, cache, now) && Prompt(log, lag) ==> !Overfull(log, start)
  }

  /** Time passing spoils nothing. */
  lemma BooksLater(log: seq<Entry>, lastStarted: map<Lane, real>, cache: map<Query, Results>, now: real, later: real)
    requires Books(log, lastStarted, cache, now) && now <= later
    ensures Books(log, lastStarted, cache, later)
  {
  }

  /** When the k-th slot of a busy importer is granted: the first `late` seconds before the hour, the others as
      soon as the pacing allows. */
  function SlotTime(start: real, late: real, k: nat): real {
    start - late + 18.0 * k as real
  }

  /** Every search starts at its slot, but the first, which starts with the hour. */
  function SearchTime(start: real, late: real, k: nat): real {
    if k == 0 then start else SlotTime(start, late, k)
  }

  /** The k-th query. */
  function Nth(k: nat): Query {
    Query(seq(k, i => 'a'))
  }

  /** The log of n such searches, all answered. */
  function Busy(start: real, late: real, n: nat): seq<Entry> {
    if n == 0 then []
    else
      Busy(start, late, n - 1) + [Slot(SearchLane, SlotTime(start, late, n - 1), 18.0)]
      + [Search(Nth(n - 1), true, SearchTime(start, late, n - 1))]
  }

  function BusyLast(start: real, late: real, n: nat): map<Lane, real> {
    if n == 0 then map[] else map[SearchLane := SlotTime(start, late, n - 1)]
  }

  function BusyNow(start: real, late: real, n: nat): real {
    if n == 0 then SlotTime(start, late, 0) else SearchTime(start, late, n - 1)
  }

  function BusyCache(n: nat): map<Query, Results> {
    if n == 0 then map[] else BusyCache(n - 1)[Nth(n - 1) := []]
  }

  lemma {:induction false} BusyCached(n: nat, q: Query)
    requires q in BusyCache(n)
    ensures |q.text| < n
  {
    if q != Nth(n - 1) { BusyCached(n - 1, q); }
  }

  lemma BusyTimes(start: real, late: real, n: nat)
    requires 0.0 < late <= 18.0
    ensures BusyNow(start, late, n) <= SlotTime(start, late, n) <= SearchTime(start, late, n)
    ensures n > 0 ==> SlotTime(start, late, n - 1) + 18.0 == SlotTime(start, late, n)
  {
  }

  /** One more of them: a slot granted and a search started, as the importer grants and starts them. */
  lemma OneMoreBusy(start: real, late: real, n: nat, log: seq<Entry>, lastStarted: map<Lane, real>, cache: map<Query, Results>)
    requires 0.0 < late <= 18.0 && lastStarted == BusyLast(start, late, n) && Nth(n) !in cache
    requires Books(log, lastStarted, cache, BusyNow(start, late, n))
    ensures Books(log + [Slot(SearchLane, SlotTime(start, late, n), 18.0)] + [Search(Nth(n), true, SearchTime(start, late, n))],
                  BusyLast(start, late, n + 1), cache[Nth(n) := []], BusyNow(start, late, n + 1))
  {
    var at, begun := SlotTime(start, late, n), SearchTime(start, late, n);
    var granted := log + [Slot(SearchLane, at, 18.0)];
    BusyTimes(start, late, n);
    BooksLater(log, lastStarted, cache, BusyNow(start, late, n), at);
    SlotKeepsBooks(log, lastStarted, cache, SearchLane, at, 18.0);
    assert lastStarted[SearchLane := at] == BusyLast(start, late, n + 1);
    BooksLater(granted, BusyLast(start, late, n + 1), cache, at, begun);
    SearchKeepsBooks(granted, BusyLast(start, late, n + 1), cache, begun, Nth(n), Some([]));
  }

  lemma EmptyBooks(now: real)
    ensures Books([], map[], map[], now)
  {
  }

  /** The query of the next search is a new one. */
  lemma NextIsNew(n: nat)
    ensures Nth(n) !in BusyCache(n)
  {
    if Nth(n) in BusyCache(n) { BusyCached(n, Nth(n)); }
  }

  lemma {:induction false} BusyBooks(start: real, late: real, n: nat) returns (log: seq<Entry>, cache: map<Query, Results>)
    requires 0.0 < late <= 18.0
    ensures log == Busy(start, late, n) && cache == BusyCache(n)
    ensures Books(log, BusyLast(start, late, n), cache, BusyNow(start, late, n))
  {
    if n == 0 {
      log, cache := [], map[];
      EmptyBooks(BusyNow(start, late, n));
    } else {
      log, cache := BusyBooks(start, late, n - 1);
      NextIsNew(n - 1);
      OneMoreBusy(start, late, n - 1, log, BusyLast(start, late, n - 1), cache);
      log, cache := log + [Slot(SearchLane, SlotTime(start, late, n - 1), 18.0)]
                    + [Search(Nth(n - 1), true, SearchTime(start, late, n - 1))], cache[Nth(n - 1) := []];
    }
  }

  lemma PromptAppend(log: seq<Entry>, slot: Entry, last: Entry, lag: real)
    requires Prompt(log, lag) && slot.Slot? && last.at - slot.at <= lag
    ensures Prompt(log + [slot] + [last], lag)
  {
    var after := log + [slot] + [last];
    forall i | 0 < i < |after| && after[i].Search? ensures after[i].at - after[i - 1].at <= lag {
      if i < |log| { assert after[i] == log[i] && after[i - 1] == log[i - 1]; }
    }
  }

  lemma {:induction false} BusyIsPrompt(start: real, late: real, n: nat)
    requires 0.0 < late
    ensures Prompt(Busy(start, late, n), late)
  {
    if n > 0 {
      BusyIsPrompt(start, late, n - 1);
      PromptAppend(Busy(start, late, n - 1), Slot(SearchLane, SlotTime(start, late, n - 1), 18.0),
                   Search(Nth(n - 1), true, SearchTime(start, late, n - 1)), late);
    }
  }

  lemma {:induction false} BusyHour(start: real, late: real, n: nat)
    requires 0.0 < late <= 18.0 && n <= 201
    ensures InWindow(SearchStarts(Busy(start, late, n)), start, start + 3600.0) == n
  {
    if n > 0 {
      var rest, slot := Busy(start, late, n - 1), Slot(SearchLane, SlotTime(start, late, n - 1), 18.0);
      BusyHour(start, late, n - 1);
      CountsAppend(rest, slot, start, start + 3600.0);
      CountsAppend(rest + [slot], Search(Nth(n - 1), true, SearchTime(start, late, n - 1)), start, start + 3600.0);
    }
  }

  /** The bound is reached by steps the importer can take: from empty books, slots granted 18 seconds apart and
      searches started at their slots, but for the first, which starts late, fit up to 201 searches into an hour. */
  lemma OneMoreSearchIsPossible(start: real, late: real, n: nat)
    requires 0.0 < late <= 18.0 && n <= 201
    ensures Books(Busy(start, late, n), BusyLast(start, late, n), BusyCache(n), BusyNow(start, late, n))
    ensures Prompt(Busy(start, late, n), late)
    ensures InWindow(SearchStarts(Busy(start, late, n)), start, start + 3600.0) == n
  {
    var _, _ := BusyBooks(start, late, n);
    BusyIsPrompt(start, late, n);
    BusyHour(start, late, n);
  }

  lemma PromptMeansLate(log: seq<Entry>, lag: real, lo: real, hi: real)
    requires Prompt(log, lag) && Late(log, lo, hi)
    ensures lag > 0.0
  {
  }

  lemma PromptKeepsAllowance(log: seq<Entry>, lastStarted: map<Lane, real>, cache: map<Query, Results>, now: real, start: real)
    requires Books(log, lastStarted, cache, now) && Prompt(log, 0.0)
    ensures !Overfull(log, start)
  {
    HourlySearches(log, lastStarted, cache, now, start);
    if Late(log, start, start + 3600.0) { PromptMeansLate(log, 0.0, start, start + 3600.0); }
  }

  /** A late search and 200 prompt ones. */
  lemma LagOverfills(lag: real, late: real, n: nat)
    requires 0.0 < late <= 18.0 && late <= lag && n == 201
    ensures !AllowanceKept(lag)
  {
    OneMoreSearchIsPossible(0.0, late, n);
    var log := Busy(0.0, late, n);
    assert Prompt(log, lag);
    assert Overfull(log, 0.0);
    assert Books(log, BusyLast(0.0, late, n), BusyCache(n), BusyNow(0.0, late, n));
  }

  /** Importers whose searches start within `lag` seconds of their slots all keep to 200 searches an hour exactly
      when searches start at their slots. */
  lemma AllowanceKeptExactly(lag: real)
    requires lag >= 0.0
    ensures AllowanceKept(lag) <==> lag == 0.0
  {
    if lag == 0.0 {
      forall log, lastStarted, cache, now, start | Books(log, lastStarted, cache, now) && Prompt(log, lag)
        ensures !Overfull(log, start)
      {
        PromptKeepsAllowance(log, lastStarted, cache, now, start);
      }
    } else {
      LagOverfills(lag, Min(lag, 18.0), 201);
    }
  }
}
