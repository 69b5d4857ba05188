/** The download queue: which direct downloads run, in which order, and what reordering does to that.
    Starting a thread is one step with its first assignment of the downloading state. */
module DownloadQueue {
  import opened Basics

  datatype State = Queued | Paused | Downloading | Seeding | Importing | Failed | Canceled | ShutDown
  datatype Kind = Http | Mega | External

  /** `alive` says whether the download's thread is running, `arrival` numbers downloads as they are added. */
  datatype Download = Download(id: nat, kind: Kind, state: State, alive: bool, arrival: nat)
  type Queue = seq<Download>

  datatype QueueError = DownloadNotFound | DownloadUnmovable | IndexOutOfBounds

  predicate Waiting(d: Download) {
    !d.kind.External? && d.state.Queued?
  }

  predicate Running(d: Download) {
    !d.kind.External? && d.state.Downloading?
  }

  /** The direct downloads that are queued or downloading. */
  function Eligible(q: Queue): (n: nat) {
    if q == [] then 0
    else Eligible(q[..|q| - 1]) + if Waiting(q[|q| - 1]) || Running(q[|q| - 1]) then 1 else 0
  }

  function RunningCount(q: Queue): (n: nat) {
    if q == [] then 0 else RunningCount(q[..|q| - 1]) + if Running(q[|q| - 1]) then 1 else 0
  }

  function Begun(d: Download): Download {
    d.(state := Downloading, alive := true)
  }

  // ---------------------------------------------------------------- one pass over the queue

  /** A queued direct download is started exactly when fewer than `limit` eligible ones precede it. */
  predicate Starts(q: Queue, limit: nat, p: nat)
    requires p < |q|
  {
    Waiting(q[p]) && Eligible(q[..p]) < limit
  }

  function Processed(q: Queue, limit: nat): (r: Queue)
    ensures |r| == |q|
    ensures forall p :: 0 <= p < |q| ==> r[p] == if Starts(q, limit, p) then Begun(q[p]) else q[p]
  {
    seq(|q|, p requires 0 <= p < |q| => if Starts(q, limit, p) then Begun(q[p]) else q[p])
  }

  lemma EligibleStep(q: Queue, p: nat)
    requires p < |q|
    ensures Eligible(q[..p + 1]) == Eligible(q[..p]) + if Waiting(q[p]) || Running(q[p]) then 1 else 0
  {
    assert q[..p + 1][..p] == q[..p];
  }

  lemma {:induction false} EligibleMonotone(q: Queue, i: nat, k: nat)
    requires i <= k <= |q|
    ensures Eligible(q[..i]) <= Eligible(q[..k])
    decreases k
  {
    if i < k {
      EligibleMonotone(q, i, k - 1);
      EligibleStep(q, k - 1);
    }
  }

  lemma RunningStep(q: Queue, p: nat)
    requires p < |q|
    ensures RunningCount(q[..p + 1]) == RunningCount(q[..p]) + if Running(q[p]) then 1 else 0
  {
    assert q[..p + 1][..p] == q[..p];
  }

  function Min(a: nat, b: nat): nat {
    if a < b then a else b
  }

  /** The running downloads that have `limit` or more eligible ones before them. */
  function Late(q: Queue, limit: nat, n: nat): (c: nat)
    requires n <= |q|
  {
    if n == 0 then 0
    else Late(q, limit, n - 1) + if Running(q[n - 1]) && Eligible(q[..n - 1]) >= limit then 1 else 0
  }

  /** A pass fills the limit from the front, and leaves the running ones further back running. */
  lemma {:induction false} PassCounts(q: Queue, limit: nat, n: nat)
    requires n <= |q|
    ensures RunningCount(Processed(q, limit)[..n]) == Min(Eligible(q[..n]), limit) + Late(q, limit, n)
  {
    if n > 0 {
      PassCounts(q, limit, n - 1);
      EligibleStep(q, n - 1);
      RunningStep(Processed(q, limit), n - 1);
    }
  }

  /** No running download has `limit` or more eligible ones ahead of it. */
  ghost predicate RunningInFront(q: Queue, limit: nat) {
    forall p :: 0 <= p < |q| && Running(q[p]) ==> Eligible(q[..p]) < limit
  }

  lemma {:induction false} NoneLate(q: Queue, limit: nat, n: nat)
    requires n <= |q|
    ensures Late(q, limit, n) == 0 <==> forall p :: 0 <= p < n && Running(q[p]) ==> Eligible(q[..p]) < limit
  {
    if n > 0 { NoneLate(q, limit, n - 1); }
  }

  /** A pass ends with either the limit reached or nothing waiting, however the queue is ordered. */
  lemma PassFillsTheLimit(q: Queue, limit: nat, p: nat)
    requires p < |q| && Waiting(Processed(q, limit)[p])
    ensures RunningCount(Processed(q, limit)) >= limit
  {
    EligibleMonotone(q, p, |q|);
    PassCounts(q, limit, |q|);
    assert Processed(q, limit)[..|q|] == Processed(q, limit) && q[..|q|] == q;
  }

  /** It keeps to the limit exactly when no running download stood behind `limit` eligible ones. */
  lemma PassKeepsTheLimitExactly(q: Queue, limit: nat)
    ensures RunningCount(Processed(q, limit)) <= limit <==> RunningInFront(q, limit)
  {
    PassCounts(q, limit, |q|);
    NoneLate(q, limit, |q|);
    assert Processed(q, limit)[..|q|] == Processed(q, limit) && q[..|q|] == q;
    if Late(q, limit, |q|) > 0 { LateMeansFull(q, limit, |q|); }
  }

  lemma {:induction false} LateMeansFull(q: Queue, limit: nat, n: nat)
    requires n <= |q| && Late(q, limit, n) > 0
    ensures Eligible(q[..n]) >= limit
  {
    EligibleStep(q, n - 1);
    if !(Running(q[n - 1]) && Eligible(q[..n - 1]) >= limit) { LateMeansFull(q, limit, n - 1); }
  }

  /** What is started is started from the front: nothing queued ahead of it stays behind. */
  lemma PassIsFirstInFirstOut(q: Queue, limit: nat, i: nat, p: nat)
    requires i < p < |q| && Starts(q, limit, p) && Waiting(q[i])
    ensures Starts(q, limit, i)
  {
    EligibleMonotone(q, i, p);
  }

  // ---------------------------------------------------------------- without reordering

  /** Direct downloads that have been started come before those that have not. */
  ghost predicate InOrder(q: Queue) {
    forall i, k :: 0 <= i < k < |q| && Waiting(q[i]) && !q[k].kind.External? ==> Waiting(q[k])
  }

  ghost predicate DistinctIds(q: Queue) {
    forall i, k :: 0 <= i < k < |q| ==> q[i].id != q[k].id
  }

  ghost predicate Good(q: Queue, limit: nat) {
    DistinctIds(q) && InOrder(q) && RunningCount(q) <= limit
  }

  lemma {:induction false} NoWaitingAhead(q: Queue, n: nat)
    requires n <= |q| && forall i :: 0 <= i < n ==> !Waiting(q[i])
    ensures Eligible(q[..n]) == RunningCount(q[..n])
  {
    if n > 0 {
      NoWaitingAhead(q, n - 1);
      EligibleStep(q, n - 1);
      RunningStep(q, n - 1);
    }
  }

  lemma {:induction false} RunningMonotone(q: Queue, i: nat, k: nat)
    requires i <= k <= |q|
    ensures RunningCount(q[..i]) <= RunningCount(q[..k])
    decreases k
  {
    if i < k {
      RunningMonotone(q, i, k - 1);
      RunningStep(q, k - 1);
    }
  }

  /** In an orderly queue nothing waits ahead of a running download, so the in-order count there is small. */
  lemma RunningSitsWithinLimit(q: Queue, limit: nat, p: nat)
    requires Good(q, limit) && p < |q| && Running(q[p])
    ensures Eligible(q[..p]) < limit
  {
    NoWaitingAhead(q, p);
    RunningStep(q, p);
    RunningMonotone(q, p + 1, |q|);
    assert q[..|q|] == q;
  }

  lemma PassKeepsOrder(q: Queue, limit: nat)
    requires Good(q, limit)
    ensures DistinctIds(Processed(q, limit)) && InOrder(Processed(q, limit))
  {
    var r := Processed(q, limit);
    forall i, k | 0 <= i < k < |r| && Waiting(r[i]) && !r[k].kind.External? ensures Waiting(r[k]) {
      assert Waiting(q[i]) && !q[k].kind.External?;
      EligibleMonotone(q, i, k);
    }
  }

  lemma PassKeepsGood(q: Queue, limit: nat)
    requires Good(q, limit)
    ensures Good(Processed(q, limit), limit)
  {
    forall p | 0 <= p < |q| && Running(q[p]) ensures Eligible(q[..p]) < limit {
      RunningSitsWithinLimit(q, limit, p);
    }
    PassKeepsTheLimitExactly(q, limit);
    PassKeepsOrder(q, limit);
  }

  /** Taking one entry out. */
  function Without(q: Queue, i: nat): (r: Queue)
    requires i < |q|
    ensures |r| == |q| - 1
  {
    q[..i] + q[i + 1..]
  }

  lemma {:induction false} RunningSplit(a: Queue, b: Queue)
    ensures RunningCount(a + b) == RunningCount(a) + RunningCount(b)
  {
    if b == [] {
      assert a + b == a;
    } else {
      RunningSplit(a, b[..|b| - 1]);
      assert (a + b)[..|a + b| - 1] == a + b[..|b| - 1];
    }
  }

  lemma RunningAround(q: Queue, i: nat, d: Download)
    requires i < |q|
    ensures RunningCount(q) == RunningCount(Without(q, i)) + if Running(q[i]) then 1 else 0
    ensures RunningCount(q[i := d]) == RunningCount(Without(q, i)) + if Running(d) then 1 else 0
  {
    RunningSplit(q[..i], q[i + 1..]);
    RunningSplit(q[..i], [q[i]] + q[i + 1..]);
    RunningSplit([q[i]], q[i + 1..]);
    RunningSplit(q[..i], [d] + q[i + 1..]);
    RunningSplit([d], q[i + 1..]);
    assert q == q[..i] + ([q[i]] + q[i + 1..]);
    assert q[i := d] == q[..i] + ([d] + q[i + 1..]);
    assert [q[i]][..0] == [] && [d][..0] == [];
  }

  lemma WithoutKeepsGood(q: Queue, limit: nat, i: nat)
    requires Good(q, limit) && i < |q|
    ensures Good(Without(q, i), limit)
  {
    RunningAround(q, i, q[i]);
    var r := Without(q, i);
    assert forall k :: 0 <= k < |r| ==> r[k] == q[if k < i then k else k + 1];
  }

  /** Changing one entry without starting or queueing anything. */
  lemma ChangeKeepsGood(q: Queue, limit: nat, i: nat, d: Download)
    requires Good(q, limit) && i < |q| && d.id == q[i].id && d.kind == q[i].kind
    requires Running(d) ==> Running(q[i])
    requires !d.kind.External? ==> !Waiting(d) && !Waiting(q[i])
    ensures Good(q[i := d], limit)
  {
    RunningAround(q, i, d);
  }

  ghost predicate Newcomers(q: Queue, items: Queue) {
    && DistinctIds(q + items)
    && forall i :: 0 <= i < |items| ==> items[i].kind.External? || (items[i].state.Queued? && !items[i].alive)
  }

  lemma ArrivalKeepsGood(q: Queue, limit: nat, items: Queue)
    requires Good(q, limit) && Newcomers(q, items)
    ensures Good(q + items, limit)
  {
    RunningSplit(q, items);
    NoneRunning(items);
  }

  lemma {:induction false} NoneRunning(q: Queue)
    requires forall i :: 0 <= i < |q| ==> !Running(q[i])
    ensures RunningCount(q) == 0
  {
    if q != [] { NoneRunning(q[..|q| - 1]); }
  }

  // ---------------------------------------------------------------- stopping downloads

  /** A direct download that was queued, or whose thread died, leaves at once; others are only marked. */
  predicate LeavesAtOnce(d: Download) {
    !d.kind.External? && (d.state.Queued? || (d.state.Downloading? && !d.alive))
  }

  function Stopped(q: Queue, i: nat): (r: Queue)
    requires i < |q|
  {
    if LeavesAtOnce(q[i]) then Without(q, i) else q[i := q[i].(state := Canceled)]
  }

  lemma StopKeepsGood(q: Queue, limit: nat, i: nat)
    requires Good(q, limit) && i < |q|
    ensures Good(Stopped(q, i), limit)
  {
    if LeavesAtOnce(q[i]) { WithoutKeepsGood(q, limit, i); }
    else { ChangeKeepsGood(q, limit, i, q[i].(state := Canceled)); }
  }

  /** One turn of the sweep. */
  function SweptAt(q: Queue, exclude: nat, i: nat): Queue
    requires i < |q|
  {
    if q[i].kind.Mega? && q[i].id != exclude then Stopped(q, i) else q
  }

  /** Stop every Mega download but one among the first n, from the back. */
  function MegaSwept(q: Queue, exclude: nat, n: nat): Queue
    requires n <= |q|
    decreases n
  {
    if n == 0 then q else MegaSwept(SweptAt(q, exclude, n - 1), exclude, n - 1)
  }

  lemma TurnKeepsGood(q: Queue, limit: nat, exclude: nat, i: nat)
    requires Good(q, limit) && i < |q|
    ensures Good(SweptAt(q, exclude, i), limit)
  {
    StopKeepsGood(q, limit, i);
  }

  lemma {:induction false} SweepKeepsGood(q: Queue, limit: nat, exclude: nat, n: nat)
    requires Good(q, limit) && n <= |q|
    ensures Good(MegaSwept(q, exclude, n), limit)
    decreases n
  {
    if n > 0 {
      TurnKeepsGood(q, limit, exclude, n - 1);
      SweepKeepsGood(SweptAt(q, exclude, n - 1), limit, exclude, n - 1);
    }
  }

  predicate Handled(d: Download, exclude: nat) {
    d.kind.Mega? && d.id != exclude ==> d.state.Canceled?
  }

  /** The entries the sweep must leave alone, in order. */
  function Spared(q: Queue, exclude: nat): Queue {
    if q == [] then []
    else Spared(q[..|q| - 1], exclude) + if q[|q| - 1].kind.Mega? && q[|q| - 1].id != exclude then [] else [q[|q| - 1]]
  }

  lemma {:induction false} SparedSplit(a: Queue, b: Queue, exclude: nat)
    ensures Spared(a + b, exclude) == Spared(a, exclude) + Spared(b, exclude)
  {
    if b == [] {
      assert a + b == a;
    } else {
      SparedSplit(a, b[..|b| - 1], exclude);
      assert (a + b)[..|a + b| - 1] == a + b[..|b| - 1];
    }
  }

  /** Entries that are swept do not show in what is spared. */
  lemma SparedIgnores(a: Queue, d: Download, b: Queue, exclude: nat)
    requires d.kind.Mega? && d.id != exclude
    ensures Spared(a + [d] + b, exclude) == Spared(a + b, exclude)
  {
    SparedSplit(a + [d], b, exclude);
    SparedSplit(a, [d], exclude);
    SparedSplit(a, b, exclude);
    assert [d][..0] == [];
  }

  lemma StopSpares(q: Queue, exclude: nat, i: nat)
    requires i < |q| && q[i].kind.Mega? && q[i].id != exclude
    ensures Spared(Stopped(q, i), exclude) == Spared(q, exclude)
  {
    var d := q[i].(state := Canceled);
    SparedIgnores(q[..i], q[i], q[i + 1..], exclude);
    SparedIgnores(q[..i], d, q[i + 1..], exclude);
    assert q == q[..i] + [q[i]] + q[i + 1..];
    assert q[i := d] == q[..i] + [d] + q[i + 1..];
  }

  /** After the sweep every other Mega download still listed is cancelled, and the rest is as it was. */
  lemma {:induction false} SweepCancelsMega(q: Queue, exclude: nat, n: nat)
    requires n <= |q| && forall i :: n <= i < |q| ==> Handled(q[i], exclude)
    ensures forall i :: 0 <= i < |MegaSwept(q, exclude, n)| ==> Handled(MegaSwept(q, exclude, n)[i], exclude)
    ensures Spared(MegaSwept(q, exclude, n), exclude) == Spared(q, exclude)
    decreases n
  {
    if n > 0 {
      var last := q[n - 1];
      if last.kind.Mega? && last.id != exclude {
        StopSpares(q, exclude, n - 1);
        SweepCancelsMega(Stopped(q, n - 1), exclude, n - 1);
      } else {
        SweepCancelsMega(q, exclude, n - 1);
      }
    }
  }

  // ---------------------------------------------------------------- moving a download

  function Moved(q: Queue, i: nat, index: nat): (r: Queue)
    requires i < |q| && index < |q|
  {
    Without(q, i)[..index] + [q[i]] + Without(q, i)[index..]
  }

  /** A move is a permutation that lands the download at the index and keeps the others' order. */
  lemma MoveIsPermutation(q: Queue, i: nat, index: nat)
    requires i < |q| && index < |q|
    ensures Moved(q, i, index)[index] == q[i]
    ensures Without(Moved(q, i, index), index) == Without(q, i)
    ensures multiset(Moved(q, i, index)) == multiset(q)
  {
    var rest, r := Without(q, i), Moved(q, i, index);
    assert q == q[..i] + [q[i]] + q[i + 1..];
    assert multiset(q) == multiset(rest) + multiset{q[i]};
    assert rest == rest[..index] + rest[index..];
    assert multiset(r) == multiset(rest) + multiset{q[i]};
    assert Without(r, index) == rest;
  }

  // ---------------------------------------------------------------- whole runs

  /** `started` logs the arrival numbers of direct downloads in the order they were started. */
  datatype Sys = Sys(queue: Queue, started: seq<nat>, arrivals: nat)

  datatype Act =
    RunFails | LimitReached | RunSucceeds | ThreadLeaves | ThreadDies | UserRemoves
    | Polled(state: State) | ExternalLeaves | UserMoves(index: int)
  datatype Event = Arrive(items: Queue) | Pass | ShutsDown | On(id: nat, act: Act)

  function Find(q: Queue, id: nat): (i: nat)
    ensures i <= |q|
    ensures i < |q| ==> q[i].id == id
    ensures forall k :: 0 <= k < i ==> q[k].id != id
  {
    if q == [] || q[0].id == id then 0 else 1 + Find(q[1..], id)
  }

  /** The arrival numbers of what a pass starts, in queue order. */
  function StartLog(q: Queue, limit: nat, n: nat): seq<nat>
    requires n <= |q|
  {
    if n == 0 then [] else StartLog(q, limit, n - 1) + if Starts(q, limit, n - 1) then [q[n - 1].arrival] else []
  }

  function AfterPass(s: Sys, limit: nat): Sys {
    s.(queue := Processed(s.queue, limit), started := s.started + StartLog(s.queue, limit, |s.queue|))
  }

  predicate Alive(d: Download) {
    Running(d) && d.alive
  }

  /** A direct download whose thread may still report how its run ended, also after it was told to stop. */
  predicate Threaded(d: Download) {
    Alive(d) || (!d.kind.External? && (d.state.Canceled? || d.state.ShutDown?))
  }

  predicate Leaving(d: Download) {
    !d.kind.External? && (d.state.Canceled? || d.state.Failed? || d.state.Importing?)
  }

  function SetState(q: Queue, i: nat, state: State): Queue
    requires i < |q|
  {
    q[i := q[i].(state := state)]
  }

  function Numbered(items: Queue, first: nat): (r: Queue)
    ensures |r| == |items|
    ensures forall i :: 0 <= i < |r| ==> r[i] == items[i].(arrival := first + i)
  {
    seq(|items|, i requires 0 <= i < |items| => items[i].(arrival := first + i))
  }

  function ShutAll(q: Queue): (r: Queue)
    ensures |r| == |q| && forall i :: 0 <= i < |q| ==> r[i] == q[i].(state := ShutDown)
  {
    seq(|q|, i requires 0 <= i < |q| => q[i].(state := ShutDown))
  }

  /** What happens to one listed download. */
  function StepOn(s: Sys, limit: nat, i: nat, act: Act): Option<Sys>
    requires i < |s.queue|
  {
    var q, d := s.queue, s.queue[i];
    match act
    case RunFails => if Threaded(d) then Some(s.(queue := SetState(q, i, Failed))) else None
    case LimitReached =>
      if Threaded(d) then
        var failed := SetState(q, i, Failed);
        Some(s.(queue := if d.kind.Mega? then MegaSwept(failed, d.id, |failed|) else failed))
      else None
    case RunSucceeds => if Alive(d) then Some(AfterPass(s.(queue := SetState(q, i, Importing)), limit)) else None
    case ThreadLeaves => if Leaving(d) then Some(AfterPass(s.(queue := Without(q, i)), limit)) else None
    case ThreadDies => if Alive(d) then Some(s.(queue := q[i := d.(alive := false)])) else None
    case UserRemoves => Some(s.(queue := Stopped(q, i)))
    case Polled(state) => if d.kind.External? then Some(s.(queue := SetState(q, i, state))) else None
    case ExternalLeaves => if d.kind.External? then Some(s.(queue := Without(q, i))) else None
    case UserMoves(index) =>
      if d.state.Queued? && 0 <= index < |q| then Some(s.(queue := Moved(q, i, index))) else Some(s)
  }

  ghost function Step(s: Sys, limit: nat, e: Event): Option<Sys> {
    match e
    case Arrive(items) =>
      if Newcomers(s.queue, items)
      then Some(Sys(s.queue + Numbered(items, s.arrivals), s.started, s.arrivals + |items|)) else None
    case Pass => Some(AfterPass(s, limit))
    case ShutsDown => Some(s.(queue := ShutAll(s.queue)))
    case On(id, act) =>
      var i := Find(s.queue, id);
      if i < |s.queue| then StepOn(s, limit, i, act) else None
  }

  ghost function Run(s: Sys, limit: nat, events: seq<Event>): Option<Sys>
    decreases |events|
  {
    if events == [] then Some(s)
    else
      var next := Step(s, limit, events[0]);
      if next.None? then None else Run(next.value, limit, events[1..])
  }

  predicate IsMove(e: Event) {
    e.On? && e.act.UserMoves?
  }

  predicate NoMoves(events: seq<Event>) {
    forall i :: 0 <= i < |events| ==> !IsMove(events[i])
  }

  ghost predicate Ascending(xs: seq<nat>) {
    forall i, k :: 0 <= i < k < |xs| ==> xs[i] < xs[k]
  }

  /** What is still waiting arrived in queue order, and after everything that was started. */
  ghost predicate InArrivalOrder(s: Sys) {
    && Ascending(s.started)
    && (forall i, k :: 0 <= i < k < |s.queue| && Waiting(s.queue[i]) && Waiting(s.queue[k]) ==>
        s.queue[i].arrival < s.queue[k].arrival)
    && (forall i, l :: 0 <= i < |s.queue| && Waiting(s.queue[i]) && 0 <= l < |s.started| ==>
        s.started[l] < s.queue[i].arrival)
    && (forall i :: 0 <= i < |s.queue| && Waiting(s.queue[i]) ==> s.queue[i].arrival < s.arrivals)
    && (forall l :: 0 <= l < |s.started| ==> s.started[l] < s.arrivals)
  }

  ghost predicate Inv(s: Sys, limit: nat) {
    Good(s.queue, limit) && InArrivalOrder(s)
  }

  /** Every logged start is that of a waiting download the pass starts. */
  lemma {:induction false} LoggedStarts(q: Queue, limit: nat, n: nat, l: nat) returns (p: nat)
    requires n <= |q| && l < |StartLog(q, limit, n)|
    ensures p < n && Starts(q, limit, p) && StartLog(q, limit, n)[l] == q[p].arrival
  {
    if l < |StartLog(q, limit, n - 1)| { p := LoggedStarts(q, limit, n - 1, l); } else { p := n - 1; }
  }

  lemma {:induction false} LogAscends(q: Queue, limit: nat, n: nat)
    requires n <= |q|
    requires forall i, k :: 0 <= i < k < |q| && Waiting(q[i]) && Waiting(q[k]) ==> q[i].arrival < q[k].arrival
    ensures Ascending(StartLog(q, limit, n))
  {
    if n > 0 {
      LogAscends(q, limit, n - 1);
      if Starts(q, limit, n - 1) {
        var front := StartLog(q, limit, n - 1);
        forall l | 0 <= l < |front| ensures front[l] < q[n - 1].arrival {
          var p := LoggedStarts(q, limit, n - 1, l);
        }
      }
    }
  }

  /** What a pass starts arrived before everything it leaves waiting, and after all earlier starts. */
  lemma LogBounds(s: Sys, limit: nat, l: nat)
    requires InArrivalOrder(s) && l < |StartLog(s.queue, limit, |s.queue|)|
    ensures StartLog(s.queue, limit, |s.queue|)[l] < s.arrivals
    ensures forall k :: 0 <= k < |s.started| ==> s.started[k] < StartLog(s.queue, limit, |s.queue|)[l]
    ensures forall i :: 0 <= i < |s.queue| && Waiting(s.queue[i]) && !Starts(s.queue, limit, i) ==>
      StartLog(s.queue, limit, |s.queue|)[l] < s.queue[i].arrival
  {
    var q := s.queue;
    var p := LoggedStarts(q, limit, |q|, l);
    forall i | 0 <= i < |q| && Waiting(q[i]) && !Starts(q, limit, i) ensures q[p].arrival < q[i].arrival {
      if i < p { PassIsFirstInFirstOut(q, limit, i, p); }
    }
  }

  lemma AscendingJoin(xs: seq<nat>, ys: seq<nat>)
    requires Ascending(xs) && Ascending(ys)
    requires forall i, k :: 0 <= i < |xs| && 0 <= k < |ys| ==> xs[i] < ys[k]
    ensures Ascending(xs + ys)
  {
  }

  lemma PassKeepsArrivalOrder(s: Sys, limit: nat)
    requires InArrivalOrder(s)
    ensures InArrivalOrder(AfterPass(s, limit))
  {
    var q, log := s.queue, StartLog(s.queue, limit, |s.queue|);
    var after := AfterPass(s, limit);
    LogAscends(q, limit, |q|);
    forall l | 0 <= l < |log|
      ensures log[l] < s.arrivals && forall k :: 0 <= k < |s.started| ==> s.started[k] < log[l]
      ensures forall i :: 0 <= i < |q| && Waiting(q[i]) && !Starts(q, limit, i) ==> log[l] < q[i].arrival
    {
      LogBounds(s, limit, l);
    }
    AscendingJoin(s.started, log);
    assert forall i :: 0 <= i < |q| && Waiting(after.queue[i]) ==> after.queue[i] == q[i] && !Starts(q, limit, i);
  }

  lemma WithoutAt(q: Queue, i: nat, k: nat)
    requires i < |q| && k < |q| - 1
    ensures Without(q, i)[k] == q[if k < i then k else k + 1]
  {
  }

  lemma DropKeepsArrivalOrder(s: Sys, i: nat)
    requires InArrivalOrder(s) && i < |s.queue|
    ensures InArrivalOrder(s.(queue := Without(s.queue, i)))
  {
    var q, r := s.queue, Without(s.queue, i);
    forall k | 0 <= k < |r| ensures r[k] == q[if k < i then k else k + 1] { WithoutAt(q, i, k); }
    forall j, k | 0 <= j < k < |r| && Waiting(r[j]) && Waiting(r[k]) ensures r[j].arrival < r[k].arrival {
      var a, b := if j < i then j else j + 1, if k < i then k else k + 1;
      assert a < b && r[j] == q[a] && r[k] == q[b];
    }
  }

  /** Dropping entries, or changing one so that it does not wait, keeps the arrival order. */
  lemma StopKeepsArrivalOrder(s: Sys, i: nat)
    requires InArrivalOrder(s) && i < |s.queue|
    ensures InArrivalOrder(s.(queue := Without(s.queue, i)))
    ensures InArrivalOrder(s.(queue := Stopped(s.queue, i)))
  {
    DropKeepsArrivalOrder(s, i);
  }

  lemma TurnKeepsArrivalOrder(s: Sys, exclude: nat, i: nat)
    requires InArrivalOrder(s) && i < |s.queue|
    ensures InArrivalOrder(s.(queue := SweptAt(s.queue, exclude, i)))
  {
    StopKeepsArrivalOrder(s, i);
  }

  lemma {:induction false} SweepKeepsArrivalOrder(s: Sys, exclude: nat, n: nat)
    requires InArrivalOrder(s) && n <= |s.queue|
    ensures InArrivalOrder(s.(queue := MegaSwept(s.queue, exclude, n)))
    decreases n
  {
    if n > 0 {
      var next := s.(queue := SweptAt(s.queue, exclude, n - 1));
      TurnKeepsArrivalOrder(s, exclude, n - 1);
      SweepKeepsArrivalOrder(next, exclude, n - 1);
    }
  }

  lemma PassKeeps(s: Sys, limit: nat)
    requires Inv(s, limit)
    ensures Inv(AfterPass(s, limit), limit)
  {
    PassKeepsGood(s.queue, limit);
    PassKeepsArrivalOrder(s, limit);
  }

  lemma WithoutKeeps(s: Sys, limit: nat, i: nat)
    requires Inv(s, limit) && i < |s.queue|
    ensures Inv(s.(queue := Without(s.queue, i)), limit)
    ensures Inv(s.(queue := Stopped(s.queue, i)), limit)
  {
    WithoutKeepsGood(s.queue, limit, i);
    StopKeepsGood(s.queue, limit, i);
    StopKeepsArrivalOrder(s, i);
  }

  lemma ChangeKeeps(s: Sys, limit: nat, i: nat, d: Download)
    requires Inv(s, limit) && i < |s.queue| && d.id == s.queue[i].id && d.kind == s.queue[i].kind
    requires Running(d) ==> Running(s.queue[i])
    requires !d.kind.External? ==> !Waiting(d) && !Waiting(s.queue[i])
    ensures Inv(s.(queue := s.queue[i := d]), limit)
  {
    ChangeKeepsGood(s.queue, limit, i, d);
  }

  lemma ArrivalKeeps(s: Sys, limit: nat, items: Queue)
    requires Inv(s, limit) && Newcomers(s.queue, items)
    ensures Inv(Sys(s.queue + Numbered(items, s.arrivals), s.started, s.arrivals + |items|), limit)
  {
    var more := Numbered(items, s.arrivals);
    forall i, k | 0 <= i < k < |s.queue + more| ensures (s.queue + more)[i].id != (s.queue + more)[k].id {
      assert (s.queue + items)[i].id != (s.queue + items)[k].id;
    }
    ArrivalKeepsGood(s.queue, limit, more);
  }

  lemma ShutdownKeeps(s: Sys, limit: nat)
    requires Inv(s, limit)
    ensures Inv(s.(queue := ShutAll(s.queue)), limit)
  {
    NoneRunning(ShutAll(s.queue));
  }

  lemma StepOnKeeps(s: Sys, limit: nat, i: nat, act: Act)
    requires Inv(s, limit) && i < |s.queue| && !act.UserMoves? && StepOn(s, limit, i, act).Some?
    ensures Inv(StepOn(s, limit, i, act).value, limit)
  {
    var q, d := s.queue, s.queue[i];
    match act
    case RunFails => ChangeKeeps(s, limit, i, d.(state := Failed));
    case LimitReached =>
      ChangeKeeps(s, limit, i, d.(state := Failed));
      var failed := SetState(q, i, Failed);
      SweepKeepsGood(failed, limit, d.id, |failed|);
      SweepKeepsArrivalOrder(s.(queue := failed), d.id, |failed|);
    case RunSucceeds =>
      ChangeKeeps(s, limit, i, d.(state := Importing));
      PassKeeps(s.(queue := SetState(q, i, Importing)), limit);
    case ThreadLeaves =>
      WithoutKeeps(s, limit, i);
      PassKeeps(s.(queue := Without(q, i)), limit);
    case ThreadDies => ChangeKeeps(s, limit, i, d.(alive := false));
    case UserRemoves => WithoutKeeps(s, limit, i);
    case Polled(state) => ChangeKeeps(s, limit, i, d.(state := state));
    case ExternalLeaves => WithoutKeeps(s, limit, i);
  }

  lemma StepKeeps(s: Sys, limit: nat, e: Event)
    requires Inv(s, limit) && !IsMove(e) && Step(s, limit, e).Some?
    ensures Inv(Step(s, limit, e).value, limit)
  {
    match e
    case Arrive(items) => ArrivalKeeps(s, limit, items);
    case Pass => PassKeeps(s, limit);
    case ShutsDown => ShutdownKeeps(s, limit);
    case On(id, act) => StepOnKeeps(s, limit, Find(s.queue, id), act);
  }

  /** The empty queue is fine, and in every run without reordering the running downloads keep to the limit, the started ones precede
      the queued ones, and downloads are started strictly in the order they arrived. */
  lemma {:induction false} EveryRunIsFair(s: Sys, limit: nat, events: seq<Event>)
    requires Inv(s, limit) && NoMoves(events) && Run(s, limit, events).Some?
    ensures Inv(Sys([], [], 0), limit)
    ensures Inv(Run(s, limit, events).value, limit)
    decreases |events|
  {
    if events != [] {
      StepKeeps(s, limit, events[0]);
      EveryRunIsFair(Step(s, limit, events[0]).value, limit, events[1..]);
    }
  }

  /** After a pass in such a run, either exactly `limit` downloads run or none is queued. */
  lemma PassSettles(s: Sys, limit: nat, p: nat)
    requires Inv(s, limit) && p < |s.queue| && Waiting(AfterPass(s, limit).queue[p])
    ensures RunningCount(AfterPass(s, limit).queue) == limit
  {
    PassKeepsGood(s.queue, limit);
    PassFillsTheLimit(s.queue, limit, p);
  }

  lemma MovedAhead(a: Download, b: Download, started: seq<nat>)
    requires Waiting(b) && a.id != b.id
    ensures Step(Sys([a, b], started, 2), 1, On(b.id, UserMoves(0))) == Some(Sys([b, a], started, 2))
  {
    var q := [a, b];
    FindIs(q, b.id, 1);
    assert Without(q, 1) == [a];
    assert Moved(q, 1, 0) == [b, a];
  }

  /** The first of two is started whatever the second is. */
  lemma FirstOfTwoStarts(a: Download, b: Download)
    requires Waiting(a)
    ensures Processed([a, b], 1) == [Begun(a), b]
  {
    assert [a, b][..0] == [] && [a, b][..1] == [a] && [a][..0] == [];
  }

  lemma BothRunning(a: Download, b: Download)
    requires Running(a) && Running(b)
    ensures RunningCount([a, b]) == 2
  {
    var q := [a, b];
    assert q[..0] == [] && q[..2] == q;
    RunningStep(q, 0);
    RunningStep(q, 1);
  }

  /** A pass after the second download was moved ahead of the first, running one starts it as well. */
  lemma PassAfterMove(a: Download, b: Download, s: Sys)
    requires Running(a) && Waiting(b) && a.id != b.id && s.queue == [a, b] && s.arrivals == 2
    ensures var end := Run(s, 1, [On(b.id, UserMoves(0)), Pass]);
      end.Some? && RunningCount(end.value.queue) == 2
  {
    var next := Sys([b, a], s.started, 2);
    MovedAhead(a, b, s.started);
    FirstOfTwoStarts(b, a);
    BothRunning(Begun(b), a);
    RunOn(s, 1, [On(b.id, UserMoves(0)), Pass]);
    RunOn(next, 1, [Pass]);
  }

  /** Two downloads arrive in an empty queue. */
  lemma TwoArrive(a: Download, b: Download)
    requires Waiting(a) && Waiting(b) && a.id != b.id && !a.alive && !b.alive
    ensures Step(Sys([], [], 0), 1, Arrive([a, b])) == Some(Sys([a.(arrival := 0), b.(arrival := 1)], [], 2))
  {
    assert [] + [a, b] == [a, b];
    assert [] + Numbered([a, b], 0) == [a.(arrival := 0), b.(arrival := 1)];
  }

  /** A pass then starts the first of them. */
  lemma ArriveAndStart(a: Download, b: Download) returns (s: Sys)
    requires Waiting(a) && Waiting(b) && a.id != b.id && !a.alive && !b.alive
    ensures Run(Sys([], [], 0), 1, [Arrive([a, b]), Pass]) == Some(s)
    ensures s.queue == [Begun(a.(arrival := 0)), b.(arrival := 1)] && s.arrivals == 2
  {
    var arrived := Sys([a.(arrival := 0), b.(arrival := 1)], [], 2);
    TwoArrive(a, b);
    s := FirstStarts(arrived, a.(arrival := 0), b.(arrival := 1));
    RunTwo(Sys([], [], 0), 1, Arrive([a, b]), arrived, Pass, s);
  }

  lemma FirstStarts(s: Sys, a: Download, b: Download) returns (t: Sys)
    requires s.queue == [a, b] && Waiting(a)
    ensures Step(s, 1, Pass) == Some(t) && t.queue == [Begun(a), b] && t.arrivals == s.arrivals
  {
    FirstOfTwoStarts(a, b);
    t := AfterPass(s, 1);
  }

  lemma RunTwo(s: Sys, limit: nat, a: Event, mid: Sys, b: Event, end: Sys)
    requires Step(s, limit, a) == Some(mid) && Step(mid, limit, b) == Some(end)
    ensures Run(s, limit, [a, b]) == Some(end)
  {
    RunHead(s, limit, [a, b], a, [b], mid);
    RunHead(mid, limit, [b], b, [], end);
  }

  lemma RunHead(s: Sys, limit: nat, events: seq<Event>, e: Event, rest: seq<Event>, next: Sys)
    requires events == [e] + rest && Step(s, limit, e) == Some(next)
    ensures Run(s, limit, events) == Run(next, limit, rest)
  {
    assert events[0] == e && events[1..] == rest;
  }

  lemma {:induction false} RunAppends(s: Sys, limit: nat, events: seq<Event>, more: seq<Event>)
    requires Run(s, limit, events).Some?
    ensures Run(s, limit, events + more) == Run(Run(s, limit, events).value, limit, more)
    decreases |events|
  {
    if events == [] {
      assert events + more == more;
    } else {
      var e, rest := events[0], events[1..];
      var next := Step(s, limit, e).value;
      RunHead(s, limit, events, e, rest, next);
      assert events + more == [e] + (rest + more);
      RunHead(s, limit, events + more, e, rest + more, next);
      RunAppends(next, limit, rest, more);
    }
  }

  /** With one move the limit can be exceeded: two downloads arrive, the first is started, the second is
      moved ahead of it, and the next pass starts it too. */
  lemma MovingBreaksTheLimit(a: Download, b: Download)
    requires Waiting(a) && Waiting(b) && a.id != b.id && !a.alive && !b.alive
    ensures var end := Run(Sys([], [], 0), 1, [Arrive([a, b]), Pass] + [On(b.id, UserMoves(0)), Pass]);
      end.Some? && RunningCount(end.value.queue) == 2
  {
    var s := ArriveAndStart(a, b);
    PassAfterMove(s.queue[0], s.queue[1], s);
    RunAppends(Sys([], [], 0), 1, [Arrive([a, b]), Pass], [On(b.id, UserMoves(0)), Pass]);
  }

  lemma RunOn(s: Sys, limit: nat, events: seq<Event>)
    requires events != [] && Step(s, limit, events[0]).Some?
    ensures Run(s, limit, events) == Run(Step(s, limit, events[0]).value, limit, events[1..])
  {
  }

  // ---------------------------------------------------------------- the queue handler

  datatype Outcome = Returned | Broke | LimitHit

  /** What the queue goes through when the thread of download `d` is told how its run ended. */
  function EndEvents(d: Download, outcome: Outcome): seq<Event> {
    match outcome
    case Broke => [On(d.id, RunFails), On(d.id, ThreadLeaves)]
    case LimitHit => [On(d.id, LimitReached), On(d.id, ThreadLeaves)]
    case Returned =>
      if d.state.ShutDown? then [] else if Running(d) then [On(d.id, RunSucceeds), On(d.id, ThreadLeaves)] else [On(d.id, ThreadLeaves)]
  }

  /** The entry under an id is still there, unchanged. */
  ghost predicate Keeps(q: Queue, r: Queue, id: nat) {
    Find(q, id) < |q| && Find(r, id) < |r| && r[Find(r, id)] == q[Find(q, id)]
  }

  lemma TurnSpares(q: Queue, exclude: nat, i: nat)
    requires i < |q| && Find(q, exclude) < |q|
    ensures Keeps(q, SweptAt(q, exclude, i), exclude)
  {
    if q[i].kind.Mega? && q[i].id != exclude { FindElsewhere(q, exclude, i); }
  }

  lemma KeepsOn(q: Queue, mid: Queue, r: Queue, id: nat)
    requires Keeps(q, mid, id) && Keeps(mid, r, id)
    ensures Keeps(q, r, id)
  {
  }

  lemma {:induction false} SweepSpares(q: Queue, exclude: nat, n: nat)
    requires n <= |q| && Find(q, exclude) < |q|
    ensures Keeps(q, MegaSwept(q, exclude, n), exclude)
    decreases n
  {
    if n > 0 {
      var next := SweptAt(q, exclude, n - 1);
      TurnSpares(q, exclude, n - 1);
      SweepSpares(next, exclude, n - 1);
      KeepsOn(q, next, MegaSwept(next, exclude, n - 1), exclude);
    }
  }

  lemma {:induction false} FindIs(q: Queue, id: nat, i: nat)
    requires i < |q| && q[i].id == id && forall k :: 0 <= k < i ==> q[k].id != id
    ensures Find(q, id) == i
  {
  }

  lemma FindElsewhere(q: Queue, id: nat, i: nat)
    requires i < |q| && q[i].id != id && Find(q, id) < |q|
    ensures var r := Stopped(q, i); Find(r, id) < |r| && r[Find(r, id)] == q[Find(q, id)]
  {
    var f, r := Find(q, id), Stopped(q, i);
    FindIs(r, id, if |r| < |q| && i < f then f - 1 else f);
  }

  /** Two steps in a row. */
  lemma TwoSteps(s: Sys, limit: nat, a: Event, b: Event)
    requires Step(s, limit, a).Some?
    ensures Run(s, limit, [a, b]) == Step(Step(s, limit, a).value, limit, b)
    ensures Run(s, limit, [a]) == Step(s, limit, a)
  {
    RunOn(s, limit, [a, b]);
    RunOn(s, limit, [a]);
    var next := Step(s, limit, a).value;
    assert [a, b][1..] == [b] && [a][1..] == [] && [b][1..] == [];
    if Step(next, limit, b).Some? { RunOn(next, limit, [b]); }
  }

  /** Once the limit is reached, what follows is left as it is. */
  lemma PassStopsEarly(was: Queue, now: Queue, limit: nat, i: nat)
    requires |now| == |was| && i < |was| && Eligible(was[..i + 1]) >= limit
    requires forall p :: 0 <= p <= i ==> now[p] == Processed(was, limit)[p]
    requires forall p :: i < p < |was| ==> now[p] == was[p]
    ensures now == Processed(was, limit)
  {
    forall p | i < p < |was| ensures !Starts(was, limit, p) { EligibleMonotone(was, i + 1, p); }
  }

  ghost predicate Agree(all: Queue, q: Queue, n: nat) {
    n <= |all| && n <= |q| && forall k :: 0 <= k < n ==> q[k] == all[k]
  }

  /** One turn keeps the ids distinct and the entries in front of it. */
  lemma TurnKeepsFront(q: Queue, exclude: nat, n: nat)
    requires DistinctIds(q) && n < |q|
    ensures DistinctIds(SweptAt(q, exclude, n)) && Agree(q, SweptAt(q, exclude, n), n)
  {
    var r := Without(q, n);
    forall k | 0 <= k < |r| ensures r[k] == q[if k < n then k else k + 1] { WithoutAt(q, n, k); }
  }

  /** Where a sweep stands with the first `n` entries of its copy still to visit. */
  ghost predicate Sweeping(all: Queue, q: Queue, exclude: nat, n: nat, goal: Queue) {
    Agree(all, q, n) && DistinctIds(q) && MegaSwept(q, exclude, n) == goal
  }

  /** Sweeping from the back, the entry looked up by id is the one at the same position as in the copy. */
  lemma SweepOn(all: Queue, q: Queue, exclude: nat, n: nat, goal: Queue)
    requires Sweeping(all, q, exclude, n + 1, goal)
    ensures all[n] == q[n] && Find(q, q[n].id) == n
    ensures Sweeping(all, SweptAt(q, exclude, n), exclude, n, goal)
  {
    FindIs(q, q[n].id, n);
    TurnKeepsFront(q, exclude, n);
  }

  // ---------------------------------------------------------------- how a download leaves the queue

  /** What the user's removal makes of the entry at i: a direct download that has not begun, or whose thread died,
      is off the list; any other stays listed, cancelled, until its thread is done. The rest is as it was. */
  ghost predicate RemovedAs(before: Queue, after: Queue, i: nat)
    requires i < |before|
  {
    var d := before[i];
    if d.kind != External && (d.state == Queued || (d.state == Downloading && !d.alive)) then
      |after| + 1 == |before| && forall k :: 0 <= k < |after| ==> after[k] == before[if k < i then k else k + 1]
    else
      |after| == |before| && forall k :: 0 <= k < |after| ==>
        after[k] == if k == i then Download(d.id, d.kind, Canceled, d.alive, d.arrival) else before[k]
  }

  /** The entry is as it was, or was waiting and has been started. */
  predicate Continued(before: Download, after: Download) {
    || after == before
    || (!before.kind.External? && before.state == Queued && after == before.(state := Downloading, alive := true))
  }

  ghost predicate AllContinued(before: Queue, after: Queue) {
    |after| == |before| && forall k :: 0 <= k < |before| ==> Continued(before[k], after[k])
  }

  ghost predicate Gone(q: Queue, id: nat) {
    forall k :: 0 <= k < |q| ==> q[k].id != id
  }

  /** The entry at i has left; all others are still there, in their order. */
  ghost predicate OthersStay(before: Queue, after: Queue, i: nat) {
    && |after| + 1 == |before|
    && forall k :: 0 <= k < |after| ==> Continued(before[if k < i then k else k + 1], after[k])
  }

  /** The entries that are not Mega downloads, in order. */
  function NonMega(q: Queue): Queue {
    if q == [] then []
    else NonMega(q[..|q| - 1]) + if q[|q| - 1].kind.Mega? then [] else [q[|q| - 1]]
  }

  /** What a Mega limit leaves: the download it hit is gone, no Mega download still listed is anything but
      cancelled, and all other downloads are still there, in their order. */
  ghost predicate MegaStopped(before: Queue, after: Queue, id: nat) {
    && Gone(after, id) && AllContinued(NonMega(before), NonMega(after))
    && forall k :: 0 <= k < |after| && after[k].kind.Mega? ==> after[k].state == Canceled
  }

  /** Nothing waits while there is room. */
  ghost predicate Filled(q: Queue, limit: nat) {
    (exists p :: 0 <= p < |q| && Waiting(q[p])) ==> RunningCount(q) >= limit
  }

  /** How the queue stands once the thread of the download has ended: told to shut down and back from its run,
      it stays where it is; otherwise it is off the list. */
  ghost predicate EndedAs(before: Queue, after: Queue, i: nat, outcome: Outcome, limit: nat)
    requires i < |before|
  {
    if before[i].state.ShutDown? && outcome.Returned? then after == before
    else
      && Gone(after, before[i].id) && Filled(after, limit)
      && if before[i].kind.Mega? && outcome.LimitHit? then MegaStopped(before, after, before[i].id)
         else OthersStay(before, after, i)
  }

  lemma NonMegaStep(q: Queue, n: nat)
    requires n < |q|
    ensures NonMega(q[..n + 1]) == NonMega(q[..n]) + if q[n].kind.Mega? then [] else [q[n]]
  {
    assert q[..n + 1][..n] == q[..n];
  }

  lemma {:induction false} NonMegaSplit(a: Queue, b: Queue)
    ensures NonMega(a + b) == NonMega(a) + NonMega(b)
  {
    if b == [] {
      assert a + b == a;
    } else {
      NonMegaSplit(a, b[..|b| - 1]);
      assert (a + b)[..|a + b| - 1] == a + b[..|b| - 1];
    }
  }

  lemma NonMegaIgnores(q: Queue, i: nat, d: Download)
    requires i < |q| && q[i].kind.Mega? && d.kind.Mega?
    ensures NonMega(Without(q, i)) == NonMega(q) && NonMega(q[i := d]) == NonMega(q)
  {
    assert q == (q[..i] + [q[i]]) + q[i + 1..] && q[i := d] == (q[..i] + [d]) + q[i + 1..];
    NonMegaSplit(q[..i] + [q[i]], q[i + 1..]);
    NonMegaSplit(q[..i] + [d], q[i + 1..]);
    NonMegaSplit(q[..i], q[i + 1..]);
    NonMegaStep(q[..i] + [q[i]], i);
    NonMegaStep(q[..i] + [d], i);
    assert (q[..i] + [q[i]])[..i] == q[..i] && (q[..i] + [d])[..i] == q[..i];
    assert (q[..i] + [q[i]])[..i + 1] == q[..i] + [q[i]] && (q[..i] + [d])[..i + 1] == q[..i] + [d];
  }

  lemma TurnSparesNonMega(q: Queue, exclude: nat, i: nat)
    requires i < |q|
    ensures NonMega(SweptAt(q, exclude, i)) == NonMega(q)
  {
    if q[i].kind.Mega? { NonMegaIgnores(q, i, q[i].(state := Canceled)); }
  }

  lemma {:induction false} SweepSparesNonMega(q: Queue, exclude: nat, n: nat)
    requires n <= |q|
    ensures NonMega(MegaSwept(q, exclude, n)) == NonMega(q)
    decreases n
  {
    if n > 0 {
      TurnSparesNonMega(q, exclude, n - 1);
      SweepSparesNonMega(SweptAt(q, exclude, n - 1), exclude, n - 1);
    }
  }

  lemma {:induction false} NonMegaContinued(before: Queue, after: Queue, n: nat)
    requires AllContinued(before, after) && n <= |before|
    ensures AllContinued(NonMega(before[..n]), NonMega(after[..n]))
  {
    if n > 0 {
      NonMegaContinued(before, after, n - 1);
      NonMegaStep(before, n - 1);
      NonMegaStep(after, n - 1);
    }
  }

  /** A pass starts some of what waits, and changes nothing else. */
  lemma PassContinues(q: Queue, limit: nat)
    ensures AllContinued(q, Processed(q, limit)) && Filled(Processed(q, limit), limit)
  {
    if p :| 0 <= p < |q| && Waiting(Processed(q, limit)[p]) { PassFillsTheLimit(q, limit, p); }
  }

  lemma ContinuedOn(a: Queue, b: Queue, c: Queue)
    requires AllContinued(a, b) && AllContinued(b, c)
    ensures AllContinued(a, c)
  {
  }

  /** The arrivals follow what was listed, in their own order and numbered on; some may have been started. */
  ghost predicate AddedLast(before: Sys, items: Queue, after: Sys) {
    AllContinued(before.queue + Numbered(items, before.arrivals), after.queue)
  }

  lemma ArrivalsComeLast(s: Sys, limit: nat, items: Queue, t: Sys)
    requires Newcomers(s.queue, items) && Run(s, limit, [Arrive(items), Pass]) == Some(t)
    ensures AddedLast(s, items, t) && Filled(t.queue, limit)
  {
    var more := Numbered(items, s.arrivals);
    ArrivalThenPass(s, limit, items, more, t);
    PassContinues(s.queue + more, limit);
  }

  lemma ArrivalThenPass(s: Sys, limit: nat, items: Queue, more: Queue, t: Sys)
    requires Newcomers(s.queue, items) && Run(s, limit, [Arrive(items), Pass]) == Some(t)
    requires more == Numbered(items, s.arrivals)
    ensures t.queue == Processed(s.queue + more, limit)
  {
    TwoSteps(s, limit, Arrive(items), Pass);
  }

  /** What the last step of a thread makes of the queue. */
  lemma LeavingStep(s: Sys, limit: nat, id: nat, t: Sys)
    requires DistinctIds(s.queue) && Step(s, limit, On(id, ThreadLeaves)) == Some(t)
    ensures var i := Find(s.queue, id);
      && i < |s.queue| && AllContinued(Without(s.queue, i), t.queue)
      && OthersStay(s.queue, t.queue, i) && Gone(t.queue, id) && Filled(t.queue, limit)
  {
    var i := Find(s.queue, id);
    var rest := Without(s.queue, i);
    PassContinues(rest, limit);
    forall k | 0 <= k < |rest| ensures rest[k] == s.queue[if k < i then k else k + 1] { WithoutAt(s.queue, i, k); }
  }

  /** A started entry leaves like an unstarted one. */
  lemma OthersStillStay(a: Queue, b: Queue, c: Queue, i: nat)
    requires i < |a| == |b| && OthersStay(b, c, i) && forall k :: 0 <= k < |a| && k != i ==> Continued(a[k], b[k])
    ensures OthersStay(a, c, i)
  {
    forall k | 0 <= k < |c| ensures Continued(a[if k < i then k else k + 1], c[k]) {
      var j := if k < i then k else k + 1;
      assert Continued(a[j], b[j]) && Continued(b[j], c[k]);
    }
  }

  lemma PassChangesNoId(q: Queue, limit: nat)
    requires DistinctIds(q)
    ensures DistinctIds(Processed(q, limit)) && forall id :: Find(q, id) < |q| ==> Find(Processed(q, limit), id) == Find(q, id)
  {
    forall id | Find(q, id) < |q| ensures Find(Processed(q, limit), id) == Find(q, id) {
      FindIs(Processed(q, limit), id, Find(q, id));
    }
  }

  lemma {:induction false} SweepKeepsIds(q: Queue, exclude: nat, n: nat)
    requires DistinctIds(q) && n <= |q|
    ensures DistinctIds(MegaSwept(q, exclude, n))
    decreases n
  {
    if n > 0 {
      TurnKeepsFront(q, exclude, n - 1);
      SweepKeepsIds(SweptAt(q, exclude, n - 1), exclude, n - 1);
    }
  }

  /** While a finished download is imported, it no longer counts: the next ones are started meanwhile. */
  lemma NextStartsWhileImporting(s: Sys, limit: nat, id: nat, t: Sys)
    requires Step(s, limit, On(id, RunSucceeds)) == Some(t)
    ensures var i := Find(s.queue, id);
      && i < |s.queue| && |t.queue| == |s.queue| && t.queue[i] == s.queue[i].(state := Importing)
      && (forall k :: 0 <= k < |t.queue| && k != i ==> Continued(s.queue[k], t.queue[k]))
      && Filled(t.queue, limit)
  {
    PassContinues(SetState(s.queue, Find(s.queue, id), Importing), limit);
  }

  /** A shutdown of the program marks every download and takes none off: when a thread then returns, its entry stays. */
  lemma ShutdownKeepsTheQueue(s: Sys, limit: nat, i: nat, t: Sys)
    requires Step(s, limit, ShutsDown) == Some(t) && i < |s.queue|
    ensures |t.queue| == |s.queue| && t.queue[i] == s.queue[i].(state := ShutDown)
    ensures Run(t, limit, EndEvents(t.queue[i], Returned)) == Some(t)
  {
  }

  /** First the state is set, then the thread leaves. */
  lemma SetThenLeaves(s: Sys, limit: nat, id: nat, state: State, t: Sys)
    requires DistinctIds(s.queue) && Find(s.queue, id) < |s.queue|
    requires Step(s.(queue := SetState(s.queue, Find(s.queue, id), state)), limit, On(id, ThreadLeaves)) == Some(t)
    ensures OthersStay(s.queue, t.queue, Find(s.queue, id)) && Gone(t.queue, id) && Filled(t.queue, limit)
  {
    var i := Find(s.queue, id);
    var mid := s.(queue := SetState(s.queue, i, state));
    FindIs(mid.queue, id, i);
    LeavingStep(mid, limit, id, t);
    OthersStillStay(s.queue, mid.queue, t.queue, i);
  }

  lemma ImportsThenLeaves(s: Sys, limit: nat, id: nat, mid: Sys, t: Sys)
    requires DistinctIds(s.queue) && Find(s.queue, id) < |s.queue|
    requires mid == AfterPass(s.(queue := SetState(s.queue, Find(s.queue, id), Importing)), limit)
    requires Step(mid, limit, On(id, ThreadLeaves)) == Some(t)
    ensures OthersStay(s.queue, t.queue, Find(s.queue, id)) && Gone(t.queue, id) && Filled(t.queue, limit)
  {
    var i := Find(s.queue, id);
    var marked := SetState(s.queue, i, Importing);
    FindIs(marked, id, i);
    PassChangesNoId(marked, limit);
    PassContinues(marked, limit);
    LeavingStep(mid, limit, id, t);
    OthersStillStay(s.queue, mid.queue, t.queue, i);
  }

  lemma MegaFailsThenLeaves(s: Sys, limit: nat, id: nat, mid: Sys, t: Sys)
    requires DistinctIds(s.queue) && Find(s.queue, id) < |s.queue| && s.queue[Find(s.queue, id)].kind.Mega?
    requires var failed := SetState(s.queue, Find(s.queue, id), Failed);
      mid == s.(queue := MegaSwept(failed, id, |failed|))
    requires Step(mid, limit, On(id, ThreadLeaves)) == Some(t)
    ensures MegaStopped(s.queue, t.queue, id) && Filled(t.queue, limit)
  {
    var i := Find(s.queue, id);
    var failed := SetState(s.queue, i, Failed);
    NonMegaIgnores(s.queue, i, s.queue[i].(state := Failed));
    SweepSparesNonMega(failed, id, |failed|);
    SweepCancelsMega(failed, id, |failed|);
    SweepKeepsIds(failed, id, |failed|);
    FindIs(failed, id, i);
    SweepSpares(failed, id, |failed|);
    LeavingStep(mid, limit, id, t);
    MegaLeft(mid.queue, Find(mid.queue, id), t.queue);
    assert AllContinued(NonMega(s.queue), NonMega(t.queue));
    MegaAreCancelled(mid.queue, Find(mid.queue, id), t.queue);
  }

  lemma MegaAreCancelled(q: Queue, i: nat, after: Queue)
    requires DistinctIds(q) && i < |q| && OthersStay(q, after, i)
    requires forall k :: 0 <= k < |q| ==> Handled(q[k], q[i].id)
    ensures forall k :: 0 <= k < |after| && after[k].kind.Mega? ==> after[k].state == Canceled
  {
    forall k | 0 <= k < |after| && after[k].kind.Mega? ensures after[k].state == Canceled {
      var j := if k < i then k else k + 1;
      assert Continued(q[j], after[k]) && Handled(q[j], q[i].id);
    }
  }

  lemma MegaLeft(q: Queue, i: nat, after: Queue)
    requires i < |q| && q[i].kind.Mega? && AllContinued(Without(q, i), after)
    ensures AllContinued(NonMega(q), NonMega(after))
  {
    NonMegaIgnores(q, i, q[i]);
    var rest := Without(q, i);
    NonMegaContinued(rest, after, |rest|);
    assert rest[..|rest|] == rest && after[..|rest|] == after;
  }

  /** However the thread of a download ends, unless it was told to shut down its entry leaves the queue, every
      other one stays in its place (save that a Mega limit stops the other Mega downloads), and the queue is filled up. */
  lemma ThreadEndsLeaveTheQueue(s: Sys, limit: nat, id: nat, outcome: Outcome, t: Sys)
    requires DistinctIds(s.queue) && Find(s.queue, id) < |s.queue| && Threaded(s.queue[Find(s.queue, id)])
    requires Run(s, limit, EndEvents(s.queue[Find(s.queue, id)], outcome)) == Some(t)
    ensures EndedAs(s.queue, t.queue, Find(s.queue, id), outcome, limit)
  {
    var i := Find(s.queue, id);
    var d := s.queue[i];
    var events := EndEvents(d, outcome);
    if |events| == 2 {
      var mid := Step(s, limit, events[0]);
      RunOn(s, limit, events);
      assert events == [events[0], events[1]];
      TwoSteps(s, limit, events[0], events[1]);
      if outcome.Returned? {
        ImportsThenLeaves(s, limit, id, mid.value, t);
      } else if outcome.LimitHit? && d.kind.Mega? {
        MegaFailsThenLeaves(s, limit, id, mid.value, t);
      } else {
        SetThenLeaves(s, limit, id, Failed, t);
      }
    } else if |events| == 1 {
      assert events == [events[0]];
      RunOn(s, limit, events);
      assert events[1..] == [];
      LeavingStep(s, limit, id, t);
    }
  }

  class QueueHandler {
    var queue: Queue
    const limit: nat
    ghost var started: seq<nat>
    var arrivals: nat

    ghost function Now(): Sys
      reads this
    {
      Sys(queue, started, arrivals)
    }

    constructor (limit: nat)
      ensures this.limit == limit && Now() == Sys([], [], 0)
    {
      this.limit := limit;
      queue, started, arrivals := [], [], 0;
    }

    method ProcessQueue()
      modifies this
      ensures Now() == AfterPass(old(Now()), limit)
    {
      ghost var was := queue;
      started := started + StartLog(was, limit, |was|);
      var active := 0;
      for i := 0 to |queue|
        modifies `queue
        invariant |queue| == |was| && active == Eligible(was[..i])
        invariant forall p :: 0 <= p < i ==> queue[p] == Processed(was, limit)[p]
        invariant forall p :: i <= p < |was| ==> queue[p] == was[p]
        invariant active < limit || active == 0
      {
        EligibleStep(was, i);
        if !queue[i].kind.External? {
          if queue[i].state.Downloading? {
            active := active + 1;
          } else if queue[i].state.Queued? && active < limit {
            queue := queue[i := Begun(queue[i])];
            active := active + 1;
          }
          if active >= limit {
            PassStopsEarly(was, queue, limit, i);
            return;
          }
        }
      }
      assert queue == Processed(was, limit);
    }

    method GetOne(id: nat) returns (i: nat)
      ensures i == Find(queue, id)
    {
      i := 0;
      while i < |queue| && queue[i].id != id
        invariant i <= |queue| && forall k :: 0 <= k < i ==> queue[k].id != id
      {
        i := i + 1;
      }
      if i < |queue| { FindIs(queue, id, i); }
    }

    method SetQueueLocation(id: nat, index: int) returns (error: Option<QueueError>)
      modifies `queue
      ensures var i := Find(old(queue), id);
        if i == |old(queue)| then error == Some(DownloadNotFound) && queue == old(queue)
        else if !old(queue)[i].state.Queued? then error == Some(DownloadUnmovable) && queue == old(queue)
        else if index < 0 || index >= |old(queue)| then error == Some(IndexOutOfBounds) && queue == old(queue)
        else error == None && queue == Moved(old(queue), i, index)
    {
      var i := GetOne(id);
      if i == |queue| { return Some(DownloadNotFound); }
      if !queue[i].state.Queued? { return Some(DownloadUnmovable); }
      if index < 0 || index >= |queue| { return Some(IndexOutOfBounds); }
      var download := queue[i];
      queue := queue[..i] + queue[i + 1..];
      queue := queue[..index] + [download] + queue[index..];
      return None;
    }

    method Add(items: Queue)
      requires Newcomers(queue, items)
      modifies this
      ensures Run(old(Now()), limit, [Arrive(items), Pass]) == Some(Now())
      ensures AddedLast(old(Now()), items, Now()) && Filled(queue, limit)
    {
      queue := queue + Numbered(items, arrivals);
      arrivals := arrivals + |items|;
      ProcessQueue();
      TwoSteps(old(Now()), limit, Arrive(items), Pass);
      ArrivalsComeLast(old(Now()), limit, items, Now());
    }

    method Remove(id: nat) returns (error: Option<QueueError>)
      modifies `queue
      ensures var i := Find(old(queue), id);
        if i == |old(queue)| then error == Some(DownloadNotFound) && queue == old(queue)
        else error == None && queue == Stopped(old(queue), i)
      ensures var i := Find(old(queue), id);
        i < |old(queue)| ==> RemovedAs(old(queue), queue, i)
    {
      var i := GetOne(id);
      if i == |queue| { return Some(DownloadNotFound); }
      var previous, wasAlive := queue[i].state, queue[i].alive;
      queue := queue[i := queue[i].(state := Canceled)];
      if !queue[i].kind.External? && (previous.Queued? || (previous.Downloading? && !wasAlive)) {
        queue := queue[..i] + queue[i + 1..];
      }
      return None;
    }

    method RemoveMega(exclude: nat)
      requires DistinctIds(queue)
      modifies `queue
      ensures queue == MegaSwept(old(queue), exclude, |old(queue)|)
    {
      ghost var goal := MegaSwept(queue, exclude, |queue|);
      var all, n: nat := queue, |queue|;
      while n > 0
        invariant n <= |all| && Sweeping(all, queue, exclude, n, goal)
      {
        n := n - 1;
        SweepOn(all, queue, exclude, n, goal);
        if all[n].kind.Mega? && all[n].id != exclude {
          var error := Remove(all[n].id);
        }
      }
    }

    /** The rest of a direct download's thread, from the moment its run has ended. */
    method RunEnds(id: nat, outcome: Outcome)
      requires DistinctIds(queue) && Find(queue, id) < |queue|
      requires Threaded(queue[Find(queue, id)])
      modifies this
      ensures var d := old(queue)[Find(old(queue), id)];
        Run(old(Now()), limit, EndEvents(d, outcome)) == Some(Now())
      ensures EndedAs(old(queue), queue, Find(old(queue), id), outcome, limit)
    {
      ghost var was := Now();
      EndThread(id, outcome);
      ThreadEndsLeaveTheQueue(was, limit, id, outcome, Now());
    }

    /** The statements of that, branch by branch. */
    method EndThread(id: nat, outcome: Outcome)
      requires DistinctIds(queue) && Find(queue, id) < |queue|
      requires Threaded(queue[Find(queue, id)])
      modifies this
      ensures var d := old(queue)[Find(old(queue), id)];
        Run(old(Now()), limit, EndEvents(d, outcome)) == Some(Now())
    {
      ghost var was := Now();
      ghost var d := queue[Find(queue, id)];
      if outcome.Broke? || outcome.LimitHit? {
        Fail(id, outcome.LimitHit?);
        Leave(id);
        TwoSteps(was, limit, EndEvents(d, outcome)[0], On(id, ThreadLeaves));
        return;
      }
      var i := GetOne(id);
      if queue[i].state.ShutDown? { return; }
      if queue[i].state.Downloading? {
        queue := queue[i := queue[i].(state := Importing)];
        ProcessQueue();
        ghost var mid := Now();
        FindIs(mid.queue, id, i);
        Leave(id);
        TwoSteps(was, limit, On(id, RunSucceeds), On(id, ThreadLeaves));
      } else {
        Leave(id);
        TwoSteps(was, limit, On(id, ThreadLeaves), Pass);
      }
    }

    /** The download is marked failed; at a Mega limit the other Mega downloads are stopped as well. */
    method Fail(id: nat, limitHit: bool)
      requires DistinctIds(queue) && Find(queue, id) < |queue| && Threaded(queue[Find(queue, id)])
      modifies this
      ensures Step(old(Now()), limit, if limitHit then On(id, LimitReached) else On(id, RunFails)) == Some(Now())
      ensures Find(queue, id) < |queue| && queue[Find(queue, id)].state.Failed? && !queue[Find(queue, id)].kind.External?
    {
      var i := GetOne(id);
      var mega := queue[i].kind.Mega?;
      queue := queue[i := queue[i].(state := Failed)];
      FindIs(queue, id, i);
      if limitHit && mega {
        SweepSpares(queue, id, |queue|);
        RemoveMega(id);
      }
    }

    method Leave(id: nat)
      requires Find(queue, id) < |queue| && Leaving(queue[Find(queue, id)])
      modifies this
      ensures Step(old(Now()), limit, On(id, ThreadLeaves)) == Some(Now())
    {
      var i := GetOne(id);
      queue := queue[..i] + queue[i + 1..];
      ProcessQueue();
    }
  }
}
