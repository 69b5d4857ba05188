/** Polling an external (torrent or Usenet) client until its download reaches an end. The client is an
    arbitrary list of answers; stops requested from outside may land before or after any answer. */
module ExternalPolling {
  import opened Basics

  datatype State = Queued | Paused | Downloading | Seeding | Importing | Failed | Canceled | ShutDown

  /** `Nothing`: no id yet, or an empty status. `Gone`: the client no longer knows the download. */
  datatype Answer = Status(state: State) | Nothing | Gone | Error
  datatype Stop = Cancel | ShutdownRequest
  datatype Poll = Poll(before: Option<Stop>, answer: Answer, after: Option<Stop>)

  datatype Effect =
    Slept | SeedingProcessed | RemovedFromClient(deleteFiles: bool)
    | PostCanceled | PostFailed | PostSuccess | LeftQueue

  datatype Loop = Loop(state: State, failures: nat, copied: bool)
  datatype Outcome =
    | StillPolling(loop: Loop, log: seq<Effect>)
    | Done(state: State, log: seq<Effect>, gaveUp: bool, polls: nat)

  const STATUS_FAILURE_LIMIT: nat := 60

  function Apply(state: State, stop: Option<Stop>): State {
    match stop
    case None => state
    case Some(Cancel) => Canceled
    case Some(ShutdownRequest) => ShutDown
  }

  /** `update_status`: a stop is not overridden by a status, but a vanished download cancels regardless. */
  function Updated(state: State, answer: Answer): State {
    match answer
    case Status(s) => if state.Canceled? || state.ShutDown? then state else s
    case Nothing => state
    case Gone => Canceled
    case Error => state
  }

  predicate Final(state: State) {
    state.Canceled? || state.Failed? || state.ShutDown? || state.Importing?
  }

  function Ending(state: State, deleteCompleted: bool): seq<Effect>
    requires Final(state)
  {
    match state
    case Canceled => [RemovedFromClient(true), PostCanceled, LeftQueue]
    case Failed => [RemovedFromClient(true), PostFailed, LeftQueue]
    case ShutDown => []
    case Importing => (if deleteCompleted then [RemovedFromClient(false)] else []) + [PostSuccess, LeftQueue]
  }

  /** Does this poll exhaust the patience with a failing client? */
  predicate GivesUp(l: Loop, poll: Poll) {
    poll.answer.Error? && l.failures + 1 >= STATUS_FAILURE_LIMIT
  }

  /** A failed status below the limit is retried without looking at the state. */
  predicate Retries(l: Loop, poll: Poll) {
    poll.answer.Error? && l.failures + 1 < STATUS_FAILURE_LIMIT
  }

  /** The state a turn that does not retry acts on. */
  function Seen(l: Loop, poll: Poll): State {
    Apply(if GivesUp(l, poll) then Failed else Updated(Apply(l.state, poll.before), poll.answer), poll.after)
  }

  function Next(l: Loop, poll: Poll): Loop {
    if Retries(l, poll) then Loop(Apply(Apply(l.state, poll.before), poll.after), l.failures + 1, l.copied)
    else Loop(Seen(l, poll), 0, l.copied || Seen(l, poll).Seeding?)
  }

  predicate Exits(l: Loop, poll: Poll) {
    !Retries(l, poll) && Final(Seen(l, poll))
  }

  function Effects(l: Loop, poll: Poll, deleteCompleted: bool): seq<Effect> {
    if Retries(l, poll) then [Slept]
    else if Final(Seen(l, poll)) then Ending(Seen(l, poll), deleteCompleted)
    else if Seen(l, poll).Seeding? && !l.copied then [SeedingProcessed]
    else [Slept]
  }

  function Polling(script: seq<Poll>, l: Loop, deleteCompleted: bool): Outcome {
    if script == [] then StillPolling(l, [])
    else if Exits(l, script[0]) then
      Done(Seen(l, script[0]), Effects(l, script[0], deleteCompleted), GivesUp(l, script[0]), 1)
    else
      match Polling(script[1..], Next(l, script[0]), deleteCompleted)
      case StillPolling(end, log) => StillPolling(end, Effects(l, script[0], deleteCompleted) + log)
      case Done(state, log, gaveUp, polls) => Done(state, Effects(l, script[0], deleteCompleted) + log, gaveUp, polls + 1)
  }

  /** An outcome with what happened before it put in front. */
  function After(log: seq<Effect>, polls: nat, o: Outcome): Outcome {
    match o
    case StillPolling(end, more) => StillPolling(end, log + more)
    case Done(state, more, gaveUp, n) => Done(state, log + more, gaveUp, polls + n)
  }

  /** The polling loop of the download's thread. It stops at the end of the script because what the
      client answers after that is not known. */
  method RunExternalDownload(script: seq<Poll>, initial: State, deleteCompleted: bool) returns (outcome: Outcome)
    ensures outcome == Polling(script, Loop(initial, 0, false), deleteCompleted)
  {
    var state, failures: nat, filesCopied, log: seq<Effect> := initial, 0, false, [];
    var n := 0;
    while n < |script|
      invariant n <= |script| && failures < STATUS_FAILURE_LIMIT
      invariant After(log, n, Polling(script[n..], Loop(state, failures, filesCopied), deleteCompleted))
        == Polling(script, Loop(initial, 0, false), deleteCompleted)
    {
      var poll := script[n];
      ghost var l := Loop(state, failures, filesCopied);
      TurnTaken(script, n, log, l, deleteCompleted);
      n := n + 1;
      state := Apply(state, poll.before);
      if poll.answer.Error? {
        failures := failures + 1;
        if failures < STATUS_FAILURE_LIMIT {
          state := Apply(state, poll.after);
          log := log + [Slept];
          continue;
        }
        state := Failed;
      } else {
        state := Updated(state, poll.answer);
        failures := 0;
      }
      state := Apply(state, poll.after);
      assert state == Seen(l, poll);
      var effects, exits := Dispatch(state, filesCopied, deleteCompleted);
      log := log + effects;
      if exits { return Done(state, log, poll.answer.Error?, n); }
      if state.Seeding? { filesCopied := true; }
    }
    return StillPolling(Loop(state, failures, filesCopied), log);
  }

  /** The if-chain on the download's state. */
  method Dispatch(state: State, filesCopied: bool, deleteCompleted: bool) returns (effects: seq<Effect>, exits: bool)
    ensures exits <==> Final(state)
    ensures effects ==
      if Final(state) then Ending(state, deleteCompleted)
      else if state.Seeding? && !filesCopied then [SeedingProcessed] else [Slept]
  {
    if state.Canceled? {
      return [RemovedFromClient(true), PostCanceled, LeftQueue], true;
    } else if state.Failed? {
      return [RemovedFromClient(true), PostFailed, LeftQueue], true;
    } else if state.ShutDown? {
      return [], true;
    } else if state.Seeding? && !filesCopied {
      return [SeedingProcessed], false;
    } else if state.Importing? {
      effects := if deleteCompleted then [RemovedFromClient(false)] else [];
      return effects + [PostSuccess, LeftQueue], true;
    } else {
      return [Slept], false;
    }
  }

  /** One turn, seen from the whole loop. */
  lemma TurnTaken(script: seq<Poll>, n: nat, log: seq<Effect>, l: Loop, deleteCompleted: bool)
    requires n < |script| && l.failures < STATUS_FAILURE_LIMIT
    ensures var poll := script[n];
      After(log, n, Polling(script[n..], l, deleteCompleted)) ==
      if Exits(l, poll) then Done(Seen(l, poll), log + Effects(l, poll, deleteCompleted), GivesUp(l, poll), n + 1)
      else After(log + Effects(l, poll, deleteCompleted), n + 1, Polling(script[n + 1..], Next(l, poll), deleteCompleted))
  {
    Unfold(script[n..], l, deleteCompleted);
    assert script[n..][1..] == script[n + 1..] && script[n..][0] == script[n];
    var rest := Polling(script[n + 1..], Next(l, script[n]), deleteCompleted);
    assert (log + Effects(l, script[n], deleteCompleted)) + rest.log == log + (Effects(l, script[n], deleteCompleted) + rest.log);
  }

  lemma Unfold(script: seq<Poll>, l: Loop, deleteCompleted: bool)
    requires script != [] && l.failures < STATUS_FAILURE_LIMIT
    ensures Polling(script, l, deleteCompleted) ==
      if Exits(l, script[0]) then
        Done(Seen(l, script[0]), Effects(l, script[0], deleteCompleted), GivesUp(l, script[0]), 1)
      else After(Effects(l, script[0], deleteCompleted), 1, Polling(script[1..], Next(l, script[0]), deleteCompleted))
    ensures Next(l, script[0]).failures < STATUS_FAILURE_LIMIT
  {
  }

  // ---------------------------------------------------------------- what the loop does

  function Count(log: seq<Effect>, e: Effect): nat {
    if log == [] then 0 else Count(log[..|log| - 1], e) + if log[|log| - 1] == e then 1 else 0
  }

  lemma {:induction false} CountSplit(a: seq<Effect>, b: seq<Effect>, e: Effect)
    ensures Count(a + b, e) == Count(a, e) + Count(b, e)
  {
    if b == [] {
      assert a + b == a;
    } else {
      CountSplit(a, b[..|b| - 1], e);
      assert (a + b)[..|a + b| - 1] == a + b[..|b| - 1];
    }
  }

  /** How often each effect occurs in one turn. */
  function PerTurn(l: Loop, poll: Poll, deleteCompleted: bool, e: Effect): nat {
    var seen, exits := Seen(l, poll), Exits(l, poll);
    match e
    case Slept => if exits || (!Retries(l, poll) && seen.Seeding? && !l.copied) then 0 else 1
    case SeedingProcessed => if !Retries(l, poll) && seen.Seeding? && !l.copied then 1 else 0
    case RemovedFromClient(deleteFiles) =>
      if exits && (if deleteFiles then seen.Canceled? || seen.Failed? else seen.Importing? && deleteCompleted) then 1 else 0
    case PostCanceled => if exits && seen.Canceled? then 1 else 0
    case PostFailed => if exits && seen.Failed? then 1 else 0
    case PostSuccess => if exits && seen.Importing? then 1 else 0
    case LeftQueue => if exits && !seen.ShutDown? then 1 else 0
  }

  lemma CountOne(x: Effect, e: Effect)
    ensures Count([x], e) == if x == e then 1 else 0
  {
    assert [x][..0] == [];
  }

  lemma CountTwo(x: Effect, y: Effect, e: Effect)
    ensures Count([x, y], e) == (if x == e then 1 else 0) + if y == e then 1 else 0
  {
    CountOne(x, e);
    assert [x, y][..1] == [x];
  }

  lemma CountThree(x: Effect, y: Effect, z: Effect, e: Effect)
    ensures Count([x, y, z], e) == (if x == e then 1 else 0) + (if y == e then 1 else 0) + if z == e then 1 else 0
  {
    CountTwo(x, y, e);
    assert [x, y, z][..2] == [x, y];
  }

  lemma EndingCounts(state: State, deleteCompleted: bool, e: Effect)
    requires Final(state)
    ensures Count(Ending(state, deleteCompleted), e) ==
      match e
      case RemovedFromClient(true) => if state.Canceled? || state.Failed? then 1 else 0
      case RemovedFromClient(false) => if state.Importing? && deleteCompleted then 1 else 0
      case PostCanceled => if state.Canceled? then 1 else 0
      case PostFailed => if state.Failed? then 1 else 0
      case PostSuccess => if state.Importing? then 1 else 0
      case LeftQueue => if state.ShutDown? then 0 else 1
      case _ => 0
  {
    match state
    case Canceled => CountThree(RemovedFromClient(true), PostCanceled, LeftQueue, e);
    case Failed => CountThree(RemovedFromClient(true), PostFailed, LeftQueue, e);
    case ShutDown =>
    case Importing =>
      if deleteCompleted {
        CountThree(RemovedFromClient(false), PostSuccess, LeftQueue, e);
        assert Ending(state, true) == [RemovedFromClient(false), PostSuccess, LeftQueue];
      } else {
        CountTwo(PostSuccess, LeftQueue, e);
        assert Ending(state, false) == [PostSuccess, LeftQueue];
      }
  }

  lemma TurnCounts(l: Loop, poll: Poll, deleteCompleted: bool, e: Effect)
    ensures Count(Effects(l, poll, deleteCompleted), e) == PerTurn(l, poll, deleteCompleted, e)
  {
    if Exits(l, poll) {
      EndingCounts(Seen(l, poll), deleteCompleted, e);
    } else {
      CountOne(Effects(l, poll, deleteCompleted)[0], e);
    }
  }

  lemma LogCounts(script: seq<Poll>, l: Loop, deleteCompleted: bool, e: Effect)
    requires script != [] && l.failures < STATUS_FAILURE_LIMIT
    ensures Count(Polling(script, l, deleteCompleted).log, e) == PerTurn(l, script[0], deleteCompleted, e)
      + if Exits(l, script[0]) then 0 else Count(Polling(script[1..], Next(l, script[0]), deleteCompleted).log, e)
  {
    TurnCounts(l, script[0], deleteCompleted, e);
    CountSplit(Effects(l, script[0], deleteCompleted), Polling(script[1..], Next(l, script[0]), deleteCompleted).log, e);
  }

  /** What became of the download on the way out. */
  function Endings(log: seq<Effect>): nat {
    Count(log, PostCanceled) + Count(log, PostFailed) + Count(log, PostSuccess)
  }

  /** Whatever the client answers, seeding is processed at most once. */
  lemma {:induction false} SeedingOnce(script: seq<Poll>, l: Loop, deleteCompleted: bool)
    requires l.failures < STATUS_FAILURE_LIMIT
    ensures Count(Polling(script, l, deleteCompleted).log, SeedingProcessed) <= if l.copied then 0 else 1
  {
    if script != [] {
      LogCounts(script, l, deleteCompleted, SeedingProcessed);
      Unfold(script, l, deleteCompleted);
      if !Exits(l, script[0]) { SeedingOnce(script[1..], Next(l, script[0]), deleteCompleted); }
    }
  }

  /** The final step a state calls for; none for a shutdown. */
  function Closing(state: State): seq<Effect> {
    match state
    case Canceled => [PostCanceled, LeftQueue]
    case Failed => [PostFailed, LeftQueue]
    case Importing => [PostSuccess, LeftQueue]
    case _ => []
  }

  predicate IsSuffix(tail: seq<Effect>, log: seq<Effect>) {
    |tail| <= |log| && log[|log| - |tail|..] == tail
  }

  /** When the loop exits for any reason but a shutdown, exactly one final step was taken, the one the state
      calls for, and the download left the queue once, last of all; otherwise none of these. */
  lemma {:induction false} OneEnding(script: seq<Poll>, l: Loop, deleteCompleted: bool)
    requires l.failures < STATUS_FAILURE_LIMIT
    ensures var o := Polling(script, l, deleteCompleted);
      var over := o.Done? && !o.state.ShutDown?;
      && Endings(o.log) == (if over then 1 else 0)
      && Count(o.log, LeftQueue) == (if over then 1 else 0)
  {
    if script != [] {
      LogCounts(script, l, deleteCompleted, PostCanceled);
      LogCounts(script, l, deleteCompleted, PostFailed);
      LogCounts(script, l, deleteCompleted, PostSuccess);
      LogCounts(script, l, deleteCompleted, LeftQueue);
      Unfold(script, l, deleteCompleted);
      if !Exits(l, script[0]) { OneEnding(script[1..], Next(l, script[0]), deleteCompleted); }
    }
  }

  lemma {:induction false} EndsAsItsStateSays(script: seq<Poll>, l: Loop, deleteCompleted: bool)
    requires l.failures < STATUS_FAILURE_LIMIT && Polling(script, l, deleteCompleted).Done?
    ensures var o := Polling(script, l, deleteCompleted);
      Final(o.state) && IsSuffix(Closing(o.state), o.log)
  {
    Unfold(script, l, deleteCompleted);
    if !Exits(l, script[0]) {
      EndsAsItsStateSays(script[1..], Next(l, script[0]), deleteCompleted);
      SuffixOfMore(Closing(Polling(script, l, deleteCompleted).state), Effects(l, script[0], deleteCompleted),
        Polling(script[1..], Next(l, script[0]), deleteCompleted).log);
    }
  }

  lemma SuffixOfMore(tail: seq<Effect>, before: seq<Effect>, log: seq<Effect>)
    requires IsSuffix(tail, log)
    ensures IsSuffix(tail, before + log)
  {
    assert (before + log)[|before + log| - |tail|..] == log[|log| - |tail|..];
  }

  /** The files a client holds are deleted exactly when the download was cancelled or failed; a completed
      download is cleared from the client exactly when the setting says so. */
  lemma {:induction false} ClientCleanup(script: seq<Poll>, l: Loop, deleteCompleted: bool)
    requires l.failures < STATUS_FAILURE_LIMIT
    ensures var o := Polling(script, l, deleteCompleted);
      && Count(o.log, RemovedFromClient(true)) == (if o.Done? && (o.state.Canceled? || o.state.Failed?) then 1 else 0)
      && Count(o.log, RemovedFromClient(false)) == (if o.Done? && o.state.Importing? && deleteCompleted then 1 else 0)
  {
    if script != [] {
      LogCounts(script, l, deleteCompleted, RemovedFromClient(true));
      LogCounts(script, l, deleteCompleted, RemovedFromClient(false));
      Unfold(script, l, deleteCompleted);
      if !Exits(l, script[0]) { ClientCleanup(script[1..], Next(l, script[0]), deleteCompleted); }
    }
  }

  /** How many polls in a row have failed at the end of the first n, counting `before` from earlier. */
  function FailuresInARow(script: seq<Poll>, before: nat, n: nat): nat
    requires n <= |script|
  {
    if n == 0 then before
    else if script[n - 1].answer.Error? then FailuresInARow(script, before, n - 1) + 1 else 0
  }

  lemma {:induction false} FailuresShift(script: seq<Poll>, before: nat, n: nat)
    requires 1 <= n <= |script|
    ensures FailuresInARow(script, before, n)
            == FailuresInARow(script[1..], if script[0].answer.Error? then before + 1 else 0, n - 1)
  {
    if n > 1 { FailuresShift(script, before, n - 1); }
  }

  /** The loop gives up on the client exactly at the limit of consecutive failures: it was never reached
      before the last poll, and at the last poll it was reached exactly when the loop gave up. */
  lemma {:induction false} GivesUpExactlyAtTheLimit(script: seq<Poll>, l: Loop, deleteCompleted: bool, n: nat)
    requires l.failures < STATUS_FAILURE_LIMIT && n <= |script|
    ensures var o := Polling(script, l, deleteCompleted);
      && (o.StillPolling? || n < o.polls ==> FailuresInARow(script, l.failures, n) < 60)
      && (o.Done? && n == o.polls ==> (o.gaveUp <==> FailuresInARow(script, l.failures, n) == 60))
    decreases |script|
  {
    if script != [] && n > 0 {
      Unfold(script, l, deleteCompleted);
      FailuresShift(script, l.failures, n);
      if !Exits(l, script[0]) {
        GivesUpExactlyAtTheLimit(script[1..], Next(l, script[0]), deleteCompleted, n - 1);
      }
    }
  }

  // ---------------------------------------------------------------- shutting down during an outage

  predicate NoStops(script: seq<Poll>) {
    forall i :: 0 <= i < |script| ==> script[i].before.None? && script[i].after.None?
  }

  /** The position of the first answer that is not an error. */
  function FirstAnswer(script: seq<Poll>): (n: nat)
    ensures n <= |script|
  {
    if script == [] || !script[0].answer.Error? then 0 else 1 + FirstAnswer(script[1..])
  }

  /** With a shutdown requested and no later stop, the loop exits quietly exactly when the client answers
      again before the failures run out, and still knows the download. */
  lemma {:induction false} QuietShutdownExactly(script: seq<Poll>, l: Loop, deleteCompleted: bool)
    requires l.state.ShutDown? && l.failures < STATUS_FAILURE_LIMIT && NoStops(script)
    ensures var o, n := Polling(script, l, deleteCompleted), FirstAnswer(script);
      o.Done? && o.state.ShutDown? <==>
        n < |script| && l.failures + n < STATUS_FAILURE_LIMIT && !script[n].answer.Gone?
    decreases |script|
  {
    if script != [] {
      Unfold(script, l, deleteCompleted);
      assert NoStops(script[1..]);
      if !Exits(l, script[0]) {
        QuietShutdownExactly(script[1..], Next(l, script[0]), deleteCompleted);
      }
    }
  }

  /** If the client stays unreachable, the download that should only have been interrupted is recorded as
      failed and taken off the queue. */
  lemma {:induction false} ShutdownDuringOutageFails(script: seq<Poll>, l: Loop, deleteCompleted: bool)
    requires l.state.ShutDown? && l.failures < STATUS_FAILURE_LIMIT && NoStops(script)
    requires l.failures + FirstAnswer(script) >= STATUS_FAILURE_LIMIT
    ensures var o := Polling(script, l, deleteCompleted);
      o.Done? && o.state.Failed? && o.gaveUp && Count(o.log, PostFailed) == 1 && Count(o.log, LeftQueue) == 1
  {
    LogCounts(script, l, deleteCompleted, PostFailed);
    LogCounts(script, l, deleteCompleted, LeftQueue);
    Unfold(script, l, deleteCompleted);
    assert NoStops(script[1..]);
    if !Exits(l, script[0]) {
      ShutdownDuringOutageFails(script[1..], Next(l, script[0]), deleteCompleted);
    }
  }

  // ---------------------------------------------------------------- cancelling, and the client's own word

  /** A cancelled download, with no later stop, ends cancelled at the client's first answer, whatever that is, unless
      the failures run out before; then it ends as failed. Until either happens the loop goes on. */
  lemma {:induction false} CancelIsKeptExactly(script: seq<Poll>, l: Loop, deleteCompleted: bool)
    requires l.state.Canceled? && l.failures < STATUS_FAILURE_LIMIT && NoStops(script)
    ensures var o, n := Polling(script, l, deleteCompleted), FirstAnswer(script);
      && (o.Done? && o.state.Canceled? <==> n < |script| && l.failures + n < STATUS_FAILURE_LIMIT)
      && (o.Done? && o.state.Failed? <==> l.failures + n >= STATUS_FAILURE_LIMIT)
      && (o.Done? ==> (o.state.Canceled? && o.polls == n + 1) || (o.state.Failed? && o.polls == STATUS_FAILURE_LIMIT - l.failures))
    decreases |script|
  {
    if script != [] {
      Unfold(script, l, deleteCompleted);
      assert NoStops(script[1..]);
      if !Exits(l, script[0]) {
        CancelIsKeptExactly(script[1..], Next(l, script[0]), deleteCompleted);
      }
    }
  }

  /** A stop takes hold where it lands: before an answer, the loop goes on as one that was stopped already; after
      an answer, it ends the loop there as cancelled or shut down; after a failed poll, the next turn finds it. */
  lemma StopsTakeHold(script: seq<Poll>, l: Loop, deleteCompleted: bool)
    requires script != [] && l.failures < STATUS_FAILURE_LIMIT
    ensures var o, p := Polling(script, l, deleteCompleted), script[0];
      && (p.before == Some(Cancel) ==>
            o == Polling(script[0 := p.(before := None)], l.(state := Canceled), deleteCompleted))
      && (p.before == Some(ShutdownRequest) ==>
            o == Polling(script[0 := p.(before := None)], l.(state := ShutDown), deleteCompleted))
      && (p.after == Some(Cancel) && !p.answer.Error? ==> o.Done? && o.state == Canceled && o.polls == 1)
      && (p.after == Some(ShutdownRequest) && !p.answer.Error? ==> o.Done? && o.state == ShutDown && o.polls == 1)
      && (p.after.Some? && p.answer.Error? && l.failures + 1 < STATUS_FAILURE_LIMIT ==>
            var stopped := if p.after.value.Cancel? then Canceled else ShutDown;
            o == After([Slept], 1, Polling(script[1..], Loop(stopped, l.failures + 1, l.copied), deleteCompleted)))
  {
    Unfold(script, l, deleteCompleted);
    if script[0].before.Some? {
      var stopped := if script[0].before.value.Cancel? then Canceled else ShutDown;
      var unstopped := script[0 := script[0].(before := None)];
      assert unstopped[1..] == script[1..];
      Unfold(unstopped, l.(state := stopped), deleteCompleted);
    }
  }

  /** What the client has said of the download after the first n polls: its last status, or that it knows it no more. */
  function Reported(script: seq<Poll>, initial: State, n: nat): State
    requires n <= |script|
  {
    if n == 0 then initial
    else match script[n - 1].answer
      case Status(s) => s
      case Gone => Canceled
      case _ => Reported(script, initial, n - 1)
  }

  lemma {:induction false} ReportedShift(script: seq<Poll>, initial: State, n: nat)
    requires 1 <= n <= |script|
    ensures Reported(script, initial, n) == Reported(script[1..], Reported(script, initial, 1), n - 1)
  {
    if n > 1 { ReportedShift(script, initial, n - 1); }
  }

  /** The poll settles the download: the client answered, and what it has said by then is an end. */
  predicate Decisive(script: seq<Poll>, initial: State, n: nat)
    requires 1 <= n <= |script|
  {
    !script[n - 1].answer.Error? && Reported(script, initial, n) in {Canceled, Failed, Importing, ShutDown}
  }

  /** With no stop at all the client's word decides: the loop ends in what the client last said, at the first
      answer by which that is an end; it ends as failed if the failures run out first; and until then what it goes on
      with is what the client last said. */
  lemma {:induction false} ClientDecides(script: seq<Poll>, l: Loop, deleteCompleted: bool)
    requires l.failures < STATUS_FAILURE_LIMIT && NoStops(script) && !l.state.Canceled? && !l.state.ShutDown?
    ensures var o := Polling(script, l, deleteCompleted);
      && (o.StillPolling? ==> o.loop.state == Reported(script, l.state, |script|))
      && (o.Done? ==> 1 <= o.polls <= |script|)
      && (o.Done? && o.gaveUp ==> o.state == Failed)
      && (o.Done? && !o.gaveUp ==> o.state == Reported(script, l.state, o.polls) && Decisive(script, l.state, o.polls))
    ensures var o := Polling(script, l, deleteCompleted);
      forall n :: 1 <= n <= |script| && (o.StillPolling? || n < o.polls) ==> !Decisive(script, l.state, n)
    decreases |script|
  {
    if script != [] {
      Unfold(script, l, deleteCompleted);
      assert NoStops(script[1..]);
      FirstTurn(script, l, 1);
      if !Exits(l, script[0]) {
        var next, rest := Next(l, script[0]), script[1..];
        ClientDecides(rest, next, deleteCompleted);
        forall n | 1 < n <= |script|
          ensures Reported(script, l.state, n) == Reported(rest, next.state, n - 1)
          ensures Decisive(script, l.state, n) == Decisive(rest, next.state, n - 1)
        {
          ReportedShift(script, l.state, n);
        }
      }
    }
  }

  lemma FirstTurn(script: seq<Poll>, l: Loop, n: nat)
    requires n == 1 <= |script| && NoStops(script) && !l.state.Canceled? && !l.state.ShutDown?
    ensures Exits(l, script[0]) <==> Decisive(script, l.state, n) || GivesUp(l, script[0])
    ensures !GivesUp(l, script[0]) && Exits(l, script[0]) ==> Seen(l, script[0]) == Reported(script, l.state, n)
    ensures !Exits(l, script[0]) ==>
      var next := Next(l, script[0]).state; next == Reported(script, l.state, n) && !next.Canceled? && !next.ShutDown?
  {
    assert Reported(script, l.state, n - 1) == l.state;
  }

  /** Every poll that does not end the loop is followed by one wait, or by the processing of a seeding download. */
  lemma {:induction false} EveryTurnWaits(script: seq<Poll>, l: Loop, deleteCompleted: bool)
    requires l.failures < STATUS_FAILURE_LIMIT
    ensures var o := Polling(script, l, deleteCompleted);
      Count(o.log, Slept) + Count(o.log, SeedingProcessed) == if o.Done? then o.polls - 1 else |script|
  {
    if script != [] {
      LogCounts(script, l, deleteCompleted, Slept);
      LogCounts(script, l, deleteCompleted, SeedingProcessed);
      Unfold(script, l, deleteCompleted);
      if !Exits(l, script[0]) { EveryTurnWaits(script[1..], Next(l, script[0]), deleteCompleted); }
    }
  }

  /** The client answered the poll, and by its word the download is seeding. */
  predicate SaysSeeding(script: seq<Poll>, initial: State, n: nat)
    requires 1 <= n <= |script|
  {
    !script[n - 1].answer.Error? && Reported(script, initial, n) == Seeding
  }

  ghost predicate EverSeeding(script: seq<Poll>, initial: State, polls: nat)
    requires polls <= |script|
  {
    exists n :: 1 <= n <= polls && SaysSeeding(script, initial, n)
  }

  /** The polls the loop made of the script. */
  function PollsMade(script: seq<Poll>, o: Outcome): nat {
    if o.Done? then o.polls else |script|
  }

  /** With no stop, seeding is processed if the client ever says so while the loop runs, and only then. */
  lemma {:induction false} SeedingIsProcessedExactly(script: seq<Poll>, l: Loop, deleteCompleted: bool)
    requires l.failures < STATUS_FAILURE_LIMIT && NoStops(script) && !l.state.Canceled? && !l.state.ShutDown?
    ensures PollsMade(script, Polling(script, l, deleteCompleted)) <= |script|
    ensures var o := Polling(script, l, deleteCompleted);
      Count(o.log, SeedingProcessed) ==
        if !l.copied && EverSeeding(script, l.state, PollsMade(script, o)) then 1 else 0
    decreases |script|
  {
    ClientDecides(script, l, deleteCompleted);
    if script != [] {
      LogCounts(script, l, deleteCompleted, SeedingProcessed);
      Unfold(script, l, deleteCompleted);
      assert NoStops(script[1..]);
      FirstTurn(script, l, 1);
      FirstTurnSeeds(script, l, 1);
      var made := PollsMade(script, Polling(script, l, deleteCompleted));
      if Exits(l, script[0]) {
        OnlyFirst(script, l.state, made);
      } else {
        SeedingIsProcessedExactly(script[1..], Next(l, script[0]), deleteCompleted);
        SeedingShift(script, l.state, Next(l, script[0]).state, made);
        SeedingOnce(script[1..], Next(l, script[0]), deleteCompleted);
      }
    }
  }

  lemma FirstTurnSeeds(script: seq<Poll>, l: Loop, n: nat)
    requires n == 1 <= |script| && NoStops(script) && !l.state.Canceled? && !l.state.ShutDown?
    ensures SaysSeeding(script, l.state, n) <==> !Retries(l, script[0]) && Seen(l, script[0]).Seeding?
  {
    assert Reported(script, l.state, n - 1) == l.state;
  }

  lemma OnlyFirst(script: seq<Poll>, initial: State, made: nat)
    requires made == 1 <= |script|
    ensures EverSeeding(script, initial, made) <==> SaysSeeding(script, initial, made)
  {
  }

  lemma SeedingShift(script: seq<Poll>, initial: State, next: State, made: nat)
    requires 1 <= made <= |script| && next == Reported(script, initial, 1)
    ensures EverSeeding(script, initial, made)
      <==> SaysSeeding(script, initial, 1) || EverSeeding(script[1..], next, made - 1)
  {
    forall n | 2 <= n <= made ensures SaysSeeding(script, initial, n) == SaysSeeding(script[1..], next, n - 1) {
      ReportedShift(script, initial, n);
    }
    if EverSeeding(script, initial, made) {
      var n :| 1 <= n <= made && SaysSeeding(script, initial, n);
      if n > 1 { assert SaysSeeding(script[1..], next, n - 1); }
    }
    if EverSeeding(script[1..], next, made - 1) {
      var n :| 1 <= n <= made - 1 && SaysSeeding(script[1..], next, n);
      assert SaysSeeding(script, initial, n + 1);
    }
  }
}
