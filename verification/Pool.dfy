/** The worker pool as a state machine over every interleaving of submitters, workers, cancellation
    and shutdown. */
module Pool {
  import opened Wrappers
  import opened Chain

  /** A worker goroutine: not yet running, waiting for a block, holding one it has just received,
      processing it, done with its loop, no longer counted as active, and gone from the wait group. */
  datatype Worker = Unstarted | Idle | Received(block: Block) | Processing(block: Block) | Leaving | Retired | Gone

  datatype Outcome = Processed | Failed | Panicked

  /** A call of Submit: about to evaluate its select, parked on the full channel, or returned. A call that
      sends on the closed channel panics. */
  datatype Call =
    | AtSelect(block: Block)
    | Parked(block: Block)
    | Accepted(block: Block)
    | Refused(block: Block)
    | Crashed(block: Block)

  /** The pool: the channel with the calls parked on it in order, the workers, the calls of Submit, what
      has been closed, the three counters, and the history the counters stand for. */
  datatype State = State(
    capacity: nat,
    queue: seq<Block>,
    parked: seq<nat>,
    workers: seq<Worker>,
    calls: seq<Call>,
    stopped: bool,       // stopCh is closed
    closed: bool,        // the block channel is closed
    cancelled: bool,     // the context is done
    crashed: bool,       // some call of Submit has panicked
    activeWorkers: int,
    processedBlocks: int,
    panicCount: int,
    submitted: seq<Block>,
    dequeued: seq<Block>,
    handled: seq<Block>,
    outcomes: seq<Outcome>,
    dropped: seq<Block>)

  datatype Action =
    | Enter(block: Block)
    | Send(c: nat) | Park(c: nat) | GiveUp(c: nat) | SendOnClosed(c: nat)
    | Begin(w: nat) | Receive(w: nat) | Check(w: nat) | Finish(w: nat, outcome: Outcome)
    | LoopEnds(w: nat) | Retire(w: nat) | Depart(w: nat)
    | CloseStop | CloseBlocks | Cancel

  /** The worker counts that Start does not refuse. */
  predicate ValidCount(n: nat) {
    1 <= n <= 256
  }

  function Start(n: nat): State {
    State(2 * n, [], [], seq(n, _ => Unstarted), [], false, false, false, false, 0, 0, 0, [], [], [], [], [])
  }

  /** The worker an action belongs to, if it is a worker's. */
  function Actor(a: Action): Option<nat> {
    if a.Begin? || a.Receive? || a.Check? || a.Finish? || a.LoopEnds? || a.Retire? || a.Depart? then Some(a.w)
    else None
  }

  /** The call of Submit an action belongs to, if it is the evaluation of a select. */
  function Caller(a: Action): Option<nat> {
    if a.Send? || a.Park? || a.GiveUp? || a.SendOnClosed? then Some(a.c) else None
  }

  /** A select takes any case that is ready, and parks when none is. A closed stopCh is ready; a channel is
      ready for sending when it has room, or when it is closed, and then sending panics. */
  predicate Enabled(s: State, a: Action) {
    && !s.crashed
    && (Actor(a).Some? ==> Actor(a).value < |s.workers|)
    && (Caller(a).Some? ==> Caller(a).value < |s.calls| && s.calls[Caller(a).value].AtSelect?)
    && match a
       case Enter(_) => true
       case Send(_) => !s.closed && |s.queue| < s.capacity
       case Park(_) => !s.stopped && !s.closed && |s.queue| >= s.capacity
       case GiveUp(_) => s.stopped
       case SendOnClosed(_) => s.closed
       case Begin(w) => s.workers[w].Unstarted?
       case Receive(w) => s.workers[w].Idle? && s.queue != []
       case Check(w) => s.workers[w].Received?
       case Finish(w, _) => s.workers[w].Processing?
       case LoopEnds(w) => s.workers[w].Idle? && s.queue == [] && s.closed
       case Retire(w) => s.workers[w].Leaving?
       case Depart(w) => s.workers[w].Retired?
       // Stop closes the two channels in this order
       case CloseStop => !s.stopped
       case CloseBlocks => s.stopped && !s.closed
       case Cancel => !s.cancelled
  }

  /** Closing a channel wakes the calls parked on it: with a refusal from stopCh, with a panic from the
      block channel. */
  function Woken(calls: seq<Call>, panic: bool): (r: seq<Call>)
    ensures |r| == |calls|
    ensures forall c :: 0 <= c < |calls| ==>
      r[c] == if !calls[c].Parked? then calls[c]
              else if panic then Crashed(calls[c].block) else Refused(calls[c].block)
  {
    seq(|calls|, c requires 0 <= c < |calls| =>
      if !calls[c].Parked? then calls[c]
      else if panic then Crashed(calls[c].block) else Refused(calls[c].block))
  }

  /** The parked call whose block a receive on the full channel moves into the freed slot. */
  predicate Refills(s: State) {
    s.parked != [] && s.parked[0] < |s.calls|
  }

  /** A receive takes the oldest block; the call parked longest, if any, gets its block in at the end. */
  function TakeOldest(s: State, w: nat): State
    requires w < |s.workers| && s.queue != []
  {
    var taken := s.(workers := s.workers[w := Received(s.queue[0])], queue := s.queue[1..],
                    dequeued := s.dequeued + [s.queue[0]]);
    if Refills(s) then
      var b := s.calls[s.parked[0]].block;
      taken.(queue := s.queue[1..] + [b], parked := s.parked[1..],
             calls := s.calls[s.parked[0] := Accepted(b)], submitted := s.submitted + [b])
    else taken
  }

  /** One atomic step. A worker that finds the context done gives its block up; a panic while processing
      is recovered inside the loop, so the worker goes on. */
  function Next(s: State, a: Action): State
    requires Enabled(s, a)
  {
    match a
    case Enter(b) => s.(calls := s.calls + [AtSelect(b)])
    case Send(c) =>
      var b := s.calls[c].block;
      s.(calls := s.calls[c := Accepted(b)], queue := s.queue + [b], submitted := s.submitted + [b])
    case Park(c) => s.(calls := s.calls[c := Parked(s.calls[c].block)], parked := s.parked + [c])
    case GiveUp(c) => s.(calls := s.calls[c := Refused(s.calls[c].block)])
    case SendOnClosed(c) => s.(calls := s.calls[c := Crashed(s.calls[c].block)], crashed := true)
    case Begin(w) => s.(workers := s.workers[w := Idle], activeWorkers := s.activeWorkers + 1)
    case Receive(w) => TakeOldest(s, w)
    case Check(w) =>
      var b := s.workers[w].block;
      if s.cancelled then s.(workers := s.workers[w := Leaving], dropped := s.dropped + [b])
      else s.(workers := s.workers[w := Processing(b)])
    case Finish(w, outcome) =>
      s.(workers := s.workers[w := Idle],
         processedBlocks := s.processedBlocks + (if outcome == Processed then 1 else 0),
         panicCount := s.panicCount + (if outcome == Panicked then 1 else 0),
         handled := s.handled + [s.workers[w].block],
         outcomes := s.outcomes + [outcome])
    case LoopEnds(w) => s.(workers := s.workers[w := Leaving])
    case Retire(w) => s.(workers := s.workers[w := Retired], activeWorkers := s.activeWorkers - 1)
    case Depart(w) => s.(workers := s.workers[w := Gone])
    case CloseStop => s.(stopped := true, calls := Woken(s.calls, false), parked := [])
    case CloseBlocks =>
      s.(closed := true, calls := Woken(s.calls, true), parked := [], crashed := s.parked != [])
    case Cancel => s.(cancelled := true)
  }

  // ---- sums over the workers

  function Sum(workers: seq<Worker>, f: Worker -> nat): nat {
    if workers == [] then 0 else Sum(workers[..|workers| - 1], f) + f(workers[|workers| - 1])
  }

  lemma {:induction false} SumAfter(workers: seq<Worker>, w: nat, to: Worker, f: Worker -> nat)
    requires w < |workers|
    ensures Sum(workers[w := to], f) == Sum(workers, f) - f(workers[w]) + f(to)
    decreases |workers|
  {
    var front := workers[..|workers| - 1];
    if w == |workers| - 1 {
      assert workers[w := to][..|workers| - 1] == front;
    } else {
      SumAfter(front, w, to, f);
      assert workers[w := to][..|workers| - 1] == front[w := to];
    }
  }

  lemma {:induction false} SumOfZeros(workers: seq<Worker>, f: Worker -> nat)
    requires forall w :: 0 <= w < |workers| ==> f(workers[w]) == 0
    ensures Sum(workers, f) == 0
  {
    if workers != [] {
      SumOfZeros(workers[..|workers| - 1], f);
    }
  }

  /** 1 for a worker that has this block in its hands. */
  function Holds(b: Block): Worker -> nat {
    (w: Worker) => if (w.Received? || w.Processing?) && w.block == b then 1 else 0
  }

  function Busy(): Worker -> nat {
    (w: Worker) => if w.Received? || w.Processing? then 1 else 0
  }

  /** 1 for a worker between the two updates of the active counter. */
  function Active(): Worker -> nat {
    (w: Worker) => if w.Unstarted? || w.Retired? || w.Gone? then 0 else 1
  }

  /** The steps a worker has left, and one more for one that can still take a block. */
  function Weight(): Worker -> nat {
    (w: Worker) =>
      match w
      case Unstarted => 4
      case Idle => 3
      case Received(_) => 5
      case Processing(_) => 4
      case Leaving => 2
      case Retired => 1
      case Gone => 0
  }

  function Count(outcomes: seq<Outcome>, outcome: Outcome): nat {
    if outcomes == [] then 0
    else Count(outcomes[..|outcomes| - 1], outcome) + if outcomes[|outcomes| - 1] == outcome then 1 else 0
  }

  lemma {:induction false} OutcomesAreAll(outcomes: seq<Outcome>)
    ensures Count(outcomes, Processed) + Count(outcomes, Failed) + Count(outcomes, Panicked) == |outcomes|
  {
    if outcomes != [] {
      OutcomesAreAll(outcomes[..|outcomes| - 1]);
    }
  }

  // ---- invariants

  /** What left the queue is in a worker's hands, handled or dropped, as often as it was submitted. */
  ghost predicate Accounted(s: State) {
    && s.submitted == s.dequeued + s.queue
    && |s.dequeued| == Sum(s.workers, Busy()) + |s.handled| + |s.dropped|
    && forall b :: AccountedFor(s, b)
  }

  ghost predicate AccountedFor(s: State, b: Block) {
    multiset(s.dequeued)[b] == Sum(s.workers, Holds(b)) + multiset(s.handled)[b] + multiset(s.dropped)[b]
  }

  /** The counters say what they are named for. */
  ghost predicate Counted(s: State) {
    && s.activeWorkers == Sum(s.workers, Active())
    && |s.outcomes| == |s.handled|
    && s.processedBlocks == Count(s.outcomes, Processed)
    && s.panicCount == Count(s.outcomes, Panicked)
  }

  predicate PastLoop(w: Worker) {
    w.Leaving? || w.Retired? || w.Gone?
  }

  /** What a worker past its loop implies, and what cancellation does. */
  ghost predicate Orderly(s: State) {
    && (!s.cancelled ==> s.dropped == [])
    && forall w :: 0 <= w < |s.workers| && PastLoop(s.workers[w]) && !s.cancelled ==> s.closed && s.queue == []
  }

  /** The channel: its bound, who is parked on it and when, the order of the closings. Nobody is parked any
      more once stopCh is closed, so nobody is when the block channel is. */
  ghost predicate Channel(s: State) {
    && |s.queue| <= s.capacity
    && (s.closed ==> s.stopped)
    && (s.stopped ==> s.parked == [])
    && (s.parked != [] ==> |s.queue| == s.capacity)
    && (forall i :: 0 <= i < |s.parked| ==> s.parked[i] < |s.calls| && s.calls[s.parked[i]].Parked?)
    && (forall i, j :: 0 <= i < j < |s.parked| ==> s.parked[i] != s.parked[j])
    && (forall c :: 0 <= c < |s.calls| && s.calls[c].Parked? ==> c in s.parked)
  }

  /** Only a closed channel crashes a call. */
  ghost predicate CrashesLate(s: State) {
    && (s.crashed ==> s.closed)
    && forall c :: 0 <= c < |s.calls| && s.calls[c].Crashed? ==> s.crashed
  }

  ghost predicate Inv(s: State) {
    Accounted(s) && Counted(s) && Orderly(s) && Channel(s) && CrashesLate(s)
  }

  lemma StartInv(n: nat)
    ensures Inv(Start(n))
  {
    forall b
      ensures AccountedFor(Start(n), b)
    {
      SumOfZeros(Start(n).workers, Holds(b));
    }
    SumOfZeros(Start(n).workers, Busy());
    SumOfZeros(Start(n).workers, Active());
  }

  /** The parts of the state that a step of no worker leaves alone. */
  lemma OthersLeaveWorkers(s: State, a: Action)
    requires Enabled(s, a) && Actor(a).None?
    ensures var s' := Next(s, a);
      && s'.workers == s.workers && s'.dequeued == s.dequeued && s'.dropped == s.dropped
      && s'.handled == s.handled && s'.outcomes == s.outcomes && s'.activeWorkers == s.activeWorkers
      && s'.processedBlocks == s.processedBlocks && s'.panicCount == s.panicCount
  {
  }

  /** A worker's step changes its own entry and nothing else of the workers. */
  lemma WorkerMoves(s: State, a: Action)
    requires Enabled(s, a) && Actor(a).Some?
    ensures Next(s, a).workers == s.workers[Actor(a).value := Next(s, a).workers[Actor(a).value]]
    ensures Next(s, a).capacity == s.capacity && |Next(s, a).workers| == |s.workers|
  {
  }

  lemma NextKeepsOrder(s: State, a: Action)
    requires Enabled(s, a) && s.submitted == s.dequeued + s.queue
    ensures Next(s, a).submitted == Next(s, a).dequeued + Next(s, a).queue
  {
    if a.Receive? {
      TakeKeepsOrder(s, a.w);
    }
  }

  lemma TakeKeepsOrder(s: State, w: nat)
    requires w < |s.workers| && s.queue != [] && s.submitted == s.dequeued + s.queue
    ensures TakeOldest(s, w).submitted == TakeOldest(s, w).dequeued + TakeOldest(s, w).queue
  {
    assert s.queue == [s.queue[0]] + s.queue[1..];
  }

  lemma NextKeepsSize(s: State, a: Action)
    requires Enabled(s, a) && |s.dequeued| == Sum(s.workers, Busy()) + |s.handled| + |s.dropped|
    ensures var s' := Next(s, a); |s'.dequeued| == Sum(s'.workers, Busy()) + |s'.handled| + |s'.dropped|
  {
    if Actor(a).Some? {
      WorkerMoves(s, a);
      SumAfter(s.workers, Actor(a).value, Next(s, a).workers[Actor(a).value], Busy());
    } else {
      OthersLeaveWorkers(s, a);
    }
  }

  lemma NextAccountsFor(s: State, a: Action, b: Block)
    requires Enabled(s, a) && AccountedFor(s, b)
    ensures AccountedFor(Next(s, a), b)
  {
    match a
    case Receive(w) => ReceiveAccountsFor(s, w, b);
    case Check(w) => CheckAccountsFor(s, w, b);
    case Finish(w, outcome) => FinishAccountsFor(s, w, outcome, b);
    case _ => RestAccountsFor(s, a, b);
  }

  lemma ReceiveAccountsFor(s: State, w: nat, b: Block)
    requires Enabled(s, Receive(w)) && AccountedFor(s, b)
    ensures AccountedFor(Next(s, Receive(w)), b)
  {
    TakeMovesBlock(s, w);
    SumAfter(s.workers, w, Received(s.queue[0]), Holds(b));
    CountOneMore(s.dequeued, s.queue[0], b);
  }

  lemma TakeMovesBlock(s: State, w: nat)
    requires w < |s.workers| && s.queue != []
    ensures var s' := TakeOldest(s, w);
      && s'.workers == s.workers[w := Received(s.queue[0])] && s'.dequeued == s.dequeued + [s.queue[0]]
      && s'.handled == s.handled && s'.dropped == s.dropped
  {
  }

  lemma CountOneMore(blocks: seq<Block>, one: Block, b: Block)
    ensures multiset(blocks + [one])[b] == multiset(blocks)[b] + if one == b then 1 else 0
  {
  }

  lemma CheckAccountsFor(s: State, w: nat, b: Block)
    requires Enabled(s, Check(w)) && AccountedFor(s, b)
    ensures AccountedFor(Next(s, Check(w)), b)
  {
    SumAfter(s.workers, w, Leaving, Holds(b));
    SumAfter(s.workers, w, Processing(s.workers[w].block), Holds(b));
  }

  lemma FinishAccountsFor(s: State, w: nat, outcome: Outcome, b: Block)
    requires Enabled(s, Finish(w, outcome)) && AccountedFor(s, b)
    ensures AccountedFor(Next(s, Finish(w, outcome)), b)
  {
    SumAfter(s.workers, w, Idle, Holds(b));
  }

  lemma RestAccountsFor(s: State, a: Action, b: Block)
    requires Enabled(s, a) && AccountedFor(s, b)
    requires !a.Receive? && !a.Check? && !a.Finish?
    ensures AccountedFor(Next(s, a), b)
  {
    if Actor(a).Some? {
      EmptyHands(s, a);
      WorkerMoves(s, a);
      SumAfter(s.workers, Actor(a).value, Next(s, a).workers[Actor(a).value], Holds(b));
    } else {
      OthersLeaveWorkers(s, a);
    }
  }

  lemma EmptyHands(s: State, a: Action)
    requires Enabled(s, a) && Actor(a).Some?
    requires !a.Receive? && !a.Check? && !a.Finish?
    ensures var from, to := s.workers[Actor(a).value], Next(s, a).workers[Actor(a).value];
      !from.Received? && !from.Processing? && !to.Received? && !to.Processing?
    ensures var s' := Next(s, a);
      s'.dequeued == s.dequeued && s'.handled == s.handled && s'.dropped == s.dropped
  {
  }

  lemma NextAccounts(s: State, a: Action)
    requires Accounted(s) && Enabled(s, a)
    ensures Accounted(Next(s, a))
  {
    NextKeepsOrder(s, a);
    NextKeepsSize(s, a);
    forall b
      ensures AccountedFor(Next(s, a), b)
    {
      NextAccountsFor(s, a, b);
    }
  }

  lemma NextCounts(s: State, a: Action)
    requires Counted(s) && Enabled(s, a)
    ensures Counted(Next(s, a))
  {
    if a.Finish? {
      FinishCounts(s, a.w, a.outcome);
    } else if Actor(a).Some? {
      ActiveFollows(s, a);
    } else {
      OthersLeaveWorkers(s, a);
    }
  }

  lemma FinishCounts(s: State, w: nat, outcome: Outcome)
    requires Counted(s) && Enabled(s, Finish(w, outcome))
    ensures Counted(Next(s, Finish(w, outcome)))
  {
    SumAfter(s.workers, w, Idle, Active());
    assert (s.outcomes + [outcome])[..|s.outcomes|] == s.outcomes;
  }

  lemma ActiveFollows(s: State, a: Action)
    requires Counted(s) && Enabled(s, a) && Actor(a).Some? && !a.Finish?
    ensures Counted(Next(s, a))
  {
    WorkerMoves(s, a);
    CounterFollows(s, a);
    SumAfter(s.workers, Actor(a).value, Next(s, a).workers[Actor(a).value], Active());
  }

  lemma CounterFollows(s: State, a: Action)
    requires Enabled(s, a) && Actor(a).Some? && !a.Finish?
    ensures var s', w := Next(s, a), Actor(a).value;
      && s'.activeWorkers == s.activeWorkers - Active()(s.workers[w]) + Active()(s'.workers[w])
      && s'.handled == s.handled && s'.outcomes == s.outcomes
      && s'.processedBlocks == s.processedBlocks && s'.panicCount == s.panicCount
  {
  }

  lemma NextIsOrderly(s: State, a: Action)
    requires Orderly(s) && Channel(s) && Enabled(s, a)
    ensures Orderly(Next(s, a))
  {
  }

  lemma NextKeepsChannel(s: State, a: Action)
    requires Channel(s) && Enabled(s, a)
    ensures Channel(Next(s, a))
  {
    match a
    case Park(c) => ParkKeepsChannel(s, c);
    case Receive(w) => ReceiveKeepsChannel(s, w);
    case CloseBlocks => NobodyIsParked(s);
    case _ =>
  }

  lemma ParkKeepsChannel(s: State, c: nat)
    requires Channel(s) && Enabled(s, Park(c))
    ensures Channel(Next(s, Park(c)))
  {
    var s' := Next(s, Park(c));
    forall d | 0 <= d < |s'.calls| && s'.calls[d].Parked?
      ensures d in s'.parked
    {
      if d == c {
        assert s'.parked[|s.parked|] == c;
      } else {
        assert d in s.parked;
      }
    }
  }

  lemma ReceiveKeepsChannel(s: State, w: nat)
    requires Channel(s) && Enabled(s, Receive(w))
    ensures Channel(Next(s, Receive(w)))
  {
    var s' := Next(s, Receive(w));
    if Refills(s) {
      forall d | 0 <= d < |s'.calls| && s'.calls[d].Parked?
        ensures d in s'.parked
      {
        assert d in s.parked && d != s.parked[0];
        assert s.parked == [s.parked[0]] + s.parked[1..];
      }
    }
  }

  lemma NobodyIsParked(s: State)
    requires Channel(s) && s.stopped
    ensures s.parked == [] && forall c :: 0 <= c < |s.calls| ==> !s.calls[c].Parked?
  {
    forall c | 0 <= c < |s.calls|
      ensures !s.calls[c].Parked?
    {
      assert s.calls[c].Parked? ==> c in s.parked;
    }
  }

  lemma NextCrashesLate(s: State, a: Action)
    requires Channel(s) && CrashesLate(s) && Enabled(s, a)
    ensures CrashesLate(Next(s, a))
  {
    if a.CloseBlocks? {
      NobodyIsParked(s);
    }
  }

  lemma NextInv(s: State, a: Action)
    requires Inv(s) && Enabled(s, a)
    ensures Inv(Next(s, a))
  {
    NextAccounts(s, a);
    NextCounts(s, a);
    NextIsOrderly(s, a);
    NextKeepsChannel(s, a);
    NextCrashesLate(s, a);
  }

  // ---- runs

  ghost predicate Possible(s: State, run: seq<Action>)
    decreases |run|
  {
    run == [] || (Enabled(s, run[0]) && Possible(Next(s, run[0]), run[1..]))
  }

  ghost function After(s: State, run: seq<Action>): State
    requires Possible(s, run)
    decreases |run|
  {
    if run == [] then s else After(Next(s, run[0]), run[1..])
  }

  lemma {:induction false} RunKeepsInv(s: State, run: seq<Action>)
    requires Inv(s) && Possible(s, run)
    ensures Inv(After(s, run))
    decreases |run|
  {
    if run != [] {
      NextInv(s, run[0]);
      RunKeepsInv(Next(s, run[0]), run[1..]);
    }
  }

  lemma {:induction false} WorkersStay(s: State, run: seq<Action>)
    requires Possible(s, run)
    ensures |After(s, run).workers| == |s.workers| && After(s, run).capacity == s.capacity
    decreases |run|
  {
    if run != [] {
      WorkersStay(Next(s, run[0]), run[1..]);
    }
  }

  /** In every interleaving, cancellations and late submissions included: the queue stays within twice the
      worker count, Submit succeeds exactly for the blocks that get into it, blocks leave it in the order they
      were submitted, and what was submitted is queued, in a worker's hands, processed, failed, panicked, or
      dropped by a cancelled worker. */
  lemma EveryRun(n: nat, run: seq<Action>)
    requires ValidCount(n) && Possible(Start(n), run)
    ensures var s := After(Start(n), run);
      && |s.queue| <= 2 * n && |s.workers| == n
      && s.submitted == s.dequeued + s.queue && multiset(s.submitted) == AcceptedBlocks(s.calls)
      && |s.submitted| == |s.queue| + Sum(s.workers, Busy())
           + s.processedBlocks + Count(s.outcomes, Failed) + s.panicCount + |s.dropped|
      && (forall b :: multiset(s.submitted)[b] == multiset(s.queue)[b] + Sum(s.workers, Holds(b))
           + multiset(s.handled)[b] + multiset(s.dropped)[b])
      && s.activeWorkers == Sum(s.workers, Active())
      && s.processedBlocks == Count(s.outcomes, Processed) && s.panicCount == Count(s.outcomes, Panicked)
      && |s.outcomes| == |s.handled|
      && (!s.cancelled ==> s.dropped == [])
  {
    StartInv(n);
    RunKeepsInv(Start(n), run);
    WorkersStay(Start(n), run);
    AcceptedIsSubmitted(Start(n), run);
    var s := After(Start(n), run);
    OutcomesAreAll(s.outcomes);
    forall b
      ensures multiset(s.submitted)[b]
           == multiset(s.queue)[b] + Sum(s.workers, Holds(b)) + multiset(s.handled)[b] + multiset(s.dropped)[b]
    {
      assert AccountedFor(s, b);
    }
  }

  // ---- shutdown

  function Measure(s: State): nat {
    Sum(s.workers, Weight()) + 3 * |s.queue|
  }

  lemma WorkerStepsShrink(s: State, a: Action)
    requires Channel(s) && s.closed && Enabled(s, a) && Actor(a).Some?
    ensures Measure(Next(s, a)) < Measure(s)
  {
    WorkerMoves(s, a);
    SumAfter(s.workers, Actor(a).value, Next(s, a).workers[Actor(a).value], Weight());
  }

  lemma OthersKeepMeasure(s: State, a: Action)
    requires Channel(s) && s.closed && Enabled(s, a) && Actor(a).None?
    ensures Measure(Next(s, a)) == Measure(s)
  {
  }

  function WorkerSteps(run: seq<Action>): nat {
    if run == [] then 0 else (if Actor(run[0]).Some? then 1 else 0) + WorkerSteps(run[1..])
  }

  /** After the channel is closed the workers take no more steps than the measure allows, whatever else
      happens in between. */
  lemma {:induction false} ShutdownIsBounded(s: State, run: seq<Action>)
    requires Inv(s) && s.closed && Possible(s, run)
    ensures WorkerSteps(run) + Measure(After(s, run)) <= Measure(s)
    ensures After(s, run).closed
    decreases |run|
  {
    if run != [] {
      if Actor(run[0]).Some? {
        WorkerStepsShrink(s, run[0]);
      } else {
        OthersKeepMeasure(s, run[0]);
      }
      NextInv(s, run[0]);
      StaysClosed(s, run[0]);
      ShutdownIsBounded(Next(s, run[0]), run[1..]);
    }
  }

  lemma StaysClosed(s: State, a: Action)
    requires s.closed && Enabled(s, a)
    ensures Next(s, a).closed
  {
  }

  /** Until it is gone, every worker can move: the pool does not get stuck. */
  lemma NoDeadlock(s: State, w: nat) returns (a: Action)
    requires s.closed && !s.crashed && w < |s.workers| && !s.workers[w].Gone?
    ensures Actor(a) == Some(w) && Enabled(s, a)
  {
    a := match s.workers[w]
      case Unstarted => Begin(w)
      case Idle => if s.queue == [] then LoopEnds(w) else Receive(w)
      case Received(_) => Check(w)
      case Processing(_) => Finish(w, Processed)
      case Leaving => Retire(w)
      case Retired => Depart(w);
  }

  /** Without cancellation, when all workers are gone every submitted block has been handled exactly once. */
  lemma DrainedWhenGone(n: nat, run: seq<Action>)
    requires ValidCount(n) && Possible(Start(n), run)
    requires var s := After(Start(n), run);
      !s.cancelled && forall w :: 0 <= w < |s.workers| ==> s.workers[w].Gone?
    ensures var s := After(Start(n), run);
      && s.queue == [] && multiset(s.submitted) == multiset(s.handled)
      && s.activeWorkers == 0
  {
    EveryRun(n, run);
    StartInv(n);
    RunKeepsInv(Start(n), run);
    var s := After(Start(n), run);
    assert s.workers[0].Gone?;
    forall b
      ensures multiset(s.submitted)[b] == multiset(s.handled)[b]
    {
      SumOfZeros(s.workers, Holds(b));
    }
    SumOfZeros(s.workers, Active());
  }

  ghost predicate AllGone(s: State) {
    forall w :: 0 <= w < |s.workers| ==> s.workers[w].Gone?
  }

  /** Every block that was submitted has been handled, dropped by a cancelled worker, or is still in the channel. */
  ghost predicate Settles(s: State) {
    && multiset(s.submitted) == multiset(s.handled) + multiset(s.dropped) + multiset(s.queue)
    && (!s.cancelled ==> s.queue == [] && s.dropped == [])
    && s.activeWorkers == 0
  }

  lemma GoneSettles(n: nat, run: seq<Action>)
    requires ValidCount(n) && Possible(Start(n), run) && AllGone(After(Start(n), run))
    ensures Settles(After(Start(n), run))
  {
    var s := After(Start(n), run);
    EveryRun(n, run);
    forall b
      ensures multiset(s.submitted)[b] == (multiset(s.handled) + multiset(s.dropped) + multiset(s.queue))[b]
    {
      SumOfZeros(s.workers, Holds(b));
    }
    SumOfZeros(s.workers, Active());
    if !s.cancelled {
      DrainedWhenGone(n, run);
    }
  }

  lemma WorkerKeeps(s: State, a: Action)
    requires Channel(s) && s.closed && Enabled(s, a) && Actor(a).Some?
    ensures var s' := Next(s, a);
      s'.closed && !s'.crashed && s'.cancelled == s.cancelled && s'.submitted == s.submitted
  {
    NobodyIsParked(s);
  }

  /** From any closed state the workers can finish by themselves. */
  lemma {:induction false} FinishShutdown(s: State) returns (run: seq<Action>)
    requires Inv(s) && s.closed && !s.crashed
    ensures Possible(s, run) && |run| <= Measure(s) && forall i :: 0 <= i < |run| ==> Actor(run[i]).Some?
    ensures var end := After(s, run);
      AllGone(end) && !end.crashed && end.cancelled == s.cancelled && end.submitted == s.submitted
    decreases Measure(s)
  {
    run := [];
    if w: nat :| w < |s.workers| && !s.workers[w].Gone? {
      var a := NoDeadlock(s, w);
      WorkerStepsShrink(s, a);
      WorkerKeeps(s, a);
      NextInv(s, a);
      var rest := FinishShutdown(Next(s, a));
      run := [a] + rest;
      assert run[1..] == rest;
    }
  }

  lemma {:induction false} PossibleAppend(s: State, first: seq<Action>, later: seq<Action>)
    requires Possible(s, first) && Possible(After(s, first), later)
    ensures Possible(s, first + later) && After(s, first + later) == After(After(s, first), later)
    decreases |first|
  {
    if first == [] {
      assert first + later == later;
    } else {
      PossibleAppend(Next(s, first[0]), first[1..], later);
      assert (first + later)[1..] == first[1..] + later;
    }
  }

  /** A shutdown completes: from every closed state of every run in which no call has panicked, at most as many
      worker steps as the measure says lead to a state where all workers are gone, and every submitted block is
      settled. */
  lemma ShutdownCompletes(n: nat, before: seq<Action>) returns (run: seq<Action>)
    requires ValidCount(n) && Possible(Start(n), before)
    requires After(Start(n), before).closed && !After(Start(n), before).crashed
    ensures var s := After(Start(n), before);
      && Possible(s, run) && |run| <= Measure(s) && (forall i :: 0 <= i < |run| ==> Actor(run[i]).Some?)
      && var end := After(s, run);
      && AllGone(end) && end.submitted == s.submitted && end.cancelled == s.cancelled && Settles(end)
  {
    StartInv(n);
    RunKeepsInv(Start(n), before);
    run := FinishShutdown(After(Start(n), before));
    PossibleAppend(Start(n), before, run);
    GoneSettles(n, before + run);
  }

  /** And it cannot end otherwise: whatever happens after the closing, once no worker can move and no call has
      panicked, all workers are gone and every submitted block is settled. */
  lemma ShutdownEndsSettled(n: nat, before: seq<Action>, run: seq<Action>)
    requires ValidCount(n) && Possible(Start(n), before) && After(Start(n), before).closed
    requires var s := After(Start(n), before); Possible(s, run) && !After(s, run).crashed
    requires forall a :: Enabled(After(After(Start(n), before), run), a) ==> Actor(a).None?
    ensures var s := After(Start(n), before);
      AllGone(After(s, run)) && WorkerSteps(run) <= Measure(s) && Settles(After(s, run))
  {
    StartInv(n);
    RunKeepsInv(Start(n), before);
    var s := After(Start(n), before);
    ShutdownIsBounded(s, run);
    var end := After(s, run);
    if w: nat :| w < |end.workers| && !end.workers[w].Gone? {
      var a := NoDeadlock(end, w);
      assert false;
    }
    PossibleAppend(Start(n), before, run);
    GoneSettles(n, before + run);
  }

  // ---- calls of Submit and the shutdown

  /** A call that has left its select without panicking: parked or returned. */
  predicate Safe(c: Call) {
    c.Parked? || c.Accepted? || c.Refused?
  }

  lemma SafeStaysSafe(s: State, a: Action, c: nat)
    requires Channel(s) && Enabled(s, a) && c < |s.calls| && Safe(s.calls[c])
    ensures c < |Next(s, a).calls| && Safe(Next(s, a).calls[c])
    ensures !s.calls[c].Parked? ==> Next(s, a).calls[c] == s.calls[c]
  {
    if a.CloseBlocks? {
      NobodyIsParked(s);
    }
  }

  /** A parked call never panics, and a call that has returned stays as it is, whatever follows. */
  lemma {:induction false} SafeForever(s: State, run: seq<Action>, c: nat)
    requires Inv(s) && Possible(s, run) && c < |s.calls| && Safe(s.calls[c])
    ensures var end := After(s, run);
      && c < |end.calls| && Safe(end.calls[c])
      && (!s.calls[c].Parked? ==> end.calls[c] == s.calls[c])
    decreases |run|
  {
    if run != [] {
      SafeStaysSafe(s, run[0], c);
      NextInv(s, run[0]);
      SafeForever(Next(s, run[0]), run[1..], c);
    }
  }

  /** A call still parked when stopCh is closed is refused, whatever follows. */
  lemma ParkedIsRefusedByStop(n: nat, before: seq<Action>, run: seq<Action>, c: nat)
    requires ValidCount(n) && Possible(Start(n), before)
    requires var s := After(Start(n), before);
      && c < |s.calls| && s.calls[c].Parked? && Enabled(s, CloseStop)
      && Possible(Next(s, CloseStop), run)
    ensures var s := After(Start(n), before);
      var end := After(Next(s, CloseStop), run);
      c < |end.calls| && end.calls[c] == Refused(s.calls[c].block)
  {
    StartInv(n);
    RunKeepsInv(Start(n), before);
    var s := After(Start(n), before);
    NextInv(s, CloseStop);
    SafeForever(Next(s, CloseStop), run, c);
  }

  /** What is left of a shutdown, then the evaluation of the select of c. */
  function ShutdownThen(s: State, c: nat): seq<Action> {
    (if s.stopped then [] else [CloseStop]) + (if s.closed then [] else [CloseBlocks]) + [SendOnClosed(c)]
  }

  lemma ShutdownCanCrash(s: State, c: nat)
    requires Inv(s) && !s.crashed && c < |s.calls| && s.calls[c].AtSelect?
    ensures Possible(s, ShutdownThen(s, c))
    ensures c < |After(s, ShutdownThen(s, c)).calls| && After(s, ShutdownThen(s, c)).calls[c].Crashed?
  {
    if s.closed {
      OneStep(s, SendOnClosed(c));
      assert ShutdownThen(s, c) == [SendOnClosed(c)];
    } else if s.stopped {
      CloseThenSend(s, c);
      assert ShutdownThen(s, c) == [CloseBlocks] + [SendOnClosed(c)];
    } else {
      NextInv(s, CloseStop);
      CloseThenSend(Next(s, CloseStop), c);
      FirstStep(s, CloseStop, [CloseBlocks] + [SendOnClosed(c)]);
      assert ShutdownThen(s, c) == [CloseStop] + ([CloseBlocks] + [SendOnClosed(c)]);
    }
  }

  lemma CloseThenSend(s: State, c: nat)
    requires Inv(s) && !s.crashed && s.stopped && !s.closed && c < |s.calls| && s.calls[c].AtSelect?
    ensures Possible(s, [CloseBlocks] + [SendOnClosed(c)])
    ensures var end := After(s, [CloseBlocks] + [SendOnClosed(c)]); c < |end.calls| && end.calls[c].Crashed?
  {
    NobodyIsParked(s);
    OneStep(Next(s, CloseBlocks), SendOnClosed(c));
    FirstStep(s, CloseBlocks, [SendOnClosed(c)]);
  }

  lemma FirstStep(s: State, a: Action, rest: seq<Action>)
    requires Enabled(s, a) && Possible(Next(s, a), rest)
    ensures Possible(s, [a] + rest) && After(s, [a] + rest) == After(Next(s, a), rest)
  {
    assert ([a] + rest)[1..] == rest;
  }

  lemma OneStep(s: State, a: Action)
    requires Enabled(s, a)
    ensures Possible(s, [a]) && After(s, [a]) == Next(s, a)
  {
    assert [a][1..] == [];
  }

  ghost predicate CrashesIn(s: State, run: seq<Action>, c: nat) {
    Possible(s, run) && c < |After(s, run).calls| && After(s, run).calls[c].Crashed?
  }

  /** Exactly which calls of Submit a shutdown can still make panic, at any point of any run: those that have
      not evaluated their select yet. A parked call cannot, because Stop closes stopCh first. */
  lemma MayCrashIff(n: nat, before: seq<Action>, c: nat)
    requires ValidCount(n) && Possible(Start(n), before)
    requires var s := After(Start(n), before); !s.crashed && c < |s.calls|
    ensures var s := After(Start(n), before);
      (exists run :: CrashesIn(s, run, c)) <==> s.calls[c].AtSelect?
  {
    StartInv(n);
    RunKeepsInv(Start(n), before);
    var s := After(Start(n), before);
    if s.calls[c].AtSelect? {
      ShutdownCanCrash(s, c);
      assert CrashesIn(s, ShutdownThen(s, c), c);
    } else {
      forall run
        ensures !CrashesIn(s, run, c)
      {
        if Possible(s, run) {
          SafeForever(s, run, c);
        }
      }
    }
  }

  /** No call is about to evaluate its select, and none is coming. */
  ghost predicate Settled(s: State, run: seq<Action>) {
    && (forall c :: 0 <= c < |s.calls| ==> !s.calls[c].AtSelect?)
    && forall i :: 0 <= i < |run| ==> !run[i].Enter?
  }

  /** Without a Submit that races or follows it, a shutdown never panics. */
  lemma {:induction false} SettledNeverCrashes(s: State, run: seq<Action>)
    requires Inv(s) && !s.crashed && Possible(s, run) && Settled(s, run)
    ensures !After(s, run).crashed
    decreases |run|
  {
    if run != [] {
      SettledStep(s, run[0]);
      NextInv(s, run[0]);
      SettledNeverCrashes(Next(s, run[0]), run[1..]);
    }
  }

  lemma SettledStep(s: State, a: Action)
    requires Channel(s) && !s.crashed && Enabled(s, a) && !a.Enter?
    requires forall c :: 0 <= c < |s.calls| ==> !s.calls[c].AtSelect?
    ensures !Next(s, a).crashed
    ensures forall c :: 0 <= c < |Next(s, a).calls| ==> !Next(s, a).calls[c].AtSelect?
  {
  }

  // ---- what Submit's return value means

  function Accepts(c: Call): multiset<Block> {
    if c.Accepted? then multiset{c.block} else multiset{}
  }

  function AcceptedBlocks(calls: seq<Call>): multiset<Block> {
    if calls == [] then multiset{} else AcceptedBlocks(calls[..|calls| - 1]) + Accepts(calls[|calls| - 1])
  }

  lemma {:induction false} AcceptedAfter(calls: seq<Call>, c: nat, to: Call)
    requires c < |calls| && !calls[c].Accepted?
    ensures AcceptedBlocks(calls[c := to]) == AcceptedBlocks(calls) + Accepts(to)
    decreases |calls|
  {
    var front, last := calls[..|calls| - 1], calls[|calls| - 1];
    UpdateFront(calls, c, to);
    if c < |calls| - 1 {
      AcceptedAfter(front, c, to);
      AddInOrder(AcceptedBlocks(front), Accepts(to), Accepts(last));
    }
  }

  lemma UpdateFront<T>(s: seq<T>, i: nat, x: T)
    requires i < |s|
    ensures s[i := x][..|s| - 1] == if i == |s| - 1 then s[..|s| - 1] else s[..|s| - 1][i := x]
  {
  }

  lemma AddInOrder<T>(a: multiset<T>, b: multiset<T>, c: multiset<T>)
    ensures a + b + c == a + c + b
  {
  }

  lemma {:induction false} WakingAcceptsNobody(calls: seq<Call>, panic: bool)
    ensures AcceptedBlocks(Woken(calls, panic)) == AcceptedBlocks(calls)
    decreases |calls|
  {
    if calls != [] {
      WakingAcceptsNobody(calls[..|calls| - 1], panic);
      assert Woken(calls, panic)[..|calls| - 1] == Woken(calls[..|calls| - 1], panic);
    }
  }

  lemma NextAccepts(s: State, a: Action)
    requires Channel(s) && Enabled(s, a) && multiset(s.submitted) == AcceptedBlocks(s.calls)
    ensures multiset(Next(s, a).submitted) == AcceptedBlocks(Next(s, a).calls)
  {
    if Caller(a).Some? {
      AcceptedAfter(s.calls, a.c, Next(s, a).calls[a.c]);
    } else if a.Receive? {
      if Refills(s) {
        AcceptedAfter(s.calls, s.parked[0], Accepted(s.calls[s.parked[0]].block));
      }
    } else if a.Enter? {
      assert (s.calls + [AtSelect(a.block)])[..|s.calls|] == s.calls;
    } else if a.CloseStop? {
      WakingAcceptsNobody(s.calls, false);
    } else if a.CloseBlocks? {
      WakingAcceptsNobody(s.calls, true);
    }
  }

  /** Submit returns without an error exactly for the blocks that get into the channel. */
  lemma {:induction false} AcceptedIsSubmitted(s: State, run: seq<Action>)
    requires Inv(s) && Possible(s, run) && multiset(s.submitted) == AcceptedBlocks(s.calls)
    ensures multiset(After(s, run).submitted) == AcceptedBlocks(After(s, run).calls)
    decreases |run|
  {
    if run != [] {
      NextAccepts(s, run[0]);
      NextInv(s, run[0]);
      AcceptedIsSubmitted(Next(s, run[0]), run[1..]);
    }
  }
}
