/** What a cancelled context does to the worker pool: the work in progress is finished, nothing else is begun. */
module PoolCancel {
  import opened Wrappers
  import opened Chain
  import opened Pool

  /** 1 for a worker that is processing this block. */
  function InProcess(b: Block): Worker -> nat {
    (w: Worker) => if w.Processing? && w.block == b then 1 else 0
  }

  /** 1 for a worker that may still take a block off the channel. */
  function MayTake(): Worker -> nat {
    (w: Worker) => if w.Unstarted? || w.Idle? || w.Processing? then 1 else 0
  }

  /** A worker that goes on processing has been at that very block all along. */
  ghost predicate NothingBegun(s: State, end: State) {
    && |end.workers| == |s.workers|
    && forall w :: 0 <= w < |s.workers| && end.workers[w].Processing? ==> end.workers[w] == s.workers[w]
  }

  /** Handled or being processed, the same blocks as often. */
  ghost predicate SameWork(s: State, end: State, b: Block) {
    multiset(end.handled)[b] + Sum(end.workers, InProcess(b)) == multiset(s.handled)[b] + Sum(s.workers, InProcess(b))
  }

  lemma CancelledFinish(s: State, w: nat, outcome: Outcome, b: Block)
    requires s.cancelled && Enabled(s, Finish(w, outcome))
    ensures SameWork(s, Next(s, Finish(w, outcome)), b)
  {
    SumAfter(s.workers, w, Idle, InProcess(b));
    CountOneMore(s.handled, s.workers[w].block, b);
  }

  lemma CancelledMove(s: State, a: Action, b: Block)
    requires s.cancelled && Enabled(s, a) && Actor(a).Some? && !a.Finish?
    ensures SameWork(s, Next(s, a), b)
  {
    WorkerMoves(s, a);
    StaysOutOfWork(s, a);
    SumAfter(s.workers, Actor(a).value, Next(s, a).workers[Actor(a).value], InProcess(b));
  }

  lemma StaysOutOfWork(s: State, a: Action)
    requires s.cancelled && Enabled(s, a) && Actor(a).Some? && !a.Finish?
    ensures var w := Actor(a).value; !s.workers[w].Processing? && !Next(s, a).workers[w].Processing?
    ensures Next(s, a).handled == s.handled
  {
  }

  lemma CancelledStep(s: State, a: Action)
    requires s.cancelled && Enabled(s, a)
    ensures Next(s, a).cancelled && NothingBegun(s, Next(s, a)) && forall b :: SameWork(s, Next(s, a), b)
  {
    forall b
      ensures SameWork(s, Next(s, a), b)
    {
      if a.Finish? {
        CancelledFinish(s, a.w, a.outcome, b);
      } else if Actor(a).Some? {
        CancelledMove(s, a, b);
      } else {
        OthersLeaveWorkers(s, a);
      }
    }
    if Actor(a).Some? {
      WorkerMoves(s, a);
      if !a.Finish? {
        StaysOutOfWork(s, a);
      }
    } else {
      OthersLeaveWorkers(s, a);
    }
  }

  /** Once the context is done no worker begins to process a block, in any interleaving: the blocks handled from
      then on are exactly those that were being processed at that moment, each by the worker that had it. */
  lemma {:induction false} CancelledBeginsNothing(s: State, run: seq<Action>)
    requires s.cancelled && Possible(s, run)
    ensures var end := After(s, run); end.cancelled && NothingBegun(s, end) && forall b :: SameWork(s, end, b)
    decreases |run|
  {
    if run != [] {
      var next, end := Next(s, run[0]), After(s, run);
      CancelledStep(s, run[0]);
      CancelledBeginsNothing(next, run[1..]);
      forall b
        ensures SameWork(s, end, b)
      {
        assert SameWork(s, next, b) && SameWork(next, end, b);
      }
    }
  }

  /** When all workers are gone afterwards, what was being processed has been handled and nothing else. */
  lemma CancelledHandles(s: State, run: seq<Action>, b: Block)
    requires s.cancelled && Possible(s, run) && AllGone(After(s, run))
    ensures multiset(After(s, run).handled)[b] == multiset(s.handled)[b] + Sum(s.workers, InProcess(b))
  {
    CancelledBeginsNothing(s, run);
    assert SameWork(s, After(s, run), b);
    SumOfZeros(After(s, run).workers, InProcess(b));
  }

  /** A worker that has received a block and not yet looked at the context gives the block up with its next step,
      and leaves. */
  lemma ReceivedIsDropped(s: State, a: Action, w: nat)
    requires s.cancelled && w < |s.workers| && s.workers[w].Received?
    requires Enabled(s, a) && Actor(a) == Some(w)
    ensures var s' := Next(s, a);
      && s'.dropped == s.dropped + [s.workers[w].block] && s'.handled == s.handled
      && s'.workers[w].Leaving?
  {
  }

  /** And nobody else takes it away. */
  lemma ReceivedStays(s: State, a: Action, w: nat)
    requires w < |s.workers| && s.workers[w].Received? && Enabled(s, a) && Actor(a) != Some(w)
    ensures w < |Next(s, a).workers| && Next(s, a).workers[w] == s.workers[w]
  {
  }

  lemma TakingUsesUp(s: State, a: Action)
    requires s.cancelled && Enabled(s, a)
    ensures |Next(s, a).dequeued| + Sum(Next(s, a).workers, MayTake()) <= |s.dequeued| + Sum(s.workers, MayTake())
  {
    if Actor(a).Some? {
      WorkerMoves(s, a);
      SumAfter(s.workers, Actor(a).value, Next(s, a).workers[Actor(a).value], MayTake());
    } else {
      OthersLeaveWorkers(s, a);
    }
  }

  lemma {:induction false} SumAtMostOne(workers: seq<Worker>)
    ensures Sum(workers, MayTake()) <= |workers|
  {
    if workers != [] {
      SumAtMostOne(workers[..|workers| - 1]);
    }
  }

  lemma {:induction false} TakesFrom(s: State, run: seq<Action>)
    requires s.cancelled && Possible(s, run)
    ensures |After(s, run).dequeued| + Sum(After(s, run).workers, MayTake())
         <= |s.dequeued| + Sum(s.workers, MayTake())
    decreases |run|
  {
    if run != [] {
      TakingUsesUp(s, run[0]);
      CancelledStep(s, run[0]);
      TakesFrom(Next(s, run[0]), run[1..]);
    }
  }

  /** Each worker takes at most one more block off the channel. So if more blocks wait than there are workers, some
      are still in the channel at the end, neither handled nor dropped. */
  lemma CancelledLeavesBlocks(n: nat, before: seq<Action>, run: seq<Action>)
    requires ValidCount(n) && Possible(Start(n), before)
    requires var s := After(Start(n), before); s.cancelled && Possible(s, run)
    ensures var s := After(Start(n), before);
      var end := After(s, run);
      |end.dequeued| <= |s.dequeued| + n && |end.queue| + n >= |s.queue|
  {
    var s := After(Start(n), before);
    TakesFrom(s, run);
    WorkersStay(Start(n), before);
    SumAtMostOne(s.workers);
    PossibleAppend(Start(n), before, run);
    EveryRun(n, before);
    EveryRun(n, before + run);
    SubmittedGrows(s, run);
  }

  lemma {:induction false} SubmittedGrows(s: State, run: seq<Action>)
    requires Possible(s, run)
    ensures |After(s, run).submitted| >= |s.submitted|
    decreases |run|
  {
    if run != [] {
      SubmittedGrows(Next(s, run[0]), run[1..]);
    }
  }
}
