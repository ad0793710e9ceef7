/** When Submit waits and when it is refused: exactly at a full channel, and only once the pool is stopped. */
module PoolLimits {
  import opened Chain
  import opened Pool

  // ---- refusals

  /** A refusal means that stopCh was closed. */
  ghost predicate RefusesLate(s: State) {
    forall c :: 0 <= c < |s.calls| && s.calls[c].Refused? ==> s.stopped
  }

  lemma NextRefusesLate(s: State, a: Action)
    requires RefusesLate(s) && Channel(s) && Enabled(s, a)
    ensures RefusesLate(Next(s, a))
  {
  }

  lemma {:induction false} RunRefusesLate(s: State, run: seq<Action>)
    requires RefusesLate(s) && Inv(s) && Possible(s, run)
    ensures RefusesLate(After(s, run))
    decreases |run|
  {
    if run != [] {
      NextRefusesLate(s, run[0]);
      NextInv(s, run[0]);
      RunRefusesLate(Next(s, run[0]), run[1..]);
    }
  }

  /** A call that has returned in some way. */
  ghost predicate ReturnsIn(s: State, run: seq<Action>, c: nat, returned: Call) {
    Possible(s, run) && c < |After(s, run).calls| && After(s, run).calls[c] == returned
  }

  /** Over every run: nobody is refused before the pool is stopped, and from then on every call about to evaluate
      its select may be refused. Until the channel is closed it may also be accepted while there is room. */
  lemma RefusedOnceStopped(n: nat, run: seq<Action>, c: nat)
    requires ValidCount(n) && Possible(Start(n), run)
    requires var s := After(Start(n), run); !s.crashed && c < |s.calls|
    ensures var s := After(Start(n), run);
      && (s.calls[c].Refused? ==> s.stopped)
      && (s.calls[c].AtSelect? ==>
            && (s.stopped <==> ReturnsIn(s, [GiveUp(c)], c, Refused(s.calls[c].block)))
            && (!s.closed && |s.queue| < 2 * n <==> ReturnsIn(s, [Send(c)], c, Accepted(s.calls[c].block))))
  {
    StartInv(n);
    RunRefusesLate(Start(n), run);
    WorkersStay(Start(n), run);
    var s := After(Start(n), run);
    if s.calls[c].AtSelect? {
      if s.stopped {
        OneStep(s, GiveUp(c));
      }
      if !s.closed && |s.queue| < s.capacity {
        OneStep(s, Send(c));
      }
    }
  }

  /** A call can be made at any time, also during and after a shutdown. */
  lemma CallsKeepComing(s: State, b: Block)
    requires !s.crashed
    ensures ReturnsIn(s, [Enter(b)], |s.calls|, AtSelect(b))
  {
    OneStep(s, Enter(b));
  }

  // ---- the capacity

  /** Whoever waits, waits at a channel that holds twice as many blocks as there are workers. */
  lemma WaitsAtFullChannel(n: nat, run: seq<Action>)
    requires ValidCount(n) && Possible(Start(n), run)
    ensures var s := After(Start(n), run);
      (exists c :: 0 <= c < |s.calls| && s.calls[c].Parked?) ==> |s.queue| == 2 * n
  {
    StartInv(n);
    RunKeepsInv(Start(n), run);
    WorkersStay(Start(n), run);
    var s := After(Start(n), run);
    if c :| 0 <= c < |s.calls| && s.calls[c].Parked? {
      assert c in s.parked;
    }
  }

  /** Before any worker runs, k submissions. */
  function Fill(b: Block, k: nat): seq<Action> {
    if k == 0 then [] else Fill(b, k - 1) + [Enter(b), Send(k - 1)]
  }

  lemma {:induction false} FillRuns(n: nat, b: Block, k: nat)
    requires k <= 2 * n
    ensures Possible(Start(n), Fill(b, k))
    ensures var s := After(Start(n), Fill(b, k));
      && |s.queue| == k == |s.calls| && s.capacity == 2 * n && !s.stopped && !s.closed && !s.crashed
    decreases k
  {
    if k > 0 {
      FillRuns(n, b, k - 1);
      var s := After(Start(n), Fill(b, k - 1));
      SubmitOne(s, b);
      PossibleAppend(Start(n), Fill(b, k - 1), [Enter(b), Send(k - 1)]);
    }
  }

  lemma SubmitOne(s: State, b: Block)
    requires !s.crashed && !s.closed && |s.queue| < s.capacity
    ensures var run := [Enter(b), Send(|s.calls|)];
      && Possible(s, run)
      && var end := After(s, run);
      && |end.queue| == |s.queue| + 1 && |end.calls| == |s.calls| + 1 && end.capacity == s.capacity
      && end.stopped == s.stopped && end.closed == s.closed && end.crashed == s.crashed
  {
    OneStep(Next(s, Enter(b)), Send(|s.calls|));
    FirstStep(s, Enter(b), [Send(|s.calls|)]);
    assert [Enter(b)] + [Send(|s.calls|)] == [Enter(b), Send(|s.calls|)];
  }

  /** The channel takes twice as many blocks as there are workers without anyone waiting, and the next call waits. */
  lemma CapacityIsReached(n: nat, b: Block)
    requires ValidCount(n)
    ensures Possible(Start(n), Fill(b, 2 * n))
    ensures var s := After(Start(n), Fill(b, 2 * n));
      && |s.queue| == 2 * n
      && ReturnsIn(s, [Enter(b), Park(|s.calls|)], |s.calls|, Parked(b))
  {
    FillRuns(n, b, 2 * n);
    var s := After(Start(n), Fill(b, 2 * n));
    OneStep(Next(s, Enter(b)), Park(|s.calls|));
    FirstStep(s, Enter(b), [Park(|s.calls|)]);
    assert [Enter(b)] + [Park(|s.calls|)] == [Enter(b), Park(|s.calls|)];
  }
}
