/** A run that leaves the snapshots reaching only five blocks back: every block is undone and applied
    once more. */
module WindowExample {
  import opened Wrappers
  import opened Bytes
  import opened Chain
  import opened Ledger
  import opened Engine
  import opened EngineRuns

  function PlainBlock(number: U64): Block {
    Block(number, Zeros(32), 0, [])
  }

  /** Apply, undo and apply again, for the blocks k + 1 to n. */
  function Redoing(k: nat, n: nat): seq<Op>
    requires k <= n < U64_LIMIT
    decreases n - k
  {
    if k == n then []
    else [Apply(PlainBlock(k + 1)), RollBack(k), Apply(PlainBlock(k + 1))] + Redoing(k + 1, n)
  }

  /** Two snapshots of each of the last five numbers. */
  ghost predicate Paired(s: State) {
    && |s.history| == (if s.number < 5 then 2 * s.number else MAX_HISTORY_SIZE)
    && forall i :: 0 <= i < |s.history| ==> s.history[i].number == s.number - |s.history| / 2 + i / 2
  }

  lemma PlainApplies(blake3: Digest, s: State, number: U64)
    requires number == s.number + 1
    ensures CleanStep(blake3, s, Apply(PlainBlock(number)))
    ensures var next := Step(blake3, s, Apply(PlainBlock(number))).0;
      next.number == number && next.history == Saved(s)
  {
  }

  /** Undoing the block just applied finds the snapshot just saved, so nothing is cut off. */
  lemma UndoKeepsHistory(s: State, first: State)
    requires Paired(s) && first.history == Saved(s) && first.number == s.number + 1
    ensures Rollback(first, s.number).Some?
    ensures Rollback(first, s.number).value.history == Saved(s)
    ensures Rollback(first, s.number).value.number == s.number
  {
    var h := first.history;
    SavedPairs(s);
    assert h[|h| - 1].number == s.number;
    var p := Position(h, s.number).value;
    assert p == |h| - 1;
    assert h[..|h|] == h;
  }

  lemma SavedPairs(s: State)
    requires Paired(s)
    ensures Saved(s) != [] && Saved(s)[|Saved(s)| - 1] == Snapshot(s.number, s.accounts, s.root)
    ensures forall i :: 0 <= i < |Saved(s)| - 1 ==> Saved(s)[i].number < s.number
  {
  }

  lemma SavedTwice(s: State, back: State)
    requires Paired(s) && back.history == Saved(s) && back.number == s.number
    ensures var two := [Snapshot(s.number, s.accounts, s.root), Snapshot(back.number, back.accounts, back.root)];
      Saved(back) == (if s.number < 5 then s.history else s.history[2..]) + two
  {
  }

  lemma RedoOnce(s: State, back: State, again: State)
    requires Paired(s) && back.history == Saved(s) && back.number == s.number
    requires again.history == Saved(back) && again.number == s.number + 1
    ensures Paired(again)
  {
    SavedTwice(s, back);
  }

  lemma FirstOp(blake3: Digest, t: Track, op: Op, rest: seq<Op>)
    ensures Run(blake3, t, [op] + rest) == Run(blake3, TrackStep(blake3, t, op), rest)
    ensures Clean(blake3, t, [op] + rest)
       <==> CleanStep(blake3, t.state, op) && Clean(blake3, TrackStep(blake3, t, op), rest)
  {
    assert ([op] + rest)[1..] == rest;
  }

  lemma FirstThreeOps(blake3: Digest, t: Track, x: Op, y: Op, z: Op, rest: seq<Op>)
    ensures var t1 := TrackStep(blake3, t, x);
      var t2 := TrackStep(blake3, t1, y);
      var t3 := TrackStep(blake3, t2, z);
      && Run(blake3, t, [x, y, z] + rest) == Run(blake3, t3, rest)
      && (CleanStep(blake3, t.state, x) && CleanStep(blake3, t1.state, y) && CleanStep(blake3, t2.state, z)
          && Clean(blake3, t3, rest)
          ==> Clean(blake3, t, [x, y, z] + rest))
  {
    var t1 := TrackStep(blake3, t, x);
    var t2 := TrackStep(blake3, t1, y);
    FirstOp(blake3, t2, z, rest);
    FirstOp(blake3, t1, y, [z] + rest);
    FirstOp(blake3, t, x, [y] + ([z] + rest));
    assert [x, y, z] + rest == [x] + ([y] + ([z] + rest));
  }

  /** One block undone and applied once more. */
  lemma RedoStep(blake3: Digest, t: Track, n: U64)
    requires n > 0 && t.state.number == n - 1 == t.highest && Paired(t.state)
    ensures var t1 := TrackStep(blake3, t, Apply(PlainBlock(n)));
      var t2 := TrackStep(blake3, t1, RollBack(n - 1));
      var t3 := TrackStep(blake3, t2, Apply(PlainBlock(n)));
      && CleanStep(blake3, t.state, Apply(PlainBlock(n))) && CleanStep(blake3, t1.state, RollBack(n - 1))
      && CleanStep(blake3, t2.state, Apply(PlainBlock(n)))
      && t3.state.number == n == t3.highest && Paired(t3.state)
  {
    var t1 := TrackStep(blake3, t, Apply(PlainBlock(n)));
    PlainApplies(blake3, t.state, n);
    UndoKeepsHistory(t.state, t1.state);
    var t2 := TrackStep(blake3, t1, RollBack(n - 1));
    PlainApplies(blake3, t2.state, n);
    RedoOnce(t.state, t2.state, TrackStep(blake3, t2, Apply(PlainBlock(n))).state);
  }

  ghost function Redone(blake3: Digest, t: Track, n: U64): Track
    requires n > 0
  {
    var x, y := Apply(PlainBlock(n)), RollBack(n - 1);
    TrackStep(blake3, TrackStep(blake3, TrackStep(blake3, t, x), y), x)
  }

  lemma RedoneOnce(blake3: Digest, t: Track, n: U64, rest: seq<Op>)
    requires n > 0 && t.state.number == n - 1 == t.highest && Paired(t.state)
    ensures var t3, ops := Redone(blake3, t, n), [Apply(PlainBlock(n)), RollBack(n - 1), Apply(PlainBlock(n))] + rest;
      && t3.state.number == n == t3.highest && Paired(t3.state)
      && Run(blake3, t, ops) == Run(blake3, t3, rest)
      && (Clean(blake3, t3, rest) ==> Clean(blake3, t, ops))
  {
    RedoStep(blake3, t, n);
    FirstThreeOps(blake3, t, Apply(PlainBlock(n)), RollBack(n - 1), Apply(PlainBlock(n)), rest);
  }

  lemma {:induction false} RedoingRun(blake3: Digest, t: Track, k: nat, n: nat)
    requires k <= n < U64_LIMIT
    requires t.state.number == k == t.highest && Paired(t.state)
    ensures Clean(blake3, t, Redoing(k, n))
    ensures var end := Run(blake3, t, Redoing(k, n));
      end.state.number == n == end.highest && Paired(end.state)
    decreases n - k
  {
    if k < n {
      RedoneOnce(blake3, t, k + 1, Redoing(k + 1, n));
      RedoingRun(blake3, Redone(blake3, t, k + 1), k + 1, n);
    }
  }

  /** After such a run of n blocks a rollback succeeds for the last five numbers below the tip and for no
      other: the guarantee of five blocks is the best there is. */
  lemma FiveIsReached(blake3: Digest, genesis: Accounts, n: nat, target: U64)
    requires 0 < n < U64_LIMIT
    ensures Clean(blake3, Start(genesis), Redoing(0, n))
    ensures Rollback(Run(blake3, Start(genesis), Redoing(0, n)).state, target).Some? <==> Max(0, n - 5) <= target < n
  {
    RedoingRun(blake3, Start(genesis), 0, n);
    RunKeepsWindow(blake3, genesis, Redoing(0, n));
    var end := Run(blake3, Start(genesis), Redoing(0, n));
    WindowedIsGapless(end.state, end.highest);
    RollbackSucceedsIff(end.state, target);
  }
}
