/** Whole runs of the state engine: any sequence of applies and rollbacks. */
module EngineRuns {
  import opened Wrappers
  import opened Bytes
  import opened Chain
  import opened Ledger
  import opened Engine
  import opened Replays

  datatype Op = Apply(block: Block) | RollBack(target: U64)

  /** Refused calls change nothing; a block that fails in a transaction leaves a trace. */
  datatype Effect = Done | Refused | HalfDone

  ghost function Step(blake3: Digest, s: State, op: Op): (State, Effect) {
    match op
    case Apply(b) =>
      var (next, r) := Engine.Apply(blake3, s, b);
      (next, if r.Ok? then Done else if r.error.InvalidBlockNumber? then Refused else HalfDone)
    case RollBack(target) =>
      match Rollback(s, target)
      case None => (s, Refused)
      case Some(back) => (back, Done)
  }

  /** No block fails half way, and no block is taken at the wrap-around of the block number. */
  ghost predicate CleanStep(blake3: Digest, s: State, op: Op) {
    var effect := Step(blake3, s, op).1;
    effect != HalfDone && (effect == Done && op.Apply? ==> op.block.number != 0)
  }

  /** The reference: an apply that is done appends, a rollback that is done takes a prefix. */
  function BranchStep(branch: seq<Block>, op: Op, effect: Effect): seq<Block> {
    if effect != Done then branch
    else
      match op
      case Apply(b) => branch + [b]
      case RollBack(target) => if target <= |branch| then branch[..target] else branch
  }

  datatype Track = Track(state: State, branch: seq<Block>, highest: nat)

  ghost function TrackStep(blake3: Digest, t: Track, op: Op): Track {
    var (next, effect) := Step(blake3, t.state, op);
    Track(next, BranchStep(t.branch, op, effect), if next.number > t.highest then next.number else t.highest)
  }

  ghost function Run(blake3: Digest, t: Track, ops: seq<Op>): Track
    decreases |ops|
  {
    if ops == [] then t else Run(blake3, TrackStep(blake3, t, ops[0]), ops[1..])
  }

  ghost predicate Clean(blake3: Digest, t: Track, ops: seq<Op>)
    decreases |ops|
  {
    ops == [] || (CleanStep(blake3, t.state, ops[0]) && Clean(blake3, TrackStep(blake3, t, ops[0]), ops[1..]))
  }

  function Start(genesis: Accounts): Track {
    Track(Genesis(genesis), [], 0)
  }

  lemma StepAgrees(blake3: Digest, genesis: Accounts, t: Track, op: Op)
    requires Agrees(blake3, genesis, t.branch, t.state)
    requires CleanStep(blake3, t.state, op)
    ensures Agrees(blake3, genesis, TrackStep(blake3, t, op).branch, TrackStep(blake3, t, op).state)
  {
    match op
    case Apply(b) =>
      if Engine.Apply(blake3, t.state, b).1.Ok? {
        ApplyExtends(blake3, genesis, t.branch, t.state, b);
      }
    case RollBack(target) =>
      if Rollback(t.state, target).Some? {
        RollbackTakesPrefix(blake3, genesis, t.branch, t.state, target);
      }
  }

  lemma {:induction false} RunAgreesFrom(blake3: Digest, genesis: Accounts, t: Track, ops: seq<Op>)
    requires Agrees(blake3, genesis, t.branch, t.state)
    requires Clean(blake3, t, ops)
    ensures Agrees(blake3, genesis, Run(blake3, t, ops).branch, Run(blake3, t, ops).state)
    decreases |ops|
  {
    if ops != [] {
      StepAgrees(blake3, genesis, t, ops[0]);
      RunAgreesFrom(blake3, genesis, TrackStep(blake3, t, ops[0]), ops[1..]);
    }
  }

  /** The bounded snapshot history refines the simple specification: on every clean run the engine
      holds the replay of the current branch, and so do its snapshots for their prefixes. */
  lemma RunRefinesReplay(blake3: Digest, genesis: Accounts, ops: seq<Op>)
    requires Clean(blake3, Start(genesis), ops)
    ensures var end := Run(blake3, Start(genesis), ops);
      Agrees(blake3, genesis, end.branch, end.state)
  {
    GenesisAgrees(blake3, genesis);
    RunAgreesFrom(blake3, genesis, Start(genesis), ops);
  }

  function Max(a: int, b: int): int { if a >= b then a else b }

  /** The i-th number is the one before it or the next. */
  ghost predicate NoSkipAt(h: seq<Snapshot>, i: nat)
    requires i < |h|
  {
    i >= 1 ==> h[i - 1].number <= h[i].number <= h[i - 1].number + 1
  }

  ghost predicate NoSkip(h: seq<Snapshot>) {
    forall i: nat :: i < |h| ==> NoSkipAt(h, i)
  }

  /** Besides, it differs from the one two before it. */
  ghost predicate ClimbsAt(h: seq<Snapshot>, i: nat)
    requires i < |h|
  {
    NoSkipAt(h, i) && (i >= 2 ==> h[i - 2].number < h[i].number)
  }

  /** Numbers that never skip one and repeat at most once. */
  ghost predicate Climbing(h: seq<Snapshot>) {
    forall i: nat :: i < |h| ==> ClimbsAt(h, i)
  }

  /** The history ends at the tip, or one below it. */
  ghost predicate NearTip(h: seq<Snapshot>, tip: nat) {
    if h == [] then tip == 0 else h[|h| - 1].number <= tip <= h[|h| - 1].number + 1
  }

  ghost predicate ReachesTip(h: seq<Snapshot>, tip: nat) {
    NearTip(h, tip) && (|h| > 1 && h[|h| - 1].number == tip ==> h[|h| - 2].number < tip)
  }

  /** What every run keeps of the retained numbers, half-applied blocks included: at most ten, no gap, ending
      at the tip or one below it. */
  ghost predicate Gapless(s: State) {
    |s.history| <= MAX_HISTORY_SIZE && NoSkip(s.history) && NearTip(s.history, s.number)
  }

  lemma SaveIsGapless(s: State)
    requires Gapless(s)
    ensures Saved(s) != [] && |Saved(s)| <= MAX_HISTORY_SIZE && NoSkip(Saved(s))
    ensures Saved(s)[|Saved(s)| - 1] == Snapshot(s.number, s.accounts, s.root)
  {
    var all := s.history + [Snapshot(s.number, s.accounts, s.root)];
    assert forall i: nat :: i < |all| ==> NoSkipAt(all, i) by {
      forall i: nat | i < |all|
        ensures NoSkipAt(all, i)
      {
        assert i < |s.history| ==> NoSkipAt(s.history, i);
      }
    }
    var from := |all| - |Saved(s)|;
    forall i: nat | i < |Saved(s)|
      ensures NoSkipAt(Saved(s), i)
    {
      assert NoSkipAt(all, from + i);
    }
  }

  lemma RollbackStaysGapless(s: State, target: U64)
    requires Gapless(s) && Rollback(s, target).Some?
    ensures Gapless(Rollback(s, target).value)
  {
    var kept := Rollback(s, target).value.history;
    forall i: nat | i < |kept|
      ensures NoSkipAt(kept, i)
    {
      assert NoSkipAt(s.history, i);
    }
  }

  /** Every step that does not wrap the block number keeps the history gapless. */
  lemma StepStaysGapless(blake3: Digest, s: State, op: Op)
    requires Gapless(s)
    requires op.Apply? && Step(blake3, s, op).1 == Done ==> op.block.number != 0
    ensures Gapless(Step(blake3, s, op).0)
  {
    match op
    case Apply(b) => SaveIsGapless(s);
    case RollBack(target) =>
      if Rollback(s, target).Some? {
        RollbackStaysGapless(s, target);
      }
  }

  /** The shape of the retained numbers: no gap, at most two copies of each, ending at the tip or
      one below it, at most ten, and reaching at least five blocks below the highest tip seen. */
  ghost predicate Windowed(s: State, highest: nat) {
    && |s.history| <= MAX_HISTORY_SIZE
    && s.number <= highest
    && Climbing(s.history)
    && ReachesTip(s.history, s.number)
    && (s.history != [] ==> s.history[0].number <= Max(0, highest - 5))
  }

  lemma {:induction false} NumbersClimb(h: seq<Snapshot>, i: nat, j: nat)
    requires Climbing(h)
    requires i <= j < |h|
    ensures h[i].number + (j - i) / 2 <= h[j].number <= h[i].number + (j - i)
    decreases j
  {
    assert ClimbsAt(h, j);
    if j - i >= 2 {
      NumbersClimb(h, i, j - 2);
      assert ClimbsAt(h, j - 1);
    }
  }

  lemma AppendClimbs(h: seq<Snapshot>, tip: nat, last: Snapshot)
    requires Climbing(h) && ReachesTip(h, tip) && last.number == tip
    ensures Climbing(h + [last]) && ReachesTip(h + [last], tip + 1)
  {
    forall i: nat | i < |h + [last]|
      ensures ClimbsAt(h + [last], i)
    {
      assert i < |h| ==> ClimbsAt(h, i);
      assert i == |h| > 1 ==> ClimbsAt(h, i - 1) && NoSkipAt(h, i - 1);
    }
  }

  lemma SuffixClimbs(h: seq<Snapshot>, from: nat)
    requires from <= |h| && Climbing(h)
    ensures Climbing(h[from..])
  {
    forall i: nat | i < |h[from..]|
      ensures ClimbsAt(h[from..], i)
    {
      assert ClimbsAt(h, from + i);
    }
  }

  lemma PrefixClimbs(h: seq<Snapshot>, to: nat)
    requires to <= |h| && Climbing(h)
    ensures Climbing(h[..to])
  {
    forall i: nat | i < to
      ensures ClimbsAt(h[..to], i)
    {
      assert ClimbsAt(h, i);
    }
  }

  lemma SaveKeepsWindow(s: State, highest: nat)
    requires Windowed(s, highest)
    ensures |Saved(s)| > 0 && Climbing(Saved(s)) && ReachesTip(Saved(s), s.number + 1)
    ensures Saved(s)[0].number <= Max(0, Max(s.number + 1, highest) - 5)
  {
    var all := s.history + [Snapshot(s.number, s.accounts, s.root)];
    AppendClimbs(s.history, s.number, Snapshot(s.number, s.accounts, s.root));
    if |all| > MAX_HISTORY_SIZE {
      SuffixClimbs(all, 1);
      NumbersClimb(all, 1, |all| - 1);
    }
  }

  lemma ApplyKeepsWindow(blake3: Digest, s: State, highest: nat, b: Block)
    requires Windowed(s, highest) && CleanStep(blake3, s, Op.Apply(b))
    ensures var next := Engine.Apply(blake3, s, b).0; Windowed(next, Max(next.number, highest))
  {
    SaveKeepsWindow(s, highest);
  }

  lemma RollbackKeepsWindow(s: State, highest: nat, target: U64)
    requires Windowed(s, highest) && Rollback(s, target).Some?
    ensures Windowed(Rollback(s, target).value, highest)
  {
    var p := Position(s.history, target).value;
    NumbersClimb(s.history, p, |s.history| - 1);
    PrefixClimbs(s.history, p + 1);
    assert ClimbsAt(s.history, p);
  }

  lemma StepKeepsWindow(blake3: Digest, t: Track, op: Op)
    requires Windowed(t.state, t.highest)
    requires CleanStep(blake3, t.state, op)
    ensures Windowed(TrackStep(blake3, t, op).state, TrackStep(blake3, t, op).highest)
  {
    match op
    case Apply(b) => ApplyKeepsWindow(blake3, t.state, t.highest, b);
    case RollBack(target) =>
      if Rollback(t.state, target).Some? {
        RollbackKeepsWindow(t.state, t.highest, target);
      }
  }

  lemma {:induction false} RunKeepsWindowFrom(blake3: Digest, t: Track, ops: seq<Op>)
    requires Windowed(t.state, t.highest)
    requires Clean(blake3, t, ops)
    ensures Windowed(Run(blake3, t, ops).state, Run(blake3, t, ops).highest)
    decreases |ops|
  {
    if ops != [] {
      StepKeepsWindow(blake3, t, ops[0]);
      RunKeepsWindowFrom(blake3, TrackStep(blake3, t, ops[0]), ops[1..]);
    }
  }

  lemma RunKeepsWindow(blake3: Digest, genesis: Accounts, ops: seq<Op>)
    requires Clean(blake3, Start(genesis), ops)
    ensures var end := Run(blake3, Start(genesis), ops);
      Windowed(end.state, end.highest)
  {
    RunKeepsWindowFrom(blake3, Start(genesis), ops);
  }

  /** A rollback succeeds exactly for the targets between the oldest and the newest number kept. */
  lemma RollbackSucceedsIff(s: State, target: U64)
    requires Gapless(s) && s.history != []
    ensures Rollback(s, target).Some?
       <==> s.history[0].number <= target <= s.history[|s.history| - 1].number
  {
    var h := s.history;
    if Position(h, target).Some? {
      Rises(h, 0, Position(h, target).value);
      Rises(h, Position(h, target).value, |h| - 1);
    } else if h[0].number <= target <= h[|h| - 1].number {
      NoGap(h, target, |h| - 1);
    }
  }

  lemma {:induction false} Rises(h: seq<Snapshot>, i: nat, j: nat)
    requires NoSkip(h) && i <= j < |h|
    ensures h[i].number <= h[j].number
    decreases j
  {
    if i < j {
      Rises(h, i, j - 1);
      assert NoSkipAt(h, j);
    }
  }

  lemma {:induction false} NoGap(h: seq<Snapshot>, target: nat, j: nat)
    requires NoSkip(h)
    requires j < |h| && h[0].number <= target <= h[j].number
    ensures exists i :: 0 <= i <= j && h[i].number == target
    decreases j
  {
    assert NoSkipAt(h, j);
    if h[j].number != target {
      NoGap(h, target, j - 1);
    }
  }

  lemma WindowedIsGapless(s: State, highest: nat)
    requires Windowed(s, highest)
    ensures Gapless(s)
  {
    forall i: nat | i < |s.history|
      ensures NoSkipAt(s.history, i)
    {
      assert ClimbsAt(s.history, i);
    }
  }

  /** Without rollbacks the last ten blocks, and only they, can be undone. */
  ghost predicate Straight(s: State) {
    && |s.history| == (if s.number < MAX_HISTORY_SIZE then s.number else MAX_HISTORY_SIZE)
    && forall i :: 0 <= i < |s.history| ==> s.history[i].number == s.number - |s.history| + i
  }

  lemma SaveStaysStraight(s: State, next: State)
    requires Straight(s) && next.history == Saved(s) && next.number == s.number + 1
    ensures Straight(next)
  {
  }

  lemma StepStaysStraight(blake3: Digest, t: Track, op: Op)
    requires Straight(t.state) && CleanStep(blake3, t.state, op) && op.Apply?
    ensures Straight(TrackStep(blake3, t, op).state)
  {
    var next := Engine.Apply(blake3, t.state, op.block).0;
    if next != t.state {
      SaveStaysStraight(t.state, next);
    }
  }

  lemma {:induction false} RunWithoutRollback(blake3: Digest, t: Track, ops: seq<Op>)
    requires Straight(t.state)
    requires Clean(blake3, t, ops) && forall i :: 0 <= i < |ops| ==> ops[i].Apply?
    ensures Straight(Run(blake3, t, ops).state)
    decreases |ops|
  {
    if ops != [] {
      StepStaysStraight(blake3, t, ops[0]);
      RunWithoutRollback(blake3, TrackStep(blake3, t, ops[0]), ops[1..]);
    }
  }
}
