/** Whole runs of calls over the boundary: the two block numbers, and what a second start does. */
module FfiRuns {
  import opened Wrappers
  import opened Bytes
  import opened Chain
  import opened Engine
  import opened EngineRuns
  import opened Ffi

  ghost function Call(blake3: Digest, c: Client, op: Op): Client {
    match op
    case Apply(b) => ClientApply(blake3, c, b).0
    case RollBack(target) => if ClientRollback(c, target).Some? then ClientRollback(c, target).value else c
  }

  ghost function Calls(blake3: Digest, c: Client, ops: seq<Op>): Client
    decreases |ops|
  {
    if ops == [] then c else Calls(blake3, Call(blake3, c, ops[0]), ops[1..])
  }

  /** Whatever is called, successful or not, the mirrored number stays the engine's. */
  lemma {:induction false} CallsKeepLockStep(blake3: Digest, c: Client, ops: seq<Op>)
    requires LockStep(c)
    ensures LockStep(Calls(blake3, c, ops))
    ensures c.core.Some? ==> Calls(blake3, c, ops).core.Some?
    decreases |ops|
  {
    if ops != [] {
      CallKeepsLockStep(blake3, c, ops[0]);
      CallsKeepLockStep(blake3, Call(blake3, c, ops[0]), ops[1..]);
    }
  }

  lemma CallKeepsLockStep(blake3: Digest, c: Client, op: Op)
    requires LockStep(c)
    ensures LockStep(Call(blake3, c, op))
    ensures c.core.Some? ==> Call(blake3, c, op).core.Some?
  {
    match op
    case Apply(b) =>
      ApplyKeepsLockStep(blake3, c, b);
      ApplyReachesEngine(blake3, c, b);
    case RollBack(target) =>
      if ClientRollback(c, target).Some? {
        RollbackKeepsLockStep(c, target);
      }
  }

  /** After any calls since the start of the engine, the wrapper refuses a number exactly when the engine would
      refuse it and some block has been applied; before that the engine refuses it alone. Either way nothing
      changes. */
  lemma NumbersAreCheckedAlike(blake3: Digest, ops: seq<Op>, b: Block)
    ensures var c := Calls(blake3, ClientInit(Uninitialised()), ops);
      && c.core.Some?
      && var refused, e := b.number != NextNumber(c.core.value), ValidateBlock(b, c.last);
      && (e.Some? && e.value.NonMonotonicNumber? <==> refused && c.last > 0)
      && (refused ==> ClientApply(blake3, c, b).1.Err? && ClientApply(blake3, c, b).0 == c)
  {
    var c := Calls(blake3, ClientInit(Uninitialised()), ops);
    CallsKeepLockStep(blake3, ClientInit(Uninitialised()), ops);
    NumbersAgree(blake3, c, b);
  }

  /** A client whose engine was started again after blocks had been applied. */
  ghost predicate Restarted(c: Client) {
    c.last > 0 && c.core == Some(Genesis(map[]))
  }

  lemma RestartedRefuses(blake3: Digest, c: Client, op: Op)
    requires Restarted(c)
    ensures Call(blake3, c, op) == c
    ensures match op
            case Apply(b) => ClientApply(blake3, c, b).1.Err?
            case RollBack(target) => ClientRollback(c, target).None?
  {
    match op
    case Apply(b) => RestartedRefusesBlock(blake3, c, b);
    case RollBack(_) =>
  }

  lemma RestartedRefusesBlock(blake3: Digest, c: Client, b: Block)
    requires Restarted(c)
    ensures ClientApply(blake3, c, b).0 == c && ClientApply(blake3, c, b).1.Err?
  {
    ApplyReachesEngine(blake3, c, b);
    NumbersDisagree(c.last);
    assert NextNumber(c.core.value) == 1;
  }

  lemma NumbersDisagree(last: U64)
    requires last > 0
    ensures (last + 1) % U64_LIMIT != 1
  {
    if last + 1 < U64_LIMIT {
      SmallModulo(last + 1, U64_LIMIT);
    }
  }

  /** A second start is fatal: every apply and every rollback after it fails, for ever, and changes nothing.
      The wrapper asks for the successor of the old number, the engine for block 1, and no snapshot is left. */
  lemma {:induction false} SecondStartIsFatal(blake3: Digest, c: Client, ops: seq<Op>, op: Op)
    requires LockStep(c) && c.last > 0
    ensures var end := Calls(blake3, ClientInit(c), ops);
      && end == ClientInit(c) && !LockStep(end)
      && (op.Apply? ==> ClientApply(blake3, end, op.block).1.Err?)
      && (op.RollBack? ==> ClientRollback(end, op.target).None?)
    decreases |ops|
  {
    InitKeepsLockStepIff(c);
    RestartedRefuses(blake3, ClientInit(c), op);
    if ops != [] {
      RestartedRefuses(blake3, ClientInit(c), ops[0]);
      SecondStartIsFatal(blake3, c, ops[1..], op);
    }
  }
}
