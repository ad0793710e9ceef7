/** What a rollback recovers after blocks that failed half way. */
module Recovery {
  import opened Wrappers
  import opened Bytes
  import opened Chain
  import opened Ledger
  import opened Engine
  import opened Replays
  import opened EngineRuns

  /** Nothing succeeds: every block is refused for its number or fails in a transaction, and every
      rollback in between finds no snapshot. */
  ghost predicate Failing(blake3: Digest, s: State, ops: seq<Op>)
    decreases |ops|
  {
    ops == [] || (var (next, effect) := Step(blake3, s, ops[0]);
                  effect != Done && Failing(blake3, next, ops[1..]))
  }

  /** The state a run ends in. */
  ghost function After(blake3: Digest, s: State, ops: seq<Op>): State {
    Run(blake3, Track(s, [], 0), ops).state
  }

  lemma {:induction false} RunIgnoresTrack(blake3: Digest, t: Track, u: Track, ops: seq<Op>)
    requires t.state == u.state
    ensures Run(blake3, t, ops).state == Run(blake3, u, ops).state
    decreases |ops|
  {
    if ops != [] {
      RunIgnoresTrack(blake3, TrackStep(blake3, t, ops[0]), TrackStep(blake3, u, ops[0]), ops[1..]);
    }
  }

  lemma AfterFirst(blake3: Digest, s: State, ops: seq<Op>)
    requires ops != []
    ensures After(blake3, s, ops) == After(blake3, Step(blake3, s, ops[0]).0, ops[1..])
  {
    var t := Track(s, [], 0);
    RunIgnoresTrack(blake3, TrackStep(blake3, t, ops[0]), Track(Step(blake3, s, ops[0]).0, [], 0), ops[1..]);
  }

  /** The accounts each half-done block started from, oldest first. */
  ghost function StartingAccounts(blake3: Digest, s: State, ops: seq<Op>): seq<Accounts>
    decreases |ops|
  {
    if ops == [] then []
    else
      var (next, effect) := Step(blake3, s, ops[0]);
      (if effect == HalfDone then [s.accounts] else []) + StartingAccounts(blake3, next, ops[1..])
  }

  function Snapshots(number: U64, root: Hash, accounts: seq<Accounts>): (h: seq<Snapshot>)
    ensures |h| == |accounts|
    ensures forall i :: 0 <= i < |h| ==> h[i] == Snapshot(number, accounts[i], root)
  {
    seq(|accounts|, i requires 0 <= i < |accounts| => Snapshot(number, accounts[i], root))
  }

  lemma PrunedTwice(h: seq<Snapshot>, tail: seq<Snapshot>)
    ensures Pruned(Pruned(h) + tail) == Pruned(h + tail)
  {
  }

  lemma FailedStep(blake3: Digest, s: State, op: Op)
    requires Step(blake3, s, op).1 != Done
    ensures var (next, effect) := Step(blake3, s, op);
      && next.number == s.number && next.root == s.root
      && (effect == Refused ==> next == s)
      && (effect == HalfDone ==> next.history == Saved(s))
  {
  }

  /** Failures move neither the number nor the root; each half-done block leaves one snapshot. */
  lemma {:induction false} FailuresOnlyPush(blake3: Digest, s: State, ops: seq<Op>)
    requires Failing(blake3, s, ops) && |s.history| <= MAX_HISTORY_SIZE
    ensures var end := After(blake3, s, ops);
      && end.number == s.number && end.root == s.root
      && end.history == Pruned(s.history + Snapshots(s.number, s.root, StartingAccounts(blake3, s, ops)))
    decreases |ops|
  {
    if ops == [] {
      assert s.history + Snapshots(s.number, s.root, []) == s.history;
    } else {
      var (next, effect) := Step(blake3, s, ops[0]);
      FailedStep(blake3, s, ops[0]);
      AfterFirst(blake3, s, ops);
      FailuresOnlyPush(blake3, next, ops[1..]);
      PushOne(s, StartingAccounts(blake3, next, ops[1..]));
      assert [] + StartingAccounts(blake3, next, ops[1..]) == StartingAccounts(blake3, next, ops[1..]);
    }
  }

  lemma PushOne(s: State, later: seq<Accounts>)
    ensures Pruned(Saved(s) + Snapshots(s.number, s.root, later))
         == Pruned(s.history + Snapshots(s.number, s.root, [s.accounts] + later))
  {
    var one := [Snapshot(s.number, s.accounts, s.root)];
    PrunedTwice(s.history + one, Snapshots(s.number, s.root, later));
    assert s.history + one + Snapshots(s.number, s.root, later)
        == s.history + Snapshots(s.number, s.root, [s.accounts] + later);
  }

  /** A rollback to the current number after k > 0 half-done blocks always succeeds. It restores the
      accounts that the first of the last ten of them started from: the clean accounts when k is at
      most ten, because the oldest matching snapshot is the one taken. */
  lemma FailureRecovery(blake3: Digest, genesis: Accounts, branch: seq<Block>, s: State, ops: seq<Op>)
    requires Agrees(blake3, genesis, branch, s) && |s.history| <= MAX_HISTORY_SIZE
    requires Failing(blake3, s, ops) && StartingAccounts(blake3, s, ops) != []
    ensures var starts := StartingAccounts(blake3, s, ops);
      var back := Rollback(After(blake3, s, ops), s.number);
      && back.Some?
      && back.value.number == s.number && back.value.root == s.root
      && back.value.accounts
         == (if |starts| <= MAX_HISTORY_SIZE then s.accounts else starts[|starts| - MAX_HISTORY_SIZE])
      && (|starts| <= MAX_HISTORY_SIZE ==> Agrees(blake3, genesis, branch, back.value))
  {
    if |StartingAccounts(blake3, s, ops)| <= MAX_HISTORY_SIZE {
      FewRecover(blake3, genesis, branch, s, ops);
    } else {
      OneIsLeft(blake3, s, ops);
    }
  }

  lemma FewRecover(blake3: Digest, genesis: Accounts, branch: seq<Block>, s: State, ops: seq<Op>)
    requires Agrees(blake3, genesis, branch, s) && |s.history| <= MAX_HISTORY_SIZE
    requires Failing(blake3, s, ops) && 0 < |StartingAccounts(blake3, s, ops)| <= MAX_HISTORY_SIZE
    ensures var back := Rollback(After(blake3, s, ops), s.number);
      && back.Some? && Agrees(blake3, genesis, branch, back.value)
      && back.value.accounts == s.accounts && back.value.number == s.number && back.value.root == s.root
  {
    var pushed := Snapshots(s.number, s.root, StartingAccounts(blake3, s, ops));
    FailuresOnlyPush(blake3, s, ops);
    FirstStart(blake3, s, ops);
    FewFailures(blake3, genesis, branch, s, pushed, After(blake3, s, ops));
    AgreementDetermines(blake3, genesis, branch, s, Rollback(After(blake3, s, ops), s.number).value);
  }

  /** Nothing else is left after more than ten. */
  lemma OneIsLeft(blake3: Digest, s: State, ops: seq<Op>)
    requires |s.history| <= MAX_HISTORY_SIZE
    requires Failing(blake3, s, ops) && |StartingAccounts(blake3, s, ops)| > MAX_HISTORY_SIZE
    ensures var starts := StartingAccounts(blake3, s, ops);
      var accounts := starts[|starts| - MAX_HISTORY_SIZE];
      Rollback(After(blake3, s, ops), s.number)
      == Some(State(accounts, s.number, s.root, [Snapshot(s.number, accounts, s.root)]))
  {
    FailuresOnlyPush(blake3, s, ops);
    var end := After(blake3, s, ops);
    ManyFailures(s, Snapshots(s.number, s.root, StartingAccounts(blake3, s, ops)), end);
    assert end.history[..1] == [end.history[0]];
  }

  /** At most ten half-done blocks; or those before the last ten left nothing behind. */
  predicate LeavesNoTrace(starts: seq<Accounts>, clean: Accounts) {
    |starts| <= MAX_HISTORY_SIZE || starts[|starts| - MAX_HISTORY_SIZE] == clean
  }

  /** Exactly when that rollback gives back the replay of the branch. */
  lemma RecoversIff(blake3: Digest, genesis: Accounts, branch: seq<Block>, s: State, ops: seq<Op>)
    requires Agrees(blake3, genesis, branch, s) && |s.history| <= MAX_HISTORY_SIZE
    requires Failing(blake3, s, ops) && StartingAccounts(blake3, s, ops) != []
    ensures var starts := StartingAccounts(blake3, s, ops);
      var back := Rollback(After(blake3, s, ops), s.number);
      && back.Some?
      && (Agrees(blake3, genesis, branch, back.value) <==> LeavesNoTrace(starts, s.accounts))
  {
    FailureRecovery(blake3, genesis, branch, s, ops);
    if |StartingAccounts(blake3, s, ops)| > MAX_HISTORY_SIZE {
      OneIsLeft(blake3, s, ops);
      OneSnapshotAgreesIff(blake3, genesis, branch, s, Rollback(After(blake3, s, ops), s.number).value);
    }
  }

  lemma OneSnapshotAgreesIff(blake3: Digest, genesis: Accounts, branch: seq<Block>, s: State, back: State)
    requires Agrees(blake3, genesis, branch, s)
    requires back.number == s.number && back.root == s.root
    requires back.history == [Snapshot(back.number, back.accounts, back.root)]
    ensures Agrees(blake3, genesis, branch, back) <==> back.accounts == s.accounts
  {
  }

  /** After more than ten half-done blocks every snapshot left has the current number. */
  lemma ManyFailures(s: State, pushed: seq<Snapshot>, end: State)
    requires |pushed| > MAX_HISTORY_SIZE && end.history == Pruned(s.history + pushed)
    requires forall i :: 0 <= i < |pushed| ==> pushed[i].number == s.number
    ensures Position(end.history, s.number) == Some(0)
    ensures end.history[0] == pushed[|pushed| - MAX_HISTORY_SIZE]
  {
  }

  /** After at most ten, the oldest match is clean, whether it was saved before or is the first pushed. */
  lemma FewFailures(blake3: Digest, genesis: Accounts, branch: seq<Block>, s: State, pushed: seq<Snapshot>, end: State)
    requires Agrees(blake3, genesis, branch, s)
    requires 0 < |pushed| <= MAX_HISTORY_SIZE && pushed[0] == Snapshot(s.number, s.accounts, s.root)
    requires end.history == Pruned(s.history + pushed) && |s.history| <= MAX_HISTORY_SIZE
    ensures Rollback(end, s.number).Some? && Agrees(blake3, genesis, branch, Rollback(end, s.number).value)
  {
    var clean := s.history + [pushed[0]];
    CleanHistory(blake3, genesis, branch, s, clean);
    var dropped := PrunedOverlap(s.history, pushed);
    assert end.history[|s.history| - dropped].number == s.number;
    var p := Position(end.history, s.number).value;
    SliceOfClean(blake3, genesis, branch, s, clean, dropped, end.history[..p + 1]);
  }

  lemma PrunedOverlap(h: seq<Snapshot>, pushed: seq<Snapshot>) returns (dropped: nat)
    requires |h| <= MAX_HISTORY_SIZE && 0 < |pushed| <= MAX_HISTORY_SIZE
    ensures dropped <= |h| && |Pruned(h + pushed)| > |h| - dropped
    ensures forall i :: 0 <= i <= |h| - dropped ==> Pruned(h + pushed)[i] == (h + [pushed[0]])[dropped + i]
  {
    dropped := |h + pushed| - |Pruned(h + pushed)|;
  }

  lemma SliceOfClean(
        blake3: Digest, genesis: Accounts, branch: seq<Block>, s: State, clean: seq<Snapshot>, from: nat,
        slice: seq<Snapshot>)
    requires Agrees(blake3, genesis, branch, s)
    requires RecallsAll(blake3, genesis, branch, clean) && NonDecreasing(clean)
    requires slice != [] && from + |slice| <= |clean|
    requires forall i :: 0 <= i < |slice| ==> slice[i] == clean[from + i]
    requires slice[|slice| - 1].number == s.number
    ensures var last := slice[|slice| - 1];
      Agrees(blake3, genesis, branch, State(last.accounts, last.number, last.root, slice))
  {
    forall i | 0 <= i < |slice|
      ensures Recalls(blake3, genesis, branch, slice[i].number, slice[i].accounts, slice[i].root)
    {
      assert slice[i] == clean[from + i];
    }
  }

  lemma CleanHistory(blake3: Digest, genesis: Accounts, branch: seq<Block>, s: State, clean: seq<Snapshot>)
    requires Agrees(blake3, genesis, branch, s)
    requires clean == s.history + [Snapshot(s.number, s.accounts, s.root)]
    ensures RecallsAll(blake3, genesis, branch, clean) && NonDecreasing(clean)
  {
  }

  lemma {:induction false} FirstStart(blake3: Digest, s: State, ops: seq<Op>)
    requires Failing(blake3, s, ops) && StartingAccounts(blake3, s, ops) != []
    ensures StartingAccounts(blake3, s, ops)[0] == s.accounts
    decreases |ops|
  {
    var (next, effect) := Step(blake3, s, ops[0]);
    if effect == Refused {
      FirstStart(blake3, next, ops[1..]);
    }
  }

  // ---- one run after another

  lemma {:induction false} AfterAppend(blake3: Digest, s: State, first: seq<Op>, later: seq<Op>)
    ensures After(blake3, s, first + later) == After(blake3, After(blake3, s, first), later)
    decreases |first|
  {
    if first == [] {
      assert first + later == later;
    } else {
      AfterFirst(blake3, s, first);
      AfterFirst(blake3, s, first + later);
      AfterAppend(blake3, Step(blake3, s, first[0]).0, first[1..], later);
      TailOfAppend(first, later);
    }
  }

  lemma {:induction false} FailingAppend(blake3: Digest, s: State, first: seq<Op>, later: seq<Op>)
    requires Failing(blake3, s, first) && Failing(blake3, After(blake3, s, first), later)
    ensures Failing(blake3, s, first + later)
    decreases |first|
  {
    if first == [] {
      assert first + later == later;
    } else {
      AfterFirst(blake3, s, first);
      FailingAppend(blake3, Step(blake3, s, first[0]).0, first[1..], later);
      TailOfAppend(first, later);
    }
  }

  /** What the first call adds. */
  ghost function FirstStarts(blake3: Digest, s: State, op: Op): seq<Accounts> {
    if Step(blake3, s, op).1 == HalfDone then [s.accounts] else []
  }

  lemma StartsFirst(blake3: Digest, s: State, ops: seq<Op>)
    requires ops != []
    ensures StartingAccounts(blake3, s, ops)
         == FirstStarts(blake3, s, ops[0]) + StartingAccounts(blake3, Step(blake3, s, ops[0]).0, ops[1..])
  {
  }

  lemma {:induction false} StartsAppend(blake3: Digest, s: State, first: seq<Op>, later: seq<Op>)
    ensures StartingAccounts(blake3, s, first + later)
         == StartingAccounts(blake3, s, first) + StartingAccounts(blake3, After(blake3, s, first), later)
    decreases |first|
  {
    if first == [] {
      assert first + later == later && StartingAccounts(blake3, s, first) == [];
    } else {
      StartsAppend(blake3, Step(blake3, s, first[0]).0, first[1..], later);
      StartsAppendStep(blake3, s, first, later);
    }
  }

  lemma StartsAppendStep(blake3: Digest, s: State, first: seq<Op>, later: seq<Op>)
    requires first != []
    requires var next := Step(blake3, s, first[0]).0;
      StartingAccounts(blake3, next, first[1..] + later)
      == StartingAccounts(blake3, next, first[1..]) + StartingAccounts(blake3, After(blake3, next, first[1..]), later)
    ensures StartingAccounts(blake3, s, first + later)
         == StartingAccounts(blake3, s, first) + StartingAccounts(blake3, After(blake3, s, first), later)
  {
    var next := Step(blake3, s, first[0]).0;
    TailOfAppend(first, later);
    StartsFirst(blake3, s, first + later);
    StartsFirst(blake3, s, first);
    AfterFirst(blake3, s, first);
    Regroup(FirstStarts(blake3, s, first[0]), StartingAccounts(blake3, next, first[1..]),
            StartingAccounts(blake3, After(blake3, s, first), later));
  }

  lemma TailOfAppend<T>(s: seq<T>, t: seq<T>)
    requires s != []
    ensures (s + t)[0] == s[0] && (s + t)[1..] == s[1..] + t
  {
  }

  lemma Regroup<T>(a: seq<T>, b: seq<T>, c: seq<T>)
    ensures a + (b + c) == a + b + c
  {
  }

  lemma {:induction false} FailingStaysGapless(blake3: Digest, s: State, ops: seq<Op>)
    requires Gapless(s) && Failing(blake3, s, ops)
    ensures Gapless(After(blake3, s, ops))
    decreases |ops|
  {
    if ops != [] {
      StepStaysGapless(blake3, s, ops[0]);
      AfterFirst(blake3, s, ops);
      FailingStaysGapless(blake3, Step(blake3, s, ops[0]).0, ops[1..]);
    }
  }
}
