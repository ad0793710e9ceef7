# A verified model of the hybrid blockchain runtime

The runtime streams blocks through a Go orchestration layer into a Rust state engine. This project
models the stack from the bytes up and proves what its parts guarantee together.

- `Bytes`, `U256`, `Chain`: big-endian numbers, 256-bit checked arithmetic, accounts, transactions,
  blocks, and the 48-byte header a block is identified by.
- `Ledger`, `StateRoot`: what a transaction does to the account map, and the bytes the state root is the
  digest of.
- `Engine` (the state as a value), `StateEngine` (the object), `Replay`, `EngineRuns`, `WindowExample`,
  `Recovery`, `RecoveryExample`, `Conservation`: the engine with its ten snapshots, measured against the
  simple specification "keep the list of blocks, roll back by taking a prefix, replay the list".
- `Codec`, `CodecLemmas`, `WireFormat`, `GoCodec`, `RustCodec`: the wire format, its layout and limits in plain
  numbers, the Go encoder, and the two decoders.
- `Ffi`, `FfiErrors`, `FfiRuns`: validation, encoding, the call into the core, decoding, every error, and the
  mirrored block number over whole runs of calls.
- `Circular`, `RingBuffer`, `Reorg`: the block buffer, fork detection, rollback and replay.
- `ReorgBuffers`, `ReorgSync`, `ReorgRuns`: what the buffer holds of a chain, and the buffer and the state
  engine over whole runs of `ProcessBlock`, measured against a specification that knows only the chain, the
  numbers that can be rolled back to and the slot of the next block. `ReorgErrors`: the verdict on any buffer,
  and why a block is refused.
- `ReorgHealing`: what holds whatever the buffer holds. `ReorgRefusals`, `ReorgRecovery`, `ReorgMislabelled`:
  what refused blocks and failed replays leave behind. `ReorgExample`, `UnlinkedExample`, `HealingExample`,
  `RefusalExample`, `DepthExample`: runs from a fresh start.
- `Pool`, `PoolCancel`, `PoolLimits`, `RateLimiter`, `Trackers`: the worker pool as a step relation over every
  interleaving, the fixed-window rate limiter, and the circular latency buffers.

Objects that the source updates in place are classes whose methods are proved equal to functions on a
value (`View()`); the lemmas are about those functions.

## Conventions

- BLAKE3 and SHA-256 are parameters: any function from byte strings to 32 bytes. Where a result needs that
  blocks do not collide, it says so for the blocks at hand alone (`NoCollision`, `BranchIsDistinct`), and `StampNeverCollides` and
  `StampTellsApart` give a digest for which that is so.
- 64-bit counters wrap, as in the Rust release profile and in Go. A nonce wraps without consequence. A
  block number wraps to 0, so the run results speak of accepted blocks whose number is not 0; a chain meets
  that bound only after 2^64 - 1 blocks. `usize` and Go's `int` have 64 bits.
- Genesis funding is the account map the engine starts from. The specification of `ReorgRuns` judges a block
  from the chain, that map, the numbers retained and the buffer's index alone; nothing in it looks at the
  outcome of a call.
- ProcessBlock calls are taken one after the other: the block buffer has no lock of its own.

## What the proofs found

- `ProcessBlock` keeps the block buffer and the state engine on one chain throughout a run exactly when no
  block of it does harm (`EndToEnd`), and the harmful ones are four kinds: a reorganisation that cuts the
  buffer wrongly, a block on a reachable fork that cannot be replayed, a block on the tip that gets stuck in
  a transaction after the first debit, and the wrap-around of the block number. The next points say what
  each of the first three leads to.
- After a reorganisation the buffer holds the last blocks of the new chain exactly in two cases: the tip's
  number is at most 10 and the buffer was filled from slot 0, or the reorganisation is one block deep, the
  buffer's oldest block lies in slot 1 and the fork's number is below 2^63 (`CutKeepsBufferedIff`,
  `ReorgStep`). The cause is that the buffer is cut to as many blocks as the fork block's *number* says and its
  write index is reset. `ForkAfterPlainRun` runs into this from a fresh start, with every call succeeding: after
  eleven blocks and a fork at block 5 the buffer does not begin with block 1, which slot 0 has lost
  (`NewerBlockInSlot0`).
- The engine is not misled by a wrong buffer: over every run in which no block gets stuck after a first debit or
  wraps the number, it has the replay of a list of accepted blocks (`EngineEndToEnd`). That list need not be
  linked any more: after a fork at block 12 of fifteen and three new
  blocks, the old block 15 is accepted on top of the new block 14, which is not its parent
  (`UnlinkedChainIsAccepted`). If no such block arrives, nine blocks on the new tip make the buffer right again
  (`NineBlocksHeal`), but not the slots its blocks lie in, so that the tip's number does not tell whether the
  next reorganisation will be right (`OneDeepAfterHealing`, `TipSaysNeither`).
- The depth check never fires on a right buffer (`DetectMeaning`), but it can on a wrong one: after a fork at 14 of
  fifteen and eight more blocks the buffer still holds block 10, and a block on top of that is refused for a
  depth of 13 (`DepthCheckFires`).
- A replay that fails leaves the engine at the fork and the buffer at the old tip. From then on every block of
  the old chain above the fork is refused (`OldChainHalts`); only a block on the fork or below it can go
  through (`StrandedAcceptsIff`), and the first that does leaves no trace of the failures
  (`FirstReplayHeals`). One block numbered 0 on a fork is enough (`OneBadBlockStrands`).
- The only blocks on the old tip that still reach a stranded engine carry the number after the fork's: they are
  applied at the fork (`MislabelledStep`), and if they get stuck there the fork is lost with the eleventh
  failure (`StickingLosesTheFork`).
- A block on the tip that gets stuck in a transaction is not rolled back: the next block is applied to what
  it left, unless the very first transaction was the one refused for want of money (`NoLeftoversIff`,
  `NextBlockBuildsOnLeftovers`, and `LeftoversStay` from a fresh start).
- Even a block that leaves the accounts alone takes one of the ten snapshots: after ten such refusals no
  reorganisation goes through any more (`BouncesEndReorgs`, from a fresh start in `TenPoorBlocksEndForks`).
- Rolling back keeps the target's snapshot, so the next block saves the same number again. Ten snapshots
  then guarantee only five blocks (`RunKeepsWindow`, and `FiveIsReached` for a run with no more), while the
  comment at `rust-core/src/state.rs:13-14` speaks of the Go side's ten.
- Ten half-applied blocks can be undone; from the eleventh on the rollback restores the leftovers of an
  earlier failure (`FailureRecovery`, `RecoversIff`, with a run in `ElevenIsOneTooMany`).
- The Go decoder accepts blocks whose last data field is cut short and fills in zeros; Rust rejects exactly
  those (`DecodersDifferIff`, `OnlyGoDecodes`).
- The block hash does not cover the transactions (`HeaderIdentifies`).
- The boundary has no way to fund an account, so exactly the blocks whose transfers are all of nothing get
  through it (`NothingToTransfer`).
- Starting the engine again after a block has been applied is fatal: every later apply and rollback fails
  (`SecondStartIsFatal`).
- A worker goes on after a panic; the comment at `internal/worker/pool.go:141-143` says it exits and is
  restarted.
- Once the pool's context is cancelled no worker begins a block, and each takes at most one more off the channel,
  which it drops. If more blocks wait than there are workers, some stay in the channel, neither handled nor
  dropped (`CancelledBeginsNothing`, `CancelledLeavesBlocks`).
- A call of `Submit` that has not evaluated its select when the pool stops can panic, and no other can: calls
  waiting on the full channel are refused, because the stop channel is closed first (`MayCrashIff`,
  `ParkedIsRefusedByStop`).
- A transfer of nothing still makes an entry for its receiver and counts for its sender, so it changes the state
  root (`TransferEntries`).
- The factor two in the rate limiter's bound is reached for every limit (`BoundIsReached`).

## Model

| member | source | states |
|---|---|---|
| Arithmetic256.CheckedAdd | rust-core/src/types.rs:24-40 | the carry loop returns the exact big-endian sum when it is below 2^256 and nothing otherwise |
| Arithmetic256.CheckedSub | rust-core/src/types.rs:43-64 | the borrow loop returns the exact difference when it is not negative and nothing otherwise |
| Arithmetic256.SubUndoesAdd | rust-core/src/types.rs:24-64 | subtracting what was added, or adding what was subtracted, gives the original bytes back |
| Arithmetic256.LimitIs | rust-core/src/types.rs:24-64 | the limit of both is 2^256, written out |
| Chain.HashOf | internal/ffi/types.go:70-94 | the byte-by-byte buffer is the header, and the digest is taken of it once |
| Chain.HeaderLayout | internal/ffi/types.go:70-94 | the first 8 bytes read as the number, the next 32 are the parent hash byte by byte, the last 8 read as the timestamp |
| Bytes.BigEndianAt | internal/ffi/types.go:70-94 | byte i of n bytes is the number divided by 256 to the power n - 1 - i, modulo 256: the most significant byte comes first |
| Chain.HeaderIdentifies | internal/ffi/types.go:70-94 | two blocks have the same hash preimage exactly when they agree on number, parent hash and timestamp, whatever their transactions |
| Ledger.TransferSucceeds | rust-core/src/state.rs:131-157 | a transfer goes through exactly when the sender has the money and, unless it pays itself, the receiver has room below 2^256; refused for want of money, it changes nothing |
| Ledger.TransferMeaning | rust-core/src/state.rs:131-157 | every balance and nonce after a transfer, self-transfers included: money moves from sender to receiver and only the sender's nonce counts up |
| Ledger.TransferEntries | rust-core/src/state.rs:131-157 | which addresses have entries afterwards: sender and receiver are added, after an overflow the sender alone, and a transfer refused for want of money adds nothing |
| Ledger.TransferEntry | rust-core/src/state.rs:131-157 | balance and nonce of every entry afterwards, in every outcome, an address without an entry counting from nothing |
| Ledger.OtherEntriesStay | rust-core/src/state.rs:131-157 | the entries of everybody else are the same bytes, and nobody else gets one |
| Ledger.TransactionsInOrder | rust-core/src/state.rs:117-119 | one list after another: the first failure ends it, otherwise the second goes on where the first left off |
| Ledger.SingleTransaction | rust-core/src/state.rs:117-119 | no transactions change nothing, and one is that transaction |
| Ledger.TransactionConserves | rust-core/src/state.rs:131-157 | a transaction keeps the sum of balances; only a credit overflow loses money, and needs a sum of at least 2^256 |
| Ledger.BlockConserves | rust-core/src/state.rs:117-119 | a block keeps the sum; below 2^256 even one that fails half way does, because the overflow cannot occur |
| Ledger.NoLeftoversIff | rust-core/src/state.rs:117-157 | a list of transactions that fails leaves the account map as it was exactly when the very first one asks for more than its sender has |
| StateRoot.CalculateStateRoot | rust-core/src/state.rs:73-89 | collecting keys in any order, sorting and feeding 60-byte records gives the digest of the map's canonical bytes |
| StateRoot.RootReadsSorted | rust-core/src/state.rs:73-89 | those bytes, without the sort: 60 for each account, the k-th those of the k-th smallest address as a big-endian number, with its balance and its nonce as a number |
| StateRoot.PrecedesIffSmaller | rust-core/src/state.rs:76-76 | the order of the sort is that of the addresses as big-endian numbers |
| StateRoot.PreimageIgnoresOrder | rust-core/src/state.rs:73-89 | any strictly sorted enumeration of the keys feeds the same bytes |
| StateRoot.PreimageInjective | rust-core/src/state.rs:73-89 | equal digest inputs mean equal account maps, and conversely |
| StateEngines.StateEngine.constructor | rust-core/src/state.rs:32-39 | a new engine has no accounts, number 0, an all-zero root and no snapshots |
| StateEngines.StateEngine.ApplyBlock | rust-core/src/state.rs:92-128 | number check, bounded snapshot, transactions up to the first failure, new number and root: the whole new state in every outcome |
| StateEngines.StateEngine.ApplyOne | rust-core/src/state.rs:131-157 | debit, nonce, credit in place, with the two ways to fail and what each leaves behind; Ledger.TransferEntries and Ledger.TransferEntry say which entries and with what |
| StateEngines.StateEngine.RollbackTo | rust-core/src/state.rs:160-178 | restores the oldest snapshot of the target and keeps it; without one nothing changes |
| Replays.ApplyExtends | rust-core/src/state.rs:92-128 | an applied block becomes the next block of the branch that accounts, root and snapshots are the replay of |
| Replays.AppliesIff | rust-core/src/state.rs:92-128 | a block is taken exactly when its number is next and the branch with it replays; otherwise the error tells the number expected and the one received, or the failure of the transaction |
| Replays.RollbackTakesPrefix | rust-core/src/state.rs:160-178 | after a rollback the engine is the replay of the branch's prefix, and so are its snapshots of theirs |
| Replays.RollbackThenReapply | rust-core/src/state.rs:92-178 | rolling back and applying the same blocks again succeeds with the same accounts, number and root |
| EngineRuns.RunRefinesReplay | rust-core/src/state.rs:92-178 | over every run of applies and rollbacks without half-applied blocks the engine with bounded snapshots refines replaying the list of blocks |
| EngineRuns.RunKeepsWindow | rust-core/src/state.rs:103-114 | over every such run snapshot numbers have no gap, at most two copies, at most ten entries, end at the tip or one below, and start at most at max(0, highest - 5) |
| EngineRuns.RollbackSucceedsIff | rust-core/src/state.rs:160-166 | a rollback succeeds exactly for targets between the oldest and the newest retained number |
| EngineRuns.RunWithoutRollback | rust-core/src/state.rs:103-114 | without rollbacks exactly the last ten numbers are retained |
| WindowExample.FiveIsReached | rust-core/src/state.rs:103-178 | when each of n blocks is undone and applied once more, rollbacks succeed for the last five numbers below the tip and no other |
| Recovery.FailuresOnlyPush | rust-core/src/state.rs:103-119 | failing calls move neither number nor root, and each half-applied block adds one snapshot of the same number |
| Recovery.FailureRecovery | rust-core/src/state.rs:94-175 | a rollback to the current number after k half-applied blocks restores the clean state and root for k up to 10, and the accounts of failure k - 10 beyond |
| Recovery.RecoversIff | rust-core/src/state.rs:94-175 | that rollback gives the replay of the branch exactly when k is at most 10 or the failures before the last ten left nothing behind |
| RecoveryExample.ElevenIsOneTooMany | rust-core/src/state.rs:94-175 | a concrete run: after ten half-applied blocks the rollback restores the genesis accounts, after eleven it does not |
| Conservation.RunKeepsFunds | rust-core/src/state.rs:92-178 | below 2^256 no run, failures and rollbacks included, changes the sum of balances in the state or any snapshot |
| Conservation.NothingToTransfer | internal/ffi/ffi.go:72-137 | after any calls over the boundary a block is accepted exactly when its number is next, its sizes pass and every transfer in it is of nothing |
| GoCodec.SerializeBlock | internal/ffi/serialization.go:32-76 | the buffer writes give the wire format, and an error above 10 MiB |
| GoCodec.SerializeTransaction | internal/ffi/serialization.go:79-110 | appends one transaction's bytes |
| GoCodec.DeserializeBlock | internal/ffi/serialization.go:113-170 | the reader loop computes the Go decoding of any byte string |
| GoCodec.DeserializeTransaction | internal/ffi/serialization.go:173-208 | one transaction off the reader, with short reads as the library does them |
| RustCodec.DeserializeBlock | rust-core/src/ffi.rs:216-315 | the offset loop computes the Rust decoding of any byte string, every slice in bounds |
| RustCodec.DeserializeTransaction | rust-core/src/ffi.rs:263-307 | one transaction at an offset; the next offset is at least 76 bytes further |
| CodecLemmas.RustAcceptsIff | rust-core/src/ffi.rs:216-315 | the Rust decoder accepts exactly the encodings of blocks followed by anything, with that block |
| CodecLemmas.GoAcceptsWhatRustAccepts | internal/ffi/serialization.go:113-208 | whatever Rust accepts, Go accepts with the same block |
| CodecLemmas.DecodersDifferIff | internal/ffi/serialization.go:199-205 | Go accepts and Rust rejects exactly the encodings cut short inside the last data field with at least one byte of it left |
| CodecLemmas.OnlyGoDecodes | internal/ffi/serialization.go:199-205 | there the missing bytes come out as zeros |
| CodecLemmas.RoundTrip | internal/ffi/serialization.go:32-208 | both decoders recover a serialised block from its bytes followed by anything |
| Codec.SerializedIsEncodable | internal/ffi/serialization.go:56-73 | the size check makes both 32-bit casts lossless |
| CodecLemmas.CanonicalDecoding | rust-core/src/ffi.rs:216-315 | re-encoding a decoded block gives the prefix of the input of length 53 plus 76 and the data length per transaction |
| WireFormat.BlockLayout | internal/ffi/serialization.go:32-66 | the version byte 1, then number, parent hash, timestamp and count at their offsets, then the transactions |
| WireFormat.TransactionLayout | internal/ffi/serialization.go:79-110 | sender, receiver, value, length and data at their offsets |
| WireFormat.TransactionsLayout | internal/ffi/serialization.go:61-66 | the transactions lie one after the other in their order |
| WireFormat.SerializesIff | internal/ffi/serialization.go:68-75 | a block is serialised exactly up to 10485760 bytes, counting 53, 76 for each transaction and the data, and the error tells the size |
| WireFormat.DecodingErrors | rust-core/src/ffi.rs:216-235 | both decoders report fewer than 53 bytes first and a version other than 1 next |
| Ffi.Validate | internal/ffi/validation.go:22-79 | the number check after the first block, then the 1 MiB bound of every transaction, first offender reported |
| FfiErrors.ValidationErrors | internal/ffi/validation.go:22-79 | the number comes first, with the one expected and the one received; then the first transaction with more than 1048576 bytes of data |
| Ffi.RustCore.Init | rust-core/src/ffi.rs:13-21 | a fresh engine replaces whatever was there |
| Ffi.RustCore.Apply | rust-core/src/ffi.rs:30-95 | size check, decoding, missing engine and engine errors map to their codes; the engine moves only if it is reached |
| FfiErrors.CoreCodes | rust-core/src/ffi.rs:30-95 | exactly when the code is -1, -2 or -3, and that only an engine that is reached changes |
| Ffi.RustCore.RollbackTo | rust-core/src/ffi.rs:101-119 | success exactly when there is an engine with a snapshot of the target |
| Ffi.FFI.ApplyBlock | internal/ffi/ffi.go:72-121 | validate, serialise, check, call, mirror the number: the whole new state of both sides |
| Ffi.FFI.RollbackTo | internal/ffi/ffi.go:124-137 | the mirror follows a rollback that succeeds and nothing moves otherwise |
| Ffi.FFI.InitEngine | internal/ffi/ffi.go:59-69 | the engine is fresh, the mirror untouched |
| Ffi.ApplyReachesEngine | internal/ffi/ffi.go:72-121 | a block that passes validation and the size limit reaches the engine unchanged through encoding and decoding; any other block changes nothing |
| FfiErrors.ClientErrors | internal/ffi/ffi.go:72-121 | the error of every refused call, by the first check that fails; the check of the encoding never does |
| FfiRuns.CallsKeepLockStep | internal/ffi/ffi.go:72-137 | over every run of applies and rollbacks, successful or not, the mirrored number equals the engine's |
| FfiRuns.NumbersAreCheckedAlike | internal/ffi/validation.go:28-36 | after any calls the wrapper rejects a number exactly when the engine would and a block has been applied; either way nothing changes |
| FfiRuns.SecondStartIsFatal | rust-core/src/ffi.rs:13-21 | after a second start with blocks applied before, every apply and every rollback of every run fails and changes nothing |
| Circular.PushAllIsLastN | internal/reorg/engine.go:60-66 | after any number of additions the buffer is the list of the last ones, oldest first |
| Circular.TruncateTakesSlots | internal/reorg/engine.go:93-102 | truncation keeps as many elements as asked for, within what there is, takes the first slots and leaves the oldest kept element in slot 0 |
| Circular.TruncateKeepsOldestIff | internal/reorg/engine.go:93-102 | it keeps the oldest elements exactly when the oldest was in slot 0 or none is kept |
| RingBuffers.RingBuffer.Add | internal/reorg/engine.go:60-66 | writes the slot, advances the index and grows up to ten |
| RingBuffers.RingBuffer.GetAt | internal/reorg/engine.go:69-77 | the k-th oldest block, nothing out of range |
| RingBuffers.GetMeaning | internal/reorg/engine.go:69-85 | the k-th and the newest of the contents, and nothing out of range |
| RingBuffers.RingBuffer.GetLatest | internal/reorg/engine.go:80-85 | the newest block, nothing when empty |
| RingBuffers.RingBuffer.TruncateTo | internal/reorg/engine.go:93-102 | clamps the size and resets the index to it modulo ten |
| Reorg.ReorgEngine.Process | internal/reorg/engine.go:115-142 | detection, reorganisation or plain apply: the whole new state of buffer, wrapper, engine and events in every outcome |
| Reorg.ReorgEngine.Detect | internal/reorg/engine.go:147-179 | tip, fork or error, including the 64-bit depth cast |
| Reorg.ReorgEngine.Find | internal/reorg/engine.go:183-194 | the backward scan finds the newest match |
| Reorg.ReorgEngine.Handle | internal/reorg/engine.go:197-240 | rollback, replay, cut and add, one event; a failed replay leaves the buffer alone |
| ReorgSync.DetectMeaning | internal/reorg/engine.go:147-194 | on a buffer that holds a chain's end the verdict is the newest buffered parent, or that there is none; the depth error never occurs |
| ReorgSync.ForkDetection | internal/reorg/engine.go:147-194 | without collisions a fork is reported exactly when a buffered block other than the tip is the parent; it is unique and 1 to size - 1 deep |
| ReorgErrors.VerdictOnAnyBuffer | internal/reorg/engine.go:147-194 | whatever blocks the buffer holds: the newest match counts, and is a fork unless it lies more than ten below the newest block as a signed 64-bit distance |
| ReorgErrors.EventDepthMeaning | internal/reorg/engine.go:197-206 | the depth recorded is the distance to the newest buffered block, or 0 when the fork is not below it |
| ReorgErrors.EventsRecorded | internal/reorg/engine.go:221-233 | one event for every reorganisation that goes through, and none for any other block, in whatever state the node is |
| ReorgBuffers.CutKeepsBufferedIff | internal/reorg/engine.go:217-219 | wherever in the slots the blocks lie: cutting to the fork's number and adding leaves the last blocks of the new chain, oldest first, exactly for a tip up to 10 with the index at the tip modulo 10, or one block deep with the index at 1 and the fork's number below 2^63 |
| ReorgSync.ReorgStep | internal/reorg/engine.go:197-240 | a reorganisation that goes through makes the engine the replay of the new linked chain, records fork and depth, and leaves the chain's last blocks in the buffer under exactly that condition |
| ReorgSync.TipStep | internal/reorg/engine.go:131-139 | a block on the tip keeps buffer and engine together whatever the length |
| ReorgRuns.AcceptsIff | internal/reorg/engine.go:115-240 | a block is accepted exactly when the newest buffered block with its parent's hash is the tip or not older than the oldest number retained, its number is the next one, its sizes pass, and the branch up to there replays with it |
| ReorgErrors.RefusalReasons | internal/reorg/engine.go:115-240 | the error of every refused block: no buffered parent, a fork out of reach, or the first check of the boundary that fails, on the tip or on the fork |
| ReorgRuns.StepRefinesIff | internal/reorg/engine.go:115-240 | one block takes buffer and engine from one specification state to the next exactly when it does no harm, judged from the chain, the numbers retained and the index |
| ReorgRuns.RefusalChangesNothing | internal/reorg/engine.go:117-135 | in whatever state, a block whose parent is not buffered, whose fork cannot be restored, or whose number or size does not pass is refused and changes nothing |
| ReorgRuns.EndToEnd | internal/reorg/engine.go:115-240 | over whole runs from a fresh start: after every block the buffer holds the last min(10, tip) blocks of the specification's linked chain, oldest first, the Rust state is its replay, and the snapshots and the index are the specification's, exactly when no block of the run does harm |
| ReorgHealing.EngineEndToEnd | internal/reorg/engine.go:115-240 | over whole runs from a fresh start, whatever the buffer holds: the Rust state is the replay of a list of accepted blocks, extended or cut and extended by each, exactly when no block gets stuck after a first debit on what it is applied to or wraps the number |
| ReorgHealing.AcceptedIsReplayed | internal/reorg/engine.go:115-240 | whatever the buffer holds, an accepted block whose number is not 0 makes the engine the replay of a prefix of its list with that block on top |
| ReorgHealing.ContinuationIsTaken | internal/reorg/engine.go:115-142 | every linked, numbered, passing continuation that replays is accepted block by block and kept in sync |
| ReorgHealing.NineBlocksHeal | internal/reorg/engine.go:60-102 | after any reorganisation that goes through, however wrong its cut, every continuation of the new chain is accepted, and from its ninth block on the buffer holds the last ten blocks again |
| ReorgRefusals.NextBlockBuildsOnLeftovers | internal/reorg/engine.go:131-139 | after a block that got stuck in a transaction the next block on the tip is applied to what that block left |
| ReorgRefusals.LeftoversStay | internal/reorg/engine.go:131-139 | a run from a fresh start: a stuck block, then an empty one that is accepted, and the accounts are not the replay of the accepted chain |
| ReorgRefusals.BouncesEndReorgs | rust-core/src/state.rs:103-119 | after ten blocks refused on the tip for want of money every reorganisation is refused, although buffer and engine still stand for the chain |
| ReorgExample.ForkAfterPlainRun | internal/reorg/engine.go:115-240 | any number of plain blocks from a fresh start and a fork at any buffered block below the tip: every call succeeds, and buffer and engine stand for the new chain exactly when the cut is right |
| ReorgExample.ForkAtOneOfThreeAndFiveOfEleven | internal/reorg/integration_test.go:20-57 | the fork at block 1 of three of the integration test ends in sync; a fork at block 5 of eleven does not |
| UnlinkedExample.UnlinkedChainIsAccepted | internal/reorg/engine.go:183-240 | fifteen blocks, a branch of three from block 12, the old block 15 again: every call succeeds, the old block is taken for a fork at 14, and the engine has the replay of a chain that is not linked |
| HealingExample.OneDeepAfterHealing | internal/reorg/engine.go:60-240 | a plain run, a fork at any buffered block, m >= 9 plain blocks and a reorganisation one block deep: all are accepted, and the last leaves the buffer right exactly when the index has come round to 1 |
| DepthExample.DepthCheckFires | internal/reorg/engine.go:173-176 | a run in which the depth check fires: fifteen blocks, a fork at 14, eight blocks on top, and a block on top of block 10 |
| RefusalExample.OneBadBlockStrands | internal/reorg/engine.go:207-215 | any number of plain blocks from a fresh start, then a block numbered 0 on any buffered block but the tip: the node is stranded, the old chain's next block is refused, a block on the fork would be accepted |
| RefusalExample.TenPoorBlocksEndForks | rust-core/src/state.rs:103-119 | any number of plain blocks from a fresh start and ten blocks refused for want of money: a fork that was open before is refused |
| ReorgRecovery.FailedReplayStrands | internal/reorg/engine.go:207-215 | a block on a fork leaves the buffer at the old tip and the engine cleanly recoverable at the fork exactly when the fork is in reach and the block does not replay there |
| ReorgRecovery.StrandedAcceptsIff | internal/reorg/engine.go:115-240 | then exactly the blocks are accepted that extend a block up to the fork which is still retained |
| ReorgRecovery.StrandedStep | internal/reorg/engine.go:115-240 | every block either leaves the node stranded at the same fork or an older one, or goes through on such a fork and restores the engine, and the buffer under the exact condition on the cut |
| ReorgRecovery.FirstReplayHeals | internal/reorg/engine.go:207-219 | over any run of refusals: the first block accepted afterwards is on the fork or below it, and the engine is the replay of the new chain |
| ReorgRecovery.OldChainHalts | internal/reorg/engine.go:131-139 | every run of blocks of the old chain above the fork is refused and changes nothing |
| ReorgMislabelled.MislabelledStep | internal/reorg/engine.go:131-139 | a block on the old tip with the number after the fork's is applied at the fork: accepted, it is buffered at the tip; stuck, its leftovers and a snapshot stay; not passing, nothing changes |
| ReorgMislabelled.StickingLosesTheFork | internal/reorg/engine.go:131-139 | over any run of such blocks that get stuck, the fork can still be recovered exactly when there were at most ten failures or those before the last ten left nothing behind |
| Pool.EveryRun | internal/worker/pool.go:51-176 | in every interleaving the queue stays within twice the worker count, is first-in first-out, Submit succeeds for exactly the blocks that get in, and each of them is queued, in flight, handled or dropped by cancellation, once; the counters count the outcomes they are named for |
| PoolCancel.CancelledBeginsNothing | internal/worker/pool.go:126-139 | over every run from a cancelled state no worker begins a block: what is handled from then on are exactly the blocks that were being processed, each by its worker |
| PoolCancel.CancelledHandles | internal/worker/pool.go:126-139 | when all workers are gone those blocks have been handled and no others |
| PoolCancel.ReceivedIsDropped | internal/worker/pool.go:128-135 | a worker that has received a block and finds the context done gives it up and leaves |
| PoolCancel.ReceivedStays | internal/worker/pool.go:128-135 | until then the block stays with that worker |
| PoolCancel.CancelledLeavesBlocks | internal/worker/pool.go:126-139 | after the cancellation each worker takes at most one more block, so with more waiting than workers some stay in the channel |
| PoolLimits.WaitsAtFullChannel | internal/worker/pool.go:58-58 | in every run, whoever waits in Submit waits at a channel that holds twice as many blocks as there are workers |
| PoolLimits.CapacityIsReached | internal/worker/pool.go:58-82 | that many submissions go through without waiting before any worker runs, and the next one waits |
| PoolLimits.RefusedOnceStopped | internal/worker/pool.go:75-92 | in every run nobody is refused before the pool is stopped; from then on every call at its select may be refused, and accepted exactly while the channel is open and has room |
| PoolLimits.CallsKeepComing | internal/worker/pool.go:75-82 | a call of Submit can be made at any time, also during and after a shutdown |
| Pool.ShutdownIsBounded | internal/worker/pool.go:85-139 | after the channel is closed the workers take at most as many steps as a measure of the state |
| Pool.NoDeadlock | internal/worker/pool.go:119-139 | until it is gone every worker has a step to take |
| Pool.DrainedWhenGone | internal/worker/pool.go:85-106 | without cancellation, when all workers are gone every submitted block was handled exactly once and no worker counts as active |
| Pool.ShutdownCompletes | internal/worker/pool.go:85-139 | from every closed state of every run without a panic in Submit, at most as many worker steps as the measure says lead to all workers gone, with every submitted block handled, dropped by a cancelled worker, or, after a cancellation, still in the channel |
| Pool.ShutdownEndsSettled | internal/worker/pool.go:85-139 | every run after the closing in which no worker can move any more ends like that, within the same number of worker steps |
| Pool.MayCrashIff | internal/worker/pool.go:75-92 | at any point of any interleaving, some continuation makes a call of Submit panic exactly when it has not evaluated its select yet |
| Pool.ParkedIsRefusedByStop | internal/worker/pool.go:75-92 | a call waiting on the full channel when the stop channel is closed returns the refusal in every continuation |
| Pool.SettledNeverCrashes | internal/worker/pool.go:75-92 | a shutdown that no call of Submit races or follows never panics |
| RateLimiting.RateLimiter.Allow | internal/mcp/rate_limiter.go:33-64 | creates, restarts, checks and counts this tool's counter and touches no other |
| RateLimiting.RefusedIff | internal/mcp/rate_limiter.go:33-64 | after any run with a clock that does not go back, for any limit and window: a call is refused exactly when a window of its tool that is not over has let through as many calls as the limit |
| RateLimiting.WindowsArePlaced | internal/mcp/rate_limiter.go:50-63 | over any such run with a positive limit: a tool's first window starts when its counter was created, or at its first call if the window was over by then, and every other at the first call let through in it |
| RateLimiting.RateBound | internal/mcp/rate_limiter.go:33-64 | over any run with a clock that does not go back, any stretch of the window's length holds at most twice the limit of allowed calls per tool |
| RateLimiting.WindowBound | internal/mcp/rate_limiter.go:50-63 | each counter window lets through at most the limit |
| RateLimiting.BoundIsReached | internal/mcp/rate_limiter.go:50-63 | for every positive limit and every window above one, calls in clock order of which twice the limit get through within one window's length |
| Trackers.Tracker.Record | internal/mcp/tools.go:33-42 | writes the slot, advances the index and grows up to the capacity |
| Trackers.Tracker.CopyOccupied | internal/mcp/tools.go:58-62 | the slots copied for the percentiles are the retained latencies in some order |
| Trackers.Tracker.GetLatencies | internal/mcp/tools.go:109-135 | the newest latencies first, all of them for a limit that is not positive |
| Trackers.NewestSlot | internal/mcp/tools.go:127-130 | Go's remainder here is the slot of the i-th newest element, so the negative-index branch is dead |
| Trackers.RemainderMeaning | internal/mcp/tools.go:127-130 | the remainder has the sign of the dividend and is smaller than the divisor |
| Trackers.RecordsRetained | internal/mcp/tools.go:97-135 | after any number of records the result is the reverse of the last ones, and the occupied slots are the multiset of the last `capacity` |

## Left out

- EngineRuns.RunRefinesReplay: not for runs with half-applied blocks, whose effect and repair Recovery.FailureRecovery gives exactly, nor past the wrap-around of the block number.
- ReorgRuns.EndToEnd: what follows after a harmful block is shown for each kind by itself (ReorgHealing for a wrong cut, ReorgRecovery and ReorgMislabelled for a failed replay, ReorgRefusals for leftovers); of runs that mix them only ReorgHealing.EngineEndToEnd speaks.
- ReorgRecovery.StrandedStep: not for blocks on the old tip that carry the number after the engine's, which ReorgMislabelled.MislabelledStep covers.
- Reorg.ReorgEngine.Process: a nil block, on which the source fails inside the wrapper or by a nil dereference, is not modelled; event times and durations are not recorded; the event counter is unbounded.
- GoCodec.DeserializeBlock: memory is unbounded, so the up-front allocation for the announced number of transactions never fails.
- RateLimiting.RateLimiter.Allow: the two clock readings are parameters, and calls on one counter are taken one after the other, as its lock makes them.
- Trackers.Tracker.CopyOccupied: sorting and the percentile indices, which are floating-point products, are not modelled; latencies are reals. The two tracker types of the source share one class, of positive capacity: with capacity 0 the source's Record panics.
- Pool.EveryRun: the channel hands a block to a waiting worker as an enqueue followed by a dequeue; Start and Stop are called once, and a panic in Submit ends the run; what processing a block does is abstract.
- The raw-pointer interface (null checks, buffer ownership, mutex poisoning) and the statistics call: the boundary is a call that returns success or a code.
- Rust's own block hash, unused by the engine, and the inside of both digests.
- Big-integer and 64-bit conversions to U256 and the getters over the reorganisation events: they would only add easy members.
- WebSocket streaming, the MCP server and its input checks, metrics, logging, configuration, shutdown hooks and load testing.
- Concurrent ProcessBlock calls and two wrappers over one engine.
