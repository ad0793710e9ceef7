/** The boundary between the two halves: a block is validated, encoded, handed over, decoded and
    applied, and the Go side mirrors the tip's number. */
module Ffi {
  import opened Wrappers
  import opened Bytes
  import opened Chain
  import opened Codec
  import opened CodecLemmas
  import opened Engine
  import opened StateEngines
  import GoCodec
  import RustCodec

  const MAX_TX_DATA: nat := 1024 * 1024

  const INVALID_INPUT := -1
  const BAD_ENCODING := -2
  const STATE_ERROR := -3

  datatype FfiError =
    | NonMonotonicNumber(expected: U64, got: U64)
    | DataTooLarge(index: nat)
    | NotSerialized(error: EncodeError)
    | BadSerializedData
    | CoreFailed(code: int)

  /** The Go wrapper's mirror of the tip's number, and the engine behind it once there is one. */
  datatype Client = Client(last: U64, core: Option<State>)

  // ---- validation

  /** The first transaction from the i-th on whose data is above 1 MiB. */
  function FirstTooLarge(txs: seq<Transaction>, i: nat): (r: Option<nat>)
    requires i <= |txs|
    ensures r.None? <==> forall k :: i <= k < |txs| ==> |txs[k].data| <= MAX_TX_DATA
    ensures r.Some? ==>
      && i <= r.value < |txs| && |txs[r.value].data| > MAX_TX_DATA
      && forall k :: i <= k < r.value ==> |txs[k].data| <= MAX_TX_DATA
    decreases |txs| - i
  {
    if i == |txs| then None
    else if |txs[i].data| > MAX_TX_DATA then Some(i)
    else FirstTooLarge(txs, i + 1)
  }

  /** The number is only checked once a block has been applied. */
  function ValidateBlock(b: Block, last: U64): Option<FfiError> {
    var expected := (last + 1) % U64_LIMIT;
    if last > 0 && b.number != expected then Some(NonMonotonicNumber(expected, b.number))
    else
      match FirstTooLarge(b.transactions, 0)
      case Some(i) => Some(DataTooLarge(i))
      case None => None
  }

  predicate ValidSerializedData(data: seq<Byte>) {
    0 < |data| <= MAX_BLOCK_SIZE && data[0] == VERSION
  }

  // ---- the core behind the boundary

  /** The Rust side of one call: a new engine and the root, or the old engine and a code. */
  ghost function CoreApply(blake3: Digest, core: Option<State>, data: seq<Byte>): (Option<State>, Result<Hash, int>) {
    if |data| == 0 || |data| > MAX_BLOCK_SIZE then (core, Err(INVALID_INPUT))
    else
      match RustDecode(data)
      case Err(_) => (core, Err(BAD_ENCODING))
      case Ok(b) =>
        match core
        case None => (core, Err(STATE_ERROR))
        case Some(s) =>
          var (next, r) := Engine.Apply(blake3, s, b);
          (Some(next), if r.Ok? then Ok(r.value) else Err(STATE_ERROR))
  }

  // ---- the client

  function Uninitialised(): Client {
    Client(0, None)
  }

  function ClientInit(c: Client): Client {
    c.(core := Some(Genesis(map[])))
  }

  ghost function ClientApply(blake3: Digest, c: Client, b: Block): (Client, Result<Hash, FfiError>) {
    match ValidateBlock(b, c.last)
    case Some(e) => (c, Err(e))
    case None =>
      match Serialize(b)
      case Err(e) => (c, Err(NotSerialized(e)))
      case Ok(data) =>
        if !ValidSerializedData(data) then (c, Err(BadSerializedData))
        else
          var (core', r) := CoreApply(blake3, c.core, data);
          match r
          case Err(code) => (c.(core := core'), Err(CoreFailed(code)))
          case Ok(root) => (Client(b.number, core'), Ok(root))
  }

  function ClientRollback(c: Client, target: U64): Option<Client> {
    match c.core
    case None => None
    case Some(s) =>
      match Rollback(s, target)
      case None => None
      case Some(back) => Some(Client(target, Some(back)))
  }

  /** What the whole round trip over the boundary means: the engine is handed this very block exactly
      when its number, its data and its encoded size pass, and nothing else happens on the way. */
  lemma ApplyReachesEngine(blake3: Digest, c: Client, b: Block)
    ensures var (c', r) := ClientApply(blake3, c, b);
      var passes := ValidateBlock(b, c.last).None? && |EncodeBlock(b)| <= MAX_BLOCK_SIZE;
      && (!passes ==> c' == c && r.Err? && !r.error.CoreFailed?)
      && (passes && c.core.None? ==> c' == c && r == Err(CoreFailed(STATE_ERROR)))
      && (passes && c.core.Some? ==>
            var (s', applied) := Engine.Apply(blake3, c.core.value, b);
            && c'.core == Some(s')
            && (applied.Ok? ==> r == Ok(applied.value) && c'.last == b.number)
            && (applied.Err? ==> r == Err(CoreFailed(STATE_ERROR)) && c'.last == c.last))
  {
    if Serialize(b).Ok? {
      RoundTrip(b, []);
      assert EncodeBlock(b) + [] == EncodeBlock(b);
    }
  }

  /** The mirrored number is the engine's, and 0 before there is an engine. */
  predicate LockStep(c: Client) {
    c.last == if c.core.Some? then c.core.value.number else 0
  }

  lemma ApplyKeepsLockStep(blake3: Digest, c: Client, b: Block)
    requires LockStep(c)
    ensures LockStep(ClientApply(blake3, c, b).0)
  {
    ApplyReachesEngine(blake3, c, b);
  }

  lemma RollbackKeepsLockStep(c: Client, target: U64)
    requires ClientRollback(c, target).Some?
    ensures LockStep(ClientRollback(c, target).value)
  {
  }

  /** Starting the engine keeps the two in step exactly when nothing has been applied: a second start
      resets the engine's number but not the mirror. */
  lemma InitKeepsLockStepIff(c: Client)
    requires LockStep(c)
    ensures LockStep(ClientInit(c)) <==> c.last == 0
  {
  }

  /** In step, the wrapper refuses a number exactly when the engine would and some block has been applied; until
      then the engine refuses it alone. Either way nothing changes. */
  lemma NumbersAgree(blake3: Digest, c: Client, b: Block)
    requires LockStep(c) && c.core.Some?
    ensures var refused, e := b.number != NextNumber(c.core.value), ValidateBlock(b, c.last);
      && (e.Some? && e.value.NonMonotonicNumber? <==> refused && c.last > 0)
      && (refused ==> ClientApply(blake3, c, b).1.Err? && ClientApply(blake3, c, b).0 == c)
  {
    ApplyReachesEngine(blake3, c, b);
  }

  // ---- the objects

  /** The Rust library: one engine, absent until it is initialised. */
  class RustCore {
    const blake3: Digest
    var engine: StateEngine?

    constructor (blake3: Digest)
      ensures this.blake3 == blake3 && engine == null
    {
      this.blake3 := blake3;
      engine := null;
    }

    ghost function View(): Option<State>
      reads this, engine
    {
      if engine == null then None else Some(engine.View())
    }

    ghost predicate WellFormed()
      reads this
    {
      engine != null ==> engine.blake3 == blake3
    }

    method Init()
      requires WellFormed()
      modifies this
      ensures WellFormed() && fresh(engine)
      ensures View() == Some(Genesis(map[]))
    {
      engine := new StateEngine(blake3);
    }

    method Apply(data: seq<Byte>) returns (r: Result<Hash, int>)
      requires WellFormed()
      modifies engine
      ensures WellFormed()
      ensures (View(), r) == CoreApply(blake3, old(View()), data)
    {
      if |data| == 0 || |data| > MAX_BLOCK_SIZE {
        return Err(INVALID_INPUT);
      }
      var block := RustCodec.DeserializeBlock(data);
      if block.Err? {
        return Err(BAD_ENCODING);
      }
      if engine == null {
        return Err(STATE_ERROR);
      }
      var root := engine.ApplyBlock(block.value);
      return if root.Ok? then Ok(root.value) else Err(STATE_ERROR);
    }

    method RollbackTo(target: U64) returns (ok: bool)
      requires WellFormed()
      modifies engine
      ensures WellFormed()
      ensures ok <==> old(View()).Some? && Rollback(old(View()).value, target).Some?
      ensures View() == if ok then Some(Rollback(old(View()).value, target).value) else old(View())
    {
      if engine == null {
        return false;
      }
      ok := engine.RollbackTo(target);
    }
  }

  /** The Go wrapper. */
  class FFI {
    const core: RustCore
    var lastBlockNumber: U64

    constructor (core: RustCore)
      requires core.engine == null
      ensures this.core == core && WellFormed() && View() == Uninitialised()
    {
      this.core := core;
      lastBlockNumber := 0;
    }

    ghost function View(): Client
      reads this, core, core.engine
    {
      Client(lastBlockNumber, core.View())
    }

    ghost predicate WellFormed()
      reads this, core
    {
      core.WellFormed()
    }

    method InitEngine()
      requires WellFormed()
      modifies core
      ensures WellFormed() && fresh(core.engine)
      ensures View() == ClientInit(old(View()))
    {
      core.Init();
    }

    method ApplyBlock(b: Block) returns (r: Result<Hash, FfiError>)
      requires WellFormed()
      modifies `lastBlockNumber, core.engine
      ensures WellFormed()
      ensures (View(), r) == ClientApply(core.blake3, old(View()), b)
    {
      var invalid := Validate(b, lastBlockNumber);
      if invalid.Some? {
        return Err(invalid.value);
      }
      var data := GoCodec.SerializeBlock(b);
      if data.Err? {
        return Err(NotSerialized(data.error));
      }
      if !ValidSerializedData(data.value) {
        return Err(BadSerializedData);
      }
      var root := core.Apply(data.value);
      if root.Err? {
        return Err(CoreFailed(root.error));
      }
      lastBlockNumber := b.number;
      return Ok(root.value);
    }

    method RollbackTo(target: U64) returns (ok: bool)
      requires WellFormed()
      modifies `lastBlockNumber, core.engine
      ensures WellFormed()
      ensures ok == ClientRollback(old(View()), target).Some?
      ensures View() == if ok then ClientRollback(old(View()), target).value else old(View())
    {
      ok := core.RollbackTo(target);
      if ok {
        lastBlockNumber := target;
      }
    }
  }

  method Validate(b: Block, last: U64) returns (e: Option<FfiError>)
    ensures e == ValidateBlock(b, last)
  {
    var expected := (last + 1) % U64_LIMIT;
    if last > 0 && b.number != expected {
      return Some(NonMonotonicNumber(expected, b.number));
    }
    for i := 0 to |b.transactions|
      invariant FirstTooLarge(b.transactions, 0) == FirstTooLarge(b.transactions, i)
    {
      if |b.transactions[i].data| > MAX_TX_DATA {
        return Some(DataTooLarge(i));
      }
    }
    return None;
  }
}
