/** The reorganisation engine: it watches parent hashes, finds the fork in the block buffer, rolls
    the state engine back and applies the new branch. */
module Reorg {
  import opened Wrappers
  import opened Bytes
  import opened Chain
  import opened Circular
  import opened RingBuffers
  import opened Ffi

  datatype ReorgEvent = ReorgEvent(forkPoint: U64, depth: int)

  datatype ReorgError =
    | ForkPointNotFound
    | DepthExceeded(depth: int)
    | ApplyFailed(cause: FfiError)
    | RollbackFailed
    | ReplayFailed(cause: FfiError)

  /** A new block either goes on top of the tip or on top of an older block. */
  datatype Verdict = OnTip | Fork(point: U64)

  datatype Node = Node(ring: Recent, client: Client, events: seq<ReorgEvent>)

  function EmptyNode(client: Client): Node {
    Node(EmptyBuffer(), client, [])
  }

  /** The 64-bit cast from unsigned to signed. */
  function AsInt64(n: U64): int {
    if n < 0x8000_0000_0000_0000 then n else n - U64_LIMIT
  }

  /** The number of the newest of the n oldest buffered blocks whose hash is `parent`. */
  function FindForkPoint(sha256: Digest, ring: Recent, parent: Hash, n: nat): Option<U64>
    requires Valid(ring) && n <= ring.size
  {
    if n == 0 then None
    else
      match Get(ring, n - 1)
      case None => FindForkPoint(sha256, ring, parent, n - 1)
      case Some(b) =>
        if BlockHash(sha256, b) == parent then Some(b.number)
        else FindForkPoint(sha256, ring, parent, n - 1)
  }

  function DetectReorg(sha256: Digest, ring: Recent, b: Block): Result<Verdict, ReorgError>
    requires Valid(ring)
  {
    match Latest(ring)
    case None => Ok(OnTip)
    case Some(prev) =>
      if b.parentHash == BlockHash(sha256, prev) then Ok(OnTip)
      else
        match FindForkPoint(sha256, ring, b.parentHash, ring.size)
        case None => Err(ForkPointNotFound)
        case Some(point) =>
          var depth := AsInt64((prev.number - point) % U64_LIMIT);
          if depth > MAX_REORG_DEPTH then Err(DepthExceeded(depth)) else Ok(Fork(point))
  }

  function EventDepth(ring: Recent, point: U64): int
    requires Valid(ring)
  {
    match Latest(ring)
    case None => 0
    case Some(prev) => if prev.number > point then AsInt64(prev.number - point) else 0
  }

  /** Roll back, then apply: the client's part of a reorganisation. */
  ghost function ReplayOnFork(blake3: Digest, client: Client, point: U64, b: Block): (Client, Option<ReorgError>) {
    match ClientRollback(client, point)
    case None => (client, Some(RollbackFailed))
    case Some(back) =>
      var (client', r) := ClientApply(blake3, back, b);
      (client', if r.Err? then Some(ReplayFailed(r.error)) else None)
  }

  /** The buffer cut to as many blocks as the fork point's number says, and the new block. */
  function CutAndAdd(ring: Recent, point: U64, b: Block): Recent
    requires Valid(ring)
  {
    TruncateIsValid(ring, AsInt64(point));
    Push(Truncate(ring, AsInt64(point)), Some(b))
  }

  /** A replay that fails leaves the buffer at the old tip. */
  ghost function HandleReorg(blake3: Digest, node: Node, point: U64, b: Block): (Node, Option<ReorgError>)
    requires Valid(node.ring)
  {
    var (client', e) := ReplayOnFork(blake3, node.client, point, b);
    if e.Some? then (node.(client := client'), e)
    else (Node(CutAndAdd(node.ring, point, b), client',
               node.events + [ReorgEvent(point, EventDepth(node.ring, point))]), None)
  }

  ghost function ProcessBlock(sha256: Digest, blake3: Digest, node: Node, b: Block): (Node, Option<ReorgError>)
    requires Valid(node.ring)
  {
    match DetectReorg(sha256, node.ring, b)
    case Err(e) => (node, Some(e))
    case Ok(Fork(point)) => HandleReorg(blake3, node, point, b)
    case Ok(OnTip) =>
      var (client', r) := ClientApply(blake3, node.client, b);
      if r.Err? then (node.(client := client'), Some(ApplyFailed(r.error)))
      else (Node(Push(node.ring, Some(b)), client', node.events), None)
  }

  lemma ProcessKeepsBufferValid(sha256: Digest, blake3: Digest, node: Node, b: Block)
    requires Valid(node.ring)
    ensures var node' := ProcessBlock(sha256, blake3, node, b).0;
      Valid(node'.ring) && |node'.ring.slots| == |node.ring.slots|
  {
    PushIsValid(node.ring, Some(b));
    match DetectReorg(sha256, node.ring, b)
    case Ok(Fork(point)) =>
      TruncateIsValid(node.ring, AsInt64(point));
      PushIsValid(Truncate(node.ring, AsInt64(point)), Some(b));
    case _ =>
  }

  class ReorgEngine {
    const sha256: Digest
    const ffi: FFI
    const ringBuffer: RingBuffer
    var reorgCount: int
    var reorgEvents: seq<ReorgEvent>

    constructor (sha256: Digest, ffi: FFI)
      requires ffi.WellFormed()
      ensures this.sha256 == sha256 && this.ffi == ffi && fresh(ringBuffer) && fresh(ringBuffer.blocks)
      ensures WellFormed() && View() == EmptyNode(ffi.View())
    {
      this.sha256 := sha256;
      this.ffi := ffi;
      ringBuffer := new RingBuffer();
      reorgCount := 0;
      reorgEvents := [];
    }

    ghost function View(): Node
      reads this, ffi, ffi.core, ffi.core.engine, ringBuffer, ringBuffer.blocks
    {
      Node(ringBuffer.View(), ffi.View(), reorgEvents)
    }

    ghost predicate WellFormed()
      reads this, ffi, ffi.core, ringBuffer, ringBuffer.blocks
    {
      ffi.WellFormed() && ringBuffer.WellFormed() && reorgCount == |reorgEvents|
    }

    method Process(b: Block) returns (e: Option<ReorgError>)
      requires WellFormed()
      modifies this, ffi, ffi.core.engine, ringBuffer, ringBuffer.blocks
      ensures WellFormed()
      ensures (View(), e) == ProcessBlock(sha256, ffi.core.blake3, old(View()), b)
    {
      var verdict := Detect(b);
      if verdict.Err? {
        return Some(verdict.error);
      }
      if verdict.value.Fork? {
        e := Handle(verdict.value.point, b);
      } else {
        var root := ffi.ApplyBlock(b);
        if root.Err? {
          return Some(ApplyFailed(root.error));
        }
        ringBuffer.Add(b);
        return None;
      }
    }

    method Detect(b: Block) returns (verdict: Result<Verdict, ReorgError>)
      requires WellFormed()
      ensures verdict == DetectReorg(sha256, ringBuffer.View(), b)
    {
      if ringBuffer.size == 0 {
        return Ok(OnTip);
      }
      var prev := ringBuffer.GetLatest();
      if prev.None? {
        return Ok(OnTip);
      }
      var prevHash := HashOf(sha256, prev.value);
      if b.parentHash == prevHash {
        return Ok(OnTip);
      }
      var point := Find(b);
      if point.None? {
        return Err(ForkPointNotFound);
      }
      var depth := AsInt64((prev.value.number - point.value) % U64_LIMIT);
      if depth > MAX_REORG_DEPTH {
        return Err(DepthExceeded(depth));
      }
      return Ok(Fork(point.value));
    }

    /** Backwards over the buffer, newest block first. */
    method Find(b: Block) returns (point: Option<U64>)
      requires WellFormed()
      ensures point == FindForkPoint(sha256, ringBuffer.View(), b.parentHash, ringBuffer.size)
    {
      var i := ringBuffer.size - 1;
      while i >= 0
        invariant -1 <= i < ringBuffer.size
        invariant FindForkPoint(sha256, ringBuffer.View(), b.parentHash, ringBuffer.size)
               == FindForkPoint(sha256, ringBuffer.View(), b.parentHash, i + 1)
      {
        var block := ringBuffer.GetAt(i);
        if block.Some? {
          var hash := HashOf(sha256, block.value);
          if hash == b.parentHash {
            return Some(block.value.number);
          }
        }
        i := i - 1;
      }
      return None;
    }

    method Handle(point: U64, b: Block) returns (e: Option<ReorgError>)
      requires WellFormed()
      modifies this, ffi, ffi.core.engine, ringBuffer, ringBuffer.blocks
      ensures WellFormed()
      ensures (View(), e) == HandleReorg(ffi.core.blake3, old(View()), point, b)
    {
      var depth := DepthBelowTip(point);
      e := RollbackAndApply(point, b);
      if e.Some? {
        return;
      }
      UpdateBuffer(point, b);
      reorgEvents := reorgEvents + [ReorgEvent(point, depth)];
      reorgCount := reorgCount + 1;
    }

    method DepthBelowTip(point: U64) returns (depth: int)
      requires ringBuffer.WellFormed()
      ensures depth == EventDepth(ringBuffer.View(), point)
    {
      var prevTip := ringBuffer.GetLatest();
      depth := 0;
      if prevTip.Some? && prevTip.value.number > point {
        depth := AsInt64(prevTip.value.number - point);
      }
    }

    method RollbackAndApply(point: U64, b: Block) returns (e: Option<ReorgError>)
      requires ffi.WellFormed()
      modifies ffi, ffi.core.engine
      ensures ffi.WellFormed()
      ensures (ffi.View(), e) == ReplayOnFork(ffi.core.blake3, old(ffi.View()), point, b)
    {
      var ok := ffi.RollbackTo(point);
      if !ok {
        return Some(RollbackFailed);
      }
      var root := ffi.ApplyBlock(b);
      if root.Err? {
        return Some(ReplayFailed(root.error));
      }
      return None;
    }

    method UpdateBuffer(point: U64, b: Block)
      requires ringBuffer.WellFormed()
      modifies ringBuffer, ringBuffer.blocks
      ensures ringBuffer.WellFormed()
      ensures ringBuffer.View() == CutAndAdd(old(ringBuffer.View()), point, b)
    {
      ringBuffer.TruncateTo(AsInt64(point));
      ringBuffer.Add(b);
    }
  }
}
