/** Verdicts and errors, in full: what detection says about any buffer, and why ProcessBlock refuses a block. */
module ReorgErrors {
  import opened Wrappers
  import opened Bytes
  import opened Chain
  import opened Ledger
  import opened Circular
  import opened RingBuffers
  import opened Codec
  import opened WireFormat
  import opened Ffi
  import opened FfiErrors
  import opened Reorg
  import opened ReorgBuffers
  import opened ReorgSync
  import opened ReorgRuns

  // ---- detection on any buffer

  /** The k-th of the buffered blocks is the newest with that hash. */
  ghost predicate NewestMatch(sha256: Digest, blocks: seq<Block>, parent: Hash, k: nat) {
    && k < |blocks| && BlockHash(sha256, blocks[k]) == parent
    && forall i :: k < i < |blocks| ==> BlockHash(sha256, blocks[i]) != parent
  }

  /** The distance, as a signed 64-bit number, is `depth` and more than 10. */
  ghost predicate TooDeep(tip: U64, point: U64, depth: int) {
    10 < depth < SIGN_BIT && (tip - point == depth || tip - point == depth - U64_LIMIT)
  }

  lemma SignedDistance(tip: U64, point: U64)
    ensures var depth := AsInt64((tip - point) % U64_LIMIT);
      forall d: int :: TooDeep(tip, point, d) <==> depth > 10 && d == depth
  {
    var distance := (tip - point) % U64_LIMIT;
    if tip >= point {
      SmallModulo(tip - point, U64_LIMIT);
    } else {
      SmallModulo(tip - point + U64_LIMIT, U64_LIMIT);
      assert (tip - point) % U64_LIMIT == tip - point + U64_LIMIT;
    }
  }

  ghost predicate Holds(ring: Recent, blocks: seq<Block>) {
    && Valid(ring) && |blocks| == ring.size
    && forall i :: 0 <= i < |blocks| ==> Get(ring, i) == Some(blocks[i])
  }

  /** The verdict on a block that is not on the tip, by the block the search found. */
  ghost predicate Judges(verdict: Result<Verdict, ReorgError>, tip: U64, point: U64) {
    && (verdict == Ok(Fork(point)) <==> forall d :: !TooDeep(tip, point, d))
    && (forall d :: verdict == Err(DepthExceeded(d)) <==> TooDeep(tip, point, d))
  }

  lemma DistanceJudges(tip: U64, point: U64)
    ensures var depth := AsInt64((tip - point) % U64_LIMIT);
      Judges(if depth > MAX_REORG_DEPTH then Err(DepthExceeded(depth)) else Ok(Fork(point)), tip, point)
  {
    SignedDistance(tip, point);
    var depth := AsInt64((tip - point) % U64_LIMIT);
    assert TooDeep(tip, point, depth) <==> depth > 10;
  }

  /** Whatever blocks the buffer holds: on the tip when it is empty or its newest block is the parent; otherwise the
      newest other match counts, unless it lies more than ten below the newest block. */
  lemma VerdictOnAnyBuffer(sha256: Digest, ring: Recent, blocks: seq<Block>, b: Block)
    requires Holds(ring, blocks)
    ensures var verdict := DetectReorg(sha256, ring, b);
      var onTip := blocks == [] || BlockHash(sha256, blocks[|blocks| - 1]) == b.parentHash;
      && (verdict == Ok(OnTip) <==> onTip)
      && (!onTip ==>
            && (verdict == Err(ForkPointNotFound) <==> forall k: nat :: !NewestMatch(sha256, blocks, b.parentHash, k))
            && forall k: nat :: NewestMatch(sha256, blocks, b.parentHash, k) ==>
                 Judges(verdict, blocks[|blocks| - 1].number, blocks[k].number))
  {
    if blocks != [] {
      assert Latest(ring) == Some(blocks[|blocks| - 1]);
      if BlockHash(sha256, blocks[|blocks| - 1]) != b.parentHash {
        OffTip(sha256, ring, blocks, b);
      }
    }
  }

  lemma OffTip(sha256: Digest, ring: Recent, blocks: seq<Block>, b: Block)
    requires Holds(ring, blocks) && blocks != [] && Latest(ring) == Some(blocks[|blocks| - 1])
    requires BlockHash(sha256, blocks[|blocks| - 1]) != b.parentHash
    ensures var verdict := DetectReorg(sha256, ring, b);
      && verdict != Ok(OnTip)
      && (verdict == Err(ForkPointNotFound) <==> forall k: nat :: !NewestMatch(sha256, blocks, b.parentHash, k))
      && forall k: nat :: NewestMatch(sha256, blocks, b.parentHash, k) ==>
           Judges(verdict, blocks[|blocks| - 1].number, blocks[k].number)
  {
    var found := SearchJudges(sha256, ring, blocks, b);
    OnlyNewest(sha256, blocks, b.parentHash, found);
    assert found >= 0 ==> NewestMatch(sha256, blocks, b.parentHash, found);
    forall k: nat | NewestMatch(sha256, blocks, b.parentHash, k)
      ensures Judges(DetectReorg(sha256, ring, b), blocks[|blocks| - 1].number, blocks[k].number)
    {
      assert k == found;
    }
  }

  lemma SearchJudges(sha256: Digest, ring: Recent, blocks: seq<Block>, b: Block) returns (found: int)
    requires Holds(ring, blocks) && blocks != [] && Latest(ring) == Some(blocks[|blocks| - 1])
    requires BlockHash(sha256, blocks[|blocks| - 1]) != b.parentHash
    ensures -1 <= found < |blocks| && (found >= 0 ==> BlockHash(sha256, blocks[found]) == b.parentHash)
    ensures forall i :: found < i < |blocks| ==> BlockHash(sha256, blocks[i]) != b.parentHash
    ensures var verdict := DetectReorg(sha256, ring, b);
      && verdict != Ok(OnTip) && (verdict == Err(ForkPointNotFound) <==> found < 0)
      && (found >= 0 ==> Judges(verdict, blocks[|blocks| - 1].number, blocks[found].number))
  {
    found := FindInContents(sha256, ring, blocks, b.parentHash, |blocks|);
    if found >= 0 {
      DistanceJudges(blocks[|blocks| - 1].number, blocks[found].number);
    }
  }

  lemma OnlyNewest(sha256: Digest, blocks: seq<Block>, parent: Hash, found: int)
    requires -1 <= found < |blocks| && (found >= 0 ==> BlockHash(sha256, blocks[found]) == parent)
    requires forall i :: found < i < |blocks| ==> BlockHash(sha256, blocks[i]) != parent
    ensures forall k: nat :: NewestMatch(sha256, blocks, parent, k) <==> k == found
  {
  }

  /** The depth an event records: how far the fork lies below the newest buffered block, or 0. */
  lemma EventDepthMeaning(ring: Recent, point: U64, tip: Block)
    requires Valid(ring) && Latest(ring) == Some(tip)
    ensures 0 < tip.number - point < SIGN_BIT ==> EventDepth(ring, point) == tip.number - point
    ensures tip.number <= point ==> EventDepth(ring, point) == 0
  {
  }

  /** Events are recorded for reorganisations that go through, one each, and for nothing else. */
  lemma EventsRecorded(sha256: Digest, blake3: Digest, node: Node, b: Block)
    requires Valid(node.ring)
    ensures var (node', e) := ProcessBlock(sha256, blake3, node, b);
      match DetectReorg(sha256, node.ring, b)
      case Ok(Fork(point)) =>
        node'.events == node.events + if e.None? then [ReorgEvent(point, EventDepth(node.ring, point))] else []
      case _ => node'.events == node.events
  {
  }

  // ---- why a block is refused

  /** The number a block on top of `point` must have is checked by the wrapper unless nothing has been applied. */
  ghost predicate NumberPasses(b: Block, point: nat) {
    point > 0 ==> b.number == (point + 1) % U64_LIMIT
  }

  /** The first check that fails. */
  ghost predicate IsReason(cause: FfiError, b: Block, point: nat) {
    var size := 53 + 76 * |b.transactions| + DataSize(b.transactions);
    var small := forall k :: 0 <= k < |b.transactions| ==> |b.transactions[k].data| <= 1_048_576;
    match cause
    case NonMonotonicNumber(expected, got) =>
      !NumberPasses(b, point) && expected == (point + 1) % U64_LIMIT && got == b.number
    case DataTooLarge(i) => NumberPasses(b, point) && FirstOffender(b.transactions, i)
    case NotSerialized(TooLarge(n)) => NumberPasses(b, point) && small && size > 10_485_760 && n == size
    case CoreFailed(code) => NumberPasses(b, point) && small && size <= 10_485_760 && code == -3
    case BadSerializedData => false
  }

  lemma ClientIsReason(blake3: Digest, client: Client, b: Block)
    requires client.core.Some? && ClientApply(blake3, client, b).1.Err?
    ensures IsReason(ClientApply(blake3, client, b).1.error, b, client.last)
  {
    ClientErrors(blake3, client, b);
    ValidationErrors(b, client.last);
    var e := ValidateBlock(b, client.last);
    if e.Some? && e.value.DataTooLarge? {
      assert e == Some(DataTooLarge(e.value.index));
    }
  }

  /** Why ProcessBlock refuses a block, from the chain and the oldest number kept: no buffered parent; a fork out of
      reach; on the tip or on a fork, the first check of the boundary that fails, or the engine. */
  lemma RefusalReasons(sha256: Digest, blake3: Digest, genesis: Accounts, m: Model, node: Node, b: Block)
    requires Refines(sha256, blake3, genesis, m, node)
    ensures var e, parent := ProcessBlock(sha256, blake3, node, b).1, Parent(sha256, m.chain, b);
      && (e == Some(ForkPointNotFound) <==> parent.None?)
      && (e == Some(RollbackFailed)
          <==> parent.Some? && parent.value < |m.chain| && parent.value < Oldest(m.retained))
      && (e.Some? && e.value.ApplyFailed? ==>
            parent == Some(|m.chain|) && IsReason(e.value.cause, b, |m.chain|))
      && (e.Some? && e.value.ReplayFailed? ==>
            parent.Some? && parent.value < |m.chain| && IsReason(e.value.cause, b, parent.value))
      && (e.Some? ==> !e.value.DepthExceeded?)
  {
    DetectFindsParent(sha256, node.ring, m.chain, b);
    match Parent(sha256, m.chain, b)
    case None =>
    case Some(point) =>
      if point == |m.chain| {
        TipReason(sha256, blake3, node, b);
      } else {
        var p: U64 := m.chain[point].number - 1;
        ForkAccepts(sha256, blake3, genesis, m, node, b, p);
        ForkReason(sha256, blake3, node, b, p);
        InReach(blake3, genesis, m, node.client, p);
      }
  }

  lemma TipReason(sha256: Digest, blake3: Digest, node: Node, b: Block)
    requires Valid(node.ring) && DetectReorg(sha256, node.ring, b) == Ok(OnTip) && node.client.core.Some?
    ensures var e := ProcessBlock(sha256, blake3, node, b).1;
      e.Some? ==> e.value.ApplyFailed? && IsReason(e.value.cause, b, node.client.last)
  {
    if ClientApply(blake3, node.client, b).1.Err? {
      ClientIsReason(blake3, node.client, b);
    }
  }

  lemma ForkReason(sha256: Digest, blake3: Digest, node: Node, b: Block, point: U64)
    requires Valid(node.ring) && DetectReorg(sha256, node.ring, b) == Ok(Fork(point)) && node.client.core.Some?
    ensures var e := ProcessBlock(sha256, blake3, node, b).1;
      && (ClientRollback(node.client, point).None? <==> e == Some(RollbackFailed))
      && (ClientRollback(node.client, point).Some? && e.Some? ==>
            e.value.ReplayFailed? && IsReason(e.value.cause, b, point))
  {
    if ClientRollback(node.client, point).Some? {
      var back := ClientRollback(node.client, point).value;
      if ClientApply(blake3, back, b).1.Err? {
        ClientIsReason(blake3, back, b);
      }
    }
  }
}
