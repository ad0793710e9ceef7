/** The wire format byte by byte, its limits, and the errors of the decoders, in plain numbers. */
module WireFormat {
  import opened Wrappers
  import opened Bytes
  import opened Chain
  import opened Codec
  import opened CodecLemmas

  /** The version byte 1, the block number, the parent hash, the timestamp and the count, then the transactions. */
  lemma BlockLayout(b: Block)
    requires |b.transactions| < 0x1_0000_0000
    ensures var data := EncodeBlock(b);
      && |data| >= 53 && data[0] == 1
      && Value(data[1..9]) == b.number && data[9..41] == b.parentHash && Value(data[41..49]) == b.timestamp
      && Value(data[49..53]) == |b.transactions| && data[53..] == EncodeTransactions(b.transactions)
  {
    FieldParts(b.number, b.parentHash, b.timestamp, |b.transactions|, EncodeTransactions(b.transactions));
    SizeField(|b.transactions|);
    U64Limit();
    ValueOfBigEndian(b.number, 8);
    ValueOfBigEndian(b.timestamp, 8);
  }

  lemma FieldParts(number: U64, parentHash: Hash, timestamp: U64, count: nat, body: seq<Byte>)
    ensures var data := EncodeFields(number, parentHash, timestamp, count) + body;
      && data[0] == 1 && data[1..9] == BigEndian(number, 8) && data[9..41] == parentHash
      && data[41..49] == BigEndian(timestamp, 8) && data[49..53] == BigEndian(count % U32_LIMIT, 4)
      && data[53..] == body
  {
  }

  /** Sender, receiver, value, the length of the data and the data. */
  lemma TransactionLayout(tx: Transaction)
    requires |tx.data| < 0x1_0000_0000
    ensures var s := EncodeTransaction(tx);
      && |s| == 76 + |tx.data|
      && s[..20] == tx.from && s[20..40] == tx.to && s[40..72] == tx.value
      && Value(s[72..76]) == |tx.data| && s[76..] == tx.data
  {
    TransactionParts(tx, []);
    assert EncodeTransaction(tx) + [] == EncodeTransaction(tx);
    SizeField(|tx.data|);
  }

  /** The transactions one after the other. */
  lemma {:induction false} TransactionsLayout(first: seq<Transaction>, tx: Transaction, later: seq<Transaction>)
    ensures EncodeTransactions([]) == []
    ensures EncodeTransactions(first + [tx] + later)
         == EncodeTransactions(first) + EncodeTransaction(tx) + EncodeTransactions(later)
    decreases |first|
  {
    if first == [] {
      assert first + [tx] + later == [tx] + later && ([tx] + later)[1..] == later;
    } else {
      TransactionsLayout(first[1..], tx, later);
      assert (first + [tx] + later)[1..] == first[1..] + [tx] + later;
      Associates(EncodeTransaction(first[0]), EncodeTransactions(first[1..]), EncodeTransaction(tx),
                 EncodeTransactions(later));
    }
  }

  lemma Associates<T>(a: seq<T>, b: seq<T>, c: seq<T>, d: seq<T>)
    ensures a + (b + c + d) == a + b + c + d
  {
  }

  /** All the data of a block's transactions. */
  function DataSize(txs: seq<Transaction>): nat {
    if txs == [] then 0 else DataSize(txs[..|txs| - 1]) + |txs[|txs| - 1].data|
  }

  lemma {:induction false} EncodedSize(txs: seq<Transaction>)
    ensures |EncodeTransactions(txs)| == 76 * |txs| + DataSize(txs)
    decreases |txs|
  {
    if txs != [] {
      var front, last := txs[..|txs| - 1], txs[|txs| - 1];
      EncodedSize(front);
      TransactionsLayout(front, last, []);
      assert txs == front + [last] + [];
    }
  }

  /** A block is serialised exactly up to 10 MiB, counting 53 bytes, 76 for each transaction, and the data; the
      error tells the size. */
  lemma SerializesIff(b: Block)
    ensures var size := 53 + 76 * |b.transactions| + DataSize(b.transactions);
      Serialize(b) == if size <= 10_485_760 then Ok(EncodeBlock(b)) else Err(TooLarge(size))
  {
    EncodedSize(b.transactions);
  }

  /** Which error a decoder reports: first for fewer than 53 bytes, then for a version other than 1, and any
      other for missing bytes. Both decoders agree on the first two. */
  lemma DecodingErrors(data: seq<Byte>)
    ensures RustDecode(data) == Err(TooShort) <==> |data| < 53
    ensures GoDecode(data) == Err(TooShort) <==> |data| < 53
    ensures forall v: Byte :: RustDecode(data) == Err(UnsupportedVersion(v)) <==> |data| >= 53 && data[0] == v != 1
    ensures forall v: Byte :: GoDecode(data) == Err(UnsupportedVersion(v)) <==> |data| >= 53 && data[0] == v != 1
  {
    if |data| >= 53 {
      RustMisses(data[53..], Value(data[49..53]));
      GoMisses(data[53..], Value(data[49..53]));
    }
  }

  lemma {:induction false} RustMisses(rest: seq<Byte>, n: nat)
    ensures RustTransactions(rest, n).Err? ==> RustTransactions(rest, n) == Err(Truncated)
    decreases n
  {
    if n > 0 && RustTransaction(rest).Ok? {
      RustMisses(RustTransaction(rest).value.1, n - 1);
    }
  }

  lemma {:induction false} GoMisses(rest: seq<Byte>, n: nat)
    ensures GoTransactions(rest, n).Err? ==> GoTransactions(rest, n) == Err(Truncated)
    decreases n
  {
    if n > 0 && GoTransaction(rest).Ok? {
      GoMisses(GoTransaction(rest).value.1, n - 1);
    }
  }
}
