/** Round trips through the codec, canonicality, and where its two decoders part ways. */
module CodecLemmas {
  import opened Wrappers
  import opened Bytes
  import opened Chain
  import opened Codec

  // ---- one transaction

  lemma SizeField(n: nat)
    requires n < U32_LIMIT
    ensures Value(BigEndian(n % U32_LIMIT, 4)) == n
  {
    SmallModulo(n, U32_LIMIT);
    assert n < Pow256(4) by {
      U64Limit();
    }
    ValueOfBigEndian(n, 4);
  }

  lemma SizeBytes(s: seq<Byte>)
    requires |s| == 4
    ensures Value(s) < U32_LIMIT && BigEndian(Value(s) % U32_LIMIT, 4) == s
  {
    assert Value(s) < U32_LIMIT by {
      U64Limit();
      ValueBound(s);
    }
    SmallModulo(Value(s), U32_LIMIT);
    BigEndianOfValue(s);
  }

  lemma TransactionParts(tx: Transaction, suffix: seq<Byte>)
    ensures var s := EncodeTransaction(tx) + suffix;
      && s[..20] == tx.from && s[20..40] == tx.to && s[40..72] == tx.value
      && s[72..76] == BigEndian(|tx.data| % U32_LIMIT, 4)
      && s[76..76 + |tx.data|] == tx.data && s[76 + |tx.data|..] == suffix
  {
  }

  lemma RustReadsTransaction(tx: Transaction, suffix: seq<Byte>)
    requires |tx.data| < U32_LIMIT
    ensures RustTransaction(EncodeTransaction(tx) + suffix) == Ok((tx, suffix))
  {
    TransactionParts(tx, suffix);
    SizeField(|tx.data|);
  }

  lemma RustTransactionIsCanonical(rest: seq<Byte>)
    requires RustTransaction(rest).Ok?
    ensures var (tx, rest') := RustTransaction(rest).value;
      rest == EncodeTransaction(tx) + rest' && |tx.data| < U32_LIMIT
  {
    var size := Value(rest[72..76]);
    SizeBytes(rest[72..76]);
    assert rest == rest[..20] + rest[20..40] + rest[40..72] + rest[72..76] + rest[76..76 + size] + rest[76 + size..];
  }

  /** Short reads of the fixed fields always end in an error; only the data may be cut. */
  lemma GoTransactionMeaning(rest: seq<Byte>)
    ensures var r := GoTransaction(rest);
      if |rest| < TX_HEADER_SIZE then r.Err?
      else
        var size := Value(rest[72..76]);
        if size == 0 then r == Ok((Transaction(rest[..20], rest[20..40], rest[40..72], []), rest[76..]))
        else if |rest| == TX_HEADER_SIZE then r.Err?
        else if |rest| < TX_HEADER_SIZE + size then
          r == Ok((Transaction(rest[..20], rest[20..40], rest[40..72], rest[76..] + Zeros(size - (|rest| - 76))), []))
        else r == Ok((Transaction(rest[..20], rest[20..40], rest[40..72], rest[76..76 + size]), rest[76 + size..]))
  {
    if |rest| >= TX_HEADER_SIZE {
      assert rest[20..][..20] == rest[20..40] && rest[20..][20..] == rest[40..];
      assert rest[40..][..32] == rest[40..72] && rest[40..][32..] == rest[72..];
      assert rest[72..][..4] == rest[72..76] && rest[72..][4..] == rest[76..];
      var size := Value(rest[72..76]);
      if |rest| >= TX_HEADER_SIZE + size {
        assert rest[76..][..size] == rest[76..76 + size] && rest[76..][size..] == rest[76 + size..];
      }
    } else if |rest| > 20 {
      assert |rest[20..]| < 56;
    }
  }

  lemma GoFollowsRust(rest: seq<Byte>)
    requires RustTransaction(rest).Ok?
    ensures GoTransaction(rest) == RustTransaction(rest)
  {
    GoTransactionMeaning(rest);
    if Value(rest[72..76]) == 0 {
      assert rest[76..76] == [];
    }
  }

  lemma SplitTransaction(rest: seq<Byte>)
    requires |rest| >= 76
    ensures rest == rest[..20] + rest[20..40] + rest[40..72] + rest[72..76] + rest[76..]
  {
  }

  /** Where only Go reads a transaction, its data was cut after at least one byte and padded. */
  lemma OnlyGoReads(rest: seq<Byte>) returns (missing: nat)
    requires GoTransaction(rest).Ok? && RustTransaction(rest).Err?
    ensures var (tx, rest') := GoTransaction(rest).value;
      && rest' == [] && 0 < missing < |tx.data| < U32_LIMIT
      && rest + Zeros(missing) == EncodeTransaction(tx)
  {
    GoTransactionMeaning(rest);
    SizeBytes(rest[72..76]);
    var size := Value(rest[72..76]);
    missing := size - (|rest| - 76);
    SplitTransaction(rest);
  }

  // ---- all transactions

  lemma {:induction false} RustReadsTransactions(txs: seq<Transaction>, suffix: seq<Byte>)
    requires ShortData(txs)
    ensures RustTransactions(EncodeTransactions(txs) + suffix, |txs|) == Ok(txs)
    decreases |txs|
  {
    if txs != [] {
      var more := EncodeTransactions(txs[1..]) + suffix;
      assert EncodeTransactions(txs) + suffix == EncodeTransaction(txs[0]) + more;
      RustReadsTransaction(txs[0], more);
      RustReadsTransactions(txs[1..], suffix);
      assert [txs[0]] + txs[1..] == txs;
    }
  }

  lemma {:induction false} RustTransactionsAreCanonical(rest: seq<Byte>, n: nat)
    requires RustTransactions(rest, n).Ok?
    ensures var txs := RustTransactions(rest, n).value;
      |txs| == n && ShortData(txs) && EncodeTransactions(txs) <= rest
    decreases n
  {
    if n > 0 {
      var (tx, rest') := RustTransaction(rest).value;
      RustTransactionIsCanonical(rest);
      RustTransactionsAreCanonical(rest', n - 1);
      var more := RustTransactions(rest', n - 1).value;
      assert ([tx] + more)[1..] == more;
    }
  }

  lemma {:induction false} GoFollowsRustThroughout(rest: seq<Byte>, n: nat)
    requires RustTransactions(rest, n).Ok?
    ensures GoTransactions(rest, n) == RustTransactions(rest, n)
    decreases n
  {
    if n > 0 {
      GoFollowsRust(rest);
      GoFollowsRustThroughout(RustTransaction(rest).value.1, n - 1);
    }
  }

  /** What it means for a list decoded from `rest` that `missing` bytes of its last data were not there. */
  ghost predicate MissesTail(rest: seq<Byte>, txs: seq<Transaction>, missing: nat) {
    && txs != [] && ShortData(txs)
    && 0 < missing < |txs[|txs| - 1].data|
    && rest + Zeros(missing) == EncodeTransactions(txs)
  }

  lemma {:induction false} OnlyGoReadsTransactions(rest: seq<Byte>, n: nat) returns (missing: nat)
    requires GoTransactions(rest, n).Ok? && RustTransactions(rest, n).Err?
    ensures |GoTransactions(rest, n).value| == n && MissesTail(rest, GoTransactions(rest, n).value, missing)
    decreases n
  {
    if RustTransaction(rest).Err? {
      missing := OnlyGoReadsLast(rest, n);
    } else {
      var (tx, rest') := GoTransaction(rest).value;
      GoFollowsRust(rest);
      RustTransactionIsCanonical(rest);
      missing := OnlyGoReadsTransactions(rest', n - 1);
      MissesLater(rest, tx, rest', GoTransactions(rest', n - 1).value, missing);
    }
  }

  lemma OnlyGoReadsLast(rest: seq<Byte>, n: nat) returns (missing: nat)
    requires n > 0 && GoTransactions(rest, n).Ok? && RustTransaction(rest).Err?
    ensures n == 1 && |GoTransactions(rest, n).value| == 1
    ensures MissesTail(rest, GoTransactions(rest, n).value, missing)
  {
    missing := OnlyGoReads(rest);
    var tx := GoTransaction(rest).value.0;
    GoTransactionMeaning([]);
    assert n == 1;
    assert GoTransactions(rest, 1).value == [tx] + [] == [tx];
    assert [tx][1..] == [] && EncodeTransaction(tx) + [] == EncodeTransaction(tx);
  }

  lemma MissesLater(rest: seq<Byte>, tx: Transaction, rest': seq<Byte>, more: seq<Transaction>, missing: nat)
    requires rest == EncodeTransaction(tx) + rest' && |tx.data| < U32_LIMIT && MissesTail(rest', more, missing)
    ensures MissesTail(rest, [tx] + more, missing)
  {
    assert ([tx] + more)[1..] == more;
    assert rest + Zeros(missing) == EncodeTransaction(tx) + (rest' + Zeros(missing));
  }

  // ---- whole blocks

  lemma FieldsRoundTrip(b: Block, body: seq<Byte>, txs: Result<seq<Transaction>, DecodeError>)
    requires |b.transactions| < U32_LIMIT
    ensures var data := EncodeFields(b.number, b.parentHash, b.timestamp, |b.transactions|) + body;
      && data[0] == VERSION && data[HEADER_SIZE..] == body
      && Value(data[49..53]) == |b.transactions|
      && (txs.Ok? ==> Fields(data, txs) == Ok(b.(transactions := txs.value)))
  {
    var data := EncodeFields(b.number, b.parentHash, b.timestamp, |b.transactions|) + body;
    assert data[1..9] == BigEndian(b.number, 8);
    assert data[9..41] == b.parentHash;
    assert data[41..49] == BigEndian(b.timestamp, 8);
    assert data[49..53] == BigEndian(|b.transactions| % U32_LIMIT, 4);
    SizeField(|b.transactions|);
    U64Limit();
    ValueOfBigEndian(b.number, 8);
    ValueOfBigEndian(b.timestamp, 8);
  }

  lemma FieldsAreCanonical(data: seq<Byte>, b: Block)
    requires |data| >= HEADER_SIZE && data[0] == VERSION
    requires |b.transactions| == Value(data[49..53])
    requires Fields(data, Ok(b.transactions)) == Ok(b)
    ensures |b.transactions| < U32_LIMIT
    ensures data == EncodeFields(b.number, b.parentHash, b.timestamp, |b.transactions|) + data[HEADER_SIZE..]
  {
    SizeBytes(data[49..53]);
    BigEndianOfValue(data[1..9]);
    BigEndianOfValue(data[41..49]);
    SplitFields(data);
  }

  lemma SplitFields(data: seq<Byte>)
    requires |data| >= HEADER_SIZE && data[0] == VERSION
    ensures data == [VERSION] + data[1..9] + data[9..41] + data[41..49] + data[49..53] + data[HEADER_SIZE..]
  {
  }

  lemma RustDecodesEncoding(b: Block, suffix: seq<Byte>)
    requires Encodable(b)
    ensures RustDecode(EncodeBlock(b) + suffix) == Ok(b)
  {
    var body := EncodeTransactions(b.transactions) + suffix;
    RustReadsTransactions(b.transactions, suffix);
    FieldsRoundTrip(b, body, Ok(b.transactions));
    assert EncodeBlock(b) + suffix
        == EncodeFields(b.number, b.parentHash, b.timestamp, |b.transactions|) + body;
  }

  lemma RustDecodesOnlyEncodings(data: seq<Byte>)
    requires RustDecode(data).Ok?
    ensures Encodable(RustDecode(data).value) && EncodeBlock(RustDecode(data).value) <= data
  {
    RustTransactionsAreCanonical(data[HEADER_SIZE..], Value(data[49..53]));
    FieldsAreCanonical(data, RustDecode(data).value);
  }

  /** The Rust decoder accepts exactly the encodings of blocks, followed by anything. */
  lemma RustAcceptsIff(data: seq<Byte>, b: Block)
    ensures RustDecode(data) == Ok(b) <==> Encodable(b) && EncodeBlock(b) <= data
  {
    if RustDecode(data) == Ok(b) {
      RustDecodesOnlyEncodings(data);
    }
    if Encodable(b) && EncodeBlock(b) <= data {
      RustDecodesEncoding(b, data[|EncodeBlock(b)|..]);
      assert EncodeBlock(b) + data[|EncodeBlock(b)|..] == data;
    }
  }

  /** Whatever Rust accepts, Go accepts with the same block. */
  lemma GoAcceptsWhatRustAccepts(data: seq<Byte>)
    requires RustDecode(data).Ok?
    ensures GoDecode(data) == RustDecode(data)
  {
    GoFollowsRustThroughout(data[HEADER_SIZE..], Value(data[49..53]));
  }

  /** Both decoders recover a block from what the encoder made of it, whatever follows. */
  lemma RoundTrip(b: Block, suffix: seq<Byte>)
    requires Serialize(b).Ok?
    ensures RustDecode(Serialize(b).value + suffix) == Ok(b)
    ensures GoDecode(Serialize(b).value + suffix) == Ok(b)
  {
    SerializedIsEncodable(b);
    RustAcceptsIff(Serialize(b).value + suffix, b);
    GoAcceptsWhatRustAccepts(Serialize(b).value + suffix);
  }

  /** Encoding what was decoded gives back the part of the input that was read, of a length that
      the block determines. */
  lemma CanonicalDecoding(data: seq<Byte>)
    requires RustDecode(data).Ok? && |data| <= MAX_BLOCK_SIZE
    ensures var b := RustDecode(data).value;
      var n := HEADER_SIZE + PayloadSize(b.transactions);
      n <= |data| && Serialize(b) == Ok(data[..n])
  {
    var b := RustDecode(data).value;
    RustAcceptsIff(data, b);
    PayloadLength(b.transactions);
    assert data[..|EncodeBlock(b)|] == EncodeBlock(b);
  }

  /** The encoding of a block, short of the last bytes of its last transaction's data, of which at
      least one is left. */
  ghost predicate IsCutShort(data: seq<Byte>, b: Block, missing: nat) {
    && Encodable(b) && b.transactions != []
    && 0 < missing < |b.transactions[|b.transactions| - 1].data|
    && missing <= |EncodeBlock(b)|
    && data == EncodeBlock(b)[..|EncodeBlock(b)| - missing]
  }

  ghost predicate OnlyGoAccepts(rest: seq<Byte>, n: nat) {
    GoTransactions(rest, n).Ok? && RustTransactions(rest, n).Err?
  }

  function WithoutLast(s: seq<Byte>, missing: nat): seq<Byte>
    requires missing <= |s|
  {
    s[..|s| - missing]
  }

  lemma {:induction false} CutTransactions(txs: seq<Transaction>, missing: nat)
    requires txs != [] && ShortData(txs) && 0 < missing < |txs[|txs| - 1].data|
    ensures missing <= |EncodeTransactions(txs)|
    ensures OnlyGoAccepts(WithoutLast(EncodeTransactions(txs), missing), |txs|)
    decreases |txs|
  {
    if |txs| == 1 {
      CutOne(txs[0], missing);
      assert EncodeTransactions(txs[1..]) == [];
      assert EncodeTransactions(txs) == EncodeTransaction(txs[0]) + [] == EncodeTransaction(txs[0]);
      OneTransaction(WithoutLast(EncodeTransaction(txs[0]), missing));
    } else {
      CutTransactions(txs[1..], missing);
      CutAfterFirst(txs[0], EncodeTransactions(txs[1..]), |txs| - 1, missing);
    }
  }

  lemma CutOne(tx: Transaction, missing: nat)
    requires |tx.data| < U32_LIMIT && 0 < missing < |tx.data|
    ensures var rest := WithoutLast(EncodeTransaction(tx), missing);
      GoTransaction(rest).Ok? && RustTransaction(rest).Err?
  {
    var rest := WithoutLast(EncodeTransaction(tx), missing);
    assert EncodeTransaction(tx) + [] == EncodeTransaction(tx);
    TransactionParts(tx, []);
    assert rest[72..76] == EncodeTransaction(tx)[72..76] == BigEndian(|tx.data| % U32_LIMIT, 4);
    SizeField(|tx.data|);
    GoTransactionMeaning(rest);
  }

  lemma OneTransaction(rest: seq<Byte>)
    requires GoTransaction(rest).Ok? && RustTransaction(rest).Err?
    ensures OnlyGoAccepts(rest, 1)
  {
    assert GoTransactions(GoTransaction(rest).value.1, 0) == Ok([]);
  }

  lemma CutAfterFirst(tx: Transaction, more: seq<Byte>, n: nat, missing: nat)
    requires |tx.data| < U32_LIMIT && missing <= |more| && OnlyGoAccepts(WithoutLast(more, missing), n)
    ensures OnlyGoAccepts(WithoutLast(EncodeTransaction(tx) + more, missing), n + 1)
  {
    var cut := WithoutLast(more, missing);
    CutOfTail(EncodeTransaction(tx), more, missing);
    RustReadsTransaction(tx, cut);
    GoFollowsRust(EncodeTransaction(tx) + cut);
    ReadsFirst(EncodeTransaction(tx) + cut, tx, cut, n);
  }

  lemma CutOfTail(a: seq<Byte>, b: seq<Byte>, missing: nat)
    requires missing <= |b|
    ensures WithoutLast(a + b, missing) == a + WithoutLast(b, missing)
  {
  }

  lemma ReadsFirst(rest: seq<Byte>, tx: Transaction, rest': seq<Byte>, n: nat)
    requires GoTransaction(rest) == RustTransaction(rest) == Ok((tx, rest'))
    ensures GoTransactions(rest, n + 1).Ok? <==> GoTransactions(rest', n).Ok?
    ensures RustTransactions(rest, n + 1).Ok? <==> RustTransactions(rest', n).Ok?
  {
  }

  /** The bytes that were cut off come out of the Go decoder as zeros. */
  lemma OnlyGoDecodes(data: seq<Byte>) returns (missing: nat)
    requires GoDecode(data).Ok? && RustDecode(data).Err?
    ensures IsCutShort(data, GoDecode(data).value, missing)
    ensures EncodeBlock(GoDecode(data).value) == data + Zeros(missing)
  {
    var b := GoDecode(data).value;
    missing := OnlyGoReadsTransactions(data[HEADER_SIZE..], Value(data[49..53]));
    FieldsAreCanonical(data, b);
    assert data + Zeros(missing) == EncodeBlock(b);
  }

  lemma CutShortDecodes(data: seq<Byte>, b: Block, missing: nat)
    requires IsCutShort(data, b, missing)
    ensures GoDecode(data).Ok? && RustDecode(data).Err?
  {
    CutTransactions(b.transactions, missing);
    var body := EncodeTransactions(b.transactions);
    var cut := WithoutLast(body, missing);
    CutOfTail(EncodeFields(b.number, b.parentHash, b.timestamp, |b.transactions|), body, missing);
    FieldsRoundTrip(b, cut, GoTransactions(cut, |b.transactions|));
  }

  /** Go accepts and Rust rejects exactly the encodings cut short inside the last data field. */
  lemma DecodersDifferIff(data: seq<Byte>)
    ensures GoDecode(data).Ok? && RustDecode(data).Err? <==> exists b, missing :: IsCutShort(data, b, missing)
  {
    if GoDecode(data).Ok? && RustDecode(data).Err? {
      var missing := OnlyGoDecodes(data);
    }
    if b, missing :| IsCutShort(data, b, missing) {
      CutShortDecodes(data, b, missing);
    }
  }
}
