/** The Rust decoder as the source runs it: an offset into a slice, checked by hand. */
module RustCodec {
  import opened Wrappers
  import opened Bytes
  import opened Chain
  import opened Codec
  import GoCodec

  method DeserializeBlock(data: seq<Byte>) returns (r: Result<Block, DecodeError>)
    ensures r == RustDecode(data)
  {
    if |data| < 53 {
      return Err(TooShort);
    }
    var offset := 0;
    var version := data[offset];
    offset := offset + 1;
    if version != 1 {
      return Err(UnsupportedVersion(version));
    }
    var number := U64At(data, offset);
    offset := offset + 8;
    var parentHash: Hash := data[offset..offset + 32];
    offset := offset + 32;
    var timestamp := U64At(data, offset);
    offset := offset + 8;
    var txCount := Value(data[offset..offset + 4]);
    offset := offset + 4;

    var transactions: seq<Transaction> := [];
    GoCodec.PrependNothing(RustTransactions(data[HEADER_SIZE..], txCount));
    for i := 0 to txCount
      invariant HEADER_SIZE + TX_HEADER_SIZE * i <= offset <= |data|
      invariant RustTransactions(data[HEADER_SIZE..], txCount)
             == Prepend(transactions, RustTransactions(data[offset..], txCount - i))
    {
      var tx;
      tx, offset := DeserializeTransaction(data, offset);
      if tx.Err? {
        return Err(tx.error);
      }
      GoCodec.PrependTwice(transactions, [tx.value], RustTransactions(data[offset..], txCount - i - 1));
      transactions := transactions + [tx.value];
    }
    assert transactions + [] == transactions;
    return Ok(Block(number, parentHash, timestamp, transactions));
  }

  /** The body of the loop: from the offset it is given to the offset of the next transaction, at
      least 76 bytes further on, with every slice in bounds. */
  method DeserializeTransaction(data: seq<Byte>, start: nat) returns (r: Result<Transaction, DecodeError>, offset: nat)
    requires start <= |data|
    ensures match RustTransaction(data[start..])
            case Err(e) => r == Err(e)
            case Ok((tx, rest)) => r == Ok(tx) && start + TX_HEADER_SIZE <= offset <= |data| && rest == data[offset..]
  {
    offset := start;
    if offset + 20 + 20 + 32 + 4 > |data| {
      return Err(Truncated), offset;
    }
    var from: Address := data[offset..offset + 20];
    offset := offset + 20;
    var to: Address := data[offset..offset + 20];
    offset := offset + 20;
    var value: U256 := data[offset..offset + 32];
    offset := offset + 32;
    var dataLen := Value(data[offset..offset + 4]);
    offset := offset + 4;
    ghost var rest := data[start..];
    assert rest[..20] == from && rest[20..40] == to && rest[40..72] == value;
    assert rest[72..76] == data[offset - 4..offset];
    if offset + dataLen > |data| {
      return Err(Truncated), offset;
    }
    var txData := data[offset..offset + dataLen];
    offset := offset + dataLen;
    assert rest[76..76 + dataLen] == txData && rest[76 + dataLen..] == data[offset..];
    r := Ok(Transaction(from, to, value, txData));
  }
}
