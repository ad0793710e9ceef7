/** The Go encoder and decoder as the source runs them: over a growing buffer and a reader with a
    moving position. */
module GoCodec {
  import opened Wrappers
  import opened Bytes
  import opened Chain
  import opened Codec

  /** bytes.Buffer. */
  class Buffer {
    var contents: seq<Byte>

    constructor ()
      ensures contents == []
    {
      contents := [];
    }

    method Write(p: seq<Byte>)
      modifies this
      ensures contents == old(contents) + p
    {
      contents := contents + p;
    }
  }

  /** bytes.Reader. */
  class Reader {
    const data: seq<Byte>
    var pos: nat

    constructor (data: seq<Byte>)
      ensures this.data == data && Valid() && Rest() == data
    {
      this.data := data;
      pos := 0;
    }

    ghost predicate Valid()
      reads this
    {
      pos <= |data|
    }

    ghost function Rest(): seq<Byte>
      requires Valid()
      reads this
    {
      data[pos..]
    }

    /** Fills a zeroed buffer of n bytes as far as the data goes. */
    method Read(n: nat) returns (r: Option<seq<Byte>>)
      requires Valid()
      modifies this
      ensures Valid()
      ensures match Codec.Read(old(Rest()), n)
              case None => r == None && Rest() == old(Rest())
              case Some((bytes, rest)) => r == Some(bytes) && Rest() == rest
    {
      if pos >= |data| {
        return None;
      }
      var p := new Byte[n](_ => 0);
      var k := 0;
      while k < n && pos + k < |data|
        invariant k <= n && pos + k <= |data| && pos == old(pos)
        invariant p[..k] == data[pos..pos + k]
        invariant p[k..] == Zeros(n - k)
      {
        p[k] := data[pos + k];
        k := k + 1;
        assert p[..k] == p[..k - 1] + [p[k - 1]];
      }
      ghost var rest := data[pos..];
      assert p[..] == p[..k] + p[k..] == rest[..k] + Zeros(n - k);
      assert data[pos + k..] == rest[k..];
      assert k == |rest| ==> rest[..k] == rest;
      assert k == n ==> p[..] == rest[..n];
      pos := pos + k;
      return Some(p[..]);
    }

    /** io.ReadFull, as used for the numbers. */
    method ReadFull(n: nat) returns (r: Option<seq<Byte>>)
      requires Valid()
      modifies this
      ensures Valid()
      ensures match Codec.ReadFull(old(Rest()), n)
              case None => r == None
              case Some((bytes, rest)) => r == Some(bytes) && Rest() == rest
    {
      if |data| - pos < n {
        pos := |data|;
        return None;
      }
      assert data[pos..][..n] == data[pos..pos + n] && data[pos..][n..] == data[pos + n..];
      r := Some(data[pos..pos + n]);
      pos := pos + n;
    }
  }

  method SerializeBlock(b: Block) returns (r: Result<seq<Byte>, EncodeError>)
    ensures r == Serialize(b)
  {
    var buf := new Buffer();
    SerializeFields(buf, b);
    SerializeTransactions(buf, b.transactions);
    var data := buf.contents;
    if |data| > MAX_BLOCK_SIZE {
      return Err(TooLarge(|data|));
    }
    return Ok(data);
  }

  method SerializeFields(buf: Buffer, b: Block)
    requires buf.contents == []
    modifies buf
    ensures buf.contents == EncodeFields(b.number, b.parentHash, b.timestamp, |b.transactions|)
  {
    buf.Write([VERSION]);
    buf.Write(BigEndian(b.number, 8));
    buf.Write(b.parentHash);
    buf.Write(BigEndian(b.timestamp, 8));
    buf.Write(BigEndian(|b.transactions| % U32_LIMIT, 4));
    assert [] + [VERSION] == [VERSION];
  }

  method SerializeTransactions(buf: Buffer, txs: seq<Transaction>)
    modifies buf
    ensures buf.contents == old(buf.contents) + EncodeTransactions(txs)
  {
    for i := 0 to |txs|
      invariant buf.contents + EncodeTransactions(txs[i..]) == old(buf.contents) + EncodeTransactions(txs)
    {
      ghost var before := buf.contents;
      SerializeTransaction(buf, txs[i]);
      ghost var more := EncodeTransactions(txs[i + 1..]);
      assert txs[i..][1..] == txs[i + 1..];
      assert before + (EncodeTransaction(txs[i]) + more) == before + EncodeTransaction(txs[i]) + more;
    }
    assert EncodeTransactions(txs[|txs|..]) == [];
    assert buf.contents + [] == buf.contents;
  }

  method SerializeTransaction(buf: Buffer, tx: Transaction)
    modifies buf
    ensures buf.contents == old(buf.contents) + EncodeTransaction(tx)
  {
    buf.Write(tx.from);
    buf.Write(tx.to);
    buf.Write(tx.value);
    buf.Write(BigEndian(|tx.data| % U32_LIMIT, 4));
    if |tx.data| > 0 {
      buf.Write(tx.data);
    }
  }

  method DeserializeBlock(data: seq<Byte>) returns (r: Result<Block, DecodeError>)
    ensures r == GoDecode(data)
  {
    if |data| < HEADER_SIZE {
      return Err(TooShort);
    }
    var buf := new Reader(data);
    var version := buf.ReadFull(1);
    if version.value[0] != VERSION {
      return Err(UnsupportedVersion(version.value[0]));
    }
    var number, parentHash, timestamp, txCount := DeserializeFields(buf, data);
    var transactions := DeserializeTransactions(buf, txCount);
    return match transactions
      case Err(e) => Err(e)
      case Ok(txs) => Ok(Block(number, parentHash, timestamp, txs));
  }

  method DeserializeFields(buf: Reader, ghost data: seq<Byte>)
      returns (number: U64, parentHash: Hash, timestamp: U64, txCount: nat)
    requires buf.Valid() && |data| >= HEADER_SIZE && buf.Rest() == data[1..]
    modifies buf
    ensures buf.Valid() && buf.Rest() == data[HEADER_SIZE..]
    ensures number == U64At(data, 1) && parentHash == data[9..41] && timestamp == U64At(data, 41)
    ensures txCount == Value(data[49..53])
  {
    var numberBytes := buf.ReadFull(8);
    Cut(data, 1, 8);
    var hashBytes := buf.Read(32);
    Cut(data, 9, 32);
    var timeBytes := buf.ReadFull(8);
    Cut(data, 41, 8);
    var countBytes := buf.ReadFull(4);
    Cut(data, 49, 4);
    ValueBound(numberBytes.value);
    ValueBound(timeBytes.value);
    U64Limit();
    number, timestamp := Value(numberBytes.value), Value(timeBytes.value);
    parentHash, txCount := hashBytes.value, Value(countBytes.value);
  }

  lemma Cut(data: seq<Byte>, at: nat, n: nat)
    requires at + n <= |data|
    ensures data[at..][..n] == data[at..at + n] && data[at..][n..] == data[at + n..]
  {
  }

  method DeserializeTransactions(buf: Reader, txCount: nat) returns (r: Result<seq<Transaction>, DecodeError>)
    requires buf.Valid()
    modifies buf
    ensures r == GoTransactions(old(buf.Rest()), txCount)
  {
    var transactions: seq<Transaction> := [];
    PrependNothing(GoTransactions(buf.Rest(), txCount));
    for i := 0 to txCount
      invariant buf.Valid()
      invariant GoTransactions(old(buf.Rest()), txCount)
             == Prepend(transactions, GoTransactions(buf.Rest(), txCount - i))
    {
      var tx := DeserializeTransaction(buf);
      if tx.Err? {
        return Err(tx.error);
      }
      PrependTwice(transactions, [tx.value], GoTransactions(buf.Rest(), txCount - i - 1));
      transactions := transactions + [tx.value];
    }
    assert transactions + [] == transactions;
    return Ok(transactions);
  }

  lemma PrependNothing(r: Result<seq<Transaction>, DecodeError>)
    ensures Prepend([], r) == r
  {
    if r.Ok? {
      assert [] + r.value == r.value;
    }
  }

  lemma PrependTwice(a: seq<Transaction>, b: seq<Transaction>, r: Result<seq<Transaction>, DecodeError>)
    ensures Prepend(a, Prepend(b, r)) == Prepend(a + b, r)
  {
    if r.Ok? {
      assert a + (b + r.value) == a + b + r.value;
    }
  }

  method DeserializeTransaction(buf: Reader) returns (r: Result<Transaction, DecodeError>)
    requires buf.Valid()
    modifies buf
    ensures buf.Valid()
    ensures match GoTransaction(old(buf.Rest()))
            case Err(e) => r == Err(e)
            case Ok((tx, rest)) => r == Ok(tx) && buf.Rest() == rest
  {
    var from := buf.Read(20);
    if from.None? {
      return Err(Truncated);
    }
    var to := buf.Read(20);
    if to.None? {
      return Err(Truncated);
    }
    var value := buf.Read(32);
    if value.None? {
      return Err(Truncated);
    }
    var size := buf.ReadFull(4);
    if size.None? {
      return Err(Truncated);
    }
    var dataLen := Value(size.value);
    var data: seq<Byte> := [];
    if dataLen > 0 {
      var read := buf.Read(dataLen);
      if read.None? {
        return Err(Truncated);
      }
      data := read.value;
    }
    return Ok(Transaction(from.value, to.value, value.value, data));
  }
}
