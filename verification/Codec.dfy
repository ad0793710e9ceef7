/** The wire format of a block, and what the two decoders of it accept. */
module Codec {
  import opened Wrappers
  import opened Bytes
  import opened Chain

  const VERSION: Byte := 1
  const MAX_BLOCK_SIZE: nat := 10 * 1024 * 1024
  const HEADER_SIZE: nat := 53
  const TX_HEADER_SIZE: nat := 76

  datatype DecodeError = TooShort | UnsupportedVersion(version: Byte) | Truncated

  datatype EncodeError = TooLarge(size: nat)

  /** Lengths are written as 32-bit numbers; a longer one would lose its high bits. */
  function EncodeTransaction(tx: Transaction): (s: seq<Byte>)
    ensures |s| == TX_HEADER_SIZE + |tx.data|
  {
    tx.from + tx.to + tx.value + BigEndian(|tx.data| % U32_LIMIT, 4) + tx.data
  }

  function EncodeTransactions(txs: seq<Transaction>): seq<Byte> {
    if txs == [] then [] else EncodeTransaction(txs[0]) + EncodeTransactions(txs[1..])
  }

  function EncodeFields(number: U64, parentHash: Hash, timestamp: U64, count: nat): (s: seq<Byte>)
    ensures |s| == HEADER_SIZE
  {
    [VERSION] + BigEndian(number, 8) + parentHash + BigEndian(timestamp, 8) + BigEndian(count % U32_LIMIT, 4)
  }

  function EncodeBlock(b: Block): seq<Byte> {
    EncodeFields(b.number, b.parentHash, b.timestamp, |b.transactions|) + EncodeTransactions(b.transactions)
  }

  /** What the Go encoder returns: nothing above 10 MiB. */
  function Serialize(b: Block): Result<seq<Byte>, EncodeError> {
    if |EncodeBlock(b)| > MAX_BLOCK_SIZE then Err(TooLarge(|EncodeBlock(b)|)) else Ok(EncodeBlock(b))
  }

  /** The 32-bit counts are lossless. */
  ghost predicate Encodable(b: Block) {
    |b.transactions| < U32_LIMIT && ShortData(b.transactions)
  }

  ghost predicate ShortData(txs: seq<Transaction>) {
    forall i :: 0 <= i < |txs| ==> |txs[i].data| < U32_LIMIT
  }

  function PayloadSize(txs: seq<Transaction>): nat {
    if txs == [] then 0 else TX_HEADER_SIZE + |txs[0].data| + PayloadSize(txs[1..])
  }

  lemma {:induction false} PayloadLength(txs: seq<Transaction>)
    ensures |EncodeTransactions(txs)| == PayloadSize(txs) >= TX_HEADER_SIZE * |txs|
    ensures forall i :: 0 <= i < |txs| ==> |txs[i].data| <= PayloadSize(txs)
  {
    if txs != [] {
      PayloadLength(txs[1..]);
      assert forall i :: 1 <= i < |txs| ==> txs[i] == txs[1..][i - 1];
    }
  }

  /** Below the size limit nothing is lost in the 32-bit casts. */
  lemma SerializedIsEncodable(b: Block)
    requires Serialize(b).Ok?
    ensures Encodable(b)
  {
    PayloadLength(b.transactions);
  }

  // ---- the Rust decoder

  /** One transaction off the front; whatever is missing is an error. */
  function RustTransaction(rest: seq<Byte>): (r: Result<(Transaction, seq<Byte>), DecodeError>) {
    if |rest| < TX_HEADER_SIZE then Err(Truncated)
    else
      var size := Value(rest[72..76]);
      if |rest| < TX_HEADER_SIZE + size then Err(Truncated)
      else
        Ok((Transaction(rest[..20], rest[20..40], rest[40..72], rest[76..76 + size]), rest[76 + size..]))
  }

  function RustTransactions(rest: seq<Byte>, n: nat): Result<seq<Transaction>, DecodeError>
    decreases n
  {
    if n == 0 then Ok([])
    else
      match RustTransaction(rest)
      case Err(e) => Err(e)
      case Ok((tx, rest')) => Prepend([tx], RustTransactions(rest', n - 1))
  }

  function Prepend(txs: seq<Transaction>, r: Result<seq<Transaction>, DecodeError>)
      : Result<seq<Transaction>, DecodeError> {
    match r
    case Err(e) => Err(e)
    case Ok(more) => Ok(txs + more)
  }

  /** The fixed part, read the same way by both decoders. */
  function Fields(data: seq<Byte>, txs: Result<seq<Transaction>, DecodeError>): Result<Block, DecodeError>
    requires |data| >= HEADER_SIZE
  {
    match txs
    case Err(e) => Err(e)
    case Ok(transactions) => Ok(Block(U64At(data, 1), data[9..41], U64At(data, 41), transactions))
  }

  function U64At(data: seq<Byte>, at: nat): U64
    requires at + 8 <= |data|
  {
    ValueBound(data[at..at + 8]);
    U64Limit();
    Value(data[at..at + 8])
  }

  function RustDecode(data: seq<Byte>): Result<Block, DecodeError> {
    if |data| < HEADER_SIZE then Err(TooShort)
    else if data[0] != VERSION then Err(UnsupportedVersion(data[0]))
    else Fields(data, RustTransactions(data[HEADER_SIZE..], Value(data[49..53])))
  }

  // ---- the Go decoder

  /** bytes.Reader.Read into a zeroed buffer of n bytes: an error only when nothing is left,
      otherwise as much as there is, and the rest of the buffer stays zero. */
  function Read(rest: seq<Byte>, n: nat): (r: Option<(seq<Byte>, seq<Byte>)>)
    ensures r.Some? ==> |r.value.0| == n
  {
    if rest == [] then None
    else if |rest| < n then Some((rest + Zeros(n - |rest|), []))
    else Some((rest[..n], rest[n..]))
  }

  /** binary.Read of a fixed-size number: all n bytes or an error. */
  function ReadFull(rest: seq<Byte>, n: nat): (r: Option<(seq<Byte>, seq<Byte>)>)
    ensures r.Some? ==> |r.value.0| == n
  {
    if |rest| < n then None else Some((rest[..n], rest[n..]))
  }

  function GoTransaction(rest: seq<Byte>): Result<(Transaction, seq<Byte>), DecodeError> {
    match Read(rest, 20)
    case None => Err(Truncated)
    case Some((from, afterFrom)) =>
      match Read(afterFrom, 20)
      case None => Err(Truncated)
      case Some((to, afterTo)) =>
        match Read(afterTo, 32)
        case None => Err(Truncated)
        case Some((value, afterValue)) =>
          match ReadFull(afterValue, 4)
          case None => Err(Truncated)
          case Some((size, afterSize)) =>
            if Value(size) == 0 then Ok((Transaction(from, to, value, []), afterSize))
            else
              match Read(afterSize, Value(size))
              case None => Err(Truncated)
              case Some((data, afterData)) => Ok((Transaction(from, to, value, data), afterData))
  }

  function GoTransactions(rest: seq<Byte>, n: nat): Result<seq<Transaction>, DecodeError>
    decreases n
  {
    if n == 0 then Ok([])
    else
      match GoTransaction(rest)
      case Err(e) => Err(e)
      case Ok((tx, rest')) => Prepend([tx], GoTransactions(rest', n - 1))
  }

  function GoDecode(data: seq<Byte>): Result<Block, DecodeError> {
    if |data| < HEADER_SIZE then Err(TooShort)
    else if data[0] != VERSION then Err(UnsupportedVersion(data[0]))
    else Fields(data, GoTransactions(data[HEADER_SIZE..], Value(data[49..53])))
  }
}
