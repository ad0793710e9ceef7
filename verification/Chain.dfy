/** The values that travel through the system: accounts, transactions and blocks, and the
    48-byte header that identifies a block. */
module Chain {
  import opened Bytes

  type Address = s: seq<Byte> | |s| == 20 witness Zeros(20)
  type Word = s: seq<Byte> | |s| == 32 witness Zeros(32)
  type U256 = Word
  type Hash = Word

  /** BLAKE3 and SHA-256 are not modelled: a digest is any function of the bytes fed to it. */
  type Digest = seq<Byte> -> Hash

  datatype Account = Account(balance: U256, nonce: U64)

  datatype Transaction = Transaction(from: Address, to: Address, value: U256, data: seq<Byte>)

  datatype Block = Block(number: U64, parentHash: Hash, timestamp: U64, transactions: seq<Transaction>)

  /** Number, parent hash and timestamp. The transactions are not part of it. */
  function Header(b: Block): (h: seq<Byte>)
    ensures |h| == 48
  {
    BigEndian(b.number, 8) + b.parentHash + BigEndian(b.timestamp, 8)
  }

  function BlockHash(sha256: Digest, b: Block): Hash {
    sha256(Header(b))
  }

  /** Two blocks share a header exactly when they agree on everything but their transactions. */
  lemma HeaderIdentifies(a: Block, b: Block)
    ensures Header(a) == Header(b)
       <==> a.number == b.number && a.parentHash == b.parentHash && a.timestamp == b.timestamp
  {
    if Header(a) == Header(b) {
      assert Header(a)[..8] == BigEndian(a.number, 8) && Header(b)[..8] == BigEndian(b.number, 8);
      assert Header(a)[8..40] == a.parentHash && Header(b)[8..40] == b.parentHash;
      assert Header(a)[40..] == BigEndian(a.timestamp, 8) && Header(b)[40..] == BigEndian(b.timestamp, 8);
      U64Limit();
      BigEndianInjective(a.number, b.number, 8);
      BigEndianInjective(a.timestamp, b.timestamp, 8);
    }
  }

  /** Where the three parts lie, and how the numbers read. */
  lemma HeaderLayout(b: Block)
    ensures Value(Header(b)[..8]) == b.number
    ensures forall i :: 0 <= i < 32 ==> Header(b)[8 + i] == b.parentHash[i]
    ensures Value(Header(b)[40..]) == b.timestamp
  {
    U64Limit();
    ValueOfBigEndian(b.number, 8);
    ValueOfBigEndian(b.timestamp, 8);
    assert Header(b)[..8] == BigEndian(b.number, 8) && Header(b)[40..] == BigEndian(b.timestamp, 8);
  }

  /** The header as the source writes it, byte by byte into a fixed buffer. */
  method HashOf(sha256: Digest, b: Block) returns (h: Hash)
    ensures h == BlockHash(sha256, b) == sha256(Header(b))
  {
    var buf := new Byte[48];
    WriteU64(buf, 0, b.number);
    label Numbered:
    for i := 0 to 32
      invariant buf[..8] == old@Numbered(buf[..8])
      invariant forall k :: 0 <= k < i ==> buf[8 + k] == b.parentHash[k]
    {
      buf[8 + i] := b.parentHash[i];
    }
    assert buf[8..40] == b.parentHash;
    WriteU64(buf, 40, b.timestamp);
    assert buf[..40] == buf[..8] + buf[8..40];
    assert buf[..] == buf[..40] + buf[40..48] == Header(b);
    h := sha256(buf[..]);
  }

  /** Eight shifted bytes at `at`, most significant first; the rest of the buffer stays. */
  method WriteU64(buf: array<Byte>, at: nat, n: U64)
    requires at + 8 <= buf.Length
    modifies buf
    ensures buf[at..at + 8] == BigEndian(n, 8)
    ensures buf[..at] == old(buf[..at]) && buf[at + 8..] == old(buf[at + 8..])
  {
    buf[at] := n / 0x100_0000_0000_0000 % 256;
    buf[at + 1] := n / 0x1_0000_0000_0000 % 256;
    buf[at + 2] := n / 0x100_0000_0000 % 256;
    buf[at + 3] := n / 0x1_0000_0000 % 256;
    buf[at + 4] := n / 0x100_0000 % 256;
    buf[at + 5] := n / 0x1_0000 % 256;
    buf[at + 6] := n / 0x100 % 256;
    buf[at + 7] := n % 256;
    ShiftedBytes(n);
    assert buf[at..at + 8] == BigEndian(n, 8);
  }

  lemma ShiftedBytes(n: U64)
    ensures BigEndian(n, 8) == [
      n / 0x100_0000_0000_0000 % 256, n / 0x1_0000_0000_0000 % 256, n / 0x100_0000_0000 % 256,
      n / 0x1_0000_0000 % 256, n / 0x100_0000 % 256, n / 0x1_0000 % 256, n / 0x100 % 256, n % 256]
  {
    assert Pow256(0) == 1 && Pow256(1) == 0x100 && Pow256(2) == 0x1_0000 && Pow256(3) == 0x100_0000;
    assert Pow256(4) == 0x1_0000_0000 && Pow256(5) == 0x100_0000_0000;
    assert Pow256(6) == 0x1_0000_0000_0000 && Pow256(7) == 0x100_0000_0000_0000;
    forall i: nat | i < 8
      ensures BigEndian(n, 8)[i] == n / Pow256(7 - i) % 256
    {
      BigEndianAt(n, 8, i);
    }
  }
}
