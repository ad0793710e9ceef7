/** Byte strings and their big-endian reading, shared by the 256-bit arithmetic, the
    block codec and the hash preimages. */
module Bytes {

  type Byte = x: int | 0 <= x < 256

  const U32_LIMIT: int := 0x1_0000_0000
  const U64_LIMIT: int := 0x1_0000_0000_0000_0000

  type U64 = x: int | 0 <= x < U64_LIMIT

  /** 256 to the power n. */
  function Pow256(n: nat): (p: nat)
    ensures p > 0
  {
    if n == 0 then 1 else 256 * Pow256(n - 1)
  }

  /** The number a byte string denotes, most significant byte first. */
  function Value(s: seq<Byte>): (v: nat) {
    if s == [] then 0 else 256 * Value(s[..|s| - 1]) + s[|s| - 1]
  }

  /** The low `len` bytes of n, most significant byte first. */
  function BigEndian(n: nat, len: nat): (s: seq<Byte>)
    ensures |s| == len
  {
    if len == 0 then [] else BigEndian(n / 256, len - 1) + [n % 256]
  }

  function Zeros(n: nat): (s: seq<Byte>)
    ensures |s| == n
  {
    seq(n, _ => 0)
  }

  lemma {:induction false} ValueBound(s: seq<Byte>)
    ensures Value(s) < Pow256(|s|)
  {
    if s != [] {
      ValueBound(s[..|s| - 1]);
    }
  }

  /** Encoding then reading gives the number back exactly when it fits. */
  lemma {:induction false} ValueOfBigEndian(n: nat, len: nat)
    ensures Value(BigEndian(n, len)) == n <==> n < Pow256(len)
  {
    var s := BigEndian(n, len);
    ValueBound(s);
    if len > 0 {
      ValueOfBigEndian(n / 256, len - 1);
      assert s[..|s| - 1] == BigEndian(n / 256, len - 1);
    }
  }

  /** Reading then encoding gives the bytes back. */
  lemma {:induction false} BigEndianOfValue(s: seq<Byte>)
    ensures BigEndian(Value(s), |s|) == s
  {
    if s != [] {
      var front := s[..|s| - 1];
      BigEndianOfValue(front);
      assert s == front + [s[|s| - 1]];
    }
  }

  /** Byte strings of one length are determined by the number they denote. */
  lemma ValueInjective(s: seq<Byte>, t: seq<Byte>)
    requires |s| == |t|
    requires Value(s) == Value(t)
    ensures s == t
  {
    BigEndianOfValue(s);
    BigEndianOfValue(t);
  }

  lemma BigEndianInjective(m: nat, n: nat, len: nat)
    requires m < Pow256(len) && n < Pow256(len)
    requires BigEndian(m, len) == BigEndian(n, len)
    ensures m == n
  {
    ValueOfBigEndian(m, len);
    ValueOfBigEndian(n, len);
  }

  /** The same reading, split at the most significant byte. */
  lemma {:induction false} ValueFromFront(s: seq<Byte>)
    requires s != []
    ensures Value(s) == s[0] * Pow256(|s| - 1) + Value(s[1..])
  {
    if |s| == 1 {
      assert s[..0] == [] && s[1..] == [];
    } else {
      var front, last := s[..|s| - 1], s[|s| - 1];
      ValueFromFront(front);
      assert s[1..][..|s| - 2] == front[1..];
      var p := Pow256(|s| - 2);
      assert Pow256(|s| - 1) == 256 * p;
      calc {
        Value(s);
        256 * (s[0] * p + Value(front[1..])) + last;
        256 * (s[0] * p) + Value(s[1..]);
        { assert 256 * (s[0] * p) == s[0] * (256 * p); }
        s[0] * Pow256(|s| - 1) + Value(s[1..]);
      }
    }
  }

  lemma {:induction false} ValueOfZeros(n: nat)
    ensures Value(Zeros(n)) == 0
  {
    if n > 0 {
      ValueOfZeros(n - 1);
      assert Zeros(n)[..n - 1] == Zeros(n - 1);
    }
  }

  lemma DivDiv(n: nat, p: nat)
    requires p > 0
    ensures (n / 256) / p == n / (256 * p)
  {
    var q, r := n / (256 * p), n % (256 * p);
    assert 256 * p * q == 256 * (p * q);
    assert n == 256 * (p * q) + r;
    assert n / 256 == p * q + r / 256;
    assert r / 256 < p;
    DivUnique(n / 256, p, q, r / 256);
  }

  lemma SmallModulo(n: nat, d: nat)
    requires n < d
    ensures n % d == n
  {
  }

  lemma DivUnique(n: nat, d: nat, q: nat, r: nat)
    requires d > 0 && r < d && n == d * q + r
    ensures n / d == q
  {
    var q', r' := n / d, n % d;
    var gap := q - q';
    assert d * gap == r' - r by {
      assert n == d * q' + r';
      assert d * (q - q') == d * q - d * q';
    }
    MultipleSize(d, gap);
  }

  lemma MultipleSize(d: int, k: int)
    requires d > 0
    ensures k >= 1 ==> d * k >= d
    ensures k <= -1 ==> d * k <= -d
  {
  }

  /** The byte that shifting by whole bytes selects. */
  lemma {:induction false} BigEndianAt(n: nat, len: nat, i: nat)
    requires i < len
    ensures BigEndian(n, len)[i] == n / Pow256(len - 1 - i) % 256
  {
    if i < len - 1 {
      BigEndianAt(n / 256, len - 1, i);
      DivDiv(n, Pow256(len - 2 - i));
    } else {
      assert Pow256(0) == 1;
    }
  }

  lemma U64Limit()
    ensures Pow256(8) == U64_LIMIT
    ensures Pow256(4) == U32_LIMIT
  {
  }
}
