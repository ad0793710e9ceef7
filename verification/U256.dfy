/** 256-bit unsigned arithmetic over 32 big-endian bytes. */
module Arithmetic256 {
  import opened Wrappers
  import opened Bytes
  import opened Chain

  /** One more than the largest 256-bit number. */
  function Limit256(): nat { Pow256(32) }

  lemma LimitIs()
    ensures Limit256() == 0x1_00000000_00000000_00000000_00000000_00000000_00000000_00000000_00000000
  {
    assert Pow256(4) == 0x1_00000000;
    assert Pow256(8) == 0x1_00000000_00000000;
    assert Pow256(12) == 0x1_00000000_00000000_00000000;
    assert Pow256(16) == 0x1_00000000_00000000_00000000_00000000;
    assert Pow256(20) == 0x1_00000000_00000000_00000000_00000000_00000000;
    assert Pow256(24) == 0x1_00000000_00000000_00000000_00000000_00000000_00000000;
    assert Pow256(28) == 0x1_00000000_00000000_00000000_00000000_00000000_00000000_00000000;
  }

  /** The word that denotes n; byte strings of one length leave no choice. */
  ghost function WordOf(n: nat): (w: U256)
    requires n < Limit256()
    ensures Value(w) == n
  {
    ValueOfBigEndian(n, 32);
    var w: U256 :| Value(w) == n;
    w
  }

  /** The sum, when it is below 2^256. */
  ghost function Add(a: U256, b: U256): (r: Option<U256>)
    ensures r.Some? <==> Value(a) + Value(b) < Limit256()
    ensures r.Some? ==> Value(r.value) == Value(a) + Value(b)
  {
    if Value(a) + Value(b) < Limit256() then Some(WordOf(Value(a) + Value(b))) else None
  }

  /** The difference, when it is not negative. */
  ghost function Sub(a: U256, b: U256): (r: Option<U256>)
    ensures r.Some? <==> Value(b) <= Value(a)
    ensures r.Some? ==> Value(r.value) == Value(a) - Value(b)
  {
    ValueBound(a);
    if Value(b) <= Value(a) then Some(WordOf(Value(a) - Value(b))) else None
  }

  /** Subtracting what was added gives the very same bytes back, and the other way round. */
  lemma SubUndoesAdd(a: U256, b: U256)
    ensures Add(a, b).Some? ==> Sub(Add(a, b).value, b) == Some(a)
    ensures Sub(a, b).Some? ==> Add(Sub(a, b).value, b) == Some(a)
  {
    ValueBound(a);
    if Add(a, b).Some? {
      ValueInjective(Sub(Add(a, b).value, b).value, a);
    }
    if Sub(a, b).Some? {
      ValueInjective(Add(Sub(a, b).value, b).value, a);
    }
  }

  /** What a carry or borrow bit out of n bytes is worth. */
  function Weight(bit: nat, n: nat): nat {
    if bit == 0 then 0 else Pow256(n)
  }

  /** Byte-wise addition with carry, least significant byte first. */
  method CheckedAdd(a: U256, b: U256) returns (r: Option<U256>)
    ensures r == Add(a, b)
  {
    var result := new Byte[32](_ => 0);
    var carry: int := 0;
    var i := 32;
    while i > 0
      invariant 0 <= i <= 32
      invariant 0 <= carry <= 1
      invariant Value(a[i..]) + Value(b[i..]) == Value(result[i..]) + Weight(carry, 32 - i)
    {
      i := i - 1;
      var sum: int := a[i] + b[i] + carry;
      label Before:
      result[i] := sum % 256;
      assert result[i + 1..] == old@Before(result[i + 1..]);
      AddByte(a[i..], b[i..], result[i..], carry, sum / 256);
      carry := sum / 256;
    }
    assert a[0..] == a && b[0..] == b && result[0..] == result[..];
    SumIsAdd(a, b, result[..], carry);
    r := if carry > 0 then None else Some(result[..]);
  }

  lemma SumIsAdd(a: U256, b: U256, sum: U256, carry: nat)
    requires carry <= 1 && Value(a) + Value(b) == Value(sum) + Weight(carry, 32)
    ensures Add(a, b) == if carry > 0 then None else Some(sum)
  {
    ValueBound(sum);
    if carry == 0 {
      ValueInjective(sum, Add(a, b).value);
    }
  }

  lemma AddByte(a: seq<Byte>, b: seq<Byte>, r: seq<Byte>, carryIn: nat, carryOut: nat)
    requires |a| == |b| == |r| > 0 && carryIn <= 1 && carryOut <= 1
    requires a[0] + b[0] + carryIn == r[0] + 256 * carryOut
    requires Value(a[1..]) + Value(b[1..]) == Value(r[1..]) + Weight(carryIn, |a| - 1)
    ensures Value(a) + Value(b) == Value(r) + Weight(carryOut, |a|)
  {
    ValueFromFront(a);
    ValueFromFront(b);
    ValueFromFront(r);
    Carry(a[0], b[0], r[0], Pow256(|a| - 1), carryIn, carryOut);
  }

  lemma Carry(x: nat, y: nat, z: nat, p: nat, carryIn: nat, carryOut: nat)
    requires carryIn <= 1 && carryOut <= 1
    requires x + y + carryIn == z + 256 * carryOut
    ensures x * p + y * p + (if carryIn == 0 then 0 else p) == z * p + (if carryOut == 0 then 0 else 256 * p)
  {
    calc {
      x * p + y * p + carryIn * p;
      (x + y + carryIn) * p;
      (z + 256 * carryOut) * p;
      z * p + carryOut * (256 * p);
    }
  }

  /** Byte-wise subtraction with borrow, least significant byte first. */
  method CheckedSub(a: U256, b: U256) returns (r: Option<U256>)
    ensures r == Sub(a, b)
  {
    var result := new Byte[32](_ => 0);
    var borrow: int := 0;
    var i := 32;
    while i > 0
      invariant 0 <= i <= 32
      invariant 0 <= borrow <= 1
      invariant Value(a[i..]) + Weight(borrow, 32 - i) == Value(b[i..]) + Value(result[i..])
    {
      i := i - 1;
      var diff: int := a[i] - b[i] - borrow;
      label Before:
      ghost var borrowIn := borrow;
      if diff < 0 {
        result[i] := diff + 256;
        borrow := 1;
      } else {
        result[i] := diff;
        borrow := 0;
      }
      assert result[i..][0] == if diff < 0 then diff + 256 else diff;
      assert result[i..][1..] == result[i + 1..] == old@Before(result[i + 1..]);
      AddByte(b[i..], result[i..], a[i..], borrowIn, borrow);
    }
    assert a[0..] == a && b[0..] == b && result[0..] == result[..];
    DifferenceIsSub(a, b, result[..], borrow);
    r := if borrow > 0 then None else Some(result[..]);
  }

  lemma DifferenceIsSub(a: U256, b: U256, difference: U256, borrow: nat)
    requires borrow <= 1 && Value(a) + Weight(borrow, 32) == Value(b) + Value(difference)
    ensures Sub(a, b) == if borrow > 0 then None else Some(difference)
  {
    ValueBound(a);
    ValueBound(difference);
    if borrow == 0 {
      ValueInjective(difference, Sub(a, b).value);
    }
  }
}
