/** A fixed-size circular buffer as a value, and the bounded list it stands for. The block buffer
    and both latency trackers are such buffers. */
module Circular {
  import opened Bytes

  /** `index` is the slot the next element goes to. */
  datatype Ring<T> = Ring(slots: seq<T>, index: nat, size: nat)

  /** Until it is full a ring is filled from slot 0. */
  predicate Valid<T>(r: Ring<T>) {
    && r.index < |r.slots|
    && r.size <= |r.slots|
    && (r.size < |r.slots| ==> r.index == r.size)
  }

  /** The slot of the k-th oldest element. */
  function Slot<T>(r: Ring<T>, k: nat): (slot: nat)
    requires Valid(r)
    ensures slot < |r.slots|
  {
    (r.index - r.size + k + |r.slots|) % |r.slots|
  }

  /** The elements, oldest first. */
  function Contents<T>(r: Ring<T>): (c: seq<T>)
    requires Valid(r)
    ensures |c| == r.size
  {
    seq(r.size, k requires 0 <= k < r.size => r.slots[Slot(r, k)])
  }

  function Push<T>(r: Ring<T>, x: T): Ring<T>
    requires Valid(r)
  {
    Ring(r.slots[r.index := x], (r.index + 1) % |r.slots|, if r.size < |r.slots| then r.size + 1 else r.size)
  }

  /** Truncation as the block buffer does it: the size is clamped, the index reset. */
  function Truncate<T>(r: Ring<T>, keep: int): Ring<T>
    requires Valid(r)
  {
    var kept := if keep < 0 then 0 else if keep > r.size then r.size else keep;
    Ring(r.slots, kept % |r.slots|, kept)
  }

  function LastN<T>(s: seq<T>, n: nat): seq<T> {
    if |s| <= n then s else s[|s| - n..]
  }

  lemma Wrap(x: nat, d: nat)
    requires x < d
    ensures x % d == x && (x + d) % d == x
  {
    DivUnique(x + d, d, 1, x);
    DivUnique(x, d, 0, x);
  }

  /** The slots run from the oldest element, with one wrap at most. */
  lemma SlotIs<T>(r: Ring<T>, k: nat)
    requires Valid(r) && k < |r.slots|
    ensures r.size < |r.slots| ==> Slot(r, k) == k
    ensures r.size == |r.slots| ==>
      Slot(r, k) == if r.index + k < |r.slots| then r.index + k else r.index + k - |r.slots|
  {
    var n := |r.slots|;
    if r.size < n {
      Wrap(k, n);
    } else if r.index + k < n {
      Wrap(r.index + k, n);
    } else {
      Wrap(r.index + k - n, n);
    }
  }

  lemma PushIsValid<T>(r: Ring<T>, x: T)
    requires Valid(r)
    ensures Valid(Push(r, x))
  {
    if r.index + 1 < |r.slots| {
      Wrap(r.index + 1, |r.slots|);
    } else {
      Wrap(0, |r.slots|);
    }
  }

  lemma PushWhileFilling<T>(r: Ring<T>, x: T)
    requires Valid(r) && Valid(Push(r, x)) && r.size < |r.slots|
    ensures Contents(Push(r, x)) == Contents(r) + [x]
  {
    var r' := Push(r, x);
    if r.index + 1 < |r.slots| {
      Wrap(r.index + 1, |r.slots|);
    } else {
      Wrap(0, |r.slots|);
    }
    forall k | 0 <= k < r'.size
      ensures Contents(r')[k] == (Contents(r) + [x])[k]
    {
      SlotIs(r', k);
      SlotIs(r, k);
    }
  }

  lemma PushWhenFull<T>(r: Ring<T>, x: T)
    requires Valid(r) && Valid(Push(r, x)) && r.size == |r.slots|
    ensures Contents(Push(r, x)) == Contents(r)[1..] + [x]
  {
    var r' := Push(r, x);
    if r.index + 1 < |r.slots| {
      Wrap(r.index + 1, |r.slots|);
    } else {
      Wrap(0, |r.slots|);
    }
    forall k | 0 <= k < r'.size
      ensures Contents(r')[k] == (Contents(r)[1..] + [x])[k]
    {
      SlotIs(r', k);
      if k + 1 < |r.slots| {
        SlotIs(r, k + 1);
      }
    }
  }

  /** Adding appends, and drops the oldest element once the buffer is full. */
  lemma PushAppends<T>(r: Ring<T>, x: T)
    requires Valid(r)
    ensures Valid(Push(r, x))
    ensures Contents(Push(r, x)) == LastN(Contents(r) + [x], |r.slots|)
  {
    PushIsValid(r, x);
    if r.size < |r.slots| {
      PushWhileFilling(r, x);
    } else {
      PushWhenFull(r, x);
    }
  }

  function PushAll<T>(r: Ring<T>, xs: seq<T>): (r': Ring<T>)
    requires Valid(r)
    ensures Valid(r') && |r'.slots| == |r.slots|
  {
    if xs == [] then r
    else
      var mid := PushAll(r, xs[..|xs| - 1]);
      PushIsValid(mid, xs[|xs| - 1]);
      Push(mid, xs[|xs| - 1])
  }

  /** However many elements were added, the buffer is the list of the last ones. */
  lemma {:induction false} PushAllIsLastN<T>(r: Ring<T>, xs: seq<T>)
    requires Valid(r)
    ensures Contents(PushAll(r, xs)) == LastN(Contents(r) + xs, |r.slots|)
  {
    if xs == [] {
      assert Contents(r) + xs == Contents(r);
    } else {
      var front, last := xs[..|xs| - 1], xs[|xs| - 1];
      PushAllIsLastN(r, front);
      PushAppends(PushAll(r, front), last);
      assert Contents(r) + xs == Contents(r) + front + [last];
      LastNAppend(Contents(r) + front, last, |r.slots|);
    }
  }

  lemma LastNAppend<T>(s: seq<T>, x: T, n: nat)
    ensures LastN(LastN(s, n) + [x], n) == LastN(s + [x], n)
  {
  }

  lemma TruncateIsValid<T>(r: Ring<T>, keep: int)
    requires Valid(r)
    ensures Valid(Truncate(r, keep))
  {
    var kept := Truncate(r, keep).size;
    if kept < |r.slots| {
      Wrap(kept, |r.slots|);
    } else {
      Wrap(0, |r.slots|);
    }
  }

  /** Truncation keeps as many elements as it is told to, as far as there are any, and always leaves the oldest
      element it keeps in slot 0. */
  lemma TruncateTakesSlots<T>(r: Ring<T>, keep: int)
    requires Valid(r)
    ensures Valid(Truncate(r, keep))
    ensures Contents(Truncate(r, keep)) == r.slots[..Truncate(r, keep).size]
    ensures keep <= 0 ==> |Contents(Truncate(r, keep))| == 0
    ensures 0 <= keep <= |Contents(r)| ==> |Contents(Truncate(r, keep))| == keep
    ensures keep >= |Contents(r)| ==> |Contents(Truncate(r, keep))| == |Contents(r)|
    ensures Truncate(r, keep).index == Truncate(r, keep).size % |r.slots|
  {
    TruncateIsValid(r, keep);
    var r' := Truncate(r, keep);
    Wrap(0, |r.slots|);
    forall k | 0 <= k < r'.size
      ensures Contents(r')[k] == r.slots[k]
    {
      SlotIs(r', k);
    }
  }

  /** A full ring in slot order: the newest elements, then, from the index on, the oldest. */
  lemma SlotsOfFull<T>(r: Ring<T>)
    requires Valid(r) && r.size == |r.slots|
    ensures var wrap := |r.slots| - r.index;
      r.slots == Contents(r)[wrap..] + Contents(r)[..wrap]
  {
    var n, wrap := |r.slots|, |r.slots| - r.index;
    forall slot | 0 <= slot < n
      ensures r.slots[slot] == (Contents(r)[wrap..] + Contents(r)[..wrap])[slot]
    {
      SlotIs(r, if slot < r.index then slot + wrap else slot - r.index);
    }
  }

  ghost predicate Distinct<T>(s: seq<T>) {
    forall i, j :: 0 <= i < j < |s| ==> s[i] != s[j]
  }

  /** Truncation keeps the oldest elements exactly when the oldest one lies in slot 0, or when it
      keeps none. */
  lemma TruncateKeepsOldestIff<T>(r: Ring<T>, keep: int)
    requires Valid(r) && Distinct(Contents(r))
    ensures Valid(Truncate(r, keep))
    ensures var kept := Truncate(r, keep).size;
      Contents(Truncate(r, keep)) == Contents(r)[..kept] <==> kept == 0 || r.index == r.size % |r.slots|
  {
    TruncateTakesSlots(r, keep);
    var n, kept := |r.slots|, Truncate(r, keep).size;
    Wrap(0, n);
    if r.size < n {
      Wrap(r.size, n);
    }
    forall k | 0 <= k < r.size
      ensures Contents(r)[k] == r.slots[Slot(r, k)]
      ensures r.size < n || r.index == 0 ==> Slot(r, k) == k
    {
      SlotIs(r, k);
    }
    if kept > 0 && r.size == n && r.index != 0 {
      SlotIs(r, 0);
      SlotIs(r, n - r.index);
      assert Contents(r)[n - r.index] == r.slots[0];
      assert Contents(r)[0] != Contents(r)[n - r.index];
      assert Contents(Truncate(r, keep))[0] == r.slots[0];
    }
  }
}
