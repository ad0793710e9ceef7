/** The two circular latency buffers. Latencies are real numbers here. */
module Trackers {
  import opened Circular

  /** The latest `limit` elements, newest first; all of them when the limit is not positive. */
  function Newest(contents: seq<real>, limit: int): (r: seq<real>)
    ensures |r| == if 0 < limit < |contents| then limit else |contents|
  {
    var count := if 0 < limit < |contents| then limit else |contents|;
    seq(count, i requires 0 <= i < count => contents[|contents| - 1 - i])
  }

  /** Go's remainder has the sign of the dividend. */
  function GoRemainder(a: int, b: int): int
    requires b > 0
  {
    if a >= 0 then a % b else -((-a) % b)
  }

  lemma RemainderMeaning(a: int, b: int) returns (q: int)
    requires b > 0
    ensures var r := GoRemainder(a, b);
      a == q * b + r && -b < r < b && (a >= 0 ==> r >= 0) && (a <= 0 ==> r <= 0)
  {
    q := if a >= 0 then a / b else -((-a) / b);
    if a < 0 {
      assert -a == ((-a) / b) * b + (-a) % b;
      assert -((-a) / b) * b == -(((-a) / b) * b);
    }
  }

  class Tracker {
    const latencies: array<real>
    var index: nat
    var size: nat

    constructor (capacity: nat)
      requires capacity > 0
      ensures fresh(latencies) && latencies.Length == capacity
      ensures Valid(View()) && Contents(View()) == []
    {
      latencies := new real[capacity](_ => 0.0);
      index := 0;
      size := 0;
    }

    ghost function View(): Ring<real>
      reads this, latencies
    {
      Ring(latencies[..], index, size)
    }

    method Record(latencyMs: real)
      requires Valid(View())
      modifies this, latencies
      ensures Valid(View()) && View() == Push(old(View()), latencyMs)
    {
      PushIsValid(View(), latencyMs);
      latencies[index] := latencyMs;
      index := (index + 1) % latencies.Length;
      if size < latencies.Length {
        size := size + 1;
      }
    }

    /** The copy that the percentiles are taken of: the occupied slots, in slot order. */
    method CopyOccupied() returns (copied: seq<real>)
      requires Valid(View())
      ensures multiset(copied) == multiset(Contents(View()))
    {
      copied := [];
      for i := 0 to size
        invariant copied == latencies[..i]
      {
        copied := copied + [latencies[i]];
      }
      OccupiedSlots(View());
    }

    method GetLatencies(limit: int) returns (r: seq<real>)
      requires Valid(View())
      ensures r == Newest(Contents(View()), limit)
    {
      if size == 0 {
        return [];
      }
      var capacity := latencies.Length;
      var count := size;
      if limit > 0 && limit < count {
        count := limit;
      }
      r := [];
      for i := 0 to count
        invariant |r| == i && forall k :: 0 <= k < i ==> r[k] == Contents(View())[size - 1 - k]
      {
        var idx := GoRemainder(index - 1 - i + capacity, capacity);
        NewestSlot(View(), i);
        if idx < 0 {
          idx := idx + capacity;
        }
        r := r + [latencies[idx]];
      }
    }
  }

  /** The remainder is never negative, and is the slot of the i-th newest element. */
  lemma NewestSlot(r: Ring<real>, i: nat)
    requires Valid(r) && i < r.size
    ensures GoRemainder(r.index - 1 - i + |r.slots|, |r.slots|) == Slot(r, r.size - 1 - i)
  {
  }

  /** Whatever the order of the slots, the occupied ones hold exactly the retained elements. */
  lemma OccupiedSlots(r: Ring<real>)
    requires Valid(r)
    ensures multiset(r.slots[..r.size]) == multiset(Contents(r))
  {
    forall k | 0 <= k < r.size
      ensures Slot(r, k) == if r.size < |r.slots| then k
                            else if r.index + k < |r.slots| then r.index + k
                            else r.index + k - |r.slots|
    {
      SlotIs(r, k);
    }
    if r.size < |r.slots| {
      assert Contents(r) == r.slots[..r.size];
    } else {
      assert Contents(r) == r.slots[r.index..] + r.slots[..r.index];
      assert r.slots[..r.size] == r.slots[..r.index] + r.slots[r.index..];
    }
  }

  /** After any number of records the newest latencies are the reverse of the last ones recorded, and the
      occupied slots hold exactly the last `capacity` of them. */
  lemma RecordsRetained(r: Ring<real>, records: seq<real>, limit: int)
    requires Valid(r) && r.size == 0
    ensures var end, last := PushAll(r, records), LastN(records, |r.slots|);
      && Newest(Contents(end), limit) == Newest(last, limit)
      && multiset(end.slots[..end.size]) == multiset(last)
      && |Newest(last, limit)| <= |records|
      && (0 < limit <= |records| && limit <= |r.slots| ==> |Newest(last, limit)| == limit)
      && (limit <= 0 || limit > |records| || limit > |r.slots| ==>
            |Newest(last, limit)| == if |records| < |r.slots| then |records| else |r.slots|)
      && forall i :: 0 <= i < |Newest(last, limit)| ==> Newest(last, limit)[i] == records[|records| - 1 - i]
  {
    PushAllIsLastN(r, records);
    assert Contents(r) + records == records;
    OccupiedSlots(PushAll(r, records));
    NewestOfLast(records, |r.slots|, limit);
  }

  lemma NewestOfLast(records: seq<real>, capacity: nat, limit: int)
    ensures var newest := Newest(LastN(records, capacity), limit);
      |newest| <= |records| && forall i :: 0 <= i < |newest| ==> newest[i] == records[|records| - 1 - i]
  {
  }
}
