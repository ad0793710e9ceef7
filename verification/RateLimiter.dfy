/** The fixed-window rate limiter, one counter per tool, and what it guarantees over any window. */
module RateLimiting {
  import opened Wrappers

  datatype Counter = Counter(count: int, windowStart: int)

  type Counters = map<string, Counter>

  /** One call: when the counter would be created, and when it is checked. */
  datatype Call = Call(tool: string, created: int, now: int)

  /** The counter the call is checked against: created when missing, restarted when its window is over. */
  function CounterNow(window: int, counter: Option<Counter>, created: int, now: int): Counter {
    var c := if counter.Some? then counter.value else Counter(0, created);
    if now - c.windowStart >= window then Counter(0, now) else c
  }

  /** The counter after a call, and whether the call was let through. */
  function AllowOne(limit: int, window: int, counter: Option<Counter>, created: int, now: int): (Counter, bool) {
    var current := CounterNow(window, counter, created, now);
    if current.count >= limit then (current, false) else (current.(count := current.count + 1), true)
  }

  function Lookup(counters: Counters, tool: string): Option<Counter> {
    if tool in counters then Some(counters[tool]) else None
  }

  class RateLimiter {
    const limit: int
    const window: int
    var counters: Counters

    constructor (limit: int, window: int)
      ensures this.limit == limit && this.window == window && counters == map[]
    {
      this.limit := limit;
      this.window := window;
      counters := map[];
    }

    /** The two readings of the clock are parameters. */
    method Allow(tool: string, created: int, now: int) returns (ok: bool)
      modifies `counters
      ensures var (c, allowed) := AllowOne(limit, window, Lookup(old(counters), tool), created, now);
        ok == allowed && counters == old(counters)[tool := c]
    {
      if tool !in counters {
        counters := counters[tool := Counter(0, created)];
      }
      var c := counters[tool];
      if now - c.windowStart >= window {
        c := Counter(0, now);
        counters := counters[tool := c];
      }
      if c.count >= limit {
        return false;
      }
      counters := counters[tool := c.(count := c.count + 1)];
      return true;
    }

    method Reset()
      modifies `counters
      ensures counters == map[]
    {
      counters := map[];
    }
  }

  // ---- runs

  /** A run over any tools, followed for one of them: the times of the calls let through, and the window
      each of them was counted in. */
  datatype Trace = Trace(counters: Counters, allowed: seq<int>, windows: seq<int>)

  function Follow(limit: int, window: int, t: Trace, call: Call, tool: string): Trace {
    var (c, ok) := AllowOne(limit, window, Lookup(t.counters, call.tool), call.created, call.now);
    var counters' := t.counters[call.tool := c];
    if ok && call.tool == tool then Trace(counters', t.allowed + [call.now], t.windows + [c.windowStart])
    else Trace(counters', t.allowed, t.windows)
  }

  function Run(limit: int, window: int, calls: seq<Call>, tool: string): Trace {
    if calls == [] then Trace(map[], [], [])
    else Follow(limit, window, Run(limit, window, calls[..|calls| - 1], tool), calls[|calls| - 1], tool)
  }

  /** The clock never goes back. */
  ghost predicate Clocked(calls: seq<Call>) {
    && (forall i :: 0 <= i < |calls| ==> calls[i].created <= calls[i].now)
    && forall i, j :: 0 <= i < j < |calls| ==> calls[i].now <= calls[j].created
  }

  function AtLeastZero(n: int): nat { if n < 0 then 0 else n }

  /** Calls are counted in their own window, windows do not overlap, and none holds more than the limit. */
  ghost predicate Windowed(limit: int, window: int, allowed: seq<int>, windows: seq<int>) {
    && |windows| == |allowed|
    && (forall i :: 0 <= i < |allowed| ==> windows[i] <= allowed[i] < windows[i] + window)
    && (forall i, j :: 0 <= i < j < |allowed| ==> allowed[i] <= allowed[j])
    && (forall i, j :: 0 <= i < j < |allowed| ==> windows[i] == windows[j] || windows[i] + window <= windows[j])
    && (forall i, j :: 0 <= i < j < |allowed| && j - i >= AtLeastZero(limit) ==> windows[i] != windows[j])
  }

  /** The counter of the tool has counted exactly the last calls let through, those in its window. */
  ghost predicate Current(limit: int, window: int, counter: Option<Counter>, windows: seq<int>) {
    match counter
    case None => windows == []
    case Some(c) =>
      && 0 <= c.count <= AtLeastZero(limit) && c.count <= |windows|
      && (forall i :: 0 <= i < |windows| - c.count ==> windows[i] + window <= c.windowStart)
      && (forall i :: |windows| - c.count <= i < |windows| ==> windows[i] == c.windowStart)
  }

  ghost predicate NotAfter(counter: Option<Counter>, allowed: seq<int>, time: int) {
    && (counter.Some? ==> counter.value.windowStart <= time)
    && forall i :: 0 <= i < |allowed| ==> allowed[i] <= time
  }

  lemma CounterNowIsCurrent(
        limit: int, window: int, counter: Option<Counter>, allowed: seq<int>, windows: seq<int>, call: Call)
    requires window > 0
    requires Windowed(limit, window, allowed, windows) && Current(limit, window, counter, windows)
    requires NotAfter(counter, allowed, call.created) && call.created <= call.now
    ensures var c := CounterNow(window, counter, call.created, call.now);
      Current(limit, window, Some(c), windows) && c.windowStart <= call.now < c.windowStart + window
  {
  }

  lemma CountingOneMore(limit: int, window: int, c: Counter, allowed: seq<int>, windows: seq<int>, now: int)
    requires Windowed(limit, window, allowed, windows) && Current(limit, window, Some(c), windows)
    requires c.windowStart <= now < c.windowStart + window && c.count < limit
    requires forall i :: 0 <= i < |allowed| ==> allowed[i] <= now
    ensures Windowed(limit, window, allowed + [now], windows + [c.windowStart])
    ensures Current(limit, window, Some(c.(count := c.count + 1)), windows + [c.windowStart])
  {
    var n := |allowed|;
    var allowed', windows' := allowed + [now], windows + [c.windowStart];
    forall i, j | 0 <= i < j < n + 1
      ensures windows'[i] == windows'[j] || windows'[i] + window <= windows'[j]
      ensures j - i >= AtLeastZero(limit) ==> windows'[i] != windows'[j]
      ensures allowed'[i] <= allowed'[j]
    {
      if j == n {
        assert i < n - c.count ==> windows[i] + window <= c.windowStart;
      }
    }
  }

  lemma AllowKeepsCurrent(
        limit: int, window: int, counter: Option<Counter>, allowed: seq<int>, windows: seq<int>, call: Call)
    requires window > 0
    requires Windowed(limit, window, allowed, windows) && Current(limit, window, counter, windows)
    requires NotAfter(counter, allowed, call.created) && call.created <= call.now
    ensures var (c, ok) := AllowOne(limit, window, counter, call.created, call.now);
      && c.windowStart <= call.now
      && (!ok ==> Current(limit, window, Some(c), windows))
      && (ok ==>
            && Windowed(limit, window, allowed + [call.now], windows + [c.windowStart])
            && Current(limit, window, Some(c), windows + [c.windowStart]))
  {
    CounterNowIsCurrent(limit, window, counter, allowed, windows, call);
    var c := CounterNow(window, counter, call.created, call.now);
    if c.count < limit {
      CountingOneMore(limit, window, c, allowed, windows, call.now);
    }
  }

  /** Windows and counter fit, and nothing lies after the given time. */
  ghost predicate InStep(limit: int, window: int, t: Trace, tool: string, time: int) {
    && Windowed(limit, window, t.allowed, t.windows)
    && Current(limit, window, Lookup(t.counters, tool), t.windows)
    && NotAfter(Lookup(t.counters, tool), t.allowed, time)
  }

  lemma FollowStaysInStep(limit: int, window: int, t: Trace, call: Call, tool: string)
    requires window > 0 && InStep(limit, window, t, tool, call.created) && call.created <= call.now
    ensures InStep(limit, window, Follow(limit, window, t, call, tool), tool, call.now)
  {
    if call.tool == tool {
      AllowKeepsCurrent(limit, window, Lookup(t.counters, tool), t.allowed, t.windows, call);
    }
  }

  lemma {:induction false} RunStaysInStep(limit: int, window: int, calls: seq<Call>, tool: string, time: int)
    requires window > 0 && Clocked(calls)
    requires calls != [] ==> calls[|calls| - 1].now <= time
    ensures InStep(limit, window, Run(limit, window, calls, tool), tool, time)
    decreases |calls|
  {
    if calls != [] {
      var front, call := calls[..|calls| - 1], calls[|calls| - 1];
      RunStaysInStep(limit, window, front, tool, call.created);
      FollowStaysInStep(limit, window, Run(limit, window, front, tool), call, tool);
    }
  }

  /** How many of the times lie in [from, to). */
  function CountIn(times: seq<int>, from: int, to: int): nat {
    if times == [] then 0
    else CountIn(times[..|times| - 1], from, to) + if from <= times[|times| - 1] < to then 1 else 0
  }

  lemma {:induction false} CountSkipsEarly(times: seq<int>, from: int, to: int, early: nat)
    requires early <= |times| && forall i :: 0 <= i < early ==> times[i] < from
    ensures CountIn(times, from, to) <= |times| - early
    decreases |times|
  {
    if times != [] {
      var front := times[..|times| - 1];
      CountSkipsEarly(front, from, to, if early < |times| then early else early - 1);
    }
  }

  /** Times that are `width` apart whenever they are n places apart have at most n in any such stretch. */
  lemma {:induction false} SparseCount(times: seq<int>, n: nat, width: int, from: int)
    requires forall i, j :: 0 <= i < j < |times| && j - i >= n ==> times[i] + width <= times[j]
    ensures CountIn(times, from, from + width) <= n || n == 0
    decreases |times|
  {
    if times != [] {
      var last := |times| - 1;
      SparseCount(times[..last], n, width, from);
      if n > 0 && from <= times[last] < from + width {
        CountSkipsEarly(times, from, from + width, if last >= n then last - n + 1 else 0);
      }
    }
  }

  /** Over any run with a clock that does not go back, at most twice the limit of one tool's calls are let
      through in any stretch of the window's length, wherever it starts. */
  lemma RateBound(limit: int, window: int, calls: seq<Call>, tool: string, from: int)
    requires Clocked(calls)
    ensures CountIn(Run(limit, window, calls, tool).allowed, from, from + window) <= 2 * AtLeastZero(limit)
  {
    var t := Run(limit, window, calls, tool);
    if window <= 0 {
      EmptyStretch(t.allowed, from, from + window);
    } else if limit <= 0 {
      NothingAllowed(limit, window, calls, tool);
    } else {
      RunStaysInStep(limit, window, calls, tool, if calls == [] then 0 else calls[|calls| - 1].now);
      forall i, j | 0 <= i < j < |t.allowed| && j - i >= 2 * limit
        ensures t.allowed[i] + window <= t.allowed[j]
      {
        var mid := i + limit;
        assert t.windows[i] != t.windows[mid];
        assert t.windows[mid] != t.windows[j];
      }
      SparseCount(t.allowed, 2 * limit, window, from);
    }
  }

  lemma {:induction false} EmptyStretch(times: seq<int>, from: int, to: int)
    requires to <= from
    ensures CountIn(times, from, to) == 0
  {
    if times != [] {
      EmptyStretch(times[..|times| - 1], from, to);
    }
  }

  lemma {:induction false} NothingAllowed(limit: int, window: int, calls: seq<Call>, tool: string)
    requires limit <= 0
    ensures Run(limit, window, calls, tool).allowed == []
    ensures var counters := Run(limit, window, calls, tool).counters;
      forall t :: t in counters ==> counters[t].count == 0
    decreases |calls|
  {
    if calls != [] {
      NothingAllowed(limit, window, calls[..|calls| - 1], tool);
    }
  }

  /** Each window lets through at most the limit. */
  lemma WindowBound(limit: int, window: int, calls: seq<Call>, tool: string, start: int)
    requires window > 0 && Clocked(calls)
    ensures CountIn(Run(limit, window, calls, tool).windows, start, start + 1) <= AtLeastZero(limit)
  {
    var t := Run(limit, window, calls, tool);
    RunStaysInStep(limit, window, calls, tool, if calls == [] then 0 else calls[|calls| - 1].now);
    if limit <= 0 {
      NothingAllowed(limit, window, calls, tool);
    } else {
      SparseCount(t.windows, limit, 1, start);
    }
  }

  /** Just before the first window ends, then just after: the i-th call of a burst that meets the bound. */
  function BurstCall(limit: int, window: int, tool: string, i: nat): Call {
    var now := if i < limit then window - 1 else window;
    Call(tool, if i == 0 then 0 else now, now)
  }

  function Burst(limit: int, window: int, tool: string, n: nat): (calls: seq<Call>)
    ensures |calls| == n
  {
    if n == 0 then [] else Burst(limit, window, tool, n - 1) + [BurstCall(limit, window, tool, n - 1)]
  }

  lemma {:induction false} BurstIsClocked(limit: int, window: int, tool: string, n: nat)
    requires window > 1
    ensures Clocked(Burst(limit, window, tool, n))
    ensures forall i :: 0 <= i < n ==> Burst(limit, window, tool, n)[i] == BurstCall(limit, window, tool, i)
    decreases n
  {
    if n > 0 {
      BurstIsClocked(limit, window, tool, n - 1);
    }
  }

  /** The counter after the first n calls of a burst. */
  function BurstCounter(limit: int, window: int, n: nat): Option<Counter> {
    if n == 0 then None
    else if n <= limit then Some(Counter(n, 0))
    else Some(Counter(n - limit, window))
  }

  lemma BurstCallIsAllowed(limit: int, window: int, t: Trace, tool: string, i: nat)
    requires limit > 0 && window > 1 && i < 2 * limit
    requires Lookup(t.counters, tool) == BurstCounter(limit, window, i)
    ensures var call := BurstCall(limit, window, tool, i);
      var t' := Follow(limit, window, t, call, tool);
      Lookup(t'.counters, tool) == BurstCounter(limit, window, i + 1) && t'.allowed == t.allowed + [call.now]
  {
    var call := BurstCall(limit, window, tool, i);
    assert CounterNow(window, BurstCounter(limit, window, i), call.created, call.now)
        == if i < limit then Counter(i, 0) else Counter(i - limit, window);
  }

  lemma RunAppend(limit: int, window: int, calls: seq<Call>, call: Call, tool: string)
    ensures Run(limit, window, calls + [call], tool)
         == Follow(limit, window, Run(limit, window, calls, tool), call, tool)
  {
    assert (calls + [call])[..|calls|] == calls;
  }

  /** The first n calls of a burst have all been let through. */
  ghost predicate AllThrough(limit: int, window: int, t: Trace, tool: string, n: nat) {
    && Lookup(t.counters, tool) == BurstCounter(limit, window, n)
    && CountIn(t.allowed, window - 1, 2 * window - 1) == n
  }

  lemma BurstGoesOn(limit: int, window: int, t: Trace, tool: string, i: nat)
    requires limit > 0 && window > 1 && i < 2 * limit && AllThrough(limit, window, t, tool, i)
    ensures AllThrough(limit, window, Follow(limit, window, t, BurstCall(limit, window, tool, i), tool), tool, i + 1)
  {
    BurstCallIsAllowed(limit, window, t, tool, i);
    CountAppend(t.allowed, BurstCall(limit, window, tool, i).now, window - 1, 2 * window - 1);
  }

  lemma {:induction false} BurstIsAllowed(limit: int, window: int, tool: string, n: nat)
    requires limit > 0 && window > 1 && n <= 2 * limit
    ensures AllThrough(limit, window, Run(limit, window, Burst(limit, window, tool, n), tool), tool, n)
    decreases n
  {
    if n == 0 {
      assert Run(limit, window, [], tool) == Trace(map[], [], []);
    } else {
      BurstIsAllowed(limit, window, tool, n - 1);
      var front := Burst(limit, window, tool, n - 1);
      BurstGoesOn(limit, window, Run(limit, window, front, tool), tool, n - 1);
      RunAppend(limit, window, front, BurstCall(limit, window, tool, n - 1), tool);
    }
  }

  lemma CountAppend(times: seq<int>, time: int, from: int, to: int)
    ensures CountIn(times + [time], from, to) == CountIn(times, from, to) + if from <= time < to then 1 else 0
  {
    assert (times + [time])[..|times|] == times;
  }

  /** The factor two is reached for every positive limit and every window longer than one unit of time. */
  lemma BoundIsReached(limit: int, window: int, tool: string)
    requires limit > 0 && window > 1
    ensures var calls := Burst(limit, window, tool, 2 * limit);
      Clocked(calls) && CountIn(Run(limit, window, calls, tool).allowed, window - 1, 2 * window - 1) == 2 * limit
  {
    BurstIsClocked(limit, window, tool, 2 * limit);
    BurstIsAllowed(limit, window, tool, 2 * limit);
  }

  // ---- where the windows lie, and which calls are refused

  /** Every window but the first starts at the first call that was let through in it. */
  ghost predicate PlacedAt(allowed: seq<int>, windows: seq<int>, i: nat)
    requires i < |windows| && |windows| == |allowed|
  {
    i > 0 && windows[i] != windows[i - 1] ==> windows[i] == allowed[i]
  }

  ghost predicate Placed(allowed: seq<int>, windows: seq<int>) {
    |windows| == |allowed| && forall i: nat :: i < |windows| ==> PlacedAt(allowed, windows, i)
  }

  /** Besides, a counter has counted something. */
  ghost predicate Follows(t: Trace, tool: string) {
    && Placed(t.allowed, t.windows)
    && (tool in t.counters ==> t.counters[tool].count > 0)
  }

  lemma FollowPlaces(limit: int, window: int, t: Trace, call: Call, tool: string)
    requires limit > 0 && window > 0 && InStep(limit, window, t, tool, call.created) && Follows(t, tool)
    ensures Follows(Follow(limit, window, t, call, tool), tool)
  {
    var t' := Follow(limit, window, t, call, tool);
    forall i: nat | i < |t'.windows|
      ensures PlacedAt(t'.allowed, t'.windows, i)
    {
      assert i < |t.windows| ==> PlacedAt(t.allowed, t.windows, i);
    }
  }

  lemma {:induction false} RunPlaces(limit: int, window: int, calls: seq<Call>, tool: string)
    requires limit > 0 && window > 0 && Clocked(calls)
    ensures Follows(Run(limit, window, calls, tool), tool)
    decreases |calls|
  {
    if calls != [] {
      var front, call := calls[..|calls| - 1], calls[|calls| - 1];
      RunPlaces(limit, window, front, tool);
      RunStaysInStep(limit, window, front, tool, call.created);
      FollowPlaces(limit, window, Run(limit, window, front, tool), call, tool);
    }
  }

  /** The first call of the tool. */
  ghost predicate IsFirst(calls: seq<Call>, tool: string, i: nat) {
    i < |calls| && calls[i].tool == tool && forall j :: 0 <= j < i ==> calls[j].tool != tool
  }

  /** The tool's first call is let through. The first window starts when the counter was created, unless the window
      was over by the time the call was checked. */
  ghost predicate StartsWith(window: int, t: Trace, first: Call) {
    && t.allowed != [] && |t.windows| == |t.allowed| && t.allowed[0] == first.now
    && t.windows[0] == if first.now - first.created < window then first.created else first.now
  }

  lemma {:induction false} FirstWindow(limit: int, window: int, calls: seq<Call>, tool: string, i: nat)
    requires limit > 0 && IsFirst(calls, tool, i)
    ensures StartsWith(window, Run(limit, window, calls, tool), calls[i])
    decreases |calls|
  {
    var front := calls[..|calls| - 1];
    if i < |calls| - 1 {
      FirstWindow(limit, window, front, tool, i);
    } else {
      NoCounterYet(limit, window, front, tool);
    }
  }

  lemma {:induction false} NoCounterYet(limit: int, window: int, calls: seq<Call>, tool: string)
    requires forall j :: 0 <= j < |calls| ==> calls[j].tool != tool
    ensures var t := Run(limit, window, calls, tool);
      tool !in t.counters && t.allowed == [] && t.windows == []
    decreases |calls|
  {
    if calls != [] {
      NoCounterYet(limit, window, calls[..|calls| - 1], tool);
    }
  }

  /** Over any run with a positive limit and a clock that does not go back: where all the windows of a tool start,
      in terms of its calls alone. */
  lemma WindowsArePlaced(limit: int, window: int, calls: seq<Call>, tool: string)
    requires limit > 0 && window > 0 && Clocked(calls)
    ensures var t := Run(limit, window, calls, tool);
      && |t.windows| == |t.allowed|
      && (forall i :: 0 < i < |t.windows| && t.windows[i] != t.windows[i - 1] ==> t.windows[i] == t.allowed[i])
      && (forall i: nat :: IsFirst(calls, tool, i) ==> StartsWith(window, t, calls[i]))
  {
    var t := Run(limit, window, calls, tool);
    RunPlaces(limit, window, calls, tool);
    forall i | 0 < i < |t.windows| && t.windows[i] != t.windows[i - 1]
      ensures t.windows[i] == t.allowed[i]
    {
      assert PlacedAt(t.allowed, t.windows, i);
    }
    forall i: nat | IsFirst(calls, tool, i)
      ensures StartsWith(window, t, calls[i])
    {
      FirstWindow(limit, window, calls, tool, i);
    }
  }

  /** A window of the tool that is not over and has used up the limit. */
  ghost predicate UsedUp(limit: int, window: int, windows: seq<int>, start: int, now: int) {
    CountIn(windows, start, start + 1) >= limit && now < start + window
  }

  /** Entries that differ do not count, entries that are equal do. */
  lemma {:induction false} CountOfTail(windows: seq<int>, n: nat, start: int)
    requires n <= |windows|
    requires forall i :: 0 <= i < |windows| - n ==> windows[i] != start
    requires forall i :: |windows| - n <= i < |windows| ==> windows[i] == start
    ensures CountIn(windows, start, start + 1) == n
    decreases |windows|
  {
    if windows != [] {
      CountOfTail(windows[..|windows| - 1], if n > 0 then n - 1 else 0, start);
    }
  }

  lemma {:induction false} CountOfNone(windows: seq<int>, start: int)
    requires forall i :: 0 <= i < |windows| ==> windows[i] != start
    ensures CountIn(windows, start, start + 1) == 0
  {
    if windows != [] {
      CountOfNone(windows[..|windows| - 1], start);
    }
  }

  lemma RefusedInWindow(limit: int, window: int, t: Trace, call: Call)
    requires limit > 0 && window > 0 && InStep(limit, window, t, call.tool, call.created) && call.created <= call.now
    ensures !AllowOne(limit, window, Lookup(t.counters, call.tool), call.created, call.now).1
       <==> exists start :: UsedUp(limit, window, t.windows, start, call.now)
  {
    var counter := Lookup(t.counters, call.tool);
    var c := CounterNow(window, counter, call.created, call.now);
    CounterNowIsCurrent(limit, window, counter, t.allowed, t.windows, call);
    CountOfTail(t.windows, c.count, c.windowStart);
    if c.count >= limit {
      assert UsedUp(limit, window, t.windows, c.windowStart, call.now);
    }
    forall start | UsedUp(limit, window, t.windows, start, call.now)
      ensures start == c.windowStart
    {
      OpenWindowIsCurrent(limit, window, t, c, start, call.now);
    }
  }

  lemma OpenWindowIsCurrent(limit: int, window: int, t: Trace, c: Counter, start: int, now: int)
    requires limit > 0 && Current(limit, window, Some(c), t.windows) && c.windowStart <= now
    requires UsedUp(limit, window, t.windows, start, now)
    ensures start == c.windowStart
  {
    if start != c.windowStart {
      assert forall i :: 0 <= i < |t.windows| ==> t.windows[i] != start;
      CountOfNone(t.windows, start);
    }
  }

  /** The counters never start in the future. */
  ghost predicate NotAhead(t: Trace, tool: string, time: int) {
    && (tool in t.counters ==> t.counters[tool].windowStart <= time)
    && forall i :: 0 <= i < |t.windows| ==> t.windows[i] <= time
  }

  lemma {:induction false} RunNotAhead(limit: int, window: int, calls: seq<Call>, tool: string, time: int)
    requires Clocked(calls) && (calls != [] ==> calls[|calls| - 1].now <= time)
    ensures NotAhead(Run(limit, window, calls, tool), tool, time)
    decreases |calls|
  {
    if calls != [] {
      RunNotAhead(limit, window, calls[..|calls| - 1], tool, calls[|calls| - 1].created);
    }
  }

  lemma NeverRefused(limit: int, window: int, t: Trace, call: Call)
    requires limit > 0 && window <= 0 && NotAhead(t, call.tool, call.created) && call.created <= call.now
    ensures AllowOne(limit, window, Lookup(t.counters, call.tool), call.created, call.now).1
    ensures forall start :: !UsedUp(limit, window, t.windows, start, call.now)
  {
    forall start
      ensures !UsedUp(limit, window, t.windows, start, call.now)
    {
      if call.now < start + window {
        CountOfNone(t.windows, start);
      }
    }
  }

  /** Exactly which call is refused after any run with a clock that does not go back, whatever the limit and the
      window: one for whose tool some window that is not over has let through as many calls as the limit says. */
  lemma RefusedIff(limit: int, window: int, calls: seq<Call>, call: Call)
    requires Clocked(calls + [call])
    ensures var t := Run(limit, window, calls, call.tool);
      !AllowOne(limit, window, Lookup(t.counters, call.tool), call.created, call.now).1
      <==> exists start :: UsedUp(limit, window, t.windows, start, call.now)
  {
    var t := Run(limit, window, calls, call.tool);
    ClockedFront(calls, call);
    if limit <= 0 {
      NothingAllowed(limit, window, calls, call.tool);
      assert UsedUp(limit, window, t.windows, call.now - window + 1, call.now);
    } else if window <= 0 {
      RunNotAhead(limit, window, calls, call.tool, call.created);
      NeverRefused(limit, window, t, call);
    } else {
      RunStaysInStep(limit, window, calls, call.tool, call.created);
      RefusedInWindow(limit, window, t, call);
    }
  }

  lemma ClockedFront(calls: seq<Call>, call: Call)
    requires Clocked(calls + [call])
    ensures Clocked(calls) && call.created <= call.now && (calls != [] ==> calls[|calls| - 1].now <= call.created)
  {
    var all := calls + [call];
    assert all[|calls|] == call;
    forall i | 0 <= i < |calls|
      ensures calls[i].created <= calls[i].now <= call.created
    {
      assert all[i] == calls[i];
    }
    forall i, j | 0 <= i < j < |calls|
      ensures calls[i].now <= calls[j].created
    {
      assert all[i] == calls[i] && all[j] == calls[j];
    }
  }
}
