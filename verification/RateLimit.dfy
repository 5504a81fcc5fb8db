/** The sliding-window limiter on self-reported error events. */
module RateLimit {

  const MAX_EVENTS: nat := 50
  const WINDOW: int := 60_000

  /** The entries still inside the window that ends now. */
  function Recent(ts: seq<int>, cutoff: int): seq<int> {
    if ts == [] then []
    else Recent(ts[..|ts| - 1], cutoff) + if ts[|ts| - 1] > cutoff then [ts[|ts| - 1]] else []
  }

  class Transport {
    /** Times of the accepted calls still remembered, in milliseconds. */
    var timestamps: seq<int>

    constructor ()
      ensures timestamps == []
    {
      timestamps := [];
    }

    /** `_is_rate_limited`, with the monotonic clock's reading as a parameter. */
    method IsRateLimited(now: int) returns (limited: bool)
      modifies this
      ensures limited <==> |Recent(old(timestamps), now - WINDOW)| >= MAX_EVENTS
      ensures timestamps == Next(old(timestamps), now)
    {
      var cutoff := now - WINDOW;
      var kept := [];
      var i := 0;
      while i < |timestamps|
        invariant 0 <= i <= |timestamps| && timestamps == old(timestamps)
        invariant kept == Recent(timestamps[..i], cutoff)
      {
        assert timestamps[..i + 1][..i] == timestamps[..i];
        if timestamps[i] > cutoff { kept := kept + [timestamps[i]]; }
        i := i + 1;
      }
      assert timestamps[..|timestamps|] == timestamps;
      timestamps := kept;
      if |timestamps| >= MAX_EVENTS { return true; }
      timestamps := timestamps + [now];
      limited := false;
    }
  }

  // ----- runs -----

  /** The remembered list after calls at these times. */
  function Stored(times: seq<int>): seq<int> {
    if times == [] then [] else Next(Stored(times[..|times| - 1]), times[|times| - 1])
  }

  function Next(ts: seq<int>, now: int): seq<int> {
    Recent(ts, now - WINDOW) + if Full(ts, now) then [] else [now]
  }

  predicate Full(ts: seq<int>, now: int) {
    |Recent(ts, now - WINDOW)| >= MAX_EVENTS
  }

  predicate Refused(times: seq<int>)
    requires times != []
  {
    Full(Stored(times[..|times| - 1]), times[|times| - 1])
  }

  /** The times of all accepted calls. */
  function Accepted(times: seq<int>): seq<int> {
    if times == [] then []
    else Accepted(times[..|times| - 1]) + if Refused(times) then [] else [times[|times| - 1]]
  }

  predicate Below(ts: seq<int>, top: int) {
    ts == [] || (ts[|ts| - 1] <= top && Below(ts[..|ts| - 1], top))
  }

  /** The clock never runs back. */
  predicate Ascending(ts: seq<int>) {
    ts == [] || (Ascending(ts[..|ts| - 1]) && Below(ts[..|ts| - 1], ts[|ts| - 1]))
  }

  /** How many entries lie in (end - WINDOW, end]. */
  function InWindow(ts: seq<int>, end: int): nat {
    if ts == [] then 0
    else InWindow(ts[..|ts| - 1], end) + if end - WINDOW < ts[|ts| - 1] <= end then 1 else 0
  }

  // ----- what the list remembers -----

  lemma {:induction false} RecentTwice(ts: seq<int>, a: int, b: int)
    requires a <= b
    ensures Recent(Recent(ts, a), b) == Recent(ts, b)
  {
    if ts != [] {
      var init, last := ts[..|ts| - 1], ts[|ts| - 1];
      RecentTwice(init, a, b);
      if last > a {
        assert (Recent(init, a) + [last])[..|Recent(init, a)|] == Recent(init, a);
      } else {
        assert Recent(ts, a) == Recent(init, a);
      }
    }
  }

  lemma RecentLast(ts: seq<int>, t: int, cutoff: int)
    ensures Recent(ts + [t], cutoff) == Recent(ts, cutoff) + if t > cutoff then [t] else []
  {
    assert (ts + [t])[..|ts|] == ts;
  }

  lemma {:induction false} AcceptedBelow(times: seq<int>, top: int)
    requires Below(times, top)
    ensures Below(Accepted(times), top)
  {
    if times != [] {
      var init := Accepted(times[..|times| - 1]);
      AcceptedBelow(times[..|times| - 1], top);
      assert (init + [times[|times| - 1]])[..|init|] == init;
      assert init + [] == init;
    }
  }

  /** On a clock that never runs back, the list is exactly the accepted calls of the last window. */
  lemma {:induction false} StoredIsRecent(times: seq<int>)
    requires times != [] && Ascending(times)
    ensures Stored(times) == Recent(Accepted(times), times[|times| - 1] - WINDOW)
    decreases |times|, 1
  {
    var init, now := times[..|times| - 1], times[|times| - 1];
    KeptIsRecent(times);
    RecentLast(Accepted(init), now, now - WINDOW);
    assert Accepted(init) + [] == Accepted(init);
  }

  lemma {:induction false} KeptIsRecent(times: seq<int>)
    requires times != [] && Ascending(times)
    ensures var init, cutoff := times[..|times| - 1], times[|times| - 1] - WINDOW;
            Recent(Stored(init), cutoff) == Recent(Accepted(init), cutoff)
    decreases |times|, 0
  {
    var init := times[..|times| - 1];
    if init != [] {
      StoredIsRecent(init);
      RecentTwice(Accepted(init), init[|init| - 1] - WINDOW, times[|times| - 1] - WINDOW);
    }
  }

  lemma {:induction false} WindowIsRecent(ts: seq<int>, end: int)
    requires Below(ts, end)
    ensures InWindow(ts, end) == |Recent(ts, end - WINDOW)|
  {
    if ts != [] { WindowIsRecent(ts[..|ts| - 1], end); }
  }

  // ----- the limit -----

  lemma EarlierAccepted(times: seq<int>)
    requires times != [] && Ascending(times)
    ensures var init, now := times[..|times| - 1], times[|times| - 1];
            InWindow(Accepted(init), now) == |Recent(Accepted(init), now - WINDOW)|
  {
    var init, now := times[..|times| - 1], times[|times| - 1];
    AcceptedBelow(init, now);
    WindowIsRecent(Accepted(init), now);
  }

  /** A call is refused exactly if 50 calls were accepted in the 60 seconds before it. */
  lemma RefusedExactly(times: seq<int>)
    requires times != [] && Ascending(times)
    ensures Refused(times) <==> InWindow(Accepted(times[..|times| - 1]), times[|times| - 1]) >= MAX_EVENTS
  {
    EarlierAccepted(times);
    KeptIsRecent(times);
  }

  /** The stored list never holds more than 50 entries, whatever the clock does. */
  lemma {:induction false} StoredIsSmall(times: seq<int>)
    ensures |Stored(times)| <= MAX_EVENTS
  {
    if times != [] {
      StoredIsSmall(times[..|times| - 1]);
      RecentShorter(Stored(times[..|times| - 1]), times[|times| - 1] - WINDOW);
    }
  }

  lemma {:induction false} RecentShorter(ts: seq<int>, cutoff: int)
    ensures |Recent(ts, cutoff)| <= |ts|
  {
    if ts != [] { RecentShorter(ts[..|ts| - 1], cutoff); }
  }

  lemma {:induction false} WindowEndsLater(ts: seq<int>, last: int, end: int)
    requires last <= end && Below(ts, last)
    ensures InWindow(ts, end) <= InWindow(ts, last)
  {
    if ts != [] { WindowEndsLater(ts[..|ts| - 1], last, end); }
  }

  lemma OneMore(ts: seq<int>, t: int, end: int)
    ensures InWindow(ts + [t], end) == InWindow(ts, end) + if end - WINDOW < t <= end then 1 else 0
  {
    assert (ts + [t])[..|ts|] == ts;
  }

  /** The last call, if accepted, keeps every window within the limit. */
  lemma AcceptingKeepsTheLimit(times: seq<int>, end: int)
    requires times != [] && Ascending(times) && !Refused(times)
    requires InWindow(Accepted(times[..|times| - 1]), end) <= MAX_EVENTS
    ensures InWindow(Accepted(times[..|times| - 1]) + [times[|times| - 1]], end) <= MAX_EVENTS
  {
    var init, now := Accepted(times[..|times| - 1]), times[|times| - 1];
    AcceptedBelow(times[..|times| - 1], now);
    RefusedExactly(times);
    OneMore(init, now, end);
    if end >= now { WindowEndsLater(init, now, end); }
  }

  /** No window of 60 seconds, wherever it ends, contains more than 50 accepted calls. */
  lemma {:induction false} AtMostFiftyPerWindow(times: seq<int>, end: int)
    requires Ascending(times)
    ensures InWindow(Accepted(times), end) <= MAX_EVENTS
  {
    if times != [] {
      AtMostFiftyPerWindow(times[..|times| - 1], end);
      if Refused(times) {
        assert Accepted(times) == Accepted(times[..|times| - 1]);
      } else {
        AcceptingKeepsTheLimit(times, end);
      }
    }
  }
}
