/**
 The rate limiter (`check_rate_limit`, backend/services/cache_service.py): a counter that every
 call increments and whose expiry every call renews.
 */
module RateLimit {
  import opened Prelude

  type Time = real

  /** A Redis counter; it exists until `expires`. */
  datatype Counter = Counter(count: nat, expires: Time)

  function Live(c: Option<Counter>, now: Time): nat {
    if c.Some? && now < c.value.expires then c.value.count else 0
  }

  /** INCR then EXPIRE; a lifetime that is not positive deletes the key. */
  function Bumped(c: Option<Counter>, window: int, now: Time): Option<Counter> {
    if window <= 0 then None else Some(Counter(Live(c, now) + 1, now + window as real))
  }

  class CacheService {
    var counters: map<string, Counter>

    constructor ()
      ensures counters == map[]
    {
      counters := map[];
    }

    function Of(identifier: string): Option<Counter>
      reads this
    {
      if identifier in counters then Some(counters[identifier]) else None
    }

    method CheckRateLimit(identifier: string, window: int, maxRequests: int, now: Time)
      returns (allowed: bool, current: nat)
      modifies this
      ensures current == Live(old(Of(identifier)), now) + 1
      ensures allowed <==> current <= maxRequests
      ensures Of(identifier) == Bumped(old(Of(identifier)), window, now)
      ensures forall other | other != identifier :: Of(other) == old(Of(other))
    {
      current := 1;
      if identifier in counters && now < counters[identifier].expires {
        current := counters[identifier].count + 1;
      }
      if window > 0 {
        counters := counters[identifier := Counter(current, now + window as real)];
      } else {
        counters := counters - {identifier};
      }
      allowed := current <= maxRequests;
    }
  }

  // ── the calls of one identifier over a run ──

  /** The counter after calls at these times. */
  function AfterCalls(times: seq<Time>, window: int): Option<Counter> {
    if times == [] then None else Bumped(AfterCalls(times[..|times| - 1], window), window, times[|times| - 1])
  }

  /** The count which the last of the calls is given. */
  function Current(times: seq<Time>, window: int): nat
    requires times != []
  {
    Live(AfterCalls(times[..|times| - 1], window), times[|times| - 1]) + 1
  }

  predicate Allowed(times: seq<Time>, window: int, limit: nat)
    requires times != []
  {
    Current(times, window) <= limit
  }

  predicate Ordered(times: seq<Time>) {
    forall i, k | 0 <= i < k < |times| :: times[i] <= times[k]
  }

  /** The position of the last call in its burst: calls with less than a window between neighbours. */
  function Position(times: seq<Time>, window: int): nat
    requires times != []
  {
    var n := |times| - 1;
    if n == 0 || times[n] - times[n - 1] >= window as real then 1 else Position(times[..n], window) + 1
  }

  /** The count is the position in the burst, so a burst gets its first `limit` calls and no more. */
  lemma {:induction false} CurrentIsPosition(times: seq<Time>, window: nat)
    requires times != [] && window > 0
    ensures Current(times, window) == Position(times, window)
    ensures AfterCalls(times, window) == Some(Counter(Position(times, window), times[|times| - 1] + window as real))
  {
    if |times| <= 1 {
    } else {
      CurrentIsPosition(times[..|times| - 1], window);
    }
  }

  /** A refused call keeps its burst refused: nothing is allowed again before a window of silence. */
  lemma {:induction false} RefusedUntilSilence(times: seq<Time>, i: nat, window: nat, limit: nat)
    requires i < |times| && window > 0
    requires !Allowed(times[..i + 1], window, limit)
    requires forall k | i < k < |times| :: times[k] - times[k - 1] < window as real
    ensures !Allowed(times, window, limit)
  {
    CurrentIsPosition(times, window);
    if i + 1 < |times| {
      var n := |times| - 1;
      assert times[..n][..i + 1] == times[..i + 1];
      RefusedUntilSilence(times[..n], i, window, limit);
      CurrentIsPosition(times[..n], window);
    } else {
      assert times[..i + 1] == times;
    }
  }

  /** Call `i` opens a burst: nothing came in the window before it, and none of the later gaps is that long. */
  predicate BurstFrom(times: seq<Time>, i: nat, window: nat) {
    && i < |times|
    && (i > 0 ==> times[i] - times[i - 1] >= window as real)
    && forall k | i < k < |times| :: times[k] - times[k - 1] < window as real
  }

  /** A burst gets exactly its first `limit` calls, so only a window of silence gives calls back. */
  lemma {:induction false} BurstGetsFirstCallsExactly(times: seq<Time>, i: nat, window: nat, limit: nat)
    requires window > 0 && BurstFrom(times, i, window)
    ensures Position(times, window) == |times| - i
    ensures Allowed(times, window, limit) <==> |times| - i <= limit
  {
    CurrentIsPosition(times, window);
    if i + 1 == |times| {
    } else {
      BurstGetsFirstCallsExactly(times[..|times| - 1], i, window, limit);
    }
  }

  /** How many calls at or after `lo` and before `hi` are allowed. */
  function AllowedIn(times: seq<Time>, window: int, limit: nat, lo: Time, hi: Time): nat {
    if times == [] then 0
    else
      var n := |times| - 1;
      AllowedIn(times[..n], window, limit, lo, hi)
      + if lo <= times[n] < hi && Allowed(times, window, limit) then 1 else 0
  }

  lemma {:induction false} AllowedSoFar(times: seq<Time>, window: nat, limit: nat, lo: Time)
    requires Ordered(times) && window > 0
    ensures var n := AllowedIn(times, window, limit, lo, lo + window as real);
            && n <= limit
            && (times == [] || times[|times| - 1] < lo ==> n == 0)
            && (times != [] && lo <= times[|times| - 1] < lo + window as real ==> n <= Position(times, window))
  {
    if times == [] {
    } else {
      AllowedSoFar(times[..|times| - 1], window, limit, lo);
      CurrentIsPosition(times, window);
    }
  }

  /** Any half-open window of the configured length holds at most `limit` allowed calls. */
  lemma WindowBound(times: seq<Time>, window: nat, limit: nat, lo: Time)
    requires Ordered(times) && window > 0
    ensures AllowedIn(times, window, limit, lo, lo + window as real) <= limit
  {
    AllowedSoFar(times, window, limit, lo);
  }

  // ── against a sliding window ──

  /** Calls less than a window before `now`. */
  function Recent(times: seq<Time>, window: int, now: Time): nat {
    if times == [] then 0
    else Recent(times[..|times| - 1], window, now) + if now - times[|times| - 1] < window as real then 1 else 0
  }

  /** What a sliding window would answer: at most `limit` calls, this one included, in the last window. */
  predicate SlidingAllows(times: seq<Time>, window: int, limit: nat)
    requires times != []
  {
    Recent(times, window, times[|times| - 1]) <= limit
  }

  lemma {:induction false} RecentWithinBurst(times: seq<Time>, window: nat, now: Time)
    requires times != [] && Ordered(times) && window > 0 && times[|times| - 1] <= now
    ensures now - times[|times| - 1] >= window as real ==> Recent(times, window, now) == 0
    ensures Recent(times, window, now) <= Position(times, window)
    ensures now - times[|times| - 1] < window as real ==> Recent(times, window, now) >= 1
  {
    if |times| > 1 {
      RecentWithinBurst(times[..|times| - 1], window, now);
    } else {
      assert times[..0] == [];
    }
  }

  /** The limiter is never more generous than a sliding window. */
  lemma NeverMoreGenerous(times: seq<Time>, window: nat, limit: nat)
    requires times != [] && Ordered(times) && window > 0 && Allowed(times, window, limit)
    ensures SlidingAllows(times, window, limit)
  {
    CurrentIsPosition(times, window);
    RecentWithinBurst(times, window, times[|times| - 1]);
  }

  /** On every run the limiter answers what a sliding window would. */
  ghost predicate IsSliding(window: nat, limit: nat) {
    forall times: seq<Time> | times != [] && Ordered(times) ::
      Allowed(times, window, limit) <==> SlidingAllows(times, window, limit)
  }

  /** The time of the i-th call when they are half a window apart. */
  function Half(window: nat, i: nat): Time { (i * window) as real / 2.0 }

  lemma NextHalf(window: nat, i: nat)
    ensures Half(window, i + 1) - Half(window, i) == window as real / 2.0
  {
    assert (i + 1) * window == i * window + window;
  }

  /** Calls half a window apart. */
  function Halves(window: nat, n: nat): (times: seq<Time>)
    ensures |times| == n
  {
    if n == 0 then [] else Halves(window, n - 1) + [Half(window, n - 1)]
  }

  lemma {:induction false} HalvesRise(window: nat, n: nat)
    ensures Ordered(Halves(window, n))
    ensures forall i | 0 <= i < n :: Halves(window, n)[i] == Half(window, i)
  {
    if n == 0 {
    } else {
      hide Half;
      HalvesRise(window, n - 1);
      if n > 1 {
        NextHalf(window, n - 2);
        assert Halves(window, n - 1)[n - 2] <= Half(window, n - 1);
      }
    }
  }

  lemma {:induction false} HalvesPosition(window: nat, n: nat)
    requires n > 0 && window > 0
    ensures Position(Halves(window, n), window) == n
  {
    hide Half;
    if n == 1 {
    } else {
      HalvesPosition(window, n - 1);
      HalvesRise(window, n);
      NextHalf(window, n - 2);
      assert Halves(window, n)[..n - 1] == Halves(window, n - 1);
    }
  }

  lemma {:induction false} OldCallsAreNotRecent(times: seq<Time>, window: nat, now: Time)
    requires forall i | 0 <= i < |times| :: now - times[i] >= window as real
    ensures Recent(times, window, now) == 0
  {
    if times == [] {
    } else {
      OldCallsAreNotRecent(times[..|times| - 1], window, now);
    }
  }

  /**
   The documentation calls it a sliding window. It is one exactly for a limit of at most one: with
   any higher limit, calls half a window apart are refused for good after the first few.
   */
  lemma SlidingExactly(window: nat, limit: nat)
    requires window > 0
    ensures IsSliding(window, limit) <==> limit <= 1
  {
    if limit <= 1 {
      forall times: seq<Time> | times != [] && Ordered(times)
        ensures Allowed(times, window, limit) <==> SlidingAllows(times, window, limit)
      {
        LimitOneIsSliding(times, window, limit);
      }
    } else {
      HalvesAreRefused(window, limit);
    }
  }

  lemma LimitOneIsSliding(times: seq<Time>, window: nat, limit: nat)
    requires times != [] && Ordered(times) && window > 0 && limit <= 1
    ensures Allowed(times, window, limit) <==> SlidingAllows(times, window, limit)
  {
    var n := |times| - 1;
    CurrentIsPosition(times, window);
    RecentWithinBurst(times, window, times[n]);
    if n > 0 {
      RecentWithinBurst(times[..n], window, times[n]);
    }
  }

  lemma HalvesAreRefused(window: nat, limit: nat)
    requires window > 0 && limit >= 2
    ensures !IsSliding(window, limit)
  {
    var times := Halves(window, limit + 1);
    HalvesRise(window, limit + 1);
    HalvesPosition(window, limit + 1);
    CurrentIsPosition(times, window);
    var now := times[limit];
    NextHalf(window, limit - 1);
    NextHalf(window, limit - 2);
    hide Half;
    OldCallsAreNotRecent(times[..limit - 1], window, now);
    assert times[..limit][..limit - 1] == times[..limit - 1];
    assert Recent(times, window, now) == 2;
  }
}
