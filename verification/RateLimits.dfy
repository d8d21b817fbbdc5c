// What the fixed-window limiter guarantees over a whole log of requests.
module RateLimits {
  import opened Wrappers
  import opened Clock
  import opened RateLimiter

  // ------------------------------------------------------------------------
  // Within one window, and across every interval as long as a window.

  lemma {:induction false} OpenerStays(window: int, times: seq<int>, i: nat, j: nat)
    requires i <= j < |times| && 0 < window && Sorted(times)
    requires times[j] < times[Opener(window, times, i)] + window
    ensures Opener(window, times, j) == Opener(window, times, i)
    decreases j
  {
    if i < j {
      OpenerStays(window, times, i, j - 1);
    }
  }

  lemma {:induction false} OpenerMeetsWindow(window: int, times: seq<int>, i: nat)
    requires i < |times| && 0 < window && Sorted(times)
    ensures var k := Opener(window, times, i);
            times[k] <= times[i] < times[k] + window && Opener(window, times, k) == k
  {
    if i > 0 && Opener(window, times, i) != i {
      OpenerMeetsWindow(window, times, i - 1);
    }
  }

  // How many of the requests opener..n-1, all of one window, were let through.
  function AllowedFrom(limit: int, window: int, times: seq<int>, opener: nat, n: nat): nat
    requires opener <= n <= |times|
  {
    if n == opener then 0
    else AllowedFrom(limit, window, times, opener, n - 1)
         + if WindowAnswer(limit, window, times, n - 1).allowed then 1 else 0
  }

  // A window that has seen n - k requests let through exactly min(limit, n - k) of them.
  lemma {:induction false} WindowQuota(limit: int, window: int, times: seq<int>, k: nat, n: nat)
    requires 0 < limit && 0 < window && Sorted(times)
    requires k < n <= |times| && Opener(window, times, n - 1) == k
    ensures AllowedFrom(limit, window, times, k, n) == if n - k <= limit then n - k else limit
  {
    if n - 1 > k {
      assert Opener(window, times, n - 2) == k;
      WindowQuota(limit, window, times, k, n - 1);
    } else {
      assert AllowedFrom(limit, window, times, k, k) == 0;
    }
  }

  // Requests among the first n that fall in [a, a + window] and were let through.
  function AllowedWithin(limit: int, window: int, times: seq<int>, a: int, n: nat): nat
    requires n <= |times|
  {
    if n == 0 then 0
    else AllowedWithin(limit, window, times, a, n - 1)
         + if a <= times[n - 1] <= a + window && WindowAnswer(limit, window, times, n - 1).allowed then 1 else 0
  }

  // Counting stops at the end of the interval; before that, the requests counted belong
  // to the current window and, when it opened after a, to the one before it.
  ghost predicate Counted(limit: int, window: int, times: seq<int>, a: int, n: nat)
    requires 0 < n <= |times|
  {
    var k, count := Opener(window, times, n - 1), AllowedWithin(limit, window, times, a, n);
    var used := if n - k <= limit then n - k else limit;
    && (times[n - 1] < a ==> count == 0)
    && count <= 2 * limit
    && (times[n - 1] <= a + window ==> count <= used + if times[k] <= a then 0 else limit)
  }

  // The next request of the same window adds at most one to both sides.
  lemma CountedInWindow(limit: int, window: int, times: seq<int>, a: int, n: nat)
    requires 0 < limit && 0 < window && Sorted(times) && 1 < n <= |times|
    requires Opener(window, times, n - 1) == Opener(window, times, n - 2) && Counted(limit, window, times, a, n - 1)
    ensures Counted(limit, window, times, a, n)
  {
    OpenerMeetsWindow(window, times, n - 2);
  }

  // A request that opens a window starts at one, and what came before is at most one
  // window's worth if the new window opened within the interval.
  lemma CountedAtOpening(limit: int, window: int, times: seq<int>, a: int, n: nat)
    requires 0 < limit && 0 < window && Sorted(times) && 1 < n <= |times|
    requires Opener(window, times, n - 1) == n - 1 && Counted(limit, window, times, a, n - 1)
    requires times[Opener(window, times, n - 2)] + window <= times[n - 1]
    ensures Counted(limit, window, times, a, n)
  {
    OpenerMeetsWindow(window, times, n - 2);
  }

  lemma {:induction false} SlidingCount(limit: int, window: int, times: seq<int>, a: int, n: nat)
    requires 0 < limit && 0 < window && Sorted(times)
    requires 0 < n <= |times|
    ensures Counted(limit, window, times, a, n)
  {
    if n == 1 {
      assert AllowedWithin(limit, window, times, a, 0) == 0;
    } else {
      SlidingCount(limit, window, times, a, n - 1);
      if Opener(window, times, n - 1) == n - 1 {
        CountedAtOpening(limit, window, times, a, n);
      } else {
        CountedInWindow(limit, window, times, a, n);
      }
    }
  }

  // Requests of one key in [a, a + window] that the limiter let through.
  function AllowedInLog(limit: int, window: int, log: seq<Request>, key: string, a: int): nat {
    if log == [] then 0
    else AllowedInLog(limit, window, Front(log), key, a)
         + if Last(log).key == key && a <= Last(log).at <= a + window && LastAnswer(limit, window, log).allowed
           then 1 else 0
  }

  lemma {:induction false} WithinPrefix(limit: int, window: int, times: seq<int>, longer: seq<int>, a: int, n: nat)
    requires n <= |times| && times <= longer
    ensures AllowedWithin(limit, window, longer, a, n) == AllowedWithin(limit, window, times, a, n)
  {
    if n > 0 {
      WithinPrefix(limit, window, times, longer, a, n - 1);
      OpenerOfPrefix(window, times, longer, n - 1);
    }
  }

  lemma {:induction false} LogCountsTimes(limit: int, window: int, log: seq<Request>, key: string, a: int)
    requires Chronological(log)
    ensures AllowedInLog(limit, window, log, key, a)
            == AllowedWithin(limit, window, TimesOf(log, key), a, |TimesOf(log, key)|)
  {
    if log != [] {
      var front, r := Front(log), Last(log);
      LogCountsTimes(limit, window, front, key, a);
      TimesAppend(front, r, key);
      if r.key == key {
        CleanupIsInvisible(limit, window, log);
        var before := TimesOf(front, key);
        WithinPrefix(limit, window, before, TimesOf(log, key), a, |before|);
      }
    }
  }

  lemma {:induction false} TimesSorted(log: seq<Request>, key: string)
    requires Chronological(log)
    ensures Sorted(TimesOf(log, key))
    ensures forall i :: 0 <= i < |TimesOf(log, key)| ==> log != [] && TimesOf(log, key)[i] <= Last(log).at
  {
    if log != [] {
      TimesSorted(Front(log), key);
    }
  }

  // No interval of one window's length, however placed, sees more than twice the limit
  // of any key let through.
  lemma {:induction false} SlidingBound(limit: int, window: int, log: seq<Request>, key: string, a: int)
    requires 0 < limit && 0 < window && Chronological(log)
    ensures AllowedInLog(limit, window, log, key, a) <= 2 * limit
  {
    LogCountsTimes(limit, window, log, key, a);
    TimesSorted(log, key);
    var times := TimesOf(log, key);
    if times != [] {
      SlidingCount(limit, window, times, a, |times|);
    }
  }

  // `limit` requests at one instant and `limit` more as the window closes.
  function BurstTimes(limit: nat, window: int): (times: seq<int>)
    ensures |times| == 2 * limit
    ensures forall i :: 0 <= i < |times| ==> times[i] == if i < limit then 0 else window
  {
    seq(2 * limit, i => if i < limit then 0 else window)
  }

  function Burst(key: string, limit: nat, window: int): (log: seq<Request>)
    ensures |log| == 2 * limit
    ensures forall i :: 0 <= i < |log| ==> log[i] == Request(key, BurstTimes(limit, window)[i])
  {
    seq(2 * limit, i requires 0 <= i < 2 * limit => Request(key, BurstTimes(limit, window)[i]))
  }

  lemma {:induction false} TimesOfOneKey(log: seq<Request>, key: string)
    requires forall i :: 0 <= i < |log| ==> log[i].key == key
    ensures |TimesOf(log, key)| == |log|
    ensures forall i :: 0 <= i < |log| ==> TimesOf(log, key)[i] == log[i].at
  {
    if log != [] {
      TimesOfOneKey(Front(log), key);
    }
  }

  lemma {:induction false} BurstOpener(limit: nat, window: int, i: nat)
    requires 0 < window && i < 2 * limit
    ensures Opener(window, BurstTimes(limit, window), i) == if i < limit then 0 else limit
  {
    if i > 0 {
      BurstOpener(limit, window, i - 1);
    }
  }

  lemma BurstIsAllowed(limit: nat, window: int, i: nat)
    requires 0 < window && i < 2 * limit
    ensures WindowAnswer(limit, window, BurstTimes(limit, window), i).allowed
  {
    BurstOpener(limit, window, i);
  }

  lemma {:induction false} BurstCount(limit: nat, window: int, n: nat)
    requires 0 < window && n <= 2 * limit
    ensures AllowedWithin(limit, window, BurstTimes(limit, window), 0, n) == n
  {
    if n > 0 {
      BurstCount(limit, window, n - 1);
      BurstIsAllowed(limit, window, n - 1);
    }
  }

  // The factor two is reached, whatever the key, the limit and the window.
  lemma SlidingBoundIsReached(key: string, limit: nat, window: int)
    requires 0 < limit && 0 < window
    ensures exists log ::
              Chronological(log) && AllowedInLog(limit, window, log, key, 0) == 2 * limit
  {
    BurstIsChronological(key, limit, window);
    BurstTimesOf(key, limit, window);
    LogCountsTimes(limit, window, Burst(key, limit, window), key, 0);
    BurstCount(limit, window, 2 * limit);
  }

  lemma BurstIsChronological(key: string, limit: nat, window: int)
    requires 0 < window
    ensures Chronological(Burst(key, limit, window))
  {
  }

  lemma BurstTimesOf(key: string, limit: nat, window: int)
    ensures TimesOf(Burst(key, limit, window), key) == BurstTimes(limit, window)
  {
    TimesOfOneKey(Burst(key, limit, window), key);
  }

  // ------------------------------------------------------------------------
  // Retry-After (delay-seconds, section 10.2.3 of RFC 9110).

  function RetryAfterSeconds(duration: int): (seconds: int)
    ensures 1 <= seconds
    ensures 0 < duration ==> (seconds - 1) * SECOND < duration <= seconds * SECOND
  {
    if duration <= 0 then 1
    else
      var whole := duration / SECOND;
      var rounded := if duration % SECOND != 0 then whole + 1 else whole;
      if rounded < 1 then 1 else rounded
  }

  // A denied request is told to wait a positive time, at most one window, and that is
  // the time left until its bucket resets.
  lemma DeniedWaits(limit: int, window: int, log: seq<Request>)
    requires 0 < limit && 0 < window && Chronological(log) && |log| > 0
    requires !LastAnswer(limit, window, log).allowed
    ensures 0 < LastAnswer(limit, window, log).retryAfter <= window
  {
    CleanupIsInvisible(limit, window, log);
    var times := TimesOf(log, Last(log).key);
    TimesSorted(log, Last(log).key);
    OpenerMeetsWindow(window, times, |times| - 1);
  }

  // The same for one key's times: `middle` extends `times` with requests before the reset.
  lemma DeniedTimesUntilReset(limit: int, window: int, times: seq<int>, middle: seq<int>, at: int)
    requires 0 < limit && 0 < window && 0 < |times| && times <= middle && Sorted(middle + [at])
    requires !WindowAnswer(limit, window, times, |times| - 1).allowed
    requires Last(middle) < Last(times) + WindowAnswer(limit, window, times, |times| - 1).retryAfter
    ensures WindowAnswer(limit, window, middle + [at], |middle|).allowed
            <==> Last(times) + WindowAnswer(limit, window, times, |times| - 1).retryAfter <= at
  {
    var all := middle + [at];
    OpenerOfPrefix(window, times, all, |times| - 1);
    OpenerStays(window, all, |times| - 1, |middle| - 1);
  }

  // While the other requests on this key stay before the reset, a request on it is denied
  // up to the reset and let through from then on.
  lemma DeniedUntilReset(limit: int, window: int, log: seq<Request>, more: seq<Request>, at: int)
    requires 0 < limit && 0 < window && |log| > 0
    requires !LastAnswer(limit, window, log).allowed
    requires var reset := Last(log).at + LastAnswer(limit, window, log).retryAfter;
             forall j :: 0 <= j < |more| && more[j].key == Last(log).key ==> more[j].at < reset
    requires Chronological(log + more + [Request(Last(log).key, at)])
    ensures LastAnswer(limit, window, log + more + [Request(Last(log).key, at)]).allowed
            <==> Last(log).at + LastAnswer(limit, window, log).retryAfter <= at
  {
    var key := Last(log).key;
    var whole := log + more + [Request(key, at)];
    var reset := Last(log).at + LastAnswer(limit, window, log).retryAfter;
    PrefixChronological(whole, |log|);
    assert log == whole[..|log|];
    DeniedWaits(limit, window, log);
    CleanupIsInvisible(limit, window, log);
    CleanupIsInvisible(limit, window, whole);
    LastOfTimes(log);
    WholeTimes(log, more, key, at, reset);
    DeniedTimesUntilReset(limit, window, TimesOf(log, key), TimesOf(log + more, key), at);
  }

  lemma LastOfTimes(log: seq<Request>)
    requires |log| > 0
    ensures |TimesOf(log, Last(log).key)| > 0 && Last(TimesOf(log, Last(log).key)) == Last(log).at
  {
  }

  // The times of a key in a log that goes on, up to a last request of the key.
  lemma WholeTimes(log: seq<Request>, more: seq<Request>, key: string, at: int, reset: int)
    requires Chronological(log + more + [Request(key, at)])
    requires TimesOf(log, key) != [] && Last(TimesOf(log, key)) < reset
    requires forall j :: 0 <= j < |more| && more[j].key == key ==> more[j].at < reset
    ensures var middle := TimesOf(log + more, key);
            && TimesOf(log + more + [Request(key, at)], key) == middle + [at] && Sorted(middle + [at])
            && TimesOf(log, key) <= middle && Last(middle) < reset
  {
    TimesAppend(log + more, Request(key, at), key);
    TimesSorted(log + more + [Request(key, at)], key);
    LatestBefore(log, more, key, reset);
  }

  lemma {:induction false} LatestBefore(log: seq<Request>, more: seq<Request>, key: string, reset: int)
    requires TimesOf(log, key) != [] && Last(TimesOf(log, key)) < reset
    requires forall j :: 0 <= j < |more| && more[j].key == key ==> more[j].at < reset
    ensures TimesOf(log, key) <= TimesOf(log + more, key) && Last(TimesOf(log + more, key)) < reset
  {
    if more == [] {
      assert log + more == log;
    } else {
      LatestBefore(log, Front(more), key, reset);
      assert log + more == (log + Front(more)) + [Last(more)];
      TimesAppend(log + Front(more), Last(more), key);
    }
  }

  lemma PrefixChronological(log: seq<Request>, n: nat)
    requires n <= |log| && Chronological(log)
    ensures Chronological(log[..n])
  {
  }

  // Waiting the number of whole seconds announced is enough; waiting one second less is
  // not, and ends before the reset.
  lemma RetryAfterIsSufficientAndTight(limit: int, window: int, log: seq<Request>, more: seq<Request>, at: int)
    requires 0 < limit && 0 < window && |log| > 0
    requires !LastAnswer(limit, window, log).allowed
    requires var reset := Last(log).at + LastAnswer(limit, window, log).retryAfter;
             forall j :: 0 <= j < |more| && more[j].key == Last(log).key ==> more[j].at < reset
    requires Chronological(log + more + [Request(Last(log).key, at)])
    ensures var seconds := RetryAfterSeconds(LastAnswer(limit, window, log).retryAfter);
            var allowed := LastAnswer(limit, window, log + more + [Request(Last(log).key, at)]).allowed;
            && (Last(log).at + seconds * SECOND <= at ==> allowed)
            && (at <= Last(log).at + (seconds - 1) * SECOND ==> !allowed)
  {
    DeniedUntilReset(limit, window, log, more, at);
    var whole := log + more + [Request(Last(log).key, at)];
    PrefixChronological(whole, |log|);
    assert log == whole[..|log|];
    DeniedWaits(limit, window, log);
  }
}
