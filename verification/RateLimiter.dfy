// The fixed-window limiter of api/internal/middleware/middleware.go: a map of
// buckets that is reset lazily and swept when it grows past a threshold.
module RateLimiter {
  import opened Wrappers

  const CLEANUP_THRESHOLD := 4096

  datatype Bucket = Bucket(resetAt: int, used: nat)

  datatype Request = Request(key: string, at: int)

  datatype Answer = Answer(allowed: bool, remaining: int, retryAfter: int)

  type Buckets = map<string, Bucket>

  // ------------------------------------------------------------------------
  // What one call does to the map.

  predicate Expired(bucket: Bucket, now: int) {
    bucket.resetAt <= now
  }

  // The bucket a request at `r.at` is counted in, after counting it.
  function Touched(window: int, buckets: Buckets, r: Request): Bucket {
    if r.key in buckets && !Expired(buckets[r.key], r.at)
    then buckets[r.key].(used := buckets[r.key].used + 1)
    else Bucket(r.at + window, 1)
  }

  function Live(buckets: Buckets, now: int): Buckets {
    map key | key in buckets && !Expired(buckets[key], now) :: buckets[key]
  }

  function Step(window: int, buckets: Buckets, r: Request): Buckets {
    var counted := buckets[r.key := Touched(window, buckets, r)];
    if |counted| > CLEANUP_THRESHOLD then Live(counted, r.at) else counted
  }

  // The map is small, or everything in it is live.
  lemma StepIsBounded(window: int, buckets: Buckets, r: Request)
    ensures var next := Step(window, buckets, r);
            |next| <= CLEANUP_THRESHOLD || forall k :: k in next ==> r.at < next[k].resetAt
  {
  }

  function Respond(limit: int, bucket: Bucket, now: int): Answer {
    Answer(bucket.used <= limit,
           if limit < bucket.used then 0 else limit - bucket.used,
           if bucket.used <= limit then 0 else bucket.resetAt - now)
  }

  function BucketsAfter(window: int, log: seq<Request>): Buckets {
    if log == [] then map[] else Step(window, BucketsAfter(window, Front(log)), Last(log))
  }

  // The answer the limiter gave to the last request of the log.
  function LastAnswer(limit: int, window: int, log: seq<Request>): Answer
    requires |log| > 0
  {
    Respond(limit, Touched(window, BucketsAfter(window, Front(log)), Last(log)), Last(log).at)
  }

  lemma RunAppend(limit: int, window: int, log: seq<Request>, r: Request)
    ensures BucketsAfter(window, log + [r]) == Step(window, BucketsAfter(window, log), r)
    ensures LastAnswer(limit, window, log + [r])
            == Respond(limit, Touched(window, BucketsAfter(window, log), r), r.at)
  {
    FrontOfAppend(log, r);
  }

  // ------------------------------------------------------------------------
  // The reference: one key on its own, no map, no sweeping.

  function TimesOf(log: seq<Request>, key: string): (times: seq<int>)
  {
    if log == [] then []
    else if Last(log).key == key then TimesOf(Front(log), key) + [Last(log).at]
    else TimesOf(Front(log), key)
  }

  // The request that opened the window in which request i falls.
  function Opener(window: int, times: seq<int>, i: nat): (k: nat)
    requires i < |times|
    ensures k <= i
  {
    if i == 0 then 0
    else
      var k := Opener(window, times, i - 1);
      if times[i] >= times[k] + window then i else k
  }

  // Request i is the (i - opener + 1)-th of its window.
  function WindowAnswer(limit: int, window: int, times: seq<int>, i: nat): Answer
    requires i < |times|
  {
    var k := Opener(window, times, i);
    var n := i - k + 1;
    Answer(n <= limit, if n <= limit then limit - n else 0,
           if n <= limit then 0 else times[k] + window - times[i])
  }

  ghost predicate Sorted(times: seq<int>) {
    forall i, j :: 0 <= i <= j < |times| ==> times[i] <= times[j]
  }

  ghost predicate Chronological(log: seq<Request>) {
    forall i, j :: 0 <= i <= j < |log| ==> log[i].at <= log[j].at
  }

  // ------------------------------------------------------------------------
  // The limiter itself.

  class MemoryRateLimiter {
    const limit: int
    const window: int
    var requests: Buckets
    ghost var log: seq<Request>

    ghost predicate Valid()
      reads this
    {
      0 < limit && 0 < window && requests == BucketsAfter(window, log)
    }

    // RateLimit installs a limiter only for a positive limit and window.
    constructor (limit: int, window: int)
      requires 0 < limit && 0 < window
      ensures Valid() && log == [] && this.limit == limit && this.window == window
    {
      this.limit := limit;
      this.window := window;
      requests := map[];
      log := [];
    }

    method Allow(key: string, now: int) returns (allowed: bool, remaining: int, retryAfter: int)
      requires Valid()
      modifies this
      ensures Valid() && log == old(log) + [Request(key, now)]
      ensures Answer(allowed, remaining, retryAfter) == LastAnswer(limit, window, log)
      ensures Chronological(log) ==>
                var times := TimesOf(log, key);
                |times| > 0 && Answer(allowed, remaining, retryAfter) == WindowAnswer(limit, window, times, |times| - 1)
      ensures |requests| <= 4096 || forall k :: k in requests ==> now < requests[k].resetAt
    {
      ghost var r := Request(key, now);
      StepIsBounded(window, requests, r);
      RunAppend(limit, window, log, r);
      AnswerIsByKey(limit, window, log + [r]);
      log := log + [r];
      var bucket := Count(key, now);
      remaining := limit - bucket.used;
      if remaining < 0 {
        remaining := 0;
      }
      allowed := bucket.used <= limit;
      retryAfter := if bucket.used > limit then bucket.resetAt - now else 0;
    }

    // The part of allow that writes to the map.
    method Count(key: string, now: int) returns (bucket: Bucket)
      modifies this`requests
      ensures bucket == Touched(window, old(requests), Request(key, now))
      ensures requests == Step(window, old(requests), Request(key, now))
    {
      bucket := Bucket(now + window, 0);
      if key in requests && now < requests[key].resetAt {
        bucket := requests[key];
      }
      bucket := bucket.(used := bucket.used + 1);
      requests := requests[key := bucket];
      if |requests| > CLEANUP_THRESHOLD {
        Cleanup(now);
      }
    }

    method Cleanup(now: int)
      modifies this`requests
      ensures requests == Live(old(requests), now)
    {
      var rest := requests.Keys;
      while rest != {}
        invariant rest <= requests.Keys <= old(requests).Keys
        invariant forall k :: k in requests ==> requests[k] == old(requests)[k]
        invariant forall k :: k in old(requests) && k !in rest ==> (k in requests <==> now < old(requests)[k].resetAt)
        decreases rest
      {
        var key :| key in rest;
        rest := rest - {key};
        if requests[key].resetAt <= now {
          requests := requests - {key};
        }
      }
    }
  }

  // ------------------------------------------------------------------------
  // Sweeping cannot be observed, and keys do not influence one another.

  lemma {:induction false} OpenerOfPrefix(window: int, times: seq<int>, longer: seq<int>, i: nat)
    requires i < |times| && times <= longer
    ensures Opener(window, longer, i) == Opener(window, times, i)
  {
    if i > 0 {
      OpenerOfPrefix(window, times, longer, i - 1);
    }
  }

  // The bucket a limiter that never forgot would hold after these times.
  function KeyBucket(window: int, times: seq<int>): Bucket
    requires |times| > 0
  {
    var i := |times| - 1;
    Bucket(times[Opener(window, times, i)] + window, i - Opener(window, times, i) + 1)
  }

  // What the real map may hold for a key: that bucket, or nothing once it has expired.
  ghost predicate Tracks(window: int, buckets: Buckets, log: seq<Request>, key: string) {
    var times := TimesOf(log, key);
    if times == [] then key !in buckets
    else if key in buckets then buckets[key] == KeyBucket(window, times)
    else Expired(KeyBucket(window, times), Last(log).at)
  }

  lemma {:induction false} TimesAppend(log: seq<Request>, r: Request, key: string)
    ensures TimesOf(log + [r], key) == if r.key == key then TimesOf(log, key) + [r.at] else TimesOf(log, key)
  {
    FrontOfAppend(log, r);
  }

  lemma {:induction false} TouchedIsKeyBucket(window: int, log: seq<Request>, r: Request)
    requires log != [] ==> Last(log).at <= r.at
    requires Tracks(window, BucketsAfter(window, log), log, r.key)
    ensures |TimesOf(log + [r], r.key)| > 0
    ensures Touched(window, BucketsAfter(window, log), r) == KeyBucket(window, TimesOf(log + [r], r.key))
  {
    var times := TimesOf(log, r.key);
    TimesAppend(log, r, r.key);
    if times != [] {
      OpenerOfPrefix(window, times, times + [r.at], |times| - 1);
    }
  }

  lemma {:induction false} MapTracks(window: int, log: seq<Request>, key: string)
    requires Chronological(log)
    ensures Tracks(window, BucketsAfter(window, log), log, key)
  {
    if log != [] {
      var front, r := Front(log), Last(log);
      MapTracks(window, front, key);
      MapTracks(window, front, r.key);
      TouchedIsKeyBucket(window, front, r);
      TimesAppend(front, r, key);
    }
  }

  // Whatever the other keys did and however often the map was swept, the answer is
  // the one computed from this key's own request times.
  lemma {:induction false} CleanupIsInvisible(limit: int, window: int, log: seq<Request>)
    requires Chronological(log) && |log| > 0
    ensures |TimesOf(log, Last(log).key)| > 0
    ensures var times := TimesOf(log, Last(log).key);
            LastAnswer(limit, window, log) == WindowAnswer(limit, window, times, |times| - 1)
  {
    MapTracks(window, Front(log), Last(log).key);
    TouchedIsKeyBucket(window, Front(log), Last(log));
  }

  lemma AnswerIsByKey(limit: int, window: int, log: seq<Request>)
    requires |log| > 0
    ensures Chronological(log) ==>
              var times := TimesOf(log, Last(log).key);
              |times| > 0 && LastAnswer(limit, window, log) == WindowAnswer(limit, window, times, |times| - 1)
  {
    if Chronological(log) {
      CleanupIsInvisible(limit, window, log);
    }
  }
}
