/** The bounded fixed-window rate limiter (app/auth/rate_limit.py). Times are microseconds. */
module RateLimit {
  import opened Base

  datatype Policy = Policy(limit: int, window: int)

  const SECOND := 1_000_000
  const DAY := 86_400 * SECOND
  const PRUNE_AT := 10_000

  predicate Supported(p: Policy) {
    p.limit >= 1 && SECOND <= p.window <= DAY
  }

  type Key = (string, string)

  datatype Bucket = Bucket(startedAt: int, count: int)

  type Buckets = map<Key, Bucket>

  datatype Request = Request(key: Key, now: int)

  predicate Live(p: Policy, b: Bucket, now: int) {
    now < b.startedAt + p.window
  }

  predicate Allowed(p: Policy, buckets: Buckets, r: Request) {
    r.key !in buckets || !Live(p, buckets[r.key], r.now) || buckets[r.key].count < p.limit
  }

  /** Counting without ever pruning. */
  function Counted(p: Policy, buckets: Buckets, r: Request): Buckets {
    if r.key !in buckets || !Live(p, buckets[r.key], r.now) then buckets[r.key := Bucket(r.now, 1)]
    else if buckets[r.key].count >= p.limit then buckets
    else buckets[r.key := buckets[r.key].(count := buckets[r.key].count + 1)]
  }

  function Pruned(p: Policy, buckets: Buckets, now: int): Buckets {
    if |buckets| >= PRUNE_AT then map key | key in buckets && Live(p, buckets[key], now) :: buckets[key] else buckets
  }

  class InMemoryRateLimiter {
    const policy: Policy
    var buckets: Buckets

    constructor (policy: Policy)
      requires Supported(policy)
      ensures this.policy == policy && buckets == map[]
    {
      this.policy := policy;
      buckets := map[];
    }

    method Allow(key: Key, now: int) returns (allowed: bool)
      modifies this
      ensures allowed == Allowed(policy, Pruned(policy, old(buckets), now), Request(key, now))
      ensures buckets == Counted(policy, Pruned(policy, old(buckets), now), Request(key, now))
    {
      if |buckets| >= PRUNE_AT {
        buckets := map k | k in buckets && now < buckets[k].startedAt + policy.window :: buckets[k];
      }
      if key !in buckets || now >= buckets[key].startedAt + policy.window {
        buckets := buckets[key := Bucket(now, 1)];
        return true;
      }
      if buckets[key].count >= policy.limit {
        return false;
      }
      buckets := buckets[key := buckets[key].(count := buckets[key].count + 1)];
      return true;
    }
  }

  // ------------------------------------------------------------------
  // Whole runs
  // ------------------------------------------------------------------

  predicate Nondecreasing(requests: seq<Request>) {
    forall i, j :: 0 <= i < j < |requests| ==> requests[i].now <= requests[j].now
  }

  function Run(p: Policy, requests: seq<Request>): Buckets {
    if requests == [] then map[]
    else
      var n := |requests| - 1;
      Counted(p, Pruned(p, Run(p, requests[..n]), requests[n].now), requests[n])
  }

  function RunUnpruned(p: Policy, requests: seq<Request>): Buckets {
    if requests == [] then map[]
    else Counted(p, RunUnpruned(p, requests[..|requests| - 1]), requests[|requests| - 1])
  }

  /** The limiter's answer to its i-th request. */
  predicate Answer(p: Policy, requests: seq<Request>, i: nat)
    requires i < |requests|
  {
    Allowed(p, Pruned(p, Run(p, requests[..i]), requests[i].now), requests[i])
  }

  /** The same buckets, except for expired ones that one of the two has dropped. */
  ghost predicate SameLive(p: Policy, a: Buckets, b: Buckets, now: int) {
    forall key :: (key in a && Live(p, a[key], now)) || (key in b && Live(p, b[key], now)) ==>
      key in a && key in b && a[key] == b[key]
  }

  lemma PruningKeepsLive(p: Policy, a: Buckets, b: Buckets, before: int, r: Request)
    requires SameLive(p, a, b, before) && before <= r.now
    ensures Allowed(p, Pruned(p, a, r.now), r) == Allowed(p, b, r)
    ensures SameLive(p, Counted(p, Pruned(p, a, r.now), r), Counted(p, b, r), r.now)
  {
  }

  lemma {:induction false} SameAtEveryPoint(p: Policy, requests: seq<Request>)
    requires Nondecreasing(requests) && requests != []
    ensures SameLive(p, Run(p, requests), RunUnpruned(p, requests), requests[|requests| - 1].now)
  {
    var n := |requests| - 1;
    if n == 0 {
      PruningKeepsLive(p, map[], map[], requests[0].now, requests[0]);
      assert requests[..0] == [];
    } else {
      SameAtEveryPoint(p, requests[..n]);
      PruningKeepsLive(p, Run(p, requests[..n]), RunUnpruned(p, requests[..n]), requests[n - 1].now, requests[n]);
    }
  }

  /** Pruning is invisible: while time does not run backwards every answer is that of a limiter that never prunes. */
  lemma PruningIsInvisible(p: Policy, requests: seq<Request>, i: nat)
    requires Nondecreasing(requests) && i < |requests|
    ensures Answer(p, requests, i) == Allowed(p, RunUnpruned(p, requests[..i]), requests[i])
  {
    if i == 0 {
      PruningKeepsLive(p, map[], map[], requests[0].now, requests[0]);
    } else {
      SameAtEveryPoint(p, requests[..i]);
      PruningKeepsLive(p, Run(p, requests[..i]), RunUnpruned(p, requests[..i]), requests[i - 1].now, requests[i]);
    }
  }

  /** How many of the key's requests at times in [from, to) were allowed. */
  function AllowedIn(p: Policy, requests: seq<Request>, key: Key, from: int, to: int): nat {
    if requests == [] then 0
    else
      var n := |requests| - 1;
      AllowedIn(p, requests[..n], key, from, to) +
      if requests[n].key == key && from <= requests[n].now < to && Answer(p, requests, n) then 1 else 0
  }

  /** How many were allowed in the half-open interval of the window's length that begins at `from`. */
  function InWindow(p: Policy, requests: seq<Request>, key: Key, from: int): nat {
    AllowedIn(p, requests, key, from, from + p.window)
  }

  lemma {:induction false} SplitAt(p: Policy, requests: seq<Request>, key: Key, from: int, mid: int, to: int)
    requires from <= mid <= to
    ensures AllowedIn(p, requests, key, from, to)
            == AllowedIn(p, requests, key, from, mid) + AllowedIn(p, requests, key, mid, to)
  {
    if requests != [] { SplitAt(p, requests[..|requests| - 1], key, from, mid, to); }
  }

  /**
   * What the current bucket of a key says about the requests allowed so far: it has counted those since it started, none
   * was allowed at or after its expiry, and at most `limit` were in the window before it started.
   */
  ghost predicate Summarised(p: Policy, requests: seq<Request>, key: Key, b: Bucket) {
    && 1 <= b.count <= p.limit
    && requests != [] && b.startedAt <= requests[|requests| - 1].now
    && (forall from, to :: from >= b.startedAt ==> AllowedIn(p, requests, key, from, to) <= b.count)
    && (forall from, to :: from >= b.startedAt + p.window ==> AllowedIn(p, requests, key, from, to) == 0)
    && (forall from, to :: b.startedAt - p.window <= from && to <= b.startedAt ==>
          AllowedIn(p, requests, key, from, to) <= p.limit)
  }

  ghost predicate Bounded(p: Policy, requests: seq<Request>, key: Key) {
    forall from :: InWindow(p, requests, key, from) <= 2 * p.limit
  }

  ghost predicate Inv(p: Policy, requests: seq<Request>, key: Key) {
    var buckets := RunUnpruned(p, requests);
    && (key !in buckets ==> forall from, to :: AllowedIn(p, requests, key, from, to) == 0)
    && (key in buckets ==> Summarised(p, requests, key, buckets[key]))
    && Bounded(p, requests, key)
  }

  lemma {:induction false} Always(p: Policy, requests: seq<Request>, key: Key)
    requires Supported(p) && Nondecreasing(requests)
    ensures Inv(p, requests, key)
  {
    if requests != [] {
      var n := |requests| - 1;
      Always(p, requests[..n], key);
      PruningIsInvisible(p, requests, n);
      if requests[n].key != key {
        assert forall from, to :: AllowedIn(p, requests, key, from, to) == AllowedIn(p, requests[..n], key, from, to);
        assert forall from :: InWindow(p, requests, key, from) == InWindow(p, requests[..n], key, from);
        assert n > 0 ==> requests[n - 1].now <= requests[n].now;
      } else if key !in RunUnpruned(p, requests[..n]) || !Live(p, RunUnpruned(p, requests[..n])[key], requests[n].now) {
        NewBucket(p, requests, key);
      } else {
        SameBucket(p, requests, key);
      }
    }
  }

  lemma NewBucket(p: Policy, requests: seq<Request>, key: Key)
    requires Supported(p) && Nondecreasing(requests) && requests != []
    requires var n := |requests| - 1; var buckets := RunUnpruned(p, requests[..n]);
      && Inv(p, requests[..n], key) && requests[n].key == key && Answer(p, requests, n)
      && (key !in buckets || !Live(p, buckets[key], requests[n].now))
    ensures Inv(p, requests, key)
  {
    var n := |requests| - 1;
    var now := requests[n].now;
    var prior := requests[..n];
    assert forall from, to :: AllowedIn(p, requests, key, from, to) ==
                              AllowedIn(p, prior, key, from, to) + (if from <= now < to then 1 else 0);
    assert forall from, to :: from >= now ==> AllowedIn(p, prior, key, from, to) == 0;
    assert forall from, to :: now - p.window <= from && to <= now ==> AllowedIn(p, prior, key, from, to) <= p.limit;
    forall from ensures InWindow(p, requests, key, from) <= 2 * p.limit {
      assert InWindow(p, prior, key, from) <= 2 * p.limit;
      if from <= now < from + p.window {
        SplitAt(p, prior, key, from, now, from + p.window);
      }
    }
  }

  lemma SameBucket(p: Policy, requests: seq<Request>, key: Key)
    requires Supported(p) && Nondecreasing(requests) && requests != []
    requires var n := |requests| - 1; var buckets := RunUnpruned(p, requests[..n]);
      && Inv(p, requests[..n], key) && requests[n].key == key
      && key in buckets && Live(p, buckets[key], requests[n].now)
      && Answer(p, requests, n) == (buckets[key].count < p.limit)
    ensures Inv(p, requests, key)
  {
    var n := |requests| - 1;
    var now := requests[n].now;
    var prior := requests[..n];
    var b := RunUnpruned(p, prior)[key];
    assert forall from, to :: AllowedIn(p, requests, key, from, to) ==
                              AllowedIn(p, prior, key, from, to) + (if from <= now < to && b.count < p.limit then 1 else 0);
    assert prior[n - 1].now <= now;
    forall from ensures InWindow(p, requests, key, from) <= 2 * p.limit {
      assert InWindow(p, prior, key, from) <= 2 * p.limit;
      if from <= now < from + p.window && from <= b.startedAt {
        SplitAt(p, prior, key, from, b.startedAt, from + p.window);
      }
    }
  }

  /** In any half-open interval as long as the window, at most twice the limit is allowed. */
  lemma AtMostTwiceTheLimit(p: Policy, requests: seq<Request>, key: Key, from: int)
    requires Supported(p) && Nondecreasing(requests)
    ensures InWindow(p, requests, key, from) <= 2 * p.limit
  {
    Always(p, requests, key);
  }

  /** The i-th request starts a window of its key. */
  predicate Opens(p: Policy, requests: seq<Request>, i: nat)
    requires i < |requests|
  {
    var buckets := RunUnpruned(p, requests[..i]);
    requests[i].key !in buckets || !Live(p, buckets[requests[i].key], requests[i].now)
  }

  /** In every fixed window at most `limit` is allowed. */
  lemma {:induction false} AtMostTheLimitPerWindow(p: Policy, requests: seq<Request>, i: nat)
    requires Supported(p) && Nondecreasing(requests) && i < |requests| && Opens(p, requests, i)
    ensures var start := requests[i].now; var key := requests[i].key;
      && InWindow(p, requests, key, start) <= p.limit
      && key in RunUnpruned(p, requests)
      && var b := RunUnpruned(p, requests)[key]; b.startedAt == start || b.startedAt >= start + p.window
    decreases |requests|
  {
    var n := |requests| - 1;
    var start, key := requests[i].now, requests[i].key;
    Always(p, requests, key);
    if i < n {
      assert requests[..n][..i] == requests[..i];
      AtMostTheLimitPerWindow(p, requests[..n], i);
      Always(p, requests[..n], key);
      var b := RunUnpruned(p, requests[..n])[key];
      if b.startedAt >= start + p.window {
        assert requests[n - 1].now <= requests[n].now;
      }
    }
  }

  // ------------------------------------------------------------------
  // Every answer, read off the times of the requests and the answers before
  // ------------------------------------------------------------------

  /** When the window began that a request of the key at this time falls into, if it does not begin one itself. */
  function WindowAt(p: Policy, requests: seq<Request>, key: Key, now: int): Option<int> {
    if requests == [] then None
    else
      var prior, r := requests[..|requests| - 1], requests[|requests| - 1];
      if r.key != key then WindowAt(p, prior, key, now)
      else
        var began := WindowAt(p, prior, key, r.now);
        var start := if began.Some? then began.value else r.now;
        if now < start + p.window then Some(start) else None
  }

  lemma {:induction false} WindowIsStored(p: Policy, requests: seq<Request>, key: Key, now: int)
    ensures var buckets := RunUnpruned(p, requests);
            WindowAt(p, requests, key, now) == if key in buckets && Live(p, buckets[key], now) then Some(buckets[key].startedAt) else None
  {
    if requests != [] {
      var prior, r := requests[..|requests| - 1], requests[|requests| - 1];
      WindowIsStored(p, prior, key, now);
      WindowIsStored(p, prior, key, r.now);
    }
  }

  /** The bucket has counted what was allowed since it began. */
  lemma {:induction false} CountIsStored(p: Policy, requests: seq<Request>, key: Key, to: int)
    requires Supported(p) && Nondecreasing(requests) && forall i :: 0 <= i < |requests| ==> requests[i].now < to
    ensures var buckets := RunUnpruned(p, requests);
            key in buckets ==> AllowedIn(p, requests, key, buckets[key].startedAt, to) == buckets[key].count
  {
    if requests != [] {
      var n := |requests| - 1;
      CountIsStored(p, requests[..n], key, to);
      Always(p, requests[..n], key);
      Always(p, requests, key);
      PruningIsInvisible(p, requests, n);
      if key in RunUnpruned(p, requests) { NextCount(p, requests, key, to); }
    }
  }

  lemma NextCount(p: Policy, requests: seq<Request>, key: Key, to: int)
    requires requests != [] && requests[|requests| - 1].now < to
    requires var n := |requests| - 1; var prior := RunUnpruned(p, requests[..n]);
      && Inv(p, requests[..n], key) && Answer(p, requests, n) == Allowed(p, prior, requests[n])
      && (key in prior ==> AllowedIn(p, requests[..n], key, prior[key].startedAt, to) == prior[key].count)
      && (key in prior && requests[n].key == key ==> prior[key].startedAt <= requests[n].now)
    requires key in RunUnpruned(p, requests)
    ensures AllowedIn(p, requests, key, RunUnpruned(p, requests)[key].startedAt, to) == RunUnpruned(p, requests)[key].count
  {
  }

  /**
   * While time does not run backwards, a request is allowed exactly if it begins a window of its key or fewer than `limit`
   * of the key's requests have been allowed in the window it falls into.
   */
  lemma AnswerIff(p: Policy, requests: seq<Request>, i: nat)
    requires Supported(p) && Nondecreasing(requests) && i < |requests|
    ensures var r, window := requests[i], WindowAt(p, requests[..i], requests[i].key, requests[i].now);
      Answer(p, requests, i) <==> window.None? || AllowedIn(p, requests[..i], r.key, window.value, r.now + 1) < p.limit
  {
    PruningIsInvisible(p, requests, i);
    WindowIsStored(p, requests[..i], requests[i].key, requests[i].now);
    CountIsStored(p, requests[..i], requests[i].key, requests[i].now + 1);
  }
}
