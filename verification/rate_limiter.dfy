/**
  The in-memory token bucket with its pruning of stale buckets. Requests carry their clock readings; a run
  is any sequence of requests whose clock does not go back.
 */
module RateLimiter {
  import opened Wrappers

  datatype Config = Config(capacity: int, rate: real)  // rate in tokens per second

  datatype Bucket = Bucket(tokens: real, last: real)

  type Store = map<string, Bucket>

  /** `Raised` is the division by a refill rate of zero. */
  datatype Answer = Allowed(remaining: int) | Denied(remaining: int, wait: real) | Raised

  const PRUNE_ABOVE := 1000
  const STALE_SECONDS := 120.0

  /** `int(x)`. */
  function Truncate(x: real): int {
    if x >= 0.0 then x.Floor else -((-x).Floor)
  }

  /** `round(x, 2)`. */
  function Round2(x: real): (r: real)
    ensures x >= 0.0 ==> r >= 0.0
    ensures -0.005 <= r - x <= 0.005
  {
    Round(x * 100.0) as real / 100.0
  }

  /** The tokens a bucket offers at a time; an unknown bucket is full. */
  function Level(c: Config, b: Option<Bucket>, now: real): real {
    match b
    case None => c.capacity as real
    case Some(b) => MinReal(c.capacity as real, b.tokens + MaxReal(0.0, now - b.last) * c.rate)
  }

  /** One request against a store that forgets nothing. */
  function Consume(c: Config, store: Store, key: string, now: real): (Store, Answer) {
    var level := Level(c, Lookup(store, key), now);
    if level >= 1.0 then (store[key := Bucket(level - 1.0, now)], Allowed(Truncate(level - 1.0)))
    else if c.rate == 0.0 then (store, Raised)
    else (store, Denied(Truncate(level), Round2((1.0 - level) / c.rate)))
  }

  function Pruned(store: Store, now: real): Store {
    if |store| > PRUNE_ABOVE then map k | k in store && store[k].last >= now - STALE_SECONDS :: store[k] else store
  }

  class TokenBucketRateLimiter {
    const config: Config
    var memoryStore: Store

    constructor (config: Config)
      ensures this.config == config && memoryStore == map[]
    {
      this.config := config;
      memoryStore := map[];
    }

    method PruneMemoryStore(now: real)
      modifies this
      ensures memoryStore == Pruned(old(memoryStore), now)
    {
      if |memoryStore| > PRUNE_ABOVE {
        var cutoff := now - STALE_SECONDS;
        var stale := set k | k in memoryStore && memoryStore[k].last < cutoff;
        ghost var before := memoryStore;
        ghost var all := stale;
        while stale != {}
          invariant stale <= all
          invariant memoryStore == before - (all - stale)
          decreases stale
        {
          var k :| k in stale;
          memoryStore := memoryStore - {k};
          stale := stale - {k};
        }
      }
    }

    method CheckInMemory(key: string, now: real) returns (answer: Answer)
      modifies this
      ensures (memoryStore, answer) == Consume(config, Pruned(old(memoryStore), now), key, now)
    {
      PruneMemoryStore(now);
      var bucket := if key in memoryStore then memoryStore[key] else Bucket(config.capacity as real, now);
      var elapsed := MaxReal(0.0, now - bucket.last);
      var tokens := MinReal(config.capacity as real, bucket.tokens + elapsed * config.rate);
      assert tokens == Level(config, Lookup(memoryStore, key), now);
      if tokens >= 1.0 {
        tokens := tokens - 1.0;
        memoryStore := memoryStore[key := Bucket(tokens, now)];
        return Allowed(Truncate(tokens));
      }
      if config.rate == 0.0 {
        return Raised;
      }
      var waitTime := (1.0 - tokens) / config.rate;
      return Denied(Truncate(tokens), Round2(waitTime));
    }
  }

  // ----- runs -----

  datatype Request = Request(key: string, at: real)

  predicate ClockRuns(rs: seq<Request>) {
    forall i, j :: 0 <= i <= j < |rs| ==> rs[i].at <= rs[j].at
  }

  /** The limiter's store after the first `n` requests; with or without pruning. */
  function After(c: Config, store: Store, rs: seq<Request>, n: nat, prunes: bool): Store
    requires n <= |rs|
  {
    if n == 0 then store
    else
      var s := After(c, store, rs, n - 1, prunes);
      Consume(c, if prunes then Pruned(s, rs[n - 1].at) else s, rs[n - 1].key, rs[n - 1].at).0
  }

  function AnswerTo(c: Config, store: Store, rs: seq<Request>, n: nat, prunes: bool): Answer
    requires n < |rs|
  {
    var s := After(c, store, rs, n, prunes);
    Consume(c, if prunes then Pruned(s, rs[n].at) else s, rs[n].key, rs[n].at).1
  }

  // ----- the sliding window -----

  predicate IsAllowed(c: Config, store: Store, rs: seq<Request>, key: string, n: nat)
    requires n < |rs|
  {
    rs[n].key == key && AnswerTo(c, store, rs, n, true).Allowed?
  }

  /** How many requests for `key` with index in `[lo, hi)` were allowed. */
  function AllowedIn(c: Config, store: Store, rs: seq<Request>, key: string, lo: nat, hi: nat): nat
    requires lo <= hi <= |rs|
    decreases hi
  {
    if lo == hi then 0
    else AllowedIn(c, store, rs, key, lo, hi - 1) + (if IsAllowed(c, store, rs, key, hi - 1) then 1 else 0)
  }

  /** The capacity and what flows in at a pace over some time. */
  function Quota(c: Config, pace: real, elapsed: real): real {
    c.capacity as real + pace * elapsed
  }

  lemma QuotaCoversCapacity(c: Config, pace: real, elapsed: real)
    requires pace >= 0.0 && elapsed >= 0.0
    ensures Quota(c, pace, elapsed) >= c.capacity as real
  {
  }

  /** A bucket's last write inside the window: it is still stored, or has been pruned after a long rest. */
  predicate LastWrite(c: Config, bucket: Option<Bucket>, w: Bucket, now: real) {
    w.tokens >= 0.0 && w.last <= now && (bucket == Some(w) || (bucket.None? && now - w.last > STALE_SECONDS))
  }

  lemma ProductMonotone(a: real, b: real, x: real)
    requires a <= b && x >= 0.0
    ensures a * x <= b * x && x * a <= x * b
  {
  }

  lemma ProductSplits(pace: real, a: real, b: real, c: real)
    ensures pace * (c - a) == pace * (b - a) + pace * (c - b)
  {
  }

  lemma Quotient(x: real, d: real)
    requires x > 0.0 && d > 0.0
    ensures x / d > 0.0 && x / d * d == x
  {
    if x / d <= 0.0 {
      ProductMonotone(x / d, 0.0, d);
    }
  }

  /** Consuming one token leaves what is left, plus what has been used, under the budget of the window. */
  lemma ConsumeWithinBudget(c: Config, bucket: Option<Bucket>, w: Bucket, used: nat, pace: real, start: real, now: real)
    requires c.rate <= pace && c.capacity as real <= 120.0 * pace && c.rate >= 0.0
    requires LastWrite(c, bucket, w, now) && start <= w.last
    requires used as real + w.tokens <= Quota(c, pace, w.last - start)
    ensures used as real + Level(c, bucket, now) <= Quota(c, pace, now - start)
  {
    var rest := now - w.last;
    ProductSplits(pace, start, w.last, now);
    if bucket.Some? {
      assert MaxReal(0.0, rest) * c.rate == rest * c.rate;
      ProductMonotone(c.rate, pace, rest);
    } else {
      ProductMonotone(120.0, rest, pace);
    }
  }

  lemma PruneKeepsLastWrite(c: Config, store: Store, key: string, w: Bucket, earlier: real, now: real)
    requires LastWrite(c, Lookup(store, key), w, earlier) && earlier <= now
    ensures LastWrite(c, Lookup(Pruned(store, now), key), w, now)
  {
  }

  /** The last write accounts for everything that was allowed in the window. */
  predicate AccountedBy(c: Config, bucket: Option<Bucket>, w: Bucket, used: nat, pace: real, start: real, now: real) {
    LastWrite(c, bucket, w, now) && start <= w.last && used as real + w.tokens <= Quota(c, pace, w.last - start)
  }

  /** Either nothing was allowed in the window yet, or its last write accounts for it. */
  ghost predicate Accounted(c: Config, bucket: Option<Bucket>, used: nat, pace: real, start: real, now: real) {
    used == 0 || exists w :: AccountedBy(c, bucket, w, used, pace, start, now)
  }

  lemma AccountedLater(c: Config, store: Store, key: string, used: nat, pace: real, start: real, earlier: real,
          now: real)
    requires earlier <= now && Accounted(c, Lookup(store, key), used, pace, start, earlier)
    ensures Accounted(c, Lookup(Pruned(store, now), key), used, pace, start, now)
  {
    if used > 0 {
      var w :| AccountedBy(c, Lookup(store, key), w, used, pace, start, earlier);
      PruneKeepsLastWrite(c, store, key, w, earlier, now);
      assert AccountedBy(c, Lookup(Pruned(store, now), key), w, used, pace, start, now);
    }
  }

  /** One more allowed request is paid for by the level it found. */
  lemma AllowedIsAccounted(c: Config, bucket: Option<Bucket>, used: nat, pace: real, start: real, now: real)
    requires 0.0 <= c.rate <= pace && 0.0 <= c.capacity as real <= 120.0 * pace
    requires start <= now && Accounted(c, bucket, used, pace, start, now) && Level(c, bucket, now) >= 1.0
    ensures var w := Bucket(Level(c, bucket, now) - 1.0, now);
            AccountedBy(c, Some(w), w, used + 1, pace, start, now)
  {
    if used > 0 {
      var w :| AccountedBy(c, bucket, w, used, pace, start, now);
      ConsumeWithinBudget(c, bucket, w, used, pace, start, now);
    } else {
      QuotaCoversCapacity(c, pace, now - start);
    }
  }

  lemma OneRequest(c: Config, store: Store, key: string, r: Request, used: nat, pace: real, start: real, earlier: real)
    requires 0.0 <= c.rate <= pace && 0.0 <= c.capacity as real <= 120.0 * pace
    requires start <= earlier <= r.at && Accounted(c, Lookup(store, key), used, pace, start, earlier)
    ensures var (s, answer) := Consume(c, Pruned(store, r.at), r.key, r.at);
            Accounted(c, Lookup(s, key), used + (if r.key == key && answer.Allowed? then 1 else 0), pace, start, r.at)
  {
    var p := Pruned(store, r.at);
    var (s, answer) := Consume(c, p, r.key, r.at);
    AccountedLater(c, store, key, used, pace, start, earlier, r.at);
    if r.key == key && answer.Allowed? {
      AllowedIsAccounted(c, Lookup(p, key), used, pace, start, r.at);
    } else {
      assert Lookup(s, key) == Lookup(p, key);
    }
  }

  lemma {:induction false} WindowAccounted(c: Config, store: Store, rs: seq<Request>, key: string, lo: nat, hi: nat,
          pace: real)
    requires 0.0 <= c.rate <= pace && 0.0 <= c.capacity as real <= 120.0 * pace
    requires ClockRuns(rs) && lo < hi <= |rs|
    ensures Accounted(c, Lookup(After(c, store, rs, hi, true), key), AllowedIn(c, store, rs, key, lo, hi), pace,
                rs[lo].at, rs[hi - 1].at)
    decreases hi
  {
    var before := After(c, store, rs, hi - 1, true);
    if lo + 1 < hi {
      WindowAccounted(c, store, rs, key, lo, hi - 1, pace);
      OneRequest(c, before, key, rs[hi - 1], AllowedIn(c, store, rs, key, lo, hi - 1), pace, rs[lo].at, rs[hi - 2].at);
    } else {
      OneRequest(c, before, key, rs[lo], 0, pace, rs[lo].at, rs[lo].at);
    }
  }

  lemma QuotaGrows(c: Config, pace: real, x: real, y: real)
    requires pace >= 0.0 && x <= y
    ensures Quota(c, pace, x) <= Quota(c, pace, y)
  {
    ProductMonotone(x, y, pace);
  }

  lemma AccountedBound(c: Config, bucket: Option<Bucket>, used: nat, pace: real, start: real, now: real)
    requires c.capacity >= 0 && pace >= 0.0 && start <= now && Accounted(c, bucket, used, pace, start, now)
    ensures used as real <= Quota(c, pace, now - start)
  {
    if used > 0 {
      var w :| AccountedBy(c, bucket, w, used, pace, start, now);
      QuotaGrows(c, pace, w.last - start, now - start);
    } else {
      QuotaCoversCapacity(c, pace, now - start);
    }
  }

  /**
    Sliding window: between any two requests of any run, from any store, a key is allowed at most the
    capacity plus the elapsed time at every pace that is at least the refill rate and at least capacity
    per 120 seconds, after which a resting bucket may be forgotten.
   */
  lemma {:induction false} SlidingWindow(c: Config, store: Store, rs: seq<Request>, key: string, lo: nat, hi: nat,
          pace: real)
    requires 0.0 <= c.rate <= pace && 0.0 <= c.capacity as real <= 120.0 * pace
    requires ClockRuns(rs) && lo < hi <= |rs|
    ensures AllowedIn(c, store, rs, key, lo, hi) as real <= Quota(c, pace, rs[hi - 1].at - rs[lo].at)
  {
    WindowAccounted(c, store, rs, key, lo, hi, pace);
    AccountedBound(c, Lookup(After(c, store, rs, hi, true), key), AllowedIn(c, store, rs, key, lo, hi), pace,
      rs[lo].at, rs[hi - 1].at);
  }

  /** Where a bucket refills within 120 seconds, the pace is the refill rate. */
  lemma {:induction false} SlidingWindowAtRate(c: Config, store: Store, rs: seq<Request>, key: string, lo: nat, hi: nat)
    requires c.capacity >= 0 && c.rate >= 0.0 && ClockRuns(rs) && lo < hi <= |rs|
    requires c.capacity as real <= 120.0 * c.rate
    ensures AllowedIn(c, store, rs, key, lo, hi) as real <= Quota(c, c.rate, rs[hi - 1].at - rs[lo].at)
  {
    SlidingWindow(c, store, rs, key, lo, hi, c.rate);
  }

  // ----- pruning -----

  /** Buckets as the limiter writes them. */
  predicate Sane(c: Config, store: Store, now: real) {
    forall k :: k in store ==> 0.0 <= store[k].tokens && store[k].last <= now
  }

  /** A store that has forgotten some buckets that had rested for more than 120 seconds. */
  ghost predicate Forgets(p: Store, u: Store, now: real) {
    forall k: string :: Lookup(p, k) == Lookup(u, k) || (k !in p && k in u && now - u[k].last > STALE_SECONDS)
  }

  lemma RestedBucketIsFull(c: Config, b: Bucket, now: real)
    requires 0.0 <= b.tokens && now - b.last > STALE_SECONDS
    requires c.rate >= 0.0 && c.capacity as real <= 120.0 * c.rate
    ensures Level(c, Some(b), now) == c.capacity as real
  {
    assert (now - b.last) * c.rate >= 120.0 * c.rate;
  }

  lemma PruneForgets(p: Store, u: Store, earlier: real, now: real)
    requires Forgets(p, u, earlier) && earlier <= now
    ensures Forgets(Pruned(p, now), u, now)
  {
    var q := Pruned(p, now);
    forall k: string
      ensures Lookup(q, k) == Lookup(u, k) || (k !in q && k in u && now - u[k].last > STALE_SECONDS)
    {
      assert Lookup(p, k) == Lookup(u, k) || (k !in p && k in u && earlier - u[k].last > STALE_SECONDS);
    }
  }

  lemma {:induction false} RequestForgets(c: Config, p: Store, u: Store, r: Request, earlier: real)
    requires c.rate >= 0.0 && c.capacity as real <= 120.0 * c.rate
    requires Forgets(p, u, earlier) && Sane(c, u, earlier) && earlier <= r.at
    ensures var (p', x) := Consume(c, Pruned(p, r.at), r.key, r.at);
            var (u', y) := Consume(c, u, r.key, r.at);
            x == y && Forgets(p', u', r.at) && Sane(c, u', r.at)
  {
    var q := Pruned(p, r.at);
    PruneForgets(p, u, earlier, r.at);
    if Lookup(q, r.key) != Lookup(u, r.key) {
      RestedBucketIsFull(c, u[r.key], r.at);
    }
    assert Level(c, Lookup(q, r.key), r.at) == Level(c, Lookup(u, r.key), r.at);
  }

  lemma {:induction false} RunForgets(c: Config, store: Store, rs: seq<Request>, n: nat, start: real)
    requires c.rate >= 0.0 && c.capacity as real <= 120.0 * c.rate
    requires ClockRuns(rs) && n <= |rs| && Sane(c, store, start) && (rs != [] ==> start <= rs[0].at)
    ensures var now := if n == 0 then start else rs[n - 1].at;
            Forgets(After(c, store, rs, n, true), After(c, store, rs, n, false), now)
              && Sane(c, After(c, store, rs, n, false), now)
  {
    if n > 0 {
      RunForgets(c, store, rs, n - 1, start);
      RequestForgets(c, After(c, store, rs, n - 1, true), After(c, store, rs, n - 1, false), rs[n - 1],
                     if n == 1 then start else rs[n - 2].at);
    }
  }

  /** On every run from every sane store the limiter answers as one that never forgets a bucket. */
  ghost predicate PruningUnobservable(c: Config) {
    forall store: Store, rs: seq<Request>, start: real, n: nat ::
      ClockRuns(rs) && Sane(c, store, start) && n < |rs| && start <= rs[0].at ==>
        AnswerTo(c, store, rs, n, true) == AnswerTo(c, store, rs, n, false)
  }

  function Unary(n: nat): (s: string)
    ensures |s| == n
  {
    if n == 0 then "" else Unary(n - 1) + "k"
  }

  function Names(n: nat): (s: set<string>)
    ensures |s| == n && forall k :: k in s ==> |k| < n
  {
    if n == 0 then {} else Names(n - 1) + {Unary(n - 1)}
  }

  /** That many empty buckets, all last used at time zero. */
  function Crowd(n: nat): (s: Store)
    ensures |s| == n && s.Keys == Names(n) && forall k :: k in s ==> s[k] == Bucket(0.0, 0.0)
  {
    var s: Store := map k | k in Names(n) :: Bucket(0.0, 0.0);
    assert s.Keys == Names(n);
    assert |s| == |s.Keys|;
    s
  }

  // ----- a run that fills an empty limiter -----

  /** `n` requests for one key at one time. */
  function Burst(key: string, n: nat, at: real): (rs: seq<Request>)
    ensures |rs| == n && forall i :: 0 <= i < n ==> rs[i] == Request(key, at)
  {
    seq(n, i => Request(key, at))
  }

  lemma {:induction false} AfterPrefix(c: Config, store: Store, rs: seq<Request>, tail: seq<Request>, n: nat,
          prunes: bool)
    requires n <= |rs|
    ensures After(c, store, rs + tail, n, prunes) == After(c, store, rs, n, prunes)
  {
    if n > 0 {
      AfterPrefix(c, store, rs, tail, n - 1, prunes);
    }
  }

  lemma {:induction false} AfterSplit(c: Config, store: Store, rs: seq<Request>, tail: seq<Request>, n: nat,
          prunes: bool)
    requires n <= |tail|
    ensures After(c, store, rs + tail, |rs| + n, prunes) == After(c, After(c, store, rs, |rs|, prunes), tail, n, prunes)
  {
    if n == 0 {
      AfterPrefix(c, store, rs, tail, |rs|, prunes);
    } else {
      AfterSplit(c, store, rs, tail, n - 1, prunes);
      assert (rs + tail)[|rs| + n - 1] == tail[n - 1];
    }
  }

  lemma AnswerPrefix(c: Config, store: Store, rs: seq<Request>, tail: seq<Request>, n: nat, prunes: bool)
    requires n < |rs|
    ensures AnswerTo(c, store, rs + tail, n, prunes) == AnswerTo(c, store, rs, n, prunes)
  {
    AfterPrefix(c, store, rs, tail, n, prunes);
    assert (rs + tail)[n] == rs[n];
  }

  lemma AnswerSplit(c: Config, store: Store, rs: seq<Request>, tail: seq<Request>, n: nat, prunes: bool)
    requires n < |tail|
    ensures AnswerTo(c, store, rs + tail, |rs| + n, prunes)
         == AnswerTo(c, After(c, store, rs, |rs|, prunes), tail, n, prunes)
  {
    AfterSplit(c, store, rs, tail, n, prunes);
    assert (rs + tail)[|rs| + n] == tail[n];
  }

  lemma {:induction false} AllowedPrefix(c: Config, store: Store, rs: seq<Request>, tail: seq<Request>, key: string,
          n: nat)
    requires n <= |rs|
    ensures AllowedIn(c, store, rs + tail, key, 0, n) == AllowedIn(c, store, rs, key, 0, n)
  {
    if n > 0 {
      AllowedPrefix(c, store, rs, tail, key, n - 1);
      AnswerPrefix(c, store, rs, tail, n - 1, true);
    }
  }

  lemma IsAllowedSplit(c: Config, store: Store, rs: seq<Request>, mid: Store, tail: seq<Request>, key: string, n: nat)
    requires n < |tail| && mid == After(c, store, rs, |rs|, true)
    ensures IsAllowed(c, store, rs + tail, key, |rs| + n) == IsAllowed(c, mid, tail, key, n)
  {
    AnswerSplit(c, store, rs, tail, n, true);
    assert (rs + tail)[|rs| + n] == tail[n];
  }

  lemma {:induction false} AllowedSplit(c: Config, store: Store, rs: seq<Request>, mid: Store, tail: seq<Request>,
          key: string, n: nat)
    requires n <= |tail| && mid == After(c, store, rs, |rs|, true)
    ensures AllowedIn(c, store, rs + tail, key, 0, |rs| + n)
         == AllowedIn(c, store, rs, key, 0, |rs|) + AllowedIn(c, mid, tail, key, 0, n)
  {
    if n == 0 {
      AllowedPrefix(c, store, rs, tail, key, |rs|);
    } else {
      AllowedSplit(c, store, rs, mid, tail, key, n - 1);
      IsAllowedSplit(c, store, rs, mid, tail, key, n - 1);
    }
  }

  /** Two runs, one after the other. */
  lemma RunThen(c: Config, store: Store, rs: seq<Request>, mid: Store, tail: seq<Request>, prunes: bool)
    requires After(c, store, rs, |rs|, prunes) == mid
    ensures After(c, store, rs + tail, |rs + tail|, prunes) == After(c, mid, tail, |tail|, prunes)
  {
    AfterSplit(c, store, rs, tail, |tail|, prunes);
  }

  lemma AllowedThen(c: Config, store: Store, rs: seq<Request>, mid: Store, tail: seq<Request>, key: string)
    requires After(c, store, rs, |rs|, true) == mid
    ensures AllowedIn(c, store, rs + tail, key, 0, |rs + tail|)
         == AllowedIn(c, store, rs, key, 0, |rs|) + AllowedIn(c, mid, tail, key, 0, |tail|)
  {
    AllowedSplit(c, store, rs, mid, tail, key, |tail|);
  }

  lemma AnswerAfter(c: Config, store: Store, rs: seq<Request>, mid: Store, r: Request, prunes: bool)
    requires After(c, store, rs, |rs|, prunes) == mid
    ensures AnswerTo(c, store, rs + [r], |rs|, prunes) == AnswerTo(c, mid, [r], 0, prunes)
  {
    AnswerSplit(c, store, rs, [r], 0, prunes);
  }

  predicate NoneStale(s: Store, now: real) {
    forall k :: k in s ==> s[k].last >= now - STALE_SECONDS
  }

  lemma PrunesNothing(s: Store, now: real)
    requires NoneStale(s, now)
    ensures Pruned(s, now) == s
  {
  }

  /** The store while a burst spends a bucket that was full. */
  function Spent(c: Config, s: Store, key: string, n: nat, at: real): Store {
    if n == 0 then s else s[key := Bucket((c.capacity - n) as real, at)]
  }

  lemma SpendOne(c: Config, s: Store, key: string, n: nat, at: real, prunes: bool)
    requires NoneStale(s, at) && key !in s && n < c.capacity
    ensures var before := Spent(c, s, key, n, at);
            var (after, answer) := Consume(c, if prunes then Pruned(before, at) else before, key, at);
            after == Spent(c, s, key, n + 1, at) && answer.Allowed?
  {
    var before := Spent(c, s, key, n, at);
    PrunesNothing(before, at);
    assert Level(c, Lookup(before, key), at) == (c.capacity - n) as real;
    assert Spent(c, s, key, n + 1, at) == before[key := Bucket((c.capacity - n - 1) as real, at)];
  }

  lemma {:induction false} BurstSpends(c: Config, s: Store, key: string, total: nat, n: nat, at: real, prunes: bool)
    requires NoneStale(s, at) && key !in s && n <= total <= c.capacity
    ensures After(c, s, Burst(key, total, at), n, prunes) == Spent(c, s, key, n, at)
  {
    if n > 0 {
      BurstSpends(c, s, key, total, n - 1, at, prunes);
      SpendOne(c, s, key, n - 1, at, prunes);
    }
  }

  lemma BurstIsAllowed(c: Config, s: Store, key: string, total: nat, n: nat, at: real, other: string)
    requires NoneStale(s, at) && key !in s && n < total <= c.capacity
    ensures IsAllowed(c, s, Burst(key, total, at), other, n) <==> other == key
  {
    BurstSpends(c, s, key, total, n, at, true);
    SpendOne(c, s, key, n, at, true);
  }

  /** Every request of such a burst is allowed, and it is a request for its own key only. */
  lemma {:induction false} BurstAllowed(c: Config, s: Store, key: string, total: nat, n: nat, at: real, other: string)
    requires NoneStale(s, at) && key !in s && n <= total <= c.capacity
    ensures AllowedIn(c, s, Burst(key, total, at), other, 0, n) == if other == key then n else 0
  {
    if n > 0 {
      BurstAllowed(c, s, key, total, n - 1, at, other);
      BurstIsAllowed(c, s, key, total, n - 1, at, other);
    }
  }

  /** Each of `n` keys spends its whole bucket at time zero. */
  function Fill(c: Config, n: nat): (rs: seq<Request>)
    requires c.capacity >= 1
    ensures (n > 0 ==> rs != []) && forall i :: 0 <= i < |rs| ==> rs[i].at == 0.0
  {
    if n == 0 then [] else Fill(c, n - 1) + Burst(Unary(n - 1), c.capacity, 0.0)
  }

  lemma CrowdMore(n: nat)
    ensures Unary(n) !in Crowd(n) && Crowd(n + 1) == Crowd(n)[Unary(n) := Bucket(0.0, 0.0)]
  {
  }

  lemma CrowdGrows(c: Config, n: nat, prunes: bool)
    requires c.capacity >= 1
    ensures After(c, Crowd(n), Burst(Unary(n), c.capacity, 0.0), c.capacity, prunes) == Crowd(n + 1)
  {
    CrowdMore(n);
    BurstSpends(c, Crowd(n), Unary(n), c.capacity, c.capacity, 0.0, prunes);
  }

  lemma CrowdAllows(c: Config, n: nat)
    requires c.capacity >= 1
    ensures AllowedIn(c, Crowd(n), Burst(Unary(n), c.capacity, 0.0), Unary(0), 0, c.capacity)
         == if n == 0 then c.capacity else 0
  {
    CrowdMore(n);
    BurstAllowed(c, Crowd(n), Unary(n), c.capacity, c.capacity, 0.0, Unary(0));
    assert n > 0 ==> |Unary(n)| != |Unary(0)|;
  }

  /** That many keys with spent buckets are a store the limiter really reaches. */
  lemma {:induction false} FillFills(c: Config, n: nat, prunes: bool)
    requires c.capacity >= 1
    ensures After(c, map[], Fill(c, n), |Fill(c, n)|, prunes) == Crowd(n)
  {
    if n > 0 {
      FillFills(c, n - 1, prunes);
      RunThen(c, map[], Fill(c, n - 1), Crowd(n - 1), Burst(Unary(n - 1), c.capacity, 0.0), prunes);
      CrowdGrows(c, n - 1, prunes);
    }
  }

  lemma {:induction false} FillAllows(c: Config, n: nat)
    requires c.capacity >= 1
    ensures AllowedIn(c, map[], Fill(c, n), Unary(0), 0, |Fill(c, n)|) == if n == 0 then 0 else c.capacity
  {
    if n > 0 {
      FillAllows(c, n - 1);
      FillFills(c, n - 1, true);
      AllowedThen(c, map[], Fill(c, n - 1), Crowd(n - 1), Burst(Unary(n - 1), c.capacity, 0.0), Unary(0));
      CrowdAllows(c, n - 1);
    }
  }

  /** A rest just longer than 120 seconds, too short to refill a bucket of this capacity. */
  function Rest(c: Config): (now: real)
    requires c.rate >= 0.0 && c.capacity as real > 120.0 * c.rate
    ensures now > STALE_SECONDS && now * c.rate < c.capacity as real
  {
    var gap := c.capacity as real - 120.0 * c.rate;
    var extra := gap / (2.0 * (c.rate + 1.0));
    RestIsShort(c, gap, extra);
    STALE_SECONDS + extra
  }

  lemma RestIsShort(c: Config, gap: real, extra: real)
    requires c.rate >= 0.0 && gap > 0.0 && gap == c.capacity as real - 120.0 * c.rate
         && extra == gap / (2.0 * (c.rate + 1.0))
    ensures extra > 0.0 && (STALE_SECONDS + extra) * c.rate < c.capacity as real
  {
    Quotient(gap, 2.0 * (c.rate + 1.0));
    assert extra * (2.0 * (c.rate + 1.0)) == 2.0 * (extra * c.rate) + 2.0 * extra;
    ProductMonotone(0.0, extra, c.rate);
    assert (STALE_SECONDS + extra) * c.rate == 120.0 * c.rate + extra * c.rate;
  }

  /** After such a rest the whole crowd is forgotten at once. */
  lemma CrowdIsForgotten(n: nat, now: real)
    requires n > PRUNE_ABOVE && now > STALE_SECONDS
    ensures Pruned(Crowd(n), now) == map[]
  {
  }

  ghost predicate UnobservableFromEmpty(c: Config) {
    forall rs: seq<Request>, n: nat :: ClockRuns(rs) && n < |rs| ==>
      AnswerTo(c, map[], rs, n, true) == AnswerTo(c, map[], rs, n, false)
  }

  lemma CrowdTellsApart(c: Config, n: nat, now: real)
    requires c.capacity >= 1 && n > PRUNE_ABOVE && now > STALE_SECONDS && now * c.rate < c.capacity as real
    ensures AnswerTo(c, Crowd(n), [Request(Unary(0), now)], 0, true)
         != AnswerTo(c, Crowd(n), [Request(Unary(0), now)], 0, false)
  {
    CrowdIsForgotten(n, now);
    KeyOfCrowd(n);
    assert AnswerTo(c, Crowd(n), [Request(Unary(0), now)], 0, true) == Allowed(c.capacity - 1);
    assert Level(c, Some(Bucket(0.0, 0.0)), now) == now * c.rate;
    var b := AnswerTo(c, Crowd(n), [Request(Unary(0), now)], 0, false);
    assert b.Allowed? ==> b.remaining < c.capacity - 1;
  }

  lemma FilledTellsApart(c: Config, n: nat, now: real)
    requires c.capacity >= 1 && n > PRUNE_ABOVE && now > STALE_SECONDS && now * c.rate < c.capacity as real
    ensures !UnobservableFromEmpty(c)
  {
    var fill, r := Fill(c, n), Request(Unary(0), now);
    FillFills(c, n, true);
    FillFills(c, n, false);
    AnswerAfter(c, map[], fill, Crowd(n), r, true);
    AnswerAfter(c, map[], fill, Crowd(n), r, false);
    CrowdTellsApart(c, n, now);
    FillThen(c, n, [r], now);
    Observed(c, fill + [r], |fill|);
  }

  lemma Observed(c: Config, rs: seq<Request>, n: nat)
    requires ClockRuns(rs) && n < |rs| && AnswerTo(c, map[], rs, n, true) != AnswerTo(c, map[], rs, n, false)
    ensures !UnobservableFromEmpty(c)
  {
  }

  /**
    With a capacity that takes longer than 120 seconds to refill, one request after a rest tells the two
    apart, in a run from an empty limiter.
   */
  lemma SlowRefillIsObserved(c: Config)
    requires c.rate >= 0.0 && c.capacity as real > 120.0 * c.rate
    ensures !UnobservableFromEmpty(c)
  {
    FilledTellsApart(c, PRUNE_ABOVE + 1, Rest(c));
  }

  lemma FillThen(c: Config, n: nat, tail: seq<Request>, now: real)
    requires c.capacity >= 1 && now >= 0.0 && forall i :: 0 <= i < |tail| ==> tail[i].at == now
    ensures ClockRuns(Fill(c, n) + tail)
  {
  }

  lemma KeyOfCrowd(n: nat)
    requires n > 0
    ensures Unary(0) in Crowd(n)
  {
    if n > 1 {
      KeyOfCrowd(n - 1);
    }
  }

  lemma {:induction false} NeverObserved(c: Config, store: Store, rs: seq<Request>, start: real, n: nat)
    requires c.rate >= 0.0 && c.capacity as real <= 120.0 * c.rate
    requires ClockRuns(rs) && Sane(c, store, start) && n < |rs| && start <= rs[0].at
    ensures AnswerTo(c, store, rs, n, true) == AnswerTo(c, store, rs, n, false)
  {
    RunForgets(c, store, rs, n, start);
    RequestForgets(c, After(c, store, rs, n, true), After(c, store, rs, n, false), rs[n],
      if n == 0 then start else rs[n - 1].at);
  }

  /**
    Pruning cannot be observed, in runs from an empty limiter or from any sane store, exactly when every
    bucket refills within the 120 seconds after which it may be forgotten.
   */
  lemma {:induction false} PruningUnobservableIff(c: Config)
    requires c.rate >= 0.0
    ensures UnobservableFromEmpty(c) <==> c.capacity as real <= 120.0 * c.rate
    ensures PruningUnobservable(c) <==> c.capacity as real <= 120.0 * c.rate
  {
    if c.capacity as real <= 120.0 * c.rate {
      forall store: Store, rs: seq<Request>, start: real, n: nat
        | ClockRuns(rs) && Sane(c, store, start) && n < |rs| && start <= rs[0].at
        ensures AnswerTo(c, store, rs, n, true) == AnswerTo(c, store, rs, n, false)
      {
        NeverObserved(c, store, rs, start, n);
      }
    } else {
      SlowRefillIsObserved(c);
    }
    if PruningUnobservable(c) {
      forall rs: seq<Request>, n: nat | ClockRuns(rs) && n < |rs|
        ensures AnswerTo(c, map[], rs, n, true) == AnswerTo(c, map[], rs, n, false)
      {
        assert Sane(c, map[], rs[0].at);
      }
    }
  }

  // ----- exactly when the refill rate is the rate -----

  /** In every window of every run from this store, a key gets no more than capacity plus refill. */
  ghost predicate RateHolds(c: Config, store: Store) {
    forall rs: seq<Request>, key: string, lo: nat, hi: nat :: ClockRuns(rs) && lo < hi <= |rs| ==>
      AllowedIn(c, store, rs, key, lo, hi) as real <= Quota(c, c.rate, rs[hi - 1].at - rs[lo].at)
  }

  /** A burst prunes at its first request or not at all. */
  lemma {:induction false} BurstAfterPrune(c: Config, s: Store, key: string, total: nat, n: nat, at: real)
    requires n <= total && Pruned(Pruned(s, at), at) == Pruned(s, at)
    ensures n > 0 ==>
                After(c, s, Burst(key, total, at), n, true) == After(c, Pruned(s, at), Burst(key, total, at), n, true)
    ensures AllowedIn(c, s, Burst(key, total, at), key, 0, n)
         == AllowedIn(c, Pruned(s, at), Burst(key, total, at), key, 0, n)
  {
    if n > 0 {
      BurstAfterPrune(c, s, key, total, n - 1, at);
    }
  }

  /** A forgotten key has its whole bucket again. */
  lemma CrowdForgets(c: Config, n: nat, now: real)
    requires c.capacity >= 1 && n > PRUNE_ABOVE && now > STALE_SECONDS
    ensures AllowedIn(c, Crowd(n), Burst(Unary(0), c.capacity, now), Unary(0), 0, c.capacity) == c.capacity
  {
    CrowdIsForgotten(n, now);
    PrunesNothing(map[], now);
    BurstAfterPrune(c, Crowd(n), Unary(0), c.capacity, c.capacity, now);
    BurstAllowed(c, map[], Unary(0), c.capacity, c.capacity, now, Unary(0));
  }

  /** Such a key spends its bucket twice, before and after a rest in which it is forgotten. */
  lemma SpendsTwice(c: Config, n: nat, now: real) returns (rs: seq<Request>)
    requires c.capacity >= 1 && n > PRUNE_ABOVE && now > STALE_SECONDS
    ensures rs != [] && ClockRuns(rs) && rs[0].at == 0.0 && rs[|rs| - 1].at == now
    ensures AllowedIn(c, map[], rs, Unary(0), 0, |rs|) == 2 * c.capacity
  {
    var fill, burst := Fill(c, n), Burst(Unary(0), c.capacity, now);
    rs := fill + burst;
    FillFills(c, n, true);
    FillAllows(c, n);
    AllowedThen(c, map[], fill, Crowd(n), burst, Unary(0));
    CrowdForgets(c, n, now);
    FillThen(c, n, burst, now);
  }

  lemma TwiceExceeds(c: Config, n: nat, now: real)
    requires c.capacity >= 1 && n > PRUNE_ABOVE && now > STALE_SECONDS && now * c.rate < c.capacity as real
    ensures !RateHolds(c, map[])
  {
    var rs := SpendsTwice(c, n, now);
    QuotaOfRest(c, now);
    Exceeds(c, rs, Unary(0), now);
  }

  /** With a slow refill that is more than the rate allows for the time of the rest. */
  lemma ForgottenKeyExceeds(c: Config)
    requires c.rate >= 0.0 && c.capacity as real > 120.0 * c.rate
    ensures !RateHolds(c, map[])
  {
    TwiceExceeds(c, PRUNE_ABOVE + 1, Rest(c));
  }

  lemma QuotaOfRest(c: Config, elapsed: real)
    requires elapsed * c.rate < c.capacity as real
    ensures Quota(c, c.rate, elapsed) < (2 * c.capacity) as real
  {
    assert c.rate * elapsed == elapsed * c.rate;
  }

  lemma Exceeds(c: Config, rs: seq<Request>, key: string, elapsed: real)
    requires rs != [] && ClockRuns(rs) && elapsed == rs[|rs| - 1].at - rs[0].at
    requires AllowedIn(c, map[], rs, key, 0, |rs|) as real > Quota(c, c.rate, elapsed)
    ensures !RateHolds(c, map[])
  {
  }

  /**
    The refill rate bounds every window, of runs from an empty limiter or from any store, exactly when every
    bucket refills within 120 seconds.
   */
  lemma {:induction false} RateHoldsIff(c: Config)
    requires c.capacity >= 0 && c.rate >= 0.0
    ensures RateHolds(c, map[]) <==> c.capacity as real <= 120.0 * c.rate
    ensures (forall store: Store :: RateHolds(c, store)) <==> c.capacity as real <= 120.0 * c.rate
  {
    if c.capacity as real <= 120.0 * c.rate {
      forall store: Store
        ensures RateHolds(c, store)
      {
        forall rs: seq<Request>, key: string, lo: nat, hi: nat | ClockRuns(rs) && lo < hi <= |rs|
          ensures AllowedIn(c, store, rs, key, lo, hi) as real <= Quota(c, c.rate, rs[hi - 1].at - rs[lo].at)
        {
          SlidingWindowAtRate(c, store, rs, key, lo, hi);
        }
      }
    } else {
      ForgottenKeyExceeds(c);
    }
  }
}
