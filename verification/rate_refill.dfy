/**
  What a bucket gives back: a key is turned away only when it has really used up its capacity and what flowed in
  since some earlier request, so that the limiter's answers are exactly those of counting the requests.
 */
module RateRefill {
  import opened Wrappers
  import opened RateLimiter

  /** What the bucket holds is the quota since request `lo` minus what was allowed since. */
  predicate SpentSince(c: Config, rs: seq<Request>, key: string, lo: nat, hi: nat, b: Bucket)
    requires hi <= |rs|
  {
    && lo < hi && rs[lo].key == key && rs[lo].at <= b.last
    && b.tokens == Quota(c, c.rate, b.last - rs[lo].at) - AllowedIn(c, map[], rs, key, lo, hi) as real
  }

  ghost predicate SpentSinceSome(c: Config, rs: seq<Request>, key: string, hi: nat, b: Bucket)
    requires hi <= |rs|
  {
    exists lo :: SpentSince(c, rs, key, lo, hi, b)
  }

  /** Some earlier request explains the bucket of the key, if it has one. */
  ghost predicate Explained(c: Config, rs: seq<Request>, key: string, hi: nat)
    requires hi <= |rs|
  {
    var s := After(c, map[], rs, hi, true);
    key in s ==> hi > 0 && s[key].last <= rs[hi - 1].at && SpentSinceSome(c, rs, key, hi, s[key])
  }

  lemma QuotaAtOnce(c: Config, rate: real)
    ensures Quota(c, rate, 0.0) == c.capacity as real
  {
  }

  lemma QuotaAdds(c: Config, rate: real, start: real, mid: real, end: real)
    ensures Quota(c, rate, end - start) == Quota(c, rate, mid - start) + (end - mid) * rate
  {
    ProductSplits(rate, start, mid, end);
  }

  /** The level a request finds is the quota since `lo` minus what was allowed, unless the bucket is full. */
  lemma LevelSince(c: Config, rs: seq<Request>, key: string, lo: nat, hi: nat, b: Bucket, now: real)
    requires c.rate >= 0.0 && hi <= |rs| && SpentSince(c, rs, key, lo, hi, b) && b.last <= now
    ensures var flown := Quota(c, c.rate, now - rs[lo].at) - AllowedIn(c, map[], rs, key, lo, hi) as real;
            Level(c, Some(b), now) == MinReal(c.capacity as real, flown)
  {
    LevelFlows(c, b, rs[lo].at, AllowedIn(c, map[], rs, key, lo, hi) as real, now);
  }

  lemma LevelFlows(c: Config, b: Bucket, start: real, used: real, now: real)
    requires b.last <= now && b.tokens == Quota(c, c.rate, b.last - start) - used
    ensures Level(c, Some(b), now) == MinReal(c.capacity as real, Quota(c, c.rate, now - start) - used)
  {
    QuotaAdds(c, c.rate, start, b.last, now);
    LevelIs(c, b, now);
  }

  lemma LevelIs(c: Config, b: Bucket, now: real)
    requires b.last <= now
    ensures Level(c, Some(b), now) == MinReal(c.capacity as real, b.tokens + (now - b.last) * c.rate)
  {
    assert MaxReal(0.0, now - b.last) == now - b.last;
  }

  lemma AllowedMore(c: Config, rs: seq<Request>, key: string, lo: nat, hi: nat)
    requires lo <= hi < |rs|
    ensures AllowedIn(c, map[], rs, key, lo, hi + 1)
         == AllowedIn(c, map[], rs, key, lo, hi) + (if IsAllowed(c, map[], rs, key, hi) then 1 else 0)
  {
  }

  /** After an allowed request the bucket is explained by the old request, or by this one if it found a full bucket. */
  lemma SpendIsExplained(c: Config, rs: seq<Request>, key: string, hi: nat, b: Option<Bucket>)
    requires c.capacity >= 1 && c.rate >= 0.0 && hi < |rs| && rs[hi].key == key && IsAllowed(c, map[], rs, key, hi)
    requires b.Some? ==> b.value.last <= rs[hi].at && SpentSinceSome(c, rs, key, hi, b.value)
    ensures SpentSinceSome(c, rs, key, hi + 1, Bucket(Level(c, b, rs[hi].at) - 1.0, rs[hi].at))
  {
    var now, level := rs[hi].at, Level(c, b, rs[hi].at);
    if level == c.capacity as real {
      QuotaAtOnce(c, c.rate);
      AllowedMore(c, rs, key, hi, hi);
      assert SpentSince(c, rs, key, hi, hi + 1, Bucket(level - 1.0, now));
    } else {
      var lo :| SpentSince(c, rs, key, lo, hi, b.value);
      LevelSince(c, rs, key, lo, hi, b.value, now);
      SpendSince(c, rs, key, lo, hi, level);
    }
  }

  lemma SpendSince(c: Config, rs: seq<Request>, key: string, lo: nat, hi: nat, level: real)
    requires lo < hi < |rs| && rs[lo].key == key && rs[lo].at <= rs[hi].at && IsAllowed(c, map[], rs, key, hi)
    requires level == Quota(c, c.rate, rs[hi].at - rs[lo].at) - AllowedIn(c, map[], rs, key, lo, hi) as real
    ensures SpentSinceSome(c, rs, key, hi + 1, Bucket(level - 1.0, rs[hi].at))
  {
    AllowedMore(c, rs, key, lo, hi);
    assert SpentSince(c, rs, key, lo, hi + 1, Bucket(level - 1.0, rs[hi].at));
  }

  lemma NotAllowedKeeps(c: Config, rs: seq<Request>, key: string, hi: nat, b: Bucket)
    requires hi < |rs| && !IsAllowed(c, map[], rs, key, hi) && SpentSinceSome(c, rs, key, hi, b)
    ensures SpentSinceSome(c, rs, key, hi + 1, b)
  {
    var lo :| SpentSince(c, rs, key, lo, hi, b);
    AllowedMore(c, rs, key, lo, hi);
    assert SpentSince(c, rs, key, lo, hi + 1, b);
  }

  /** The bucket a request finds, after the pruning before it. */
  function Found(c: Config, rs: seq<Request>, n: nat, key: string): Option<Bucket>
    requires n < |rs|
  {
    Lookup(Pruned(After(c, map[], rs, n, true), rs[n].at), key)
  }

  lemma PrunedKeeps(store: Store, now: real, key: string)
    ensures Lookup(Pruned(store, now), key) == Lookup(store, key)
         || (Lookup(Pruned(store, now), key).None? && key in store && now - store[key].last > STALE_SECONDS)
  {
  }

  /** One request, seen from one key: its bucket is spent from, or stays what it was or is forgotten. */
  lemma AfterOne(c: Config, rs: seq<Request>, n: nat, key: string)
    requires n < |rs|
    ensures var b := Lookup(After(c, map[], rs, n + 1, true), key);
            if IsAllowed(c, map[], rs, key, n) then
              b == Some(Bucket(Level(c, Found(c, rs, n, key), rs[n].at) - 1.0, rs[n].at))
            else b == Found(c, rs, n, key)
    ensures IsAllowed(c, map[], rs, key, n) <==> rs[n].key == key && Level(c, Found(c, rs, n, key), rs[n].at) >= 1.0
  {
  }

  lemma {:induction false} AlwaysExplained(c: Config, rs: seq<Request>, key: string, hi: nat)
    requires c.capacity >= 1 && c.rate >= 0.0 && ClockRuns(rs) && hi <= |rs|
    ensures Explained(c, rs, key, hi)
  {
    if hi > 0 {
      var n := hi - 1;
      AlwaysExplained(c, rs, key, n);
      FoundIsExplained(c, rs, n, key);
      AfterOne(c, rs, n, key);
      var b := Found(c, rs, n, key);
      if IsAllowed(c, map[], rs, key, n) {
        SpendIsExplained(c, rs, key, n, b);
      } else if b.Some? {
        NotAllowedKeeps(c, rs, key, n, b.value);
      }
    }
  }

  lemma FoundIsExplained(c: Config, rs: seq<Request>, n: nat, key: string)
    requires ClockRuns(rs) && n < |rs| && Explained(c, rs, key, n)
    ensures var b := Found(c, rs, n, key);
            b.Some? ==> b.value.last <= rs[n].at && SpentSinceSome(c, rs, key, n, b.value)
  {
    PrunedKeeps(After(c, map[], rs, n, true), rs[n].at, key);
  }

  /** Since request `lo`, another request would be more than the capacity and what has flown in. */
  predicate UsedUp(c: Config, rs: seq<Request>, key: string, lo: nat, n: nat)
    requires n < |rs|
  {
    && lo <= n && rs[lo].key == key
    && (AllowedIn(c, map[], rs, key, lo, n) + 1) as real > Quota(c, c.rate, rs[n].at - rs[lo].at)
  }

  /**
    The converse of the sliding window: a request is turned away only if, since some earlier request for its
    key, the allowed ones and itself are more than the capacity and what has flown in.
   */
  lemma DeniedOnlyWhenUsedUp(c: Config, rs: seq<Request>, n: nat) returns (lo: nat)
    requires c.capacity >= 1 && c.rate >= 0.0 && ClockRuns(rs) && n < |rs|
    requires !IsAllowed(c, map[], rs, rs[n].key, n)
    ensures lo < n && UsedUp(c, rs, rs[n].key, lo, n)
  {
    var key := rs[n].key;
    AlwaysExplained(c, rs, key, n);
    FoundIsExplained(c, rs, n, key);
    AfterOne(c, rs, n, key);
    var b := Found(c, rs, n, key);
    lo :| SpentSince(c, rs, key, lo, n, b.value);
    LevelSince(c, rs, key, lo, n, b.value, rs[n].at);
  }

  /**
    The limiter is exactly a count: where a bucket refills within 120 seconds, a request of any run from an empty
    limiter is allowed if and only if, since each earlier request for its key (and itself), the allowed ones and
    itself are no more than the capacity and what has flown in.
   */
  lemma AllowedExactlyWhenNotUsedUp(c: Config, rs: seq<Request>, n: nat)
    requires c.capacity >= 1 && c.rate >= 0.0 && c.capacity as real <= 120.0 * c.rate && ClockRuns(rs) && n < |rs|
    ensures IsAllowed(c, map[], rs, rs[n].key, n) <==> forall lo: nat :: lo <= n ==> !UsedUp(c, rs, rs[n].key, lo, n)
  {
    var key := rs[n].key;
    if IsAllowed(c, map[], rs, key, n) {
      forall lo: nat | lo <= n
        ensures !UsedUp(c, rs, key, lo, n)
      {
        SlidingWindowAtRate(c, map[], rs, key, lo, n + 1);
        AllowedMore(c, rs, key, lo, n);
      }
    } else {
      var lo := DeniedOnlyWhenUsedUp(c, rs, n);
    }
  }

  // ----- the quoted wait -----

  /** Nobody asks for the key between the two requests. */
  predicate Untouched(rs: seq<Request>, key: string, n: nat, m: nat)
    requires m <= |rs|
  {
    forall i :: n < i < m ==> rs[i].key != key
  }

  lemma {:induction false} UntouchedKeeps(c: Config, rs: seq<Request>, key: string, n: nat, m: nat)
    requires n < m <= |rs| && Untouched(rs, key, n, m) && !IsAllowed(c, map[], rs, key, n)
    requires ClockRuns(rs) && Found(c, rs, n, key).Some? && m < |rs|
    ensures StillThere(Found(c, rs, m, key), Found(c, rs, n, key).value, rs[m].at)
    decreases m
  {
    AfterOne(c, rs, m - 1, key);
    if n + 1 < m {
      UntouchedKeeps(c, rs, key, n, m - 1);
    }
    PrunedKeeps(After(c, map[], rs, m, true), rs[m].at, key);
  }

  /** The bucket is what it was, or has been forgotten after a long rest. */
  predicate StillThere(found: Option<Bucket>, b: Bucket, now: real) {
    found == Some(b) || (found.None? && now - b.last > STALE_SECONDS)
  }

  /**
    Either way the level is what it was plus what has flown in, at least, and exactly that if buckets refill in
    time.
   */
  lemma LevelLater(c: Config, found: Option<Bucket>, b: Bucket, now: real, later: real)
    requires c.rate >= 0.0 && b.last <= now <= later && StillThere(found, b, later) && b.tokens >= 0.0
    ensures Level(c, found, later) >= MinReal(c.capacity as real, Level(c, Some(b), now) + (later - now) * c.rate)
    ensures c.capacity as real <= 120.0 * c.rate ==>
              Level(c, found, later) == MinReal(c.capacity as real, Level(c, Some(b), now) + (later - now) * c.rate)
  {
    LevelRises(c, b, now, later);
    if found.None? && c.capacity as real <= 120.0 * c.rate {
      RestedBucketIsFull(c, b, later);
    }
  }

  lemma LevelRises(c: Config, b: Bucket, now: real, later: real)
    requires c.rate >= 0.0 && b.last <= now <= later
    ensures Level(c, Some(b), later) == MinReal(c.capacity as real, Level(c, Some(b), now) + (later - now) * c.rate)
  {
    LevelIs(c, b, now);
    LevelIs(c, b, later);
    assert (later - b.last) * c.rate == (now - b.last) * c.rate + (later - now) * c.rate;
    ProductMonotone(0.0, later - now, c.rate);
  }

  lemma WaitFills(c: Config, level: real, rest: real)
    requires c.rate > 0.0 && rest >= (1.0 - level) / c.rate
    ensures level + rest * c.rate >= 1.0
  {
    var w := (1.0 - level) / c.rate;
    assert w * c.rate == 1.0 - level;
    ProductMonotone(w, rest, c.rate);
  }

  lemma WaitIsNeeded(c: Config, level: real, rest: real)
    requires c.rate > 0.0 && rest < (1.0 - level) / c.rate
    ensures level + rest * c.rate < 1.0
  {
    var w := (1.0 - level) / c.rate;
    assert w * c.rate == 1.0 - level;
    var short := w - rest;
    assert w * c.rate == rest * c.rate + short * c.rate;
    Positive(short, c.rate);
  }

  lemma Positive(x: real, y: real)
    requires x > 0.0 && y > 0.0
    ensures x * y > 0.0
  {
  }

  lemma FilledLater(c: Config, found: Option<Bucket>, b: Bucket, now: real, later: real)
    requires c.capacity >= 1 && c.rate > 0.0 && b.last <= now <= later && StillThere(found, b, later) && b.tokens >= 0.0
    requires later - now >= Round2((1.0 - Level(c, Some(b), now)) / c.rate) + 0.005
    ensures Level(c, found, later) >= 1.0
  {
    LevelLater(c, found, b, now, later);
    WaitFills(c, Level(c, Some(b), now), later - now);
  }

  lemma ShortLater(c: Config, found: Option<Bucket>, b: Bucket, now: real, later: real)
    requires c.capacity as real <= 120.0 * c.rate && c.rate > 0.0
    requires b.last <= now <= later && StillThere(found, b, later) && b.tokens >= 0.0
    requires later - now < Round2((1.0 - Level(c, Some(b), now)) / c.rate) - 0.005
    ensures Level(c, found, later) < 1.0
  {
    LevelLater(c, found, b, now, later);
    WaitIsNeeded(c, Level(c, Some(b), now), later - now);
  }

  /** What a denial says of the bucket: it is there, and short of a token by what the wait brings. */
  lemma DeniedFinds(c: Config, rs: seq<Request>, n: nat)
    requires c.capacity >= 1 && c.rate >= 0.0 && ClockRuns(rs) && n < |rs| && AnswerTo(c, map[], rs, n, true).Denied?
    ensures var b := Found(c, rs, n, rs[n].key);
            && b.Some? && b.value.tokens >= 0.0 && b.value.last <= rs[n].at && c.rate > 0.0
              && Level(c, b, rs[n].at) < 1.0
            && AnswerTo(c, map[], rs, n, true).wait == Round2((1.0 - Level(c, b, rs[n].at)) / c.rate)
  {
    AlwaysExplained(c, rs, rs[n].key, n);
    FoundIsExplained(c, rs, n, rs[n].key);
    NeverNegative(c, rs, n, rs[n].key);
  }

  lemma {:induction false} NeverNegative(c: Config, rs: seq<Request>, n: nat, key: string)
    requires n < |rs| && Found(c, rs, n, key).Some?
    ensures Found(c, rs, n, key).value.tokens >= 0.0
  {
    PrunedKeeps(After(c, map[], rs, n, true), rs[n].at, key);
    if n > 0 {
      AfterOne(c, rs, n - 1, key);
      if !IsAllowed(c, map[], rs, key, n - 1) {
        NeverNegative(c, rs, n - 1, key);
      }
    }
  }

  /**
    The quoted wait is enough: a key that was turned away and comes back, untouched meanwhile, when the wait and
    its rounding are over, is allowed.
   */
  lemma WaitIsEnough(c: Config, rs: seq<Request>, n: nat, m: nat)
    requires c.capacity >= 1 && c.rate >= 0.0 && ClockRuns(rs) && n < m < |rs|
    requires rs[m].key == rs[n].key && Untouched(rs, rs[n].key, n, m)
    requires AnswerTo(c, map[], rs, n, true).Denied?
    requires rs[m].at - rs[n].at >= AnswerTo(c, map[], rs, n, true).wait + 0.005
    ensures IsAllowed(c, map[], rs, rs[m].key, m)
  {
    var key := rs[n].key;
    DeniedFinds(c, rs, n);
    var b := Found(c, rs, n, key).value;
    UntouchedKeeps(c, rs, key, n, m);
    AfterOne(c, rs, m, key);
    FilledLater(c, Found(c, rs, m, key), b, rs[n].at, rs[m].at);
  }

  /**
    The quoted wait is needed: before it, less its rounding, the key is turned away again, if buckets refill in
    time.
   */
  lemma WaitIsDue(c: Config, rs: seq<Request>, n: nat, m: nat)
    requires c.capacity >= 1 && c.rate >= 0.0 && c.capacity as real <= 120.0 * c.rate && ClockRuns(rs) && n < m < |rs|
    requires rs[m].key == rs[n].key && Untouched(rs, rs[n].key, n, m)
    requires AnswerTo(c, map[], rs, n, true).Denied?
    requires rs[m].at - rs[n].at < AnswerTo(c, map[], rs, n, true).wait - 0.005
    ensures !IsAllowed(c, map[], rs, rs[m].key, m)
  {
    var key := rs[n].key;
    DeniedFinds(c, rs, n);
    var b := Found(c, rs, n, key).value;
    UntouchedKeeps(c, rs, key, n, m);
    AfterOne(c, rs, m, key);
    ShortLater(c, Found(c, rs, m, key), b, rs[n].at, rs[m].at);
  }

  // ----- the remaining count -----

  /** The requests from `n` to `n + k` are all for one key, at one time. */
  predicate AllAtOnce(rs: seq<Request>, n: nat, k: nat)
    requires n + k < |rs|
  {
    forall i :: n <= i <= n + k ==> rs[i] == rs[n]
  }

  lemma LevelNow(c: Config, b: Bucket)
    requires b.tokens <= c.capacity as real
    ensures Level(c, Some(b), b.last) == b.tokens
  {
  }

  lemma LevelIsCapped(c: Config, b: Option<Bucket>, now: real)
    ensures Level(c, b, now) <= c.capacity as real
  {
  }

  /** Each further request finds a token less. */
  lemma {:induction false} BurstFinds(c: Config, rs: seq<Request>, n: nat, k: nat)
    requires n + k < |rs| && k > 0 && AllAtOnce(rs, n, k)
    requires forall i :: n <= i < n + k ==> IsAllowed(c, map[], rs, rs[n].key, i)
    ensures Level(c, Found(c, rs, n + k, rs[n].key), rs[n].at)
         == Level(c, Found(c, rs, n, rs[n].key), rs[n].at) - k as real
  {
    var key, now := rs[n].key, rs[n].at;
    var before := Level(c, Found(c, rs, n + k - 1, key), now);
    if k > 1 {
      BurstFinds(c, rs, n, k - 1);
    }
    AfterOne(c, rs, n + k - 1, key);
    PrunedKeeps(After(c, map[], rs, n + k, true), now, key);
    LevelIsCapped(c, Found(c, rs, n + k - 1, key), now);
    LevelNow(c, Bucket(before - 1.0, now));
  }

  /** The remaining count is exact: that many more requests are allowed at once, and the next one is not. */
  lemma {:induction false} RemainingIsExact(c: Config, rs: seq<Request>, n: nat, k: nat)
    requires n + k < |rs| && AllAtOnce(rs, n, k) && AnswerTo(c, map[], rs, n, true).Allowed?
    requires k <= AnswerTo(c, map[], rs, n, true).remaining + 1
    ensures IsAllowed(c, map[], rs, rs[n].key, n + k) <==> k <= AnswerTo(c, map[], rs, n, true).remaining
  {
    if k > 0 {
      forall i | n <= i < n + k
        ensures IsAllowed(c, map[], rs, rs[n].key, i)
      {
        RemainingIsExact(c, rs, n, i - n);
      }
      BurstFinds(c, rs, n, k);
      AfterOne(c, rs, n + k, rs[n].key);
    }
  }

  /** A key that is turned away has nothing left. */
  lemma DeniedHasNothingLeft(c: Config, rs: seq<Request>, n: nat)
    requires c.capacity >= 1 && c.rate >= 0.0 && ClockRuns(rs) && n < |rs| && AnswerTo(c, map[], rs, n, true).Denied?
    ensures AnswerTo(c, map[], rs, n, true).remaining == 0
  {
    DeniedFinds(c, rs, n);
    LevelIsNotNegative(c, Found(c, rs, n, rs[n].key).value, rs[n].at);
  }

  lemma LevelIsNotNegative(c: Config, b: Bucket, now: real)
    requires c.capacity >= 0 && c.rate >= 0.0 && b.tokens >= 0.0 && b.last <= now
    ensures Level(c, Some(b), now) >= 0.0
  {
    LevelIs(c, b, now);
    ProductMonotone(0.0, now - b.last, c.rate);
  }

  /** The division by a refill rate of zero is reached exactly by a request that is not allowed. */
  lemma RaisedExactlyWithoutRefill(c: Config, rs: seq<Request>, n: nat)
    requires n < |rs|
    ensures AnswerTo(c, map[], rs, n, true).Raised? <==> c.rate == 0.0 && !IsAllowed(c, map[], rs, rs[n].key, n)
  {
  }

  // ----- limiters with few keys -----

  /** The keys of the first `n` requests. */
  function KeysOf(rs: seq<Request>, n: nat): set<string>
    requires n <= |rs|
  {
    set i | 0 <= i < n :: rs[i].key
  }

  lemma {:induction false} StoredKeys(c: Config, rs: seq<Request>, n: nat)
    requires n <= |rs|
    ensures After(c, map[], rs, n, false).Keys <= KeysOf(rs, n)
  {
    if n > 0 {
      StoredKeys(c, rs, n - 1);
      assert rs[n - 1].key in KeysOf(rs, n);
    }
  }

  lemma FewKeys(store: Store, keys: set<string>, now: real)
    requires store.Keys <= keys && |keys| <= 1000
    ensures Pruned(store, now) == store
  {
    SmallerSet(store.Keys, keys);
    assert |store| == |store.Keys|;
  }

  lemma SmallerSet(a: set<string>, b: set<string>)
    requires a <= b
    ensures |a| <= |b|
  {
    assert b == a + (b - a);
    assert |b| == |a| + |b - a|;
  }

  lemma KeysGrow(rs: seq<Request>, n: nat, m: nat)
    requires n <= m <= |rs|
    ensures KeysOf(rs, n) <= KeysOf(rs, m)
  {
  }

  lemma NothingToPrune(c: Config, rs: seq<Request>, n: nat)
    requires n < |rs| && |KeysOf(rs, |rs|)| <= 1000
    ensures var s := After(c, map[], rs, n, false); Pruned(s, rs[n].at) == s
  {
    StoredKeys(c, rs, n);
    KeysGrow(rs, n, |rs|);
    FewKeys(After(c, map[], rs, n, false), KeysOf(rs, |rs|), rs[n].at);
  }

  lemma {:induction false} FewKeysStore(c: Config, rs: seq<Request>, n: nat)
    requires n <= |rs| && |KeysOf(rs, |rs|)| <= 1000
    ensures After(c, map[], rs, n, true) == After(c, map[], rs, n, false)
  {
    hide Consume, Pruned, KeysOf;
    if n > 0 {
      FewKeysStore(c, rs, n - 1);
      NothingToPrune(c, rs, n - 1);
    }
  }

  /** With at most a thousand keys nothing is ever forgotten, whatever the capacity and the refill rate. */
  lemma FewKeysAreKept(c: Config, rs: seq<Request>, n: nat)
    requires n < |rs| && |KeysOf(rs, |rs|)| <= 1000
    ensures AnswerTo(c, map[], rs, n, true) == AnswerTo(c, map[], rs, n, false)
  {
    hide Consume, Pruned, KeysOf;
    FewKeysStore(c, rs, n);
    NothingToPrune(c, rs, n);
  }
}
