/** What the fields of the sliding window's reply promise. */
module SlidingWindowReplies {
  import opened Rounding
  import opened Runs
  import opened SlidingWindow
  import opened SlidingWindowBounds

  predicate Allows(cfg: Config, key: Key<Ring>, now: int, cost: int) {
    Estimate(cfg, key, now) + cost * cfg.windowMs <= cfg.limit * cfg.windowMs
  }

  lemma {:induction false} AllowedIffAllows(cfg: Config, key: Key<Ring>, q: Request)
    ensures Check(cfg, key, q).1.allowed <==> Allows(cfg, key, q.now, q.cost)
  {}

  lemma {:induction false} WeighedMore(cfg: Config, now: int, full: int, oldest: int, cost: int)
    ensures Weighed(cfg, now, full + cost, oldest) == Weighed(cfg, now, full, oldest) + cost * cfg.windowMs
  {}

  /** The write lands in the summed range, and leaves the oldest bucket alone. */
  lemma {:induction false} WriteIsCounted(cfg: Config, key: Key<Ring>, after: Key<Ring>, now: int, cost: int)
    requires RingOf(after) == Write(cfg, RingOf(key), Bucket(cfg, now), cost)
    ensures FullAt(cfg, Counts(cfg, after), now) == FullAt(cfg, Counts(cfg, key), now) + cost
    ensures OldestAt(cfg, Counts(cfg, after), now) == OldestAt(cfg, Counts(cfg, key), now)
  {
    var c := Bucket(cfg, now);
    hide Bucket, Write, GetCount;
    forall j | c - cfg.buckets <= j <= c
      ensures Counts(cfg, after)(j) == Counts(cfg, key)(j) + if j == c then cost else 0
    {
      CountAfterWrite(cfg, RingOf(key), c, cost, j);
    }
    SumBump(Counts(cfg, key), Counts(cfg, after), c - cfg.buckets + 1, c + 1, c, cost);
  }

  lemma {:induction false} EstimateAfter(cfg: Config, key: Key<Ring>, q: Request)
    ensures var (after, reply) := Check(cfg, key, q);
            Estimate(cfg, after, q.now) == Estimate(cfg, key, q.now) + if reply.allowed then q.cost * cfg.windowMs else 0
  {
    var (after, reply) := Check(cfg, key, q);
    if reply.allowed {
      WriteIsCounted(cfg, key, after, q.now, q.cost);
      WeighedMore(cfg, q.now, FullAt(cfg, Counts(cfg, key), q.now), OldestAt(cfg, Counts(cfg, key), q.now), q.cost);
    }
    hide Bucket, Answer, Write, Counts, FullAt, OldestAt, Weight, Weighed, Lifetime;
  }

  /** `remaining` is the largest cost a second check at the same instant can have. */
  lemma {:induction false} RemainingIsExact(cfg: Config, key: Key<Ring>, q: Request, k: int)
    requires k >= 1
    ensures var (after, reply) := Check(cfg, key, q);
            && reply.limit == cfg.limit
            && (reply.allowed <==> Allows(cfg, key, q.now, q.cost))
            && (reply.allowed ==> reply.retryAfterMs == 0)
            && 0 <= reply.remaining
            && (Allows(cfg, after, q.now, k) <==> k <= reply.remaining)
  {
    var (after, reply) := Check(cfg, key, q);
    EstimateAfter(cfg, key, q);
    AtMostFloor(k, cfg.limit * cfg.windowMs - Estimate(cfg, after, q.now), cfg.windowMs);
    hide FloorDiv, Bucket, Counts, FullAt, OldestAt;
  }

  /** Counts are of admitted units, and there is none for a bucket that has not begun. */
  ghost predicate WellKept(cfg: Config, key: Key<Ring>, now: int) {
    && (forall j :: Counts(cfg, key)(j) >= 0)
    && (forall j :: j > Bucket(cfg, now) ==> Counts(cfg, key)(j) == 0)
  }

  lemma {:induction false} WellKeptStep(cfg: Config, key: Key<Ring>, t: int, q: Request)
    requires WellKept(cfg, key, t) && t <= q.now && q.cost >= 1
    ensures WellKept(cfg, Check(cfg, key, q).0, q.now)
  {
    var (after, reply) := Check(cfg, key, q);
    BucketMonotone(cfg, t, q.now);
    if reply.allowed {
      var c := Bucket(cfg, q.now);
      assert RingOf(after) == Write(cfg, RingOf(key), c, q.cost);
      hide Bucket, Answer, Write, GetCount;
      forall j
        ensures Counts(cfg, after)(j) >= 0
        ensures j > c ==> Counts(cfg, after)(j) == 0
      {
        assert Counts(cfg, key)(j) >= 0 && Counts(cfg, key)(c) >= 0;
        CountAfterWrite(cfg, RingOf(key), c, q.cost, j);
      }
    }
  }

  /** Every run with a nondecreasing clock keeps its counts so. */
  lemma {:induction false} RunIsWellKept(cfg: Config, requests: seq<Request>, now: int)
    requires Nondecreasing(requests) && Positive(requests)
    requires requests != [] ==> requests[|requests| - 1].now <= now
    ensures WellKept(cfg, Run(Script(cfg), Absent, requests).state, now)
  {
    if requests != [] {
      var n := |requests| - 1;
      var key := Run(Script(cfg), Absent, requests[..n]).state;
      RunIsWellKept(cfg, requests[..n], requests[n].now);
      WellKeptStep(cfg, key, requests[n].now, requests[n]);
      BucketMonotone(cfg, requests[n].now, now);
      assert Run(Script(cfg), Absent, requests).state == Check(cfg, key, requests[n]).0;
      hide Run, Script, Check, Bucket, GetCount;
    }
  }

  /** As long as the current bucket lasts, the estimate falls by the oldest count per bucket width. */
  lemma {:induction false} SameBucketEstimate(cfg: Config, key: Key<Ring>, now: int, t: int)
    requires Bucket(cfg, t) == Bucket(cfg, now)
    ensures Estimate(cfg, key, t)
            == Estimate(cfg, key, now) - (t - now) * (cfg.buckets * OldestAt(cfg, Counts(cfg, key), now))
  {
    hide Bucket, GetCount;
    var oldest := OldestAt(cfg, Counts(cfg, key), now);
    assert t * cfg.buckets == now * cfg.buckets + (t - now) * cfg.buckets;
    assert oldest * (Weight(cfg, now) - (t - now) * cfg.buckets)
           == oldest * Weight(cfg, now) - (t - now) * (cfg.buckets * oldest);
  }

  lemma {:induction false} SumOne(count: int -> int, j: int)
    ensures Sum(count, j, j + 1) == count(j)
  {}

  lemma {:induction false} RolledSums(count: int -> int, c: int, d: int, S: int)
    requires c < d && S >= 1
    requires forall j :: count(j) >= 0
    requires forall j :: j > c ==> count(j) == 0
    ensures Sum(count, d - S + 1, d + 1) >= 0
    ensures Sum(count, d - S + 1, d + 1) + count(d - S) <= Sum(count, c - S + 1, c + 1)
  {
    hide Sum;
    SumSplit(count, d - S, d - S + 1, d + 1);
    SumOne(count, d - S);
    if d - S <= c + 1 {
      SumSplit(count, d - S, c + 1, d + 1);
      SumZero(count, c + 1, d + 1);
      SumSplit(count, c - S + 1, d - S, c + 1);
      SumNonnegative(count, c - S + 1, d - S);
    } else {
      SumZero(count, d - S, d + 1);
      SumNonnegative(count, c - S + 1, c + 1);
    }
    SumNonnegative(count, d - S + 1, d + 1);
  }

  /** Once the bucket has rolled, no more than the buckets that were full counts. */
  lemma {:induction false} RolledCounts(cfg: Config, key: Key<Ring>, now: int, t: int)
    requires WellKept(cfg, key, now) && Bucket(cfg, now) < Bucket(cfg, t)
    ensures var count := Counts(cfg, key);
            && 0 <= FullAt(cfg, count, t) && 0 <= OldestAt(cfg, count, t)
            && FullAt(cfg, count, t) + OldestAt(cfg, count, t) <= FullAt(cfg, count, now)
  {
    hide Bucket, GetCount, Counts, Sum;
    RolledSums(Counts(cfg, key), Bucket(cfg, now), Bucket(cfg, t), cfg.buckets);
  }

  lemma {:induction false} RolledEstimate(cfg: Config, key: Key<Ring>, now: int, t: int)
    requires WellKept(cfg, key, now) && Bucket(cfg, now) < Bucket(cfg, t)
    ensures 0 <= Estimate(cfg, key, t) <= FullAt(cfg, Counts(cfg, key), now) * cfg.windowMs
  {
    RolledCounts(cfg, key, now, t);
    BucketBounds(cfg, t);
    hide Bucket, GetCount, Weight, FullAt, OldestAt, WellKept;
    var full, oldest := FullAt(cfg, Counts(cfg, key), t), OldestAt(cfg, Counts(cfg, key), t);
    MulLe(full + oldest, FullAt(cfg, Counts(cfg, key), now), cfg.windowMs);
    MulLe(Weight(cfg, t), cfg.windowMs, oldest);
    MulLe(0, Weight(cfg, t), oldest);
    MulLe(0, full, cfg.windowMs);
    assert (full + oldest) * cfg.windowMs == full * cfg.windowMs + oldest * cfg.windowMs;
  }

  /** With no admission in between, the estimate never increases, across bucket rolls too. */
  lemma {:induction false} EstimateNeverIncreases(cfg: Config, key: Key<Ring>, now: int, t: int)
    requires WellKept(cfg, key, now) && now <= t
    ensures Estimate(cfg, key, t) <= Estimate(cfg, key, now)
  {
    var oldest := OldestAt(cfg, Counts(cfg, key), now);
    BucketMonotone(cfg, now, t);
    BucketBounds(cfg, now);
    assert Counts(cfg, key)(Bucket(cfg, now) - cfg.buckets) >= 0;
    if Bucket(cfg, t) == Bucket(cfg, now) {
      SameBucketEstimate(cfg, key, now, t);
      MulLe(0, oldest, cfg.buckets);
      MulLe(0, t - now, cfg.buckets * oldest);
    } else {
      RolledEstimate(cfg, key, now, t);
      MulLe(0, oldest, Weight(cfg, now));
    }
    hide Bucket, Weight, GetCount, FullAt;
  }

  lemma {:induction false} RollsAfterWeight(cfg: Config, now: int, t: int)
    requires now <= t
    ensures Bucket(cfg, now) <= Bucket(cfg, t)
    ensures Bucket(cfg, t) == Bucket(cfg, now) <==> (t - now) * cfg.buckets < Weight(cfg, now)
  {
    BucketMonotone(cfg, now, t);
    FromBucket(cfg, Bucket(cfg, now) + 1, t);
    assert (t - now) * cfg.buckets == t * cfg.buckets - now * cfg.buckets;
  }

  /** What the request is short of, multiplied by `windowMs`. */
  function Excess(cfg: Config, key: Key<Ring>, q: Request): int {
    Estimate(cfg, key, q.now) + q.cost * cfg.windowMs - cfg.limit * cfg.windowMs
  }

  /** The script's test for waiting within the current bucket. */
  predicate Interpolates(cfg: Config, key: Key<Ring>, q: Request) {
    var oldest := OldestAt(cfg, Counts(cfg, key), q.now);
    oldest > 0 && Excess(cfg, key, q) <= oldest * Weight(cfg, q.now)
  }

  lemma {:induction false} RetryOf(cfg: Config, key: Key<Ring>, q: Request)
    requires !Allows(cfg, key, q.now, q.cost)
    ensures var (after, reply) := Check(cfg, key, q);
            && after == key && reply.retryAfterMs >= 1
            && reply.retryAfterMs
               == if Interpolates(cfg, key, q)
                  then CeilDiv(Excess(cfg, key, q), cfg.buckets * OldestAt(cfg, Counts(cfg, key), q.now))
                  else CeilDiv(Weight(cfg, q.now), cfg.buckets)
  {
    BucketBounds(cfg, q.now);
    CeilAtMost(Weight(cfg, q.now), cfg.buckets, 0);
    if Interpolates(cfg, key, q) {
      var rate := cfg.buckets * OldestAt(cfg, Counts(cfg, key), q.now);
      assert rate >= 1;
      CeilAtMost(Excess(cfg, key, q), rate, 0);
    }
    hide CeilDiv, Bucket, Weight, GetCount, FullAt, OldestAt;
  }

  /** At a later `t` in the same bucket, the request fits exactly when the oldest bucket has shed the excess. */
  lemma {:induction false} LaterInBucket(cfg: Config, key: Key<Ring>, q: Request, t: int)
    requires q.now <= t && Bucket(cfg, t) == Bucket(cfg, q.now)
    ensures Allows(cfg, key, t, q.cost)
            <==> Excess(cfg, key, q) <= (t - q.now) * (cfg.buckets * OldestAt(cfg, Counts(cfg, key), q.now))
  {
    SameBucketEstimate(cfg, key, q.now, t);
    hide Bucket, GetCount, Estimate, OldestAt;
  }

  /** Waiting until an oldest bucket that weighs `W` has shed `e`, at `S * oldest` per ms. */
  lemma {:induction false} ShedInTime(e: int, oldest: int, W: int, S: int, d: int)
    requires S > 0 && oldest > 0 && e <= oldest * W && S * oldest > 0
    ensures e <= d * (S * oldest) <==> d >= CeilDiv(e, S * oldest)
    ensures d < CeilDiv(e, S * oldest) ==> d * S < W
  {
    CeilAtMost(e, S * oldest, d);
    assert d * (S * oldest) == d * S * oldest;
    MulLt(d * S, W, oldest);
  }

  lemma {:induction false} NotShedInTime(e: int, oldest: int, W: int, S: int, d: int)
    requires S > 0 && oldest >= 0 && e > 0 && !(oldest > 0 && e <= oldest * W)
    ensures d < CeilDiv(W, S) ==> d * S < W && e > d * (S * oldest)
  {
    CeilAtMost(W, S, d);
    assert d * (S * oldest) == d * S * oldest;
    if oldest > 0 {
      MulLt(d * S, W, oldest);
    }
  }

  /** Every retry before `retryAfterMs` has passed is denied; when the wait is interpolated, every later one is admitted. */
  lemma {:induction false} RetryBounds(cfg: Config, key: Key<Ring>, q: Request, t: int)
    requires WellKept(cfg, key, q.now) && !Allows(cfg, key, q.now, q.cost) && q.now <= t
    ensures var retry := Check(cfg, key, q).1.retryAfterMs;
            && (t < q.now + retry ==> !Allows(cfg, key, t, q.cost))
            && (Interpolates(cfg, key, q) && t >= q.now + retry ==> Allows(cfg, key, t, q.cost))
  {
    hide Bucket, GetCount, Check, CeilDiv, FullAt;
    var oldest, W, e := OldestAt(cfg, Counts(cfg, key), q.now), Weight(cfg, q.now), Excess(cfg, key, q);
    assert Counts(cfg, key)(Bucket(cfg, q.now) - cfg.buckets) >= 0;
    RetryOf(cfg, key, q);
    RollsAfterWeight(cfg, q.now, t);
    if Bucket(cfg, t) == Bucket(cfg, q.now) {
      LaterInBucket(cfg, key, q, t);
    } else {
      RolledEstimate(cfg, key, q.now, t);
    }
    hide Weight, OldestAt, WellKept;
    if Interpolates(cfg, key, q) {
      ShedInTime(e, oldest, W, cfg.buckets, t - q.now);
    } else {
      NotShedInTime(e, oldest, W, cfg.buckets, t - q.now);
    }
  }

  /** When the next bucket is awaited, `retryAfterMs` is exact only if that wait is enough for the request. */
  lemma {:induction false} RetryIsExactIffEnough(cfg: Config, key: Key<Ring>, q: Request)
    requires WellKept(cfg, key, q.now) && !Allows(cfg, key, q.now, q.cost)
    ensures var retry := Check(cfg, key, q).1.retryAfterMs;
            (forall t | t >= q.now :: Allows(cfg, key, t, q.cost) <==> t >= q.now + retry)
            <==> Allows(cfg, key, q.now + retry, q.cost)
  {
    var retry := Check(cfg, key, q).1.retryAfterMs;
    RetryOf(cfg, key, q);
    BucketMonotone(cfg, q.now, q.now + retry);
    assert WellKept(cfg, key, q.now + retry);
    hide Bucket, GetCount, Check, Estimate;
    if Allows(cfg, key, q.now + retry, q.cost) {
      forall t | t >= q.now
        ensures Allows(cfg, key, t, q.cost) <==> t >= q.now + retry
      {
        RetryBounds(cfg, key, q, t);
        if t >= q.now + retry {
          EstimateNeverIncreases(cfg, key, q.now + retry, t);
        }
      }
    }
  }

  /** The whole limit is there at `t`: every cost up to it is admitted, and no larger one. */
  ghost predicate Full(cfg: Config, key: Key<Ring>, t: int) {
    forall k | k >= 1 :: Allows(cfg, key, t, k) <==> k <= cfg.limit
  }

  lemma {:induction false} FullIff(cfg: Config, key: Key<Ring>, t: int)
    requires Estimate(cfg, key, t) >= 0
    ensures Full(cfg, key, t) <==> Estimate(cfg, key, t) == 0
  {
    hide Estimate;
    assert Full(cfg, key, t) ==> Allows(cfg, key, t, cfg.limit);
    if Estimate(cfg, key, t) == 0 {
      forall k | k >= 1
        ensures Allows(cfg, key, t, k) <==> k <= cfg.limit
      {
        MulLt(cfg.limit, k, cfg.windowMs);
      }
    }
  }

  lemma {:induction false} EstimateZeroIff(cfg: Config, key: Key<Ring>, t: int)
    requires forall j :: Counts(cfg, key)(j) >= 0
    ensures Estimate(cfg, key, t) >= 0
    ensures Estimate(cfg, key, t) == 0
            <==> forall j | Bucket(cfg, t) - cfg.buckets <= j <= Bucket(cfg, t) :: Counts(cfg, key)(j) == 0
  {
    var count, c := Counts(cfg, key), Bucket(cfg, t);
    BucketBounds(cfg, t);
    hide Bucket, Weight, GetCount;
    var full, oldest := FullAt(cfg, count, t), OldestAt(cfg, count, t);
    SumNonnegative(count, c - cfg.buckets + 1, c + 1);
    if forall j | c - cfg.buckets <= j <= c :: count(j) == 0 {
      SumZero(count, c - cfg.buckets + 1, c + 1);
    }
    MulLe(0, full, cfg.windowMs);
    MulLe(0, oldest, Weight(cfg, t));
    if full >= 1 {
      MulLe(1, full, cfg.windowMs);
    }
    if oldest >= 1 {
      MulLe(1, oldest, Weight(cfg, t));
    }
  }

  lemma {:induction false} ResetReaches(cfg: Config, q: Request, full: int, oldest: int, t: int)
    ensures t >= Answer(cfg, q, full, oldest).resetAt <==> Bucket(cfg, t) - cfg.buckets > Bucket(cfg, q.now)
  {
    var start := (Bucket(cfg, q.now) + 1 + cfg.buckets) * cfg.windowMs;
    CeilAtMost(start, cfg.buckets, t);
    FromBucket(cfg, Bucket(cfg, q.now) + 1 + cfg.buckets, t);
  }

  /** From `resetAt` on the whole limit is free; after an admission, not an instant sooner. */
  lemma {:induction false} ResetIsFirstFullInstant(cfg: Config, key: Key<Ring>, q: Request, t: int)
    requires WellKept(cfg, key, q.now) && q.cost >= 1 && q.now <= t
    ensures var (after, reply) := Check(cfg, key, q);
            && (t >= reply.resetAt ==> Full(cfg, after, t))
            && (reply.allowed && t < reply.resetAt ==> !Full(cfg, after, t))
  {
    var (after, reply) := Check(cfg, key, q);
    var c := Bucket(cfg, q.now);
    WellKeptStep(cfg, key, q.now, q);
    ResetReaches(cfg, q, FullAt(cfg, Counts(cfg, key), q.now), OldestAt(cfg, Counts(cfg, key), q.now), t);
    BucketMonotone(cfg, q.now, t);
    EstimateZeroIff(cfg, after, t);
    FullIff(cfg, after, t);
    if reply.allowed {
      assert RingOf(after) == Write(cfg, RingOf(key), c, q.cost);
      CountAfterWrite(cfg, RingOf(key), c, q.cost, c);
      assert Counts(cfg, key)(c) >= 0;
      assert Counts(cfg, after)(c) >= 1;
    }
    hide Answer, Bucket, GetCount, Estimate, Full;
  }

  lemma {:induction false} TooFull(cfg: Config, now: int, full: int, oldest: int, cost: int)
    requires oldest >= 0 && full + cost > cfg.limit
    ensures Weighed(cfg, now, full, oldest) + cost * cfg.windowMs - cfg.limit * cfg.windowMs > oldest * Weight(cfg, now) >= 0
  {
    BucketBounds(cfg, now);
    hide Bucket, Weight;
    MulLe(0, Weight(cfg, now), oldest);
    MulLt(cfg.limit, full + cost, cfg.windowMs);
    assert (full + cost) * cfg.windowMs == full * cfg.windowMs + cost * cfg.windowMs;
  }

  lemma {:induction false} DeniedWhileCounted(cfg: Config, key: Key<Ring>, now: int, cost: int, b: int)
    requires forall j :: Counts(cfg, key)(j) >= 0
    requires Bucket(cfg, now) - cfg.buckets < b <= Bucket(cfg, now) && Counts(cfg, key)(b) + cost > cfg.limit
    ensures !Allows(cfg, key, now, cost) && !Interpolates(cfg, key, Request(now, cost))
  {
    hide Bucket, Weight, GetCount, Sum;
    var count, c := Counts(cfg, key), Bucket(cfg, now);
    SumNonnegative(count, c - cfg.buckets + 1, c + 1);
    TooFull(cfg, now, FullAt(cfg, count, now), OldestAt(cfg, count, now), cost);
  }

  /** With buckets of 1 ms or more, waiting for the next bucket does not skip one. */
  lemma {:induction false} NextBucket(cfg: Config, now: int)
    requires cfg.buckets <= cfg.windowMs
    ensures Bucket(cfg, now + CeilDiv(Weight(cfg, now), cfg.buckets)) == Bucket(cfg, now) + 1
  {
    var c, wait := Bucket(cfg, now), CeilDiv(Weight(cfg, now), cfg.buckets);
    CeilBounds(Weight(cfg, now), cfg.buckets);
    FromBucket(cfg, c + 1, now + wait);
    FromBucket(cfg, c + 2, now + wait);
    hide Bucket, CeilDiv;
    OneMore(c + 1, cfg.windowMs);
    assert (now + wait) * cfg.buckets == now * cfg.buckets + wait * cfg.buckets;
  }

  /**
   The next-bucket wait is only a lower bound: when the current bucket alone leaves no room, a retry
   made after exactly `retryAfterMs` is denied again, whenever there are several buckets of 1 ms or more.
   */
  lemma {:induction false} RetryFailsWhenCurrentBucketIsFull(cfg: Config, key: Key<Ring>, q: Request)
    requires WellKept(cfg, key, q.now) && 2 <= cfg.buckets <= cfg.windowMs
    requires Counts(cfg, key)(Bucket(cfg, q.now)) + q.cost > cfg.limit
    ensures !Allows(cfg, key, q.now, q.cost)
    ensures !Allows(cfg, key, q.now + Check(cfg, key, q).1.retryAfterMs, q.cost)
  {
    hide Bucket, Weight, GetCount, Check, CeilDiv, OldestAt, Interpolates, Estimate;
    DeniedWhileCounted(cfg, key, q.now, q.cost, Bucket(cfg, q.now));
    RetryOf(cfg, key, q);
    NextBucket(cfg, q.now);
    DeniedWhileCounted(cfg, key, q.now + CeilDiv(Weight(cfg, q.now), cfg.buckets), q.cost, Bucket(cfg, q.now));
  }

  lemma {:induction false} NextBucketSums(count: int -> int, c: int, S: int)
    requires S >= 1 && count(c + 1) == 0
    ensures Sum(count, c - S + 2, c + 2) == Sum(count, c - S + 1, c + 1) - count(c - S + 1)
  {
    SumSplit(count, c - S + 1, c - S + 2, c + 1);
    SumOne(count, c - S + 1);
  }

  lemma {:induction false} WeightLater(cfg: Config, now: int, t: int)
    requires Bucket(cfg, t) == Bucket(cfg, now) + 1
    ensures Weight(cfg, t) == cfg.windowMs - ((t - now) * cfg.buckets - Weight(cfg, now))
  {}

  lemma {:induction false} ShedBy(full: int, next: int, width: int, late: int)
    ensures (full - next) * width + next * (width - late) == full * width - next * late
  {}

  /** In the next bucket, `late / windowMs` of a bucket into it, the bucket that was the last full one is being shed. */
  lemma {:induction false} NextBucketEstimate(cfg: Config, key: Key<Ring>, now: int, t: int)
    requires WellKept(cfg, key, now) && Bucket(cfg, t) == Bucket(cfg, now) + 1
    ensures var count := Counts(cfg, key);
            var late := (t - now) * cfg.buckets - Weight(cfg, now);
            Estimate(cfg, key, t)
            == FullAt(cfg, count, now) * cfg.windowMs - count(Bucket(cfg, now) - cfg.buckets + 1) * late
  {
    var count, c := Counts(cfg, key), Bucket(cfg, now);
    assert count(c + 1) == 0;
    hide Bucket, Sum, Counts, GetCount, Weight, WellKept;
    NextBucketSums(count, c, cfg.buckets);
    WeightLater(cfg, now, t);
    ShedBy(FullAt(cfg, count, now), count(c - cfg.buckets + 1), cfg.windowMs,
           (t - now) * cfg.buckets - Weight(cfg, now));
  }

  /** The counts that are there at `now`, as a check at a later `t` sums them: later buckets are still empty. */
  lemma {:induction false} LaterFull(cfg: Config, key: Key<Ring>, now: int, t: int)
    requires WellKept(cfg, key, now) && Bucket(cfg, now) <= Bucket(cfg, t)
    ensures var count := Counts(cfg, key);
            FullAt(cfg, count, t) == Sum(count, Bucket(cfg, t) - cfg.buckets + 1, Bucket(cfg, now) + 1)
  {
    var count, c, d := Counts(cfg, key), Bucket(cfg, now), Bucket(cfg, t);
    hide Bucket, Counts, GetCount;
    if d - cfg.buckets <= c {
      SumSplit(count, d - cfg.buckets + 1, c + 1, d + 1);
      SumZero(count, c + 1, d + 1);
    } else {
      SumZero(count, d - cfg.buckets + 1, d + 1);
    }
  }

  /** The wait until the next bucket begins, and how full the window is after it. */
  function NextBucketWait(cfg: Config, now: int): int {
    CeilDiv(Weight(cfg, now), cfg.buckets)
  }

  predicate FitsAfterWait(cfg: Config, count: int -> int, q: Request) {
    var t := q.now + NextBucketWait(cfg, q.now);
    var first := Bucket(cfg, t) - cfg.buckets;
    Sum(count, first + 1, Bucket(cfg, q.now) + 1) * cfg.windowMs + count(first) * Weight(cfg, t)
    <= (cfg.limit - q.cost) * cfg.windowMs
  }

  lemma {:induction false} FitsIff(cfg: Config, key: Key<Ring>, q: Request, t: int)
    requires t == q.now + NextBucketWait(cfg, q.now)
    requires FullAt(cfg, Counts(cfg, key), t)
             == Sum(Counts(cfg, key), Bucket(cfg, t) - cfg.buckets + 1, Bucket(cfg, q.now) + 1)
    ensures FitsAfterWait(cfg, Counts(cfg, key), q) <==> Allows(cfg, key, t, q.cost)
  {
    hide Bucket, Weight, GetCount, Counts, FullAt, Sum, NextBucketWait;
    assert (cfg.limit - q.cost) * cfg.windowMs == cfg.limit * cfg.windowMs - q.cost * cfg.windowMs;
  }

  /**
   Exactly when `retryAfterMs` is the least wait, for buckets of any width and from the counts at hand: it
   interpolates, or what those counts weigh once the next bucket is awaited leaves room for the request.
   */
  lemma {:induction false} RetryIsExactIff(cfg: Config, key: Key<Ring>, q: Request)
    requires WellKept(cfg, key, q.now) && !Allows(cfg, key, q.now, q.cost)
    ensures var retry := Check(cfg, key, q).1.retryAfterMs;
            (forall t | t >= q.now :: Allows(cfg, key, t, q.cost) <==> t >= q.now + retry)
            <==> Interpolates(cfg, key, q) || FitsAfterWait(cfg, Counts(cfg, key), q)
  {
    hide Bucket, Check, WellKept, Weight, GetCount, Counts, FullAt, Sum, Interpolates;
    var retry := Check(cfg, key, q).1.retryAfterMs;
    RetryOf(cfg, key, q);
    if Interpolates(cfg, key, q) {
      forall t | t >= q.now
        ensures Allows(cfg, key, t, q.cost) <==> t >= q.now + retry
      {
        RetryBounds(cfg, key, q, t);
      }
    } else {
      hide CeilDiv;
      BucketMonotone(cfg, q.now, q.now + retry);
      LaterFull(cfg, key, q.now, q.now + retry);
      FitsIff(cfg, key, q, q.now + retry);
      hide Allows;
      RetryIsExactIffEnough(cfg, key, q);
    }
  }

  /**
   With buckets of 1 ms or more the condition is short: full buckets and request exceed the limit by no
   more than the next bucket to go sheds while the wait is rounded up.
   */
  lemma {:induction false} WideBucketsRetryIff(cfg: Config, key: Key<Ring>, q: Request)
    requires WellKept(cfg, key, q.now) && !Allows(cfg, key, q.now, q.cost) && cfg.buckets <= cfg.windowMs
    ensures var retry := Check(cfg, key, q).1.retryAfterMs;
            var count := Counts(cfg, key);
            var next := count(Bucket(cfg, q.now) - cfg.buckets + 1);
            (forall t | t >= q.now :: Allows(cfg, key, t, q.cost) <==> t >= q.now + retry)
            <==> || Interpolates(cfg, key, q)
                 || (FullAt(cfg, count, q.now) + q.cost - cfg.limit) * cfg.windowMs
                    <= next * (NextBucketWait(cfg, q.now) * cfg.buckets - Weight(cfg, q.now))
  {
    hide Bucket, Check, WellKept, Weight, GetCount, Counts, FullAt, Estimate;
    var retry := Check(cfg, key, q).1.retryAfterMs;
    RetryIsExactIffEnough(cfg, key, q);
    RetryOf(cfg, key, q);
    if Interpolates(cfg, key, q) {
      RetryBounds(cfg, key, q, q.now + retry);
    } else {
      hide Interpolates, CeilDiv;
      NextBucket(cfg, q.now);
      NextBucketEstimate(cfg, key, q.now, q.now + retry);
      assert (FullAt(cfg, Counts(cfg, key), q.now) + q.cost - cfg.limit) * cfg.windowMs
             == FullAt(cfg, Counts(cfg, key), q.now) * cfg.windowMs + q.cost * cfg.windowMs - cfg.limit * cfg.windowMs;
    }
  }

  lemma {:induction false} NothingIsCounted(cfg: Config, now: int)
    ensures Allows(cfg, Absent, now, cfg.limit)
    ensures Run(Script(cfg), Absent, []) == Trace(Absent, [], [])
  {
    hide Bucket, Weight;
    SumZero(Counts(cfg, Absent), Bucket(cfg, now) - cfg.buckets + 1, Bucket(cfg, now) + 1);
  }

  /**
   A run that gets there: one request takes the whole limit, and a unit asked for at once is denied again
   after exactly `retryAfterMs`, whenever there are several buckets of 1 ms or more.
   */
  lemma {:induction false} NextBucketWaitFailsAfterOneRequest(cfg: Config, now: int)
    requires 2 <= cfg.buckets <= cfg.windowMs
    ensures var run := Run(Script(cfg), Absent, [Request(now, cfg.limit)]);
            var (after, reply) := Check(cfg, run.state, Request(now, 1));
            && run.admitted == [Request(now, cfg.limit)]
            && !reply.allowed && after == run.state
            && !Allows(cfg, after, now + reply.retryAfterMs, 1)
  {
    var first, second := Request(now, cfg.limit), Request(now, 1);
    var none: seq<Request> := [];
    assert none + [first] == [first];
    RunExtends(Script(cfg), Absent, none, first);
    NothingIsCounted(cfg, now);
    AllowedIffAllows(cfg, Absent, first);
    var key := Check(cfg, Absent, first).0;
    assert Run(Script(cfg), Absent, [first]).state == key;
    assert Nondecreasing([first]) && Positive([first]);
    RunIsWellKept(cfg, [first], now);
    assert RingOf(key) == Write(cfg, RingOf(Absent), Bucket(cfg, now), cfg.limit);
    CountAfterWrite(cfg, RingOf(Absent), Bucket(cfg, now), cfg.limit, Bucket(cfg, now));
    hide Script, Run, Check, Bucket, WellKept, Allows;
    RetryFailsWhenCurrentBucketIsFull(cfg, key, second);
    RetryOf(cfg, key, second);
    AllowedIffAllows(cfg, key, second);
  }

  /** The weight of the oldest bucket is what of it lies in the trailing window, in units of `1 / buckets` ms. */
  lemma {:induction false} WeightIsOverlap(cfg: Config, now: int)
    ensures var end := (Bucket(cfg, now) - cfg.buckets + 1) * cfg.windowMs;
            Weight(cfg, now) == end - (now - cfg.windowMs) * cfg.buckets && 0 < Weight(cfg, now) <= cfg.windowMs
  {
    BucketBounds(cfg, now);
    var c := Bucket(cfg, now);
    hide Bucket;
    assert (c - cfg.buckets + 1) * cfg.windowMs == (c + 1) * cfg.windowMs - cfg.buckets * cfg.windowMs;
    assert (now - cfg.windowMs) * cfg.buckets == now * cfg.buckets - cfg.windowMs * cfg.buckets;
  }

  /** For every reply, `resetAt` is the first instant at which the bucket of the request does not count any more. */
  lemma {:induction false} ResetIsWhenTheBucketLeaves(cfg: Config, key: Key<Ring>, q: Request, t: int)
    ensures t >= Check(cfg, key, q).1.resetAt <==> Bucket(cfg, t) - cfg.buckets > Bucket(cfg, q.now)
  {
    ResetReaches(cfg, q, FullAt(cfg, Counts(cfg, key), q.now), OldestAt(cfg, Counts(cfg, key), q.now), t);
    hide Bucket, Answer, Write, FullAt, OldestAt;
  }

  /** A denied request that does not interpolate waits for the next bucket, whatever its cost; the key is left as it was. */
  lemma {:induction false} RetryIsNextBucket(cfg: Config, key: Key<Ring>, q: Request, t: int)
    requires !Allows(cfg, key, q.now, q.cost) && q.now <= t
    ensures var (after, reply) := Check(cfg, key, q);
            && after == key
            && (!Interpolates(cfg, key, q) ==> (t >= q.now + reply.retryAfterMs <==> Bucket(cfg, t) > Bucket(cfg, q.now)))
  {
    RetryOf(cfg, key, q);
    RollsAfterWeight(cfg, q.now, t);
    CeilAtMost(Weight(cfg, q.now), cfg.buckets, t - q.now);
    hide Bucket, Weight, Interpolates, Check, Allows, CeilDiv;
  }

  lemma {:induction false} CeilRises(a: int, b: int, d: int)
    requires d > 0 && a <= b
    ensures CeilDiv(a, d) <= CeilDiv(b, d)
  {
    CeilBounds(b, d);
    CeilAtMost(a, d, CeilDiv(b, d));
  }

  lemma {:induction false} CeilOfSum(a: int, b: int, d: int)
    requires d > 0
    ensures CeilDiv(a + b, d) <= CeilDiv(a, d) + CeilDiv(b, d)
  {
    CeilBounds(a, d);
    CeilBounds(b, d);
    CeilAtMost(a + b, d, CeilDiv(a, d) + CeilDiv(b, d));
    hide CeilDiv;
  }

  lemma {:induction false} Later(S: int, W: int, c: int, now: int)
    requires S > 0 && c * W <= now * S < (c + 1) * W
    ensures var (reset, deadline) := (CeilDiv((c + 1 + S) * W, S), now + CeilDiv((S + 1) * W, S));
            reset <= deadline <= reset + CeilDiv(W, S)
  {
    hide CeilDiv;
    CeilShift((S + 1) * W, S, now);
    assert (c + 1 + S) * W == c * W + (S + 1) * W && (c + 1) * W == c * W + W;
    CeilRises((c + 1 + S) * W, now * S + (S + 1) * W, S);
    CeilRises(now * S + (S + 1) * W, (c + 1 + S) * W + W, S);
    CeilOfSum((c + 1 + S) * W, W, S);
  }

  /** An admission keeps its key for a window and a bucket: from `resetAt` to at most a bucket width, rounded up, later. */
  lemma {:induction false} DeadlineIsWindowAndBucket(cfg: Config, key: Key<Ring>, q: Request, t: int)
    requires Allows(cfg, key, q.now, q.cost)
    ensures var (after, reply) := Check(cfg, key, q);
            && reply.allowed && after.Stored?
            && (t >= after.deadline <==> (t - q.now) * cfg.buckets >= (cfg.buckets + 1) * cfg.windowMs)
            && reply.resetAt <= after.deadline <= reply.resetAt + CeilDiv(cfg.windowMs, cfg.buckets)
  {
    var (after, reply) := Check(cfg, key, q);
    AllowedIffAllows(cfg, key, q);
    BucketBounds(cfg, q.now);
    var c, S, W := Bucket(cfg, q.now), cfg.buckets, cfg.windowMs;
    assert reply.resetAt == CeilDiv((c + 1 + S) * W, S);
    assert after.deadline == q.now + CeilDiv((S + 1) * W, S);
    hide Bucket, Allows, Check, CeilDiv;
    CeilAtMost((S + 1) * W, S, t - q.now);
    Later(S, W, c, q.now);
  }
}
