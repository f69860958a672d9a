/** What the sliding window admits over whole runs, and how near its estimate is to the true count. */
module SlidingWindowBounds {
  import opened Rounding
  import opened Runs
  import opened SlidingWindow

  lemma {:induction false} FullFits(cfg: Config, q: Request, full: int, oldest: int)
    requires oldest >= 0 && Answer(cfg, q, full, oldest).allowed
    ensures full + q.cost <= cfg.limit
  {
    BucketBounds(cfg, q.now);
    hide Bucket, Weight, FloorDiv;
    MulLe(0, oldest, Weight(cfg, q.now));
    assert (full + q.cost) * cfg.windowMs == full * cfg.windowMs + q.cost * cfg.windowMs;
    MulLt(cfg.limit, full + q.cost, cfg.windowMs);
  }

  lemma {:induction false} InBucketsAtMost(cfg: Config, h: seq<Request>, now: int, lo: int, hi: int, low: int)
    requires Positive(h) && (forall i :: 0 <= i < |h| ==> h[i].now <= now) && low <= lo
    ensures 0 <= InBuckets(cfg, h, lo, hi) <= InBuckets(cfg, h, low, Bucket(cfg, now) + 1)
  {
    forall i | 0 <= i < |h|
      ensures Bucket(cfg, h[i].now) <= Bucket(cfg, now)
    {
      BucketMonotone(cfg, h[i].now, now);
    }
    hide Bucket;
    CostWhereWithin(h, Within(cfg, lo, hi), Within(cfg, low, Bucket(cfg, now) + 1));
  }

  lemma {:induction false} InBucketNonnegative(cfg: Config, h: seq<Request>, b: int)
    requires Positive(h)
    ensures 0 <= InBucket(cfg, h, b)
  {
    hide Bucket;
    CostWhereWithin(h, Within(cfg, b, b + 1), Within(cfg, b, b + 1));
  }

  lemma {:induction false} RecordStep(cfg: Config, h: seq<Request>, q: Request, b: int)
    requires Positive(h) && forall i :: 0 <= i < |h| ==> h[i].now <= q.now
    requires InBuckets(cfg, h, b - cfg.buckets + 1, b + 1) <= cfg.limit
    ensures InBuckets(cfg, Remembering(cfg)(h, q).0, b - cfg.buckets + 1, b + 1) <= cfg.limit
  {
    hide Bucket, InBuckets, InBucket, Answer;
    var c := Bucket(cfg, q.now);
    InBucketsExtends(cfg, h, q, b - cfg.buckets + 1, b + 1);
    InBucketNonnegative(cfg, h, c - cfg.buckets);
    var full, oldest := InBuckets(cfg, h, c - cfg.buckets + 1, c + 1), InBucket(cfg, h, c - cfg.buckets);
    if b - cfg.buckets + 1 <= c < b + 1 && Answer(cfg, q, full, oldest).allowed {
      InBucketsAtMost(cfg, h, q.now, b - cfg.buckets + 1, b + 1, c - cfg.buckets + 1);
      FullFits(cfg, q, full, oldest);
    }
  }

  lemma {:induction false} RecordWithinLimit(cfg: Config, requests: seq<Request>, b: int)
    requires Nondecreasing(requests) && Positive(requests)
    ensures InBuckets(cfg, Run(Remembering(cfg), [], requests).state, b - cfg.buckets + 1, b + 1) <= cfg.limit
  {
    if requests == [] {
      hide Bucket;
    } else {
      var n := |requests| - 1;
      var q, before := requests[n], requests[..n];
      RecordWithinLimit(cfg, before, b);
      RecordIsAdmitted(cfg, before);
      AdmittedKeepsOrder(Remembering(cfg), [], before);
      var h := Run(Remembering(cfg), [], before).state;
      RecordStep(cfg, h, q, b);
    }
  }

  /** No S buckets in a row ever hold more than the limit. */
  lemma {:induction false} AnyBucketsWithinLimit(cfg: Config, requests: seq<Request>, b: int)
    requires Nondecreasing(requests) && Positive(requests)
    ensures InBuckets(cfg, Run(Script(cfg), Absent, requests).admitted, b - cfg.buckets + 1, b + 1) <= cfg.limit
  {
    SameAsRemembering(cfg, requests);
    RecordWithinLimit(cfg, requests, b);
  }

  /** The instants of a span of S - 1 bucket widths. */
  function Span(cfg: Config, from: int): int -> bool {
    t => from <= t && (t - from) * cfg.buckets <= (cfg.buckets - 1) * cfg.windowMs
  }

  lemma {:induction false} SpanBuckets(cfg: Config, from: int, t: int)
    requires from <= t && (t - from) * cfg.buckets <= (cfg.buckets - 1) * cfg.windowMs
    ensures Bucket(cfg, from) <= Bucket(cfg, t) < Bucket(cfg, from) + cfg.buckets
  {
    var b := Bucket(cfg, from);
    BucketMonotone(cfg, from, t);
    BucketBounds(cfg, from);
    FromBucket(cfg, b + cfg.buckets, t);
    hide Bucket, Weight;
    assert (t - from) * cfg.buckets == t * cfg.buckets - from * cfg.buckets;
    assert (b + cfg.buckets) * cfg.windowMs == (b + 1) * cfg.windowMs + (cfg.buckets - 1) * cfg.windowMs;
  }

  /** Neither does any span of S - 1 bucket widths, wherever it begins. */
  lemma {:induction false} AnySpanWithinLimit(cfg: Config, requests: seq<Request>, from: int)
    requires Nondecreasing(requests) && Positive(requests)
    ensures CostWhere(Run(Script(cfg), Absent, requests).admitted, Span(cfg, from)) <= cfg.limit
  {
    hide Script, Run, Bucket, CostWhere;
    var b := Bucket(cfg, from) + cfg.buckets - 1;
    AdmittedKeepsOrder(Script(cfg), Absent, requests);
    AnyBucketsWithinLimit(cfg, requests, b);
    var buckets := Within(cfg, b - cfg.buckets + 1, b + 1);
    forall t | Span(cfg, from)(t)
      ensures buckets(t)
    {
      SpanBuckets(cfg, from, t);
    }
    hide Within, Span;
    CostWhereWithin(Run(Script(cfg), Absent, requests).admitted, Span(cfg, from), buckets);
  }

  /** Where the window that ends at `now` begins, in multiples of the bucket width. */
  lemma {:induction false} WindowStart(cfg: Config, now: int)
    ensures (now - cfg.windowMs) * cfg.buckets == now * cfg.buckets - cfg.buckets * cfg.windowMs
    ensures (Bucket(cfg, now) - cfg.buckets) * cfg.windowMs <= (now - cfg.windowMs) * cfg.buckets
            < (Bucket(cfg, now) - cfg.buckets + 1) * cfg.windowMs
  {
    BucketBounds(cfg, now);
    var c := Bucket(cfg, now);
    hide Bucket, Weight;
    assert (now - cfg.windowMs) * cfg.buckets == now * cfg.buckets - cfg.windowMs * cfg.buckets;
    assert (c - cfg.buckets) * cfg.windowMs == c * cfg.windowMs - cfg.buckets * cfg.windowMs;
    OneMore(c, cfg.windowMs);
    OneMore(c - cfg.buckets, cfg.windowMs);
  }

  /** Every instant that counts towards the trailing window is in one of S + 1 buckets. */
  lemma {:induction false} TrailingBuckets(cfg: Config, now: int, t: int)
    ensures now - cfg.windowMs < t <= now ==> Bucket(cfg, now) - cfg.buckets <= Bucket(cfg, t) <= Bucket(cfg, now)
    ensures Bucket(cfg, now) - cfg.buckets < Bucket(cfg, t) ==> now - cfg.windowMs < t
  {
    hide Bucket;
    var c := Bucket(cfg, now);
    WindowStart(cfg, now);
    if now - cfg.windowMs < t <= now {
      BucketMonotone(cfg, t, now);
      MulLe(now - cfg.windowMs, t, cfg.buckets);
      FromBucket(cfg, c - cfg.buckets, t);
    }
    if c - cfg.buckets < Bucket(cfg, t) {
      FromBucket(cfg, c - cfg.buckets + 1, t);
      MulLt(now - cfg.windowMs, t, cfg.buckets);
    }
  }

  /** The instants of the window that ends at `now`. */
  function Last(cfg: Config, now: int): int -> bool {
    t => now - cfg.windowMs < t <= now
  }

  function Trailing(cfg: Config, h: seq<Request>, now: int): int {
    CostWhere(h, Last(cfg, now))
  }

  lemma {:induction false} FullFitsStrictly(cfg: Config, q: Request, full: int, oldest: int)
    requires oldest > 0 && Answer(cfg, q, full, oldest).allowed
    ensures full + q.cost < cfg.limit
  {
    BucketBounds(cfg, q.now);
    hide Bucket, Weight, FloorDiv;
    MulLe(1, Weight(cfg, q.now), oldest);
    assert (full + q.cost) * cfg.windowMs == full * cfg.windowMs + q.cost * cfg.windowMs;
    MulLt(full + q.cost, cfg.limit, cfg.windowMs);
  }

  /** The oldest of S + 1 buckets is empty, or the others are not full, or all of them fit the limit together. */
  predicate Overlaps(cfg: Config, h: seq<Request>, b: int) {
    var oldest, newer := InBucket(cfg, h, b - cfg.buckets), InBuckets(cfg, h, b - cfg.buckets + 1, b + 1);
    oldest == 0 || newer < cfg.limit || oldest + newer <= cfg.limit
  }

  lemma {:induction false} BucketsFromOldest(cfg: Config, h: seq<Request>, b: int)
    ensures InBuckets(cfg, h, b - cfg.buckets, b + 1)
            == InBucket(cfg, h, b - cfg.buckets) + InBuckets(cfg, h, b - cfg.buckets + 1, b + 1)
  {
    hide Bucket;
    CostWhereDisjoint(h, Within(cfg, b - cfg.buckets, b + 1), Within(cfg, b - cfg.buckets, b - cfg.buckets + 1),
                      Within(cfg, b - cfg.buckets + 1, b + 1));
  }

  lemma {:induction false} NoBuckets(cfg: Config, h: seq<Request>, lo: int)
    ensures InBuckets(cfg, h, lo, lo) == 0
  {
    hide Bucket;
    CostWhereNone(h, Within(cfg, lo, lo));
  }

  lemma {:induction false} OverlapsStep(cfg: Config, h: seq<Request>, q: Request, b: int)
    requires Positive(h) && (forall i :: 0 <= i < |h| ==> h[i].now <= q.now) && Overlaps(cfg, h, b)
    ensures Overlaps(cfg, Remembering(cfg)(h, q).0, b)
  {
    hide Bucket, InBuckets, InBucket, Answer;
    var c, first := Bucket(cfg, q.now), b - cfg.buckets;
    InBucketsExtends(cfg, h, q, first + 1, b + 1);
    InBucketExtends(cfg, h, q, first);
    var full, oldest := InBuckets(cfg, h, c - cfg.buckets + 1, c + 1), InBucket(cfg, h, c - cfg.buckets);
    InBucketNonnegative(cfg, h, c - cfg.buckets);
    if Answer(cfg, q, full, oldest).allowed && first <= c <= b {
      if c == b {
        if oldest > 0 {
          FullFitsStrictly(cfg, q, full, oldest);
        }
      } else if c == first {
        InBucketsAtMost(cfg, h, q.now, first + 1, b + 1, first + 1);
        NoBuckets(cfg, h, first + 1);
      } else {
        BucketsFromOldest(cfg, h, b);
        InBucketsAtMost(cfg, h, q.now, first, b + 1, c - cfg.buckets + 1);
        FullFits(cfg, q, full, oldest);
      }
    }
  }

  lemma {:induction false} RecordOverlaps(cfg: Config, requests: seq<Request>, b: int)
    requires Nondecreasing(requests) && Positive(requests)
    ensures Overlaps(cfg, Run(Remembering(cfg), [], requests).state, b)
  {
    if requests == [] {
      hide Bucket;
    } else {
      var n := |requests| - 1;
      RecordOverlaps(cfg, requests[..n], b);
      RecordIsAdmitted(cfg, requests[..n]);
      AdmittedKeepsOrder(Remembering(cfg), [], requests[..n]);
      OverlapsStep(cfg, Run(Remembering(cfg), [], requests[..n]).state, requests[n], b);
    }
  }

  /** A trailing window admits less than twice the limit, at any instant. */
  lemma {:induction false} AnyTrailingWindowBelowTwiceLimit(cfg: Config, requests: seq<Request>, now: int)
    requires Nondecreasing(requests) && Positive(requests)
    ensures Trailing(cfg, Run(Script(cfg), Absent, requests).admitted, now) < 2 * cfg.limit
  {
    hide Script, Remembering, Run, Bucket, CostWhere;
    var h := Run(Script(cfg), Absent, requests).admitted;
    var c := Bucket(cfg, now);
    AdmittedKeepsOrder(Script(cfg), Absent, requests);
    AnyBucketsWithinLimit(cfg, requests, c);
    AnyBucketsWithinLimit(cfg, requests, c - cfg.buckets);
    SameAsRemembering(cfg, requests);
    RecordOverlaps(cfg, requests, c);
    forall t ensures now - cfg.windowMs < t <= now ==> c - cfg.buckets <= Bucket(cfg, t) <= c {
      TrailingBuckets(cfg, now, t);
    }
    CostWhereCovered(h, Last(cfg, now), Within(cfg, c - cfg.buckets + 1, c + 1),
                     Within(cfg, c - cfg.buckets, c - cfg.buckets + 1));
    CostWhereWithin(h, Within(cfg, c - cfg.buckets, c - cfg.buckets + 1),
                    Within(cfg, c - cfg.buckets - cfg.buckets + 1, c - cfg.buckets + 1));
  }

  /** The estimate, multiplied by `windowMs`, that a check at `now` works from. */
  function Estimate(cfg: Config, key: Key<Ring>, now: int): int {
    Weighed(cfg, now, FullAt(cfg, Counts(cfg, key), now), OldestAt(cfg, Counts(cfg, key), now))
  }

  lemma {:induction false} TrailingNearFull(cfg: Config, h: seq<Request>, now: int)
    requires Positive(h) && forall i :: 0 <= i < |h| ==> h[i].now <= now
    ensures var c := Bucket(cfg, now);
            var full, oldest := InBuckets(cfg, h, c - cfg.buckets + 1, c + 1), InBucket(cfg, h, c - cfg.buckets);
            0 <= oldest && full <= Trailing(cfg, h, now) <= full + oldest
  {
    var c := Bucket(cfg, now);
    forall i | 0 <= i < |h|
      ensures Bucket(cfg, h[i].now) <= c
      ensures now - cfg.windowMs < h[i].now ==> c - cfg.buckets <= Bucket(cfg, h[i].now)
      ensures c - cfg.buckets < Bucket(cfg, h[i].now) ==> now - cfg.windowMs < h[i].now
    {
      BucketMonotone(cfg, h[i].now, now);
      TrailingBuckets(cfg, now, h[i].now);
    }
    InBucketNonnegative(cfg, h, c - cfg.buckets);
    hide Bucket;
    var full := Within(cfg, c - cfg.buckets + 1, c + 1);
    CostWhereCovered(h, Last(cfg, now), full, Within(cfg, c - cfg.buckets, c - cfg.buckets + 1));
    CostWhereWithin(h, full, Last(cfg, now));
  }

  lemma {:induction false} WeighedBounds(cfg: Config, now: int, full: int, oldest: int, trailing: int)
    requires 0 <= oldest && full <= trailing <= full + oldest
    ensures (trailing - oldest) * cfg.windowMs <= Weighed(cfg, now, full, oldest) <= (trailing + oldest) * cfg.windowMs
  {
    BucketBounds(cfg, now);
    hide Weight, FloorDiv, Bucket;
    MulLe(0, oldest, Weight(cfg, now));
    MulLe(Weight(cfg, now), cfg.windowMs, oldest);
    MulLe(trailing - oldest, full, cfg.windowMs);
    MulLe(full + oldest, trailing + oldest, cfg.windowMs);
    assert (full + oldest) * cfg.windowMs == full * cfg.windowMs + oldest * cfg.windowMs;
  }

  lemma {:induction false} EstimateNear(cfg: Config, key: Key<Ring>, h: seq<Request>, now: int)
    requires Tracks(cfg, key, h, now) && Positive(h) && forall i :: 0 <= i < |h| ==> h[i].now <= now
    ensures var oldest := OldestAt(cfg, Counts(cfg, key), now);
            && 0 <= oldest
            && (Trailing(cfg, h, now) - oldest) * cfg.windowMs <= Estimate(cfg, key, now)
               <= (Trailing(cfg, h, now) + oldest) * cfg.windowMs
  {
    hide Bucket, Weighed, FullAt, OldestAt, InBuckets, InBucket, Tracks, Trailing;
    SameCounts(cfg, key, h, now);
    TrailingNearFull(cfg, h, now);
    WeighedBounds(cfg, now, FullAt(cfg, Counts(cfg, key), now), OldestAt(cfg, Counts(cfg, key), now),
                  Trailing(cfg, h, now));
  }

  /** The estimate is off the true trailing count by at most the oldest bucket's count. */
  lemma {:induction false} EstimateWithinOldestBucket(cfg: Config, requests: seq<Request>, now: int)
    requires Nondecreasing(requests) && Positive(requests)
    requires requests != [] ==> requests[|requests| - 1].now <= now
    ensures var run := Run(Script(cfg), Absent, requests);
            var oldest := OldestAt(cfg, Counts(cfg, run.state), now);
            var trailing := Trailing(cfg, run.admitted, now);
            && 0 <= oldest
            && (trailing - oldest) * cfg.windowMs <= Estimate(cfg, run.state, now)
               <= (trailing + oldest) * cfg.windowMs
  {
    hide Bucket, Check, GetCount, InBucket, Estimate, Trailing, OldestAt, Counts, Tracks;
    var run := Run(Script(cfg), Absent, requests);
    SameAsRemembering(cfg, requests);
    AdmittedKeepsOrder(Script(cfg), Absent, requests);
    if requests == [] {
      EmptyTracks(cfg, now);
    } else {
      TracksLater(cfg, run.state, run.admitted, requests[|requests| - 1].now, now);
    }
    EstimateNear(cfg, run.state, run.admitted, now);
  }
}
