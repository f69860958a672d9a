/** The bound on trailing windows is reached: a run that admits one unit less than twice the limit. */
module SlidingWindowReached {
  import opened Rounding
  import opened Runs
  import opened SlidingWindow
  import opened SlidingWindowBounds
  import opened SlidingWindowReplies

  /** One bucket that holds `n` units, and nothing else. */
  ghost predicate OneBucket(cfg: Config, key: Key<Ring>, b: int, n: int) {
    forall j :: Counts(cfg, key)(j) == if j == b then n else 0
  }

  /** A first request for the whole limit. */
  lemma {:induction false} FirstTakesAll(cfg: Config, now: int)
    ensures var (after, reply) := Check(cfg, Absent, Request(now, cfg.limit));
            reply.allowed && OneBucket(cfg, after, Bucket(cfg, now), cfg.limit)
  {
    NothingIsCounted(cfg, now);
    var q := Request(now, cfg.limit);
    AllowedIffAllows(cfg, Absent, q);
    var after := Check(cfg, Absent, q).0;
    assert RingOf(after) == Write(cfg, RingOf(Absent), Bucket(cfg, now), cfg.limit);
    hide Bucket, Check, Write, Allows;
    forall j ensures Counts(cfg, after)(j) == if j == Bucket(cfg, now) then cfg.limit else 0 {
      CountAfterWrite(cfg, RingOf(Absent), Bucket(cfg, now), cfg.limit, j);
    }
  }

  /** While that bucket is the oldest, the room it leaves is what its weight leaves. */
  lemma {:induction false} OldestAlone(cfg: Config, key: Key<Ring>, now: int, n: int, cost: int)
    requires OneBucket(cfg, key, Bucket(cfg, now) - cfg.buckets, n)
    ensures Allows(cfg, key, now, cost) <==> n * Weight(cfg, now) <= (cfg.limit - cost) * cfg.windowMs
  {
    hide Bucket, Weight, Counts;
    SumZero(Counts(cfg, key), Bucket(cfg, now) - cfg.buckets + 1, Bucket(cfg, now) + 1);
    assert (cfg.limit - cost) * cfg.windowMs == cfg.limit * cfg.windowMs - cost * cfg.windowMs;
  }

  /** An instant just inside the trailing window is in the oldest bucket while that has more than one ms to go. */
  lemma {:induction false} JustInside(cfg: Config, now: int)
    requires cfg.buckets < Weight(cfg, now)
    ensures Bucket(cfg, now - cfg.windowMs + 1) == Bucket(cfg, now) - cfg.buckets
  {
    var t, c := now - cfg.windowMs + 1, Bucket(cfg, now);
    WindowStart(cfg, now);
    FromBucket(cfg, c - cfg.buckets, t);
    FromBucket(cfg, c - cfg.buckets + 1, t);
    hide Bucket;
    assert t * cfg.buckets == (now - cfg.windowMs) * cfg.buckets + cfg.buckets;
    assert (c + 1 - cfg.buckets) * cfg.windowMs == (c + 1) * cfg.windowMs - cfg.buckets * cfg.windowMs;
  }

  lemma {:induction false} TrailingExtends(cfg: Config, h: seq<Request>, q: Request, now: int)
    ensures Trailing(cfg, h + [q], now) == Trailing(cfg, h, now) + if now - cfg.windowMs < q.now <= now then q.cost else 0
  {
    assert (h + [q])[..|h|] == h;
  }

  /**
   Where the oldest bucket weighs little, but has more than one ms to go, a trailing window admits one unit
   less than twice the limit.
   */
  lemma {:induction false} TrailingWindowNearTwiceLimit(cfg: Config, now: int) returns (requests: seq<Request>)
    requires cfg.buckets < Weight(cfg, now) && cfg.limit * Weight(cfg, now) <= cfg.windowMs
    ensures Nondecreasing(requests) && Positive(requests)
    ensures Trailing(cfg, Run(Script(cfg), Absent, requests).admitted, now) == 2 * cfg.limit - 1
  {
    hide Bucket, Weight, Allows, OneBucket;
    var none: seq<Request> := [];
    var first, second := Request(now - cfg.windowMs + 1, cfg.limit), Request(now, cfg.limit - 1);
    assert none + [first] == [first] && [first] + [second] == [first, second];
    NothingIsCounted(cfg, first.now);
    FirstTakesAll(cfg, first.now);
    RunExtends(Script(cfg), Absent, none, first);
    TrailingExtends(cfg, none, first, now);
    requests := [first];
    if cfg.limit > 1 {
      JustInside(cfg, now);
      var key := Check(cfg, Absent, first).0;
      hide Check;
      OldestAlone(cfg, key, now, cfg.limit, cfg.limit - 1);
      AllowedIffAllows(cfg, key, second);
      RunExtends(Script(cfg), Absent, [first], second);
      TrailingExtends(cfg, [first], second, now);
      requests := [first, second];
    }
  }

  lemma {:induction false} Regrouped(limit: int, S: int)
    ensures limit * (2 * S) == (2 * limit) * S
  {}

  /** There is such an instant for every limit and number of buckets, if buckets are wide enough. */
  lemma {:induction false} WideBucketsGetThere(cfg: Config, width: int)
    requires cfg.windowMs == cfg.buckets * width && width >= 2 * cfg.limit
    ensures cfg.buckets < Weight(cfg, width - 2) && cfg.limit * Weight(cfg, width - 2) <= cfg.windowMs
  {
    var S, early := cfg.buckets, (width - 2) * cfg.buckets;
    assert early == cfg.windowMs - 2 * S;
    MulLe(0, width - 2, S);
    FloorUnique(early, cfg.windowMs, 0);
    assert Bucket(cfg, width - 2) == 0;
    hide Bucket, FloorDiv;
    assert Weight(cfg, width - 2) == 2 * S;
    MulLe(2 * cfg.limit, width, S);
    Regrouped(cfg.limit, S);
  }
}
