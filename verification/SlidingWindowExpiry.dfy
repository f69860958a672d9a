/** Redis may drop an overdue ring without anyone seeing it. */
module SlidingWindowExpiry {
  import opened Rounding
  import opened Runs
  import opened SlidingWindow

  /** The two keys agree on every bucket that can still be read, and what the first holds is out of reach by its deadline. */
  ghost predicate SameForLater(cfg: Config, k: Key<Ring>, l: Key<Ring>, t: int) {
    && (forall j :: j >= Bucket(cfg, t) - cfg.buckets ==> Counts(cfg, k)(j) == Counts(cfg, l)(j))
    && (forall j :: j > Bucket(cfg, t) ==> Counts(cfg, k)(j) == 0)
    && (k.Stored? ==>
          forall j :: Counts(cfg, k)(j) != 0 ==> (j + cfg.buckets + 1) * cfg.windowMs <= k.deadline * cfg.buckets)
  }

  lemma {:induction false} DeadlineCovers(cfg: Config, now: int)
    ensures (Bucket(cfg, now) + cfg.buckets + 1) * cfg.windowMs <= (now + Lifetime(cfg)) * cfg.buckets
  {
    BucketBounds(cfg, now);
    CeilBounds((cfg.buckets + 1) * cfg.windowMs, cfg.buckets);
    hide Bucket;
    assert (now + Lifetime(cfg)) * cfg.buckets == now * cfg.buckets + Lifetime(cfg) * cfg.buckets;
    assert (Bucket(cfg, now) + cfg.buckets + 1) * cfg.windowMs
           == Bucket(cfg, now) * cfg.windowMs + (cfg.buckets + 1) * cfg.windowMs;
  }

  lemma {:induction false} SameForLaterWrite(cfg: Config, k: Key<Ring>, l: Key<Ring>, q: Request)
    requires SameForLater(cfg, k, l, q.now)
    ensures var c, deadline := Bucket(cfg, q.now), q.now + Lifetime(cfg);
            SameForLater(cfg, Stored(Write(cfg, RingOf(k), c, q.cost), deadline),
                         Stored(Write(cfg, RingOf(l), c, q.cost), deadline), q.now)
  {
    var c, deadline := Bucket(cfg, q.now), q.now + Lifetime(cfg);
    var k', l' := Stored(Write(cfg, RingOf(k), c, q.cost), deadline), Stored(Write(cfg, RingOf(l), c, q.cost), deadline);
    assert RingOf(k') == Write(cfg, RingOf(k), c, q.cost) && RingOf(l') == Write(cfg, RingOf(l), c, q.cost);
    DeadlineCovers(cfg, q.now);
    hide Bucket, Write, GetCount, Lifetime;
    forall j
      ensures j >= c - cfg.buckets ==> Counts(cfg, k')(j) == Counts(cfg, l')(j)
      ensures j > c ==> Counts(cfg, k')(j) == 0
      ensures Counts(cfg, k')(j) != 0 ==> (j + cfg.buckets + 1) * cfg.windowMs <= deadline * cfg.buckets
    {
      assert c - cfg.buckets <= c && Counts(cfg, k)(c) == Counts(cfg, l)(c);
      assert j >= c - cfg.buckets ==> Counts(cfg, k)(j) == Counts(cfg, l)(j);
      CountAfterWrite(cfg, RingOf(k), c, q.cost, j);
      CountAfterWrite(cfg, RingOf(l), c, q.cost, j);
      if j <= c {
        MulLe(j + cfg.buckets + 1, c + cfg.buckets + 1, cfg.windowMs);
      }
    }
  }

  lemma {:induction false} SameWindow(cfg: Config, k: Key<Ring>, l: Key<Ring>, now: int)
    requires SameForLater(cfg, k, l, now)
    ensures FullAt(cfg, Counts(cfg, k), now) == FullAt(cfg, Counts(cfg, l), now)
    ensures OldestAt(cfg, Counts(cfg, k), now) == OldestAt(cfg, Counts(cfg, l), now)
  {
    hide Bucket, GetCount;
    SumSame(Counts(cfg, k), Counts(cfg, l), Bucket(cfg, now) - cfg.buckets + 1, Bucket(cfg, now) + 1);
  }

  lemma {:induction false} SameForLaterStep(cfg: Config, k: Key<Ring>, l: Key<Ring>, t: int, q: Request)
    requires SameForLater(cfg, k, l, t) && t <= q.now
    ensures Check(cfg, k, q).1 == Check(cfg, l, q).1
    ensures SameForLater(cfg, Check(cfg, k, q).0, Check(cfg, l, q).0, q.now)
  {
    BucketMonotone(cfg, t, q.now);
    assert SameForLater(cfg, k, l, q.now);
    SameForLaterWrite(cfg, k, l, q);
    SameWindow(cfg, k, l, q.now);
    hide Bucket, Answer, Write, FullAt, OldestAt, SameForLater, Lifetime;
  }

  lemma {:induction false} OverdueIsOutOfReach(cfg: Config, k: Key<Ring>, l: Key<Ring>, t: int, later: int)
    requires SameForLater(cfg, k, l, t) && t <= later && k.Stored? && k.deadline <= later
    ensures SameForLater(cfg, Absent, l, later)
  {
    BucketMonotone(cfg, t, later);
    MulLe(k.deadline, later, cfg.buckets);
    forall j | j >= Bucket(cfg, later) - cfg.buckets
      ensures Counts(cfg, l)(j) == 0
    {
      assert Counts(cfg, k)(j) == Counts(cfg, l)(j);
      FromBucket(cfg, j + cfg.buckets + 1, later);
    }
  }

  /** Redis may drop the key at any instant from its deadline on: no reply of the run changes. */
  lemma {:induction false} ExpiryIsInvisible(cfg: Config, requests: seq<Request>, gone: seq<bool>)
    requires |gone| == |requests| && Nondecreasing(requests)
    ensures RunExpiring(Script(cfg), requests, gone).replies == Run(Script(cfg), Absent, requests).replies
  {
    var related := (k: Key<Ring>, l: Key<Ring>, t: int) => SameForLater(cfg, k, l, t);
    forall t ensures related(Absent, Absent, t) {
    }
    forall k, l, t: int, q: Request | related(k, l, t) && t <= q.now
      ensures Script(cfg)(k, q).1 == Script(cfg)(l, q).1
      ensures related(Script(cfg)(k, q).0, Script(cfg)(l, q).0, q.now)
    {
      SameForLaterStep(cfg, k, l, t, q);
    }
    forall k, l, t: int, later: int | related(k, l, t) && t <= later && k.Stored? && k.deadline <= later
      ensures related(Absent, l, later)
    {
      OverdueIsOutOfReach(cfg, k, l, t, later);
    }
    hide Script, SameForLater;
    ExpirySimulation(Script(cfg), related, requests, gone);
  }
}
