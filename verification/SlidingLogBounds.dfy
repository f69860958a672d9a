/** What the sliding log admits over whole runs. */
module SlidingLogBounds {
  import opened Runs
  import opened SlidingLog

  lemma {:induction false} RecentNone(times: seq<int>, bound: int)
    requires forall i :: 0 <= i < |times| ==> times[i] <= bound
    ensures Recent(times, bound) == []
  {
    if times != [] {
      RecentNone(times[..|times| - 1], bound);
    }
  }

  function After(bound: int): int -> bool {
    x => x > bound
  }

  lemma {:induction false} RecentUnitsIsCost(h: seq<Request>, bound: int)
    requires Positive(h)
    ensures |Recent(Units(h), bound)| == CostWhere(h, After(bound))
  {
    if h != [] {
      var n := |h| - 1;
      RecentUnitsIsCost(h[..n], bound);
      var last := Repeat(h[n].now, h[n].cost);
      RecentAppend(Units(h[..n]), last, bound);
      if h[n].now > bound {
        RecentAll(last, bound);
      } else {
        RecentNone(last, bound);
      }
    }
  }

  /** The instants of the window that ends at `t`. */
  function Last(cfg: Config, t: int): int -> bool {
    x => t - cfg.windowMs < x <= t
  }

  function InWindow(cfg: Config, h: seq<Request>, t: int): int {
    CostWhere(h, Last(cfg, t))
  }

  lemma {:induction false} RecordStep(cfg: Config, h: seq<Request>, q: Request, t: int)
    requires Positive(h) && InWindow(cfg, h, t) <= cfg.limit
    ensures InWindow(cfg, Remembering(cfg)(h, q).0, t) <= cfg.limit
  {
    hide Units, Recent;
    assert (h + [q])[..|h|] == h;
    RecentUnitsIsCost(h, q.now - cfg.windowMs);
    if t >= q.now {
      CostWhereWithin(h, Last(cfg, t), After(q.now - cfg.windowMs));
    }
  }

  lemma {:induction false} RecordWithinLimit(cfg: Config, requests: seq<Request>, t: int)
    requires Nondecreasing(requests) && Positive(requests)
    ensures InWindow(cfg, Run(Remembering(cfg), [], requests).state, t) <= cfg.limit
  {
    if requests != [] {
      var n := |requests| - 1;
      var before := requests[..n];
      RecordWithinLimit(cfg, before, t);
      RecordIsAdmitted(cfg, before);
      AdmittedKeepsOrder(Remembering(cfg), [], before);
      RecordStep(cfg, Run(Remembering(cfg), [], before).state, requests[n], t);
    }
  }

  /** At every instant, between checks too, the window that ends there holds at most the limit. */
  lemma {:induction false} EveryWindowWithinLimit(cfg: Config, requests: seq<Request>, t: int)
    requires Nondecreasing(requests) && Positive(requests)
    ensures InWindow(cfg, Run(Script(cfg), Absent, requests).admitted, t) <= cfg.limit
  {
    SameAsRemembering(cfg, requests);
    RecordWithinLimit(cfg, requests, t);
  }

  lemma {:induction false} EmptyLog(cfg: Config, now: int)
    ensures Purge([], now - cfg.windowMs) == [] && InWindow(cfg, [], now) == 0
  {}

  lemma {:induction false} CardinalityIs(cfg: Config, key: Key<Log>, h: seq<Request>, t: int, now: int)
    requires Tracks(cfg, key, h, t) && t <= now
    requires Positive(h) && forall i :: 0 <= i < |h| ==> h[i].now <= now
    ensures var log := Purge(LogOf(key), now - cfg.windowMs);
            |log| == InWindow(cfg, h, now) && NamedApart(log)
  {
    TracksPurge(cfg, key, h, t, now, 0);
    var log := Purge(LogOf(key), now - cfg.windowMs);
    assert LogOf(Kept(log, 0)) == log;
    assert |Scores(log)| == |log|;
    hide Purge, Units, Recent;
    RecentUnitsIsCost(h, now - cfg.windowMs);
    CostWhereSame(h, After(now - cfg.windowMs), Last(cfg, now));
  }

  /** After any run, the purge at `now` leaves one member per unit admitted within the window, all named apart. */
  lemma {:induction false} CardinalityIsAcceptedCost(cfg: Config, requests: seq<Request>, now: int)
    requires Nondecreasing(requests) && Positive(requests)
    requires requests != [] ==> requests[|requests| - 1].now <= now
    ensures var run := Run(Script(cfg), Absent, requests);
            var log := Purge(LogOf(run.state), now - cfg.windowMs);
            && |log| == InWindow(cfg, run.admitted, now)
            && NamedApart(log)
  {
    hide Check, Purge, Tracks;
    var run := Run(Script(cfg), Absent, requests);
    SameAsRemembering(cfg, requests);
    AdmittedKeepsOrder(Script(cfg), Absent, requests);
    if requests == [] {
      EmptyLog(cfg, now);
    } else {
      CardinalityIs(cfg, run.state, run.admitted, requests[|requests| - 1].now, now);
    }
  }
}
