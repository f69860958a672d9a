/** Redis may drop an overdue log without anyone seeing it. */
module SlidingLogExpiry {
  import opened Runs
  import opened SlidingLog
  import opened SlidingLogReplies

  /** The same key, or an absent one beside a log whose units have all left the window. */
  ghost predicate SameForLater(cfg: Config, k: Key<Log>, l: Key<Log>, t: int) {
    && Sorted(LogOf(l))
    && (forall e :: e in LogOf(l) ==> e.score <= t)
    && (k == l || (k == Absent && forall e :: e in LogOf(l) ==> e.score <= t - cfg.windowMs))
    && (l.Stored? ==> forall e :: e in LogOf(l) ==> e.score + cfg.windowMs <= l.deadline)
  }

  lemma {:induction false} SamePurge(cfg: Config, k: Key<Log>, l: Key<Log>, t: int, now: int)
    requires SameForLater(cfg, k, l, t) && t <= now
    ensures Purge(LogOf(k), now - cfg.windowMs) == Purge(LogOf(l), now - cfg.windowMs)
    ensures k != l ==> Purge(LogOf(l), now - cfg.windowMs) == []
  {
    if k != l {
      PurgeNone(LogOf(l), now - cfg.windowMs);
    }
  }

  lemma {:induction false} StaysSame(cfg: Config, l: Key<Log>, t: int, q: Request)
    requires SameForLater(cfg, l, l, t) && t <= q.now
    ensures SameForLater(cfg, Check(cfg, l, q).0, Check(cfg, l, q).0, q.now)
  {
    hide Purge, AddUnits, Answer, Scores, Sorted;
    var log := Purge(LogOf(l), q.now - cfg.windowMs);
    PurgeSorted(LogOf(l), q.now - cfg.windowMs);
    AddUnitsSorted(log, q.now, |log|, q.cost);
    Outcome(cfg, l, q);
    hide LogOf;
  }

  lemma {:induction false} SameForLaterStep(cfg: Config, k: Key<Log>, l: Key<Log>, t: int, q: Request)
    requires SameForLater(cfg, k, l, t) && t <= q.now
    ensures Check(cfg, k, q).1 == Check(cfg, l, q).1
    ensures SameForLater(cfg, Check(cfg, k, q).0, Check(cfg, l, q).0, q.now)
  {
    hide Purge, AddUnits, Answer, Scores, Sorted;
    SamePurge(cfg, k, l, t, q.now);
    hide LogOf;
    assert Check(cfg, k, q) == Check(cfg, l, q);
    StaysSame(cfg, l, t, q);
  }

  /** Redis may drop the key at any instant from its deadline on: no reply of the run changes. */
  lemma {:induction false} ExpiryIsInvisible(cfg: Config, requests: seq<Request>, gone: seq<bool>)
    requires |gone| == |requests| && Nondecreasing(requests)
    ensures RunExpiring(Script(cfg), requests, gone).replies == Run(Script(cfg), Absent, requests).replies
  {
    var related := (k: Key<Log>, l: Key<Log>, t: int) => SameForLater(cfg, k, l, t);
    forall t ensures related(Absent, Absent, t) {
    }
    forall k, l, t: int, q: Request | related(k, l, t) && t <= q.now
      ensures Script(cfg)(k, q).1 == Script(cfg)(l, q).1
      ensures related(Script(cfg)(k, q).0, Script(cfg)(l, q).0, q.now)
    {
      SameForLaterStep(cfg, k, l, t, q);
    }
    forall k, l, t: int, later: int | related(k, l, t) && t <= later && k.Stored? && k.deadline <= later
      ensures related(Absent, l, later)
    {
    }
    hide Script, SameForLater;
    ExpirySimulation(Script(cfg), related, requests, gone);
  }
}
