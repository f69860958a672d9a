/** What the fields of the sliding log's reply promise. */
module SlidingLogReplies {
  import opened Rounding
  import opened Runs
  import opened SlidingLog

  predicate Allows(cfg: Config, key: Key<Log>, now: int, cost: int) {
    |Purge(LogOf(key), now - cfg.windowMs)| + cost <= cfg.limit
  }

  /** The log and the reply fields after a check, from the log the purge leaves. */
  lemma {:induction false} Outcome(cfg: Config, key: Key<Log>, q: Request)
    ensures var (after, reply) := Check(cfg, key, q);
            var log := Purge(LogOf(key), q.now - cfg.windowMs);
            && (reply.allowed <==> Allows(cfg, key, q.now, q.cost))
            && LogOf(after) == (if reply.allowed then AddUnits(log, q.now, |log|, q.cost) else log)
            && reply.limit == cfg.limit
            && reply.remaining == Max(cfg.limit - |log| - (if reply.allowed then q.cost else 0), 0)
            && reply.resetAt == Oldest(Scores(LogOf(after)), q.now) + cfg.windowMs
            && (reply.allowed ==> reply.retryAfterMs == 0)
  {
    var log := Purge(LogOf(key), q.now - cfg.windowMs);
    KeptLog(log, if key.Stored? then key.deadline else 0);
    KeptLog(AddUnits(log, q.now, |log|, q.cost), q.now + Max(cfg.windowMs, 1));
    assert |Scores(log)| == |log|;
    hide Purge, AddUnits, Kept, LogOf, Scores, Oldest;
  }

  ghost predicate Sorted(log: Log) {
    forall i, j :: 0 <= i < j < |log| ==> log[i].score <= log[j].score
  }

  /** Part of a sorted log, and a last element that was in order. */
  lemma {:induction false} SortedPush(rest: Log, part: Log, last: Entry)
    requires Sorted(rest + [last]) && Sorted(part) && forall e :: e in part ==> e in rest
    ensures Sorted(part + [last])
  {
    forall e | e in rest
      ensures e.score <= last.score
    {
      var i :| 0 <= i < |rest| && rest[i] == e;
      assert (rest + [last])[i] == e && (rest + [last])[|rest|] == last;
    }
    assert forall i :: 0 <= i < |part| ==> part[i] in part;
  }

  lemma {:induction false} PurgeSorted(log: Log, bound: int)
    requires Sorted(log)
    ensures Sorted(Purge(log, bound))
    ensures forall e :: e in Purge(log, bound) ==> e in log
  {
    if log != [] {
      var n := |log| - 1;
      PurgeSorted(log[..n], bound);
      SortedPush(log[..n], Purge(log[..n], bound), log[n]);
      assert log == log[..n] + [log[n]];
    }
  }

  lemma {:induction false} WithoutSorted(log: Log, m: Member)
    requires Sorted(log)
    ensures Sorted(Without(log, m))
    ensures forall e :: e in Without(log, m) ==> e in log
  {
    if log != [] {
      var n := |log| - 1;
      WithoutSorted(log[..n], m);
      SortedPush(log[..n], Without(log[..n], m), log[n]);
      assert log == log[..n] + [log[n]];
    }
  }

  lemma {:induction false} ScoresUpTo(log: Log, last: Entry)
    requires Sorted(log) && forall x :: x in log ==> x.score <= last.score
    ensures Sorted(log + [last])
  {
    assert forall i :: 0 <= i < |log| ==> log[i] in log;
  }

  lemma {:induction false} EndSorted(log: Log, e: Entry)
    requires Sorted(log) && (log != [] ==> log[|log| - 1].score <= e.score)
    ensures Sorted(log + [e])
  {}

  lemma {:induction false} InsertSorted(log: Log, e: Entry)
    requires Sorted(log)
    ensures Sorted(Insert(log, e))
    ensures forall x :: x in Insert(log, e) ==> x in log || x == e
  {
    if log == [] || log[|log| - 1].score <= e.score {
      EndSorted(log, e);
    } else {
      var n := |log| - 1;
      InsertSorted(log[..n], e);
      assert log == log[..n] + [log[n]];
      var left := Insert(log[..n], e);
      hide Insert;
      forall x | x in log[..n]
        ensures x.score <= log[n].score
      {
        var i :| 0 <= i < n && log[..n][i] == x;
        assert log[i] == x;
      }
      hide Sorted;
      ScoresUpTo(left, log[n]);
    }
  }

  lemma {:induction false} AddUnitsSorted(log: Log, now: int, count: int, n: int)
    requires Sorted(log)
    ensures Sorted(AddUnits(log, now, count, n))
    ensures forall e :: e in AddUnits(log, now, count, n) ==> e in log || e.score == now
    decreases n
  {
    if n > 0 {
      AddUnitsSorted(log, now, count, n - 1);
      var before, e := AddUnits(log, now, count, n - 1), Entry(now, Member(now, count + n));
      WithoutSorted(before, e.member);
      InsertSorted(Without(before, e.member), e);
    }
  }

  lemma SortedEmpty()
    ensures Sorted([])
  {}

  /** The set is in order of score after every run, whatever the clock does. */
  lemma {:induction false} RunIsSorted(cfg: Config, requests: seq<Request>)
    ensures Sorted(LogOf(Run(Script(cfg), Absent, requests).state))
  {
    hide Sorted, Answer, Purge, AddUnits;
    if requests == [] {
      SortedEmpty();
    } else {
      var n := |requests| - 1;
      RunIsSorted(cfg, requests[..n]);
      var key, q := Run(Script(cfg), Absent, requests[..n]).state, requests[n];
      var log := Purge(LogOf(key), q.now - cfg.windowMs);
      PurgeSorted(LogOf(key), q.now - cfg.windowMs);
      AddUnitsSorted(log, q.now, |log|, q.cost);
    }
  }

  lemma EmptyWellNamed(bound: int, t: int)
    ensures WellNamed(Purge([], bound), t)
  {}

  /** After a run with a nondecreasing clock, the names left at `now` are fit for new ones. */
  lemma {:induction false} RunIsWellNamed(cfg: Config, requests: seq<Request>, now: int)
    requires Nondecreasing(requests)
    requires requests != [] ==> requests[|requests| - 1].now <= now
    ensures WellNamed(Purge(LogOf(Run(Script(cfg), Absent, requests).state), now - cfg.windowMs), now)
  {
    hide Check, Recent, Purge, WellNamed;
    SameAsRemembering(cfg, requests);
    var run := Run(Script(cfg), Absent, requests);
    if requests == [] {
      EmptyWellNamed(now - cfg.windowMs, now);
    } else {
      TracksPurge(cfg, run.state, run.admitted, requests[|requests| - 1].now, now, 0);
      KeptLog(Purge(LogOf(run.state), now - cfg.windowMs), 0);
    }
  }

  lemma {:induction false} PurgeTwice(log: Log, bound: int)
    ensures |Purge(Purge(log, bound), bound)| == |Purge(log, bound)|
  {
    PurgeScores(log, bound);
    PurgeScores(Purge(log, bound), bound);
    RecentTwice(Scores(log), bound, bound);
    assert |Scores(Purge(log, bound))| == |Purge(log, bound)|;
    assert |Scores(Purge(Purge(log, bound), bound))| == |Purge(Purge(log, bound), bound)|;
  }

  lemma {:induction false} PurgeAfterAdd(log: Log, bound: int, now: int, n: int)
    requires WellNamed(Purge(log, bound), now) && bound < now
    ensures var left := Purge(log, bound);
            |Purge(AddUnits(left, now, |left|, n), bound)| == |left| + Max(n, 0)
  {
    var left := Purge(log, bound);
    var after := AddUnits(left, now, |left|, n);
    UnitsAppend(left, now, n);
    PurgeScores(log, bound);
    PurgeScores(after, bound);
    RecentTwice(Scores(log), bound, bound);
    RecentAppend(Scores(left), Repeat(now, n), bound);
    RecentAll(Repeat(now, n), bound);
    assert |Scores(Purge(after, bound))| == |Purge(after, bound)|;
    assert |Scores(left)| == |left|;
  }

  /** `remaining` is the largest cost a second check at the same instant can have. */
  lemma {:induction false} RemainingIsExact(cfg: Config, key: Key<Log>, q: Request, k: int)
    requires q.cost >= 1 && k >= 1 && WellNamed(Purge(LogOf(key), q.now - cfg.windowMs), q.now)
    ensures var (after, reply) := Check(cfg, key, q);
            && reply.limit == cfg.limit
            && 0 <= reply.remaining
            && (reply.allowed <==> Allows(cfg, key, q.now, q.cost))
            && (reply.allowed ==> reply.retryAfterMs == 0)
            && (Allows(cfg, after, q.now, k) <==> k <= reply.remaining)
  {
    hide Check, Purge, AddUnits, LogOf, WellNamed;
    var bound := q.now - cfg.windowMs;
    Outcome(cfg, key, q);
    PurgeTwice(LogOf(key), bound);
    PurgeAfterAdd(LogOf(key), bound, q.now, q.cost);
  }

  lemma {:induction false} PurgeNone(log: Log, bound: int)
    requires Sorted(log) && (log != [] ==> log[|log| - 1].score <= bound)
    ensures Purge(log, bound) == []
  {
    if log != [] {
      PurgeNone(log[..|log| - 1], bound);
    }
  }

  /** In a sorted log the `k` oldest are purged exactly when the k-th oldest is. */
  lemma {:induction false} PurgedCount(log: Log, bound: int, k: int)
    requires Sorted(log) && 1 <= k <= |log|
    ensures |Purge(log, bound)| <= |log| - k <==> log[k - 1].score <= bound
  {
    var n := |log| - 1;
    if log[n].score <= bound {
      PurgeNone(log, bound);
      assert k == |log| || log[k - 1].score <= log[n].score;
    } else if k <= n {
      PurgedCount(log[..n], bound, k);
    }
  }

  lemma RetryIsPositive(cfg: Config, q: Request, scores: seq<int>)
    ensures RetryOf(cfg, q, scores) >= 1
  {}

  lemma NeverAllows(cfg: Config, key: Key<Log>, t: int, cost: int)
    requires cost > cfg.limit
    ensures !Allows(cfg, key, t, cost)
  {}

  lemma {:induction false} LaterAllows(cfg: Config, after: Key<Log>, q: Request, t: int)
    requires var log := LogOf(after);
             && Sorted(log) && q.cost <= cfg.limit < |log| + q.cost
             && |Purge(log, q.now - cfg.windowMs)| == |log|
    ensures Allows(cfg, after, t, q.cost) <==> t >= q.now + RetryOf(cfg, q, Scores(LogOf(after)))
  {
    var log := LogOf(after);
    var k := |log| + q.cost - cfg.limit;
    PurgedCount(log, q.now - cfg.windowMs, k);
    PurgedCount(log, t - cfg.windowMs, k);
    assert |Scores(log)| == |log| && Scores(log)[k - 1] == log[k - 1].score;
    hide Purge, Scores;
  }

  lemma {:induction false} DeniedRetry(cfg: Config, key: Key<Log>, q: Request)
    requires !Allows(cfg, key, q.now, q.cost)
    ensures Check(cfg, key, q).1.retryAfterMs == RetryOf(cfg, q, Scores(Purge(LogOf(key), q.now - cfg.windowMs)))
  {}

  /**
   A denied request that fits the limit at all is admitted at a later `t` exactly when the wait
   reaches `retryAfterMs`; one that does not fit is denied after every wait.
   */
  lemma {:induction false} RetryIsExactIffCostFits(cfg: Config, key: Key<Log>, q: Request)
    requires !Allows(cfg, key, q.now, q.cost) && Sorted(LogOf(key))
    ensures var (after, reply) := Check(cfg, key, q);
            && reply.retryAfterMs >= 1
            && LogOf(after) == Purge(LogOf(key), q.now - cfg.windowMs)
            && ((forall t | t >= q.now :: Allows(cfg, after, t, q.cost) <==> t >= q.now + reply.retryAfterMs)
                <==> q.cost <= cfg.limit)
  {
    hide Purge, Scores, Check, LogOf, RetryOf, Sorted;
    var log := Purge(LogOf(key), q.now - cfg.windowMs);
    var (after, reply) := Check(cfg, key, q);
    Outcome(cfg, key, q);
    DeniedRetry(cfg, key, q);
    PurgeSorted(LogOf(key), q.now - cfg.windowMs);
    RetryIsPositive(cfg, q, Scores(log));
    assert |log| + q.cost > cfg.limit;
    hide Allows;
    if q.cost <= cfg.limit {
      PurgeTwice(LogOf(key), q.now - cfg.windowMs);
      forall t | t >= q.now
        ensures Allows(cfg, after, t, q.cost) <==> t >= q.now + reply.retryAfterMs
      {
        LaterAllows(cfg, after, q, t);
      }
    } else {
      NeverAllows(cfg, after, q.now + reply.retryAfterMs, q.cost);
    }
  }

  /** The whole limit is there at `t`: every cost up to it is admitted, and no larger one. */
  ghost predicate Full(cfg: Config, key: Key<Log>, t: int) {
    forall k | k >= 1 :: Allows(cfg, key, t, k) <==> k <= cfg.limit
  }

  lemma {:induction false} FullIff(cfg: Config, key: Key<Log>, t: int)
    ensures Full(cfg, key, t) <==> Purge(LogOf(key), t - cfg.windowMs) == []
  {
    hide Purge;
    assert Full(cfg, key, t) ==> Allows(cfg, key, t, cfg.limit);
  }

  lemma {:induction false} EndsOf(left: Log, log: Log, now: int, n: int)
    requires n >= 1 && |log| == |left| + n && Scores(log) == Scores(left) + Repeat(now, n)
    ensures log[|log| - 1].score == now && Oldest(Scores(log), now) == log[0].score
  {
    assert |Scores(left)| == |left| && |Scores(log)| == |log|;
    assert Scores(log)[|log| - 1] == log[|log| - 1].score && Scores(log)[0] == log[0].score;
  }

  /** The log after an admission: oldest first, the newest units at `now`. */
  lemma {:induction false} AfterAdmission(cfg: Config, key: Key<Log>, q: Request)
    requires q.cost >= 1 && Allows(cfg, key, q.now, q.cost)
    requires Sorted(LogOf(key)) && WellNamed(Purge(LogOf(key), q.now - cfg.windowMs), q.now)
    ensures var (after, reply) := Check(cfg, key, q);
            var log := LogOf(after);
            && reply.allowed && log != [] && Sorted(log)
            && log[|log| - 1].score == q.now && reply.resetAt == log[0].score + cfg.windowMs
  {
    hide Check, Purge, AddUnits, LogOf, WellNamed, Scores;
    var left := Purge(LogOf(key), q.now - cfg.windowMs);
    Outcome(cfg, key, q);
    PurgeSorted(LogOf(key), q.now - cfg.windowMs);
    AddUnitsSorted(left, q.now, |left|, q.cost);
    UnitsAppend(left, q.now, q.cost);
    EndsOf(left, AddUnits(left, q.now, |left|, q.cost), q.now, q.cost);
  }

  /** All units of `log` came in at instant `t`. */
  ghost predicate AllAt(log: Log, t: int) {
    forall e :: e in log ==> e.score == t
  }

  /** A sorted log is emptied when its newest unit leaves; its oldest is gone first. */
  lemma {:induction false} LeavesWithNewest(cfg: Config, key: Key<Log>, t: int)
    requires Sorted(LogOf(key)) && LogOf(key) != []
    ensures var log := LogOf(key);
            && (|Purge(log, t - cfg.windowMs)| < |log| <==> t >= log[0].score + cfg.windowMs)
            && (Full(cfg, key, t) <==> t >= log[|log| - 1].score + cfg.windowMs)
  {
    var log := LogOf(key);
    PurgedCount(log, t - cfg.windowMs, 1);
    PurgedCount(log, t - cfg.windowMs, |log|);
    FullIff(cfg, key, t);
  }

  lemma {:induction false} EndsMeetIff(log: Log)
    requires Sorted(log) && log != []
    ensures log[0].score == log[|log| - 1].score <==> AllAt(log, log[0].score)
  {
    assert log[|log| - 1] in log;
    assert |log| > 1 ==> log[0].score <= log[|log| - 1].score;
    forall e | e in log && log[0].score == log[|log| - 1].score
      ensures e.score == log[0].score
    {
      var i :| 0 <= i < |log| && log[i] == e;
      assert i > 0 ==> log[0].score <= log[i].score;
      assert i < |log| - 1 ==> log[i].score <= log[|log| - 1].score;
    }
  }

  lemma {:induction false} AllAtAfter(left: Log, after: Log, now: int, n: int)
    requires n >= 1 && |after| == |left| + n && Scores(after) == Scores(left) + Repeat(now, n)
    ensures after[|left|].score == now
    ensures AllAt(after, after[0].score) <==> AllAt(left, now)
  {
    forall i | 0 <= i < |after|
      ensures after[i].score == if i < |left| then left[i].score else now
    {
      assert Scores(after)[i] == after[i].score;
    }
    assert after[0] in after && after[|left|] in after;
    if AllAt(after, after[0].score) {
      forall e | e in left
        ensures e.score == now
      {
        var i :| 0 <= i < |left| && left[i] == e;
        assert after[i] in after;
      }
    }
    assert forall i :: 0 <= i < |left| ==> left[i] in left;
  }

  lemma {:induction false} FirstScore(log: Log, now: int)
    requires log != []
    ensures Oldest(Scores(log), now) == log[0].score
  {}

  /**
   `resetAt` is the instant the oldest unit leaves, so it means full replenishment exactly when all units
   that count came in at one instant: at `now` if the request is admitted, and at any one if it is denied.
   */
  lemma {:induction false} ResetIsFullIffOneInstant(cfg: Config, key: Key<Log>, q: Request)
    requires q.cost >= 1
    requires Sorted(LogOf(key)) && WellNamed(Purge(LogOf(key), q.now - cfg.windowMs), q.now)
    ensures var left := Purge(LogOf(key), q.now - cfg.windowMs);
            var (after, reply) := Check(cfg, key, q);
            Full(cfg, after, reply.resetAt)
            <==> if Allows(cfg, key, q.now, q.cost) then AllAt(left, q.now)
                 else left == [] || AllAt(left, left[0].score)
  {
    hide Check, Purge, AddUnits, LogOf, WellNamed, Full, AllAt, Scores;
    var left := Purge(LogOf(key), q.now - cfg.windowMs);
    var (after, reply) := Check(cfg, key, q);
    Outcome(cfg, key, q);
    PurgeSorted(LogOf(key), q.now - cfg.windowMs);
    if Allows(cfg, key, q.now, q.cost) {
      AfterAdmission(cfg, key, q);
      UnitsAppend(left, q.now, q.cost);
      AllAtAfter(left, LogOf(after), q.now, q.cost);
      LeavesWithNewest(cfg, after, reply.resetAt);
      EndsMeetIff(LogOf(after));
    } else if left == [] {
      FullIff(cfg, after, reply.resetAt);
      PurgeNone(left, reply.resetAt - cfg.windowMs);
    } else {
      FirstScore(left, q.now);
      LeavesWithNewest(cfg, after, reply.resetAt);
      EndsMeetIff(left);
    }
  }

  /** And so it is at every later instant: the oldest unit is gone from `resetAt` on, the newest a window after it came in. */
  lemma {:induction false} ResetIsWhenTheOldestLeaves(cfg: Config, key: Key<Log>, q: Request, t: int)
    requires Sorted(LogOf(key)) && WellNamed(Purge(LogOf(key), q.now - cfg.windowMs), q.now)
    requires q.cost >= 1 && LogOf(Check(cfg, key, q).0) != []
    ensures var (after, reply) := Check(cfg, key, q);
            var log := LogOf(after);
            && (|Purge(log, t - cfg.windowMs)| < |log| <==> t >= reply.resetAt)
            && (Full(cfg, after, t) <==> t >= log[|log| - 1].score + cfg.windowMs)
            && (reply.allowed ==> log[|log| - 1].score == q.now)
  {
    hide Check, Purge, AddUnits, LogOf, WellNamed, Full, Scores;
    var (after, reply) := Check(cfg, key, q);
    Outcome(cfg, key, q);
    PurgeSorted(LogOf(key), q.now - cfg.windowMs);
    if Allows(cfg, key, q.now, q.cost) {
      AfterAdmission(cfg, key, q);
    } else {
      FirstScore(LogOf(after), q.now);
    }
    LeavesWithNewest(cfg, after, t);
  }

  lemma {:induction false} KeptIsRecent(log: Log, bound: int)
    ensures forall e :: e in Purge(log, bound) ==> e.score > bound
  {
    if log != [] {
      KeptIsRecent(log[..|log| - 1], bound);
    }
  }

  /** The wait and the oldest score that the reply to an oversize request is made of. */
  lemma {:induction false} OversizeRetry(cfg: Config, q: Request, log: Log)
    ensures log == [] ==> RetryOf(cfg, q, Scores(log)) == cfg.windowMs && Oldest(Scores(log), q.now) == q.now
    ensures log != [] && q.cost > cfg.limit && log[|log| - 1].score > q.now - cfg.windowMs ==>
              RetryOf(cfg, q, Scores(log)) == log[|log| - 1].score + cfg.windowMs - q.now
  {
    assert |Scores(log)| == |log|;
    assert log != [] ==> Scores(log)[|log| - 1] == log[|log| - 1].score;
    hide Scores;
  }

  lemma {:induction false} DeniedOutcome(cfg: Config, key: Key<Log>, q: Request)
    requires !Allows(cfg, key, q.now, q.cost)
    ensures var left := Purge(LogOf(key), q.now - cfg.windowMs);
            var (after, reply) := Check(cfg, key, q);
            && !reply.allowed && LogOf(after) == left
            && reply.retryAfterMs == RetryOf(cfg, q, Scores(left))
            && reply.resetAt == Oldest(Scores(left), q.now) + cfg.windowMs
  {
    Outcome(cfg, key, q);
    DeniedRetry(cfg, key, q);
    hide *;
  }

  /**
   A request above the limit is told to wait until the log is empty: until its newest unit has left, and a
   whole window when nothing counts, which is then its `resetAt` too.
   */
  lemma {:induction false} OversizeWaitsForNewest(cfg: Config, key: Key<Log>, q: Request, t: int)
    requires !Allows(cfg, key, q.now, q.cost) && Sorted(LogOf(key))
    ensures var left := Purge(LogOf(key), q.now - cfg.windowMs);
            var (after, reply) := Check(cfg, key, q);
            && !reply.allowed
            && (left == [] ==> reply.retryAfterMs == cfg.windowMs && reply.resetAt == q.now + cfg.windowMs)
            && (left != [] && q.cost > cfg.limit ==> (Full(cfg, after, t) <==> t >= q.now + reply.retryAfterMs))
  {
    hide *;
    var left := Purge(LogOf(key), q.now - cfg.windowMs);
    DeniedOutcome(cfg, key, q);
    OversizeRetry(cfg, q, left);
    if left != [] {
      PurgeSorted(LogOf(key), q.now - cfg.windowMs);
      KeptIsRecent(LogOf(key), q.now - cfg.windowMs);
      assert left[|left| - 1] in left;
      LeavesWithNewest(cfg, Check(cfg, key, q).0, t);
    }
  }

  lemma {:induction false} PurgeOfNone(bound: int)
    ensures Purge([], bound) == []
  {}

  /** An admission keeps its key until its newest unit leaves; a denial leaves the deadline as it was. */
  lemma {:induction false} DeadlineIsWhenNewestLeaves(cfg: Config, key: Key<Log>, q: Request, t: int)
    requires q.cost >= 1 && Sorted(LogOf(key)) && WellNamed(Purge(LogOf(key), q.now - cfg.windowMs), q.now)
    ensures var (after, reply) := Check(cfg, key, q);
            && (reply.allowed ==> after.Stored? && (t >= after.deadline <==> Full(cfg, after, t)))
            && (!reply.allowed && after.Stored? ==> key.Stored? && after.deadline == key.deadline)
  {
    var (after, reply) := Check(cfg, key, q);
    Outcome(cfg, key, q);
    if reply.allowed {
      assert after.Stored? ==> after.deadline == q.now + Max(cfg.windowMs, 1);
      hide Check, Purge, Full, WellNamed, AddUnits, Scores;
      AfterAdmission(cfg, key, q);
      LeavesWithNewest(cfg, after, t);
    } else {
      PurgeOfNone(q.now - cfg.windowMs);
    }
  }
}
