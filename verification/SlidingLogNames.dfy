/**
 How the sliding log counts: a unit is counted when its member name is free, which a clock that goes
 back can prevent. Two short runs show what the log does not promise.
 */
module SlidingLogNames {
  import opened Runs
  import opened SlidingLog
  import opened SlidingLogBounds
  import opened SlidingLogReplies

  // ---------- A unit is counted exactly when its name is free ----------

  predicate Taken(log: Log, m: Member) {
    exists e :: e in log && e.member == m
  }

  /** No entry has one of the names of the script's loop. */
  ghost predicate NamesFree(log: Log, now: int, count: int, n: int) {
    forall m: Member | m.now == now && count < m.n <= count + n :: !Taken(log, m)
  }

  lemma {:induction false} TakenAppend(a: Log, b: Log, m: Member)
    ensures Taken(a + b, m) <==> Taken(a, m) || Taken(b, m)
  {
    if Taken(a, m) {
      var e :| e in a && e.member == m;
      assert e in a + b;
    } else if Taken(b, m) {
      var e :| e in b && e.member == m;
      assert e in a + b;
    }
  }

  lemma {:induction false} WithoutLess(log: Log, m: Member)
    ensures |Without(log, m)| <= |log| && (|Without(log, m)| == |log| <==> !Taken(log, m))
    ensures forall other :: Taken(Without(log, m), other) <==> other != m && Taken(log, other)
  {
    if log != [] {
      var n := |log| - 1;
      WithoutLess(log[..n], m);
      var last := if log[n].member == m then [] else [log[n]];
      assert log == log[..n] + [log[n]];
      assert log[n] in [log[n]];
      forall other
        ensures Taken(Without(log, m), other) <==> other != m && Taken(log, other)
      {
        TakenAppend(log[..n], [log[n]], other);
        TakenAppend(Without(log[..n], m), last, other);
      }
      TakenAppend(log[..n], [log[n]], m);
    }
  }

  lemma {:induction false} InsertTakes(log: Log, e: Entry)
    ensures |Insert(log, e)| == |log| + 1
    ensures forall m :: Taken(Insert(log, e), m) <==> m == e.member || Taken(log, m)
  {
    assert e in [e];
    if log == [] || log[|log| - 1].score <= e.score {
      forall m
        ensures Taken(Insert(log, e), m) <==> m == e.member || Taken(log, m)
      {
        TakenAppend(log, [e], m);
      }
    } else {
      var n := |log| - 1;
      InsertTakes(log[..n], e);
      assert log == log[..n] + [log[n]];
      forall m
        ensures Taken(Insert(log, e), m) <==> m == e.member || Taken(log, m)
      {
        TakenAppend(log[..n], [log[n]], m);
        TakenAppend(Insert(log[..n], e), [log[n]], m);
      }
    }
  }

  /** One ZADD adds a member if and only if its name is free. */
  lemma {:induction false} ZaddAddsIffFree(log: Log, e: Entry)
    ensures |Zadd(log, e)| <= |log| + 1 && (|Zadd(log, e)| == |log| + 1 <==> !Taken(log, e.member))
    ensures forall m :: Taken(Zadd(log, e), m) <==> m == e.member || Taken(log, m)
  {
    hide Taken;
    WithoutLess(log, e.member);
    InsertTakes(Without(log, e.member), e);
  }

  lemma {:induction false} LoopAddsIffFree(log: Log, now: int, count: int, n: int)
    requires n >= 0
    ensures var after := AddUnits(log, now, count, n);
            && |after| <= |log| + n
            && (|after| == |log| + n <==> NamesFree(log, now, count, n))
            && forall m :: Taken(after, m) <==> Taken(log, m) || (m.now == now && count < m.n <= count + n)
    decreases n
  {
    hide Taken, Zadd;
    if n > 0 {
      LoopAddsIffFree(log, now, count, n - 1);
      var last := Member(now, count + n);
      ZaddAddsIffFree(AddUnits(log, now, count, n - 1), Entry(now, last));
      assert NamesFree(log, now, count, n) <==> NamesFree(log, now, count, n - 1) && !Taken(log, last);
    }
  }

  /**
   A check that is admitted is counted with all its units if and only if none of the names it uses is in
   the purged log; otherwise it is counted with fewer.
   */
  lemma {:induction false} EveryUnitCountsIffNamesFree(cfg: Config, key: Key<Log>, q: Request)
    requires q.cost >= 0 && Allows(cfg, key, q.now, q.cost)
    ensures var left := Purge(LogOf(key), q.now - cfg.windowMs);
            var after := LogOf(Check(cfg, key, q).0);
            && |after| <= |left| + q.cost
            && (|after| == |left| + q.cost
                <==> NamesFree(left, q.now, |left|, q.cost))
  {
    hide Taken, Check, Purge, LogOf;
    var left := Purge(LogOf(key), q.now - cfg.windowMs);
    Outcome(cfg, key, q);
    LoopAddsIffFree(left, q.now, |left|, q.cost);
  }

  // ---------- What the log does not promise ----------

  lemma {:induction false} AddOne(log: Log, now: int, count: int)
    ensures AddUnits(log, now, count, 1) == Zadd(log, Entry(now, Member(now, count + 1)))
  {
    hide Zadd;
    assert AddUnits(log, now, count, 0) == log;
  }

  lemma {:induction false} ZaddMoves(e: Entry)
    ensures Zadd([e], e) == [e]
  {
    assert [e][..0] == [];
    assert Without([e], e.member) == [];
    assert [] + [e] == [e];
  }

  /** A log of one unit admitted at 12, numbered 2 because another unit has left since. */
  lemma {:induction false} SecondUnitAlone(cfg: Config, key: Key<Log>)
    requires cfg == Config(5, 3) && LogOf(key) == [Entry(12, Member(12, 2))]
    ensures Check(cfg, key, Request(12, 1)).1.allowed
    ensures LogOf(Check(cfg, key, Request(12, 1)).0) == LogOf(key)
  {
    hide Check, AddUnits, Purge, LogOf, Zadd;
    var log, e := LogOf(key), Entry(12, Member(12, 2));
    PurgeAll(log, 12 - cfg.windowMs);
    AddOne(log, 12, 1);
    ZaddMoves(e);
    Outcome(cfg, key, Request(12, 1));
  }

  lemma {:induction false} ZaddLater(log: Log, e: Entry)
    requires !Taken(log, e.member) && (log != [] ==> log[|log| - 1].score <= e.score)
    ensures Zadd(log, e) == log + [e]
  {
    assert forall x :: x in log ==> x.member != e.member;
    WithoutAbsent(log, e.member);
  }

  lemma {:induction false} NothingRun(cfg: Config)
    ensures Run(Script(cfg), Absent, []) == Trace(Absent, [], [])
  {}

  lemma {:induction false} InWindowExtends(cfg: Config, h: seq<Request>, q: Request, t: int)
    ensures InWindow(cfg, h + [q], t) == InWindow(cfg, h, t) + if t - cfg.windowMs < q.now <= t then q.cost else 0
  {}

  lemma {:induction false} FirstUnit(cfg: Config)
    requires cfg == Config(5, 3)
    ensures Check(cfg, Absent, Request(10, 1)).1.allowed
    ensures LogOf(Check(cfg, Absent, Request(10, 1)).0) == [Entry(10, Member(10, 1))]
  {
    hide Check, AddUnits, Zadd;
    var none: Log := [];
    assert LogOf(Absent) == none && Purge(none, 10 - cfg.windowMs) == none;
    AddOne(none, 10, 0);
    ZaddLater(none, Entry(10, Member(10, 1)));
    assert none + [Entry(10, Member(10, 1))] == [Entry(10, Member(10, 1))];
    Outcome(cfg, Absent, Request(10, 1));
  }

  lemma {:induction false} SecondUnit(cfg: Config, key: Key<Log>)
    requires cfg == Config(5, 3) && LogOf(key) == [Entry(10, Member(10, 1))]
    ensures Check(cfg, key, Request(12, 1)).1.allowed
    ensures LogOf(Check(cfg, key, Request(12, 1)).0) == [Entry(10, Member(10, 1)), Entry(12, Member(12, 2))]
  {
    hide Check, AddUnits, Purge, LogOf, Zadd;
    var log, e := LogOf(key), Entry(12, Member(12, 2));
    PurgeAll(log, 12 - cfg.windowMs);
    AddOne(log, 12, 1);
    ZaddLater(log, e);
    assert log + [e] == [Entry(10, Member(10, 1)), e];
    Outcome(cfg, key, Request(12, 1));
  }

  lemma {:induction false} PurgeFirst(a: Entry, b: Entry, bound: int)
    requires a.score <= bound < b.score
    ensures Purge([a, b], bound) == [b]
  {
    assert [a, b][..1] == [a] && [a][..0] == [];
    assert Purge([a], bound) == [];
  }

  lemma {:induction false} FirstUnitLeaves(cfg: Config, key: Key<Log>)
    requires cfg == Config(5, 3) && LogOf(key) == [Entry(10, Member(10, 1)), Entry(12, Member(12, 2))]
    ensures !Check(cfg, key, Request(15, 5)).1.allowed
    ensures LogOf(Check(cfg, key, Request(15, 5)).0) == [Entry(12, Member(12, 2))]
  {
    hide Check, AddUnits, LogOf, Purge;
    PurgeFirst(Entry(10, Member(10, 1)), Entry(12, Member(12, 2)), 15 - cfg.windowMs);
    Outcome(cfg, key, Request(15, 5));
  }

  /** After a step back the name of a new unit can be taken: the unit is admitted but not counted. */
  lemma {:induction false} BackwardClockLosesUnits()
    ensures var cfg := Config(5, 3);
            var run := Run(Script(cfg), Absent, [Request(10, 1), Request(12, 1), Request(15, 5), Request(12, 1)]);
            && run.admitted == [Request(10, 1), Request(12, 1), Request(12, 1)]
            && InWindow(cfg, run.admitted, 12) == 3
            && LogOf(run.state) == [Entry(12, Member(12, 2))]
  {
    var cfg := Config(5, 3);
    var a, b, c, d := Request(10, 1), Request(12, 1), Request(15, 5), Request(12, 1);
    hide Purge, AddUnits, InWindow, Answer, Fits, Check, LogOf, Run;
    var none: seq<Request> := [];
    NothingRun(cfg);
    RunExtends(Script(cfg), Absent, none, a);
    RunExtends(Script(cfg), Absent, [a], b);
    RunExtends(Script(cfg), Absent, [a, b], c);
    RunExtends(Script(cfg), Absent, [a, b, c], d);
    assert none + [a] == [a] && [a] + [b] == [a, b] && [a, b] + [c] == [a, b, c] && [a, b, c] + [d] == [a, b, c, d];
    FirstUnit(cfg);
    SecondUnit(cfg, Run(Script(cfg), Absent, [a]).state);
    FirstUnitLeaves(cfg, Run(Script(cfg), Absent, [a, b]).state);
    SecondUnitAlone(cfg, Run(Script(cfg), Absent, [a, b, c]).state);
    assert [a, b] + [d] == [a, b, d];
    InWindowExtends(cfg, none, a, 12);
    InWindowExtends(cfg, [a], b, 12);
    InWindowExtends(cfg, [a, b], d, 12);
    EmptyLog(cfg, 12);
  }

  lemma {:induction false} NotFullYet(cfg: Config, key: Key<Log>)
    requires cfg == Config(5, 3) && LogOf(key) == [Entry(10, Member(10, 1)), Entry(12, Member(12, 2))]
    ensures !Full(cfg, key, 15)
  {
    LeavesWithNewest(cfg, key, 15);
  }

  /** Units at 10 and at 12, and then a check that is denied at 13: `resetAt` is 15, before the second unit leaves. */
  lemma {:induction false} TwoInstants()
    ensures var cfg := Config(5, 3);
            var run := Run(Script(cfg), Absent, [Request(10, 1), Request(12, 1), Request(13, 2)]);
            && |run.replies| == 3
            && run.replies[1].allowed && run.replies[1].resetAt == 15
            && !run.replies[2].allowed && run.replies[2].resetAt == 15
            && LogOf(run.state) == [Entry(10, Member(10, 1)), Entry(12, Member(12, 2))]
            && !Full(cfg, run.state, 15)
  {
    var cfg := Config(5, 3);
    var a, b, c := Request(10, 1), Request(12, 1), Request(13, 2);
    hide Purge, AddUnits, Answer, Fits, Check, LogOf, Run, Full, Oldest, Scores;
    var none: seq<Request> := [];
    NothingRun(cfg);
    RunExtends(Script(cfg), Absent, none, a);
    RunExtends(Script(cfg), Absent, [a], b);
    RunExtends(Script(cfg), Absent, [a, b], c);
    assert none + [a] == [a] && [a] + [b] == [a, b] && [a, b] + [c] == [a, b, c];
    FirstUnit(cfg);
    var one := Run(Script(cfg), Absent, [a]).state;
    SecondUnit(cfg, one);
    Outcome(cfg, one, b);
    var two := Run(Script(cfg), Absent, [a, b]).state;
    PurgeAll(LogOf(two), 8);
    Outcome(cfg, two, c);
    FirstScore(LogOf(two), 12);
    FirstScore(LogOf(two), 13);
    NotFullYet(cfg, Run(Script(cfg), Absent, [a, b, c]).state);
  }
}
