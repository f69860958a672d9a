/**
 The sliding window log script: a sorted set with one member per admitted unit, scored by the
 instant it was admitted.
 */
module SlidingLog {
  import opened Rounding
  import opened Runs

  datatype RawConfig = Config(windowMs: int, limit: int)

  type Config = c: RawConfig | c.windowMs > 0 && c.limit > 0 witness Config(1, 1)

  /** The member string `now-n`. */
  datatype Member = Member(now: int, n: int)

  datatype Entry = Entry(score: int, member: Member)

  /** The sorted set, in the order ZRANGE reports it; members with one score may be in any order. */
  type Log = seq<Entry>

  function LogOf(key: Key<Log>): Log {
    if key.Stored? then key.value else []
  }

  /** ZREMRANGEBYSCORE from -inf to `bound`. */
  function Purge(log: Log, bound: int): Log {
    if log == [] then
      []
    else
      var n := |log| - 1;
      Purge(log[..n], bound) + if log[n].score > bound then [log[n]] else []
  }

  function Without(log: Log, m: Member): Log {
    if log == [] then
      []
    else
      var n := |log| - 1;
      Without(log[..n], m) + if log[n].member == m then [] else [log[n]]
  }

  function Insert(log: Log, e: Entry): Log {
    if log == [] || log[|log| - 1].score <= e.score then log + [e]
    else Insert(log[..|log| - 1], e) + [log[|log| - 1]]
  }

  /** ZADD: a member that is already there is moved, not added. */
  function Zadd(log: Log, e: Entry): Log {
    Insert(Without(log, e.member), e)
  }

  /** The script's loop after `n` rounds, the members being numbered from `count + 1`. */
  function AddUnits(log: Log, now: int, count: int, n: int): Log
    decreases n
  {
    if n <= 0 then log else Zadd(AddUnits(log, now, count, n - 1), Entry(now, Member(now, count + n)))
  }

  function Scores(log: Log): seq<int> {
    seq(|log|, i requires 0 <= i < |log| => log[i].score)
  }

  /** ZRANGE 0 0, or `now` when there is nothing. */
  function Oldest(scores: seq<int>, now: int): int {
    if scores == [] then now else scores[0]
  }

  predicate Fits(cfg: Config, q: Request, count: int) {
    count + q.cost <= cfg.limit
  }

  /** The wait until enough of the oldest units have left the window. */
  function RetryOf(cfg: Config, q: Request, scores: seq<int>): int {
    var count := |scores|;
    var k := count + q.cost - cfg.limit;
    if count == 0 then cfg.windowMs
    else Max(scores[(if k < 1 then 1 else if k > count then count else k) - 1] + cfg.windowMs - q.now, 1)
  }

  /** The reply, from the scores that the purge left and those the script leaves in the end. */
  function Answer(cfg: Config, q: Request, scores: seq<int>, after: seq<int>): Reply {
    var count := |scores|;
    var resetAt := Oldest(after, q.now) + cfg.windowMs;
    if Fits(cfg, q, count) then
      Reply(true, cfg.limit, Max(cfg.limit - (count + q.cost), 0), resetAt, 0)
    else
      Reply(false, cfg.limit, Max(cfg.limit - count, 0), resetAt, RetryOf(cfg, q, scores))
  }

  /** Redis deletes a sorted set that has become empty. */
  function Kept(log: Log, deadline: int): Key<Log> {
    if log == [] then Absent else Stored(log, deadline)
  }

  function Check(cfg: Config, key: Key<Log>, q: Request): (Key<Log>, Reply) {
    var log := Purge(LogOf(key), q.now - cfg.windowMs);
    if Fits(cfg, q, |log|) then
      var after := AddUnits(log, q.now, |log|, q.cost);
      (Kept(after, q.now + Max(cfg.windowMs, 1)), Answer(cfg, q, Scores(log), Scores(after)))
    else
      (Kept(log, if key.Stored? then key.deadline else 0), Answer(cfg, q, Scores(log), Scores(log)))
  }

  function Script(cfg: Config): Step<Key<Log>> {
    (key: Key<Log>, q: Request) => Check(cfg, key, q)
  }

  // ---------- The log does the work of a complete record ----------

  function Repeat(t: int, n: int): (r: seq<int>)
    ensures |r| == Max(n, 0)
    ensures forall i :: 0 <= i < |r| ==> r[i] == t
  {
    if n <= 0 then [] else Repeat(t, n - 1) + [t]
  }

  /** The instants of `h`, each as often as units were admitted at it. */
  function Units(h: seq<Request>): seq<int> {
    if h == [] then [] else Units(h[..|h| - 1]) + Repeat(h[|h| - 1].now, h[|h| - 1].cost)
  }

  function Recent(times: seq<int>, bound: int): seq<int> {
    if times == [] then
      []
    else
      var n := |times| - 1;
      Recent(times[..n], bound) + if times[n] > bound then [times[n]] else []
  }

  /** The limiter that keeps every admitted request for ever and counts its units again at each check. */
  function Remembering(cfg: Config): Step<seq<Request>> {
    (h: seq<Request>, q: Request) =>
      var bound := q.now - cfg.windowMs;
      var times := Recent(Units(h), bound);
      var after := if Fits(cfg, q, |times|) then h + [q] else h;
      (after, Answer(cfg, q, times, Recent(Units(after), bound)))
  }

  ghost predicate NamedApart(log: Log) {
    forall i, j :: 0 <= i < j < |log| ==> log[i].member != log[j].member
  }

  /** Every member is named after its score and, at the latest score, with a number the next names will exceed. */
  ghost predicate WellNamed(log: Log, t: int) {
    && (forall e :: e in log ==> e.score == e.member.now && e.score <= t && (e.score == t ==> e.member.n <= |log|))
    && NamedApart(log)
  }

  /** The scores are exactly the units admitted within the window that ended at `t`. */
  ghost predicate Tracks(cfg: Config, key: Key<Log>, h: seq<Request>, t: int) {
    && Scores(LogOf(key)) == Recent(Units(h), t - cfg.windowMs)
    && WellNamed(LogOf(key), t)
  }

  lemma {:induction false} ScoresAppend(a: Log, b: Log)
    ensures Scores(a + b) == Scores(a) + Scores(b)
  {}

  lemma {:induction false} PurgeScores(log: Log, bound: int)
    ensures Scores(Purge(log, bound)) == Recent(Scores(log), bound)
  {
    if log != [] {
      var n := |log| - 1;
      PurgeScores(log[..n], bound);
      assert Scores(log)[..n] == Scores(log[..n]);
      ScoresAppend(Purge(log[..n], bound), if log[n].score > bound then [log[n]] else []);
    }
  }

  lemma {:induction false} RecentLast(times: seq<int>, t: int, bound: int)
    ensures Recent(times + [t], bound) == Recent(times, bound) + if t > bound then [t] else []
  {}

  lemma {:induction false} RecentAppend(a: seq<int>, b: seq<int>, bound: int)
    ensures Recent(a + b, bound) == Recent(a, bound) + Recent(b, bound)
  {
    if b == [] {
      assert a + b == a;
    } else {
      hide Recent;
      var n := |b| - 1;
      assert a + b == (a + b[..n]) + [b[n]] && b == b[..n] + [b[n]];
      RecentAppend(a, b[..n], bound);
      RecentLast(a + b[..n], b[n], bound);
      RecentLast(b[..n], b[n], bound);
    }
  }

  lemma {:induction false} RecentTwice(times: seq<int>, bound: int, later: int)
    requires bound <= later
    ensures Recent(Recent(times, bound), later) == Recent(times, later)
  {
    if times != [] {
      var n := |times| - 1;
      RecentTwice(times[..n], bound, later);
      RecentAppend(Recent(times[..n], bound), if times[n] > bound then [times[n]] else [], later);
      assert [times[n]][..0] == [];
    }
  }

  lemma {:induction false} RecentAll(times: seq<int>, bound: int)
    requires forall i :: 0 <= i < |times| ==> times[i] > bound
    ensures Recent(times, bound) == times
  {
    if times != [] {
      RecentAll(times[..|times| - 1], bound);
    }
  }

  lemma {:induction false} RecentMembers(times: seq<int>, bound: int)
    ensures forall i :: 0 <= i < |Recent(times, bound)| ==> Recent(times, bound)[i] > bound
  {
    if times != [] {
      RecentMembers(times[..|times| - 1], bound);
    }
  }

  lemma {:induction false} PurgeAll(log: Log, bound: int)
    requires forall e :: e in log ==> e.score > bound
    ensures Purge(log, bound) == log
  {
    if log != [] {
      var n := |log| - 1;
      assert log[n] in log;
      forall e | e in log[..n] ensures e in log {
      }
      PurgeAll(log[..n], bound);
      assert log == log[..n] + [log[n]];
    }
  }

  /** What is left after a purge is a selection of what was there. */
  lemma {:induction false} PurgeSelects(log: Log, bound: int)
    requires NamedApart(log)
    ensures NamedApart(Purge(log, bound))
    ensures forall e :: e in Purge(log, bound) ==> e in log && e.score > bound
  {
    if log != [] {
      var n := |log| - 1;
      var rest, left := log[..n], Purge(log[..n], bound);
      PurgeSelects(rest, bound);
      forall e | e in rest
        ensures e in log && e.member != log[n].member
      {
        var i :| 0 <= i < n && rest[i] == e;
        assert log[i] == e;
      }
      forall i | 0 <= i < |left|
        ensures left[i].member != log[n].member
      {
        assert left[i] in left;
      }
    }
  }

  lemma {:induction false} PurgeStaysNamed(log: Log, bound: int, t: int, now: int)
    requires WellNamed(log, t) && t <= now
    requires t == now ==> forall e :: e in log ==> e.score > bound
    ensures WellNamed(Purge(log, bound), now)
  {
    PurgeSelects(log, bound);
    if t == now {
      PurgeAll(log, bound);
    }
    hide Purge;
  }

  lemma KeptLog(log: Log, deadline: int)
    ensures LogOf(Kept(log, deadline)) == log
  {}

  lemma {:induction false} ScoresAbove(log: Log, times: seq<int>, bound: int)
    requires Scores(log) == Recent(times, bound)
    ensures forall e :: e in log ==> e.score > bound
  {
    RecentMembers(times, bound);
    forall e | e in log
      ensures e.score > bound
    {
      var i :| 0 <= i < |log| && log[i] == e;
      assert Scores(log)[i] == e.score;
    }
  }

  /** A later purge finds the units of the later window, and the names stay fit for new ones. */
  lemma {:induction false} TracksPurge(cfg: Config, key: Key<Log>, h: seq<Request>, t: int, now: int, deadline: int)
    requires Tracks(cfg, key, h, t) && t <= now
    ensures Tracks(cfg, Kept(Purge(LogOf(key), now - cfg.windowMs), deadline), h, now)
  {
    var log, bound := LogOf(key), now - cfg.windowMs;
    hide Purge, Recent, Scores, Units, Kept, WellNamed, LogOf;
    KeptLog(Purge(log, bound), deadline);
    PurgeScores(log, bound);
    RecentTwice(Units(h), t - cfg.windowMs, bound);
    ScoresAbove(log, Units(h), t - cfg.windowMs);
    PurgeStaysNamed(log, bound, t, now);
  }

  lemma {:induction false} WithoutAbsent(log: Log, m: Member)
    requires forall e :: e in log ==> e.member != m
    ensures Without(log, m) == log
  {
    if log != [] {
      WithoutAbsent(log[..|log| - 1], m);
    }
  }

  lemma {:induction false} AppendOne(log: Log, now: int, n: int)
    requires WellNamed(log, now) && n == |log| + 1
    ensures var after := Zadd(log, Entry(now, Member(now, n)));
            |after| == n && Scores(after) == Scores(log) + [now] && WellNamed(after, now)
  {
    var e := Entry(now, Member(now, n));
    WithoutAbsent(log, e.member);
    assert log != [] ==> log[|log| - 1] in log;
    assert Zadd(log, e) == log + [e];
    forall i | 0 <= i < |log|
      ensures log[i].member != e.member
    {
      assert log[i] in log;
    }
    ScoresAppend(log, [e]);
  }

  /** With no later score and fresh names, the loop appends one member per unit. */
  lemma {:induction false} UnitsAppend(log: Log, now: int, n: int)
    requires WellNamed(log, now)
    ensures var after := AddUnits(log, now, |log|, n);
            && |after| == |log| + Max(n, 0)
            && Scores(after) == Scores(log) + Repeat(now, n)
            && WellNamed(after, now)
  {
    hide Zadd, WellNamed, Scores;
    if n <= 0 {
      assert Scores(log) + [] == Scores(log);
    } else {
      UnitsAppend(log, now, n - 1);
      AppendOne(AddUnits(log, now, |log|, n - 1), now, |log| + n);
      assert Scores(log) + (Repeat(now, n - 1) + [now]) == Scores(log) + Repeat(now, n - 1) + [now];
    }
  }

  lemma {:induction false} UnitsExtend(h: seq<Request>, q: Request, bound: int)
    requires bound < q.now
    ensures Recent(Units(h + [q]), bound) == Recent(Units(h), bound) + Repeat(q.now, q.cost)
  {
    assert (h + [q])[..|h|] == h;
    RecentAppend(Units(h), Repeat(q.now, q.cost), bound);
    RecentAll(Repeat(q.now, q.cost), bound);
  }

  lemma {:induction false} TracksAdd(cfg: Config, log: Log, h: seq<Request>, q: Request, deadline: int)
    requires Scores(log) == Recent(Units(h), q.now - cfg.windowMs) && WellNamed(log, q.now)
    ensures Tracks(cfg, Kept(AddUnits(log, q.now, |log|, q.cost), deadline), h + [q], q.now)
  {
    var after := AddUnits(log, q.now, |log|, q.cost);
    assert LogOf(Kept(after, deadline)) == after;
    UnitsAppend(log, q.now, q.cost);
    UnitsExtend(h, q, q.now - cfg.windowMs);
  }

  lemma {:induction false} TracksStep(cfg: Config, key: Key<Log>, h: seq<Request>, t: int, q: Request)
    requires Tracks(cfg, key, h, t) && t <= q.now
    ensures Check(cfg, key, q).1 == Remembering(cfg)(h, q).1
    ensures Tracks(cfg, Check(cfg, key, q).0, Remembering(cfg)(h, q).0, q.now)
  {
    hide Purge, Units, AddUnits, WellNamed, Answer, Kept, LogOf;
    var log := Purge(LogOf(key), q.now - cfg.windowMs);
    var deadline := if key.Stored? then key.deadline else 0;
    TracksPurge(cfg, key, h, t, q.now, deadline);
    KeptLog(log, deadline);
    TracksAdd(cfg, log, h, q, q.now + Max(cfg.windowMs, 1));
    KeptLog(AddUnits(log, q.now, |log|, q.cost), q.now + Max(cfg.windowMs, 1));
    assert |Scores(log)| == |log|;
    hide Tracks, Scores, Recent;
  }

  lemma {:induction false} RecordIsAdmitted(cfg: Config, requests: seq<Request>)
    ensures Run(Remembering(cfg), [], requests).state == Run(Remembering(cfg), [], requests).admitted
  {
    hide Units, Recent;
    if requests != [] {
      RecordIsAdmitted(cfg, requests[..|requests| - 1]);
    }
  }

  lemma {:induction false} SameAsRemembering(cfg: Config, requests: seq<Request>)
    requires Nondecreasing(requests)
    ensures Run(Script(cfg), Absent, requests).replies == Run(Remembering(cfg), [], requests).replies
    ensures Run(Script(cfg), Absent, requests).admitted == Run(Remembering(cfg), [], requests).state
    ensures requests != [] ==>
              Tracks(cfg, Run(Script(cfg), Absent, requests).state, Run(Script(cfg), Absent, requests).admitted,
                     requests[|requests| - 1].now)
  {
    var related := (key: Key<Log>, h: seq<Request>, t: int) => Tracks(cfg, key, h, t);
    forall t ensures related(Absent, [], t) {
    }
    forall key, h, t: int, q: Request | related(key, h, t) && t <= q.now
      ensures Script(cfg)(key, q).1 == Remembering(cfg)(h, q).1
      ensures related(Script(cfg)(key, q).0, Remembering(cfg)(h, q).0, q.now)
    {
      TracksStep(cfg, key, h, t, q);
    }
    hide Script, Remembering, Tracks;
    Simulation(Script(cfg), Absent, Remembering(cfg), [], related, requests);
    RecordIsAdmitted(cfg, requests);
  }
}
