/** The sliding log script itself, proved to be the specification's step. */
module SlidingLogScript {
  import opened Rounding
  import opened Runs
  import opened SlidingLog

  /** The step on a key that is there as long as the log is not empty. */
  lemma {:induction false} CheckOnLog(cfg: Config, log: Log, deadline: int, q: Request)
    ensures var left := Purge(log, q.now - cfg.windowMs);
            var after := AddUnits(left, q.now, |left|, q.cost);
            Check(cfg, Kept(log, deadline), q)
            == if Fits(cfg, q, |left|) then
                 (Kept(after, q.now + Max(cfg.windowMs, 1)), Answer(cfg, q, Scores(left), Scores(after)))
               else
                 (Kept(left, deadline), Answer(cfg, q, Scores(left), Scores(left)))
  {}

  lemma {:induction false} AnswerAllows(cfg: Config, q: Request, left: Log, after: Log)
    ensures Answer(cfg, q, Scores(left), Scores(after)).allowed <==> Fits(cfg, q, |left|)
  {}

  /** One Redis sorted set with its deadline, and the script's body, statement by statement. */
  class Limiter {
    const cfg: Config
    /** The sorted set; Redis has no key for an empty one. */
    var log: Log
    var expiresAt: int
    /** What this limiter has admitted. */
    ghost var admitted: seq<Request>

    /** The key as the specification sees it. */
    ghost function Contents(): Key<Log>
      reads this
    {
      Kept(log, expiresAt)
    }

    constructor (cfg: Config)
      ensures this.cfg == cfg && Contents() == Absent && admitted == []
    {
      this.cfg := cfg;
      log, expiresAt, admitted := [], 0, [];
    }

    method Expire(now: int)
      modifies this
      ensures var was := old(Contents());
              Contents() == Vanish(was, now, true) == if was.Stored? && was.deadline <= now then Absent else was
      ensures admitted == old(admitted)
    {
      if log != [] && expiresAt <= now {
        log := [];
      }
    }

    /** The loop of ZADDs. */
    method Add(now: int, count: int, cost: int)
      modifies this`log
      ensures log == AddUnits(old(log), now, count, cost)
    {
      hide Zadd;
      var i := 1;
      while i <= cost
        invariant 1 <= i <= Max(cost, 0) + 1
        invariant log == AddUnits(old(log), now, count, i - 1)
        decreases cost - i
      {
        log := Zadd(log, Entry(now, Member(now, count + i)));
        i := i + 1;
      }
    }

    /** The score of the first element, or `now`. */
    method OldestScore(now: int) returns (oldest: int)
      ensures oldest == Oldest(Scores(log), now)
    {
      oldest := now;
      if log != [] {
        oldest := log[0].score;
      }
    }

    /** The wait until the k-th oldest element has left. */
    method RetryAfter(now: int, cost: int, count: int) returns (retry: int)
      requires count == |log|
      ensures retry == RetryOf(cfg, Request(now, cost), Scores(log))
    {
      if count == 0 {
        retry := cfg.windowMs;
      } else {
        var kMin := count + cost - cfg.limit;
        if kMin < 1 {
          kMin := 1;
        }
        if kMin > count {
          kMin := count;
        }
        retry := log[kMin - 1].score + cfg.windowMs - now;
        if retry < 1 {
          retry := 1;
        }
      }
    }

    /** The branch of an admission. */
    method Accept(now: int, cost: int, count: int) returns (reply: Reply)
      requires count == |log| && count + cost <= cfg.limit
      modifies this
      ensures log == AddUnits(old(log), now, count, cost) && expiresAt == now + Max(cfg.windowMs, 1)
      ensures reply == Answer(cfg, Request(now, cost), Scores(old(log)), Scores(log))
      ensures admitted == old(admitted) + [Request(now, cost)]
    {
      hide AddUnits, Oldest, RetryOf;
      assert |Scores(log)| == count;
      hide Scores;
      Add(now, count, cost);
      var px := cfg.windowMs;
      if px < 1 {
        px := 1;
      }
      expiresAt := now + px;
      admitted := admitted + [Request(now, cost)];
      var oldest := OldestScore(now);
      var remaining := cfg.limit - (count + cost);
      if remaining < 0 {
        remaining := 0;
      }
      return Reply(true, cfg.limit, remaining, oldest + cfg.windowMs, 0);
    }

    /** The branch of a denial. */
    method Refuse(now: int, cost: int, count: int) returns (reply: Reply)
      requires count == |log| && count + cost > cfg.limit
      ensures reply == Answer(cfg, Request(now, cost), Scores(log), Scores(log))
    {
      hide Oldest, RetryOf;
      assert |Scores(log)| == count;
      hide Scores;
      var retry := RetryAfter(now, cost, count);
      var oldest := OldestScore(now);
      var remaining := cfg.limit - count;
      if remaining < 0 {
        remaining := 0;
      }
      return Reply(false, cfg.limit, remaining, oldest + cfg.windowMs, retry);
    }

    method Run(now: int, cost: int) returns (reply: Reply)
      modifies this
      ensures (Contents(), reply) == Check(cfg, old(Contents()), Request(now, cost))
      ensures admitted == if reply.allowed then old(admitted) + [Request(now, cost)] else old(admitted)
    {
      hide Check, Purge, AddUnits, Scores, Kept;
      CheckOnLog(cfg, log, expiresAt, Request(now, cost));
      log := Purge(log, now - cfg.windowMs);
      var count := |log|;
      AnswerAllows(cfg, Request(now, cost), log, if count + cost <= cfg.limit then AddUnits(log, now, count, cost) else log);
      hide Answer;
      if count + cost <= cfg.limit {
        reply := Accept(now, cost, count);
      } else {
        reply := Refuse(now, cost, count);
      }
    }
  }
}
