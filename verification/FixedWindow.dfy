/**
 The fixed window script: one counter, tagged with the start of the epoch-aligned window it counts.
 */
module FixedWindow {
  import opened Rounding
  import opened Runs

  datatype RawConfig = Config(limit: int, windowMs: int)

  type Config = c: RawConfig | c.limit > 0 && c.windowMs > 0 witness Config(1, 1)

  /** The stored fields: `s`, the window's start, and `c`, the units counted in it. */
  datatype Counter = Counter(start: int, count: int)

  /** The number of the window that `now` falls in. */
  function Index(cfg: Config, now: int): int {
    FloorDiv(now, cfg.windowMs)
  }

  function WindowStart(cfg: Config, now: int): int {
    Index(cfg, now) * cfg.windowMs
  }

  /** The units already counted in the window that starts at `start`. */
  function Counted(key: Key<Counter>, start: int): int {
    if key.Stored? && key.value.start == start then key.value.count else 0
  }

  /** The reply to a request once the window's count is known. */
  function Answer(cfg: Config, q: Request, count: int): Reply {
    var resetAt := WindowStart(cfg, q.now) + cfg.windowMs;
    if count + q.cost <= cfg.limit then
      Reply(true, cfg.limit, cfg.limit - (count + q.cost), resetAt, 0)
    else
      Reply(false, cfg.limit, Max(cfg.limit - count, 0), resetAt, resetAt - q.now)
  }

  function Check(cfg: Config, key: Key<Counter>, q: Request): (Key<Counter>, Reply) {
    var start := WindowStart(cfg, q.now);
    var count := Counted(key, start);
    var reply := Answer(cfg, q, count);
    if reply.allowed then
      (Stored(Counter(start, count + q.cost), q.now + Max(reply.resetAt - q.now, 1)), reply)
    else
      (key, reply)
  }

  function Script(cfg: Config): Step<Key<Counter>> {
    (key: Key<Counter>, q: Request) => Check(cfg, key, q)
  }

  // ---------- One counter does the work of a complete record ----------

  /** The instants of window `i`. */
  function InWindow(cfg: Config, i: int): int -> bool {
    t => Index(cfg, t) == i
  }

  /** The instants of a span of `windowMs`. */
  function Span(cfg: Config, from: int): int -> bool {
    t => from <= t < from + cfg.windowMs
  }

  /** The units of `h` in window `i`. */
  function Used(cfg: Config, h: seq<Request>, i: int): int {
    CostWhere(h, InWindow(cfg, i))
  }

  /** The limiter that keeps every admitted request for ever and counts them again at each check. */
  function Remembering(cfg: Config): Step<seq<Request>> {
    (h: seq<Request>, q: Request) =>
      var reply := Answer(cfg, q, Used(cfg, h, Index(cfg, q.now)));
      (if reply.allowed then h + [q] else h, reply)
  }

  lemma {:induction false} UsedExtends(cfg: Config, h: seq<Request>, q: Request, i: int)
    ensures Used(cfg, h + [q], i) == Used(cfg, h, i) + if Index(cfg, q.now) == i then q.cost else 0
  {}

  /** The counter agrees with the record on the current window; neither knows of a later one. */
  ghost predicate Tracks(cfg: Config, key: Key<Counter>, h: seq<Request>, t: int) {
    && (forall i :: i >= Index(cfg, t) ==> Counted(key, i * cfg.windowMs) == Used(cfg, h, i))
    && (forall i :: i > Index(cfg, t) ==> Used(cfg, h, i) == 0)
  }

  lemma {:induction false} IndexMonotone(cfg: Config, t: int, later: int)
    requires t <= later
    ensures Index(cfg, t) <= Index(cfg, later)
  {
    FloorBounds(t, cfg.windowMs);
    AtMostFloor(Index(cfg, t), later, cfg.windowMs);
  }

  lemma {:induction false} SameStart(cfg: Config, i: int, j: int)
    ensures i * cfg.windowMs == j * cfg.windowMs <==> i == j
  {}

  lemma {:induction false} TracksStep(cfg: Config, key: Key<Counter>, h: seq<Request>, t: int, q: Request)
    requires Tracks(cfg, key, h, t) && t <= q.now
    ensures Check(cfg, key, q).1 == Remembering(cfg)(h, q).1
    ensures Tracks(cfg, Check(cfg, key, q).0, Remembering(cfg)(h, q).0, q.now)
  {
    var c := Index(cfg, q.now);
    IndexMonotone(cfg, t, q.now);
    hide FloorDiv, CostWhere, Index;
    assert Counted(key, c * cfg.windowMs) == Used(cfg, h, c);
    var after, record := Check(cfg, key, q).0, Remembering(cfg)(h, q).0;
    forall i | i >= c
      ensures Counted(after, i * cfg.windowMs) == Used(cfg, record, i)
      ensures i > c ==> Used(cfg, record, i) == 0
    {
      assert Counted(key, i * cfg.windowMs) == Used(cfg, h, i);
      UsedExtends(cfg, h, q, i);
      SameStart(cfg, i, c);
    }
  }

  lemma {:induction false} RecordIsAdmitted(cfg: Config, requests: seq<Request>)
    ensures Run(Remembering(cfg), [], requests).state == Run(Remembering(cfg), [], requests).admitted
  {
    hide Answer, Used;
    if requests != [] {
      RecordIsAdmitted(cfg, requests[..|requests| - 1]);
    }
  }

  lemma {:induction false} SameAsRemembering(cfg: Config, requests: seq<Request>)
    requires Nondecreasing(requests)
    ensures Run(Script(cfg), Absent, requests).replies == Run(Remembering(cfg), [], requests).replies
    ensures Run(Script(cfg), Absent, requests).admitted == Run(Remembering(cfg), [], requests).state
  {
    var related := (key: Key<Counter>, h: seq<Request>, t: int) => Tracks(cfg, key, h, t);
    forall key, h, t: int, q: Request | related(key, h, t) && t <= q.now
      ensures Script(cfg)(key, q).1 == Remembering(cfg)(h, q).1
      ensures related(Script(cfg)(key, q).0, Remembering(cfg)(h, q).0, q.now)
    {
      TracksStep(cfg, key, h, t, q);
    }
    Simulation(Script(cfg), Absent, Remembering(cfg), [], related, requests);
    RecordIsAdmitted(cfg, requests);
  }

  // ---------- Bounds over whole runs ----------

  lemma {:induction false} RecordWithinLimit(cfg: Config, requests: seq<Request>, i: int)
    ensures Used(cfg, Run(Remembering(cfg), [], requests).state, i) <= cfg.limit
  {
    hide FloorDiv, Index;
    if requests != [] {
      var n := |requests| - 1;
      RecordWithinLimit(cfg, requests[..n], i);
      UsedExtends(cfg, Run(Remembering(cfg), [], requests[..n]).state, requests[n], i);
    }
  }

  lemma {:induction false} EachWindowWithinLimit(cfg: Config, requests: seq<Request>, i: int)
    requires Nondecreasing(requests)
    ensures Used(cfg, Run(Script(cfg), Absent, requests).admitted, i) <= cfg.limit
  {
    SameAsRemembering(cfg, requests);
    RecordWithinLimit(cfg, requests, i);
  }

  /** Any `windowMs` in a row admit at most twice the limit. */
  lemma {:induction false} AnySpanWithinTwiceLimit(cfg: Config, requests: seq<Request>, from: int)
    requires Nondecreasing(requests) && Positive(requests)
    ensures CostWhere(Run(Script(cfg), Absent, requests).admitted, Span(cfg, from)) <= 2 * cfg.limit
  {
    var h := Run(Script(cfg), Absent, requests).admitted;
    var i := Index(cfg, from);
    AdmittedKeepsOrder(Script(cfg), Absent, requests);
    EachWindowWithinLimit(cfg, requests, i);
    EachWindowWithinLimit(cfg, requests, i + 1);
    FloorBounds(from, cfg.windowMs);
    hide Script, Run;
    forall t | from <= t < from + cfg.windowMs
      ensures Index(cfg, t) in {i, i + 1}
    {
      IndexMonotone(cfg, from, t);
      AtMostFloor(i + 2, t, cfg.windowMs);
      OneMore(i, cfg.windowMs);
      OneMore(i + 1, cfg.windowMs);
    }
    CostWhereCovered(h, Span(cfg, from), InWindow(cfg, i), InWindow(cfg, i + 1));
  }

  // ---------- What the reply fields promise ----------

  predicate Allows(cfg: Config, key: Key<Counter>, now: int, cost: int) {
    Counted(key, WindowStart(cfg, now)) + cost <= cfg.limit
  }

  lemma {:induction false} WindowBounds(cfg: Config, now: int)
    ensures WindowStart(cfg, now) <= now < WindowStart(cfg, now) + cfg.windowMs
  {
    FloorBounds(now, cfg.windowMs);
  }

  /** `remaining` is the largest cost a second check at the same instant can have. */
  lemma {:induction false} RemainingIsExact(cfg: Config, key: Key<Counter>, q: Request, k: int)
    requires k >= 1
    ensures var (after, reply) := Check(cfg, key, q);
            && reply.limit == cfg.limit
            && 0 <= reply.remaining
            && (reply.allowed <==> Allows(cfg, key, q.now, q.cost))
            && (reply.allowed ==> reply.retryAfterMs == 0)
            && (Allows(cfg, after, q.now, k) <==> k <= reply.remaining)
  {}

  /** No counter can be running for a window that has not begun. */
  predicate CountedBy(key: Key<Counter>, now: int) {
    key.Stored? ==> key.value.start <= now
  }

  /** So it is with every run on a nondecreasing clock, and the count is never negative. */
  lemma {:induction false} RunIsCounted(cfg: Config, requests: seq<Request>, now: int)
    requires Nondecreasing(requests) && Positive(requests)
    requires requests != [] ==> requests[|requests| - 1].now <= now
    ensures var key := Run(Script(cfg), Absent, requests).state;
            CountedBy(key, now) && (key.Stored? ==> key.value.count >= 0)
  {
    if requests != [] {
      RunIsCounted(cfg, requests[..|requests| - 1], requests[|requests| - 1].now);
      WindowBounds(cfg, requests[|requests| - 1].now);
      hide FloorDiv, WindowStart;
    }
  }

  lemma {:induction false} LaterWindow(cfg: Config, now: int, t: int)
    requires now <= t
    ensures WindowStart(cfg, t) == WindowStart(cfg, now) <==> t < WindowStart(cfg, now) + cfg.windowMs
    ensures t >= WindowStart(cfg, now) + cfg.windowMs ==> WindowStart(cfg, t) > now
  {
    var i := Index(cfg, now);
    WindowBounds(cfg, now);
    IndexMonotone(cfg, now, t);
    AtMostFloor(i + 1, t, cfg.windowMs);
    OneMore(i, cfg.windowMs);
    SameStart(cfg, Index(cfg, t), i);
    if Index(cfg, t) > i {
      MulLe(i + 1, Index(cfg, t), cfg.windowMs);
    }
  }

  /**
   A denied request that fits the limit at all is admitted at a later `t` exactly when the wait
   reaches `retryAfterMs`; one that does not fit is denied after every wait.
   */
  lemma {:induction false} RetryIsExactIffCostFits(cfg: Config, key: Key<Counter>, q: Request)
    requires !Allows(cfg, key, q.now, q.cost) && CountedBy(key, q.now) && (key.Stored? ==> key.value.count >= 0)
    ensures var (after, reply) := Check(cfg, key, q);
            && after == key && reply.retryAfterMs >= 1
            && ((forall t | t >= q.now :: Allows(cfg, key, t, q.cost) <==> t >= q.now + reply.retryAfterMs)
                <==> q.cost <= cfg.limit)
  {
    var retry := Check(cfg, key, q).1.retryAfterMs;
    WindowBounds(cfg, q.now);
    hide FloorDiv, WindowStart;
    forall t | t >= q.now
      ensures t < q.now + retry ==> !Allows(cfg, key, t, q.cost)
      ensures t >= q.now + retry ==> (Allows(cfg, key, t, q.cost) <==> q.cost <= cfg.limit)
    {
      LaterWindow(cfg, q.now, t);
    }
    assert Allows(cfg, key, q.now + retry, q.cost) <==> q.cost <= cfg.limit;
  }

  /** The whole limit is there at `t`: every cost up to it is admitted, and no larger one. */
  ghost predicate Full(cfg: Config, key: Key<Counter>, t: int) {
    forall k | k >= 1 :: Allows(cfg, key, t, k) <==> k <= cfg.limit
  }

  /** After an admission, `resetAt` is the first instant at which the whole limit is free again. */
  lemma {:induction false} ResetIsFirstFullInstant(cfg: Config, key: Key<Counter>, q: Request, t: int)
    requires q.cost >= 1 && q.now <= t && CountedBy(key, q.now) && (key.Stored? ==> key.value.count >= 0)
    ensures var (after, reply) := Check(cfg, key, q);
            && (t >= reply.resetAt ==> Full(cfg, after, t))
            && (reply.allowed && t < reply.resetAt ==> !Full(cfg, after, t))
  {
    var (after, reply) := Check(cfg, key, q);
    WindowBounds(cfg, q.now);
    LaterWindow(cfg, q.now, t);
    hide FloorDiv, WindowStart;
    assert Full(cfg, after, t) ==> Allows(cfg, after, t, cfg.limit);
  }

  // ---------- Expiry ----------

  /**
   For every reply, `resetAt` is the first instant of the next window. A denied request waits for it, whatever
   its cost, and leaves the key as it was; an admission keeps its key until then.
   */
  lemma {:induction false} ResetIsNextWindow(cfg: Config, key: Key<Counter>, q: Request, t: int)
    ensures var (after, reply) := Check(cfg, key, q);
            && (t >= reply.resetAt <==> Index(cfg, t) > Index(cfg, q.now))
            && (!reply.allowed ==> q.now + reply.retryAfterMs == reply.resetAt && after == key)
            && (reply.allowed ==> after.Stored? && after.deadline == reply.resetAt)
  {
    AtMostFloor(Index(cfg, q.now) + 1, t, cfg.windowMs);
    OneMore(Index(cfg, q.now), cfg.windowMs);
    WindowBounds(cfg, q.now);
    hide FloorDiv, Counted;
  }

  /** The same key, or an absent one beside a counter whose window is over. */
  ghost predicate SameForLater(cfg: Config, k: Key<Counter>, l: Key<Counter>, t: int) {
    && CountedBy(l, t)
    && (k == l || (k == Absent && l.value.start < WindowStart(cfg, t)))
    && (l.Stored? ==> l.value.start == WindowStart(cfg, l.value.start) && l.deadline >= l.value.start + cfg.windowMs)
  }

  lemma {:induction false} StartIsAligned(cfg: Config, now: int)
    ensures WindowStart(cfg, WindowStart(cfg, now)) == WindowStart(cfg, now)
  {
    FloorUnique(WindowStart(cfg, now), cfg.windowMs, Index(cfg, now));
  }

  lemma {:induction false} SameForLaterStep(cfg: Config, k: Key<Counter>, l: Key<Counter>, t: int, q: Request)
    requires SameForLater(cfg, k, l, t) && t <= q.now
    ensures Check(cfg, k, q).1 == Check(cfg, l, q).1
    ensures SameForLater(cfg, Check(cfg, k, q).0, Check(cfg, l, q).0, q.now)
  {
    IndexMonotone(cfg, t, q.now);
    MulLe(Index(cfg, t), Index(cfg, q.now), cfg.windowMs);
    StartIsAligned(cfg, q.now);
    WindowBounds(cfg, q.now);
    assert WindowStart(cfg, t) <= WindowStart(cfg, q.now);
    hide FloorDiv, WindowStart;
  }

  /** Redis may drop the key at any instant from its deadline on: no reply of the run changes. */
  lemma {:induction false} ExpiryIsInvisible(cfg: Config, requests: seq<Request>, gone: seq<bool>)
    requires |gone| == |requests| && Nondecreasing(requests)
    ensures RunExpiring(Script(cfg), requests, gone).replies == Run(Script(cfg), Absent, requests).replies
  {
    var related := (k: Key<Counter>, l: Key<Counter>, t: int) => SameForLater(cfg, k, l, t);
    forall k, l, t: int, q: Request | related(k, l, t) && t <= q.now
      ensures Script(cfg)(k, q).1 == Script(cfg)(l, q).1
      ensures related(Script(cfg)(k, q).0, Script(cfg)(l, q).0, q.now)
    {
      SameForLaterStep(cfg, k, l, t, q);
    }
    forall k, l, t: int, later: int | related(k, l, t) && t <= later && k.Stored? && k.deadline <= later
      ensures related(Absent, l, later)
    {
      LaterWindow(cfg, l.value.start, later);
    }
    ExpirySimulation(Script(cfg), related, requests, gone);
  }

  // ---------- The script itself ----------

  /** One Redis key and the script's body, statement by statement. */
  class Limiter {
    const cfg: Config
    var stored: bool
    var start: int
    var count: int
    var expiresAt: int
    /** What this limiter has admitted. */
    ghost var admitted: seq<Request>

    /** The key as the specification sees it. */
    ghost function Contents(): Key<Counter>
      reads this
    {
      if stored then Stored(Counter(start, count), expiresAt) else Absent
    }

    constructor (cfg: Config)
      ensures this.cfg == cfg && Contents() == Absent && admitted == []
    {
      this.cfg := cfg;
      stored, start, count, expiresAt, admitted := false, 0, 0, 0, [];
    }

    method Expire(now: int)
      modifies this
      ensures var was := old(Contents());
              Contents() == Vanish(was, now, true) == if was.Stored? && was.deadline <= now then Absent else was
      ensures admitted == old(admitted)
    {
      if stored && expiresAt <= now {
        stored := false;
      }
    }

    method Run(now: int, cost: int) returns (reply: Reply)
      modifies this
      ensures (Contents(), reply) == Check(cfg, old(Contents()), Request(now, cost))
      ensures admitted == if reply.allowed then old(admitted) + [Request(now, cost)] else old(admitted)
    {
      var windowStart := now / cfg.windowMs * cfg.windowMs;
      FloorIsQuotient(now, cfg.windowMs);
      hide FloorDiv;
      var resetAt := windowStart + cfg.windowMs;
      var count := this.count;
      if !stored || start != windowStart {
        count := 0;
      }
      if count + cost <= cfg.limit {
        var newCount := count + cost;
        var px := resetAt - now;
        if px < 1 {
          px := 1;
        }
        stored, start, this.count, expiresAt := true, windowStart, newCount, now + px;
        admitted := admitted + [Request(now, cost)];
        return Reply(true, cfg.limit, cfg.limit - newCount, resetAt, 0);
      }
      var remaining := cfg.limit - count;
      if remaining < 0 {
        remaining := 0;
      }
      return Reply(false, cfg.limit, remaining, resetAt, resetAt - now);
    }
  }
}
