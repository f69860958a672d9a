/**
 The GCRA script. Times in the specification are multiplied by `limit`, so that the emission
 interval `T = period / limit` becomes the integer `periodMs` and every value stays exact.
 */
module Gcra {
  import opened Rounding
  import opened Runs

  datatype RawConfig = Config(periodMs: int, limit: int, burst: int)

  type Config = c: RawConfig | c.periodMs > 0 && c.limit > 0 && c.burst > 0 witness Config(1, 1, 1)

  /** The theoretical arrival time the script goes on with, in units of 1/limit ms. */
  function Base(cfg: Config, key: Key<int>, now: int): int {
    if key.Stored? && key.value >= now * cfg.limit then key.value else now * cfg.limit
  }

  /** `now >= allow_at`: the new arrival time is at most a full burst ahead of the clock. */
  predicate Allows(cfg: Config, key: Key<int>, now: int, cost: int) {
    Base(cfg, key, now) + cfg.periodMs * cost - cfg.periodMs * cfg.burst <= now * cfg.limit
  }

  /** Whole units left when the arrival time is `ahead` of the clock. */
  function Room(cfg: Config, ahead: int): int {
    Max(FloorDiv(cfg.periodMs * cfg.burst - ahead, cfg.periodMs), 0)
  }

  function Check(cfg: Config, key: Key<int>, q: Request): (Key<int>, Reply) {
    var now := q.now * cfg.limit;
    var tat := Base(cfg, key, q.now);
    var newTat := tat + cfg.periodMs * q.cost;
    if !Allows(cfg, key, q.now, q.cost) then
      (key, Reply(false, cfg.burst, Room(cfg, tat - now), CeilDiv(tat, cfg.limit),
                  CeilDiv(newTat - cfg.periodMs * cfg.burst - now, cfg.limit)))
    else
      (Stored(newTat, q.now + Max(CeilDiv(newTat - now, cfg.limit), 1)),
       Reply(true, cfg.burst, Room(cfg, newTat - now), CeilDiv(newTat, cfg.limit), 0))
  }

  function Script(cfg: Config): Step<Key<int>> {
    (key: Key<int>, q: Request) => Check(cfg, key, q)
  }

  // ---------- Admission is a condition on every suffix of what was admitted ----------

  /** When the work admitted from request `i` on is drained, had the queue been empty at its arrival. */
  function Drained(cfg: Config, h: seq<Request>, i: nat): int
    requires i < |h|
  {
    h[i].now * cfg.limit + cfg.periodMs * Cost(h[i..])
  }

  lemma {:induction false} DrainedExtends(cfg: Config, h: seq<Request>, q: Request, i: nat)
    requires i <= |h|
    ensures Drained(cfg, h + [q], i)
            == if i < |h| then Drained(cfg, h, i) + cfg.periodMs * q.cost
               else q.now * cfg.limit + cfg.periodMs * q.cost
  {
    assert (h + [q])[i..] == h[i..] + [q];
    assert (h[i..] + [q])[..|h| - i] == h[i..];
    assert Cost(h[i..] + [q]) == Cost(h[i..]) + q.cost;
    if i == |h| {
      assert Cost(h[i..]) == 0;
    }
    assert cfg.periodMs * (Cost(h[i..]) + q.cost) == cfg.periodMs * Cost(h[i..]) + cfg.periodMs * q.cost;
  }

  /** `tat` is the latest of the drain times of all suffixes. */
  ghost predicate IsLatestDrain(cfg: Config, h: seq<Request>, tat: int) {
    && (forall i | 0 <= i < |h| :: Drained(cfg, h, i) <= tat)
    && (exists i :: 0 <= i < |h| && Drained(cfg, h, i) == tat)
  }

  lemma {:induction false} LatestDrainExtends(cfg: Config, h: seq<Request>, key: Key<int>, q: Request)
    requires if h == [] then key == Absent else key.Stored? && IsLatestDrain(cfg, h, key.value)
    ensures IsLatestDrain(cfg, h + [q], Base(cfg, key, q.now) + cfg.periodMs * q.cost)
  {
    hide Drained;
    var tat := Base(cfg, key, q.now) + cfg.periodMs * q.cost;
    assert tat >= q.now * cfg.limit + cfg.periodMs * q.cost;
    forall i | 0 <= i <= |h|
      ensures Drained(cfg, h + [q], i) <= tat
    {
      DrainedExtends(cfg, h, q, i);
    }
    DrainedExtends(cfg, h, q, |h|);
    if Base(cfg, key, q.now) != q.now * cfg.limit {
      var i :| 0 <= i < |h| && Drained(cfg, h, i) == key.value;
      DrainedExtends(cfg, h, q, i);
    }
  }

  lemma {:induction false} TatIsLatestDrain(cfg: Config, requests: seq<Request>)
    ensures var t := Run(Script(cfg), Absent, requests);
            if t.admitted == [] then t.state == Absent
            else t.state.Stored? && IsLatestDrain(cfg, t.admitted, t.state.value)
  {
    hide IsLatestDrain, FloorDiv, CeilDiv;
    if requests != [] {
      var n := |requests| - 1;
      var q := requests[n];
      TatIsLatestDrain(cfg, requests[..n]);
      var before := Run(Script(cfg), Absent, requests[..n]);
      if Allows(cfg, before.state, q.now, q.cost) {
        LatestDrainExtends(cfg, before.admitted, before.state, q);
      }
    }
  }

  ghost predicate StretchFits(cfg: Config, h: seq<Request>, i: int, j: int)
    requires 0 <= i <= j < |h|
  {
    cfg.periodMs * Cost(h[i..j + 1]) <= cfg.periodMs * cfg.burst + (h[j].now - h[i].now) * cfg.limit
  }

  ghost predicate SuffixFits(cfg: Config, h: seq<Request>, i: int)
    requires 0 <= i < |h|
  {
    StretchFits(cfg, h, i, |h| - 1)
  }

  /** From every request of `h` to its last one, the cost fits in the burst plus what drained meanwhile. */
  ghost predicate Conforms(cfg: Config, h: seq<Request>) {
    forall i | 0 <= i < |h| :: SuffixFits(cfg, h, i)
  }

  lemma {:induction false} SuffixFitsIff(cfg: Config, h: seq<Request>, i: int)
    requires 0 <= i < |h|
    ensures SuffixFits(cfg, h, i)
            <==> Drained(cfg, h, i) <= h[|h| - 1].now * cfg.limit + cfg.periodMs * cfg.burst
  {
    assert h[i..|h| - 1 + 1] == h[i..];
    var late, early := h[|h| - 1].now, h[i].now;
    assert (late - early) * cfg.limit == late * cfg.limit - early * cfg.limit;
  }

  lemma {:induction false} LatestDrainDecides(cfg: Config, h: seq<Request>, tat: int)
    requires h != [] && IsLatestDrain(cfg, h, tat)
    ensures Conforms(cfg, h) <==> tat <= h[|h| - 1].now * cfg.limit + cfg.periodMs * cfg.burst
  {
    forall i | 0 <= i < |h|
      ensures SuffixFits(cfg, h, i)
              <==> Drained(cfg, h, i) <= h[|h| - 1].now * cfg.limit + cfg.periodMs * cfg.burst
    {
      SuffixFitsIff(cfg, h, i);
    }
    var last :| 0 <= last < |h| && Drained(cfg, h, last) == tat;
    assert Conforms(cfg, h) ==> SuffixFits(cfg, h, last);
  }

  lemma {:induction false} AdmitsIffEverySuffixConforms(cfg: Config, requests: seq<Request>, q: Request)
    ensures var t := Run(Script(cfg), Absent, requests);
            Allows(cfg, t.state, q.now, q.cost) <==> Conforms(cfg, t.admitted + [q])
  {
    var t := Run(Script(cfg), Absent, requests);
    TatIsLatestDrain(cfg, requests);
    LatestDrainExtends(cfg, t.admitted, t.state, q);
    LatestDrainDecides(cfg, t.admitted + [q], Base(cfg, t.state, q.now) + cfg.periodMs * q.cost);
  }

  lemma {:induction false} StretchStays(cfg: Config, h: seq<Request>, q: Request, i: int, j: int)
    requires 0 <= i <= j < |h| && StretchFits(cfg, h, i, j)
    ensures StretchFits(cfg, h + [q], i, j)
  {
    assert (h + [q])[i..j + 1] == h[i..j + 1];
  }

  lemma {:induction false} NoStretchExceedsBurst(cfg: Config, requests: seq<Request>, i: int, j: int)
    requires 0 <= i <= j < |Run(Script(cfg), Absent, requests).admitted|
    ensures StretchFits(cfg, Run(Script(cfg), Absent, requests).admitted, i, j)
  {
    var n := |requests| - 1;
    var h := Run(Script(cfg), Absent, requests[..n]).admitted;
    assert Run(Script(cfg), Absent, requests).admitted in {h, h + [requests[n]]};
    if j < |h| {
      NoStretchExceedsBurst(cfg, requests[..n], i, j);
      StretchStays(cfg, h, requests[n], i, j);
    } else {
      AdmitsIffEverySuffixConforms(cfg, requests[..n], requests[n]);
      assert SuffixFits(cfg, h + [requests[n]], i);
    }
  }

  // ---------- What the reply fields promise ----------

  lemma {:induction false} CostIsPositive(cfg: Config, cost: int)
    requires cost >= 1
    ensures cfg.periodMs * cost >= 1
  {}

  /** `remaining` is the largest cost a second check at the same instant can have. */
  lemma {:induction false} RemainingIsExact(cfg: Config, key: Key<int>, q: Request, k: int)
    requires q.cost >= 1 && k >= 1
    ensures var (after, reply) := Check(cfg, key, q);
            && reply.limit == cfg.burst
            && (reply.allowed <==> Allows(cfg, key, q.now, q.cost))
            && (reply.allowed ==> reply.retryAfterMs == 0)
            && 0 <= reply.remaining
            && (Allows(cfg, after, q.now, k) <==> k <= reply.remaining)
  {
    var (after, reply) := Check(cfg, key, q);
    CostIsPositive(cfg, q.cost);
    AtMostFloor(k, cfg.periodMs * cfg.burst - (Base(cfg, after, q.now) - q.now * cfg.limit), cfg.periodMs);
  }

  lemma {:induction false} AllowsIff(cfg: Config, key: Key<int>, t: int, k: int)
    ensures Allows(cfg, key, t, k)
            <==> && k <= cfg.burst
                 && (key.Stored? ==> key.value + cfg.periodMs * k - cfg.periodMs * cfg.burst <= t * cfg.limit)
  {
    if k <= cfg.burst {
      MulLe(k, cfg.burst, cfg.periodMs);
    } else {
      MulLe(cfg.burst + 1, k, cfg.periodMs);
    }
  }

  /**
   A denied request that fits the burst at all is admitted at a later `t` exactly when the wait
   reaches `retryAfterMs`; one that does not fit is denied after every wait.
   */
  lemma {:induction false} RetryIsExactIffCostFits(cfg: Config, key: Key<int>, q: Request)
    requires !Allows(cfg, key, q.now, q.cost)
    ensures var (after, reply) := Check(cfg, key, q);
            && after == key && reply.retryAfterMs >= 1
            && ((forall t | t >= q.now :: Allows(cfg, key, t, q.cost) <==> t >= q.now + reply.retryAfterMs)
                <==> q.cost <= cfg.burst)
  {
    var retry := Check(cfg, key, q).1.retryAfterMs;
    var goal := Base(cfg, key, q.now) + cfg.periodMs * q.cost - cfg.periodMs * cfg.burst;
    CeilAtMost(goal - q.now * cfg.limit, cfg.limit, 0);
    AllowsIff(cfg, key, q.now, q.cost);
    if q.cost <= cfg.burst {
      forall t | t >= q.now
        ensures Allows(cfg, key, t, q.cost) <==> t >= q.now + retry
      {
        AllowsIff(cfg, key, t, q.cost);
        CeilAtMost(goal - q.now * cfg.limit, cfg.limit, t - q.now);
        assert (t - q.now) * cfg.limit == t * cfg.limit - q.now * cfg.limit;
      }
    } else {
      AllowsIff(cfg, key, q.now + retry, q.cost);
    }
  }

  /** The whole burst is there at `t`: every cost up to it is admitted, and no larger one. */
  ghost predicate Full(cfg: Config, key: Key<int>, t: int) {
    forall k | k >= 1 :: Allows(cfg, key, t, k) <==> k <= cfg.burst
  }

  lemma {:induction false} FullIff(cfg: Config, key: Key<int>, t: int)
    ensures Full(cfg, key, t) <==> (key.Stored? ==> key.value <= t * cfg.limit)
  {
    AllowsIff(cfg, key, t, cfg.burst);
    if key.Stored? ==> key.value <= t * cfg.limit {
      forall k | k >= 1
        ensures Allows(cfg, key, t, k) <==> k <= cfg.burst
      {
        AllowsIff(cfg, key, t, k);
        if k <= cfg.burst {
          MulLe(k, cfg.burst, cfg.periodMs);
        }
      }
    }
  }

  /** With no admission in between, `resetAt` is the first instant at which the whole burst is free again. */
  lemma {:induction false} ResetIsFirstFullInstant(cfg: Config, key: Key<int>, q: Request, t: int)
    requires q.cost >= 1 && q.now <= t
    ensures var (after, reply) := Check(cfg, key, q);
            Full(cfg, after, t) <==> t >= reply.resetAt
  {
    var (after, reply) := Check(cfg, key, q);
    CostIsPositive(cfg, q.cost);
    CeilAtMost(Base(cfg, after, q.now), cfg.limit, t);
    MulLe(q.now, t, cfg.limit);
    FullIff(cfg, after, t);
  }

  /**
   The wait of a denied request, for costs above the burst as well: the first instant at which the clock has
   caught up with the arrival time it asks for, but for a burst. The key is left as it was.
   */
  lemma {:induction false} RetryIsWhenItWouldConform(cfg: Config, key: Key<int>, q: Request, t: int)
    requires !Allows(cfg, key, q.now, q.cost)
    ensures var (after, reply) := Check(cfg, key, q);
            && !reply.allowed && after == key
            && (t >= q.now + reply.retryAfterMs
                <==> Base(cfg, key, q.now) + cfg.periodMs * q.cost <= t * cfg.limit + cfg.periodMs * cfg.burst)
  {
    hide Base, CeilDiv;
    var allowAt := Base(cfg, key, q.now) + cfg.periodMs * q.cost - cfg.periodMs * cfg.burst;
    CeilAtMost(allowAt - q.now * cfg.limit, cfg.limit, t - q.now);
    assert (t - q.now) * cfg.limit == t * cfg.limit - q.now * cfg.limit;
  }

  /** An admission keeps its key for exactly as long as it matters: to the instant it is fully replenished. */
  lemma {:induction false} DeadlineIsReset(cfg: Config, key: Key<int>, q: Request)
    requires q.cost >= 1 && Allows(cfg, key, q.now, q.cost)
    ensures var (after, reply) := Check(cfg, key, q);
            reply.allowed && after.Stored? && after.deadline == reply.resetAt
  {
    var newTat := Base(cfg, key, q.now) + cfg.periodMs * q.cost;
    CostIsPositive(cfg, q.cost);
    CeilShift(newTat - q.now * cfg.limit, cfg.limit, q.now);
    CeilAtMost(newTat - q.now * cfg.limit, cfg.limit, 0);
    hide CeilDiv;
  }

  // ---------- Expiry ----------

  /** The same key, or an absent one beside a stored one that has drained. */
  ghost predicate SameForLater(cfg: Config, k: Key<int>, l: Key<int>, t: int) {
    && (k == l || (k == Absent && l.value <= t * cfg.limit))
    && (l.Stored? ==> l.value <= l.deadline * cfg.limit)
  }

  lemma {:induction false} SameForLaterStep(cfg: Config, k: Key<int>, l: Key<int>, t: int, q: Request)
    requires SameForLater(cfg, k, l, t) && t <= q.now
    ensures Check(cfg, k, q).1 == Check(cfg, l, q).1
    ensures SameForLater(cfg, Check(cfg, k, q).0, Check(cfg, l, q).0, q.now)
  {
    MulLe(t, q.now, cfg.limit);
    var newTat := Base(cfg, l, q.now) + cfg.periodMs * q.cost;
    var px := CeilDiv(newTat - q.now * cfg.limit, cfg.limit);
    CeilBounds(newTat - q.now * cfg.limit, cfg.limit);
    MulLe(px, Max(px, 1), cfg.limit);
    assert (q.now + Max(px, 1)) * cfg.limit == q.now * cfg.limit + Max(px, 1) * cfg.limit;
  }

  /** Redis may drop the key at any instant from its deadline on: no reply of the run changes. */
  lemma {:induction false} ExpiryIsInvisible(cfg: Config, requests: seq<Request>, gone: seq<bool>)
    requires |gone| == |requests| && Nondecreasing(requests)
    ensures RunExpiring(Script(cfg), requests, gone).replies == Run(Script(cfg), Absent, requests).replies
  {
    var related := (k: Key<int>, l: Key<int>, t: int) => SameForLater(cfg, k, l, t);
    forall k, l, t: int, q: Request | related(k, l, t) && t <= q.now
      ensures Script(cfg)(k, q).1 == Script(cfg)(l, q).1
      ensures related(Script(cfg)(k, q).0, Script(cfg)(l, q).0, q.now)
    {
      SameForLaterStep(cfg, k, l, t, q);
    }
    forall k, l, t: int, later: int | related(k, l, t) && t <= later && k.Stored? && k.deadline <= later
      ensures related(Absent, l, later)
    {
      MulLe(k.deadline, later, cfg.limit);
    }
    ExpirySimulation(Script(cfg), related, requests, gone);
  }

  // ---------- The script itself, on exact real numbers ----------

  ghost predicate Scales(cfg: Config, x: real, a: int) {
    x * cfg.limit as real == a as real
  }

  /** `T = period / limit` and `tau = T * burst`. */
  ghost predicate Interval(cfg: Config, T: real, tau: real) {
    && T > 0.0 && T * cfg.limit as real == cfg.periodMs as real
    && Scales(cfg, tau, cfg.periodMs * cfg.burst)
  }

  lemma {:induction false} BaseScaled(cfg: Config, key: Key<int>, tat: real, now: int)
    requires key.Stored? ==> Scales(cfg, tat, key.value)
    ensures Scales(cfg, if key.Stored? && tat >= now as real then tat else now as real, Base(cfg, key, now))
  {
    assert (now * cfg.limit) as real == now as real * cfg.limit as real;
    if key.Stored? {
      LessScaled(tat, now as real, key.value, now * cfg.limit, cfg.limit as real);
    }
  }

  lemma {:induction false} Sum(cfg: Config, x: real, a: int, y: real, b: int)
    requires Scales(cfg, x, a) && Scales(cfg, y, b)
    ensures Scales(cfg, x + y, a + b) && Scales(cfg, x - y, a - b)
  {
    Distribute(x, y, cfg.limit as real);
  }

  lemma {:induction false} NowScaled(cfg: Config, now: int)
    ensures Scales(cfg, now as real, now * cfg.limit)
  {}

  lemma {:induction false} Compare(cfg: Config, x: real, a: int, y: real, b: int)
    requires Scales(cfg, x, a) && Scales(cfg, y, b)
    ensures x < y <==> a < b
  {
    LessScaled(x, y, a, b, cfg.limit as real);
  }

  lemma {:induction false} CeilScaled(cfg: Config, x: real, a: int)
    requires Scales(cfg, x, a)
    ensures Ceil(x) == CeilDiv(a, cfg.limit)
  {
    CeilReal(x, a, cfg.limit);
  }

  lemma {:induction false} QuotientByT(x: real, T: real, L: real, P: real)
    requires T > 0.0 && T * L == P
    ensures x / T * P == x * L
  {
    var y := x / T;
    assert y * T == x;
    assert y * (T * L) == (y * T) * L;
  }

  lemma {:induction false} RoomScaled(cfg: Config, T: real, tau: real, ahead: real, a: int)
    requires Interval(cfg, T, tau) && Scales(cfg, ahead, a)
    ensures Max(((tau - ahead) / T).Floor, 0) == Room(cfg, a)
  {
    var x := tau - ahead;
    Sum(cfg, tau, cfg.periodMs * cfg.burst, ahead, a);
    QuotientByT(x, T, cfg.limit as real, cfg.periodMs as real);
    FloorReal(x / T, cfg.periodMs * cfg.burst - a, cfg.periodMs);
  }

  /** What the script derives from an arrival time `x` is what the specification derives from `x * limit`. */
  lemma {:induction false} Scaled(cfg: Config, now: int, x: real, a: int, T: real, tau: real)
    requires Scales(cfg, x, a) && Interval(cfg, T, tau)
    ensures now as real < x - tau <==> now * cfg.limit < a - cfg.periodMs * cfg.burst
    ensures Ceil(x - tau - now as real) == CeilDiv(a - cfg.periodMs * cfg.burst - now * cfg.limit, cfg.limit)
    ensures Max(((tau - (x - now as real)) / T).Floor, 0) == Room(cfg, a - now * cfg.limit)
  {
    var n, t, full := now as real, now * cfg.limit, cfg.periodMs * cfg.burst;
    NowScaled(cfg, now);
    assert Scales(cfg, tau, full);
    hide Scales, Interval, Ceil, CeilDiv, Room, Max;
    Sum(cfg, x, a, n, t);
    Sum(cfg, x, a, tau, full);
    Sum(cfg, x - tau, a - full, n, t);
    Compare(cfg, n, t, x - tau, a - full);
    CeilScaled(cfg, x - tau - n, a - full - t);
    RoomScaled(cfg, T, tau, x - n, a - t);
  }

  lemma {:induction false} CeilsScaled(cfg: Config, now: int, x: real, a: int)
    requires Scales(cfg, x, a)
    ensures Ceil(x) == CeilDiv(a, cfg.limit)
    ensures Ceil(x - now as real) == CeilDiv(a - now * cfg.limit, cfg.limit)
  {
    NowScaled(cfg, now);
    Sum(cfg, x, a, now as real, now * cfg.limit);
    CeilScaled(cfg, x, a);
    CeilScaled(cfg, x - now as real, a - now * cfg.limit);
  }

  /** The script's values, computed on reals from a stored `tat`, give the specification's outcome. */
  lemma {:induction false} OnReals(cfg: Config, key: Key<int>, stored: real, now: int, cost: int, T: real, tau: real, inc: real)
    requires key.Stored? ==> Scales(cfg, stored, key.value)
    requires Interval(cfg, T, tau) && Scales(cfg, inc, cfg.periodMs * cost)
    ensures var tat := if key.Stored? && stored >= now as real then stored else now as real;
            var newTat := tat + inc;
            var (after, reply) := Check(cfg, key, Request(now, cost));
            if now as real < newTat - tau then
              && after == key
              && reply == Reply(false, cfg.burst, Max(((tau - (tat - now as real)) / T).Floor, 0), Ceil(tat),
                                Ceil(newTat - tau - now as real))
            else
              && after.Stored? && Scales(cfg, newTat, after.value)
              && after.deadline == now + Max(Ceil(newTat - now as real), 1)
              && reply == Reply(true, cfg.burst, Max(((tau - (newTat - now as real)) / T).Floor, 0), Ceil(newTat), 0)
  {
    hide Scales, Ceil, FloorDiv, CeilDiv;
    var tat := if key.Stored? && stored >= now as real then stored else now as real;
    var base := Base(cfg, key, now);
    BaseScaled(cfg, key, stored, now);
    Sum(cfg, tat, base, inc, cfg.periodMs * cost);
    Scaled(cfg, now, tat, base, T, tau);
    CeilsScaled(cfg, now, tat, base);
    CeilsScaled(cfg, now, tat + inc, base + cfg.periodMs * cost);
    Scaled(cfg, now, tat + inc, base + cfg.periodMs * cost, T, tau);
  }

  lemma {:induction false} Products(cfg: Config, cost: int)
    ensures var T := cfg.periodMs as real / cfg.limit as real;
            && Interval(cfg, T, T * cfg.burst as real)
            && Scales(cfg, T * cost as real, cfg.periodMs * cost)
  {
    var L := cfg.limit as real;
    var T := cfg.periodMs as real / L;
    assert T * L == cfg.periodMs as real;
    assert T * cost as real * L == (T * L) * cost as real;
    assert T * cfg.burst as real * L == (T * L) * cfg.burst as real;
  }

  /** One Redis key and the script's body, statement by statement. */
  class Limiter {
    const cfg: Config
    var stored: bool
    var tat: real
    var expiresAt: int
    /** The key as the specification sees it, and what this limiter has admitted. */
    ghost var key: Key<int>
    ghost var admitted: seq<Request>

    ghost predicate Valid()
      reads this
    {
      && stored == key.Stored?
      && (stored ==> Scales(cfg, tat, key.value) && expiresAt == key.deadline)
    }

    constructor (cfg: Config)
      ensures Valid() && this.cfg == cfg && key == Absent && admitted == []
    {
      this.cfg := cfg;
      stored, tat, expiresAt, key, admitted := false, 0.0, 0, Absent, [];
    }

    /** Redis drops the key; it may do so only once the deadline is reached. */
    method Expire(now: int)
      requires Valid()
      modifies this
      ensures Valid() && admitted == old(admitted)
      ensures var was := old(key);
              key == Vanish(was, now, true) == if was.Stored? && was.deadline <= now then Absent else was
    {
      if stored && expiresAt <= now {
        stored := false;
        key := Absent;
      }
    }

    method Run(now: int, cost: int) returns (reply: Reply)
      requires Valid()
      modifies this
      ensures Valid()
      ensures (key, reply) == Check(cfg, old(key), Request(now, cost))
      ensures admitted == if reply.allowed then old(admitted) + [Request(now, cost)] else old(admitted)
    {
      var T := cfg.periodMs as real / cfg.limit as real;
      var tau := T * cfg.burst as real;
      var inc := T * cost as real;
      var tat := if stored then this.tat else now as real;
      if tat < now as real {
        tat := now as real;
      }
      var newTat := tat + inc;
      var allowAt := newTat - tau;
      hide Check, Ceil, Scales, Interval;
      Products(cfg, cost);
      OnReals(cfg, key, this.tat, now, cost, T, tau, inc);
      if now as real < allowAt {
        var remaining := ((tau - (tat - now as real)) / T).Floor;
        if remaining < 0 {
          remaining := 0;
        }
        return Reply(false, cfg.burst, remaining, Ceil(tat), Ceil(allowAt - now as real));
      }
      var remaining := ((tau - (newTat - now as real)) / T).Floor;
      if remaining < 0 {
        remaining := 0;
      }
      var px := Ceil(newTat - now as real);
      if px < 1 {
        px := 1;
      }
      stored, this.tat, expiresAt := true, newTat, now + px;
      key := Check(cfg, key, Request(now, cost)).0;
      admitted := admitted + [Request(now, cost)];
      return Reply(true, cfg.burst, remaining, Ceil(newTat), 0);
    }
  }
}
