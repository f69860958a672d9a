/**
 The token bucket script. Token counts in the specification are multiplied by 1000, so that one
 millisecond refills `refillPerSec` of them.
 */
module TokenBucket {
  import opened Rounding
  import opened Runs

  datatype RawConfig = Config(capacity: int, refillPerSec: int)

  type Config = c: RawConfig | c.capacity > 0 && c.refillPerSec > 0 witness Config(1, 1)

  /** The stored fields: `t`, the tokens left, and `l`, when they were counted. */
  datatype Bucket = Bucket(tokens: int, last: int)

  /** The tokens at `now`: refilled since they were counted, and capped. */
  function Level(cfg: Config, key: Key<Bucket>, now: int): int {
    match key
    case Absent => 1000 * cfg.capacity
    case Stored(b, _) =>
      var refilled := b.tokens + Max(now - b.last, 0) * cfg.refillPerSec;
      if refilled > 1000 * cfg.capacity then 1000 * cfg.capacity else refilled
  }

  predicate Allows(cfg: Config, key: Key<Bucket>, now: int, cost: int) {
    Level(cfg, key, now) >= 1000 * cost
  }

  /** Milliseconds until `tokens` more have been refilled. */
  function Wait(cfg: Config, tokens: int): int {
    CeilDiv(tokens, cfg.refillPerSec)
  }

  function Check(cfg: Config, key: Key<Bucket>, q: Request): (Key<Bucket>, Reply) {
    var level := Level(cfg, key, q.now);
    var full := 1000 * cfg.capacity;
    if Allows(cfg, key, q.now, q.cost) then
      var left := level - 1000 * q.cost;
      (Stored(Bucket(left, q.now), q.now + Max(Wait(cfg, full), 1)),
       Reply(true, cfg.capacity, Max(FloorDiv(left, 1000), 0), q.now + Wait(cfg, full - left), 0))
    else
      (key, Reply(false, cfg.capacity, Max(FloorDiv(level, 1000), 0), q.now + Wait(cfg, full - level),
                  Wait(cfg, 1000 * q.cost - level)))
  }

  function Script(cfg: Config): Step<Key<Bucket>> {
    (key: Key<Bucket>, q: Request) => Check(cfg, key, q)
  }

  /** The clock has not been set back behind the instant the tokens were counted. */
  predicate CountedBy(key: Key<Bucket>, now: int) {
    key.Stored? ==> key.value.last <= now
  }

  /** So it is with every run on a nondecreasing clock. */
  lemma {:induction false} RunIsCounted(cfg: Config, requests: seq<Request>, now: int)
    requires Nondecreasing(requests)
    requires requests != [] ==> requests[|requests| - 1].now <= now
    ensures CountedBy(Run(Script(cfg), Absent, requests).state, now)
  {
    if requests != [] {
      RunIsCounted(cfg, requests[..|requests| - 1], requests[|requests| - 1].now);
      hide Level, Wait;
    }
  }

  // ---------- What the reply fields promise ----------

  lemma {:induction false} LevelNow(cfg: Config, key: Key<Bucket>, q: Request)
    requires q.cost >= 1
    ensures Level(cfg, Check(cfg, key, q).0, q.now)
            == Level(cfg, key, q.now) - if Allows(cfg, key, q.now, q.cost) then 1000 * q.cost else 0
  {}

  /** `remaining` is the largest cost a second check at the same instant can have. */
  lemma {:induction false} RemainingIsExact(cfg: Config, key: Key<Bucket>, q: Request, k: int)
    requires q.cost >= 1 && k >= 1
    ensures var (after, reply) := Check(cfg, key, q);
            && reply.limit == cfg.capacity
            && (reply.allowed <==> Allows(cfg, key, q.now, q.cost))
            && (reply.allowed ==> reply.retryAfterMs == 0)
            && 0 <= reply.remaining
            && (Allows(cfg, after, q.now, k) <==> k <= reply.remaining)
  {
    var (after, reply) := Check(cfg, key, q);
    LevelNow(cfg, key, q);
    AtMostFloor(k, Level(cfg, after, q.now), 1000);
  }

  /** How the level moves while nothing is admitted. */
  lemma {:induction false} LevelLater(cfg: Config, key: Key<Bucket>, now: int, t: int)
    requires CountedBy(key, now) && now <= t
    ensures var full := 1000 * cfg.capacity;
            var refilled := Level(cfg, key, now) + (t - now) * cfg.refillPerSec;
            Level(cfg, key, t) == if refilled > full then full else refilled
  {}

  /**
   A denied request that fits the capacity at all is admitted at a later `t` exactly when the wait
   reaches `retryAfterMs`; one that does not fit is denied after every wait.
   */
  lemma {:induction false} RetryIsExactIffCostFits(cfg: Config, key: Key<Bucket>, q: Request)
    requires !Allows(cfg, key, q.now, q.cost) && CountedBy(key, q.now)
    ensures var (after, reply) := Check(cfg, key, q);
            && after == key && reply.retryAfterMs >= 1
            && ((forall t | t >= q.now :: Allows(cfg, key, t, q.cost) <==> t >= q.now + reply.retryAfterMs)
                <==> q.cost <= cfg.capacity)
  {
    var retry := Check(cfg, key, q).1.retryAfterMs;
    var missing := 1000 * q.cost - Level(cfg, key, q.now);
    CeilAtMost(missing, cfg.refillPerSec, 0);
    hide CeilDiv, FloorDiv, Check;
    forall t | t >= q.now
      ensures Allows(cfg, key, t, q.cost)
              <==> q.cost <= cfg.capacity && missing <= (t - q.now) * cfg.refillPerSec
      ensures missing <= (t - q.now) * cfg.refillPerSec <==> t >= q.now + retry
    {
      LevelLater(cfg, key, q.now, t);
      CeilAtMost(missing, cfg.refillPerSec, t - q.now);
    }
    assert Allows(cfg, key, q.now + retry, q.cost) <==> q.cost <= cfg.capacity;
  }

  /** The whole capacity is there at `t`: every cost up to it is admitted, and no larger one. */
  ghost predicate Full(cfg: Config, key: Key<Bucket>, t: int) {
    forall k | k >= 1 :: Allows(cfg, key, t, k) <==> k <= cfg.capacity
  }

  lemma {:induction false} FullIff(cfg: Config, key: Key<Bucket>, t: int)
    ensures Full(cfg, key, t) <==> Level(cfg, key, t) == 1000 * cfg.capacity
  {
    assert Full(cfg, key, t) ==> Allows(cfg, key, t, cfg.capacity);
  }

  /** With no admission in between, `resetAt` is the first instant at which the bucket is full again. */
  lemma {:induction false} ResetIsFirstFullInstant(cfg: Config, key: Key<Bucket>, q: Request, t: int)
    requires q.cost >= 1 && q.now <= t && CountedBy(key, q.now)
    ensures var (after, reply) := Check(cfg, key, q);
            Full(cfg, after, t) <==> t >= reply.resetAt
  {
    var (after, reply) := Check(cfg, key, q);
    var missing := 1000 * cfg.capacity - Level(cfg, after, q.now);
    LevelNow(cfg, key, q);
    LevelLater(cfg, after, q.now, t);
    CeilAtMost(missing, cfg.refillPerSec, t - q.now);
    FullIff(cfg, after, t);
  }

  // ---------- Expiry ----------

  /**
   The wait of a denied request, for costs above the capacity as well: the first instant at which the level
   and what is refilled, were there no cap, come to the cost. The key is left as it was.
   */
  lemma {:induction false} RetryIsWhenRefilled(cfg: Config, key: Key<Bucket>, q: Request, t: int)
    requires !Allows(cfg, key, q.now, q.cost)
    ensures var (after, reply) := Check(cfg, key, q);
            && !reply.allowed && after == key
            && (t >= q.now + reply.retryAfterMs
                <==> Level(cfg, key, q.now) + (t - q.now) * cfg.refillPerSec >= 1000 * q.cost)
  {
    hide Level, CeilDiv, FloorDiv;
    CeilAtMost(1000 * q.cost - Level(cfg, key, q.now), cfg.refillPerSec, t - q.now);
  }

  /** An admission keeps its key for exactly as long as an empty bucket takes to fill. */
  lemma {:induction false} DeadlineIsARefill(cfg: Config, key: Key<Bucket>, q: Request, t: int)
    requires Allows(cfg, key, q.now, q.cost)
    ensures var (after, reply) := Check(cfg, key, q);
            && reply.allowed && after.Stored?
            && (t >= after.deadline <==> (t - q.now) * cfg.refillPerSec >= 1000 * cfg.capacity)
  {
    CeilAtMost(1000 * cfg.capacity, cfg.refillPerSec, t - q.now);
    CeilAtMost(1000 * cfg.capacity, cfg.refillPerSec, 0);
    hide Level, CeilDiv, FloorDiv;
  }

  /** The same key, or an absent one beside a stored one that has refilled. */
  ghost predicate SameForLater(cfg: Config, k: Key<Bucket>, l: Key<Bucket>, t: int) {
    && CountedBy(l, t)
    && (k == l || (k == Absent && Level(cfg, l, t) == 1000 * cfg.capacity))
    && (l.Stored? ==> l.value.last <= l.deadline && Level(cfg, l, l.deadline) == 1000 * cfg.capacity)
  }

  lemma {:induction false} FullStays(cfg: Config, l: Key<Bucket>, t: int, later: int)
    requires CountedBy(l, t) && t <= later && Level(cfg, l, t) == 1000 * cfg.capacity
    ensures Level(cfg, l, later) == 1000 * cfg.capacity
  {}

  lemma {:induction false} FullAtDeadline(cfg: Config, left: int, now: int)
    requires left >= 0
    ensures var ttl := Max(Wait(cfg, 1000 * cfg.capacity), 1);
            Level(cfg, Stored(Bucket(left, now), now + ttl), now + ttl) == 1000 * cfg.capacity
  {
    var full := 1000 * cfg.capacity;
    var ttl := Max(Wait(cfg, full), 1);
    CeilBounds(full, cfg.refillPerSec);
    MulLe(Wait(cfg, full), ttl, cfg.refillPerSec);
    assert left + ttl * cfg.refillPerSec >= full;
  }

  lemma {:induction false} SameForLaterStep(cfg: Config, k: Key<Bucket>, l: Key<Bucket>, t: int, q: Request)
    requires SameForLater(cfg, k, l, t) && t <= q.now
    ensures Check(cfg, k, q).1 == Check(cfg, l, q).1
    ensures SameForLater(cfg, Check(cfg, k, q).0, Check(cfg, l, q).0, q.now)
  {
    if k != l {
      FullStays(cfg, l, t, q.now);
    }
    assert Level(cfg, k, q.now) == Level(cfg, l, q.now);
    hide Wait, FloorDiv, Level;
    if Allows(cfg, l, q.now, q.cost) {
      FullAtDeadline(cfg, Level(cfg, l, q.now) - 1000 * q.cost, q.now);
    }
  }

  /** Redis may drop the key at any instant from its deadline on: no reply of the run changes. */
  lemma {:induction false} ExpiryIsInvisible(cfg: Config, requests: seq<Request>, gone: seq<bool>)
    requires |gone| == |requests| && Nondecreasing(requests)
    ensures RunExpiring(Script(cfg), requests, gone).replies == Run(Script(cfg), Absent, requests).replies
  {
    var related := (k: Key<Bucket>, l: Key<Bucket>, t: int) => SameForLater(cfg, k, l, t);
    forall k, l, t: int, q: Request | related(k, l, t) && t <= q.now
      ensures Script(cfg)(k, q).1 == Script(cfg)(l, q).1
      ensures related(Script(cfg)(k, q).0, Script(cfg)(l, q).0, q.now)
    {
      SameForLaterStep(cfg, k, l, t, q);
    }
    forall k, l, t: int, later: int | related(k, l, t) && t <= later && k.Stored? && k.deadline <= later
      ensures related(Absent, l, later)
    {
      FullStays(cfg, l, l.deadline, later);
    }
    ExpirySimulation(Script(cfg), related, requests, gone);
  }

  /** `refill_per_ms`. */
  function PerMs(cfg: Config): (r: real)
    ensures r > 0.0
  {
    cfg.refillPerSec as real / 1000.0
  }

  // ---------- The script itself, on exact real numbers ----------

  lemma {:induction false} WaitScaled(cfg: Config, x: real, a: int)
    requires x * 1000.0 == a as real
    ensures Ceil(x / PerMs(cfg)) == Wait(cfg, a)
  {
    var perMs := PerMs(cfg);
    var y := x / perMs;
    assert y * perMs == x;
    assert y * cfg.refillPerSec as real == y * perMs * 1000.0;
    CeilReal(y, a, cfg.refillPerSec);
  }

  /** What the script derives from its token count is the specification's outcome. */
  lemma {:induction false} Outcome(cfg: Config, key: Key<Bucket>, tokens: real, now: int, cost: int)
    requires tokens * 1000.0 == Level(cfg, key, now) as real
    ensures var perMs := PerMs(cfg);
            var capacity := cfg.capacity as real;
            var newTokens := tokens - cost as real;
            var (after, reply) := Check(cfg, key, Request(now, cost));
            if tokens >= cost as real then
              && after.Stored? && newTokens * 1000.0 == after.value.tokens as real
              && after.value.last == now && after.deadline == now + Max(Ceil(capacity / perMs), 1)
              && reply == Reply(true, cfg.capacity, Max(newTokens.Floor, 0), now + Ceil((capacity - newTokens) / perMs), 0)
            else
              && after == key
              && reply == Reply(false, cfg.capacity, Max(tokens.Floor, 0), now + Ceil((capacity - tokens) / perMs),
                                Ceil((cost as real - tokens) / perMs))
  {
    hide FloorDiv, Ceil, Wait, Level, PerMs;
    var level, full := Level(cfg, key, now), 1000 * cfg.capacity;
    var left := level - 1000 * cost;
    FloorReal(tokens, level, 1000);
    FloorReal(tokens - cost as real, left, 1000);
    WaitScaled(cfg, cfg.capacity as real, full);
    WaitScaled(cfg, cfg.capacity as real - (tokens - cost as real), full - left);
    WaitScaled(cfg, cfg.capacity as real - tokens, full - level);
    WaitScaled(cfg, cost as real - tokens, 1000 * cost - level);
  }

  /** One Redis key and the script's body, statement by statement. */
  class Limiter {
    const cfg: Config
    var stored: bool
    var tokens: real
    var last: int
    var expiresAt: int
    /** The key as the specification sees it, and what this limiter has admitted. */
    ghost var key: Key<Bucket>
    ghost var admitted: seq<Request>

    ghost predicate Valid()
      reads this
    {
      && stored == key.Stored?
      && (stored ==> tokens * 1000.0 == key.value.tokens as real && last == key.value.last && expiresAt == key.deadline)
    }

    constructor (cfg: Config)
      ensures Valid() && this.cfg == cfg && key == Absent && admitted == []
    {
      this.cfg := cfg;
      stored, tokens, last, expiresAt, key, admitted := false, 0.0, 0, 0, Absent, [];
    }

    method Expire(now: int)
      requires Valid()
      modifies this
      ensures Valid() && admitted == old(admitted)
      ensures var was := old(key);
              key == Vanish(was, now, true) == if was.Stored? && was.deadline <= now then Absent else was
    {
      if stored && expiresAt <= now {
        stored := false;
        key := Absent;
      }
    }

    /** The tokens at `now`: the stored count, refilled and capped. */
    method Refilled(now: int) returns (tokens: real)
      requires Valid()
      ensures tokens * 1000.0 == Level(cfg, key, now) as real
    {
      var capacity := cfg.capacity as real;
      tokens := if stored then this.tokens else capacity;
      var last := if stored then this.last else now;
      var elapsed := now - last;
      if elapsed < 0 {
        elapsed := 0;
      }
      assert (elapsed * cfg.refillPerSec) as real == elapsed as real * cfg.refillPerSec as real;
      tokens := tokens + elapsed as real * PerMs(cfg);
      if tokens > capacity {
        tokens := capacity;
      }
    }

    method Run(now: int, cost: int) returns (reply: Reply)
      requires Valid()
      modifies this
      ensures Valid()
      ensures (key, reply) == Check(cfg, old(key), Request(now, cost))
      ensures admitted == if reply.allowed then old(admitted) + [Request(now, cost)] else old(admitted)
    {
      var capacity, refillPerMs := cfg.capacity as real, PerMs(cfg);
      var tokens := Refilled(now);
      Outcome(cfg, key, tokens, now, cost);
      hide FloorDiv, Ceil, Level, Check, PerMs;
      var ttl := Ceil(capacity / refillPerMs);
      if ttl < 1 {
        ttl := 1;
      }
      if tokens >= cost as real {
        var newTokens := tokens - cost as real;
        var remaining := newTokens.Floor;
        if remaining < 0 {
          remaining := 0;
        }
        stored, this.tokens, this.last, expiresAt := true, newTokens, now, now + ttl;
        key := Check(cfg, key, Request(now, cost)).0;
        admitted := admitted + [Request(now, cost)];
        return Reply(true, cfg.capacity, remaining, now + Ceil((capacity - newTokens) / refillPerMs), 0);
      }
      var remaining := tokens.Floor;
      if remaining < 0 {
        remaining := 0;
      }
      return Reply(false, cfg.capacity, remaining, now + Ceil((capacity - tokens) / refillPerMs),
                   Ceil((cost as real - tokens) / refillPerMs));
    }
  }
}
