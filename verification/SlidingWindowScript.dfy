/** The sliding window script itself, on exact real numbers, proved to be the specification's step. */
module SlidingWindowScript {
  import opened Rounding
  import opened Runs
  import opened SlidingWindow

  /** `w`, the width of a bucket in ms. */
  function Width(cfg: Config): real {
    cfg.windowMs as real / cfg.buckets as real
  }

  lemma {:induction false} WidthTimesBuckets(cfg: Config)
    ensures Width(cfg) > 0.0 && Width(cfg) * cfg.buckets as real == cfg.windowMs as real
  {}

  lemma {:induction false} BucketReal(cfg: Config, now: int)
    ensures (now as real / Width(cfg)).Floor == Bucket(cfg, now)
  {
    WidthTimesBuckets(cfg);
    var w, y := Width(cfg), now as real / Width(cfg);
    hide Width;
    assert y * w == now as real;
    assert y * cfg.windowMs as real == y * w * cfg.buckets as real;
    assert (now * cfg.buckets) as real == now as real * cfg.buckets as real;
    FloorReal(y, now * cfg.buckets, cfg.windowMs);
  }

  /** `weight` before it is clamped. */
  function Unclamped(w: real, elapsed: real): real
    requires w > 0.0
  {
    (w - elapsed) / w
  }

  lemma {:induction false} ElapsedTimesBuckets(cfg: Config, now: int, c: int, w: real)
    requires w * cfg.buckets as real == cfg.windowMs as real
    ensures (now as real - c as real * w) * cfg.buckets as real == (now * cfg.buckets - c * cfg.windowMs) as real
  {
    var S := cfg.buckets as real;
    Distribute(now as real, c as real * w, S);
    assert c as real * w * S == c as real * (w * S);
    assert (now * cfg.buckets) as real == now as real * S;
    assert (c * cfg.windowMs) as real == c as real * cfg.windowMs as real;
  }

  /** The elapsed part of the bucket needs no clamp, and neither does the weight. */
  lemma {:induction false} WeightReal(cfg: Config, now: int, w: real)
    requires w > 0.0 && w * cfg.buckets as real == cfg.windowMs as real
    ensures var elapsed := now as real - Bucket(cfg, now) as real * w;
            && 0.0 <= elapsed
            && 0.0 <= Unclamped(w, elapsed) <= 1.0
            && Unclamped(w, elapsed) * cfg.windowMs as real == Weight(cfg, now) as real
  {
    var c, S := Bucket(cfg, now), cfg.buckets as real;
    var elapsed := now as real - c as real * w;
    BucketBounds(cfg, now);
    ElapsedTimesBuckets(cfg, now, c, w);
    hide Bucket;
    var y := Unclamped(w, elapsed);
    assert y * w == w - elapsed;
    assert y * cfg.windowMs as real == y * w * S;
    Distribute(w, elapsed, S);
    assert Weight(cfg, now) == cfg.windowMs - (now * cfg.buckets - c * cfg.windowMs) by { OneMore(c, cfg.windowMs); }
    LessScaled(elapsed, 0.0, now * cfg.buckets - c * cfg.windowMs, 0, S);
    assert 0.0 * cfg.windowMs as real == 0.0 && 1.0 * cfg.windowMs as real == cfg.windowMs as real;
    LessScaled(y, 0.0, Weight(cfg, now), 0, cfg.windowMs as real);
    LessScaled(1.0, y, cfg.windowMs, Weight(cfg, now), cfg.windowMs as real);
  }

  ghost predicate Scales(cfg: Config, x: real, a: int) {
    x * cfg.windowMs as real == a as real
  }

  lemma {:induction false} Whole(cfg: Config, n: int)
    ensures Scales(cfg, n as real, n * cfg.windowMs)
  {}

  lemma {:induction false} Shift(cfg: Config, x: real, a: int, y: real, b: int)
    requires Scales(cfg, x, a) && Scales(cfg, y, b)
    ensures Scales(cfg, x + y, a + b) && Scales(cfg, x - y, a - b)
    ensures x <= y <==> a <= b
  {}

  lemma {:induction false} Times(cfg: Config, n: int, x: real, a: int)
    requires Scales(cfg, x, a)
    ensures Scales(cfg, n as real * x, n * a)
  {}

  lemma {:induction false} FloorScaled(cfg: Config, x: real, a: int)
    requires Scales(cfg, x, a)
    ensures x.Floor == FloorDiv(a, cfg.windowMs)
  {
    FloorReal(x, a, cfg.windowMs);
  }

  /** The verdict and the units left, from an estimate. */
  lemma {:induction false} VerdictReal(cfg: Config, estimate: real, weighed: int, cost: int)
    requires Scales(cfg, estimate, weighed)
    ensures var most := cfg.limit * cfg.windowMs;
            && (estimate + cost as real <= cfg.limit as real <==> weighed + cost * cfg.windowMs <= most)
            && Scales(cfg, estimate + cost as real - cfg.limit as real, weighed + cost * cfg.windowMs - most)
            && (cfg.limit as real - estimate).Floor == FloorDiv(most - weighed, cfg.windowMs)
            && (cfg.limit as real - (estimate + cost as real)).Floor
               == FloorDiv(most - (weighed + cost * cfg.windowMs), cfg.windowMs)
  {
    var most, spent := cfg.limit * cfg.windowMs, cost * cfg.windowMs;
    Whole(cfg, cost);
    Whole(cfg, cfg.limit);
    hide Scales, FloorDiv;
    Shift(cfg, estimate, weighed, cost as real, spent);
    Shift(cfg, estimate + cost as real, weighed + spent, cfg.limit as real, most);
    Shift(cfg, cfg.limit as real, most, estimate, weighed);
    Shift(cfg, cfg.limit as real, most, estimate + cost as real, weighed + spent);
    FloorScaled(cfg, cfg.limit as real - estimate, most - weighed);
    FloorScaled(cfg, cfg.limit as real - (estimate + cost as real), most - (weighed + spent));
  }

  /** When bucket `idx` begins. */
  function Start(idx: int, w: real): real {
    idx as real * w
  }

  /** What the oldest bucket adds to the estimate. */
  function Faded(oldest: int, weight: real): real {
    oldest as real * weight
  }

  /** The script's three ceilings of bucket widths. */
  lemma {:induction false} CeilingsReal(cfg: Config, now: int, w: real)
    requires w > 0.0 && w * cfg.buckets as real == cfg.windowMs as real
    ensures var c := Bucket(cfg, now);
            && Ceil(Start(c + 1, w) - now as real) == CeilDiv(Weight(cfg, now), cfg.buckets)
            && Ceil(Start(c + 1, w) + cfg.windowMs as real)
               == CeilDiv((c + 1 + cfg.buckets) * cfg.windowMs, cfg.buckets)
            && Ceil(cfg.windowMs as real + w) == Lifetime(cfg)
  {
    var c, S := Bucket(cfg, now), cfg.buckets as real;
    hide Bucket, CeilDiv, Ceil;
    var end := Start(c + 1, w);
    assert end * S == ((c + 1) * cfg.windowMs) as real by {
      assert end * S == (c + 1) as real * (w * S);
    }
    assert (now * cfg.buckets) as real == now as real * S;
    assert (cfg.windowMs * cfg.buckets) as real == cfg.windowMs as real * S;
    Distribute(end, now as real, S);
    Distribute(end, cfg.windowMs as real, S);
    Distribute(cfg.windowMs as real, w, S);
    assert (c + 1 + cfg.buckets) * cfg.windowMs == (c + 1) * cfg.windowMs + cfg.windowMs * cfg.buckets;
    assert (cfg.buckets + 1) * cfg.windowMs == cfg.windowMs * cfg.buckets + cfg.windowMs;
    CeilReal(end - now as real, Weight(cfg, now), cfg.buckets);
    CeilReal(end + cfg.windowMs as real, (c + 1 + cfg.buckets) * cfg.windowMs, cfg.buckets);
    CeilReal(cfg.windowMs as real + w, (cfg.buckets + 1) * cfg.windowMs, cfg.buckets);
  }

  /** Time for the oldest bucket to shed `D` units. */
  function ShedTime(D: real, w: real, oldest: int): real
    requires oldest > 0
  {
    D * w / oldest as real
  }

  lemma {:induction false} RetryReal(cfg: Config, D: real, e: int, w: real, oldest: int)
    requires Scales(cfg, D, e) && oldest > 0 && cfg.buckets * oldest > 0
    requires w * cfg.buckets as real == cfg.windowMs as real
    ensures Ceil(ShedTime(D, w, oldest)) == CeilDiv(e, cfg.buckets * oldest)
  {
    var x := ShedTime(D, w, oldest);
    assert x * oldest as real == D * w;
    assert (cfg.buckets * oldest) as real == cfg.buckets as real * oldest as real;
    assert x * (cfg.buckets * oldest) as real == e as real by {
      assert x * (cfg.buckets as real * oldest as real) == x * oldest as real * cfg.buckets as real;
      assert D * w * cfg.buckets as real == D * (w * cfg.buckets as real);
    }
    hide ShedTime;
    CeilReal(x, e, cfg.buckets * oldest);
  }

  lemma {:induction false} InterpolatesReal(cfg: Config, now: int, D: real, e: int, oldest: int, weight: real)
    requires Scales(cfg, D, e) && Scales(cfg, weight, Weight(cfg, now))
    ensures D <= Faded(oldest, weight) <==> e <= oldest * Weight(cfg, now)
  {}

  /** One Redis hash with its deadline, and the script's body, statement by statement. */
  class Limiter {
    const cfg: Config
    var stored: bool
    var hash: Ring
    var expiresAt: int
    /** What this limiter has admitted. */
    ghost var admitted: seq<Request>

    /** The key as the specification sees it. */
    ghost function Contents(): Key<Ring>
      reads this
    {
      if stored then Stored(hash, expiresAt) else Absent
    }

    constructor (cfg: Config)
      ensures this.cfg == cfg && Contents() == Absent && admitted == []
    {
      this.cfg := cfg;
      stored, hash, expiresAt, admitted := false, map[], 0, [];
    }

    method Expire(now: int)
      modifies this
      ensures var was := old(Contents());
              Contents() == Vanish(was, now, true) == if was.Stored? && was.deadline <= now then Absent else was
      ensures admitted == old(admitted)
    {
      if stored && expiresAt <= now {
        stored := false;
      }
    }

    /** The local function `getCount`: a slot that holds another bucket's count reads as 0. */
    method ReadCount(idx: int) returns (n: int)
      ensures n == Counts(cfg, Contents())(idx)
    {
      ModIsPercent(idx, cfg.buckets + 1);
      hide Mod;
      var slot := idx % (cfg.buckets + 1);
      if !stored || slot !in hash {
        return 0;
      }
      if hash[slot].tag != idx {
        return 0;
      }
      return hash[slot].count;
    }

    /** The `for` loop over the buckets wholly inside the window. */
    method ReadFull(c: int) returns (full: int)
      ensures full == Sum(Counts(cfg, Contents()), c - cfg.buckets + 1, c + 1)
    {
      full := 0;
      for j := c - cfg.buckets + 1 to c + 1
        invariant full == Sum(Counts(cfg, Contents()), c - cfg.buckets + 1, j)
      {
        var n := ReadCount(j);
        full := full + n;
      }
    }

    /** The weight of the oldest bucket, clamped. */
    method ReadWeight(now: int, c: int, w: real) returns (weight: real)
      requires w > 0.0 && w * cfg.buckets as real == cfg.windowMs as real && c == Bucket(cfg, now)
      ensures Scales(cfg, weight, Weight(cfg, now))
    {
      WeightReal(cfg, now, w);
      hide Bucket, Weight;
      var elapsed := now as real - c as real * w;
      if elapsed < 0.0 {
        elapsed := 0.0;
      }
      weight := Unclamped(w, elapsed);
      if weight < 0.0 {
        weight := 0.0;
      }
      if weight > 1.0 {
        weight := 1.0;
      }
    }

    method Hset(idx: int, count: int)
      modifies this`stored, this`hash
      ensures stored && hash == RingOf(old(Contents()))[SlotOf(cfg, idx) := Slot(idx, count)]
    {
      ModIsPercent(idx, cfg.buckets + 1);
      hide Mod;
      hash := (if stored then hash else map[])[idx % (cfg.buckets + 1) := Slot(idx, count)];
      stored := true;
    }

    method Pexpire(now: int, ms: int)
      modifies this`expiresAt
      ensures expiresAt == now + ms
    {
      expiresAt := now + ms;
    }

    /** The wait of a request that is `D` units over: until the oldest bucket has shed them, or until the next bucket. */
    method RetryAfter(now: int, c: int, w: real, oldest: int, weight: real, D: real, ghost excess: int)
      returns (retry: int)
      requires w > 0.0 && w * cfg.buckets as real == cfg.windowMs as real && c == Bucket(cfg, now)
      requires Scales(cfg, weight, Weight(cfg, now)) && Scales(cfg, D, excess)
      ensures retry
              == Max(if oldest > 0 && excess <= oldest * Weight(cfg, now) then CeilDiv(excess, cfg.buckets * oldest)
                     else CeilDiv(Weight(cfg, now), cfg.buckets), 1)
    {
      hide Ceil, CeilDiv, Bucket, Weight, Scales, ShedTime, Start, Faded, Lifetime;
      InterpolatesReal(cfg, now, D, excess, oldest, weight);
      CeilingsReal(cfg, now, w);
      if oldest > 0 && D <= Faded(oldest, weight) {
        RetryReal(cfg, D, excess, w, oldest);
        retry := Ceil(ShedTime(D, w, oldest));
      } else {
        retry := Ceil(Start(c + 1, w) - now as real);
      }
      if retry < 1 {
        retry := 1;
      }
    }

    /** `full + oldest * weight`. */
    method Weigh(now: int, full: int, oldest: int, weight: real) returns (estimate: real)
      requires Scales(cfg, weight, Weight(cfg, now))
      ensures Scales(cfg, estimate, Weighed(cfg, now, full, oldest))
    {
      estimate := full as real + Faded(oldest, weight);
      Whole(cfg, full);
      Times(cfg, oldest, weight, Weight(cfg, now));
      Shift(cfg, full as real, full * cfg.windowMs, oldest as real * weight, oldest * Weight(cfg, now));
    }

    /** When the window after the current bucket is over. */
    method ResetAt(now: int, c: int, w: real) returns (resetAt: int)
      requires w > 0.0 && w * cfg.buckets as real == cfg.windowMs as real && c == Bucket(cfg, now)
      ensures resetAt == CeilDiv((c + 1 + cfg.buckets) * cfg.windowMs, cfg.buckets)
    {
      resetAt := Ceil(Start(c + 1, w) + cfg.windowMs as real);
      hide Ceil, CeilDiv, Bucket, Start, Lifetime;
      CeilingsReal(cfg, now, w);
    }

    method Run(now: int, cost: int) returns (reply: Reply)
      modifies this
      ensures (Contents(), reply) == Check(cfg, old(Contents()), Request(now, cost))
      ensures admitted == if reply.allowed then old(admitted) + [Request(now, cost)] else old(admitted)
    {
      hide FloorDiv, CeilDiv, Ceil, Bucket, Weight, Weighed, Width, Scales, Sum, Lifetime, SlotOf;
      ghost var key := Contents();
      WidthTimesBuckets(cfg);
      BucketReal(cfg, now);
      CeilingsReal(cfg, now, Width(cfg));
      var w := Width(cfg);
      var c := (now as real / w).Floor;
      var weight := ReadWeight(now, c, w);
      var full := ReadFull(c);
      var oldest := ReadCount(c - cfg.buckets);
      var estimate := Weigh(now, full, oldest, weight);
      var projected := estimate + cost as real;
      var limit := cfg.limit as real;
      ghost var weighed := Weighed(cfg, now, full, oldest);
      VerdictReal(cfg, estimate, weighed, cost);
      var resetAt := ResetAt(now, c, w);
      if projected <= limit {
        var cur := ReadCount(c);
        Hset(c, cur + cost);
        Pexpire(now, Ceil(cfg.windowMs as real + w));
        admitted := admitted + [Request(now, cost)];
        var remaining := (limit - projected).Floor;
        if remaining < 0 {
          remaining := 0;
        }
        return Reply(true, cfg.limit, remaining, resetAt, 0);
      }
      var retry := RetryAfter(now, c, w, oldest, weight, projected - limit,
                              weighed + cost * cfg.windowMs - cfg.limit * cfg.windowMs);
      var remaining := (limit - estimate).Floor;
      if remaining < 0 {
        remaining := 0;
      }
      return Reply(false, cfg.limit, remaining, resetAt, retry);
    }
  }
}
