/**
 The sliding window script: a ring of `buckets + 1` counters, each tagged with the bucket it counts,
 and an estimate that weighs the oldest bucket by the part of it still inside the window.
 Estimates in the specification are multiplied by `windowMs`.
 */
module SlidingWindow {
  import opened Rounding
  import opened Runs

  datatype RawConfig = Config(windowMs: int, limit: int, buckets: int)

  type Config = c: RawConfig | c.windowMs > 0 && c.limit > 0 && c.buckets > 0 witness Config(1, 1, 1)

  /** One hash field, `idx:count`. */
  datatype Slot = Slot(tag: int, count: int)

  type Ring = map<int, Slot>

  /** `c`, the number of the bucket that `now` falls in. */
  function Bucket(cfg: Config, now: int): int {
    FloorDiv(now * cfg.buckets, cfg.windowMs)
  }

  /** The weight of the oldest bucket: the part of the current bucket that is still to come. */
  function Weight(cfg: Config, now: int): int {
    (Bucket(cfg, now) + 1) * cfg.windowMs - now * cfg.buckets
  }

  function SlotOf(cfg: Config, idx: int): int {
    Mod(idx, cfg.buckets + 1)
  }

  function RingOf(key: Key<Ring>): Ring {
    if key.Stored? then key.value else map[]
  }

  function GetCount(cfg: Config, ring: Ring, idx: int): int {
    if SlotOf(cfg, idx) in ring && ring[SlotOf(cfg, idx)].tag == idx then ring[SlotOf(cfg, idx)].count else 0
  }

  function Counts(cfg: Config, key: Key<Ring>): int -> int {
    idx => GetCount(cfg, RingOf(key), idx)
  }

  /** `count(lo) + ... + count(hi - 1)`, in the order of the script's loop. */
  function Sum(count: int -> int, lo: int, hi: int): int
    decreases hi - lo
  {
    if hi <= lo then 0 else Sum(count, lo, hi - 1) + count(hi - 1)
  }

  /** The estimate from the full buckets and the oldest one. */
  function Weighed(cfg: Config, now: int, full: int, oldest: int): int {
    full * cfg.windowMs + oldest * Weight(cfg, now)
  }

  /** The reply to a request once the full buckets and the oldest one are counted. */
  function Answer(cfg: Config, q: Request, full: int, oldest: int): Reply {
    var estimate := Weighed(cfg, q.now, full, oldest);
    var most := cfg.limit * cfg.windowMs;
    var projected := estimate + q.cost * cfg.windowMs;
    var resetAt := CeilDiv((Bucket(cfg, q.now) + 1 + cfg.buckets) * cfg.windowMs, cfg.buckets);
    if projected <= most then
      Reply(true, cfg.limit, Max(FloorDiv(most - projected, cfg.windowMs), 0), resetAt, 0)
    else
      var excess := projected - most;
      var retry :=
        if oldest > 0 && excess <= oldest * Weight(cfg, q.now) then CeilDiv(excess, cfg.buckets * oldest)
        else CeilDiv(Weight(cfg, q.now), cfg.buckets);
      Reply(false, cfg.limit, Max(FloorDiv(most - estimate, cfg.windowMs), 0), resetAt, Max(retry, 1))
  }

  /** The S newest buckets at `now`, and the one before them. */
  function FullAt(cfg: Config, count: int -> int, now: int): int {
    Sum(count, Bucket(cfg, now) - cfg.buckets + 1, Bucket(cfg, now) + 1)
  }

  function OldestAt(cfg: Config, count: int -> int, now: int): int {
    count(Bucket(cfg, now) - cfg.buckets)
  }

  function Lifetime(cfg: Config): int {
    CeilDiv((cfg.buckets + 1) * cfg.windowMs, cfg.buckets)
  }

  function Write(cfg: Config, ring: Ring, idx: int, cost: int): Ring {
    ring[SlotOf(cfg, idx) := Slot(idx, GetCount(cfg, ring, idx) + cost)]
  }

  function Check(cfg: Config, key: Key<Ring>, q: Request): (Key<Ring>, Reply) {
    var count := Counts(cfg, key);
    var reply := Answer(cfg, q, FullAt(cfg, count, q.now), OldestAt(cfg, count, q.now));
    if reply.allowed then
      (Stored(Write(cfg, RingOf(key), Bucket(cfg, q.now), q.cost), q.now + Lifetime(cfg)), reply)
    else
      (key, reply)
  }

  function Script(cfg: Config): Step<Key<Ring>> {
    (key: Key<Ring>, q: Request) => Check(cfg, key, q)
  }

  // ---------- Buckets and sums ----------

  lemma {:induction false} BucketBounds(cfg: Config, now: int)
    ensures Bucket(cfg, now) * cfg.windowMs <= now * cfg.buckets < (Bucket(cfg, now) + 1) * cfg.windowMs
    ensures 1 <= Weight(cfg, now) <= cfg.windowMs
  {
    FloorBounds(now * cfg.buckets, cfg.windowMs);
    OneMore(Bucket(cfg, now), cfg.windowMs);
  }

  /** `t` is in bucket `b` or later exactly when `t` is not before its start. */
  lemma {:induction false} FromBucket(cfg: Config, b: int, t: int)
    ensures b <= Bucket(cfg, t) <==> b * cfg.windowMs <= t * cfg.buckets
  {
    AtMostFloor(b, t * cfg.buckets, cfg.windowMs);
  }

  lemma {:induction false} BucketMonotone(cfg: Config, t: int, later: int)
    requires t <= later
    ensures Bucket(cfg, t) <= Bucket(cfg, later)
  {
    BucketBounds(cfg, t);
    MulLe(t, later, cfg.buckets);
    FromBucket(cfg, Bucket(cfg, t), later);
  }

  lemma {:induction false} SumSame(f: int -> int, g: int -> int, lo: int, hi: int)
    requires forall j :: lo <= j < hi ==> f(j) == g(j)
    ensures Sum(f, lo, hi) == Sum(g, lo, hi)
    decreases hi - lo
  {
    if lo < hi {
      SumSame(f, g, lo, hi - 1);
    }
  }

  lemma {:induction false} SumSplit(f: int -> int, lo: int, mid: int, hi: int)
    requires lo <= mid <= hi
    ensures Sum(f, lo, hi) == Sum(f, lo, mid) + Sum(f, mid, hi)
    decreases hi - mid
  {
    if mid < hi {
      SumSplit(f, lo, mid, hi - 1);
    }
  }

  lemma {:induction false} SumZero(f: int -> int, lo: int, hi: int)
    requires forall j :: lo <= j < hi ==> f(j) == 0
    ensures Sum(f, lo, hi) == 0
    decreases hi - lo
  {
    if lo < hi {
      SumZero(f, lo, hi - 1);
    }
  }

  lemma {:induction false} SumNonnegative(f: int -> int, lo: int, hi: int)
    requires forall j :: lo <= j < hi ==> f(j) >= 0
    ensures Sum(f, lo, hi) >= 0
    ensures forall j :: lo <= j < hi ==> f(j) <= Sum(f, lo, hi)
    decreases hi - lo
  {
    if lo < hi {
      SumNonnegative(f, lo, hi - 1);
    }
  }

  /** Adding `d` at one index of the range adds `d` to the sum. */
  lemma {:induction false} SumBump(f: int -> int, g: int -> int, lo: int, hi: int, c: int, d: int)
    requires lo <= c < hi
    requires forall j :: lo <= j < hi ==> g(j) == f(j) + if j == c then d else 0
    ensures Sum(g, lo, hi) == Sum(f, lo, hi) + d
    decreases hi - lo
  {
    if c == hi - 1 {
      SumSame(f, g, lo, c);
    } else {
      SumBump(f, g, lo, hi - 1, c, d);
    }
  }

  lemma {:induction false} SameSlot(cfg: Config, i: int, j: int)
    requires SlotOf(cfg, i) == SlotOf(cfg, j) && i < j
    ensures i + cfg.buckets + 1 <= j
  {
    var n := cfg.buckets + 1;
    ModIsRemainder(i, n);
    ModIsRemainder(j, n);
    hide Mod, FloorDiv;
    MulLt(FloorDiv(i, n), FloorDiv(j, n), n);
    MulLe(FloorDiv(i, n) + 1, FloorDiv(j, n), n);
    OneMore(FloorDiv(i, n), n);
  }

  /** A write changes the count of the bucket written, and can hide only buckets S + 1 or more away. */
  lemma {:induction false} CountAfterWrite(cfg: Config, ring: Ring, c: int, cost: int, j: int)
    ensures var after := Write(cfg, ring, c, cost);
            && (j == c ==> GetCount(cfg, after, j) == GetCount(cfg, ring, c) + cost)
            && (j != c && c - cfg.buckets <= j <= c + cfg.buckets ==> GetCount(cfg, after, j) == GetCount(cfg, ring, j))
            && (j != c ==> GetCount(cfg, after, j) == GetCount(cfg, ring, j) || GetCount(cfg, after, j) == 0)
  {
    hide SlotOf;
    if j < c && SlotOf(cfg, j) == SlotOf(cfg, c) {
      SameSlot(cfg, j, c);
    } else if c < j && SlotOf(cfg, j) == SlotOf(cfg, c) {
      SameSlot(cfg, c, j);
    }
  }

  // ---------- The ring does the work of a complete record ----------

  /** The instants in the buckets from `lo` to `hi - 1`. */
  function Within(cfg: Config, lo: int, hi: int): int -> bool {
    t => lo <= Bucket(cfg, t) < hi
  }

  /** The units of `h` in the buckets from `lo` to `hi - 1`. */
  function InBuckets(cfg: Config, h: seq<Request>, lo: int, hi: int): int {
    CostWhere(h, Within(cfg, lo, hi))
  }

  function InBucket(cfg: Config, h: seq<Request>, b: int): int {
    CostWhere(h, Within(cfg, b, b + 1))
  }

  /** The limiter that keeps every admitted request for ever and counts them again at each check. */
  function Remembering(cfg: Config): Step<seq<Request>> {
    (h: seq<Request>, q: Request) =>
      var c := Bucket(cfg, q.now);
      var reply := Answer(cfg, q, InBuckets(cfg, h, c - cfg.buckets + 1, c + 1),
                          InBucket(cfg, h, c - cfg.buckets));
      (if reply.allowed then h + [q] else h, reply)
  }

  lemma {:induction false} InBucketsExtends(cfg: Config, h: seq<Request>, q: Request, lo: int, hi: int)
    ensures InBuckets(cfg, h + [q], lo, hi)
            == InBuckets(cfg, h, lo, hi) + if lo <= Bucket(cfg, q.now) < hi then q.cost else 0
  {}

  lemma {:induction false} InBucketExtends(cfg: Config, h: seq<Request>, q: Request, b: int)
    ensures InBucket(cfg, h + [q], b) == InBucket(cfg, h, b) + if Bucket(cfg, q.now) == b then q.cost else 0
  {}

  lemma {:induction false} SumIsInBuckets(cfg: Config, h: seq<Request>, lo: int, hi: int)
    requires lo <= hi
    ensures Sum(j => InBucket(cfg, h, j), lo, hi) == InBuckets(cfg, h, lo, hi)
    decreases hi - lo
  {
    hide Bucket;
    if lo == hi {
      CostWhereNone(h, Within(cfg, lo, hi));
    } else {
      SumIsInBuckets(cfg, h, lo, hi - 1);
      CostWhereDisjoint(h, Within(cfg, lo, hi), Within(cfg, lo, hi - 1), Within(cfg, hi - 1, hi));
    }
  }

  /** The ring agrees with the record on every bucket that can still be read; neither knows of a later one. */
  ghost predicate Tracks(cfg: Config, key: Key<Ring>, h: seq<Request>, t: int) {
    && (forall j :: j >= Bucket(cfg, t) - cfg.buckets ==> Counts(cfg, key)(j) == InBucket(cfg, h, j))
    && (forall j :: j > Bucket(cfg, t) ==> InBucket(cfg, h, j) == 0)
  }

  lemma {:induction false} EmptyTracks(cfg: Config, t: int)
    ensures Tracks(cfg, Absent, [], t)
  {}

  lemma {:induction false} TracksWrite(cfg: Config, key: Key<Ring>, h: seq<Request>, q: Request, deadline: int)
    requires Tracks(cfg, key, h, q.now)
    ensures Tracks(cfg, Stored(Write(cfg, RingOf(key), Bucket(cfg, q.now), q.cost), deadline), h + [q], q.now)
  {
    var c := Bucket(cfg, q.now);
    var after := Stored(Write(cfg, RingOf(key), c, q.cost), deadline);
    assert RingOf(after) == Write(cfg, RingOf(key), c, q.cost);
    hide Bucket, Write, GetCount, InBucket;
    forall j | j >= c - cfg.buckets
      ensures Counts(cfg, after)(j) == InBucket(cfg, h + [q], j)
      ensures j > c ==> InBucket(cfg, h + [q], j) == 0
    {
      assert Counts(cfg, key)(j) == InBucket(cfg, h, j);
      CountAfterWrite(cfg, RingOf(key), c, q.cost, j);
      InBucketExtends(cfg, h, q, j);
    }
  }

  lemma {:induction false} TracksLater(cfg: Config, key: Key<Ring>, h: seq<Request>, t: int, later: int)
    requires Tracks(cfg, key, h, t) && t <= later
    ensures Tracks(cfg, key, h, later)
  {
    BucketMonotone(cfg, t, later);
    hide Bucket, InBucket, GetCount;
  }

  lemma {:induction false} SameCounts(cfg: Config, key: Key<Ring>, h: seq<Request>, now: int)
    requires Tracks(cfg, key, h, now)
    ensures FullAt(cfg, Counts(cfg, key), now)
            == InBuckets(cfg, h, Bucket(cfg, now) - cfg.buckets + 1, Bucket(cfg, now) + 1)
    ensures OldestAt(cfg, Counts(cfg, key), now) == InBucket(cfg, h, Bucket(cfg, now) - cfg.buckets)
  {
    var c := Bucket(cfg, now);
    hide Bucket, InBucket, InBuckets, GetCount;
    SumSame(Counts(cfg, key), j => InBucket(cfg, h, j), c - cfg.buckets + 1, c + 1);
    SumIsInBuckets(cfg, h, c - cfg.buckets + 1, c + 1);
  }

  lemma {:induction false} TracksStep(cfg: Config, key: Key<Ring>, h: seq<Request>, t: int, q: Request)
    requires Tracks(cfg, key, h, t) && t <= q.now
    ensures Check(cfg, key, q).1 == Remembering(cfg)(h, q).1
    ensures Tracks(cfg, Check(cfg, key, q).0, Remembering(cfg)(h, q).0, q.now)
  {
    hide Bucket, Answer, Write, InBucket, InBuckets, Tracks, FullAt, OldestAt, Counts, Lifetime, RingOf;
    TracksLater(cfg, key, h, t, q.now);
    SameCounts(cfg, key, h, q.now);
    TracksWrite(cfg, key, h, q, q.now + Lifetime(cfg));
  }

  lemma {:induction false} RecordIsAdmitted(cfg: Config, requests: seq<Request>)
    ensures Run(Remembering(cfg), [], requests).state == Run(Remembering(cfg), [], requests).admitted
  {
    hide Answer, InBuckets, Bucket;
    if requests != [] {
      RecordIsAdmitted(cfg, requests[..|requests| - 1]);
    }
  }

  lemma {:induction false} SameAsRemembering(cfg: Config, requests: seq<Request>)
    requires Nondecreasing(requests)
    ensures Run(Script(cfg), Absent, requests).replies == Run(Remembering(cfg), [], requests).replies
    ensures Run(Script(cfg), Absent, requests).admitted == Run(Remembering(cfg), [], requests).state
    ensures requests != [] ==>
              Tracks(cfg, Run(Script(cfg), Absent, requests).state, Run(Script(cfg), Absent, requests).admitted,
                     requests[|requests| - 1].now)
  {
    var related := (key: Key<Ring>, h: seq<Request>, t: int) => Tracks(cfg, key, h, t);
    forall t ensures related(Absent, [], t) {
    }
    forall key, h, t: int, q: Request | related(key, h, t) && t <= q.now
      ensures Script(cfg)(key, q).1 == Remembering(cfg)(h, q).1
      ensures related(Script(cfg)(key, q).0, Remembering(cfg)(h, q).0, q.now)
    {
      TracksStep(cfg, key, h, t, q);
    }
    hide Script, Remembering, Tracks;
    Simulation(Script(cfg), Absent, Remembering(cfg), [], related, requests);
    RecordIsAdmitted(cfg, requests);
  }
}
