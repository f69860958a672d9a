/**
 Coroutines on one limiter overrun a window's budget in three ways: with grants of several units for the
 windows of unit checks, with unit grants for checks that need several, and with unit grants that come so
 late that checks run out of rounds.
 */
module FleetCoroutines {
  import opened Rounding
  import opened LeaseSpender
  import opened LeasedLimiter
  import opened AsyncLeasedLimiter
  import opened Fleet
  import opened FleetSafety
  import opened FleetBlocking
  import opened FleetOverrun
  import opened FleetReached

  // ---------- many checks that wait ----------

  /** Instants `step` apart, the first at `ts`; none later than the one numbered `top`. */
  function Instant(ts: int, step: int, top: int): int -> int {
    k => ts + (if k < top then k else top) * step
  }

  lemma {:induction false} InstantsGrow(ts: int, step: int, top: int, i: int, j: int)
    requires step >= 0 && i <= j
    ensures Instant(ts, step, top)(i) <= Instant(ts, step, top)(j)
  {
    MulLe(if i < top then i else top, if j < top then j else top, step);
  }

  function Waits(m: nat, cost: int, at: int -> int): seq<Task> {
    seq(m, k => Task(0, at(k), cost, 0, Waiting))
  }

  lemma {:induction false} AfterNothing(cfg: Config)
    requires cfg.clients >= 1
    ensures After(cfg, []) == Idle(cfg)
    ensures |Idle(cfg).spenders| == cfg.clients && Idle(cfg).spenders[0] == None
  {}

  /** `m` checks of client 0 at nondecreasing instants, all waiting for their first replies. */
  lemma {:induction false} ManyAwait(cfg: Config, m: nat, cost: int, at: int -> int) returns (events: seq<Event>)
    requires cfg.clients >= 1 && cost >= 1 && forall i, j :: i <= j ==> at(i) <= at(j)
    ensures After(cfg, events) == State(Idle(cfg).spenders, Waits(m, cost, at), [])
    ensures Costs(events, cost) && forall i :: 0 <= i < |events| ==> events[i].Start?
    ensures forall windowMs | windowMs > 0 :: PunctualRun(cfg, events, windowMs)
  {
    hide Next, After, Balanced;
    AfterNothing(cfg);
    if m == 0 {
      events := [];
    } else {
      var before := ManyAwait(cfg, m - 1, cost, at);
      var start := Start(0, at(m - 1), cost);
      events := before + [start];
      RunIsBalanced(cfg, before);
      StartWaits(cfg, After(cfg, before), 0, at(m - 1), cost);
      AfterExtends(cfg, before, start);
      assert Waits(m - 1, cost, at) + [Task(0, at(m - 1), cost, 0, Waiting)] == Waits(m, cost, at);
      forall windowMs | windowMs > 0 ensures PunctualRun(cfg, events, windowMs) {
        PunctualExtends(cfg, before, start, windowMs);
      }
    }
  }

  lemma {:induction false} WaitingIsNotAllowed(tasks: seq<Task>, w: int)
    requires forall t :: 0 <= t < |tasks| ==> tasks[t].status.Waiting?
    ensures AllowedUntil(tasks, w) == 0
  {
    if tasks != [] {
      WaitingIsNotAllowed(tasks[..|tasks| - 1], w);
    }
  }

  /** Nothing granted and nothing allowed for windows after `last`. */
  ghost predicate Untried(s: State, last: int) {
    && (forall w :: w > last ==> Total(s.ledger, Granted, w) == 0)
    && (forall w :: w > last ==> AllowedUntil(s.tasks, w) == 0)
  }

  lemma {:induction false} NothingTried(cfg: Config, m: nat, cost: int, at: int -> int, last: int)
    ensures Untried(State(Idle(cfg).spenders, Waits(m, cost, at), []), last)
  {
    forall w ensures AllowedUntil(Waits(m, cost, at), w) == 0 {
      WaitingIsNotAllowed(Waits(m, cost, at), w);
    }
  }

  /** With `ts` at the start of a window, so are the instants `windowMs` apart from it. */
  lemma {:induction false} WindowEndOf(windowMs: int, b: int, k: int)
    requires windowMs > 0
    ensures WindowEnd(windowMs, b * windowMs + k * windowMs) == b * windowMs + (k + 1) * windowMs
    ensures WindowEnd(windowMs, b * windowMs + (k + 1) * windowMs - 1) == b * windowMs + (k + 1) * windowMs
  {
    assert (b + k) * windowMs == b * windowMs + k * windowMs;
    assert (b + k + 1) * windowMs == (b + k) * windowMs + windowMs;
    assert (k + 1) * windowMs == k * windowMs + windowMs;
    FloorUnique(b * windowMs + k * windowMs, windowMs, b + k);
    FloorUnique(b * windowMs + (k + 1) * windowMs - 1, windowMs, b + k);
  }

  // ---------- grants of several units ----------

  /** The window of the check numbered `k`, when check and window are `step` apart from their neighbours. */
  function EndOf(ts: int, step: int, k: int): int {
    ts + (k + 1) * step
  }

  /** The first `k` of `m + 1` unit checks have ended, each with a grant of `size` for its window; the others wait. */
  ghost predicate Answered(cfg: Config, s: State, k: nat, m: nat, size: int, ts: int, step: int) {
    && |s.spenders| == cfg.clients >= 1 && |s.tasks| == m + 1
    && (forall t :: 0 <= t < k <= m ==> s.tasks[t].status.Ended? && s.tasks[t].status.verdict.Decided?)
    && (forall t :: k <= t <= m ==> s.tasks[t] == Task(0, Instant(ts, step, m)(t), 1, 0, Waiting))
    && (forall t :: 0 <= t <= m ==> s.tasks[t].ts == Instant(ts, step, m)(t))
    && Credits(s.spenders[0]) == k * (size - 1)
    && Untried(s, EndOf(ts, step, k - 1))
  }

  /** The run so far: unit costs, grants that do not go back, and replies for the window of each check. */
  ghost predicate UnitsInOrder(cfg: Config, events: seq<Event>, windowMs: int, last: int)
    requires windowMs > 0
  {
    Costs(events, 1) && OrderlyUpTo(events, last) && PunctualRun(cfg, events, windowMs)
  }

  lemma {:induction false} OrderGrows(cfg: Config, events: seq<Event>, t: nat, lease: Lease, windowMs: int, last: int)
    requires windowMs > 0 && UnitsInOrder(cfg, events, windowMs, last) && last <= lease.expiryMs
    requires Offered(cfg, After(cfg, events), t, lease) ==>
               lease.expiryMs == WindowEnd(windowMs, After(cfg, events).tasks[t].ts)
    ensures UnitsInOrder(cfg, events + [Answer(t, lease)], windowMs, lease.expiryMs)
  {
    hide After, WindowEnd;
    PunctualExtends(cfg, events, Answer(t, lease), windowMs);
  }

  lemma {:induction false} AnswerOne(cfg: Config, events: seq<Event>, k: nat, m: nat, size: int, b: int, windowMs: int)
    returns (longer: seq<Event>)
    requires windowMs > 0 && k < m && 1 <= size <= cfg.limit && size <= Max(1, cfg.batch)
    requires var ts := b * windowMs;
             && UnitsInOrder(cfg, events, windowMs, EndOf(ts, windowMs, k - 1))
             && Answered(cfg, After(cfg, events), k, m, size, ts, windowMs)
    ensures var ts := b * windowMs;
            && UnitsInOrder(cfg, longer, windowMs, EndOf(ts, windowMs, k))
            && Answered(cfg, After(cfg, longer), k + 1, m, size, ts, windowMs)
  {
    hide Sum, AllowedUntil, Next, After, UnitsInOrder, WindowEnd;
    var s, e := After(cfg, events), EndOf(b * windowMs, windowMs, k);
    var answer := Answer(k, Grant(size, e));
    longer := events + [answer];
    RunIsBalanced(cfg, events);
    hide Balanced;
    WindowEndOf(windowMs, b, k);
    OneMore(k, windowMs);
    MulLe(0, k, size - 1);
    OneMore(k, size - 1);
    AfterExtends(cfg, events, answer);
    OrderGrows(cfg, events, k, answer.lease, windowMs, EndOf(b * windowMs, windowMs, k - 1));
    AnswerServes(cfg, s, k, answer.lease, e);
    var after := After(cfg, longer);
    forall w | w > e
      ensures Total(after.ledger, Granted, w) == 0 && AllowedUntil(after.tasks, w) == 0
    {
      AnswerServes(cfg, s, k, answer.lease, w);
    }
  }

  lemma {:induction false} AnswerMany(cfg: Config, k: nat, m: nat, size: int, b: int, windowMs: int) returns (events: seq<Event>)
    requires windowMs > 0 && cfg.clients >= 1 && k <= m && 1 <= size <= cfg.limit && size <= Max(1, cfg.batch)
    ensures var ts := b * windowMs;
            && UnitsInOrder(cfg, events, windowMs, EndOf(ts, windowMs, k - 1))
            && Answered(cfg, After(cfg, events), k, m, size, ts, windowMs)
  {
    hide After;
    if k == 0 {
      var at := Instant(b * windowMs, windowMs, m);
      forall i, j | i <= j ensures at(i) <= at(j) {
        InstantsGrow(b * windowMs, windowMs, m, i, j);
      }
      events := ManyAwait(cfg, m + 1, 1, at);
      AfterNothing(cfg);
      NothingTried(cfg, m + 1, 1, at, EndOf(b * windowMs, windowMs, -1));
    } else {
      hide UnitsInOrder, Answered;
      var before := AnswerMany(cfg, k - 1, m, size, b, windowMs);
      events := AnswerOne(cfg, before, k - 1, m, size, b, windowMs);
    }
  }

  /** The last of the waiting checks is served by one unit of `w`. */
  lemma {:induction false} LastIsServed(cfg: Config, s: State, m: nat, left: nat, at: int -> int, w: int)
    requires Balanced(cfg, s) && cfg.clients >= 1 && cfg.limit >= 1 && |s.tasks| == m + 1 && Credits(s.spenders[0]) == left
    requires forall t :: 0 <= t < m ==> s.tasks[t].status.Ended? && s.tasks[t].status.verdict.Decided?
    requires s.tasks[m] == Task(0, at(m), 1, 0, Waiting) && forall t :: 0 <= t <= m ==> s.tasks[t].ts == at(t)
    requires at(m) < w && Total(s.ledger, Granted, w) == 0 && AllowedUntil(s.tasks, w) == 0
    ensures var after := Next(cfg, s, Answer(m, Grant(1, w)));
            && NoneExceeded(after) && Ready(after, 0, left, w)
            && Total(after.ledger, Granted, w) == 1 && AllowedUntil(after.tasks, w) == 1
            && |after.tasks| == m + 1 && forall t :: 0 <= t <= m ==> after.tasks[t].ts == at(t)
  {
    hide Sum, AllowedUntil, Next;
    AnswerServes(cfg, s, m, Grant(1, w), w);
    hide Balanced;
  }

  lemma {:induction false} AtItsWindow(b: int, windowMs: int, top: int, k: int)
    requires windowMs > 0 && k <= top
    ensures var at := Instant(b * windowMs, windowMs, top)(k);
            at < EndOf(b * windowMs, windowMs, k) == WindowEnd(windowMs, at)
  {
    WindowEndOf(windowMs, b, k);
    OneMore(k, windowMs);
  }

  /** The last check gets one unit of its window, and all the credits with it. */
  lemma {:induction false} AnswerLast(cfg: Config, m: nat, size: int, b: int, windowMs: int) returns (events: seq<Event>)
    requires windowMs > 0 && cfg.clients >= 1 && 1 <= size <= cfg.limit && size <= Max(1, cfg.batch)
    ensures m * (size - 1) >= 0
    ensures var (s, w) := (After(cfg, events), EndOf(b * windowMs, windowMs, m));
            && Costs(events, 1) && OrderlyUpTo(events, w) && PunctualBefore(cfg, events, windowMs, w) && NoneExceeded(s)
            && Ready(s, 0, m * (size - 1), w)
            && Total(s.ledger, Granted, w) == 1 && AllowedUntil(s.tasks, w) == 1
  {
    hide Sum, AllowedUntil, Next, After, WindowEnd, Ready, NoneExceeded, Balanced, OrderlyUpTo, PunctualRun;
    var w, at := EndOf(b * windowMs, windowMs, m), Instant(b * windowMs, windowMs, m);
    var before := AnswerMany(cfg, m, m, size, b, windowMs);
    var s, answer := After(cfg, before), Answer(m, Grant(1, w));
    RunIsBalanced(cfg, before);
    MulLe(0, m, size - 1);
    AtItsWindow(b, windowMs, m, m);
    WindowEndOf(windowMs, b, m);
    OneMore(m, windowMs);
    LastIsServed(cfg, s, m, m * (size - 1), at, w);
    AfterExtends(cfg, before, answer);
    OrderGrows(cfg, before, m, answer.lease, windowMs, EndOf(b * windowMs, windowMs, m - 1));
    events := before + [answer];
    forall t | 0 <= t <= m ensures After(cfg, events).tasks[t].ts <= w - 1 {
      InstantsGrow(b * windowMs, windowMs, m, t, m);
    }
  }

  /**
   One coroutine limiter with unit costs overruns a window by any number of batches less one unit each.
   `m + 1` checks, each in a window of its own, await together; every reply is for the window of its check,
   grants never go back in time, and no check runs out of rounds.
   */
  lemma {:induction false} CoroutinesOverrunWithoutBound(cfg: Config, m: nat, b: int, windowMs: int) returns (events: seq<Event>)
    requires cfg.clients >= 1 && cfg.batch >= 2 && cfg.limit >= 2 && windowMs > 0
    ensures Costs(events, 1) && PunctualRun(cfg, events, windowMs) && NoneExceeded(After(cfg, events))
    ensures var w := EndOf(b * windowMs, windowMs, m);
            && OrderlyUpTo(events, w)
            && AllowedUntil(After(cfg, events).tasks, w) == cfg.limit + m * (Min(cfg.batch, cfg.limit) - 1)
  {
    hide After, Sum, AllowedUntil, Ready, Blocked, Costs, OrderlyUpTo, NoneExceeded, WindowEnd;
    var size, w := Min(cfg.batch, cfg.limit), EndOf(b * windowMs, windowMs, m);
    MulLe(0, m, size - 1);
    events := AnswerLast(cfg, m, size, b, windowMs);
    events := SpendDown(cfg, events, 0, m * (size - 1), 1, w);
    events := TopUp(cfg, events, 0, 1, w);
  }

  // ---------- costs of several units ----------

  /**
   `feeders` checks, each in a window of its own, and then one check for each unit of the budget of window
   `w`, all for `most` units. `i` of these have ended; `f` of the feeders have got one unit, and `c` of those
   units are there.
   */
  ghost predicate Fed(cfg: Config, s: State, i: nat, c: int, f: nat, feeders: nat, most: int, ts: int, step: int) {
    && |s.spenders| == cfg.clients >= 1 && |s.tasks| == feeders + cfg.limit
    && f <= feeders && i <= cfg.limit
    && (forall t :: 0 <= t < |s.tasks| ==>
          && s.tasks[t].client == 0 && s.tasks[t].cost == most && s.tasks[t].ts == Instant(ts, step, feeders)(t)
          && (t >= feeders + i || (f <= t < feeders) ==> s.tasks[t].status.Waiting? && s.tasks[t].round == 0))
    && Credits(s.spenders[0]) == c
    && (forall t :: f <= t < feeders ==> Total(s.ledger, Granted, EndOf(ts, step, t)) == 0)
    && Total(s.ledger, Granted, EndOf(ts, step, feeders)) == i
    && AllowedUntil(s.tasks, EndOf(ts, step, feeders)) == i * most
  }

  lemma {:induction false} EndsApart(ts: int, step: int, i: int, j: int)
    requires step > 0
    ensures EndOf(ts, step, i) < EndOf(ts, step, j) <==> i < j
  {
    MulLt(i + 1, j + 1, step);
  }

  /** One feeder's unit: too little for it, but there for the others. */
  lemma {:induction false} Feed(cfg: Config, events: seq<Event>, i: nat, c: int, f: nat, feeders: nat, most: int,
                                b: int, windowMs: int)
    returns (longer: seq<Event>)
    requires windowMs > 0 && cfg.limit >= 1 && f < feeders && 0 <= c < most - 1
    requires Costs(events, most) && PunctualRun(cfg, events, windowMs)
    requires Fed(cfg, After(cfg, events), i, c, f, feeders, most, b * windowMs, windowMs)
    ensures Costs(longer, most) && PunctualRun(cfg, longer, windowMs)
    ensures Fed(cfg, After(cfg, longer), i, c + 1, f + 1, feeders, most, b * windowMs, windowMs)
  {
    hide Sum, AllowedUntil, Next, After, WindowEnd, EndOf, PunctualRun;
    var ts := b * windowMs;
    var s, e, w := After(cfg, events), EndOf(ts, windowMs, f), EndOf(ts, windowMs, feeders);
    var answer := Answer(f, Grant(1, e));
    longer := events + [answer];
    RunIsBalanced(cfg, events);
    hide Balanced;
    AtItsWindow(b, windowMs, feeders, f);
    AfterExtends(cfg, events, answer);
    PunctualExtends(cfg, events, answer, windowMs);
    EndsApart(ts, windowMs, f, feeders);
    AnswerKeeps(cfg, s, f, answer.lease, w);
    forall t | f + 1 <= t < feeders
      ensures Total(After(cfg, longer).ledger, Granted, EndOf(ts, windowMs, t)) == 0
    {
      EndsApart(ts, windowMs, f, t);
      AnswerKeeps(cfg, s, f, answer.lease, EndOf(ts, windowMs, t));
    }
  }

  /** With one unit missing, one unit of `w` serves a check for `most`. */
  lemma {:induction false} ServeFed(cfg: Config, events: seq<Event>, i: nat, f: nat, feeders: nat, most: int,
                                    b: int, windowMs: int)
    returns (longer: seq<Event>)
    requires windowMs > 0 && i < cfg.limit && most >= 1
    requires Costs(events, most) && PunctualRun(cfg, events, windowMs)
    requires Fed(cfg, After(cfg, events), i, most - 1, f, feeders, most, b * windowMs, windowMs)
    ensures Costs(longer, most) && PunctualRun(cfg, longer, windowMs)
    ensures Fed(cfg, After(cfg, longer), i + 1, 0, f, feeders, most, b * windowMs, windowMs)
  {
    hide Sum, AllowedUntil, Next, After, WindowEnd, EndOf, PunctualRun;
    var ts := b * windowMs;
    var s, w, t := After(cfg, events), EndOf(ts, windowMs, feeders), feeders + i;
    var answer := Answer(t, Grant(1, w));
    longer := events + [answer];
    RunIsBalanced(cfg, events);
    hide Balanced;
    AtItsWindow(b, windowMs, feeders, feeders);
    assert s.tasks[t].ts == Instant(ts, windowMs, feeders)(feeders);
    AfterExtends(cfg, events, answer);
    PunctualExtends(cfg, events, answer, windowMs);
    OneMore(i, most);
    AnswerServes(cfg, s, t, answer.lease, w);
    forall u | f <= u < feeders
      ensures Total(After(cfg, longer).ledger, Granted, EndOf(ts, windowMs, u)) == 0
    {
      EndsApart(ts, windowMs, u, feeders);
      AnswerServes(cfg, s, t, answer.lease, EndOf(ts, windowMs, u));
    }
  }

  lemma {:induction false} FedAtFirst(cfg: Config, s: State, feeders: nat, most: int, ts: int, step: int)
    requires cfg.clients >= 1
    requires s == State(Idle(cfg).spenders, Waits(feeders + cfg.limit, most, Instant(ts, step, feeders)), [])
    ensures Fed(cfg, s, 0, 0, 0, feeders, most, ts, step)
  {
    hide Instant;
    WaitingIsNotAllowed(s.tasks, EndOf(ts, step, feeders));
  }

  /** `c` units for the next check, after those for the `i` before it. */
  lemma {:induction false} FeedAll(cfg: Config, i: nat, c: nat, most: int, b: int, windowMs: int) returns (events: seq<Event>)
    requires windowMs > 0 && cfg.clients >= 1 && cfg.limit >= 1 && most >= 1
    requires c <= most - 1 && (i < cfg.limit || (i == cfg.limit && c == 0))
    ensures Costs(events, most) && PunctualRun(cfg, events, windowMs)
    ensures i * (most - 1) + c >= 0 && cfg.limit * (most - 1) >= 0
    ensures Fed(cfg, After(cfg, events), i, c, i * (most - 1) + c, cfg.limit * (most - 1), most, b * windowMs, windowMs)
    decreases i, c
  {
    hide After, Fed, PunctualRun;
    MulLe(0, i, most - 1);
    MulLe(0, cfg.limit, most - 1);
    var feeders := cfg.limit * (most - 1);
    if c > 0 {
      var before := FeedAll(cfg, i, c - 1, most, b, windowMs);
      MulLe(i + 1, cfg.limit, most - 1);
      OneMore(i, most - 1);
      events := Feed(cfg, before, i, c - 1, i * (most - 1) + c - 1, feeders, most, b, windowMs);
    } else if i > 0 {
      var before := FeedAll(cfg, i - 1, most - 1, most, b, windowMs);
      OneMore(i - 1, most - 1);
      events := ServeFed(cfg, before, i - 1, i * (most - 1), feeders, most, b, windowMs);
    } else {
      var at := Instant(b * windowMs, windowMs, feeders);
      forall x, y | x <= y ensures at(x) <= at(y) {
        InstantsGrow(b * windowMs, windowMs, feeders, x, y);
      }
      events := ManyAwait(cfg, feeders + cfg.limit, most, at);
      FedAtFirst(cfg, After(cfg, events), feeders, most, b * windowMs, windowMs);
    }
  }

  /**
   One coroutine limiter with costs of `most` allows `most` units for each unit of a window's budget, with
   every reply for the window of its check, for any batch and any budget.
   */
  lemma {:induction false} CoroutinesMultiplyTheLimit(cfg: Config, most: int, b: int, windowMs: int) returns (events: seq<Event>)
    requires cfg.clients >= 1 && cfg.limit >= 1 && most >= 1 && windowMs > 0
    ensures Costs(events, most) && PunctualRun(cfg, events, windowMs)
    ensures AllowedUntil(After(cfg, events).tasks, EndOf(b * windowMs, windowMs, cfg.limit * (most - 1))) == cfg.limit * most
  {
    hide After, PunctualRun;
    events := FeedAll(cfg, cfg.limit, 0, most, b, windowMs);
  }

  // ---------- replies that come late ----------

  /** `k` of `m + 1` unit checks have had all replies but one, and the next one `r` replies, each too late. */
  ghost predicate Starved(cfg: Config, s: State, k: nat, r: nat, m: nat, ts: int, last: int) {
    && |s.spenders| == cfg.clients >= 1 && |s.tasks| == m + 1 && k <= m
    && (forall t :: 0 <= t <= m ==>
          s.tasks[t] == Task(0, ts, 1, if t < k then MAX_ROUNDS - 1 else if t == k then r else 0, Waiting))
    && Credits(s.spenders[0]) == 0 && Coupled(s.spenders[0])
    && Untried(s, last)
  }

  lemma {:induction false} Waste(cfg: Config, events: seq<Event>, k: nat, r: nat, m: nat, ts: int, last: int)
    returns (longer: seq<Event>)
    requires cfg.coupled && cfg.limit >= 1 && k < m && r + 1 < MAX_ROUNDS && last < ts
    requires Costs(events, 1) && OrderlyUpTo(events, last) && Starved(cfg, After(cfg, events), k, r, m, ts, last)
    ensures Costs(longer, 1) && OrderlyUpTo(longer, last + 1)
    ensures Starved(cfg, After(cfg, longer), k, r + 1, m, ts, last + 1)
  {
    hide Sum, AllowedUntil, Next, After;
    var s, answer := After(cfg, events), Answer(k, Grant(1, last + 1));
    longer := events + [answer];
    RunIsBalanced(cfg, events);
    hide Balanced;
    AfterExtends(cfg, events, answer);
    AnswerWasted(cfg, s, k, answer.lease, last + 1);
    forall w | w > last + 1
      ensures Total(After(cfg, longer).ledger, Granted, w) == 0 && AllowedUntil(After(cfg, longer).tasks, w) == 0
    {
      AnswerWasted(cfg, s, k, answer.lease, w);
    }
  }

  lemma {:induction false} NextStarves(cfg: Config, s: State, k: nat, m: nat, ts: int, last: int)
    requires k < m && Starved(cfg, s, k, MAX_ROUNDS - 1, m, ts, last)
    ensures Starved(cfg, s, k + 1, 0, m, ts, last)
  {}

  lemma {:induction false} NoneStarves(cfg: Config, events: seq<Event>, m: nat, ts: int, last: int)
    requires cfg.clients >= 1 && After(cfg, events) == State(Idle(cfg).spenders, Waits(m + 1, 1, Instant(ts, 0, 0)), [])
    requires Untried(After(cfg, events), last) && forall i :: 0 <= i < |events| ==> events[i].Start?
    ensures Starved(cfg, After(cfg, events), 0, 0, m, ts, last) && OrderlyUpTo(events, last)
  {
    hide After;
  }

  /** The late replies of the first `k` checks, and `r` of the next one, each from a window of its own. */
  lemma {:induction false} WasteAll(cfg: Config, k: nat, r: nat, m: nat, ts: int) returns (events: seq<Event>)
    requires cfg.coupled && cfg.clients >= 1 && cfg.limit >= 1 && k <= m && r < MAX_ROUNDS && (k == m ==> r == 0)
    ensures var last := ts - (m - k) * (MAX_ROUNDS - 1) + r;
            && Costs(events, 1) && OrderlyUpTo(events, last)
            && Starved(cfg, After(cfg, events), k, r, m, ts, last)
    decreases k, r
  {
    hide After, Starved, OrderlyUpTo;
    if r > 0 {
      var before := WasteAll(cfg, k, r - 1, m, ts);
      events := Waste(cfg, before, k, r - 1, m, ts, ts - (m - k) * (MAX_ROUNDS - 1) + r - 1);
    } else if k > 0 {
      events := WasteAll(cfg, k - 1, MAX_ROUNDS - 1, m, ts);
      NextStarves(cfg, After(cfg, events), k - 1, m, ts, ts - (m - k) * (MAX_ROUNDS - 1));
    } else {
      var at := Instant(ts, 0, 0);
      events := ManyAwait(cfg, m + 1, 1, at);
      var last := ts - m * (MAX_ROUNDS - 1);
      NothingTried(cfg, m + 1, 1, at, last);
      NoneStarves(cfg, events, m, ts, last);
    }
  }

  /** The last replies of the first `k` checks have come in time, and too late for the rounds: their units are left. */
  ghost predicate GaveUp(cfg: Config, s: State, k: nat, m: nat, ts: int) {
    && |s.spenders| == cfg.clients >= 1 && |s.tasks| == m + 1 && k <= m
    && (forall t :: 0 <= t < k ==> s.tasks[t].status.Ended?)
    && (forall t :: k <= t <= m ==> s.tasks[t] == Task(0, ts, 1, if t < m then MAX_ROUNDS - 1 else 0, Waiting))
    && Credits(s.spenders[0]) == k
    && Untried(s, ts + k)
  }

  lemma {:induction false} GiveUp(cfg: Config, events: seq<Event>, k: nat, m: nat, ts: int) returns (longer: seq<Event>)
    requires cfg.limit >= 1 && k < m
    requires Costs(events, 1) && OrderlyUpTo(events, ts + k) && GaveUp(cfg, After(cfg, events), k, m, ts)
    ensures Costs(longer, 1) && OrderlyUpTo(longer, ts + k + 1) && GaveUp(cfg, After(cfg, longer), k + 1, m, ts)
  {
    hide Sum, AllowedUntil, Next, After;
    var s, answer := After(cfg, events), Answer(k, Grant(1, ts + k + 1));
    longer := events + [answer];
    RunIsBalanced(cfg, events);
    hide Balanced;
    AfterExtends(cfg, events, answer);
    AnswerKeeps(cfg, s, k, answer.lease, ts + k + 1);
    forall w | w > ts + k + 1
      ensures Total(After(cfg, longer).ledger, Granted, w) == 0 && AllowedUntil(After(cfg, longer).tasks, w) == 0
    {
      AnswerKeeps(cfg, s, k, answer.lease, w);
    }
  }

  lemma {:induction false} GiveUpAll(cfg: Config, k: nat, m: nat, ts: int) returns (events: seq<Event>)
    requires cfg.coupled && cfg.clients >= 1 && cfg.limit >= 1 && k <= m
    ensures Costs(events, 1) && OrderlyUpTo(events, ts + k) && GaveUp(cfg, After(cfg, events), k, m, ts)
  {
    hide After, OrderlyUpTo;
    if k == 0 {
      events := WasteAll(cfg, m, 0, m, ts);
    } else {
      hide GaveUp;
      var before := GiveUpAll(cfg, k - 1, m, ts);
      events := GiveUp(cfg, before, k - 1, m, ts);
    }
  }

  /**
   A window-coupled coroutine limiter with unit costs and unit grants overruns without bound as well: `m`
   checks lose all their replies but one to windows that are over, keep the last without a round to spend it
   in, and one more check takes the units they leave.
   */
  lemma {:induction false} LateGrantsOverrunWithoutBound(cfg: Config, m: nat, ts: int) returns (events: seq<Event>)
    requires cfg.coupled && cfg.clients >= 1 && cfg.limit >= 1
    ensures Costs(events, 1) && OrderlyUpTo(events, ts + m + 1)
    ensures AllowedUntil(After(cfg, events).tasks, ts + m + 1) == cfg.limit + m
  {
    hide Sum, AllowedUntil, Next, After, Blocked, PunctualBefore;
    var w := ts + m + 1;
    var before := GiveUpAll(cfg, m, m, ts);
    var s, answer := After(cfg, before), Answer(m, Grant(1, w));
    RunIsBalanced(cfg, before);
    AnswerServes(cfg, s, m, answer.lease, w);
    hide Balanced;
    AfterExtends(cfg, before, answer);
    events := before + [answer];
    events := SpendDown(cfg, events, 0, m, 1, w);
    events := TopUp(cfg, events, 0, 1, w);
  }
}
