/**
 The bounds of blocking limiters are reached, for any number of clients, any batch, any budget and any
 largest cost: by a run with grants that never go back in time, and by one client whose grants do.
 */
module FleetReached {
  import opened Rounding
  import opened LeaseSpender
  import opened LeasedLimiter
  import opened AsyncLeasedLimiter
  import opened Fleet
  import opened FleetSafety
  import opened FleetBlocking
  import opened FleetOverrun

  // ---------- runs with grants that never go back ----------

  /** Across the fleet, no reply names an earlier window than a reply before it, and none a later one than `last`. */
  ghost predicate OrderlyUpTo(events: seq<Event>, last: int) {
    && (forall i, j :: 0 <= i <= j < |events| && events[i].Answer? && events[j].Answer? ==>
          events[i].lease.expiryMs <= events[j].lease.expiryMs)
    && (forall i :: 0 <= i < |events| && events[i].Answer? ==> events[i].lease.expiryMs <= last)
  }

  lemma {:induction false} BoundariesUpTo(cfg: Config, events: seq<Event>, last: int, i: nat)
    requires OrderlyUpTo(events, last) && i < cfg.clients
    ensures |After(cfg, events).spenders| == cfg.clients
    ensures var sp := After(cfg, events).spenders[i];
            sp.Some? && sp.value.expiresAt.Some? ==> sp.value.expiresAt.value <= last
  {
    hide Attempt, Resume, Spent, Received;
    RunIsBalanced(cfg, events);
    hide Balanced;
    if events != [] {
      var n := |events| - 1;
      var s := After(cfg, events[..n]);
      BoundariesUpTo(cfg, events[..n], last, i);
      match events[n]
      case Start(client, ts, cost) =>
        if client < |s.spenders| {
          BoundaryAfter(s.spenders[client], true, ts, cost, 0, Grant(0, 0));
        }
      case Answer(t, lease) =>
        if Offered(cfg, s, t, lease) {
          assert events[n].lease.expiryMs <= last;
          var task := s.tasks[t];
          BoundaryAfter(s.spenders[task.client], cfg.coupled, task.ts, task.cost, task.round, lease);
        }
    }
  }

  /** So each client's boundaries move forward. */
  lemma {:induction false} OrderlyIsForward(cfg: Config, events: seq<Event>, last: int)
    requires OrderlyUpTo(events, last)
    ensures ForwardRun(cfg, events)
  {
    hide After;
    if events != [] {
      var n := |events| - 1;
      var before := events[..n];
      OrderlyIsForward(cfg, before, last);
      if events[n].Answer? {
        var s := After(cfg, before);
        assert OrderlyUpTo(before, events[n].lease.expiryMs);
        RunIsBalanced(cfg, before);
        if Offered(cfg, s, events[n].task, events[n].lease) {
          BoundariesUpTo(cfg, before, events[n].lease.expiryMs, s.tasks[events[n].task].client);
        }
      }
    }
  }

  /** A run of blocking limiters with costs up to `most`. */
  ghost predicate Blocked(cfg: Config, events: seq<Event>, most: int) {
    BlockingRun(cfg, events) && CostsAtMost(events, most)
  }

  /** What grows a run does not put its grants out of order, if it goes on in window `later`. */
  ghost predicate StaysOrderly(events: seq<Event>, last: int, longer: seq<Event>, later: int) {
    OrderlyUpTo(events, last) ==> OrderlyUpTo(longer, later)
  }

  ghost predicate NoneAwaits(s: State, client: nat) {
    forall t: nat :: !Awaits(s, t, client)
  }

  lemma {:induction false} GrowsByStart(cfg: Config, events: seq<Event>, client: nat, ts: int, cost: int, most: int, last: int)
    requires Blocked(cfg, events, most) && cost <= most && NoneAwaits(After(cfg, events), client)
    ensures Blocked(cfg, events + [Start(client, ts, cost)], most)
    ensures StaysOrderly(events, last, events + [Start(client, ts, cost)], last)
  {
    hide After;
    assert (events + [Start(client, ts, cost)])[..|events|] == events;
  }

  lemma {:induction false} GrowsByAnswer(cfg: Config, events: seq<Event>, t: nat, lease: Lease, most: int, last: int)
    requires Blocked(cfg, events, most)
    ensures Blocked(cfg, events + [Answer(t, lease)], most)
    ensures last <= lease.expiryMs ==> StaysOrderly(events, last, events + [Answer(t, lease)], lease.expiryMs)
  {
    hide After;
    assert (events + [Answer(t, lease)])[..|events|] == events;
  }

  // ---------- one client of many ----------

  /** The client holds `c` credits that are good at `ts`. */
  predicate Holds(s: State, j: nat, c: int, ts: int) {
    && j < |s.spenders|
    && Credits(s.spenders[j]) == c
    && (c > 0 ==> s.spenders[j].value.expiresAt.Some? && ts < s.spenders[j].value.expiresAt.value)
  }

  /** Whatever check of the client awaits a reply, it is one for `most` units made for `ts`. */
  ghost predicate AsksFor(s: State, j: nat, most: int, ts: int) {
    forall t: nat :: Awaits(s, t, j) ==> s.tasks[t].cost == most && s.tasks[t].ts == ts
  }

  /** It lacks one unit for a check that awaits a reply. */
  ghost predicate Poised(s: State, j: nat, most: int, ts: int) {
    Holds(s, j, most - 1, ts) && AsksFor(s, j, most, ts) && exists t: nat :: Awaits(s, t, j)
  }

  ghost predicate Untouched(s: State, j: nat) {
    j < |s.spenders| && s.spenders[j].None? && NoneAwaits(s, j)
  }

  /** It has nothing left, and its boundary is `w`. */
  ghost predicate Finished(s: State, j: nat, w: int) {
    && j < |s.spenders| && s.spenders[j].Some?
    && s.spenders[j].value.credits == 0 && s.spenders[j].value.expiresAt == Some(w)
    && NoneAwaits(s, j)
  }

  /** Between the two states only client `j` has moved. */
  ghost predicate OnlyMoves(s: State, after: State, j: nat) {
    && |after.spenders| == |s.spenders|
    && (forall i :: 0 <= i < |s.spenders| && i != j ==> after.spenders[i] == s.spenders[i])
    && (forall t: nat, i: nat :: i != j ==> (Awaits(after, t, i) <==> Awaits(s, t, i)))
    && (forall t: nat, i: nat :: i != j && Awaits(s, t, i) ==> after.tasks[t] == s.tasks[t])
  }

  lemma {:induction false} OthersStay(s: State, after: State, j: nat, i: nat, most: int, ts: int, w: int)
    requires OnlyMoves(s, after, j) && i != j && i < |s.spenders|
    ensures Poised(s, i, most, ts) ==> Poised(after, i, most, ts)
    ensures Untouched(s, i) ==> Untouched(after, i)
    ensures Finished(s, i, w) ==> Finished(after, i, w)
  {
    if Poised(s, i, most, ts) {
      var t: nat :| Awaits(s, t, i);
      assert Awaits(after, t, i);
    }
  }

  lemma {:induction false} MovesChain(s: State, middle: State, after: State, j: nat)
    requires OnlyMoves(s, middle, j) && OnlyMoves(middle, after, j)
    ensures OnlyMoves(s, after, j)
  {}

  /** A new check of client `j`, or a new status of one of its own. */
  lemma {:induction false} OwnTaskMoves(s: State, after: State, j: nat, t: nat)
    requires t <= |s.tasks| <= |after.tasks| <= |s.tasks| + 1 && t < |after.tasks|
    requires |after.spenders| == |s.spenders|
    requires forall i :: 0 <= i < |s.spenders| && i != j ==> after.spenders[i] == s.spenders[i]
    requires t == |s.tasks| || (s.tasks[t].client == j && |after.tasks| == |s.tasks|)
    requires after.tasks[t].client == j
    requires forall u :: 0 <= u < |s.tasks| && u != t ==> after.tasks[u] == s.tasks[u]
    ensures OnlyMoves(s, after, j)
  {}

  /** What has been granted and allowed so far. */
  ghost predicate SameSums(s: State, after: State) {
    && (forall w :: Total(after.ledger, Granted, w) == Total(s.ledger, Granted, w))
    && (forall w :: AllowedUntil(after.tasks, w) == AllowedUntil(s.tasks, w))
  }

  lemma {:induction false} WaitingIsWorthNothing(task: Task, w: int)
    requires task.status.Waiting?
    ensures Worth(task, w) == 0
  {}

  /** The client gets a check for `most` under way, if none is. */
  lemma {:induction false} Ask(cfg: Config, events: seq<Event>, j: nat, c: int, most: int, ts: int, last: int)
    returns (longer: seq<Event>, t: nat)
    requires Blocked(cfg, events, most) && 0 <= c < most
    requires Holds(After(cfg, events), j, c, ts) && AsksFor(After(cfg, events), j, most, ts)
    ensures var (s, after) := (After(cfg, events), After(cfg, longer));
            && Blocked(cfg, longer, most) && StaysOrderly(events, last, longer, last)
            && Holds(after, j, c, ts) && AsksFor(after, j, most, ts) && Awaits(after, t, j)
            && after.spenders == s.spenders && OnlyMoves(s, after, j) && SameSums(s, after)
  {
    hide After, Blocked, OrderlyUpTo, Sum, AllowedUntil;
    var s := After(cfg, events);
    if u: nat :| Awaits(s, u, j) {
      longer, t := events, u;
    } else {
      RunIsBalanced(cfg, events);
      hide Balanced, Next;
      StartWaits(cfg, s, j, ts, most);
      AfterExtends(cfg, events, Start(j, ts, most));
      GrowsByStart(cfg, events, j, ts, most, most, last);
      longer, t := events + [Start(j, ts, most)], |s.tasks|;
      OwnTaskMoves(s, After(cfg, longer), j, t);
      forall w ensures AllowedUntil(After(cfg, longer).tasks, w) == AllowedUntil(s.tasks, w) {
        AllowedUntilExtends(s.tasks, Task(j, ts, most, 0, Waiting), w);
        WaitingIsWorthNothing(Task(j, ts, most, 0, Waiting), w);
      }
    }
  }

  /** One unit more, granted for window `e`, and still not enough. */
  lemma {:induction false} GatherOne(cfg: Config, events: seq<Event>, j: nat, c: int, most: int, ts: int, last: int, e: int)
    returns (longer: seq<Event>)
    requires Blocked(cfg, events, most) && 0 <= c < most - 1 && ts < e && last <= e
    requires Holds(After(cfg, events), j, c, ts) && AsksFor(After(cfg, events), j, most, ts)
    requires Total(After(cfg, events).ledger, Granted, e) < cfg.limit
    ensures var (s, after) := (After(cfg, events), After(cfg, longer));
            && Blocked(cfg, longer, most) && StaysOrderly(events, last, longer, e)
            && Holds(after, j, c + 1, ts) && AsksFor(after, j, most, ts)
            && OnlyMoves(s, after, j)
            && (forall w :: Total(after.ledger, Granted, w) == Total(s.ledger, Granted, w) + if w == e then 1 else 0)
            && (forall w :: AllowedUntil(after.tasks, w) == AllowedUntil(s.tasks, w))
  {
    hide After, Blocked, OrderlyUpTo, Sum, AllowedUntil, Next;
    var asking, t := Ask(cfg, events, j, c, most, ts, last);
    var s := After(cfg, asking);
    RunIsBalanced(cfg, asking);
    hide Balanced;
    AfterExtends(cfg, asking, Answer(t, Grant(1, e)));
    GrowsByAnswer(cfg, asking, t, Grant(1, e), most, last);
    longer := asking + [Answer(t, Grant(1, e))];
    AnswerKeeps(cfg, s, t, Grant(1, e), e);
    forall w
      ensures Total(After(cfg, longer).ledger, Granted, w) == Total(s.ledger, Granted, w) + if w == e then 1 else 0
      ensures AllowedUntil(After(cfg, longer).tasks, w) == AllowedUntil(s.tasks, w)
    {
      AnswerKeeps(cfg, s, t, Grant(1, e), w);
    }
    OwnTaskMoves(s, After(cfg, longer), j, t);
    MovesChain(After(cfg, events), s, After(cfg, longer), j);
    forall u: nat | Awaits(After(cfg, longer), u, j)
      ensures After(cfg, longer).tasks[u].cost == most && After(cfg, longer).tasks[u].ts == ts
    {
      assert Awaits(s, u, j);
    }
  }

  /** Nothing is granted beyond window `last`. */
  ghost predicate Fresh(s: State, last: int) {
    forall w :: w > last ==> Total(s.ledger, Granted, w) == 0
  }

  /** Between the two states nothing is allowed, and nothing granted for a window up to `last`. */
  ghost predicate SameUpTo(s: State, after: State, last: int) {
    && (forall w :: w <= last ==> Total(after.ledger, Granted, w) == Total(s.ledger, Granted, w))
    && (forall w :: AllowedUntil(after.tasks, w) == AllowedUntil(s.tasks, w))
  }

  /** Unit by unit, each from a window of its own, until one unit is missing. */
  lemma {:induction false} Gather(cfg: Config, events: seq<Event>, j: nat, c: int, most: int, ts: int, last: int)
    returns (longer: seq<Event>)
    requires cfg.limit >= 1 && 0 <= c <= most - 1 && ts <= last
    requires Blocked(cfg, events, most) && Fresh(After(cfg, events), last)
    requires Holds(After(cfg, events), j, c, ts) && AsksFor(After(cfg, events), j, most, ts)
    ensures var (s, after) := (After(cfg, events), After(cfg, longer));
            var later := last + (most - 1 - c);
            && Blocked(cfg, longer, most) && StaysOrderly(events, last, longer, later)
            && Fresh(after, later) && SameUpTo(s, after, last)
            && Poised(after, j, most, ts) && OnlyMoves(s, after, j)
    decreases most - c
  {
    hide After, Blocked, OrderlyUpTo, Sum, AllowedUntil, OnlyMoves, Awaits, Holds, AsksFor;
    var s := After(cfg, events);
    if c == most - 1 {
      var t;
      longer, t := Ask(cfg, events, j, c, most, ts, last);
    } else {
      var more := GatherOne(cfg, events, j, c, most, ts, last, last + 1);
      longer := Gather(cfg, more, j, c + 1, most, ts, last + 1);
      MovesChain(s, After(cfg, more), After(cfg, longer), j);
    }
  }

  // ---------- all clients ----------

  /** The first `done` clients have finished in window `w`, those up to `n` are poised, the others have not begun. */
  ghost predicate Lined(cfg: Config, s: State, done: nat, n: nat, most: int, ts: int, w: int) {
    && |s.spenders| == cfg.clients && done <= n <= cfg.clients
    && (forall i: nat :: i < done ==> Finished(s, i, w))
    && (forall i: nat :: done <= i < n ==> Poised(s, i, most, ts))
    && (forall i: nat :: n <= i < cfg.clients ==> Untouched(s, i))
  }

  lemma {:induction false} LineMoves(cfg: Config, s: State, after: State, j: nat, done: nat, n: nat, most: int, ts: int, w: int)
    requires Lined(cfg, s, done, n, most, ts, w) && OnlyMoves(s, after, j) && j < cfg.clients
    ensures |after.spenders| == cfg.clients
    ensures forall i: nat :: i < done && i != j ==> Finished(after, i, w)
    ensures forall i: nat :: done <= i < n && i != j ==> Poised(after, i, most, ts)
    ensures forall i: nat :: n <= i < cfg.clients && i != j ==> Untouched(after, i)
  {
    forall i: nat | i < cfg.clients && i != j
      ensures i < done ==> Finished(after, i, w)
      ensures done <= i < n ==> Poised(after, i, most, ts)
      ensures n <= i < cfg.clients ==> Untouched(after, i)
    {
      OthersStay(s, after, j, i, most, ts, w);
    }
  }

  lemma {:induction false} BeginsWithNothing(s: State, j: nat, most: int, ts: int)
    requires Untouched(s, j)
    ensures Holds(s, j, 0, ts) && AsksFor(s, j, most, ts)
  {}

  lemma {:induction false} LinedAtFirst(cfg: Config, most: int, ts: int, w: int)
    ensures Blocked(cfg, [], most) && OrderlyUpTo([], ts) && Fresh(After(cfg, []), ts)
    ensures forall e :: AllowedUntil(After(cfg, []).tasks, e) == 0
    ensures Lined(cfg, After(cfg, []), 0, 0, most, ts, w)
  {}

  lemma {:induction false} GatherAll(cfg: Config, n: nat, most: int, ts: int, w: int) returns (events: seq<Event>)
    requires cfg.limit >= 1 && n <= cfg.clients && most >= 1
    ensures var (s, last) := (After(cfg, events), ts + n * (most - 1));
            && Blocked(cfg, events, most) && OrderlyUpTo(events, last)
            && Fresh(s, last) && (forall e :: AllowedUntil(s.tasks, e) == 0)
            && Lined(cfg, s, 0, n, most, ts, w)
  {
    hide After, Blocked, OrderlyUpTo, Fresh, Poised, Untouched, Finished, AllowedUntil;
    if n == 0 {
      events := [];
      LinedAtFirst(cfg, most, ts, w);
    } else {
      var before := GatherAll(cfg, n - 1, most, ts, w);
      var s := After(cfg, before);
      BeginsWithNothing(s, n - 1, most, ts);
      MulLe(0, n - 1, most - 1);
      assert n * (most - 1) == (n - 1) * (most - 1) + (most - 1);
      events := Gather(cfg, before, n - 1, 0, most, ts, ts + (n - 1) * (most - 1));
      LineMoves(cfg, s, After(cfg, events), n - 1, 0, n - 1, most, ts, w);
    }
  }

  /** What a reply grants, whatever becomes of it. */
  lemma {:induction false} AnswerGrants(cfg: Config, s: State, t: nat, lease: Lease)
    requires Balanced(cfg, s) && Offered(cfg, s, t, lease) && lease.Granted()
    ensures forall w :: Total(Next(cfg, s, Answer(t, lease)).ledger, Granted, w)
                        == Total(s.ledger, Granted, w) + if w == lease.expiryMs then lease.capacity else 0
  {
    hide Next, Sum, Net, Held, Credited;
    var task := s.tasks[t];
    assert InCredit(s.spenders[task.client]);
    forall w
      ensures Total(Next(cfg, s, Answer(t, lease)).ledger, Granted, w)
              == Total(s.ledger, Granted, w) + if w == lease.expiryMs then lease.capacity else 0
    {
      NextAdds(cfg, s, Answer(t, lease), Pick(Granted, None, Some(w)));
      CreditedAdds(task.client, s.spenders[task.client], task.ts, lease, Pick(Granted, None, Some(w)));
    }
  }

  lemma {:induction false} NewClient(cfg: Config, s: State, j: nat, ts: int, cost: int)
    requires j < |s.spenders|
    ensures var after := Next(cfg, s, Start(j, ts, cost));
            |after.tasks| == |s.tasks| + 1 && after.tasks[|s.tasks|].client == j
  {}

  lemma {:induction false} OnlyOneAwaits(cfg: Config, events: seq<Event>, most: int, t: nat, j: nat)
    requires Blocked(cfg, events, most) && Awaits(After(cfg, events), t, j)
    ensures forall u: nat :: Awaits(After(cfg, events), u, j) ==> u == t
  {
    hide After, Leftover;
    RunIsOneAtATime(cfg, events);
  }

  lemma {:induction false} EndedAwaitsNoMore(s: State, after: State, t: nat, j: nat)
    requires t < |s.tasks| == |after.tasks| && after.tasks == s.tasks[t := after.tasks[t]] && after.tasks[t].status.Ended?
    requires forall u: nat :: Awaits(s, u, j) ==> u == t
    ensures NoneAwaits(after, j)
  {
    forall u: nat ensures !Awaits(after, u, j) {
      assert Awaits(after, u, j) ==> Awaits(s, u, j);
    }
  }

  /** The unit of `w` that a poised client lacks: it is allowed `most` units until `w`. */
  lemma {:induction false} Finish(cfg: Config, events: seq<Event>, j: nat, most: int, ts: int, last: int, w: int)
    returns (longer: seq<Event>)
    requires Blocked(cfg, events, most) && most >= 1 && ts < w
    requires Poised(After(cfg, events), j, most, ts)
    requires Total(After(cfg, events).ledger, Granted, w) < cfg.limit
    ensures var (s, after) := (After(cfg, events), After(cfg, longer));
            && Blocked(cfg, longer, most) && (last <= w ==> StaysOrderly(events, last, longer, w))
            && Finished(after, j, w) && OnlyMoves(s, after, j)
            && (forall e :: Total(after.ledger, Granted, e) == Total(s.ledger, Granted, e) + if e == w then 1 else 0)
            && AllowedUntil(after.tasks, w) == AllowedUntil(s.tasks, w) + most
  {
    hide After, Sum, AllowedUntil, Next, Blocked, OrderlyUpTo;
    var s := After(cfg, events);
    var t: nat :| Awaits(s, t, j);
    RunIsBalanced(cfg, events);
    OnlyOneAwaits(cfg, events, most, t, j);
    hide Balanced, Stale;
    AfterExtends(cfg, events, Answer(t, Grant(1, w)));
    GrowsByAnswer(cfg, events, t, Grant(1, w), most, last);
    longer := events + [Answer(t, Grant(1, w))];
    var after := After(cfg, longer);
    AnswerGrants(cfg, s, t, Grant(1, w));
    if s.tasks[t].round + 1 < MAX_ROUNDS {
      AnswerServes(cfg, s, t, Grant(1, w), w);
      OwnTaskMoves(s, after, j, t);
      EndedAwaitsNoMore(s, after, t, j);
    } else {
      AnswerKeeps(cfg, s, t, Grant(1, w), w);
      OwnTaskMoves(s, after, j, t);
      EndedAwaitsNoMore(s, after, t, j);
      RunIsBalanced(cfg, longer);
      hide Balanced;
      StartSpends(cfg, after, j, ts, most, w);
      AfterExtends(cfg, longer, Start(j, ts, most));
      GrowsByStart(cfg, longer, j, ts, most, most, w);
      longer := longer + [Start(j, ts, most)];
      var end := After(cfg, longer);
      assert forall u :: 0 <= u < |after.tasks| ==> end.tasks[u] == end.tasks[..|after.tasks|][u];
      NewClient(cfg, after, j, ts, most);
      OwnTaskMoves(after, end, j, |after.tasks|);
      MovesChain(s, after, end, j);
      forall e ensures Total(end.ledger, Granted, e) == Total(after.ledger, Granted, e) {
        StartSpends(cfg, after, j, ts, most, e);
      }
      forall u: nat ensures !Awaits(end, u, j) {
        assert !Awaits(after, u, j);
      }
    }
  }

  lemma {:induction false} FinishAll(cfg: Config, n: nat, done: nat, most: int, w: int) returns (events: seq<Event>)
    requires 1 <= n <= cfg.clients && done <= n <= cfg.limit && most >= 1
    ensures Blocked(cfg, events, most) && OrderlyUpTo(events, w)
    ensures var s := After(cfg, events);
            var ts := w - 1 - n * (most - 1);
            && Lined(cfg, s, done, n, most, ts, w)
            && Total(s.ledger, Granted, w) == done && AllowedUntil(s.tasks, w) == done * most
  {
    hide After, Blocked, Poised, Untouched, Finished, Sum, AllowedUntil;
    var ts := w - 1 - n * (most - 1);
    MulLe(0, n, most - 1);
    if done == 0 {
      events := GatherAll(cfg, n, most, ts, w);
    } else {
      var before := FinishAll(cfg, n, done - 1, most, w);
      var s := After(cfg, before);
      assert done * most == (done - 1) * most + most;
      events := Finish(cfg, before, done - 1, most, ts, w, w);
      LineMoves(cfg, s, After(cfg, events), done - 1, done - 1, n, most, ts, w);
    }
  }

  // ---------- the rest of the budget ----------

  /** All the costs are from 1 to `most`. */
  predicate Costs(events: seq<Event>, most: int) {
    forall i :: 0 <= i < |events| && events[i].Start? ==> 1 <= events[i].cost <= most
  }

  /** No check has run out of rounds. */
  ghost predicate NoneExceeded(s: State) {
    forall t :: 0 <= t < |s.tasks| ==> s.tasks[t].status != Ended(RoundsExceeded)
  }

  /** A run with replies for the window of each check, all of whose checks come before the end of window `w`. */
  ghost predicate PunctualBefore(cfg: Config, events: seq<Event>, windowMs: int, w: int) {
    && windowMs > 0 && PunctualRun(cfg, events, windowMs)
    && WindowEnd(windowMs, w - 1) == w
    && (forall t :: 0 <= t < |After(cfg, events).tasks| ==> After(cfg, events).tasks[t].ts <= w - 1)
  }

  lemma {:induction false} PunctualExtends(cfg: Config, events: seq<Event>, event: Event, windowMs: int)
    requires windowMs > 0 && PunctualRun(cfg, events, windowMs) && Punctual(cfg, After(cfg, events), event, windowMs)
    ensures PunctualRun(cfg, events + [event], windowMs)
  {
    hide After, Punctual;
    assert (events + [event])[..|events|] == events;
  }

  /** What unit checks made for the last instant of window `w`, with replies for `w`, do not spoil. */
  ghost predicate Keeps(cfg: Config, events: seq<Event>, longer: seq<Event>, most: int, w: int) {
    && (Blocked(cfg, events, most) ==> Blocked(cfg, longer, most))
    && (Costs(events, most) ==> Costs(longer, most))
    && (OrderlyUpTo(events, w) ==> OrderlyUpTo(longer, w))
    && (NoneExceeded(After(cfg, events)) ==> NoneExceeded(After(cfg, longer)))
    && (forall windowMs :: PunctualBefore(cfg, events, windowMs, w) ==> PunctualBefore(cfg, longer, windowMs, w))
  }

  /** A client with `n` credits for window `w`, among clients that await nothing. */
  ghost predicate Ready(s: State, client: nat, n: int, w: int) {
    && (forall t :: 0 <= t < |s.tasks| ==> s.tasks[t].status.Ended?)
    && client < |s.spenders| && s.spenders[client].Some?
    && s.spenders[client].value.credits == n && s.spenders[client].value.expiresAt == Some(w)
  }

  lemma {:induction false} StartIsPunctual(cfg: Config, events: seq<Event>, event: Event, windowMs: int, w: int)
    requires event.Start? && event.ts == w - 1 && PunctualBefore(cfg, events, windowMs, w)
    ensures PunctualBefore(cfg, events + [event], windowMs, w)
  {
    hide Attempt, Spent, WindowEnd;
    PunctualExtends(cfg, events, event, windowMs);
    AfterExtends(cfg, events, event);
  }

  lemma {:induction false} AnswerIsPunctual(cfg: Config, events: seq<Event>, t: nat, lease: Lease, windowMs: int, w: int)
    requires PunctualBefore(cfg, events, windowMs, w) && lease.expiryMs == w
    requires t < |After(cfg, events).tasks| && After(cfg, events).tasks[t].ts == w - 1
    ensures PunctualBefore(cfg, events + [Answer(t, lease)], windowMs, w)
  {
    hide Resume, Received, WindowEnd;
    PunctualExtends(cfg, events, Answer(t, lease), windowMs);
    AfterExtends(cfg, events, Answer(t, lease));
  }

  /** One unit check, served by one of the credits. */
  lemma {:induction false} UnitSpend(cfg: Config, events: seq<Event>, client: nat, n: int, most: int, w: int)
    returns (longer: seq<Event>)
    requires client < cfg.clients && most >= 1 && n >= 1 && Ready(After(cfg, events), client, n, w)
    ensures var (s, after) := (After(cfg, events), After(cfg, longer));
            && Keeps(cfg, events, longer, most, w) && Ready(after, client, n - 1, w)
            && Total(after.ledger, Granted, w) == Total(s.ledger, Granted, w)
            && AllowedUntil(after.tasks, w) == AllowedUntil(s.tasks, w) + 1
  {
    hide Sum, AllowedUntil, Net, Held, After, Blocked, Next, PunctualBefore;
    var s := After(cfg, events);
    var start := Start(client, w - 1, 1);
    RunIsBalanced(cfg, events);
    StartSpends(cfg, s, client, w - 1, 1, w);
    hide Balanced;
    AfterExtends(cfg, events, start);
    longer := events + [start];
    var after := After(cfg, longer);
    assert forall t :: 0 <= t < |s.tasks| ==> after.tasks[t] == after.tasks[..|s.tasks|][t];
    if Blocked(cfg, events, most) {
      GrowsByStart(cfg, events, client, w - 1, 1, most, w);
    }
    forall windowMs | PunctualBefore(cfg, events, windowMs, w) ensures PunctualBefore(cfg, longer, windowMs, w) {
      StartIsPunctual(cfg, events, start, windowMs, w);
    }
  }

  /** Unit checks that spend all the credits. */
  lemma {:induction false} SpendDown(cfg: Config, events: seq<Event>, client: nat, n: nat, most: int, w: int)
    returns (longer: seq<Event>)
    requires client < cfg.clients && most >= 1 && Ready(After(cfg, events), client, n, w)
    ensures var (s, after) := (After(cfg, events), After(cfg, longer));
            && Keeps(cfg, events, longer, most, w) && Ready(after, client, 0, w)
            && Total(after.ledger, Granted, w) == Total(s.ledger, Granted, w)
            && AllowedUntil(after.tasks, w) == AllowedUntil(s.tasks, w) + n
    decreases n
  {
    hide After, Sum, AllowedUntil, Ready, Blocked, Costs, OrderlyUpTo, NoneExceeded, PunctualBefore;
    if n == 0 {
      longer := events;
    } else {
      var more := UnitSpend(cfg, events, client, n, most, w);
      longer := SpendDown(cfg, more, client, n - 1, most, w);
    }
  }

  /** One unit check, served by one unit of `w`. */
  lemma {:induction false} UnitCheck(cfg: Config, events: seq<Event>, client: nat, most: int, w: int) returns (longer: seq<Event>)
    requires client < cfg.clients && most >= 1 && Ready(After(cfg, events), client, 0, w)
    requires Total(After(cfg, events).ledger, Granted, w) < cfg.limit
    ensures var (s, after) := (After(cfg, events), After(cfg, longer));
            && Keeps(cfg, events, longer, most, w) && Ready(after, client, 0, w)
            && Total(after.ledger, Granted, w) == Total(s.ledger, Granted, w) + 1
            && AllowedUntil(after.tasks, w) == AllowedUntil(s.tasks, w) + 1
  {
    hide Sum, AllowedUntil, Net, Held, After, Blocked, PunctualBefore;
    var s := After(cfg, events);
    var (start, answer) := (Start(client, w - 1, 1), Answer(|s.tasks|, Grant(1, w)));
    RunIsBalanced(cfg, events);
    StartWaits(cfg, s, client, w - 1, 1);
    AfterExtends(cfg, events, start);
    var waiting := After(cfg, events + [start]);
    RunIsBalanced(cfg, events + [start]);
    hide Next, Balanced;
    AnswerServes(cfg, waiting, |s.tasks|, Grant(1, w), w);
    AllowedUntilExtends(s.tasks, Task(client, w - 1, 1, 0, Waiting), w);
    AfterExtends(cfg, events + [start], answer);
    longer := events + [start] + [answer];
    var after := After(cfg, longer);
    assert after.tasks[..|s.tasks|] == s.tasks;
    assert forall t :: 0 <= t < |s.tasks| ==> after.tasks[t] == after.tasks[..|s.tasks|][t];
    if Blocked(cfg, events, most) {
      GrowsByStart(cfg, events, client, w - 1, 1, most, w);
      GrowsByAnswer(cfg, events + [start], |s.tasks|, Grant(1, w), most, w);
    }
    forall windowMs | PunctualBefore(cfg, events, windowMs, w) ensures PunctualBefore(cfg, longer, windowMs, w) {
      StartIsPunctual(cfg, events, start, windowMs, w);
      AnswerIsPunctual(cfg, events + [start], |s.tasks|, Grant(1, w), windowMs, w);
    }
  }

  /** Unit checks for all the server may still grant for `w`. */
  lemma {:induction false} TopUp(cfg: Config, events: seq<Event>, client: nat, most: int, w: int) returns (longer: seq<Event>)
    requires client < cfg.clients && most >= 1 && Ready(After(cfg, events), client, 0, w)
    ensures Keeps(cfg, events, longer, most, w)
    ensures AllowedUntil(After(cfg, longer).tasks, w)
            == AllowedUntil(After(cfg, events).tasks, w) + cfg.limit - Total(After(cfg, events).ledger, Granted, w)
    decreases cfg.limit - Total(After(cfg, events).ledger, Granted, w)
  {
    hide After, Sum, AllowedUntil, Ready, Blocked, Costs, OrderlyUpTo, NoneExceeded, PunctualBefore;
    GrantsStayWithinLimit(cfg, events, w);
    if Total(After(cfg, events).ledger, Granted, w) == cfg.limit {
      longer := events;
    } else {
      var more := UnitCheck(cfg, events, client, most, w);
      longer := TopUp(cfg, more, client, most, w);
    }
  }

  // ---------- the bound ----------

  lemma {:induction false} AllFinishedIsReady(cfg: Config, events: seq<Event>, n: nat, most: int, ts: int, w: int)
    requires Blocked(cfg, events, most) && 1 <= n && Lined(cfg, After(cfg, events), n, n, most, ts, w)
    ensures Ready(After(cfg, events), 0, 0, w)
  {
    hide After, Leftover;
    RunIsOneAtATime(cfg, events);
    var s := After(cfg, events);
    forall t | 0 <= t < |s.tasks| ensures s.tasks[t].status.Ended? {
      var client := s.tasks[t].client;
      assert if client < n then Finished(s, client, w) else Untouched(s, client);
      assert !Awaits(s, t, client);
    }
    assert Finished(s, 0, w);
  }

  lemma {:induction false} NothingAllowed(cfg: Config, most: int, w: int)
    ensures BlockingRun(cfg, []) && CostsAtMost([], most) && OrderlyUpTo([], w)
    ensures AllowedUntil(After(cfg, []).tasks, w) == 0
  {}

  /**
   The bound of blocking limiters is the best there is. Each client gathers units of earlier windows for a
   check that stays one unit short; then each gets that unit for `w`, and the rest of the budget is spent.
   */
  lemma {:induction false} BlockingOvershootIsReached(cfg: Config, most: int, w: int) returns (events: seq<Event>)
    requires cfg.clients >= 1 && most >= 1
    ensures BlockingRun(cfg, events) && ForwardRun(cfg, events) && CostsAtMost(events, most) && OrderlyUpTo(events, w)
    ensures AllowedUntil(After(cfg, events).tasks, w) == cfg.limit + Min(cfg.clients, cfg.limit) * (most - 1)
  {
    hide After, BlockingRun, ForwardRun, CostsAtMost, Lined, Sum, AllowedUntil;
    var n := Min(cfg.clients, cfg.limit);
    if n == 0 {
      events := [];
      NothingAllowed(cfg, most, w);
    } else {
      var finished := FinishAll(cfg, n, n, most, w);
      AllFinishedIsReady(cfg, finished, n, most, w - 1 - n * (most - 1), w);
      events := TopUp(cfg, finished, 0, most, w);
      assert n * most == n * (most - 1) + n;
    }
    OrderlyIsForward(cfg, events, w);
  }

  // ---------- boundaries that go back ----------

  lemma {:induction false} StaysFresh(s: State, after: State, last: int, w: int)
    requires Fresh(s, last) && w <= last
    requires forall e :: e != w ==> Total(after.ledger, Granted, e) == Total(s.ledger, Granted, e)
    ensures Fresh(after, last)
  {}

  lemma {:induction false} NothingGranted(cfg: Config, w: int)
    ensures Total(After(cfg, []).ledger, Granted, w) == 0
  {}

  lemma {:induction false} EndsWithNothing(s: State, j: nat, most: int, ts: int, w: int)
    requires Finished(s, j, w)
    ensures Holds(s, j, 0, ts) && AsksFor(s, j, most, ts)
  {}

  /**
   One round of a client that goes to and fro: it gathers units of later windows, and gets the one it lacks
   from `w`. The other clients stand still.
   */
  lemma {:induction false} ToAndFro(cfg: Config, k: nat, most: int, w: int) returns (events: seq<Event>)
    requires cfg.clients >= 1 && k <= cfg.limit && most >= 1
    ensures var (s, last) := (After(cfg, events), w + k * (most - 1));
            && Blocked(cfg, events, most) && Fresh(s, last)
            && |s.spenders| == cfg.clients
            && (if k == 0 then Untouched(s, 0) else Finished(s, 0, w))
            && Total(s.ledger, Granted, w) == k && AllowedUntil(s.tasks, w) == k * most
  {
    hide After, Blocked, Fresh, Poised, Untouched, Finished, Sum, AllowedUntil, OrderlyUpTo;
    MulLe(0, k, most - 1);
    if k == 0 {
      events := [];
      LinedAtFirst(cfg, most, w, w);
      NothingGranted(cfg, w);
      assert Untouched(After(cfg, []), 0);
    } else {
      var before := ToAndFro(cfg, k - 1, most, w);
      var s := After(cfg, before);
      MulLe(0, k - 1, most - 1);
      assert k * (most - 1) == (k - 1) * (most - 1) + (most - 1);
      assert k * most == (k - 1) * most + most;
      if k == 1 {
        BeginsWithNothing(s, 0, most, w - 1);
      } else {
        EndsWithNothing(s, 0, most, w - 1, w);
      }
      var poised := Gather(cfg, before, 0, 0, most, w - 1, w + (k - 1) * (most - 1));
      events := Finish(cfg, poised, 0, most, w - 1, w, w);
      StaysFresh(After(cfg, poised), After(cfg, events), w + k * (most - 1), w);
    }
  }

  /**
   When boundaries may go back one client is enough to reach the bound of all blocking fleets: each unit
   granted for `w` relabels the rest of a check.
   */
  lemma {:induction false} BlockingBoundIsReached(cfg: Config, most: int, w: int) returns (events: seq<Event>)
    requires cfg.clients >= 1 && most >= 1
    ensures BlockingRun(cfg, events) && CostsAtMost(events, most)
    ensures AllowedUntil(After(cfg, events).tasks, w) == cfg.limit * most
  {
    hide After, BlockingRun, CostsAtMost, Fresh, Untouched, Finished, Sum, AllowedUntil;
    events := ToAndFro(cfg, cfg.limit, most, w);
  }
}
