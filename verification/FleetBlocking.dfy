/**
 A fleet of blocking limiters: a client starts a check only when it awaits no reply. Then a reply finds
 fewer credits than its check asks for, and a window's budget is overshot by so little per client.
 */
module FleetBlocking {
  import opened Rounding
  import opened LeaseSpender
  import opened LeasedLimiter
  import opened AsyncLeasedLimiter
  import opened Fleet
  import opened FleetSafety

  /** The check `t` of `client` awaits a reply. */
  predicate Awaits(s: State, t: nat, client: nat) {
    t < |s.tasks| && s.tasks[t].status.Waiting? && s.tasks[t].client == client
  }

  ghost predicate Blocking(s: State, event: Event) {
    event.Start? ==> forall t: nat :: !Awaits(s, t, event.client)
  }

  ghost predicate BlockingRun(cfg: Config, events: seq<Event>) {
    events != [] ==>
      var before := events[..|events| - 1];
      BlockingRun(cfg, before) && Blocking(After(cfg, before), events[|events| - 1])
  }

  /** What a check that still waits has left behind: too little, and nothing that is out of date. */
  predicate Leftover(s: Option<Spender>, task: Task) {
    s.Some? ==>
      && s.value.credits < task.cost
      && (s.value.coupled && s.value.credits > 0 && s.value.expiresAt.Some? ==> task.ts < s.value.expiresAt.value)
  }

  ghost predicate OneAtATime(s: State) {
    && (forall t :: 0 <= t < |s.tasks| ==> s.tasks[t].client < |s.spenders|)
    && (forall client: nat, t: nat, u: nat :: Awaits(s, t, client) && Awaits(s, u, client) ==> t == u)
    && (forall client: nat, t: nat :: Awaits(s, t, client) ==> Leftover(s.spenders[client], s.tasks[t]))
  }

  lemma {:induction false} AttemptLeavesLess(s: Option<Spender>, task: Task)
    requires Attempt(s, task.ts, task.cost, task.round).1.Waiting?
    ensures Leftover(Attempt(s, task.ts, task.cost, task.round).0, task)
  {}

  lemma {:induction false} ResumeLeavesLess(s: Option<Spender>, coupled: bool, task: Task, lease: Lease)
    requires Resume(s, coupled, task.ts, task.cost, task.round, lease).1.Waiting?
    ensures Leftover(Resume(s, coupled, task.ts, task.cost, task.round, lease).0, task)
  {}

  lemma {:induction false} LeftoverOfTask(s: Option<Spender>, task: Task, other: Task)
    requires Leftover(s, task) && task.ts == other.ts && task.cost == other.cost
    ensures Leftover(s, other)
  {}

  lemma {:induction false} NextIsOneAtATime(cfg: Config, s: State, event: Event)
    requires OneAtATime(s) && Blocking(s, event)
    ensures OneAtATime(Next(cfg, s, event))
  {
    hide Attempt, Resume, Spent, Received, Leftover;
    var after := Next(cfg, s, event);
    match event
    case Start(client, ts, cost) =>
      if client < |s.spenders| {
        var task := after.tasks[|s.tasks|];
        if task.status.Waiting? {
          AttemptLeavesLess(s.spenders[client], task);
        }
        forall who: nat, t: nat | Awaits(after, t, who)
          ensures t < |s.tasks| ==> Awaits(s, t, who) && who != client
          ensures Leftover(after.spenders[who], after.tasks[t])
        {
          assert t < |s.tasks| ==> Awaits(s, t, who);
        }
      }
    case Answer(t, lease) =>
      if Offered(cfg, s, t, lease) {
        var task := s.tasks[t];
        assert Awaits(s, t, task.client);
        if after.tasks[t].status.Waiting? {
          ResumeLeavesLess(s.spenders[task.client], cfg.coupled, task, lease);
          LeftoverOfTask(after.spenders[task.client], task, after.tasks[t]);
        }
        forall who: nat, u: nat | Awaits(after, u, who)
          ensures Awaits(s, u, who)
          ensures Leftover(after.spenders[who], after.tasks[u])
        {
          assert Awaits(s, u, who);
        }
      }
  }

  lemma {:induction false} RunIsOneAtATime(cfg: Config, events: seq<Event>)
    requires BlockingRun(cfg, events)
    ensures OneAtATime(After(cfg, events))
  {
    hide Next;
    if events != [] {
      RunIsOneAtATime(cfg, events[..|events| - 1]);
      NextIsOneAtATime(cfg, After(cfg, events[..|events| - 1]), events[|events| - 1]);
    }
  }

  /** A reply to a blocking limiter finds fewer credits than its check asks for. */
  lemma {:induction false} ReplyFindsLessThanCost(cfg: Config, events: seq<Event>, t: nat, lease: Lease)
    requires BlockingRun(cfg, events)
    requires Offered(cfg, After(cfg, events), t, lease)
    ensures var s := After(cfg, events);
            Leftover(s.spenders[s.tasks[t].client], s.tasks[t])
  {
    hide Leftover;
    RunIsOneAtATime(cfg, events);
    var s := After(cfg, events);
    assert Awaits(s, t, s.tasks[t].client);
  }

  // ---------- unit costs ----------

  predicate CostsAtMost(events: seq<Event>, most: int) {
    forall i :: 0 <= i < |events| && events[i].Start? ==> events[i].cost <= most
  }

  lemma {:induction false} TasksCostAtMost(cfg: Config, events: seq<Event>, most: int)
    requires CostsAtMost(events, most)
    ensures forall t :: 0 <= t < |After(cfg, events).tasks| ==> After(cfg, events).tasks[t].cost <= most
  {
    hide Attempt, Resume, Spent, Received;
    if events != [] {
      var n := |events| - 1;
      TasksCostAtMost(cfg, events[..n], most);
      match events[n]
      case Start(client, ts, cost) => assert events[n].cost <= most;
      case Answer(t, lease) =>
    }
  }

  lemma {:induction false} LeavesNoCredit(s: Option<Spender>, task: Task)
    requires Leftover(s, task) && task.cost <= 1
    ensures s.Some? ==> s.value.credits <= 0
  {}

  lemma {:induction false} UnitCostsAreClean(cfg: Config, events: seq<Event>)
    requires BlockingRun(cfg, events) && CostsAtMost(events, 1)
    ensures CleanRun(cfg, events)
  {
    hide After, Leftover;
    if events != [] {
      var before := events[..|events| - 1];
      var s := After(cfg, before);
      var event := events[|events| - 1];
      UnitCostsAreClean(cfg, before);
      if event.Answer? && Offered(cfg, s, event.task, event.lease) {
        ReplyFindsLessThanCost(cfg, before, event.task, event.lease);
        TasksCostAtMost(cfg, before, 1);
        LeavesNoCredit(s.spenders[s.tasks[event.task].client], s.tasks[event.task]);
      }
    }
  }

  /** Blocking limiters serving unit costs never exceed a window's budget, whatever the clocks and the server do. */
  lemma {:induction false} BlockingUnitCostsStayWithinLimit(cfg: Config, events: seq<Event>, w: int)
    requires BlockingRun(cfg, events) && CostsAtMost(events, 1)
    ensures AllowedUntil(After(cfg, events).tasks, w) <= cfg.limit
  {
    UnitCostsAreClean(cfg, events);
    CleanFleetStaysWithinLimit(cfg, events, w);
  }

  // ---------- general costs ----------

  /** A client's grants never go back to an earlier window. */
  predicate Forward(cfg: Config, s: State, event: Event) {
    event.Answer? && Offered(cfg, s, event.task, event.lease) && event.lease.Granted() ==>
      var found := s.spenders[s.tasks[event.task].client];
      found.Some? && found.value.expiresAt.Some? ==> found.value.expiresAt.value <= event.lease.expiryMs
  }

  predicate ForwardRun(cfg: Config, events: seq<Event>) {
    events != [] ==>
      var before := events[..|events| - 1];
      ForwardRun(cfg, before) && Forward(cfg, After(cfg, before), events[|events| - 1])
  }

  /** The boundary a client's credits belong to has not reached `w`. */
  predicate Before(s: Option<Spender>, w: int) {
    s.Some? && s.value.expiresAt.Some? ==> s.value.expiresAt.value < w
  }

  /**
   What was relabelled to `w` at a client: less than one check asks for, nothing while `w` is still ahead,
   and nothing without a unit granted for `w`.
   */
  predicate MovedLittle(s: State, client: nat, w: int, most: int)
    requires client < |s.spenders|
  {
    var moved := Sum(s.ledger, Pick(MovedIn, Some(client), Some(w)));
    && moved <= most - 1
    && (Before(s.spenders[client], w) ==> moved == 0)
    && (moved > 0 ==> Sum(s.ledger, Pick(Granted, Some(client), Some(w))) >= 1)
  }

  lemma {:induction false} BoundaryAfter(s: Option<Spender>, coupled: bool, ts: int, cost: int, round: nat, lease: Lease)
    ensures Attempt(s, ts, cost, round).0.Some? == s.Some?
    ensures s.Some? ==> Attempt(s, ts, cost, round).0.value.expiresAt == s.value.expiresAt
    ensures Resume(s, coupled, ts, cost, round, lease).0.Some?
    ensures Resume(s, coupled, ts, cost, round, lease).0.value.expiresAt
            == if lease.Granted() then Some(lease.expiryMs) else if s.Some? then s.value.expiresAt else None
  {}

  lemma {:induction false} NextMovesLittle(cfg: Config, s: State, event: Event, client: nat, w: int, most: int)
    requires Balanced(cfg, s) && client < |s.spenders|
    requires MovedLittle(s, client, w, most) && Forward(cfg, s, event)
    requires event.Answer? && Offered(cfg, s, event.task, event.lease) ==>
               var task := s.tasks[event.task];
               task.cost <= most && Leftover(s.spenders[task.client], task)
    ensures |Next(cfg, s, event).spenders| == |s.spenders| && MovedLittle(Next(cfg, s, event), client, w, most)
  {
    hide Attempt, Resume, Spent, Received, Credited, Sum, Net, Held;
    var pick := Pick(MovedIn, Some(client), Some(w));
    var granted := Pick(Granted, Some(client), Some(w));
    NextAdds(cfg, s, event, pick);
    NextAdds(cfg, s, event, granted);
    SumIsNotNegative(s.ledger, granted);
    match event
    case Start(who, ts, cost) =>
      if who < |s.spenders| {
        BoundaryAfter(s.spenders[who], true, ts, cost, 0, Lease(0, 0, 0, 0, 0, 0));
      }
    case Answer(t, lease) =>
      if Offered(cfg, s, t, lease) {
        var task := s.tasks[t];
        BoundaryAfter(s.spenders[task.client], cfg.coupled, task.ts, task.cost, task.round, lease);
        if lease.Granted() {
          assert InCredit(s.spenders[task.client]);
          CreditedAdds(task.client, s.spenders[task.client], task.ts, lease, pick);
          CreditedAdds(task.client, s.spenders[task.client], task.ts, lease, granted);
        }
      }
  }

  lemma {:induction false} MovedLittleAtFirst(cfg: Config, client: nat, w: int, most: int)
    requires client < cfg.clients && most >= 1
    ensures MovedLittle(Idle(cfg), client, w, most)
  {}

  lemma {:induction false} RunMovesLittle(cfg: Config, events: seq<Event>, client: nat, w: int, most: int)
    requires client < cfg.clients && most >= 1
    requires BlockingRun(cfg, events) && ForwardRun(cfg, events) && CostsAtMost(events, most)
    ensures |After(cfg, events).spenders| == cfg.clients && MovedLittle(After(cfg, events), client, w, most)
  {
    hide Next, MovedLittle, Leftover, Forward;
    RunIsBalanced(cfg, events);
    if events == [] {
      MovedLittleAtFirst(cfg, client, w, most);
    } else {
      var before := events[..|events| - 1];
      var s := After(cfg, before);
      var event := events[|events| - 1];
      RunIsBalanced(cfg, before);
      RunMovesLittle(cfg, before, client, w, most);
      TasksCostAtMost(cfg, before, most);
      if event.Answer? && Offered(cfg, s, event.task, event.lease) {
        ReplyFindsLessThanCost(cfg, before, event.task, event.lease);
      }
      NextMovesLittle(cfg, s, event, client, w, most);
    }
  }

  /** A client that relabelled to `w` relabelled less than one check asks for, and was granted a unit. */
  lemma {:induction false} ByClientAtMost(cfg: Config, events: seq<Event>, w: int, most: int, n: nat)
    requires n <= cfg.clients && most >= 1
    requires BlockingRun(cfg, events) && ForwardRun(cfg, events) && CostsAtMost(events, most)
    ensures ByClient(After(cfg, events).ledger, MovedIn, w, n) <= n * (most - 1)
    ensures ByClient(After(cfg, events).ledger, MovedIn, w, n)
            <= ByClient(After(cfg, events).ledger, Granted, w, n) * (most - 1)
  {
    hide After, Sum, BlockingRun, ForwardRun, CostsAtMost;
    if n > 0 {
      var ledger := After(cfg, events).ledger;
      ByClientAtMost(cfg, events, w, most, n - 1);
      RunMovesLittle(cfg, events, n - 1, w, most);
      RunIsBalanced(cfg, events);
      var granted := Sum(ledger, Pick(Granted, Some(n - 1), Some(w)));
      SumIsNotNegative(ledger, Pick(Granted, Some(n - 1), Some(w)));
      MulLe(0, granted, most - 1);
      MulLe(1, if granted >= 1 then granted else 1, most - 1);
      assert n * (most - 1) == (n - 1) * (most - 1) + (most - 1);
      assert (ByClient(ledger, Granted, w, n - 1) + granted) * (most - 1)
             == ByClient(ledger, Granted, w, n - 1) * (most - 1) + granted * (most - 1);
    }
  }

  /**
   Blocking limiters whose grants move forward in time exceed a window's budget by less than one check
   for each client, and for each unit of the budget, for any costs.
   */
  lemma {:induction false} BlockingFleetOvershootsLittle(cfg: Config, events: seq<Event>, w: int, most: int)
    requires most >= 1
    requires BlockingRun(cfg, events) && ForwardRun(cfg, events) && CostsAtMost(events, most)
    ensures AllowedUntil(After(cfg, events).tasks, w) <= cfg.limit + Min(cfg.clients, cfg.limit) * (most - 1)
  {
    hide After, Sum, BlockingRun, ForwardRun, CostsAtMost, AllowedUntil;
    var ledger := After(cfg, events).ledger;
    RunIsBalanced(cfg, events);
    OvershootIsAtMostRelabelled(cfg, events, w);
    ByClientAtMost(cfg, events, w, most, cfg.clients);
    ByClientIsTotal(ledger, MovedIn, w, cfg.clients);
    ByClientIsTotal(ledger, Granted, w, cfg.clients);
    GrantsStayWithinLimit(cfg, events, w);
    MulLe(Total(ledger, Granted, w), cfg.limit, most - 1);
  }

  // ---------- any boundaries ----------

  /** A reply relabels less than one check asks for, and grants at least one unit. */
  lemma {:induction false} NextMovesByUnits(cfg: Config, s: State, event: Event, w: int, most: int)
    requires Balanced(cfg, s) && most >= 1
    requires Total(s.ledger, MovedIn, w) <= Total(s.ledger, Granted, w) * (most - 1)
    requires event.Answer? && Offered(cfg, s, event.task, event.lease) ==>
               var task := s.tasks[event.task];
               task.cost <= most && Leftover(s.spenders[task.client], task)
    ensures var ledger := Next(cfg, s, event).ledger;
            Total(ledger, MovedIn, w) <= Total(ledger, Granted, w) * (most - 1)
  {
    hide Next, Sum, Net, Held, Credited;
    var (moved, granted) := (Pick(MovedIn, None, Some(w)), Pick(Granted, None, Some(w)));
    NextAdds(cfg, s, event, moved);
    NextAdds(cfg, s, event, granted);
    if event.Answer? && Offered(cfg, s, event.task, event.lease) && event.lease.Granted() {
      var task := s.tasks[event.task];
      assert InCredit(s.spenders[task.client]);
      CreditedAdds(task.client, s.spenders[task.client], task.ts, event.lease, moved);
      CreditedAdds(task.client, s.spenders[task.client], task.ts, event.lease, granted);
      MulLe(1, event.lease.capacity, most - 1);
      var was := Total(s.ledger, Granted, w);
      assert (was + event.lease.capacity) * (most - 1) == was * (most - 1) + event.lease.capacity * (most - 1);
    }
  }

  lemma {:induction false} RunMovesByUnits(cfg: Config, events: seq<Event>, w: int, most: int)
    requires most >= 1 && BlockingRun(cfg, events) && CostsAtMost(events, most)
    ensures var ledger := After(cfg, events).ledger;
            Total(ledger, MovedIn, w) <= Total(ledger, Granted, w) * (most - 1)
  {
    if events != [] {
      hide Next, Leftover, Sum;
      var before := events[..|events| - 1];
      var s := After(cfg, before);
      var event := events[|events| - 1];
      RunIsBalanced(cfg, before);
      RunMovesByUnits(cfg, before, w, most);
      TasksCostAtMost(cfg, before, most);
      if event.Answer? && Offered(cfg, s, event.task, event.lease) {
        ReplyFindsLessThanCost(cfg, before, event.task, event.lease);
      }
      NextMovesByUnits(cfg, s, event, w, most);
    }
  }

  /** Whatever the boundaries, blocking limiters allow at most one check of the largest cost per unit of a window's budget. */
  lemma {:induction false} BlockingFleetIsBounded(cfg: Config, events: seq<Event>, w: int, most: int)
    requires most >= 1 && BlockingRun(cfg, events) && CostsAtMost(events, most)
    ensures AllowedUntil(After(cfg, events).tasks, w) <= cfg.limit * most
  {
    hide After, Sum, BlockingRun, CostsAtMost, AllowedUntil;
    var ledger := After(cfg, events).ledger;
    OvershootIsAtMostRelabelled(cfg, events, w);
    RunMovesByUnits(cfg, events, w, most);
    GrantsStayWithinLimit(cfg, events, w);
    MulLe(Total(ledger, Granted, w), cfg.limit, most - 1);
    assert cfg.limit * most == cfg.limit + cfg.limit * (most - 1);
  }

  // ---------- replies for the caller's own window ----------

  /** The end of the window of length `windowMs` that `ts` falls in. */
  function WindowEnd(windowMs: int, ts: int): int
    requires windowMs > 0
  {
    (FloorDiv(ts, windowMs) + 1) * windowMs
  }

  /** A client's checks are made at nondecreasing instants, and replies name the window of the check they serve. */
  ghost predicate Punctual(cfg: Config, s: State, event: Event, windowMs: int)
    requires windowMs > 0
  {
    match event
    case Start(client, ts, cost) =>
      forall t :: 0 <= t < |s.tasks| && s.tasks[t].client == client ==> s.tasks[t].ts <= ts
    case Answer(t, lease) =>
      Offered(cfg, s, t, lease) ==> lease.expiryMs == WindowEnd(windowMs, s.tasks[t].ts)
  }

  ghost predicate PunctualRun(cfg: Config, events: seq<Event>, windowMs: int)
    requires windowMs > 0
  {
    events != [] ==>
      var before := events[..|events| - 1];
      PunctualRun(cfg, before, windowMs) && Punctual(cfg, After(cfg, before), events[|events| - 1], windowMs)
  }

  /** The credits of a spender were granted for a check no later than `ts`. */
  ghost predicate FromThePast(s: Option<Spender>, tasks: seq<Task>, client: nat, windowMs: int)
    requires windowMs > 0
  {
    s.Some? && s.value.expiresAt.Some? ==>
      exists t :: 0 <= t < |tasks| && tasks[t].client == client
                  && s.value.expiresAt == Some(WindowEnd(windowMs, tasks[t].ts))
  }

  ghost predicate InOrder(s: State, windowMs: int)
    requires windowMs > 0
  {
    && (forall i: nat :: i < |s.spenders| ==> FromThePast(s.spenders[i], s.tasks, i, windowMs))
    && (forall t, u :: 0 <= t < u < |s.tasks| && s.tasks[t].client == s.tasks[u].client ==> s.tasks[t].ts <= s.tasks[u].ts)
    && (forall t, u :: 0 <= t < u < |s.tasks| && s.tasks[t].client == s.tasks[u].client ==> s.tasks[t].status.Ended?)
  }

  lemma {:induction false} FromThePastOf(s: Option<Spender>, tasks: seq<Task>, client: nat, windowMs: int, t: nat)
    requires windowMs > 0 && t < |tasks| && tasks[t].client == client
    requires s.Some? ==> s.value.expiresAt == Some(WindowEnd(windowMs, tasks[t].ts))
    ensures FromThePast(s, tasks, client, windowMs)
  {}

  lemma {:induction false} FromThePastStays(s: Option<Spender>, after: Option<Spender>, tasks: seq<Task>,
                                            more: seq<Task>, client: nat, windowMs: int)
    requires windowMs > 0
    requires FromThePast(s, tasks, client, windowMs)
    requires |more| >= |tasks| && forall t :: 0 <= t < |tasks| ==> more[t].client == tasks[t].client && more[t].ts == tasks[t].ts
    requires after.Some? && after.value.expiresAt.Some? ==> s.Some? && s.value.expiresAt == after.value.expiresAt
    ensures FromThePast(after, more, client, windowMs)
  {}

  lemma {:induction false} NextIsInOrder(cfg: Config, s: State, event: Event, windowMs: int)
    requires windowMs > 0
    requires InOrder(s, windowMs) && Blocking(s, event) && Punctual(cfg, s, event, windowMs)
    ensures InOrder(Next(cfg, s, event), windowMs)
  {
    hide Attempt, Resume, Spent, Received, FromThePast, WindowEnd;
    var after := Next(cfg, s, event);
    match event
    case Start(client, ts, cost) =>
      if client < |s.spenders| {
        BoundaryAfter(s.spenders[client], true, ts, cost, 0, Lease(0, 0, 0, 0, 0, 0));
        forall i: nat | i < |s.spenders| ensures FromThePast(after.spenders[i], after.tasks, i, windowMs) {
          FromThePastStays(s.spenders[i], after.spenders[i], s.tasks, after.tasks, i, windowMs);
        }
        forall t | 0 <= t < |s.tasks| && s.tasks[t].client == client ensures s.tasks[t].status.Ended? {
          assert !Awaits(s, t, client);
        }
      }
    case Answer(t, lease) =>
      if Offered(cfg, s, t, lease) {
        var task := s.tasks[t];
        BoundaryAfter(s.spenders[task.client], cfg.coupled, task.ts, task.cost, task.round, lease);
        forall i: nat | i < |s.spenders| ensures FromThePast(after.spenders[i], after.tasks, i, windowMs) {
          if i == task.client && lease.Granted() {
            FromThePastOf(after.spenders[i], after.tasks, i, windowMs, t);
          } else {
            FromThePastStays(s.spenders[i], after.spenders[i], s.tasks, after.tasks, i, windowMs);
          }
        }
      }
  }

  lemma {:induction false} RunIsInOrder(cfg: Config, events: seq<Event>, windowMs: int)
    requires windowMs > 0
    requires BlockingRun(cfg, events) && PunctualRun(cfg, events, windowMs)
    ensures InOrder(After(cfg, events), windowMs)
  {
    hide Next, Punctual, Blocking;
    if events == [] {
    } else {
      var before := events[..|events| - 1];
      RunIsInOrder(cfg, before, windowMs);
      NextIsInOrder(cfg, After(cfg, before), events[|events| - 1], windowMs);
    }
  }

  lemma {:induction false} SameWindow(windowMs: int, earlier: int, later: int)
    requires windowMs > 0
    requires earlier <= later < WindowEnd(windowMs, earlier)
    ensures WindowEnd(windowMs, later) == WindowEnd(windowMs, earlier)
  {
    FloorBounds(earlier, windowMs);
    FloorUnique(later, windowMs, FloorDiv(earlier, windowMs));
  }

  /** Credits that are still good at `task.ts` belong to the window `task.ts` falls in. */
  lemma {:induction false} GoodCreditsAreOfThisWindow(s: State, t: nat, windowMs: int)
    requires windowMs > 0 && t < |s.tasks| && s.tasks[t].client < |s.spenders|
    requires InOrder(s, windowMs) && s.tasks[t].status.Waiting?
    requires var found := s.spenders[s.tasks[t].client];
             InCredit(found) && Coupled(found) && Leftover(found, s.tasks[t])
    ensures var found := s.spenders[s.tasks[t].client];
            found.Some? && found.value.credits > 0 ==>
              found.value.expiresAt == Some(WindowEnd(windowMs, s.tasks[t].ts))
  {
    hide WindowEnd;
    var task := s.tasks[t];
    var found := s.spenders[task.client];
    if found.Some? && found.value.credits > 0 {
      assert FromThePast(found, s.tasks, task.client, windowMs);
      var u :| 0 <= u < |s.tasks| && s.tasks[u].client == task.client
               && found.value.expiresAt == Some(WindowEnd(windowMs, s.tasks[u].ts));
      SameWindow(windowMs, s.tasks[u].ts, task.ts);
    }
  }

  lemma {:induction false} PunctualRunsAreClean(cfg: Config, events: seq<Event>, windowMs: int)
    requires windowMs > 0 && cfg.coupled
    requires BlockingRun(cfg, events) && PunctualRun(cfg, events, windowMs)
    ensures CleanRun(cfg, events)
  {
    hide After, Leftover, InCredit, Coupled, InTime, WindowEnd, InOrder;
    if events != [] {
      var before := events[..|events| - 1];
      var s := After(cfg, before);
      var event := events[|events| - 1];
      PunctualRunsAreClean(cfg, before, windowMs);
      if event.Answer? && Offered(cfg, s, event.task, event.lease) {
        RunIsBalanced(cfg, before);
        NoAllowAfterItsBoundary(cfg, before);
        RunIsInOrder(cfg, before, windowMs);
        ReplyFindsLessThanCost(cfg, before, event.task, event.lease);
        GoodCreditsAreOfThisWindow(s, event.task, windowMs);
      }
    }
  }

  /**
   Window-coupled blocking limiters never exceed a window's budget, for any costs, when every client's
   checks are made at nondecreasing instants and every reply names the window its check falls in.
   `FleetCoroutines` shows that coroutines do, under the same conditions.
   */
  lemma {:induction false} PunctualFleetStaysWithinLimit(cfg: Config, events: seq<Event>, windowMs: int, w: int)
    requires windowMs > 0 && cfg.coupled
    requires BlockingRun(cfg, events) && PunctualRun(cfg, events, windowMs)
    ensures AllowedUntil(After(cfg, events).tasks, w) <= cfg.limit
  {
    PunctualRunsAreClean(cfg, events, windowMs);
    CleanFleetStaysWithinLimit(cfg, events, w);
  }
}
