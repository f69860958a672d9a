/**
 When coroutines keep every window within its budget: exact conditions on the configuration and the
 largest cost, over all runs, over runs whose replies come in time, and over runs whose replies are for
 the window of each check.
 */
module FleetCoroutinesSafe {
  import opened Rounding
  import opened LeaseSpender
  import opened LeasedLimiter
  import opened AsyncLeasedLimiter
  import opened Fleet
  import opened FleetSafety
  import opened FleetBlocking
  import opened FleetOverrun
  import opened FleetReached
  import opened FleetCoroutines

  // ---------- replies in time ----------

  /** A reply that grants comes before the window it is for is over for its check. */
  predicate Timely(cfg: Config, s: State, event: Event) {
    event.Answer? && Offered(cfg, s, event.task, event.lease) && event.lease.Granted() ==>
      s.tasks[event.task].ts < event.lease.expiryMs
  }

  predicate TimelyRun(cfg: Config, events: seq<Event>) {
    events != [] ==>
      var before := events[..|events| - 1];
      TimelyRun(cfg, before) && Timely(cfg, After(cfg, before), events[|events| - 1])
  }

  lemma {:induction false} WindowEndIsLater(windowMs: int, ts: int)
    requires windowMs > 0
    ensures ts < WindowEnd(windowMs, ts)
  {
    FloorBounds(ts, windowMs);
    OneMore(FloorDiv(ts, windowMs), windowMs);
  }

  /** A reply for the window of its check is in time. */
  lemma {:induction false} PunctualIsTimely(cfg: Config, events: seq<Event>, windowMs: int)
    requires windowMs > 0 && PunctualRun(cfg, events, windowMs)
    ensures TimelyRun(cfg, events)
  {
    hide After, WindowEnd;
    if events != [] {
      var before, event := events[..|events| - 1], events[|events| - 1];
      PunctualIsTimely(cfg, before, windowMs);
      if event.Answer? && Offered(cfg, After(cfg, before), event.task, event.lease) {
        WindowEndIsLater(windowMs, After(cfg, before).tasks[event.task].ts);
      }
    }
  }

  // ---------- the safe side ----------

  /** No credits anywhere, and checks of one unit that wait for their first replies only. */
  ghost predicate NothingLeft(cfg: Config, s: State) {
    && (forall i :: 0 <= i < |s.spenders| ==>
          Credits(s.spenders[i]) == 0 && (s.spenders[i].Some? ==> s.spenders[i].value.coupled == cfg.coupled))
    && (forall t :: 0 <= t < |s.tasks| ==>
          s.tasks[t].cost == 1 && (s.tasks[t].status.Waiting? ==> s.tasks[t].round == 0))
  }

  predicate OfKind(s: Option<Spender>, coupled: bool) {
    Credits(s) == 0 && (s.Some? ==> s.value.coupled == coupled)
  }

  lemma {:induction false} StartLeavesNothing(s: Option<Spender>, coupled: bool, ts: int)
    requires OfKind(s, coupled)
    ensures OfKind(Attempt(s, ts, 1, 0).0, coupled)
  {}

  lemma {:induction false} AnswerLeavesNothing(s: Option<Spender>, coupled: bool, ts: int, lease: Lease)
    requires OfKind(s, coupled) && lease.capacity <= 1
    requires lease.Granted() && coupled ==> ts < lease.expiryMs
    ensures var (after, status) := Resume(s, coupled, ts, 1, 0, lease);
            OfKind(after, coupled) && status.Ended?
  {}

  lemma {:induction false} NextLeavesNothing(cfg: Config, s: State, event: Event)
    requires Balanced(cfg, s) && NothingLeft(cfg, s) && (cfg.batch <= 1 || cfg.limit <= 1)
    requires event.Start? ==> event.cost == 1
    requires cfg.coupled ==> Timely(cfg, s, event)
    ensures NothingLeft(cfg, Next(cfg, s, event)) && Clean(cfg, s, event)
  {
    hide Attempt, Resume, Spent, Received, Sum, Net, Held;
    match event
    case Start(client, ts, cost) =>
      if client < |s.spenders| {
        StartLeavesNothing(s.spenders[client], cfg.coupled, ts);
      }
    case Answer(t, lease) =>
      if Offered(cfg, s, t, lease) {
        var task := s.tasks[t];
        SumIsNotNegative(s.ledger, Pick(Granted, None, Some(lease.expiryMs)));
        AnswerLeavesNothing(s.spenders[task.client], cfg.coupled, task.ts, lease);
      }
  }

  lemma {:induction false} UnitRunsAreClean(cfg: Config, events: seq<Event>)
    requires Costs(events, 1) && (cfg.batch <= 1 || cfg.limit <= 1)
    requires cfg.coupled ==> TimelyRun(cfg, events)
    ensures CleanRun(cfg, events) && NothingLeft(cfg, After(cfg, events))
  {
    if events != [] {
      hide Next, Clean, Timely, NothingLeft;
      var n := |events| - 1;
      UnitRunsAreClean(cfg, events[..n]);
      RunIsBalanced(cfg, events[..n]);
      NextLeavesNothing(cfg, After(cfg, events[..n]), events[n]);
    }
  }

  /** A server with nothing to grant relabels nothing. */
  lemma {:induction false} NoBudgetIsClean(cfg: Config, events: seq<Event>)
    requires cfg.limit == 0
    ensures CleanRun(cfg, events)
  {
    hide After, Sum;
    if events != [] {
      var before, event := events[..|events| - 1], events[|events| - 1];
      NoBudgetIsClean(cfg, before);
      if event.Answer? {
        RunIsBalanced(cfg, before);
        SumIsNotNegative(After(cfg, before).ledger, Pick(Granted, None, Some(event.lease.expiryMs)));
      }
    }
  }

  // ---------- exact conditions ----------

  predicate WithinLimit(cfg: Config, events: seq<Event>, w: int) {
    AllowedUntil(After(cfg, events).tasks, w) <= cfg.limit
  }

  /** Grants are of one unit, and so are checks; or there is nothing to grant. */
  predicate SingleUnits(cfg: Config, most: int) {
    cfg.limit == 0 || (most == 1 && (cfg.batch <= 1 || cfg.limit <= 1))
  }

  lemma {:induction false} SingleUnitsAreSafe(cfg: Config, events: seq<Event>, most: int, w: int)
    requires Costs(events, most) && SingleUnits(cfg, most)
    requires cfg.limit == 0 || (cfg.coupled ==> TimelyRun(cfg, events))
    ensures WithinLimit(cfg, events, w)
  {
    hide After, AllowedUntil, CleanRun, Costs, TimelyRun, NothingLeft;
    if cfg.limit == 0 {
      NoBudgetIsClean(cfg, events);
    } else {
      UnitRunsAreClean(cfg, events);
    }
    CleanFleetStaysWithinLimit(cfg, events, w);
  }

  lemma {:induction false} CostsUpTo(events: seq<Event>, most: int)
    requires Costs(events, 1) && most >= 1
    ensures Costs(events, most)
  {}

  /** A punctual run that overruns, wherever grants or checks can be of several units. */
  lemma {:induction false} SeveralUnitsOverrun(cfg: Config, most: int, windowMs: int) returns (events: seq<Event>, w: int)
    requires cfg.clients >= 1 && most >= 1 && windowMs > 0 && !SingleUnits(cfg, most)
    ensures Costs(events, most) && PunctualRun(cfg, events, windowMs) && !WithinLimit(cfg, events, w)
  {
    hide After, AllowedUntil, PunctualRun;
    if most > 1 {
      w := EndOf(0 * windowMs, windowMs, cfg.limit * (most - 1));
      events := CoroutinesMultiplyTheLimit(cfg, most, 0, windowMs);
      MulLe(2, most, cfg.limit);
    } else {
      w := EndOf(0 * windowMs, windowMs, 1);
      events := CoroutinesOverrunWithoutBound(cfg, 1, 0, windowMs);
    }
  }

  /** Runs with costs up to `most` and replies for the window of each check. */
  ghost predicate PunctualCosts(cfg: Config, events: seq<Event>, most: int, windowMs: int) {
    windowMs > 0 && Costs(events, most) && PunctualRun(cfg, events, windowMs)
  }

  /**
   With nondecreasing instants and every reply for the window of its check, coroutines keep every window
   within its budget in all runs exactly when grants and costs are of one unit, or there is no budget.
   */
  lemma {:induction false} PunctualCoroutinesAreSafeIff(cfg: Config, most: int, windowMs: int)
    requires cfg.clients >= 1 && most >= 1 && windowMs > 0
    ensures (forall events, w :: PunctualCosts(cfg, events, most, windowMs) ==> WithinLimit(cfg, events, w))
            <==> SingleUnits(cfg, most)
  {
    hide Costs, PunctualRun, WithinLimit, SingleUnits;
    if SingleUnits(cfg, most) {
      forall events, w | PunctualCosts(cfg, events, most, windowMs) ensures WithinLimit(cfg, events, w) {
        PunctualIsTimely(cfg, events, windowMs);
        SingleUnitsAreSafe(cfg, events, most, w);
      }
    } else {
      var events, w := SeveralUnitsOverrun(cfg, most, windowMs);
      assert PunctualCosts(cfg, events, most, windowMs) && !WithinLimit(cfg, events, w);
    }
  }

  /** Runs with costs up to `most` and replies that come in time. */
  ghost predicate TimelyCosts(cfg: Config, events: seq<Event>, most: int) {
    Costs(events, most) && TimelyRun(cfg, events)
  }

  /** With replies that only come in time the condition is the same. */
  lemma {:induction false} TimelyCoroutinesAreSafeIff(cfg: Config, most: int)
    requires cfg.clients >= 1 && most >= 1
    ensures (forall events, w :: TimelyCosts(cfg, events, most) ==> WithinLimit(cfg, events, w))
            <==> SingleUnits(cfg, most)
  {
    hide Costs, TimelyRun, PunctualRun, WithinLimit, SingleUnits;
    if SingleUnits(cfg, most) {
      forall events, w | TimelyCosts(cfg, events, most) ensures WithinLimit(cfg, events, w) {
        SingleUnitsAreSafe(cfg, events, most, w);
      }
    } else {
      var events, w := SeveralUnitsOverrun(cfg, most, 1);
      PunctualIsTimely(cfg, events, 1);
      assert TimelyCosts(cfg, events, most) && !WithinLimit(cfg, events, w);
    }
  }

  /**
   Over all runs with costs up to `most`: coroutines keep every window within its budget exactly when
   grants and costs are of one unit and credits are not coupled to their window, or there is no budget.
   */
  lemma {:induction false} CoroutinesAreSafeIff(cfg: Config, most: int)
    requires cfg.clients >= 1 && most >= 1
    ensures (forall events, w :: Costs(events, most) ==> WithinLimit(cfg, events, w))
            <==> cfg.limit == 0 || (!cfg.coupled && SingleUnits(cfg, most))
  {
    hide Costs, TimelyRun, PunctualRun, After, AllowedUntil;
    if cfg.limit == 0 || (!cfg.coupled && SingleUnits(cfg, most)) {
      forall events, w | Costs(events, most) ensures WithinLimit(cfg, events, w) {
        SingleUnitsAreSafe(cfg, events, most, w);
      }
    } else if !SingleUnits(cfg, most) {
      var events, w := SeveralUnitsOverrun(cfg, most, 1);
      assert Costs(events, most) && !WithinLimit(cfg, events, w);
    } else {
      var events := LateGrantsOverrunWithoutBound(cfg, 1, 0);
      CostsUpTo(events, most);
      assert Costs(events, most) && !WithinLimit(cfg, events, 2);
    }
  }
}
