/**
 How far a window's budget can be overrun: what single events do to the sums of a window, an exact
 account of what a state still allows, and the replies that make an intact window exceedable.
 */
module FleetOverrun {
  import opened LeaseSpender
  import opened LeasedLimiter
  import opened AsyncLeasedLimiter
  import opened Fleet
  import opened FleetSafety

  /** The sums that matter for window `w`. */
  datatype Tally = Tally(granted: int, movedIn: int, movedOut: int, discarded: int, allowed: int)

  function TallyOf(s: State, w: int): Tally {
    Tally(Total(s.ledger, Granted, w), Total(s.ledger, MovedIn, w), Total(s.ledger, MovedOut, w),
          Total(s.ledger, Discarded, w), AllowedUntil(s.tasks, w))
  }

  // ---------- what single events do ----------

  lemma {:induction false} SumWithout(ledger: seq<Entry>, entry: seq<Entry>, kind: Kind, w: int)
    requires |entry| == 1 && entry[0].kind != kind
    ensures Total(ledger + entry, kind, w) == Total(ledger, kind, w)
  {}

  /** A check that finds enough good credits is served at once. */
  lemma {:induction false} StartSpends(cfg: Config, s: State, i: nat, ts: int, cost: int, w: int)
    requires Balanced(cfg, s) && i < cfg.clients
    requires s.spenders[i].Some? && s.spenders[i].value.credits >= cost > 0
    requires s.spenders[i].value.expiresAt.Some? && ts < s.spenders[i].value.expiresAt.value
    ensures var sp := s.spenders[i].value;
            var after := Next(cfg, s, Start(i, ts, cost));
            && after.spenders == s.spenders[i := Some(sp.(credits := sp.credits - cost))]
            && |after.tasks| == |s.tasks| + 1 && after.tasks[..|s.tasks|] == s.tasks
            && after.tasks[|s.tasks|].status.Ended? && after.tasks[|s.tasks|].status.verdict.Decided?
            && TallyOf(after, w)
               == TallyOf(s, w).(allowed := TallyOf(s, w).allowed + if sp.expiresAt == Some(w) then cost else 0)
  {
    hide Sum, AllowedUntil, Net, Held;
    var sp := s.spenders[i].value;
    var after := Next(cfg, s, Start(i, ts, cost));
    var none: seq<Entry> := [];
    var served := [Entry(Allowed, i, sp.expiresAt.value, cost, ts)];
    assert none + served == served;
    AllowedUntilExtends(s.tasks, after.tasks[|s.tasks|], w);
    SumWithout(s.ledger, served, Granted, w);
    SumWithout(s.ledger, served, MovedIn, w);
    SumWithout(s.ledger, served, MovedOut, w);
    SumWithout(s.ledger, served, Discarded, w);
  }

  /** A check that finds too little, none of it out of date, waits and changes nothing. */
  lemma {:induction false} StartWaits(cfg: Config, s: State, i: nat, ts: int, cost: int)
    requires Balanced(cfg, s) && i < cfg.clients
    requires s.spenders[i].Some? ==>
               s.spenders[i].value.credits < cost && cost > 0 && !Stale(s.spenders[i].value, ts)
    ensures Next(cfg, s, Start(i, ts, cost))
            == State(s.spenders, s.tasks + [Task(i, ts, cost, 0, Waiting)], s.ledger)
  {}

  /** The credits a client has, whatever their window. */
  function Credits(s: Option<Spender>): int {
    if s.Some? then s.value.credits else 0
  }

  lemma {:induction false} AnswerSum(s: State, client: nat, found: Option<Spender>, ts: int, lease: Lease,
                                     served: seq<Entry>, kind: Kind, w: int)
    requires InCredit(found) && lease.Granted()
    requires |served| == 1 && served[0].kind != kind
    ensures Total(s.ledger + Credited(client, found, ts, lease) + served, kind, w)
            == Total(s.ledger, kind, w) + Total(Credited(client, found, ts, lease), kind, w)
    ensures Total(Credited(client, found, ts, lease), kind, w)
            == (if kind.Granted? && w == lease.expiryMs then lease.capacity else 0)
               + (if Relabels(found, lease) && kind.MovedOut? && found.value.expiresAt == Some(w) then found.value.credits else 0)
               + (if Relabels(found, lease) && kind.MovedIn? && w == lease.expiryMs then found.value.credits else 0)
  {
    hide Sum, Credited;
    var credited := Credited(client, found, ts, lease);
    SumWithout(s.ledger + credited, served, kind, w);
    SumAppend(s.ledger, credited, Pick(kind, None, Some(w)));
    CreditedAdds(client, found, ts, lease, Pick(kind, None, Some(w)));
  }

  lemma {:induction false} AnswerTally(s: State, client: nat, found: Option<Spender>, ts: int, lease: Lease,
                                       served: seq<Entry>, w: int)
    requires InCredit(found) && lease.Granted()
    requires |served| == 1 && served[0].kind.Allowed?
    ensures var ledger := s.ledger + Credited(client, found, ts, lease) + served;
            && Total(ledger, Granted, w) == Total(s.ledger, Granted, w) + (if w == lease.expiryMs then lease.capacity else 0)
            && (w == lease.expiryMs ==>
                  && Total(ledger, MovedIn, w)
                     == Total(s.ledger, MovedIn, w) + (if Relabels(found, lease) then Credits(found) else 0)
                  && Total(ledger, MovedOut, w) == Total(s.ledger, MovedOut, w)
                  && Total(ledger, Discarded, w) == Total(s.ledger, Discarded, w))
  {
    AnswerSum(s, client, found, ts, lease, served, Granted, w);
    AnswerSum(s, client, found, ts, lease, served, MovedIn, w);
    AnswerSum(s, client, found, ts, lease, served, MovedOut, w);
    AnswerSum(s, client, found, ts, lease, served, Discarded, w);
  }

  /** A reply in time with enough units: the check is served, and what was left is relabelled if need be. */
  lemma {:induction false} AnswerServes(cfg: Config, s: State, t: nat, lease: Lease, w: int)
    requires Balanced(cfg, s) && Offered(cfg, s, t, lease) && lease.Granted()
    requires s.tasks[t].ts < lease.expiryMs && s.tasks[t].round + 1 < MAX_ROUNDS
    requires 0 < s.tasks[t].cost <= Credits(s.spenders[s.tasks[t].client]) + lease.capacity
    ensures var task := s.tasks[t];
            var found := s.spenders[task.client];
            var after := Next(cfg, s, Answer(t, lease));
            && after.spenders
               == s.spenders[task.client := Some(Created(found, lease, cfg.coupled)
                                                 .(credits := Credits(found) + lease.capacity - task.cost,
                                                   expiresAt := Some(lease.expiryMs)))]
            && |after.tasks| == |s.tasks| && after.tasks == s.tasks[t := after.tasks[t]]
            && after.tasks[t].status.Ended? && after.tasks[t].status.verdict.Decided?
            && after.tasks[t].client == task.client && after.tasks[t].ts == task.ts && after.tasks[t].cost == task.cost
            && (w == lease.expiryMs ==>
                  var was := TallyOf(s, w);
                  TallyOf(after, w)
                  == Tally(was.granted + lease.capacity,
                           was.movedIn + (if Relabels(found, lease) then Credits(found) else 0),
                           was.movedOut, was.discarded, was.allowed + task.cost))
            && (w != lease.expiryMs ==>
                  && TallyOf(after, w).granted == TallyOf(s, w).granted
                  && TallyOf(after, w).allowed == TallyOf(s, w).allowed)
  {
    hide Sum, AllowedUntil, Net, Held;
    var task := s.tasks[t];
    var found := s.spenders[task.client];
    var after := Next(cfg, s, Answer(t, lease));
    assert InCredit(found);
    var applied := Apply(Created(found, lease, cfg.coupled), lease.capacity, lease.expiryMs);
    var none: seq<Entry> := [];
    var served := [Entry(Allowed, task.client, lease.expiryMs, task.cost, task.ts)];
    assert none + served == served;
    assert Spent(task.client, Some(applied), task.ts, task.cost, task.round + 1) == served;
    var credited := Credited(task.client, found, task.ts, lease);
    assert after.ledger == s.ledger + credited + served;
    AllowedUntilChanges(s.tasks, t, after.tasks[t], w);
    AnswerTally(s, task.client, found, task.ts, lease, served, w);
  }

  /** A reply in time that is too small, or comes in the last round: the units are kept for later. */
  lemma {:induction false} AnswerKeeps(cfg: Config, s: State, t: nat, lease: Lease, w: int)
    requires Balanced(cfg, s) && Offered(cfg, s, t, lease) && lease.Granted()
    requires s.tasks[t].ts < lease.expiryMs && s.tasks[t].cost > 0
    requires || s.tasks[t].round + 1 >= MAX_ROUNDS
             || Credits(s.spenders[s.tasks[t].client]) + lease.capacity < s.tasks[t].cost
    ensures var task := s.tasks[t];
            var found := s.spenders[task.client];
            var after := Next(cfg, s, Answer(t, lease));
            && after.spenders
               == s.spenders[task.client := Some(Created(found, lease, cfg.coupled)
                                                 .(credits := Credits(found) + lease.capacity,
                                                   expiresAt := Some(lease.expiryMs)))]
            && after.tasks == s.tasks[t := task.(round := task.round + 1,
                                                 status := if task.round + 1 >= MAX_ROUNDS then Ended(RoundsExceeded)
                                                           else Waiting)]
            && AllowedUntil(after.tasks, w) == AllowedUntil(s.tasks, w)
            && Total(after.ledger, Granted, w)
               == Total(s.ledger, Granted, w) + if w == lease.expiryMs then lease.capacity else 0
  {
    hide Sum, AllowedUntil, Net, Held;
    var task := s.tasks[t];
    var found := s.spenders[task.client];
    assert InCredit(found);
    var pick := Pick(Granted, None, Some(w));
    AllowedUntilChanges(s.tasks, t, Next(cfg, s, Answer(t, lease)).tasks[t], w);
    NextAdds(cfg, s, Answer(t, lease), pick);
    CreditedAdds(task.client, found, task.ts, lease, pick);
  }

  /** A reply that comes too late, before the last round: all credits are relabelled to it, and discarded. */
  lemma {:induction false} AnswerWasted(cfg: Config, s: State, t: nat, lease: Lease, w: int)
    requires Balanced(cfg, s) && Offered(cfg, s, t, lease) && lease.Granted()
    requires cfg.coupled && Coupled(s.spenders[s.tasks[t].client])
    requires s.tasks[t].ts >= lease.expiryMs && s.tasks[t].cost > 0 && s.tasks[t].round + 1 < MAX_ROUNDS
    ensures var task := s.tasks[t];
            var found := s.spenders[task.client];
            var after := Next(cfg, s, Answer(t, lease));
            && after.spenders
               == s.spenders[task.client := Some(Created(found, lease, cfg.coupled)
                                                 .(credits := 0, expiresAt := Some(lease.expiryMs)))]
            && after.tasks == s.tasks[t := task.(round := task.round + 1)]
            && AllowedUntil(after.tasks, w) == AllowedUntil(s.tasks, w)
            && Total(after.ledger, Granted, w)
               == Total(s.ledger, Granted, w) + if w == lease.expiryMs then lease.capacity else 0
  {
    hide Sum, AllowedUntil, Net, Held;
    var task := s.tasks[t];
    var found := s.spenders[task.client];
    assert InCredit(found);
    var pick := Pick(Granted, None, Some(w));
    AllowedUntilChanges(s.tasks, t, Next(cfg, s, Answer(t, lease)).tasks[t], w);
    NextAdds(cfg, s, Answer(t, lease), pick);
    CreditedAdds(task.client, found, task.ts, lease, pick);
  }

  // ---------- what a state still allows ----------

  /** What was allowed until `w`, what is held for it, and what the server may still grant for it. */
  function Exposure(cfg: Config, s: State, w: int): int {
    AllowedUntil(s.tasks, w) + HeldByAll(s.spenders, w) + (cfg.limit - Total(s.ledger, Granted, w))
  }

  lemma {:induction false} ExposureIsLimitAndMoves(cfg: Config, events: seq<Event>, w: int)
    ensures var s := After(cfg, events);
            var tally := TallyOf(s, w);
            Exposure(cfg, s, w) == cfg.limit + tally.movedIn - tally.movedOut - tally.discarded
  {
    hide Sum, AllowedUntil, HeldByAll, After;
    RunIsBalanced(cfg, events);
    LedgerMatchesDecisions(cfg, events, w);
    FleetBalances(cfg, After(cfg, events), w);
  }

  lemma {:induction false} DiscardsOnlyGrow(cfg: Config, s: State, event: Event, w: int)
    requires Balanced(cfg, s)
    ensures Total(Next(cfg, s, event).ledger, Discarded, w) >= Total(s.ledger, Discarded, w)
  {
    hide Attempt, Resume, Spent, Received, Sum, Net, Held;
    NextIsBalanced(cfg, s, event);
    var after := Next(cfg, s, event).ledger;
    assert s.ledger <= after;
    var added := after[|s.ledger|..];
    assert after == s.ledger + added;
    forall e | e in added ensures e.units >= 0 { assert e in after; }
    SumAppend(s.ledger, added, Pick(Discarded, None, Some(w)));
    SumIsNotNegative(added, Pick(Discarded, None, Some(w)));
  }

  lemma {:induction false} CleanMovesNothing(cfg: Config, s: State, event: Event, w: int)
    requires Balanced(cfg, s) && Clean(cfg, s, event)
    ensures Total(Next(cfg, s, event).ledger, MovedIn, w) == Total(s.ledger, MovedIn, w)
    ensures Total(Next(cfg, s, event).ledger, MovedOut, w) == Total(s.ledger, MovedOut, w)
  {
    hide Next, Sum, Net, Held, Credited;
    NextAdds(cfg, s, event, Pick(MovedIn, None, Some(w)));
    NextAdds(cfg, s, event, Pick(MovedOut, None, Some(w)));
    if event.Answer? && Offered(cfg, s, event.task, event.lease) && event.lease.Granted() {
      var task := s.tasks[event.task];
      assert InCredit(s.spenders[task.client]);
      CreditedAdds(task.client, s.spenders[task.client], task.ts, event.lease, Pick(MovedIn, None, Some(w)));
      CreditedAdds(task.client, s.spenders[task.client], task.ts, event.lease, Pick(MovedOut, None, Some(w)));
    }
  }

  /** Every event from index `n` on is clean. */
  predicate CleanSince(cfg: Config, events: seq<Event>, n: nat) {
    |events| > n ==>
      var before := events[..|events| - 1];
      CleanSince(cfg, before, n) && Clean(cfg, After(cfg, before), events[|events| - 1])
  }

  lemma {:induction false} CleanSinceExtends(cfg: Config, events: seq<Event>, event: Event, n: nat)
    requires CleanSince(cfg, events, n) && Clean(cfg, After(cfg, events), event)
    ensures CleanSince(cfg, events + [event], n)
  {}

  lemma {:induction false} ExposureNeverRises(cfg: Config, events: seq<Event>, more: seq<Event>, w: int)
    requires CleanSince(cfg, events + more, |events|)
    ensures Exposure(cfg, After(cfg, events + more), w) <= Exposure(cfg, After(cfg, events), w)
  {
    hide Exposure, Next, Clean, Sum, AllowedUntil;
    if more == [] {
      assert events + more == events;
    } else {
      var most := more[..|more| - 1];
      var event := more[|more| - 1];
      assert events + more == (events + most) + [event];
      assert (events + more)[..|events + more| - 1] == events + most;
      ExposureNeverRises(cfg, events, most, w);
      RunIsBalanced(cfg, events + most);
      ExposureIsLimitAndMoves(cfg, events + most, w);
      ExposureIsLimitAndMoves(cfg, events + more, w);
      DiscardsOnlyGrow(cfg, After(cfg, events + most), event, w);
      CleanMovesNothing(cfg, After(cfg, events + most), event, w);
    }
  }

  /** No clean continuation of a run allows more than its exposure. */
  lemma {:induction false} CleanContinuationsStayWithinExposure(cfg: Config, events: seq<Event>, more: seq<Event>, w: int)
    requires CleanSince(cfg, events + more, |events|)
    ensures AllowedUntil(After(cfg, events + more).tasks, w) <= Exposure(cfg, After(cfg, events), w)
  {
    hide After, Sum, AllowedUntil, HeldByAll;
    ExposureNeverRises(cfg, events, more, w);
    RunIsBalanced(cfg, events + more);
    FleetBalances(cfg, After(cfg, events + more), w);
    GrantsStayWithinLimit(cfg, events + more, w);
  }

  lemma {:induction false} StartIsClean(cfg: Config, s: State, event: Event)
    requires event.Start?
    ensures Clean(cfg, s, event)
  {}

  lemma {:induction false} SameTallySameExposure(cfg: Config, events: seq<Event>, others: seq<Event>, w: int)
    requires var (one, other) := (TallyOf(After(cfg, events), w), TallyOf(After(cfg, others), w));
             one == other.(allowed := one.allowed)
    ensures Exposure(cfg, After(cfg, events), w) == Exposure(cfg, After(cfg, others), w)
  {
    hide After, TallyOf, Exposure;
    ExposureIsLimitAndMoves(cfg, events, w);
    ExposureIsLimitAndMoves(cfg, others, w);
  }

  /** Checks that spend all that the first `n` clients hold, each in time. */
  lemma {:induction false} Drain(cfg: Config, events: seq<Event>, n: nat, w: int) returns (more: seq<Event>)
    requires n <= cfg.clients
    ensures CleanSince(cfg, events + more, |events|)
    ensures var s := After(cfg, events + more);
            && |s.spenders| == cfg.clients
            && (forall i :: 0 <= i < n ==> Credits(s.spenders[i]) == 0)
            && Exposure(cfg, s, w) == Exposure(cfg, After(cfg, events), w)
  {
    hide Next, Clean, Exposure, TallyOf, Net, Held;
    if n == 0 {
      more := [];
      assert events + more == events;
      RunIsBalanced(cfg, events);
    } else {
      more := Drain(cfg, events, n - 1, w);
      var run := events + more;
      var s := After(cfg, run);
      RunIsBalanced(cfg, run);
      assert InCredit(s.spenders[n - 1]);
      if Credits(s.spenders[n - 1]) > 0 {
        var sp := s.spenders[n - 1].value;
        var event := Start(n - 1, sp.expiresAt.value - 1, sp.credits);
        StartSpends(cfg, s, n - 1, sp.expiresAt.value - 1, sp.credits, w);
        AfterExtends(cfg, run, event);
        StartIsClean(cfg, s, event);
        CleanSinceExtends(cfg, run, event, |events|);
        SameTallySameExposure(cfg, run, run + [event], w);
        assert run + [event] == events + (more + [event]);
        more := more + [event];
      }
    }
  }

  lemma {:induction false} NothingHeld(spenders: seq<Option<Spender>>, w: int)
    requires forall i :: 0 <= i < |spenders| ==> Credits(spenders[i]) == 0
    ensures HeldByAll(spenders, w) == 0
  {
    if spenders != [] {
      NothingHeld(spenders[..|spenders| - 1], w);
    }
  }

  /** A reply of exactly `units`, for window `w`. */
  function Grant(units: int, w: int): Lease {
    Lease(units, w, 0, units, 0, units)
  }

  /** One check by a client without credits that asks for all the server may still grant for `w`. */
  lemma {:induction false} DrawRest(cfg: Config, s: State, client: nat, units: int, w: int)
    requires Balanced(cfg, s) && client < cfg.clients
    requires Credits(s.spenders[client]) == 0
    requires 0 < units <= cfg.limit - Total(s.ledger, Granted, w)
    ensures var waiting := Next(cfg, s, Start(client, w - 1, units));
            var answer := Answer(|s.tasks|, Grant(units, w));
            && Clean(cfg, waiting, answer)
            && AllowedUntil(Next(cfg, waiting, answer).tasks, w) == AllowedUntil(s.tasks, w) + units
  {
    hide Sum, AllowedUntil, Net, Held;
    var waiting := Next(cfg, s, Start(client, w - 1, units));
    StartWaits(cfg, s, client, w - 1, units);
    NextIsBalanced(cfg, s, Start(client, w - 1, units));
    hide Next;
    AnswerServes(cfg, waiting, |s.tasks|, Grant(units, w), w);
    AllowedUntilExtends(s.tasks, Task(client, w - 1, units, 0, Waiting), w);
  }

  /** The exposure is exact: some clean continuation allows all of it. */
  lemma {:induction false} ExposureIsReached(cfg: Config, events: seq<Event>, w: int) returns (more: seq<Event>)
    requires cfg.clients >= 1
    ensures CleanSince(cfg, events + more, |events|)
    ensures AllowedUntil(After(cfg, events + more).tasks, w) == Exposure(cfg, After(cfg, events), w)
  {
    hide Next, Clean, Sum, AllowedUntil, HeldByAll, Net, Held, InCredit;
    more := Drain(cfg, events, cfg.clients, w);
    var run := events + more;
    var s := After(cfg, run);
    RunIsBalanced(cfg, run);
    NothingHeld(s.spenders, w);
    GrantsStayWithinLimit(cfg, run, w);
    var rest := cfg.limit - Total(s.ledger, Granted, w);
    if rest > 0 {
      var start := Start(0, w - 1, rest);
      var answer := Answer(|s.tasks|, Grant(rest, w));
      DrawRest(cfg, s, 0, rest, w);
      AfterExtends(cfg, run, start);
      AfterExtends(cfg, run + [start], answer);
      StartIsClean(cfg, s, start);
      CleanSinceExtends(cfg, run, start, |events|);
      CleanSinceExtends(cfg, run + [start], answer, |events|);
      assert run + [start] + [answer] == events + (more + [start] + [answer]);
      more := more + [start] + [answer];
    }
  }

  /** `more` is a clean continuation on which window `w` is overrun. */
  ghost predicate Overruns(cfg: Config, events: seq<Event>, more: seq<Event>, w: int) {
    CleanSince(cfg, events + more, |events|) && AllowedUntil(After(cfg, events + more).tasks, w) > cfg.limit
  }

  /** The budget of `w` can be overrun from here without another relabelling, exactly when the ledger shows it. */
  lemma {:induction false} OverrunIff(cfg: Config, events: seq<Event>, w: int)
    requires cfg.clients >= 1
    ensures var tally := TallyOf(After(cfg, events), w);
            (exists more :: Overruns(cfg, events, more, w)) <==> tally.movedIn > tally.movedOut + tally.discarded
  {
    hide After, CleanSince, TallyOf, Exposure, AllowedUntil;
    ExposureIsLimitAndMoves(cfg, events, w);
    var best := ExposureIsReached(cfg, events, w);
    if exists more :: Overruns(cfg, events, more, w) {
      var more :| Overruns(cfg, events, more, w);
      CleanContinuationsStayWithinExposure(cfg, events, more, w);
    } else {
      assert !Overruns(cfg, events, best, w);
    }
  }

  // ---------- the reply that does the damage ----------

  /** The grant is out of date when it arrives: the check it was meant for discards it at once. */
  predicate Late(cfg: Config, found: Option<Spender>, task: Task, lease: Lease) {
    task.cost > 0 && task.round + 1 < MAX_ROUNDS && Created(found, lease, cfg.coupled).coupled && task.ts >= lease.expiryMs
  }

  lemma {:induction false} SpentDiscards(client: nat, sp: Spender, ts: int, cost: int, round: nat, w: int)
    requires sp.expiresAt == Some(w)
    ensures Total(Spent(client, Some(sp), ts, cost, round), Discarded, w)
            == if round < MAX_ROUNDS && cost > 0 && Stale(sp, ts) then sp.credits else 0
  {
    hide Sum;
    SumOfNone(Pick(Discarded, None, Some(w)));
    if round < MAX_ROUNDS && cost > 0 {
      SumTwo(if Stale(sp, ts) then [Entry(Discarded, client, w, sp.credits, ts)] else [],
             if Usable(sp, ts) >= cost then [Entry(Allowed, client, w, cost, ts)] else [],
             Pick(Discarded, None, Some(w)));
    }
  }

  lemma {:induction false} AnswerMoves(cfg: Config, s: State, t: nat, lease: Lease)
    requires Balanced(cfg, s) && Offered(cfg, s, t, lease) && lease.Granted()
    ensures var w := lease.expiryMs;
            var task := s.tasks[t];
            var found := s.spenders[task.client];
            var (was, now) := (TallyOf(s, w), TallyOf(Next(cfg, s, Answer(t, lease)), w));
            && now.movedIn == was.movedIn + (if Relabels(found, lease) then Credits(found) else 0)
            && now.movedOut == was.movedOut
            && now.discarded == was.discarded
                                + (if Late(cfg, found, task, lease) then Credits(found) + lease.capacity else 0)
  {
    hide Sum, AllowedUntil, Net, Held, Spent, Credited, Attempt;
    var w := lease.expiryMs;
    var task := s.tasks[t];
    var found := s.spenders[task.client];
    assert InCredit(found);
    var applied := Apply(Created(found, lease, cfg.coupled), lease.capacity, w);
    var credited := Credited(task.client, found, task.ts, lease);
    var spent := Spent(task.client, Some(applied), task.ts, task.cost, task.round + 1);
    NextAdds(cfg, s, Answer(t, lease), Pick(MovedIn, None, Some(w)));
    NextAdds(cfg, s, Answer(t, lease), Pick(MovedOut, None, Some(w)));
    CreditedAdds(task.client, found, task.ts, lease, Pick(MovedIn, None, Some(w)));
    CreditedAdds(task.client, found, task.ts, lease, Pick(MovedOut, None, Some(w)));
    CreditedAdds(task.client, found, task.ts, lease, Pick(Discarded, None, Some(w)));
    SpentDiscards(task.client, applied, task.ts, task.cost, task.round + 1, w);
    SumAppend(credited, spent, Pick(Discarded, None, Some(w)));
    SumAppend(s.ledger, credited + spent, Pick(Discarded, None, Some(w)));
  }

  /**
   As long as nothing of a window was moved or discarded, a reply for it makes its budget exceedable if
   and only if it finds credits of another window and does not come too late.
   */
  lemma {:induction false} ReplyBreaksTheBoundIff(cfg: Config, events: seq<Event>, t: nat, lease: Lease)
    requires Offered(cfg, After(cfg, events), t, lease) && lease.Granted()
    requires var tally := TallyOf(After(cfg, events), lease.expiryMs);
             tally.movedIn == tally.movedOut == tally.discarded == 0
    ensures var s := After(cfg, events);
            var found := s.spenders[s.tasks[t].client];
            (exists more :: Overruns(cfg, events + [Answer(t, lease)], more, lease.expiryMs))
            <==> Relabels(found, lease) && !Late(cfg, found, s.tasks[t], lease)
  {
    hide Next, Sum, AllowedUntil, Net, Held, Overruns, Late, TallyOf;
    var s := After(cfg, events);
    RunIsBalanced(cfg, events);
    assert InCredit(s.spenders[s.tasks[t].client]);
    AfterExtends(cfg, events, Answer(t, lease));
    AnswerMoves(cfg, s, t, lease);
    OverrunIff(cfg, events + [Answer(t, lease)], lease.expiryMs);
  }
}
