/**
 What the fleet may allow with one boundary as its `reset_at`, against the server's budget for that
 window: exactly the budget when no reply relabels credits, and the budget plus the relabelled credits
 otherwise.
 */
module FleetSafety {
  import opened LeaseSpender
  import opened LeasedLimiter
  import opened AsyncLeasedLimiter
  import opened Fleet

  // ---------- what every run keeps ----------

  lemma {:induction false} NextMatchesDecisions(cfg: Config, s: State, event: Event, w: int)
    requires Balanced(cfg, s)
    requires Total(s.ledger, Allowed, w) == AllowedUntil(s.tasks, w)
    ensures var after := Next(cfg, s, event);
            Total(after.ledger, Allowed, w) == AllowedUntil(after.tasks, w)
  {
    hide Attempt, Resume, Spent, Received, Sum, AllowedUntil, InCredit;
    var pick := Pick(Allowed, None, Some(w));
    match event
    case Start(client, ts, cost) =>
      if client < |s.spenders| {
        var found := s.spenders[client];
        var task := Task(client, ts, cost, 0, Attempt(found, ts, cost, 0).1);
        assert InCredit(found);
        SpentIsWorth(task, found, w);
        SumAppend(s.ledger, Spent(client, found, ts, cost, 0), pick);
        AllowedUntilExtends(s.tasks, task, w);
      }
    case Answer(t, lease) =>
      if Offered(cfg, s, t, lease) {
        var task := s.tasks[t];
        var found := s.spenders[task.client];
        assert InCredit(found);
        ReceivedIsWorth(task, found, cfg.coupled, lease, w);
        SumAppend(s.ledger, Received(task.client, found, cfg.coupled, task.ts, task.cost, task.round, lease), pick);
        AllowedUntilChanges(s.tasks, t, Next(cfg, s, event).tasks[t], w);
      }
  }

  /** The ledger's allowed units are those of the decisions the callers got. */
  lemma {:induction false} LedgerMatchesDecisions(cfg: Config, events: seq<Event>, w: int)
    ensures var s := After(cfg, events);
            Total(s.ledger, Allowed, w) == AllowedUntil(s.tasks, w)
  {
    if events != [] {
      var before := events[..|events| - 1];
      RunIsBalanced(cfg, before);
      LedgerMatchesDecisions(cfg, before, w);
      NextMatchesDecisions(cfg, After(cfg, before), events[|events| - 1], w);
    }
  }

  /** What one event adds to a sum of grants or of moves. */
  function Added(cfg: Config, s: State, event: Event, pick: Pick): int
    requires Balanced(cfg, s)
  {
    if event.Answer? && Offered(cfg, s, event.task, event.lease) && event.lease.Granted() then
      var task := s.tasks[event.task];
      Sum(Credited(task.client, s.spenders[task.client], task.ts, event.lease), pick)
    else
      0
  }

  lemma {:induction false} NextAdds(cfg: Config, s: State, event: Event, pick: Pick)
    requires Balanced(cfg, s)
    requires !pick.kind.Allowed? && !pick.kind.Discarded?
    ensures Sum(Next(cfg, s, event).ledger, pick) == Sum(s.ledger, pick) + Added(cfg, s, event, pick)
  {
    hide Attempt, Resume, Spent, Received, Credited, Sum;
    match event
    case Start(client, ts, cost) =>
      if client < |s.spenders| {
        SpentOnlySpends(client, s.spenders[client], ts, cost, 0, pick);
        SumAppend(s.ledger, Spent(client, s.spenders[client], ts, cost, 0), pick);
      }
    case Answer(t, lease) =>
      if Offered(cfg, s, t, lease) {
        var task := s.tasks[t];
        var found := s.spenders[task.client];
        ReceivedAdds(task.client, found, cfg.coupled, task.ts, task.cost, task.round, lease, pick);
        SumAppend(s.ledger, Received(task.client, found, cfg.coupled, task.ts, task.cost, task.round, lease), pick);
      }
  }

  /** The one assumption about the server, which `Offered` makes of each reply, as a fact about runs. */
  lemma {:induction false} GrantsStayWithinLimit(cfg: Config, events: seq<Event>, w: int)
    ensures Total(After(cfg, events).ledger, Granted, w) <= cfg.limit
  {
    if events != [] {
      var before := events[..|events| - 1];
      var s := After(cfg, before);
      var event := events[|events| - 1];
      var pick := Pick(Granted, None, Some(w));
      GrantsStayWithinLimit(cfg, before, w);
      RunIsBalanced(cfg, before);
      NextAdds(cfg, s, event, pick);
      if event.Answer? && Offered(cfg, s, event.task, event.lease) && event.lease.Granted() {
        var task := s.tasks[event.task];
        assert InCredit(s.spenders[task.client]);
        CreditedAdds(task.client, s.spenders[task.client], task.ts, event.lease, pick);
      }
    }
  }

  /** The spender is the same one. */
  predicate Same(s: Option<Spender>, after: Option<Spender>) {
    s.Some? ==> after.Some? && after.value == s.value.(credits := after.value.credits, expiresAt := after.value.expiresAt)
  }

  lemma {:induction false} NextKeepsSpenders(cfg: Config, s: State, event: Event)
    ensures var after := Next(cfg, s, event);
            && |after.spenders| == |s.spenders|
            && forall i :: 0 <= i < |s.spenders| ==> Same(s.spenders[i], after.spenders[i])
  {}

  /**
   Once there, a spender keeps all but its credits and their boundary. `NoGrantIsLost` says that no credits
   go either, and `AsyncLeasedLimiter.Deliver` that it is the very same object.
   */
  lemma {:induction false} SpenderIsCreatedOnce(cfg: Config, events: seq<Event>, more: seq<Event>, client: nat)
    requires client < cfg.clients
    ensures |After(cfg, events).spenders| == |After(cfg, events + more).spenders| == cfg.clients
    ensures Same(After(cfg, events).spenders[client], After(cfg, events + more).spenders[client])
  {
    hide Next;
    RunIsBalanced(cfg, events);
    if more == [] {
      assert events + more == events;
    } else {
      var most := more[..|more| - 1];
      SpenderIsCreatedOnce(cfg, events, most, client);
      assert events + more == (events + most) + [more[|more| - 1]];
      AfterExtends(cfg, events + most, more[|more| - 1]);
      NextKeepsSpenders(cfg, After(cfg, events + most), more[|more| - 1]);
    }
  }

  // ---------- the whole fleet ----------

  /** The units of `kind` in window `w` of the first `n` clients, client by client. */
  function ByClient(ledger: seq<Entry>, kind: Kind, w: int, n: nat): int {
    if n == 0 then 0 else ByClient(ledger, kind, w, n - 1) + Sum(ledger, Pick(kind, Some(n - 1), Some(w)))
  }

  lemma {:induction false} ByClientExtends(ledger: seq<Entry>, kind: Kind, w: int, n: nat)
    requires ledger != []
    ensures var last := ledger[|ledger| - 1];
            ByClient(ledger, kind, w, n)
            == ByClient(ledger[..|ledger| - 1], kind, w, n)
               + if last.client < n && last.kind == kind && last.window == w then last.units else 0
  {
    if n > 0 {
      ByClientExtends(ledger, kind, w, n - 1);
    }
  }

  lemma {:induction false} ByClientOfNone(kind: Kind, w: int, n: nat)
    ensures ByClient([], kind, w, n) == 0
  {
    if n > 0 {
      ByClientOfNone(kind, w, n - 1);
    }
  }

  lemma {:induction false} ByClientIsTotal(ledger: seq<Entry>, kind: Kind, w: int, n: nat)
    requires forall e :: e in ledger ==> e.client < n
    ensures ByClient(ledger, kind, w, n) == Total(ledger, kind, w)
  {
    if ledger == [] {
      ByClientOfNone(kind, w, n);
    } else {
      assert ledger[|ledger| - 1] in ledger;
      ByClientIsTotal(ledger[..|ledger| - 1], kind, w, n);
      ByClientExtends(ledger, kind, w, n);
    }
  }

  /** The credits held for window `w` by all the spenders. */
  function HeldByAll(spenders: seq<Option<Spender>>, w: int): int {
    if spenders == [] then
      0
    else
      HeldByAll(spenders[..|spenders| - 1], w) + Held(spenders[|spenders| - 1], Some(w))
  }

  lemma {:induction false} ClientsBalance(cfg: Config, s: State, w: int, n: nat)
    requires Balanced(cfg, s) && n <= |s.spenders|
    ensures ByClient(s.ledger, Granted, w, n) + ByClient(s.ledger, MovedIn, w, n)
            == ByClient(s.ledger, Allowed, w, n) + ByClient(s.ledger, Discarded, w, n)
               + ByClient(s.ledger, MovedOut, w, n) + HeldByAll(s.spenders[..n], w)
    ensures HeldByAll(s.spenders[..n], w) >= 0
  {
    if n > 0 {
      ClientsBalance(cfg, s, w, n - 1);
      assert s.spenders[..n][..n - 1] == s.spenders[..n - 1];
      assert InCredit(s.spenders[n - 1]);
      NetIsByKind(s.ledger, n - 1, w);
      assert Net(s.ledger, n - 1, Some(w)) == Held(s.spenders[n - 1], Some(w));
    }
  }

  lemma {:induction false} FleetBalances(cfg: Config, s: State, w: int)
    requires Balanced(cfg, s)
    ensures Total(s.ledger, Granted, w) + Total(s.ledger, MovedIn, w)
            == Total(s.ledger, Allowed, w) + Total(s.ledger, Discarded, w) + Total(s.ledger, MovedOut, w)
               + HeldByAll(s.spenders, w)
    ensures HeldByAll(s.spenders, w) >= 0
  {
    hide Sum, Net, HeldByAll, ByClient;
    var n := |s.spenders|;
    ClientsBalance(cfg, s, w, n);
    assert s.spenders[..n] == s.spenders;
    ByClientIsTotal(s.ledger, Granted, w, n);
    ByClientIsTotal(s.ledger, MovedIn, w, n);
    ByClientIsTotal(s.ledger, Allowed, w, n);
    ByClientIsTotal(s.ledger, Discarded, w, n);
    ByClientIsTotal(s.ledger, MovedOut, w, n);
  }

  lemma {:induction false} SumIsNotNegative(ledger: seq<Entry>, pick: Pick)
    requires forall e :: e in ledger ==> e.units >= 0
    ensures Sum(ledger, pick) >= 0
  {
    if ledger != [] {
      assert ledger[|ledger| - 1] in ledger;
      SumIsNotNegative(ledger[..|ledger| - 1], pick);
    }
  }

  // ---------- the bound ----------

  /**
   Over every run, with any number of checks under way on every client: the units allowed until `w`
   exceed the window's budget by no more than the credits relabelled to it.
   */
  lemma {:induction false} OvershootIsAtMostRelabelled(cfg: Config, events: seq<Event>, w: int)
    ensures var s := After(cfg, events);
            AllowedUntil(s.tasks, w) <= cfg.limit + Total(s.ledger, MovedIn, w)
  {
    hide Sum, AllowedUntil, HeldByAll, After;
    var s := After(cfg, events);
    RunIsBalanced(cfg, events);
    LedgerMatchesDecisions(cfg, events, w);
    GrantsStayWithinLimit(cfg, events, w);
    FleetBalances(cfg, s, w);
    SumIsNotNegative(s.ledger, Pick(Discarded, None, Some(w)));
    SumIsNotNegative(s.ledger, Pick(MovedOut, None, Some(w)));
  }

  /** The event is not a reply that relabels credits. */
  predicate Clean(cfg: Config, s: State, event: Event) {
    event.Answer? && Offered(cfg, s, event.task, event.lease) ==>
      !Relabels(s.spenders[s.tasks[event.task].client], event.lease)
  }

  predicate CleanRun(cfg: Config, events: seq<Event>) {
    events != [] ==>
      var before := events[..|events| - 1];
      CleanRun(cfg, before) && Clean(cfg, After(cfg, before), events[|events| - 1])
  }

  lemma {:induction false} CleanRunMovesNothing(cfg: Config, events: seq<Event>, w: int)
    requires CleanRun(cfg, events)
    ensures Total(After(cfg, events).ledger, MovedIn, w) == 0
  {
    if events != [] {
      var before := events[..|events| - 1];
      var s := After(cfg, before);
      var event := events[|events| - 1];
      var pick := Pick(MovedIn, None, Some(w));
      CleanRunMovesNothing(cfg, before, w);
      RunIsBalanced(cfg, before);
      NextAdds(cfg, s, event, pick);
      if event.Answer? && Offered(cfg, s, event.task, event.lease) && event.lease.Granted() {
        var task := s.tasks[event.task];
        assert InCredit(s.spenders[task.client]);
        CreditedAdds(task.client, s.spenders[task.client], task.ts, event.lease, pick);
      }
    }
  }

  /** However many clients lease, and however their checks interleave, a window's budget is never exceeded. */
  lemma {:induction false} CleanFleetStaysWithinLimit(cfg: Config, events: seq<Event>, w: int)
    requires CleanRun(cfg, events)
    ensures AllowedUntil(After(cfg, events).tasks, w) <= cfg.limit
  {
    OvershootIsAtMostRelabelled(cfg, events, w);
    CleanRunMovesNothing(cfg, events, w);
  }

  // ---------- time ----------

  /** A decision to allow was made before the instant it names as its reset. */
  predicate InTime(task: Task) {
    task.status.Ended? && task.status.verdict.Decided? && task.status.verdict.decision.allowed ==>
      task.ts < task.status.verdict.decision.resetAt
  }

  predicate Coupled(s: Option<Spender>) {
    s.Some? ==> s.value.coupled
  }

  lemma {:induction false} AttemptIsInTime(task: Task, s: Option<Spender>)
    requires InCredit(s) && Coupled(s)
    ensures Coupled(Attempt(s, task.ts, task.cost, task.round).0)
    ensures InTime(task.(status := Attempt(s, task.ts, task.cost, task.round).1))
  {}

  lemma {:induction false} ResumeIsInTime(task: Task, s: Option<Spender>, lease: Lease)
    requires InCredit(s) && Coupled(s)
    ensures Coupled(Resume(s, true, task.ts, task.cost, task.round, lease).0)
    ensures InTime(task.(round := task.round + 1,
                         status := Resume(s, true, task.ts, task.cost, task.round, lease).1))
  {}

  ghost predicate AllInTime(s: State) {
    && (forall t :: 0 <= t < |s.tasks| ==> InTime(s.tasks[t]))
    && (forall i :: 0 <= i < |s.spenders| ==> Coupled(s.spenders[i]))
  }

  /** One check moves on, at one client. */
  lemma {:induction false} StaysInTime(s: State, client: nat, after: Option<Spender>, t: nat, task: Task, ledger: seq<Entry>)
    requires AllInTime(s) && client < |s.spenders| && t <= |s.tasks|
    requires Coupled(after) && InTime(task)
    ensures AllInTime(State(s.spenders[client := after],
                            if t < |s.tasks| then s.tasks[t := task] else s.tasks + [task], ledger))
  {
    hide Coupled, InTime;
  }

  lemma {:induction false} NextIsInTime(cfg: Config, s: State, event: Event)
    requires cfg.coupled && Balanced(cfg, s) && AllInTime(s)
    ensures AllInTime(Next(cfg, s, event))
  {
    var after := Next(cfg, s, event);
    match event
    case Start(client, ts, cost) =>
      if client < |s.spenders| {
        assert InCredit(s.spenders[client]) && Coupled(s.spenders[client]);
        hide Balanced, AllInTime, Attempt, Spent, InTime, Coupled, InCredit;
        AttemptIsInTime(Task(client, ts, cost, 0, Waiting), s.spenders[client]);
        StaysInTime(s, client, after.spenders[client], |s.tasks|, after.tasks[|s.tasks|], after.ledger);
      }
    case Answer(t, lease) =>
      if Offered(cfg, s, t, lease) {
        var client := s.tasks[t].client;
        assert InCredit(s.spenders[client]) && Coupled(s.spenders[client]);
        hide Balanced, AllInTime, Resume, Received, InTime, Coupled, InCredit;
        ResumeIsInTime(s.tasks[t], s.spenders[client], lease);
        StaysInTime(s, client, after.spenders[client], t, after.tasks[t], after.ledger);
      }
  }

  /** A window-coupled limiter never allows at or after the boundary the credits belong to. */
  lemma {:induction false} NoAllowAfterItsBoundary(cfg: Config, events: seq<Event>)
    requires cfg.coupled
    ensures AllInTime(After(cfg, events))
  {
    hide Next;
    if events != [] {
      var before := events[..|events| - 1];
      NoAllowAfterItsBoundary(cfg, before);
      RunIsBalanced(cfg, before);
      hide Balanced, AllInTime;
      NextIsInTime(cfg, After(cfg, before), events[|events| - 1]);
    }
  }
}
