/** What the decisions of a fleet say besides yes or no: whose limit they name. */
module FleetLimits {
  import opened LeaseSpender
  import opened LeasedLimiter
  import opened LeaseRefresh
  import opened AsyncLeasedLimiter
  import opened Fleet

  /** The first lease that was delivered to `client`, whether it granted anything or not. */
  function FirstLease(cfg: Config, events: seq<Event>, client: nat): Option<Lease> {
    if events == [] then
      None
    else
      var before, event := events[..|events| - 1], events[|events| - 1];
      var first := FirstLease(cfg, before, client);
      var s := After(cfg, before);
      if first.None? && event.Answer? && Offered(cfg, s, event.task, event.lease) && s.tasks[event.task].client == client
      then Some(event.lease)
      else first
  }

  /** A spender is there once a lease has been delivered, and made from that one. */
  predicate FromFirst(s: Option<Spender>, first: Option<Lease>, coupled: bool) {
    s.Some? == first.Some? && (s.Some? ==> MadeFrom(s.value, first.value, coupled))
  }

  /** If the check has been allowed, then with the limit of the first lease and without a wait. */
  predicate NamesFirst(status: Status, first: Option<Lease>) {
    status.Ended? && status.verdict.Decided? && status.verdict.decision.allowed ==>
      first.Some? && status.verdict.decision.limit == first.value.limit && status.verdict.decision.retryAfterMs == 0
  }

  lemma {:induction false} SameMaking(s: Spender, after: Spender, first: Lease, coupled: bool)
    requires MadeFrom(s, first, coupled) && after == s.(credits := after.credits, expiresAt := after.expiresAt)
    ensures MadeFrom(after, first, coupled) && after.limit == s.limit == first.limit
  {}

  lemma {:induction false} AttemptNamesFirst(s: Option<Spender>, first: Option<Lease>, coupled: bool, ts: int, cost: int,
                                             round: nat)
    requires FromFirst(s, first, coupled)
    ensures var (after, status) := Attempt(s, ts, cost, round);
            FromFirst(after, first, coupled) && NamesFirst(status, first)
  {
    hide Spend, MadeFrom;
    if s.Some? {
      SpendKeeps(s.value, ts, cost);
      SameMaking(s.value, Spend(s.value, ts, cost).0, first.value, coupled);
    }
  }

  lemma {:induction false} CreatedFromFirst(s: Option<Spender>, first: Option<Lease>, coupled: bool, lease: Lease)
    requires FromFirst(s, first, coupled)
    ensures var now := if first.Some? then first else Some(lease);
            && FromFirst(Some(Created(s, lease, coupled)), now, coupled)
            && FromFirst(Some(Apply(Created(s, lease, coupled), lease.capacity, lease.expiryMs)), now, coupled)
  {}

  lemma {:induction false} ResumeNamesFirst(s: Option<Spender>, first: Option<Lease>, coupled: bool, ts: int, cost: int,
                                            round: nat, lease: Lease)
    requires FromFirst(s, first, coupled)
    ensures var (after, status) := Resume(s, coupled, ts, cost, round, lease);
            var now := if first.Some? then first else Some(lease);
            FromFirst(after, now, coupled) && NamesFirst(status, now)
  {
    hide Attempt, FromFirst, Apply, Created;
    CreatedFromFirst(s, first, coupled, lease);
    if lease.Granted() {
      AttemptNamesFirst(Some(Apply(Created(s, lease, coupled), lease.capacity, lease.expiryMs)),
                        if first.Some? then first else Some(lease), coupled, ts, cost, round + 1);
    }
  }

  ghost predicate AllNameFirst(cfg: Config, events: seq<Event>) {
    var s := After(cfg, events);
    && |s.spenders| == cfg.clients
    && (forall i: nat :: i < cfg.clients ==> FromFirst(s.spenders[i], FirstLease(cfg, events, i), cfg.coupled))
    && (forall t :: 0 <= t < |s.tasks| ==> NamesFirst(s.tasks[t].status, FirstLease(cfg, events, s.tasks[t].client)))
  }

  lemma {:induction false} NamesOn(status: Status, first: Option<Lease>, later: Option<Lease>)
    requires NamesFirst(status, first) && (first.Some? ==> later == first)
    ensures NamesFirst(status, later)
  {}

  lemma {:induction false} FirstLeaseStays(cfg: Config, before: seq<Event>, event: Event, client: nat)
    ensures var (first, later) := (FirstLease(cfg, before, client), FirstLease(cfg, before + [event], client));
            var s := After(cfg, before);
            && (first.Some? ==> later == first)
            && later == if first.None? && event.Answer? && Offered(cfg, s, event.task, event.lease)
                           && s.tasks[event.task].client == client then Some(event.lease) else first
  {
    assert (before + [event])[..|before|] == before;
  }

  lemma {:induction false} NoneYet(cfg: Config)
    ensures AllNameFirst(cfg, [])
  {}

  /**
   Over every interleaving: each allow names the limit of the first lease that its client was ever delivered,
   and the client's spender is made from that lease and no other.
   */
  lemma {:induction false} AllowsNameTheFirstLimit(cfg: Config, events: seq<Event>)
    ensures AllNameFirst(cfg, events)
  {
    hide Attempt, Resume, Spent, Received, FromFirst, NamesFirst;
    if events == [] {
      NoneYet(cfg);
    } else {
      var before, event := events[..|events| - 1], events[|events| - 1];
      var s := After(cfg, before);
      assert events == before + [event];
      AllowsNameTheFirstLimit(cfg, before);
      forall i: nat ensures FirstLease(cfg, before, i).Some? ==> FirstLease(cfg, events, i) == FirstLease(cfg, before, i) {
        FirstLeaseStays(cfg, before, event, i);
      }
      forall t | 0 <= t < |s.tasks|
        ensures NamesFirst(s.tasks[t].status, FirstLease(cfg, events, s.tasks[t].client))
      {
        NamesOn(s.tasks[t].status, FirstLease(cfg, before, s.tasks[t].client), FirstLease(cfg, events, s.tasks[t].client));
      }
      forall i: nat ensures FirstLease(cfg, events, i) == FirstLease(cfg, before, i)
                            || (event.Answer? && Offered(cfg, s, event.task, event.lease) && s.tasks[event.task].client == i
                                && FirstLease(cfg, before, i).None? && FirstLease(cfg, events, i) == Some(event.lease)) {
        FirstLeaseStays(cfg, before, event, i);
      }
      match event
      case Start(client, ts, cost) =>
        if client < |s.spenders| {
          AttemptNamesFirst(s.spenders[client], FirstLease(cfg, before, client), cfg.coupled, ts, cost, 0);
        }
      case Answer(t, lease) =>
        if Offered(cfg, s, t, lease) {
          var task := s.tasks[t];
          FirstLeaseStays(cfg, before, event, task.client);
          ResumeNamesFirst(s.spenders[task.client], FirstLease(cfg, before, task.client), cfg.coupled,
                           task.ts, task.cost, task.round, lease);
        }
    }
  }
}
