/**
 A fleet: several limiters that lease from one windowed server budget, with any number of checks under
 way on each. An event starts a check or delivers the reply to a Reserve; a run is any sequence of
 events. The ledger writes down every movement of units.
 */
module Fleet {
  import opened Rounding
  import opened LeaseSpender
  import opened LeasedLimiter
  import opened AsyncLeasedLimiter

  /** The number of clients, the budget the server grants per window, and how the limiters are set up. */
  datatype Config = Config(clients: nat, limit: nat, batch: int, coupled: bool)

  datatype Kind = Granted | Allowed | Discarded | MovedIn | MovedOut

  /** `units` credits of `window` (its boundary) changed hands at `client`, in a check made for instant `at`. */
  datatype Entry = Entry(kind: Kind, client: nat, window: int, units: int, at: int)

  datatype Task = Task(client: nat, ts: int, cost: int, round: nat, status: Status)

  datatype State = State(spenders: seq<Option<Spender>>, tasks: seq<Task>, ledger: seq<Entry>)

  datatype Event = Start(client: nat, ts: int, cost: int) | Answer(task: nat, lease: Lease)

  // ---------- sums over the ledger ----------

  /** Whose entries to add up: of one kind, of one client or all, of one window or all. */
  datatype Pick = Pick(kind: Kind, client: Option<nat>, window: Option<int>)
  {
    predicate Covers(e: Entry) {
      && e.kind == kind
      && (client.Some? ==> e.client == client.value)
      && (window.Some? ==> e.window == window.value)
    }
  }

  function Sum(ledger: seq<Entry>, pick: Pick): int {
    if ledger == [] then
      0
    else
      var last := ledger[|ledger| - 1];
      Sum(ledger[..|ledger| - 1], pick) + if pick.Covers(last) then last.units else 0
  }

  /** The units of `kind` in window `w`, over the whole fleet. */
  function Total(ledger: seq<Entry>, kind: Kind, w: int): int {
    Sum(ledger, Pick(kind, None, Some(w)))
  }

  lemma {:induction false} SumAppend(a: seq<Entry>, b: seq<Entry>, pick: Pick)
    ensures Sum(a + b, pick) == Sum(a, pick) + Sum(b, pick)
  {
    if b == [] {
      assert a + b == a;
    } else {
      var n := |b| - 1;
      SumAppend(a, b[..n], pick);
      assert (a + b)[..|a| + n] == a + b[..n];
    }
  }

  /** What an entry does to the credits `client` holds for window `w`, or to all it holds. */
  function Signed(e: Entry, client: nat, w: Option<int>): int {
    if e.client != client then 0
    else if w.None? && (e.kind.MovedIn? || e.kind.MovedOut?) then 0
    else if w.Some? && e.window != w.value then 0
    else if e.kind.Granted? || e.kind.MovedIn? then e.units
    else -e.units
  }

  function Net(ledger: seq<Entry>, client: nat, w: Option<int>): int {
    if ledger == [] then
      0
    else
      Net(ledger[..|ledger| - 1], client, w) + Signed(ledger[|ledger| - 1], client, w)
  }

  lemma {:induction false} NetAppend(a: seq<Entry>, b: seq<Entry>, client: nat, w: Option<int>)
    ensures Net(a + b, client, w) == Net(a, client, w) + Net(b, client, w)
  {
    if b == [] {
      assert a + b == a;
    } else {
      var n := |b| - 1;
      NetAppend(a, b[..n], client, w);
      assert (a + b)[..|a| + n] == a + b[..n];
    }
  }

  lemma {:induction false} NetOne(e: Entry, client: nat, w: Option<int>)
    ensures Net([e], client, w) == Signed(e, client, w)
  {}

  lemma {:induction false} NetOfOthers(entries: seq<Entry>, client: nat, w: Option<int>)
    requires forall e :: e in entries ==> e.client != client
    ensures Net(entries, client, w) == 0
  {
    if entries != [] {
      NetOfOthers(entries[..|entries| - 1], client, w);
    }
  }

  lemma {:induction false} NetIsByKind(ledger: seq<Entry>, client: nat, w: int)
    ensures var who := Some(client);
            var when := Some(w);
            Net(ledger, client, when)
            == Sum(ledger, Pick(Granted, who, when)) + Sum(ledger, Pick(MovedIn, who, when))
               - Sum(ledger, Pick(Allowed, who, when)) - Sum(ledger, Pick(Discarded, who, when))
               - Sum(ledger, Pick(MovedOut, who, when))
  {
    if ledger != [] {
      NetIsByKind(ledger[..|ledger| - 1], client, w);
    }
  }

  lemma {:induction false} NetOverall(ledger: seq<Entry>, client: nat)
    ensures var who := Some(client);
            Net(ledger, client, None)
            == Sum(ledger, Pick(Granted, who, None)) - Sum(ledger, Pick(Allowed, who, None))
               - Sum(ledger, Pick(Discarded, who, None))
  {
    if ledger != [] {
      NetOverall(ledger[..|ledger| - 1], client);
    }
  }

  // ---------- one client ----------

  /** The credits a client holds for window `w`, or all of them. */
  function Held(s: Option<Spender>, w: Option<int>): int {
    if s.Some? && (w.Some? ==> s.value.expiresAt == w) then s.value.credits else 0
  }

  /** Credits are never negative, and belong to a window. */
  predicate InCredit(s: Option<Spender>) {
    s.Some? ==> s.value.credits >= 0 && (s.value.expiresAt.None? ==> s.value.credits == 0)
  }

  /** What `Attempt` writes down. */
  function Spent(client: nat, s: Option<Spender>, ts: int, cost: int, round: nat): seq<Entry> {
    if round >= MAX_ROUNDS || s.None? || cost <= 0 then
      []
    else
      var window := if s.value.expiresAt.Some? then s.value.expiresAt.value else ts + s.value.ttlMs;
      (if Stale(s.value, ts) then [Entry(Discarded, client, window, s.value.credits, ts)] else [])
      + (if Usable(s.value, ts) >= cost then [Entry(Allowed, client, window, cost, ts)] else [])
  }

  /** A reply that grants finds credits of another window, and gives them its own boundary. */
  predicate Relabels(s: Option<Spender>, lease: Lease) {
    lease.Granted() && s.Some? && s.value.credits > 0 && s.value.expiresAt != Some(lease.expiryMs)
  }

  /** What a grant itself writes down. */
  function Credited(client: nat, s: Option<Spender>, ts: int, lease: Lease): seq<Entry> {
    (if Relabels(s, lease) && s.value.expiresAt.Some? then
       [Entry(MovedOut, client, s.value.expiresAt.value, s.value.credits, ts)]
       + [Entry(MovedIn, client, lease.expiryMs, s.value.credits, ts)]
     else
       [])
    + [Entry(Granted, client, lease.expiryMs, lease.capacity, ts)]
  }

  /** What `Resume` writes down. */
  function Received(client: nat, s: Option<Spender>, coupled: bool, ts: int, cost: int, round: nat, lease: Lease)
    : seq<Entry>
  {
    if !lease.Granted() then
      []
    else
      Credited(client, s, ts, lease)
      + Spent(client, Some(Apply(Created(s, lease, coupled), lease.capacity, lease.expiryMs)), ts, cost, round + 1)
  }

  /** Entries that turn a client's credits from what `s` holds into what `after` holds. */
  ghost predicate Accounts(entries: seq<Entry>, client: nat, s: Option<Spender>, after: Option<Spender>) {
    && (forall e :: e in entries ==> e.client == client && e.units >= 0)
    && (forall w: Option<int> :: Net(entries, client, w) == Held(after, w) - Held(s, w))
  }

  lemma {:induction false} AccountsChain(a: seq<Entry>, b: seq<Entry>, client: nat,
                                         s: Option<Spender>, middle: Option<Spender>, after: Option<Spender>)
    requires Accounts(a, client, s, middle) && Accounts(b, client, middle, after)
    ensures Accounts(a + b, client, s, after)
  {
    forall w: Option<int> ensures Net(a + b, client, w) == Held(after, w) - Held(s, w) {
      NetAppend(a, b, client, w);
    }
  }

  lemma {:induction false} SpentAccounts(client: nat, s: Option<Spender>, ts: int, cost: int, round: nat)
    requires InCredit(s)
    ensures var after := Attempt(s, ts, cost, round).0;
            InCredit(after) && Accounts(Spent(client, s, ts, cost, round), client, s, after)
  {
    var after := Attempt(s, ts, cost, round).0;
    if round < MAX_ROUNDS && s.Some? && cost > 0 {
      var window := if s.value.expiresAt.Some? then s.value.expiresAt.value else ts + s.value.ttlMs;
      var dropped := Entry(Discarded, client, window, s.value.credits, ts);
      var served := Entry(Allowed, client, window, cost, ts);
      forall w: Option<int>
        ensures Net(Spent(client, s, ts, cost, round), client, w) == Held(after, w) - Held(s, w)
      {
        NetOne(dropped, client, w);
        NetOne(served, client, w);
        NetAppend(if Stale(s.value, ts) then [dropped] else [],
                  if Usable(s.value, ts) >= cost then [served] else [], client, w);
      }
    }
  }

  lemma {:induction false} CreditedAccounts(client: nat, s: Option<Spender>, coupled: bool, ts: int, lease: Lease)
    requires InCredit(s) && lease.Granted()
    ensures var applied := Some(Apply(Created(s, lease, coupled), lease.capacity, lease.expiryMs));
            InCredit(applied) && Accounts(Credited(client, s, ts, lease), client, s, applied)
  {
    var granted := Entry(Granted, client, lease.expiryMs, lease.capacity, ts);
    forall w: Option<int>
      ensures Net(Credited(client, s, ts, lease), client, w)
              == Held(Some(Apply(Created(s, lease, coupled), lease.capacity, lease.expiryMs)), w) - Held(s, w)
    {
      NetOne(granted, client, w);
      if Relabels(s, lease) {
        var out := Entry(MovedOut, client, s.value.expiresAt.value, s.value.credits, ts);
        var into := Entry(MovedIn, client, lease.expiryMs, s.value.credits, ts);
        NetOne(out, client, w);
        NetOne(into, client, w);
        NetAppend([out], [into], client, w);
        NetAppend([out] + [into], [granted], client, w);
      } else {
        NetAppend([], [granted], client, w);
      }
    }
  }

  lemma {:induction false} ReceivedAccounts(client: nat, s: Option<Spender>, coupled: bool, ts: int, cost: int,
                                            round: nat, lease: Lease)
    requires InCredit(s)
    ensures var after := Resume(s, coupled, ts, cost, round, lease).0;
            InCredit(after) && Accounts(Received(client, s, coupled, ts, cost, round, lease), client, s, after)
  {
    hide Attempt, Spent, Credited, Net;
    if lease.Granted() {
      var applied := Some(Apply(Created(s, lease, coupled), lease.capacity, lease.expiryMs));
      CreditedAccounts(client, s, coupled, ts, lease);
      SpentAccounts(client, applied, ts, cost, round + 1);
      AccountsChain(Credited(client, s, ts, lease), Spent(client, applied, ts, cost, round + 1), client,
                    s, applied, Attempt(applied, ts, cost, round + 1).0);
    } else {
      forall w: Option<int> ensures Net([], client, w) == 0 { NetOfOthers([], client, w); }
    }
  }

  // ---------- the fleet ----------

  function Idle(cfg: Config): State {
    State(seq(cfg.clients, i => None), [], [])
  }

  /**
   A reply the server may give: the check awaits one, the grant is at most what was asked for, and the
   grants of a window stay within the limit.
   */
  predicate Offered(cfg: Config, s: State, t: nat, lease: Lease) {
    && t < |s.tasks|
    && s.tasks[t].status.Waiting?
    && s.tasks[t].client < |s.spenders|
    && 0 <= lease.capacity <= Max(s.tasks[t].cost, cfg.batch)
    && Total(s.ledger, Granted, lease.expiryMs) + lease.capacity <= cfg.limit
  }

  /** Events that cannot happen change nothing. */
  function Next(cfg: Config, s: State, event: Event): State {
    match event
    case Start(client, ts, cost) =>
      if client < |s.spenders| then
        var (after, status) := Attempt(s.spenders[client], ts, cost, 0);
        State(s.spenders[client := after],
              s.tasks + [Task(client, ts, cost, 0, status)],
              s.ledger + Spent(client, s.spenders[client], ts, cost, 0))
      else
        s
    case Answer(t, lease) =>
      if Offered(cfg, s, t, lease) then
        var task := s.tasks[t];
        var found := s.spenders[task.client];
        var (after, status) := Resume(found, cfg.coupled, task.ts, task.cost, task.round, lease);
        State(s.spenders[task.client := after],
              s.tasks[t := task.(round := task.round + 1, status := status)],
              s.ledger + Received(task.client, found, cfg.coupled, task.ts, task.cost, task.round, lease))
      else
        s
  }

  function After(cfg: Config, events: seq<Event>): State {
    if events == [] then
      Idle(cfg)
    else
      Next(cfg, After(cfg, events[..|events| - 1]), events[|events| - 1])
  }

  lemma {:induction false} AfterExtends(cfg: Config, events: seq<Event>, event: Event)
    ensures After(cfg, events + [event]) == Next(cfg, After(cfg, events), event)
  {}

  /** The books balance, for every client and window. */
  ghost predicate Balanced(cfg: Config, s: State) {
    && |s.spenders| == cfg.clients
    && (forall e :: e in s.ledger ==> e.client < cfg.clients && e.units >= 0)
    && (forall i :: 0 <= i < |s.spenders| ==> InCredit(s.spenders[i]))
    && (forall i: nat, w: Option<int> :: i < |s.spenders| ==> Net(s.ledger, i, w) == Held(s.spenders[i], w))
  }

  lemma {:induction false} StaysBalanced(cfg: Config, s: State, client: nat, after: Option<Spender>,
                                         tasks: seq<Task>, entries: seq<Entry>)
    requires Balanced(cfg, s) && client < |s.spenders|
    requires InCredit(after) && Accounts(entries, client, s.spenders[client], after)
    ensures Balanced(cfg, State(s.spenders[client := after], tasks, s.ledger + entries))
  {
    forall i: nat, w: Option<int> | i < |s.spenders|
      ensures Net(s.ledger + entries, i, w) == Held(s.spenders[client := after][i], w)
    {
      NetAppend(s.ledger, entries, i, w);
      if i != client {
        NetOfOthers(entries, i, w);
      }
    }
  }

  lemma {:induction false} NextIsBalanced(cfg: Config, s: State, event: Event)
    requires Balanced(cfg, s)
    ensures Balanced(cfg, Next(cfg, s, event))
  {
    hide Attempt, Resume, Spent, Received, Net, Accounts, InCredit;
    match event
    case Start(client, ts, cost) =>
      if client < |s.spenders| {
        SpentAccounts(client, s.spenders[client], ts, cost, 0);
        StaysBalanced(cfg, s, client, Attempt(s.spenders[client], ts, cost, 0).0,
                      Next(cfg, s, event).tasks, Spent(client, s.spenders[client], ts, cost, 0));
      }
    case Answer(t, lease) =>
      if Offered(cfg, s, t, lease) {
        var task := s.tasks[t];
        var found := s.spenders[task.client];
        ReceivedAccounts(task.client, found, cfg.coupled, task.ts, task.cost, task.round, lease);
        StaysBalanced(cfg, s, task.client,
                      Resume(found, cfg.coupled, task.ts, task.cost, task.round, lease).0, Next(cfg, s, event).tasks,
                      Received(task.client, found, cfg.coupled, task.ts, task.cost, task.round, lease));
      }
  }

  lemma {:induction false} RunIsBalanced(cfg: Config, events: seq<Event>)
    ensures Balanced(cfg, After(cfg, events))
  {
    if events != [] {
      RunIsBalanced(cfg, events[..|events| - 1]);
      NextIsBalanced(cfg, After(cfg, events[..|events| - 1]), events[|events| - 1]);
    }
  }

  /** What a client was granted or took over for a window was spent, discarded, handed on or is still held. */
  lemma {:induction false} EveryUnitIsAccountedFor(cfg: Config, events: seq<Event>, client: nat, w: int)
    requires client < cfg.clients
    ensures var s := After(cfg, events);
            var who := Some(client);
            var when := Some(w);
            && |s.spenders| == cfg.clients
            && Sum(s.ledger, Pick(Granted, who, when)) + Sum(s.ledger, Pick(MovedIn, who, when))
               == Sum(s.ledger, Pick(Allowed, who, when)) + Sum(s.ledger, Pick(Discarded, who, when))
                  + Sum(s.ledger, Pick(MovedOut, who, when)) + Held(s.spenders[client], when)
  {
    hide After, Held;
    RunIsBalanced(cfg, events);
    NetIsByKind(After(cfg, events).ledger, client, w);
  }

  /** No applied grant is lost: granted is spent, discarded or still there, and credits are never negative. */
  lemma {:induction false} NoGrantIsLost(cfg: Config, events: seq<Event>, client: nat)
    requires client < cfg.clients
    ensures var s := After(cfg, events);
            var who := Some(client);
            && |s.spenders| == cfg.clients
            && Sum(s.ledger, Pick(Granted, who, None))
               == Sum(s.ledger, Pick(Allowed, who, None)) + Sum(s.ledger, Pick(Discarded, who, None))
                  + (if s.spenders[client].Some? then s.spenders[client].value.credits else 0)
            && (s.spenders[client].Some? ==> s.spenders[client].value.credits >= 0)
  {
    hide After;
    RunIsBalanced(cfg, events);
    NetOverall(After(cfg, events).ledger, client);
    var s := After(cfg, events);
    assert InCredit(s.spenders[client]);
    assert Net(s.ledger, client, None) == Held(s.spenders[client], None);
  }

  // ---------- the ledger and the decisions ----------

  function Worth(task: Task, w: int): int {
    if task.status.Ended? && task.status.verdict.Decided? && task.status.verdict.decision.allowed
       && task.status.verdict.decision.resetAt == w then
      task.cost
    else
      0
  }

  /** The units that finished checks were allowed with boundary `w` as their `reset_at`. */
  function AllowedUntil(tasks: seq<Task>, w: int): int {
    if tasks == [] then
      0
    else
      AllowedUntil(tasks[..|tasks| - 1], w) + Worth(tasks[|tasks| - 1], w)
  }

  lemma {:induction false} AllowedUntilChanges(tasks: seq<Task>, t: nat, task: Task, w: int)
    requires t < |tasks|
    ensures AllowedUntil(tasks[t := task], w) == AllowedUntil(tasks, w) - Worth(tasks[t], w) + Worth(task, w)
  {
    var n := |tasks| - 1;
    if t < n {
      AllowedUntilChanges(tasks[..n], t, task, w);
      assert tasks[t := task][..n] == tasks[..n][t := task];
    } else {
      assert tasks[t := task][..n] == tasks[..n];
    }
  }

  lemma {:induction false} AllowedUntilExtends(tasks: seq<Task>, task: Task, w: int)
    ensures AllowedUntil(tasks + [task], w) == AllowedUntil(tasks, w) + Worth(task, w)
  {}

  /** Two entries at most, so the sum is had by adding them up. */
  lemma {:induction false} SumTwo(a: seq<Entry>, b: seq<Entry>, pick: Pick)
    requires |a| <= 1 && |b| <= 1
    ensures Sum(a + b, pick)
            == (if a != [] && pick.Covers(a[0]) then a[0].units else 0)
               + (if b != [] && pick.Covers(b[0]) then b[0].units else 0)
  {
    SumAppend(a, b, pick);
    assert a[..0] == [] && b[..0] == [];
    assert Sum(a, pick) == if a != [] && pick.Covers(a[0]) then a[0].units else 0;
    assert Sum(b, pick) == if b != [] && pick.Covers(b[0]) then b[0].units else 0;
  }

  lemma {:induction false} SpentIsWorth(task: Task, s: Option<Spender>, w: int)
    requires InCredit(s)
    ensures Total(Spent(task.client, s, task.ts, task.cost, task.round), Allowed, w)
            == Worth(task.(status := Attempt(s, task.ts, task.cost, task.round).1), w)
  {
    var (client, ts, cost) := (task.client, task.ts, task.cost);
    if task.round < MAX_ROUNDS && s.Some? && cost > 0 {
      var window := if s.value.expiresAt.Some? then s.value.expiresAt.value else ts + s.value.ttlMs;
      SumTwo(if Stale(s.value, ts) then [Entry(Discarded, client, window, s.value.credits, ts)] else [],
             if Usable(s.value, ts) >= cost then [Entry(Allowed, client, window, cost, ts)] else [],
             Pick(Allowed, None, Some(w)));
    }
  }

  lemma {:induction false} SpentOnlySpends(client: nat, s: Option<Spender>, ts: int, cost: int, round: nat, pick: Pick)
    requires !pick.kind.Allowed? && !pick.kind.Discarded?
    ensures Sum(Spent(client, s, ts, cost, round), pick) == 0
  {}

  lemma {:induction false} SumOfNone(pick: Pick)
    ensures Sum([], pick) == 0
  {}

  /** What a grant adds to each sum. */
  lemma {:induction false} CreditedAdds(client: nat, s: Option<Spender>, ts: int, lease: Lease, pick: Pick)
    requires InCredit(s)
    ensures var granted := Entry(Granted, client, lease.expiryMs, lease.capacity, ts);
            Sum(Credited(client, s, ts, lease), pick)
            == (if pick.Covers(granted) then lease.capacity else 0)
               + if Relabels(s, lease) then
                   (if pick.Covers(Entry(MovedOut, client, s.value.expiresAt.value, s.value.credits, ts))
                    then s.value.credits else 0)
                   + (if pick.Covers(Entry(MovedIn, client, lease.expiryMs, s.value.credits, ts))
                      then s.value.credits else 0)
                 else 0
  {
    hide Sum;
    var granted := [Entry(Granted, client, lease.expiryMs, lease.capacity, ts)];
    SumTwo([], granted, pick);
    assert [] + granted == granted;
    if Relabels(s, lease) {
      var out := [Entry(MovedOut, client, s.value.expiresAt.value, s.value.credits, ts)];
      var into := [Entry(MovedIn, client, lease.expiryMs, s.value.credits, ts)];
      SumTwo(out, into, pick);
      SumAppend(out + into, granted, pick);
    }
  }

  /** Grants and moves happen only where a grant is applied. */
  lemma {:induction false} ReceivedAdds(client: nat, s: Option<Spender>, coupled: bool, ts: int, cost: int,
                                        round: nat, lease: Lease, pick: Pick)
    requires !pick.kind.Allowed? && !pick.kind.Discarded?
    ensures Sum(Received(client, s, coupled, ts, cost, round, lease), pick)
            == if lease.Granted() then Sum(Credited(client, s, ts, lease), pick) else 0
  {
    hide Sum, Spent, Credited;
    if lease.Granted() {
      var applied := Some(Apply(Created(s, lease, coupled), lease.capacity, lease.expiryMs));
      SpentOnlySpends(client, applied, ts, cost, round + 1, pick);
      SumAppend(Credited(client, s, ts, lease), Spent(client, applied, ts, cost, round + 1), pick);
    } else {
      SumOfNone(pick);
    }
  }

  lemma {:induction false} ReceivedIsWorth(task: Task, s: Option<Spender>, coupled: bool, lease: Lease, w: int)
    requires InCredit(s)
    ensures Total(Received(task.client, s, coupled, task.ts, task.cost, task.round, lease), Allowed, w)
            == Worth(task.(round := task.round + 1,
                           status := Resume(s, coupled, task.ts, task.cost, task.round, lease).1), w)
  {
    hide Sum, Spent, Credited, Attempt;
    if lease.Granted() {
      var applied := Some(Apply(Created(s, lease, coupled), lease.capacity, lease.expiryMs));
      CreditedAccounts(task.client, s, coupled, task.ts, lease);
      CreditedAdds(task.client, s, task.ts, lease, Pick(Allowed, None, Some(w)));
      SpentIsWorth(task.(round := task.round + 1), applied, w);
      SumAppend(Credited(task.client, s, task.ts, lease),
                Spent(task.client, applied, task.ts, task.cost, task.round + 1), Pick(Allowed, None, Some(w)));
    } else {
      SumOfNone(Pick(Allowed, None, Some(w)));
    }
  }
}
