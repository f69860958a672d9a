/** How often a leased limiter asks the server, and when it gives up. */
module LeaseRefresh {
  import opened Rounding
  import opened Runs
  import opened LeaseSpender
  import opened LeasedLimiter

  /** A spender as the limiter keeps it. */
  predicate Sound(s: Option<Spender>, coupled: bool) {
    s.Some? ==> s.value.coupled == coupled && s.value.credits >= 0
  }

  // ---------- The decisions ----------

  /**
   After an allow, exactly the spends of up to `remaining` units succeed without a Reserve, at any instant
   before `resetAt` if the credits are coupled to their window, and at any instant at all if not.
   */
  lemma {:induction false} RemainingIsSpendable(s: Spender, now: int, cost: int, later: int, k: int)
    requires s.credits >= 0 && s.expiresAt.Some? && k >= 1
    requires Spend(s, now, cost).1.Allow?
    ensures var (after, outcome) := Spend(s, now, cost);
            && outcome.decision.allowed && outcome.decision.limit == s.limit && outcome.decision.retryAfterMs == 0
            && (Spend(after, later, k).1.Allow?
                <==> k <= outcome.decision.remaining && (s.coupled ==> later < outcome.decision.resetAt))
  {}

  lemma {:induction false} AllowsOnly(s: Spender, ts: int, cost: int)
    ensures Spend(s, ts, cost).1.Allow? ==> Spend(s, ts, cost).1.decision.allowed
  {}

  /** A limiter never invents a denial: it is the last reply's, field by field, and that reply granted nothing. */
  lemma {:induction false} DenialIsTheServers(
    s: Option<Spender>, coupled: bool, ts: int, cost: int, leases: seq<Lease>, rounds: nat)
    requires |leases| >= rounds
    requires var verdict := Serve(s, coupled, ts, cost, leases, rounds).1;
             verdict.Decided? && !verdict.decision.allowed
    ensures var (after, verdict, reserves) := Serve(s, coupled, ts, cost, leases, rounds);
            && 1 <= reserves <= rounds
            && var lease := leases[reserves - 1];
               && lease.capacity <= 0
               && verdict.decision == Reply(false, lease.limit, 0, lease.expiryMs, lease.retryAfterMs)
    decreases rounds
  {
    hide Spend;
    if s.Some? && !Spend(s.value, ts, cost).1.NeedRefresh? {
      AllowsOnly(s.value, ts, cost);
    } else if leases[0].Granted() {
      var found := Created(if s.Some? then Some(Spend(s.value, ts, cost).0) else None, leases[0], coupled);
      var applied := Apply(found, leases[0].capacity, leases[0].expiryMs);
      DenialIsTheServers(Some(applied), coupled, ts, cost, leases[1..], rounds - 1);
    }
  }

  /** The spender is made from the first lease: its limit, its expiry as a time to live, and the limiter's coupling. */
  predicate MadeFrom(s: Spender, first: Lease, coupled: bool) {
    s.limit == first.limit && s.ttlMs == Max(1, first.expiryMs) && s.coupled == coupled
  }

  lemma {:induction false} SpendKeeps(s: Spender, ts: int, cost: int)
    ensures var (after, outcome) := Spend(s, ts, cost);
            && after == s.(credits := after.credits)
            && (outcome.Allow? ==>
                  && outcome.decision.allowed && outcome.decision.limit == s.limit && outcome.decision.retryAfterMs == 0
                  && (s.expiresAt.Some? ==> outcome.decision.resetAt == s.expiresAt.value))
  {}

  /**
   The limit that an allow names is the one of the first lease the limiter ever got, its `resetAt` is the
   boundary of the last one, and it has no wait. The spender that a check leaves is made from the first lease;
   a spender that was there keeps what it was made from.
   */
  lemma {:induction false} AllowNamesFirstAndLast(
    s: Option<Spender>, coupled: bool, ts: int, cost: int, leases: seq<Lease>, rounds: nat)
    requires |leases| >= rounds
    ensures var (after, verdict, reserves) := Serve(s, coupled, ts, cost, leases, rounds);
            && (verdict.Decided? && verdict.decision.allowed ==>
                  && verdict.decision.limit == (if s.Some? then s.value.limit else leases[0].limit)
                  && verdict.decision.retryAfterMs == 0
                  && reserves <= rounds
                  && (reserves > 0 ==> verdict.decision.resetAt == leases[reserves - 1].expiryMs)
                  && (reserves == 0 ==>
                        s.Some? && (s.value.expiresAt.Some? ==> verdict.decision.resetAt == s.value.expiresAt.value)))
            && (s.Some? ==>
                  after.Some? && after.value == s.value.(credits := after.value.credits, expiresAt := after.value.expiresAt))
            && (s.None? && rounds > 0 ==> after.Some? && MadeFrom(after.value, leases[0], coupled))
    decreases rounds
  {
    hide Spend;
    if rounds > 0 {
      if s.Some? {
        SpendKeeps(s.value, ts, cost);
      }
      if !(s.Some? && !Spend(s.value, ts, cost).1.NeedRefresh?) && leases[0].Granted() {
        var found := Created(if s.Some? then Some(Spend(s.value, ts, cost).0) else None, leases[0], coupled);
        var applied := Apply(found, leases[0].capacity, leases[0].expiryMs);
        AllowNamesFirstAndLast(Some(applied), coupled, ts, cost, leases[1..], rounds - 1);
      }
    }
  }

  // ---------- The 1024 rounds ----------

  /** The balance after one more lease: a lease whose window is already over brings nothing, and takes the rest along. */
  function Topped(coupled: bool, ts: int, balance: int, lease: Lease): int {
    if coupled && lease.expiryMs <= ts then 0 else balance + lease.capacity
  }

  /** The balance the spend of round `i` can draw on, if none before has succeeded. */
  function BalanceAt(coupled: bool, ts: int, balance: int, leases: seq<Lease>, i: nat): int
    requires i <= |leases|
    decreases i
  {
    if i == 0 then balance else BalanceAt(coupled, ts, Topped(coupled, ts, balance, leases[0]), leases[1..], i - 1)
  }

  lemma {:induction false} FirstRound(s: Option<Spender>, coupled: bool, ts: int, cost: int, lease: Lease)
    requires Sound(s, coupled) && cost >= 1 && Balance(s, ts) < cost && lease.Granted()
    ensures s.Some? ==> Spend(s.value, ts, cost).1.NeedRefresh?
    ensures var found := Created(if s.Some? then Some(Spend(s.value, ts, cost).0) else None, lease, coupled);
            var applied := Some(Apply(found, lease.capacity, lease.expiryMs));
            && Sound(applied, coupled)
            && applied.value.credits == Balance(s, ts) + lease.capacity
            && Balance(applied, ts) == Topped(coupled, ts, Balance(s, ts), lease)
  {}

  /** The rounds after the first, numbered from 1 and from 0. */
  lemma {:induction false} Shifted(coupled: bool, ts: int, balance: int, leases: seq<Lease>, rounds: nat, cost: int)
    requires 0 < rounds <= |leases| && leases[0].Granted() && balance < cost
    ensures var topped := Topped(coupled, ts, balance, leases[0]);
            (forall i | 0 <= i < rounds - 1 ::
               leases[1..][i].Granted() && BalanceAt(coupled, ts, topped, leases[1..], i) < cost)
            <==> forall i | 0 <= i < rounds :: leases[i].Granted() && BalanceAt(coupled, ts, balance, leases, i) < cost
  {
    var topped := Topped(coupled, ts, balance, leases[0]);
    if forall i | 0 <= i < rounds - 1 :: leases[1..][i].Granted() && BalanceAt(coupled, ts, topped, leases[1..], i) < cost {
      forall i | 0 <= i < rounds
        ensures leases[i].Granted() && BalanceAt(coupled, ts, balance, leases, i) < cost
      {
        if i > 0 {
          assert leases[1..][i - 1].Granted() && BalanceAt(coupled, ts, topped, leases[1..], i - 1) < cost;
        }
      }
    }
    if forall i | 0 <= i < rounds :: leases[i].Granted() && BalanceAt(coupled, ts, balance, leases, i) < cost {
      forall i | 0 <= i < rounds - 1
        ensures leases[1..][i].Granted() && BalanceAt(coupled, ts, topped, leases[1..], i) < cost
      {
        assert leases[i + 1].Granted() && BalanceAt(coupled, ts, balance, leases, i + 1) < cost;
      }
    }
  }

  /** A check gives up exactly when no round was denied and no round's balance reached the cost. */
  lemma {:induction false} GivesUpIff(
    s: Option<Spender>, coupled: bool, ts: int, cost: int, leases: seq<Lease>, rounds: nat)
    requires Sound(s, coupled) && cost >= 1 && |leases| >= rounds
    ensures Serve(s, coupled, ts, cost, leases, rounds).1.RoundsExceeded?
            <==> forall i | 0 <= i < rounds ::
                   leases[i].Granted() && BalanceAt(coupled, ts, Balance(s, ts), leases, i) < cost
    decreases rounds
  {
    if rounds > 0 {
      var balance := Balance(s, ts);
      assert BalanceAt(coupled, ts, balance, leases, 0) == balance;
      if balance < cost && leases[0].Granted() {
        FirstRound(s, coupled, ts, cost, leases[0]);
        var found := Created(if s.Some? then Some(Spend(s.value, ts, cost).0) else None, leases[0], coupled);
        var applied := Some(Apply(found, leases[0].capacity, leases[0].expiryMs));
        GivesUpIff(applied, coupled, ts, cost, leases[1..], rounds - 1);
        hide Spend, Apply, Created, Balance, Topped;
        Shifted(coupled, ts, balance, leases, rounds, cost);
      }
    }
  }

  lemma {:induction false} BalanceGrows(coupled: bool, ts: int, balance: int, leases: seq<Lease>, i: nat)
    requires i <= |leases|
    requires forall j :: 0 <= j < i ==> leases[j].Granted() && (coupled ==> leases[j].expiryMs > ts)
    ensures BalanceAt(coupled, ts, balance, leases, i) >= balance + i
    decreases i
  {
    if i > 0 {
      assert leases[0].Granted();
      forall j | 0 <= j < i - 1
        ensures leases[1..][j].Granted() && (coupled ==> leases[1..][j].expiryMs > ts)
      {
        assert leases[j + 1].Granted();
      }
      BalanceGrows(coupled, ts, Topped(coupled, ts, balance, leases[0]), leases[1..], i - 1);
    }
  }

  lemma {:induction false} NeverBadCost(
    s: Option<Spender>, coupled: bool, ts: int, cost: int, leases: seq<Lease>, rounds: nat)
    requires cost >= 1 && |leases| >= rounds
    ensures !Serve(s, coupled, ts, cost, leases, rounds).1.BadCost?
    decreases rounds
  {
    if rounds > 0 {
      var found := Created(if s.Some? then Some(Spend(s.value, ts, cost).0) else None, leases[0], coupled);
      NeverBadCost(Some(Apply(found, leases[0].capacity, leases[0].expiryMs)), coupled, ts, cost, leases[1..], rounds - 1);
    }
  }

  /** Against a server that grants in the caller's own window, a cost of at most 1023 never runs out of rounds. */
  lemma {:induction false} CostUpTo1023IsDecided(s: Option<Spender>, coupled: bool, ts: int, cost: int, leases: seq<Lease>)
    requires Sound(s, coupled) && 1 <= cost <= 1023 && |leases| >= MAX_ROUNDS
    requires forall j :: 0 <= j < MAX_ROUNDS && leases[j].Granted() && coupled ==> leases[j].expiryMs > ts
    ensures Serve(s, coupled, ts, cost, leases, MAX_ROUNDS).1.Decided?
  {
    GivesUpIff(s, coupled, ts, cost, leases, MAX_ROUNDS);
    hide Serve, BalanceAt;
    if forall j | 0 <= j < MAX_ROUNDS :: leases[j].Granted() {
      BalanceGrows(coupled, ts, Balance(s, ts), leases, 1023);
    }
    NeverBadCost(s, coupled, ts, cost, leases, MAX_ROUNDS);
  }

  /** Grants whose window is already over for the caller are all taken and all thrown away: the check then gives up. */
  lemma {:induction false} LateGrantsAreWasted(s: Option<Spender>, ts: int, cost: int, leases: seq<Lease>, rounds: nat)
    requires Sound(s, true) && cost >= 1 && Balance(s, ts) < cost && |leases| >= rounds
    requires forall j :: 0 <= j < rounds ==> leases[j].Granted() && leases[j].expiryMs <= ts
    ensures var (after, verdict, reserves) := Serve(s, true, ts, cost, leases, rounds);
            verdict.RoundsExceeded? && reserves == rounds
    decreases rounds
  {
    if rounds > 0 {
      assert leases[0].Granted() && leases[0].expiryMs <= ts;
      FirstRound(s, true, ts, cost, leases[0]);
      var found := Created(if s.Some? then Some(Spend(s.value, ts, cost).0) else None, leases[0], true);
      var applied := Some(Apply(found, leases[0].capacity, leases[0].expiryMs));
      forall j | 0 <= j < rounds - 1
        ensures leases[1..][j].Granted() && leases[1..][j].expiryMs <= ts
      {
        assert leases[j + 1].Granted();
      }
      LateGrantsAreWasted(applied, ts, cost, leases[1..], rounds - 1);
      hide Spend, Apply, Created;
    }
  }

  lemma {:induction false} UnitBalance(coupled: bool, ts: int, balance: int, leases: seq<Lease>, i: nat)
    requires i <= |leases| && forall j :: 0 <= j < i ==> leases[j].capacity == 1 && leases[j].expiryMs > ts
    ensures BalanceAt(coupled, ts, balance, leases, i) == balance + i
    decreases i
  {
    if i > 0 {
      assert leases[0].capacity == 1;
      forall j | 0 <= j < i - 1
        ensures leases[1..][j].capacity == 1 && leases[1..][j].expiryMs > ts
      {
        assert leases[j + 1].capacity == 1;
      }
      UnitBalance(coupled, ts, balance + 1, leases[1..], i - 1);
    }
  }

  /** One unit per grant: 1023 units are the most that 1024 rounds can add up to a single spend. */
  lemma {:induction false} UnitGrantsGiveUpIff(s: Option<Spender>, coupled: bool, ts: int, cost: int, leases: seq<Lease>)
    requires Sound(s, coupled) && cost >= 1 && |leases| >= MAX_ROUNDS
    requires forall j :: 0 <= j < MAX_ROUNDS ==> leases[j].capacity == 1 && leases[j].expiryMs > ts
    ensures Serve(s, coupled, ts, cost, leases, MAX_ROUNDS).1.RoundsExceeded? <==> cost > Balance(s, ts) + 1023
  {
    GivesUpIff(s, coupled, ts, cost, leases, MAX_ROUNDS);
    hide Serve;
    forall i | 0 <= i < MAX_ROUNDS
      ensures BalanceAt(coupled, ts, Balance(s, ts), leases, i) == Balance(s, ts) + i
    {
      UnitBalance(coupled, ts, Balance(s, ts), leases, i);
    }
    hide BalanceAt;
    assert BalanceAt(coupled, ts, Balance(s, ts), leases, 1023) == Balance(s, ts) + 1023;
  }

  // ---------- A server with a budget for one window ----------

  /** The leases of a server that grants what is wanted as far as its budget goes, all in one window. */
  predicate FromBudget(leases: seq<Lease>, budget: int, wants: int, expiry: int) {
    leases != [] ==>
      && leases[0].capacity == Min(wants, budget) && leases[0].expiryMs == expiry
      && FromBudget(leases[1..], budget - Min(wants, budget), wants, expiry)
  }

  /** Within one window a check needs at most two Reserves, and is denied only by a grant of nothing. */
  lemma {:induction false} AtMostTwoReserves(
    s: Option<Spender>, coupled: bool, ts: int, cost: int, batch: int, leases: seq<Lease>, budget: int, expiry: int)
    requires Sound(s, coupled) && cost >= 1 && batch >= 1 && budget >= 0 && ts < expiry
    requires |leases| >= MAX_ROUNDS && FromBudget(leases, budget, Max(cost, batch), expiry)
    ensures var (after, verdict, reserves) := Serve(s, coupled, ts, cost, leases, MAX_ROUNDS);
            && verdict.Decided? && reserves <= 2
            && (verdict.decision.allowed <==> Balance(s, ts) + budget >= cost)
            && (reserves == 0 <==> Balance(s, ts) >= cost)
            && (reserves == 2 <==> Balance(s, ts) < cost && 0 < leases[0].capacity < cost - Balance(s, ts))
            && (!verdict.decision.allowed ==> reserves >= 1 && leases[reserves - 1].capacity == 0)
            && after.Some? && Sound(after, coupled)
            && after.value.credits == Balance(s, ts) + (if reserves == 0 then 0 else leases[0].capacity)
                                      - (if verdict.decision.allowed then cost else 0)
            && (reserves > 0 && leases[0].Granted() ==> after.value.expiresAt == Some(expiry))
            && (reserves == 0 ==> after.value.expiresAt == s.value.expiresAt)
  {}

  // ---------- Many checks of one unit each ----------

  /** One check of a single unit: the caller's clock, and the leases the server has for it. */
  datatype Visit = Visit(ts: int, leases: seq<Lease>)

  function Taken(leases: seq<Lease>, n: nat): int
    requires n <= |leases|
  {
    if n == 0 then 0 else Taken(leases, n - 1) + leases[n - 1].capacity
  }

  /** Where a limiter stands after some checks: its spender, the verdicts, the Reserves made and the units taken. */
  datatype Tally = Tally(spender: Option<Spender>, verdicts: seq<Verdict>, reserves: nat, taken: int)

  function Checked(coupled: bool, before: Tally, visit: Visit): Tally
    requires |visit.leases| >= MAX_ROUNDS
  {
    var (after, verdict, reserves) := Serve(before.spender, coupled, visit.ts, 1, visit.leases, MAX_ROUNDS);
    Tally(after, before.verdicts + [verdict], before.reserves + reserves,
          before.taken + if reserves <= |visit.leases| then Taken(visit.leases, reserves) else 0)
  }

  function UnitChecks(coupled: bool, visits: seq<Visit>): Tally
    requires forall k :: 0 <= k < |visits| ==> |visits[k].leases| >= MAX_ROUNDS
  {
    if visits == [] then Tally(None, [], 0, 0)
    else Checked(coupled, UnitChecks(coupled, visits[..|visits| - 1]), visits[|visits| - 1])
  }

  /** All checks fall in one window, and the server answers them from one budget. */
  ghost predicate OneBudget(coupled: bool, visits: seq<Visit>, budget: int, batch: int, expiry: int) {
    && (forall k :: 0 <= k < |visits| ==> |visits[k].leases| >= MAX_ROUNDS && visits[k].ts < expiry)
    && (forall k :: 0 <= k < |visits| ==>
          FromBudget(visits[k].leases, budget - UnitChecks(coupled, visits[..k]).taken, Max(1, batch), expiry))
  }

  lemma {:induction false} OneBudgetPrefix(coupled: bool, visits: seq<Visit>, budget: int, batch: int, expiry: int)
    requires visits != [] && OneBudget(coupled, visits, budget, batch, expiry)
    ensures OneBudget(coupled, visits[..|visits| - 1], budget, batch, expiry)
  {
    hide UnitChecks, FromBudget;
    var rest := visits[..|visits| - 1];
    forall k | 0 <= k < |rest|
      ensures FromBudget(rest[k].leases, budget - UnitChecks(coupled, rest[..k]).taken, Max(1, batch), expiry)
    {
      assert rest[..k] == visits[..k];
    }
  }

  ghost predicate AllAllowed(verdicts: seq<Verdict>) {
    forall k :: 0 <= k < |verdicts| ==> verdicts[k].Decided? && verdicts[k].decision.allowed
  }

  /** After `n` checks: whole batches have been taken, and one unit of them spent per check. */
  ghost predicate Amortised(t: Tally, n: nat, coupled: bool, batch: int, expiry: int)
    requires batch >= 1
  {
    && |t.verdicts| == n && AllAllowed(t.verdicts)
    && t.reserves == CeilDiv(n, batch) && t.taken == CeilDiv(n, batch) * batch
    && Sound(t.spender, coupled)
    && (if n == 0 then t.spender == None
        else t.spender.Some? && t.spender.value.credits == t.taken - n && t.spender.value.expiresAt == Some(expiry))
  }

  lemma {:induction false} Batches(n: nat, b: int)
    requires b >= 1
    ensures CeilDiv(n, b) * b - b < n <= CeilDiv(n, b) * b
    ensures CeilDiv(n + 1, b) == CeilDiv(n, b) + if n == CeilDiv(n, b) * b then 1 else 0
    ensures CeilDiv(n + 1, b) * b == CeilDiv(n, b) * b + if n == CeilDiv(n, b) * b then b else 0
  {
    var r := CeilDiv(n, b);
    CeilBounds(n, b);
    OneMore(r, b);
    if n == r * b {
      CeilUnique(n + 1, b, r + 1);
    } else {
      CeilUnique(n + 1, b, r);
    }
  }

  lemma {:induction false} BatchStep(
    t: Tally, n: nat, coupled: bool, visit: Visit, budget: int, batch: int, expiry: int)
    requires batch >= 1 && Amortised(t, n, coupled, batch, expiry)
    requires |visit.leases| >= MAX_ROUNDS && visit.ts < expiry
    requires FromBudget(visit.leases, budget - t.taken, batch, expiry) && budget >= CeilDiv(n + 1, batch) * batch
    ensures Amortised(Checked(coupled, t, visit), n + 1, coupled, batch, expiry)
  {
    Batches(n, batch);
    hide Serve, CeilDiv;
    AtMostTwoReserves(t.spender, coupled, visit.ts, 1, batch, visit.leases, budget - t.taken, expiry);
    assert Taken(visit.leases, 1) == Taken(visit.leases, 0) + visit.leases[0].capacity;
    assert Balance(t.spender, visit.ts) == t.taken - n;
  }

  /** Leasing in batches of `b` from an ample budget, `n` checks are all allowed and make `ceil(n / b)` Reserves. */
  lemma {:induction false} BatchesAmortise(coupled: bool, visits: seq<Visit>, budget: int, batch: int, expiry: int)
    requires batch >= 1 && OneBudget(coupled, visits, budget, batch, expiry)
    requires budget >= CeilDiv(|visits|, batch) * batch
    ensures Amortised(UnitChecks(coupled, visits), |visits|, coupled, batch, expiry)
  {
    hide Checked, FromBudget;
    if visits == [] {
      CeilUnique(0, batch, 0);
    } else {
      var n := |visits| - 1;
      OneBudgetPrefix(coupled, visits, budget, batch, expiry);
      Batches(n, batch);
      BatchesAmortise(coupled, visits[..n], budget, batch, expiry);
      BatchStep(UnitChecks(coupled, visits[..n]), n, coupled, visits[n], budget, batch, expiry);
    }
  }
}
