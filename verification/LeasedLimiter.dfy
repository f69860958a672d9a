/**
 The limiter that spends a lease locally and asks the server for another only on a shortfall.
 The server is the sequence of leases it answers a check with, one for every Reserve.
 */
module LeasedLimiter {
  import opened Rounding
  import opened Runs
  import opened LeaseSpender

  /** A reply to Reserve. */
  datatype Lease = Lease(capacity: int, expiryMs: int, refreshIntervalMs: int, safeCapacity: int,
                         retryAfterMs: int, limit: int)
  {
    predicate Granted() {
      capacity > 0
    }

    function DeniedDecision(): Reply {
      Reply(false, limit, 0, expiryMs, retryAfterMs)
    }
  }

  datatype Verdict = Decided(decision: Reply) | BadCost | RoundsExceeded

  const MAX_ROUNDS: int := 1024

  /** The spender a reply finds: the first reply of all creates it. */
  function Created(s: Option<Spender>, lease: Lease, coupled: bool): Spender {
    if s.Some? then s.value else Fresh(lease.limit, Max(1, lease.expiryMs), coupled)
  }

  /** The credits a limiter can draw on at `ts`. */
  function Balance(s: Option<Spender>, ts: int): int {
    if s.Some? then Usable(s.value, ts) else 0
  }

  /** What is left to do for one request when `rounds` rounds are left and the server's next replies are `leases`. */
  function Serve(s: Option<Spender>, coupled: bool, ts: int, cost: int, leases: seq<Lease>, rounds: nat)
    : (Option<Spender>, Verdict, nat)
    requires |leases| >= rounds
    decreases rounds
  {
    if rounds == 0 then
      (s, RoundsExceeded, 0)
    else if s.Some? && !Spend(s.value, ts, cost).1.NeedRefresh? then
      var (after, outcome) := Spend(s.value, ts, cost);
      (Some(after), if outcome.Allow? then Decided(outcome.decision) else BadCost, 0)
    else
      var found := Created(if s.Some? then Some(Spend(s.value, ts, cost).0) else None, leases[0], coupled);
      if !leases[0].Granted() then
        (Some(found), Decided(leases[0].DeniedDecision()), 1)
      else
        var applied := Apply(found, leases[0].capacity, leases[0].expiryMs);
        var (after, verdict, reserves) := Serve(Some(applied), coupled, ts, cost, leases[1..], rounds - 1);
        (after, verdict, reserves + 1)
  }

  /** One round, for the loop that carries the others out. */
  lemma {:induction false} ServeRound(s: Option<Spender>, coupled: bool, ts: int, cost: int, leases: seq<Lease>, i: nat)
    requires i < MAX_ROUNDS <= |leases|
    ensures var rounds := MAX_ROUNDS - i;
            var lease := leases[i];
            var serve := Serve(s, coupled, ts, cost, leases[i..], rounds);
            if s.Some? && !Spend(s.value, ts, cost).1.NeedRefresh? then
              var (after, outcome) := Spend(s.value, ts, cost);
              serve == (Some(after), if outcome.Allow? then Decided(outcome.decision) else BadCost, 0)
            else
              var found := Created(if s.Some? then Some(Spend(s.value, ts, cost).0) else None, lease, coupled);
              if !lease.Granted() then
                serve == (Some(found), Decided(lease.DeniedDecision()), 1)
              else
                var rest := Serve(Some(Apply(found, lease.capacity, lease.expiryMs)), coupled, ts, cost,
                                  leases[i + 1..], rounds - 1);
                serve == (rest.0, rest.1, rest.2 + 1)
  {}

  lemma {:induction false} ServeNone(s: Option<Spender>, coupled: bool, ts: int, cost: int, leases: seq<Lease>)
    ensures Serve(s, coupled, ts, cost, leases, 0) == (s, RoundsExceeded, 0)
  {}

  class LeasedLimiter {
    const batch: int
    const windowCoupled: bool
    var spender: LeaseSpender?

    ghost function Contents(): Option<Spender>
      reads this, spender
    {
      if spender == null then None else Some(spender.Contents())
    }

    constructor (batch: int, windowCoupled: bool)
      ensures this.batch == batch && this.windowCoupled == windowCoupled && Contents() == None
    {
      this.batch, this.windowCoupled, spender := batch, windowCoupled, null;
    }

    /** `leased`: a batch below 1 is refused. */
    static method Leased(batch: int, windowCoupled: bool) returns (limiter: LeasedLimiter?)
      ensures limiter == null <==> batch < 1
      ensures limiter != null ==>
                fresh(limiter) && limiter.batch == batch && limiter.windowCoupled == windowCoupled
                && limiter.Contents() == None
    {
      if batch < 1 {
        return null;
      }
      limiter := new LeasedLimiter(batch, windowCoupled);
    }

    /** Serve one request; `wants` is what each of the `reserves` Reserves asked for. */
    method Check(cost: int, ts: int, leases: seq<Lease>) returns (verdict: Verdict, reserves: nat, wants: int)
      requires |leases| >= MAX_ROUNDS
      modifies this, spender
      ensures (Contents(), verdict, reserves) == Serve(old(Contents()), windowCoupled, ts, cost, leases, MAX_ROUNDS)
      ensures wants == Max(cost, batch)
      ensures old(spender) != null ==> spender == old(spender)
      ensures old(spender) == null && spender != null ==> fresh(spender)
    {
      hide Serve, Spend, Apply;
      wants := Max(cost, batch);
      ghost var start := Contents();
      assert leases[0..] == leases;
      for i := 0 to MAX_ROUNDS
        invariant old(spender) != null ==> spender == old(spender)
        invariant old(spender) == null && spender != null ==> fresh(spender)
        invariant var rest := Serve(Contents(), windowCoupled, ts, cost, leases[i..], MAX_ROUNDS - i);
                  Serve(start, windowCoupled, ts, cost, leases, MAX_ROUNDS) == (rest.0, rest.1, rest.2 + i)
        modifies this, spender
      {
        ServeRound(Contents(), windowCoupled, ts, cost, leases, i);
        if spender != null {
          var outcome := spender.SpendUnits(ts, cost);
          if outcome.Allow? {
            return Decided(outcome.decision), i, wants;
          }
          if outcome.CostRejected? {
            return BadCost, i, wants;
          }
        }
        var lease := leases[i];
        if spender == null {
          spender := new LeaseSpender(lease.limit, Max(1, lease.expiryMs), windowCoupled);
        }
        if !lease.Granted() {
          return Decided(lease.DeniedDecision()), i + 1, wants;
        }
        spender.ApplyLease(lease.capacity, lease.expiryMs);
      }
      ServeNone(Contents(), windowCoupled, ts, cost, leases[MAX_ROUNDS..]);
      return RoundsExceeded, MAX_ROUNDS, wants;
    }
  }
}
