/**
 The coroutine form of the leased limiter. A `check` runs without a pause from its start, or from the
 reply it awaited, up to its next `await` or its end; other checks on the same limiter run in between.
 */
module AsyncLeasedLimiter {
  import opened Rounding
  import opened LeaseSpender
  import opened LeasedLimiter

  /** Where a check stands: awaiting the reply to a Reserve, or ended. */
  datatype Status = Waiting | Ended(verdict: Verdict)

  /** From the head of round `round` to the next pause. */
  function Attempt(s: Option<Spender>, ts: int, cost: int, round: nat): (Option<Spender>, Status) {
    if round >= MAX_ROUNDS then
      (s, Ended(RoundsExceeded))
    else if s.None? then
      (s, Waiting)
    else
      var (after, outcome) := Spend(s.value, ts, cost);
      (Some(after),
       match outcome
       case Allow(decision) => Ended(Decided(decision))
       case CostRejected => Ended(BadCost)
       case NeedRefresh => Waiting)
  }

  /** From the reply of round `round` to the next pause. */
  function Resume(s: Option<Spender>, coupled: bool, ts: int, cost: int, round: nat, lease: Lease)
    : (Option<Spender>, Status)
  {
    var found := Created(s, lease, coupled);
    if !lease.Granted() then
      (Some(found), Ended(Decided(lease.DeniedDecision())))
    else
      Attempt(Some(Apply(found, lease.capacity, lease.expiryMs)), ts, cost, round + 1)
  }

  /** A check that is never interrupted: each pause is followed by its own reply. */
  function Alone(s: Option<Spender>, coupled: bool, ts: int, cost: int, round: nat, leases: seq<Lease>, awaited: nat)
    : (Option<Spender>, Verdict, nat)
    requires round <= MAX_ROUNDS
    requires |leases| >= MAX_ROUNDS - round
    decreases MAX_ROUNDS - round
  {
    var (after, status) := Attempt(s, ts, cost, round);
    if status.Ended? then
      (after, status.verdict, awaited)
    else if !leases[0].Granted() then
      var (last, end) := Resume(after, coupled, ts, cost, round, leases[0]);
      (last, end.verdict, awaited + 1)
    else
      var applied := Apply(Created(after, leases[0], coupled), leases[0].capacity, leases[0].expiryMs);
      Alone(Some(applied), coupled, ts, cost, round + 1, leases[1..], awaited + 1)
  }

  /** Left alone, the coroutine is the blocking limiter, in every field it leaves behind. */
  lemma {:induction false} AloneIsServe(s: Option<Spender>, coupled: bool, ts: int, cost: int, round: nat,
                                        leases: seq<Lease>, awaited: nat)
    requires round <= MAX_ROUNDS
    requires |leases| >= MAX_ROUNDS - round
    ensures var serve := Serve(s, coupled, ts, cost, leases, MAX_ROUNDS - round);
            Alone(s, coupled, ts, cost, round, leases, awaited) == (serve.0, serve.1, serve.2 + awaited)
    decreases MAX_ROUNDS - round
  {
    hide Spend;
    var (after, status) := Attempt(s, ts, cost, round);
    if status.Waiting? && leases[0].Granted() {
      var applied := Apply(Created(after, leases[0], coupled), leases[0].capacity, leases[0].expiryMs);
      AloneIsServe(Some(applied), coupled, ts, cost, round + 1, leases[1..], awaited + 1);
    }
  }

  class AsyncLeasedLimiter {
    const batch: int
    const windowCoupled: bool
    var spender: LeaseSpender?

    ghost function Contents(): Option<Spender>
      reads this, spender
    {
      if spender == null then None else Some(spender.Contents())
    }

    constructor (batch: int, windowCoupled: bool)
      ensures this.batch == batch && this.windowCoupled == windowCoupled && Contents() == None
    {
      this.batch, this.windowCoupled, spender := batch, windowCoupled, null;
    }

    /** `wants` is what the Reserve of a waiting check asks for. */
    method Advance(cost: int, ts: int, round: nat) returns (status: Status, wants: int)
      modifies spender
      ensures (Contents(), status) == Attempt(old(Contents()), ts, cost, round)
      ensures wants == Max(cost, batch)
    {
      wants := Max(cost, batch);
      if round >= MAX_ROUNDS {
        return Ended(RoundsExceeded), wants;
      }
      if spender != null {
        var outcome := spender.SpendUnits(ts, cost);
        if outcome.Allow? {
          return Ended(Decided(outcome.decision)), wants;
        }
        if outcome.CostRejected? {
          return Ended(BadCost), wants;
        }
      }
      return Waiting, wants;
    }

    /** The spender is looked up again after the pause: another check may have created it meanwhile. */
    method Deliver(cost: int, ts: int, round: nat, lease: Lease) returns (status: Status, wants: int)
      modifies this, spender
      ensures (Contents(), status) == Resume(old(Contents()), windowCoupled, ts, cost, round, lease)
      ensures spender != null
      ensures if old(spender) == null then fresh(spender) else spender == old(spender)
      ensures wants == Max(cost, batch)
    {
      if spender == null {
        spender := new LeaseSpender(lease.limit, Max(1, lease.expiryMs), windowCoupled);
      }
      if !lease.Granted() {
        return Ended(Decided(lease.DeniedDecision())), Max(cost, batch);
      }
      spender.ApplyLease(lease.capacity, lease.expiryMs);
      status, wants := Advance(cost, ts, round + 1);
    }
  }
}
