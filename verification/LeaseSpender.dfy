/**
 The client half of a lease: credits granted by the server, coupled to the window they were granted
 for, and spent locally.
 */
module LeaseSpender {
  import opened Runs

  datatype Option<+T> = None | Some(value: T)

  /** What one spender holds. */
  datatype Spender = Spender(limit: int, ttlMs: int, coupled: bool, credits: int, expiresAt: Option<int>)

  /** What `spend` comes to: an allow, the wish for a refresh, or the `ValueError` for a cost below 1. */
  datatype Outcome = Allow(decision: Reply) | NeedRefresh | CostRejected

  function Fresh(limit: int, ttlMs: int, coupled: bool): Spender {
    Spender(limit, ttlMs, coupled, 0, None)
  }

  function Apply(s: Spender, capacity: int, expiresAt: int): Spender {
    s.(credits := s.credits + capacity, expiresAt := Some(expiresAt))
  }

  /** The granting window has rolled: what is left of it cannot be spent any more. */
  predicate Stale(s: Spender, now: int) {
    s.coupled && s.expiresAt.Some? && now >= s.expiresAt.value && s.credits > 0
  }

  /** The credits a spend at `now` can draw on. */
  function Usable(s: Spender, now: int): int {
    if Stale(s, now) then 0 else s.credits
  }

  function Spend(s: Spender, now: int, cost: int): (Spender, Outcome) {
    if cost <= 0 then
      (s, CostRejected)
    else
      var kept := s.(credits := Usable(s, now));
      if kept.credits >= cost then
        var after := kept.(credits := kept.credits - cost);
        var resetAt := if s.expiresAt.Some? then s.expiresAt.value else now + s.ttlMs;
        (after, Allow(Reply(true, s.limit, if after.credits < 0 then 0 else after.credits, resetAt, 0)))
      else
        (kept, NeedRefresh)
  }

  /** One spender; `Contents` is what the functions above speak of. */
  class LeaseSpender {
    var limit: int
    var ttlMs: int
    var windowCoupled: bool
    var credits: int
    var expiresAt: Option<int>

    function Contents(): Spender
      reads this
    {
      Spender(limit, ttlMs, windowCoupled, credits, expiresAt)
    }

    constructor (limit: int, ttlMs: int, windowCoupled: bool)
      ensures Contents() == Fresh(limit, ttlMs, windowCoupled)
    {
      this.limit, this.ttlMs, this.windowCoupled := limit, ttlMs, windowCoupled;
      credits, expiresAt := 0, None;
    }

    method ApplyLease(capacity: int, boundary: int)
      modifies this
      ensures Contents() == Apply(old(Contents()), capacity, boundary)
    {
      credits := credits + capacity;
      expiresAt := Some(boundary);
    }

    method SpendUnits(now: int, cost: int) returns (outcome: Outcome)
      modifies this
      ensures (Contents(), outcome) == Spend(old(Contents()), now, cost)
    {
      if cost <= 0 {
        return CostRejected;
      }
      if windowCoupled && expiresAt.Some? && now >= expiresAt.value && credits > 0 {
        credits := 0;
      }
      if credits >= cost {
        credits := credits - cost;
        var resetAt := if expiresAt.Some? then expiresAt.value else now + ttlMs;
        return Allow(Reply(true, limit, if credits < 0 then 0 else credits, resetAt, 0));
      }
      return NeedRefresh;
    }

    method Reset()
      modifies this
      ensures Contents() == old(Contents()).(credits := 0, expiresAt := None)
    {
      credits, expiresAt := 0, None;
    }
  }
}
