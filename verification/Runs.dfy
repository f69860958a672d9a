/**
 What every limiter script shares: the five-field reply, one expiring Redis key, runs of
 requests against it, and the two lemmas every comparison of runs goes through.
 */
module Runs {

  /** The reply tuple `{allowed, limit, remaining, resetAt, retryAfterMs}`. */
  datatype Reply = Reply(allowed: bool, limit: int, remaining: int, resetAt: int, retryAfterMs: int)

  /** One `check`: the clock value the script sees, in ms, and the units asked for. */
  datatype Request = Request(now: int, cost: int)

  /** The limiter's key: absent, or a value that Redis may drop once the clock reaches `deadline`. */
  datatype Key<+V> = Absent | Stored(value: V, deadline: int)

  /** What a run leaves behind: the last state, every reply, and the requests that were admitted. */
  datatype Trace<+S> = Trace(state: S, replies: seq<Reply>, admitted: seq<Request>)

  type Step<!S> = (S, Request) -> (S, Reply)

  function Run<S>(step: Step<S>, start: S, requests: seq<Request>): Trace<S> {
    if requests == [] then
      Trace(start, [], [])
    else
      var n := |requests| - 1;
      var before := Run(step, start, requests[..n]);
      var (state, reply) := step(before.state, requests[n]);
      Trace(state, before.replies + [reply],
            if reply.allowed then before.admitted + [requests[n]] else before.admitted)
  }

  lemma {:induction false} RunExtends<S>(step: Step<S>, start: S, requests: seq<Request>, q: Request)
    ensures var before := Run(step, start, requests);
            Run(step, start, requests + [q])
            == Trace(step(before.state, q).0, before.replies + [step(before.state, q).1],
                     if step(before.state, q).1.allowed then before.admitted + [q] else before.admitted)
  {}

  /** The key as a script finds it at `now`, when Redis may already have dropped it. */
  function Vanish<V>(key: Key<V>, now: int, gone: bool): Key<V> {
    if gone && key.Stored? && key.deadline <= now then Absent else key
  }

  /** A run in which, before request `i`, Redis drops an overdue key if `gone[i]`. */
  function RunExpiring<V>(step: Step<Key<V>>, requests: seq<Request>, gone: seq<bool>): Trace<Key<V>>
    requires |gone| == |requests|
  {
    if requests == [] then
      Trace(Absent, [], [])
    else
      var n := |requests| - 1;
      var before := RunExpiring(step, requests[..n], gone[..n]);
      var (state, reply) := step(Vanish(before.state, requests[n].now, gone[n]), requests[n]);
      Trace(state, before.replies + [reply],
            if reply.allowed then before.admitted + [requests[n]] else before.admitted)
  }

  ghost predicate Nondecreasing(requests: seq<Request>) {
    forall i, j :: 0 <= i <= j < |requests| ==> requests[i].now <= requests[j].now
  }

  ghost predicate NoneAfter(requests: seq<Request>, t: int) {
    forall i :: 0 <= i < |requests| ==> requests[i].now <= t
  }

  /** Every request comes no earlier than any that was admitted before it. */
  ghost predicate NeverBeforeAdmitted<V>(step: Step<Key<V>>, requests: seq<Request>) {
    requests != [] ==>
      var before := requests[..|requests| - 1];
      && NeverBeforeAdmitted(step, before)
      && NoneAfter(Run(step, Absent, before).admitted, requests[|requests| - 1].now)
  }

  lemma {:induction false} NeverBeforeAdmittedExtends<V>(step: Step<Key<V>>, requests: seq<Request>, q: Request)
    ensures NeverBeforeAdmitted(step, requests + [q])
            <==> NeverBeforeAdmitted(step, requests) && NoneAfter(Run(step, Absent, requests).admitted, q.now)
  {
    var longer := requests + [q];
    assert longer[..|longer| - 1] == requests && longer[|longer| - 1] == q;
    hide Run, NoneAfter;
  }

  lemma {:induction false} RepliesCount<S>(step: Step<S>, start: S, requests: seq<Request>)
    ensures |Run(step, start, requests).replies| == |requests|
  {
    if requests != [] {
      RepliesCount(step, start, requests[..|requests| - 1]);
    }
  }

  /** The units asked for by a sequence of requests. */
  function Cost(requests: seq<Request>): int {
    if requests == [] then 0 else Cost(requests[..|requests| - 1]) + requests[|requests| - 1].cost
  }

  ghost predicate Positive(requests: seq<Request>) {
    forall i :: 0 <= i < |requests| ==> requests[i].cost >= 1
  }

  lemma {:induction false} AdmittedKeepsOrder<S>(step: Step<S>, start: S, requests: seq<Request>)
    ensures var admitted := Run(step, start, requests).admitted;
            && (Positive(requests) ==> Positive(admitted))
            && (Nondecreasing(requests) ==>
                  && Nondecreasing(admitted)
                  && (admitted != [] ==> requests != [] && admitted[|admitted| - 1].now <= requests[|requests| - 1].now))
  {
    if requests != [] {
      var n := |requests| - 1;
      AdmittedKeepsOrder(step, start, requests[..n]);
      if n > 0 && Nondecreasing(requests) {
        assert requests[n - 1].now <= requests[n].now;
      }
    }
  }

  /** The units asked for at the instants that satisfy `at`. */
  function CostWhere(requests: seq<Request>, at: int -> bool): int {
    if requests == [] then
      0
    else
      var last := requests[|requests| - 1];
      CostWhere(requests[..|requests| - 1], at) + if at(last.now) then last.cost else 0
  }

  lemma {:induction false} CostWhereCovered(h: seq<Request>, p: int -> bool, q: int -> bool, r: int -> bool)
    requires Positive(h)
    requires forall i :: 0 <= i < |h| && p(h[i].now) ==> q(h[i].now) || r(h[i].now)
    ensures 0 <= CostWhere(h, p) <= CostWhere(h, q) + CostWhere(h, r)
  {
    if h != [] {
      CostWhereCovered(h[..|h| - 1], p, q, r);
    }
  }

  lemma {:induction false} CostWhereWithin(h: seq<Request>, p: int -> bool, q: int -> bool)
    requires Positive(h)
    requires forall i :: 0 <= i < |h| && p(h[i].now) ==> q(h[i].now)
    ensures 0 <= CostWhere(h, p) <= CostWhere(h, q)
  {
    if h != [] {
      CostWhereWithin(h[..|h| - 1], p, q);
    }
  }

  lemma {:induction false} CostWhereDisjoint(h: seq<Request>, p: int -> bool, q: int -> bool, r: int -> bool)
    requires forall i :: 0 <= i < |h| ==> (p(h[i].now) <==> q(h[i].now) || r(h[i].now))
    requires forall i :: 0 <= i < |h| ==> !(q(h[i].now) && r(h[i].now))
    ensures CostWhere(h, p) == CostWhere(h, q) + CostWhere(h, r)
  {
    if h != [] {
      CostWhereDisjoint(h[..|h| - 1], p, q, r);
    }
  }

  lemma {:induction false} CostWhereSame(h: seq<Request>, p: int -> bool, q: int -> bool)
    requires forall i :: 0 <= i < |h| ==> (p(h[i].now) <==> q(h[i].now))
    ensures CostWhere(h, p) == CostWhere(h, q)
  {
    if h != [] {
      CostWhereSame(h[..|h| - 1], p, q);
    }
  }

  lemma {:induction false} CostWhereNone(h: seq<Request>, p: int -> bool)
    requires forall i :: 0 <= i < |h| ==> !p(h[i].now)
    ensures CostWhere(h, p) == 0
  {
    if h != [] {
      CostWhereNone(h[..|h| - 1], p);
    }
  }

  /** From related states, at any later clock value, both steps reply alike and stay related. */
  ghost predicate Simulates<A(!new), B(!new)>(f: Step<A>, g: Step<B>, related: (A, B, int) -> bool) {
    forall a, b, t: int, q: Request :: related(a, b, t) && t <= q.now ==>
      f(a, q).1 == g(b, q).1 && related(f(a, q).0, g(b, q).0, q.now)
  }

  lemma SimulatesOnce<A(!new), B(!new)>(
    f: Step<A>, g: Step<B>, related: (A, B, int) -> bool, a: A, b: B, t: int, q: Request)
    requires Simulates(f, g, related) && related(a, b, t) && t <= q.now
    ensures f(a, q).1 == g(b, q).1 && related(f(a, q).0, g(b, q).0, q.now)
  {}

  lemma {:induction false} Simulation<A(!new), B(!new)>(
    f: Step<A>, a: A, g: Step<B>, b: B, related: (A, B, int) -> bool, requests: seq<Request>)
    requires Nondecreasing(requests)
    requires forall t :: related(a, b, t)
    requires Simulates(f, g, related)
    ensures Run(f, a, requests).replies == Run(g, b, requests).replies
    ensures Run(f, a, requests).admitted == Run(g, b, requests).admitted
    ensures requests != [] ==>
              related(Run(f, a, requests).state, Run(g, b, requests).state, requests[|requests| - 1].now)
  {
    hide Simulates;
    if requests != [] {
      var n := |requests| - 1;
      var q := requests[n];
      Simulation(f, a, g, b, related, requests[..n]);
      var s, r := Run(f, a, requests[..n]).state, Run(g, b, requests[..n]).state;
      if n == 0 {
        SimulatesOnce(f, g, related, s, r, q.now, q);
      } else {
        SimulatesOnce(f, g, related, s, r, requests[n - 1].now, q);
      }
    }
  }

  /** A dropped key is replaced by an absent one that stays related to the key that was kept. */
  ghost predicate ForgetsOverdue<V(!new)>(related: (Key<V>, Key<V>, int) -> bool) {
    forall k, l, t: int, later: int ::
      related(k, l, t) && t <= later && k.Stored? && k.deadline <= later ==> related(Absent, l, later)
  }

  lemma {:induction false} ExpirySimulation<V(!new)>(
    step: Step<Key<V>>, related: (Key<V>, Key<V>, int) -> bool, requests: seq<Request>, gone: seq<bool>)
    requires |gone| == |requests| && Nondecreasing(requests)
    requires forall t :: related(Absent, Absent, t)
    requires Simulates(step, step, related)
    requires ForgetsOverdue(related)
    ensures RunExpiring(step, requests, gone).replies == Run(step, Absent, requests).replies
    ensures requests != [] ==>
              related(RunExpiring(step, requests, gone).state, Run(step, Absent, requests).state,
                      requests[|requests| - 1].now)
  {
    hide Simulates;
    if requests != [] {
      var n := |requests| - 1;
      ExpirySimulation(step, related, requests[..n], gone[..n]);
      var q := requests[n];
      var t := if n == 0 then q.now else requests[n - 1].now;
      var k, l := RunExpiring(step, requests[..n], gone[..n]).state, Run(step, Absent, requests[..n]).state;
      assert related(k, l, t);
      if Vanish(k, q.now, gone[n]) == k {
        SimulatesOnce(step, step, related, k, l, t, q);
      } else {
        SimulatesOnce(step, step, related, Absent, l, q.now, q);
      }
    }
  }
}
