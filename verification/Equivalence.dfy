/**
 GCRA and the token bucket are one limiter: virtual scheduling and the continuous-state leaky
 bucket of Annex A of ITU-T I.371, here with requests of any cost.
 */
module Equivalence {
  import opened Rounding
  import opened Runs
  import G = Gcra
  import B = TokenBucket

  /** The bucket holds one burst and gains `limit` tokens every `periodMs`. */
  ghost predicate Matching(g: G.Config, b: B.Config) {
    b.capacity == g.burst && b.refillPerSec * g.periodMs == 1000 * g.limit
  }

  /** What is missing from the bucket is what the arrival time is ahead of the clock, in tokens. */
  ghost predicate Coupled(g: G.Config, b: B.Config, gk: Key<int>, bk: Key<B.Bucket>, t: int) {
    && B.CountedBy(bk, t)
    && gk.Stored? == bk.Stored?
    && (gk.Stored? ==>
          g.periodMs * (1000 * b.capacity - bk.value.tokens) == 1000 * (gk.value - bk.value.last * g.limit))
  }

  lemma {:induction false} SameSign(missing: int, ahead: int, m: int)
    requires m > 0 && m * missing == 1000 * ahead
    ensures missing >= 0 <==> ahead >= 0
  {}

  lemma {:induction false} LevelsAgree(g: G.Config, b: B.Config, gk: Key<int>, bk: Key<B.Bucket>, t: int)
    requires Matching(g, b) && Coupled(g, b, gk, bk, t)
    ensures g.periodMs * (1000 * b.capacity - B.Level(b, bk, t)) == 1000 * (G.Base(g, gk, t) - t * g.limit)
  {
    if gk.Stored? {
      var elapsed := t - bk.value.last;
      var missing := 1000 * b.capacity - bk.value.tokens - elapsed * b.refillPerSec;
      var ahead := gk.value - t * g.limit;
      assert g.periodMs * missing == 1000 * ahead by {
        assert g.periodMs * missing
               == g.periodMs * (1000 * b.capacity - bk.value.tokens) - g.periodMs * (elapsed * b.refillPerSec);
        assert g.periodMs * (elapsed * b.refillPerSec) == elapsed * (b.refillPerSec * g.periodMs);
        assert elapsed * (1000 * g.limit) == 1000 * (elapsed * g.limit);
        assert elapsed * g.limit == t * g.limit - bk.value.last * g.limit;
      }
      SameSign(missing, ahead, g.periodMs);
    }
  }

  lemma {:induction false} Spend(g: G.Config, b: B.Config, level: int, ahead: int, cost: int)
    requires b.capacity == g.burst && g.periodMs * (1000 * b.capacity - level) == 1000 * ahead
    ensures g.periodMs * (1000 * b.capacity - (level - 1000 * cost)) == 1000 * (ahead + g.periodMs * cost)
    ensures g.periodMs * (1000 * cost - level) == 1000 * (ahead + g.periodMs * cost - g.periodMs * g.burst)
  {}

  lemma {:induction false} SameVerdict(g: G.Config, b: B.Config, level: int, ahead: int, cost: int)
    requires b.capacity == g.burst && g.periodMs * (1000 * b.capacity - level) == 1000 * ahead
    ensures level >= 1000 * cost <==> ahead + g.periodMs * cost - g.periodMs * g.burst <= 0
  {}

  lemma {:induction false} SameRoom(g: G.Config, b: B.Config, level: int, ahead: int)
    requires b.capacity == g.burst && g.periodMs * (1000 * b.capacity - level) == 1000 * ahead
    ensures G.Room(g, ahead) == Max(FloorDiv(level, 1000), 0)
  {
    var P := g.periodMs;
    assert P * level == 1000 * (P * g.burst - ahead) by {
      assert P * (1000 * b.capacity - level) == 1000 * (P * g.burst) - P * level;
    }
    SameFloor(P * g.burst - ahead, P, level, 1000, P, 1000);
  }

  lemma {:induction false} SameWait(g: G.Config, b: B.Config, tokens: int, ahead: int)
    requires Matching(g, b) && g.periodMs * tokens == 1000 * ahead
    ensures CeilDiv(ahead, g.limit) == B.Wait(b, tokens)
  {
    SameCeil(ahead, g.limit, tokens, b.refillPerSec, g.periodMs, 1000);
  }

  /** From levels that agree, every field of the two replies is the same. */
  lemma {:induction false} SameReply(g: G.Config, b: B.Config, gk: Key<int>, bk: Key<B.Bucket>, q: Request)
    requires Matching(g, b) && Coupled(g, b, gk, bk, q.now)
    ensures G.Check(g, gk, q).1 == B.Check(b, bk, q).1
    ensures G.Allows(g, gk, q.now, q.cost) == B.Allows(b, bk, q.now, q.cost)
  {
    LevelsAgree(g, b, gk, bk, q.now);
    var level, ahead := B.Level(b, bk, q.now), G.Base(g, gk, q.now) - q.now * g.limit;
    hide B.Level, G.Base, FloorDiv, CeilDiv;
    Spend(g, b, level, ahead, q.cost);
    SameVerdict(g, b, level, ahead, q.cost);
    SameRoom(g, b, level, ahead);
    SameRoom(g, b, level - 1000 * q.cost, ahead + g.periodMs * q.cost);
    SameWait(g, b, 1000 * b.capacity - level, ahead);
    SameWait(g, b, 1000 * b.capacity - (level - 1000 * q.cost), ahead + g.periodMs * q.cost);
    SameWait(g, b, 1000 * q.cost - level, ahead + g.periodMs * q.cost - g.periodMs * g.burst);
    CeilShift(ahead, g.limit, q.now);
    CeilShift(ahead + g.periodMs * q.cost, g.limit, q.now);
  }

  lemma {:induction false} CoupledStep(g: G.Config, b: B.Config, gk: Key<int>, bk: Key<B.Bucket>, t: int, q: Request)
    requires Matching(g, b) && Coupled(g, b, gk, bk, t) && t <= q.now
    ensures G.Check(g, gk, q).1 == B.Check(b, bk, q).1
    ensures Coupled(g, b, G.Check(g, gk, q).0, B.Check(b, bk, q).0, q.now)
  {
    SameReply(g, b, gk, bk, q);
    LevelsAgree(g, b, gk, bk, q.now);
    Spend(g, b, B.Level(b, bk, q.now), G.Base(g, gk, q.now) - q.now * g.limit, q.cost);
    hide B.Level, G.Base, G.Allows, B.Allows, FloorDiv, CeilDiv;
  }

  /** Coupled, wherever the clock stands, and the bucket holds no more than its capacity. */
  ghost predicate Linked(g: G.Config, b: B.Config, gk: Key<int>, bk: Key<B.Bucket>) {
    && gk.Stored? == bk.Stored?
    && (gk.Stored? ==> Coupled(g, b, gk, bk, bk.value.last) && bk.value.tokens <= 1000 * b.capacity)
  }

  /** The clock value is not behind the last admission. */
  predicate NotBehind(bk: Key<B.Bucket>, now: int) {
    bk.Stored? ==> now >= bk.value.last
  }

  /** Behind the last admission, both scripts work from that instant, but the bucket counts the wait from `now`. */
  lemma {:induction false} BehindDiffers(g: G.Config, b: B.Config, gk: Key<int>, bk: Key<B.Bucket>, q: Request)
    requires Matching(g, b) && Linked(g, b, gk, bk) && bk.Stored? && q.now < bk.value.last
    ensures G.Check(g, gk, q).1 != B.Check(b, bk, q).1
  {
    var last, tokens := bk.value.last, bk.value.tokens;
    var missing, ahead := 1000 * b.capacity - tokens, gk.value - last * g.limit;
    assert g.periodMs * missing == 1000 * ahead;
    SameSign(missing, ahead, g.periodMs);
    MulLt(q.now, last, g.limit);
    assert G.Base(g, gk, q.now) == gk.value;
    assert B.Level(b, bk, q.now) == tokens;
    Spend(g, b, tokens, ahead, q.cost);
    SameWait(g, b, missing, ahead);
    SameWait(g, b, missing + 1000 * q.cost, ahead + g.periodMs * q.cost);
    CeilShift(ahead, g.limit, last);
    CeilShift(ahead + g.periodMs * q.cost, g.limit, last);
    hide FloorDiv, CeilDiv, G.Base, B.Level, G.Room, B.Wait;
  }

  /** Two linked keys give the same reply exactly when the clock is not behind the last admission. */
  lemma {:induction false} SameReplyIff(g: G.Config, b: B.Config, gk: Key<int>, bk: Key<B.Bucket>, q: Request)
    requires Matching(g, b) && Linked(g, b, gk, bk)
    ensures G.Check(g, gk, q).1 == B.Check(b, bk, q).1 <==> NotBehind(bk, q.now)
  {
    hide G.Check, B.Check;
    if NotBehind(bk, q.now) {
      SameReply(g, b, gk, bk, q);
    } else {
      BehindDiffers(g, b, gk, bk, q);
    }
  }

  lemma {:induction false} LinkedStep(g: G.Config, b: B.Config, gk: Key<int>, bk: Key<B.Bucket>, q: Request)
    requires Matching(g, b) && Linked(g, b, gk, bk) && NotBehind(bk, q.now) && q.cost >= 0
    ensures var after := B.Check(b, bk, q).0;
            && Linked(g, b, G.Check(g, gk, q).0, after)
            && (if B.Check(b, bk, q).1.allowed then after.Stored? && after.value.last == q.now else after == bk)
  {
    CoupledStep(g, b, gk, bk, q.now, q);
    hide G.Base, G.Allows, FloorDiv, CeilDiv, Matching;
  }

  /** The keys after a run on which every reply was the same: linked, and counted at the latest admission. */
  ghost predicate InStep(g: G.Config, b: B.Config, requests: seq<Request>) {
    var (one, other) := (Run(G.Script(g), Absent, requests), Run(B.Script(b), Absent, requests));
    && one.replies == other.replies && one.admitted == other.admitted
    && Linked(g, b, one.state, other.state)
    && (forall t :: NotBehind(other.state, t) <==> NoneAfter(one.admitted, t))
  }

  lemma {:induction false} InStepExtends(g: G.Config, b: B.Config, requests: seq<Request>, q: Request)
    requires Matching(g, b) && InStep(g, b, requests) && q.cost >= 0
    requires NoneAfter(Run(G.Script(g), Absent, requests).admitted, q.now)
    ensures InStep(g, b, requests + [q])
  {
    hide Run, G.Check, B.Check, Linked;
    var (one, other) := (Run(G.Script(g), Absent, requests), Run(B.Script(b), Absent, requests));
    RunExtends(G.Script(g), Absent, requests, q);
    RunExtends(B.Script(b), Absent, requests, q);
    SameReplyIff(g, b, one.state, other.state, q);
    LinkedStep(g, b, one.state, other.state, q);
    if B.Check(b, other.state, q).1.allowed {
      forall t
        ensures NotBehind(B.Check(b, other.state, q).0, t) <==> NoneAfter(one.admitted + [q], t)
      {
        assert (one.admitted + [q])[|one.admitted|] == q;
        assert NoneAfter(one.admitted + [q], t) <==> NoneAfter(one.admitted, t) && q.now <= t;
      }
    }
  }

  /** Two runs give the same replies when all but the last are the same, and the last. */
  lemma {:induction false} LastOfReplies(g: G.Config, b: B.Config, requests: seq<Request>, q: Request)
    ensures var (one, other) := (Run(G.Script(g), Absent, requests), Run(B.Script(b), Absent, requests));
            Run(G.Script(g), Absent, requests + [q]).replies == Run(B.Script(b), Absent, requests + [q]).replies
            <==> one.replies == other.replies && G.Script(g)(one.state, q).1 == B.Script(b)(other.state, q).1
  {
    hide Run, G.Script, B.Script;
    var (one, other) := (Run(G.Script(g), Absent, requests), Run(B.Script(b), Absent, requests));
    RunExtends(G.Script(g), Absent, requests, q);
    RunExtends(B.Script(b), Absent, requests, q);
    RepliesCount(G.Script(g), Absent, requests);
    RepliesCount(B.Script(b), Absent, requests);
    var (x, y) := (G.Script(g)(one.state, q).1, B.Script(b)(other.state, q).1);
    assert (one.replies + [x])[..|requests|] == one.replies && (other.replies + [y])[..|requests|] == other.replies;
    assert (one.replies + [x])[|requests|] == x && (other.replies + [y])[|requests|] == y;
  }

  lemma {:induction false} InStepAgrees(g: G.Config, b: B.Config, requests: seq<Request>)
    requires InStep(g, b, requests)
    ensures Run(G.Script(g), Absent, requests).replies == Run(B.Script(b), Absent, requests).replies
    ensures Run(G.Script(g), Absent, requests).admitted == Run(B.Script(b), Absent, requests).admitted
  {}

  lemma {:induction false} InStepAtFirst(g: G.Config, b: B.Config)
    ensures InStep(g, b, []) && NeverBeforeAdmitted(G.Script(g), [])
  {}

  lemma {:induction false} LastReplyIff(g: G.Config, b: B.Config, requests: seq<Request>, q: Request)
    requires Matching(g, b) && InStep(g, b, requests)
    ensures var (one, other) := (Run(G.Script(g), Absent, requests), Run(B.Script(b), Absent, requests));
            G.Script(g)(one.state, q).1 == B.Script(b)(other.state, q).1
            <==> NoneAfter(one.admitted, q.now)
  {
    hide Run, G.Check, B.Check, Linked, NoneAfter, NotBehind;
    SameReplyIff(g, b, Run(G.Script(g), Absent, requests).state, Run(B.Script(b), Absent, requests).state, q);
  }

  /**
   The two scripts return the same five fields at every step of a run exactly when no request is made
   earlier than one already admitted.
   */
  lemma {:induction false} SameRepliesIff(g: G.Config, b: B.Config, requests: seq<Request>)
    requires Matching(g, b) && Positive(requests)
    ensures Run(G.Script(g), Absent, requests).replies == Run(B.Script(b), Absent, requests).replies
            <==> NeverBeforeAdmitted(G.Script(g), requests)
    ensures NeverBeforeAdmitted(G.Script(g), requests) ==> InStep(g, b, requests)
  {
    hide InStep, Run, NeverBeforeAdmitted, NoneAfter, Matching;
    if requests == [] {
      InStepAtFirst(g, b);
      InStepAgrees(g, b, requests);
    } else {
      var n := |requests| - 1;
      var before, q := requests[..n], requests[n];
      assert requests == before + [q];
      SameRepliesIff(g, b, before);
      NeverBeforeAdmittedExtends(G.Script(g), before, q);
      LastOfReplies(g, b, before, q);
      if NeverBeforeAdmitted(G.Script(g), before) {
        LastReplyIff(g, b, before, q);
        if NeverBeforeAdmitted(G.Script(g), requests) {
          InStepExtends(g, b, before, q);
        }
      }
    }
  }

  /** On a nondecreasing clock they are the same for any costs, those below 1 included. */
  lemma {:induction false} SameReplies(g: G.Config, b: B.Config, requests: seq<Request>)
    requires Matching(g, b) && Nondecreasing(requests)
    ensures Run(G.Script(g), Absent, requests).replies == Run(B.Script(b), Absent, requests).replies
    ensures Run(G.Script(g), Absent, requests).admitted == Run(B.Script(b), Absent, requests).admitted
  {
    var related := (gk: Key<int>, bk: Key<B.Bucket>, t: int) => Coupled(g, b, gk, bk, t);
    forall gk, bk, t: int, q: Request | related(gk, bk, t) && t <= q.now
      ensures G.Script(g)(gk, q).1 == B.Script(b)(bk, q).1
      ensures related(G.Script(g)(gk, q).0, B.Script(b)(bk, q).0, q.now)
    {
      CoupledStep(g, b, gk, bk, t, q);
    }
    Simulation(G.Script(g), Absent, B.Script(b), Absent, related, requests);
  }

  /** The clock must not go back: the bucket counts an interval twice that GCRA counts once. */
  lemma {:induction false} BackwardClockSeparatesThem()
    ensures var g, b := G.Config(1000, 1, 2), B.Config(2, 1);
            var requests := [Request(1000, 1), Request(500, 1)];
            && Matching(g, b)
            && !Run(G.Script(g), Absent, requests).replies[1].allowed
            && Run(B.Script(b), Absent, requests).replies[1].allowed
  {
    var g, b := G.Config(1000, 1, 2), B.Config(2, 1);
    var first, second := Request(1000, 1), Request(500, 1);
    assert [first, second][..1] == [first];
    assert [first][..0] == [];
    assert Run(G.Script(g), Absent, [first]).state == G.Check(g, Absent, first).0;
    assert Run(B.Script(b), Absent, [first]).state == B.Check(b, Absent, first).0;
  }

  /** Every token bucket is the GCRA with a period of one second, so it keeps GCRA's bound on any stretch of a run. */
  lemma {:induction false} NoStretchExceedsCapacity(b: B.Config, requests: seq<Request>, i: int, j: int)
    requires Nondecreasing(requests)
    requires 0 <= i <= j < |Run(B.Script(b), Absent, requests).admitted|
    ensures var h := Run(B.Script(b), Absent, requests).admitted;
            1000 * Cost(h[i..j + 1]) <= 1000 * b.capacity + (h[j].now - h[i].now) * b.refillPerSec
  {
    var g := G.Config(1000, b.refillPerSec, b.capacity);
    SameReplies(g, b, requests);
    G.NoStretchExceedsBurst(g, requests, i, j);
  }
}
