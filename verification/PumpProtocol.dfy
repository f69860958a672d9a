/**
 One pump and the owners of any number of admissions, step by step. An owner's steps are the statements
 of `admit` and `release` that others can see; the pump's are those of a beat. The pump holds the lock
 from the first to the last step of applying a reply. A run is any sequence of steps; a step that cannot
 be taken changes nothing. Lease ids are indices, so they are distinct.
 */
module PumpProtocol {

  /** Where an owner stands: in `admit` before `register`, between calls, or inside `release`. */
  datatype Owner = Registering | Resting | Checked | Marked | Deregistering | Sending

  datatype Admission = Admission(held: bool, heartbeat: bool, released: bool, reclaimed: bool,
                                 owner: Owner, registered: bool, deregistered: bool, sent: nat)

  /** Where the pump stands: waiting, awaiting the reply for `ids`, or applying one with the lock held. */
  datatype Pump =
    | Asleep
    | Beating(ids: set<nat>)
    | Applying(rest: seq<nat>)
    | Popped(id: nat, rest: seq<nat>)
    | Flagged(id: nat, rest: seq<nat>)
  {
    predicate Locks() {
      Applying? || Popped? || Flagged?
    }
  }

  datatype State = State(admissions: seq<Admission>, open: set<nat>, pump: Pump, reported: set<nat>)

  datatype Step =
    | Admit(held: bool, heartbeat: bool)
    | Register(i: nat)
    | CheckReleased(i: nat)
    | SetReleased(i: nat)
    | Branch(i: nat)
    | Deregister(i: nat)
    | Send(i: nat)
    | Snapshot
    | Fail
    | Report(ids: seq<nat>)
    | Pop
    | FlagReclaimed
    | FlagReleased

  const START: State := State([], {}, Asleep, {})

  /** The owner of admission `i` may take the step that leaves `at`. */
  predicate Ready(s: State, i: nat, at: Owner) {
    i < |s.admissions| && s.admissions[i].owner == at
  }

  function OwnerStep(s: State, step: Step): State {
    match step
    case Admit(held, heartbeat) =>
      s.(admissions := s.admissions + [Admission(held, heartbeat, false, false,
                                                 if held && heartbeat then Registering else Resting,
                                                 false, false, 0)])
    case Register(i) =>
      if Ready(s, i, Registering) && !s.pump.Locks() then
        s.(admissions := s.admissions[i := s.admissions[i].(owner := Resting, registered := true)],
           open := s.open + {i})
      else s
    case CheckReleased(i) =>
      if Ready(s, i, Resting) && !s.admissions[i].released then
        s.(admissions := s.admissions[i := s.admissions[i].(owner := Checked)])
      else s
    case SetReleased(i) =>
      if Ready(s, i, Checked) then
        s.(admissions := s.admissions[i := s.admissions[i].(owner := Marked, released := true)])
      else s
    case Branch(i) =>
      if Ready(s, i, Marked) then
        var adm := s.admissions[i];
        s.(admissions := s.admissions[i := adm.(owner := if !adm.held then Resting
                                                         else if adm.heartbeat then Deregistering else Sending)])
      else s
    case Deregister(i) =>
      if Ready(s, i, Deregistering) && !s.pump.Locks() then
        s.(admissions := s.admissions[i := s.admissions[i].(owner := Sending, deregistered := true)],
           open := s.open - {i})
      else s
    case Send(i) =>
      if Ready(s, i, Sending) then
        s.(admissions := s.admissions[i := s.admissions[i].(owner := Resting, sent := s.admissions[i].sent + 1)])
      else s
    case _ => s
  }

  function PumpStep(s: State, step: Step): State {
    match step
    case Snapshot =>
      if s.pump.Asleep? && s.open != {} then s.(pump := Beating(s.open)) else s
    case Fail =>
      if s.pump.Beating? then s.(pump := Asleep) else s
    case Report(ids) =>
      if s.pump.Beating? then
        s.(pump := if ids == [] then Asleep else Applying(ids), reported := s.reported + (set id | id in ids))
      else s
    case Pop =>
      if s.pump.Applying? then
        if s.pump.rest == [] then s.(pump := Asleep)
        else
          var id := s.pump.rest[0];
          if id in s.open then s.(open := s.open - {id}, pump := Popped(id, s.pump.rest[1..]))
          else s.(pump := Applying(s.pump.rest[1..]))
      else s
    case FlagReclaimed =>
      if s.pump.Popped? && s.pump.id < |s.admissions| then
        s.(admissions := s.admissions[s.pump.id := s.admissions[s.pump.id].(reclaimed := true)],
           pump := Flagged(s.pump.id, s.pump.rest))
      else s
    case FlagReleased =>
      if s.pump.Flagged? && s.pump.id < |s.admissions| then
        s.(admissions := s.admissions[s.pump.id := s.admissions[s.pump.id].(released := true)],
           pump := Applying(s.pump.rest))
      else s
    case _ => s
  }

  function Next(s: State, step: Step): State {
    PumpStep(OwnerStep(s, step), step)
  }

  function After(s: State, steps: seq<Step>): State {
    if steps == [] then s else Next(After(s, steps[..|steps| - 1]), steps[|steps| - 1])
  }

  // ---------- the invariant ----------

  /** The owner has set the flag, and its Release is not out yet. */
  predicate Releasing(owner: Owner) {
    owner.Marked? || owner.Deregistering? || owner.Sending?
  }

  /** What holds of admission `i` between any two steps. */
  predicate Sound(s: State, i: nat)
    requires i < |s.admissions|
  {
    var adm := s.admissions[i];
    // At most one Release, and only by an owner that set the flag.
    && adm.sent <= 1
    && (Releasing(adm.owner) || adm.owner.Checked? || adm.owner.Registering? ==> adm.sent == 0)
    && (Releasing(adm.owner) || adm.sent == 1 ==> adm.released)
    && (adm.owner.Deregistering? || adm.owner.Sending? || adm.sent == 1 ==> adm.held)
    // A set flag has its reason.
    && (adm.released && adm.held && !adm.reclaimed ==> Releasing(adm.owner) || adm.sent == 1)
    && (adm.reclaimed ==> i in s.reported && adm.registered && (adm.released || (s.pump.Flagged? && s.pump.id == i)))
    // Membership of the open set.
    && (adm.registered <==> adm.held && adm.heartbeat && !adm.owner.Registering?)
    && (adm.owner.Registering? ==> adm.held && adm.heartbeat && !adm.released)
    && (i in s.open ==> adm.registered && !adm.deregistered && !adm.reclaimed)
    && (adm.registered && !adm.deregistered && !adm.reclaimed ==>
          i in s.open || (s.pump.Popped? && s.pump.id == i))
    && (adm.owner.Deregistering? ==> adm.registered && !adm.deregistered)
    && (adm.owner.Sending? || adm.sent == 1 ==> (adm.deregistered <==> adm.heartbeat))
    && (adm.deregistered ==> adm.owner.Sending? || adm.sent == 1)
    // The admission the pump is working on.
    && (s.pump.Popped? && s.pump.id == i ==>
          i !in s.open && i in s.reported && adm.registered && !adm.deregistered && !adm.reclaimed)
    && (s.pump.Flagged? && s.pump.id == i ==>
          i !in s.open && i in s.reported && adm.registered && !adm.deregistered && adm.reclaimed)
  }

  ghost predicate Invariant(s: State) {
    && (forall i: nat :: i < |s.admissions| ==> Sound(s, i))
    && (forall i :: i in s.open ==> i < |s.admissions|)
    && (s.pump.Popped? || s.pump.Flagged? ==> s.pump.id < |s.admissions|)
    && (s.pump.Applying? || s.pump.Popped? || s.pump.Flagged? ==> forall id :: id in s.pump.rest ==> id in s.reported)
  }

  lemma {:induction false} NewIsSound(s: State, step: Step)
    requires step.Admit? && |s.admissions| !in s.open
    requires !((s.pump.Popped? || s.pump.Flagged?) && s.pump.id == |s.admissions|)
    ensures Sound(OwnerStep(s, step), |s.admissions|)
  {}

  lemma {:induction false} OwnerKeepsSound(s: State, step: Step, i: nat)
    requires Invariant(s) && i < |OwnerStep(s, step).admissions|
    ensures Sound(OwnerStep(s, step), i)
  {
    if i < |s.admissions| {
      assert Sound(s, i);
      hide Invariant;
    } else {
      hide Sound;
      assert i !in s.open;
      assert !((s.pump.Popped? || s.pump.Flagged?) && s.pump.id == i);
      NewIsSound(s, step);
    }
  }

  lemma {:induction false} OwnerKeepsInvariant(s: State, step: Step)
    requires Invariant(s)
    ensures Invariant(OwnerStep(s, step))
  {
    forall i: nat | i < |OwnerStep(s, step).admissions| ensures Sound(OwnerStep(s, step), i) {
      OwnerKeepsSound(s, step, i);
    }
    hide Sound;
  }

  lemma {:induction false} PumpKeepsInvariant(s: State, step: Step)
    requires Invariant(s)
    ensures Invariant(PumpStep(s, step))
  {
    var after := PumpStep(s, step);
    forall i: nat | i < |after.admissions| ensures Sound(after, i) {
      assert Sound(s, i);
    }
    hide Sound;
  }

  lemma {:induction false} RunKeepsInvariant(s: State, steps: seq<Step>)
    requires Invariant(s)
    ensures Invariant(After(s, steps))
  {
    hide OwnerStep, PumpStep, Invariant;
    if steps != [] {
      var before := After(s, steps[..|steps| - 1]);
      RunKeepsInvariant(s, steps[..|steps| - 1]);
      OwnerKeepsInvariant(before, steps[|steps| - 1]);
      PumpKeepsInvariant(OwnerStep(before, steps[|steps| - 1]), steps[|steps| - 1]);
    }
  }

  lemma {:induction false} StartIsSound()
    ensures Invariant(START)
  {}

  lemma {:induction false} ReachableIsSound(steps: seq<Step>, i: nat)
    requires i < |After(START, steps).admissions|
    ensures Sound(After(START, steps), i)
  {
    hide After, Sound;
    StartIsSound();
    RunKeepsInvariant(START, steps);
  }

  // ---------- safety over every interleaving ----------

  /** However the pump and the owners interleave, a slot is released at most once, and only if it is held. */
  lemma {:induction false} AtMostOneRelease(steps: seq<Step>, i: nat)
    requires i < |After(START, steps).admissions|
    ensures var adm := After(START, steps).admissions[i];
            adm.sent <= 1 && (adm.sent == 1 ==> adm.held && adm.released)
  {
    hide After;
    ReachableIsSound(steps, i);
  }

  /** A reclaimed admission was reported by the server, and is marked released once the pump is past it. */
  lemma {:induction false} ReclaimedWasReported(steps: seq<Step>, i: nat)
    requires i < |After(START, steps).admissions| && After(START, steps).admissions[i].reclaimed
    ensures var s := After(START, steps);
            && i in s.reported && s.admissions[i].registered
            && (s.admissions[i].released || (s.pump.Flagged? && s.pump.id == i))
  {
    hide After;
    ReachableIsSound(steps, i);
  }

  /** A registered lease that is neither released nor reclaimed is in the open set, or the pump is just reclaiming it. */
  lemma {:induction false} LiveLeaseIsOpen(steps: seq<Step>, i: nat)
    requires i < |After(START, steps).admissions|
    requires var adm := After(START, steps).admissions[i];
             adm.held && adm.heartbeat && !adm.owner.Registering? && !adm.released && !adm.reclaimed
    ensures var s := After(START, steps);
            i in s.open || (s.pump.Popped? && s.pump.id == i)
  {
    hide After;
    ReachableIsSound(steps, i);
  }

  lemma {:induction false} OpenIsUnreleased(s: State, i: nat)
    requires i < |s.admissions| && Sound(s, i) && i in s.open
    ensures s.admissions[i].held && s.admissions[i].heartbeat && !s.admissions[i].reclaimed && s.admissions[i].sent == 0
    ensures s.admissions[i].released ==> s.admissions[i].owner.Marked? || s.admissions[i].owner.Deregistering?
  {}

  /** And only such leases are in it: one whose release has ended is not. */
  lemma {:induction false} OpenMeansUnreleased(steps: seq<Step>, i: nat)
    requires i in After(START, steps).open
    ensures var s := After(START, steps);
            && i < |s.admissions|
            && s.admissions[i].held && s.admissions[i].heartbeat && !s.admissions[i].reclaimed && s.admissions[i].sent == 0
            && (s.admissions[i].released ==> s.admissions[i].owner.Marked? || s.admissions[i].owner.Deregistering?)
  {
    hide After, Sound;
    StartIsSound();
    RunKeepsInvariant(START, steps);
    ReachableIsSound(steps, i);
    OpenIsUnreleased(After(START, steps), i);
  }

  /** When a call to `release` has ended, the slot was returned, or the server had taken it back. */
  lemma {:induction false} EndedReleaseReturnedTheSlot(steps: seq<Step>, i: nat)
    requires i < |After(START, steps).admissions|
    requires var adm := After(START, steps).admissions[i];
             adm.held && adm.owner.Resting? && adm.released
    ensures var s := After(START, steps);
            s.admissions[i].sent == 1 || (s.admissions[i].reclaimed && i in s.reported)
  {
    hide After;
    ReachableIsSound(steps, i);
  }

  /**
   A beat begins whenever a sleeping pump finds an open lease, and asks for exactly those: every live lease
   that is registered is renewed, and every lease renewed is held, not reclaimed, and not returned.
   */
  lemma {:induction false} BeatRenewsLiveLeases(steps: seq<Step>, i: nat)
    requires After(START, steps).pump.Asleep? && i < |After(START, steps).admissions|
    ensures var s := After(START, steps);
            var (adm, beat) := (s.admissions[i], Next(s, Snapshot).pump);
            && (beat.Beating? ==> i in beat.ids || i !in s.open)
            && (adm.held && adm.heartbeat && !adm.owner.Registering? && !adm.released && !adm.reclaimed ==>
                  beat.Beating? && i in beat.ids)
            && (beat.Beating? && i in beat.ids ==>
                  adm.held && adm.heartbeat && !adm.reclaimed && adm.sent == 0
                  && (adm.released ==> adm.owner.Marked? || adm.owner.Deregistering?))
  {
    hide After, Sound;
    var s := After(START, steps);
    if s.admissions[i].held && s.admissions[i].heartbeat && !s.admissions[i].owner.Registering?
       && !s.admissions[i].released && !s.admissions[i].reclaimed {
      LiveLeaseIsOpen(steps, i);
    }
    if i in s.open {
      OpenMeansUnreleased(steps, i);
    }
  }

  lemma {:induction false} AfterExtends(s: State, steps: seq<Step>, step: Step)
    ensures After(s, steps + [step]) == Next(After(s, steps), step)
  {}

  /** A beat that fails changes nothing but the pump, which sleeps again: the next beat renews the same live leases. */
  lemma {:induction false} FailedBeatIsRetried(steps: seq<Step>, i: nat)
    requires After(START, steps).pump.Beating? && i < |After(START, steps).admissions|
    ensures var (s, after) := (After(START, steps), After(START, steps + [Fail]));
            && after == s.(pump := Asleep)
            && (var adm := s.admissions[i];
                adm.held && adm.heartbeat && !adm.owner.Registering? && !adm.released && !adm.reclaimed ==>
                  Next(after, Snapshot).pump.Beating? && i in Next(after, Snapshot).pump.ids)
  {
    AfterExtends(START, steps, Fail);
    hide After, Sound;
    BeatRenewsLiveLeases(steps + [Fail], i);
  }

  /** Nothing counts as reported that no reply of the server named. */
  lemma {:induction false} ReportedWasReplied(steps: seq<Step>, id: nat)
    requires id in After(START, steps).reported
    ensures exists k :: 0 <= k < |steps| && steps[k].Report? && id in steps[k].ids
  {
    if steps != [] {
      var before, last := steps[..|steps| - 1], |steps| - 1;
      if id in After(START, before).reported {
        ReportedWasReplied(before, id);
        var k :| 0 <= k < |before| && before[k].Report? && id in before[k].ids;
        assert steps[k] == before[k];
      } else {
        assert steps[last].Report? && id in steps[last].ids;
      }
    }
  }

  // ---------- what one step settles for good ----------

  /** From here on admission `i` cannot be marked reclaimed, or cannot be released any more. */
  lemma {:induction false} NextSettles(s: State, step: Step, i: nat)
    requires Invariant(s) && i < |s.admissions|
    ensures i < |Next(s, step).admissions|
    ensures var (was, now) := (s.admissions[i], Next(s, step).admissions[i]);
            && now.held == was.held && now.heartbeat == was.heartbeat
            && (was.deregistered ==> now.deregistered && now.reclaimed == was.reclaimed)
            && (was.released ==> now.released)
            && (was.reclaimed ==> now.reclaimed)
            && (was.released && was.owner.Resting? ==> now.owner.Resting? && now.sent == was.sent)
  {
    assert Sound(s, i);
    OwnerKeepsInvariant(s, step);
    assert Sound(OwnerStep(s, step), i);
  }

  /** A deregistered admission is never later marked reclaimed. */
  lemma {:induction false} DeregisteredIsNeverReclaimedLater(steps: seq<Step>, more: seq<Step>, i: nat)
    requires i < |After(START, steps).admissions| && After(START, steps).admissions[i].deregistered
    ensures i < |After(START, steps + more).admissions|
    ensures var (was, now) := (After(START, steps).admissions[i], After(START, steps + more).admissions[i]);
            now.deregistered && now.reclaimed == was.reclaimed
  {
    hide Next, Sound, Invariant;
    if more == [] {
      assert steps + more == steps;
    } else {
      var run := steps + more[..|more| - 1];
      assert (steps + more)[..|steps + more| - 1] == run;
      DeregisteredIsNeverReclaimedLater(steps, more[..|more| - 1], i);
      StartIsSound();
      RunKeepsInvariant(START, run);
      NextSettles(After(START, run), more[|more| - 1], i);
    }
  }

  lemma {:induction false} AfterJoins(s: State, a: seq<Step>, b: seq<Step>)
    ensures After(s, a + b) == After(After(s, a), b)
  {
    if b == [] {
      assert a + b == a;
    } else {
      AfterJoins(s, a, b[..|b| - 1]);
      assert (a + b)[..|a + b| - 1] == a + b[..|b| - 1];
    }
  }

  /** Nothing more goes out for an admission that is released while its owner is in no call. */
  lemma {:induction false} ReleasedSendsNothing(s: State, more: seq<Step>, i: nat)
    requires Invariant(s) && i < |s.admissions| && s.admissions[i].released && s.admissions[i].owner.Resting?
    ensures i < |After(s, more).admissions|
    ensures var (was, now) := (s.admissions[i], After(s, more).admissions[i]);
            now.released && now.owner.Resting? && now.sent == was.sent
  {
    hide Next, Sound, Invariant;
    if more != [] {
      ReleasedSendsNothing(s, more[..|more| - 1], i);
      RunKeepsInvariant(s, more[..|more| - 1]);
      NextSettles(After(s, more[..|more| - 1]), more[|more| - 1], i);
    }
  }

  /** Once released, and no call under way, an admission sends no Release ever again: `release` is idempotent. */
  lemma {:induction false} ReleasedStaysReleased(steps: seq<Step>, more: seq<Step>, i: nat)
    requires i < |After(START, steps).admissions|
    requires After(START, steps).admissions[i].released && After(START, steps).admissions[i].owner.Resting?
    ensures i < |After(START, steps + more).admissions|
    ensures var (was, now) := (After(START, steps).admissions[i], After(START, steps + more).admissions[i]);
            now.released && now.owner.Resting? && now.sent == was.sent
  {
    hide After, Invariant;
    StartIsSound();
    RunKeepsInvariant(START, steps);
    AfterJoins(START, steps, more);
    ReleasedSendsNothing(After(START, steps), more, i);
  }

  // ---------- the race that is left ----------

  /** One reported id: dropped and marked if its lease is open, passed over if not. */
  lemma {:induction false} OneReported(s: State, id: nat, rest: seq<nat>) returns (steps: seq<Step>)
    requires Invariant(s) && s.pump == Applying([id] + rest)
    ensures var after := After(s, steps);
            && after.pump == Applying(rest)
            && after.open == s.open - {id} && |after.admissions| == |s.admissions|
            && forall i: nat :: i < |s.admissions| ==>
                 after.admissions[i]
                 == if i in s.open && i == id then s.admissions[i].(released := true, reclaimed := true)
                    else s.admissions[i]
  {
    hide Sound;
    steps := [Pop];
    AfterExtends(s, [], Pop);
    assert [] + [Pop] == [Pop] && ([id] + rest)[1..] == rest;
    if id in s.open {
      AfterExtends(s, [Pop], FlagReclaimed);
      AfterExtends(s, [Pop] + [FlagReclaimed], FlagReleased);
      steps := [Pop] + [FlagReclaimed] + [FlagReleased];
    }
  }

  /**
   Left alone, the steps of applying a reply do what `ApplyReply` promises: each open lease that is
   reported is dropped and marked, and nothing else changes.
   */
  lemma {:induction false} UninterruptedReply(s: State, ids: seq<nat>) returns (steps: seq<Step>)
    requires Invariant(s) && s.pump == Applying(ids)
    ensures var after := After(s, steps);
            && after.pump == Asleep
            && after.open == s.open - (set id | id in ids)
            && |after.admissions| == |s.admissions|
            && forall i: nat :: i < |s.admissions| ==>
                 after.admissions[i]
                 == if i in s.open && i in ids then s.admissions[i].(released := true, reclaimed := true)
                    else s.admissions[i]
    decreases |ids|
  {
    if ids == [] {
      hide Sound;
      steps := [Pop];
      AfterExtends(s, [], Pop);
      assert [] + [Pop] == [Pop];
    } else {
      hide Next, After, Invariant;
      assert ids == [ids[0]] + ids[1..];
      var first := OneReported(s, ids[0], ids[1..]);
      RunKeepsInvariant(s, first);
      var rest := UninterruptedReply(After(s, first), ids[1..]);
      AfterJoins(s, first, rest);
      steps := first + rest;
    }
  }

  lemma {:induction false} AfterOne(s: State, step: Step)
    ensures After(s, [step]) == Next(s, step)
  {
    assert [] + [step] == [step];
    AfterExtends(s, [], step);
  }

  lemma {:induction false} NextFlags(s: State)
    requires s.pump.Popped? || s.pump.Flagged? ==> s.pump.id < |s.admissions|
    ensures s.pump.Popped? ==>
              Next(s, FlagReclaimed)
              == s.(admissions := s.admissions[s.pump.id := s.admissions[s.pump.id].(reclaimed := true)],
                    pump := Flagged(s.pump.id, s.pump.rest))
    ensures s.pump.Flagged? ==>
              Next(s, FlagReleased)
              == s.(admissions := s.admissions[s.pump.id := s.admissions[s.pump.id].(released := true)],
                    pump := Applying(s.pump.rest))
  {}

  /** The writes that are left for the admission the pump has in hand. */
  lemma {:induction false} FlagsBoth(s: State) returns (steps: seq<Step>)
    requires Invariant(s)
    ensures var after := After(s, steps);
            && !after.pump.Popped? && !after.pump.Flagged? && |after.admissions| == |s.admissions|
            && forall i: nat :: i < |s.admissions| ==>
                 after.admissions[i]
                 == s.admissions[i].(released := after.admissions[i].released, reclaimed := after.admissions[i].reclaimed)
  {
    hide Sound, Next;
    if s.pump.Popped? {
      steps := [FlagReclaimed] + [FlagReleased];
      AfterOne(s, FlagReclaimed);
      AfterExtends(s, [FlagReclaimed], FlagReleased);
      NextFlags(s);
      NextFlags(Next(s, FlagReclaimed));
    } else if s.pump.Flagged? {
      steps := [FlagReleased];
      AfterOne(s, FlagReleased);
      NextFlags(s);
    } else {
      steps := [];
    }
  }

  /**
   A reply to a beat, applied without interruption: each open lease that it names is dropped and marked, and
   nothing else changes; the pump is back asleep, with or without anything named.
   */
  lemma {:induction false} ReplyIsApplied(s: State, ids: seq<nat>) returns (steps: seq<Step>)
    requires Invariant(s) && s.pump.Beating?
    ensures var after := After(s, [Report(ids)] + steps);
            && after.pump == Asleep
            && after.open == s.open - (set id | id in ids)
            && |after.admissions| == |s.admissions|
            && forall i: nat :: i < |s.admissions| ==>
                 after.admissions[i]
                 == if i in s.open && i in ids then s.admissions[i].(released := true, reclaimed := true)
                    else s.admissions[i]
  {
    hide Sound;
    AfterOne(s, Report(ids));
    RunKeepsInvariant(s, [Report(ids)]);
    if ids == [] {
      steps := [];
      assert [Report(ids)] + steps == [Report(ids)];
      assert s.open - (set id | id in ids) == s.open;
    } else {
      var s1 := After(s, [Report(ids)]);
      hide After, Invariant;
      steps := UninterruptedReply(s1, ids);
      AfterJoins(s, [Report(ids)], steps);
    }
  }

  /** Wherever the pump stands, it can go on until it gives the lock back; no owner moves meanwhile. */
  lemma {:induction false} PumpFinishes(s: State) returns (steps: seq<Step>)
    requires Invariant(s)
    ensures var after := After(s, steps);
            && !after.pump.Locks() && |after.admissions| == |s.admissions|
            && forall i: nat :: i < |s.admissions| ==>
                 after.admissions[i]
                 == s.admissions[i].(released := after.admissions[i].released, reclaimed := after.admissions[i].reclaimed)
  {
    var first := FlagsBoth(s);
    RunKeepsInvariant(s, first);
    hide Next, Invariant, After;
    var s1 := After(s, first);
    if s1.pump.Applying? {
      var rest := UninterruptedReply(s1, s1.pump.rest);
      AfterJoins(s, first, rest);
      steps := first + rest;
    } else {
      steps := first;
    }
  }

  /** The steps an owner past the check has before it, this one included. */
  function StepsLeft(owner: Owner): nat {
    match owner
    case Checked => 4
    case Marked => 3
    case Deregistering => 2
    case Sending => 1
    case _ => 0
  }

  function Move(owner: Owner, i: nat): Step {
    match owner
    case Checked => SetReleased(i)
    case Marked => Branch(i)
    case Deregistering => Deregister(i)
    case _ => Send(i)
  }

  lemma {:induction false} MoveGetsNearer(s: State, i: nat)
    requires i < |s.admissions| && !s.pump.Locks() && s.admissions[i].held
    requires StepsLeft(s.admissions[i].owner) > 0
    ensures var (was, after) := (s.admissions[i], Next(s, Move(s.admissions[i].owner, i)));
            && after.pump == s.pump && |after.admissions| == |s.admissions| && after.admissions[i].held
            && StepsLeft(after.admissions[i].owner) < StepsLeft(was.owner)
            && (StepsLeft(after.admissions[i].owner) == 0 <==> was.owner.Sending?)
            && after.admissions[i].sent == was.sent + if was.owner.Sending? then 1 else 0
  {}

  /** An owner past the check, with the lock free, goes on: it sets the flag, deregisters and sends. */
  lemma {:induction false} OwnerFinishes(s: State, i: nat) returns (steps: seq<Step>)
    requires i < |s.admissions| && !s.pump.Locks() && s.admissions[i].held
    requires StepsLeft(s.admissions[i].owner) > 0
    ensures i < |After(s, steps).admissions|
    ensures After(s, steps).admissions[i].sent == s.admissions[i].sent + 1
    decreases StepsLeft(s.admissions[i].owner)
  {
    hide After, Next, StepsLeft, Move;
    var step := Move(s.admissions[i].owner, i);
    MoveGetsNearer(s, i);
    AfterOne(s, step);
    steps := [step];
    if !s.admissions[i].owner.Sending? {
      var rest := OwnerFinishes(Next(s, step), i);
      AfterJoins(s, [step], rest);
      steps := [step] + rest;
    }
  }

  /** Along `steps` a Release for admission `i` has gone out. */
  predicate Sends(s: State, steps: seq<Step>, i: nat) {
    i < |After(s, steps).admissions| && After(s, steps).admissions[i].sent == 1
  }

  /** From inside `release`, past the check: the pump lets go of the lock, and the Release goes out. */
  lemma {:induction false} PastTheCheckSends(s: State, i: nat) returns (steps: seq<Step>)
    requires Invariant(s) && i < |s.admissions| && s.admissions[i].held && s.admissions[i].sent == 0
    requires StepsLeft(s.admissions[i].owner) > 0
    ensures Sends(s, steps, i)
  {
    hide Invariant, Next, After;
    var first := PumpFinishes(s);
    var rest := OwnerFinishes(After(s, first), i);
    AfterJoins(s, first, rest);
    steps := first + rest;
  }

  lemma {:induction false} BeforeTheCheckSends(s: State, i: nat) returns (steps: seq<Step>)
    requires Invariant(s) && i < |s.admissions| && s.admissions[i].held && s.admissions[i].sent == 0
    requires s.admissions[i].owner.Resting? && !s.admissions[i].released
    ensures Sends(s, steps, i)
  {
    var first := [] + [CheckReleased(i)];
    AfterExtends(s, [], CheckReleased(i));
    RunKeepsInvariant(s, first);
    hide Invariant;
    var rest := PastTheCheckSends(After(s, first), i);
    AfterJoins(s, first, rest);
    steps := first + rest;
  }

  lemma {:induction false} RegisteringSends(s: State, i: nat) returns (steps: seq<Step>)
    requires Invariant(s) && i < |s.admissions| && s.admissions[i].owner.Registering?
    ensures Sends(s, steps, i)
  {
    var first := PumpFinishes(s);
    var s1 := After(s, first);
    RunKeepsInvariant(s, first);
    assert Sound(s1, i);
    var second := [] + [Register(i)];
    AfterExtends(s1, [], Register(i));
    RunKeepsInvariant(s1, second);
    hide Invariant;
    var rest := BeforeTheCheckSends(After(s1, second), i);
    AfterJoins(s1, second, rest);
    AfterJoins(s, first, second + rest);
    steps := first + (second + rest);
  }

  /**
   Exactly when a Release that has not gone out can still go out, reclaimed or not: unless the flag is set
   and the owner is in no call. For a reclaimed slot that leaves two windows: the owner was past the check
   when the pump came, or it comes between the pump's two writes.
   */
  lemma {:induction false} ReleaseCanStillGoOutIff(s: State, i: nat)
    requires Invariant(s) && i < |s.admissions| && s.admissions[i].held && s.admissions[i].sent == 0
    ensures (exists more :: Sends(s, more, i)) <==> !(s.admissions[i].owner.Resting? && s.admissions[i].released)
  {
    hide Invariant, After;
    var adm := s.admissions[i];
    if adm.owner.Resting? && adm.released {
      forall more ensures !Sends(s, more, i) {
        ReleasedSendsNothing(s, more, i);
      }
    } else {
      var more: seq<Step>;
      if adm.owner.Registering? {
        more := RegisteringSends(s, i);
      } else if adm.owner.Resting? {
        more := BeforeTheCheckSends(s, i);
      } else {
        more := PastTheCheckSends(s, i);
      }
      assert Sends(s, more, i);
    }
  }

  /** A reclaimed slot is one the server had given, so the condition above is about every one of them. */
  lemma {:induction false} ReclaimedIsReleasedIff(steps: seq<Step>, i: nat)
    requires i < |After(START, steps).admissions|
    requires After(START, steps).admissions[i].reclaimed && After(START, steps).admissions[i].sent == 0
    ensures var s := After(START, steps);
            (exists more :: Sends(s, more, i)) <==> !(s.admissions[i].owner.Resting? && s.admissions[i].released)
  {
    hide After, Invariant;
    StartIsSound();
    RunKeepsInvariant(START, steps);
    ReachableIsSound(steps, i);
    ReleaseCanStillGoOutIff(After(START, steps), i);
  }

  /** A beat that finds one open lease and is told that it is reclaimed, up to the first of the two writes. */
  function Beat(id: nat): seq<Step> {
    [Snapshot] + [Report([id])] + [Pop] + [FlagReclaimed]
  }

  lemma {:induction false} BeatReclaims(s: State, id: nat)
    requires s.pump.Asleep? && id in s.open && id < |s.admissions|
    ensures After(s, Beat(id))
            == s.(admissions := s.admissions[id := s.admissions[id].(reclaimed := true)], open := s.open - {id},
                  pump := Flagged(id, []), reported := s.reported + {id})
  {
    AfterOne(s, Snapshot);
    AfterExtends(s, [Snapshot], Report([id]));
    AfterExtends(s, [Snapshot] + [Report([id])], Pop);
    AfterExtends(s, [Snapshot] + [Report([id])] + [Pop], FlagReclaimed);
    hide After;
    assert (set x | x in [id]) == {id};
    var s1 := Next(s, Snapshot);
    assert s1 == s.(pump := Beating(s.open));
    var s2 := Next(s1, Report([id]));
    assert s2 == s.(pump := Applying([id]), reported := s.reported + {id});
    var s3 := Next(s2, Pop);
    assert s3 == s.(pump := Popped(id, []), reported := s.reported + {id}, open := s.open - {id});
    hide Next;
    NextFlags(s3);
  }

  /** One admission, held and renewed. */
  const OPEN: seq<Step> := [Admit(true, true)] + [Register(0)]

  lemma {:induction false} OneIsOpen()
    ensures After(START, OPEN) == State([Admission(true, true, false, false, Resting, true, false, 0)], {0}, Asleep, {})
  {
    AfterOne(START, Admit(true, true));
    AfterExtends(START, [Admit(true, true)], Register(0));
    hide After;
    var s := Next(START, Admit(true, true));
    assert s.admissions == [Admission(true, true, false, false, Registering, false, false, 0)];
    assert s == State(s.admissions, {}, Asleep, {});
    assert Next(s, Register(0)).admissions == [Admission(true, true, false, false, Resting, true, false, 0)];
  }

  /** Both windows are there: runs after which a reclaimed slot has an owner past the check, or one still before it. */
  lemma {:induction false} BothWindowsAreReached() returns (past: seq<Step>, before: seq<Step>)
    ensures var s := After(START, past);
            && |s.admissions| == 1 && s.admissions[0].reclaimed && s.admissions[0].sent == 0
            && s.admissions[0].released && s.admissions[0].owner.Checked?
    ensures var s := After(START, before);
            && |s.admissions| == 1 && s.admissions[0].reclaimed && s.admissions[0].sent == 0
            && !s.admissions[0].released && s.admissions[0].owner.Resting?
  {
    OneIsOpen();
    var s := After(START, OPEN);
    AfterExtends(START, OPEN, CheckReleased(0));
    var checked := After(START, OPEN + [CheckReleased(0)]);
    assert checked == s.(admissions := [s.admissions[0].(owner := Checked)]);
    hide After, Next;
    BeatReclaims(s, 0);
    AfterJoins(START, OPEN, Beat(0));
    BeatReclaims(checked, 0);
    AfterJoins(START, OPEN + [CheckReleased(0)], Beat(0));
    AfterExtends(START, OPEN + [CheckReleased(0)] + Beat(0), FlagReleased);
    NextFlags(After(checked, Beat(0)));
    past := OPEN + [CheckReleased(0)] + Beat(0) + [FlagReleased];
    before := OPEN + Beat(0);
  }
}
