/**
 The client's side of an admission that holds a slot: the handle, the pump that renews held slots and
 learns of reclaimed ones, and the backend that sends the Releases. Each method is one uninterrupted
 call; `PumpProtocol` interleaves their steps.
 */
module ServiceBackend {

  /** A Release as it goes out: the lease, and whether the work was dropped. */
  datatype Released = Released(leaseId: string, dropped: bool)

  class Admission {
    /** Empty when the admission was denied. */
    const leaseId: string
    const heartbeat: bool
    const backend: ServiceBackend
    var released: bool
    var reclaimed: bool

    constructor (backend: ServiceBackend, leaseId: string, heartbeat: bool)
      ensures this.backend == backend && this.leaseId == leaseId && this.heartbeat == heartbeat
      ensures !released && !reclaimed
    {
      this.backend, this.leaseId, this.heartbeat := backend, leaseId, heartbeat;
      released, reclaimed := false, false;
    }

    /** Whether the server holds a slot for it. */
    predicate Held()
      ensures Held() <==> leaseId != ""
    {
      leaseId != ""
    }

    /** The first call returns the slot, if one is held; any other call does nothing. */
    method Release(dropped: bool)
      modifies this, backend, backend.pump
      ensures released && reclaimed == old(reclaimed)
      ensures backend.pump == old(backend.pump)
      ensures backend.sent
              == old(backend.sent) + if old(released) || leaseId == "" then [] else [Released(leaseId, dropped)]
      ensures backend.pump != null ==>
                backend.pump.open
                == old(backend.pump.open) - if old(released) || leaseId == "" || !heartbeat then {} else {leaseId}
    {
      if released {
        return;
      }
      released := true;
      if leaseId != "" {
        backend.ReleaseLease(leaseId, dropped, heartbeat);
      }
    }

    method MarkReclaimed()
      modifies this
      ensures released && reclaimed
    {
      reclaimed := true;
      released := true;
    }
  }

  class HeartbeatPump {
    var open: map<string, Admission>

    constructor ()
      ensures open == map[]
    {
      open := map[];
    }

    /** Admissions are listed under their own lease. */
    predicate Valid()
      reads this
    {
      forall id :: id in open ==> open[id].leaseId == id
    }

    method Register(adm: Admission)
      requires Valid()
      modifies this
      ensures Valid() && open == old(open)[adm.leaseId := adm]
    {
      open := open[adm.leaseId := adm];
    }

    method Deregister(leaseId: string)
      modifies this
      ensures open == old(open) - {leaseId}
    {
      open := open - {leaseId};
    }

    /** What a reply reports as reclaimed is dropped and marked, and nothing else is touched. */
    method ApplyReply(reclaimedIds: seq<string>)
      requires Valid()
      modifies this, open.Values
      ensures Valid() && open == old(open) - (set id | id in reclaimedIds)
      ensures forall id :: id in old(open) ==>
                var adm := old(open)[id];
                if id in reclaimedIds then
                  adm.released && adm.reclaimed
                else
                  adm.released == old(adm.released) && adm.reclaimed == old(adm.reclaimed)
    {
      for i := 0 to |reclaimedIds|
        invariant Valid() && open == old(open) - (set id | id in reclaimedIds[..i])
        invariant forall id :: id in old(open) ==>
                    var adm := old(open)[id];
                    if id in reclaimedIds[..i] then
                      adm.released && adm.reclaimed
                    else
                      adm.released == old(adm.released) && adm.reclaimed == old(adm.reclaimed)
      {
        var id := reclaimedIds[i];
        assert reclaimedIds[..i + 1] == reclaimedIds[..i] + [id];
        if id in open {
          var adm := open[id];
          assert adm in old(open).Values;
          open := open - {id};
          adm.MarkReclaimed();
        }
      }
      assert reclaimedIds[..|reclaimedIds|] == reclaimedIds;
    }
  }

  class ServiceBackend {
    var pump: HeartbeatPump?
    var sent: seq<Released>

    constructor ()
      ensures pump == null && sent == []
    {
      pump, sent := null, [];
    }

    method EnsurePump() returns (running: HeartbeatPump)
      modifies this
      ensures pump == running && sent == old(sent)
      ensures if old(pump) == null then fresh(running) && running.open == map[] else running == old(pump)
    {
      if pump == null {
        pump := new HeartbeatPump();
      }
      return pump;
    }

    /** The handle for a reply to Admit: with a slot to renew, it is listed with the pump. */
    method Admit(leaseId: string, heartbeat: bool) returns (adm: Admission)
      requires pump != null ==> pump.Valid()
      modifies this, pump
      ensures fresh(adm) && adm.backend == this && adm.leaseId == leaseId && adm.heartbeat == heartbeat
      ensures !adm.released && !adm.reclaimed && sent == old(sent)
      ensures pump != null ==> pump.Valid()
      ensures if heartbeat && leaseId != "" then
                && pump != null && (if old(pump) == null then fresh(pump) else pump == old(pump))
                && pump.open == (if old(pump) == null then map[] else old(pump.open))[leaseId := adm]
              else
                pump == old(pump) && (pump != null ==> pump.open == old(pump.open))
    {
      adm := new Admission(this, leaseId, heartbeat);
      if heartbeat && leaseId != "" {
        var running := EnsurePump();
        running.Register(adm);
      }
    }

    /**
     A `with` block around some work, which may fail: the slot is returned exactly once, renewed or not. When
     the work has returned it early, the end of the block sends nothing more. A denied admission sends nothing.
     */
    method With(leaseId: string, heartbeat: bool, failed: bool, early: bool) returns (adm: Admission)
      requires pump != null ==> pump.Valid()
      modifies this, pump
      ensures fresh(adm) && adm.released && !adm.reclaimed && (adm.Held() <==> leaseId != "")
      ensures sent == old(sent) + if leaseId == "" then [] else [Released(leaseId, failed && !early)]
      ensures heartbeat && leaseId != "" ==>
                pump != null && pump.open == (if old(pump) == null then map[] else old(pump.open)) - {leaseId}
      ensures !(heartbeat && leaseId != "") ==> pump == old(pump) && (pump != null ==> pump.open == old(pump.open))
    {
      adm := Admit(leaseId, heartbeat);
      if early {
        adm.Release(false);
      }
      adm.Release(failed);
    }

    /** The slot stops being renewed before the Release goes out. */
    method ReleaseLease(leaseId: string, dropped: bool, heartbeat: bool)
      modifies this, pump
      ensures pump == old(pump) && sent == old(sent) + [Released(leaseId, dropped)]
      ensures pump != null ==> pump.open == old(pump.open) - if heartbeat then {leaseId} else {}
    {
      if heartbeat && pump != null {
        pump.Deregister(leaseId);
      }
      sent := sent + [Released(leaseId, dropped)];
    }
  }
}
