/** go/ingress.go: the broker object. Every method is one critical section under `mu`, with the
    loops of the source; each is proved against the function of BrokerState it implements.
    A method that returns `notify` does so to have the caller run the fatal callback after
    unlocking. `assign` releases the lock around its native call, so it is two methods. */
module IngressBroker {
  import opened Abi
  import opened BrokerState

  class IngressBroker {
    const capacity: nat
    var active: bool
    var generation: uint64
    var assigns: bool
    var notifies: bool
    var handles: Handles
    var correlations: Correlations
    var openings: seq<ConnectionOpen>
    var frames: seq<VerifiedFrame>

    function State(): Broker
      reads this
    {
      Broker(capacity, active, generation, assigns, notifies, handles, correlations, openings, frames)
    }

    ghost predicate Valid()
      reads this
    {
      Inv(State())
    }

    constructor (requested: int)
      ensures Valid() && !active && generation == 0
      ensures capacity == if requested < 1 then 1 else requested
    {
      capacity := if requested < 1 then 1 else requested;
      active, generation, assigns, notifies := false, 0, false, false;
      handles, correlations, openings, frames := map[], map[], [], [];
    }

    method ClearLocked()
      modifies this
      ensures State() == Cleared(old(State()))
    {
      var rest := correlations.Keys;
      while rest != {}
        invariant rest == correlations.Keys
        invariant State() == old(State()).(correlations := correlations)
        decreases rest
      {
        var c :| c in rest;
        correlations := correlations - {c};
        rest := rest - {c};
      }
      handles := map[];
      while openings != []
        invariant State() == old(State()).(correlations := map[], handles := map[], openings := openings)
        decreases openings
      {
        openings := openings[1..];
      }
      while frames != []
        invariant State() == old(State()).(correlations := map[], handles := map[], openings := [], frames := frames)
        decreases frames
      {
        frames := frames[1..];
      }
    }

    method Activate(generation: uint64, assigns: bool, notifies: bool)
      requires Valid()
      modifies this
      ensures Valid() && State() == BrokerState.Activate(old(State()), generation, assigns, notifies)
    {
      active := generation != 0 && assigns;
      this.generation := generation;
      this.assigns := assigns;
      this.notifies := notifies;
      ClearLocked();
    }

    /** deactivate; failGeneration is the same code with the test the other way round. */
    method Deactivate(generation: uint64)
      requires Valid()
      modifies this
      ensures Valid() && State() == Retire(old(State()), generation)
    {
      if this.generation != generation { return; }
      active := false;
      assigns := false;
      notifies := false;
      ClearLocked();
    }

    method FailLocked(error: IngressError) returns (notify: bool)
      modifies this
      ensures State() == Fail(old(State()), error).b && notify == Fail(old(State()), error).notify
    {
      active := false;
      assigns := false;
      ClearLocked();
      notify := notifies;
    }

    method Open(generation: uint64, handle: uint64, now: Time) returns (status: Status, notify: bool, ghost ev: Eviction)
      requires Valid()
      modifies this
      ensures Valid() && Evicts(old(handles), Assigning(old(correlations)), now, ev)
      ensures BrokerState.Step(State(), status, notify) == BrokerState.Open(old(State()), generation, handle, now, ev)
    {
      hide Inv, Evicts, Assigning;
      ev := SomeEviction(handles, Assigning(correlations), now);
      OpenKeepsInv(State(), generation, handle, now, ev);
      if generation != this.generation { return Refused(StaleGeneration), false, ev; }
      if !active { return Refused(Closed), false, ev; }
      if handle == 0 {
        notify := FailLocked(Mismatch);
        return Refused(Mismatch), notify, ev;
      }
      if handle in handles {
        notify := FailLocked(Duplicate);
        return Refused(Duplicate), notify, ev;
      }
      var room := EvictStaleHandlesLocked(now);
      ev := Eviction(handles, room);
      OpenKeepsInv(old(State()), generation, handle, now, ev);
      if !room {
        notify := FailLocked(Overflow);
        return Refused(Overflow), notify, ev;
      }
      handles := handles[handle := now];
      if |openings| < capacity {
        openings := openings + [ConnectionOpen(generation, handle)];
        return Accepted, false, ev;
      }
      notify := FailLocked(Overflow);
      return Refused(Overflow), notify, ev;
    }

    method EvictStaleHandlesLocked(now: Time) returns (room: bool)
      modifies this`handles
      ensures Evicts(old(handles), Assigning(correlations), now, Eviction(handles, room))
    {
      var busy := CollectAssigning();
      DropStale(busy, now);
      if |handles| < MAX_HANDLES { return true; }
      var oldest := FindOldestIdle(busy);
      if oldest.None? { return false; }
      ghost var survivors := handles;
      handles := handles - {oldest.value};
      assert OldestIdle(survivors, busy, oldest.value);
      return true;
    }

    /** The sweep's first loop: the handles with a pending correlation. */
    method CollectAssigning() returns (busy: set<uint64>)
      ensures busy == Assigning(correlations)
    {
      busy := {};
      var rest := correlations.Keys;
      while rest != {}
        invariant rest <= correlations.Keys
        invariant busy == Assigning(correlations - rest)
        decreases rest
      {
        ghost var before := rest;
        var c :| c in rest;
        rest := rest - {c};
        busy := busy + {correlations[c].handle};
        AssigningSplit(correlations, rest, c);
        assert rest + {c} == before;
      }
      assert correlations - {} == correlations;
    }

    /** The sweep's second loop, deleting from the map it ranges over. */
    method DropStale(busy: set<uint64>, now: Time)
      modifies this`handles
      ensures handles == Survivors(old(handles), busy, now)
    {
      var rest := handles.Keys;
      while rest != {}
        invariant rest <= handles.Keys <= old(handles).Keys
        invariant forall h :: h in handles ==> handles[h] == old(handles)[h]
        invariant forall h :: h in old(handles) ==>
          (h in handles <==> h in rest || h in busy || Sub(now, old(handles)[h]) <= HANDLE_TTL)
        decreases rest
      {
        var h :| h in rest;
        rest := rest - {h};
        if h !in busy && Sub(now, handles[h]) > HANDLE_TTL {
          handles := handles - {h};
        }
      }
    }

    /** The sweep's third loop: an idle handle with a minimal opening time. */
    method FindOldestIdle(busy: set<uint64>) returns (oldest: Option<uint64>)
      ensures oldest.Some? ==> OldestIdle(handles, busy, oldest.value)
      ensures oldest.None? ==> handles.Keys <= busy
    {
      oldest := None;
      var rest := handles.Keys;
      while rest != {}
        invariant rest <= handles.Keys
        invariant oldest.Some? ==> oldest.value in handles && oldest.value !in busy
        invariant forall h :: h in handles && h !in busy && h !in rest ==>
          oldest.Some? && handles[oldest.value] <= handles[h]
        decreases rest
      {
        var h :| h in rest;
        rest := rest - {h};
        if h !in busy && (oldest.None? || handles[h] < handles[oldest.value]) {
          oldest := Some(h);
        }
      }
    }

    method AssignBegin(a: ConnectionAssignment, now: Time) returns (begun: Begun)
      requires Valid()
      modifies this
      ensures Valid() && (State(), begun) == BeginAssign(old(State()), a, now)
      ensures begun.CallNative? ==> assigns
    {
      hide Inv;
      InvFacts(State());
      BeginAssignKeepsInv(State(), a, now);
      if !LiveAt(a.expiresAt, now) {
        CloseHandle(a.generation, a.handle);
        return Failed(BadLifetime);
      }
      if a.correlation == ZERO_CORRELATION {
        CloseHandle(a.generation, a.handle);
        return Failed(Mismatch);
      }
      if a.generation != generation { return Failed(StaleGeneration); }
      if !active { return Failed(Closed); }
      if a.handle !in handles { return Failed(Closed); }
      if a.correlation in correlations {
        ClearAssignmentLocked(a.handle, a.correlation);
        return Failed(Duplicate);
      }
      var rest := correlations.Keys;
      while rest != {}
        invariant rest <= correlations.Keys
        invariant forall c :: c in correlations && c !in rest ==> correlations[c].handle != a.handle
        invariant State() == old(State())
        decreases rest
      {
        var c :| c in rest;
        rest := rest - {c};
        if correlations[c].handle == a.handle {
          ClearingOwnAssignment(State(), c);
          ClearAssignmentLocked(a.handle, correlations[c].correlation);
          return Failed(Duplicate);
        }
      }
      assert a.handle !in Assigning(correlations);
      correlations := correlations[a.correlation := Pending(a.handle, a.correlation, a.expiresAt)];
      return CallNative;
    }

    method AssignFinish(a: ConnectionAssignment, rc: int32) returns (status: Status)
      requires Valid()
      modifies this
      ensures Valid() && (State(), status) == FinishAssign(old(State()), a, rc)
    {
      hide Inv;
      CloseHandleKeepsInv(State(), a.generation, a.handle);
      if rc == ASSIGNMENT_OK { return Accepted; }
      CloseHandle(a.generation, a.handle);
      if rc in {ASSIGNMENT_UNKNOWN_OR_CLOSED_HANDLE, ASSIGNMENT_DUPLICATE,
                ASSIGNMENT_INVALID_OR_EXPIRED_TIME, ASSIGNMENT_WRONG_CONNECTION_STATE} {
        return Refused(Rejected);
      }
      return Refused(AbiMismatch);
    }

    method CloseHandle(generation: uint64, handle: uint64)
      modifies this
      ensures State() == BrokerState.CloseHandle(old(State()), generation, handle)
    {
      if generation != this.generation { return; }
      handles := handles - {handle};
      DropPendingsOf(handle);
    }

    /** The deleting loop shared by closeHandle and clearAssignmentLocked. */
    method DropPendingsOf(handle: uint64)
      modifies this`correlations
      ensures correlations == WithoutHandle(old(correlations), handle)
    {
      var rest := correlations.Keys;
      while rest != {}
        invariant rest <= correlations.Keys <= old(correlations).Keys
        invariant forall c :: c in correlations ==> correlations[c] == old(correlations)[c]
        invariant forall c :: c in old(correlations) ==>
          (c in correlations <==> c in rest || old(correlations)[c].handle != handle)
        decreases rest
      {
        var c :| c in rest;
        rest := rest - {c};
        if correlations[c].handle == handle {
          correlations := correlations - {c};
        }
      }
    }

    method ClearAssignmentLocked(handle: uint64, c: Correlation)
      modifies this
      ensures State() == ClearAssignment(old(State()), handle, c)
    {
      handles := handles - {handle};
      if c in correlations {
        var pending := correlations[c];
        correlations := correlations - {c};
        handles := handles - {pending.handle};
      }
      assert correlations == old(correlations) - {c};
      DropPendingsOf(handle);
    }

    method Expire(generation: uint64, handle: uint64, c: Correlation, expiresAt: Time)
      requires Valid()
      modifies this
      ensures Valid() && State() == BrokerState.Expire(old(State()), generation, handle, c, expiresAt)
    {
      if generation != this.generation { return; }
      if c !in correlations || correlations[c].handle != handle || correlations[c].expiresAt != expiresAt { return; }
      hide Inv;
      ConsumedKeepsInv(State(), c);
      correlations := correlations - {c};
      handles := handles - {handle};
    }

    method LookupIpcFrame(handle: uint64, c: Correlation) returns (expiresUnixMS: Option<uint64>)
      ensures expiresUnixMS == LookupIpc(State(), handle, c)
    {
      if c !in correlations || correlations[c].handle != handle { return None; }
      return Some(ToUnsigned(UnixMilli(correlations[c].expiresAt)));
    }

    method Deliver(generation: uint64, c: Correlation, frame: Bytes, expiresUnixMS: uint64, now: Time)
      returns (status: Status, notify: bool)
      requires Valid()
      modifies this
      ensures Valid()
      ensures BrokerState.Step(State(), status, notify)
           == BrokerState.Deliver(old(State()), generation, c, frame, expiresUnixMS, now)
    {
      hide Inv;
      DeliverKeepsInv(State(), generation, c, frame, expiresUnixMS, now);
      if |frame| < MIN_FRAME_BYTES || |frame| > MAX_FRAME_BYTES {
        CloseCorrelation(generation, c);
        return Refused(BadFrame), false;
      }
      var expiresAt := FromUnixMilli(ToSigned(expiresUnixMS));
      if !LiveAt(expiresAt, now) {
        CloseCorrelation(generation, c);
        return Refused(BadLifetime), false;
      }
      if generation != this.generation { return Refused(StaleGeneration), false; }
      if !active { return Refused(Closed), false; }
      if c !in correlations { return Refused(Mismatch), false; }
      var pending := correlations[c];
      correlations := correlations - {c};
      handles := handles - {pending.handle};
      if UnixMilli(pending.expiresAt) != ToSigned(expiresUnixMS) { return Refused(Mismatch), false; }
      if |frames| < capacity {
        frames := frames + [VerifiedFrame(generation, pending.handle, c, frame, expiresAt)];
        return Accepted, false;
      }
      notify := FailLocked(Overflow);
      return Refused(Overflow), notify;
    }

    method CloseCorrelation(generation: uint64, c: Correlation)
      modifies this
      ensures State() == BrokerState.CloseCorrelation(old(State()), generation, c)
    {
      if generation != this.generation { return; }
      if c in correlations {
        handles := handles - {correlations[c].handle};
        correlations := correlations - {c};
      }
    }

    /** A consumer's receive from `opened`. */
    method ReceiveOpening() returns (event: ConnectionOpen)
      requires Valid() && openings != []
      modifies this`openings
      ensures Valid() && [event] + openings == old(openings)
    {
      event := openings[0];
      openings := openings[1..];
    }

    /** A consumer's receive from `verified`. */
    method ReceiveFrame() returns (value: VerifiedFrame)
      requires Valid() && frames != []
      modifies this`frames
      ensures Valid() && [value] + frames == old(frames)
    {
      value := frames[0];
      frames := frames[1..];
    }
  }
}
