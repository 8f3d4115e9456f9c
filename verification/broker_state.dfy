/** The ingress broker's state as a value, and what each of its critical sections does to it.
    The class IngressBroker is proved against these functions; BrokerRuns reasons about
    arbitrary interleavings of them. Timers do not appear: stopping one may always lose the
    race with its firing, so `Expire` is allowed at any moment with any arguments. */
module BrokerState {
  import opened Abi

  const MAX_HANDLES: nat := 4096

  datatype ConnectionOpen = ConnectionOpen(generation: uint64, handle: uint64)

  datatype ConnectionAssignment = ConnectionAssignment(
    generation: uint64, handle: uint64, correlation: Correlation, expiresAt: Time)

  datatype VerifiedFrame = VerifiedFrame(
    generation: uint64, handle: uint64, correlation: Correlation, frame: Bytes, expiresAt: Time)

  datatype Pending = Pending(handle: uint64, correlation: Correlation, expiresAt: Time)

  type Handles = map<uint64, Time>
  type Correlations = map<Correlation, Pending>

  /** `assigns` and `notifies` say whether the assignment and fatal callbacks are set. */
  datatype Broker = Broker(
    capacity: nat,
    active: bool,
    generation: uint64,
    assigns: bool,
    notifies: bool,
    handles: Handles,
    correlations: Correlations,
    openings: seq<ConnectionOpen>,
    frames: seq<VerifiedFrame>)

  /** The outcome of one critical section: the new state, the error returned, and whether the
      fatal callback is called once the lock is released. */
  datatype Step = Step(b: Broker, status: Status, notify: bool)

  /** The outcome of assign's first critical section. */
  datatype Begun = CallNative | Failed(error: IngressError)

  // ---------------------------------------------------------------- the joint invariant

  ghost predicate PendingWellFormed(b: Broker, c: Correlation)
    requires c in b.correlations
  {
    var p := b.correlations[c];
    && p.correlation == c
    && c != ZERO_CORRELATION
    && p.handle != 0
    && p.handle in b.handles
  }

  ghost predicate HandlesUnshared(correlations: Correlations) {
    forall c, d :: c in correlations && d in correlations && c != d ==>
      correlations[c].handle != correlations[d].handle
  }

  ghost predicate QueuesCurrent(b: Broker) {
    && |b.openings| <= b.capacity
    && |b.frames| <= b.capacity
    && (forall i :: 0 <= i < |b.openings| ==> b.openings[i].generation == b.generation)
    && (forall i :: 0 <= i < |b.frames| ==> b.frames[i].generation == b.generation)
  }

  ghost predicate Empty(b: Broker) {
    b.handles == map[] && b.correlations == map[] && b.openings == [] && b.frames == []
  }

  ghost predicate Inv(b: Broker) {
    && b.capacity >= 1
    && (forall c :: c in b.correlations ==> PendingWellFormed(b, c))
    && HandlesUnshared(b.correlations)
    && 0 !in b.handles
    && |b.handles| <= MAX_HANDLES
    && QueuesCurrent(b)
    && (if b.active then b.assigns && b.generation != 0 else Empty(b))
  }

  // ---------------------------------------------------------------- activation and failure

  function Cleared(b: Broker): Broker {
    b.(handles := map[], correlations := map[], openings := [], frames := [])
  }

  function Activate(b: Broker, generation: uint64, assigns: bool, notifies: bool): Broker {
    Cleared(b).(active := generation != 0 && assigns, generation := generation,
                assigns := assigns, notifies := notifies)
  }

  /** deactivate and failGeneration. */
  function Retire(b: Broker, generation: uint64): Broker {
    if b.generation != generation then b
    else Cleared(b).(active := false, assigns := false, notifies := false)
  }

  /** failLocked. */
  function Fail(b: Broker, error: IngressError): Step {
    Step(Cleared(b).(active := false, assigns := false), Refused(error), b.notifies)
  }

  // ---------------------------------------------------------------- opening and eviction

  function Assigning(correlations: Correlations): set<uint64> {
    set c | c in correlations :: correlations[c].handle
  }

  function Survivors(handles: Handles, busy: set<uint64>, now: Time): Handles {
    map h | h in handles && (h in busy || Sub(now, handles[h]) <= HANDLE_TTL) :: handles[h]
  }

  ghost predicate OldestIdle(handles: Handles, busy: set<uint64>, h: uint64) {
    && h in handles && h !in busy
    && forall o :: o in handles && o !in busy ==> handles[h] <= handles[o]
  }

  /** What a sweep leaves behind, and whether it made room. */
  datatype Eviction = Eviction(kept: Handles, room: bool)

  /** The sweep's outcome. Go's map order is unspecified, so among equally old idle handles any
      one may be the victim. */
  ghost predicate Evicts(handles: Handles, busy: set<uint64>, now: Time, ev: Eviction) {
    SettlesOn(Survivors(handles, busy, now), busy, ev)
  }

  ghost predicate SettlesOn(survivors: Handles, busy: set<uint64>, ev: Eviction) {
    if |survivors| < MAX_HANDLES then
      ev == Eviction(survivors, true)
    else if survivors.Keys <= busy then
      ev == Eviction(survivors, false)
    else
      exists victim :: OldestIdle(survivors, busy, victim) && ev == Eviction(survivors - {victim}, true)
  }

  function Open(b: Broker, generation: uint64, handle: uint64, now: Time, ev: Eviction): Step {
    if generation != b.generation then Step(b, Refused(StaleGeneration), false)
    else if !b.active then Step(b, Refused(Closed), false)
    else if handle == 0 then Fail(b, Mismatch)
    else if handle in b.handles then Fail(b, Duplicate)
    else if !ev.room then Fail(b, Overflow)
    else if |b.openings| >= b.capacity then Fail(b, Overflow)
    else
      Step(b.(handles := ev.kept[handle := now],
              openings := b.openings + [ConnectionOpen(generation, handle)]), Accepted, false)
  }

  // ---------------------------------------------------------------- assignment

  function WithoutHandle(correlations: Correlations, handle: uint64): Correlations {
    map c | c in correlations && correlations[c].handle != handle :: correlations[c]
  }

  /** closeHandle. */
  function CloseHandle(b: Broker, generation: uint64, handle: uint64): Broker {
    if generation != b.generation then b
    else b.(handles := b.handles - {handle}, correlations := WithoutHandle(b.correlations, handle))
  }

  /** clearAssignmentLocked. */
  function ClearAssignment(b: Broker, handle: uint64, c: Correlation): Broker {
    var owner := if c in b.correlations then {b.correlations[c].handle} else {};
    b.(handles := b.handles - {handle} - owner,
       correlations := WithoutHandle(b.correlations - {c}, handle))
  }

  /** assign up to its native call: go/ingress.go:280-321 for a clock reading `now`. */
  function BeginAssign(b: Broker, a: ConnectionAssignment, now: Time): (Broker, Begun) {
    if !LiveAt(a.expiresAt, now) then
      (CloseHandle(b, a.generation, a.handle), Failed(BadLifetime))
    else if a.correlation == ZERO_CORRELATION then
      (CloseHandle(b, a.generation, a.handle), Failed(Mismatch))
    else if a.generation != b.generation then (b, Failed(StaleGeneration))
    else if !b.active || a.handle !in b.handles then (b, Failed(Closed))
    else if a.correlation in b.correlations then
      (ClearAssignment(b, a.handle, a.correlation), Failed(Duplicate))
    else if a.handle in Assigning(b.correlations) then
      (CloseHandle(b, b.generation, a.handle), Failed(Duplicate))
    else
      (b.(correlations := b.correlations[a.correlation := Pending(a.handle, a.correlation, a.expiresAt)]),
       CallNative)
  }

  /** assign after its native call returned `rc`: go/ingress.go:324-336. */
  function FinishAssign(b: Broker, a: ConnectionAssignment, rc: int32): (Broker, Status) {
    if rc == ASSIGNMENT_OK then (b, Accepted)
    else
      (CloseHandle(b, a.generation, a.handle),
       Refused(if rc == ASSIGNMENT_UNKNOWN_OR_CLOSED_HANDLE || rc == ASSIGNMENT_DUPLICATE
                  || rc == ASSIGNMENT_INVALID_OR_EXPIRED_TIME || rc == ASSIGNMENT_WRONG_CONNECTION_STATE
               then Rejected else AbiMismatch))
  }

  // ---------------------------------------------------------------- expiry and delivery

  function Consumed(b: Broker, c: Correlation): Broker
    requires c in b.correlations
  {
    b.(correlations := b.correlations - {c}, handles := b.handles - {b.correlations[c].handle})
  }

  function Expire(b: Broker, generation: uint64, handle: uint64, c: Correlation, expiresAt: Time): Broker {
    if && generation == b.generation && c in b.correlations
       && b.correlations[c].handle == handle && b.correlations[c].expiresAt == expiresAt
    then Consumed(b, c) else b
  }

  function CloseCorrelation(b: Broker, generation: uint64, c: Correlation): Broker {
    if generation == b.generation && c in b.correlations then Consumed(b, c) else b
  }

  /** The first critical section of deliverIPCFrame: the expiry to deliver with, if the pending
      entry names the packet's handle. */
  function LookupIpc(b: Broker, handle: uint64, c: Correlation): Option<uint64> {
    if c in b.correlations && b.correlations[c].handle == handle
    then Some(ToUnsigned(UnixMilli(b.correlations[c].expiresAt))) else None
  }

  /** deliver for a clock reading `now`, taken before the lock. */
  function Deliver(b: Broker, generation: uint64, c: Correlation, frame: Bytes, expiresUnixMS: uint64, now: Time): Step {
    var expiresAt := FromUnixMilli(ToSigned(expiresUnixMS));
    if !(MIN_FRAME_BYTES <= |frame| <= MAX_FRAME_BYTES) then
      Step(CloseCorrelation(b, generation, c), Refused(BadFrame), false)
    else if !LiveAt(expiresAt, now) then
      Step(CloseCorrelation(b, generation, c), Refused(BadLifetime), false)
    else if generation != b.generation then Step(b, Refused(StaleGeneration), false)
    else if !b.active then Step(b, Refused(Closed), false)
    else if c !in b.correlations then Step(b, Refused(Mismatch), false)
    else if UnixMilli(b.correlations[c].expiresAt) != ToSigned(expiresUnixMS) then
      Step(Consumed(b, c), Refused(Mismatch), false)
    else if |b.frames| >= b.capacity then Fail(Consumed(b, c), Overflow)
    else
      var value := VerifiedFrame(generation, b.correlations[c].handle, c, frame, expiresAt);
      Step(Consumed(b, c).(frames := b.frames + [value]), Accepted, false)
  }

  // ---------------------------------------------------------------- properties of one step

  /** Opened more than a minute ago. */
  predicate Stale(since: Time, now: Time) {
    now - since > 60_000_000_000
  }

  /** The handles a sweep dropped although they were within the TTL. */
  function DroppedEarly(b: Broker, now: Time, ev: Eviction): set<uint64> {
    set h | h in b.handles && h !in ev.kept && !Stale(b.handles[h], now)
  }

  /** Eviction keeps every assigning handle with its opening time, drops every idle handle past
      the TTL, drops at most one handle more (an oldest idle one, and only at the cap), and
      refuses only when the cap is reached with every handle assigning. */
  lemma EvictionContains(b: Broker, now: Time, ev: Eviction)
    requires Inv(b) && Evicts(b.handles, Assigning(b.correlations), now, ev)
    ensures forall h :: h in ev.kept ==> h in b.handles && ev.kept[h] == b.handles[h]
    ensures Assigning(b.correlations) <= ev.kept.Keys
    ensures forall h :: h in ev.kept && h !in Assigning(b.correlations) ==> !Stale(b.handles[h], now)
    ensures ev.room <==> |ev.kept| < 4096
    ensures !ev.room <==> |b.handles| == 4096 && b.handles.Keys == Assigning(b.correlations)
    ensures forall h :: h in DroppedEarly(b, now, ev) ==> |ev.kept| == 4095
    ensures forall h, o :: h in DroppedEarly(b, now, ev) && o in ev.kept && o !in Assigning(b.correlations) ==>
      b.handles[h] <= b.handles[o]
    ensures forall h, o :: h in DroppedEarly(b, now, ev) && o in DroppedEarly(b, now, ev) ==> h == o
  {
    var busy := Assigning(b.correlations);
    var survivors := Survivors(b.handles, busy, now);
    SurvivorsAre(b.handles, busy, now);
    AssigningAreOpen(b);
    assert |b.handles| <= 4096;
    hide Survivors, Inv, Assigning;
    assert survivors.Keys <= b.handles.Keys;
    SubsetSize(survivors.Keys, b.handles.Keys);
    SettlesFacts(survivors, busy, ev);
    hide SettlesOn;
    if b.handles.Keys == busy { assert survivors.Keys == b.handles.Keys; }
  }

  /** What the second loop makes of the survivors. */
  lemma SettlesFacts(survivors: Handles, busy: set<uint64>, ev: Eviction)
    requires SettlesOn(survivors, busy, ev) && busy <= survivors.Keys && |survivors| <= 4096
    ensures forall h :: h in ev.kept ==> h in survivors && ev.kept[h] == survivors[h]
    ensures busy <= ev.kept.Keys
    ensures if |survivors| < 4096 || survivors.Keys == busy then ev.kept == survivors else |ev.kept| == 4095
    ensures ev.room <==> |ev.kept| < 4096
    ensures forall h, o :: h in survivors && h !in ev.kept && o in ev.kept && o !in busy ==> survivors[h] <= survivors[o]
    ensures forall h, o :: h in survivors && h !in ev.kept && o in survivors && o !in ev.kept ==> h == o
  {
    if |survivors| >= MAX_HANDLES && !(survivors.Keys <= busy) {
      var victim :| OldestIdle(survivors, busy, victim) && ev == Eviction(survivors - {victim}, true);
      assert ev.kept.Keys == survivors.Keys - {victim};
    }
  }

  lemma SurvivorsAre(handles: Handles, busy: set<uint64>, now: Time)
    ensures forall h :: h in Survivors(handles, busy, now) <==> h in handles && (h in busy || !Stale(handles[h], now))
    ensures forall h :: h in Survivors(handles, busy, now) ==> Survivors(handles, busy, now)[h] == handles[h]
  {
  }

  lemma AssigningAreOpen(b: Broker)
    requires Inv(b)
    ensures Assigning(b.correlations) <= b.handles.Keys
  {
  }

  /** Some eviction always exists: the code's two loops find one. */
  ghost function SomeEviction(handles: Handles, busy: set<uint64>, now: Time): (ev: Eviction)
    ensures Evicts(handles, busy, now, ev)
  {
    var survivors := Survivors(handles, busy, now);
    if |survivors| < MAX_HANDLES then Eviction(survivors, true)
    else if survivors.Keys <= busy then Eviction(survivors, false)
    else
      var idle := survivors.Keys - busy;
      assert idle != {} by {
        var h :| h in survivors.Keys && h !in busy;
        assert h in idle;
      }
      var victim := Oldest(survivors, idle);
      assert OldestIdle(survivors, busy, victim);
      Eviction(survivors - {victim}, true)
  }

  ghost function Oldest(handles: Handles, idle: set<uint64>): (oldest: uint64)
    requires idle != {} && idle <= handles.Keys
    ensures oldest in idle && forall h :: h in idle ==> handles[oldest] <= handles[h]
  {
    var h :| h in idle;
    if idle == {h} then h
    else
      var other := Oldest(handles, idle - {h});
      if handles[h] < handles[other] then h else other
  }

  // ---------------------------------------------------------------- the invariant, step by step

  lemma InvFacts(b: Broker)
    requires Inv(b)
    ensures forall c :: c in b.correlations ==> PendingWellFormed(b, c)
    ensures b.active ==> b.assigns && b.generation != 0
    ensures !b.active ==> Empty(b)
  {
  }

  /** Clearing a pending assignment under its own handle is closing that handle. */
  lemma ClearingOwnAssignment(b: Broker, c: Correlation)
    requires c in b.correlations
    ensures ClearAssignment(b, b.correlations[c].handle, c) == CloseHandle(b, b.generation, b.correlations[c].handle)
    ensures b.correlations[c].handle in Assigning(b.correlations)
  {
    var h := b.correlations[c].handle;
    assert WithoutHandle(b.correlations - {c}, h) == WithoutHandle(b.correlations, h);
    assert b.handles - {h} - {h} == b.handles - {h};
  }

  lemma AssigningSplit(correlations: Correlations, rest: set<Correlation>, c: Correlation)
    requires c in correlations && c !in rest
    ensures Assigning(correlations - rest) == Assigning(correlations - (rest + {c})) + {correlations[c].handle}
  {
    var less := correlations - (rest + {c});
    forall h | h in Assigning(correlations - rest) ensures h in Assigning(less) + {correlations[c].handle} {
      var d :| d in correlations - rest && (correlations - rest)[d].handle == h;
      if d != c { assert d in less; }
    }
    forall h | h in Assigning(less) + {correlations[c].handle} ensures h in Assigning(correlations - rest) {
      if h != correlations[c].handle {
        var d :| d in less && less[d].handle == h;
        assert d in correlations - rest;
      } else {
        assert c in correlations - rest;
      }
    }
  }

  lemma ConsumedKeepsInv(b: Broker, c: Correlation)
    requires Inv(b) && c in b.correlations
    ensures Inv(Consumed(b, c))
  {
    var after := Consumed(b, c);
    SubsetSize(after.handles.Keys, b.handles.Keys);
    forall d | d in after.correlations ensures PendingWellFormed(after, d) {
      assert PendingWellFormed(b, d);
    }
  }

  lemma CloseHandleKeepsInv(b: Broker, generation: uint64, handle: uint64)
    requires Inv(b)
    ensures Inv(CloseHandle(b, generation, handle))
  {
    var after := CloseHandle(b, generation, handle);
    SubsetSize(after.handles.Keys, b.handles.Keys);
    forall d | d in after.correlations ensures PendingWellFormed(after, d) {
      assert PendingWellFormed(b, d);
    }
  }

  lemma ClearingInTwo(b: Broker, handle: uint64, c: Correlation)
    ensures ClearAssignment(b, handle, c)
         == CloseHandle(if c in b.correlations then Consumed(b, c) else b, b.generation, handle)
  {
    if c in b.correlations {
      assert b.handles - {handle} - {b.correlations[c].handle} == b.handles - {b.correlations[c].handle} - {handle};
    } else {
      assert b.correlations - {c} == b.correlations;
      assert b.handles - {handle} - {} == b.handles - {handle};
    }
  }

  /** Here the no-shared-handle invariant is indispensable: the cleared correlation's own handle
      goes too, and no other pending entry may be left naming it. */
  lemma ClearAssignmentKeepsInv(b: Broker, handle: uint64, c: Correlation)
    requires Inv(b)
    ensures Inv(ClearAssignment(b, handle, c))
  {
    hide Inv;
    ClearingInTwo(b, handle, c);
    hide ClearAssignment, CloseHandle, Consumed;
    if c in b.correlations {
      ConsumedKeepsInv(b, c);
      CloseHandleKeepsInv(Consumed(b, c), b.generation, handle);
    } else {
      CloseHandleKeepsInv(b, b.generation, handle);
    }
  }

  lemma AdmittedKeepsInv(b: Broker, handle: uint64, now: Time, kept: Handles)
    requires Inv(b) && b.active && handle != 0 && handle !in b.handles && |b.openings| < b.capacity
    requires Assigning(b.correlations) <= kept.Keys <= b.handles.Keys && |kept| < MAX_HANDLES
    ensures Inv(b.(handles := kept[handle := now],
                   openings := b.openings + [ConnectionOpen(b.generation, handle)]))
  {
    var after := b.(handles := kept[handle := now],
                    openings := b.openings + [ConnectionOpen(b.generation, handle)]);
    assert after.handles.Keys == kept.Keys + {handle};
    forall d | d in after.correlations ensures PendingWellFormed(after, d) {
      assert PendingWellFormed(b, d);
      assert b.correlations[d].handle in Assigning(b.correlations);
    }
  }

  lemma OpenKeepsInv(b: Broker, generation: uint64, handle: uint64, now: Time, ev: Eviction)
    requires Inv(b) && Evicts(b.handles, Assigning(b.correlations), now, ev)
    ensures Inv(Open(b, generation, handle, now, ev).b)
  {
    if Open(b, generation, handle, now, ev).status.Accepted? {
      EvictionContains(b, now, ev);
      assert ev.kept.Keys <= b.handles.Keys;
      AdmittedKeepsInv(b, handle, now, ev.kept);
    }
  }

  lemma InsertedKeepsInv(b: Broker, p: Pending)
    requires Inv(b) && b.active && p.correlation != ZERO_CORRELATION && p.correlation !in b.correlations
    requires p.handle in b.handles && p.handle !in Assigning(b.correlations)
    ensures Inv(b.(correlations := b.correlations[p.correlation := p]))
  {
    var after := b.(correlations := b.correlations[p.correlation := p]);
    forall d | d in after.correlations ensures PendingWellFormed(after, d) {
      if d != p.correlation { assert PendingWellFormed(b, d); }
    }
  }

  lemma BeginAssignKeepsInv(b: Broker, a: ConnectionAssignment, now: Time)
    requires Inv(b)
    ensures Inv(BeginAssign(b, a, now).0)
  {
    var after := BeginAssign(b, a, now).0;
    if !LiveAt(a.expiresAt, now) || a.correlation == ZERO_CORRELATION {
      CloseHandleKeepsInv(b, a.generation, a.handle);
      assert after == CloseHandle(b, a.generation, a.handle);
    } else if a.generation != b.generation || !b.active || a.handle !in b.handles {
      assert after == b;
    } else if a.correlation in b.correlations {
      ClearAssignmentKeepsInv(b, a.handle, a.correlation);
    } else if a.handle in Assigning(b.correlations) {
      CloseHandleKeepsInv(b, b.generation, a.handle);
      assert after == CloseHandle(b, b.generation, a.handle);
    } else {
      InsertedKeepsInv(b, Pending(a.handle, a.correlation, a.expiresAt));
    }
  }

  lemma QueuedKeepsInv(b: Broker, f: VerifiedFrame)
    requires Inv(b) && b.active && f.generation == b.generation && |b.frames| < b.capacity
    ensures Inv(b.(frames := b.frames + [f]))
  {
    var after := b.(frames := b.frames + [f]);
    forall d | d in after.correlations ensures PendingWellFormed(after, d) {
      assert PendingWellFormed(b, d);
    }
  }

  lemma FailKeepsInv(b: Broker, error: IngressError)
    requires Inv(b)
    ensures Inv(Fail(b, error).b)
  {
  }

  lemma DeliverKeepsInv(b: Broker, generation: uint64, c: Correlation, frame: Bytes, expiresUnixMS: uint64, now: Time)
    requires Inv(b)
    ensures Inv(Deliver(b, generation, c, frame, expiresUnixMS, now).b)
  {
    hide Inv;
    if c in b.correlations {
      ConsumedKeepsInv(b, c);
      var step := Deliver(b, generation, c, frame, expiresUnixMS, now);
      if step.status == Accepted {
        QueuedKeepsInv(Consumed(b, c), step.b.frames[|b.frames|]);
      } else if step.status == Refused(Overflow) {
        FailKeepsInv(Consumed(b, c), Overflow);
      }
    }
  }

  // ---------------------------------------------------------------- what a step can add

  /** Nothing opened, nothing assigned, nothing altered, same generation. */
  ghost predicate OnlyCloses(b: Broker, after: Broker) {
    && after.generation == b.generation
    && after.handles.Keys <= b.handles.Keys
    && after.correlations.Keys <= b.correlations.Keys
    && forall c :: c in after.correlations ==> after.correlations[c] == b.correlations[c]
  }

  lemma DeliverOnlyCloses(b: Broker, generation: uint64, c: Correlation, frame: Bytes, expiresUnixMS: uint64, now: Time)
    ensures OnlyCloses(b, Deliver(b, generation, c, frame, expiresUnixMS, now).b)
  {
    if c in b.correlations { assert OnlyCloses(b, Consumed(b, c)); }
  }

  lemma BeginOnlyCloses(b: Broker, a: ConnectionAssignment, now: Time)
    requires BeginAssign(b, a, now).1.Failed?
    ensures OnlyCloses(b, BeginAssign(b, a, now).0)
  {
    hide Assigning;
  }

  lemma OpenAdds(b: Broker, generation: uint64, handle: uint64, now: Time, ev: Eviction)
    requires Evicts(b.handles, Assigning(b.correlations), now, ev)
    ensures var step := Open(b, generation, handle, now, ev);
      if step.status == Accepted
      then && step.b.generation == b.generation == generation && step.b.correlations == b.correlations
           && step.b.handles.Keys <= b.handles.Keys + {handle}
      else OnlyCloses(b, step.b)
  {
    hide Assigning;
  }

  lemma SubsetSize<T>(small: set<T>, large: set<T>)
    requires small <= large
    ensures |small| <= |large|
    ensures |small| == |large| ==> small == large
  {
    assert large == small + (large - small);
  }
}
