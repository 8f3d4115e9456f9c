/** What each call does to the broker, handle by handle and correlation by correlation: every call's
    result, what it adds and what it removes, and that everything else stays. Stated on the states
    before and after, with the limits of the contract written out. */
module BrokerEffects {
  import opened Abi
  import opened BrokerState
  import BrokerRuns

  // ---------------------------------------------------------------- how states compare

  /** h is open after exactly if it was open before and is not among the closed; no opening time
      changes. */
  ghost predicate HandlesLost(b: Broker, after: Broker, closed: set<uint64>) {
    && (forall h :: h in after.handles <==> h in b.handles && h !in closed)
    && (forall h :: h in after.handles ==> after.handles[h] == b.handles[h])
  }

  /** The same for pending entries. */
  ghost predicate PendingsLost(b: Broker, after: Broker, dropped: set<Correlation>) {
    && (forall c :: c in after.correlations <==> c in b.correlations && c !in dropped)
    && (forall c :: c in after.correlations ==> after.correlations[c] == b.correlations[c])
  }

  ghost predicate QueuesStand(b: Broker, after: Broker) {
    after.openings == b.openings && after.frames == b.frames
  }

  ghost predicate SettingsStand(b: Broker, after: Broker) {
    && after.capacity == b.capacity && after.active == b.active && after.generation == b.generation
    && after.assigns == b.assigns && after.notifies == b.notifies
  }

  /** The whole broker is shut: nothing open, pending or queued; still the same generation. */
  ghost predicate Shut(b: Broker, after: Broker) {
    && !after.active && !after.assigns && after.generation == b.generation && after.capacity == b.capacity
    && after.handles == map[] && after.correlations == map[] && after.openings == [] && after.frames == []
  }

  /** The correlations pending under a handle. */
  function PendingUnder(b: Broker, h: uint64): set<Correlation> {
    set c | c in b.correlations && b.correlations[c].handle == h
  }

  /** The handle a correlation is pending under. */
  function OwnerOf(b: Broker, c: Correlation): set<uint64> {
    if c in b.correlations then {b.correlations[c].handle} else {}
  }

  // ---------------------------------------------------------------- activation

  lemma ActivateEffect(b: Broker, g: uint64, assigns: bool, notifies: bool)
    ensures var after := BrokerRuns.Next(b, BrokerRuns.Event.Activating(g, assigns, notifies)).b;
      && (after.active <==> g != 0 && assigns) && after.generation == g && after.assigns == assigns && after.notifies == notifies
      && after.handles == map[] && after.correlations == map[] && after.openings == [] && after.frames == []
      && after.capacity == b.capacity
  {
  }

  lemma RetireEffect(b: Broker, g: uint64)
    ensures var after := BrokerRuns.Next(b, BrokerRuns.Event.Retiring(g)).b;
      if g == b.generation then Shut(b, after) && !after.notifies else after == b
  {
  }

  // ---------------------------------------------------------------- open

  /** Why open refuses, in the order of its tests; `room` is whether the sweep made room. */
  function OpenRefusal(b: Broker, g: uint64, h: uint64, room: bool): Option<IngressError> {
    if g != b.generation then Some(StaleGeneration)
    else if !b.active then Some(Closed)
    else if h == 0 then Some(Mismatch)
    else if h in b.handles then Some(Duplicate)
    else if !room || |b.openings| == b.capacity then Some(Overflow)
    else None
  }

  /** An accepted open records the clock reading, queues one event, and drops nothing but what the
      sweep dropped. Of the refusals, those of a stale or inactive generation change nothing; the
      others shut the broker and notify. */
  lemma OpenEffect(b: Broker, g: uint64, h: uint64, now: Time, ev: Eviction)
    requires Inv(b) && Evicts(b.handles, Assigning(b.correlations), now, ev)
    ensures var step, refusal := Open(b, g, h, now, ev), OpenRefusal(b, g, h, ev.room);
      && step.status == (if refusal.Some? then Refused(refusal.value) else Accepted)
      && match refusal
         case None =>
           && h in step.b.handles && step.b.handles[h] == now && !step.notify
           && HandlesLost(b, Without(step.b, h), b.handles.Keys - ev.kept.Keys)
           && step.b.correlations == b.correlations && SettingsStand(b, step.b)
           && step.b.openings == b.openings + [ConnectionOpen(g, h)] && step.b.frames == b.frames
         case Some(error) =>
           if error == StaleGeneration || error == Closed then step.b == b && !step.notify
           else Shut(b, step.b) && step.notify == b.notifies
  {
    hide Evicts, Assigning, Inv, HandlesLost, Open;
    if OpenRefusal(b, g, h, ev.room).None? {
      OpenAdmits(b, h, now, ev);
    } else {
      CapacityHolds(b);
      OpenRefuses(b, g, h, now, ev);
    }
  }

  lemma OpenRefuses(b: Broker, g: uint64, h: uint64, now: Time, ev: Eviction)
    requires |b.openings| <= b.capacity && OpenRefusal(b, g, h, ev.room).Some?
    ensures var step, error := Open(b, g, h, now, ev), OpenRefusal(b, g, h, ev.room).value;
      && step.status == Refused(error)
      && if error == StaleGeneration || error == Closed then step.b == b && !step.notify
         else Shut(b, step.b) && step.notify == b.notifies
  {
  }

  lemma OpenAdmits(b: Broker, h: uint64, now: Time, ev: Eviction)
    requires Inv(b) && Evicts(b.handles, Assigning(b.correlations), now, ev)
    requires OpenRefusal(b, b.generation, h, ev.room).None?
    ensures var step := Open(b, b.generation, h, now, ev);
      && step.status == Accepted && !step.notify
      && step.b == b.(handles := step.b.handles, openings := b.openings + [ConnectionOpen(b.generation, h)])
      && h in step.b.handles && step.b.handles[h] == now
      && HandlesLost(b, Without(step.b, h), b.handles.Keys - ev.kept.Keys)
  {
    CapacityHolds(b);
    EvictionContains(b, now, ev);
    Admitted(b, h, now, ev.kept);
    hide Evicts, Assigning, Inv, HandlesLost, DroppedEarly;
  }

  function Without(b: Broker, h: uint64): Broker {
    b.(handles := b.handles - {h})
  }

  lemma Admitted(b: Broker, h: uint64, now: Time, kept: Handles)
    requires h !in b.handles && forall o :: o in kept ==> o in b.handles && kept[o] == b.handles[o]
    ensures forall x: Broker :: x.handles == kept[h := now] ==> HandlesLost(b, Without(x, h), b.handles.Keys - kept.Keys)
  {
  }

  lemma CapacityHolds(b: Broker)
    requires Inv(b)
    ensures |b.openings| <= b.capacity && |b.frames| <= b.capacity
  {
  }

  // ---------------------------------------------------------------- assign

  /** Why assign refuses before its native call, in the order of its tests. */
  function Refusal(b: Broker, a: ConnectionAssignment, now: Time): Option<IngressError> {
    if !LiveAt(a.expiresAt, now) then Some(BadLifetime)
    else if a.correlation == ZERO_CORRELATION then Some(Mismatch)
    else if a.generation != b.generation then Some(StaleGeneration)
    else if !b.active || a.handle !in b.handles then Some(Closed)
    else if a.correlation in b.correlations || PendingUnder(b, a.handle) != {} then Some(Duplicate)
    else None
  }

  lemma CloseEffect(b: Broker, g: uint64, h: uint64)
    ensures var after := CloseHandle(b, g, h);
      && QueuesStand(b, after) && SettingsStand(b, after)
      && if g != b.generation then after == b
         else HandlesLost(b, after, {h}) && PendingsLost(b, after, PendingUnder(b, h))
  {
  }

  /** clearAssignmentLocked. */
  lemma ClearEffect(b: Broker, h: uint64, c: Correlation)
    ensures var after := ClearAssignment(b, h, c);
      && QueuesStand(b, after) && SettingsStand(b, after)
      && HandlesLost(b, after, {h} + OwnerOf(b, c)) && PendingsLost(b, after, {c} + PendingUnder(b, h))
  {
  }

  /** assign up to its native call. A refusal in the current generation, except for one that finds
      the handle or the broker closed, closes the handle and drops what is pending under it; if the
      correlation was already pending, that entry goes too, with the handle it was pending under.
      Without a refusal one entry is added. Nothing else changes. */
  lemma BeginEffect(b: Broker, a: ConnectionAssignment, now: Time)
    ensures var (after, begun) := BeginAssign(b, a, now);
      match Refusal(b, a, now)
      case None =>
        && begun == CallNative
        && a.correlation in after.correlations && a.correlation !in b.correlations
        && after.correlations[a.correlation] == Pending(a.handle, a.correlation, a.expiresAt)
        && PendingsLost(after, b, {a.correlation})
        && HandlesLost(b, after, {}) && QueuesStand(b, after) && SettingsStand(b, after)
      case Some(error) =>
        && begun == Failed(error) && QueuesStand(b, after) && SettingsStand(b, after)
        && if a.generation != b.generation || error == Closed then after == b
           else if error == Duplicate then
             && HandlesLost(b, after, {a.handle} + OwnerOf(b, a.correlation))
             && PendingsLost(b, after, {a.correlation} + PendingUnder(b, a.handle))
           else
             HandlesLost(b, after, {a.handle}) && PendingsLost(b, after, PendingUnder(b, a.handle))
  {
    BeginCases(b, a, now);
    CloseEffect(b, a.generation, a.handle);
    ClearEffect(b, a.handle, a.correlation);
    hide BeginAssign, CloseHandle, ClearAssignment, PendingUnder, LiveAt;
    if Refusal(b, a, now).None? { InsertEffect(b, Pending(a.handle, a.correlation, a.expiresAt)); }
    if a.correlation !in b.correlations {
      NotPending(b, CloseHandle(b, a.generation, a.handle), a.correlation, PendingUnder(b, a.handle));
    }
    hide HandlesLost, PendingsLost, QueuesStand, SettingsStand;
  }

  lemma BeginCases(b: Broker, a: ConnectionAssignment, now: Time)
    ensures var (after, begun) := BeginAssign(b, a, now);
      match Refusal(b, a, now)
      case None =>
        begun == CallNative && a.correlation !in b.correlations
        && after == b.(correlations := b.correlations[a.correlation := Pending(a.handle, a.correlation, a.expiresAt)])
      case Some(error) =>
        && begun == Failed(error)
        && after == if a.generation != b.generation then b
                    else if error == Closed then b
                    else if error == Duplicate && a.correlation in b.correlations then ClearAssignment(b, a.handle, a.correlation)
                    else CloseHandle(b, a.generation, a.handle)
  {
    PendingUnderAssigning(b, a.handle);
    if a.generation != b.generation { assert CloseHandle(b, a.generation, a.handle) == b; }
    hide Assigning, CloseHandle, ClearAssignment, PendingUnder, LiveAt;
  }

  lemma InsertEffect(b: Broker, p: Pending)
    requires p.correlation !in b.correlations
    ensures var after := b.(correlations := b.correlations[p.correlation := p]);
      && p.correlation in after.correlations && after.correlations[p.correlation] == p
      && PendingsLost(after, b, {p.correlation})
      && HandlesLost(b, after, {}) && QueuesStand(b, after) && SettingsStand(b, after)
  {
  }

  lemma NotPending(b: Broker, after: Broker, c: Correlation, dropped: set<Correlation>)
    requires c !in b.correlations
    ensures PendingsLost(b, after, {c} + dropped) <==> PendingsLost(b, after, dropped)
  {
  }


  lemma PendingUnderAssigning(b: Broker, h: uint64)
    ensures PendingUnder(b, h) != {} <==> h in Assigning(b.correlations)
  {
    if h in Assigning(b.correlations) {
      var c :| c in b.correlations && b.correlations[c].handle == h;
      assert c in PendingUnder(b, h);
    }
    if PendingUnder(b, h) != {} {
      var c :| c in PendingUnder(b, h);
    }
  }

  /** assign after its native call: success changes nothing; the four refusals of the contract and
      any other code are told apart, and close the handle if the generation is still current. */
  lemma FinishEffect(b: Broker, a: ConnectionAssignment, rc: int32)
    ensures var (after, status) := FinishAssign(b, a, rc);
      && (status == Accepted <==> rc == 0)
      && (status == Refused(Rejected) <==> rc == -1 || rc == -2 || rc == -3 || rc == -4)
      && (status == Refused(AbiMismatch) <==> rc > 0 || rc < -4)
      && QueuesStand(b, after) && SettingsStand(b, after)
      && if rc == 0 || a.generation != b.generation then after == b
         else HandlesLost(b, after, {a.handle}) && PendingsLost(b, after, PendingUnder(b, a.handle))
  {
  }

  /** A timer closes what it was set for, and nothing if anything about the entry differs. */
  lemma ExpireEffect(b: Broker, g: uint64, h: uint64, c: Correlation, deadline: Time)
    ensures var after := Expire(b, g, h, c, deadline);
      && QueuesStand(b, after) && SettingsStand(b, after)
      && if g == b.generation && c in b.correlations && b.correlations[c].handle == h && b.correlations[c].expiresAt == deadline
         then HandlesLost(b, after, {h}) && PendingsLost(b, after, {c})
         else after == b
  {
  }

  // ---------------------------------------------------------------- deliver

  /** The first section of deliverIPCFrame finds an expiry only under the packet's own handle, and
      it is the deadline in whole milliseconds. */
  lemma LookupEffect(b: Broker, h: uint64, c: Correlation)
    ensures var found := LookupIpc(b, h, c);
      && (found.Some? <==> c in b.correlations && b.correlations[c].handle == h)
      && (found.Some? ==>
            ToSigned(found.value) * 1_000_000 <= b.correlations[c].expiresAt < (ToSigned(found.value) + 1) * 1_000_000)
  {
    if c in b.correlations { SignedBack(UnixMilli(b.correlations[c].expiresAt)); }
  }

  lemma SignedBack(n: int64)
    ensures ToSigned(ToUnsigned(n)) == n
  {
  }

  /** Why deliver refuses, in the order of its tests; `ms` is the expiry it was handed. */
  function DeliverRefusal(b: Broker, g: uint64, c: Correlation, frame: Bytes, ms: int64, now: Time): Option<IngressError> {
    if |frame| < 1 || |frame| > 4096 then Some(BadFrame)
    else if !(now < ms * 1_000_000 <= now + 5_000_000_000) then Some(BadLifetime)
    else if g != b.generation then Some(StaleGeneration)
    else if !b.active then Some(Closed)
    else if c !in b.correlations then Some(Mismatch)
    else if !(ms * 1_000_000 <= b.correlations[c].expiresAt < (ms + 1) * 1_000_000) then Some(Mismatch)
    else if |b.frames| == b.capacity then Some(Overflow)
    else None
  }

  /** deliver queues one frame, under the handle that was assigned, with the expiry it was handed;
      an overflow shuts the broker and notifies; every other refusal in the current generation just
      closes the correlation with its handle. */
  lemma DeliverEffect(b: Broker, g: uint64, c: Correlation, frame: Bytes, ms: uint64, now: Time)
    requires Inv(b)
    ensures var step, refusal := Deliver(b, g, c, frame, ms, now), DeliverRefusal(b, g, c, frame, ToSigned(ms), now);
      && step.status == (if refusal.Some? then Refused(refusal.value) else Accepted)
      && (refusal == Some(Overflow) ==> Shut(b, step.b) && step.notify == b.notifies)
      && (refusal != Some(Overflow) ==>
            && SettingsStand(b, step.b) && !step.notify && step.b.openings == b.openings
            && (if g != b.generation then step.b == b
                else HandlesLost(b, step.b, OwnerOf(b, c)) && PendingsLost(b, step.b, {c})))
      && (refusal.Some? && refusal != Some(Overflow) ==> step.b.frames == b.frames)
      && (refusal.None? ==>
            step.b.frames == b.frames + [VerifiedFrame(g, b.correlations[c].handle, c, frame, ToSigned(ms) * 1_000_000)])
  {
    InvFacts(b);
    CapacityHolds(b);
    hide Inv;
    if c in b.correlations { MilliIs(b.correlations[c].expiresAt, ToSigned(ms)); }
  }

  lemma MilliIs(t: Time, ms: int64)
    ensures UnixMilli(t) == ms <==> ms * 1_000_000 <= t < (ms + 1) * 1_000_000
  {
  }

  /** The queues are first in, first out. */
  lemma TakeEffect(b: Broker)
    ensures b.openings != [] ==>
      var after := BrokerRuns.Next(b, BrokerRuns.Event.TakingOpening).b;
      b.openings == [b.openings[0]] + after.openings && after == b.(openings := after.openings)
    ensures b.frames != [] ==>
      var after := BrokerRuns.Next(b, BrokerRuns.Event.TakingFrame).b;
      b.frames == [b.frames[0]] + after.frames && after == b.(frames := after.frames)
  {
  }
}
