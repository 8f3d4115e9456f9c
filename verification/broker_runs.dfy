/** Whole runs of the broker: any number of callers, timers and consumers, interleaved in any
    order at the granularity of the critical sections. Every clock reading is arbitrary. */
module BrokerRuns {
  import opened Abi
  import opened BrokerState

  datatype Event =
    | Activating(generation: uint64, assigns: bool, notifies: bool)
    | Retiring(generation: uint64)
    | Opening(generation: uint64, handle: uint64, now: Time, ev: Eviction)
    | Beginning(a: ConnectionAssignment, now: Time)
    | Finishing(a: ConnectionAssignment, rc: int32)
    | Closing(generation: uint64, handle: uint64)
    | Expiring(generation: uint64, handle: uint64, c: Correlation, expiresAt: Time)
    | Delivering(generation: uint64, c: Correlation, frame: Bytes, expiresUnixMS: uint64, now: Time)
    | TakingOpening
    | TakingFrame

  ghost predicate Enabled(b: Broker, e: Event) {
    match e
    case Opening(_, _, now, ev) => Evicts(b.handles, Assigning(b.correlations), now, ev)
    case TakingOpening => b.openings != []
    case TakingFrame => b.frames != []
    case _ => true
  }

  function Next(b: Broker, e: Event): Step {
    match e
    case Activating(g, assigns, notifies) => Step(Activate(b, g, assigns, notifies), Accepted, false)
    case Retiring(g) => Step(Retire(b, g), Accepted, false)
    case Opening(g, h, now, ev) => Open(b, g, h, now, ev)
    case Beginning(a, now) => Step(BeginAssign(b, a, now).0, Accepted, false)
    case Finishing(a, rc) => Step(FinishAssign(b, a, rc).0, FinishAssign(b, a, rc).1, false)
    case Closing(g, h) => Step(CloseHandle(b, g, h), Accepted, false)
    case Expiring(g, h, c, t) => Step(Expire(b, g, h, c, t), Accepted, false)
    case Delivering(g, c, frame, ms, now) => Deliver(b, g, c, frame, ms, now)
    case TakingOpening => Step(if b.openings == [] then b else b.(openings := b.openings[1..]), Accepted, false)
    case TakingFrame => Step(if b.frames == [] then b else b.(frames := b.frames[1..]), Accepted, false)
  }

  /** A run visits |events| + 1 states. */
  ghost predicate Run(states: seq<Broker>, events: seq<Event>) {
    && |states| == |events| + 1
    && Fresh(states[0])
    && forall i :: 0 <= i < |events| ==> Enabled(states[i], events[i]) && states[i + 1] == Next(states[i], events[i]).b
  }

  predicate Fresh(b: Broker) {
    b.capacity >= 1 && !b.active && b.handles == map[] && b.correlations == map[] && b.openings == [] && b.frames == []
  }

  // ---------------------------------------------------------------- the invariant

  lemma StepKeepsInv(b: Broker, e: Event)
    requires Inv(b) && Enabled(b, e)
    ensures Inv(Next(b, e).b)
  {
    match e
    case Opening(g, h, now, ev) => OpenKeepsInv(b, g, h, now, ev);
    case Beginning(a, now) => BeginAssignKeepsInv(b, a, now);
    case Finishing(a, rc) => CloseHandleKeepsInv(b, a.generation, a.handle);
    case Closing(g, h) => CloseHandleKeepsInv(b, g, h);
    case Expiring(_, _, c, _) => if c in b.correlations { ConsumedKeepsInv(b, c); }
    case Delivering(g, c, frame, ms, now) => DeliverKeepsInv(b, g, c, frame, ms, now);
    case _ =>
  }

  /** The joint invariant holds in every state of every run. */
  lemma {:induction false} RunKeepsInv(states: seq<Broker>, events: seq<Event>, i: nat)
    requires Run(states, events) && i < |states|
    ensures Inv(states[i])
  {
    hide Inv, Next, Enabled;
    if i == 0 {
      FreshIsInv(states[0]);
    } else {
      RunKeepsInv(states, events, i - 1);
      assert states[i] == Next(states[i - 1], events[i - 1]).b;
      StepKeepsInv(states[i - 1], events[i - 1]);
    }
  }

  lemma FreshIsInv(b: Broker)
    requires Fresh(b)
    ensures Inv(b)
  {
  }

  /** In every reachable state the pending assignments are at most as many as the open handles,
      and those at most 4096. */
  lemma Occupancy(states: seq<Broker>, events: seq<Event>, i: nat)
    requires Run(states, events) && i < |states|
    ensures |states[i].correlations| <= |states[i].handles| <= 4096
  {
    RunKeepsInv(states, events, i);
    InvFacts(states[i]);
    UnsharedSize(states[i].correlations, states[i].correlations.Keys);
    assert Assigning(states[i].correlations) == HandlesOf(states[i].correlations, states[i].correlations.Keys);
    SubsetSize(Assigning(states[i].correlations), states[i].handles.Keys);
  }

  function HandlesOf(correlations: Correlations, cs: set<Correlation>): set<uint64>
    requires cs <= correlations.Keys
  {
    set c | c in cs :: correlations[c].handle
  }

  lemma {:induction false} UnsharedSize(correlations: Correlations, cs: set<Correlation>)
    requires cs <= correlations.Keys && HandlesUnshared(correlations)
    ensures |HandlesOf(correlations, cs)| == |cs|
  {
    if cs != {} {
      var c :| c in cs;
      UnsharedSize(correlations, cs - {c});
      assert HandlesOf(correlations, cs) == HandlesOf(correlations, cs - {c}) + {correlations[c].handle};
    }
  }

  // ---------------------------------------------------------------- generation isolation

  /** An open, assign, deliver, expire, close, deactivate or failGeneration of any other
      generation changes nothing and calls nobody. */
  lemma OtherGenerationChangesNothing(b: Broker, e: Event)
    requires e.Retiring? || e.Opening? || e.Beginning? || e.Finishing? || e.Closing? || e.Expiring? || e.Delivering?
    requires EventGeneration(e) != b.generation
    ensures Next(b, e).b == b && !Next(b, e).notify
  {
  }

  function EventGeneration(e: Event): uint64
    requires !e.TakingOpening? && !e.TakingFrame?
  {
    if e.Beginning? || e.Finishing? then e.a.generation else e.generation
  }

  ghost predicate Notifies(states: seq<Broker>, events: seq<Event>, i: int)
    requires Run(states, events)
  {
    0 <= i < |events| && Next(states[i], events[i]).notify
  }

  /** The fatal callback runs at most once per activation. */
  lemma FatalOncePerActivation(states: seq<Broker>, events: seq<Event>, i: nat, j: nat)
    requires Run(states, events) && i < j
    requires Notifies(states, events, i) && Notifies(states, events, j)
    ensures exists k :: i < k < j && events[k].Activating?
  {
    if forall k :: i < k < j ==> !events[k].Activating? {
      NotifyingDeactivates(states[i], events[i]);
      InactiveUntilActivated(states, events, i + 1, j);
      NotifyingDeactivates(states[j], events[j]);
      assert false;
    }
  }

  lemma NotifyingDeactivates(b: Broker, e: Event)
    requires Next(b, e).notify
    ensures b.active && !Next(b, e).b.active
  {
  }

  /** Once inactive, the broker stays inactive, with nothing open, pending or queued, until the
      next activation. */
  lemma {:induction false} InactiveUntilActivated(states: seq<Broker>, events: seq<Event>, i: nat, j: nat)
    requires Run(states, events) && i <= j < |states|
    requires !states[i].active && forall k :: i <= k < j ==> !events[k].Activating?
    ensures !states[j].active && Empty(states[j])
    decreases j
  {
    hide Inv, Next, Enabled;
    if i < j {
      InactiveUntilActivated(states, events, i, j - 1);
      assert states[j] == Next(states[j - 1], events[j - 1]).b;
      InactiveStep(states[j - 1], events[j - 1]);
    } else {
      RunKeepsInv(states, events, j);
      InvFacts(states[j]);
    }
  }

  lemma InactiveStep(b: Broker, e: Event)
    requires !b.active && Empty(b) && !e.Activating?
    ensures !Next(b, e).b.active && Empty(Next(b, e).b)
  {
  }

  /** Every queued event carries the generation the broker is in. */
  lemma QueuedEventsAreCurrent(states: seq<Broker>, events: seq<Event>, i: nat)
    requires Run(states, events) && i < |states|
    ensures forall o :: o in states[i].openings ==> o.generation == states[i].generation
    ensures forall f :: f in states[i].frames ==> f.generation == states[i].generation
    ensures !states[i].active ==> Empty(states[i])
  {
    RunKeepsInv(states, events, i);
  }

  predicate Current(b: Broker, g: uint64) {
    b.active && b.generation == g
  }

  /** No broker step but its own activation makes a generation current, or names it. */
  lemma NeverCurrentAgain(b: Broker, e: Event, g: uint64)
    requires Enabled(b, e) && !(e.Activating? && e.generation == g)
    ensures !Current(b, g) ==> !Current(Next(b, e).b, g)
    ensures b.generation != g ==> Next(b, e).b.generation != g
  {
    hide Evicts, Assigning, LiveAt, UnixMilli, FromUnixMilli, ToSigned;
  }

  /** Nothing of the generation is queued or pending. */
  ghost predicate Gone(b: Broker, g: uint64) {
    && (forall o :: o in b.openings ==> o.generation != g)
    && (forall v :: v in b.frames ==> v.generation != g)
    && (b.generation == g ==> Empty(b) && !b.active)
  }

  lemma NotCurrentIsGone(b: Broker, g: uint64)
    requires Inv(b) && !Current(b, g)
    ensures Gone(b, g)
  {
  }

  // ---------------------------------------------------------------- fail closed

  /** Every failing assign of the current generation leaves its handle neither open nor pending:
      first critical section. */
  lemma FailedBeginClosesHandle(b: Broker, a: ConnectionAssignment, now: Time)
    requires Inv(b) && a.generation == b.generation && BeginAssign(b, a, now).1.Failed?
    ensures a.handle !in BeginAssign(b, a, now).0.handles
    ensures a.handle !in Assigning(BeginAssign(b, a, now).0.correlations)
  {
    InvFacts(b);
  }

  /** ... and the section after the native call. */
  lemma FailedFinishClosesHandle(b: Broker, a: ConnectionAssignment, rc: int32)
    requires a.generation == b.generation && rc != ASSIGNMENT_OK
    ensures FinishAssign(b, a, rc).1.Refused?
    ensures a.handle !in FinishAssign(b, a, rc).0.handles
    ensures a.handle !in Assigning(FinishAssign(b, a, rc).0.correlations)
  {
  }

  /** Every deliver of the current generation, whatever it returns, leaves its correlation
      unassigned, and the handle that correlation was assigned to is closed. */
  lemma DeliverConsumes(b: Broker, c: Correlation, frame: Bytes, expiresUnixMS: uint64, now: Time)
    requires Inv(b)
    ensures var after := Deliver(b, b.generation, c, frame, expiresUnixMS, now).b;
      && c !in after.correlations
      && (c in b.correlations ==> b.correlations[c].handle !in after.handles
                                  && b.correlations[c].handle !in Assigning(after.correlations))
  {
    hide Inv;
    InvFacts(b);
    if c in b.correlations { ConsumedFrees(b, c); }
  }

  lemma ConsumedFrees(b: Broker, c: Correlation)
    requires Inv(b) && c in b.correlations
    ensures b.active
    ensures b.correlations[c].handle !in Assigning(Consumed(b, c).correlations)
  {
  }

  /** A failing section of assign, for the broker's current generation. */
  predicate FailsAssign(b: Broker, e: Event) {
    (e.Beginning? && e.a.generation == b.generation && BeginAssign(b, e.a, e.now).1.Failed?)
    || (e.Finishing? && e.a.generation == b.generation && e.rc != ASSIGNMENT_OK)
  }

  /** assign refused because its correlation was pending already. */
  predicate RefusedAsPending(b: Broker, e: Event) {
    e.Beginning? && e.a.correlation in b.correlations && BeginAssign(b, e.a, e.now).1 == Failed(Duplicate)
  }

  lemma DuplicateUnassigns(b: Broker, e: Event)
    requires Inv(b) && RefusedAsPending(b, e)
    ensures var after, h := Next(b, e).b, b.correlations[e.a.correlation].handle;
      e.a.correlation !in after.correlations && h !in after.handles && h !in Assigning(after.correlations)
  {
    var h := b.correlations[e.a.correlation].handle;
    assert HandlesUnshared(b.correlations);
    hide Inv, LiveAt;
  }

  /** Fail closed, in every run: after a failing section of assign its handle is neither open nor
      pending; if it failed because its correlation was pending, the correlation is unassigned, and
      the handle it was pending under is neither open nor pending either; after a deliver, whatever it returned, its correlation is unassigned and whatever
      handle it was assigned to is neither open nor pending. */
  lemma FailClosed(states: seq<Broker>, events: seq<Event>, i: nat)
    requires Run(states, events) && i < |events|
    ensures FailsAssign(states[i], events[i]) ==>
      events[i].a.handle !in states[i + 1].handles && events[i].a.handle !in Assigning(states[i + 1].correlations)
    ensures RefusedAsPending(states[i], events[i]) ==>
      && events[i].a.correlation !in states[i + 1].correlations
      && var h := states[i].correlations[events[i].a.correlation].handle;
         h !in states[i + 1].handles && h !in Assigning(states[i + 1].correlations)
    ensures events[i].Delivering? && events[i].generation == states[i].generation ==>
      && events[i].c !in states[i + 1].correlations
      && (events[i].c in states[i].correlations ==>
            var h := states[i].correlations[events[i].c].handle;
            h !in states[i + 1].handles && h !in Assigning(states[i + 1].correlations))
  {
    hide Inv, Enabled, BeginAssign, FinishAssign, Deliver, Assigning;
    var b, e := states[i], events[i];
    RunKeepsInv(states, events, i);
    assert states[i + 1] == Next(b, e).b;
    if FailsAssign(b, e) {
      if e.Beginning? { FailedBeginClosesHandle(b, e.a, e.now); } else { FailedFinishClosesHandle(b, e.a, e.rc); }
    }
    if RefusedAsPending(b, e) { DuplicateUnassigns(b, e); }
    if e.Delivering? && e.generation == b.generation { DeliverConsumes(b, e.c, e.frame, e.expiresUnixMS, e.now); }
  }

  // ---------------------------------------------------------------- take-once

  ghost predicate Inserts(states: seq<Broker>, events: seq<Event>, i: int, a: ConnectionAssignment)
    requires Run(states, events)
  {
    && 0 <= i < |events| && events[i].Beginning? && events[i].a == a
    && BeginAssign(states[i], a, events[i].now).1.CallNative?
  }

  ghost predicate Opens(states: seq<Broker>, events: seq<Event>, i: int, generation: uint64, handle: uint64)
    requires Run(states, events)
  {
    && 0 <= i < |events| && events[i].Opening? && events[i].generation == generation && events[i].handle == handle
    && Next(states[i], events[i]).status == Accepted
  }

  ghost predicate Publishes(states: seq<Broker>, events: seq<Event>, i: int)
    requires Run(states, events)
  {
    0 <= i < |events| && events[i].Delivering? && Next(states[i], events[i]).status == Accepted
  }

  /** The frame a publishing deliver appends. */
  ghost function Published(states: seq<Broker>, events: seq<Event>, i: int): (f: VerifiedFrame)
    requires Run(states, events) && Publishes(states, events, i)
    ensures states[i + 1].frames == states[i].frames + [f]
  {
    assert states[i + 1] == Next(states[i], events[i]).b;
    states[i + 1].frames[|states[i].frames|]
  }

  ghost predicate NoActivation(events: seq<Event>, from: int, to: int) {
    forall k :: from <= k < to && 0 <= k < |events| ==> !events[k].Activating?
  }

  /** A pending entry stems from an insertion in the same activation and has been pending,
      unchanged, ever since. */
  lemma {:induction false} PendingHasOrigin(states: seq<Broker>, events: seq<Event>, t: nat, c: Correlation) returns (i: nat)
    requires Run(states, events) && t < |states| && c in states[t].correlations
    ensures i < t && NoActivation(events, i, t)
    ensures Inserts(states, events, i,
                    ConnectionAssignment(states[t].generation, states[t].correlations[c].handle, c, states[t].correlations[c].expiresAt))
    ensures forall k :: i < k <= t ==> c in states[k].correlations
    decreases t
  {
    hide Next, Enabled, BeginAssign;
    var b, e := states[t - 1], events[t - 1];
    assert t > 0 && states[t] == Next(b, e).b;
    if e.Beginning? && BeginAssign(b, e.a, e.now).1.CallNative? && e.a.correlation == c {
      i := t - 1;
      InsertedEntry(b, e);
    } else {
      OldPendingUnchanged(b, e, c);
      i := PendingHasOrigin(states, events, t - 1, c);
    }
  }

  lemma InsertedEntry(b: Broker, e: Event)
    requires e.Beginning? && BeginAssign(b, e.a, e.now).1.CallNative?
    ensures var after := Next(b, e).b;
      && after.generation == e.a.generation && after.correlations == b.correlations[e.a.correlation := Pending(e.a.handle, e.a.correlation, e.a.expiresAt)]
  {
  }

  lemma OldPendingUnchanged(b: Broker, e: Event, c: Correlation)
    requires Enabled(b, e) && c in Next(b, e).b.correlations
    requires !(e.Beginning? && BeginAssign(b, e.a, e.now).1.CallNative? && e.a.correlation == c)
    ensures !e.Activating? && Next(b, e).b.generation == b.generation
    ensures c in b.correlations && Next(b, e).b.correlations[c] == b.correlations[c]
  {
    hide Evicts, Assigning, Deliver, Open;
    match e
    case Delivering(g, d, frame, ms, now) => DeliverOnlyCloses(b, g, d, frame, ms, now);
    case Opening(g, h, now, ev) => OpenAdds(b, g, h, now, ev);
    case Beginning(a, now) => if BeginAssign(b, a, now).1.Failed? { BeginOnlyCloses(b, a, now); }
    case _ =>
  }

  /** An open handle stems from an accepted open in the same activation. */
  lemma {:induction false} HandleHasOrigin(states: seq<Broker>, events: seq<Event>, t: nat, h: uint64) returns (i: nat)
    requires Run(states, events) && t < |states| && h in states[t].handles
    ensures i < t && NoActivation(events, i, t)
    ensures Opens(states, events, i, states[t].generation, h)
    decreases t
  {
    hide Next, Enabled;
    var b, e := states[t - 1], events[t - 1];
    assert t > 0 && states[t] == Next(b, e).b;
    if e.Opening? && e.handle == h && Next(b, e).status == Accepted {
      i := t - 1;
      AcceptedIsCurrent(b, e);
    } else {
      OldHandleUnchanged(b, e, h);
      i := HandleHasOrigin(states, events, t - 1, h);
    }
  }

  lemma AcceptedIsCurrent(b: Broker, e: Event)
    requires e.Opening? && Next(b, e).status == Accepted
    ensures Next(b, e).b.generation == e.generation
  {
  }

  lemma OldHandleUnchanged(b: Broker, e: Event, h: uint64)
    requires Enabled(b, e) && h in Next(b, e).b.handles
    requires !(e.Opening? && e.handle == h && Next(b, e).status == Accepted)
    ensures !e.Activating? && Next(b, e).b.generation == b.generation
    ensures h in b.handles
  {
    hide Evicts, Assigning, Deliver, Open;
    match e
    case Delivering(g, d, frame, ms, now) => DeliverOnlyCloses(b, g, d, frame, ms, now);
    case Opening(g, o, now, ev) => OpenAdds(b, g, o, now, ev);
    case Beginning(a, now) => if BeginAssign(b, a, now).1.Failed? { BeginOnlyCloses(b, a, now); }
    case _ =>
  }

  /** What a publication at step j consumed: an insertion at step i of its own assignment, on a
      handle opened at step o, all in one activation; with the expiry and clock bounds. */
  ghost predicate Redeems(states: seq<Broker>, events: seq<Event>, j: int, i: int)
    requires Run(states, events) && Publishes(states, events, j)
  {
    var f := Published(states, events, j);
    && i < j && NoActivation(events, i, j)
    && (exists expiry: Time ::
          && Inserts(states, events, i, ConnectionAssignment(f.generation, f.handle, f.correlation, expiry))
          && f.expiresAt == FromUnixMilli(UnixMilli(expiry)))
    && (exists o: int :: o < i && Opens(states, events, o, f.generation, f.handle) && NoActivation(events, o, i))
    && events[j].now < f.expiresAt <= events[j].now + MAX_INGRESS_LIFETIME
  }

  ghost predicate PendingThroughout(states: seq<Broker>, events: seq<Event>, j: int, i: int)
    requires Run(states, events) && Publishes(states, events, j)
  {
    forall k :: i < k <= j && 0 <= k ==> Published(states, events, j).correlation in states[k].correlations
  }

  lemma PublicationRedeems(states: seq<Broker>, events: seq<Event>, j: nat) returns (i: nat)
    requires Run(states, events) && Publishes(states, events, j)
    ensures Redeems(states, events, j, i)
    ensures PendingThroughout(states, events, j, i)
    ensures Published(states, events, j).correlation !in states[j + 1].correlations
  {
    var b, e := states[j], events[j];
    var f := Published(states, events, j);
    assert f == Deliver(b, e.generation, e.c, e.frame, e.expiresUnixMS, e.now).b.frames[|b.frames|];
    assert f.correlation == e.c && f.generation == b.generation && f.handle == b.correlations[e.c].handle;
    i := PendingHasOrigin(states, events, j, e.c);
    var inserted := ConnectionAssignment(f.generation, f.handle, f.correlation, b.correlations[e.c].expiresAt);
    assert Inserts(states, events, i, inserted);
    assert f.expiresAt == FromUnixMilli(UnixMilli(inserted.expiresAt));
    assert f.handle in states[i].handles && states[i].generation == f.generation;
    var o := HandleHasOrigin(states, events, i, f.handle);
    assert Opens(states, events, o, f.generation, f.handle);
  }

  /** The insertion a publication redeems. */
  ghost function Redeemed(states: seq<Broker>, events: seq<Event>, j: nat): (i: nat)
    requires Run(states, events) && Publishes(states, events, j)
    ensures Redeems(states, events, j, i)
    ensures PendingThroughout(states, events, j, i)
  {
    assert exists i: nat :: Redeems(states, events, j, i) && PendingThroughout(states, events, j, i) by {
      var i := PublicationRedeems(states, events, j);
    }
    var i: nat :| Redeems(states, events, j, i) && PendingThroughout(states, events, j, i);
    i
  }

  ghost predicate RedeemsInjectively(states: seq<Broker>, events: seq<Event>, redeemed: map<int, int>)
    requires Run(states, events)
  {
    && (forall j :: Publishes(states, events, j) ==> j in redeemed && Redeems(states, events, j, redeemed[j]))
    && (forall j, k :: j in redeemed && k in redeemed && j != k ==> redeemed[j] != redeemed[k])
  }

  /** Take-once: there is an injective map from the publications of a run to the assignments they
      redeem. */
  lemma TakeOnce(states: seq<Broker>, events: seq<Event>)
    requires Run(states, events)
    ensures exists redeemed :: RedeemsInjectively(states, events, redeemed)
  {
    var redeemed := map j: nat | j < |events| && Publishes(states, events, j) :: Redeemed(states, events, j);
    forall j, k | j in redeemed && k in redeemed && j < k ensures redeemed[j] != redeemed[k] {
      NeverRedeemedTwice(states, events, j, k);
    }
    assert RedeemsInjectively(states, events, redeemed);
  }

  lemma NeverRedeemedTwice(states: seq<Broker>, events: seq<Event>, j: nat, k: nat)
    requires Run(states, events) && j < k && Publishes(states, events, j) && Publishes(states, events, k)
    ensures Redeemed(states, events, j) != Redeemed(states, events, k)
  {
    if Redeemed(states, events, j) == Redeemed(states, events, k) {
      var _ := PublicationRedeems(states, events, j);
      assert false;
    }
  }
}
