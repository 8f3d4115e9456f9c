/** Runs of the subprocess mode: what is published only follows a positive ACK, what assign
    reports only follows one, and a rejected join stays rejected. */
module SessionRuns {
  import opened Abi
  import opened BrokerState
  import opened PacketCodec
  import opened SessionState
  import opened SessionSystem
  import SessionDrain
  import SessionEffects
  import BrokerRuns

  // ---------------------------------------------------------------- refinement of the broker's runs

  /** The broker of every run, after the activation that preceded the session, runs as BrokerRuns
      says: all its theorems apply. */
  ghost function BrokerStates(states: seq<System>): (bs: seq<Broker>)
    requires |states| > 0
    ensures |bs| == |states| + 1
    ensures bs[0] == states[0].b.(active := false) && forall t :: 0 <= t < |states| ==> bs[t + 1] == states[t].b
  {
    [states[0].b.(active := false)] + seq(|states|, t requires 0 <= t < |states| => states[t].b)
  }

  ghost function BrokerEvents(states: seq<System>, events: seq<Event>): (es: seq<BrokerRuns.Event>)
    requires |states| == |events| + 1
    ensures |es| == |states|
    ensures es[0] == BrokerRuns.Event.Activating(states[0].b.generation, states[0].b.assigns, states[0].b.notifies)
    ensures forall t :: 0 <= t < |events| ==> es[t + 1] == BrokerEvent(states[t], events[t])
  {
    [BrokerRuns.Event.Activating(states[0].b.generation, states[0].b.assigns, states[0].b.notifies)]
    + seq(|events|, t requires 0 <= t < |events| => BrokerEvent(states[t], events[t]))
  }

  lemma RefinesBroker(mac: Mac, states: seq<System>, events: seq<Event>)
    requires Run(mac, states, events)
    ensures BrokerRuns.Run(BrokerStates(states), BrokerEvents(states, events))
  {
    hide Enabled, Next, BrokerEvent;
    var bs, es := BrokerStates(states), BrokerEvents(states, events);
    forall i | 0 <= i < |es|
      ensures BrokerRuns.Enabled(bs[i], es[i]) && bs[i + 1] == BrokerRuns.Next(bs[i], es[i]).b
    {
      if i > 0 {
        BrokerStep(mac, states[i - 1], events[i - 1]);
        assert states[i] == Next(mac, states[i - 1], events[i - 1]);
      }
    }
  }

  // ---------------------------------------------------------------- where entries come from

  /** Step i processed a positive ACK for the pair, before the deadline of its pending entry. */
  ghost predicate AckedAt(states: seq<System>, events: seq<Event>, i: int, key: Key) {
    && 0 <= i < |events| && i < |states| && events[i].AckSection?
    && states[i].reader == Acking(key, ACK_POSITIVE)
    && key in states[i].s.pending && events[i].now < states[i].s.pending[key].expiresAt
  }

  predicate InsertsAt(x: System, e: Event, key: Key) {
    e.InsertOp? && e.id in x.ops && KeyOf(x.ops[e.id].a) == key && InsertStage(x, e.id, e.now) == Inserted
  }

  /** A step leaves an entry alone, removes it, inserts it, or acknowledges it. */
  lemma EntryStep(mac: Mac, x: System, e: Event, key: Key)
    requires Enabled(mac, x, e) && key in Next(mac, x, e).s.pending
    ensures var after := Next(mac, x, e).s.pending[key];
      if InsertsAt(x, e, key) then
        key !in x.s.pending && after == Entry(e.id, x.ops[e.id].a.expiresAt, false)
      else
        && key in x.s.pending
        && (if e.AckSection? && x.reader == Acking(key, ACK_POSITIVE)
            then after == x.s.pending[key].(acknowledged := true) && (after == x.s.pending[key] || e.now < after.expiresAt)
            else after == x.s.pending[key])
  {
    hide Next, Enabled, OpStep, ReaderStep, InsertsAt;
    NextCases(mac, x, e);
    if OfOp(e) {
      EntryOpStep(mac, x, e, key);
    } else if OfReader(e) {
      EntryReaderStep(mac, x, e, key);
    } else {
      EntryOtherStep(mac, x, e, key);
    }
  }

  lemma EntryReaderStep(mac: Mac, x: System, e: Event, key: Key)
    requires OfReader(e) && key in ReaderStep(mac, x, e).s.pending
    ensures !InsertsAt(x, e, key) && key in x.s.pending
    ensures var after := ReaderStep(mac, x, e).s.pending[key];
      if e.AckSection? && x.reader == Acking(key, ACK_POSITIVE)
      then after == x.s.pending[key].(acknowledged := true) && (after == x.s.pending[key] || e.now < after.expiresAt)
      else after == x.s.pending[key]
  {
    hide Decode, Deliver, Open, LookupIpc;
  }

  lemma EntryOtherStep(mac: Mac, x: System, e: Event, key: Key)
    requires !OfReader(e) && !OfOp(e) && key in Next(mac, x, e).s.pending
    ensures !InsertsAt(x, e, key) && key in x.s.pending && Next(mac, x, e).s.pending[key] == x.s.pending[key]
  {
    hide BrokerRuns.Next, BeginAssign;
  }

  lemma EntryOpStep(mac: Mac, x: System, e: Event, key: Key)
    requires OfOp(e) && e.id in x.ops && key in OpStep(mac, x, e).s.pending
    ensures var after := OpStep(mac, x, e).s.pending[key];
      if InsertsAt(x, e, key) then key !in x.s.pending && after == Entry(e.id, x.ops[e.id].a.expiresAt, false)
      else key in x.s.pending && after == x.s.pending[key]
  {
    hide FinishAssign, Layout, LiveAt, HeardStage;
  }

  /** An acknowledged entry was acknowledged by a positive ACK in time, and has been pending with
      the same waiter and deadline ever since. */
  lemma {:induction false} AcknowledgedHasOrigin(mac: Mac, states: seq<System>, events: seq<Event>, t: nat, key: Key) returns (i: nat)
    requires Run(mac, states, events) && t < |states|
    requires key in states[t].s.pending && states[t].s.pending[key].acknowledged
    ensures i < t && AckedAt(states, events, i, key)
    ensures forall k :: i < k <= t ==> key in states[k].s.pending && states[k].s.pending[key] == states[t].s.pending[key]
    ensures states[i].s.pending[key] == states[t].s.pending[key].(acknowledged := states[i].s.pending[key].acknowledged)
    decreases t
  {
    hide Next, Enabled, InsertStage;
    var x, e := states[t - 1], events[t - 1];
    assert states[t] == Next(mac, x, e);
    EntryStep(mac, x, e, key);
    if e.AckSection? && x.reader == Acking(key, ACK_POSITIVE) && e.now < x.s.pending[key].expiresAt {
      i := t - 1;
    } else {
      i := AcknowledgedHasOrigin(mac, states, events, t - 1, key);
    }
  }

  /** Every pending entry was inserted by the assign call it will tell, for that call's pair. */
  lemma {:induction false} PendingHasOrigin(mac: Mac, states: seq<System>, events: seq<Event>, t: nat, key: Key) returns (i: nat)
    requires Run(mac, states, events) && t < |states| && key in states[t].s.pending
    ensures i < t && InsertsAt(states[i], events[i], key) && events[i].id == states[t].s.pending[key].waiter
    ensures forall k :: i < k <= t ==> key in states[k].s.pending
    decreases t
  {
    hide Next, Enabled, InsertStage;
    var x, e := states[t - 1], events[t - 1];
    assert states[t] == Next(mac, x, e);
    EntryStep(mac, x, e, key);
    if InsertsAt(x, e, key) {
      i := t - 1;
    } else {
      i := PendingHasOrigin(mac, states, events, t - 1, key);
    }
  }

  // ---------------------------------------------------------------- ACK before publication

  /** The read loop is past taking this frame's entry, and has not finished delivering it. */
  predicate Carrying(r: Reader, key: Key, payload: Bytes) {
    (r.Looking? || r.Delivering?) && r.key == key && r.payload == payload
  }

  ghost predicate TakesAt(states: seq<System>, events: seq<Event>, k: int, key: Key, payload: Bytes) {
    && 0 <= k < |events| && k < |states| && events[k].TakeSection?
    && states[k].reader == Taking(key, payload)
    && key in states[k].s.pending && states[k].s.pending[key].acknowledged
  }

  ghost predicate LooksAt(states: seq<System>, events: seq<Event>, l: int, key: Key, payload: Bytes, ms: uint64) {
    && 0 <= l < |events| && l < |states| && events[l].LookSection?
    && states[l].reader == Looking(key, payload)
    && LookupIpc(states[l].b, key.handle, key.correlation) == Some(ms)
  }

  lemma ReaderOrigin(mac: Mac, x: System, e: Event, key: Key, payload: Bytes)
    requires Enabled(mac, x, e) && Carrying(Next(mac, x, e).reader, key, payload)
    ensures var r := Next(mac, x, e).reader;
      && (r.Looking? ==> x.reader == r
                         || (e.TakeSection? && x.reader == Taking(key, payload) && key in x.s.pending && x.s.pending[key].acknowledged))
      && (r.Delivering? ==> x.reader == r
                            || (e.LookSection? && x.reader == Looking(key, payload)
                                && LookupIpc(x.b, key.handle, key.correlation) == Some(r.expiresUnixMS)))
  {
    hide Decode, Deliver, Open, LookupIpc, OpStep, BeginAssign, Evicts, Scanned, BrokerRuns.Next, Foreign, HearAck;
    NextCases(mac, x, e);
    if OfOp(e) { OpLeaves(mac, x, e); }
  }

  lemma {:induction false} DeliveringHasLook(mac: Mac, states: seq<System>, events: seq<Event>, t: nat) returns (l: nat)
    requires Run(mac, states, events) && t < |states| && states[t].reader.Delivering?
    ensures var r := states[t].reader;
      l < t && LooksAt(states, events, l, r.key, r.payload, r.expiresUnixMS)
    ensures forall m :: l < m <= t ==> states[m].reader == states[t].reader
    decreases t
  {
    hide Next, Enabled, LookupIpc;
    assert states[t] == Next(mac, states[t - 1], events[t - 1]);
    ReaderOrigin(mac, states[t - 1], events[t - 1], states[t].reader.key, states[t].reader.payload);
    if states[t - 1].reader == states[t].reader {
      l := DeliveringHasLook(mac, states, events, t - 1);
    } else {
      l := t - 1;
    }
  }

  lemma {:induction false} CarryingHasTake(mac: Mac, states: seq<System>, events: seq<Event>, t: nat) returns (k: nat)
    requires Run(mac, states, events) && t < |states| && (states[t].reader.Looking? || states[t].reader.Delivering?)
    ensures k < t && TakesAt(states, events, k, states[t].reader.key, states[t].reader.payload)
    ensures forall m :: k < m <= t ==> Carrying(states[m].reader, states[t].reader.key, states[t].reader.payload)
    decreases t
  {
    hide Next, Enabled, LookupIpc;
    assert states[t] == Next(mac, states[t - 1], events[t - 1]);
    ReaderOrigin(mac, states[t - 1], events[t - 1], states[t].reader.key, states[t].reader.payload);
    if states[t - 1].reader.Looking? || states[t - 1].reader.Delivering? {
      k := CarryingHasTake(mac, states, events, t - 1);
    } else {
      k := t - 1;
    }
  }

  /** Step j queues frame f for the consumers under the session's generation. */
  ghost predicate Publishes(mac: Mac, states: seq<System>, events: seq<Event>, j: int, f: VerifiedFrame)
    requires Run(mac, states, events)
  {
    && 0 <= j < |events| && states[j + 1].b.frames == states[j].b.frames + [f]
    && f.generation == states[0].s.generation
  }

  /** Only the read loop publishes for the session. */
  lemma PublisherIsReader(mac: Mac, states: seq<System>, events: seq<Event>, j: int, f: VerifiedFrame)
    requires Run(mac, states, events) && Publishes(mac, states, events, j, f)
    ensures var x, e := states[j], events[j];
      && e.DeliverSection? && x.reader.Delivering? && x.s.generation == x.b.generation
      && x.reader.key.correlation in x.b.correlations
      && f == VerifiedFrame(x.s.generation, x.b.correlations[x.reader.key.correlation].handle, x.reader.key.correlation,
                            x.reader.payload, FromUnixMilli(ToSigned(x.reader.expiresUnixMS)))
      && Deliver(x.b, x.s.generation, f.correlation, f.frame, x.reader.expiresUnixMS, e.now).status == Accepted
  {
    hide SessionDrain.SysInv, Enabled, Next, BrokerEvent;
    SessionDrain.RunKeepsInv(mac, states, events, j);
    assert states[j + 1] == Next(mac, states[j], events[j]);
    BrokerStep(mac, states[j], events[j]);
    QueueingIsDelivering(states[j].b, BrokerEvent(states[j], events[j]), f);
    DeliveryIsReaders(mac, states[j], events[j]);
  }

  lemma QueueingIsDelivering(b: Broker, e: BrokerRuns.Event, f: VerifiedFrame)
    requires BrokerRuns.Enabled(b, e) && BrokerRuns.Next(b, e).b.frames == b.frames + [f]
    ensures e.Delivering? && BrokerRuns.Next(b, e).status == Accepted && e.generation == b.generation && e.c in b.correlations
    ensures f == VerifiedFrame(e.generation, b.correlations[e.c].handle, e.c, e.frame, FromUnixMilli(ToSigned(e.expiresUnixMS)))
  {
    hide Evicts, BeginAssign, LiveAt, FromUnixMilli, ToSigned, UnixMilli;
    assert BrokerRuns.Next(b, e).b.frames[|b.frames|] == f;
    if e.Beginning? { BeginKeepsFrames(b, e.a, e.now); }
  }

  lemma BeginKeepsFrames(b: Broker, a: ConnectionAssignment, now: Time)
    ensures BeginAssign(b, a, now).0.frames == b.frames
  {
    hide Assigning;
  }

  lemma DeliveryIsReaders(mac: Mac, x: System, e: Event)
    requires Enabled(mac, x, e) && BrokerEvent(x, e).Delivering?
    ensures if BrokerEvent(x, e).generation == x.s.generation then
              e.DeliverSection? && x.reader.Delivering?
              && BrokerEvent(x, e) == BrokerRuns.Event.Delivering(x.s.generation, x.reader.key.correlation, x.reader.payload, x.reader.expiresUnixMS, e.now)
            else true
  {
    hide Decode, Scanned, Evicts, BeginAssign, BrokerRuns.Enabled;
  }

  /** A frame is published for the session only after this sequence of steps: an assign call
      inserted its pair; a positive ACK for the pair was processed before the entry's deadline;
      the frame took that entry, still pending; and the broker's entry for the correlation named
      the packet's handle, and gave the expiry the frame carries. */
  lemma AckBeforePublication(mac: Mac, states: seq<System>, events: seq<Event>, j: nat, f: VerifiedFrame)
    returns (i: nat, a: nat, k: nat, l: nat)
    requires Run(mac, states, events) && Publishes(mac, states, events, j, f)
    ensures i < a < k < l < j && states[j].reader.Delivering?
    ensures var key := states[j].reader.key;
      && key.correlation == f.correlation && states[j].reader.payload == f.frame
      && InsertsAt(states[i], events[i], key)
      && AckedAt(states, events, a, key)
      && TakesAt(states, events, k, key, f.frame)
      && (forall m :: i < m <= k ==> key in states[m].s.pending)
      && (forall m :: k < m <= j ==> Carrying(states[m].reader, key, f.frame))
      && (forall m :: l < m <= j ==> states[m].reader == states[j].reader)
      && LooksAt(states, events, l, key, f.frame, states[j].reader.expiresUnixMS)
      && f.correlation in states[l].b.correlations
      && states[l].b.correlations[f.correlation].handle == key.handle
      && f.expiresAt == FromUnixMilli(UnixMilli(states[l].b.correlations[f.correlation].expiresAt))
  {
    hide Next, Enabled, InsertStage;
    PublisherIsReader(mac, states, events, j, f);
    l := DeliveringHasLook(mac, states, events, j);
    k := CarryingHasTake(mac, states, events, l);
    var key := states[j].reader.key;
    a := AcknowledgedHasOrigin(mac, states, events, k, key);
    i := PendingHasOrigin(mac, states, events, k, key);
    if i >= a {
      assert states[i + 1] == Next(mac, states[i], events[i]);
      EntryStep(mac, states[i], events[i], key);
      assert false;
    }
  }

  // ---------------------------------------------------------------- which handle is published

  /** The broker accepts an assignment of the correlation in this step. */
  predicate Assigns(x: System, e: Event, c: Correlation) {
    e.Begin? && e.a.correlation == c
  }

  /** If the entry of c under h is lost or altered, h is closed; and h is not opened. */
  predicate LosesHandle(b: Broker, after: Broker, h: uint64, c: Correlation) {
    && (h !in b.handles ==> h !in after.handles)
    && (c in b.correlations && b.correlations[c].handle == h ==>
          (c in after.correlations && after.correlations[c] == b.correlations[c]) || h !in after.handles)
  }

  /** While a pending entry's own handle is not reopened, losing the entry means losing the
      handle; and an unopened handle stays unopened. */
  lemma BrokerLosesHandle(b: Broker, e: BrokerRuns.Event, h: uint64, c: Correlation)
    requires Inv(b) && BrokerRuns.Enabled(b, e) && !e.Activating?
    requires !(e.Opening? && BrokerRuns.Next(b, e).status == Accepted)
    ensures LosesHandle(b, BrokerRuns.Next(b, e).b, h, c)
  {
    hide Evicts, Deliver, BeginAssign, Open;
    match e
    case Delivering(g, d, frame, ms, now) => DeliverLoses(b, g, d, frame, ms, now, h, c);
    case Beginning(a, now) => BeginLoses(b, a, now, h, c);
    case Opening(g, o, now, ev) => RefusedOpenLoses(b, g, o, now, ev, h, c);
    case _ => InvFacts(b);
  }

  lemma RefusedOpenLoses(b: Broker, g: uint64, o: uint64, now: Time, ev: Eviction, h: uint64, c: Correlation)
    requires Open(b, g, o, now, ev).status != Accepted
    ensures LosesHandle(b, Open(b, g, o, now, ev).b, h, c)
  {
  }

  lemma DeliverLoses(b: Broker, g: uint64, d: Correlation, frame: Bytes, ms: uint64, now: Time, h: uint64, c: Correlation)
    requires Inv(b)
    ensures LosesHandle(b, Deliver(b, g, d, frame, ms, now).b, h, c)
  {
    hide Inv, LiveAt, UnixMilli, FromUnixMilli, ToSigned;
    InvFacts(b);
  }

  lemma CloseLoses(b: Broker, g: uint64, handle: uint64, h: uint64, c: Correlation)
    ensures LosesHandle(b, CloseHandle(b, g, handle), h, c)
  {
  }

  lemma ClearLoses(b: Broker, handle: uint64, d: Correlation, h: uint64, c: Correlation)
    ensures LosesHandle(b, ClearAssignment(b, handle, d), h, c)
  {
  }

  lemma BeginOutcomes(b: Broker, a: ConnectionAssignment, now: Time)
    ensures var after := BeginAssign(b, a, now).0;
      || after == b || after == CloseHandle(b, a.generation, a.handle) || after == ClearAssignment(b, a.handle, a.correlation)
      || (a.correlation !in b.correlations
          && after == b.(correlations := b.correlations[a.correlation := Pending(a.handle, a.correlation, a.expiresAt)]))
  {
    hide LiveAt, Assigning, CloseHandle, ClearAssignment;
  }

  lemma BeginLoses(b: Broker, a: ConnectionAssignment, now: Time, h: uint64, c: Correlation)
    ensures LosesHandle(b, BeginAssign(b, a, now).0, h, c)
  {
    CloseLoses(b, a.generation, a.handle, h, c);
    ClearLoses(b, a.handle, a.correlation, h, c);
    BeginOutcomes(b, a, now);
    hide BeginAssign, CloseHandle, ClearAssignment;
  }

  /** A generation once left is never entered again. */
  lemma {:induction false} GenerationHeld(mac: Mac, states: seq<System>, events: seq<Event>, m: nat, j: nat)
    requires Run(mac, states, events) && m <= j < |states| && states[j].b.generation == states[0].s.generation
    ensures states[m].b.generation == states[0].s.generation
    ensures forall k :: m <= k < j && events[k].Elsewhere? ==> !events[k].e.Activating?
    decreases j
  {
    hide Next, Enabled, SessionDrain.SysInv;
    if m < j {
      assert states[j] == Next(mac, states[j - 1], events[j - 1]);
      SessionDrain.RunKeepsInv(mac, states, events, j - 1);
      GenerationStep(mac, states[j - 1], events[j - 1]);
      GenerationHeld(mac, states, events, m, j - 1);
    }
  }

  lemma GenerationStep(mac: Mac, x: System, e: Event)
    requires Enabled(mac, x, e) && Next(mac, x, e).b.generation == x.s.generation
    ensures x.b.generation == x.s.generation && !(e.Elsewhere? && e.e.Activating?)
  {
    hide Next, Enabled;
    BrokerStep(mac, x, e);
    if BrokerEvent(x, e).Activating? {
      ActivationIsForeign(mac, x, e);
    } else {
      GenerationKept(x.b, BrokerEvent(x, e));
    }
  }

  lemma ActivationIsForeign(mac: Mac, x: System, e: Event)
    requires Enabled(mac, x, e) && BrokerEvent(x, e).Activating?
    ensures BrokerEvent(x, e).generation != x.s.generation
  {
    hide Decode, Scanned, Evicts, BeginAssign, BrokerRuns.Enabled;
  }

  lemma GenerationKept(b: Broker, e: BrokerRuns.Event)
    requires BrokerRuns.Enabled(b, e) && !e.Activating?
    ensures BrokerRuns.Next(b, e).b.generation == b.generation
  {
    hide Evicts, Assigning, LiveAt, UnixMilli, FromUnixMilli, ToSigned;
  }

  /** Between the two sections: the entry stands with no other assignment, or its handle is gone. */
  ghost predicate Window(states: seq<System>, events: seq<Event>, l: int, m: int, h: uint64, c: Correlation) {
    && 0 <= l < m < |states| && m <= |events|
    && (|| (c in states[m].b.correlations && states[m].b.correlations[c].handle == h)
        || h !in states[m].b.handles)
    && ((forall k :: l < k < m ==> !Assigns(states[k], events[k], c)) && c in states[m].b.correlations ==>
          states[m].b.correlations[c].handle == h)
    && (c in states[m].b.correlations && states[m].b.correlations[c].handle == h ==>
          forall k :: l < k < m ==> !Assigns(states[k], events[k], c))
  }

  lemma WindowStep(mac: Mac, states: seq<System>, events: seq<Event>, l: nat, m: nat, h: uint64, c: Correlation)
    requires Run(mac, states, events) && m < |events| && Window(states, events, l, m, h, c)
    requires states[m].b.generation == states[0].s.generation && states[m].reader.Delivering? && states[m + 1].reader == states[m].reader
    requires !(events[m].Elsewhere? && events[m].e.Activating?)
    ensures Window(states, events, l, m + 1, h, c)
  {
    hide Next, Enabled, SessionDrain.DrainInv, SessionDrain.OpsWellFormed, Inv, BrokerEvent, BrokerRuns.Next, BrokerRuns.Enabled;
    var x, e := states[m], events[m];
    SessionDrain.RunKeepsInv(mac, states, events, m);
    assert states[m + 1] == Next(mac, x, e);
    BrokerStep(mac, x, e);
    StepIsNoOpen(mac, x, e);
    BrokerLosesHandle(x.b, BrokerEvent(x, e), h, c);
    if c in states[m + 1].b.correlations { CorrelationStep(mac, x, e, c); }
  }

  /** No handle is opened while the read loop delivers. */
  lemma StepIsNoOpen(mac: Mac, x: System, e: Event)
    requires Enabled(mac, x, e) && x.reader.Delivering? && x.b.generation == x.s.generation
    requires !(e.Elsewhere? && e.e.Activating?)
    ensures var f := BrokerEvent(x, e);
      !f.Activating? && !(f.Opening? && BrokerRuns.Next(x.b, f).status == Accepted)
  {
    hide Decode, Scanned, Evicts, BeginAssign, BrokerRuns.Enabled;
  }

  lemma CorrelationStep(mac: Mac, x: System, e: Event, c: Correlation)
    requires Enabled(mac, x, e) && x.b.generation == x.s.generation && !(e.Elsewhere? && e.e.Activating?)
    requires c in Next(mac, x, e).b.correlations
    ensures if Assigns(x, e, c) then c !in x.b.correlations && e.a.handle in x.b.handles
                                     && Next(mac, x, e).b.correlations[c].handle == e.a.handle
            else c in x.b.correlations && Next(mac, x, e).b.correlations[c] == x.b.correlations[c]
  {
    hide Next, Enabled, BrokerRuns.Next, BrokerRuns.Enabled;
    BrokerStep(mac, x, e);
    BeginIsAssign(mac, x, e);
    if Assigns(x, e, c) {
      AssignedTo(mac, x, e);
    } else {
      BrokerRuns.OldPendingUnchanged(x.b, BrokerEvent(x, e), c);
    }
  }

  lemma AssignedTo(mac: Mac, x: System, e: Event)
    requires Enabled(mac, x, e) && e.Begin?
    ensures Next(mac, x, e).b.correlations == x.b.correlations[e.a.correlation := Pending(e.a.handle, e.a.correlation, e.a.expiresAt)]
  {
    hide Assigning, LiveAt;
  }

  lemma BeginIsAssign(mac: Mac, x: System, e: Event)
    requires Enabled(mac, x, e) && x.b.generation == x.s.generation
    ensures var f := BrokerEvent(x, e);
      && (f.Beginning? && BeginAssign(x.b, f.a, f.now).1.CallNative? ==> e.Begin? && f.a == e.a)
      && (e.Begin? ==> e.a.correlation !in x.b.correlations && e.a.handle in x.b.handles)
  {
    hide Decode, Scanned, Evicts, Assigning, BrokerRuns.Enabled, LiveAt;
  }

  lemma LookingChangesNoBroker(mac: Mac, x: System, e: Event)
    requires e.LookSection?
    ensures Next(mac, x, e).b == x.b
  {
  }

  lemma WindowOpens(states: seq<System>, events: seq<Event>, l: nat, h: uint64, c: Correlation)
    requires l + 1 < |states| && l < |events| && c in states[l + 1].b.correlations && states[l + 1].b.correlations[c].handle == h
    ensures Window(states, events, l, l + 1, h, c)
  {
  }

  lemma {:induction false} WindowHolds(mac: Mac, states: seq<System>, events: seq<Event>, l: nat, m: nat, j: nat, key: Key, payload: Bytes, ms: uint64)
    requires Run(mac, states, events) && l < m <= j < |states| && LooksAt(states, events, l, key, payload, ms)
    requires states[j].b.generation == states[0].s.generation
    requires forall k :: l < k <= j ==> states[k].reader == Delivering(key, payload, ms)
    ensures Window(states, events, l, m, key.handle, key.correlation)
    decreases m
  {
    hide Next, Enabled, Window, Started;
    GenerationHeld(mac, states, events, l, j);
    if m == l + 1 {
      assert states[l + 1] == Next(mac, states[l], events[l]);
      LookingChangesNoBroker(mac, states[l], events[l]);
      WindowOpens(states, events, l, key.handle, key.correlation);
    } else {
      WindowHolds(mac, states, events, l, m - 1, j, key, payload, ms);
      GenerationHeld(mac, states, events, m - 1, j);
      WindowStep(mac, states, events, l, m - 1, key.handle, key.correlation);
    }
  }

  /** deliverIPCFrame looks up the broker's entry in one section and consumes it in another. The
      frame is published under the acknowledged handle if and only if the broker accepted no
      assignment of the correlation between the two. */
  lemma PublishedHandle(mac: Mac, states: seq<System>, events: seq<Event>, j: nat, f: VerifiedFrame, l: nat)
    requires Run(mac, states, events) && Publishes(mac, states, events, j, f) && l < j
    requires states[j].reader.Delivering?
    requires LooksAt(states, events, l, states[j].reader.key, states[j].reader.payload, states[j].reader.expiresUnixMS)
    requires forall m :: l < m <= j ==> states[m].reader == states[j].reader
    ensures f.handle == states[j].reader.key.handle <==> forall k :: l < k < j ==> !Assigns(states[k], events[k], f.correlation)
  {
    hide Next, Enabled, LooksAt;
    PublisherIsReader(mac, states, events, j, f);
    var r := states[j].reader;
    SessionDrain.RunKeepsInv(mac, states, events, j);
    WindowHolds(mac, states, events, l, j, j, r.key, r.payload, r.expiresUnixMS);
  }

  /** If the correlation was not reassigned in that window, the pair the frame is published under
      is one for which a positive ACK was processed in time. */
  lemma PublishedPairWasAcknowledged(mac: Mac, states: seq<System>, events: seq<Event>, j: nat, f: VerifiedFrame) returns (a: nat, l: nat)
    requires Run(mac, states, events) && Publishes(mac, states, events, j, f)
    ensures a < l < j && events[l].LookSection?
    ensures (forall k :: l < k < j ==> !Assigns(states[k], events[k], f.correlation)) ==>
              AckedAt(states, events, a, Key(f.handle, f.correlation))
  {
    hide Next, Enabled, AckedAt, InsertsAt, TakesAt;
    var i, k: nat;
    i, a, k, l := AckBeforePublication(mac, states, events, j, f);
    PublishedHandle(mac, states, events, j, f, l);
  }

  // ---------------------------------------------------------------- take-once

  /** Step i inserted the entry that step k took for the frame being delivered at step j. */
  ghost predicate Spends(states: seq<System>, events: seq<Event>, j: int, i: int, k: nat) {
    && 0 <= i < k < j < |states| && i < |events| && states[j].reader.Delivering?
    && var r := states[j].reader;
    && InsertsAt(states[i], events[i], r.key) && TakesAt(states, events, k, r.key, r.payload)
    && (forall m :: i < m <= k ==> r.key in states[m].s.pending)
    && (forall m :: k < m <= j ==> Carrying(states[m].reader, r.key, r.payload))
  }

  ghost predicate Redeems(states: seq<System>, events: seq<Event>, j: int, i: int) {
    exists k: nat :: Spends(states, events, j, i, k)
  }

  ghost predicate PublishesAt(mac: Mac, states: seq<System>, events: seq<Event>, j: int)
    requires Run(mac, states, events)
  {
    exists f :: Publishes(mac, states, events, j, f)
  }

  /** One insertion is spent on one delivery. */
  lemma SpentOnce(mac: Mac, states: seq<System>, events: seq<Event>, i: nat, j: nat, k: nat, j': nat, k': nat)
    requires Run(mac, states, events) && j < j'
    requires PublishesAt(mac, states, events, j) && Spends(states, events, j, i, k)
    ensures !Spends(states, events, j', i, k')
  {
    hide Next, Enabled, InsertsAt, Publishes;
    if Spends(states, events, j', i, k') {
      DeliveredThenReading(mac, states, events, j);
      TakenIsGone(mac, states, events, k, states[j].reader.key, states[j].reader.payload);
      assert InsertsAt(states[i], events[i], states[j].reader.key) && InsertsAt(states[i], events[i], states[j'].reader.key);
      SameInsertion(states[i], events[i], states[j].reader.key, states[j'].reader.key);
      assert false;
    }
  }

  lemma SameInsertion(x: System, e: Event, key: Key, other: Key)
    requires InsertsAt(x, e, key) && InsertsAt(x, e, other)
    ensures key == other
  {
  }

  lemma DeliveredThenReading(mac: Mac, states: seq<System>, events: seq<Event>, j: nat)
    requires Run(mac, states, events) && PublishesAt(mac, states, events, j)
    ensures j < |events| && states[j + 1].reader == Reading
  {
    hide Next, Enabled, Deliver;
    var f :| Publishes(mac, states, events, j, f);
    PublisherIsReader(mac, states, events, j, f);
    assert states[j + 1] == Next(mac, states[j], events[j]);
    DeliveredReads(mac, states[j], events[j]);
  }

  lemma DeliveredReads(mac: Mac, x: System, e: Event)
    requires e.DeliverSection? && x.reader.Delivering?
    requires Deliver(x.b, x.s.generation, x.reader.key.correlation, x.reader.payload, x.reader.expiresUnixMS, e.now).status == Accepted
    ensures Next(mac, x, e).reader == Reading
  {
    hide Deliver;
  }

  lemma TakenIsGone(mac: Mac, states: seq<System>, events: seq<Event>, k: nat, key: Key, payload: Bytes)
    requires Run(mac, states, events) && TakesAt(states, events, k, key, payload)
    ensures key !in states[k + 1].s.pending
  {
    hide Enabled, Deliver, OpStep, Decode;
    assert states[k + 1] == Next(mac, states[k], events[k]);
  }

  /** The insertion a publication redeems. */
  ghost function Redeemed(mac: Mac, states: seq<System>, events: seq<Event>, j: nat): (i: nat)
    requires Run(mac, states, events) && PublishesAt(mac, states, events, j)
    ensures Redeems(states, events, j, i)
  {
    hide Run;
    assert exists i: nat :: Redeems(states, events, j, i) by {
      var f :| Publishes(mac, states, events, j, f);
      var i, a, k, l := AckBeforePublication(mac, states, events, j, f);
      assert Spends(states, events, j, i, k);
      assert Redeems(states, events, j, i);
    }
    var i: nat :| Redeems(states, events, j, i);
    i
  }

  ghost predicate RedeemsInjectively(mac: Mac, states: seq<System>, events: seq<Event>, redeemed: map<int, int>)
    requires Run(mac, states, events)
  {
    && (forall j :: PublishesAt(mac, states, events, j) ==> j in redeemed && Redeems(states, events, j, redeemed[j]))
    && (forall j, j' :: j in redeemed && j' in redeemed && j != j' ==> redeemed[j] != redeemed[j'])
  }

  /** Take-once for the session: distinct publications redeem distinct insertions by assign calls,
      each acknowledged before it was spent. */
  lemma TakeOnce(mac: Mac, states: seq<System>, events: seq<Event>)
    requires Run(mac, states, events)
    ensures exists redeemed :: RedeemsInjectively(mac, states, events, redeemed)
  {
    hide Run, Spends;
    var redeemed := map j: nat | j < |events| && PublishesAt(mac, states, events, j) :: Redeemed(mac, states, events, j);
    forall j, j' | j in redeemed && j' in redeemed && j < j' ensures redeemed[j] != redeemed[j'] {
      NeverRedeemedTwice(mac, states, events, j, j', redeemed[j]);
    }
    assert RedeemsInjectively(mac, states, events, redeemed);
  }

  lemma NeverRedeemedTwice(mac: Mac, states: seq<System>, events: seq<Event>, j: nat, j': nat, i: nat)
    requires Run(mac, states, events) && j < j'
    requires PublishesAt(mac, states, events, j) && Redeems(states, events, j, i)
    ensures !Redeems(states, events, j', i)
  {
    hide Run, Spends, Publishes;
    var k: nat :| Spends(states, events, j, i, k);
    forall k': nat ensures !Spends(states, events, j', i, k') {
      SpentOnce(mac, states, events, i, j, k, j', k');
    }
  }

  // ---------------------------------------------------------------- rejected joins

  /** No assign call inserts the pair from step i up to step u. */
  ghost predicate NotReinserted(states: seq<System>, events: seq<Event>, i: int, u: int, key: Key) {
    forall k :: i <= k < u && 0 <= k < |events| && k < |states| ==> !InsertsAt(states[k], events[k], key)
  }

  lemma {:induction false} StaysAbsent(mac: Mac, states: seq<System>, events: seq<Event>, i: nat, u: nat, key: Key)
    requires Run(mac, states, events) && i <= u < |states| && key !in states[i].s.pending
    requires NotReinserted(states, events, i, u, key)
    ensures key !in states[u].s.pending
    decreases u
  {
    hide Next, Enabled, InsertStage, InsertsAt;
    if i < u {
      StaysAbsent(mac, states, events, i, u - 1, key);
      assert states[u] == Next(mac, states[u - 1], events[u - 1]);
      if key in states[u].s.pending { EntryStep(mac, states[u - 1], events[u - 1], key); }
    }
  }

  /** While a pair is not pending, an ACK for it or a verified frame for it changes nothing: the
      read loop just goes on reading. */
  lemma LatePacketIgnored(mac: Mac, x: System, e: Event, key: Key)
    requires key !in x.s.pending
    requires (e.AckSection? && x.reader.Acking? && x.reader.key == key) || (e.TakeSection? && x.reader.Taking? && x.reader.key == key)
    ensures Next(mac, x, e) == x.(reader := Reading)
  {
    assert x.s.pending - {key} == x.s.pending;
  }

  /** Once removed from the table (by a negative ACK, a late one, the timer or its own call), a
      pair stays removed until some assign inserts it again. Meanwhile its packets change nothing,
      close nothing and touch no other pair, and no frame for it is published, unless the read
      loop had already taken the pair's entry for it. */
  lemma RejectedStaysRejected(mac: Mac, states: seq<System>, events: seq<Event>, i: nat, u: nat, key: Key)
    requires Run(mac, states, events) && i <= u < |events| && key !in states[i].s.pending
    requires NotReinserted(states, events, i, u, key)
    ensures key !in states[u].s.pending
    ensures (events[u].AckSection? && states[u].reader.Acking? && states[u].reader.key == key)
            || (events[u].TakeSection? && states[u].reader.Taking? && states[u].reader.key == key) ==>
              states[u + 1] == states[u].(reader := Reading)
    ensures forall f :: Publishes(mac, states, events, u, f) && states[u].reader.Delivering? && states[u].reader.key == key ==>
              Carrying(states[i].reader, key, f.frame)
  {
    hide Next, Enabled, InsertsAt;
    StaysAbsent(mac, states, events, i, u, key);
    assert states[u + 1] == Next(mac, states[u], events[u]);
    if (events[u].AckSection? && states[u].reader.Acking? && states[u].reader.key == key)
       || (events[u].TakeSection? && states[u].reader.Taking? && states[u].reader.key == key) {
      LatePacketIgnored(mac, states[u], events[u], key);
    }
    forall f | Publishes(mac, states, events, u, f) && states[u].reader.Delivering? && states[u].reader.key == key
      ensures Carrying(states[i].reader, key, f.frame)
    {
      PublisherIsReader(mac, states, events, u, f);
      var k := CarryingHasTake(mac, states, events, u);
      if k >= i {
        assert NotReinserted(states, events, i, k, key);
        StaysAbsent(mac, states, events, i, k, key);
        assert false;
      }
    }
  }

  /** An ACK, in every run: it removes its pair exactly if it came past the deadline, or was negative
      with no positive one before it; it ends the session exactly if it is a second verdict on a
      pair still in time. */
  lemma AckOutcome(mac: Mac, states: seq<System>, events: seq<Event>, i: nat, key: Key, status: byte)
    requires Run(mac, states, events) && i < |events| && events[i].AckSection? && states[i].reader == Acking(key, status)
    ensures key !in states[i + 1].s.pending <==>
      key !in states[i].s.pending || states[i].s.pending[key].expiresAt <= events[i].now
      || (status != ACK_POSITIVE && !states[i].s.pending[key].acknowledged)
    ensures states[i + 1].reader == Failing <==>
      key in states[i].s.pending && events[i].now < states[i].s.pending[key].expiresAt && states[i].s.pending[key].acknowledged
  {
    assert states[i + 1] == Next(mac, states[i], events[i]);
    hide Next, Enabled;
    SessionEffects.AckStep(mac, states[i], events[i].now, key, status);
  }

  /** After a rejecting ACK in particular, no frame for the pair is published at all. */
  lemma NegativeAckPublishesNothing(mac: Mac, states: seq<System>, events: seq<Event>, i: nat, u: nat, key: Key, status: byte, f: VerifiedFrame)
    requires Run(mac, states, events) && i < u < |events|
    requires events[i].AckSection? && states[i].reader == Acking(key, status)
    requires key in states[i].s.pending ==>
      states[i].s.pending[key].expiresAt <= events[i].now
      || (status != ACK_POSITIVE && !states[i].s.pending[key].acknowledged)
    requires NotReinserted(states, events, i + 1, u, key)
    ensures !(Publishes(mac, states, events, u, f) && states[u].reader.Delivering? && states[u].reader.key == key)
  {
    AckOutcome(mac, states, events, i, key, status);
    RejectedStaysRejected(mac, states, events, i + 1, u, key);
    assert states[i + 1] == Next(mac, states[i], events[i]);
    hide Next, Enabled;
    SessionEffects.AckStep(mac, states[i], events[i].now, key, status);
  }

  // ---------------------------------------------------------------- after close

  /** From the step that deactivates the broker on, in every later state, nothing of the session's
      generation is open, pending or queued, whatever else happens to the broker. */
  lemma {:induction false} ClosedIsGone(mac: Mac, states: seq<System>, events: seq<Event>, n: nat)
    requires Run(mac, states, events) && n < |states| && states[n].closing >= DEACTIVATED
    ensures BrokerRuns.Gone(states[n].b, states[0].s.generation)
  {
    hide Next, Enabled, SessionDrain.SysInv, BrokerRuns.Gone, BrokerRuns.Current;
    NotCurrentOnceClosed(mac, states, events, n);
    SessionDrain.RunKeepsInv(mac, states, events, n);
    BrokerInvHolds(states[n], states[0].key);
    BrokerRuns.NotCurrentIsGone(states[n].b, states[0].s.generation);
  }

  lemma BrokerInvHolds(x: System, secret: Bytes)
    requires SessionDrain.SysInv(x, secret)
    ensures Inv(x.b)
  {
  }

  lemma {:induction false} NotCurrentOnceClosed(mac: Mac, states: seq<System>, events: seq<Event>, n: nat)
    requires Run(mac, states, events) && n < |states| && states[n].closing >= DEACTIVATED
    ensures !BrokerRuns.Current(states[n].b, states[0].s.generation)
  {
    hide Next, Enabled, SessionDrain.SysInv, BrokerRuns.Current;
    var x, e := states[n - 1], events[n - 1];
    assert states[n] == Next(mac, x, e);
    SessionDrain.RunKeepsInv(mac, states, events, n - 1);
    if x.closing >= DEACTIVATED {
      NotCurrentOnceClosed(mac, states, events, n - 1);
      BrokerStep(mac, x, e);
      if BrokerEvent(x, e).Activating? { ActivationIsForeign(mac, x, e); }
      BrokerRuns.NeverCurrentAgain(x.b, BrokerEvent(x, e), x.s.generation);
    } else {
      DeactivatingStep(mac, x, e);
    }
  }

  lemma DeactivatingStep(mac: Mac, x: System, e: Event)
    requires x.closing < DEACTIVATED <= Next(mac, x, e).closing
    ensures !BrokerRuns.Current(Next(mac, x, e).b, x.s.generation)
  {
    hide ReaderStep, OpStep, BeginAssign, BrokerRuns.Next;
    if OfReader(e) { ReaderLeaves(mac, x, e); }
    if OfOp(e) && e.id in x.ops { OpLeaves(mac, x, e); }
  }
}
