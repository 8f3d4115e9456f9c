/** What an assign call may report: success only after a positive ACK for its own pair. */
module SessionOutcome {
  import opened Abi
  import opened BrokerState
  import opened PacketCodec
  import opened SessionState
  import opened SessionSystem
  import opened SessionRuns
  import SessionDrain
  import BrokerRuns

  /** The call's result is decided, and it is success. */
  predicate Succeeding(x: System, id: nat) {
    id in x.ops && var stage := x.ops[id].stage;
      (stage.Removing? || stage.Leaving? || stage.Returned?) && stage.rc == ASSIGNMENT_OK
  }

  /** The read loop is about to send, or has sent, a positive status to this call. */
  predicate Promised(x: System, id: nat) {
    x.reader == Telling(id, ACK_POSITIVE) || (id in x.s.mail && x.s.mail[id] == ACK_POSITIVE)
  }

  predicate PromisesNow(x: System, e: Event, id: nat) {
    && e.AckSection? && x.reader.Acking? && x.reader.status == ACK_POSITIVE
    && x.reader.key in x.s.pending && x.s.pending[x.reader.key].waiter == id
    && e.now < x.s.pending[x.reader.key].expiresAt
  }

  lemma NothingAtStart(x: System, id: nat)
    requires Started(x)
    ensures !Succeeding(x, id) && !Promised(x, id)
  {
  }

  lemma SucceedingStep(mac: Mac, x: System, e: Event, id: nat)
    requires Enabled(mac, x, e) && Succeeding(Next(mac, x, e), id)
    ensures id in x.ops || e.Begin?
    ensures Succeeding(x, id)
            || (id in x.ops && e.HearOp? && e.id == id && Promised(x, id) && e.now < x.ops[id].a.expiresAt)
  {
    hide Next, Enabled, ReaderStep, OpStep;
    NextCases(mac, x, e);
    if OfReader(e) {
      ReaderLeaves(mac, x, e);
    } else if OfOp(e) {
      OpLeaves(mac, x, e);
      SessionDrain.StageBefore(mac, x, e);
      if e.id == id { OpSucceeds(mac, x, e); }
    } else {
      OtherSucceeds(mac, x, e, id);
    }
  }

  lemma OpSucceeds(mac: Mac, x: System, e: Event)
    requires OfOp(e) && Enabled(mac, x, e) && e.id in x.ops && Succeeding(OpStep(mac, x, e), e.id)
    ensures Succeeding(x, e.id) || (e.HearOp? && Promised(x, e.id) && e.now < x.ops[e.id].a.expiresAt)
  {
    hide FinishAssign, LiveAt, Write, Decode, Scanned, Evicts, BeginAssign, Foreign, BrokerRuns.Enabled;
  }

  lemma OtherSucceeds(mac: Mac, x: System, e: Event, id: nat)
    requires !OfOp(e) && !OfReader(e) && Succeeding(Next(mac, x, e), id)
    ensures Succeeding(x, id)
  {
    hide BrokerRuns.Next, BeginAssign, ExpirePending;
  }

  lemma MailOnlyShrinks(mac: Mac, x: System, e: Event)
    requires OfOp(e) && e.id in x.ops
    ensures forall w :: w in OpStep(mac, x, e).s.mail ==> w in x.s.mail && OpStep(mac, x, e).s.mail[w] == x.s.mail[w]
  {
    hide FinishAssign, LiveAt, Layout, HeardStage, InsertStage;
  }

  lemma PromisedStep(mac: Mac, x: System, e: Event, id: nat)
    requires Enabled(mac, x, e) && Promised(Next(mac, x, e), id)
    ensures Promised(x, id) || PromisesNow(x, e, id)
  {
    hide Next, Enabled, ReaderStep, OpStep;
    NextCases(mac, x, e);
    if OfReader(e) {
      ReaderPromises(mac, x, e, id);
    } else if OfOp(e) {
      OpLeaves(mac, x, e);
      MailOnlyShrinks(mac, x, e);
    } else {
      OtherPromises(mac, x, e, id);
    }
  }

  lemma ReaderPromises(mac: Mac, x: System, e: Event, id: nat)
    requires OfReader(e) && Promised(ReaderStep(mac, x, e), id)
    ensures Promised(x, id) || PromisesNow(x, e, id)
  {
    hide Decode, Deliver, Open, LookupIpc;
  }

  lemma OtherPromises(mac: Mac, x: System, e: Event, id: nat)
    requires !OfOp(e) && !OfReader(e) && Promised(Next(mac, x, e), id)
    ensures Promised(x, id)
  {
    hide BrokerRuns.Next, BeginAssign;
  }

  lemma {:induction false} PromisedHasOrigin(mac: Mac, states: seq<System>, events: seq<Event>, t: nat, id: nat) returns (i: nat)
    requires Run(mac, states, events) && t < |states| && Promised(states[t], id)
    ensures i < t && PromisesNow(states[i], events[i], id)
    decreases t
  {
    hide Next, Enabled, Promised, PromisesNow;
    NothingAtStart(states[0], id);
    assert states[t] == Next(mac, states[t - 1], events[t - 1]);
    PromisedStep(mac, states[t - 1], events[t - 1], id);
    if Promised(states[t - 1], id) {
      i := PromisedHasOrigin(mac, states, events, t - 1, id);
    } else {
      i := t - 1;
    }
  }

  /** A number names one call for good. */
  lemma {:induction false} SameCall(mac: Mac, states: seq<System>, events: seq<Event>, i: nat, t: nat, id: nat)
    requires Run(mac, states, events) && i <= t < |states| && id in states[i].ops
    ensures id < states[t].issued && (id in states[t].ops ==> states[t].ops[id].a == states[i].ops[id].a)
    decreases t
  {
    hide Next, Enabled, SessionDrain.DrainInv, Inv;
    if i < t {
      SameCall(mac, states, events, i, t - 1, id);
      var x, e := states[t - 1], events[t - 1];
      assert states[t] == Next(mac, x, e);
      SessionDrain.RunKeepsInv(mac, states, events, t - 1);
      CallsStep(mac, x, e);
    } else {
      SessionDrain.RunKeepsInv(mac, states, events, t);
    }
  }

  lemma CallsStep(mac: Mac, x: System, e: Event)
    requires Enabled(mac, x, e) && Inv(x.b)
    ensures x.issued <= Next(mac, x, e).issued
    ensures forall id :: id in Next(mac, x, e).ops && id < x.issued ==> id in x.ops && Next(mac, x, e).ops[id].a == x.ops[id].a
  {
    hide Next, Enabled, OpStep, ReaderStep, Inv;
    NextCases(mac, x, e);
    if OfReader(e) {
      ReaderLeaves(mac, x, e);
    } else if OfOp(e) {
      OpLeaves(mac, x, e);
    } else {
      SessionDrain.OthersLeave(mac, x, e);
    }
  }

  /** An assign call reports success only if a positive ACK for its own pair was processed, while
      its own entry was pending and before its deadline. */
  lemma SuccessWasAcknowledged(mac: Mac, states: seq<System>, events: seq<Event>, t: nat, id: nat) returns (i: nat)
    requires Run(mac, states, events) && t < |states| && Succeeding(states[t], id)
    ensures i < t && AckedAt(states, events, i, KeyOf(states[t].ops[id].a))
    ensures states[i].s.pending[KeyOf(states[t].ops[id].a)].waiter == id
  {
    assert id in states[t].ops;
    hide Next, Enabled, Succeeding, InsertStage;
    var m := SucceedingHasOrigin(mac, states, events, t, id);
    i := PromisedHasOrigin(mac, states, events, m, id);
    var key := states[i].reader.key;
    var n := PendingHasOrigin(mac, states, events, i, key);
    SameCall(mac, states, events, n, t, id);
  }

  lemma {:induction false} SucceedingHasOrigin(mac: Mac, states: seq<System>, events: seq<Event>, t: nat, id: nat) returns (m: nat)
    requires Run(mac, states, events) && t < |states| && Succeeding(states[t], id)
    ensures m < t && Promised(states[m], id) && id in states[m].ops
    ensures events[m].HearOp? && events[m].id == id && events[m].now < states[m].ops[id].a.expiresAt
    decreases t
  {
    hide Next, Enabled, Succeeding, Promised;
    NothingAtStart(states[0], id);
    assert states[t] == Next(mac, states[t - 1], events[t - 1]);
    SucceedingStep(mac, states[t - 1], events[t - 1], id);
    if Succeeding(states[t - 1], id) {
      m := SucceedingHasOrigin(mac, states, events, t - 1, id);
    } else {
      m := t - 1;
    }
  }
}
