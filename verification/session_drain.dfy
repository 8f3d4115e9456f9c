/** Shutting the session down: close and wait against assign calls, the read loop and timers. */
module SessionDrain {
  import opened Abi
  import opened BrokerState
  import opened PacketCodec
  import opened SessionState
  import opened SessionSystem
  import BrokerRuns


  /** The calls opWG counts. */
  function Counted(ops: map<nat, Op>): set<nat> {
    set id | id in ops && !ops[id].stage.Called? && !ops[id].stage.Returned?
  }

  /** The call that inserted this entry has yet to remove it. */
  predicate Held(x: System, k: Key)
    requires k in x.s.pending
  {
    var w := x.s.pending[k].waiter;
    && w in x.ops && KeyOf(x.ops[w].a) == k
    && (x.ops[w].stage == Inserted || x.ops[w].stage == WriteFailed || x.ops[w].stage.Removing?)
  }

  ghost predicate OpsWellFormed(x: System) {
    forall id :: id in x.ops ==> id < x.issued && x.ops[id].a.handle != 0 && x.ops[id].a.generation == x.s.generation
  }

  ghost predicate DrainInv(x: System, secret: Bytes) {
    && x.closing <= CLEARED && x.waited <= KEY_ZEROED
    && (x.s.accepting <==> x.closing == OPEN)
    && x.s.inFlight == |Counted(x.ops)|
    && (x.reader == Done ==> x.closing == CLEARED)
    && (x.waited >= READER_JOINED ==> x.reader == Done)
    && (x.waited >= OPERATIONS_JOINED ==> x.s.inFlight == 0)
    && x.key == (if x.waited == KEY_ZEROED then Zeros(|secret|) else secret)
    && (x.closing == CLEARED ==> forall k :: k in x.s.pending ==> Held(x, k))
  }

  ghost predicate SysInv(x: System, secret: Bytes) {
    Inv(x.b) && OpsWellFormed(x) && DrainInv(x, secret)
  }

  predicate Counts(stage: Stage) {
    !stage.Called? && !stage.Returned?
  }

  lemma CountedIs(ops: map<nat, Op>, id: nat)
    ensures id in Counted(ops) <==> id in ops && Counts(ops[id].stage)
  {
  }

  lemma CountedWithout(ops: map<nat, Op>, id: nat)
    requires id !in Counted(ops)
    ensures Counted(ops - {id}) == Counted(ops)
  {
  }

  /** How a change of one call's stage changes the count. */
  lemma CountedAfter(ops: map<nat, Op>, id: nat, op: Op)
    ensures |Counted(ops[id := op])| == |Counted(ops)|
              + (if Counts(op.stage) && id !in Counted(ops) then 1 else if !Counts(op.stage) && id in Counted(ops) then -1 else 0)
  {
    assert Counted(ops[id := op]) == if Counts(op.stage) then Counted(ops) + {id} else Counted(ops) - {id};
  }

  lemma OpMovesEntry(mac: Mac, x: System, e: Event)
    requires OfOp(e) && e.id in x.ops && Enabled(mac, x, e)
    ensures var y := OpStep(mac, x, e);
      && (forall k :: k in y.s.pending ==>
            if e.InsertOp? && k !in x.s.pending then k == KeyOf(x.ops[e.id].a) && y.s.pending[k].waiter == e.id
                                                     && y.ops[e.id].stage == Inserted
            else k in x.s.pending && y.s.pending[k] == x.s.pending[k])
      && (e.RemoveOp? ==> KeyOf(x.ops[e.id].a) !in y.s.pending)
  {
    hide FinishAssign, Layout, LiveAt;
  }

  lemma OpMovesCount(mac: Mac, x: System, e: Event)
    requires OfOp(e) && e.id in x.ops && Enabled(mac, x, e) && OpsWellFormed(x)
    ensures var y := OpStep(mac, x, e);
      && y.s.inFlight - x.s.inFlight == (if e.EnterOp? && x.s.accepting then 1 else if e.LeaveOp? then -1 else 0)
      && (if e.FinishOp? then y.ops == x.ops - {e.id}
          else && Counts(y.ops[e.id].stage) == (if e.EnterOp? then x.s.accepting else !e.LeaveOp?)
               && (e.WriteOp? ==> (y.ops[e.id].stage == Waiting ==> x.closing < CONNECTION_CLOSED))
               && ((e.FailedOp? || e.GiveUp? || e.HearOp? || e.AbandonOp?) ==> y.s.pending == x.s.pending)
               && (e.WriteOp? ==> y.ops[e.id].stage == Waiting || y.ops[e.id].stage == WriteFailed || y.ops[e.id].stage.Removing?)
               && (e.FailedOp? ==> y.ops[e.id].stage.Removing?))
  {
    hide FinishAssign, Layout, LiveAt;
  }

  lemma StageBefore(mac: Mac, x: System, e: Event)
    requires Enabled(mac, x, e) && OfOp(e)
    ensures e.id in x.ops && var stage := x.ops[e.id].stage;
      match e
      case EnterOp(_) => stage == Called
      case InsertOp(_, _) => stage == Entered
      case WriteOp(_, _, _) => stage == Inserted
      case FailedOp(_) => stage == WriteFailed
      case RemoveOp(_) => stage.Removing?
      case LeaveOp(_) => stage.Leaving?
      case FinishOp(_) => stage.Returned?
      case _ => stage == Waiting
  {
    hide Decode, Scanned, Evicts, BeginAssign, Foreign, BrokerRuns.Enabled;
  }

  lemma OpKeepsDrain(mac: Mac, x: System, e: Event, secret: Bytes)
    requires OpsWellFormed(x) && DrainInv(x, secret) && Enabled(mac, x, e) && OfOp(e)
    ensures DrainInv(Next(mac, x, e), secret)
  {
    hide Counted, OpStep, OpsWellFormed, Next, Enabled;
    var y := Next(mac, x, e);
    NextCases(mac, x, e);
    StageBefore(mac, x, e);
    OpLeaves(mac, x, e);
    OpMovesEntry(mac, x, e);
    OpMovesCount(mac, x, e);
    CountedIs(x.ops, e.id);
    if e.FinishOp? { CountedWithout(x.ops, e.id); } else { CountedAfter(x.ops, e.id, y.ops[e.id]); }
    forall k | y.closing == CLEARED && k in y.s.pending ensures Held(y, k) {
      assert k in x.s.pending ==> Held(x, k);
    }
  }

  lemma ReaderRuns(mac: Mac, x: System, e: Event)
    requires Enabled(mac, x, e) && OfReader(e)
    ensures x.reader != Done && (e.ReaderStops? ==> x.closing == CLEARED)
  {
  }

  lemma ReaderKeepsDrain(mac: Mac, x: System, e: Event, secret: Bytes)
    requires DrainInv(x, secret) && Enabled(mac, x, e) && OfReader(e)
    ensures DrainInv(Next(mac, x, e), secret)
  {
    hide Counted, ReaderStep, Next, Enabled;
    var y := Next(mac, x, e);
    NextCases(mac, x, e);
    ReaderRuns(mac, x, e);
    ReaderLeaves(mac, x, e);
    forall k | y.closing == CLEARED && k in y.s.pending ensures Held(y, k) {
      assert Held(x, k);
    }
  }

  lemma OtherKeepsDrain(mac: Mac, x: System, e: Event, secret: Bytes)
    requires DrainInv(x, secret) && Enabled(mac, x, e) && OpsWellFormed(x)
    requires e.Begin? || e.Close? || e.Wait? || e.Timer? || e.Elsewhere?
    ensures DrainInv(Next(mac, x, e), secret)
  {
    hide Counted, BeginAssign, Evicts, BrokerRuns.Next, BrokerRuns.Enabled, Foreign, Retire, OpStep, ReaderStep;
    var y := Next(mac, x, e);
    if e.Begin? {
      CountedIs(x.ops, e.id);
      CountedAfter(x.ops, e.id, y.ops[e.id]);
    }
    forall k | y.closing == CLEARED && k in y.s.pending ensures Held(y, k) {
      assert x.closing == CLEARED ==> Held(x, k);
    }
  }

  lemma OthersLeave(mac: Mac, x: System, e: Event)
    requires Inv(x.b) && Enabled(mac, x, e) && !OfOp(e) && !OfReader(e)
    ensures var y := Next(mac, x, e);
      && y.s.generation == x.s.generation
      && (if e.Begin? then e.id == x.issued && y.issued == e.id + 1 && y.ops == x.ops[e.id := Op(e.a, Called)]
                           && e.a.handle != 0 && e.a.generation == x.s.generation
          else y.ops == x.ops && y.issued == x.issued)
  {
    hide BrokerRuns.Next, BrokerRuns.Enabled, Foreign, Retire, Assigning, HandlesUnshared, QueuesCurrent;
  }

  lemma OpsStayWellFormed(mac: Mac, x: System, e: Event)
    requires Inv(x.b) && OpsWellFormed(x) && Enabled(mac, x, e)
    ensures OpsWellFormed(Next(mac, x, e)) && Next(mac, x, e).s.generation == x.s.generation
  {
    hide ReaderStep, OpStep, Inv, Next, Enabled;
    NextCases(mac, x, e);
    if OfReader(e) {
      ReaderLeaves(mac, x, e);
    } else if OfOp(e) {
      OpLeaves(mac, x, e);
    } else {
      OthersLeave(mac, x, e);
    }
  }

  lemma StepKeepsInv(mac: Mac, x: System, e: Event, secret: Bytes)
    requires SysInv(x, secret) && Enabled(mac, x, e)
    ensures SysInv(Next(mac, x, e), secret) && Next(mac, x, e).s.generation == x.s.generation
  {
    hide DrainInv, Enabled, Next, Inv, BrokerRuns.Next, BrokerRuns.Enabled, BrokerEvent;
    BrokerStep(mac, x, e);
    BrokerRuns.StepKeepsInv(x.b, BrokerEvent(x, e));
    OpsStayWellFormed(mac, x, e);
    if OfReader(e) {
      ReaderKeepsDrain(mac, x, e, secret);
    } else if OfOp(e) {
      OpKeepsDrain(mac, x, e, secret);
    } else {
      OtherKeepsDrain(mac, x, e, secret);
    }
  }

  // ---------------------------------------------------------------- whole runs

  /** Every reachable state satisfies the invariant. */
  lemma {:induction false} RunKeepsInv(mac: Mac, states: seq<System>, events: seq<Event>, t: nat)
    requires Run(mac, states, events) && t < |states|
    ensures SysInv(states[t], states[0].key) && states[t].s.generation == states[0].s.generation
  {
    hide SysInv, Enabled, Next;
    if t == 0 {
      StartedInv(states[0]);
    } else {
      RunKeepsInv(mac, states, events, t - 1);
      assert states[t] == Next(mac, states[t - 1], events[t - 1]);
      StepKeepsInv(mac, states[t - 1], events[t - 1], states[0].key);
    }
  }

  lemma StartedInv(x: System)
    requires Started(x)
    ensures SysInv(x, x.key)
  {
    assert Counted(map[]) == {};
  }

  lemma {:induction false} WaitNeverGoesBack(mac: Mac, states: seq<System>, events: seq<Event>, t: nat, u: nat)
    requires Run(mac, states, events) && t <= u < |states|
    ensures states[t].waited <= states[u].waited
    decreases u
  {
    hide Enabled, ReaderStep, OpStep;
    if t < u {
      WaitNeverGoesBack(mac, states, events, t, u - 1);
      assert states[u] == Next(mac, states[u - 1], events[u - 1]);
      assert states[u - 1].waited <= states[u].waited by { StepWaited(mac, states[u - 1], events[u - 1]); }
    }
  }

  lemma StepWaited(mac: Mac, x: System, e: Event)
    ensures Next(mac, x, e).waited == if e.Wait? then x.waited + 1 else x.waited
  {
    hide Deliver, Decode, Open, FinishAssign, Layout, BrokerRuns.Next;
  }

  /** Nothing of the session is left: no counted call, no reader, no pending entry, and close is
      complete. */
  ghost predicate Drained(x: System) {
    && x.closing == CLEARED && x.reader == Done && x.s.pending == map[] && !x.s.accepting
    && forall id :: id in x.ops ==> x.ops[id].stage == Called || x.ops[id].stage.Returned?
  }

  lemma HolderCounted(x: System, k: Key)
    requires k in x.s.pending && Held(x, k)
    ensures Counted(x.ops) != {}
  {
    assert x.s.pending[k].waiter in Counted(x.ops);
  }

  /** Once wait has joined the reader and the calls, the session is drained, and stays drained in
      every later state, whatever assign calls still arrive. That close is complete need not be
      assumed: the read loop ends only through it. */
  lemma WaitDrains(mac: Mac, states: seq<System>, events: seq<Event>, t: nat, u: nat)
    requires Run(mac, states, events) && t <= u < |states| && states[t].waited >= OPERATIONS_JOINED
    ensures Drained(states[u])
  {
    RunKeepsInv(mac, states, events, u);
    WaitNeverGoesBack(mac, states, events, t, u);
    var x := states[u];
    assert Counted(x.ops) == {};
    forall id | id in x.ops ensures x.ops[id].stage == Called || x.ops[id].stage.Returned? {
      assert id !in Counted(x.ops);
    }
    if x.s.pending != map[] {
      var k :| k in x.s.pending;
      HolderCounted(x, k);
      assert false;
    }
  }

  predicate UsesKey(e: Event) {
    e.Read? || e.WriteOp?
  }

  /** Whatever step uses the key uses the original one: after wait has zeroed it no step reads
      it. */
  lemma KeyNeverReadZeroed(mac: Mac, states: seq<System>, events: seq<Event>, t: nat)
    requires Run(mac, states, events) && t < |events| && UsesKey(events[t])
    ensures states[t].key == states[0].key && states[t].waited < OPERATIONS_JOINED
  {
    RunKeepsInv(mac, states, events, t);
    hide Enabled, Next, Drained, Counted;
    if states[t].waited >= OPERATIONS_JOINED {
      WaitDrains(mac, states, events, t, t);
      DrainedUsesNoKey(mac, states[t], events[t]);
      assert false;
    }
  }

  lemma DrainedUsesNoKey(mac: Mac, x: System, e: Event)
    requires Enabled(mac, x, e) && Drained(x)
    ensures !UsesKey(e)
  {
    hide Decode, Scanned, Evicts, BeginAssign, Foreign, BrokerRuns.Enabled;
  }

  /** And once wait has returned the key is zeros. */
  lemma WaitZeroesKey(mac: Mac, states: seq<System>, events: seq<Event>, t: nat)
    requires Run(mac, states, events) && t < |states| && states[t].waited == KEY_ZEROED
    ensures |states[t].key| == KEY_BYTES && forall i :: 0 <= i < KEY_BYTES ==> states[t].key[i] == 0
  {
    RunKeepsInv(mac, states, events, t);
  }
}
