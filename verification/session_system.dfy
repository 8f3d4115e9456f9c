/** The subprocess mode as one transition system: the broker, one session, its assign calls, its
    read loop, one close and one wait, and everything else that may touch the broker meanwhile.
    A step is one critical section; every clock reading and every interleaving is allowed. */
module SessionSystem {
  import opened Abi
  import opened BrokerState
  import opened PacketCodec
  import opened SessionState
  import FrameScanner
  import BrokerRuns
  import PacketStream

  /** Where an assign call is. From Entered to Leaving it counts in opWG. */
  datatype Stage =
    | Called
    | Entered
    | Inserted
    | WriteFailed
    | Waiting
    | Removing(rc: int32)
    | Leaving(rc: int32)
    | Returned(rc: int32)

  datatype Op = Op(a: ConnectionAssignment, stage: Stage)

  /** Where the read loop is. Failing is inside s.fail. */
  datatype Reader =
    | Reading
    | Opening(handle: uint64)
    | Acking(key: Key, status: byte)
    | Telling(waiter: nat, status: byte)
    | Taking(key: Key, payload: Bytes)
    | Looking(key: Key, payload: Bytes)
    | Delivering(key: Key, payload: Bytes, expiresUnixMS: uint64)
    | Failing
    | Done

  // How far close has come, and how far wait.
  const OPEN := 0
  const GATE_SHUT := 1
  const REASON_KEPT := 2
  const DEACTIVATED := 3
  const DONE_CLOSED := 4
  const CONNECTION_CLOSED := 5
  const CLEARED := 6
  const READER_JOINED := 1
  const OPERATIONS_JOINED := 2
  const KEY_ZEROED := 3

  /** `issued` numbers the assign calls: each makes a channel of its own. */
  datatype System = System(
    b: Broker, s: Session, key: Bytes, ops: map<nat, Op>, issued: nat,
    reader: Reader, sequence: uint64, closing: nat, waited: nat)

  datatype Event =
    | Begin(id: nat, a: ConnectionAssignment, now: Time)
    | EnterOp(id: nat)
    | InsertOp(id: nat, now: Time)
    | WriteOp(id: nat, now: Time, wrote: bool)
    | FailedOp(id: nat)
    | GiveUp(id: nat)
    | HearOp(id: nat, now: Time)
    | AbandonOp(id: nat)
    | RemoveOp(id: nat)
    | LeaveOp(id: nat)
    | FinishOp(id: nat)
    | ReadFails
    | Read(bytes: Bytes, found: Result<Correlation>)
    | OpenSection(now: Time, ev: Eviction)
    | AckSection(now: Time)
    | Tell
    | TakeSection
    | LookSection
    | DeliverSection(now: Time)
    | ReaderStops
    | Close
    | Wait
    | Timer(key: Key, expiresAt: Time)
    | Elsewhere(e: BrokerRuns.Event)

  /** What the rest of the process may do to the broker: anything, except that this session's
      generation is activated once, only its read loop opens and delivers for it, and its assign
      calls go through Begin. */
  predicate Foreign(x: System, e: BrokerRuns.Event) {
    match e
    case Activating(g, _, _) => g != x.s.generation
    case Opening(g, _, _, _) => g != x.s.generation
    case Delivering(g, _, _, _, _) => g != x.s.generation
    case Beginning(a, now) => a.generation != x.s.generation || BeginAssign(x.b, a, now).1.Failed?
    case _ => true
  }

  predicate OpAt(x: System, id: nat, stage: Stage) {
    id in x.ops && x.ops[id].stage == stage
  }

  /** For a verified packet, `found` is what the scan of its payload returns. */
  ghost predicate Scanned(decoded: Result<Packet>, found: Result<Correlation>) {
    decoded.Ok? && decoded.value.Verified? ==>
      FrameScanner.Verdict(FrameScanner.ParseMessage(decoded.value.payload), found)
  }

  ghost predicate Enabled(mac: Mac, x: System, e: Event) {
    match e
    case Begin(id, a, now) =>
      id == x.issued && a.generation == x.s.generation && BeginAssign(x.b, a, now).1.CallNative?
    case EnterOp(id) => OpAt(x, id, Called)
    case InsertOp(id, _) => OpAt(x, id, Entered)
    case WriteOp(id, _, wrote) => OpAt(x, id, Inserted) && (wrote ==> x.closing < CONNECTION_CLOSED)
    case FailedOp(id) => OpAt(x, id, WriteFailed) && x.closing == CLEARED
    case GiveUp(id) => OpAt(x, id, Waiting)
    case HearOp(id, _) => OpAt(x, id, Waiting) && id in x.s.mail
    case AbandonOp(id) => OpAt(x, id, Waiting) && x.closing >= DONE_CLOSED
    case RemoveOp(id) => id in x.ops && x.ops[id].stage.Removing?
    case LeaveOp(id) => id in x.ops && x.ops[id].stage.Leaving? && x.s.inFlight > 0
    case FinishOp(id) => id in x.ops && x.ops[id].stage.Returned?
    case ReadFails => x.reader == Reading
    case Read(bytes, found) => x.reader == Reading && Scanned(Decode(mac, bytes, x.key, x.s.generation, x.sequence), found)
    case OpenSection(now, ev) => x.reader.Opening? && Evicts(x.b.handles, Assigning(x.b.correlations), now, ev)
    case AckSection(_) => x.reader.Acking?
    case Tell => x.reader.Telling?
    case TakeSection => x.reader.Taking?
    case LookSection => x.reader.Looking?
    case DeliverSection(_) => x.reader.Delivering?
    case ReaderStops => x.reader == Failing && x.closing == CLEARED
    case Close => x.closing < CLEARED
    case Wait =>
      || (x.waited == 0 && x.reader == Done)
      || (x.waited == READER_JOINED && x.s.inFlight == 0)
      || x.waited == OPERATIONS_JOINED
    case Timer(_, _) => true
    case Elsewhere(b) => Foreign(x, b) && BrokerRuns.Enabled(x.b, b)
  }

  // ---------------------------------------------------------------- what a step does

  function At(x: System, id: nat, stage: Stage): System
    requires id in x.ops
  {
    x.(ops := x.ops[id := x.ops[id].(stage := stage)])
  }

  /** Where an assign call goes once it has found the lifetime and the table in order. */
  function InsertStage(x: System, id: nat, now: Time): Stage
    requires id in x.ops
  {
    var a := x.ops[id].a;
    if a.generation != x.s.generation then Leaving(ASSIGNMENT_TRANSPORT_FAILURE)
    else if !LiveAt(a.expiresAt, now) then Leaving(ASSIGNMENT_INVALID_OR_EXPIRED_TIME)
    else if KeyOf(a) in x.s.pending then Leaving(ASSIGNMENT_DUPLICATE)
    else Inserted
  }

  /** Where it goes on the status it received. */
  function HeardStage(a: ConnectionAssignment, status: byte, now: Time): Stage {
    if status != ACK_POSITIVE then Removing(ASSIGNMENT_WRONG_CONNECTION_STATE)
    else if now >= a.expiresAt then Removing(ASSIGNMENT_INVALID_OR_EXPIRED_TIME)
    else Leaving(ASSIGNMENT_OK)
  }

  /** The read loop's switch on a packet. */
  function Dispatch(decoded: Result<Packet>, found: Result<Correlation>): Reader {
    match decoded
    case Err(_) => Failing
    case Ok(Opened(handle)) => Opening(handle)
    case Ok(Ack(handle, c, status)) => Acking(Key(handle, c), status)
    case Ok(Verified(handle, payload)) => if found.Ok? then Taking(Key(handle, found.value), payload) else Failing
    case Ok(Assignment(_, _, _)) => Failing
  }

  function AfterAck(heard: Heard): Reader {
    match heard
    case Ignored => Reading
    case Told(waiter, status) => Telling(waiter, status)
    case Broken(_) => Failing
  }

  function AfterTake(taken: Option<Entry>, key: Key, payload: Bytes): Reader {
    if taken.None? then Reading else if taken.value.acknowledged then Looking(key, payload) else Failing
  }

  function AfterDeliver(status: Status): Reader {
    if status.Accepted? || status.error == Mismatch || status.error == BadLifetime then Reading else Failing
  }

  function Zeros(n: nat): (zeros: Bytes)
    ensures |zeros| == n && forall i :: 0 <= i < n ==> zeros[i] == 0
  {
    if n == 0 then [] else [0] + Zeros(n - 1)
  }

  function CloseStep(x: System): System {
    var y := x.(closing := x.closing + 1);
    if y.closing == GATE_SHUT then y.(s := x.s.(accepting := false))
    else if y.closing == DEACTIVATED then y.(b := Retire(x.b, x.s.generation))
    else if y.closing == CLEARED then y.(s := NotifyAll(x.s))
    else y
  }

  function OpStep(mac: Mac, x: System, e: Event): System
    requires e.InsertOp? || e.EnterOp? || e.WriteOp? || e.FailedOp? || e.GiveUp? || e.HearOp? || e.AbandonOp?
             || e.RemoveOp? || e.LeaveOp? || e.FinishOp?
    requires e.id in x.ops
  {
    var id, a := e.id, x.ops[e.id].a;
    match e
    case EnterOp(_) => At(x, id, if x.s.accepting then Entered else Returned(ASSIGNMENT_TRANSPORT_FAILURE)).(s := Enter(x.s))
    case InsertOp(_, now) =>
      var stage := InsertStage(x, id, now);
      if stage == Inserted then At(x, id, stage).(s := Insert(x.s, a, id)) else At(x, id, stage)
    case WriteOp(_, now, wrote) =>
      var (s, packet) := Write(x.s, mac, x.key, a, now);
      At(x, id, if packet.None? then Removing(ASSIGNMENT_INVALID_OR_EXPIRED_TIME)
                else if wrote then Waiting else WriteFailed).(s := s)
    case FailedOp(_) => At(x, id, Removing(ASSIGNMENT_TRANSPORT_FAILURE))
    case GiveUp(_) => At(x, id, Removing(ASSIGNMENT_INVALID_OR_EXPIRED_TIME))
    case HearOp(_, now) =>
      if id !in x.s.mail then x
      else At(x, id, HeardStage(a, x.s.mail[id], now)).(s := x.s.(mail := x.s.mail - {id}))
    case AbandonOp(_) => At(x, id, Leaving(ASSIGNMENT_TRANSPORT_FAILURE))
    case RemoveOp(_) =>
      if !x.ops[id].stage.Removing? then x else At(x, id, Leaving(x.ops[id].stage.rc)).(s := RemovePending(x.s, KeyOf(a)))
    case LeaveOp(_) =>
      if !x.ops[id].stage.Leaving? || x.s.inFlight == 0 then x
      else At(x, id, Returned(x.ops[id].stage.rc)).(s := x.s.(inFlight := x.s.inFlight - 1))
    case FinishOp(_) =>
      if !x.ops[id].stage.Returned? then x
      else x.(ops := x.ops - {id}, b := FinishAssign(x.b, a, x.ops[id].stage.rc).0)
  }

  function ReaderStep(mac: Mac, x: System, e: Event): System
    requires e.ReadFails? || e.Read? || e.OpenSection? || e.AckSection? || e.Tell? || e.TakeSection? || e.LookSection?
             || e.DeliverSection? || e.ReaderStops?
  {
    match (e, x.reader)
    case (ReadFails, Reading) => x.(reader := Failing)
    case (Read(bytes, found), Reading) =>
      var decoded := Decode(mac, bytes, x.key, x.s.generation, x.sequence);
      x.(reader := Dispatch(decoded, found),
         sequence := if decoded.Ok? then PacketStream.Succ(x.sequence) else x.sequence)
    case (OpenSection(now, ev), Opening(handle)) =>
      var step := Open(x.b, x.s.generation, handle, now, ev);
      x.(b := step.b, reader := if step.status == Accepted then Reading else Failing)
    case (AckSection(now), Acking(key, status)) =>
      var (s, heard) := HearAck(x.s, key, status, now);
      x.(s := s, reader := AfterAck(heard))
    case (Tell, Telling(waiter, status)) => x.(s := x.s.(mail := Post(x.s.mail, waiter, status)), reader := Reading)
    case (TakeSection, Taking(key, payload)) =>
      var (s, taken) := Take(x.s, key);
      x.(s := s, reader := AfterTake(taken, key, payload))
    case (LookSection, Looking(key, payload)) =>
      var found := LookupIpc(x.b, key.handle, key.correlation);
      x.(reader := if found.Some? then Delivering(key, payload, found.value) else Reading)
    case (DeliverSection(now), Delivering(key, payload, ms)) =>
      var step := Deliver(x.b, x.s.generation, key.correlation, payload, ms, now);
      x.(b := step.b, reader := AfterDeliver(step.status))
    case (ReaderStops, Failing) => x.(reader := Done)
    case _ => x
  }

  function Next(mac: Mac, x: System, e: Event): System {
    match e
    case Begin(id, a, now) => x.(ops := x.ops[id := Op(a, Called)], issued := x.issued + 1, b := BeginAssign(x.b, a, now).0)
    case Close => CloseStep(x)
    case Wait => x.(waited := x.waited + 1, key := if x.waited == OPERATIONS_JOINED then Zeros(|x.key|) else x.key)
    case Timer(key, expiresAt) => x.(s := ExpirePending(x.s, key, expiresAt))
    case Elsewhere(f) => x.(b := BrokerRuns.Next(x.b, f).b)
    case ReadFails => ReaderStep(mac, x, e)
    case Read(_, _) => ReaderStep(mac, x, e)
    case OpenSection(_, _) => ReaderStep(mac, x, e)
    case AckSection(_) => ReaderStep(mac, x, e)
    case Tell => ReaderStep(mac, x, e)
    case TakeSection => ReaderStep(mac, x, e)
    case LookSection => ReaderStep(mac, x, e)
    case DeliverSection(_) => ReaderStep(mac, x, e)
    case ReaderStops => ReaderStep(mac, x, e)
    case _ => if e.id in x.ops then OpStep(mac, x, e) else x
  }

  /** A session just started: its generation activated, nothing pending, nothing read. */
  ghost predicate Started(x: System) {
    && x.b.capacity >= 1 && x.b.active && x.b.assigns && x.b.generation == x.s.generation != 0
    && Empty(x.b)
    && x.s == Session(x.s.generation, true, 0, map[], map[], 0)
    && |x.key| == KEY_BYTES
    && x.ops == map[] && x.issued == 0 && x.reader == Reading && x.sequence == 1 && x.closing == OPEN && x.waited == 0
  }

  ghost predicate Run(mac: Mac, states: seq<System>, events: seq<Event>) {
    && |states| == |events| + 1
    && Started(states[0])
    && forall i :: 0 <= i < |events| ==> Enabled(mac, states[i], events[i]) && states[i + 1] == Next(mac, states[i], events[i])
  }

  // ---------------------------------------------------------------- what a step leaves alone

  predicate OfOp(e: Event) {
    e.InsertOp? || e.EnterOp? || e.WriteOp? || e.FailedOp? || e.GiveUp? || e.HearOp? || e.AbandonOp?
    || e.RemoveOp? || e.LeaveOp? || e.FinishOp?
  }

  predicate OfReader(e: Event) {
    e.ReadFails? || e.Read? || e.OpenSection? || e.AckSection? || e.Tell? || e.TakeSection? || e.LookSection?
    || e.DeliverSection? || e.ReaderStops?
  }

  /** What the read loop's steps leave alone. */
  lemma ReaderLeaves(mac: Mac, x: System, e: Event)
    requires OfReader(e)
    ensures var y := ReaderStep(mac, x, e);
      && y == x.(b := y.b, s := y.s, reader := y.reader, sequence := y.sequence)
      && y.s == x.s.(pending := y.s.pending, mail := y.s.mail)
      && (forall k :: k in y.s.pending ==> k in x.s.pending && y.s.pending[k].waiter == x.s.pending[k].waiter)
      && (y.reader == Done ==> x.reader == Done || e.ReaderStops?)
  {
    hide Deliver, Decode, Open, LookupIpc, PacketStream.Succ;
  }

  /** What an assign call's steps leave alone, and how they move the call and its entry. */
  lemma OpLeaves(mac: Mac, x: System, e: Event)
    requires OfOp(e) && e.id in x.ops
    ensures var y := OpStep(mac, x, e);
      && y == x.(b := y.b, s := y.s, ops := y.ops)
      && y.s == x.s.(inFlight := y.s.inFlight, pending := y.s.pending, mail := y.s.mail, written := y.s.written)
      && (!e.FinishOp? ==> e.id in y.ops && y.ops == x.ops[e.id := Op(x.ops[e.id].a, y.ops[e.id].stage)])
      && (e.FinishOp? ==> y.ops == x.ops || y.ops == x.ops - {e.id})
  {
    hide FinishAssign, Layout, LiveAt, InsertStage, HeardStage;
  }

  lemma NextCases(mac: Mac, x: System, e: Event)
    requires Enabled(mac, x, e)
    ensures OfReader(e) ==> Next(mac, x, e) == ReaderStep(mac, x, e)
    ensures OfOp(e) ==> e.id in x.ops && Next(mac, x, e) == OpStep(mac, x, e)
  {
    hide ReaderStep, OpStep, Decode, Scanned, Evicts, BeginAssign, Foreign, BrokerRuns.Enabled;
  }

  // ---------------------------------------------------------------- the broker within the system

  /** A step of the broker that changes nothing. */
  function Idle(b: Broker): BrokerRuns.Event {
    BrokerRuns.Event.Closing(if b.generation == 0 then 1 else 0, 0)
  }

  /** What a step is to the broker. */
  function BrokerEvent(x: System, e: Event): BrokerRuns.Event {
    match e
    case Begin(_, a, now) => BrokerRuns.Event.Beginning(a, now)
    case FinishOp(id) =>
      if id in x.ops && x.ops[id].stage.Returned? then BrokerRuns.Event.Finishing(x.ops[id].a, x.ops[id].stage.rc) else Idle(x.b)
    case OpenSection(now, ev) =>
      if x.reader.Opening? then BrokerRuns.Event.Opening(x.s.generation, x.reader.handle, now, ev) else Idle(x.b)
    case DeliverSection(now) =>
      if x.reader.Delivering? then
        BrokerRuns.Event.Delivering(x.s.generation, x.reader.key.correlation, x.reader.payload, x.reader.expiresUnixMS, now)
      else Idle(x.b)
    case Close => if x.closing + 1 == DEACTIVATED then BrokerRuns.Event.Retiring(x.s.generation) else Idle(x.b)
    case Elsewhere(f) => f
    case _ => Idle(x.b)
  }

  lemma BrokerStep(mac: Mac, x: System, e: Event)
    requires Enabled(mac, x, e)
    ensures BrokerRuns.Enabled(x.b, BrokerEvent(x, e))
    ensures Next(mac, x, e).b == BrokerRuns.Next(x.b, BrokerEvent(x, e)).b
  {
    BrokerEnabled(mac, x, e);
    NextCases(mac, x, e);
    hide Enabled, BrokerRuns.Enabled;
    if OfReader(e) {
      BrokerReaderStep(mac, x, e);
    } else if OfOp(e) {
      BrokerOpStep(mac, x, e);
    } else {
      hide BeginAssign, CloseHandle, Deliver, Open, ExpirePending, Activate, Expire;
    }
  }

  lemma BrokerEnabled(mac: Mac, x: System, e: Event)
    requires Enabled(mac, x, e)
    ensures BrokerRuns.Enabled(x.b, BrokerEvent(x, e))
  {
    hide Evicts, BeginAssign, Decode, Scanned, Foreign, Assigning;
  }

  lemma BrokerReaderStep(mac: Mac, x: System, e: Event)
    requires OfReader(e)
    ensures ReaderStep(mac, x, e).b == BrokerRuns.Next(x.b, BrokerEvent(x, e)).b
  {
    hide Deliver, Open, Decode, HearAck, LookupIpc;
  }

  lemma BrokerOpStep(mac: Mac, x: System, e: Event)
    requires OfOp(e) && e.id in x.ops
    ensures OpStep(mac, x, e).b == BrokerRuns.Next(x.b, BrokerEvent(x, e)).b
  {
    hide FinishAssign, LiveAt, Write, InsertStage, HeardStage, Insert;
  }
}
