/** What each step of the session does to its pending table, its channels, its packets and its
    calls, stated on the states before and after. */
module SessionEffects {
  import opened Abi
  import opened BrokerState
  import opened PacketCodec
  import opened SessionState
  import opened SessionSystem
  import SessionDrain
  import SessionWire
  import PacketStream
  import BrokerRuns
  import BrokerEffects
  import FrameScanner

  const POSITIVE: byte := 0
  const NEGATIVE: byte := 1

  // ---------------------------------------------------------------- the table and the channels

  /** The table after has lost exactly these pairs; entries that stay are unchanged. */
  ghost predicate PairsLost(s: Session, after: Session, lost: set<Key>) {
    && (forall k :: k in after.pending <==> k in s.pending && k !in lost)
    && (forall k :: k in after.pending ==> after.pending[k] == s.pending[k])
  }

  /** Exactly these waiters are told; whoever has been told before keeps the first status. */
  ghost predicate Tells(s: Session, after: Session, told: set<nat>, status: byte) {
    && (forall w :: w in after.mail <==> w in s.mail || w in told)
    && (forall w :: w in after.mail ==> after.mail[w] == if w in s.mail then s.mail[w] else status)
  }

  ghost predicate RestStands(s: Session, after: Session) {
    && after.generation == s.generation && after.accepting == s.accepting && after.inFlight == s.inFlight
    && after.written == s.written
  }

  /** A pending pair is past its deadline at this clock reading. */
  predicate Late(s: Session, k: Key, now: Time)
    requires k in s.pending
  {
    s.pending[k].expiresAt <= now
  }

  /** An ACK that removes its pair: late, or negative and not preceded by a positive one. */
  predicate Rejects(s: Session, k: Key, status: byte, now: Time) {
    k in s.pending && (Late(s, k, now) || (status != POSITIVE && !s.pending[k].acknowledged))
  }

  /** An ACK that breaks the session: a second verdict on a pair that is still in time. */
  predicate Breaks(s: Session, k: Key, now: Time) {
    k in s.pending && !Late(s, k, now) && s.pending[k].acknowledged
  }

  lemma HearAckEffect(s: Session, k: Key, status: byte, now: Time)
    ensures var (after, heard) := HearAck(s, k, status, now);
      && RestStands(s, after) && after.mail == s.mail
      && (heard.Ignored? <==> k !in s.pending)
      && (heard.Broken? <==> Breaks(s, k, now))
      && (heard.Broken? ==> heard.error == if status == POSITIVE then Duplicate else Rejected)
      && (heard.Told? ==> heard.waiter == s.pending[k].waiter
                          && heard.status == if Late(s, k, now) then NEGATIVE else status)
      && if k in s.pending && !Late(s, k, now) && !s.pending[k].acknowledged && status == POSITIVE then
           after.pending == s.pending[k := s.pending[k].(acknowledged := true)]
         else PairsLost(s, after, if Rejects(s, k, status, now) then {k} else {})
  {
  }

  lemma TakeEffect(s: Session, k: Key)
    ensures var (after, taken) := Take(s, k);
      && RestStands(s, after) && after.mail == s.mail && PairsLost(s, after, {k})
      && (taken.Some? <==> k in s.pending) && (taken.Some? ==> taken.value == s.pending[k])
  {
  }

  lemma RemoveEffect(s: Session, k: Key)
    ensures var after := RemovePending(s, k); RestStands(s, after) && after.mail == s.mail && PairsLost(s, after, {k})
  {
  }

  /** The timer removes the entry it was set for, and tells its waiter that it is over. */
  lemma ExpireEffect(s: Session, k: Key, deadline: Time)
    ensures var after, meant := ExpirePending(s, k, deadline), k in s.pending && s.pending[k].expiresAt == deadline;
      && RestStands(s, after)
      && PairsLost(s, after, if meant then {k} else {})
      && Tells(s, after, if meant then {s.pending[k].waiter} else {}, NEGATIVE)
  {
  }

  /** close's last section empties the table and tells every waiter in it. */
  lemma NotifyAllEffect(s: Session)
    ensures var after := NotifyAll(s);
      && RestStands(s, after) && after.pending == map[]
      && (forall w :: w in after.mail <==> w in s.mail || exists k :: k in s.pending && s.pending[k].waiter == w)
      && (forall w :: w in after.mail ==> after.mail[w] == if w in s.mail then s.mail[w] else NEGATIVE)
  {
  }

  /** The steps of close: only the first shuts the gate, only the third touches the broker, only the
      last touches the table and the channels. */
  lemma CloseStepEffect(mac: Mac, x: System)
    ensures var y := Next(mac, x, Close);
      && y == x.(closing := x.closing + 1, s := y.s, b := y.b)
      && (x.closing == 0 ==> y.s == x.s.(accepting := false))
      && (x.closing == 5 ==>
            && RestStands(x.s, y.s) && y.s.pending == map[]
            && (forall w :: w in y.s.mail <==> w in x.s.mail || exists k :: k in x.s.pending && x.s.pending[k].waiter == w)
            && (forall w :: w in y.s.mail ==> y.s.mail[w] == if w in x.s.mail then x.s.mail[w] else NEGATIVE))
      && (x.closing != 0 && x.closing != 5 ==> y.s == x.s)
      && (x.closing == 2 ==> !(y.b.active && y.b.generation == x.s.generation))
      && (x.closing != 2 ==> y.b == x.b)
  {
    NotifyAllEffect(x.s);
    hide NotifyAll;
  }

  lemma TimerStep(mac: Mac, x: System, k: Key, deadline: Time)
    ensures var y, meant := Next(mac, x, Timer(k, deadline)), k in x.s.pending && x.s.pending[k].expiresAt == deadline;
      && y == x.(s := y.s) && RestStands(x.s, y.s)
      && PairsLost(x.s, y.s, if meant then {k} else {})
      && Tells(x.s, y.s, if meant then {x.s.pending[k].waiter} else {}, NEGATIVE)
  {
    ExpireEffect(x.s, k, deadline);
  }

  // ---------------------------------------------------------------- the read loop

  /** Reading: a packet that does not decode, an assignment from the wrong side, or a frame without
      a correlation ends the session; any other is handed on, and the next number is expected. */
  lemma ReadEffect(mac: Mac, x: System, bytes: Bytes, found: Result<Correlation>)
    requires x.reader == Reading
    ensures var y, decoded := Next(mac, x, Read(bytes, found)), Decode(mac, bytes, x.key, x.s.generation, x.sequence);
      && y == x.(reader := y.reader, sequence := y.sequence)
      && (y.sequence == if decoded.Ok? then (x.sequence + 1) % 0x1_0000_0000_0000_0000 else x.sequence)
      && (y.reader == Failing <==>
            decoded.Err? || decoded.value.Assignment? || (decoded.value.Verified? && found.Err?))
      && (y.reader != Failing ==>
            match decoded.value
            case Opened(h) => y.reader == Opening(h)
            case Ack(h, c, status) => y.reader == Acking(Key(h, c), status)
            case Verified(h, payload) => y.reader == Taking(Key(h, found.value), payload)
            case Assignment(_, _, _) => false)
  {
    hide Decode;
  }

  /** What becomes of an ACK: nothing for a pair that is not pending; the end of the session for a
      second verdict in time; otherwise the waiter is told, that it is over if the ACK came late. */
  lemma AckStep(mac: Mac, x: System, now: Time, key: Key, status: byte)
    requires x.reader == Acking(key, status)
    ensures var y := Next(mac, x, AckSection(now));
      && y == x.(s := y.s, reader := y.reader)
      && (y.reader == Reading <==> key !in x.s.pending)
      && (y.reader == Failing <==> Breaks(x.s, key, now))
      && (y.reader != Reading && y.reader != Failing ==>
            y.reader == Telling(x.s.pending[key].waiter, if Late(x.s, key, now) then NEGATIVE else status))
      && (key in y.s.pending <==> key in x.s.pending && !Rejects(x.s, key, status, now))
  {
  }

  lemma TellStep(mac: Mac, x: System, waiter: nat, status: byte)
    requires x.reader == Telling(waiter, status)
    ensures var y := Next(mac, x, Tell);
      && y == x.(s := y.s, reader := Reading) && RestStands(x.s, y.s) && y.s.pending == x.s.pending
      && Tells(x.s, y.s, {waiter}, status)
  {
  }

  /** A verified frame takes its pair out of the table; it is passed over if there was none, ends the
      session if it was not acknowledged, and is looked up otherwise. */
  lemma TakeStep(mac: Mac, x: System, key: Key, payload: Bytes)
    requires x.reader == Taking(key, payload)
    ensures var y := Next(mac, x, TakeSection);
      && y == x.(s := y.s, reader := y.reader) && RestStands(x.s, y.s) && y.s.mail == x.s.mail && PairsLost(x.s, y.s, {key})
      && y.reader == if key !in x.s.pending then Reading
                     else if x.s.pending[key].acknowledged then Looking(key, payload)
                     else Failing
  {
  }

  /** A frame whose pair the broker does not hold is passed over; one it does hold is delivered with
      the entry's expiry in whole milliseconds. */
  lemma LookStep(mac: Mac, x: System, key: Key, payload: Bytes)
    requires x.reader == Looking(key, payload)
    ensures var y, c := Next(mac, x, LookSection), key.correlation;
      var held := c in x.b.correlations && x.b.correlations[c].handle == key.handle;
      && y == x.(reader := y.reader)
      && (if held then
            && y.reader.Delivering? && y.reader.key == key && y.reader.payload == payload
            && ToSigned(y.reader.expiresUnixMS) * 1_000_000 <= x.b.correlations[c].expiresAt
            && x.b.correlations[c].expiresAt < (ToSigned(y.reader.expiresUnixMS) + 1) * 1_000_000
          else y.reader == Reading)
  {
    BrokerEffects.LookupEffect(x.b, key.handle, key.correlation);
    hide LookupIpc;
  }

  /** A frame the broker has no entry for, or no longer a live one, is passed over; any other refusal
      ends the session. */
  lemma DeliverStep(mac: Mac, x: System, now: Time, key: Key, payload: Bytes, ms: uint64)
    requires x.reader == Delivering(key, payload, ms)
    ensures var y, step := Next(mac, x, DeliverSection(now)), Deliver(x.b, x.s.generation, key.correlation, payload, ms, now);
      && y == x.(b := step.b, reader := y.reader)
      && (y.reader == Failing <==>
            step.status == Refused(BadFrame) || step.status == Refused(StaleGeneration)
            || step.status == Refused(Closed) || step.status == Refused(Overflow))
      && (y.reader != Failing ==> y.reader == Reading)
  {
    DeliverErrors(x.b, x.s.generation, key.correlation, payload, ms, now);
    hide Deliver;
  }

  lemma DeliverErrors(b: Broker, g: uint64, c: Correlation, frame: Bytes, ms: uint64, now: Time)
    ensures var status := Deliver(b, g, c, frame, ms, now).status;
      status.Accepted? || status.error == BadFrame || status.error == BadLifetime || status.error == StaleGeneration
      || status.error == Closed || status.error == Mismatch || status.error == Overflow
  {
    hide LiveAt, UnixMilli, FromUnixMilli, ToSigned;
  }

  lemma OpenStep(mac: Mac, x: System, now: Time, ev: Eviction, h: uint64)
    requires x.reader == Opening(h)
    ensures var y, step := Next(mac, x, OpenSection(now, ev)), Open(x.b, x.s.generation, h, now, ev);
      y == x.(b := step.b, reader := if step.status.Accepted? then Reading else Failing)
  {
    hide Open;
  }

  // ---------------------------------------------------------------- assign calls

  /** Entering: refused with the transport failure once the gate is shut. */
  lemma EnterStep(mac: Mac, x: System, id: nat)
    requires OpAt(x, id, Called)
    ensures var y := Next(mac, x, EnterOp(id));
      && y == x.(s := x.s.(inFlight := y.s.inFlight), ops := y.ops)
      && y.ops == x.ops[id := Op(x.ops[id].a, if x.s.accepting then Entered else Returned(-0x8000_0000))]
      && y.s.inFlight == x.s.inFlight + (if x.s.accepting then 1 else 0)
  {
  }

  /** Inserting: the pair is added, unacknowledged, with the call's own channel and deadline, unless
      the generation, the lifetime or the table forbids it; then the call leaves with that code. */
  lemma InsertStep(mac: Mac, x: System, id: nat, now: Time)
    requires OpAt(x, id, Entered)
    ensures var y, a := Next(mac, x, InsertOp(id, now)), x.ops[id].a;
      var key := Key(a.handle, a.correlation);
      if a.generation == x.s.generation && LiveAt(a.expiresAt, now) && key !in x.s.pending then
        && OpAt(y, id, Inserted)
        && y == x.(s := x.s.(pending := x.s.pending[key := Entry(id, a.expiresAt, false)]), ops := y.ops)
      else
        && y == x.(ops := y.ops)
        && OpAt(y, id, Leaving(if a.generation != x.s.generation then -0x8000_0000
                               else if !LiveAt(a.expiresAt, now) then -3 else -2))
  {
    hide LiveAt;
  }

  /** Writing: nothing is written, and no number used, for an assignment that is no longer live. */
  lemma WriteStep(mac: Mac, x: System, id: nat, now: Time, wrote: bool)
    requires OpAt(x, id, Inserted)
    ensures var y, a := Next(mac, x, WriteOp(id, now, wrote)), x.ops[id].a;
      && y == x.(s := x.s.(written := y.s.written), ops := y.ops)
      && if LiveAt(a.expiresAt, now) then
           && y.s.written == (x.s.written + 1) % 0x1_0000_0000_0000_0000
           && OpAt(y, id, if wrote then Waiting else WriteFailed)
         else y.s.written == x.s.written && OpAt(y, id, Removing(-3))
  {
    hide LiveAt, Layout;
  }

  /** Waiting: how the status received, or the lack of one, becomes the result. */
  lemma HearStep(mac: Mac, x: System, id: nat, now: Time)
    requires OpAt(x, id, Waiting) && id in x.s.mail
    ensures var y, a, status := Next(mac, x, HearOp(id, now)), x.ops[id].a, x.s.mail[id];
      && y.s.pending == x.s.pending
      && OpAt(y, id, if status != POSITIVE then Removing(-4)
                     else if a.expiresAt <= now then Removing(-3)
                     else Leaving(0))
  {
  }

  /** Whatever the call gives up with, it first removes its pair, except when the session is done. */
  lemma GiveUpSteps(mac: Mac, x: System, id: nat)
    ensures OpAt(x, id, Waiting) ==>
      OpAt(Next(mac, x, GiveUp(id)), id, Removing(-3)) && OpAt(Next(mac, x, AbandonOp(id)), id, Leaving(-0x8000_0000))
    ensures OpAt(x, id, WriteFailed) ==> OpAt(Next(mac, x, FailedOp(id)), id, Removing(-0x8000_0000))
    ensures id in x.ops && x.ops[id].stage.Removing? ==>
      var y, a := Next(mac, x, RemoveOp(id)), x.ops[id].a;
      OpAt(y, id, Leaving(x.ops[id].stage.rc)) && PairsLost(x.s, y.s, {Key(a.handle, a.correlation)})
    ensures id in x.ops && x.ops[id].stage.Leaving? && x.s.inFlight > 0 ==>
      var y := Next(mac, x, LeaveOp(id));
      OpAt(y, id, Returned(x.ops[id].stage.rc)) && y.s.inFlight == x.s.inFlight - 1
  {
  }

  /** A call that returns success leaves the broker as it is; one that returns anything else leaves
      its handle neither open nor pending, if the broker is still in its generation. */
  lemma FinishStep(mac: Mac, x: System, id: nat)
    requires id in x.ops && x.ops[id].stage.Returned?
    ensures var y, a := Next(mac, x, FinishOp(id)), x.ops[id].a;
      && y == x.(b := y.b, ops := x.ops - {id})
      && (x.ops[id].stage.rc == 0 ==> y.b == x.b)
      && (x.ops[id].stage.rc != 0 && a.generation == x.b.generation ==>
            a.handle !in y.b.handles && forall c :: c in y.b.correlations ==> y.b.correlations[c].handle != a.handle)
  {
  }

  // ---------------------------------------------------------------- the assignment on the wire

  /** In every run, what an attempted write puts on the wire decodes, under the session's key and
      generation and the next number, to an assignment with the call's handle and correlation and
      its deadline in whole milliseconds (number 0, after 2^64 writes, is refused). */
  lemma AssignmentOnTheWire(mac: Mac, states: seq<System>, events: seq<Event>, k: nat) returns (bytes: Bytes, ms: uint64)
    requires Run(mac, states, events) && k < |events| && events[k].WriteOp?
    requires LiveAt(states[k].ops[events[k].id].a.expiresAt, events[k].now)
    ensures var x, a := states[k], states[k].ops[events[k].id].a;
      && Write(x.s, mac, x.key, a, events[k].now).1 == Some(bytes)
      && (var number := (x.s.written + 1) % 0x1_0000_0000_0000_0000;
          Decode(mac, bytes, states[0].key, states[0].s.generation, number)
          == if number == 0 then Err(BadSequence) else Ok(Assignment(a.handle, a.correlation, ms)))
      && ToSigned(ms) * 1_000_000 <= a.expiresAt < (ToSigned(ms) + 1) * 1_000_000
  {
    var x, e := states[k], events[k];
    var a := x.ops[e.id].a;
    assert SessionWire.Attempt(x, e) == Some(AssignmentPacket(a));
    SessionWire.AttemptSendable(mac, states, events, k);
    ms := ToUnsigned(UnixMilli(a.expiresAt));
    var number := PacketStream.Succ(x.s.written);
    bytes := Layout(mac, states[0].key, states[0].s.generation, number, AssignmentPacket(a));
    hide Decode, Layout, Next, Enabled, LiveAt, Write, Sendable;
    DecodeEncoded(mac, states[0].key, states[0].s.generation, number, AssignmentPacket(a), states[0].s.generation, number);
  }
}
