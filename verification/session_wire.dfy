/** What concurrent assign calls put on the wire, and what a receiver makes of it. */
module SessionWire {
  import opened Abi
  import opened BrokerState
  import opened PacketCodec
  import opened PacketStream
  import opened SessionState
  import opened SessionSystem
  import opened SessionDrain

  /** The assignment a step tries to write. */
  function Attempt(x: System, e: Event): Option<Packet> {
    if e.WriteOp? && e.id in x.ops && LiveAt(x.ops[e.id].a.expiresAt, e.now) then Some(AssignmentPacket(x.ops[e.id].a))
    else None
  }

  /** The assignments whose writes the first n steps attempted, in order. */
  function Attempted(states: seq<System>, events: seq<Event>, n: nat): seq<Packet>
    requires n <= |events| < |states|
  {
    if n == 0 then []
    else
      var tried := Attempt(states[n - 1], events[n - 1]);
      Attempted(states, events, n - 1) + if tried.Some? then [tried.value] else []
  }

  /** The packets the first n steps wrote in full. */
  function Wire(mac: Mac, states: seq<System>, events: seq<Event>, n: nat): seq<Bytes>
    requires n <= |events| < |states|
  {
    if n == 0 then []
    else
      var x, e := states[n - 1], events[n - 1];
      Wire(mac, states, events, n - 1)
      + if Attempt(x, e).Some? && e.wrote then [Write(x.s, mac, x.key, x.ops[e.id].a, e.now).1.value] else []
  }

  ghost predicate NoWriteFails(states: seq<System>, events: seq<Event>, n: nat)
    requires n <= |events| < |states|
  {
    forall k :: 0 <= k < n && Attempt(states[k], events[k]).Some? ==> events[k].wrote
  }

  lemma StepWritten(mac: Mac, x: System, e: Event)
    requires Enabled(mac, x, e)
    ensures Next(mac, x, e).s.written == if Attempt(x, e).Some? then Succ(x.s.written) else x.s.written
  {
    hide ReaderStep, Decode, Scanned, Evicts, FinishAssign, Layout, BeginAssign, Foreign;
    if OfReader(e) { ReaderLeaves(mac, x, e); }
  }

  /** Writes are numbered 1, 2, 3, ... modulo 2^64 in the order they are attempted, whether or not
      they succeed. */
  lemma {:induction false} Numbering(mac: Mac, states: seq<System>, events: seq<Event>, n: nat)
    requires Run(mac, states, events) && n <= |events|
    ensures states[n].s.written == |Attempted(states, events, n)| % 0x1_0000_0000_0000_0000
  {
    hide Next, Enabled, Attempt;
    if n > 0 {
      Numbering(mac, states, events, n - 1);
      assert states[n] == Next(mac, states[n - 1], events[n - 1]);
      StepWritten(mac, states[n - 1], events[n - 1]);
      ModSucc(|Attempted(states, events, n - 1)|);
    }
  }

  lemma ModSucc(n: nat)
    ensures (n % 0x1_0000_0000_0000_0000 + 1) % 0x1_0000_0000_0000_0000 == (n + 1) % 0x1_0000_0000_0000_0000
  {
  }

  lemma AttemptSendable(mac: Mac, states: seq<System>, events: seq<Event>, k: nat)
    requires Run(mac, states, events) && k < |events| && Attempt(states[k], events[k]).Some?
    ensures Sendable(Attempt(states[k], events[k]).value)
    ensures var x, e := states[k], events[k];
      Write(x.s, mac, x.key, x.ops[e.id].a, e.now).1
      == Some(Layout(mac, states[0].key, states[0].s.generation, Succ(x.s.written), Attempt(x, e).value))
  {
    hide DrainInv, Inv, Next;
    RunKeepsInv(mac, states, events, k);
    KeyNeverReadZeroed(mac, states, events, k);
    assert OpsWellFormed(states[k]);
  }

  /** Until a write fails, the i-th packet on the wire is the i-th assignment under number i + 1. */
  lemma {:induction false} WireNumbered(mac: Mac, states: seq<System>, events: seq<Event>, n: nat)
    requires Run(mac, states, events) && n <= |events| && NoWriteFails(states, events, n)
    requires |Attempted(states, events, n)| < 0x1_0000_0000_0000_0000
    ensures var sent := Attempted(states, events, n);
      && AllSendable(sent) && |Wire(mac, states, events, n)| == |sent|
      && forall i :: 0 <= i < |sent| ==>
           Wire(mac, states, events, n)[i] == Written(mac, states[0].key, states[0].s.generation, sent, i)
  {
    hide Next, Enabled, Attempt, Layout, Write, Sendable;
    if n > 0 {
      WireNumbered(mac, states, events, n - 1);
      Numbering(mac, states, events, n - 1);
      if Attempt(states[n - 1], events[n - 1]).Some? { AttemptSendable(mac, states, events, n - 1); }
    }
  }

  /** Until a write fails, a receiver with the same key that is handed the written packets in any
      order, with gaps or repetitions, accepts exactly those before the first misplaced one, and
      fails there; handed all of them in order, it accepts them all. */
  lemma WireAgreement(mac: Mac, states: seq<System>, events: seq<Event>, n: nat, arrivals: seq<nat>, packets: seq<Bytes>)
    requires Run(mac, states, events) && n <= |events| && NoWriteFails(states, events, n)
    requires |Attempted(states, events, n)| < 0x1_0000_0000_0000_0000 && |packets| == |arrivals|
    requires var wire := Wire(mac, states, events, n);
      forall j :: 0 <= j < |arrivals| ==> arrivals[j] < |wire| && packets[j] == wire[arrivals[j]]
    ensures var sent, k := Attempted(states, events, n), InPlace(arrivals, 0);
      && k <= |sent|
      && Receive(mac, states[0].key, states[0].s.generation, packets, 1)
         == Received(sent[..k], if k < |arrivals| then Some(BadSequence) else None)
    ensures packets == Wire(mac, states, events, n) && (forall j :: 0 <= j < |arrivals| ==> arrivals[j] == j) ==>
      Receive(mac, states[0].key, states[0].s.generation, packets, 1) == Received(Attempted(states, events, n), None)
  {
    hide Next, Enabled, Layout, Receive;
    WireNumbered(mac, states, events, n);
    StreamAgreement(mac, states[0].key, states[0].s.generation, Attempted(states, events, n), arrivals, packets);
    if packets == Wire(mac, states, events, n) && (forall j :: 0 <= j < |arrivals| ==> arrivals[j] == j) {
      assert InPlace(arrivals, 0) == |arrivals|;
      assert Attempted(states, events, n)[..|arrivals|] == Attempted(states, events, n);
    }
  }
}
