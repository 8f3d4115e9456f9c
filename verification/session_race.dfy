/** A run in which a frame is published under a handle that was never acknowledged: between
    deliverIPCFrame's two sections the broker's entry expires and the same correlation is assigned
    to another open handle, with the same deadline. */
module SessionRace {
  import opened Abi
  import opened BrokerState
  import opened PacketCodec
  import opened SessionState
  import opened SessionSystem
  import opened SessionRuns
  import FrameScanner
  import FrameLayout
  import BrokerRuns
  import PacketStream
  import SessionDrain

  datatype Trace = Trace(states: seq<System>, events: seq<Event>) {
    ghost predicate Valid(mac: Mac) { Run(mac, states, events) }

    function Last(): System
      requires states != []
    {
      states[|states| - 1]
    }
  }

  lemma Grow(mac: Mac, t: Trace, e: Event) returns (u: Trace)
    requires t.Valid(mac) && t.states != [] && Enabled(mac, t.Last(), e)
    ensures u.Valid(mac) && u.states != [] && u.Last() == Next(mac, t.Last(), e) && u == Trace(t.states + [Next(mac, t.Last(), e)], t.events + [e])
    ensures |u.states| == |u.events| + 1
  {
    hide Next, Enabled, Started;
    u := Trace(t.states + [Next(mac, t.Last(), e)], t.events + [e]);
  }

  /** The message that carries a version and a correlation and nothing else. */
  function Bare(c: Correlation): Bytes {
    FrameLayout.WriteAll([FrameScanner.Scalar(1, 1), FrameScanner.Delimited(2, c)])
  }

  lemma BareLength(c: Correlation)
    ensures |Bare(c)| == 20
  {
    var version, carrier := FrameScanner.Scalar(1, 1), FrameScanner.Delimited(2, c);
    assert [version, carrier][1..] == [carrier] && [carrier][1..] == [];
    assert |FrameLayout.Write(version)| == 2 && |FrameLayout.Write(carrier)| == 18;
    assert FrameLayout.WriteAll([carrier]) == FrameLayout.Write(carrier) + FrameLayout.WriteAll([]);
  }

  lemma BareCarries(c: Correlation)
    requires c != ZERO_CORRELATION
    ensures FrameScanner.Verdict(FrameScanner.ParseMessage(Bare(c)), Ok(c)) && |Bare(c)| == 20
  {
    var rs := [FrameScanner.Scalar(1, 1), FrameScanner.Delimited(2, c)];
    FrameLayout.RoundTrip(rs);
    FrameLayout.CarriesFirstTwo([], c);
    assert rs + [] == rs;
    FrameScanner.CarryingIsFaultFree(rs, c);
    BareLength(c);
  }

  /** A packet from the peer arrives under the next number. */
  lemma Receives(mac: Mac, t: Trace, p: Packet, found: Result<Correlation>) returns (u: Trace)
    requires t.Valid(mac) && t.states != [] && t.Last().reader == Reading && |t.Last().key| == KEY_BYTES
    requires t.Last().s.generation != 0 && t.Last().sequence != 0
    requires Sendable(p) && Scanned(Ok(p), found)
    ensures u.Valid(mac) && u.states != []
    ensures u.Last() == t.Last().(reader := Dispatch(Ok(p), found), sequence := PacketStream.Succ(t.Last().sequence))
  {
    hide Decode, Scanned, Layout, Sendable, Dispatch;
    var x := t.Last();
    var bytes := Layout(mac, x.key, x.s.generation, x.sequence, p);
    DecodeEncoded(mac, x.key, x.s.generation, x.sequence, p, x.s.generation, x.sequence);
    u := Grow(mac, t, Read(bytes, found));
  }

  // ---------------------------------------------------------------- the run

  /** Two handles and a correlation; everything happens at time 0, with a deadline of one second. */
  datatype Setting = Setting(g: uint64, key: Bytes, h1: uint64, h2: uint64, c: Correlation)

  ghost predicate Proper(p: Setting) {
    p.g != 0 && |p.key| == KEY_BYTES && p.h1 != 0 && p.h2 != 0 && p.h1 != p.h2 && p.c != ZERO_CORRELATION
  }

  const DEADLINE: Time := 1_000_000_000
  const DEADLINE_MS: uint64 := 1_000

  function AssignTo(p: Setting, h: uint64): ConnectionAssignment {
    ConnectionAssignment(p.g, h, p.c, DEADLINE)
  }

  function Initial(p: Setting): System {
    System(Broker(2, true, p.g, true, true, map[], map[], [], []), Session(p.g, true, 0, map[], map[], 0),
           p.key, map[], 0, Reading, 1, OPEN, 0)
  }

  function Opened(p: Setting): System {
    Initial(p).(b := Initial(p).b.(handles := map[p.h1 := 0, p.h2 := 0],
                                   openings := [ConnectionOpen(p.g, p.h1), ConnectionOpen(p.g, p.h2)]),
                sequence := 3)
  }

  function Assigned(p: Setting): System {
    var x := Opened(p);
    x.(b := x.b.(correlations := map[p.c := Pending(p.h1, p.c, DEADLINE)]),
       s := Session(p.g, true, 1, map[Key(p.h1, p.c) := Entry(0, DEADLINE, false)], map[], 1),
       ops := map[0 := Op(AssignTo(p, p.h1), Waiting)], issued := 1)
  }

  function Acknowledged(p: Setting): System {
    var x := Assigned(p);
    x.(s := x.s.(pending := map[Key(p.h1, p.c) := Entry(0, DEADLINE, true)], mail := map[0 := ACK_POSITIVE]), sequence := 4)
  }

  function LookedUp(p: Setting): System {
    var x := Acknowledged(p);
    x.(s := x.s.(pending := map[]), sequence := 5,
       reader := Delivering(Key(p.h1, p.c), Bare(p.c), DEADLINE_MS))
  }

  function Reassigned(p: Setting): Broker {
    Opened(p).b.(handles := map[p.h2 := 0], correlations := map[p.c := Pending(p.h2, p.c, DEADLINE)])
  }

  lemma Admits(b: Broker, h: uint64) returns (ev: Eviction)
    requires b.active && h != 0 && h !in b.handles && b.correlations == map[] && |b.openings| < b.capacity
    requires |b.handles| < 10 && forall o :: o in b.handles ==> b.handles[o] == 0
    ensures Evicts(b.handles, Assigning(b.correlations), 0, ev)
    ensures Open(b, b.generation, h, 0, ev)
         == Step(b.(handles := b.handles[h := 0], openings := b.openings + [ConnectionOpen(b.generation, h)]), Accepted, false)
  {
    ev := Eviction(b.handles, true);
    assert Survivors(b.handles, Assigning(b.correlations), 0) == b.handles;
  }

  /** Nothing is scanned in these packets. */
  lemma Plain(p: Packet)
    requires p.handle != 0 && (p.Opened? || (p.Ack? && p.status == ACK_POSITIVE))
    ensures Sendable(p) && Scanned(Ok(p), Err(Mismatch))
  {
  }

  lemma OpenOne(mac: Mac, t: Trace, h: uint64) returns (u: Trace)
    requires t.Valid(mac) && t.states != [] && t.Last().reader == Reading && |t.Last().key| == KEY_BYTES && h != 0
    requires var x := t.Last();
      && x.s.generation == x.b.generation != 0 && 0 < x.sequence < 10 && x.b.active && h !in x.b.handles
      && x.b.correlations == map[] && |x.b.openings| < x.b.capacity && |x.b.handles| < 10
      && forall o :: o in x.b.handles ==> x.b.handles[o] == 0
    ensures u.Valid(mac) && u.states != []
    ensures var x := t.Last();
      u.Last() == x.(b := x.b.(handles := x.b.handles[h := 0], openings := x.b.openings + [ConnectionOpen(x.s.generation, h)]),
                     sequence := x.sequence + 1)
  {
    hide Run, Decode, Scanned, Sendable, OpStep, Deliver, HearAck, CloseStep, Open, Evicts, Assigning;
    var x := t.Last();
    Plain(PacketCodec.Opened(h));
    u := Receives(mac, t, PacketCodec.Opened(h), Err(Mismatch));
    var ev := Admits(x.b, h);
    u := Grow(mac, u, OpenSection(0, ev));
  }

  lemma OpenBoth(mac: Mac, p: Setting) returns (u: Trace)
    requires Proper(p)
    ensures u.Valid(mac) && u.states != [] && u.Last() == Opened(p)
  {
    var t := Trace([Initial(p)], []);
    assert t.Valid(mac);
    u := OpenOne(mac, t, p.h1);
    u := OpenOne(mac, u, p.h2);
  }

  lemma AssignFirst(mac: Mac, p: Setting, t: Trace) returns (u: Trace)
    requires Proper(p) && t.Valid(mac) && t.states != [] && t.Last() == Opened(p)
    ensures u.Valid(mac) && u.states != [] && u.Last() == Assigned(p)
  {
    hide Run, Layout;
    var a := AssignTo(p, p.h1);
    u := Grow(mac, t, Begin(0, a, 0));
    u := Grow(mac, u, EnterOp(0));
    u := Grow(mac, u, InsertOp(0, 0));
    u := Grow(mac, u, WriteOp(0, 0, true));
  }

  lemma Acknowledge(mac: Mac, p: Setting, t: Trace) returns (u: Trace)
    requires Proper(p) && t.Valid(mac) && t.states != [] && t.Last() == Assigned(p)
    ensures u.Valid(mac) && u.states != [] && u.Last() == Acknowledged(p)
  {
    hide Run, Decode, Scanned, Sendable, OpStep, Deliver, Open, CloseStep, Evicts, BrokerEvent;
    Plain(Ack(p.h1, p.c, ACK_POSITIVE));
    u := Receives(mac, t, Ack(p.h1, p.c, ACK_POSITIVE), Err(Mismatch));
    u := HearAndTell(mac, p, u);
  }

  lemma HearAndTell(mac: Mac, p: Setting, t: Trace) returns (u: Trace)
    requires Proper(p) && t.Valid(mac) && t.states != []
    requires t.Last() == Assigned(p).(reader := Acking(Key(p.h1, p.c), ACK_POSITIVE), sequence := 4)
    ensures u.Valid(mac) && u.states != [] && u.Last() == Acknowledged(p)
  {
    hide Run, Decode, Scanned, OpStep, Deliver, Open, CloseStep, Evicts, BrokerEvent;
    u := Grow(mac, t, AckSection(0));
    u := Grow(mac, u, Tell);
  }

  lemma LookUp(mac: Mac, p: Setting, t: Trace) returns (u: Trace)
    requires Proper(p) && t.Valid(mac) && t.states != [] && t.Last() == Acknowledged(p)
    ensures u.Valid(mac) && u.states != [] && u.Last() == LookedUp(p)
  {
    hide Run, Decode, Bare, OpStep, Deliver, Open, HearAck, CloseStep, Evicts, FrameScanner.Verdict, FrameScanner.ParseMessage;
    BareCarries(p.c);
    assert Scanned(Ok(Verified(p.h1, Bare(p.c))), Ok(p.c));
    hide Scanned;
    assert Sendable(Verified(p.h1, Bare(p.c)));
    u := Receives(mac, t, Verified(p.h1, Bare(p.c)), Ok(p.c));
    u := Grow(mac, u, TakeSection);
    u := Grow(mac, u, LookSection);
  }

  lemma Reassign(mac: Mac, p: Setting, t: Trace) returns (u: Trace)
    requires Proper(p) && t.Valid(mac) && t.states != [] && t.Last() == LookedUp(p)
    ensures u.Valid(mac) && |u.states| == |u.events| + 1
    ensures u.Last().reader == LookedUp(p).reader && u.Last().s.generation == p.g && u.Last().b == Reassigned(p)
  {
    hide Run, Bare, OpStep, ReaderStep, Deliver, Open, FinishAssign, BrokerEvent;
    u := Grow(mac, t, Elsewhere(BrokerRuns.Event.Expiring(p.g, p.h1, p.c, DEADLINE)));
    u := Grow(mac, u, Begin(1, AssignTo(p, p.h2), 0));
  }

  /** For any two handles and any correlation there is a run that publishes, under the second
      handle, a frame that came in a packet for the first. */
  lemma HandleCanDiffer(mac: Mac, p: Setting) returns (states: seq<System>, events: seq<Event>, j: nat, f: VerifiedFrame)
    requires Proper(p)
    ensures Run(mac, states, events) && Publishes(mac, states, events, j, f)
    ensures states[j].reader.Delivering? && states[j].reader.key == Key(p.h1, p.c)
    ensures f.handle == p.h2
  {
    hide Run, Decode, Scanned, Bare, OpStep;
    var t := OpenBoth(mac, p);
    t := AssignFirst(mac, p, t);
    t := Acknowledge(mac, p, t);
    t := LookUp(mac, p, t);
    t := Reassign(mac, p, t);
    j := |t.events|;
    BareLength(p.c);
    t := Grow(mac, t, DeliverSection(0));
    states, events := t.states, t.events;
    SessionDrain.RunKeepsInv(mac, states, events, j);
    f := VerifiedFrame(p.g, p.h2, p.c, Bare(p.c), DEADLINE);
  }
}
