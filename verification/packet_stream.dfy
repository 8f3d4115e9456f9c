/** The numbered packet stream: the read loop's decoding and counting in
    go/subprocess_ingress.go, against what a writer with a counter put on the wire. */
module PacketStream {
  import opened Abi
  import opened PacketCodec

  /** sequence++ on a uint64. */
  function Succ(sequence: uint64): uint64 {
    (sequence + 1) % 0x1_0000_0000_0000_0000
  }

  datatype Received = Received(accepted: seq<Packet>, failure: Option<IngressError>)

  /** The packets accepted from a stream by a reader that stops at the first failure. */
  function Receive(mac: Mac, key: Bytes, generation: uint64, packets: seq<Bytes>, sequence: uint64): Received {
    if packets == [] then Received([], None)
    else
      match Decode(mac, packets[0], key, generation, sequence)
      case Err(e) => Received([], Some(e))
      case Ok(p) =>
        var rest := Receive(mac, key, generation, packets[1..], Succ(sequence));
        Received([p] + rest.accepted, rest.failure)
  }

  /** readLoop, reduced to what it does with the packets of the connection before dispatching
      them: decode each at the running sequence number, which starts at 1. */
  method ReadLoop(mac: Mac, key: Bytes, generation: uint64, packets: seq<Bytes>) returns (received: Received)
    ensures received == Receive(mac, key, generation, packets, 1)
  {
    var sequence: uint64 := 1;
    var accepted: seq<Packet> := [];
    var n := 0;
    while n < |packets|
      invariant 0 <= n <= |packets|
      invariant var rest := Receive(mac, key, generation, packets[n..], sequence);
        Receive(mac, key, generation, packets, 1) == Received(accepted + rest.accepted, rest.failure)
    {
      var decoded := Decode(mac, packets[n], key, generation, sequence);
      assert packets[n..][0] == packets[n] && packets[n..][1..] == packets[n + 1..];
      if decoded.Err? {
        assert accepted + [] == accepted;
        return Received(accepted, Some(decoded.error));
      }
      ghost var rest := Receive(mac, key, generation, packets[n + 1..], Succ(sequence));
      assert accepted + ([decoded.value] + rest.accepted) == accepted + [decoded.value] + rest.accepted;
      sequence := Succ(sequence);
      accepted := accepted + [decoded.value];
      n := n + 1;
    }
    assert packets[n..] == [] && accepted + [] == accepted;
    return Received(accepted, None);
  }

  /** The wire image of the i-th packet written: packets are numbered 1, 2, 3, ... */
  function Written(mac: Mac, key: Bytes, generation: uint64, sent: seq<Packet>, i: nat): Bytes
    requires i < |sent| < 0x1_0000_0000_0000_0000
  {
    Layout(mac, key, generation, i + 1, sent[i])
  }

  /** How many packets, from position k on, arrive exactly in their places. */
  function InPlace(arrivals: seq<nat>, k: nat): (n: nat)
    requires k <= |arrivals|
    ensures n <= |arrivals| - k
    ensures forall j :: k <= j < k + n ==> arrivals[j] == j
    ensures k + n < |arrivals| ==> arrivals[k + n] != k + n
    decreases |arrivals| - k
  {
    if k == |arrivals| || arrivals[k] != k then 0 else 1 + InPlace(arrivals, k + 1)
  }

  /** The packets of `arrivals`, by their places in what was sent, are what arrived. */
  ghost predicate Arrived(mac: Mac, key: Bytes, generation: uint64, sent: seq<Packet>, arrivals: seq<nat>, packets: seq<Bytes>)
    requires |sent| < 0x1_0000_0000_0000_0000
  {
    && |packets| == |arrivals|
    && forall j :: 0 <= j < |arrivals| ==>
         arrivals[j] < |sent| && packets[j] == Written(mac, key, generation, sent, arrivals[j])
  }

  ghost predicate AllSendable(sent: seq<Packet>) {
    forall i :: 0 <= i < |sent| ==> Sendable(sent[i])
  }

  /** Stream agreement. Whatever written packets arrive, in whatever order and however often, the
      reader accepts exactly those before the first position where the arrival is not the packet
      written there, and reports a sequence failure at that position. */
  lemma StreamAgreement(mac: Mac, key: Bytes, generation: uint64, sent: seq<Packet>, arrivals: seq<nat>, packets: seq<Bytes>)
    requires |key| == KEY_BYTES && generation != 0 && |sent| < 0x1_0000_0000_0000_0000 && AllSendable(sent)
    requires Arrived(mac, key, generation, sent, arrivals, packets)
    ensures var n := InPlace(arrivals, 0);
      && n <= |sent|
      && Receive(mac, key, generation, packets, 1)
         == Received(sent[..n], if n < |arrivals| then Some(BadSequence) else None)
  {
    AgreementFrom(mac, key, generation, sent, arrivals, packets, 0, 1);
    assert packets[0..] == packets;
    assert sent[0..InPlace(arrivals, 0)] == sent[..InPlace(arrivals, 0)];
  }

  lemma {:induction false} AgreementFrom(mac: Mac, key: Bytes, generation: uint64, sent: seq<Packet>, arrivals: seq<nat>,
                                         packets: seq<Bytes>, k: nat, expected: uint64)
    requires |key| == KEY_BYTES && generation != 0 && |sent| < 0x1_0000_0000_0000_0000 && AllSendable(sent)
    requires Arrived(mac, key, generation, sent, arrivals, packets) && k <= |arrivals| && k <= |sent|
    requires expected == if k == 0xffff_ffff_ffff_ffff then 0 else k + 1
    ensures var n := InPlace(arrivals, k);
      && k + n <= |sent|
      && Receive(mac, key, generation, packets[k..], expected)
         == Received(sent[k..k + n], if k + n < |arrivals| then Some(BadSequence) else None)
    decreases |arrivals| - k
  {
    hide Decode, Layout, Sendable, Receive, Succ;
    if k < |arrivals| {
      var i := arrivals[k];
      ReceiveNext(mac, key, generation, packets, k, expected);
      assert packets[k] == Written(mac, key, generation, sent, i);
      DecodeEncoded(mac, key, generation, i + 1, sent[i], generation, expected);
      if i == k {
        SuccAt(k, expected);
        AgreementFrom(mac, key, generation, sent, arrivals, packets, k + 1, Succ(expected));
        SliceHead(sent, k, InPlace(arrivals, k + 1));
      } else {
        assert sent[k..k] == [];
      }
    } else {
      assert packets[k..] == [] && sent[k..k] == [];
      ReceiveNone(mac, key, generation, expected);
    }
  }

  lemma SliceHead<T>(s: seq<T>, k: nat, n: nat)
    requires k + 1 + n <= |s|
    ensures s[k..k + (1 + n)] == [s[k]] + s[k + 1..k + 1 + n]
  {
  }

  lemma SuccAt(k: nat, expected: uint64)
    requires k < 0xffff_ffff_ffff_ffff && expected == k + 1
    ensures Succ(expected) == if k + 1 == 0xffff_ffff_ffff_ffff then 0 else k + 2
  {
  }

  lemma ReceiveNone(mac: Mac, key: Bytes, generation: uint64, expected: uint64)
    ensures Receive(mac, key, generation, [], expected) == Received([], None)
  {
  }

  lemma ReceiveNext(mac: Mac, key: Bytes, generation: uint64, packets: seq<Bytes>, k: nat, expected: uint64)
    requires k < |packets|
    ensures Receive(mac, key, generation, packets[k..], expected)
      == match Decode(mac, packets[k], key, generation, expected)
         case Err(e) => Received([], Some(e))
         case Ok(p) =>
           var rest := Receive(mac, key, generation, packets[k + 1..], Succ(expected));
           Received([p] + rest.accepted, rest.failure)
  {
    hide Decode;
    assert packets[k..][0] == packets[k] && packets[k..][1..] == packets[k + 1..];
  }
}
