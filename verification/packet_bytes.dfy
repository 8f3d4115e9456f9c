/** The packets byte by byte: every field at its offset, most significant byte first, with the
    numbers of the contract written out. */
module PacketBytes {
  import opened Abi
  import opened PacketCodec

  function At(packet: Bytes, i: nat): int
    requires i < |packet|
  {
    packet[i]
  }

  /** The eight bytes at an offset are n, most significant first. */
  ghost predicate BigEndianAt(packet: Bytes, offset: nat, n: uint64) {
    && offset + 8 <= |packet|
    && n == At(packet, offset) * 0x100_0000_0000_0000 + At(packet, offset + 1) * 0x1_0000_0000_0000
            + At(packet, offset + 2) * 0x100_0000_0000 + At(packet, offset + 3) * 0x1_0000_0000
            + At(packet, offset + 4) * 0x100_0000 + At(packet, offset + 5) * 0x1_0000
            + At(packet, offset + 6) * 0x100 + At(packet, offset + 7)
  }

  lemma Last(bytes: Bytes, k: nat)
    requires k < |bytes|
    ensures FromBigEndian(bytes[..k + 1]) == 256 * FromBigEndian(bytes[..k]) + bytes[k]
  {
    assert bytes[..k + 1][..k] == bytes[..k];
  }

  lemma EightBytes(bytes: Bytes)
    requires |bytes| >= 8
    ensures BigEndianAt(bytes, 0, Get(bytes))
  {
    Last(bytes, 0);
    Last(bytes, 1);
    Last(bytes, 2);
    Last(bytes, 3);
    Last(bytes, 4);
    Last(bytes, 5);
    Last(bytes, 6);
    Last(bytes, 7);
    assert bytes[..0] == [];
    assert FromBigEndian(bytes[..0]) == 0;
    assert Get(bytes) == FromBigEndian(bytes[..8]);
    hide FromBigEndian;
  }

  /** The integer written at an offset reads as that integer. */
  lemma WrittenAt(packet: Bytes, offset: nat, n: uint64)
    requires offset + 8 <= |packet| && packet[offset..offset + 8] == Put(n)
    ensures BigEndianAt(packet, offset, n)
  {
    EightBytes(Put(n));
    assert Get(Put(n)) == n;
    forall i | 0 <= i < 8 ensures At(packet, offset + i) == At(Put(n), i) {
      assert packet[offset..offset + 8][i] == packet[offset + i];
    }
    hide Put, Get;
  }

  lemma PrefixSlices(typ: byte, generation: uint64, sequence: uint64, handle: uint64)
    ensures var prefix := Prefix(typ, generation, sequence, handle);
      prefix[0] == 1 && prefix[1] == typ && prefix[2..10] == Put(generation) && prefix[10..18] == Put(sequence)
      && prefix[18..26] == Put(handle)
  {
    hide Put;
  }

  /** Every packet starts with version 1, its type, and its generation, sequence and handle; after its
      own fields follow the 32 bytes of the MAC of all that precedes it. */
  lemma PrefixBytes(mac: Mac, key: Bytes, generation: uint64, sequence: uint64, p: Packet)
    ensures var packet := Layout(mac, key, generation, sequence, p);
      && |packet| >= 58 && packet[0] == 1
      && (packet[1] == match p case Assignment(_, _, _) => 1 case Ack(_, _, _) => 2 case Verified(_, _) => 3 case Opened(_) => 4)
      && BigEndianAt(packet, 2, generation) && BigEndianAt(packet, 10, sequence) && BigEndianAt(packet, 18, p.handle)
      && packet[|packet| - 32..] == mac(key, packet[..|packet| - 32])
  {
    var message := Prefix(TypeOf(p), generation, sequence, p.handle) + Body(p);
    var packet := Layout(mac, key, generation, sequence, p);
    assert packet == message + mac(key, message) && |mac(key, message)| == 32;
    assert packet[..|message|] == message && packet[|message|..] == mac(key, message);
    PrefixSlices(TypeOf(p), generation, sequence, p.handle);
    var prefix := Prefix(TypeOf(p), generation, sequence, p.handle);
    assert packet[..26] == prefix;
    hide Put, BigEndianAt, Layout, Prefix;
    assert packet[..26][2..10] == packet[2..10] && packet[..26][10..18] == packet[10..18] && packet[..26][18..26] == packet[18..26];
    assert packet[0] == prefix[0] && packet[1] == prefix[1];
    WrittenAt(packet, 2, generation);
    WrittenAt(packet, 10, sequence);
    WrittenAt(packet, 18, p.handle);
  }

  /** The fields between prefix and MAC, and the length. */
  lemma BodyBytes(mac: Mac, key: Bytes, generation: uint64, sequence: uint64, p: Packet)
    ensures var packet := Layout(mac, key, generation, sequence, p);
      match p
      case Assignment(_, c, expires) => |packet| == 82 && packet[26..42] == c && BigEndianAt(packet, 42, expires)
      case Ack(_, c, status) => |packet| == 75 && packet[26..42] == c && packet[42] == status
      case Verified(_, payload) => |packet| == 58 + |payload| && packet[26..|packet| - 32] == payload
      case Opened(_) => |packet| == 58
  {
    var message := Prefix(TypeOf(p), generation, sequence, p.handle) + Body(p);
    var packet := Layout(mac, key, generation, sequence, p);
    assert packet == message + mac(key, message) && |mac(key, message)| == 32;
    assert packet[26..|message|] == Body(p);
    match p
    case Assignment(_, c, expires) =>
      assert packet[26..|message|][..16] == c && packet[26..|message|][16..] == Put(expires);
      WrittenAt(packet, 42, expires);
    case _ =>
  }

  // ---------------------------------------------------------------- refusals

  /** The length of a packet of each type, 58 or more being given; for a verified frame, one that
      leaves a payload of 1 to 4096 bytes. */
  predicate LengthFits(packet: Bytes)
    requires |packet| >= 58
  {
    match packet[1]
    case 1 => |packet| == 82
    case 2 => |packet| == 75
    case 3 => 59 <= |packet| <= 4154
    case 4 => |packet| == 58
    case _ => false
  }

  /** Why a packet is refused, in the order of the tests: size and type, MAC, version, generation,
      sequence, handle, and the status of an ACK. */
  function Refusal(mac: Mac, packet: Bytes, key: Bytes, generation: uint64, sequence: uint64): Option<IngressError> {
    if |key| != 32 || |packet| < 58 || |packet| > 8192 then Some(AbiMismatch)
    else if !LengthFits(packet) then Some(if packet[1] == 3 then BadFrame else AbiMismatch)
    else if packet[|packet| - 32..] != mac(key, packet[..|packet| - 32]) then Some(AuthenticationFailed)
    else if packet[0] != 1 then Some(AbiMismatch)
    else if Get(packet[2..]) != generation || generation == 0 then Some(StaleGeneration)
    else if Get(packet[10..]) != sequence || sequence == 0 then Some(BadSequence)
    else if Get(packet[18..]) == 0 then Some(Mismatch)
    else if packet[1] == 2 && packet[42] > 1 then Some(Rejected)
    else None
  }

  lemma DecodeRefusal(mac: Mac, packet: Bytes, key: Bytes, generation: uint64, sequence: uint64)
    ensures var decoded, refusal := Decode(mac, packet, key, generation, sequence), Refusal(mac, packet, key, generation, sequence);
      if refusal.Some? then decoded == Err(refusal.value) else decoded.Ok?
  {
    hide Get;
  }
}
