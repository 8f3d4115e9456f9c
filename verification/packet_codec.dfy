/** The authenticated packet codec of go/subprocess_ingress.go. HMAC-SHA256 is an arbitrary
    function of key and message with 32-byte results; nothing is claimed about forgery. Offsets
    and sizes are those the Java end of the same wire format declares. */
module PacketCodec {
  import opened Abi

  const FRAME_VERSION: byte := 1
  const TYPE_ASSIGNMENT: byte := 1
  const TYPE_ACK: byte := 2
  const TYPE_VERIFIED: byte := 3
  const TYPE_OPEN: byte := 4
  const ACK_POSITIVE: byte := 0
  const ACK_NEGATIVE: byte := 1
  const KEY_BYTES: nat := 32
  const MAC_BYTES: nat := 32
  const MAX_PACKET_BYTES: nat := 8192
  const TYPE_OFFSET: nat := 1
  const GENERATION_OFFSET: nat := 2
  const SEQUENCE_OFFSET: nat := 10
  const HANDLE_OFFSET: nat := 18
  const CORRELATION_OFFSET: nat := 26
  const EXPIRES_OFFSET: nat := 42
  const ASSIGNMENT_MAC_OFFSET: nat := 50
  const ASSIGNMENT_BYTES: nat := 82
  const ACK_STATUS_OFFSET: nat := 42
  const ACK_MAC_OFFSET: nat := 43
  const ACK_BYTES: nat := 75
  const PAYLOAD_OFFSET: nat := 26
  const OPEN_MAC_OFFSET: nat := 26
  const OPEN_BYTES: nat := 58
  const MIN_VERIFIED_BYTES: nat := PAYLOAD_OFFSET + MIN_FRAME_BYTES + MAC_BYTES
  const MAX_VERIFIED_BYTES: nat := PAYLOAD_OFFSET + MAX_FRAME_BYTES + MAC_BYTES

  /** HMAC-SHA256, uninterpreted: mac(key, message). */
  type Mac = f: (Bytes, Bytes) -> Bytes | forall k, m :: |f(k, m)| == MAC_BYTES
    witness (k, m) => [0, 0, 0, 0, 0, 0, 0, 0, 0, 0, 0, 0, 0, 0, 0, 0, 0, 0, 0, 0, 0, 0, 0, 0, 0, 0, 0, 0, 0, 0, 0, 0]

  datatype Packet =
    | Assignment(handle: uint64, correlation: Correlation, expiresUnixMS: uint64)
    | Ack(handle: uint64, correlation: Correlation, status: byte)
    | Verified(handle: uint64, payload: Bytes)
    | Opened(handle: uint64)

  // ---------------------------------------------------------------- big-endian integers

  function Pow256(w: nat): nat {
    if w == 0 then 1 else 256 * Pow256(w - 1)
  }

  function BigEndian(n: nat, w: nat): (bytes: Bytes)
    ensures |bytes| == w
  {
    if w == 0 then [] else BigEndian(n / 256, w - 1) + [n % 256]
  }

  function FromBigEndian(bytes: Bytes): nat {
    if bytes == [] then 0 else 256 * FromBigEndian(bytes[..|bytes| - 1]) + bytes[|bytes| - 1]
  }

  lemma {:induction false} BigEndianRead(n: nat, w: nat)
    requires n < Pow256(w)
    ensures FromBigEndian(BigEndian(n, w)) == n
    decreases w
  {
    if w > 0 {
      BigEndianRead(n / 256, w - 1);
      assert BigEndian(n, w)[..w - 1] == BigEndian(n / 256, w - 1);
    }
  }

  lemma {:induction false} BigEndianWritten(bytes: Bytes)
    ensures FromBigEndian(bytes) < Pow256(|bytes|)
    ensures BigEndian(FromBigEndian(bytes), |bytes|) == bytes
  {
    if bytes != [] { BigEndianWritten(bytes[..|bytes| - 1]); }
  }

  lemma Pow256Of8()
    ensures Pow256(8) == 0x1_0000_0000_0000_0000
  {
    assert Pow256(4) == 0x1_0000_0000;
  }

  /** binary.BigEndian.PutUint64. */
  function Put(n: uint64): (bytes: Bytes)
    ensures |bytes| == 8 && Get(bytes) == n
  {
    Pow256Of8();
    BigEndianRead(n, 8);
    assert BigEndian(n, 8)[..8] == BigEndian(n, 8);
    BigEndian(n, 8)
  }

  /** binary.BigEndian.Uint64 of the first eight bytes. */
  function Get(bytes: Bytes): (n: uint64)
    requires |bytes| >= 8
  {
    Pow256Of8();
    BigEndianWritten(bytes[..8]);
    FromBigEndian(bytes[..8])
  }

  lemma PutGet(bytes: Bytes)
    requires |bytes| == 8
    ensures Put(Get(bytes)) == bytes
  {
    assert bytes[..8] == bytes;
    BigEndianWritten(bytes);
  }

  // ---------------------------------------------------------------- the wire layout

  function TypeOf(p: Packet): byte {
    match p
    case Assignment(_, _, _) => TYPE_ASSIGNMENT
    case Ack(_, _, _) => TYPE_ACK
    case Verified(_, _) => TYPE_VERIFIED
    case Opened(_) => TYPE_OPEN
  }

  function Prefix(typ: byte, generation: uint64, sequence: uint64, handle: uint64): (bytes: Bytes)
    ensures |bytes| == CORRELATION_OFFSET
  {
    [FRAME_VERSION, typ] + Put(generation) + Put(sequence) + Put(handle)
  }

  function Body(p: Packet): Bytes {
    match p
    case Assignment(_, c, expires) => c + Put(expires)
    case Ack(_, c, status) => c + [status]
    case Verified(_, payload) => payload
    case Opened(_) => []
  }

  function Sealed(mac: Mac, key: Bytes, message: Bytes): Bytes {
    message + mac(key, message)
  }

  /** The bytes of a packet on the wire. */
  function Layout(mac: Mac, key: Bytes, generation: uint64, sequence: uint64, p: Packet): Bytes {
    Sealed(mac, key, Prefix(TypeOf(p), generation, sequence, p.handle) + Body(p))
  }

  /** The packets a peer may send. */
  predicate Sendable(p: Packet) {
    && p.handle != 0
    && (p.Ack? ==> p.status == ACK_POSITIVE || p.status == ACK_NEGATIVE)
    && (p.Verified? ==> MIN_FRAME_BYTES <= |p.payload| <= MAX_FRAME_BYTES)
  }

  // ---------------------------------------------------------------- decoding

  /** Where the MAC starts in a packet of this type and length. */
  function MacOffset(packet: Bytes): (r: Result<nat>)
    requires |packet| >= OPEN_BYTES
    ensures r.Ok? ==> CORRELATION_OFFSET <= r.value <= |packet|
  {
    var typ := packet[TYPE_OFFSET];
    if typ == TYPE_ASSIGNMENT then
      if |packet| != ASSIGNMENT_BYTES then Err(AbiMismatch) else Ok(ASSIGNMENT_MAC_OFFSET)
    else if typ == TYPE_ACK then
      if |packet| != ACK_BYTES then Err(AbiMismatch) else Ok(ACK_MAC_OFFSET)
    else if typ == TYPE_VERIFIED then
      if |packet| < MIN_VERIFIED_BYTES || |packet| > MAX_VERIFIED_BYTES then Err(BadFrame) else Ok(|packet| - MAC_BYTES)
    else if typ == TYPE_OPEN then
      if |packet| != OPEN_BYTES then Err(AbiMismatch) else Ok(OPEN_MAC_OFFSET)
    else Err(AbiMismatch)
  }

  /** decodeAuthenticatedPacket. */
  function Decode(mac: Mac, packet: Bytes, key: Bytes, generation: uint64, sequence: uint64): Result<Packet> {
    if |key| != KEY_BYTES || |packet| > MAX_PACKET_BYTES || |packet| < OPEN_BYTES then Err(AbiMismatch)
    else
      match MacOffset(packet)
      case Err(e) => Err(e)
      case Ok(macOffset) =>
        if packet[macOffset..] != mac(key, packet[..macOffset]) then Err(AuthenticationFailed)
        else if packet[0] != FRAME_VERSION then Err(AbiMismatch)
        else if Get(packet[GENERATION_OFFSET..]) != generation || generation == 0 then Err(StaleGeneration)
        else if Get(packet[SEQUENCE_OFFSET..]) != sequence || sequence == 0 then Err(BadSequence)
        else
          var handle := Get(packet[HANDLE_OFFSET..]);
          if handle == 0 then Err(Mismatch)
          else if packet[TYPE_OFFSET] == TYPE_ASSIGNMENT then
            Ok(Assignment(handle, packet[CORRELATION_OFFSET..EXPIRES_OFFSET], Get(packet[EXPIRES_OFFSET..])))
          else if packet[TYPE_OFFSET] == TYPE_ACK then
            var status := packet[ACK_STATUS_OFFSET];
            if status != ACK_POSITIVE && status != ACK_NEGATIVE then Err(Rejected)
            else Ok(Ack(handle, packet[CORRELATION_OFFSET..ACK_STATUS_OFFSET], status))
          else if packet[TYPE_OFFSET] == TYPE_VERIFIED then
            Ok(Verified(handle, packet[PAYLOAD_OFFSET..macOffset]))
          else Ok(Opened(handle))
  }

  // ---------------------------------------------------------------- round trip and canonicity

  /** Where the fields of a prefix lie, whatever follows it. */
  lemma PrefixFields(typ: byte, generation: uint64, sequence: uint64, handle: uint64, rest: Bytes)
    ensures var packet := Prefix(typ, generation, sequence, handle) + rest;
      && packet[0] == FRAME_VERSION && packet[TYPE_OFFSET] == typ
      && Get(packet[GENERATION_OFFSET..]) == generation
      && Get(packet[SEQUENCE_OFFSET..]) == sequence
      && Get(packet[HANDLE_OFFSET..]) == handle
  {
    var packet := Prefix(typ, generation, sequence, handle) + rest;
    assert packet[GENERATION_OFFSET..][..8] == Put(generation) == Put(generation)[..8];
    assert packet[SEQUENCE_OFFSET..][..8] == Put(sequence) == Put(sequence)[..8];
    assert packet[HANDLE_OFFSET..][..8] == Put(handle) == Put(handle)[..8];
  }

  /** A packet with these field readings starts with that prefix. */
  lemma PrefixRebuilt(packet: Bytes)
    requires |packet| >= CORRELATION_OFFSET && packet[0] == FRAME_VERSION
    ensures packet[..CORRELATION_OFFSET] == Prefix(packet[TYPE_OFFSET], Get(packet[GENERATION_OFFSET..]),
                                                   Get(packet[SEQUENCE_OFFSET..]), Get(packet[HANDLE_OFFSET..]))
  {
    var g, s, h := packet[GENERATION_OFFSET..SEQUENCE_OFFSET], packet[SEQUENCE_OFFSET..HANDLE_OFFSET], packet[HANDLE_OFFSET..CORRELATION_OFFSET];
    assert packet[GENERATION_OFFSET..][..8] == g == g[..8];
    assert packet[SEQUENCE_OFFSET..][..8] == s == s[..8];
    assert packet[HANDLE_OFFSET..][..8] == h == h[..8];
    PutGet(g);
    PutGet(s);
    PutGet(h);
    assert packet[..CORRELATION_OFFSET] == [packet[0], packet[TYPE_OFFSET]] + g + s + h;
  }

  /** Decoding what was encoded: the same fields if the receiver expects that generation and
      sequence number, and otherwise the error that names the one that differs. */
  lemma DecodeEncoded(mac: Mac, key: Bytes, generation: uint64, sequence: uint64, p: Packet, expectedGeneration: uint64, expectedSequence: uint64)
    requires |key| == KEY_BYTES && Sendable(p)
    ensures Decode(mac, Layout(mac, key, generation, sequence, p), key, expectedGeneration, expectedSequence)
         == if generation != expectedGeneration || expectedGeneration == 0 then Err(StaleGeneration)
            else if sequence != expectedSequence || expectedSequence == 0 then Err(BadSequence)
            else Ok(p)
  {
    hide Put, Get, Prefix, Pow256, BigEndian, FromBigEndian;
    var prefix := Prefix(TypeOf(p), generation, sequence, p.handle);
    var message := prefix + Body(p);
    var packet := Sealed(mac, key, message);
    assert packet == prefix + (Body(p) + mac(key, message));
    PrefixFields(TypeOf(p), generation, sequence, p.handle, Body(p) + mac(key, message));
    assert packet[..|message|] == message && packet[|message|..] == mac(key, message);
    match p
    case Assignment(_, c, expires) =>
      assert packet[CORRELATION_OFFSET..EXPIRES_OFFSET] == c;
      GetAt(packet, EXPIRES_OFFSET, expires);
    case Ack(_, c, status) =>
      assert packet[CORRELATION_OFFSET..ACK_STATUS_OFFSET] == c;
    case Verified(_, payload) =>
      assert packet[PAYLOAD_OFFSET..|message|] == payload;
    case Opened(_) =>
  }

  lemma GetAt(packet: Bytes, offset: nat, n: uint64)
    requires offset + 8 <= |packet| && packet[offset..offset + 8] == Put(n)
    ensures Get(packet[offset..]) == n
  {
    assert packet[offset..][..8] == packet[offset..offset + 8];
    assert Put(n)[..8] == Put(n);
  }

  /** Only one byte string decodes to given fields: an accepted packet is the encoding of what it
      decodes to. */
  lemma EncodeDecoded(mac: Mac, packet: Bytes, key: Bytes, generation: uint64, sequence: uint64)
    requires Decode(mac, packet, key, generation, sequence).Ok?
    ensures var p := Decode(mac, packet, key, generation, sequence).value;
      && Sendable(p) && generation != 0 && sequence != 0 && |key| == KEY_BYTES
      && packet == Layout(mac, key, generation, sequence, p)
  {
    hide Put, Get, Prefix;
    var p := Decode(mac, packet, key, generation, sequence).value;
    var macOffset := MacOffset(packet).value;
    PrefixRebuilt(packet);
    assert packet == packet[..macOffset] + packet[macOffset..];
    assert packet[..macOffset] == packet[..CORRELATION_OFFSET] + packet[CORRELATION_OFFSET..macOffset];
    if p.Assignment? {
      var expires := packet[EXPIRES_OFFSET..ASSIGNMENT_MAC_OFFSET];
      assert packet[EXPIRES_OFFSET..][..8] == expires == expires[..8];
      GetPrefix(packet[EXPIRES_OFFSET..], expires);
      PutGet(expires);
      assert packet[CORRELATION_OFFSET..macOffset] == packet[CORRELATION_OFFSET..EXPIRES_OFFSET] + expires;
    } else if p.Ack? {
      assert packet[CORRELATION_OFFSET..macOffset] == packet[CORRELATION_OFFSET..ACK_STATUS_OFFSET] + [packet[ACK_STATUS_OFFSET]];
    }
  }

  lemma GetPrefix(bytes: Bytes, first: Bytes)
    requires |first| == 8 && |bytes| >= 8 && bytes[..8] == first
    ensures Get(bytes) == Get(first)
  {
    assert first[..8] == first;
  }

  /** Acceptance, exactly: a packet is accepted as p if and only if it is the encoding of p, with
      the expected nonzero generation and sequence, and p is sendable. */
  lemma AcceptedIffEncoded(mac: Mac, packet: Bytes, key: Bytes, generation: uint64, sequence: uint64, p: Packet)
    requires |key| == KEY_BYTES
    ensures Decode(mac, packet, key, generation, sequence) == Ok(p)
       <==> generation != 0 && sequence != 0 && Sendable(p) && packet == Layout(mac, key, generation, sequence, p)
  {
    hide Decode, Layout;
    if Decode(mac, packet, key, generation, sequence) == Ok(p) {
      EncodeDecoded(mac, packet, key, generation, sequence);
    }
    if generation != 0 && sequence != 0 && Sendable(p) && packet == Layout(mac, key, generation, sequence, p) {
      DecodeEncoded(mac, key, generation, sequence, p, generation, sequence);
    }
  }

  // ---------------------------------------------------------------- the encoders' byte buffers

  /** The builtin copy into a buffer at an offset. */
  method Copy(dst: array<byte>, offset: nat, src: Bytes)
    requires offset + |src| <= dst.Length
    modifies dst
    ensures dst[..] == old(dst[..offset]) + src + old(dst[offset + |src|..])
  {
    forall i | 0 <= i < |src| {
      dst[offset + i] := src[i];
    }
  }

  method AuthenticatedPrefix(typ: byte, generation: uint64, sequence: uint64, handle: uint64, size: nat) returns (packet: array<byte>)
    requires size >= CORRELATION_OFFSET
    ensures fresh(packet) && packet.Length == size
    ensures packet[..CORRELATION_OFFSET] == Prefix(typ, generation, sequence, handle)
  {
    packet := new byte[size](i => 0);
    packet[0] := FRAME_VERSION;
    packet[TYPE_OFFSET] := typ;
    Copy(packet, GENERATION_OFFSET, Put(generation));
    Copy(packet, SEQUENCE_OFFSET, Put(sequence));
    Copy(packet, HANDLE_OFFSET, Put(handle));
  }

  method Sign(mac: Mac, packet: array<byte>, key: Bytes, macOffset: nat)
    requires packet.Length == macOffset + MAC_BYTES
    modifies packet
    ensures packet[..] == Sealed(mac, key, old(packet[..macOffset]))
  {
    Copy(packet, macOffset, mac(key, packet[..macOffset]));
  }

  method EncodeAssignment(mac: Mac, key: Bytes, generation: uint64, sequence: uint64, handle: uint64,
                          correlation: Correlation, expiresUnixMS: uint64) returns (packet: array<byte>)
    ensures fresh(packet)
    ensures packet[..] == Layout(mac, key, generation, sequence, Assignment(handle, correlation, expiresUnixMS))
  {
    packet := AuthenticatedPrefix(TYPE_ASSIGNMENT, generation, sequence, handle, ASSIGNMENT_BYTES);
    ghost var prefix := Prefix(TYPE_ASSIGNMENT, generation, sequence, handle);
    Copy(packet, CORRELATION_OFFSET, correlation);
    assert packet[..EXPIRES_OFFSET] == prefix + correlation;
    Copy(packet, EXPIRES_OFFSET, Put(expiresUnixMS));
    assert packet[..ASSIGNMENT_MAC_OFFSET] == prefix + (correlation + Put(expiresUnixMS));
    Sign(mac, packet, key, ASSIGNMENT_MAC_OFFSET);
  }

  method EncodeAck(mac: Mac, key: Bytes, generation: uint64, sequence: uint64, handle: uint64,
                   correlation: Correlation, status: byte) returns (packet: array<byte>)
    ensures fresh(packet)
    ensures packet[..] == Layout(mac, key, generation, sequence, Ack(handle, correlation, status))
  {
    packet := AuthenticatedPrefix(TYPE_ACK, generation, sequence, handle, ACK_BYTES);
    ghost var prefix := Prefix(TYPE_ACK, generation, sequence, handle);
    Copy(packet, CORRELATION_OFFSET, correlation);
    assert packet[..ACK_STATUS_OFFSET] == prefix + correlation;
    packet[ACK_STATUS_OFFSET] := status;
    assert packet[..ACK_MAC_OFFSET] == prefix + (correlation + [status]);
    Sign(mac, packet, key, ACK_MAC_OFFSET);
  }

  method EncodeOpen(mac: Mac, key: Bytes, generation: uint64, sequence: uint64, handle: uint64) returns (packet: array<byte>)
    ensures fresh(packet)
    ensures packet[..] == Layout(mac, key, generation, sequence, Opened(handle))
  {
    packet := AuthenticatedPrefix(TYPE_OPEN, generation, sequence, handle, OPEN_BYTES);
    assert packet[..OPEN_MAC_OFFSET] == Prefix(TYPE_OPEN, generation, sequence, handle) + [];
    Sign(mac, packet, key, OPEN_MAC_OFFSET);
  }

  method EncodeVerified(mac: Mac, key: Bytes, generation: uint64, sequence: uint64, handle: uint64, payload: Bytes)
    returns (packet: array<byte>)
    ensures fresh(packet)
    ensures packet[..] == Layout(mac, key, generation, sequence, Verified(handle, payload))
  {
    var macOffset := PAYLOAD_OFFSET + |payload|;
    packet := AuthenticatedPrefix(TYPE_VERIFIED, generation, sequence, handle, macOffset + MAC_BYTES);
    Copy(packet, PAYLOAD_OFFSET, payload);
    assert packet[..macOffset] == Prefix(TYPE_VERIFIED, generation, sequence, handle) + payload;
    Sign(mac, packet, key, macOffset);
  }
}
