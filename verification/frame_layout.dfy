/** What extraction means for whoever writes frames: it undoes serialisation, and accepts every
    frame the Java producer emits. */
module FrameLayout {
  import opened Abi
  import opened FrameScanner
  import Varint

  // ---------------------------------------------------------------- the serialiser

  predicate Writable(r: Record) {
    && 1 <= r.field <= MAX_FIELD
    && (r.Fixed64? ==> |r.data| == 8)
    && (r.Fixed32? ==> |r.data| == 4)
    && (r.Delimited? ==> |r.data| < 0x1_0000_0000_0000_0000)
  }

  function WireType(r: Record): nat {
    match r
    case Scalar(_, _) => 0
    case Fixed64(_, _) => 1
    case Delimited(_, _) => 2
    case Fixed32(_, _) => 5
  }

  function Write(r: Record): Bytes
    requires Writable(r)
  {
    Varint.Encode(8 * r.field + WireType(r)) +
    match r
    case Scalar(_, v) => Varint.Encode(v)
    case Delimited(_, data) => Varint.Encode(|data|) + data
    case _ => r.data
  }

  function WriteAll(rs: seq<Record>): Bytes
    requires forall r :: r in rs ==> Writable(r)
  {
    if rs == [] then [] else Write(rs[0]) + WriteAll(rs[1..])
  }

  lemma ParseWritten(r: Record, suffix: Bytes)
    requires Writable(r)
    ensures ParseRecord(Write(r) + suffix) == Some(Head(r, |Write(r)|))
  {
    hide Varint.Parse, Varint.Encode, Varint.Denotes;
    var tag := Varint.Encode(8 * r.field + WireType(r));
    var body := Write(r)[|tag|..];
    assert Write(r) + suffix == tag + (body + suffix);
    Varint.ParseEncoded(8 * r.field + WireType(r), body + suffix);
    assert (Write(r) + suffix)[|tag|..] == body + suffix;
    match r
    case Scalar(_, v) => Varint.ParseEncoded(v, suffix);
    case Delimited(_, data) =>
      var length := Varint.Encode(|data|);
      assert body + suffix == length + (data + suffix);
      Varint.ParseEncoded(|data|, data + suffix);
      assert (body + suffix)[|length|..|length| + |data|] == data;
    case _ =>
      assert (body + suffix)[..|r.data|] == r.data;
  }

  /** Parsing undoes serialising. */
  lemma {:induction false} RoundTrip(rs: seq<Record>)
    requires forall r :: r in rs ==> Writable(r)
    ensures ParseMessage(WriteAll(rs)) == Message(rs, true)
  {
    if rs != [] {
      var rest := WriteAll(rs[1..]);
      ParseWritten(rs[0], rest);
      assert (Write(rs[0]) + rest)[|Write(rs[0])|..] == rest;
      RoundTrip(rs[1..]);
      assert [rs[0]] + rs[1..] == rs;
    }
  }

  /** Extraction returns c from a serialised message exactly when the message carries c. */
  lemma ExtractUndoesSerialiser(rs: seq<Record>, result: Result<Correlation>, c: Correlation)
    requires forall r :: r in rs ==> Writable(r)
    requires Verdict(ParseMessage(WriteAll(rs)), result)
    ensures result == Ok(c) <==> Carries(multiset(rs), c)
  {
    RoundTrip(rs);
    VerdictAccepts(Message(rs, true), result, c);
  }

  // ---------------------------------------------------------------- what is refused

  /** Whether the payload of a wire type is there, after the tag. */
  predicate PayloadThere(wire: nat, rest: Bytes) {
    || (wire == 0 && Varint.Parse(rest).Number?)
    || (wire == 1 && |rest| >= 8)
    || (wire == 2 && Varint.Parse(rest).Number? && Varint.Parse(rest).value <= |rest| - Varint.Parse(rest).size)
    || (wire == 5 && |rest| >= 4)
  }

  /** A record is accepted exactly if its tag is a varint with field 1 to 8 and wire type 0, 1, 2 or
      5, and its payload is there; it then has the tag's field. */
  lemma RecordAcceptedIff(frame: Bytes)
    ensures ParseRecord(frame).Some? <==>
      Varint.Parse(frame).Number?
      && var tag := Varint.Parse(frame);
         1 <= tag.value / 8 <= 8 && PayloadThere(tag.value % 8, frame[tag.size..])
    ensures ParseRecord(frame).Some? ==> ParseRecord(frame).value.record.field == Varint.Parse(frame).value / 8
  {
    hide Varint.Parse;
  }

  /** A frame parses whole exactly if it is a run of accepted records up to its last byte. */
  lemma {:induction false} CompleteIff(frame: Bytes)
    ensures ParseMessage(frame).complete <==>
      frame == [] || (ParseRecord(frame).Some? && ParseMessage(frame[ParseRecord(frame).value.size..]).complete)
    ensures frame != [] && ParseRecord(frame).Some? ==>
      ParseMessage(frame).records == [ParseRecord(frame).value.record] + ParseMessage(frame[ParseRecord(frame).value.size..]).records
  {
  }

  // ---------------------------------------------------------------- the Java producer

  /** A Java byte array. */
  type JavaBytes = b: Bytes | |b| < 0x8000_0000

  datatype Principal = Principal(
    xuid: JavaBytes, displayName: JavaBytes, protocolVersion: uint64, verification: JavaBytes, verifiedAtUnixMS: uint64)

  const SOURCE_PROTOCOL: JavaBytes := [98, 101, 100, 114, 111, 99, 107]

  /** A string field is left out when empty. */
  function TextField(field: nat, text: Bytes): seq<Record> {
    if text == [] then [] else [Delimited(field, text)]
  }

  function Produced(p: Principal, c: Correlation): seq<Record> {
    [Scalar(1, 1), Delimited(2, c)] + Claims(p)
  }

  function Claims(p: Principal): seq<Record> {
    TextField(3, p.xuid) + TextField(4, p.displayName) + TextField(5, SOURCE_PROTOCOL)
    + [Scalar(6, p.protocolVersion)] + TextField(7, p.verification) + [Scalar(8, p.verifiedAtUnixMS)]
  }

  lemma ClaimsWritable(p: Principal, r: Record)
    requires r in Claims(p)
    ensures Writable(r) && r.field >= 3
  {
    var first := TextField(3, p.xuid) + TextField(4, p.displayName) + TextField(5, SOURCE_PROTOCOL);
    var last := [Scalar(6, p.protocolVersion)] + TextField(7, p.verification) + [Scalar(8, p.verifiedAtUnixMS)];
    assert Claims(p) == first + last;
    if r in first {
      assert r in TextField(3, p.xuid) || r in TextField(4, p.displayName) || r in TextField(5, SOURCE_PROTOCOL);
    } else {
      assert r in last;
    }
  }

  function ProducerFrame(p: Principal, c: Correlation): Bytes {
    assert forall r :: r in Produced(p, c) ==> Writable(r) by {
      forall r | r in Claims(p) ensures Writable(r) { ClaimsWritable(p, r); }
    }
    WriteAll(Produced(p, c))
  }

  /** What a reader of the producer's frame finds in each field: a text field only if it is not empty,
      and "bedrock" as the source protocol. */
  lemma ProducerFields(p: Principal, c: Correlation, r: Record)
    ensures ParseMessage(ProducerFrame(p, c)).complete
    ensures r in ParseMessage(ProducerFrame(p, c)).records <==>
      || r == Scalar(1, 1) || r == Delimited(2, c)
      || (p.xuid != [] && r == Delimited(3, p.xuid)) || (p.displayName != [] && r == Delimited(4, p.displayName))
      || r == Delimited(5, [98, 101, 100, 114, 111, 99, 107]) || r == Scalar(6, p.protocolVersion)
      || (p.verification != [] && r == Delimited(7, p.verification)) || r == Scalar(8, p.verifiedAtUnixMS)
  {
    forall o | o in Claims(p) ensures Writable(o) { ClaimsWritable(p, o); }
    RoundTrip(Produced(p, c));
    hide ParseMessage, WriteAll, Claims;
    ClaimsAre(p, r);
    assert r in Produced(p, c) <==> r == Scalar(1, 1) || r == Delimited(2, c) || r in Claims(p);
  }

  lemma InText(field: nat, text: Bytes, r: Record)
    ensures r in TextField(field, text) <==> text != [] && r == Delimited(field, text)
  {
  }

  lemma ClaimsAre(p: Principal, r: Record)
    ensures r in Claims(p) <==>
      || (p.xuid != [] && r == Delimited(3, p.xuid)) || (p.displayName != [] && r == Delimited(4, p.displayName))
      || r == Delimited(5, [98, 101, 100, 114, 111, 99, 107]) || r == Scalar(6, p.protocolVersion)
      || (p.verification != [] && r == Delimited(7, p.verification)) || r == Scalar(8, p.verifiedAtUnixMS)
  {
    InText(3, p.xuid, r);
    InText(4, p.displayName, r);
    InText(5, SOURCE_PROTOCOL, r);
    InText(7, p.verification, r);
    hide TextField;
    var first := TextField(3, p.xuid) + TextField(4, p.displayName);
    var second := first + TextField(5, SOURCE_PROTOCOL);
    var third := second + [Scalar(6, p.protocolVersion)];
    var fourth := third + TextField(7, p.verification);
    assert Claims(p) == fourth + [Scalar(8, p.verifiedAtUnixMS)];
  }

  lemma CarriesFirstTwo(claims: seq<Record>, c: Correlation)
    requires c != ZERO_CORRELATION && forall r :: r in claims ==> r.field >= 3
    ensures Carries(multiset([Scalar(1, 1), Delimited(2, c)] + claims), c)
  {
    var v, d, m := Scalar(1, 1), Delimited(2, c), multiset(claims);
    var records := multiset([v, d] + claims);
    assert records == multiset{v} + multiset{d} + m;
    assert v !in m && d !in m;
    assert records[v] == 1 && records[d] == 1;
    assert forall o :: o in records ==> o == v || o == d || o in m;
  }

  /** Every frame the producer emits for a nonzero correlation yields that correlation. */
  lemma ProducedFramesAreAccepted(p: Principal, c: Correlation, result: Result<Correlation>)
    requires c != ZERO_CORRELATION
    requires Verdict(ParseMessage(ProducerFrame(p, c)), result)
    ensures result == Ok(c)
  {
    hide Claims, Verdict, Carries;
    forall r | r in Claims(p) ensures Writable(r) && r.field >= 3 { ClaimsWritable(p, r); }
    CarriesFirstTwo(Claims(p), c);
    ExtractUndoesSerialiser(Produced(p, c), result, c);
  }
}
