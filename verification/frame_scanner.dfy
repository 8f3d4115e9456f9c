/** extractIngressCorrelation of go/subprocess_ingress.go: a scanning loop over protobuf records
    ("Message Structure", Protocol Buffers Encoding specification), proved against a recursive
    record parser and a verdict on the multiset of records found. */
module FrameScanner {
  import opened Abi
  import Varint

  const MAX_FIELD: nat := 8

  datatype Record =
    | Scalar(field: nat, value: uint64)
    | Fixed64(field: nat, data: Bytes)
    | Delimited(field: nat, data: Bytes)
    | Fixed32(field: nat, data: Bytes)

  // ---------------------------------------------------------------- the recursive parser

  datatype Head = Head(record: Record, size: nat)

  /** The record at the head of a frame, with the number of bytes it occupies. */
  function ParseRecord(frame: Bytes): (r: Option<Head>)
    ensures r.Some? ==> 0 < r.value.size <= |frame|
  {
    match Varint.Parse(frame)
    case Truncated => None
    case TooLong => None
    case Number(tag, n) =>
      var field, wire := tag / 8, tag % 8;
      var rest := frame[n..];
      if field == 0 || field > MAX_FIELD then None
      else if wire == 0 then
        match Varint.Parse(rest)
        case Number(v, size) => Some(Head(Scalar(field, v), n + size))
        case _ => None
      else if wire == 1 then
        if |rest| < 8 then None else Some(Head(Fixed64(field, rest[..8]), n + 8))
      else if wire == 2 then
        match Varint.Parse(rest)
        case Number(length, size) =>
          if length > |rest| - size then None
          else Some(Head(Delimited(field, rest[size..size + length]), n + size + length))
        case _ => None
      else if wire == 5 then
        if |rest| < 4 then None else Some(Head(Fixed32(field, rest[..4]), n + 4))
      else None
  }

  /** The records of a frame up to its end or its first malformed record. */
  datatype Message = Message(records: seq<Record>, complete: bool)

  function ParseMessage(frame: Bytes): Message
    decreases |frame|
  {
    if frame == [] then Message([], true)
    else
      match ParseRecord(frame)
      case None => Message([], false)
      case Some(head) =>
        var rest := ParseMessage(frame[head.size..]);
        Message([head.record] + rest.records, rest.complete)
  }

  // ---------------------------------------------------------------- the verdict

  predicate IsVersion(r: Record) { r.Scalar? && r.field == 1 }
  predicate IsCorrelation(r: Record) { r.Delimited? && r.field == 2 }

  /** Exactly one record of the multiset satisfies p, and it is r. */
  ghost predicate Only(records: multiset<Record>, p: Record -> bool, r: Record) {
    r in records && p(r) && records[r] == 1 && forall o :: o in records && p(o) ==> o == r
  }

  ghost predicate Absent(records: multiset<Record>, p: Record -> bool) {
    forall o :: o in records ==> !p(o)
  }

  /** One version field equal to 1, one nonzero sixteen-byte correlation field. */
  ghost predicate Carries(records: multiset<Record>, c: Correlation) {
    && Only(records, IsVersion, Scalar(1, VERIFIED_INGRESS_VERSION))
    && Only(records, IsCorrelation, Delimited(2, c))
    && c != ZERO_CORRELATION
  }

  /** Record r, after the records `before`, is one the scan refuses. */
  ghost predicate Faulty(before: multiset<Record>, r: Record) {
    || (IsVersion(r) && (!Absent(before, IsVersion) || r.value != VERIFIED_INGRESS_VERSION))
    || (IsCorrelation(r) && (!Absent(before, IsCorrelation) || |r.data| != CORRELATION_BYTES))
  }

  ghost predicate FaultAt(records: seq<Record>, k: int) {
    0 <= k < |records| && Faulty(multiset(records[..k]), records[k])
  }

  ghost predicate FaultFree(records: seq<Record>) {
    forall k :: !FaultAt(records, k)
  }

  /** The scan's result: the first fault in record order decides; then a malformed record; then
      whether the message carries a correlation. */
  ghost predicate Verdict(m: Message, result: Result<Correlation>) {
    && (forall k :: FaultAt(m.records, k) && FaultFree(m.records[..k]) ==>
          result == Err(if IsCorrelation(m.records[k]) then Mismatch else AbiMismatch))
    && (FaultFree(m.records) && !m.complete ==> result == Err(AbiMismatch))
    && (FaultFree(m.records) && m.complete ==>
          if result.Ok? then Carries(multiset(m.records), result.value)
          else result.error == Mismatch && forall c :: !Carries(multiset(m.records), c))
  }

  /** The scan succeeds exactly when the whole frame parses and carries a correlation, which it
      then returns. */
  lemma VerdictAccepts(m: Message, result: Result<Correlation>, c: Correlation)
    requires Verdict(m, result)
    ensures result == Ok(c) <==> m.complete && Carries(multiset(m.records), c)
  {
    if m.complete && Carries(multiset(m.records), c) {
      CarryingIsFaultFree(m.records, c);
      assert result.Ok? && Carries(multiset(m.records), result.value);
      assert Delimited(2, result.value) == Delimited(2, c);
    }
    if !FaultFree(m.records) {
      var k := FirstFault(m.records);
      assert result.Err?;
    }
  }

  lemma CarryingIsFaultFree(records: seq<Record>, c: Correlation)
    requires Carries(multiset(records), c)
    ensures FaultFree(records)
  {
    forall k | 0 <= k < |records| ensures !FaultAt(records, k) {
      assert records == records[..k] + [records[k]] + records[k + 1..];
    }
  }

  lemma FirstFault(records: seq<Record>) returns (k: nat)
    requires !FaultFree(records)
    ensures FaultAt(records, k) && FaultFree(records[..k])
  {
    var j :| FaultAt(records, j);
    k := j;
    if !FaultFree(records[..k]) {
      k := FirstFault(records[..k]);
      assert records[..j][..k] == records[..k];
      assert records[..j][..k] == records[..j][..k];
    }
  }

  // ---------------------------------------------------------------- the loop

  method ExtractIngressCorrelation(frame: Bytes) returns (result: Result<Correlation>)
    ensures Verdict(ParseMessage(frame), result)
  {
    hide Verdict, Scanned, Faulty, ParseMessage, Varint.Parse, Varint.Denotes;
    var rest := frame;
    var correlation: Correlation, seenVersion, seenCorrelation := ZERO_CORRELATION, false, false;
    ghost var done: seq<Record> := [];
    ScanStart(frame);
    while |rest| > 0
      invariant Scanned(frame, done, rest, correlation, seenVersion, seenCorrelation)
      decreases |rest|
    {
      ghost var start, c, v, s := rest, correlation, seenVersion, seenCorrelation;
      ghost var parsed := ParseRecord(start);
      if parsed.None? {
        ScanMalformed(frame, done, start, c, v, s);
      } else if SeenFault(parsed.value.record, v, s) {
        ScanRefused(frame, done, start, c, v, s);
      } else {
        ScanOne(frame, done, start, c, v, s);
      }
      var tag, n := Varint.ConsumeVarint(rest);
      if n < 1 { return Err(AbiMismatch); }
      rest := rest[n..];
      var field, wire := tag / 8, tag % 8;
      if field == 0 || field > MAX_FIELD { return Err(AbiMismatch); }
      if wire == 0 {
        var value, size := Varint.ConsumeVarint(rest);
        if size < 1 { return Err(AbiMismatch); }
        if field == 1 {
          if seenVersion || value != VERIFIED_INGRESS_VERSION { return Err(AbiMismatch); }
          seenVersion := true;
        }
        rest := rest[size..];
      } else if wire == 1 {
        if |rest| < 8 { return Err(AbiMismatch); }
        rest := rest[8..];
      } else if wire == 2 {
        var length, size := Varint.ConsumeVarint(rest);
        if size < 1 || length > |rest| - size { return Err(AbiMismatch); }
        var value := rest[size..size + length];
        if field == 2 {
          if seenCorrelation || |value| != CORRELATION_BYTES { return Err(Mismatch); }
          correlation := value;
          seenCorrelation := true;
        }
        rest := rest[size + length..];
      } else if wire == 5 {
        if |rest| < 4 { return Err(AbiMismatch); }
        rest := rest[4..];
      } else {
        return Err(AbiMismatch);
      }
      assert rest == start[parsed.value.size..];
      done := done + [parsed.value.record];
    }
    ScanEnd(frame, done, correlation, seenVersion, seenCorrelation);
    if !seenVersion || !seenCorrelation || correlation == ZERO_CORRELATION {
      return Err(Mismatch);
    }
    return Ok(correlation);
  }

  /** `done` are the records of the frame up to `rest`, none of them refused, and the three
      variables of the loop say what is among them. */
  ghost predicate Scanned(frame: Bytes, done: seq<Record>, rest: Bytes, c: Correlation, seenVersion: bool, seenCorrelation: bool) {
    var records := multiset(done);
    && ParseMessage(frame) == Message(done + ParseMessage(rest).records, ParseMessage(rest).complete)
    && FaultFree(done)
    && (if seenVersion then Only(records, IsVersion, Scalar(1, VERIFIED_INGRESS_VERSION)) else Absent(records, IsVersion))
    && (if seenCorrelation then Only(records, IsCorrelation, Delimited(2, c)) else Absent(records, IsCorrelation))
  }

  /** The loop's test for a record to refuse. */
  predicate SeenFault(r: Record, seenVersion: bool, seenCorrelation: bool) {
    || (IsVersion(r) && (seenVersion || r.value != VERIFIED_INGRESS_VERSION))
    || (IsCorrelation(r) && (seenCorrelation || |r.data| != CORRELATION_BYTES))
  }

  lemma ScanStart(frame: Bytes)
    ensures Scanned(frame, [], frame, ZERO_CORRELATION, false, false)
  {
  }

  lemma ScanOne(frame: Bytes, done: seq<Record>, start: Bytes, c: Correlation, v: bool, s: bool)
    requires start != [] && Scanned(frame, done, start, c, v, s) && ParseRecord(start).Some?
    requires !SeenFault(ParseRecord(start).value.record, v, s)
    ensures var r := ParseRecord(start).value.record;
      Scanned(frame, done + [r], start[ParseRecord(start).value.size..],
              if IsCorrelation(r) then r.data else c, v || IsVersion(r), s || IsCorrelation(r))
  {
    var head := ParseRecord(start).value;
    var longer := done + [head.record];
    assert done + ([head.record] + ParseMessage(start[head.size..]).records) == longer + ParseMessage(start[head.size..]).records;
    assert longer[..|done|] == done;
    forall k | 0 <= k < |done| ensures !FaultAt(longer, k) {
      assert longer[..k] == done[..k];
      assert !FaultAt(done, k);
    }
    assert !FaultAt(longer, |done|);
  }

  lemma ScanMalformed(frame: Bytes, done: seq<Record>, start: Bytes, c: Correlation, v: bool, s: bool)
    requires start != [] && Scanned(frame, done, start, c, v, s) && ParseRecord(start).None?
    ensures Verdict(ParseMessage(frame), Err(AbiMismatch))
  {
    assert done + [] == done;
  }

  lemma ScanRefused(frame: Bytes, done: seq<Record>, start: Bytes, c: Correlation, v: bool, s: bool)
    requires start != [] && Scanned(frame, done, start, c, v, s) && ParseRecord(start).Some?
    requires SeenFault(ParseRecord(start).value.record, v, s)
    ensures Verdict(ParseMessage(frame),
                    Err(if IsCorrelation(ParseRecord(start).value.record) then Mismatch else AbiMismatch))
  {
    var records, r := ParseMessage(frame).records, ParseRecord(start).value.record;
    assert records[..|done|] == done && records[|done|] == r;
    assert FaultAt(records, |done|);
    forall k | 0 <= k < |done| ensures !FaultAt(records, k) {
      assert records[..k] == done[..k];
      assert !FaultAt(done, k);
    }
    forall k | |done| < k < |records| ensures !FaultFree(records[..k]) {
      assert records[..k][..|done|] == done;
      assert FaultAt(records[..k], |done|);
    }
  }

  lemma ScanEnd(frame: Bytes, done: seq<Record>, c: Correlation, v: bool, s: bool)
    requires Scanned(frame, done, [], c, v, s)
    ensures Verdict(ParseMessage(frame), if !v || !s || c == ZERO_CORRELATION then Err(Mismatch) else Ok(c))
  {
    assert done + [] == done;
    if v && s && c == ZERO_CORRELATION {
      forall d: Correlation ensures !Carries(multiset(done), d) {
        if Only(multiset(done), IsCorrelation, Delimited(2, d)) {
          assert Delimited(2, d) == Delimited(2, c);
        }
      }
    }
  }
}
