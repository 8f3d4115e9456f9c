/** What the order of a frame's records matters to: not to acceptance or the correlation found, but
    to the error, when a frame has two kinds of fault. */
module FrameOrder {
  import opened Abi
  import opened FrameScanner
  import FrameLayout
  import Varint

  // ---------------------------------------------------------------- frames as lists of records

  /** The bytes of one whole record, minimal varints or not. */
  predicate IsRecord(chunk: Bytes) {
    ParseRecord(chunk).Some? && ParseRecord(chunk).value.size == |chunk|
  }

  function RecordOf(chunk: Bytes): Record
    requires IsRecord(chunk)
  {
    ParseRecord(chunk).value.record
  }

  function Join(chunks: seq<Bytes>): Bytes {
    if chunks == [] then [] else chunks[0] + Join(chunks[1..])
  }

  lemma VarintIgnoresSuffix(value: Bytes, suffix: Bytes)
    requires Varint.Parse(value).Number?
    ensures Varint.Parse(value + suffix) == Varint.Parse(value)
  {
    var n := Varint.Parse(value).size;
    assert (value + suffix)[..n] == value[..n];
    Varint.DenotesUnique(value + suffix, Varint.Parse(value + suffix), Varint.Parse(value));
  }

  /** What follows the tag of a record that starts a longer frame. */
  lemma TagIgnoresSuffix(chunk: Bytes, suffix: Bytes)
    requires IsRecord(chunk)
    ensures var tag := Varint.Parse(chunk);
      && tag.Number? && Varint.Parse(chunk + suffix) == tag
      && (chunk + suffix)[tag.size..] == chunk[tag.size..] + suffix
  {
    hide Varint.Parse;
    VarintIgnoresSuffix(chunk, suffix);
  }

  lemma RecordIgnoresSuffix(chunk: Bytes, suffix: Bytes)
    requires IsRecord(chunk)
    ensures ParseRecord(chunk + suffix) == Some(Head(RecordOf(chunk), |chunk|))
  {
    TagIgnoresSuffix(chunk, suffix);
    hide Varint.Parse;
    var tag := Varint.Parse(chunk);
    var body := chunk[tag.size..];
    if tag.value % 8 == 0 {
      VarintIgnoresSuffix(body, suffix);
    } else if tag.value % 8 == 2 {
      DelimitedIgnoresSuffix(chunk, suffix);
    } else {
      hide RecordOf;
      FixedIgnoresSuffix(chunk, suffix);
    }
  }

  /** How a length-delimited record is parsed. */
  lemma ParsesDelimited(frame: Bytes)
    requires Varint.Parse(frame).Number?
    requires var tag := Varint.Parse(frame); tag.value % 8 == 2 && 1 <= tag.value / 8 <= MAX_FIELD
    ensures var tag, rest := Varint.Parse(frame), frame[Varint.Parse(frame).size..];
      match Varint.Parse(rest)
      case Number(length, size) =>
        ParseRecord(frame) == if length > |rest| - size then None
                              else Some(Head(Delimited(tag.value / 8, rest[size..size + length]), tag.size + size + length))
      case _ => ParseRecord(frame) == None
  {
    hide Varint.Parse;
  }

  lemma DelimitedIgnoresSuffix(chunk: Bytes, suffix: Bytes)
    requires IsRecord(chunk) && Varint.Parse(chunk).value % 8 == 2
    ensures ParseRecord(chunk + suffix) == Some(Head(RecordOf(chunk), |chunk|))
  {
    TagIgnoresSuffix(chunk, suffix);
    TagInRange(chunk);
    hide Varint.Parse;
    ParsesDelimited(chunk);
    ParsesDelimited(chunk + suffix);
    hide ParseRecord;
    ValueIgnoresSuffix(chunk[Varint.Parse(chunk).size..], suffix);
  }

  lemma ValueIgnoresSuffix(body: Bytes, suffix: Bytes)
    requires Varint.Parse(body).Number? && Varint.Parse(body).value <= |body| - Varint.Parse(body).size
    ensures Varint.Parse(body + suffix) == Varint.Parse(body)
    ensures var length := Varint.Parse(body);
      (body + suffix)[length.size..length.size + length.value] == body[length.size..length.size + length.value]
  {
    VarintIgnoresSuffix(body, suffix);
  }

  lemma TagInRange(chunk: Bytes)
    requires IsRecord(chunk)
    ensures 1 <= Varint.Parse(chunk).value / 8 <= MAX_FIELD
  {
    hide Varint.Parse;
  }

  lemma FixedIgnoresSuffix(chunk: Bytes, suffix: Bytes)
    requires IsRecord(chunk) && Varint.Parse(chunk).value % 8 != 0 && Varint.Parse(chunk).value % 8 != 2
    ensures ParseRecord(chunk + suffix) == Some(Head(RecordOf(chunk), |chunk|))
  {
    TagIgnoresSuffix(chunk, suffix);
    hide Varint.Parse;
    var body := chunk[Varint.Parse(chunk).size..];
    assert |body| >= 8 ==> (body + suffix)[..8] == body[..8];
    assert |body| >= 4 ==> (body + suffix)[..4] == body[..4];
  }

  function RecordsOf(chunks: seq<Bytes>): multiset<Record>
    requires forall chunk :: chunk in chunks ==> IsRecord(chunk)
  {
    if chunks == [] then multiset{} else multiset{RecordOf(chunks[0])} + RecordsOf(chunks[1..])
  }

  lemma {:induction false} JoinedParses(chunks: seq<Bytes>)
    requires forall chunk :: chunk in chunks ==> IsRecord(chunk)
    ensures ParseMessage(Join(chunks)).complete
    ensures multiset(ParseMessage(Join(chunks)).records) == RecordsOf(chunks)
  {
    if chunks != [] {
      var rest := Join(chunks[1..]);
      RecordIgnoresSuffix(chunks[0], rest);
      assert (chunks[0] + rest)[|chunks[0]|..] == rest;
      JoinedParses(chunks[1..]);
    }
  }

  lemma {:induction false} RecordsWithout(chunks: seq<Bytes>, j: nat)
    requires j < |chunks| && forall chunk :: chunk in chunks ==> IsRecord(chunk)
    ensures RecordsOf(chunks) == multiset{RecordOf(chunks[j])} + RecordsOf(chunks[..j] + chunks[j + 1..])
  {
    hide IsRecord, RecordOf;
    var less := chunks[..j] + chunks[j + 1..];
    if j == 0 {
      assert less == chunks[1..];
    } else {
      RecordsWithout(chunks[1..], j - 1);
      assert less[1..] == chunks[1..][..j - 1] + chunks[1..][j..];
    }
  }

  lemma {:induction false} RecordsPermuted(chunks: seq<Bytes>, permuted: seq<Bytes>)
    requires forall chunk :: chunk in chunks ==> IsRecord(chunk)
    requires forall chunk :: chunk in permuted ==> IsRecord(chunk)
    requires multiset(chunks) == multiset(permuted)
    ensures RecordsOf(chunks) == RecordsOf(permuted)
  {
    hide IsRecord, RecordOf;
    if chunks == [] {
      assert |multiset(permuted)| == 0;
    } else {
      var j := Locate(chunks, permuted);
      RecordsPermuted(chunks[1..], permuted[..j] + permuted[j + 1..]);
      RecordsWithout(permuted, j);
    }
  }

  lemma WithoutOne<T>(s: seq<T>, j: nat)
    requires j < |s|
    ensures multiset(s) == multiset(s[..j] + s[j + 1..]) + multiset{s[j]}
  {
    assert s == s[..j] + [s[j]] + s[j + 1..];
  }

  lemma Locate<T>(s: seq<T>, permuted: seq<T>) returns (j: nat)
    requires s != [] && multiset(s) == multiset(permuted)
    ensures j < |permuted| && permuted[j] == s[0]
    ensures multiset(s[1..]) == multiset(permuted[..j] + permuted[j + 1..])
  {
    assert s[0] in multiset(permuted);
    j :| 0 <= j < |permuted| && permuted[j] == s[0];
    WithoutOne(s, 0);
    WithoutOne(permuted, j);
    assert s[..0] + s[1..] == s[1..];
    Cancel(multiset(s[1..]), multiset(permuted[..j] + permuted[j + 1..]), s[0]);
  }

  lemma Cancel<T>(a: multiset<T>, b: multiset<T>, x: T)
    requires a + multiset{x} == b + multiset{x}
    ensures a == b
  {
    forall o ensures a[o] == b[o] {
      assert (a + multiset{x})[o] == (b + multiset{x})[o];
    }
  }

  // ---------------------------------------------------------------- acceptance

  /** Reordering the records of a frame does not change whether extraction succeeds, nor what it
      returns. */
  lemma OrderDoesNotMatter(chunks: seq<Bytes>, permuted: seq<Bytes>,
                           result: Result<Correlation>, other: Result<Correlation>, c: Correlation)
    requires forall chunk :: chunk in chunks ==> IsRecord(chunk)
    requires multiset(chunks) == multiset(permuted)
    requires Verdict(ParseMessage(Join(chunks)), result)
    requires Verdict(ParseMessage(Join(permuted)), other)
    ensures result == Ok(c) <==> other == Ok(c)
  {
    forall chunk | chunk in permuted ensures IsRecord(chunk) {
      assert chunk in multiset(permuted);
    }
    JoinedParses(chunks);
    JoinedParses(permuted);
    RecordsPermuted(chunks, permuted);
    VerdictAccepts(ParseMessage(Join(chunks)), result, c);
    VerdictAccepts(ParseMessage(Join(permuted)), other, c);
  }

  // ---------------------------------------------------------------- errors

  /** At most one version field, with the right value. */
  ghost predicate VersionClean(records: multiset<Record>) {
    forall r :: r in records && IsVersion(r) ==> r.value == VERIFIED_INGRESS_VERSION && Only(records, IsVersion, r)
  }

  /** At most one correlation field, with the right length. */
  ghost predicate CorrelationClean(records: multiset<Record>) {
    forall r :: r in records && IsCorrelation(r) ==> |r.data| == CORRELATION_BYTES && Only(records, IsCorrelation, r)
  }

  /** Which kind of fault a scan meets first, if any. */
  datatype Fault = NoFault | OfVersion | OfCorrelation

  ghost predicate FirstFaultIs(records: seq<Record>, fault: Fault) {
    match fault
    case NoFault => FaultFree(records)
    case OfVersion => exists k :: FaultAt(records, k) && FaultFree(records[..k]) && IsVersion(records[k])
    case OfCorrelation => exists k :: FaultAt(records, k) && FaultFree(records[..k]) && IsCorrelation(records[k])
  }

  /** What the scan of a whole-record frame reports for each. */
  lemma ErrorOfFault(m: Message, result: Result<Correlation>, fault: Fault)
    requires m.complete && Verdict(m, result) && FirstFaultIs(m.records, fault)
    ensures match fault
      case NoFault => result.Ok? || result == Err(Mismatch)
      case OfVersion => result == Err(AbiMismatch)
      case OfCorrelation => result == Err(Mismatch)
  {
    hide FaultAt, FaultFree, Carries;
  }

  /** A fault of one kind means that kind is not clean in the multiset. */
  lemma FaultIsUnclean(records: seq<Record>, k: nat)
    requires FaultAt(records, k)
    ensures IsVersion(records[k]) ==> !VersionClean(multiset(records))
    ensures IsCorrelation(records[k]) ==> !CorrelationClean(multiset(records))
    ensures IsVersion(records[k]) || IsCorrelation(records[k])
  {
    var before, all, r := multiset(records[..k]), multiset(records), records[k];
    assert records == records[..k] + [r] + records[k + 1..];
    assert all == before + multiset{r} + multiset(records[k + 1..]);
    if IsVersion(r) && !Absent(before, IsVersion) {
      var o :| o in before && IsVersion(o);
      assert o == r ==> all[r] >= 2;
    }
    if IsCorrelation(r) && !Absent(before, IsCorrelation) {
      var o :| o in before && IsCorrelation(o);
      assert o == r ==> all[r] >= 2;
    }
  }

  /** Two fields of a kind: the later is a fault. */
  lemma RepeatIsFault(records: seq<Record>, i: nat, j: nat)
    requires i < j < |records|
    requires (IsVersion(records[i]) && IsVersion(records[j])) || (IsCorrelation(records[i]) && IsCorrelation(records[j]))
    ensures FaultAt(records, j)
  {
    assert records[..j][i] == records[i];
    assert records[i] in multiset(records[..j]);
  }

  /** Unless it is the only one of its kind, a record has a companion. */
  lemma Companion(records: seq<Record>, p: Record -> bool, i: nat) returns (j: nat)
    requires i < |records| && p(records[i]) && !Only(multiset(records), p, records[i])
    ensures j < |records| && j != i && p(records[j])
  {
    var r, rest := records[i], records[..i] + records[i + 1..];
    assert records == records[..i] + [r] + records[i + 1..];
    assert multiset(records) == multiset(rest) + multiset{r};
    var o :| o in multiset(rest) && p(o);
    var k :| 0 <= k < |rest| && rest[k] == o;
    j := if k < i then k else k + 1;
  }

  lemma UncleanVersionFault(records: seq<Record>) returns (k: nat)
    requires !VersionClean(multiset(records))
    ensures k < |records| && IsVersion(records[k]) && FaultAt(records, k)
  {
    var r :| r in multiset(records) && IsVersion(r) && !(r.value == VERIFIED_INGRESS_VERSION && Only(multiset(records), IsVersion, r));
    k :| 0 <= k < |records| && records[k] == r;
    if r.value == VERIFIED_INGRESS_VERSION {
      var j := Companion(records, IsVersion, k);
      RepeatIsFault(records, if j < k then j else k, if j < k then k else j);
      k := if j < k then k else j;
    }
  }

  lemma UncleanCorrelationFault(records: seq<Record>) returns (k: nat)
    requires !CorrelationClean(multiset(records))
    ensures k < |records| && IsCorrelation(records[k]) && FaultAt(records, k)
  {
    var r :| r in multiset(records) && IsCorrelation(r) && !(|r.data| == CORRELATION_BYTES && Only(multiset(records), IsCorrelation, r));
    k :| 0 <= k < |records| && records[k] == r;
    if |r.data| == CORRELATION_BYTES {
      var j := Companion(records, IsCorrelation, k);
      RepeatIsFault(records, if j < k then j else k, if j < k then k else j);
      k := if j < k then k else j;
    }
  }

  /** Which fault comes first, in terms of the multiset where that decides it. */
  lemma FirstFaultFound(records: seq<Record>) returns (fault: Fault)
    ensures FirstFaultIs(records, fault)
    ensures var m := multiset(records);
      && (fault.NoFault? <==> VersionClean(m) && CorrelationClean(m))
      && (fault.OfVersion? ==> !VersionClean(m)) && (fault.OfCorrelation? ==> !CorrelationClean(m))
  {
    if FaultFree(records) {
      if !VersionClean(multiset(records)) { var _ := UncleanVersionFault(records); }
      if !CorrelationClean(multiset(records)) { var _ := UncleanCorrelationFault(records); }
      fault := NoFault;
    } else {
      var k := FirstFault(records);
      FaultIsUnclean(records, k);
      fault := if IsVersion(records[k]) then OfVersion else OfCorrelation;
    }
  }

  /** With at most one kind of fault, the order of the records changes nothing at all. */
  lemma OneFaultOneError(chunks: seq<Bytes>, permuted: seq<Bytes>, result: Result<Correlation>, other: Result<Correlation>)
    requires forall chunk :: chunk in chunks ==> IsRecord(chunk)
    requires multiset(chunks) == multiset(permuted)
    requires Verdict(ParseMessage(Join(chunks)), result) && Verdict(ParseMessage(Join(permuted)), other)
    requires VersionClean(RecordsOf(chunks)) || CorrelationClean(RecordsOf(chunks))
    ensures result == other
  {
    forall chunk | chunk in permuted ensures IsRecord(chunk) {
      assert chunk in multiset(permuted);
    }
    JoinedParses(chunks);
    JoinedParses(permuted);
    RecordsPermuted(chunks, permuted);
    var m, n := ParseMessage(Join(chunks)), ParseMessage(Join(permuted));
    var fault := FirstFaultFound(m.records);
    var fault' := FirstFaultFound(n.records);
    hide Verdict, VersionClean, CorrelationClean, FirstFaultIs, Join, IsRecord, ParseMessage;
    ErrorOfFault(m, result, fault);
    ErrorOfFault(n, other, fault');
    if result.Ok? { OrderDoesNotMatter(chunks, permuted, result, other, result.value); }
    if other.Ok? { OrderDoesNotMatter(chunks, permuted, result, other, other.value); }
  }

  // ---------------------------------------------------------------- when the order decides

  function RecordList(chunks: seq<Bytes>): (records: seq<Record>)
    requires forall chunk :: chunk in chunks ==> IsRecord(chunk)
    ensures |records| == |chunks| && forall i :: 0 <= i < |chunks| ==> records[i] == RecordOf(chunks[i])
  {
    seq(|chunks|, i requires 0 <= i < |chunks| => RecordOf(chunks[i]))
  }

  lemma {:induction false} JoinedParsesTo(chunks: seq<Bytes>)
    requires forall chunk :: chunk in chunks ==> IsRecord(chunk)
    ensures ParseMessage(Join(chunks)) == Message(RecordList(chunks), true)
  {
    if chunks != [] {
      var rest := Join(chunks[1..]);
      RecordIgnoresSuffix(chunks[0], rest);
      assert (chunks[0] + rest)[|chunks[0]|..] == rest;
      JoinedParsesTo(chunks[1..]);
      RecordListHead(chunks);
      hide IsRecord, RecordOf, RecordList;
    } else {
      assert RecordList(chunks) == [];
    }
  }

  lemma RecordListHead(chunks: seq<Bytes>)
    requires chunks != [] && forall chunk :: chunk in chunks ==> IsRecord(chunk)
    ensures RecordList(chunks) == [RecordOf(chunks[0])] + RecordList(chunks[1..])
  {
  }

  /** The same records, those of one kind first. */
  lemma {:induction false} KindFirst(chunks: seq<Bytes>, p: Record -> bool) returns (front: seq<Bytes>, back: seq<Bytes>)
    requires forall chunk :: chunk in chunks ==> IsRecord(chunk)
    ensures multiset(front + back) == multiset(chunks)
    ensures forall chunk :: chunk in front ==> IsRecord(chunk) && p(RecordOf(chunk))
    ensures forall chunk :: chunk in back ==> IsRecord(chunk) && !p(RecordOf(chunk))
    decreases |chunks|
  {
    if chunks == [] {
      front, back := [], [];
    } else {
      front, back := KindFirst(chunks[1..], p);
      assert chunks == [chunks[0]] + chunks[1..];
      if p(RecordOf(chunks[0])) { front := [chunks[0]] + front; } else { back := [chunks[0]] + back; }
    }
  }

  /** This order of a frame's records is scanned with this result. */
  ghost predicate Scans(chunks: seq<Bytes>, order: seq<Bytes>, result: Result<Correlation>) {
    multiset(order) == multiset(chunks) && Verdict(ParseMessage(Join(order)), result)
  }

  /** With the records of an unclean kind in front, its error is the one reported. */
  lemma UncleanFirst(chunks: seq<Bytes>, version: bool) returns (order: seq<Bytes>)
    requires forall chunk :: chunk in chunks ==> IsRecord(chunk)
    requires if version then !VersionClean(RecordsOf(chunks)) else !CorrelationClean(RecordsOf(chunks))
    ensures Scans(chunks, order, Err(if version then AbiMismatch else Mismatch))
  {
    var p := if version then IsVersion else IsCorrelation;
    var front, back := KindFirst(chunks, p);
    order := front + back;
    OrderedRecords(chunks, order);
    JoinedParses(order);
    JoinedParsesTo(order);
    var records := RecordList(order);
    forall i | 0 <= i < |order| ensures p(records[i]) <==> i < |front| {
      assert order[i] == if i < |front| then front[i] else back[i - |front|];
      assert order[i] in if i < |front| then front else back;
    }
    hide IsRecord, RecordOf;
    KindFirstVerdict(records, |front|, version);
  }

  lemma KindFirstVerdict(records: seq<Record>, n: nat, version: bool)
    requires forall i :: 0 <= i < |records| ==> (if version then IsVersion(records[i]) else IsCorrelation(records[i])) == (i < n)
    requires if version then !VersionClean(multiset(records)) else !CorrelationClean(multiset(records))
    ensures Verdict(Message(records, true), Err(if version then AbiMismatch else Mismatch))
  {
    var k: nat;
    if version { k := UncleanVersionFault(records); } else { k := UncleanCorrelationFault(records); }
    hide VersionClean, CorrelationClean, FaultAt, Verdict;
    var first := FirstFault(records);
    FirstIsFirst(records, first, k);
    OnlyFirstFault(records, first);
  }

  lemma FirstIsFirst(records: seq<Record>, first: nat, k: nat)
    requires FaultAt(records, first) && FaultFree(records[..first]) && FaultAt(records, k)
    ensures first <= k
  {
    if k < first {
      assert records[..first][..k] == records[..k];
      assert FaultAt(records[..first], k);
    }
  }

  /** The verdict on a whole-record frame with a fault. */
  lemma OnlyFirstFault(records: seq<Record>, first: nat)
    requires FaultAt(records, first) && FaultFree(records[..first])
    ensures Verdict(Message(records, true), Err(if IsCorrelation(records[first]) then Mismatch else AbiMismatch))
  {
    forall k | FaultAt(records, k) && FaultFree(records[..k]) ensures k == first {
      FirstIsFirst(records, first, k);
      FirstIsFirst(records, k, first);
    }
  }

  ghost predicate OrderMatters(chunks: seq<Bytes>) {
    exists order, other, result, result' :: Scans(chunks, order, result) && Scans(chunks, other, result') && result != result'
  }

  /** The order of a frame's records can change the outcome exactly when the frame has a faulty
      version field or two, and a faulty correlation field or two. Even then only the error
      changes: OrderDoesNotMatter. */
  lemma OrderMattersIff(chunks: seq<Bytes>)
    requires forall chunk :: chunk in chunks ==> IsRecord(chunk)
    ensures OrderMatters(chunks) <==> !VersionClean(RecordsOf(chunks)) && !CorrelationClean(RecordsOf(chunks))
  {
    hide VersionClean, CorrelationClean, IsRecord;
    if OrderMatters(chunks) {
      var order, other, result, result' :| Scans(chunks, order, result) && Scans(chunks, other, result') && result != result';
      OrderedRecords(chunks, order);
      if VersionClean(RecordsOf(chunks)) || CorrelationClean(RecordsOf(chunks)) { OneFaultOneError(order, other, result, result'); }
    }
    if !VersionClean(RecordsOf(chunks)) && !CorrelationClean(RecordsOf(chunks)) {
      var order := UncleanFirst(chunks, true);
      var other := UncleanFirst(chunks, false);
      assert Scans(chunks, order, Err(AbiMismatch)) && Scans(chunks, other, Err(Mismatch));
    }
  }

  /** A wrong version before an empty correlation, or after it. */
  lemma OrderMattersHere()
    ensures var v, c := FrameLayout.Write(Scalar(1, 2)), FrameLayout.Write(Delimited(2, []));
      IsRecord(v) && IsRecord(c) && OrderMatters([v, c])
  {
    var v, c := Scalar(1, 2), Delimited(2, []);
    var chunks := [FrameLayout.Write(v), FrameLayout.Write(c)];
    WrittenIsRecord(v);
    WrittenIsRecord(c);
    var last: seq<Bytes> := [chunks[1]];
    assert chunks[1..] == last && last[1..] == [];
    assert RecordsOf(last) == multiset{c} + RecordsOf([]);
    assert RecordsOf(chunks) == multiset{v, c};
    assert IsVersion(v) && v in multiset{v, c} && IsCorrelation(c) && c in multiset{v, c};
    OrderMattersIff(chunks);
  }

  lemma WrittenIsRecord(r: Record)
    requires FrameLayout.Writable(r)
    ensures IsRecord(FrameLayout.Write(r)) && RecordOf(FrameLayout.Write(r)) == r
  {
    FrameLayout.ParseWritten(r, []);
    assert FrameLayout.Write(r) + [] == FrameLayout.Write(r);
  }

  lemma OrderedRecords(chunks: seq<Bytes>, order: seq<Bytes>)
    requires forall chunk :: chunk in chunks ==> IsRecord(chunk)
    requires multiset(order) == multiset(chunks)
    ensures forall chunk :: chunk in order ==> IsRecord(chunk)
    ensures RecordsOf(order) == RecordsOf(chunks)
  {
    forall chunk | chunk in order ensures IsRecord(chunk) { assert chunk in multiset(order); }
    RecordsPermuted(chunks, order);
  }
}
