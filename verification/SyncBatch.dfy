/** SYNC_RESP bodies: how stored records are cut into batches, encoded and decoded. */
module SyncBatch {
  import opened CText
  import opened V2Packet
  import opened V2Codec

  const BODY_MAX := 140

  /** The part of a stored message that a sync response carries. */
  datatype SyncRecord = SyncRecord(
    id: uint32, source: Text, destination: Text, kind: Text, priority: Text, hops: int, payload: Text)

  /** Texts that fit their C fields. */
  predicate RecordSized(r: SyncRecord) {
    && |r.source| <= 32 && |r.destination| <= 32 && |r.kind| <= 32 && |r.priority| <= 32 && |r.payload| <= PAYLOAD_LEN
  }

  type Stored = r: SyncRecord | RecordSized(r) witness SyncRecord(0, [], [], [], [], 0, [])

  /** sync_response_record_encoded_size */
  function Size(r: Stored): nat {
    10 + |r.source| + |r.destination| + |r.kind| + |r.priority| + |r.payload|
  }

  function BodySize(rs: seq<Stored>): nat {
    if rs == [] then 1 else BodySize(rs[..|rs| - 1]) + Size(rs[|rs| - 1])
  }

  /** Could the record be sent at all? */
  predicate FitsAlone(r: Stored) {
    1 + Size(r) <= BODY_MAX
  }

  lemma {:induction false} BodySizeCount(rs: seq<Stored>)
    ensures BodySize(rs) >= 1 + 10 * |rs|
  {
    if rs != [] {
      BodySizeCount(rs[..|rs| - 1]);
    }
  }

  /** `cuts` are the batches as index ranges: in order, disjoint, each within the body limit and each
      as long as it can be; what is left out is exactly what does not fit alone. */
  ghost predicate GreedyCuts(rs: seq<Stored>, cuts: seq<(nat, nat)>, upTo: nat) {
    && upTo <= |rs|
    && (forall k :: 0 <= k < |cuts| ==> cuts[k].0 < cuts[k].1 <= upTo && BodySize(rs[cuts[k].0..cuts[k].1]) <= BODY_MAX)
    && (forall k :: 0 <= k < |cuts| && cuts[k].1 < |rs| ==> BodySize(rs[cuts[k].0..cuts[k].1 + 1]) > BODY_MAX)
    && (forall j, k :: 0 <= j < k < |cuts| ==> cuts[j].1 <= cuts[k].0)
    && forall m :: 0 <= m < upTo ==> (FitsAlone(rs[m]) <==> Covered(cuts, m))
  }

  ghost predicate Covered(cuts: seq<(nat, nat)>, m: nat) {
    exists k :: 0 <= k < |cuts| && cuts[k].0 <= m < cuts[k].1
  }

  lemma CoveredMore(cuts: seq<(nat, nat)>, cut: (nat, nat), m: nat)
    ensures Covered(cuts + [cut], m) <==> Covered(cuts, m) || cut.0 <= m < cut.1
  {
    if Covered(cuts, m) {
      var k :| 0 <= k < |cuts| && cuts[k].0 <= m < cuts[k].1;
      assert (cuts + [cut])[k] == cuts[k];
    }
    if cut.0 <= m < cut.1 {
      assert (cuts + [cut])[|cuts|] == cut;
    }
  }

  /** A record inside a batch fits alone. */
  lemma {:induction false} InBatchFits(rs: seq<Stored>, i: nat)
    requires i < |rs|
    ensures BodySize(rs) >= 1 + Size(rs[i])
  {
    var n := |rs| - 1;
    if i < n {
      InBatchFits(rs[..n], i);
    } else {
      BodySizeCount(rs[..n]);
    }
  }

  /** The size that the inner loop of the batcher recomputes for a candidate. */
  method CandidateSize(rs: seq<Stored>, first: nat, candidate: nat) returns (size: nat)
    requires first <= candidate < |rs|
    ensures size == BodySize(rs[first..candidate + 1])
  {
    size := 1 + Size(rs[candidate]);
    for i := first to candidate
      invariant size == BodySize(rs[first..i]) + Size(rs[candidate])
    {
      assert rs[first..i + 1][..i - first] == rs[first..i];
      size := size + Size(rs[i]);
    }
    assert rs[first..candidate + 1][..candidate - first] == rs[first..candidate];
  }

  /** The inner loop: the longest batch from `first` on; a record that is too big alone is stepped over. */
  method NextBatch(rs: seq<Stored>, first: nat) returns (start: nat, count: nat)
    requires first < |rs|
    ensures first < start <= |rs|
    ensures FitsAlone(rs[first]) ==>
              count == start - first && BodySize(rs[first..start]) <= BODY_MAX
                  && (start < |rs| ==> BodySize(rs[first..start + 1]) > BODY_MAX)
    ensures !FitsAlone(rs[first]) ==> count == 0 && start == first + 1
  {
    start, count := first, 0;
    assert rs[first..first + 1] == [rs[first]] && BodySize([rs[first]]) == BodySize([rs[first]][..0]) + Size(rs[first]);
    while start < |rs|
      invariant first <= start <= |rs| && count == start - first && BodySize(rs[first..start]) <= BODY_MAX
      invariant count > 0 ==> FitsAlone(rs[first])
    {
      var size := CandidateSize(rs, first, start);
      if size > BODY_MAX {
        if count == 0 {
          start := start + 1;
        }
        return;
      }
      count := count + 1;
      start := start + 1;
    }
  }

  lemma CutMore(rs: seq<Stored>, cuts: seq<(nat, nat)>, first: nat, start: nat)
    requires GreedyCuts(rs, cuts, first) && first < start <= |rs|
    ensures FitsAlone(rs[first]) && BodySize(rs[first..start]) <= BODY_MAX
             && (start < |rs| ==> BodySize(rs[first..start + 1]) > BODY_MAX) ==>
              GreedyCuts(rs, cuts + [(first, start)], start)
    ensures !FitsAlone(rs[first]) && start == first + 1 ==> GreedyCuts(rs, cuts, start)
  {
    hide BodySize;
    if FitsAlone(rs[first]) && BodySize(rs[first..start]) <= BODY_MAX {
      forall m | 0 <= m < start
        ensures FitsAlone(rs[m]) <==> Covered(cuts + [(first, start)], m)
      {
        CoveredMore(cuts, (first, start), m);
        if first <= m {
          InBatchFits(rs[first..start], m - first);
        }
      }
    }
  }

  /** The batching loop of mesh_control_send_sync_responses. */
  method CutBatches(rs: seq<Stored>) returns (cuts: seq<(nat, nat)>)
    ensures GreedyCuts(rs, cuts, |rs|)
  {
    hide GreedyCuts, BodySize;
    cuts := [];
    var start := 0;
    NoCuts(rs);
    while start < |rs|
      invariant start <= |rs| && GreedyCuts(rs, cuts, start)
    {
      var first, count := start, 0;
      start, count := NextBatch(rs, first);
      CutMore(rs, cuts, first, start);
      if count > 0 {
        cuts := cuts + [(first, start)];
      }
    }
  }

  lemma NoCuts(rs: seq<Stored>)
    ensures GreedyCuts(rs, [], 0)
  {
  }

  // Encoding a batch

  predicate Encodable(r: Stored) {
    0 <= r.hops <= 0xFF
  }

  /** sync_response_write_record */
  function EncodeRecord(r: Stored): (b: seq<byte>)
    requires Encodable(r)
    ensures |b| == Size(r)
  {
    WordBytes(r.id) + (Field(r.source) + (Field(r.destination)
    + (Field(r.kind) + (Field(r.priority) + ([r.hops as byte] + Field(r.payload))))))
  }

  function EncodeRecords(rs: seq<Stored>): (b: seq<byte>)
    requires forall i :: 0 <= i < |rs| ==> Encodable(rs[i])
    ensures |b| + 1 == BodySize(rs)
  {
    if rs == [] then [] else EncodeRecords(rs[..|rs| - 1]) + EncodeRecord(rs[|rs| - 1])
  }

  /** mesh_control_encode_sync_response_batch into a body of `size` bytes: it succeeds exactly when
      the batch is small enough and every hop count fits a byte, and then writes count and records. */
  method EncodeBatch(rs: seq<Stored>, size: nat) returns (ok: bool, body: seq<byte>)
    ensures ok <==> |rs| <= 255 && 1 <= size && BodySize(rs) <= size && forall i :: 0 <= i < |rs| ==> Encodable(rs[i])
    ensures ok ==> body == [|rs|] + EncodeRecords(rs) && |body| == BodySize(rs)
  {
    hide EncodeRecord;
    if |rs| > 255 || size < 1 {
      return false, [];
    }
    body := [|rs|];
    for i := 0 to |rs|
      invariant forall j :: 0 <= j < i ==> Encodable(rs[j])
      invariant body == [|rs|] + EncodeRecords(rs[..i]) && |body| == BodySize(rs[..i]) <= size
    {
      assert rs[..i + 1][..i] == rs[..i];
      if |body| + Size(rs[i]) > size || !Encodable(rs[i]) {
        BodySizePrefix(rs, i + 1);
        return false, [];
      }
      body := body + EncodeRecord(rs[i]);
    }
    assert rs[..|rs|] == rs;
    return true, body;
  }

  lemma {:induction false} BodySizePrefix(rs: seq<Stored>, n: nat)
    requires n <= |rs|
    ensures BodySize(rs[..n]) <= BodySize(rs)
  {
    if n < |rs| {
      BodySizePrefix(rs[..|rs| - 1], n);
      assert rs[..|rs| - 1][..n] == rs[..n];
    } else {
      assert rs[..n] == rs;
    }
  }

  /** Every batch that the loop cuts encodes, within the body buffer, when its hop counts fit a byte. */
  lemma CutsEncode(rs: seq<Stored>, cuts: seq<(nat, nat)>, k: nat)
    requires GreedyCuts(rs, cuts, |rs|) && k < |cuts|
    ensures var b := rs[cuts[k].0..cuts[k].1]; 0 < |b| <= 13 && BodySize(b) <= BODY_MAX
  {
    BodySizeCount(rs[cuts[k].0..cuts[k].1]);
  }

  // Decoding

  /** One record of mesh_control_decode_sync_response_records; reading past the end rejects. */
  function TakeRecord(s: seq<byte>): Parsed<SyncRecord> {
    if |s| < 10 then Reject
    else
      var (id, s) :- TakeWord(s);
      var (source, s) :- TakeName(s);
      var (destination, s) :- TakeName(s);
      var (kind, s) :- TakeName(s);
      var (priority, s) :- TakeName(s);
      var (load, s) :- TakeLoad(s);
      Accept(SyncRecord(id, source, destination, kind, priority, load.0, load.1), s)
  }

  /** The hop count and the payload text. */
  function TakeLoad(s: seq<byte>): Parsed<(byte, Text)> {
    var (hops, s) :- TakeByte(s);
    var (payload, s) :- TakeField(s, PAYLOAD_LEN - 1);
    Accept((hops, CStr(payload)), s)
  }

  /** `count` records and nothing after them. */
  function TakeRecords(s: seq<byte>, count: nat): Parsed<seq<SyncRecord>>
    decreases count
  {
    if count == 0 then if s == [] then Accept([], []) else Reject
    else
      hide TakeRecord;
      match TakeRecord(s)
      case Reject => Reject
      case Accept(r, rest) =>
        match TakeRecords(rest, count - 1)
        case Reject => Reject
        case Accept(rs, end) => Accept([r] + rs, end)
  }

  /** The records of a body, none when anything is wrong with it or there are more than `max`. */
  function DecodeBatch(s: seq<byte>, max: nat): seq<SyncRecord> {
    if max == 0 || s == [] || s[0] == 0 || s[0] > max then []
    else
      match TakeRecords(s[1..], s[0])
      case Reject => []
      case Accept(rs, _) => rs
  }

  // The decoder as it runs. It looks at a length before it knows that the body holds one, so it
  // may look at up to two bytes past the body; whatever they hold, the result is the function of the
  // body. `past` is what lies behind the buffer: with a body of 139 bytes in the payload buffer of 140
  // the second of them is outside.

  function Peek(buf: array<byte>, past: nat -> byte, i: nat): byte
    reads buf
  {
    if i < buf.Length then buf[i] else past(i)
  }

  /** A name field. */
  method ReadLabel(buf: array<byte>, len: nat, past: nat -> byte, offset: nat) returns (ok: bool, t: Text, next: nat)
    requires offset <= len <= buf.Length
    ensures next <= len && TakeName(buf[offset..len]) == if ok then Accept(t, buf[next..len]) else Reject
  {
    var n := Peek(buf, past, offset);
    next := offset + 1;
    if n == 0 || next + n > len || n >= 32 {
      return false, [], offset;
    }
    var s := buf[offset..len];
    assert s[1..][..n] == buf[next..next + n] && s[1..][n..] == buf[next + n..len];
    return true, CStr(buf[next..next + n]), next + n;
  }

  method ReadLoad(buf: array<byte>, len: nat, past: nat -> byte, offset: nat)
      returns (ok: bool, load: (byte, Text), next: nat)
    requires offset <= len <= buf.Length
    ensures next <= len && TakeLoad(buf[offset..len]) == if ok then Accept(load, buf[next..len]) else Reject
  {
    var hops := Peek(buf, past, offset);
    var n := Peek(buf, past, offset + 1);
    next := offset + 2;
    if next + n > len || n >= PAYLOAD_LEN {
      return false, (hops, []), offset;
    }
    var s := buf[offset..len];
    assert s[1..][1..] == buf[next..len];
    assert buf[next..len][..n] == buf[next..next + n] && buf[next..len][n..] == buf[next + n..len];
    return true, (hops, CStr(buf[next..next + n])), next + n;
  }

  method ReadRecord(buf: array<byte>, len: nat, past: nat -> byte, offset: nat)
      returns (ok: bool, r: SyncRecord, next: nat)
    requires offset <= len <= buf.Length
    ensures next <= len && TakeRecord(buf[offset..len]) == if ok then Accept(r, buf[next..len]) else Reject
  {
    hide TakeName, TakeLoad, Word;
    r := SyncRecord(0, [], [], [], [], 0, []);
    if offset + 10 > len {
      return false, r, offset;
    }
    var source, destination, kind, priority, load;
    assert buf[offset..len][4..] == buf[offset + 4..len];
    var id := Word(buf[offset..len], 0);
    next := offset + 4;
    ok, source, next := ReadLabel(buf, len, past, next);
    if !ok { return; }
    ok, destination, next := ReadLabel(buf, len, past, next);
    if !ok { return; }
    ok, kind, next := ReadLabel(buf, len, past, next);
    if !ok { return; }
    ok, priority, next := ReadLabel(buf, len, past, next);
    if !ok { return; }
    ok, load, next := ReadLoad(buf, len, past, next);
    if !ok { return; }
    r := SyncRecord(id, source, destination, kind, priority, load.0, load.1);
  }

  function Prepend(rs: seq<SyncRecord>, more: Parsed<seq<SyncRecord>>): Parsed<seq<SyncRecord>> {
    match more
    case Reject => Reject
    case Accept(m, end) => Accept(rs + m, end)
  }

  /** mesh_control_decode_sync_response_records */
  method DecodeRecords(buf: array<byte>, len: nat, past: nat -> byte, max: nat) returns (records: seq<SyncRecord>)
    requires len <= buf.Length
    ensures records == DecodeBatch(buf[..len], max)
  {
    hide TakeRecord;
    records := [];
    if max == 0 || len < 1 {
      return;
    }
    var n := buf[0];
    if n == 0 {
      return;
    }
    assert buf[..len][1..] == buf[1..len];
    var offset := 1;
    ghost var whole := TakeRecords(buf[1..len], n);
    PrependNone(whole);
    for i := 0 to n
      invariant offset <= len && |records| == i <= max
      invariant whole == Prepend(records, TakeRecords(buf[offset..len], n - i))
    {
      if |records| >= max {
        return [];
      }
      var ok, r;
      ok, r, offset := ReadRecord(buf, len, past, offset);
      if !ok {
        return [];
      }
      PrependOne(records, r, TakeRecords(buf[offset..len], n - i - 1));
      records := records + [r];
    }
    if offset != len {
      return [];
    }
    assert records + [] == records;
  }

  lemma PrependNone(more: Parsed<seq<SyncRecord>>)
    ensures Prepend([], more) == more
  {
    if more.Accept? {
      assert [] + more.value == more.value;
    }
  }

  lemma PrependOne(rs: seq<SyncRecord>, r: SyncRecord, more: Parsed<seq<SyncRecord>>)
    ensures Prepend(rs, Prepend([r], more)) == Prepend(rs + [r], more)
  {
    if more.Accept? {
      assert rs + ([r] + more.value) == (rs + [r]) + more.value;
    }
  }

  /** A record that comes back: names that are not empty, and no NUL in any text. */
  predicate Clear(r: Stored) {
    && Encodable(r) && Name(r.source) && Name(r.destination) && Name(r.kind) && Name(r.priority)
    && |r.payload| < PAYLOAD_LEN && NulFree(r.payload)
  }

  predicate AllClear(rs: seq<Stored>) {
    && (forall i :: 0 <= i < |rs| ==> Encodable(rs[i]))
    && forall i :: 0 <= i < |rs| ==> Clear(rs[i])
  }

  lemma TakeRecordBack(r: Stored, rest: seq<byte>)
    requires Clear(r)
    ensures TakeRecord(EncodeRecord(r) + rest) == Accept(r, rest)
  {
    hide TakeByte, TakeName, TakeWord, TakeField, WordBytes, Field, Name, CStr, NulFree;
    var r6 := Field(r.payload) + rest;
    var r5 := [r.hops as byte] + r6;
    var r4 := Field(r.priority) + r5;
    var r3 := Field(r.kind) + r4;
    var r2 := Field(r.destination) + r3;
    var r1 := Field(r.source) + r2;
    assert EncodeRecord(r) + rest == WordBytes(r.id) + r1;
    TakeWordBack(r.id, r1);
    TakeNameBack(r.source, r2);
    TakeNameBack(r.destination, r3);
    TakeNameBack(r.kind, r4);
    TakeNameBack(r.priority, r5);
    TakeByteBack(r.hops as byte, r6);
    TakeFieldBack(r.payload, rest, PAYLOAD_LEN - 1);
    CStrKeeps(r.payload);
  }

  lemma EncodeRecordsLast(rs: seq<Stored>, r: Stored)
    requires Encodable(r) && forall i :: 0 <= i < |rs| ==> Encodable(rs[i])
    ensures EncodeRecords([]) == []
    ensures EncodeRecords(rs + [r]) == EncodeRecords(rs) + EncodeRecord(r)
  {
    hide EncodeRecord;
    assert (rs + [r])[..|rs|] == rs;
  }

  lemma {:induction false} EncodeRecordsFirst(rs: seq<Stored>)
    requires rs != [] && forall i :: 0 <= i < |rs| ==> Encodable(rs[i])
    ensures EncodeRecords(rs) == EncodeRecord(rs[0]) + EncodeRecords(rs[1..])
  {
    hide EncodeRecord, EncodeRecords;
    var n := |rs| - 1;
    assert rs == rs[..n] + [rs[n]];
    EncodeRecordsLast(rs[..n], rs[n]);
    if |rs| == 1 {
      assert rs[..0] == [] && rs[1..] == [];
    } else {
      EncodeRecordsFirst(rs[..n]);
      var middle := rs[1..n];
      assert rs[..n][1..] == middle && rs[1..] == middle + [rs[n]];
      EncodeRecordsLast(middle, rs[n]);
    }
  }

  lemma {:induction false} TakeRecordsBack(rs: seq<Stored>)
    requires AllClear(rs)
    ensures TakeRecords(EncodeRecords(rs), |rs|) == Accept(rs, [])
  {
    hide TakeRecord, EncodeRecord;
    if rs != [] {
      EncodeRecordsFirst(rs);
      TakeRecordBack(rs[0], EncodeRecords(rs[1..]));
      TakeRecordsBack(rs[1..]);
      assert rs == [rs[0]] + rs[1..];
    }
  }

  /** A batch comes back exactly when the receiver has room for it; a longer one is lost whole. */
  lemma BatchRoundTrip(rs: seq<Stored>, max: nat)
    requires 0 < |rs| <= 255 && AllClear(rs)
    ensures DecodeBatch([|rs|] + EncodeRecords(rs), max) == if |rs| <= max then rs else []
  {
    hide TakeRecords, EncodeRecords;
    TakeRecordsBack(rs);
    var body := [|rs|] + EncodeRecords(rs);
    assert body[1..] == EncodeRecords(rs);
  }

  /** Types and priorities of the node have at least three letters, so its batches fit the receiver's 8 places. */
  lemma {:induction false} LabelledBatchFits(rs: seq<Stored>)
    requires BodySize(rs) <= BODY_MAX
    requires AllClear(rs) && forall i :: 0 <= i < |rs| ==> |rs[i].kind| >= 3 && |rs[i].priority| >= 3
    ensures |rs| <= 7
  {
    LabelledSize(rs);
  }

  lemma {:induction false} LabelledSize(rs: seq<Stored>)
    requires AllClear(rs) && forall i :: 0 <= i < |rs| ==> |rs[i].kind| >= 3 && |rs[i].priority| >= 3
    ensures BodySize(rs) >= 1 + 18 * |rs|
  {
    if rs != [] {
      LabelledSize(rs[..|rs| - 1]);
    }
  }

  /** With one-letter labels the greedy loop cuts nine records as one batch, and a receiver with 8 places
      gets none of them. */
  lemma ShortLabelsOverflow() returns (rs: seq<Stored>)
    ensures |rs| == 9 && BodySize(rs) <= BODY_MAX && AllClear(rs)
    ensures forall cuts :: GreedyCuts(rs, cuts, 9) ==> cuts == [(0, 9)]
    ensures DecodeBatch([9] + EncodeRecords(rs), 8) == []
  {
    hide GreedyCuts, DecodeBatch, EncodeRecords, BodySize;
    var r: Stored := SyncRecord(1, [65], [66], [67], [68], 0, []);
    rs := [r, r, r, r, r, r, r, r, r];
    SameSizes(rs, 14);
    BatchRoundTrip(rs, 8);
    forall cuts | GreedyCuts(rs, cuts, 9)
      ensures cuts == [(0, 9)]
    {
      OneBatch(rs, cuts);
    }
  }

  /** Records that fit one body together are cut as one batch. */
  lemma OneBatch(rs: seq<Stored>, cuts: seq<(nat, nat)>)
    requires rs != [] && BodySize(rs) <= BODY_MAX && GreedyCuts(rs, cuts, |rs|)
    ensures cuts == [(0, |rs|)]
  {
    hide BodySize, FitsAlone;
    InBatchFits(rs, 0);
    assert FitsAlone(rs[0]) by { FitsBody(rs[0], BodySize(rs)); }
    assert Covered(cuts, 0);
    forall k | 0 <= k < |cuts|
      ensures cuts[k].1 == |rs|
    {
      var c := cuts[k];
      if c.1 < |rs| {
        BodySizeSpan(rs, c.0, c.1 + 1);
      }
    }
    var last := |cuts| - 1;
    var c, d := cuts[0], cuts[last];
    assert 0 < last ==> c.1 <= d.0;
  }

  lemma FitsBody(r: Stored, size: nat)
    requires 1 + Size(r) <= size <= BODY_MAX
    ensures FitsAlone(r)
  {
  }

  lemma {:induction false} BodySizeSpan(rs: seq<Stored>, a: nat, b: nat)
    requires a <= b <= |rs|
    ensures BodySize(rs[a..b]) <= BodySize(rs)
    decreases b - a
  {
    BodySizePrefix(rs, b);
    if a < b {
      BodySizeDrop(rs[..b], a);
      assert rs[..b][a..] == rs[a..b];
    } else {
      BodySizeCount(rs);
    }
  }

  lemma {:induction false} BodySizeDrop(rs: seq<Stored>, a: nat)
    requires a < |rs|
    ensures BodySize(rs[a..]) <= BodySize(rs)
    decreases |rs|
  {
    var n := |rs| - 1;
    assert rs[a..][..n - a] == rs[..n][a..];
    if a < n {
      BodySizeDrop(rs[..n], a);
    } else {
      BodySizeCount(rs[..n]);
      assert rs[..n][a..] == [];
    }
  }

  lemma {:induction false} SameSizes(rs: seq<Stored>, size: nat)
    requires forall i :: 0 <= i < |rs| ==> Size(rs[i]) == size
    ensures BodySize(rs) == 1 + size * |rs|
  {
    if rs != [] {
      SameSizes(rs[..|rs| - 1], size);
    }
  }

  // From the sender's list to the receiver's

  /** The records that can be sent at all, in order. */
  function Fitting(rs: seq<Stored>): seq<Stored> {
    if rs == [] then [] else Fitting(rs[..|rs| - 1]) + if FitsAlone(rs[|rs| - 1]) then [rs[|rs| - 1]] else []
  }

  ghost predicate Within(cuts: seq<(nat, nat)>, n: nat) {
    forall k :: 0 <= k < |cuts| ==> cuts[k].0 <= cuts[k].1 <= n
  }

  /** What a receiver with `max` places decodes from the batches, one after the other. */
  ghost function Received(rs: seq<Stored>, cuts: seq<(nat, nat)>, max: nat): seq<SyncRecord>
    requires AllClear(rs) && Within(cuts, |rs|) && forall k :: 0 <= k < |cuts| ==> cuts[k].1 - cuts[k].0 <= 255
    decreases |cuts|
  {
    if cuts == [] then []
    else
      var n := |cuts| - 1;
      var batch := rs[cuts[n].0..cuts[n].1];
      Received(rs, cuts[..n], max) + DecodeBatch([|batch|] + EncodeRecords(batch), max)
  }

  lemma {:induction false} FittingSpan(rs: seq<Stored>, a: nat, b: nat)
    requires a <= b <= |rs|
    ensures (forall m :: a <= m < b ==> FitsAlone(rs[m])) ==> Fitting(rs[..b]) == Fitting(rs[..a]) + rs[a..b]
    ensures (forall m :: a <= m < b ==> !FitsAlone(rs[m])) ==> Fitting(rs[..b]) == Fitting(rs[..a])
    decreases b
  {
    hide FitsAlone;
    if a < b {
      FittingSpan(rs, a, b - 1);
      assert rs[..b][..b - 1] == rs[..b - 1];
      assert rs[a..b] == rs[a..b - 1] + [rs[b - 1]];
    }
  }

  lemma FewerCuts(rs: seq<Stored>, cuts: seq<(nat, nat)>, upTo: nat)
    requires GreedyCuts(rs, cuts, upTo) && cuts != []
    ensures var c := cuts[|cuts| - 1];
      && c.0 < c.1 <= upTo <= |rs| && GreedyCuts(rs, cuts[..|cuts| - 1], c.0)
      && (forall m :: c.0 <= m < c.1 ==> FitsAlone(rs[m]))
      && forall m :: c.1 <= m < upTo ==> !FitsAlone(rs[m])
  {
    hide BodySize, FitsAlone;
    var n := |cuts| - 1;
    assert cuts == cuts[..n] + [cuts[n]];
    forall m | 0 <= m < upTo
      ensures Covered(cuts, m) <==> Covered(cuts[..n], m) || cuts[n].0 <= m < cuts[n].1
      ensures Covered(cuts[..n], m) ==> m < cuts[n].0
    {
      CoveredMore(cuts[..n], cuts[n], m);
    }
  }

  /** Sync is lossless up to records that are too big: whatever the greedy loop cuts, a receiver with
      room for each batch gets back, in order, exactly the records that fit alone. */
  lemma {:induction false} SyncLossless(rs: seq<Stored>, cuts: seq<(nat, nat)>, upTo: nat, max: nat)
    requires AllClear(rs) && GreedyCuts(rs, cuts, upTo) && Within(cuts, |rs|)
    requires forall k :: 0 <= k < |cuts| ==> cuts[k].1 - cuts[k].0 <= max && cuts[k].1 - cuts[k].0 <= 255
    ensures Received(rs, cuts, max) == Fitting(rs[..upTo])
    decreases |cuts|
  {
    hide GreedyCuts, FitsAlone, DecodeBatch, EncodeRecords, Fitting, AllClear;
    if cuts == [] {
      NoneFit(rs, upTo);
    } else {
      var n := |cuts| - 1;
      var c := cuts[n];
      FewerCuts(rs, cuts, upTo);
      SyncLossless(rs, cuts[..n], c.0, max);
      FittingSpan(rs, c.0, c.1);
      FittingSpan(rs, c.1, upTo);
      ClearSpan(rs, c.0, c.1);
      BatchRoundTrip(rs[c.0..c.1], max);
    }
  }

  /** The node's own labels have three letters or more, so its 8-place receiver always has room. */
  lemma LabelledSync(rs: seq<Stored>, cuts: seq<(nat, nat)>)
    requires AllClear(rs) && GreedyCuts(rs, cuts, |rs|) && Within(cuts, |rs|)
    requires forall i :: 0 <= i < |rs| ==> |rs[i].kind| >= 3 && |rs[i].priority| >= 3
    ensures forall k :: 0 <= k < |cuts| ==> cuts[k].1 - cuts[k].0 <= 7
    ensures Received(rs, cuts, 8) == Fitting(rs)
  {
    hide FitsAlone, Received, Fitting, AllClear, BodySize;
    forall k | 0 <= k < |cuts|
      ensures cuts[k].1 - cuts[k].0 <= 7
    {
      ClearSpan(rs, cuts[k].0, cuts[k].1);
      LabelledBatchFits(rs[cuts[k].0..cuts[k].1]);
    }
    SyncLossless(rs, cuts, |rs|, 8);
    assert rs[..|rs|] == rs;
  }

  lemma NoneFit(rs: seq<Stored>, upTo: nat)
    requires GreedyCuts(rs, [], upTo)
    ensures Fitting(rs[..upTo]) == []
  {
    FittingSpan(rs, 0, upTo);
  }

  lemma ClearSpan(rs: seq<Stored>, a: nat, b: nat)
    requires AllClear(rs) && a <= b <= |rs|
    ensures AllClear(rs[a..b])
  {
    hide Clear, Encodable;
  }
}
