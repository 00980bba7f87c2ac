/** The wire formats byte by byte, on packets and records with names of one letter. */
module WireForms {
  import opened CText
  import opened V2Packet
  import opened V2Codec
  import opened SyncBatch
  import MessageStore
  import SyncCursors

  /** The number of four bytes, the lowest first. */
  function Little(b0: byte, b1: byte, b2: byte, b3: byte): uint32 {
    b0 + 256 * (b1 + 256 * (b2 + 256 * b3))
  }

  lemma LittleBytes(b0: byte, b1: byte, b2: byte, b3: byte)
    ensures WordBytes(Little(b0, b1, b2, b3)) == [b0, b1, b2, b3]
  {
    Split(b0, b1 + 256 * (b2 + 256 * b3));
    Split(b1, b2 + 256 * b3);
    Split(b2, b3);
  }

  lemma Split(low: byte, high: nat)
    ensures (low + 256 * high) / 256 == high && (low + 256 * high) % 256 == low
  {
  }

  /** A letter or a digit, say; not '~'. */
  predicate Letter(c: byte) {
    32 <= c < 126
  }

  lemma OneLetter(c: byte)
    requires Letter(c)
    ensures CopyField([c], NAME_MAX) == [c] && Name([c])
  {
    assert [c][1..] == [];
  }

  /** An emergency message of `a` for `b`, sent on by `r` by way of `n`, from the place s, g, m. */
  function Emergency(a: byte, b: byte, r: byte, n: byte, s: byte, g: byte, m: byte, id: uint32, hops: byte,
      pathHops: byte, x: byte, y: byte): Packet {
    Packet(true, id, hops, pathHops, false, [a], [b], EMERGENCY, HIGH, [r], [n], [s, 126, g, 126, m],
      Location([s], [g], [m]), [a], Padded([x, y]), 2)
  }

  lemma EmergencyParts(a: byte, b: byte, r: byte, n: byte, s: byte, g: byte, m: byte, id: uint32, hops: byte,
      pathHops: byte, x: byte, y: byte)
    requires Letter(a) && Letter(b) && Letter(r) && Letter(n) && Letter(s) && Letter(g) && Letter(m)
    ensures var p := Emergency(a, b, r, n, s, g, m, id, hops, pathHops, x, y);
      WellFormed(p) && PayloadSize(p) == 2 && p.payload[..2] == [x, y] && Canonical(p) == p
  {
    hide CStr, Padded, CopyField;
    PaddedFront([x, y]);
    OneLetter(a);
    OneLetter(b);
    OneLetter(r);
    OneLetter(n);
    PlaceOfLetters(s, g, m);
    hide NulFree, PlainLocation, EncodeLocation, Name, Letter;
  }

  lemma MessageBytes(a: byte, b: byte, r: byte, n: byte, s: byte, g: byte, m: byte, i0: byte, i1: byte, i2: byte,
      i3: byte, hops: byte, pathHops: byte, x: byte, y: byte)
    requires Letter(a) && Letter(b) && Letter(r) && Letter(n) && Letter(s) && Letter(g) && Letter(m)
    ensures
      var p := Emergency(a, b, r, n, s, g, m, Little(i0, i1, i2, i3), hops, pathHops, x, y);
      && WellFormed(p)
      && Encode(p) == [0xB2, 2, 7, 6, 2, 1, a, 1, b, i0, i1, i2, i3, 1, r, hops, pathHops, 1, n, 5, s, 126, g, 126, m,
                       2, x, y]
      && Decode(Encode(p)) == Accept(p, [])
  {
    hide Encode, Decode, WellFormed, Canonical, EncodeHead, EncodeTail, Little, Letter;
    var id := Little(i0, i1, i2, i3);
    var p := Emergency(a, b, r, n, s, g, m, id, hops, pathHops, x, y);
    EmergencyParts(a, b, r, n, s, g, m, id, hops, pathHops, x, y);
    LittleBytes(i0, i1, i2, i3);
    PlaceOfLetters(s, g, m);
    HeadBytes(p, EncodeTail(p));
    TailBytes(p);
    EncodeParts(p);
    RoundTrip(p);
  }

  lemma HeadBytes(p: Packet, rest: seq<byte>)
    requires WellFormed(p) && |p.source| == |p.destination| == |p.relay| == 1 && !IsBroadcast(p)
    requires p.kind == EMERGENCY && p.priority == HIGH
    ensures var w := WordBytes(p.id);
      EncodeHead(p, rest) ==
      [Flags(p), 6, 2, 1, p.source[0], 1, p.destination[0], w[0], w[1], w[2], w[3], 1, p.relay[0], p.hops, p.pathHops]
      + rest
  {
    hide WordBytes, Flags;
  }

  lemma TailBytes(p: Packet)
    requires Sized(p) && PayloadSize(p) == 2 && |p.nextHop| == 1 && HasLocation(p)
    requires |EncodeLocation(p.location)| == 5
    ensures var l := EncodeLocation(p.location);
      EncodeTail(p) == [1, p.nextHop[0], 5, l[0], l[1], l[2], l[3], l[4], 2, p.payload[0], p.payload[1]]
  {
    hide EncodeLocation;
  }

  lemma PlaceOfLetters(s: byte, g: byte, m: byte)
    requires Letter(s) && Letter(g) && Letter(m)
    ensures PlainLocation(Location([s], [g], [m])) && EncodeLocation(Location([s], [g], [m])) == [s, 126, g, 126, m]
  {
  }

  /** A plain message of `a` for all, without payload. */
  lemma AnnouncementBytes(a: byte, i0: byte, i1: byte, i2: byte, i3: byte, hops: byte, key: Text)
    requires Letter(a)
    ensures
      var p := Packet(true, Little(i0, i1, i2, i3), hops, 1, false, [a], [65, 76, 76], FLOOD, LOW, [a], [], [], NOWHERE,
                 key, Padded([]), 0);
      && WellFormed(p)
      && Encode(p) == [0xB2, 2, 4, 1, 0, 1, a, 0xFF, i0, i1, i2, i3, 1, a, hops, 1, 0]
      && Decode(Encode(p)) ==
           Accept(p.(broadcast := true, threadKey := [65, 78, 78, 79, 85, 78, 67, 69, 77, 69, 78, 84, 83]), [])
  {
    hide CStr, Decode, Padded, WordBytes, CopyField;
    var p := Packet(true, Little(i0, i1, i2, i3), hops, 1, false, [a], [65, 76, 76], FLOOD, LOW, [a], [], [], NOWHERE,
               key, Padded([]), 0);
    LittleBytes(i0, i1, i2, i3);
    PaddedFront([]);
    OneLetter(a);
    PlainNowhere();
    RoundTrip(p);
  }

  /** A packet without the count of hops on its path counts as one hop away; and the bytes behind a packet are
      left over. */
  lemma UncountedBytes(a: byte, b: byte, r: byte, i0: byte, i1: byte, i2: byte, i3: byte, hops: byte, rest: seq<byte>)
    requires Letter(a) && Letter(b) && Letter(r)
    ensures
      Decode([0xB2, 2, 0, 2, 1, 1, a, 1, b, i0, i1, i2, i3, 1, r, hops, 0] + rest) ==
      Accept(Packet(true, Little(i0, i1, i2, i3), hops, 1, false, [a], [b], ACK, NORMAL, [r], [], [], NOWHERE, [a],
               Padded([]), 0), rest)
  {
    hide CStr, Padded, WordBytes, CopyField, TakeHead, TakeTail, HeadForm, Letter;
    var id := Little(i0, i1, i2, i3);
    LittleBytes(i0, i1, i2, i3);
    hide Little;
    var s := [0xB2, 2, 0, 2, 1, 1, a, 1, b, i0, i1, i2, i3, 1, r, hops, 0] + rest;
    HeadFormBytes(a, b, r, id, hops, [0] + rest);
    assert s[2..] == [0, 2, 1, 1, a, 1, b, i0, i1, i2, i3, 1, r, hops] + ([0] + rest);
    UncountedHead(a, b, r, id, hops, [0] + rest);
    EmptyTail(rest);
    OneLetter(a);
  }

  function HeadForm(a: byte, b: byte, r: byte, id: uint32, hops: byte, rest: seq<byte>): seq<byte> {
    [0] + ([2] + ([1] + (Field([a]) + (Field([b]) + (WordBytes(id) + (Field([r]) + ([hops] + rest)))))))
  }

  lemma HeadFormBytes(a: byte, b: byte, r: byte, id: uint32, hops: byte, rest: seq<byte>)
    ensures var w := WordBytes(id);
      HeadForm(a, b, r, id, hops, rest) == [0, 2, 1, 1, a, 1, b, w[0], w[1], w[2], w[3], 1, r, hops] + rest
  {
    hide WordBytes;
  }

  lemma UncountedHead(a: byte, b: byte, r: byte, id: uint32, hops: byte, rest: seq<byte>)
    requires Letter(a) && Letter(b) && Letter(r)
    ensures TakeHead(HeadForm(a, b, r, id, hops, rest)) ==
            Accept(Head(0, 2, 1, [a], ([b], false), id, [r], hops, 1), rest)
  {
    hide CStr, WordBytes, TakeName, TakeDestination, TakeWord, TakeByte, Field, Letter;
    OneLetter(a);
    OneLetter(r);
    var s7 := [hops] + rest;
    var s6 := Field([r]) + s7;
    var s5 := WordBytes(id) + s6;
    var s4 := Field([b]) + s5;
    var s3 := Field([a]) + s4;
    var s2 := [1] + s3;
    TakeByteBack(0, [2] + s2);
    TakeByteBack(2, s2);
    TakeByteBack(1, s3);
    TakeNameBack([a], s4);
    ToOneLetter(b, s5);
    TakeWordBack(id, s6);
    TakeNameBack([r], s7);
    TakeByteBack(hops, rest);
  }

  lemma EmptyTail(rest: seq<byte>)
    ensures TakeTail(0, [0] + rest) == Accept(([], [], []), rest)
  {
    hide TakeField;
    assert Field([]) + rest == [0] + rest;
    TakeFieldBack([], rest, 139);
  }

  lemma ToOneLetter(b: byte, rest: seq<byte>)
    requires Letter(b)
    ensures TakeDestination(Field([b]) + rest) == Accept(([b], false), rest)
  {
    hide TakeName, CStr;
    OneLetter(b);
    TakeNameBack([b], rest);
  }

  /** A batch of one record. */
  lemma RecordBytes(a: byte, b: byte, k: byte, y: byte, i0: byte, i1: byte, i2: byte, i3: byte, hops: byte, x: byte)
    requires Letter(a) && Letter(b) && Letter(k) && Letter(y) && Letter(x)
    ensures
      var r := SyncRecord(Little(i0, i1, i2, i3), [a], [b], [k], [y], hops, [x]);
      && RecordSized(r) && Encodable(r)
      && EncodeRecord(r) == [i0, i1, i2, i3, 1, a, 1, b, 1, k, 1, y, hops, 1, x]
      && forall max: nat :: max >= 1 ==> DecodeBatch([1] + EncodeRecord(r), max) == [r]
  {
    hide CStr, WordBytes, DecodeBatch;
    LittleBytes(i0, i1, i2, i3);
    OneLetter(a);
    OneLetter(b);
    OneLetter(k);
    OneLetter(y);
    hide Name, Letter;
    var r: Stored := SyncRecord(Little(i0, i1, i2, i3), [a], [b], [k], [y], hops, [x]);
    OneRecord(r);
    assert NulFree([x]) by { OneLetter(x); }
    forall max: nat | max >= 1
      ensures DecodeBatch([1] + EncodeRecord(r), max) == [r]
    {
      BatchRoundTrip([r], max);
    }
  }

  lemma OneRecord(r: Stored)
    requires Encodable(r)
    ensures EncodeRecords([r]) == EncodeRecord(r)
  {
    hide EncodeRecord;
    assert [r][..0] == [] && [] + EncodeRecord(r) == EncodeRecord(r);
  }

  /** The request of a node that holds one message. */
  lemma RequestBytes(m: MessageStore.Message, a: byte, i0: byte, i1: byte, i2: byte, i3: byte, payload: seq<byte>)
    requires m.source == [a] && m.id == Little(i0, i1, i2, i3) && SyncCursors.IsRequest([m], payload)
    ensures payload == [1, 1, a, i0, i1, i2, i3]
  {
    hide WordBytes;
    var snap: SyncCursors.Snapshot := [m];
    var listed :| SyncCursors.AllNameable(listed) && SyncCursors.Lists(snap, listed) && |listed| <= 255
      && payload == [|listed|] + SyncCursors.Cursors(snap, listed);
    LittleBytes(i0, i1, i2, i3);
    OneSource(m);
    assert SyncCursors.CursorsSize([[a]][..0]) == 1;
    assert listed == [m.source];
    assert SyncCursors.Cursors(snap, listed) == SyncCursors.Cursors(snap, []) + SyncCursors.Cursor(snap, [a]);
  }

  lemma OneSource(m: MessageStore.Message)
    requires SyncCursors.Nameable(m.source)
    ensures SyncCursors.Firsts([m]) == [m.source] && SyncCursors.MaxId([m], m.source) == m.id
  {
    assert [m][..0] == [];
  }
}
