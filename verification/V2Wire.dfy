/** The builder and the parser as they run: a moving offset over a byte buffer. */
module V2Wire {
  import opened CText
  import opened V2Packet
  import opened V2Codec

  /** A buffer being filled. */
  class Writer {
    const packet: array<byte>
    var offset: nat

    constructor (packet: array<byte>)
      ensures this.packet == packet && offset == 0
    {
      this.packet, offset := packet, 0;
    }

    ghost predicate Valid()
      reads this
    {
      offset <= packet.Length
    }

    /** What has been written so far. */
    ghost function Written(): seq<byte>
      requires Valid()
      reads this, packet
    {
      packet[..offset]
    }

    /** write_u8 */
    method PutByte(b: byte) returns (ok: bool)
      requires Valid()
      modifies this, packet
      ensures Valid() && (ok <==> old(offset) < packet.Length)
      ensures ok ==> Written() == old(Written()) + [b]
    {
      if offset >= packet.Length {
        return false;
      }
      packet[offset] := b;
      offset := offset + 1;
      return true;
    }

    /** write_bytes */
    method PutBytes(data: seq<byte>) returns (ok: bool)
      requires Valid()
      modifies this, packet
      ensures Valid() && (ok <==> old(offset) + |data| <= packet.Length)
      ensures ok ==> Written() == old(Written()) + data
    {
      if offset + |data| > packet.Length {
        return false;
      }
      ghost var before := Written();
      for i := 0 to |data|
        invariant Valid() && offset == old(offset) + i && Written() == before + data[..i]
      {
        packet[offset] := data[i];
        offset := offset + 1;
      }
      return true;
    }

    /** A length byte and the bytes, the pattern of every variable field. */
    method PutField(t: seq<byte>) returns (ok: bool)
      requires Valid() && |t| <= 0xFF
      modifies this, packet
      ensures Valid() && (ok <==> old(offset) + 1 + |t| <= packet.Length)
      ensures ok ==> Written() == old(Written()) + Field(t)
    {
      ok := PutByte(|t|);
      if ok {
        ghost var w := Written();
        ok := PutBytes(t);
        assert ok ==> w + t == old(Written()) + Field(t);
      }
    }
  }

  /** What is still to be written before the packet is complete. */
  ghost predicate Remains(written: seq<byte>, rest: seq<byte>, p: Packet) {
    Sized(p) && PayloadSize(p) < PAYLOAD_LEN && written + rest == Encode(p)
  }

  lemma Wrote(written: seq<byte>, chunk: seq<byte>, rest: seq<byte>, p: Packet)
    requires Remains(written, chunk + rest, p)
    ensures Remains(written + chunk, rest, p) && |written| + |chunk| + |rest| == Required(p)
  {
    hide Encode, Required;
    EncodeLength(p);
    assert written + (chunk + rest) == (written + chunk) + rest;
  }

  /** build_forward_packet_v2: it builds exactly when the packet is Buildable, and then the buffer
      holds exactly the Required bytes of the wire form. */
  method BuildForwardPacket(p: Packet, packet: array<byte>) returns (ok: bool, len: nat)
    requires Sized(p)
    modifies packet
    ensures ok <==> Buildable(p, packet.Length)
    ensures ok ==> len == Required(p) && len <= packet.Length && packet[..len] == Encode(p)
  {
    hide Encode, Required, Flags, Field, DestinationField, OptionalField, WordBytes, EncodeLocation, CStr, KindCode,
        PriorityCode, PayloadSize;
    len := 0;
    if p.source == [] || p.relay == [] || PayloadSize(p) >= PAYLOAD_LEN {
      return false, 0;
    }
    if Required(p) > MAX_PLAINTEXT || packet.Length < Required(p) {
      return false, 0;
    }
    var w := new Writer(packet);
    ghost var tail := EncodeTail(p);
    ghost var head2 := WordBytes(p.id) + (Field(p.relay) + ([Octet(p.hops), Octet(p.pathHops)] + tail));
    StartWriting(p);
    ok := WriteHead(w, p, head2);
    Wrote(w.Written(), WordBytes(p.id), Field(p.relay) + ([Octet(p.hops), Octet(p.pathHops)] + tail), p);
    ok := w.PutBytes(WordBytes(p.id));
    Wrote(w.Written(), Field(p.relay), [Octet(p.hops), Octet(p.pathHops)] + tail, p);
    FieldLength(p.relay);
    ok := w.PutField(p.relay);
    Wrote(w.Written(), [Octet(p.hops), Octet(p.pathHops)], tail, p);
    ok := w.PutBytes([Octet(p.hops), Octet(p.pathHops)]);
    ok := WriteRest(w, p);
    len := w.offset;
  }

  lemma FieldLength(t: seq<byte>)
    requires |t| <= 0xFF
    ensures |Field(t)| == 1 + |t|
  {
  }

  lemma StartWriting(p: Packet)
    requires Sized(p) && PayloadSize(p) < PAYLOAD_LEN
    ensures Remains([], [MAGIC, FORMAT, Flags(p), KindCode(p.kind),
        PriorityCode(p.priority)] + (Field(p.source) + (DestinationField(p)
              + (WordBytes(p.id) + (Field(p.relay) + ([Octet(p.hops), Octet(p.pathHops)] + EncodeTail(p)))))), p)
  {
    hide Flags, Field, DestinationField, OptionalField, WordBytes, EncodeLocation, CStr;
  }

  /** The fields up to the destination. */
  method WriteHead(w: Writer, p: Packet, ghost rest: seq<byte>) returns (ok: bool)
    requires w.Valid() && Sized(p) && PayloadSize(p) < PAYLOAD_LEN && Required(p) <= w.packet.Length
    requires Remains(w.Written(), [MAGIC, FORMAT, Flags(p), KindCode(p.kind),
        PriorityCode(p.priority)] + (Field(p.source) + (DestinationField(p) + rest)), p)
    modifies w, w.packet
    ensures ok && w.Valid() && Remains(w.Written(), rest, p)
  {
    hide Encode, Required, Flags, WordBytes, CStr, KindCode, PriorityCode, PayloadSize;
    Wrote(w.Written(), [MAGIC, FORMAT, Flags(p), KindCode(p.kind), PriorityCode(p.priority)],
        Field(p.source) + (DestinationField(p) + rest), p);
    ok := w.PutBytes([MAGIC, FORMAT, Flags(p), KindCode(p.kind), PriorityCode(p.priority)]);
    Wrote(w.Written(), Field(p.source), DestinationField(p) + rest, p);
    ok := w.PutField(p.source);
    Wrote(w.Written(), DestinationField(p), rest, p);
    if IsBroadcast(p) {
      ok := w.PutByte(BROADCAST);
    } else {
      ok := w.PutField(p.destination);
    }
  }

  /** The optional fields and the payload. */
  method WriteRest(w: Writer, p: Packet) returns (ok: bool)
    requires w.Valid() && Sized(p) && PayloadSize(p) < PAYLOAD_LEN && Required(p) <= w.packet.Length
    requires Remains(w.Written(), EncodeTail(p), p)
    modifies w, w.packet
    ensures ok && w.Valid() && Remains(w.Written(), [], p) && w.offset == Required(p)
  {
    hide Encode, Required, Flags, WordBytes, CStr, EncodeLocation, PayloadSize;
    var payload := p.payload[..PayloadSize(p)];
    Wrote(w.Written(), OptionalField(p.nextHop != [], p.nextHop),
        OptionalField(HasLocation(p), EncodeLocation(p.location)) + Field(payload), p);
    if p.nextHop != [] {
      ok := w.PutField(p.nextHop);
    } else {
      assert w.Written() + [] == w.Written();
    }
    Wrote(w.Written(), OptionalField(HasLocation(p), EncodeLocation(p.location)), Field(payload), p);
    if HasLocation(p) {
      ok := w.PutField(EncodeLocation(p.location));
    } else {
      assert w.Written() + [] == w.Written();
    }
    assert Field(payload) + [] == Field(payload);
    Wrote(w.Written(), Field(payload), [], p);
    ok := w.PutField(payload);
  }

  // The parser: each read looks at packet[offset..] and moves the offset past what it took

  method ReadByte(packet: array<byte>, len: nat, offset: nat) returns (ok: bool, b: byte, next: nat)
    requires offset <= len <= packet.Length
    ensures next <= len && TakeByte(packet[offset..len]) == if ok then Accept(b, packet[next..len]) else Reject
  {
    if offset >= len {
      return false, 0, offset;
    }
    assert packet[offset..len][1..] == packet[offset + 1..len];
    return true, packet[offset], offset + 1;
  }

  /** read_u8 of a length and read_bytes of that many, or the open-coded copy of the location and payload. */
  method ReadField(packet: array<byte>, len: nat, offset: nat, max: nat) returns (ok: bool, t: seq<byte>, next: nat)
    requires offset <= len <= packet.Length
    ensures next <= len && TakeField(packet[offset..len], max) == if ok then Accept(t, packet[next..len]) else Reject
  {
    var n;
    ok, n, next := ReadByte(packet, len, offset);
    if !ok || next + n > len || n > max {
      return false, [], offset;
    }
    assert packet[next..len][..n] == packet[next..next + n];
    assert packet[next..len][n..] == packet[next + n..len];
    return true, packet[next..next + n], next + n;
  }

  method ReadName(packet: array<byte>, len: nat, offset: nat) returns (ok: bool, t: Text, next: nat)
    requires offset <= len <= packet.Length
    ensures next <= len && TakeName(packet[offset..len]) == if ok then Accept(t, packet[next..len]) else Reject
  {
    hide TakeField;
    ok, t, next := ReadField(packet, len, offset, NAME_MAX);
    if !ok || t == [] {
      return false, [], offset;
    }
    t := CStr(t);
  }

  method ReadWord(packet: array<byte>, len: nat, offset: nat) returns (ok: bool, w: uint32, next: nat)
    requires offset <= len <= packet.Length
    ensures next <= len && TakeWord(packet[offset..len]) == if ok then Accept(w, packet[next..len]) else Reject
  {
    if offset + 4 > len {
      return false, 0, offset;
    }
    assert packet[offset..len][4..] == packet[offset + 4..len];
    return true, Word(packet[offset..len], 0), offset + 4;
  }

  method ReadDestination(packet: array<byte>, len: nat, offset: nat) returns (ok: bool, target: (Text, bool), next: nat)
    requires offset <= len <= packet.Length
    ensures next <= len && TakeDestination(packet[offset..len]) == if ok then Accept(target, packet[next..len])
        else Reject
  {
    hide TakeName;
    if offset < len && packet[offset] == BROADCAST {
      assert packet[offset..len][1..] == packet[offset + 1..len];
      return true, (ALL, true), offset + 1;
    }
    var t;
    ok, t, next := ReadName(packet, len, offset);
    target := (t, false);
  }

  method ReadHead(packet: array<byte>, len: nat, offset: nat) returns (ok: bool, h: Head, next: nat)
    requires offset <= len <= packet.Length
    ensures next <= len && TakeHead(packet[offset..len]) == if ok then Accept(h, packet[next..len]) else Reject
  {
    hide TakeByte, TakeName, TakeDestination, TakeWord, HasFlag;
    h := Head(0, 0, 0, [], ([], false), 0, [], 0, 0);
    next := offset;
    var flags, kind, priority, source, target, id, relay, hops, pathHops;
    ok, flags, next := ReadByte(packet, len, next);
    if !ok { return; }
    ok, kind, next := ReadByte(packet, len, next);
    if !ok { return; }
    ok, priority, next := ReadByte(packet, len, next);
    if !ok { return; }
    ok, source, next := ReadName(packet, len, next);
    if !ok { return; }
    ok, target, next := ReadDestination(packet, len, next);
    if !ok { return; }
    ok, id, next := ReadWord(packet, len, next);
    if !ok { return; }
    ok, relay, next := ReadName(packet, len, next);
    if !ok { return; }
    ok, hops, next := ReadByte(packet, len, next);
    if !ok { return; }
    pathHops := 1;
    if HasFlag(flags, FLAG_PATH_HOPS) {
      ok, pathHops, next := ReadByte(packet, len, next);
      if !ok { return; }
    }
    h := Head(flags, kind, priority, source, target, id, relay, hops, pathHops);
  }

  /** parse_mesh_packet_v2 */
  method ParsePacket(packet: array<byte>, len: nat) returns (ok: bool, p: Packet)
    requires len <= packet.Length
    ensures ok <==> Decode(packet[..len]).Accept?
    ensures ok ==> p == Decode(packet[..len]).value
  {
    hide TakeHead, TakeOptional, TakeLocation, TakeField, Assemble, HasFlag;
    p := Packet(false, 0, 0, 0, false, [], [], FLOOD, NORMAL, [], [], [], NOWHERE, [], [], 0);
    if len < 2 || packet[0] != MAGIC || packet[1] != FORMAT {
      return false, p;
    }
    assert packet[..len][2..] == packet[2..len];
    var h, nextHop, raw, payload, offset;
    ok, h, offset := ReadHead(packet, len, 2);
    if !ok { return; }
    ok, nextHop, raw, payload, offset := ReadTail(packet, len, offset, h.flags);
    if !ok { return; }
    p := Assemble(h, nextHop, raw, payload);
  }

  method ReadTail(packet: array<byte>, len: nat, offset: nat, flags: byte)
    returns (ok: bool, nextHop: Text, raw: Text, payload: seq<byte>, next: nat)
    requires offset <= len <= packet.Length
    ensures next <= len && (ok ==> |payload| < PAYLOAD_LEN)
    ensures TakeTail(flags, packet[offset..len]) == if ok then Accept((nextHop, raw, payload), packet[next..len])
        else Reject
  {
    hide TakeName, HasFlag, CStr;
    ok, nextHop, raw, payload, next := true, [], [], [], offset;
    if HasFlag(flags, FLAG_NEXT_HOP) {
      ok, nextHop, next := ReadName(packet, len, next);
      if !ok { return; }
    }
    if HasFlag(flags, FLAG_LOCATION) {
      ok, raw, next := ReadField(packet, len, next, 0xFF);
      if !ok { return; }
      raw := CStr(raw);
    }
    ok, payload, next := ReadField(packet, len, next, PAYLOAD_LEN - 1);
  }
}
