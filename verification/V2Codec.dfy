/** The compact V2 wire format: build_forward_packet_v2 and parse_mesh_packet_v2. */
module V2Codec {
  import opened CText
  import opened V2Packet

  const MAGIC: byte := 0xB2
  const FORMAT: byte := 2
  const BROADCAST: byte := 0xFF
  const MAX_PLAINTEXT := 227
  const PACKET_LEN := 320
  const FLAG_NEXT_HOP := 1
  const FLAG_LOCATION := 2
  const FLAG_PATH_HOPS := 4

  // The meaning of the format

  predicate IsBroadcast(p: Packet) {
    p.broadcast || p.destination == ALL
  }

  predicate HasLocation(p: Packet) {
    p.locationRaw != [] || p.location.sitio != [] || p.location.barangay != [] || p.location.municipality != []
  }

  function PayloadSize(p: Packet): nat {
    if p.payloadLen > 0 then p.payloadLen else |CStr(p.payload)|
  }

  function Flags(p: Packet): byte {
    FLAG_PATH_HOPS + (if p.nextHop != [] then FLAG_NEXT_HOP else 0) + if HasLocation(p) then FLAG_LOCATION else 0
  }

  /** A byte that a C cast to uint8_t leaves of a count that is not negative. */
  function Octet(n: int): byte {
    if n < 0 then 0 else n % 0x100
  }

  /** A length byte and the bytes. */
  function Field(t: seq<byte>): seq<byte>
    requires |t| <= 0xFF
  {
    [|t|] + t
  }

  /** A packet whose parts fit their length bytes: names in 32-byte fields, a 140-byte payload buffer. */
  predicate Sized(p: Packet) {
    && |p.source| <= 32 && |p.destination| <= 32 && |p.relay| <= 32 && |p.nextHop| <= 32
    && |p.payload| == PAYLOAD_LEN
  }

  /** The wire form, written from the right so that a parser peels it from the left. */
  function Encode(p: Packet): seq<byte>
    requires Sized(p) && PayloadSize(p) < PAYLOAD_LEN
  {
    [MAGIC, FORMAT, Flags(p), KindCode(p.kind), PriorityCode(p.priority)]
    + (Field(p.source) + (DestinationField(p) + (WordBytes(p.id) + (Field(p.relay)
    + ([Octet(p.hops), Octet(p.pathHops)] + (OptionalField(p.nextHop != [], p.nextHop)
    + (OptionalField(HasLocation(p), EncodeLocation(p.location)) + Field(p.payload[..PayloadSize(p)]))))))))
  }

  function DestinationField(p: Packet): seq<byte>
    requires Sized(p)
  {
    if IsBroadcast(p) then [BROADCAST] else Field(p.destination)
  }

  function OptionalField(present: bool, t: seq<byte>): seq<byte>
    requires |t| <= 0xFF
  {
    if present then Field(t) else []
  }

  /** `required` in the builder. */
  function Required(p: Packet): nat {
    15 + |p.source| + (if IsBroadcast(p) then 0 else |p.destination|) + |p.relay|
    + (if p.nextHop != [] then 1 + |p.nextHop| else 0)
    + (if HasLocation(p) then 1 + |EncodeLocation(p.location)| else 0) + PayloadSize(p)
  }

  /** When build_forward_packet_v2 builds, for a buffer of `size` bytes. */
  predicate Buildable(p: Packet, size: nat) {
    && p.source != [] && p.relay != [] && PayloadSize(p) < PAYLOAD_LEN
    && Required(p) <= MAX_PLAINTEXT && Required(p) <= size
  }

  lemma EncodeLength(p: Packet)
    requires Sized(p) && PayloadSize(p) < PAYLOAD_LEN
    ensures |Encode(p)| == Required(p)
  {
  }

  // The parser, as a function of the bytes that are left

  datatype Parsed<+T> = Reject | Accept(value: T, rest: seq<byte>) {
    predicate IsFailure() {
      Reject?
    }
    function PropagateFailure<U>(): Parsed<U>
      requires Reject?
    {
      Reject
    }
    function Extract(): (T, seq<byte>)
      requires Accept?
    {
      (value, rest)
    }
  }

  /** read_u8 */
  function TakeByte(s: seq<byte>): Parsed<byte> {
    if s == [] then Reject else Accept(s[0], s[1..])
  }

  /** A length byte and that many bytes, at most `max` of them. */
  function TakeField(s: seq<byte>, max: nat): Parsed<seq<byte>> {
    var (n, s) :- TakeByte(s);
    if n > |s| || n > max then Reject else Accept(s[..n], s[n..])
  }

  /** A name field of 32 bytes, which may not be empty. */
  function TakeName(s: seq<byte>): Parsed<Text> {
    var (t, s) :- TakeField(s, NAME_MAX);
    if t == [] then Reject else Accept(CStr(t), s)
  }

  function TakeWord(s: seq<byte>): Parsed<uint32> {
    if |s| < 4 then Reject else Accept(Word(s, 0), s[4..])
  }

  /** The destination and whether it is the broadcast mark. */
  function TakeDestination(s: seq<byte>): Parsed<(Text, bool)> {
    if s != [] && s[0] == BROADCAST then Accept((ALL, true), s[1..])
    else
      var (t, s) :- TakeName(s);
      Accept((t, false), s)
  }

  function TakeOptional(present: bool, s: seq<byte>): Parsed<Text> {
    if present then TakeName(s) else Accept([], s)
  }

  function TakeLocation(present: bool, s: seq<byte>): Parsed<Text> {
    if !present then Accept([], s)
    else
      var (t, s) :- TakeField(s, 0xFF);
      Accept(CStr(t), s)
  }

  predicate HasFlag(flags: byte, flag: nat)
    requires flag > 0
  {
    flags / flag % 2 == 1
  }

  function ThreadKey(broadcast: bool, destination: Text, source: Text): Text {
    if broadcast || destination == [] || destination == ALL then ANNOUNCEMENTS else CopyField(source, NAME_MAX)
  }

  function Padded(t: seq<byte>): seq<byte>
    requires |t| <= PAYLOAD_LEN
  {
    t + seq(PAYLOAD_LEN - |t|, _ => 0)
  }

  /** The fields up to the hop counts. */
  datatype Head = Head(
    flags: byte, kind: byte, priority: byte, source: Text, target: (Text, bool), id: uint32, relay: Text, hops: byte,
    pathHops: byte)

  function TakeHead(s: seq<byte>): Parsed<Head> {
    var (flags, s) :- TakeByte(s);
    var (kind, s) :- TakeByte(s);
    var (priority, s) :- TakeByte(s);
    var (source, s) :- TakeName(s);
    var (target, s) :- TakeDestination(s);
    var (id, s) :- TakeWord(s);
    var (relay, s) :- TakeName(s);
    var (hops, s) :- TakeByte(s);
    var (pathHops, s) :- if HasFlag(flags, FLAG_PATH_HOPS) then TakeByte(s) else Accept(1, s);
    Accept(Head(flags, kind, priority, source, target, id, relay, hops, pathHops), s)
  }

  /** The next hop, the location text and the payload. */
  function TakeTail(flags: byte, s: seq<byte>): Parsed<(Text, Text, seq<byte>)> {
    var (nextHop, s) :- TakeOptional(HasFlag(flags, FLAG_NEXT_HOP), s);
    var (raw, s) :- TakeLocation(HasFlag(flags, FLAG_LOCATION), s);
    var (payload, s) :- TakeField(s, PAYLOAD_LEN - 1);
    Accept((nextHop, raw, payload), s)
  }

  function Assemble(h: Head, nextHop: Text, raw: Text, payload: seq<byte>): Packet
    requires |payload| < PAYLOAD_LEN
  {
    var destination := if h.target.0 == [] then ALL else h.target.0;
    var broadcast := h.target.1 || h.target.0 == [];
    Packet(true, h.id, h.hops, h.pathHops, broadcast, h.source, destination, KindOf(h.kind), PriorityOf(h.priority),
      h.relay, nextHop, raw, if raw == [] then NOWHERE else DecodeLocation(raw),
      ThreadKey(broadcast, destination, h.source), Padded(payload), |payload|)
  }

  /** parse_mesh_packet_v2 on all the bytes of a packet; bytes after the payload are not looked at. */
  function Decode(s: seq<byte>): Parsed<Packet> {
    if |s| < 2 || s[0] != MAGIC || s[1] != FORMAT then Reject
    else
      var (h, s) :- TakeHead(s[2..]);
      var (t, s) :- TakeTail(h.flags, s);
      Accept(Assemble(h, t.0, t.1, t.2), s)
  }

  // Round trip

  predicate Name(t: Text) {
    t != [] && |t| <= NAME_MAX && NulFree(t)
  }

  /** A packet that a node may send: proper names, counts that fit a byte, a plain location. */
  predicate WellFormed(p: Packet) {
    && Sized(p) && Name(p.source) && Name(p.relay)
    && (IsBroadcast(p) || Name(p.destination)) && (p.nextHop == [] || Name(p.nextHop))
    && 0 <= p.hops <= 0xFF && 0 <= p.pathHops <= 0xFF
    && PayloadSize(p) < PAYLOAD_LEN && PlainLocation(p.location)
  }

  /** The packet with its derived fields as the parser sets them. */
  function Canonical(p: Packet): Packet
    requires Sized(p) && PayloadSize(p) < PAYLOAD_LEN
  {
    var destination := if IsBroadcast(p) then ALL else p.destination;
    p.(valid := true, broadcast := IsBroadcast(p), destination := destination,
       locationRaw := if HasLocation(p) then EncodeLocation(p.location) else [],
       threadKey := ThreadKey(IsBroadcast(p), destination, p.source),
       payload := Padded(p.payload[..PayloadSize(p)]), payloadLen := PayloadSize(p))
  }

  lemma TakeFieldBack(t: seq<byte>, rest: seq<byte>, max: nat)
    requires |t| <= 0xFF && |t| <= max
    ensures TakeField(Field(t) + rest, max) == Accept(t, rest)
  {
    var s := Field(t) + rest;
    assert s[1..] == t + rest;
    assert (t + rest)[..|t|] == t && (t + rest)[|t|..] == rest;
  }

  lemma TakeNameBack(t: Text, rest: seq<byte>)
    requires Name(t)
    ensures TakeName(Field(t) + rest) == Accept(t, rest)
  {
    hide TakeField;
    TakeFieldBack(t, rest, NAME_MAX);
    CStrKeeps(t);
  }

  lemma TakeByteBack(b: byte, rest: seq<byte>)
    ensures TakeByte([b] + rest) == Accept(b, rest)
  {
    assert ([b] + rest)[1..] == rest;
  }

  lemma TakeWordBack(w: uint32, rest: seq<byte>)
    ensures TakeWord(WordBytes(w) + rest) == Accept(w, rest)
  {
    var s := WordBytes(w) + rest;
    assert s[4..] == rest;
    assert forall i :: 0 <= i < 4 ==> s[i] == WordBytes(w)[i];
    assert Word(s, 0) == Word(WordBytes(w), 0);
  }

  lemma TakeDestinationBack(p: Packet, rest: seq<byte>)
    requires WellFormed(p)
    ensures TakeDestination(DestinationField(p) + rest) ==
        Accept((if IsBroadcast(p) then ALL else p.destination, IsBroadcast(p)), rest)
  {
    hide TakeName, CStr, Word;
    if IsBroadcast(p) {
      assert ([BROADCAST] + rest)[1..] == rest;
    } else {
      TakeNameBack(p.destination, rest);
    }
  }

  lemma TakeLocationBack(p: Packet, rest: seq<byte>)
    requires WellFormed(p)
    ensures var t := if HasLocation(p) then EncodeLocation(p.location) else [];
      && TakeLocation(HasLocation(p), OptionalField(HasLocation(p), EncodeLocation(p.location)) + rest) ==
          Accept(t, rest)
      && (if t == [] then NOWHERE else DecodeLocation(t)) == p.location
  {
    hide TakeField, CStr, DecodeLocation, EncodeLocation;
    if HasLocation(p) {
      LocationRoundTrip(p.location);
      TakeFieldBack(EncodeLocation(p.location), rest, 0xFF);
      CStrKeeps(EncodeLocation(p.location));
    } else {
      assert [] + rest == rest;
    }
  }

  lemma TakeNextHopBack(p: Packet, rest: seq<byte>)
    requires WellFormed(p)
    ensures TakeOptional(p.nextHop != [], OptionalField(p.nextHop != [], p.nextHop) + rest) == Accept(p.nextHop, rest)
  {
    hide TakeName, CStr;
    if p.nextHop != [] {
      TakeNameBack(p.nextHop, rest);
    } else {
      assert [] + rest == rest;
    }
  }

  lemma FlagsBack(p: Packet)
    ensures HasFlag(Flags(p), FLAG_PATH_HOPS)
    ensures HasFlag(Flags(p), FLAG_NEXT_HOP) <==> p.nextHop != []
    ensures HasFlag(Flags(p), FLAG_LOCATION) <==> HasLocation(p)
    ensures Flags(p) == 4 + (if HasLocation(p) then 2 else 0) + (if p.nextHop != [] then 1 else 0)
  {
  }

  function HeadOf(p: Packet): Head
    requires WellFormed(p)
  {
    Head(Flags(p), KindCode(p.kind), PriorityCode(p.priority), p.source,
      (if IsBroadcast(p) then ALL else p.destination, IsBroadcast(p)), p.id, p.relay, p.hops, p.pathHops)
  }

  function EncodeHead(p: Packet, rest: seq<byte>): seq<byte>
    requires WellFormed(p)
  {
    [Flags(p)] + ([KindCode(p.kind)] + ([PriorityCode(p.priority)] + (Field(p.source) + (DestinationField(p)
    + (WordBytes(p.id) + (Field(p.relay) + ([p.hops] + ([p.pathHops] + rest))))))))
  }

  lemma TakeHeadBack(p: Packet, rest: seq<byte>)
    requires WellFormed(p)
    ensures TakeHead(EncodeHead(p, rest)) == Accept(HeadOf(p), rest)
  {
    hide TakeByte, TakeName, TakeDestination, TakeWord, WordBytes, Flags, HasFlag, DestinationField, Field, Name,
        KindCode, PriorityCode;
    FlagsBack(p);
    var r9 := [p.pathHops] + rest;
    var r8 := [p.hops] + r9;
    var r7 := Field(p.relay) + r8;
    var r6 := WordBytes(p.id) + r7;
    var r5 := DestinationField(p) + r6;
    var r4 := Field(p.source) + r5;
    var r3 := [PriorityCode(p.priority)] + r4;
    var r2 := [KindCode(p.kind)] + r3;
    TakeByteBack(Flags(p), r2);
    TakeByteBack(KindCode(p.kind), r3);
    TakeByteBack(PriorityCode(p.priority), r4);
    TakeNameBack(p.source, r5);
    TakeDestinationBack(p, r6);
    TakeWordBack(p.id, r7);
    TakeNameBack(p.relay, r8);
    TakeByteBack(p.hops, r9);
    TakeByteBack(p.pathHops, rest);
  }

  /** The optional fields and the payload. */
  function EncodeTail(p: Packet): seq<byte>
    requires Sized(p) && PayloadSize(p) < PAYLOAD_LEN
  {
    OptionalField(p.nextHop != [], p.nextHop)
    + (OptionalField(HasLocation(p), EncodeLocation(p.location)) + Field(p.payload[..PayloadSize(p)]))
  }

  lemma TakeTailBack(p: Packet)
    requires WellFormed(p)
    ensures TakeTail(Flags(p), EncodeTail(p)) ==
            Accept((p.nextHop, if HasLocation(p) then EncodeLocation(p.location) else [], p.payload[..PayloadSize(p)]),
                [])
  {
    hide TakeField, TakeOptional, TakeLocation, Flags, HasFlag, OptionalField, Field, Name, EncodeLocation;
    FlagsBack(p);
    var payload := p.payload[..PayloadSize(p)];
    var r2 := Field(payload);
    var r1 := OptionalField(HasLocation(p), EncodeLocation(p.location)) + r2;
    TakeNextHopBack(p, r1);
    TakeLocationBack(p, r2);
    TakeFieldBack(payload, [], PAYLOAD_LEN - 1);
    assert Field(payload) + [] == Field(payload);
  }

  lemma EncodeParts(p: Packet)
    requires WellFormed(p)
    ensures Encode(p) == [MAGIC, FORMAT] + EncodeHead(p, EncodeTail(p))
  {
    hide WordBytes, Flags, DestinationField, Field, Name, KindCode, PriorityCode, OptionalField;
  }

  /** Every well-formed packet comes back from the wire as it was, with its derived fields set. */
  lemma RoundTrip(p: Packet)
    requires WellFormed(p)
    ensures Decode(Encode(p)) == Accept(Canonical(p), [])
    ensures |Encode(p)| == Required(p)
  {
    EncodeLength(p);
    EncodeParts(p);
    TakeHeadBack(p, EncodeTail(p));
    TakeTailBack(p);
    TakeLocationBack(p, []);
    CodesRoundTrip(p.kind, p.priority);
    hide Encode, TakeHead, TakeTail, EncodeHead, EncodeTail, Field, Flags, DecodeLocation, EncodeLocation,
        TakeLocation, Padded, CStr, OptionalField;
    assert ([MAGIC, FORMAT] + EncodeHead(p, EncodeTail(p)))[2..] == EncodeHead(p, EncodeTail(p));
  }

  /** A packet of short texts is built exactly when it has a source and a relay and takes at most 227 bytes, and
      then it comes back. */
  lemma BuiltIff(p: Packet)
    requires Sized(p) && ShortText(p.source) && ShortText(p.relay) && ShortText(p.nextHop) && ShortText(p.destination)
    requires (IsBroadcast(p) || p.destination != []) && 0 <= p.hops <= 255 && 0 <= p.pathHops <= 255
    requires PayloadSize(p) < 140 && PlainLocation(p.location)
    ensures Buildable(p, 320) <==> p.source != [] && p.relay != [] && |Encode(p)| <= 227
    ensures Buildable(p, 320) ==> Decode(Encode(p)) == Accept(Canonical(p), [])
  {
    hide Encode, Decode, PlainLocation, NulFree, CStr, EncodeLocation, Canonical;
    EncodeLength(p);
    if p.source != [] && p.relay != [] {
      RoundTrip(p);
    }
  }

  lemma PaddedFront(t: seq<byte>)
    requires |t| <= PAYLOAD_LEN
    ensures Padded(t)[..|t|] == t && |Padded(t)| == PAYLOAD_LEN
    ensures t == [] ==> CStr(Padded(t)) == []
  {
  }

  /** What was parsed can be sent on: it is well formed, and its wire form is the one it came from. */
  lemma CanonicalIsStable(p: Packet)
    requires WellFormed(p)
    ensures WellFormed(Canonical(p)) && Encode(Canonical(p)) == Encode(p) && Canonical(Canonical(p)) == Canonical(p)
  {
    hide CStr, EncodeLocation, Padded, Field, WordBytes, CopyField;
    PaddedFront(p.payload[..PayloadSize(p)]);
  }

  /** Two well-formed packets with the same wire form differ in derived fields only. */
  lemma EncodeInjective(p: Packet, q: Packet)
    requires WellFormed(p) && WellFormed(q) && Encode(p) == Encode(q)
    ensures Canonical(p) == Canonical(q)
  {
    hide Encode, Decode, Canonical, WellFormed;
    assert Sized(p) && Sized(q) && PayloadSize(p) < PAYLOAD_LEN
        && PayloadSize(q) < PAYLOAD_LEN by { WellFormedSizes(p); WellFormedSizes(q); }
    RoundTrip(p);
    RoundTrip(q);
  }

  lemma WellFormedSizes(p: Packet)
    requires WellFormed(p)
    ensures Sized(p) && PayloadSize(p) < PAYLOAD_LEN
  {
  }

  /** Any bytes that parse give a well-formed packet, except for a source or a relay that starts with a NUL. */
  lemma ParsedWellFormed(s: seq<byte>, p: Packet, rest: seq<byte>)
    requires Decode(s) == Accept(p, rest)
    ensures WellFormed(p) <==> p.source != [] && p.relay != []
  {
    hide TakeHead, TakeTail, Assemble, WellFormed;
    var h, t := TakeHead(s[2..]), TakeTail(TakeHead(s[2..]).value.flags, TakeHead(s[2..]).rest);
    HeadNames(s[2..]);
    TailNames(h.value.flags, h.rest);
    AssembledWellFormed(h.value, t.value.0, t.value.1, t.value.2);
  }

  predicate ShortText(t: Text) {
    |t| <= NAME_MAX && NulFree(t)
  }

  lemma TakenName(s: seq<byte>)
    ensures TakeName(s).Accept? ==> ShortText(TakeName(s).value)
  {
  }

  lemma HeadNames(s: seq<byte>)
    requires TakeHead(s).Accept?
    ensures var h := TakeHead(s).value; ShortText(h.source) && ShortText(h.relay) && ShortText(h.target.0)
  {
    hide TakeName, ShortText, TakeByte, TakeWord, HasFlag;
    forall x: seq<byte>
      ensures TakeName(x).Accept? ==> ShortText(TakeName(x).value)
    {
      TakenName(x);
    }
    AllShort();
  }

  lemma AllShort()
    ensures ShortText(ALL) && ShortText([])
  {
  }

  lemma TailNames(flags: byte, s: seq<byte>)
    requires TakeTail(flags, s).Accept?
    ensures var t := TakeTail(flags, s).value; ShortText(t.0) && |t.2| < PAYLOAD_LEN
  {
    hide TakeName, ShortText, HasFlag, TakeLocation;
    forall x: seq<byte>
      ensures TakeName(x).Accept? ==> ShortText(TakeName(x).value)
    {
      TakenName(x);
    }
    AllShort();
  }

  lemma AssembledWellFormed(h: Head, nextHop: Text, raw: Text, payload: seq<byte>)
    requires ShortText(h.source) && ShortText(h.relay) && ShortText(h.target.0) && ShortText(nextHop)
        && |payload| < PAYLOAD_LEN
    ensures var p := Assemble(h, nextHop, raw, payload);
      p.source == h.source && p.relay == h.relay && (WellFormed(p) <==> p.source != [] && p.relay != [])
  {
    hide CStr, DecodeLocation, CopyField, KindOf, PriorityOf, Padded, NulFree, PlainLocation;
    PaddedFront(payload);
    DecodedPlain(raw);
    AllShort();
    assert PlainLocation(NOWHERE) by { PlainNowhere(); }
  }

  lemma PlainNowhere()
    ensures PlainLocation(NOWHERE)
  {
  }
}
