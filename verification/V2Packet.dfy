/** The V2 packet as the node holds it, and the text form of a location. */
module V2Packet {
  import opened CText

  const PAYLOAD_LEN := 140
  const PLACE_MAX := 23
  const TILDE: byte := 126
  /** "ALL" and "ANNOUNCEMENTS" */
  const ALL: Text := [65, 76, 76]
  const ANNOUNCEMENTS: Text := [65, 78, 78, 79, 85, 78, 67, 69, 77, 69, 78, 84, 83]

  datatype Kind = FLOOD | ACK | TIME_SYNC | SYNC_REQ | SYNC_RESP | EMERGENCY

  datatype Priority = LOW | NORMAL | HIGH

  datatype Location = Location(sitio: Text, barangay: Text, municipality: Text)

  /** mesh_packet_t. `payload` is the whole 140-byte buffer. */
  datatype Packet = Packet(
    valid: bool, id: uint32, hops: int, pathHops: int, broadcast: bool, source: Text, destination: Text, kind: Kind,
    priority: Priority, relay: Text, nextHop: Text, locationRaw: Text, location: Location, threadKey: Text,
    payload: seq<byte>, payloadLen: nat)

  const NOWHERE := Location([], [], [])

  function KindCode(k: Kind): byte {
    match k case FLOOD => 1 case ACK => 2 case TIME_SYNC => 3 case SYNC_REQ => 4 case SYNC_RESP => 5 case EMERGENCY => 6
  }

  function KindOf(b: byte): Kind {
    if b == 2 then ACK else if b == 3 then TIME_SYNC else if b == 4 then SYNC_REQ else if b == 5 then SYNC_RESP
    else if b == 6 then EMERGENCY else FLOOD
  }

  function PriorityCode(p: Priority): byte {
    match p case LOW => 0 case NORMAL => 1 case HIGH => 2
  }

  function PriorityOf(b: byte): Priority {
    if b == 0 then LOW else if b == 2 then HIGH else NORMAL
  }

  lemma CodesRoundTrip(k: Kind, p: Priority)
    ensures KindOf(KindCode(k)) == k && PriorityOf(PriorityCode(p)) == p
  {
  }

  /** The label of a type. */
  function Label(k: Kind): Text {
    match k
    case FLOOD => [70, 76, 79, 79, 68]
    case ACK => [65, 67, 75]
    case TIME_SYNC => [84, 73, 77, 69, 95, 83, 89, 78, 67]
    case SYNC_REQ => [83, 89, 78, 67, 95, 82, 69, 81]
    case SYNC_RESP => [83, 89, 78, 67, 95, 82, 69, 83, 80]
    case EMERGENCY => [69, 77, 69, 82, 71, 69, 78, 67, 89]
  }

  /** type_to_u8: any other label goes out as FLOOD. */
  function LabelCode(t: Text): byte {
    if t == Label(ACK) then 2 else if t == Label(TIME_SYNC) then 3 else if t == Label(SYNC_REQ) then 4
    else if t == Label(SYNC_RESP) then 5 else if t == Label(EMERGENCY) then 6 else 1
  }

  /** A type label comes back from the wire exactly when it is one of the six; "MEDICAL" and "INFO",
      which the send form also takes, come back as "FLOOD". */
  lemma LabelSurvivesIff(t: Text)
    ensures Label(KindOf(LabelCode(t))) == t <==> exists k :: Label(k) == t
    ensures forall k :: LabelCode(Label(k)) == KindCode(k)
    ensures t == [77, 69, 68, 73, 67, 65, 76] || t == [73, 78, 70, 79] ==>
        Label(KindOf(LabelCode(t))) == Label(FLOOD) != t
  {
    LabelsDiffer();
    if k :| Label(k) == t {
      assert LabelCode(t) == KindCode(k);
    }
  }

  lemma LabelsDiffer()
    ensures forall j, k :: Label(j) == Label(k) ==> j == k
  {
    forall j, k | j != k
      ensures Label(j) != Label(k)
    {
      assert |Label(j)| != |Label(k)| || Label(j)[0] != Label(k)[0];
    }
  }

  predicate NulFree(s: seq<byte>) {
    forall c <- s :: c != 0
  }

  /** The C string at the front of a buffer. */
  function CStr(s: seq<byte>): (t: Text)
    ensures |t| <= |s| && t == s[..|t|] && NulFree(t)
    ensures |t| < |s| ==> s[|t|] == 0
  {
    if s == [] || s[0] == 0 then [] else [s[0]] + CStr(s[1..])
  }

  lemma {:induction false} CStrKeeps(s: seq<byte>)
    requires NulFree(s)
    ensures CStr(s) == s
  {
    if s != [] {
      assert s[0] in s && forall c <- s[1..] :: c in s;
      CStrKeeps(s[1..]);
    }
  }

  function Clip(s: Text, n: nat): Text {
    if |s| <= n then s else s[..n]
  }

  /** location_encode */
  function EncodeLocation(l: Location): (t: Text)
    ensures 2 <= |t| <= 3 * PLACE_MAX + 2
  {
    Clip(l.sitio, PLACE_MAX) + ([TILDE] + (Clip(l.barangay, PLACE_MAX) + ([TILDE] + Clip(l.municipality, PLACE_MAX))))
  }

  /** strchr: the first `c`, or the length. */
  function IndexOf(s: Text, c: byte): (i: nat)
    ensures i <= |s| && (i < |s| ==> s[i] == c) && forall j :: 0 <= j < i ==> s[j] != c
  {
    if s == [] || s[0] == c then 0 else 1 + IndexOf(s[1..], c)
  }

  /** location_decode */
  function DecodeLocation(t: Text): Location {
    var buffer := CopyField(t, 3 * (PLACE_MAX + 1) + 1);
    var first := IndexOf(buffer, TILDE);
    if first == |buffer| then Location([], CopyField(buffer, PLACE_MAX), [])
    else
      var rest := buffer[first + 1..];
      var second := IndexOf(rest, TILDE);
      if second == |rest| then Location(CopyField(buffer[..first], PLACE_MAX), CopyField(rest, PLACE_MAX), [])
      else Location(CopyField(buffer[..first], PLACE_MAX), CopyField(rest[..second], PLACE_MAX),
             CopyField(rest[second + 1..], PLACE_MAX))
  }

  predicate Place(s: Text) {
    |s| <= PLACE_MAX && forall c <- s :: Printable(c)
  }

  /** Printable parts of at most 23 characters, with '~' only in the last one. */
  predicate PlainLocation(l: Location) {
    Place(l.sitio) && Place(l.barangay) && Place(l.municipality) && TILDE !in l.sitio && TILDE !in l.barangay
  }

  lemma {:induction false} IndexOfAfter(s: Text, c: byte, rest: Text)
    requires c !in s
    ensures IndexOf(s + ([c] + rest), c) == |s|
  {
    if s == [] {
      assert s + ([c] + rest) == [c] + rest;
    } else {
      assert s[0] in s;
      assert (s + ([c] + rest))[1..] == s[1..] + ([c] + rest);
      IndexOfAfter(s[1..], c, rest);
    }
  }

  lemma JoinPrintable(a: Text, b: Text)
    requires (forall c <- a :: Printable(c)) && forall c <- b :: Printable(c)
    ensures forall c <- a + ([TILDE] + b) :: Printable(c)
  {
  }

  lemma SplitAt(a: Text, b: Text)
    requires TILDE !in a
    ensures var t := a + ([TILDE] + b);
      IndexOf(t, TILDE) == |a| < |t| && t[..|a|] == a && t[|a| + 1..] == b
  {
    IndexOfAfter(a, TILDE, b);
  }

  /** A location survives the trip through its text form. */
  lemma LocationRoundTrip(l: Location)
    requires PlainLocation(l)
    ensures DecodeLocation(EncodeLocation(l)) == l
    ensures forall c <- EncodeLocation(l) :: Printable(c)
  {
    hide CopyField, IndexOf, Printable;
    var tail := l.barangay + ([TILDE] + l.municipality);
    JoinPrintable(l.barangay, l.municipality);
    JoinPrintable(l.sitio, tail);
    CopyFieldKeepsPrintable(EncodeLocation(l), 3 * (PLACE_MAX + 1) + 1);
    SplitAt(l.sitio, tail);
    SplitAt(l.barangay, l.municipality);
    CopyFieldKeepsPrintable(l.sitio, PLACE_MAX);
    CopyFieldKeepsPrintable(l.barangay, PLACE_MAX);
    CopyFieldKeepsPrintable(l.municipality, PLACE_MAX);
  }

  /** Whatever was decoded is a plain location. */
  lemma DecodedPlain(t: Text)
    ensures PlainLocation(DecodeLocation(t))
  {
    hide CopyField, IndexOf;
  }
}
