/** The packets that carry sync payloads: when one is built, and what is heard of it. */
module SyncFrames {
  import opened CText
  import opened V2Packet
  import opened V2Codec

  /** A SYNC_REQ or SYNC_RESP as the node fills it in. */
  function SyncPacket(node: Text, destination: Text, kind: Kind, hops: byte, id: uint32, body: seq<byte>): Packet
    requires |body| <= PAYLOAD_LEN
  {
    Packet(true, id, hops, 1, false, CopyField(node, NAME_MAX), CopyField(destination, NAME_MAX), kind, NORMAL,
      CopyField(node, NAME_MAX), [], [], NOWHERE, [], Padded(body), |body|)
  }

  function Request(node: Text, id: uint32, payload: seq<byte>): Packet
    requires |payload| <= PAYLOAD_LEN
  {
    SyncPacket(node, ALL, SYNC_REQ, 1, id, payload)
  }

  function Response(node: Text, requester: Text, id: uint32, body: seq<byte>): Packet
    requires |body| <= PAYLOAD_LEN
  {
    SyncPacket(node, requester, SYNC_RESP, 3, id, body)
  }

  /** Does a payload of `size` bytes from `node` to `destination` go out? */
  predicate GoesOut(node: Text, destination: Text, size: nat) {
    size < 140 && 2 * |node| + (if destination == ALL then 0 else |destination|) + size <= 212
  }

  /** The payload that a receiver of the packet finds in it; nothing when the packet is not built. */
  function Heard(p: Packet): seq<byte> {
    if !Sized(p) || !Buildable(p, PACKET_LEN) then []
    else
      match Decode(Encode(p))
      case Reject => []
      case Accept(q, _) => if q.payloadLen <= |q.payload| then q.payload[..q.payloadLen] else []
  }

  predicate NodeName(name: Text) {
    Clean(name) && name != []
  }

  lemma SyncPacketParts(node: Text, destination: Text, kind: Kind, hops: byte, id: uint32, body: seq<byte>)
    requires NodeName(node) && NodeName(destination) && 0 < |body| <= PAYLOAD_LEN
    ensures var p := SyncPacket(node, destination, kind, hops, id, body);
      && p.source == node && p.destination == destination && p.relay == node && p.nextHop == [] && !HasLocation(p)
      && PlainLocation(p.location) && p.payloadLen == |body| && |p.payload| == PAYLOAD_LEN
          && p.payload[..|body|] == body
      && p.hops == hops && p.pathHops == 1 && !p.broadcast && Name(node) && Name(destination)
  {
    hide CopyField, Clean, Padded, NulFree, PlainLocation;
    StoredIffClean(node);
    StoredIffClean(destination);
    PaddedFront(body);
    PlainNowhere();
    CleanName(node);
    CleanName(destination);
  }

  lemma CleanName(t: Text)
    requires NodeName(t)
    ensures Name(t)
  {
  }

  /** A sync packet is heard with exactly its payload, or not at all, and which of the two depends on the
      lengths of names and payload only. */
  lemma HeardIff(node: Text, destination: Text, kind: Kind, hops: byte, id: uint32, body: seq<byte>)
    requires NodeName(node) && NodeName(destination) && 0 < |body| <= PAYLOAD_LEN
    ensures Heard(SyncPacket(node, destination, kind, hops, id, body)) ==
            if GoesOut(node, destination, |body|) then body else []
  {
    hide CopyField, Clean, CStr, EncodeLocation, PlainLocation, NulFree, Encode, Decode, Padded, SyncPacket;
    var p := SyncPacket(node, destination, kind, hops, id, body);
    SyncPacketParts(node, destination, kind, hops, id, body);
    assert Buildable(p, PACKET_LEN) <==> GoesOut(node, destination, |body|);
    if GoesOut(node, destination, |body|) {
      RoundTrip(p);
      PaddedFront(body);
    }
  }

  /** What a node hears of a sync packet besides the payload. */
  ghost predicate HeardFrom(p: Packet, node: Text, destination: Text, kind: Kind, hops: nat, id: uint32) {
    && Sized(p) && PayloadSize(p) < PAYLOAD_LEN && Decode(Encode(p)).Accept?
    && var q := Decode(Encode(p)).value;
       && q.kind == kind && q.priority == NORMAL && q.hops == hops && q.pathHops == 1 && q.id == id
       && q.source == q.relay == node && q.destination == destination && q.nextHop == []
       && (q.broadcast <==> destination == ALL)
  }

  /** A request goes to all neighbours and no further; a response goes to the node that asked, over three hops. */
  lemma AddressedTo(node: Text, requester: Text, id: uint32, body: seq<byte>)
    requires NodeName(node) && NodeName(requester) && 0 < |body| <= PAYLOAD_LEN
    ensures GoesOut(node, ALL, |body|) ==> HeardFrom(Request(node, id, body), node, ALL, SYNC_REQ, 1, id)
    ensures GoesOut(node, requester, |body|) ==>
              HeardFrom(Response(node, requester, id, body), node, requester, SYNC_RESP, 3, id)
  {
    hide CopyField, Clean, CStr, EncodeLocation, PlainLocation, NulFree, Encode, Decode, Padded, SyncPacket;
    PacketHeardFrom(node, ALL, SYNC_REQ, 1, id, body);
    PacketHeardFrom(node, requester, SYNC_RESP, 3, id, body);
  }

  lemma PacketHeardFrom(node: Text, destination: Text, kind: Kind, hops: byte, id: uint32, body: seq<byte>)
    requires NodeName(node) && (NodeName(destination) || destination == ALL) && 0 < |body| <= PAYLOAD_LEN
    ensures GoesOut(node, destination, |body|) ==>
              HeardFrom(SyncPacket(node, destination, kind, hops, id, body), node, destination, kind, hops, id)
  {
    hide CopyField, Clean, CStr, EncodeLocation, PlainLocation, NulFree, Encode, Decode, Padded;
    AllIsNamed();
    SyncPacketParts(node, destination, kind, hops, id, body);
    if GoesOut(node, destination, |body|) {
      RoundTrip(SyncPacket(node, destination, kind, hops, id, body));
    }
  }

  lemma AllIsNamed()
    ensures NodeName(ALL)
  {
  }
}
