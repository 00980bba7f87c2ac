/** A node that answers a message, as it runs. */
module Replies {
  import opened CText
  import opened V2Packet
  import opened V2Codec
  import opened ReplayTable
  import opened Relay
  import opened Flood
  import opened FloodRuns
  import opened Scenes
  import opened Acks
  import opened RelayNode
  import opened Silence
  import Routing = RouteTable

  /** The node is as it is described, and has learned clean names only. */
  ghost predicate Sane(node: MeshNode, n: Node, seen: Routing.Sightings)
    reads node, node.replay.entries, node.routes, node.routes.routes
  {
    && node.Is(n) && Inv(n.table, n.known) && ProperName(node.name)
    && node.routes.Valid() && Routing.Inv(node.routes.Table(), seen)
  }

  /** A message for the node from another one, not heard before. */
  ghost predicate NewsFor(n: Node, p: Packet) {
    && WellFormed(p) && Clean(p.source) && Clean(p.relay) && p.source != n.name == p.destination
    && p.kind in {FLOOD, EMERGENCY} && Fresh(n.known, p.source, p.id)
  }

  /** The next hop of an acknowledgement: that of the best route to its destination, or none. */
  ghost predicate SentVia(t: seq<Routing.Route>, destination: Text, ms: nat, nextHop: Text) {
    if exists r <- t :: Routing.Usable(r, destination, ms)
    then exists r :: Routing.Best(t, destination, ms, r) && r.nextHop == nextHop
    else nextHop == []
  }

  /** A node hears a message for it and its worker takes up what the handler queued: the acknowledgement goes
      out, by way of the best route that the node then knows. The message itself has brought such a route, if it
      counts its hops. */
  method HearAndAcknowledge(node: MeshNode, frame: array<byte>, len: nat, now: nat, ms: nat, rssi: int, room: bool,
      ackId: uint32, out: array<byte>, ghost n: Node, ghost p: Packet, ghost seen: Routing.Sightings)
    returns (sent: bool, size: nat, ghost q: Packet)
    requires len <= frame.Length && out.Length == PACKET_LEN && Sane(node, n, seen)
    requires ParsesTo(frame[..len], p) && NewsFor(n, p)
    modifies node`queue, node.replay.entries, node.routes`count, node.routes.routes, out
    ensures sent && size <= out.Length && ParsesTo(out[..size], q) && Acknowledges(q, p, node.name, ackId)
    ensures node.queue == old(node.queue) && node.routes.Valid()
    ensures node.RouteLearned(old(node.routes.Table()), p, ms, rssi)
    ensures SentVia(node.routes.Table(), p.source, ms, q.nextHop)
    ensures p.pathHops > 0 ==> exists r <- node.routes.Table() :: Routing.Usable(r, p.source, ms)
  {
    hide Decode, Encode, Accepted, NextHistories, Inv, Routing.Inv, Routing.Learned, Clean, WellFormed, Sized;
    hide PayloadSize, AckFor, Relayed, Transmits, Acknowledges, Receive, Fresh, SentVia, Answers, MeshNode.AckHeard;
    ghost var before := node.routes.Table();
    NewsHeeded(n, p, now);
    var _, _, rx := node.HandleRx(frame, len, now, ms, rssi, room, true, ackId, n);
    ghost var n1 := Receive(n, p, rx);
    NewsQueued(n, p, rx);
    ghost var v: int :| (|before| < Routing.ROUTES || (Routing.Oldest(before, ms, v) && 0 <= v < |before|))
      && node.routes.Table() == Routing.Learned(before, p.source, p.relay, p.pathHops, rssi, ms, v);
    RouteFor(before, seen, p, rssi, ms, v, rx.ackRouteKnown, rx.ackVia);
    AckFits(p, n.name, ackId, rx.ackRouteKnown, rx.ackVia);
    AckOnWire(p, n.name, ackId, rx.ackRouteKnown, rx.ackVia);
    AckSized(p, n.name, ackId);
    sent, size := node.ForwardOne(|node.queue| - 1, out, n1);
    q := Canonical(Relayed(n1.queue[|n.queue|], n.name));
  }

  lemma NewsHeeded(n: Node, p: Packet, now: nat)
    requires Inv(n.table, n.known) && NewsFor(n, p)
    ensures p.source != [] && p.relay != [] && forall v :: 0 <= v < SOURCES ==> Heeded(n, p, now, v)
  {
    hide Accepted, Inv, Fresh, Clean, NextHistories;
    forall v | 0 <= v < SOURCES
      ensures Heeded(n, p, now, v)
    {
      TableExact(n.table, n.known, p.source, p.id, now, v);
    }
  }

  lemma NewsQueued(n: Node, p: Packet, rx: Rx)
    requires 0 <= rx.victim < SOURCES && Heeded(n, p, rx.now, rx.victim) && NewsFor(n, p) && rx.ackRoom
    ensures var n' := Receive(n, p, rx);
      && n'.queue == n.queue + [Job(AckFor(p, n.name, rx.ackId), rx.ackRouteKnown, rx.ackVia, 0)] && n'.name == n.name
  {
    hide Accepted, Fresh, Clean, NextHistories, AckFor, WellFormed;
  }

  lemma AckSized(p: Packet, local: Text, id: uint32)
    requires Clean(local) && Clean(p.source)
    ensures Sized(AckFor(p, local, id))
  {
    AckParts(p, local, id);
  }

  /** What the handler's table says of the way back. */
  lemma RouteFor(t: seq<Routing.Route>, seen: Routing.Sightings, p: Packet, rssi: int, ms: nat, v: int, known: bool,
      via: Text)
    requires Routing.Inv(t, seen) && ProperName(p.source) && ProperName(p.relay)
    requires |t| < Routing.ROUTES || (Routing.Oldest(t, ms, v) && 0 <= v < |t|)
    requires Answers(Routing.Learned(t, p.source, p.relay, p.pathHops, rssi, ms, v), CopyField(p.source, NAME_MAX), ms,
               known, via)
    ensures ProperRoute(known, via)
    ensures var t' := Routing.Learned(t, p.source, p.relay, p.pathHops, rssi, ms, v);
      && SentVia(t', p.source, ms, if known then via else [])
      && (p.pathHops > 0 ==> exists r <- t' :: Routing.Usable(r, p.source, ms))
  {
    hide Routing.Inv, Routing.Learned, Clean, Routing.Optimal, Routing.Candidate, Routing.Usable, Routing.Best;
    var t' := Routing.Learned(t, p.source, p.relay, p.pathHops, rssi, ms, v);
    StoredIffClean(p.source);
    Routing.LearnKeeps(t, seen, p.source, p.relay, p.pathHops, rssi, ms, v);
    LearnedRouteProper(t', Routing.NextSightings(t, seen, p.source, p.relay, p.pathHops, rssi, ms, v), p.source, ms,
      known, via);
    if known {
      var r :| Routing.Optimal(t', p.source, ms, r) && r.nextHop == via;
      Routing.OptimalIsBest(t', p.source, ms, r);
    } else {
      Routing.OptimalIsBest(t', p.source, ms, Routing.Route([], [], 0, 0, 0, 0));
    }
    if p.pathHops > 0 {
      Routing.LearnedUsable(t, seen, p.source, p.relay, p.pathHops, rssi, ms, v);
    }
  }

  /** From the start: the node `b` hears a message of `a` by way of `x`, and acknowledges it by way of `x`. */
  method HeardThenAcknowledged(a: Text, b: Text, x: Text, id: uint32, rssi: int, ms: nat, ackId: uint32)
      returns (node: MeshNode, sent: bool, out: array<byte>, size: nat, ghost q: Packet)
    requires ProperName(a) && ProperName(b) && ProperName(x) && b != a
    ensures fresh(node) && node.name == b && node.queue == [] && sent && size <= out.Length && ParsesTo(out[..size], q)
    ensures Acknowledges(q, Passed(a, b, id, x), b, ackId) && q.nextHop == x && q.destination == a && q.hops == 0
  {
    hide Encode, Decode, Buildable, Sized, PayloadSize, Clean, Sample, CopyField, Routing.Learned, Routing.Best;
    hide Routing.Usable, Fresh;
    node := new MeshNode(b);
    ghost var n := Unheard(node);
    StartsUnheard(n);
    PassedParts(a, b, id, x);
    var p := Passed(a, b, id, x);
    var frame, len := Frame(p);
    out := new byte[PACKET_LEN];
    PassedIsNews(a, b, id, x, n);
    sent, size, q := HearAndAcknowledge(node, frame, len, 0, ms, rssi, true, ackId, out, n, p, map[]);
    ghost var v: int :| node.routes.Table() == Routing.Learned([], p.source, p.relay, p.pathHops, rssi, ms, v);
    LearnsOne(a, x, rssi, ms, v);
    OnlyWay(node.routes.Table(), a, x, ms, q.nextHop);
  }

  lemma PassedIsNews(a: Text, b: Text, id: uint32, x: Text, n: Node)
    requires ProperName(a) && ProperName(b) && ProperName(x) && b != a && n.name == b && n.known == map[]
    ensures NewsFor(n, Passed(a, b, id, x))
  {
    hide Clean, Encode, Decode, EncodeLocation, CopyField;
    PassedParts(a, b, id, x);
    SampleSent(a, b, id);
    CleanIsName(x);
    hide Sample, Padded;
  }

  lemma LearnsOne(a: Text, x: Text, rssi: int, ms: nat, v: int)
    requires ProperName(a) && ProperName(x)
    ensures var t := Routing.Learned([], a, x, 1, rssi, ms, v);
      |t| == 1 && t[0].nextHop == x
  {
    hide CopyField, Clean;
    StoredIffClean(x);
  }

  lemma OnlyWay(t: seq<Routing.Route>, a: Text, x: Text, ms: nat, nextHop: Text)
    requires |t| == 1 && t[0].nextHop == x && SentVia(t, a, ms, nextHop)
    requires exists r <- t :: Routing.Usable(r, a, ms)
    ensures nextHop == x
  {
    hide Routing.Usable;
  }
}
