/** A node that learns a route and then keeps silent, as it runs. */
module Silence {
  import opened CText
  import opened V2Packet
  import opened V2Codec
  import opened V2Wire
  import opened ReplayTable
  import opened Relay
  import opened Flood
  import opened FloodRuns
  import opened Scenes
  import opened Acks
  import opened RelayNode
  import Routing = RouteTable

  /** A message as another node sends it on. */
  function Passed(source: Text, destination: Text, id: uint32, relay: Text): Packet {
    Sample(source, destination, id).(relay := relay)
  }

  lemma PassedParts(source: Text, destination: Text, id: uint32, relay: Text)
    requires ProperName(source) && ProperName(destination) && ProperName(relay)
    ensures var p := Passed(source, destination, id, relay);
      && p.source == source && p.destination == destination && p.id == id && p.relay == relay && p.hops == 1
      && p.pathHops == 1 && p.kind == FLOOD && p.nextHop == [] && Sized(p) && Buildable(p, PACKET_LEN)
      && PayloadSize(p) < PAYLOAD_LEN && ParsesTo(Encode(p), p)
  {
    hide CStr, EncodeLocation, CopyField, Clean, Encode, Decode;
    CleanIsName(source);
    CleanIsName(destination);
    CleanIsName(relay);
    PlainNowhere();
    SampleParts(source, destination, id);
    hide Padded, Sample;
    RoundTrip(Passed(source, destination, id, relay));
  }

  /** Puts the wire form of a packet into a buffer. */
  method Frame(p: Packet) returns (frame: array<byte>, len: nat)
    requires Sized(p) && PayloadSize(p) < PAYLOAD_LEN && Buildable(p, PACKET_LEN)
    ensures fresh(frame) && len <= frame.Length && frame[..len] == Encode(p)
  {
    hide Encode, Required;
    frame := new byte[PACKET_LEN];
    var ok;
    ok, len := BuildForwardPacket(p, frame);
  }

  ghost function Unheard(node: MeshNode): Node
    requires node.replay.entries.Length == SOURCES
    reads node, node.replay.entries
  {
    Node(node.name, node.replay.entries[..], map[], [], [], [])
  }

  /** A packet of a source that the node does not know is heeded. */
  lemma NewIsHeeded(n: Node, p: Packet, now: nat, victim: int)
    requires NodeInv(n) && Clean(p.source) && p.source != [] && p.source != n.name && p.source !in n.known
    requires 0 <= victim < SOURCES
    ensures Heeded(n, p, now, victim)
  {
    hide Accepted, Clean, Inv;
    NodeTable(n);
    TableExact(n.table, n.known, p.source, p.id, now, victim);
  }

  lemma LearnsFirst(c: Text, x: Text, rssi: int, v: int)
    requires ProperName(c) && ProperName(x)
    ensures Routing.Learned([], c, x, 1, rssi, 0, v) == [Routing.Route(c, x, 1, rssi, Routing.Cost(rssi), 0)]
  {
    hide CopyField, Clean;
    StoredIffClean(c);
    StoredIffClean(x);
  }

  lemma LearnsSecond(t: seq<Routing.Route>, a: Text, c: Text, rssi: int, v: int)
    requires ProperName(a) && a != c && |t| == 1 && t[0].destination == c
    ensures Routing.Learned(t, a, a, 1, rssi, 1, v) == t + [Routing.Route(a, a, 1, rssi, Routing.Cost(rssi), 1)]
  {
    hide CopyField, Clean, Routing.Find;
    StoredIffClean(a);
  }

  lemma OneAnswer(t: seq<Routing.Route>, c: Text, x: Text, rssi: int, a: Text, known: bool, via: Text)
    requires ProperName(c) && a != c
    requires |t| == 2 && t[0] == Routing.Route(c, x, 1, rssi, Routing.Cost(rssi), 0) && t[1].destination == a
    requires Answers(t, c, 1, known, via)
    ensures known && via == x
  {
    hide Clean, Routing.Beats;
    assert t[0] in t && Routing.Candidate(t[0], c, 1);
  }

  /** The node `b` hears a broadcast of `c` by way of `x`, and passes it on. Then it hears a message of `a` for
      `c`, without a next hop; it has learned the route to `c`, and passes nothing on. */
  method HeardThenSilent(a: Text, b: Text, c: Text, x: Text, first: uint32, second: uint32, rssi: int)
      returns (node: MeshNode, passedFirst: bool, passedSecond: bool)
    requires ProperName(a) && ProperName(b) && ProperName(c) && ProperName(x)
    requires b != a && b != c && b != x && b != ALL && a != c && c != ALL
    ensures fresh(node) && node.name == b && node.queue == [] && node.routes.Valid()
    ensures |node.routes.Table()| == 2 && node.routes.Table()[0] == Routing.Route(c, x, 1, rssi, Routing.Cost(rssi), 0)
    ensures passedFirst && !passedSecond
  {
    hide Encode, Decode, Buildable, Sized, PayloadSize, Clean, Sample, CopyField;
    hide Receive, NodeInv, Transmits, Routing.Learned, Answers, Heeded;
    node := new MeshNode(b);
    ghost var n0 := Unheard(node);
    StartsUnheard(n0);
    ghost var n1;
    passedFirst, n1 := HearBroadcast(node, b, c, x, first, rssi, n0);
    passedSecond := HearMessage(node, a, b, c, x, second, rssi, n1);
  }

  lemma StartsUnheard(n: Node)
    requires ProperName(n.name) && n.queue == [] && n.sent == [] && n.answered == [] && n.known == map[]
    requires forall k :: 0 <= k < SOURCES ==> !n.table[k].active
    ensures NodeInv(n)
  {
    BlankInv(n);
  }

  /** The node after the broadcast: the queue is empty again, it knows one source and one route. */
  ghost predicate Informed(node: MeshNode, n: Node, c: Text, x: Text, rssi: int)
    reads node, node.replay.entries, node.routes, node.routes.routes
  {
    && node.Is(n) && NodeInv(n) && n.queue == [] && n.known.Keys == {c} && node.routes.Valid()
    && node.routes.Table() == [Routing.Route(c, x, 1, rssi, Routing.Cost(rssi), 0)]
  }

  method HearBroadcast(node: MeshNode, b: Text, c: Text, x: Text, id: uint32, rssi: int, ghost n0: Node)
      returns (passed: bool, ghost n: Node)
    requires node.name == b && node.Is(n0) && NodeInv(n0) && n0.queue == [] && n0.known == map[]
    requires forall k :: 0 <= k < SOURCES ==> !n0.table[k].active
    requires ProperName(b) && ProperName(c) && ProperName(x) && b != c && b != ALL
    requires node.routes.Valid() && node.routes.Table() == []
    modifies node`queue, node.replay.entries, node.routes`count, node.routes.routes
    ensures passed && Informed(node, n, c, x, rssi)
  {
    hide Encode, Decode, Buildable, Sized, PayloadSize, Clean, Sample, CopyField, NodeInv, Routing.Learned, Accepted;
    hide MeshNode.AckHeard;
    AllIsProper();
    PassedParts(c, ALL, id, x);
    var p := Passed(c, ALL, id, x);
    var frame, len := Frame(p);
    var _, _, rx := node.HandleRx(frame, len, 0, 0, rssi, true, true, 0, n0);
    NewIsHeeded(n0, p, 0, rx.victim);
    ReceiveKeeps(n0, p, rx);
    ghost var n1 := Receive(n0, p, rx);
    BroadcastQueued(n0, p, rx);
    ghost var v :| node.routes.Table() == Routing.Learned([], c, x, 1, rssi, 0, v);
    LearnsFirst(c, x, rssi, v);
    BroadcastGoesOn(c, id, x, b, n1.queue[0]);
    var out := new byte[PACKET_LEN];
    var size;
    passed, size := node.ForwardOne(0, out, n1);
    WorkKeeps(n1, 0);
    n := Work(n1, 0);
  }

  lemma AllIsProper()
    ensures ProperName(ALL)
  {
  }

  lemma BroadcastQueued(n: Node, p: Packet, rx: Rx)
    requires 0 <= rx.victim < SOURCES && Heeded(n, p, rx.now, rx.victim) && p.kind == FLOOD && p.hops > 0 && rx.room
    requires p.destination == ALL != n.name && n.queue == [] && n.known == map[]
    ensures var n' := Receive(n, p, rx);
      && n'.queue == [Job(p, false, rx.via, LastNumber(n'.known, p.source))]
      && n'.known.Keys == {p.source} && n'.name == n.name
  {
    hide Accepted, LastNumber;
  }

  lemma BroadcastGoesOn(c: Text, id: uint32, x: Text, b: Text, job: Job)
    requires ProperName(b) && ProperName(c) && ProperName(x) && b != ALL
    requires job.packet == Passed(c, ALL, id, x) && !job.routeKnown
    ensures Transmits(job, b)
  {
    hide Buildable, Clean, Sample, Relayed, Encode, Decode, Sized, PayloadSize;
    AllIsProper();
    PassedParts(c, ALL, id, x);
    SampleRelays(c, ALL, id, b);
    RelayReplaced(Sample(c, ALL, id), x, job, b);
  }

  /** The worker puts its own name in the place of the last relay's. */
  lemma RelayReplaced(p: Packet, x: Text, job: Job, local: Text)
    requires job.packet == p.(relay := x) && !job.routeKnown
    ensures Relayed(job, local) == Relayed(Job(p, false, [], 0), local)
  {
    hide CopyField;
  }

  method HearMessage(node: MeshNode, a: Text, b: Text, c: Text, x: Text, id: uint32, rssi: int, ghost n: Node)
      returns (passed: bool)
    requires node.name == b && Informed(node, n, c, x, rssi)
    requires ProperName(a) && ProperName(b) && ProperName(c) && ProperName(x)
    requires b != a && b != c && b != x && a != c && c != ALL
    modifies node`queue, node.replay.entries, node.routes`count, node.routes.routes
    ensures !passed && node.queue == [] && node.routes.Valid() && |node.routes.Table()| == 2
    ensures node.routes.Table()[0] == Routing.Route(c, x, 1, rssi, Routing.Cost(rssi), 0)
  {
    hide Encode, Decode, Buildable, Sized, PayloadSize, Clean, Sample, CopyField, NodeInv, Accepted;
    hide Routing.Learned, Answers, MeshNode.AckHeard;
    PassedParts(a, c, id, a);
    var p := Passed(a, c, id, a);
    var frame, len := Frame(p);
    ghost var before := node.routes.Table();
    var _, _, rx := node.HandleRx(frame, len, 0, 1, rssi, true, true, 0, n);
    NewIsHeeded(n, p, 0, rx.victim);
    ghost var n1 := Receive(n, p, rx);
    ghost var v :| node.routes.Table() == Routing.Learned(before, a, a, 1, rssi, 1, v);
    LearnsSecond(before, a, c, rssi, v);
    OneAnswer(node.routes.Table(), c, x, rssi, a, rx.routeKnown, rx.via);
    MessageQueued(n, p, rx, x);
    var out := new byte[PACKET_LEN];
    var size;
    passed, size := node.ForwardOne(0, out, n1);
  }

  lemma MessageQueued(n: Node, p: Packet, rx: Rx, x: Text)
    requires 0 <= rx.victim < SOURCES && Heeded(n, p, rx.now, rx.victim) && p.kind == FLOOD && p.hops > 0 && rx.room
    requires p.destination != n.name && p.destination != ALL && p.nextHop == [] && n.queue == []
    requires n.name != [] && rx.routeKnown && rx.via == x && ProperName(x) && x != n.name && Sized(p)
    ensures var n' := Receive(n, p, rx);
      && |n'.queue| == 1 && n'.name == n.name && Sized(n'.queue[0].packet) && !Transmits(n'.queue[0], n.name)
  {
    hide Accepted, LastNumber, Clean, CopyField, Buildable;
    StoredIffClean(x);
    SentOnIff(Offered(n, p.source, p.id, rx.now, rx.victim).0, p, rx);
  }
}
