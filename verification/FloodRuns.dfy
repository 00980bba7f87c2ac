/** What holds of the network over whole runs. */
module FloodRuns {
  import opened CText
  import opened V2Packet
  import opened V2Codec
  import opened ReplayWindow
  import opened ReplayTable
  import opened Relay
  import opened Flood

  /** Nodes that have just been switched on. */
  ghost predicate Start(net: Net) {
    && net.air == {} && net.origins == {}
    && forall i :: 0 <= i < |net.nodes| ==> Blank(net.nodes[i])
  }

  ghost predicate Blank(n: Node) {
    && Clean(n.name) && n.name != [] && n.queue == [] && n.sent == [] && n.answered == [] && n.known == map[]
    && forall k :: 0 <= k < SOURCES ==> !n.table[k].active
  }

  lemma BlankInv(n: Node)
    requires Blank(n)
    ensures NodeInv(n) && forall origins :: NodeTraced(origins, n)
  {
    hide Clean, Find, Tracks;
  }

  lemma StartInv(net: Net)
    requires Start(net)
    ensures NetInv(net)
  {
    hide Blank, NodeInv, NodeTraced;
    forall i | 0 <= i < |net.nodes|
      ensures NodeInv(net.nodes[i]) && NodeTraced(net.origins, net.nodes[i])
    {
      BlankInv(net.nodes[i]);
    }
  }

  /** No node sends on the same number of another source twice. When it sends on the same 32-bit id
      twice, the numbers that the id stood for are a full turn of the counter apart. */
  lemma RelayedOnce(net: Net, steps: seq<Step>, net': Net, i: nat, a: nat, b: nat)
    requires Start(net) && Reaches(net, steps, net')
    requires i < |net'.nodes| && a < b < |net'.nodes[i].sent|
    requires net'.nodes[i].sent[a].packet.source == net'.nodes[i].sent[b].packet.source != net'.nodes[i].name
    ensures var x, y := net'.nodes[i].sent[a], net'.nodes[i].sent[b];
      x.number != y.number && (x.packet.id == y.packet.id ==>
          x.number >= y.number + MODULUS || y.number >= x.number + MODULUS)
  {
    hide Reaches, NetInv, Start, Inv, Clean, Transmits;
    StartInv(net);
    RunKeeps(net, steps, net');
    InvOf(net', i);
    var n := net'.nodes[i];
    var x, y := n.sent[a], n.sent[b];
    assert Backed(n, x) && Backed(n, y) && !ForeignTwins(n.name, x, y);
    SameResidue(x.number, y.number);
  }

  lemma SameResidue(x: int, y: int)
    ensures x != y && x % MODULUS == y % MODULUS ==> x >= y + MODULUS || y >= x + MODULUS
  {
  }

  /** Every frame on the air parses, and what it parses into is a copy of a packet that a source sent:
      the same source, id, destination, type, priority, location and payload, with hops and path conserved. */
  lemma CopiesFaithful(net: Net, steps: seq<Step>, net': Net, frame: seq<byte>)
    requires Start(net) && Reaches(net, steps, net') && frame in net'.air
    ensures Decode(frame).Accept? && exists o <- net'.origins :: Descends(o, Decode(frame).value)
  {
    hide Reaches, NetInv, Start, Decode, Descends, WellFormed, Canonical, Clean;
    StartInv(net);
    RunKeeps(net, steps, net');
    FrameParsed(net', frame);
  }

  /** Only messages and acknowledgements are sent on, never by their destination, and only with hops left. */
  lemma RelayedKinds(net: Net, steps: seq<Step>, net': Net, i: nat, a: nat)
    requires Start(net) && Reaches(net, steps, net') && i < |net'.nodes| && a < |net'.nodes[i].sent|
    ensures var n, p := net'.nodes[i], net'.nodes[i].sent[a].packet;
      (p.kind == FLOOD || p.kind == EMERGENCY || p.kind == ACK) && p.destination != n.name && 0 < p.hops <= 255
  {
    hide Reaches, NetInv, Start, Inv, Clean, Buildable;
    StartInv(net);
    RunKeeps(net, steps, net');
    InvOf(net', i);
    var n := net'.nodes[i];
    assert Transmits(n.sent[a], n.name) && JobTraced(net'.origins, n.sent[a]);
    HopsFit(n.sent[a].packet);
  }

  lemma HopsFit(p: Packet)
    requires WellFormed(p)
    ensures p.hops <= 255
  {
  }

  /** The number that a fresh id stands for. */
  ghost function NumberOf(known: Histories, source: Text, id: uint32): int {
    if source in known then known[source].Lift(id) else id
  }

  lemma FreshNumber(t: Table, known: Histories, source: Text, id: uint32, victim: int)
    requires 0 <= victim < SOURCES && Fresh(known, source, id)
    ensures LastNumber(NextHistories(t, known, source, id, victim), source) == NumberOf(known, source, id)
  {
    hide History.Fresh, History.Lift;
  }

  /** A fresh message with hops left and no route known is sent on: the node hears it and the worker
      takes it, and the copy with one hop less is on the air. */
  lemma HeardIsRelayed(net: Net, i: nat, frame: seq<byte>, p: Packet, rx: Rx) returns (job: Job, net': Net)
    requires NetInv(net) && Enabled(net, Deliver(i, frame, rx)) && rx.room && !rx.routeKnown && ParsesTo(frame, p)
    requires p.source != net.nodes[i].name && Fresh(net.nodes[i].known, p.source, p.id)
        && p.destination != net.nodes[i].name
    requires p.kind in {FLOOD, EMERGENCY, ACK} && p.hops > 0
        && Buildable(Relayed(Job(p, false, rx.via, 0), net.nodes[i].name), PACKET_LEN)
    ensures job == Job(p, false, rx.via, NumberOf(net.nodes[i].known, p.source, p.id))
    ensures Reaches(net, [Deliver(i, frame, rx), Forward(i, |net.nodes[i].queue|)], net') && NetInv(net')
    ensures Relaying(net, net', i, job) && exists f <- net'.air :: IsWireForm(f, Relayed(job, net.nodes[i].name))
    ensures net'.nodes[i].known == NextHistories(net.nodes[i].table, net.nodes[i].known, p.source, p.id, rx.victim)
  {
    hide NetInv, NodeInv, Decode, Encode, Traced, Buildable, Clean, Accepted, Sized, PayloadSize, Inv, History.Fresh,
        NextHistories, NumberOf, LastNumber;
    FrameParsed(net, frame);
    InvOf(net, i);
    var n := net.nodes[i];
    NodeTable(n);
    NodeNamed(n);
    TableExact(n.table, n.known, p.source, p.id, rx.now, rx.victim);
    FreshNumber(n.table, n.known, p.source, p.id, rx.victim);
    var net1 := Apply(net, Deliver(i, frame, rx));
    StepKeeps(net, Deliver(i, frame, rx));
    InvOf(net1, i);
    job := Job(p, false, rx.via, NumberOf(n.known, p.source, p.id));
    assert net1.nodes[i] == Receive(n, p, rx);
    assert net1.nodes[i].queue == n.queue + [job];
    net' := Apply(net1, Forward(i, |n.queue|));
    StepKeeps(net1, Forward(i, |n.queue|));
    assert JobTraced(net1.origins, net1.nodes[i].queue[|n.queue|]);
    RelayTraced(net1.origins, job, n.name);
    assert IsWireForm(Encode(Relayed(job, n.name)), Relayed(job, n.name));
    TwoSteps(net, Deliver(i, frame, rx), Forward(i, |n.queue|));
  }

  /** Node `i` has sent `job` on, and nothing else has changed but what it knows and what is on the air. */
  ghost predicate Relaying(net: Net, net': Net, i: nat, job: Job)
    requires i < |net.nodes|
  {
    && |net'.nodes| == |net.nodes| && net'.origins == net.origins && net.air <= net'.air
    && (forall j :: 0 <= j < |net.nodes| && j != i ==> net'.nodes[j] == net.nodes[j])
    && net'.nodes[i].name == net.nodes[i].name && net'.nodes[i].queue == net.nodes[i].queue
    && net'.nodes[i].sent == net.nodes[i].sent + [job]
  }

  predicate ParsesTo(frame: seq<byte>, p: Packet) {
    Decode(frame).Accept? && Decode(frame).value == p
  }

  predicate IsWireForm(frame: seq<byte>, p: Packet) {
    Sendable(p) && frame == Encode(p)
  }

  lemma NodeTable(n: Node)
    requires NodeInv(n)
    ensures Inv(n.table, n.known)
  {
  }

  lemma TwoSteps(net: Net, a: Step, b: Step)
    requires Enabled(net, a) && Enabled(Apply(net, a), b)
    ensures Reaches(net, [a, b], Apply(Apply(net, a), b))
  {
    hide Enabled, Apply;
    assert [a, b][1..] == [b] && [b][1..] == [];
    assert Reaches(Apply(net, a), [b], Apply(Apply(net, a), b));
  }
}
