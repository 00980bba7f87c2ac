/** Acknowledgements over whole runs, and what a known route does to a packet without a next hop. */
module Acks {
  import opened CText
  import opened V2Packet
  import opened V2Codec
  import opened ReplayWindow
  import opened ReplayTable
  import opened Relay
  import opened Flood
  import opened FloodRuns
  import opened Scenes

  lemma {:induction false} CStrPadded(name: Text, zeros: seq<byte>)
    requires NulFree(name) && forall i :: 0 <= i < |zeros| ==> zeros[i] == 0
    ensures CStr(name + zeros) == name
  {
    if name == [] {
      assert name + zeros == zeros;
    } else {
      assert name[0] in name && forall c <- name[1..] :: c in name;
      assert (name + zeros)[1..] == name[1..] + zeros;
      CStrPadded(name[1..], zeros);
    }
  }

  /** The name that an acknowledgement carries is that of the node it goes to, not of the node it comes from. */
  predicate NamesTarget(o: Packet) {
    |o.payload| == PAYLOAD_LEN && o.payloadLen == 36 && CStr(o.payload[4..35]) == o.destination
        && o.source != o.destination
  }

  lemma AckNames(p: Packet, local: Text, id: uint32)
    requires Clean(p.source) && Clean(local) && p.source != [] && local != [] && p.source != local
    ensures var ack := AckFor(p, local, id);
        Sendable(ack) && NamesTarget(Canonical(ack)) && Word(Canonical(ack).payload, 0) == p.id
  {
    hide CStr, EncodeLocation, CopyField, WordBytes, Clean, Word;
    StoredIffClean(p.source);
    StoredIffClean(local);
    CleanIsName(p.source);
    var ack := AckFor(p, local, id);
    var body := WordBytes(p.id) + NameField(p.source);
    assert ack.payload[..36] == body;
    assert Canonical(ack).payload == Padded(body);
    var zeros := seq(31 - |p.source|, _ => 0);
    assert Padded(body)[4..35] == p.source + zeros;
    CStrPadded(p.source, zeros);
    WordFront(p.id, Padded(body));
  }

  lemma WordFront(w: uint32, s: seq<byte>)
    requires |s| >= 4 && forall i :: 0 <= i < 4 ==> s[i] == WordBytes(w)[i]
    ensures Word(s, 0) == w
  {
    assert Word(s, 0) == Word(WordBytes(w), 0);
  }

  ghost predicate AcksName(net: Net) {
    forall o <- net.origins :: o.kind == ACK ==> NamesTarget(o)
  }

  /** Acknowledgements come from mesh_control_send_ack_packet only. */
  predicate NoForgedAck(step: Step) {
    step.Originate? ==> step.packet.kind != ACK
  }

  lemma StepKeepsAcksName(net: Net, step: Step)
    requires NetInv(net) && AcksName(net) && Enabled(net, step) && NoForgedAck(step)
    ensures AcksName(Apply(net, step))
  {
    hide NetInv, NodeInv, Decode, Encode, Receive, Canonical, WellFormed, AckFor, NamesTarget, Buildable, Sized,
        PayloadSize, Clean, Offered;
    match step
    case Originate(i, p) =>
      WellFormedSizes(p);
      KindKept(p);
    case Deliver(i, frame, rx) =>
      FrameParsed(net, frame);
      InvOf(net, i);
      var n, p := net.nodes[i], Decode(frame).value;
      NodeNamed(n);
      if AckDue(n, p, rx) {
        AckNames(p, n.name, rx.ackId);
      }
    case Learn(_, _, _, _, _) =>
    case Forward(_, _) =>
  }

  lemma KindKept(p: Packet)
    requires Sendable(p)
    ensures Canonical(p).kind == p.kind
  {
  }

  lemma {:induction false} RunKeepsAcksName(net: Net, steps: seq<Step>, net': Net)
    requires NetInv(net) && AcksName(net) && Reaches(net, steps, net') && forall k :: 0 <= k < |steps| ==>
        NoForgedAck(steps[k])
    ensures AcksName(net')
    decreases |steps|
  {
    hide NetInv, AcksName, Apply, Enabled;
    if steps != [] {
      assert NoForgedAck(steps[0]);
      StepKeeps(net, steps[0]);
      StepKeepsAcksName(net, steps[0]);
      RunKeepsAcksName(Apply(net, steps[0]), steps[1..], net');
    }
  }

  lemma CopyNamesTarget(o: Packet, q: Packet, local: Text)
    requires NamesTarget(o) && Descends(o, q)
    ensures AckCarries(q, q.destination) <==> Word(q.payload, 0) != 0
    ensures !AckTold(q, local)
  {
    hide CStr, Word;
  }

  /** The receiver compares the acknowledged source with the sender of the acknowledgement. Every
      acknowledgement on the air names its receiver there; so, in every run, no frame that any node
      hears makes it tell its scheduler that a message was delivered. */
  lemma NoAckEverTold(net: Net, steps: seq<Step>, net': Net, frame: seq<byte>, local: Text)
    requires Start(net) && Reaches(net, steps, net') && forall k :: 0 <= k < |steps| ==> NoForgedAck(steps[k])
    requires frame in net'.air
    ensures Decode(frame).Accept? && |Decode(frame).value.payload| == PAYLOAD_LEN
        && !AckTold(Decode(frame).value, local)
  {
    hide NetInv, Reaches, Decode, WellFormed, Canonical, Descends, NamesTarget, Clean, AckCarries;
    StartInv(net);
    RunKeeps(net, steps, net');
    RunKeepsAcksName(net, steps, net');
    FrameParsed(net', frame);
    var q := Decode(frame).value;
    PayloadWhole(q);
    WellFormedSizes(q);
    var o :| o in net'.origins && Descends(o, Canonical(q));
    SameKind(o, q);
    if q.kind == ACK {
      CopyNamesTarget(o, q, local);
    }
  }

  lemma PayloadWhole(q: Packet)
    requires WellFormed(q)
    ensures |q.payload| == PAYLOAD_LEN
  {
  }

  lemma SameKind(o: Packet, q: Packet)
    requires Descends(o, q)
    ensures o.kind == q.kind
  {
  }

  /** The check does pass for an acknowledgement that names its own sender, and for no other. */
  lemma ToldIff(q: Packet, local: Text, id: uint32, name: Text)
    requires |name| <= NAME_MAX && NulFree(name) && q.payload == Padded(WordBytes(id) + NameField(name))
    requires q.payloadLen == 36
    ensures AckTold(q, local) <==>
            q.kind == ACK && q.source != local && q.destination == local && id != 0 && name == q.source
  {
    hide CStr, WordBytes, Word;
    var zeros := seq(31 - |name|, _ => 0);
    assert q.payload[4..35] == name + zeros;
    CStrPadded(name, zeros);
    WordFront(id, q.payload);
  }

  /** The check would pass if it compared with the receiver's own name: a copy of an acknowledgement
      carries the id it acknowledges and the name of the node that waits for it. */
  lemma AckForWaitingNode(p: Packet, local: Text, id: uint32, q: Packet)
    requires Clean(p.source) && Clean(local) && p.source != [] && local != [] && p.source != local
    requires Sendable(AckFor(p, local, id)) && Descends(Canonical(AckFor(p, local, id)), q)
    ensures |q.payload| == PAYLOAD_LEN && q.source == local && q.destination == p.source
    ensures Word(q.payload, 0) == p.id && (AckCarries(q, p.source) <==> p.id != 0) && !AckCarries(q, local)
  {
    hide CStr, EncodeLocation, CopyField, WordBytes, Clean, Word, Padded;
    AckNames(p, local, id);
    StoredIffClean(p.source);
    StoredIffClean(local);
  }

  /** `q` is the acknowledgement that `local` sends for `p`, as another node hears it. */
  predicate Acknowledges(q: Packet, p: Packet, local: Text, id: uint32) {
    && q.kind == ACK && q.priority == NORMAL && q.id == id && q.source == local == q.relay && q.destination == p.source
    && q.hops == (if p.hops > 0 then p.hops else 3) - 1 && q.pathHops == 2
    && |q.payload| == PAYLOAD_LEN && q.payloadLen == 36
    && Word(q.payload, 0) == p.id && CStr(q.payload[4..35]) == p.source
  }

  /** A fresh message for a node is acknowledged: the node hears it and the worker takes the
      acknowledgement, which is then on the air. It goes by way of the route to the source, if one is known. */
  lemma HeardIsAcknowledged(net: Net, i: nat, frame: seq<byte>, p: Packet, rx: Rx)
      returns (net': Net, q: Packet, f: seq<byte>)
    requires NetInv(net) && Enabled(net, Deliver(i, frame, rx)) && rx.ackRoom && ParsesTo(frame, p)
    requires p.source != net.nodes[i].name && Fresh(net.nodes[i].known, p.source, p.id)
        && p.destination == net.nodes[i].name
    requires p.kind in {FLOOD, EMERGENCY}
    ensures Reaches(net, [Deliver(i, frame, rx), Forward(i, |net.nodes[i].queue|)], net') && NetInv(net')
    ensures f in net'.air && ParsesTo(f, q) && Acknowledges(q, p, net.nodes[i].name, rx.ackId)
    ensures q.nextHop == if rx.ackRouteKnown then rx.ackVia else []
  {
    hide NetInv, NodeInv, Decode, Encode, Traced, Clean, Accepted, Relayed, Sized, PayloadSize, Inv, History.Fresh,
        AckFor, NextHistories, WellFormed, Buildable, Acknowledges;
    FrameParsed(net, frame);
    InvOf(net, i);
    var n := net.nodes[i];
    NodeTable(n);
    NodeNamed(n);
    TableExact(n.table, n.known, p.source, p.id, rx.now, rx.victim);
    var net1 := Apply(net, Deliver(i, frame, rx));
    StepKeeps(net, Deliver(i, frame, rx));
    InvOf(net1, i);
    var job := AckJob(n, p, rx);
    assert net1.nodes[i] == Receive(n, p, rx);
    assert net1.nodes[i].queue == n.queue + [job];
    net' := Apply(net1, Forward(i, |n.queue|));
    StepKeeps(net1, Forward(i, |n.queue|));
    TracedParts(net.origins, p);
    AckFits(p, n.name, rx.ackId, rx.ackRouteKnown, rx.ackVia);
    AckOnWire(p, n.name, rx.ackId, rx.ackRouteKnown, rx.ackVia);
    q, f := Canonical(Relayed(job, n.name)), Encode(Relayed(job, n.name));
    TwoSteps(net, Deliver(i, frame, rx), Forward(i, |n.queue|));
  }

  lemma AckFits(p: Packet, local: Text, id: uint32, known: bool, via: Text)
    requires WellFormed(p) && Clean(p.source) && p.source != [] && Clean(local) && local != [] && p.source != local
    requires ProperRoute(known, via)
    ensures var job := Job(AckFor(p, local, id), known, via, 0);
      Transmits(job, local) && Sendable(Relayed(job, local))
  {
    hide CStr, EncodeLocation, CopyField, Clean, Padded, WordBytes;
    StoredIffClean(local);
    StoredIffClean(p.source);
    CleanIsName(local);
    CleanIsName(p.source);
    if known {
      StoredIffClean(via);
      CleanIsName(via);
    }
    AckParts(p, local, id);
    AckLabel(p, local, id);
    hide AckFor;
  }

  lemma AckLabel(p: Packet, local: Text, id: uint32)
    ensures var ack := AckFor(p, local, id);
        ack.kind == ACK && ack.priority == NORMAL && ack.id == id && ack.locationRaw == []
  {
  }

  /** What a receiver makes of a relayed acknowledgement. */
  lemma AckOnWire(p: Packet, local: Text, id: uint32, known: bool, via: Text)
    requires WellFormed(p) && Clean(p.source) && p.source != [] && Clean(local) && local != [] && p.source != local
    requires ProperRoute(known, via)
    ensures var w := Relayed(Job(AckFor(p, local, id), known, via, 0), local);
      && IsWireForm(Encode(w), w) && ParsesTo(Encode(w), Canonical(w))
      && Acknowledges(Canonical(w), p, local, id) && Canonical(w).nextHop == if known then via else []
  {
    hide CStr, EncodeLocation, CopyField, WordBytes, Clean, Word, Padded, Encode, Decode, Relayed, Canonical, AckFor,
        WellFormed, PlainLocation, Sized, PayloadSize;
    var job := Job(AckFor(p, local, id), known, via, 0);
    var rx := PLAIN_RX.(ackId := id);
    AckOriginal(NewNode(local), p, rx);
    AckParts(p, local, id);
    RelayDescends(Canonical(job.packet), job, local);
    var w := Relayed(job, local);
    RoundTrip(w);
    WellFormedSizes(w);
    AckForWaitingNode(p, local, id, Canonical(w));
    AckNames(p, local, id);
    AckLabel(p, local, id);
    FieldsKept(job.packet);
    FieldsKept(w);
  }

  /** What the parser sets anew is none of these. */
  lemma FieldsKept(p: Packet)
    requires Sendable(p)
    ensures var q := Canonical(p);
      && q.kind == p.kind && q.priority == p.priority && q.id == p.id && q.hops == p.hops && q.pathHops == p.pathHops
      && q.relay == p.relay && q.nextHop == p.nextHop
  {
  }

  /** Acknowledgements do get on the air: in a network of two nodes, for every message of the first to
      the second, whether the second knows a route to the first or not. The acknowledgement carries the id of
      the message and goes to the waiting node; and that node does not take it. */
  lemma AckSentInVain(a: Text, b: Text, id: uint32, ackId: uint32, known: bool, via: Text)
      returns (steps: seq<Step>, net: Net, frame: seq<byte>, q: Packet)
    requires ProperName(a) && ProperName(b) && a != b && ProperRoute(known, via)
    ensures Start(Pair(a, b)) && Reaches(Pair(a, b), steps, net)
        && (forall k :: 0 <= k < |steps| ==> NoForgedAck(steps[k]))
    ensures frame in net.air && ParsesTo(frame, q) && Acknowledges(q, Sample(a, b, id), b, ackId)
    ensures q.destination == a && Word(q.payload, 0) == id && q.nextHop == if known then via else []
    ensures !AckTold(q, a)
  {
    hide NetInv, Reaches, Decode, Encode, Sample, AckFor, Relayed, Clean, Canonical, AckCarries, WellFormed, Word,
        Sized, PayloadSize;
    PairStarts(a, b);
    StartInv(Pair(a, b));
    var first, sent := SampleOriginates(Pair(a, b), a, b, id);
    SampleParts(a, b, id);
    SampleSent(a, b, id);
    var p := Sample(a, b, id);
    var heard :| heard in sent.air && ParsesTo(heard, p);
    var rx := PLAIN_RX.(ackId := ackId, ackRouteKnown := known, ackVia := via);
    net, q, frame := HeardIsAcknowledged(sent, 1, heard, p, rx);
    var more := [Deliver(1, heard, rx), Forward(1, 0)];
    steps := [first] + more;
    ReachesThen(Pair(a, b), [first], sent, more, net);
    NoAckEverTold(Pair(a, b), steps, net, frame, a);
  }

  // Routes

  /** A message for another node is sent on exactly when the node knows no route to its destination or
      is itself the next hop. A packet without a next hop first gets the one of the route, so a node
      that knows a route by way of another node is silent. */
  lemma SentOnIff(n: Node, p: Packet, rx: Rx)
    requires n.name != [] && p.hops > 0 && p.kind in {FLOOD, EMERGENCY} && p.destination != n.name
        && p.destination != ALL && ProperRoute(rx.routeKnown, rx.via)
    ensures ShouldForward(RelayJob(n, p, rx), n.name) <==>
            !rx.routeKnown || (if p.nextHop == [] then rx.via else p.nextHop) == n.name
  {
    hide CopyField, LastNumber;
    if rx.routeKnown {
      StoredIffClean(rx.via);
    }
  }

  /** So a fresh message without a next hop is heard, queued and dropped where a route by way of another
      node is known. */
  lemma HeardIsSilenced(net: Net, i: nat, frame: seq<byte>, p: Packet, rx: Rx) returns (net': Net)
    requires NetInv(net) && Enabled(net, Deliver(i, frame, rx)) && rx.room && ParsesTo(frame, p)
    requires p.source != net.nodes[i].name && Fresh(net.nodes[i].known, p.source, p.id)
    requires p.destination != net.nodes[i].name && p.destination != ALL && p.kind in {FLOOD, EMERGENCY} && p.hops > 0
    requires p.nextHop == [] && rx.routeKnown && rx.via != net.nodes[i].name
    ensures Reaches(net, [Deliver(i, frame, rx), Forward(i, |net.nodes[i].queue|)], net')
    ensures net'.air == net.air && |net'.nodes| == |net.nodes|
    ensures net'.nodes[i].sent == net.nodes[i].sent && net'.nodes[i].queue == net.nodes[i].queue
  {
    hide NetInv, NodeInv, Decode, Encode, Traced, Buildable, Clean, Accepted, Relayed, Sized, PayloadSize, Inv;
    hide History.Fresh, NextHistories, LastNumber, CopyField;
    FrameParsed(net, frame);
    InvOf(net, i);
    var n := net.nodes[i];
    NodeTable(n);
    NodeNamed(n);
    TableExact(n.table, n.known, p.source, p.id, rx.now, rx.victim);
    var net1 := Apply(net, Deliver(i, frame, rx));
    assert net1.nodes[i] == Receive(n, p, rx);
    var job := RelayJob(Offered(n, p.source, p.id, rx.now, rx.victim).0, p, rx);
    assert net1.nodes[i].queue == n.queue + [job];
    StoredIffClean(rx.via);
    net' := Apply(net1, Forward(i, |n.queue|));
    TwoSteps(net, Deliver(i, frame, rx), Forward(i, |n.queue|));
  }

  /** The same in a network of two nodes: the first sends to a third, the second knows a route to it by way
      of a fourth, and nothing is sent on. */
  lemma SilentRun(a: Text, b: Text, c: Text, via: Text, id: uint32) returns (steps: seq<Step>, net: Net)
    requires ProperName(a) && ProperName(b) && ProperName(c) && ProperName(via)
    requires a != b && b != c && c != ALL && via != b
    ensures Start(Pair(a, b)) && Reaches(Pair(a, b), steps, net) && |steps| == 3 && steps[1].Deliver?
        && steps[2].Forward?
    ensures |net.nodes| == 2 && net.nodes[1].queue == [] && net.nodes[1].sent == [] && a in net.nodes[1].known
  {
    hide NetInv, Reaches, Decode, Encode, Sample, Clean, Accepted, Start;
    PairStarts(a, b);
    StartInv(Pair(a, b));
    var first, sent := SampleOriginates(Pair(a, b), a, c, id);
    SampleParts(a, c, id);
    var frame :| frame in sent.air && ParsesTo(frame, Sample(a, c, id));
    var rx := PLAIN_RX.(routeKnown := true, via := via);
    net := HeardIsSilenced(sent, 1, frame, Sample(a, c, id), rx);
    var more := [Deliver(1, frame, rx), Forward(1, 0)];
    steps := [first] + more;
    ReachesThen(Pair(a, b), [first], sent, more, net);
    KnownAfter(sent, frame, Sample(a, c, id), rx, net);
  }

  lemma KnownAfter(net: Net, frame: seq<byte>, p: Packet, rx: Rx, net': Net)
    requires |net.nodes| == 2 && Reaches(net, [Deliver(1, frame, rx), Forward(1, 0)], net') && ParsesTo(frame, p)
    ensures |net'.nodes| == 2 && p.source in net'.nodes[1].known
  {
    hide Accepted, Decode, Encode, Transmits, Buildable, AckFor, LastNumber;
    var steps := [Deliver(1, frame, rx), Forward(1, 0)];
    assert steps[1..] == [Forward(1, 0)] && steps[1..][1..] == [];
    var net1 := Apply(net, steps[0]);
    assert Reaches(net1, [Forward(1, 0)], net') && net' == Apply(net1, Forward(1, 0));
  }
}
