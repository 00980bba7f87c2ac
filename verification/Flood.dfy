/** A network of nodes over a medium that may lose, repeat, delay and reorder frames. */
module Flood {
  import opened CText
  import opened V2Packet
  import opened V2Codec
  import opened ReplayTable
  import opened Relay

  /** `air` holds every frame ever sent: a frame is heard by any node, any number of times, or never.
      `origins` are the packets as their sources first sent them. */
  datatype Net = Net(nodes: seq<Node>, air: set<seq<byte>>, origins: set<Packet>)

  datatype Step =
    | Originate(node: nat, packet: Packet)
    | Deliver(node: nat, frame: seq<byte>, rx: Rx)
    | Learn(node: nat, source: Text, id: uint32, now: nat, victim: int)
    | Forward(node: nat, job: nat)

  /** `q` is a copy of `o`: the same message, with the hops it used counted on its path until that count is full. */
  predicate Descends(o: Packet, q: Packet) {
    && q == o.(hops := q.hops, pathHops := q.pathHops, relay := q.relay, nextHop := q.nextHop)
    && 0 <= q.hops <= o.hops && o.pathHops <= q.pathHops <= 255
    && (q.pathHops < 255 ==> q.hops + q.pathHops == o.hops + o.pathHops)
    && q.hops + q.pathHops <= o.hops + o.pathHops
  }

  /** A packet that can be sent and that goes back to an origin. */
  ghost predicate Traced(origins: set<Packet>, q: Packet) {
    WellFormed(q) && exists o <- origins :: Descends(o, Canonical(q))
  }

  /** A source's own packet, in the form its receivers see. */
  ghost predicate Original(o: Packet) {
    WellFormed(o) && Canonical(o) == o && Clean(o.source)
  }

  ghost predicate FrameTraced(origins: set<Packet>, frame: seq<byte>) {
    exists q :: Traced(origins, q) && Sendable(q) && frame == Encode(q)
  }

  predicate Sendable(q: Packet) {
    Sized(q) && PayloadSize(q) < PAYLOAD_LEN
  }

  predicate ProperRoute(known: bool, via: Text) {
    known ==> Clean(via) && via != []
  }

  ghost predicate Enabled(net: Net, step: Step) {
    step.node < |net.nodes| &&
    var n := net.nodes[step.node];
    match step
    case Originate(_, p) => WellFormed(p) && Buildable(p, PACKET_LEN) && p.source == n.name
    case Deliver(_, frame, rx) =>
      frame in net.air && ProperRoute(rx.routeKnown, rx.via) && ProperRoute(rx.ackRouteKnown, rx.ackVia)
      && (Decode(frame).Accept? ==> Retained(n, Decode(frame).value.source, rx.victim))
    case Learn(_, source, _, _, victim) => Clean(source) && source != [] && Retained(n, source, victim)
    case Forward(_, k) => k < |n.queue|
  }

  ghost function Apply(net: Net, step: Step): Net
    requires Enabled(net, step)
  {
    var n := net.nodes[step.node];
    match step
    case Originate(_, p) => net.(air := net.air + {Encode(p)}, origins := net.origins + {Canonical(p)})
    case Deliver(i, frame, rx) =>
      (match Decode(frame)
       case Reject => net
       case Accept(p, _) => net.(nodes := net.nodes[i := Receive(n, p, rx)],
           origins := net.origins + AckOrigin(n, p, rx)))
    case Learn(i, source, id, now, victim) => net.(nodes := net.nodes[i := Offered(n, source, id, now, victim).0])
    case Forward(i, k) =>
      var job := n.queue[k];
      var out := Relayed(job, n.name);
      net.(nodes := net.nodes[i := Work(n, k)],
           air := if Transmits(job, n.name) && Sendable(out) then net.air + {Encode(out)} else net.air)
  }

  /** The acknowledgement that a reception gives rise to, if any. */
  ghost function AckOrigin(n: Node, p: Packet, rx: Rx): set<Packet>
    requires 0 <= rx.victim < SOURCES
  {
    var ack := AckFor(p, n.name, rx.ackId);
    if AckDue(n, p, rx) && Sendable(ack) then {Canonical(ack)} else {}
  }

  ghost predicate JobTraced(origins: set<Packet>, job: Job) {
    Traced(origins, job.packet) && ProperRoute(job.routeKnown, job.via)
  }

  ghost predicate NodeTraced(origins: set<Packet>, n: Node) {
    && (forall k :: 0 <= k < |n.queue| ==> JobTraced(origins, n.queue[k]))
    && (forall k :: 0 <= k < |n.sent| ==> JobTraced(origins, n.sent[k]))
    && forall k :: 0 <= k < |n.answered| ==> Acknowledged(origins, n, n.answered[k])
  }

  /** What a node acknowledges is another source's packet, and no acknowledgement. */
  ghost predicate Acknowledged(origins: set<Packet>, n: Node, job: Job) {
    JobTraced(origins, job) && job.packet.kind != ACK && job.packet.source != n.name
  }

  ghost predicate NetInv(net: Net) {
    && (forall i :: 0 <= i < |net.nodes| ==> NodeInv(net.nodes[i]))
    && (forall i :: 0 <= i < |net.nodes| ==> NodeTraced(net.origins, net.nodes[i]))
    && (forall o <- net.origins :: Original(o))
    && forall f <- net.air :: FrameTraced(net.origins, f)
  }

  // Tracing

  lemma TracedMore(origins: set<Packet>, more: set<Packet>, q: Packet)
    requires Traced(origins, q)
    ensures Traced(origins + more, q)
  {
    hide WellFormed, Canonical, Descends;
  }

  lemma AllTracedMore(net: Net, more: set<Packet>)
    requires NetInv(net) && forall o <- more :: Original(o)
    ensures NetInv(net.(origins := net.origins + more))
  {
    hide WellFormed, Canonical, Descends, NodeInv, Traced, Encode, Sendable, ProperRoute, Original;
    forall q | Traced(net.origins, q)
      ensures Traced(net.origins + more, q)
    {
      TracedMore(net.origins, more, q);
    }
    forall f <- net.air
      ensures FrameTraced(net.origins + more, f)
    {
      assert FrameTraced(net.origins, f);
    }
    forall i | 0 <= i < |net.nodes|
      ensures NodeTraced(net.origins + more, net.nodes[i])
    {
      assert NodeTraced(net.origins, net.nodes[i]);
      var n := net.nodes[i];
      assert forall k :: 0 <= k < |n.queue| ==> JobTraced(net.origins, n.queue[k]);
    }
  }

  /** The forward worker's edit keeps the message, and moves one hop from the budget to the path. */
  lemma RelayDescends(o: Packet, job: Job, local: Text)
    requires WellFormed(job.packet) && job.packet.hops > 0 && Descends(o, Canonical(job.packet))
    requires Clean(local) && local != [] && ProperRoute(job.routeKnown, job.via)
    ensures var p, q := job.packet, Relayed(job, local);
      && WellFormed(q) && Descends(o, Canonical(q)) && q.hops == p.hops - 1
      && q.pathHops == (if p.pathHops == 255 then 255 else p.pathHops + 1)
      && q.relay == local && q.nextHop == if job.routeKnown then job.via else []
  {
    hide CStr, EncodeLocation, Padded, CopyField, PlainLocation;
    StoredIffClean(local);
    if job.routeKnown {
      StoredIffClean(job.via);
    }
    var q, p := Relayed(job, local), job.packet;
    assert Canonical(q) == Canonical(p).(hops := q.hops, pathHops := q.pathHops, relay := q.relay,
        nextHop := q.nextHop);
  }

  lemma RelayTraced(origins: set<Packet>, job: Job, local: Text)
    requires JobTraced(origins, job) && job.packet.hops > 0 && Clean(local) && local != []
    ensures Traced(origins, Relayed(job, local)) && Sendable(Relayed(job, local))
  {
    hide Relayed, Descends, Canonical, WellFormed, ProperRoute;
    WellFormedSizes(job.packet);
    var o :| o in origins && Descends(o, Canonical(job.packet));
    RelayDescends(o, job, local);
    WellFormedSizes(Relayed(job, local));
  }

  /** A traced frame is parsed into a traced packet with a clean source. */
  lemma FrameParsed(net: Net, frame: seq<byte>)
    requires NetInv(net) && frame in net.air
    ensures Decode(frame).Accept?
    ensures var p := Decode(frame).value;
        Traced(net.origins, p) && Clean(p.source) && p.source != [] && Canonical(p) == p
  {
    hide Encode, Decode, NodeInv, NodeTraced, Canonical, WellFormed, Clean, Descends, Sized, PayloadSize;
    assert FrameTraced(net.origins, frame);
    var q :| Traced(net.origins, q) && Sendable(q) && frame == Encode(q);
    RoundTrip(q);
    CanonicalIsStable(q);
    var o :| o in net.origins && Descends(o, Canonical(q));
    SourceKept(o, q);
  }

  lemma SourceKept(o: Packet, q: Packet)
    requires Original(o) && WellFormed(q) && Descends(o, Canonical(q))
    ensures Clean(Canonical(q).source) && Canonical(q).source != []
  {
    hide Clean, CStr, EncodeLocation, Padded;
  }

  /** Filling in the next hop keeps the message. */
  lemma RelayJobTraced(origins: set<Packet>, n: Node, p: Packet, rx: Rx)
    requires Traced(origins, p) && ProperRoute(rx.routeKnown, rx.via)
    ensures JobTraced(origins, RelayJob(n, p, rx))
  {
    hide CStr, EncodeLocation, Padded, CopyField, PlainLocation, LastNumber;
    var o :| o in origins && Descends(o, Canonical(p));
    if rx.routeKnown {
      StoredIffClean(rx.via);
    }
    var q := RelayJob(n, p, rx).packet;
    assert Canonical(q) == Canonical(p).(nextHop := q.nextHop);
    assert Descends(o, Canonical(q));
  }

  lemma AckOriginal(n: Node, p: Packet, rx: Rx)
    requires WellFormed(p) && Clean(p.source) && p.source != [] && Clean(n.name) && n.name != []
    ensures var ack := AckFor(p, n.name, rx.ackId);
      WellFormed(ack) && Sendable(ack) && Original(Canonical(ack)) && Descends(Canonical(ack), Canonical(ack))
  {
    hide CStr, EncodeLocation, CopyField, WordBytes, Clean;
    StoredIffClean(p.source);
    StoredIffClean(n.name);
    CleanIsName(p.source);
    CleanIsName(n.name);
    PlainNowhere();
    var ack := AckFor(p, n.name, rx.ackId);
    hide Padded, AckFor;
    AckParts(p, n.name, rx.ackId);
    CanonicalIsStable(ack);
  }

  lemma CleanIsName(t: Text)
    requires Clean(t) && t != []
    ensures Name(t)
  {
  }

  lemma AckParts(p: Packet, local: Text, id: uint32)
    ensures var ack := AckFor(p, local, id);
      && ack.source == CopyField(local, NAME_MAX) && ack.relay == CopyField(local, NAME_MAX)
          && ack.destination == CopyField(p.source, NAME_MAX)
      && ack.nextHop == [] && ack.location == NOWHERE && |ack.payload| == PAYLOAD_LEN && ack.payloadLen == 36
      && ack.hops == (if p.hops > 0 then p.hops else 3) && ack.pathHops == 1
  {
  }

  // Steps

  lemma OriginateKeeps(net: Net, p: Packet, i: nat)
    requires NetInv(net) && Enabled(net, Originate(i, p))
    ensures NetInv(Apply(net, Originate(i, p)))
  {
    hide Encode, NodeInv, NodeTraced, Canonical, Descends, Traced, Buildable, Clean;
    assert NodeInv(net.nodes[i]);
    NodeNamed(net.nodes[i]);
    OwnPacket(net.origins, p);
    WellFormedSizes(p);
    AllTracedMore(net, {Canonical(p)});
    assert FrameTraced(net.origins + {Canonical(p)}, Encode(p));
  }

  lemma NodeNamed(n: Node)
    requires NodeInv(n)
    ensures Clean(n.name) && n.name != []
  {
  }

  lemma OwnPacket(origins: set<Packet>, p: Packet)
    requires WellFormed(p) && Clean(p.source)
    ensures Original(Canonical(p)) && Traced(origins + {Canonical(p)}, p)
  {
    hide CStr, EncodeLocation, Padded, Clean, Encode;
    CanonicalIsStable(p);
    assert Descends(Canonical(p), Canonical(p));
  }

  lemma ReplaceNode(net: Net, i: nat, n: Node)
    requires NetInv(net) && i < |net.nodes| && NodeInv(n) && NodeTraced(net.origins, n)
    ensures NetInv(net.(nodes := net.nodes[i := n]))
  {
    hide NodeInv, NodeTraced, Original, FrameTraced;
  }

  lemma ReceiveTraced(net: Net, i: nat, frame: seq<byte>, rx: Rx)
    requires NetInv(net) && Enabled(net, Deliver(i, frame, rx)) && Decode(frame).Accept?
    ensures var n, p := net.nodes[i], Decode(frame).value;
      && (forall o <- AckOrigin(n, p, rx) :: Original(o))
      && NodeTraced(net.origins + AckOrigin(n, p, rx), Receive(n, p, rx))
  {
    hide Encode, Decode, NodeInv, WellFormed, Canonical, Descends, Traced, Clean, Accepted, NextHistories, Original,
        AckFor, RelayJob, LastNumber, Sendable;
    FrameParsed(net, frame);
    var n, p := net.nodes[i], Decode(frame).value;
    NodeNamed(n);
    var more := AckOrigin(n, p, rx);
    NodeTracedMore(net.origins, more, n);
    var n1 := Offered(n, p.source, p.id, rx.now, rx.victim).0;
    RelayJobTraced(net.origins, n1, p, rx);
    TracedParts(net.origins, p);
    AckOriginal(n, p, rx);
    var relay := RelayJob(n1, p, rx);
    TracedMore(net.origins, more, relay.packet);
    TracedMore(net.origins, more, p);
    if AckDue(n, p, rx) {
      AckTraced(net.origins, AckFor(p, n.name, rx.ackId));
    }
  }

  lemma TracedParts(origins: set<Packet>, q: Packet)
    requires Traced(origins, q)
    ensures WellFormed(q)
  {
  }

  lemma AckTraced(origins: set<Packet>, ack: Packet)
    requires WellFormed(ack) && Sendable(ack) && Descends(Canonical(ack), Canonical(ack))
    ensures Traced(origins + {Canonical(ack)}, ack)
  {
    hide WellFormed, Canonical, Descends, Sendable;
  }

  lemma NodeTracedMore(origins: set<Packet>, more: set<Packet>, n: Node)
    requires NodeTraced(origins, n)
    ensures NodeTraced(origins + more, n)
  {
    hide Traced, ProperRoute;
    forall q | Traced(origins, q)
      ensures Traced(origins + more, q)
    {
      TracedMore(origins, more, q);
    }
    assert forall job :: JobTraced(origins, job) ==> JobTraced(origins + more, job);
  }

  lemma DeliverKeeps(net: Net, i: nat, frame: seq<byte>, rx: Rx)
    requires NetInv(net) && Enabled(net, Deliver(i, frame, rx))
    ensures NetInv(Apply(net, Deliver(i, frame, rx)))
  {
    hide NetInv, Decode, Receive, AckOrigin, Original, NodeInv, NodeTraced;
    FrameParsed(net, frame);
    var n, p := net.nodes[i], Decode(frame).value;
    InvOf(net, i);
    ReceiveKeeps(n, p, rx);
    ReceiveTraced(net, i, frame, rx);
    var more := AckOrigin(n, p, rx);
    AllTracedMore(net, more);
    ReplaceNode(net.(origins := net.origins + more), i, Receive(n, p, rx));
  }

  lemma InvOf(net: Net, i: nat)
    requires NetInv(net) && i < |net.nodes|
    ensures NodeInv(net.nodes[i]) && NodeTraced(net.origins, net.nodes[i])
  {
  }

  lemma LearnKeeps(net: Net, i: nat, source: Text, id: uint32, now: nat, victim: int)
    requires NetInv(net) && Enabled(net, Learn(i, source, id, now, victim))
    ensures NetInv(Apply(net, Learn(i, source, id, now, victim)))
  {
    hide NetInv, NodeInv, Accepted, NextHistories, Traced;
    InvOf(net, i);
    OfferKeeps(net.nodes[i], source, id, now, victim);
    ReplaceNode(net, i, Offered(net.nodes[i], source, id, now, victim).0);
  }

  lemma ForwardKeeps(net: Net, i: nat, k: nat)
    requires NetInv(net) && Enabled(net, Forward(i, k))
    ensures NetInv(Apply(net, Forward(i, k)))
  {
    hide NetInv, NodeInv, JobTraced, Relayed, Buildable, FrameTraced;
    InvOf(net, i);
    var n := net.nodes[i];
    NodeNamed(n);
    WorkKeeps(n, k);
    WorkTraced(net.origins, n, k);
    ReplaceNode(net, i, Work(n, k));
    if Transmits(n.queue[k], n.name) {
      RelayTraced(net.origins, n.queue[k], n.name);
      SendFrame(net.(nodes := net.nodes[i := Work(n, k)]), Relayed(n.queue[k], n.name));
    }
  }

  lemma WorkTraced(origins: set<Packet>, n: Node, k: nat)
    requires NodeTraced(origins, n) && k < |n.queue|
    ensures NodeTraced(origins, Work(n, k)) && JobTraced(origins, n.queue[k])
  {
    hide JobTraced, Transmits;
  }

  lemma SendFrame(net: Net, q: Packet)
    requires NetInv(net) && Traced(net.origins, q) && Sendable(q)
    ensures NetInv(net.(air := net.air + {Encode(q)}))
  {
    hide NodeInv, NodeTraced, Original, Traced, Encode, Sized, PayloadSize;
    assert FrameTraced(net.origins, Encode(q));
  }

  /** Every step of the network keeps its invariant. */
  lemma StepKeeps(net: Net, step: Step)
    requires NetInv(net) && Enabled(net, step)
    ensures NetInv(Apply(net, step))
  {
    hide NetInv, Apply, Enabled;
    match step
    case Originate(i, p) => OriginateKeeps(net, p, i);
    case Deliver(i, frame, rx) => DeliverKeeps(net, i, frame, rx);
    case Learn(i, source, id, now, victim) => LearnKeeps(net, i, source, id, now, victim);
    case Forward(i, k) => ForwardKeeps(net, i, k);
  }

  ghost predicate Reaches(net: Net, steps: seq<Step>, net': Net)
    decreases |steps|
  {
    if steps == [] then net' == net
    else Enabled(net, steps[0]) && Reaches(Apply(net, steps[0]), steps[1..], net')
  }

  lemma {:induction false} RunKeeps(net: Net, steps: seq<Step>, net': Net)
    requires NetInv(net) && Reaches(net, steps, net')
    ensures NetInv(net')
    decreases |steps|
  {
    hide NetInv, Apply, Enabled;
    if steps != [] {
      StepKeeps(net, steps[0]);
      RunKeeps(Apply(net, steps[0]), steps[1..], net');
    }
  }
}
