/** The receive handler and the forward worker as they run on one node. */
module RelayNode {
  import opened CText
  import opened V2Packet
  import opened V2Codec
  import opened V2Wire
  import opened ReplayTable
  import opened Relay
  import opened Flood
  import Routing = RouteTable

  /** forward_job_t */
  datatype Waiting = Waiting(packet: Packet, routeKnown: bool, via: Text)

  function Untagged(job: Job): Waiting {
    Waiting(job.packet, job.routeKnown, job.via)
  }

  function UntaggedAll(jobs: seq<Job>): (ws: seq<Waiting>)
    ensures |ws| == |jobs| && forall i :: 0 <= i < |jobs| ==> ws[i] == Untagged(jobs[i])
  {
    seq(|jobs|, i requires 0 <= i < |jobs| => Untagged(jobs[i]))
  }

  /** Did the packet pass the replay check, and is it another node's? */
  ghost predicate Heeded(n: Node, p: Packet, now: nat, victim: int)
    requires 0 <= victim < SOURCES
  {
    Offered(n, p.source, p.id, now, victim).1 && p.source != n.name
  }

  /** What route_table_get_best answers for a destination. */
  ghost predicate Answers(t: seq<Routing.Route>, destination: Text, now: nat, known: bool, via: Text) {
    && (known <==> destination != [] && exists r <- t :: Routing.Candidate(r, destination, now))
    && (known ==> exists r :: Routing.Optimal(t, destination, now, r) && r.nextHop == via)
  }

  /** A route from a table that learned clean names has a next hop that packets can carry, as the
      network's steps require of routes. */
  lemma LearnedRouteProper(t: seq<Routing.Route>, seen: Routing.Sightings, destination: Text, now: nat, known: bool,
      via: Text)
    requires Routing.Inv(t, seen) && Answers(t, destination, now, known, via)
    ensures ProperRoute(known, via)
  {
    hide Routing.Inv, Routing.Candidate;
    if known {
      var r :| Routing.Optimal(t, destination, now, r) && r.nextHop == via;
      Routing.BestIsProper(t, seen, destination, now, r);
    }
  }

  /** One packet heard from a node is enough for a route to it, by way of its relay, for 300 seconds. */
  lemma HeardOnceIsRoute(destination: Text, relay: Text, hops: int, rssi: int, ms: nat, later: nat, known: bool,
      via: Text)
    requires Clean(destination) && Clean(relay) && destination != [] && relay != [] && hops > 0
    requires ms <= later < ms + 300000
    requires Answers(Routing.Learned([], destination, relay, hops, rssi, ms, 0), destination, later, known, via)
    ensures known && via == relay
  {
    hide CopyField, Clean, Routing.Find;
    StoredIffClean(destination);
    StoredIffClean(relay);
    var t := Routing.Learned([], destination, relay, hops, rssi, ms, 0);
    var r := Routing.Created(destination, relay, hops, rssi, ms);
    assert t == [r] && r in t && Routing.Candidate(r, destination, later);
  }

  class MeshNode {
    const name: Text
    const replay: ReplaySources
    const routes: Routing.Routes
    var queue: seq<Waiting>

    constructor (name: Text)
      ensures this.name == name && queue == [] && fresh(replay) && fresh(replay.entries)
      ensures replay.entries.Length == SOURCES && forall i :: 0 <= i < SOURCES ==> !replay.entries[i].active
      ensures routes.Valid() && routes.Table() == [] && fresh(routes) && fresh(routes.routes)
    {
      this.name := name;
      queue := [];
      replay := new ReplaySources();
      routes := new Routing.Routes();
    }

    /** The node is the one that the model describes. */
    ghost predicate Is(n: Node)
      reads this, replay.entries
    {
      replay.entries.Length == SOURCES && n.name == name && n.table == replay.entries[..]
          && queue == UntaggedAll(n.queue)
    }

    /** lora_handle_rx_packet on a decrypted V2 packet, at tick `now` and millisecond `ms`. `rx` is what
        the model's reception has to be told: the replay entry and the routes are those that the tables give. */
    method HandleRx(packet: array<byte>, len: nat, now: nat, ms: nat, rssi: int, room: bool, ackRoom: bool,
        ackId: uint32, ghost n: Node)
      returns (told: bool, id: uint32, ghost rx: Rx)
      requires len <= packet.Length && Is(n) && routes.Valid()
      modifies this`queue, replay.entries, routes`count, routes.routes
      ensures routes.Valid() && rx.now == now && rx.room == room && rx.ackRoom == ackRoom && rx.ackId == ackId
      ensures Decode(packet[..len]).Reject? ==> Is(n) && routes.Table() == old(routes.Table())
      ensures Decode(packet[..len]).Accept? ==> 0 <= rx.victim < SOURCES && Victim(n.table, now, rx.victim)
                                                && Received(n, Decode(packet[..len]).value, rx, old(routes.Table()),
                                                    ms, rssi)
      ensures told ==> Decode(packet[..len]).Accept?
      ensures Decode(packet[..len]).Accept? ==> AckHeard(n, Decode(packet[..len]).value, rx, told, id)
    {
      hide Decode, Accepted, NextHistories, Dispatched, Victim, RouteLearned, Routed, AckTold, Word;
      told, id := false, 0;
      rx := Rx(now, 0, false, [], room, ackId, false, [], ackRoom);
      var ok, p := ParsePacket(packet, len);
      if !ok {
        return;
      }
      var fromSelf := p.source == name;
      ghost var victim;
      var allowed;
      allowed, victim := replay.Accept(p.source, p.id, now);
      VictimInRange(n.table, now, victim);
      rx := rx.(victim := victim);
      PayloadKept(packet[..len]);
      if fromSelf || !allowed {
        return;
      }
      LearnRoute(p, ms, rssi);
      if Absorbed(p) {
        AbsorbedNotTold(p, name);
        return;
      }
      told, id := HearAck(p);
      rx := Dispatch(p, ms, room, ackRoom, ackId, rx, Offered(n, p.source, p.id, now, victim).0);
    }

    /** Is the scheduler told of an acknowledgement, and with which id? The packet is another node's. */
    method HearAck(p: Packet) returns (told: bool, id: uint32)
      requires |p.payload| == PAYLOAD_LEN && p.source != name
      ensures (told <==> AckTold(p, name)) && (told ==> id == Word(p.payload, 0))
    {
      hide Word, CStr;
      told, id := false, 0;
      if p.kind == ACK && p.destination == name && p.payloadLen >= 36 {
        id := Word(p.payload, 0);
        var source := CStr(p.payload[4..35]);
        told := id != 0 && source == p.source;
      }
    }

    /** The scheduler is told of an acknowledgement exactly when the packet is heeded and is taken for one. */
    ghost predicate AckHeard(n: Node, p: Packet, rx: Rx, told: bool, id: uint32)
      requires 0 <= rx.victim < SOURCES
    {
      && |p.payload| == PAYLOAD_LEN && (told <==> Heeded(n, p, rx.now, rx.victim) && AckTold(p, name))
      && (told ==> id == Word(p.payload, 0))
    }

    /** The end of lora_handle_rx_packet, for a packet that was accepted. */
    method Dispatch(p: Packet, ms: nat, room: bool, ackRoom: bool, ackId: uint32, ghost rx0: Rx, ghost n: Node)
        returns (ghost rx: Rx)
      requires Is(n) && routes.Valid() && !Absorbed(p) && rx0.room == room && rx0.ackRoom == ackRoom
          && rx0.ackId == ackId
      modifies this`queue
      ensures Is(Dispatched(n, p, rx)) && Routed(p, rx, ms)
      ensures rx == rx0.(routeKnown := rx.routeKnown, via := rx.via, ackRouteKnown := rx.ackRouteKnown,
          ackVia := rx.ackVia)
    {
      hide AckFor, LastNumber, CopyField, Answers;
      rx := rx0.(routeKnown := false, via := []);
      var broadcast, forMe, ack := p.destination == ALL, p.destination == name, p.kind == ACK;
      if forMe && !ack {
        var known, best := routes.GetBest(CopyField(p.source, NAME_MAX), ms);
        rx := rx.(ackRouteKnown := known, ackVia := best.nextHop);
        FoundAnswers(routes.Table(), CopyField(p.source, NAME_MAX), ms, known, best);
        if ackRoom {
          queue := queue + [Waiting(AckFor(p, name, ackId), known, best.nextHop)];
        }
      }
      var routeKnown, via := false, [];
      if !broadcast && !forMe && !IsControl(p.kind) {
        var best;
        routeKnown, best := routes.GetBest(p.destination, ms);
        via := best.nextHop;
        rx := rx.(routeKnown := routeKnown, via := via);
        FoundAnswers(routes.Table(), p.destination, ms, routeKnown, best);
      }
      if p.hops > 0 && !forMe && (!IsControl(p.kind) || ack) {
        var q := p;
        if routeKnown && q.nextHop == [] {
          q := q.(nextHop := CopyField(via, NAME_MAX));
        }
        if room {
          queue := queue + [Waiting(q, routeKnown, via)];
        }
      }
    }

    /** The routes that a dispatch used are the best of the table. */
    ghost predicate Routed(p: Packet, rx: Rx, ms: nat)
      requires routes.Valid()
      reads routes, routes.routes
    {
      && (p.destination == name && p.kind != ACK ==> Answers(routes.Table(), CopyField(p.source, NAME_MAX), ms,
          rx.ackRouteKnown, rx.ackVia))
      && (p.destination != name && p.destination != ALL && !IsControl(p.kind) ==>
          Answers(routes.Table(), p.destination, ms, rx.routeKnown, rx.via))
    }

    method LearnRoute(p: Packet, ms: nat, rssi: int)
      requires routes.Valid()
      modifies routes`count, routes.routes
      ensures routes.Valid() && RouteLearned(old(routes.Table()), p, ms, rssi)
    {
      hide Routing.Learned, Routing.Oldest;
      ghost var before := routes.Table();
      ghost var v := routes.Learn(p.source, p.relay, p.pathHops, rssi, ms);
      if |before| == Routing.ROUTES {
        Routing.OldestInRange(before, ms, v);
      }
    }

    /** The node after a reception: the replay table and the queue are the specification's, a route
        is learned from a packet that is heeded, and the routes used are the best of the table. */
    ghost predicate Received(n: Node, p: Packet, rx: Rx, before: seq<Routing.Route>, ms: nat, rssi: int)
      requires routes.Valid() && 0 <= rx.victim < SOURCES
      reads this, replay.entries, routes, routes.routes
    {
      && Is(Receive(n, p, rx))
      && (if Heeded(n, p, rx.now, rx.victim) then RouteLearned(before, p, ms, rssi) else routes.Table() == before)
      && (Heeded(n, p, rx.now, rx.victim) && !Absorbed(p) ==> Routed(p, rx, ms))
    }

    ghost predicate RouteLearned(before: seq<Routing.Route>, p: Packet, ms: nat, rssi: int)
      requires routes.Valid()
      reads routes, routes.routes
    {
      exists v: int ::
        && (|before| < Routing.ROUTES || (Routing.Oldest(before, ms, v) && 0 <= v < |before|))
        && routes.Table() == Routing.Learned(before, p.source, p.relay, p.pathHops, rssi, ms, v)
    }

    /** One round of forward_worker_task, on the job that the queues hand out. */
    method ForwardOne(k: nat, frame: array<byte>, ghost n: Node) returns (sent: bool, len: nat)
      requires Is(n) && k < |queue| && frame.Length == PACKET_LEN
      requires Sized(n.queue[k].packet)
      modifies this`queue, frame
      ensures Is(Work(n, k)) && (sent <==> Transmits(n.queue[k], name))
      ensures sent ==>
          len <= frame.Length && Sized(Relayed(n.queue[k], name))
          && PayloadSize(Relayed(n.queue[k], name)) < PAYLOAD_LEN
          && frame[..len] == Encode(Relayed(n.queue[k], name))
    {
      hide Encode, Buildable, CopyField, CStr;
      var p, routeKnown, via := queue[k].packet, queue[k].routeKnown, queue[k].via;
      sent, len := false, 0;
      queue := queue[..k] + queue[k + 1..];
      if !ShouldForward(Job(p, routeKnown, via, 0), name) {
        return;
      }
      if p.hops <= 0 {
        return;
      }
      p := p.(hops := p.hops - 1);
      p := p.(relay := CopyField(name, NAME_MAX));
      if p.pathHops < 255 {
        p := p.(pathHops := p.pathHops + 1);
      }
      if routeKnown {
        p := p.(nextHop := CopyField(via, NAME_MAX));
      } else {
        p := p.(nextHop := []);
      }
      sent, len := BuildForwardPacket(p, frame);
      BuiltSized(p, frame.Length);
    }
  }

  lemma PayloadKept(s: seq<byte>)
    ensures Decode(s).Accept? ==> |Decode(s).value.payload| == PAYLOAD_LEN
  {
    hide TakeHead, TakeTail;
    if Decode(s).Accept? {
      TailNames(TakeHead(s[2..]).value.flags, TakeHead(s[2..]).rest);
    }
  }

  /** The other kinds are not acknowledgements. */
  lemma AbsorbedNotTold(p: Packet, local: Text)
    requires |p.payload| == PAYLOAD_LEN && (Absorbed(p) || p.source == local)
    ensures !AckTold(p, local)
  {
  }

  lemma FoundAnswers(t: seq<Routing.Route>, destination: Text, now: nat, found: bool, best: Routing.Route)
    requires found <==> destination != [] && exists r <- t :: Routing.Candidate(r, destination, now)
    requires found ==> Routing.Optimal(t, destination, now, best)
    ensures Answers(t, destination, now, found, best.nextHop)
  {
    hide Routing.Candidate, Routing.Optimal;
  }

  lemma BuiltSized(p: Packet, size: nat)
    ensures Buildable(p, size) ==> PayloadSize(p) < PAYLOAD_LEN
  {
  }
}
