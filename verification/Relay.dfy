/** One node's part in relaying: the decision on a received packet, the forward worker's edit of a
    packet, and acknowledgements. */
module Relay {
  import opened CText
  import opened V2Packet
  import opened V2Codec
  import opened ReplayWindow
  import opened ReplayTable

  predicate IsControl(kind: Kind) {
    kind == ACK || kind == SYNC_REQ || kind == SYNC_RESP || kind == TIME_SYNC
  }

  /** A packet waiting for the forward worker. `via` is the next hop of the route, if one is known.
      `number` is the model's own: the number, without wrap-around, that the packet's id stood for when it was
      accepted. */
  datatype Job = Job(packet: Packet, routeKnown: bool, via: Text, number: int)

  /** app_runtime_should_forward_packet, for a route that route_table_get_best has just found or not found. */
  predicate ShouldForward(job: Job, local: Text) {
    && local != [] && job.packet.hops > 0
    && (!IsControl(job.packet.kind) || job.packet.kind == ACK)
    && job.packet.destination != local
    && (!job.routeKnown || job.packet.nextHop == [] || job.packet.nextHop == local)
  }

  /** What the forward worker makes of a packet before it sends it on. */
  function Relayed(job: Job, local: Text): Packet {
    var p := job.packet;
    p.(hops := p.hops - 1, relay := CopyField(local, NAME_MAX),
       pathHops := if p.pathHops < 255 then p.pathHops + 1 else p.pathHops,
       nextHop := if job.routeKnown then CopyField(job.via, NAME_MAX) else [])
  }

  // Acknowledgements

  function NameField(name: Text): seq<byte>
    requires |name| <= NAME_MAX
  {
    name + seq(32 - |name|, _ => 0)
  }

  /** mesh_control_send_ack_packet for a packet that reached its destination `local`. */
  function AckFor(p: Packet, local: Text, ackId: uint32): Packet {
    var local, source := CopyField(local, NAME_MAX), CopyField(p.source, NAME_MAX);
    Packet(true, ackId, if p.hops > 0 then p.hops else 3, 1, false, local, source, ACK, NORMAL, local, [], [],
      NOWHERE, [], Padded(WordBytes(p.id) + NameField(source)), 36)
  }

  /** Does lora_handle_rx_packet at `local` take the packet for an acknowledgement and tell the scheduler? */
  predicate AckTold(q: Packet, local: Text)
    requires |q.payload| == PAYLOAD_LEN
  {
    && q.source != local && q.kind == ACK && q.destination == local
    && AckCarries(q, q.source)
  }

  /** mesh_control_parse_ack succeeds with a proper id, and the acknowledged source is `source`. */
  predicate AckCarries(q: Packet, source: Text)
    requires |q.payload| == PAYLOAD_LEN
  {
    q.payloadLen >= 36 && Word(q.payload, 0) != 0 && CStr(q.payload[4..35]) == source
  }

  // A node

  /** What the surroundings contribute to one reception: the clock, the replay entry given up if the
      source is new, the best routes, whether the forward queues have room, and the next sequence number. */
  datatype Rx = Rx(now: nat, victim: int, routeKnown: bool, via: Text, room: bool,
                   ackId: uint32, ackRouteKnown: bool, ackVia: Text, ackRoom: bool)

  /** `known`, `sent` and `answered` are the model's own: all the numbers accepted, the jobs that went
      out, and the packets that were acknowledged. */
  datatype Node = Node(name: Text, table: Table, known: Histories, queue: seq<Job>, sent: seq<Job>, answered: seq<Job>)

  ghost function Offered(n: Node, source: Text, id: uint32, now: nat, victim: int): (Node, bool)
    requires 0 <= victim < SOURCES
  {
    var (t, ok) := Accepted(n.table, source, id, now, victim);
    (n.(table := t, known := NextHistories(n.table, n.known, source, id, victim)), ok)
  }

  predicate ForMe(n: Node, p: Packet) {
    p.destination == n.name
  }

  /** Is the packet one that lora_handle_rx_packet deals with and does not pass on? */
  predicate Absorbed(p: Packet) {
    p.kind == SYNC_REQ || p.kind == SYNC_RESP || p.kind == TIME_SYNC
  }

  ghost function LastNumber(known: Histories, source: Text): int {
    if source in known && known[source].accepted != [] then known[source].accepted[|known[source].accepted| - 1] else 0
  }

  /** The job for a packet that is to be passed on. */
  ghost function RelayJob(n: Node, p: Packet, rx: Rx): Job {
    var routeKnown := p.destination != ALL && !IsControl(p.kind) && rx.routeKnown;
    Job(if routeKnown && p.nextHop == [] then p.(nextHop := CopyField(rx.via, NAME_MAX)) else p,
      routeKnown, rx.via, LastNumber(n.known, p.source))
  }

  function AckJob(n: Node, p: Packet, rx: Rx): Job {
    Job(AckFor(p, n.name, rx.ackId), rx.ackRouteKnown, rx.ackVia, 0)
  }

  /** A packet that is acknowledged, with the number it was accepted as. */
  ghost function Answer(n: Node, p: Packet): Job {
    Job(p, false, [], LastNumber(n.known, p.source))
  }

  /** Is an acknowledgement queued for the packet? */
  ghost predicate AckDue(n: Node, p: Packet, rx: Rx)
    requires 0 <= rx.victim < SOURCES
  {
    && Offered(n, p.source, p.id, rx.now, rx.victim).1 && p.source != n.name && !Absorbed(p)
    && ForMe(n, p) && p.kind != ACK && rx.ackRoom
  }

  /** What is done with a packet that was accepted: it is acknowledged, passed on, or neither. */
  ghost function Dispatched(n: Node, p: Packet, rx: Rx): Node {
    if ForMe(n, p) then
      if p.kind != ACK && rx.ackRoom then n.(queue := n.queue + [AckJob(n, p, rx)],
          answered := n.answered + [Answer(n, p)]) else n
    else
      if p.hops > 0 && rx.room then n.(queue := n.queue + [RelayJob(n, p, rx)]) else n
  }

  /** The accept and forward decision of lora_handle_rx_packet on a parsed packet. */
  ghost function Receive(n: Node, p: Packet, rx: Rx): Node
    requires 0 <= rx.victim < SOURCES
  {
    var (n, ok) := Offered(n, p.source, p.id, rx.now, rx.victim);
    if p.source == n.name || !ok || Absorbed(p) then n else Dispatched(n, p, rx)
  }

  /** Does a job go out? */
  predicate Transmits(job: Job, local: Text) {
    ShouldForward(job, local) && Buildable(Relayed(job, local), PACKET_LEN)
  }

  /** One round of the forward worker, on any waiting job. */
  function Work(n: Node, k: nat): Node
    requires k < |n.queue|
  {
    var n' := n.(queue := n.queue[..k] + n.queue[k + 1..]);
    if Transmits(n.queue[k], n.name) then n'.(sent := n.sent + [n.queue[k]]) else n'
  }

  // What every step of a node keeps

  predicate ForeignTwins(name: Text, a: Job, b: Job) {
    a.packet.source != name && a.packet.source == b.packet.source && a.number == b.number
  }

  /** No two jobs for the same number of another source. */
  ghost predicate NoTwins(name: Text, jobs: seq<Job>) {
    forall i, j :: 0 <= i < j < |jobs| ==> !ForeignTwins(name, jobs[i], jobs[j])
  }

  ghost predicate NoTwinsAcross(name: Text, a: seq<Job>, b: seq<Job>) {
    forall i, j :: 0 <= i < |a| && 0 <= j < |b| ==> !ForeignTwins(name, a[i], b[j])
  }

  /** A job for another source's packet is about a number accepted from it. */
  ghost predicate Backed(n: Node, job: Job) {
    job.packet.source != n.name ==>
      && job.packet.source in n.known && job.number in n.known[job.packet.source].accepted
      && job.number % MODULUS == job.packet.id
  }

  ghost predicate AllBacked(n: Node, jobs: seq<Job>) {
    forall i :: 0 <= i < |jobs| ==> Backed(n, jobs[i])
  }

  ghost predicate NodeInv(n: Node) {
    && Clean(n.name) && n.name != [] && Inv(n.table, n.known)
    && AllBacked(n, n.queue) && AllBacked(n, n.sent) && AllBacked(n, n.answered)
    && NoTwins(n.name, n.queue) && NoTwins(n.name, n.sent) && NoTwinsAcross(n.name, n.sent, n.queue)
        && NoTwins(n.name, n.answered)
    && forall i :: 0 <= i < |n.sent| ==> Transmits(n.sent[i], n.name)
  }

  /** The replay state is retained: an entry that is given up was not in use. */
  predicate Retained(n: Node, source: Text, victim: int) {
    0 <= victim < SOURCES && (source in n.known || !n.table[victim].active)
  }

  /** Accepting keeps every number accepted before, and a new number is one that was not there. */
  lemma OfferKeeps(n: Node, source: Text, id: uint32, now: nat, victim: int)
    requires NodeInv(n) && Clean(source) && source != [] && Retained(n, source, victim)
    ensures var (n', ok) := Offered(n, source, id, now, victim);
      && NodeInv(n') && (forall x <- n.known ::
          x in n'.known && forall a <- n.known[x].accepted :: a in n'.known[x].accepted)
      && (ok ==>
          source in n'.known && LastNumber(n'.known, source) in n'.known[source].accepted
          && LastNumber(n'.known, source) % MODULUS == id)
      && (ok && source in n.known ==> LastNumber(n'.known, source) !in n.known[source].accepted)
  {
    hide Inv, Accepted, Clean, Transmits, History.Fresh, History.Lift, ForeignTwins;
    TableExact(n.table, n.known, source, id, now, victim);
    var n' := Offered(n, source, id, now, victim).0;
    if source in n.known {
      FoundTracks(n.table, n.known, source);
      LiftWraps(n.known[source], id);
      FreshIsNew(n.known[source], id);
    }
    forall x <- n.known
      ensures x in n'.known && forall a <- n.known[x].accepted :: a in n'.known[x].accepted
    {
    }
    BackedStays(n, n', n.queue);
    BackedStays(n, n', n.sent);
    BackedStays(n, n', n.answered);
  }

  lemma FreshIsNew(h: History, s: uint32)
    requires h.Sound()
    ensures h.Fresh(s) ==> h.Lift(s) !in h.accepted
  {
    hide History.Lift;
  }

  lemma BackedStays(n: Node, n': Node, jobs: seq<Job>)
    requires AllBacked(n, jobs) && n'.name == n.name
    requires forall x <- n.known :: x in n'.known && forall a <- n.known[x].accepted :: a in n'.known[x].accepted
    ensures AllBacked(n', jobs)
  {
    forall i | 0 <= i < |jobs|
      ensures Backed(n', jobs[i])
    {
      assert Backed(n, jobs[i]);
    }
  }

  lemma EnqueueKeeps(n: Node, job: Job)
    requires NodeInv(n) && Backed(n, job)
    requires forall i :: 0 <= i < |n.queue| ==> !ForeignTwins(n.name, n.queue[i], job)
    requires forall i :: 0 <= i < |n.sent| ==> !ForeignTwins(n.name, n.sent[i], job)
    ensures NodeInv(n.(queue := n.queue + [job]))
  {
    hide Inv, Clean, Transmits, ForeignTwins;
    var n' := n.(queue := n.queue + [job]);
    assert forall x :: Backed(n, x) ==> Backed(n', x);
  }

  lemma AnswerKeeps(n: Node, job: Job)
    requires NodeInv(n) && Backed(n, job) && forall i :: 0 <= i < |n.answered| ==>
        !ForeignTwins(n.name, n.answered[i], job)
    ensures NodeInv(n.(answered := n.answered + [job]))
  {
    hide Inv, Clean, Transmits, ForeignTwins;
    var n' := n.(answered := n.answered + [job]);
    assert forall x :: Backed(n, x) ==> Backed(n', x);
  }

  lemma OldNumbersDiffer(n: Node, n': Node, jobs: seq<Job>, job: Job)
    requires AllBacked(n, jobs) && n'.name == n.name
    requires job.packet.source in n.known ==> job.number !in n.known[job.packet.source].accepted
    ensures forall i :: 0 <= i < |jobs| ==> !ForeignTwins(n.name, jobs[i], job)
  {
    forall i | 0 <= i < |jobs|
      ensures !ForeignTwins(n.name, jobs[i], job)
    {
      assert Backed(n, jobs[i]);
    }
  }

  lemma ReceiveKeeps(n: Node, p: Packet, rx: Rx)
    requires NodeInv(n) && Clean(p.source) && p.source != [] && Retained(n, p.source, rx.victim)
    ensures NodeInv(Receive(n, p, rx))
  {
    hide Inv, Accepted, NextHistories, Clean, Transmits, NodeInv, CopyField, AckFor, LastNumber;
    OfferKeeps(n, p.source, p.id, rx.now, rx.victim);
    var (n1, ok) := Offered(n, p.source, p.id, rx.now, rx.victim);
    if ok && p.source != n.name && !Absorbed(p) {
      if ForMe(n, p) {
        var job := AckJob(n1, p, rx);
        AckFromHere(n1, p, rx);
        EnqueueKeeps(n1, job);
        JobsOf(n);
        OldNumbersDiffer(n, n1, n.answered, Answer(n1, p));
        AnswerKeeps(n1.(queue := n1.queue + [job]), Answer(n1, p));
      } else {
        var job := RelayJob(n1, p, rx);
        JobsOf(n);
        OldNumbersDiffer(n, n1, n.queue, job);
        OldNumbersDiffer(n, n1, n.sent, job);
        EnqueueKeeps(n1, job);
      }
    }
  }

  lemma JobsOf(n: Node)
    requires NodeInv(n)
    ensures AllBacked(n, n.queue) && AllBacked(n, n.sent) && AllBacked(n, n.answered)
  {
  }

  /** An acknowledgement is the node's own packet. */
  lemma AckFromHere(n: Node, p: Packet, rx: Rx)
    requires NodeInv(n)
    ensures AckJob(n, p, rx).packet.source == n.name
    ensures Backed(n, AckJob(n, p, rx)) && forall x :: !ForeignTwins(n.name, x, AckJob(n, p, rx))
  {
    StoredIffClean(n.name);
  }

  lemma WorkKeeps(n: Node, k: nat)
    requires NodeInv(n) && k < |n.queue|
    ensures NodeInv(Work(n, k))
  {
    hide Inv, Clean, Transmits;
    var n' := Work(n, k);
    assert forall x :: Backed(n, x) ==> Backed(n', x);
    assert forall i :: 0 <= i < |n'.queue| ==> n'.queue[i] == n.queue[if i < k then i else i + 1];
  }
}
