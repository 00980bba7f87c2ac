/** How long relaying goes on: a bound on the frames sent for other sources, over every run in which the
    ids of each source stay within half a turn of the counter. */
module FloodBounds {
  import opened CText
  import opened Counting
  import opened Arith
  import opened V2Packet
  import opened V2Codec
  import opened ReplayWindow
  import opened ReplayTable
  import opened Relay
  import opened Flood
  import opened FloodRuns

  /** Were all the numbers accepted from the source within one turn of the counter? */
  ghost predicate OneTurn(h: History) {
    forall a, b :: a in h.accepted && b in h.accepted ==> a - b < MODULUS
  }

  ghost predicate NoFullTurn(n: Node) {
    forall x <- n.known :: OneTurn(n.known[x])
  }

  /** The messages of other sources that a node sent on. */
  function RelayKeys(name: Text, jobs: seq<Job>): seq<(Text, uint32)> {
    if jobs == [] then []
    else
      var p := jobs[|jobs| - 1].packet;
      RelayKeys(name, jobs[..|jobs| - 1]) + if p.source != name then [(p.source, p.id)] else []
  }

  ghost function Keys(origins: set<Packet>): set<(Text, uint32)> {
    set o <- origins :: (o.source, o.id)
  }

  ghost predicate DistinctIds(name: Text, jobs: seq<Job>) {
    forall i, j :: 0 <= i < j < |jobs| && jobs[i].packet.source == jobs[j].packet.source != name ==>
        jobs[i].packet.id != jobs[j].packet.id
  }

  ghost predicate FromKeys(keys: set<(Text, uint32)>, jobs: seq<Job>) {
    forall i :: 0 <= i < |jobs| ==> (jobs[i].packet.source, jobs[i].packet.id) in keys
  }

  ghost function KeySet(name: Text, jobs: seq<Job>): set<(Text, uint32)> {
    if jobs == [] then {}
    else
      var p := jobs[|jobs| - 1].packet;
      KeySet(name, jobs[..|jobs| - 1]) + if p.source != name then {(p.source, p.id)} else {}
  }

  lemma {:induction false} NotInKeySet(name: Text, jobs: seq<Job>, p: Packet)
    requires p.source != name && forall i :: 0 <= i < |jobs| && jobs[i].packet.source == p.source ==>
        jobs[i].packet.id != p.id
    ensures (p.source, p.id) !in KeySet(name, jobs)
  {
    if jobs != [] {
      NotInKeySet(name, jobs[..|jobs| - 1], p);
    }
  }

  lemma {:induction false} KeysCounted(name: Text, jobs: seq<Job>, keys: set<(Text, uint32)>)
    requires DistinctIds(name, jobs) && FromKeys(keys, jobs)
    ensures |KeySet(name, jobs)| == |RelayKeys(name, jobs)| && KeySet(name, jobs) <= keys
  {
    if jobs != [] {
      var n := |jobs| - 1;
      KeysCounted(name, jobs[..n], keys);
      if jobs[n].packet.source != name {
        NotInKeySet(name, jobs[..n], jobs[n].packet);
      }
    }
  }

  lemma JobsDistinct(n: Node, jobs: seq<Job>)
    requires AllBacked(n, jobs) && NoTwins(n.name, jobs) && NoFullTurn(n)
    ensures DistinctIds(n.name, jobs)
  {
    forall i, j | 0 <= i < j < |jobs| && jobs[i].packet.source == jobs[j].packet.source != n.name
      ensures jobs[i].packet.id != jobs[j].packet.id
    {
      var x, y := jobs[i], jobs[j];
      assert Backed(n, x) && Backed(n, y) && !ForeignTwins(n.name, x, y);
      SameResidue(x.number, y.number);
      assert OneTurn(n.known[x.packet.source]);
    }
  }

  lemma JobParts(n: Node)
    requires NodeInv(n)
    ensures AllBacked(n, n.sent) && NoTwins(n.name, n.sent) && AllBacked(n, n.answered) && NoTwins(n.name, n.answered)
  {
  }

  /** The packets that are no acknowledgements. */
  ghost function Plain(origins: set<Packet>): set<Packet> {
    set o <- origins | o.kind != ACK
  }

  lemma TracedKey(origins: set<Packet>, q: Packet)
    requires Traced(origins, q)
    ensures (q.source, q.id) in Keys(origins) && (q.kind != ACK ==> (q.source, q.id) in Keys(Plain(origins)))
  {
    hide WellFormed;
    WellFormedSizes(q);
    var o :| o in origins && Descends(o, Canonical(q));
    assert (o.source, o.id) == (q.source, q.id) && o.kind == q.kind;
  }

  lemma FromOrigins(origins: set<Packet>, n: Node)
    requires NodeTraced(origins, n)
    ensures FromKeys(Keys(origins), n.sent) && FromKeys(Keys(Plain(origins)), n.answered)
    ensures forall i :: 0 <= i < |n.answered| ==> n.answered[i].packet.source != n.name
  {
    hide Traced, Keys, Plain, ProperRoute;
    forall i | 0 <= i < |n.sent|
      ensures (n.sent[i].packet.source, n.sent[i].packet.id) in Keys(origins)
    {
      assert JobTraced(origins, n.sent[i]);
      TracedKey(origins, n.sent[i].packet);
    }
    forall i | 0 <= i < |n.answered|
      ensures n.answered[i].packet.source != n.name && (n.answered[i].packet.source,
          n.answered[i].packet.id) in Keys(Plain(origins))
    {
      assert Acknowledged(origins, n, n.answered[i]);
      TracedKey(origins, n.answered[i].packet);
    }
  }

  lemma {:induction false} AllForeign(name: Text, jobs: seq<Job>)
    requires forall i :: 0 <= i < |jobs| ==> jobs[i].packet.source != name
    ensures |RelayKeys(name, jobs)| == |jobs|
  {
    if jobs != [] {
      AllForeign(name, jobs[..|jobs| - 1]);
    }
  }

  lemma NodeBounded(net: Net, i: nat)
    requires NetInv(net) && i < |net.nodes| && NoFullTurn(net.nodes[i])
    ensures |RelayKeys(net.nodes[i].name, net.nodes[i].sent)| <= |Keys(net.origins)|
    ensures |net.nodes[i].answered| <= |Keys(Plain(net.origins))|
  {
    hide NetInv, NodeInv, NodeTraced, NoFullTurn, DistinctIds, FromKeys, RelayKeys, Keys, Plain, AllBacked, NoTwins;
    InvOf(net, i);
    var n := net.nodes[i];
    JobParts(n);
    JobsDistinct(n, n.sent);
    JobsDistinct(n, n.answered);
    FromOrigins(net.origins, n);
    KeysCounted(n.name, n.sent, Keys(net.origins));
    SubsetSize(KeySet(n.name, n.sent), Keys(net.origins));
    KeysCounted(n.name, n.answered, Keys(Plain(net.origins)));
    SubsetSize(KeySet(n.name, n.answered), Keys(Plain(net.origins)));
    AllForeign(n.name, n.answered);
  }

  /** All the transmissions of all the forward workers for other sources. */
  function Relays(nodes: seq<Node>): nat {
    if nodes == [] then 0
    else Relays(nodes[..|nodes| - 1]) + |RelayKeys(nodes[|nodes| - 1].name, nodes[|nodes| - 1].sent)|
  }

  /** All the acknowledgements queued by all the nodes. */
  function Answers(nodes: seq<Node>): nat {
    if nodes == [] then 0 else Answers(nodes[..|nodes| - 1]) + |nodes[|nodes| - 1].answered|
  }

  lemma {:induction false} AnswersChange(nodes: seq<Node>, i: nat, n: Node)
    requires i < |nodes|
    ensures Answers(nodes[i := n]) == Answers(nodes) + |n.answered| - |nodes[i].answered|
  {
    var last := |nodes| - 1;
    if i < last {
      AnswersChange(nodes[..last], i, n);
      assert nodes[i := n][..last] == nodes[..last][i := n];
    } else {
      assert nodes[i := n][..last] == nodes[..last];
    }
  }

  lemma {:induction false} RelaysBounded(net: Net, n: nat)
    requires NetInv(net) && n <= |net.nodes| && forall i :: 0 <= i < |net.nodes| ==> NoFullTurn(net.nodes[i])
    ensures Relays(net.nodes[..n]) <= n * |Keys(net.origins)|
    ensures Answers(net.nodes[..n]) <= n * |Keys(Plain(net.origins))|
  {
    hide NetInv, NoFullTurn, RelayKeys, Keys, Plain;
    if n > 0 {
      RelaysBounded(net, n - 1);
      NodeBounded(net, n - 1);
      assert net.nodes[..n][..n - 1] == net.nodes[..n - 1];
    }
  }

  // Numbers that stay within half a turn

  /** The ids of a source lie in the half turn from its base, both ends included. */
  predicate Near(base: Text -> uint32, source: Text, id: uint32) {
    Minus(id, base(source)) <= HALF
  }

  function Anchor(h: History, b: uint32): int {
    h.highest - Minus(h.highest % MODULUS, b)
  }

  ghost predicate Spans(h: History, b: uint32) {
    forall a <- h.accepted :: Minus(a % MODULUS, b) <= HALF && a == Anchor(h, b) + Minus(a % MODULUS, b)
  }

  lemma LiftNear(h: History, b: uint32, s: uint32)
    requires Minus(h.highest % MODULUS, b) <= HALF && Minus(s, b) <= HALF && h.Fresh(s)
    ensures h.Lift(s) == Anchor(h, b) + Minus(s, b) && h.Lift(s) % MODULUS == s
  {
    hide Minus, History.Lift;
    LiftWraps(h, s);
    AnchorResidue(h.highest, b, s);
    SameResidue(h.Lift(s), Anchor(h, b) + Minus(s, b));
  }

  lemma AnchorResidue(highest: int, b: uint32, s: uint32)
    ensures (highest - Minus(highest % MODULUS, b) + Minus(s, b)) % MODULUS == s
  {
    var k := highest / MODULUS;
    var r := highest % MODULUS;
    assert Minus(r, b) == if r >= b then r - b else r - b + MODULUS;
    assert Minus(s, b) == if s >= b then s - b else s - b + MODULUS;
  }

  lemma SpansAccept(h: History, b: uint32, s: uint32)
    requires h.Sound() && Spans(h, b) && Minus(s, b) <= HALF
    ensures Spans(h.Accept(s), b)
  {
    hide Minus, History.Lift;
    if h.Fresh(s) {
      LiftNear(h, b, s);
    }
  }

  lemma SpansFirst(b: uint32, s: uint32)
    requires Minus(s, b) <= HALF
    ensures Spans(History.First(s), b)
  {
  }

  ghost predicate NodeNear(base: Text -> uint32, n: Node) {
    forall x <- n.known :: Spans(n.known[x], base(x))
  }

  lemma NearIsOneTurn(base: Text -> uint32, n: Node)
    requires NodeNear(base, n)
    ensures NoFullTurn(n)
  {
    hide Minus;
  }

  lemma OfferNear(base: Text -> uint32, n: Node, source: Text, id: uint32, now: nat, victim: int)
    requires NodeInv(n) && NodeNear(base, n) && Near(base, source, id) && 0 <= victim < SOURCES
    ensures NodeNear(base, Offered(n, source, id, now, victim).0)
  {
    hide Accepted, Spans, History.Accept, History.First, Minus, Tracks;
    SpansFirst(base(source), id);
    if source in n.known {
      FoundTracks(n.table, n.known, source);
      SpansAccept(n.known[source], base(source), id);
    }
  }

  /** Every number that the step brings into the network is near its source's base. */
  ghost predicate StepNear(base: Text -> uint32, net: Net, step: Step)
    requires Enabled(net, step)
  {
    match step
    case Originate(_, p) => Near(base, p.source, p.id)
    case Deliver(i, _, rx) => Near(base, net.nodes[i].name, rx.ackId)
    case Learn(_, source, id, _, _) => Near(base, source, id)
    case Forward(_, _) => true
  }

  ghost predicate NetNear(base: Text -> uint32, net: Net) {
    && (forall i :: 0 <= i < |net.nodes| ==> NodeNear(base, net.nodes[i]))
    && forall o <- net.origins :: Near(base, o.source, o.id)
  }

  lemma StepKeepsNear(base: Text -> uint32, net: Net, step: Step)
    requires NetInv(net) && NetNear(base, net) && Enabled(net, step) && StepNear(base, net, step)
    ensures NetNear(base, Apply(net, step))
  {
    hide NetInv, NodeInv, NodeNear, Near, Accepted, NextHistories, Decode, Encode, Canonical, AckFor, WellFormed,
        Buildable, Transmits, Sized, PayloadSize;
    match step
    case Originate(i, p) =>
      WellFormedSizes(p);
      KeyKept(p);
    case Deliver(i, frame, rx) =>
      FrameParsed(net, frame);
      InvOf(net, i);
      var n, p := net.nodes[i], Decode(frame).value;
      TracedNear(base, net, p);
      OfferNear(base, n, p.source, p.id, rx.now, rx.victim);
      QueueNear(base, Offered(n, p.source, p.id, rx.now, rx.victim).0, Receive(n, p, rx));
      AckNear(base, n, p, rx);
    case Learn(i, source, id, now, victim) =>
      InvOf(net, i);
      OfferNear(base, net.nodes[i], source, id, now, victim);
    case Forward(i, k) =>
      QueueNear(base, net.nodes[i], Work(net.nodes[i], k));
  }

  lemma QueueNear(base: Text -> uint32, n: Node, n': Node)
    requires NodeNear(base, n) && n'.known == n.known
    ensures NodeNear(base, n')
  {
  }

  lemma KeyKept(p: Packet)
    requires Sendable(p)
    ensures Canonical(p).source == p.source && Canonical(p).id == p.id
  {
  }

  lemma TracedNear(base: Text -> uint32, net: Net, p: Packet)
    requires NetNear(base, net) && Traced(net.origins, p)
    ensures Near(base, p.source, p.id)
  {
    hide Near, WellFormed;
    WellFormedSizes(p);
    var o :| o in net.origins && Descends(o, Canonical(p));
  }

  lemma AckNear(base: Text -> uint32, n: Node, p: Packet, rx: Rx)
    requires NodeInv(n) && Near(base, n.name, rx.ackId) && 0 <= rx.victim < SOURCES
    ensures forall o <- AckOrigin(n, p, rx) :: Near(base, o.source, o.id)
  {
    hide Near, AckDue, CopyField, Inv;
    StoredIffClean(n.name);
  }

  ghost predicate RunNear(base: Text -> uint32, net: Net, steps: seq<Step>)
    decreases |steps|
  {
    steps != [] ==>
        Enabled(net, steps[0]) && StepNear(base, net, steps[0]) && RunNear(base, Apply(net, steps[0]), steps[1..])
  }

  lemma {:induction false} RunKeepsNear(base: Text -> uint32, net: Net, steps: seq<Step>, net': Net)
    requires NetInv(net) && NetNear(base, net) && Reaches(net, steps, net') && RunNear(base, net, steps)
    ensures NetNear(base, net')
    decreases |steps|
  {
    hide NetInv, NetNear, Apply, Enabled, StepNear;
    if steps != [] {
      StepKeeps(net, steps[0]);
      StepKeepsNear(base, net, steps[0]);
      RunKeepsNear(base, Apply(net, steps[0]), steps[1..], net');
    }
  }

  // Counting what was originated

  function Originations(steps: seq<Step>): nat {
    if steps == [] then 0 else Originations(steps[1..]) + if steps[0].Originate? then 1 else 0
  }

  /** `k` packets were originated: no more keys than these and one for each acknowledgement. */
  ghost predicate Counted(net: Net, k: nat) {
    |Keys(Plain(net.origins))| <= k && |Keys(net.origins)| <= k + Answers(net.nodes)
  }

  lemma OneMoreKey(origins: set<Packet>, o: Packet)
    ensures |Keys(origins + {o})| <= |Keys(origins)| + 1 && |Keys(Plain(origins + {o}))| <= |Keys(Plain(origins))| + 1
    ensures o.kind == ACK ==> Plain(origins + {o}) == Plain(origins)
  {
    assert Keys(origins + {o}) == Keys(origins) + {(o.source, o.id)};
    if o.kind == ACK {
      assert Plain(origins + {o}) == Plain(origins);
    } else {
      assert Plain(origins + {o}) == Plain(origins) + {o};
      assert Keys(Plain(origins) + {o}) == Keys(Plain(origins)) + {(o.source, o.id)};
    }
  }

  lemma StepCounted(net: Net, step: Step, k: nat)
    requires NetInv(net) && Enabled(net, step) && Counted(net, k)
    ensures Counted(Apply(net, step), k + if step.Originate? then 1 else 0) && |Apply(net, step).nodes| == |net.nodes|
  {
    hide NetInv, NodeInv, Accepted, NextHistories, Decode, Encode, Canonical, AckFor, WellFormed, Buildable, Transmits,
        Sized, PayloadSize, Keys, Plain, Answers;
    match step
    case Originate(i, p) =>
      WellFormedSizes(p);
      OneMoreKey(net.origins, Canonical(p));
    case Deliver(i, frame, rx) =>
      FrameParsed(net, frame);
      var n, p := net.nodes[i], Decode(frame).value;
      AnswersChange(net.nodes, i, Receive(n, p, rx));
      assert net.origins + {} == net.origins;
      if AckDue(n, p, rx) && Sendable(AckFor(p, n.name, rx.ackId)) {
        OneMoreKey(net.origins, Canonical(AckFor(p, n.name, rx.ackId)));
        AckKind(p, n.name, rx.ackId);
      }
    case Learn(i, source, id, now, victim) =>
      AnswersChange(net.nodes, i, Offered(net.nodes[i], source, id, now, victim).0);
    case Forward(i, j) =>
      AnswersChange(net.nodes, i, Work(net.nodes[i], j));
  }

  lemma AckKind(p: Packet, local: Text, id: uint32)
    requires Sendable(AckFor(p, local, id))
    ensures Canonical(AckFor(p, local, id)).kind == ACK
  {
  }

  lemma {:induction false} RunCounted(net: Net, steps: seq<Step>, net': Net, k: nat)
    requires NetInv(net) && Reaches(net, steps, net') && Counted(net, k)
    ensures Counted(net', k + Originations(steps)) && |net'.nodes| == |net.nodes|
    decreases |steps|
  {
    hide NetInv, Counted, Enabled, Apply;
    if steps != [] {
      StepKeeps(net, steps[0]);
      StepCounted(net, steps[0], k);
      RunCounted(Apply(net, steps[0]), steps[1..], net', k + if steps[0].Originate? then 1 else 0);
    }
  }

  /** Relaying ends: as long as the ids of each source lie in half a turn of the counter, every node
      sends each message on at most once and acknowledges it at most once, however often the medium
      repeats its frames; so the forward workers of n nodes send at most n * (n + 1) frames for other
      sources per packet that was originated. */
  lemma FloodEnds(base: Text -> uint32, net: Net, steps: seq<Step>, net': Net)
    requires Start(net) && Reaches(net, steps, net') && RunNear(base, net, steps)
    ensures forall i :: 0 <= i < |net'.nodes| ==> DistinctIds(net'.nodes[i].name, net'.nodes[i].sent)
    ensures |net'.nodes| == |net.nodes|
    ensures Relays(net'.nodes) <= |net.nodes| * ((|net.nodes| + 1) * Originations(steps))
  {
    hide NetInv, Reaches, RunNear, NodeNear, NoFullTurn, DistinctIds, Relays, Answers, Keys, Plain, Near, Clean,
        Originations, AllBacked, NoTwins, NodeInv;
    StartInv(net);
    StartNear(base, net);
    StartCounted(net);
    RunKeeps(net, steps, net');
    RunKeepsNear(base, net, steps, net');
    RunCounted(net, steps, net', 0);
    forall i | 0 <= i < |net'.nodes|
      ensures NoFullTurn(net'.nodes[i]) && DistinctIds(net'.nodes[i].name, net'.nodes[i].sent)
    {
      NearIsOneTurn(base, net'.nodes[i]);
      InvOf(net', i);
      JobParts(net'.nodes[i]);
      JobsDistinct(net'.nodes[i], net'.nodes[i].sent);
    }
    RelaysBounded(net', |net'.nodes|);
    assert net'.nodes[..|net'.nodes|] == net'.nodes;
    Multiply(|net.nodes|, |Keys(Plain(net'.origins))|, Originations(steps), Answers(net'.nodes), |Keys(net'.origins)|,
        Relays(net'.nodes));
  }

  lemma Multiply(n: nat, plain: nat, k: nat, answers: nat, keys: nat, relays: nat)
    requires plain <= k && answers <= n * plain && keys <= k + answers && relays <= n * keys
    ensures relays <= n * ((n + 1) * k)
  {
    MulMonotone(n, plain, k);
    assert keys <= (n + 1) * k;
    MulMonotone(n, keys, (n + 1) * k);
  }

  lemma StartNear(base: Text -> uint32, net: Net)
    requires Start(net)
    ensures NetNear(base, net)
  {
  }

  lemma StartCounted(net: Net)
    requires Start(net)
    ensures Counted(net, 0)
  {
    assert Keys({}) == {} && Plain({}) == {};
  }
}
