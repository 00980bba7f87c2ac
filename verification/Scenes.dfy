/** Small networks and packets, for runs that show what the theorems rule out or need. */
module Scenes {
  import opened CText
  import opened V2Packet
  import opened V2Codec
  import opened ReplayWindow
  import opened ReplayTable
  import opened Relay
  import opened Flood
  import opened FloodRuns

  /** A message without payload and with one hop left, as its source sends it. */
  function Sample(source: Text, destination: Text, id: uint32): Packet {
    Packet(true, id, 1, 1, destination == ALL, source, destination, FLOOD, NORMAL, source, [], [], NOWHERE,
      ThreadKey(destination == ALL, destination, source), Padded([]), 0)
  }

  predicate ProperName(name: Text) {
    Clean(name) && name != []
  }

  lemma SampleSent(source: Text, destination: Text, id: uint32)
    requires ProperName(source) && ProperName(destination)
    ensures var p := Sample(source, destination, id);
      WellFormed(p) && Canonical(p) == p && Buildable(p, PACKET_LEN) && IsWireForm(Encode(p), p)
          && ParsesTo(Encode(p), p)
  {
    hide CStr, EncodeLocation, CopyField, Clean, Encode, Decode;
    CleanIsName(source);
    CleanIsName(destination);
    PlainNowhere();
    SampleParts(source, destination, id);
    hide Padded, Sample;
    RoundTrip(Sample(source, destination, id));
  }

  lemma SampleParts(source: Text, destination: Text, id: uint32)
    ensures var p := Sample(source, destination, id);
      && p.source == source && p.destination == destination && p.relay == source && p.id == id && p.hops == 1
          && p.kind == FLOOD
      && p.nextHop == [] && p.location == NOWHERE && p.locationRaw == [] && |p.payload| == PAYLOAD_LEN
          && PayloadSize(p) == 0 && p.pathHops == 1
      && Padded(p.payload[..0]) == p.payload && p.payloadLen == 0 && p.valid && p.broadcast == (destination == ALL)
      && p.threadKey == ThreadKey(destination == ALL, destination, source)
  {
    PaddedFront([]);
    assert Padded([])[..0] == [];
  }

  lemma SampleRelays(source: Text, destination: Text, id: uint32, local: Text)
    requires ProperName(source) && ProperName(destination) && ProperName(local)
    ensures Buildable(Relayed(Job(Sample(source, destination, id), false, [], 0), local), PACKET_LEN)
  {
    hide CStr, EncodeLocation, Clean, CopyField;
    StoredIffClean(local);
    CleanIsName(source);
    CleanIsName(destination);
    CleanIsName(local);
    SampleParts(source, destination, id);
    hide Sample, Padded;
  }

  function NewNode(name: Text): Node {
    Node(name, seq(SOURCES, _ => Source(false, [], Window.First(0), 0)), map[], [], [], [])
  }

  /** Two nodes that have just been switched on. */
  function Pair(a: Text, b: Text): Net {
    Net([NewNode(a), NewNode(b)], {}, {})
  }

  lemma PairStarts(a: Text, b: Text)
    requires ProperName(a) && ProperName(b)
    ensures Start(Pair(a, b))
  {
    hide Clean;
  }

  /** A reception by a node with room and without routes. */
  const PLAIN_RX := Rx(0, 0, false, [], true, 0, false, [], true)

  lemma {:induction false} ReachesThen(a: Net, first: seq<Step>, b: Net, then_: seq<Step>, c: Net)
    requires Reaches(a, first, b) && Reaches(b, then_, c)
    ensures Reaches(a, first + then_, c)
    decreases |first|
  {
    hide Enabled, Apply;
    if first == [] {
      assert [] + then_ == then_;
    } else {
      assert (first + then_)[1..] == first[1..] + then_;
      ReachesThen(Apply(a, first[0]), first[1..], b, then_, c);
    }
  }

  lemma OneStep(net: Net, step: Step)
    requires Enabled(net, step)
    ensures Reaches(net, [step], Apply(net, step))
  {
    hide Enabled, Apply;
    assert [step][1..] == [];
  }

  /** Node 0 of a pair sends its message. */
  lemma SampleOriginates(net: Net, source: Text, destination: Text, id: uint32) returns (step: Step, net': Net)
    requires NetInv(net) && |net.nodes| > 0 && net.nodes[0].name == source && ProperName(source)
        && ProperName(destination)
    ensures step == Originate(0, Sample(source, destination, id)) && Reaches(net, [step], net') && NetInv(net')
        && net'.nodes == net.nodes && net.air <= net'.air
    ensures exists f <- net'.air :: ParsesTo(f, Sample(source, destination, id))
    ensures net.origins <= net'.origins
  {
    hide NetInv, Encode, Decode, WellFormed, Canonical, Buildable, Clean, Sample, Sized, PayloadSize;
    SampleSent(source, destination, id);
    SampleParts(source, destination, id);
    var p := Sample(source, destination, id);
    step := Originate(0, p);
    net' := Apply(net, step);
    StepKeeps(net, step);
    OneStep(net, step);
    assert Encode(p) in net'.air;
  }
}
