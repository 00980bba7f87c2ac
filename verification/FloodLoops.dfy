/** The converse of the bound on relaying: ids that fit in no half turn are relayed without end. */
module FloodLoops {
  import opened CText
  import opened V2Packet
  import opened V2Codec
  import opened ReplayWindow
  import opened ReplayTable
  import opened Relay
  import opened Flood
  import opened FloodRuns
  import opened FloodBounds
  import opened Scenes

  /** No half turn, its ends included, holds all the ids. */
  ghost predicate NoHalfTurn(ids: seq<uint32>) {
    forall base: uint32 :: !InHalfTurn(ids, base)
  }

  ghost predicate InHalfTurn(ids: seq<uint32>, base: uint32) {
    forall k :: 0 <= k < |ids| ==> Minus(ids[k], base) <= HALF
  }

  /** Then every one of them has a newer one among them. */
  lemma AlwaysNewer(ids: seq<uint32>, x: uint32) returns (k: nat)
    requires NoHalfTurn(ids)
    ensures k < |ids| && Newer(ids[k], x)
  {
    var base: uint32 := (x + HALF) % MODULUS;
    assert !InHalfTurn(ids, base);
    k :| 0 <= k < |ids| && Minus(ids[k], base) > HALF;
    BeyondHalf(ids[k], x);
  }

  lemma BeyondHalf(s: uint32, x: uint32)
    requires Minus(s, (x + HALF) % MODULUS) > HALF
    ensures Newer(s, x)
  {
    var base := if x < HALF then x + HALF else x - HALF;
    assert Minus(s, base) == if s >= base then s - base else s - base + MODULUS;
    assert Minus(s, x) == if s >= x then s - x else s - x + MODULUS;
  }

  lemma NewerIsFresh(h: History, s: uint32)
    requires Newer(s, h.highest % MODULUS)
    ensures h.Fresh(s) && h.Accept(s).highest % MODULUS == s
  {
    hide Minus, History.Lift;
    SubIsDistance(h, s);
    LiftWraps(h, s);
  }

  /** Node 1 knows the source by one of the ids, and a frame of each id is on the air. */
  ghost predicate Looping(net: Net, a: Text, b: Text, ids: seq<uint32>) {
    && NetInv(net) && |net.nodes| == 2 && net.nodes[1].name == b
    && a in net.nodes[1].known && (exists k :: 0 <= k < |ids| && net.nodes[1].known[a].highest % MODULUS == ids[k])
    && OnAir(net, a, ids)
    && forall j :: 0 <= j < |net.nodes[1].sent| ==> net.nodes[1].sent[j].packet.source == a
  }

  ghost predicate OnAir(net: Net, a: Text, ids: seq<uint32>) {
    forall k :: 0 <= k < |ids| ==> Heard(net, a, ids[k])
  }

  ghost predicate Heard(net: Net, a: Text, id: uint32) {
    exists f <- net.air :: ParsesTo(f, Sample(a, ALL, id))
  }

  lemma AllNamed()
    ensures ProperName(ALL)
  {
  }

  /** The frame of a fresh id is relayed once more. */
  lemma OneRelay(net: Net, a: Text, b: Text, ids: seq<uint32>, k: nat) returns (steps: seq<Step>, net': Net)
    requires ProperName(a) && ProperName(b) && a != b && b != ALL && NetInv(net) && |net.nodes| == 2
        && net.nodes[1].name == b && OnAir(net, a, ids)
    requires k < |ids| && Fresh(net.nodes[1].known, a, ids[k]) && Retained(net.nodes[1], a, 0)
    ensures Reaches(net, steps, net') && NetInv(net') && |net'.nodes| == 2 && net'.nodes[1].name == b
        && OnAir(net', a, ids)
    ensures |net'.nodes[1].sent| == |net.nodes[1].sent| + 1
        && net'.nodes[1].sent[..|net.nodes[1].sent|] == net.nodes[1].sent
    ensures net'.nodes[1].sent[|net.nodes[1].sent|].packet.source == a && Originations(steps) == 0
    ensures net'.nodes[1].known == NextHistories(net.nodes[1].table, net.nodes[1].known, a, ids[k], 0)
  {
    hide NetInv, Decode, Encode, Buildable, Relayed, Sample, Clean, History.Fresh, NextHistories;
    assert Heard(net, a, ids[k]);
    var frame :| frame in net.air && ParsesTo(frame, Sample(a, ALL, ids[k]));
    AllNamed();
    SampleParts(a, ALL, ids[k]);
    SampleRelays(a, ALL, ids[k], b);
    var job;
    job, net' := HeardIsRelayed(net, 1, frame, Sample(a, ALL, ids[k]), PLAIN_RX);
    steps := [Deliver(1, frame, PLAIN_RX), Forward(1, |net.nodes[1].queue|)];
    NoOriginations(steps);
    forall j | 0 <= j < |ids|
      ensures Heard(net', a, ids[j])
    {
      assert Heard(net, a, ids[j]);
    }
  }

  lemma {:induction false} NoOriginations(steps: seq<Step>)
    requires forall i :: 0 <= i < |steps| ==> !steps[i].Originate?
    ensures Originations(steps) == 0
  {
    if steps != [] {
      NoOriginations(steps[1..]);
    }
  }

  lemma {:induction false} OriginationsJoin(a: seq<Step>, b: seq<Step>)
    ensures Originations(a + b) == Originations(a) + Originations(b)
  {
    if a == [] {
      assert [] + b == b;
    } else {
      assert (a + b)[1..] == a[1..] + b;
      OriginationsJoin(a[1..], b);
    }
  }

  /** One more turn: some id is newer than the highest, so its frame is relayed again. */
  lemma LoopTurn(net: Net, a: Text, b: Text, ids: seq<uint32>) returns (steps: seq<Step>, net': Net)
    requires ProperName(a) && ProperName(b) && a != b && b != ALL && NoHalfTurn(ids) && Looping(net, a, b, ids)
    ensures Reaches(net, steps, net') && Looping(net', a, b, ids) && Originations(steps) == 0
    ensures |net'.nodes[1].sent| == |net.nodes[1].sent| + 1
  {
    hide NetInv, Reaches, Clean, OnAir, NoHalfTurn, History.Fresh, History.Accept;
    var h := net.nodes[1].known[a];
    var k := AlwaysNewer(ids, h.highest % MODULUS);
    NewerIsFresh(h, ids[k]);
    steps, net' := OneRelay(net, a, b, ids, k);
    assert net'.nodes[1].known[a] == h.Accept(ids[k]);
    var n := |net.nodes[1].sent|;
    assert forall j :: 0 <= j < n ==> net'.nodes[1].sent[j] == net'.nodes[1].sent[..n][j];
  }

  lemma {:induction false} LoopTurns(net: Net, a: Text, b: Text, ids: seq<uint32>, n: nat)
      returns (steps: seq<Step>, net': Net)
    requires ProperName(a) && ProperName(b) && a != b && b != ALL && NoHalfTurn(ids) && Looping(net, a, b, ids)
    ensures Reaches(net, steps, net') && Looping(net', a, b, ids) && Originations(steps) == 0
    ensures |net'.nodes[1].sent| == |net.nodes[1].sent| + n
    decreases n
  {
    hide Looping, NoHalfTurn, Originations, Clean;
    steps, net' := [], net;
    NoOriginations([]);
    if n > 0 {
      var first, mid := LoopTurn(net, a, b, ids);
      assert |net.nodes| == 2 && |mid.nodes| == 2 by { TwoNodes(net, a, b, ids); TwoNodes(mid, a, b, ids); }
      var more;
      more, net' := LoopTurns(mid, a, b, ids, n - 1);
      steps := first + more;
      ReachesThen(net, first, mid, more, net');
      OriginationsJoin(first, more);
    }
  }

  lemma TwoNodes(net: Net, a: Text, b: Text, ids: seq<uint32>)
    requires Looping(net, a, b, ids)
    ensures |net.nodes| == 2
  {
  }

  /** The source sends one frame of each of the first `n` ids. */
  lemma {:induction false} OriginateAll(a: Text, b: Text, ids: seq<uint32>, n: nat) returns (steps: seq<Step>, net: Net)
    requires ProperName(a) && ProperName(b) && n <= |ids|
    ensures Reaches(Pair(a, b), steps, net) && NetInv(net) && net.nodes == Pair(a, b).nodes && OnAir(net, a, ids[..n])
    ensures Originations(steps) == n
    decreases n
  {
    hide NetInv, Enabled, Apply, Sample, Decode, Clean, Originations;
    AllNamed();
    if n == 0 {
      PairStarts(a, b);
      StartInv(Pair(a, b));
      steps, net := [], Pair(a, b);
      NoOriginations([]);
    } else {
      var before;
      steps, before := OriginateAll(a, b, ids, n - 1);
      var step;
      step, net := SampleOriginates(before, a, ALL, ids[n - 1]);
      ReachesThen(Pair(a, b), steps, before, [step], net);
      OriginationsJoin(steps, [step]);
      OneOrigination(step);
      steps := steps + [step];
      forall k | 0 <= k < n
        ensures Heard(net, a, ids[..n][k])
      {
        if k < n - 1 {
          assert Heard(before, a, ids[..n - 1][k]);
        }
      }
    }
  }

  lemma OneOrigination(step: Step)
    requires step.Originate?
    ensures Originations([step]) == 1
  {
    assert [step][1..] == [];
  }

  /** Relaying without end: two nodes, one frame for each of some ids that fit in no half turn, and the
      second node sends as many frames on as one likes, while nothing new is originated. */
  lemma FloodNeverEnds(a: Text, b: Text, ids: seq<uint32>, n: nat) returns (steps: seq<Step>, net: Net)
    requires ProperName(a) && ProperName(b) && a != b && b != ALL && NoHalfTurn(ids)
    ensures Start(Pair(a, b)) && Reaches(Pair(a, b), steps, net)
    ensures Originations(steps) == |ids| && Relays(net.nodes) > n
  {
    hide NetInv, Reaches, Clean, Originations, NoHalfTurn, Relays, OnAir;
    PairStarts(a, b);
    assert |ids| > 0 by { var k := AlwaysNewer(ids, 0); }
    var sending, sent := OriginateAll(a, b, ids, |ids|);
    assert ids[..|ids|] == ids;
    var first, heard := OneRelay(sent, a, b, ids, 0);
    assert heard.nodes[1].known[a] == History.First(ids[0]);
    assert Looping(heard, a, b, ids);
    var turns;
    turns, net := LoopTurns(heard, a, b, ids, n);
    ReachesThen(Pair(a, b), sending, sent, first, heard);
    ReachesThen(Pair(a, b), sending + first, heard, turns, net);
    OriginationsJoin(sending, first);
    OriginationsJoin(sending + first, turns);
    steps := sending + first + turns;
    SecondCounts(net.nodes, a, b);
  }

  lemma SecondCounts(nodes: seq<Node>, a: Text, b: Text)
    requires |nodes| == 2 && nodes[1].name == b && a != b
    requires forall j :: 0 <= j < |nodes[1].sent| ==> nodes[1].sent[j].packet.source == a
    ensures Relays(nodes) >= |nodes[1].sent|
  {
    AllForeign(b, nodes[1].sent);
  }

  /** Three ids can be enough. */
  lemma ThreeIds()
    ensures NoHalfTurn([0, 0x7FFF_FFFF, 0xFFFF_FFFE])
  {
    var ids: seq<uint32> := [0, 0x7FFF_FFFF, 0xFFFF_FFFE];
    forall base: uint32
      ensures !InHalfTurn(ids, base)
    {
      var k := if base == 0 then 2 else if base < 0x7FFF_FFFF then 0 else if base == 0x7FFF_FFFF then 0
          else if base == 0xFFFF_FFFF then 2 else 1;
      assert Minus(ids[k], base) == if ids[k] >= base then ids[k] - base else ids[k] - base + MODULUS;
      assert Minus(ids[k], base) > HALF;
    }
  }
}
