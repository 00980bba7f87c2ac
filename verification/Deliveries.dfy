/** The network and the scheduler of one of its nodes together. */
module Deliveries {
  import opened CText
  import opened V2Packet
  import opened V2Codec
  import TxScheduler
  import Scheduling = NodeRuns
  import Visiting = NodeVisits
  import Outcomes = NodeOutcomes
  import opened Relay
  import opened Flood
  import opened FloodRuns
  import opened Acks

  /** lora_handle_rx_packet at `local` has a reason to call tx_scheduler_acknowledge: a frame on the air that
      it takes for an acknowledgement of this id from this sender. */
  ghost predicate Justified(air: set<seq<byte>>, local: Text, id: uint32, sender: Text) {
    exists frame, q :: frame in air && ParsesTo(frame, q) && Told(q, local, id, sender)
  }

  predicate Told(q: Packet, local: Text, id: uint32, sender: Text) {
    |q.payload| == PAYLOAD_LEN && AckTold(q, local) && Word(q.payload, 0) == id && q.source == sender
  }

  /** The scheduler is told of acknowledgements by the handler only. */
  ghost predicate FromTheAir(steps: seq<Scheduling.Step>, air: set<seq<byte>>, local: Text) {
    forall k :: 0 <= k < |steps| && steps[k].Acknowledge? ==> Justified(air, local, steps[k].id, steps[k].sender)
  }

  /** In every run of the network no such step is taken. */
  lemma NoneAcknowledged(net: Net, moves: seq<Step>, net': Net, local: Text, steps: seq<Scheduling.Step>)
    requires Start(net) && Reaches(net, moves, net') && forall k :: 0 <= k < |moves| ==> NoForgedAck(moves[k])
    requires FromTheAir(steps, net'.air, local)
    ensures forall k :: 0 <= k < |steps| ==> !steps[k].Acknowledge?
  {
    hide Start, Reaches, Decode, AckTold, NoForgedAck;
    forall k | 0 <= k < |steps|
      ensures !steps[k].Acknowledge?
    {
      if steps[k].Acknowledge? {
        var frame, q :| frame in net'.air && ParsesTo(frame, q) && Told(q, local, steps[k].id, steps[k].sender);
        NoAckEverTold(net, moves, net', frame, local);
      }
    }
  }

  /** So no message that a node of the network sends is ever delivered, as far as the node knows: an entry of
      its scheduler that has had all its visits, in a run without a reboot, has failed. */
  lemma NothingDelivered(net: Net, moves: seq<Step>, net': Net, local: Text,
                         n: Scheduling.Node, steps: seq<Scheduling.Step>, n': Scheduling.Node, serial: nat)
      returns (k: nat, mid: Scheduling.Node)
    requires Start(net) && Reaches(net, moves, net') && forall k :: 0 <= k < |moves| ==> NoForgedAck(moves[k])
    requires FromTheAir(steps, net'.air, local) && forall i :: 0 <= i < |steps| ==> !steps[i].Reboot?
    requires Scheduling.Inv(n) && Scheduling.Run(n, steps, n') && serial <= n.core.born
    requires Scheduling.EntryOf(n, serial) != TxScheduler.None
    requires Visiting.DueVisits(n, steps, serial) == Visiting.LeftOf(n, serial)
    ensures k <= |steps| && Scheduling.Run(n, steps[..k], mid) && Outcomes.FailedEntry(mid, serial)
  {
    hide Start, Reaches, FromTheAir, Scheduling.Inv, Scheduling.Run, Scheduling.EntryOf, Visiting.DueVisits;
    NoneAcknowledged(net, moves, net', local, steps);
    k, mid := Outcomes.AllFail(n, steps, n', serial);
  }
}
