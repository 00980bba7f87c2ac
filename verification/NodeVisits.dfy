/** How often the scheduler has to visit an entry before its message is finished. */
module NodeVisits {
  import opened CText
  import opened MessageStore
  import opened TxScheduler
  import opened NodeRuns

  /** Does the step deal with entry `i`, and is that entry due? */
  ghost predicate VisitsAt(n: Node, step: Step, i: nat)
    requires n.core.Shape() && i < MAX_MESSAGES
  {
    var e := n.core.entries[i];
    match step
    case Timeout(j, now, _) => j == i && !Sendable(e) && e.due <= now
    case Begin(j, _, _, now, _) => j == i && Sendable(e) && e.due <= now
    case _ => false
  }

  ghost predicate Visits(n: Node, step: Step, serial: nat)
    requires n.core.Shape()
  {
    exists i :: 0 <= i < MAX_MESSAGES && n.core.entries[i].active && n.core.entries[i].serial == serial
        && VisitsAt(n, step, i)
  }

  /** How many steps of a run visit the entry with this serial when it is due. */
  ghost function DueVisits(n: Node, steps: seq<Step>, serial: nat): nat
    decreases |steps|
  {
    if steps == [] || !n.core.Shape() || !Enabled(n, steps[0]) then 0
    else DueVisits(Next(n, steps[0]), steps[1..], serial) + if Visits(n, steps[0], serial) then 1 else 0
  }

  /** How many visits an entry has left at most: two for each attempt, one of them behind it once the
      packet is out, and one to give it up. */
  function Left(e: Entry): nat {
    if !e.active then 0
    else if e.attempts >= MAX_ATTEMPTS then 1
    else if Sendable(e) then 2 * (MAX_ATTEMPTS - e.attempts)
    else 2 * (MAX_ATTEMPTS - e.attempts) + 1
  }

  ghost function LeftOf(n: Node, serial: nat): nat {
    if EntryOf(n, serial) == None then 0 else Left(EntryOf(n, serial).value)
  }

  /** The position of an entry that is still active. */
  lemma EntryPlace(n: Node, serial: nat) returns (i: nat)
    requires Inv(n) && EntryOf(n, serial) != None
    ensures i < MAX_MESSAGES && n.core.entries[i].active && n.core.entries[i].serial == serial
  {
    hide FindFirst;
    i := FindFirst(n.core.entries, HasSerial(serial));
    assert HasSerial(serial)(n.core.entries[i]);
  }

  /** What a step does to the visits an entry has left. */
  predicate Spent(e: Entry, e': Entry, visited: bool) {
    Left(e') + (if visited then 1 else 0) <= Left(e) && e'.serial == e.serial
  }

  lemma TimeoutSpends(core: Core, i: nat, now: nat, nvsOk: bool, j: nat)
    requires core.Shape() && i < MAX_MESSAGES && j < MAX_MESSAGES && core.entries[j].active && Live(core.entries[j])
    requires core.entries[j].state != TxSubmitting
    ensures Spent(core.entries[j], core.Timeout(i, now, nvsOk).entries[j],
              i == j && !Sendable(core.entries[j]) && core.entries[j].due <= now)
  {
    hide Store.Update;
  }

  lemma BeginSpends(core: Core, i: nat, buildOk: bool, random: uint32, now: nat, nvsOk: bool, j: nat)
    requires core.Shape() && i < MAX_MESSAGES && j < MAX_MESSAGES && core.entries[j].active && Live(core.entries[j])
    ensures Spent(core.entries[j], core.SendBegin(i, buildOk, random, now, nvsOk).0.entries[j],
              i == j && Sendable(core.entries[j]) && core.entries[j].due <= now)
  {
    hide Store.Update;
  }

  lemma EndSpends(core: Core, t: Ticket, submitted: bool, now: nat, nvsOk: bool, j: nat)
    requires core.Shape() && j < MAX_MESSAGES && core.entries[j].active
    ensures Spent(core.entries[j], core.SendEnd(t, submitted, now, nvsOk).entries[j], false)
  {
    hide Store.Update, FindFirst;
  }

  lemma RadioSpends(core: Core, id: uint32, request: uint32, outcome: RadioOutcome, now: nat, nvsOk: bool, j: nat)
    requires core.Shape() && j < MAX_MESSAGES && core.entries[j].active
    ensures Spent(core.entries[j], core.RadioResult(id, request, outcome, now, nvsOk).entries[j], false)
  {
    hide Store.Update, FindFirst;
  }

  lemma AcknowledgeSpends(core: Core, id: uint32, sender: Text, nvsOk: bool, j: nat)
    requires core.Shape() && j < MAX_MESSAGES && core.entries[j].active
    ensures Spent(core.entries[j], core.Acknowledge(id, sender, nvsOk).0.entries[j], false)
  {
    hide Store.Update, FindFirst;
  }

  /** No step gives an entry more visits, and a visit takes one. */
  lemma StepSpendsVisit(n: Node, step: Step, i: nat)
    requires Inv(n) && Enabled(n, step) && !step.Submit? && !step.Reboot?
    requires i < MAX_MESSAGES && n.core.entries[i].active
    ensures |Next(n, step).core.entries| == MAX_MESSAGES
    ensures Spent(n.core.entries[i], Next(n, step).core.entries[i], VisitsAt(n, step, i))
  {
    hide Inv, FindFirst, Core.SendBegin, Core.Timeout, Core.SendEnd, Core.RadioResult, Core.Acknowledge;
    hide Store.Update, Store.Write, Allocated, Reserved, Spent, Live;
    InvParts(n);
    StepKeepsInv(n, step);
    InvParts(Next(n, step));
    ActiveIsLive(n, i);
    Unchanged(n.core.entries[i]);
    match step
    case Reserve(_, _) =>
    case StoreTx(_, _, _) =>
    case StoreRx(_, _, _) =>
    case Timeout(j, now, nvsOk) =>
      NotSubmitting(n, i);
      TimeoutSpends(n.core, j, now, nvsOk, i);
    case Begin(j, buildOk, random, now, nvsOk) => BeginSpends(n.core, j, buildOk, random, now, nvsOk, i);
    case End(submitted, now, nvsOk) => EndSpends(n.core, n.ticket.value, submitted, now, nvsOk, i);
    case Radio(id, request, outcome, now, nvsOk) => RadioSpends(n.core, id, request, outcome, now, nvsOk, i);
    case Acknowledge(id, sender, nvsOk) => AcknowledgeSpends(n.core, id, sender, nvsOk, i);
  }

  lemma Unchanged(e: Entry)
    ensures Spent(e, e, false)
  {
  }

  /** Without a ticket out no entry is being submitted. */
  lemma NotSubmitting(n: Node, i: nat)
    requires Inv(n) && n.ticket == None && i < MAX_MESSAGES && n.core.entries[i].active
    ensures n.core.entries[i].state != TxSubmitting
  {
  }

  /** The entry of a serial stays where it is, or there is none any more. */
  lemma StaysPut(n: Node, n': Node, serial: nat, i: nat)
    requires Inv(n) && Inv(n') && Burns(n.core.entries, n'.core.entries)
    requires i < MAX_MESSAGES && n.core.entries[i].active && n.core.entries[i].serial == serial
    ensures |n'.core.entries| == MAX_MESSAGES
    ensures EntryOf(n', serial) == if n'.core.entries[i].active then Some(n'.core.entries[i]) else None
  {
    hide Inv, EntryOf, SameMessage, Fuel;
    InvParts(n);
    InvParts(n');
    if n'.core.entries[i].active {
      EntryAt(n', serial, i);
    } else {
      NoEntry(n', serial);
    }
  }

  lemma StepLeft(n: Node, step: Step, serial: nat)
    requires Inv(n) && Enabled(n, step) && !step.Reboot? && serial <= n.core.born
    ensures LeftOf(Next(n, step), serial) + (if Visits(n, step, serial) then 1 else 0) <= LeftOf(n, serial)
  {
    hide Inv, EntryOf, Next, Enabled, Left, VisitsAt;
    InvParts(n);
    StepKeepsInv(n, step);
    if EntryOf(n, serial) == None {
      StepSpends(n, step, serial);
      NotVisited(n, step, serial);
      FuelBounds(Next(n, step), serial);
    } else {
      var i := EntryPlace(n, serial);
      EntryAt(n, serial, i);
      VisitedThere(n, step, serial, i);
      if step.Submit? {
        SubmitSpendsNothing(n, step.slot, step.now, step.nvsOk, serial);
      } else {
        StepBurns(n, step);
        StepSpendsVisit(n, step, i);
        StaysPut(n, Next(n, step), serial, i);
        InactiveLeft(Next(n, step).core.entries[i]);
      }
    }
  }

  lemma InactiveLeft(e: Entry)
    ensures !e.active ==> Left(e) == 0
  {
  }

  lemma NotVisited(n: Node, step: Step, serial: nat)
    requires Inv(n) && EntryOf(n, serial) == None
    ensures !Visits(n, step, serial)
  {
    hide EntryOf, EntryOk;
    if i :| 0 <= i < MAX_MESSAGES && n.core.entries[i].active && n.core.entries[i].serial == serial {
      EntryAt(n, serial, i);
    }
  }

  /** A visit to a serial is a visit to its one entry. */
  lemma VisitedThere(n: Node, step: Step, serial: nat, i: nat)
    requires Inv(n) && i < MAX_MESSAGES && n.core.entries[i].active && n.core.entries[i].serial == serial
    ensures Visits(n, step, serial) <==> VisitsAt(n, step, i)
    ensures step.Submit? ==> !Visits(n, step, serial)
  {
    hide EntryOk;
  }

  lemma {:induction false} VisitsRunOut(n: Node, steps: seq<Step>, n': Node, serial: nat)
    requires Inv(n) && Run(n, steps, n') && serial <= n.core.born
    requires forall i :: 0 <= i < |steps| ==> !steps[i].Reboot?
    ensures DueVisits(n, steps, serial) + LeftOf(n', serial) <= LeftOf(n, serial)
    decreases |steps|
  {
    hide Inv, LeftOf, Visits, Next, Enabled;
    if steps != [] {
      StepKeepsInv(n, steps[0]);
      StepLeft(n, steps[0], serial);
      BornGrows(n, steps[0]);
      VisitsRunOut(Next(n, steps[0]), steps[1..], n', serial);
    }
  }

  lemma BornGrows(n: Node, step: Step)
    requires Inv(n) && Enabled(n, step) && !step.Reboot?
    ensures n.core.born <= Next(n, step).core.born
  {
    hide Inv, Next;
    InvParts(n);
    if step.Submit? {
      SubmitSpendsNothing(n, step.slot, step.now, step.nvsOk, n.core.born);
    } else {
      BornKept(n, step);
    }
  }

  lemma LeftBounds(n: Node, serial: nat)
    requires Inv(n)
    ensures LeftOf(n, serial) <= 7 && (LeftOf(n, serial) == 0 <==> EntryOf(n, serial) == None)
  {
    hide EntryOf;
    if EntryOf(n, serial) != None {
      var i := EntryPlace(n, serial);
      EntryAt(n, serial, i);
    }
  }

  /** Every message is finished in time: between reboots, whatever else runs in between and whatever every
      step comes to, an entry is visited when due at most as often as it has visits left, never more than
      seven times; and when it has been, it is no longer active. */
  lemma FinishedInTime(n: Node, steps: seq<Step>, n': Node, serial: nat)
    requires Inv(n) && Run(n, steps, n') && serial <= n.core.born
    requires forall i :: 0 <= i < |steps| ==> !steps[i].Reboot?
    ensures DueVisits(n, steps, serial) <= LeftOf(n, serial) <= 7
    ensures DueVisits(n, steps, serial) == LeftOf(n, serial) ==> EntryOf(n', serial) == None
  {
    hide Inv, EntryOf, Run, DueVisits, LeftOf;
    VisitsRunOut(n, steps, n', serial);
    RunKeepsInv(n, steps, n');
    LeftBounds(n, serial);
    LeftBounds(n', serial);
  }
}
