/** How messages end while no acknowledgement reaches the scheduler. */
module NodeOutcomes {
  import opened CText
  import opened MessageStore
  import opened TxScheduler
  import opened NodeRuns
  import opened NodeVisits

  predicate HasFailed(e: Entry) {
    !e.active && e.state in {TxFailedRadio, TxFailedQueue, TxFailedTimeout}
  }

  predicate FailsOrStays(e: Entry, e': Entry) {
    (e'.active || HasFailed(e')) && e'.serial == e.serial
  }

  /** A step that ends an entry, and is not its acknowledgement, ends it as failed. */
  lemma EndsFailed(n: Node, step: Step, j: nat)
    requires Inv(n) && Enabled(n, step) && !step.Acknowledge? && !step.Submit? && !step.Reboot?
    requires j < MAX_MESSAGES && n.core.entries[j].active
    ensures |Next(n, step).core.entries| == MAX_MESSAGES
    ensures FailsOrStays(n.core.entries[j], Next(n, step).core.entries[j])
  {
    hide Inv, FindFirst, Core.SendBegin, Core.Timeout, Core.SendEnd, Core.RadioResult, Store.Update, Store.Write,
        Allocated, Reserved;
    InvParts(n);
    StepKeepsInv(n, step);
    InvParts(Next(n, step));
    match step
    case Reserve(_, _) =>
    case StoreTx(_, _, _) =>
    case StoreRx(_, _, _) =>
    case Timeout(i, now, nvsOk) => TimeoutFails(n.core, i, now, nvsOk, j);
    case Begin(i, buildOk, random, now, nvsOk) => BeginFails(n.core, i, buildOk, random, now, nvsOk, j);
    case End(submitted, now, nvsOk) => EndFails(n.core, n.ticket.value, submitted, now, nvsOk, j);
    case Radio(id, request, outcome, now, nvsOk) => RadioFails(n.core, id, request, outcome, now, nvsOk, j);
  }

  lemma TimeoutFails(core: Core, i: nat, now: nat, nvsOk: bool, j: nat)
    requires core.Shape() && i < MAX_MESSAGES && j < MAX_MESSAGES && core.entries[j].active
    ensures FailsOrStays(core.entries[j], core.Timeout(i, now, nvsOk).entries[j])
  {
    hide Store.Update;
  }

  lemma BeginFails(core: Core, i: nat, buildOk: bool, random: uint32, now: nat, nvsOk: bool, j: nat)
    requires core.Shape() && i < MAX_MESSAGES && j < MAX_MESSAGES && core.entries[j].active
    ensures FailsOrStays(core.entries[j], core.SendBegin(i, buildOk, random, now, nvsOk).0.entries[j])
  {
    hide Store.Update;
  }

  lemma EndFails(core: Core, t: Ticket, submitted: bool, now: nat, nvsOk: bool, j: nat)
    requires core.Shape() && j < MAX_MESSAGES && core.entries[j].active
    ensures FailsOrStays(core.entries[j], core.SendEnd(t, submitted, now, nvsOk).entries[j])
  {
    hide Store.Update, FindFirst;
  }

  lemma RadioFails(core: Core, id: uint32, request: uint32, outcome: RadioOutcome, now: nat, nvsOk: bool, j: nat)
    requires core.Shape() && j < MAX_MESSAGES && core.entries[j].active
    ensures FailsOrStays(core.entries[j], core.RadioResult(id, request, outcome, now, nvsOk).entries[j])
  {
    hide Store.Update, FindFirst;
  }

  ghost predicate FailedEntry(n: Node, serial: nat) {
    exists i :: 0 <= i < |n.core.entries| && n.core.entries[i].serial == serial && HasFailed(n.core.entries[i])
  }

  /** A run without acknowledgements and reboots that ends an entry passes through a state in which that
      entry has failed: none ends as delivered. */
  lemma {:induction false} EndedAsFailed(n: Node, steps: seq<Step>, n': Node, serial: nat) returns (k: nat, mid: Node)
    requires Inv(n) && Run(n, steps, n') && serial <= n.core.born
    requires forall i :: 0 <= i < |steps| ==> !steps[i].Acknowledge? && !steps[i].Reboot?
    requires EntryOf(n, serial) != None && EntryOf(n', serial) == None
    ensures k <= |steps| && Run(n, steps[..k], mid) && FailedEntry(mid, serial)
    decreases |steps|
  {
    hide Inv, EntryOf, Enabled, Next;
    var step := steps[0];
    var n1 := Next(n, step);
    StepKeepsInv(n, step);
    InvParts(n1);
    assert serial <= n1.core.born by { BornGrows(n, step); }
    if EntryOf(n1, serial) != None {
      k, mid := EndedAsFailed(n1, steps[1..], n', serial);
      k := k + 1;
      assert steps[..k][1..] == steps[1..][..k - 1] && steps[..k][0] == step;
    } else {
      k, mid := 1, n1;
      assert steps[..1] == [step] && [step][1..] == [];
      OneRun(n, step);
      StepEnds(n, step, serial);
    }
  }

  lemma OneRun(n: Node, step: Step)
    requires n.core.Shape() && Enabled(n, step)
    ensures Run(n, [step], Next(n, step))
  {
    hide Enabled, Next;
    assert [step][1..] == [];
    assert Run(Next(n, step), [], Next(n, step));
  }

  lemma StepEnds(n: Node, step: Step, serial: nat)
    requires Inv(n) && Enabled(n, step) && !step.Acknowledge? && !step.Reboot? && serial <= n.core.born
    requires EntryOf(n, serial) != None && EntryOf(Next(n, step), serial) == None
    ensures FailedEntry(Next(n, step), serial)
  {
    hide EntryOf, Next;
    if step.Submit? {
      SubmitSpendsNothing(n, step.slot, step.now, step.nvsOk, serial);
    } else {
      var i := EntryPlace(n, serial);
      EndsFailed(n, step, i);
      StepKeepsInv(n, step);
      var e := Next(n, step).core.entries[i];
      if e.active {
        EntryAt(Next(n, step), serial, i);
      }
    }
  }

  /** While no acknowledgement reaches the scheduler every message fails: between reboots, an entry that the
      scheduler has visited when due as often as that entry has visits left has passed through a failed state. */
  lemma AllFail(n: Node, steps: seq<Step>, n': Node, serial: nat) returns (k: nat, mid: Node)
    requires Inv(n) && Run(n, steps, n') && serial <= n.core.born && EntryOf(n, serial) != None
    requires forall i :: 0 <= i < |steps| ==> !steps[i].Acknowledge? && !steps[i].Reboot?
    requires DueVisits(n, steps, serial) == LeftOf(n, serial)
    ensures k <= |steps| && Run(n, steps[..k], mid) && FailedEntry(mid, serial)
  {
    hide Inv, EntryOf, Run, DueVisits, LeftOf;
    FinishedInTime(n, steps, n', serial);
    k, mid := EndedAsFailed(n, steps, n', serial);
  }

  // A run that uses up all visits

  lemma {:induction false} RunThen(a: Node, first: seq<Step>, b: Node, then_: seq<Step>, c: Node)
    requires Run(a, first, b) && Run(b, then_, c)
    ensures Run(a, first + then_, c)
    ensures forall serial ::
              DueVisits(a, first + then_, serial) == DueVisits(a, first, serial) + DueVisits(b, then_, serial)
    decreases |first|
  {
    hide Enabled, Next, Visits;
    if first == [] {
      assert [] + then_ == then_;
    } else {
      assert (first + then_)[1..] == first[1..] + then_;
      RunThen(Next(a, first[0]), first[1..], b, then_, c);
    }
  }

  predicate Quiet(steps: seq<Step>) {
    forall i :: 0 <= i < |steps| ==> !steps[i].Acknowledge? && !steps[i].Reboot?
  }

  /** The entry after one more attempt without an answer. */
  predicate Attempted(e: Entry, e': Entry) {
    && e'.serial == e.serial && e'.attempts == e.attempts + 1
    && if e.attempts + 1 < MAX_ATTEMPTS then e'.active && Sendable(e') else HasFailed(e')
  }

  lemma BeginsSending(n: Node, i: nat) returns (n': Node)
    requires Inv(n) && n.ticket == None && i < MAX_MESSAGES && n.core.entries[i].active && Sendable(n.core.entries[i])
    requires n.core.entries[i].attempts < MAX_ATTEMPTS
    ensures var e, step := n.core.entries[i], Begin(i, true, 1, n.core.entries[i].due, true);
      && n.core.Shape() && Enabled(n, step) && n' == Next(n, step) && Inv(n') && VisitsAt(n, step, i)
      && n'.ticket == Some(Ticket(e.message.id, e.generation, 1)) && |n'.core.entries| == MAX_MESSAGES
      && n'.core.entries[i] == e.(state := TxSubmitting, request := 1, attempts := e.attempts + 1)
  {
    hide Inv;
    InvParts(n);
    var step := Begin(i, true, 1, n.core.entries[i].due, true);
    n' := Next(n, step);
    StepKeepsInv(n, step);
  }

  lemma EndsSending(n: Node, i: nat) returns (n': Node)
    requires Inv(n) && n.ticket != None && i < MAX_MESSAGES && |n.core.entries| == MAX_MESSAGES
    requires n.core.entries[i].state == TxSubmitting && Matches(n.core.entries[i], n.ticket.value)
    ensures var e, step := n.core.entries[i], End(true, 0, true);
      && n.core.Shape() && Enabled(n, step) && n' == Next(n, step) && Inv(n') && n'.ticket == None
      && |n'.core.entries| == MAX_MESSAGES && n'.core.entries[i] == e.(state := TxWaitingRadio, due := RADIO_TIMEOUT)
  {
    hide Inv, FindFirst;
    InvParts(n);
    DistinctOf(n);
    FindsItself(n.core.entries, i, n.ticket.value);
    n' := Next(n, End(true, 0, true));
    StepKeepsInv(n, End(true, 0, true));
  }

  lemma DistinctOf(n: Node)
    requires Inv(n)
    ensures Distinct(n.core.entries)
  {
  }

  lemma TimesOut(n: Node, i: nat) returns (n': Node)
    requires Inv(n) && n.ticket == None && i < MAX_MESSAGES && |n.core.entries| == MAX_MESSAGES
    requires n.core.entries[i].active && n.core.entries[i].state == TxWaitingRadio
    ensures var e, step := n.core.entries[i], Timeout(i, n.core.entries[i].due, true);
      && n.core.Shape() && Enabled(n, step) && n' == Next(n, step) && Inv(n') && VisitsAt(n, step, i)
      && n'.ticket == None && |n'.core.entries| == MAX_MESSAGES
      && var e' := n'.core.entries[i];
         && e'.serial == e.serial && e'.attempts == e.attempts
         && if e.attempts < MAX_ATTEMPTS then e'.active && Sendable(e') else HasFailed(e')
  {
    hide Inv, Store.Update;
    InvParts(n);
    n' := Next(n, Timeout(i, n.core.entries[i].due, true));
    StepKeepsInv(n, Timeout(i, n.core.entries[i].due, true));
  }

  /** One attempt: the packet goes to the radio, no answer comes, and the time for it runs out. */
  lemma OneAttempt(n: Node, i: nat) returns (steps: seq<Step>, n': Node)
    requires Inv(n) && n.ticket == None && i < MAX_MESSAGES && n.core.entries[i].active && Sendable(n.core.entries[i])
    requires n.core.entries[i].attempts < MAX_ATTEMPTS
    ensures |steps| == 3 && Quiet(steps) && Run(n, steps, n') && Inv(n') && n'.ticket == None
    ensures |n'.core.entries| == MAX_MESSAGES && Attempted(n.core.entries[i], n'.core.entries[i])
    ensures DueVisits(n, steps, n.core.entries[i].serial) == 2
  {
    hide Inv, Enabled, Next, VisitsAt;
    InvParts(n);
    var e := n.core.entries[i];
    var n1 := BeginsSending(n, i);
    var n2 := EndsSending(n1, i);
    n' := TimesOut(n2, i);
    var a, b, c := Begin(i, true, 1, e.due, true), End(true, 0, true), Timeout(i, RADIO_TIMEOUT, true);
    VisitedThere(n, a, e.serial, i);
    VisitedThere(n1, b, e.serial, i);
    VisitedThere(n2, c, e.serial, i);
    assert !VisitsAt(n1, b, i) by { EndIsNoVisit(n1, i); }
    steps := [a, b, c];
    assert steps[1..] == [b, c] && [b, c][1..] == [c] && [c][1..] == [];
    assert Run(n', [], n') && Run(n2, [c], n') && Run(n1, [b, c], n');
    assert DueVisits(n2, [c], e.serial) == 1;
    assert DueVisits(n1, [b, c], e.serial) == 1;
  }

  lemma EndIsNoVisit(n: Node, i: nat)
    requires n.core.Shape() && i < MAX_MESSAGES
    ensures !VisitsAt(n, End(true, 0, true), i)
  {
  }

  /** The premise of AllFail is met: a queued entry that was never sent has six visits left, and three
      attempts without an answer use them up and end it as failed. */
  lemma ThreeAttempts(n: Node, i: nat) returns (steps: seq<Step>, n': Node)
    requires Inv(n) && n.ticket == None && i < MAX_MESSAGES && n.core.entries[i].active && Sendable(n.core.entries[i])
    requires n.core.entries[i].attempts == 0
    ensures |steps| == 9 && Quiet(steps) && Run(n, steps, n')
    ensures DueVisits(n, steps, n.core.entries[i].serial) == LeftOf(n, n.core.entries[i].serial) == 6
    ensures FailedEntry(n', n.core.entries[i].serial) && EntryOf(n', n.core.entries[i].serial) == None
  {
    hide Inv, Run, DueVisits, EntryOf, Visits;
    InvParts(n);
    var serial := n.core.entries[i].serial;
    var first, n1 := OneAttempt(n, i);
    var second, n2 := OneAttempt(n1, i);
    var third;
    third, n' := OneAttempt(n2, i);
    RunThen(n, first, n1, second, n2);
    RunThen(n, first + second, n2, third, n');
    steps := first + second + third;
    EntryAt(n, serial, i);
    SerialBorn(n, i);
    FinishedInTime(n, steps, n', serial);
  }

  lemma SerialBorn(n: Node, i: nat)
    requires Inv(n) && i < MAX_MESSAGES && n.core.entries[i].active
    ensures n.core.entries[i].serial <= n.core.born
  {
    assert EntryOk(n.core, n.log, n.core.entries[i]);
  }

  /** And such an entry there is: a boot with one unfinished message of the node in storage queues it. */
  lemma OnePending(name: Text, m: Message, now: nat) returns (n: Node)
    requires m.direction == TX && m.source == name && Unfinished(m)
    ensures Inv(n) && n.ticket == None && |n.core.entries| == MAX_MESSAGES
    ensures var e := n.core.entries[0]; e.active && Sendable(e) && e.attempts == 0 && e.message == m
  {
    hide FindFirst, AdoptAll, InUse, Store.Sound, Inv, PendingSlots;
    var store := Store(seq(MAX_MESSAGES, _ => VACANT), seq(MAX_MESSAGES, _ => false), map[0 := RecordFor(m)], 0);
    var off := Node(Core(seq(MAX_MESSAGES, _ => UNUSED), store, 0, 0), map[], None, [], name);
    var readable := (i: nat) => true;
    BootEstablishesInv(off, true, readable, now);
    RebootRestores(off, true, readable, now);
    n := Rebooted(off, true, readable, now);
    assert n.core.store.slots[0] == RecordFor(m);
    PendingFirst(n.core.store.slots);
  }

  lemma PendingFirst(slots: seq<Record>)
    requires |slots| == MAX_MESSAGES && slots[0].state != Empty && IsPending(slots[0])
    ensures PendingSlots(slots) != [] && PendingSlots(slots)[0] == 0
  {
  }
}
