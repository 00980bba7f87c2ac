/** What the scheduler's steps leave in the message table, and when its entries are due. */
module NodeRecords {
  import opened CText
  import opened MessageStore
  import opened TxScheduler
  import opened NodeRuns

  /** Does the step write to storage, and does the write succeed? */
  predicate Commits(step: Step) {
    match step
    case Timeout(_, _, nvsOk) => nvsOk
    case Begin(_, _, _, _, nvsOk) => nvsOk
    case End(_, _, nvsOk) => nvsOk
    case Acknowledge(_, _, nvsOk) => nvsOk
    case _ => false
  }

  /** The status under which an entry ends in a step. */
  function EndStatus(e: Entry, step: Step): Status {
    match step
    case Acknowledge(_, _, _) => ACKED
    case Timeout(_, _, _) => if e.state == TxWaitingAck then FAILED_TIMEOUT else FAILED_RADIO
    case Begin(_, _, _, _, _) => if e.attempts >= 3 then FAILED_RADIO else FAILED_QUEUE
    case _ => FAILED_QUEUE
  }

  /** The entry's slot holds, in RAM and in storage, its message with this status and the hops it has left. */
  ghost predicate Filed(store: Store, e: Entry, status: Status) {
    && store.Shape() && 0 <= e.slot < MAX_MESSAGES && e.slot in store.nvs && store.nvs[e.slot] == store.slots[e.slot]
    && var r := store.slots[e.slot];
       && r.message.status == status && SameMessage(r.message, e.message)
       && r.message.hops == (if e.remaining < 0 then 0 else e.remaining)
       && r.state == if status == ACKED then Acked else if status == SENT then Sent
                     else if status == QUEUED then Queued else Failed
  }

  /** The entry owns its record, and that is an outgoing message. */
  ghost predicate Holder(core: Core, j: nat)
    requires core.Shape() && j < MAX_MESSAGES
  {
    && core.store.Sound() && core.entries[j].active && Owns(core.store, core.entries[j])
    && core.entries[j].message.direction == TX
  }

  lemma ActiveHolds(n: Node, j: nat)
    requires Inv(n) && j < MAX_MESSAGES && n.core.entries[j].active
    ensures Holder(n.core, j)
  {
    hide Store.Sound;
    assert EntryOk(n.core, n.log, n.core.entries[j]);
  }

  lemma StatusFiled(core: Core, i: nat, e: Entry, status: Status)
    requires core.Shape() && core.store.Sound() && i < MAX_MESSAGES && Owns(core.store, e) && e.message.direction == TX
    requires status in {ACKED, SENT, QUEUED, FAILED_RADIO, FAILED_QUEUE, FAILED_TIMEOUT}
    ensures var core' := core.SetStatus(i, e, status, true);
      core'.Shape() && Filed(core'.store, e, status)
  {
    hide InUse, Store.Sound, RecordFor;
    SoundSlot(core.store, e.slot);
    StatesExactly(Restatus(e, status));
    OperationsSound(core.store, e.slot, Restatus(e, status), true);
    SoundSlot(core.store.Update(e.slot, Restatus(e, status), true).0, e.slot);
    OperationsWrite(core.store, e.slot, Restatus(e, status), true);
  }

  lemma UpdatesShaped(s: Store)
    requires s.Shape()
    ensures forall i: nat, m, ok :: i < MAX_MESSAGES ==> s.Update(i, m, ok).0.Shape()
  {
  }

  lemma TimeoutFiles(core: Core, i: nat, now: nat, j: nat)
    requires core.Shape() && i < MAX_MESSAGES && j < MAX_MESSAGES && Holder(core, j)
    ensures var e, core' := core.entries[j], core.Timeout(i, now, true);
      core'.Shape() && (!core'.entries[j].active ==>
        Filed(core'.store, e, if e.state == TxWaitingAck then FAILED_TIMEOUT else FAILED_RADIO))
  {
    hide Store.Update, Store.Sound, Filed;
    UpdatesShaped(core.store);
    var e := core.entries[j];
    StatusFiled(core, j, e.(error := AckTimeout, state := TxFailedTimeout, active := false), FAILED_TIMEOUT);
    StatusFiled(core, j, e.(error := RadioTimeout, state := TxFailedRadio, active := false), FAILED_RADIO);
    SameFiling(core.Timeout(i, now, true).store, e);
  }

  /** Being filed is about the message, its slot and its hops only. */
  lemma SameFiling(store: Store, e: Entry)
    ensures forall error, state, status ::
              Filed(store, e.(error := error, state := state, active := false), status) <==> Filed(store, e, status)
    ensures forall due, status ::
              Filed(store, e.(state := TxWaitingAck, due := due), status) <==> Filed(store, e, status)
    ensures forall due, error, state, status ::
              Filed(store, e.(due := due, error := error, state := state, active := false), status) <==>
              Filed(store, e, status)
  {
  }

  lemma BeginFiles(core: Core, i: nat, buildOk: bool, random: uint32, now: nat, j: nat)
    requires core.Shape() && i < MAX_MESSAGES && j < MAX_MESSAGES && Holder(core, j)
    ensures var e, core' := core.entries[j], core.SendBegin(i, buildOk, random, now, true).0;
      core'.Shape() && (!core'.entries[j].active ==>
        Filed(core'.store, e, if e.attempts >= 3 then FAILED_RADIO else FAILED_QUEUE))
  {
    hide Store.Update, Store.Sound, Filed;
    UpdatesShaped(core.store);
    var e := core.entries[j];
    StatusFiled(core, j, e.(error := RadioTimeout, state := TxFailedRadio, active := false), FAILED_RADIO);
    StatusFiled(core, j, e.(due := now + ACK_TIMEOUT, error := PacketBuild, state := TxFailedQueue, active := false),
      FAILED_QUEUE);
    SameFiling(core.SendBegin(i, buildOk, random, now, true).0.store, e);
  }

  lemma EndFiles(core: Core, t: Ticket, submitted: bool, now: nat, j: nat)
    requires core.Shape() && j < MAX_MESSAGES && Holder(core, j)
    ensures var e, core' := core.entries[j], core.SendEnd(t, submitted, now, true);
      core'.Shape() && (!core'.entries[j].active ==> Filed(core'.store, e, FAILED_QUEUE))
  {
    hide Store.Update, Store.Sound, Filed, FindFirst;
    UpdatesShaped(core.store);
    var e := core.entries[j];
    StatusFiled(core, j, e.(error := QueueFull, state := TxFailedQueue, active := false), FAILED_QUEUE);
    SameFiling(core.SendEnd(t, submitted, now, true).store, e);
  }

  lemma RadioFiles(core: Core, id: uint32, request: uint32, outcome: RadioOutcome, now: nat, j: nat)
    requires core.Shape() && j < MAX_MESSAGES && Holder(core, j)
    ensures var e, core' := core.entries[j], core.RadioResult(id, request, outcome, now, true);
      && core'.Shape() && core'.entries[j].active
      && (core'.entries[j].state == TxWaitingAck != e.state ==> Filed(core'.store, e, SENT))
  {
    hide Store.Update, Store.Sound, Filed, FindFirst;
    UpdatesShaped(core.store);
    var e := core.entries[j];
    StatusFiled(core, j, e.(state := TxWaitingAck, due := now + ACK_TIMEOUT), SENT);
    SameFiling(core.RadioResult(id, request, outcome, now, true).store, e);
  }

  lemma AcknowledgeFiles(core: Core, id: uint32, sender: Text, j: nat)
    requires core.Shape() && j < MAX_MESSAGES && Holder(core, j)
    ensures var e, core' := core.entries[j], core.Acknowledge(id, sender, true).0;
      core'.Shape() && (!core'.entries[j].active ==> Filed(core'.store, e, ACKED))
  {
    hide Store.Update, Store.Sound, Filed, FindFirst;
    UpdatesShaped(core.store);
    var e := core.entries[j];
    StatusFiled(core, j, e.(state := TxDelivered, error := NoError, active := false), ACKED);
    SameFiling(core.Acknowledge(id, sender, true).0.store, e);
  }

  /** When a step ends an entry and its write is committed, the slot has the status under which it ended. */
  lemma EndIsFiled(n: Node, step: Step, j: nat)
    requires Inv(n) && Enabled(n, step) && !step.Reboot? && j < MAX_MESSAGES && n.core.entries[j].active
    ensures Next(n, step).core.Shape()
    ensures !Next(n, step).core.entries[j].active && Commits(step) ==>
              Filed(Next(n, step).core.store, n.core.entries[j], EndStatus(n.core.entries[j], step))
    ensures !Next(n, step).core.entries[j].active ==>
              step.Timeout? || step.Begin? || step.End? || step.Acknowledge?
  {
    hide Inv, FindFirst, Core.SendBegin, Core.Timeout, Core.SendEnd, Core.RadioResult, Core.Acknowledge, Core.Submit;
    hide Store.Update, Store.Write, Allocated, Reserved, Filed, Holder;
    InvParts(n);
    StepKeepsInv(n, step);
    InvParts(Next(n, step));
    ActiveHolds(n, j);
    match step
    case Reserve(_, _) =>
    case StoreTx(_, _, _) =>
    case StoreRx(_, _, _) =>
    case Submit(slot, now, nvsOk) => SubmitLeaves(n, slot, now, nvsOk, j);
    case Timeout(i, now, _) => TimeoutFiles(n.core, i, now, j);
    case Begin(i, buildOk, random, now, _) => BeginFiles(n.core, i, buildOk, random, now, j);
    case End(submitted, now, _) => EndFiles(n.core, n.ticket.value, submitted, now, j);
    case Radio(id, request, outcome, now, nvsOk) => RadioStays(n.core, id, request, outcome, now, nvsOk, j);
    case Acknowledge(id, sender, _) => AcknowledgeFiles(n.core, id, sender, j);
  }

  lemma RadioStays(core: Core, id: uint32, request: uint32, outcome: RadioOutcome, now: nat, nvsOk: bool, j: nat)
    requires core.Shape() && j < MAX_MESSAGES && core.entries[j].active
    ensures core.RadioResult(id, request, outcome, now, nvsOk).entries[j].active
  {
    hide Store.Update, FindFirst;
  }

  lemma SubmitLeaves(n: Node, slot: nat, now: nat, nvsOk: bool, j: nat)
    requires Inv(n) && Enabled(n, Submit(slot, now, nvsOk)) && j < MAX_MESSAGES && n.core.entries[j].active
    ensures Next(n, Submit(slot, now, nvsOk)).core.Shape()
    ensures Next(n, Submit(slot, now, nvsOk)).core.entries[j] == n.core.entries[j]
  {
    hide Store.Update, FindFirst, Store.Sound;
    SubmitKeeps(n, slot, now, nvsOk);
    var i := FindFirst(n.core.entries, Inactive);
    assert i >= 0 ==> Inactive(n.core.entries[i]);
  }

  /** An entry that a step ends is over for good once the write is committed: as long as nothing else is
      written to its slot, a reboot queues no message from it, whatever can be read. If the write fails,
      storage is as it was before the step. */
  lemma EndedStaysEnded(n: Node, step: Step, j: nat, steps: seq<Step>, n': Node, openOk: bool, readable: nat -> bool,
      now: nat)
    requires Inv(n) && Enabled(n, step) && !step.Reboot? && j < MAX_MESSAGES && n.core.entries[j].active
    requires Next(n, step).core.Shape() && !Next(n, step).core.entries[j].active
    requires Run(Next(n, step), steps, n')
    ensures var slot, filed, kept := n.core.entries[j].slot, Next(n, step).core.store.nvs, n'.core.store.nvs;
      && (Commits(step) && (slot in filed && slot in kept ==> kept[slot] == filed[slot]) ==>
            var after := Rebooted(n', openOk, readable, now);
            after.core.Shape() && forall i :: 0 <= i < MAX_MESSAGES ==> !Serves(after.core.entries[i], slot))
      && (!Commits(step) ==> filed == n.core.store.nvs)
  {
    hide Inv, Next, Enabled, Rebooted, Run;
    EndIsFiled(n, step, j);
    StepKeepsInv(n, step);
    InvParts(n);
    if Commits(step) {
      RebootRecovers(Next(n, step), steps, n', openOk, readable, now, n.core.entries[j].slot);
    } else {
      NothingFiled(n, step);
    }
  }

  lemma NothingFiled(n: Node, step: Step)
    requires n.core.Shape() && Enabled(n, step) && !Commits(step)
    requires step.Timeout? || step.Begin? || step.End? || step.Acknowledge?
    ensures Next(n, step).core.store.nvs == n.core.store.nvs
  {
    hide FindFirst, InUse;
  }

  /** A message that is submitted gets an entry that is due at once, and is on file as queued. */
  lemma SubmitFiles(n: Node, slot: nat, now: nat, nvsOk: bool) returns (i: nat)
    requires Inv(n) && Enabled(n, Submit(slot, now, nvsOk))
    ensures Next(n, Submit(slot, now, nvsOk)).core.Shape() && i < MAX_MESSAGES && !n.core.entries[i].active
    ensures var core, m := Next(n, Submit(slot, now, nvsOk)).core, n.staged[slot];
      var e := core.entries[i];
      && e.active && e.state == TxQueued && e.attempts == 0 && e.due == now && e.slot == slot && e.remaining == m.hops
      && SameMessage(e.message, m) && (nvsOk ==> Filed(core.store, e, QUEUED))
      && forall j :: 0 <= j < MAX_MESSAGES && j != i ==> core.entries[j] == n.core.entries[j]
  {
    hide Inv, FindFirst, Store.Update, Store.Sound, Filed;
    StagedParts(n, slot);
    SubmitKeeps(n, slot, now, nvsOk);
    SubmitFindsRoom(n, slot);
    InvParts(Next(n, Submit(slot, now, nvsOk)));
    i := FindFirst(n.core.entries, Inactive);
    var e := n.core.NewEntry(n.staged[slot], slot, now);
    StatusFiled(n.core, i, e, QUEUED);
    FilingKept(Next(n, Submit(slot, now, nvsOk)).core.store, e, QUEUED);
    assert Inactive(n.core.entries[i]);
  }

  lemma FilingKept(store: Store, e: Entry, status: Status)
    ensures Filed(store, e.(message := Restatus(e, status)), status) <==> Filed(store, e, status)
  {
  }

  lemma StagedParts(n: Node, k: nat)
    requires Inv(n) && k in n.staged
    ensures n.core.Shape() && n.core.store.Sound() && k < MAX_MESSAGES && n.staged[k].direction == TX
    ensures forall e: Entry :: e.slot == k && e.message == n.staged[k] ==> Owns(n.core.store, e)
  {
    hide Store.Sound;
    RecordInUse(n.staged[k]);
  }

  // How long an entry waits

  /** What an entry becomes that a step changes and does not end. */
  ghost predicate Paced(e: Entry, e': Entry, step: Step) {
    match step
    case Timeout(_, now, _) =>
      && e.attempts < 3 && e.due <= now && e.state in {TxWaitingAck, TxWaitingRadio}
      && e' == e.(state := TxRetryBackoff, due := now + if e.state == TxWaitingAck then 5000 * e.attempts else 2000)
    case Begin(_, _, random, now, _) =>
      && e.attempts < 3 && e.due <= now && e.state in {TxQueued, TxRetryBackoff}
      && e' == e.(state := TxSubmitting, attempts := e.attempts + 1, request := if random == 0 then 1 else random)
    case End(submitted, now, _) =>
      && e.state == TxSubmitting
      && if submitted then e' == e.(state := TxWaitingRadio, due := now + 10000)
         else e.attempts < 3 && e' == e.(state := TxRetryBackoff, error := QueueFull, due := now + 2000)
    case Radio(id, request, outcome, now, _) =>
      && e.state == TxWaitingRadio && e.message.id == id && e.request == request
      && if outcome == Success then
           && SameMessage(e'.message, e.message) && e'.message.status == SENT
           && e' == e.(state := TxWaitingAck, due := now + 5000, message := e'.message)
         else e' == e.(state := TxRetryBackoff, due := now + if outcome == ChannelBusy then 2000 else 5000)
    case _ => false
  }

  /** An entry that a step ends. */
  ghost predicate Ended(e: Entry, e': Entry, step: Step) {
    match step
    case Timeout(_, now, _) =>
      && e.attempts >= 3 && e.due <= now
      && if e.state == TxWaitingAck then e'.state == TxFailedTimeout && e'.error == AckTimeout
         else e.state == TxWaitingRadio && e'.state == TxFailedRadio && e'.error == RadioTimeout
    case Begin(_, buildOk, _, now, _) =>
      && e.due <= now && e.state in {TxQueued, TxRetryBackoff}
      && if e.attempts >= 3 then e'.state == TxFailedRadio && e'.error == RadioTimeout
         else !buildOk && e'.state == TxFailedQueue && e'.error == PacketBuild
    case End(submitted, _, _) =>
      !submitted && e.attempts >= 3 && e.state == TxSubmitting && e'.state == TxFailedQueue && e'.error == QueueFull
    case Acknowledge(id, sender, _) =>
      && e.state == TxWaitingAck && e.message.id == id && e.message.destination == sender && sender != []
      && e'.state == TxDelivered && e'.error == NoError
    case _ => false
  }

  /** The whole life of an entry, one step at a time: a step that changes it either ends it or sets the time
      after which it is looked at again. */
  lemma Pacing(n: Node, step: Step, j: nat)
    requires Inv(n) && Enabled(n, step) && !step.Reboot? && j < MAX_MESSAGES && n.core.entries[j].active
    ensures Next(n, step).core.Shape()
    ensures var e, e' := n.core.entries[j], Next(n, step).core.entries[j];
      e' == e || (if e'.active then Paced(e, e', step) else Ended(e, e', step))
  {
    hide Inv, FindFirst, Core.SendBegin, Core.Timeout, Core.SendEnd, Core.RadioResult, Core.Acknowledge, Core.Submit;
    hide Store.Update, Store.Write, Allocated, Reserved, Holder, Paced, Ended;
    InvParts(n);
    StepKeepsInv(n, step);
    InvParts(Next(n, step));
    LiveStates(n, j);
    match step
    case Reserve(_, _) =>
    case StoreTx(_, _, _) =>
    case StoreRx(_, _, _) =>
    case Submit(slot, now, nvsOk) => SubmitLeaves(n, slot, now, nvsOk, j);
    case Timeout(i, now, nvsOk) => TimeoutPaces(n.core, i, now, nvsOk, j);
    case Begin(i, buildOk, random, now, nvsOk) => BeginPaces(n.core, i, buildOk, random, now, nvsOk, j);
    case End(submitted, now, nvsOk) => EndPaces(n.core, n.ticket.value, submitted, now, nvsOk, j);
    case Radio(id, request, outcome, now, nvsOk) => RadioPaces(n.core, id, request, outcome, now, nvsOk, j);
    case Acknowledge(id, sender, nvsOk) => AcknowledgePaces(n.core, id, sender, nvsOk, j);
  }

  lemma LiveStates(n: Node, j: nat)
    requires Inv(n) && j < MAX_MESSAGES && n.core.entries[j].active
    ensures n.core.entries[j].state in {TxQueued, TxSubmitting, TxWaitingRadio, TxWaitingAck, TxRetryBackoff}
  {
    hide Store.Sound;
    assert EntryOk(n.core, n.log, n.core.entries[j]);
  }

  lemma TimeoutPaces(core: Core, i: nat, now: nat, nvsOk: bool, j: nat)
    requires core.Shape() && i < MAX_MESSAGES && j < MAX_MESSAGES && core.entries[j].active
    ensures var e, e', step := core.entries[j], core.Timeout(i, now, nvsOk).entries[j], Timeout(i, now, nvsOk);
      e' == e || (if e'.active then Paced(e, e', step) else Ended(e, e', step))
  {
    hide Store.Update;
  }

  lemma BeginPaces(core: Core, i: nat, buildOk: bool, random: uint32, now: nat, nvsOk: bool, j: nat)
    requires core.Shape() && i < MAX_MESSAGES && j < MAX_MESSAGES && core.entries[j].active
    requires core.entries[i].due <= now && core.entries[j].state != TxCreated
    ensures var e, e', step := core.entries[j], core.SendBegin(i, buildOk, random, now, nvsOk).0.entries[j],
                               Begin(i, buildOk, random, now, nvsOk);
      e' == e || (if e'.active then Paced(e, e', step) else Ended(e, e', step))
  {
    hide Store.Update;
  }

  lemma EndPaces(core: Core, t: Ticket, submitted: bool, now: nat, nvsOk: bool, j: nat)
    requires core.Shape() && j < MAX_MESSAGES && core.entries[j].active
    ensures var e, e', step := core.entries[j], core.SendEnd(t, submitted, now, nvsOk).entries[j],
                               End(submitted, now, nvsOk);
      e' == e || (if e'.active then Paced(e, e', step) else Ended(e, e', step))
  {
    hide Store.Update, FindFirst;
  }

  lemma RadioPaces(core: Core, id: uint32, request: uint32, outcome: RadioOutcome, now: nat, nvsOk: bool, j: nat)
    requires core.Shape() && j < MAX_MESSAGES && core.entries[j].active
    ensures var e, e', step := core.entries[j], core.RadioResult(id, request, outcome, now, nvsOk).entries[j],
                               Radio(id, request, outcome, now, nvsOk);
      e' == e || (if e'.active then Paced(e, e', step) else Ended(e, e', step))
  {
    hide Store.Update, FindFirst;
  }

  lemma AcknowledgePaces(core: Core, id: uint32, sender: Text, nvsOk: bool, j: nat)
    requires core.Shape() && j < MAX_MESSAGES && core.entries[j].active
    ensures var e, e', step := core.entries[j], core.Acknowledge(id, sender, nvsOk).0.entries[j],
                               Acknowledge(id, sender, nvsOk);
      e' == e || (if e'.active then Paced(e, e', step) else Ended(e, e', step))
  {
    hide Store.Update, FindFirst;
  }

  /** Nothing that is due is passed over: the waiting entry that a result or an acknowledgement is for, the due
      entry that is looked at and the entry being submitted do change. */
  lemma Attended(n: Node, step: Step, j: nat)
    requires Inv(n) && Enabled(n, step) && j < MAX_MESSAGES && n.core.entries[j].active
    requires
      var e := n.core.entries[j];
      match step
      case Timeout(i, now, _) => i == j && e.due <= now && e.state in {TxWaitingAck, TxWaitingRadio}
      case Begin(i, _, _, _, _) => i == j && e.state in {TxQueued, TxRetryBackoff}
      case End(_, _, _) => e.state == TxSubmitting
      case Radio(id, request, _, _, _) =>
        && e.state == TxWaitingRadio && e.message.id == id && e.request == request
        && forall i :: 0 <= i < j ==> !(n.core.entries[i].active && n.core.entries[i].state == TxWaitingRadio
                                        && n.core.entries[i].message.id == id && n.core.entries[i].request == request)
      case Acknowledge(id, sender, _) =>
        && e.state == TxWaitingAck && e.message.id == id && e.message.destination == sender != []
        && forall i :: 0 <= i < j ==>
             !(n.core.entries[i].active && n.core.entries[i].state == TxWaitingAck
               && n.core.entries[i].message.id == id && n.core.entries[i].message.destination == sender)
      case _ => false
    ensures Next(n, step).core.Shape() && Next(n, step).core.entries[j].state != n.core.entries[j].state
  {
    hide Inv, FindFirst, Store.Update;
    InvParts(n);
    StepKeepsInv(n, step);
    InvParts(Next(n, step));
  }
}
