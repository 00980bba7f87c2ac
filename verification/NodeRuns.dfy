/** The message table and the transmit scheduler under every interleaving of the tasks that use them. */
module NodeRuns {
  import opened CText
  import opened MessageStore
  import opened TxScheduler

  /** A node. `staged` are the messages that queue_message has written and not yet submitted, `ticket`
      is the scheduler's while send_current_packet has dropped the lock, `log` are the serials of the
      packets given to the radio since boot, in order. */
  datatype Node = Node(core: Core, staged: map<nat, Message>, ticket: Option<Ticket>, log: seq<nat>, name: Text)

  /** One critical section of one task. */
  datatype Step =
    | Reserve(found: int, eraseOk: bool)                     // message_store_allocate, by either task that stores
    | StoreTx(slot: nat, message: Message, nvsOk: bool)      // message_store_write in queue_message
    | StoreRx(slot: nat, message: Message, nvsOk: bool)      // message_store_write in store_received_packet
    | Submit(slot: nat, now: nat, nvsOk: bool)               // tx_scheduler_submit in queue_message
    | Timeout(i: nat, now: nat, nvsOk: bool)                 // scheduler_task
    | Begin(i: nat, buildOk: bool, random: uint32, now: nat, nvsOk: bool)  // send_current_packet, first half
    | End(submitted: bool, now: nat, nvsOk: bool)            // send_current_packet, second half
    | Radio(id: uint32, request: uint32, outcome: RadioOutcome, now: nat, nvsOk: bool)  // handle_radio_result
    | Acknowledge(id: uint32, sender: Text, nvsOk: bool)     // tx_scheduler_acknowledge
    | Reboot(openOk: bool, readable: nat -> bool, now: nat)  // RAM is lost, then load and restore

  function Reserved(s: Store, slot: int): Store
    requires s.Shape() && slot < MAX_MESSAGES
  {
    if slot < 0 then s
    else if s.Free(slot) then s.(reserved := s.reserved[slot := true])
    else s.WithSlot(slot, VACANT).(reserved := s.reserved[slot := true])
  }

  /** What each task may do next. The scheduler task does nothing else between the two halves of a
      send, and no entry lives through 2^32 - 1 submissions, so a new generation is unused. */
  ghost predicate Enabled(n: Node, step: Step)
    requires n.core.Shape()
  {
    var store := n.core.store;
    match step
    case Reserve(slot, eraseOk) => slot < MAX_MESSAGES && Allocated(store, Reserved(store, slot), slot, eraseOk)
    case StoreTx(slot, m, _) =>
      slot < MAX_MESSAGES && store.reserved[slot] && m.direction == TX && m.status == PENDING && m.source == n.name
    case StoreRx(slot, m, _) => slot < MAX_MESSAGES && store.reserved[slot] && m.direction == RX
    case Submit(slot, _, _) =>
      && slot in n.staged
      && forall i :: 0 <= i < MAX_MESSAGES && n.core.entries[i].active ==>
          n.core.entries[i].generation != NextGeneration(n.core.generation)
    case Timeout(i, _, _) => n.ticket == None && i < MAX_MESSAGES
    case Begin(i, _, _, now, _) => n.ticket == None && i < MAX_MESSAGES && n.core.entries[i].due <= now
    case End(_, _, _) => n.ticket != None
    case Radio(_, _, _, _, _) => n.ticket == None
    case Acknowledge(_, _, _) => true
    case Reboot(_, _, _) => true
  }

  /** The node after a reboot: everything but the durable records is gone. */
  ghost function Rebooted(n: Node, openOk: bool, readable: nat -> bool, now: nat): Node {
    var store := Loaded(n.core.store.nvs, openOk, readable, n.name);
    var core := Core(seq(MAX_MESSAGES, _ => UNUSED), store, 0, 0);
    Node(AdoptAll(core, PendingSlots(store.slots), now), map[], None, [], n.name)
  }

  ghost function Next(n: Node, step: Step): Node
    requires n.core.Shape() && Enabled(n, step)
  {
    var core := n.core;
    match step
    case Reserve(slot, _) => n.(core := core.(store := Reserved(core.store, slot)))
    case StoreTx(slot, m, nvsOk) =>
      var (store, ok) := core.store.Write(slot, m, nvsOk);
      n.(core := core.(store := store), staged := if ok then n.staged[slot := m] else n.staged)
    case StoreRx(slot, m, nvsOk) => n.(core := core.(store := core.store.Write(slot, m, nvsOk).0))
    case Submit(slot, now, nvsOk) =>
      var m := n.staged[slot];
      var (core', ok) := core.Submit(m, slot, now, nvsOk);
      n.(core := if ok || slot >= MAX_MESSAGES then core'
                 else core.(store := core.store.Update(slot, m.(status := FAILED), nvsOk).0),
         staged := n.staged - {slot})
    case Timeout(i, now, nvsOk) => n.(core := core.Timeout(i, now, nvsOk))
    case Begin(i, buildOk, random, now, nvsOk) =>
      var (core', ticket) := core.SendBegin(i, buildOk, random, now, nvsOk);
      n.(core := core', ticket := ticket, log := if ticket == None then n.log else n.log + [core.entries[i].serial])
    case End(submitted, now, nvsOk) => n.(core := core.SendEnd(n.ticket.value, submitted, now, nvsOk), ticket := None)
    case Radio(id, request, outcome, now, nvsOk) => n.(core := core.RadioResult(id, request, outcome, now, nvsOk))
    case Acknowledge(id, sender, nvsOk) => n.(core := core.Acknowledge(id, sender, nvsOk).0)
    case Reboot(openOk, readable, now) => Rebooted(n, openOk, readable, now)
  }

  // The invariant

  /** The same message, whatever its status and remaining hops. */
  predicate SameMessage(a: Message, b: Message) {
    a.(status := NoStatus, hops := 0) == b.(status := NoStatus, hops := 0)
  }

  /** An active entry's own record is in its slot, undelivered and not evicted. */
  ghost predicate Owns(store: Store, e: Entry)
    requires store.Shape()
  {
    && 0 <= e.slot < MAX_MESSAGES && store.slots[e.slot].state != Empty
    && IsPending(store.slots[e.slot]) && SameMessage(store.slots[e.slot].message, e.message)
  }

  ghost predicate Live(e: Entry) {
    e.state in {TxQueued, TxSubmitting, TxWaitingRadio, TxWaitingAck, TxRetryBackoff} && e.attempts <= MAX_ATTEMPTS
  }

  ghost predicate EntryOk(core: Core, log: seq<nat>, e: Entry)
    requires core.Shape()
  {
    && Owns(core.store, e) && Live(e) && Times(log, e.serial) == e.attempts
    && 0 < e.serial <= core.born && e.generation == GenerationOf(e.serial)
  }

  /** The 32-bit generation of the n-th submission since boot: the counter skips 0 when it wraps. */
  ghost function GenerationOf(n: nat): uint32 {
    if n == 0 then 0 else (n - 1) % 0xFFFF_FFFF + 1
  }

  lemma GenerationStep(n: nat)
    ensures NextGeneration(GenerationOf(n)) == GenerationOf(n + 1)
  {
  }

  /** The generation about to be used is unused exactly when no active entry has lived through a
      multiple of 2^32 - 1 submissions. */
  lemma GenerationFree(n: Node, i: nat)
    requires Inv(n) && i < MAX_MESSAGES && n.core.entries[i].active
    ensures n.core.entries[i].generation == NextGeneration(n.core.generation) <==>
            (n.core.born + 1 - n.core.entries[i].serial) % 0xFFFF_FFFF == 0
  {
    assert EntryOk(n.core, n.log, n.core.entries[i]);
    GenerationStep(n.core.born);
  }

  ghost function Times(log: seq<nat>, n: nat): nat {
    multiset(log)[n]
  }

  ghost predicate EntriesOk(core: Core, log: seq<nat>) {
    && core.Shape()
    && forall i :: 0 <= i < MAX_MESSAGES && core.entries[i].active ==> EntryOk(core, log, core.entries[i])
  }

  ghost predicate Distinct(entries: seq<Entry>) {
    forall i, j :: 0 <= i < j < |entries| && entries[i].active && entries[j].active ==>
      entries[i].slot != entries[j].slot && entries[i].serial != entries[j].serial
          && entries[i].generation != entries[j].generation
  }

  ghost predicate StagedOk(n: Node) {
    && n.core.Shape()
    && forall k <- n.staged ::
         && k < MAX_MESSAGES && n.core.store.slots[k] == RecordFor(n.staged[k]) && IsPending(n.core.store.slots[k])
         && forall i :: 0 <= i < MAX_MESSAGES && n.core.entries[i].active ==> n.core.entries[i].slot != k
  }

  /** While a ticket is out, its entry is the one that is being submitted; otherwise none is. */
  ghost predicate TicketOk(entries: seq<Entry>, ticket: Option<Ticket>) {
    && (forall i :: 0 <= i < |entries| && entries[i].active && entries[i].state == TxSubmitting ==>
          ticket != None && Matches(entries[i], ticket.value))
    && (ticket != None ==> exists i ::
        0 <= i < |entries| && entries[i].state == TxSubmitting && Matches(entries[i], ticket.value))
  }

  ghost predicate LogOk(log: seq<nat>, born: nat) {
    forall n: nat :: Times(log, n) <= MAX_ATTEMPTS && (n > born ==> Times(log, n) == 0)
  }

  /** Every durable outgoing record is this node's own. */
  ghost predicate OwnRecords(store: Store, name: Text) {
    forall k <- store.nvs :: store.nvs[k].message.direction == TX ==> store.nvs[k].message.source == name
  }

  ghost predicate Inv(n: Node) {
    && n.core.Shape() && n.core.store.Sound() && n.core.generation == GenerationOf(n.core.born)
    && EntriesOk(n.core, n.log) && Distinct(n.core.entries) && StagedOk(n)
    && TicketOk(n.core.entries, n.ticket) && LogOk(n.log, n.core.born) && OwnRecords(n.core.store, n.name)
  }

  // Steps that touch one entry and its slot

  /** Entry `i` moves on, keeping its identity; only its own slot changes. */
  ghost predicate MovesOn(core: Core, core': Core, i: nat)
    requires core.Shape()
  {
    && core'.Shape() && core'.born == core.born && core'.generation == core.generation && i < MAX_MESSAGES
        && core.entries[i].active
    && (forall j :: 0 <= j < MAX_MESSAGES && j != i ==> core'.entries[j] == core.entries[j])
    && SameIdentity(core.entries[i], core'.entries[i])
    && forall k :: 0 <= k < MAX_MESSAGES && k != core.entries[i].slot ==> core'.store.slots[k] == core.store.slots[k]
  }

  ghost predicate SameIdentity(e: Entry, e': Entry) {
    && e'.slot == e.slot && e'.serial == e.serial && e'.generation == e.generation && SameMessage(e.message, e'.message)
  }

  lemma MovesOnKeeps(n: Node, n': Node, i: nat)
    requires EntriesOk(n.core, n.log) && Distinct(n.core.entries) && StagedOk(n)
    requires MovesOn(n.core, n'.core, i) && n'.staged == n.staged
    requires n'.core.entries[i].active ==> EntryOk(n'.core, n'.log, n'.core.entries[i])
    requires forall m :: m != n.core.entries[i].serial ==> Times(n'.log, m) == Times(n.log, m)
    ensures EntriesOk(n'.core, n'.log) && Distinct(n'.core.entries) && StagedOk(n')
  {
    hide IsPending, SameMessage, Live, Times, GenerationOf;
    forall j | 0 <= j < MAX_MESSAGES && j != i && n.core.entries[j].active
      ensures EntryOk(n'.core, n'.log, n'.core.entries[j])
    {
      assert EntryOk(n.core, n.log, n.core.entries[j]);
      assert n.core.entries[j].slot != n.core.entries[i].slot;
    }
  }

  /** What set_status does to a sound table through an entry that owns its slot. */
  lemma SetStatusKeeps(core: Core, i: nat, e: Entry, status: Status, nvsOk: bool)
    requires core.Shape() && core.store.Sound() && i < MAX_MESSAGES && Owns(core.store, e)
    ensures
      var core' := core.SetStatus(i, e, status, nvsOk);
      && core'.Shape() && core'.store.Sound()
      && (forall k :: 0 <= k < MAX_MESSAGES && k != e.slot ==> core'.store.slots[k] == core.store.slots[k])
      && SameMessage(core'.store.slots[e.slot].message, e.message)
      && (status in {QUEUED, SENT} ==> Owns(core'.store, core'.entries[i]))
      && forall name :: OwnRecords(core.store, name) ==> OwnRecords(core'.store, name)
  {
    hide Store.Sound, InUse;
    OperationsSound(core.store, e.slot, Restatus(e, status), nvsOk);
    SoundSlot(core.store, e.slot);
  }

  lemma TicketUnaffected(entries: seq<Entry>, entries': seq<Entry>, i: nat, ticket: Option<Ticket>)
    requires TicketOk(entries, ticket) && |entries'| == |entries| && i < |entries|
    requires forall j :: 0 <= j < |entries| && j != i ==> entries'[j] == entries[j]
    requires entries[i].state != TxSubmitting && !(entries'[i].active && entries'[i].state == TxSubmitting)
    ensures TicketOk(entries', ticket)
  {
    if ticket != None {
      var j :| 0 <= j < |entries| && entries[j].state == TxSubmitting && Matches(entries[j], ticket.value);
      assert entries'[j].state == TxSubmitting && Matches(entries'[j], ticket.value);
    }
  }

  /** A change of entry `i` outside the two halves of a send, with or without a status written. */
  lemma EntryStepKeeps(n: Node, i: nat, e': Entry, core': Core)
    requires Inv(n) && i < MAX_MESSAGES && n.core.entries[i].active && n.core.entries[i].state != TxSubmitting
    requires SameIdentity(n.core.entries[i], e') && e'.attempts == n.core.entries[i].attempts
    requires e'.active ==> e'.state in {TxRetryBackoff, TxWaitingAck}
    requires core' == n.core.Put(i, e') || exists status, ok ::
               core' == n.core.SetStatus(i, e', status, ok) && (e'.active ==> status == SENT)
    ensures Inv(n.(core := core'))
  {
    var n' := n.(core := core');
    hide Store.Sound, InUse, Times, IsPending, SameMessage, Store.Update, LogOk, OwnRecords, GenerationOf;
    var e := n.core.entries[i];
    assert EntryOk(n.core, n.log, e);
    SameMessageTransfers(n.core.store, e, e');
    if core' != n.core.Put(i, e') {
      var status, ok :| core' == n.core.SetStatus(i, e', status, ok) && (e'.active ==> status == SENT);
      SetStatusKeeps(n.core, i, e', status, ok);
      RestatusSame(e', status);
    }
    TicketUnaffected(n.core.entries, core'.entries, i, n.ticket);
    MovesOnKeeps(n, n', i);
  }

  lemma RestatusSame(e: Entry, status: Status)
    ensures SameMessage(e.message, Restatus(e, status))
    ensures forall m :: SameMessage(m, e.message) ==> SameMessage(m, Restatus(e, status))
  {
  }

  lemma SameMessageTransfers(store: Store, e: Entry, e': Entry)
    requires store.Shape() && Owns(store, e) && SameIdentity(e, e')
    ensures Owns(store, e')
  {
  }

  lemma FailKeeps(n: Node, i: nat, e: Entry, error: TxError, nvsOk: bool)
    requires Inv(n) && i < MAX_MESSAGES && n.core.entries[i].active && n.core.entries[i].state != TxSubmitting
    requires e == n.core.entries[i].(due := e.due)
    ensures Inv(n.(core := n.core.Fail(i, e, error, nvsOk)))
  {
    hide Inv;
    InvParts(n);
    EntryStepKeeps(n, i, e.(error := error, state := FailureState(error), active := false),
        n.core.Fail(i, e, error, nvsOk));
  }

  lemma TimeoutKeeps(n: Node, i: nat, now: nat, nvsOk: bool)
    requires Inv(n) && i < MAX_MESSAGES
    ensures Inv(n.(core := n.core.Timeout(i, now, nvsOk)))
  {
    hide Inv, Core.Fail;
    InvParts(n);
    var e, core' := n.core.entries[i], n.core.Timeout(i, now, nvsOk);
    if core' == n.core {
    } else if e.attempts >= MAX_ATTEMPTS {
      FailKeeps(n, i, e, if e.state == TxWaitingAck then AckTimeout else RadioTimeout, nvsOk);
    } else {
      EntryStepKeeps(n, i, core'.entries[i], core');
    }
  }

  lemma InvIsDurable(n: Node)
    requires Inv(n)
    ensures Durable(n)
  {
  }

  lemma InvParts(n: Node)
    requires Inv(n)
    ensures n.core.Shape() && Distinct(n.core.entries) && TicketOk(n.core.entries, n.ticket)
  {
  }

  lemma AcknowledgeKeeps(n: Node, id: uint32, sender: Text, nvsOk: bool)
    requires Inv(n)
    ensures n.core.Shape() && Inv(n.(core := n.core.Acknowledge(id, sender, nvsOk).0))
  {
    hide Inv, FindFirst;
    InvParts(n);
    var i := FindFirst(n.core.entries, AwaitingAck(id, sender));
    if sender != [] && i >= 0 {
      var e' := n.core.entries[i].(state := TxDelivered, error := NoError, active := false);
      EntryStepKeeps(n, i, e', n.core.SetStatus(i, e', ACKED, nvsOk));
    }
  }

  /** Generations of active entries are unique, so a lookup finds the entry it was made from. */
  lemma FindsItself(entries: seq<Entry>, i: nat, t: Ticket)
    requires Distinct(entries) && i < |entries| && Matches(entries[i], t)
    ensures FindFirst(entries, Matching(t)) == i
  {
    hide FindFirst;
    assert Matching(t)(entries[i]);
  }

  lemma RadioKeeps(n: Node, id: uint32, request: uint32, outcome: RadioOutcome, now: nat, nvsOk: bool)
    requires Inv(n)
    ensures n.core.Shape() && Inv(n.(core := n.core.RadioResult(id, request, outcome, now, nvsOk)))
  {
    hide Inv, FindFirst;
    InvParts(n);
    var c := FindFirst(n.core.entries, AwaitingRadio(id, request));
    if c >= 0 {
      assert AwaitingRadio(id, request)(n.core.entries[c]);
      FindsItself(n.core.entries, c, Ticket(id, n.core.entries[c].generation, request));
      var e := n.core.entries[c];
      var core' := n.core.RadioResult(id, request, outcome, now, nvsOk);
      if outcome == Success {
        EntryStepKeeps(n, c, e.(state := TxWaitingAck, due := now + ACK_TIMEOUT), core');
      } else {
        EntryStepKeeps(n, c, core'.entries[c], core');
      }
    }
  }

  // The two halves of a send

  lemma LogAppend(log: seq<nat>, serial: nat)
    ensures forall m :: Times(log + [serial], m) == Times(log, m) + if m == serial then 1 else 0
  {
  }

  lemma BeginKeeps(n: Node, i: nat, buildOk: bool, random: uint32, now: nat, nvsOk: bool)
    requires Inv(n) && i < MAX_MESSAGES && n.ticket == None
    ensures
      n.core.Shape() &&
      var (core', ticket) := n.core.SendBegin(i, buildOk, random, now, nvsOk);
      Inv(n.(core := core', ticket := ticket, log := if ticket == None then n.log
          else n.log + [n.core.entries[i].serial]))
  {
    hide Inv, Core.Fail;
    InvParts(n);
    var (core', ticket) := n.core.SendBegin(i, buildOk, random, now, nvsOk);
    var e := n.core.entries[i];
    if ticket != None {
      SubmittingKeeps(n, i, core', ticket.value);
    } else if e.active && Sendable(e) {
      FailKeeps(n, i, if e.attempts >= MAX_ATTEMPTS then e else e.(due := now + ACK_TIMEOUT),
        if e.attempts >= MAX_ATTEMPTS then RadioTimeout else PacketBuild, nvsOk);
    }
    assert n.(core := core', ticket := None, log := n.log) == n.(core := core');
  }

  lemma SubmittingKeeps(n: Node, i: nat, core': Core, t: Ticket)
    requires Inv(n) && i < MAX_MESSAGES && n.ticket == None && n.core.entries[i].active
        && n.core.entries[i].attempts < MAX_ATTEMPTS
    requires core' == n.core.Put(i, n.core.entries[i].(state := TxSubmitting, request := t.request,
        attempts := n.core.entries[i].attempts + 1))
    requires t.id == n.core.entries[i].message.id && t.generation == n.core.entries[i].generation
    ensures Inv(n.(core := core', ticket := Some(t), log := n.log + [n.core.entries[i].serial]))
  {
    hide GenerationOf, Store.Sound, Times, IsPending, SameMessage, OwnRecords;
    var e := n.core.entries[i];
    var n' := n.(core := core', ticket := Some(t), log := n.log + [e.serial]);
    assert EntryOk(n.core, n.log, e);
    LogAppend(n.log, e.serial);
    SameMessageReflexive(e.message);
    SameMessageTransfers(n.core.store, e, core'.entries[i]);
    assert Matches(core'.entries[i], t);
    MovesOnKeeps(n, n', i);
  }

  lemma SameMessageReflexive(m: Message)
    ensures SameMessage(m, m)
  {
  }

  /** While the lock was dropped nothing touched the entry, and the ticket finds it again. */
  lemma TicketFinds(n: Node) returns (i: nat)
    requires Inv(n) && n.ticket != None
    ensures n.core.Shape() && i < MAX_MESSAGES && n.core.entries[i].active && n.core.entries[i].state == TxSubmitting
    ensures FindFirst(n.core.entries, Matching(n.ticket.value)) == i
    ensures forall j ::
              0 <= j < MAX_MESSAGES && n.core.entries[j].active && n.core.entries[j].state == TxSubmitting ==> j == i
  {
    hide FindFirst, EntriesOk, StagedOk, LogOk, OwnRecords, Store.Sound;
    i :| 0 <= i < MAX_MESSAGES && n.core.entries[i].state == TxSubmitting && Matches(n.core.entries[i], n.ticket.value);
    FindsItself(n.core.entries, i, n.ticket.value);
    forall j | 0 <= j < MAX_MESSAGES && n.core.entries[j].active && n.core.entries[j].state == TxSubmitting
      ensures j == i
    {
      FindsItself(n.core.entries, j, n.ticket.value);
    }
  }

  lemma EndKeeps(n: Node, submitted: bool, now: nat, nvsOk: bool)
    requires Inv(n) && n.ticket != None
    ensures n.core.Shape() && Inv(n.(core := n.core.SendEnd(n.ticket.value, submitted, now, nvsOk), ticket := None))
  {
    hide GenerationOf, Store.Sound, Times, IsPending, SameMessage, OwnRecords, FindFirst, Store.Update, InUse;
    var i := TicketFinds(n);
    var e, core' := n.core.entries[i], n.core.SendEnd(n.ticket.value, submitted, now, nvsOk);
    assert EntryOk(n.core, n.log, e);
    SameMessageReflexive(e.message);
    if !submitted && e.attempts >= MAX_ATTEMPTS {
      var e' := e.(error := QueueFull, state := FailureState(QueueFull), active := false);
      SameMessageTransfers(n.core.store, e, e');
      SetStatusKeeps(n.core, i, e', FailureStatus(QueueFull), nvsOk);
      RestatusSame(e', FailureStatus(QueueFull));
    } else {
      SameMessageTransfers(n.core.store, e, core'.entries[i]);
    }
    MovesOnKeeps(n, n.(core := core', ticket := None), i);
  }

  // Steps on a slot that no entry owns

  /** Only slot `k` changes, and neither an active entry nor a staged message uses it. */
  lemma ForeignSlotKeeps(n: Node, store: Store, k: nat)
    requires Inv(n) && k < MAX_MESSAGES && store.Sound() && store.Shape()
    requires !IsPending(n.core.store.slots[k]) || n.core.store.slots[k].state == Empty
    requires forall j :: 0 <= j < MAX_MESSAGES && j != k ==> store.slots[j] == n.core.store.slots[j]
    requires OwnRecords(store, n.name)
    ensures Inv(n.(core := n.core.(store := store)))
  {
    hide GenerationOf, Store.Sound, Times, IsPending, SameMessage, OwnRecords, Distinct, TicketOk, LogOk;
    var n' := n.(core := n.core.(store := store));
    forall i | 0 <= i < MAX_MESSAGES && n.core.entries[i].active
      ensures EntryOk(n'.core, n.log, n.core.entries[i])
    {
      assert EntryOk(n.core, n.log, n.core.entries[i]);
    }
    forall j <- n.staged
      ensures j != k
    {
      RecordInUse(n.staged[j]);
    }
  }

  lemma RecordInUse(m: Message)
    ensures RecordFor(m).state != Empty
  {
  }

  lemma ReserveKeeps(n: Node, slot: int, eraseOk: bool)
    requires Inv(n) && slot < MAX_MESSAGES && Allocated(n.core.store, Reserved(n.core.store, slot), slot, eraseOk)
    ensures Inv(n.(core := n.core.(store := Reserved(n.core.store, slot))))
  {
    hide Store.Sound, EntriesOk, StagedOk, TicketOk, LogOk, Distinct, InUse;
    var store := Reserved(n.core.store, slot);
    AllocatedSound(n.core.store, store, slot, eraseOk);
    if slot >= 0 {
      ForeignSlotKeeps(n, store, slot);
    }
  }

  lemma ReservedIsVacant(n: Node, k: nat)
    requires Inv(n) && k < MAX_MESSAGES && n.core.store.reserved[k]
    ensures n.core.store.slots[k].state == Empty && k !in n.staged
    ensures forall i :: 0 <= i < MAX_MESSAGES && n.core.entries[i].active ==> n.core.entries[i].slot != k
  {
    SoundSlot(n.core.store, k);
    forall i | 0 <= i < MAX_MESSAGES && n.core.entries[i].active
      ensures n.core.entries[i].slot != k
    {
      assert EntryOk(n.core, n.log, n.core.entries[i]);
    }
  }

  lemma StoreKeeps(n: Node, k: nat, m: Message, nvsOk: bool)
    requires Inv(n) && k < MAX_MESSAGES && n.core.store.reserved[k] && (m.direction == TX ==> m.source == n.name)
    ensures Inv(n.(core := n.core.(store := n.core.store.Write(k, m, nvsOk).0)))
  {
    hide Store.Sound, EntriesOk, StagedOk, TicketOk, LogOk, Distinct, InUse, IsPending;
    ReservedIsVacant(n, k);
    OperationsSound(n.core.store, k, m, nvsOk);
    ForeignSlotKeeps(n, n.core.store.Write(k, m, nvsOk).0, k);
  }

  lemma StoreTxKeeps(n: Node, k: nat, m: Message, nvsOk: bool)
    requires Inv(n) && k < MAX_MESSAGES && n.core.store.reserved[k]
    requires m.direction == TX && m.status == PENDING && m.source == n.name
    ensures
      var (store, ok) := n.core.store.Write(k, m, nvsOk);
      Inv(n.(core := n.core.(store := store), staged := if ok then n.staged[k := m] else n.staged))
  {
    hide Store.Sound, EntriesOk, TicketOk, LogOk, Distinct, InUse;
    ReservedIsVacant(n, k);
    StoreKeeps(n, k, m, nvsOk);
  }

  // Submission

  /** Sixteen active entries would own all sixteen slots, the staged message's among them. */
  lemma SubmitFindsRoom(n: Node, k: nat)
    requires Inv(n) && k in n.staged
    ensures FindFirst(n.core.entries, Inactive) >= 0
  {
    hide FindFirst;
    if FindFirst(n.core.entries, Inactive) == -1 {
      SlotsCounted(n.core.entries, MAX_MESSAGES);
      forall i | 0 <= i < MAX_MESSAGES
        ensures 0 <= n.core.entries[i].slot < MAX_MESSAGES && n.core.entries[i].slot != k
      {
        assert EntryOk(n.core, n.log, n.core.entries[i]);
      }
      BoundedSet(SlotsOf(n.core.entries, MAX_MESSAGES) + {k}, MAX_MESSAGES);
    }
  }

  ghost function SlotsOf(entries: seq<Entry>, count: nat): set<int>
    requires count <= |entries|
  {
    set i | 0 <= i < count :: entries[i].slot
  }

  lemma {:induction false} SlotsCounted(entries: seq<Entry>, count: nat)
    requires Distinct(entries) && count <= |entries| && forall i :: 0 <= i < |entries| ==> entries[i].active
    ensures |SlotsOf(entries, count)| == count
  {
    if count > 0 {
      SlotsCounted(entries, count - 1);
      assert forall i :: 0 <= i < count - 1 ==> entries[i].slot != entries[count - 1].slot;
      assert SlotsOf(entries, count) == SlotsOf(entries, count - 1) + {entries[count - 1].slot};
    }
  }

  lemma {:induction false} BoundedSet(s: set<int>, n: nat)
    requires forall x <- s :: 0 <= x < n
    ensures |s| <= n
  {
    if n > 0 {
      BoundedSet(s - {n - 1}, n - 1);
    } else {
      assert forall x :: x !in s;
    }
  }

  lemma SubmitKeeps(n: Node, k: nat, now: nat, nvsOk: bool)
    requires Inv(n) && Enabled(n, Submit(k, now, nvsOk))
    ensures Inv(Next(n, Submit(k, now, nvsOk)))
    ensures n.core.Submit(n.staged[k], k, now, nvsOk).1
  {
    hide Store.Sound, InUse, Store.Update, FindFirst, IsPending, SameMessage, OwnRecords, Times, GenerationOf,
        EntriesOk, Distinct;
    SubmitFindsRoom(n, k);
    GenerationStep(n.core.born);
    var i, m := FindFirst(n.core.entries, Inactive), n.staged[k];
    var e := n.core.NewEntry(m, k, now);
    RecordInUse(m);
    SameMessageReflexive(m);
    assert Owns(n.core.store, e);
    SetStatusKeeps(n.core, i, e, QUEUED, nvsOk);
    RestatusSame(e, QUEUED);
    var n' := Next(n, Submit(k, now, nvsOk));
    assert Inactive(n.core.entries[i]);
    EntryAdded(n, n', i, k);
    TicketUnaffectedByNew(n.core.entries, n'.core.entries, i, n.ticket);
  }

  /** A new entry beside the others. */
  lemma EntryAdded(n: Node, n': Node, i: nat, k: nat)
    requires EntriesOk(n.core, n.log) && Distinct(n.core.entries) && StagedOk(n) && k in n.staged
    requires n'.core.Shape() && n'.log == n.log && n'.core.born == n.core.born + 1 && n'.staged == n.staged - {k}
        && i < MAX_MESSAGES
    requires !n.core.entries[i].active && (forall j :: 0 <= j < MAX_MESSAGES && j != i ==>
        n'.core.entries[j] == n.core.entries[j])
    requires n'.core.entries[i].slot == k && n'.core.entries[i].serial == n'.core.born
        && EntryOk(n'.core, n'.log, n'.core.entries[i])
    requires forall j :: 0 <= j < MAX_MESSAGES && n.core.entries[j].active ==>
        n.core.entries[j].generation != n'.core.entries[i].generation
    requires forall j :: 0 <= j < MAX_MESSAGES && j != k ==> n'.core.store.slots[j] == n.core.store.slots[j]
    ensures EntriesOk(n'.core, n'.log) && Distinct(n'.core.entries) && StagedOk(n')
  {
    hide IsPending, SameMessage, Live, Times, GenerationOf;
    forall j | 0 <= j < MAX_MESSAGES && j != i && n.core.entries[j].active
      ensures EntryOk(n'.core, n'.log, n'.core.entries[j]) && n.core.entries[j].slot != k
          && n.core.entries[j].serial <= n.core.born
    {
      assert EntryOk(n.core, n.log, n.core.entries[j]);
    }
  }

  lemma TicketUnaffectedByNew(entries: seq<Entry>, entries': seq<Entry>, i: nat, ticket: Option<Ticket>)
    requires TicketOk(entries, ticket) && |entries'| == |entries| && i < |entries| && !entries[i].active
    requires forall j :: 0 <= j < |entries| && j != i ==> entries'[j] == entries[j]
    requires entries'[i].state != TxSubmitting
    ensures TicketOk(entries', ticket)
  {
    if ticket != None {
      var j :| 0 <= j < |entries| && entries[j].state == TxSubmitting && Matches(entries[j], ticket.value);
      assert entries'[j].state == TxSubmitting && Matches(entries'[j], ticket.value);
    }
  }

  // Reboot

  /** After restoring `slots`, entry j serves slot slots[j] and the rest are unused. */
  ghost predicate Restored(core: Core, slots: seq<nat>, now: nat) {
    && core.Shape() && |slots| <= MAX_MESSAGES && core.generation == core.born == |slots|
    && (forall j :: 0 <= j < |slots| ==>
          slots[j] < MAX_MESSAGES && core.entries[j] == RestoredEntry(core.store, slots[j], j, now))
    && forall j :: |slots| <= j < MAX_MESSAGES ==> core.entries[j] == UNUSED
  }

  ghost function RestoredEntry(store: Store, slot: nat, j: nat, now: nat): Entry
    requires store.Shape() && slot < MAX_MESSAGES && j < MAX_MESSAGES
  {
    UNUSED.(active := true, state := TxQueued, generation := j + 1, due := now, message := store.slots[slot].message,
            slot := slot, remaining := store.slots[slot].message.hops, serial := j + 1)
  }

  lemma {:induction false} AdoptAllRestores(core: Core, slots: seq<nat>, now: nat)
    requires core.Shape() && core.entries == seq(MAX_MESSAGES, _ => UNUSED) && core.generation == core.born == 0
    requires |slots| <= MAX_MESSAGES && forall j :: 0 <= j < |slots| ==> slots[j] < MAX_MESSAGES
    ensures Restored(AdoptAll(core, slots, now), slots, now)
  {
    if slots != [] {
      var n := |slots| - 1;
      AdoptAllRestores(core, slots[..n], now);
      var before := AdoptAll(core, slots[..n], now);
      FirstUnused(before.entries, n);
    }
  }

  lemma FirstUnused(entries: seq<Entry>, n: nat)
    requires n < |entries| && !entries[n].active && forall j :: 0 <= j < n ==> entries[j].active
    ensures FindFirst(entries, Inactive) == n
  {
    hide FindFirst;
    assert Inactive(entries[n]);
    assert forall j :: 0 <= j < n ==> !Inactive(entries[j]);
  }

  /** What survives a reboot. */
  ghost predicate Durable(n: Node) {
    OwnRecords(n.core.store, n.name) && forall i <- n.core.store.nvs ::
        n.core.store.nvs[i] == RecordFor(n.core.store.nvs[i].message)
  }

  lemma RebootRestores(n: Node, openOk: bool, readable: nat -> bool, now: nat)
    requires Durable(n)
    ensures
      var n' := Rebooted(n, openOk, readable, now);
      && n'.core.store == Loaded(n.core.store.nvs, openOk, readable, n.name) && n'.core.store.Sound()
      && n'.core.store.nvs == n.core.store.nvs
      && Restored(n'.core, PendingSlots(n'.core.store.slots), now)
  {
    hide InUse, FindFirst;
    var store := Loaded(n.core.store.nvs, openOk, readable, n.name);
    LoadedSound(n.core.store.nvs, openOk, readable, n.name);
    AdoptAllRestores(Core(seq(MAX_MESSAGES, _ => UNUSED), store, 0, 0), PendingSlots(store.slots), now);
  }

  lemma RestoredEntryOk(core: Core, slots: seq<nat>, now: nat, j: nat)
    requires Restored(core, slots, now) && core.store.Sound() && slots == PendingSlots(core.store.slots) && j < |slots|
    ensures EntryOk(core, [], core.entries[j])
  {
    hide InUse, Store.Sound;
    assert slots[j] in slots;
    SoundSlot(core.store, slots[j]);
  }

  /** A boot establishes the invariant, whatever RAM held before: this is where every run starts. */
  lemma BootEstablishesInv(n: Node, openOk: bool, readable: nat -> bool, now: nat)
    requires Durable(n)
    ensures Inv(Rebooted(n, openOk, readable, now))
  {
    hide InUse, FindFirst, Loaded, AdoptAll, Store.Sound, EntryOk;
    RebootRestores(n, openOk, readable, now);
    var n' := Rebooted(n, openOk, readable, now);
    var slots := PendingSlots(n'.core.store.slots);
    forall j | 0 <= j < MAX_MESSAGES && n'.core.entries[j].active
      ensures EntryOk(n'.core, n'.log, n'.core.entries[j])
    {
      RestoredEntryOk(n'.core, slots, now, j);
    }
  }

  // The theorems

  /** Every step of every task keeps the invariant. */
  lemma StepKeepsInv(n: Node, step: Step)
    requires Inv(n) && Enabled(n, step)
    ensures Inv(Next(n, step))
  {
    hide Inv, Core.Timeout, Core.SendBegin, Core.SendEnd, Core.RadioResult, Core.Acknowledge, Core.Submit, Store.Write,
        Allocated, Reserved;
    match step
    case Reserve(slot, eraseOk) => ReserveKeeps(n, slot, eraseOk);
    case StoreTx(slot, m, nvsOk) => StoreTxKeeps(n, slot, m, nvsOk);
    case StoreRx(slot, m, nvsOk) => StoreKeeps(n, slot, m, nvsOk);
    case Submit(slot, now, nvsOk) => SubmitKeeps(n, slot, now, nvsOk);
    case Timeout(i, now, nvsOk) => TimeoutKeeps(n, i, now, nvsOk);
    case Begin(i, buildOk, random, now, nvsOk) => BeginKeeps(n, i, buildOk, random, now, nvsOk);
    case End(submitted, now, nvsOk) => EndKeeps(n, submitted, now, nvsOk);
    case Radio(id, request, outcome, now, nvsOk) => RadioKeeps(n, id, request, outcome, now, nvsOk);
    case Acknowledge(id, sender, nvsOk) => AcknowledgeKeeps(n, id, sender, nvsOk);
    case Reboot(openOk, readable, now) =>
      InvIsDurable(n);
      BootEstablishesInv(n, openOk, readable, now);
  }

  /** Some interleaving of the tasks, reboots included, leads from `n` to `n'`. */
  ghost predicate Run(n: Node, steps: seq<Step>, n': Node)
    decreases |steps|
  {
    if steps == [] then n' == n
    else n.core.Shape() && Enabled(n, steps[0]) && Run(Next(n, steps[0]), steps[1..], n')
  }

  lemma {:induction false} RunKeepsInv(n: Node, steps: seq<Step>, n': Node)
    requires Inv(n) && Run(n, steps, n')
    ensures Inv(n')
    decreases |steps|
  {
    if steps != [] {
      StepKeepsInv(n, steps[0]);
      RunKeepsInv(Next(n, steps[0]), steps[1..], n');
    }
  }

  /** Under every interleaving: active entries have different slots, each with its own undelivered
      record; a message that was allocated and written is always accepted by the scheduler; and no
      entry was given to the radio more than three times. */
  lemma SchedulerAndTableAgree(n: Node, steps: seq<Step>, n': Node)
    requires Inv(n) && Run(n, steps, n')
    ensures n'.core.Shape()
    ensures forall i :: 0 <= i < MAX_MESSAGES && n'.core.entries[i].active ==> Owns(n'.core.store, n'.core.entries[i])
    ensures forall i, j :: 0 <= i < j < MAX_MESSAGES && n'.core.entries[i].active && n'.core.entries[j].active ==>
              n'.core.entries[i].slot != n'.core.entries[j].slot
                  && n'.core.entries[i].generation != n'.core.entries[j].generation
    ensures forall k, now, ok :: k in n'.staged ==> n'.core.Submit(n'.staged[k], k, now, ok).1
    ensures forall serial: nat :: Times(n'.log, serial) <= MAX_ATTEMPTS
  {
    hide Owns, Times, IsPending, SameMessage, Live, FindFirst, Core.SetStatus;
    RunKeepsInv(n, steps, n');
    forall i | 0 <= i < MAX_MESSAGES && n'.core.entries[i].active
      ensures Owns(n'.core.store, n'.core.entries[i])
    {
      assert EntryOk(n'.core, n'.log, n'.core.entries[i]);
    }
    forall k <- n'.staged
      ensures FindFirst(n'.core.entries, Inactive) >= 0
    {
      SubmitFindsRoom(n', k);
    }
  }

  /** After any run and a reboot, whatever of the storage can be opened and read: every durable outgoing
      message that is read and not finished is queued by exactly one entry, as it was last committed,
      nothing else is queued, and the durable records stay as they were for the next boot. */
  lemma RebootRecovers(n: Node, steps: seq<Step>, n': Node, openOk: bool, readable: nat -> bool, now: nat, k: nat)
    requires Inv(n) && Run(n, steps, n') && k < MAX_MESSAGES
    ensures
      var after, nvs := Rebooted(n', openOk, readable, now), n'.core.store.nvs;
      && after.core.Shape() && after.core.store.nvs == nvs
      && (openOk && k in nvs && readable(k) && nvs[k].message.direction == TX && !Done(nvs[k].message) <==>
          exists i :: 0 <= i < MAX_MESSAGES && Serves(after.core.entries[i], k))
      && (forall i, j :: 0 <= i < j < MAX_MESSAGES ==>
            !(Serves(after.core.entries[i], k) && Serves(after.core.entries[j], k)))
      && forall i :: 0 <= i < MAX_MESSAGES && Serves(after.core.entries[i], k) ==>
           k in nvs && after.core.entries[i].message == nvs[k].message && after.core.entries[i].state == TxQueued
  {
    hide InUse, FindFirst, AdoptAll, Store.Sound, Run, IsPending;
    RunKeepsInv(n, steps, n');
    InvIsDurable(n');
    RebootRestores(n', openOk, readable, now);
    var after := Rebooted(n', openOk, readable, now);
    var slots, nvs := PendingSlots(after.core.store.slots), n'.core.store.nvs;
    LoadedKeepsOwn(n', openOk, readable, k);
    if k in nvs {
      PendingIff(nvs[k]);
    }
    if k in slots {
      var j :| 0 <= j < |slots| && slots[j] == k;
      assert Serves(after.core.entries[j], k);
    }
    forall i | 0 <= i < MAX_MESSAGES && Serves(after.core.entries[i], k)
      ensures i < |slots| && slots[i] == k && k in slots
    {
    }
  }

  lemma PendingIff(r: Record)
    ensures IsPending(r) <==> r.message.direction == TX && !Done(r.message)
  {
  }

  predicate Serves(e: Entry, slot: nat) {
    e.active && e.slot == slot
  }

  /** The load drops no readable outgoing message of the node itself. */
  lemma LoadedKeepsOwn(n: Node, openOk: bool, readable: nat -> bool, k: nat)
    requires Inv(n) && k < MAX_MESSAGES
    ensures
      var nvs, slots := n.core.store.nvs, Loaded(n.core.store.nvs, openOk, readable, n.name).slots;
      && (k in PendingSlots(slots) <==> openOk && k in nvs && readable(k) && IsPending(nvs[k]))
      && (k in PendingSlots(slots) ==> slots[k] == nvs[k])
  {
    hide InUse, PendingSlots;
  }

  // Progress

  ghost function Rank(state: TxState): nat {
    match state
    case TxSubmitting => 5
    case TxWaitingRadio => 4
    case TxWaitingAck => 3
    case _ => 2
  }

  /** A bound on the state changes an entry has left: attempts first, then the state. */
  ghost function Fuel(e: Entry): int {
    if e.active then 6 * (MAX_ATTEMPTS - e.attempts) + Rank(e.state) else 0
  }

  /** At most one entry changed; it kept its identity and has less fuel. */
  ghost predicate Burns(entries: seq<Entry>, entries': seq<Entry>) {
    entries' == entries || exists i :: 0 <= i < |entries| && BurnsAt(entries, entries', i)
  }

  ghost predicate BurnsAt(entries: seq<Entry>, entries': seq<Entry>, i: nat)
    requires i < |entries|
  {
    && |entries'| == |entries| && entries[i].active && SameIdentity(entries[i], entries'[i])
        && Fuel(entries'[i]) < Fuel(entries[i])
    && forall j :: 0 <= j < |entries| && j != i ==> entries'[j] == entries[j]
  }

  lemma ActiveIsLive(n: Node, i: nat)
    requires Inv(n) && i < MAX_MESSAGES && n.core.entries[i].active
    ensures Live(n.core.entries[i])
  {
    assert EntryOk(n.core, n.log, n.core.entries[i]);
  }

  lemma EndBurns(n: Node, submitted: bool, now: nat, nvsOk: bool)
    requires Inv(n) && n.ticket != None
    ensures Burns(n.core.entries, n.core.SendEnd(n.ticket.value, submitted, now, nvsOk).entries)
  {
    hide Inv, FindFirst, Store.Update;
    var i := TicketFinds(n);
    ActiveIsLive(n, i);
    assert BurnsAt(n.core.entries, n.core.SendEnd(n.ticket.value, submitted, now, nvsOk).entries, i);
  }

  lemma RadioBurns(n: Node, id: uint32, request: uint32, outcome: RadioOutcome, now: nat, nvsOk: bool)
    requires Inv(n)
    ensures Burns(n.core.entries, n.core.RadioResult(id, request, outcome, now, nvsOk).entries)
  {
    hide Inv, FindFirst, Store.Update;
    InvParts(n);
    var c := FindFirst(n.core.entries, AwaitingRadio(id, request));
    if c >= 0 {
      assert AwaitingRadio(id, request)(n.core.entries[c]);
      ActiveIsLive(n, c);
      FindsItself(n.core.entries, c, Ticket(id, n.core.entries[c].generation, request));
      assert BurnsAt(n.core.entries, n.core.RadioResult(id, request, outcome, now, nvsOk).entries, c);
    }
  }

  lemma AcknowledgeBurns(n: Node, id: uint32, sender: Text, nvsOk: bool)
    requires Inv(n)
    ensures Burns(n.core.entries, n.core.Acknowledge(id, sender, nvsOk).0.entries)
  {
    hide Inv, FindFirst, Store.Update;
    InvParts(n);
    var i := FindFirst(n.core.entries, AwaitingAck(id, sender));
    if sender != [] && i >= 0 {
      assert AwaitingAck(id, sender)(n.core.entries[i]);
      ActiveIsLive(n, i);
      assert BurnsAt(n.core.entries, n.core.Acknowledge(id, sender, nvsOk).0.entries, i);
    }
  }

  lemma TimeoutBurns(n: Node, i: nat, now: nat, nvsOk: bool)
    requires Inv(n) && i < MAX_MESSAGES
    ensures Burns(n.core.entries, n.core.Timeout(i, now, nvsOk).entries)
  {
    hide Inv, Store.Update;
    InvParts(n);
    var entries, entries' := n.core.entries, n.core.Timeout(i, now, nvsOk).entries;
    if entries[i].active {
      ActiveIsLive(n, i);
      assert entries' == entries || BurnsAt(entries, entries', i);
    }
  }

  lemma BeginBurns(n: Node, i: nat, buildOk: bool, random: uint32, now: nat, nvsOk: bool)
    requires Inv(n) && i < MAX_MESSAGES
    ensures Burns(n.core.entries, n.core.SendBegin(i, buildOk, random, now, nvsOk).0.entries)
  {
    hide Inv, Store.Update;
    InvParts(n);
    var entries, entries' := n.core.entries, n.core.SendBegin(i, buildOk, random, now, nvsOk).0.entries;
    if entries[i].active {
      ActiveIsLive(n, i);
      assert entries' == entries || BurnsAt(entries, entries', i);
    }
  }

  /** Every step but a submission and a reboot leaves the entries alone or burns fuel of one. */
  lemma StepBurns(n: Node, step: Step)
    requires Inv(n) && Enabled(n, step) && !step.Submit? && !step.Reboot?
    ensures Burns(n.core.entries, Next(n, step).core.entries)
  {
    hide Inv, FindFirst, Core.SendBegin, Core.Timeout, Core.SendEnd, Core.RadioResult, Core.Acknowledge, Store.Update,
        Store.Write, Allocated, Reserved, BurnsAt;
    InvParts(n);
    match step
    case Reserve(_, _) =>
    case StoreTx(_, _, _) =>
    case StoreRx(_, _, _) =>
    case Timeout(i, now, nvsOk) => TimeoutBurns(n, i, now, nvsOk);
    case Begin(i, buildOk, random, now, nvsOk) => BeginBurns(n, i, buildOk, random, now, nvsOk);
    case End(submitted, now, nvsOk) => EndBurns(n, submitted, now, nvsOk);
    case Radio(id, request, outcome, now, nvsOk) => RadioBurns(n, id, request, outcome, now, nvsOk);
    case Acknowledge(id, sender, nvsOk) => AcknowledgeBurns(n, id, sender, nvsOk);
  }

  /** The active entry with this serial, if there still is one. */
  ghost function EntryOf(n: Node, serial: nat): Option<Entry> {
    var i := FindFirst(n.core.entries, HasSerial(serial));
    if i < 0 then None else Some(n.core.entries[i])
  }

  ghost function HasSerial(serial: nat): Entry -> bool {
    (e: Entry) => e.active && e.serial == serial
  }

  ghost function FuelOf(n: Node, serial: nat): int {
    if EntryOf(n, serial) == None then 0 else Fuel(EntryOf(n, serial).value)
  }

  lemma EntryAt(n: Node, serial: nat, i: nat)
    requires Inv(n) && i < MAX_MESSAGES && n.core.entries[i].active && n.core.entries[i].serial == serial
    ensures EntryOf(n, serial) == Some(n.core.entries[i])
  {
    hide FindFirst;
    assert HasSerial(serial)(n.core.entries[i]);
  }

  lemma NoEntry(n: Node, serial: nat)
    requires n.core.Shape() && forall i :: 0 <= i < MAX_MESSAGES && n.core.entries[i].active ==>
        n.core.entries[i].serial != serial
    ensures EntryOf(n, serial) == None
  {
    hide FindFirst;
    assert forall i :: 0 <= i < MAX_MESSAGES ==> !HasSerial(serial)(n.core.entries[i]);
  }

  lemma BurningSpends(n: Node, n': Node, serial: nat)
    requires Inv(n) && Inv(n') && Burns(n.core.entries, n'.core.entries)
    ensures EntryOf(n', serial) == EntryOf(n, serial) || FuelOf(n', serial) < FuelOf(n, serial)
  {
    hide Inv, EntryOf, SameMessage;
    InvParts(n);
    InvParts(n');
    if n'.core.entries == n.core.entries {
      SameEntries(n, n', serial);
    } else {
      var i :| 0 <= i < MAX_MESSAGES && BurnsAt(n.core.entries, n'.core.entries, i);
      if j :| 0 <= j < MAX_MESSAGES && n.core.entries[j].active && n.core.entries[j].serial == serial {
        EntryAt(n, serial, j);
        ActiveIsLive(n, j);
        if n'.core.entries[j].active {
          EntryAt(n', serial, j);
        } else {
          NoEntry(n', serial);
        }
      } else {
        NoEntry(n, serial);
        NoEntry(n', serial);
      }
    }
  }

  lemma SameEntries(n: Node, n': Node, serial: nat)
    requires n'.core.entries == n.core.entries
    ensures EntryOf(n', serial) == EntryOf(n, serial)
  {
  }

  lemma SubmitSpendsNothing(n: Node, slot: nat, now: nat, nvsOk: bool, serial: nat)
    requires Inv(n) && Enabled(n, Submit(slot, now, nvsOk)) && serial <= n.core.born
    ensures EntryOf(Next(n, Submit(slot, now, nvsOk)), serial) == EntryOf(n, serial)
    ensures Next(n, Submit(slot, now, nvsOk)).core.born == n.core.born + 1
  {
    hide Inv, EntryOf, FindFirst, Store.Update;
    InvParts(n);
    var n' := Next(n, Submit(slot, now, nvsOk));
    SubmitKeeps(n, slot, now, nvsOk);
    InvParts(n');
    var i := FindFirst(n.core.entries, Inactive);
    assert Inactive(n.core.entries[i]);
    if j :| 0 <= j < MAX_MESSAGES && n.core.entries[j].active && n.core.entries[j].serial == serial {
      EntryAt(n, serial, j);
      EntryAt(n', serial, j);
    } else {
      NoEntry(n, serial);
      NoEntry(n', serial);
    }
  }

  lemma BornKept(n: Node, step: Step)
    requires n.core.Shape() && Enabled(n, step) && !step.Submit? && !step.Reboot?
    ensures Next(n, step).core.born == n.core.born
  {
    hide FindFirst, Store.Update, Store.Write;
  }

  /** Whatever happens, an entry stays as it is or has less fuel left; it never comes back. */
  lemma StepSpends(n: Node, step: Step, serial: nat)
    requires Inv(n) && Enabled(n, step) && !step.Reboot? && serial <= n.core.born
    ensures serial <= Next(n, step).core.born
    ensures EntryOf(Next(n, step), serial) == EntryOf(n, serial) || FuelOf(Next(n, step), serial) < FuelOf(n, serial)
  {
    hide Inv, Enabled, EntryOf, Next, Burns;
    InvParts(n);
    StepKeepsInv(n, step);
    if step.Submit? {
      SubmitSpendsNothing(n, step.slot, step.now, step.nvsOk, serial);
    } else {
      BornKept(n, step);
      StepBurns(n, step);
      BurningSpends(n, Next(n, step), serial);
    }
  }

  lemma FuelBounds(n: Node, serial: nat)
    requires Inv(n)
    ensures 0 <= FuelOf(n, serial) <= 23
  {
    hide FindFirst;
    var i := FindFirst(n.core.entries, HasSerial(serial));
    if i >= 0 {
      assert HasSerial(serial)(n.core.entries[i]);
      ActiveIsLive(n, i);
    }
  }

  /** How many steps of a run changed the entry with this serial. */
  ghost function Changes(n: Node, steps: seq<Step>, serial: nat): nat
    decreases |steps|
  {
    if steps == [] || !n.core.Shape() || !Enabled(n, steps[0]) then 0
    else
      var n' := Next(n, steps[0]);
      Changes(n', steps[1..], serial) + if EntryOf(n', serial) == EntryOf(n, serial) then 0 else 1
  }

  /** Between two reboots an entry changes at most 23 times before it is delivered or has failed. */
  lemma {:induction false} BoundedLife(n: Node, steps: seq<Step>, n': Node, serial: nat)
    requires Inv(n) && Run(n, steps, n') && serial <= n.core.born && forall i :: 0 <= i < |steps| ==> !steps[i].Reboot?
    ensures Changes(n, steps, serial) + FuelOf(n', serial) <= FuelOf(n, serial) <= 23
    decreases |steps|
  {
    FuelBounds(n, serial);
    if steps != [] {
      StepKeepsInv(n, steps[0]);
      StepSpends(n, steps[0], serial);
      BoundedLife(Next(n, steps[0]), steps[1..], n', serial);
    }
  }

  /** The step of the scheduler for entry `i`: its timeout, or the first half of its send. */
  function VisitStep(e: Entry, i: nat, buildOk: bool, random: uint32, now: nat, nvsOk: bool): Step {
    if Sendable(e) then Begin(i, buildOk, random, now, nvsOk) else Timeout(i, now, nvsOk)
  }

  /** No message is ever stuck: once an active entry is due, the scheduler's step for it is possible and
      takes it further, whatever comes of building the packet and of writing to storage; and a send
      that is under way can be finished, whatever the radio's answer, which takes its entry further. */
  lemma NeverStuck(n: Node, i: nat, buildOk: bool, random: uint32, submitted: bool, now: nat, nvsOk: bool)
    requires Inv(n) && i < MAX_MESSAGES && n.core.entries[i].active
    ensures n.ticket == None && n.core.entries[i].due <= now ==>
              var step := VisitStep(n.core.entries[i], i, buildOk, random, now, nvsOk);
              Enabled(n, step) && Next(n, step).core.Shape()
                  && Fuel(Next(n, step).core.entries[i]) < Fuel(n.core.entries[i])
    ensures n.ticket != None ==>
              var step := End(submitted, now, nvsOk);
              && Enabled(n, step) && Next(n, step).ticket == None && Next(n, step).core.Shape()
              && exists j :: 0 <= j < MAX_MESSAGES && Matches(n.core.entries[j], n.ticket.value)
                             && Fuel(Next(n, step).core.entries[j]) < Fuel(n.core.entries[j])
  {
    hide Inv, FindFirst, Store.Update;
    InvParts(n);
    ActiveIsLive(n, i);
    if n.ticket != None {
      StepKeepsInv(n, End(submitted, now, nvsOk));
      InvParts(Next(n, End(submitted, now, nvsOk)));
      EndMovesTicket(n, submitted, now, nvsOk);
    } else if n.core.entries[i].due <= now {
      var step := VisitStep(n.core.entries[i], i, buildOk, random, now, nvsOk);
      StepKeepsInv(n, step);
      InvParts(Next(n, step));
    }
  }

  lemma EndMovesTicket(n: Node, submitted: bool, now: nat, nvsOk: bool)
    requires Inv(n) && n.ticket != None
    ensures var core' := n.core.SendEnd(n.ticket.value, submitted, now, nvsOk);
      |core'.entries| == MAX_MESSAGES
      && exists j :: 0 <= j < MAX_MESSAGES && Matches(n.core.entries[j], n.ticket.value)
          && Fuel(core'.entries[j]) < Fuel(n.core.entries[j])
  {
    hide Inv, FindFirst, Store.Update;
    InvParts(n);
    var j := TicketFinds(n);
    ActiveIsLive(n, j);
    var core' := n.core.SendEnd(n.ticket.value, submitted, now, nvsOk);
    assert Matches(n.core.entries[j], n.ticket.value) && Fuel(core'.entries[j]) < Fuel(n.core.entries[j]);
  }
}
