/** The transmit scheduler: per-message retry and acknowledgement over the message table. */
module TxScheduler {
  import opened CText
  import opened MessageStore

  const MAX_ATTEMPTS := 3
  const ACK_TIMEOUT := 5000
  const RADIO_TIMEOUT := 10000
  const BUSY_BACKOFF := 2000
  const FAULT_BACKOFF := 5000

  datatype TxState =
    | TxEmpty | TxCreated | TxQueued | TxSubmitting | TxWaitingRadio | TxWaitingAck | TxRetryBackoff
    | TxDelivered | TxFailedRadio | TxFailedQueue | TxFailedTimeout

  datatype TxError = NoError | RadioTimeout | QueueFull | PacketBuild | AckTimeout

  datatype RadioOutcome = Success | ChannelBusy | Fault

  /** A scheduler entry. `serial` numbers the entries made since boot; the code keeps only its 32-bit `generation`. */
  datatype Entry = Entry(
    active: bool, state: TxState, error: TxError, attempts: nat, generation: uint32, request: uint32, due: nat,
    message: Message, slot: int, remaining: int, serial: nat)

  const UNUSED := Entry(false, TxEmpty, NoError, 0, 0, 0, 0, BLANK, 0, 0, 0)

  /** What send_current_packet remembers while the lock is dropped. */
  datatype Ticket = Ticket(id: uint32, generation: uint32, request: uint32)

  datatype Option<T> = None | Some(value: T)

  /** `++next_generation`, skipping 0. */
  function NextGeneration(g: uint32): (r: uint32)
    ensures r != 0
  {
    if g == 0xFFFF_FFFF then 1 else g + 1
  }

  /** The index of the first entry that satisfies `p`, or -1. */
  function FindFirst(entries: seq<Entry>, p: Entry -> bool): (i: int)
    ensures -1 <= i < |entries|
    ensures i >= 0 ==> p(entries[i]) && forall j :: 0 <= j < i ==> !p(entries[j])
    ensures i == -1 ==> forall j :: 0 <= j < |entries| ==> !p(entries[j])
  {
    if entries == [] then -1
    else
      var n := |entries| - 1;
      var i := FindFirst(entries[..n], p);
      if i >= 0 then i else if p(entries[n]) then n else -1
  }

  predicate Sendable(e: Entry) {
    e.state in {TxQueued, TxRetryBackoff, TxCreated}
  }

  predicate Matches(e: Entry, t: Ticket) {
    e.active && e.message.id == t.id && e.generation == t.generation && e.request == t.request
  }

  predicate Inactive(e: Entry) {
    !e.active
  }

  /** find_entry_by_generation */
  function Matching(t: Ticket): Entry -> bool {
    (e: Entry) => Matches(e, t)
  }

  function AwaitingRadio(id: uint32, request: uint32): Entry -> bool {
    (e: Entry) => e.active && e.state == TxWaitingRadio && e.message.id == id && e.request == request
  }

  /** find_entry: an ACK comes from the destination of the message it acknowledges. */
  function AwaitingAck(id: uint32, sender: Text): Entry -> bool {
    (e: Entry) => e.active && e.state == TxWaitingAck && e.message.id == id && e.message.destination == sender
  }

  function FailureState(error: TxError): TxState {
    match error
    case AckTimeout => TxFailedTimeout
    case QueueFull => TxFailedQueue
    case PacketBuild => TxFailedQueue
    case _ => TxFailedRadio
  }

  function FailureStatus(error: TxError): Status {
    match FailureState(error)
    case TxFailedTimeout => FAILED_TIMEOUT
    case TxFailedQueue => FAILED_QUEUE
    case _ => FAILED_RADIO
  }

  /** The message that set_status writes. */
  function Restatus(e: Entry, status: Status): Message {
    e.message.(status := status, hops := if e.remaining < 0 then 0 else e.remaining)
  }

  /** Entries and table together: everything that one critical section of the scheduler can change. */
  datatype Core = Core(entries: seq<Entry>, store: Store, generation: uint32, born: nat) {
    predicate Shape() {
      |entries| == MAX_MESSAGES && store.Shape()
    }

    /** Entry `i` becomes `e` with this status, and the status is written to its slot. */
    function SetStatus(i: nat, e: Entry, status: Status, nvsOk: bool): Core
      requires Shape() && i < MAX_MESSAGES
    {
      var m := Restatus(e, status);
      this.(entries := entries[i := e.(message := m)],
            store := if 0 <= e.slot < MAX_MESSAGES then store.Update(e.slot, m, nvsOk).0 else store)
    }

    function Put(i: nat, e: Entry): Core
      requires Shape() && i < MAX_MESSAGES
    {
      this.(entries := entries[i := e])
    }

    /** finalize_failure */
    function Fail(i: nat, e: Entry, error: TxError, nvsOk: bool): Core
      requires Shape() && i < MAX_MESSAGES
    {
      SetStatus(i, e.(error := error, state := FailureState(error), active := false), FailureStatus(error), nvsOk)
    }

    /** A new entry for message `m` of table slot `slot`. */
    function NewEntry(m: Message, slot: int, now: nat): Entry {
      UNUSED.(active := true, state := TxQueued, generation := NextGeneration(generation), due := now,
              message := m, slot := slot, remaining := m.hops, serial := born + 1)
    }

    /** tx_scheduler_submit */
    function Submit(m: Message, slot: int, now: nat, nvsOk: bool): (Core, bool)
      requires Shape()
    {
      var i := FindFirst(entries, Inactive);
      if i < 0 then (this, false)
      else (SetStatus(i, NewEntry(m, slot, now), QUEUED, nvsOk).(generation := NextGeneration(generation),
          born := born + 1), true)
    }

    /** One round of the loop of tx_scheduler_restore_pending: no status is written. */
    function Adopt(slot: nat, now: nat): Core
      requires Shape() && slot < MAX_MESSAGES
    {
      var i := FindFirst(entries, Inactive);
      if i < 0 then this
      else Put(i, NewEntry(store.slots[slot].message, slot, now)).(generation := NextGeneration(generation),
          born := born + 1)
    }

    /** The first critical section of send_current_packet; a ticket means the packet goes to the radio. */
    function SendBegin(i: nat, buildOk: bool, random: uint32, now: nat, nvsOk: bool): (Core, Option<Ticket>)
      requires Shape() && i < MAX_MESSAGES
    {
      var e := entries[i];
      if !e.active || !Sendable(e) then (this, None)
      else if e.attempts >= MAX_ATTEMPTS then (Fail(i, e, RadioTimeout, nvsOk), None)
      else if !buildOk then (Fail(i, e.(due := now + ACK_TIMEOUT), PacketBuild, nvsOk), None)
      else
        var request := if random == 0 then 1 else random;
        (Put(i, e.(state := TxSubmitting, request := request, attempts := e.attempts + 1)),
         Some(Ticket(e.message.id, e.generation, request)))
    }

    /** The second critical section of send_current_packet. */
    function SendEnd(t: Ticket, submitted: bool, now: nat, nvsOk: bool): Core
      requires Shape()
    {
      var i := FindFirst(entries, Matching(t));
      if i < 0 || entries[i].state != TxSubmitting then this
      else
        var e := entries[i];
        if submitted then Put(i, e.(state := TxWaitingRadio, due := now + RADIO_TIMEOUT))
        else if e.attempts >= MAX_ATTEMPTS then Fail(i, e, QueueFull, nvsOk)
        else Put(i, e.(error := QueueFull, state := TxRetryBackoff, due := now + BUSY_BACKOFF))
    }

    /** handle_radio_result */
    function RadioResult(id: uint32, request: uint32, outcome: RadioOutcome, now: nat, nvsOk: bool): Core
      requires Shape()
    {
      var c := FindFirst(entries, AwaitingRadio(id, request));
      if c < 0 then this
      else
        var t := Ticket(id, entries[c].generation, request);
        var i := FindFirst(entries, Matching(t));
        if i < 0 || entries[i].state != TxWaitingRadio then this
        else
          var e := entries[i];
          match outcome
          case Success => SetStatus(i, e.(state := TxWaitingAck, due := now + ACK_TIMEOUT), SENT, nvsOk)
          case ChannelBusy => Put(i, e.(state := TxRetryBackoff, due := now + BUSY_BACKOFF))
          case Fault => Put(i, e.(state := TxRetryBackoff, due := now + FAULT_BACKOFF))
    }

    /** The critical section of scheduler_task for entry `i`: timeouts. */
    function Timeout(i: nat, now: nat, nvsOk: bool): Core
      requires Shape() && i < MAX_MESSAGES
    {
      var e := entries[i];
      if !e.active || now < e.due then this
      else if e.state == TxWaitingAck then
        if e.attempts >= MAX_ATTEMPTS then Fail(i, e, AckTimeout, nvsOk)
        else Put(i, e.(state := TxRetryBackoff, due := now + FAULT_BACKOFF * e.attempts))
      else if e.state == TxWaitingRadio then
        if e.attempts >= MAX_ATTEMPTS then Fail(i, e, RadioTimeout, nvsOk)
        else Put(i, e.(state := TxRetryBackoff, due := now + BUSY_BACKOFF))
      else this
    }

    /** tx_scheduler_acknowledge */
    function Acknowledge(id: uint32, sender: Text, nvsOk: bool): (Core, bool)
      requires Shape()
    {
      var i := FindFirst(entries, AwaitingAck(id, sender));
      if sender == [] || i < 0 then (this, false)
      else (SetStatus(i, entries[i].(state := TxDelivered, error := NoError, active := false), ACKED, nvsOk), true)
    }
  }

  /** tx_scheduler_restore_pending over the slots that the table reports. */
  function AdoptAll(core: Core, slots: seq<nat>, now: nat): (r: Core)
    requires core.Shape() && forall j :: 0 <= j < |slots| ==> slots[j] < MAX_MESSAGES
    ensures r.Shape() && r.store == core.store
  {
    if slots == [] then core
    else
      AdoptAll(core, slots[..|slots| - 1], now).Adopt(slots[|slots| - 1], now)
  }

  /** The scheduler's own state, changed in place under its lock. */
  class Scheduler {
    const entries: array<Entry>
    const table: MessageTable
    var generation: uint32
    var born: nat

    ghost predicate Valid()
      reads this, entries, table, table.slots, table.reserved
    {
      entries.Length == table.slots.Length == table.reserved.Length == MAX_MESSAGES && table.Valid()
    }

    ghost function View(): Core
      reads this, entries, table, table.slots, table.reserved
    {
      Core(entries[..], table.View(), generation, born)
    }

    /** All entries unused, as static storage starts. */
    constructor (table: MessageTable)
      requires table.Valid()
      ensures Valid() && fresh(entries) && this.table == table
      ensures View() == Core(seq(MAX_MESSAGES, _ => UNUSED), table.View(), 0, 0)
    {
      entries := new Entry[MAX_MESSAGES](_ => UNUSED);
      this.table, generation, born := table, 0, 0;
      new;
      assert entries[..] == seq(MAX_MESSAGES, _ => UNUSED);
    }

    /** The search loops of next_slot, find_entry and find_entry_by_generation. */
    method Search(p: Entry -> bool) returns (i: int)
      ensures i == FindFirst(entries[..], p)
    {
      for j := 0 to entries.Length
        invariant FindFirst(entries[..j], p) == -1
      {
        assert entries[..j + 1][..j] == entries[..j];
        if p(entries[j]) {
          FoundEarly(entries[..], j, p);
          return j;
        }
      }
      assert entries[..entries.Length] == entries[..];
      return -1;
    }

    /** set_status: the entry's copy of the message, and its record in the table. */
    method SetStatus(i: nat, e: Entry, status: Status, nvsOk: bool)
      requires Valid() && i < MAX_MESSAGES
      modifies entries, table, table.slots, table.reserved
      ensures Valid() && View() == old(View()).SetStatus(i, e, status, nvsOk)
    {
      hide MessageTable.Valid, Store.Update;
      var m := Restatus(e, status);
      entries[i] := e.(message := m);
      if 0 <= e.slot < MAX_MESSAGES {
        var _ := table.Update(e.slot, m, nvsOk);
      }
    }

    method Submit(m: Message, slot: int, now: nat, nvsOk: bool) returns (ok: bool)
      requires Valid()
      modifies this, entries, table, table.slots, table.reserved
      ensures Valid() && (View(), ok) == old(View()).Submit(m, slot, now, nvsOk)
    {
      hide MessageTable.Valid, Store.Update, FindFirst;
      var i := Search(Inactive);
      if i < 0 {
        return false;
      }
      generation := NextGeneration(generation);
      born := born + 1;
      SetStatus(i, UNUSED.(active := true, state := TxQueued, generation := generation, due := now, message := m,
        slot := slot, remaining := m.hops, serial := born), QUEUED, nvsOk);
      return true;
    }

    method Acknowledge(id: uint32, sender: Text, nvsOk: bool) returns (ok: bool)
      requires Valid()
      modifies entries, table, table.slots, table.reserved
      ensures Valid() && (View(), ok) == old(View()).Acknowledge(id, sender, nvsOk)
    {
      hide MessageTable.Valid, Store.Update, FindFirst;
      if sender == [] {
        return false;
      }
      var i := Search(AwaitingAck(id, sender));
      if i < 0 {
        return false;
      }
      SetStatus(i, entries[i].(state := TxDelivered, error := NoError, active := false), ACKED, nvsOk);
      return true;
    }

    method FinalizeFailure(i: nat, e: Entry, error: TxError, nvsOk: bool)
      requires Valid() && i < MAX_MESSAGES
      modifies entries, table, table.slots, table.reserved
      ensures Valid() && View() == old(View()).Fail(i, e, error, nvsOk)
    {
      hide MessageTable.Valid, Store.Update;
      SetStatus(i, e.(error := error, state := FailureState(error), active := false), FailureStatus(error), nvsOk);
    }

    method CheckTimeout(i: nat, now: nat, nvsOk: bool)
      requires Valid() && i < MAX_MESSAGES
      modifies entries, table, table.slots, table.reserved
      ensures Valid() && View() == old(View()).Timeout(i, now, nvsOk)
    {
      hide MessageTable.Valid, Store.Update;
      var e := entries[i];
      if !e.active || now < e.due {
        return;
      }
      if e.state == TxWaitingAck {
        if e.attempts >= MAX_ATTEMPTS {
          FinalizeFailure(i, e, AckTimeout, nvsOk);
        } else {
          entries[i] := e.(state := TxRetryBackoff, due := now + FAULT_BACKOFF * e.attempts);
        }
      } else if e.state == TxWaitingRadio {
        if e.attempts >= MAX_ATTEMPTS {
          FinalizeFailure(i, e, RadioTimeout, nvsOk);
        } else {
          entries[i] := e.(state := TxRetryBackoff, due := now + BUSY_BACKOFF);
        }
      }
    }

    method SendBegin(i: nat, buildOk: bool, random: uint32, now: nat, nvsOk: bool) returns (ticket: Option<Ticket>)
      requires Valid() && i < MAX_MESSAGES
      modifies entries, table, table.slots, table.reserved
      ensures Valid() && (View(), ticket) == old(View()).SendBegin(i, buildOk, random, now, nvsOk)
    {
      hide MessageTable.Valid, Store.Update;
      var e := entries[i];
      if !e.active || !Sendable(e) {
        return None;
      }
      if e.attempts >= MAX_ATTEMPTS {
        FinalizeFailure(i, e, RadioTimeout, nvsOk);
        return None;
      }
      if !buildOk {
        FinalizeFailure(i, e.(due := now + ACK_TIMEOUT), PacketBuild, nvsOk);
        return None;
      }
      var request := if random == 0 then 1 else random;
      entries[i] := e.(state := TxSubmitting, request := request, attempts := e.attempts + 1);
      return Some(Ticket(e.message.id, e.generation, request));
    }

    method SendEnd(t: Ticket, submitted: bool, now: nat, nvsOk: bool)
      requires Valid()
      modifies entries, table, table.slots, table.reserved
      ensures Valid() && View() == old(View()).SendEnd(t, submitted, now, nvsOk)
    {
      hide MessageTable.Valid, Store.Update, FindFirst;
      var i := Search(Matching(t));
      if i < 0 || entries[i].state != TxSubmitting {
        return;
      }
      var e := entries[i];
      if submitted {
        entries[i] := e.(state := TxWaitingRadio, due := now + RADIO_TIMEOUT);
      } else if e.attempts >= MAX_ATTEMPTS {
        FinalizeFailure(i, e, QueueFull, nvsOk);
      } else {
        entries[i] := e.(error := QueueFull, state := TxRetryBackoff, due := now + BUSY_BACKOFF);
      }
    }

    method HandleRadioResult(id: uint32, request: uint32, outcome: RadioOutcome, now: nat, nvsOk: bool)
      requires Valid()
      modifies entries, table, table.slots, table.reserved
      ensures Valid() && View() == old(View()).RadioResult(id, request, outcome, now, nvsOk)
    {
      hide MessageTable.Valid, Store.Update, FindFirst;
      var c := Search(AwaitingRadio(id, request));
      if c < 0 {
        return;
      }
      var i := Search(Matching(Ticket(id, entries[c].generation, request)));
      if i < 0 || entries[i].state != TxWaitingRadio {
        return;
      }
      var e := entries[i];
      match outcome
      case Success =>
        SetStatus(i, e.(state := TxWaitingAck, due := now + ACK_TIMEOUT), SENT, nvsOk);
      case ChannelBusy =>
        entries[i] := e.(state := TxRetryBackoff, due := now + BUSY_BACKOFF);
      case Fault =>
        entries[i] := e.(state := TxRetryBackoff, due := now + FAULT_BACKOFF);
    }

    method Adopt(slot: nat, now: nat)
      requires Valid() && slot < MAX_MESSAGES
      modifies this, entries
      ensures Valid() && View() == old(View()).Adopt(slot, now)
    {
      hide MessageTable.Valid, FindFirst;
      var i := Search(Inactive);
      if i >= 0 {
        generation := NextGeneration(generation);
        born := born + 1;
        var m := table.slots[slot].message;
        entries[i] := UNUSED.(active := true, state := TxQueued, generation := generation, due := now, message := m,
          slot := slot, remaining := m.hops, serial := born);
      }
    }

    /** tx_scheduler_restore_pending */
    method RestorePending(now: nat)
      requires Valid()
      modifies this, entries
      ensures Valid() && View() == AdoptAll(old(View()), PendingSlots(table.slots[..]), now)
    {
      hide MessageTable.Valid, Core.Adopt, PendingSlots;
      var slots := table.CopyPending();
      for j := 0 to |slots|
        invariant Valid() && View() == AdoptAll(old(View()), slots[..j], now)
      {
        assert slots[..j + 1][..j] == slots[..j];
        Adopt(slots[j], now);
      }
      assert slots[..|slots|] == slots;
    }
  }

  lemma FoundEarly(entries: seq<Entry>, j: nat, p: Entry -> bool)
    requires j < |entries| && p(entries[j]) && FindFirst(entries[..j], p) == -1
    ensures FindFirst(entries, p) == j
  {
    assert forall k :: 0 <= k < j ==> entries[..j][k] == entries[k];
  }
}
