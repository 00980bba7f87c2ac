/** The 16-slot message table: records in RAM, their copies in non-volatile storage, and slot reservation. */
module MessageStore {
  import opened CText

  const MAX_MESSAGES := 16

  datatype Direction = NoDirection | TX | RX

  /** The status labels the node writes. */
  datatype Status =
    | NoStatus | PENDING | QUEUED | SENT | ACKED | FAILED | FAILED_RADIO | FAILED_QUEUE | FAILED_TIMEOUT | RECEIVED

  /** emergency_message_t, without the fields that are only shown. */
  datatype Message = Message(
    id: uint32, direction: Direction, source: Text, destination: Text, kind: Text, priority: Text, status: Status,
    epoch: uint32, hops: int, payload: Text)

  /** An all-zero message, as memset leaves it. */
  const BLANK := Message(0, NoDirection, [], [], [], [], NoStatus, 0, 0, [])

  datatype SlotState = Empty | Queued | Sent | Acked | Failed | Received

  datatype Record = Record(state: SlotState, message: Message)

  const VACANT := Record(Empty, BLANK)

  predicate IsFailed(s: Status) {
    s in {FAILED, FAILED_RADIO, FAILED_QUEUE, FAILED_TIMEOUT}
  }

  /** state_for_message */
  function StateFor(m: Message): SlotState {
    if m.direction == RX then Received
    else if m.status == ACKED then Acked
    else if IsFailed(m.status) then Failed
    else if m.status == SENT then Sent
    else Queued
  }

  function RecordFor(m: Message): Record {
    Record(StateFor(m), m)
  }

  /** A message that still has to be delivered. */
  predicate Unfinished(m: Message) {
    StateFor(m) == Queued || StateFor(m) == Sent
  }

  /** Can its slot be taken for a new message? */
  predicate Evictable(s: Store, i: nat)
    requires s.Shape() && i < MAX_MESSAGES
  {
    !s.reserved[i] && StateFor(s.slots[i].message) in {Acked, Failed, Received}
  }

  /** `a` is a better victim than `b`: the older of two known ages, and a known age before an unknown one. */
  predicate OlderThan(a: uint32, b: uint32) {
    a != 0 && (b == 0 || a < b)
  }

  /** The table: RAM slots, reservations, the durable records, and the cached number of messages. */
  datatype Store = Store(slots: seq<Record>, reserved: seq<bool>, nvs: map<nat, Record>, count: nat) {
    predicate Shape() {
      |slots| == |reserved| == MAX_MESSAGES
    }

    /** What every operation keeps: a slot in use mirrors its durable record, a vacant one is blank,
        only vacant slots are reserved, and the cached count is right. */
    ghost predicate Sound() {
      && Shape() && count == InUse(slots)
      && (forall i :: 0 <= i < MAX_MESSAGES ==> SlotSound(i))
      && forall i <- nvs :: nvs[i] == RecordFor(nvs[i].message)
    }

    ghost predicate SlotSound(i: nat)
      requires Shape() && i < MAX_MESSAGES
    {
      if slots[i].state == Empty then slots[i] == VACANT
      else slots[i] == RecordFor(slots[i].message) && !reserved[i] && i in nvs && nvs[i] == slots[i]
    }

    predicate Free(i: nat)
      requires Shape() && i < MAX_MESSAGES
    {
      slots[i].state == Empty && !reserved[i]
    }

    function WithSlot(i: nat, r: Record): Store
      requires Shape() && i < MAX_MESSAGES
    {
      var slots' := slots[i := r];
      this.(slots := slots', nvs := if r.state == Empty then nvs - {i} else nvs[i := r], count := InUse(slots'))
    }

    /** write_record_locked; `ok` is whether the storage committed it. */
    function WriteRecord(i: nat, m: Message, ok: bool): Store
      requires Shape() && i < MAX_MESSAGES
    {
      if ok then WithSlot(i, RecordFor(m)) else this
    }

    /** message_store_write */
    function Write(i: nat, m: Message, ok: bool): (Store, bool)
      requires Shape() && i < MAX_MESSAGES
    {
      if !reserved[i] then (this, false) else (WriteRecord(i, m, ok).(reserved := reserved[i := false]), ok)
    }

    /** message_store_update */
    function Update(i: nat, m: Message, ok: bool): (Store, bool)
      requires Shape() && i < MAX_MESSAGES
    {
      if reserved[i] && slots[i].state == Empty then (WriteRecord(i, m, ok).(reserved := reserved[i := false]), ok)
      else if slots[i].state != Empty then (WriteRecord(i, m, ok), ok)
      else (this, false)
    }

    /** message_store_delete */
    function Delete(i: nat, ok: bool): (Store, bool)
      requires Shape() && i < MAX_MESSAGES
    {
      if reserved[i] && slots[i].state == Empty then (this.(reserved := reserved[i := false]), true)
      else if ok then (WithSlot(i, VACANT), true)
      else (this, false)
    }
  }

  function InUse(slots: seq<Record>): nat {
    if slots == [] then 0 else InUse(slots[..|slots| - 1]) + if slots[|slots| - 1].state != Empty then 1 else 0
  }

  /** What message_store_allocate may do: take the first free slot; when there is none, evict a slot
      that no other evictable slot is older than, the first of equals; or give up. */
  ghost predicate Allocated(s: Store, s': Store, slot: int, ok: bool)
    requires s.Shape()
  {
    if exists i :: 0 <= i < MAX_MESSAGES && s.Free(i) then
      && 0 <= slot < MAX_MESSAGES && s.Free(slot) && (forall i :: 0 <= i < slot ==> !s.Free(i))
      && s' == s.(reserved := s.reserved[slot := true])
    else if slot == -1 then s' == s && (ok ==> forall i :: 0 <= i < MAX_MESSAGES ==> !Evictable(s, i))
    else
      && ok && Victim(s, slot)
      && s' == s.WithSlot(slot, VACANT).(reserved := s.reserved[slot := true])
  }

  ghost predicate Victim(s: Store, slot: int)
    requires s.Shape()
  {
    && 0 <= slot < MAX_MESSAGES && Evictable(s, slot)
    && forall i :: 0 <= i < MAX_MESSAGES && Evictable(s, i) ==>
         && !OlderThan(s.slots[i].message.epoch, s.slots[slot].message.epoch)
         && (i < slot ==> OlderThan(s.slots[slot].message.epoch, s.slots[i].message.epoch))
  }

  // The same in the terms of the records alone

  /** A message that is over: received, acknowledged or failed. */
  predicate Done(m: Message) {
    || m.direction == RX || m.status == ACKED || m.status == FAILED || m.status == FAILED_RADIO
    || m.status == FAILED_QUEUE || m.status == FAILED_TIMEOUT
  }

  lemma DoneExactly(s: Store, i: nat)
    requires s.Shape() && i < MAX_MESSAGES
    ensures Evictable(s, i) <==> !s.reserved[i] && Done(s.slots[i].message)
    ensures IsPending(s.slots[i]) <==> s.slots[i].message.direction == TX && !Done(s.slots[i].message)
  {
  }

  /** The state that is stored with a message. */
  lemma StatesExactly(m: Message)
    ensures RecordFor(m).message == m && RecordFor(m).state != Empty
    ensures RecordFor(m).state == Received <==> m.direction == RX
    ensures RecordFor(m).state == Acked <==> m.direction != RX && m.status == ACKED
    ensures RecordFor(m).state == Sent <==> m.direction != RX && m.status == SENT
    ensures RecordFor(m).state == Failed <==> m.direction != RX && m.status != ACKED && Done(m)
  {
  }

  /** The slot that is evicted holds a message that is over. It is the first of those stored at the earliest
      known time; and when no time is known, the first of all. */
  ghost predicate EvictsOldest(s: Store, slot: int)
    requires s.Shape()
  {
    && 0 <= slot < MAX_MESSAGES && !s.reserved[slot] && Done(s.slots[slot].message)
    && var epoch := s.slots[slot].message.epoch;
       forall i :: 0 <= i < MAX_MESSAGES && !s.reserved[i] && Done(s.slots[i].message) ==>
         var other := s.slots[i].message.epoch;
         && (other != 0 ==> epoch != 0 && epoch <= other && (epoch == other ==> slot <= i))
         && (other == 0 && epoch == 0 ==> slot <= i)
  }

  lemma VictimIsOldest(s: Store, slot: int)
    requires s.Shape() && Victim(s, slot)
    ensures EvictsOldest(s, slot)
  {
    forall i | 0 <= i < MAX_MESSAGES
      ensures Evictable(s, i) <==> !s.reserved[i] && Done(s.slots[i].message)
    {
      DoneExactly(s, i);
    }
  }

  /** What the operations leave in a slot and in storage. */
  lemma OperationsWrite(s: Store, i: nat, m: Message, ok: bool)
    requires s.Sound() && i < MAX_MESSAGES
    ensures s.reserved[i] && ok ==>
              var (w, done) := s.Write(i, m, ok);
              done && w.slots[i].message == m && i in w.nvs && w.nvs[i].message == m && !w.reserved[i]
    ensures s.reserved[i] && !ok ==>
              var (w, done) := s.Write(i, m, ok);
              !done && w.slots[i] == s.slots[i] && w.nvs == s.nvs && !w.reserved[i]
    ensures !s.reserved[i] ==> s.Write(i, m, ok) == (s, false)
    ensures s.slots[i].state != Empty ==>
              var (u, done) := s.Update(i, m, ok);
              && done == ok && u.reserved == s.reserved && (!ok ==> u == s)
              && (ok ==> u.slots[i].message == m && i in u.nvs && u.nvs[i].message == m)
    ensures !s.reserved[i] && ok ==>
              var (d, done) := s.Delete(i, ok);
              done && d.slots[i] == VACANT && i !in d.nvs
    ensures s.reserved[i] ==>
              var (d, done) := s.Delete(i, ok);
              done && !d.reserved[i] && d.nvs == s.nvs && d.slots == s.slots
  {
    hide InUse;
    SoundSlot(s, i);
  }

  /** Changing one slot, and perhaps its reservation, keeps the table sound if the slot itself is. */
  lemma OneSlotSound(s: Store, s': Store, i: nat)
    requires s.Sound() && i < MAX_MESSAGES && s'.Shape() && s'.count == InUse(s'.slots)
    requires forall j :: 0 <= j < MAX_MESSAGES && j != i ==>
        s'.slots[j] == s.slots[j] && s'.reserved[j] == s.reserved[j]
    requires forall j :: j != i ==> (j in s'.nvs <==> j in s.nvs) && (j in s.nvs ==> s'.nvs[j] == s.nvs[j])
    requires s'.SlotSound(i) && (i in s'.nvs ==> s'.nvs[i] == RecordFor(s'.nvs[i].message))
    ensures s'.Sound()
  {
    forall j | 0 <= j < MAX_MESSAGES
      ensures s'.SlotSound(j)
    {
      assert s.SlotSound(j);
    }
  }

  lemma OperationsSound(s: Store, i: nat, m: Message, ok: bool)
    requires s.Sound() && i < MAX_MESSAGES
    ensures s.Write(i, m, ok).0.Sound() && s.Update(i, m, ok).0.Sound() && s.Delete(i, ok).0.Sound()
  {
    hide Store.Sound, InUse;
    SoundSlot(s, i);
    OneSlotSound(s, s.Write(i, m, ok).0, i);
    OneSlotSound(s, s.Update(i, m, ok).0, i);
    OneSlotSound(s, s.Delete(i, ok).0, i);
  }

  lemma SoundSlot(s: Store, i: nat)
    requires s.Sound() && i < MAX_MESSAGES
    ensures s.Shape() && s.SlotSound(i) && s.count == InUse(s.slots)
    ensures i in s.nvs ==> s.nvs[i] == RecordFor(s.nvs[i].message)
  {
  }

  lemma AllocatedSound(s: Store, s': Store, slot: int, ok: bool)
    requires s.Sound() && Allocated(s, s', slot, ok)
    ensures s'.Sound()
    ensures slot != -1 ==> 0 <= slot < MAX_MESSAGES && s'.slots[slot] == VACANT && s'.reserved[slot]
    ensures forall i :: 0 <= i < MAX_MESSAGES && i != slot ==>
        s'.slots[i] == s.slots[i] && s'.reserved[i] == s.reserved[i]
    ensures 0 <= slot < MAX_MESSAGES ==> s.slots[slot].state == Empty || !Unfinished(s.slots[slot].message)
  {
    hide Store.Sound, InUse;
    if slot != -1 {
      assert 0 <= slot < MAX_MESSAGES;
      SoundSlot(s, slot);
      OneSlotSound(s, s', slot);
    }
  }

  /** Is a stored record this node's business? An unnamed node keeps everything. */
  predicate Relevant(m: Message, node: Text) {
    node == [] || m.source == node || m.destination == node
  }

  /** message_store_load_messages_from_nvs; `readable(i)` is whether slot i is read and passes its checks. */
  function LoadedSlot(nvs: map<nat, Record>, readable: nat -> bool, node: Text, i: nat): Record {
    if i in nvs && readable(i) && nvs[i].state != Empty && Relevant(nvs[i].message, node) then nvs[i] else VACANT
  }

  function Loaded(nvs: map<nat, Record>, openOk: bool, readable: nat -> bool, node: Text): Store {
    var slots := seq(MAX_MESSAGES, i requires 0 <= i => if openOk then LoadedSlot(nvs, readable, node, i) else VACANT);
    Store(slots, seq(MAX_MESSAGES, _ => false), nvs, InUse(slots))
  }

  lemma LoadedSound(nvs: map<nat, Record>, openOk: bool, readable: nat -> bool, node: Text)
    requires forall i <- nvs :: nvs[i] == RecordFor(nvs[i].message)
    ensures Loaded(nvs, openOk, readable, node).Sound()
  {
  }

  /** After a load a slot holds its durable record exactly when that was read and is the node's own, or for
      it, or the node has no name; otherwise the slot is vacant. No slot is reserved. */
  lemma LoadedExactly(nvs: map<nat, Record>, openOk: bool, readable: nat -> bool, node: Text, i: nat)
    requires i < MAX_MESSAGES && forall k <- nvs :: nvs[k].state != Empty
    ensures var s := Loaded(nvs, openOk, readable, node);
      && |s.slots| == |s.reserved| == MAX_MESSAGES && !s.reserved[i] && s.nvs == nvs
      && (s.slots[i].state != Empty <==>
            && openOk && i in nvs && readable(i)
            && (node == [] || nvs[i].message.source == node || nvs[i].message.destination == node))
      && s.slots[i] == if s.slots[i].state != Empty && i in nvs then nvs[i] else VACANT
  {
    hide InUse;
  }

  /** A record that message_store_copy_pending_tx reports. */
  predicate IsPending(r: Record) {
    Unfinished(r.message) && r.message.direction == TX
  }

  /** The slots that message_store_copy_pending_tx reports, in order. */
  function PendingSlots(slots: seq<Record>): (r: seq<nat>)
    ensures forall i :: i in r <==> 0 <= i < |slots| && IsPending(slots[i])
    ensures forall a, b :: 0 <= a < b < |r| ==> r[a] < r[b]
    ensures |r| <= |slots| && forall a :: 0 <= a < |r| ==> r[a] < |slots|
  {
    if slots == [] then []
    else
      var n := |slots| - 1;
      var front := PendingSlots(slots[..n]);
      assert forall a :: 0 <= a < |front| ==> front[a] in front;
      front + if IsPending(slots[n]) then [n] else []
  }

  class MessageTable {
    const slots: array<Record>
    const reserved: array<bool>
    var nvs: map<nat, Record>
    var activeCount: nat

    ghost predicate Valid()
      reads this, slots, reserved
    {
      slots.Length == reserved.Length == MAX_MESSAGES && View().Sound()
    }

    ghost function View(): Store
      reads this, slots, reserved
    {
      Store(slots[..], reserved[..], nvs, activeCount)
    }

    /** recalculate_active_count */
    method Recount()
      modifies `activeCount
      ensures activeCount == InUse(slots[..])
    {
      var count := 0;
      for i := 0 to slots.Length
        invariant count == InUse(slots[..i])
      {
        assert slots[..i + 1][..i] == slots[..i];
        if slots[i].state != Empty {
          count := count + 1;
        }
      }
      assert slots[..slots.Length] == slots[..];
      activeCount := count;
    }

    /** message_store_allocate; `eraseOk` is whether the storage erases a victim's record. */
    method Allocate(eraseOk: bool) returns (slot: int)
      requires Valid()
      modifies this, slots, reserved
      ensures Valid() && Allocated(old(View()), View(), slot, eraseOk)
      ensures slot != -1 && (forall i :: 0 <= i < MAX_MESSAGES ==> !old(View()).Free(i)) ==>
                EvictsOldest(old(View()), slot)
    {
      hide Store.SlotSound, InUse, EvictsOldest;
      ghost var s := View();
      for i := 0 to MAX_MESSAGES
        invariant View() == s && forall j :: 0 <= j < i ==> !s.Free(j)
      {
        if slots[i].state == Empty && !reserved[i] {
          assert s.Free(i);
          reserved[i] := true;
          AllocatedSound(s, View(), i, eraseOk);
          return i;
        }
      }
      var oldest := -1;
      for i := 0 to MAX_MESSAGES
        invariant View() == s && (oldest == -1 ==> forall j :: 0 <= j < i ==> !Evictable(s, j))
        invariant oldest != -1 ==>
                    && 0 <= oldest < i && Evictable(s, oldest)
                    && forall j :: 0 <= j < i && Evictable(s, j) ==>
                         && !OlderThan(s.slots[j].message.epoch, s.slots[oldest].message.epoch)
                         && (j < oldest ==> OlderThan(s.slots[oldest].message.epoch, s.slots[j].message.epoch))
      {
        if !reserved[i] && StateFor(slots[i].message) in {Acked, Failed, Received} {
          if oldest < 0 || OlderThan(slots[i].message.epoch, slots[oldest].message.epoch) {
            oldest := i;
          }
        }
      }
      if oldest >= 0 && eraseOk {
        nvs := nvs - {oldest};
        slots[oldest] := VACANT;
        Recount();
        reserved[oldest] := true;
        AllocatedSound(s, View(), oldest, eraseOk);
        VictimIsOldest(s, oldest);
        return oldest;
      }
      return -1;
    }

    /** write_record_locked */
    method WriteRecord(i: nat, m: Message, nvsOk: bool)
      requires slots.Length == reserved.Length == MAX_MESSAGES && i < MAX_MESSAGES
      modifies `nvs, `activeCount, slots
      ensures View() == old(View()).WriteRecord(i, m, nvsOk)
    {
      if nvsOk {
        nvs := nvs[i := RecordFor(m)];
        slots[i] := RecordFor(m);
        Recount();
      }
    }

    method Write(i: nat, m: Message, nvsOk: bool) returns (ok: bool)
      requires Valid() && i < MAX_MESSAGES
      modifies this, slots, reserved
      ensures Valid() && (View(), ok) == old(View()).Write(i, m, nvsOk)
    {
      hide Store.Sound, InUse;
      OperationsSound(View(), i, m, nvsOk);
      if !reserved[i] {
        return false;
      }
      WriteRecord(i, m, nvsOk);
      reserved[i] := false;
      return nvsOk;
    }

    method Update(i: nat, m: Message, nvsOk: bool) returns (ok: bool)
      requires Valid() && i < MAX_MESSAGES
      modifies this, slots, reserved
      ensures Valid() && (View(), ok) == old(View()).Update(i, m, nvsOk)
    {
      hide Store.Sound, InUse;
      OperationsSound(View(), i, m, nvsOk);
      if reserved[i] && slots[i].state == Empty {
        WriteRecord(i, m, nvsOk);
        reserved[i] := false;
        return nvsOk;
      } else if slots[i].state != Empty {
        WriteRecord(i, m, nvsOk);
        return nvsOk;
      }
      return false;
    }

    method Delete(i: nat, nvsOk: bool) returns (ok: bool)
      requires Valid() && i < MAX_MESSAGES
      modifies this, slots, reserved
      ensures Valid() && (View(), ok) == old(View()).Delete(i, nvsOk)
    {
      hide Store.Sound, InUse;
      OperationsSound(View(), i, BLANK, nvsOk);
      if reserved[i] && slots[i].state == Empty {
        reserved[i] := false;
        return true;
      }
      if nvsOk {
        nvs := nvs - {i};
        slots[i] := VACANT;
        Recount();
      }
      return nvsOk;
    }

    constructor (nvs: map<nat, Record>)
      ensures slots.Length == reserved.Length == MAX_MESSAGES && fresh(slots) && fresh(reserved) && this.nvs == nvs
    {
      slots := new Record[MAX_MESSAGES](_ => VACANT);
      reserved := new bool[MAX_MESSAGES](_ => false);
      this.nvs, activeCount := nvs, 0;
    }

    method ClearAll()
      requires slots.Length == reserved.Length == MAX_MESSAGES
      modifies slots, reserved
      ensures forall j :: 0 <= j < MAX_MESSAGES ==> slots[j] == VACANT && !reserved[j]
    {
      for i := 0 to MAX_MESSAGES
        invariant forall j :: 0 <= j < i ==> slots[j] == VACANT && !reserved[j]
      {
        slots[i], reserved[i] := VACANT, false;
      }
    }

    /** The two loops of the load: read every slot, then drop what is not this node's business. */
    method ReadSlots(readable: nat -> bool, node: Text)
      requires slots.Length == MAX_MESSAGES && forall j :: 0 <= j < MAX_MESSAGES ==> slots[j] == VACANT
      modifies slots
      ensures forall j :: 0 <= j < MAX_MESSAGES ==> slots[j] == LoadedSlot(nvs, readable, node, j)
    {
      for i := 0 to MAX_MESSAGES
        invariant forall j :: 0 <= j < i ==> slots[j] == if j in nvs && readable(j) && nvs[j].state != Empty
            then nvs[j] else VACANT
        invariant forall j :: i <= j < MAX_MESSAGES ==> slots[j] == VACANT
      {
        if i in nvs && readable(i) && nvs[i].state != Empty {
          slots[i] := nvs[i];
        }
      }
      for i := 0 to MAX_MESSAGES
        invariant forall j :: 0 <= j < i ==> slots[j] == LoadedSlot(nvs, readable, node, j)
        invariant forall j :: i <= j < MAX_MESSAGES ==> slots[j] == if j in nvs && readable(j) && nvs[j].state != Empty
            then nvs[j] else VACANT
      {
        if slots[i].state != Empty && node != [] && slots[i].message.source != node
            && slots[i].message.destination != node {
          slots[i] := VACANT;
        }
      }
    }

    /** After a reboot RAM is rebuilt from the durable records. */
    method Load(openOk: bool, readable: nat -> bool, node: Text)
      requires slots.Length == reserved.Length == MAX_MESSAGES && forall i <- nvs :: nvs[i] == RecordFor(nvs[i].message)
      modifies `activeCount, slots, reserved
      ensures Valid() && View() == Loaded(nvs, openOk, readable, node)
    {
      hide Store.Sound, InUse, LoadedSlot;
      LoadedSound(nvs, openOk, readable, node);
      ClearAll();
      if openOk {
        ReadSlots(readable, node);
      }
      Recount();
      assert slots[..] == Loaded(nvs, openOk, readable, node).slots;
      assert reserved[..] == Loaded(nvs, openOk, readable, node).reserved;
    }

    /** message_store_copy_pending_tx with room for every slot. */
    method CopyPending() returns (found: seq<nat>)
      requires slots.Length == MAX_MESSAGES
      ensures found == PendingSlots(slots[..])
    {
      found := [];
      for i := 0 to MAX_MESSAGES
        invariant found == PendingSlots(slots[..i])
      {
        assert slots[..i + 1][..i] == slots[..i];
        if IsPending(slots[i]) {
          found := found + [i];
        }
      }
      assert slots[..MAX_MESSAGES] == slots[..];
    }
  }
}
