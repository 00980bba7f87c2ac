/** Whole runs of the duplicate filter against the plain map. */
module DedupRuns {
  import opened CText
  import opened Counting
  import opened DedupHash
  import opened DedupTable

  /** A call of remember_packet or of packet_seen, with the clock it reads. */
  datatype Call = Call(key: Key, now: uint32, remember: bool)

  /** A clock that never goes back, and names that the table stores as they are. */
  ghost predicate Orderly(run: seq<Call>) {
    && (forall i :: 0 <= i < |run| - 1 ==> run[i].now <= run[i + 1].now)
    && forall i :: 0 <= i < |run| && run[i].remember ==> Clean(run[i].key.source)
  }

  /** The plain map after a run that starts with an empty table. */
  ghost function After(run: seq<Call>): map<Key, nat> {
    if run == [] then map[]
    else
      var before, c := After(run[..|run| - 1]), run[|run| - 1];
      if c.remember then Remembered(before, c.key, c.now) else Live(before, c.now)
  }

  /** Every answer of packet_seen in every run is the plain map's answer. */
  method Play(run: seq<Call>) returns (answers: seq<bool>)
    requires Orderly(run)
    ensures |answers| == |run|
    ensures forall i :: 0 <= i < |run| && !run[i].remember ==> answers[i] == (run[i].key in After(run[..i + 1]))
  {
    hide SeenTable.HashOk, SeenTable.WheelOk, SeenTable.Timely, SeenTable.View, Live, Remembered;
    answers := [];
    var t := SeenTable.Create(if run == [] then 0 else run[0].now);
    for i := 0 to |run|
      invariant t.Valid() && fresh(t) && fresh(t.Repr())
      invariant i < |run| ==> t.clock <= run[i].now
      invariant t.View() == After(run[..i]) && |answers| == i
      invariant forall j :: 0 <= j < i && !run[j].remember ==> answers[j] == (run[j].key in After(run[..j + 1]))
    {
      var c := run[i];
      assert run[..i + 1][..i] == run[..i];
      if c.remember {
        var _ := t.RememberPacket(c.key.source, c.key.id, c.now);
        answers := answers + [false];
      } else {
        var seen := t.PacketSeen(c.key.source, c.key.id, c.now);
        answers := answers + [seen];
      }
    }
  }

  /** Call `i` is a remember_packet that takes a slot for key `k`: it was not live, and there was room. */
  ghost predicate Stores(run: seq<Call>, i: int, k: Key) {
    && 0 <= i < |run| && run[i].remember && run[i].key == k
    && var live := Live(After(run[..i]), run[i].now); k !in live && |live| < SLOTS
  }

  lemma {:induction false} CapacityKept(run: seq<Call>)
    ensures |After(run)| <= 256
  {
    if run != [] {
      var before, c := After(run[..|run| - 1]), run[|run| - 1];
      CapacityKept(run[..|run| - 1]);
      LiveShrinks(before, c.now);
      var live := Live(before, c.now);
      assert live[c.key := c.now as nat].Keys == live.Keys + {c.key};
    }
  }

  lemma LiveShrinks(m: map<Key, nat>, now: nat)
    ensures Live(m, now).Keys <= m.Keys && |Live(m, now)| <= |m|
  {
    SubsetSize(Live(m, now).Keys, m.Keys);
  }

  lemma StoresInPrefix(run: seq<Call>, n: nat, i: int, k: Key)
    requires n <= |run| && i < n
    ensures Stores(run[..n], i, k) <==> Stores(run, i, k)
  {
    assert i >= 0 ==> run[..n][..i] == run[..i];
  }

  lemma {:induction false} StoredIsSeen(run: seq<Call>, i: nat, k: Key)
    requires Orderly(run) && Stores(run, i, k) && !Expired(run[i].now, run[|run| - 1].now)
    ensures k in After(run) && After(run)[k] == run[i].now
  {
    var n := |run| - 1;
    if i < n {
      StoresInPrefix(run, n, i, k);
      StoredIsSeen(run[..n], i, k);
    }
  }

  lemma {:induction false} SeenWasStored(run: seq<Call>, k: Key) returns (i: nat)
    requires Orderly(run) && run != [] && k in After(run)
    ensures Stores(run, i, k) && After(run)[k] == run[i].now && !Expired(run[i].now, run[|run| - 1].now)
  {
    var n := |run| - 1;
    CapacityKept(run[..n]);
    LiveShrinks(After(run[..n]), run[n].now);
    if k in Live(After(run[..n]), run[n].now) {
      i := SeenWasStored(run[..n], k);
      StoresInPrefix(run, n, i, k);
    } else {
      i := n;
    }
  }

  /** A key is on the map exactly when some call stored it and its minute is not over: no duplicate
      is missed while its slot lives, and nothing else is reported as seen. */
  lemma SeenExactly(run: seq<Call>, k: Key)
    requires Orderly(run) && run != []
    ensures k in After(run) <==> exists i :: Stores(run, i, k) && run[|run| - 1].now - run[i].now < 60000
  {
    hide After;
    if k in After(run) {
      var i := SeenWasStored(run, k);
    }
    if i :| Stores(run, i, k) && run[|run| - 1].now - run[i].now < 60000 {
      StoredIsSeen(run, i, k);
    }
  }

  /** After the last call of a run, a remember_packet, its key is on the map exactly when it was still
      live or fewer than 256 keys were; and no live key is given up for it. */
  lemma RememberedIffRoom(run: seq<Call>)
    requires run != [] && run[|run| - 1].remember
    ensures var n := |run| - 1;
      var live := Live(After(run[..n]), run[n].now);
      && (run[n].key in After(run) <==> run[n].key in live || |live| < 256)
      && forall j <- live :: j in After(run) && After(run)[j] == live[j]
  {
    var n := |run| - 1;
    CapacityKept(run[..n]);
    LiveShrinks(After(run[..n]), run[n].now);
  }

  /** "NODE%02lu" */
  function NodeName(i: nat): Text
    requires i < SLOTS
  {
    [78, 79, 68, 69] + if i < 100 then [48 + i / 10, 48 + i % 10] else [48 + i / 100, 48 + i / 10 % 10, 48 + i % 10]
  }

  /** The calls of test_dedup_evicts_old_entries_when_full before its last one, all at the same time. */
  function FillingCall(i: nat, now: uint32): Call
    requires i < SLOTS
  {
    Call(Key(NodeName(i), i + 1), now, true)
  }

  function Filling(n: nat, now: uint32): seq<Call>
    requires n <= SLOTS
  {
    seq(n, i requires 0 <= i < n => FillingCall(i, now))
  }

  lemma {:induction false} FillingKeys(n: nat, now: uint32)
    requires n <= SLOTS
    ensures var m := After(Filling(n, now));
      && |m| == n && (forall k <- m :: m[k] == now && k.id <= n)
      && forall i :: 0 <= i < n ==> FillingCall(i, now).key in m
  {
    hide NodeName, Live;
    if n > 0 {
      var run, before := Filling(n, now), Filling(n - 1, now);
      assert run[..n - 1] == before && run[n - 1] == FillingCall(n - 1, now);
      FillingKeys(n - 1, now);
      AllLive(After(before), now);
      assert FillingCall(n - 1, now).key !in After(before);
    }
  }

  lemma AllLive(m: map<Key, nat>, now: nat)
    requires forall k <- m :: m[k] == now
    ensures Live(m, now) == m
  {
  }

  lemma FillingLength(now: uint32)
    ensures |Filling(SLOTS, now)| == SLOTS
  {
  }

  lemma FillingOrderly(now: uint32, last: Call)
    requires last.now == now && Clean(last.key.source)
    ensures Orderly(Filling(SLOTS, now) + [last])
  {
    var run := Filling(SLOTS, now) + [last];
    forall i | 0 <= i < |run|
      ensures run[i].now == now && Clean(run[i].key.source)
    {
    }
  }

  /** The run of test_dedup_evicts_old_entries_when_full: it expects the first packet to be forgotten and
      the last to be seen, and the opposite is the case. */
  lemma FullTableDropsNewest(now: uint32) returns (run: seq<Call>)
    ensures run == Filling(SLOTS, now) + [Call(Key([78, 79, 68, 69, 95, 78, 69, 87], 9999), now, true)] && Orderly(run)
    ensures FillingCall(0, now).key in After(run) && run[SLOTS].key !in After(run)
  {
    hide NodeName, After, Live, Filling, Orderly;
    var last := Call(Key([78, 79, 68, 69, 95, 78, 69, 87], 9999), now, true);
    FillingOrderly(now, last);
    var filled := Filling(SLOTS, now);
    FillingLength(now);
    run := filled + [last];
    assert run[..SLOTS] == filled;
    FillingKeys(SLOTS, now);
    AllLive(After(filled), now);
    RememberedIffRoom(run);
  }
}
