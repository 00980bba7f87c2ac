/** Why the duplicate filter needs clean names, and what becomes of others. */
module DedupNames {
  import opened CText
  import opened DedupHash
  import opened Chains
  import opened DedupTable

  /** Whatever was remembered, the stored names are clean. */
  ghost predicate StoresClean(keys: seq<Key>, active: seq<bool>) {
    |keys| == |active| && forall j :: 0 <= j < |keys| && active[j] ==> Clean(keys[j].source)
  }

  /** remember_packet and then packet_seen at the same moment, when nothing more expires, for any name: a
      packet that was not live is seen exactly when its name is clean and there was room. */
  method RememberThenSee(t: SeenTable, source: Text, id: uint32, now: uint32) returns (seen: bool)
    requires t.Valid() && t.clock <= now && StoresClean(t.keys[..], t.active[..])
    modifies t, t.Repr()
    ensures StoresClean(t.keys[..], t.active[..])
    ensures var live := Live(old(t.View()), now);
      seen <==> Key(source, id) in live || (Clean(source) && |live| < SLOTS)
  {
    hide SeenBucket, SeenHash, HashText, Mix, Lists.Sound, HomeByKey, HomeByTime, Indexed, Live, Holds, MapOf;
    hide CopyField, Clean, Chain, SeenTable.Timely, SeenTable.WheelOk, SeenTable.HashOk;
    var slot := t.RememberPacket(source, id, now);
    CopyIsClean(source);
    if slot == -1 {
      HeldIffMapped(t, Key(source, id));
    } else {
      HeldIffClean(t, slot, source, id);
    }
    var bucket := SeenBucket(Key(source, id));
    seen := FindKey(t.nextHash, t.keys, t.active, t.hashBuckets[bucket], Key(source, id), t.hashChains[bucket]);
  }

  /** What the walk of a hash chain needs and finds. */
  ghost predicate Walkable(t: SeenTable, k: Key)
    requires t.Shape()
    reads t, t.Repr()
  {
    |t.hashChains| == FREE + 1 && Chain(t.nextHash[..], t.hashBuckets[SeenBucket(k)], t.hashChains[SeenBucket(k)])
  }

  lemma HeldIffMapped(t: SeenTable, k: Key)
    requires t.Valid()
    ensures Walkable(t, k)
    ensures Holds(t.hashChains[SeenBucket(k)], t.keys[..], t.active[..], k) <==> k in t.View()
  {
    hide SeenBucket, SeenHash, HashText, Mix, Chain, Threaded, Homed, HomeByKey, HomeByTime, Indexed, Holds;
    OnItsChain(t.Hash(), t.keys[..], t.active[..], t.slotOf, k);
    t.TimesNatural();
    assert t.Hash().heads[SeenBucket(k)] == t.hashBuckets[SeenBucket(k)];
  }

  /** The walk for a name that was just stored finds it exactly when it is clean. */
  lemma HeldIffClean(t: SeenTable, index: int, source: Text, id: uint32)
    requires t.Shape() && t.Stored(index, source, id) && StoresClean(t.keys[..], t.active[..])
    ensures var k := Key(source, id);
      Walkable(t, k) && (Holds(t.hashChains[SeenBucket(k)], t.keys[..], t.active[..], k) <==> Clean(source))
  {
    hide SeenBucket, SeenHash, HashText, Mix, CopyField, Threaded, Homed, Chain, Clean;
    var bucket := SeenBucket(Key(source, id));
    t.Hash().Member(FREE + 1, bucket, index);
    StoredIffClean(source);
    var nodes := t.hashChains[bucket];
    var i :| 0 <= i < |nodes| && nodes[i] == index;
    assert t.Hash().heads[bucket] == t.hashBuckets[bucket];
    assert t.keys[..][index] == t.keys[index] && t.active[..][index];
  }

  lemma CopyIsClean(source: Text)
    ensures Clean(CopyField(source, NAME_MAX))
  {
  }

  /** An inserted slot is on the chain that removal looks for it on exactly when the name and its copy
      hash to the same chain. */
  lemma PlacedIffSameChain(home: seq<int>, keys: seq<Key>, active: seq<bool>, index: nat, source: Text, id: uint32)
    requires index < |home| && HomeByKey(home, keys, active) && !active[index]
    ensures var copy := Key(CopyField(source, NAME_MAX), id);
      HomeByKey(home[index := SeenBucket(Key(source, id))], keys[index := copy], active[index := true]) <==>
      SeenBucket(Key(source, id)) == SeenBucket(copy)
  {
    hide SeenBucket, SeenHash, HashText, Mix, CopyField;
    var copy := Key(CopyField(source, NAME_MAX), id);
    var home', keys', active' := home[index := SeenBucket(Key(source, id))], keys[index := copy], active[index := true];
    assert HomeByKey(home', keys', active') ==> home'[index] == SeenBucket(keys'[index]);
  }

  /** The whole structure survives an insertion, with a key for each slot and a slot for each key, exactly
      when moreover the copy is not a key that is in use already. */
  lemma SoundIffNewOnSameChain(home: seq<int>, keys: seq<Key>, active: seq<bool>, slotOf: map<Key, int>, index: nat,
                               source: Text, id: uint32)
    requires index < |home| && HomeByKey(home, keys, active) && Indexed(keys, active, slotOf) && !active[index]
    ensures var raw, copy := Key(source, id), Key(CopyField(source, NAME_MAX), id);
      var home', keys', active' := home[index := SeenBucket(raw)], keys[index := copy], active[index := true];
      HomeByKey(home', keys', active') && (exists m :: Indexed(keys', active', m)) <==>
      SeenBucket(raw) == SeenBucket(copy) && copy !in slotOf
  {
    hide SeenBucket, SeenHash, HashText, Mix, CopyField, HomeByKey;
    SameLengths(home, keys, active);
    PlacedIffSameChain(home, keys, active, index, source, id);
    var copy := Key(CopyField(source, NAME_MAX), id);
    var keys', active' := keys[index := copy], active[index := true];
    if copy !in slotOf {
      IndexedInsert(keys, active, slotOf, index, copy);
    } else {
      var j := slotOf[copy];
      assert forall m :: Indexed(keys', active', m) ==> m[keys'[index]] == index && m[keys'[j]] == j;
    }
  }

  lemma SameLengths(home: seq<int>, keys: seq<Key>, active: seq<bool>)
    requires HomeByKey(home, keys, active)
    ensures |home| == |keys| == |active| == SLOTS
  {
  }

  /** Following the links n times. */
  function Follow(links: seq<int>, x: int, n: nat): int {
    if n == 0 then x else
      var y := Follow(links, x, n - 1);
      if 0 <= y < |links| then links[y] else y
  }

  lemma {:induction false} FollowStays(links: seq<int>, x: int, n: nat)
    requires 0 <= x < |links| && links[x] == x
    ensures Follow(links, x, n) == x
  {
    if n > 0 {
      FollowStays(links, x, n - 1);
    }
  }

  /** A name whose copy hashes to another chain closes its own chain into a circle: on a fresh table it is
      remembered, expires, and is remembered again. The expiry looks for the slot on the chain of the copy
      and puts it on the free list while it is still the head of its own; the second time its link is set
      to that head, itself. Every later walk of this chain for the same packet goes round and round,
      since the stored copy never matches. Only the free list and the hash chains are followed here. */
  method ClosesOnItself(source: Text, id: uint32, now: uint32) returns (t: SeenTable)
    requires SeenBucket(Key(source, id)) != SeenBucket(Key(CopyField(source, NAME_MAX), id))
    ensures fresh(t) && fresh(t.Repr()) && t.Shape()
    ensures var head := t.hashBuckets[SeenBucket(Key(source, id))];
      && 0 <= head < SLOTS && t.active[head] && t.keys[head] != Key(source, id)
      && (forall n: nat :: Follow(t.nextHash[..], head, n) == head)
      && forall nodes :: !Chain(t.nextHash[..], head, nodes)
  {
    hide SeenBucket, SeenHash, HashText, Mix, CopyField, Chain, Follow;
    var bucket := SeenBucket(Key(source, id));
    t := new SeenTable(now);
    assert t.Hash().heads[BUCKETS] == t.freeHead == 0;
    assert t.Hash().heads[bucket] == -1 && t.Hash().heads[SeenBucket(Key(CopyField(source, NAME_MAX), id))] == -1;
    var index := RememberRaw(t, source, id, now);
    ExpireRaw(t, index);
    index := RememberRaw(t, source, id, now);
    Circle(t.nextHash[..], index);
    StoredDiffers(source, id);
  }

  /** alloc_entry and the hash part of insert_entry. */
  method RememberRaw(t: SeenTable, source: Text, id: uint32, now: uint32) returns (index: int)
    requires t.Shape() && 0 <= t.freeHead < SLOTS
    modifies t`freeHead, t.keys, t.seenMs, t.active, t.nextHash, t.hashBuckets
    ensures index == old(t.freeHead) && t.freeHead == old(t.nextHash[t.freeHead])
    ensures t.active[index] && t.keys[index] == Key(CopyField(source, NAME_MAX), id)
    ensures var bucket := SeenBucket(Key(source, id));
      && t.nextHash[..] == old(t.nextHash[..])[index := old(t.hashBuckets[SeenBucket(Key(source, id))])]
      && t.hashBuckets[..] == old(t.hashBuckets[..])[bucket := index]
  {
    hide SeenBucket, SeenHash, HashText, Mix, CopyField;
    index := t.PopFree();
    t.Fill(index, source, id, now);
    t.HookFront(index, SeenBucket(Key(source, id)));
  }

  /** The expiry of a slot whose copy's chain is empty: it becomes the first free one, and all heads stay. */
  method ExpireRaw(t: SeenTable, index: int)
    requires t.Shape() && 0 <= index < SLOTS && t.hashBuckets[SeenBucket(t.keys[index])] == -1
    modifies t`freeHead, t.active, t.nextHash, t.hashBuckets
    ensures t.freeHead == index && t.hashBuckets[..] == old(t.hashBuckets[..])
  {
    hide SeenBucket, SeenHash, HashText, Mix, Chain;
    EmptyChain(t.nextHash[..]);
    var _ := t.Unhook(index, []);
    t.GiveBack(index);
  }

  lemma StoredDiffers(source: Text, id: uint32)
    requires SeenBucket(Key(source, id)) != SeenBucket(Key(CopyField(source, NAME_MAX), id))
    ensures Key(CopyField(source, NAME_MAX), id) != Key(source, id)
  {
  }

  /** A node that links to itself is followed for ever and heads no chain. */
  lemma Circle(links: seq<int>, x: int)
    requires 0 <= x < |links| && links[x] == x
    ensures (forall n: nat :: Follow(links, x, n) == x) && forall nodes :: !Chain(links, x, nodes)
  {
    forall n: nat
      ensures Follow(links, x, n) == x
    {
      FollowStays(links, x, n);
    }
    forall nodes
      ensures !Chain(links, x, nodes)
    {
      NoChain(links, x, nodes);
    }
  }

  lemma NoChain(links: seq<int>, x: int, nodes: seq<int>)
    requires 0 <= x < |links| && links[x] == x
    ensures !Chain(links, x, nodes)
  {
    var follows := if nodes == [] then -1 else After(nodes, 0);
    assert Chain(links, x, nodes) ==> follows == x;
  }

  /** Some changed names keep their chain: "A\x08" and its copy "A" do, "A\x01" does not. */
  lemma SomeKeepTheirChain()
    ensures CopyField([65, 8], NAME_MAX) == [65] && SeenBucket(Key([65, 8], 1)) == SeenBucket(Key([65], 1))
    ensures CopyField([65, 1], NAME_MAX) == [65] && SeenBucket(Key([65, 1], 1)) != SeenBucket(Key([65], 1))
  {
    UncleanChangesChain();
    HashBackspace();
  }
}
