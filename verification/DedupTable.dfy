/** The duplicate filter: 256 slots threaded through a free list, 64 hash chains and a 60-bucket expiry wheel. */
module DedupTable {
  import opened CText
  import opened DedupHash
  import opened Chains

  const SLOTS := 256
  /** The free list shares `next_hash` with the hash chains: it is chain number 64 of that family. */
  const FREE := BUCKETS
  const WHEEL := 60
  const TTL := 60000
  const TICK := 1000

  function WheelIndex(ms: nat): (w: nat)
    ensures w < WHEEL
  {
    ms / TICK % WHEEL
  }

  predicate Expired(seen: int, now: int) {
    now - seen >= TTL
  }

  /** What is left of a plain map from key to first-seen time after the lifetime has passed. */
  ghost function Live(m: map<Key, nat>, now: nat): map<Key, nat> {
    map k | k in m && !Expired(m[k], now) :: m[k]
  }

  /** Remembering in the plain map: a live key keeps its first time, and a 257th key is dropped. */
  ghost function Remembered(m: map<Key, nat>, k: Key, now: nat): map<Key, nat> {
    var live := Live(m, now);
    if k in live || |live| == SLOTS then live else live[k := now]
  }

  /** A family of threaded lists over the slots; `home` says for each slot which list it is on. */
  datatype Lists = Lists(links: seq<int>, heads: seq<int>, chains: seq<seq<int>>, home: seq<int>) {
    ghost predicate Sound(n: nat) {
      && |links| == |home| == SLOTS && |heads| == |chains| == n
      && Threaded(links, heads, chains) && Homed(chains, home)
    }

    lemma Member(n: nat, c: nat, x: int)
      requires Sound(n) && c < n
      ensures Chain(links, heads[c], chains[c])
      ensures x in chains[c] <==> 0 <= x < SLOTS && home[x] == c
    {
    }
  }

  /** Every active slot is on the hash chain of its key, every other slot is on the free list. */
  ghost predicate HomeByKey(home: seq<int>, keys: seq<Key>, active: seq<bool>) {
    && |home| == |keys| == |active| == SLOTS
    && forall j :: 0 <= j < SLOTS ==> home[j] == if active[j] then SeenBucket(keys[j]) else FREE
  }

  /** Every active slot is on the wheel chain of the second it was seen in, no other slot is on any. */
  ghost predicate HomeByTime(home: seq<int>, seen: seq<int>, active: seq<bool>) {
    && |home| == |seen| == |active| == SLOTS
    && forall j :: 0 <= j < SLOTS ==> seen[j] >= 0 && home[j] == if active[j] then WheelIndex(seen[j]) else -1
  }

  /** `slotOf` finds the one active slot of a key. */
  ghost predicate Indexed(keys: seq<Key>, active: seq<bool>, slotOf: map<Key, int>) {
    && |keys| == |active|
    && (forall j :: 0 <= j < |keys| && active[j] ==> keys[j] in slotOf && slotOf[keys[j]] == j)
    && (forall k <- slotOf :: 0 <= slotOf[k] < |keys| && active[slotOf[k]] && keys[slotOf[k]] == k)
  }

  lemma IndexedRemove(keys: seq<Key>, active: seq<bool>, slotOf: map<Key, int>, index: nat)
    requires Indexed(keys, active, slotOf) && index < |keys| && active[index]
    ensures Indexed(keys, active[index := false], slotOf - {keys[index]})
    ensures |slotOf - {keys[index]}| == |slotOf| - 1
  {
    assert (slotOf - {keys[index]}).Keys == slotOf.Keys - {keys[index]};
  }

  /** The nodes of a wheel chain that a sweep at time `now` keeps, in their order. */
  ghost function Survivors(nodes: seq<int>, seen: seq<int>, now: int): (r: seq<int>)
    requires forall i :: 0 <= i < |nodes| ==> 0 <= nodes[i] < |seen|
    ensures forall x :: x in r <==> x in nodes && !Expired(seen[x], now)
  {
    if nodes == [] then []
    else
      var last := nodes[|nodes| - 1];
      Survivors(nodes[..|nodes| - 1], seen, now) + if Expired(seen[last], now) then [] else [last]
  }

  /** The sweep of a wheel chain: `kept` rethreaded so far from `head` to `tail`, the rest of the
      chain still threaded from `index`. */
  datatype Sweeping = Sweeping(links: seq<int>, active: seq<bool>, head: int, tail: int, index: int, kept: seq<int>) {
    ghost predicate At(k: nat, nodes: seq<int>, seen: seq<int>, now: int) {
      && |links| == |seen| == |active| && k <= |nodes| && NoDup(nodes)
      && (forall i :: 0 <= i < |nodes| ==> 0 <= nodes[i] < |links|)
      && kept == Survivors(nodes[..k], seen, now)
      && OpenChain(links, head, kept)
      && tail == (if kept == [] then -1 else kept[|kept| - 1])
      && index == (if k < |nodes| then nodes[k] else -1)
      && (forall i :: k <= i < |nodes| ==> links[nodes[i]] == After(nodes, i) && active[nodes[i]])
      && (forall i :: 0 <= i < k ==> active[nodes[i]] == !Expired(seen[nodes[i]], now))
    }

    lemma Begin(chain: seq<int>, seen: seq<int>, now: int)
      requires Chain(links, index, chain) && |links| == |seen| == |active|
      requires forall i :: 0 <= i < |chain| ==> active[chain[i]]
      requires head == tail == -1 && kept == []
      ensures At(0, chain, seen, now)
    {
    }

    lemma Next(k: nat, nodes: seq<int>, seen: seq<int>, now: int)
      requires At(k, nodes, seen, now) && index != -1
      ensures k < |nodes| && index == nodes[k] && active[index] && index !in kept
      ensures -1 <= tail < |links| && (head == -1 <==> tail == -1)
      ensures tail != -1 ==> tail in nodes && forall i :: k <= i < |nodes| ==> nodes[i] != tail
      ensures Survivors(nodes[..k + 1], seen, now) == kept + if Expired(seen[index], now) then [] else [index]
    {
      assert nodes[..k + 1][..k] == nodes[..k];
      if tail != -1 {
        assert tail in kept;
      }
    }

    lemma End(k: nat, nodes: seq<int>, seen: seq<int>, now: int)
      requires At(k, nodes, seen, now) && index == -1
      ensures kept == Survivors(nodes, seen, now) && -1 <= tail < |links| && (tail != -1 ==> tail in nodes)
      ensures Chain(if tail == -1 then links else links[tail := -1], head, kept)
      ensures forall i :: 0 <= i < |nodes| ==> active[nodes[i]] == !Expired(seen[nodes[i]], now)
    {
      assert nodes[..k] == nodes;
      if tail != -1 {
        assert tail in kept;
        OpenChainClose(links, head, kept);
      }
    }

    lemma Drop(k: nat, nodes: seq<int>, seen: seq<int>, now: int)
      requires At(k, nodes, seen, now) && index != -1
      ensures 0 <= index < |links| == |seen| && |active| == |seen|
      ensures Expired(seen[index], now) ==>
                this.(active := active[index := false], index := links[index]).At(k + 1, nodes, seen, now)
    {
      hide OpenChain, Survivors;
      Next(k, nodes, seen, now);
    }

    lemma Keep(k: nat, nodes: seq<int>, seen: seq<int>, now: int)
      requires At(k, nodes, seen, now) && index != -1
      ensures 0 <= index < |links| == |seen| && -1 <= tail < |links|
      ensures !Expired(seen[index], now) ==>
                Sweeping(if tail == -1 then links else links[tail := index], active, if head == -1 then index else head,
                  index, links[index], kept + [index]).At(k + 1, nodes, seen, now)
    {
      hide OpenChain, Survivors, NoDup;
      Next(k, nodes, seen, now);
      OpenChainExtend(links, head, kept, index);
      assert kept == [] ==> kept + [index] == [index];
    }
  }

  ghost function WheelHome(seen: seq<int>, active: seq<bool>): (home: seq<int>)
    requires |seen| == |active| == SLOTS && forall j :: 0 <= j < SLOTS ==> seen[j] >= 0
    ensures HomeByTime(home, seen, active)
  {
    seq(SLOTS, j requires 0 <= j < SLOTS => if active[j] then WheelIndex(seen[j]) else -1)
  }

  lemma WheelMembers(wheel: Lists, w: nat, seen: seq<int>, active: seq<bool>)
    requires wheel.Sound(WHEEL) && HomeByTime(wheel.home, seen, active) && w < WHEEL
    ensures Chain(wheel.links, wheel.heads[w], wheel.chains[w])
    ensures forall i :: 0 <= i < |wheel.chains[w]| ==> 0 <= wheel.chains[w][i] < SLOTS && active[wheel.chains[w][i]]
    ensures forall x :: x in wheel.chains[w] <==> 0 <= x < SLOTS && wheel.home[x] == w
  {
    forall x
      ensures x in wheel.chains[w] <==> 0 <= x < SLOTS && wheel.home[x] == w
    {
      wheel.Member(WHEEL, w, x);
    }
    wheel.Member(WHEEL, w, 0);
  }

  /** Sweeping bucket `w` leaves the wheel threading exactly the slots that are still active. */
  lemma SweptWheel(wheel: Lists, links: seq<int>, head: int, w: nat, seen: seq<int>,
                   active: seq<bool>, active': seq<bool>, now: int)
    requires wheel.Sound(WHEEL) && HomeByTime(wheel.home, seen, active) && w < WHEEL
    requires |links| == |active'| == SLOTS
    requires forall i :: 0 <= i < |wheel.chains[w]| ==> 0 <= wheel.chains[w][i] < SLOTS
    requires Chain(links, head, Survivors(wheel.chains[w], seen, now))
    requires forall j :: 0 <= j < SLOTS && j !in wheel.chains[w] ==>
        links[j] == wheel.links[j] && active'[j] == active[j]
    requires forall i :: 0 <= i < |wheel.chains[w]| ==>
               active'[wheel.chains[w][i]] == !Expired(seen[wheel.chains[w][i]], now)
    ensures Lists(links, wheel.heads[w := head], wheel.chains[w := Survivors(wheel.chains[w], seen, now)],
              WheelHome(seen, active')).Sound(WHEEL)
    ensures Swept(seen, active, active', w, now)
    ensures forall j :: j in Survivors(wheel.chains[w], seen, now) <==>
              0 <= j < SLOTS && active'[j] && WheelIndex(seen[j]) == w
  {
    hide Threaded, Homed, Chain, NoDup;
    WheelMembers(wheel, w, seen, active);
    var kept := Survivors(wheel.chains[w], seen, now);
    var home := WheelHome(seen, active');
    ThreadedReplace(wheel.links, links, wheel.heads, head, wheel.chains, wheel.home, w, kept);
    HomedReplace(wheel.chains, wheel.home, home, w, kept);
  }

  /** The wheel bucket of time `seen` is one of those from `last` up to `expiration`. */
  ghost predicate Due(seen: int, last: int, expiration: int) {
    (seen / TICK - last) % WHEEL <= expiration - last
  }

  lemma ResidueStep(a: int, b: int)
    requires a % WHEEL != b % WHEEL
    ensures (a - b - 1) % WHEEL == (a - b) % WHEEL - 1
  {
    var quotient := (a - b) / WHEEL;
    assert (a - b) % WHEEL == 0 ==> a == b + WHEEL * quotient;
  }

  lemma DueNext(seen: nat, last: nat, expiration: int)
    requires Due(seen, last, expiration) && WheelIndex(seen) != last % WHEEL
    ensures Due(seen, last + 1, expiration) && last < expiration
  {
    ResidueStep(seen / TICK, last);
  }

  /** A live slot in the second that is expiring now shows up in no earlier wheel bucket of this sweep. */
  lemma LiveInBucket(seen: nat, last: nat, expiration: nat, now: nat)
    requires now >= TTL && expiration == (now - TTL) / TICK && !Expired(seen, now)
    requires expiration - WHEEL < last <= expiration
    ensures expiration <= seen / TICK
    ensures WheelIndex(seen) == last % WHEEL && seen / TICK <= expiration ==> last == expiration
  {
  }

  /** No active slot was seen before second `last`. */
  ghost predicate NotBefore(seen: seq<int>, active: seq<bool>, last: int) {
    && |seen| == |active| == SLOTS
    && forall j :: 0 <= j < SLOTS && active[j] ==> last <= seen[j] / TICK
  }

  ghost predicate NotAfter(seen: seq<int>, active: seq<bool>, clock: int) {
    && |seen| == |active| == SLOTS
    && forall j :: 0 <= j < SLOTS && active[j] ==> seen[j] <= clock
  }

  /** Wheel bucket `w` holds a slot that was seen no later than second `expiration`. */
  ghost predicate HasCurrent(seen: seq<int>, active: seq<bool>, w: nat, expiration: int) {
    && |seen| == |active| == SLOTS && (forall j :: 0 <= j < SLOTS ==> seen[j] >= 0)
    && exists j :: 0 <= j < SLOTS && active[j] && WheelIndex(seen[j]) == w && seen[j] / TICK <= expiration
  }

  /** Exactly the expired slots are gone. */
  ghost predicate Survived(seen: seq<int>, was: seq<bool>, active: seq<bool>, now: int) {
    && |seen| == |was| == |active| == SLOTS
    && forall j :: 0 <= j < SLOTS ==> active[j] == (was[j] && !Expired(seen[j], now))
  }

  /** Sweeping bucket `w` takes out its expired slots and no others. */
  ghost predicate Swept(seen: seq<int>, was: seq<bool>, active: seq<bool>, w: nat, now: int) {
    && |seen| == |was| == |active| == SLOTS && (forall j :: 0 <= j < SLOTS ==> seen[j] >= 0)
    && forall j :: 0 <= j < SLOTS ==> active[j] == (was[j] && !(WheelIndex(seen[j]) == w && Expired(seen[j], now)))
  }

  /** Sweeping so far has dropped only expired slots of `was`, and all expired ones not due later. */
  ghost predicate Pruned(seen: seq<int>, was: seq<bool>, active: seq<bool>, now: int, last: int, expiration: int) {
    && |seen| == |was| == |active| == SLOTS
    && forall j :: 0 <= j < SLOTS ==>
         && seen[j] >= 0
         && (active[j] ==> was[j])
         && (!Expired(seen[j], now) ==> active[j] == was[j])
         && (active[j] && Expired(seen[j], now) ==> Due(seen[j], last, expiration))
  }

  lemma PrunedNext(seen: seq<int>, was: seq<bool>, active: seq<bool>, active': seq<bool>, now: nat, last: nat,
      expiration: nat)
    requires Pruned(seen, was, active, now, last, expiration)
    requires now >= TTL && expiration == (now - TTL) / TICK && expiration - WHEEL < last <= expiration
    requires Swept(seen, active, active', last % WHEEL, now)
    ensures Pruned(seen, was, active', now, last + 1, expiration)
    ensures HasCurrent(seen, active', last % WHEEL, expiration) ==> last == expiration
    ensures last == expiration ==> NotBefore(seen, active', expiration)
    ensures last == expiration && !HasCurrent(seen, active', last % WHEEL, expiration) ==>
        NotBefore(seen, active', expiration + 1)
  {
    hide Due;
    forall j | 0 <= j < SLOTS
      ensures active'[j] && Expired(seen[j], now) ==> Due(seen[j], last + 1, expiration) && last < expiration
      ensures !Expired(seen[j], now) ==> expiration <= seen[j] / TICK
      ensures !Expired(seen[j], now) && WheelIndex(seen[j]) == last % WHEEL && seen[j] / TICK <= expiration ==>
          last == expiration
    {
      if !Expired(seen[j], now) {
        LiveInBucket(seen[j], last, expiration, now);
      } else if active'[j] {
        DueNext(seen[j], last, expiration);
      }
    }
  }

  /** Before the sweep every expired slot is due: either its own bucket is ahead, or all 60 are. */
  lemma PrunedFirst(seen: seq<int>, active: seq<bool>, now: nat, reached: nat, last: nat, expiration: nat)
    requires |seen| == |active| == SLOTS && forall j :: 0 <= j < SLOTS ==> seen[j] >= 0
    requires NotBefore(seen, active, reached)
    requires now >= TTL && expiration == (now - TTL) / TICK
    requires (last == reached && expiration - WHEEL < last <= expiration) || last == expiration + 1 - WHEEL
    ensures Pruned(seen, active, active, now, last, expiration)
  {
    forall j | 0 <= j < SLOTS && active[j] && Expired(seen[j], now)
      ensures Due(seen[j], last, expiration)
    {
      if last == reached && expiration - WHEEL < last {
        assert last <= seen[j] / TICK <= expiration;
      }
    }
  }

  /** After it no expired slot is left. */
  lemma PrunedLast(seen: seq<int>, was: seq<bool>, active: seq<bool>, now: nat, expiration: int)
    requires Pruned(seen, was, active, now, expiration + 1, expiration)
    ensures Survived(seen, was, active, now)
  {
  }

  lemma NoneYet(seen: seq<int>, active: seq<bool>, clock: nat, now: nat)
    requires NotAfter(seen, active, clock) && clock <= now < TTL && forall j :: 0 <= j < |seen| ==> seen[j] >= 0
    ensures Survived(seen, active, active, now) && NotAfter(seen, active, now)
  {
  }

  lemma Kept(seen: seq<int>, was: seq<bool>, active: seq<bool>, clock: nat, now: nat)
    requires NotAfter(seen, was, clock) && Survived(seen, was, active, now) && clock <= now
    ensures NotAfter(seen, active, now)
  {
  }

  /** Once the wheel is past the expiring second, nothing on the table is expired. */
  lemma NothingExpired(seen: seq<int>, active: seq<bool>, now: nat, expiration: int)
    requires NotBefore(seen, active, expiration + 1) && expiration == (now - TTL) / TICK
    ensures Survived(seen, active, active, now)
  {
  }

  /** Retiring the expired slots is, on the map, dropping the keys whose lifetime has passed. */
  lemma ViewOfLive(keys: seq<Key>, seen: seq<int>, was: seq<bool>, active: seq<bool>,
                   slotWas: map<Key, int>, slotOf: map<Key, int>, now: nat)
    requires |keys| == |seen| && Indexed(keys, was, slotWas) && Indexed(keys, active, slotOf)
    requires Survived(seen, was, active, now) && forall j :: 0 <= j < |seen| ==> seen[j] >= 0
    ensures MapOf(slotOf, seen) == Live(MapOf(slotWas, seen), now)
  {
  }

  lemma MapOfInsert(keys: seq<Key>, seen: seq<int>, active: seq<bool>, slotOf: map<Key, int>, index: nat, k: Key,
      now: nat)
    requires |keys| == |seen| && Indexed(keys, active, slotOf) && forall j :: 0 <= j < |seen| ==> seen[j] >= 0
    requires index < |seen| && k !in slotOf
    ensures |MapOf(slotOf, seen)| == |slotOf|
    ensures !active[index] ==> MapOf(slotOf[k := index], seen[index := now]) == MapOf(slotOf, seen)[k := now]
  {
    assert MapOf(slotOf, seen).Keys == slotOf.Keys;
  }

  ghost function MapOf(slotOf: map<Key, int>, seen: seq<int>): (m: map<Key, nat>)
    requires forall k <- slotOf :: 0 <= slotOf[k] < |seen| && seen[slotOf[k]] >= 0
    ensures m.Keys == slotOf.Keys
  {
    map k | k in slotOf :: seen[slotOf[k]]
  }

  lemma IndexedInsert(keys: seq<Key>, active: seq<bool>, slotOf: map<Key, int>, index: nat, k: Key)
    requires Indexed(keys, active, slotOf) && index < |keys| && !active[index] && k !in slotOf
    ensures Indexed(keys[index := k], active[index := true], slotOf[k := index])
    ensures |slotOf[k := index]| == |slotOf| + 1
  {
    assert slotOf[k := index].Keys == slotOf.Keys + {k};
  }

  lemma HomesInsert(hashHome: seq<int>, wheelHome: seq<int>, keys: seq<Key>, seen: seq<int>, active: seq<bool>,
                    index: nat, k: Key, now: nat)
    requires index < |hashHome| && hashHome[index] == -1
    requires HomeByKey(hashHome[index := FREE], keys, active) && !active[index] && HomeByTime(wheelHome, seen, active)
    ensures HomeByKey(hashHome[index := SeenBucket(k)], keys[index := k], active[index := true])
    ensures HomeByTime(wheelHome[index := WheelIndex(now)], seen[index := now], active[index := true])
    ensures |wheelHome| == SLOTS && wheelHome[index] == -1
  {
    hide SeenBucket, SeenHash, HashText;
  }

  /** A key is in use exactly when its own hash chain holds it. */
  lemma OnItsChain(h: Lists, keys: seq<Key>, active: seq<bool>, slotOf: map<Key, int>, k: Key)
    requires h.Sound(FREE + 1) && HomeByKey(h.home, keys, active) && Indexed(keys, active, slotOf)
    ensures Chain(h.links, h.heads[SeenBucket(k)], h.chains[SeenBucket(k)])
    ensures k in slotOf <==> Holds(h.chains[SeenBucket(k)], keys, active, k)
  {
    hide SeenBucket, SeenHash, HashText, Threaded, Homed, Chain;
    var bucket := SeenBucket(k);
    h.Member(FREE + 1, bucket, 0);
    if k in slotOf {
      h.Member(FREE + 1, bucket, slotOf[k]);
      var i :| 0 <= i < |h.chains[bucket]| && h.chains[bucket][i] == slotOf[k];
    }
  }

  lemma {:induction false} InjectiveSize(m: map<Key, int>)
    requires forall a, b :: a in m && b in m && a != b ==> m[a] != m[b]
    ensures |m.Values| == |m|
    decreases |m|
  {
    if m != map[] {
      var k :| k in m;
      var rest := m - {k};
      InjectiveSize(rest);
      forall v
        ensures v in m.Values <==> v in rest.Values + {m[k]}
      {
        if v in m.Values {
          var a :| a in m && m[a] == v;
          assert a != k ==> rest[a] == v;
        }
      }
      assert m.Values == rest.Values + {m[k]};
      assert m.Keys == rest.Keys + {k};
    }
  }

  /** The active slots, and the slots of the free list, are 256 in all. */
  lemma ActiveCount(keys: seq<Key>, active: seq<bool>, slotOf: map<Key, int>)
    requires Indexed(keys, active, slotOf)
    ensures |set j | 0 <= j < |active| && active[j]| == |slotOf|
  {
    InjectiveSize(slotOf);
    assert (set j | 0 <= j < |active| && active[j]) == slotOf.Values;
  }

  /** Where each slot is: a free slot on the free list and on no wheel chain; an active one on the hash
      chain of its key, on the wheel chain of its time, and on no other; no two active slots have the same key. */
  lemma SlotPlaces(h: Lists, w: Lists, keys: seq<Key>, seen: seq<int>, active: seq<bool>, slotOf: map<Key, int>, j: nat)
    requires h.Sound(FREE + 1) && HomeByKey(h.home, keys, active) && Indexed(keys, active, slotOf)
    requires w.Sound(WHEEL) && HomeByTime(w.home, seen, active) && j < SLOTS
    ensures forall c :: 0 <= c <= FREE ==> (j in h.chains[c] <==> c == if active[j] then SeenBucket(keys[j]) else FREE)
    ensures forall c :: 0 <= c < WHEEL ==> (j in w.chains[c] <==> active[j] && c == WheelIndex(seen[j]))
    ensures forall i :: 0 <= i < SLOTS && active[i] && active[j] && keys[i] == keys[j] ==> i == j
  {
    hide SeenBucket, SeenHash, HashText, Threaded, Homed, Chain, WheelIndex;
    forall c | 0 <= c <= FREE
      ensures j in h.chains[c] <==> h.home[j] == c
    {
      h.Member(FREE + 1, c, j);
    }
    forall c | 0 <= c < WHEEL
      ensures j in w.chains[c] <==> w.home[j] == c
    {
      w.Member(WHEEL, c, j);
    }
  }

  ghost predicate Holds(nodes: seq<int>, keys: seq<Key>, active: seq<bool>, k: Key) {
    exists i :: 0 <= i < |nodes| && 0 <= nodes[i] < |keys| && nodes[i] < |active| && active[nodes[i]]
        && keys[nodes[i]] == k
  }

  /** The walk of packet_seen and remember_packet along a hash chain. */
  method FindKey(links: array<int>, keys: array<Key>, active: array<bool>, head: int, k: Key, ghost nodes: seq<int>)
    returns (found: bool)
    requires links.Length == keys.Length == active.Length && Chain(links[..], head, nodes)
    ensures found <==> Holds(nodes, keys[..], active[..], k)
  {
    hide NoDup;
    ghost var q := 0;
    var index := head;
    while index != -1
      invariant 0 <= q <= |nodes| && index == if q < |nodes| then nodes[q] else -1
      invariant forall i :: 0 <= i < q ==> !(active[nodes[i]] && keys[nodes[i]] == k)
      decreases |nodes| - q
    {
      if active[index] && keys[index] == k {
        return true;
      }
      assert links[..][nodes[q]] == After(nodes, q);
      index := links[index];
      q := q + 1;
    }
    found := false;
  }

  ghost function Repeat<T>(x: T, n: nat): (s: seq<T>)
    ensures |s| == n && forall i :: 0 <= i < n ==> s[i] == x
  {
    seq(n, _ => x)
  }

  ghost function FreeThread(): (s: seq<int>)
    ensures |s| == SLOTS && s[SLOTS - 1] == -1 && forall i :: 0 <= i < SLOTS - 1 ==> s[i] == i + 1
  {
    seq(SLOTS, i => if i == SLOTS - 1 then -1 else i + 1)
  }

  ghost function AllSlots(): (s: seq<int>)
    ensures |s| == SLOTS && forall i :: 0 <= i < SLOTS ==> s[i] == i
  {
    seq(SLOTS, i => i)
  }

  function FirstBucket(now: uint32): (b: nat)
    ensures b == 0 || (b - 1) * TICK + TTL <= now
  {
    if now < TTL then 0 else (now - TTL) / TICK
  }

  method Filled<T(0)>(n: nat, x: T) returns (a: array<T>)
    ensures fresh(a) && a[..] == Repeat(x, n)
  {
    a := new T[n];
    for i := 0 to n
      invariant forall j :: 0 <= j < i ==> a[j] == x
    {
      a[i] := x;
    }
  }

  /** The free list as dedup_init_storage threads it: every slot leads to the next one. */
  method FreeLinks() returns (a: array<int>)
    ensures fresh(a) && a[..] == FreeThread()
  {
    a := new int[SLOTS];
    for i := 0 to SLOTS - 1
      invariant forall j :: 0 <= j < i ==> a[j] == j + 1
    {
      a[i] := i + 1;
    }
    a[SLOTS - 1] := -1;
  }

  class SeenTable {
    const keys: array<Key>
    const seenMs: array<int>
    const active: array<bool>
    const nextHash: array<int>
    const nextExpiry: array<int>
    const hashBuckets: array<int>
    const expiryWheel: array<int>
    var freeHead: int
    var lastBucket: int

    ghost var clock: nat
    ghost var hashChains: seq<seq<int>>
    ghost var hashHome: seq<int>
    ghost var wheelChains: seq<seq<int>>
    ghost var wheelHome: seq<int>
    ghost var slotOf: map<Key, int>

    ghost predicate Shape() {
      && keys.Length == seenMs.Length == active.Length == nextHash.Length == nextExpiry.Length == SLOTS
      && hashBuckets.Length == BUCKETS && expiryWheel.Length == WHEEL
      && nextHash != nextExpiry && nextHash != seenMs && nextExpiry != seenMs
    }

    /** The hash chains, with the free list as list number FREE. */
    ghost function Hash(): Lists
      reads `freeHead, `hashChains, `hashHome, nextHash, hashBuckets
    {
      Lists(nextHash[..], hashBuckets[..] + [freeHead], hashChains, hashHome)
    }

    ghost function Wheel(): Lists
      reads `wheelChains, `wheelHome, nextExpiry, expiryWheel
    {
      Lists(nextExpiry[..], expiryWheel[..], wheelChains, wheelHome)
    }

    ghost predicate HashOk()
      reads `freeHead, `hashChains, `hashHome, `slotOf, keys, active, nextHash, hashBuckets
    {
      && Hash().Sound(FREE + 1) && HomeByKey(hashHome, keys[..], active[..])
      && Indexed(keys[..], active[..], slotOf)
      && |slotOf| + |hashChains[FREE]| == SLOTS
    }

    ghost predicate WheelOk()
      reads `wheelChains, `wheelHome, seenMs, active, nextExpiry, expiryWheel
    {
      Wheel().Sound(WHEEL) && HomeByTime(wheelHome, seenMs[..], active[..])
    }

    /** In every state that a method may be called in, each slot is on the lists that it belongs to and
        on no other, every list is a chain without cycles, and free and active slots are 256 in all. */
    lemma Structure(j: nat)
      requires Shape() && HashOk() && WheelOk() && j < SLOTS
      ensures |hashChains| == FREE + 1 && |wheelChains| == WHEEL
      ensures forall c :: 0 <= c < FREE ==> Chain(nextHash[..], hashBuckets[c], hashChains[c])
      ensures Chain(nextHash[..], freeHead, hashChains[FREE])
      ensures forall c :: 0 <= c < WHEEL ==> Chain(nextExpiry[..], expiryWheel[c], wheelChains[c])
      ensures forall c :: 0 <= c <= FREE ==> (j in hashChains[c] <==>
          c == if active[j] then SeenBucket(keys[j]) else FREE)
      ensures seenMs[j] >= 0 && forall c :: 0 <= c < WHEEL ==>
          (j in wheelChains[c] <==> active[j] && c == WheelIndex(seenMs[j]))
      ensures forall i :: 0 <= i < SLOTS && active[i] && active[j] && keys[i] == keys[j] ==> i == j
      ensures |set i | 0 <= i < SLOTS && active[i]| + |hashChains[FREE]| == SLOTS
    {
      hide SeenBucket, SeenHash, HashText, Homed, Chain, WheelIndex, Indexed;
      SlotPlaces(Hash(), Wheel(), keys[..], seenMs[..], active[..], slotOf, j);
      ActiveCount(keys[..], active[..], slotOf);
      assert (set i | 0 <= i < SLOTS && active[i]) == (set i | 0 <= i < |active[..]| && active[..][i]);
      forall c | 0 <= c < FREE
        ensures Chain(nextHash[..], hashBuckets[c], hashChains[c])
      {
        assert Hash().heads[c] == hashBuckets[c];
      }
      assert Hash().heads[FREE] == freeHead;
    }

    ghost function Repr(): set<object> {
      {keys as object, seenMs as object, active as object, nextHash as object, nextExpiry as object,
          hashBuckets as object, expiryWheel as object}
    }

    /** dedup_init_storage: all slots on the free list, all chains empty. */
    constructor (now: uint32)
      ensures Shape() && fresh(Repr()) && clock == now && lastBucket == FirstBucket(now)
      ensures Hash() == Lists(FreeThread(), Repeat(-1, BUCKETS) + [0], Repeat([], BUCKETS) + [AllSlots()],
          Repeat(FREE, SLOTS))
      ensures Wheel() == Lists(Repeat(-1, SLOTS), Repeat(-1, WHEEL), Repeat([], WHEEL), Repeat(-1, SLOTS))
      ensures seenMs[..] == Repeat(0, SLOTS) && active[..] == Repeat(false, SLOTS) && slotOf == map[]
    {
      hide Repeat, AllSlots, FreeThread;
      var times := Filled(SLOTS, 0);
      var flags := Filled(SLOTS, false);
      var free := FreeLinks();
      var ends := Filled(SLOTS, -1);
      var buckets := Filled(BUCKETS, -1);
      var wheel := Filled(WHEEL, -1);
      keys, seenMs, active, nextHash, nextExpiry := new Key[SLOTS], times, flags, free, ends;
      hashBuckets, expiryWheel := buckets, wheel;
      freeHead, lastBucket, clock := 0, FirstBucket(now), now;
      hashChains, hashHome := Repeat([], BUCKETS) + [AllSlots()], Repeat(FREE, SLOTS);
      wheelChains, wheelHome := Repeat([], WHEEL), Repeat(-1, SLOTS);
      slotOf := map[];
    }

    /** A freshly initialised table stands for the empty map. */
    static method Create(now: uint32) returns (t: SeenTable)
      ensures fresh(t) && fresh(t.Repr()) && t.Valid() && t.clock == now && t.View() == map[]
    {
      hide SeenBucket, SeenHash, HashText, Lists.Sound, HomeByKey, HomeByTime, Indexed, NotBefore, NotAfter, MapOf;
      hide Repeat, AllSlots, FreeThread, FirstBucket;
      t := new SeenTable(now);
      AllFree(t.Hash());
      AllIdle(t.Wheel(), t.hashHome, t.keys[..], t.seenMs[..], t.active[..], t.lastBucket, now);
    }

    // The links as the code sets them, whatever state the lists are in

    /** remove_from_hash: the walk along the chain of the stored key, and the link past the slot if it is there. */
    method Unhook(index: int, ghost nodes: seq<int>) returns (ghost q: nat)
      requires Shape() && 0 <= index < SLOTS && Chain(nextHash[..], hashBuckets[SeenBucket(keys[index])], nodes)
      modifies nextHash, hashBuckets
      ensures index in nodes ==> q < |nodes| && nodes[q] == index
      ensures index in nodes && q == 0 ==>
                && hashBuckets[..] == old(hashBuckets[..])[SeenBucket(keys[index]) := old(nextHash[index])]
                && nextHash[..] == old(nextHash[..])
      ensures index in nodes && q > 0 ==>
                && hashBuckets[..] == old(hashBuckets[..]) && 0 <= nodes[q - 1] < SLOTS
                && nextHash[..] == old(nextHash[..])[nodes[q - 1] := old(nextHash[index])]
      ensures index !in nodes ==> nextHash[..] == old(nextHash[..]) && hashBuckets[..] == old(hashBuckets[..])
    {
      hide SeenBucket, SeenHash, HashText, Mix, NoDup;
      var bucket := SeenBucket(keys[index]);
      var prev, cursor := -1, hashBuckets[bucket];
      q := 0;
      while cursor != -1
        invariant 0 <= q <= |nodes| && cursor == if q < |nodes| then nodes[q] else -1
        invariant prev == if q == 0 then -1 else nodes[q - 1]
        invariant forall i :: 0 <= i < q ==> nodes[i] != index
        decreases |nodes| - q
      {
        assert cursor in nodes && nextHash[..][nodes[q]] == After(nodes, q);
        if cursor == index {
          if prev == -1 {
            hashBuckets[bucket] := nextHash[index];
          } else {
            nextHash[prev] := nextHash[index];
          }
          return;
        }
        prev, cursor := cursor, nextHash[cursor];
        q := q + 1;
      }
    }

    /** An expired slot becomes the first free one. */
    method GiveBack(index: int)
      requires Shape() && 0 <= index < SLOTS
      modifies `freeHead, active, nextHash
      ensures active[..] == old(active[..])[index := false] && freeHead == index
      ensures nextHash[..] == old(nextHash[..])[index := old(freeHead)]
    {
      active[index] := false;
      nextHash[index] := freeHead;
      freeHead := index;
    }

    /** alloc_entry, when a slot is free. */
    method PopFree() returns (index: int)
      requires Shape() && 0 <= freeHead < SLOTS
      modifies `freeHead
      ensures index == old(freeHead) && freeHead == nextHash[index]
    {
      index := freeHead;
      freeHead := nextHash[index];
    }

    /** The slot as insert_entry fills it in. */
    method Fill(index: int, source: Text, id: uint32, now: uint32)
      requires Shape() && 0 <= index < SLOTS
      modifies keys, seenMs, active
      ensures keys[..] == old(keys[..])[index := Key(CopyField(source, NAME_MAX), id)]
      ensures seenMs[..] == old(seenMs[..])[index := now] && active[..] == old(active[..])[index := true]
    {
      hide CopyField;
      keys[index] := Key(CopyField(source, NAME_MAX), id);
      seenMs[index] := now;
      active[index] := true;
    }

    /** The hash link as insert_entry sets it. */
    method HookFront(index: int, bucket: nat)
      requires Shape() && 0 <= index < SLOTS && bucket < BUCKETS
      modifies nextHash, hashBuckets
      ensures nextHash[..] == old(nextHash[..])[index := old(hashBuckets[bucket])]
      ensures hashBuckets[..] == old(hashBuckets[..])[bucket := index]
    {
      nextHash[index] := hashBuckets[bucket];
      hashBuckets[bucket] := index;
    }

    // What they do to lists that are in order

    method RemoveFromHash(index: int)
      requires Shape() && HashOk() && 0 <= index < SLOTS && active[index]
      modifies `hashChains, `hashHome, nextHash, hashBuckets
      ensures Hash().Sound(FREE + 1) && hashHome == old(hashHome)[index := -1]
      ensures hashChains[FREE] == old(hashChains)[FREE]
    {
      hide Chain, Threaded, Homed, Indexed, SeenBucket, SeenHash, HashText;
      ghost var bucket := SeenBucket(keys[index]);
      ghost var h := Hash();
      h.Member(FREE + 1, bucket, index);
      ghost var nodes := h.chains[bucket];
      ghost var q := Unhook(index, nodes);
      Unlink(h.links, h.heads, h.chains, h.home, bucket, q);
      hashChains := hashChains[bucket := Without(nodes, q)];
      hashHome := hashHome[index := -1];
      assert Hash().heads == h.heads[bucket := if q == 0 then h.links[index] else h.heads[bucket]];
    }

    /** The expiry of one slot: off its hash chain and onto the free list. */
    method Retire(index: int)
      requires Shape() && HashOk() && 0 <= index < SLOTS && active[index]
      modifies `freeHead, `hashChains, `hashHome, `slotOf, nextHash, hashBuckets, active
      ensures HashOk()
      ensures active[..] == old(active[..])[index := false]
    {
      hide Chain, Threaded, Homed, Indexed, SeenBucket, SeenHash, HashText;
      IndexedRemove(keys[..], active[..], slotOf, index);
      RemoveFromHash(index);
      slotOf := slotOf - {keys[index]};
      ghost var h := Hash();
      PushFront(h.links, h.heads, h.chains, h.home, FREE, index);
      hashChains := hashChains[FREE := [index] + hashChains[FREE]];
      hashHome := hashHome[index := FREE];
      GiveBack(index);
      assert Hash().heads == h.heads[FREE := index];
      assert Hash().links == h.links[index := h.heads[FREE]];
    }

    /** The walk of one wheel chain: expired slots are retired, the others are rethreaded in order. */
    method SweepChain(first: int, now: int, expiration: int, ghost nodes: seq<int>) returns (head: int, unexpired: bool)
      requires Shape() && HashOk() && Chain(nextExpiry[..], first, nodes)
      requires forall i :: 0 <= i < |nodes| ==> 0 <= nodes[i] < SLOTS && active[nodes[i]]
      modifies `freeHead, `hashChains, `hashHome, `slotOf, nextHash, hashBuckets, active, nextExpiry
      ensures HashOk() && Chain(nextExpiry[..], head, Survivors(nodes, seenMs[..], now))
      ensures forall i :: 0 <= i < |nodes| ==> active[nodes[i]] == !Expired(seenMs[nodes[i]], now)
      ensures forall j :: 0 <= j < SLOTS && j !in nodes ==>
          nextExpiry[j] == old(nextExpiry[j]) && active[j] == old(active[j])
      ensures unexpired <==> exists x <- Survivors(nodes, seenMs[..], now) ::
          0 <= x < SLOTS && seenMs[x] / TICK <= expiration
    {
      hide HashOk, Chain, OpenChain, NoDup, Survivors, Sweeping.At;
      ghost var k, kept: seq<int> := 0, [];
      var tail, index := -1, first;
      head, unexpired := -1, false;
      Sweeping(nextExpiry[..], active[..], -1, -1, index, []).Begin(nodes, seenMs[..], now);
      while index != -1
        invariant HashOk()
        invariant k <= |nodes|
        invariant Sweeping(nextExpiry[..], active[..], head, tail, index, kept).At(k, nodes, seenMs[..], now)
        invariant forall j :: 0 <= j < SLOTS && j !in nodes ==>
            nextExpiry[j] == old(nextExpiry[j]) && active[j] == old(active[j])
        invariant unexpired <==> exists x <- kept :: 0 <= x < SLOTS && seenMs[x] / TICK <= expiration
        decreases |nodes| - k
      {
        ghost var st := Sweeping(nextExpiry[..], active[..], head, tail, index, kept);
        st.Next(k, nodes, seenMs[..], now);
        st.Drop(k, nodes, seenMs[..], now);
        st.Keep(k, nodes, seenMs[..], now);
        var next := nextExpiry[index];
        if active[index] && Expired(seenMs[index], now) {
          Retire(index);
        } else if active[index] {
          if head == -1 { head := index; } else { nextExpiry[tail] := index; }
          tail := index;
          kept := kept + [index];
          if seenMs[index] / TICK <= expiration { unexpired := true; }
        }
        index := next;
        k := k + 1;
      }
      Sweeping(nextExpiry[..], active[..], head, tail, index, kept).End(k, nodes, seenMs[..], now);
      if tail != -1 {
        nextExpiry[tail] := -1;
      }
    }

    /** One step of the expiry loop: wheel bucket `w` loses its expired slots, and nothing else changes. */
    method Sweep(w: nat, now: int, expiration: int) returns (unexpired: bool)
      requires Shape() && HashOk() && WheelOk() && w < WHEEL
      modifies `freeHead, `hashChains, `hashHome, `slotOf, `wheelChains, `wheelHome
      modifies nextHash, hashBuckets, active, nextExpiry, expiryWheel
      ensures HashOk() && WheelOk()
      ensures Swept(seenMs[..], old(active[..]), active[..], w, now)
      ensures unexpired <==> HasCurrent(seenMs[..], active[..], w, expiration)
    {
      hide Threaded, Homed, Indexed, SeenBucket, SeenHash, HashText, Chain, NoDup, Survivors, HomeByTime;
      ghost var before, nodes, was := Wheel(), wheelChains[w], active[..];
      WheelMembers(before, w, seenMs[..], active[..]);
      var index := expiryWheel[w];
      expiryWheel[w] := -1;
      var head;
      head, unexpired := SweepChain(index, now, expiration, nodes);
      SweptWheel(before, nextExpiry[..], head, w, seenMs[..], was, active[..], now);
      expiryWheel[w] := head;
      wheelHome := WheelHome(seenMs[..], active[..]);
      wheelChains := wheelChains[w := Survivors(nodes, seenMs[..], now)];
      assert expiryWheel[..] == before.heads[w := head];
    }

    /** Nothing on the table is older than the bucket the wheel has reached. */
    ghost predicate Timely()
      reads `clock, `lastBucket, seenMs, active
    {
      && 0 <= lastBucket && clock < 0x1_0000_0000
      && (lastBucket == 0 || (lastBucket - 1) * TICK + TTL <= clock)
      && NotBefore(seenMs[..], active[..], lastBucket)
      && NotAfter(seenMs[..], active[..], clock)
    }

    lemma TimesNatural()
      requires WheelOk()
      ensures |seenMs[..]| == SLOTS && forall j :: 0 <= j < SLOTS ==> seenMs[..][j] >= 0
    {
    }

    ghost predicate Valid()
      reads this, keys, seenMs, active, nextHash, nextExpiry, hashBuckets, expiryWheel
    {
      Shape() && HashOk() && WheelOk() && Timely()
    }

    /** The table as a plain map from key to the time it was first seen. */
    ghost function View(): (m: map<Key, nat>)
      requires Valid()
      reads this, keys, seenMs, active, nextHash, nextExpiry, hashBuckets, expiryWheel
    {
      MapOf(slotOf, seenMs[..])
    }

    /** expire_current_and_prior_buckets: afterwards exactly the expired slots are gone. */
    method ExpireBuckets(now: uint32)
      requires Valid() && clock <= now
      modifies `clock, `lastBucket, `freeHead, `hashChains, `hashHome, `slotOf, `wheelChains, `wheelHome
      modifies nextHash, hashBuckets, active, nextExpiry, expiryWheel
      ensures Valid() && clock == now
      ensures Survived(seenMs[..], old(active[..]), active[..], now)
    {
      hide HashOk, WheelOk, Pruned, NotBefore, NotAfter, Survived, Minus;
      ghost var seen, was, reached := seenMs[..], active[..], lastBucket;
      TimesNatural();
      clock := now;
      if now < TTL {
        NoneYet(seen, was, old(clock), now);
        return;
      }
      var expiration := (now - TTL) / TICK;
      var span := Minus(expiration, lastBucket);
      if span >= 0x8000_0000 {
        NothingExpired(seen, was, now, expiration);
        Kept(seen, was, was, old(clock), now);
        return;
      }
      var steps := if span >= WHEEL then WHEEL else span + 1;
      if span >= WHEEL {
        lastBucket := expiration - WHEEL + 1;
      }
      PrunedFirst(seen, was, now, reached, lastBucket, expiration);
      SweepBuckets(now, expiration, steps);
      PrunedLast(seen, was, active[..], now, expiration);
      Kept(seen, was, active[..], old(clock), now);
    }

    method Expire(now: uint32)
      requires Valid() && clock <= now
      modifies `clock, `lastBucket, `freeHead, `hashChains, `hashHome, `slotOf, `wheelChains, `wheelHome
      modifies nextHash, hashBuckets, active, nextExpiry, expiryWheel
      ensures Valid() && clock == now && View() == Live(old(View()), now)
      ensures Survived(seenMs[..], old(active[..]), active[..], now)
    {
      hide SeenBucket, SeenHash, HashText, Lists.Sound, HomeByKey, HomeByTime, Survived, Indexed, MapOf, Live, Timely;
      ghost var seen, was, slotWas := seenMs[..], active[..], slotOf;
      TimesNatural();
      ExpireBuckets(now);
      ViewOfLive(keys[..], seen, was, active[..], slotWas, slotOf, now);
    }

    /** The loop of expire_current_and_prior_buckets. It may stop early, but only in the last bucket. */
    method SweepBuckets(now: uint32, expiration: nat, steps: nat)
      requires Shape() && HashOk() && WheelOk() && TTL <= now && expiration == (now - TTL) / TICK
      requires 0 < steps <= WHEEL && 0 <= lastBucket == expiration + 1 - steps
      requires Pruned(seenMs[..], active[..], active[..], now, lastBucket, expiration)
      modifies `lastBucket, `freeHead, `hashChains, `hashHome, `slotOf, `wheelChains, `wheelHome
      modifies nextHash, hashBuckets, active, nextExpiry, expiryWheel
      ensures HashOk() && WheelOk()
      ensures Pruned(seenMs[..], old(active[..]), active[..], now, expiration + 1, expiration)
      ensures 0 <= lastBucket <= expiration + 1
      ensures NotBefore(seenMs[..], active[..], lastBucket)
    {
      hide HashOk, WheelOk, Pruned, Swept, HasCurrent, NotBefore, Minus;
      var step := 0;
      ghost var was := active[..];
      while step < steps
        invariant HashOk() && WheelOk()
        invariant 0 <= step <= steps && 0 <= lastBucket == expiration + 1 - steps + step
        invariant Pruned(seenMs[..], was, active[..], now, lastBucket, expiration)
        invariant step == steps ==> NotBefore(seenMs[..], active[..], lastBucket)
      {
        if Minus(expiration, lastBucket) >= 0x8000_0000 {
          break;
        }
        ghost var before := active[..];
        var unexpired := Sweep(lastBucket % WHEEL, now, expiration);
        PrunedNext(seenMs[..], was, before, active[..], now, lastBucket, expiration);
        if unexpired {
          break;
        }
        lastBucket := lastBucket + 1;
        step := step + 1;
      }
    }

    method Lookup(k: Key) returns (found: bool)
      requires Shape() && HashOk()
      ensures found <==> k in slotOf
    {
      hide SeenBucket, SeenHash, HashText, Threaded, Homed, Chain, Holds, HomeByKey, Indexed;
      var bucket := SeenBucket(k);
      OnItsChain(Hash(), keys[..], active[..], slotOf, k);
      found := FindKey(nextHash, keys, active, hashBuckets[bucket], k, hashChains[bucket]);
    }

    /** Takes the first slot of the free list, -1 when there is none. */
    method AllocEntry() returns (index: int)
      requires Shape() && HashOk()
      modifies `freeHead, `hashChains, `hashHome
      ensures index == -1 <==> |slotOf| == SLOTS
      ensures index == -1 ==> HashOk()
      ensures index != -1 ==>
                && 0 <= index < SLOTS && !active[index] && Hash().Sound(FREE + 1)
                && |hashHome| == SLOTS && hashHome[index] == -1
                && HomeByKey(hashHome[index := FREE], keys[..], active[..]) && Indexed(keys[..], active[..], slotOf)
                && |slotOf| + |hashChains[FREE]| == SLOTS - 1
    {
      hide SeenBucket, SeenHash, HashText, Threaded, Homed, Indexed, Chain;
      ghost var h := Hash();
      FreeListHead(h);
      if freeHead == -1 {
        return -1;
      }
      Unlink(h.links, h.heads, h.chains, h.home, FREE, 0);
      index := PopFree();
      hashChains := hashChains[FREE := Without(hashChains[FREE], 0)];
      hashHome := hashHome[index := -1];
      assert Hash().heads == h.heads[FREE := h.links[index]];
      assert hashHome[index := FREE] == h.home;
    }

    method PushOnHash(index: int, bucket: nat)
      requires Shape() && Hash().Sound(FREE + 1) && 0 <= index < SLOTS && hashHome[index] == -1 && bucket < BUCKETS
      modifies `hashChains, `hashHome, nextHash, hashBuckets
      ensures Hash().Sound(FREE + 1) && hashHome == old(hashHome)[index := bucket]
      ensures hashChains[FREE] == old(hashChains[FREE])
    {
      hide Threaded, Homed;
      ghost var h := Hash();
      PushFront(h.links, h.heads, h.chains, h.home, bucket, index);
      HookFront(index, bucket);
      hashChains, hashHome := hashChains[bucket := [index] + hashChains[bucket]], hashHome[index := bucket];
      assert Hash().heads == h.heads[bucket := index];
    }

    method PushOnWheel(index: int, second: nat)
      requires Shape() && Wheel().Sound(WHEEL) && 0 <= index < SLOTS && wheelHome[index] == -1 && second < WHEEL
      modifies `wheelChains, `wheelHome, nextExpiry, expiryWheel
      ensures Wheel().Sound(WHEEL) && wheelHome == old(wheelHome)[index := second]
    {
      hide Threaded, Homed;
      ghost var wheel := Wheel();
      PushFront(wheel.links, wheel.heads, wheel.chains, wheel.home, second, index);
      nextExpiry[index] := expiryWheel[second];
      expiryWheel[second] := index;
      wheelChains, wheelHome := wheelChains[second := [index] + wheelChains[second]], wheelHome[index := second];
    }

    /** Slot `index` holds the copy of this name, on the chain of the name as it was given. */
    ghost predicate Stored(index: int, source: Text, id: uint32)
      requires Shape()
      reads `freeHead, `hashChains, `hashHome, keys, active, nextHash, hashBuckets
    {
      && Hash().Sound(FREE + 1) && 0 <= index < SLOTS && |hashHome| == SLOTS
      && hashHome[index] == SeenBucket(Key(source, id))
      && active[index] && keys[index] == Key(CopyField(source, NAME_MAX), id)
    }

    /** Threads a taken slot onto the hash chain of its name and the wheel chain of its second. With a clean
        name the table is then in order again. */
    method InsertEntry(index: int, source: Text, id: uint32, now: uint32)
      requires Shape() && WheelOk() && Timely() && clock == now
      requires 0 <= index < SLOTS && !active[index] && Hash().Sound(FREE + 1)
      requires |hashHome| == SLOTS && hashHome[index] == -1
      requires HomeByKey(hashHome[index := FREE], keys[..], active[..]) && Indexed(keys[..], active[..], slotOf)
      requires |slotOf| + |hashChains[FREE]| == SLOTS - 1
      requires Key(source, id) !in slotOf
      modifies `hashChains, `hashHome, `slotOf, `wheelChains, `wheelHome
      modifies keys, seenMs, active, nextHash, hashBuckets, nextExpiry, expiryWheel
      ensures WheelOk() && Timely() && Stored(index, source, id) && seenMs[..] == old(seenMs[..])[index := now]
      ensures keys[..] == old(keys[..])[index := keys[index]] && active[..] == old(active[..])[index := true]
      ensures Clean(source) ==> HashOk() && slotOf == old(slotOf)[Key(source, id) := index]
    {
      hide SeenBucket, SeenHash, HashText, Mix, Lists.Sound, CopyField, Indexed, HomeByKey, HomeByTime, Clean;
      hide WheelIndex, NotBefore, NotAfter, HashOk;
      var k := Key(source, id);
      HomesInsert(hashHome, wheelHome, keys[..], seenMs[..], active[..], index, k, now);
      IndexedInsert(keys[..], active[..], slotOf, index, k);
      StoredIffClean(source);
      NotBeforeInsert(seenMs[..], active[..], lastBucket, index, now);
      Fill(index, source, id, now);
      LinkHash(index, k);
      LinkWheel(index, now);
    }

    /** The hash half of an insertion. */
    method LinkHash(index: int, k: Key)
      requires Shape() && Hash().Sound(FREE + 1) && 0 <= index < SLOTS && |hashHome| == SLOTS && hashHome[index] == -1
      modifies `hashChains, `hashHome, `slotOf, nextHash, hashBuckets
      ensures Hash().Sound(FREE + 1) && |hashHome| == SLOTS && hashHome[index] == SeenBucket(k)
      ensures slotOf == old(slotOf)[k := index]
      ensures (&& HomeByKey(old(hashHome)[index := SeenBucket(k)], keys[..], active[..])
               && Indexed(keys[..], active[..], slotOf) && |slotOf| + |old(hashChains[FREE])| == SLOTS) ==> HashOk()
    {
      hide SeenBucket, SeenHash, HashText, Mix, Lists.Sound, Indexed, HomeByKey;
      PushOnHash(index, SeenBucket(k));
      slotOf := slotOf[k := index];
    }

    /** The wheel half. */
    method LinkWheel(index: int, now: uint32)
      requires Shape() && Wheel().Sound(WHEEL) && 0 <= index < SLOTS && |wheelHome| == SLOTS && wheelHome[index] == -1
      requires HomeByTime(wheelHome[index := WheelIndex(now)], seenMs[..], active[..])
      modifies `wheelChains, `wheelHome, nextExpiry, expiryWheel
      ensures WheelOk()
    {
      hide Lists.Sound, HomeByTime, WheelIndex;
      PushOnWheel(index, WheelIndex(now));
    }

    /** Has this packet been seen in the last minute? */
    method PacketSeen(source: Text, id: uint32, now: uint32) returns (seen: bool)
      requires Valid() && clock <= now
      modifies `clock, `lastBucket, `freeHead, `hashChains, `hashHome, `slotOf, `wheelChains, `wheelHome
      modifies nextHash, hashBuckets, active, nextExpiry, expiryWheel
      ensures Valid() && clock == now
      ensures View() == Live(old(View()), now)
      ensures seen <==> Key(source, id) in View()
    {
      Expire(now);
      seen := Lookup(Key(source, id));
    }

    /** Remembers a packet, unless it is remembered already or all 256 slots are live. `slot` is the slot it
        takes, or -1. With a clean name the table is the plain map with the key remembered. */
    method RememberPacket(source: Text, id: uint32, now: uint32) returns (ghost slot: int)
      requires Valid() && clock <= now
      modifies `clock, `lastBucket, `freeHead, `hashChains, `hashHome, `slotOf, `wheelChains, `wheelHome
      modifies keys, seenMs, nextHash, hashBuckets, active, nextExpiry, expiryWheel
      ensures clock == now
      ensures var live := Live(old(View()), now);
        slot == -1 <==> Key(source, id) in live || |live| >= SLOTS
      ensures slot == -1 ==> Valid() && View() == Live(old(View()), now)
      ensures slot != -1 ==> Stored(slot, source, id)
      ensures forall j :: 0 <= j < SLOTS && j != slot && active[j] ==> old(active[j]) && keys[j] == old(keys[j])
      ensures Clean(source) ==> Valid() && View() == Remembered(old(View()), Key(source, id), now)
    {
      hide SeenBucket, SeenHash, HashText, Mix, HashOk, WheelOk, Timely, MapOf, Live, Clean, Stored;
      slot := -1;
      Expire(now);
      var found := Lookup(Key(source, id));
      MappedIffSlotted(Key(source, id));
      if found {
        return;
      }
      slot := StoreNew(source, id, now);
    }

    lemma MappedIffSlotted(k: Key)
      requires Valid()
      ensures k in View() <==> k in slotOf
      ensures k !in slotOf ==> |View()| == |slotOf| <= SLOTS
    {
      hide SeenBucket, Lists.Sound, HomeByKey, HomeByTime, MapOf;
      TimesNatural();
      if k !in slotOf {
        MapOfInsert(keys[..], seenMs[..], active[..], slotOf, 0, k, 0);
      }
    }

    /** The end of remember_packet, for a packet that is not remembered. */
    method StoreNew(source: Text, id: uint32, now: uint32) returns (ghost slot: int)
      requires Valid() && clock == now && Key(source, id) !in slotOf
      modifies `freeHead, `hashChains, `hashHome, `slotOf, `wheelChains, `wheelHome
      modifies keys, seenMs, nextHash, hashBuckets, active, nextExpiry, expiryWheel
      ensures clock == now && (slot == -1 <==> |old(View())| >= SLOTS)
      ensures slot == -1 ==> Valid() && View() == old(View())
      ensures slot != -1 ==> Stored(slot, source, id)
      ensures forall j :: 0 <= j < SLOTS && j != slot && active[j] ==> old(active[j]) && keys[j] == old(keys[j])
      ensures Clean(source) && slot != -1 ==> Valid() && View() == old(View())[Key(source, id) := now]
    {
      hide SeenBucket, SeenHash, HashText, Mix, Lists.Sound, HomeByKey, HomeByTime, Indexed, MapOf, Timely, Clean;
      MappedIffSlotted(Key(source, id));
      TimesNatural();
      ghost var seen := seenMs[..];
      var index := AllocEntry();
      slot := index;
      if index == -1 {
        return;
      }
      MapOfInsert(keys[..], seen, active[..], slotOf, index, Key(source, id), now);
      InsertEntry(index, source, id, now);
    }
  }

  lemma FreeChain()
    ensures Chain(FreeThread(), 0, AllSlots())
  {
    hide AllSlots, FreeThread;
  }

  lemma EmptyChain(links: seq<int>)
    ensures Chain(links, -1, [])
  {
  }

  lemma AllFree(h: Lists)
    requires h == Lists(FreeThread(), Repeat(-1, BUCKETS) + [0], Repeat([], BUCKETS) + [AllSlots()],
        Repeat(FREE, SLOTS))
    ensures h.Sound(FREE + 1)
  {
    hide Repeat, AllSlots, FreeThread, Chain;
    var all := AllSlots();
    assert h.chains[FREE] == all && h.heads[FREE] == 0;
    FreeChain();
    forall c | 0 <= c < BUCKETS
      ensures h.chains[c] == [] && h.heads[c] == -1 && Chain(h.links, h.heads[c], h.chains[c])
    {
      assert h.chains[c] == Repeat<seq<int>>([], BUCKETS)[c];
      assert h.heads[c] == Repeat(-1, BUCKETS)[c];
      EmptyChain(h.links);
    }
    forall j | 0 <= j < SLOTS
      ensures j in h.chains[h.home[j]]
    {
      assert all[j] == j;
    }
  }

  lemma AllIdle(wheel: Lists, hashHome: seq<int>, keys: seq<Key>, seen: seq<int>, active: seq<bool>, last: int,
      now: int)
    requires |wheel.links| == |keys| == SLOTS && hashHome == Repeat(FREE, SLOTS)
    requires wheel.heads == Repeat(-1, WHEEL) && wheel.chains == Repeat([], WHEEL)
    requires wheel.home == Repeat(-1, SLOTS)
    requires seen == Repeat(0, SLOTS) && active == Repeat(false, SLOTS)
    ensures wheel.Sound(WHEEL) && HomeByTime(wheel.home, seen, active) && HomeByKey(hashHome, keys, active)
    ensures Indexed(keys, active, map[]) && NotBefore(seen, active, last) && NotAfter(seen, active, now)
    ensures MapOf(map[], seen) == map[]
  {
    hide SeenBucket, SeenHash, HashText;
  }

  lemma NotBeforeInsert(seen: seq<int>, active: seq<bool>, last: int, index: nat, now: nat)
    requires NotBefore(seen, active, last) && NotAfter(seen, active, now)
    requires index < SLOTS && (last == 0 || (last - 1) * TICK + TTL <= now)
    ensures NotBefore(seen[index := now], active[index := true], last)
    ensures NotAfter(seen[index := now], active[index := true], now)
  {
  }

  lemma FreeListHead(h: Lists)
    requires h.Sound(FREE + 1)
    ensures h.heads[FREE] == -1 <==> h.chains[FREE] == []
    ensures h.heads[FREE] != -1 ==>
              0 <= h.heads[FREE] < SLOTS && h.home[h.heads[FREE]] == FREE && h.chains[FREE][0] == h.heads[FREE]
  {
    assert Chain(h.links, h.heads[FREE], h.chains[FREE]);
  }
}
