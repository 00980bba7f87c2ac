/** One sync exchange from end to end: request, selection, batches, and what the requester decodes. */
module SyncExchange {
  import opened CText
  import opened MessageStore
  import opened SyncBatch
  import opened SyncCursors
  import opened SyncFrames
  import opened V2Packet

  /** The part of a stored message that a response carries. */
  function Carried(m: Message): SyncRecord {
    SyncRecord(m.id, m.source, m.destination, m.kind, m.priority, m.hops, m.payload)
  }

  /** Records for the messages of a reply, one for one. */
  ghost predicate Carries(rs: seq<Stored>, reply: Snapshot) {
    |rs| == |reply| && forall i :: 0 <= i < |rs| ==> rs[i] == Carried(reply[i])
  }

  ghost predicate Has(rs: seq<SyncRecord>, r: SyncRecord) {
    exists i :: 0 <= i < |rs| && rs[i] == r
  }

  /** The record is about the message, field by field. */
  predicate Same(m: Message, r: SyncRecord) {
    && r.id == m.id && r.source == m.source && r.destination == m.destination && r.kind == m.kind
    && r.priority == m.priority && r.hops == m.hops && r.payload == m.payload
  }

  /** Does the peer hold a message with this record that the requester may see and did not list? */
  ghost predicate Offers(mine: Snapshot, listed: seq<Text>, theirs: Snapshot, requester: Text, r: SyncRecord) {
    exists m :: Contains(theirs, m) && Same(m, r) && Visible(m, requester)
                && m.id > if Occurs(listed, m.source) then MaxId(mine, m.source) else 0
  }

  ghost predicate Held(rs: seq<Stored>, cut: (nat, nat), r: SyncRecord) {
    exists i :: cut.0 <= i < cut.1 <= |rs| && rs[i] == r
  }

  /** Is the frame of this batch built? */
  predicate BatchSent(rs: seq<Stored>, cut: (nat, nat), peer: Text, me: Text) {
    cut.0 <= cut.1 <= |rs| && GoesOut(peer, me, BodySize(rs[cut.0..cut.1]))
  }

  ghost predicate Labelled(rs: seq<Stored>) {
    forall i :: 0 <= i < |rs| ==> |rs[i].kind| >= 3 && |rs[i].priority| >= 3
  }

  /** Batches that are not empty and fit a body and the receiver's array. */
  ghost predicate Bodies(rs: seq<Stored>, cuts: seq<(nat, nat)>) {
    forall k :: 0 <= k < |cuts| ==> Body(rs, cuts[k])
  }

  ghost predicate Body(rs: seq<Stored>, cut: (nat, nat)) {
    cut.0 < cut.1 <= |rs| && cut.1 - cut.0 <= 7 && BodySize(rs[cut.0..cut.1]) <= BODY_MAX
  }

  /** The body of a batch, and what the requester decodes of the frame that carries it, if it is sent. */
  ghost function DecodedFrame(rs: seq<Stored>, cut: (nat, nat), peer: Text, me: Text, id: uint32): seq<SyncRecord>
    requires AllClear(rs) && Body(rs, cut)
  {
    var batch := rs[cut.0..cut.1];
    DecodeBatch(Heard(Response(peer, me, id, [|batch|] + EncodeRecords(batch))), 8)
  }

  /** What the requester decodes of all the frames, one after the other. */
  ghost function Arrived(rs: seq<Stored>, cuts: seq<(nat, nat)>, peer: Text, me: Text,
      ids: nat -> uint32): seq<SyncRecord>
    requires AllClear(rs) && Bodies(rs, cuts)
    decreases |cuts|
  {
    if cuts == [] then []
    else
      var n := |cuts| - 1;
      Arrived(rs, cuts[..n], peer, me, ids) + DecodedFrame(rs, cuts[n], peer, me, ids(n))
  }

  lemma FrameDecodes(rs: seq<Stored>, cut: (nat, nat), peer: Text, me: Text, id: uint32)
    requires AllClear(rs) && Body(rs, cut) && NodeName(peer) && NodeName(me)
    ensures DecodedFrame(rs, cut, peer, me, id) == if BatchSent(rs, cut, peer, me) then rs[cut.0..cut.1] else []
  {
    hide Clear, Encodable, EncodeRecords, BodySize, DecodeBatch, Heard, GoesOut;
    var batch := rs[cut.0..cut.1];
    ClearSpan(rs, cut.0, cut.1);
    var body := [|batch|] + EncodeRecords(batch);
    HeardIff(peer, me, SYNC_RESP, 3, id, body);
    BatchRoundTrip(batch, 8);
    NothingDecoded();
  }

  lemma NothingDecoded()
    ensures DecodeBatch([], 8) == []
  {
  }

  lemma HasJoin(a: seq<SyncRecord>, b: seq<SyncRecord>, r: SyncRecord)
    ensures Has(a + b, r) <==> Has(a, r) || Has(b, r)
  {
    if Has(a, r) {
      var i :| 0 <= i < |a| && a[i] == r;
      assert (a + b)[i] == r;
    }
    if Has(b, r) {
      var i :| 0 <= i < |b| && b[i] == r;
      assert (a + b)[|a| + i] == r;
    }
  }

  lemma HeldIsHad(rs: seq<Stored>, cut: (nat, nat), r: SyncRecord)
    requires cut.0 <= cut.1 <= |rs|
    ensures Has(rs[cut.0..cut.1], r) <==> Held(rs, cut, r)
  {
    if Held(rs, cut, r) {
      var i :| cut.0 <= i < cut.1 <= |rs| && rs[i] == r;
      assert rs[cut.0..cut.1][i - cut.0] == r;
    }
  }

  /** A batch that holds the record and is sent. */
  ghost predicate SentIn(rs: seq<Stored>, cuts: seq<(nat, nat)>, peer: Text, me: Text, r: SyncRecord) {
    exists k :: 0 <= k < |cuts| && Held(rs, cuts[k], r) && BatchSent(rs, cuts[k], peer, me)
  }

  /** A record arrives exactly when a batch that holds it is sent. */
  lemma {:induction false} ArrivedIff(rs: seq<Stored>, cuts: seq<(nat, nat)>, peer: Text, me: Text, ids: nat -> uint32,
      r: SyncRecord)
    requires AllClear(rs) && Bodies(rs, cuts) && NodeName(peer) && NodeName(me)
    ensures Has(Arrived(rs, cuts, peer, me, ids), r) <==> SentIn(rs, cuts, peer, me, r)
    decreases |cuts|
  {
    hide AllClear, DecodedFrame, BatchSent, Held, Has;
    if cuts == [] {
      assert !Has([], r) by { NothingHad(r); }
    } else {
      var n := |cuts| - 1;
      ArrivedIff(rs, cuts[..n], peer, me, ids, r);
      FrameDecodes(rs, cuts[n], peer, me, ids(n));
      HasJoin(Arrived(rs, cuts[..n], peer, me, ids), DecodedFrame(rs, cuts[n], peer, me, ids(n)), r);
      HeldIsHad(rs, cuts[n], r);
      NothingHad(r);
      SentInMore(rs, cuts, peer, me, r);
    }
  }

  lemma NothingHad(r: SyncRecord)
    ensures !Has([], r)
  {
  }

  lemma SentInMore(rs: seq<Stored>, cuts: seq<(nat, nat)>, peer: Text, me: Text, r: SyncRecord)
    requires cuts != []
    ensures var n := |cuts| - 1;
      SentIn(rs, cuts, peer, me, r) <==>
      SentIn(rs, cuts[..n], peer, me, r) || (Held(rs, cuts[n], r) && BatchSent(rs, cuts[n], peer, me))
  {
    hide Held, BatchSent;
    var n := |cuts| - 1;
    if SentIn(rs, cuts[..n], peer, me, r) {
      var k :| 0 <= k < n && Held(rs, cuts[..n][k], r) && BatchSent(rs, cuts[..n][k], peer, me);
      assert Held(rs, cuts[k], r);
    }
  }

  lemma GreedyBodies(rs: seq<Stored>, cuts: seq<(nat, nat)>)
    requires AllClear(rs) && Labelled(rs) && GreedyCuts(rs, cuts, |rs|)
    ensures Bodies(rs, cuts)
  {
    hide AllClear, BodySize, FitsAlone;
    forall k | 0 <= k < |cuts|
      ensures Body(rs, cuts[k])
    {
      ClearSpan(rs, cuts[k].0, cuts[k].1);
      LabelledBatchFits(rs[cuts[k].0..cuts[k].1]);
    }
  }

  /** The batches together hold what fits alone. */
  lemma HeldSomewhere(rs: seq<Stored>, cuts: seq<(nat, nat)>, r: Stored)
    requires GreedyCuts(rs, cuts, |rs|)
    ensures Has(rs, r) && FitsAlone(r) <==> exists k :: 0 <= k < |cuts| && Held(rs, cuts[k], r)
  {
    hide BodySize, FitsAlone;
    if Has(rs, r) && FitsAlone(r) {
      var i :| 0 <= i < |rs| && rs[i] == r;
      assert Covered(cuts, i);
      var k :| 0 <= k < |cuts| && cuts[k].0 <= i < cuts[k].1;
      assert Held(rs, cuts[k], r);
    }
    if k :| 0 <= k < |cuts| && Held(rs, cuts[k], r) {
      var i :| cuts[k].0 <= i < cuts[k].1 <= |rs| && rs[i] == r;
      assert Covered(cuts, i);
    }
  }

  /** A record of the reply is one that the peer offers. */
  lemma OffersIff(mine: Snapshot, listed: seq<Text>, theirs: Snapshot, me: Text, rs: seq<Stored>, r: SyncRecord)
    requires Lists(mine, listed) && AllNameable(listed) && |listed| <= 255
    requires Carries(rs, Reply(theirs, [|listed|] + Cursors(mine, listed), me))
    ensures Has(rs, r) <==> Offers(mine, listed, theirs, me, r)
  {
    hide Lists, AllNameable, Reply, Cursors, Visible, MaxId, Contains, Occurs;
    var reply := Reply(theirs, [|listed|] + Cursors(mine, listed), me);
    if Has(rs, r) {
      var i :| 0 <= i < |rs| && rs[i] == r;
      AtIsContained(reply, i);
      ExchangeExact(mine, listed, theirs, me, reply[i]);
    }
    if Offers(mine, listed, theirs, me, r) {
      var m :| Contains(theirs, m) && Same(m, r) && Visible(m, me)
               && m.id > if Occurs(listed, m.source) then MaxId(mine, m.source) else 0;
      ExchangeExact(mine, listed, theirs, me, m);
      var i := ContainedAt(reply, m);
      assert rs[i] == r;
    }
  }

  /** One exchange over the air. The request is heard as it was built, exactly when it is short enough, and
      otherwise not at all. If it is, a record arrives exactly when a batch that holds it is sent, and only
      records arrive that the peer offers and that fit a body. When all batches are sent, all of those do. */
  lemma SyncDelivers(mine: Snapshot, listed: seq<Text>, theirs: Snapshot, me: Text, peer: Text, request: uint32,
      ids: nat -> uint32,
                     rs: seq<Stored>, cuts: seq<(nat, nat)>, r: Stored)
    requires Lists(mine, listed) && AllNameable(listed) && |listed| <= 255 && NodeName(me) && NodeName(peer)
    requires Carries(rs, Reply(theirs, [|listed|] + Cursors(mine, listed), me))
    requires AllClear(rs) && Labelled(rs) && GreedyCuts(rs, cuts, |rs|)
    ensures var payload := [|listed|] + Cursors(mine, listed);
      Heard(Request(me, request, payload)) == if GoesOut(me, ALL, |payload|) then payload else []
    ensures Bodies(rs, cuts)
    ensures Has(Arrived(rs, cuts, peer, me, ids), r) <==> SentIn(rs, cuts, peer, me, r)
    ensures SentIn(rs, cuts, peer, me, r) ==> Offers(mine, listed, theirs, me, r) && FitsAlone(r)
    ensures (forall k :: 0 <= k < |cuts| ==> BatchSent(rs, cuts[k], peer, me)) ==>
              (SentIn(rs, cuts, peer, me, r) <==> Offers(mine, listed, theirs, me, r) && FitsAlone(r))
  {
    hide AllNameable, Firsts, Reply, Cursors, CursorsSize, AllClear, GreedyCuts, Arrived, FitsAlone, Offers;
    hide BatchSent, Held, Heard, GoesOut, Bodies;
    AllIsName();
    HeardIff(me, ALL, SYNC_REQ, 1, request, [|listed|] + Cursors(mine, listed));
    GreedyBodies(rs, cuts);
    ArrivedIff(rs, cuts, peer, me, ids, r);
    OffersIff(mine, listed, theirs, me, rs, r);
    HeldSomewhere(rs, cuts, r);
  }

  lemma AllIsName()
    ensures NodeName(ALL)
  {
  }

  /** Short names leave one case: a body of exactly 140 bytes is lost, and any other batch is sent. */
  lemma ShortNamesLoseFullBodies(rs: seq<Stored>, cut: (nat, nat), peer: Text, me: Text)
    requires Body(rs, cut) && 2 * |peer| + |me| <= 73
    ensures BatchSent(rs, cut, peer, me) <==> BodySize(rs[cut.0..cut.1]) != BODY_MAX
  {
    hide BodySize;
  }

  /** A record of 139 bytes fits alone, is cut as a batch, and never arrives, between any two nodes. */
  lemma FullBodyLost(peer: Text, me: Text, ids: nat -> uint32) returns (r: Stored)
    requires NodeName(peer) && NodeName(me)
    ensures FitsAlone(r) && Size(r) == 139 && AllClear([r]) && Labelled([r])
    ensures forall cuts :: GreedyCuts([r], cuts, 1) ==> cuts == [(0, 1)]
    ensures Bodies([r], [(0, 1)]) && Arrived([r], [(0, 1)], peer, me, ids) == []
  {
    hide GreedyCuts, BodySize, Arrived, Has, BatchSent;
    var payload: Text := seq(102, _ => 65);
    r := SyncRecord(1, NAME8, NAME8, [70, 76, 79, 79, 68], [78, 79, 82, 77, 65, 76], 0, payload);
    SameSizes([r], 139);
    forall cuts | GreedyCuts([r], cuts, 1)
      ensures cuts == [(0, 1)]
    {
      OneBatch([r], cuts);
    }
    assert [r][0..1] == [r];
    assert Body([r], (0, 1));
    OneFrame([r], peer, me, ids);
    FrameDecodes([r], (0, 1), peer, me, ids(0));
    assert !BatchSent([r], (0, 1), peer, me) by { FullNotSent([r], peer, me); }
  }

  const NAME8: Text := [78, 79, 68, 69, 45, 48, 48, 49]

  lemma FullNotSent(rs: seq<Stored>, peer: Text, me: Text)
    requires |rs| == 1 && BodySize(rs) == BODY_MAX
    ensures !BatchSent(rs, (0, 1), peer, me)
  {
    assert rs[0..1] == rs;
  }

  lemma OneFrame(rs: seq<Stored>, peer: Text, me: Text, ids: nat -> uint32)
    requires AllClear(rs) && Body(rs, (0, 1))
    ensures Bodies(rs, [(0, 1)]) && Arrived(rs, [(0, 1)], peer, me, ids) == DecodedFrame(rs, (0, 1), peer, me, ids(0))
  {
    hide DecodedFrame, AllClear;
    var cuts: seq<(nat, nat)> := [(0, 1)];
    assert cuts[..0] == [] && Arrived(rs, cuts[..0], peer, me, ids) == [];
  }

  function Entry(source: Text): Message {
    BLANK.(direction := RX, source := source)
  }

  function Letters(c: byte, n: nat): Text {
    seq(n, _ => c)
  }

  /** A store with four sources can fill the request to its 140 bytes, and then no one hears it. */
  lemma FullRequestLost(me: Text, id: uint32) returns (snap: Snapshot, listed: seq<Text>)
    requires NodeName(me)
    ensures Lists(snap, listed) && AllNameable(listed) && |listed| == 4
    ensures Heard(Request(me, id, [4] + Cursors(snap, listed))) == []
  {
    hide Heard, Cursors, MaxId, Letters, Clean;
    var a, b, c, d := Letters(65, 31), Letters(66, 31), Letters(67, 31), Letters(68, 26);
    LettersParts();
    snap := [Entry(a), Entry(b), Entry(c), Entry(d)];
    listed := [a, b, c, d];
    FourFirsts(snap, a, b, c, d);
    FourSizes(listed);
    assert listed[..4] == listed;
    AllIsName();
    var payload := [4] + Cursors(snap, listed);
    HeardIff(me, ALL, SYNC_REQ, 1, id, payload);
  }

  lemma LettersParts()
    ensures forall x: byte, n: nat :: |Letters(x, n)| == n && (n > 0 ==> Letters(x, n)[0] == x)
  {
  }

  lemma FourFirsts(snap: Snapshot, a: Text, b: Text, c: Text, d: Text)
    requires snap == [Entry(a), Entry(b), Entry(c), Entry(d)]
    requires Nameable(a) && Nameable(b) && Nameable(c) && Nameable(d) && Distinct([a, b, c, d])
    ensures Firsts(snap) == [a, b, c, d]
  {
    hide Firsts, Nameable;
    var names := [a, b, c, d];
    assert a == names[0] && b == names[1] && c == names[2] && d == names[3];
    NothingListed(snap);
    OneMoreFirst(snap, 0);
    OneMoreFirst(snap, 1);
    OneMoreFirst(snap, 2);
    OneMoreFirst(snap, 3);
    assert snap[..4] == snap;
    assert !Holds(snap[..0], a) && !Holds(snap[..1], b) && !Holds(snap[..2], c) && !Holds(snap[..3], d);
  }

  lemma FourSizes(names: seq<Text>)
    requires |names| == 4 && |names[0]| == 31 && |names[1]| == 31 && |names[2]| == 31 && |names[3]| == 26
    ensures CursorsSize(names) == PAYLOAD_LEN
  {
    assert names[..3][..2] == names[..2] && names[..2][..1] == names[..1] && names[..1][..0] == [];
    assert CursorsSize(names[..1]) == 37;
    assert CursorsSize(names[..2]) == 73;
    assert CursorsSize(names[..3]) == 109;
  }

  lemma AtIsContained(snap: Snapshot, i: nat)
    requires i < |snap|
    ensures Contains(snap, snap[i])
  {
  }

  lemma ContainedAt(snap: Snapshot, m: Message) returns (i: nat)
    requires Contains(snap, m)
    ensures i < |snap| && snap[i] == m
  {
    i :| 0 <= i < |snap| && snap[i] == m;
  }
}
