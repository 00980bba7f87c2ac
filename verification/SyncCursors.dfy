/** SYNC_REQ cursors: what a node says it has, and what a peer then sends it. */
module SyncCursors {
  import opened CText
  import opened V2Packet
  import opened V2Codec
  import opened MessageStore

  const CURSORS_MAX := 8

  type Snapshot = seq<Message>

  // The meaning of a request

  ghost predicate Holds(snap: Snapshot, source: Text) {
    exists i :: 0 <= i < |snap| && snap[i].source == source
  }

  /** The largest id stored for a source, 0 when there is none. */
  function MaxId(snap: Snapshot, source: Text): uint32 {
    if snap == [] then 0
    else
      var n := |snap| - 1;
      var m := MaxId(snap[..n], source);
      if snap[n].source == source && snap[n].id > m then snap[n].id else m
  }

  predicate Nameable(source: Text) {
    1 <= |source| <= NAME_MAX
  }

  /** The sources that can be listed, each once, in the order of their first records. */
  ghost function Firsts(snap: Snapshot): seq<Text> {
    if snap == [] then []
    else
      var n := |snap| - 1;
      var source := snap[n].source;
      Firsts(snap[..n]) + if Nameable(source) && !Holds(snap[..n], source) then [source] else []
  }

  function CursorsSize(sources: seq<Text>): nat {
    if sources == [] then 1 else CursorsSize(sources[..|sources| - 1]) + 5 + |sources[|sources| - 1]|
  }

  predicate AllNameable(sources: seq<Text>) {
    forall k :: 0 <= k < |sources| ==> Nameable(sources[k])
  }

  function Cursor(snap: Snapshot, source: Text): seq<byte>
    requires Nameable(source)
  {
    Field(source) + WordBytes(MaxId(snap, source))
  }

  function Cursors(snap: Snapshot, sources: seq<Text>): (b: seq<byte>)
    requires AllNameable(sources)
    ensures |b| + 1 == CursorsSize(sources)
  {
    if sources == [] then []
    else Cursors(snap, sources[..|sources| - 1]) + Cursor(snap, sources[|sources| - 1])
  }

  /** The listed sources are the first ones, as many as eight cursors and the payload allow. */
  ghost predicate Lists(snap: Snapshot, listed: seq<Text>) {
    var firsts := Firsts(snap);
    && |listed| <= |firsts| && |listed| <= 8 && listed == firsts[..|listed|] && CursorsSize(listed) <= 140
    && (|listed| < |firsts| && |listed| < 8 ==> CursorsSize(firsts[..|listed| + 1]) > 140)
  }

  ghost predicate IsRequest(snap: Snapshot, payload: seq<byte>) {
    exists listed :: AllNameable(listed) && Lists(snap, listed) && |listed| <= 255
        && payload == [|listed|] + Cursors(snap, listed)
  }

  // MaxId and Firsts are what they are called

  lemma {:induction false} MaxIdIsMax(snap: Snapshot, source: Text)
    ensures forall i :: 0 <= i < |snap| && snap[i].source == source ==> snap[i].id <= MaxId(snap, source)
    ensures Holds(snap, source) ==> exists i ::
        0 <= i < |snap| && snap[i].source == source && snap[i].id == MaxId(snap, source)
    ensures !Holds(snap, source) ==> MaxId(snap, source) == 0
  {
    if snap != [] {
      var n := |snap| - 1;
      MaxIdIsMax(snap[..n], source);
      HoldsMore(snap[..n], snap[n], source);
      assert snap == snap[..n] + [snap[n]];
      if snap[n].source != source && Holds(snap[..n], source) {
        var i :| 0 <= i < n && snap[..n][i].source == source && snap[..n][i].id == MaxId(snap[..n], source);
        assert snap[i].id == MaxId(snap, source);
      }
    }
  }

  lemma HoldsMore(snap: Snapshot, m: Message, source: Text)
    ensures Holds(snap + [m], source) <==> Holds(snap, source) || m.source == source
  {
    if Holds(snap, source) {
      var i :| 0 <= i < |snap| && snap[i].source == source;
      assert (snap + [m])[i].source == source;
    }
    if m.source == source {
      assert (snap + [m])[|snap|].source == source;
    }
  }

  ghost predicate Occurs(sources: seq<Text>, source: Text) {
    exists k :: 0 <= k < |sources| && sources[k] == source
  }

  predicate Distinct(sources: seq<Text>) {
    forall j, k :: 0 <= j < k < |sources| ==> sources[j] != sources[k]
  }

  lemma {:induction false} FirstsAreSources(snap: Snapshot)
    ensures AllNameable(Firsts(snap)) && Distinct(Firsts(snap))
    ensures forall source :: Occurs(Firsts(snap), source) <==> Nameable(source) && Holds(snap, source)
  {
    if snap != [] {
      var n := |snap| - 1;
      var last := snap[n].source;
      FirstsAreSources(snap[..n]);
      assert snap == snap[..n] + [snap[n]];
      forall source
        ensures Occurs(Firsts(snap), source) <==> Nameable(source) && Holds(snap, source)
      {
        HoldsMore(snap[..n], snap[n], source);
        OccursMore(Firsts(snap[..n]), last, source);
        assert Firsts(snap[..n]) + [] == Firsts(snap[..n]);
      }
      if Nameable(last) && !Holds(snap[..n], last) {
        assert !Occurs(Firsts(snap[..n]), last);
      }
    }
  }

  lemma OccursMore(sources: seq<Text>, last: Text, source: Text)
    ensures Occurs(sources + [last], source) <==> Occurs(sources, source) || last == source
  {
    if Occurs(sources, source) {
      var k :| 0 <= k < |sources| && sources[k] == source;
      assert (sources + [last])[k] == source;
    }
    if last == source {
      assert (sources + [last])[|sources|] == source;
    }
  }

  // Building the request

  method SeenBefore(snap: Snapshot, i: nat) returns (seen: bool)
    requires i < |snap|
    ensures seen <==> Holds(snap[..i], snap[i].source)
  {
    for prior := 0 to i
      invariant forall j :: 0 <= j < prior ==> snap[..i][j].source != snap[i].source
    {
      if snap[prior].source == snap[i].source {
        assert snap[..i][prior].source == snap[i].source;
        return true;
      }
    }
    return false;
  }

  /** The scan for the largest id starts at the first record of the source. */
  method LargestId(snap: Snapshot, i: nat) returns (id: uint32)
    requires i < |snap| && !Holds(snap[..i], snap[i].source)
    ensures id == MaxId(snap, snap[i].source)
  {
    var source := snap[i].source;
    id := snap[i].id;
    MaxIdIsMax(snap[..i], source);
    assert snap[..i + 1][..i] == snap[..i];
    for candidate := i + 1 to |snap|
      invariant id == MaxId(snap[..candidate], source)
    {
      assert snap[..candidate + 1][..candidate] == snap[..candidate];
      if snap[candidate].source == source && snap[candidate].id > id {
        id := snap[candidate].id;
      }
    }
    assert snap[..|snap|] == snap;
  }

  /** The cursors of mesh_control_send_sync_request, in a buffer of 140 bytes. */
  method BuildRequest(snap: Snapshot) returns (payload: seq<byte>, ghost listed: seq<Text>)
    ensures Lists(snap, listed) && AllNameable(listed) && |listed| <= 255
    ensures payload == [|listed|] + Cursors(snap, listed)
    ensures IsRequest(snap, payload)
  {
    hide CursorsSize, Cursors, Cursor, Firsts, Holds, MaxId, WordBytes, Field, Lists, AllNameable, IsRequest;
    var buffer := new byte[PAYLOAD_LEN];
    var offset, count, i := 1, 0, 0;
    buffer[0] := 0;
    listed := [];
    NothingListed(snap);
    while i < |snap| && count < CURSORS_MAX
      invariant i <= |snap| && |listed| == count <= CURSORS_MAX && listed == Firsts(snap[..i]) && AllNameable(listed)
      invariant offset == CursorsSize(listed) <= buffer.Length == PAYLOAD_LEN
          && buffer[..offset] == [0] + Cursors(snap, listed)
    {
      var source := snap[i].source;
      var seen := SeenBefore(snap, i);
      OneMoreFirst(snap, i);
      if seen || |source| == 0 || |source| > NAME_MAX {
        i := i + 1;
        continue;
      }
      var id := LargestId(snap, i);
      OneMoreCursor(snap, listed, source);
      if offset + 1 + |source| + 4 > PAYLOAD_LEN {
        StopsWhenFull(snap, i);
        break;
      }
      PutCursor(buffer, offset, snap, source, id);
      offset := offset + 5 + |source|;
      assert [0] + Cursors(snap, listed) + Cursor(snap, source) == [0] + Cursors(snap, listed + [source]);
      listed := listed + [source];
      count, i := count + 1, i + 1;
    }
    StopsAtEnd(snap, i);
    buffer[0] := count;
    payload := buffer[..offset];
    ARequest(snap, listed);
  }

  lemma ARequest(snap: Snapshot, listed: seq<Text>)
    requires AllNameable(listed) && Lists(snap, listed) && |listed| <= 255
    ensures IsRequest(snap, [|listed|] + Cursors(snap, listed))
  {
  }

  method PutBytes(buffer: array<byte>, offset: nat, data: seq<byte>)
    requires offset + |data| <= buffer.Length
    modifies buffer
    ensures buffer[..offset + |data|] == old(buffer[..offset]) + data
  {
    for i := 0 to |data|
      invariant buffer[..offset + i] == old(buffer[..offset]) + data[..i]
    {
      buffer[offset + i] := data[i];
    }
  }

  /** A length, the source and its largest id. */
  method PutCursor(buffer: array<byte>, offset: nat, ghost snap: Snapshot, source: Text, id: uint32)
    requires Nameable(source) && offset + 5 + |source| <= buffer.Length && id == MaxId(snap, source)
    modifies buffer
    ensures buffer[..offset + 5 + |source|] == old(buffer[..offset]) + Cursor(snap, source)
  {
    hide MaxId, WordBytes;
    PutBytes(buffer, offset, [|source|]);
    PutBytes(buffer, offset + 1, source);
    PutBytes(buffer, offset + 1 + |source|, WordBytes(id));
  }

  lemma StopsAtEnd(snap: Snapshot, i: nat)
    requires i <= |snap| && |Firsts(snap[..i])| <= CURSORS_MAX && CursorsSize(Firsts(snap[..i])) <= PAYLOAD_LEN
    ensures i == |snap| || |Firsts(snap[..i])| == CURSORS_MAX ==> Lists(snap, Firsts(snap[..i]))
  {
    hide Firsts, CursorsSize;
    FirstsPrefix(snap, i);
    assert i == |snap| ==> snap[..i] == snap;
  }

  lemma StopsWhenFull(snap: Snapshot, i: nat)
    requires i < |snap| && |Firsts(snap[..i])| <= CURSORS_MAX && CursorsSize(Firsts(snap[..i])) <= PAYLOAD_LEN
    ensures |Firsts(snap[..i + 1])| == |Firsts(snap[..i])| + 1 && CursorsSize(Firsts(snap[..i + 1])) > PAYLOAD_LEN ==>
        Lists(snap, Firsts(snap[..i]))
  {
    hide Firsts, CursorsSize;
    FirstsPrefix(snap, i);
    FirstsPrefix(snap, i + 1);
  }

  lemma NothingListed(snap: Snapshot)
    ensures Firsts(snap[..0]) == [] && CursorsSize([]) == 1 && AllNameable([]) && Cursors(snap, []) == []
  {
  }

  lemma OneMoreFirst(snap: Snapshot, i: nat)
    requires i < |snap|
    ensures var source := snap[i].source;
      Firsts(snap[..i + 1]) == Firsts(snap[..i]) + if Nameable(source) && !Holds(snap[..i], source) then [source]
          else []
  {
    hide Holds;
    assert snap[..i + 1][..i] == snap[..i];
  }

  lemma OneMoreCursor(snap: Snapshot, listed: seq<Text>, source: Text)
    requires AllNameable(listed) && Nameable(source)
    ensures AllNameable(listed + [source]) && Cursors(snap, listed + [source]) ==
        Cursors(snap, listed) + Cursor(snap, source)
    ensures CursorsSize(listed + [source]) == CursorsSize(listed) + 5 + |source|
    ensures |Cursor(snap, source)| == 5 + |source|
  {
    assert (listed + [source])[..|listed|] == listed;
  }

  lemma {:induction false} FirstsPrefix(snap: Snapshot, i: nat)
    requires i <= |snap|
    ensures |Firsts(snap[..i])| <= |Firsts(snap)| && Firsts(snap[..i]) == Firsts(snap)[..|Firsts(snap[..i])|]
    decreases |snap| - i
  {
    hide Holds;
    if i < |snap| {
      FirstsPrefix(snap, i + 1);
      OneMoreFirst(snap, i);
    } else {
      assert snap[..i] == snap;
    }
  }

  // Looking a source up

  /** sync_cursor_for_source behind the count byte. */
  function Lookup(s: seq<byte>, count: nat, source: Text): uint32
    decreases count
  {
    if count == 0 || s == [] || s[0] == 0 || s[0] as int + 5 > |s| then 0
    else
      var n: int := s[0];
      if s[1..1 + n] == source then Word(s, 1 + n) else Lookup(s[5 + n..], count - 1, source)
  }

  function CursorFor(payload: seq<byte>, source: Text): uint32 {
    if payload == [] then 0 else Lookup(payload[1..], payload[0], source)
  }

  /** sync_cursor_for_source */
  method FindCursor(payload: seq<byte>, source: Text) returns (id: uint32)
    ensures id == CursorFor(payload, source)
  {
    hide Word, Lookup;
    if |payload| < 1 {
      return 0;
    }
    var offset := 1;
    var count := payload[0];
    LookupEnds(source);
    for i := 0 to count
      invariant 1 <= offset <= |payload|
      invariant CursorFor(payload, source) == Lookup(payload[offset..], count - i, source)
    {
      LookupStep(payload, offset, count - i, source);
      if offset >= |payload| {
        return 0;
      }
      var n: int := payload[offset];
      offset := offset + 1;
      if n == 0 || offset + n + 4 > |payload| {
        return 0;
      }
      var matches := |source| == n && payload[offset..offset + n] == source;
      id := Word(payload, offset + n);
      offset := offset + n + 4;
      if matches {
        return id;
      }
    }
    return 0;
  }

  lemma LookupEnds(source: Text)
    ensures forall s: seq<byte> :: Lookup(s, 0, source) == 0
  {
  }

  /** One round of the search, in terms of the offset. */
  lemma LookupStep(payload: seq<byte>, offset: nat, count: nat, source: Text)
    requires offset <= |payload| && count > 0
    ensures Lookup(payload[offset..], count, source) ==
            if offset >= |payload| || payload[offset] == 0 || offset + 1 + payload[offset] + 4 > |payload| then 0
            else var n: int := payload[offset];
                 if payload[offset + 1..offset + 1 + n] == source then Word(payload, offset + 1 + n)
                 else Lookup(payload[offset + 1 + n + 4..], count - 1, source)
  {
    hide Word;
    var s := payload[offset..];
    if offset < |payload| && offset + 1 + payload[offset] + 4 <= |payload| {
      var n: int := payload[offset];
      assert s[1..1 + n] == payload[offset + 1..offset + 1 + n];
      assert s[5 + n..] == payload[offset + 1 + n + 4..];
      WordAt(payload, offset, 1 + n);
    }
  }

  lemma WordAt(s: seq<byte>, a: nat, b: nat)
    requires a + b + 4 <= |s|
    ensures Word(s[a..], b) == Word(s, a + b)
  {
  }

  lemma LookupFirst(snap: Snapshot, source: Text, rest: seq<byte>, count: nat, wanted: Text)
    requires Nameable(source) && count > 0
    ensures Lookup(Cursor(snap, source) + rest, count, wanted) ==
            if source == wanted then MaxId(snap, source) else Lookup(rest, count - 1, wanted)
  {
    hide MaxId, Word, WordBytes;
    var w := WordBytes(MaxId(snap, source));
    var s := Cursor(snap, source) + rest;
    var n := |source|;
    assert s[1..1 + n] == source;
    assert s[5 + n..] == rest;
    WordAt(s, 1 + n, 0);
    assert s[1 + n..] == w + rest;
    TakeWordBack(MaxId(snap, source), rest);
  }

  lemma {:induction false} CursorsFirst(snap: Snapshot, sources: seq<Text>)
    requires AllNameable(sources) && sources != []
    ensures AllNameable(sources[1..]) && Cursors(snap, sources) ==
        Cursor(snap, sources[0]) + Cursors(snap, sources[1..])
    decreases |sources|
  {
    hide Cursor, CursorsSize, Cursors;
    var n := |sources| - 1;
    assert sources == sources[..n] + [sources[n]];
    OneMoreCursor(snap, sources[..n], sources[n]);
    NothingListed(snap);
    if n == 0 {
      assert sources[..0] == [] && sources[1..] == [];
    } else {
      CursorsFirst(snap, sources[..n]);
      var middle := sources[1..n];
      assert sources[..n][1..] == middle && sources[1..] == middle + [sources[n]];
      OneMoreCursor(snap, middle, sources[n]);
    }
  }

  lemma {:induction false} LookupListed(snap: Snapshot, sources: seq<Text>, wanted: Text)
    requires AllNameable(sources)
    ensures Lookup(Cursors(snap, sources), |sources|, wanted) == if Occurs(sources, wanted) then MaxId(snap, wanted)
        else 0
    decreases |sources|
  {
    hide MaxId, Cursor, Cursors, Lookup;
    if sources == [] {
      LookupEnds(wanted);
    } else {
      CursorsFirst(snap, sources);
      LookupFirst(snap, sources[0], Cursors(snap, sources[1..]), |sources|, wanted);
      LookupListed(snap, sources[1..], wanted);
      OccursFirst(sources, wanted);
    }
  }

  lemma OccursFirst(sources: seq<Text>, wanted: Text)
    requires sources != []
    ensures Occurs(sources, wanted) <==> sources[0] == wanted || Occurs(sources[1..], wanted)
  {
    if Occurs(sources[1..], wanted) {
      var k :| 0 <= k < |sources| - 1 && sources[1..][k] == wanted;
      assert sources[k + 1] == wanted;
    }
    if Occurs(sources, wanted) && sources[0] != wanted {
      var k :| 0 <= k < |sources| && sources[k] == wanted;
      assert sources[1..][k - 1] == wanted;
    }
  }

  /** What a peer reads out of a built request: the largest id of a listed source, 0 for any other. */
  lemma RequestTells(snap: Snapshot, listed: seq<Text>, wanted: Text)
    requires Lists(snap, listed) && AllNameable(listed)
    ensures CursorFor([|listed|] + Cursors(snap, listed), wanted) == if Occurs(listed, wanted) then MaxId(snap, wanted)
        else 0
  {
    hide Lookup, Cursors, Firsts, MaxId, CursorsSize;
    var payload := [|listed|] + Cursors(snap, listed);
    assert payload[1..] == Cursors(snap, listed);
    LookupListed(snap, listed, wanted);
  }

  // Answering it

  predicate Visible(m: Message, requester: Text) {
    && (m.direction == RX || m.direction == TX)
    && (m.destination == ALL || m.destination == requester)
  }

  predicate Answers(m: Message, payload: seq<byte>, requester: Text) {
    Visible(m, requester) && m.id > CursorFor(payload, m.source)
  }

  /** The messages of a snapshot that answer a request, in order. */
  function Reply(snap: Snapshot, payload: seq<byte>, requester: Text): Snapshot {
    if snap == [] then []
    else
      var n := |snap| - 1;
      Reply(snap[..n], payload, requester) + if Answers(snap[n], payload, requester) then [snap[n]] else []
  }

  /** The filter at the head of mesh_control_send_sync_responses: the kept messages move to the front. */
  method FilterReply(snapshot: array<Message>, stored: nat, payload: seq<byte>, requester: Text) returns (kept: nat)
    requires stored <= snapshot.Length
    modifies snapshot
    ensures kept <= stored && snapshot[..kept] == Reply(old(snapshot[..stored]), payload, requester)
  {
    hide Reply, Answers, CursorFor;
    kept := 0;
    ghost var before := snapshot[..stored];
    NoReply(payload, requester);
    for i := 0 to stored
      invariant kept <= i && snapshot[..kept] == Reply(before[..i], payload, requester)
      invariant snapshot[i..stored] == before[i..]
    {
      var m := snapshot[i];
      ghost var front := snapshot[..kept];
      assert m == snapshot[i..stored][0] && before[..i + 1] == before[..i] + [m];
      assert snapshot[i + 1..stored] == before[i + 1..];
      ReplyMore(before[..i], m, payload, requester);
      AnswersIff(m, payload, requester);
      if m.direction != RX && m.direction != TX {
        continue;
      }
      var last := FindCursor(payload, m.source);
      if m.id <= last {
        continue;
      }
      if m.destination != ALL && m.destination != requester {
        continue;
      }
      snapshot[kept] := m;
      kept := kept + 1;
      assert snapshot[..kept] == front + [m];
      assert snapshot[i + 1..stored] == before[i + 1..];
    }
    assert before[..stored] == before;
  }

  lemma NoReply(payload: seq<byte>, requester: Text)
    ensures Reply([], payload, requester) == []
  {
  }

  lemma ReplyMore(snap: Snapshot, m: Message, payload: seq<byte>, requester: Text)
    ensures Reply(snap + [m], payload, requester) ==
            Reply(snap, payload, requester) + if Answers(m, payload, requester) then [m] else []
  {
    hide Answers;
    assert (snap + [m])[..|snap|] == snap;
  }

  lemma AnswersIff(m: Message, payload: seq<byte>, requester: Text)
    ensures Answers(m, payload, requester) <==>
            && (m.direction == RX || m.direction == TX) && m.id > CursorFor(payload, m.source)
            && (m.destination == ALL || m.destination == requester)
  {
    hide CursorFor;
  }

  ghost predicate Contains(snap: Snapshot, m: Message) {
    exists i :: 0 <= i < |snap| && snap[i] == m
  }

  lemma {:induction false} ReplyContains(snap: Snapshot, payload: seq<byte>, requester: Text, m: Message)
    ensures Contains(Reply(snap, payload, requester), m) <==> Contains(snap, m) && Answers(m, payload, requester)
  {
    hide Answers;
    if snap != [] {
      var n := |snap| - 1;
      ReplyContains(snap[..n], payload, requester, m);
      ContainsMore(Reply(snap[..n], payload, requester), snap[n], m);
      ContainsMore(snap[..n], snap[n], m);
      assert snap == snap[..n] + [snap[n]];
      assert Reply(snap[..n], payload, requester) + [] == Reply(snap[..n], payload, requester);
    }
  }

  lemma ContainsMore(snap: Snapshot, last: Message, m: Message)
    ensures Contains(snap + [last], m) <==> Contains(snap, m) || last == m
  {
    if Contains(snap, m) {
      var k :| 0 <= k < |snap| && snap[k] == m;
      assert (snap + [last])[k] == m;
    }
    if last == m {
      assert (snap + [last])[|snap|] == m;
    }
  }

  /** One exchange between two stores: a message of the peer is sent exactly when the requester may
      see it and its id is beyond everything the requester listed for that source. */
  lemma ExchangeExact(mine: Snapshot, listed: seq<Text>, theirs: Snapshot, requester: Text, m: Message)
    requires Lists(mine, listed) && AllNameable(listed)
    ensures Contains(Reply(theirs, [|listed|] + Cursors(mine, listed), requester), m) <==>
            && Contains(theirs, m) && Visible(m, requester)
            && m.id > if Occurs(listed, m.source) then MaxId(mine, m.source) else 0
  {
    hide Cursors, CursorFor, Lists, AllNameable;
    ListedFew(mine, listed);
    RequestTells(mine, listed, m.source);
    ReplyContains(theirs, [|listed|] + Cursors(mine, listed), requester, m);
  }

  lemma ListedFew(snap: Snapshot, listed: seq<Text>)
    requires Lists(snap, listed)
    ensures |listed| <= 255
  {
  }

  /** A store with at most eight sources, whose cursors fit, has every one of its sources listed, and so is never
      sent a message it holds; a message it misses below its largest id is not sent either. */
  lemma NothingTwice(mine: Snapshot, listed: seq<Text>, theirs: Snapshot, requester: Text, m: Message)
    requires Lists(mine, listed) && AllNameable(listed)
    requires |Firsts(mine)| <= 8 && CursorsSize(Firsts(mine)) <= 140
    requires Nameable(m.source) && Holds(mine, m.source)
    ensures Contains(Reply(theirs, [|listed|] + Cursors(mine, listed), requester), m) <==>
            Contains(theirs, m) && Visible(m, requester) && m.id > MaxId(mine, m.source)
    ensures Contains(mine, m) ==> !Contains(Reply(theirs, [|listed|] + Cursors(mine, listed), requester), m)
  {
    hide Cursors, Firsts, Visible, Answers, Reply, Holds, CursorsSize, MaxId;
    FirstsAreSources(mine);
    var firsts := Firsts(mine);
    if |listed| < |firsts| {
      SizeGrows(firsts, |listed| + 1);
    }
    assert firsts[..|firsts|] == firsts;
    ExchangeExact(mine, listed, theirs, requester, m);
    MaxIdIsMax(mine, m.source);
  }

  lemma {:induction false} SizeGrows(sources: seq<Text>, n: nat)
    requires n <= |sources|
    ensures CursorsSize(sources[..n]) <= CursorsSize(sources)
    decreases |sources| - n
  {
    if n < |sources| {
      SizeGrows(sources, n + 1);
      assert sources[..n + 1][..n] == sources[..n];
    } else {
      assert sources[..n] == sources;
    }
  }
}
