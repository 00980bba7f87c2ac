/** Singly linked lists threaded through an array of integer links, ended by -1. */
module Chains {

  ghost predicate NoDup(nodes: seq<int>) {
    forall i, j :: 0 <= i < j < |nodes| ==> nodes[i] != nodes[j]
  }

  /** The node that follows position `i`, or the end mark. */
  ghost function After(nodes: seq<int>, i: nat): int
    requires i < |nodes|
  {
    if i + 1 < |nodes| then nodes[i + 1] else -1
  }

  /** Following `links` from `head` visits exactly `nodes`, in order, and stops. */
  ghost predicate Chain(links: seq<int>, head: int, nodes: seq<int>) {
    && NoDup(nodes)
    && (forall i :: 0 <= i < |nodes| ==> 0 <= nodes[i] < |links|)
    && head == (if nodes == [] then -1 else nodes[0])
    && forall i :: 0 <= i < |nodes| ==> links[nodes[i]] == After(nodes, i)
  }

  lemma ChainFrame(links: seq<int>, links': seq<int>, head: int, nodes: seq<int>)
    requires Chain(links, head, nodes) && |links| == |links'|
    requires forall x <- nodes :: 0 <= x < |links| ==> links'[x] == links[x]
    ensures Chain(links', head, nodes)
  {
    forall i | 0 <= i < |nodes|
      ensures links'[nodes[i]] == links[nodes[i]]
    {
      assert nodes[i] in nodes;
    }
  }

  lemma ChainPush(links: seq<int>, head: int, nodes: seq<int>, x: int)
    requires Chain(links, head, nodes) && 0 <= x < |links| && x !in nodes
    ensures Chain(links[x := head], x, [x] + nodes)
  {
    var links' := links[x := head];
    ChainFrame(links, links', head, nodes);
    var nodes' := [x] + nodes;
    forall i | 0 <= i < |nodes'|
      ensures links'[nodes'[i]] == After(nodes', i)
    {
      if i > 0 {
        assert nodes'[i] == nodes[i - 1];
      }
    }
  }

  /** `nodes` without the node at position `q`. */
  ghost function Without(nodes: seq<int>, q: nat): (r: seq<int>)
    requires q < |nodes|
    ensures |r| == |nodes| - 1
    ensures forall i :: 0 <= i < |r| ==> r[i] == if i < q then nodes[i] else nodes[i + 1]
  {
    nodes[..q] + nodes[q + 1..]
  }

  lemma WithoutMembers(nodes: seq<int>, q: nat)
    requires q < |nodes| && NoDup(nodes)
    ensures NoDup(Without(nodes, q))
    ensures forall x :: x in Without(nodes, q) <==> x in nodes && x != nodes[q]
  {
    var r := Without(nodes, q);
    forall x | x in nodes && x != nodes[q]
      ensures x in r
    {
      var i :| 0 <= i < |nodes| && nodes[i] == x;
      assert r[if i < q then i else i - 1] == x;
    }
  }

  /** Unlinking the first node, through the head. */
  lemma ChainUnlinkFirst(links: seq<int>, head: int, nodes: seq<int>)
    requires Chain(links, head, nodes) && nodes != []
    ensures Chain(links, links[nodes[0]], Without(nodes, 0))
  {
    var r := Without(nodes, 0);
    forall i | 0 <= i < |r|
      ensures links[r[i]] == After(r, i)
    {
      assert r[i] == nodes[i + 1];
    }
  }

  /** Unlinking a later node, through the link of the one before it. */
  lemma ChainUnlinkLater(links: seq<int>, head: int, nodes: seq<int>, q: nat)
    requires Chain(links, head, nodes) && 0 < q < |nodes|
    ensures Chain(links[nodes[q - 1] := links[nodes[q]]], head, Without(nodes, q))
  {
    hide NoDup;
    var r, links' := Without(nodes, q), links[nodes[q - 1] := links[nodes[q]]];
    WithoutMembers(nodes, q);
    forall i | 0 <= i < |r|
      ensures 0 <= r[i] < |links'| && links'[r[i]] == After(r, i)
    {
      LinkUntouched(nodes, q, i);
    }
  }

  /** Only the node before the one at `q` has its link changed. */
  lemma LinkUntouched(nodes: seq<int>, q: nat, i: nat)
    requires NoDup(nodes) && 0 < q < |nodes| && i < |nodes| - 1
    ensures Without(nodes, q)[i] == nodes[q - 1] <==> i == q - 1
  {
  }

  /** `nodes` threaded from `head`, the link out of the last one left open. */
  ghost predicate OpenChain(links: seq<int>, head: int, nodes: seq<int>) {
    && NoDup(nodes)
    && (forall i :: 0 <= i < |nodes| ==> 0 <= nodes[i] < |links|)
    && head == (if nodes == [] then -1 else nodes[0])
    && forall i :: 0 <= i < |nodes| - 1 ==> links[nodes[i]] == nodes[i + 1]
  }

  lemma OpenChainExtend(links: seq<int>, head: int, nodes: seq<int>, x: int)
    requires OpenChain(links, head, nodes) && 0 <= x < |links| && x !in nodes
    ensures nodes == [] ==> OpenChain(links, x, [x])
    ensures nodes != [] ==> OpenChain(links[nodes[|nodes| - 1] := x], head, nodes + [x])
  {
  }

  lemma OpenChainClose(links: seq<int>, head: int, nodes: seq<int>)
    requires OpenChain(links, head, nodes) && nodes != []
    ensures Chain(links[nodes[|nodes| - 1] := -1], head, nodes)
  {
    var links' := links[nodes[|nodes| - 1] := -1];
    forall i | 0 <= i < |nodes|
      ensures links'[nodes[i]] == After(nodes, i)
    {
    }
  }

  /** A family of chains over one array of links. */
  ghost predicate Threaded(links: seq<int>, heads: seq<int>, chains: seq<seq<int>>) {
    && |heads| == |chains|
    && forall c :: 0 <= c < |heads| ==> Chain(links, heads[c], chains[c])
  }

  /** `home[j]` is the number of the one chain that node `j` is on; a node whose home is no chain
      number is on none. So the chains are pairwise disjoint. */
  ghost predicate Homed(chains: seq<seq<int>>, home: seq<int>) {
    && (forall c, i :: 0 <= c < |chains| && 0 <= i < |chains[c]| ==>
        0 <= chains[c][i] < |home| && home[chains[c][i]] == c)
    && (forall j :: 0 <= j < |home| && 0 <= home[j] < |chains| ==> j in chains[home[j]])
  }

  lemma HomedMember(chains: seq<seq<int>>, home: seq<int>, c: nat, x: int)
    requires Homed(chains, home) && c < |chains|
    ensures x in chains[c] <==> 0 <= x < |home| && home[x] == c
  {
  }

  lemma ThreadedReplace(links: seq<int>, links': seq<int>, heads: seq<int>, head: int,
                        chains: seq<seq<int>>, home: seq<int>, c: nat, nodes: seq<int>)
    requires Threaded(links, heads, chains) && Homed(chains, home) && c < |heads|
    requires |links'| == |links| == |home| && Chain(links', head, nodes)
    requires forall j :: 0 <= j < |home| && home[j] != -1 && home[j] != c ==> links'[j] == links[j]
    ensures Threaded(links', heads[c := head], chains[c := nodes])
  {
    forall d | 0 <= d < |heads| && d != c
      ensures Chain(links', heads[d], chains[d])
    {
      forall x <- chains[d]
        ensures 0 <= x < |home| && home[x] == d
      {
        HomedMember(chains, home, d, x);
      }
      ChainFrame(links, links', heads[d], chains[d]);
    }
  }

  lemma HomedReplace(chains: seq<seq<int>>, home: seq<int>, home': seq<int>, c: nat, nodes: seq<int>)
    requires Homed(chains, home) && c < |chains| && |home'| == |home|
    requires forall j :: 0 <= j < |home| ==> home'[j] == if j in nodes then c else if home[j] == c then -1 else home[j]
    requires forall x <- nodes :: 0 <= x < |home| && (home[x] == c || home[x] == -1)
    ensures Homed(chains[c := nodes], home')
  {
    var chains' := chains[c := nodes];
    forall d, i | 0 <= d < |chains'| && 0 <= i < |chains'[d]|
      ensures 0 <= chains'[d][i] < |home'| && home'[chains'[d][i]] == d
    {
      assert chains'[d][i] in chains'[d];
    }
  }

  /** Pushing an unthreaded node at the front of chain `c`, as insert_entry does. */
  lemma PushFront(links: seq<int>, heads: seq<int>, chains: seq<seq<int>>, home: seq<int>, c: nat, x: nat)
    requires Threaded(links, heads, chains) && Homed(chains, home) && |links| == |home|
    requires c < |heads| && x < |links| && home[x] == -1
    ensures Threaded(links[x := heads[c]], heads[c := x], chains[c := [x] + chains[c]])
    ensures Homed(chains[c := [x] + chains[c]], home[x := c])
  {
    HomedMember(chains, home, c, x);
    ChainPush(links, heads[c], chains[c], x);
    ThreadedReplace(links, links[x := heads[c]], heads, x, chains, home, c, [x] + chains[c]);
    forall j
      ensures j in chains[c] <==> 0 <= j < |home| && home[j] == c
    {
      HomedMember(chains, home, c, j);
    }
    HomedReplace(chains, home, home[x := c], c, [x] + chains[c]);
  }

  /** Unlinking the node at position `q` of chain `c`, as remove_from_hash and alloc_entry do. */
  lemma Unlink(links: seq<int>, heads: seq<int>, chains: seq<seq<int>>, home: seq<int>, c: nat, q: nat)
    requires Threaded(links, heads, chains) && Homed(chains, home) && |links| == |home|
    requires c < |heads| && q < |chains[c]|
    ensures
      var x := chains[c][q];
      var links' := if q == 0 then links else links[chains[c][q - 1] := links[x]];
      var head := if q == 0 then links[x] else heads[c];
      && Threaded(links', heads[c := head], chains[c := Without(chains[c], q)])
      && Homed(chains[c := Without(chains[c], q)], home[x := -1])
  {
    var nodes := chains[c];
    var x := nodes[q];
    if q == 0 {
      ChainUnlinkFirst(links, heads[c], nodes);
    } else {
      ChainUnlinkLater(links, heads[c], nodes, q);
    }
    WithoutMembers(nodes, q);
    forall j
      ensures j in nodes <==> 0 <= j < |home| && home[j] == c
    {
      HomedMember(chains, home, c, j);
    }
    if q > 0 {
      assert nodes[q - 1] in nodes;
    }
    assert x in nodes;
    ThreadedReplace(links, if q == 0 then links else links[nodes[q - 1] := links[x]], heads,
      if q == 0 then links[x] else heads[c], chains, home, c, Without(nodes, q));
    HomedReplace(chains, home, home[x := -1], c, Without(nodes, q));
  }
}
