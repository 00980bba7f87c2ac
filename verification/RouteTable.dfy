/** The table of learned routes. */
module RouteTable {
  import opened CText

  const ROUTES := 32
  const STALE_MS := 300000

  datatype Route = Route(destination: Text, nextHop: Text, hops: int, rssi: int, cost: nat, lastSeen: nat)

  predicate Stale(r: Route, now: nat) {
    Minus(now, r.lastSeen) >= STALE_MS
  }

  /** route_is_valid */
  predicate Learnable(destination: Text, nextHop: Text, hops: int) {
    destination != [] && nextHop != [] && hops > 0
  }

  predicate Keyed(r: Route, destination: Text, nextHop: Text) {
    r.destination == destination && r.nextHop == nextHop
  }

  /** find_route_index */
  function Find(t: seq<Route>, destination: Text, nextHop: Text): (i: int)
    ensures -1 <= i < |t|
    ensures i >= 0 ==> Keyed(t[i], destination, nextHop) && forall j :: 0 <= j < i ==>
        !Keyed(t[j], destination, nextHop)
    ensures i == -1 ==> forall j :: 0 <= j < |t| ==> !Keyed(t[j], destination, nextHop)
  {
    if t == [] then -1
    else
      var n := |t| - 1;
      var i := Find(t[..n], destination, nextHop);
      if i >= 0 then i else if Keyed(t[n], destination, nextHop) then n else -1
  }

  /** The entry that is given up when the table is full: the first of those silent longest. */
  ghost predicate Oldest(t: seq<Route>, now: nat, i: int) {
    && 0 <= i < |t|
    && forall j :: 0 <= j < |t| ==> Minus(now, t[j].lastSeen) <= Minus(now, t[i].lastSeen)
                                    && (j < i ==> Minus(now, t[j].lastSeen) < Minus(now, t[i].lastSeen))
  }

  function Cost(rssi: int): nat {
    if rssi < 0 then -rssi else 0
  }

  function Created(destination: Text, nextHop: Text, hops: int, rssi: int, now: nat): Route {
    Route(CopyField(destination, NAME_MAX), CopyField(nextHop, NAME_MAX), hops, rssi, Cost(rssi), now)
  }

  /** What another observation makes of an entry. */
  function Observed(r: Route, hops: int, rssi: int, now: nat): Route {
    if Stale(r, now) || hops < r.hops || (hops == r.hops && rssi > r.rssi) || r.hops == 0
    then r.(hops := hops, rssi := rssi, cost := Cost(rssi), lastSeen := now)
    else r.(lastSeen := now)
  }

  /** route_table_learn, when a full table gives up entry `v`. */
  ghost function Learned(t: seq<Route>, destination: Text, nextHop: Text, hops: int, rssi: int, now: nat,
      v: int): seq<Route>
    requires |t| < ROUTES || 0 <= v < |t|
  {
    if !Learnable(destination, nextHop, hops) then t
    else
      var i := Find(t, destination, nextHop);
      if i >= 0 then t[i := Observed(t[i], hops, rssi, now)]
      else if |t| < ROUTES then t + [Created(destination, nextHop, hops, rssi, now)]
      else t[v := Created(destination, nextHop, hops, rssi, now)]
  }

  // Choosing

  /** strcmp(a, b) < 0 */
  predicate Before(a: Text, b: Text) {
    b != [] && (a == [] || a[0] < b[0] || (a[0] == b[0] && Before(a[1..], b[1..])))
  }

  lemma {:induction false} BeforeTotal(a: Text, b: Text)
    ensures a == b || Before(a, b) || Before(b, a)
    ensures !(Before(a, b) && Before(b, a))
  {
    if a != [] && b != [] {
      BeforeTotal(a[1..], b[1..]);
      if a[0] == b[0] && a[1..] == b[1..] {
        assert a == [a[0]] + a[1..] && b == [b[0]] + b[1..];
      }
    }
  }

  lemma {:induction false} BeforeTransitive(a: Text, b: Text, c: Text)
    requires Before(a, b) && Before(b, c)
    ensures Before(a, c)
  {
    if a != [] && a[0] == b[0] == c[0] {
      BeforeTransitive(a[1..], b[1..], c[1..]);
    }
  }

  /** `a` is not behind `b` in the order of byte strings: it is the start of `b`, or smaller in the first byte in
      which the two differ. */
  ghost predicate NotAfter(a: Text, b: Text) {
    exists k: nat :: PartsAt(a, b, k)
  }

  /** The texts are alike up to `k`, where the first ends or has the smaller byte. */
  predicate PartsAt(a: Text, b: Text, k: nat) {
    k <= |a| && k <= |b| && a[..k] == b[..k] && (k == |a| || (k < |b| && a[k] < b[k]))
  }

  lemma PartsLater(a: Text, b: Text, k: nat)
    requires a != [] && b != [] && k > 0
    ensures PartsAt(a, b, k) <==> a[0] == b[0] && PartsAt(a[1..], b[1..], k - 1)
  {
    if k <= |a| && k <= |b| {
      assert a[..k] == [a[0]] + a[1..][..k - 1] && b[..k] == [b[0]] + b[1..][..k - 1];
      assert a[..k] == b[..k] ==> a[..k][0] == b[..k][0] && a[..k][1..] == b[..k][1..];
    }
  }

  lemma NotAfterTail(a: Text, b: Text)
    requires a != [] && b != []
    ensures NotAfter(a, b) <==> a[0] < b[0] || (a[0] == b[0] && NotAfter(a[1..], b[1..]))
  {
    assert PartsAt(a, b, 0) <==> a[0] < b[0];
    hide PartsAt;
    if k: nat :| PartsAt(a, b, k) {
      if k > 0 {
        PartsLater(a, b, k);
      }
    }
    if a[0] == b[0] && NotAfter(a[1..], b[1..]) {
      var k: nat :| PartsAt(a[1..], b[1..], k);
      PartsLater(a, b, k + 1);
    }
  }

  lemma {:induction false} BeforeByFirstByte(a: Text, b: Text)
    ensures NotAfter(a, b) <==> !Before(b, a)
  {
    if a == [] || b == [] {
      assert PartsAt(a, b, 0) <==> a == [];
    } else {
      hide NotAfter;
      NotAfterTail(a, b);
      BeforeByFirstByte(a[1..], b[1..]);
    }
  }

  /** Fewer hops, then the stronger signal, then the name of the next hop. */
  predicate Beats(a: Route, b: Route) {
    || a.hops < b.hops
    || (a.hops == b.hops && a.rssi > b.rssi)
    || (a.hops == b.hops && a.rssi == b.rssi && Before(a.nextHop, b.nextHop))
  }

  lemma BeatsTransitive(a: Route, b: Route, c: Route)
    requires Beats(a, b) && Beats(b, c)
    ensures Beats(a, c)
  {
    if Before(a.nextHop, b.nextHop) && Before(b.nextHop, c.nextHop) {
      BeforeTransitive(a.nextHop, b.nextHop, c.nextHop);
    }
  }

  lemma BeatsAntisymmetric(a: Route, b: Route)
    ensures !(Beats(a, b) && Beats(b, a))
    ensures !Beats(a, b) && !Beats(b, a) ==> a.hops == b.hops && a.rssi == b.rssi && a.nextHop == b.nextHop
  {
    BeforeTotal(a.nextHop, b.nextHop);
  }

  predicate Candidate(r: Route, destination: Text, now: nat) {
    r.destination == destination && !Stale(r, now) && r.hops > 0
  }

  /** No fresh route to the destination is better. */
  ghost predicate Optimal(t: seq<Route>, destination: Text, now: nat, r: Route) {
    && r in t && Candidate(r, destination, now)
    && forall c <- t :: Candidate(c, destination, now) ==> !Beats(c, r)
  }

  /** A route to the destination, heard of less than 300 seconds ago. */
  predicate Usable(r: Route, destination: Text, now: nat) {
    r.destination == destination && r.hops > 0 && Minus(now, r.lastSeen) < 300000
  }

  /** The chosen route has the fewest hops of the usable ones; of these, the strongest signal; of these, the next
      hop that is first in the order of byte strings. */
  ghost predicate Best(t: seq<Route>, destination: Text, now: nat, best: Route) {
    && best in t && Usable(best, destination, now)
    && forall c <- t :: Usable(c, destination, now) ==>
         && best.hops <= c.hops
         && (best.hops == c.hops ==> best.rssi >= c.rssi)
         && (best.hops == c.hops && best.rssi == c.rssi ==> NotAfter(best.nextHop, c.nextHop))
  }

  lemma OptimalIsBest(t: seq<Route>, destination: Text, now: nat, best: Route)
    ensures Optimal(t, destination, now, best) <==> Best(t, destination, now, best)
    ensures (exists r <- t :: Candidate(r, destination, now)) <==> (exists r <- t :: Usable(r, destination, now))
  {
    hide Before, NotAfter, Minus;
    forall c <- t
      ensures NotAfter(best.nextHop, c.nextHop) <==> !Before(c.nextHop, best.nextHop)
    {
      BeforeByFirstByte(best.nextHop, c.nextHop);
    }
  }

  class Routes {
    const routes: array<Route>
    var count: nat

    constructor ()
      ensures Valid() && Table() == [] && fresh(routes)
    {
      routes := new Route[ROUTES](_ => Route([], [], 0, 0, 0, 0));
      count := 0;
    }

    ghost predicate Valid()
      reads this
    {
      routes.Length == ROUTES && count <= ROUTES
    }

    ghost function Table(): seq<Route>
      requires Valid()
      reads this, routes
    {
      routes[..count]
    }

    method FindRoute(destination: Text, nextHop: Text) returns (i: int)
      requires Valid()
      ensures i == Find(Table(), destination, nextHop)
    {
      for j := 0 to count
        invariant forall k :: 0 <= k < j ==> !Keyed(routes[k], destination, nextHop)
      {
        if Keyed(routes[j], destination, nextHop) {
          return j;
        }
      }
      return -1;
    }

    method FindOldest(now: nat) returns (i: int)
      requires Valid() && count > 0
      ensures Oldest(Table(), now, i)
    {
      i := 0;
      for j := 1 to count
        invariant 0 <= i < j
        invariant forall k :: 0 <= k < j ==> Minus(now, routes[k].lastSeen) <= Minus(now, routes[i].lastSeen)
                                             && (k < i ==>
                                                 Minus(now, routes[k].lastSeen) < Minus(now, routes[i].lastSeen))
      {
        if Minus(now, routes[j].lastSeen) > Minus(now, routes[i].lastSeen) {
          i := j;
        }
      }
    }

    /** route_table_learn */
    method Learn(destination: Text, nextHop: Text, hops: int, rssi: int, now: nat) returns (ghost v: int)
      requires Valid()
      modifies this`count, routes
      ensures Valid() && (old(count) == ROUTES ==> Oldest(old(Table()), now, v))
      ensures Table() == Learned(old(Table()), destination, nextHop, hops, rssi, now, v)
    {
      hide Find, CopyField, Oldest;
      v := 0;
      if count == ROUTES {
        var o := FindOldest(now);
        v := o;
        OldestInRange(Table(), now, v);
      }
      if !Learnable(destination, nextHop, hops) {
        return;
      }
      var index := FindRoute(destination, nextHop);
      if index < 0 {
        if count < ROUTES {
          index := count;
          count := count + 1;
        } else {
          index := FindOldest(now);
          OldestUnique(Table(), now, index, v);
        }
        routes[index] := Route(CopyField(destination, NAME_MAX), CopyField(nextHop, NAME_MAX), 0, 0, 0, 0);
      }
      if Stale(routes[index], now) || hops < routes[index].hops
          || (hops == routes[index].hops && rssi > routes[index].rssi) || routes[index].hops == 0 {
        routes[index] := routes[index].(hops := hops, rssi := rssi, cost := Cost(rssi));
      }
      routes[index] := routes[index].(lastSeen := now);
    }

    /** route_table_get_best */
    method GetBest(destination: Text, now: nat) returns (found: bool, best: Route)
      requires Valid()
      ensures found <==> destination != [] && exists r <- Table() :: Candidate(r, destination, now)
      ensures found ==> Optimal(Table(), destination, now, best)
      ensures found <==> destination != [] && exists r <- Table() :: Usable(r, destination, now)
      ensures found ==> Best(Table(), destination, now, best)
    {
      hide Beats, Candidate, Usable, Best;
      found, best := false, Route([], [], 0, 0, 0, 0);
      if destination == [] {
        return;
      }
      for i := 0 to count
        invariant found <==> exists k :: 0 <= k < i && Candidate(routes[k], destination, now)
        invariant found ==> Optimal(routes[..i], destination, now, best)
      {
        var c := routes[i];
        OneMore(routes[..i], c, destination, now, best);
        assert routes[..i + 1] == routes[..i] + [c];
        if Candidate(c, destination, now) && (!found || Beats(c, best)) {
          best, found := c, true;
        }
      }
      OptimalIsBest(Table(), destination, now, best);
    }
  }

  lemma OldestInRange(t: seq<Route>, now: nat, i: int)
    requires Oldest(t, now, i)
    ensures 0 <= i < |t|
  {
  }

  lemma OldestUnique(t: seq<Route>, now: nat, i: int, j: int)
    requires Oldest(t, now, i) && Oldest(t, now, j)
    ensures i == j
  {
    hide Minus;
    assert Minus(now, t[i].lastSeen) == Minus(now, t[j].lastSeen);
  }

  lemma OneMore(t: seq<Route>, c: Route, destination: Text, now: nat, best: Route)
    ensures Optimal(t, destination, now, best) && !(Candidate(c, destination, now) && Beats(c, best)) ==>
        Optimal(t + [c], destination, now, best)
    ensures Candidate(c, destination, now) && (forall r <- t :: !Candidate(r, destination, now)) ==>
        Optimal(t + [c], destination, now, c)
    ensures Candidate(c, destination, now) && Optimal(t, destination, now, best) && Beats(c, best) ==>
        Optimal(t + [c], destination, now, c)
  {
    hide Beats, Candidate;
    BeatsAntisymmetric(c, c);
    assert (t + [c])[|t|] == c;
    if Optimal(t, destination, now, best) && Beats(c, best) {
      forall r <- t | Candidate(r, destination, now)
        ensures !Beats(r, c)
      {
        if Beats(r, c) {
          BeatsTransitive(r, c, best);
        }
      }
    }
  }

  // What every run keeps

  /** An observation of a route. */
  datatype Sighting = Sighting(hops: int, rssi: int, time: nat)

  predicate Better(a: Sighting, b: Sighting) {
    a.hops < b.hops || (a.hops == b.hops && a.rssi > b.rssi)
  }

  /** For each route in the table, what was seen of it since it was entered or since it was last silent for 300 s. */
  type Sightings = map<(Text, Text), seq<Sighting>>

  function Key(r: Route): (Text, Text) {
    (r.destination, r.nextHop)
  }

  /** Sightings without a gap of 300 s. */
  ghost predicate NoSilence(s: seq<Sighting>) {
    forall i :: 0 < i < |s| ==> Minus(s[i].time, s[i - 1].time) < STALE_MS
  }

  /** The entry holds the best of the sightings, and the time of the last one. */
  ghost predicate Sums(r: Route, s: seq<Sighting>) {
    && s != [] && NoSilence(s) && s[|s| - 1].time == r.lastSeen
    && (exists i :: 0 <= i < |s| && s[i].hops == r.hops && s[i].rssi == r.rssi)
    && (forall i :: 0 <= i < |s| ==> !Better(s[i], Sighting(r.hops, r.rssi, 0)))
  }

  ghost predicate Proper(r: Route) {
    && r.hops > 0 && r.cost == (if r.rssi < 0 then -r.rssi else 0)
    && Clean(r.destination) && Clean(r.nextHop) && r.destination != [] && r.nextHop != []
  }

  ghost predicate DistinctKeys(t: seq<Route>) {
    forall i, j :: 0 <= i < j < |t| ==> Key(t[i]) != Key(t[j])
  }

  ghost predicate Inv(t: seq<Route>, seen: Sightings) {
    && |t| <= ROUTES && DistinctKeys(t)
    && (forall i :: 0 <= i < |t| ==> Proper(t[i]))
    && (forall i :: 0 <= i < |t| ==> Key(t[i]) in seen && Sums(t[i], seen[Key(t[i])]))
    && forall k <- seen :: exists i :: 0 <= i < |t| && Key(t[i]) == k
  }

  ghost function NextSightings(t: seq<Route>, seen: Sightings, destination: Text, nextHop: Text, hops: int, rssi: int,
      now: nat, v: int): Sightings
    requires |t| < ROUTES || 0 <= v < |t|
  {
    var new_ := Sighting(hops, rssi, now);
    var k := (destination, nextHop);
    if destination == [] || nextHop == [] || hops <= 0 then seen
    else if k in seen then
      var s := seen[k];
      seen[k := if s == [] || Minus(now, s[|s| - 1].time) >= STALE_MS then [new_] else s + [new_]]
    else (if |t| < ROUTES then seen else seen - {Key(t[v])})[k := [new_]]
  }

  lemma SumsOne(r: Route, hops: int, rssi: int, now: nat)
    requires r.hops == hops && r.rssi == rssi && r.lastSeen == now
    ensures Sums(r, [Sighting(hops, rssi, now)])
  {
    assert [Sighting(hops, rssi, now)][0].hops == r.hops;
  }

  /** Another observation: the entry sums up what is then known of the route. */
  lemma SumsNext(r: Route, s: seq<Sighting>, hops: int, rssi: int, now: nat)
    requires Sums(r, s) && Proper(r)
    ensures Sums(Observed(r, hops, rssi, now), if Minus(now, r.lastSeen) >= STALE_MS then [Sighting(hops, rssi, now)]
        else s + [Sighting(hops, rssi, now)])
  {
    hide Minus;
    var r' := Observed(r, hops, rssi, now);
    var new_ := Sighting(hops, rssi, now);
    if Stale(r, now) {
      SumsOne(r', hops, rssi, now);
    } else {
      var s' := s + [new_];
      var i :| 0 <= i < |s| && s[i].hops == r.hops && s[i].rssi == r.rssi;
      var best := if Better(new_, Sighting(r.hops, r.rssi, 0)) then |s| else i;
      assert s'[best].hops == r'.hops && s'[best].rssi == r'.rssi;
      forall j | 0 <= j < |s'|
        ensures !Better(s'[j], Sighting(r'.hops, r'.rssi, 0))
      {
        assert j < |s| ==> s'[j] == s[j];
      }
    }
  }

  lemma KnownIffFound(t: seq<Route>, seen: Sightings, destination: Text, nextHop: Text)
    requires Inv(t, seen)
    ensures Find(t, destination, nextHop) >= 0 <==> (destination, nextHop) in seen
    ensures Find(t, destination, nextHop) >= 0 ==>
              forall j :: 0 <= j < |t| && j != Find(t, destination, nextHop) ==> Key(t[j]) != (destination, nextHop)
  {
    hide Find, Sums, Proper;
    var i := Find(t, destination, nextHop);
    if i >= 0 {
      assert Key(t[i]) == (destination, nextHop);
    }
  }

  lemma ObservedParts(r: Route, s: seq<Sighting>, hops: int, rssi: int, now: nat)
    requires Sums(r, s) && Proper(r) && hops > 0
    ensures Key(Observed(r, hops, rssi, now)) == Key(r) && Proper(Observed(r, hops, rssi, now))
    ensures s != [] && s[|s| - 1].time == r.lastSeen
  {
    hide Minus, Clean;
  }

  lemma ObservedKeeps(t: seq<Route>, seen: Sightings, i: nat, hops: int, rssi: int, now: nat)
    requires Inv(t, seen) && i < |t| && hops > 0
    ensures
      var k := Key(t[i]);
      var s := seen[k];
      s != [] && s[|s| - 1].time == t[i].lastSeen
      && Inv(t[i := Observed(t[i], hops, rssi, now)],
             seen[k := if Minus(now, t[i].lastSeen) >= STALE_MS then [Sighting(hops, rssi, now)]
                 else s + [Sighting(hops, rssi, now)]])
  {
    hide Sums, Proper, Observed, Minus;
    var k := Key(t[i]);
    var s := seen[k];
    SumsNext(t[i], s, hops, rssi, now);
    var r := Observed(t[i], hops, rssi, now);
    ObservedParts(t[i], s, hops, rssi, now);
    var seen' := seen[k := if Minus(now, t[i].lastSeen) >= STALE_MS then [Sighting(hops, rssi, now)]
        else s + [Sighting(hops, rssi, now)]];
    ReplaceKeeps(t, seen, i, r, seen');
  }

  /** Putting a summed-up entry in the place of one keeps the table in order. */
  lemma ReplaceKeeps(t: seq<Route>, seen: Sightings, i: nat, r: Route, seen': Sightings)
    requires Inv(t, seen) && i < |t| && Proper(r)
    requires Key(r) == Key(t[i]) || Key(r) !in seen
    requires Key(r) in seen' && Sums(r, seen'[Key(r)])
    requires seen' == (seen - {Key(t[i])})[Key(r) := seen'[Key(r)]]
    ensures Inv(t[i := r], seen')
  {
    hide Sums, Proper;
    var t' := t[i := r];
    forall k <- seen'
      ensures exists j :: 0 <= j < |t'| && Key(t'[j]) == k
    {
      if k == Key(r) {
        assert Key(t'[i]) == k;
      } else {
        var j :| 0 <= j < |t| && Key(t[j]) == k;
        assert Key(t'[j]) == k;
      }
    }
  }

  lemma AppendKeeps(t: seq<Route>, seen: Sightings, r: Route, s: seq<Sighting>)
    requires Inv(t, seen) && |t| < ROUTES && Proper(r) && Key(r) !in seen && Sums(r, s)
    ensures Inv(t + [r], seen[Key(r) := s])
  {
    hide Sums, Proper;
    var t', seen' := t + [r], seen[Key(r) := s];
    forall k <- seen'
      ensures exists j :: 0 <= j < |t'| && Key(t'[j]) == k
    {
      if k == Key(r) {
        assert Key(t'[|t|]) == k;
      } else {
        var j :| 0 <= j < |t| && Key(t[j]) == k;
        assert Key(t'[j]) == k;
      }
    }
  }

  lemma CreatedParts(destination: Text, nextHop: Text, hops: int, rssi: int, now: nat)
    requires Clean(destination) && Clean(nextHop) && Learnable(destination, nextHop, hops)
    ensures var r := Created(destination, nextHop, hops, rssi, now);
      Proper(r) && Key(r) == (destination, nextHop) && Sums(r, [Sighting(hops, rssi, now)])
  {
    StoredIffClean(destination);
    StoredIffClean(nextHop);
    SumsOne(Created(destination, nextHop, hops, rssi, now), hops, rssi, now);
  }

  /** With clean names, learning keeps keys apart and every entry the best of its sightings. */
  lemma LearnKeeps(t: seq<Route>, seen: Sightings, destination: Text, nextHop: Text, hops: int, rssi: int, now: nat,
      v: int)
    requires Inv(t, seen) && Clean(destination) && Clean(nextHop) && (|t| == ROUTES ==> Oldest(t, now, v))
        && (|t| < ROUTES || 0 <= v < |t|)
    ensures Inv(Learned(t, destination, nextHop, hops, rssi, now, v),
        NextSightings(t, seen, destination, nextHop, hops, rssi, now, v))
  {
    hide Find, Observed, Created, Inv, Minus, Clean, Oldest;
    if Learnable(destination, nextHop, hops) {
      KnownIffFound(t, seen, destination, nextHop);
      var i := Find(t, destination, nextHop);
      if i >= 0 {
        ObservedKeeps(t, seen, i, hops, rssi, now);
      } else {
        CreatedParts(destination, nextHop, hops, rssi, now);
        var r := Created(destination, nextHop, hops, rssi, now);
        AtMost(t, seen);
        if |t| < ROUTES {
          AppendKeeps(t, seen, r, [Sighting(hops, rssi, now)]);
        } else {
          ReplaceKeeps(t, seen, v, r, NextSightings(t, seen, destination, nextHop, hops, rssi, now, v));
        }
      }
    }
  }

  /** A route that was just learned can be used. */
  lemma LearnedUsable(t: seq<Route>, seen: Sightings, destination: Text, nextHop: Text, hops: int, rssi: int, now: nat,
      v: int)
    requires Inv(t, seen) && Clean(destination) && Clean(nextHop) && destination != [] && nextHop != [] && hops > 0
    requires |t| < ROUTES || 0 <= v < |t|
    ensures exists r <- Learned(t, destination, nextHop, hops, rssi, now, v) :: Usable(r, destination, now)
  {
    hide Find, Clean, Sums, CopyField;
    StoredIffClean(destination);
    var t' := Learned(t, destination, nextHop, hops, rssi, now, v);
    var i := Find(t, destination, nextHop);
    var r := t'[if i >= 0 then i else if |t| < ROUTES then |t| else v];
    assert i >= 0 ==> Proper(t[i]);
    assert r in t' && Usable(r, destination, now);
  }

  lemma AtMost(t: seq<Route>, seen: Sightings)
    requires Inv(t, seen)
    ensures |t| <= ROUTES
  {
  }

  /** Whatever was learned, the table stores clean names. */
  ghost predicate StoresClean(t: seq<Route>) {
    forall i :: 0 <= i < |t| ==> Clean(t[i].destination) && Clean(t[i].nextHop)
  }

  lemma LearnStoresClean(t: seq<Route>, destination: Text, nextHop: Text, hops: int, rssi: int, now: nat, v: int)
    requires StoresClean(t) && (|t| < ROUTES || 0 <= v < |t|)
    ensures StoresClean(Learned(t, destination, nextHop, hops, rssi, now, v))
  {
    hide Find, Minus;
  }

  /** A route that was just learned is found again, and the next observation merged into it, exactly
      when its names are clean. */
  lemma FoundAgainIffClean(t: seq<Route>, destination: Text, nextHop: Text, hops: int, rssi: int, now: nat, v: int)
    requires StoresClean(t) && Learnable(destination, nextHop, hops) && (|t| < ROUTES || 0 <= v < |t|)
    ensures Find(Learned(t, destination, nextHop, hops, rssi, now, v), destination, nextHop) >= 0 <==>
        Clean(destination) && Clean(nextHop)
  {
    hide Find, Clean, Minus, Created;
    LearnStoresClean(t, destination, nextHop, hops, rssi, now, v);
    var t' := Learned(t, destination, nextHop, hops, rssi, now, v);
    if Clean(destination) && Clean(nextHop) {
      CreatedParts(destination, nextHop, hops, rssi, now);
      var i := Find(t, destination, nextHop);
      assert Keyed(t'[if i >= 0 then i else if |t| < ROUTES then |t| else v], destination, nextHop);
    }
  }

  /** Clean names are needed: learning the same route twice enters it once exactly when its names are
      clean. A name that the table stores differently is not found again. */
  lemma EnteredOnceIffClean(t: seq<Route>, seen: Sightings, destination: Text, nextHop: Text, hops: int, rssi: int,
      now: nat)
    requires Inv(t, seen) && |t| + 2 <= ROUTES && Learnable(destination, nextHop, hops)
    ensures var t1 := Learned(t, destination, nextHop, hops, rssi, now, 0);
      DistinctKeys(Learned(t1, destination, nextHop, hops, rssi, now, 0)) <==> Clean(destination) && Clean(nextHop)
  {
    hide Find, Observed, Created, Clean, Sums;
    var t1 := Learned(t, destination, nextHop, hops, rssi, now, 0);
    var t2 := Learned(t1, destination, nextHop, hops, rssi, now, 0);
    if Clean(destination) && Clean(nextHop) {
      LearnKeeps(t, seen, destination, nextHop, hops, rssi, now, 0);
      LearnKeeps(t1, NextSightings(t, seen, destination, nextHop, hops, rssi, now, 0), destination, nextHop, hops,
          rssi, now, 0);
    } else {
      var r := Created(destination, nextHop, hops, rssi, now);
      CreatedDiffers(destination, nextHop, hops, rssi, now);
      assert t1 == t + [r] && t2 == t1 + [r];
      assert Key(t2[|t|]) == Key(t2[|t| + 1]);
    }
  }

  lemma CreatedDiffers(destination: Text, nextHop: Text, hops: int, rssi: int, now: nat)
    requires !(Clean(destination) && Clean(nextHop))
    ensures !Keyed(Created(destination, nextHop, hops, rssi, now), destination, nextHop)
  {
    StoredIffClean(destination);
    StoredIffClean(nextHop);
  }

  /** The chosen route does not depend on the order of the entries. */
  lemma BestIsOne(t: seq<Route>, t': seq<Route>, seen: Sightings, destination: Text, now: nat, r: Route, r': Route)
    requires Inv(t, seen) && (forall x :: x in t <==> x in t')
    requires Optimal(t, destination, now, r) && Optimal(t', destination, now, r')
    ensures r == r'
  {
    hide Beats, Sums, Proper;
    BeatsAntisymmetric(r, r');
    var i :| 0 <= i < |t| && t[i] == r;
    assert r' in t;
    var j :| 0 <= j < |t| && t[j] == r';
    assert Key(t[i]) == Key(t[j]);
  }

  /** The next hop of a chosen route is a name that a packet can carry. */
  lemma BestIsProper(t: seq<Route>, seen: Sightings, destination: Text, now: nat, r: Route)
    requires Inv(t, seen) && Optimal(t, destination, now, r)
    ensures Proper(r) && r.destination == destination
  {
  }

  // Runs

  datatype Lesson = Lesson(destination: Text, nextHop: Text, hops: int, rssi: int, now: nat, victim: int)

  ghost predicate Run(t: seq<Route>, seen: Sightings, lessons: seq<Lesson>, t': seq<Route>, seen': Sightings)
    decreases |lessons|
  {
    if lessons == [] then t' == t && seen' == seen
    else
      var l := lessons[0];
      && Clean(l.destination) && Clean(l.nextHop)
      && (|t| == ROUTES ==> Oldest(t, l.now, l.victim)) && (|t| < ROUTES || 0 <= l.victim < |t|)
      && Run(Learned(t, l.destination, l.nextHop, l.hops, l.rssi, l.now, l.victim),
             NextSightings(t, seen, l.destination, l.nextHop, l.hops, l.rssi, l.now, l.victim), lessons[1..], t', seen')
  }

  lemma {:induction false} RunKeeps(t: seq<Route>, seen: Sightings, lessons: seq<Lesson>, t': seq<Route>,
      seen': Sightings)
    requires Inv(t, seen) && Run(t, seen, lessons, t', seen')
    ensures Inv(t', seen')
    decreases |lessons|
  {
    hide Inv, Learned, NextSightings, Clean, Oldest;
    if lessons != [] {
      var l := lessons[0];
      LearnKeeps(t, seen, l.destination, l.nextHop, l.hops, l.rssi, l.now, l.victim);
      RunKeeps(Learned(t, l.destination, l.nextHop, l.hops, l.rssi, l.now, l.victim),
        NextSightings(t, seen, l.destination, l.nextHop, l.hops, l.rssi, l.now, l.victim), lessons[1..], t', seen');
    }
  }
}
