/** The choice of the radio task among its three queues. */
module RadioArbiter {
  import opened CText

  datatype Choice = High | Normal | Low | Idle

  /** Which queues have something waiting at the start of a round. */
  datatype Waits = Waits(high: bool, normal: bool, low: bool)

  /** The two 8-bit counters of lora_tx_task. */
  datatype Streaks = Streaks(high: byte, normal: byte)

  function Bump(b: byte): byte {
    (b + 1) % 0x100
  }

  /** One round: the queue that is picked and the counters after it. */
  function Pick(s: Streaks, w: Waits): (Choice, Streaks) {
    if w.low && (s.high >= 4 || s.normal >= 3) then (Low, Streaks(0, 0))
    else if w.normal && s.high >= 4 then (Normal, Streaks(0, Bump(s.normal)))
    else if w.high then (High, Streaks(Bump(s.high), s.normal))
    else if w.normal then (Normal, Streaks(0, Bump(s.normal)))
    else if w.low then (Low, Streaks(0, 0))
    else (Idle, s)
  }

  /** The picks of a whole run, and the counters at its end. */
  function Picks(s: Streaks, rounds: seq<Waits>): (r: (seq<Choice>, Streaks))
    ensures |r.0| == |rounds|
    decreases |rounds|
  {
    if rounds == [] then ([], s)
    else
      var (c, s') := Pick(s, rounds[0]);
      var (cs, end) := Picks(s', rounds[1..]);
      ([c] + cs, end)
  }

  lemma {:induction false} PicksMore(s: Streaks, rounds: seq<Waits>, w: Waits)
    ensures Picks(s, rounds + [w]).0 == Picks(s, rounds).0 + [Pick(Picks(s, rounds).1, w).0]
    ensures Picks(s, rounds + [w]).1 == Pick(Picks(s, rounds).1, w).1
    decreases |rounds|
  {
    hide Pick;
    if rounds == [] {
      assert [] + [w] == [w] && [w][1..] == [];
    } else {
      assert (rounds + [w])[1..] == rounds[1..] + [w];
      PicksMore(Pick(s, rounds[0]).1, rounds[1..], w);
    }
  }

  // What the counters count

  /** The NORMAL packets sent since the last LOW one. */
  function NormalsSinceLow(picks: seq<Choice>): nat {
    if picks == [] then 0
    else
      var n := |picks| - 1;
      match picks[n]
      case Low => 0
      case Normal => NormalsSinceLow(picks[..n]) + 1
      case _ => NormalsSinceLow(picks[..n])
  }

  /** The HIGH packets sent since the last packet of another queue. */
  function HighsInARow(picks: seq<Choice>): nat {
    if picks == [] then 0
    else
      var n := |picks| - 1;
      match picks[n]
      case High => HighsInARow(picks[..n]) + 1
      case Idle => HighsInARow(picks[..n])
      case _ => 0
  }

  /** The counters are functions of what was sent, up to their width. */
  lemma {:induction false} CountersCount(rounds: seq<Waits>)
    ensures var (picks, s) := Picks(Streaks(0, 0), rounds);
      s.high == HighsInARow(picks) % 256 && s.normal == NormalsSinceLow(picks) % 256
    decreases |rounds|
  {
    hide Picks;
    NoPicks();
    if rounds != [] {
      var n := |rounds| - 1;
      CountersCount(rounds[..n]);
      assert rounds == rounds[..n] + [rounds[n]];
      PicksMore(Streaks(0, 0), rounds[..n], rounds[n]);
      var picks := Picks(Streaks(0, 0), rounds).0;
      assert picks[..|picks| - 1] == Picks(Streaks(0, 0), rounds[..n]).0;
    }
  }

  /** The queue to be served after `sent`. LOW goes first when it is its turn, after four HIGH packets in a row or
      three NORMAL ones; NORMAL goes before HIGH after four HIGH packets in a row. */
  predicate Chosen(sent: seq<Choice>, w: Waits, c: Choice) {
    var fourHigh, threeNormal := HighsInARow(sent) % 256 >= 4, NormalsSinceLow(sent) % 256 >= 3;
    && (c == Low <==> w.low && (fourHigh || threeNormal || (!w.high && !w.normal)))
    && (c == Normal <==> w.normal && (if fourHigh then !w.low else !w.high && !(w.low && threeNormal)))
    && (c == High <==> w.high && (if fourHigh then !w.low && !w.normal else !(w.low && threeNormal)))
    && (c == Idle <==> !w.high && !w.normal && !w.low)
  }

  lemma NextChosen(rounds: seq<Waits>, w: Waits)
    ensures Chosen(Picks(Streaks(0, 0), rounds).0, w, Pick(Picks(Streaks(0, 0), rounds).1, w).0)
  {
    hide Picks, HighsInARow, NormalsSinceLow;
    CountersCount(rounds);
  }

  /** The rule settles the whole run: two runs over the same arrivals that follow it are the same. */
  lemma {:induction false} ChosenIsOne(rounds: seq<Waits>, a: seq<Choice>, b: seq<Choice>)
    requires |a| == |b| == |rounds|
    requires forall i :: 0 <= i < |rounds| ==> Chosen(a[..i], rounds[i], a[i]) && Chosen(b[..i], rounds[i], b[i])
    ensures a == b
  {
    hide Chosen;
    if rounds != [] {
      var n := |rounds| - 1;
      forall i | 0 <= i < n
        ensures Chosen(a[..n][..i], rounds[i], a[i]) && Chosen(b[..n][..i], rounds[i], b[i])
      {
        assert a[..n][..i] == a[..i] && b[..n][..i] == b[..i];
      }
      ChosenIsOne(rounds[..n], a[..n], b[..n]);
      OneChoice(a[..n], rounds[n], a[n], b[n]);
    }
  }

  lemma OneChoice(sent: seq<Choice>, w: Waits, a: Choice, b: Choice)
    requires Chosen(sent, w, a) && Chosen(sent, w, b)
    ensures a == b
  {
  }

  /** A LOW packet that comes when three to 255 NORMAL ones have gone since the last LOW one is sent at once; from
      256 on the 8-bit counter starts again. */
  lemma LowAtOnce(rounds: seq<Waits>, w: Waits)
    requires w.low
    ensures var picks := Picks(Streaks(0, 0), rounds).0;
      NormalsSinceLow(picks) % 256 >= 3 ==> Picks(Streaks(0, 0), rounds + [w]).0 == picks + [Low]
  {
    hide Picks, HighsInARow, NormalsSinceLow;
    NextChosen(rounds, w);
    PicksMore(Streaks(0, 0), rounds, w);
  }

  /** lora_tx_task for as many rounds as are given, from counters at zero. */
  method Arbitrate(rounds: seq<Waits>) returns (picks: seq<Choice>)
    ensures picks == Picks(Streaks(0, 0), rounds).0
    ensures |picks| == |rounds| && forall i :: 0 <= i < |rounds| ==> Chosen(picks[..i], rounds[i], picks[i])
  {
    hide Picks, Chosen;
    var high, normal: byte := 0, 0;
    picks := [];
    NoPicks();
    for i := 0 to |rounds|
      invariant Picks(Streaks(0, 0), rounds[..i]) == (picks, Streaks(high, normal))
      invariant |picks| == i && forall k :: 0 <= k < i ==> Chosen(picks[..k], rounds[k], picks[k])
    {
      var w := rounds[i];
      NextChosen(rounds[..i], w);
      assert rounds[..i + 1] == rounds[..i] + [w];
      PicksMore(Streaks(0, 0), rounds[..i], w);
      var picked := Idle;
      if w.low && (high >= 4 || normal >= 3) {
        picked := Low;
        high, normal := 0, 0;
      } else if w.normal && high >= 4 {
        picked := Normal;
        high := 0;
        normal := Bump(normal);
      } else if w.high {
        picked := High;
        high := Bump(high);
      } else if w.normal {
        picked := Normal;
        high := 0;
        normal := Bump(normal);
      } else if w.low {
        picked := Low;
        high, normal := 0, 0;
      }
      ghost var before := picks;
      picks := picks + [picked];
      assert forall k :: 0 <= k <= i ==> picks[..k] == before[..k];
      assert before[..i] == before;
    }
    assert rounds[..|rounds|] == rounds;
  }

  lemma NoPicks()
    ensures forall s :: Picks(s, []) == ([], s)
  {
  }

  // Bounded waiting

  ghost predicate Never(c: Choice, s: Streaks, rounds: seq<Waits>) {
    forall i :: 0 <= i < |rounds| ==> Picks(s, rounds).0[i] != c
  }

  lemma NeverTail(c: Choice, s: Streaks, rounds: seq<Waits>)
    requires rounds != [] && Never(c, s, rounds)
    ensures Pick(s, rounds[0]).0 != c && Never(c, Pick(s, rounds[0]).1, rounds[1..])
  {
    hide Pick;
    var (p, s') := Pick(s, rounds[0]);
    var rest := Picks(s', rounds[1..]).0;
    assert Picks(s, rounds).0[0] == p;
    forall i | 0 <= i < |rounds| - 1
      ensures rest[i] != c
    {
      assert Picks(s, rounds).0[i + 1] == rest[i];
    }
  }

  /** How many more rounds LOW can be passed over. */
  function Patience(s: Streaks): nat {
    if s.high >= 4 || s.normal >= 3 then 0 else 4 * (3 - s.normal) - s.high
  }

  /** From any counters and with any arrivals, a waiting LOW queue is passed over at most 12 times. */
  lemma {:induction false} LowPassedOver(s: Streaks, rounds: seq<Waits>)
    requires (forall i :: 0 <= i < |rounds| ==> rounds[i].low) && Never(Low, s, rounds)
    ensures |rounds| <= Patience(s) <= 12
    decreases |rounds|
  {
    if rounds != [] {
      NeverTail(Low, s, rounds);
      LowPassedOver(Pick(s, rounds[0]).1, rounds[1..]);
    }
  }

  /** The bound is reached from the counters at the start: three HIGH and one NORMAL, three times over. */
  lemma TwelveReached() returns (rounds: seq<Waits>)
    ensures |rounds| == 12 && (forall i :: 0 <= i < 12 ==> rounds[i].low) && Never(Low, Streaks(0, 0), rounds)
  {
    var h, n := Waits(true, false, true), Waits(false, true, true);
    var turn := [h, h, h, n];
    Turn(0);
    Turn(1);
    Turn(2);
    rounds := turn + (turn + turn);
    var first, second := Picks(Streaks(0, 0), turn), Picks(Streaks(0, 1), turn);
    PicksJoin(Streaks(0, 1), turn, turn);
    PicksJoin(Streaks(0, 0), turn, turn + turn);
  }

  lemma Turn(normal: byte)
    requires normal < 3
    ensures var h, n := Waits(true, false, true), Waits(false, true, true);
      Picks(Streaks(0, normal), [h, h, h, n]) == ([High, High, High, Normal], Streaks(0, normal + 1))
  {
    var h, n := Waits(true, false, true), Waits(false, true, true);
    NoPicks();
    PicksFirst(Streaks(3, normal), n, []);
    assert [n] + [] == [n] && [Normal] + [] == [Normal];
    PicksFirst(Streaks(2, normal), h, [n]);
    PicksFirst(Streaks(1, normal), h, [h, n]);
    PicksFirst(Streaks(0, normal), h, [h, h, n]);
    assert [h] + [n] == [h, n] && [h] + [h, n] == [h, h, n] && [h] + [h, h, n] == [h, h, h, n];
    assert [High] + [Normal] == [High, Normal] && [High] + [High, Normal] == [High, High, Normal];
    assert [High] + [High, High, Normal] == [High, High, High, Normal];
  }

  lemma PicksFirst(s: Streaks, w: Waits, rest: seq<Waits>)
    ensures var (c, s') := Pick(s, w);
      Picks(s, [w] + rest) == ([c] + Picks(s', rest).0, Picks(s', rest).1)
  {
    assert ([w] + rest)[1..] == rest;
  }

  lemma {:induction false} PicksJoin(s: Streaks, a: seq<Waits>, b: seq<Waits>)
    ensures Picks(s, a + b).0 == Picks(s, a).0 + Picks(Picks(s, a).1, b).0
    ensures Picks(s, a + b).1 == Picks(Picks(s, a).1, b).1
    decreases |a|
  {
    hide Pick;
    if a == [] {
      assert [] + b == b;
    } else {
      assert (a + b)[1..] == a[1..] + b;
      PicksJoin(Pick(s, a[0]).1, a[1..], b);
    }
  }

  /** How many more rounds HIGH can be passed over. */
  function HighPatience(s: Streaks): nat {
    if s.high >= 4 then 2 else if s.normal >= 3 then 1 else 0
  }

  /** A waiting HIGH queue is passed over at most twice. */
  lemma {:induction false} HighPassedOver(s: Streaks, rounds: seq<Waits>)
    requires (forall i :: 0 <= i < |rounds| ==> rounds[i].high) && Never(High, s, rounds)
    ensures |rounds| <= HighPatience(s) <= 2
    decreases |rounds|
  {
    if rounds != [] {
      NeverTail(High, s, rounds);
      HighPassedOver(Pick(s, rounds[0]).1, rounds[1..]);
    }
  }

  // NORMAL has no such bound: the LOW branch takes the turn that four HIGH packets earn it

  function Phase(s: Streaks): nat {
    if s.high >= 4 then 4 else s.high
  }

  /** The arrivals that starve NORMAL, from a round on in which `phase` HIGH packets have gone out in
      a row: LOW waits in every fifth round, when NORMAL's turn comes, and HIGH in all the others. */
  predicate Starving(phase: nat, rounds: seq<Waits>) {
    forall i :: 0 <= i < |rounds| ==> if (phase + i) % 5 == 4 then rounds[i].low else rounds[i].high
  }

  lemma StarvingTail(phase: nat, rounds: seq<Waits>)
    requires rounds != [] && phase <= 4
    ensures Starving(phase, rounds) <==>
        (if phase == 4 then rounds[0].low else rounds[0].high) && Starving((phase + 1) % 5, rounds[1..])
  {
    var next, rest := (phase + 1) % 5, rounds[1..];
    if Starving(phase, rounds) {
      forall i | 0 <= i < |rest|
        ensures if (next + i) % 5 == 4 then rest[i].low else rest[i].high
      {
        assert rest[i] == rounds[i + 1] && (next + i) % 5 == (phase + (i + 1)) % 5;
      }
    }
    if Starving(next, rest) && (if phase == 4 then rounds[0].low else rounds[0].high) {
      forall i | 0 <= i < |rounds|
        ensures if (phase + i) % 5 == 4 then rounds[i].low else rounds[i].high
      {
        assert i > 0 ==> rounds[i] == rest[i - 1] && (next + (i - 1)) % 5 == (phase + i) % 5;
      }
    }
  }

  lemma NeverFirst(c: Choice, s: Streaks, rounds: seq<Waits>)
    requires rounds != []
    ensures Never(c, s, rounds) <==> Pick(s, rounds[0]).0 != c && Never(c, Pick(s, rounds[0]).1, rounds[1..])
  {
    hide Pick;
    if Never(c, s, rounds) {
      NeverTail(c, s, rounds);
    }
    assert Picks(s, rounds).0 == [Pick(s, rounds[0]).0] + Picks(Pick(s, rounds[0]).1, rounds[1..]).0;
  }

  /** A NORMAL queue that waits throughout is never served exactly when the arrivals starve it. */
  lemma {:induction false} NormalStarvesIff(s: Streaks, rounds: seq<Waits>)
    requires s.normal < 3 && forall i :: 0 <= i < |rounds| ==> rounds[i].normal
    ensures Never(Normal, s, rounds) <==> Starving(Phase(s), rounds)
    decreases |rounds|
  {
    hide Never, Starving;
    if rounds == [] {
      NothingPicked(Normal, s);
    } else {
      NeverFirst(Normal, s, rounds);
      StarvingTail(Phase(s), rounds);
      var (c, s') := Pick(s, rounds[0]);
      if c != Normal {
        NormalStarvesIff(s', rounds[1..]);
      }
    }
  }

  lemma NothingPicked(c: Choice, s: Streaks)
    ensures Never(c, s, []) && forall phase :: Starving(phase, [])
  {
  }

  /** The first round in which LOW waits. */
  function FirstLow(rounds: seq<Waits>): (f: nat)
    ensures f <= |rounds| && (f < |rounds| ==> rounds[f].low) && forall i :: 0 <= i < f ==> !rounds[i].low
  {
    if rounds == [] || rounds[0].low then 0 else 1 + FirstLow(rounds[1..])
  }

  /** After three NORMAL packets in a row the first LOW packet goes out at once, and the count of five
      starts behind it; before it HIGH has to wait, and not for longer than its streak lasts. */
  lemma {:induction false} NormalStarvesLateIff(s: Streaks, rounds: seq<Waits>)
    requires s.normal >= 3 && forall i :: 0 <= i < |rounds| ==> rounds[i].normal
    ensures var f := FirstLow(rounds);
      Never(Normal, s, rounds) <==>
        && (forall i :: 0 <= i < f ==> rounds[i].high) && f <= 4 - Phase(s)
        && (f < |rounds| ==> Starving(0, rounds[f + 1..]))
    decreases |rounds|
  {
    hide Never, Starving;
    if rounds == [] {
      NothingPicked(Normal, s);
    } else {
      NeverFirst(Normal, s, rounds);
      var (c, s') := Pick(s, rounds[0]);
      var rest := rounds[1..];
      if rounds[0].low {
        NormalStarvesIff(s', rest);
      } else {
        var f := FirstLow(rest);
        assert f < |rest| ==> rounds[f + 2..] == rest[f + 1..];
        if c == High {
          NormalStarvesLateIff(s', rest);
          assert forall i :: 0 < i < f + 1 ==> rounds[i] == rest[i - 1];
          assert forall i :: 0 <= i < f ==> rest[i] == rounds[i + 1];
        }
      }
    }
  }

  lemma StarvingNeedsLow(phase: nat, rounds: seq<Waits>)
    requires phase <= 4 && Starving(phase, rounds)
    ensures |rounds| > 4 - phase ==> rounds[4 - phase].low
  {
  }

  /** While LOW never waits NORMAL is passed over at most four times, whatever the counters were. */
  lemma NormalWithoutLow(s: Streaks, rounds: seq<Waits>)
    requires (forall i :: 0 <= i < |rounds| ==> rounds[i].normal && !rounds[i].low) && Never(Normal, s, rounds)
    ensures |rounds| <= 4 - Phase(s)
  {
    if s.normal >= 3 {
      NormalStarvesLateIff(s, rounds);
      assert FirstLow(rounds) == |rounds|;
    } else {
      NormalStarvesIff(s, rounds);
      StarvingNeedsLow(Phase(s), rounds);
    }
  }
}
