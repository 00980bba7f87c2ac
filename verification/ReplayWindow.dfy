/** The sliding replay window of one source: 32-bit sequence numbers that wrap, and a 32-bit bitmap. */
module ReplayWindow {
  import opened CText

  const WINDOW := 32
  const HALF := 0x8000_0000
  const MODULUS := 0x1_0000_0000

  /** sequence_is_newer: the serial comparison of section 3.2 of RFC 1982. */
  predicate Newer(a: uint32, b: uint32) {
    a != b && Minus(a, b) < HALF
  }

  /** A 32-bit word as its bits, the lowest first. */
  type Bits = b: seq<bool> | |b| == WINDOW witness seq(WINDOW, _ => false)

  /** `(bits << d) | 1`; with d == WINDOW or more only the low bit is left, as the code sets it. */
  function Shifted(bits: Bits, d: nat): (r: Bits)
    requires d > 0
    ensures forall i :: 0 <= i < WINDOW ==> r[i] == (i == 0 || (i >= d && bits[i - d]))
  {
    seq(WINDOW, i requires 0 <= i < WINDOW => i == 0 || (i >= d && bits[i - d]))
  }

  /** Highest sequence number accepted, and which of the 32 numbers down from it were. */
  datatype Window = Window(highest: uint32, bits: Bits) {

    /** accept_new_sequence */
    function AcceptNew(s: uint32): (Window, bool) {
      var delta := Minus(s, highest);
      if delta == 0 || delta >= HALF then (this, false) else (Window(s, Shifted(bits, delta)), true)
    }

    /** accept_older_sequence */
    function AcceptOlder(s: uint32): (Window, bool) {
      var diff := Minus(highest, s);
      if diff >= WINDOW || bits[diff] then (this, false) else (this.(bits := bits[diff := true]), true)
    }

    /** The window's part of replay_protection_accept. */
    function Accept(s: uint32): (Window, bool) {
      if Newer(s, highest) then AcceptNew(s)
      else if Newer(highest, s) then AcceptOlder(s)
      else (this, false)
    }

    /** The window of a source heard for the first time. */
    static function First(s: uint32): Window {
      Window(s, seq(WINDOW, i => i == 0))
    }
  }

  /** All the numbers accepted from a source since it was allocated, in order, and the highest of
      them, as numbers that do not wrap. */
  datatype History = History(highest: int, accepted: seq<int>) {
    ghost predicate Sound() {
      && highest in accepted
      && (forall a <- accepted :: a <= highest)
      && forall i, j :: 0 <= i < j < |accepted| ==> accepted[i] != accepted[j]
    }

    /** The number that `s` stands for: the one nearest to the highest. */
    function Lift(s: uint32): int {
      var ahead := (s - highest) % 0x1_0000_0000;
      if ahead < 0x8000_0000 then highest + ahead else highest + ahead - 0x1_0000_0000
    }

    /** The rule the window is for: a number is fresh if it is above the highest, or one of the 32
        numbers down from it and not accepted before. Exactly half way around is neither. */
    predicate Fresh(s: uint32) {
      Lift(s) > highest || (Lift(s) > highest - 32 && Lift(s) !in accepted)
    }

    function Accept(s: uint32): History {
      if !Fresh(s) then this
      else History(if Lift(s) > highest then Lift(s) else highest, accepted + [Lift(s)])
    }

    static function First(s: uint32): History {
      History(s, [s])
    }
  }

  /** Bit i of the window is set exactly when the number i below the highest has been accepted. */
  ghost predicate Tracks(w: Window, h: History) {
    && h.Sound() && w.highest == h.highest % MODULUS
    && forall i :: 0 <= i < WINDOW ==> (w.bits[i] <==> h.highest - i in h.accepted)
  }

  lemma FirstTracks(s: uint32)
    ensures Tracks(Window.First(s), History.First(s))
  {
  }

  lemma LiftWraps(h: History, s: uint32)
    ensures h.Lift(s) % MODULUS == s && -HALF <= h.Lift(s) - h.highest < HALF
  {
  }

  lemma Residue(q: int, d: int)
    requires 0 <= d < MODULUS
    ensures (MODULUS * q + d) % MODULUS == d
  {
  }

  lemma SubLifted(s: uint32, h: int)
    ensures Minus(s, h % MODULUS) == (s - h) % MODULUS
    ensures Minus(h % MODULUS, s) == (h - s) % MODULUS
  {
    var q, r := h / MODULUS, h % MODULUS;
    if s >= r {
      Residue(-q, s - r);
    } else {
      Residue(-q - 1, s - r + MODULUS);
    }
    if r >= s {
      Residue(q, r - s);
    } else {
      Residue(q - 1, r - s + MODULUS);
    }
  }

  lemma SubIsDistance(h: History, s: uint32)
    ensures var d := h.Lift(s) - h.highest;
      && (d >= 0 ==> Minus(s, h.highest % MODULUS) == d)
      && (d < 0 ==> Minus(h.highest % MODULUS, s) == -d)
      && (Newer(s, h.highest % MODULUS) <==> d > 0)
      && (Newer(h.highest % MODULUS, s) <==> -HALF < d < 0)
  {
    hide Minus;
    SubLifted(s, h.highest);
  }

  lemma AcceptedGrows(h: History, n: int)
    requires h.Sound() && n !in h.accepted
    ensures History(if n > h.highest then n else h.highest, h.accepted + [n]).Sound()
    ensures forall m :: m in h.accepted + [n] <==> m == n || m in h.accepted
  {
    assert (h.accepted + [n])[|h.accepted|] == n;
  }

  lemma ShiftTracks(w: Window, h: History, s: uint32, d: nat)
    requires Tracks(w, h) && d > 0 && s == (h.highest + d) % MODULUS
    ensures Tracks(Window(s, Shifted(w.bits, d)), History(h.highest + d, h.accepted + [h.highest + d]))
  {
    hide Shifted;
    AcceptedGrows(h, h.highest + d);
    forall i | 0 <= i < WINDOW
      ensures Shifted(w.bits, d)[i] <==> h.highest + d - i in h.accepted + [h.highest + d]
    {
      assert i >= d ==> (w.bits[i - d] <==> h.highest - (i - d) in h.accepted);
    }
  }

  lemma MarkTracks(w: Window, h: History, d: nat)
    requires Tracks(w, h) && 0 < d < WINDOW && !w.bits[d]
    ensures Tracks(w.(bits := w.bits[d := true]), h.(accepted := h.accepted + [h.highest - d]))
  {
    AcceptedGrows(h, h.highest - d);
  }

  /** The bitmap decides exactly as the unbounded history does, and keeps tracking it; so no number
      is ever accepted twice. */
  lemma AcceptExact(w: Window, h: History, s: uint32)
    requires Tracks(w, h)
    ensures w.Accept(s).1 <==> h.Fresh(s)
    ensures Tracks(w.Accept(s).0, h.Accept(s))
    ensures h.Fresh(s) ==> h.Lift(s) !in h.accepted
  {
    hide Minus, Shifted, History.Lift;
    LiftWraps(h, s);
    SubIsDistance(h, s);
    var d := h.Lift(s) - h.highest;
    if d > 0 {
      ShiftTracks(w, h, s, d);
    } else if -WINDOW < d < 0 {
      assert w.bits[-d] <==> h.highest - (-d) in h.accepted;
      if !w.bits[-d] {
        MarkTracks(w, h, -d);
      }
    }
  }

  /** The same 32-bit number is accepted twice only when the numbers it stood for are a full turn apart. */
  lemma ReuseIsAFullTurn(h: History, s: uint32, old_: int)
    requires h.Sound() && h.Fresh(s) && old_ in h.accepted && old_ % MODULUS == s
    ensures h.Lift(s) >= old_ + MODULUS
  {
    LiftWraps(h, s);
  }
}
