/** Bytes, 32-bit words and C strings, with the `copy_field` filter that every table of the node stores
    names through. */
module CText {

  type byte = x: int | 0 <= x < 0x100
  type uint32 = x: int | 0 <= x < 0x1_0000_0000

  /** The characters of a C string before its terminating NUL. */
  type Text = seq<byte>

  /** `FIELD_LEN - 1`: the longest name a 32-byte field can hold. */
  const NAME_MAX := 31

  predicate Printable(c: byte) {
    32 <= c <= 126
  }

  /** What `copy_field` leaves in a destination with room for `room` characters. */
  function CopyField(s: Text, room: nat): (r: Text)
    ensures |r| <= room
    ensures forall c <- r :: Printable(c) && c in s
  {
    if s == [] || room == 0 then []
    else if Printable(s[0]) then [s[0]] + CopyField(s[1..], room - 1)
    else CopyField(s[1..], room)
  }

  /** A name that a 32-byte field stores as it is. */
  predicate Clean(s: Text) {
    |s| <= NAME_MAX && forall c <- s :: Printable(c)
  }

  lemma {:induction false} CopyFieldKeepsPrintable(s: Text, room: nat)
    requires |s| <= room && forall c <- s :: Printable(c)
    ensures CopyField(s, room) == s
  {
    if s != [] {
      assert s[0] in s;
      CopyFieldKeepsPrintable(s[1..], room - 1);
    }
  }

  /** A field stores a name unchanged exactly when the name is clean: the strcmp of a
      stored copy with the raw name succeeds for clean names and for no others. */
  lemma StoredIffClean(s: Text)
    ensures CopyField(s, NAME_MAX) == s <==> Clean(s)
  {
    if Clean(s) {
      CopyFieldKeepsPrintable(s, NAME_MAX);
    }
  }

  /** 32-bit subtraction. */
  function Minus(a: int, b: int): (d: uint32)
    ensures 0 <= a - b < 0x8000_0000 ==> d == a - b
    ensures -0x8000_0000 <= a - b < 0 ==> d >= 0x8000_0000
  {
    (a - b) % 0x1_0000_0000
  }

  /** A little-endian 32-bit word. */
  function Word(data: seq<byte>, off: nat): (w: uint32)
    requires off + 4 <= |data|
  {
    var b0: int, b1: int, b2: int, b3: int := data[off], data[off + 1], data[off + 2], data[off + 3];
    b0 + 0x100 * b1 + 0x1_0000 * b2 + 0x100_0000 * b3
  }

  function WordBytes(w: uint32): (b: seq<byte>)
    ensures |b| == 4 && Word(b, 0) == w
  {
    var high1 := w / 0x100;
    var high2 := high1 / 0x100;
    [w % 0x100, high1 % 0x100, high2 % 0x100, high2 / 0x100]
  }
}
