/** The hash of `seen_hash`. The table's proof uses only that it is a function into the 64 buckets. */
module DedupHash {
  import opened CText

  datatype Key = Key(source: Text, id: uint32)

  const BUCKETS := 64

  /** One FNV-1a step. */
  function Mix(hash: bv32, x: bv32): bv32 {
    (hash ^ x) * 16777619
  }

  function HashText(s: Text, hash: bv32): bv32 {
    if s == [] then hash else HashText(s[1..], Mix(hash, s[0] as bv32))
  }

  /** FNV-1a over the name, then the id folded in twice. */
  function SeenHash(k: Key): bv32 {
    var id := k.id as bv32;
    Mix(Mix(HashText(k.source, 2166136261), id), id >> 16)
  }

  function SeenBucket(k: Key): (b: nat)
    ensures b < BUCKETS
  {
    SeenHash(k) as int % BUCKETS
  }

  /** Why names have to be clean: insertion hashes the name as it is given, removal the stored copy, and
      for "A\x01" and its copy "A" these are different chains. */
  lemma UncleanChangesChain()
    ensures CopyField([65, 1], NAME_MAX) == [65]
    ensures SeenBucket(Key([65, 1], 1)) == 38 && SeenBucket(Key([65], 1)) == 21
  {
    HashA();
    HashUnclean();
    Bucket([65, 1], 1809155255, 155069094);
    Bucket([65], 3289118412, 2015357973);
  }

  lemma HashA()
    ensures forall rest: Text :: HashText([65] + rest, 2166136261) == HashText(rest, 3289118412)
  {
    hide HashText;
    forall rest: Text
      ensures HashText([65] + rest, 2166136261) == HashText(rest, 3289118412)
    {
      First(65, rest, 2166136261, 65);
    }
    assert Mix(2166136261, 65) == 3289118412;
  }

  lemma First(c: byte, rest: Text, hash: bv32, x: bv32)
    requires c as bv32 == x
    ensures HashText([c] + rest, hash) == HashText(rest, Mix(hash, x))
  {
    hide Mix;
    assert ([c] + rest)[1..] == rest;
  }

  lemma HashUnclean()
    ensures HashText([65, 1], 2166136261) == 1809155255 && HashText([65], 2166136261) == 3289118412
    ensures CopyField([65, 1], NAME_MAX) == [65]
  {
    hide HashText;
    HashA();
    assert [65] + [1] == [65, 1] && [65] + [] == [65] && [1] + [] == [1];
    First(1, [], 3289118412, 1);
    assert Mix(3289118412, 1) == 1809155255;
    HashNothing();
  }

  /** "A\\x08" hashes to the same chain as its copy. */
  lemma HashBackspace()
    ensures CopyField([65, 8], NAME_MAX) == [65] && SeenBucket(Key([65, 8], 1)) == 21
  {
    HashEight();
    Bucket([65, 8], 1658156684, 522637781);
  }

  lemma HashEight()
    ensures HashText([65, 8], 2166136261) == 1658156684 && CopyField([65, 8], NAME_MAX) == [65]
  {
    hide HashText;
    HashA();
    assert [65] + [8] == [65, 8] && [8] + [] == [8];
    First(8, [], 3289118412, 8);
    assert Mix(3289118412, 8) == 1658156684;
    HashNothing();
  }

  lemma HashNothing()
    ensures forall h :: HashText([], h) == h
  {
  }

  lemma Bucket(name: Text, text: bv32, hash: bv32)
    requires HashText(name, 2166136261) == text && Mix(Mix(text, 1), 0) == hash
    ensures SeenBucket(Key(name, 1)) == hash as int % BUCKETS
  {
    hide HashText, Mix;
    assert (1 as bv32) >> 16 == 0;
  }
}
