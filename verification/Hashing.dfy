/**
 Trie keys and their nibbles, 32-byte hashes and their XOR, the nodes kept in
 the store and the hash each of them is stored under.
 */
module Hashing {
  import opened Basics

  type Hash32 = s: Bytes | |s| == 32 witness seq(32, i => 0)

  type Nibble = n: nat | n < 16
  type Nibbles = seq<Nibble>

  /** A 32-byte trie key. */
  type Key = s: Bytes | |s| == 32 witness seq(32, i => 0)

  function HighNibble(b: bv8): Nibble { (b >> 4) as int }
  function LowNibble(b: bv8): Nibble { (b & 0x0F) as int }

  lemma {:induction false} NibblesFixByte(a: bv8, b: bv8)
    requires HighNibble(a) == HighNibble(b) && LowNibble(a) == LowNibble(b)
    ensures a == b
  {
    assert a >> 4 == b >> 4 && a & 0x0F == b & 0x0F;
  }

  function ByteNibbles(key: Bytes): (n: Nibbles)
    ensures |n| == 2 * |key|
    ensures forall i | 0 <= i < |key| :: n[2 * i] == HighNibble(key[i]) && n[2 * i + 1] == LowNibble(key[i])
  {
    if key == [] then [] else
      ByteNibbles(key[..|key| - 1]) + [HighNibble(key[|key| - 1]), LowNibble(key[|key| - 1])]
  }

  function KeyToNibbles(key: Key): (n: Nibbles)
    ensures |n| == 64
  {
    ByteNibbles(key)
  }

  lemma {:induction false} KeyToNibblesInjective(a: Key, b: Key)
    requires KeyToNibbles(a) == KeyToNibbles(b)
    ensures a == b
  {
    var m, n := ByteNibbles(a), ByteNibbles(b);
    forall i | 0 <= i < 32 ensures a[i] == b[i] {
      assert m[2 * i] == n[2 * i] && m[2 * i + 1] == n[2 * i + 1];
      NibblesFixByte(a[i], b[i]);
    }
  }

  // ---------------------------------------------------------------- hashes

  function Zero(): Hash32 { seq(32, i => 0) }

  function Xor(a: Hash32, b: Hash32): (r: Hash32)
    ensures forall i | 0 <= i < 32 :: r[i] == a[i] ^ b[i]
  {
    seq(32, i requires 0 <= i < 32 => a[i] ^ b[i])
  }

  lemma {:induction false} XorSwapLast(a: Hash32, b: Hash32, c: Hash32)
    ensures Xor(Xor(a, b), c) == Xor(Xor(a, c), b)
  {
    forall i | 0 <= i < 32 ensures Xor(Xor(a, b), c)[i] == Xor(Xor(a, c), b)[i] {
      assert a[i] ^ b[i] ^ c[i] == a[i] ^ c[i] ^ b[i];
    }
  }

  lemma {:induction false} XorZero(a: Hash32)
    ensures Xor(a, Zero()) == a
  {
    forall i | 0 <= i < 32 ensures Xor(a, Zero())[i] == a[i] { assert a[i] ^ 0 == a[i]; }
  }

  lemma {:induction false} XorCancel(a: Hash32, b: Hash32, c: Hash32)
    requires Xor(a, b) == Xor(a, c)
    ensures b == c
  {
    forall i | 0 <= i < 32 ensures b[i] == c[i] {
      assert Xor(a, b)[i] == Xor(a, c)[i];
      assert a[i] ^ (a[i] ^ b[i]) == b[i] && a[i] ^ (a[i] ^ c[i]) == c[i];
    }
  }

  lemma {:induction false} XorComm(a: Hash32, b: Hash32)
    ensures Xor(a, b) == Xor(b, a)
  {
    forall i | 0 <= i < 32 ensures Xor(a, b)[i] == Xor(b, a)[i] { assert a[i] ^ b[i] == b[i] ^ a[i]; }
  }

  // ----------------------------------------------------------------- nodes

  type Slots = s: seq<Option<Hash32>> | |s| == 16 witness seq(16, i => None)

  function NoSlots(): Slots { seq(16, i => None) }

  datatype Node =
    | LeafNode(suffix: Nibbles, value: Bytes)
    | ExtNode(prefix: Nibbles, child: Hash32)
    | BranchNode(children: Slots, slot: Option<Bytes>)

  /** The library functions the trie is built on: BLAKE3 and the bincode serialiser. */
  datatype Lib = Lib(blake: Bytes -> Hash32, bincode: Node -> Bytes)

  /** bincode gives different nodes different bytes. */
  ghost predicate Faithful(lib: Lib) {
    forall m, n :: lib.bincode(m) == lib.bincode(n) ==> m == n
  }

  /** Two different inputs with the same BLAKE3 hash. */
  ghost predicate Collide(lib: Lib, x: Bytes, y: Bytes) {
    x != y && lib.blake(x) == lib.blake(y)
  }

  function OrZero(h: Option<Hash32>): Hash32 {
    if h.Some? then h.value else Zero()
  }

  /** XOR of the hashes present in `hs`. */
  function XorSlots(hs: seq<Option<Hash32>>): Hash32 {
    if hs == [] then Zero()
    else
      var x := XorSlots(hs[..|hs| - 1]);
      if hs[|hs| - 1].Some? then Xor(x, hs[|hs| - 1].value) else x
  }

  function XorValue(lib: Lib, x: Hash32, slot: Option<Bytes>): Hash32 {
    if slot.Some? then Xor(x, lib.blake(slot.value)) else x
  }

  /** The ASCII bytes of "BRANCH". */
  const BRANCH_TAG: Bytes := [0x42, 0x52, 0x41, 0x4E, 0x43, 0x48]

  function BranchHash(lib: Lib, x: Hash32): Hash32 {
    lib.blake(BRANCH_TAG + x)
  }

  function NodeHash(lib: Lib, n: Node): Hash32 {
    match n
    case BranchNode(cs, slot) => BranchHash(lib, XorValue(lib, XorSlots(cs), slot))
    case _ => lib.blake(lib.bincode(n))
  }

  /** The XOR of all slots is the XOR of all but one of them, and that one. */
  lemma {:induction false} XorSplit(hs: seq<Option<Hash32>>, i: nat)
    requires i < |hs|
    ensures XorSlots(hs) == Xor(XorSlots(hs[i := None]), OrZero(hs[i]))
  {
    var n := |hs| - 1;
    var x := XorSlots(hs[..n]);
    if i == n {
      assert hs[i := None][..n] == hs[..n];
      XorZero(x);
    } else {
      XorSplit(hs[..n], i);
      assert hs[i := None][..n] == hs[..n][i := None];
      if hs[n].Some? { XorSwapLast(XorSlots(hs[..n][i := None]), OrZero(hs[i]), hs[n].value); }
    }
  }
}
