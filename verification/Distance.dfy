/** XOR distance between node ids, its order, and the bucket it selects. */
module Distance {
  import opened Basics
  import opened Hashing

  type NodeID = Hash32

  const NBUCKETS := 256

  function Pow2(n: nat): nat {
    if n == 0 then 1 else 2 * Pow2(n - 1)
  }

  lemma {:induction false} Pow2Byte(n: nat)
    ensures Pow2(n + 8) == 256 * Pow2(n)
  {
    assert Pow2(n + 2) == 4 * Pow2(n) && Pow2(n + 4) == 4 * Pow2(n + 2);
    assert Pow2(n + 6) == 4 * Pow2(n + 4) && Pow2(n + 8) == 4 * Pow2(n + 6);
  }

  /** `b` followed by `n` zero bytes. */
  function Shift(b: nat, n: nat): nat {
    if n == 0 then b else 256 * Shift(b, n - 1)
  }

  lemma {:induction false} ShiftOrder(b: nat, c: nat, n: nat)
    ensures b < c ==> Shift(b, n) + Shift(1, n) <= Shift(c, n)
    ensures b <= c ==> Shift(b, n) <= Shift(c, n)
  {
    if n > 0 { ShiftOrder(b, c, n - 1); }
  }

  lemma {:induction false} ShiftByte(b: nat, n: nat)
    ensures Shift(256 * b, n) == Shift(b, n + 1)
  {
    if n > 0 { ShiftByte(b, n - 1); }
  }

  lemma {:induction false} ShiftPow2(m: nat, n: nat)
    ensures Shift(Pow2(m), n) == Pow2(m + 8 * n)
  {
    if n > 0 {
      ShiftPow2(m, n - 1);
      Pow2Byte(m + 8 * (n - 1));
    }
  }

  /** A byte string as a big-endian number. */
  function Value(s: Bytes): nat {
    if s == [] then 0 else Shift(s[0] as nat, |s| - 1) + Value(s[1..])
  }

  lemma {:induction false} ValueBound(s: Bytes)
    ensures Value(s) < Shift(1, |s|)
  {
    if s != [] {
      ValueBound(s[1..]);
      ShiftOrder(s[0] as nat, 256, |s| - 1);
      ShiftByte(1, |s| - 1);
    }
  }

  /** How the source compares distances: byte by byte from the front. */
  predicate LexLess(a: Bytes, b: Bytes)
    requires |a| == |b|
  {
    a != [] && (a[0] < b[0] || (a[0] == b[0] && LexLess(a[1..], b[1..])))
  }

  lemma {:induction false} LexIsNumeric(a: Bytes, b: Bytes)
    requires |a| == |b|
    ensures LexLess(a, b) <==> Value(a) < Value(b)
    ensures Value(a) == Value(b) ==> a == b
  {
    if a != [] {
      ByteOrder(a[0], b[0]);
      if a[0] == b[0] {
        LexIsNumeric(a[1..], b[1..]);
        assert a == [a[0]] + a[1..] && b == [b[0]] + b[1..];
      } else if a[0] < b[0] {
        HeadDecides(a, b);
      } else {
        HeadDecides(b, a);
      }
    }
  }

  lemma {:induction false} ByteOrder(x: bv8, y: bv8)
    ensures x < y <==> x as nat < y as nat
    ensures x == y <==> x as nat == y as nat
  {
  }

  lemma {:induction false} HeadDecides(a: Bytes, b: Bytes)
    requires |a| == |b| && a != [] && a[0] as nat < b[0] as nat
    ensures Value(a) < Value(b)
  {
    ValueBound(a[1..]);
    ShiftOrder(a[0] as nat, b[0] as nat, |a| - 1);
  }

  function Dist(a: NodeID, b: NodeID): nat {
    Value(Xor(a, b))
  }

  /** Different nodes are at different distances from any target. */
  lemma {:induction false} DistInjective(a: NodeID, b: NodeID, target: NodeID)
    requires Dist(a, target) == Dist(b, target)
    ensures a == b
  {
    LexIsNumeric(Xor(a, target), Xor(b, target));
    XorComm(a, target);
    XorComm(b, target);
    XorCancel(target, a, b);
  }

  // -------------------------------------------------------------- buckets

  function LeadingZeros(b: bv8): nat {
    var n := b as nat;
    if n >= 128 then 0 else if n >= 64 then 1 else if n >= 32 then 2 else if n >= 16 then 3
    else if n >= 8 then 4 else if n >= 4 then 5 else if n >= 2 then 6 else if n >= 1 then 7 else 8
  }

  /** Position of the first set bit from byte `i` on; the last bucket if there is none. */
  function BucketFrom(dist: NodeID, i: nat): (r: nat)
    requires i <= 32
    ensures r < NBUCKETS
    decreases 32 - i
  {
    if i == 32 then NBUCKETS - 1
    else if dist[i] != 0 then i * 8 + LeadingZeros(dist[i])
    else BucketFrom(dist, i + 1)
  }

  function BucketIndex(dist: NodeID): nat {
    BucketFrom(dist, 0)
  }

  lemma {:induction false} LeadingZerosBounds(b: bv8)
    requires b != 0
    ensures LeadingZeros(b) <= 7 && Pow2(7 - LeadingZeros(b)) <= b as nat < Pow2(8 - LeadingZeros(b))
  {
    assert b as nat != 0;
    assert Pow2(2) == 4 && Pow2(3) == 8 && Pow2(4) == 4 * Pow2(2) && Pow2(5) == 2 * Pow2(4);
    assert Pow2(6) == 4 * Pow2(4) && Pow2(7) == 2 * Pow2(6) && Pow2(8) == 4 * Pow2(6);
  }

  lemma {:induction false} BucketFromBounds(dist: NodeID, i: nat)
    requires i <= 32 && Value(dist[i..]) > 0
    ensures 8 * i <= BucketFrom(dist, i) < 256
    ensures Pow2(255 - BucketFrom(dist, i)) <= Value(dist[i..]) < Pow2(256 - BucketFrom(dist, i))
    decreases 32 - i
  {
    var s := dist[i..];
    assert s[1..] == dist[i + 1..];
    if dist[i] == 0 {
      ShiftZero(|s| - 1);
      BucketFromBounds(dist, i + 1);
    } else {
      LeadingByte(s, LeadingZeros(s[0]));
      assert |s| == 32 - i;
    }
  }

  lemma {:induction false} ShiftZero(n: nat)
    ensures Shift(0, n) == 0
  {
    if n > 0 { ShiftZero(n - 1); }
  }

  lemma {:induction false} LeadingByte(s: Bytes, z: nat)
    requires s != [] && s[0] != 0 && z == LeadingZeros(s[0])
    ensures z <= 7 && Pow2(8 * |s| - 1 - z) <= Value(s) < Pow2(8 * |s| - z)
  {
    LeadingZerosBounds(s[0]);
    LeadingBits(s, z);
  }

  lemma {:induction false} LeadingBits(s: Bytes, z: nat)
    requires s != [] && z <= 7 && Pow2(7 - z) <= s[0] as nat < Pow2(8 - z)
    ensures Pow2(8 * |s| - 1 - z) <= Value(s) < Pow2(8 * |s| - z)
  {
    var n := |s| - 1;
    ValueBound(s[1..]);
    ShiftOrder(Pow2(7 - z), s[0] as nat, n);
    ShiftOrder(s[0] as nat, Pow2(8 - z), n);
    ShiftPow2(7 - z, n);
    ShiftPow2(8 - z, n);
    assert 7 - z + 8 * n == 8 * |s| - 1 - z && 8 - z + 8 * n == 8 * |s| - z;
  }

  /** Bucket `i` holds exactly the ids whose distance has its highest set bit at position 255 - i. */
  lemma {:induction false} BucketRange(a: NodeID, b: NodeID)
    requires a != b
    ensures Pow2(255 - BucketIndex(Xor(a, b))) <= Dist(a, b) < Pow2(256 - BucketIndex(Xor(a, b)))
  {
    var d := Xor(a, b);
    assert d[0..] == d;
    if Value(d) == 0 {
      SelfDistance(a);
      LexIsNumeric(d, Xor(a, a));
      XorCancel(a, b, a);
    }
    BucketFromBounds(d, 0);
  }

  lemma {:induction false} SelfDistance(a: NodeID)
    ensures Dist(a, a) == 0
  {
    forall i | 0 <= i < 32 ensures Xor(a, a)[i] == 0 { assert a[i] ^ a[i] == 0; }
    ZeroValue(Xor(a, a));
  }

  lemma {:induction false} ZeroValue(s: Bytes)
    requires forall i | 0 <= i < |s| :: s[i] == 0
    ensures Value(s) == 0
  {
    if s != [] {
      ZeroValue(s[1..]);
      ShiftZero(|s| - 1);
    }
  }
}
