/**
 Four rows that the store cannot hold.  Their trie has two branches which differ only in the order of their
 children; those hash alike, so one replaces the other in the store, whatever the hash function.
 */
module Exchange {
  import opened Basics
  import opened Hashing
  import opened TrieShape
  import opened TrieHistory
  import opened TrieStore
  import M = MerklePatriciaTrie

  // ---------------------------------------------------- what can be stored

  /** `u` is `t` or stands somewhere below it. */
  ghost predicate Inside(u: Tree, t: Tree)
    requires WellFormed(t)
  {
    u != Empty && (u == t || match t
                             case Ext(_, c) => Inside(u, c)
                             case Branch(cs, _) => exists i :: 0 <= i < 16 && Inside(u, cs[i])
                             case _ => false)
  }

  lemma {:induction false} InsideWhole(u: Tree, t: Tree)
    requires WellFormed(t) && Whole(t) && Inside(u, t)
    ensures WellFormed(u) && Whole(u) && u != Empty && !u.Missing?
  {
    if u != t {
      match t
      case Ext(_, c) => InsideWhole(u, c);
      case Branch(cs, _) =>
        var i :| 0 <= i < 16 && Inside(u, cs[i]);
        InsideWhole(u, cs[i]);
    }
  }

  lemma {:induction false} InsideStored(lib: Lib, s: NodeMap, u: Tree, t: Tree)
    requires WellFormed(t) && Stored(lib, s, t) && Inside(u, t)
    ensures WellFormed(u) && Stored(lib, s, u)
  {
    if u != t {
      match t
      case Ext(_, c) => InsideStored(lib, s, u, c);
      case Branch(cs, _) =>
        var i :| 0 <= i < 16 && Inside(u, cs[i]);
        InsideStored(lib, s, u, cs[i]);
    }
  }

  /** `u` is a subtree of `t` with hash `h`. */
  ghost predicate Hashed(lib: Lib, u: Tree, t: Tree, h: Hash32)
    requires WellFormed(t)
  {
    Inside(u, t) && WellFormed(u) && HashOf(lib, u) == h
  }

  /** Every hash met on a walk is that of a subtree. */
  lemma {:induction false} HashedInside(lib: Lib, t: Tree, h: Hash32)
    requires WellFormed(t) && h in Hashes(lib, t)
    ensures exists u :: Hashed(lib, u, t, h)
    decreases t
  {
    if h == HashOf(lib, t) {
      assert Hashed(lib, t, t, h);
    } else {
      match t
      case Ext(_, c) =>
        HashedInside(lib, c, h);
        var u :| Hashed(lib, u, c, h);
        assert Hashed(lib, u, t, h);
      case Branch(cs, _) =>
        var i :| 0 <= i < 16 && h in Hashes(lib, cs[i]);
        HashedInside(lib, cs[i], h);
        var u :| Hashed(lib, u, cs[i], h);
        assert Hashed(lib, u, t, h);
    }
  }

  lemma {:induction false} InsideHashed(lib: Lib, u: Tree, t: Tree)
    requires WellFormed(t) && WellFormed(u) && Inside(u, t)
    ensures HashOf(lib, u) in Hashes(lib, t)
  {
    if u != t {
      match t
      case Ext(_, c) => InsideHashed(lib, u, c);
      case Branch(cs, _) =>
        var i :| 0 <= i < 16 && Inside(u, cs[i]);
        InsideHashed(lib, u, cs[i]);
    }
  }

  /** Different subtrees of `t` have different hashes. */
  ghost predicate DifferentHashes(lib: Lib, t: Tree)
    requires WellFormed(t)
  {
    forall h, u, u' | Hashed(lib, u, t, h) && Hashed(lib, u', t, h) :: u == u'
  }

  /** The node of some subtree with hash `h`. */
  ghost function NodeAt(lib: Lib, t: Tree, h: Hash32): Node
    requires WellFormed(t) && Whole(t) && h in Hashes(lib, t)
  {
    HashedInside(lib, t, h);
    var u :| Hashed(lib, u, t, h);
    InsideWhole(u, t);
    NodeOf(lib, u)
  }

  /** All nodes of `t`, each under its hash. */
  ghost function NodesOf(lib: Lib, t: Tree): NodeMap
    requires WellFormed(t) && Whole(t)
  {
    map h | h in Hashes(lib, t) :: NodeAt(lib, t, h)
  }

  lemma {:induction false} InsideTrans(u: Tree, c: Tree, t: Tree)
    requires WellFormed(t) && WellFormed(c) && Inside(u, c) && Inside(c, t)
    ensures Inside(u, t)
  {
    if c != t {
      match t
      case Ext(_, d) => InsideTrans(u, c, d);
      case Branch(cs, _) =>
        var i :| 0 <= i < 16 && Inside(c, cs[i]);
        InsideTrans(u, c, cs[i]);
    }
  }

  lemma {:induction false} NodesStored(lib: Lib, t: Tree, u: Tree)
    requires WellFormed(t) && Whole(t) && DifferentHashes(lib, t) && Inside(u, t) && WellFormed(u)
    ensures Stored(lib, NodesOf(lib, t), u)
    decreases u
  {
    InsideWhole(u, t);
    InsideHashed(lib, u, t);
    var h := HashOf(lib, u);
    assert Hashed(lib, u, t, h) && forall u' | Hashed(lib, u', t, h) :: u' == u;
    assert NodeAt(lib, t, h) == NodeOf(lib, u);
    match u
    case Ext(_, c) =>
      InsideTrans(c, u, t);
      NodesStored(lib, t, c);
    case Branch(cs, _) =>
      forall i | 0 <= i < 16 ensures Stored(lib, NodesOf(lib, t), cs[i]) {
        if cs[i] != Empty {
          InsideTrans(cs[i], u, t);
          NodesStored(lib, t, cs[i]);
        }
      }
    case _ =>
  }

  /** Exactly which tries a content-addressed store can hold: those whose subtrees all hash differently. */
  lemma {:induction false} StorableExactly(lib: Lib, t: Tree)
    requires WellFormed(t) && Whole(t)
    ensures (exists s :: Stored(lib, s, t)) <==> DifferentHashes(lib, t)
  {
    if s :| Stored(lib, s, t) {
      forall h, u, u' | Hashed(lib, u, t, h) && Hashed(lib, u', t, h) ensures u == u' {
        InsideStored(lib, s, u, t);
        InsideStored(lib, s, u', t);
        DenotesOne(lib, s, u, u');
      }
    }
    if DifferentHashes(lib, t) {
      if t != Empty { NodesStored(lib, t, t); }
      assert Stored(lib, NodesOf(lib, t), t);
    }
  }

  // ------------------------------------------------------------- four rows

  function Zeros(): Nibbles { seq(62, i => 0) }

  /** Two nibbles and then zeros. */
  function KeyOf(b: bv8): Key { [b] + seq(31, i => 0) }

  function PathFor(a: Nibble, b: Nibble): Nibbles { [a, b] + Zeros() }

  ghost function Low(a: Bytes, b: Bytes): Tree {
    Branch(NoChildren()[1 := Leaf(Zeros(), a)][2 := Leaf(Zeros(), b)], None)
  }

  ghost function Crossed(v: Bytes, w: Bytes): Tree {
    Branch(NoChildren()[3 := Low(v, w)][4 := Low(w, v)], None)
  }

  /** Rows 31 and 42 hold `v`, rows 32 and 41 hold `w`. */
  function FourPuts(v: Bytes, w: Bytes): seq<Op> {
    [Put(KeyOf(0x31), v), Put(KeyOf(0x32), w), Put(KeyOf(0x41), w), Put(KeyOf(0x42), v)]
  }

  function FourRows(v: Bytes, w: Bytes): map<Key, Bytes> {
    map[KeyOf(0x31) := v, KeyOf(0x32) := w, KeyOf(0x41) := w, KeyOf(0x42) := v]
  }

  lemma {:induction false} NibblesOf(b: bv8)
    ensures KeyToNibbles(KeyOf(b)) == PathFor(HighNibble(b), LowNibble(b))
  {
    var key, k := KeyOf(b), KeyToNibbles(KeyOf(b));
    assert k[2 * 0] == HighNibble(key[0]) && k[2 * 0 + 1] == LowNibble(key[0]);
    forall i | 2 <= i < 64 ensures k[i] == 0 {
      assert k[2 * (i / 2)] == HighNibble(key[i / 2]) && k[2 * (i / 2) + 1] == LowNibble(key[i / 2]);
      assert (0 as bv8) >> 4 == 0 && 0 & 0x0F == (0 as bv8);
    }
  }

  lemma {:induction false} FourPaths()
    ensures KeyToNibbles(KeyOf(0x31)) == PathFor(3, 1) && KeyToNibbles(KeyOf(0x32)) == PathFor(3, 2)
    ensures KeyToNibbles(KeyOf(0x41)) == PathFor(4, 1) && KeyToNibbles(KeyOf(0x42)) == PathFor(4, 2)
  {
    NibblesOf(0x31);
    NibblesOf(0x32);
    NibblesOf(0x41);
    NibblesOf(0x42);
    assert (0x31 as bv8) >> 4 == 3 && (0x31 as bv8) & 0x0F == 1 && (0x32 as bv8) >> 4 == 3 && (0x32 as bv8) & 0x0F == 2;
    assert (0x41 as bv8) >> 4 == 4 && (0x41 as bv8) & 0x0F == 1 && (0x42 as bv8) >> 4 == 4 && (0x42 as bv8) & 0x0F == 2;
  }

  lemma {:induction false} LowGet(a: Bytes, b: Bytes, k: Nibbles)
    ensures Canonical(Low(a, b)) && WellFormed(Low(a, b))
    ensures Get(Low(a, b), k) == if k == [1] + Zeros() then Some(a) else if k == [2] + Zeros() then Some(b) else None
  {
    var cs := Low(a, b).children;
    assert cs[1] == Leaf(Zeros(), a) && cs[2] == Leaf(Zeros(), b) && Crowded(cs, None);
    if k != [] { assert k == [k[0]] + k[1..]; }
  }

  lemma {:induction false} CrossedGet(v: Bytes, w: Bytes, k: Nibbles)
    ensures Canonical(Crossed(v, w)) && WellFormed(Crossed(v, w))
    ensures Get(Crossed(v, w), k)
         == if k == PathFor(3, 1) || k == PathFor(4, 2) then Some(v)
            else if k == PathFor(3, 2) || k == PathFor(4, 1) then Some(w) else None
  {
    var cs := Crossed(v, w).children;
    LowGet(v, w, k);
    LowGet(w, v, k);
    assert cs[3] == Low(v, w) && cs[4] == Low(w, v) && Crowded(cs, None);
    if k != [] {
      LowGet(v, w, k[1..]);
      LowGet(w, v, k[1..]);
      assert k == [k[0]] + k[1..];
      forall a: Nibble, b: Nibble ensures k == PathFor(a, b) <==> k[0] == a && k[1..] == [b] + Zeros() {
        assert PathFor(a, b) == [a] + ([b] + Zeros());
      }
    }
  }

  lemma {:induction false} CrossedHolds(v: Bytes, w: Bytes)
    ensures Canonical(Crossed(v, w)) && WellFormed(Crossed(v, w)) && Holds(Crossed(v, w), FourRows(v, w))
  {
    CrossedGet(v, w, []);
    FourPaths();
    forall k: Key ensures Get(Crossed(v, w), KeyToNibbles(k)) == if k in FourRows(v, w) then Some(FourRows(v, w)[k]) else None {
      CrossedRow(v, w, k);
      RowsAt(v, w, k);
    }
    forall n: Nibbles | Get(Crossed(v, w), n).Some? ensures exists k: Key :: KeyToNibbles(k) == n { CrossedGet(v, w, n); }
  }

  /** What the four rows hold at `k`. */
  function RowAt(v: Bytes, w: Bytes, k: Key): Option<Bytes> {
    if k == KeyOf(0x31) || k == KeyOf(0x42) then Some(v)
    else if k == KeyOf(0x32) || k == KeyOf(0x41) then Some(w)
    else None
  }

  lemma {:induction false} RowsAt(v: Bytes, w: Bytes, k: Key)
    ensures RowAt(v, w, k) == if k in FourRows(v, w) then Some(FourRows(v, w)[k]) else None
  {
    FourKeysDiffer();
  }

  lemma {:induction false} CrossedRow(v: Bytes, w: Bytes, k: Key)
    ensures WellFormed(Crossed(v, w)) && Get(Crossed(v, w), KeyToNibbles(k)) == RowAt(v, w, k)
  {
    CrossedGet(v, w, KeyToNibbles(k));
    FourPaths();
    SameKey(k, KeyOf(0x31));
    SameKey(k, KeyOf(0x32));
    SameKey(k, KeyOf(0x41));
    SameKey(k, KeyOf(0x42));
  }

  lemma {:induction false} FourKeysDiffer()
    ensures KeyOf(0x31) != KeyOf(0x32) && KeyOf(0x31) != KeyOf(0x41) && KeyOf(0x31) != KeyOf(0x42)
    ensures KeyOf(0x32) != KeyOf(0x41) && KeyOf(0x32) != KeyOf(0x42) && KeyOf(0x41) != KeyOf(0x42)
  {
    assert KeyOf(0x31)[0] == 0x31 && KeyOf(0x32)[0] == 0x32 && KeyOf(0x41)[0] == 0x41 && KeyOf(0x42)[0] == 0x42;
  }

  lemma {:induction false} SameKey(a: Key, b: Key)
    ensures KeyToNibbles(a) == KeyToNibbles(b) <==> a == b
  {
    if KeyToNibbles(a) == KeyToNibbles(b) { KeyToNibblesInjective(a, b); }
  }

  lemma {:induction false} FourContents(v: Bytes, w: Bytes)
    ensures Contents(FourPuts(v, w)) == FourRows(v, w)
  {
    var ops := FourPuts(v, w);
    assert ops[..3] == [Put(KeyOf(0x31), v), Put(KeyOf(0x32), w), Put(KeyOf(0x41), w)];
    assert ops[..3][..2] == [Put(KeyOf(0x31), v), Put(KeyOf(0x32), w)] && ops[..3][..2][..1] == [Put(KeyOf(0x31), v)];
    assert Contents(ops[..3][..2][..1]) == map[KeyOf(0x31) := v];
    assert Contents(ops[..3][..2]) == map[KeyOf(0x31) := v][KeyOf(0x32) := w];
    assert Contents(ops[..3]) == map[KeyOf(0x31) := v][KeyOf(0x32) := w][KeyOf(0x41) := w];
  }

  /** The four rows make this trie, however they are put. */
  lemma {:induction false} GrowsCrossed(v: Bytes, w: Bytes)
    ensures Grow(FourPuts(v, w)) == Crossed(v, w)
  {
    GrowHolds(FourPuts(v, w));
    FourContents(v, w);
    CrossedHolds(v, w);
    HoldsUnique(Grow(FourPuts(v, w)), Crossed(v, w), FourRows(v, w));
  }

  /** In one store the two branches are the same. */
  lemma {:induction false} LowsClash(lib: Lib, s: NodeMap, v: Bytes, w: Bytes)
    requires WellFormed(Low(v, w)) && WellFormed(Low(w, v)) && Stored(lib, s, Low(v, w)) && Stored(lib, s, Low(w, v))
    ensures v == w
  {
    var cs := Low(v, w).children;
    assert Branch(cs[1 := cs[2]][2 := cs[1]], None) == Low(w, v);
    ExchangedChildrenSameRoot(lib, cs, None, 1, 2);
    DenotesOne(lib, s, Low(v, w), Low(w, v));
    assert cs[1] == Low(w, v).children[1];
  }

  /** No store denotes this trie, whatever the hash function: its two lower branches need one hash for two nodes. */
  lemma {:induction false} Unstorable(lib: Lib, s: NodeMap, v: Bytes, w: Bytes)
    requires v != w
    ensures WellFormed(Crossed(v, w)) && !Stored(lib, s, Crossed(v, w))
  {
    CrossedGet(v, w, []);
    LowGet(v, w, []);
    LowGet(w, v, []);
    var cs := Crossed(v, w).children;
    assert cs[3] == Low(v, w) && cs[4] == Low(w, v);
    if Stored(lib, s, cs[3]) && Stored(lib, s, cs[4]) { LowsClash(lib, s, v, w); }
  }

  /**
   Putting the four rows into a new trie therefore always replaces a node by a different one: that no put does so
   is a premise about the rows, not about the hash function.
   */
  method Replaces(lib: Lib, v: Bytes, w: Bytes) returns (trie: M.MerklePatriciaTrie)
    requires v != w
    ensures trie.store.lib == lib && trie.store.clobbered
  {
    var store := new M.SledMptStore(lib);
    trie := new M.MerklePatriciaTrie(store, None);
    M.RunHistory(trie, FourPuts(v, w));
    GrowsCrossed(v, w);
    Unstorable(lib, trie.store.tree, v, w);
  }
}
