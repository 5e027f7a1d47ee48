/**
 The content-addressed node store and the relation between a root hash in it
 and the tree that hash denotes.
 */
module TrieStore {
  import opened Basics
  import opened Hashing
  import opened TrieShape

  type NodeMap = map<Hash32, Node>

  /** The node at the top of `t`, with its subtrees replaced by their hashes. */
  ghost function NodeOf(lib: Lib, t: Tree): Node
    requires WellFormed(t) && t != Empty && !t.Missing?
    decreases t, 0
  {
    match t
    case Leaf(s, v) => LeafNode(s, v)
    case Ext(p, c) => ExtNode(p, HashOf(lib, c))
    case Branch(cs, slot) =>
      BranchNode(seq(16, i requires 0 <= i < 16 => if cs[i] == Empty then None else Some(HashOf(lib, cs[i]))), slot)
  }

  ghost function HashOf(lib: Lib, t: Tree): Hash32
    requires WellFormed(t) && t != Empty
    decreases t, 1
  {
    if t.Missing? then t.hash else NodeHash(lib, NodeOf(lib, t))
  }

  /** The root hash of a trie; an empty trie has none. */
  ghost function Root(lib: Lib, t: Tree): Option<Hash32>
    requires WellFormed(t)
  {
    if t == Empty then None else Some(HashOf(lib, t))
  }

  lemma {:induction false} HashOfLeaf(lib: Lib, s: Nibbles, v: Bytes)
    ensures Root(lib, Leaf(s, v)) == Some(NodeHash(lib, LeafNode(s, v)))
  {
    assert NodeOf(lib, Leaf(s, v)) == LeafNode(s, v);
  }

  lemma {:induction false} HashOfExt(lib: Lib, p: Nibbles, c: Tree)
    requires WellFormed(Ext(p, c))
    ensures Root(lib, Ext(p, c)) == Some(NodeHash(lib, ExtNode(p, HashOf(lib, c))))
  {
    assert NodeOf(lib, Ext(p, c)) == ExtNode(p, HashOf(lib, c));
  }

  lemma {:induction false} HashOfBranch(lib: Lib, cs: seq<Tree>, slot: Option<Bytes>, children: Slots)
    requires |cs| == 16 && forall i | 0 <= i < 16 :: WellFormed(cs[i]) && children[i] == Root(lib, cs[i])
    ensures Root(lib, Branch(cs, slot)) == Some(NodeHash(lib, BranchNode(children, slot)))
    ensures NodeOf(lib, Branch(cs, slot)) == BranchNode(children, slot)
  {
    assert NodeOf(lib, Branch(cs, slot)).children == children;
  }

  /** Every node of `t` that is not missing is in the store, under its hash. */
  ghost predicate Backed(lib: Lib, s: NodeMap, t: Tree)
    requires WellFormed(t)
  {
    && (t != Empty && !t.Missing? ==> HashOf(lib, t) in s && s[HashOf(lib, t)] == NodeOf(lib, t))
    && match t
       case Ext(_, c) => Backed(lib, s, c)
       case Branch(cs, _) => forall i | 0 <= i < 16 :: Backed(lib, s, cs[i])
       case _ => true
  }

  /** In addition, the missing nodes are exactly those the store does not have. */
  ghost predicate Stored(lib: Lib, s: NodeMap, t: Tree)
    requires WellFormed(t)
  {
    && (t != Empty && !t.Missing? ==> HashOf(lib, t) in s && s[HashOf(lib, t)] == NodeOf(lib, t))
    && match t
       case Ext(_, c) => Stored(lib, s, c)
       case Branch(cs, _) => forall i | 0 <= i < 16 :: Stored(lib, s, cs[i])
       case Missing(h) => h !in s
       case _ => true
  }

  /** Nothing in `s` was changed or removed on the way to `s'`. */
  ghost predicate Grew(s: NodeMap, s': NodeMap) {
    forall h :: h in s ==> h in s' && s'[h] == s[h]
  }

  lemma {:induction false} StoredIsBacked(lib: Lib, s: NodeMap, t: Tree)
    requires WellFormed(t) && Stored(lib, s, t)
    ensures Backed(lib, s, t)
  {
    match t
    case Ext(_, c) => StoredIsBacked(lib, s, c);
    case Branch(cs, _) => forall i | 0 <= i < 16 ensures Backed(lib, s, cs[i]) { StoredIsBacked(lib, s, cs[i]); }
    case _ =>
  }

  lemma {:induction false} WholeBackedIsStored(lib: Lib, s: NodeMap, t: Tree)
    requires WellFormed(t) && Whole(t) && Backed(lib, s, t)
    ensures Stored(lib, s, t)
  {
    match t
    case Ext(_, c) => WholeBackedIsStored(lib, s, c);
    case Branch(cs, _) => forall i | 0 <= i < 16 ensures Stored(lib, s, cs[i]) { WholeBackedIsStored(lib, s, cs[i]); }
    case _ =>
  }

  lemma {:induction false} BackedGrew(lib: Lib, s: NodeMap, s': NodeMap, t: Tree)
    requires WellFormed(t) && Backed(lib, s, t) && Grew(s, s')
    ensures Backed(lib, s', t)
  {
    match t
    case Ext(_, c) => BackedGrew(lib, s, s', c);
    case Branch(cs, _) => forall i | 0 <= i < 16 ensures Backed(lib, s', cs[i]) { BackedGrew(lib, s, s', cs[i]); }
    case _ =>
  }

  /** Every trie a root denoted before the store grew is still denoted by it. */
  lemma {:induction false} OldTriesSurvive(lib: Lib, s: NodeMap, s': NodeMap, t: Tree)
    requires WellFormed(t) && Whole(t) && Stored(lib, s, t) && Grew(s, s')
    ensures Stored(lib, s', t)
  {
    StoredIsBacked(lib, s, t);
    BackedGrew(lib, s, s', t);
    WholeBackedIsStored(lib, s', t);
  }

  /** What is left of `u` in a store that has lost nodes. */
  ghost function Trim(lib: Lib, s: NodeMap, u: Tree): Tree
    requires WellFormed(u)
    decreases u, 1
  {
    if u == Empty then Empty
    else if HashOf(lib, u) !in s then Missing(HashOf(lib, u))
    else match u
      case Ext(p, c) => Ext(p, Trim(lib, s, c))
      case Branch(_, slot) => Branch(TrimBelow(lib, s, u), slot)
      case _ => u
  }

  ghost function TrimBelow(lib: Lib, s: NodeMap, u: Tree): seq<Tree>
    requires WellFormed(u) && u.Branch?
    decreases u, 0
  {
    seq(16, i requires 0 <= i < 16 => Trim(lib, s, u.children[i]))
  }

  /** Losing nodes does not change the hash. */
  lemma {:induction false} TrimRoot(lib: Lib, s: NodeMap, u: Tree)
    requires WellFormed(u)
    ensures WellFormed(Trim(lib, s, u)) && Root(lib, Trim(lib, s, u)) == Root(lib, u)
    decreases u
  {
    if u == Empty || HashOf(lib, u) !in s { return; }
    match u
    case Ext(p, c) =>
      TrimRoot(lib, s, c);
      HashOfExt(lib, p, c);
      HashOfExt(lib, p, Trim(lib, s, c));
    case Branch(cs, slot) =>
      var cs' := TrimBelow(lib, s, u);
      forall i | 0 <= i < 16 ensures WellFormed(cs'[i]) && Root(lib, cs'[i]) == Root(lib, cs[i]) { TrimRoot(lib, s, cs[i]); }
      SameBranch(lib, cs, cs', slot);
    case _ =>
  }

  lemma {:induction false} SameBranch(lib: Lib, cs: seq<Tree>, cs': seq<Tree>, slot: Option<Bytes>)
    requires |cs| == |cs'| == 16 && forall i | 0 <= i < 16 :: WellFormed(cs[i]) && WellFormed(cs'[i]) && Root(lib, cs'[i]) == Root(lib, cs[i])
    ensures NodeOf(lib, Branch(cs', slot)) == NodeOf(lib, Branch(cs, slot))
  {
    HashOfBranch(lib, cs, slot, NodeOf(lib, Branch(cs, slot)).children);
    HashOfBranch(lib, cs', slot, NodeOf(lib, Branch(cs, slot)).children);
  }

  /** A trie some of whose nodes were collected denotes what is left of it. */
  lemma {:induction false} TrimStored(lib: Lib, s: NodeMap, written: NodeMap, u: Tree)
    requires WellFormed(u) && Whole(u) && Backed(lib, written, u) && Grew(s, written)
    ensures WellFormed(Trim(lib, s, u)) && Stored(lib, s, Trim(lib, s, u))
    decreases u
  {
    TrimRoot(lib, s, u);
    if u == Empty || HashOf(lib, u) !in s { return; }
    match u
    case Ext(p, c) =>
      TrimStored(lib, s, written, c);
      TrimRoot(lib, s, c);
    case Branch(cs, slot) =>
      var cs' := TrimBelow(lib, s, u);
      forall i | 0 <= i < 16 ensures Stored(lib, s, cs'[i]) && WellFormed(cs'[i]) && Root(lib, cs'[i]) == Root(lib, cs[i]) {
        TrimStored(lib, s, written, cs[i]);
        TrimRoot(lib, s, cs[i]);
      }
      SameBranch(lib, cs, cs', slot);
    case _ =>
  }

  /** A hash denotes at most one trie in a given store. */
  lemma {:induction false} DenotesOne(lib: Lib, s: NodeMap, t: Tree, u: Tree)
    requires WellFormed(t) && WellFormed(u) && Stored(lib, s, t) && Stored(lib, s, u)
    requires Root(lib, t) == Root(lib, u)
    ensures t == u
    decreases t
  {
    match t
    case Ext(_, c) => DenotesOne(lib, s, c, u.child);
    case Branch(cs, _) =>
      forall i | 0 <= i < 16 ensures cs[i] == u.children[i] {
        assert NodeOf(lib, t).children[i] == NodeOf(lib, u).children[i];
        DenotesOne(lib, s, cs[i], u.children[i]);
      }
      assert cs == u.children;
    case _ =>
  }

  /** The hashes a store walk from `t`'s root meets, dangling ones included. */
  ghost function Hashes(lib: Lib, t: Tree): set<Hash32>
    requires WellFormed(t)
  {
    if t == Empty then {} else
      {HashOf(lib, t)} + match t
        case Ext(_, c) => Hashes(lib, c)
        case Branch(cs, _) => set i, h | 0 <= i < 16 && h in Hashes(lib, cs[i]) :: h
        case _ => {}
  }

  /** The hashes met in the first `n` children of a branch. */
  ghost function HashesUpTo(lib: Lib, cs: seq<Tree>, n: nat): set<Hash32>
    requires n <= |cs| && forall i | 0 <= i < |cs| :: WellFormed(cs[i])
  {
    if n == 0 then {} else HashesUpTo(lib, cs, n - 1) + Hashes(lib, cs[n - 1])
  }

  lemma {:induction false} HashesUpToHas(lib: Lib, cs: seq<Tree>, n: nat, h: Hash32)
    requires n <= |cs| && forall i | 0 <= i < |cs| :: WellFormed(cs[i])
    ensures h in HashesUpTo(lib, cs, n) <==> exists i :: 0 <= i < n && h in Hashes(lib, cs[i])
  {
    if n > 0 { HashesUpToHas(lib, cs, n - 1, h); }
  }

  lemma {:induction false} HashesOfBranch(lib: Lib, t: Tree)
    requires t.Branch? && WellFormed(t)
    ensures Hashes(lib, t) == {HashOf(lib, t)} + HashesUpTo(lib, t.children, 16)
  {
    forall h ensures h in HashesUpTo(lib, t.children, 16) <==> exists i :: 0 <= i < 16 && h in Hashes(lib, t.children[i]) {
      HashesUpToHas(lib, t.children, 16, h);
    }
  }

  /** The hashes a node points at. */
  function Kids(n: Node): set<Hash32> {
    match n
    case LeafNode(_, _) => {}
    case ExtNode(_, c) => {c}
    case BranchNode(cs, _) => set i | 0 <= i < 16 && cs[i].Some? :: cs[i].value
  }

  /** Every hash met on a walk is the root of some subtree. */
  lemma {:induction false} HashInside(lib: Lib, s: NodeMap, t: Tree, h: Hash32) returns (u: Tree)
    requires WellFormed(t) && Stored(lib, s, t) && h in Hashes(lib, t)
    ensures WellFormed(u) && Stored(lib, s, u) && Root(lib, u) == Some(h)
    ensures u == t || u < t
    decreases t
  {
    if h == HashOf(lib, t) { return t; }
    match t
    case Ext(_, c) => u := HashInside(lib, s, c, h);
    case Branch(cs, _) =>
      var i :| 0 <= i < 16 && h in Hashes(lib, cs[i]);
      u := HashInside(lib, s, cs[i], h);
  }

  /** The store is acyclic below a hash that denotes a tree. */
  lemma {:induction false} NoCycle(lib: Lib, s: NodeMap, t: Tree, c: Tree)
    requires WellFormed(t) && Stored(lib, s, t) && t != Empty
    requires WellFormed(c) && Stored(lib, s, c) && c < t
    ensures HashOf(lib, t) !in Hashes(lib, c)
  {
    if HashOf(lib, t) in Hashes(lib, c) {
      var u := HashInside(lib, s, c, HashOf(lib, t));
      DenotesOne(lib, s, t, u);
    }
  }

  /** `live` contains whatever its nodes outside `stack` point at. */
  ghost predicate Closed(s: NodeMap, live: set<Hash32>, stack: set<Hash32>) {
    forall h | h in live && h !in stack && h in s :: Kids(s[h]) <= live
  }

  lemma {:induction false} KidsOf(lib: Lib, s: NodeMap, t: Tree, i: nat)
    requires WellFormed(t) && Stored(lib, s, t)
    ensures t.Ext? ==> HashOf(lib, t.child) in Kids(s[HashOf(lib, t)])
    ensures t.Branch? && i < 16 && t.children[i] != Empty ==> HashOf(lib, t.children[i]) in Kids(s[HashOf(lib, t)])
  {
    if t.Branch? && i < 16 && t.children[i] != Empty {
      assert NodeOf(lib, t).children[i] == Some(HashOf(lib, t.children[i]));
    }
  }

  /** What a node points at is met on the walks through its subtrees. */
  lemma {:induction false} KidsInside(lib: Lib, s: NodeMap, t: Tree, k: Hash32)
    requires WellFormed(t) && Stored(lib, s, t) && t != Empty && !t.Missing? && k in Kids(s[HashOf(lib, t)])
    ensures k in Hashes(lib, t)
    ensures t.Ext? ==> k in Hashes(lib, t.child)
    ensures t.Branch? ==> exists i :: 0 <= i < 16 && k in Hashes(lib, t.children[i])
  {
    if t.Branch? {
      var i :| 0 <= i < 16 && s[HashOf(lib, t)].children[i] == Some(k);
      assert NodeOf(lib, t).children[i] == Some(k);
      assert k in Hashes(lib, t.children[i]);
    }
  }

  lemma {:induction false} ClosedCovers(lib: Lib, s: NodeMap, t: Tree, live: set<Hash32>, stack: set<Hash32>)
    requires WellFormed(t) && Stored(lib, s, t) && t != Empty && HashOf(lib, t) in live
    requires Closed(s, live, stack) && Hashes(lib, t) !! stack
    ensures Hashes(lib, t) <= live
    decreases t
  {
    match t
    case Ext(_, c) =>
      KidsOf(lib, s, t, 0);
      ClosedCovers(lib, s, c, live, stack);
    case Branch(cs, _) =>
      forall i | 0 <= i < 16 ensures Hashes(lib, cs[i]) <= live {
        if cs[i] != Empty {
          KidsOf(lib, s, t, i);
          assert forall h | h in Hashes(lib, cs[i]) :: h in Hashes(lib, t);
          ClosedCovers(lib, s, cs[i], live, stack);
        }
      }
    case _ =>
  }

  /** Of a node already deleted from `s0`, everything it points at is deleted too, or live. */
  ghost predicate Swept(s0: NodeMap, s: NodeMap, live: set<Hash32>) {
    forall h, k | h in s0 && h !in s && k in Kids(s0[h]) :: k in live || k !in s
  }

  /** `s'` is `s` without the nodes whose hash is in `hs` but not in `live`. */
  ghost predicate Trimmed(s: NodeMap, s': NodeMap, hs: set<Hash32>, live: set<Hash32>) {
    && (forall h :: h in s' <==> h in s && (h in live || h !in hs))
    && Grew(s', s)
  }

  lemma {:induction false} TrimmedTwice(s: NodeMap, s': NodeMap, s'': NodeMap, hs: set<Hash32>, hs': set<Hash32>, live: set<Hash32>)
    requires Trimmed(s, s', hs, live) && Trimmed(s', s'', hs', live)
    ensures Trimmed(s, s'', hs + hs', live)
  {
  }

  /** The node at the top goes last, after everything below it. */
  lemma {:induction false} TrimTop(lib: Lib, s0: NodeMap, s: NodeMap, s': NodeMap, t: Tree, live: set<Hash32>)
    requires WellFormed(t) && Stored(lib, s0, t) && t != Empty && !t.Missing?
    requires HashOf(lib, t) in s' && HashOf(lib, t) !in live
    requires Trimmed(s, s', Hashes(lib, t) - {HashOf(lib, t)}, live)
    requires Grew(s, s0) && Swept(s0, s', live)
    requires forall k | k in Kids(s0[HashOf(lib, t)]) :: k != HashOf(lib, t)
    ensures Trimmed(s, s' - {HashOf(lib, t)}, Hashes(lib, t), live)
    ensures Swept(s0, s' - {HashOf(lib, t)}, live)
    ensures |s'.Keys| == |(s' - {HashOf(lib, t)}).Keys| + 1
  {
    var h := HashOf(lib, t);
    assert s'.Keys == (s' - {h}).Keys + {h};
    forall k | k in Kids(s0[h]) ensures k in live || k !in s' {
      KidsInside(lib, s0, t, k);
    }
  }

  /** Trimming by the hashes of an old trie does not touch the current one. */
  lemma {:induction false} TrimmedKeeps(lib: Lib, s: NodeMap, s': NodeMap, t: Tree, hs: set<Hash32>)
    requires WellFormed(t) && Stored(lib, s, t) && Trimmed(s, s', hs, Hashes(lib, t))
    ensures s' == s - (hs - Hashes(lib, t))
    ensures Stored(lib, s', t)
  {
    StoredWithout(lib, s, hs - Hashes(lib, t), t);
  }

  lemma {:induction false} SweptCovers(lib: Lib, s0: NodeMap, s: NodeMap, t: Tree, live: set<Hash32>, h: Hash32)
    requires WellFormed(t) && Stored(lib, s0, t) && t != Empty && Swept(s0, s, live) && Grew(s, s0)
    requires Closed(s0, live, {})
    requires HashOf(lib, t) in live || HashOf(lib, t) !in s
    requires h in Hashes(lib, t)
    ensures h in live || h !in s
    decreases t
  {
    if HashOf(lib, t) in live {
      ClosedCovers(lib, s0, t, live, {});
    } else if h != HashOf(lib, t) {
      match t
      case Ext(_, c) =>
        KidsOf(lib, s0, t, 0);
        SweptCovers(lib, s0, s, c, live, h);
      case Branch(cs, _) =>
        var i :| 0 <= i < 16 && h in Hashes(lib, cs[i]);
        KidsOf(lib, s0, t, i);
        SweptCovers(lib, s0, s, cs[i], live, h);
    }
  }

  /** Removing nodes a trie does not use leaves the trie as it is. */
  lemma {:induction false} StoredWithout(lib: Lib, s: NodeMap, dead: set<Hash32>, t: Tree)
    requires WellFormed(t) && Stored(lib, s, t) && dead !! Hashes(lib, t)
    ensures Stored(lib, s - dead, t)
  {
    match t
    case Ext(_, c) => StoredWithout(lib, s, dead, c);
    case Branch(cs, _) =>
      forall i | 0 <= i < 16 ensures Stored(lib, s - dead, cs[i]) {
        assert forall h | h in Hashes(lib, cs[i]) :: h in Hashes(lib, t);
        StoredWithout(lib, s, dead, cs[i]);
      }
    case _ =>
  }

  /** A whole trie has every hash met on its walks in the store. */
  lemma {:induction false} HashesStored(lib: Lib, s: NodeMap, t: Tree)
    requires WellFormed(t) && Whole(t) && Stored(lib, s, t)
    ensures Hashes(lib, t) <= s.Keys
  {
    match t
    case Ext(_, c) => HashesStored(lib, s, c);
    case Branch(cs, _) => forall i | 0 <= i < 16 ensures Hashes(lib, cs[i]) <= s.Keys { HashesStored(lib, s, cs[i]); }
    case _ =>
  }

  /**
   What collecting one root does to any other trie of the store, such as that of a root still logged: it stays
   whole exactly when it shares with the collected trie only what the current trie uses too.
   */
  lemma {:induction false} SurvivesCollection(lib: Lib, s: NodeMap, past: Tree, current: Tree, t: Tree)
    requires WellFormed(past) && WellFormed(current) && WellFormed(t) && Whole(t) && Stored(lib, s, t)
    ensures Stored(lib, s - (Hashes(lib, past) - Hashes(lib, current)), t)
       <==> Hashes(lib, t) * Hashes(lib, past) <= Hashes(lib, current)
  {
    var dead := Hashes(lib, past) - Hashes(lib, current);
    if Hashes(lib, t) * Hashes(lib, past) <= Hashes(lib, current) {
      StoredWithout(lib, s, dead, t);
    } else if Stored(lib, s - dead, t) {
      HashesStored(lib, s - dead, t);
    }
  }

  /**
   A branch is hashed through the XOR of its children, so exchanging two of them gives a different
   trie with the same root hash, whatever the hash function.  This is why "no put replaced a
   different node" is a premise of its own and does not follow from BLAKE3 being collision free.
   */
  lemma {:induction false} ExchangedChildrenSameRoot(lib: Lib, cs: seq<Tree>, slot: Option<Bytes>, i: nat, j: nat)
    requires |cs| == 16 && (forall c | 0 <= c < 16 :: WellFormed(cs[c])) && i < j < 16
    ensures WellFormed(Branch(cs[i := cs[j]][j := cs[i]], slot))
    ensures Root(lib, Branch(cs[i := cs[j]][j := cs[i]], slot)) == Root(lib, Branch(cs, slot))
  {
    var cs' := cs[i := cs[j]][j := cs[i]];
    var hs, hs' := NodeOf(lib, Branch(cs, slot)).children, NodeOf(lib, Branch(cs', slot)).children;
    assert hs' == hs[i := hs[j]][j := hs[i]];
    XorExchanged(hs, hs', i, j);
  }

  lemma {:induction false} XorExchanged(hs: Slots, hs': Slots, i: nat, j: nat)
    requires i < j < 16 && hs' == hs[i := hs[j]][j := hs[i]]
    ensures XorSlots(hs') == XorSlots(hs)
  {
    var bare := hs[i := None][j := None];
    XorSplit(hs, i);
    XorSplit(hs[i := None], j);
    XorSplit(hs', i);
    XorSplit(hs'[i := None], j);
    assert hs'[i := None][j := None] == bare;
    XorSwapLast(XorSlots(bare), OrZero(hs[i]), OrZero(hs[j]));
  }
}
