/**
 The trie itself: insert, delete, lookup, proof building and garbage
 collection, run against the content-addressed store, one node at a time.
 */
module MerklePatriciaTrie {
  import opened Basics
  import opened Hashing
  import opened TrieShape
  import H = TrieHistory
  import opened TrieStore
  import opened TrieProof

  /** The tree of nodes, keyed by hash.  The flag, which the model adds, records that some put
      replaced a different node under the same hash. */
  class SledMptStore {
    const lib: Lib
    var tree: NodeMap
    var clobbered: bool

    constructor (lib: Lib)
      ensures this.lib == lib && tree == map[] && !clobbered
    {
      this.lib := lib;
      tree := map[];
      clobbered := false;
    }

    method GetNode(hash: Hash32) returns (node: Option<Node>)
      ensures node == if hash in tree then Some(tree[hash]) else None
    {
      node := if hash in tree then Some(tree[hash]) else None;
    }

    method PutNode(node: Node) returns (hash: Hash32)
      modifies this
      ensures hash == NodeHash(lib, node)
      ensures tree == old(tree)[hash := node]
      ensures clobbered <==> old(clobbered) || (hash in old(tree) && old(tree)[hash] != node)
      ensures !clobbered ==> Grew(old(tree), tree)
    {
      hash := NodeHash(lib, node);
      clobbered := clobbered || (hash in tree && tree[hash] != node);
      tree := tree[hash := node];
    }

    method DeleteNode(hash: Hash32)
      modifies this
      ensures tree == old(tree) - {hash}
      ensures clobbered == old(clobbered)
    {
      tree := tree - {hash};
    }
  }

  datatype TrieError = NodeNotFound

  method CommonPrefix(a: Nibbles, b: Nibbles) returns (i: nat)
    ensures i == Common(a, b)
  {
    i := 0;
    while i < |a| && i < |b| && a[i] == b[i]
      invariant i <= |a| && i <= |b|
      invariant Common(a, b) == i + Common(a[i..], b[i..])
    {
      i := i + 1;
    }
  }

  /** The occupied child slots, in order. */
  method Remaining(children: Slots) returns (r: seq<(Nibble, Hash32)>)
    ensures forall e | e in r :: children[e.0] == Some(e.1)
    ensures forall i: Nibble | children[i].Some? :: (i, children[i].value) in r
    ensures forall a, b | 0 <= a < b < |r| :: r[a].0 != r[b].0
  {
    r := [];
    for i := 0 to 16
      invariant forall e | e in r :: e.0 < i && children[e.0] == Some(e.1)
      invariant forall j: Nibble | j < i && children[j].Some? :: (j, children[j].value) in r
      invariant forall a, b | 0 <= a < b < |r| :: r[a].0 != r[b].0
    {
      if children[i].Some? { r := r + [(i, children[i].value)]; }
    }
  }

  /** The rest of a proof, below an extension on the way and below a branch. */
  lemma {:induction false} ProofBelowExt(lib: Lib, t: Tree, k: Nibbles, path: seq<PathStep>)
    requires WellFormed(t) && t.Ext? && t.prefix <= k
    ensures var k' := k[|t.prefix|..];
      && path + [ExtStep(|t.prefix| % 256)] + PathOf(t.child, k') == path + PathOf(t, k)
      && SiblingsOf(lib, t, k) == SiblingsOf(lib, t.child, k')
  {
    Associative(path, [ExtStep(|t.prefix| % 256)], PathOf(t.child, k[|t.prefix|..]));
  }

  lemma {:induction false} ProofBelowBranch(lib: Lib, t: Tree, k: Nibbles, siblings: seq<Hash32>, path: seq<PathStep>)
    requires WellFormed(t) && t.Branch? && k != []
    ensures path + [BranchStep(k[0])] + PathOf(t.children[k[0]], k[1..]) == path + PathOf(t, k)
    ensures siblings + [SiblingXor(lib, t, k[0])] + SiblingsOf(lib, t.children[k[0]], k[1..]) == siblings + SiblingsOf(lib, t, k)
  {
    Associative(path, [BranchStep(k[0])], PathOf(t.children[k[0]], k[1..]));
    Associative(siblings, [SiblingXor(lib, t, k[0])], SiblingsOf(lib, t.children[k[0]], k[1..]));
  }

  class MerklePatriciaTrie {
    var root: Option<Hash32>
    const store: SledMptStore

    constructor (store: SledMptStore, root: Option<Hash32>)
      ensures this.store == store && this.root == root
    {
      this.store := store;
      this.root := root;
    }

    /** The current root denotes `t`, and no put has replaced a different node so far. */
    ghost predicate Denotes(t: Tree)
      reads this, store
    {
      && !store.clobbered
      && WellFormed(t) && Root(store.lib, t) == root && Stored(store.lib, store.tree, t)
    }

    method Get(key: Key, ghost t: Tree) returns (r: Result<Option<Bytes>, TrieError>)
      requires Denotes(t)
      ensures r == if Blocked(t, KeyToNibbles(key)) then Err(NodeNotFound)
                   else Ok(TrieShape.Get(t, KeyToNibbles(key)))
    {
      r := GetRecursive(root, KeyToNibbles(key), t);
    }

    method GetRecursive(root: Option<Hash32>, nibbles: Nibbles, ghost t: Tree) returns (r: Result<Option<Bytes>, TrieError>)
      requires WellFormed(t) && Root(store.lib, t) == root && Stored(store.lib, store.tree, t)
      ensures r == if Blocked(t, nibbles) then Err(NodeNotFound) else Ok(TrieShape.Get(t, nibbles))
      decreases t
    {
      if root.None? { return Ok(None); }
      var node := store.GetNode(root.value);
      if node.None? { return Err(NodeNotFound); }
      match node.value
      case LeafNode(suffix, value) =>
        r := if suffix == nibbles then Ok(Some(value)) else Ok(None);
      case ExtNode(prefix, child) =>
        if prefix <= nibbles {
          r := GetRecursive(Some(child), nibbles[|prefix|..], t.child);
        } else {
          r := Ok(None);
        }
      case BranchNode(children, slot) =>
        if nibbles == [] {
          r := Ok(slot);
        } else {
          r := GetRecursive(children[nibbles[0]], nibbles[1..], t.children[nibbles[0]]);
        }
    }

    method Insert(key: Key, value: Bytes, ghost t: Tree) returns (r: Result<Hash32, TrieError>)
      requires Denotes(t)
      modifies this, store
      ensures r.Ok? ==> root == Some(r.value)
      ensures r.Err? ==> root == old(root) && store.tree == old(store.tree) && !store.clobbered
      ensures t.Missing? ==> r.Err?
      ensures !store.clobbered ==>
        && (r.Err? <==> Blocked(t, KeyToNibbles(key)))
        && Grew(old(store.tree), store.tree)
        && (r.Ok? && Whole(t) ==> WellFormed(TrieShape.Insert(t, KeyToNibbles(key), value))
                                  && Denotes(TrieShape.Insert(t, KeyToNibbles(key), value)))
    {
      var nibbles := KeyToNibbles(key);
      r := InsertRecursive(root, nibbles, value, t);
      if r.Ok? {
        root := Some(r.value);
        if Whole(t) && !store.clobbered {
          InsertWellFormed(t, nibbles, value);
          WholeBackedIsStored(store.lib, store.tree, TrieShape.Insert(t, nibbles, value));
        }
      }
    }

    /** The store only grew since it was `s0`, and `hash` now denotes `t` in it. */
    ghost predicate Grown(s0: NodeMap, hash: Option<Hash32>, t: Tree)
      reads store
    {
      && Grew(s0, store.tree)
      && WellFormed(t) && Root(store.lib, t) == hash && Backed(store.lib, store.tree, t)
    }

    method InsertRecursive(root: Option<Hash32>, nibbles: Nibbles, value: Bytes, ghost t: Tree)
      returns (r: Result<Hash32, TrieError>)
      requires !store.clobbered
      requires WellFormed(t) && Root(store.lib, t) == root && Stored(store.lib, store.tree, t)
      modifies store
      ensures r.Err? ==> store.tree == old(store.tree) && !store.clobbered && Blocked(t, nibbles)
      ensures t.Missing? ==> r.Err?
      ensures !store.clobbered && r.Ok? ==>
        !Blocked(t, nibbles) && Grown(old(store.tree), Some(r.value), TrieShape.Insert(t, nibbles, value))
      decreases t, 1
    {
      if root.None? {
        var h := store.PutNode(LeafNode(nibbles, value));
        HashOfLeaf(store.lib, nibbles, value);
        return Ok(h);
      }
      var node := store.GetNode(root.value);
      if node.None? { return Err(NodeNotFound); }
      match node.value
      case LeafNode(suffix, oldValue) =>
        var h := InsertAtLeaf(suffix, oldValue, nibbles, value);
        return Ok(h);
      case ExtNode(prefix, child) =>
        var m := CommonPrefix(prefix, nibbles);
        if m == |prefix| {
          r := InsertRecursive(Some(child), nibbles[m..], value, t.child);
          if r.Ok? {
            var h := PutExt(prefix, r.value, TrieShape.Insert(t.child, nibbles[m..], value));
            InsertWellFormed(t, nibbles, value);
            r := Ok(h);
          }
        } else {
          var h := SplitExt(prefix, child, m, nibbles, value, t.child);
          r := Ok(h);
        }
      case BranchNode(children, slot) =>
        if nibbles == [] {
          StoredIsBacked(store.lib, store.tree, t);
          var h := PutFork([], children, Some(value), t.children);
          return Ok(h);
        }
        r := InsertBelowBranch(children, slot, nibbles, value, t);
    }

    method InsertBelowBranch(children: Slots, slot: Option<Bytes>, nibbles: Nibbles, value: Bytes, ghost t: Tree)
      returns (r: Result<Hash32, TrieError>)
      requires !store.clobbered && nibbles != []
      requires WellFormed(t) && Stored(store.lib, store.tree, t)
      requires t.Branch? && NodeOf(store.lib, t) == BranchNode(children, slot)
      modifies store
      ensures r.Err? ==> store.tree == old(store.tree) && !store.clobbered && Blocked(t, nibbles)
      ensures !store.clobbered && r.Ok? ==>
        !Blocked(t, nibbles) && Grown(old(store.tree), Some(r.value), TrieShape.Insert(t, nibbles, value))
      decreases t, 0
    {
      var n := nibbles[0];
      ghost var s0 := store.tree;
      r := InsertRecursive(children[n], nibbles[1..], value, t.children[n]);
      if r.Ok? {
        ghost var cs' := t.children[n := TrieShape.Insert(t.children[n], nibbles[1..], value)];
        if !store.clobbered { BranchStillBacked(s0, t, n, cs'); }
        var h := PutFork([], children[n := Some(r.value)], slot, cs');
        r := Ok(h);
      }
    }

    /** After work below child `n` of a branch, the other children are still in the store. */
    lemma {:induction false} BranchStillBacked(s0: NodeMap, t: Tree, n: Nibble, cs': seq<Tree>)
      requires t.Branch? && WellFormed(t) && Stored(store.lib, s0, t) && Grew(s0, store.tree)
      requires |cs'| == 16 && forall i | 0 <= i < 16 :: i != n ==> cs'[i] == t.children[i]
      ensures forall i | 0 <= i < 16 :: i != n ==> Backed(store.lib, store.tree, cs'[i])
    {
      forall i | 0 <= i < 16 && i != n ensures Backed(store.lib, store.tree, cs'[i]) {
        StoredIsBacked(store.lib, s0, cs'[i]);
        BackedGrew(store.lib, s0, store.tree, cs'[i]);
      }
    }

    method InsertAtLeaf(suffix: Nibbles, oldValue: Bytes, nibbles: Nibbles, value: Bytes) returns (h: Hash32)
      requires !store.clobbered
      modifies store
      ensures !store.clobbered ==> Grown(old(store.tree), Some(h), TrieShape.Insert(Leaf(suffix, oldValue), nibbles, value))
    {
      var m := CommonPrefix(suffix, nibbles);
      if m == |suffix| && m == |nibbles| {
        h := store.PutNode(LeafNode(suffix, value));
        HashOfLeaf(store.lib, suffix, value);
        return;
      }
      var children, slot := PutHang(NoSlots(), None, suffix[m..], oldValue, NoChildren());
      ghost var hung := Hang(NoChildren(), None, suffix[m..], oldValue);
      children, slot := PutHang(children, slot, nibbles[m..], value, hung.0);
      h := PutFork(nibbles[..m], children, slot, Hang(hung.0, hung.1, nibbles[m..], value).0);
    }

    method SplitExt(prefix: Nibbles, child: Hash32, m: nat, nibbles: Nibbles, value: Bytes, ghost c: Tree)
      returns (h: Hash32)
      requires !store.clobbered
      requires WellFormed(Ext(prefix, c)) && HashOf(store.lib, c) == child && Stored(store.lib, store.tree, c)
      requires m == Common(prefix, nibbles) && m < |prefix|
      modifies store
      ensures !store.clobbered ==> Grown(old(store.tree), Some(h), TrieShape.Insert(Ext(prefix, c), nibbles, value))
    {
      StoredIsBacked(store.lib, store.tree, c);
      var below := PutTail(prefix[m + 1..], child, c);
      ghost var cs := NoChildren()[prefix[m] := Tail(prefix[m + 1..], c)];
      var children, slot := PutHang(NoSlots()[prefix[m] := Some(below)], None, nibbles[m..], value, cs);
      h := PutFork(nibbles[..m], children, slot, Hang(cs, None, nibbles[m..], value).0);
    }

    /** What an extension leads to once its first nibbles are cut off: a shorter one, or its child. */
    method PutTail(prefix: Nibbles, child: Hash32, ghost c: Tree) returns (h: Hash32)
      requires !store.clobbered && c != Empty && Grown(store.tree, Some(child), c)
      modifies store
      ensures !store.clobbered ==> Grown(old(store.tree), Some(h), Tail(prefix, c))
    {
      if prefix == [] { return child; }
      h := PutExt(prefix, child, c);
    }

    method PutExt(prefix: Nibbles, child: Hash32, ghost c: Tree) returns (h: Hash32)
      modifies store
      ensures old(store.clobbered) ==> store.clobbered
      ensures !store.clobbered ==> Grew(old(store.tree), store.tree)
      ensures !store.clobbered && c != Empty && old(Grown(store.tree, Some(child), c)) ==>
        Grown(old(store.tree), Some(h), Ext(prefix, c))
    {
      h := store.PutNode(ExtNode(prefix, child));
      if !store.clobbered && c != Empty && old(Grown(store.tree, Some(child), c)) {
        HashOfExt(store.lib, prefix, c);
        BackedGrew(store.lib, old(store.tree), store.tree, c);
      }
    }

    /** The children of a branch under construction are the hashes of `cs`, all of it stored. */
    ghost predicate Mirrors(children: Slots, cs: seq<Tree>)
      reads store
    {
      && |cs| == 16
      && forall i | 0 <= i < 16 ::
           WellFormed(cs[i]) && children[i] == Root(store.lib, cs[i]) && Backed(store.lib, store.tree, cs[i])
    }

    /** Hang the rest `k` of a key on a branch under construction: in its slot, or as a new leaf. */
    method PutHang(children: Slots, slot: Option<Bytes>, k: Nibbles, value: Bytes, ghost cs: seq<Tree>)
      returns (children': Slots, slot': Option<Bytes>)
      requires |cs| == 16
      modifies store
      ensures old(store.clobbered) ==> store.clobbered
      ensures slot' == Hang(cs, slot, k, value).1
      ensures !store.clobbered ==> Grew(old(store.tree), store.tree)
      ensures !store.clobbered && old(Mirrors(children, cs)) ==> Mirrors(children', Hang(cs, slot, k, value).0)
    {
      if k == [] { return children, Some(value); }
      var h := store.PutNode(LeafNode(k[1..], value));
      HashOfLeaf(store.lib, k[1..], value);
      children', slot' := children[k[0] := Some(h)], slot;
      if !store.clobbered && old(Mirrors(children, cs)) {
        forall i | 0 <= i < 16 ensures Backed(store.lib, store.tree, cs[i]) {
          BackedGrew(store.lib, old(store.tree), store.tree, cs[i]);
        }
      }
    }

    /** Store a branch and, if `prefix` is not empty, an extension over it. */
    method PutFork(prefix: Nibbles, children: Slots, slot: Option<Bytes>, ghost cs: seq<Tree>) returns (hash: Hash32)
      modifies store
      ensures old(store.clobbered) ==> store.clobbered
      ensures !store.clobbered ==> Grew(old(store.tree), store.tree)
      ensures !store.clobbered && old(Mirrors(children, cs)) ==>
        Grown(old(store.tree), Some(hash), Fork(prefix, cs, slot))
    {
      ghost var sane := Mirrors(children, cs);
      ghost var branch := Branch(cs, slot);
      hash := store.PutNode(BranchNode(children, slot));
      if !store.clobbered && sane {
        HashOfBranch(store.lib, cs, slot, children);
        forall i | 0 <= i < 16 ensures Backed(store.lib, store.tree, cs[i]) {
          BackedGrew(store.lib, old(store.tree), store.tree, cs[i]);
        }
      }
      if prefix != [] { hash := PutExt(prefix, hash, branch); }
    }

    /** Returns the new root, or 32 zero bytes when the trie became empty. */
    method Delete(key: Key, ghost t: Tree) returns (r: Result<Hash32, TrieError>)
      requires Denotes(t)
      modifies this, store
      ensures r.Ok? ==> r.value == OrZero(root)
      ensures r.Err? ==> root == old(root) && store.tree == old(store.tree)
      ensures !store.clobbered ==>
        && (r.Err? <==> Blocked(t, KeyToNibbles(key)))
        && Grew(old(store.tree), store.tree)
        && (r.Ok? && Whole(t) ==> WellFormed(TrieShape.Delete(t, KeyToNibbles(key)))
                                  && Denotes(TrieShape.Delete(t, KeyToNibbles(key))))
    {
      var nibbles := KeyToNibbles(key);
      var d := DeleteRecursive(root, nibbles, t);
      if d.Err? { return Err(d.error); }
      root := d.value;
      if Whole(t) && !store.clobbered {
        DeleteWellFormed(t, nibbles);
        WholeBackedIsStored(store.lib, store.tree, TrieShape.Delete(t, nibbles));
      }
      return Ok(OrZero(root));
    }

    method DeleteRecursive(root: Option<Hash32>, nibbles: Nibbles, ghost t: Tree)
      returns (r: Result<Option<Hash32>, TrieError>)
      requires !store.clobbered
      requires WellFormed(t) && Root(store.lib, t) == root && Stored(store.lib, store.tree, t)
      modifies store
      ensures r.Err? ==> store.tree == old(store.tree) && !store.clobbered && Blocked(t, nibbles)
      ensures r == Ok(None) ==> store.tree == old(store.tree) && !store.clobbered
      ensures !store.clobbered && r.Ok? ==>
        !Blocked(t, nibbles) && Grown(old(store.tree), r.value, TrieShape.Delete(t, nibbles))
      decreases t, 1
    {
      if root.None? { return Ok(None); }
      StoredIsBacked(store.lib, store.tree, t);
      var node := store.GetNode(root.value);
      if node.None? { return Err(NodeNotFound); }
      match node.value
      case LeafNode(suffix, _) =>
        r := if suffix == nibbles then Ok(None) else Ok(root);
      case ExtNode(prefix, child) =>
        if !(prefix <= nibbles) { return Ok(root); }
        r := DeleteRecursive(Some(child), nibbles[|prefix|..], t.child);
        if r.Ok? && r.value.Some? {
          ghost var c' := TrieShape.Delete(t.child, nibbles[|prefix|..]);
          if !store.clobbered { NeverMissing(t.child, nibbles[|prefix|..]); }
          var h := PutMerged(prefix, r.value.value, c');
          r := Ok(Some(h));
        }
      case BranchNode(children, slot) =>
        if nibbles == [] {
          var h := PutCollapsed(children, None, t.children);
          r := Ok(h);
        } else {
          r := DeleteBelowBranch(children, slot, nibbles, t);
        }
    }

    method DeleteBelowBranch(children: Slots, slot: Option<Bytes>, nibbles: Nibbles, ghost t: Tree)
      returns (r: Result<Option<Hash32>, TrieError>)
      requires !store.clobbered && nibbles != []
      requires WellFormed(t) && Stored(store.lib, store.tree, t)
      requires t.Branch? && NodeOf(store.lib, t) == BranchNode(children, slot)
      modifies store
      ensures r.Err? ==> store.tree == old(store.tree) && !store.clobbered && Blocked(t, nibbles)
      ensures r == Ok(None) ==> store.tree == old(store.tree) && !store.clobbered
      ensures !store.clobbered && r.Ok? ==>
        !Blocked(t, nibbles) && Grown(old(store.tree), r.value, TrieShape.Delete(t, nibbles))
      decreases t, 0
    {
      var n := nibbles[0];
      ghost var s0 := store.tree;
      var below := DeleteRecursive(children[n], nibbles[1..], t.children[n]);
      if below.Err? { return below; }
      ghost var cs' := t.children[n := TrieShape.Delete(t.children[n], nibbles[1..])];
      if !store.clobbered {
        NeverMissing(t.children[n], nibbles[1..]);
        BranchStillBacked(s0, t, n, cs');
      }
      var children' := children[n := below.value];
      if !store.clobbered {
        forall i | 0 <= i < 16 && cs'[i].Missing? && OnlyChild(cs', i) ensures cs'[i].hash !in store.tree {
          assert i != n && cs'[n] == Empty && below.value.None?;
          assert Stored(store.lib, s0, t.children[i]);
        }
        assert Mirrors(children', cs');
      }
      var h := PutCollapsed(children', slot, cs');
      assert h.None? ==> children'[n].None?;
      assert TrieShape.Delete(t, nibbles) == Collapse(cs', slot);
      r := Ok(h);
    }

    /** Store the child `h` with `prefix` in front of it, merged with it if it is a leaf or an extension. */
    method PutMerged(prefix: Nibbles, h: Hash32, ghost c: Tree) returns (h': Hash32)
      modifies store
      ensures old(store.clobbered) ==> store.clobbered
      ensures !store.clobbered ==> Grew(old(store.tree), store.tree)
      ensures !store.clobbered && c != Empty && old(Grown(store.tree, Some(h), c)) && (c.Missing? ==> h !in old(store.tree)) ==>
        Grown(old(store.tree), Some(h'), Merge(prefix, c))
    {
      var node := store.GetNode(h);
      match node
      case Some(LeafNode(suffix, value)) =>
        h' := store.PutNode(LeafNode(prefix + suffix, value));
        HashOfLeaf(store.lib, prefix + suffix, value);
      case Some(ExtNode(inner, grandchild)) =>
        h' := PutExt(prefix + inner, grandchild, if c.Ext? then c.child else Empty);
      case _ =>
        h' := PutExt(prefix, h, c);
    }

    /** How many slots are occupied says which way the branch collapses. */
    lemma {:induction false} RemainingDecides(children: Slots, cs: seq<Tree>, r: seq<(Nibble, Hash32)>)
      requires Mirrors(children, cs)
      requires forall e | e in r :: children[e.0] == Some(e.1)
      requires forall i: Nibble | children[i].Some? :: (i, children[i].value) in r
      requires forall a, b | 0 <= a < b < |r| :: r[a].0 != r[b].0
      ensures |r| == 0 <==> Childless(cs)
      ensures |r| == 1 ==> OnlyChild(cs, r[0].0)
      ensures |r| > 1 ==> !exists i: Nibble :: OnlyChild(cs, i)
    {
      forall i: nat | i < 16 && cs[i] != Empty ensures exists a :: 0 <= a < |r| && r[a].0 == i {
        var n: Nibble := i;
        var e := (n, children[n].value);
        assert e in r;
      }
      if |r| > 1 { assert r[0] in r && r[1] in r && r[0].0 != r[1].0; }
      if |r| == 1 { assert r[0] in r; }
      if |r| > 0 { assert r[0] in r; }
    }

    /** Store what is left of a branch in canonical shape: nothing, a leaf, a merged child, or a branch. */
    method PutCollapsed(children: Slots, slot: Option<Bytes>, ghost cs: seq<Tree>) returns (r: Option<Hash32>)
      requires |cs| == 16
      modifies store
      ensures old(store.clobbered) ==> store.clobbered
      ensures r.None? ==> store.tree == old(store.tree) && store.clobbered == old(store.clobbered)
      ensures r.None? ==> forall i | 0 <= i < 16 :: children[i].None?
      ensures !store.clobbered ==> Grew(old(store.tree), store.tree)
      ensures !store.clobbered && old(Mirrors(children, cs)) && (forall i | 0 <= i < 16 :: cs[i].Missing? && OnlyChild(cs, i) ==> cs[i].hash !in old(store.tree)) ==>
        Grown(old(store.tree), r, Collapse(cs, slot))
    {
      var remaining := Remaining(children);
      ghost var sane := Mirrors(children, cs);
      if sane { RemainingDecides(children, cs, remaining); }
      if |remaining| == 0 && slot.None? {
        r := None;
      } else if |remaining| == 0 {
        var h := store.PutNode(LeafNode([], slot.value));
        HashOfLeaf(store.lib, [], slot.value);
        r := Some(h);
      } else if |remaining| == 1 && slot.None? {
        var (nibble, child) := remaining[0];
        if sane { OnlyChildCollapses(cs, nibble); }
        var h := PutMerged([nibble], child, cs[nibble]);
        r := Some(h);
      } else {
        var h := PutFork([], children, slot, cs);
        r := Some(h);
      }
    }

    // ------------------------------------------------- garbage collection

    /** Remove the nodes reachable from `oldRoot` but not from the current root. */
    method GcSince(oldRoot: Hash32, ghost t: Tree, ghost oldTree: Tree) returns (deleted: nat)
      requires Denotes(t)
      requires WellFormed(oldTree) && Root(store.lib, oldTree) == Some(oldRoot) && Stored(store.lib, store.tree, oldTree)
      modifies store
      ensures root.None? ==> store.tree == old(store.tree)
      ensures root.Some? ==> store.tree == old(store.tree) - (Hashes(store.lib, oldTree) - Hashes(store.lib, t))
      ensures deleted == |old(store.tree.Keys)| - |store.tree.Keys|
      ensures Denotes(t)
    {
      if root.None? { return 0; }
      var live := CollectReachable(root, {}, t, {});
      deleted := DeleteUnreachable(Some(oldRoot), live, 0, oldTree, store.tree);
      TrimmedKeeps(store.lib, old(store.tree), store.tree, t, Hashes(store.lib, oldTree));
    }

    method CollectReachable(root: Option<Hash32>, live: set<Hash32>, ghost t: Tree, ghost stack: set<Hash32>)
      returns (live': set<Hash32>)
      requires WellFormed(t) && Root(store.lib, t) == root && Stored(store.lib, store.tree, t)
      requires Closed(store.tree, live, stack) && Hashes(store.lib, t) !! stack
      ensures live' == live + Hashes(store.lib, t)
      ensures Closed(store.tree, live', stack)
      decreases t, 1
    {
      live' := live;
      if root.None? { return; }
      var hash := root.value;
      if hash in live {
        ClosedCovers(store.lib, store.tree, t, live, stack);
        return;
      }
      live' := live' + {hash};
      var node := store.GetNode(hash);
      if node.None? { return; }
      match node.value
      case LeafNode(_, _) =>
      case ExtNode(_, child) =>
        NoCycle(store.lib, store.tree, t, t.child);
        live' := CollectReachable(Some(child), live', t.child, stack + {hash});
      case BranchNode(children, _) =>
        live' := CollectChildren(children, live', t, stack + {hash});
        HashesOfBranch(store.lib, t);
        forall k | k in Kids(node.value) ensures k in live' { KidsInside(store.lib, store.tree, t, k); }
    }

    method CollectChildren(children: Slots, live: set<Hash32>, ghost t: Tree, ghost stack: set<Hash32>)
      returns (live': set<Hash32>)
      requires t.Branch? && WellFormed(t) && Stored(store.lib, store.tree, t) && NodeOf(store.lib, t).children == children
      requires Closed(store.tree, live, stack)
      requires HashOf(store.lib, t) in stack && Hashes(store.lib, t) !! stack - {HashOf(store.lib, t)}
      ensures live' == live + HashesUpTo(store.lib, t.children, 16)
      ensures Closed(store.tree, live', stack)
      decreases t, 0
    {
      live' := live;
      for i := 0 to 16
        invariant live' == live + HashesUpTo(store.lib, t.children, i)
        invariant Closed(store.tree, live', stack)
      {
        ghost var c := t.children[i];
        if children[i].Some? {
          assert forall h | h in Hashes(store.lib, c) :: h in Hashes(store.lib, t);
          NoCycle(store.lib, store.tree, t, c);
          live' := CollectReachable(children[i], live', c, stack);
        }
      }
    }

    method DeleteUnreachable(root: Option<Hash32>, live: set<Hash32>, deleted: nat, ghost t: Tree, ghost s0: NodeMap)
      returns (deleted': nat)
      requires WellFormed(t) && Root(store.lib, t) == root && Stored(store.lib, s0, t)
      requires Grew(store.tree, s0) && Closed(s0, live, {}) && Swept(s0, store.tree, live)
      modifies store
      ensures Trimmed(old(store.tree), store.tree, Hashes(store.lib, t), live)
      ensures deleted' + |store.tree.Keys| == deleted + |old(store.tree.Keys)|
      ensures Swept(s0, store.tree, live)
      ensures store.clobbered == old(store.clobbered)
      decreases t, 2
    {
      deleted' := deleted;
      if root.None? { return; }
      var hash := root.value;
      if hash in live {
        ClosedCovers(store.lib, s0, t, live, {});
        return;
      }
      var node := store.GetNode(hash);
      if node.None? {
        forall h | h in Hashes(store.lib, t) ensures h in live || h !in store.tree {
          SweptCovers(store.lib, s0, store.tree, t, live, h);
        }
        return;
      }
      deleted' := DeleteBelow(node.value, live, deleted', t, s0);
      TrimTop(store.lib, s0, old(store.tree), store.tree, t, live);
      store.DeleteNode(hash);
      deleted' := deleted' + 1;
    }

    /** The part of `DeleteUnreachable` that recurses, before the node itself is deleted. */
    method DeleteBelow(node: Node, live: set<Hash32>, deleted: nat, ghost t: Tree, ghost s0: NodeMap)
      returns (deleted': nat)
      requires WellFormed(t) && Stored(store.lib, s0, t) && t != Empty && !t.Missing? && NodeOf(store.lib, t) == node
      requires Grew(store.tree, s0) && Closed(s0, live, {}) && Swept(s0, store.tree, live)
      modifies store
      ensures Trimmed(old(store.tree), store.tree, Hashes(store.lib, t) - {HashOf(store.lib, t)}, live)
      ensures forall k | k in Kids(node) :: k != HashOf(store.lib, t)
      ensures deleted' + |store.tree.Keys| == deleted + |old(store.tree.Keys)|
      ensures Swept(s0, store.tree, live)
      ensures store.clobbered == old(store.clobbered)
      decreases t, 1
    {
      deleted' := deleted;
      match node
      case LeafNode(_, _) =>
      case ExtNode(_, child) =>
        NoCycle(store.lib, s0, t, t.child);
        assert Hashes(store.lib, t) - {HashOf(store.lib, t)} == Hashes(store.lib, t.child);
        deleted' := DeleteUnreachable(Some(child), live, deleted', t.child, s0);
      case BranchNode(children, _) =>
        deleted' := DeleteChildren(children, live, deleted', t, s0);
        HashesOfBranch(store.lib, t);
        assert Hashes(store.lib, t) - {HashOf(store.lib, t)} == HashesUpTo(store.lib, t.children, 16);
        forall k | k in Kids(node) ensures k != HashOf(store.lib, t) {
          KidsInside(store.lib, s0, t, k);
          HashesUpToHas(store.lib, t.children, 16, k);
        }
    }

    method DeleteChildren(children: Slots, live: set<Hash32>, deleted: nat, ghost t: Tree, ghost s0: NodeMap)
      returns (deleted': nat)
      requires t.Branch? && WellFormed(t) && Stored(store.lib, s0, t) && NodeOf(store.lib, t).children == children
      requires Grew(store.tree, s0) && Closed(s0, live, {}) && Swept(s0, store.tree, live)
      modifies store
      ensures Trimmed(old(store.tree), store.tree, HashesUpTo(store.lib, t.children, 16), live)
      ensures HashOf(store.lib, t) !in HashesUpTo(store.lib, t.children, 16)
      ensures deleted' + |store.tree.Keys| == deleted + |old(store.tree.Keys)|
      ensures Swept(s0, store.tree, live)
      ensures store.clobbered == old(store.clobbered)
      decreases t, 0
    {
      deleted' := deleted;
      for i := 0 to 16
        invariant Trimmed(old(store.tree), store.tree, HashesUpTo(store.lib, t.children, i), live)
        invariant HashOf(store.lib, t) !in HashesUpTo(store.lib, t.children, i)
        invariant deleted' + |store.tree.Keys| == deleted + |old(store.tree.Keys)|
        invariant Swept(s0, store.tree, live) && store.clobbered == old(store.clobbered)
      {
        ghost var c := t.children[i];
        if children[i].Some? {
          ghost var s1 := store.tree;
          NoCycle(store.lib, s0, t, c);
          deleted' := DeleteUnreachable(children[i], live, deleted', c, s0);
          TrimmedTwice(old(store.tree), s1, store.tree, HashesUpTo(store.lib, t.children, i), Hashes(store.lib, c), live);
        }
      }
    }

    // ------------------------------------------------------------- proofs

    method Prove(key: Key, ghost t: Tree) returns (r: Result<MerkleProof, TrieError>)
      requires Denotes(t)
      ensures r == if Blocked(t, KeyToNibbles(key)) then Err(NodeNotFound) else Ok(ProofOf(store.lib, t, key))
    {
      var g := GetWithProof(root, KeyToNibbles(key), [], [], t);
      if g.Err? { return Err(g.error); }
      var (value, siblings, path) := g.value;
      assert siblings == SiblingsOf(store.lib, t, KeyToNibbles(key)) && path == PathOf(t, KeyToNibbles(key));
      assert ProofOf(store.lib, t, key).value == value;
      return Ok(MerkleProof(key, value, OrZero(root), siblings, path));
    }

    method GetWithProof(root: Option<Hash32>, nibbles: Nibbles, siblings: seq<Hash32>, path: seq<PathStep>, ghost t: Tree)
      returns (r: Result<(Option<Bytes>, seq<Hash32>, seq<PathStep>), TrieError>)
      requires WellFormed(t) && Root(store.lib, t) == root && Stored(store.lib, store.tree, t)
      ensures r == if Blocked(t, nibbles) then Err(NodeNotFound)
                   else Ok((TrieShape.Get(t, nibbles), siblings + SiblingsOf(store.lib, t, nibbles), path + PathOf(t, nibbles)))
      decreases t
    {
      if root.None? {
        assert siblings + [] == siblings && path + [] == path;
        return Ok((None, siblings, path));
      }
      var node := store.GetNode(root.value);
      if node.None? { return Err(NodeNotFound); }
      assert HashOf(store.lib, t) == NodeHash(store.lib, node.value);
      match node.value
      case LeafNode(suffix, value) =>
        assert siblings + [] == siblings;
        if suffix == nibbles {
          r := Ok((Some(value), siblings, path + [LeafStep]));
        } else {
          r := Ok((None, siblings + [NodeHash(store.lib, node.value)], path + [LeafStep]));
        }
      case ExtNode(prefix, child) =>
        var path' := path + [ExtStep(|prefix| % 256)];
        if prefix <= nibbles {
          ProofBelowExt(store.lib, t, nibbles, path);
          r := GetWithProof(Some(child), nibbles[|prefix|..], siblings, path', t.child);
        } else {
          assert [ExtStep(|prefix| % 256)] + [] == [ExtStep(|prefix| % 256)];
          r := Ok((None, siblings + [NodeHash(store.lib, node.value)], path'));
        }
      case BranchNode(children, slot) =>
        if nibbles == [] {
          var x := XorAllBut(children, 16);
          r := Ok((slot, siblings + [x], path + [BranchStep(16)]));
        } else {
          var n := nibbles[0];
          var x := XorAllBut(children, n);
          var siblings', path' := siblings + [XorValue(store.lib, x, slot)], path + [BranchStep(n)];
          ProofBelowBranch(store.lib, t, nibbles, siblings, path);
          r := GetWithProof(children[n], nibbles[1..], siblings', path', t.children[n]);
        }
    }

    /** XOR of all child hashes but the one at `skip`; 16 skips none. */
    method XorAllBut(children: Slots, skip: nat) returns (x: Hash32)
      requires skip <= 16
      ensures x == XorSlots(if skip < 16 then children[skip := None] else children)
    {
      ghost var hs := if skip < 16 then children[skip := None] else children;
      x := Zero();
      for i := 0 to 16
        invariant x == XorSlots(hs[..i])
      {
        assert hs[..i + 1][..i] == hs[..i];
        if i != skip && children[i].Some? { x := Xor(x, children[i].value); }
      }
      assert hs[..16] == hs;
    }
  }

  /** One insert or delete on the store. */
  method ApplyOp(trie: MerklePatriciaTrie, op: H.Op, ghost t: Tree)
    requires trie.Denotes(t) && H.Canonical(t)
    modifies trie, trie.store
    ensures !trie.store.clobbered ==> trie.Denotes(H.ApplyOp(t, op)) && Grew(old(trie.store.tree), trie.store.tree)
  {
    H.CanonicalIsWhole(t);
    H.WholeNotBlocked(t, KeyToNibbles(op.key));
    match op {
      case Put(key, value) => var _ := trie.Insert(key, value, t);
      case Remove(key) => var _ := trie.Delete(key, t);
    }
  }

  /**
   Any history of inserts and deletes, run on the store from an empty trie, ends with the root of the trie that
   `Grow` describes, unless a put replaced a different node.  Two histories with the same final contents
   therefore end with the same root (`HistoryIndependent`).
   */
  method RunHistory(trie: MerklePatriciaTrie, ops: seq<H.Op>)
    requires trie.Denotes(Empty)
    modifies trie, trie.store
    ensures !trie.store.clobbered ==> trie.Denotes(H.Grow(ops)) && trie.root == Root(trie.store.lib, H.Grow(ops))
    ensures !trie.store.clobbered ==> Grew(old(trie.store.tree), trie.store.tree)
  {
    for i := 0 to |ops|
      invariant trie.Denotes(H.Grow(ops[..i])) && Grew(old(trie.store.tree), trie.store.tree)
    {
      H.GrowNext(ops, i);
      ApplyOp(trie, ops[i], H.Grow(ops[..i]));
      if trie.store.clobbered { return; }
    }
    assert ops[..|ops|] == ops;
  }
}
