/**
 History independence: insert and delete keep one canonical shape, a canonical
 trie is determined by the map it stands for, and so any two histories that
 end in the same map end in the same trie.
 */
module TrieHistory {
  import opened Basics
  import opened Hashing
  import opened TrieShape

  /** At least two of a branch's 17 entries (16 children and the slot) are in use. */
  ghost predicate Crowded(cs: seq<Tree>, slot: Option<Bytes>) {
    || (slot.Some? && !Childless(cs))
    || exists i, j :: 0 <= i < j < |cs| && cs[i] != Empty && cs[j] != Empty
  }

  /** An extension has a non-empty prefix and leads to a branch; a branch is crowded. */
  ghost predicate Canonical(t: Tree) {
    match t
    case Ext(p, c) => p != [] && c.Branch? && Canonical(c)
    case Branch(cs, slot) => |cs| == 16 && Crowded(cs, slot) && forall i | 0 <= i < 16 :: Canonical(cs[i])
    case Missing(_) => false
    case _ => true
  }

  lemma {:induction false} CanonicalIsWhole(t: Tree)
    requires Canonical(t)
    ensures WellFormed(t) && Whole(t)
  {
    match t
    case Ext(_, c) => CanonicalIsWhole(c);
    case Branch(cs, _) => forall i | 0 <= i < 16 ensures WellFormed(cs[i]) && Whole(cs[i]) { CanonicalIsWhole(cs[i]); }
    case _ =>
  }

  lemma {:induction false} WholeNotBlocked(t: Tree, k: Nibbles)
    requires WellFormed(t) && Whole(t)
    ensures !Blocked(t, k)
  {
    match t
    case Ext(p, c) => if p <= k { WholeNotBlocked(c, k[|p|..]); }
    case Branch(cs, _) => if k != [] { WholeNotBlocked(cs[k[0]], k[1..]); }
    case _ =>
  }

  lemma {:induction false} LeafForkCanonical(s: Nibbles, w: Bytes, k: Nibbles, v: Bytes)
    requires s != k
    ensures Canonical(Insert(Leaf(s, w), k, v))
  {
    var m := Common(s, k);
    if m == |s| && m == |k| { assert s == s[..m] && k == k[..m]; }
    var (cs0, slot0) := Hang(NoChildren(), None, s[m..], w);
    var (cs, slot) := Hang(cs0, slot0, k[m..], v);
    if m < |s| { assert cs0[s[m]] != Empty && cs[s[m]] != Empty; }
    if m < |k| { assert cs[k[m]] != Empty; }
    assert Crowded(cs, slot);
    assert forall i | 0 <= i < 16 :: Canonical(cs[i]);
  }

  lemma {:induction false} ExtForkCanonical(p: Nibbles, c: Tree, k: Nibbles, v: Bytes)
    requires Canonical(Ext(p, c)) && WellFormed(Ext(p, c)) && Common(p, k) < |p|
    ensures Canonical(Insert(Ext(p, c), k, v))
  {
    var m := Common(p, k);
    var (cs, slot) := Hang(NoChildren()[p[m] := Tail(p[m + 1..], c)], None, k[m..], v);
    assert cs[p[m]] != Empty && (m < |k| ==> cs[k[m]] != Empty);
    assert Crowded(cs, slot);
    assert forall i | 0 <= i < 16 :: Canonical(cs[i]);
  }

  lemma {:induction false} InsertCanonical(t: Tree, k: Nibbles, v: Bytes)
    requires Canonical(t)
    ensures WellFormed(t) && Canonical(Insert(t, k, v)) && Insert(t, k, v) != Empty
    ensures t.Branch? ==> Insert(t, k, v).Branch?
  {
    CanonicalIsWhole(t);
    InsertWellFormed(t, k, v);
    match t
    case Leaf(s, w) => if s != k { LeafForkCanonical(s, w, k, v); }
    case Ext(p, c) =>
      if Common(p, k) == |p| { InsertCanonical(c, k[|p|..], v); } else { ExtForkCanonical(p, c, k, v); }
    case Branch(cs, slot) =>
      if k != [] {
        InsertCanonical(cs[k[0]], k[1..], v);
        var cs' := cs[k[0] := Insert(cs[k[0]], k[1..], v)];
        assert forall i | 0 <= i < 16 :: cs[i] != Empty ==> cs'[i] != Empty;
        assert Crowded(cs', slot);
      } else {
        assert !Childless(cs);
      }
    case _ =>
  }

  lemma {:induction false} CollapseCanonical(cs: seq<Tree>, slot: Option<Bytes>)
    requires |cs| == 16 && forall i | 0 <= i < 16 :: Canonical(cs[i])
    ensures Canonical(Collapse(cs, slot))
  {
    if !Childless(cs) {
      if slot.None? && exists i: Nibble :: OnlyChild(cs, i) {
        var i: Nibble :| OnlyChild(cs, i) && Collapse(cs, slot) == Merge([i], cs[i]);
        assert Canonical(cs[i]);
      } else if slot.None? {
        var i: nat :| i < 16 && cs[i] != Empty;
        var n: Nibble := i;
        assert !OnlyChild(cs, n);
        assert Crowded(cs, slot);
      }
    }
  }

  lemma {:induction false} DeleteCanonical(t: Tree, k: Nibbles)
    requires Canonical(t)
    ensures WellFormed(t) && Canonical(Delete(t, k))
  {
    CanonicalIsWhole(t);
    match t
    case Ext(p, c) => if p <= k { DeleteCanonical(c, k[|p|..]); }
    case Branch(cs, slot) =>
      if k != [] { DeleteCanonical(cs[k[0]], k[1..]); }
      CollapseCanonical(if k == [] then cs else cs[k[0] := Delete(cs[k[0]], k[1..])], if k == [] then None else slot);
    case _ =>
  }

  // ------------------------------------------------- the map fixes the trie

  lemma {:induction false} SomeKey(t: Tree) returns (k: Nibbles)
    requires Canonical(t) && t != Empty
    ensures WellFormed(t) && Get(t, k).Some?
  {
    CanonicalIsWhole(t);
    match t {
      case Leaf(s, _) => k := s;
      case Ext(p, c) =>
        var r := SomeKey(c);
        k := p + r;
        assert k[|p|..] == r;
      case Branch(cs, slot) =>
        var i: Nibble :| cs[i] != Empty;
        k := KeyVia(cs, slot, i);
    }
  }

  lemma {:induction false} KeyVia(cs: seq<Tree>, slot: Option<Bytes>, i: Nibble) returns (k: Nibbles)
    requires Canonical(Branch(cs, slot)) && cs[i] != Empty
    ensures k != [] && k[0] == i && WellFormed(Branch(cs, slot)) && Get(Branch(cs, slot), k).Some?
    decreases Branch(cs, slot), 0
  {
    CanonicalIsWhole(Branch(cs, slot));
    var r := SomeKey(cs[i]);
    k := [i] + r;
    assert k[1..] == r;
  }

  /** A canonical branch holds two keys that differ in the very first step. */
  lemma {:induction false} Diverging(t: Tree) returns (a: Nibbles, b: Nibbles)
    requires Canonical(t) && t.Branch?
    ensures WellFormed(t) && Get(t, a).Some? && Get(t, b).Some?
    ensures b != [] && (a == [] || a[0] != b[0])
  {
    CanonicalIsWhole(t);
    var cs, slot := t.children, t.slot;
    if slot.Some? {
      var i: Nibble :| cs[i] != Empty;
      a := [];
      b := KeyVia(cs, slot, i);
    } else {
      var i, j :| 0 <= i < j < |cs| && cs[i] != Empty && cs[j] != Empty;
      a := KeyVia(cs, slot, i);
      b := KeyVia(cs, slot, j);
    }
  }

  ghost predicate SameMap(t: Tree, u: Tree)
    requires WellFormed(t) && WellFormed(u)
  {
    forall k :: Get(t, k) == Get(u, k)
  }

  /** The keys of `t` are not all equal and do not all start with the same nibble. */
  ghost predicate Spread(t: Tree)
    requires WellFormed(t)
  {
    exists a, b :: Get(t, a).Some? && Get(t, b).Some? && b != [] && (a == [] || a[0] != b[0])
  }

  lemma {:induction false} BranchSpread(t: Tree)
    requires Canonical(t) && t.Branch?
    ensures WellFormed(t) && Spread(t)
  {
    var a, b := Diverging(t);
  }

  /** Two canonical tries for the same map are the same trie. */
  lemma {:induction false} Unique(t: Tree, u: Tree)
    requires Canonical(t) && Canonical(u)
    requires WellFormed(t) && WellFormed(u) && SameMap(t, u)
    ensures t == u
    decreases t
  {
    if t == Empty || u == Empty {
      if t != Empty { var k := SomeKey(t); }
      if u != Empty { var k := SomeKey(u); }
    } else if t.Branch? && u.Branch? {
      assert Get(t, []) == Get(u, []);
      forall i: nat | i < 16 ensures t.children[i] == u.children[i] {
        var n: Nibble := i;
        forall k ensures Get(t.children[i], k) == Get(u.children[i], k) {
          assert ([n] + k)[1..] == k;
          assert Get(t, [n] + k) == Get(u, [n] + k);
        }
        Unique(t.children[i], u.children[i]);
      }
    } else if t.Ext? && u.Ext? {
      SamePrefix(t, u);
      forall k ensures Get(t.child, k) == Get(u.child, k) {
        assert (t.prefix + k)[|t.prefix|..] == k;
        assert Get(t, t.prefix + k) == Get(u, u.prefix + k);
      }
      Unique(t.child, u.child);
    } else if t.Leaf? && u.Leaf? {
      assert Get(t, t.suffix) == Get(u, t.suffix);
    } else if t.Branch? {
      BranchSpread(t);
      NotSpread(u);
    } else if u.Branch? {
      BranchSpread(u);
      NotSpread(t);
    } else if t.Ext? {
      LeafIsNotExt(u, t);
    } else {
      LeafIsNotExt(t, u);
    }
  }

  /** All keys of a leaf or of an extension start alike. */
  lemma {:induction false} NotSpread(t: Tree)
    requires Canonical(t) && (t.Leaf? || t.Ext?) && WellFormed(t)
    ensures !Spread(t)
  {
  }

  lemma {:induction false} LeafIsNotExt(t: Tree, u: Tree)
    requires Canonical(t) && Canonical(u) && t.Leaf? && u.Ext?
    requires WellFormed(t) && WellFormed(u)
    ensures !SameMap(t, u)
  {
    var a, b := Diverging(u.child);
    assert (u.prefix + a)[|u.prefix|..] == a && (u.prefix + b)[|u.prefix|..] == b;
    assert Get(u, u.prefix + a).Some? && Get(u, u.prefix + b).Some?;
    assert u.prefix + a != u.prefix + b;
    assert !(Get(t, u.prefix + a).Some? && Get(t, u.prefix + b).Some?);
  }

  lemma {:induction false} SamePrefix(t: Tree, u: Tree)
    requires Canonical(t) && Canonical(u) && t.Ext? && u.Ext?
    requires WellFormed(t) && WellFormed(u) && SameMap(t, u)
    ensures t.prefix == u.prefix
  {
    PrefixCovers(t, u);
    PrefixCovers(u, t);
  }

  lemma {:induction false} PrefixCovers(t: Tree, u: Tree)
    requires Canonical(t) && Canonical(u) && t.Ext? && u.Ext?
    requires WellFormed(t) && WellFormed(u) && SameMap(t, u)
    ensures u.prefix <= t.prefix
  {
    var p, q := t.prefix, u.prefix;
    var a, b := Diverging(t.child);
    assert (p + a)[|p|..] == a && (p + b)[|p|..] == b;
    assert Get(t, p + a).Some? && Get(t, p + b).Some?;
    assert Get(u, p + a).Some? && Get(u, p + b).Some?;
    assert q <= p + a && q <= p + b;
    assert (p + b)[|p|] == b[0] && (a != [] ==> (p + a)[|p|] == a[0]);
  }

  // ------------------------------------------------------------- histories

  datatype Op = Put(key: Key, value: Bytes) | Remove(key: Key)

  /** What a history does to a map from keys to values. */
  ghost function Contents(ops: seq<Op>): map<Key, Bytes> {
    if ops == [] then map[] else
      var m := Contents(ops[..|ops| - 1]);
      match ops[|ops| - 1]
      case Put(k, v) => m[k := v]
      case Remove(k) => m - {k}
  }

  /** What one step of it does to a trie. */
  ghost function ApplyOp(t: Tree, op: Op): (t': Tree)
    requires Canonical(t)
    ensures Canonical(t') && WellFormed(t')
  {
    match op
    case Put(k, v) => InsertCanonical(t, KeyToNibbles(k), v); CanonicalIsWhole(Insert(t, KeyToNibbles(k), v));
                      Insert(t, KeyToNibbles(k), v)
    case Remove(k) => DeleteCanonical(t, KeyToNibbles(k)); CanonicalIsWhole(Delete(t, KeyToNibbles(k)));
                      Delete(t, KeyToNibbles(k))
  }

  /** What it does to the trie, starting from the empty one. */
  ghost function Grow(ops: seq<Op>): (t: Tree)
    ensures Canonical(t) && WellFormed(t)
  {
    if ops == [] then Empty else ApplyOp(Grow(ops[..|ops| - 1]), ops[|ops| - 1])
  }

  lemma {:induction false} GrowNext(ops: seq<Op>, i: nat)
    requires i < |ops|
    ensures Grow(ops[..i + 1]) == ApplyOp(Grow(ops[..i]), ops[i])
  {
    assert ops[..i + 1][..i] == ops[..i];
  }

  /** `t` holds exactly the map `m`: its keys are the nibble strings of the keys of `m`. */
  ghost predicate Holds(t: Tree, m: map<Key, Bytes>)
    requires WellFormed(t)
  {
    && (forall k: Key :: Get(t, KeyToNibbles(k)) == if k in m then Some(m[k]) else None)
    && (forall n: Nibbles :: Get(t, n).Some? ==> exists k: Key :: KeyToNibbles(k) == n)
  }

  lemma {:induction false} PutHolds(t: Tree, m: map<Key, Bytes>, k: Key, v: Bytes)
    requires WellFormed(t) && Whole(t) && Holds(t, m)
    ensures WellFormed(Insert(t, KeyToNibbles(k), v)) && Holds(Insert(t, KeyToNibbles(k), v), m[k := v])
  {
    var n := KeyToNibbles(k);
    WholeNotBlocked(t, n);
    InsertWellFormed(t, n, v);
    var u := Insert(t, n, v);
    forall n' ensures Get(u, n') == if n' == n then Some(v) else Get(t, n') {
      GetInsert(t, n, v, n');
    }
    forall k': Key ensures Get(u, KeyToNibbles(k')) == if k' in m[k := v] then Some(m[k := v][k']) else None {
      if KeyToNibbles(k') == n { KeyToNibblesInjective(k, k'); }
    }
  }

  lemma {:induction false} RemoveAt(t: Tree, m: map<Key, Bytes>, k: Key, k': Key, u: Tree, m': map<Key, Bytes>)
    requires WellFormed(t) && Holds(t, m) && WellFormed(u)
    requires u == Delete(t, KeyToNibbles(k)) && m' == m - {k}
    ensures Get(u, KeyToNibbles(k')) == if k' in m' then Some(m'[k']) else None
  {
    GetDelete(t, KeyToNibbles(k), KeyToNibbles(k'));
    if KeyToNibbles(k') == KeyToNibbles(k) { KeyToNibblesInjective(k, k'); }
  }

  lemma {:induction false} RemoveHolds(t: Tree, m: map<Key, Bytes>, k: Key)
    requires WellFormed(t) && Holds(t, m)
    ensures WellFormed(Delete(t, KeyToNibbles(k))) && Holds(Delete(t, KeyToNibbles(k)), m - {k})
  {
    var n := KeyToNibbles(k);
    DeleteWellFormed(t, n);
    var u, m' := Delete(t, n), m - {k};
    forall k': Key ensures Get(u, KeyToNibbles(k')) == if k' in m' then Some(m'[k']) else None {
      RemoveAt(t, m, k, k', u, m');
    }
    forall n': Nibbles | Get(u, n').Some? ensures exists k': Key :: KeyToNibbles(k') == n' {
      GetDelete(t, n, n');
      assert Get(t, n').Some?;
    }
  }

  lemma {:induction false} GrowHolds(ops: seq<Op>)
    ensures Holds(Grow(ops), Contents(ops))
  {
    if ops != [] {
      var before := ops[..|ops| - 1];
      GrowHolds(before);
      CanonicalIsWhole(Grow(before));
      match ops[|ops| - 1]
      case Put(k, v) => PutHolds(Grow(before), Contents(before), k, v);
      case Remove(k) => RemoveHolds(Grow(before), Contents(before), k);
    }
  }

  lemma {:induction false} HoldsUnique(t: Tree, u: Tree, m: map<Key, Bytes>)
    requires Canonical(t) && Canonical(u) && WellFormed(t) && WellFormed(u)
    requires Holds(t, m) && Holds(u, m)
    ensures t == u
  {
    forall n: Nibbles ensures Get(t, n) == Get(u, n) {
      if k: Key :| KeyToNibbles(k) == n {
        assert Get(t, KeyToNibbles(k)) == Get(u, KeyToNibbles(k));
      }
    }
    Unique(t, u);
  }

  /** Main result: the final map alone decides the trie, however it was reached. */
  lemma {:induction false} HistoryIndependent(ops: seq<Op>, ops': seq<Op>)
    requires Contents(ops) == Contents(ops')
    ensures Grow(ops) == Grow(ops')
  {
    GrowHolds(ops);
    GrowHolds(ops');
    HoldsUnique(Grow(ops), Grow(ops'), Contents(ops));
  }

  /** Deleting an absent key, and inserting then deleting a fresh one, change nothing. */
  lemma {:induction false} DeleteAbsent(t: Tree, k: Nibbles)
    requires Canonical(t) && WellFormed(t) && Get(t, k) == None
    ensures Delete(t, k) == t
  {
    DeleteCanonical(t, k);
    DeleteWellFormed(t, k);
    forall k' ensures Get(Delete(t, k), k') == Get(t, k') { GetDelete(t, k, k'); }
    Unique(Delete(t, k), t);
  }

  lemma {:induction false} InsertThenDelete(t: Tree, k: Nibbles, v: Bytes)
    requires Canonical(t) && WellFormed(t) && Get(t, k) == None
    ensures WellFormed(Insert(t, k, v)) && Delete(Insert(t, k, v), k) == t
  {
    InsertCanonical(t, k, v);
    CanonicalIsWhole(t);
    WholeNotBlocked(t, k);
    var u := Insert(t, k, v);
    CanonicalIsWhole(u);
    DeleteCanonical(u, k);
    DeleteWellFormed(u, k);
    forall k' ensures Get(Delete(u, k), k') == Get(t, k') { GetDelete(u, k, k'); GetInsert(t, k, v, k'); }
    Unique(Delete(u, k), t);
  }
}
