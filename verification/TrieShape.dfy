/**
 The Merkle-Patricia trie as a finite tree: what insert and delete do to the
 shape of the trie, and what the trie means as a map from nibble strings to
 values.  `Missing` stands for a subtree whose root node is not in the store.
 */
module TrieShape {
  import opened Basics
  import opened Hashing

  datatype Tree =
    | Empty
    | Leaf(suffix: Nibbles, value: Bytes)
    | Ext(prefix: Nibbles, child: Tree)
    | Branch(children: seq<Tree>, slot: Option<Bytes>)
    | Missing(hash: Hash32)

  /** Every branch has 16 child slots and no extension points at nothing. */
  ghost predicate WellFormed(t: Tree) {
    match t
    case Ext(_, c) => c != Empty && WellFormed(c)
    case Branch(cs, _) => |cs| == 16 && forall i | 0 <= i < 16 :: WellFormed(cs[i])
    case _ => true
  }

  /** No node is missing. */
  ghost predicate Whole(t: Tree) {
    match t
    case Ext(_, c) => Whole(c)
    case Branch(cs, _) => forall i | 0 <= i < |cs| :: Whole(cs[i])
    case Missing(_) => false
    case _ => true
  }

  /** Walking down the trie along `k` runs into a missing node. */
  ghost predicate Blocked(t: Tree, k: Nibbles)
    requires WellFormed(t)
  {
    match t
    case Ext(p, c) => p <= k && Blocked(c, k[|p|..])
    case Branch(cs, _) => k != [] && Blocked(cs[k[0]], k[1..])
    case Missing(_) => true
    case _ => false
  }

  ghost function Get(t: Tree, k: Nibbles): Option<Bytes>
    requires WellFormed(t)
  {
    match t
    case Empty => None
    case Leaf(s, v) => if s == k then Some(v) else None
    case Ext(p, c) => if p <= k then Get(c, k[|p|..]) else None
    case Branch(cs, slot) => if k == [] then slot else Get(cs[k[0]], k[1..])
    case Missing(_) => None
  }

  /** Length of the longest common prefix. */
  ghost function Common(a: Nibbles, b: Nibbles): (m: nat)
    ensures m <= |a| && m <= |b| && a[..m] == b[..m]
    ensures m < |a| && m < |b| ==> a[m] != b[m]
  {
    if a == [] || b == [] || a[0] != b[0] then 0
    else
      var m := 1 + Common(a[1..], b[1..]);
      assert a[..m] == [a[0]] + a[1..][..m - 1] && b[..m] == [b[0]] + b[1..][..m - 1];
      m
  }

  ghost function NoChildren(): (cs: seq<Tree>)
    ensures |cs| == 16 && Childless(cs)
  {
    seq(16, i => Empty)
  }

  /** A branch below `p`, which is itself wrapped in an extension unless `p` is empty. */
  ghost function Fork(p: Nibbles, cs: seq<Tree>, slot: Option<Bytes>): Tree {
    if p == [] then Branch(cs, slot) else Ext(p, Branch(cs, slot))
  }

  /** Hang what remains of key `k` on a fresh branch: in its slot or under its first nibble. */
  ghost function Hang(cs: seq<Tree>, slot: Option<Bytes>, k: Nibbles, v: Bytes): (seq<Tree>, Option<Bytes>)
    requires |cs| == 16
  {
    if k == [] then (cs, Some(v)) else (cs[k[0] := Leaf(k[1..], v)], slot)
  }

  ghost function Tail(p: Nibbles, c: Tree): Tree {
    if p == [] then c else Ext(p, c)
  }

  ghost function Insert(t: Tree, k: Nibbles, v: Bytes): Tree
    requires WellFormed(t)
  {
    match t
    case Empty => Leaf(k, v)
    case Leaf(s, w) =>
      var m := Common(s, k);
      if m == |s| && m == |k| then Leaf(s, v)
      else
        var (cs0, slot0) := Hang(NoChildren(), None, s[m..], w);
        var (cs, slot) := Hang(cs0, slot0, k[m..], v);
        Fork(k[..m], cs, slot)
    case Ext(p, c) =>
      var m := Common(p, k);
      if m == |p| then Ext(p, Insert(c, k[m..], v))
      else
        var (cs, slot) := Hang(NoChildren()[p[m] := Tail(p[m + 1..], c)], None, k[m..], v);
        Fork(k[..m], cs, slot)
    case Branch(cs, slot) =>
      if k == [] then Branch(cs, Some(v))
      else Branch(cs[k[0] := Insert(cs[k[0]], k[1..], v)], slot)
    case Missing(_) => t
  }

  /** Put the nibbles `p` in front of `t`, merging with a leaf or an extension. */
  ghost function Merge(p: Nibbles, t: Tree): Tree {
    match t
    case Empty => Empty
    case Leaf(s, v) => Leaf(p + s, v)
    case Ext(q, c) => Ext(p + q, c)
    case _ => Ext(p, t)
  }

  ghost predicate OnlyChild(cs: seq<Tree>, i: nat) {
    i < |cs| && cs[i] != Empty && forall j | 0 <= j < |cs| :: j != i ==> cs[j] == Empty
  }

  ghost predicate Childless(cs: seq<Tree>) {
    forall j | 0 <= j < |cs| :: cs[j] == Empty
  }

  /** Turn a branch back into canonical shape after one of its entries went away. */
  ghost function Collapse(cs: seq<Tree>, slot: Option<Bytes>): Tree
    requires |cs| == 16
  {
    if Childless(cs) then (if slot.None? then Empty else Leaf([], slot.value))
    else if slot.None? && exists i: Nibble :: OnlyChild(cs, i) then
      var i: Nibble :| OnlyChild(cs, i);
      Merge([i], cs[i])
    else Branch(cs, slot)
  }

  ghost function Delete(t: Tree, k: Nibbles): Tree
    requires WellFormed(t)
  {
    match t
    case Leaf(s, _) => if s == k then Empty else t
    case Ext(p, c) => if p <= k then Merge(p, Delete(c, k[|p|..])) else t
    case Branch(cs, slot) =>
      if k == [] then Collapse(cs, None)
      else Collapse(cs[k[0] := Delete(cs[k[0]], k[1..])], slot)
    case _ => t
  }

  // ---------------------------------------------------------------- shape

  lemma {:induction false} InsertWellFormed(t: Tree, k: Nibbles, v: Bytes)
    requires WellFormed(t)
    ensures WellFormed(Insert(t, k, v)) && Insert(t, k, v) != Empty
    ensures Whole(t) ==> Whole(Insert(t, k, v))
  {
    match t
    case Ext(p, c) =>
      if Common(p, k) == |p| { InsertWellFormed(c, k[|p|..], v); }
    case Branch(cs, _) =>
      if k != [] { InsertWellFormed(cs[k[0]], k[1..], v); }
    case _ =>
  }

  lemma {:induction false} CollapseWellFormed(cs: seq<Tree>, slot: Option<Bytes>)
    requires |cs| == 16 && forall i | 0 <= i < 16 :: WellFormed(cs[i])
    ensures WellFormed(Collapse(cs, slot))
    ensures (forall i | 0 <= i < 16 :: Whole(cs[i])) ==> Whole(Collapse(cs, slot))
  {
    if !Childless(cs) && slot.None? && exists i: Nibble :: OnlyChild(cs, i) {
      var i: Nibble :| OnlyChild(cs, i) && Collapse(cs, slot) == Merge([i], cs[i]);
      assert WellFormed(cs[i]);
    }
  }

  lemma {:induction false} DeleteWellFormed(t: Tree, k: Nibbles)
    requires WellFormed(t)
    ensures WellFormed(Delete(t, k))
    ensures Whole(t) ==> Whole(Delete(t, k))
  {
    match t
    case Ext(p, c) => if p <= k { DeleteWellFormed(c, k[|p|..]); }
    case Branch(cs, slot) =>
      var cs' := if k == [] then cs else cs[k[0] := Delete(cs[k[0]], k[1..])];
      if k != [] { DeleteWellFormed(cs[k[0]], k[1..]); }
      CollapseWellFormed(cs', if k == [] then None else slot);
    case _ =>
  }

  /** A deletion that gets through never ends in a missing node. */
  lemma {:induction false} NeverMissing(t: Tree, k: Nibbles)
    requires WellFormed(t) && !Blocked(t, k)
    ensures !Delete(t, k).Missing?
  {
  }

  lemma {:induction false} OnlyChildCollapses(cs: seq<Tree>, i: Nibble)
    requires |cs| == 16 && OnlyChild(cs, i)
    ensures Collapse(cs, None) == Merge([i], cs[i])
  {
  }

  // ---------------------------------------------------------------- meaning

  lemma {:induction false} GetMerge(p: Nibbles, t: Tree, k: Nibbles)
    requires WellFormed(t)
    ensures WellFormed(Merge(p, t))
    ensures Get(Merge(p, t), k) == if p <= k then Get(t, k[|p|..]) else None
  {
    match t
    case Leaf(s, _) =>
      assert p + s == k <==> p <= k && s == k[|p|..];
    case Ext(q, c) =>
      assert p + q <= k <==> p <= k && q <= k[|p|..];
      if p + q <= k { assert k[|p + q|..] == k[|p|..][|q|..]; }
    case _ =>
  }

  lemma {:induction false} GetCollapse(cs: seq<Tree>, slot: Option<Bytes>, k: Nibbles)
    requires |cs| == 16 && forall i | 0 <= i < 16 :: WellFormed(cs[i])
    ensures WellFormed(Collapse(cs, slot))
    ensures Get(Collapse(cs, slot), k) == if k == [] then slot else Get(cs[k[0]], k[1..])
  {
    if !Childless(cs) && slot.None? && exists i: Nibble :: OnlyChild(cs, i) {
      var i: Nibble :| OnlyChild(cs, i) && Collapse(cs, slot) == Merge([i], cs[i]);
      GetMerge([i], cs[i], k);
    }
  }

  lemma {:induction false} GetDeleteBranch(cs: seq<Tree>, slot: Option<Bytes>, k: Nibbles, k': Nibbles)
    requires WellFormed(Branch(cs, slot)) && k != [] && WellFormed(Delete(cs[k[0]], k[1..]))
    requires k' != [] && k'[0] == k[0] ==>
               Get(Delete(cs[k[0]], k[1..]), k'[1..]) == if k[1..] == k'[1..] then None else Get(cs[k[0]], k'[1..])
    ensures WellFormed(Delete(Branch(cs, slot), k))
    ensures Get(Delete(Branch(cs, slot), k), k') == if k == k' then None else Get(Branch(cs, slot), k')
  {
    DeleteWellFormed(Branch(cs, slot), k);
    GetCollapse(cs[k[0] := Delete(cs[k[0]], k[1..])], slot, k');
    if k' != [] { assert k == [k[0]] + k[1..] && k' == [k'[0]] + k'[1..]; }
  }

  lemma {:induction false} GetDeleteExt(p: Nibbles, c: Tree, k: Nibbles, k': Nibbles)
    requires WellFormed(Ext(p, c)) && p <= k && WellFormed(Delete(c, k[|p|..]))
    requires p <= k' ==>
               Get(Delete(c, k[|p|..]), k'[|p|..]) == if k[|p|..] == k'[|p|..] then None else Get(c, k'[|p|..])
    ensures WellFormed(Delete(Ext(p, c), k))
    ensures Get(Delete(Ext(p, c), k), k') == if k == k' then None else Get(Ext(p, c), k')
  {
    GetMerge(p, Delete(c, k[|p|..]), k');
    if p <= k' { assert k == p + k[|p|..] && k' == p + k'[|p|..]; }
  }

  lemma {:induction false} GetDelete(t: Tree, k: Nibbles, k': Nibbles)
    requires WellFormed(t)
    ensures WellFormed(Delete(t, k))
    ensures Get(Delete(t, k), k') == if k == k' then None else Get(t, k')
    decreases t
  {
    DeleteWellFormed(t, k);
    match t
    case Ext(p, c) =>
      if p <= k {
        if p <= k' { GetDelete(c, k[|p|..], k'[|p|..]); }
        GetDeleteExt(p, c, k, k');
      }
    case Branch(cs, slot) =>
      if k == [] {
        GetCollapse(cs, None, k');
      } else {
        if k' != [] && k'[0] == k[0] { GetDelete(cs[k[0]], k[1..], k'[1..]); }
        DeleteWellFormed(cs[k[0]], k[1..]);
        GetDeleteBranch(cs, slot, k, k');
      }
    case _ =>
  }

  lemma {:induction false} GetFork(p: Nibbles, cs: seq<Tree>, slot: Option<Bytes>, k: Nibbles)
    requires |cs| == 16 && forall i | 0 <= i < 16 :: WellFormed(cs[i])
    ensures WellFormed(Fork(p, cs, slot))
    ensures Get(Fork(p, cs, slot), k) == if p <= k then Get(Branch(cs, slot), k[|p|..]) else None
  {
  }

  lemma {:induction false} GetHang(cs: seq<Tree>, slot: Option<Bytes>, k: Nibbles, v: Bytes, k': Nibbles)
    requires |cs| == 16 && forall i | 0 <= i < 16 :: WellFormed(cs[i])
    ensures var (cs', slot') := Hang(cs, slot, k, v);
      |cs'| == 16 && (forall i | 0 <= i < 16 :: WellFormed(cs'[i]))
      && (if k == k' then Get(Branch(cs', slot'), k') == Some(v)
          else (k == [] || k' == [] || k[0] != k'[0]) ==> Get(Branch(cs', slot'), k') == Get(Branch(cs, slot), k'))
      && (k != [] && k' != [] && k != k' && k[0] == k'[0] ==> Get(Branch(cs', slot'), k') == None)
  {
    if k != [] && k' != [] { assert k == [k[0]] + k[1..] && k' == [k'[0]] + k'[1..]; }
  }

  lemma {:induction false} SplitAt(k: Nibbles, k': Nibbles, m: nat)
    requires m <= |k|
    ensures k[..m] <= k' ==> (k == k' <==> k[m..] == k'[m..])
    ensures !(k[..m] <= k') ==> k != k'
  {
    if k[..m] <= k' { assert k == k[..m] + k[m..] && k' == k'[..m] + k'[m..]; }
  }

  lemma {:induction false} GetInsert(t: Tree, k: Nibbles, v: Bytes, k': Nibbles)
    requires WellFormed(t) && !Blocked(t, k)
    ensures WellFormed(Insert(t, k, v))
    ensures Get(Insert(t, k, v), k') == if k == k' then Some(v) else Get(t, k')
    decreases t
  {
    InsertWellFormed(t, k, v);
    match t
    case Leaf(s, w) =>
      var m := Common(s, k);
      if m < |s| || m < |k| { GetInsertLeaf(s, w, k, v, k'); }
    case Ext(p, c) =>
      var m := Common(p, k);
      if m == |p| {
        if p <= k' { GetInsert(c, k[m..], v, k'[m..]); }
        SplitAt(k, k', m);
      } else {
        GetInsertExt(p, c, k, v, k');
      }
    case Branch(cs, slot) =>
      if k != [] && k' != [] && k[0] == k'[0] {
        GetInsert(cs[k[0]], k[1..], v, k'[1..]);
        assert k == [k[0]] + k[1..] && k' == [k'[0]] + k'[1..];
      }
    case _ =>
  }

  lemma {:induction false} GetInsertLeaf(s: Nibbles, w: Bytes, k: Nibbles, v: Bytes, k': Nibbles)
    requires s != k
    ensures Get(Insert(Leaf(s, w), k, v), k') == if k == k' then Some(v) else Get(Leaf(s, w), k')
  {
    var m := Common(s, k);
    if m == |s| && m == |k| { assert s == s[..m] && k == k[..m]; }
    var (cs0, slot0) := Hang(NoChildren(), None, s[m..], w);
    var (cs, slot) := Hang(cs0, slot0, k[m..], v);
    SplitAt(k, k', m);
    SplitAt(s, k', m);
    GetHang(NoChildren(), None, s[m..], w, if |k'| < m then [] else k'[m..]);
    GetHang(cs0, slot0, k[m..], v, if |k'| < m then [] else k'[m..]);
    GetFork(k[..m], cs, slot, k');
  }

  /** The branch that splits an extension at nibble `m` answers below it as the extension did. */
  lemma {:induction false} GetSplit(p: Nibbles, c: Tree, m: nat, k: Nibbles)
    requires WellFormed(Ext(p, c)) && m < |p| && p[..m] <= k
    ensures var cs := NoChildren()[p[m] := Tail(p[m + 1..], c)];
      Get(Branch(cs, None), k[m..]) == Get(Ext(p, c), k)
  {
    PrefixFrom(p, k, m);
    PrefixFrom(p, k, m + 1);
    if p[..m + 1] <= k {
      assert k[m..][1..] == k[m + 1..];
      if p <= k { assert k[|p|..] == k[m + 1..][|p[m + 1..]|..]; }
    } else {
      assert k[m..] == [] || k[m..][0] != p[m];
    }
  }

  lemma {:induction false} GetInsertExt(p: Nibbles, c: Tree, k: Nibbles, v: Bytes, k': Nibbles)
    requires WellFormed(Ext(p, c)) && Common(p, k) < |p|
    ensures Get(Insert(Ext(p, c), k, v), k') == if k == k' then Some(v) else Get(Ext(p, c), k')
  {
    var m := Common(p, k);
    var cs0 := NoChildren()[p[m] := Tail(p[m + 1..], c)];
    var (cs, slot) := Hang(cs0, None, k[m..], v);
    SplitAt(k, k', m);
    GetFork(k[..m], cs, slot, k');
    if p[..m] <= k' {
      GetHang(cs0, None, k[m..], v, k'[m..]);
      GetSplit(p, c, m, k');
    } else {
      PrefixFrom(p, k', m);
    }
  }

  lemma {:induction false} PrefixFrom(p: Nibbles, k: Nibbles, m: nat)
    requires m <= |p|
    ensures p[..m] <= k ==> (p <= k <==> p[m..] <= k[m..])
    ensures p <= k ==> p[..m] <= k
  {
    if p[..m] <= k { assert p == p[..m] + p[m..] && k == p[..m] + k[m..]; }
  }
}
