/**
 Merkle proofs: what `prove` builds for a key, what `verify_proof` accepts, and
 exactly when the second accepts the first.
 */
module TrieProof {
  import opened Basics
  import opened Hashing
  import opened TrieShape
  import opened TrieHistory
  import opened TrieStore

  /** One entry per node on the path; nibble 16 is the branch's own value slot. */
  datatype PathStep = BranchStep(nibble: nat) | ExtStep(len: nat) | LeafStep

  datatype MerkleProof = MerkleProof(
    trieKey: Key, value: Option<Bytes>, root: Hash32, siblings: seq<Hash32>, path: seq<PathStep>)

  // ------------------------------------------------------- what is proved

  /** The path to `k`.  Lengths are cut to a byte. */
  ghost function PathOf(t: Tree, k: Nibbles): seq<PathStep>
    requires WellFormed(t)
  {
    match t
    case Leaf(_, _) => [LeafStep]
    case Ext(p, c) => [ExtStep(|p| % 256)] + if p <= k then PathOf(c, k[|p|..]) else []
    case Branch(cs, _) => if k == [] then [BranchStep(16)] else [BranchStep(k[0])] + PathOf(cs[k[0]], k[1..])
    case _ => []
  }

  /** XOR of everything in a branch but child `skip`. */
  ghost function SiblingXor(lib: Lib, t: Tree, skip: Nibble): Hash32
    requires WellFormed(t) && t.Branch?
  {
    XorValue(lib, XorSlots(NodeOf(lib, t).children[skip := None]), t.slot)
  }

  ghost function SiblingsOf(lib: Lib, t: Tree, k: Nibbles): seq<Hash32>
    requires WellFormed(t)
  {
    match t
    case Leaf(s, _) => if s == k then [] else [HashOf(lib, t)]
    case Ext(p, c) => if p <= k then SiblingsOf(lib, c, k[|p|..]) else [HashOf(lib, t)]
    case Branch(cs, _) =>
      if k == [] then [XorSlots(NodeOf(lib, t).children)]
      else [SiblingXor(lib, t, k[0])] + SiblingsOf(lib, cs[k[0]], k[1..])
    case _ => []
  }

  ghost function ProofOf(lib: Lib, t: Tree, key: Key): MerkleProof
    requires WellFormed(t)
  {
    var k := KeyToNibbles(key);
    MerkleProof(key, Get(t, k), OrZero(Root(lib, t)), SiblingsOf(lib, t, k), PathOf(t, k))
  }

  // ----------------------------------------------------- what is accepted

  function StepLen(s: PathStep): nat {
    match s
    case BranchStep(n) => if n < 16 then 1 else 0
    case ExtStep(len) => len
    case LeafStep => 0
  }

  /** Number of key nibbles the steps of `path` use up. */
  function Offset(path: seq<PathStep>): nat {
    if path == [] then 0 else Offset(path[..|path| - 1]) + StepLen(path[|path| - 1])
  }

  /** Where `step` reads its nibbles: the offset of the first step that looks the same. */
  function StartOf(path: seq<PathStep>, step: PathStep): nat {
    if path == [] || path[0] == step then 0 else StepLen(path[0]) + StartOf(path[1..], step)
  }

  /** The hash of the node at the end of the path, and the siblings not used for it. */
  function Terminal(lib: Lib, proof: MerkleProof): Option<(Hash32, nat)>
    requires proof.path != []
  {
    var n := |proof.siblings|;
    var nibbles := KeyToNibbles(proof.trieKey);
    match proof.path[|proof.path| - 1]
    case LeafStep =>
      if proof.value.Some? then
        var start := Offset(proof.path);
        if start > |nibbles| then None
        else Some((NodeHash(lib, LeafNode(nibbles[start..], proof.value.value)), n))
      else if n == 0 then None else Some((proof.siblings[n - 1], n - 1))
    case ExtStep(_) =>
      if proof.value.Some? || n == 0 then None else Some((proof.siblings[n - 1], n - 1))
    case BranchStep(nibble) =>
      if n == 0 || (nibble != 16 && proof.value.Some?) then None
      else Some((BranchHash(lib, XorValue(lib, proof.siblings[n - 1], proof.value)), n - 1))
  }

  /** From the hash of a node to the hash of its parent on the path. */
  function StepUp(lib: Lib, proof: MerkleProof, step: PathStep, h: Hash32, j: nat): Option<(Hash32, nat)>
    requires j <= |proof.siblings|
  {
    var nibbles := KeyToNibbles(proof.trieKey);
    match step
    case BranchStep(_) => if j == 0 then None else Some((BranchHash(lib, Xor(proof.siblings[j - 1], h)), j - 1))
    case ExtStep(len) =>
      var start := StartOf(proof.path, step);
      if start + len > |nibbles| then None
      else Some((NodeHash(lib, ExtNode(nibbles[start..start + len], h)), j))
    case LeafStep => None
  }

  /** The hash computed for the node at step `i`, and the siblings left over for the steps above. */
  function Level(lib: Lib, proof: MerkleProof, i: nat): (r: Option<(Hash32, nat)>)
    requires i < |proof.path|
    ensures r.Some? ==> r.value.1 <= |proof.siblings|
    decreases |proof.path| - i
  {
    if i == |proof.path| - 1 then Terminal(lib, proof)
    else
      var below := Level(lib, proof, i + 1);
      if below.None? then None else StepUp(lib, proof, proof.path[i], below.value.0, below.value.1)
  }

  predicate Accepts(lib: Lib, proof: MerkleProof) {
    if proof.path == [] then proof.root == Zero() && proof.value.None?
    else
      var top := Level(lib, proof, 0);
      top.Some? && top.value.0 == proof.root
  }

  /** The verifier as the source runs it: the terminal node first, then a loop up the path. */
  method VerifyProof(lib: Lib, proof: MerkleProof) returns (ok: bool)
    ensures ok <==> Accepts(lib, proof)
  {
    if proof.path == [] { return proof.root == Zero() && proof.value.None?; }
    var i: nat := |proof.path| - 1;
    var state := TerminalHash(lib, proof);
    while state.Some? && i > 0
      invariant i < |proof.path| && state == Level(lib, proof, i)
      decreases i, state.Some?
    {
      i := i - 1;
      state := HashUp(lib, proof, proof.path[i], state.value.0, state.value.1);
    }
    if state.None? {
      Stuck(lib, proof, i);
      ok := false;
    } else {
      ok := state.value.0 == proof.root;
    }
  }

  method HashUp(lib: Lib, proof: MerkleProof, step: PathStep, current: Hash32, siblingIdx: nat)
    returns (r: Option<(Hash32, nat)>)
    requires siblingIdx <= |proof.siblings|
    ensures r == StepUp(lib, proof, step, current, siblingIdx)
  {
    var nibbles := KeyToNibbles(proof.trieKey);
    match step
    case BranchStep(_) =>
      if siblingIdx == 0 { return None; }
      r := Some((BranchHash(lib, Xor(proof.siblings[siblingIdx - 1], current)), siblingIdx - 1));
    case ExtStep(len) =>
      var start := PrefixStart(proof.path, step);
      if start + len > |nibbles| { return None; }
      r := Some((NodeHash(lib, ExtNode(nibbles[start..start + len], current)), siblingIdx));
    case LeafStep =>
      r := None;
  }

  method TerminalHash(lib: Lib, proof: MerkleProof) returns (r: Option<(Hash32, nat)>)
    requires proof.path != []
    ensures r == Terminal(lib, proof)
  {
    var nibbles, n := KeyToNibbles(proof.trieKey), |proof.siblings|;
    match proof.path[|proof.path| - 1]
    case LeafStep =>
      match proof.value {
        case Some(v) =>
          var start := SuffixStart(proof.path);
          if start > |nibbles| { return None; }
          r := Some((NodeHash(lib, LeafNode(nibbles[start..], v)), n));
        case None =>
          if n == 0 { return None; }
          r := Some((proof.siblings[n - 1], n - 1));
      }
    case ExtStep(_) =>
      if proof.value.Some? || n == 0 { return None; }
      r := Some((proof.siblings[n - 1], n - 1));
    case BranchStep(nibble) =>
      if n == 0 { return None; }
      var combined := proof.siblings[n - 1];
      if nibble == 16 {
        if proof.value.Some? { combined := Xor(combined, lib.blake(proof.value.value)); }
      } else if proof.value.Some? {
        return None;
      }
      r := Some((BranchHash(lib, combined), n - 1));
  }

  method SuffixStart(path: seq<PathStep>) returns (start: nat)
    ensures start == Offset(path)
  {
    start := 0;
    for i := 0 to |path|
      invariant start == Offset(path[..i])
    {
      assert path[..i + 1][..i] == path[..i];
      start := start + StepLen(path[i]);
    }
    assert path[..|path|] == path;
  }

  method PrefixStart(path: seq<PathStep>, step: PathStep) returns (start: nat)
    ensures start == StartOf(path, step)
  {
    start := 0;
    var s := 0;
    while s < |path| && path[s] != step
      invariant s <= |path|
      invariant StartOf(path, step) == start + StartOf(path[s..], step)
    {
      start, s := start + StepLen(path[s]), s + 1;
    }
  }

  lemma {:induction false} Stuck(lib: Lib, proof: MerkleProof, i: nat)
    requires i < |proof.path| && Level(lib, proof, i).None?
    ensures Level(lib, proof, 0).None?
  {
    if i > 0 { Stuck(lib, proof, i - 1); }
  }

  // ---------------------------------------------------------- completeness

  /** The nibbles the verifier reads for extension step `b` are the ones the extension stands for. */
  predicate ReadsRight(proof: MerkleProof, b: nat)
    requires b < |proof.path| && proof.path[b].ExtStep?
  {
    var nibbles := KeyToNibbles(proof.trieKey);
    var len, start, right := proof.path[b].len, StartOf(proof.path, proof.path[b]), Offset(proof.path[..b]);
    start + len <= |nibbles| && right + len <= |nibbles| && nibbles[start..start + len] == nibbles[right..right + len]
  }

  predicate ReadsRightFrom(proof: MerkleProof, i: nat) {
    forall b | i <= b < |proof.path| - 1 && proof.path[b].ExtStep? :: ReadsRight(proof, b)
  }

  lemma {:induction false} BranchFromChild(lib: Lib, t: Tree, n: Nibble)
    requires WellFormed(t) && t.Branch?
    ensures HashOf(lib, t) == BranchHash(lib, Xor(SiblingXor(lib, t, n), OrZero(Root(lib, t.children[n]))))
  {
    var hs := NodeOf(lib, t).children;
    var rest, h := XorSlots(hs[n := None]), OrZero(Root(lib, t.children[n]));
    XorSplit(hs, n);
    if t.slot.Some? { XorSwapLast(rest, h, lib.blake(t.slot.value)); }
  }

  lemma {:induction false} StartAtMost(path: seq<PathStep>, b: nat)
    requires b < |path|
    ensures StartOf(path, path[b]) <= Offset(path[..b])
  {
    if b > 0 && path[0] != path[b] {
      StartAtMost(path[1..], b - 1);
      OffsetHead(path[..b]);
      assert path[..b][1..] == path[1..][..b - 1];
    }
  }

  lemma {:induction false} OffsetHead(path: seq<PathStep>)
    requires path != []
    ensures Offset(path) == StepLen(path[0]) + Offset(path[1..])
  {
    if |path| > 1 {
      OffsetHead(path[..|path| - 1]);
      assert path[..|path| - 1][1..] == path[1..][..|path| - 2];
    }
  }

  /** The part of the proof from step `i` and sibling `j` on is the one built for key rest `k` in `t`. */
  ghost predicate BuiltFrom(lib: Lib, t: Tree, k: Nibbles, proof: MerkleProof, i: nat, j: nat) {
    && WellFormed(t) && t != Empty && !Blocked(t, k)
    && i < |proof.path| && proof.path[i..] == PathOf(t, k)
    && j <= |proof.siblings| && proof.siblings[j..] == SiblingsOf(lib, t, k)
    && proof.value == Get(t, k)
    && AtKey(proof, i, k)
  }

  /** The steps before `i` leave the rest `k` of the key. */
  ghost predicate AtKey(proof: MerkleProof, i: nat, k: Nibbles)
    requires i <= |proof.path|
  {
    Offset(proof.path[..i]) <= 64 && KeyToNibbles(proof.trieKey)[Offset(proof.path[..i])..] == k
  }

  lemma {:induction false} KeyAdvances(proof: MerkleProof, i: nat, k: Nibbles, p: Nibbles)
    requires i < |proof.path| && AtKey(proof, i, k) && p <= k && StepLen(proof.path[i]) == |p|
    ensures AtKey(proof, i + 1, k[|p|..])
    ensures Offset(proof.path[..i]) + |p| <= 64
    ensures KeyToNibbles(proof.trieKey)[Offset(proof.path[..i])..Offset(proof.path[..i]) + |p|] == p
  {
    Slices(KeyToNibbles(proof.trieKey), Offset(proof.path[..i]), k, p);
    OffsetNext(proof.path, i);
  }

  /** The path goes on below the node at the top of `t`. */
  ghost predicate GoesOn(t: Tree, k: Nibbles)
    requires WellFormed(t)
  {
    match t
    case Ext(p, _) => p <= k
    case Branch(cs, _) => k != [] && cs[k[0]] != Empty
    case _ => false
  }

  /** The last step: a leaf, a diverging extension, an empty slot, or a branch's own value. */
  lemma {:induction false} BuiltEnd(lib: Lib, t: Tree, k: Nibbles, proof: MerkleProof, i: nat, j: nat)
    requires BuiltFrom(lib, t, k, proof, i, j) && !GoesOn(t, k)
    ensures i == |proof.path| - 1 && Level(lib, proof, i) == Some((HashOf(lib, t), j))
  {
    var path, sibs := proof.path, proof.siblings;
    assert |path| == i + |path[i..]| && path[i] == path[i..][0];
    EndShape(lib, t, k);
    assert path[..i + 1] == path && path[..i + 1][..i] == path[..i];
    assert |sibs| == j + |sibs[j..]| && (sibs[j..] != [] ==> sibs[j] == sibs[j..][0]);
    match t
    case Leaf(s, v) => HashOfLeaf(lib, s, v);
    case Ext(_, _) =>
    case Branch(cs, slot) =>
      if k != [] {
        BranchFromChild(lib, t, k[0]);
        XorZero(SiblingXor(lib, t, k[0]));
      }
  }

  lemma {:induction false} EndShape(lib: Lib, t: Tree, k: Nibbles)
    requires WellFormed(t) && t != Empty && !Blocked(t, k) && !GoesOn(t, k)
    ensures |PathOf(t, k)| == 1 && |SiblingsOf(lib, t, k)| <= 1
    ensures t.Branch? && k != [] ==>
      && PathOf(t, k) == [BranchStep(k[0])] && SiblingsOf(lib, t, k) == [SiblingXor(lib, t, k[0])]
      && Get(t, k) == None
  {
  }

  lemma {:induction false} ReadsRightStep(proof: MerkleProof, i: nat)
    requires i < |proof.path| - 1
    ensures ReadsRightFrom(proof, i) <==>
      ReadsRightFrom(proof, i + 1) && (proof.path[i].ExtStep? ==> ReadsRight(proof, i))
  {
  }

  lemma {:induction false} BuiltExt(lib: Lib, p: Nibbles, c: Tree, k: Nibbles, proof: MerkleProof, i: nat, j: nat)
    requires BuiltFrom(lib, Ext(p, c), k, proof, i, j) && p <= k
    ensures |proof.path| > i + 1 && BuiltFrom(lib, c, k[|p|..], proof, i + 1, j)
    ensures proof.path[i] == ExtStep(|p|)
    ensures Offset(proof.path[..i]) + |p| <= 64
    ensures KeyToNibbles(proof.trieKey)[Offset(proof.path[..i])..Offset(proof.path[..i]) + |p|] == p
  {
    ExtUnfolds(lib, p, c, k);
    Peel(proof.path, i, ExtStep(|p| % 256), PathOf(c, k[|p|..]));
    ShortPrefix(proof, i, k, p);
    KeyAdvances(proof, i, k, p);
  }

  lemma {:induction false} ShortPrefix(proof: MerkleProof, i: nat, k: Nibbles, p: Nibbles)
    requires i <= |proof.path| && AtKey(proof, i, k) && p <= k
    ensures |p| <= 64 && |p| % 256 == |p|
  {
  }

  lemma {:induction false} ExtUnfolds(lib: Lib, p: Nibbles, c: Tree, k: Nibbles)
    requires WellFormed(Ext(p, c)) && !Blocked(Ext(p, c), k) && p <= k
    ensures !Blocked(c, k[|p|..]) && Get(Ext(p, c), k) == Get(c, k[|p|..])
    ensures PathOf(Ext(p, c), k) == [ExtStep(|p| % 256)] + PathOf(c, k[|p|..]) && PathOf(c, k[|p|..]) != []
    ensures SiblingsOf(lib, Ext(p, c), k) == SiblingsOf(lib, c, k[|p|..])
  {
    PathNotEmpty(c, k[|p|..]);
  }

  lemma {:induction false} Peel<T>(s: seq<T>, i: nat, head: T, rest: seq<T>)
    requires i < |s| && s[i..] == [head] + rest
    ensures s[i] == head && s[i + 1..] == rest && |s| == i + 1 + |rest|
  {
    assert s[i] == s[i..][0] && s[i + 1..] == s[i..][1..];
  }

  lemma {:induction false} OffsetNext(path: seq<PathStep>, i: nat)
    requires i < |path|
    ensures Offset(path[..i + 1]) == Offset(path[..i]) + StepLen(path[i])
  {
    assert path[..i + 1][..i] == path[..i];
  }

  lemma {:induction false} Slices(nibbles: Nibbles, d: nat, k: Nibbles, p: Nibbles)
    requires d <= |nibbles| && nibbles[d..] == k && p <= k
    ensures d + |p| <= |nibbles|
    ensures nibbles[d..d + |p|] == p && nibbles[d + |p|..] == k[|p|..]
  {
    assert |nibbles[d..]| == |nibbles| - d;
    assert nibbles[d..d + |p|] == k[..|p|];
  }

  lemma {:induction false} BuiltBranch(lib: Lib, t: Tree, k: Nibbles, proof: MerkleProof, i: nat, j: nat)
    requires BuiltFrom(lib, t, k, proof, i, j) && t.Branch? && GoesOn(t, k)
    ensures |proof.path| > i + 1 && |proof.siblings| > j
    ensures BuiltFrom(lib, t.children[k[0]], k[1..], proof, i + 1, j + 1)
    ensures proof.path[i] == BranchStep(k[0]) && proof.siblings[j] == SiblingXor(lib, t, k[0])
  {
    assert proof.siblings[j..] != [];
    Peel(proof.path, i, BranchStep(k[0]), PathOf(t.children[k[0]], k[1..]));
    Peel(proof.siblings, j, SiblingXor(lib, t, k[0]), SiblingsOf(lib, t.children[k[0]], k[1..]));
    KeyAdvances(proof, i, k, [k[0]]);
    PathNotEmpty(t.children[k[0]], k[1..]);
  }

  lemma {:induction false} PathNotEmpty(t: Tree, k: Nibbles)
    requires WellFormed(t) && t != Empty && !Blocked(t, k)
    ensures PathOf(t, k) != []
  {
  }

  /** Two different nodes that are hashed through their bytes hash differently, or collide. */
  lemma {:induction false} DifferentExts(lib: Lib, p: Nibbles, g: Hash32, q: Nibbles, h: Hash32) returns (x: Bytes, y: Bytes)
    requires Faithful(lib) && (p != q || g != h)
    ensures NodeHash(lib, ExtNode(p, g)) != NodeHash(lib, ExtNode(q, h)) || Collide(lib, x, y)
  {
    x, y := lib.bincode(ExtNode(p, g)), lib.bincode(ExtNode(q, h));
  }

  lemma {:induction false} DifferentBranches(lib: Lib, g: Hash32, h: Hash32) returns (x: Bytes, y: Bytes)
    requires g != h
    ensures BranchHash(lib, g) != BranchHash(lib, h) || Collide(lib, x, y)
  {
    x, y := BRANCH_TAG + g, BRANCH_TAG + h;
    assert x[|BRANCH_TAG|..] == g && y[|BRANCH_TAG|..] == h;
  }

  /**
   The level of subtree `t` on a proof the trie built: it comes out as the hash of `t` when every
   extension from there down is read right; otherwise it comes out different, or two inputs collide.
   */
  lemma {:induction false} BuiltLevel(lib: Lib, t: Tree, k: Nibbles, proof: MerkleProof, i: nat, j: nat)
    returns (x: Bytes, y: Bytes)
    requires Faithful(lib) && BuiltFrom(lib, t, k, proof, i, j)
    ensures Level(lib, proof, i).Some? && Level(lib, proof, i).value.1 == j
    ensures ReadsRightFrom(proof, i) ==> Level(lib, proof, i).value.0 == HashOf(lib, t)
    ensures !ReadsRightFrom(proof, i) ==> Level(lib, proof, i).value.0 != HashOf(lib, t) || Collide(lib, x, y)
    decreases t
  {
    x, y := [], [];
    if !GoesOn(t, k) {
      BuiltEnd(lib, t, k, proof, i, j);
      return;
    }
    if t.Ext? {
      BuiltExt(lib, t.prefix, t.child, k, proof, i, j);
      ReadsRightStep(proof, i);
      var x', y' := BuiltLevel(lib, t.child, k[|t.prefix|..], proof, i + 1, j);
      x, y := ExtLevel(lib, t.prefix, t.child, proof, i, j);
      if Collide(lib, x', y') { x, y := x', y'; }
    } else {
      BuiltBranch(lib, t, k, proof, i, j);
      ReadsRightStep(proof, i);
      var x', y' := BuiltLevel(lib, t.children[k[0]], k[1..], proof, i + 1, j + 1);
      x, y := BranchLevel(lib, t, k[0], proof, i, j);
      if Collide(lib, x', y') { x, y := x', y'; }
    }
  }

  /** The nibbles the verifier reads for an extension, and the level they give. */
  lemma {:induction false} ReadNibbles(lib: Lib, proof: MerkleProof, i: nat, p: Nibbles, j: nat) returns (q: Nibbles)
    requires i + 1 < |proof.path| && proof.path[i] == ExtStep(|p|) && Offset(proof.path[..i]) + |p| <= 64
    requires KeyToNibbles(proof.trieKey)[Offset(proof.path[..i])..Offset(proof.path[..i]) + |p|] == p
    requires j <= |proof.siblings| && Level(lib, proof, i + 1).Some? && Level(lib, proof, i + 1).value.1 == j
    ensures Level(lib, proof, i) == Some((NodeHash(lib, ExtNode(q, Level(lib, proof, i + 1).value.0)), j))
    ensures ReadsRight(proof, i) <==> q == p
  {
    StartAtMost(proof.path, i);
    var start := StartOf(proof.path, proof.path[i]);
    q := KeyToNibbles(proof.trieKey)[start..start + |p|];
  }

  /** One step up through an extension: right if the level below and the nibbles read are right. */
  lemma {:induction false} ExtLevel(lib: Lib, p: Nibbles, c: Tree, proof: MerkleProof, i: nat, j: nat) returns (x: Bytes, y: Bytes)
    requires Faithful(lib) && WellFormed(Ext(p, c)) && i + 1 < |proof.path| && proof.path[i] == ExtStep(|p|)
    requires Offset(proof.path[..i]) + |p| <= 64
    requires KeyToNibbles(proof.trieKey)[Offset(proof.path[..i])..Offset(proof.path[..i]) + |p|] == p
    requires j <= |proof.siblings| && Level(lib, proof, i + 1).Some? && Level(lib, proof, i + 1).value.1 == j
    ensures Level(lib, proof, i).Some? && Level(lib, proof, i).value.1 == j
    ensures Level(lib, proof, i + 1).value.0 == HashOf(lib, c) && ReadsRight(proof, i) ==>
      Level(lib, proof, i).value.0 == HashOf(lib, Ext(p, c))
    ensures Level(lib, proof, i + 1).value.0 != HashOf(lib, c) || !ReadsRight(proof, i) ==>
      Level(lib, proof, i).value.0 != HashOf(lib, Ext(p, c)) || Collide(lib, x, y)
  {
    x, y := [], [];
    HashOfExt(lib, p, c);
    var h := Level(lib, proof, i + 1).value.0;
    var q := ReadNibbles(lib, proof, i, p, j);
    if q != p || h != HashOf(lib, c) { x, y := DifferentExts(lib, q, h, p, HashOf(lib, c)); }
  }

  lemma {:induction false} BranchLevel(lib: Lib, t: Tree, n: Nibble, proof: MerkleProof, i: nat, j: nat) returns (x: Bytes, y: Bytes)
    requires WellFormed(t) && t.Branch? && t.children[n] != Empty
    requires i + 1 < |proof.path| && proof.path[i] == BranchStep(n)
    requires j < |proof.siblings| && proof.siblings[j] == SiblingXor(lib, t, n)
    requires Level(lib, proof, i + 1).Some? && Level(lib, proof, i + 1).value.1 == j + 1
    ensures Level(lib, proof, i).Some? && Level(lib, proof, i).value.1 == j
    ensures Level(lib, proof, i + 1).value.0 == HashOf(lib, t.children[n]) ==>
      Level(lib, proof, i).value.0 == HashOf(lib, t)
    ensures Level(lib, proof, i + 1).value.0 != HashOf(lib, t.children[n]) ==>
      Level(lib, proof, i).value.0 != HashOf(lib, t) || Collide(lib, x, y)
  {
    x, y := [], [];
    BranchFromChild(lib, t, n);
    var s, g, h := proof.siblings[j], Level(lib, proof, i + 1).value.0, HashOf(lib, t.children[n]);
    if g != h {
      if Xor(s, g) == Xor(s, h) { XorCancel(s, g, h); }
      x, y := DifferentBranches(lib, Xor(s, g), Xor(s, h));
    }
  }

  /**
   Main result: the verifier accepts the proof built for any key in any trie with no node missing
   on its path exactly when every extension on the path that is not its end is read right.  (The
   other way round, a proof accepted all the same exhibits a BLAKE3 collision.)
   */
  lemma {:induction false} ProofsVerify(lib: Lib, t: Tree, key: Key) returns (x: Bytes, y: Bytes)
    requires Faithful(lib) && WellFormed(t) && !Blocked(t, KeyToNibbles(key))
    ensures ReadsRightFrom(ProofOf(lib, t, key), 0) ==> Accepts(lib, ProofOf(lib, t, key))
    ensures Accepts(lib, ProofOf(lib, t, key)) && !Collide(lib, x, y) ==> ReadsRightFrom(ProofOf(lib, t, key), 0)
  {
    x, y := [], [];
    if t != Empty {
      var k, proof := KeyToNibbles(key), ProofOf(lib, t, key);
      PathNotEmpty(t, k);
      x, y := BuiltLevel(lib, t, k, proof, 0, 0);
    }
  }

  /** Extensions that are not the end of the path and have pairwise different lengths are read right. */
  lemma {:induction false} DifferentLengthsReadRight(proof: MerkleProof)
    requires proof.path != [] ==> Offset(proof.path[..|proof.path| - 1]) <= 64
    requires DifferentLengths(proof.path)
    ensures ReadsRightFrom(proof, 0)
  {
    forall b | 0 <= b < |proof.path| - 1 && proof.path[b].ExtStep? ensures ReadsRight(proof, b) {
      var front := proof.path[..|proof.path| - 1];
      StartOfFirst(proof.path, b);
      OffsetMonotone(front, b + 1);
      assert front[..b + 1] == proof.path[..b + 1] && proof.path[..b + 1][..b] == proof.path[..b];
    }
  }

  predicate DifferentLengths(path: seq<PathStep>) {
    forall a, b | 0 <= a < b < |path| - 1 && path[a].ExtStep? :: path[a] != path[b]
  }

  /** Nibbles used by the steps of a path above its end. */
  ghost function Above(path: seq<PathStep>): nat {
    if path == [] then 0 else Offset(path[..|path| - 1])
  }

  /** The steps above the end of a path use up no more than the key. */
  lemma {:induction false} PathWithin(t: Tree, k: Nibbles)
    requires WellFormed(t)
    ensures Above(PathOf(t, k)) <= |k|
    decreases t
  {
    match t
    case Ext(p, c) => if p <= k {
      PathWithin(c, k[|p|..]);
      FrontOffset(ExtStep(|p| % 256), PathOf(c, k[|p|..]));
    }
    case Branch(cs, _) => if k != [] {
      PathWithin(cs[k[0]], k[1..]);
      FrontOffset(BranchStep(k[0]), PathOf(cs[k[0]], k[1..]));
    }
    case _ =>
  }

  lemma {:induction false} FrontOffset(step: PathStep, rest: seq<PathStep>)
    ensures Above([step] + rest) <= StepLen(step) + Above(rest)
  {
    if rest != [] {
      var front := ([step] + rest)[..|rest|];
      OffsetHead(front);
      assert front == [step] + rest[..|rest| - 1];
    }
  }

  /**
   Completeness: every inclusion and exclusion proof built for a trie verifies, whenever the extensions
   above the end of its path have pairwise different lengths.
   */
  lemma {:induction false} ProofsComplete(lib: Lib, t: Tree, key: Key)
    requires Faithful(lib) && WellFormed(t) && !Blocked(t, KeyToNibbles(key))
    requires DifferentLengths(ProofOf(lib, t, key).path)
    ensures Accepts(lib, ProofOf(lib, t, key))
  {
    BuiltReadsRight(lib, t, key);
    var x, y := ProofsVerify(lib, t, key);
  }

  lemma {:induction false} BuiltReadsRight(lib: Lib, t: Tree, key: Key)
    requires WellFormed(t) && DifferentLengths(ProofOf(lib, t, key).path)
    ensures ReadsRightFrom(ProofOf(lib, t, key), 0)
  {
    PathWithin(t, KeyToNibbles(key));
    DifferentLengthsReadRight(ProofOf(lib, t, key));
  }

  lemma {:induction false} StartOfFirst(path: seq<PathStep>, b: nat)
    requires b < |path| && forall a | 0 <= a < b :: path[a] != path[b]
    ensures StartOf(path, path[b]) == Offset(path[..b])
  {
    if b > 0 {
      StartOfFirst(path[1..], b - 1);
      OffsetHead(path[..b]);
      assert path[..b][1..] == path[1..][..b - 1];
    }
  }

  lemma {:induction false} OffsetMonotone(path: seq<PathStep>, b: nat)
    requires b <= |path|
    ensures Offset(path[..b]) <= Offset(path)
  {
    if b == |path| {
      assert path[..b] == path;
    } else {
      OffsetMonotone(path[..|path| - 1], b);
      assert path[..|path| - 1][..b] == path[..b];
    }
  }

  /** Nibbles 1, 2, 3, 4 and then zeros. */
  function MisreadKey(): Key { [0x12, 0x34] + seq(30, i => 0) }

  /** A trie with extensions [1] and [3] on the path of `MisreadKey`, one above the other. */
  ghost function MisreadTrie(v: Bytes): Tree {
    var low := Ext([3], Branch(NoChildren()[4 := Leaf(seq(60, i => 0), v)][5 := Leaf(seq(60, i => 0), v)], None));
    Ext([1], Branch(NoChildren()[2 := low][6 := Leaf(seq(62, i => 0), v)], None))
  }

  /** Two extensions of the same length: the lower one is read at the offset of the upper one. */
  lemma {:induction false} SameLengthMisread(lib: Lib, v: Bytes) returns (x: Bytes, y: Bytes)
    requires Faithful(lib)
    ensures Canonical(MisreadTrie(v)) && WellFormed(MisreadTrie(v))
    ensures Get(MisreadTrie(v), KeyToNibbles(MisreadKey())) == Some(v)
    ensures !Accepts(lib, ProofOf(lib, MisreadTrie(v), MisreadKey())) || Collide(lib, x, y)
  {
    var t, key := MisreadTrie(v), MisreadKey();
    var k := KeyToNibbles(key);
    MisreadNibbles();
    MisreadPath(v, k);
    CanonicalIsWhole(t);
    WholeNotBlocked(t, k);
    var proof := ProofOf(lib, t, key);
    OffsetNext(proof.path, 0);
    OffsetNext(proof.path, 1);
    assert KeyToNibbles(key)[0..1][0] != KeyToNibbles(key)[2..3][0];
    assert !ReadsRight(proof, 2);
    x, y := ProofsVerify(lib, t, key);
  }

  lemma {:induction false} MisreadNibbles()
    ensures var k := KeyToNibbles(MisreadKey()); k[0] == 1 && k[1] == 2 && k[2] == 3 && k[3] == 4
    ensures KeyToNibbles(MisreadKey())[4..] == seq(60, i => 0)
  {
    var key, k := MisreadKey(), KeyToNibbles(MisreadKey());
    assert k[2 * 0] == HighNibble(key[0]) && k[2 * 0 + 1] == LowNibble(key[0]);
    assert k[2 * 1] == HighNibble(key[1]) && k[2 * 1 + 1] == LowNibble(key[1]);
    assert (0x12 as bv8) >> 4 == 1 && 0x12 & 0x0F == (2 as bv8) && (0x34 as bv8) >> 4 == 3 && 0x34 & 0x0F == (4 as bv8);
    forall i | 4 <= i < 64 ensures k[i] == 0 {
      assert k[2 * (i / 2)] == HighNibble(key[i / 2]) && k[2 * (i / 2) + 1] == LowNibble(key[i / 2]);
      assert (0 as bv8) >> 4 == 0 && 0 & 0x0F == (0 as bv8);
    }
  }

  lemma {:induction false} MisreadPath(v: Bytes, k: Nibbles)
    requires |k| == 64 && k[0] == 1 && k[1] == 2 && k[2] == 3 && k[3] == 4 && k[4..] == seq(60, i => 0)
    ensures Canonical(MisreadTrie(v)) && WellFormed(MisreadTrie(v)) && Get(MisreadTrie(v), k) == Some(v)
    ensures PathOf(MisreadTrie(v), k) == [ExtStep(1), BranchStep(2), ExtStep(1), BranchStep(4), LeafStep]
  {
    var mid := MisreadTrie(v).child;
    var low := mid.children[2];
    var leaf := low.child.children[4];
    assert leaf == Leaf(seq(60, i => 0), v) && low.child.children[5] != Empty && mid.children[6] != Empty;
    assert Crowded(low.child.children, None) && Canonical(low.child) && Canonical(low);
    assert Crowded(mid.children, None) && Canonical(mid);
    CanonicalIsWhole(MisreadTrie(v));
    assert k[1..][1..] == k[2..] && k[2..][1..] == k[3..] && k[3..][1..] == k[4..];
    assert PathOf(leaf, k[4..]) == [LeafStep] && Get(leaf, k[4..]) == Some(v);
    assert PathOf(low.child, k[3..]) == [BranchStep(4)] + [LeafStep] && Get(low.child, k[3..]) == Some(v);
    assert PathOf(low, k[2..]) == [ExtStep(1)] + PathOf(low.child, k[3..]) && Get(low, k[2..]) == Some(v);
    assert PathOf(mid, k[1..]) == [BranchStep(2)] + PathOf(low, k[2..]) && Get(mid, k[1..]) == Some(v);
    assert [1] <= k;
  }
}
