/**
 What `verify_proof` binds and what it leaves open: which values, siblings and keys a path and a root are
 accepted with.
 */
module ProofBinding {
  import opened Basics
  import opened Hashing
  import opened TrieShape
  import opened TrieHistory
  import opened TrieStore
  import opened TrieProof

  /** A step up keeps different hashes different, or two inputs collide. */
  lemma {:induction false} StepUpDiffers(lib: Lib, p: MerkleProof, q: MerkleProof, step: PathStep, g: Hash32, h: Hash32, j: nat)
    returns (x: Bytes, y: Bytes)
    requires Faithful(lib) && p.trieKey == q.trieKey && p.path == q.path && g != h
    requires j <= |p.siblings| == |q.siblings| && (j > 0 ==> p.siblings[j - 1] == q.siblings[j - 1])
    ensures StepUp(lib, p, step, g, j).Some? <==> StepUp(lib, q, step, h, j).Some?
    ensures StepUp(lib, p, step, g, j).Some? ==>
      && StepUp(lib, p, step, g, j).value.1 == StepUp(lib, q, step, h, j).value.1
      && (StepUp(lib, p, step, g, j).value.0 != StepUp(lib, q, step, h, j).value.0 || Collide(lib, x, y))
  {
    x, y := [], [];
    match step
    case BranchStep(_) =>
      if j > 0 {
        var s := p.siblings[j - 1];
        if Xor(s, g) == Xor(s, h) { XorCancel(s, g, h); }
        x, y := DifferentBranches(lib, Xor(s, g), Xor(s, h));
      }
    case ExtStep(len) =>
      var nibbles, start := KeyToNibbles(p.trieKey), StartOf(p.path, step);
      if start + len <= |nibbles| {
        x, y := DifferentExts(lib, nibbles[start..start + len], g, nibbles[start..start + len], h);
      }
    case LeafStep =>
  }

  /** Siblings the verifier takes for a path: one for each branch above the end, and one for an end that is not a leaf shown. */
  function SiblingsUsed(path: seq<PathStep>, value: Option<Bytes>): nat
    requires path != []
  {
    if |path| == 1 then (if path[0].LeafStep? && value.Some? then 0 else 1)
    else (if path[0].BranchStep? then 1 else 0) + SiblingsUsed(path[1..], value)
  }

  /** What the verifier does not check: the proof holds no sibling that it does not take. */
  predicate NoneLeftOver(p: MerkleProof) {
    |p.siblings| == if p.path == [] then 0 else SiblingsUsed(p.path, p.value)
  }

  lemma {:induction false} LevelSiblings(lib: Lib, p: MerkleProof, i: nat)
    requires i < |p.path| && Level(lib, p, i).Some?
    ensures Level(lib, p, i).value.1 + SiblingsUsed(p.path[i..], p.value) == |p.siblings|
    decreases |p.path| - i
  {
    if i < |p.path| - 1 {
      LevelSiblings(lib, p, i + 1);
      assert p.path[i..][1..] == p.path[i + 1..];
    }
  }

  /** `NoneLeftOver` can be checked before anything is hashed, and says that the walk ends without a sibling left. */
  lemma {:induction false} LeftOverCounted(lib: Lib, p: MerkleProof)
    requires p.path != [] && Level(lib, p, 0).Some?
    ensures NoneLeftOver(p) <==> Level(lib, p, 0).value.1 == 0
  {
    LevelSiblings(lib, p, 0);
    assert p.path[0..] == p.path;
  }

  /** At a branch's own slot, a value that hashes to 32 zero bytes hashes like no value. */
  ghost predicate ZeroSlot(lib: Lib, path: seq<PathStep>, a: Option<Bytes>, b: Option<Bytes>) {
    && path != [] && path[|path| - 1] == BranchStep(16)
    && ((a.None? && b.Some? && lib.blake(b.value) == Zero()) || (a.Some? && b.None? && lib.blake(a.value) == Zero()))
  }

  lemma {:induction false} ValueLevels(lib: Lib, p: MerkleProof, v: Option<Bytes>, i: nat) returns (x: Bytes, y: Bytes)
    requires Faithful(lib) && p.value != v && i < |p.path|
    requires Level(lib, p, i).Some? && Level(lib, p.(value := v), i).Some?
    requires p.path[|p.path| - 1].LeafStep? ==> (p.value.Some? <==> v.Some?)
    ensures Level(lib, p.(value := v), i).value.1 == Level(lib, p, i).value.1
    ensures Level(lib, p, i).value.0 != Level(lib, p.(value := v), i).value.0 || Collide(lib, x, y) || ZeroSlot(lib, p.path, p.value, v)
    decreases |p.path| - i
  {
    var q := p.(value := v);
    if i < |p.path| - 1 {
      var below := Level(lib, p, i + 1).value;
      var x', y' := ValueLevels(lib, p, v, i + 1);
      x, y := x', y';
      if below.0 != Level(lib, q, i + 1).value.0 {
        x, y := StepUpDiffers(lib, p, q, p.path[i], below.0, Level(lib, q, i + 1).value.0, below.1);
      }
    } else {
      x, y := ValueTerminal(lib, p, v);
    }
  }

  lemma {:induction false} ValueTerminal(lib: Lib, p: MerkleProof, v: Option<Bytes>) returns (x: Bytes, y: Bytes)
    requires Faithful(lib) && p.value != v && p.path != []
    requires Terminal(lib, p).Some? && Terminal(lib, p.(value := v)).Some?
    requires p.path[|p.path| - 1].LeafStep? ==> (p.value.Some? <==> v.Some?)
    ensures Terminal(lib, p.(value := v)).value.1 == Terminal(lib, p).value.1
    ensures Terminal(lib, p).value.0 != Terminal(lib, p.(value := v)).value.0 || Collide(lib, x, y) || ZeroSlot(lib, p.path, p.value, v)
  {
    if p.path[|p.path| - 1].LeafStep? {
      var suffix := KeyToNibbles(p.trieKey)[Offset(p.path)..];
      x, y := lib.bincode(LeafNode(suffix, p.value.value)), lib.bincode(LeafNode(suffix, v.value));
    } else {
      x, y := SlotDiffers(lib, p.siblings[|p.siblings| - 1], p.value, v);
    }
  }

  /** A branch hashes differently with another value in its slot, unless that is nothing and 32 zero bytes. */
  lemma {:induction false} SlotDiffers(lib: Lib, s: Hash32, a: Option<Bytes>, b: Option<Bytes>) returns (x: Bytes, y: Bytes)
    requires a != b
    ensures BranchHash(lib, XorValue(lib, s, a)) != BranchHash(lib, XorValue(lib, s, b)) || Collide(lib, x, y)
      || (a.None? && lib.blake(b.value) == Zero()) || (b.None? && lib.blake(a.value) == Zero())
  {
    var g, h := if a.Some? then lib.blake(a.value) else Zero(), if b.Some? then lib.blake(b.value) else Zero();
    XorZero(s);
    if g == h {
      x, y := if a.Some? then a.value else [], if b.Some? then b.value else [];
    } else {
      if Xor(s, g) == Xor(s, h) { XorCancel(s, g, h); }
      x, y := DifferentBranches(lib, Xor(s, g), Xor(s, h));
    }
  }

  /** A key, a path, siblings and a root are accepted with one present value only, or two inputs collide. */
  lemma {:induction false} ValueBinding(lib: Lib, p: MerkleProof, v: Bytes) returns (x: Bytes, y: Bytes)
    requires Faithful(lib) && p.value.Some? && p.value.value != v
    requires Accepts(lib, p) && Accepts(lib, p.(value := Some(v)))
    ensures Collide(lib, x, y)
  {
    x, y := ValueLevels(lib, p, Some(v), 0);
  }

  /** A path that ends at an extension, at an empty slot or at nothing never shows a value. */
  lemma {:induction false} NeverPresent(lib: Lib, p: MerkleProof, v: Bytes)
    requires p.path == [] || (!p.path[|p.path| - 1].LeafStep? && p.path[|p.path| - 1] != BranchStep(16))
    ensures !Accepts(lib, p.(value := Some(v)))
  {
    if p.path != [] { Stuck(lib, p.(value := Some(v)), |p.path| - 1); }
  }

  /**
   Values present and absent: as long as no sibling is left over, a key, a path, siblings and a root are accepted
   with one value or absence only, or two inputs collide.  Of a branch's own slot that holds for every value
   but one that hashes to 32 zero bytes, and with that value just when without.
   */
  lemma {:induction false} OneValue(lib: Lib, p: MerkleProof, v: Option<Bytes>) returns (x: Bytes, y: Bytes)
    requires Faithful(lib) && p.value != v && Accepts(lib, p)
    requires NoneLeftOver(p) && NoneLeftOver(p.(value := v))
    ensures Accepts(lib, p.(value := v)) ==> Collide(lib, x, y) || ZeroSlot(lib, p.path, p.value, v)
    ensures ZeroSlot(lib, p.path, p.value, v) ==> Accepts(lib, p.(value := v))
  {
    x, y := [], [];
    if ZeroSlot(lib, p.path, p.value, v) {
      ZeroSlotLevels(lib, p, v, 0);
    } else if Accepts(lib, p.(value := v)) {
      if p.path != [] {
        LeafCount(p.path, p.value, v);
        x, y := ValueLevels(lib, p, v, 0);
      }
    }
  }

  lemma {:induction false} LeafCount(path: seq<PathStep>, a: Option<Bytes>, b: Option<Bytes>)
    requires path != [] && SiblingsUsed(path, a) == SiblingsUsed(path, b)
    ensures path[|path| - 1].LeafStep? ==> (a.Some? <==> b.Some?)
  {
    if |path| > 1 { LeafCount(path[1..], a, b); }
  }

  lemma {:induction false} ZeroSlotLevels(lib: Lib, p: MerkleProof, v: Option<Bytes>, i: nat)
    requires i < |p.path| && ZeroSlot(lib, p.path, p.value, v)
    ensures Level(lib, p.(value := v), i) == Level(lib, p, i)
    decreases |p.path| - i
  {
    if i < |p.path| - 1 {
      ZeroSlotLevels(lib, p, v, i + 1);
    } else if p.siblings != [] {
      XorZero(p.siblings[|p.siblings| - 1]);
    }
  }

  /** A proof the trie built leaves no sibling over. */
  lemma {:induction false} BuiltCount(lib: Lib, t: Tree, key: Key)
    requires Faithful(lib) && WellFormed(t) && !Blocked(t, KeyToNibbles(key))
    ensures NoneLeftOver(ProofOf(lib, t, key))
  {
    if t != Empty {
      var k, p := KeyToNibbles(key), ProofOf(lib, t, key);
      PathNotEmpty(t, k);
      var x, y := BuiltLevel(lib, t, k, p, 0, 0);
      LeftOverCounted(lib, p);
    }
  }

  /** Absence shown by another leaf at the end of the path, and a value put in its place. */
  predicate AtOtherLeaf(p: MerkleProof, v: Option<Bytes>) {
    p.value.None? && v.Some? && p.path != [] && p.path[|p.path| - 1].LeafStep?
  }

  /**
   What acceptance does determine.  Take the proof built for a key, present or absent, and put any value or none
   into it: what the trie holds at the key is accepted, and anything else only if two inputs collide, or with
   32 zero bytes in a branch's own slot, or at another leaf's end and then with a sibling left over.
   */
  lemma {:induction false} BuiltProofBinds(lib: Lib, t: Tree, key: Key, v: Option<Bytes>) returns (x: Bytes, y: Bytes)
    requires Faithful(lib) && WellFormed(t) && !Blocked(t, KeyToNibbles(key))
    requires ReadsRightFrom(ProofOf(lib, t, key), 0)
    ensures var p, q := ProofOf(lib, t, key), ProofOf(lib, t, key).(value := v);
      && (v == Get(t, KeyToNibbles(key)) ==> Accepts(lib, q) && NoneLeftOver(q))
      && (ZeroSlot(lib, p.path, p.value, v) ==> Accepts(lib, q) && NoneLeftOver(q))
      && (Accepts(lib, q) ==>
            || v == Get(t, KeyToNibbles(key)) || Collide(lib, x, y) || ZeroSlot(lib, p.path, p.value, v)
            || (AtOtherLeaf(p, v) && !NoneLeftOver(q)))
  {
    x, y := ProofsVerify(lib, t, key);
    BuiltCount(lib, t, key);
    var p := ProofOf(lib, t, key);
    var q := p.(value := v);
    if p.path != [] && p.path[|p.path| - 1].LeafStep? && p.value.Some? != v.Some? {
      OtherLeafCount(p.path, p.value, v);
      if Accepts(lib, q) {
        LevelSiblings(lib, q, 0);
        assert q.path[0..] == p.path;
      }
    } else if p.value != v {
      SameCount(p.path, p.value, v);
      x, y := OneValue(lib, p, v);
    }
  }

  lemma {:induction false} OtherLeafCount(path: seq<PathStep>, a: Option<Bytes>, b: Option<Bytes>)
    requires path != [] && path[|path| - 1].LeafStep? && a.Some? != b.Some?
    ensures SiblingsUsed(path, a) == SiblingsUsed(path, b) + if a.None? then 1 else -1
  {
    if |path| > 1 { OtherLeafCount(path[1..], a, b); }
  }

  lemma {:induction false} SameCount(path: seq<PathStep>, a: Option<Bytes>, b: Option<Bytes>)
    requires path != [] && path[|path| - 1].LeafStep? ==> (a.Some? <==> b.Some?)
    ensures path != [] ==> SiblingsUsed(path, a) == SiblingsUsed(path, b)
  {
    if |path| > 1 { SameCount(path[1..], a, b); }
  }

  ghost predicate KeysAreLong(t: Tree, n: int)
    requires WellFormed(t)
  {
    forall m :: Get(t, m).Some? ==> |m| == n
  }

  lemma {:induction false} KeysBelowExt(p: Nibbles, c: Tree, n: int)
    requires WellFormed(Ext(p, c)) && KeysAreLong(Ext(p, c), n)
    ensures KeysAreLong(c, n - |p|)
  {
    forall m | Get(c, m).Some? ensures |m| == n - |p| {
      assert (p + m)[|p|..] == m;
      assert Get(Ext(p, c), p + m).Some?;
    }
  }

  lemma {:induction false} KeysBelowBranch(t: Tree, i: Nibble, n: int)
    requires WellFormed(t) && t.Branch? && KeysAreLong(t, n)
    ensures KeysAreLong(t.children[i], n - 1)
  {
    forall m | Get(t.children[i], m).Some? ensures |m| == n - 1 {
      assert ([i] + m)[1..] == m;
      assert Get(t, [i] + m).Some?;
    }
  }

  lemma {:induction false} NoBranchAtFullKey(t: Tree)
    requires Canonical(t) && WellFormed(t) && KeysAreLong(t, 0)
    ensures !t.Branch?
  {
    if t.Branch? {
      var a, b := Diverging(t);
      assert false;
    }
  }

  /** A trie whose keys are all as long as `k` never has `k` end at a branch's own slot. */
  lemma {:induction false} NoSlotAtFullKey(t: Tree, k: Nibbles)
    requires Canonical(t) && WellFormed(t) && KeysAreLong(t, |k|)
    ensures BranchStep(16) !in PathOf(t, k)
    decreases t
  {
    match t
    case Ext(p, c) => if p <= k {
      KeysBelowExt(p, c, |k|);
      NoSlotAtFullKey(c, k[|p|..]);
    }
    case Branch(cs, _) =>
      if k == [] {
        NoBranchAtFullKey(t);
      } else {
        KeysBelowBranch(t, k[0], |k|);
        NoSlotAtFullKey(cs[k[0]], k[1..]);
      }
    case _ =>
  }

  // -------------------------------------------------- absent and present

  /** Nibbles: a 1 and zeros; no key of `TwoLeaves`. */
  function AbsentKey(): Key { [0x10] + seq(31, i => 0) }

  /** Two leaves below one branch, under nibbles 1, 1, 0, 0, ... and 2, 0, 0, 0, ... */
  ghost function TwoLeaves(w: Bytes, v: Bytes): Tree {
    Branch(NoChildren()[1 := Leaf([1] + seq(62, i => 0), w)][2 := Leaf(seq(63, i => 0), v)], None)
  }

  lemma {:induction false} AbsentNibbles()
    ensures KeyToNibbles(AbsentKey())[0] == 1 && KeyToNibbles(AbsentKey())[1..] == seq(63, i => 0)
  {
    var key, k := AbsentKey(), KeyToNibbles(AbsentKey());
    assert k[2 * 0] == HighNibble(key[0]) && k[2 * 0 + 1] == LowNibble(key[0]);
    assert (0x10 as bv8) >> 4 == 1 && 0x10 & 0x0F == (0 as bv8);
    forall i | 2 <= i < 64 ensures k[i] == 0 {
      assert k[2 * (i / 2)] == HighNibble(key[i / 2]) && k[2 * (i / 2) + 1] == LowNibble(key[i / 2]);
      assert (0 as bv8) >> 4 == 0 && 0 & 0x0F == (0 as bv8);
    }
  }

  /** The branch of `TwoLeaves` without its first leaf is the hash of its second. */
  lemma {:induction false} OtherLeafIsSibling(lib: Lib, w: Bytes, v: Bytes)
    ensures SiblingXor(lib, TwoLeaves(w, v), 1) == NodeHash(lib, LeafNode(seq(63, i => 0), v))
  {
    var t := TwoLeaves(w, v);
    var hs, h := NodeOf(lib, t).children[1 := None], NodeHash(lib, LeafNode(seq(63, i => 0), v));
    HashOfLeaf(lib, seq(63, i => 0), v);
    assert t.children[2] == Leaf(seq(63, i => 0), v) && hs[2] == Some(h);
    XorSplit(hs, 2);
    assert hs[2 := None] == NoSlots();
    XorNone(hs[2 := None]);
    XorComm(Zero(), h);
    XorZero(h);
  }

  lemma {:induction false} XorNone(hs: seq<Option<Hash32>>)
    requires forall i | 0 <= i < |hs| :: hs[i] == None
    ensures XorSlots(hs) == Zero()
  {
    if hs != [] { XorNone(hs[..|hs| - 1]); }
  }

  /**
   The sibling left over makes a difference, whatever the hash function: the proof built for a key that is absent
   from a trie of two leaves is accepted, and so it is with the value of the other leaf put in.
   */
  lemma {:induction false} AbsentAndPresent(lib: Lib, w: Bytes, v: Bytes)
    ensures Canonical(TwoLeaves(w, v)) && WellFormed(TwoLeaves(w, v))
    ensures Get(TwoLeaves(w, v), KeyToNibbles(AbsentKey())) == None
    ensures Accepts(lib, ProofOf(lib, TwoLeaves(w, v), AbsentKey()))
    ensures Accepts(lib, ProofOf(lib, TwoLeaves(w, v), AbsentKey()).(value := Some(v)))
  {
    var t, p := TwoLeaves(w, v), ProofOf(lib, TwoLeaves(w, v), AbsentKey());
    var k, leaf := KeyToNibbles(AbsentKey()), Leaf([1] + seq(62, i => 0), w);
    AbsentNibbles();
    assert t.children[1] == leaf && t.children[2] != Empty && Crowded(t.children, None) && Canonical(t);
    assert leaf.suffix[0] == 1 && k[1..][0] == 0;
    OtherLeafIsSibling(lib, w, v);
    var g, h := HashOf(lib, leaf), NodeHash(lib, LeafNode(k[1..], v));
    assert Get(leaf, k[1..]) == None && PathOf(leaf, k[1..]) == [LeafStep] && SiblingsOf(lib, leaf, k[1..]) == [g];
    assert p.path == [BranchStep(1)] + [LeafStep] && p.siblings == [h] + [g] && p.value == Get(t.children[1], k[1..]);
    BranchFromChild(lib, t, 1);
    XorComm(h, g);
    assert Level(lib, p, 1) == Some((g, 1));
    OffsetNext(p.path, 0);
    OffsetNext(p.path, 1);
    assert p.path[..2] == p.path;
    assert Level(lib, p.(value := Some(v)), 1) == Some((h, 2));
  }

  // ------------------------------------------------------------- siblings

  function WithSibling(p: MerkleProof, s: nat, z: Hash32): MerkleProof
    requires s < |p.siblings|
  {
    p.(siblings := p.siblings[s := z])
  }

  lemma {:induction false} SiblingLevels(lib: Lib, p: MerkleProof, s: nat, z: Hash32, i: nat) returns (x: Bytes, y: Bytes)
    requires Faithful(lib) && s < |p.siblings| && p.siblings[s] != z && i < |p.path|
    requires Level(lib, p, i).Some?
    ensures Level(lib, WithSibling(p, s, z), i).Some?
    ensures Level(lib, WithSibling(p, s, z), i).value.1 == Level(lib, p, i).value.1
    ensures s < Level(lib, p, i).value.1 ==> Level(lib, p, i) == Level(lib, WithSibling(p, s, z), i)
    ensures s >= Level(lib, p, i).value.1 ==>
      Level(lib, p, i).value.0 != Level(lib, WithSibling(p, s, z), i).value.0 || Collide(lib, x, y)
    decreases |p.path| - i
  {
    var q := WithSibling(p, s, z);
    x, y := [], [];
    if i < |p.path| - 1 {
      var below := Level(lib, p, i + 1).value;
      x, y := SiblingLevels(lib, p, s, z, i + 1);
      if s >= below.1 {
        if !Collide(lib, x, y) {
          x, y := StepUpDiffers(lib, p, q, p.path[i], below.0, Level(lib, q, i + 1).value.0, below.1);
        }
      } else if s == below.1 - 1 && p.path[i].BranchStep? {
        x, y := SiblingXorDiffers(lib, p.siblings[s], z, below.0);
      }
    } else if p.path[i].BranchStep? && s == |p.siblings| - 1 {
      if p.value.Some? && p.path[i].nibble == 16 {
        x, y := SiblingXorDiffers(lib, p.siblings[s], z, lib.blake(p.value.value));
      } else {
        x, y := DifferentBranches(lib, p.siblings[s], z);
      }
    }
  }

  lemma {:induction false} SiblingXorDiffers(lib: Lib, s: Hash32, z: Hash32, h: Hash32) returns (x: Bytes, y: Bytes)
    requires s != z
    ensures BranchHash(lib, Xor(s, h)) != BranchHash(lib, Xor(z, h)) || Collide(lib, x, y)
  {
    XorComm(s, h);
    XorComm(z, h);
    if Xor(s, h) == Xor(z, h) { XorCancel(h, s, z); }
    x, y := DifferentBranches(lib, Xor(s, h), Xor(z, h));
  }

  /** Changing one sibling the verifier consumes makes it reject, or two inputs collide. */
  lemma {:induction false} SiblingBinding(lib: Lib, p: MerkleProof, s: nat, z: Hash32) returns (x: Bytes, y: Bytes)
    requires Faithful(lib) && p.path != [] && s < |p.siblings| && p.siblings[s] != z
    requires Accepts(lib, p) && Accepts(lib, WithSibling(p, s, z))
    requires Level(lib, p, 0).value.1 <= s
    ensures Collide(lib, x, y)
  {
    x, y := SiblingLevels(lib, p, s, z, 0);
  }

  /** Siblings in front of the consumed ones are never looked at. */
  lemma {:induction false} UnusedSiblings(lib: Lib, p: MerkleProof, s: nat, z: Hash32)
    requires s < |p.siblings| && Accepts(lib, p) && (p.path != [] ==> s < Level(lib, p, 0).value.1)
    ensures Accepts(lib, WithSibling(p, s, z))
  {
    if p.path != [] { UnusedLevels(lib, p, s, z, 0); }
  }

  lemma {:induction false} UnusedLevels(lib: Lib, p: MerkleProof, s: nat, z: Hash32, i: nat)
    requires s < |p.siblings| && i < |p.path| && Level(lib, p, i).Some? && s < Level(lib, p, i).value.1
    ensures Level(lib, WithSibling(p, s, z), i) == Level(lib, p, i)
    decreases |p.path| - i
  {
    if i < |p.path| - 1 {
      UnusedLevels(lib, p, s, z, i + 1);
      var below := Level(lib, p, i + 1).value;
      UnusedStep(lib, p, s, z, p.path[i], below.0, below.1);
    } else {
      UnusedTerminal(lib, p, s, z);
    }
  }

  lemma {:induction false} UnusedStep(lib: Lib, p: MerkleProof, s: nat, z: Hash32, step: PathStep, h: Hash32, j: nat)
    requires s < |p.siblings| && j <= |p.siblings| && StepUp(lib, p, step, h, j).Some? && s < StepUp(lib, p, step, h, j).value.1
    ensures StepUp(lib, WithSibling(p, s, z), step, h, j) == StepUp(lib, p, step, h, j)
  {
  }

  lemma {:induction false} UnusedTerminal(lib: Lib, p: MerkleProof, s: nat, z: Hash32)
    requires s < |p.siblings| && p.path != [] && Terminal(lib, p).Some? && s < Terminal(lib, p).value.1
    ensures Terminal(lib, WithSibling(p, s, z)) == Terminal(lib, p)
  {
  }

  // ------------------------------------------------------------------ root

  /** Everything but the root fixes the root. */
  lemma {:induction false} RootBinding(lib: Lib, p: MerkleProof, r: Hash32)
    requires Accepts(lib, p) && r != p.root
    ensures !Accepts(lib, p.(root := r))
  {
    if p.path != [] { RootUnread(lib, p, r, 0); }
  }

  lemma {:induction false} RootUnread(lib: Lib, p: MerkleProof, r: Hash32, i: nat)
    requires i < |p.path|
    ensures Level(lib, p.(root := r), i) == Level(lib, p, i)
    decreases |p.path| - i
  {
    if i < |p.path| - 1 { RootUnread(lib, p, r, i + 1); }
  }

  /** An empty path shows the absence of every key from the empty trie. */
  lemma {:induction false} EmptyTrieProof(lib: Lib, key: Key, siblings: seq<Hash32>)
    ensures Accepts(lib, MerkleProof(key, None, OrZero(Root(lib, Empty)), siblings, []))
  {
  }

  /** Of no other trie does it show anything, unless the root of that trie is 32 zero bytes. */
  lemma {:induction false} EmptyPathShowsNothing(lib: Lib, t: Tree, p: MerkleProof)
    requires WellFormed(t) && t != Empty && p.path == [] && p.root == OrZero(Root(lib, t))
    ensures Accepts(lib, p) ==> HashOf(lib, t) == Zero()
  {
    if Accepts(lib, p) && p.root != Zero() {
      EmptyTrieProof(lib, p.trieKey, p.siblings);
      RootBinding(lib, p, Zero());
    }
  }

  // ------------------------------------------------------------------ keys

  /** Above the end of the path there is no extension, and at its end no leaf that is shown. */
  predicate KeyUnread(p: MerkleProof) {
    && (forall i | 0 <= i < |p.path| - 1 :: !p.path[i].ExtStep?)
    && (p.path != [] && p.path[|p.path| - 1].LeafStep? ==> p.value.None?)
  }

  /** Only extensions above the end and a leaf that is shown tie a proof to its key. */
  lemma {:induction false} AnyKey(lib: Lib, p: MerkleProof, key: Key)
    requires KeyUnread(p)
    ensures Accepts(lib, p.(trieKey := key)) <==> Accepts(lib, p)
  {
    if p.path != [] { AnyKeyLevels(lib, p, key, 0); }
  }

  lemma {:induction false} AnyKeyLevels(lib: Lib, p: MerkleProof, key: Key, i: nat)
    requires KeyUnread(p) && i < |p.path|
    ensures Level(lib, p.(trieKey := key), i) == Level(lib, p, i)
    decreases |p.path| - i
  {
    if i < |p.path| - 1 { AnyKeyLevels(lib, p, key, i + 1); }
  }

  /** Absence at a single leaf or extension: the last sibling is compared with the root and nothing else is looked at. */
  lemma {:induction false} AbsentAtRoot(lib: Lib, key: Key, root: Hash32, siblings: seq<Hash32>, end: PathStep)
    requires !end.BranchStep?
    ensures Accepts(lib, MerkleProof(key, None, root, siblings, [end])) <==> siblings != [] && siblings[|siblings| - 1] == root
  {
    assert Level(lib, MerkleProof(key, None, root, siblings, [end]), 0) == Terminal(lib, MerkleProof(key, None, root, siblings, [end]));
  }
}
