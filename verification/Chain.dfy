/**
 Blocks, undo logs and reorganisations: the engine's in-memory atoms, the atom
 rows, the saved blocks and the undo logs, changed step by step.
 */
module Chain {
  import opened Basics
  import opened Hashing
  import opened Ledger
  import opened Sorting

  const FINALITY_DEPTH: nat := 6

  datatype Crystal = Crystal(
    index: nat, prevHash: Hash32, reactions: seq<Reaction>, energy: real, stateRoot: Hash32)

  /** The value each touched account had before the block; `None` for an account the block created. */
  type Images = map<Pk, Option<Atom>>

  datatype UndoLog = UndoLog(crystalIndex: nat, images: Images)

  function At(m: Atoms, k: Pk): Option<Atom> {
    if k in m then Some(m[k]) else None
  }

  function PreImages(m: Atoms, keys: set<Pk>): Images {
    map k | k in keys :: At(m, k)
  }

  /** Put back the pre-images: old values return, created accounts disappear. */
  function Restore(m: Atoms, images: Images): Atoms {
    map k | k in m.Keys + images.Keys && (k in images ==> images[k].Some?) ::
      if k in images then images[k].value else m[k]
  }

  lemma {:induction false} RestoreUndoes(m: Atoms, changes: Atoms)
    ensures Restore(m + changes, PreImages(m, changes.Keys)) == m
  {
  }

  /** The first match, going down, for the block the fork was built on; 0 if there is none. */
  function FindAncestor(density: Crystal -> Hash32, crystals: map<nat, Crystal>, prevHash: Hash32, candidate: nat): (a: nat)
    ensures a <= candidate
    ensures a == 0 || (a in crystals && density(crystals[a]) == prevHash)
    ensures forall h | a < h <= candidate && h in crystals :: density(crystals[h]) != prevHash
  {
    if candidate in crystals && density(crystals[candidate]) == prevHash then candidate
    else if candidate == 0 then 0
    else FindAncestor(density, crystals, prevHash, candidate - 1)
  }

  /** Logs that survive pruning at height `current`. */
  function Kept(logs: map<nat, UndoLog>, current: nat): map<nat, UndoLog> {
    map h | h in logs && h + UNDO_WINDOW >= current :: logs[h]
  }

  datatype BlockError = PvmFailed(PvmError) | CommitFailed | RootMismatch | BadPow

  datatype ReorgOutcome = EmptyChain | TooDeep | LogMissing | BlockFailed(error: BlockError) | Done

  /**
   What the outside contributes to one block: proof of work, the virtual machine, and the root the trie
   computes, or `None` if the commit fails on a node missing from the trie.
   */
  datatype Env = Env(powOk: bool, execute: (Atoms, Crystal) -> Result<Atoms, PvmError>, root: Option<Hash32>)

  /** Memory (`atoms`, `index`), database (`rows`, `crystals`, `latest`, `logs`), and, for the
      statements only, the atoms right after each block of the current chain (`past`). */
  datatype State = State(
    atoms: Atoms, index: nat, rows: Atoms, crystals: map<nat, Crystal>, latest: Option<nat>,
    logs: map<nat, UndoLog>, past: map<nat, Atoms>)

  /** Log `h` leads from the atoms after block `h` to those after block `h - 1`. */
  ghost predicate Leads(s: State, h: nat)
    requires h in s.logs
  {
    h > 0 && h in s.past && h - 1 in s.past && Restore(s.past[h], s.logs[h].images) == s.past[h - 1]
  }

  /** Rows agree with memory, and every log leads one block back. */
  ghost predicate Valid(s: State) {
    && s.rows == s.atoms
    && s.index in s.past && s.past[s.index] == s.atoms
    && forall h | h in s.logs && h <= s.index :: Leads(s, h)
  }

  // ------------------------------------------------------------ one block

  /** A block whose changes are `changes`, executed, saved, logged and pruned. */
  function Solidified(s: State, crystal: Crystal, changes: Atoms, root: Hash32): State {
    var after := s.atoms + changes;
    var log := UndoLog(crystal.index, PreImages(s.atoms, changes.Keys));
    State(after, crystal.index, s.rows + changes,
          s.crystals[crystal.index := crystal.(stateRoot := root)], Some(crystal.index),
          Kept(s.logs[crystal.index := log], crystal.index),
          s.past[crystal.index := after])
  }

  /** The error of a block, if any, and the state after it. */
  function Finalized(s: State, crystal: Crystal, env: Env): (State, Option<BlockError>) {
    var r := env.execute(s.atoms, crystal);
    if r.Err? then (s, Some(PvmFailed(r.error)))
    else if env.root.None? then
      // the trie comes before the rows; the index has been moved and is not moved back
      (s.(index := crystal.index), Some(CommitFailed))
    else if crystal.stateRoot != Zero() && crystal.stateRoot != env.root.value then
      // by now the rows are committed, the memory is not
      (s.(rows := s.rows + r.value), Some(RootMismatch))
    else (Solidified(s, crystal, r.value, env.root.value), None)
  }

  /** A finalized block keeps the state consistent when its number follows. */
  lemma {:induction false} FinalizedValid(s: State, crystal: Crystal, env: Env)
    requires Valid(s) && Finalized(s, crystal, env).1.None? && crystal.index == s.index + 1
    ensures Valid(Finalized(s, crystal, env).0) && Finalized(s, crystal, env).0.index == crystal.index
  {
    var changes := env.execute(s.atoms, crystal).value;
    var s' := Solidified(s, crystal, changes, env.root.value);
    RestoreUndoes(s.atoms, changes);
    forall h | h in s'.logs && h <= s'.index ensures Leads(s', h) {
      if h != crystal.index { assert h in s.logs && Leads(s, h); }
    }
  }

  /** A failed block leaves the height alone unless its commit failed: then the height is that of the failed block. */
  lemma {:induction false} FailedHeight(s: State, crystal: Crystal, env: Env)
    requires Finalized(s, crystal, env).1.Some?
    ensures Finalized(s, crystal, env).0.index != s.index
       <==> Finalized(s, crystal, env).1 == Some(CommitFailed) && crystal.index != s.index
    ensures Finalized(s, crystal, env).0.atoms == s.atoms
    ensures Finalized(s, crystal, env).1 != Some(RootMismatch) ==> Finalized(s, crystal, env).0.rows == s.rows
  {
  }

  /**
   What a failed block leaves behind: never a change to memory, saved blocks or logs; a block whose root turns out
   wrong leaves its rows, and one whose commit failed its height.
   */
  lemma {:induction false} FailedBlock(s: State, crystal: Crystal, env: Env)
    requires Finalized(s, crystal, env).1.Some?
    ensures var (s', e) := Finalized(s, crystal, env);
      && s'.atoms == s.atoms && s'.crystals == s.crystals && s'.latest == s.latest && s'.logs == s.logs && s'.past == s.past
      && (e.value.PvmFailed? <==> env.execute(s.atoms, crystal).Err?)
      && (e.value.PvmFailed? ==> s' == s && e == Some(PvmFailed(env.execute(s.atoms, crystal).error)))
      && (e.value.CommitFailed? <==> env.execute(s.atoms, crystal).Ok? && env.root.None?)
      && (e.value.CommitFailed? ==> s' == s.(index := crystal.index))
      && (e.value.RootMismatch? ==> s'.index == s.index && s'.rows == s.rows + env.execute(s.atoms, crystal).value)
      && !e.value.BadPow?
  {
  }

  /** Exactly when a block is finalized; the root it claims, if it claims one, is the root computed. */
  lemma {:induction false} FinalizedExactly(s: State, crystal: Crystal, env: Env)
    ensures Finalized(s, crystal, env).1.None? <==>
      env.execute(s.atoms, crystal).Ok? && env.root.Some? && (crystal.stateRoot == Zero() || env.root == Some(crystal.stateRoot))
  {
  }

  /** Wherever a block that claims a root is finalized, from whatever state, the root computed is the same. */
  lemma {:induction false} RootAgreement(s: State, s': State, crystal: Crystal, env: Env, env': Env)
    requires Finalized(s, crystal, env).1.None? && Finalized(s', crystal, env').1.None? && crystal.stateRoot != Zero()
    ensures env.root == env'.root == Some(crystal.stateRoot)
  {
    FinalizedExactly(s, crystal, env);
    FinalizedExactly(s', crystal, env');
  }

  /** The block as it is saved: with the root computed, whatever it claimed. */
  function Sealed(crystal: Crystal, env: Env): Crystal
    requires env.root.Some?
  {
    crystal.(stateRoot := env.root.value)
  }

  /** A finalized block is the latest, saved under its number with the root computed; other blocks stay saved as they were. */
  lemma {:induction false} SavedSealed(s: State, crystal: Crystal, env: Env)
    requires Finalized(s, crystal, env).1.None?
    ensures env.root.Some? && Finalized(s, crystal, env).0.latest == Some(crystal.index)
    ensures Finalized(s, crystal, env).0.crystals == s.crystals[crystal.index := Sealed(crystal, env)]
  {
  }

  // ------------------------------------------------------------- rollback

  /** All logs from `tip` down to `a + 1` are there. */
  predicate LogsFrom(logs: map<nat, UndoLog>, a: nat, tip: nat) {
    forall h | a < h <= tip :: h in logs
  }

  function RolledBack(m: Atoms, logs: map<nat, UndoLog>, a: nat, tip: nat): Atoms
    requires LogsFrom(logs, a, tip)
    decreases tip
  {
    if tip <= a then m else RolledBack(Restore(m, logs[tip].images), logs, a, tip - 1)
  }

  function Without<V>(m: map<nat, V>, a: nat, tip: nat): map<nat, V> {
    map h | h in m && !(a < h <= tip) :: m[h]
  }

  function Rewound(s: State, a: nat): State
    requires LogsFrom(s.logs, a, s.index)
  {
    s.(atoms := RolledBack(s.atoms, s.logs, a, s.index), index := a,
       rows := RolledBack(s.rows, s.logs, a, s.index),
       crystals := Without(s.crystals, a, s.index), logs := Without(s.logs, a, s.index))
  }

  /** Main result: rolling back to any block whose successors' logs are kept restores its atoms exactly. */
  lemma {:induction false} RollbackExact(s: State, m: Atoms, a: nat, tip: nat)
    requires Valid(s) && a <= tip <= s.index && LogsFrom(s.logs, a, s.index)
    requires tip in s.past && m == s.past[tip]
    ensures a in s.past && RolledBack(m, s.logs, a, tip) == s.past[a]
    decreases tip
  {
    if a < tip {
      assert Leads(s, tip);
      RollbackExact(s, s.past[tip - 1], a, tip - 1);
    }
  }

  lemma {:induction false} RewoundValid(s: State, a: nat)
    requires Valid(s) && a <= s.index && LogsFrom(s.logs, a, s.index)
    ensures a in s.past && Rewound(s, a).atoms == s.past[a] && Rewound(s, a).rows == s.past[a]
    ensures Valid(Rewound(s, a))
  {
    RollbackExact(s, s.atoms, a, s.index);
    var s' := Rewound(s, a);
    forall h | h in s'.logs && h <= s'.index ensures Leads(s', h) { assert Leads(s, h); }
  }

  /** Any number of consecutive blocks. */
  function AllFinalized(s: State, blocks: seq<Crystal>, envs: seq<Env>, n: nat): (State, Option<BlockError>)
    requires n <= |blocks| == |envs|
  {
    if n == 0 then (s, None)
    else
      var (before, e) := AllFinalized(s, blocks, envs, n - 1);
      if e.Some? then (before, e)
      else if !envs[n - 1].powOk then (before, Some(BadPow))
      else Finalized(before, blocks[n - 1], envs[n - 1])
  }

  predicate Contiguous(blocks: seq<Crystal>, a: nat) {
    forall i | 0 <= i < |blocks| :: blocks[i].index == a + 1 + i
  }

  lemma {:induction false} RunValid(s: State, blocks: seq<Crystal>, envs: seq<Env>, n: nat)
    requires n <= |blocks| == |envs| && Valid(s) && Contiguous(blocks, s.index)
    requires AllFinalized(s, blocks, envs, n).1.None?
    ensures Valid(AllFinalized(s, blocks, envs, n).0)
    ensures AllFinalized(s, blocks, envs, n).0.index == s.index + n
  {
    if n > 0 {
      LastBlock(s, blocks, envs, n);
      RunValid(s, blocks, envs, n - 1);
      FinalizedValid(AllFinalized(s, blocks, envs, n - 1).0, blocks[n - 1], envs[n - 1]);
    }
  }

  lemma {:induction false} LastBlock(s: State, blocks: seq<Crystal>, envs: seq<Env>, n: nat)
    requires 0 < n <= |blocks| == |envs| && AllFinalized(s, blocks, envs, n).1.None?
    ensures AllFinalized(s, blocks, envs, n - 1).1.None?
    ensures AllFinalized(s, blocks, envs, n) == Finalized(AllFinalized(s, blocks, envs, n - 1).0, blocks[n - 1], envs[n - 1])
  {
  }

  /** Every block of a run passed the proof-of-work check, and computed the root it claimed, if it claimed one. */
  lemma {:induction false} RunChecked(s: State, blocks: seq<Crystal>, envs: seq<Env>, n: nat, i: nat)
    requires i < n <= |blocks| == |envs| && AllFinalized(s, blocks, envs, n).1.None?
    ensures envs[i].powOk && envs[i].root.Some?
    ensures blocks[i].stateRoot == Zero() || envs[i].root == Some(blocks[i].stateRoot)
  {
    LastBlock(s, blocks, envs, n);
    if i < n - 1 {
      RunChecked(s, blocks, envs, n - 1, i);
    } else {
      FinalizedExactly(AllFinalized(s, blocks, envs, n - 1).0, blocks[i], envs[i]);
    }
  }

  /** Two runs of the same blocks, from whatever states, agree on the root of every block that claims one. */
  lemma {:induction false} RunsAgree(s: State, s': State, blocks: seq<Crystal>, envs: seq<Env>, envs': seq<Env>, i: nat)
    requires i < |blocks| == |envs| == |envs'| && blocks[i].stateRoot != Zero()
    requires AllFinalized(s, blocks, envs, |blocks|).1.None? && AllFinalized(s', blocks, envs', |blocks|).1.None?
    ensures envs[i].root == envs'[i].root
  {
    RunChecked(s, blocks, envs, |blocks|, i);
    RunChecked(s', blocks, envs', |blocks|, i);
  }

  /** A run leaves each of its blocks saved with the root computed for it, the last one as the latest. */
  lemma {:induction false} RunSaved(s: State, blocks: seq<Crystal>, envs: seq<Env>, a: nat, n: nat, i: nat)
    requires i < n <= |blocks| == |envs| && Contiguous(blocks, a) && AllFinalized(s, blocks, envs, n).1.None?
    ensures envs[i].root.Some? && blocks[i].index in AllFinalized(s, blocks, envs, n).0.crystals
    ensures AllFinalized(s, blocks, envs, n).0.crystals[blocks[i].index] == Sealed(blocks[i], envs[i])
    ensures AllFinalized(s, blocks, envs, n).0.latest == Some(blocks[n - 1].index)
  {
    LastBlock(s, blocks, envs, n);
    SavedSealed(AllFinalized(s, blocks, envs, n - 1).0, blocks[n - 1], envs[n - 1]);
    if i < n - 1 { RunSaved(s, blocks, envs, a, n - 1, i); }
  }

  lemma {:induction false} FinalizedKeepsPast(s: State, crystal: Crystal, env: Env, h: nat)
    requires Finalized(s, crystal, env).1.None? && h != crystal.index && h in s.past
    ensures h in Finalized(s, crystal, env).0.past && Finalized(s, crystal, env).0.past[h] == s.past[h]
  {
  }

  /** What was right after an earlier block does not change when blocks are added. */
  lemma {:induction false} RunKeepsPast(s: State, blocks: seq<Crystal>, envs: seq<Env>, n: nat, h: nat)
    requires n <= |blocks| == |envs| && Contiguous(blocks, s.index) && AllFinalized(s, blocks, envs, n).1.None?
    requires h <= s.index && h in s.past
    ensures h in AllFinalized(s, blocks, envs, n).0.past && AllFinalized(s, blocks, envs, n).0.past[h] == s.past[h]
  {
    if n > 0 {
      LastBlock(s, blocks, envs, n);
      RunKeepsPast(s, blocks, envs, n - 1, h);
      FinalizedKeepsPast(AllFinalized(s, blocks, envs, n - 1).0, blocks[n - 1], envs[n - 1], h);
    }
  }

  /**
   The rollback of any run of finalized blocks is its exact inverse: memory and rows are back at what
   they were, for accounts created or touched any number of times in between.
   */
  lemma {:induction false} RollbackInvertsRun(s: State, blocks: seq<Crystal>, envs: seq<Env>)
    requires |blocks| == |envs| && Valid(s) && Contiguous(blocks, s.index)
    requires AllFinalized(s, blocks, envs, |blocks|).1.None?
    requires LogsFrom(AllFinalized(s, blocks, envs, |blocks|).0.logs, s.index, s.index + |blocks|)
    ensures AllFinalized(s, blocks, envs, |blocks|).0.index == s.index + |blocks|
    ensures Rewound(AllFinalized(s, blocks, envs, |blocks|).0, s.index).atoms == s.atoms
    ensures Rewound(AllFinalized(s, blocks, envs, |blocks|).0, s.index).rows == s.rows
  {
    RunValid(s, blocks, envs, |blocks|);
    RunKeepsPast(s, blocks, envs, |blocks|, s.index);
    RewoundValid(AllFinalized(s, blocks, envs, |blocks|).0, s.index);
  }

  // ---------------------------------------------------------------- reorg

  function Sat1(n: nat): nat { if n == 0 then 0 else n - 1 }

  function ByIndex(chain: seq<Crystal>): seq<Crystal> {
    SortBy((c: Crystal) => c.index, chain)
  }

  /** The ancestor the engine settles on for a fork whose lowest block is `base`. */
  function AncestorOf(density: Crystal -> Hash32, s: State, base: Crystal): nat {
    FindAncestor(density, s.crystals, base.prevHash, Sat1(base.index))
  }

  function DepthOf(tip: nat, base: Crystal): nat {
    if tip < Sat1(base.index) then 0 else tip - Sat1(base.index)
  }

  function Reorged(density: Crystal -> Hash32, s: State, chain: seq<Crystal>, envs: seq<Env>): (State, ReorgOutcome)
    requires |chain| == |envs|
  {
    if chain == [] then (s, EmptyChain)
    else
      var blocks := ByIndex(chain);
      var a := AncestorOf(density, s, blocks[0]);
      if DepthOf(s.index, blocks[0]) > FINALITY_DEPTH then (s, TooDeep)
      else if !LogsFrom(s.logs, a, s.index) then (s, LogMissing)
      else
        var (s', e) := AllFinalized(Rewound(s, a), blocks, envs, |blocks|);
        (s', if e.Some? then BlockFailed(e.value) else Done)
  }

  /** The fork's blocks in the order of their numbers. */
  lemma {:induction false} ByIndexSorts(chain: seq<Crystal>)
    ensures multiset(ByIndex(chain)) == multiset(chain) && |ByIndex(chain)| == |chain|
    ensures forall i, j | 0 <= i < j < |chain| :: ByIndex(chain)[i].index <= ByIndex(chain)[j].index
  {
    var key := (c: Crystal) => c.index;
    SortBySorted(key, chain);
    forall i, j | 0 <= i < j < |chain| ensures ByIndex(chain)[i].index <= ByIndex(chain)[j].index {
      assert key(ByIndex(chain)[i]) <= key(ByIndex(chain)[j]);
    }
  }

  lemma {:induction false} LowestFirst(chain: seq<Crystal>)
    requires chain != []
    ensures ByIndex(chain)[0] in chain && forall c | c in chain :: ByIndex(chain)[0].index <= c.index
  {
    ByIndexSorts(chain);
    var blocks := ByIndex(chain);
    assert blocks[0] in multiset(chain);
    forall c | c in chain ensures blocks[0].index <= c.index {
      assert c in multiset(blocks);
      var i :| 0 <= i < |blocks| && blocks[i] == c;
    }
  }

  /** A fork is refused as too deep exactly when the parent's number of one of its blocks lies more than six below the tip. */
  lemma {:induction false} TooDeepExactly(density: Crystal -> Hash32, s: State, chain: seq<Crystal>, envs: seq<Env>)
    requires |chain| == |envs|
    ensures Reorged(density, s, chain, envs).1 == TooDeep
       <==> exists c :: c in chain && s.index > Sat1(c.index) + 6
  {
    if chain != [] {
      var base := ByIndex(chain)[0];
      LowestFirst(chain);
      assert DepthOf(s.index, base) > 6 <==> s.index > Sat1(base.index) + 6;
    }
  }

  /** A completed fork passed the proof-of-work check block by block; two completed runs of it agree on the roots it claims. */
  lemma {:induction false} CompletedFork(density: Crystal -> Hash32, s: State, s': State, chain: seq<Crystal>, envs: seq<Env>, envs': seq<Env>, i: nat)
    requires i < |chain| == |envs| == |envs'|
    requires Reorged(density, s, chain, envs).1 == Done && Reorged(density, s', chain, envs').1 == Done
    ensures envs[i].powOk && envs[i].root.Some?
    ensures ByIndex(chain)[i].stateRoot != Zero() ==> envs[i].root == envs'[i].root == Some(ByIndex(chain)[i].stateRoot)
  {
    var blocks := ByIndex(chain);
    var t, t' := Rewound(s, AncestorOf(density, s, blocks[0])), Rewound(s', AncestorOf(density, s', blocks[0]));
    RunChecked(t, blocks, envs, |blocks|, i);
    RunChecked(t', blocks, envs', |blocks|, i);
  }

  /** A refused reorg changes nothing; a completed one on a contiguous fork leaves a consistent state on the fork's tip. */
  lemma {:induction false} ReorgValid(density: Crystal -> Hash32, s: State, chain: seq<Crystal>, envs: seq<Env>)
    requires |chain| == |envs| && Valid(s)
    ensures Reorged(density, s, chain, envs).1 in {EmptyChain, TooDeep, LogMissing} ==> Reorged(density, s, chain, envs).0 == s
    ensures var r := Reorged(density, s, chain, envs);
            r.1 == Done && AncestorOf(density, s, ByIndex(chain)[0]) <= s.index
            && Contiguous(ByIndex(chain), AncestorOf(density, s, ByIndex(chain)[0])) ==>
              && Valid(r.0) && r.0.index == AncestorOf(density, s, ByIndex(chain)[0]) + |chain|
              && AncestorOf(density, s, ByIndex(chain)[0]) in s.past && AncestorOf(density, s, ByIndex(chain)[0]) in r.0.past
              && r.0.past[AncestorOf(density, s, ByIndex(chain)[0])] == s.past[AncestorOf(density, s, ByIndex(chain)[0])]
  {
    if chain != [] {
      var blocks := ByIndex(chain);
      var a := AncestorOf(density, s, blocks[0]);
      if Reorged(density, s, chain, envs).1 == Done && a <= s.index && Contiguous(blocks, a) {
        RewoundValid(s, a);
        RunValid(Rewound(s, a), blocks, envs, |blocks|);
        RunKeepsPast(Rewound(s, a), blocks, envs, |blocks|, a);
      }
    }
  }

  /**
   The depth check looks at the fork's base only; the rollback goes down to the ancestor.  The forks
   rolled back at most FINALITY_DEPTH blocks are exactly those whose parent is saved within that
   depth below the base, or all of them while the chain is no longer than that.
   */
  lemma {:induction false} DepthCheckExact(density: Crystal -> Hash32, s: State, base: Crystal)
    ensures s.index <= AncestorOf(density, s, base) + FINALITY_DEPTH <==>
            || s.index <= FINALITY_DEPTH
            || exists h: nat :: h <= Sat1(base.index) && s.index <= h + FINALITY_DEPTH
                                && h in s.crystals && density(s.crystals[h]) == base.prevHash
  {
    var a := AncestorOf(density, s, base);
    if s.index <= a + FINALITY_DEPTH && s.index > FINALITY_DEPTH {
      assert a in s.crystals && density(s.crystals[a]) == base.prevHash;
    }
  }

  /** A fork based on the current tip's number whose parent is nine blocks down passes the check. */
  lemma {:induction false} DepthCheckMisses(density: Crystal -> Hash32, s: State, base: Crystal)
    requires s.index == 10 && base.index == 10 && 1 in s.crystals && density(s.crystals[1]) == base.prevHash
    requires forall h | 1 < h <= 9 && h in s.crystals :: density(s.crystals[h]) != base.prevHash
    ensures DepthOf(s.index, base) <= FINALITY_DEPTH && AncestorOf(density, s, base) == 1
    ensures s.index - AncestorOf(density, s, base) > FINALITY_DEPTH
  {
    assert AncestorOf(density, s, base) != 0;
  }

  class Engine {
    const density: Crystal -> Hash32
    var atoms: Atoms
    var index: nat
    var rows: Atoms
    var crystals: map<nat, Crystal>
    var latest: Option<nat>
    var undoLogs: map<nat, UndoLog>
    ghost var past: map<nat, Atoms>

    ghost function Now(): State
      reads this
    {
      State(atoms, index, rows, crystals, latest, undoLogs, past)
    }

    /** Execute, commit, check the root, log pre-images, save, apply, prune. */
    method FinalizeSolidification(crystal: Crystal, env: Env) returns (e: Option<BlockError>)
      modifies this
      ensures (Now(), e) == Finalized(old(Now()), crystal, env)
      ensures old(Valid(Now())) && e.None? && crystal.index == old(index) + 1 ==> Valid(Now())
    {
      var oldIndex := index;
      index := crystal.index;
      var r := env.execute(atoms, crystal);
      if r.Err? {
        index := oldIndex;
        return Some(PvmFailed(r.error));
      }
      var changes := r.value;
      if env.root.None? { return Some(CommitFailed); }
      var root := env.root.value;
      rows := rows + changes;
      var sealed := crystal;
      if crystal.stateRoot == Zero() {
        sealed := crystal.(stateRoot := root);
      } else if crystal.stateRoot != root {
        index := oldIndex;
        return Some(RootMismatch);
      }
      var images := RecordAll(atoms, changes.Keys);
      undoLogs := undoLogs[crystal.index := UndoLog(crystal.index, images)];
      crystals, latest := crystals[crystal.index := sealed], Some(crystal.index);
      atoms := atoms + changes;
      past := past[crystal.index := atoms];
      PruneUndoWindow(index);
      if old(Valid(Now())) && crystal.index == old(index) + 1 { FinalizedValid(old(Now()), crystal, env); }
      e := None;
    }

    method PruneUndoWindow(current: nat)
      modifies this`undoLogs
      ensures undoLogs == Kept(old(undoLogs), current)
    {
      if current <= UNDO_WINDOW { return; }
      var cutoff := current - UNDO_WINDOW;
      for idx := 0 to cutoff
        invariant undoLogs == map h | h in old(undoLogs) && h >= idx :: old(undoLogs)[h]
      {
        undoLogs := undoLogs - {idx};
      }
    }

    method FindCommonAncestor(base: Crystal) returns (a: nat)
      ensures a == AncestorOf(density, Now(), base)
    {
      a := if base.index == 0 then 0 else base.index - 1;
      while true
        invariant FindAncestor(density, crystals, base.prevHash, a) == AncestorOf(density, Now(), base)
        decreases a
      {
        if a in crystals && base.prevHash == density(crystals[a]) { return; }
        if a == 0 { return; }
        a := a - 1;
      }
    }

    /** The logs to undo, newest first; nothing is written while they are collected. */
    method CollectLogs(ancestor: nat) returns (r: Option<seq<UndoLog>>)
      ensures r.Some? <==> LogsFrom(undoLogs, ancestor, index)
      ensures r.Some? ==> |r.value| == (if index <= ancestor then 0 else index - ancestor)
      ensures r.Some? ==> forall i | 0 <= i < |r.value| :: r.value[i] == undoLogs[index - i]
    {
      var logs := [];
      var h := index;
      while h > ancestor
        invariant h <= index && (ancestor <= h || h == index) && |logs| == index - h
        invariant forall g | h < g <= index :: g in undoLogs
        invariant forall i | 0 <= i < |logs| :: logs[i] == undoLogs[index - i]
      {
        if h !in undoLogs { return None; }
        logs := logs + [undoLogs[h]];
        h := h - 1;
      }
      return Some(logs);
    }

    /** Memory first, then the rows, saved blocks and logs in one transaction. */
    method Rollback(logs: seq<UndoLog>, ancestor: nat)
      requires LogsFrom(undoLogs, ancestor, index)
      requires |logs| == (if index <= ancestor then 0 else index - ancestor)
      requires forall i | 0 <= i < |logs| :: logs[i] == undoLogs[index - i]
      modifies this
      ensures Now() == Rewound(old(Now()), ancestor)
    {
      atoms := RestoreAll(atoms, logs, undoLogs, ancestor, index);
      rows := RestoreAll(rows, logs, undoLogs, ancestor, index);
      crystals := RemoveHeights(crystals, ancestor, index);
      undoLogs := RemoveHeights(undoLogs, ancestor, index);
      index := ancestor;
    }

    method PerformReorg(newChain: seq<Crystal>, envs: seq<Env>) returns (outcome: ReorgOutcome)
      requires |newChain| == |envs|
      modifies this
      ensures (Now(), outcome) == Reorged(density, old(Now()), newChain, envs)
    {
      if newChain == [] { return EmptyChain; }
      var blocks := ByIndex(newChain);
      var depth := DepthOf(index, blocks[0]);
      if depth > FINALITY_DEPTH { return TooDeep; }
      var ancestor := FindCommonAncestor(blocks[0]);
      var logs := CollectLogs(ancestor);
      if logs.None? { return LogMissing; }
      Rollback(logs.value, ancestor);
      var e := ApplyFork(blocks, envs);
      outcome := if e.Some? then BlockFailed(e.value) else Done;
    }

    method ApplyFork(blocks: seq<Crystal>, envs: seq<Env>) returns (e: Option<BlockError>)
      requires |blocks| == |envs|
      modifies this
      ensures (Now(), e) == AllFinalized(old(Now()), blocks, envs, |blocks|)
    {
      ghost var s := Now();
      for i := 0 to |blocks|
        invariant AllFinalized(s, blocks, envs, i) == (Now(), None)
      {
        if !envs[i].powOk {
          e := Some(BadPow);
        } else {
          e := FinalizeSolidification(blocks[i], envs[i]);
        }
        if e.Some? {
          StopsAt(s, blocks, envs, i + 1, |blocks|);
          return;
        }
      }
      e := None;
    }

    /** What to do with a block from the network. */
    method ProcessNetworkCrystal(incoming: Crystal, env: Env) returns (r: NetworkOutcome)
      modifies this
      ensures var s := old(Now());
        match Verdict(density, s, incoming)
        case Extend =>
          if !env.powOk then r == Refused && Now() == s
          else Now() == Finalized(s, incoming, env).0 && r == Extended(Finalized(s, incoming, env).1)
        case Replace =>
          Now() == Reorged(density, s, [incoming], [env]).0 && r == Replaced(Reorged(density, s, [incoming], [env]).1)
        case Reject => r == Refused && Now() == s
        case Known => r == AlreadyKnown && Now() == s
    {
      if latest.None? || latest.value !in crystals {
        if !env.powOk { return Refused; }
        var e := FinalizeSolidification(incoming, env);
        return Extended(e);
      }
      var last := crystals[latest.value];
      if incoming.index == last.index + 1 {
        if incoming.prevHash == density(last) {
          if !env.powOk { return Refused; }
          var e := FinalizeSolidification(incoming, env);
          return Extended(e);
        }
        if incoming.energy > last.energy + 1.0 {
          var o := PerformReorg([incoming], [env]);
          return Replaced(o);
        }
        return Refused;
      }
      if incoming.index == last.index && incoming.energy > last.energy {
        var o := PerformReorg([incoming], [env]);
        return Replaced(o);
      }
      if incoming.index > last.index + 1 { return Refused; }
      r := AlreadyKnown;
    }
  }

  datatype NetworkOutcome = Extended(error: Option<BlockError>) | Replaced(reorg: ReorgOutcome) | Refused | AlreadyKnown

  datatype VerdictKind = Extend | Replace | Reject | Known

  function Verdict(density: Crystal -> Hash32, s: State, incoming: Crystal): VerdictKind {
    if s.latest.None? || s.latest.value !in s.crystals then Extend
    else
      var last := s.crystals[s.latest.value];
      if incoming.index == last.index + 1 && incoming.prevHash == density(last) then Extend
      else if incoming.index == last.index + 1 then (if incoming.energy > last.energy + 1.0 then Replace else Reject)
      else if incoming.index == last.index && incoming.energy > last.energy then Replace
      else if incoming.index > last.index + 1 then Reject
      else Known
  }

  /** Every block whatever is taken for an extension exactly when no block is known under the latest number. */
  lemma {:induction false} ExtendsAnything(density: Crystal -> Hash32, s: State)
    ensures (forall c :: Verdict(density, s, c) == Extend) <==> s.latest.None? || s.latest.value !in s.crystals
  {
    if s.latest.Some? && s.latest.value in s.crystals {
      var last := s.crystals[s.latest.value];
      assert Verdict(density, s, last.(index := last.index + 2)) == Reject;
    }
  }

  /**
   What becomes of a block that comes after another was finalized: its child extends the chain; one of the same
   height replaces it if heavier, and one of the next height with another parent if heavier by more than one;
   later ones leave a gap, the rest is known.
   */
  lemma {:induction false} NextVerdict(density: Crystal -> Hash32, s: State, tip: Crystal, env: Env, next: Crystal)
    requires Finalized(s, tip, env).1.None?
    ensures env.root.Some?
    ensures var v, child := Verdict(density, Finalized(s, tip, env).0, next), next.prevHash == density(Sealed(tip, env));
      && (v == Extend <==> next.index == tip.index + 1 && child)
      && (v == Replace <==>
            || (next.index == tip.index && next.energy > tip.energy)
            || (next.index == tip.index + 1 && !child && next.energy > tip.energy + 1.0))
      && (v == Reject <==>
            || next.index > tip.index + 1
            || (next.index == tip.index + 1 && !child && next.energy <= tip.energy + 1.0))
      && (v == Known <==> next.index < tip.index || (next.index == tip.index && next.energy <= tip.energy))
  {
    SavedSealed(s, tip, env);
  }

  /**
   A reorganisation that has rolled back and fails at its first block keeps `latest` as it was.  Afterwards
   every block is taken for an extension, whatever its number and parent, exactly when anything was rolled back.
   */
  lemma {:induction false} FailedReorgForgets(density: Crystal -> Hash32, s: State, chain: seq<Crystal>, envs: seq<Env>)
    requires |chain| == |envs| && Reorged(density, s, chain, envs).1.BlockFailed?
    requires s.latest == Some(s.index) && s.index in s.crystals
    requires AllFinalized(Rewound(s, AncestorOf(density, s, ByIndex(chain)[0])), ByIndex(chain), envs, 1).1.Some?
    ensures (forall c :: Verdict(density, Reorged(density, s, chain, envs).0, c) == Extend)
       <==> AncestorOf(density, s, ByIndex(chain)[0]) < s.index
  {
    var a := AncestorOf(density, s, ByIndex(chain)[0]);
    StopsAt(Rewound(s, a), ByIndex(chain), envs, 1, |chain|);
    FirstFails(Rewound(s, a), ByIndex(chain), envs);
    ExtendsAnything(density, Reorged(density, s, chain, envs).0);
  }

  lemma {:induction false} FirstFails(s: State, blocks: seq<Crystal>, envs: seq<Env>)
    requires |blocks| == |envs| > 0 && AllFinalized(s, blocks, envs, 1).1.Some?
    ensures AllFinalized(s, blocks, envs, 1).0.latest == s.latest && AllFinalized(s, blocks, envs, 1).0.crystals == s.crystals
  {
    assert AllFinalized(s, blocks, envs, 0) == (s, None);
  }

  lemma {:induction false} StopsAt(s: State, blocks: seq<Crystal>, envs: seq<Env>, i: nat, n: nat)
    requires i <= n <= |blocks| == |envs| && AllFinalized(s, blocks, envs, i).1.Some?
    ensures AllFinalized(s, blocks, envs, n) == AllFinalized(s, blocks, envs, i)
  {
    if i < n { StopsAt(s, blocks, envs, i, n - 1); }
  }

  /** Apply the pre-images of a list of logs, newest first. */
  method RestoreAll(m: Atoms, logs: seq<UndoLog>, ghost kept: map<nat, UndoLog>, ghost a: nat, ghost tip: nat)
    returns (r: Atoms)
    requires LogsFrom(kept, a, tip) && |logs| == (if tip <= a then 0 else tip - a)
    requires forall i | 0 <= i < |logs| :: logs[i] == kept[tip - i]
    ensures r == RolledBack(m, kept, a, tip)
  {
    r := m;
    for i := 0 to |logs|
      invariant RolledBack(m, kept, a, tip) == RolledBack(r, kept, a, tip - i)
    {
      r := ApplyImages(r, logs[i].images);
    }
  }

  method RemoveHeights<V>(m: map<nat, V>, a: nat, tip: nat) returns (r: map<nat, V>)
    ensures r == Without(m, a, tip)
  {
    r := m;
    var h := tip;
    while h > a
      invariant h <= tip && (a <= h || h == tip) && r == Without(m, h, tip)
    {
      r, h := r - {h}, h - 1;
    }
  }

  /** Pre-images one by one: insert the old value, or remove the account. */
  method ApplyImages(m: Atoms, images: Images) returns (r: Atoms)
    ensures r == Restore(m, images)
  {
    r := m;
    var todo := images.Keys;
    while todo != {}
      invariant todo <= images.Keys
      invariant r == Restore(m, map k | k in images && k !in todo :: images[k])
      decreases todo
    {
      var pk :| pk in todo;
      if images[pk].Some? { r := r[pk := images[pk].value]; } else { r := r - {pk}; }
      todo := todo - {pk};
    }
    assert (map k | k in images && k !in todo :: images[k]) == images;
  }

  /** `UndoLog::record`. */
  function Record(images: Images, pk: Pk, before: Option<Atom>): Images {
    if pk in images then images else images[pk := before]
  }

  function RecordSeq(images: Images, records: seq<(Pk, Option<Atom>)>): Images
    decreases |records|
  {
    if records == [] then images
    else RecordSeq(Record(images, records[0].0, records[0].1), records[1..])
  }

  /** Whatever is recorded, in whatever order and however often: the first value recorded for an account stays. */
  lemma {:induction false} FirstWriteWins(images: Images, records: seq<(Pk, Option<Atom>)>, i: nat)
    requires i < |records| && records[i].0 !in images && forall j | 0 <= j < i :: records[j].0 != records[i].0
    ensures records[i].0 in RecordSeq(images, records) && RecordSeq(images, records)[records[i].0] == records[i].1
    decreases i
  {
    var next := Record(images, records[0].0, records[0].1);
    if i == 0 {
      RecordedStays(next, records[1..], records[0].0);
    } else {
      FirstWriteWins(next, records[1..], i - 1);
    }
  }

  lemma {:induction false} RecordedStays(images: Images, records: seq<(Pk, Option<Atom>)>, pk: Pk)
    requires pk in images
    ensures pk in RecordSeq(images, records) && RecordSeq(images, records)[pk] == images[pk]
    decreases |records|
  {
    if records != [] { RecordedStays(Record(images, records[0].0, records[0].1), records[1..], pk); }
  }

  /** Record each key's value before the block. */
  method RecordAll(atoms: Atoms, keys: set<Pk>) returns (images: Images)
    ensures images == PreImages(atoms, keys)
  {
    images := map[];
    var todo := keys;
    while todo != {}
      invariant todo <= keys && images == PreImages(atoms, keys - todo)
      decreases todo
    {
      var pk :| pk in todo;
      images := Record(images, pk, At(atoms, pk));
      todo := todo - {pk};
    }
    assert keys - todo == keys;
  }
}
