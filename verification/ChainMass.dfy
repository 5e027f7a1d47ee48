/** Mass along the chain: what the ledger proves of one batch, for a finalized block and for a rollback. */
module ChainMass {
  import opened Basics
  import opened Ledger
  import opened LedgerMass
  import opened LedgerBalance
  import opened Chain

  function ClampU64(n: nat): u64 {
    if n <= U64_MAX then n else U64_MAX
  }

  /** The context of a block: the current atoms and the block's index, under given rules. */
  function ContextOf(physics: Context, atoms: Atoms, crystal: Crystal): Context {
    physics.(state := atoms, index := ClampU64(crystal.index))
  }

  /** The virtual machine of the ledger as the chain uses it. */
  function PvmOn(physics: Context): (Atoms, Crystal) -> Result<Atoms, PvmError> {
    (atoms: Atoms, crystal: Crystal) =>
      match Run(ContextOf(physics, atoms, crystal), crystal.reactions, |crystal.reactions|)
      case Ok(b) => Ok(b.cs.inner)
      case Err(error) => Err(error)
  }

  ghost function BlockMinted(physics: Context, atoms: Atoms, crystal: Crystal): nat {
    MintedUpTo(ContextOf(physics, atoms, crystal), crystal.reactions, |crystal.reactions|)
  }

  ghost function BlockBurned(physics: Context, atoms: Atoms, crystal: Crystal): nat {
    BurnedUpTo(ContextOf(physics, atoms, crystal), crystal.reactions, |crystal.reactions|)
  }

  /** Atoms under their own keys, the architect among them. */
  ghost predicate Founded(physics: Context, atoms: Atoms) {
    OwnKeys(atoms) && physics.architect in atoms
  }

  /** A finalized block changes the mass in memory by what its reactions mint and burn. */
  lemma {:induction false} BlockMass(physics: Context, s: State, crystal: Crystal, env: Env)
    requires env.execute == PvmOn(physics) && Finalized(s, crystal, env).1.None? && Founded(physics, s.atoms)
    requires Total(s.atoms) + BlockMinted(physics, s.atoms, crystal) <= U64_MAX
    ensures Founded(physics, Finalized(s, crystal, env).0.atoms)
    ensures Total(Finalized(s, crystal, env).0.atoms) + BlockBurned(physics, s.atoms, crystal)
         == Total(s.atoms) + BlockMinted(physics, s.atoms, crystal)
  {
    var ctx := ContextOf(physics, s.atoms, crystal);
    BatchMass(ctx, crystal.reactions, |crystal.reactions|);
    assert Finalized(s, crystal, env).0.atoms == View(ctx, Run(ctx, crystal.reactions, |crystal.reactions|).value.cs);
  }

  /** And the atom of each account in memory holds what the account had, less what it paid, and what it gained. */
  lemma {:induction false} BlockBalances(physics: Context, s: State, crystal: Crystal, env: Env, k: Pk)
    requires env.execute == PvmOn(physics) && Finalized(s, crystal, env).1.None? && Founded(physics, s.atoms)
    requires Total(s.atoms) + BlockMinted(physics, s.atoms, crystal) <= U64_MAX
    ensures var ctx, n := ContextOf(physics, s.atoms, crystal), |crystal.reactions|;
      MassAt(Finalized(s, crystal, env).0.atoms, k) + PaidByFirst(ctx, crystal.reactions, k, n)
      == MassAt(s.atoms, k) + GainedByFirst(ctx, crystal.reactions, k, n)
  {
    var ctx := ContextOf(physics, s.atoms, crystal);
    var b := Run(ctx, crystal.reactions, |crystal.reactions|).value;
    BatchBalances(ctx, crystal.reactions, k, |crystal.reactions|, b);
    assert Finalized(s, crystal, env).0.atoms == View(ctx, b.cs);
    LookupIsView(ctx, b.cs, k);
  }

  /** Rolled back, the total mass is what it was before the run, whatever the blocks minted and burned. */
  lemma {:induction false} RollbackMass(s: State, blocks: seq<Crystal>, envs: seq<Env>)
    requires |blocks| == |envs| && Valid(s) && Contiguous(blocks, s.index)
    requires AllFinalized(s, blocks, envs, |blocks|).1.None?
    requires LogsFrom(AllFinalized(s, blocks, envs, |blocks|).0.logs, s.index, s.index + |blocks|)
    ensures AllFinalized(s, blocks, envs, |blocks|).0.index == s.index + |blocks|
    ensures Total(Rewound(AllFinalized(s, blocks, envs, |blocks|).0, s.index).atoms) == Total(s.atoms)
  {
    RollbackInvertsRun(s, blocks, envs);
  }
}
