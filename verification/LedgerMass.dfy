/**
 Mass accounting: what an accepted batch does to the total mass, however
 sender, receiver and architect coincide.
 */
module LedgerMass {
  import opened Basics
  import opened Hashing
  import opened Ledger

  ghost function Total(m: Atoms): nat {
    if m == map[] then 0
    else
      var k :| k in m;
      m[k].mass + Total(m - {k})
  }

  lemma {:induction false} TotalSplit(m: Atoms, k: Pk)
    requires k in m
    ensures Total(m) == m[k].mass + Total(m - {k})
    decreases |m|
  {
    var j :| j in m && Total(m) == m[j].mass + Total(m - {j});
    if j != k {
      TotalSplit(m - {j}, k);
      TotalSplit(m - {k}, j);
      assert m - {j} - {k} == m - {k} - {j};
    }
  }

  ghost function MassAt(m: Atoms, k: Pk): nat {
    if k in m then m[k].mass else 0
  }

  lemma {:induction false} TotalPut(m: Atoms, k: Pk, a: Atom)
    ensures Total(m[k := a]) == Total(m) - MassAt(m, k) + a.mass
    ensures MassAt(m, k) <= Total(m)
  {
    var m' := m[k := a];
    TotalSplit(m', k);
    if k in m {
      TotalSplit(m, k);
      assert m' - {k} == m - {k};
    } else {
      assert m' - {k} == m;
    }
  }

  /** What `LookupAtom` sees: the changeset laid over the chain state. */
  ghost function View(ctx: Context, cs: Changeset): Atoms {
    ctx.state + cs.inner
  }

  /** What an account has at this point of a batch; nothing, if it is not known. */
  ghost function Balance(ctx: Context, cs: Changeset, pk: Pk): nat {
    var a := LookupAtom(ctx, cs, pk);
    if a.Some? then a.value.mass else 0
  }

  /** Every atom is kept under its own public key. */
  ghost predicate OwnKeys(m: Atoms) {
    forall k :: k in m ==> m[k].publicKey == k
  }

  lemma {:induction false} ViewPut(ctx: Context, cs: Changeset, k: Pk, a: Atom)
    ensures View(ctx, cs.(inner := cs.inner[k := a])) == View(ctx, cs)[k := a]
  {
  }

  /** Mass the decay rule takes from `a`. */
  ghost function DecayLoss(ctx: Context, a: Atom): nat {
    a.mass - ApplyDecay(ctx, a).mass
  }

  /** Mass a reaction brings in: the reward, or the snapshot of a receiver Generic puts on chain. */
  ghost function Minted(ctx: Context, cs: Changeset, rx: Reaction): nat {
    match rx.payload
    case MiningReward(reward) => reward
    case Generic => Snapshot(ctx, cs, rx)
    case _ => 0
  }

  /** The mass a receiver not on chain yet claims to have. */
  ghost function Snapshot(ctx: Context, cs: Changeset, rx: Reaction): nat {
    if LookupAtom(ctx, cs, rx.receiver.publicKey).None? then rx.receiver.mass else 0
  }

  /** The decay of the sender of a transfer, after it has paid. */
  ghost function SenderDecay(ctx: Context, cs: Changeset, rx: Reaction): nat
    requires rx.payload.Transfer? && ExecTransferSender(ctx, cs, rx).Ok?
  {
    DecayLoss(ctx, Charge(LookupAtom(ctx, cs, rx.sender.publicKey).value, rx.payload.amount + Fee(rx.energy), rx))
  }

  /** Mass it takes out: the fee and the decay of a transfer, 100 for each byte of code. */
  ghost function Burned(ctx: Context, cs: Changeset, rx: Reaction): nat {
    match rx.payload
    case Transfer(amount) =>
      var paid := ExecTransferSender(ctx, cs, rx);
      if paid.Err? then 0
      else Fee(rx.energy) + SenderDecay(ctx, cs, rx) + DecayLoss(ctx, TransferReceiver(ctx, paid.value, rx))
    case Contract(code) => 100 * |code|
    case _ => 0
  }

  /** A context and a changeset in which the architect exists and keys are right. */
  ghost predicate LedgerOk(ctx: Context, cs: Changeset) {
    OwnKeys(View(ctx, cs)) && ctx.architect in View(ctx, cs)
  }

  /** Putting an atom under its own key: what the view becomes and what happens to the total. */
  lemma {:induction false} PutAtom(ctx: Context, cs: Changeset, a: Atom)
    requires LedgerOk(ctx, cs)
    ensures View(ctx, Put(cs, a)) == View(ctx, cs)[a.publicKey := a] && LedgerOk(ctx, Put(cs, a))
    ensures Total(View(ctx, Put(cs, a))) == Total(View(ctx, cs)) - MassAt(View(ctx, cs), a.publicKey) + a.mass
    ensures MassAt(View(ctx, cs), a.publicKey) <= Total(View(ctx, cs))
  {
    ViewPut(ctx, cs, a.publicKey, a);
    TotalPut(View(ctx, cs), a.publicKey, a);
  }

  lemma {:induction false} LookupIsView(ctx: Context, cs: Changeset, pk: Pk)
    ensures LookupAtom(ctx, cs, pk) == if pk in View(ctx, cs) then Some(View(ctx, cs)[pk]) else None
  {
  }

  /** Replacing the atom found at `pk`: the total moves by the difference, and no account appears. */
  lemma {:induction false} Replace(ctx: Context, cs: Changeset, pk: Pk, a: Atom)
    requires LedgerOk(ctx, cs) && LookupAtom(ctx, cs, pk).Some?
    requires a.publicKey == LookupAtom(ctx, cs, pk).value.publicKey
    ensures a.publicKey == pk && LedgerOk(ctx, Put(cs, a))
    ensures Total(View(ctx, Put(cs, a))) + LookupAtom(ctx, cs, pk).value.mass == Total(View(ctx, cs)) + a.mass
    ensures LookupAtom(ctx, cs, pk).value.mass <= Total(View(ctx, cs))
    ensures LookupAtom(ctx, Put(cs, a), pk) == Some(a)
    ensures forall k :: k != pk ==> LookupAtom(ctx, Put(cs, a), k) == LookupAtom(ctx, cs, k)
  {
    LookupIsView(ctx, cs, pk);
    PutAtom(ctx, cs, a);
  }

  lemma {:induction false} TransferPays(ctx: Context, cs: Changeset, rx: Reaction)
    requires LedgerOk(ctx, cs) && rx.payload.Transfer? && ExecTransferSender(ctx, cs, rx).Ok?
    ensures LedgerOk(ctx, ExecTransferSender(ctx, cs, rx).value)
    ensures Total(View(ctx, ExecTransferSender(ctx, cs, rx).value)) + rx.payload.amount + Fee(rx.energy)
         + SenderDecay(ctx, cs, rx) == Total(View(ctx, cs))
  {
    var sender := LookupAtom(ctx, cs, rx.sender.publicKey).value;
    var cost := rx.payload.amount + Fee(rx.energy);
    var s := Evolve(ApplyDecay(ctx, Charge(sender, cost, rx)));
    ChargedAtom(ctx, sender, cost, rx);
    assert ExecTransferSender(ctx, cs, rx) == Ok(Put(cs, s));
    Replace(ctx, cs, rx.sender.publicKey, s);
  }

  lemma {:induction false} ChargedAtom(ctx: Context, a: Atom, cost: u64, rx: Reaction)
    requires cost <= a.mass
    ensures var s := Evolve(ApplyDecay(ctx, Charge(a, cost, rx)));
      s.publicKey == a.publicKey && s.mass + cost + DecayLoss(ctx, Charge(a, cost, rx)) == a.mass
  {
  }

  /** The receiver's side of a transfer: decay, then the amount. */
  lemma {:induction false} TransferCredits(ctx: Context, cs: Changeset, rx: Reaction)
    requires LedgerOk(ctx, cs) && rx.payload.Transfer?
    requires Total(View(ctx, cs)) + rx.payload.amount <= U64_MAX
    ensures var receiver := TransferReceiver(ctx, cs, rx);
            var cs' := Put(cs, Evolve(Credit(ApplyDecay(ctx, receiver), rx.payload.amount)));
            && LedgerOk(ctx, cs')
            && Total(View(ctx, cs')) + DecayLoss(ctx, receiver) == Total(View(ctx, cs)) + rx.payload.amount
  {
    LookupIsView(ctx, cs, rx.receiver.publicKey);
    PutAtom(ctx, cs, Evolve(Credit(ApplyDecay(ctx, TransferReceiver(ctx, cs, rx)), rx.payload.amount)));
  }

  lemma {:induction false} TransferMass(ctx: Context, cs: Changeset, rx: Reaction)
    requires LedgerOk(ctx, cs) && rx.payload.Transfer? && ExecTransfer(ctx, cs, rx).Ok?
    requires Total(View(ctx, cs)) <= U64_MAX
    ensures LedgerOk(ctx, ExecTransfer(ctx, cs, rx).value)
    ensures Total(View(ctx, ExecTransfer(ctx, cs, rx).value)) + Burned(ctx, cs, rx) == Total(View(ctx, cs))
  {
    var cs1 := ExecTransferSender(ctx, cs, rx).value;
    TransferPays(ctx, cs, rx);
    TransferCredits(ctx, cs1, rx);
    assert ExecTransfer(ctx, cs, rx).value
        == Put(cs1, Evolve(Credit(ApplyDecay(ctx, TransferReceiver(ctx, cs1, rx)), rx.payload.amount)));
  }

  /** With the architect on chain, an accepted sender is on chain too. */
  lemma {:induction false} SenderKnown(ctx: Context, cs: Changeset, rx: Reaction)
    requires LedgerOk(ctx, cs) && ExecGenericSender(ctx, cs, rx).Ok?
    ensures LookupAtom(ctx, cs, rx.sender.publicKey).Some?
  {
    LookupIsView(ctx, cs, rx.sender.publicKey);
  }

  /** Generic, the sender's side: fee and tax go, and no account appears. */
  lemma {:induction false} GenericPays(ctx: Context, cs: Changeset, rx: Reaction)
    requires LedgerOk(ctx, cs) && ExecGenericSender(ctx, cs, rx).Ok?
    ensures var cs' := ExecGenericSender(ctx, cs, rx).value;
            && LedgerOk(ctx, cs')
            && (forall k :: LookupAtom(ctx, cs', k).Some? <==> LookupAtom(ctx, cs, k).Some?)
            && Total(View(ctx, cs')) + Fee(rx.energy) + Tax(ctx, rx) == Total(View(ctx, cs))
  {
    SenderKnown(ctx, cs, rx);
    Replace(ctx, cs, rx.sender.publicKey,
            Charge(LookupAtom(ctx, cs, rx.sender.publicKey).value, Fee(rx.energy) + Tax(ctx, rx), rx));
  }

  /** Generic, the receiver's side: the fee comes in, with the whole snapshot of a new account. */
  lemma {:induction false} GenericCredits(ctx: Context, cs: Changeset, rx: Reaction)
    requires LedgerOk(ctx, cs) && Total(View(ctx, cs)) + Snapshot(ctx, cs, rx) + Fee(rx.energy) <= U64_MAX
    ensures var found := LookupAtom(ctx, cs, rx.receiver.publicKey);
            var cs' := Put(cs, Credit(if found.Some? then found.value else rx.receiver, Fee(rx.energy)));
            && LedgerOk(ctx, cs')
            && Total(View(ctx, cs')) == Total(View(ctx, cs)) + Fee(rx.energy) + Snapshot(ctx, cs, rx)
  {
    var found := LookupAtom(ctx, cs, rx.receiver.publicKey);
    LookupIsView(ctx, cs, rx.receiver.publicKey);
    PutAtom(ctx, cs, Credit(if found.Some? then found.value else rx.receiver, Fee(rx.energy)));
  }

  lemma {:induction false} GenericMass(ctx: Context, cs: Changeset, rx: Reaction)
    requires LedgerOk(ctx, cs) && rx.payload.Generic? && ExecGeneric(ctx, cs, rx).Ok?
    requires Total(View(ctx, cs)) + Minted(ctx, cs, rx) <= U64_MAX
    ensures LedgerOk(ctx, ExecGeneric(ctx, cs, rx).value)
    ensures Total(View(ctx, ExecGeneric(ctx, cs, rx).value)) == Total(View(ctx, cs)) + Minted(ctx, cs, rx)
  {
    var cs1 := ExecGenericSender(ctx, cs, rx).value;
    GenericPays(ctx, cs, rx);
    GenericCredits(ctx, cs1, rx);
    var found := LookupAtom(ctx, cs1, rx.receiver.publicKey);
    ArchitectTax(ctx, Put(cs1, Credit(if found.Some? then found.value else rx.receiver, Fee(rx.energy))), Tax(ctx, rx));
  }

  lemma {:induction false} ArchitectTax(ctx: Context, cs: Changeset, tax: u64)
    requires LedgerOk(ctx, cs) && Total(View(ctx, cs)) + tax <= U64_MAX
    ensures LookupAtom(ctx, cs, ctx.architect).Some?
    ensures var a := Credit(LookupAtom(ctx, cs, ctx.architect).value, tax);
            && a.publicKey == ctx.architect && LedgerOk(ctx, Put(cs, a))
            && Total(View(ctx, Put(cs, a))) == Total(View(ctx, cs)) + tax
  {
    LookupIsView(ctx, cs, ctx.architect);
    PutAtom(ctx, cs, Credit(LookupAtom(ctx, cs, ctx.architect).value, tax));
  }

  lemma {:induction false} ContractMass(ctx: Context, cs: Changeset, rx: Reaction)
    requires LedgerOk(ctx, cs) && rx.payload.Contract? && ExecContract(ctx, cs, rx).Ok?
    ensures LedgerOk(ctx, ExecContract(ctx, cs, rx).value)
    ensures Total(View(ctx, ExecContract(ctx, cs, rx).value)) + Burned(ctx, cs, rx) == Total(View(ctx, cs))
  {
    var s := Charge(LookupAtom(ctx, cs, rx.sender.publicKey).value, |rx.payload.code| * 100, rx);
    Replace(ctx, cs, rx.sender.publicKey, s);
    assert View(ctx, ExecContract(ctx, cs, rx).value) == View(ctx, Put(cs, s));
  }

  lemma {:induction false} RewardMass(ctx: Context, cs: Changeset, rx: Reaction)
    requires LedgerOk(ctx, cs) && rx.payload.MiningReward? && ExecReward(ctx, cs, rx).Ok?
    requires Total(View(ctx, cs)) + Minted(ctx, cs, rx) <= U64_MAX
    ensures LedgerOk(ctx, ExecReward(ctx, cs, rx).value)
    ensures Total(View(ctx, ExecReward(ctx, cs, rx).value)) == Total(View(ctx, cs)) + Minted(ctx, cs, rx)
  {
    Replace(ctx, cs, ctx.architect,
            Credit(LookupAtom(ctx, cs, ctx.architect).value, rx.payload.reward).(lastReactionHash := rx.hash));
  }

  /** One accepted reaction. */
  lemma {:induction false} ExecMass(ctx: Context, cs: Changeset, rx: Reaction, batch: seq<Reaction>, heat: real)
    requires LedgerOk(ctx, cs) && Exec(ctx, cs, rx, batch, heat).Ok?
    requires Total(View(ctx, cs)) + Minted(ctx, cs, rx) <= U64_MAX
    ensures LedgerOk(ctx, Exec(ctx, cs, rx, batch, heat).value)
    ensures Total(View(ctx, Exec(ctx, cs, rx, batch, heat).value)) + Burned(ctx, cs, rx)
         == Total(View(ctx, cs)) + Minted(ctx, cs, rx)
  {
    match rx.payload
    case Transfer(_) => TransferMass(ctx, cs, rx);
    case Generic => GenericMass(ctx, cs, rx);
    case Contract(_) => ContractMass(ctx, cs, rx);
    case MiningReward(_) => RewardMass(ctx, cs, rx);
    case _ =>
  }

  /** Mass brought in and taken out by the first `n` reactions of an accepted run. */
  ghost function MintedUpTo(ctx: Context, batch: seq<Reaction>, n: nat): nat
    requires n <= |batch|
  {
    if n == 0 || Run(ctx, batch, n - 1).Err? then 0
    else MintedUpTo(ctx, batch, n - 1) + Minted(ctx, Run(ctx, batch, n - 1).value.cs, batch[n - 1])
  }

  ghost function BurnedUpTo(ctx: Context, batch: seq<Reaction>, n: nat): nat
    requires n <= |batch|
  {
    if n == 0 || Run(ctx, batch, n - 1).Err? then 0
    else BurnedUpTo(ctx, batch, n - 1) + Burned(ctx, Run(ctx, batch, n - 1).value.cs, batch[n - 1])
  }

  /**
   Main result: over an accepted batch the total mass changes by exactly what came in and what went
   out, as long as the total at the start and what comes in fit in 64 bits together.
   */
  lemma {:induction false} BatchMass(ctx: Context, batch: seq<Reaction>, n: nat)
    requires n <= |batch| && Run(ctx, batch, n).Ok?
    requires OwnKeys(ctx.state) && ctx.architect in ctx.state
    requires Total(ctx.state) + MintedUpTo(ctx, batch, n) <= U64_MAX
    ensures LedgerOk(ctx, Run(ctx, batch, n).value.cs)
    ensures Total(View(ctx, Run(ctx, batch, n).value.cs)) + BurnedUpTo(ctx, batch, n)
         == Total(ctx.state) + MintedUpTo(ctx, batch, n)
  {
    if n == 0 {
      assert View(ctx, Run(ctx, batch, 0).value.cs) == ctx.state;
    } else {
      BatchMass(ctx, batch, n - 1);
      var before := Run(ctx, batch, n - 1).value;
      ExecMass(ctx, before.cs, batch[n - 1], batch, before.heat);
    }
  }
}
