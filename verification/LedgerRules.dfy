/**
 What acceptance says of a reaction and a batch besides money and nonces: who signed, how hot it got, which code
 was deployed, and which parts of an account a reaction may touch.
 */
module LedgerRules {
  import opened Basics
  import opened Hashing
  import opened Ledger
  import opened LedgerMass
  import opened LedgerNonce

  // ------------------------------------------------------------- admission

  /** The partner of an entangled account sends or receives somewhere in the batch. */
  ghost predicate PartnerActive(batch: seq<Reaction>, partner: Pk) {
    exists r :: r in batch && (r.sender.publicKey == partner || r.receiver.publicKey == partner)
  }

  /** The quantum state of the sender before the batch. */
  ghost function SenderState(ctx: Context, rx: Reaction): QuantumState {
    if rx.sender.publicKey in ctx.state then ctx.state[rx.sender.publicKey].quantum else Stable
  }

  /** How complicated a reaction counts: 100, with 500 more for an entangled sender and 250 for one in superposition. */
  ghost function Complexity(ctx: Context, rx: Reaction): nat {
    match SenderState(ctx, rx)
    case Entangled(_) => 600
    case Superposition(_) => 350
    case Stable => 100
  }

  /** The curvature, where it is positive. */
  ghost function Warmth(ctx: Context, rx: Reaction): real {
    if ctx.curvature(rx) > 0.0 then ctx.curvature(rx) else 0.0
  }

  /** Signed by the sender or the architect; cool, simple and, if entangled, accompanied enough. */
  ghost predicate Admitted(ctx: Context, rx: Reaction, batch: seq<Reaction>, heatAfter: real) {
    && (ctx.verify(rx.sender.publicKey, rx) || ctx.verify(ctx.architect, rx))
    && heatAfter <= 1000.0
    && ctx.scaled(Complexity(ctx, rx), Warmth(ctx, rx)) <= 0x20_0000_0000_0000
    && (SenderState(ctx, rx).Entangled? ==> PartnerActive(batch, SenderState(ctx, rx).partner))
  }

  /** The nonce a reaction carries is its sender's, if the sender is known. */
  ghost predicate NonceFits(ctx: Context, cs: Changeset, rx: Reaction) {
    NonceOf(ctx, cs, rx.sender.publicKey).Some? ==> NonceOf(ctx, cs, rx.sender.publicKey) == Some(rx.sender.nonce)
  }

  /** Fees are whole numbers, rounded down, as far as 64 bits go; the tax is that of the complexity at the warmth. */
  lemma {:induction false} ChargesExactly(ctx: Context, rx: Reaction)
    ensures rx.energy < 0.0 ==> Fee(rx.energy) == 0
    ensures 0.0 <= rx.energy < 0x1_0000_0000_0000_0000 as real ==> Fee(rx.energy) as real <= rx.energy < (Fee(rx.energy) + 1) as real
    ensures rx.energy >= 0xFFFF_FFFF_FFFF_FFFF as real ==> Fee(rx.energy) == 0xFFFF_FFFF_FFFF_FFFF
    ensures Tax(ctx, rx) == ctx.tax(ctx.scaled(Complexity(ctx, rx), Warmth(ctx, rx)), Warmth(ctx, rx))
  {
  }

  /** The checks of a reaction that is not a reward pass exactly when it is admitted and carries the sender's nonce. */
  lemma {:induction false} AdmitExactly(ctx: Context, cs: Changeset, rx: Reaction, batch: seq<Reaction>, heat: real)
    ensures Admit(ctx, cs, rx, batch, heat) == None
       <==> Admitted(ctx, rx, batch, heat) && NonceFits(ctx, cs, rx)
  {
    if rx.sender.publicKey in ctx.state && ctx.state[rx.sender.publicKey].quantum.Entangled? {
      assert Collapses(ctx, rx, batch) <==> !PartnerActive(batch, ctx.state[rx.sender.publicKey].quantum.partner);
    }
  }

  /** An accepted reaction had no negative energy and was admitted; a reward goes to the architect and needs nothing else. */
  lemma {:induction false} AcceptedIsAdmitted(ctx: Context, cs: Changeset, rx: Reaction, batch: seq<Reaction>, heat: real)
    requires Exec(ctx, cs, rx, batch, heat).Ok?
    ensures rx.energy >= 0.0
    ensures rx.payload.MiningReward? ==> rx.receiver.publicKey == ctx.architect && LookupAtom(ctx, cs, ctx.architect).Some?
    ensures !rx.payload.MiningReward? ==>
      Admitted(ctx, rx, batch, HeatAfter(ctx, rx, heat)) && HeatAfter(ctx, rx, heat) == heat + Warmth(ctx, rx)
  {
    if !rx.payload.MiningReward? { AdmitExactly(ctx, cs, rx, batch, heat + Curvature(ctx, rx)); }
  }

  /** What the payload itself demands: a known sender that can pay, or the architect's first reaction. */
  ghost predicate Payable(ctx: Context, cs: Changeset, rx: Reaction) {
    var known, has := NonceOf(ctx, cs, rx.sender.publicKey).Some?, Balance(ctx, cs, rx.sender.publicKey);
    match rx.payload
    case Transfer(amount) => known && amount + Fee(rx.energy) <= has
    case Generic => if known then Fee(rx.energy) + Tax(ctx, rx) <= has else rx.sender.publicKey == ctx.architect
    case Contract(code) => known && 100 * |code| <= has && |code| <= 4 * 1024 * 1024
    case _ => false
  }

  /**
   Exactly when a reaction is accepted.  In particular the virtual machine by itself, which is what a block is
   executed with, accepts no contract call.
   */
  lemma {:induction false} AcceptedExactly(ctx: Context, cs: Changeset, rx: Reaction, batch: seq<Reaction>, heat: real)
    ensures Exec(ctx, cs, rx, batch, heat).Ok? <==>
      && rx.energy >= 0.0
      && if rx.payload.MiningReward? then rx.receiver.publicKey == ctx.architect && NonceOf(ctx, cs, ctx.architect).Some?
         else Admitted(ctx, rx, batch, heat + Warmth(ctx, rx)) && NonceFits(ctx, cs, rx) && Payable(ctx, cs, rx)
  {
    AdmitExactly(ctx, cs, rx, batch, heat + Curvature(ctx, rx));
    match rx.payload
    case Transfer(amount) => TransferPayable(ctx, cs, rx);
    case Generic => GenericPayable(ctx, cs, rx);
    case _ =>
  }

  lemma {:induction false} TransferPayable(ctx: Context, cs: Changeset, rx: Reaction)
    requires rx.payload.Transfer?
    ensures ExecTransfer(ctx, cs, rx).Ok? <==> Payable(ctx, cs, rx)
  {
  }

  lemma {:induction false} GenericPayable(ctx: Context, cs: Changeset, rx: Reaction)
    requires rx.payload.Generic?
    ensures ExecGeneric(ctx, cs, rx).Ok? <==> Payable(ctx, cs, rx)
  {
  }

  /** Heat of the first `n` reactions: no reward adds any, and none takes any away. */
  ghost function Heat(ctx: Context, batch: seq<Reaction>, n: nat): real
    requires n <= |batch|
  {
    if n == 0 then 0.0
    else Heat(ctx, batch, n - 1) + if batch[n - 1].payload.MiningReward? then 0.0 else Warmth(ctx, batch[n - 1])
  }

  lemma {:induction false} HeatNext(ctx: Context, batch: seq<Reaction>, n: nat, next: nat)
    requires next == n + 1 <= |batch|
    ensures Heat(ctx, batch, next) == HeatAfter(ctx, batch[n], Heat(ctx, batch, n)) >= Heat(ctx, batch, n)
  {
  }

  lemma {:induction false} HeatOfRun(ctx: Context, batch: seq<Reaction>, n: nat, s: BatchState)
    requires n <= |batch| && Run(ctx, batch, n) == Ok(s)
    ensures s.heat == Heat(ctx, batch, n) && 0.0 <= s.heat <= 1000.0
  {
    if n > 0 {
      var p: nat := n - 1;
      var before := BackOne(ctx, batch, p, n, s);
      HeatOfRun(ctx, batch, p, before);
      HeatNext(ctx, batch, p, n);
      AcceptedIsAdmitted(ctx, before.cs, batch[p], batch, before.heat);
    }
  }

  lemma {:induction false} BackOne(ctx: Context, batch: seq<Reaction>, n: nat, next: nat, s: BatchState) returns (before: BatchState)
    requires next == n + 1 <= |batch| && Run(ctx, batch, next) == Ok(s)
    ensures Run(ctx, batch, n) == Ok(before) && Exec(ctx, before.cs, batch[n], batch, before.heat) == Ok(s.cs)
    ensures s.heat == HeatAfter(ctx, batch[n], before.heat)
  {
    RunBack(ctx, batch, next);
    before := Run(ctx, batch, n).value;
  }

  /** Every reaction of an accepted batch that is not a reward was admitted, at the heat it came to. */
  lemma {:induction false} BatchAdmitted(ctx: Context, batch: seq<Reaction>, i: nat, s: BatchState)
    requires Run(ctx, batch, |batch|) == Ok(s) && i < |batch|
    ensures batch[i].energy >= 0.0
    ensures if batch[i].payload.MiningReward? then batch[i].receiver.publicKey == ctx.architect
            else Admitted(ctx, batch[i], batch, Heat(ctx, batch, i + 1))
  {
    RunPrefix(ctx, batch, i + 1, |batch|);
    var before := BackOne(ctx, batch, i, i + 1, Run(ctx, batch, i + 1).value);
    HeatOfRun(ctx, batch, i, before);
    HeatNext(ctx, batch, i, i + 1);
    AcceptedIsAdmitted(ctx, before.cs, batch[i], batch, before.heat);
  }

  // ------------------------------------------------------------------ code

  /** Reaction `i` deploys code under `h`. */
  predicate Deploys(ctx: Context, batch: seq<Reaction>, i: int, h: Hash32) {
    0 <= i < |batch| && batch[i].payload.Contract? && ctx.codeHash(batch[i].payload.code) == h
  }

  lemma {:induction false} ExecCode(ctx: Context, cs: Changeset, rx: Reaction, batch: seq<Reaction>, heat: real, cs': Changeset)
    requires Exec(ctx, cs, rx, batch, heat) == Ok(cs')
    ensures cs'.contracts == if rx.payload.Contract? then cs.contracts[ctx.codeHash(rx.payload.code) := rx.payload.code] else cs.contracts
    ensures rx.payload.Contract? ==> |rx.payload.code| <= 4 * 1024 * 1024
  {
  }

  /** The last of the first `n` reactions that deploys code under `h`, or -1. */
  function LastDeployed(ctx: Context, batch: seq<Reaction>, n: nat, h: Hash32): (i: int)
    requires n <= |batch|
    ensures -1 <= i < n && (i >= 0 ==> Deploys(ctx, batch, i, h))
    ensures forall j | i < j < n :: !Deploys(ctx, batch, j, h)
  {
    if n == 0 then -1 else if Deploys(ctx, batch, n - 1, h) then n - 1 else LastDeployed(ctx, batch, n - 1, h)
  }

  /** What a batch leaves under a hash is the code deployed there last, and nothing if none was. */
  lemma {:induction false} CodeDeployed(ctx: Context, batch: seq<Reaction>, n: nat, s: BatchState, h: Hash32)
    requires n <= |batch| && Run(ctx, batch, n) == Ok(s)
    ensures var i := LastDeployed(ctx, batch, n, h);
      if i == -1 then h !in s.cs.contracts else h in s.cs.contracts && s.cs.contracts[h] == batch[i].payload.code
  {
    if n > 0 {
      var p: nat := n - 1;
      var before := BackOne(ctx, batch, p, n, s);
      CodeDeployed(ctx, batch, p, before, h);
      ExecCode(ctx, before.cs, batch[p], batch, before.heat, s.cs);
    }
  }

  // --------------------------------------------------- what stays as it is

  function Rank(e: Element): nat {
    match e
    case Hydrogen => 0
    case Oxygen => 1
    case Carbon => 2
    case Gold => 3
  }

  /** An account goes up one element exactly when it has the mass for it, and never comes down. */
  lemma {:induction false} EvolvesExactly(a: Atom)
    ensures Rank(Evolve(a).element) == Rank(a.element) + 1 <==>
      match a.element case Hydrogen => a.mass >= 4000 case Oxygen => a.mass >= 6000 case Carbon => a.mass >= 50000 case Gold => false
    ensures Rank(a.element) <= Rank(Evolve(a).element) <= Rank(a.element) + 1
    ensures Evolve(a).element == a.element ==> Evolve(a) == a
    ensures Evolve(a).element != a.element ==>
      Evolve(a).charge == match Evolve(a).element case Oxygen => 3.44 case Carbon => 2.55 case _ => 2.54
  {
  }

  /** Neutrons, last activity and quantum state are as before, and the element is none lower. */
  predicate SameLife(a: Atom, b: Atom) {
    && b.publicKey == a.publicKey && b.neutronCount == a.neutronCount && b.lastActiveIndex == a.lastActiveIndex
    && b.quantum == a.quantum && Rank(a.element) <= Rank(b.element)
  }

  /** From `cs` to `cs'` a known account lives on; its last reaction becomes `mark`, if there is one. */
  ghost predicate LivesOn(ctx: Context, cs: Changeset, cs': Changeset, k: Pk, mark: Option<Hash32>) {
    var a, b := LookupAtom(ctx, cs, k), LookupAtom(ctx, cs', k);
    a.Some? ==>
      && b.Some? && SameLife(a.value, b.value)
      && b.value.lastReactionHash == if mark.Some? then mark.value else a.value.lastReactionHash
  }

  lemma {:induction false} PutLives(ctx: Context, cs: Changeset, a: Atom, k: Pk, mark: Option<Hash32>)
    requires var found := LookupAtom(ctx, cs, a.publicKey);
      found.Some? ==>
        && SameLife(found.value, a)
        && a.lastReactionHash == if mark.Some? then mark.value else found.value.lastReactionHash
    ensures LivesOn(ctx, cs, Put(cs, a), k, if k == a.publicKey then mark else None)
  {
    PutFinds(ctx, cs, a, k);
  }

  lemma {:induction false} LivesTwice(ctx: Context, cs: Changeset, cs': Changeset, cs'': Changeset, k: Pk, mark: Option<Hash32>)
    requires LivesOn(ctx, cs, cs', k, mark) && LivesOn(ctx, cs', cs'', k, None)
    ensures LivesOn(ctx, cs, cs'', k, mark)
  {
  }

  /** The mark a reaction leaves on `k`. */
  ghost function MarkOn(ctx: Context, rx: Reaction, k: Pk): Option<Hash32> {
    if k == (if rx.payload.MiningReward? then ctx.architect else rx.sender.publicKey) then Some(rx.hash) else None
  }

  lemma {:induction false} TransferLives(ctx: Context, cs: Changeset, rx: Reaction, cs': Changeset, k: Pk)
    requires LedgerOk(ctx, cs) && rx.payload.Transfer? && ExecTransfer(ctx, cs, rx) == Ok(cs')
    ensures LivesOn(ctx, cs, cs', k, MarkOn(ctx, rx, k))
  {
    var cs1 := ExecTransferSender(ctx, cs, rx).value;
    var charged := Charge(LookupAtom(ctx, cs, rx.sender.publicKey).value, rx.payload.amount + Fee(rx.energy), rx);
    FoundOwnKey(ctx, cs, rx.sender.publicKey);
    EvolvesExactly(ApplyDecay(ctx, charged));
    PutLives(ctx, cs, Evolve(ApplyDecay(ctx, charged)), k, Some(rx.hash));
    TransferSenderNonces(ctx, cs, rx);
    TransferReceiverLives(ctx, cs1, rx, k);
    LivesTwice(ctx, cs, cs1, cs', k, MarkOn(ctx, rx, k));
  }

  lemma {:induction false} TransferReceiverLives(ctx: Context, cs: Changeset, rx: Reaction, k: Pk)
    requires LedgerOk(ctx, cs) && rx.payload.Transfer?
    ensures LivesOn(ctx, cs, Put(cs, Evolve(Credit(ApplyDecay(ctx, TransferReceiver(ctx, cs, rx)), rx.payload.amount))), k, None)
  {
    var credited := Credit(ApplyDecay(ctx, TransferReceiver(ctx, cs, rx)), rx.payload.amount);
    FoundOwnKey(ctx, cs, rx.receiver.publicKey);
    EvolvesExactly(credited);
    PutLives(ctx, cs, Evolve(credited), k, None);
  }

  lemma {:induction false} GenericLives(ctx: Context, cs: Changeset, rx: Reaction, cs': Changeset, k: Pk)
    requires LedgerOk(ctx, cs) && rx.payload.Generic? && ExecGeneric(ctx, cs, rx) == Ok(cs')
    ensures LivesOn(ctx, cs, cs', k, MarkOn(ctx, rx, k))
  {
    var cs1 := ExecGenericSender(ctx, cs, rx).value;
    var cs2 := GenericReceived(ctx, cs1, rx);
    SenderKnown(ctx, cs, rx);
    FoundOwnKey(ctx, cs, rx.sender.publicKey);
    PutLives(ctx, cs, Charge(LookupAtom(ctx, cs, rx.sender.publicKey).value, Fee(rx.energy) + Tax(ctx, rx), rx), k, Some(rx.hash));
    GenericSenderNonces(ctx, cs, rx);
    GenericReceiverLives(ctx, cs1, rx, k);
    LivesTwice(ctx, cs, cs1, cs2, k, MarkOn(ctx, rx, k));
    GenericReceiverNonces(ctx, cs1, rx);
    TaxLives(ctx, cs2, rx, k);
    LivesTwice(ctx, cs, cs2, cs', k, MarkOn(ctx, rx, k));
  }

  lemma {:induction false} GenericReceiverLives(ctx: Context, cs: Changeset, rx: Reaction, k: Pk)
    requires LedgerOk(ctx, cs)
    ensures LivesOn(ctx, cs, GenericReceived(ctx, cs, rx), k, None)
  {
    var found := LookupAtom(ctx, cs, rx.receiver.publicKey);
    FoundOwnKey(ctx, cs, rx.receiver.publicKey);
    PutLives(ctx, cs, Credit(if found.Some? then found.value else rx.receiver, Fee(rx.energy)), k, None);
  }

  lemma {:induction false} TaxLives(ctx: Context, cs: Changeset, rx: Reaction, k: Pk)
    requires LedgerOk(ctx, cs)
    ensures LookupAtom(ctx, cs, ctx.architect).Some?
    ensures LivesOn(ctx, cs, cs, k, None)
    ensures LivesOn(ctx, cs,
      cs.(inner := cs.inner[ctx.architect := Credit(LookupAtom(ctx, cs, ctx.architect).value, Tax(ctx, rx))]), k, None)
  {
    LookupIsView(ctx, cs, ctx.architect);
    FoundOwnKey(ctx, cs, ctx.architect);
    PutLives(ctx, cs, Credit(LookupAtom(ctx, cs, ctx.architect).value, Tax(ctx, rx)), k, None);
  }

  lemma {:induction false} ContractLives(ctx: Context, cs: Changeset, rx: Reaction, cs': Changeset, k: Pk)
    requires LedgerOk(ctx, cs) && rx.payload.Contract? && ExecContract(ctx, cs, rx) == Ok(cs')
    ensures LivesOn(ctx, cs, cs', k, MarkOn(ctx, rx, k))
  {
    FoundOwnKey(ctx, cs, rx.sender.publicKey);
    PutLives(ctx, cs, Charge(LookupAtom(ctx, cs, rx.sender.publicKey).value, |rx.payload.code| * 100, rx), k, Some(rx.hash));
  }

  lemma {:induction false} RewardLives(ctx: Context, cs: Changeset, rx: Reaction, cs': Changeset, k: Pk)
    requires LedgerOk(ctx, cs) && rx.payload.MiningReward? && ExecReward(ctx, cs, rx) == Ok(cs')
    ensures LivesOn(ctx, cs, cs', k, MarkOn(ctx, rx, k))
  {
    FoundOwnKey(ctx, cs, ctx.architect);
    PutLives(ctx, cs, Credit(LookupAtom(ctx, cs, ctx.architect).value, rx.payload.reward).(lastReactionHash := rx.hash), k, Some(rx.hash));
  }

  /**
   An accepted reaction leaves neutrons, last activity and quantum state of every known account alone, lowers no
   element, and records its hash with its sender only, a reward with the architect.
   */
  lemma {:induction false} ExecLives(ctx: Context, cs: Changeset, rx: Reaction, batch: seq<Reaction>, heat: real, cs': Changeset, k: Pk)
    requires LedgerOk(ctx, cs) && Exec(ctx, cs, rx, batch, heat) == Ok(cs')
    ensures LivesOn(ctx, cs, cs', k, MarkOn(ctx, rx, k))
  {
    match rx.payload
    case Transfer(_) => TransferLives(ctx, cs, rx, cs', k);
    case Generic => GenericLives(ctx, cs, rx, cs', k);
    case Contract(_) => ContractLives(ctx, cs, rx, cs', k);
    case MiningReward(_) => RewardLives(ctx, cs, rx, cs', k);
    case _ =>
  }

  /**
   The block of an account's last activity is never written, however often the account is active: over any accepted
   batch it stays, with neutrons and quantum state.
   */
  lemma {:induction false} ActivityNeverRecorded(ctx: Context, batch: seq<Reaction>, k: Pk, n: nat, s: BatchState)
    requires n <= |batch| && Run(ctx, batch, n) == Ok(s) && OwnKeys(ctx.state) && ctx.architect in ctx.state && k in ctx.state
    ensures LedgerOk(ctx, s.cs) && LookupAtom(ctx, s.cs, k).Some? && SameLife(ctx.state[k], LookupAtom(ctx, s.cs, k).value)
  {
    if n == 0 {
      assert View(ctx, s.cs) == ctx.state;
    } else {
      var p: nat := n - 1;
      var before := BackOne(ctx, batch, p, n, s);
      ActivityNeverRecorded(ctx, batch, k, p, before);
      ExecLives(ctx, before.cs, batch[p], batch, before.heat, s.cs, k);
      ExecNonces(ctx, before.cs, batch[p], batch, before.heat);
    }
  }
}
