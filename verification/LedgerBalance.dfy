/**
 Who pays and who gets: what an accepted reaction does to the balance of each account, by the roles the account
 plays in it, and over a whole batch.
 */
module LedgerBalance {
  import opened Basics
  import opened Hashing
  import opened Ledger
  import opened LedgerMass
  import opened LedgerNonce

  // ----------------------------------------------------------------- decay

  /**
   What decay takes from an account like `a` when it holds `mass`: nothing while it has been idle for at most 100
   blocks, less five for each neutron; never more than there is.
   */
  ghost function Lost(ctx: Context, a: Atom, mass: u64): u64 {
    var idle := ctx.index - a.lastActiveIndex;
    if idle <= 0 || idle <= 100 - 5 * a.neutronCount then 0
    else if ctx.decay(mass, a.neutronCount) <= mass then ctx.decay(mass, a.neutronCount)
    else mass
  }

  lemma {:induction false} DecayIsLost(ctx: Context, a: Atom)
    ensures ApplyDecay(ctx, a).mass + Lost(ctx, a, a.mass) == a.mass
  {
  }

  lemma {:induction false} SameDecay(ctx: Context, a: Atom, b: Atom, mass: u64)
    requires a.neutronCount == b.neutronCount && a.lastActiveIndex == b.lastActiveIndex
    ensures Lost(ctx, a, mass) == Lost(ctx, b, mass)
  {
  }

  // ----------------------------------------------------------------- roles

  predicate IsSender(rx: Reaction, k: Pk) { rx.sender.publicKey == k && !rx.payload.MiningReward? }

  predicate IsReceiver(rx: Reaction, k: Pk) { rx.receiver.publicKey == k && (rx.payload.Transfer? || rx.payload.Generic?) }

  /** What the sender is charged. */
  ghost function Price(ctx: Context, rx: Reaction): nat {
    match rx.payload
    case Transfer(amount) => amount + Fee(rx.energy)
    case Generic => Fee(rx.energy) + Tax(ctx, rx)
    case Contract(code) => 100 * |code|
    case _ => 0
  }

  /** Decay of the sender of a transfer, which comes after it has been charged. */
  ghost function SenderLost(ctx: Context, cs: Changeset, rx: Reaction): nat {
    var a := LookupAtom(ctx, cs, rx.sender.publicKey);
    if rx.payload.Transfer? && a.Some? && Price(ctx, rx) <= a.value.mass then Lost(ctx, a.value, a.value.mass - Price(ctx, rx))
    else 0
  }

  /** Decay of its receiver, which comes before the amount; of an account that pays itself, for the second time. */
  ghost function ReceiverLost(ctx: Context, cs: Changeset, rx: Reaction): nat {
    var a := LookupAtom(ctx, cs, rx.receiver.publicKey);
    if !rx.payload.Transfer? || a.None? then 0
    else if rx.receiver.publicKey != rx.sender.publicKey then Lost(ctx, a.value, a.value.mass)
    else if a.value.mass < Price(ctx, rx) + SenderLost(ctx, cs, rx) then 0
    else Lost(ctx, a.value, a.value.mass - Price(ctx, rx) - SenderLost(ctx, cs, rx))
  }

  /** What leaves the balance of `k`, all its roles together. */
  ghost function Paid(ctx: Context, cs: Changeset, rx: Reaction, k: Pk): nat {
    (if IsSender(rx, k) then Price(ctx, rx) + SenderLost(ctx, cs, rx) else 0)
    + if IsReceiver(rx, k) then ReceiverLost(ctx, cs, rx) else 0
  }

  /** What comes in: the amount or the fee for the receiver, with what a new one is said to have; tax or reward for the architect. */
  ghost function Gained(ctx: Context, cs: Changeset, rx: Reaction, k: Pk): nat {
    match rx.payload
    case Transfer(amount) => if k == rx.receiver.publicKey then amount else 0
    case Generic =>
      (if k == rx.receiver.publicKey then Fee(rx.energy) + Snapshot(ctx, cs, rx) else 0)
      + if k == ctx.architect then Tax(ctx, rx) else 0
    case MiningReward(reward) => if k == ctx.architect then reward else 0
    case _ => 0
  }

  /** From `cs` to `cs'` what `k` has moves by what leaves and what comes in. */
  ghost predicate Moves(ctx: Context, cs: Changeset, cs': Changeset, k: Pk, out: nat, into: nat) {
    Balance(ctx, cs', k) + out == Balance(ctx, cs, k) + into
  }

  lemma {:induction false} BalanceWithin(ctx: Context, cs: Changeset, k: Pk)
    ensures Balance(ctx, cs, k) <= Total(View(ctx, cs))
  {
    LookupIsView(ctx, cs, k);
    if k in View(ctx, cs) { TotalSplit(View(ctx, cs), k); }
  }

  lemma {:induction false} PutMoves(ctx: Context, cs: Changeset, a: Atom, k: Pk)
    ensures Balance(ctx, Put(cs, a), k) == if k == a.publicKey then a.mass else Balance(ctx, cs, k)
  {
    PutFinds(ctx, cs, a, k);
  }

  // ------------------------------------------------------------- transfers

  /** The sender as a transfer leaves it. */
  ghost function SenderAfter(ctx: Context, cs: Changeset, rx: Reaction): Atom
    requires rx.payload.Transfer? && ExecTransferSender(ctx, cs, rx).Ok?
  {
    Evolve(ApplyDecay(ctx, Charge(LookupAtom(ctx, cs, rx.sender.publicKey).value, rx.payload.amount + Fee(rx.energy), rx)))
  }

  lemma {:induction false} TransferSenderMoves(ctx: Context, cs: Changeset, rx: Reaction)
    requires LedgerOk(ctx, cs) && rx.payload.Transfer? && ExecTransferSender(ctx, cs, rx).Ok?
    ensures ExecTransferSender(ctx, cs, rx) == Ok(Put(cs, SenderAfter(ctx, cs, rx)))
    ensures SenderAfter(ctx, cs, rx).publicKey == rx.sender.publicKey
    ensures SenderAfter(ctx, cs, rx).mass + Price(ctx, rx) + SenderLost(ctx, cs, rx) == Balance(ctx, cs, rx.sender.publicKey)
    ensures var a, b := LookupAtom(ctx, cs, rx.sender.publicKey).value, SenderAfter(ctx, cs, rx);
      b.neutronCount == a.neutronCount && b.lastActiveIndex == a.lastActiveIndex
  {
    var a := LookupAtom(ctx, cs, rx.sender.publicKey).value;
    FoundOwnKey(ctx, cs, rx.sender.publicKey);
    var charged := Charge(a, rx.payload.amount + Fee(rx.energy), rx);
    DecayIsLost(ctx, charged);
    SameDecay(ctx, a, charged, charged.mass);
  }

  lemma {:induction false} TransferReceiverMoves(ctx: Context, cs: Changeset, rx: Reaction, a: Atom)
    requires LedgerOk(ctx, cs) && rx.payload.Transfer? && a == TransferReceiver(ctx, cs, rx)
    requires Total(View(ctx, cs)) + rx.payload.amount <= U64_MAX
    ensures a.publicKey == rx.receiver.publicKey && a.mass == Balance(ctx, cs, rx.receiver.publicKey)
    ensures var b := Evolve(Credit(ApplyDecay(ctx, a), rx.payload.amount));
      b.publicKey == a.publicKey && b.mass + Lost(ctx, a, a.mass) == a.mass + rx.payload.amount
  {
    FoundOwnKey(ctx, cs, rx.receiver.publicKey);
    DecayIsLost(ctx, a);
    BalanceWithin(ctx, cs, rx.receiver.publicKey);
  }

  /** The receiver's decay, seen from before the sender was charged. */
  lemma {:induction false} ReceiverDecay(ctx: Context, cs: Changeset, rx: Reaction, cs1: Changeset, a: Atom)
    requires LedgerOk(ctx, cs) && rx.payload.Transfer? && ExecTransferSender(ctx, cs, rx) == Ok(cs1)
    requires a == TransferReceiver(ctx, cs1, rx)
    ensures Lost(ctx, a, a.mass) == ReceiverLost(ctx, cs, rx)
  {
    TransferSenderMoves(ctx, cs, rx);
    var s := SenderAfter(ctx, cs, rx);
    PutFinds(ctx, cs, s, rx.receiver.publicKey);
    if rx.receiver.publicKey == rx.sender.publicKey {
      SameDecay(ctx, LookupAtom(ctx, cs, rx.sender.publicKey).value, s, s.mass);
    }
  }

  lemma {:induction false} TransferMoves(ctx: Context, cs: Changeset, rx: Reaction, cs': Changeset, k: Pk)
    requires LedgerOk(ctx, cs) && rx.payload.Transfer? && ExecTransfer(ctx, cs, rx) == Ok(cs')
    requires Total(View(ctx, cs)) <= U64_MAX
    ensures Moves(ctx, cs, cs', k, Paid(ctx, cs, rx, k), Gained(ctx, cs, rx, k))
  {
    var cs1 := ExecTransferSender(ctx, cs, rx).value;
    var s, r := SenderAfter(ctx, cs, rx), TransferReceiver(ctx, cs1, rx);
    TransferSenderMoves(ctx, cs, rx);
    TransferPays(ctx, cs, rx);
    PutMoves(ctx, cs, s, k);
    PutMoves(ctx, cs, s, rx.receiver.publicKey);
    TransferReceiverMoves(ctx, cs1, rx, r);
    ReceiverDecay(ctx, cs, rx, cs1, r);
    PutMoves(ctx, cs1, Evolve(Credit(ApplyDecay(ctx, r), rx.payload.amount)), k);
  }

  // --------------------------------------------------------------- generic

  lemma {:induction false} GenericSenderMoves(ctx: Context, cs: Changeset, rx: Reaction, cs1: Changeset, k: Pk)
    requires LedgerOk(ctx, cs) && rx.payload.Generic? && ExecGenericSender(ctx, cs, rx) == Ok(cs1)
    ensures Moves(ctx, cs, cs1, k, if IsSender(rx, k) then Price(ctx, rx) else 0, 0)
  {
    SenderKnown(ctx, cs, rx);
    FoundOwnKey(ctx, cs, rx.sender.publicKey);
    PutMoves(ctx, cs, Charge(LookupAtom(ctx, cs, rx.sender.publicKey).value, Fee(rx.energy) + Tax(ctx, rx), rx), k);
  }

  lemma {:induction false} GenericReceiverMoves(ctx: Context, cs: Changeset, rx: Reaction, k: Pk)
    requires LedgerOk(ctx, cs) && Total(View(ctx, cs)) + Snapshot(ctx, cs, rx) + Fee(rx.energy) <= U64_MAX
    ensures Moves(ctx, cs, GenericReceived(ctx, cs, rx), k, 0,
                  if k == rx.receiver.publicKey then Fee(rx.energy) + Snapshot(ctx, cs, rx) else 0)
  {
    var found := LookupAtom(ctx, cs, rx.receiver.publicKey);
    FoundOwnKey(ctx, cs, rx.receiver.publicKey);
    BalanceWithin(ctx, cs, rx.receiver.publicKey);
    PutMoves(ctx, cs, Credit(if found.Some? then found.value else rx.receiver, Fee(rx.energy)), k);
  }

  lemma {:induction false} ArchitectMoves(ctx: Context, cs: Changeset, tax: u64, k: Pk)
    requires LedgerOk(ctx, cs) && Total(View(ctx, cs)) + tax <= U64_MAX
    ensures LookupAtom(ctx, cs, ctx.architect).Some?
    ensures Moves(ctx, cs, Put(cs, Credit(LookupAtom(ctx, cs, ctx.architect).value, tax)), k, 0, if k == ctx.architect then tax else 0)
  {
    LookupIsView(ctx, cs, ctx.architect);
    FoundOwnKey(ctx, cs, ctx.architect);
    BalanceWithin(ctx, cs, ctx.architect);
    PutMoves(ctx, cs, Credit(LookupAtom(ctx, cs, ctx.architect).value, tax), k);
  }

  /** Tax of nothing is not paid out, which comes to the same. */
  lemma {:induction false} GenericEnds(ctx: Context, cs: Changeset, rx: Reaction, cs1: Changeset, cs': Changeset, k: Pk)
    requires ExecGenericSender(ctx, cs, rx) == Ok(cs1) && ExecGeneric(ctx, cs, rx) == Ok(cs')
    requires LedgerOk(ctx, GenericReceived(ctx, cs1, rx)) && Total(View(ctx, GenericReceived(ctx, cs1, rx))) + Tax(ctx, rx) <= U64_MAX
    ensures Moves(ctx, GenericReceived(ctx, cs1, rx), cs', k, 0, if k == ctx.architect then Tax(ctx, rx) else 0)
  {
    var cs2 := GenericReceived(ctx, cs1, rx);
    ArchitectMoves(ctx, cs2, Tax(ctx, rx), k);
    FoundOwnKey(ctx, cs2, ctx.architect);
  }

  /** Between its parts a Generic leaves the ledger in order, with room for the part to come. */
  lemma {:induction false} GenericRoom(ctx: Context, cs: Changeset, rx: Reaction, cs1: Changeset)
    requires LedgerOk(ctx, cs) && rx.payload.Generic? && ExecGenericSender(ctx, cs, rx) == Ok(cs1)
    requires Total(View(ctx, cs)) + Minted(ctx, cs, rx) <= U64_MAX
    ensures LedgerOk(ctx, cs1) && Snapshot(ctx, cs1, rx) == Snapshot(ctx, cs, rx)
    ensures Total(View(ctx, cs1)) + Snapshot(ctx, cs1, rx) + Fee(rx.energy) <= U64_MAX
    ensures LedgerOk(ctx, GenericReceived(ctx, cs1, rx)) && Total(View(ctx, GenericReceived(ctx, cs1, rx))) + Tax(ctx, rx) <= U64_MAX
  {
    GenericPays(ctx, cs, rx);
    GenericCredits(ctx, cs1, rx);
  }

  lemma {:induction false} GenericMoves(ctx: Context, cs: Changeset, rx: Reaction, cs': Changeset, k: Pk)
    requires LedgerOk(ctx, cs) && rx.payload.Generic? && ExecGeneric(ctx, cs, rx) == Ok(cs')
    requires Total(View(ctx, cs)) + Minted(ctx, cs, rx) <= U64_MAX
    ensures Moves(ctx, cs, cs', k, Paid(ctx, cs, rx, k), Gained(ctx, cs, rx, k))
  {
    var cs1 := ExecGenericSender(ctx, cs, rx).value;
    GenericRoom(ctx, cs, rx, cs1);
    GenericSenderMoves(ctx, cs, rx, cs1, k);
    GenericReceiverMoves(ctx, cs1, rx, k);
    GenericEnds(ctx, cs, rx, cs1, cs', k);
    GenericSum(ctx, cs, rx, cs1, GenericReceived(ctx, cs1, rx), cs', k);
  }

  /** The three parts of a Generic, one after the other. */
  lemma {:induction false} GenericSum(ctx: Context, cs: Changeset, rx: Reaction, cs1: Changeset, cs2: Changeset, cs': Changeset, k: Pk)
    requires rx.payload.Generic? && Snapshot(ctx, cs1, rx) == Snapshot(ctx, cs, rx)
    requires Moves(ctx, cs, cs1, k, if IsSender(rx, k) then Price(ctx, rx) else 0, 0)
    requires Moves(ctx, cs1, cs2, k, 0, if k == rx.receiver.publicKey then Fee(rx.energy) + Snapshot(ctx, cs1, rx) else 0)
    requires Moves(ctx, cs2, cs', k, 0, if k == ctx.architect then Tax(ctx, rx) else 0)
    ensures Moves(ctx, cs, cs', k, Paid(ctx, cs, rx, k), Gained(ctx, cs, rx, k))
  {
  }

  // --------------------------------------------------------------- genesis

  lemma {:induction false} GenesisPut(ctx: Context, cs: Changeset, a: Atom)
    requires OwnKeys(View(ctx, cs)) && LookupAtom(ctx, cs, ctx.architect).None? && a.publicKey == ctx.architect
    ensures LedgerOk(ctx, Put(cs, a)) && Total(View(ctx, Put(cs, a))) == Total(View(ctx, cs)) + a.mass
  {
    LookupIsView(ctx, cs, ctx.architect);
    ViewPut(ctx, cs, a.publicKey, a);
    TotalPut(View(ctx, cs), a.publicKey, a);
  }

  /** The architect as it comes into being. */
  ghost function Founder(rx: Reaction): Atom {
    rx.sender.(mass := GENESIS_MASS, lastReactionHash := rx.hash)
  }

  /** A Generic by an architect that is not on chain yet, with room in 64 bits for all it brings in. */
  ghost predicate Founding(ctx: Context, cs: Changeset, rx: Reaction) {
    && OwnKeys(View(ctx, cs)) && LookupAtom(ctx, cs, ctx.architect).None?
    && rx.payload.Generic? && rx.sender.publicKey == ctx.architect
    && Total(View(ctx, cs)) + 1_000_000_000 + Snapshot(ctx, cs, rx) + Fee(rx.energy) + Tax(ctx, rx) <= U64_MAX
  }

  lemma {:induction false} FoundingRoom(ctx: Context, cs: Changeset, rx: Reaction, cs1: Changeset)
    requires Founding(ctx, cs, rx) && cs1 == Put(cs, Founder(rx))
    ensures LedgerOk(ctx, cs1) && Snapshot(ctx, cs1, rx) == if rx.receiver.publicKey == ctx.architect then 0 else Snapshot(ctx, cs, rx)
    ensures Total(View(ctx, cs1)) + Snapshot(ctx, cs1, rx) + Fee(rx.energy) <= U64_MAX
    ensures LedgerOk(ctx, GenericReceived(ctx, cs1, rx)) && Total(View(ctx, GenericReceived(ctx, cs1, rx))) + Tax(ctx, rx) <= U64_MAX
  {
    GenesisPut(ctx, cs, Founder(rx));
    PutFinds(ctx, cs, Founder(rx), rx.receiver.publicKey);
    GenericCredits(ctx, cs1, rx);
  }

  /**
   The first Generic of an architect that is not on chain yet: it is not charged, but comes into being with a
   thousand million; fee and tax are paid out all the same.
   */
  lemma {:induction false} GenesisBalances(ctx: Context, cs: Changeset, rx: Reaction, cs': Changeset, k: Pk)
    requires Founding(ctx, cs, rx) && ExecGeneric(ctx, cs, rx) == Ok(cs')
    ensures Balance(ctx, cs', k) == (if k == ctx.architect then 1_000_000_000 + Tax(ctx, rx) else Balance(ctx, cs, k))
      + if k != rx.receiver.publicKey then 0
        else if k == ctx.architect then Fee(rx.energy)
        else Fee(rx.energy) + Snapshot(ctx, cs, rx)
  {
    var cs1 := Put(cs, Founder(rx));
    assert ExecGenericSender(ctx, cs, rx) == Ok(cs1);
    FoundingRoom(ctx, cs, rx, cs1);
    PutMoves(ctx, cs, Founder(rx), k);
    GenericReceiverMoves(ctx, cs1, rx, k);
    GenericEnds(ctx, cs, rx, cs1, cs', k);
  }

  /** Its nonce is the one it carries, not one more. */
  lemma {:induction false} GenesisNonce(ctx: Context, cs: Changeset, rx: Reaction, cs': Changeset)
    requires Founding(ctx, cs, rx) && ExecGeneric(ctx, cs, rx) == Ok(cs')
    ensures LedgerOk(ctx, cs') && NonceOf(ctx, cs', ctx.architect) == Some(rx.sender.nonce)
  {
    var cs1 := Put(cs, Founder(rx));
    assert ExecGenericSender(ctx, cs, rx) == Ok(cs1);
    FoundingRoom(ctx, cs, rx, cs1);
    PutFinds(ctx, cs, Founder(rx), ctx.architect);
    GenericReceiverNonces(ctx, cs1, rx);
    ArchitectNonces(ctx, GenericReceived(ctx, cs1, rx), rx);
  }

  // ------------------------------------------------- contracts and rewards

  lemma {:induction false} ContractMoves(ctx: Context, cs: Changeset, rx: Reaction, cs': Changeset, k: Pk)
    requires LedgerOk(ctx, cs) && rx.payload.Contract? && ExecContract(ctx, cs, rx) == Ok(cs')
    ensures Moves(ctx, cs, cs', k, Paid(ctx, cs, rx, k), Gained(ctx, cs, rx, k))
  {
    FoundOwnKey(ctx, cs, rx.sender.publicKey);
    PutMoves(ctx, cs, Charge(LookupAtom(ctx, cs, rx.sender.publicKey).value, |rx.payload.code| * 100, rx), k);
  }

  lemma {:induction false} RewardMoves(ctx: Context, cs: Changeset, rx: Reaction, cs': Changeset, k: Pk)
    requires LedgerOk(ctx, cs) && rx.payload.MiningReward? && ExecReward(ctx, cs, rx) == Ok(cs')
    requires Total(View(ctx, cs)) + Minted(ctx, cs, rx) <= U64_MAX
    ensures Moves(ctx, cs, cs', k, Paid(ctx, cs, rx, k), Gained(ctx, cs, rx, k))
  {
    FoundOwnKey(ctx, cs, ctx.architect);
    BalanceWithin(ctx, cs, ctx.architect);
    PutMoves(ctx, cs, Credit(LookupAtom(ctx, cs, ctx.architect).value, rx.payload.reward).(lastReactionHash := rx.hash), k);
  }

  /** What a transfer takes out of circulation is its fee and the decay of both accounts. */
  lemma {:induction false} BurnedIsLost(ctx: Context, cs: Changeset, rx: Reaction, cs': Changeset)
    requires LedgerOk(ctx, cs) && rx.payload.Transfer? && ExecTransfer(ctx, cs, rx) == Ok(cs')
    ensures Burned(ctx, cs, rx) == Fee(rx.energy) + SenderLost(ctx, cs, rx) + ReceiverLost(ctx, cs, rx)
  {
    var cs1 := ExecTransferSender(ctx, cs, rx).value;
    var r := TransferReceiver(ctx, cs1, rx);
    TransferSenderMoves(ctx, cs, rx);
    ReceiverDecay(ctx, cs, rx, cs1, r);
    DecayIsLost(ctx, r);
  }

  /**
   Main result: one accepted reaction moves the balance of every account by what the account's roles say, however
   sender, receiver and architect coincide, and leaves everybody else alone.
   */
  lemma {:induction false} ExecBalances(ctx: Context, cs: Changeset, rx: Reaction, batch: seq<Reaction>, heat: real, cs': Changeset, k: Pk)
    requires LedgerOk(ctx, cs) && Exec(ctx, cs, rx, batch, heat) == Ok(cs')
    requires Total(View(ctx, cs)) + Minted(ctx, cs, rx) <= U64_MAX
    ensures Balance(ctx, cs', k) + Paid(ctx, cs, rx, k) == Balance(ctx, cs, k) + Gained(ctx, cs, rx, k)
  {
    match rx.payload
    case Transfer(_) => TransferMoves(ctx, cs, rx, cs', k);
    case Generic => GenericMoves(ctx, cs, rx, cs', k);
    case Contract(_) => ContractMoves(ctx, cs, rx, cs', k);
    case MiningReward(_) => RewardMoves(ctx, cs, rx, cs', k);
    case _ =>
  }

  // --------------------------------------------------------------- batches

  /** What left the balance of `k`, and what came in, over the first `n` reactions. */
  ghost function PaidByFirst(ctx: Context, batch: seq<Reaction>, k: Pk, n: nat): nat
    requires n <= |batch|
  {
    if n == 0 then 0 else PaidByFirst(ctx, batch, k, n - 1) + Paid(ctx, StateAfter(ctx, batch, n - 1).cs, batch[n - 1], k)
  }

  ghost function GainedByFirst(ctx: Context, batch: seq<Reaction>, k: Pk, n: nat): nat
    requires n <= |batch|
  {
    if n == 0 then 0 else GainedByFirst(ctx, batch, k, n - 1) + Gained(ctx, StateAfter(ctx, batch, n - 1).cs, batch[n - 1], k)
  }

  lemma {:induction false} MintedGrows(ctx: Context, batch: seq<Reaction>, n: nat, next: nat, s: BatchState)
    requires next == n + 1 <= |batch| && Run(ctx, batch, n) == Ok(s)
    ensures MintedUpTo(ctx, batch, next) == MintedUpTo(ctx, batch, n) + Minted(ctx, s.cs, batch[n])
    ensures BurnedUpTo(ctx, batch, next) == BurnedUpTo(ctx, batch, n) + Burned(ctx, s.cs, batch[n])
  {
  }

  lemma {:induction false} StepBack(ctx: Context, batch: seq<Reaction>, n: nat, next: nat, s': BatchState) returns (s: BatchState)
    requires next == n + 1 <= |batch| && Run(ctx, batch, next) == Ok(s')
    ensures Run(ctx, batch, n) == Ok(s) && StateAfter(ctx, batch, n) == s && Exec(ctx, s.cs, batch[n], batch, s.heat) == Ok(s'.cs)
  {
    RunBack(ctx, batch, next);
    s := Run(ctx, batch, n).value;
  }

  /** The next reaction finds the ledger in order, with room for what it brings in. */
  lemma {:induction false} RoomForNext(ctx: Context, batch: seq<Reaction>, n: nat, next: nat, s: BatchState)
    requires next == n + 1 <= |batch| && Run(ctx, batch, n) == Ok(s) && OwnKeys(ctx.state) && ctx.architect in ctx.state
    requires Total(ctx.state) + MintedUpTo(ctx, batch, next) <= U64_MAX
    ensures Total(ctx.state) + MintedUpTo(ctx, batch, n) <= U64_MAX
    ensures LedgerOk(ctx, s.cs) && Total(View(ctx, s.cs)) + Minted(ctx, s.cs, batch[n]) <= U64_MAX
  {
    MintedGrows(ctx, batch, n, next, s);
    BatchMass(ctx, batch, n);
  }

  lemma {:induction false} BookedNext(ctx: Context, batch: seq<Reaction>, k: Pk, n: nat, next: nat, s: BatchState)
    requires next == n + 1 <= |batch| && s == StateAfter(ctx, batch, n)
    ensures PaidByFirst(ctx, batch, k, next) == PaidByFirst(ctx, batch, k, n) + Paid(ctx, s.cs, batch[n], k)
    ensures GainedByFirst(ctx, batch, k, next) == GainedByFirst(ctx, batch, k, n) + Gained(ctx, s.cs, batch[n], k)
  {
  }

  /** Over an accepted batch every account ends with what it had, less what it paid, and what it gained. */
  lemma {:induction false} BatchBalances(ctx: Context, batch: seq<Reaction>, k: Pk, n: nat, s: BatchState)
    requires n <= |batch| && Run(ctx, batch, n) == Ok(s) && OwnKeys(ctx.state) && ctx.architect in ctx.state
    requires Total(ctx.state) + MintedUpTo(ctx, batch, n) <= U64_MAX
    ensures Balance(ctx, s.cs, k) + PaidByFirst(ctx, batch, k, n) == MassAt(ctx.state, k) + GainedByFirst(ctx, batch, k, n)
  {
    if n > 0 {
      var p: nat := n - 1;
      var before := StepBack(ctx, batch, p, n, s);
      RoomForNext(ctx, batch, p, n, before);
      BatchBalances(ctx, batch, k, p, before);
      BookedNext(ctx, batch, k, p, n, before);
      ExecBalances(ctx, before.cs, batch[p], batch, before.heat, s.cs, k);
    }
  }
}
