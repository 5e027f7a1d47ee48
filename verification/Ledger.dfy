/**
 The ledger machine: what one signed reaction does to the changeset of a batch.
 The f32 physics and the signature check are parameters of the context, so all
 results hold for arbitrary curvature, tax and decay.
 */
module Ledger {
  import opened Basics
  import opened Hashing

  type Pk = Bytes

  datatype Element = Hydrogen | Carbon | Oxygen | Gold

  datatype QuantumState = Stable | Entangled(partner: Pk) | Superposition(seed: u64)

  datatype Atom = Atom(
    publicKey: Pk, element: Element, neutronCount: nat, mass: u64, charge: real,
    lastReactionHash: Hash32, lastActiveIndex: u64, nonce: u64, quantum: QuantumState)

  type Atoms = map<Pk, Atom>

  datatype Payload =
    | Generic
    | Transfer(amount: u64)
    | MiningReward(reward: u64)
    | Contract(code: Bytes)
    | ContractCall(address: Bytes, data: Bytes)
    | Unknown

  datatype Reaction = Reaction(
    sender: Atom, receiver: Atom, hash: Hash32, energy: real, signature: Bytes, payload: Payload)

  /** The write-set of one batch. */
  datatype Changeset = Changeset(inner: Atoms, contracts: map<Hash32, Bytes>)

  datatype PvmError =
    | NegativeEnergy | InvalidRewardRecipient | AtomNotFound | SignatureRejected | ThermalLimitExceeded
    | QuantumCollapse | ArithmeticOverflow | NonceMismatch | InsufficientMass | ModuleTooLarge
    | CallNotRouted | UnknownPayload | ContractNotFound | WasmBackendError | WasmTrap

  /** Chain state, the architect's key, and the parts of the rules that are floating point or cryptography. */
  datatype Context = Context(
    state: Atoms,
    architect: Pk,
    index: u64,
    verify: (Pk, Reaction) -> bool,
    curvature: Reaction -> real,
    scaled: (nat, real) -> u64,
    tax: (u64, real) -> u64,
    decay: (u64, nat) -> u64,
    codeHash: Bytes -> Hash32)

  const THERMAL_CAPACITY: real := 1000.0
  const MAX_SAFE_COMPLEXITY := 0x20_0000_0000_0000
  const MAX_MODULE_SIZE_BYTES := 4 * 1024 * 1024
  const GENESIS_MASS: u64 := 1_000_000_000

  function LookupAtom(ctx: Context, cs: Changeset, pk: Pk): Option<Atom> {
    if pk in cs.inner then Some(cs.inner[pk])
    else if pk in ctx.state then Some(ctx.state[pk])
    else None
  }

  /** `Changeset::insert` under the atom's own key, as every native payload does it. */
  function Put(cs: Changeset, a: Atom): Changeset {
    cs.(inner := cs.inner[a.publicKey := a])
  }

  /** `energy as u64`, which saturates. */
  function Fee(energy: real): u64
  {
    if energy < 0.0 then 0 else if energy.Floor > U64_MAX then U64_MAX else energy.Floor
  }

  function ApplyDecay(ctx: Context, a: Atom): (r: Atom)
    ensures r == a.(mass := r.mass) && r.mass <= a.mass
  {
    var age := SatSub(ctx.index, a.lastActiveIndex);
    var threshold := if a.neutronCount * 5 > 100 then 0 else 100 - a.neutronCount * 5;
    if age > threshold then a.(mass := SatSub(a.mass, ctx.decay(a.mass, a.neutronCount))) else a
  }

  function Evolve(a: Atom): (r: Atom)
    ensures r == a.(element := r.element, charge := r.charge)
  {
    if a.element == Hydrogen && a.mass >= 4000 then a.(element := Oxygen, charge := 3.44)
    else if a.element == Oxygen && a.mass >= 6000 then a.(element := Carbon, charge := 2.55)
    else if a.element == Carbon && a.mass >= 50000 then a.(element := Gold, charge := 2.54)
    else a
  }

  function BaseComplexity(ctx: Context, rx: Reaction): nat {
    if rx.sender.publicKey !in ctx.state then 100
    else match ctx.state[rx.sender.publicKey].quantum
      case Stable => 100
      case Entangled(_) => 600
      case Superposition(_) => 350
  }

  predicate Collapses(ctx: Context, rx: Reaction, batch: seq<Reaction>) {
    && rx.sender.publicKey in ctx.state
    && ctx.state[rx.sender.publicKey].quantum.Entangled?
    && var partner := ctx.state[rx.sender.publicKey].quantum.partner;
       forall r | r in batch :: r.sender.publicKey != partner && r.receiver.publicKey != partner
  }

  function Curvature(ctx: Context, rx: Reaction): real {
    if ctx.curvature(rx) < 0.0 then 0.0 else ctx.curvature(rx)
  }

  function Scaled(ctx: Context, rx: Reaction): u64 {
    ctx.scaled(BaseComplexity(ctx, rx), Curvature(ctx, rx))
  }

  function Tax(ctx: Context, rx: Reaction): u64 {
    ctx.tax(Scaled(ctx, rx), Curvature(ctx, rx))
  }

  /** The checks of a reaction that is not a reward, in their order; `heat` already includes this reaction. */
  function Admit(ctx: Context, cs: Changeset, rx: Reaction, batch: seq<Reaction>, heat: real): Option<PvmError> {
    var onChain := LookupAtom(ctx, cs, rx.sender.publicKey);
    if !ctx.verify(rx.sender.publicKey, rx) && !ctx.verify(ctx.architect, rx) then Some(SignatureRejected)
    else if heat > THERMAL_CAPACITY then Some(ThermalLimitExceeded)
    else if Collapses(ctx, rx, batch) then Some(QuantumCollapse)
    else if Scaled(ctx, rx) > MAX_SAFE_COMPLEXITY then Some(ArithmeticOverflow)
    else if onChain.Some? && onChain.value.nonce != rx.sender.nonce then Some(NonceMismatch)
    else None
  }

  /** The sender after paying `cost`, with the reaction recorded and the nonce moved on. */
  function Charge(a: Atom, cost: u64, rx: Reaction): Atom
    requires cost <= a.mass
  {
    a.(mass := a.mass - cost, lastReactionHash := rx.hash, nonce := SatAdd(a.nonce, 1))
  }

  function Credit(a: Atom, amount: u64): Atom {
    a.(mass := SatAdd(a.mass, amount))
  }

  /** The sender's side of a transfer: amount and fee go, then decay. */
  function ExecTransferSender(ctx: Context, cs: Changeset, rx: Reaction): Result<Changeset, PvmError>
    requires rx.payload.Transfer?
  {
    var cost := rx.payload.amount + Fee(rx.energy);
    var sender := LookupAtom(ctx, cs, rx.sender.publicKey);
    if cost > U64_MAX then Err(ArithmeticOverflow)
    else if sender.None? then Err(AtomNotFound)
    else if sender.value.mass < cost then Err(InsufficientMass)
    else Ok(Put(cs, Evolve(ApplyDecay(ctx, Charge(sender.value, cost, rx)))))
  }

  /** The receiver as a transfer finds it, which may be the sender just charged, or a new account. */
  function TransferReceiver(ctx: Context, cs: Changeset, rx: Reaction): Atom {
    var found := LookupAtom(ctx, cs, rx.receiver.publicKey);
    if found.Some? then found.value else rx.receiver.(mass := 0)
  }

  function ExecTransfer(ctx: Context, cs: Changeset, rx: Reaction): Result<Changeset, PvmError>
    requires rx.payload.Transfer?
  {
    var paid := ExecTransferSender(ctx, cs, rx);
    if paid.Err? then paid
    else
      var receiver := ApplyDecay(ctx, TransferReceiver(ctx, paid.value, rx));
      Ok(Put(paid.value, Evolve(Credit(receiver, rx.payload.amount))))
  }

  /** The sender's side of Generic: pay fee and tax, or, for an absent architect, come into being. */
  function ExecGenericSender(ctx: Context, cs: Changeset, rx: Reaction): Result<Changeset, PvmError> {
    var sender := LookupAtom(ctx, cs, rx.sender.publicKey);
    var cost := Fee(rx.energy) + Tax(ctx, rx);
    if sender.Some? then
      if cost > U64_MAX then Err(ArithmeticOverflow)
      else if sender.value.mass < cost then Err(InsufficientMass)
      else Ok(Put(cs, Charge(sender.value, cost, rx)))
    else if rx.sender.publicKey == ctx.architect then
      Ok(Put(cs, rx.sender.(mass := GENESIS_MASS, lastReactionHash := rx.hash)))
    else Err(AtomNotFound)
  }

  function ExecGeneric(ctx: Context, cs: Changeset, rx: Reaction): Result<Changeset, PvmError> {
    var paid := ExecGenericSender(ctx, cs, rx);
    if paid.Err? then paid
    else
      var found := LookupAtom(ctx, paid.value, rx.receiver.publicKey);
      var receiver := if found.Some? then found.value else rx.receiver;
      var cs1 := Put(paid.value, Credit(receiver, Fee(rx.energy)));
      var architect := LookupAtom(ctx, cs1, ctx.architect);
      if Tax(ctx, rx) > 0 && architect.Some? then
        Ok(cs1.(inner := cs1.inner[ctx.architect := Credit(architect.value, Tax(ctx, rx))]))
      else Ok(cs1)
  }

  function ExecContract(ctx: Context, cs: Changeset, rx: Reaction): Result<Changeset, PvmError>
    requires rx.payload.Contract?
  {
    var code := rx.payload.code;
    var sender := LookupAtom(ctx, cs, rx.sender.publicKey);
    if |code| > MAX_MODULE_SIZE_BYTES then Err(ModuleTooLarge)
    else if sender.None? then Err(AtomNotFound)
    else if sender.value.mass < |code| * 100 then Err(InsufficientMass)
    else
      var cs1 := Put(cs, Charge(sender.value, |code| * 100, rx));
      Ok(cs1.(contracts := cs1.contracts[ctx.codeHash(code) := code]))
  }

  function ExecReward(ctx: Context, cs: Changeset, rx: Reaction): Result<Changeset, PvmError>
    requires rx.payload.MiningReward?
  {
    var architect := LookupAtom(ctx, cs, ctx.architect);
    if rx.receiver.publicKey != ctx.architect then Err(InvalidRewardRecipient)
    else if architect.None? then Err(AtomNotFound)
    else
      var a := Credit(architect.value, rx.payload.reward).(lastReactionHash := rx.hash);
      Ok(cs.(inner := cs.inner[ctx.architect := a]))
  }

  /** One reaction; `heat` is the heat of the batch before it. */
  function Exec(ctx: Context, cs: Changeset, rx: Reaction, batch: seq<Reaction>, heat: real): Result<Changeset, PvmError> {
    if rx.energy < 0.0 then Err(NegativeEnergy)
    else if rx.payload.MiningReward? then ExecReward(ctx, cs, rx)
    else
      var refused := Admit(ctx, cs, rx, batch, heat + Curvature(ctx, rx));
      if refused.Some? then Err(refused.value)
      else match rx.payload
        case Transfer(_) => ExecTransfer(ctx, cs, rx)
        case Generic => ExecGeneric(ctx, cs, rx)
        case Contract(_) => ExecContract(ctx, cs, rx)
        case ContractCall(_, _) => Err(CallNotRouted)
        case _ => Err(UnknownPayload)
  }

  function HeatAfter(ctx: Context, rx: Reaction, heat: real): real {
    if rx.payload.MiningReward? then heat else heat + Curvature(ctx, rx)
  }

  datatype BatchState = BatchState(cs: Changeset, heat: real)

  /** The first `n` reactions of a batch, each on top of the one before. */
  function Run(ctx: Context, batch: seq<Reaction>, n: nat): Result<BatchState, PvmError>
    requires n <= |batch|
  {
    if n == 0 then Ok(BatchState(Changeset(map[], map[]), 0.0))
    else
      var before := Run(ctx, batch, n - 1);
      if before.Err? then before
      else
        var rx := batch[n - 1];
        var after := Exec(ctx, before.value.cs, rx, batch, before.value.heat);
        if after.Err? then Err(after.error)
        else Ok(BatchState(after.value, HeatAfter(ctx, rx, before.value.heat)))
  }

  /** The virtual machine at work on one batch: the changeset and the heat are updated reaction by reaction. */
  class Pvm {
    const ctx: Context
    var inner: Atoms
    var contracts: map<Hash32, Bytes>
    var heat: real
    var entropy: real

    constructor (ctx: Context)
      ensures this.ctx == ctx && inner == map[] && contracts == map[] && heat == 0.0 && entropy == 0.0
    {
      this.ctx := ctx;
      inner, contracts, heat, entropy := map[], map[], 0.0, 0.0;
    }

    ghost function Changes(): Changeset
      reads this
    {
      Changeset(inner, contracts)
    }

    method Lookup(pk: Pk) returns (a: Option<Atom>)
      ensures a == LookupAtom(ctx, Changes(), pk)
    {
      a := if pk in inner then Some(inner[pk]) else if pk in ctx.state then Some(ctx.state[pk]) else None;
    }

    /** A failed reaction leaves the changeset as it was. */
    method ExecuteSingle(rx: Reaction, batch: seq<Reaction>) returns (e: Option<PvmError>)
      modifies this
      ensures match Exec(ctx, old(Changes()), rx, batch, old(heat))
              case Ok(cs) => e.None? && Changes() == cs && heat == HeatAfter(ctx, rx, old(heat))
              case Err(error) => e == Some(error) && Changes() == old(Changes())
    {
      if rx.energy < 0.0 { return Some(NegativeEnergy); }
      if rx.payload.MiningReward? {
        if rx.receiver.publicKey != ctx.architect { return Some(InvalidRewardRecipient); }
        var architect := Lookup(ctx.architect);
        if architect.None? { return Some(AtomNotFound); }
        var a := architect.value.(mass := SatAdd(architect.value.mass, rx.payload.reward), lastReactionHash := rx.hash);
        inner := inner[ctx.architect := a];
        return None;
      }
      if !ctx.verify(rx.sender.publicKey, rx) && !ctx.verify(ctx.architect, rx) { return Some(SignatureRejected); }
      var curvature := Curvature(ctx, rx);
      heat := heat + curvature;
      if heat > THERMAL_CAPACITY { return Some(ThermalLimitExceeded); }
      if Collapses(ctx, rx, batch) { return Some(QuantumCollapse); }
      var scaled := ctx.scaled(BaseComplexity(ctx, rx), curvature);
      if scaled > MAX_SAFE_COMPLEXITY { return Some(ArithmeticOverflow); }
      var tax := ctx.tax(scaled, curvature);
      entropy := entropy + tax as real * 0.01;
      var sender := Lookup(rx.sender.publicKey);
      if sender.Some? && sender.value.nonce != rx.sender.nonce { return Some(NonceMismatch); }
      match rx.payload
      case Transfer(amount) => e := DoTransfer(rx, sender);
      case Generic => e := DoGeneric(rx, sender, tax);
      case Contract(code) => e := DoContract(rx, sender);
      case ContractCall(_, _) => e := Some(CallNotRouted);
      case _ => e := Some(UnknownPayload);
    }

    method DoTransfer(rx: Reaction, sender: Option<Atom>) returns (e: Option<PvmError>)
      requires rx.payload.Transfer? && sender == LookupAtom(ctx, Changes(), rx.sender.publicKey)
      modifies this`inner
      ensures match ExecTransfer(ctx, old(Changes()), rx)
              case Ok(cs) => e.None? && Changes() == cs
              case Err(error) => e == Some(error) && Changes() == old(Changes())
    {
      var amount, fee := rx.payload.amount, Fee(rx.energy);
      if amount + fee > U64_MAX { return Some(ArithmeticOverflow); }
      if sender.None? { return Some(AtomNotFound); }
      var s := sender.value;
      if s.mass < amount + fee { return Some(InsufficientMass); }
      s := s.(mass := s.mass - (amount + fee));
      s := s.(lastReactionHash := rx.hash);
      s := s.(nonce := SatAdd(s.nonce, 1));
      s := ApplyDecay(ctx, s);
      s := Evolve(s);
      inner := inner[s.publicKey := s];
      var found := Lookup(rx.receiver.publicKey);
      var r := if found.Some? then found.value else rx.receiver.(mass := 0);
      r := ApplyDecay(ctx, r);
      r := r.(mass := SatAdd(r.mass, amount));
      r := Evolve(r);
      inner := inner[r.publicKey := r];
      e := None;
    }

    method PayGeneric(rx: Reaction, sender: Option<Atom>, fee: u64, tax: u64) returns (e: Option<PvmError>)
      requires sender == LookupAtom(ctx, Changes(), rx.sender.publicKey) && fee == Fee(rx.energy) && tax == Tax(ctx, rx)
      modifies this`inner
      ensures match ExecGenericSender(ctx, old(Changes()), rx)
              case Ok(cs) => e.None? && Changes() == cs
              case Err(error) => e == Some(error) && Changes() == old(Changes())
    {
      if sender.Some? {
        var s := sender.value;
        if fee + tax > U64_MAX { return Some(ArithmeticOverflow); }
        if s.mass < fee + tax { return Some(InsufficientMass); }
        s := s.(mass := s.mass - (fee + tax), lastReactionHash := rx.hash, nonce := SatAdd(s.nonce, 1));
        inner := inner[s.publicKey := s];
      } else if rx.sender.publicKey == ctx.architect {
        inner := inner[rx.sender.publicKey := rx.sender.(mass := GENESIS_MASS, lastReactionHash := rx.hash)];
      } else {
        return Some(AtomNotFound);
      }
      e := None;
    }

    method DoGeneric(rx: Reaction, sender: Option<Atom>, tax: u64) returns (e: Option<PvmError>)
      requires sender == LookupAtom(ctx, Changes(), rx.sender.publicKey) && tax == Tax(ctx, rx)
      modifies this`inner
      ensures match ExecGeneric(ctx, old(Changes()), rx)
              case Ok(cs) => e.None? && Changes() == cs
              case Err(error) => e == Some(error) && Changes() == old(Changes())
    {
      var fee := Fee(rx.energy);
      e := PayGeneric(rx, sender, fee, tax);
      if e.Some? { return; }
      var found := Lookup(rx.receiver.publicKey);
      var r := if found.Some? then found.value else rx.receiver;
      r := r.(mass := SatAdd(r.mass, fee));
      inner := inner[r.publicKey := r];
      if tax > 0 {
        var architect := Lookup(ctx.architect);
        if architect.Some? {
          inner := inner[ctx.architect := architect.value.(mass := SatAdd(architect.value.mass, tax))];
        }
      }
      e := None;
    }

    method DoContract(rx: Reaction, sender: Option<Atom>) returns (e: Option<PvmError>)
      requires rx.payload.Contract? && sender == LookupAtom(ctx, Changes(), rx.sender.publicKey)
      modifies this`inner, this`contracts
      ensures match ExecContract(ctx, old(Changes()), rx)
              case Ok(cs) => e.None? && Changes() == cs
              case Err(error) => e == Some(error) && Changes() == old(Changes())
    {
      var code := rx.payload.code;
      if |code| > MAX_MODULE_SIZE_BYTES { return Some(ModuleTooLarge); }
      if sender.None? { return Some(AtomNotFound); }
      var s, cost := sender.value, |code| * 100;
      if s.mass < cost { return Some(InsufficientMass); }
      s := s.(mass := s.mass - cost, nonce := SatAdd(s.nonce, 1), lastReactionHash := rx.hash);
      inner := inner[s.publicKey := s];
      contracts := contracts[ctx.codeHash(code) := code];
      e := None;
    }
  }

  lemma {:induction false} RunNext(ctx: Context, batch: seq<Reaction>, n: nat, s: BatchState)
    requires n < |batch| && Run(ctx, batch, n) == Ok(s)
    ensures Run(ctx, batch, n + 1) == match Exec(ctx, s.cs, batch[n], batch, s.heat)
                                      case Ok(cs) => Ok(BatchState(cs, HeatAfter(ctx, batch[n], s.heat)))
                                      case Err(error) => Err(error)
  {
  }

  /** A whole batch: all reactions apply in order, or the batch is refused with the first error. */
  method ExecutePayload(ctx: Context, batch: seq<Reaction>) returns (r: Result<Changeset, PvmError>)
    ensures match Run(ctx, batch, |batch|)
            case Ok(s) => r == Ok(s.cs)
            case Err(error) => r == Err(error)
  {
    var vm := new Pvm(ctx);
    for i := 0 to |batch|
      invariant vm.ctx == ctx
      invariant Run(ctx, batch, i) == Ok(BatchState(vm.Changes(), vm.heat))
    {
      RunNext(ctx, batch, i, BatchState(vm.Changes(), vm.heat));
      var e := vm.ExecuteSingle(batch[i], batch);
      if e.Some? {
        RunStops(ctx, batch, i + 1, |batch|);
        return Err(e.value);
      }
    }
    return Ok(Changeset(vm.inner, vm.contracts));
  }

  lemma {:induction false} RunStops(ctx: Context, batch: seq<Reaction>, i: nat, n: nat)
    requires i <= n <= |batch| && Run(ctx, batch, i).Err?
    ensures Run(ctx, batch, n) == Run(ctx, batch, i)
  {
    if i < n { RunStops(ctx, batch, i, n - 1); }
  }
}
