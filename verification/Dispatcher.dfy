/**
 Batches as the dispatcher runs them: contract calls go to the engine and the transfers it hands back are
 applied, everything else goes to the virtual machine, all on one running changeset and one heat.
 */
module Dispatcher {
  import opened Basics
  import opened Hashing
  import opened Ledger
  import opened LedgerMass
  import opened LedgerNonce
  import opened LedgerBalance
  import opened LedgerRules
  import opened Contracts

  /** What a call leaves behind: transfers to apply, and the heat of the gas used. */
  datatype CallOutput = CallOutput(moves: seq<Move>, heat: real)

  /**
   Loading the contract and running it, which sees the chain state and not the running changeset: an output or
   an error for each call.
   */
  type Engine = Reaction -> Result<CallOutput, PvmError>

  function ExecCall(ctx: Context, engine: Engine, s: BatchState, rx: Reaction): Result<BatchState, PvmError>
    requires rx.payload.ContractCall?
  {
    if |rx.payload.address| != 32 then Err(WasmBackendError)
    else
      match engine(rx)
      case Err(error) => Err(error)
      case Ok(output) =>
        var done := Dispatched(ctx, s.cs, rx, output.moves);
        if done.Err? then Err(done.error)
        else if s.heat + output.heat > THERMAL_CAPACITY then Err(ThermalLimitExceeded)
        else Ok(BatchState(done.value, s.heat + output.heat))
  }

  function ExecAny(ctx: Context, engine: Engine, s: BatchState, rx: Reaction, batch: seq<Reaction>): Result<BatchState, PvmError> {
    if rx.payload.ContractCall? then ExecCall(ctx, engine, s, rx)
    else
      match Exec(ctx, s.cs, rx, batch, s.heat)
      case Ok(cs) => Ok(BatchState(cs, HeatAfter(ctx, rx, s.heat)))
      case Err(error) => Err(error)
  }

  /** The first `n` reactions of a batch, each on top of the one before. */
  function RunAny(ctx: Context, engine: Engine, batch: seq<Reaction>, n: nat): Result<BatchState, PvmError>
    requires n <= |batch|
  {
    if n == 0 then Ok(BatchState(Changeset(map[], map[]), 0.0))
    else
      var before := RunAny(ctx, engine, batch, n - 1);
      if before.Err? then before else ExecAny(ctx, engine, before.value, batch[n - 1], batch)
  }

  lemma {:induction false} RunAnyNext(ctx: Context, engine: Engine, batch: seq<Reaction>, n: nat, next: nat)
    requires next == n + 1 <= |batch|
    ensures var before := RunAny(ctx, engine, batch, n);
      RunAny(ctx, engine, batch, next) == if before.Err? then before else ExecAny(ctx, engine, before.value, batch[n], batch)
  {
  }

  lemma {:induction false} RunAnyStops(ctx: Context, engine: Engine, batch: seq<Reaction>, i: nat, n: nat)
    requires i <= n <= |batch| && RunAny(ctx, engine, batch, i).Err?
    ensures RunAny(ctx, engine, batch, n) == RunAny(ctx, engine, batch, i)
  {
    if i < n {
      var p: nat := n - 1;
      RunAnyStops(ctx, engine, batch, i, p);
      RunAnyNext(ctx, engine, batch, p, n);
    }
  }

  /** One reaction of a batch on the machine of that batch. */
  method ExecuteAny(vm: Pvm, engine: Engine, rx: Reaction, batch: seq<Reaction>) returns (e: Option<PvmError>)
    modifies vm
    ensures match ExecAny(vm.ctx, engine, old(BatchState(vm.Changes(), vm.heat)), rx, batch)
            case Ok(s) => e.None? && s == BatchState(vm.Changes(), vm.heat)
            case Err(error) => e == Some(error)
  {
    if !rx.payload.ContractCall? {
      e := vm.ExecuteSingle(rx, batch);
      return;
    }
    if |rx.payload.address| != 32 { return Some(WasmBackendError); }
    var out := engine(rx);
    if out.Err? { return Some(out.error); }
    var running;
    running, e := DispatchContract(vm.ctx, rx, out.value.moves, Changeset(vm.inner, vm.contracts));
    if e.Some? { return; }
    vm.inner, vm.contracts, vm.heat := running.inner, running.contracts, vm.heat + out.value.heat;
    if vm.heat > THERMAL_CAPACITY { e := Some(ThermalLimitExceeded); }
  }

  /** The machine has taken the first `n` reactions. */
  ghost predicate Taken(vm: Pvm, engine: Engine, batch: seq<Reaction>, n: nat)
    requires n <= |batch|
    reads vm
  {
    RunAny(vm.ctx, engine, batch, n) == Ok(BatchState(vm.Changes(), vm.heat))
  }

  method ExecuteNext(vm: Pvm, engine: Engine, batch: seq<Reaction>, i: nat) returns (e: Option<PvmError>)
    requires i < |batch| && Taken(vm, engine, batch, i)
    modifies vm
    ensures e.None? ==> Taken(vm, engine, batch, i + 1)
    ensures e.Some? ==> RunAny(vm.ctx, engine, batch, |batch|) == Err(e.value)
  {
    ghost var s := BatchState(vm.Changes(), vm.heat);
    RunAnyNext(vm.ctx, engine, batch, i, i + 1);
    assert RunAny(vm.ctx, engine, batch, i + 1) == ExecAny(vm.ctx, engine, s, batch[i], batch);
    e := ExecuteAny(vm, engine, batch[i], batch);
    if e.Some? { RunAnyStops(vm.ctx, engine, batch, i + 1, |batch|); }
  }

  /** A batch of any payloads: all apply in order, or the batch is refused with the first error. */
  method Execute(ctx: Context, engine: Engine, batch: seq<Reaction>) returns (r: Result<Changeset, PvmError>)
    ensures match RunAny(ctx, engine, batch, |batch|)
            case Ok(s) => r == Ok(s.cs)
            case Err(error) => r == Err(error)
  {
    var vm := new Pvm(ctx);
    for i := 0 to |batch|
      invariant vm.ctx == ctx && Taken(vm, engine, batch, i)
    {
      var e := ExecuteNext(vm, engine, batch, i);
      if e.Some? { return Err(e.value); }
    }
    return Ok(Changeset(vm.inner, vm.contracts));
  }

  /** Without contract calls the dispatcher does what the virtual machine does. */
  lemma {:induction false} NoCalls(ctx: Context, engine: Engine, batch: seq<Reaction>, n: nat)
    requires n <= |batch| && forall rx | rx in batch :: !rx.payload.ContractCall?
    ensures RunAny(ctx, engine, batch, n) == Run(ctx, batch, n)
  {
    if n > 0 {
      NoCalls(ctx, engine, batch, n - 1);
      assert batch[n - 1] in batch;
    }
  }

  // ------------------------------------------------------------------ mass

  /** The atom that pays, after it has paid. */
  ghost function Debited(ctx: Context, cs: Changeset, pk: Pk, amount: u64): Atom
    requires LookupAtom(ctx, cs, pk).Some? && LookupAtom(ctx, cs, pk).value.mass >= amount
  {
    var a := LookupAtom(ctx, cs, pk).value;
    a.(mass := a.mass - amount)
  }

  lemma {:induction false} DebitHalf(ctx: Context, cs: Changeset, pk: Pk, amount: u64, a: Atom)
    requires LedgerOk(ctx, cs) && LookupAtom(ctx, cs, pk).Some? && LookupAtom(ctx, cs, pk).value.mass >= amount
    requires a == Debited(ctx, cs, pk, amount)
    ensures LedgerOk(ctx, Put(cs, a)) && Total(View(ctx, Put(cs, a))) + amount == Total(View(ctx, cs))
  {
    FoundOwnKey(ctx, cs, pk);
    LookupIsView(ctx, cs, pk);
    PutAtom(ctx, cs, a);
  }

  lemma {:induction false} CreditHalf(ctx: Context, cs: Changeset, pk: Pk, amount: u64)
    requires LedgerOk(ctx, cs)
    ensures LedgerOk(ctx, MoveIn(ctx, cs, pk, amount))
    ensures Total(View(ctx, cs)) + amount <= U64_MAX ==>
      Total(View(ctx, MoveIn(ctx, cs, pk, amount))) == Total(View(ctx, cs)) + amount
  {
    FoundOwnKey(ctx, cs, pk);
    LookupIsView(ctx, cs, pk);
    var r := MoveReceiver(ctx, cs, pk);
    PutAtom(ctx, cs, r.(mass := SatAdd(r.mass, amount)));
  }

  lemma {:induction false} MoveHalves(ctx: Context, cs: Changeset, m: Move) returns (a: Atom)
    requires LedgerOk(ctx, cs) && Move1(ctx, cs, m).Ok?
    ensures LookupAtom(ctx, cs, m.0).Some? && LookupAtom(ctx, cs, m.0).value.mass >= m.2
    ensures a == Debited(ctx, cs, m.0, m.2)
    ensures Move1(ctx, cs, m).value == MoveIn(ctx, Put(cs, a), m.1, m.2)
  {
    FoundOwnKey(ctx, cs, m.0);
    a := Debited(ctx, cs, m.0, m.2);
  }

  lemma {:induction false} AppliedMoveOk(ctx: Context, cs: Changeset, m: Move, after: Changeset)
    requires LedgerOk(ctx, cs) && Move1(ctx, cs, m) == Ok(after)
    ensures LedgerOk(ctx, after)
  {
    var a := MoveHalves(ctx, cs, m);
    DebitHalf(ctx, cs, m.0, m.2, a);
    CreditHalf(ctx, Put(cs, a), m.1, m.2);
  }

  lemma {:induction false} AppliedMoveTotal(ctx: Context, cs: Changeset, m: Move, after: Changeset)
    requires LedgerOk(ctx, cs) && Move1(ctx, cs, m) == Ok(after) && Total(View(ctx, cs)) <= U64_MAX
    ensures Total(View(ctx, after)) == Total(View(ctx, cs))
  {
    var a := MoveHalves(ctx, cs, m);
    DebitHalf(ctx, cs, m.0, m.2, a);
    CreditHalf(ctx, Put(cs, a), m.1, m.2);
  }

  /** The ledger is in order, and its total is `total` as far as that fits in 64 bits. */
  ghost predicate Holding(ctx: Context, cs: Changeset, total: nat) {
    LedgerOk(ctx, cs) && (total <= U64_MAX ==> Total(View(ctx, cs)) == total)
  }

  /** A transfer that applies keeps the total, whatever its amount and whoever it goes to. */
  lemma {:induction false} AppliedMove(ctx: Context, cs: Changeset, m: Move, after: Changeset, total: nat)
    requires Holding(ctx, cs, total) && Move1(ctx, cs, m) == Ok(after)
    ensures Holding(ctx, after, total)
  {
    AppliedMoveOk(ctx, cs, m, after);
    if total <= U64_MAX { AppliedMoveTotal(ctx, cs, m, after); }
  }

  lemma {:induction false} MoveBack(ctx: Context, cs: Changeset, moves: seq<Move>, n: nat, next: nat, after: Changeset)
    returns (before: Changeset)
    requires next == n + 1 <= |moves| && MoveAll(ctx, cs, moves, next) == Ok(after)
    ensures MoveAll(ctx, cs, moves, n) == Ok(before) && Move1(ctx, before, moves[n]) == Ok(after)
  {
    before := MoveAll(ctx, cs, moves, n).value;
  }

  lemma {:induction false} AppliedMoves(ctx: Context, cs: Changeset, moves: seq<Move>, n: nat, total: nat, after: Changeset)
    requires n <= |moves| && Holding(ctx, cs, total) && MoveAll(ctx, cs, moves, n) == Ok(after)
    ensures Holding(ctx, after, total)
  {
    if n > 0 {
      var p: nat := n - 1;
      var before := MoveBack(ctx, cs, moves, p, n, after);
      AppliedMoves(ctx, cs, moves, p, total, before);
      AppliedMove(ctx, before, moves[p], after, total);
    }
  }

  /** A contract call that succeeds keeps the total, whatever list of transfers it comes with. */
  lemma {:induction false} DispatchedMass(ctx: Context, cs: Changeset, rx: Reaction, moves: seq<Move>)
    requires LedgerOk(ctx, cs) && Total(View(ctx, cs)) <= U64_MAX && Dispatched(ctx, cs, rx, moves).Ok?
    ensures LedgerOk(ctx, Dispatched(ctx, cs, rx, moves).value)
    ensures Total(View(ctx, Dispatched(ctx, cs, rx, moves).value)) == Total(View(ctx, cs))
  {
    var cs', pk := MoveAll(ctx, cs, moves, |moves|).value, rx.sender.publicKey;
    AppliedMoves(ctx, cs, moves, |moves|, Total(View(ctx, cs)), cs');
    var a := LookupAtom(ctx, cs', pk).value;
    Replace(ctx, cs', pk, a.(nonce := SatAdd(a.nonce, 1), lastReactionHash := rx.hash));
  }

  /** One accepted reaction, native or a call, moves the total by what it mints and burns; a call does neither. */
  lemma {:induction false} AnyMass(ctx: Context, engine: Engine, s: BatchState, rx: Reaction, batch: seq<Reaction>, s': BatchState)
    requires LedgerOk(ctx, s.cs) && ExecAny(ctx, engine, s, rx, batch) == Ok(s')
    requires Total(View(ctx, s.cs)) + Minted(ctx, s.cs, rx) <= U64_MAX
    ensures LedgerOk(ctx, s'.cs)
    ensures Total(View(ctx, s'.cs)) + Burned(ctx, s.cs, rx) == Total(View(ctx, s.cs)) + Minted(ctx, s.cs, rx)
  {
    if rx.payload.ContractCall? {
      DispatchedMass(ctx, s.cs, rx, engine(rx).value.moves);
    } else {
      ExecMass(ctx, s.cs, rx, batch, s.heat);
    }
  }

  /** Mass brought in and taken out by the first `n` reactions of an accepted run. */
  ghost function MintedByFirst(ctx: Context, engine: Engine, batch: seq<Reaction>, n: nat): nat
    requires n <= |batch|
  {
    if n == 0 || RunAny(ctx, engine, batch, n - 1).Err? then 0
    else MintedByFirst(ctx, engine, batch, n - 1) + Minted(ctx, RunAny(ctx, engine, batch, n - 1).value.cs, batch[n - 1])
  }

  ghost function BurnedByFirst(ctx: Context, engine: Engine, batch: seq<Reaction>, n: nat): nat
    requires n <= |batch|
  {
    if n == 0 || RunAny(ctx, engine, batch, n - 1).Err? then 0
    else BurnedByFirst(ctx, engine, batch, n - 1) + Burned(ctx, RunAny(ctx, engine, batch, n - 1).value.cs, batch[n - 1])
  }

  /**
   Main result: over an accepted batch of native payloads and contract calls the total mass changes by exactly
   what the native ones bring in and take out.
   */
  lemma {:induction false} MixedMass(ctx: Context, engine: Engine, batch: seq<Reaction>, n: nat, s: BatchState)
    requires n <= |batch| && RunAny(ctx, engine, batch, n) == Ok(s)
    requires OwnKeys(ctx.state) && ctx.architect in ctx.state
    requires Total(ctx.state) + MintedByFirst(ctx, engine, batch, n) <= U64_MAX
    ensures LedgerOk(ctx, s.cs)
    ensures Total(View(ctx, s.cs)) + BurnedByFirst(ctx, engine, batch, n) == Total(ctx.state) + MintedByFirst(ctx, engine, batch, n)
  {
    if n == 0 {
      assert View(ctx, s.cs) == ctx.state;
    } else {
      var p: nat := n - 1;
      var before := RunAnyBack(ctx, engine, batch, p, n, s);
      MixedMass(ctx, engine, batch, p, before);
      AnyMass(ctx, engine, before, batch[p], batch, s);
    }
  }

  lemma {:induction false} RunAnyBack(ctx: Context, engine: Engine, batch: seq<Reaction>, n: nat, next: nat, s: BatchState)
    returns (before: BatchState)
    requires next == n + 1 <= |batch| && RunAny(ctx, engine, batch, next) == Ok(s)
    ensures RunAny(ctx, engine, batch, n) == Ok(before) && ExecAny(ctx, engine, before, batch[n], batch) == Ok(s)
    ensures MintedByFirst(ctx, engine, batch, next) == MintedByFirst(ctx, engine, batch, n) + Minted(ctx, before.cs, batch[n])
    ensures BurnedByFirst(ctx, engine, batch, next) == BurnedByFirst(ctx, engine, batch, n) + Burned(ctx, before.cs, batch[n])
  {
    RunAnyNext(ctx, engine, batch, n, next);
    before := RunAny(ctx, engine, batch, n).value;
  }

  // ------------------------------------------------------------------ heat

  /** No accepted batch gets hotter than the capacity, at no point. */
  lemma {:induction false} MixedHeat(ctx: Context, engine: Engine, batch: seq<Reaction>, n: nat, s: BatchState)
    requires n <= |batch| && RunAny(ctx, engine, batch, n) == Ok(s)
    ensures s.heat <= 1000.0
  {
    if n > 0 {
      var p: nat := n - 1;
      var before := RunAnyBack(ctx, engine, batch, p, n, s);
      MixedHeat(ctx, engine, batch, p, before);
      AnyHeat(ctx, engine, before, batch[p], batch, s);
    }
  }

  /** The heat of a reaction is its own or that of its gas; only a reward has none. */
  lemma {:induction false} AnyHeat(ctx: Context, engine: Engine, s: BatchState, rx: Reaction, batch: seq<Reaction>, s': BatchState)
    requires ExecAny(ctx, engine, s, rx, batch) == Ok(s')
    ensures s'.heat == s.heat + match rx.payload
                                case MiningReward(_) => 0.0
                                case ContractCall(_, _) => engine(rx).value.heat
                                case _ => Warmth(ctx, rx)
    ensures !rx.payload.MiningReward? ==> s'.heat <= 1000.0
    ensures rx.payload.ContractCall? ==> |rx.payload.address| == 32 && engine(rx).Ok?
  {
    if !rx.payload.ContractCall? { AcceptedIsAdmitted(ctx, s.cs, rx, batch, s.heat); }
  }

  // ---------------------------------------------------------------- nonces

  /** A contract call moves its sender's nonce by one and no other; it does not look at the nonce it carries. */
  lemma {:induction false} DispatchedNonces(ctx: Context, cs: Changeset, rx: Reaction, moves: seq<Move>)
    requires LedgerOk(ctx, cs) && Dispatched(ctx, cs, rx, moves).Ok? && LookupAtom(ctx, cs, rx.sender.publicKey).Some?
    ensures NoncesStep(ctx, cs, Dispatched(ctx, cs, rx, moves).value, Some(rx.sender.publicKey))
    ensures forall nonce: u64 :: Dispatched(ctx, cs, rx.(sender := rx.sender.(nonce := nonce)), moves) == Dispatched(ctx, cs, rx, moves)
  {
    var cs', pk := MoveAll(ctx, cs, moves, |moves|).value, rx.sender.publicKey;
    AppliedMoves(ctx, cs, moves, |moves|, Total(View(ctx, cs)), cs');
    forall k | LookupAtom(ctx, cs, k).Some?
      ensures LookupAtom(ctx, cs', k).Some? && LookupAtom(ctx, cs', k).value.nonce == LookupAtom(ctx, cs, k).value.nonce
    {
      MovesKeepNonce(ctx, cs, moves, |moves|, k);
    }
    var a := LookupAtom(ctx, cs', pk).value;
    FoundOwnKey(ctx, cs', pk);
    PutNonces(ctx, cs', a.(nonce := SatAdd(a.nonce, 1), lastReactionHash := rx.hash), true);
  }

  /** One accepted reaction, native or a call, moves its sender's nonce by one and no other; a reward moves none. */
  lemma {:induction false} AnyNonces(ctx: Context, engine: Engine, s: BatchState, rx: Reaction, batch: seq<Reaction>, s': BatchState,
                                     pk: Pk, nonce: u64)
    requires LedgerOk(ctx, s.cs) && ExecAny(ctx, engine, s, rx, batch) == Ok(s') && NonceOf(ctx, s.cs, pk) == Some(nonce)
    ensures LedgerOk(ctx, s'.cs) && NonceOf(ctx, s'.cs, pk) == Some(if Spends(rx, pk) then SatAdd(nonce, 1) else nonce)
    ensures Spends(rx, pk) && !rx.payload.ContractCall? ==> rx.sender.nonce == nonce
  {
    if rx.payload.ContractCall? {
      CallNonces(ctx, s.cs, rx, engine(rx).value.moves, s'.cs, pk, nonce);
    } else {
      ExecNonces(ctx, s.cs, rx, batch, s.heat);
    }
  }

  lemma {:induction false} CallNonces(ctx: Context, cs: Changeset, rx: Reaction, moves: seq<Move>, cs': Changeset, pk: Pk, nonce: u64)
    requires LedgerOk(ctx, cs) && Dispatched(ctx, cs, rx, moves) == Ok(cs') && NonceOf(ctx, cs, pk) == Some(nonce)
    ensures LedgerOk(ctx, cs')
    ensures NonceOf(ctx, cs', pk) == Some(if rx.sender.publicKey == pk then SatAdd(nonce, 1) else nonce)
  {
    var moved := MoveAll(ctx, cs, moves, |moves|).value;
    AppliedMoves(ctx, cs, moves, |moves|, Total(View(ctx, cs)), moved);
    MovesKeepNonce(ctx, cs, moves, |moves|, pk);
    var a := LookupAtom(ctx, moved, rx.sender.publicKey).value;
    FoundOwnKey(ctx, moved, rx.sender.publicKey);
    LookupIsView(ctx, moved, rx.sender.publicKey);
    PutAtom(ctx, moved, a.(nonce := SatAdd(a.nonce, 1), lastReactionHash := rx.hash));
    PutFinds(ctx, moved, a.(nonce := SatAdd(a.nonce, 1), lastReactionHash := rx.hash), pk);
  }

  lemma {:induction false} RunAnyLedger(ctx: Context, engine: Engine, batch: seq<Reaction>, n: nat, s: BatchState)
    requires n <= |batch| && RunAny(ctx, engine, batch, n) == Ok(s) && OwnKeys(ctx.state) && ctx.architect in ctx.state
    ensures LedgerOk(ctx, s.cs)
  {
    if n == 0 {
      assert View(ctx, s.cs) == ctx.state;
    } else {
      var p: nat := n - 1;
      var before := RunAnyBack(ctx, engine, batch, p, n, s);
      RunAnyLedger(ctx, engine, batch, p, before);
      LookupIsView(ctx, before.cs, ctx.architect);
      AnyNonces(ctx, engine, before, batch[p], batch, s, ctx.architect, NonceOf(ctx, before.cs, ctx.architect).value);
    }
  }

  /** The nonce due after reactions `m` to `n` of a batch, `nonce` being that before them. */
  ghost function DueAfter(batch: seq<Reaction>, pk: Pk, nonce: u64, m: nat, n: nat): u64
    requires m <= n <= |batch|
  {
    if n == m then nonce else SatAdd(DueAfter(batch, pk, nonce, m, n - 1), if Spends(batch[n - 1], pk) then 1 else 0)
  }

  lemma {:induction false} DueIsCount(batch: seq<Reaction>, pk: Pk, nonce: u64, m: nat, n: nat)
    requires m <= n <= |batch|
    ensures Sent(batch, pk, m) <= Sent(batch, pk, n)
    ensures DueAfter(batch, pk, nonce, m, n) == Cap(nonce + Sent(batch, pk, n) - Sent(batch, pk, m))
  {
    if m < n { DueIsCount(batch, pk, nonce, m, n - 1); }
  }

  lemma {:induction false} DueNext(batch: seq<Reaction>, pk: Pk, nonce: u64, m: nat, n: nat, next: nat)
    requires m <= n && next == n + 1 <= |batch|
    ensures DueAfter(batch, pk, nonce, m, next)
         == var due := DueAfter(batch, pk, nonce, m, n); if Spends(batch[n], pk) then SatAdd(due, 1) else due
  {
  }

  lemma {:induction false} DueKept(ctx: Context, engine: Engine, batch: seq<Reaction>, pk: Pk, m: nat, n: nat, before: BatchState, s: BatchState, nonce: u64)
    requires m <= n <= |batch| && RunAny(ctx, engine, batch, m) == Ok(before) && RunAny(ctx, engine, batch, n) == Ok(s)
    requires OwnKeys(ctx.state) && ctx.architect in ctx.state && NonceOf(ctx, before.cs, pk) == Some(nonce)
    ensures NonceOf(ctx, s.cs, pk) == Some(DueAfter(batch, pk, nonce, m, n))
  {
    if m < n {
      var p: nat := n - 1;
      var last := RunAnyBack(ctx, engine, batch, p, n, s);
      DueKept(ctx, engine, batch, pk, m, p, before, last, nonce);
      RunAnyLedger(ctx, engine, batch, p, last);
      DueNext(batch, pk, nonce, m, p, n);
      AnyNonces(ctx, engine, last, batch[p], batch, s, pk, DueAfter(batch, pk, nonce, m, p));
    }
  }

  /**
   Main result: from any point of an accepted batch at which an account is known, its nonce counts the reactions it
   sends, native ones and calls, up to the top of the counter.
   */
  lemma {:induction false} MixedNonces(ctx: Context, engine: Engine, batch: seq<Reaction>, pk: Pk, m: nat, n: nat, before: BatchState, s: BatchState, nonce: u64)
    requires m <= n <= |batch| && RunAny(ctx, engine, batch, m) == Ok(before) && RunAny(ctx, engine, batch, n) == Ok(s)
    requires OwnKeys(ctx.state) && ctx.architect in ctx.state && NonceOf(ctx, before.cs, pk) == Some(nonce)
    ensures Sent(batch, pk, m) <= Sent(batch, pk, n)
    ensures NonceOf(ctx, s.cs, pk) == Some(Cap(nonce + Sent(batch, pk, n) - Sent(batch, pk, m)))
  {
    DueKept(ctx, engine, batch, pk, m, n, before, s, nonce);
    DueIsCount(batch, pk, nonce, m, n);
  }

  // ------------------------------------------------------- what calls touch

  /** Exactly when a call goes through: a 32-byte address, a contract that runs, transfers that apply, a known sender, room for the heat. */
  lemma {:induction false} CallAcceptedExactly(ctx: Context, engine: Engine, s: BatchState, rx: Reaction, batch: seq<Reaction>)
    requires rx.payload.ContractCall?
    ensures ExecAny(ctx, engine, s, rx, batch).Ok? <==>
      && |rx.payload.address| == 32 && engine(rx).Ok? && s.heat + engine(rx).value.heat <= 1000.0
      && var moves := engine(rx).value.moves;
         MoveAll(ctx, s.cs, moves, |moves|).Ok? && NonceOf(ctx, MoveAll(ctx, s.cs, moves, |moves|).value, rx.sender.publicKey).Some?
  {
  }

  /** A transfer changes nothing of a known account but its balance, and a new one starts as bare hydrogen with nonce 0. */
  ghost predicate OnlyPaid(ctx: Context, cs: Changeset, cs': Changeset, k: Pk) {
    var a, b := LookupAtom(ctx, cs, k), LookupAtom(ctx, cs', k);
    && (a.Some? ==> b.Some? && b.value == a.value.(mass := b.value.mass))
    && (a.None? && b.Some? ==> b.value == Atom(k, Hydrogen, 0, b.value.mass, 2.20, Zero(), 0, 0, Stable))
  }

  lemma {:induction false} MoveOnlyPays(ctx: Context, cs: Changeset, m: Move, after: Changeset, k: Pk)
    requires Move1(ctx, cs, m) == Ok(after)
    ensures OnlyPaid(ctx, cs, after, k)
  {
  }

  lemma {:induction false} MovesOnlyPay(ctx: Context, cs: Changeset, moves: seq<Move>, n: nat, after: Changeset, k: Pk)
    requires n <= |moves| && MoveAll(ctx, cs, moves, n) == Ok(after)
    ensures OnlyPaid(ctx, cs, after, k)
  {
    if n > 0 {
      var p: nat := n - 1;
      var before := MoveBack(ctx, cs, moves, p, n, after);
      MovesOnlyPay(ctx, cs, moves, p, before, k);
      MoveOnlyPays(ctx, before, moves[p], after, k);
    }
  }

  /** A call touches balances only, and nonce and last reaction of its sender. */
  lemma {:induction false} CallTouches(ctx: Context, cs: Changeset, rx: Reaction, moves: seq<Move>, cs': Changeset, k: Pk)
    requires Dispatched(ctx, cs, rx, moves) == Ok(cs')
    ensures cs'.contracts == cs.contracts
    ensures k != rx.sender.publicKey ==> OnlyPaid(ctx, cs, cs', k)
    ensures k == rx.sender.publicKey && LookupAtom(ctx, cs, k).Some? ==>
      var a, b := LookupAtom(ctx, cs, k).value, LookupAtom(ctx, cs', k);
      b.Some? && b.value == a.(mass := b.value.mass, nonce := SatAdd(a.nonce, 1), lastReactionHash := rx.hash)
  {
    var moved := MoveAll(ctx, cs, moves, |moves|).value;
    MovesOnlyPay(ctx, cs, moves, |moves|, moved, k);
    MovesKeepCode(ctx, cs, moves, |moves|, moved);
  }

  lemma {:induction false} MovesKeepCode(ctx: Context, cs: Changeset, moves: seq<Move>, n: nat, after: Changeset)
    requires n <= |moves| && MoveAll(ctx, cs, moves, n) == Ok(after)
    ensures after.contracts == cs.contracts
  {
    if n > 0 {
      var p: nat := n - 1;
      var before := MoveBack(ctx, cs, moves, p, n, after);
      MovesKeepCode(ctx, cs, moves, p, before);
    }
  }

  // -------------------------------------------------------------- balances

  /** What `k` sends, and what it is sent, in the first `n` transfers of a list. */
  function SentOut(moves: seq<Move>, k: Pk, n: nat): nat
    requires n <= |moves|
  {
    if n == 0 then 0 else SentOut(moves, k, n - 1) + if moves[n - 1].0 == k then moves[n - 1].2 else 0
  }

  function SentIn(moves: seq<Move>, k: Pk, n: nat): nat
    requires n <= |moves|
  {
    if n == 0 then 0 else SentIn(moves, k, n - 1) + if moves[n - 1].1 == k then moves[n - 1].2 else 0
  }

  lemma {:induction false} MoveMoves(ctx: Context, cs: Changeset, m: Move, after: Changeset, k: Pk)
    requires LedgerOk(ctx, cs) && Total(View(ctx, cs)) <= U64_MAX && Move1(ctx, cs, m) == Ok(after)
    ensures Moves(ctx, cs, after, k, if m.0 == k then m.2 else 0, if m.1 == k then m.2 else 0)
  {
    var a := MoveHalves(ctx, cs, m);
    DebitHalf(ctx, cs, m.0, m.2, a);
    FoundOwnKey(ctx, cs, m.0);
    PutMoves(ctx, cs, a, k);
    MoveInTotal(ctx, Put(cs, a), m.1, m.2, k);
  }

  lemma {:induction false} MoveStep(ctx: Context, cs: Changeset, before: Changeset, m: Move, after: Changeset, k: Pk, out: nat, into: nat)
    requires LedgerOk(ctx, before) && Total(View(ctx, before)) <= U64_MAX && Move1(ctx, before, m) == Ok(after)
    requires Moves(ctx, cs, before, k, out, into)
    ensures Moves(ctx, cs, after, k, out + if m.0 == k then m.2 else 0, into + if m.1 == k then m.2 else 0)
  {
    MoveMoves(ctx, before, m, after, k);
  }

  lemma {:induction false} SentNext(moves: seq<Move>, k: Pk, n: nat, next: nat)
    requires next == n + 1 <= |moves|
    ensures SentOut(moves, k, next) == SentOut(moves, k, n) + if moves[n].0 == k then moves[n].2 else 0
    ensures SentIn(moves, k, next) == SentIn(moves, k, n) + if moves[n].1 == k then moves[n].2 else 0
  {
  }

  lemma {:induction false} MovesKeepRoom(ctx: Context, cs: Changeset, moves: seq<Move>, n: nat, after: Changeset)
    requires n <= |moves| && LedgerOk(ctx, cs) && Total(View(ctx, cs)) <= U64_MAX && MoveAll(ctx, cs, moves, n) == Ok(after)
    ensures LedgerOk(ctx, after) && Total(View(ctx, after)) <= U64_MAX
  {
    AppliedMoves(ctx, cs, moves, n, Total(View(ctx, cs)), after);
  }

  lemma {:induction false} MovesBalances(ctx: Context, cs: Changeset, moves: seq<Move>, n: nat, after: Changeset, k: Pk)
    requires n <= |moves| && LedgerOk(ctx, cs) && Total(View(ctx, cs)) <= U64_MAX && MoveAll(ctx, cs, moves, n) == Ok(after)
    ensures Moves(ctx, cs, after, k, SentOut(moves, k, n), SentIn(moves, k, n))
  {
    if n > 0 {
      var p: nat := n - 1;
      var before := MoveBack(ctx, cs, moves, p, n, after);
      MovesBalances(ctx, cs, moves, p, before, k);
      MovesKeepRoom(ctx, cs, moves, p, before);
      SentNext(moves, k, p, n);
      MoveStep(ctx, cs, before, moves[p], after, k, SentOut(moves, k, p), SentIn(moves, k, p));
    }
  }

  /** A call that succeeds moves each balance by the transfers of its list, and nothing else. */
  lemma {:induction false} CallBalances(ctx: Context, cs: Changeset, rx: Reaction, moves: seq<Move>, cs': Changeset, k: Pk)
    requires LedgerOk(ctx, cs) && Total(View(ctx, cs)) <= U64_MAX && Dispatched(ctx, cs, rx, moves) == Ok(cs')
    ensures Moves(ctx, cs, cs', k, SentOut(moves, k, |moves|), SentIn(moves, k, |moves|))
  {
    var moved := MoveAll(ctx, cs, moves, |moves|).value;
    MovesBalances(ctx, cs, moves, |moves|, moved, k);
    AppliedMoves(ctx, cs, moves, |moves|, Total(View(ctx, cs)), moved);
    var a := LookupAtom(ctx, moved, rx.sender.publicKey).value;
    FoundOwnKey(ctx, moved, rx.sender.publicKey);
    PutMoves(ctx, moved, a.(nonce := SatAdd(a.nonce, 1), lastReactionHash := rx.hash), k);
  }

  /** What leaves the balance of `k`, and what comes in, when a reaction of any payload is accepted. */
  ghost function PaidAny(ctx: Context, engine: Engine, cs: Changeset, rx: Reaction, k: Pk): nat {
    if !rx.payload.ContractCall? then Paid(ctx, cs, rx, k)
    else if engine(rx).Err? then 0
    else SentOut(engine(rx).value.moves, k, |engine(rx).value.moves|)
  }

  ghost function GainedAny(ctx: Context, engine: Engine, cs: Changeset, rx: Reaction, k: Pk): nat {
    if !rx.payload.ContractCall? then Gained(ctx, cs, rx, k)
    else if engine(rx).Err? then 0
    else SentIn(engine(rx).value.moves, k, |engine(rx).value.moves|)
  }

  lemma {:induction false} AnyBalances(ctx: Context, engine: Engine, s: BatchState, rx: Reaction, batch: seq<Reaction>, s': BatchState, k: Pk)
    requires LedgerOk(ctx, s.cs) && ExecAny(ctx, engine, s, rx, batch) == Ok(s')
    requires Total(View(ctx, s.cs)) + Minted(ctx, s.cs, rx) <= U64_MAX
    ensures Moves(ctx, s.cs, s'.cs, k, PaidAny(ctx, engine, s.cs, rx, k), GainedAny(ctx, engine, s.cs, rx, k))
  {
    if rx.payload.ContractCall? {
      CallBalances(ctx, s.cs, rx, engine(rx).value.moves, s'.cs, k);
    } else {
      ExecBalances(ctx, s.cs, rx, batch, s.heat, s'.cs, k);
    }
  }

  ghost function AnyAfter(ctx: Context, engine: Engine, batch: seq<Reaction>, n: nat): Changeset
    requires n <= |batch|
  {
    var r := RunAny(ctx, engine, batch, n);
    if r.Ok? then r.value.cs else Changeset(map[], map[])
  }

  ghost function PaidInBatch(ctx: Context, engine: Engine, batch: seq<Reaction>, k: Pk, n: nat): nat
    requires n <= |batch|
  {
    if n == 0 then 0
    else PaidInBatch(ctx, engine, batch, k, n - 1) + PaidAny(ctx, engine, AnyAfter(ctx, engine, batch, n - 1), batch[n - 1], k)
  }

  ghost function GainedInBatch(ctx: Context, engine: Engine, batch: seq<Reaction>, k: Pk, n: nat): nat
    requires n <= |batch|
  {
    if n == 0 then 0
    else GainedInBatch(ctx, engine, batch, k, n - 1) + GainedAny(ctx, engine, AnyAfter(ctx, engine, batch, n - 1), batch[n - 1], k)
  }

  lemma {:induction false} BookedAny(ctx: Context, engine: Engine, batch: seq<Reaction>, k: Pk, n: nat, next: nat, cs: Changeset)
    requires next == n + 1 <= |batch| && cs == AnyAfter(ctx, engine, batch, n)
    ensures PaidInBatch(ctx, engine, batch, k, next) == PaidInBatch(ctx, engine, batch, k, n) + PaidAny(ctx, engine, cs, batch[n], k)
    ensures GainedInBatch(ctx, engine, batch, k, next) == GainedInBatch(ctx, engine, batch, k, n) + GainedAny(ctx, engine, cs, batch[n], k)
  {
  }

  /**
   Main result: over an accepted batch of any payloads every account ends with what it had, less what it paid and
   its calls' and others' lists took from it, and what it gained and they gave it.
   */
  lemma {:induction false} MixedBalances(ctx: Context, engine: Engine, batch: seq<Reaction>, k: Pk, n: nat, s: BatchState)
    requires n <= |batch| && RunAny(ctx, engine, batch, n) == Ok(s)
    requires OwnKeys(ctx.state) && ctx.architect in ctx.state
    requires Total(ctx.state) + MintedByFirst(ctx, engine, batch, n) <= U64_MAX
    ensures Balance(ctx, s.cs, k) + PaidInBatch(ctx, engine, batch, k, n) == MassAt(ctx.state, k) + GainedInBatch(ctx, engine, batch, k, n)
  {
    if n > 0 {
      var p: nat := n - 1;
      var before := RunAnyBack(ctx, engine, batch, p, n, s);
      MixedBalances(ctx, engine, batch, k, p, before);
      MixedMass(ctx, engine, batch, p, before);
      BookedAny(ctx, engine, batch, k, p, n, before.cs);
      AnyBalances(ctx, engine, before, batch[p], batch, s, k);
    }
  }
}
