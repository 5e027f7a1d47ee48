/**
 Nonce sequencing: over accepted batches, the reactions an account sends carry
 consecutive nonces, and nothing else moves its nonce, so none is accepted twice
 until the counter has reached its top.
 */
module LedgerNonce {
  import opened Basics
  import opened Hashing
  import opened Ledger
  import opened LedgerMass

  /** A reaction, other than a reward, sent by `pk`. */
  predicate Spends(rx: Reaction, pk: Pk) {
    !rx.payload.MiningReward? && rx.sender.publicKey == pk
  }

  /** From `cs` to `cs'` nothing disappears, keys stay right, and only `moved`'s nonce moves, by one. */
  ghost predicate NoncesStep(ctx: Context, cs: Changeset, cs': Changeset, moved: Option<Pk>) {
    && LedgerOk(ctx, cs')
    && forall k :: LookupAtom(ctx, cs, k).Some? ==>
         && LookupAtom(ctx, cs', k).Some?
         && LookupAtom(ctx, cs', k).value.nonce
            == if moved == Some(k) then SatAdd(LookupAtom(ctx, cs, k).value.nonce, 1) else LookupAtom(ctx, cs, k).value.nonce
  }

  lemma {:induction false} PutNonces(ctx: Context, cs: Changeset, a: Atom, moved: bool)
    requires LedgerOk(ctx, cs)
    requires LookupAtom(ctx, cs, a.publicKey).Some? ==>
      a.nonce == if moved then SatAdd(LookupAtom(ctx, cs, a.publicKey).value.nonce, 1)
                 else LookupAtom(ctx, cs, a.publicKey).value.nonce
    ensures NoncesStep(ctx, cs, Put(cs, a), if moved then Some(a.publicKey) else None)
  {
    ViewPut(ctx, cs, a.publicKey, a);
  }

  lemma {:induction false} NoncesTwoSteps(ctx: Context, cs: Changeset, cs': Changeset, cs'': Changeset, moved: Option<Pk>)
    requires NoncesStep(ctx, cs, cs', moved) && NoncesStep(ctx, cs', cs'', None)
    ensures NoncesStep(ctx, cs, cs'', moved)
  {
  }

  lemma {:induction false} FoundOwnKey(ctx: Context, cs: Changeset, pk: Pk)
    requires LedgerOk(ctx, cs)
    ensures LookupAtom(ctx, cs, pk).Some? ==> LookupAtom(ctx, cs, pk).value.publicKey == pk
  {
    LookupIsView(ctx, cs, pk);
  }

  lemma {:induction false} TransferNonces(ctx: Context, cs: Changeset, rx: Reaction)
    requires LedgerOk(ctx, cs) && rx.payload.Transfer? && ExecTransfer(ctx, cs, rx).Ok?
    ensures LookupAtom(ctx, cs, rx.sender.publicKey).Some?
    ensures NoncesStep(ctx, cs, ExecTransfer(ctx, cs, rx).value, Some(rx.sender.publicKey))
  {
    var cs1 := ExecTransferSender(ctx, cs, rx).value;
    TransferSenderNonces(ctx, cs, rx);
    TransferReceiverNonces(ctx, cs1, rx);
    NoncesTwoSteps(ctx, cs, cs1, ExecTransfer(ctx, cs, rx).value, Some(rx.sender.publicKey));
  }

  lemma {:induction false} TransferSenderNonces(ctx: Context, cs: Changeset, rx: Reaction)
    requires LedgerOk(ctx, cs) && rx.payload.Transfer? && ExecTransferSender(ctx, cs, rx).Ok?
    ensures NoncesStep(ctx, cs, ExecTransferSender(ctx, cs, rx).value, Some(rx.sender.publicKey))
  {
    var sender := LookupAtom(ctx, cs, rx.sender.publicKey).value;
    FoundOwnKey(ctx, cs, rx.sender.publicKey);
    PutNonces(ctx, cs, Evolve(ApplyDecay(ctx, Charge(sender, rx.payload.amount + Fee(rx.energy), rx))), true);
  }

  lemma {:induction false} TransferReceiverNonces(ctx: Context, cs: Changeset, rx: Reaction)
    requires LedgerOk(ctx, cs) && rx.payload.Transfer?
    ensures NoncesStep(ctx, cs, Put(cs, Evolve(Credit(ApplyDecay(ctx, TransferReceiver(ctx, cs, rx)), rx.payload.amount))), None)
  {
    FoundOwnKey(ctx, cs, rx.receiver.publicKey);
    PutNonces(ctx, cs, Evolve(Credit(ApplyDecay(ctx, TransferReceiver(ctx, cs, rx)), rx.payload.amount)), false);
  }

  lemma {:induction false} GenericNonces(ctx: Context, cs: Changeset, rx: Reaction)
    requires LedgerOk(ctx, cs) && ExecGeneric(ctx, cs, rx).Ok?
    ensures LookupAtom(ctx, cs, rx.sender.publicKey).Some?
    ensures NoncesStep(ctx, cs, ExecGeneric(ctx, cs, rx).value, Some(rx.sender.publicKey))
  {
    var cs1 := ExecGenericSender(ctx, cs, rx).value;
    GenericSenderNonces(ctx, cs, rx);
    GenericReceiverNonces(ctx, cs1, rx);
    NoncesTwoSteps(ctx, cs, cs1, GenericReceived(ctx, cs1, rx), Some(rx.sender.publicKey));
    ArchitectNonces(ctx, GenericReceived(ctx, cs1, rx), rx);
    NoncesTwoSteps(ctx, cs, GenericReceived(ctx, cs1, rx), ExecGeneric(ctx, cs, rx).value, Some(rx.sender.publicKey));
  }

  lemma {:induction false} GenericSenderNonces(ctx: Context, cs: Changeset, rx: Reaction)
    requires LedgerOk(ctx, cs) && ExecGenericSender(ctx, cs, rx).Ok?
    ensures LookupAtom(ctx, cs, rx.sender.publicKey).Some?
    ensures NoncesStep(ctx, cs, ExecGenericSender(ctx, cs, rx).value, Some(rx.sender.publicKey))
  {
    SenderKnown(ctx, cs, rx);
    FoundOwnKey(ctx, cs, rx.sender.publicKey);
    var s := Charge(LookupAtom(ctx, cs, rx.sender.publicKey).value, Fee(rx.energy) + Tax(ctx, rx), rx);
    assert ExecGenericSender(ctx, cs, rx) == Ok(Put(cs, s));
    PutNonces(ctx, cs, s, true);
  }

  ghost function GenericReceived(ctx: Context, cs: Changeset, rx: Reaction): Changeset {
    var found := LookupAtom(ctx, cs, rx.receiver.publicKey);
    Put(cs, Credit(if found.Some? then found.value else rx.receiver, Fee(rx.energy)))
  }

  lemma {:induction false} GenericReceiverNonces(ctx: Context, cs: Changeset, rx: Reaction)
    requires LedgerOk(ctx, cs)
    ensures NoncesStep(ctx, cs, GenericReceived(ctx, cs, rx), None)
  {
    FoundOwnKey(ctx, cs, rx.receiver.publicKey);
    var found := LookupAtom(ctx, cs, rx.receiver.publicKey);
    PutNonces(ctx, cs, Credit(if found.Some? then found.value else rx.receiver, Fee(rx.energy)), false);
  }

  lemma {:induction false} ArchitectNonces(ctx: Context, cs: Changeset, rx: Reaction)
    requires LedgerOk(ctx, cs)
    ensures NoncesStep(ctx, cs, cs, None)
    ensures LookupAtom(ctx, cs, ctx.architect).Some?
    ensures NoncesStep(ctx, cs,
      cs.(inner := cs.inner[ctx.architect := Credit(LookupAtom(ctx, cs, ctx.architect).value, Tax(ctx, rx))]), None)
  {
    LookupIsView(ctx, cs, ctx.architect);
    PutNonces(ctx, cs, Credit(LookupAtom(ctx, cs, ctx.architect).value, Tax(ctx, rx)), false);
  }

  lemma {:induction false} ContractNonces(ctx: Context, cs: Changeset, rx: Reaction)
    requires LedgerOk(ctx, cs) && rx.payload.Contract? && ExecContract(ctx, cs, rx).Ok?
    ensures LookupAtom(ctx, cs, rx.sender.publicKey).Some?
    ensures NoncesStep(ctx, cs, ExecContract(ctx, cs, rx).value, Some(rx.sender.publicKey))
  {
    var s := Charge(LookupAtom(ctx, cs, rx.sender.publicKey).value, |rx.payload.code| * 100, rx);
    FoundOwnKey(ctx, cs, rx.sender.publicKey);
    PutNonces(ctx, cs, s, true);
    assert View(ctx, ExecContract(ctx, cs, rx).value) == View(ctx, Put(cs, s));
  }

  lemma {:induction false} RewardNonces(ctx: Context, cs: Changeset, rx: Reaction)
    requires LedgerOk(ctx, cs) && rx.payload.MiningReward? && ExecReward(ctx, cs, rx).Ok?
    ensures NoncesStep(ctx, cs, ExecReward(ctx, cs, rx).value, None)
  {
    FoundOwnKey(ctx, cs, ctx.architect);
    PutNonces(ctx, cs, Credit(LookupAtom(ctx, cs, ctx.architect).value, rx.payload.reward).(lastReactionHash := rx.hash), false);
  }

  /** One accepted reaction carries its sender's nonce and moves that nonce only. */
  lemma {:induction false} ExecNonces(ctx: Context, cs: Changeset, rx: Reaction, batch: seq<Reaction>, heat: real)
    requires LedgerOk(ctx, cs) && Exec(ctx, cs, rx, batch, heat).Ok?
    ensures NoncesStep(ctx, cs, Exec(ctx, cs, rx, batch, heat).value,
                       if rx.payload.MiningReward? then None else Some(rx.sender.publicKey))
    ensures !rx.payload.MiningReward? ==>
      && LookupAtom(ctx, cs, rx.sender.publicKey).Some?
      && LookupAtom(ctx, cs, rx.sender.publicKey).value.nonce == rx.sender.nonce
  {
    match rx.payload
    case Transfer(_) => TransferNonces(ctx, cs, rx);
    case Generic => GenericNonces(ctx, cs, rx);
    case Contract(_) => ContractNonces(ctx, cs, rx);
    case MiningReward(_) => RewardNonces(ctx, cs, rx);
    case _ =>
  }

  /** How many of the first `n` reactions `pk` sent. */
  ghost function Sent(batch: seq<Reaction>, pk: Pk, n: nat): nat
    requires n <= |batch|
  {
    if n == 0 then 0 else Sent(batch, pk, n - 1) + if Spends(batch[n - 1], pk) then 1 else 0
  }

  lemma {:induction false} RunBack(ctx: Context, batch: seq<Reaction>, n: nat)
    requires 0 < n <= |batch| && Run(ctx, batch, n).Ok?
    ensures Run(ctx, batch, n - 1).Ok?
    ensures var before := Run(ctx, batch, n - 1).value;
      Exec(ctx, before.cs, batch[n - 1], batch, before.heat) == Ok(Run(ctx, batch, n).value.cs)
  {
  }

  /** The counter stops at the top. */
  function Cap(n: nat): u64 {
    if n <= U64_MAX then n else U64_MAX
  }

  ghost function NonceOf(ctx: Context, cs: Changeset, pk: Pk): Option<u64> {
    var a := LookupAtom(ctx, cs, pk);
    if a.Some? then Some(a.value.nonce) else None
  }

  /** `pk` has sent `count` reactions since it had the nonce `first`, none as long as it is not known. */
  ghost predicate Counts(ctx: Context, cs: Changeset, pk: Pk, first: u64, count: nat) {
    LedgerOk(ctx, cs) && match NonceOf(ctx, cs, pk) case Some(nonce) => nonce == Cap(first + count) case None => count == 0
  }

  /** From `cs` to `cs'` the account comes into being with the nonce `first`, if it does. */
  ghost predicate BornWith(ctx: Context, cs: Changeset, cs': Changeset, pk: Pk, first: u64) {
    NonceOf(ctx, cs, pk).None? && NonceOf(ctx, cs', pk).Some? ==> NonceOf(ctx, cs', pk) == Some(first)
  }

  lemma {:induction false} ExecCounts(ctx: Context, cs: Changeset, rx: Reaction, batch: seq<Reaction>, heat: real, cs': Changeset,
                                      pk: Pk, first: u64, count: nat)
    requires Exec(ctx, cs, rx, batch, heat) == Ok(cs') && Counts(ctx, cs, pk, first, count) && BornWith(ctx, cs, cs', pk, first)
    ensures Counts(ctx, cs', pk, first, count + if Spends(rx, pk) then 1 else 0)
    ensures Spends(rx, pk) ==> rx.sender.nonce == Cap(first + count)
    ensures NonceOf(ctx, cs, pk).Some? ==> NonceOf(ctx, cs', pk).Some?
  {
    ExecNonces(ctx, cs, rx, batch, heat);
  }

  lemma {:induction false} PutFinds(ctx: Context, cs: Changeset, a: Atom, pk: Pk)
    ensures LookupAtom(ctx, Put(cs, a), pk) == if pk == a.publicKey then Some(a) else LookupAtom(ctx, cs, pk)
  {
  }

  /** A transfer or Generic puts a receiver nobody knows on chain with the nonce the sender wrote down for it; nothing else does. */
  lemma {:induction false} CreationNonce(ctx: Context, cs: Changeset, rx: Reaction, batch: seq<Reaction>, heat: real, pk: Pk)
    requires LedgerOk(ctx, cs) && Exec(ctx, cs, rx, batch, heat).Ok? && NonceOf(ctx, cs, pk).None?
    ensures NonceOf(ctx, Exec(ctx, cs, rx, batch, heat).value, pk)
         == if (rx.payload.Transfer? || rx.payload.Generic?) && rx.receiver.publicKey == pk then Some(rx.receiver.nonce) else None
  {
    LookupIsView(ctx, cs, ctx.architect);
    match rx.payload
    case Transfer(_) => TransferCreates(ctx, cs, rx, pk);
    case Generic => GenericCreates(ctx, cs, rx, pk);
    case Contract(code) =>
      FoundOwnKey(ctx, cs, rx.sender.publicKey);
      PutFinds(ctx, cs, Charge(LookupAtom(ctx, cs, rx.sender.publicKey).value, |code| * 100, rx), pk);
    case _ =>
  }

  lemma {:induction false} TransferCreates(ctx: Context, cs: Changeset, rx: Reaction, pk: Pk)
    requires LedgerOk(ctx, cs) && rx.payload.Transfer? && ExecTransfer(ctx, cs, rx).Ok? && NonceOf(ctx, cs, pk).None?
    ensures NonceOf(ctx, ExecTransfer(ctx, cs, rx).value, pk) == if rx.receiver.publicKey == pk then Some(rx.receiver.nonce) else None
  {
    var cs1 := ExecTransferSender(ctx, cs, rx).value;
    var sender := LookupAtom(ctx, cs, rx.sender.publicKey).value;
    FoundOwnKey(ctx, cs, rx.sender.publicKey);
    PutFinds(ctx, cs, Evolve(ApplyDecay(ctx, Charge(sender, rx.payload.amount + Fee(rx.energy), rx))), pk);
    TransferSenderNonces(ctx, cs, rx);
    FoundOwnKey(ctx, cs1, rx.receiver.publicKey);
    PutFinds(ctx, cs1, Evolve(Credit(ApplyDecay(ctx, TransferReceiver(ctx, cs1, rx)), rx.payload.amount)), pk);
  }

  lemma {:induction false} GenericCreates(ctx: Context, cs: Changeset, rx: Reaction, pk: Pk)
    requires LedgerOk(ctx, cs) && ExecGeneric(ctx, cs, rx).Ok? && NonceOf(ctx, cs, pk).None?
    ensures NonceOf(ctx, ExecGeneric(ctx, cs, rx).value, pk) == if rx.receiver.publicKey == pk then Some(rx.receiver.nonce) else None
  {
    var cs1 := ExecGenericSender(ctx, cs, rx).value;
    SenderKnown(ctx, cs, rx);
    FoundOwnKey(ctx, cs, rx.sender.publicKey);
    PutFinds(ctx, cs, Charge(LookupAtom(ctx, cs, rx.sender.publicKey).value, Fee(rx.energy) + Tax(ctx, rx), rx), pk);
    GenericSenderNonces(ctx, cs, rx);
    FoundOwnKey(ctx, cs1, rx.receiver.publicKey);
    var found := LookupAtom(ctx, cs1, rx.receiver.publicKey);
    PutFinds(ctx, cs1, Credit(if found.Some? then found.value else rx.receiver, Fee(rx.energy)), pk);
    LookupIsView(ctx, cs, ctx.architect);
  }

  // ------------------------------------------------------------ one batch

  /** The states an accepted batch goes through. */
  ghost predicate Trace(ctx: Context, batch: seq<Reaction>, states: seq<BatchState>) {
    && |states| == |batch| + 1 && states[0].cs == Changeset(map[], map[])
    && forall n, next | 0 <= n < |batch| && next == n + 1 ::
         Exec(ctx, states[n].cs, batch[n], batch, states[n].heat) == Ok(states[next].cs)
  }

  /** The state after the first `n` reactions. */
  ghost function StateAfter(ctx: Context, batch: seq<Reaction>, n: nat): BatchState
    requires n <= |batch|
  {
    var r := Run(ctx, batch, n);
    if r.Ok? then r.value else BatchState(Changeset(map[], map[]), 0.0)
  }

  ghost function States(ctx: Context, batch: seq<Reaction>): seq<BatchState> {
    seq(|batch| + 1, n requires 0 <= n <= |batch| => StateAfter(ctx, batch, n))
  }

  lemma {:induction false} RunPrefix(ctx: Context, batch: seq<Reaction>, i: nat, n: nat)
    requires i <= n <= |batch| && Run(ctx, batch, n).Ok?
    ensures Run(ctx, batch, i).Ok?
  {
    if Run(ctx, batch, i).Err? { RunStops(ctx, batch, i, n); }
  }

  lemma {:induction false} TraceStep(ctx: Context, batch: seq<Reaction>, n: nat, next: nat)
    requires next == n + 1 <= |batch| && Run(ctx, batch, |batch|).Ok?
    ensures var s := StateAfter(ctx, batch, n);
      Exec(ctx, s.cs, batch[n], batch, s.heat) == Ok(StateAfter(ctx, batch, next).cs)
  {
    RunPrefix(ctx, batch, next, |batch|);
    RunBack(ctx, batch, next);
  }

  lemma {:induction false} RunTrace(ctx: Context, batch: seq<Reaction>)
    requires Run(ctx, batch, |batch|).Ok?
    ensures Trace(ctx, batch, States(ctx, batch))
    ensures States(ctx, batch)[|batch|] == Run(ctx, batch, |batch|).value
  {
    var states := States(ctx, batch);
    forall n, next | 0 <= n < |batch| && next == n + 1
      ensures Exec(ctx, states[n].cs, batch[n], batch, states[n].heat) == Ok(states[next].cs)
    {
      TraceStep(ctx, batch, n, next);
    }
  }

  /** Whichever reaction of a batch brings `pk` into being, it does so with the nonce `first`. */
  ghost predicate Born(ctx: Context, states: seq<BatchState>, pk: Pk, first: u64) {
    forall n, next | 0 <= n < next < |states| && next == n + 1 :: BornWith(ctx, states[n].cs, states[next].cs, pk, first)
  }

  /** `Counts` after the first `n` reactions of a batch, `before` sent in earlier ones. */
  ghost predicate CountsAfter(ctx: Context, batch: seq<Reaction>, states: seq<BatchState>, pk: Pk, first: u64, before: nat, n: nat)
    requires n <= |batch| < |states|
  {
    Counts(ctx, states[n].cs, pk, first, before + Sent(batch, pk, n))
  }

  lemma {:induction false} CountUpTo(ctx: Context, batch: seq<Reaction>, states: seq<BatchState>, pk: Pk, first: u64, before: nat, n: nat)
    requires n <= |batch| && Trace(ctx, batch, states) && Born(ctx, states, pk, first)
    requires CountsAfter(ctx, batch, states, pk, first, before, 0)
    ensures CountsAfter(ctx, batch, states, pk, first, before, n)
  {
    if n > 0 {
      var p: nat := n - 1;
      CountUpTo(ctx, batch, states, pk, first, before, p);
      StepCounts(ctx, batch, states, pk, first, before + Sent(batch, pk, p), p, n);
    }
  }

  lemma {:induction false} StepCounts(ctx: Context, batch: seq<Reaction>, states: seq<BatchState>, pk: Pk, first: u64, count: nat,
                                      n: nat, next: nat)
    requires next == n + 1 <= |batch| && Trace(ctx, batch, states) && Born(ctx, states, pk, first)
    requires Counts(ctx, states[n].cs, pk, first, count)
    ensures Counts(ctx, states[next].cs, pk, first, count + if Spends(batch[n], pk) then 1 else 0)
    ensures Spends(batch[n], pk) ==> batch[n].sender.nonce == Cap(first + count)
  {
    assert BornWith(ctx, states[n].cs, states[next].cs, pk, first);
    ExecCounts(ctx, states[n].cs, batch[n], batch, states[n].heat, states[next].cs, pk, first, count);
  }

  /** The nonce that reaction `i` of a batch should carry if `pk` sent it, `before` more in earlier batches. */
  ghost function Due(batch: seq<Reaction>, pk: Pk, first: u64, before: nat, i: nat): u64
    requires i <= |batch|
  {
    Cap(first + before + Sent(batch, pk, i))
  }

  lemma {:induction false} Carried(ctx: Context, batch: seq<Reaction>, states: seq<BatchState>, pk: Pk, first: u64, before: nat, i: nat)
    requires i < |batch| && Trace(ctx, batch, states) && Born(ctx, states, pk, first) && Spends(batch[i], pk)
    requires CountsAfter(ctx, batch, states, pk, first, before, 0)
    ensures batch[i].sender.nonce == Due(batch, pk, first, before, i)
  {
    CountUpTo(ctx, batch, states, pk, first, before, i);
    StepCounts(ctx, batch, states, pk, first, before + Sent(batch, pk, i), i, i + 1);
  }

  /** The first nonce of `pk`: the one it has at the start, or comes into being with. */
  ghost predicate FirstNonce(ctx: Context, batch: seq<Reaction>, pk: Pk, first: u64) {
    (pk in ctx.state ==> ctx.state[pk].nonce == first) && Born(ctx, States(ctx, batch), pk, first)
  }

  lemma {:induction false} CountsAtStart(ctx: Context, batch: seq<Reaction>, states: seq<BatchState>, pk: Pk, first: u64, before: nat)
    requires Trace(ctx, batch, states) && OwnKeys(ctx.state) && ctx.architect in ctx.state
    requires if pk in ctx.state then ctx.state[pk].nonce == Cap(first + before) else before == 0
    ensures CountsAfter(ctx, batch, states, pk, first, before, 0)
  {
    assert View(ctx, states[0].cs) == ctx.state;
  }

  /**
   Over an accepted batch an account's nonce counts the reactions it sent, from the nonce it had or came into being
   with, and each of them carried the count.
   */
  lemma {:induction false} BatchNonces(ctx: Context, batch: seq<Reaction>, pk: Pk, first: u64, i: nat)
    requires Run(ctx, batch, |batch|).Ok? && OwnKeys(ctx.state) && ctx.architect in ctx.state
    requires FirstNonce(ctx, batch, pk, first)
    ensures Counts(ctx, Run(ctx, batch, |batch|).value.cs, pk, first, Sent(batch, pk, |batch|))
    ensures i < |batch| && Spends(batch[i], pk) ==> batch[i].sender.nonce == Due(batch, pk, first, 0, i)
  {
    var states := States(ctx, batch);
    RunTrace(ctx, batch);
    CountsAtStart(ctx, batch, states, pk, first, 0);
    CountUpTo(ctx, batch, states, pk, first, 0, |batch|);
    if i < |batch| && Spends(batch[i], pk) { Carried(ctx, batch, states, pk, first, 0, i); }
  }

  // ------------------------------------------------------- runs of batches

  /**
   Batches accepted one after the other: each context starts from the state the one before left,
   which is what `apply_changeset` writes.
   */
  ghost predicate Accepted(ctxs: seq<Context>, batches: seq<seq<Reaction>>) {
    && |ctxs| == |batches|
    && (forall b | 0 <= b < |batches| :: Run(ctxs[b], batches[b], |batches[b]|).Ok?)
    && (forall b | 0 <= b < |batches| - 1 ::
          && ctxs[b + 1].architect == ctxs[b].architect
          && ctxs[b + 1].state == View(ctxs[b], Run(ctxs[b], batches[b], |batches[b]|).value.cs))
  }

  ghost function SentBefore(batches: seq<seq<Reaction>>, pk: Pk, b: nat): nat
    requires b <= |batches|
  {
    if b == 0 then 0 else SentBefore(batches, pk, b - 1) + Sent(batches[b - 1], pk, |batches[b - 1]|)
  }

  /** A run of accepted batches with the architect on chain, and `first` as the first nonce of `pk`. */
  ghost predicate Follows(ctxs: seq<Context>, batches: seq<seq<Reaction>>, pk: Pk, first: u64) {
    && Accepted(ctxs, batches)
    && (ctxs != [] ==>
          && OwnKeys(ctxs[0].state) && ctxs[0].architect in ctxs[0].state
          && (pk in ctxs[0].state ==> ctxs[0].state[pk].nonce == first))
    && forall b | 0 <= b < |batches| :: Born(ctxs[b], States(ctxs[b], batches[b]), pk, first)
  }

  lemma {:induction false} NextStart(ctx: Context, batch: seq<Reaction>, ctx': Context, pk: Pk, first: u64, count: nat)
    requires Run(ctx, batch, |batch|).Ok? && ctx'.architect == ctx.architect
    requires ctx'.state == View(ctx, Run(ctx, batch, |batch|).value.cs)
    requires Counts(ctx, Run(ctx, batch, |batch|).value.cs, pk, first, count)
    ensures OwnKeys(ctx'.state) && ctx'.architect in ctx'.state
    ensures if pk in ctx'.state then ctx'.state[pk].nonce == Cap(first + count) else count == 0
  {
    LookupIsView(ctx, Run(ctx, batch, |batch|).value.cs, pk);
  }

  lemma {:induction false} StartCounts(ctxs: seq<Context>, batches: seq<seq<Reaction>>, pk: Pk, first: u64, b: nat)
    requires Follows(ctxs, batches, pk, first) && b < |batches|
    ensures Trace(ctxs[b], batches[b], States(ctxs[b], batches[b]))
    ensures CountsAfter(ctxs[b], batches[b], States(ctxs[b], batches[b]), pk, first, SentBefore(batches, pk, b), 0)
  {
    RunTrace(ctxs[b], batches[b]);
    if b > 0 {
      var p: nat := b - 1;
      var batch, states := batches[p], States(ctxs[p], batches[p]);
      StartCounts(ctxs, batches, pk, first, p);
      assert ctxs[p + 1] == ctxs[b];
      CountUpTo(ctxs[p], batch, states, pk, first, SentBefore(batches, pk, p), |batch|);
      RunTrace(ctxs[p], batch);
      NextStart(ctxs[p], batch, ctxs[b], pk, first, SentBefore(batches, pk, b));
    }
    CountsAtStart(ctxs[b], batches[b], States(ctxs[b], batches[b]), pk, first, SentBefore(batches, pk, b));
  }

  // ------------------------------------------ every account has a first nonce

  lemma {:induction false} TraceNonces(ctx: Context, batch: seq<Reaction>, states: seq<BatchState>, n: nat, next: nat)
    requires next == n + 1 <= |batch| && Trace(ctx, batch, states) && LedgerOk(ctx, states[n].cs)
    ensures NoncesStep(ctx, states[n].cs, states[next].cs, if batch[n].payload.MiningReward? then None else Some(batch[n].sender.publicKey))
  {
    assert Exec(ctx, states[n].cs, batch[n], batch, states[n].heat) == Ok(states[next].cs);
    ExecNonces(ctx, states[n].cs, batch[n], batch, states[n].heat);
  }

  lemma {:induction false} LedgerStays(ctx: Context, batch: seq<Reaction>, states: seq<BatchState>, n: nat)
    requires n <= |batch| && Trace(ctx, batch, states) && OwnKeys(ctx.state) && ctx.architect in ctx.state
    ensures LedgerOk(ctx, states[n].cs)
  {
    if n == 0 {
      assert View(ctx, states[0].cs) == ctx.state;
    } else {
      var p: nat := n - 1;
      LedgerStays(ctx, batch, states, p);
      TraceNonces(ctx, batch, states, p, n);
    }
  }

  lemma {:induction false} KnownStays(ctx: Context, batch: seq<Reaction>, states: seq<BatchState>, pk: Pk, m: nat, n: nat)
    requires m <= n <= |batch| && Trace(ctx, batch, states) && OwnKeys(ctx.state) && ctx.architect in ctx.state
    requires NonceOf(ctx, states[m].cs, pk).Some?
    ensures NonceOf(ctx, states[n].cs, pk).Some?
  {
    if m < n {
      var p: nat := n - 1;
      KnownStays(ctx, batch, states, pk, m, p);
      LedgerStays(ctx, batch, states, p);
      TraceNonces(ctx, batch, states, p, n);
    }
  }

  lemma {:induction false} KnownIsNotBorn(ctx: Context, batch: seq<Reaction>, states: seq<BatchState>, pk: Pk, first: u64)
    requires Trace(ctx, batch, states) && OwnKeys(ctx.state) && ctx.architect in ctx.state && pk in ctx.state
    ensures Born(ctx, states, pk, first)
  {
    forall n, next | 0 <= n < next < |states| && next == n + 1 ensures BornWith(ctx, states[n].cs, states[next].cs, pk, first) {
      KnownStays(ctx, batch, states, pk, 0, n);
    }
  }

  /** An account comes into being once. */
  lemma {:induction false} BornOnce(ctx: Context, batch: seq<Reaction>, states: seq<BatchState>, pk: Pk, at: nat, next: nat, first: u64)
    requires Trace(ctx, batch, states) && OwnKeys(ctx.state) && ctx.architect in ctx.state
    requires next == at + 1 <= |batch| && NonceOf(ctx, states[at].cs, pk).None? && NonceOf(ctx, states[next].cs, pk) == Some(first)
    ensures Born(ctx, states, pk, first)
  {
    forall m, after | 0 <= m < after < |states| && after == m + 1 ensures BornWith(ctx, states[m].cs, states[after].cs, pk, first) {
      if after <= at && NonceOf(ctx, states[after].cs, pk).Some? {
        KnownStays(ctx, batch, states, pk, after, at);
        assert false;
      }
      if m > at { KnownStays(ctx, batch, states, pk, next, m); }
    }
  }

  ghost predicate BornFrom(ctxs: seq<Context>, batches: seq<seq<Reaction>>, pk: Pk, first: u64, b: nat)
    requires |ctxs| == |batches|
  {
    forall c | b <= c < |batches| :: Born(ctxs[c], States(ctxs[c], batches[c]), pk, first)
  }

  /** The next batch starts with the accounts the one before left. */
  lemma {:induction false} NextKnows(ctxs: seq<Context>, batches: seq<seq<Reaction>>, pk: Pk, b: nat, next: nat)
    requires Accepted(ctxs, batches) && next == b + 1 < |batches| && OwnKeys(ctxs[b].state) && ctxs[b].architect in ctxs[b].state
    ensures OwnKeys(ctxs[next].state) && ctxs[next].architect in ctxs[next].state
    ensures pk in ctxs[next].state <==> NonceOf(ctxs[b], States(ctxs[b], batches[b])[|batches[b]|].cs, pk).Some?
  {
    var states := States(ctxs[b], batches[b]);
    RunTrace(ctxs[b], batches[b]);
    LedgerStays(ctxs[b], batches[b], states, |batches[b]|);
    assert ctxs[b + 1] == ctxs[next];
    LookupIsView(ctxs[b], states[|batches[b]|].cs, pk);
  }

  lemma {:induction false} KnownIsNeverBorn(ctxs: seq<Context>, batches: seq<seq<Reaction>>, pk: Pk, first: u64, b: nat)
    requires Accepted(ctxs, batches) && b < |batches| && OwnKeys(ctxs[b].state) && ctxs[b].architect in ctxs[b].state
    requires pk in ctxs[b].state
    ensures BornFrom(ctxs, batches, pk, first, b)
    decreases |batches| - b
  {
    var ctx, batch, states := ctxs[b], batches[b], States(ctxs[b], batches[b]);
    RunTrace(ctx, batch);
    KnownIsNotBorn(ctx, batch, states, pk, first);
    if b + 1 < |batches| {
      KnownStays(ctx, batch, states, pk, 0, |batch|);
      NextKnows(ctxs, batches, pk, b, b + 1);
      KnownIsNeverBorn(ctxs, batches, pk, first, b + 1);
    }
  }

  /** Reaction `at` of a batch brings `pk` into being. */
  ghost predicate BirthAt(ctx: Context, states: seq<BatchState>, pk: Pk, at: nat, next: nat) {
    next == at + 1 < |states| && NonceOf(ctx, states[at].cs, pk).None? && NonceOf(ctx, states[next].cs, pk).Some?
  }

  lemma {:induction false} NotBorn(ctx: Context, states: seq<BatchState>, pk: Pk, first: u64)
    requires !exists at, next :: BirthAt(ctx, states, pk, at, next)
    ensures Born(ctx, states, pk, first)
  {
    forall n, next | 0 <= n < next < |states| && next == n + 1 ensures BornWith(ctx, states[n].cs, states[next].cs, pk, first) {
      assert !BirthAt(ctx, states, pk, n, next);
    }
  }

  lemma {:induction false} BornInBatch(ctxs: seq<Context>, batches: seq<seq<Reaction>>, pk: Pk, b: nat, at: nat, next: nat) returns (first: u64)
    requires Accepted(ctxs, batches) && b < |batches| && OwnKeys(ctxs[b].state) && ctxs[b].architect in ctxs[b].state
    requires BirthAt(ctxs[b], States(ctxs[b], batches[b]), pk, at, next)
    ensures BornFrom(ctxs, batches, pk, first, b)
  {
    var ctx, batch, states := ctxs[b], batches[b], States(ctxs[b], batches[b]);
    RunTrace(ctx, batch);
    first := NonceOf(ctx, states[next].cs, pk).value;
    BornOnce(ctx, batch, states, pk, at, next, first);
    if b + 1 < |batches| {
      KnownStays(ctx, batch, states, pk, next, |batch|);
      NextKnows(ctxs, batches, pk, b, b + 1);
      KnownIsNeverBorn(ctxs, batches, pk, first, b + 1);
    }
    BornFromHere(ctxs, batches, pk, first, b, b + 1);
  }

  lemma {:induction false} BornFromHere(ctxs: seq<Context>, batches: seq<seq<Reaction>>, pk: Pk, first: u64, b: nat, next: nat)
    requires |ctxs| == |batches| && next == b + 1 <= |batches| && Born(ctxs[b], States(ctxs[b], batches[b]), pk, first)
    requires next < |batches| ==> BornFrom(ctxs, batches, pk, first, next)
    ensures BornFrom(ctxs, batches, pk, first, b)
  {
  }

  lemma {:induction false} BornLater(ctxs: seq<Context>, batches: seq<seq<Reaction>>, pk: Pk, b: nat) returns (first: u64)
    requires Accepted(ctxs, batches) && b < |batches| && OwnKeys(ctxs[b].state) && ctxs[b].architect in ctxs[b].state
    ensures BornFrom(ctxs, batches, pk, first, b)
    decreases |batches| - b
  {
    if at, next :| BirthAt(ctxs[b], States(ctxs[b], batches[b]), pk, at, next) {
      first := BornInBatch(ctxs, batches, pk, b, at, next);
    } else {
      first := 0;
      if b + 1 < |batches| {
        NextKnows(ctxs, batches, pk, b, b + 1);
        first := BornLater(ctxs, batches, pk, b + 1);
      }
      NotBorn(ctxs[b], States(ctxs[b], batches[b]), pk, first);
      BornFromHere(ctxs, batches, pk, first, b, b + 1);
    }
  }

  /** In any accepted run every account, on chain at the start or not, has a first nonce, so the results below are about all. */
  lemma {:induction false} EveryAccountFollows(ctxs: seq<Context>, batches: seq<seq<Reaction>>, pk: Pk) returns (first: u64)
    requires Accepted(ctxs, batches)
    requires ctxs != [] ==> OwnKeys(ctxs[0].state) && ctxs[0].architect in ctxs[0].state
    ensures Follows(ctxs, batches, pk, first)
  {
    first := 0;
    if ctxs != [] {
      if pk in ctxs[0].state {
        first := ctxs[0].state[pk].nonce;
        KnownIsNeverBorn(ctxs, batches, pk, first, 0);
      } else {
        first := BornLater(ctxs, batches, pk, 0);
      }
    }
  }

  // ------------------------------------------------------- nonces in a run

  lemma {:induction false} SentMonotone(batch: seq<Reaction>, pk: Pk, m: nat, n: nat)
    requires m <= n <= |batch|
    ensures Sent(batch, pk, m) <= Sent(batch, pk, n)
  {
    if m < n { SentMonotone(batch, pk, m, n - 1); }
  }

  lemma {:induction false} SentBeforeMonotone(batches: seq<seq<Reaction>>, pk: Pk, a: nat, b: nat)
    requires a <= b <= |batches|
    ensures SentBefore(batches, pk, a) <= SentBefore(batches, pk, b)
  {
    if a < b { SentBeforeMonotone(batches, pk, a, b - 1); }
  }

  /** Reaction `i` of batch `b` is one of those `pk` sent. */
  predicate Sends(batches: seq<seq<Reaction>>, pk: Pk, b: nat, i: nat) {
    b < |batches| && i < |batches[b]| && Spends(batches[b][i], pk)
  }

  /** How many reactions `pk` sent before reaction `i` of batch `b`. */
  ghost function CountAt(batches: seq<seq<Reaction>>, pk: Pk, b: nat, i: nat): nat
    requires b < |batches| && i <= |batches[b]|
  {
    SentBefore(batches, pk, b) + Sent(batches[b], pk, i)
  }

  predicate Earlier(b: nat, i: nat, c: nat, j: nat) {
    b < c || (b == c && i < j)
  }

  /**
   Main result: reaction `i` of batch `b` carries the first nonce of the account that sent it plus the number of
   reactions it sent before, in all batches up to there, as far as the counter goes.
   */
  lemma {:induction false} RunNonces(ctxs: seq<Context>, batches: seq<seq<Reaction>>, pk: Pk, first: u64, b: nat, i: nat)
    requires Follows(ctxs, batches, pk, first) && Sends(batches, pk, b, i)
    ensures batches[b][i].sender.nonce == Cap(first + CountAt(batches, pk, b, i))
  {
    StartCounts(ctxs, batches, pk, first, b);
    Carried(ctxs[b], batches[b], States(ctxs[b], batches[b]), pk, first, SentBefore(batches, pk, b), i);
  }

  lemma {:induction false} CountOrder(batches: seq<seq<Reaction>>, pk: Pk, b: nat, i: nat, c: nat, j: nat)
    requires Sends(batches, pk, b, i) && c < |batches| && j <= |batches[c]| && Earlier(b, i, c, j)
    ensures CountAt(batches, pk, b, i) < CountAt(batches, pk, c, j)
  {
    if b < c {
      SentMonotone(batches[b], pk, i + 1, |batches[b]|);
      SentBeforeMonotone(batches, pk, b + 1, c);
    } else {
      SentMonotone(batches[b], pk, i + 1, j);
    }
  }

  lemma {:induction false} CountBelowTotal(batches: seq<seq<Reaction>>, pk: Pk, b: nat, i: nat)
    requires Sends(batches, pk, b, i)
    ensures CountAt(batches, pk, b, i) < SentBefore(batches, pk, |batches|)
  {
    SentMonotone(batches[b], pk, i + 1, |batches[b]|);
    SentBeforeMonotone(batches, pk, b + 1, |batches|);
  }

  lemma {:induction false} NthInBatch(batch: seq<Reaction>, pk: Pk, n: nat, k: nat) returns (i: nat)
    requires n <= |batch| && k < Sent(batch, pk, n)
    ensures i < n && Spends(batch[i], pk) && Sent(batch, pk, i) == k
  {
    if k < Sent(batch, pk, n - 1) { i := NthInBatch(batch, pk, n - 1, k); } else { i := n - 1; }
  }

  /** The `k`-th reaction `pk` sent. */
  lemma {:induction false} NthSent(batches: seq<seq<Reaction>>, pk: Pk, n: nat, k: nat) returns (b: nat, i: nat)
    requires n <= |batches| && k < SentBefore(batches, pk, n)
    ensures Sends(batches, pk, b, i) && CountAt(batches, pk, b, i) == k
  {
    if k < SentBefore(batches, pk, n - 1) {
      b, i := NthSent(batches, pk, n - 1, k);
    } else {
      b := n - 1;
      i := NthInBatch(batches[b], pk, |batches[b]|, k - SentBefore(batches, pk, b));
    }
  }

  /** No two reactions `pk` sent carry the same nonce. */
  ghost predicate DifferentNonces(batches: seq<seq<Reaction>>, pk: Pk) {
    forall b: nat, i: nat, c: nat, j: nat | Sends(batches, pk, b, i) && Sends(batches, pk, c, j) && Earlier(b, i, c, j) ::
      batches[b][i].sender.nonce != batches[c][j].sender.nonce
  }

  /**
   Main result: in a run of accepted batches the reactions of an account carry pairwise different nonces if
   and only if its first nonce plus their number does not go past the top of the counter by more than one.
   */
  lemma {:induction false} NoReplayExactly(ctxs: seq<Context>, batches: seq<seq<Reaction>>, pk: Pk, first: u64)
    requires Follows(ctxs, batches, pk, first)
    ensures DifferentNonces(batches, pk) <==> first + SentBefore(batches, pk, |batches|) <= U64_MAX + 1
  {
    var total := SentBefore(batches, pk, |batches|);
    if first + total <= U64_MAX + 1 {
      forall b: nat, i: nat, c: nat, j: nat | Sends(batches, pk, b, i) && Sends(batches, pk, c, j) && Earlier(b, i, c, j)
        ensures batches[b][i].sender.nonce != batches[c][j].sender.nonce
      {
        NoReplay(ctxs, batches, pk, first, b, i, c, j);
      }
    } else {
      var b, i := NthSent(batches, pk, |batches|, total - 2);
      var c, j := NthSent(batches, pk, |batches|, total - 1);
      RunNonces(ctxs, batches, pk, first, b, i);
      RunNonces(ctxs, batches, pk, first, c, j);
      if !Earlier(b, i, c, j) && (b, i) != (c, j) { CountOrder(batches, pk, c, j, b, i); }
    }
  }

  /** In particular no reaction of such an account is accepted twice, in one batch or in two, and later ones carry higher nonces. */
  lemma {:induction false} NoReplay(ctxs: seq<Context>, batches: seq<seq<Reaction>>, pk: Pk, first: u64, b: nat, i: nat, c: nat, j: nat)
    requires Follows(ctxs, batches, pk, first) && Sends(batches, pk, b, i) && Sends(batches, pk, c, j) && Earlier(b, i, c, j)
    requires first + SentBefore(batches, pk, |batches|) <= U64_MAX + 1
    ensures batches[b][i].sender.nonce < batches[c][j].sender.nonce
    ensures batches[b][i] != batches[c][j]
  {
    RunNonces(ctxs, batches, pk, first, b, i);
    RunNonces(ctxs, batches, pk, first, c, j);
    CountOrder(batches, pk, b, i, c, j);
    CountBelowTotal(batches, pk, c, j);
  }

  /** At the top of the counter the nonce sticks. */
  lemma {:induction false} NonceSticksAtTop(ctx: Context, cs: Changeset, rx: Reaction, batch: seq<Reaction>, heat: real)
    requires LedgerOk(ctx, cs) && Exec(ctx, cs, rx, batch, heat).Ok? && !rx.payload.MiningReward?
    requires rx.sender.nonce == U64_MAX
    ensures LookupAtom(ctx, Exec(ctx, cs, rx, batch, heat).value, rx.sender.publicKey).Some?
    ensures LookupAtom(ctx, Exec(ctx, cs, rx, batch, heat).value, rx.sender.publicKey).value.nonce == rx.sender.nonce
  {
    ExecNonces(ctx, cs, rx, batch, heat);
  }

  /** The architect, who pays for everything. */
  function Giver(): Atom {
    Atom([], Hydrogen, 0, 1000, 2.20, Zero(), 0, 0, Stable)
  }

  /** An account not on chain yet; the nonce is what its first payer writes down. */
  function Fresh(): Atom {
    Atom([1], Hydrogen, 0, 0, 2.20, Zero(), 0, U64_MAX, Stable)
  }

  function GiverContext(): Context {
    Context(map[[] := Giver()], [], 0, (pk: Pk, rx: Reaction) => true, (rx: Reaction) => 0.0,
            (n: nat, c: real) => 0, (n: u64, c: real) => 0, (m: u64, n: nat) => 0, (code: Bytes) => Zero())
  }

  /** 100 for the new account, for a fee of 1. */
  function Gift(): Reaction {
    Reaction(Giver(), Fresh(), Zero(), 1.0, [], Transfer(100))
  }

  /** It sends 10 to itself, for a fee of 1. */
  function ToSelf(): Reaction {
    Reaction(Fresh(), Fresh(), Zero(), 1.0, [], Transfer(10))
  }

  /**
   An account that came into being at the top of the counter has one and the same reaction accepted twice, in
   one batch, and pays for it twice.
   */
  lemma {:induction false} AcceptedTwice()
    ensures Fresh().publicKey !in GiverContext().state
    ensures var r := Run(GiverContext(), [Gift(), ToSelf(), ToSelf()], 3);
      && r.Ok? && Fresh().publicKey in r.value.cs.inner
      && r.value.cs.inner[Fresh().publicKey].nonce == U64_MAX
      && r.value.cs.inner[Fresh().publicKey].mass == 98
  {
    var ctx, batch := GiverContext(), [Gift(), ToSelf(), ToSelf()];
    var none := Changeset(map[], map[]);
    assert Run(ctx, batch, 0) == Ok(BatchState(none, 0.0));
    GiftCreates(ctx, batch, none);
    var born := Exec(ctx, none, batch[0], batch, 0.0).value;
    assert Run(ctx, batch, 1) == Ok(BatchState(born, HeatAfter(ctx, batch[0], 0.0)));
    OnceMore(ctx, batch, born, Fresh().(mass := 100), 0.0);
    var once := Exec(ctx, born, batch[1], batch, 0.0).value;
    assert Run(ctx, batch, 2) == Ok(BatchState(once, HeatAfter(ctx, batch[1], 0.0)));
    OnceMore(ctx, batch, once, Fresh().(mass := 99), 0.0);
    var twice := Exec(ctx, once, batch[2], batch, 0.0).value;
    assert Run(ctx, batch, 3) == Ok(BatchState(twice, HeatAfter(ctx, batch[2], 0.0)));
  }

  lemma {:induction false} GiftCreates(ctx: Context, batch: seq<Reaction>, cs: Changeset)
    requires ctx == GiverContext() && cs == Changeset(map[], map[])
    ensures Exec(ctx, cs, Gift(), batch, 0.0).Ok?
    ensures LookupAtom(ctx, Exec(ctx, cs, Gift(), batch, 0.0).value, [1]) == Some(Fresh().(mass := 100))
  {
    var rx := Gift();
    assert Fee(1.0) == 1;
    var paid := Put(cs, Giver().(mass := 899, nonce := 1));
    assert ExecTransferSender(ctx, cs, rx) == Ok(paid);
    assert TransferReceiver(ctx, paid, rx) == Fresh();
  }

  lemma {:induction false} OnceMore(ctx: Context, batch: seq<Reaction>, cs: Changeset, a: Atom, heat: real)
    requires ctx == GiverContext() && heat == 0.0 && LookupAtom(ctx, cs, [1]) == Some(a)
    requires a.(mass := 0) == Fresh() && 11 <= a.mass <= 100
    ensures Exec(ctx, cs, ToSelf(), batch, heat).Ok?
    ensures LookupAtom(ctx, Exec(ctx, cs, ToSelf(), batch, heat).value, [1]) == Some(a.(mass := a.mass - 1))
    ensures [1] in Exec(ctx, cs, ToSelf(), batch, heat).value.inner
  {
    assert Fee(1.0) == 1;
    var rx, paid := ToSelf(), a.(mass := a.mass - 11);
    assert ExecTransferSender(ctx, cs, rx) == Ok(Put(cs, paid));
    assert TransferReceiver(ctx, Put(cs, paid), rx) == paid;
  }
}
