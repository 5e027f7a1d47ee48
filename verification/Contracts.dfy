/**
 Contract transfers: the list of transfers the host function lets a contract
 request, and the dispatcher that applies it to the running changeset.
 */
module Contracts {
  import opened Basics
  import opened Hashing
  import opened Ledger
  import opened LedgerMass

  /** (from, to, amount) */
  type Move = (Pk, Pk, u64)

  const I64_MAX := 0x7FFF_FFFF_FFFF_FFFF

  function BaseMass(atoms: Atoms, pk: Pk): u64 {
    if pk in atoms then atoms[pk].mass else 0
  }

  function SumUpTo(moves: seq<Move>, n: nat): nat
    requires n <= |moves|
  {
    if n == 0 then 0 else SumUpTo(moves, n - 1) + moves[n - 1].2
  }

  /** Lists the host function builds: all from the caller, positive, and within its chain balance. */
  ghost predicate HostAccepts(atoms: Atoms, caller: Pk, moves: seq<Move>) {
    && (forall m | m in moves :: m.0 == caller && 0 < m.2 <= I64_MAX)
    && SumUpTo(moves, |moves|) <= BaseMass(atoms, caller)
  }

  /** The state a running contract sees through the host. */
  class HostState {
    const atoms: Atoms
    const callerPk: Pk
    var transfers: seq<Move>

    ghost predicate Valid()
      reads this
    {
      HostAccepts(atoms, callerPk, transfers)
    }

    constructor (atoms: Atoms, callerPk: Pk)
      ensures Valid() && this.atoms == atoms && this.callerPk == callerPk && transfers == []
    {
      this.atoms, this.callerPk, transfers := atoms, callerPk, [];
    }

    /** `amount` is the signed argument; `charged` and the two keys stand for gas and memory reads. */
    method TransferMass(charged: bool, from: Option<Pk>, to: Option<Pk>, amount: int) returns (code: int)
      requires -I64_MAX - 1 <= amount <= I64_MAX
      requires Valid()
      modifies this
      ensures Valid()
      ensures code == 0 ==> amount > 0 && from == Some(callerPk) && to.Some? && charged
                            && transfers == old(transfers) + [(callerPk, to.value, amount)]
      ensures code != 0 ==> transfers == old(transfers)
      ensures if !charged then code == 4
              else if amount <= 0 || from.None? || to.None? then code == 3
              else if from.value != callerPk then code == 2
              else code in {0, 1}
      ensures charged && amount > 0 && from == Some(callerPk) && to.Some? ==>
        (code == 0 <==> SumUpTo(old(transfers), |old(transfers)|) + amount <= BaseMass(atoms, callerPk))
    {
      if !charged { return 4; }
      if amount <= 0 { return 3; }
      if from.None? { return 3; }
      if to.None? { return 3; }
      if from.value != callerPk { return 2; }
      var pendingOut: u64, pending := 0, transfers;
      for i := 0 to |pending|
        invariant transfers == pending && pendingOut == SumUpTo(pending, i)
      {
        SumMonotone(pending, i + 1, |pending|);
        if pending[i].0 == callerPk { pendingOut := SatAdd(pendingOut, pending[i].2); }
      }
      if SatSub(BaseMass(atoms, callerPk), pendingOut) < amount { return 1; }
      transfers := transfers + [(callerPk, to.value, amount)];
      SumPrefix(pending, transfers, |pending|);
      code := 0;
    }
  }

  lemma {:induction false} SumMonotone(moves: seq<Move>, m: nat, n: nat)
    requires m <= n <= |moves|
    ensures SumUpTo(moves, m) <= SumUpTo(moves, n)
  {
    if m < n { SumMonotone(moves, m, n - 1); }
  }

  lemma {:induction false} SumPrefix(a: seq<Move>, b: seq<Move>, n: nat)
    requires n <= |a| && a <= b
    ensures SumUpTo(a, n) == SumUpTo(b, n)
  {
    if n > 0 { SumPrefix(a, b, n - 1); }
  }

  function NewReceiver(pk: Pk): Atom {
    Atom(pk, Hydrogen, 0, 0, 2.20, Zero(), 0, 0, Stable)
  }

  /** Set the mass of the atom found at `pk`. */
  function WithMass(cs: Changeset, pk: Pk, a: Atom, mass: u64): Changeset {
    cs.(inner := cs.inner[pk := a.(mass := mass)])
  }

  /** The receiver of a move: the atom found, or a new one of mass 0. */
  function MoveReceiver(ctx: Context, cs: Changeset, pk: Pk): Atom {
    var found := LookupAtom(ctx, cs, pk);
    if found.Some? then found.value else NewReceiver(pk)
  }

  function MoveIn(ctx: Context, cs: Changeset, pk: Pk, amount: u64): Changeset {
    var receiver := MoveReceiver(ctx, cs, pk);
    WithMass(cs, pk, receiver, SatAdd(receiver.mass, amount))
  }

  function Move1(ctx: Context, cs: Changeset, m: Move): Result<Changeset, PvmError> {
    var sender := LookupAtom(ctx, cs, m.0);
    if sender.None? then Err(AtomNotFound)
    else if sender.value.mass < m.2 then Err(InsufficientMass)
    else Ok(MoveIn(ctx, WithMass(cs, m.0, sender.value, sender.value.mass - m.2), m.1, m.2))
  }

  function MoveAll(ctx: Context, cs: Changeset, moves: seq<Move>, n: nat): Result<Changeset, PvmError>
    requires n <= |moves|
  {
    if n == 0 then Ok(cs)
    else
      var before := MoveAll(ctx, cs, moves, n - 1);
      if before.Err? then before else Move1(ctx, before.value, moves[n - 1])
  }

  /** The caller's nonce and last reaction, after the transfers. */
  function Dispatched(ctx: Context, cs: Changeset, rx: Reaction, moves: seq<Move>): Result<Changeset, PvmError> {
    var moved := MoveAll(ctx, cs, moves, |moves|);
    if moved.Err? then moved
    else
      var sender := LookupAtom(ctx, moved.value, rx.sender.publicKey);
      if sender.None? then Err(AtomNotFound)
      else
        var s := sender.value.(nonce := SatAdd(sender.value.nonce, 1), lastReactionHash := rx.hash);
        Ok(moved.value.(inner := moved.value.inner[rx.sender.publicKey := s]))
  }

  /** Apply a contract's transfers to the running changeset, then move the caller's nonce on. */
  method DispatchContract(ctx: Context, rx: Reaction, moves: seq<Move>, cs: Changeset)
    returns (running: Changeset, e: Option<PvmError>)
    ensures match Dispatched(ctx, cs, rx, moves)
            case Ok(done) => e.None? && running == done
            case Err(error) => e == Some(error)
  {
    running := cs;
    for i := 0 to |moves|
      invariant MoveAll(ctx, cs, moves, i) == Ok(running)
    {
      var moved := ApplyMove(ctx, running, moves[i]);
      if moved.Err? {
        MovesStop(ctx, cs, moves, i + 1, |moves|);
        return running, Some(moved.error);
      }
      running := moved.value;
    }
    var sender := LookupAtom(ctx, running, rx.sender.publicKey);
    if sender.None? { return running, Some(AtomNotFound); }
    var s := sender.value.(nonce := SatAdd(sender.value.nonce, 1));
    s := s.(lastReactionHash := rx.hash);
    running := running.(inner := running.inner[rx.sender.publicKey := s]);
    e := None;
  }

  /** Debit one account, then credit the other, which may be the same. */
  method ApplyMove(ctx: Context, cs: Changeset, m: Move) returns (r: Result<Changeset, PvmError>)
    ensures r == Move1(ctx, cs, m)
  {
    var (from, to, amount) := m;
    var sender := LookupAtom(ctx, cs, from);
    if sender.None? { return Err(AtomNotFound); }
    if sender.value.mass < amount { return Err(InsufficientMass); }
    var inner := cs.inner[from := sender.value.(mass := sender.value.mass - amount)];
    var found := LookupAtom(ctx, cs.(inner := inner), to);
    var receiver := if found.Some? then found.value else NewReceiver(to);
    inner := inner[to := receiver.(mass := SatAdd(receiver.mass, amount))];
    return Ok(cs.(inner := inner));
  }

  lemma {:induction false} MovesStop(ctx: Context, cs: Changeset, moves: seq<Move>, i: nat, n: nat)
    requires i <= n <= |moves| && MoveAll(ctx, cs, moves, i).Err?
    ensures MoveAll(ctx, cs, moves, n) == MoveAll(ctx, cs, moves, i)
  {
    if i < n { MovesStop(ctx, cs, moves, i, n - 1); }
  }

  /** Setting the mass of an atom, found or new: what happens to the total and to the other balances. */
  lemma {:induction false} SetMass(ctx: Context, cs: Changeset, pk: Pk, a: Atom, mass: u64, k: Pk)
    requires OwnKeys(View(ctx, cs)) && a.publicKey == pk
    ensures OwnKeys(View(ctx, WithMass(cs, pk, a, mass)))
    ensures Total(View(ctx, WithMass(cs, pk, a, mass))) + Balance(ctx, cs, pk) == Total(View(ctx, cs)) + mass
    ensures Balance(ctx, cs, pk) <= Total(View(ctx, cs))
    ensures Balance(ctx, WithMass(cs, pk, a, mass), k) == if k == pk then mass else Balance(ctx, cs, k)
  {
    ViewPut(ctx, cs, pk, a.(mass := mass));
    TotalPut(View(ctx, cs), pk, a.(mass := mass));
    LookupIsView(ctx, cs, pk);
  }

  lemma {:induction false} MoveInTotal(ctx: Context, cs: Changeset, pk: Pk, amount: u64, k: Pk)
    requires OwnKeys(View(ctx, cs)) && Total(View(ctx, cs)) + amount <= U64_MAX
    ensures OwnKeys(View(ctx, MoveIn(ctx, cs, pk, amount)))
    ensures Total(View(ctx, MoveIn(ctx, cs, pk, amount))) == Total(View(ctx, cs)) + amount
    ensures Balance(ctx, MoveIn(ctx, cs, pk, amount), k) == Balance(ctx, cs, k) + if k == pk then amount else 0
  {
    LookupIsView(ctx, cs, pk);
    var receiver := MoveReceiver(ctx, cs, pk);
    SetMass(ctx, cs, pk, receiver, SatAdd(receiver.mass, amount), k);
  }

  /** The changeset between the two halves of a move. */
  ghost function MidMove(ctx: Context, cs: Changeset, m: Move): Changeset
    requires Balance(ctx, cs, m.0) >= m.2 && m.2 > 0
  {
    var s := LookupAtom(ctx, cs, m.0).value;
    WithMass(cs, m.0, s, s.mass - m.2)
  }

  lemma {:induction false} MoveOutTotal(ctx: Context, cs: Changeset, m: Move)
    requires OwnKeys(View(ctx, cs)) && Balance(ctx, cs, m.0) >= m.2 && m.2 > 0
    ensures Move1(ctx, cs, m) == Ok(MoveIn(ctx, MidMove(ctx, cs, m), m.1, m.2))
    ensures OwnKeys(View(ctx, MidMove(ctx, cs, m)))
    ensures Total(View(ctx, MidMove(ctx, cs, m))) + m.2 == Total(View(ctx, cs))
    ensures Balance(ctx, MidMove(ctx, cs, m), m.0) + m.2 == Balance(ctx, cs, m.0)
  {
    LookupIsView(ctx, cs, m.0);
    var s := LookupAtom(ctx, cs, m.0).value;
    SetMass(ctx, cs, m.0, s, s.mass - m.2, m.0);
  }

  /** One move from an account that can afford it: total mass stays, and the account loses at most the amount. */
  lemma {:induction false} MoveKeepsTotal(ctx: Context, cs: Changeset, m: Move)
    requires OwnKeys(View(ctx, cs)) && Balance(ctx, cs, m.0) >= m.2 && m.2 > 0
    requires Total(View(ctx, cs)) <= U64_MAX
    ensures Move1(ctx, cs, m).Ok? && OwnKeys(View(ctx, Move1(ctx, cs, m).value))
    ensures Total(View(ctx, Move1(ctx, cs, m).value)) == Total(View(ctx, cs))
    ensures Balance(ctx, Move1(ctx, cs, m).value, m.0) == Balance(ctx, cs, m.0) - if m.0 == m.1 then 0 else m.2
  {
    MoveOutTotal(ctx, cs, m);
    MoveInTotal(ctx, MidMove(ctx, cs, m), m.1, m.2, m.0);
  }

  /** Part way through a list: `spent` of what the caller had is gone at most, and the total mass is `total`. */
  ghost predicate Affords(ctx: Context, cs: Changeset, caller: Pk, total: nat, had: nat, spent: nat) {
    OwnKeys(View(ctx, cs)) && Total(View(ctx, cs)) == total && Balance(ctx, cs, caller) + spent >= had
  }

  lemma {:induction false} MoveAffords(ctx: Context, cs: Changeset, m: Move, caller: Pk, total: nat, had: nat, spent: nat)
    requires Affords(ctx, cs, caller, total, had, spent) && total <= U64_MAX
    requires m.0 == caller && m.2 > 0 && spent + m.2 <= had
    ensures Move1(ctx, cs, m).Ok? && Affords(ctx, Move1(ctx, cs, m).value, caller, total, had, spent + m.2)
  {
    MoveKeepsTotal(ctx, cs, m);
  }

  lemma {:induction false} MoveNext(ctx: Context, cs: Changeset, moves: seq<Move>, n: nat, next: nat)
    requires next == n + 1 <= |moves| && MoveAll(ctx, cs, moves, n).Ok?
    ensures MoveAll(ctx, cs, moves, next) == Move1(ctx, MoveAll(ctx, cs, moves, n).value, moves[n])
    ensures SumUpTo(moves, next) == SumUpTo(moves, n) + moves[n].2
  {
  }

  /**
   Every list the host accepts applies, with the total mass unchanged, when the caller's running
   balance is at least its chain balance.
   */
  lemma {:induction false} AcceptedMovesApply(ctx: Context, cs: Changeset, caller: Pk, moves: seq<Move>, n: nat)
    requires n <= |moves| && HostAccepts(ctx.state, caller, moves)
    requires OwnKeys(View(ctx, cs)) && Total(View(ctx, cs)) <= U64_MAX
    requires Balance(ctx, cs, caller) >= BaseMass(ctx.state, caller)
    ensures MoveAll(ctx, cs, moves, n).Ok?
    ensures OwnKeys(View(ctx, MoveAll(ctx, cs, moves, n).value))
    ensures Total(View(ctx, MoveAll(ctx, cs, moves, n).value)) == Total(View(ctx, cs))
    ensures Balance(ctx, MoveAll(ctx, cs, moves, n).value, caller) + SumUpTo(moves, n) >= Balance(ctx, cs, caller)
  {
    if n > 0 {
      var p: nat := n - 1;
      AcceptedMovesApply(ctx, cs, caller, moves, p);
      SumMonotone(moves, n, |moves|);
      assert moves[p] in moves;
      MoveNext(ctx, cs, moves, p, n);
      MoveAffords(ctx, MoveAll(ctx, cs, moves, p).value, moves[p], caller, Total(View(ctx, cs)), Balance(ctx, cs, caller), SumUpTo(moves, p));
    }
  }

  /** The whole contract call: transfers, then the caller's nonce; the total mass is unchanged. */
  lemma {:induction false} ContractCallConserves(ctx: Context, cs: Changeset, rx: Reaction, moves: seq<Move>)
    requires HostAccepts(ctx.state, rx.sender.publicKey, moves)
    requires OwnKeys(View(ctx, cs)) && Total(View(ctx, cs)) <= U64_MAX
    requires LookupAtom(ctx, cs, rx.sender.publicKey).Some?
    requires Balance(ctx, cs, rx.sender.publicKey) >= BaseMass(ctx.state, rx.sender.publicKey)
    ensures Dispatched(ctx, cs, rx, moves).Ok?
    ensures Total(View(ctx, Dispatched(ctx, cs, rx, moves).value)) == Total(View(ctx, cs))
    ensures LookupAtom(ctx, Dispatched(ctx, cs, rx, moves).value, rx.sender.publicKey).value.nonce
         == SatAdd(LookupAtom(ctx, cs, rx.sender.publicKey).value.nonce, 1)
  {
    var pk := rx.sender.publicKey;
    AcceptedMovesApply(ctx, cs, pk, moves, |moves|);
    MovesKeepNonce(ctx, cs, moves, |moves|, pk);
    var cs' := MoveAll(ctx, cs, moves, |moves|).value;
    var sender := LookupAtom(ctx, cs', pk).value;
    var s := sender.(nonce := SatAdd(sender.nonce, 1), lastReactionHash := rx.hash);
    LookupIsView(ctx, cs', pk);
    SetMass(ctx, cs', pk, s, s.mass, pk);
    assert WithMass(cs', pk, s, s.mass) == cs'.(inner := cs'.inner[pk := s]);
  }

  lemma {:induction false} MovesKeepNonce(ctx: Context, cs: Changeset, moves: seq<Move>, n: nat, pk: Pk)
    requires n <= |moves| && MoveAll(ctx, cs, moves, n).Ok? && LookupAtom(ctx, cs, pk).Some?
    ensures LookupAtom(ctx, MoveAll(ctx, cs, moves, n).value, pk).Some?
    ensures LookupAtom(ctx, MoveAll(ctx, cs, moves, n).value, pk).value.nonce == LookupAtom(ctx, cs, pk).value.nonce
  {
    if n > 0 { MovesKeepNonce(ctx, cs, moves, n - 1, pk); }
  }

  /** Spend `left` from `caller` to `other` in steps the signed argument can carry. */
  ghost function Spending(caller: Pk, other: Pk, left: nat): (moves: seq<Move>)
    ensures forall m | m in moves :: m.0 == caller && m.1 == other && 0 < m.2 <= I64_MAX
    ensures SumUpTo(moves, |moves|) == left
    decreases left
  {
    if left == 0 then []
    else
      var step: u64 := if left > I64_MAX then I64_MAX else left;
      var before := Spending(caller, other, left - step);
      SumPrefix(before, before + [(caller, other, step)], |before|);
      before + [(caller, other, step)]
  }

  /** A list whose sum exceeds what its one sender has, paid to others, does not apply. */
  lemma {:induction false} OverspendingFails(ctx: Context, cs: Changeset, caller: Pk, moves: seq<Move>, n: nat)
    requires n <= |moves| && forall m | m in moves :: m.0 == caller && m.1 != caller
    ensures MoveAll(ctx, cs, moves, n).Ok? ==>
      Balance(ctx, MoveAll(ctx, cs, moves, n).value, caller) + SumUpTo(moves, n) == Balance(ctx, cs, caller)
  {
    if n > 0 {
      OverspendingFails(ctx, cs, caller, moves, n - 1);
      assert moves[n - 1] in moves;
    }
  }

  /** Exactly when the host's promise holds: all accepted lists apply iff nothing of the chain balance is already spent. */
  lemma {:induction false} HostPromise(ctx: Context, cs: Changeset, caller: Pk, other: Pk)
    requires other != caller && OwnKeys(View(ctx, cs)) && Total(View(ctx, cs)) <= U64_MAX
    ensures (forall moves :: HostAccepts(ctx.state, caller, moves) ==> MoveAll(ctx, cs, moves, |moves|).Ok?)
       <==> Balance(ctx, cs, caller) >= BaseMass(ctx.state, caller)
  {
    if Balance(ctx, cs, caller) >= BaseMass(ctx.state, caller) {
      forall moves | HostAccepts(ctx.state, caller, moves) ensures MoveAll(ctx, cs, moves, |moves|).Ok? {
        AcceptedMovesApply(ctx, cs, caller, moves, |moves|);
      }
    } else {
      var moves := Spending(caller, other, Balance(ctx, cs, caller) + 1);
      OverspendingFails(ctx, cs, caller, moves, |moves|);
      assert HostAccepts(ctx.state, caller, moves);
    }
  }
}
