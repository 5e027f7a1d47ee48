/**
 Committing a batch: the write-set goes into the trie under hashed keys, into the atom rows, and the
 new root into the root cell, the garbage-collection log and the root history.
 */
module Storage {
  import opened Basics
  import opened Hashing
  import opened TrieShape
  import TrieHistory
  import opened TrieStore
  import opened TrieProof
  import opened ProofBinding
  import opened MerklePatriciaTrie
  import opened Ledger

  /** SHA3-256, and bincode of an atom. */
  datatype Coders = Coders(sha3: Pk -> Key, atom: Atom -> Bytes)

  /** The `atom_` rows of the database, serialised. */
  type Rows = map<Pk, Bytes>

  datatype Update = Update(key: Key, value: Bytes, pk: Pk)

  /** No two of the public keys have the same trie key. */
  ghost predicate Separate(c: Coders, pks: set<Pk>) {
    forall a, b | a in pks && b in pks && c.sha3(a) == c.sha3(b) :: a == b
  }

  ghost function Keyed(c: Coders, rows: Rows): map<Key, Bytes>
    requires Separate(c, rows.Keys)
  {
    map pk | pk in rows :: c.sha3(pk) := rows[pk]
  }

  lemma {:induction false} KeyedAt(c: Coders, rows: Rows, pk: Pk)
    requires Separate(c, rows.Keys + {pk})
    ensures Separate(c, rows.Keys)
    ensures c.sha3(pk) in Keyed(c, rows) <==> pk in rows
    ensures pk in rows ==> Keyed(c, rows)[c.sha3(pk)] == rows[pk]
  {
    assert forall p | p in rows :: p in rows.Keys + {pk};
  }

  lemma {:induction false} KeyedBack(c: Coders, rows: Rows, k: Key) returns (pk: Pk)
    requires Separate(c, rows.Keys) && k in Keyed(c, rows)
    ensures pk in rows && c.sha3(pk) == k
  {
    pk :| pk in rows && c.sha3(pk) == k;
  }

  lemma {:induction false} KeyedPutAt(c: Coders, rows: Rows, pk: Pk, v: Bytes, p: Pk)
    requires Separate(c, rows.Keys + {pk}) && p in rows.Keys + {pk}
    ensures Separate(c, rows.Keys) && Separate(c, rows[pk := v].Keys)
    ensures c.sha3(p) in Keyed(c, rows[pk := v]) && c.sha3(p) in Keyed(c, rows)[c.sha3(pk) := v]
    ensures Keyed(c, rows[pk := v])[c.sha3(p)] == Keyed(c, rows)[c.sha3(pk) := v][c.sha3(p)]
  {
    assert rows[pk := v].Keys == rows.Keys + {pk} == rows[pk := v].Keys + {p};
    KeyedAt(c, rows[pk := v], p);
    if p != pk {
      assert rows.Keys + {p} == rows.Keys;
      assert c.sha3(p) != c.sha3(pk);
      KeyedAt(c, rows, p);
    }
  }

  lemma {:induction false} KeyedPut(c: Coders, rows: Rows, pk: Pk, v: Bytes)
    requires Separate(c, rows.Keys + {pk})
    ensures Separate(c, rows.Keys) && Separate(c, rows[pk := v].Keys)
    ensures Keyed(c, rows[pk := v]) == Keyed(c, rows)[c.sha3(pk) := v]
  {
    assert rows[pk := v].Keys == rows.Keys + {pk};
    var a, b := Keyed(c, rows[pk := v]), Keyed(c, rows)[c.sha3(pk) := v];
    forall k | k in a ensures k in b && a[k] == b[k] {
      var p := KeyedBack(c, rows[pk := v], k);
      KeyedPutAt(c, rows, pk, v, p);
    }
    forall k | k in b ensures k in a {
      KeyedPutAt(c, rows, pk, v, pk);
      if k != c.sha3(pk) {
        var p := KeyedBack(c, rows, k);
        KeyedPutAt(c, rows, pk, v, p);
      }
    }
    assert a == b;
  }

  /** The trie holds just the rows. */
  ghost predicate Agrees(c: Coders, t: Tree, rows: Rows) {
    && TrieHistory.Canonical(t) && WellFormed(t) && Separate(c, rows.Keys)
    && TrieHistory.Holds(t, Keyed(c, rows))
  }

  /** The value in the trie, and in a proof, is the row of the account, or absent with it. */
  lemma {:induction false} TrieValue(c: Coders, lib: Lib, t: Tree, rows: Rows, pk: Pk)
    requires Agrees(c, t, rows) && Separate(c, rows.Keys + {pk})
    ensures Get(t, KeyToNibbles(c.sha3(pk))) == if pk in rows then Some(rows[pk]) else None
    ensures ProofOf(lib, t, c.sha3(pk)).value == if pk in rows then Some(rows[pk]) else None
  {
    KeyedAt(c, rows, pk);
  }

  /** The proof of an account verifies and carries its row, or its absence, under the conditions of `ProofsComplete`. */
  lemma {:induction false} ProofOfRow(c: Coders, lib: Lib, t: Tree, rows: Rows, pk: Pk)
    requires Faithful(lib) && Agrees(c, t, rows) && Separate(c, rows.Keys + {pk})
    requires DifferentLengths(ProofOf(lib, t, c.sha3(pk)).path)
    ensures Accepts(lib, ProofOf(lib, t, c.sha3(pk))) && ProofOf(lib, t, c.sha3(pk)).root == OrZero(Root(lib, t))
    ensures ProofOf(lib, t, c.sha3(pk)).value == if pk in rows then Some(rows[pk]) else None
  {
    TrieValue(c, lib, t, rows, pk);
    TrieHistory.CanonicalIsWhole(t);
    TrieHistory.WholeNotBlocked(t, KeyToNibbles(c.sha3(pk)));
    ProofsComplete(lib, t, c.sha3(pk));
  }

  lemma {:induction false} RowKeysAreLong(c: Coders, t: Tree, rows: Rows)
    requires Agrees(c, t, rows)
    ensures KeysAreLong(t, 64)
  {
    forall n | Get(t, n).Some? ensures |n| == 64 {
      var k: Key :| KeyToNibbles(k) == n;
    }
  }

  /**
   Put any value, or none, into the proof of an account: its row, or its absence, is accepted, and nothing else is
   unless two inputs collide, or absence was shown by another leaf and a sibling is then left over.
   */
  lemma {:induction false} RowProofBinds(c: Coders, lib: Lib, t: Tree, rows: Rows, pk: Pk, v: Option<Bytes>) returns (x: Bytes, y: Bytes)
    requires Faithful(lib) && Agrees(c, t, rows) && Separate(c, rows.Keys + {pk})
    requires DifferentLengths(ProofOf(lib, t, c.sha3(pk)).path)
    ensures var row := if pk in rows then Some(rows[pk]) else None;
      var p := ProofOf(lib, t, c.sha3(pk));
      var q := p.(value := v);
      && (v == row ==> Accepts(lib, q) && NoneLeftOver(q))
      && (Accepts(lib, q) ==> v == row || Collide(lib, x, y) || (AtOtherLeaf(p, v) && !NoneLeftOver(q)))
  {
    var key := c.sha3(pk);
    TrieValue(c, lib, t, rows, pk);
    TrieHistory.CanonicalIsWhole(t);
    TrieHistory.WholeNotBlocked(t, KeyToNibbles(key));
    BuiltReadsRight(lib, t, key);
    RowKeysAreLong(c, t, rows);
    NoSlotAtFullKey(t, KeyToNibbles(key));
    x, y := BuiltProofBinds(lib, t, key, v);
  }

  /** The root depends on the rows alone, not on the commits that made them. */
  lemma {:induction false} RootOfRows(c: Coders, lib: Lib, t: Tree, u: Tree, rows: Rows)
    requires Agrees(c, t, rows) && Agrees(c, u, rows)
    ensures t == u && Root(lib, t) == Root(lib, u)
  {
    TrieHistory.HoldsUnique(t, u, Keyed(c, rows));
  }

  lemma {:induction false} AgreesWhole(c: Coders, t: Tree, rows: Rows, k: Nibbles)
    requires Agrees(c, t, rows)
    ensures Whole(t) && !Blocked(t, k)
  {
    TrieHistory.CanonicalIsWhole(t);
    TrieHistory.WholeNotBlocked(t, k);
  }

  lemma {:induction false} AgreesPut(c: Coders, t: Tree, rows: Rows, pk: Pk, v: Bytes, t': Tree, rows': Rows)
    requires Agrees(c, t, rows) && Separate(c, rows.Keys + {pk})
    requires t' == Insert(t, KeyToNibbles(c.sha3(pk)), v) && rows' == rows[pk := v]
    ensures Agrees(c, t', rows')
  {
    var k := KeyToNibbles(c.sha3(pk));
    AgreesWhole(c, t, rows, k);
    TrieHistory.InsertCanonical(t, k, v);
    KeyedPut(c, rows, pk, v);
    TrieHistory.PutHolds(t, Keyed(c, rows), c.sha3(pk), v);
  }

  /** Rows after a write-set has been saved over them. */
  function Saved(c: Coders, rows: Rows, changes: Atoms): Rows {
    rows + map pk | pk in changes :: c.atom(changes[pk])
  }

  /** Rows after a list of write-sets. */
  function AllSaved(c: Coders, rows: Rows, batches: seq<Changeset>): Rows {
    if batches == [] then rows
    else Saved(c, AllSaved(c, rows, batches[..|batches| - 1]), batches[|batches| - 1].inner)
  }

  function Touched(batches: seq<Changeset>): set<Pk> {
    if batches == [] then {} else Touched(batches[..|batches| - 1]) + batches[|batches| - 1].inner.Keys
  }

  lemma {:induction false} AllSavedKeys(c: Coders, rows: Rows, batches: seq<Changeset>)
    ensures AllSaved(c, rows, batches).Keys == rows.Keys + Touched(batches)
  {
    if batches != [] { AllSavedKeys(c, rows, batches[..|batches| - 1]); }
  }

  function Applied(rows: Rows, updates: seq<Update>): Rows {
    if updates == [] then rows
    else Applied(rows, updates[..|updates| - 1])[updates[|updates| - 1].pk := updates[|updates| - 1].value]
  }

  /** `updates` says, account by account, what the write-set says. */
  ghost predicate Lists(c: Coders, updates: seq<Update>, changes: Atoms) {
    && (forall u | u in updates :: u.pk in changes && u.key == c.sha3(u.pk) && u.value == c.atom(changes[u.pk]))
    && (forall pk | pk in changes :: exists u :: u in updates && u.pk == pk)
  }

  function Without(changes: Atoms, rest: set<Pk>): Atoms {
    map pk | pk in changes && pk !in rest :: changes[pk]
  }

  lemma {:induction false} ListsMore(c: Coders, updates: seq<Update>, changes: Atoms, rest: set<Pk>, pk: Pk, u: Update)
    requires Lists(c, updates, Without(changes, rest)) && pk in rest && rest <= changes.Keys
    requires u == Update(c.sha3(pk), c.atom(changes[pk]), pk)
    ensures Lists(c, updates + [u], Without(changes, rest - {pk}))
  {
    forall p | p in Without(changes, rest - {pk}) ensures exists v :: v in updates + [u] && v.pk == p {
      if p == pk {
        assert u in updates + [u];
      } else {
        assert p in Without(changes, rest);
        var v :| v in updates && v.pk == p;
        assert v in updates + [u];
      }
    }
  }

  lemma {:induction false} AppliedAt(rows: Rows, updates: seq<Update>, pk: Pk)
    ensures (forall u | u in updates :: u.pk != pk) ==>
              (pk in Applied(rows, updates) <==> pk in rows) && (pk in rows ==> Applied(rows, updates)[pk] == rows[pk])
    ensures (exists u :: u in updates && u.pk == pk) ==>
              pk in Applied(rows, updates) && exists u :: u in updates && u.pk == pk && Applied(rows, updates)[pk] == u.value
  {
    if updates != [] {
      var n := |updates| - 1;
      AppliedAt(rows, updates[..n], pk);
      assert updates == updates[..n] + [updates[n]];
    }
  }

  lemma {:induction false} AppliedIsSaved(c: Coders, rows: Rows, updates: seq<Update>, changes: Atoms)
    requires Lists(c, updates, changes)
    ensures Applied(rows, updates) == Saved(c, rows, changes)
  {
    forall pk
      ensures pk in Applied(rows, updates) <==> pk in Saved(c, rows, changes)
      ensures pk in Applied(rows, updates) ==> Applied(rows, updates)[pk] == Saved(c, rows, changes)[pk]
    {
      AppliedAt(rows, updates, pk);
      if pk !in changes { assert forall u | u in updates :: u.pk != pk; }
    }
  }

  lemma {:induction false} AppliedKeys(rows: Rows, updates: seq<Update>, pks: set<Pk>)
    requires rows.Keys <= pks && forall u | u in updates :: u.pk in pks
    ensures Applied(rows, updates).Keys <= pks
  {
    if updates != [] {
      AppliedKeys(rows, updates[..|updates| - 1], pks);
      assert updates[|updates| - 1] in updates;
    }
  }

  lemma {:induction false} ApplyNext(c: Coders, rows: Rows, updates: seq<Update>, i: nat, changes: Atoms)
    requires Lists(c, updates, changes) && Separate(c, rows.Keys + changes.Keys) && i < |updates|
    ensures updates[i].key == c.sha3(updates[i].pk)
    ensures Separate(c, Applied(rows, updates[..i]).Keys + {updates[i].pk})
    ensures Applied(rows, updates[..i + 1]) == Applied(rows, updates[..i])[updates[i].pk := updates[i].value]
  {
    assert updates[i] in updates && updates[..i + 1][..i] == updates[..i];
    AppliedKeys(rows, updates[..i], rows.Keys + changes.Keys);
    var pks := Applied(rows, updates[..i]).Keys + {updates[i].pk};
    assert forall pk | pk in pks :: pk in rows.Keys + changes.Keys;
  }

  lemma {:induction false} ListsEmpty(c: Coders, updates: seq<Update>, changes: Atoms)
    requires Lists(c, updates, changes)
    ensures updates == [] <==> changes == map[]
  {
    if updates != [] { assert updates[0] in updates; }
    if changes != map[] {
      var pk :| pk in changes;
      var u :| u in updates && u.pk == pk;
    }
  }

  /** `root` is the root of a whole trie made of nodes in `written`. */
  ghost predicate Denoted(lib: Lib, written: NodeMap, root: Hash32) {
    exists u :: WellFormed(u) && Whole(u) && Root(lib, u) == Some(root) && Backed(lib, written, u)
  }

  lemma {:induction false} DenotedTree(lib: Lib, written: NodeMap, root: Hash32) returns (u: Tree)
    requires Denoted(lib, written, root)
    ensures WellFormed(u) && Whole(u) && Root(lib, u) == Some(root) && Backed(lib, written, u)
  {
    u :| WellFormed(u) && Whole(u) && Root(lib, u) == Some(root) && Backed(lib, written, u);
  }

  /** No hash has two different nodes. */
  predicate Compatible(a: NodeMap, b: NodeMap) {
    forall h | h in a.Keys && h in b.Keys :: a[h] == b[h]
  }

  /** How a commit ends.  `Replaced` is the model's own: a put replaced a different node. */
  datatype CommitResult = Committed | NodeMissing | Replaced

  class PrimusStorage {
    const coders: Coders
    const store: SledMptStore
    const mpt: MerklePatriciaTrie
    /** The root cell proofs start from. */
    var root: Option<Hash32>
    var rows: Rows
    var contracts: map<Hash32, Bytes>
    var gcLog: map<u64, Hash32>
    /** The `mpt_root` row, and the `mpt_root_<index>` rows. */
    var rootRow: Option<Hash32>
    var history: map<u64, Hash32>
    /**
     The model's own: every node a commit has left in the store, collected since or not, and whether a later
     commit left a different node under the hash of one of them.
     */
    var written: NodeMap
    var mixed: bool

    /** Over an existing database: the trie and the root cell start from the `mpt_root` row. */
    constructor (coders: Coders, store: SledMptStore, rows: Rows, contracts: map<Hash32, Bytes>, gcLog: map<u64, Hash32>,
                 rootRow: Option<Hash32>, history: map<u64, Hash32>)
      ensures this.coders == coders && this.store == store && fresh(mpt) && mpt.store == store && mpt.root == rootRow
      ensures root == rootRow && this.rows == rows && this.rootRow == rootRow && this.history == history
      ensures this.gcLog == gcLog && this.contracts == contracts && written == store.tree && !mixed
    {
      this.coders, this.store, this.rows, this.contracts := coders, store, rows, contracts;
      this.gcLog, this.rootRow, this.history, root := gcLog, rootRow, history, rootRow;
      written, mixed := store.tree, false;
      mpt := new MerklePatriciaTrie(store, rootRow);
    }

    /** The trie denotes `t`, and `t` holds just the rows. */
    ghost predicate Valid(t: Tree)
      reads this, mpt, store
    {
      mpt.store == store && mpt.Denotes(t) && Agrees(coders, t, rows)
    }

    /** Every root in the log was that of a trie whose nodes were all in the store at some time. */
    ghost predicate Logged()
      reads this, store
    {
      Grew(store.tree, written) && forall i | i in gcLog :: Denoted(store.lib, written, gcLog[i])
    }

    /** One update an account, in some order. */
    method Prepare(changes: Atoms) returns (updates: seq<Update>)
      ensures Lists(coders, updates, changes)
    {
      updates := [];
      var rest := changes.Keys;
      while rest != {}
        invariant rest <= changes.Keys && Lists(coders, updates, Without(changes, rest))
        decreases |rest|
      {
        var pk :| pk in rest;
        var u := Update(coders.sha3(pk), coders.atom(changes[pk]), pk);
        ListsMore(coders, updates, changes, rest, pk, u);
        updates := updates + [u];
        rest := rest - {pk};
      }
      assert Without(changes, rest) == changes;
    }

    /**
     Trie and root cell were opened on 32 zero bytes, the root row of an empty trie, as if they were the hash
     of a node; there is no such node.
     */
    ghost predicate Stuck()
      reads this, mpt, store
    {
      mpt.store == store && mpt.Denotes(Missing(Zero())) && root == Some(Zero())
    }

    method UpdateOne(u: Update, ghost t: Tree, ghost before: Rows) returns (r: CommitResult, ghost t': Tree)
      requires mpt.store == store && mpt.Denotes(t)
      requires !t.Missing? ==> Agrees(coders, t, before) && u.key == coders.sha3(u.pk) && Separate(coders, before.Keys + {u.pk})
      modifies mpt, store
      ensures r == if t.Missing? then NodeMissing else if store.clobbered then Replaced else Committed
      ensures r == NodeMissing ==> mpt.root == old(mpt.root) && store.tree == old(store.tree) && !store.clobbered
      ensures r == Committed ==> mpt.Denotes(t') && Agrees(coders, t', before[u.pk := u.value]) && Grew(old(store.tree), store.tree)
    {
      if !t.Missing? {
        var k := KeyToNibbles(u.key);
        AgreesWhole(coders, t, before, k);
        AgreesPut(coders, t, before, u.pk, u.value, Insert(t, k, u.value), before[u.pk := u.value]);
      }
      var inserted := mpt.Insert(u.key, u.value, t);
      r := if inserted.Err? then NodeMissing else if store.clobbered then Replaced else Committed;
      t' := if t.Missing? then t else Insert(t, KeyToNibbles(u.key), u.value);
    }

    /** The trie denotes `t` and takes updates for the accounts of `changes`, or none at all. */
    ghost predicate Ready(t: Tree, changes: Atoms)
      reads this, mpt, store
    {
      if t.Missing? then Stuck() && t == Missing(Zero()) else Valid(t) && Separate(coders, rows.Keys + changes.Keys)
    }

    /** `i` of the updates are in the trie, which denotes `t'`. */
    ghost predicate Midway(updates: seq<Update>, i: nat, changes: Atoms, t: Tree, t': Tree)
      requires i <= |updates|
      reads this, mpt, store
    {
      && mpt.store == store && mpt.Denotes(t') && Lists(coders, updates, changes)
      && if t.Missing? then i == 0 && t' == t
         else Agrees(coders, t', Applied(rows, updates[..i])) && Separate(coders, rows.Keys + changes.Keys)
    }

    method UpdateNext(updates: seq<Update>, i: nat, ghost changes: Atoms, ghost t: Tree, ghost before: Tree)
      returns (r: CommitResult, ghost after: Tree)
      requires i < |updates| && Midway(updates, i, changes, t, before)
      modifies mpt, store
      ensures r == if t.Missing? then NodeMissing else if store.clobbered then Replaced else Committed
      ensures r == NodeMissing ==> mpt.root == old(mpt.root) && store.tree == old(store.tree) && !store.clobbered
      ensures r == Committed ==> Midway(updates, i + 1, changes, t, after) && Grew(old(store.tree), store.tree)
    {
      if !t.Missing? { ApplyNext(coders, rows, updates, i, changes); }
      r, after := UpdateOne(updates[i], before, Applied(rows, updates[..i]));
    }

    /** The trie takes the updates one after the other, up to the first that fails. */
    method UpdateTrie(updates: seq<Update>, ghost t: Tree, ghost changes: Atoms) returns (r: CommitResult, ghost t': Tree)
      requires Ready(t, changes) && Lists(coders, updates, changes)
      modifies mpt, store
      ensures r == if t.Missing? && updates != [] then NodeMissing else if store.clobbered then Replaced else Committed
      ensures r == NodeMissing || updates == [] ==> mpt.root == old(mpt.root) && store.tree == old(store.tree) && !store.clobbered
      ensures r == Committed && !t.Missing? ==>
                mpt.Denotes(t') && Agrees(coders, t', Applied(rows, updates)) && Grew(old(store.tree), store.tree)
    {
      t' := t;
      for i := 0 to |updates|
        invariant Midway(updates, i, changes, t, t') && Grew(old(store.tree), store.tree)
        invariant i == 0 ==> mpt.root == old(mpt.root) && store.tree == old(store.tree)
      {
        r, t' := UpdateNext(updates, i, changes, t, t');
        if r != Committed { return; }
      }
      assert updates[..|updates|] == updates;
      r := Committed;
    }

    method SaveRows(updates: seq<Update>)
      modifies this`rows
      ensures rows == Applied(old(rows), updates)
    {
      for i := 0 to |updates|
        invariant rows == Applied(old(rows), updates[..i])
      {
        assert updates[..i + 1][..i] == updates[..i];
        rows := rows[updates[i].pk := updates[i].value];
      }
      assert updates[..|updates|] == updates;
    }

    /** What follows the trie: log, root cell, rows, contracts and root history. */
    method Persist(oldRoot: Option<Hash32>, newRoot: Hash32, updates: seq<Update>, code: map<Hash32, Bytes>, index: u64)
      modifies this
      ensures written == old(written) + store.tree && mixed == (old(mixed) || !Compatible(old(written), store.tree))
      ensures rows == Applied(old(rows), updates) && contracts == old(contracts) + code
      ensures root == rootRow == Some(newRoot) && history == old(history)[index := newRoot]
      ensures gcLog == if oldRoot.Some? then old(gcLog)[index := oldRoot.value] else old(gcLog)
    {
      if oldRoot.Some? { gcLog := gcLog[index := oldRoot.value]; }
      root := Some(newRoot);
      SaveRows(updates);
      contracts := contracts + code;
      rootRow := Some(newRoot);
      history := history[index := newRoot];
      Remember();
    }

    method Remember()
      modifies `written, `mixed
      ensures written == old(written) + store.tree && mixed == (old(mixed) || !Compatible(old(written), store.tree))
    {
      mixed := mixed || !Compatible(written, store.tree);
      written := written + store.tree;
    }

    /** The part of a commit under the trie's lock. */
    method CommitTrie(changes: Atoms, ghost t: Tree) returns (r: CommitResult, updates: seq<Update>, ghost t': Tree)
      requires Ready(t, changes)
      modifies mpt, store
      ensures r == if t.Missing? && changes != map[] then NodeMissing else if store.clobbered then Replaced else Committed
      ensures r == NodeMissing || changes == map[] ==>
                mpt.root == old(mpt.root) && store.tree == old(store.tree) && !store.clobbered
      ensures Applied(rows, updates) == Saved(coders, rows, changes)
      ensures r == Committed && !t.Missing? ==>
                mpt.Denotes(t') && Agrees(coders, t', Saved(coders, rows, changes)) && Grew(old(store.tree), store.tree)
    {
      updates := Prepare(changes);
      AppliedIsSaved(coders, rows, updates, changes);
      ListsEmpty(coders, updates, changes);
      r, t' := UpdateTrie(updates, t, changes);
    }

    /**
     Commit a batch.  The trie then holds just the new rows; the root cell, the root row and the history
     record its root, 32 zero bytes for an empty one; the old root, if there was one, goes to the log.
     Over a trie opened on 32 zero bytes a batch that touches any account fails and leaves everything alone.
     */
    method CommitChangeset(changeset: Changeset, index: u64, ghost t: Tree)
      returns (r: CommitResult, newRoot: Hash32, ghost t': Tree)
      requires Ready(t, changeset.inner)
      modifies this, mpt, store
      ensures r == if t.Missing? && changeset.inner != map[] then NodeMissing else if store.clobbered then Replaced else Committed
      ensures r == Committed && !t.Missing? ==> Valid(t') && Grew(old(store.tree), store.tree)
      ensures r == Committed ==> rows == Saved(coders, old(rows), changeset.inner)
      ensures r == Committed ==>
                newRoot == OrZero(mpt.root) && root == rootRow == Some(newRoot) && history == old(history)[index := newRoot]
      ensures r == Committed ==>
                gcLog == if old(mpt.root).Some? then old(gcLog)[index := old(mpt.root).value] else old(gcLog)
      ensures r == Committed ==> contracts == old(contracts) + changeset.contracts
      ensures r == Committed ==>
                written == old(written) + store.tree && mixed == (old(mixed) || !Compatible(old(written), store.tree))
      ensures r == NodeMissing ==>
                && rows == old(rows) && root == old(root) && rootRow == old(rootRow) && history == old(history)
                && gcLog == old(gcLog) && contracts == old(contracts)
      ensures t.Missing? ==> Stuck()
      ensures changeset.inner == map[] ==> mpt.root == old(mpt.root) && store.tree == old(store.tree) && !store.clobbered
    {
      var oldRoot, updates := mpt.root, [];
      r, updates, t' := CommitTrie(changeset.inner, t);
      newRoot := OrZero(mpt.root);
      if r == Committed { Persist(oldRoot, newRoot, updates, changeset.contracts, index); }
    }

    /** Collect what one old root reached and the current root does not reach. */
    method CollectRoot(oldRoot: Hash32, ghost t: Tree)
      requires Valid(t) && Grew(store.tree, written) && Denoted(store.lib, written, oldRoot)
      modifies store
      ensures Valid(t) && Grew(store.tree, old(store.tree))
      ensures mpt.root.None? ==> store.tree == old(store.tree)
      ensures mpt.root.Some? && oldRoot in store.tree ==> oldRoot in Hashes(store.lib, t)
    {
      ghost var u := DenotedTree(store.lib, written, oldRoot);
      TrimStored(store.lib, store.tree, written, u);
      TrimRoot(store.lib, store.tree, u);
      var _ := mpt.GcSince(oldRoot, t, Trim(store.lib, store.tree, u));
    }

    /**
     Entries below block `n` are gone from the log.  The current trie has lost nothing, and of a collected root
     nothing is left unless the current trie uses it.
     */
    ghost predicate PrunedTo(n: int, t: Tree, log: map<u64, Hash32>, nodes: NodeMap)
      reads this, mpt, store
    {
      && Valid(t) && Logged() && Grew(store.tree, nodes) && gcLog == From(log, n)
      && (mpt.root.None? ==> store.tree == nodes)
      && (mpt.root.Some? ==> Spent(log, n, store.tree, Hashes(store.lib, t)))
    }

    /** The entry of one block: its root is collected and the entry goes. */
    method PruneBlock(idx: u64, ghost t: Tree)
      requires Valid(t) && Logged()
      modifies `gcLog, store
      ensures Valid(t) && Logged() && Grew(store.tree, old(store.tree)) && gcLog == old(gcLog) - {idx}
      ensures mpt.root.None? ==> store.tree == old(store.tree)
      ensures mpt.root.Some? && idx in old(gcLog) && old(gcLog)[idx] in store.tree ==> old(gcLog)[idx] in Hashes(store.lib, t)
    {
      if idx !in gcLog { return; }
      CollectRoot(gcLog[idx], t);
      gcLog := gcLog - {idx};
    }

    method PruneNext(idx: u64, ghost t: Tree, ghost log: map<u64, Hash32>, ghost nodes: NodeMap)
      requires PrunedTo(idx, t, log, nodes)
      modifies `gcLog, store
      ensures PrunedTo(idx + 1, t, log, nodes)
    {
      FromNext(log, idx);
      ghost var before := store.tree;
      PruneBlock(idx, t);
      SpentNext(log, idx, before, store.tree, Hashes(store.lib, t));
    }

    method PruneBelow(cutoff: u64, ghost t: Tree, ghost log: map<u64, Hash32>, ghost nodes: NodeMap)
      requires PrunedTo(0, t, log, nodes)
      modifies `gcLog, store
      ensures PrunedTo(cutoff, t, log, nodes)
    {
      for idx := 0 to cutoff
        invariant PrunedTo(idx, t, log, nodes)
      {
        PruneNext(idx, t, log, nodes);
      }
    }

    /** Roots logged before the window are collected and leave the log. */
    method PruneUndoWindow(height: u64, ghost t: Tree)
      requires Valid(t) && Logged()
      modifies `gcLog, store
      ensures PrunedTo(height - UNDO_WINDOW, t, old(gcLog), old(store.tree))
    {
      FromStart(gcLog, height - UNDO_WINDOW);
      if height <= UNDO_WINDOW { return; }
      PruneBelow(height - UNDO_WINDOW, t, gcLog, store.tree);
    }

    /**
     The proof the trie gives, unless the root cell holds the 32 zero bytes of an empty trie, under which there
     is no node.
     */
    method GetProof(pk: Pk, ghost t: Tree) returns (r: Result<MerkleProof, TrieError>)
      requires Ready(t, map[]) && Zero() !in store.tree
      requires root == mpt.root || (mpt.root == None && root == Some(Zero()))
      ensures r == if root == mpt.root && !t.Missing? then Ok(ProofOf(store.lib, t, coders.sha3(pk))) else Err(NodeNotFound)
    {
      var readTrie := new MerklePatriciaTrie(store, root);
      ghost var seen := if root == mpt.root then t else Missing(Zero());
      if root == mpt.root && !t.Missing? {
        TrieHistory.CanonicalIsWhole(t);
        TrieHistory.WholeNotBlocked(t, KeyToNibbles(coders.sha3(pk)));
      }
      r := readTrie.Prove(coders.sha3(pk), seen);
    }
  }

  /** The entries of a log from block `n` on. */
  function From(log: map<u64, Hash32>, n: int): map<u64, Hash32> {
    map i | i in log && n <= i :: log[i]
  }

  lemma {:induction false} FromStart(log: map<u64, Hash32>, n: int)
    ensures From(log, 0) == log && (n <= 0 ==> From(log, n) == log)
  {
  }

  lemma {:induction false} FromNext(log: map<u64, Hash32>, n: u64)
    ensures From(log, n + 1) == From(log, n) - {n}
    ensures n in log <==> n in From(log, n)
    ensures n in log ==> From(log, n)[n] == log[n]
  {
  }

  /** Of the roots logged before block `n` only those in `live` are still in the store. */
  ghost predicate Spent(log: map<u64, Hash32>, n: int, s: NodeMap, live: set<Hash32>) {
    forall i | i in log && i < n :: log[i] in s ==> log[i] in live
  }

  lemma {:induction false} SpentNext(log: map<u64, Hash32>, n: u64, s: NodeMap, s': NodeMap, live: set<Hash32>)
    requires Grew(s', s)
    ensures Spent(log, n, s, live) && (n in log && log[n] in s' ==> log[n] in live) ==> Spent(log, n + 1, s', live)
  {
  }

  /** Once something has been committed, proofs can be had exactly when there is a row. */
  lemma {:induction false} ProofsAvailable(c: Coders, lib: Lib, t: Tree, rows: Rows)
    requires Agrees(c, t, rows)
    ensures Some(OrZero(Root(lib, t))) == Root(lib, t) <==> rows != map[]
  {
    if rows != map[] {
      var pk :| pk in rows;
      KeyedAt(c, rows, pk);
      assert Get(t, KeyToNibbles(c.sha3(pk))).Some?;
    } else {
      assert Keyed(c, rows) == map[];
      TrieHistory.HoldsUnique(t, Empty, map[]);
    }
  }

  /**
   A commit of nothing to a new database: the root cell and the root row hold 32 zero bytes while the trie has no
   root, and no account, known or not, has a proof of any kind.
   */
  method ProofAfterEmptyCommit(coders: Coders, lib: Lib, index: u64, pk: Pk)
    returns (s: PrimusStorage, r: Result<MerkleProof, TrieError>)
    ensures fresh(s) && s.coders == coders && s.store.lib == lib && s.Valid(Empty) && s.rows == map[]
    ensures s.mpt.root == None && s.root == s.rootRow == Some(Zero()) && s.history == map[index := Zero()]
    ensures r == Err(NodeNotFound)
  {
    var store := new SledMptStore(lib);
    s := new PrimusStorage(coders, store, map[], map[], map[], None, map[]);
    assert s.Valid(Empty);
    var ok, newRoot, t := s.CommitChangeset(Changeset(map[], map[]), index, Empty);
    TrieHistory.HoldsUnique(t, Empty, map[]);
    r := s.GetProof(pk, t);
  }

  /**
   Opening the database again after a commit: the trie is what it was exactly when there is a row.  Without
   one, trie and root cell start at 32 zero bytes.
   */
  method Reopen(s: PrimusStorage, ghost t: Tree) returns (s': PrimusStorage)
    requires s.Valid(t) && s.rootRow == Some(OrZero(s.mpt.root)) && Zero() !in s.store.tree
    ensures fresh(s') && s'.store == s.store && s'.coders == s.coders && s'.rows == s.rows && s'.root == s'.mpt.root
    ensures fresh(s'.mpt)
    ensures s'.Valid(t) <==> s.rows != map[]
    ensures s'.Stuck() <==> s.rows == map[]
  {
    s' := new PrimusStorage(s.coders, s.store, s.rows, s.contracts, s.gcLog, s.rootRow, s.history);
    ProofsAvailable(s.coders, s.store.lib, t, s.rows);
  }

  /** How commits end on a database opened in that state: only those that touch no account go through. */
  function StuckResults(batches: seq<Changeset>): seq<CommitResult> {
    if batches == [] then []
    else
      var touches := batches[|batches| - 1].inner != map[];
      StuckResults(batches[..|batches| - 1]) + [if touches then NodeMissing else Committed]
  }

  /** The root history after them: each that went through records 32 zero bytes. */
  function StuckHistory(history: map<u64, Hash32>, batches: seq<Changeset>, index: u64): map<u64, Hash32>
    requires index + |batches| <= U64_MAX
  {
    if batches == [] then history
    else
      var before := StuckHistory(history, batches[..|batches| - 1], index);
      if batches[|batches| - 1].inner != map[] then before else before[index + |batches| - 1 := Zero()]
  }

  lemma {:induction false} StuckNext(history: map<u64, Hash32>, batches: seq<Changeset>, index: u64, i: nat)
    requires i < |batches| && index + |batches| <= U64_MAX
    ensures StuckResults(batches[..i + 1]) == StuckResults(batches[..i]) + [if batches[i].inner != map[] then NodeMissing else Committed]
    ensures StuckHistory(history, batches[..i + 1], index)
         == var before := StuckHistory(history, batches[..i], index); if batches[i].inner != map[] then before else before[index + i := Zero()]
  {
    assert batches[..i + 1][..i] == batches[..i];
  }

  /**
   A database opened in that state stays in it: every commit that touches an account fails, and no account ever
   gets a row or a proof.
   */
  method StuckForever(s: PrimusStorage, batches: seq<Changeset>, index: u64, pk: Pk)
    returns (results: seq<CommitResult>, r: Result<MerkleProof, TrieError>)
    requires s.Stuck() && index + |batches| <= U64_MAX
    modifies s, s.mpt, s.store
    ensures s.Stuck() && s.rows == old(s.rows) && s.history == StuckHistory(old(s.history), batches, index)
    ensures results == StuckResults(batches) && r == Err(NodeNotFound)
  {
    results := [];
    for i := 0 to |batches|
      invariant s.Stuck() && s.rows == old(s.rows) && s.history == StuckHistory(old(s.history), batches[..i], index)
      invariant results == StuckResults(batches[..i])
    {
      StuckNext(old(s.history), batches, index, i);
      var result, newRoot, t := s.CommitChangeset(batches[i], index + i, Missing(Zero()));
      results := results + [result];
    }
    WholeSlice(batches);
    r := s.GetProof(pk, Missing(Zero()));
  }

  method CommitOne(s: PrimusStorage, batch: Changeset, index: u64, ghost t: Tree) returns (ok: bool, ghost t': Tree)
    requires s.Valid(t) && Separate(s.coders, s.rows.Keys + batch.inner.Keys)
    modifies s, s.mpt, s.store
    ensures ok <==> !s.store.clobbered
    ensures ok ==> s.Valid(t') && s.rows == Saved(s.coders, old(s.rows), batch.inner)
    ensures ok ==> s.root == s.rootRow == Some(OrZero(s.mpt.root))
  {
    var r, newRoot;
    r, newRoot, t' := s.CommitChangeset(batch, index, t);
    ok := r == Committed;
  }

  /** Any run of commits: the trie holds just the rows, and the rows are those of the write-sets, in order. */
  method AnyRun(s: PrimusStorage, batches: seq<Changeset>, index: u64, ghost t: Tree) returns (ok: bool, ghost t': Tree)
    requires s.Valid(t) && Separate(s.coders, s.rows.Keys + Touched(batches)) && index + |batches| <= U64_MAX
    modifies s, s.mpt, s.store
    ensures ok <==> !s.store.clobbered
    ensures ok ==> s.Valid(t') && s.rows == AllSaved(s.coders, old(s.rows), batches)
    ensures ok && batches != [] ==> s.root == s.rootRow == Some(OrZero(s.mpt.root))
    ensures ok && batches == [] ==> s.root == old(s.root)
  {
    t' := t;
    for i := 0 to |batches|
      invariant s.Valid(t') && s.rows == AllSaved(s.coders, old(s.rows), batches[..i])
      invariant if i == 0 then s.root == old(s.root) else s.root == s.rootRow == Some(OrZero(s.mpt.root))
    {
      CommitNext(s.coders, old(s.rows), batches, i);
      ok, t' := CommitOne(s, batches[i], index + i, t');
      if !ok { return; }
    }
    WholeSlice(batches);
    ok := true;
  }

  /** A commit, or pruning at some height. */
  datatype Event = Commit(batch: Changeset, index: u64) | Prune(height: u64)

  /** The batches committed by a run. */
  function Batches(events: seq<Event>): seq<Changeset> {
    if events == [] then []
    else
      var before := Batches(events[..|events| - 1]);
      match events[|events| - 1]
      case Commit(batch, _) => before + [batch]
      case Prune(_) => before
  }

  lemma {:induction false} BatchesNext(events: seq<Event>, i: nat)
    requires i < |events|
    ensures Batches(events[..i + 1]) == match events[i]
                                        case Commit(batch, _) => Batches(events[..i]) + [batch]
                                        case Prune(_) => Batches(events[..i])
    ensures Batches(events[..i + 1]) <= Batches(events)
  {
    assert events[..i + 1][..i] == events[..i];
    BatchesPrefix(events, i + 1);
  }

  lemma {:induction false} BatchesPrefix(events: seq<Event>, i: nat)
    requires i <= |events|
    ensures Batches(events[..i]) <= Batches(events)
  {
    if i < |events| {
      BatchesPrefix(events[..|events| - 1], i);
      assert events[..|events| - 1][..i] == events[..i];
    } else {
      assert events[..i] == events;
    }
  }

  /** The next commit of a run stays among accounts with different keys. */
  lemma {:induction false} CommitAfter(c: Coders, rows: Rows, before: seq<Changeset>, batch: Changeset, all: seq<Changeset>)
    requires before + [batch] <= all && Separate(c, rows.Keys + Touched(all))
    ensures Separate(c, AllSaved(c, rows, before).Keys + batch.inner.Keys)
    ensures AllSaved(c, rows, before + [batch]) == Saved(c, AllSaved(c, rows, before), batch.inner)
  {
    var i := |before|;
    assert all[..i] == before && all[i] == batch && all[..i + 1] == before + [batch];
    CommitNext(c, rows, all, i);
  }

  lemma {:induction false} DenotedGrew(lib: Lib, a: NodeMap, b: NodeMap, root: Hash32)
    requires Denoted(lib, a, root) && Grew(a, b)
    ensures Denoted(lib, b, root)
  {
    var u := DenotedTree(lib, a, root);
    BackedGrew(lib, a, b, u);
  }

  lemma {:induction false} WrittenGrew(a: NodeMap, b: NodeMap)
    requires Compatible(a, b)
    ensures Grew(a, a + b) && Grew(b, a + b)
  {
  }

  /** The root a commit adds to the log. */
  lemma {:induction false} StoredIsDenoted(lib: Lib, s: NodeMap, t: Tree)
    requires TrieHistory.Canonical(t) && WellFormed(t) && Stored(lib, s, t) && t != Empty
    ensures Denoted(lib, s, HashOf(lib, t))
  {
    TrieHistory.CanonicalIsWhole(t);
    StoredIsBacked(lib, s, t);
  }

  /** A commit keeps the log right, unless it left a different node under a hash used before. */
  method CommitLogged(s: PrimusStorage, batch: Changeset, index: u64, ghost t: Tree) returns (ok: bool, ghost t': Tree)
    requires s.Valid(t) && s.Logged() && !s.mixed && Separate(s.coders, s.rows.Keys + batch.inner.Keys)
    modifies s, s.mpt, s.store
    ensures ok <==> !s.store.clobbered && !s.mixed
    ensures ok ==> s.Valid(t') && s.Logged() && s.rows == Saved(s.coders, old(s.rows), batch.inner)
    ensures ok ==> s.root == s.rootRow == Some(OrZero(s.mpt.root))
  {
    ghost var log, w, nodes, lib := s.gcLog, s.written, s.store.tree, s.store.lib;
    if t != Empty { StoredIsDenoted(lib, nodes, t); }
    var r, newRoot;
    r, newRoot, t' := s.CommitChangeset(batch, index, t);
    ok := r == Committed && !s.mixed;
    if ok {
      WrittenGrew(w, s.store.tree);
      forall i | i in s.gcLog ensures Denoted(lib, s.written, s.gcLog[i]) {
        if i == index && t != Empty {
          DenotedGrew(lib, nodes, s.written, HashOf(lib, t));
        } else {
          DenotedGrew(lib, w, s.written, log[i]);
        }
      }
    }
  }

  /** Where a run of commits and prunings stands after committing `batches`: the trie holds just the rows. */
  ghost predicate InRun(s: PrimusStorage, t: Tree, rows: Rows, batches: seq<Changeset>)
    reads s, s.mpt, s.store
  {
    && s.Valid(t) && s.Logged() && !s.mixed && s.rows == AllSaved(s.coders, rows, batches)
    && (batches != [] ==> s.root == s.rootRow == Some(OrZero(s.mpt.root)))
  }

  method CommitInRun(s: PrimusStorage, batch: Changeset, index: u64, ghost t: Tree, ghost rows: Rows, ghost before: seq<Changeset>)
    returns (ok: bool, ghost t': Tree)
    requires InRun(s, t, rows, before) && Separate(s.coders, s.rows.Keys + batch.inner.Keys)
    requires AllSaved(s.coders, rows, before + [batch]) == Saved(s.coders, s.rows, batch.inner)
    modifies s, s.mpt, s.store
    ensures ok <==> !s.store.clobbered && !s.mixed
    ensures ok ==> InRun(s, t', rows, before + [batch])
  {
    ok, t' := CommitLogged(s, batch, index, t);
  }

  method PruneInRun(s: PrimusStorage, height: u64, ghost t: Tree, ghost rows: Rows, ghost before: seq<Changeset>)
    requires InRun(s, t, rows, before)
    modifies s`gcLog, s.store
    ensures InRun(s, t, rows, before)
  {
    s.PruneUndoWindow(height, t);
  }

  /**
   Any run of commits and prunings, which collect what the logged roots reached: the trie still holds just the
   rows, and the rows are those of the write-sets in order.
   */
  method AnyRunPruned(s: PrimusStorage, events: seq<Event>, ghost t: Tree) returns (ok: bool, ghost t': Tree)
    requires s.Valid(t) && s.Logged() && !s.mixed && Separate(s.coders, s.rows.Keys + Touched(Batches(events)))
    modifies s, s.mpt, s.store
    ensures ok <==> !s.store.clobbered && !s.mixed
    ensures ok ==> InRun(s, t', old(s.rows), Batches(events))
  {
    t' := t;
    for i := 0 to |events|
      invariant InRun(s, t', old(s.rows), Batches(events[..i]))
    {
      BatchesNext(events, i);
      match events[i] {
        case Commit(batch, index) =>
          CommitAfter(s.coders, old(s.rows), Batches(events[..i]), batch, Batches(events));
          ok, t' := CommitInRun(s, batch, index, t', old(s.rows), Batches(events[..i]));
          if !ok { return; }
        case Prune(height) =>
          PruneInRun(s, height, t', old(s.rows), Batches(events[..i]));
      }
    }
    WholeSlice(events);
    ok := true;
  }

  lemma {:induction false} WholeSlice<T>(s: seq<T>)
    ensures s[..|s|] == s
  {
  }

  lemma {:induction false} TouchedPart(batches: seq<Changeset>, i: nat)
    requires i <= |batches|
    ensures Touched(batches[..i]) <= Touched(batches)
    ensures i < |batches| ==> batches[i].inner.Keys <= Touched(batches)
  {
    if i < |batches| {
      TouchedPart(batches[..|batches| - 1], i);
      assert batches[..|batches| - 1][..i] == batches[..i];
    } else {
      assert batches[..i] == batches;
    }
  }

  lemma {:induction false} CommitNext(c: Coders, rows: Rows, batches: seq<Changeset>, i: nat)
    requires i < |batches| && Separate(c, rows.Keys + Touched(batches))
    ensures Separate(c, AllSaved(c, rows, batches[..i]).Keys + batches[i].inner.Keys)
    ensures AllSaved(c, rows, batches[..i + 1]) == Saved(c, AllSaved(c, rows, batches[..i]), batches[i].inner)
  {
    AllSavedKeys(c, rows, batches[..i]);
    TouchedPart(batches, i);
    assert batches[..i + 1][..i] == batches[..i];
    var pks := AllSaved(c, rows, batches[..i]).Keys + batches[i].inner.Keys;
    assert forall pk | pk in pks :: pk in rows.Keys + Touched(batches);
  }
}
