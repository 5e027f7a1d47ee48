# Primus: verified models of the layer-1 core

This project models the parts of the Primus node whose correctness does not follow from reading one
function, and proves what they are for.

- **Trie** (`Hashing`, `TrieShape`, `TrieHistory`, `TrieStore`, `TrieProof`, `ProofBinding`, `MerklePatriciaTrie`,
  `Exchange`): the Merkle-Patricia trie on two levels, an inductive tree and a content-addressed store, with
  insert, delete, proofs, proof checking and garbage collection as they run on the store.
- **Ledger** (`Ledger`, `LedgerMass`, `LedgerNonce`, `LedgerBalance`, `LedgerRules`, `Contracts`, `Dispatcher`): the
  virtual machine's overlay changeset and saturating arithmetic, mass in total and account by account, nonces,
  exact conditions of acceptance, the transfers of contracts, and batches that mix the two.
- **Storage and chain** (`Storage`, `Chain`, `UndoWindow`, `ChainMass`): committing a batch to trie and rows,
  undo logs, block finalization and reorganisation.
- **Network** (`Distance`, `RoutingTable`, `Lookup`, `Cipher`, `NoiseStream`, `Rpc`, `Framing`): Kademlia
  routing and lookup (sections 2.2 and 2.3 of the Kademlia paper), the encrypted stream, the client's message
  transport, and chunking.

`Basics`, `Sorting` and `Machine` (runs of a state machine and induction over them) hold what several of these share.

Code that changes state in the source is a class or a method with loops here, and its contract equates the new
state with a function of the old one; the properties are lemmas about those functions. Hash functions, ciphers,
serialisers, the signature check and the floating-point physics are function parameters, so every result holds
for all of them. Premises about them are named: `Hashing.Faithful` (different nodes serialise differently),
`Cipher.Sound` (decryption undoes encryption under the same nonce, and the tag is 16 bytes),
`Storage.Separate` (the accounts in use have different trie keys), and "no put replaced a different node", which
the store records in `clobbered`. Every lemma switches automatic induction off, so its body is its proof.

What the proofs found about the code:

- `verify_proof` finds an extension by comparing steps by value, so a second extension of the same length on a
  path is read at the offset of the first. `ProofsVerify` states the exact condition under which a built proof is
  accepted, `SameLengthMisread` gives a small trie and a key for which it is not, and `ProofsComplete` is the
  usable form.
- `verify_proof` takes an exclusion proof's last sibling for the hash of the node at its end, and it does not
  check that all siblings are used up. Acceptance alone therefore does not tell absence from presence
  (`AbsentAndPresent`), and without an extension or a shown leaf it does not even depend on the key (`AnyKey`,
  `AbsentAtRoot`). With no sibling left over, which can be checked by counting, it does determine the value
  (`OneValue`, `LeftOverCounted`), and `BuiltProofBinds` and `RowProofBinds` name what remains.
- A branch hash does not depend on the order of the children (`ExchangedChildrenSameRoot`), so two different
  nodes may have one hash without any collision of BLAKE3. Four rows are enough for a trie that no store can
  hold (`Unstorable`), and putting them loses a node (`Replaces`): the law that the trie holds just the rows is
  not true of all rows, and "no put replaces a different node" is a premise of its own. `StorableExactly` says
  which tries can be stored at all.
- Pruning may take nodes from roots that are still logged; `SurvivesCollection` says exactly when it does not.
- Committing an empty batch to an empty database sets the root cell to 32 zero bytes, under which there is no
  node; no proof can be had until a row exists (`ProofsAvailable`, `ProofAfterEmptyCommit`). If the database is
  opened again before that, trie and root cell start at the zero bytes, every commit that touches an account
  fails, and no row or proof can exist any more (`Reopen`, `StuckForever`).
- The reorganisation's depth check looks at the fork's base, the rollback goes down to the ancestor found
  (`DepthCheckExact`, `DepthCheckMisses`), up to nine blocks with the logs that are kept (`RollbackReach`,
  `NineBlocksUndone`). `ShorterForks` says how much shorter than the replaced chain a fork
  may be before the logs of a full-depth rollback are gone.
- `find_node` returns nothing, rather than its seeds, when the first round learns of nobody new (`FindNode`).
- Two inserts of one peer that overlap at the ping leave it in its bucket twice (`InterleavedDuplicate`). What the
  code would have to test after the ping is exact: over any interleaving ids stay distinct if and only if every
  eviction finds the new peer not in the bucket by then (`DistinctExactly`).
- The host's check of `transfer_mass` uses the chain balance and the dispatcher the running one; they agree
  exactly when nothing of the chain balance has been spent in the batch (`HostPromise`).
- At `u64::MAX` a nonce stays where it is (`NonceSticksAtTop`), and one and the same reaction is accepted twice.
  A new account starts with the nonce its first payer writes down (`CreationNonce`), so one reaction is enough to
  get there (`AcceptedTwice`). An account's accepted reactions carry different nonces exactly as long as the first nonce and
  their number do not pass the top by more than one (`NoReplayExactly`).
- A contract call moves the nonce of its sender without comparing it (`DispatchedNonces`), so the nonce results
  are about native reactions.
- The last activity of an account is documented as the block of its last reaction (primus-types/src/atom.rs:237),
  but no reaction ever writes it (`ActivityNeverRecorded`), so decay counts from whatever block an account came with.
- Blocks are executed by the virtual machine alone, without the dispatcher (primus-core/src/pvm.rs:70-82), and so a
  block with a contract call is refused (`AcceptedExactly`).
- A failed commit leaves the height at the failed block; every other failure leaves it alone (`FailedHeight`).
- A reorganisation that rolled back and failed at its first block leaves the latest number pointing at a removed
  block; any block whatever is then taken for an extension (`FailedReorgForgets`).
- An end of stream inside a frame header is reported as an orderly end (`PollRead`, `OrderlyEnd`).
- `send_raw` accepts an empty message, which the receiver answers with an error while its four length bytes stay
  in the buffer; and it truncates the length to 32 bits before checking it (`ParseAppFrame`, `RecvRaw`).

## Model

| member | source | states |
|---|---|---|
| Hashing.KeyToNibblesInjective | primus-storage/src/mpt.rs:59-66 | different 32-byte keys take different paths through the trie |
| Hashing.XorSplit | primus-storage/src/mpt.rs:35-54 | the XOR of all children of a branch is that of all but one combined with the one, which is what a compact proof relies on |
| TrieShape.GetInsert | primus-storage/src/mpt.rs:226-342 | after an insert a lookup finds the new value at its key and what it found before at every other key |
| TrieShape.GetDelete | primus-storage/src/mpt.rs:351-450 | after a delete with collapse and merge a lookup finds nothing at the key and what it found before at every other key |
| TrieHistory.InsertCanonical | primus-storage/src/mpt.rs:226-342 | insert keeps the canonical shape: non-empty extension prefix over a branch, at least two entries per branch |
| TrieHistory.DeleteCanonical | primus-storage/src/mpt.rs:351-450 | delete restores the canonical shape |
| TrieHistory.Unique | primus-storage/src/mpt.rs:219-450 | two canonical tries that answer every lookup alike are the same trie |
| TrieHistory.HistoryIndependent | primus-storage/src/mpt.rs:219-450 | any two sequences of inserts and deletes that end in the same map end in the same trie, hence the same root hash |
| MerklePatriciaTrie.RunHistory | primus-storage/src/mpt.rs:219-450 | a history of inserts and deletes run on the store ends with the root of the trie that `HistoryIndependent` is about |
| TrieHistory.DeleteAbsent | primus-storage/src/mpt.rs:344-450 | deleting an absent key changes nothing |
| TrieHistory.InsertThenDelete | primus-storage/src/mpt.rs:219-450 | inserting a fresh key and deleting it again gives the trie back |
| TrieStore.DenotesOne | primus-storage/src/mpt_store.rs:15-27 | in a given store a root hash denotes at most one trie |
| TrieStore.OldTriesSurvive | primus-storage/src/mpt_store.rs:15-32 | every trie an earlier root denoted is still denoted by it after puts that replace no different node |
| TrieStore.ExchangedChildrenSameRoot | primus-storage/src/mpt.rs:35-54 | exchanging two children of a branch keeps its hash, whatever the hash function |
| Exchange.StorableExactly | primus-storage/src/mpt_store.rs:15-27 | some store holds a trie if and only if its subtrees all hash differently |
| Exchange.Unstorable | primus-storage/src/mpt.rs:35-54 | a canonical trie of four rows that no store holds, whatever the hash function |
| Exchange.Replaces | primus-storage/src/mpt_store.rs:22-27 | putting those four rows into a new trie always replaces a node by a different one |
| TrieStore.NoCycle | primus-storage/src/mpt.rs:114-176 | a node of a stored trie is not among the nodes below it, so the recursive walks end |
| TrieStore.ClosedCovers | primus-storage/src/mpt.rs:114-142 | a hash already collected has everything below it collected, so skipping it loses nothing |
| TrieStore.SurvivesCollection | primus-storage/src/mpt.rs:97-176 | a trie in the store, such as that of a root still logged, survives the collection of another if and only if the two share only what the current one uses |
| TrieStore.TrimStored | primus-storage/src/mpt.rs:144-176 | a root whose trie lost nodes to earlier collections denotes what is left of it |
| MerklePatriciaTrie.SledMptStore.PutNode | primus-storage/src/mpt_store.rs:22-27 | the node is stored under its hash, everything else stays unless a different node had that hash |
| MerklePatriciaTrie.CommonPrefix | primus-storage/src/mpt.rs:559-563 | the length of the longest common prefix |
| MerklePatriciaTrie.MerklePatriciaTrie.Get | primus-storage/src/mpt.rs:178-217 | lookup through the store is lookup in the tree the root denotes, and fails exactly when a node on the path is missing |
| MerklePatriciaTrie.MerklePatriciaTrie.Insert | primus-storage/src/mpt.rs:219-342 | the new root denotes the tree after the insert, the store only grows, and an error changes nothing |
| MerklePatriciaTrie.MerklePatriciaTrie.Delete | primus-storage/src/mpt.rs:344-450 | the new root denotes the tree after the delete, none for the empty one, and the answer is then 32 zero bytes |
| MerklePatriciaTrie.MerklePatriciaTrie.GcSince | primus-storage/src/mpt.rs:97-176 | exactly the nodes reachable from the old root and not from the current one are removed, once each, and counted; the current root denotes what it did; with an empty trie nothing is removed |
| MerklePatriciaTrie.MerklePatriciaTrie.CollectReachable | primus-storage/src/mpt.rs:114-142 | the live set grows by exactly the hashes of the trie |
| MerklePatriciaTrie.MerklePatriciaTrie.DeleteUnreachable | primus-storage/src/mpt.rs:144-176 | removes just the hashes of the old trie outside the live set, each counted once although subtries are shared |
| MerklePatriciaTrie.MerklePatriciaTrie.Prove | primus-storage/src/mpt.rs:453-557 | the proof built through the store is the one the tree prescribes: value, root, siblings and path |
| TrieProof.VerifyProof | primus-storage/src/mpt.rs:565-668 | the loop over the steps accepts exactly when hashing up from the terminal node reaches the root |
| TrieProof.ProofsVerify | primus-storage/src/mpt.rs:453-668 | the verifier accepts a built inclusion or exclusion proof if every non-terminal extension is read at the right nibbles, and only if, unless BLAKE3 collides |
| TrieProof.ProofsComplete | primus-storage/src/mpt.rs:453-668 | every built proof is accepted when the non-terminal extensions on its path have pairwise different lengths |
| TrieProof.SameLengthMisread | primus-storage/src/mpt.rs:648-659 | a trie with two extensions of one nibble on a path whose valid proof is rejected |
| ProofBinding.ValueBinding | primus-storage/src/mpt.rs:565-668 | two accepted inclusion proofs that differ in the value alone yield a concrete collision |
| ProofBinding.OneValue | primus-storage/src/mpt.rs:565-668 | with no sibling left over, a key, path, siblings and root are accepted with one value, or with absence, only; otherwise a collision is exhibited, or a branch's own slot holds a value that hashes to 32 zero bytes, and with that value absence and presence are accepted alike |
| ProofBinding.LeftOverCounted | primus-storage/src/mpt.rs:575-668 | whether siblings are left over shows from their number and the path alone |
| ProofBinding.BuiltProofBinds | primus-storage/src/mpt.rs:453-668 | with the path, siblings and root of a built proof, for a key present or absent, what the trie holds is accepted, and anything else only if a collision is exhibited, with the zero hash in a branch's own slot, or as a value where absence was shown by another leaf, and then one sibling is left over |
| ProofBinding.AbsentAndPresent | primus-storage/src/mpt.rs:579-667 | siblings left over are not checked: a canonical trie of two leaves whose proof of absence is accepted, and accepted too with a value put in, whatever the hash function |
| ProofBinding.NoSlotAtFullKey | primus-storage/src/mpt.rs:507-522 | where all keys are equally long no path of a key ends at a branch's own slot |
| ProofBinding.NeverPresent | primus-storage/src/mpt.rs:568-637 | a path that is empty or ends at an extension or an empty slot is never accepted with a value |
| ProofBinding.AnyKey | primus-storage/src/mpt.rs:565-668 | without an extension above the end and a leaf that shows its value, acceptance does not depend on the key |
| ProofBinding.AbsentAtRoot | primus-storage/src/mpt.rs:593-605 | absence at a single leaf or extension is accepted if and only if the last sibling is the root |
| ProofBinding.SiblingBinding | primus-storage/src/mpt.rs:565-668 | two accepted proofs that differ in one consumed sibling alone yield a concrete collision |
| ProofBinding.UnusedSiblings | primus-storage/src/mpt.rs:575-668 | siblings in front of the consumed ones do not matter |
| ProofBinding.RootBinding | primus-storage/src/mpt.rs:565-668 | a proof, whatever its path, is accepted for one root only |
| ProofBinding.EmptyPathShowsNothing | primus-storage/src/mpt.rs:568-570 | an empty path shows absence from the empty trie, and from no other unless its root is 32 zero bytes |
| Ledger.Pvm.ExecuteSingle | primus-vm/src/pvm.rs:57-293 | one reaction, with its checks in order and aliasing of sender, receiver and architect through the overlay; a failed one leaves the changeset as it was |
| Ledger.ExecutePayload | primus-vm/src/pvm.rs:300-324 | a batch applies in order or is refused with its first error |
| LedgerRules.AcceptedExactly | primus-vm/src/pvm.rs:57-293 | exactly when a reaction is accepted: signature, heat, complexity, partner, nonce and the balance its payload needs; a reward for the architect alone; a contract call never |
| LedgerRules.AdmitExactly | primus-vm/src/pvm.rs:96-174 | exactly when the checks of a reaction that is not a reward pass |
| LedgerRules.BatchAdmitted | primus-vm/src/pvm.rs:96-161 | every reaction of an accepted batch that is not a reward is signed by its sender or the architect and was admitted at the heat it came to |
| LedgerRules.HeatOfRun | primus-vm/src/pvm.rs:113-125 | the heat of an accepted batch is the sum of its positive curvatures, and never above the capacity |
| LedgerRules.ChargesExactly | primus-vm/src/pvm.rs:127-161 | the fee is the energy rounded down; the tax is that of the scaled complexity of 100, 350 or 600 |
| LedgerRules.CodeDeployed | primus-vm/src/pvm.rs:252-279 | a batch leaves under a hash the code deployed there last, and nothing if none was |
| LedgerRules.EvolvesExactly | primus-vm/src/pvm.rs:350-366 | an account goes up one element exactly at 4000, 6000 and 50000, never more than one at a time and never down |
| LedgerRules.ExecLives | primus-vm/src/pvm.rs:75-278 | a reaction records its hash with its sender only, a reward with the architect, and touches neither neutrons nor last activity nor quantum state of any known account |
| LedgerRules.ActivityNeverRecorded | primus-types/src/atom.rs:237 | over any accepted batch the last activity of an account stays what it was, although it is documented as the block of its last reaction |
| LedgerBalance.ExecBalances | primus-vm/src/pvm.rs:75-278 | one accepted reaction moves the balance of every account by what its roles say: price and decay out, amount, fee, tax or reward in, added up where roles coincide, nothing for others |
| LedgerBalance.BatchBalances | primus-vm/src/pvm.rs:300-324 | over an accepted batch every account ends with what it had, less what it paid, and what it gained |
| LedgerBalance.DecayIsLost | primus-vm/src/pvm.rs:335-347 | decay takes something only after more than 100 idle blocks, less five a neutron, and never more than there is |
| LedgerBalance.BurnedIsLost | primus-vm/src/pvm.rs:178-212 | a transfer takes out of circulation its fee and the decay of both accounts |
| LedgerBalance.GenesisBalances | primus-vm/src/pvm.rs:229-249 | an architect not on chain comes into being with 10^9 uncharged, and fee and tax are paid out all the same |
| LedgerBalance.GenesisNonce | primus-vm/src/pvm.rs:229-234 | with the nonce it carries, not one more |
| LedgerMass.ExecMass | primus-vm/src/pvm.rs:75-278 | one accepted reaction changes the total mass by what it mints and burns, however the accounts coincide |
| LedgerMass.BatchMass | primus-vm/src/pvm.rs:57-324 | an accepted batch changes the total by rewards and new receivers' snapshot mass, minus transfer fees, decay taken and 100 a deployed code byte |
| LedgerNonce.ExecNonces | primus-vm/src/pvm.rs:75-278 | a reaction moves the nonce of its sender alone, by one, and carried the stored nonce; rewards and credits move none |
| LedgerNonce.BatchNonces | primus-vm/src/pvm.rs:300-324 | over any accepted batch an account's nonce counts the reactions it sent, from the nonce it had or came into being with, up to the top of the counter, and each carried the count |
| LedgerNonce.CreationNonce | primus-vm/src/pvm.rs:176-239 | an account comes into being only as the receiver of a transfer or Generic, with the nonce in the sender's record of it |
| LedgerNonce.EveryAccountFollows | primus-core/src/state.rs:75-79 | in any accepted run every account has a first nonce: it is on chain at the start or comes into being at most once |
| LedgerNonce.RunNonces | primus-core/src/state.rs:75-79 | across batches the reactions of any account, on chain at the start or created on the way, carry consecutive nonces from its first one, up to the top of the counter and its last value from there on |
| LedgerNonce.NoReplayExactly | primus-vm/src/pvm.rs:164-174 | an account's accepted reactions carry pairwise different nonces if and only if its first nonce plus their number is at most `u64::MAX` + 1 |
| LedgerNonce.NoReplay | primus-vm/src/pvm.rs:164-174 | up to that bound no reaction is accepted twice, within a batch or in two, and later ones carry higher nonces |
| LedgerNonce.NonceSticksAtTop | primus-vm/src/pvm.rs:176-214 | at the top of the counter the nonce stays |
| LedgerNonce.AcceptedTwice | primus-vm/src/pvm.rs:164-239 | an account created at the top of the counter has one and the same transfer accepted and paid for twice in the batch that created it |
| Contracts.HostState.TransferMass | primus-vm/src/wasm/wasmtime_backend.rs:80-116 | a request is taken exactly when it is from the caller, positive and within the chain balance less what is pending; otherwise nothing changes |
| Contracts.DispatchContract | primus-vm/src/dispatch.rs:72-106 | the transfers are applied one by one to the running changeset, then the caller's nonce moves on |
| Contracts.AcceptedMovesApply | primus-vm/src/dispatch.rs:72-96 | every list the host accepts applies, total mass unchanged, if the running balance is at least the chain balance |
| Contracts.ContractCallConserves | primus-vm/src/dispatch.rs:72-106 | the whole call succeeds, keeps the total mass and moves the caller's nonce by one |
| Contracts.HostPromise | primus-vm/src/wasm/wasmtime_backend.rs:98-112 | all accepted lists apply if and only if the running balance is at least the chain balance |
| Dispatcher.Execute | primus-vm/src/dispatch.rs:113-163 | a batch of native payloads and contract calls applies in order on one changeset and one heat, or is refused with its first error |
| Dispatcher.NoCalls | primus-vm/src/dispatch.rs:127-160 | without contract calls the dispatcher does what the virtual machine does |
| Dispatcher.MixedBalances | primus-vm/src/dispatch.rs:113-163 | over an accepted batch with calls every account ends with what it had, moved by its native roles and by the transfers of the calls' lists |
| Dispatcher.MixedNonces | primus-vm/src/dispatch.rs:98-163 | from any point at which an account is known its nonce counts the native reactions and the calls it sends, up to the top of the counter |
| Dispatcher.MixedHeat | primus-vm/src/dispatch.rs:141-144 | no accepted batch with calls gets hotter than the capacity |
| Dispatcher.CallBalances | primus-vm/src/dispatch.rs:72-96 | a call that succeeds moves each balance by what its list sends out and in |
| Dispatcher.CallAcceptedExactly | primus-vm/src/dispatch.rs:127-145 | exactly when a call goes through |
| Dispatcher.CallTouches | primus-vm/src/dispatch.rs:72-106 | a call touches balances only, and nonce and last reaction of its sender; a new receiver is bare hydrogen with nonce 0 |
| Dispatcher.DispatchedMass | primus-vm/src/dispatch.rs:72-106 | a call that succeeds keeps the total mass, whatever list of transfers it comes with |
| Dispatcher.MixedMass | primus-vm/src/dispatch.rs:113-163 | an accepted batch with calls among it changes the total mass by exactly what its native reactions bring in and take out |
| Dispatcher.DispatchedNonces | primus-vm/src/dispatch.rs:98-106 | a call moves its sender's nonce by one and no other, and its effect does not depend on the nonce it carries |
| Storage.PrimusStorage.CommitChangeset | primus-core/src/storage.rs:121-179 | after a commit the trie holds just the new rows, and root cell, root row, history and log record what they should; a missing trie node changes nothing |
| Storage.PrimusStorage.GetProof | primus-core/src/storage.rs:184-195 | the proof of the trie, or an error when the root cell holds 32 zero bytes instead of a root, reopened database included |
| Storage.AnyRun | primus-core/src/storage.rs:121-179 | after any sequence of commits the trie holds just the rows, and the rows are those of the write-sets in order |
| Storage.PrimusStorage.PruneUndoWindow | primus-core/src/storage.rs:299-323 | exactly the log entries below the window go; the current trie loses nothing, and of their roots only those it uses stay in the store |
| Storage.AnyRunPruned | primus-core/src/storage.rs:121-323 | over any run of commits and prunings with their garbage collection the trie holds just the rows |
| Storage.TrieValue | primus-core/src/storage.rs:121-195 | the trie value, and the proof value, at the hashed key is the account's row, or absent with it |
| Storage.ProofOfRow | primus-core/src/storage.rs:184-195 | the proof of an account verifies and carries its row or its absence, under the condition of `ProofsComplete` |
| Storage.RowProofBinds | primus-core/src/storage.rs:184-195 | with a value or absence put into the proof of an account only its row, or its absence, is accepted, unless a collision is exhibited, or another leaf showed its absence and a sibling is left over |
| Storage.RootOfRows | primus-core/src/storage.rs:121-179 | the root depends on the rows alone, not on how updates were ordered and grouped |
| Storage.ProofsAvailable | primus-core/src/storage.rs:146-161 | once something was committed, root cell and trie agree exactly when there is a row |
| Storage.ProofAfterEmptyCommit | primus-core/src/storage.rs:121-195 | after a commit of nothing to a new database root cell, root row and history hold 32 zero bytes, the trie has no root, and every proof request fails |
| Storage.Reopen | primus-core/src/storage.rs:24-46 | reopened after a commit the trie is what it was if and only if there is a row; otherwise trie and root cell start at 32 zero bytes |
| Storage.StuckForever | primus-core/src/storage.rs:121-195 | from there every commit that touches an account fails, those that touch none record 32 zero bytes, no row is ever added and no proof can be had |
| Chain.Engine.FinalizeSolidification | primus-core/src/processor.rs:173-263 | one block, its errors, a failed commit included, and the state each leaves; a success with the next number keeps rows equal to memory and every log leading one block back |
| Chain.FailedHeight | primus-core/src/processor.rs:174-212 | a failed block moves the height if and only if its commit failed; it never touches memory, and rows only on a root mismatch |
| Chain.FailedBlock | primus-core/src/processor.rs:173-212 | which error a failed block has and the whole state it leaves |
| Chain.FinalizedExactly | primus-core/src/processor.rs:173-212 | a block is finalized if and only if it executes, commits, and claims no root or the one computed |
| Chain.RootAgreement | primus-core/src/processor.rs:201-212 | wherever a block that claims a root is finalized, from whatever states, the computed roots are equal |
| Chain.SavedSealed | primus-core/src/processor.rs:201-238 | a finalized block is the latest and saved under its number with the root computed |
| Chain.RunsAgree | primus-core/src/processor.rs:173-263 | two runs of the same blocks from whatever states agree on every root claimed |
| Chain.RunSaved | primus-core/src/processor.rs:173-263 | a run leaves each block saved with its computed root and the last as the latest |
| Chain.RunChecked | primus-core/src/processor.rs:446-457 | every block of a completed run passed the proof-of-work check and computed the root it claims |
| Chain.FirstWriteWins | primus-storage/src/types.rs:33-35 | of any sequence of values recorded the first for an account stays |
| Chain.RecordAll | primus-core/src/processor.rs:214-218 | the log holds the value of every changed account before the block |
| Chain.Engine.PruneUndoWindow | primus-core/src/storage.rs:299-323 | exactly the logs more than the window below the height go |
| Chain.Engine.FindCommonAncestor | primus-core/src/processor.rs:312-340 | the highest saved block below the fork's base whose hash is its parent, or 0 |
| Chain.RollbackExact | primus-core/src/processor.rs:345-436 | undoing kept logs down to a block restores the atoms right after it |
| Chain.RollbackInvertsRun | primus-core/src/processor.rs:173-436 | rolling back any run of finalized blocks gives memory and rows back as they were, for accounts created or touched any number of times |
| Chain.Engine.PerformReorg | primus-core/src/processor.rs:279-474 | depth check, ancestor, logs, rollback and re-application, and how each ends |
| Chain.ReorgValid | primus-core/src/processor.rs:279-474 | a refused reorganisation changes nothing; a completed contiguous one leaves a consistent state on the fork's tip |
| Chain.CompletedFork | primus-core/src/processor.rs:446-457 | every block of a completed fork passed the proof-of-work check, and two nodes that complete it agree on the roots it claims |
| Chain.TooDeepExactly | primus-core/src/processor.rs:288-308 | a fork is refused as too deep if and only if the parent's number of one of its blocks lies more than six below the tip |
| Chain.DepthCheckExact | primus-core/src/processor.rs:301-340 | the rollback stays within the finality depth if and only if the fork's parent is saved within that depth, or the chain is no longer than that |
| Chain.DepthCheckMisses | primus-core/src/processor.rs:301-340 | a fork that passes the check although its ancestor is nine blocks down |
| UndoWindow.RollbackReach | primus-core/src/processor.rs:301-373 | with the logs of the window, a fork that passes the check is rolled back if and only if its ancestor is at most nine blocks down |
| UndoWindow.NineBlocksUndone | primus-core/src/processor.rs:301-436 | that fork is neither refused for depth nor for a missing log, and nine blocks are rolled back |
| UndoWindow.WindowAfterRun | primus-core/src/storage.rs:299-305 | a run of blocks leaves exactly the logs of the window |
| Chain.ExtendsAnything | primus-core/src/processor.rs:93-146 | every block is taken for an extension if and only if no block is saved under the latest number |
| Chain.NextVerdict | primus-core/src/processor.rs:95-139 | after a finalized block: its child extends, a heavier one of the same height replaces, one of the next height with another parent replaces if heavier by more than one, later ones leave a gap, the rest is known |
| Chain.FailedReorgForgets | primus-core/src/processor.rs:400-460 | after a reorganisation that failed at its first block this is so if and only if something was rolled back |
| ChainMass.BlockMass | primus-core/src/processor.rs:173-263 | a finalized block changes the mass in memory by exactly what its reactions mint and burn |
| ChainMass.BlockBalances | primus-core/src/processor.rs:173-263 | after a finalized block the atom of each account in memory holds what it had, less what it paid, and what it gained |
| ChainMass.RollbackMass | primus-core/src/processor.rs:345-436 | a rollback gives the total mass back, a corollary of `RollbackInvertsRun` |
| Chain.Engine.ProcessNetworkCrystal | primus-core/src/processor.rs:88-153 | which blocks extend, replace, are refused or ignored, and the state after each |
| UndoWindow.NeverLogMissing | primus-core/src/processor.rs:301-373 | over runs of consecutive blocks and of contiguous forks not shorter than the tip, a rollback within the finality depth never lacks a log |
| UndoWindow.ShorterForks | primus-core/src/storage.rs:299-305 | after a shorter fork the logs of a full-depth rollback are kept exactly when it ends at most three blocks below the old tip or reaches six above the ancestor |
| Distance.LexIsNumeric | primus-net-opt/src/dht.rs:47-54 | comparing distances byte by byte is comparing them as numbers |
| Distance.DistInjective | primus-net-opt/src/dht.rs:47-54 | different ids have different distances to a target |
| Distance.BucketRange | primus-net-opt/src/dht.rs:61-68 | bucket `i` is exactly the range of distances whose highest bit is bit 255 - i |
| RoutingTable.AnyInterleaving | primus-net-opt/src/dht.rs:92-203 | with inserts split at the ping and mixed with others and removals, every bucket keeps at most 20 peers, each in the bucket of its distance, never the local node |
| RoutingTable.FinishKeepsDistinct | primus-net-opt/src/dht.rs:109-114 | the half of an insert after a dead ping keeps ids distinct if and only if the peer is not in the bucket, its tail aside, by then |
| RoutingTable.DistinctExactly | primus-net-opt/src/dht.rs:92-203 | over any interleaving ids stay distinct throughout if and only if that holds at every eviction |
| RoutingTable.WholeInsertsKeepDistinct | primus-net-opt/src/dht.rs:92-203 | any run of inserts that are not interleaved, and of removals, keeps ids distinct |
| RoutingTable.InsertKeepsDistinct | primus-net-opt/src/dht.rs:92-174 | an insert that is not interleaved keeps ids distinct |
| RoutingTable.InterleavedDuplicate | primus-net-opt/src/dht.rs:147-174 | two overlapping inserts of a new peer into a full bucket leave it there twice |
| RoutingTable.RoutingTable.Insert | primus-net-opt/src/dht.rs:147-174 | refresh, prepend, or replace a dead tail; distinct ids stay distinct |
| RoutingTable.RoutingTable.RemovePeer | primus-net-opt/src/dht.rs:198-203 | the id is gone from the whole table and nothing else changes |
| RoutingTable.RoutingTable.GetClosest | primus-net-opt/src/dht.rs:205-232 | returns, nearest first, as many peers of all buckets together as asked for, or all of them, and leaves out none nearer than one it returns |
| RoutingTable.ClosestIsNearest | primus-net-opt/src/dht.rs:205-232 | the same of the selection from any list of peers |
| RoutingTable.InsertOutcome | primus-net-opt/src/dht.rs:92-114 | after an insert the peer is in front of its bucket, at its old address if it was known, unless the bucket is full and its oldest answers; nobody goes but an oldest that does not answer |
| RoutingTable.OthersKeepOrder | primus-net-opt/src/dht.rs:92-114 | the other peers of the bucket keep their order |
| RoutingTable.RemoveIdExactly | primus-net-opt/src/dht.rs:116-122 | removal takes out just the peer and keeps the others in order |
| Lookup.MergeIsNearest | primus-net-opt/src/lib.rs:168-173 | sorting by distance, dropping repeated ids and cutting to K gives exactly the K nearest ids, each once |
| Lookup.NearestStep | primus-net-opt/src/lib.rs:168-173 | the nearest of the nearest so far and some more are the nearest of everything, so nothing cut off is missed |
| Lookup.NextBatch | primus-net-opt/src/lib.rs:114-130 | the first peers of the queue not visited yet, at most three, none only if all are visited |
| Lookup.HeardExactly | primus-net-opt/src/lib.rs:146-162 | peers heard of are those named in the answer to some query of the batch, and nobody else |
| Lookup.FindNode | primus-net-opt/src/lib.rs:101-188 | the K nearest of all ids seen exactly when there are no seeds or the first round learns of somebody new; never the local id; no peer asked twice; it ends, with everybody returned asked or nothing new in the last answers |
| NoiseStream.NoiseStream.PollFlush | primus-net-opt/src/noise.rs:601-616 | whatever parts the transport takes, what was sent and what is buffered stay the wire of the accepted plaintexts; it waits or fails only if the transport, asked, did |
| Cipher.FrameLayout | primus-net-opt/src/noise.rs:572-596 | a frame byte by byte: two bytes of length, high byte first, six zeros for a browser, the ciphertext |
| Cipher.ChunksFull | primus-client/src/rpc.rs:157 | all chunks but the last are 65519 bytes long, and there is none too many |
| NoiseStream.NoiseStream.PollWrite | primus-net-opt/src/noise.rs:564-599 | a prefix of at most 65519 bytes is accepted as one frame under the next nonce, always so when nothing is buffered; otherwise nothing is, and then the transport, asked, waited or failed |
| NoiseStream.NoiseStream.PollRead | primus-net-opt/src/noise.rs:478-555 | hands out the next accepted bytes, in order, however the frames arrive in parts: decrypted bytes at once, else the next frame as soon as it is complete; decryption cannot fail; an end before a complete header is reported as orderly, one inside a frame as an error; it waits or fails only if the transport, asked, did |
| NoiseStream.Fidelity | primus-net-opt/src/noise.rs:478-616 | bytes delivered are a prefix of bytes accepted, and all of them once nothing is buffered or under way |
| NoiseStream.OrderlyEnd | primus-net-opt/src/noise.rs:494-514 | at an end before a complete header, which `PollRead` reports as orderly, the stream was cut between frames exactly when no byte of a header had arrived |
| NoiseStream.AnyRun | primus-net-opt/src/noise.rs:478-616 | over any run of writes, flushes and reads and any transport: what was accepted are cuts of the written buffers in order, bytes read are a prefix of it, equal once drained, and each nonce counts the frames of its side |
| Rpc.NoiseTransport.SendRaw | primus-client/src/rpc.rs:148-172 | the message goes out as length and bytes in frames of at most 65535 bytes under consecutive nonces, or is refused unsent by its length modulo 2^32 |
| Rpc.NoiseTransport.FillBufTo | primus-client/src/rpc.rs:174-193 | reads whole frames until the target is reached, never one of a later message |
| Rpc.NoiseTransport.RecvRaw | primus-client/src/rpc.rs:195-213 | the next message and nothing more leaves the transport; after an error the same bytes are still there |
| Rpc.ParseAppFrame | primus-client/src/rpc.rs:148-213 | an accepted message arrives as it was exactly when it is neither empty nor longer than 16 MiB |
| Rpc.ParseExactly | primus-client/src/rpc.rs:195-213 | exactly how a reading ends, by the announced length and the bytes that follow |
| Rpc.AppFrameLayout | primus-client/src/rpc.rs:148-156 | a message on the wire: four bytes of length, highest first, and its bytes |
| Rpc.AnyRun | primus-client/src/rpc.rs:148-213 | over any run of sends and receives, messages received and then those pending are the messages sent, in order, with nonces in step |
| Framing.ChunkMessageExact | primus-core/src/framing.rs:76-103 | refused exactly above 16 MiB; chunks fit a Noise message, are numbered without truncation and carry the whole message; an empty message has none |
| Framing.ChunkReassembler.Feed | primus-core/src/framing.rs:123-151 | one chunk: expired streams go, the chunk joins its stream, a full stream is joined, checked and removed |
| Framing.FeedOutcome | primus-core/src/framing.rs:123-151 | a stream that is answered is gone, right or with the wrong hash; one that is not keeps the chunk |
| Framing.OnlyHashed | primus-core/src/framing.rs:123-151 | over any arrivals at all, data handed over has the hash its stream was opened with, is not late, and is joined from chunks that came since |
| Framing.ReassemblesExactly | primus-core/src/framing.rs:76-158 | over chunks of any messages in any order, at any times and any number of times, a chunk returns its message, whole, exactly when it is the last one missing since its stream was opened |
| Framing.Reassembles | primus-core/src/framing.rs:76-158 | within the time limit and with nothing after completion, each message is returned whole exactly at its last missing chunk and nothing earlier |
| Framing.TimeLimitExact | primus-core/src/framing.rs:155-158 | with each chunk coming once, the last one of a message of any size completes it if and only if it comes within 30 seconds of the first |

## Left out

- f32 physics (chamber, curvature, entropy tax, decay rate, difficulty): parameters of the ledger, which holds for arbitrary values; the entropy total that `execute_payload` also returns is a field of the machine and no result speaks of it.
- ML-DSA, SHA3, BLAKE3, ChaCha-Poly, bincode and the Noise handshake: function parameters with the laws named above.
- Disk, socket and serialisation errors (`?` on sled, TCP and bincode calls): not modelled, except where the transport itself waits, fails or ends.
- Storage.PrimusStorage.CommitChangeset: stops at the first put that replaces a different node, as the model's own flag tells it; the source would go on, and nothing is claimed from there.
- MerklePatriciaTrie.MerklePatriciaTrie.Insert: what happens after a put that replaced a different node is not stated, because the root then no longer determines one trie.
- MerklePatriciaTrie.MerklePatriciaTrie.Delete: likewise.
- MerklePatriciaTrie.RunHistory: stops at such a put.
- Storage.AnyRun: stops at such a put.  That some runs meet one is `Exchange.Replaces`.
- Storage.AnyRunPruned: stops at such a put, and at a commit that leaves a different node under a hash used before, collected since or not; it starts from a log that is right, as the empty log of a new database is.
- Chain.Engine.PruneUndoWindow: in the chain model pruning removes undo logs only; the trie's part is `Storage.PrimusStorage.PruneUndoWindow`.
- Chain.Engine.FinalizeSolidification: the trie root of a block enters as a parameter, and the reorganisation rewinds rows and memory but, like the source, not the trie.  A comment there (primus-core/src/processor.rs:275-278) says later commits rebuild the trie; the code does not take accounts the undone blocks created out of it, so trie and rows are stated to agree for runs of commits alone.
- Proof-of-work, chamber temperature and the other thermal state of the engine: an oracle and omitted.
- Unbroken block numbers after a reorganisation: the ancestor may lie below the fork's base minus one, so consistency is stated for contiguous forks.
- LedgerMass.BatchMass: needs the architect on chain and room in 64 bits for the total and what comes in; the genesis branch of Generic is excluded by that.
- LedgerNonce.RunNonces: covers the native payloads; contract calls move nonces as `DispatchedNonces` says.
- Dispatcher.Execute: loading a contract and running it, with its gas, is one function of the call; a changeset after a failed batch is not stated, because the caller drops it.
- The Wasmtime engine and all host functions but `transfer_mass`: foreign code.
- Lookup.FindNode: answers are a function of the query's number and the peer; inserting peers named in answers into the routing table and marking silent ones failed happen beside the loop and are left to the routing-table results.
- Lookup.MergeIsNearest: the unstable sort is a stable one here; ids at equal distance are equal, so only the choice between two records of one id differs.
- NoiseStream.NoiseStream.PollFlush: a transport that reports a ready write of zero bytes makes the source spin; such transports are excluded, as are nonces at 2^64.
- Rpc.NoiseTransport.RecvRaw: an exhausted connection reads as ended; waiting for more bytes and the client's timeout are not modelled.
- ProofBinding.OneValue: binding is stated for proofs that share key, path, siblings and root; `verify_proof` takes path and siblings from the proof, and that acceptance by itself determines the value is not true (`AbsentAndPresent`, `AbsentAtRoot`).
- ProofBinding.ValueBinding: compares two present values; absence and presence are in `OneValue`.
- Sectoral mempool, gossip de-duplication, QUIC, UDP discovery, NAT, IPC, CLI, terminal UI, wallet files and the setup wizard: easier members or thin wrappers.
- `verify_proof_pure` of the SDK: it hashes nodes differently from the trie, so no agreement is claimed.
