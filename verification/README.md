# Verification of the L1 chain

A Dafny model of the engines of this Rust layer-1 chain and proofs of what they promise. Check it with
`dafny verify dfyconfig.toml`.

What is modelled, file by file:

- `Common.dfy`: machine integers, options, ascending keys, sums over finite maps.
- `Staking.dfy`, `Ledger.dfy`, `History.dfy`: the staking book, the sequential transition with its
  contract host, and the laws that hold along every history of transactions and commits: exact supply,
  consecutive nonces, refusals without trace, time-locked withdrawals.
- `Statement.dfy`, `Stakes.dfy`, `HostLog.dfy`, `Totals.dfy`: what a transaction, a staking payload and a
  guest do, said entry by entry and apart from the code, that the code does exactly this, and what it
  comes to for each account, bond, delegation, contract and slot over every history.
- `Footprint.dfy`, `Optimistic.dfy`, `Stm.dfy`, `Chain.dfy`: what a transaction reads and changes; the
  commit loop as a function and exactly when it equals sequential execution; the speculate / validate /
  merge / re-execute engine that computes it; whole chains of blocks.
- `Quorum.dfy`, `Consensus.dfy`, `Agreement.dfy`, `Restarts.dfy`: saturating tallies, locks, votes and
  commits of one validator, agreement over every run of a network with faulty and restarting validators,
  and the exact conditions it rests on.
- `Trie.dfy`, `TrieStore.dfy`, `HexPrefix.dfy`, `Merkle.dfy`: the hexary trie as a tree and on its
  hash-addressed store, hex-prefix paths, and the binary Merkle tree.
- `NodeCodec.dfy`, `TrieProof.dfy`: node payloads, and proofs that a key is or is not in a trie.
- `Mempool.dfy`: greedy selection of transactions for a block.
- `Kv.dfy`, `Recovery.dfy`, `Codec.dfy`: batches over a failing store, crash recovery, byte formats.
- `Layout.dfy`, `TrieLayout.dfy`: where every field of the byte formats stands and in which byte order.
- `Schedule.dfy`, `Waves.dfy`, `Lottery.dfy`, `Kzg.dfy`: conflict waves and what they promise, the leader
  lottery, polynomial openings.

State that the code updates in place is held in classes whose methods are proved against functions of
the old state; loops are loops. Signatures, hashes, VRF outputs, WASM guests, clocks and machine crashes
are parameters: a signed envelope carries the two facts the signature layer derives from its bytes, a
guest is an arbitrary deterministic function of its code and of the answers its host gave it, and a crash
is the number of writes that landed before it.

## Where the code does less than it says

- Parallel and sequential execution differ on a refused bond. A first bond whose sum overflows is refused
  after the operator was recorded (`crates/execution/src/staking.rs:162-172`); sequential execution keeps
  that operator, a merged speculation does not. The application hash does not cover the staking book, so
  the run-time comparison in `crates/execution/src/stm/mod.rs:39-53` cannot see it.
  `Optimistic.EngineAgreesIff` says exactly on which ledgers this can happen,
  `Optimistic.CommitIffNoLeak` when reusing one speculation is right, and
  `Optimistic.SoundLedgersNotExposed` that ordinary ledgers never meet it.
- That bond also breaks the independence of scheduled waves, and nothing else does
  (`Waves.WavesCommuteIff`).
- A refused transaction is atomic exactly when it is not that bond (`Footprint.RefusalLeavesStateIff`).
- An undelegated amount is burned: it leaves the delegations and is credited to nobody
  (`History.SupplyExact`).
- Unbond ids saturate at the largest 64-bit value, after which a new entry overwrites the previous one and
  its amount is gone (`History.UnbondKeepsHoldingsIff`, `History.LostUnbondExample`).
- The account nonce saturates too, after which a transaction with the largest nonce is accepted again
  (`History.ReplayExample`); no nonce is accepted twice exactly while they last (`History.NoReplayIff`).
- A write-ahead log of signed votes exists (`crates/consensus/src/wal.rs:91-101`), but the node does not
  sign through it: it boots with an empty replay log (`crates/node/src/main.rs:490`), no lock and
  round zero. Agreement in general needs a restart to keep votes, lock and place (`Restarts.AgreesIff`);
  in the node's own loop, which never leaves round zero, it needs exactly the votes
  (`Restarts.RoundZeroAgreesIff`), and they are what the node loses (`Restarts.ForgottenVotesSplit`).
- `commit` files a block under the height of the proposal without comparing it with the height of the
  votes. Agreement on filed heights holds exactly with that comparison (`Restarts.FilesAgreeIff`), and
  `Restarts.TwoNodesPart` calls `commit` twice to show two nodes parting without it.
- `exceeds_two_thirds` refuses every quorum once the total power reaches 2^63, and its documentation
  speaks of `>=` where the code has `>` (`Quorum.HasQuorumIff`).
- `polka` is documented as the highest-power value; the code takes the first value in map order that has a
  quorum. The two are the same on votes of distinct signers (`Quorum.PolkaHeaviest`), in general exactly
  when no other value with a quorum is heavier (`Quorum.PolkaHeaviestIff`), and a repeated signer tells
  them apart (`Quorum.RepeatedSignerExample`).
- `apply_batch` promises all or nothing; a rollback write that fails is ignored (`Kv.HalfBatch`;
  `Kv.AtomicIff` says exactly when the store is restored).
- `recover` does not compare the height of the logged block with the tip (`Recovery.RecoveryGuardsIff`), and
  takes a block for committed as soon as its body is stored, so a batch torn after that is not finished
  (`Recovery.TornCommitIff`).
- A Merkle root does not separate a list whose length is not a power of two from the same list with its
  last complete subtree repeated (`Merkle.RootsEqualIff` lists all such pairs).
- A transaction that is a withdrawal with a stake target encodes but does not decode to itself
  (`Codec.TxIff`).
- A trie node with a value or packed path of 2^32 bytes or more is written with a truncated length and does
  not read back (`NodeCodec.ReadsBackIff`).

## Model

| member | source | states |
|---|---|---|
| Stm.ApplyBlockEngine | crates/execution/src/stm/mod.rs:56-81 | the pipeline computes the engine function; it returns exactly the state, receipts and application hash of sequential `apply_block` on every block in which no refused bond leaks an operator before a staking transaction of that block has succeeded, and on every block of a ledger that is not exposed |
| Optimistic.EngineAgreesIff | crates/execution/src/stm/mod.rs:39-81 | the engine agrees with sequential execution on every block of a ledger if and only if the ledger has no bonded, untombstoned validator without operator whose bond the total liquid balance, if it reaches the minimum bond, could overflow |
| Optimistic.ExposedDiverges | crates/execution/src/staking.rs:162-172 | every exposed ledger has a block on which the two part: gather the balance, overflow the bond, and if the bond was re-run, overwrite the book with a speculation that has not seen it |
| Optimistic.LeakDiverges | crates/execution/src/stm/reexec.rs:68-108 | whenever a block without staking reaches a leaking bond, some block diverges |
| Optimistic.CommitIsSequential | crates/execution/src/stm/reexec.rs:68-108 | whatever was flagged beforehand, a block that loses no leak is committed as it runs sequentially, with every unbumped key at its pre-block contents |
| Optimistic.OneTransactionIff | crates/execution/src/stm/reexec.rs:77-81 | on a one-transaction block the engine agrees if and only if the transaction does not leak |
| Optimistic.NoExposureNoLostLeak | crates/execution/src/staking.rs:156-175 | no block of a ledger that is not exposed loses a leak |
| Optimistic.BookUntouched | crates/execution/src/seq.rs:127-277 | on a ledger that is not exposed, until a staking transaction succeeds, the book is the pre-block one and liquid balances have not grown |
| Optimistic.SoundLedgersNotExposed | crates/execution/src/staking.rs:156-175 | a ledger in which every bonded validator has an operator, or whose whole supply fits in 128 bits, is not exposed |
| Stm.SoundLedgersNeverLeak | crates/execution/src/staking.rs:156-175 | no transaction of any block of such a ledger leaks, whatever its unbond ids |
| Chain.ChainsAgreeIff | crates/execution/src/stm/mod.rs:39-81 | from a ledger, every chain of blocks and commits run by the engine has the states and receipts of sequential execution if and only if no chain leads to an exposed ledger |
| Chain.ChainsAgree | crates/execution/src/stm/mod.rs:39-81 | one chain stays in step when each of its blocks finds a ledger that is not exposed or loses no leak |
| Chain.SoundChainsAgree | crates/execution/src/stm/mod.rs:39-81 | every chain stays in step from a ledger in which every bonded validator has an operator, or whose supply fits in 128 bits |
| Optimistic.TurnIsStep | crates/execution/src/stm/reexec.rs:77-106 | one turn of the loop is one sequential step and keeps unbumped keys at their pre-block contents, unless it loses a leak |
| Stm.ReexecSequential | crates/execution/src/stm/reexec.rs:68-108 | the version-based loop computes the commit function, whatever set of transactions was flagged beforehand |
| Optimistic.CommitIffNoLeak | crates/execution/src/stm/reexec.rs:77-81 | while the committed state agrees with the pre-block state on the inferred keys, merging a speculation gives the state of re-running the transaction if and only if it does not leak |
| Stm.LeakExample | crates/execution/src/staking.rs:162-172 | a concrete ledger and bond on which the engine and the sequential run end in different staking books |
| Stm.CommitOne | crates/execution/src/stm/reexec.rs:77-106 | one turn of the loop: the unflagged speculation merged or the flagged transaction re-run, its keys bumped, and every later run whose versions moved flagged |
| Stm.MovedIffStale | crates/execution/src/stm/validate.rs:20-43 | validation by version flags exactly the runs a bumped key of which was read |
| Stm.StaticFlags | crates/execution/src/stm/validate.rs:46-61 | the flags set before the loop are exactly the write conflicts between speculations |
| Optimistic.CommitKeepsUnmoved | crates/execution/src/stm/reexec.rs:44-64 | after a commit and its bump, a key nothing has bumped still holds its pre-block contents, a contract account key standing for all slots of the contract |
| Optimistic.UnflaggedAgrees | crates/execution/src/stm/validate.rs:20-43 | a run none of whose read keys was bumped sees the pre-block contents on all its inferred keys |
| Optimistic.RefusalKeepsTheRest | crates/execution/src/seq.rs:127-277 | a refused transaction changes the staking book at most |
| Stm.RunIsPlay | crates/execution/src/seq.rs:280-286 | running a block is playing its transactions one by one, which carries the ledger laws over to blocks |
| Stm.Speculate | crates/execution/src/stm/rwset.rs:166-183 | speculation `i` is the run of transaction `i` on the pre-block state under the seeded versions |
| Stm.SpeculateOne | crates/execution/src/stm/rwset.rs:128-162 | read set, write set, observed versions, world and receipt of one speculative run |
| Stm.SeedAndRead | crates/execution/src/stm/rwset.rs:83-118 | version 1 exactly for the accounts and slots that exist, version 0 for everything else and for the staking slot, and those versions observed |
| Stm.Validate | crates/execution/src/stm/validate.rs:20-43 | flags exactly the runs one of whose observed versions is no longer the latest |
| Stm.StaleFromEarlierWrites | crates/execution/src/stm/validate.rs:46-61 | flags exactly the runs touching a key that a run of smaller index wrote |
| Stm.FlagBlock | crates/execution/src/stm/mod.rs:70-73 | before the loop exactly the write conflicts between speculations are flagged, since no version has moved |
| Stm.MergeSpec | crates/execution/src/stm/reexec.rs:17-42 | the loop over write keys copies exactly the chosen accounts, code, slots and staking book |
| Stm.BumpWrites | crates/execution/src/stm/reexec.rs:44-64 | versions of exactly the written keys go up by one, saturating |
| Footprint.EffectFrame | crates/execution/src/stm/rwset.rs:45-66 | a transaction changes nothing outside its inferred keys and, within storage, nothing outside its recorded write set; it deletes nothing |
| Footprint.EffectLocal | crates/execution/src/stm/rwset.rs:45-66 | its receipt, recorded slots and effects are a function of what was under the inferred keys |
| Footprint.MergeIsEffect | crates/execution/src/stm/reexec.rs:17-42 | if two states agree on the inferred keys, merging the run on one into the other is running the transaction on the other, unless it leaks |
| Footprint.MergePointwise | crates/execution/src/stm/reexec.rs:17-42 | the merge of a successful run equals the live run entry by entry |
| Footprint.RefusalLeavesStateIff | crates/execution/src/seq.rs:127-277 | a refused transaction leaves the whole state as it was if and only if it is not an overflowing first bond, and records no slots |
| Footprint.GuestFrame | crates/execution/src/wasm/host.rs:45-81 | a guest only touches slots of its own contract, writes only what it records, and records as read whatever it writes |
| Footprint.GuestLocal | crates/execution/src/wasm/host.rs:45-81 | the outcome of a guest depends on nothing but the slots of its contract |
| Footprint.ReadsOwnContract | crates/execution/src/stm/rwset.rs:128-162 | every slot a transaction records belongs to a contract whose account key is inferred |
| Ledger.World.ApplyTx | crates/execution/src/seq.rs:127-277 | the in-place transition equals the transition function on every payload: checks in the order signature, nonce, gas, balance, then the payload, with its receipt and recorded slots; a failed call restores the snapshot and loses the recorded slots |
| Ledger.World.Execute | crates/execution/src/wasm/call.rs:55-66 | reentrancy and missing code are refused without a change; otherwise the guest runs and the executing set is restored |
| Ledger.World.RunEngine | crates/execution/src/wasm/call.rs:68-112 | the host loop equals the guest function: storage, recorded slots and error |
| Ledger.ApplyBlock | crates/execution/src/seq.rs:280-292 | the block loop equals the fold of the transition over the transactions, with its application hash |
| Statement.EffectIs | crates/execution/src/seq.rs:127-277 | a result is that of `apply_tx` if and only if it fits the statement, which says apart from the code what every receipt, account, contract, slot and book entry becomes; so the statement leaves nothing open |
| Statement.ReceiptIs | crates/execution/src/seq.rs:127-277 | the receipt names the first check that fails, in the order signature, nonce, gas (21000, or 50000 for a deployment, up to 50 million), balance (amount and fee), payload; otherwise the cost and the one event |
| Statement.AcceptedIff | crates/execution/src/seq.rs:127-277 | a transaction is accepted if and only if every check passes |
| Statement.AppHashIff | crates/execution/src/seq.rs:100-107 | with a collision-free hash, equal application hashes mean equal accounts, storage, transactions and receipts |
| Totals.BalanceExact | crates/execution/src/seq.rs:127-277 | over every history an account ends with its start, what it received and withdrew, less what it sent, bonded, delegated and paid in fees, less credits that 128 bits could not hold |
| Totals.NothingDropped | crates/execution/src/seq.rs:254-262 | no credit is dropped while the whole supply fits in 128 bits |
| Totals.SelfBondExact | crates/execution/src/staking.rs:156-204 | over every history a self-bond is its start and what was bonded to it, less what was unbonded from it |
| Totals.OneBonder | crates/execution/src/staking.rs:156-181 | all bonds and unbonds of a validator that a history accepts come from one address, its recorded operator |
| Totals.OperatorIs | crates/execution/src/staking.rs:156-172 | the operator of a validator is whoever first bonded to it and stays so |
| Totals.DelegationExact | crates/execution/src/staking.rs:205-240 | over every history a delegation is its start and what its owner delegated, less what its owner took back |
| Totals.CodeExact | crates/execution/src/wasm/deploy.rs:37-46 | over every history the code at an address is what was last deployed there |
| Totals.SlotExact | crates/execution/src/wasm/host.rs:71-84 | over every history a slot holds what the accepted calls of its contract last stored there |
| Totals.LoadAnswers | crates/execution/src/wasm/host.rs:45-67 | any load of any accepted call answers the last store before it in its own call, or else that of the earlier calls, read as a word; a slot never stored reads as zero |
| HostLog.RunIsTalk | crates/execution/src/wasm/call.rs:68-112 | a guest run is the one list of loads and stores the guest asks for: how it ends, the slots it records and what the last stores leave |
| HostLog.OneTalk | crates/execution/src/wasm/call.rs:68-112 | a guest has only one such conversation |
| HostLog.SlotWordsReadBack | crates/execution/src/wasm/host.rs:35-40 | every 64-bit word reads back from the eight bytes it is stored in |
| Staking.StakingLedger.ApplyStakeTx | crates/execution/src/staking.rs:148-266 | the in-place update equals the book function, error and partial effect included |
| Staking.StakingLedger.DrainPending | crates/execution/src/staking.rs:241-262 | the withdraw loop equals the drain function over the keys in order |
| Staking.DrainPaysExactly | crates/execution/src/staking.rs:241-262 | when the matured total covers the request, the loop removes exactly the requested amount from that owner's matured entries and leaves every other total alone |
| Staking.DrainTouchesOnlyMatured | crates/execution/src/staking.rs:241-262 | entries that are not matured for the owner are unchanged, and touched ones only lose amount |
| Stakes.BookIs | crates/execution/src/staking.rs:148-266 | the book after every payload, entry by entry: who may move which bond, delegation and operator, which entry an unbond files and for which height and epoch, and the one refusal that records an operator |
| Stakes.StakeRefusedFor | crates/execution/src/staking.rs:148-266 | a payload is refused for the first requirement that fails, and accepted if there is none |
| Stakes.PaidIs | crates/execution/src/staking.rs:241-262 | a withdrawal takes matured entries of its owner in the order of their ids: an entry goes, shrinks or stays according to what the smaller ids hold |
| Stakes.OneBook | crates/execution/src/staking.rs:148-266 | the description fits only one book |
| Staking.FoldBounded | crates/execution/src/staking.rs:138-145 | the withdrawable fold never exceeds the true matured total and equals it when it fits in 128 bits |
| Staking.RefusalAtomicIff | crates/execution/src/staking.rs:148-266 | a refused payload leaves the book unchanged if and only if it is not a first bond that overflows |
| Staking.BondsOwnedPreserved | crates/execution/src/staking.rs:156-204 | books in which every non-zero bond has an operator keep that property and never leak |
| Staking.RefusalKeepsPending | crates/execution/src/staking.rs:148-266 | a refusal never touches pending unbonds |
| History.SupplyExact | crates/execution/src/seq.rs:127-277 | over every history from a supply that fits in 128 bits, balances + self-bonds + delegations + pending unbonds fall by exactly the fees of successful transactions, the amounts of successful undelegates, and the pending unbonds overwritten once unbond ids are used up |
| History.NoOverflowAlong | crates/execution/src/seq.rs:127-277 | along every such history no guarded sum of amounts past the balance check overflows (transfer and withdrawal credit, bond, delegation, matured total), and no operator leaks; the sum of amount and fee inside the balance check is not claimed |
| History.SupplyPreventsOverflow | crates/execution/src/seq.rs:148-276 | the same for one transaction |
| History.UnbondKeepsHoldingsIff | crates/execution/src/staking.rs:176-204 | an accepted unbond keeps what the book holds if and only if nothing of value sits under the next unbond id |
| History.SaturatedIdsLose | crates/execution/src/staking.rs:190-204 | with the id counter saturated, two accepted unbonds in a row lose the first amount |
| History.LostUnbondExample | crates/execution/src/staking.rs:190-204 | a concrete ledger on which an unbond of 1 destroys a pending unbond of 5 |
| History.TxConserves | crates/execution/src/seq.rs:127-277 | the same exact balance for one transaction |
| History.TransferConserves | crates/execution/src/seq.rs:240-276 | a transfer loses exactly its fee, self-transfers included |
| History.StakeConserves | crates/execution/src/seq.rs:148-182 | a staking transaction loses exactly its fee, its amount if it undelegates, and the unbond it overwrites |
| History.StakeMovesHoldings | crates/execution/src/staking.rs:148-266 | how an accepted payload moves bonds, delegations and pending unbonds together, overwritten entries included |
| History.UndelegateBurns | crates/execution/src/staking.rs:218-231 | an undelegated amount leaves the book and reaches nobody |
| History.SupplyPreventsLeak | crates/execution/src/staking.rs:156-175 | a supply that fits in 128 bits rules the overflowing first bond out |
| History.IdsFreshAlong | crates/execution/src/staking.rs:190-204 | while the counter lasts, unbond ids stay unused ahead of it and nothing is overwritten |
| History.NoncesConsecutive | crates/execution/src/seq.rs:140-142 | over every history the accepted transactions of a sender carry consecutive nonces from its starting one, until the largest 64-bit nonce, which repeats |
| History.NonceStep | crates/execution/src/seq.rs:127-277 | an account nonce moves exactly when its owner has a transaction accepted, which then carried it |
| History.NoReplayIff | crates/execution/src/seq.rs:140-142 | over every history no nonce of a sender is accepted twice if and only if its accepted transactions have not used up the 64-bit nonces |
| History.ReplayExample | crates/execution/src/seq.rs:140-142 | at the largest nonce the same transfer is accepted twice |
| History.RefusalsLeaveNoTrace | crates/execution/src/seq.rs:127-277 | from a book whose bonds are all operated, every refused transaction of every history leaves the state as it was |
| History.WithdrawalsTimeLocked | crates/execution/src/staking.rs:124-145 | over every history with rising commit heights, what was due to an owner by height `h` at the start plus what they unbonded that unlocks by `h` is exactly what they withdrew, what is still due, and what was overwritten |
| History.UnlockIff | crates/execution/src/staking.rs:124-136 | an unbond unlocks by `h` when the period has passed, except that the largest height unlocks everything |
| History.DueAfterTx | crates/execution/src/staking.rs:176-264 | the same balance for one transaction |
| Quorum.HasQuorumIff | crates/types/src/validator.rs:71-80 | the saturating test is `3 * voted > 2 * total` over true integers, except that it refuses every total from 2^63 on |
| Quorum.TotalPower | crates/consensus/src/qc.rs:34-38 | the saturating fold is the true total capped at 64 bits |
| Quorum.Tally | crates/consensus/src/steps.rs:32-45 | a value is in the tally exactly when a known validator voted for it, with its true weight (duplicates counted) capped at 64 bits |
| Quorum.Polka | crates/consensus/src/steps.rs:54-60 | the first value in map order that has a quorum; nothing exactly when no value has one |
| Quorum.WeightIsPower | crates/consensus/src/steps.rs:32-45 | with distinct signers the weight of a value is the power of its signers |
| Quorum.PolkaIsSupermajority | crates/consensus/src/steps.rs:54-60 | with distinct signers, a polka is more than two thirds of the true power |
| Quorum.PolkaUnique | crates/consensus/src/steps.rs:54-60 | with distinct signers, at most one value is a polka |
| Quorum.PolkaHeaviestIff | crates/consensus/src/steps.rs:53-60 | on any vote list, the value returned weighs most if and only if no other value with a quorum outweighs it |
| Quorum.PolkaHeaviest | crates/consensus/src/steps.rs:53-60 | with distinct signers the value returned is the heaviest one, as documented |
| Quorum.RepeatedSignerExample | crates/consensus/src/steps.rs:32-60 | one validator that votes once for one block and twice for another: the first has the quorum that is returned, the second weighs more |
| Quorum.SupermajoritiesOverlap | crates/consensus/src/qc.rs:30-32 | two supermajorities share more than a third of the power |
| Quorum.HonestOverlap | crates/consensus/src/qc.rs:30-32 | with faulty power at most a third, two supermajorities share an honest validator |
| Quorum.InsertVoteSorted | crates/node/src/wire.rs:355-364 | a second vote of a signer and kind is dropped, any other is inserted and nothing lost, in signer order; lists of one kind keep distinct signers |
| Consensus.VoteReplayLog.Observe | crates/consensus/src/vote.rs:150-167 | the first body of a slot is kept; another body is refused, the same body accepted again |
| Consensus.SigningLog.SignVoteLogged | crates/consensus/src/wal.rs:54-101 | whenever the machine dies, no two different votes are ever signed for one slot, and logged bodies are never replaced |
| Consensus.Validator.WireVote | crates/node/src/wire.rs:182-213 | a prevote leaves exactly when slot, leader, membership and replay log allow it, and is nil exactly when the lock forbids the proposal |
| Consensus.Validator.WirePrecommit | crates/node/src/wire.rs:218-244 | a precommit is for the block exactly when the first polka is that block; the lock is taken with it, and a nil precommit keeps the old lock |
| Consensus.Aggregate | crates/consensus/src/qc.rs:41-83 | succeeds exactly on precommits of one ballot by known validators, counts every signer once, and says which check failed |
| Consensus.CommitLog.Record | crates/consensus/src/safety.rs:30-39 | a height keeps its first hash |
| Consensus.CommitLog.Commit | crates/consensus/src/steps.rs:157-184 | finalizes only what a true supermajority of distinct validators precommitted, for any vote list; says exactly when it stays silent, why it fails, and never changes an earlier commit |
| Agreement.QuorumsAgree | crates/consensus/src/state.rs:25-46 | in every run, restarts included, with faulty power at most a third and restarts that keep votes, lock and place, no two different blocks get precommit quorums at one height, in the same or in different rounds |
| Restarts.AgreesIff | crates/consensus/src/wal.rs:54-101 | agreement holds in every run if and only if a restart keeps the validator's signed votes, its lock, and its place |
| Restarts.RoundZeroAgreesIff | crates/node/src/main.rs:368-376 | over runs that stay in round zero, as the live loop does, agreement holds if and only if a restart keeps the signed votes; lock and place do not matter |
| Restarts.ForgottenVotesSplit | crates/node/src/main.rs:490 | a restart with an empty replay log breaks agreement, within round zero already, whatever else it keeps |
| Restarts.ForgottenLockSplits | crates/consensus/src/state.rs:25-46 | a restart that forgets the lock breaks agreement once a second round is reached |
| Restarts.LostPlaceSplits | crates/node/src/main.rs:493 | a restart into an earlier round breaks agreement even with the lock kept, since a precommit does not ask the lock |
| Restarts.ZeroReached | crates/node/src/main.rs:368-376 | in such runs every honest validator remembers every vote it sent, all of them of round zero |
| Restarts.FilesAgreeIff | crates/consensus/src/steps.rs:176-183 | in every run commits filed under one height are of one block, if and only if commits are filed under the height of their votes |
| Restarts.TwoNodesPart | crates/consensus/src/steps.rs:157-184 | `commit` does not check that: from the precommits of one honest run, two nodes with fresh commit logs finalize different blocks at one height |
| Restarts.TwoHeights | crates/consensus/src/steps.rs:64-151 | the run: an honest validator precommits one block at height 0 and another at height 1 |
| Agreement.RestartKeeps | crates/consensus/src/wal.rs:54-101 | a restart that keeps votes, lock and place keeps the invariant, although the replay log of other validators is lost |
| Agreement.CommitsAgree | crates/consensus/src/steps.rs:157-184 | two certified commits on votes of one height are of one block |
| Agreement.FinalizedAgree | crates/consensus/src/steps.rs:176-183 | two commits filed under the height of their votes agree at their finalized height |
| Agreement.ReachableInv | crates/consensus/src/steps.rs:64-151 | the invariant holds in every reachable state of the network |
| Agreement.LaterPolkasAgree | crates/consensus/src/state.rs:25-46 | after a precommit quorum, every polka of a later round of that height is for the same block |
| Agreement.PrevoteKeeps | crates/consensus/src/steps.rs:64-107 | an honest prevote keeps the invariant |
| Agreement.PrecommitKeeps | crates/consensus/src/steps.rs:122-151 | an honest precommit keeps the invariant |
| Agreement.SwitchIsBacked | crates/consensus/src/state.rs:25-46 | an honest prevote against its own earlier precommit rests on a polka of a later round |
| Agreement.LockOpensIff | crates/consensus/src/state.rs:25-46 | a validator locked on another block of its height may prevote a block if and only if a polka of a later round for it has been sent and its slot is free |
| Agreement.NoLockNoPolka | crates/consensus/src/state.rs:25-46 | without such a lock it needs no polka |
| Agreement.CollectedQuorum | crates/consensus/src/steps.rs:54-60 | a polka over votes really sent, one per signer, is a quorum of the network |
| Agreement.CertifiedQuorum | crates/consensus/src/qc.rs:41-83 | a certified commit is a precommit quorum of the network |
| Trie.GetInsert | crates/state/src/mpt/mod.rs:101-194 | after an insert, `get` on every key of any length is the plain map update |
| Trie.GetDelete | crates/state/src/mpt/mod.rs:197-253 | after a delete, `get` on every key is the plain map removal; deleting an absent key changes no answer |
| Trie.InsertCanon | crates/state/src/mpt/mod.rs:101-194 | insert keeps the trie canonical: no extension over a leaf or extension, no branch with fewer than two occupants |
| Trie.DeleteCanonical | crates/state/src/mpt/mod.rs:197-320 | delete, with its collapse and re-joining of paths, keeps the trie canonical |
| Trie.CanonUnique | crates/state/src/mpt/mod.rs:210-320 | two canonical tries with the same answers are the same trie |
| Trie.GetSplit | crates/state/src/mpt/mod.rs:171-194 | splitting two paths into a branch keeps exactly the two keys |
| Trie.GetCollapse | crates/state/src/mpt/mod.rs:255-280 | collapsing a branch changes no answer |
| Trie.GetNormalize | crates/state/src/mpt/mod.rs:299-320 | re-joining an extension with what is below it changes no answer |
| TrieStore.HashedTrie.Put | crates/state/src/mpt/mod.rs:96-99 | on the hash-addressed store, `put` computes the functional insert and its root |
| TrieStore.HashedTrie.Erase | crates/state/src/mpt/mod.rs:197-208 | `delete` computes the functional delete and its root |
| TrieStore.HashedTrie.Lookup | crates/state/src/mpt/mod.rs:62-65 | `get` answers as the tree does |
| TrieStore.HashedTrie.GetAt | crates/state/src/mpt/mod.rs:67-94 | the recursive lookup through stored nodes |
| TrieStore.HashedTrie.InsertAt | crates/state/src/mpt/mod.rs:101-169 | the recursive insert stores the whole new tree, returns its hash and overwrites no node |
| TrieStore.HashedTrie.SplitLeaves | crates/state/src/mpt/mod.rs:171-194 | the stored split of two leaves |
| TrieStore.HashedTrie.RemoveAt | crates/state/src/mpt/mod.rs:210-253 | the recursive remove stores the whole new tree and returns its hash, or nothing |
| TrieStore.HashedTrie.CollapseAt | crates/state/src/mpt/mod.rs:255-280 | the stored collapse |
| TrieStore.HashedTrie.PrefixChildAt | crates/state/src/mpt/mod.rs:282-297 | the stored prefixing of an only child |
| TrieStore.HashedTrie.NormalizeAt | crates/state/src/mpt/mod.rs:299-320 | the stored normalization |
| TrieStore.HashOfInjective | crates/state/src/mpt/mod.rs:54-60 | with a collision-free hash, equal roots mean equal trees |
| TrieStore.RefinesMap | crates/state/src/mpt/mod.rs:62-253 | after any sequence of puts and deletes over keys of mixed lengths the trie is canonical and `get` agrees with a plain map on every key |
| TrieStore.RootIffContents | crates/state/src/mpt/mod.rs:101-320 | any two operation sequences give the same root if and only if they end in the same contents |
| Trie.ToNibblesInjective | crates/state/src/mpt/path.rs:9-16 | nibble expansion loses nothing |
| TrieStore.Drive | crates/state/src/mpt/mod.rs:96-208 | running the operations on a fresh store ends at the root of the built tree |
| Merkle.AcceptedIff | crates/state/src/merkle.rs:93-105 | with a collision-free hash, a proof is accepted against `compute_root(leaves)` if and only if it is the one `prove` gives for the filled list, its index taken modulo the length of that list; the filled list repeats the last complete subtree until the length is a power of two |
| Merkle.FilledAt | crates/state/src/merkle.rs:37-46 | repeating the last hash of every odd layer amounts to that filled list |
| Merkle.PositionPeriodic | crates/state/src/merkle.rs:93-105 | only as many bits of an index count as the tree is deep |
| Merkle.DepthMatches | crates/state/src/merkle.rs:93-105 | an accepted proof has exactly tree-depth siblings |
| Merkle.ProveVerifies | crates/state/src/merkle.rs:60-105 | every proof from `prove` verifies, for any number of leaves |
| Merkle.RootsEqualIff | crates/state/src/merkle.rs:32-48 | two leaf lists have one root if and only if both are empty, or neither is and they fill up to the same list |
| Merkle.EmptyRootIff | crates/state/src/merkle.rs:32-48 | only the empty list has the root of the empty tree |
| Merkle.RootSplits | crates/state/src/merkle.rs:32-48 | the root of two full halves is the hash of their roots, first half on the left |
| Merkle.RootOfOne | crates/state/src/merkle.rs:32-48 | the root of one leaf is its hash, that of none the empty hash |
| Merkle.RootOfFilled | crates/state/src/merkle.rs:32-48 | any other list has the root of its filled list |
| Merkle.RepeatedSubtreeCollides | crates/state/src/merkle.rs:37-40 | a list whose length is not a power of two has the root of the same list with its last complete subtree repeated |
| Merkle.SixAndEight | crates/state/src/merkle.rs:37-40 | six leaves and the same six followed by the last two have one root |
| Merkle.RootBindsLeaves | crates/state/src/merkle.rs:32-48 | lists of equal length with equal roots are equal |
| Merkle.ComputeRoot | crates/state/src/merkle.rs:32-48 | the layer loop computes the recursive root |
| Merkle.Prove | crates/state/src/merkle.rs:60-88 | the proof loop collects the siblings of the tree; nothing exactly for an index past the end |
| Merkle.Verify | crates/state/src/merkle.rs:93-105 | the verify loop folds siblings by the bits of the index |
| Merkle.FoldUnique | crates/state/src/merkle.rs:93-105 | the start and siblings of a fold that reaches the root are unique |
| Mempool.PeekBestReady | crates/mempool/src/order.rs:15-39 | the offer of the highest fee priority, ties to the smaller address; nothing exactly when nobody has a priced, unskipped next transaction |
| Mempool.PriorityIs | crates/execution/src/fees.rs:9-13 | the priority is the fee per metered gas scaled by 2^64 and rounded down; fees from 2^64 on all count alike |
| Mempool.PriorityOrder | crates/execution/src/fees.rs:9-13 | below that, priorities order transactions exactly by fee per gas |
| Mempool.PicksPayBest | crates/mempool/src/order.rs:43-70 | of all transactions that are next for their account and fit, a pick pays the most per gas; at equal gas no higher fee is passed over, at equal fee no smaller gas |
| Mempool.Pool.TakeReady | crates/mempool/src/order.rs:43-70 | terminates; output plus remaining pool is the original pool; every pick is its account's next nonce and no better next transaction fitted; every pick fitted; at exit nothing that is next and priced still fits |
| Mempool.BuildFrom | crates/execution/src/builder.rs:53-72 | the block gets exactly what `take_ready` handed over |
| Mempool.BuildLocal | crates/execution/src/builder.rs:54-72 | the budget filter keeps only what fits and drops nothing from a list that fits |
| Mempool.TrueTotalsWithinCaps | crates/mempool/src/order.rs:54-66 | below the type limits, true gas and bytes stay within the caps |
| Mempool.Pool.ObserveAccount | crates/mempool/src/queue.rs:38-46 | the nonce is recorded and exactly the stale entries of that account go |
| Kv.FlakyStore.ApplyBatch | crates/storage/src/kv.rs:36-57 | on success the whole batch is applied; on a failed write the store is the key-by-key rollback of the applied part, as far as the rollback writes succeed; on a failed read nothing changed |
| Kv.FlakyStore.Restore | crates/storage/src/kv.rs:59-70 | the rollback writes every remembered value, ignoring errors |
| Kv.FlakyStore.Snapshot | crates/storage/src/kv.rs:37-45 | every key of the batch once, in order of first mention, with its value |
| Kv.AtomicIff | crates/storage/src/kv.rs:36-70 | a failed batch leaves the store as it was if and only if every key the applied part changed was written back |
| Kv.HalfBatch | crates/storage/src/kv.rs:59-70 | a concrete batch that stays half applied because a rollback write fails |
| Recovery.DurableCommitSurvives | crates/storage/src/wal.rs:126-204 | once its log record was durable, a block survives a crash at any write of the commit and any number of crashes inside recovery: recovery ends with exactly the undisturbed commit, no log, and the block stored; before that it ends with no commit at all |
| Recovery.CommitAllOrNothing | crates/storage/src/wal.rs:149-164 | a commit that dies after any write recovers to no commit or the whole commit |
| Recovery.CrashedRecovery | crates/storage/src/wal.rs:169-204 | a crash anywhere inside recovery changes nothing about where recovery ends |
| Recovery.EveryHistorySound | crates/storage/src/wal.rs:126-204 | no history of in-order commits, crashes and restarts spoils the disk or loses a stored block |
| Recovery.FreshDiskSound | crates/storage/src/blocks.rs:135-140 | the disk that `put_genesis_hash` leaves of an empty store is sound |
| Recovery.RecoveryEnds | crates/storage/src/wal.rs:169-204 | recovery ends sound, without a log, keeps every stored block, and returns the replay of the chain it leaves |
| Recovery.ChainStore.CommitWithWal | crates/storage/src/wal.rs:149-164 | the three batches in order, cut off where the machine dies |
| Recovery.ChainStore.Recover | crates/storage/src/wal.rs:169-204 | the batches recovery writes, cut off where the machine dies, and the world it returns |
| Recovery.ChainStore.Reopen | crates/storage/src/wal.rs:169-204 | an undisturbed recovery from a sound disk returns the replay of the stored chain |
| Recovery.ReplayFromGenesis | crates/storage/src/replay.rs:45-82 | succeeds exactly when the anchor matches and every height up to the tip has a block and the hash execution gives; returns that world and hash, or the first mismatching height |
| Recovery.PutNextBlock | crates/storage/src/blocks.rs:66-100 | storing the next block extends a replayable chain by that block and its world, and loses nothing |
| Recovery.PutBlockStores | crates/storage/src/blocks.rs:66-89 | block, application hash, header, header index and tip are in place after the batch |
| Recovery.PutBlockElsewhere | crates/storage/src/blocks.rs:66-89 | the batch touches no other height, nor the log, nor the anchor |
| Recovery.PutBlockIndexes | crates/storage/src/index.rs:17-42 | a transaction of the block is found under its hash at its height and index, with its receipt; the last of several with one hash |
| Recovery.PutBlockKeepsIndexes | crates/storage/src/index.rs:17-42 | transactions of other blocks keep their entries |
| Recovery.LogAhead | crates/storage/src/wal.rs:149-164 | until a commit ends, nothing but the log has changed or the log holds the record |
| Recovery.TornCommitIff | crates/storage/src/wal.rs:169-204 | if the block batch is torn after all, recovery still ends with the whole commit if and only if the block had not been written yet or everything had |
| Recovery.RecoveryGuardsIff | crates/storage/src/wal.rs:169-204 | from any replayable chain, whatever the log holds, recovery leaves a replayable chain if and only if the logged block is not above the next height or its application hash does not match |
| Codec.UnwrapIff | crates/types/src/encoding.rs:14-43 | a buffer opens to a payload if and only if it is the envelope of it and the length fits 32 bits |
| Codec.TxIff | crates/types/src/tx.rs:90-275 | a buffer decodes to a transaction if and only if it is its encoding and the transaction fits: no stray stake target, payload under 2^32 bytes |
| Codec.TxRoundTripIff | crates/types/src/tx.rs:90-275 | decode inverts encode exactly on the transactions that fit |
| Codec.TailIff | crates/types/src/tx.rs:150-274 | the same for each payload variant and its tag |
| Codec.SignedIff | crates/storage/src/codec.rs:117-154 | a buffer decodes to a signed transaction if and only if it is its encoding and it fits |
| Codec.BlockIff | crates/storage/src/codec.rs:157-217 | a buffer decodes to a block if and only if it is its encoding and it fits |
| Codec.ItemsIff | crates/storage/src/codec.rs:188-207 | the transaction list of a body, from any position |
| Codec.EncodeBlockBody | crates/storage/src/codec.rs:157-171 | the encoding loop writes header fields, count and length-prefixed items in order |
| Codec.DecodeBlockBody | crates/storage/src/codec.rs:174-217 | the decoding loop, with every error at the position the code reports it |
| Codec.StoreAndLoad | crates/storage/src/codec.rs:157-217 | encoding a block and decoding it again gives the block back if and only if it fits |
| Codec.WordNumber | crates/types/src/encoding.rs:34 | every byte string is the word of its number |
| Codec.NumberWord | crates/types/src/encoding.rs:18 | every number that fits is read back |
| Layout.WordIff | crates/types/src/encoding.rs:14-43 | numbers are big-endian: byte `i` of `w` is the number divided by 256 to the power `w - 1 - i`, modulo 256, and no other bytes are its word |
| Layout.EnvelopeIff | crates/types/src/encoding.rs:14-22 | an envelope is the byte 1, the length in four bytes and the payload |
| Layout.TxBytesIff | crates/types/src/tx.rs:90-275 | the bytes of a transaction by position: chain id, nonce, gas limit, fee, the tag of each kind, then its fields |
| Layout.SignedTxBytesIff | crates/storage/src/codec.rs:117-154 | length, transaction, signature and key by position |
| Layout.BlockHeadBytesIff | crates/storage/src/codec.rs:157-171 | height, round, proposer, timestamp and count by position |
| Layout.ItemsInOrder | crates/storage/src/codec.rs:157-171 | the transactions of a block follow one another, each behind its length |
| TrieLayout.NibblesAt | crates/state/src/mpt/path.rs:9-16 | the high nibble of every byte comes first |
| TrieLayout.PathBytesIff | crates/state/src/mpt/path.rs:19-36 | the flag byte and nibble pairs of a packed path by position |
| TrieLayout.NodeBytesIff | crates/state/src/mpt/node.rs:34-76 | the tag of each kind of node and its fields in order, the sixteen child slots included |
| HexPrefix.PackedIff | crates/state/src/mpt/path.rs:19-63 | a byte string is the packing of a path and leaf flag if and only if it is clean and unpacks to them |
| HexPrefix.Pack | crates/state/src/mpt/path.rs:19-36 | the packing loop: flag byte, then two nibbles to a byte |
| HexPrefix.Unpack | crates/state/src/mpt/path.rs:39-63 | the unpacking loop, empty input refused |
| HexPrefix.RoundTrip | crates/state/src/mpt/path.rs:19-63 | unpack inverts pack for every nibble list |
| HexPrefix.Repack | crates/state/src/mpt/path.rs:19-63 | pack inverts unpack if and only if the unused flag bits are clear |
| HexPrefix.StoredPath | crates/state/src/mpt/path.rs:66-74 | `decode_path` inverts `encode_path` if and only if the packed path fits the envelope |
| NodeCodec.ReadsBackIff | crates/state/src/mpt/node.rs:34-159 | a written node reads back, whatever bytes follow it, if and only if its lengths fit in 32 bits and its hashes in 32 bytes |
| NodeCodec.SerializeNode | crates/state/src/mpt/node.rs:34-76 | the writer: tag, packed path, lengths truncated to 32 bits, sixteen child slots in order |
| NodeCodec.DeserializeNode | crates/state/src/mpt/node.rs:79-159 | the reader with its slot loop: nothing exactly on a bad tag, a short field, a bad slot byte or a path of the wrong kind; trailing bytes are ignored |
| TrieProof.AcceptedIff | crates/state/src/mpt/proof.rs:162-180 | against the root of a trie, a proof is accepted without a hash collision if and only if it is the stored walk of the key with the value `get` gives, absence included, bound by its Merkle proof |
| TrieProof.AcceptedAgree | crates/state/src/mpt/proof.rs:162-180 | for any root at all, two accepted proofs of one key hold the same nodes and the same value, or two payloads with one hash |
| TrieProof.ShowsIff | crates/state/src/mpt/proof.rs:103-158 | the same for the walk alone: every shorter, longer or altered list of nodes is refused or gives a collision |
| TrieProof.WalkVerify | crates/state/src/mpt/proof.rs:103-158 | the verification loop over nodes and nibbles |
| TrieProof.Verify | crates/state/src/mpt/proof.rs:162-180 | root, chain root, chain proof and walk are all checked |
| TrieProof.Collect | crates/state/src/mpt/proof.rs:33-82 | the proving loop collects exactly the stored walk and the value of the trie |
| TrieProof.Prove | crates/state/src/mpt/proof.rs:26-90 | on a trie that is on file and whose walked nodes fit their format, the proof is the walk with its value and binding, and `verify` accepts it against the root |
| TrieProof.ProveExclusion | crates/state/src/mpt/proof.rs:94-101 | gives a proof exactly for keys the trie does not have |
| TrieProof.StoredOnFile | crates/state/src/mpt/mod.rs:54-60 | a store of records holds, written out, every walk of its tries |
| Schedule.ConflictGraph | crates/execution/src/stm/graph.rs:36-59 | directed edges are exactly the write-to-read-or-write conflicts of different transactions, adjacency exactly their symmetric closure |
| Schedule.Waves | crates/execution/src/stm/schedule.rs:19-43 | terminates; the waves partition `0..n` into ascending independent sets, and what sits in a later wave had a smaller neighbour in every earlier one |
| Schedule.Wave | crates/execution/src/stm/schedule.rs:24-38 | one pass takes an independent set, and whatever it leaves was blocked by a smaller neighbour it took |
| Schedule.WaveBound | crates/execution/src/stm/schedule.rs:19-43 | there are at most (largest degree + 1) waves |
| Schedule.Plan | crates/execution/src/stm/mod.rs:67-68 | no two transactions of a wave touch each other's writes, and every transaction is in exactly one wave |
| Waves.WavesCommuteIff | crates/execution/src/stm/schedule.rs:19-71 | every wave of every block on a ledger ends in one state in every order, if and only if no transaction leaks an operator on that ledger |
| Waves.AnyOrder | crates/execution/src/stm/schedule.rs:19-71 | the transactions of a wave, in any order, end in one state, each with the receipt of its speculation |
| Waves.WaveSettles | crates/execution/src/stm/graph.rs:36-59 | after a wave every entry is what the one speculation that wrote it left, or what it was before |
| Lottery.WeightedLeader | crates/consensus/src/vrf.rs:71-97 | the leader is the validator whose stretch of the cumulative power holds the ticket; the return after the loop is unreachable |
| Lottery.ProportionalTickets | crates/consensus/src/vrf.rs:71-97 | exactly `power(v)` of the tickets in `[0, total)` select `v`, so a validator without power never wins |
| Lottery.OneWinner | crates/consensus/src/vrf.rs:86-92 | no ticket has two winners |
| Kzg.HonestOpeningIff | crates/crypto/src/kzg.rs:150-177 | for every polynomial and points over every commutative ring, `verify` (read in the exponent) accepts an honest commitment and quotient with a claimed value if and only if it is the polynomial's value |
| Kzg.Factor | crates/crypto/src/kzg.rs:136-147 | p(x) = p(z) + (x - z) q(x) for the quotient the code builds |
| Kzg.HornerIsSum | crates/crypto/src/kzg.rs:104-133 | Horner evaluation is the sum of the terms that a commitment adds up |
| Kzg.EvalPoly | crates/crypto/src/kzg.rs:127-133 | the loop is Horner evaluation |
| Kzg.QuotientLoop | crates/crypto/src/kzg.rs:136-147 | the backward loop fills the array with the values at `z` of the tails |
| Kzg.Commit | crates/crypto/src/kzg.rs:104-125 | the commitment is the polynomial at the secret point, zero coefficients skipped; a polynomial longer than the setup is refused |
| Kzg.Open | crates/crypto/src/kzg.rs:150-159 | value and quotient commitment of an opening, refused only when the quotient is longer than the setup |
| Kzg.Setup | crates/crypto/src/kzg.rs:41-70 | the powers of the secret point, refused for degree zero |

## Left out

- Stm.ApplyBlockEngine: blocks hold fewer than 2^64 - 1 transactions. For a single block of an exposed ledger the stated condition is sufficient only: a leaking bond that was re-run may be kept, and a later bond of the same operator may restore what was lost. The exact conditions are per ledger (Optimistic.EngineAgreesIff), per commit (Optimistic.CommitIffNoLeak) for one-transaction blocks (Optimistic.OneTransactionIff), and per ledger over chains (Chain.ChainsAgreeIff).
- Optimistic.ExposedDiverges: addresses are unbounded and any of them may sign, so a fresh one is always at hand.
- Stm.Speculate: threads are left out; results are joined by index, so the order of completion cannot be seen.
- Ledger.ApplyBlock: the application hash is an arbitrary function of accounts, storage, transactions and receipts; that the state root depends on the contents alone is TrieStore.RootIffContents.
- Ledger.World.RunEngine: wasmtime is an arbitrary deterministic guest; remaining fuel after a call and the version overlay are not part of the compared state. `sload` does not depend on them.
- Footprint.EffectLocal: slot keys are kept apart by kind; their byte layout, on which the code relies to tell account, storage and staking keys apart, is not modelled.
- Staking.StakingLedger.ObserveCommit: the last commit hash, the current validator set, epoch updates, effective power and slashing are left out.
- Consensus.CommitLog.Commit: signatures of the certificate are left out; the height of the votes is not compared with that of the proposal, as in the code.
- Consensus.Validator.WireVote: the validator keeps its lock and may be shown an unlocking polka; the live loop of the node passes no lock and no polka and stays in round zero, so it uses only part of this.
- Consensus.SigningLog.SignVoteLogged: which evidence accompanies a refusal is left out, as are logged proposals.
- Consensus.Aggregate: aggregate signatures are left out, and so are certificates received from elsewhere, whose power field is taken as given by the code.
- Agreement.QuorumsAgree: how a node stores its lock and place is left open, since the code does not store them; liveness, timeouts and proposer choice are left out; any validator may prevote any hash it is shown.
- TrieStore.HashedTrie.Put: a node is filed under the hash of its own contents, with its payload kept as a record; TrieProof.StoredOnFile writes it out.
- TrieProof.Prove: a store that misses a node of the walk, on which the code gives no proof, is left out, since every trie keeps its nodes; the domain prefix of a node hash is part of the hash function.
- Mempool.Pool.Admit: signature and balance checks, room limits and eviction are left out.
- Mempool.Pool.TakeReady: assumes that the pool files every transaction under its own nonce, which every method here keeps.
- Recovery.ChainStore.Recover: batches are atomic except in Recovery.TornCommitIff, heights are unbounded, and values that do not decode are values of the wrong kind; which error a failing read gives first is kept only where replay reports it.
- Codec.TxIff: the codec works on the byte-level records of the wire, the ledger on their contents; the map between the two, which derives addresses from keys, is left out.
- Codec.BlockIff: header preimages, receipts, write-ahead records and transaction locators are left out, being fixed-size or the same kind of list.
- Schedule.Waves: assumes the graph is on indices `0..n`; during re-validation the code also schedules graphs on shifted indices and ignores the waves.
- Lottery.WeightedLeader: assumes that the sum of the powers fits in 128 bits.
- Kzg.HonestOpeningIff: curve points are read in the exponent; point encoding errors and pairings are left out, and nothing is said about dishonest commitments.
- Ed25519, BLS, BLAKE3, the VRF proofs and data-availability coding are left out: library calls.
- Networking, gossip, RPC, SDK, faucet, observability, pruning, rent, base fee and rate limits are left out: plumbing or single-function facts.
