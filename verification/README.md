# Merkle distributor: a verified model

The repository distributes tokens from a Merkle root. Off chain, a list of claimants is merged and committed to a
tree; on chain, a distributor pays whoever proves membership, part at once and part as it vests, until the rest is
clawed back. This project models both halves in Dafny 4.11, proves each correct, and joins them: a distributor whose
root and caps come from the builder stays solvent, and every committed claimant can claim in any order.

## How it is organised

| file | what it holds |
|---|---|
| Primitives, MapSums | bytes, digests, u64/i64, little-endian encoding, byte order; sums over maps |
| MerkleTrees | the recursive tree by levels, the flat vector built by nested loops, paths, node count, height |
| MerkleProofs | the on-chain checker, stored proofs, completeness, soundness with an extracted collision, unsorted proof objects |
| TreeBytes | the same in bytes: the order within a pair, the rounds of the checker, the leaf, and the shape of the tree by halves |
| LeafEncoding, AirdropTree | the 32 + 8 + 8 byte leaf, duplicate merging, building and validating a tree |
| Accounts, Vesting, Handlers | records, the token program, the vesting arithmetic, the instruction handlers on mutable accounts |
| Machine, Runtime | the state machine over instructions; the runtime that loads accounts, calls handlers and commits or discards |
| Invariants, RunTheorems, Permissions | what every step keeps; accounting, vesting and clawback over whole runs; exactly when a claim succeeds |
| Refusals, Consequences | exactly when each error occurs; what creation, closing and the setters mean for later instructions |
| Rebirth | what happens across two lives of a closable distributor |
| Solvency, Claimability, Payout, AirdropClaims | the join of the two halves: solvency, claims in any order, claims and withdrawals interleaved with anything |
| Sharding, ClaimIndex | cutting a list into several trees; the service's lookup table |
| Campaigns | one distributor per shard: from the rows to the tokens |

## Modelling choices

- The hash is an arbitrary function `H` from byte strings to 32 bytes. Nothing is assumed of it. Where a property
  needs collision resistance the theorem says "or these bytes collide": `Examine` computes the two distinct inputs
  from the accepted proof and the tree, and over a run the only bytes concerned are those hashed by the commitment
  and by the successful claims (`tally.hashed`).
- Panics (`unwrap`, `assert_eq!`, checked arithmetic, `expect`) are results (`Panicked`, or `None`), and the contracts
  say exactly when they occur.
- A handler is a method on account objects. It updates its working copies before later checks, as the program does,
  and so may leave them dirty on an error; `Runtime.Chain.Submit` proves that the state the chain keeps is then
  unchanged. The `*Effect` functions say what a handler leaves behind; the run theorems are about them.
- An observer's `Tally` is kept beside the state: it sees only which instructions succeed and how balances move, the
  vault's and, per owner, those of the accounts claims are paid into. The accounting and payout theorems compare the
  distributor's own counters and statuses with it.
- A run is any list of instructions by anyone, with the clock and slot advancing, token accounts being opened and
  closed, and tokens minted and sent by others at any point. Attempts to create the distributor again are part of it
  and are refused while the account lives, so for a distributor that cannot be closed the theorems hold of every run
  whatever (`Invariants.NotClosableMeansOneLife`). Of a closable one they speak of one life: `OneLife` excludes only
  a creation that succeeds after a close. Module Rebirth shows why: a surviving status is reachable, the invariant
  holds after re-creation exactly when none survived, and a survivor draws on the next life's vault.
- A program-derived address cannot sign, so a claimant or a foreign token transfer never has the distributor's key.

Where code and HTML documentation differ, the code is followed: anyone may call clawback and it moves the whole vault
balance (programs/merkle-distributor/src/instructions/clawback.rs:31-33 and 68-79, against
programs/merkle-distributor/docs/instructions/clawback.html:44-82), and closing a distributor sweeps the vault instead
of requiring it to be empty (programs/merkle-distributor/src/instructions/close_distributor.rs:47-58, against
docs/instructions/close-distributor.html:65-88). The comment on `calculate_vec_capacity` argues from an upper estimate
of the logarithm; `CapacitySuffices` and `CapacityMarginIsExact` give the exact margin: an estimate up to two below
floor(log2 n) is enough and one three below is not.

## Model

| member | source | states |
|---|---|---|
| `MerkleTrees.New` | merkle-tree/src/merkle_tree.rs:111-161 | the nested loops over computed offsets build, for every item list and both hashing modes, exactly the levels of the recursive tree laid end to end; every index is in bounds |
| `MerkleTrees.RootIsLast` | merkle-tree/src/merkle_tree.rs:163-165 | the last pushed node is the root of the recursive tree, and only the empty tree has none |
| `TreeBytes.SmallTrees` | merkle-tree/src/merkle_tree.rs:119-151 | in bytes: the root of one item a is H(0, a); of two unsorted items H(1, H(0, a), H(0, b)); and of two sorted ones the leaf hash with the first smaller byte goes first, in whichever order the items come |
| `TreeBytes.SmallerHashFirst` | merkle-tree/src/merkle_tree.rs:139-152 | a sorted pair hashes the digest with the first smaller byte first, whichever side it is on; an unsorted pair as it stands |
| `TreeBytes.OddLevelRepeatsLast` | merkle-tree/src/merkle_tree.rs:132-137 | an odd level of two or more nodes has the root of that level with its last node appended |
| `TreeBytes.RootSplits` | merkle-tree/src/merkle_tree.rs:125-158 | the whole shape by halves: the root pairs the root of the largest full tree that leaves something over with the root of the rest, paired with itself up to the same height; two full halves make the pair of their roots |
| `MerkleTrees.FindPath` | merkle-tree/src/merkle_tree.rs:167-202 | the walk with running offsets returns the recursive tree's path for every index, and nothing for an index outside; every slice is in bounds and every entry has exactly one sibling |
| `MerkleTrees.CapacitySuffices` | merkle-tree/src/merkle_tree.rs:88-109 | for all n the number of nodes pushed is at most the reserved capacity, and at most 2n + floor(log2 n), even if the log estimate is two too low |
| `MerkleTrees.CapacityMarginIsExact` | merkle-tree/src/merkle_tree.rs:88-109 | for one leaf more than a full tree the capacity suffices if and only if the estimate is at most two too low |
| `MerkleTrees.NodeCountTight` | merkle-tree/src/merkle_tree.rs:89-102 | one leaf more than a full tree is the worst case: the node bound is met exactly |
| `MerkleTrees.HeightIsCeilLog2` | merkle-tree/src/merkle_tree.rs:79-86 | iterating the level length reaches one node after exactly ceil(log2 n) rounds |
| `MerkleTrees.PathLength` | merkle-tree/src/merkle_tree.rs:172-200 | every path has that length, whatever the index |
| `MerkleTrees.PathFitsHeight32` | merkle-tree/src/airdrop_merkle_tree.rs:166-172 | a tree within the validated node limit has proofs of at most 32 hashes |
| `MerkleProofs.Verify` | verify/src/lib.rs:10-23 | the loop accepts exactly when folding the proof in sorted pairs from the leaf gives the root |
| `TreeBytes.VerifyRound` | verify/src/lib.rs:10-23 | in bytes, for every proof: no element left means the leaf is the root; otherwise the rest must accept H(1, smaller, larger) of the leaf and the next element |
| `MerkleProofs.GetProof` | merkle-tree/src/utils.rs:5-18 | returns the siblings from leaf to root, and panics exactly on an index outside the tree |
| `MerkleProofs.Completeness` | merkle-tree/src/merkle_tree.rs:111-202 | every stored proof of every leaf is accepted against the root, odd levels included, for any hash |
| `MerkleProofs.Extract` | verify/src/lib.rs:10-23 | read backwards against any node of the tree, an accepted proof of any length yields the leaf's position or two distinct hashed inputs with equal hash |
| `MerkleProofs.Examine` | verify/src/lib.rs:10-23 | the same from the root: a computed member or a computed collision between the checker's and the builder's inputs |
| `MerkleProofs.Soundness` | merkle-tree/src/merkle_tree.rs:4-20 | an accepted leaf is committed or hashed bytes collide; the prefixes separate leaves from nodes |
| `MerkleProofs.OwnPathAccepts` | merkle-tree/src/merkle_tree.rs:58-71 | an unsorted tree's path object accepts the hash of its own leaf |
| `TreeBytes.EntryRound` | merkle-tree/src/merkle_tree.rs:58-71 | in bytes, for every path: a left sibling is hashed before the candidate, a right one after it, and the result must be the target from which the rest goes on |
| `MerkleProofs.UnsortedPathBinds` | merkle-tree/src/merkle_tree.rs:58-71 | with two or more leaves it accepts another candidate if and only if the first pair formed collides with the true pair |
| `MerkleProofs.SingleLeafPathAcceptsAnything` | merkle-tree/src/merkle_tree.rs:148-202 | with one leaf the path is empty and accepts every candidate, so the bound is needed |
| `LeafEncoding.EntryBytesInjective` | programs/merkle-distributor/src/instructions/new_claim.rs:114-118 | the 48-byte leaf encoding determines claimant and both amounts |
| `TreeBytes.ClaimOnBytes` | programs/merkle-distributor/src/instructions/new_claim.rs:113-126 | the proof is checked from H(0, H(b)), where b is the key and then both amounts, unlocked first, each of 8 bytes with the least significant first |
| `LeafEncoding.EntitlementAgreement` | programs/merkle-distributor/src/instructions/new_claim.rs:113-126 | a claim passes the proof check only if exactly that (claimant, unlocked, locked) is committed, or hashed bytes collide |
| `AirdropClaims.SameLeaf` | merkle-tree/src/tree_node.rs:21-27 | the builder's node hash is the program's node hash with nothing locked |
| `AirdropClaims.OnlyMergedAmounts` | merkle-tree/src/airdrop_merkle_tree.rs:51-97 | against a built root only a claimant of the tree passes, with its merged amount and locked = 0, or bytes collide |
| `AirdropTree.CombineDuplicates` | merkle-tree/src/airdrop_merkle_tree.rs:52-66 | merges to one node per claimant in first-seen order with the sum of its amounts; panics exactly when some claimant's sum exceeds u64 |
| `AirdropTree.FirstSeenInOrder` | merkle-tree/src/airdrop_merkle_tree.rs:52-66 | earlier in the merged order means first seen earlier in the input |
| `AirdropTree.FirstSeenExact` | merkle-tree/src/airdrop_merkle_tree.rs:52-66 | the merged order has no duplicates and holds exactly the claimants of the input |
| `AirdropTree.MergingConserves` | merkle-tree/src/airdrop_merkle_tree.rs:53-79 | the per-claimant sums add up to the total of the input |
| `AirdropTree.GetMaxTotalClaim` | merkle-tree/src/utils.rs:21-26 | the total, or a panic exactly when it exceeds u64 |
| `AirdropTree.VerifyProof` | merkle-tree/src/airdrop_merkle_tree.rs:212-241 | errs exactly on the empty tree, panics exactly on a wrong root, and never rejects a node's proof |
| `AirdropTree.Validate` | merkle-tree/src/airdrop_merkle_tree.rs:165-209 | on any tree, consistent or not, each error, the panic and acceptance occur if and only if the stated condition on its fields holds |
| `AirdropTree.Build` | merkle-tree/src/airdrop_merkle_tree.rs:51-97 | if-and-only-if conditions for success, each error and the panic, over all inputs; a built tree has distinct claimants, true totals, the committed root and an accepted proof per node |
| `Vesting.VestingExact` | programs/merkle-distributor/src/state/claim_status.rs:54-73 | for all i64 times and u64 amounts the checked, cast arithmetic equals the exact schedule, and errs exactly when the vesting period itself overflows i64 |
| `Vesting.VestedRoundsDown` | programs/merkle-distributor/src/state/claim_status.rs:38-52 | during vesting the payout is the linear share rounded down by less than one token |
| `Vesting.VestedMonotone` | programs/merkle-distributor/src/state/claim_status.rs:38-52 | the schedule never decreases in time |
| `Accounts.TokenProgram.Transfer` | programs/merkle-distributor/src/instructions/new_claim.rs:146-157 | a transfer moves the amount between two accounts of one mint, or fails and changes nothing |
| `Refusals.TransferExactly` | programs/merkle-distributor/src/instructions/claim_locked.rs:93-104 | a transfer changes its two accounts by the amount and nothing else, and each of its errors occurs if and only if its own check is the first that fails |
| `Handlers.HandleNewClaim` | programs/merkle-distributor/src/instructions/new_claim.rs:84-184 | the step-by-step handler has exactly the stated effect on distributor, status and tokens, and the stated error otherwise; unless it stands at the u64 maximum, the node count of its working copy is raised on every error after the first two checks (the transfer's included), and on an exceeded cap the tokens have moved and the total is raised; only the two counters of the distributor's copy are ever written |
| `Handlers.HandleClaimLocked` | programs/merkle-distributor/src/instructions/claim_locked.rs:66-147 | the step-by-step handler pays exactly what has vested since and raises total and withdrawn amount by it, and otherwise returns the stated error; on an exceeded cap the tokens have already moved and the status copy is raised by as much |
| `Handlers.HandleClawback` | programs/merkle-distributor/src/instructions/clawback.rs:49-86 | the same for clawback |
| `Handlers.HandleNewDistributor` | programs/merkle-distributor/src/instructions/new_distributor.rs:75-150 | the same for creation; nothing is written on an error |
| `Handlers.HandleSetClawbackStartTs` | programs/merkle-distributor/src/instructions/set_clawback_start_ts.rs:22-53 | only the clawback start changes, and only if it keeps the delay |
| `Handlers.HandleSetEnableSlot` | programs/merkle-distributor/src/instructions/set_enable_slot.rs:22-26 | only the enable slot changes |
| `Handlers.HandleSetAdmin` | programs/merkle-distributor/src/instructions/set_admin.rs:31-45 | only the admin changes, to a different key |
| `Handlers.HandleSetClawbackReceiver` | programs/merkle-distributor/src/instructions/set_clawback_receiver.rs:31-51 | only the receiver changes, to a different key |
| `Handlers.HandleCloseDistributor` | programs/merkle-distributor/src/instructions/close_distributor.rs:37-60 | the whole vault balance goes to the destination |
| `Runtime.Chain.SubmitCloseClaimStatus` | programs/merkle-distributor/src/instructions/close_claim_status.rs:6-27 | the account constraints remove a closable status of that claimant and admin |
| `Runtime.Chain.Submit` | programs/merkle-distributor/src/instructions/new_claim.rs:101-126 | account checks, handler and commit together are one step of the machine, and a failing instruction leaves the whole state unchanged, also on the errors on which `HandleNewClaim` says the working copies are changed |
| `Runtime.Chain.SubmitAll` | programs/merkle-distributor/src/lib.rs:34-135 | submitting a list of instructions in turn is a run of the machine |
| `Permissions.NewDistributorExactly` | programs/merkle-distributor/src/instructions/new_distributor.rs:89-111 | the creation checks hold if and only if now < start < end and end + 86400 <= clawback start |
| `Refusals.NewDistributorRefusals` | programs/merkle-distributor/src/instructions/new_distributor.rs:15-111 | each error of the creation, the account checks included, occurs if and only if its check is the first that fails, in integers over the arguments and the clock |
| `Consequences.CreationTouchesNothingElse` | programs/merkle-distributor/src/instructions/new_distributor.rs:113-132 | creation writes the record only, with version and base as given, both counters zero and nothing clawed back |
| `Consequences.CreationSetsClawback` | programs/merkle-distributor/src/instructions/new_distributor.rs:113-132 | whatever then happens to tokens and clock, clawback succeeds if and only if the given start has come and the given receiver holds the mint, and moves the whole given vault to that receiver and nothing else |
| `Consequences.CreationSetsClaims` | programs/merkle-distributor/src/instructions/new_distributor.rs:113-132 | the first claim succeeds if and only if the given slot has come, the proof is accepted by the given root and the given limits and vault have room; it pays out of the given vault, and its status carries the given closable flag and admin |
| `Consequences.CreationSetsSchedule` | programs/merkle-distributor/src/instructions/new_distributor.rs:113-132 | a withdrawal moves exactly what the schedule of the given start and end has released beyond what was withdrawn, out of the given vault |
| `Consequences.CreationSetsAdmin` | programs/merkle-distributor/src/instructions/new_distributor.rs:113-132 | for every administrative instruction: the given admin is accepted exactly under the stated condition on the arguments, closing only if closable was given, and nobody else ever is |
| `Consequences.CreationBindsEveryClaim` | programs/merkle-distributor/src/instructions/new_distributor.rs:113-132 | after every run of that life new_claim succeeds if and only if claims are open, the claimant is new and can receive, the given root accepts, fewer claims than the given number have succeeded and what left the vault leaves room under the given total |
| `Consequences.CreationBindsEveryWithdrawal` | programs/merkle-distributor/src/instructions/claim_locked.rs:80-104 | after every run of that life a withdrawal moves exactly what the schedule of the times given at creation has released beyond what was withdrawn, and nothing else |
| `Permissions.NewClaimExactly` | programs/merkle-distributor/src/instructions/new_claim.rs:95-168 | new_claim succeeds if and only if claims are open, the claimant is new and can receive, the proof is accepted, both caps and the vault have room |
| `Refusals.NewClaimRefusals` | programs/merkle-distributor/src/instructions/new_claim.rs:25-168 | for every state and claim each error occurs if and only if its check is the first that fails, account checks and transfer included; InvalidProof exactly when claims are open, the node count has room and the proof is not accepted |
| `Permissions.ClaimLockedExactly` | programs/merkle-distributor/src/instructions/claim_locked.rs:73-125 | in a reachable state claim_locked succeeds if and only if claims are open, the claimant has a status and can receive, something has vested since, and cap and vault have room |
| `Refusals.ClaimLockedRefusals` | programs/merkle-distributor/src/instructions/claim_locked.rs:19-125 | for every state each error occurs if and only if its check is the first that fails; InsufficientUnlockedTokens exactly when the schedule can be computed and nothing has vested since |
| `Permissions.SetClawbackStartTsExactly` | programs/merkle-distributor/src/instructions/set_clawback_start_ts.rs:30-50 | the clawback start can be set if and only if it lies in the future and keeps the day's delay |
| `Refusals.SetterRefusals` | programs/merkle-distributor/src/instructions/set_clawback_receiver.rs:12-51 | for the four setters and every state each error occurs if and only if its check is the first that fails |
| `Consequences.AdminHandsOver` | programs/merkle-distributor/src/instructions/set_admin.rs:31-45 | after the admin is changed every administrative instruction of the new admin is accepted or refused as the old one's was and does the same, every one of the old admin is refused, and nothing else differs |
| `Consequences.ClawbackStartIsMoved` | programs/merkle-distributor/src/instructions/set_clawback_start_ts.rs:24-54 | after the clawback start is set, clawback is refused before it and open from it on, and the rest of the record stays |
| `Consequences.EnableSlotIsMoved` | programs/merkle-distributor/src/instructions/set_enable_slot.rs:22-26 | after the slot is set, claims and withdrawals are refused before it and open from it on, and the rest of the record stays |
| `Consequences.ReceiverIsMoved` | programs/merkle-distributor/src/instructions/set_clawback_receiver.rs:31-51 | after the receiver is set, a clawback that is due moves the whole vault to it and nothing else, and the rest of the record stays |
| `Consequences.CloseExactly` | programs/merkle-distributor/src/instructions/close_distributor.rs:8-60 | with a sound vault closing succeeds if and only if the distributor is closable, its admin signs and the destination holds the mint |
| `Consequences.CloseMovesEverything` | programs/merkle-distributor/src/instructions/close_distributor.rs:37-60 | closing removes the record and moves the whole vault balance to the destination; every other account, the statuses, mints and clock stay |
| `Refusals.CloseDistributorRefusals` | programs/merkle-distributor/src/instructions/close_distributor.rs:8-60 | each error of closing occurs if and only if its check is the first that fails |
| `Refusals.CloseClaimStatusRefusals` | programs/merkle-distributor/src/instructions/close_claim_status.rs:6-27 | each error occurs if and only if its check is the first that fails, and success removes that status only |
| `Permissions.WhoEmptiesTheVault` | programs/merkle-distributor/src/instructions/clawback.rs:49-86 | tokens leave the vault only by open claims, a due clawback, or the admin closing a closable distributor |
| `Permissions.OnlyAdminAdministers` | programs/merkle-distributor/src/instructions/set_admin.rs:10-45 | without the admin's signature no instruction changes admin, receiver, times or slot, or closes the account |
| `Permissions.WhoTouchesAStatus` | programs/merkle-distributor/src/instructions/close_claim_status.rs:6-27 | a status is changed only by its own claimant's withdrawal and removed only by its admin, and only if closable |
| `Rebirth.RebirthIsValidExactly` | programs/merkle-distributor/src/instructions/new_distributor.rs:115-132 | after re-creation the invariant of the run theorems holds if and only if no status survived |
| `Rebirth.StatusSurvivesRebirth` | programs/merkle-distributor/src/instructions/close_distributor.rs:9-60 | a surviving status is reachable: claim, close and re-creation with any root all succeed and end with a count of 0 over a live status with its whole locked amount to draw |
| `Rebirth.SurvivorDrawsOnNextLife` | programs/merkle-distributor/src/instructions/claim_locked.rs:73-125 | once the next life has vested and opened, a survivor's claim_locked succeeds if and only if something is outstanding that fits the new cap and vault, whatever root the next life commits to |
| `Invariants.EveryRunIsValid` | programs/merkle-distributor/src/lib.rs:34-135 | every instruction, by anyone, in any order keeps the combined invariant on times, vault, statuses, receipts and counters within one life, refused attempts at a second creation included |
| `Invariants.NotClosableMeansOneLife` | programs/merkle-distributor/src/instructions/close_distributor.rs:10-17 | a distributor that cannot be closed lives on through every run, so every run is within one life |
| `RunTheorems.ClaimAccounting` | programs/merkle-distributor/src/instructions/new_claim.rs:101-168 | after any run total_amount_claimed is what claims moved out of the vault, what claimants' own token accounts received and what all statuses ever created were paid, at most the cap; num_nodes_claimed is the successful claims, at most its cap; and if not closable, the live statuses, each of whose claimants received exactly what its status says |
| `RunTheorems.SupplyConserved` | programs/merkle-distributor/src/instructions/claim_locked.rs:93-104 | no run, of any lives, creates or destroys tokens beside what a mint puts on record, and only minting changes the record |
| `RunTheorems.PathIndependentVesting` | programs/merkle-distributor/src/instructions/claim_locked.rs:80-114 | after any run a claimant has withdrawn, and been paid, exactly the schedule at its last withdrawal; the next amount is computed without error, stays within the locked amount, and completes it from end_ts on |
| `RunTheorems.TimesStayInOrder` | programs/merkle-distributor/src/instructions/set_clawback_start_ts.rs:30-50 | start < end and the day's delay before clawback hold in every reachable state |
| `RunTheorems.ClawbackIsFair` | programs/merkle-distributor/src/instructions/clawback.rs:49-58 | when clawback succeeds every status has been fully vested for at least a day |
| `RunTheorems.ClawbackExactly` | programs/merkle-distributor/src/instructions/clawback.rs:49-86 | with a sound vault clawback succeeds if and only if it has not happened, is due, and the receiver exists with the mint |
| `Refusals.ClawbackRefusals` | programs/merkle-distributor/src/instructions/clawback.rs:11-86 | for every state each error of clawback occurs if and only if its check is the first that fails, and there are no others |
| `RunTheorems.DueClawbackSucceeds` | programs/merkle-distributor/src/instructions/clawback.rs:49-86 | in every reachable state clawback succeeds if and only if it is due, has not happened and the receiver's account still exists with the mint; and the admin can then name any other account of the mint, with which it succeeds |
| `RunTheorems.ClosedReceiverStopsClawback` | programs/merkle-distributor/src/instructions/clawback.rs:27-29 | the owner of the receiving account can close it if and only if it is empty; a due clawback then fails until the admin names another account, for which the vault itself will do |
| `RunTheorems.ClawbackMovesEverything` | programs/merkle-distributor/src/instructions/clawback.rs:68-83 | clawback leaves the vault empty if and only if the receiver is not the vault or the vault was empty; the receiver gets the whole balance |
| `RunTheorems.VaultMayReceiveItself` | programs/merkle-distributor/src/instructions/set_clawback_receiver.rs:12-36 | the vault is accepted as its own receiver, and a due clawback then succeeds and moves nothing |
| `RunTheorems.CreationAcceptsVaultAsReceiver` | programs/merkle-distributor/src/instructions/new_distributor.rs:35-48 | wherever creation succeeds it also does with the vault as receiver |
| `RunTheorems.ClawedBackVaultKeepsTokens` | programs/merkle-distributor/src/instructions/clawback.rs:42-86 | after the clawback of a distributor that cannot be closed no run lowers the vault balance: what is there, or comes later, stays |
| `RunTheorems.ClawbackIsFinal` | programs/merkle-distributor/src/instructions/clawback.rs:42-86 | afterwards, at the end of every run within the life, every claim and every clawback is refused and the counters, statuses and payouts are those of the clawback |
| `Solvency.RegisterSplits` | programs/merkle-distributor/src/instructions/new_claim.rs:159-168 | the committed total splits into unclaimed entries, what was paid and what is still locked |
| `Solvency.AcceptedClaimAgrees` | programs/merkle-distributor/src/instructions/new_claim.rs:113-136 | a status created by any accepted claim matches its committed entry, or hashed bytes collide |
| `Solvency.SolventInEveryRun` | programs/merkle-distributor/src/instructions/new_claim.rs:101-168 | for every run by anyone: once funded, in every later state before clawback the cap left is exactly what unclaimed and vesting entries are owed and the vault holds at least that, or hashed bytes collide |
| `Claimability.ClaimableInEveryRun` | programs/merkle-distributor/src/instructions/new_claim.rs:84-184 | in every reachable open, funded state each committed claimant without a status can claim, and one with a status can withdraw if and only if something has vested since, or hashed bytes collide |
| `Claimability.EveryoneClaimsInAnyOrder` | programs/merkle-distributor/src/instructions/new_claim.rs:84-184 | from a funded state all committed claims succeed in every order, ending with every node claimed, the cap paid but for the locked parts, and each claimant's own token accounts having received its unlocked part; no assumption on the hash |
| `Payout.EveryoneIsServed` | programs/merkle-distributor/src/instructions/new_claim.rs:84-184 | from any funded state of any run, when all members still missing submit their claims at moments at which claims are open and their receiving account exists, in any order and interleaved with anything, every node ends up claimed and only outstanding locked amounts are left of the cap, or hashed bytes collide |
| `Payout.EveryoneIsPaidInFull` | programs/merkle-distributor/src/instructions/claim_locked.rs:66-147 | and when each also withdraws at some later such moment after end_ts, the run ends with every node claimed, the whole cap paid out, and each committed claimant's own token accounts having received exactly unlocked + locked, nobody else anything, or hashed bytes collide |
| `Payout.NobodyIsOverpaid` | programs/merkle-distributor/src/instructions/claim_locked.rs:80-125 | after every run by anyone, claims have paid into token accounts of committed claimants only, to each at most its unlocked amount and what has vested of its locked amount by now, or hashed bytes collide |
| `Payout.ClaimedOnce` | programs/merkle-distributor/src/instructions/new_claim.rs:23-38 | where statuses cannot be closed, whoever has one is refused a second new_claim at the end of every run |
| `Permissions.ClaimTwiceExactly` | programs/merkle-distributor/src/instructions/close_claim_status.rs:6-27 | after a claim the admin can close its status if and only if the distributor is closable, and the same claim then succeeds again if and only if both caps and the vault had room for two |
| `Payout.DrawCompletes` | programs/merkle-distributor/src/instructions/claim_locked.rs:80-125 | at or after end_ts a holder's withdrawal succeeds if and only if something is outstanding, and leaves nothing outstanding |
| `Payout.EveryoneDrawsInAnyOrder` | programs/merkle-distributor/src/instructions/claim_locked.rs:66-147 | once everyone has claimed and all is vested, the withdrawals of all with something outstanding succeed in every order and the whole cap is paid out, to each claimant's own accounts what its entry is worth; no assumption on the hash |
| `Payout.ClaimWaitDraw` | programs/merkle-distributor/src/instructions/claim_locked.rs:66-147 | from the first claim to the last token: all claims in any order, the wait, all withdrawals in any order succeed, total_amount_claimed ends at max_total_claim, and each claimant's own accounts have received what its entry is worth; no assumption on the hash |
| `Claimability.FundedDistributorExists` | programs/merkle-distributor/src/instructions/new_distributor.rs:65-132 | the hypotheses of the run theorems can be met: for every entry a distributor is born that commits to it, is funded and open |
| `AirdropClaims.AirdropClaimsInAnyOrder` | merkle-tree/src/airdrop_merkle_tree.rs:51-97 | for a tree from the builder the members' claims with their stored proofs succeed in every order and end with both counters exactly at their maxima and each member's own token accounts having received its amount |
| `AirdropClaims.AirdropServesEveryone` | merkle-tree/src/airdrop_merkle_tree.rs:51-97 | for a tree from the builder, the members' claims with their stored proofs, interleaved with anything in any run, end with both counters exactly at the tree's totals and each member's own token accounts having received its amount, nobody else anything, or hashed bytes collide |
| `AirdropClaims.ServedClaimSucceeds` | api/src/main.rs:101-103 | the amount and proof the lookup serves, sent to the distributor created for the tree it names, are paid at every open, funded moment of every run at which the claimant is new and can receive, or hashed bytes collide |
| `Campaigns.ShardedRowsArePaid` | cli/src/bin/instructions/process_create_merkle_tree.rs:12-30 | with one funded distributor per shard, all members coming in any order and interleaved with anything, the distributors together pay out exactly the rows' total and every claimant's own token accounts receive exactly the sum of its rows, or hashed bytes collide at some shard |
| `Sharding.CreateTrees` | cli/src/bin/instructions/process_create_merkle_tree.rs:12-30 | the loop ends, builds one consistent tree per shard with versions 0, 1, ..., and panics exactly when some shard cannot be built, or the limit is zero and there are rows |
| `Sharding.ShardsConcatenate` | cli/src/bin/instructions/process_create_merkle_tree.rs:13-16 | the shards concatenate to the list in order |
| `Sharding.ShardSizes` | cli/src/bin/instructions/process_create_merkle_tree.rs:14-16 | every shard but the last has exactly the maximum number of rows |
| `Sharding.ShardingConserves` | cli/src/bin/instructions/process_create_merkle_tree.rs:12-30 | the shards' trees award every claimant, and in all, exactly what the rows do |
| `ClaimIndex.Load` | api/src/main.rs:61-108 | the loading loops build a table that answers every key as the last loaded tree holding it, and for every tree a summary with its address, version, node count and total; and panic exactly when a total exceeds u64 |
| `ClaimIndex.TotalsCountNodes` | api/src/main.rs:86-91 | over trees whose own totals are true, the rolled-up totals are the number of all nodes and the sum of all amounts |
| `ClaimIndex.LookupFindsLast` | api/src/main.rs:101-103 | a lookup fails exactly when no tree has the claimant, and otherwise answers with the last of its nodes in the last tree that has one, and that tree's distributor |
| `ClaimIndex.LookupServesAcceptedProof` | api/src/main.rs:101-103 | the served amount and proof are accepted by the root of the tree it names |

## Left out

- SHA-256, address derivation, rent, account discriminators, bump seeds and the reserved buffers of the record: the hash is a parameter, addresses are plain keys.
- That the vault is the one associated token account of the distributor: the model checks its mint and owner and its key on record, not how the key is derived.
- Burning, freezing and delegation of tokens, changes of a token account's owner, who may mint, and native tokens, whose accounts may be closed with a balance: the token program is modelled as transfers, opening and closing of accounts, and minting by anyone.
- Several distributors in one state: each of `Campaigns` is a machine of its own, to which the others' claims are transfers by others.
- Logs, events and the remaining-time message of claim_locked: output only.
- `ui_amount_to_token_amount` and CSV, JSON and bincode parsing: the model starts from integer amounts and decoded trees.
- File listing and writing around the sharding loop and the loading loop, and the HTTP routes: library input and output.
- The final sort of the distributor summaries by version in the service: it only orders a display list.
- Overflow of `usize` lengths: a vector's length is a natural number; where a length becomes a version number the bound Rust puts on vectors is required.
- Capacity of the node vector as memory: `VecCapacity` and the node count are related, but the vector in `New` has no capacity.
- Early exit of `VerifyProof` on a rejected proof: the flag is proved never to drop, so the exit never happens.
- Slot-from-time estimation, key-value proof files, mass sending, RPC clients and the other languages' clients: plumbing around the calls modelled here.
