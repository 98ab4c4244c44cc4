# ZK account recovery: model and proofs

A Nido account can be recovered by whoever knows an enrolled secret. The secret's
commitment is a leaf of a Merkle pool on chain. A proof of membership starts a recovery,
which becomes executable after a timelock, can be cancelled or burned in the meantime, and
is completed by adding the proven passkey to the account. The account protects the rule
that makes this possible, and freezes while a recovery runs. This project models that
system and proves what it keeps in every run, under arbitrary calls.

## How it is laid out

| files | subject |
|---|---|
| `Wrappers`, `Bytes`, `Digits` | options and failures, byte strings and big-endian values, numerals and their texts |
| `MerkleTree`, `Frontier`, `MerklePool` | the padded full tree as reference; the incremental frontier and the ring of roots that stand in for it |
| `FieldHash` | which vectors of field elements leaves, nullifiers and proof targets are hashed from, and what they bind |
| `Recovery`, `RecoveryContract` | one call of the recovery contract as a function from state to state or error; the class with its storage maps, its early writes and the host's rollback, proved against it |
| `RecoveryRuns`, `NullifierLife`, `RateLimits` | whole runs: completion safety, reservations, consumption, nonces, rolling window, cancels |
| `Histories`, `Outcomes` | the contract told by the history of accepted calls alone: what it stores, exactly when each entry point accepts, and the error with which it aborts otherwise |
| `Credentials` | from the circuit to runs: what enrolled leaves and proof targets bind, which account a nullifier stands for, and how many entries one credential has |
| `Accounts`, `SmartAccount` | one call of a smart account, as a function and as a class; the guards, and the removal procedure |
| `TwoContracts`, `RuleProtection`, `FreezeAndRemoval` | runs of the recovery contract with any number of accounts: the protected rule, the freeze, removal and enrolling again |
| `AccountRuns` | what each account call changes and leaves alone, and exactly when it is accepted, in such runs |
| `Projection`, `WorldRuns`, `Completion` | each such run contains a run of the recovery contract with the same storage; its theorems carried over; completion end to end, and `enforce` outside a completion |
| `IndexerTree`, `Indexer`, `IndexerAgreement` | the off-chain mirror of the pool, and its agreement with the contract |
| `Cbor`, `WebAuthn`, `Attestations` | a CBOR grammar and the walk over it; extracting the P-256 key from an attestation |
| `Signature` | DER to 64-byte low-S form |
| `RuleScan` | finding the rule that holds a key on an account whose rule ids have gaps |

The functions in `Recovery` and `Accounts` say what a call means in terms of stored state.
`Outcomes` and `AccountRuns` say the same without naming that state: an account's open
recovery is the last accepted initiation that no accepted call has disturbed, a spent
nullifier is one that an earlier accepted call consumed, a nonce is a count of accepted
calls, the rate limit looks at the times of accepted initiations, and the known roots are
those of the accepted insertions.

A run is a sequence of calls with ledger times; where a theorem needs time not to go
backwards it says so (`Chronological`). An aborted call changes nothing: the classes write
as the source does, before later checks can fail, and `Invoke` undoes those writes.
Poseidon2, SHA-256 and the proof verifier are function-valued parameters, so every theorem
holds for any such functions. Where a theorem needs a verifying proof to tie its nullifier
to one account, `NullifierLife.Binds` is an explicit premise. `Credentials.BindsOrCollides`
derives it for every run whose verifying calls have circuit witnesses, unless two of them
exhibit a Poseidon2 collision, and `NullifierLife.ForeignBurnLeavesRecord` shows what would
go wrong without it.

## Where code and documentation differ

The model follows the code.

- The comment on `enforce` (contracts/zk-recovery/src/policy.rs:139-146) says that only an
  account's own auth resolution ever calls it. The code checks the account's authorisation
  and nothing about the caller: `enforce` is also accepted as a call of its own under the
  account's auth, with a context argument that names the rotation. It then consumes the
  record and spends the nullifier, and adds no rule, although a cancel or a burn would need
  a proof. This stays so after the rule has been removed, where the comment on `uninstall`
  calls it unreachable (contracts/zk-recovery/src/policy.rs:290-293).
  `Completion.EnforceAloneIsAccepted` gives the case, and
  `Completion.EnforceInstallsKeyIffCompletion` says which accepted `enforce` adds the key.
- The contract compares nullifiers as 32-byte strings and does not ask for canonical ones,
  while the verifier reads its public inputs into the field
  (contracts/vendor/ultrahonk-soroban-verifier/src/field.rs:43-48). "Once per nullifier" is
  therefore once per string: N and N + r satisfy the circuit alike.
  `Credentials.OneEntryIff` gives the exact condition under which one credential has one
  entry, `Credentials.AliasIsEnteredApart` the failing pair. Commitments are checked
  (contracts/zk-recovery/src/pool.rs:69-74).
- The comment on `enroll_zk_recovery` (contracts/smart-account/src/contract.rs:338-343)
  tells an account to swap controllers by removing its rule and enrolling again. Swapping
  works, but coming back does not, as the comment on `uninstall` concedes
  (contracts/zk-recovery/src/policy.rs:296-301): this contract refuses a second enrollment
  for ever. `RuleProtection.EnrollsIff` gives the exact condition,
  `RuleProtection.NoSecondEnrollment` the statement over runs, and
  `FreezeAndRemoval.RemovedAccountIsRefused` a run that gets there.
- The guard's own error documentation (contracts/smart-account/src/contract.rs:30-34) lists
  four blocked operations; the code also blocks `add_policy`, and the freeze theorem
  relies on it.
- The recovery rule's name and signers are not protected: `update_context_rule_name` and
  `add_signer` take the recovery rule's id like any other. No theorem says otherwise.

## Model

| member | source | states |
|---|---|---|
| MerkleTree.Tree.RootIsFullTree | contracts/zk-recovery/src/merkle.rs:46-55 | The positional root used as reference is the root of the full tree, split in halves, over the leaves followed by zero leaves. |
| MerkleTree.Tree.EmptyNode | contracts/zk-recovery/src/merkle.rs:46-55 | A node wholly to the right of the last leaf has the zero-subtree value of its level. |
| MerkleTree.Tree.FullNode | contracts/zk-recovery/src/merkle.rs:147-175 | A node whose leaves are all taken never changes again, which is why one stored sibling per level is enough. |
| MerkleTree.Tree.EveryLeafOpens | circuits/zk_recovery/src/main.nr:13-20 | Every stored leaf has siblings and bits with which the circuit's climb arrives at the pool's root. |
| Frontier.ZeroChain | contracts/zk-recovery/src/merkle.rs:46-55 | Entry l is the root of the all-zero tree of height l. |
| Frontier.SeedNeverRead | contracts/zk-recovery/src/merkle.rs:70-81 | Any values of the right number serve as the first frontier: none of them is ever used. |
| Frontier.ClimbStep | contracts/zk-recovery/src/merkle.rs:160-175 | The value handed up from a level is the grown tree's node on the next level, at even and at odd positions. |
| Frontier.Climb | contracts/zk-recovery/src/merkle.rs:147-176 | For any depth and hash, the bottom-up pass over the frontier yields the grown tree's root and a frontier fit for the next leaf. |
| MerklePool.MerklePool.constructor | contracts/zk-recovery/src/merkle.rs:93-105 | A new pool holds no leaves, with next index and ring head zero. |
| MerklePool.MerklePool.LoadFrontier | contracts/zk-recovery/src/merkle.rs:70-81 | The stored or seeded frontier is right for the leaves inserted so far. |
| MerklePool.MerklePool.InsertLeaf | contracts/zk-recovery/src/merkle.rs:147-199 | The leaf is appended at the next index and all of frontier, ring and counters again describe the leaves; a full tree refuses with nothing changed. |
| MerklePool.MerklePool.CurrentRoot | contracts/zk-recovery/src/merkle.rs:110-117 | The root read from the ring is that of the tree over all inserted leaves, the empty tree's before the first. |
| MerklePool.MerklePool.IsKnownRoot | contracts/zk-recovery/src/merkle.rs:124-138 | True exactly for the roots after the last min(k,128) inserts, or for the empty root while there are none. |
| MerklePool.CurrentRootKnown | contracts/zk-recovery/src/merkle.rs:110-138 | The current root is always a known one, before the first insert as after. |
| MerklePool.RootStaysKnown | contracts/zk-recovery/src/merkle.rs:124-138 | The root after an insert is still known after up to 127 more. |
| MerklePool.MaxLeaves | contracts/zk-recovery/src/merkle.rs:29-30 | Depth 24 gives 16777216 leaves. |
| FieldHash.HashFields | contracts/zk-recovery/src/hash.rs:39-49 | The loop reduces each input into the field before hashing, and the result is a 32-byte value below the field order. |
| FieldHash.Split16Values | contracts/zk-recovery/src/hash.rs:79-85 | The two halves are the values of the high and low 16 bytes, each below 2^128. |
| FieldHash.Split16Injective | contracts/zk-recovery/src/hash.rs:79-85 | Equal halves mean equal 32-byte values. |
| FieldHash.FieldOfU64Value | contracts/zk-recovery/src/hash.rs:94-98 | Eight bytes copied into the end of a zeroed buffer keep the integer's value. |
| FieldHash.AcceptedLeafUnreduced | contracts/zk-recovery/src/hash.rs:133-138 | For an accepted commitment, reduction leaves the leaf's input vector as it is. |
| FieldHash.LeafBinding | contracts/zk-recovery/src/pool.rs:69-98 | Accepted (account, commitment) pairs that are hashed from the same reduced vector are the same pair. |
| FieldHash.LeafIsNoNullifier | contracts/zk-recovery/src/hash.rs:133-151 | A leaf is never hashed from the vector of a nullifier, whatever the accounts and secrets. |
| FieldHash.CanonicalCheckNeeded | contracts/zk-recovery/src/pool.rs:69-74 | Without the check, c and c + r would be two commitments with one leaf vector; the check refuses exactly the second. |
| FieldHash.LeafVector | contracts/zk-recovery/src/hash.rs:133-138 | An accepted leaf is hashed from the tag, the account's high and low half and the commitment, in that order. |
| FieldHash.AuthVector | contracts/zk-recovery/src/hash.rs:164-200 | All fifteen elements of a proof target's vector, by position, as values of the fields' bytes. |
| FieldHash.NullifierVector | contracts/zk-recovery/src/hash.rs:146-151 | The contract's nullifier vector is the circuit's, for a witness with the account's halves and the secret. |
| FieldHash.AuthInputsInjective | contracts/zk-recovery/src/hash.rs:164-200 | Proof targets hashed from the same reduced vector agree in action, account, passphrase hash, controller, all 65 key bytes, nonce and timelock. |
| FieldHash.SharedNullifierNamesOneAccount | circuits/zk_recovery/src/main.nr:22-43 | Two proofs that satisfy the circuit, with public inputs read into the field and nullifiers equal there, have targets for one account, or one of three named pairs of vectors is a hash collision. |
| FieldHash.OwnNullifierIffCanonical | contracts/vendor/ultrahonk-soroban-verifier/src/field.rs:43-48 | A 32-byte nullifier that satisfies the circuit is the one the credential computes if and only if it is below the field order. |
| FieldHash.NullifierHasAlias | contracts/vendor/ultrahonk-soroban-verifier/src/field.rs:43-48 | Beside every canonical nullifier N, the string for N + r satisfies the circuit with the same witness. |
| RecoveryContract.ZkRecovery.constructor | contracts/zk-recovery/src/pool.rs:110-132 | Deployment stores the configuration and leaves every table empty. |
| RecoveryContract.ZkRecovery.TakeNonce | contracts/zk-recovery/src/controller.rs:250-255 | Exactly the stored nonce plus one is accepted and stored; otherwise nothing is stored and the error says why, overflow included. |
| RecoveryContract.ZkRecovery.VerifyTarget | contracts/zk-recovery/src/controller.rs:149-179 | The proof is checked against root, nullifier and the target recomputed from the call's own account and arguments. |
| RecoveryContract.ZkRecovery.ReleaseReservationIfOwned | contracts/zk-recovery/src/controller.rs:110-119 | Only the account's own reservation is dropped; spent entries and those of others stay. |
| RecoveryContract.ZkRecovery.CheckRateLimit | contracts/zk-recovery/src/controller.rs:124-145 | The loop keeps exactly the times at or after the saturating cutoff; three of them refuse, otherwise the new time is added. |
| RecoveryContract.ZkRecovery.InsertBound | contracts/zk-recovery/src/pool.rs:88-98 | A canonical commitment is bound to the account and appended, its index returned; a non-canonical one or a full pool changes nothing. |
| RecoveryContract.ZkRecovery.CheckInitiation | contracts/zk-recovery/src/controller.rs:205-285 | The first failing check in the source's order decides the error; the writes made on the way are stated too. |
| RecoveryContract.ZkRecovery.InitiateRecovery | contracts/zk-recovery/src/controller.rs:192-318 | A successful initiation leaves exactly the specified new state and returns the time of executability, with checked additions. |
| RecoveryContract.ZkRecovery.HasPending | contracts/zk-recovery/src/controller.rs:347-353 | Answers whether a record exists and has not run out. |
| RecoveryContract.ZkRecovery.CheckCancel | contracts/zk-recovery/src/controller.rs:394-462 | The first failing check of a cancel decides the error: auth, live record, cap, cooldown, nonce, root, proof. |
| RecoveryContract.ZkRecovery.CancelRecovery | contracts/zk-recovery/src/controller.rs:394-485 | A cancel removes the record, releases its own reservation, counts itself and starts the cooldown. |
| RecoveryContract.ZkRecovery.BurnNullifier | contracts/zk-recovery/src/controller.rs:544-628 | A burn spends the nullifier and clears the account's record if it holds that nullifier. |
| RecoveryContract.ZkRecovery.InstallPolicy | contracts/zk-recovery/src/policy.rs:106-134 | Installs once per account, and only for a rule without signers that covers calls to that account. |
| RecoveryContract.ZkRecovery.EnforcePolicy | contracts/zk-recovery/src/policy.rs:165-253 | A completion needs the installed rule, a record inside its window and exactly the permitted call, and then consumes the record. |
| RecoveryContract.ZkRecovery.Uninstall | contracts/zk-recovery/src/policy.rs:302-306 | Never succeeds, and with the account's auth fails as unauthorised. |
| RecoveryContract.ZkRecovery.Invoke | contracts/zk-recovery/src/controller.rs:205-318 | Every call, seen from outside, is either its specified effect or, when any check fails after earlier writes, no change at all. |
| RecoveryRuns.ApplyEffect | contracts/zk-recovery/src/controller.rs:192-628 | What any accepted call implies about proof, nonce, window, rate, cap and cooldown, and what it does to each table. |
| RecoveryRuns.ReachableConsistent | contracts/zk-recovery/src/controller.rs:218-248 | At every point of every run a reservation belongs to its holder's record, a record's nullifier is reserved for it or spent, and no two records share a nullifier. |
| RecoveryRuns.PendingHasOrigin | contracts/zk-recovery/src/controller.rs:288-318 | A stored record comes from an accepted initiation of that account, and nothing accepted since has touched it. |
| RecoveryRuns.PendingPersists | contracts/zk-recovery/src/controller.rs:288-318 | Conversely, an opened record stays as it is while no accepted call disturbs it. |
| RecoveryRuns.CompletionHasOrigin | contracts/zk-recovery/src/policy.rs:165-253 | An accepted `enforce` follows an accepted initiation at t0 with t0+delay <= t < t0+delay+window and delay at least the floor, no initiation, cancel, completion or burn of that record in between, and the call it authorises is the rotation to that initiation's key alone. |
| RecoveryRuns.UndisturbedRecoveryCompletes | contracts/zk-recovery/src/policy.rs:165-253 | Inside the window an `enforce` on an undisturbed recovery is accepted if and only if its context is that rotation. |
| NullifierLife.RecordsHeld | contracts/zk-recovery/src/controller.rs:288-303 | With the binding premise, a record's nullifier is always reserved for its account. |
| NullifierLife.ReservationsMatchRecords | contracts/zk-recovery/src/controller.rs:110-119 | With the binding premise, "n is reserved for a" and "a's record holds n" are equivalent at every point of every run. |
| NullifierLife.SpentForever | contracts/zk-recovery/src/controller.rs:235-248 | A spent nullifier is spent at every later point. |
| NullifierLife.CompletedAtMostOnce | contracts/zk-recovery/src/policy.rs:240-246 | No nullifier is consumed by `enforce` twice in a run; no premise needed. |
| NullifierLife.ConsumedAtMostOnce | contracts/zk-recovery/src/controller.rs:570-621 | With the binding premise, `enforce` and burns together consume a nullifier, as a 32-byte string, at most once. |
| NullifierLife.ForeignBurnLeavesRecord | contracts/zk-recovery/src/controller.rs:603-621 | If another account's proof verified for a reserved nullifier, its burn would spend it and the record could still complete: the premise is needed. |
| NullifierLife.ReservedByCaller | contracts/zk-recovery/src/controller.rs:520-534 | A record whose nullifier verifies for a caller is the caller's own. |
| NullifierLife.SupersedeExcludesCompletion | contracts/zk-recovery/src/policy.rs:184-197 | At no instant can a record be both superseded and completed, or both superseded and cancelled. |
| NullifierLife.RecentRootAccepted | contracts/zk-recovery/src/controller.rs:230-233 | A proof call against the current root, or one up to 127 inserts old, is never refused as an unknown root. |
| Histories.OpenIsStored | contracts/zk-recovery/src/controller.rs:288-318 | The open recovery is stored with its key, its nullifier and the three times counted from its initiation. |
| Histories.StoredIsOpen | contracts/zk-recovery/src/controller.rs:288-318 | Nothing else is stored: every record is an open recovery's. |
| Histories.HasPendingIff | contracts/zk-recovery/src/controller.rs:347-353 | After any run `has_pending` answers true if and only if the account has an open recovery, initiated at t0, and now < t0 + delay + window. |
| Histories.SpentIff | contracts/zk-recovery/src/controller.rs:235-248 | A nullifier is spent if and only if an earlier accepted burn or `enforce` consumed it. |
| Histories.ReservedIff | contracts/zk-recovery/src/controller.rs:218-248 | An unconsumed nullifier refuses an account, once its own stale record has let go, if and only if another account's open recovery holds it. |
| Histories.LeavesAreInserted | contracts/zk-recovery/src/pool.rs:88-98 | The pool's leaves are the stored form of the accepted insertions, in order. |
| Histories.KnownRootIff | contracts/zk-recovery/src/merkle.rs:124-138 | A root is known if and only if it is that of a prefix missing fewer than 128 of the leaves, or the empty root while there are none. |
| Histories.InstalledIff | contracts/zk-recovery/src/policy.rs:106-134 | An account is installed under a rule id if and only if an earlier accepted call installed it so. |
| Histories.RateIff | contracts/zk-recovery/src/controller.rs:124-145 | The rate limit refuses if and only if the account's third last accepted initiation lies at most 90 days back: older ones have left the window. |
| Outcomes.InsertOutcome | contracts/zk-recovery/src/pool.rs:88-98 | An insertion is accepted if and only if authorised, canonical, for a contract account and with room left; otherwise the first of these that fails names the error. |
| Outcomes.InitiateOutcome | contracts/zk-recovery/src/controller.rs:192-318 | Over any run in time order, the error of an initiation is that of the first of twelve conditions on the history that fails, and it is accepted if and only if none does; a record that has run out is not among them. |
| Outcomes.CancelOutcome | contracts/zk-recovery/src/controller.rs:394-485 | A cancel is accepted if and only if authorised, with an open recovery not run out, fewer than `max_cancels` cancels ever, none within a day, the next nonce, a recent root and a valid proof; otherwise the first that fails names the error. |
| Outcomes.BurnOutcome | contracts/zk-recovery/src/controller.rs:544-628 | A burn is accepted if and only if authorised, with a recent root, the next nonce, an unconsumed nullifier and a valid proof; otherwise the first that fails names the error. |
| Outcomes.InstallOutcome | contracts/zk-recovery/src/policy.rs:106-134 | An installation is accepted if and only if authorised, the account's first, and for a rule without signers on calls to the account; otherwise the first that fails names the error. |
| Outcomes.EnforceOutcome | contracts/zk-recovery/src/policy.rs:165-253 | An `enforce` is accepted if and only if authorised, through the installed rule, inside the open recovery's window and with the rotation to its key as context; otherwise the first that fails names the error. |
| Outcomes.UninstallOutcome | contracts/zk-recovery/src/policy.rs:302-306 | After any run every `uninstall` fails. |
| Outcomes.InitiationSucceedsIffReady | contracts/zk-recovery/src/controller.rs:205-286 | No bricking: with the binding premise, after any run an initiation succeeds if and only if no recovery of the account is open and unexpired, the root is recent, the nullifier unconsumed, the nonce the number of accepted proof calls plus one, the timelock right, the third last initiation over 90 days old, the proof valid and the times representable. |
| Credentials.InsertionOrigin | contracts/zk-recovery/src/pool.rs:145-160 | Every stored insertion was an accepted call with auth, for a contract account and a canonical commitment. |
| Credentials.InsertionListed | contracts/zk-recovery/src/pool.rs:145-160 | Every accepted insertion is stored. |
| Credentials.LeavesAreWrapped | contracts/zk-recovery/src/pool.rs:88-98 | Over all runs, leaf k is the Poseidon2 value of tag, account halves and commitment of the k-th accepted insertion. |
| Credentials.LeafNamesOneInsertion | contracts/zk-recovery/src/pool.rs:57-98 | Two accepted insertions with one stored leaf are the same account and commitment, or a hash collision. |
| Credentials.DeployedProves | contracts/zk-recovery/src/controller.rs:149-179 | The verifier is asked about root, nullifier and the hash of the target's vector, 32 bytes each in this order. |
| Credentials.KindsApart | contracts/zk-recovery/src/controller.rs:39-64 | Initiations, cancels and burns are checked against different vectors, whatever their other fields. |
| Credentials.CallsShareAccount | contracts/zk-recovery/src/controller.rs:520-534 | Two verifying calls with one nullifier and circuit witnesses behind them name one account, or their vectors collide. |
| Credentials.BindsOrCollides | contracts/zk-recovery/src/controller.rs:520-534 | Every witnessed run meets the binding premise, or two of its calls exhibit a collision. |
| Credentials.EntryHasOrigin | contracts/zk-recovery/src/controller.rs:288-303 | Every entry of the nullifier table was entered by an accepted initiation or burn that showed it. |
| Credentials.EntryIsOwnIffCanonical | contracts/zk-recovery/src/controller.rs:235-248 | An entry is the nullifier that its credential computes if and only if it is canonical. |
| Credentials.OneEntryIff | contracts/zk-recovery/src/controller.rs:570-580 | Two accepted calls of one credential enter one nullifier if and only if their strings have the same quotient by the field order; canonical ones always do. |
| Credentials.AliasIsEnteredApart | contracts/zk-recovery/src/controller.rs:570-580 | After a burn of N, a verifying burn of N + r by the same account is accepted as well, and both are spent. |
| RateLimits.NonceCounts | contracts/zk-recovery/src/controller.rs:83-94 | The stored nonce of an account is the number of its accepted initiations, cancels and burns. |
| RateLimits.NoTargetRepeats | contracts/zk-recovery/src/controller.rs:250-285 | No two accepted proof calls of a run are checked against the same reduced vector. |
| RateLimits.WindowIsPrunedHistory | contracts/zk-recovery/src/controller.rs:124-145 | The stored window is the account's whole initiation history pruned at its last initiation. |
| RateLimits.ThirdLastHasLeft | contracts/zk-recovery/src/controller.rs:124-145 | An initiation is accepted only more than 90 days after the third last before it, also while the cutoff saturates at zero. |
| RateLimits.FourInitiationsSpanWindow | contracts/zk-recovery/src/controller.rs:266-267 | Any four accepted initiations of an account, in order, span more than 90 days. |
| RateLimits.CancelBookkeeping | contracts/zk-recovery/src/controller.rs:471-476 | The counter and last time stored are those of the history of cancels, and consecutive cancels lie a day apart. |
| RateLimits.CancelsSpread | contracts/zk-recovery/src/controller.rs:417-430 | An account cancels at most `max_cancels` times ever, and any k of its cancels span at least k-1 days. |
| SmartAccount.NidoSmartAccount.InstallAll | contracts/smart-account/src/contract.rs:178-196 | Adding policies to a rule installs this recovery contract with the rule's id, and aborts if any policy refuses. |
| SmartAccount.NidoSmartAccount.OzAddRule | contracts/smart-account/src/contract.rs:476-486 | A new rule gets the next id, never used before, with its policies installed. |
| SmartAccount.NidoSmartAccount.OzRemoveRule | contracts/smart-account/src/contract.rs:512-524 | Removal goes through although this contract's `uninstall` fails. |
| SmartAccount.NidoSmartAccount.GuardNoPending | contracts/smart-account/src/contract.rs:87-112 | Blocks exactly when a controller is recorded and reports a live recovery. |
| SmartAccount.NidoSmartAccount.GuardRule | contracts/smart-account/src/contract.rs:493-566 | The recovery rule is refused before, and regardless of, the pending check. |
| SmartAccount.NidoSmartAccount.InstallRecoveryRule | contracts/smart-account/src/contract.rs:178-196 | Adds the rule without signers or expiry for calls to the account itself and records its id and controller. |
| SmartAccount.NidoSmartAccount.Initialize | contracts/smart-account/src/contract.rs:220-238 | Deployment adds the default rule and, if asked, the recovery rule. |
| SmartAccount.NidoSmartAccount.InitiateRecoveryRuleRemoval | contracts/smart-account/src/contract.rs:275-281 | Announces removal seven days ahead, unless there is no controller or a recovery is live. |
| SmartAccount.NidoSmartAccount.ExecuteRecoveryRuleRemoval | contracts/smart-account/src/contract.rs:296-322 | Removes the recorded rule and clears the bookkeeping once announced and due, unless a recovery is live. |
| SmartAccount.NidoSmartAccount.GuardedEdit | contracts/smart-account/src/contract.rs:493-566 | Expiry change, removal and policy changes, each behind the guard, with their effect on one rule. |
| SmartAccount.NidoSmartAccount.PlainEdit | contracts/smart-account/src/contract.rs:488-535 | Renaming and adding a signer are unguarded, removing a signer only waits for a live recovery. |
| SmartAccount.NidoSmartAccount.Invoke | contracts/smart-account/src/contract.rs:467-567 | Every call on an account is its specified effect on both contracts, or no change in either. |
| RuleProtection.ActPreserves | contracts/smart-account/src/contract.rs:467-567 | Any accepted call keeps the recovery rule intact, and a blocked account only grows; the rule's record changes only by enrolling or by executing a due removal. |
| RuleProtection.ReachableGuarded | contracts/smart-account/src/contract.rs:178-196 | In every reachable state a recorded recovery rule exists, covers calls to the account, has exactly the controller as policy and no expiry; rule ids are fresh; and this contract's `Installed` entry is that rule's id. |
| RuleProtection.InstalledWriteOnce | contracts/zk-recovery/src/policy.rs:106-134 | No call changes or removes an `Installed` entry. |
| RuleProtection.NoRuleMismatch | contracts/zk-recovery/src/policy.rs:175-182 | Through the recorded rule a completion is never refused with `RuleMismatch` or `NotInstalled`. |
| RuleProtection.EnrollsIff | contracts/smart-account/src/contract.rs:397-403 | The exact condition for enrolling: with this contract as controller, the account must never have been installed; otherwise the rule's policy refuses. |
| RuleProtection.NoSecondEnrollment | contracts/zk-recovery/src/policy.rs:302-306 | An account that ever had this controller can never enroll with it again, in any run; once its rule is removed, it is the policy that refuses. |
| FreezeAndRemoval.AccountStep | contracts/smart-account/src/contract.rs:275-322 | How one transaction of a run may change an account: frozen accounts only grow, the record goes only by a due removal, an announcement only by the announcing call. |
| FreezeAndRemoval.LiveRecoveryFreezesAccount | contracts/smart-account/src/contract.rs:85-112 | While a recovery runs, no transaction removes a rule, signer or policy of the account, adds a policy to an existing rule or changes an expiry. |
| FreezeAndRemoval.AnnouncementHasOrigin | contracts/smart-account/src/contract.rs:275-281 | A standing announcement was made for the rule still recorded, with no live recovery then. |
| FreezeAndRemoval.RecoveryRuleRemovedOnlyByProcedure | contracts/smart-account/src/contract.rs:296-322 | The recovery rule disappears only by the executing call, at least seven days after an announcement for that same rule, with no live recovery at either instant. |
| FreezeAndRemoval.RemovalSucceedsIff | contracts/smart-account/src/contract.rs:296-322 | In every reachable state removal is accepted if and only if it is authorised, announced, due and no recovery is live, and the rule function does not refuse. |
| FreezeAndRemoval.RemovedAccountIsRefused | contracts/zk-recovery/src/policy.rs:106-134 | For every account, deploying with this controller, announcing and executing removal are accepted and leave the default rule alone, and enrolling with this controller is then refused by its policy. |
| AccountRuns.ActChanges | contracts/smart-account/src/contract.rs:467-567 | For each entry point, what an accepted call changes: the rule added, edited or gone, with every other rule and all bookkeeping as before unless named. |
| AccountRuns.ConstructChanges | contracts/smart-account/src/contract.rs:220-238 | A new account has exactly the default rule and, if asked, the recovery rule, with their bookkeeping. |
| AccountRuns.TransactionChanges | contracts/smart-account/src/contract.rs:275-322 | Over all runs: an accepted `remove_context_rule` or `execute_recovery_rule_removal` leaves its rule gone and the others as they were, each other accepted transaction changes its account as specified and no other account, and anything else changes none. |
| AccountRuns.GuardBlocksIff | contracts/smart-account/src/contract.rs:87-112 | After any run the guard blocks if and only if the controller reports a recovery, for this contract an open one that has not run out. |
| AccountRuns.ActsAsSaid | contracts/smart-account/src/contract.rs:467-567 | After any run a call of an account aborts in exactly the listed cases and with the listed errors. |
| AccountRuns.DeploysIff | contracts/smart-account/src/contract.rs:220-238 | Deployment is accepted if and only if the address is new, the rule function does not refuse, and every policy accepts, this contract's only for the recovery rule and for an account new to it. |
| AccountRuns.CompletesIff | contracts/zk-recovery/src/policy.rs:165-253 | A completion is accepted if and only if it adds the open recovery's key alone, inside the window, through a rule that has this contract as a policy and was installed with it. |
| Projection.RunProjects | contracts/zk-recovery/src/controller.rs:192-628 | At every point of a run of both contracts the recovery contract's storage is that of a run of it alone, with one call per transaction. |
| WorldRuns.CallProjects | contracts/zk-recovery/src/policy.rs:165-253 | That run has the same proof calls, accepted alike, and an accepted `enforce` for each accepted completion. |
| WorldRuns.PendingHasOrigin | contracts/zk-recovery/src/controller.rs:288-318 | The origin of a record, in runs of both contracts. |
| WorldRuns.ReservationsMatchRecords | contracts/zk-recovery/src/controller.rs:110-119 | Reservations and records correspond one to one, in runs of both contracts. |
| WorldRuns.ConsumedAtMostOnce | contracts/zk-recovery/src/policy.rs:240-246 | Completions, calls of `enforce` and burns together consume a nullifier at most once, in runs of both contracts. |
| WorldRuns.SpentForever | contracts/zk-recovery/src/controller.rs:235-248 | `Spent` is absorbing in runs of both contracts. |
| WorldRuns.NoTargetRepeats | contracts/zk-recovery/src/controller.rs:250-285 | No proof target repeats in runs of both contracts. |
| WorldRuns.NonceCounts | contracts/zk-recovery/src/controller.rs:83-94 | The stored nonce counts accepted proof calls in runs of both contracts. |
| WorldRuns.FourInitiationsSpanWindow | contracts/zk-recovery/src/controller.rs:124-145 | Four accepted initiations span more than 90 days in runs of both contracts. |
| WorldRuns.CancelsSpread | contracts/zk-recovery/src/controller.rs:417-430 | The cap and spacing of cancels in runs of both contracts. |
| WorldRuns.InitiationSucceedsIffReady | contracts/zk-recovery/src/controller.rs:205-286 | No bricking in runs of both contracts, on the same conditions on the history: nothing an account does gets in the way. |
| Completion.CompletionInstallsProvenKey | contracts/zk-recovery/src/policy.rs:199-253 | End to end: an accepted `Complete` transaction, a rule addition authorised through one of the account's rules, adds under a fresh id one rule whose only signer is the key of an earlier accepted initiation inside its window, removes nothing, and clears the record. |
| Completion.GuardedRecoveryCanComplete | contracts/zk-recovery/src/policy.rs:165-253 | On an account guarded by this contract, inside the window, the recorded rule authorises a rule addition if and only if it adds the proven key alone and no policy. |
| Completion.EnforceConsumes | contracts/zk-recovery/src/policy.rs:240-253 | Every accepted `enforce`, inside a completion or on its own, consumes a record that an accepted initiation opened, inside its window, and spends its nullifier. |
| Completion.EnforceInstallsKeyIffCompletion | contracts/zk-recovery/src/policy.rs:165-253 | Over all runs: an accepted `enforce` adds the proven key to the account if and only if it was the policy check of a completion; on its own it consumes the record and changes no account. |
| Completion.EnforceAloneIsAccepted | contracts/zk-recovery/src/policy.rs:136-197 | For any state with a record inside its window and an installed account, a call of `enforce` on its own that names the rotation and the installed id is accepted, with that outcome. |
| IndexerTree.RebuildRoot | infra/pool-indexer/src/merkle.ts:75-95 | For up to 2^depth leaves the rebuilt root is the root of the padded tree on field elements. |
| IndexerTree.HashAgrees | infra/pool-indexer/src/merkle.ts:45-47 | On canonical values both trees hash the left child before the right one with Poseidon2; zero leaves are 0 and the contract's tree is 24 levels deep. |
| IndexerTree.SameNodes | infra/pool-indexer/src/merkle.ts:45-60 | Node by node, the tree on field elements has the values of the contract's tree on bytes. |
| IndexerTree.HexToFrIff | infra/pool-indexer/src/merkle.ts:101-112 | Exactly the texts of 64 hexadecimal digits below the field order are read, with either prefix or none and in either case. |
| IndexerTree.LeafTextReads | infra/pool-indexer/src/merkle.ts:101-112 | A leaf's text is read back as its value if the value is below the field order, and refused otherwise. |
| IndexerTree.PrintedAsBytes | infra/pool-indexer/src/merkle.ts:114-119 | A field element is printed as the text of the 32 bytes that hold it. |
| Indexer.LeafKeyReads | infra/pool-indexer/src/handler.ts:32-38 | A leaf's key reads back as its index, so distinct indices have distinct keys. |
| Indexer.KeysInOrder | infra/pool-indexer/src/handler.ts:26-34 | For indices of up to eight digits, which covers a full pool, keys have one length and their order as texts is the order of the indices. |
| Indexer.PoolIndexer.AppendLeaf | infra/pool-indexer/src/handler.ts:60-68 | An absent leaf is stored, a present one left alone; the answer tells which, and whether the texts conflict. |
| Indexer.PoolIndexer.RunScan | infra/pool-indexer/src/scanner.ts:33-45 | A page of events is taken in index order, each appended at most once. |
| Indexer.SortSorts | infra/pool-indexer/src/scanner.ts:33-45 | The sort orders by index and keeps the same records. |
| Indexer.PoolIndexer.ListLeavesFrom | infra/pool-indexer/src/handler.ts:71-88 | Collects the listed records from an index on, over all pages, in index order. |
| Indexer.PoolIndexer.Snapshot | infra/pool-indexer/src/handler.ts:129-133 | Serves the leaves with their count and the printed root of the tree over them, or fails when a text is no field element. |
| IndexerAgreement.NeverOverwritten | infra/pool-indexer/src/handler.ts:60-68 | No event, consistent or not, changes a stored leaf. |
| IndexerAgreement.StoredEntry | infra/pool-indexer/src/scanner.ts:33-45 | After any pages drawn from one log, every stored entry was there before or is the log's text for a delivered index. |
| IndexerAgreement.ScanOrderIrrelevant | infra/pool-indexer/src/scanner.ts:33-45 | Order, repetition and overlap of pages do not matter: the store depends on the set of delivered events alone. |
| IndexerAgreement.ScansStayWithin | infra/pool-indexer/src/scanner.ts:33-45 | Scans of pages of the log keep a store's leaf entries to the log, whatever else it holds. |
| IndexerAgreement.ScansFillStore | infra/pool-indexer/src/scanner.ts:33-45 | Starting from any part of the log, beside any other keys, the store holds exactly the log once every leaf not yet stored has been delivered, in any pages. |
| IndexerAgreement.ServedFromIsLog | infra/pool-indexer/src/handler.ts:71-88 | From such a store `/leaves` from k serves the log from index k on, and nothing when k is past its end. |
| IndexerAgreement.ServedIsLog | infra/pool-indexer/src/handler.ts:71-88 | From such a store the records served are the log in order, however the host pages its listing. |
| IndexerAgreement.StoredLeavesCanonical | contracts/zk-recovery/src/pool.rs:88-98 | In every run the contract's leaves are field elements, at most 2^24 of them. |
| IndexerAgreement.SnapshotIsCurrentRoot | infra/pool-indexer/src/handler.ts:129-133 | After any run of the contract whose leaves have all been stored, the snapshot serves the contract's current root and leaf count. |
| Cbor.SkipsEncoded | packages/passkey-sdk/src/webauthn.ts:122-162 | Every well-formed item, however nested and in whatever head widths, is stepped over exactly. |
| Cbor.SkippedIsItem | packages/passkey-sdk/src/webauthn.ts:122-162 | Conversely, whatever is stepped over within the data is the encoding of one well-formed item. |
| Cbor.HeadRead | packages/passkey-sdk/src/webauthn.ts:102-108 | A written head is read back as its major type, argument and length. |
| WebAuthn.CborReader.ReadUint | packages/passkey-sdk/src/webauthn.ts:89-100 | Reads a big-endian integer of the given number of bytes. |
| WebAuthn.CborReader.ReadLength | packages/passkey-sdk/src/webauthn.ts:102-108 | Reads an argument of up to four bytes; longer and indefinite ones fail. |
| WebAuthn.CborReader.SkipValue | packages/passkey-sdk/src/webauthn.ts:122-162 | The recursive walk with its loops and shared offset follows `Cbor.Skip` and terminates on bytes remaining. |
| WebAuthn.CborReader.ReadPair | packages/passkey-sdk/src/webauthn.ts:172-197 | One entry of the map: skipped whole, or the value under the key. |
| WebAuthn.ExtractAuthDataFromCbor | packages/passkey-sdk/src/webauthn.ts:82-200 | The loop yields the first value under "authData", whatever the type of that value's head. |
| WebAuthn.ExtractPublicKeyFromAuthData | packages/passkey-sdk/src/webauthn.ts:206-238 | Flags, credential length and the clamped slice of 77 bytes lead to the key bytes. |
| WebAuthn.ExtractP256FromCoseKey | packages/passkey-sdk/src/webauthn.ts:244-316 | The loop over labels and values keeps the last coordinates and places them in 65 bytes, with the range errors of `set`. |
| WebAuthn.ParseAttestationObject | packages/passkey-sdk/src/webauthn.ts:45-49 | The parts combined; `Attestations.AttestedKeyReturned` says what the result means. |
| Attestations.AuthDataFound | packages/passkey-sdk/src/webauthn.ts:172-197 | The value of the first matching key is found behind any other entries, non-text keys and nested values included. |
| Attestations.AuthDataAbsent | packages/passkey-sdk/src/webauthn.ts:199-200 | Without a matching key the parse reports exactly that. |
| Attestations.CoseMapRead | packages/passkey-sdk/src/webauthn.ts:244-316 | Any encoded key map of integers and byte strings is read as the point of its last coordinates. |
| Attestations.SkipRefuses | packages/passkey-sdk/src/webauthn.ts:102-162 | Tags, heads of eight bytes and reserved or indefinite heads are refused, each with its error. |
| Attestations.NoMapRefused | packages/passkey-sdk/src/webauthn.ts:164-169 | An attestation object or a key that is no map is refused for that. |
| Attestations.PointIff | packages/passkey-sdk/src/webauthn.ts:305-315 | For any coordinates: a missing one and one that would reach past the end are refused, otherwise the 65 bytes are given, with y over x. |
| Attestations.NoCoordinatesRefused | packages/passkey-sdk/src/webauthn.ts:305-307 | A key map without bytes under the label of x or of y is refused for that. |
| Attestations.ShortDataRefused | packages/passkey-sdk/src/webauthn.ts:206-228 | Authenticator data that ends before its flags or its credential length is refused. |
| Attestations.PointRead | packages/passkey-sdk/src/webauthn.ts:305-315 | With unique labels and 32-byte coordinates the result is 04, x, y, in any order of entries. |
| Attestations.FiveEntriesFit | packages/passkey-sdk/src/webauthn.ts:235-237 | A compact key fits in 77 bytes if and only if it has at most five entries, and five take exactly 77. |
| Attestations.KeyBytesRead | packages/passkey-sdk/src/webauthn.ts:206-238 | The slice handed on starts with the encoded key, for any credential id and extensions. |
| Attestations.AttestedKeyReturned | packages/passkey-sdk/src/webauthn.ts:45-49 | For every attestation object, entries in any order and other values arbitrarily nested, with a key map of at most 77 bytes, the parse returns 04, x, y if the attested-data flag is set, and the missing-credential error if not. |
| Signature.BufToBigInt | packages/passkey-sdk/src/signature.ts:62-66 | The integer built through hexadecimal text is the buffer's big-endian value. |
| Signature.Buf32IsBigEndian | packages/passkey-sdk/src/signature.ts:68-75 | For values below 2^256 the buffer filled from hexadecimal text is the big-endian form. |
| Signature.PadOrTrimValue | packages/passkey-sdk/src/signature.ts:52-60 | Any bytes become 32 with the same value modulo 2^256. |
| Signature.LowSValue | packages/passkey-sdk/src/signature.ts:37-47 | For every s up to n the second half holds the lower of s and n - s. |
| Signature.AcceptedIff | packages/passkey-sdk/src/signature.ts:12-32 | Accepted are exactly the bytes that start with a SEQUENCE tag, any length byte, one INTEGER in full and the tag of another; the error tells a wrong start from a wrong first tag and from a wrong second. |
| Signature.ContentTo32 | packages/passkey-sdk/src/signature.ts:52-60 | Padding or trimming a DER integer of up to 33 bytes gives its 32 big-endian bytes. |
| Signature.BodyIsShort | packages/passkey-sdk/src/signature.ts:16 | The body of a signature is at most 70 bytes long, so its header is the two bytes that are skipped. |
| Signature.DerToCompact | packages/passkey-sdk/src/signature.ts:12-50 | The offset-stepping conversion on any bytes, with its three errors and its missing length byte, follows `Compact`. |
| Signature.CompactOfDer | packages/passkey-sdk/src/signature.ts:12-50 | For all r and s in [1, n-1] the DER form converts to r and the lower of s and n - s, which is at most n/2, in 32 bytes each. |
| RuleScan.FindRuleForPubkey | examples/status-message-dapp/src/lib/policyChainFetch.ts:76-122 | The loop over ids and signers follows `Scan`, for any answers to its queries. |
| RuleScan.SpelledMatches | examples/status-message-dapp/src/lib/policyChainFetch.ts:83 | Any hexadecimal text of a key, with letters of either case, becomes the text that signers' keys are compared with. |
| RuleScan.EmptyTextFindsNothing | examples/status-message-dapp/src/lib/policyChainFetch.ts:103-108 | Asked for the empty text the scan finds no rule, even where a signer has an empty key. |
| RuleScan.ScanFinds | examples/status-message-dapp/src/lib/policyChainFetch.ts:76-122 | On one snapshot with any gaps, for a key spelled in either case: an id is returned if and only if it is the lowest live rule with the key and within the bound, null if and only if no live rule has the key and all ids are within it, exhaustion only otherwise. |
| RuleScan.FailureReportedIff | examples/status-message-dapp/src/lib/policyChainFetch.ts:97-100 | A failing query is reported if and only if the scan reaches it: within the bound, with no holder of the key before it and live rules beyond. |
| RuleScan.KeyTexts | examples/status-message-dapp/src/lib/policyChainFetch.ts:157-178 | Two keys have the same lower-case text only if they are the same key. |

## Left out

- RecoveryRuns.CompletionHasOrigin: says nothing about arguments 0 to 2 of the completing call (type, name, expiry), which the gate does not constrain.
- FreezeAndRemoval.LiveRecoveryFreezesAccount: says nothing about names, which are not frozen, nor that signers stay the same: adding one is allowed.
- SmartAccount.NidoSmartAccount.InstallAll: what policies and controllers other than this contract answer, and whether a rule function refuses, are parameters of each call; their own state is not modelled. A `has_pending` of a foreign controller that aborts counts as a call that changes nothing.
- Completion.CompletionInstallsProvenKey: speaks of completions only; for `enforce` on its own see `Completion.EnforceInstallsKeyIffCompletion`.
- SmartAccount.NidoSmartAccount.GuardedEdit: policies are removed by address, where the source takes a position whose lookup belongs to OpenZeppelin's function; that the position does not exist is one of the refusals of the `oz` answer.
- SmartAccount.NidoSmartAccount.PlainEdit: signers and policies are sets addressed by value, where OpenZeppelin's functions use positions in lists; its limits on rules, signers and policies, duplicate checks and count bookkeeping are the `oz` answer.
- WebAuthn.CborReader.ReadByte: reading past the end is a failure, where the host language yields `undefined` and the source reads on with zeros or fails later; the same holds for the COSE key after its 77 bytes.
- WebAuthn.CborReader.ReadUint: a two-byte read past the end is a failure, where the source's would go on with zeros.
- WebAuthn.CborReader.SkipValue: a missing initial byte is a failure, where the source's would count as the integer zero.
- WebAuthn.ExtractP256FromCoseKey: a map that claims more entries than its bytes hold is refused, where the source reads on beyond them.
- WebAuthn.ExtractAuthDataFromCbor: truncated data is refused, as above, and keys are compared as bytes, so a byte-order mark before the text, which the decoder would strip, is a different key.
- Attestations.AttestedKeyReturned: keys longer than 77 bytes are outside the bound; integers in a key have heads of at most two bytes, the widths the source reads.
- IndexerTree.RebuildRoot: more leaves than the tree holds, and positions beyond 2^31 where `>>` wraps, are not covered; the contract has neither.
- Indexer.PoolIndexer.RunScan: persisting the scan cursor, the network client and logging are left out.
- Indexer.PoolIndexer.ListLeavesFrom: the host's paged listing is a parameter that lists every leaf key once.
- RuleScan.FindRuleForPubkey: queries are answered by a function; the client, XDR decoding and the shapes in which bytes come back are left out, and signers are a set, whose order cannot matter to the result.
- Signature.DerToCompact: s above the group order, which no signature has, is modelled down to the minus sign in the text but no theorem is about it.
- Poseidon2, SHA-256, P-256 and UltraHonk are abstract; the tag constants are written as numbers, so the parsing in `hex32` and `dom` is not modelled, nor is `leaf_inner`, which only clients compute.
- Storage lifetimes, events, instance against persistent storage, upgrades and deployment hashing are host concerns.
- Authorisation is one answer per call and calls do not re-enter; `execute` and `__check_auth` of the account appear as the calls they lead to.
- Name registry, factory, multisig and spending-limit policies, local storage, base64url and URL helpers, front ends and generated bindings would only add easy members.
