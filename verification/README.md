# Latch contracts: a verified model

A Dafny model of the logic that is original to the Latch contracts, with proofs about whole runs of it.
`dafny verify dfyconfig.toml` checks everything.

| files | what they model |
|---|---|
| `HostTypes`, `Arithmetic` | what the Soroban host provides: bounded integers with saturating and checked operations, addresses, argument values, replies of called contracts; facts about quotients |
| `SpendingLimit`, `SpendingWindow`, `SpendingRuns`, `SpendingGuarantees`, `SpendingExactness` | the oracle-priced multi-token spending limit policy: the contract, its eviction cache against the full log, the promises, and exactly when the limit holds |
| `Signers`, `CanonicalSigners`, `SaltPreimage`, `Factory` | the account factory: canonical signer lists, the salt preimage and its parser, address identity, deploy runs |
| `VestingMath`, `Vesting`, `VestingRuns` | the vesting schedule: the two-word multiply-divide, the vesting function, claim runs |
| `Conditions`, `ConditionRuns` | the parameter-scoped policy: conditions on call arguments, and the keyed store |
| `TimelockVault` | the timelock vault: the dual gate and the keep-alive of its stored state |

Each contract is a class whose methods follow the source statement by statement. A method's postcondition ties
the result and the new state to a function of the old state and the call (`Verdict`/`Decide`, `Create`,
`ClaimStep`, `Apply`, `Judge`); the theorems are about sequences of such steps. Everything a call observes is a
parameter: authorization, ledger, oracle and token replies, whether a transfer or a deployment goes through. A
call that fails, by a contract error or a trap of the host, changes nothing, because the host rolls it back.
Unchecked arithmetic traps on overflow in the release profile, so every bounded intermediate is a proof obligation.

## What was found

- **Spending limit.** An installation keeps its limit in every window on every run from ledger `first` on exactly
  when `first >= 1` and either the limit is below `i128::MAX` or each allowed token's
  `10^oracle_decimals * 10^token_decimals` is at least 1000; or when no transfer can ever be worth a dollar
  (`SpendingExactness.LimitHoldsExactly`). At ledger 0 the saturating cutoff evicts what was accepted in the same
  ledger; at a limit of `i128::MAX` the saturated sum ties with the limit and is accepted. A network's first ledger
  is 1, so the first condition is about the environment; the second can be checked when installing.
- **Spending limit, errors.** At a limit of `i128::MAX` the code never reports `SpendingLimitExceeded` from the cap
  test; where an unbounded sum would be over the limit with 1000 entries stored it reports
  `HistoryCapacityExceeded` (`SpendingRuns.DecidesAs` states which error is given in every case).
- **Vault keep-alive.** The vault's documentation asks for one `bump_ttl` per `EXTEND_AMOUNT` (about 120 days). That
  is not enough: a bump that finds exactly `TTL_THRESHOLD` ledgers left extends nothing. The pace that always works
  is at most `TTL_THRESHOLD` (119 days) between refreshes, and one ledger more fails for every vault, whenever it was
  created and whatever TTL the network grants new entries (`TimelockVault.PaceExactly`, `DocumentedPaceFails`). The
  model follows the code, with `extend_ttl` bumping when fewer than `threshold` ledgers remain, as
  docs/almanax-triage.md describes it.
- **Factory.** Whether a signer list is accepted does not depend on its order. Which error refuses it does, exactly
  when more than one kind of thing is wrong with it (`CanonicalSigners.OutcomeOrderFreeExactly`, and
  `ErrorDependsOnOrder` for an instance).

## Assumptions

- Ledger sequence numbers do not go back (`Chronological`, `Paced`). Timestamps may.
- The host orders its finitely many addresses totally (an address is its rank) and serializes different addresses
  differently (`XdrInjective`, which `SaltPreimage.InjectiveXdrExists` shows can be met). SHA-256 and address
  derivation are arbitrary functions: the theorems speak of collisions (`Collide`) instead of assuming there are
  none.
- A SEP-41 transfer moves exactly the amount or fails. Only the factory deploys to the addresses it derives.

## Model

| member | source | states |
|---|---|---|
| `SpendingExactness.LimitHoldsExactly` | policies/multi-token-spending-limit-policy/src/lib.rs:351-436 | the rolling cap holds in every stretch of `period_ledgers` ledgers on every run, with any oracle replies, if and only if a condition on the installed terms and the first ledger holds |
| `SpendingExactness.LedgerZeroForgets` | policies/multi-token-spending-limit-policy/src/lib.rs:221-228 | at ledger 0 an accepted transfer is evicted in its own ledger, so the same state admits it again |
| `SpendingExactness.SaturatedSumAccepted` | policies/multi-token-spending-limit-policy/src/lib.rs:423-432 | at a limit of `i128::MAX` any transfer in any state is admitted exactly while fewer than 1000 entries are live, whatever their sum |
| `SpendingRuns.RefinesFullLog` | policies/multi-token-spending-limit-policy/src/lib.rs:419-435 | at every point of every run the evicting, caching policy has accepted the same transfers and decides the next call, error included, as a policy that keeps the whole log and sums it with unbounded arithmetic |
| `SpendingRuns.AdmitAgrees` | policies/multi-token-spending-limit-policy/src/lib.rs:419-432 | one step of that refinement: cap and capacity tests on the cache agree with those on the log, and the new cache is the newest window of the new log |
| `SpendingRuns.WindowSafetyAt` | policies/multi-token-spending-limit-policy/src/lib.rs:351-436 | after any run, any stretch of `period_ledgers` ledgers holds at most the limit in recorded dollars and at most 1000 transfers |
| `SpendingRuns.EveryRunIsSound` | policies/multi-token-spending-limit-policy/src/lib.rs:419-435 | the invariant of every run: the history is the log cut to the window of its newest transfer, and the cached total is its sum |
| `SpendingRuns.QuoteExactly` | policies/multi-token-spending-limit-policy/src/lib.rs:360-415 | a call is priced if and only if it is an authorized, well-formed transfer of an allowed token with a positive price at most 500 seconds old and a product within i128; then at `amount * price` over the product of both divisors, truncated once |
| `SpendingRuns.QuoteRefusesWith` | policies/multi-token-spending-limit-policy/src/lib.rs:360-415 | which error refuses to price a call, in order, on the fields of the call and of the oracle's reply |
| `SpendingRuns.UninstalledRefuses` | policies/multi-token-spending-limit-policy/src/lib.rs:358-379 | without an installation a well-formed, authorized call is refused as not installed, before the oracle is asked |
| `SpendingWindow.EvictIsWindow` | policies/multi-token-spending-limit-policy/src/lib.rs:216-236 | popping the expired front and subtracting its saturating total leaves exactly the transfers newer than `current - period` and their exact sum |
| `SpendingWindow.WithinIsSuffix` | policies/multi-token-spending-limit-policy/src/lib.rs:224-233 | on an ordered history, what is newer than a cutoff is a suffix, so evicting from the front misses nothing |
| `SpendingGuarantees.AcceptsExactly` | policies/multi-token-spending-limit-policy/src/lib.rs:351-436 | acceptance in any reachable state, both ways: priceable, fits beside the last `period_ledgers` ledgers, fewer than 1000 transfers there |
| `SpendingGuarantees.RefusesWith` | policies/multi-token-spending-limit-policy/src/lib.rs:419-429 | which error refuses a call in a reachable state: a pricing error, the limit, or the capacity, in that order |
| `SpendingGuarantees.ExactValueBound` | policies/multi-token-spending-limit-policy/src/lib.rs:411-432 | the exact rational value accepted in any such stretch is at most the limit plus one dollar per transfer, of which there are at most 1000 |
| `SpendingGuarantees.TotalUndercounts` | policies/multi-token-spending-limit-policy/src/lib.rs:411-415 | truncation undercounts each transfer by less than a dollar and never overcounts |
| `SpendingGuarantees.StateInvariant` | policies/multi-token-spending-limit-policy/src/lib.rs:145-162 | in every reachable state the history is ordered, non-negative and at most 1000 long, the cached total is its plain sum within the limit, and the divisors are the installed powers of ten, aligned with the allowed tokens |
| `SpendingGuarantees.EvictionNeverSaturates` | policies/multi-token-spending-limit-policy/src/lib.rs:222-235 | no saturating operation of the eviction saturates in a reachable state |
| `SpendingGuarantees.SmallerTransferAccepted` | policies/multi-token-spending-limit-policy/src/lib.rs:370-429 | if a transfer is accepted, so is every smaller non-negative amount in the same state with the same reply |
| `SpendingGuarantees.QuietWindowAccepts` | policies/multi-token-spending-limit-policy/src/lib.rs:370-429 | with nothing accepted in the last `period_ledgers` ledgers, every priceable transfer up to the limit is accepted |
| `SpendingGuarantees.StoredEntryKeepsLimit` | policies/multi-token-spending-limit-policy/src/lib.rs:202-211 | every entry stored by the contract keeps its own limit over the calls made under its installation |
| `SpendingLimit.CleanupOldEntries` | policies/multi-token-spending-limit-policy/src/lib.rs:216-236 | the loop leaves the history without its expired front and returns that front's saturating total |
| `SpendingLimit.EvaluateTransfer` | policies/multi-token-spending-limit-policy/src/lib.rs:360-432 | `enforce` up to the write: which error in which order, or the data to store |
| `SpendingLimit.MultiTokenSpendingLimitPolicy.Enforce` | policies/multi-token-spending-limit-policy/src/lib.rs:351-436 | an accepted call rewrites its own entry only, a rejected one nothing |
| `SpendingLimit.MultiTokenSpendingLimitPolicy.Install` | policies/multi-token-spending-limit-policy/src/lib.rs:265-309 | an installation succeeds exactly when, besides the tests of its parameters, the oracle reports at most 30 decimals and every token at most 20; it stores the given terms, `10^decimals` of these replies and an empty history; and which error refuses it otherwise |
| `SpendingLimit.MultiTokenSpendingLimitPolicy.Uninstall` | policies/multi-token-spending-limit-policy/src/lib.rs:318-328 | removes its own entry, and only an existing one; which failure otherwise |
| `SpendingLimit.FetchTokenDivisors` | policies/multi-token-spending-limit-policy/src/lib.rs:292-295 | the loop succeeds exactly when every token reports at most 20 decimals, with `10^decimals` of each in order, and otherwise fails as the first bad reply does |
| `SpendingLimit.DivisorIsPowerOfTen` | policies/multi-token-spending-limit-policy/src/oracle.rs:54-81 | a divisor is `10^decimals` for every reply within the bound, so the power never overflows; a revert or too many decimals is refused |
| `SpendingLimit.UsdDivisorExactly` | policies/multi-token-spending-limit-policy/src/oracle.rs:54-62 | the oracle's divisor is `10^decimals` for at most 30 decimals; a revert traps, more decimals are an invalid oracle response |
| `SpendingLimit.TokenDivisorExactly` | policies/multi-token-spending-limit-policy/src/oracle.rs:73-81 | a token's divisor is `10^decimals` for at most 20 decimals; a revert traps, more decimals are an invalid token response |
| `CanonicalSigners.CanonicalizeExactly` | account-factory/contracts/factory-contract/src/lib.rs:196-227 | a signer list is accepted exactly when its signers are distinct and have these shapes, and the result is a strictly sorted permutation |
| `CanonicalSigners.ShapeErrorExactly` | account-factory/contracts/factory-contract/src/lib.rs:244-260 | the accepted shapes in bytes: every delegated signer, an Ed25519 key of 32 bytes, a WebAuthn key of more than 65 bytes beginning with 0x04; and the error of each other key |
| `CanonicalSigners.OrderDoesNotMatter` | account-factory/contracts/factory-contract/src/lib.rs:196-227 | every permutation is accepted or refused alike and gives the identical list |
| `CanonicalSigners.CanonicalFormIdentifiesSet` | account-factory/contracts/factory-contract/src/lib.rs:196-227 | two accepted lists have one canonical form if and only if they hold the same signers |
| `CanonicalSigners.OutcomeOrderFreeExactly` | account-factory/contracts/factory-contract/src/lib.rs:196-227 | every permutation of a list gives the same outcome, error included, if and only if at most one kind of thing is wrong with it: malformed Ed25519 signers, malformed WebAuthn signers, repeated well-formed signers |
| `CanonicalSigners.RefusedForExactly` | account-factory/contracts/factory-contract/src/lib.rs:196-227 | some permutation is refused with an error if and only if that error names something wrong with the list |
| `CanonicalSigners.InsertSorted` | account-factory/contracts/factory-contract/src/lib.rs:201-224 | inserting into a sorted list is refused exactly for a signer already there, and otherwise keeps it sorted with one more element |
| `Signers.SignersTotalOrder` | account-factory/contracts/factory-contract/src/lib.rs:229-242 | two signers compare equal exactly when they are the same, and comparison is antisymmetric |
| `Signers.SignersTransitive` | account-factory/contracts/factory-contract/src/lib.rs:229-242 | the order is transitive |
| `Signers.CanonicalOrder` | account-factory/contracts/factory-contract/src/lib.rs:229-242 | delegated signers come first by address, then Ed25519, then WebAuthn keys, each by the first differing byte |
| `Signers.CanonicalizeSigners` | account-factory/contracts/factory-contract/src/lib.rs:196-227 | the insertion loop returns the sorted list, or the error of the first malformed or repeated signer |
| `Signers.InsertSigner` | account-factory/contracts/factory-contract/src/lib.rs:201-224 | the inner loop inserts before the first greater signer, or reports an equal one |
| `SaltPreimage.PreimageRoundTrip` | account-factory/contracts/factory-contract/src/lib.rs:307-327 | the parser recovers salt, signer records and threshold from every preimage |
| `SaltPreimage.PreimageLayout` | account-factory/contracts/factory-contract/src/lib.rs:307-327 | where each part of the preimage lies, the tag spelled in ASCII |
| `SaltPreimage.RecordBytes` | account-factory/contracts/factory-contract/src/lib.rs:312-324 | the bytes of a signer's record: 0x00, 0x01 or 0x02 for its kind, the big-endian length, the data |
| `SaltPreimage.RecordsInOrder` | account-factory/contracts/factory-contract/src/lib.rs:312-325 | the records follow one another in the order of the signers |
| `SaltPreimage.BigEndianBytes` | account-factory/contracts/factory-contract/src/lib.rs:310-327 | lengths, count and threshold are written most significant byte first |
| `SaltPreimage.ParseAcceptsOnlyPreimages` | account-factory/contracts/factory-contract/src/lib.rs:307-327 | whatever the parser reads encodes back to the same bytes |
| `SaltPreimage.PreimageInjective` | account-factory/contracts/factory-contract/src/lib.rs:307-329 | different normalized parameters have different preimages, for signer lists of any length |
| `SaltPreimage.InjectiveXdrExists` | account-factory/contracts/factory-contract/src/lib.rs:316-318 | the theorems' assumption on address serialization can be met: 33 bytes tell all addresses apart |
| `SaltPreimage.ComputeAccountDeploySalt` | account-factory/contracts/factory-contract/src/lib.rs:307-330 | the buffer that grows in the loop is the encoding, and the salt is its hash |
| `Factory.NormalizeExactly` | account-factory/contracts/factory-contract/src/lib.rs:168-194 | exactly which parameters are accepted (shapes in bytes), that the threshold is then between 1 and the number of signers, and which error refuses the others |
| `Factory.NormalizeOrderFreeExactly` | account-factory/contracts/factory-contract/src/lib.rs:168-194 | the same for normalization as a whole, threshold errors included |
| `Factory.SameAddressExactly` | account-factory/contracts/factory-contract/src/lib.rs:113-118 | two accepted parameter sets derive one address if and only if they have the same signer set, effective threshold and salt (an omitted threshold counts as 1 for one signer), or their preimages collide |
| `Factory.TranslationInjective` | account-factory/contracts/factory-contract/src/lib.rs:244-289 | well-formed signers stay distinct in the account even when both verifiers are one address |
| `Factory.AccountFaithful` | account-factory/contracts/factory-contract/src/lib.rs:268-305 | the account gets the configured code, one signer for each canonical one in order with its kind's verifier, and a policy exactly from two signers on; equal accounts mean equal signer sets and thresholds |
| `Factory.ReturnsPredicted` | account-factory/contracts/factory-contract/src/lib.rs:113-138 | in every run a call returns the predicted address and leaves an account there, or fails and changes nothing, and exactly when |
| `Factory.AnnouncedOnce` | account-factory/contracts/factory-contract/src/lib.rs:127-137 | each address is announced at most once, and exactly when it is deployed |
| `Factory.DeployedForGood` | account-factory/contracts/factory-contract/src/lib.rs:127-137 | a deployed account is never replaced |
| `Factory.InstalledAsBuilt` | account-factory/contracts/factory-contract/src/lib.rs:120-138 | whoever deployed first, the account at an address is the one any accepted parameters deriving that address would have built |
| `Factory.FactoryContract.CreateAccount` | account-factory/contracts/factory-contract/src/lib.rs:120-138 | the call's result and the new set of accounts and announcements |
| `Factory.FactoryContract.GetAccountAddress` | account-factory/contracts/factory-contract/src/lib.rs:113-118 | the address, or the error of normalization, without reading the configuration |
| `Factory.FactoryContract.Initialize` | account-factory/contracts/factory-contract/src/lib.rs:89-111 | the configuration is set once, and only with three deployed addresses; which error otherwise |
| `Factory.BuildAccountSigners` | account-factory/contracts/factory-contract/src/lib.rs:268-289 | the loop translates the signers one by one, in order |
| `Factory.Normalize` | account-factory/contracts/factory-contract/src/lib.rs:168-194 | normalization through the sorting loop, with every threshold error |
| `VestingMath.WideMulDiv` | templates/vesting-schedule/src/lib.rs:380-391 | the two-word branch is exactly the floor of the product over the duration; no intermediate overflows and no shifted bit is lost |
| `VestingMath.MulDivU128` | templates/vesting-schedule/src/lib.rs:373-393 | both branches give that floor |
| `VestingRuns.VestedExactly` | templates/vesting-schedule/src/lib.rs:344-367 | nothing before start or cliff, everything from the end on, the linear share rounded down between; always between 0 and the total, so the casts are lossless |
| `VestingRuns.VestedIsMonotone` | templates/vesting-schedule/src/lib.rs:344-367 | vesting never goes back, across start, cliff and end |
| `VestingRuns.EvenRelease` | templates/vesting-schedule/src/lib.rs:344-393 | any stretch past the cliff releases its exact share rounded down, or one more |
| `VestingRuns.ClaimIsExact` | templates/vesting-schedule/src/lib.rs:238-269 | exactly when a claim succeeds; it then pays what is vested and not claimed, brings the claimed amount to what is vested, and moves no other balance; nothing saturates and the `checked_add` fallback is never taken |
| `VestingRuns.ClaimedIsVested` | templates/vesting-schedule/src/lib.rs:238-269 | after any run the claimed amount is what was vested at the last successful claim, however claims were spaced, and the sum of what claims returned |
| `VestingRuns.NoDust` | templates/vesting-schedule/src/lib.rs:238-269 | claims return non-negative amounts, and one at or after the end brings their sum to exactly the total |
| `VestingRuns.Conservation` | templates/vesting-schedule/src/lib.rs:253-266 | balance plus paid out is initial balance plus funding plus what was paid to the contract itself |
| `VestingRuns.ConservationExactly` | templates/vesting-schedule/src/lib.rs:253-266 | balance plus claimed equals funding if and only if no claim sent a positive amount to the contract's own address |
| `VestingRuns.FundedClaimSucceeds` | templates/vesting-schedule/src/lib.rs:238-269 | a contract funded with the total can pay every authorized claim |
| `Vesting.VestingScheduleContract.Construct` | templates/vesting-schedule/src/lib.rs:171-217 | exactly which terms are accepted, with which error otherwise, and only once |
| `Vesting.VestingScheduleContract.ClaimVested` | templates/vesting-schedule/src/lib.rs:238-269 | the amount returned, the new schedule and the new balances |
| `Vesting.VestingScheduleContract.ClaimableAmount` | templates/vesting-schedule/src/lib.rs:292-303 | the view returns what an authorized claim at that ledger returns, whoever is paid, from any balances with which the contract can pay it |
| `ConditionRuns.AcceptsConjunction` | policies/parameter-scoped-policy/src/conditions.rs:222-283 | a call is accepted exactly when it is authorized and signed, the policy is installed, the call names a configured function, and every condition finds its argument and passes |
| `ConditionRuns.RefusesWith` | policies/parameter-scoped-policy/src/conditions.rs:222-283 | which error refuses a call, in order, and among the conditions the first that does not hold |
| `ConditionRuns.FirstFailureExactly` | policies/parameter-scoped-policy/src/conditions.rs:243-278 | the error is that of the first condition that does not hold |
| `ConditionRuns.PassesExactly` | policies/parameter-scoped-policy/src/conditions.rs:183-220 | what a condition means: its operator on the integers for two values of one integer type, equality or inequality for two symbols or two addresses, and nothing passes otherwise |
| `ConditionRuns.MoreConditionsNarrow` | policies/parameter-scoped-policy/src/conditions.rs:243-278 | adding conditions, or removing functions, never accepts more |
| `ConditionRuns.OrderDoesNotMatter` | policies/parameter-scoped-policy/src/conditions.rs:243-278 | the order of conditions does not change what is accepted |
| `ConditionRuns.OperatorsPartition` | policies/parameter-scoped-policy/src/conditions.rs:183-220 | on arguments of the expected type Neq accepts exactly what Eq rejects, the orderings are those of the numbers and partition them; an argument of another type passes nothing |
| `SpendingExactness.LimitPassedAtMax` | policies/multi-token-spending-limit-policy/src/lib.rs:423-432 | with a limit of `i128::MAX` and a token of scale below 1000, the run of `scale + 1` (at most 1000) largest transfers at one ledger is accepted whole and passes the limit in one stretch |
| `SpendingExactness.LimitPassedAtZero` | policies/multi-token-spending-limit-policy/src/lib.rs:216-236 | the run of `limit + 1` one-dollar transfers at ledger 0 is accepted whole and passes the limit in one stretch |
| `ConditionRuns.PinnedArgument` | policies/parameter-scoped-policy/src/conditions.rs:14-21 | with an equality condition on an argument, only calls with that very argument pass |
| `ConditionRuns.EveryEntryOk` | policies/parameter-scoped-policy/src/conditions.rs:285-327 | in every reachable store every entry has 1 to 10 functions, 1 to 5 conditions each, and only equality operators on symbols and addresses |
| `ConditionRuns.GrantsOkExactly` | policies/parameter-scoped-policy/src/conditions.rs:297-317 | installable grants in numbers: 1 to 10 functions, 1 to 5 conditions each, symbols and addresses for equality or inequality only |
| `ConditionRuns.InstallExactly` | policies/parameter-scoped-policy/src/conditions.rs:285-327 | an install succeeds exactly when authorized, for a contract-call rule, with installable grants and a free key, and which error refuses it otherwise |
| `ConditionRuns.UninstallExactly` | policies/parameter-scoped-policy/src/conditions.rs:329-337 | an uninstall succeeds exactly when authorized and something is stored, and which error refuses it otherwise |
| `ConditionRuns.OneStepOnKey` | policies/parameter-scoped-policy/src/conditions.rs:285-337 | in any run an operation can only fill a free key by its authorized install, or empty a filled one by its authorized uninstall |
| `ConditionRuns.StoredUntilRemoved` | policies/parameter-scoped-policy/src/conditions.rs:319-337 | a stored entry is never overwritten and stays as it is over any run until an authorized uninstall of its own key |
| `ConditionRuns.StoredByLastInstall` | policies/parameter-scoped-policy/src/conditions.rs:285-337 | a key holds what its last successful install put there, unless a successful uninstall followed |
| `ConditionRuns.KeysDoNotInterfere` | policies/parameter-scoped-policy/src/conditions.rs:319-337 | the outcome of an operation on a key is what it would be without any operation on other keys |
| `Conditions.EnforceConditions` | policies/parameter-scoped-policy/src/conditions.rs:243-278 | the loop stops at the first condition that does not hold |
| `Conditions.ValidateConditions` | policies/parameter-scoped-policy/src/conditions.rs:297-317 | the nested loops accept exactly the well-formed condition maps |
| `Conditions.ParameterScopedPolicy.Install` | policies/parameter-scoped-policy/src/conditions.rs:285-327 | exactly when an install succeeds, which error refuses it, and the new store |
| `Conditions.ParameterScopedPolicy.Uninstall` | policies/parameter-scoped-policy/src/conditions.rs:329-337 | exactly when an uninstall succeeds, which error refuses it, and the new store |
| `Conditions.ParameterScopedPolicy.Enforce` | policies/parameter-scoped-policy/src/conditions.rs:222-283 | the verdict, with every error in its order; nothing is written |
| `TimelockVault.PaceExactly` | templates/timelock-vault/src/lib.rs:118-139 | for every creation ledger and initial TTL, a pace of refreshes keeps the vault's state live on every run if and only if it is at most `TTL_THRESHOLD`, or ledger numbers end within the first life |
| `TimelockVault.OneLedgerTooLate` | templates/timelock-vault/src/lib.rs:166-178 | for every creation ledger and initial TTL, a vault bumped successfully at every ledger until `TTL_THRESHOLD` ledgers remain still traps a due, authorized withdrawal `TTL_THRESHOLD + 1` ledgers after the last bump |
| `TimelockVault.DocumentedPaceFails` | templates/timelock-vault/src/lib.rs:36-48 | the documented pace, once per `EXTEND_AMOUNT` ledgers, does not keep the state of any vault live on every run while ledger numbers last |
| `TimelockVault.KeptAlive` | templates/timelock-vault/src/lib.rs:135-139 | while calls keep that pace, both entries live for `TTL_THRESHOLD` ledgers from every refresh |
| `TimelockVault.KeptAliveWithdraws` | templates/timelock-vault/src/lib.rs:166-263 | in such a run no call meets an archived entry, and an owner-authorized withdrawal at or after `unlock_ledger` goes through however long the lock |
| `TimelockVault.WithdrawalIsGated` | templates/timelock-vault/src/lib.rs:244-263 | in any run, however paced, a successful withdrawal was authorized by the owner and not before the unlock ledger |
| `TimelockVault.ConstructExactly` | templates/timelock-vault/src/lib.rs:166-178 | construction succeeds exactly when the unlock ledger is in the future, and stores the given owner and unlock ledger |
| `TimelockVault.DeployedVaultIsGated` | templates/timelock-vault/src/lib.rs:166-253 | in any run of a deployed vault a successful withdrawal was authorized, at or after the unlock ledger, and after the ledger of creation |
| `TimelockVault.JudgeExactly` | templates/timelock-vault/src/lib.rs:135-263 | when each call succeeds, with which failure otherwise, and which entry is extended to what, in numbers of ledgers |
| `TimelockVault.Immutable` | templates/timelock-vault/src/lib.rs:29-34 | owner and unlock ledger never change |
| `TimelockVault.TimelockVaultContract.Execute` | templates/timelock-vault/src/lib.rs:196-263 | result and new state of a bump, deposit or withdrawal |
| `TimelockVault.TimelockVaultContract.Deploy` | templates/timelock-vault/src/lib.rs:166-178 | refuses exactly an unlock ledger that is not in the future, and otherwise stores owner and unlock ledger, live for `TTL_THRESHOLD` ledgers at least |

## Left out

- Authorization itself (`require_auth`, the smart account and its context rules) is not shown in the repository; each call takes it as a boolean.
- Events other than `AccountCreated`, and all TTL refreshes other than the vault's, are not modelled: an entry of the other contracts never expires here.
- The order in which a host map is iterated is not modelled; every failure while validating conditions is the same error, so no result depends on it.
- Operand conversion in the parameter-scoped policy is modelled by the type of the argument: an argument converts exactly to its own type.
- Vault token balances: a transfer is a boolean outcome; what it moves is the token's business.
- The network's bound on how far a TTL may be extended, and restoring an archived entry, are not modelled.
- An uninstall followed by an install starts a new spending history; every spending theorem is about one installation.
- WebAuthn credential identifiers are compared as raw key bytes, as in the code: two signers with one P-256 key and different identifiers are distinct.
- `fee-forwarder`, the threshold, weighted-threshold and spending-limit policies and the Ed25519 and WebAuthn verifiers are thin wrappers over libraries that are not part of the repository.
- The P-256 and secp256k1 verifiers are length checks around host cryptography.
- `session-policy`, `recipient-allowlist-policy` and the smart account's deployment records would only repeat easier forms of the properties here.
