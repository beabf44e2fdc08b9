# Evmos keeper modules in Dafny

A Dafny 4.11 model of five parts of the Evmos chain, and proofs of what they keep:

- the airdrop ledger of `x/claims`: an escrow account behind a map of claims records;
- the two-way conversion between bank coins and EIP-20 tokens of `x/erc20`, its registry and its EVM hook;
- the fee split registry of `x/feesplit`, with its index keys and its proof of contract ownership;
- the generated protobuf codec of stored `FeeSplit` and `ClaimsRecord` messages;
- the epoch clock of `x/epochs`.

`dafny verify dfyconfig.toml` verifies everything.

## How it is laid out

Each keeper is described twice. A value (`Ledger`, `Chain`, `Store`, `EpochInfo`) and functions on it say what an
operation does, case by case. A class with the keeper's stores as fields, or a method with the source's loop, does it
the way the source does, and its postcondition ties the two together. The theorems about whole runs are lemmas about
the functions.

| file | models |
|---|---|
| `common.dfy`, `map_sums.dfy`, `fixed_point.dfy` | shared types; totals of a store; `sdk.Dec` with 18 digits, truncating and half-to-even |
| `claims_types.dfy`, `claims_decay.dfy` | records, actions, the time window, the decay arithmetic |
| `claims_ledger.dfy`, `claims_keeper.dfy` | claiming, merging, hooks, IBC callbacks, end of the airdrop |
| `claims_solvency.dfy`, `claims_history.dfy`, `claims_end.dfy` | runs of the claims module |
| `claims_effects.dfy`, `erc20_effects.dfy` | when each operation takes effect, and what that is, told from outside |
| `claims_genesis.dfy`, `upgrade_v5.dfy` | genesis check, registered invariant, export; the v5 record swaps |
| `erc20_assets.dfy`, `erc20_registry.dfy`, `erc20_conversion.dfy`, `erc20_keeper.dfy` | ledgers, pairs, conversions, hook |
| `erc20_solvency.dfy`, `erc20_runs.dfy`, `erc20_round_trips.dfy` | backing of every pair over runs; round trips, redeemability |
| `feesplit_registry.dfy`, `feesplit_keeper.dfy` | registry, derivation, prefix scans |
| `wire.dfy`, `wire_fields.dfy`, `wire_truncation.dfy`, `wire_loops.dfy` | varints, tags, nested unknown fields, what is refused; reading and writing loops |
| `feesplit_codec.dfy`, `claims_codec.dfy` | the two messages |
| `epochs.dfy` | the clock and its hooks |

## What the surroundings are taken to be

- The bank refuses amounts that are not positive or not covered, and sends from a module to blocked addresses.
  A module account signs no message. The claims and erc20 module accounts are blocked, the distribution account is not.
- A message that fails is rolled back; so are the writes of a received packet whose acknowledgement is an error.
  Hooks are not rolled back.
- In EVM traffic tokens follow EIP-20 as OpenZeppelin implements it: zero-address and overflow checks, truthful
  `Transfer` events. The module account grants no allowance. The module's own contracts have no self-destruct.
- To a conversion message an external contract may answer anything: revert, return false, emit an approval, report any
  balances. The theorem over runs excludes one kind of answer, which the code does not detect (`ConvertCoinBackedIff`).
- Other modules mint and burn coins freely, except that they mint none named after a contract (`erc20/...`) or reading
  as one (forty hexadecimal digits).
- Pair identifiers are collision free. Packets, acknowledgements and bech32 or hex addresses arrive decoded, with a
  flag where decoding can fail. Contract creation is a parameter; that it is collision free, and that accounts
  without code are not created contracts, are hypotheses of the theorems that need them.
- The order in which a store iterates, block times and heights are parameters.

## Where the code does not do what one would expect

Each of these is kept as the code has it, with the exact condition proved.

- A merge whose claimable part rounds to zero completes actions without paying the community pool, so escrow ends up
  above the open quarters (`ExactIffNothingStranded`, `SomeMergeStrands`).
- The end-blocker compares int64 durations, whose difference saturates and whose sum wraps; it agrees with the active
  window exactly when the two durations together stay below the int64 maximum (`EndsExactlyPastWindow`).
- The final clawback counts coins twice in the community pool when the distribution account itself is clawed back
  (`PoolMatchedIffNotItself`, `PoolCountsItsOwnCoins`).
- The genesis check counts an overwritten duplicate (`GenesisEstablishesInvariant`, `DuplicateLeavesSurplus`), and
  rounds quarters down where the registered invariant does not (`ChecksAgreeIffDivisible`).
- `RegisterCoin` looks the coin's name up but stores its base, so pairs can share a denomination (`RegisterLaw`). Escrow
  still covers all their tokens together (`RunGood`), and a holder of any of them can still convert to coins
  (`HolderCanRedeem`). What the older pair loses is its denomination, and with it the way back from coins to its tokens
  (`TokenRoundTrip`, `SecondRegistrationHidesFirst`). External pairs never lose theirs (`CoinKeepsFound`).
- A denomination of forty hexadecimal digits is looked up as a contract, while the message's own coin is taken, so
  tokens can be issued against a coin that is not theirs (`ConvertCoinBackedIff`, `ForeignCoinIsNotCovered`).
- Releasing an external contract's tokens, the message checks the receiver's balance and not the module's, so a contract
  that takes more than it gives leaves coins unbacked (`ConvertCoinBackedIff`, `GreedyAnswerIsAccepted`).
- The v5 upgrade reopens the IBC action of records that were merged or migrated into, so they can move again as long as
  an open action pays something (`TargetFixedByUpgradeIff`).
- Genesis replaces a start time at the zero time, so such parameters do not survive export (`ExportRoundTrip`).
- Prefix scans mix accounts of different lengths (`DeployerScanExact`, `WithdrawerScanExact`,
  `LongerWithdrawerShowsUp`), and registration reads only the last twenty bytes of an account
  (`RegistrationSeesTwentyBytes`).
- `AfterEpochEnd` gets the number of the epoch that begins, not of the one that ends, as its comment says
  (`HooksAreTrace`).

## Model

| member | source | states |
|---|---|---|
| `ClaimsDecay.ClaimableWithinWindow` | x/claims/keeper/claim.go:170-227 | inside the window: 0 ≤ claimable ≤ quarter, claimable + remainder = quarter, claimable never rises with time, distance to the exact linear decay at most 1/2 + quarter/10^18, full before decay, zero at the end |
| `ClaimsDecay.DecayedIsAccurate` | x/claims/keeper/claim.go:213-226 | the rounding error of the decimal arithmetic, for all elapsed times |
| `FixedPoint.ChopNearest` | x/claims/keeper/claim.go:224 | half-to-even rounding is within half a unit |
| `FixedPoint.ChopTies` | x/claims/keeper/claim.go:224 | halves go to the even neighbour, of either sign |
| `FixedPoint.TruncatesTowardZero` | x/claims/keeper/claim.go:213-219 | integer quotients are cut toward zero |
| `FixedPoint.QuarterIsExact` | x/claims/keeper/invariants.go:31 | a decimal quarter of an integer is exact |
| `ClaimsKeeper.Keeper.ClaimCoinsForAction` | x/claims/keeper/claim.go:12-75 | the step-by-step claim with its early returns and two transfers is the transition `Claim`, partial failures included |
| `ClaimsKeeper.Keeper.MergeAmounts` | x/claims/keeper/claim.go:91-132 | the merge loop refuses exactly senders with a completed action and accumulates the closed-form shares and merged bits |
| `ClaimsKeeper.Keeper.MergeClaimsRecords` | x/claims/keeper/claim.go:84-165 | the merge is the transition `Merge`, with the zero-claim early return |
| `ClaimsKeeper.Keeper.AfterProposalVote` | x/claims/keeper/hooks.go:45-61 | the vote hook is its step of the run semantics |
| `ClaimsKeeper.Keeper.AfterDelegationModified` | x/claims/keeper/hooks.go:73-89 | the delegation hook is its step |
| `ClaimsKeeper.Keeper.PostTxProcessing` | x/claims/keeper/hooks.go:101-120 | the EVM hook is its step |
| `ClaimsKeeper.Keeper.OnAcknowledgementPacket` | x/claims/keeper/ibc_callbacks.go:22-62 | the acknowledgement callback, with its no-op and error cases |
| `ClaimsKeeper.Keeper.OnRecvPacket` | x/claims/keeper/ibc_callbacks.go:73-214 | the branching receive callback is the case table `Classify` followed by refuse, ignore, merge, migrate or claim |
| `ClaimsKeeper.Keeper.ReceiveCached` | x/claims/ibc_middleware.go:33-46 | transfer application, then callback: an error acknowledgement of either leaves the state as it was, otherwise both effects are kept |
| `ClaimsKeeper.Keeper.ClawbackEmptyAccounts` | x/claims/keeper/abci.go:85-168 | visiting every record, pruning or emptying dormant accounts, then deleting the records collected |
| `ClaimsKeeper.Keeper.EndAirdrop` | x/claims/keeper/abci.go:36-54 | escrow clawback, account clawback, records gone, claims off |
| `ClaimsKeeper.Keeper.EndBlocker` | x/claims/keeper/abci.go:15-32 | the end-of-block step in int64 durations |
| `ClaimsSolvency.ClaimAllOrNothing` | x/claims/keeper/claim.go:33-66 | if escrow holds the quarter, a claim changes nothing or pays exactly one quarter, split between user and pool, and marks the action |
| `ClaimsSolvency.ClaimKeepsSurplus` | x/claims/keeper/claim.go:12-75 | claiming in place or by migration keeps escrow minus open quarters to the coin |
| `ClaimsSolvency.MergedOwes` | x/claims/keeper/claim.go:94-132 | the merged record owes what both owed less what the merge pays; divisibility by four is kept |
| `ClaimsSolvency.MergeStep` | x/claims/keeper/ibc_callbacks.go:155-173 | a merge succeeds exactly when the sender completed nothing, pays its shares in full, and changes the surplus by what the early return strands |
| `ClaimsSolvency.StepLaw` | x/claims/keeper/ibc_callbacks.go:150-206 | every hook, acknowledgement and receive step keeps solvency, conserves allocations and coins, and adds exactly the stranded coins to the surplus |
| `ClaimsSolvency.RunLaw` | x/claims/keeper/invariants.go:16-57 | over every run escrow covers the open quarters and exceeds them by exactly the starting surplus plus what merges stranded |
| `ClaimsSolvency.ExactIffNothingStranded` | x/claims/keeper/claim.go:134-137 | escrow stays equal to the open quarters over a run if and only if no merge takes the early return owing coins |
| `ClaimsSolvency.SomeMergeStrands` | x/claims/keeper/claim.go:134-137 | a concrete merge at the last instant that strands two coins |
| `ClaimsHistory.HookNeverHalfDone` | x/claims/keeper/hooks.go:45-120 | under solvency an error-swallowing hook leaves no change or a full claim |
| `ClaimsHistory.FailedCallbackWritesNothing` | x/claims/keeper/ibc_callbacks.go:150-213 | under solvency a failing callback has written nothing |
| `ClaimsHistory.StepFrame` | x/claims/keeper/ibc_callbacks.go:150-206 | only the sender's and recipient's records change, and surviving records only gain completed bits |
| `ClaimsHistory.TargetNeverBecomesSource` | x/claims/keeper/ibc_callbacks.go:104-109 | after any run, the target of a merge or migration is never the source of one |
| `ClaimsEffects.ClaimEffect` | x/claims/keeper/claim.go:12-75 | with the quarter in escrow a claim sets exactly its bit, pays its worth and gives the rest of the quarter to the pool, or does nothing; it fails exactly when there is something to pay to a blocked address |
| `ClaimsEffects.ShortEscrow` | x/claims/keeper/claim.go:42-53 | with too little in escrow a claim or a merge fails without touching a record, and what was already paid to the user stays paid |
| `ClaimsEffects.HooksClaimTheirAction` | x/claims/keeper/hooks.go:45-120 | a vote claims slot 0, a delegation slot 1, an EVM transaction slot 2, each exactly when the address has a record, is not blocked, and the action is open and worth something; else nothing changes |
| `ClaimsEffects.AckEffect` | x/claims/keeper/ibc_callbacks.go:22-62 | a success acknowledgement claims slot 3 for the sender, an error one does nothing, and exactly when the callback fails |
| `ClaimsEffects.ReceiptClaims` | x/claims/keeper/ibc_callbacks.go:198-201 | a packet from somebody without a record, or from oneself over an EVM channel, claims slot 3 for the recipient |
| `ClaimsEffects.PacketMigrates` | x/claims/keeper/ibc_callbacks.go:174-190 | with the trigger amount the sender's record moves to a recipient without one, its IBC action claimed, unless that is worth nothing |
| `ClaimsEffects.PacketMerges` | x/claims/keeper/ibc_callbacks.go:155-173 | with the trigger amount two records merge: the record written, who is paid how much, and refusal of a sender that completed an action |
| `ClaimsEffects.RefusedIff` | x/claims/keeper/ibc_callbacks.go:73-213 | exactly when the acknowledgement is an error |
| `ClaimsEffects.OtherPacketsDoNothing` | x/claims/keeper/ibc_callbacks.go:73-213 | every other packet changes nothing |
| `ClaimsEffects.DeliveryEffect` | x/claims/ibc_middleware.go:33-46 | the transfer application's coins and the callback's effect on top of them are kept together, or nothing |
| `ClaimsEffects.EndBlockEffect` | x/claims/keeper/abci.go:15-168 | up to the end of the airdrop a block end changes nothing; past it, whose coins and accounts go, and that escrow, records and claims are gone |
| `ClaimsEnd.EndsExactlyPastWindow` | x/claims/keeper/abci.go:23-27 | the end-blocker fires exactly past the active window, at all times, if and only if the durations sum below the int64 maximum |
| `ClaimsEnd.WrappedWindowEndsAtOnce` | x/claims/keeper/abci.go:23-27 | two durations whose sum wraps end the airdrop at its start |
| `ClaimsTypes.DurationArithmetic` | x/claims/keeper/abci.go:23-24 | a difference of times saturates to the nearest int64, a sum of durations wraps modulo 2^64 |
| `ClaimsEnd.ClawbackEffect` | x/claims/keeper/abci.go:94-155 | whatever the iteration order: which balances are emptied, which accounts removed, coins conserved |
| `ClaimsEnd.AirdropEndEffect` | x/claims/keeper/abci.go:36-168 | afterwards escrow is empty, no record remains, claims are off, coins are conserved, vesting and active accounts are untouched |
| `ClaimsEnd.PoolMatchedIffNotItself` | x/claims/keeper/abci.go:137-155 | the pool counts more than reached its account by exactly what that account holds at its own turn (its coins, escrow, and those of the dormant accounts before it) if it is clawed back, else by nothing |
| `ClaimsEnd.PoolCountsItsOwnCoins` | x/claims/keeper/abci.go:137-155 | a packet migrates a record to the distribution account and the end of the airdrop then counts twelve coins twice |
| `ClaimsEnd.HistoryKeepsSolvent` | x/claims/keeper/abci.go:15-54 | solvency and coins over every history of steps and block ends |
| `ClaimsEnd.NothingAfterTheEnd` | x/claims/types/params.go:183-192 | once claims are off, no hook, callback or block end changes anything |
| `ClaimsGenesis.InitGenesis` | x/claims/genesis.go:14-68 | the nested loops accept exactly well-formed lists whose whole quarters sum to escrow, given the module account, and write the records and the parameters with the default start time |
| `ClaimsGenesis.GenesisEstablishesInvariant` | x/claims/genesis.go:59-67 | an accepted genesis is in balance if and only if overwritten entries owed nothing |
| `ClaimsGenesis.GenesisIsSolvent` | x/claims/genesis.go:36-68 | an accepted, duplicate-free, divisible genesis is solvent with zero surplus |
| `ClaimsGenesis.DuplicateLeavesSurplus` | x/claims/genesis.go:36-68 | an accepted list with a duplicate that leaves four coins above what is owed |
| `ClaimsGenesis.ClaimsInvariant` | x/claims/keeper/invariants.go:18-57 | the decimal accumulation reports a break exactly when claims are active and the exact unclaimed sum differs from escrow |
| `ClaimsGenesis.ChecksAgreeIffDivisible` | x/claims/keeper/invariants.go:29-44 | genesis check and registered invariant agree on a record set exactly when every record with an open action divides by four |
| `ClaimsGenesis.RegisteredInvariantHoldsIff` | x/claims/keeper/invariants.go:18-57 | after any run from balance the registered invariant holds if and only if nothing was stranded |
| `ClaimsGenesis.ExportRoundTrip` | x/claims/genesis.go:71-76 | a balanced state exports to a genesis that is accepted and writes the same records, and the same parameters if and only if the start time is set or the new chain starts at the zero time |
| `UpgradeV5.SwapUnclaimedAction` | app/upgrades/v5/upgrades.go:178-185 | the in-place swap and when it happens |
| `UpgradeV5.ClaimsStore.ResolveAirdrop` | app/upgrades/v5/upgrades.go:145-176 | every record is replaced by its resolved form |
| `UpgradeV5.ResolvedRecord` | app/upgrades/v5/upgrades.go:132-185 | amount and number of completed actions kept, at most one swap, EVM completed exactly when any was, idempotent |
| `UpgradeV5.ResolvedTable` | app/upgrades/v5/upgrades.go:145-185 | which action is swapped for which, for all sixteen records |
| `UpgradeV5.UpgradeKeepsLedger` | app/upgrades/v5/upgrades.go:144-176 | the escrow equation and solvency are unchanged, twice is once |
| `UpgradeV5.IbcStaysCompletedIff` | app/upgrades/v5/upgrades.go:145-153 | the upgrade leaves a completed IBC action completed if and only if all four are |
| `UpgradeV5.TargetFixedByUpgradeIff` | app/upgrades/v5/upgrades.go:145-176 | after an upgrade at an active time t, a former target never becomes a source in any run from t on, if and only if all its actions were completed or an open action pays nothing any more |
| `UpgradeV5.ClaimsStore.MigrateContributorClaim` | app/upgrades/v5/upgrades.go:191-202 | the record is found at the new address and no longer at the old one, no third address is touched, and without a record nothing happens |
| `UpgradeV5.MigrationStrandsTarget` | app/upgrades/v5/upgrades.go:191-202 | the surplus grows by exactly what an overwritten target record was owed |
| `Erc20Registry.RegisterLaw` | x/erc20/keeper/proposals.go:62-65 | a new contract keeps the contract index a bijection and no denomination dangling; the denomination index stays complete if and only if the denomination is new |
| `Erc20Registry.DeleteLaw` | x/erc20/keeper/token_pairs.go:64-69 | deletion keeps all three |
| `Erc20Registry.ToggleLaw` | x/erc20/keeper/proposals.go:178-200 | toggling keeps all three and undoes itself |
| `Erc20Registry.RegisteredNames` | x/erc20/keeper/proposals.go:62-65 | a registration gives the pair its two names and takes no other name away |
| `Erc20Registry.ToggledNames` | x/erc20/keeper/proposals.go:178-200 | a toggle is seen under every name of its pair and under no other |
| `Erc20Registry.DeletedNames` | x/erc20/keeper/token_pairs.go:64-69 | a deletion takes away the contract's name and the denomination's, even if that led to another pair, and no other |
| `Erc20Registry.RegistryRunLaw` | x/erc20/keeper/token_pairs.go:30-111 | over every register, toggle and delete sequence both hold, and a stored pair is found by its denomination if and only if no other pair of that denomination was registered or deleted since it was |
| `Erc20Registry.LookupFindsNamedPair` | x/erc20/keeper/token_pairs.go:30-53 | lookups by contract and by denomination return the stored pair that bears the name |
| `Erc20Registry.ReadsAsIff` | x/erc20/keeper/token_pairs.go:30-36 | a name reads as a contract if and only if it is forty hexadecimal digits, alone or after "0x" or "0X", and as which |
| `Erc20Registry.FoundUnderOwnName` | x/erc20/keeper/token_pairs.go:30-36 | by a name as users write it, a pair is found under its own denomination if and only if that reads as its own contract, or as none and leads to it |
| `Erc20Conversion.CreateDenomIsPlain` | x/erc20/keeper/token_pairs.go:30-36 | the denomination of an external contract never reads as a contract |
| `Erc20Keeper.Keeper.ConvertCoin` | x/erc20/keeper/msg_server.go:21-59 | name resolution, guard, self-destruct clean-up, dispatch on the message's own coin, rollback on failure |
| `Erc20Keeper.Keeper.ConvertERC20` | x/erc20/keeper/msg_server.go:63-101 | the same for tokens |
| `Erc20Keeper.Keeper.ConvertCoinNativeCoin` | x/erc20/keeper/msg_server.go:108-187 | escrow and mint with its balance check: when it succeeds and both new ledgers |
| `Erc20Keeper.Keeper.ConvertERC20NativeCoin` | x/erc20/keeper/msg_server.go:195-287 | burn and release with its two balance checks |
| `Erc20Keeper.Keeper.ConvertERC20NativeToken` | x/erc20/keeper/msg_server.go:297-415 | lock tokens, mint and send coins, with the returned boolean, the two balance checks and the approval check against an arbitrary answer of the contract |
| `Erc20Keeper.Keeper.ConvertCoinNativeERC20` | x/erc20/keeper/msg_server.go:424-525 | take coins, unlock tokens, burn the coins, with the same checks |
| `Erc20Keeper.Keeper.PostTxProcessing` | x/erc20/keeper/evm_hooks.go:47-163 | the log loop with swallowed failures is the fold of `HookLog` |
| `Erc20Keeper.Keeper.RegisterCoin` | x/erc20/keeper/proposals.go:16-68 | guards and writes of a coin registration whose deployment can fail; the pair gets its two names and no other name changes |
| `Erc20Keeper.Keeper.RegisterERC20` | x/erc20/keeper/proposals.go:72-175 | on success the contract and the denomination made of it lead to the new external pair, every other name leads where it led, no other metadata and no balance changes; on failure nothing changes |
| `Erc20Keeper.Keeper.ToggleConversion` | x/erc20/keeper/proposals.go:178-200 | on success the flipped flag is seen under every name of the pair, and every other name leads where it led; otherwise nothing changes |
| `Erc20Effects.MessagesAreGuarded` | x/erc20/keeper/mint.go:16-66 | no message goes through unless the module and its pair are on, the receiver is not blocked, and the coin may be sent to others if the receiver is another, whatever a contract answers |
| `Erc20Effects.AnswersAreChecked` | x/erc20/keeper/msg_server.go:297-525 | with an external contract a message goes through exactly when it is allowed, the call returned true without an approval, and the contract reports the gain |
| `Erc20Effects.ConvertCoinSucceedsIff` | x/erc20/keeper/msg_server.go:21-187 | exactly when coins convert, in terms of the chain |
| `Erc20Effects.ConvertERC20SucceedsIff` | x/erc20/keeper/msg_server.go:63-415 | exactly when tokens convert |
| `Erc20Effects.OtherLogsDoNothing` | x/erc20/keeper/evm_hooks.go:61-118 | a log that is not a transfer of tokens of an enabled pair to the module does nothing |
| `Erc20Effects.LogOfModuleToken` | x/erc20/keeper/evm_hooks.go:120-160 | what such a log of the module's own token burns and releases |
| `Erc20Effects.LogOfExternalToken` | x/erc20/keeper/evm_hooks.go:120-160 | what such a log of an external token mints and sends |
| `Erc20Effects.HookSwitch` | x/erc20/keeper/evm_hooks.go:47-60 | switched off by either parameter the hook does nothing, else it takes the logs one by one |
| `Erc20Effects.RegisterCoinEffect` | x/erc20/keeper/proposals.go:16-68 | exactly when a coin is registered, "evm" anywhere in its base excluded, and what that writes |
| `Erc20Effects.RegisterERC20Effect` | x/erc20/keeper/proposals.go:72-175 | exactly when a contract is registered, and what that writes |
| `Erc20Effects.ToggledOff` | x/erc20/keeper/proposals.go:178-200 | a pair that is switched off converts neither coins under any of its names, nor tokens, nor logs |
| `Erc20Solvency.OnePairChanges` | x/erc20/keeper/msg_server.go:108-525 | a change confined to one pair's two ledgers that settles leaves every pair backed, also those sharing its denomination |
| `Erc20Solvency.LockAndIssueSettles` | x/erc20/keeper/msg_server.go:305-371 | taking tokens of any contract settles: what the message verifies is enough |
| `Erc20Solvency.ConvertCoinBackedIff` | x/erc20/keeper/msg_server.go:21-59 | a coin conversion that goes through keeps every pair backed if and only if its own pair is covered beforehand: the coin is the pair's own or escrow has room for the new tokens; of an external contract, what it leaves covers the coins still in circulation |
| `Erc20RoundTrips.GreedyAnswerIsAccepted` | x/erc20/keeper/msg_server.go:464-479 | on a backed chain the message accepts a contract that takes five tokens to release three, and two coins are left unbacked |
| `Erc20Solvency.HonestIsFair` | x/erc20/keeper/msg_server.go:447-450 | a contract that follows EIP-20 never takes more than the amount |
| `Erc20Solvency.ConvertCoinGood` | x/erc20/keeper/msg_server.go:21-59 | converting coins keeps every pair backed, if the denomination leads to its own pair and the contract takes no more than it releases |
| `Erc20Solvency.ConvertERC20Good` | x/erc20/keeper/msg_server.go:63-101 | converting tokens keeps every pair backed, however an external contract answers |
| `Erc20Solvency.HookLogGood` | x/erc20/keeper/evm_hooks.go:61-160 | one log uses up exactly its own credit, whatever fails on the way |
| `Erc20Solvency.PostTxGood` | x/erc20/keeper/evm_hooks.go:47-163 | the whole hook keeps every pair backed |
| `Erc20Runs.OpsGood` | contracts/ERC20MinterBurnerDecimals.sol:61-82 | user token traffic, self-destructs included, creates exactly the credit its events announce |
| `Erc20Runs.StepGood` | x/erc20/keeper/proposals.go:16-103 | every single step of such a run keeps every pair backed and every denomination in use from reading as a contract |
| `Erc20Runs.CoinKeepsFound` | x/erc20/keeper/proposals.go:35-53 | a coin registration never hides an external pair: the metadata it must repeat carries the registered name |
| `Erc20Runs.StepPlain` | x/erc20/keeper/proposals.go:35-65 | no step brings a coin that reads as a contract into circulation or into the registry |
| `Erc20Runs.RunGood` | x/erc20/keeper/msg_server.go:103-525 | over every interleaving of messages with arbitrary answers of external contracts, EVM traffic with its hook, bank traffic, deployments and proposals, as long as no coin reads as a contract: all tokens issued against a denomination together are at most its escrowed coins, all coins of an external contract at most the tokens held, and an external pair is always found by its denomination |
| `Erc20RoundTrips.ConvertCoinExchanges` | x/erc20/keeper/msg_server.go:103-187 | seen from outside the module, the message's coins convert one for one into tokens of the contract their name leads to, and nothing else moves |
| `Erc20RoundTrips.ConvertERC20Exchanges` | x/erc20/keeper/msg_server.go:189-415 | the same for tokens |
| `Erc20RoundTrips.CoinRoundTrip` | x/erc20/keeper/msg_server.go:108-287 | coins to tokens and back, through the pair the denomination leads to, cannot fail and restores every balance |
| `Erc20RoundTrips.TokenRoundTrip` | x/erc20/keeper/msg_server.go:195-525 | tokens to coins and back succeeds and restores every balance, if and only if the denomination leads to the pair the tokens are of |
| `Erc20RoundTrips.HookRefinesMessage` | x/erc20/keeper/evm_hooks.go:36-46 | sending tokens to the module does through the hook what the conversion message does |
| `Erc20RoundTrips.HolderCanRedeem` | x/erc20/keeper/mint.go:16-66 | in every backed state, so in every reachable one, a holder of the converted form can convert back: tokens of the module through their contract, coins of an external contract through their denomination |
| `Erc20RoundTrips.EscrowCoversToken` | x/erc20/keeper/msg_server.go:195-287 | escrow covers each single token's supply |
| `Erc20RoundTrips.SecondRegistrationHidesFirst` | x/erc20/keeper/proposals.go:35-65 | an admissible run registers a coin, converts it and registers it again; the first pair is then hidden, its tokens convert to coins, and those coins do not convert back |
| `Erc20RoundTrips.ForeignCoinIsNotCovered` | x/erc20/keeper/msg_server.go:108-133 | on a backed chain, for every coin that reads as a registered contract, one message mints tokens with nothing of their coin in escrow |
| `Erc20RoundTrips.SomeNameReadsAsContract` | x/erc20/keeper/token_pairs.go:30-36 | forty hexadecimal digits read as a contract |
| `FeeSplitRegistry.DerivationIsUnique` | x/feesplit/keeper/msg_server.go:69-84 | two accounts outside the image of creation never derive the same contract |
| `FeeSplitRegistry.DeliverLaw` | x/feesplit/keeper/msg_server.go:94-108 | each message keeps the key sets exact and the owners genuine |
| `FeeSplitRegistry.DeliverEffect` | x/feesplit/keeper/msg_server.go:18-261 | exactly when each message is accepted, and the fee splits after it |
| `FeeSplitRegistry.OnlyDeployerChanges` | x/feesplit/keeper/msg_server.go:154-159 | a registered fee split is changed or removed only by an update or a cancellation of its stored deployer |
| `FeeSplitRegistry.OnlyDeployerChangesOverRun` | x/feesplit/keeper/msg_server.go:133-261 | the same over every run |
| `FeeSplitRegistry.RunLaw` | x/feesplit/keeper/fee_splits.go:65-122 | in every reachable state the key sets are those derivable from the primary map |
| `FeeSplitRegistry.DeployerNeverChanges` | x/feesplit/keeper/msg_server.go:86-97 | across cancelling and registering again a contract's deployer never differs |
| `FeeSplitRegistry.RegistrationSeesTwentyBytes` | x/feesplit/keeper/msg_server.go:38-69 | accounts with the same last twenty bytes register alike, and a run of register, cancel and register again replaces the stored deployer by another |
| `FeeSplitRegistry.DeployerScanExact` | x/feesplit/keeper/grpc_query.go:128-137 | the prefix scan is the full scan if and only if no stored account strictly extends the one asked for, and no shorter one makes it up with the head of its contract while the tail, filled with zeros, is not among the results |
| `FeeSplitRegistry.PollutesIsReadOff` | x/feesplit/keeper/grpc_query.go:128-137 | that condition on bytes is when a key below the prefix yields a contract not indexed under it |
| `FeeSplitRegistry.WithdrawerScanExact` | x/feesplit/keeper/grpc_query.go:174-184 | the same for withdrawers |
| `FeeSplitRegistry.LongerWithdrawerShowsUp` | x/feesplit/keeper/msg_server.go:93-107 | a registration whose withdrawer strictly extends an account shows up in that account's query |
| `FeeSplitRegistry.ScansExactForTwentyBytes` | x/feesplit/keeper/grpc_query.go:174-184 | both scans are exact for twenty-byte accounts |
| `FeeSplitKeeper.Keeper.DeriveContract` | x/feesplit/keeper/msg_server.go:69-84 | the loop folds the derivation and charges for each nonce |
| `FeeSplitKeeper.Keeper.RegisterFeeSplit` | x/feesplit/keeper/msg_server.go:18-128 | all guards and the three stores of a registration |
| `FeeSplitKeeper.Keeper.UpdateFeeSplit` | x/feesplit/keeper/msg_server.go:133-203 | guards and index changes of an update |
| `FeeSplitKeeper.Keeper.CancelFeeSplit` | x/feesplit/keeper/msg_server.go:206-261 | guards and deletions of a cancellation |
| `FeeSplitKeeper.ScanPrefix` | x/feesplit/keeper/grpc_query.go:128-137 | the collecting loop returns the contracts below the prefix |
| `Wire.SovIsLength` | x/feesplit/types/feesplit.pb.go:190-192 | the bit-length formula is the length of the varint |
| `Wire.ReadVarintReadsBack` | x/feesplit/types/feesplit.pb.go:202-215 | the decoding loop reads back every 64-bit varint |
| `Wire.SkipFrom` | x/feesplit/types/feesplit.pb.go:342-419 | a successful skip is positive and a non-negative int64 |
| `WireFields.SkipField` | x/feesplit/types/feesplit.pb.go:342-419 | skipping consumes exactly one well-formed field, however deeply its groups nest |
| `WireTruncation.SkipCut` | x/feesplit/types/feesplit.pb.go:342-419 | a well-formed field cut short, however deep inside its groups, is not skipped |
| `WireTruncation.TagRefused` | x/feesplit/types/feesplit.pb.go:216-223 | exactly which tags are refused |
| `WireTruncation.SpanRefused` | x/feesplit/types/feesplit.pb.go:229-255 | exactly which lengths are refused |
| `WireLoops.DecodeVarintLoop` | x/feesplit/types/feesplit.pb.go:202-215 | the shift loop with its overflow and end-of-buffer exits |
| `WireLoops.Skip` | x/feesplit/types/feesplit.pb.go:342-419 | the skipping loop with its group depth |
| `WireLoops.EncodeVarintBackward` | x/feesplit/types/feesplit.pb.go:158-168 | writes the varint just before the offset and nothing else |
| `FeeSplitCodec.Size` | x/feesplit/types/feesplit.pb.go:169-188 | the precomputed size is the length of the encoding |
| `FeeSplitCodec.MarshalToSizedBuffer` | x/feesplit/types/feesplit.pb.go:129-156 | back-to-front writing fills exactly the last `Size` bytes, without gap or overlap |
| `FeeSplitCodec.Unmarshal` | x/feesplit/types/feesplit.pb.go:196-341 | the decoder terminates on every byte sequence and is the decoding function |
| `FeeSplitCodec.DecodeIsMeaning` | x/feesplit/types/feesplit.pb.go:196-341 | any sequence of own and unknown fields decodes to what it says: the last field wins |
| `FeeSplitCodec.RoundTrip` | x/feesplit/types/feesplit.pb.go:114-341 | encoding then decoding returns the original |
| `FeeSplitCodec.UnknownFieldsAreIgnored` | x/feesplit/types/feesplit.pb.go:321-334 | unknown fields anywhere, nested groups included, do not change what is decoded |
| `FeeSplitCodec.TruncationIsDetected` | x/feesplit/types/feesplit.pb.go:196-341 | a message cut short inside its last field, own or unknown, is refused |
| `FeeSplitCodec.MalformedIsRefused` | x/feesplit/types/feesplit.pb.go:224-334 | a bad tag, length, wire type or unknown field is refused |
| `ClaimsRecordCodec.Size` | x/claims/types/claims.pb.go:470-482 | the precomputed size is the length of the encoding |
| `ClaimsRecordCodec.MarshalToSizedBuffer` | x/claims/types/claims.pb.go:393-422 | the amount and the packed bits, written back to front |
| `ClaimsRecordCodec.Unmarshal` | x/claims/types/claims.pb.go:799-952 | the decoder with packed and single booleans and an amount whose text can be refused is the decoding function |
| `ClaimsRecordCodec.DecodeIsMeaning` | x/claims/types/claims.pb.go:799-952 | any sequence of amounts, packed or single booleans and unknown fields decodes to what it says, or fails at the first amount refused |
| `ClaimsRecordCodec.RoundTrip` | x/claims/types/claims.pb.go:393-434 | encoding then decoding returns the original, for every integer encoding that reads its own text back |
| `ClaimsRecordCodec.TruncationIsDetected` | x/claims/types/claims.pb.go:799-952 | a record cut short inside its last field is refused |
| `ClaimsRecordCodec.MalformedIsRefused` | x/claims/types/claims.pb.go:827-944 | a bad tag, length, number, wire type or unknown field is refused |
| `Epochs.Keeper.BeginBlocker` | x/epochs/keeper/abci.go:14-64 | every series ticks once and its hooks are appended in order, whatever the iteration order |
| `Epochs.TickEffect` | x/epochs/keeper/abci.go:20-60 | when a block starts the count, ends an epoch or does nothing, and the number, start time, start height and hooks it leaves |
| `Epochs.StartHeightIsOfLastChange` | x/epochs/keeper/abci.go:30-48 | over every run the start height is that of the last block that changed the counter |
| `Epochs.TickClosedForm` | x/epochs/keeper/abci.go:20-48 | a block takes epoch n to min(n + 1, ideal epoch) and keeps the start on the grid |
| `Epochs.EpochStartsInThePast` | x/epochs/keeper/abci.go:14-64 | after every run with non-decreasing block times a started epoch began at S + (n - 1) · D, not after the last block |
| `Epochs.LagNeverGrows` | x/epochs/keeper/abci.go:23-24 | a block at most one duration after the last does not raise the lag |
| `Epochs.LagNeverGrowsOverRun` | x/epochs/keeper/abci.go:14-64 | over every run with blocks at most one duration apart the lag stays at or below where it started |
| `Epochs.CatchUp` | x/epochs/keeper/abci.go:23-48 | after a halt k blocks gain k epochs or reach the ideal, never passing it |
| `Epochs.RunOnGrid` | x/epochs/keeper/abci.go:14-64 | every run with non-decreasing block times stays on the grid |
| `Epochs.HooksAreTrace` | x/epochs/keeper/abci.go:28-60 | from an unstarted series the hooks fired are the complete trace, without gap or repeat |

## Left out

- App wiring, command line, gRPC gateways, events, telemetry, logging, pagination: no property of their own.
- Inflation, recovery, vesting, incentives and the ante handlers: other modules.
- The other generated messages: same shapes as the two modelled.
- Changes of the claims parameters other than switching claims off; accounts that a transfer creates.
- Denominations other than the claims denomination in the claims ledger.
- 256-bit limits of `sdk.Int` and the bit limits of `sdk.Dec`, which panic; claims amounts are natural numbers.
- 64-bit wrap-around of the epoch counter.
- The text form of the claims amount inside a stored record: how a number is written and read is a parameter.
- Token contracts whose EVM traffic misreports its transfers, calls that reach into other contracts, and redeployment at
  the address of a registered contract.
- Fee split genesis.
- Erc20Runs.RunGood: leaves out coins that read as a contract, and answers by which an external contract takes more from
  the module than it releases, because the property is false of both (`ForeignCoinIsNotCovered`,
  `GreedyAnswerIsAccepted`); `ConvertCoinBackedIff` gives the exact condition.
- Erc20Runs.StepGood: the same.
