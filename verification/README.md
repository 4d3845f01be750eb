# VTT chain: a verified model

A Dafny model of the parts of the VTT layer-1 chain that move value or decide what the chain is:
the constant-product exchange with its 256-bit arithmetic, liquidity mining, redemption, revenue,
staking and producer rewards, on-chain governance, block import with fork choice and finality,
the Merkle roots and the state trie, the transaction pool, validator election and the cross-chain
mailboxes. `dafny verify dfyconfig.toml` checks all of it.

Code that updates state in place is a class here (`StateDB`, `Blockchain`, `TransactionPool`, ...)
whose methods are proved equal to a function on the value of that state; the promises are then
lemmas about that function and about every run of it. Pure code is functions and lemmas. Machine
integers are written out: `u128` is a bounded type, and plain `+`, `-`, `*` wrap as they do in a
release build, while `Amount` arithmetic aborts (`Panicked`).

## How the modules hang together

- `Primitives`, `Nonlinear`, `MapSums`, `Ascent`, `Accounts`: integers, division, sums over maps, sorted
  sets, balances.
- `Wide`, `PoolMath`, `DexTypes`, `DexModel`, `DexState`: the exchange's arithmetic and operations.
- `DexLedger`, `DexSafety`, `DexTheorems`, `DexPayouts`: what every run of the exchange keeps.
- `Mining`, `MiningSolvency`: the reward accumulator and why it can always pay.
- `Redemption`, `Revenue`, `Staking`, `StakingState`, `Rewards`: value flows of the executor.
- `Governance`, `GovernanceState`, `GovernanceRuns`, `GovernanceTheorems`: proposals to effects.
- `Chain`, `ChainTheorems`, `ChainFinality`, `ChainSlots`, `ChainRestarts`: headers, heads, the finalized
  block, who may produce what, and restarts.
- `Finality`, `Election`: the vote counter, validators and their slots.
- `Merkle`, `StateTrie`: roots.
- `TxPool`, `TxPoolState`, `TxPoolTheorems`, `TxSelection`: the mempool.
- `Messaging`: outbox and inbox.

## Where the code and its promises part

Each of these is a lemma with the failing case, next to one that says exactly when the promise holds
or what comes out instead.

- `sqrt_u256` returns 0 once the high word reaches (2^64-1)^2 (`Wide.SqrtU256`).
- The fee split hands out more than came in unless protocol fee <= fee <= amount; pools are always
  created with 30 and 5 basis points, where it is exact (`PoolMath.FeeSplitExactIff`).
- Custody of the exchange rests on the pool account never being a sender
  (`DexPayouts.PoolAccountGains`, exactly when: `DexPayouts.DepositKeepsCustodyIff`); senders are
  derived from public keys.
- An `update_to_epoch` to an earlier epoch winds the clock back and accrues epochs twice
  (`Mining.BackwardUpdateAccruesTwice`), so that more is paid than those epochs' rewards
  (`MiningSolvency.BackAndForthOverpays`, exactly when: `MiningSolvency.PayoutsWithinIff`). Epochs
  before the start already pay the first phase's reward (`MiningSolvency.BudgetKeptIff`).
- A redemption claim is refused when holding times pool needs more than 128 bits
  (`Redemption.ClaimAcceptedIff`), and `mul_div` underpays in its last branch
  (`Revenue.MulDivExactIff`).
- A slash beyond the self-stake breaks `total_stake`: delegators are stranded
  (`Staking.DelegatorsCanLeaveIff`) and payouts exceed the reward (`Rewards.OverSlashOverpays`, exactly
  when: `Rewards.SlashedPaysExactlyIff`, for any books `Rewards.PayoutExactIff`). A commission over 100%,
  which genesis does not refuse, breaks the split (`Rewards.SplitExactIff`). The saturating product cuts the shares of large stakes
  (`Rewards.LargeStakesCut`, exactly when: `Rewards.ShareExactIff`). The 80/20 and 70/30 splits lose a
  unit unless the division is even (`Rewards.PercentSplitIff`).
- The pass threshold is 50.01%, not "50% + 1" (`GovernanceTheorems.SlimMajorityFails`). The counting
  products wrap (`GovernanceTheorems.QuorumWrapsOutOfRange`): the counts are right for all tallies up to
  a bound exactly when 10000 times the bound fits 128 bits (`GovernanceTheorems.QuorumRightIff`,
  `GovernanceTheorems.ThresholdRightIff`). The cap meant to keep late stake from voting is on each
  ballot, not on the tally (`GovernanceTheorems.LateStakeCounts`, exactly when:
  `GovernanceTheorems.TallyWithinIff`).
- A head that switches branches writes only its own height, so `canonical` stops being the head's
  branch until a restart (`ChainTheorems.ImportLinksIff`, `ChainRestarts.RestartKeeps`). The finality
  guard compares heights only, so a branch stored beside a finalized block can still become the head
  (`ChainRestarts.SwitchLeavesFinalized`); no run of imports does so exactly when everything stored at or
  above that height descended from the finalized block when it was finalized
  (`ChainFinality.FinalityHoldsIff`).
- A block refused for its header has already ended the epoch if it claims a later one: only a wrong
  state root puts the validators back (`ChainSlots.RefusedEndsEpoch`, exactly when:
  `ChainSlots.RefusedKeepsIff`).
- The downtime counter never counts: consecutive heights have consecutive slots
  (`ChainRestarts.NoSlotEverMissed`). Epoch and slot, the key under which double signing is looked for, tell
  heights apart exactly for epochs of at most 2^32 blocks (`ChainSlots.KeyIsHeightIff`).
- The finality tracker does not ask who votes (`Finality.OutsiderCompletesQuorum`, exactly when that is
  harmless: `Finality.FinalMeansValidatorsIff`) and takes the height from the vote that completes the
  quorum (`Finality.HeightsMix`, in every run: `Finality.NamedByCompletingVote`).
- A root does not bind the number of leaves (`Merkle.PairCollidesWithItsHash`, exactly when it does:
  `Merkle.RootBindsListsIff`). A trie hashes entries and inner nodes alike, so that every larger trie has
  the root of a smaller one (`StateTrie.InnerNodeAsEntry`, exactly when roots tell tries apart:
  `StateTrie.TrieRootBindsIff`, as they do if no joined entry is 64 bytes long:
  `StateTrie.OtherLengthsTellApart`). Nor does it bind where a key ends and its value begins
  (`StateTrie.BoundaryInvisible`, exactly when: `StateTrie.RootBindsEntries`).
- A refused pool add may already have evicted someone else's transaction
  (`TxPoolTheorems.RefusedAddEvicts`, exactly when: `TxPoolTheorems.RefusalKeepsIff`); with a
  per-account cap of zero it leaves an empty queue (`TxPoolTheorems.NoRoomLeavesEmptyQueue`, exactly
  when: `TxPoolTheorems.AdmissionKeeps`); and selection keeps a sender's nonce order exactly when its
  prices never rise (`TxSelection.SelectionMeans`).

## Model

| member | source | states |
|---|---|---|
| Wide.MulU128 | crates/vtt-dex/src/math.rs:19-36 | The two-word product of two 128-bit numbers is exact, though its middle sum relies on wrapping |
| Wide.DivStep | crates/vtt-dex/src/math.rs:56-62 | One bit of long division keeps 2*rem+bit = carried*d + next with next < d, the shifted-out bit included |
| Wide.HighRemainder | crates/vtt-dex/src/math.rs:54-62 | The pass over the high word brings its remainder down unchanged |
| Wide.LongDivide | crates/vtt-dex/src/math.rs:64-75 | The bit loop yields the floor quotient of the 256-bit dividend |
| Wide.DivU128 | crates/vtt-dex/src/math.rs:39-76 | Exact floor quotient; fails exactly for divisor zero or a quotient over 128 bits |
| Wide.SqrtU128 | crates/vtt-dex/src/math.rs:80-95 | Newton's loop ends and returns the floor root, for every 128-bit input |
| Wide.StartFitsIff | crates/vtt-dex/src/math.rs:105-107 | The 256-bit start value fits exactly when the high word is below (2^64-1)^2 |
| Wide.SqrtU256 | crates/vtt-dex/src/math.rs:100-122 | Returns the exact floor root when the high word is below (2^64-1)^2, and zero otherwise |
| Wide.FloorSqrtUnique | crates/vtt-dex/src/math.rs:80-95 | The floor root is unique, so the loop's bounds pin its result |
| PoolMath.GetAmountOut | crates/vtt-dex/src/math.rs:132-151 | The quote is the floor of reserveOut*net/(reserveIn+net), with every error case |
| PoolMath.QuoteKeepsProduct | crates/vtt-dex/src/math.rs:132-151 | A quote is below the reserve and never lowers the product of the reserves |
| PoolMath.FeeSplitExactIff | crates/vtt-dex/src/math.rs:156-179 | Net, provider and protocol parts add up to the input exactly when protocol fee <= fee <= input, and never to less |
| PoolMath.FeeSplitExact | crates/vtt-dex/src/math.rs:156-179 | With the constants every pool is created with, the split is exact |
| PoolMath.MintIsProportional | crates/vtt-dex/src/liquidity.rs:113-116 | Minted shares grow the supply no faster than the reserve |
| PoolMath.BurnIsProportional | crates/vtt-dex/src/liquidity.rs:161-165 | A burn takes out at most the burned fraction of a reserve |
| PoolMath.MintThenBurn | crates/vtt-dex/src/liquidity.rs:100-136 | Fresh shares can take back at most what was paid for them |
| DexState.StateDB.TransferAsset | crates/vtt-state/src/statedb.rs:509-548 | Moves available units between holders exactly as the specification, every refusal included |
| DexState.StateDB.TransferIn | crates/vtt-dex/src/liquidity.rs:219-236 | Native and asset deposits reach the pool account as specified |
| DexState.StateDB.TransferOut | crates/vtt-dex/src/liquidity.rs:238-254 | Native and asset payouts leave the pool account as specified |
| DexState.StateDB.Credit | crates/vtt-dex/src/liquidity.rs:298-308 | Mints shares to a holder, aborting when they no longer fit |
| DexState.StateDB.Debit | crates/vtt-dex/src/liquidity.rs:310-322 | Burns a holder's shares or refuses |
| DexState.StateDB.CreatePool | crates/vtt-dex/src/liquidity.rs:12-79 | Creates a pool in place exactly as the specification of the whole operation |
| DexState.StateDB.AddLiquidity | crates/vtt-dex/src/liquidity.rs:82-140 | Deposits in place exactly as the specification |
| DexState.StateDB.RemoveLiquidity | crates/vtt-dex/src/liquidity.rs:143-196 | Withdraws in place exactly as the specification |
| DexState.StateDB.ExecuteSwap | crates/vtt-dex/src/swap.rs:10-84 | Swaps in place exactly as the specification, in both directions |
| DexState.StateDB.ClaimProtocolFees | crates/vtt-dex/src/revenue.rs:21-54 | Pays out and zeroes the protocol fees exactly as the specification |
| DexState.StateDB.ExecuteTransaction | crates/vtt-executor/src/lib.rs:236-271 | A failed operation leaves the state as before it |
| DexLedger.TransferInMoves | crates/vtt-dex/src/liquidity.rs:219-236 | A deposit shifts exactly its amount, for every token, between holders and pool account |
| DexLedger.TransferOutMoves | crates/vtt-dex/src/liquidity.rs:238-254 | A payout shifts exactly its amount back |
| DexSafety.CreateStep | crates/vtt-dex/src/liquidity.rs:12-79 | Creating a pool keeps custody of every token, share books and the worth of every other pool's share |
| DexSafety.AddStep | crates/vtt-dex/src/liquidity.rs:82-140 | Adding liquidity keeps custody, books and collateral, and lowers no share's worth |
| DexSafety.RemoveStep | crates/vtt-dex/src/liquidity.rs:143-196 | Removing liquidity keeps custody, books and collateral, and lowers no share's worth |
| DexSafety.SwapStep | crates/vtt-dex/src/swap.rs:10-84 | A swap keeps custody, books and collateral, and lowers no share's worth |
| DexSafety.ClaimStep | crates/vtt-dex/src/revenue.rs:21-54 | Claiming fees keeps custody, books, collateral and worth |
| DexTheorems.RunGood | crates/vtt-dex/src/liquidity.rs:12-196 | Over every run: reserves positive, reserveA*reserveB >= supply^2, supply = holdings + burned minimum, custody of every token constant, worth of a share never falling |
| DexTheorems.EmptyExchangeGood | crates/vtt-dex/src/liquidity.rs:12-79 | Every ledger without pools whose supplies fit is a start for these runs |
| DexTheorems.NoFreeProfit | crates/vtt-dex/src/swap.rs:37-81 | No sequence of swaps by anyone lowers one reserve without raising the other |
| DexTheorems.SwapsKeepSupply | crates/vtt-dex/src/swap.rs:37-81 | Swaps never change a pool's share supply |
| DexTheorems.SwapThereAndBack | crates/vtt-dex/src/swap.rs:37-79 | There and back returns at most the first input less its protocol fee |
| DexTheorems.AddThenRemove | crates/vtt-dex/src/liquidity.rs:100-192 | Adding and removing the minted shares returns at most the deposit on each side |
| DexPayouts.RunNeverPanics | crates/vtt-dex/src/liquidity.rs:219-322 | After any run no further operation overflows an Amount |
| DexPayouts.SharesRedeemable | crates/vtt-dex/src/liquidity.rs:143-196 | In every reachable state a holder can withdraw its shares |
| DexPayouts.PoolAccountGains | crates/vtt-dex/src/liquidity.rs:219-236 | Were the pool account the depositor of an asset, its custody would change |
| DexPayouts.DepositKeepsCustodyIff | crates/vtt-dex/src/liquidity.rs:82-140 | A deposit keeps custody of every token exactly when the sender is not the pool account |
| Mining.MiningState.RewardAtEpoch | crates/vtt-dex/src/mining.rs:47-57 | The walk over the phases finds the reward of the phase an epoch lies in |
| Mining.MiningState.UpdateToEpoch | crates/vtt-dex/src/mining.rs:60-78 | The epoch loop adds each passed epoch's reward per share |
| Mining.MiningState.PendingRewards | crates/vtt-dex/src/mining.rs:81-90 | Reports earned less debt plus unclaimed, with its saturation and wrap |
| Mining.MiningState.Claim | crates/vtt-dex/src/mining.rs:93-111 | Pays what is pending, settles the debt and records the payout |
| Mining.JumpEqualsSteps | crates/vtt-dex/src/mining.rs:60-78 | Updating in one jump equals updating in steps |
| Mining.DeltaZeroIff | crates/vtt-dex/src/mining.rs:60-78 | An epoch adds nothing exactly when its reward is below one unit per share, or too large for the quotient to fit |
| Mining.AccruedSameIff | crates/vtt-dex/src/mining.rs:60-78 | An update changes nothing exactly when the accumulator is full or no epoch passed adds anything |
| Mining.BackwardUpdateAccruesTwice | crates/vtt-dex/src/mining.rs:60-78 | Going back and forward again accrues the epochs between a second time; it is harmless exactly when the accumulator is full or none of them adds anything |
| MiningSolvency.PayoutsCovered | crates/vtt-dex/src/mining.rs:47-112 | With fixed positions within the supply, any interleaving of updates, in any direction, and claims pays at most what was accrued |
| MiningSolvency.AccruedIs | crates/vtt-dex/src/mining.rs:60-78 | What was accrued is the rewards of the epochs passed and once more those passed again, in every run |
| MiningSolvency.PayoutsWithinIff | crates/vtt-dex/src/mining.rs:47-112 | For all holdings payouts stay within the rewards of the epochs passed exactly when no update passes an epoch with a reward a second time, and then within the phases' budget |
| MiningSolvency.SoleHolderPaid | crates/vtt-dex/src/mining.rs:60-111 | A sole holder of PRECISION shares can be paid all that was accrued, epochs passed twice included |
| MiningSolvency.BackAndForthOverpays | crates/vtt-dex/src/mining.rs:60-111 | An update back and forth pays 200 for one epoch of 100 |
| MiningSolvency.PlayKeeps | crates/vtt-dex/src/mining.rs:47-112 | Every run keeps each user's debt and payments telescoping |
| MiningSolvency.ScheduleWithinBudget | crates/vtt-dex/src/mining.rs:47-57 | The scheduled rewards never exceed the sum of duration times reward, and reach it |
| MiningSolvency.RewardsAreSchedule | crates/vtt-dex/src/mining.rs:47-57 | Rewards over a range of epochs are the schedule's, plus the first reward for each epoch before the start |
| MiningSolvency.BudgetKeptIff | crates/vtt-dex/src/mining.rs:47-78 | The budget holds for all later epochs exactly when accrual starts no earlier than the epoch ahead of the start |
| Redemption.AssetLedger.FundRedemptionPool | crates/vtt-executor/src/lib.rs:702-742 | Funds in place exactly as the specification |
| Redemption.AssetLedger.ClaimRedemption | crates/vtt-executor/src/lib.rs:748-816 | Claims in place exactly as the specification |
| Redemption.ClaimAcceptedIff | crates/vtt-executor/src/lib.rs:748-816 | Exactly when a claim is accepted; sound books never abort |
| Redemption.ClaimGood | crates/vtt-executor/src/lib.rs:748-816 | A claim pays the floored share; the last one empties the pool and closes the redemption |
| Redemption.RunGood | crates/vtt-executor/src/lib.rs:702-816 | Over every order of fundings and claims VTT is conserved, holdings equal the supply and the VTT behind a unit never falls |
| Redemption.ClaimNoWorseThanEarlier | crates/vtt-executor/src/lib.rs:748-816 | A later claim pays at least the floor of the share at any earlier ratio |
| Revenue.MulDivExactIff | crates/vtt-executor/src/lib.rs:2149-2167 | `mul_div` never exceeds the true quotient and equals it exactly when a product fits or the dropped part is under one unit, for all inputs |
| Revenue.MulDivWithinShare | crates/vtt-executor/src/lib.rs:2149-2167 | A holder of at most the supply gets at most the floored share |
| Revenue.SharesWithinTotal | crates/vtt-executor/src/lib.rs:1570-1607 | Holders of at most the supply together get at most the total |
| Revenue.Executor.PayHolders | crates/vtt-executor/src/lib.rs:1592-1607 | The loop credits each holder its share and nothing else, and succeeds when the sum fits |
| Revenue.Executor.DistributeRevenue | crates/vtt-executor/src/lib.rs:1544-1621 | VTT is conserved exactly when the shares fit; every address gets its shares, the sender the remainder |
| Revenue.OrderIrrelevant | crates/vtt-executor/src/lib.rs:1570-1607 | What anyone receives does not depend on the order holders are visited in |
| StakingState.StakingLedger.ExecuteStake | crates/vtt-executor/src/lib.rs:1136-1198 | Stakes in place exactly as the specification, every refusal included |
| StakingState.StakingLedger.ExecuteUnstake | crates/vtt-executor/src/lib.rs:1206-1268 | Unstakes in place exactly as the specification |
| StakingState.StakingLedger.SumMatured | crates/vtt-state/src/statedb.rs:2061-2095 | Adds up what is due over all addresses in any order, or aborts when it does not fit |
| StakingState.StakingLedger.ProcessUnbonding | crates/vtt-state/src/statedb.rs:2061-2095 | Releases the matured entries of every address, in some order, and reports their total, or aborts when it does not fit |
| Staking.StakeKeeps | crates/vtt-executor/src/lib.rs:1136-1198 | Staking keeps total = self + delegations with one entry per delegator, and all VTT |
| Staking.UnstakeKeeps | crates/vtt-executor/src/lib.rs:1206-1268 | Unstaking keeps the same, the VTT moving to unbonding |
| Staking.UnstakeNoPanic | crates/vtt-executor/src/lib.rs:1206-1268 | With sound books unstaking never underflows the total |
| Staking.ReleaseAllKeeps | crates/vtt-state/src/statedb.rs:2061-2095 | Releasing conserves VTT whatever order addresses are visited in |
| Staking.RunKeeps | crates/vtt-executor/src/lib.rs:1136-1268 | Over every run of stakes, unstakes and releases the books stay sound and VTT in balances, stake and unbonding is constant |
| Staking.SlashKeepsSoundIff | crates/vtt-state/src/statedb.rs:1287-1368 | A slash keeps a validator's books sound exactly when its self-stake covers it or nothing is delegated |
| Staking.AllLeaveIff | crates/vtt-executor/src/lib.rs:1206-1268 | All delegators can take their stake out one after the other exactly when the total covers their entries |
| Staking.DelegatorsCanLeaveIff | crates/vtt-state/src/statedb.rs:1287-1368 | After a slash they can exactly when the self-stake covered it or nothing is delegated; otherwise one underflows the total |
| Staking.ReleaseNoPanic | crates/vtt-state/src/statedb.rs:2061-2095 | With all VTT within an Amount a release never aborts |
| Rewards.SplitExactIff | crates/vtt-consensus/src/rewards.rs:73-80 | For every commission, the parts add up to the reward exactly when the wrapped product is below 10000*(reward+1), and otherwise exceed it by 2^128 |
| Rewards.SplitExact | crates/vtt-consensus/src/rewards.rs:73-80 | Up to 100% the parts always add up, even where the product wraps |
| Rewards.PercentSplitIff | crates/vtt-consensus/src/rewards.rs:42-50 | Splitting by complementary percentages never exceeds the whole and equals it exactly when the division is even and nothing wraps |
| Rewards.SharesFit | crates/vtt-executor/src/lib.rs:2922-2946 | Where the entries are within the total the floored, saturating shares fit in the stakers' pool |
| Rewards.SharesFitIff | crates/vtt-executor/src/lib.rs:2922-2946 | Where the products fit, the shares fit in every pool exactly when the entries are within the total |
| Rewards.RewardLedger.DistributeToStakers | crates/vtt-executor/src/lib.rs:2916-2952 | The share loop and the dust run in place exactly as the specification |
| Rewards.RewardLedger.DistributeProducerReward | crates/vtt-executor/src/lib.rs:2896-2953 | The whole payout runs in place exactly as the specification |
| Rewards.RewardPaid | crates/vtt-executor/src/lib.rs:2896-2953 | What the payout adds to the supply, and to each address: delegators their floored shares, the validator all the rest |
| Rewards.PayoutExactIff | crates/vtt-executor/src/lib.rs:2896-2953 | Every reward is paid exactly, dust included, when the commission is below 100% and the entries are within the total, and where the products fit only then |
| Rewards.FullCommission | crates/vtt-executor/src/lib.rs:2896-2953 | At 100% every reward whose product fits is paid exactly |
| Rewards.SlashedPaysExactlyIff | crates/vtt-executor/src/lib.rs:2896-2953 | After a slash of sound books every reward is paid exactly when the self-stake covered it, nothing is delegated or nothing is left, and only then |
| Rewards.ShareExactIff | crates/vtt-executor/src/lib.rs:2922-2946 | A delegator's share is the floored fraction exactly when its product fits 128 bits, or is below the next multiple of the total |
| Rewards.LargeStakesCut | crates/vtt-executor/src/lib.rs:2922-2946 | With a million of two million tokens staked a delegator gets under a thousandth of a one-token reward |
| Rewards.OverSlashOverpays | crates/vtt-executor/src/lib.rs:2922-2946 | By how much a payout of the size of the remaining stake exceeds the reward after a slash past the self-stake, without commission |
| GovernanceState.GovernanceBook.SumStakes | crates/vtt-executor/src/lib.rs:2038-2042 | The stake snapshot is the sum over all accounts in any order, or an abort |
| GovernanceState.GovernanceBook.SubmitProposal | crates/vtt-executor/src/lib.rs:2024-2066 | Proposes in place exactly as the specification |
| GovernanceState.GovernanceBook.Vote | crates/vtt-executor/src/lib.rs:2077-2137 | Votes in place exactly as the specification, every refusal included |
| GovernanceState.GovernanceBook.FinalizeProposals | crates/vtt-executor/src/lib.rs:2220-2296 | Every ended proposal is queued or rejected by its tally; the rest is untouched |
| GovernanceState.GovernanceBook.ExecuteQueued | crates/vtt-executor/src/lib.rs:2299-2404 | Exactly the due proposals take effect, in ascending order of their ids, and are marked |
| GovernanceState.GovernanceBook.SettleBlock | crates/vtt-executor/src/lib.rs:2976-2985 | Finalization comes before execution |
| GovernanceRuns.RunKeeps | crates/vtt-executor/src/lib.rs:2038-2404 | In every run proposals have a nonzero stake snapshot, distinct voters, a tally of at most voters times snapshot and a used id |
| GovernanceTheorems.CountedOnce | crates/vtt-executor/src/lib.rs:2077-2137 | In every run a tally is the sum of the accepted ballots; nobody votes twice; every ballot came before the end and within the snapshot |
| GovernanceTheorems.TallyWithinIff | crates/vtt-executor/src/lib.rs:2077-2137 | In every run a tally is within the stake there was at creation exactly when at most one voted or the voters' stakes, each at its vote, add up to no more |
| GovernanceTheorems.LateStakeCounts | crates/vtt-executor/src/lib.rs:2109-2126 | Stake added after creation votes too, and doubles the tally past the snapshot |
| GovernanceTheorems.DecidedIsFinal | crates/vtt-executor/src/lib.rs:2253-2259 | A rejected or executed proposal never changes again |
| GovernanceTheorems.ExecutedMeansEarned | crates/vtt-executor/src/lib.rs:2220-2404 | A queued proposal was queued by a settlement after its voting that found quorum and threshold in its final tally; an executed one was executed by a settlement at least the delay later |
| GovernanceTheorems.EffectsAreHistory | crates/vtt-executor/src/lib.rs:2330-2404 | Executed proposals took effect exactly once, nothing else did, and the state is the result of those actions in order |
| GovernanceTheorems.MoneyConserved | crates/vtt-executor/src/lib.rs:2338-2348 | Treasury spending creates and destroys nothing, over every run |
| GovernanceTheorems.CountingMeans | crates/vtt-consensus/src/governance.rs:115-136 | Without wrap-around quorum is 33% of the snapshot, and the threshold is 4999*yes >= 5001*no, a strict majority |
| GovernanceTheorems.InRangeByVoters | crates/vtt-consensus/src/governance.rs:108-136 | Few enough voters times stake rule wrap-around out |
| GovernanceTheorems.SlimMajorityFails | crates/vtt-consensus/src/governance.rs:129-136 | 5000 yes to 4999 no does not pass |
| GovernanceTheorems.QuorumWrapsOutOfRange | crates/vtt-consensus/src/governance.rs:115-126 | Out of range one vote can meet the quorum |
| GovernanceTheorems.QuorumRightIff | crates/vtt-consensus/src/governance.rs:115-126 | Quorum is counted right for all tallies up to a bound, the snapshot or more, exactly when 10000 times the bound is below 2^128 (5 and 3 times that for one and two units of stake) |
| GovernanceTheorems.ThresholdRightIff | crates/vtt-consensus/src/governance.rs:129-136 | The same for the pass threshold and all tallies up to a bound |
| GovernanceTheorems.ExecutedMeansCarried | crates/vtt-executor/src/lib.rs:2038-2404 | An executed proposal had its counted quorum and threshold from distinct voters in time, was executed no earlier than voting end plus delay, and in range had more yes than no and a 33% quorum |
| Chain.Blockchain.InitGenesis | crates/vtt-chain/src/lib.rs:300-363 | Starts the chain with the validators its state elects, or recognises its genesis, exactly as the specification |
| Chain.Blockchain.ImportBlock | crates/vtt-chain/src/lib.rs:389-727 | Refuses for the first reason that applies, or stores the header and moves the head, exactly as the specification, the active validators included |
| Chain.Blockchain.WinsForkChoice | crates/vtt-chain/src/lib.rs:736-751 | Higher wins, and at equal height the lower hash |
| Chain.Blockchain.SetFinalizedBlock | crates/vtt-chain/src/lib.rs:767-772 | The mark only rises |
| Chain.Blockchain.SetCheckpoint | crates/vtt-chain/src/lib.rs:756-758 | Installs the checkpoint and changes nothing else |
| Chain.Blockchain.ResumeFromStorage | crates/vtt-chain/src/lib.rs:142-238 | The walk back from the stored head ends and holds exactly the headers reached without a gap, each numbered by its height; validators are elected for the head's epoch |
| Chain.LoadedIsBranch | crates/vtt-chain/src/lib.rs:142-182 | Where every header has its parent that is the whole branch of the stored head, numbered 0 to head |
| Chain.ChainedDescends | crates/vtt-chain/src/lib.rs:157-182 | What imports have stored can always be walked |
| ChainTheorems.RunKeeps | crates/vtt-chain/src/lib.rs:389-727 | In every run headers link to stored parents, the head is ahead of every stored header and the numbering is dense up to it |
| ChainTheorems.ReachesGenesis | crates/vtt-chain/src/lib.rs:400-447 | Every stored header reaches the one genesis in `number` parent steps with strictly rising timestamps |
| ChainTheorems.OrderIrrelevant | crates/vtt-chain/src/lib.rs:736-751 | Nodes with the same headers have the same head, whatever the order of imports |
| ChainTheorems.FinalizedStays | crates/vtt-chain/src/lib.rs:410-418 | In every run numbered blocks at or below the finalized height, or below the head, never change |
| ChainTheorems.ImportLinksIff | crates/vtt-chain/src/lib.rs:705-719 | An import keeps the numbering on the head's branch exactly when the head stays or moves to a child of the block numbered just below |
| ChainTheorems.WrongCheckpointHalts | crates/vtt-chain/src/lib.rs:420-436 | A node whose numbering contradicts its checkpoint never moves its head again |
| ChainFinality.FinalityHolds | crates/vtt-chain/src/lib.rs:410-418 | If all stored headers at or above a finalized height descend from its block, no run of imports and checkpoints moves the head off it |
| ChainFinality.FinalityHoldsIff | crates/vtt-chain/src/lib.rs:410-436 | Every run of imports keeps the head on the finalized block's branch exactly when all stored headers at or above its height descend from it, or, where a contradicted checkpoint holds the head, the head does |
| ChainFinality.Overtakes | crates/vtt-chain/src/lib.rs:400-418 | Any stored branch at or above the finalized height can be extended until it is the head |
| ChainFinality.ElectsAnew | crates/vtt-chain/src/lib.rs:488-550 | A refused block of a later epoch makes the chain elect, and changes nothing else |
| ChainFinality.ImportKeepsFinalizedIff | crates/vtt-chain/src/lib.rs:410-418 | One import keeps the head on the finalized block's branch exactly when the head stays or the new parent is on it |
| ChainSlots.RunScheduled | crates/vtt-chain/src/lib.rs:488-550 | In every run each stored header gives the epoch and slot of its height, none is later than the active set, and those of its epoch were each produced by the leader of their slot |
| ChainSlots.StartScheduled | crates/vtt-genesis/src/lib.rs:324-344 | A chain of the genesis block alone is a start for these runs |
| ChainSlots.FairBranch | crates/vtt-consensus/src/engine.rs:119-180 | In any stretch of the current epoch, on every stored branch, each validator has produced as many blocks as its seat has had turns |
| ChainSlots.KeyIsHeightIff | crates/vtt-consensus/src/engine.rs:164-188 | Epoch and slot tell heights apart exactly for epochs of at most 2^32 blocks |
| ChainSlots.NoSlotMissed | crates/vtt-chain/src/lib.rs:593-612 | Among headers labelled with their own epoch and slot none leaves a slot between its parent's and its own |
| ChainRestarts.LabelsOutliveRestarts | crates/vtt-chain/src/lib.rs:112-550 | Through every run with restarts every header ever stored gives the epoch and slot of its height |
| ChainRestarts.NoSlotEverMissed | crates/vtt-chain/src/lib.rs:593-612 | In every run with restarts from genesis no stored block leaves a slot out, so the missed-slot counter never grows |
| ChainSlots.RefusedKeepsIff | crates/vtt-chain/src/lib.rs:472-550 | A refused import leaves the chain as it was, except exactly when its header is wrong and of a later epoch, which is then the active one |
| ChainSlots.RefusedEndsEpoch | crates/vtt-chain/src/lib.rs:488-550 | A refused block that claims epoch 2 leaves a chain of genesis alone there |
| ChainSlots.SetChangesLater | crates/vtt-chain/src/lib.rs:488-550 | Blocks up to the active epoch are checked against the active set, which changes only for a later one |
| ChainRestarts.ResumedIsLinked | crates/vtt-chain/src/lib.rs:142-238 | A restart from a store that holds at least what memory did yields a sound chain with the same head numbered along its branch |
| ChainRestarts.RestartKeeps | crates/vtt-chain/src/lib.rs:112-238 | In a run a restart keeps head and finalized mark, forgets the checkpoint, and leaves the numbering unchanged exactly when it was the head's branch |
| ChainRestarts.NodeRunKeeps | crates/vtt-chain/src/lib.rs:112-727 | Through every run of imports, finalizations, checkpoints and restarts memory stays sound and within the store, the head is the best header ever stored, and neither its height nor the finalized mark falls |
| ChainRestarts.NodeStarts | crates/vtt-chain/src/lib.rs:319-363 | A node that has stored its genesis block is a start for these runs |
| ChainRestarts.NodesAgree | crates/vtt-chain/src/lib.rs:736-751 | Nodes that have ever stored the same headers have the same head, whatever restarts lie between |
| ChainRestarts.ResumedIsRooted | crates/vtt-chain/src/lib.rs:142-238 | After a restart all headers held are on the head's branch, so that finality holds from then on |
| ChainRestarts.FinalityOutlivesRestarts | crates/vtt-chain/src/lib.rs:112-727 | Finality, once it holds, holds through restarts |
| ChainRestarts.SwitchLeavesFinalized | crates/vtt-chain/src/lib.rs:405-418 | A branch from below the finalized height is accepted, becomes head, and after a restart replaces the finalized block |
| Finality.FinalityTracker.SubmitVote | crates/vtt-consensus/src/finality.rs:54-77 | Counts a vote and finalizes in place exactly as the specification |
| Finality.FinalityTracker.Cleanup | crates/vtt-consensus/src/finality.rs:80-93 | Drops exactly the hashes at or below the finalized height |
| Finality.FinalityTracker.SetValidatorCount | crates/vtt-consensus/src/finality.rs:41-43 | Changes the count and nothing else |
| Finality.FinalizedIsHighestQuorum | crates/vtt-consensus/src/finality.rs:46-93 | The finalized height is that of the highest block with a quorum of the submitted votes, whatever their order |
| Finality.QuorumsIntersect | crates/vtt-consensus/src/finality.rs:46-51 | Two quorums of the same validators share more than a third of them |
| Finality.FinalizedShareThird | crates/vtt-consensus/src/finality.rs:46-93 | What two nodes finalized has more than a third of the validators voting for both, so a conflict needs that many double voters |
| Finality.StepRises | crates/vtt-consensus/src/finality.rs:54-93 | The finalized height rises exactly at finality, to that vote's block, and every tracked hash stays above it |
| Finality.OutsiderCompletesQuorum | crates/vtt-consensus/src/finality.rs:54-77 | With enough voters, one of them no validator, a block is finalized without a quorum of validators |
| Finality.FinalMeansValidatorsIff | crates/vtt-consensus/src/finality.rs:46-93 | A finalized block has a quorum of validators behind it in every run exactly when only validators vote or too few addresses do |
| Finality.HeightsMix | crates/vtt-consensus/src/finality.rs:60-70 | For every number of validators, votes for different heights of one hash count together, towards the completing one's |
| Finality.NamedByCompletingVote | crates/vtt-consensus/src/finality.rs:54-93 | In every run block and height are those of the vote that completed its quorum |
| Election.ElectValidators | crates/vtt-consensus/src/engine.rs:78-116 | Whatever the order of accounts, the best eligible by stake and then address, at most the number of seats |
| Election.ElectionUnique | crates/vtt-consensus/src/engine.rs:78-116 | That list is unique |
| Election.PlaceInEpoch | crates/vtt-consensus/src/engine.rs:57-72 | The i-th block of an epoch belongs to it and has slot i, as far as 32 bits go |
| Election.ElectedDistinct | crates/vtt-consensus/src/engine.rs:78-116 | Nobody is elected twice |
| Election.FairTurns | crates/vtt-consensus/src/validator.rs:45-51 | In an epoch every validator leads the same number of slots up to one, earlier seats first; past 2^32 slots the order starts over |
| Merkle.HashLevel | crates/vtt-crypto/src/hash.rs:24-36 | The inner loop builds the next level |
| Merkle.MerkleRoot | crates/vtt-crypto/src/hash.rs:12-41 | The level loop ends with the root of the recursive tree, zero for no leaves |
| Merkle.LevelKeepsRoot | crates/vtt-crypto/src/hash.rs:22-38 | Moving up a level, with the odd node promoted, keeps the recursive root |
| Merkle.SplitIsLargestPowerOfTwo | crates/vtt-crypto/src/hash.rs:12-41 | That tree splits at the largest power of two below its size, the shape of section 2.1 of RFC 6962 |
| Merkle.RootBindsLeaves | crates/vtt-crypto/src/hash.rs:12-41 | If no two of the pairs hashed for them collide, lists of one length have one root exactly when they are equal |
| Merkle.SameRootFindsInner | crates/vtt-crypto/src/hash.rs:12-41 | Different lists with one root show a leaf that is an inner node over others of their leaves |
| Merkle.RootBindsListsIff | crates/vtt-crypto/src/hash.rs:12-41 | Among lists of up to n leaves from a set, for any n, roots tell lists apart exactly when no leaf of the set is the root of two or more |
| Merkle.PairCollidesWithItsHash | crates/vtt-crypto/src/hash.rs:12-41 | A pair and its hash share a root |
| StateTrie.Trie.Insert | crates/vtt-state/src/trie.rs:42-46 | Sets one key and marks the cached root stale |
| StateTrie.Trie.Remove | crates/vtt-state/src/trie.rs:49-56 | Removes one key and returns its value |
| StateTrie.Trie.ComputeRoot | crates/vtt-state/src/trie.rs:93-112 | Hashes the entries in key order and takes the Merkle root |
| StateTrie.Trie.Root | crates/vtt-state/src/trie.rs:80-91 | Cached or not, the reported root equals a fresh recomputation |
| StateTrie.RootDependsOnContents | crates/vtt-state/src/trie.rs:80-112 | Equal contents give equal roots, whatever the order of writes |
| StateTrie.RootBindsJoinedBytes | crates/vtt-state/src/trie.rs:93-112 | If no two of the strings hashed for them collide, tries of one size have one root exactly when their entries' joined bytes agree |
| StateTrie.RootBindsEntries | crates/vtt-state/src/trie.rs:93-112 | With key lengths agreeing, exactly when their entries agree |
| StateTrie.InnerNodeAsEntry | crates/vtt-state/src/trie.rs:93-156 | Entries and inner nodes are hashed alike, so every trie of two or more entries has the root of a trie of one |
| StateTrie.TrieRootBindsIff | crates/vtt-state/src/trie.rs:93-156 | Tries of any sizes, the empty one included, with joined entries from a set of strings are told apart, up to the boundary of key and value, exactly when none of the strings is the two halves of such a trie |
| StateTrie.OtherLengthsTellApart | crates/vtt-state/src/trie.rs:93-156 | So they are if no joined entry is 64 bytes long |
| StateTrie.BoundaryInvisible | crates/vtt-state/src/trie.rs:93-112 | Moving a byte between key and value does not change the root |
| TxPoolState.TransactionPool.AddTransaction | crates/vtt-txpool/src/lib.rs:105-213 | Admits, replaces, evicts or refuses in place exactly as the specification, for any choice among equally cheap |
| TxPoolState.TransactionPool.CheapestTx | crates/vtt-txpool/src/lib.rs:216-221 | Finds a cheapest pending transaction |
| TxPoolState.TransactionPool.CheapestOfSender | crates/vtt-txpool/src/lib.rs:176-179 | Finds a sender's cheapest, lowest nonce among ties |
| TxPoolState.TransactionPool.Remove | crates/vtt-txpool/src/lib.rs:224-237 | Removes from both indexes, drops an emptied queue, keeps the hash known |
| TxPoolState.TransactionPool.RemoveCommitted | crates/vtt-txpool/src/lib.rs:241-258 | Clears exactly the sender's transactions up to the nonce, in both indexes |
| TxPoolState.TransactionPool.EvictExpired | crates/vtt-txpool/src/lib.rs:303-320 | Clears exactly the expired transactions, in both indexes, and counts them |
| TxPoolState.TransactionPool.SelectTransactions | crates/vtt-txpool/src/lib.rs:273-299 | Returns the head of the price-sorted runs of all senders |
| TxPoolTheorems.AdmissionKeeps | crates/vtt-txpool/src/lib.rs:105-213 | For all caps admission keeps the indexes inverse and both caps; only strictly cheaper transactions go; accepted means inserted; no queue is left empty exactly when there is room per account or the newcomer did not get that far |
| TxPoolTheorems.ReplacementSucceeds | crates/vtt-txpool/src/lib.rs:134-153 | An outbid transaction is replaced, and nothing else moves, whatever the caps |
| TxPoolTheorems.RefusalKeepsIff | crates/vtt-txpool/src/lib.rs:155-191 | A refused add changes nothing exactly when a check or its bid failed, the pool had no room for its price, or there was a free place and some room per account |
| TxPoolTheorems.RefusedAddEvicts | crates/vtt-txpool/src/lib.rs:155-191 | In that case another sender's transaction is gone |
| TxPoolTheorems.RefusedAddEvictsExample | crates/vtt-txpool/src/lib.rs:155-191 | A full pool of two in which this happens |
| TxPoolTheorems.NoRoomLeavesEmptyQueue | crates/vtt-txpool/src/lib.rs:174-191 | With a per-account cap of zero an empty queue is left behind |
| TxPoolTheorems.RunKeeps | crates/vtt-txpool/src/lib.rs:105-320 | Every run keeps the indexes exact inverses, hashes known and both caps, whatever these are, and no queue empty if there is room per account |
| TxPoolTheorems.NeverReadmitted | crates/vtt-txpool/src/lib.rs:224-320 | A committed, expired or removed transaction never becomes pending again |
| TxPoolTheorems.QueuesDetermined | crates/vtt-txpool/src/lib.rs:62-70 | The hash index determines the sender index |
| TxSelection.RunIsGapFree | crates/vtt-txpool/src/lib.rs:281-293 | A sender's run is gap-free from its account nonce, empty if anything older is queued, and as long as can be |
| TxSelection.StableBySender | crates/vtt-txpool/src/lib.rs:295-298 | The price sort keeps each sender's part as if sorted alone |
| TxSelection.SelectionMeans | crates/vtt-txpool/src/lib.rs:273-299 | Selection is the best paid first; each sender's part is a prefix of its run at every cut exactly when its prices never rise |
| Messaging.MessageInbox.Receive | crates/vtt-multichain/src/messaging.rs:239-262 | Accepts or refuses in place exactly as the specification |
| Messaging.MessageInbox.NextPending | crates/vtt-multichain/src/messaging.rs:265-267 | Takes the oldest pending message |
| Messaging.RunKept | crates/vtt-multichain/src/messaging.rs:227-267 | Over every run the window holds exactly the last accepted ids, an id returns only after a full window of others, and messages leave first in first out within the cap |
| Messaging.AcceptedIff | crates/vtt-multichain/src/messaging.rs:239-262 | A message is accepted exactly when there is room and its id is not in the window |
| Messaging.MessageOutbox.Send | crates/vtt-multichain/src/messaging.rs:133-154 | Numbers messages consecutively and refuses the own chain |
| Messaging.MessageOutbox.Drain | crates/vtt-multichain/src/messaging.rs:166-168 | Everything sent leaves once, in order |

## Left out

- Hashes and signatures: BLAKE3 is a function parameter, collision-free where a lemma says so. Elected validators carry no public key, so import never reaches its signature check, which is left out.
- Persistence: storage writes are assumed to succeed, RocksDB and Borsh are not modelled, and the stored headers are a map.
- WASM contracts, KYC and jurisdiction rules, oracles, the bridge, RPC, networking and the node's main loop.
- Chain.Blockchain.ImportBlock: what the transactions hash to, whom the state elects and the root it leads to are inputs; transaction execution, epoch slashing and double-sign evidence are not modelled, so nothing is said about the world state after a refused block.
- Chain.Blockchain.ResumeFromStorage: not for a store in which parents run in a circle, which hashes rule out; the index and migration work of a restart is left out.
- Block numbers, nonces, epochs and timestamps are unbounded naturals; 64-bit overflow of these is not modelled.
- Gas, receipts, logs and transaction indexes.
- Governance parameter parsing: a parameter change other than the treasury address, a chain registration and an upgrade signal are recorded as `Signal`.
- Governance without persistent storage, where the proposal counter stays at zero.
- A proposal without a stake snapshot while nothing is staked, whose tally the code does not add up; no run creates one (`GovernanceRuns.RunKeeps`).
- Slashing of unbonding entries, and the amount a slash is computed from.
- Epoch inflation (`calculate_epoch_reward`): one expression without a law.
- Validator counts that change between votes: runs of the finality tracker have a fixed count.
- GovernanceTheorems.CountingMeans: for tallies whose products do not wrap; `GovernanceTheorems.QuorumRightIff` and `GovernanceTheorems.ThresholdRightIff` say how far that reaches.
- GovernanceState.GovernanceBook.SubmitProposal: proposal kinds without an effect in the model are one kind, `Signal`.
- GovernanceState.GovernanceBook.ExecuteQueued: of the parameter changes only that of the treasury address has an effect.
- DexState.StateDB.ExecuteTransaction: the gas charged and the nonce used up, which a failed operation keeps, are not modelled.
- ChainFinality.FinalityHoldsIff: between two finalizations; each new mark needs its condition afresh.
- DexPayouts.DepositKeepsCustodyIff: not for a pool that trades its own share token, whose name is a hash over the pair's.
- Rewards.PayoutExactIff: exact where the products fit 128 bits; beyond that shares are cut (`Rewards.ShareExactIff`), and only that entries within the total suffice is stated.
- ChainSlots.RunScheduled: between restarts; a restart elects from the state at the head, which may differ from the set that began the epoch.
- Finality.FinalizedIsHighestQuorum: for votes that give each block one height; `Finality.NamedByCompletingVote` is what holds without that.
- Finality.FinalizedShareThird: for votes by validators; `Finality.FinalMeansValidatorsIff` says what others can do.
- StateTrie.RootBindsJoinedBytes: for tries of one size; `StateTrie.TrieRootBindsIff` has the others.
- Messaging.MessageOutbox.Drain: the Merkle root over pending messages is `Merkle.MerkleRoot`, not repeated.
