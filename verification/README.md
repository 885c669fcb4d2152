# Verified models of the Soroban Guard contracts

This project models the contracts of the repository whose behaviour cannot be read off one
branch, and proves what their documentation and tests promise of them over all inputs and
all runs.

## How the models are built

- Each contract is a `class` with one method per entry point. Its fields are the storage
  entries, as maps, sequences and sets; an entry that was never written reads as its
  default, as in the code.
- `Host.dfy` holds what all contracts take from their host. The workspace builds with
  overflow checks on (`Cargo.toml:114`), so arithmetic outside the integer width panics.
  A panic undoes every write of its call. Each method returns whether it committed, and its
  contract (`Settles`) ties the new state to `Step`, the specification of one call: the
  specified state, or the old one.
- Whole runs are sequences of calls folded over `Step`, accepted or not, in any order and
  by anyone. The ledger number is a parameter of a call and never decreases where a
  result depends on time.
- `Step` is itself pinned down: for the entry points of each contract, theorems named
  `...Exactly` say in plain arithmetic, mostly by the history of the run, which calls are
  accepted and what they change.
- `require_auth` is taken as given for the caller named. The outcome of a token transfer is
  a parameter.
- Hashing and address encoding are uninterpreted functions of the environment
  (`Bytes.Env`). Results that rest on the hash assume no collision among the byte strings
  that the tree, the proofs or the calls at hand actually feed to it, a finite set; the
  contrapositive exhibits the colliding pair. Addresses are assumed to be encoded
  injectively, and for the airdrop never in 48 bytes, which keeps leaf preimages (address
  plus 16 bytes) apart from pairs (64 bytes).
- Rust's `/` truncates; `TruncDiv` does too. Swaps and liquidations of negative amounts have
  the mirrored bounds. Mints of the DAO and amounts of a batch carry no sign check; what
  does not depend on the sign is proved for all of them, and what does has its exact
  condition.

## Where the code and its documentation differ

- The bridge message names a destination chain, but `mint` never compares it with the chain
  it runs on. What binds a message is the bridge address, and exactly that
  (`BridgeMessage.DestinationChainUnchecked`, `BridgeMessage.TwinDeploymentsBothMint`).
- Validator lists may repeat a key. Legality counts repetitions and approval does not, so a
  legal configuration may be impossible to rotate (`ValidatorQuorum.RotationPossible`).
- `initialize` of the borrowing and of the vesting contract has no guard. Exactly what a
  further call breaks is in `BorrowAccrual.LockedStep` and `Vesting.BooksBalanceExactly`.
- A price update that breaches the threshold is documented to pause the market. It writes
  the flag and then panics, which undoes the write (`CircuitBreaker.BreachNeverPauses`,
  `CircuitBreaker.BreachLeavesMarketOpen`).
- The DAO documents a quorum of a tenth of the supply. The threshold is rounded down
  (`Dao.QuorumShortfall`, `Dao.ShortfallQueued`). Vote weight is documented as a snapshot;
  only the threshold is, and `Dao.BallotWeight` says when a ballot weighs the balance at
  creation all the same. Mints can be negative, and then a tally can exceed the supply
  (`Dao.NegativeMintBreaksTally`); `Dao.BoundedThroughoutExactly` says which runs keep it
  within, and `Dao.CoveredExactly` which mints keep every ballot covered.
- Registry metadata is documented as open to any scanner with a scan of the contract; the
  code asks for the last one (`ScanRegistry.MetadataNeedsLastEntry`,
  `ScanRegistry.OvertakenScannerRefused`).
- A batch is marked complete whatever was skipped (`BatchExecutor.CountTellsCompleteness`,
  `BatchExecutor.SkippedBatchComplete`).

## Model

| member | source | states |
|---|---|---|
| `MerkleAirdrop.VerifyMerkleProof` | secure/secure_airdrop/src/lib.rs:46-58 | The loop over the proof accepts exactly when folding the siblings from the leaf hash gives the root |
| `MerkleAirdrop.AcceptedIsLeaf` | secure/secure_airdrop/src/lib.rs:26-58 | For a finite set of hashed byte strings without collision that contains those of the tree and of the proof, an accepted proof of any length names a leaf of the tree |
| `MerkleAirdrop.SoundOrCollision` | secure/secure_airdrop/src/lib.rs:26-58 | An accepted proof names a leaf, or two different byte strings hashed by the tree or the proof have the same hash |
| `MerkleAirdrop.LeafIsNotPair` | secure/secure_airdrop/src/lib.rs:26-44 | Leaf and pair preimages never coincide, because no encoded address has 48 bytes |
| `MerkleAirdrop.PairPreimageMember` | secure/secure_airdrop/src/lib.rs:33-44 | Equal pair preimages have a common first node whatever order the nodes were sorted into |
| `MerkleAirdrop.PairSorted` | secure/secure_airdrop/src/lib.rs:33-44 | A pair preimage is its two nodes, and the first of them is the smaller one at the first byte in which they differ |
| `MerkleAirdrop.LeafLayout` | secure/secure_airdrop/src/lib.rs:26-31 | A leaf preimage is the encoded address followed by the sixteen bytes of the amount in two's complement |
| `MerkleAirdrop.SiblingPathAccepted` | secure/secure_airdrop/src/lib.rs:46-58 | The sibling path of every leaf, left or right at each level, is accepted |
| `MerkleAirdrop.RearrangedSameRoot` | secure/secure_airdrop/src/lib.rs:33-44 | Swapping the children of any nodes leaves the root unchanged |
| `MerkleAirdrop.SecureAirdrop.Initialize` | secure/secure_airdrop/src/lib.rs:77-87 | Stores admin, root and token once; panics when an admin is stored |
| `MerkleAirdrop.SecureAirdrop.Claim` | secure/secure_airdrop/src/lib.rs:107-124 | Marks and pays exactly when unclaimed, initialised, proved and accepted by the token; otherwise every write is undone |
| `MerkleAirdrop.ClaimAcceptedExactly` | secure/secure_airdrop/src/lib.rs:46-124 | In every reachable state a claim is accepted if and only if the contract is initialised, no claim of the claimant was accepted before, the proof folds to the root of the first initialisation and the token transfers; exactly the accepted claims were paid |
| `MerkleAirdrop.InitializedOnce` | secure/secure_airdrop/src/lib.rs:77-87 | Only the first initialisation is accepted, and its admin, root and token stay stored |
| `MerkleAirdrop.RunPaysLeaves` | secure/secure_airdrop/src/lib.rs:77-124 | Every run keeps the root, pays distinct claimants only, and pays leaves only |
| `MerkleAirdrop.DistinctPaymentsBounded` | secure/secure_airdrop/src/lib.rs:107-124 | Payments to distinct claimants that each match a leaf total at most the leaves |
| `MerkleAirdrop.PayoutBound` | secure/secure_airdrop/src/lib.rs:77-124 | From deployment, after the first initialisation with the root of a tree of non-negative leaves, any further calls pay each claimant at most once and at most the sum of the leaves |
| `MerkleAirdrop.UnpaidLeafCanClaim` | secure/secure_airdrop/src/lib.rs:107-124 | A claimant of a leaf who was not paid has a proof with which the claim is accepted |
| `Bytes.BigEndianRoundTrip` | vulnerable/bridge_chainid_missing/src/secure.rs:33-41 | Decoding a fixed-width big-endian field gives back the encoded number |
| `Bytes.BigEndianDigits` | vulnerable/bridge_chainid_missing/src/secure.rs:33-41 | Byte i of n is the digit of weight 256^(n-1-i): the most significant byte comes first |
| `Bytes.Int128BytesInjective` | vulnerable/bridge_chainid_missing/src/secure.rs:40 | Sixteen-byte two's-complement encoding is injective over all i128, negative values included |
| `Bytes.LexLeTotalAntisymmetric` | secure/secure_airdrop/src/lib.rs:36 | The byte order used to sort a pair is total and antisymmetric |
| `Bytes.LexLeFirstDifference` | secure/secure_airdrop/src/lib.rs:36 | Byte strings of one length compare at the first byte in which they differ |
| `BridgeMessage.BuildPayload` | vulnerable/bridge_chainid_missing/src/secure.rs:22-43 | Appending field by field gives head, encoded bridge address and fixed-width tail in that order |
| `BridgeMessage.PayloadInjective` | vulnerable/bridge_chainid_missing/src/secure.rs:22-43 | Two messages with the same payload bytes are equal, although the address in the middle has variable length |
| `BridgeMessage.PayloadLayout` | vulnerable/bridge_chainid_missing/src/secure.rs:32-42 | Where the payload holds each field, and that decoding each range gives the field back |
| `BridgeMessage.SecureBridge.Mint` | vulnerable/bridge_chainid_missing/src/secure.rs:49-93 | Consumes the nonce and credits the recipient exactly when the nonce is new, the signature matches this bridge's payload and the sum fits; otherwise nothing changes |
| `BridgeMessage.MintAcceptedExactly` | vulnerable/bridge_chainid_missing/src/secure.rs:49-93 | In every state reachable from deployment a mint is accepted if and only if its nonce is in no accepted call, it carries the hash of its message under this address, and the recipient's minted total with it fits |
| `BridgeMessage.SignatureBindsMessage` | vulnerable/bridge_chainid_missing/src/secure.rs:68-79 | A signature made for a message is accepted exactly for that message at the bridge it names, unless the two payloads at hand collide |
| `BridgeMessage.SharedSignatureIsCollision` | vulnerable/bridge_chainid_missing/src/secure.rs:7-43 | One signature accepted for two different calls or deployments exhibits two different payloads with the same hash |
| `BridgeMessage.DestinationChainUnchecked` | vulnerable/bridge_chainid_missing/src/secure.rs:47-79 | A call accepted by one deployment verifies at another exactly when both have the same address, whatever chains they run on and whatever destination it names, unless the two payloads at hand collide |
| `BridgeMessage.TwinDeploymentsBothMint` | vulnerable/bridge_chainid_missing/src/secure.rs:47-87 | Two deployments under one address on different chains both mint on the same signed message, though it names one of the chains |
| `BridgeMessage.RunMintsOncePerNonce` | vulnerable/bridge_chainid_missing/src/secure.rs:59-83 | Over any run no nonce is accepted twice and every accepted call carries the hash of a payload naming this bridge |
| `BridgeMessage.RunCreditsWhatWasMinted` | vulnerable/bridge_chainid_missing/src/secure.rs:85-87 | Over any run each recipient's balance grows by exactly the accepted amounts for it |
| `BridgeMessage.DeploymentsShareNoSignature` | vulnerable/bridge_chainid_missing/src/secure.rs:47-93 | Runs of two deployments under different addresses never accept the same signature, unless two accepted payloads collide |
| `ValidatorQuorum.ConcatenatedInjective` | vulnerable/bridge_validator_quorum_missing/src/secure.rs:48-53 | Concatenated 32-byte keys determine the list of keys |
| `ValidatorQuorum.UpdatePayloadInjective` | vulnerable/bridge_validator_quorum_missing/src/secure.rs:48-53 | Two proposed configurations with the same payload are the same |
| `ValidatorQuorum.PayloadLayout` | vulnerable/bridge_validator_quorum_missing/src/secure.rs:48-53 | The i-th key is at byte 32 * i and the threshold is in the last four bytes |
| `ValidatorQuorum.BuildUpdatePayload` | vulnerable/bridge_validator_quorum_missing/src/secure.rs:48-53 | The loop builds the keys in order followed by the threshold |
| `ValidatorQuorum.CountApprovals` | vulnerable/bridge_validator_quorum_missing/src/secure.rs:55-93 | The nested loops count exactly the distinct current validators with at least one valid signature |
| `ValidatorQuorum.SecureBridge.Initialize` | vulnerable/bridge_validator_quorum_missing/src/secure.rs:9-22 | Installs a first configuration exactly when none is stored and 1 <= threshold <= number of keys |
| `ValidatorQuorum.SecureBridge.UpdateValidators` | vulnerable/bridge_validator_quorum_missing/src/secure.rs:26-110 | Replaces the configuration exactly when the lists match in length, the new threshold is legal and the distinct approvals reach the threshold in force |
| `ValidatorQuorum.AcceptedExactly` | vulnerable/bridge_validator_quorum_missing/src/secure.rs:9-110 | A rotation is accepted if and only if 1 <= threshold <= number of keys, the lists match in length and some set of as many distinct current validators as the threshold in force asks for signed the payload; an initialisation, if and only if it is legal and the first. Each puts exactly what it asks for in force |
| `ValidatorQuorum.RunRotatesByQuorum` | vulnerable/bridge_validator_quorum_missing/src/secure.rs:9-110 | In every run each configuration is legal, and the i-th one after the first was installed by the i-th accepted rotation of that run, which carried valid signatures of at least the threshold of distinct members of the set it replaced |
| `ValidatorQuorum.RotationsAreCalls` | vulnerable/bridge_validator_quorum_missing/src/secure.rs:26-110 | The accepted rotations are calls of the run |
| `ValidatorQuorum.RotationPossible` | vulnerable/bridge_validator_quorum_missing/src/secure.rs:26-110 | Some signatures can rotate a legal configuration if and only if its threshold is at most its number of distinct keys |
| `ValidatorQuorum.RepeatedKeyLocksOut` | vulnerable/bridge_validator_quorum_missing/src/secure.rs:9-22 | The initialiser accepts one key listed twice with threshold two, which no signatures can ever rotate |
| `MedianOracle.SiftDown` | vulnerable/even_median_bias/src/secure.rs:16-25 | The inner loop moves one feed into place among the sorted ones before it and keeps the multiset |
| `MedianOracle.Median` | vulnerable/even_median_bias/src/secure.rs:11-29 | Panics exactly on an even (or zero) number of feeds; otherwise sorts in place and returns the middle, which has fewer than half of the feeds on either side |
| `MedianOracle.MiddleOfAscending` | vulnerable/even_median_bias/src/secure.rs:27-28 | The middle of an ascending odd-length list is its median in the counting sense |
| `MedianOracle.CountPermutation` | vulnerable/even_median_bias/src/secure.rs:16-25 | Reordering changes no count of feeds below or above a value |
| `MedianOracle.MedianUnique` | vulnerable/even_median_bias/src/secure.rs:11-29 | An odd number of feeds has exactly one median whatever their order |
| `MedianOracle.MedianMonotone` | vulnerable/even_median_bias/src/secure.rs:11-29 | Raising feeds never lowers the median |
| `MedianOracle.MedianRobust` | vulnerable/even_median_bias/src/secure.rs:1-29 | Among 2k+1 feeds, whatever any k of them say, the median lies between two of the others |
| `MedianOracle.MajorityDecides` | vulnerable/even_median_bias/src/secure.rs:1-29 | The bound k is tight: k+1 equal feeds among 2k+1 determine the median |
| `BorrowAccrual.SecureBorrow.AccrueBorrower` | vulnerable/borrow_without_accrual/src/lib.rs:51-66 | Stores the position with rounded-down interest since the last accrual, or panics on overflow |
| `BorrowAccrual.SecureBorrow.Initialize` | vulnerable/borrow_without_accrual/src/secure.rs:18-27 | Overwrites the borrower's position when 0 < amount <= limit |
| `BorrowAccrual.SecureBorrow.Borrow` | vulnerable/borrow_without_accrual/src/secure.rs:30-40 | Accrues, then adds the amount when the limit holds; otherwise the accrual is undone too |
| `BorrowAccrual.ProjectionIsAccrual` | vulnerable/borrow_without_accrual/src/lib.rs:108-120 | The read-only projection equals what accruing now would store, overflow included |
| `BorrowAccrual.SecureBorrow.DebtAfterAccrual` | vulnerable/borrow_without_accrual/src/lib.rs:108-120 | The view computes the projected debt without writing, or panics on overflow |
| `BorrowAccrual.DebtIsOwed` | vulnerable/borrow_without_accrual/src/lib.rs:51-66 | In every run from deployment the projected debt is what a recurrence over the accepted calls says: interest runs from one of them to the next and never before the first |
| `BorrowAccrual.AcceptedExactly` | vulnerable/borrow_without_accrual/src/secure.rs:18-40 | In every state reachable from deployment a borrow is accepted if and only if it is positive and brings what is owed to at most 1000; an initialisation, if and only if 0 < amount <= 1000 |
| `BorrowAccrual.FirstBorrowCharged` | vulnerable/borrow_without_accrual/src/lib.rs:51-66 | A borrower without debt who borrows at ledger n owes amount + amount * (t - n) / 100 at t, whatever the ledger of the last accrual |
| `BorrowAccrual.DebtAtMost` | vulnerable/borrow_without_accrual/src/lib.rs:51-66 | The projected debt is at most everything lent, compounded over the spans since the first accepted call |
| `BorrowAccrual.AccrualOverflowsExactly` | vulnerable/borrow_without_accrual/src/lib.rs:62-64 | Accruing a positive debt panics if and only if debt * 100 * elapsed leaves i128 |
| `BorrowAccrual.MarketLedgerIsLast` | vulnerable/borrow_without_accrual/src/lib.rs:68-72 | The market ledger is that of the last accepted call |
| `BorrowAccrual.ChargedAtLeast` | vulnerable/borrow_without_accrual/src/lib.rs:62-64 | n rounded charges leave at least the debt of one charge over the total span, minus n-1 |
| `BorrowAccrual.SplitAccrualAtLeast` | vulnerable/borrow_without_accrual/src/lib.rs:51-66 | Accruing at n ledgers leaves at least the debt of one accrual over the whole period minus n-1 units |
| `BorrowAccrual.SplitAccrualAtMost` | vulnerable/borrow_without_accrual/src/lib.rs:51-66 | Accruing at n ledgers leaves at most the compounded product of the factors (100 + span) / 100 |
| `BorrowAccrual.AccrualNeverOverflows` | vulnerable/borrow_without_accrual/src/lib.rs:51-66 | A debt within the limit can be accrued at any ledger without overflow |
| `BorrowAccrual.RunWithinLimit` | vulnerable/borrow_without_accrual/src/secure.rs:18-40 | In every run stored debts stay between zero and the limit |
| `BorrowAccrual.DebtCoversBorrows` | vulnerable/borrow_without_accrual/src/secure.rs:30-40 | Until a borrower is initialised anew, the stored debt covers everything that borrower was lent |
| `BorrowAccrual.LockedStep` | vulnerable/borrow_without_accrual/src/secure.rs:18-40 | Once the projected debt has reached the limit it stays there unless, and only unless, the borrower is initialised below the limit; every borrow panics |
| `BorrowAccrual.LockedForever` | vulnerable/borrow_without_accrual/src/secure.rs:30-40 | As long as that borrower is not initialised below the limit, no borrow is ever accepted again and the borrower stays at the limit |
| `BorrowAccrual.SecondInitializeForgetsDebt` | vulnerable/borrow_without_accrual/src/secure.rs:18-27 | A concrete run from deployment: a borrower initialised at the limit can borrow nothing, and after a second initialisation borrows 999 |
| `OffsetVault.SecureVault.Deposit` | vulnerable/empty_vault_share_inflation/src/secure.rs:19-39 | Mints amount * (shares + 1000) / (assets + 1000) rounded down, or panics on a zero mint or overflow |
| `OffsetVault.SecureVault.Donate` | vulnerable/empty_vault_share_inflation/src/secure.rs:42-48 | Adds assets without shares |
| `OffsetVault.RunValid` | vulnerable/empty_vault_share_inflation/src/secure.rs:19-48 | In every run user shares sum to the total, shares never outnumber assets, and the offset share price never falls |
| `OffsetVault.DepositRounding` | vulnerable/empty_vault_share_inflation/src/secure.rs:23-38 | At the price after the deposit the depositor holds exactly what the payment buys, rounded down: no gain, and less than one share lost |
| `OffsetVault.DepositExactly` | vulnerable/empty_vault_share_inflation/src/secure.rs:19-39 | A deposit buys the floor of v * (shares + 1000) / (assets + 1000), is accepted if and only if that is at least one and the arithmetic fits, and changes the totals and the depositor alone |
| `OffsetVault.DonateExactly` | vulnerable/empty_vault_share_inflation/src/secure.rs:42-48 | A donation is accepted if and only if it is positive and fits, and changes the assets alone |
| `OffsetVault.ClaimsCovered` | vulnerable/empty_vault_share_inflation/src/secure.rs:19-48 | The rounded-down claims of all holders together never exceed the assets |
| `OffsetVault.RunHonestCovered` | vulnerable/empty_vault_share_inflation/src/secure.rs:19-48 | In every run assets equal deposits plus donations, and honest shares plus one per honest deposit are worth the honest payments |
| `OffsetVault.OthersBounded` | vulnerable/empty_vault_share_inflation/src/secure.rs:14-39 | For any set of honest depositors and any run, the claims of all others are bounded by their deposits and donations, less the virtual shares' price, plus one share's price per honest deposit |
| `OffsetVault.InflationDoesNotPay` | vulnerable/empty_vault_share_inflation/src/secure.rs:5-39 | With at most 1000 honest deposits, all others together claim at most what they deposited and donated plus one unit per honest deposit |
| `OffsetVault.DepositRefusedExactly` | vulnerable/empty_vault_share_inflation/src/secure.rs:19-29 | A deposit whose arithmetic fits is refused if and only if it is worth less than one share |
| `OffsetVault.BlockingCosts` | vulnerable/empty_vault_share_inflation/src/secure.rs:5-48 | Over any run, once the price is high enough to refuse a deposit of v, more than 1000 * (v - 1) of the assets can be claimed by nobody |
| `CeilingVault.SecureVault.Initialize` | vulnerable/free_share_rounding/src/secure.rs:12-19 | Seeds the totals once, with positive values |
| `CeilingVault.SecureVault.Mint` | vulnerable/free_share_rounding/src/secure.rs:22-47 | Credits the shares and charges the ceiling of their price, or undoes everything on overflow |
| `CeilingVault.CostIsLeast` | vulnerable/free_share_rounding/src/secure.rs:29-31 | The charge is at least one and is the least that does not dilute |
| `CeilingVault.MintExactly` | vulnerable/free_share_rounding/src/secure.rs:22-47 | A mint of n charges the least c with c * shares >= n * assets, counting an uninitialised pool as one and one, is accepted if and only if n is positive and the arithmetic fits, and changes the totals and the minter alone |
| `CeilingVault.InitializeExactly` | vulnerable/free_share_rounding/src/secure.rs:12-19 | Seeding is accepted once, with positive amounts, and stores the assets as assets and the shares as shares |
| `CeilingVault.MintRoundTrip` | vulnerable/free_share_rounding/src/secure.rs:29-46 | At the price after the mint the new shares are worth the charge or one unit less |
| `CeilingVault.MintsRaisePrice` | vulnerable/free_share_rounding/src/secure.rs:22-47 | Along any run the price never falls and the assets grow by at least one per accepted mint |
| `CeilingVault.SplittingNeverCheaper` | vulnerable/free_share_rounding/src/secure.rs:22-47 | Any sequence of mints costs at least one mint of their total from the same start, although each moves the price |
| `CeilingVault.RunSharesAddUp` | vulnerable/free_share_rounding/src/secure.rs:12-47 | Shares held grow by exactly the growth of the total |
| `CeilingVault.RunCreditsMinter` | vulnerable/free_share_rounding/src/secure.rs:33-40 | Every holder has exactly the shares minted to that holder |
| `CircuitBreaker.SecureMarket.Initialize` | vulnerable/inactive_circuit_breaker/src/secure.rs:17-32 | Stores admin, positive price and positive threshold once, unpaused |
| `CircuitBreaker.SecureMarket.UpdatePrice` | vulnerable/inactive_circuit_breaker/src/secure.rs:35-76 | Stores the price when the move in whole basis points is within the threshold; a breach panics and leaves nothing behind |
| `CircuitBreaker.SecureMarket.ForcePause` | vulnerable/inactive_circuit_breaker/src/secure.rs:138-149 | Admin-only pause |
| `CircuitBreaker.SecureMarket.Unpause` | vulnerable/inactive_circuit_breaker/src/secure.rs:152-163 | Admin-only unpause |
| `CircuitBreaker.SecureMarket.SwapOut` | vulnerable/inactive_circuit_breaker/src/secure.rs:79-94 | Returns the swap output, or panics when paused, without a price, or on overflow |
| `CircuitBreaker.SecureMarket.Liquidate` | vulnerable/inactive_circuit_breaker/src/secure.rs:97-112 | Returns the liquidation output, or panics in the same cases |
| `CircuitBreaker.OpenedOnce` | vulnerable/inactive_circuit_breaker/src/secure.rs:17-32 | The first initialisation with positive price and threshold opens the market as given and unpaused, and no other is accepted; before it every call and query panics |
| `CircuitBreaker.RunPrice` | vulnerable/inactive_circuit_breaker/src/secure.rs:35-76 | Over every run the price is that of the last update by the admin whose move stays below threshold + 1 basis points and fits; admin and threshold never change |
| `CircuitBreaker.PauseBlocksQueries` | vulnerable/inactive_circuit_breaker/src/secure.rs:79-163 | From initialisation on, over every run: while the admin's last explicit decision was a pause every swap and liquidation panics; otherwise each panics if and only if its product leaves i128, and is rounded toward zero at the last accepted price |
| `CircuitBreaker.AcceptedMove` | vulnerable/inactive_circuit_breaker/src/secure.rs:60-73 | An in-range update by the admin is accepted exactly when the move is strictly below threshold + 1 basis points |
| `CircuitBreaker.RunPriceCeiling` | vulnerable/inactive_circuit_breaker/src/secure.rs:35-76 | After n accepted updates price_n * 10000^n < price_0 * (10001 + m)^n |
| `CircuitBreaker.RunPriceFloor` | vulnerable/inactive_circuit_breaker/src/secure.rs:35-76 | For m < 9999, after n accepted updates price_n * 10000^n > price_0 * (9999 - m)^n |
| `CircuitBreaker.BreachNeverPauses` | vulnerable/inactive_circuit_breaker/src/secure.rs:69-73 | In every run the pause flag is what the admin's explicit pauses and unpauses leave; a breach never sets it |
| `CircuitBreaker.BreachLeavesMarketOpen` | vulnerable/inactive_circuit_breaker/src/secure.rs:35-94 | A concrete run: a hundredfold price panics and the market goes on swapping at the old one |
| `CircuitBreaker.SwapThenLiquidate` | vulnerable/inactive_circuit_breaker/src/secure.rs:79-112 | At one price, swapping and liquidating an amount of either sign never gains and loses less than 10^7 / price + 1 |
| `CircuitBreaker.LaterLiquidationBounded` | vulnerable/inactive_circuit_breaker/src/secure.rs:35-112 | Swapping an amount of either sign now and liquidating n accepted updates later grows it by at most (10000 / (9999 - m))^n |
| `ScanRegistry.ScanRegistry.Initialize` | registry/src/lib.rs:88-93 | Stores the admin once |
| `ScanRegistry.ScanRegistry.AddScanner` | registry/src/lib.rs:107-129 | Approves a scanner and counts it when it was not approved |
| `ScanRegistry.ScanRegistry.RemoveScanner` | registry/src/lib.rs:141-165 | Withdraws approval and lowers the count when it was approved |
| `ScanRegistry.ScanRegistry.SubmitScan` | registry/src/lib.rs:184-229 | Records a result of an approved scanner with a non-empty hash; otherwise nothing changes |
| `ScanRegistry.ScanRegistry.StoreResult` | registry/src/lib.rs:231-275 | Writes latest, history, index, flat list and score together |
| `ScanRegistry.ScanRegistry.DisputeScan` | registry/src/lib.rs:286-293 | Lowers a score by one, saturating |
| `ScanRegistry.ScanRegistry.SetMetadata` | registry/src/lib.rs:506-527 | Stores metadata when the latest scan is by the caller |
| `ScanRegistry.ScanRegistry.MatchSeverity` | registry/src/lib.rs:340-361 | Walking the index in key order collects the contracts whose latest scan meets both thresholds |
| `ScanRegistry.ScanRegistry.Paginate` | registry/src/lib.rs:363-378 | Cuts out one page of the matches, all of them for page size zero, with the u32 overflows of the code |
| `ScanRegistry.ScanRegistry.GetScansByMinSeverity` | registry/src/lib.rs:333-379 | The page of the matches in key order |
| `ScanRegistry.ScanRegistry.GetHistoryPage` | registry/src/lib.rs:406-432 | The slice of the history from the offset, of the limit capped at 50 |
| `ScanRegistry.ScanRegistry.GetScannedContractsPage` | registry/src/lib.rs:467-483 | The slice of the flat list, cut where the list ends |
| `ScanRegistry.ListPagesCover` | registry/src/lib.rs:467-483 | Consecutive list pages concatenate to the list; they panic exactly when the end of the last one leaves u32 |
| `ScanRegistry.HistoryPagesCover` | registry/src/lib.rs:406-432 | Consecutive history pages concatenate to the history, and some page panics or cannot be addressed exactly when the last one starts outside u32, or starts inside the history and ends outside u32 |
| `ScanRegistry.SeverityPagesCover` | registry/src/lib.rs:363-378 | For a positive page size, consecutive severity pages concatenate to the matches, with the same exact condition |
| `ScanRegistry.HistoryPageExactly` | registry/src/lib.rs:406-432 | A single history page, wherever it starts, holds element by element the next min(limit, 50) entries, and panics if and only if it starts inside the history and its end leaves u32 |
| `ScanRegistry.ListPageExactly` | registry/src/lib.rs:467-483 | A single list page element by element, and exactly when it panics |
| `ScanRegistry.SeverityPageExactly` | registry/src/lib.rs:363-378 | A single severity page element by element, all matches for size zero, and exactly when it panics |
| `ScanRegistry.RunContractReflects` | registry/src/lib.rs:231-275 | Along every run history, latest, index, list and metadata of a contract agree with the log of accepted submissions |
| `ScanRegistry.RunListReflects` | registry/src/lib.rs:258-269 | Along every run the flat list is the first-submission list of the log |
| `ScanRegistry.RunCountsScanners` | registry/src/lib.rs:107-165 | Along every run the counter is the number of approved scanners |
| `ScanRegistry.RegistryReflectsLog` | registry/src/lib.rs:107-275 | In every reachable state all stores are determined by one append-only log: latest is the last history entry, and index, list and non-empty history coincide |
| `ScanRegistry.HistoryAppendOnly` | registry/src/lib.rs:236-244 | Later calls only append to a history |
| `ScanRegistry.FirstSubmissionOrder` | registry/src/lib.rs:258-269 | The flat list has no duplicates, holds exactly the submitted contracts and is in first-submission order |
| `ScanRegistry.SeverityQueryExact` | registry/src/lib.rs:333-361 | In every reachable state the matches are, once each and in key order, exactly the contracts whose last submitted result counts at least min_critical under "critical" and at least min_high under "high", none when absent |
| `ScanRegistry.ScoreExact` | registry/src/lib.rs:270-293 | A score is entries less disputes throughout a run if and only if that number never leaves i32 |
| `ScanRegistry.ScorePlusDisputes` | registry/src/lib.rs:270-293 | While nothing saturates, score plus disputes equals the scanner's entries over all histories |
| `ScanRegistry.ApprovalIsLastDecision` | registry/src/lib.rs:107-165 | A scanner is approved exactly when the accepted decisions about it leave it so |
| `ScanRegistry.SubmissionNeedsStandingApproval` | registry/src/lib.rs:184-229 | A submission is accepted if and only if it has a hash and the last accepted decision about its scanner was an approval |
| `ScanRegistry.AdminCallsAccepted` | registry/src/lib.rs:88-165 | Only the first initialisation is accepted and fixes the admin; adding, removing and disputing are accepted if and only if there was one, adding a new scanner also needs room in the counter |
| `ScanRegistry.MetadataIsLast` | registry/src/lib.rs:506-531 | The metadata of a contract are those of the last accepted call that set them |
| `ScanRegistry.MetadataNeedsLastEntry` | registry/src/lib.rs:498-527 | Metadata is accepted exactly from the scanner of the last entry, not from every scanner with an entry as documented |
| `ScanRegistry.OvertakenScannerRefused` | registry/src/lib.rs:498-527 | A concrete run: two scanners submit for one contract and the first is then refused its metadata |
| `Vesting.ReleaseIsDue` | secure/secure_vesting/src/lib.rs:153-169 | The release v is zero before the cliff and the total from the end on; in between v * (end - cliff) <= total * (t - cliff) < (v + 1) * (end - cliff) |
| `Vesting.VestedExactly` | secure/secure_vesting/src/lib.rs:153-169 | The vested amount is what is due at the ledger, frozen at revocation, and overflows if and only if total * elapsed does |
| `Vesting.ReleaseGrows` | secure/secure_vesting/src/lib.rs:153-169 | The rounded-down release never goes back as the ledger advances |
| `Vesting.SecureVesting.Initialize` | secure/secure_vesting/src/lib.rs:27-36 | Sets the admin and zeroes the treasury, unguarded |
| `Vesting.SecureVesting.CreateSchedule` | secure/secure_vesting/src/lib.rs:38-66 | Stores a schedule once, with positive total and cliff before end |
| `Vesting.SecureVesting.Claim` | secure/secure_vesting/src/lib.rs:68-91 | Raises claimed to the vested amount and returns the difference; panics when revoked or nothing is claimable |
| `Vesting.SecureVesting.Revoke` | secure/secure_vesting/src/lib.rs:93-122 | Moves the unvested part to the treasury and freezes the schedule |
| `Vesting.SecureVesting.VestedAmount` | secure/secure_vesting/src/lib.rs:124-131 | The view returns the vested amount, or panics without a schedule or on overflow |
| `Vesting.ScheduleFollowsHistory` | secure/secure_vesting/src/lib.rs:27-122 | In every reachable state a schedule has the terms of its accepted creation, has paid what the accepted claims paid and is revoked since its accepted revocation; the admin is the last one set |
| `Vesting.ClaimAcceptedExactly` | secure/secure_vesting/src/lib.rs:68-91 | In every reachable state a claim is accepted if and only if the schedule exists, is unrevoked, the product fits and what is due exceeds what was paid; it pays the difference |
| `Vesting.RevokeAcceptedExactly` | secure/secure_vesting/src/lib.rs:93-122 | A revocation is accepted if and only if there is an admin, the schedule exists and is unrevoked and the arithmetic fits; the treasury grows by the total less what is due |
| `Vesting.CreateAcceptedExactly` | secure/secure_vesting/src/lib.rs:38-66 | A schedule is created if and only if there is an admin, total > 0, cliff < end and the beneficiary has none |
| `Vesting.RunScheduleValid` | secure/secure_vesting/src/lib.rs:68-169 | In runs with a non-decreasing ledger 0 <= claimed <= vested <= total |
| `Vesting.VestedOverTime` | secure/secure_vesting/src/lib.rs:93-169 | The vested amount never falls and is frozen after revocation; the terms never change |
| `Vesting.ClaimsSumToVested` | secure/secure_vesting/src/lib.rs:68-91 | All claims up to an accepted one, never before the cliff, have paid exactly what the linear terms make due at its ledger, however they were split |
| `Vesting.RevokedIsFinal` | secure/secure_vesting/src/lib.rs:78-80 | A revoked schedule never changes and pays nothing: vested but unclaimed amounts stay where they are |
| `Vesting.RunGap` | secure/secure_vesting/src/lib.rs:27-122 | Over any run, what is missing from the books grows by exactly the treasuries that the initialisations of the run found |
| `Vesting.BooksBalanceExactly` | secure/secure_vesting/src/lib.rs:27-122 | From deployment and for any calls, the books balance if and only if no initialisation found anything in the treasury; what is missing otherwise is exactly what they found |
| `Vesting.RunBalances` | secure/secure_vesting/src/lib.rs:38-122 | Without a further initialisation, scheduled totals equal claimed plus treasury plus outstanding |
| `Vesting.BooksBalanceFromDeployment` | secure/secure_vesting/src/lib.rs:27-122 | From deployment, after one initialisation, the books balance after any further calls without another |
| `Vesting.SecondInitializeForgetsTreasury` | secure/secure_vesting/src/lib.rs:27-36 | After a repeated initialisation the books balance if and only if the treasury was empty |
| `Vesting.TreasuryLostOnSecondInitialize` | secure/secure_vesting/src/lib.rs:27-122 | A concrete run: a revocation returns 750 units, which a second initialisation loses |
| `Dao.SecureDao.Mint` | secure/secure_dao/src/lib.rs:67-82 | Adds an amount of either sign to balance and supply, or panics on overflow |
| `Dao.SecureDao.CreateProposal` | secure/secure_dao/src/lib.rs:103-148 | Creates the next proposal with the current supply as snapshot when the proposer holds a token |
| `Dao.SecureDao.Vote` | secure/secure_dao/src/lib.rs:154-197 | Adds the current balance to the tally once per voter while the proposal is open |
| `Dao.SecureDao.Queue` | secure/secure_dao/src/lib.rs:204-250 | Queues a proposal with majority and quorum behind the timelock |
| `Dao.SecureDao.Execute` | secure/secure_dao/src/lib.rs:253-277 | Executes a queued proposal once, after the timelock |
| `Dao.MintAcceptedExactly` | secure/secure_dao/src/lib.rs:67-82 | In every reachable state a mint is accepted if and only if the account's minted total and the whole minted total fit with it |
| `Dao.CreateAcceptedExactly` | secure/secure_dao/src/lib.rs:103-148 | A proposal is created if and only if the proposer holds a token and ids are left; it takes the number of earlier ones as id, names the proposer and snapshots everything minted so far |
| `Dao.ProposalKept` | secure/secure_dao/src/lib.rs:154-277 | Proposer and snapshot of a proposal never change |
| `Dao.VoteAcceptedExactly` | secure/secure_dao/src/lib.rs:154-197 | A vote is accepted if and only if the proposal exists and is not queued, the voter has no ballot and holds a token, and the votes of that side fit |
| `Dao.QueueAcceptedExactly` | secure/secure_dao/src/lib.rs:204-250 | A proposal is queued if and only if it exists, was not queued, has more votes for than against, 10 * votes > snapshot supply - 10, and the arithmetic fits |
| `Dao.ExecuteAcceptedExactly` | secure/secure_dao/src/lib.rs:253-277 | A proposal is executed if and only if it was queued at least 1000 ledgers before and not executed |
| `Dao.RunReflects` | secure/secure_dao/src/lib.rs:103-277 | In every run, whatever the signs of its mints, a stored proposal agrees with the record of its ballots, queueing and execution |
| `Dao.StepAllCovered` | secure/secure_dao/src/lib.rs:67-82 | A call keeps every ballot covered by its voter's balance, and every balance at zero or above, if and only if it is no accepted mint that leaves its account below what the account has voted |
| `Dao.CoveredExactly` | secure/secure_dao/src/lib.rs:67-197 | Ballots stay covered throughout a run if and only if every accepted mint of the run covers |
| `Dao.NonNegativeMintsCover` | secure/secure_dao/src/lib.rs:67-82 | Non-negative mints always cover |
| `Dao.TallyIsSumOfBallots` | secure/secure_dao/src/lib.rs:67-197 | In every run each tally is the sum of the weights recorded for distinct voters, and the supply is the sum of the balances |
| `Dao.RunSupplyIsSum` | secure/secure_dao/src/lib.rs:67-82 | The supply is the sum of the balances in every run, and balances stay non-negative with non-negative mints |
| `Dao.TallyWithinSupply` | secure/secure_dao/src/lib.rs:67-197 | In every run whose mints cover, no tally exceeds the supply |
| `Dao.BoundKeptExactly` | secure/secure_dao/src/lib.rs:67-197 | A call keeps a tally within the supply if and only if an accepted mint takes no more than the supply is above the tally, an accepted ballot weighs no more than that, and the proposal is not created on a negative supply |
| `Dao.BoundedThroughoutExactly` | secure/secure_dao/src/lib.rs:67-197 | From deployment, a tally is within the supply after every call of a run if and only if every call of the run meets that condition |
| `Dao.ExecutedWasApproved` | secure/secure_dao/src/lib.rs:204-277 | Every executed proposal was queued at least 1000 ledgers earlier on the tally it still has, with a strict majority and 10 * votes > snapshot supply - 10 |
| `Dao.QuorumShortfall` | secure/secure_dao/src/lib.rs:204-250 | An accepted queueing has a tally below a tenth of the snapshot supply in exactly one case: the supply is positive and not a multiple of ten, and the tally is its rounded-down tenth |
| `Dao.ShortfallQueued` | secure/secure_dao/src/lib.rs:67-250 | A concrete run from deployment: one vote of a supply of nineteen is queued |
| `Dao.BallotWeight` | secure/secure_dao/src/lib.rs:103-197 | Every ballot accepted in a run from deployment weighs the voter's balance at the proposal's creation plus the net accepted mints to the voter since, hence the creation-time balance if and only if those cancel out |
| `Dao.LateTokensVote` | secure/secure_dao/src/lib.rs:172-197 | Tokens minted while a proposal is open vote on it with full weight |
| `Dao.NegativeMintBreaksTally` | secure/secure_dao/src/lib.rs:67-82 | A concrete run from deployment: mint, create, vote, negative mint; the tally of ten stands against a supply of zero, and the last mint does not cover |
| `FeeTransfer.SecureFeeContract.Mint` | vulnerable/fee_precision_loss/src/secure.rs:10-16 | Adds a positive amount |
| `FeeTransfer.SecureFeeContract.Transfer` | vulnerable/fee_precision_loss/src/secure.rs:19-43 | Moves the amount less the fee, re-reading the receiver after the first write, and collects the fee |
| `FeeTransfer.TransferExactly` | vulnerable/fee_precision_loss/src/secure.rs:19-43 | In every reachable state a transfer is accepted if and only if its amount is positive, covered by the sender's net flow, and the arithmetic fits; it moves the amount less max(1, amount / 100), which is collected, and nothing else |
| `FeeTransfer.MintExactly` | vulnerable/fee_precision_loss/src/secure.rs:10-16 | A mint is accepted if and only if it is positive and fits |
| `FeeTransfer.SplitPaysSingleFee` | vulnerable/fee_precision_loss/src/secure.rs:23-25 | Any split pays at least the single fee minus pieces - 1 |
| `FeeTransfer.SplitPaysHalfPercent` | vulnerable/fee_precision_loss/src/secure.rs:23-25 | Any split pays more than total / 200 |
| `FeeTransfer.RunConserves` | vulnerable/fee_precision_loss/src/secure.rs:10-43 | Balances plus fees equal the amount minted and stay non-negative, self-transfers included |
| `FeeTransfer.RunAccounts` | vulnerable/fee_precision_loss/src/secure.rs:10-43 | Every balance is what came in less what went out; a self-transfer costs exactly the fee |
| `FeeTransfer.RunCannotAvoidFees` | vulnerable/fee_precision_loss/src/secure.rs:19-43 | A run collects at least one unit a transfer, at least the fee of one transfer of the total minus transfers - 1, and more than total / 200 |
| `BatchExecutor.SecureBatchExecutor.Mint` | vulnerable/batch_partial_failure/src/secure.rs:13-17 | Adds an amount, or panics on overflow |
| `BatchExecutor.SecureBatchExecutor.ExecuteBatch` | vulnerable/batch_partial_failure/src/secure.rs:21-43 | Applies all operations or none |
| `BatchExecutor.VulnerableBatchExecutor.ExecuteBatch` | vulnerable/batch_partial_failure/src/lib.rs:69-105 | Applies the operations with sufficient balance, stores their number and marks the batch complete; only overflow panics |
| `BatchExecutor.SkippingIsAtomicOnPerformed` | vulnerable/batch_partial_failure/src/lib.rs:69-105 | Skipping leaves the balances of the atomic executor on exactly the operations not skipped |
| `BatchExecutor.AtomicIffNothingSkipped` | vulnerable/batch_partial_failure/src/lib.rs:69-105 | The atomic executor accepts a batch if and only if nothing would be skipped, and then both agree |
| `BatchExecutor.PerformedInOrder` | vulnerable/batch_partial_failure/src/lib.rs:72-96 | The performed operations are a subsequence of the batch |
| `BatchExecutor.PerformedExactly` | vulnerable/batch_partial_failure/src/lib.rs:72-96 | An operation is performed if and only if its sender holds at least the amount: the initial balance plus inflow less outflow of the operations performed before it. The batch panics if and only if one of those overflows |
| `BatchExecutor.AtomicAcceptedExactly` | vulnerable/batch_partial_failure/src/secure.rs:21-43 | The atomic executor accepts a batch if and only if every sender holds at least the amount when its turn comes and no sum leaves i128 |
| `BatchExecutor.MintExactly` | vulnerable/batch_partial_failure/src/secure.rs:12-16 | A mint is accepted if and only if the sum fits, and credits its account alone |
| `BatchExecutor.AtomicMoves` | vulnerable/batch_partial_failure/src/secure.rs:21-43 | Each balance changes by the batch's inflow minus its outflow |
| `BatchExecutor.AtomicConserves` | vulnerable/batch_partial_failure/src/secure.rs:21-43 | The total of the balances is kept |
| `BatchExecutor.SkippingBatch` | vulnerable/batch_partial_failure/src/lib.rs:69-105 | The stored count is the number performed, every balance is explained by those operations, and the total is kept |
| `BatchExecutor.CountTellsCompleteness` | vulnerable/batch_partial_failure/src/lib.rs:98-104 | The batch is marked complete in any case; the count equals the batch length if and only if the atomic executor would accept |
| `BatchExecutor.SkippedBatchComplete` | vulnerable/batch_partial_failure/src/lib.rs:69-105 | A concrete batch of one skipped operation, marked complete with a count of zero, which the atomic executor rejects |
| `BatchExecutor.NonNegativeKept` | vulnerable/batch_partial_failure/src/secure.rs:21-43 | Batches of non-negative amounts keep balances non-negative |
| `BatchExecutor.OperationKeepsNonNegative` | vulnerable/batch_partial_failure/src/secure.rs:30-41 | Amounts are not sign-checked: one operation, self-transfers included, keeps balances non-negative if and only if it is a self-transfer or the receiver can bear it |
| `BatchExecutor.AtomicNonNegativeExactly` | vulnerable/batch_partial_failure/src/secure.rs:21-43 | An accepted batch ends with non-negative balances if and only if no account loses more than it has and receives |
| `BatchExecutor.SkippingNonNegativeExactly` | vulnerable/batch_partial_failure/src/lib.rs:69-105 | The same for the skipping executor and the operations it performs |
| `BatchExecutor.NegativeTransferOverdraws` | vulnerable/batch_partial_failure/src/secure.rs:30-41 | A concrete negative transfer that both executors accept and that leaves its receiver at minus five |
| `Auction.SecureAuction.Initialize` | vulnerable/auction_refund_block/src/secure.rs:9-19 | Opens the auction once |
| `Auction.SecureAuction.SetRefundBlocked` | vulnerable/auction_refund_block/src/secure.rs:22-26 | Stores the simulated rejection flag |
| `Auction.SecureAuction.Bid` | vulnerable/auction_refund_block/src/secure.rs:31-66 | Credits the previous bidder and records a strictly higher bid |
| `Auction.SecureAuction.ClaimRefund` | vulnerable/auction_refund_block/src/secure.rs:69-78 | Pays out and zeroes the caller's refund; panics when there is none |
| `Auction.EveryBidAccountedFor` | vulnerable/auction_refund_block/src/secure.rs:31-78 | In every run each bidder's accepted bids equal refund due plus refunds claimed plus standing bid |
| `Auction.HoldingsCoverDues` | vulnerable/auction_refund_block/src/secure.rs:31-78 | All accepted bids less all refunds paid equal the refunds due plus the high bid |
| `Auction.RunValid` | vulnerable/auction_refund_block/src/secure.rs:9-78 | The high bid never falls, and there is a bidder exactly when it is positive |
| `Auction.HighBidIsLargest` | vulnerable/auction_refund_block/src/secure.rs:31-66 | Every accepted bid of a run is at most the final high bid |
| `Auction.BidAcceptedExactly` | vulnerable/auction_refund_block/src/secure.rs:28-66 | A bid is accepted exactly when it is higher and the refund sum fits, whatever the rejection flag says |
| `Auction.ReachableBidAccepted` | vulnerable/auction_refund_block/src/secure.rs:28-78 | In every reachable state a bid is accepted exactly when it is higher and what the standing bidder has bid and not claimed fits an i128 |
| `Auction.RefundClaimableExactly` | vulnerable/auction_refund_block/src/secure.rs:69-78 | In every reachable state a refund can be claimed if and only if the bidder's accepted bids exceed the refunds claimed and the standing bid |
| `Auction.EntriesFollowHistory` | vulnerable/auction_refund_block/src/secure.rs:9-66 | The high bid and bidder are those of the last accepted bid, the flag is the last one written, and initialisation is accepted if and only if neither it nor a bid was accepted before |

## Left out

- Authorisation, events, storage lifetimes, contract upgrades and cross-contract calls are host behaviour; `fund` of the airdrop is only a token transfer and is not modelled.
- SHA-256 and the XDR encoding of addresses stay uninterpreted, with the assumptions stated above.
- The deactivated-contract branch of the registry (registry/src/lib.rs:209-217), because no entry point deactivates a contract; the batch lookup of latest scans and the plain getters, because they only read one entry each.
- Host vectors in the registry have no length limit in the model; in the code a push past 2^32 - 1 elements would panic.
- The Treasury address of the vesting contract and the proposer-facing return values of the getters, because nothing depends on them.
- The deliberately faulty contracts other than the skipping batch executor, the single-guard fixtures, and the simpler siblings of the contracts modelled here.
- The TypeScript files, the tests and the scanner itself.
- Entries that are written in pairs (debt and last accrual, total assets and total shares, the four entries of the market) are kept as one value, so the model does not tell a half-written pair from an unwritten one; the contracts never leave one.
