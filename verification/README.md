# MachinePal in Dafny: exchange, payment protocol, ledger, replies, encodings

MachinePal is a gateway that answers requests for priced resources only after a payment. This project models the
parts of it that carry the hard guarantees and proves them for every input, every run and every interleaving.

**The exchange** (`VibeSwap`). An in-memory constant-product market: wallets, sorted pairs, liquidity shares,
swaps over paths of any length, an integer square root. `Market.dfy` gives each operation as a function over an
arithmetic that is either 256-bit and wrapping, as in the code, or unbounded. `VibeSwap.dfy` is the object itself,
with its maps reassigned step by step; each method is proved to do what the function of the same name does in
wrapping arithmetic. The proofs go from one quote (`Quotes`, `QuoteWidth`), one deposit, withdrawal or trade
(`Liquidity`), and one path, pairs used more than once included (`Totals`, `Trading`, `Paths`), to one call in exact
arithmetic (`Exchange`), to one call in 256-bit arithmetic (`Width`, `Swaps`) and to whole runs (`Runs`, `Promises`).
Token names are arbitrary. A lookup is *clear* when the pair stored under the key has the names that were asked for;
`Tokens` and `Totals.ClearIff` say exactly when it is not. A call is *careful* when it moves only the tokens it names (a
deposit or withdrawal that does not throw is clear, the drifts of a swap's hops cancel) and, if it is a swap that passes
its checks, its hops can be paid and the net effect of its path lowers no product. These are conditions on the state
before the call, and exactly the careful calls keep everything (`Keeping`). `Reaching` builds states by careful runs; the
counterexamples are all in states reached so.

**The payment protocol.** `PayOnce.dfy` is a step relation for any number of concurrent requests over one lock set
and one payments table; checks, facilitator calls and database writes may fail at every point, and a write that
reports failure may have happened. `PayOncePromises.dfy` has its guarantees. `PaymentManager.dfy` has the
objects behind it, with the table stored as text, and shows that an uninterrupted settlement is a run of the protocol.

**The EasyNet ledger.** A table of balance rows without a unique constraint, and a journal of transfers
(`EasyNetLedger`, `LedgerRuns`), with the database and the facilitator as objects (`EasyNet`).

**The gateway.** `Gateway.dfy` joins the protocol and the replies: a success status for a priced resource has its own
row in the payments table.

**The replies.** What one request's callbacks send, with the connection, lookups, the backend and the settlement free
to fail and the bodies printed from their text (`Bodies`, `Replies`), and the processor and the handler as objects (`X402`).

**The encodings** under the signature and the keys: hex, 256-bit numbers, the signed EIP-3009 message, EIP-55
addresses (`Hex`, `Authorization`, `EthAddress`). The hash is an arbitrary function to 32 bytes.

## Where the code and its claims part

Wherever a claim fails of the code, the project proves exactly when it holds and gives an input where it does not.

- `VibeSwap.h:59-60` says that addLiquidity reverts when a minimum is not met. Once a pair has shares the code checks
  only the side that is matched, not the side taken in full (`MinimumsMetIff`, `MinimumIgnored`).
- A swap quotes every hop on the reserves at the start. On a path that uses a pair twice it can throw with the
  trader's tokens taken and hops applied (`ThrowsMidwayIff`, `HalfASwap`); what is destroyed then is the amount in flight
  at the first hop that cannot be paid (`LostInFlight`). A swap that goes through keeps the value of all shares exactly
  when the net effect of its path lowers no product (`SharesKeptIff`, `RepeatedPairLowersShares`). A call keeps
  everything exactly when neither happens and it moves only the tokens it names (`KeptIff`), and so does a run
  (`EveryCallKeepsIff`). Paths that use no pair twice are always safe (`DistinctPathsAreHarmless`, `SimpleRunsAreCareful`).
- The key of a pair joins its names with a bar. Two pairs of names have one key exactly when one's first name runs over
  the other's bar (`PairKeysEqualIff`, `PairKeyCollides`). A deposit or withdrawal conserves every token exactly when
  the stored pair has the names it gives (`AddConservesIff`, `RemoveConservesIff`), a swap exactly when the drifts of its
  hops cancel (`SwapConservesIff`); `CollisionMovesTokens` is a deposit that turns two tokens into two others.
- In 256-bit arithmetic a forward quote covers the backward quote it starts from exactly when one product does not
  overflow (`MultiHopQuotesCoverIff`, `CoverFailsForHugeInputs`). Overflow cannot hurt a swap that succeeds: nobody
  holds such an input (`Width.StepFits`).
- `integerSqrt` never returns for values from 2^254 on: its doubling reaches zero (`DoublingEndsIff`). A first deposit
  of such a product is the outcome `NeverReturns`.
- A transfer from a wallet to itself adds its value to the wallet (`BalanceAgreesIff`, `TransferConservesIff`,
  `PayingOneselfDoubles`).
- The JSON printer refuses text that is not UTF-8, and once a resource is found its location and token are part of every
  body. A request without a payment header is then logged and dropped, and answered exactly when both are UTF-8
  (`MissingHeaderAnsweredIff`, `DropsHappen` with a local file named by the byte 0xFF and with a token of that byte). Any
  other reply about such a resource throws, and so does the 500 that should replace it, inside a callback that may not
  throw: the process ends (`ProcessEndsIff`, `RefusedPaymentEndsProcessIff`). Whether the YAML library lets such text
  into the configuration is not part of this model.

The payment protocol does not look at the facilitator's success flag, so its theorems speak of recorded payments and
served resources, not of money moved.

## Model

| member | source | states |
|---|---|---|
| Promises.EveryCallKeeps | src/vibemarket/VibeSwap.cpp:61-213 | in every careful run with fewer than 2^112 units of each token minted, each call keeps the value of every share (reserve product times the square of the old supply never falls against the new), changes each token's total by exactly what it minted, has moved nothing if it threw, and equals the unbounded-integer call if it succeeded |
| Keeping.EveryCallKeepsIff | src/vibemarket/VibeSwap.cpp:61-213 | a run keeps all that at every call exactly when every call of it is careful on the state it finds, for any names and paths |
| Promises.SimpleRunsAreCareful | src/vibemarket/VibeSwap.cpp:325-327 | runs whose names have no bar and whose paths use no pair twice are careful throughout |
| Promises.ReachableShares | src/vibemarket/VibeSwap.cpp:83-139 | in every state reached carefully shares sum to the supply, both reserves are positive exactly when shares exist, and supply squared is at most the product of the reserves |
| Promises.MinimumStaysLocked | src/vibemarket/VibeSwap.cpp:129-132 | a pair's supply is 0 or at least 1000 in every state reached carefully without a removal by the burn address |
| Promises.LiquidityStep | src/vibemarket/VibeSwap.cpp:61-189 | one successful 256-bit add or remove, under any names: reserves per share fall on neither side, and no other holder's shares change |
| Promises.AddStep | src/vibemarket/VibeSwap.cpp:61-144 | a successful 256-bit add changes one pair only, takes amounts within what was wanted, and returns them in the caller's token order |
| Promises.SwapIsFair | src/vibemarket/VibeSwap.cpp:191-213 | a successful swap on any path and under any names: every hop is within the fee-adjusted invariant on the starting reserves, every pair ends with the net effect of the path, the caller's limit holds; on distinct pairs each hop trades exactly the returned amounts and no product falls |
| Swaps.ThrowsMidwayIff | src/vibemarket/VibeSwap.cpp:191-213 | on any path a swap goes through exactly when it passes its checks and every hop can be paid, and throws after having moved tokens exactly when it passes its checks and some hop cannot |
| Swaps.LostInFlight | src/vibemarket/VibeSwap.cpp:401-443 | a swap that throws half-way destroys exactly the amount the first unpaid hop was to take in; under names that are not the stored ones the applied hops' drifts come on top |
| Swaps.SharesKeptIff | src/vibemarket/VibeSwap.cpp:401-443 | a successful 256-bit swap on any path keeps every share exactly when, with the net effect of the quote on the starting reserves, no pair has a smaller product |
| Swaps.DistinctPathsAreHarmless | src/vibemarket/VibeSwap.cpp:401-443 | a swap along a path that looks up no pair twice can pay its hops and lowers no product |
| Promises.SwapRunsNeverDrain | src/vibemarket/VibeSwap.h:93-95 | over any careful run of swaps, if one reserve of a pair ends no higher the other ends no lower |
| Promises.DepositIsFair | src/vibemarket/VibeSwap.cpp:85-143 | addLiquidity takes no more than wanted on either side, mints a positive amount, and meets minimums that are within the wanted amounts |
| Promises.MinimumsMetIff | src/vibemarket/VibeSwap.cpp:85-113 | a successful 256-bit addLiquidity meets both minimums exactly when the pair had no shares or the side taken in full was wanted at its minimum |
| Promises.NoGainFromRoundTrip | src/vibemarket/VibeSwap.cpp:146-189 | removing just-minted shares returns at most the deposit, token by token |
| Promises.OthersClaimsNeverFall | src/vibemarket/VibeSwap.cpp:124-187 | a holder's floor share of either reserve never falls when someone else adds or removes |
| Runs.RunKeeps | src/vibemarket/VibeSwap.cpp:23-28 | every state reached carefully is in order, and for each token wallets plus reserves are exactly what was minted |
| Runs.WrappingStepKeeps | src/vibemarket/VibeSwap.cpp:61-213 | one careful call in 256-bit arithmetic keeps all invariants, whether it succeeds or throws |
| Keeping.KeptIff | src/vibemarket/VibeSwap.cpp:61-213 | a call keeps order, share values, totals and atomicity exactly when it is careful: no entered swap with an unpaid hop or a lowered product, and no token moved that it does not name |
| Width.StepFits | src/vibemarket/VibeSwap.cpp:75-253 | a call that succeeds in 256-bit arithmetic has the state and result of unbounded arithmetic, for all caller amounts below 2^256, along any path and under any names |
| Exchange.ExactStepKeeps | src/vibemarket/VibeSwap.cpp:61-213 | in unbounded arithmetic every careful call keeps order, share values and totals, and a throw moves nothing |
| Exchange.SwapKnownKeeps | src/vibemarket/VibeSwap.cpp:401-443 | fair amounts that the hops can pay, that lower no product and whose drifts cancel: the only throw is the balance check, before anything moves |
| Trading.FairPathTrades | src/vibemarket/VibeSwap.cpp:412-439 | along distinct pairs no hop throws, each pair trades exactly its own amounts once, and every product is kept |
| Totals.HopsMove | src/vibemarket/VibeSwap.cpp:412-441 | along any path and under any names, also when a hop throws, the pools gain the first amount and lose what the last applied hop paid, but for the drift; what one hop pays the next receives |
| Totals.ClearIff | src/vibemarket/VibeSwap.cpp:355-381 | a lookup finds a pair of other names exactly when the stored names collide with those asked for |
| Totals.ClearPathsDoNotDrift | src/vibemarket/VibeSwap.cpp:412-439 | hops on pairs of the names they give do not drift |
| Totals.HopsFit | src/vibemarket/VibeSwap.cpp:412-439 | hops in 256-bit arithmetic are the exact hops, also when they throw half-way, on any path a machine can hold and under any names |
| Paths.HopsSucceedIff | src/vibemarket/VibeSwap.cpp:412-426 | the hops of any path all succeed exactly when each output is below its starting reserve plus the net effect of earlier hops on the same pair |
| Paths.AppliedUntilUnpaid | src/vibemarket/VibeSwap.cpp:412-426 | the hops that are applied are exactly those before the first that cannot be paid |
| Paths.HopsNet | src/vibemarket/VibeSwap.cpp:412-439 | after a swap each pair holds its starting reserves plus the net effect of the path, shares unchanged |
| Paths.ShareKeptIff | src/vibemarket/VibeSwap.cpp:412-439 | when all hops succeed a pair's shares keep their value exactly when its net effect keeps its product |
| RepeatedPairs.HalfASwap | src/vibemarket/VibeSwap.cpp:401-443 | in a state that a careful run reaches, a swap that throws and has taken the trader's tokens |
| RepeatedPairs.RepeatedPairLowersShares | src/vibemarket/VibeSwap.cpp:191-201 | in a state that a careful run reaches, a successful swap over a repeated pair that lowers the value of its shares |
| Quotes.AmountOutIsGreatest | src/vibemarket/VibeSwap.cpp:225-237 | the output quote is the greatest amount that keeps the fee-adjusted invariant |
| Quotes.AmountInIsNearlyLeast | src/vibemarket/VibeSwap.cpp:239-253 | the input quote keeps the invariant and exceeds the least sufficient input by at most one |
| Quotes.AmountInAfterAmountOut | src/vibemarket/VibeSwap.cpp:225-253 | quoting the output of x and then its input asks for at most x + 1 |
| Quotes.FeeInvariantKeepsProduct | src/vibemarket/VibeSwap.h:93-95 | the fee-adjusted invariant implies that the product of the reserves never falls |
| Quotes.QuoteOutIsFair | src/vibemarket/VibeSwap.cpp:255-271 | every hop of a forward quote keeps the fee-adjusted invariant |
| Quotes.QuoteInIsFair | src/vibemarket/VibeSwap.cpp:273-289 | every hop of a backward quote keeps the fee-adjusted invariant |
| Quotes.QuoteOutCovers | src/vibemarket/VibeSwap.cpp:255-271 | a forward quote from at least the first of any fair amounts succeeds and is pointwise at least those amounts |
| Quotes.MultiHopQuotesCover | src/vibemarket/VibeSwap.cpp:255-289 | for any path and target a forward quote from what the backward quote asks succeeds and is pointwise at least it |
| QuoteWidth.QuoteOutFits | src/vibemarket/VibeSwap.cpp:255-271 | a forward quote of an amount below 2^112 is exact in 256-bit arithmetic on every path |
| QuoteWidth.QuoteInFits | src/vibemarket/VibeSwap.cpp:273-289 | a backward quote is exact in 256-bit arithmetic for every target |
| QuoteWidth.MultiHopQuotesCoverIff | src/vibemarket/VibeSwap.cpp:233-289 | in 256-bit arithmetic the forward quote covers the backward one exactly when 997 times the first amount times the first output reserve is below 2^256 |
| QuoteWidth.OverflowFallsShort | src/vibemarket/VibeSwap.cpp:233-236 | once that product overflows, the forward quote is below the target |
| Counterexamples.CoverFailsForHugeInputs | src/vibemarket/VibeSwap.cpp:225-253 | a state that a careful run reaches where it does |
| Liquidity.FirstDeposit | src/vibemarket/VibeSwap.cpp:85-95 | a first deposit takes both amounts in full, and the square of shares plus 1000 is at most their product |
| Liquidity.LaterDeposit | src/vibemarket/VibeSwap.cpp:97-121 | a later deposit takes one side in full, at most the wanted amount of the other (the bound that is not asserted in the code), for shares each side pays for |
| Liquidity.DepositKeepsPair | src/vibemarket/VibeSwap.cpp:129-139 | a deposit keeps the pair's accounting and lowers no share on either side |
| Liquidity.MinimumsHoldIff | src/vibemarket/VibeSwap.cpp:100-113 | a successful deposit meets both minimums exactly when the side taken in full was wanted at its minimum |
| Counterexamples.MinimumIgnored | src/vibemarket/VibeSwap.h:59-60 | a state that a careful run reaches and a call that asks for at least 11 and succeeds with 10 |
| Liquidity.WithdrawKeepsPair | src/vibemarket/VibeSwap.cpp:156-183 | a withdrawal pays positive amounts within the reserves, keeps the accounting and lowers no remaining share |
| Liquidity.RedeemAtMostDeposit | src/vibemarket/VibeSwap.cpp:115-168 | minting and redeeming never pays more than the deposit on either side |
| Liquidity.TradeKeepsPair | src/vibemarket/VibeSwap.cpp:418-438 | a trade within the fee-adjusted invariant keeps the accounting and lowers neither product nor share value |
| Roots.IntegerSqrt | src/vibemarket/VibeSwap.cpp:301-323 | in wrapping arithmetic the loops return the floor of the root for every value below 2^254, and from there on never return |
| Roots.FloorSqrt | src/vibemarket/VibeSwap.cpp:301-323 | s with s*s <= v < (s+1)*(s+1) |
| Roots.FloorSqrtIsUnique | src/vibemarket/VibeSwap.cpp:301-323 | there is only one such s |
| Roots.DoublingEndsIff | src/vibemarket/VibeSwap.cpp:308-311 | the doubling loop ends exactly for values below 2^254 |
| Tokens.KeysAgree | src/vibemarket/VibeSwap.cpp:325-381 | two calls reach the same stored pair exactly when they name the same two tokens or their sorted names collide |
| Tokens.PairKeysEqualIff | src/vibemarket/VibeSwap.cpp:325-327 | two ordered pairs of names have one key exactly when they are equal or one's first name is the other's first name, a bar, and a first part of the other's second name |
| Tokens.PlainNamesNeverCollide | src/vibemarket/VibeSwap.cpp:325-327 | first names without a bar never collide |
| Tokens.PairKeyCollides | src/vibemarket/VibeSwap.cpp:325-327 | two sorted pairs under one key |
| Names.AddConservesIff | src/vibemarket/VibeSwap.cpp:61-144 | a successful deposit conserves every token exactly when the stored pair has the names it gives |
| Names.RemoveConservesIff | src/vibemarket/VibeSwap.cpp:146-189 | a successful withdrawal conserves every token exactly when the stored pair has the names it gives |
| Names.SwapConservesIff | src/vibemarket/VibeSwap.cpp:401-443 | a successful 256-bit swap, on any path and under any names, moves each token's total by the sum of its hops' drifts, so it conserves all tokens exactly when these cancel |
| Counterexamples.CollisionMovesTokens | src/vibemarket/VibeSwap.cpp:61-144 | in a state that a careful run reaches, a deposit under colliding names that succeeds and does not conserve the tokens |
| Tokens.LessIsTotal | src/vibemarket/VibeSwap.cpp:298-298 | of two different names exactly one comes first |
| Tokens.SortTokensIsSymmetric | src/vibemarket/VibeSwap.cpp:291-299 | the sorted pair, or the throw, does not depend on the order of the names |
| VibeSwapEngine.VibeSwap.MintToken | src/vibemarket/VibeSwap.cpp:23-28 | new state and outcome are those of `Market.Mint` in wrapping arithmetic |
| VibeSwapEngine.VibeSwap.Debit | src/vibemarket/VibeSwap.cpp:389-395 | pays exactly when the balance suffices; a refused debit leaves at most a zero entry |
| VibeSwapEngine.VibeSwap.GetOrCreatePair | src/vibemarket/VibeSwap.cpp:355-361 | adds an empty pair exactly when its key is new |
| VibeSwapEngine.VibeSwap.AddLiquidity | src/vibemarket/VibeSwap.cpp:61-144 | new state and outcome are those of `Market.AddLiquidity`; the pair created before a throw stays |
| VibeSwapEngine.VibeSwap.RemoveLiquidity | src/vibemarket/VibeSwap.cpp:146-189 | new state and outcome are those of `Market.RemoveLiquidity` |
| VibeSwapEngine.VibeSwap.GetAmountsOut | src/vibemarket/VibeSwap.cpp:255-271 | the forward loop computes the recursive quote, with its first error |
| VibeSwapEngine.VibeSwap.GetAmountsIn | src/vibemarket/VibeSwap.cpp:273-289 | the backward loop computes the recursive quote, with its first error |
| VibeSwapEngine.VibeSwap.SwapWithKnownAmounts | src/vibemarket/VibeSwap.cpp:401-443 | the hop loop does `Market.SwapKnown`, also when it throws half-way |
| VibeSwapEngine.VibeSwap.SwapExactTokensForTokens | src/vibemarket/VibeSwap.cpp:191-201 | new state and outcome are those of `Market.SwapExactIn` |
| VibeSwapEngine.VibeSwap.SwapTokensForExactTokens | src/vibemarket/VibeSwap.cpp:203-213 | new state and outcome are those of `Market.SwapExactOut` |
| PayOnce.StepKeeps | src/payment/PaymentManager.cpp:94-185 | every step of every request keeps the invariant on locks, rows, requests and fetches |
| PayOnce.RunKeeps | src/payment/PaymentManager.cpp:94-185 | so does every interleaving of any length |
| PayOncePromises.LockDiscipline | src/payment/PaymentManager.cpp:94-110 | in every reachable state the lock set is exactly the keys of the requests between lock and release, one holder each, and the check that a release erased one key never failed |
| PayOncePromises.NoCallForARecordedPayment | src/payment/PaymentManager.cpp:122-135 | no facilitator call ever starts for a payment that is in the table, whoever wrote it |
| PayOncePromises.RecordedStaysVisible | src/db/MachinePalDb.h:47-52 | after any run from a state where a payment is recorded, its next check finds it and refuses |
| PayOncePromises.RowsOnlyGrow | src/db/MachinePalDb.cpp:251-304 | rows are only ever appended |
| PayOncePromises.PaidOnce | src/payment/PaymentManager.cpp:149-185 | at most one request per payer, nonce, chain and asset ever holds a facilitator's response |
| PayOncePromises.TollBooth | src/x402_protocol/X402Processor.cpp:396-446 | fetches of priced resources map one to one to rows written by the same request, for the resource's price and to the configured wallet, and no payment pays twice |
| Gateway.EverySuccessIsPaid | src/x402_protocol/X402Processor.cpp:408-446 | over all interleavings every success status for a priced resource has its own payments row, written by the same request, for the price and to the wallet; no payment serves two |
| Gateway.SuccessWroteItsRow | src/x402_protocol/X402Processor.cpp:415-446 | a success status after an uninterrupted settlement: the payment was new and not being settled, and this call wrote its row |
| PaymentManagement.MatchesIffSameKey | src/db/MachinePalDb.cpp:251-329 | the text written for a payment matches the text looked up exactly when payer, nonce, asset and chain agree |
| PaymentManagement.FoundIffExists | src/db/MachinePalDb.cpp:306-329 | the lookup finds a row exactly when the payment is in the table |
| PaymentManagement.MachinePalDb.SaveSettledPayment | src/db/MachinePalDb.cpp:108-115 | appends the payment's row unless there is one; after a save that returned, the payment is in the table; a failed one may have written it |
| PaymentManagement.MachinePalDb.SettledPaymentExists | src/db/MachinePalDb.cpp:117-125 | true exactly when the payment is in the table |
| PaymentManagement.PaymentManager.LockPaymentAsBeingSettled | src/payment/PaymentManager.cpp:94-102 | takes the key and says whether it was free |
| PaymentManagement.PaymentManager.UnlockPaymentAsBeingSettled | src/payment/PaymentManager.cpp:104-110 | gives the key back and says whether it was held |
| PaymentManagement.PaymentManager.CheckPaymentIsNewAndSettleItUnsafe | src/payment/PaymentManager.cpp:114-147 | rows and outcome of check, call and record, for every failure of each |
| PaymentManagement.PaymentManager.CheckPaymentIsNewAndSettleIt | src/payment/PaymentManager.cpp:149-185 | the same under the lock, which is as before on every way out; the erase check holds |
| PaymentManagement.PaymentManager.DecodePreValidateAndSettleWithFacilitator | src/payment/PaymentManager.cpp:188-225 | the refusals before the lock in their order, then the settlement; only a payment of the price to the configured wallet gets that far |
| PaymentManagement.PaymentManager.ValidateAndVerifySignature | src/payment/datastructures/PaymentPayload.cpp:84-117 | the first of version, scheme, network, recipient, value, time window and signature that fails; without an error the payment is for the price and to the wallet |
| PaymentManagement.SettledOnce | src/payment/PaymentManager.cpp:114-147 | once a payment is settled no later settlement of it is, whatever it meets, and none writes |
| PaymentManagement.SettlementIsARun | src/payment/PaymentManager.cpp:149-225 | in any state, an uninterrupted settlement is a run of the protocol with the rows, locks and outcome of the objects |
| EasyNetLedger.PreCheckIsExact | src/facilitators/EasyNetFacilitator.cpp:99-122 | on every table and request, self-transfers and missing rows included, the check refuses exactly when funding and then transferring would |
| EasyNetLedger.TransferEffect | src/db/EasyNetDb.cpp:189-284 | what a transfer does to every balance, every row and the journal; a refused one changes nothing |
| EasyNetLedger.FundEffect | src/db/EasyNetDb.cpp:286-321 | funding gives 10^27 to an account without a row and touches nothing else |
| EasyNetLedger.ProcessStaysUnique | src/db/EasyNetDb.cpp:42-56 | a request keeps at most one row per wallet and asset although no constraint asks for it |
| EasyNetLedger.UniqueIsAMap | src/db/EasyNetDb.cpp:205-212 | with unique rows the table is a finite map: each row is what a lookup of its account returns |
| EasyNetLedger.LookupIff | src/db/EasyNetDb.cpp:205-217 | with unique rows a lookup returns v exactly when the account's row holds v, and nothing exactly when it has no row |
| EasyNetLedger.SelectAfterUpdate | src/db/EasyNetDb.cpp:180-187 | a lookup after an UPDATE |
| EasyNetLedger.SelectAfterInsert | src/db/EasyNetDb.cpp:170-178 | a lookup after an INSERT |
| LedgerRuns.RunsAreAccounted | src/db/EasyNetDb.cpp:134-284 | over any run, with failures anywhere, rows are unique and each balance is its funding plus journalled receipts minus sends plus what it sent itself |
| LedgerRuns.BalanceAgreesIff | src/db/EasyNetDb.cpp:252-267 | a balance agrees with its journal exactly when the account never sent itself a positive amount |
| LedgerRuns.JournalIsCarriedOut | src/db/EasyNetDb.cpp:273-280 | over any run the journal is exactly the transfers that were carried out, in order |
| LedgerRuns.TotalsOverRuns | src/db/EasyNetDb.cpp:134-321 | over any run the balances of an asset sum to 10^27 per funded wallet plus what wallets sent themselves |
| LedgerRuns.TransferConservesIff | src/db/EasyNetDb.cpp:252-267 | a transfer conserves its asset exactly when it is not a positive payment to oneself |
| LedgerRuns.PayingOneselfDoubles | src/db/EasyNetDb.cpp:259-264 | a wallet that pays itself its funding ends with twice that |
| EasyNet.NeverRefusedAtTransfer | src/facilitators/EasyNetFacilitator.cpp:48-62 | the transfer-refused branch of settle is unreachable, and settle succeeds exactly when the check accepts and the database works |
| EasyNet.EasyNetDb.GetBalance | src/db/EasyNetDb.cpp:323-344 | on a table with unique rows it returns v exactly when a row of that account holds v, and none exactly when the account has no row |
| EasyNet.EasyNetDb.FundUserWalletWithFundsIfNewWalletUnsafe | src/db/EasyNetDb.cpp:286-321 | new state is that of `Fund` |
| EasyNet.EasyNetDb.TransferValueUnsafe | src/db/EasyNetDb.cpp:189-284 | new state and reply are those of `TransferValue`; an exception before the commit changes nothing |
| EasyNet.EasyNetDb.ProcessTransferRequest | src/db/EasyNetDb.cpp:134-143 | new state and reply are those of `ProcessTransfer` |
| EasyNet.EasyNetFacilitator.ProcessVerifyRequestUnsafe | src/facilitators/EasyNetFacilitator.cpp:75-125 | reads only, and its verdict is that of `Verify` |
| EasyNet.EasyNetFacilitator.ProcessSettleRequest | src/facilitators/EasyNetFacilitator.cpp:15-71 | new state and reply are those of `Settle`, never refused at the transfer |
| Replies.AtMostOneReply | src/x402_server/X402Handler.cpp:19-106 | however callbacks follow onRequest and whatever fails, at most one response is sent, the handler's own 500 included |
| Replies.ExactlyOneReplyIff | src/x402_server/X402Handler.cpp:89-106 | on a live connection exactly one response is sent by the end of onEOM, unless the request is complete and its resource's location or token is not UTF-8 where it must be printed, or its header check throws |
| Replies.ExactlyOneReply | src/x402_protocol/X402Processor.cpp:290-455 | so exactly one when the location and token of a found resource are UTF-8, whatever the text of the request is |
| Replies.SuccessNeedsSettlement | src/x402_protocol/X402Processor.cpp:408-446 | a priced resource is answered with a success status only to a complete request whose payment settled |
| Replies.DroppedReply | src/x402_protocol/X402Processor.cpp:39-52 | no response and no error for a request without payment header whose resource cannot be printed |
| Replies.DropsHappen | src/config/subconfigs/ResourceConfig.cpp:74-85 | a local file named by the byte 0xFF and a URL resource with that byte as token are such resources |
| Replies.MissingHeaderAnsweredIff | src/x402_protocol/X402Processor.cpp:96-123 | on a live connection a complete request without payment header is answered exactly when the resource's location and token are UTF-8 |
| Bodies.OfferPrintsIff | src/payment/datastructures/PaymentRequirements.cpp:41-86 | of all strings in a payment-required body only location, token and error can keep it from being printed: the others are ASCII |
| Replies.ProcessEndsIff | src/x402_protocol/X402Processor.cpp:139-155 | the process ends exactly when a complete request finds a resource whose location or token is not UTF-8 and is neither answered by a success of the backend nor dropped |
| Replies.RefusedPaymentEndsProcessIff | src/x402_protocol/X402Processor.cpp:313-329 | a refused payment ends the process exactly when the location or token of its resource is not UTF-8 |
| Replies.NoSenderNoReply | src/x402_server/X402Handler.cpp:76-87 | a failure before there is a response sender sends nothing, then or later |
| Replies.WaitingIffComplete | src/x402_protocol/X402Processor.cpp:458-468 | nothing is answered before onEOM exactly when the request is accepted and its body arrives within 1 MiB; the buffer then holds the bytes in order |
| Replies.ReactionsKeepQuiet | src/x402_server/X402Handler.cpp:51-106 | every callback keeps it: nothing was sent while a reply may still come |
| X402.X402Processor.IsReplySent | src/x402_protocol/X402Processor.cpp:22-25 | true exactly when the state is not the initial one |
| X402.X402Processor.SendResponse | src/x402_protocol/X402Processor.cpp:158-184 | sends exactly when nothing was sent before and the connection is there |
| X402.X402Processor.OnRequestStart | src/x402_protocol/X402Processor.cpp:290-310 | new fields and responses are those of `Replies.OnRequestStart` |
| X402.X402Processor.OnBodySizeIncrease | src/x402_protocol/X402Processor.cpp:458-468 | those of `Replies.OnBodySizeIncrease` |
| X402.X402Processor.DoPassThrough | src/x402_protocol/X402Processor.cpp:331-375 | those of `Replies.DoPassThrough`, with its own fallback |
| X402.X402Processor.ReplyX402ResourceSuccess | src/x402_protocol/X402Processor.cpp:81-93 | throws exactly outside 200-299, else sends the status |
| X402.X402Processor.OnRequestFullyReceived | src/x402_protocol/X402Processor.cpp:390-455 | those of `Replies.OnRequestFullyReceived` |
| X402.X402Handler.OnRequest | src/x402_server/X402Handler.cpp:19-50 | new fields and responses are those of `Replies.OnRequest`; nothing changes once an internal error was sent |
| X402.X402Handler.OnBody | src/x402_server/X402Handler.cpp:51-73 | those of `Replies.OnBody` |
| X402.X402Handler.OnEom | src/x402_server/X402Handler.cpp:89-106 | those of `Replies.OnEom` |
| X402.X402Handler.SendInternalError | src/x402_server/X402Handler.cpp:76-87 | marks the error, and sends a 500 if there is a sender |
| Hex.FromHexAfterToHex | src/crypto/Encoding.cpp:18-39 | fromHex(toHex(b)) is b for all byte strings, with or without prefix |
| Hex.U256ToHex | src/crypto/Encoding.cpp:7-16 | minimal bytes padded to 32 print as the fixed-width big-endian form |
| Hex.FoldBytes | src/crypto/Encoding.cpp:55-59 | the shift-and-or loop in 256-bit arithmetic computes the big-endian value of up to 32 bytes |
| Hex.U256RoundTrip | src/crypto/Encoding.cpp:41-62 | u256FromHexOrDecimal(toHex(v, true)) is v for every 256-bit v |
| Hex.HashRoundTrip | src/crypto/Encoding.cpp:68-75 | a hash printed in hex reads back as itself |
| Hex.UniquePaymentKeyIsInjective | src/crypto/EIP712Domain.h:29-35 | two payments share a lock key only if separator, payer and nonce agree |
| Authorization.PackUint256 | src/crypto/EIP3009Authorization.cpp:19-38 | appends the 32-byte big-endian word |
| Authorization.BuildMessage | src/crypto/EIP3009Authorization.cpp:42-74 | the message is the seven words in order |
| Authorization.Layout | src/crypto/EIP3009Authorization.cpp:42-74 | always 224 bytes, each field in its own word |
| Authorization.EncodeIsInjective | src/crypto/EIP3009Authorization.cpp:42-74 | different authorizations are never encoded alike |
| EthAddress.ToChecksumHex | src/crypto/EthAddress.cpp:93-123 | the loop prints the checksum form |
| EthAddress.ChecksumRoundTrip | src/crypto/EthAddress.cpp:34-123 | reading the printed checksum form gives back every address, for any hash |
| EthAddress.MixedCaseAcceptedIff | src/crypto/EthAddress.cpp:49-66 | a mixed-case string is accepted exactly when it is the checksum form of the address it decodes to |
| EthAddress.FlexibleIsPlain | src/crypto/EthAddress.cpp:15-69 | all-lower, all-upper and unchecked strings decode as the plain parser does |
| EthAddress.ChecksumIsInjective | src/crypto/EthAddress.cpp:93-123 | only one address has a given checksum form |

## Left out

- Promises.EveryCallKeeps: assumes a careful run, because a call that is not careful breaks it (`EveryCallKeepsIff`). The
  same holds for Promises.ReachableShares, Promises.MinimumStaysLocked, Promises.SwapRunsNeverDrain, Runs.RunKeeps,
  Runs.WrappingStepKeeps and Exchange.ExactStepKeeps.
- Width.StepFits: is about calls that succeed; a call that wraps and throws may have succeeded, or thrown another error,
  in unbounded arithmetic. Paths have at most 2^144 - 1 names.
- Quotes.MultiHopQuotesCover: is about unbounded arithmetic; QuoteWidth.MultiHopQuotesCoverIff is the 256-bit statement.
- PayOncePromises.PaidOnce: speaks of recorded payments. Whether the facilitator moved money, and the success flag of
  its response, are not part of this model.
- PayOnce.RunKeeps: is about one process with the domain of its configured network, which is chosen once at start.
- Replies.ExactlyOneReplyIff: a response counts when it is handed to the sender; exceptions of the sender are not part
  of this model.
- X402.X402Handler.OnRequest: is the first callback of a handler, as the server library calls it, or comes after an
  internal error. Callbacks after `requestComplete` or `onError`, which release the handler, are not part of this model.
- Replies.ProcessEndsIff: a body fails to print only for its text; running out of memory is not part of this model.
- Addresses of pairs (`makePairAddress`), snapshots and other getters of the exchange: they influence nothing.
- Wallet entries that reading `balances_` creates with value zero: balances are compared by value.
- HTTP, TLS, curl and the event loop: a backend fetch or facilitator call is one step that may fail.
- SQL and connection pools: tables are sequences of rows, a committed transaction is one step, and a failed one no change.
- Host, path and method parsing, organization and resource lookup: their verdicts are arbitrary.
- `FacilitatorProcessor` has the same reply shape with other status codes.
- Elliptic curves, Keccak and domain hashing: the hash is an arbitrary function, and nothing is claimed about collisions.
- Decimal parsing and printing of 256-bit numbers, and the price conversion from floating point: balances and prices are
  numbers.
- Clocks: validity windows are part of the arbitrary verdict on an authorization.
- Configuration, JSON schemas, logging, the command line, the certificate code, the web pages and the wallet extension.
