# Trading core of the multi-trade platform: model and proofs

This project models the part of the platform that holds money, assets and orders: the
matching engine, the order, wallet and portfolio code that writes the same tables, the
nightly jobs that audit them, the 64- and 128-bit arithmetic underneath, the rate limiter
and the WebSocket subscription index. `dafny verify dfyconfig.toml` verifies all of it.

## How the model is built

Amounts are integers that count units of 10^-8, as a NUMERIC(20,8) column stores them.
An amount that has not been formatted yet (a cost, a requested deposit) is a real number of
units, and `%.8f` is rounding to the nearest unit with ties to even.

The code adds, multiplies and compares in binary floating point, with 64 bits in the services
and the nightly jobs and 128 in the engine. The model does not replace that by exact decimals.
Every transaction takes its sums, costs and comparisons from an arithmetic `m: Maths`, about
which only error bounds are assumed (`Arithmetic`); `BigFloat` defines the code's own
arithmetic, `Code()`, and `CodeIsSound` proves that it keeps those bounds. So every theorem
about runs holds of the numbers that the code really stores, late statuses and drifting
balances included.

There are three layers over the same tables.

1. `Tables` defines the tables and every transaction that commits a change to them, as a
   function `Step`. A transaction that fails a check, or any call inside it, changes
   nothing. `Orders`, `Ledger` and `Holdings` prove what each step keeps; `Exchange` turns
   that into promises about every run, from any seeding of the holdings, and `Laws` says who may
   change what. `Columns` states requirements on the columns alone.
2. `Store` and `Engine` are the services, repositories and engine as classes whose methods
   change the tables in place, statement by statement, with rollback. Every method is proved
   to commit exactly one transaction of layer 1 or nothing, for every set of calls that may
   fail. `Matching` defines the order book, the greedy plan that `ProcessOrder` follows, and
   the candidates at which it stalls.
3. `Schedule` cuts `processOrder`, `PlaceOrder`, `Deposit` and `Withdraw` at every read and
   every commit, and interleaves any number of them with cancellation and expiry.
   `EveryScheduleIsARun` shows that the result is always a run of layer 1, and `TraceExtends`
   that a longer schedule is a longer run. `Loop` says when one `processOrder` ends, and `Promises`
   what the events mean for whoever looks at the columns.

`Binary` and `BinaryMoney` describe p-bit floating point and the errors of the computations
above; `Findings` shows what they do to balances, statuses and audits, `Statuses` on which
quantities statuses are exact, and `Stalling` a run that ends in an endless loop. `Audit` holds the
nightly jobs, `Locks` the row locks, `RateLimiter` and `Hub` the two indexes. `Money` and
`Sums` are the arithmetic that the others share.

## What the proofs found

- **Fractions of a unit make balances and the ledger differ.** A service formats an amount and
  a new balance separately. Below 2^35 they differ by at most one unit, and not at all if the
  amount is at least 0.3 units away from a half unit (`DepositsDriftLittle`), as every amount
  of at most eight decimals is (`WholeUnitsNeverDrift`). Nearer to a half unit they do: on
  multiples of 1/256 exactly at ties onto odd balances (`DyadicDriftExactly`), elsewhere even
  without a tie (`DriftWithoutTie`). Four small deposits make `ReconcileWallets` report a
  healthy wallet (`FourDepositsRaiseAlarm`), and since the job compares in binary, one unit can
  already be too much (`OneUnitIsReported`).
- **A last fill can go unnoticed.** At 128 bits 0.1 + 2.1 is less than 2.2, so an order for
  2.2 can stay PARTIALLY_FILLED with nothing remaining (`LastFillIsMissed`). When such an order
  is the best candidate of an order that wants more, `processOrder` goes round for ever without
  changing anything; a run of one trade gets there (`CodeStalls`, `CodeLoopsForEver`). It ends if
  and only if that never happens (`LoopEndsExactly`), which can be told from the book before the
  call (`Stalls`, in the contract of `ProcessOrder`). If all orders are for multiples of 1/256,
  whole numbers among them, statuses are exact and nothing stalls (`CodeStatusesAreExact`).
- **Exact funds can be refused.** At 128 bits 3 x 0.3 is more than 0.9, so a wallet that holds
  exactly the cost fails the check (`ExactFundsAreRefused`). Funds that differ from the cost by
  however little are decided correctly (`FundsAreToldApart`); funds equal to it pass exactly if
  the product of the parsed numbers is not larger than it or rounds back to it
  (`EqualFundsPass`), and always if price and quantity are multiples of 1/256.
- **The settlement job uses fewer bits than the engine.** Both compute the same amount if the
  cost is farther from a half unit than 5 * 2^-64 of itself (`JobsAgreeFarFromHalf`). Nearer,
  the job can look for an amount that was never posted: at a tie however small the trade
  (`JobsDisagreeOnTie`), and at larger costs without one (`JobsDisagreeWithoutTie`). Its pattern
  also accepts the row of any order whose number merely starts with the digits it looks for
  (`PatternMatchesPrefixes`).
- **A second engine would introduce a deadlock** on two wallets (`TwoEnginesCanDeadlock`). One
  engine never deadlocks, and neither would any number of them as long as every buyer's wallet
  comes before the seller's in number.

Where comments and code disagree, the model follows the code: a full queue logs that an order
will be picked up on the next scan, but no scan exists; the decimal package describes itself as
shared by every domain, but the services and the engine have helpers of their own, the
services' with half the precision; and the rate limiter also counts the requests it blocks.

## Model

| member | source | states |
|---|---|---|
| `Money.Nearest` | internal/matchingengine/matcher.go:66-68 | Formatting to eight decimals moves an amount by at most half a unit, and sends a tie to the even unit |
| `Money.RoundingsAgree` | internal/matchingengine/matcher.go:66-68 | Two integers within half a unit of one amount are equal, unless it is a tie, and then they are at most one apart |
| `Columns.FitsExactly` | migrations/000001_init_schema.up.sql:16 | A column takes what has at most twelve digits before the point and eight after |
| `Arithmetic.DepositDrift` | internal/wallet/service/wallet_service.go:59-69 | For any arithmetic within the bounds and any amount, new balance minus old balance minus ledger row is at most the allowance: below 2^35 nothing for an amount 0.3 or more away from a half unit and one unit nearer; one below 2^36, and 2, 3, 5 and 9 for each power of two above |
| `Arithmetic.AllowanceTable` | internal/wallet/service/wallet_service.go:59-69 | The allowance in figures, power of two by power of two |
| `Arithmetic.WithdrawalDrift` | internal/wallet/service/wallet_service.go:124-139 | The same of a withdrawal that is covered |
| `Arithmetic.TradeRounds` | internal/matchingengine/executor.go:83-149 | Ledger row, debit and credit of a trade are each the exact cost to within half a unit, whichever way a tie goes |
| `Tables.Expired` | internal/cronjobs/order_expiry.go:18-24 | Exactly the open orders more than a day old become CANCELLED and nothing else about any order changes |
| `Orders.MatchIsTradeOk` | internal/matchingengine/executor.go:60-94 | The trade of a tradable pair names the right orders and users, respects both limits, and exhausts at least one of the two remainders |
| `Orders.StepKeepsOrders` | internal/matchingengine/executor.go:72-113 | Every transaction keeps: fills equal the order's trades, an order is FILLED exactly if the comparison after its last fill said so, trades agree with their orders, keys are unique per user |
| `Orders.StepProgress` | internal/matchingengine/executor.go:43-63 | No transaction changes a closed order, shrinks a fill, or alters the terms of an order |
| `Orders.WithinLimit` | internal/matchingengine/executor.go:65-84 | For any list of sound trades a buy order's ledger rows stay within limit times quantity plus half a unit per fill, and dually for a sell order |
| `Ledger.StepKeepsLedger` | internal/wallet/repository/wallet_repository.go:86-127 | Every transaction keeps: balances fit their column and are not negative, a version is one plus the number of rows, and trades and the rows they wrote determine each other |
| `Ledger.StepMovesGap` | internal/cronjobs/reconciliation.go:28-60 | Every transaction moves balance minus ledger sum of each wallet by the rounding drift of what it posts there and nothing else |
| `Ledger.StepDriftIsSmall` | internal/wallet/service/wallet_service.go:124-147 | That drift is nothing for a trade whose cost is no tie, at most one unit for one whose cost is, and at most the allowance of a deposit or withdrawal |
| `Ledger.WalletOpensLevel` | internal/wallet/repository/wallet_repository.go:35-52 | A wallet opens in agreement with the ledger |
| `Ledger.TradeConserves` | internal/matchingengine/executor.go:115-163 | What the seller gains is what the buyer loses unless the cost is a tie, and then it differs by at most one unit |
| `Ledger.StepMovesSurplus` | internal/matchingengine/executor.go:115-163 | Every transaction changes total money minus deposits plus withdrawals by at most its tolerance, which is zero for a trade whose cost is no tie and for an amount clear of half units |
| `Holdings.TransferConserves` | internal/portfolio/repository/portfolio_repository.go:45-76 | Adding to the buyer and reducing the seller keeps the sum of every asset, given that the seller has a row |
| `Holdings.AverageBetween` | internal/portfolio/repository/portfolio_repository.go:49-55 | The stored weighted average stays between any bounds on its two inputs, whatever precision the division has |
| `Holdings.AverageIsNear` | internal/portfolio/repository/portfolio_repository.go:51-54 | The stored average is the true weighted mean up to half a unit plus the rounding of the division |
| `Holdings.StepKeepsHoldings` | internal/matchingengine/executor.go:165-172 | Every transaction keeps holdings non-negative and keeps a holding row for the owner of every sell order |
| `Holdings.StepConservesHoldings` | internal/order/service/order_service.go:302-315 | Every transaction keeps the sum of each asset over all users |
| `Holdings.StepKeepsAverage` | internal/portfolio/repository/portfolio_repository.go:45-62 | Every transaction keeps an average within any range that holds all prices paid |
| `Exchange.RunKeepsInv` | migrations/000001_init_schema.up.sql:13-86 | All the table invariants hold after every run |
| `Exchange.OrdersAreAccounted` | internal/matchingengine/matcher.go:39-48 | In every reachable state filled equals the sum of the order's trades and lies within its quantity; PENDING means open and unfilled; FILLED is exactly what the comparison after the last fill found, never early, and never missed by an order's only fill |
| `Exchange.OrdersOnlyProgress` | internal/order/service/order_service.go:173-197 | Between any two moments of any run, FILLED and CANCELLED orders stay as they are and fills only grow |
| `Exchange.FillTouchesTwoOrders` | internal/matchingengine/executor.go:86-113 | A fill trades at the resting order's price, takes one quantity off both remainders, leaves nothing of one order and leaves the other orders alone |
| `Exchange.FillTouchesTwoWallets` | internal/matchingengine/executor.go:120-152 | A fill moves buyer down and seller up by the cost, to within half a unit each, and no other wallet |
| `Exchange.FillTouchesTwoHoldings` | internal/matchingengine/executor.go:165-172 | A fill moves the traded quantity from the seller's holding to the buyer's and touches no other |
| `Exchange.FillSetsAverage` | internal/portfolio/repository/portfolio_repository.go:49-55 | The buyer's average becomes the price of a first purchase, and then the weighted mean to half a unit plus the rounding of the division |
| `Exchange.SurelyEnabled` | internal/matchingengine/executor.go:60-174 | Two orders that can meet, a buyer with a unit to spare above the exact cost, a seller who holds the quantity and room in the columns are enough for a fill, whatever the buyer already holds |
| `Exchange.SurelyDisabled` | internal/matchingengine/executor.go:115-172 | A missing wallet, a buyer more than a unit short or a seller who holds less is enough against one |
| `Exchange.OnlyMeetingOrdersTrade` | internal/matchingengine/executor.go:60-78 | Orders that are not both open with something left, of different users, on opposite sides of one asset, at prices that meet, never trade |
| `Exchange.LedgerRespectsLimits` | internal/matchingengine/executor.go:80-84 | After every run the ledger has debited a buy order at most limit times filled plus half a unit per fill, and credited a sell order at least limit times filled minus half a unit per fill |
| `Exchange.BalanceIsLedgerPlusDrift` | internal/wallet/service/wallet_service.go:124-147 | After every run a balance is the signed sum of its rows plus the drift of its postings, which is within the tolerance of those postings: one unit for each transfer near a half unit and each trade at one, and what the size allows for each transfer of 2^35 or more |
| `Exchange.VersionsCountRows` | internal/wallet/repository/wallet_repository.go:86-105 | After every run a wallet's version is one plus its number of ledger rows and its balance is not negative |
| `Exchange.MoneyIsConserved` | internal/wallet/service/wallet_service.go:53-87 | After every run, whichever transactions rolled back, all balances together are deposits minus withdrawals up to the tolerance of the postings |
| `Exchange.AssetsAreConserved` | internal/portfolio/repository/portfolio_repository.go:64-76 | After every run each asset's holdings add up to what was seeded |
| `Exchange.AverageStaysInRange` | internal/portfolio/repository/portfolio_repository.go:45-62 | After every run an average buy price lies between the lowest and the highest price paid, counting a seeded average |
| `Laws.OrdersChangeOnlyBy` | internal/order/service/order_service.go:173-197 | In any transaction an order changes only when its own owner cancels it while it is open, when it is more than a day old and open, or when it trades with one that it can meet |
| `Laws.CancelledByOwnerOrAge` | internal/order/service/order_service.go:182-190 | In every run a cancelled order was cancelled by its owner, or expired |
| `Laws.InsertsArePending` | internal/order/service/order_service.go:107-116 | A new order comes last, open and unfilled |
| `Laws.WalletsChangeOnlyBy` | internal/wallet/repository/wallet_repository.go:86-105 | A balance changes only by a transfer of its owner's or a trade of one of its owner's orders |
| `Laws.HoldingsChangeOnlyBy` | internal/portfolio/repository/portfolio_repository.go:45-76 | A holding changes only by a trade of its asset by its owner |
| `Laws.LedgerGrowsOnlyBy` | internal/wallet/repository/wallet_repository.go:107-127 | Ledger rows are only added: one for a transfer with its amount, kind and text, and for a trade a debit and a credit of the cost to the nearest unit, each naming its order |
| `Laws.CleanRunsAreExact` | internal/cronjobs/reconciliation.go:28-60 | If all transfers are within a fifth of a unit of whole ones and below 2^35 and no trade costs an exact half unit, every balance is the sum of its rows and all money is deposits minus withdrawals, exactly |
| `Matching.PriorityIsUnique` | internal/order/repository/order_repository.go:126-132 | The sorted select has one possible answer: two lists in priority order with the same members are equal |
| `Matching.BookOf` | internal/order/repository/order_repository.go:120-132 | The book holds exactly the open orders of one side of one asset, in price-time order; `QueueIsByPrice` says what that order is in columns |
| `Matching.Filter` | internal/matchingengine/matcher.go:19-36 | What is left of the book is exactly what is eligible, still in priority order |
| `Matching.QueueIsByPrice` | internal/order/repository/order_repository.go:126-132 | The queue holds exactly the orders that may be matched, and no order in it has a worse price, or the same price and a later time, than one after it |
| `Matching.FrontIsBest` | internal/matchingengine/matcher.go:11-37 | Its front has the best price of all that may be matched and the earliest time at that price; it is empty exactly if nothing may be matched |
| `Matching.GreedyFillsInTurn` | internal/matchingengine/engine.go:79-127 | A greedy plan goes down the queue in order, fills every candidate but the last completely, and trades the smaller of what is wanted and what is there |
| `Matching.GreedyPricesWorsen` | internal/matchingengine/engine.go:79-127 | Along the greedy plan the prices of a buy order never fall and those of a sell order never rise |
| `Matching.NoBetterPriceIsLeft` | internal/matchingengine/engine.go:79-127 | Every order with a better price than the last trade of the greedy plan is taken whole by an earlier one |
| `Matching.StallsStep` | internal/matchingengine/engine.go:101-118 | A queue stalls at its front if that order blocks and more is wanted than it has, and otherwise exactly if the rest of the queue stalls what is left |
| `Matching.GreedyInReach` | internal/matchingengine/engine.go:79-127 | For every queue, trading with the part in reach is the beginning of trading with the whole queue, and equal to it if the queue does not stall |
| `Matching.PlanFillsInTurn` | internal/matchingengine/engine.go:79-127 | The plan is the beginning of the greedy fold over all crossing orders of other users, and all of it unless the order stalls; it fills every candidate but the last completely and trades all that the order and the part of the queue in reach allow |
| `Matching.FillAdvancesQueue` | internal/matchingengine/engine.go:101-126 | After a fill with the front of the queue nothing is left of the order, or nothing of the front; then the front leaves the queue exactly if the comparison noticed |
| `Matching.PlanAdvances` | internal/matchingengine/engine.go:79-127 | The first trade of the plan is the match with the best candidate; what remains of the plan is the plan for the changed book, and whether it stalls does not change |
| `Statuses.StepStaysOnGrid` | internal/matchingengine/executor.go:72-113 | Where the comparison notices every last fill among multiples of a step, every transaction keeps quantities and fills on them and keeps something remaining of every open or cancelled order |
| `Statuses.StatusesAreExact` | internal/matchingengine/matcher.go:43-48 | In every run whose inserted quantities are such multiples: an open order has something remaining, and an order is FILLED exactly when it is not cancelled and nothing remains |
| `Statuses.NothingStalls` | internal/matchingengine/engine.go:79-127 | On such books no order stalls, the whole queue is in reach, and the plan is the greedy fold over all of it |
| `Statuses.ExactNoticesAll` | internal/matchingengine/matcher.go:43-48 | With exact decimals the step is one unit, so all of this holds of every run |
| `Store.Database.CreateWallet` | internal/wallet/repository/wallet_repository.go:35-52 | Commits an empty wallet of version one, unless the user has one |
| `Store.Database.UpdateBalance` | internal/wallet/repository/wallet_repository.go:86-105 | Writes if and only if the version is still the one read and the balance passes the column checks |
| `Store.Database.InsertTransaction` | internal/wallet/repository/wallet_repository.go:107-127 | Appends the row if and only if the amount fits the column |
| `Store.Database.PostToWallet` | internal/matchingengine/executor.go:115-163 | Succeeds only if funds and column limits allow it, always then if no call fails, and leaves balance, version and ledger as one posting does; a failure leaves each of wallet and ledger as it was or as the posting makes it, for the caller to roll back |
| `Store.Database.MoveFunds` | internal/wallet/service/wallet_service.go:44-177 | A deposit or withdrawal commits exactly its transaction or leaves every table as it was; it moves one balance by the amount, up by one version, to within 64-bit rounding, writes one row, and is never refused with more than the rounding to spare |
| `Store.Database.UpdateFill` | internal/order/repository/order_repository.go:106-118 | Adds to the fill and sets the status unless the fill would exceed the quantity |
| `Store.Database.CancelOrder` | internal/order/service/order_service.go:170-219 | In columns: without failing calls the answer is not found, not owned, not cancellable or done exactly as existence, owner and status say; done means that the caller's open order, and nothing else, became CANCELLED; another user's order is never cancelled |
| `Store.Database.ExpireStaleOrders` | internal/cronjobs/order_expiry.go:13-33 | In columns: exactly the orders that are open and more than 24 hours old become CANCELLED, and the result is how many changed; a failed update changes nothing and returns zero |
| `Store.Database.GetByIdempotencyKey` | internal/order/repository/order_repository.go:147-159 | Finds an order of that user and key, and finds none only if there is none |
| `Store.Database.Create` | internal/order/repository/order_repository.go:42-69 | Inserts unless the key is taken or a column check fails, and tells the two apart |
| `Store.Database.CheckOrder` | internal/order/service/order_service.go:74-105 | The first check that fails, in the order of the code, decides the answer; a failed call is blamed only if one failed |
| `Store.Database.PlaceOrder` | internal/order/service/order_service.go:61-143 | In columns: a placed order is a new last row with the price and the quantity asked for to half a unit each, and user, asset, side, key and time as they came, open and unfilled, funded up to 64-bit rounding, under a fresh key, and enqueued if there is room for it; surely funded orders are placed, short ones refused, repeated keys answered with the order that has them; every refusal is explained and changes nothing |
| `Store.CanBuyBounds` | internal/order/service/order_service.go:94-105 | An accepted buyer's wallet holds price times quantity up to 64-bit rounding, and one with that much and ten units is accepted |
| `Store.Database.UpsertBuyerHolding` | internal/portfolio/repository/portfolio_repository.go:45-62 | Adds the quantity and stores the new average, unless the quantity outgrows its column |
| `Store.Database.ReduceSellerHolding` | internal/portfolio/repository/portfolio_repository.go:64-76 | Reduces the row unless it would go negative; a missing row stays missing without an error |
| `Engine.Engine.FindBestCandidate` | internal/matchingengine/matcher.go:11-37 | In columns: returns an open order of the same asset, the other side and another user inside the limit, such that none of these has a better price, or the same price and an earlier time; returns nothing only if there is none |
| `Engine.Engine.FillOrders` | internal/matchingengine/executor.go:86-113 | On success the trade row is appended and both orders carry the fill and the status that the comparison gives |
| `Engine.Engine.MoveMoney` | internal/matchingengine/executor.go:115-163 | On success buyer is debited and seller credited with one ledger row each; succeeds only when both postings fit, and always then if no call fails |
| `Engine.Engine.MoveHoldings` | internal/matchingengine/executor.go:165-172 | On success the quantity has moved from seller to buyer; succeeds only when the rows allow it, and always then if no call fails |
| `Engine.Engine.SettleTrade` | internal/matchingengine/executor.go:80-172 | On success all five tables hold exactly the settlement of the trade, and without failing calls it succeeds whenever the trade is payable |
| `Engine.Engine.ExecuteTrade` | internal/matchingengine/executor.go:18-176 | On stale rows and whatever calls fail, commits the complete settlement of the best possible fill or changes nothing; in columns: orders that cannot meet are no match, and of those that can a surely paid trade commits if no call fails and a surely unpaid one fails |
| `Engine.Engine.ReadAgain` | internal/matchingengine/engine.go:120-126 | Returns exactly when the order is FILLED, if the read does not fail |
| `Engine.Engine.CheckUnmatched` | internal/matchingengine/engine.go:109-118 | Goes on exactly while the order is open, if the read does not fail |
| `Engine.Engine.Select` | internal/matchingengine/engine.go:80-99 | Picks the front of the queue of an open order with something left, or stops exactly when the order is closed, used up, or crossed by nothing |
| `Engine.Engine.Round` | internal/matchingengine/engine.go:79-127 | One round commits the next trade of the plan, returns at the end of a plan that does not stall, changes nothing at the end of one that does, or stops on an error |
| `Engine.Engine.ProcessOrder` | internal/matchingengine/engine.go:73-128 | Without other writers and for every pattern of failing calls the committed trades are a prefix of the greedy fold over all crossing orders of other users, and all of it on return; the loop is over within one turn more than it has trades unless the order stalls, never returns if it does, and never stalls on books with exact statuses; on return the order is closed or used up, or nothing may be matched with it; without failing calls it stops short only before a trade that cannot be paid |
| `Audit.ReconcileWallets` | internal/cronjobs/reconciliation.go:14-73 | Counts exactly the readable wallets that the comparison reports |
| `Audit.CountIsZeroExactly` | internal/cronjobs/reconciliation.go:26-72 | If every sum can be read, the count is zero exactly if no wallet mismatches |
| `Audit.OnlyDriftIsReported` | internal/cronjobs/reconciliation.go:43-60 | After every run at most the wallets that rounding has moved are reported |
| `Audit.MismatchIsDrift` | internal/cronjobs/reconciliation.go:43-60 | After every run a wallet without drift is not reported, one whose postings tolerate none never, and one with two units of drift or more always, below 2^35 |
| `Audit.VerifyTradeSettlements` | internal/cronjobs/settlement.go:15-72 | Counts exactly the missing debits and credits and the failed queries; when every trade is posted and no query fails, at most two for each trade on whose amount job and engine disagree |
| `Audit.MissingCountsBoth` | internal/cronjobs/settlement.go:35-67 | Every trade without a debit of its amount for the buyer raises the count, and so does every trade without a credit for the seller |
| `Audit.SettlementsAlwaysVerify` | internal/matchingengine/executor.go:130-163 | After every run every trade has its debit and its credit of the engine's amount naming the right order, so the job counts at most two for each trade on whose amount it disagrees |
| `Audit.PatternMatchesPrefixes` | internal/cronjobs/settlement.go:44-45 | The pattern accepts the row of an order if and only if its number starts with the digits looked for |
| `Schedule.PostRefinesStep` | internal/wallet/repository/wallet_repository.go:86-105 | A balance computed from a stale read commits only if it is what the current row gives; otherwise nothing changes |
| `Schedule.NextRefinesStep` | internal/matchingengine/executor.go:33-63 | Every event of the interleaved system leaves the tables alone or commits one transaction of the current tables |
| `Schedule.NextKeepsInv` | internal/matchingengine/engine.go:79-127 | Every event keeps the table invariants and the truth of what engine loops, placements and wallet calls remember |
| `Schedule.EveryScheduleIsARun` | internal/wallet/service/wallet_service.go:232-242 | Every interleaving reaches tables that a plain run of its committed transactions reaches |
| `Schedule.TraceExtends` | internal/order/service/order_service.go:317-327 | The committed transactions of a schedule stay where they are as it goes on |
| `Schedule.OrdersOnlyProgressInSchedules` | internal/matchingengine/executor.go:43-63 | Between any two moments of any interleaving, closed orders stay as they are, fills only grow, and terms never change |
| `Schedule.CrossingOrdersAreNotForgotten` | internal/matchingengine/engine.go:79-127 | In every interleaving two open orders that cross, each with something left, include one whose `processOrder` has not returned without error |
| `Schedule.SameKeySameOrder` | internal/order/service/order_service.go:118-135 | In every interleaving of placements all calls that succeed with one user and key return the one order that has it |
| `Schedule.EnqueuedAtMostOnce` | internal/order/service/order_service.go:137-143 | In every interleaving no order is put on the queue twice |
| `Promises.InsertStoresTheRow` | internal/order/service/order_service.go:107-126 | In the interleaved system the insert of a placement stores the row as asked for under a fresh key, or changes no table |
| `Promises.RepeatedKeyIsAnswered` | internal/order/service/order_service.go:62-72 | A lookup that finds the key in use answers with the order that has it |
| `Promises.SurePlacementPlaces` | internal/order/service/order_service.go:61-143 | A placement that makes sense and is surely funded, if nothing comes between, places and enqueues its order |
| `Promises.UndisturbedPostCommits` | internal/wallet/service/wallet_service.go:53-87 | A deposit or withdrawal, if nothing comes between its read and its write, is its transaction |
| `Promises.FetchInColumns` | internal/matchingengine/engine.go:80-91 | The loop returns at its first read exactly if the order is closed or nothing of it remains |
| `Promises.ChoiceInColumns` | internal/matchingengine/engine.go:93-99 | It then returns exactly if nothing may be matched, and otherwise goes for the best price and the earliest time |
| `Promises.TradeInColumns` | internal/matchingengine/executor.go:60-174 | The trade commits if it surely pays, ends the loop with an error if it surely fails, and is no match if the orders cannot meet |
| `Promises.LaterReadsInColumns` | internal/matchingengine/engine.go:109-126 | After a trade the loop goes on unless the order is FILLED; after no match it goes on exactly while it is open |
| `Promises.ReturnedOrdersNeverMeet` | internal/matchingengine/engine.go:79-127 | In every interleaving, once loops of two orders have returned without an error those two orders can never be traded with each other |
| `Promises.TakeStartsFirst` | internal/matchingengine/engine.go:52-71 | A free worker starts with the order that has waited longest |
| `Promises.OneLoopPerOrder` | internal/matchingengine/engine.go:52-71 | In every interleaving, with any number of engines, no two loops ever work on one order |
| `Promises.ScheduledCancelsAreOwned` | internal/order/service/order_service.go:173-197 | In every interleaving a cancelled order was cancelled by its owner, or expired |
| `Loop.TurnSpinsExactly` | internal/matchingengine/engine.go:101-118 | On any tables, one turn of the loop brings the whole system back to where it was if and only if nothing remains of the best candidate; otherwise it returns or commits a fill that leaves less of the order |
| `Loop.LoopEndsExactly` | internal/matchingengine/engine.go:79-127 | On any tables, a loop alone ends if and only if it never meets, with work to do, a best candidate of which nothing remains |
| `Loop.UnmatchedIsStuckOrInterference` | internal/matchingengine/executor.go:60-78 | In every schedule, a chosen pair that turns out not to be tradable had a candidate with nothing remaining, or one of its two orders was changed in between |
| `Stalling.TradingTrades` | internal/matchingengine/executor.go:80-172 | For any sound arithmetic a run of deposits, orders and one trade leaves a sell order for 2.2 with 0.1 filled, the first buyer filled, and a second one for 5 |
| `Stalling.TradingStalls` | internal/matchingengine/engine.go:101-118 | If the comparison misses 0.1 + 2.1 = 2.2, the second buyer of that run stalls |
| `Stalling.LastFillSticks` | internal/matchingengine/engine.go:101-118 | After its fill of 2.1, which commits, its loop is stuck and never over |
| `Locks.OneEngineNeverDeadlocks` | internal/matchingengine/executor.go:38-172 | No reachable lock state of one engine with any number of cancellations, deposits and withdrawals has a cycle of waits, over orders, wallets and holdings |
| `Locks.LocksWhatItWrites` | internal/matchingengine/executor.go:38-172 | Every transaction locks exactly the rows that it writes, each once |
| `Locks.WritersExclude` | internal/matchingengine/executor.go:38-58 | Two transactions that have all their locks never write the same row |
| `Locks.HoldingsAreFree` | internal/matchingengine/executor.go:165-172 | Nobody ever waits for a holding row, because whoever wants one already has its owner's wallet |
| `Locks.OrderRowsNeverDeadlock` | internal/matchingengine/executor.go:38-52 | With any number of engines every cycle passes through a wallet row |
| `Locks.OrderedWalletsNeverDeadlock` | internal/matchingengine/executor.go:115-142 | While every running trade has a buyer numbered below its seller, there is no cycle for any number of engines |
| `Locks.TwoEnginesCanDeadlock` | internal/matchingengine/executor.go:115-142 | Two engines reach a state in which each holds the wallet that the other waits for |
| `RateLimiter.RateLimiter.PruneAndCount` | internal/middleware/ratelimit.go:35-42 | The pruned set has exactly as many members as the full history has attempts in the window |
| `RateLimiter.RateLimiter.Request` | internal/middleware/ratelimit.go:29-77 | A request passes if and only if the full history, blocked attempts included, has fewer than the limit in the window |
| `RateLimiter.AttemptsAreCounted` | internal/middleware/ratelimit.go:40-42 | The number that is compared is the number of attempts later than the start of the window and not later than now |
| `RateLimiter.PruningForgetsNothing` | internal/middleware/ratelimit.go:40-46 | Expiry of the key and pruning drop exactly what has left the window |
| `RateLimiter.WindowsRespectLimit` | internal/middleware/ratelimit.go:55-76 | Every half-open window of the configured length holds at most the limit of passed requests |
| `Hub.Hub.Subscribe` | internal/websocket/hub.go:77-87 | Both directions gain the pair, remain exact inverses, and nothing else changes |
| `Hub.Hub.ValidMeansInverses` | internal/websocket/hub.go:77-118 | A client has a topic exactly if the topic has the client, and no topic has an empty set |
| `Hub.Hub.Unsubscribe` | internal/websocket/hub.go:90-102 | Both directions lose the pair, remain exact inverses, and no topic is left empty |
| `Hub.Hub.RemoveFromAll` | internal/websocket/hub.go:109-116 | The client leaves exactly the given topics, and emptied topics disappear |
| `Hub.Hub.UnsubscribeAll` | internal/websocket/hub.go:105-118 | The client appears under no topic, everybody else stays, and the directions remain inverses |
| `Binary.RoundingExists` | pkg/decimal/decimal.go:33-42 | Every number has a rounding to p bits |
| `Binary.RoundTrip` | internal/wallet/service/wallet_service.go:255-262 | Parsing and formatting with p bits is the identity on eight decimals below 2^(p-27), which is 2^37 for the services |
| `Binary.RoundTripBreaks` | internal/wallet/service/wallet_service.go:255-262 | Two units above 2^37 the 64-bit round trip already returns another value |
| `Binary.NumericRoundTrip` | pkg/decimal/decimal.go:33-82 | At 128 bits the round trip is the identity on all of NUMERIC(20,8) |
| `Binary.RoundingIsIdempotent` | pkg/decimal/decimal.go:84-97 | A rounded value is a fixed point of rounding |
| `Binary.RoundsMonotone` | pkg/decimal/decimal.go:84-97 | Rounding keeps the order of numbers |
| `BinaryMoney.DepositIsExact` | internal/wallet/service/wallet_service.go:59-69 | Below 2^35 a deposit of at most eight decimals stores the exact decimal sum and the exact amount |
| `BinaryMoney.WithdrawalIsExact` | internal/wallet/service/wallet_service.go:124-131 | Below 2^35 sufficiency is decided exactly and the exact difference is stored |
| `BinaryMoney.SumIsNear` | internal/wallet/service/wallet_service.go:59-61 | Whatever its decimals, a deposit's sum is off by at most three roundings of the largest power of two in it |
| `BinaryMoney.DifferenceIsNear` | internal/wallet/service/wallet_service.go:124-131 | The same of a withdrawal's difference |
| `BinaryMoney.CostIsExact` | internal/matchingengine/executor.go:83-84 | With 120 bits or more a cost that is no tie is posted exactly rounded, over the whole column range |
| `BinaryMoney.CostAgrees` | internal/cronjobs/settlement.go:30-33 | At any precision and size, a cost farther from a half unit than five roundings of itself is formatted as the exact one |
| `BinaryMoney.TradeBalancesAreExact` | internal/matchingengine/executor.go:120-149 | At 128 bits both balances after a trade whose cost is no tie are the exactly rounded ones |
| `BinaryMoney.FundsAreToldApart` | internal/matchingengine/executor.go:120-122 | At 128 bits funds below the cost are refused and funds above it accepted, for every cost, ties included |
| `BinaryMoney.EqualFundsPass` | internal/matchingengine/executor.go:120-122 | Funds equal to the cost are accepted if and only if the product of the two parsed numbers is not larger than the cost, or rounds back to it |
| `BinaryMoney.EqualFundsPassOnDyadics` | internal/matchingengine/executor.go:120-122 | They are always accepted if price and quantity are multiples of 1/256 |
| `BinaryMoney.ComparisonsAreExact` | internal/matchingengine/matcher.go:19-36 | Stored prices and quantities compare in binary exactly as they do in decimals |
| `BinaryMoney.StatusIsNeverEarly` | internal/matchingengine/matcher.go:43-48 | A fill that leaves a unit or more is never taken for the last |
| `BinaryMoney.LastFillIsNoticedAbove` | internal/matchingengine/matcher.go:43-48 | A last fill is noticed whenever the two parsed numbers add up to the whole quantity or more |
| `BinaryMoney.FirstFillIsNoticed` | internal/matchingengine/matcher.go:43-48 | An order filled by a single trade is marked FILLED |
| `BinaryMoney.StatusIsExactOnDyadics` | internal/matchingengine/matcher.go:43-48 | If the quantities are multiples of 1/256, whole numbers among them, the comparison marks an order FILLED if and only if nothing remains |
| `BinaryMoney.ReconciliationDecides` | internal/cronjobs/reconciliation.go:43-60 | Below 2^35 and of whatever sign, equal balance and sum are never reported, and two units of difference always are |
| `BinaryMoney.AuditCostIsExact` | internal/cronjobs/settlement.go:30-33 | For costs below 256 that are no tie, the 64-bit cost is the exactly rounded one |
| `BigFloat.CodeIsSound` | internal/wallet/service/wallet_service.go:244-262 | The 64- and 128-bit arithmetic of the code keeps every error bound that the theorems about runs assume |
| `Findings.DepositsDriftLittle` | internal/wallet/service/wallet_service.go:59-69 | Below 2^35 a deposit of any amount puts at most one unit between balance and row, and none if the amount is 0.3 units or more away from a half unit |
| `Findings.WithdrawalsDriftLittle` | internal/wallet/service/wallet_service.go:124-139 | The same of a withdrawal |
| `Findings.WholeUnitsNeverDrift` | internal/wallet/service/wallet_service.go:59-69 | An amount of at most eight decimals never drifts: row and balance are exact |
| `Findings.WholeUnitsAreCovered` | internal/wallet/service/wallet_service.go:124-131 | Below 2^35 an amount of at most eight decimals is covered exactly if the balance is at least as large |
| `Findings.TypedWithdrawal` | internal/wallet/service/wallet_service.go:109-157 | A withdrawal of such an amount is possible exactly if the wallet is there and holds it, and leaves exactly the difference and one row |
| `Findings.TypedDeposit` | internal/wallet/service/wallet_service.go:44-87 | A deposit of such an amount is possible exactly if the wallet is there, and adds exactly the amount and one row |
| `Findings.DyadicDriftExactly` | internal/wallet/service/wallet_service.go:59-69 | On balances that are multiples of 1/256 and amounts that are multiples of 1/512, a deposit drifts if and only if it is a tie onto an odd balance, and in which direction |
| `Findings.DriftWithoutTie` | internal/wallet/service/wallet_service.go:59-69 | 0.45 units onto 12000000000.00000013 move the balance by one unit and write a row of zero |
| `Findings.TwoTiesRaiseAlarm` | internal/cronjobs/reconciliation.go:28-60 | Any run with two such ties on odd multiples of 1/256 gets its wallet reported |
| `Findings.FourDepositsRaiseAlarm` | internal/wallet/service/wallet_service.go:53-87 | Deposits of 0.00390625, 0.001953125, 0.00585937 and 0.001953125 into an empty wallet get it reported |
| `Findings.LastFillIsMissed` | internal/matchingengine/executor.go:101-113 | The engine's comparison does not see that 0.1 and 2.1 complete an order for 2.2 |
| `Findings.MissedFillStalls` | internal/matchingengine/engine.go:101-118 | An order for 2.2 with 0.1 filled stalls every order in whose queue it is first and that wants more than 2.1 |
| `Findings.CodeStalls` | internal/matchingengine/engine.go:79-127 | The code reaches that: after a run of three wallets, two deposits, three orders and one trade the third order stalls |
| `Findings.CodeLoopsForEver` | internal/matchingengine/engine.go:79-127 | And one fill later the loop of that order is never over |
| `Findings.CodeNotices` | internal/matchingengine/matcher.go:43-48 | The engine's comparison notices every last fill among multiples of 1/256 |
| `Findings.CodeStatusesAreExact` | internal/matchingengine/matcher.go:43-48 | In every run of the code whose orders are for such multiples, whole numbers among them, FILLED means not cancelled and nothing remaining, open means something remaining, and no order stalls |
| `Findings.ExactFundsAreRefused` | internal/matchingengine/executor.go:120-125 | The engine refuses 0.9 for a trade of 3 at 0.3 |
| `Findings.ExactFundsArePaid` | internal/matchingengine/executor.go:120-125 | Funds of exactly the cost pass the engine's check if the product of the parsed numbers is not too large, and always on multiples of 1/256 |
| `Findings.OneUnitIsReported` | internal/cronjobs/reconciliation.go:56-60 | The job reports 1.00000001 against rows of 1 |
| `Findings.JobsAgreeFarFromHalf` | internal/cronjobs/settlement.go:30-33 | Job and engine compute the exactly rounded cost whenever it is farther from a half unit than 5 * 2^-64 of itself |
| `Findings.FarTradesVerify` | internal/cronjobs/settlement.go:29-68 | After every run of the code whose trades are all that far from a half unit, the job reports nothing |
| `Findings.JobsDisagreeOnTie` | internal/cronjobs/settlement.go:30-33 | For 0.00000002 at 0.25 the engine posts nothing and the job looks for one unit |
| `Findings.HealthyTradeIsReported` | internal/cronjobs/settlement.go:29-68 | The job counts that trade twice although both its rows are there |
| `Findings.JobsDisagreeWithoutTie` | internal/cronjobs/settlement.go:30-33 | For 100000.56999999 at 0.07000001, which is no tie, the job looks for one unit more than the engine posted |

## Left out

- Which way the code rounds a trade whose cost is an exact half unit: row, debit and credit are each bounded to half a unit, not predicted.
- BinaryMoney.StatusIsNeverEarly: one direction; for quantities off the grid of 1/256 whether the last of several fills is noticed depends on the binary rounding of three numbers, and is settled only where `LastFillIsNoticedAbove` or `FirstFillIsNoticed` applies.
- BinaryMoney.ReconciliationDecides: says nothing about a difference of exactly one unit, which goes either way, or about numbers of 2^35 or more.
- Findings.DyadicDriftExactly: an if-and-only-if for sums that are exact in binary; for other amounts near a half unit only the bound of one unit is proved.
- Engine.Engine.ProcessOrder: one precision of the database's division for the whole call, and no other writer; under interference termination is not claimed.
- Loop.LoopEndsExactly: no other writer and no failing call.
- Store.Database.PostToWallet: one method for what `Deposit`, `Withdraw` and both halves of a trade each spell out.
- Store.Database.PlaceOrder: numbers arrive parsed, or as a failure to parse; one failed call is not told apart from another.
- RateLimiter.RateLimiter.Request: one atomic pipeline on a strictly increasing clock with a positive window and a limit that is not negative; the fail-open path, floating-point scores and the rounding of the key's expiry to whole seconds are not modelled.
- Locks.OneEngineNeverDeadlocks: the expiry job, which locks rows in no stated order, is excluded; a trade locks a holding by user and asset, whether or not the row exists yet.
- Order ids are positions in the table, so gaps in the sequence do not appear, and a wallet is named by its owner.
- Orders of equal price and creation time are ranked by id, where the query leaves their order open.
- It is not claimed that every order is matched or every match funded: a full queue drops an order and nothing is reserved at placement.
- Infinite amounts, which the parser accepts, and amounts too long for the database are not modelled beyond the column limits.
- Foreign keys, isolation anomalies and a commit whose outcome is unknown: a committed transaction is one step, a failed commit no change.
- Kafka, Redis prices, notifications, metrics and logging, which nothing in the core reads back.
- HTTP handlers, authentication, validation, pagination, the asset service, admin queries and health checks: they do not write the tables modelled here.
- The later migrations, whose schema is not the one that the repositories use.
- The hub's event loop and its full-buffer branch, and data races on the maps.
