# A verified model of the LS-LMSR prediction market

The system lets users spend points on UP or DOWN shares of football players.  Prices come
from a liquidity-sensitive LMSR market maker, `C(q_up, q_down) = b ln(e^(q_up/b) + e^(q_down/b))`,
whose liquidity `b = max(b_floor, b_min + alpha (q_up + q_down))` moves with the shares
outstanding.  On top of it run a trading engine under row locks, a worker that ratchets
`b_min` and rescales the shares, tournaments that value and rank portfolios, and an oracle
that turns statistics into ratings.  This project models those parts and proves what they
keep, up to statements about whole runs and about every interleaving of transactions.

`dafny verify dfyconfig.toml` checks everything.

## Layout

| file | content |
|---|---|
| `ExpLn.dfy` | the exponential and logarithm, and what follows from three laws |
| `Lmsr.dfy`, `LmsrTheory.dfy` | the pricing functions; closed form, convexity, prices |
| `BudgetTheory.dfy` | what a budget buys at fixed `b`; the exponent clamp; price impact; the dynamic floor |
| `LiquidityTheory.dfy` | what happens when `b` moves: block costs, drift, resale, tranches, recalibration, rating, seeding |
| `Arithmetic.dfy`, `Decimals.dfy`, `Sums.dfy` | shared real arithmetic; quantisation to ticks; sums over tables |
| `Trading.dfy`, `TradeTheory.dfy` | buy, sell and preview on values, and what one trade means |
| `Exchange.dfy` | the same engine as mutable rows updated in place, with the recalibration worker |
| `Calibration.dfy`, `Fairness.dfy` | the liquidity target and the ratchet; what a recalibrated row does to rating and refunds |
| `Economy.dfy`, `History.dfy`, `Seeding.dfy` | whole runs: ledger, solvency, cost basis, rating history; the market row an import writes |
| `Minting.dfy`, `Drift.dfy`, `MintingRuns.dfy` | conservation at constant `b`; the general law when `b` moves; runs that mint |
| `Locking.dfy` | concurrent transactions under the two row locks |
| `Valuation.dfy` | the simple and the batch portfolio valuation |
| `Tournament.dfy`, `TournamentLaws.dfy`, `TournamentDesk.dfy`, `Leaderboard.dfy` | tournaments on values, their rules field by field, the workers and endpoints as they run, the leaderboard |
| `Oracle.dfy`, `OracleLaws.dfy` | the three-layer rating; what each layer answers exactly |

## How things are represented

- Floats are exact reals.  Decimals are integers in ticks: 1e-6 for shares and prices, 1e-4
  for ratings and `b_min`.  Every quantisation the code performs is kept: truncation in
  `_d6`, half-even elsewhere.
- `exp` and `ln` are a value `m: Maths` that every pricing function receives.  Theorems
  assume `Valid(m)`: `Exp(x+y) = Exp(x) Exp(y)`, `Exp(x) >= 1 + x`, and `Exp(Ln(y)) = y` for
  `y > 0`.  The true functions satisfy these; Dafny's reals have no completeness axiom from
  which to construct them, so they are a parameter and not an axiom.  `log1p` is `Ln(1 + x)`
  and the square root is `Exp(Ln(x)/2)`.
- An economy is six tables (`Trading.State`).  A trade is planned from the rows it reads
  (`PlanBuy`, `PlanSell`) and its writes applied at once (`Apply`).  The row classes of
  `Exchange` do the same in place, branch by branch, and are proved equal to that.
- The dynamic floor, the clock, identifiers and the outcome of invite-code lookups are inputs.
- `NoLiquidity` stands for a non-positive effective `b`, where the code would divide by zero
  or by a negative number; no reachable state gets there (`TradeTheory.PositiveMarketB`,
  `Economy.OwnersCanAlwaysExit`).

## Where the code and its documentation differ

The model follows the code.

- A buy sold straight back can return more than its budget, because `b` grew in between.
  `LiquidityTheory.ImmediateResaleExactly` says exactly when, from the inputs of the buy: when
  the budget is less than the lead of the other side and the floor does not outlast the buy.
  `TradeTheory.ResaleProfits` gives two trades of the engine that turn 1000 points into
  more than 1300.
- `b` is fixed within each trade to keep the budget balanced (`app/core/trading.py:118-124`),
  but not between trades.  What a run can mint is bounded by ln 2 times the movement of `b`
  plus the gifts of recalibration (`Drift.MintedAtMost`; a gift is at most the shares the
  recalibration adds, `Drift.GiftAtMost`), and both directions of movement can mint.  By a
  rise, one user alone can mint without bound (`MintingRuns.MintingWithoutBound`); by a fall,
  the dynamic floor does as users join (`MintingRuns.FallingFloorMints`).
- Recalibration promises an unchanged rating (`app/workers/calibration.py:7-10`).  It keeps
  the rating and the refunds as valued without the floor, and as traded wherever the floor
  does not decide `b`; under a floor that decides `b` the price moves strictly away from
  balance (`LiquidityTheory.RecalibrationUnderFloor`), and a holder of the weaker side is paid
  less for the same shares (`Fairness.HolderLoses`, at the default settings and two hundred
  users).
- The clamp at -1e-15 before log1p is described as a precision guard.  In every market the
  code creates it never acts, whatever the budget (`TradeTheory.NeverClamped`), because alpha
  is 0.05.  With a smaller alpha it can act (`BudgetTheory.ClampCanAct`), and then the trade
  moves the cost by more than the budget (`BudgetTheory.CostAtTarget`).
- `initialize_market` promises to reproduce `r_base` to 1e-9; it does so exactly for `r_base`
  in [0.01, 9.99] and otherwise seeds the nearer end (`LiquidityTheory.SeedingClamps`).
- The seed promises that the market shows the imported rating.  It does so at `b_min`; trades
  are priced at the effective `b`, which is larger as soon as there are shares, so the first
  trade finds a rating strictly nearer to 5 (`Seeding.SeedFades`), at the default floor 5.2 or
  less for a seed of 8 (`Seeding.SeedOfEightFades`).
- `calibrate_b_min` is described as always positive; it is 0 exactly when there are no users
  (`Calibration.TargetPositiveExactly`).
- Layer 1 of the oracle is described as clamped to [3, 10]; it is not
  (`Oracle.Layer1IsUnclamped`).  The clamp in Layer 2 is there but never acts
  (`Oracle.RatingRange`).
- Importing a player again appends the seed rating to the rating history although the market
  keeps its own, so the newest entry stops matching the market unless the two happen to be
  equal (`History.StepRecords`).
- The MF and DF weight tables of the oracle add up to 1.10; the composite divides by the
  weight used, so parity with the default is unaffected (`Oracle.CompositeParity`).

## Model

| member | source | states |
|---|---|---|
| LmsrTheory.CostIsUnshifted | app/core/lmsr.py:17-26 | the max-shifted evaluation equals b ln(exp(q_up/b) + exp(q_down/b)) |
| LmsrTheory.CostBounds | app/core/lmsr.py:107-115 | the cost lies in (max q, max q + b ln 2] |
| LmsrTheory.CostTranslate | app/core/lmsr.py:107-115 | adding t complete sets (one share of each side) costs exactly t |
| LmsrTheory.CostHomogeneous | app/core/lmsr.py:107-115 | scaling both q and b by k scales the cost by k and leaves the price alone |
| LmsrTheory.CostTangent | app/core/lmsr.py:107-115 | convexity: every tangent lies below the cost, strictly away from its point |
| LmsrTheory.SlippageSandwich | app/core/lmsr.py:122-175 | the cost of a block lies strictly between its size times the price before and the price after, is positive and below its size; prices rise along it |
| LmsrTheory.RatingIsPrice | app/core/lmsr.py:182-202 | the rating is ten times the marginal UP price, strictly inside (0, 10); its clamp never acts (INV-01) |
| BudgetTheory.DownMirrorsUp | app/core/lmsr.py:122-175 | DOWN buys and sells are UP ones on the mirrored market |
| BudgetTheory.CostAtTarget | app/core/lmsr.py:137-146 | the holding after a buy costs at least the budget more, and exactly the budget if and only if the clamp is idle |
| BudgetTheory.BudgetInversion | app/core/lmsr.py:137-146 | untruncated shares are positive and move the cost by exactly the budget if and only if the clamp is idle |
| BudgetTheory.ClampIdleWhen | app/core/lmsr.py:133-145 | the clamp is idle for budgets of at least 1e-15 b, and for every budget unless the other side leads by more than 20 b |
| BudgetTheory.ClampNeverActs | app/core/lmsr.py:99-145 | with alpha at least 0.05 the clamp is idle at the state's own b, under any floor, for every positive budget |
| BudgetTheory.ClampCanAct | app/core/lmsr.py:137-146 | with alpha 0, b 1 and 64 opposite shares, a budget of 1e-16 is clamped and the grant is worth more than it paid |
| BudgetTheory.TruncatedSpend | app/core/trading.py:179-187 | dropping less than `loss` shares under-spends the budget by less than `loss` |
| BudgetTheory.PriceImpact | app/core/lmsr.py:137-146 | a buy multiplies the opposite price by exactly exp(-budget/b), so its own price rises, by at most (1 - price) budget / b |
| BudgetTheory.FloorBoundsImpact | app/core/lmsr.py:53-77 | with b at or above the floor, b >= b_base and a buy moves the price by at most budget / b_base |
| BudgetTheory.FloorExactly | app/core/lmsr.py:75-77 | floor times effective users equals b_base times the larger of effective users and the target population |
| BudgetTheory.FloorFalls | app/core/lmsr.py:59-77 | more users never raise the floor; at or below n_min they do not move it; it equals b_base exactly from the target population on |
| LiquidityTheory.ThreeChords | app/core/lmsr.py:107-115 | average prices of adjacent blocks are ordered |
| LiquidityTheory.BlockCostAgainstB | app/core/lmsr.py:80-115 | when b grows, the cost of a fixed block falls if and only if its middle is past balance, and stays if and only if it is at balance |
| LiquidityTheory.CostDrift | app/core/lmsr.py:107-115 | when b grows to b2 the cost of the shares outstanding rises by at least 0 and at most (b2 - b) ln 2 |
| LiquidityTheory.MiddleByBudget | app/core/lmsr.py:137-146 | the middle of the block a budget buys is past, at or short of balance exactly as the budget exceeds, equals or falls short of the lead of the other side |
| LiquidityTheory.ResaleExact | app/core/lmsr.py:122-175 | a buy sold back at a larger b refunds at most the budget if and only if b did not grow or the budget is at least the lead of the other side; at the same b it refunds the budget exactly |
| LiquidityTheory.BStaysExactly | app/core/lmsr.py:99-100 | from the inputs of a buy: b is the same after it if and only if the floor decided it before and the budget does not reach the holding at which the natural b overtakes the floor |
| LiquidityTheory.ImmediateResaleExactly | app/core/lmsr.py:80-175 | with b recomputed by the code, an immediate resale refunds at most the budget if and only if the budget is at least the lead of the other side or the floor outlasts the buy |
| LiquidityTheory.ResaleOfTruncated | app/core/trading.py:179-187 | the upper bound for any part of the affordable shares whose middle is not short of balance |
| LiquidityTheory.ResaleShortOfBalance | app/core/trading.py:179-187 | the converse up to the quantum: short of balance, or at the same b, the resale of a truncated grant returns more than the budget less the truncation |
| LiquidityTheory.TargetAdds | app/core/lmsr.py:122-146 | at fixed b, spending in two parts reaches the same holding as spending at once |
| LiquidityTheory.SplitExactly | app/core/lmsr.py:80-146 | on either side of balance: two tranches, the second at a larger b, yield more than, as much as or less than one trade exactly as the first exceeds, equals or falls short of the cost of the way to a lag of the size of the second; at the same b exactly as much |
| LiquidityTheory.SplittingNeverLoses | app/core/lmsr.py:80-146 | on the favoured side k tranches, each at its own recomputed b, yield at least the shares of one trade, and exactly as many if and only if the last tranche still finds the first b |
| LiquidityTheory.SplittingAtConstantB | app/core/lmsr.py:80-146 | whenever b ends where it began, as it does while the floor still dominates at the end, splitting changes nothing |
| LiquidityTheory.SplittingCanLose | app/core/lmsr.py:80-146 | with b_min 100, alpha 0.05, floor 10000 and two million DOWN shares, two UP buys of 500 points yield fewer shares than one of 1000 |
| LiquidityTheory.TargetMono | app/core/lmsr.py:122-146 | on the favoured side a larger holding or a larger b leads to at least the same holding after the same budget |
| LiquidityTheory.PositiveB | app/core/lmsr.py:80-100 | INV-04: the effective b is at least b_min for non-negative q |
| LiquidityTheory.RecalibrationIsFair | app/workers/calibration.py:79-91 | priced without the floor, as portfolios are valued: scaling b_min and both q by k > 1 leaves the rating unchanged and moves the refund of an unscaled holding strictly into (old, k old) |
| LiquidityTheory.RecalibrationUnderFloor | app/workers/calibration.py:7-10 | priced with any floor, as trades are: the scaling leaves the price alone if and only if the market is balanced or the floor is at most the old natural b; otherwise it moves strictly away from balance |
| LiquidityTheory.RefundByImbalance | app/core/lmsr.py:153-175 | at one b the refunds of equal holdings are ordered exactly as the imbalances of their markets |
| Fairness.RecalibratedRefund | app/workers/calibration.py:79-91 | on the quantised row, at the b of a sale: with a floor at most the old natural b, the refund of an unscaled holding lies within [old, k old] up to 2 (1e-6 + 5e-5 + alpha 1e-6); with a floor at or above the new one, it falls, stays or rises exactly as the imbalance in ticks does |
| Fairness.ImbalanceGrows | app/workers/calibration.py:86-91 | the quantised scaling never moves the imbalance of the row back towards balance, and moves it away by a tick or more unless (k - 1) times the lead is within 1e-6 |
| Fairness.HolderLoses | app/workers/calibration.py:42-100 | a market of b_min 100 that the default configuration recalibrates at two hundred users, where the sale of 1000 UP shares then pays more than 50 points less |
| Fairness.RecalibratedRating | app/workers/calibration.py:79-91 | on the quantised row, at the b of a trade: with a floor at most the old natural b the rating moves by at most 10 (1e-6 + 20 (5e-5 + alpha 1e-6)) / b; with a floor at or above the new one it moves exactly as the imbalance in ticks does |
| Fairness.RatingNearExact | app/workers/calibration.py:79-91 | at any floor the rating of the quantised row is within the same distance of that of the exact multiples, to which `RecalibrationUnderFloor` applies |
| Fairness.WeightClose | app/core/lmsr.py:182-202 | the price moves by at most the change of the imbalance in units of b |
| LiquidityTheory.RelativeImbalanceGrows | app/core/lmsr.py:80-100 | (own - other)/b strictly grows with own although b grows too, under any floor |
| LiquidityTheory.RatingFollowsShares | app/core/lmsr.py:182-202 | the rating at the state's own b is strictly increasing in q_up and strictly decreasing in q_down, under any floor |
| LiquidityTheory.SeedingRoundTrip | app/core/lmsr.py:209-230 | for r in [0.01, 9.99] the rating of the seeded market is exactly r, both q are non-negative and one is zero |
| LiquidityTheory.SeedingClamps | app/core/lmsr.py:221-222 | for every r the seeded market shows r clamped to [0.01, 9.99] |
| Decimals.D6Exact | app/core/trading.py:44-46 | `_d6` of a non-negative number is the only tick count n with n <= x < n + 1 ticks |
| Decimals.HalfEvenExactly | app/core/trading.py:49-51 | `quantize` gives the nearest multiple, and of two nearest the even one |
| TradeTheory.NeverClamped | app/core/lmsr.py:137-146 | the exponent clamp never acts on a market with at least the default alpha, under any floor, however small the budget |
| TradeTheory.GrantIsLargest | app/core/trading.py:176-187 | the shares granted are the largest number of micro-shares the budget covers; less than a micro-point goes unspent |
| TradeTheory.ZeroSharesExactly | app/core/trading.py:190-201 | INV-10: the zero-share refusal happens exactly when the budget does not cover one micro-share |
| TradeTheory.BuySucceedsExactly | app/core/trading.py:131-201 | a buy goes through exactly when the portfolio, the player and the market exist, the player is active, the balance covers the budget and the budget covers one micro-share |
| TradeTheory.PreviewPredictsBuy | app/core/trading.py:465-515 | the preview quotes the shares, cost and rating of the buy on the same market; a buy it quotes shares for fails only for reasons of portfolio, player or balance |
| TradeTheory.SharesMoveRating | app/core/trading.py:206-219 | adding shares to a side moves the exact rating strictly that way and the 4-decimal rating never the other way |
| TradeTheory.BuyMovesRating | app/core/trading.py:206-224 | recorded ratings of a buy are ordered by its direction, in range, and the market shows the one recorded |
| TradeTheory.SellMovesRating | app/core/trading.py:396-417 | the same for a sell, in the opposite direction |
| TradeTheory.BuyRecordsPrices | app/core/trading.py:206-224 | rating_before of a buy is ten times the UP price of the market it found, at the b it was priced with, rounded half to even to 4 decimals; rating_after and the market's rating are that of the moved market at its own recomputed b |
| TradeTheory.SellRecordsPrices | app/core/trading.py:396-417 | the same for a sell |
| TradeTheory.PreviewShowsPrice | app/core/trading.py:501-515 | the previewed rating is ten times the price after the shares it quotes, at that market's own b |
| TradeTheory.BuyRefusedExactly | app/core/trading.py:131-201 | each refusal of a buy exactly, in the order of the checks |
| TradeTheory.RefundIsCostReleased | app/core/trading.py:398-409 | the refund before truncation is the cost released, lying strictly between the shares at the price after and at the price before |
| TradeTheory.ImmediateResaleNeverProfits | app/core/trading.py:176-422 | buying and selling the grant straight back always goes through, restores the market's and the user's share counts and never ends with more points when the side bought is not behind, or the budget covers its lag to within a micro-point, or the floor outlasts the buy |
| TradeTheory.ImmediateResaleLosesNothing | app/core/trading.py:176-422 | conversely, with a budget below the lag of its side, or at an unmoved b, the round trip ends with more than the initial points less two micro-points |
| TradeTheory.ResaleProfits | app/core/trading.py:176-422 | in a far market, at any floor the natural b has overtaken, two trades of the engine turn 1000 points into more than 1300 and leave the market as it was |
| TradeTheory.ResaleCanProfit | app/core/trading.py:176-422 | so the grant of a user, spent and sold back at once, can come back as more than 1300 points |
| TradeTheory.BothSidesPayMore | app/core/trading.py:398-409 | at one b, selling shares of both sides pays strictly more than the two refunds separately, and the same in either order |
| TradeTheory.BuyPriceAccounts | app/core/trading.py:272-281 | the price per share recorded for a buy times its shares is at most its cost and short of it by less than 1e-6 per share |
| TradeTheory.SellPriceAccounts | app/core/trading.py:433-444 | the same for a sell, whose refund is truncated apart from its price, to within one micro-point more |
| TradeTheory.BasisAfterBuy | app/core/trading.py:236-267 | shares times average entry price takes up the budget, losing less than 1e-6 per share now held |
| Exchange.Exchange.constructor | app/models/market_state.py:18-45 | the empty database, with a row of its own for every key |
| Exchange.Exchange.Register | app/dependencies.py:87-95 | a first request inserts a portfolio with the grant, a later one changes nothing |
| Exchange.Exchange.Import | app/workers/player_import.py:281-318 | activates the player, inserts the seeded market unless there is one, and appends the seed rating to the history |
| Seeding.ImportedMarket | app/workers/player_import.py:291-318 | the row of a new market, for an oracle rating in [0.01, 9.99]: ten times the price of its rounded holdings at b_min is within 5e-6 / b_min of the rating, its rating column is that rating half-up to 4 decimals, and only the side the rating favours holds shares |
| Seeding.SeedFades | app/core/lmsr.py:209-230 | at the effective b, under any floor, the price of the seed lies strictly between balance and the rating, unless that is 5 |
| Seeding.SeedOfEightFades | app/core/lmsr.py:209-230 | at a floor of 10000 or more, a seed of 8 on a b_min of 100 is priced at 5.2 or less |
| Exchange.Exchange.ExecuteBuy | app/core/trading.py:101-298 | the row-updating buy, branch by branch: the resulting tables and the answer are those of the atomic buy; a refusal changes nothing; the receipt is what changed hands on the user's and the market's rows, with the ratings of the one ledger and history entry added |
| Exchange.Exchange.ExecuteSell | app/core/trading.py:306-457 | the row-updating sell, likewise; is_active is not read and the average entry price is kept |
| Exchange.Exchange.LiquidityRecalibration | app/workers/calibration.py:42-100 | the worker rescales exactly the markets whose b_min is below the target, leaves every other table alone and counts them; without a config row, or on invalid input, it changes nothing |
| Exchange.Exchange.RecalibrateRow | app/workers/calibration.py:76-93 | one market row, in place: skipped at or above the target, otherwise b_min and both q rewritten |
| Calibration.RatchetOnlyRises | app/workers/calibration.py:79-91 | b_min and both q never fall; a market at or above the target is untouched; each scaled value is within half a tick of the exact one |
| Calibration.RatchetRoundsEven | app/workers/calibration.py:86-91 | each column of a rescaled row is the exact value rounded half to even to its own precision |
| Calibration.TargetSquared | app/core/calibration.py:48-49 | target squared times n_reference equals base squared times users |
| Calibration.TargetScalesWithRoot | app/core/calibration.py:18-24 | the target is strictly increasing in users, equals the base at the reference population, and doubles when users quadruple |
| Calibration.TargetPositiveExactly | app/core/calibration.py:33-34 | the target is positive exactly when there are users |
| Calibration.CalibrationRefuses | app/core/calibration.py:43-46 | the arguments are refused exactly if n_reference is not positive or the users are negative |
| Economy.SellIsFaithful | app/core/trading.py:352-444 | in a sound state every committed sell writes rows that agree with its ledger entry, keeps the average and leaves nothing negative |
| Economy.BuyIsFaithful | app/core/trading.py:211-284 | every committed buy writes rows that agree with its ledger entry and leaves nothing negative |
| Economy.StepKeepsInv | app/core/trading.py:206-444 | registrations, imports, deactivations, buys, sells and recalibrations keep markets valid with their default alpha, balances and holdings non-negative and explained by the ledger, ledger rows pointing at existing users and markets, every share covered by its market, and the cost basis within its drift bound |
| Economy.ReachableStates | app/core/trading.py:229-284 | from the empty database, every run keeps all of that: folding a portfolio's trades from its grant gives its points and holdings exactly, and after n buys without a sell, points spent minus shares times average lie in [0, n 1e-6 shares] |
| Economy.OwnersCanAlwaysExit | app/core/trading.py:337-390 | in every sound state a sell succeeds if and only if the seller owns that many shares, active player or not, under any floor, and each refusal has its exact reason; the dust buffer never refuses |
| Economy.DeactivationIsCloseOnly | app/workers/player_import.py:454-465 | a deactivated player cannot be bought and is sold as before, nothing else changes, and an import lifts it |
| Economy.RegistrationGrants | app/dependencies.py:87-95 | a new user starts with 1000 points, once |
| History.StepRecords | app/core/trading.py:289-291 | every step keeps each market's rating equal to its newest history entry and all entries in [0, 10]; a repeated import does so exactly when its seed rating equals the market's |
| History.RunRecords | app/workers/player_import.py:281-318 | the same over every run without repeated imports |
| Minting.BuyIsBooked | app/core/trading.py:176-229 | a buy pays its market the cost difference plus less than a micro-point |
| Minting.SellIsBooked | app/core/trading.py:398-422 | a sell takes from its market the cost difference minus less than a micro-point |
| Minting.SteadyRunBalances | app/core/trading.py:176-422 | over any run with each market at constant b, imports of new players included: budgets minus refunds lie in [C(q) - C(q0), C(q) - C(q0) + trades 1e-6] per market, and in total with the seeds of new markets added |
| Drift.RunAccounted | app/core/trading.py:176-422 | over every run, recalibrations and any floors included: budgets minus refunds of a market are its cost difference, each end at its own b, less the summed drift of the cost in b and the gifts of recalibration, to within 1e-6 per trade |
| Drift.AuditPlausible | app/core/lmsr.py:80-115 | the summed drift is at most ln 2 times the total rise of b and at least minus ln 2 times its total fall; gifts are never negative |
| Drift.RunConserves | app/core/trading.py:229-422 | over every run users' points and all markets' takings together change only by grants |
| Drift.MarketMintsAtMost | app/core/trading.py:176-422 | a market none of whose shares are held pays out, net, at most the gifts plus ln 2 times the larger of the total rise and total fall of its b |
| Drift.MintedAtMost | app/core/trading.py:229-422 | over every run from a state without shares held, all cash exceeds the initial cash plus the grants by at most the sum of those bounds |
| Drift.GiftAtMost | app/workers/calibration.py:84-91 | what a recalibration adds to the cost is at most the shares it adds to the two sides |
| Drift.PointsNeverMinted | app/core/trading.py:229-422 | the case without drift: with each market at constant b, no market, old or imported on the way, refunds more than it took in and all cash never exceeds the initial cash plus the grants |
| Drift.CashNeverExceedsGrants | app/core/trading.py:229-422 | the same from the empty database: all cash never exceeds the grants |
| MintingRuns.MintingWithoutBound | app/core/trading.py:176-422 | from any sound state with a far market, at least a hundred users and one of them able to spend 1000 points: for every n, 2n orders of that user at the floor of the users there are leave at least 300 n points more |
| MintingRuns.RunThatMints | app/core/trading.py:176-422 | in particular from a hundred users with nothing but their grants |
| MintingRuns.FallingFloorMints | app/core/lmsr.py:59-77 | from the empty database, every order at the floor of the users there are: registration, import, a buy at 200000, ninety-nine registrations, the sale at 10000; then points exceed the grants by more than 2 although b never rose |
| Locking.AdvanceKeepsInv | app/core/trading.py:126-167 | every lock, check, plan and commit step keeps: locks exclusive, what was read still current, tables equal to the atomic replay of the commits |
| Locking.InterleavingsAreAtomic | app/core/trading.py:131-298 | every interleaving of buys and sells ends in the state of running the committed ones atomically in commit order, each succeeding; the others have changed nothing |
| Locking.AbortIsJustified | app/core/trading.py:139-201 | a transaction that gives up would have been refused atomically at that moment with the same error |
| Locking.SomeoneCanStep | app/core/trading.py:7-8 | INV-05: while a transaction is unfinished, some transaction can step (no deadlock) |
| Locking.CanFinish | app/core/trading.py:131-167 | every situation can be run to completion of all transactions, in at most five steps each |
| Locking.ConcurrentTradingIsSound | app/core/trading.py:131-457 | every interleaving keeps the economy's ledger, solvency and cost-basis invariant |
| Valuation.CalculateTotalValue | app/core/portfolio.py:25-71 | the summing loop yields points plus the 6-decimal refund of each open position with a market, or fails without a portfolio |
| Valuation.GroupByPortfolio | app/workers/tournaments.py:155-158 | the setdefault loop gives each user exactly the filtered list of that user's rows, in order |
| Valuation.ComputeMemberValue | app/workers/tournaments.py:46-71 | the summing loop adds the 4-decimal refunds of the rows with a market and rounds the total |
| Valuation.BatchValues | app/workers/tournaments.py:123-166 | fetching, grouping and summing yields each user's batch value |
| Valuation.BatchRefinesSimple | app/workers/tournaments.py:46-71 | batch and simple value differ by at most 0.0000505 per open position, plus 0.00005 only when the cash has more than 4 decimals |
| Valuation.CashIsItsValue | app/core/portfolio.py:37-53 | without open positions a portfolio is worth its cash, in both valuations |
| Valuation.PositionAddsItsRefund | app/core/portfolio.py:46-69 | one more position adds its refund at effective_b without the floor, rounded half to even to 6 decimals; one without shares, without a market or of someone else adds nothing |
| Valuation.ValuedAtItsSale | app/core/portfolio.py:56-69 | where the floor does not act, a position is valued at what selling all of it pays, to within 1.5e-6, and that sale goes through |
| Valuation.BothSidesValuedLow | app/core/portfolio.py:56-69 | for a portfolio holding both sides of a market, the two valuations together are strictly less than what closing both releases at that b |
| Valuation.SellingBothSides | app/core/trading.py:337-422 | where the floor decides b, selling both sides goes through and pays, truncated, at least what the two sales would on their own |
| Tournament.SortSorts | app/workers/tournaments.py:274-277 | the ranking sort yields a permutation in non-increasing profit order |
| Tournament.SortIsStable | app/workers/tournaments.py:274-277 | entries with equal profit keep their order |
| Tournament.StepByStep | app/workers/tournaments.py:97-293 | a status changes only pending to active at an activation past start_time or active to completed at a freeze past end_time |
| Tournament.ReachableBoards | app/api/tournament.py:80-273 | from the empty board every run keeps members unique, in existing tournaments, and snapshots exactly for completed tournaments |
| Tournament.LifecycleHolds | app/api/tournament.py:143-273 | over every run: statuses never go back, members are unique and never dropped, a started tournament's starting values and a completed one's snapshots never change |
| Tournament.LockedAtStart | app/workers/tournaments.py:160-171 | the batch value at activation is still the starting value after any later run |
| Tournament.FinalRankingIsRight | app/workers/tournaments.py:257-291 | the frozen rows are one per member and no other user, ranks 1..n, profits non-increasing before and after rounding, each with the final and locked starting value |
| Tournament.FreezeRanksEveryMemberOnce | app/workers/tournaments.py:199-293 | the same of what a freeze stores for each due tournament |
| Tournament.StandingsAreFinal | app/workers/tournaments.py:199-297 | no later run, further freezes included, changes the stored standings |
| Tournament.ProfitSpansTheTournament | app/workers/tournaments.py:160-291 | whatever happens in between, a member present at activation is ranked by value at freeze minus value at activation |
| TournamentLaws.CreateExactly | app/api/tournament.py:90-110 | a tournament is created exactly if its creator has fewer than ten unfinished ones and it ends after it starts; it is pending with the times given |
| TournamentLaws.JoinExactly | app/api/tournament.py:223-264 | each refusal of a join exactly, in order; a joiner of an active tournament starts at the current total value, any other at 0 |
| TournamentLaws.ActivationExactly | app/workers/tournaments.py:97-171 | an activation starts a pending tournament if and only if its start_time has come, locks its funded members at their batch value and changes nothing else |
| TournamentLaws.FreezeExactly | app/workers/tournaments.py:199-293 | a freeze completes an active tournament if and only if its end_time has come; its standings then pay every member once, in places 1..n by profit, and no other tournament's change |
| TournamentLaws.LateJoinerIsPaid | app/api/tournament.py:254-264 | whoever joins an active tournament is ranked, after any run and a freeze, by value at the freeze minus total value at the join |
| TournamentLaws.JoinAndFreezePaysNothing | app/api/tournament.py:254-264 | in the state of the join that profit is 0 up to the difference of the two valuations |
| TournamentDesk.Desk.ActivatePending | app/workers/tournaments.py:74-174 | the worker's loops yield the activated tables and the number of pending tournaments with start_time not after now |
| TournamentDesk.Desk.FreezeExpired | app/workers/tournaments.py:177-297 | the worker's loops yield the frozen tables and the number of active tournaments with end_time not after now |
| TournamentDesk.Desk.RankTournament | app/workers/tournaments.py:257-291 | valuing, sorting and numbering one tournament's members yields its final ranking |
| TournamentDesk.Desk.JoinTournament | app/api/tournament.py:205-273 | a join appends one member, starting at the current value when active and at 0 otherwise, or is refused with the code's error in the code's order |
| Leaderboard.GetLeaderboard | app/api/tournament.py:276-360 | the endpoint's answer for pending, active and completed tournaments and for non-members; one member without a portfolio fails the live board |
| Leaderboard.FrozenStandingsAreShown | app/api/tournament.py:311-330 | after a freeze, however the economy and other tournaments move on, every member is shown exactly the frozen ranking |
| Leaderboard.FrozenStandingsSay | app/api/tournament.py:311-330 | those rows field by field: places, users, value at the freeze, starting value, profit within half a tick |
| Leaderboard.LeaderboardRefusedExactly | app/api/tournament.py:289-341 | each refusal of a leaderboard exactly, the live one of a tournament with an unfunded member included |
| Leaderboard.ByRankSorts | app/api/tournament.py:312-319 | reading by rank yields the same rows in non-decreasing rank |
| Leaderboard.LiveBoardRanksEveryMember | app/api/tournament.py:332-360 | a live board ranks every member once by current value minus starting value |
| Leaderboard.FreezeKeepsClearLeads | app/workers/tournaments.py:274-277 | a live lead larger than the two valuations can disagree is kept by a freeze at that moment |
| Oracle.RatingRange | app/core/oracle.py:93-102 | percentile ratings lie in [4, 9], the clamp never acts, and with variation the rating is 4 + 5 times the mid-rank fraction |
| OracleLaws.PercentileExactly | app/core/oracle.py:93-102 | if two entries of the pool differ, the rating is 4 + 5 times the fraction of entries that are worse, ties counted half, counted by their indices; otherwise it is 6.5 |
| OracleLaws.BetterRatesHigher | app/core/oracle.py:93-102 | of two different members of a pool the better one rates strictly higher, in either direction |
| Oracle.PercentileMonotone | app/core/oracle.py:93-102 | a better value never rates lower against the same pool, forward or inverse |
| Oracle.ForwardPlusInverse | app/core/oracle.py:93-102 | forward and inverse ratings of any value sum to 13 |
| Oracle.PercentileParity | app/core/oracle.py:93-102 | over any non-empty pool the members' ratings average exactly 6.5, in either direction |
| Oracle.CompositeParity | app/core/oracle.py:124-147 | over any peers, whatever stats any of them lacks, the composites averaged by the weight each used come to exactly 6.5 |
| Oracle.CompleteCompositeParity | app/core/oracle.py:124-147 | when every peer has every stat, the plain average is exactly 6.5, whatever the weights add up to |
| OracleLaws.CompositeAppends | app/core/oracle.py:130-147 | one more stat of the table enters the composite with its weight against the weight used so far, at its percentile rating; a stat the player lacks changes nothing |
| OracleLaws.PeerValuesExactly | app/core/oracle.py:135-137 | the pool of a stat holds the value of every peer that has it, in order |
| OracleLaws.OtherGroupsDoNotMatter | app/core/oracle.py:123-126 | players of other groups do not affect a composite |
| OracleLaws.CompositeMonotone | app/core/oracle.py:124-147 | a player at least as good in every stat of the table is rated at least as high |
| OracleLaws.KeepersAndForwards | app/core/oracle.py:17-52 | a keeper conceding fewer goals and a forward scoring more never rate lower |
| OracleLaws.TablesExactly | app/core/oracle.py:17-52 | which positions have a table, what each adds up to, and that less is better of goals conceded alone |
| OracleLaws.LeadingStats | app/core/oracle.py:17-52 | the stat with the largest weight in each position |
| Oracle.ComputeLayer2Composite | app/core/oracle.py:105-147 | the loop answers exactly when the group is known and the player has one of its stats, with the weighted mean over the stats present, within [4, 9] |
| Oracle.Layer1Between | app/core/oracle.py:63-74 | Layer 1 lies between any bounds kept by the five most recent ratings; older ones do not matter |
| OracleLaws.Layer1Exactly | app/core/oracle.py:63-74 | the exact weighted mean for one to five and more ratings, most recent first |
| OracleLaws.RecencyCounts | app/core/oracle.py:63-74 | raising a more recent rating raises the result by more |
| OracleLaws.RatedExactly | app/core/oracle.py:174-176 | exactly the rated matches count, in order |
| Oracle.Layer1IsUnclamped | app/core/oracle.py:72-74 | a rating of 2.0 passes through Layer 1 |
| Oracle.ComputeOracleRating | app/core/oracle.py:154-189 | which layer answers, exactly, with what value; Layers 2 and 3 stay within [4, 9] |

## Left out

- ImmediateResaleNeverProfits: on truncated shares and refunds the two directions leave a gap, budgets within a micro-point of the lead of the other side; on the untruncated shares `ImmediateResaleExactly` leaves none.
- SteadyRunBalances: requires each market's effective b to be constant during the run and recalibrations to find nothing to change; `RunAccounted` is the law without that.
- RecalibratedRating: requires an alpha of at least the default, the only one the code writes.
- RecalibratedRefund: says nothing of a sale while the floor lies strictly between the old and the new natural b of the row, where the size of the holding decides; the marginal price there is covered by `RecalibrationUnderFloor`.
- MintingWithoutBound: takes the far market as given; that trades alone can bring a market there is not shown.
- InterleavingsAreAtomic: is_active is fixed during the run and the floor is one input per transaction; recalibration and tournament workers, which take no row locks, are atomic steps of their own runs.
- The row lock a sell takes on its position: the portfolio lock already excludes every other transaction on that user's positions.
- IEEE 754 rounding and overflow, and the shortest-decimal conversion of floats before quantisation.
- The rounding of available_points and starting_value to their 4-decimal columns: the values the code computes are kept exactly.
- Commits, rollbacks and isolation levels beyond the two row locks; in particular the activation worker flushes without committing.
- The three separate row reads of a portfolio valuation are one consistent snapshot.
- The tournament tables are values held in fields of one object; row objects shared between them are modelled for the trading tables only.
- Sorting is a function: the model has Python's stable descending sort as its specification, not the in-place algorithm.
- Snapshot-row and user joins of the leaderboard, display names and response formatting.
- `compute_volatility_tiers`: percentile buckets for display, with no effect on prices.
- The b-floor cache and its expiry; the floor is an input of each trade, and in `MintingRuns` that of the users at that moment.
- Oracle updates of an existing market's oracle_rating, which no price depends on, and the building of statistics from fixtures.
- Identifiers, timestamps, invite-code generation, the lookup of a tournament by code (the model's join takes the tournament found and whether the code matched), the ten-per-hour limits.
- HTTP routing, authentication, WebSocket broadcasts, Redis, Sportmonks parsing, migrations, waitlist, watchlist and chart endpoints, user deletion.
