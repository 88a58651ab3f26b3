# Friend-tech key market and Q&A ledger, modelled in Dafny

This project models two CosmWasm apps built on the Abstract SDK.

The first is the **friend-tech key market**. An account issues "keys" on a
bonding curve. Buying `a` keys at supply `s` costs `625 · (s² + (s+1)² + … +
(s+a−1)²)` in the fee denomination's smallest unit. The market adds a 5%
issuer fee, which goes to a fee collector. Selling pays the seller a price
from the curve, and the seller pays the fee separately. The state is a
`Config`, a `SUPPLY` counter and a `HOLDERS` map from address to balance. The
ledger invariant is that supply equals the sum of the balances.

The second is the **Q&A ledger**. Anyone may ask the account owner a question
by paying a fee. Each question is filed under a fresh id in an "unanswered"
map. When the owner answers it, it moves to an "answered" map.

Every handler is a pure function. It takes the state before and the inputs
that the environment would supply: the sender, the outcome of the payment
check, and the resolved account owner. It returns either an error or the new
state together with the bank transfers its response carries. An error
returns no state, because a failed transaction commits nothing. Queries take
the state by value and return no state, so they cannot change it (the source
queries take `Deps`, not `DepsMut`).

Layout, one module per file:

- `wrappers.dfy` (`Wrappers`) holds `Option` and `Result` for use with `:-`.
- `ordering.dfy` (`Ordering`) defines strict total orders and the order on question ids.
- `chain.dfy` (`Chain`) defines addresses as byte strings, their lexicographic order, bank transfers, and the payment-check outcomes.
- `paging.dfy` (`Paging`) holds the listing rule that all three listings share: ascending order, an exclusive cursor, and a page size of `limit.unwrap_or(10).min(30)`.
- `pricing.dfy` (`Pricing`) models the curve and the fee from `utils.rs`.
- `market_state.dfy`, `market_query.dfy`, `market_execute.dfy`, `market_instantiate.dfy`, `market_invariants.dfy` and `market_scenario.dfy` hold the key market.
- `qa_state.dfy`, `qa_query.dfy`, `qa_execute.dfy`, `qa_instantiate.dfy`, `qa_invariants.dfy` and `qa_scenario.dfy` hold the Q&A ledger.

The model follows the code where the code differs from what a reader would
expect:

- The sell quote subtracts the amount twice. `query_sell_key_cost` passes
  `old_supply − amount` to `calculate_sell_price`, and that function
  subtracts `amount` again. The executor therefore prices a sale of `a` keys
  at supply `s` as the keys `s−2a … s−a−1`, and the sale aborts when
  `2a > s`. See "## Findings".
- The over-sell error reports `owned: amount`, not the seller's balance.
- A buy of zero keys by an address that holds none stores a zero balance.
  So "no stored balance is zero" holds only while nobody buys zero keys. The
  ledger invariant holds regardless.
- `calculate_price` aborts when `supply = 0` and `amount ≠ 1`, because its
  `supply − 1` underflows. It is not a total function. Every `Uint128`
  subtraction that can underflow is modelled as an abort. The subtractions
  the model proves cannot underflow are the curve's `sum2 − sum1` and the
  sell executor's `old_supply − amount` and `old_amount − amount`. Those are
  plain natural-number subtractions, with the proof obligation showing that
  they stay non-negative.
- Overpayment is kept and not refunded, both for buys and for asks.
- The sell cost's `total_cost` is the fee alone.
- `execute.rs` imports `query_simulate_buy_key` and `query_simulate_sell_key`.
  `query.rs` names them `query_buy_key_cost` and `query_sell_key_cost`. The
  model treats each pair as one function.
- The friend-tech `instantiate.rs` imports `get_account_owner_addr`, which
  `contracts/friend-tech-app/src/utils.rs` does not define. It is modelled
  with the logic of that file's `get_issuer_addr`, including its
  `AccountOwnerMustBeSetToIssueKey` error.

## Model

| member | source | states |
|---|---|---|
| Pricing.CalculatePrice | contracts/friend-tech-app/src/utils.rs:5-26 | The price is defined exactly when `supply ≥ 1` or `amount = 1`, and otherwise aborts. When defined, it equals 625 times the sum of the squares `supply … supply+amount−1`. So `sum2 − sum1` never underflows. |
| Pricing.CurveTerms | contracts/friend-tech-app/src/utils.rs:6-22 | For `supply ≥ 1`, `sum1` is the sum of the first `supply` squares. `sum2` is that sum plus the squares `supply … supply+amount−1`. |
| Pricing.Sum1ClosedForm | contracts/friend-tech-app/src/utils.rs:6-13 | `(s−1)·s·(2(s−1)+1)/6` is the sum of the first `s` squares, and the division by 6 is exact. |
| Pricing.Sum2ClosedForm | contracts/friend-tech-app/src/utils.rs:15-22 | `(s−1+a)·(s+a)·((s−1+a)·2+1)/6` is the sum of the first `s+a` squares, and the division by 6 is exact. |
| Pricing.ScaleExact | contracts/friend-tech-app/src/utils.rs:25 | Multiplying by 1 000 000 and then dividing by 1 600 is exact and equals multiplying by 625. |
| Pricing.BuyPrice | contracts/friend-tech-app/src/utils.rs:28-30 | The buy price of `a` keys at supply `s` is the curve cost of the keys `s … s+a−1`. It aborts exactly when `s = 0` and `a ≠ 1`. |
| Pricing.SellPrice | contracts/friend-tech-app/src/utils.rs:32-38 | The sell price of `a` keys at supply `s` is the curve cost of the top keys `s−a … s−1`. It aborts exactly when `a > s`, or when `a = s` and `a ≠ 1`. |
| Pricing.BuySellSymmetry | contracts/friend-tech-app/src/utils.rs:32-38 | `calculate_sell_price(s + a, a) = calculate_buy_price(s, a)`, with the same abort behaviour, as the comment promises. |
| Pricing.PriceAdditive | contracts/friend-tech-app/src/utils.rs:5-26 | For `s ≥ 1`, buying `a+b` keys at once costs the same as buying `a` keys and then `b` more. |
| Pricing.OverflowThreshold | contracts/friend-tech-app/src/utils.rs:24-25 | At supply 1, 100 690 129 613 is the smallest amount whose `summation * 1_000_000` reaches 2¹²⁸, which is where the source overflows. The model still defines the price there. |
| Pricing.ZeroAmount | contracts/friend-tech-app/src/utils.rs:15-22 | A zero-amount price is 0 at positive supply and aborts at supply 0. `calculate_price(0, 1)` is 0. |
| Pricing.MultiplyPercentage | contracts/friend-tech-app/src/utils.rs:40-42 | The fee is `⌊price·percentage/100⌋`, stated as the floor-division bounds. |
| Pricing.FeeBounds | contracts/friend-tech-app/src/utils.rs:40-42 | A fee of at most 100 percent never exceeds the price, and the fee is monotone in the price. |
| MarketState.IssuerAddr | contracts/friend-tech-app/src/utils.rs:44-50 | Fails with `AccountOwnerMustBeSetToIssueKey` exactly when the owner is unset. Otherwise returns the owner. |
| MarketState.TotalUpdate | cosmwasm/contracts/friend-tech-app/src/state.rs:13 | Storing a new balance under one address changes the sum of the balances by the difference between the new and the old balance. |
| MarketState.TotalRemove | cosmwasm/contracts/friend-tech-app/src/state.rs:13 | Removing a holder lowers the sum of the balances by that holder's balance. |
| MarketQuery.Issuer | contracts/friend-tech-app/src/handlers/query.rs:41-50 | Returns the stored config and supply. The function carries no contract of its own; `MarketInvariants.IssuerAfterTrades` states what it reports after any trades. |
| MarketQuery.BuyKeyCost | contracts/friend-tech-app/src/handlers/query.rs:52-61 | Aborts exactly when `supply = 0` and `amount ≠ 1`. Otherwise the price is the curve cost of the next `amount` keys, the fee is 5% of it rounded down, and the total is price plus fee. |
| MarketQuery.SellKeyCost | contracts/friend-tech-app/src/handlers/query.rs:63-72 | Aborts exactly when `2·amount > supply`, or when `2·amount = supply` and `amount ≠ 1`. Otherwise the price is the curve cost of the keys `supply−2·amount … supply−amount−1`, the fee is 5% of it, and the total is the fee alone. |
| MarketQuery.IntendedSellKeyCost | contracts/friend-tech-app/src/utils.rs:32-38 | The sell quote the `calculate_sell_price` comment describes: the price is the curve cost of the top `amount` keys, and the total is the fee. |
| MarketQuery.SellCostDoubleSubtraction | contracts/friend-tech-app/src/handlers/query.rs:63-65 | After buying `a ≥ 1` keys at supply `s ≥ 1`, the as-written sell quote for those `a` keys either aborts or is strictly below what the buy cost. |
| MarketQuery.SellCostCounterexample | contracts/friend-tech-app/src/handlers/query.rs:65 | At supply 11, the quote for selling 10 keys aborts, and the quote for selling 5 keys prices keys 1–5 instead of keys 6–10. |
| MarketQuery.IntendedSellUndoesBuy | contracts/friend-tech-app/src/utils.rs:33-36 | With the intended quote, selling the keys just bought is quoted exactly the buy's price and fee. |
| MarketQuery.Holders | contracts/friend-tech-app/src/handlers/query.rs:74-92 | Lists holders in strictly ascending byte order, all after the cursor. The length is `min(#eligible, min(limit or 10, 30))`, and the listed holders are the smallest eligible ones. Without a cursor, the length is `min(#holders, page size)`, and within the limit it lists every holder. |
| MarketQuery.Holding | contracts/friend-tech-app/src/handlers/query.rs:94-100 | Returns the stored balance, or 0 for an address that is not stored. |
| MarketExecute.BuyKey | contracts/friend-tech-app/src/handlers/execute.rs:28-63 | The errors come in order: payment rejection, then the abort at supply 0, then `InsufficientFunds{total, paid}` exactly when the total exceeds what was paid. On success: the supply grows by `amount`; the buyer's holding grows by `amount`; every other holding and the config are unchanged; the buyer's entry exists afterwards. The only transfer is the fee to the collector. |
| MarketExecute.SellKey | contracts/friend-tech-app/src/handlers/execute.rs:66-125 | The errors come in order: unset issuer, payment, quote abort, `InsufficientFunds{fee, paid}`, non-holder (`owned: 0`), over-sell (`owned: amount`), then the issuer selling its whole balance. The sale succeeds exactly when none of these apply. On success: the supply drops by `amount`; the seller's holding drops by `amount`, and the entry is removed exactly when it reaches 0; the others and the config are unchanged. The transfers are the fee to the collector, then the quoted price to the seller. |
| MarketInstantiate.Instantiate | contracts/friend-tech-app/src/handlers/instantiate.rs:10-36 | Fails exactly when the owner is unset. Otherwise it stores the config fields unchanged, a supply of 1 and the owner as sole holder with balance 1. The initial state satisfies the ledger invariant and stores no zero balance. |
| MarketInvariants.BuyKeepsLedger | contracts/friend-tech-app/src/handlers/execute.rs:45-53 | A successful buy keeps supply equal to the sum of balances. A buy of a positive amount also keeps every stored balance positive. |
| MarketInvariants.SellKeepsLedger | contracts/friend-tech-app/src/handlers/execute.rs:104-111 | A successful sell keeps supply equal to the sum of balances and keeps every stored balance positive. |
| MarketInvariants.ZeroBuyStoresZero | contracts/friend-tech-app/src/handlers/execute.rs:48-53 | At positive supply, a zero-amount buy by a new address succeeds and stores a zero balance. |
| MarketInvariants.ReplayKeepsLedger | contracts/friend-tech-app/src/handlers/execute.rs:45-111 | Any sequence of buys and sells, each failing or not, keeps the ledger invariant and leaves the config unchanged. |
| MarketInvariants.MarketLedgerHolds | contracts/friend-tech-app/src/handlers/instantiate.rs:27-28 | After creation and any sequence of trades, supply equals the sum of balances. |
| MarketInvariants.IssuerAfterTrades | contracts/friend-tech-app/src/handlers/query.rs:41-50 | After any trades, the issuer query reports the username, denomination and collector the market was created with, and a supply equal to the sum of balances. |
| MarketScenario.Install | contracts/friend-tech-app/tests/integration.rs:59-85 | A new market has the owner as its only listed holder. |
| MarketScenario.BuyTen | contracts/friend-tech-app/tests/integration.rs:123-178 | At supply 1, ten keys are quoted 240625 + 12031. Paying exactly that gives supply 11, a balance of 10 and one fee transfer. |
| MarketScenario.SellFive | contracts/friend-tech-app/tests/integration.rs:180-233 | At supply 11, five keys are quoted 34375 with fee 1718. Paying the fee gives supply 6, a balance of 5, and the transfers fee-then-price. |
| MarketScenario.ListAfterSale | contracts/friend-tech-app/tests/integration.rs:235-241 | After the sale both holders are listed, in ascending address order. |
| Paging.PageSize | contracts/friend-tech-app/src/handlers/query.rs:88 | The page size is at most 30. It is 10 without a limit, the limit itself when that is at most 30, and 30 when the limit is 30 or more. |
| Paging.Page | contracts/friend-tech-app/src/handlers/query.rs:79-90 | A page is strictly ascending and lies inside the key set, after the cursor. Its length is `min(#eligible, page size)`, and it holds the smallest eligible keys. Without a cursor, its length is `min(#keys, page size)`, and within the page size it holds every key. |
| Paging.PageExcludesCursor | contracts/friend-tech-app/src/handlers/query.rs:80-85 | The cursor never appears on the page that follows it. |
| QaState.AccountOwnerAddr | contracts/qa-app/src/utils.rs:5-11 | Fails with `AccountOwnerMustBeSetToAnswer` exactly when the owner is unset. |
| QaInstantiate.Instantiate | cosmwasm/contracts/qa-app/src/handlers/instantiate.rs:10-24 | Fails exactly when the owner is unset. Otherwise it starts with counter 0 and both maps empty, which is well-formed. |
| QaExecute.Ask | cosmwasm/contracts/qa-app/src/handlers/execute.rs:32-70 | Fails on payment rejection. Fails with `InsufficientFunds{cost, paid}` exactly when the cost exceeds what was paid. On success: the question is filed unanswered under the old counter, the counter grows by one, and the other entries are unchanged. The only transfer is exactly the cost to the collector. |
| QaExecute.Answer | cosmwasm/contracts/qa-app/src/handlers/execute.rs:73-111 | The errors come in order: attached funds, unset owner, non-owner, then an id not in the unanswered map. On success the id leaves the unanswered map, and the question is stored in the answered map under its id, with its asker and content kept, marked answered and carrying the answer. The other entries and the counter are unchanged. |
| QaQuery.Stats | cosmwasm/contracts/qa-app/src/handlers/query.rs:34-38 | Returns the question counter. The function carries no contract of its own; `QaInvariants.StatsCountsStored` and `QaInvariants.StatsCountsAsks` state that it counts the stored questions and the successful asks. |
| QaQuery.Listing | cosmwasm/contracts/qa-app/src/handlers/query.rs:52-90 | Lists ids strictly ascending, all after the cursor, and the smallest such. The length is `min(#eligible, min(limit or 10, 30))`. Without a cursor, the length is `min(#ids, page size)`, and within the limit it lists the whole key set. |
| QaQuery.AnsweredQuestions | cosmwasm/contracts/qa-app/src/handlers/query.rs:52-70 | Lists the answered ids strictly ascending, all after the cursor, and the smallest such. The length is `min(#eligible, min(limit or 10, 30))`. Without a cursor, the length is `min(#answered, page size)`, and within the limit it lists all of them. |
| QaQuery.UnansweredQuestions | cosmwasm/contracts/qa-app/src/handlers/query.rs:72-90 | Lists the unanswered ids strictly ascending, all after the cursor, and the smallest such. The length is `min(#eligible, min(limit or 10, 30))`. Without a cursor, the length is `min(#unanswered, page size)`, and within the limit it lists all of them. |
| QaQuery.QuestionById | cosmwasm/contracts/qa-app/src/handlers/query.rs:92-101 | Looks in the unanswered map first, then in the answered map, and returns a not-found error exactly when the id is in neither. |
| QaQuery.LookupMatchesCounter | cosmwasm/contracts/qa-app/src/handlers/query.rs:92-101 | In a well-formed ledger, an id can be looked up exactly when it is below the counter, and the lookup returns the question carrying that id. |
| QaInvariants.AskKeepsWellFormed | cosmwasm/contracts/qa-app/src/handlers/execute.rs:43-56 | A successful ask keeps the ledger well-formed. Every id below the counter sits in exactly one map, under its own id, and no id at or above the counter is stored. |
| QaInvariants.AnswerKeepsWellFormed | cosmwasm/contracts/qa-app/src/handlers/execute.rs:91-104 | A successful answer keeps the ledger well-formed. |
| QaInvariants.StatsCountsStored | cosmwasm/contracts/qa-app/src/handlers/query.rs:34-38 | In a well-formed ledger, the statistics count equals the number of stored questions. |
| QaInvariants.ReplayCountsAsks | cosmwasm/contracts/qa-app/src/handlers/execute.rs:43-56 | Any sequence of asks and answers keeps the ledger well-formed and advances the counter once per successful ask. |
| QaInvariants.StatsCountsAsks | contracts/qa-app/src/state.rs:4-5 | On a new ledger, the statistics count equals the number of successful asks, and equals the number of stored questions. |
| QaScenario.AnswerBeforeAsk | cosmwasm/contracts/qa-app/tests/integration.rs:205-224 | On a new ledger, the owner's answer to id 0 fails with `QuestionNotFoundInUnansweredQuestions{0}`. |
| QaScenario.AskFirst | cosmwasm/contracts/qa-app/tests/integration.rs:116-182 | The first paid question is filed as id 0 with the count at 1, and the cost goes to the collector. |
| QaScenario.AnswerFirst | cosmwasm/contracts/qa-app/tests/integration.rs:226-283 | A non-owner's answer fails with `OnlyAccountOwnerCanAnswer`. The owner's answer moves id 0 from the unanswered listing to the answered one, and the lookup returns the answered question. |

## Left out

- Pricing.CalculatePrice: does not model `Uint128` multiplication overflow. Amounts are unbounded naturals. The overflow depends on `supply + amount`, and the caller chooses `amount`. At supply 1, every amount of 100 690 129 613 or more overflows `summation * 1_000_000`, so the source aborts where the model quotes a price (`Pricing.OverflowThreshold`). At supply 1 the cubic products are still in range there. Once `supply + amount` exceeds about 5.5·10¹², the cubic products overflow first.
- Pricing.MultiplyPercentage: does not model the overflow of `price * percentage`, which needs a price above 2¹²⁸/5 at the 5% fee, and so an amount already past the curve's own overflow.
- MarketQuery.BuyKeyCost: inherits the unmodelled curve overflow. At supply 1, an amount of 100 690 129 613 or more aborts the source's query, while the model returns a quote.
- MarketExecute.BuyKey: does not model `Uint128` overflow. The quote at `execute.rs:37` overflows for the amounts above, so the source aborts before its funds check, while the model reports `InsufficientFunds` unless that huge quote is paid. The overflow of `old_supply + amount`, `old_amount + amount` and `price + issuer_fee` is not modelled either.
- QaExecute.Ask: does not model `u64` overflow of `next_question_id + 1`, which would take 2⁶⁴ questions.
- `cw_utils::must_pay` and `cw_utils::nonpayable` come from a library outside this model. They are inputs: either the amount paid in the expected denomination or a rejection (`Chain.Payment`), and either no funds or a rejection (`Chain.NonPayable`).
- The account-owner lookup (`query_account_owner`) and `addr_validate` are foreign calls. The resolved owner is an `Option<Addr>` input. The fee collector and listing cursors are taken as already-validated addresses. The failures of those calls themselves are not modelled.
- `query_ask_cost` makes a cross-module query and unwraps it. Its answer (cost, denomination, collector) is the `AskCost` input of `QaExecute.Ask`, and a panic of that query is not modelled.
- `StdError`s from loading `CONFIG`, `SUPPLY` or `NEXT_QUESTION_ID` are not modelled. The model's state always holds them, as it does after instantiation.
- Response attributes (`buyer`, `seller`, `amount`, `asker`, `question_id`, …) are not modelled. Only the bank messages are.
- Executing the bank messages and tracking chain balances is left out. This includes the bank module's own rejection of a zero-amount coin, which a free trade's zero fee would produce. Only the list of emitted transfers is modelled.
- Framework glue has no logic of its own and is left out: `contract.rs`, `api.rs`, `lib.rs`, `msg.rs`, the `error.rs` display strings, `replies/*`, `migrate.rs` and serialization.

## Findings

| source | as written | input that shows it | evidently intended | confidence | as-written member | corrected member |
|---|---|---|---|---|---|---|
| contracts/friend-tech-app/src/handlers/query.rs:65 | `calculate_sell_price(old_supply - amount, amount)`, and `calculate_sell_price` subtracts `amount` again, so the quote prices the keys `supply−2a … supply−a−1` | Supply 11, after the owner's key plus ten bought at supply 1. Selling those ten aborts, and selling five is quoted at keys 1–5 (34375) instead of keys 6–10 | `calculate_sell_price(old_supply, amount)`, which prices the top `amount` keys so that a sale undoes a buy, as the comment in `utils.rs` says | not executed | MarketQuery.SellCostCounterexample | MarketQuery.IntendedSellUndoesBuy |

The as-written quote is `MarketQuery.SellKeyCost`, and
`MarketQuery.SellCostDoubleSubtraction` proves the discrepancy for all inputs.
The corrected quote is `MarketQuery.IntendedSellKeyCost`. The sell executor
`MarketExecute.SellKey` keeps the quote as written, because this model
follows the contract's code.
