# Market-making bot (`PlayerAlgorithm`) in Dafny

This project models the `PlayerAlgorithm` class of `your_algo.py`. It is a
market maker for an exchange simulation. The exchange calls the bot one call
at a time:

- `send_messages(book)` runs on every turn. The bot cancels every order it
  still has resting. Then, for each product, it places one buy and one sell
  around a mid price. The quotes are skewed by the bot's inventory, aligned
  to the product's tick (its minimum price variance), and sized down near the
  position limit.
- `process_trades(trades)` settles fills. It moves the signed position per
  ticker and forgets filled orders.

The model is split into modules that follow the program's structure:

- `Base`: the harness records (`Product`, `Rest`, `Order`, `Msg`, `Trade`).
  A book maps a ticker to its bid and ask levels.
- `Dicts`: a Python dict as an insertion-ordered list of pairs. This keeps
  the order in which REMOVE messages are emitted.
- `Rounding`: Python's `round` as exact round-half-to-even, and rounding to
  a nonzero tick.
- `Pricing`: the mid price with its fallbacks, the skew, the raw and
  tick-aligned bid and ask, and the size policy.
- `Algorithm`: the bot's state, `__init__` and `set_idx`.
- `Quoting`: `create_order`, `remove_order` and `send_messages`.
  The product loop is stated against `Placed`, a closed-form reference. Its
  order k is for product k / 2, is the buy when k is even, and has id
  `idx + k`. A whole turn has a closed form too, `ExpectedTurn`:
  `SendMessages` is proved equal to it, and the lemmas about turns are
  stated over it.
- `Ledger`: `process_trades`, with the position and open-order ledger.
- `Session`: an arbitrary sequence of calls from the exchange. It carries
  the properties that hold across calls: valid open orders, strictly
  increasing order ids, and the turn counter.

Some behaviours of the code that the model keeps:

- A negative position limit counts as a limit. It passes the skew's test
  (`limit` is nonzero and finite), so the skew is `pos / limit` times the skew
  factor. Only the size reduction is skipped, because that needs
  `limit > 0` (your_algo.py:180 and 197).
- Prices are rounded half-to-even, as Python's `round` does. So 100.26 with
  tick 0.5 gives 100.5. With tick 1, 99.5 and 100.5 both give 100
  (your_algo.py:190-191).
- If two products share a ticker, the last one decides the limit and the
  tick, because the tables are built by dict comprehensions
  (your_algo.py:69-76). Each product entry is still quoted.
- Every trade direction other than `"Buy"` counts as a sell
  (your_algo.py:234 and 246).

## Model

| member | source | states |
|---|---|---|
| Rounding.RoundHalfEven | your_algo.py:190-191 | The rounded integer is within one half of its argument, and an exact tie goes to the even neighbour. |
| Rounding.RoundHalfEvenIsNearest | your_algo.py:190-191 | No integer is nearer to the argument than the rounded value. Any integer strictly within one half, or the even one at a tie, is the rounded value. |
| Rounding.RoundHalfEvenMonotone | your_algo.py:190-191 | Rounding preserves order. |
| Rounding.RoundToTickAligned | your_algo.py:188-191 | A price rounded to the tick is a whole number of ticks and lies within half a tick of the raw price, for a tick of either sign. |
| Rounding.RoundToTickMonotone | your_algo.py:188-191 | Rounding to the tick preserves the order of two prices. |
| Rounding.RoundToTickExamples | your_algo.py:188-191 | 100.26 with tick 0.5 gives 100.5. With tick 1, 99.5 and 100.5 give 100 and 101.5 gives 102. |
| Pricing.MidPrice | your_algo.py:156-170 | Both sides present gives the average of the best bid and best ask. Only bids gives the best bid, only asks gives the best ask, and an empty or missing book gives the default price. |
| Pricing.MidBetweenBestPrices | your_algo.py:158-161 | For an uncrossed book, the mid lies between the best bid and best ask, equally far from each. |
| Pricing.Skew | your_algo.py:176-181 | An unbounded or zero limit gives no skew. Any other limit gives a skew that, times the limit, equals the position times the skew factor. |
| Pricing.SkewFollowsPosition | your_algo.py:172-181 | For a positive limit and factor, the skew is positive iff the position is long and negative iff it is short. Within the limit, it is bounded by the factor. |
| Pricing.SkewExample | your_algo.py:176-181 | Half the limit long or short with factor 0.5 gives ±0.25. A zero or missing limit gives 0. |
| Pricing.OrderSize | your_algo.py:193-201 | For a base size of at least one, the size is between 1 and the base. Without a positive finite limit, the size is the base. |
| Pricing.OrderSizeMatchesPercentages | your_algo.py:196-201 | The size is the base, halved (at least 1) when the absolute position exceeds 0.8 of the limit, and 1 when it exceeds 0.9 of the limit, both tested on the same position. |
| Pricing.OrderSizeMonotone | your_algo.py:193-201 | A larger absolute position never gets a larger size, and the sign of the position does not matter. |
| Pricing.OrderSizeExample | your_algo.py:193-201 | Base 5 and limit 100: positions 79 and 80 keep 5, 81 and 90 give 2, 91 and -91 give 1. A negative limit leaves 5. |
| Pricing.RawPrices | your_algo.py:183-186 | The raw sell minus the raw buy is the base spread, and the two are symmetric about the mid minus the skew. |
| Pricing.MakeQuoteProperties | your_algo.py:176-201 | Both quoted prices are whole ticks within half a tick of the raw prices. The buy is not above the sell when the base spread is non-negative. The size is between 1 and the base when the base is at least 1. |
| Pricing.DefaultQuotesCoincide | your_algo.py:183-191 | With the default parameters, a flat position, tick 1 and the default mid of 1000, both sides are quoted at 1000 with size 5. |
| Algorithm.Table | your_algo.py:69-76 | A per-ticker table has exactly the products' tickers as keys. For each ticker, the value comes from the last product with that ticker. |
| Algorithm.Init | your_algo.py:45-82 | A new bot keeps the product list it is given, is named "MarketMakerBot", and starts from the default parameters: spread 1.0, skew factor 0.5, default price 1000.0 and order size 5. It has position 0 in exactly the products' tickers. Its limit and tick tables follow the last product per ticker, with a missing limit unbounded and a missing or zero tick 1. It has no open orders, and both counters are 0. |
| Algorithm.SetIdx | your_algo.py:84-94 | Only the next order id changes. |
| Quoting.CreateOrder | your_algo.py:96-115 | The order takes the counter's value as its id, carries the given fields and the bot's name, and the counter moves on by one. |
| Quoting.CancelEach | your_algo.py:148-150 | One REMOVE per snapshot id, in order. Exactly those ids are deleted from the open orders. |
| Quoting.CancelAll | your_algo.py:146-150 | Every open order gets a REMOVE, in insertion order, and no open order is left. |
| Quoting.QuoteEach | your_algo.py:152-212 | The product loop emits exactly the reference orders, appends exactly their entries to the open orders, and advances the counter by two per product. |
| Quoting.SendMessages | your_algo.py:129-216 | The messages are the REMOVEs for the orders open on entry, in order, followed by the reference orders. Afterwards the open orders are exactly the new orders. The counter moves by 2·&#124;products&#124; and the turn counter by one. The position and configuration are untouched. The whole step equals the closed form `ExpectedTurn`. |
| Quoting.PlacedIds | your_algo.py:203-212 | The orders of a turn carry the consecutive ids from the counter, whatever their prices. |
| Quoting.SendMessagesIds | your_algo.py:110-114 | A turn's ORDER ids are the next 2·&#124;products&#124; counter values in order. They are exactly the ids left open, so they strictly increase. |
| Quoting.CancelBeforeQuote | your_algo.py:146-212 | Every REMOVE precedes every ORDER. The REMOVEs are exactly the first &#124;open&#124; messages and name the ids open on entry, in order. |
| Quoting.QuotePairs | your_algo.py:203-212 | Every even position of a turn's orders satisfies `QuotedPair`: for each product, a buy then a sell on its ticker with equal size, and both prices whole ticks. The size is between 1 and the base when the base is at least 1, and the buy is not above the sell when the base spread is non-negative. |
| Quoting.PairAt | your_algo.py:183-212 | The buy and sell placed for one product carry its ticker and equal size, and both prices are whole ticks. The size is between 1 and the base when the base is at least 1, and the buy is not above the sell when the base spread is non-negative. |
| Quoting.FreshKey | your_algo.py:110-114 | An id the counter has not yet handed out is not a key of the open orders. |
| Quoting.TurnOpensRun | your_algo.py:203-212 | After a turn, the open ids are exactly the run of 2·&#124;products&#124; ids from the counter, and the counter sits just past that run. |
| Quoting.CancelsOpenRun | your_algo.py:146-150 | When the open ids are a consecutive run, the turn's i-th message is the REMOVE of the run's i-th id. |
| Quoting.TurnAfterRun | your_algo.py:146-212 | A turn that starts with a consecutive run of open ids first cancels that whole run in order, then leaves the next run open, and moves the turn counter by one. |
| Quoting.RefreshTwice | your_algo.py:146-150 | Over two turns without trades, the second turn cancels exactly the orders the first placed. Each turn leaves 2·&#124;products&#124; orders open, the second turn's ids follow the first's, and the turn counter rises by two. |
| Dicts.Put | your_algo.py:207-212 | Assigning a new key appends its entry at the end. Assigning an existing key keeps the length and the key order, and the entry is in the result. |
| Dicts.PutOverwrites | your_algo.py:207-212 | Assigning a present key replaces its first entry in place and changes no other entry. |
| Dicts.Remove | your_algo.py:148-150 | After deleting a key, the key is gone and exactly the entries with other keys remain. |
| Dicts.RemoveAt | your_algo.py:148-150 | Deleting a key held by one entry cuts out just that entry; the rest keep their order. |
| Ledger.Credit | your_algo.py:233-251 | One side of a fill moves its ticker's position, read as 0 when absent, by the signed size. The ticker becomes a key, and no other ticker moves. |
| Ledger.DropIfOpen | your_algo.py:238-240 | Deleting an id that may be absent removes just that id's entry and is a no-op when the id is absent. |
| Ledger.ProcessTrade | your_algo.py:228-253 | The traded ticker's position moves by the bot's signed share of the trade, in both roles, and no other ticker moves. A new ticker key appears only if the bot took part. The open orders lose exactly the bot's filled ids. The configuration and counters are unchanged. |
| Ledger.ProcessTrades | your_algo.py:218-255 | Each ticker's position moves by its net change over the batch. The open orders lose exactly the bot's filled ids and keep their order. No position key is lost. |
| Ledger.SelfTradeNetsZero | your_algo.py:231-253 | A trade with the bot on both sides leaves every position as it was and drops both order ids. |
| Ledger.UninvolvedTradesChangeNothing | your_algo.py:228-253 | Trades the bot takes no part in leave the bot exactly as it was. |
| Ledger.UnnamedTickerUnchanged | your_algo.py:228-237 | A ticker no trade names keeps its position and its presence in the position map. |
| Ledger.OtherOrdersStay | your_algo.py:238-253 | An open order whose id the bot's trades do not name stays open unchanged. |
| Ledger.TradeExamples | your_algo.py:232-253 | Aggressively buying 3 gives +3 and drops order 7. Resting against an aggressive sell of 4 gives +4 and drops order 8. |
| Session.Run | your_algo.py:129-216 | Over any sequence of calls, the configuration is fixed. The turn counter rises by the number of turns, and the order counter by 2·&#124;products&#124; per turn. |
| Session.SendMessagesKeepsValid | your_algo.py:146-212 | After a turn, the open ids strictly increase and are all below the counter. |
| Session.ProcessTradesKeepsValid | your_algo.py:238-253 | Settling trades keeps the open ids strictly increasing and below the counter. |
| Session.RunKeepsValid | your_algo.py:129-253 | That validity holds after any sequence of calls. |
| Session.RunOrderIds | your_algo.py:110-114 | Across any sequence of calls, the ORDER ids strictly increase, lie between the starting and the final counter, and number 2·&#124;products&#124; per turn. |
| Session.WholeSession | your_algo.py:84-94 | From construction and `set_idx(start)`, any session keeps the open orders valid. The turn counter equals the number of turns, and the ids sent strictly increase from `start`. |
| Session.SessionQuotesPairs | your_algo.py:79-212 | At any point of a session from construction, the next turn quotes each product as a buy then a sell on its ticker, signed "MarketMakerBot", with one size from 1 to 5 and the buy not above the sell. No condition is needed, because the default spread and size meet those of `QuotedPair`. |
| Session.ConstructedPair | your_algo.py:183-212 | For a bot with the constructor's name, spread and size, one product's pair has the properties of `DefaultPair` unconditionally. |

## Left out

- Floating point: prices, mids and skews are exact reals. The model does not reproduce binary rounding error in `pos / limit`, `(bid + ask) / 2` or `round(p / tick) * tick`.
- The 0.8 and 0.9 thresholds are compared exactly, as `10·|pos| > 8·limit` and `10·|pos| > 9·limit`. The float products `0.8 * limit` and `0.9 * limit` are not modelled.
- The `float("inf")` sentinel for a missing limit is the `Unbounded` variant.
- A fractional `pos_limit` is not modelled: limits are integers here, while the bot's limit table holds floats (your_algo.py:71).
- The book's `"Bids"`/`"Asks"` inner dict is a record of two level lists. A missing ticker or side reads as empty, as the `.get(..., [])` calls do.
- Trade direction is kept as the harness's string. Only `"Buy"` is tested, and anything else counts as a sell.
- Deleting a duplicate id inside the cancel loop cannot happen, because dict keys are distinct, so a `KeyError` there is not modelled.
- `Base.Exchange`, the harness and the exchange's matching are not part of this model. The bot's messages are only emitted, never executed.
- Concurrency: `Session.Run` applies calls strictly one after another, which is the single-threaded calling contract.
- That `set_idx` is called before the first turn is stated as the initial state of `Session.WholeSession`, not enforced on the bot.
- Quoting.RemoveOrder: it has no contract of its own, since it only wraps an id in a REMOVE message. What it emits is stated by `Quoting.CancelAll` and `Quoting.SendMessages`.
- Rounding.RoundToTick: it has no contract of its own. Its properties are the lemmas `Rounding.RoundToTickAligned` and `Rounding.RoundToTickMonotone`.
- Pricing.MakeQuote: it has no contract of its own. It only composes the skew, the raw prices, the rounding and the size. Its properties are `Pricing.MakeQuoteProperties` and `Pricing.DefaultQuotesCoincide`.
- Algorithm.LimitOf, Algorithm.TickOf, Algorithm.PositionOf, Algorithm.LimitFor, Algorithm.TickFor: these are lookups with a fallback and have no contract of their own. They model the limit and tick defaults of the tables (your_algo.py:72 and 76), the position read as 0 (lines 176 and 235), the limit lookup (line 177) and the tick lookup (line 189). What they feed into is stated by `Algorithm.Init`, `Pricing.MakeQuoteProperties`, `Quoting.PairAt` and `Ledger.Credit`.
- Quoting.QuoteFor: it has no contract of its own. It only feeds one ticker's mid, position, limit and tick to `MakeQuote`. What the loop quotes is stated by `Quoting.PairAt` and `Quoting.QuotePairs`.
- Ledger.Delta: it has no contract of its own. It is the bot's signed share of one trade, and what that does to the position is stated by `Ledger.ProcessTrade`, `Ledger.Credit` and `Ledger.TradeExamples`.
- Quoting.ExpectedTurn: it is the closed form of a turn, with no contract of its own. `Quoting.SendMessages` is proved equal to it.
