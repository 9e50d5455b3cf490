# NexusEngine trading core in Dafny

A model of the trading core of `NexusEngine` (`pro-script.js`), a browser
dashboard that streams a KRW market from an exchange WebSocket and runs a
simulated auto-trader on it. The DOM, WebSocket and chart code is stripped
away. What remains is a deterministic state machine over exact `real`
arithmetic and sequences:

- **PriceWindow**: the FIFO buffer of the last 14 ticker prices.
- **Indicator**: the simplified RSI. It sums gains and losses over
  consecutive prices and divides by `losses || 1`. It is 50 below 14 samples.
- **Ledger**: the simulated account (balance, holdings, entry price), the
  `buy` and `sell` transitions and the wallet panel figures.
- **OrderBook**: which levels the order-book panel shows, their bar widths
  and the bid/ask ratio bar.
- **TradeTape**: the newest-first trade list, capped at 30 rows.
- **Engine**: the engine state record, the terminal log and its colour
  classes (including the colour of a sale's line), the dispatch of the three feed messages
  (ticker, order book, trade), the ticker step (window push, then the
  decision step when armed), the armed toggle, the market switch and runs
  of events.
- **Seqs** and **Arith** are shared helpers: prefix, suffix and reverse of
  sequences, and two ordered-field facts.

The random draw of each tick (`Math.random()` in the source) is a parameter
of `Tick`. The armed flag is engine state, flipped by `Toggle`.

A few behaviours of the code are easy to misread, and the model keeps them
as written:
- A market switch does not reset the price window. Prices of the old market
  stay in the window and feed the next RSI values.
- `sell` does not clear the entry price.
- A sale is logged in the `buy` (profit) colour when its P&L is strictly
  positive and in the `sell` colour otherwise. There is no separate loss class.
- In exact arithmetic the RSI lies in [0, 100), not [0, 100]. With the
  divide-by-one guard it can never reach 100 (in floating point a huge gain
  ratio rounds it to 100; see "## Left out").

## Model

| member | source | states |
|---|---|---|
| PriceWindow.Push | pro-script.js:104-105 | the new price is last; below capacity nothing is dropped; at capacity exactly the oldest is dropped; from a window within capacity the result is the last ≤14 of window+price |
| PriceWindow.PushAllKeepsLast | pro-script.js:104-105 | after any run of prices, the window is exactly the last ≤14 prices seen, in arrival order, and never exceeds 14 |
| PriceWindow.FromEmpty | pro-script.js:104-105 | from the empty start-up window, N pushes leave min(N,14) prices, equal to the last ones pushed, oldest first |
| Indicator.Gains | pro-script.js:176-181 | the gains sum is never negative |
| Indicator.Losses | pro-script.js:176-181 | the losses sum is never negative (each non-positive difference is subtracted) |
| Indicator.Divisor | pro-script.js:182 | `losses \|\| 1` is always positive and equals the losses whenever there are any |
| Indicator.Rsi | pro-script.js:174-184 | exactly 50 below 14 samples; always in [0, 100) in exact arithmetic |
| Indicator.ComputeRsi | pro-script.js:174-184 | the source's single accumulation loop over consecutive pairs computes the same value as the recursive sums and the formula |
| Indicator.NetMove | pro-script.js:176-181 | gains minus losses telescopes to last price minus first price |
| Indicator.ClosedForm | pro-script.js:182-183 | the index equals 100·G/(G+L) when there are losses, and 100·G/(G+1) when there are none |
| Indicator.OversoldIff | pro-script.js:182-193 | the buy trigger `rsi < 35` holds iff 13·gains < 7·divisor |
| Indicator.RisingWindowReadsOversold | pro-script.js:182-193 | a full window with no losses and a total rise below 7/13 reads below 35, although the price never fell (a flat window counts: it has no losses either) |
| Indicator.FixtureSums | pro-script.js:176-181 | on the classic 14-price test window, gains are 3.2 and losses 1.8 |
| Indicator.FixtureRsi | pro-script.js:174-184 | on the classic test window the index is exactly 64 |
| Ledger.Initial | pro-script.js:12-14 | the session starts with 50,000,000 KRW and no holdings |
| Ledger.Buy | pro-script.js:207-212 | notional 0.99·B is converted at the price (holdings·P = 0.99·B); entry price = P; balance = B − 0.99·B − 0.0005·0.99·B; from B > 0 the balance stays positive and the engine is Long |
| Ledger.Sell | pro-script.js:219-224 | balance grows by H·P·0.9995; pnl = H·P·0.9995 − H·E; holdings become 0; the entry price is left unchanged |
| Engine.SaleClass | pro-script.js:226 | a sale is never logged in the system class; it takes the buy (profit) class iff its P&L is strictly positive |
| Engine.SaleClassBySign | pro-script.js:223-226 | a sale is coloured as profit iff P·0.9995 exceeds the entry price |
| Engine.TakeProfitLoggedAsProfit | pro-script.js:199-226 | every take-profit exit (price > 1.005·entry) is coloured as profit |
| Engine.NoRiseLoggedAsLoss | pro-script.js:219-226 | every exit at or below the entry price is coloured as loss, whichever rule fired |
| Engine.SmallRiseLoggedAsLoss | pro-script.js:219-226 | an exit 0.04% above the entry is coloured as loss: the colour follows the P&L sign, not the price direction |
| Ledger.RoundTrip | pro-script.js:207-224 | buying at p1 and selling at p2 leaves B·(1 − 0.99·1.0005) + 0.99·B·0.9995·p2/p1; the balance moves by the reported P&L minus the entry fee, which the P&L leaves out |
| Ledger.RoundTripSamePrice | pro-script.js:207-224 | a round trip at one price leaves 0.99901·B, so both fees are paid |
| Ledger.Wallet | pro-script.js:234-240 | diff + 50,000,000 = balance; 50,000,000·(1 + rate/100) = balance; rate > 0 and the '+' sign iff balance > start; up colour iff balance ≥ start |
| OrderBook.Width | pro-script.js:125 | the bar width is at most 100 and non-negative for non-negative sizes; it is 100 iff 5·size ≥ total; below the cap, width·total = 500·size |
| OrderBook.AskLevels | pro-script.js:117 | min(8, n) asks with asks[i] = units[n−1−i] |
| OrderBook.BidLevels | pro-script.js:118 | bids = units[..min(8, n)], in the feed's own order and unaffected by the ask reversal |
| OrderBook.WidthMonotone | pro-script.js:124-136 | within one side a larger level never gets a shorter bar |
| OrderBook.AskRows | pro-script.js:124-125 | one row per shown ask, with its price, its size and the width of its size against the ask total |
| OrderBook.BidRows | pro-script.js:135-136 | one row per shown bid, with its price, its size and the width of its size against the bid total |
| OrderBook.Render | pro-script.js:117-150 | the panel's asks are the reversed units and its bids the leading units (≤ 8 each), each bar the width of its size against its own side's total; the bid and ask ratios sum to 100 and the bid ratio is the bid share of the total |
| OrderBook.RatiosInRange | pro-script.js:148-150 | with non-negative totals both ratio bars lie in [0, 100] |
| OrderBook.TenLevels | pro-script.js:115-118 | with 10 ascending ask levels the panel shows the 8 highest, strictly highest first, and the first 8 bids |
| TradeTape.SideOf | pro-script.js:159 | a trade is shown as a buy iff the feed marks it "BID" |
| TradeTape.Insert | pro-script.js:167-168 | the new trade is at index 0; below 30 rows nothing is dropped; at 30 rows exactly the oldest is dropped; the length stays ≤ 30 |
| TradeTape.InsertAllKeepsNewest | pro-script.js:167-168 | after any run of trades the tape is the newest ≤30 trades, newest first |
| TradeTape.ThirtyFiveTrades | pro-script.js:167-168 | from an empty tape, 35 trades leave exactly the newest 30, latest on top |
| Engine.Init | pro-script.js:6-19 | the constructed engine targets KRW-BTC, is disarmed and Flat with the starting account, and has an empty window, log, order-book panel and tape; it satisfies the state invariant |
| Engine.PnlRate | pro-script.js:199 | the return relative to the entry price: entry·(1 + rate) = price |
| Engine.Decide | pro-script.js:192-204 | only a Flat engine can enter, and it enters iff rsi < 35 or draw > 0.98; only a Long engine can exit, and it exits iff the price leaves [0.995·E, 1.005·E] or draw > 0.99 |
| Engine.ExitBandOnPrice | pro-script.js:199-201 | take-profit fires iff price > 1.005·entry; stop-loss fires iff price < 0.995·entry |
| Engine.AiCore | pro-script.js:172-205 | on the current window: no decision leaves the engine as it was; an entry is exactly the Buy at this price with its buy line; an exit is exactly the Sell at this price with its line coloured by P&L sign; the window, market, armed flag and panels never change, and the entry-price guard is kept |
| Engine.Tick | pro-script.js:104-108 | the price always enters the window; while disarmed, or armed when the decision on the updated window is to hold, the account and log are untouched; at most one log line is appended; any account change logs a buy or sell at this price |
| Engine.FlatTickBuysIff | pro-script.js:192-195 | armed and Flat: a position opens iff the updated window's index < 35 or the draw > 0.98, and it is exactly the Buy at this price, logged as a buy; otherwise the account and log are unchanged |
| Engine.LongTickSellsIff | pro-script.js:198-203 | armed and Long: the position closes iff the price leaves [0.995·E, 1.005·E] or the draw > 0.99, and it is exactly the Sell at this price, logged by P&L sign; otherwise the account and log are unchanged |
| Engine.TickPreservesValid | pro-script.js:192-224 | a tick keeps the balance positive, the holdings non-negative, a positive entry price while Long and the window within 14 |
| Engine.Toggle | pro-script.js:288-300 | flips the armed flag and logs ACTIVATED or HALTED; the account is unchanged, so disarming never closes a position |
| Engine.ToggleTwice | pro-script.js:290 | toggling twice restores everything except the log, which grows by two lines |
| Engine.SwitchMarket | pro-script.js:276-284 | sets the market and logs the switch; the window, the account and the armed flag carry over |
| Engine.SwitchKeepsPosition | pro-script.js:276-284 | an open position survives a switch; an armed tick on the new market more than 0.5% below the old entry sells the old holdings at the new market's price, logged as a loss |
| Engine.TradeRow | pro-script.js:158-165 | a trade event's row carries its price, volume and timestamp, and shows the bid colour iff the feed marks it "BID" |
| Engine.Step | pro-script.js:72-74 | dispatches one event by type: a ticker is exactly the tick, a toggle exactly the toggle, a market change exactly the switch; only a ticker price can change the account, and then a buy or sell line is logged; an order-book event redraws the panel from that book and a trade event puts its row on the tape, neither touching the account, window, log, market or armed flag |
| Engine.Run | pro-script.js:72-74 | a run of admissible events keeps the entry-price guard the decision step divides by |
| Engine.RunKeepsValid | pro-script.js:192-224 | over any run of admissible events every state keeps the invariant: positive balance, non-negative holdings, positive entry price while Long, window within 14, tape within 30 |
| Engine.RunWindow | pro-script.js:104-105 | over any run of events the window is the last ≤14 ticker prices, in arrival order; no other event touches it |
| Engine.RunTape | pro-script.js:153-168 | over any run of events the tape is the run's trades inserted one at a time; no other event touches it |
| Engine.RunTapeNewest | pro-script.js:167-168 | over any run of events the tape is the newest ≤30 trades seen, newest first |
| Engine.RunKeepsBook | pro-script.js:111-150 | a run without an order-book event leaves the panel as it was |
| Engine.RunBook | pro-script.js:111-150 | after a run the panel is the rendering of the run's latest order-book event, whatever events follow it |
| Engine.RunLogGrows | pro-script.js:243-249 | over any run of events the log is only appended to, never rewritten |
| Engine.ArmedSessionEnters | pro-script.js:104-108 | a fresh engine, armed and then fed one ticker with draw > 0.98, holds exactly the Buy of the starting account at that price, and its log is ACTIVATED followed by the buy line |
| Engine.SessionFromInit | pro-script.js:104-168 | from the constructed engine, every reachable state is valid, the window is the last ≤14 ticker prices and the tape the newest ≤30 trades |

## Left out

- WebSocket lifecycle, subscription payload, message decoding and the 3-second reconnect timer (pro-script.js:50-81). These are network I/O and timer scheduling. `Engine.Step` stands in for the dispatch by event type. Unknown event types have no constructor.
- The CoinGecko image lookup and the coin-id map of `changeMarket` (pro-script.js:36-47, 281). These are a foreign REST call and its input.
- TradingView widget, loading overlay, DOM writes, `toLocaleString`/`toFixed`/`Math.floor` formatting, ticker display fields (change rate, colour, high/low, volume) and log timestamps. These are presentation. A log line keeps only its class and a structured message.
- The "UPLINK ESTABLISHED" log line. It is written from the socket's open callback, which is not modelled.
- `Math.random()`: the draw is a parameter of `Tick`. Its range [0, 1) is not assumed anywhere.
- IEEE-754 rounding: all amounts are exact `real`. No claim is made about float-level equalities, and `holdings === 0` is exact comparison with 0. In doubles the RSI formula rounds to exactly 100 once the gain ratio is around 1e16; the [0, 100) bound of `Indicator.Rsi` is an exact-arithmetic statement.
- Engine.Tick: requires a positive price and a positive entry price while Long. The entry price is the unguarded divisor of the return on every armed Long tick. The price is a divisor only when a buy fires, but a non-positive exchange price is excluded for every tick, armed or not, Flat or Long.
- OrderBook.Render: requires a positive total on each side whenever levels are shown, and a positive ask+bid sum. These are the divisors the source uses unguarded.
- Engine.Step: requires an admissible event, which is a positive ticker price and order-book totals as `OrderBook.Render` needs them. Trade, toggle and market events need nothing.
- The trade tape's timestamps and volumes are carried as data. The tape starts empty, because the page's initial rows are not part of this model.
- The unused `trades` buffer of the constructor (pro-script.js:18) has no behaviour and is not modelled.
