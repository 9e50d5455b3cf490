/** The trading engine: one state record holding the target market, the
    armed flag, the account, the price window, the terminal log, the
    order-book panel and the trade tape. A ticker price always enters the
    window; only when the engine is armed does the decision step run, and it
    fires at most one of Buy or Sell. Order-book and trade events only
    redraw their panels. */
module Engine {
  import opened Seqs
  import opened Arith
  import PriceWindow
  import Indicator
  import opened Ledger
  import OrderBook
  import TradeTape

  /** Market the engine targets at start-up. */
  const DefaultMarket: string := "KRW-BTC"

  /** Entry rule: index below this reads as oversold. */
  const OversoldBelow: real := 35.0

  /** Entry rule: a random draw above this forces an entry. */
  const RandomEntryAbove: real := 0.98

  /** Exit rule: take profit above +0.5%, stop loss below -0.5%. */
  const ExitBand: real := 0.005

  /** Exit rule: a random draw above this forces an exit. */
  const RandomExitAbove: real := 0.99

  /** What a terminal log line reports. */
  datatype Message =
    | BuyExecuted(price: real)
    | SellExecuted(price: real, pnl: real)
    | SwitchingMarket(market: string)
    | Activated
    | Halted

  /** Class of a log line, which the terminal uses as its colour. */
  datatype LogClass = Sys | BuyClass | SellClass

  datatype LogLine = LogLine(cls: LogClass, msg: Message)

  /** The colour of a sale's log line: 'buy' (profit colour) when the P&L is
      strictly positive, 'sell' otherwise. */
  function SaleClass(pnl: real): (c: LogClass)
    ensures c != Sys
    ensures c == BuyClass <==> pnl > 0.0
  {
    if pnl > 0.0 then BuyClass else SellClass
  }

  /** A sale is logged in the profit colour exactly when the price, net of
      the sell fee, beats the entry price. */
  lemma SaleClassBySign(a: Account, price: real)
    requires a.holdings > 0.0
    ensures SaleClass(Sell(a, price).pnl) == BuyClass <==> price * (1.0 - FeeRate) > a.avgPrice
  {
    var net := price * (1.0 - FeeRate);
    assert Sell(a, price).pnl == (net - a.avgPrice) * a.holdings;
    ScaleLess(a.avgPrice, net, a.holdings);
  }

  /** A sale fired by the take-profit rule (price more than 0.5% over the
      entry) is always logged in the profit colour. */
  lemma TakeProfitLoggedAsProfit(a: Account, price: real)
    requires a.holdings > 0.0 && a.avgPrice > 0.0
    requires price > 1.005 * a.avgPrice
    ensures SaleClass(Sell(a, price).pnl) == BuyClass
  {
    SaleClassBySign(a, price);
    assert price * (1.0 - FeeRate) > 1.005 * a.avgPrice * 0.9995;
  }

  /** Any sale at or below the entry price is logged in the loss colour,
      whatever rule fired it. */
  lemma NoRiseLoggedAsLoss(a: Account, price: real)
    requires a.holdings > 0.0 && a.avgPrice > 0.0
    requires price <= a.avgPrice
    ensures SaleClass(Sell(a, price).pnl) == SellClass
  {
    SaleClassBySign(a, price);
  }

  /** The colour follows the P&L sign, not the price direction: a random
      exit 0.04% above the entry is still a loss once the fee is paid. */
  lemma SmallRiseLoggedAsLoss(a: Account)
    requires a.holdings > 0.0 && a.avgPrice > 0.0
    ensures var price := a.avgPrice * 1.0004;
            price > a.avgPrice && SaleClass(Sell(a, price).pnl) == SellClass
  {
    SaleClassBySign(a, a.avgPrice * 1.0004);
  }

  /** The order-book panel: nothing drawn yet, or the last rendered book. */
  datatype Book = Blank | Shown(panel: OrderBook.Panel)

  datatype State = State(
    market: string,
    running: bool,
    account: Account,
    prices: seq<real>,
    log: seq<LogLine>,
    book: Book,
    tape: seq<TradeTape.Trade>)

  /** The engine as constructed: default market, disarmed, starting balance,
      empty window and log, and empty panels. */
  function Init(): (e: State)
    ensures Valid(e) && !e.running && Flat(e.account)
    ensures e.account == Ledger.Initial() && e.account.balance == InitialBalance
    ensures e.market == DefaultMarket && e.prices == [] && e.log == []
    ensures e.book == Blank && e.tape == []
  {
    State(DefaultMarket, false, Ledger.Initial(), [], [], Blank, [])
  }

  /** The engine is Flat exactly when it holds nothing. */
  predicate Flat(a: Account) {
    a.holdings == 0.0
  }

  /** What the decision step needs to divide safely: a Long engine has a
      positive entry price. */
  predicate Tradable(a: Account) {
    Flat(a) || a.avgPrice > 0.0
  }

  /** The invariant of every reachable state. */
  predicate Valid(e: State) {
    && e.account.balance > 0.0
    && e.account.holdings >= 0.0
    && Tradable(e.account)
    && |e.prices| <= PriceWindow.Capacity
    && |e.tape| <= TradeTape.Capacity
  }

  datatype Action = Hold | Enter | Exit

  /** Return on the open position at price, relative to the entry price. */
  function PnlRate(a: Account, price: real): (rate: real)
    requires a.avgPrice > 0.0
    ensures a.avgPrice * (1.0 + rate) == price
  {
    (price - a.avgPrice) / a.avgPrice
  }

  /** The decision of one armed tick, from the index, the price and the draw. */
  function Decide(a: Account, rsi: real, price: real, draw: real): (act: Action)
    requires Tradable(a)
    ensures act == Enter ==> Flat(a)
    ensures act == Exit ==> !Flat(a)
    ensures Flat(a) ==> (act == Enter <==> rsi < OversoldBelow || draw > RandomEntryAbove)
    ensures !Flat(a) ==> (act == Exit <==> price > (1.0 + ExitBand) * a.avgPrice
                                           || price < (1.0 - ExitBand) * a.avgPrice
                                           || draw > RandomExitAbove)
  {
    if a.holdings == 0.0 then
      if rsi < 35.0 || draw > 0.98 then Enter else Hold
    else
      ExitBandOnPrice(a, price);
      var pnlRate := PnlRate(a, price);
      if pnlRate > 0.005 || pnlRate < -0.005 || draw > 0.99 then Exit else Hold
  }

  /** The exit band on the return, restated on prices: the take-profit and
      stop-loss rules fire exactly when the price leaves
      [0.995 * entry, 1.005 * entry]. */
  lemma ExitBandOnPrice(a: Account, price: real)
    requires a.avgPrice > 0.0
    ensures PnlRate(a, price) > ExitBand <==> price > (1.0 + ExitBand) * a.avgPrice
    ensures PnlRate(a, price) < -ExitBand <==> price < (1.0 - ExitBand) * a.avgPrice
  {
    RelativeMove(price, a.avgPrice, ExitBand);
    RelativeMove(price, a.avgPrice, -ExitBand);
  }

  lemma RelativeMove(price: real, entry: real, k: real)
    requires entry > 0.0
    ensures (price - entry) / entry > k <==> price > (1.0 + k) * entry
    ensures (price - entry) / entry < k <==> price < (1.0 + k) * entry
  {
    var x := (price - entry) / entry;
    assert x * entry == price - entry;
    ScaleLess(k, x, entry);
    ScaleLess(x, k, entry);
  }

  /** The armed decision step on a window that already holds the price. */
  function AiCore(e: State, price: real, draw: real): (r: State)
    requires price > 0.0 && Tradable(e.account)
    ensures r.prices == e.prices && r.market == e.market && r.running == e.running
    ensures r.book == e.book && r.tape == e.tape
    ensures Tradable(r.account)
    ensures var act := Decide(e.account, Indicator.Rsi(e.prices), price, draw);
            && (act == Hold ==> r == e)
            && (act == Enter ==> r.account == Buy(e.account, price)
                                 && r.log == e.log + [LogLine(BuyClass, BuyExecuted(price))])
            && (act == Exit ==> var s := Sell(e.account, price);
                                r.account == s.account
                                && r.log == e.log + [LogLine(SaleClass(s.pnl), SellExecuted(price, s.pnl))])
  {
    match Decide(e.account, Indicator.Rsi(e.prices), price, draw)
    case Hold => e
    case Enter =>
      e.(account := Buy(e.account, price),
         log := e.log + [LogLine(BuyClass, BuyExecuted(price))])
    case Exit =>
      var s := Sell(e.account, price);
      e.(account := s.account,
         log := e.log + [LogLine(SaleClass(s.pnl), SellExecuted(price, s.pnl))])
  }

  /** One ticker event: the price enters the window, then, if armed, the
      decision step runs on the updated window. */
  function Tick(e: State, price: real, draw: real): (r: State)
    requires price > 0.0 && Tradable(e.account)
    ensures r.prices == PriceWindow.Push(e.prices, price)
    ensures r.market == e.market && r.running == e.running
    ensures r.book == e.book && r.tape == e.tape
    ensures Tradable(r.account)
    ensures !e.running ==> r.account == e.account && r.log == e.log
    ensures e.running && Decide(e.account, Indicator.Rsi(PriceWindow.Push(e.prices, price)), price, draw) == Hold
            ==> r.account == e.account && r.log == e.log
    ensures r.log == e.log || (|r.log| == |e.log| + 1 && r.log[..|e.log|] == e.log)
    ensures r.account != e.account ==> |r.log| == |e.log| + 1
                                        && (r.log[|e.log|].msg.BuyExecuted?
                                            || r.log[|e.log|].msg.SellExecuted?)
                                        && r.log[|e.log|].msg.price == price
  {
    var e' := e.(prices := PriceWindow.Push(e.prices, price));
    if e.running then
      var r := AiCore(e', price, draw);
      assert r.log == e'.log || r.log[..|e.log|] == e.log;
      r
    else e'
  }

  /** Armed and Flat, with money in the account: the tick opens a position
      exactly when the index of the updated window is below 35 or the draw
      exceeds 0.98, and then it is the Buy at this price, logged as a buy. */
  lemma FlatTickBuysIff(e: State, price: real, draw: real)
    requires price > 0.0 && e.running && Flat(e.account) && e.account.balance > 0.0
    ensures var r := Tick(e, price, draw);
            var rsi := Indicator.Rsi(PriceWindow.Push(e.prices, price));
            && (!Flat(r.account) <==> rsi < OversoldBelow || draw > RandomEntryAbove)
            && (!Flat(r.account) ==> r.account == Buy(e.account, price)
                                     && r.log == e.log + [LogLine(BuyClass, BuyExecuted(price))])
            && (Flat(r.account) ==> r.account == e.account && r.log == e.log)
  {
  }

  /** Armed and Long: the tick closes the position exactly when the price
      leaves the band 0.5% around the entry price or the draw exceeds 0.99,
      and then it is the Sell at this price, logged by the sign of its P&L. */
  lemma LongTickSellsIff(e: State, price: real, draw: real)
    requires price > 0.0 && e.running && e.account.holdings > 0.0 && e.account.avgPrice > 0.0
    ensures var r := Tick(e, price, draw);
            var a := e.account;
            && (Flat(r.account) <==> price > 1.005 * a.avgPrice || price < 0.995 * a.avgPrice
                                     || draw > RandomExitAbove)
            && (Flat(r.account) ==> r.account == Sell(a, price).account
                                    && r.log == e.log + [LogLine(SaleClass(Sell(a, price).pnl),
                                                                 SellExecuted(price, Sell(a, price).pnl))])
            && (!Flat(r.account) ==> r.account == e.account && r.log == e.log)
  {
    ExitBandOnPrice(e.account, price);
  }

  /** Every tick keeps the invariant: the balance stays positive, the
      holdings non-negative, a Long engine keeps a positive entry price and
      the window stays within its capacity. */
  lemma TickPreservesValid(e: State, price: real, draw: real)
    requires price > 0.0 && Valid(e)
    ensures Valid(Tick(e, price, draw))
  {
    var a := e.account;
    if a.holdings > 0.0 {
      var s := Sell(a, price);
      assert a.holdings * price * (1.0 - FeeRate) >= 0.0;
    }
  }

  /** The armed/disarmed toggle. Disarming does not close an open position. */
  function Toggle(e: State): (r: State)
    ensures r.running == !e.running
    ensures r.account == e.account && r.prices == e.prices && r.market == e.market
    ensures r.book == e.book && r.tape == e.tape
    ensures r.log == e.log + [LogLine(Sys, if r.running then Activated else Halted)]
  {
    var running := !e.running;
    e.(running := running,
       log := e.log + [LogLine(Sys, if running then Activated else Halted)])
  }

  /** Toggling twice restores the armed flag and touches nothing but the log. */
  lemma ToggleTwice(e: State)
    ensures Toggle(Toggle(e)) == e.(log := Toggle(Toggle(e)).log)
    ensures |Toggle(Toggle(e)).log| == |e.log| + 2
  {
  }

  /** Switching the target market. As written, only the market and the log
      change: the price window and the account carry over to the new market. */
  function SwitchMarket(e: State, market: string): (r: State)
    ensures r.market == market
    ensures r.running == e.running && r.account == e.account && r.prices == e.prices
    ensures r.book == e.book && r.tape == e.tape
    ensures r.log == e.log + [LogLine(Sys, SwitchingMarket(market))]
  {
    e.(market := market, log := e.log + [LogLine(Sys, SwitchingMarket(market))])
  }

  /** The position survives a market switch: an armed tick on the new
      market that is 0.5% below the old entry price sells the old holdings
      at the new market's price, and the sale is logged as a loss. */
  lemma SwitchKeepsPosition(e: State, market: string, price: real, draw: real)
    requires e.running && e.account.holdings > 0.0 && e.account.avgPrice > 0.0
    requires 0.0 < price < 0.995 * e.account.avgPrice
    ensures var r := Tick(SwitchMarket(e, market), price, draw);
            && r.market == market
            && r.account == Sell(e.account, price).account
            && SaleClass(Sell(e.account, price).pnl) == SellClass
            && r.log == SwitchMarket(e, market).log
                        + [LogLine(SellClass, SellExecuted(price, Sell(e.account, price).pnl))]
  {
    ExitBandOnPrice(e.account, price);
    NoRiseLoggedAsLoss(e.account, price);
  }

  /** Inputs the engine reacts to: the three feed messages it subscribes to
      (ticker, order book and trade; a ticker carries the random draw of
      that tick) and the two control actions. */
  datatype Event =
    | TickerPrice(price: real, draw: real)
    | OrderbookUpdate(units: seq<OrderBook.Unit>, totalAsk: real, totalBid: real)
    | TradeExecuted(tradePrice: real, volume: real, timestamp: int, askBid: string)
    | ToggleSystem
    | ChangeMarket(market: string)

  /** What an event must carry for the engine to handle it without dividing
      by zero: a positive ticker price, and order-book totals that are
      positive wherever the panel divides by them. */
  predicate Admissible(ev: Event) {
    match ev
    case TickerPrice(price, _) => price > 0.0
    case OrderbookUpdate(units, totalAsk, totalBid) =>
      && (|units| > 0 ==> totalAsk > 0.0 && totalBid > 0.0)
      && totalAsk + totalBid > 0.0
    case _ => true
  }

  /** Every event of a sequence is admissible. */
  predicate AllAdmissible(evs: seq<Event>) {
    forall i :: 0 <= i < |evs| ==> Admissible(evs[i])
  }

  /** The ticker prices of an event sequence, in order. */
  function TickerPrices(evs: seq<Event>): seq<real>
    decreases |evs|
  {
    if evs == [] then []
    else
      var last := evs[|evs| - 1];
      TickerPrices(evs[..|evs| - 1]) + (if last.TickerPrice? then [last.price] else [])
  }

  /** The tape row a trade event adds; its colour side comes from the
      feed's ask/bid marker. */
  function TradeRow(ev: Event): (t: TradeTape.Trade)
    requires ev.TradeExecuted?
    ensures t.price == ev.tradePrice && t.volume == ev.volume && t.timestamp == ev.timestamp
    ensures t.side == TradeTape.Bid <==> ev.askBid == "BID"
  {
    TradeTape.Trade(ev.tradePrice, ev.volume, ev.timestamp, TradeTape.SideOf(ev.askBid))
  }

  /** The tape rows of an event sequence's trades, in arrival order. */
  function Trades(evs: seq<Event>): seq<TradeTape.Trade>
    decreases |evs|
  {
    if evs == [] then []
    else
      var last := evs[|evs| - 1];
      Trades(evs[..|evs| - 1]) + (if last.TradeExecuted? then [TradeRow(last)] else [])
  }

  /** The engine after one event, dispatched by its type. Only a ticker
      price can change the account, and when it does it logs the buy or
      sell that changed it. An order-book event redraws the panel and a
      trade event adds a tape row; neither touches the account, the window
      or the log. */
  function Step(e: State, ev: Event): (r: State)
    requires Tradable(e.account) && Admissible(ev)
    ensures Tradable(r.account)
    ensures ev.TickerPrice? ==> r == Tick(e, ev.price, ev.draw)
    ensures ev.ToggleSystem? ==> r == Toggle(e)
    ensures ev.ChangeMarket? ==> r == SwitchMarket(e, ev.market)
    ensures r.account != e.account ==> ev.TickerPrice? && |r.log| == |e.log| + 1
                                       && (r.log[|e.log|].msg.BuyExecuted?
                                           || r.log[|e.log|].msg.SellExecuted?)
    ensures !ev.TickerPrice? ==> r.account == e.account && r.prices == e.prices
    ensures ev.OrderbookUpdate? || ev.TradeExecuted? ==>
              r.market == e.market && r.running == e.running && r.log == e.log
    ensures ev.OrderbookUpdate? ==>
              r.book == Shown(OrderBook.Render(ev.units, ev.totalAsk, ev.totalBid))
    ensures !ev.OrderbookUpdate? ==> r.book == e.book
    ensures ev.TradeExecuted? ==> r.tape == TradeTape.Insert(e.tape, TradeRow(ev))
    ensures !ev.TradeExecuted? ==> r.tape == e.tape
  {
    match ev
    case TickerPrice(price, draw) => Tick(e, price, draw)
    case OrderbookUpdate(units, totalAsk, totalBid) =>
      e.(book := Shown(OrderBook.Render(units, totalAsk, totalBid)))
    case TradeExecuted(_, _, _, _) => e.(tape := TradeTape.Insert(e.tape, TradeRow(ev)))
    case ToggleSystem => Toggle(e)
    case ChangeMarket(market) => SwitchMarket(e, market)
  }

  /** The engine after a sequence of events, oldest first. */
  function Run(e: State, evs: seq<Event>): (r: State)
    requires Tradable(e.account) && AllAdmissible(evs)
    ensures Tradable(r.account)
    decreases |evs|
  {
    if evs == [] then e
    else Step(Run(e, evs[..|evs| - 1]), evs[|evs| - 1])
  }

  /** Dropping the last event keeps the sequence admissible. */
  lemma AdmissiblePrefix(evs: seq<Event>)
    requires |evs| > 0 && AllAdmissible(evs)
    ensures AllAdmissible(evs[..|evs| - 1])
  {
    var init := evs[..|evs| - 1];
    forall i | 0 <= i < |init|
      ensures Admissible(init[i])
    {
      assert init[i] == evs[i];
    }
  }

  /** Over any run of events the invariant holds: the balance stays
      positive, the holdings non-negative, a Long engine keeps a positive
      entry price, the window stays within 14 and the tape within 30. */
  lemma {:induction false} RunKeepsValid(e: State, evs: seq<Event>)
    requires Valid(e) && AllAdmissible(evs)
    ensures Valid(Run(e, evs))
    decreases |evs|
  {
    if evs != [] {
      var init := evs[..|evs| - 1];
      var ev := evs[|evs| - 1];
      AdmissiblePrefix(evs);
      RunKeepsValid(e, init);
      var m := Run(e, init);
      if ev.TickerPrice? {
        TickPreservesValid(m, ev.price, ev.draw);
      }
    }
  }

  /** Over any run of events the window is the last (at most 14) ticker
      prices seen, in arrival order; no other event touches it. */
  lemma {:induction false} RunWindow(e: State, evs: seq<Event>)
    requires Tradable(e.account) && |e.prices| <= PriceWindow.Capacity && AllAdmissible(evs)
    ensures Run(e, evs).prices == Last(e.prices + TickerPrices(evs), PriceWindow.Capacity)
    decreases |evs|
  {
    if evs == [] {
      assert e.prices + [] == e.prices;
    } else {
      var init := evs[..|evs| - 1];
      var ev := evs[|evs| - 1];
      AdmissiblePrefix(evs);
      RunWindow(e, init);
      var before := e.prices + TickerPrices(init);
      if ev.TickerPrice? {
        LastOfLast(before, [ev.price], PriceWindow.Capacity);
        assert before + [ev.price] == e.prices + TickerPrices(evs);
      } else {
        assert before + [] == e.prices + TickerPrices(evs);
      }
    }
  }

  /** Over any run of events the tape is the trades inserted one by one;
      no other event touches it. */
  lemma {:induction false} RunTape(e: State, evs: seq<Event>)
    requires Tradable(e.account) && AllAdmissible(evs)
    ensures Run(e, evs).tape == TradeTape.InsertAll(e.tape, Trades(evs))
    decreases |evs|
  {
    if evs != [] {
      var init := evs[..|evs| - 1];
      var ev := evs[|evs| - 1];
      AdmissiblePrefix(evs);
      RunTape(e, init);
      var m := Run(e, init);
      var r := Step(m, ev);
      assert Run(e, evs).tape == r.tape;
      var ts := Trades(evs);
      if ev.TradeExecuted? {
        assert ts == Trades(init) + [TradeRow(ev)];
        assert ts[..|ts| - 1] == Trades(init);
        assert r.tape == TradeTape.Insert(m.tape, TradeRow(ev));
      } else {
        assert ts == Trades(init) + [];
        assert ts == Trades(init);
        assert r.tape == m.tape;
      }
    }
  }

  /** Over any run of events the tape is the newest (at most 30) trades
      seen, newest first. */
  lemma RunTapeNewest(e: State, evs: seq<Event>)
    requires Tradable(e.account) && |e.tape| <= TradeTape.Capacity && AllAdmissible(evs)
    ensures Run(e, evs).tape == First(Reverse(Trades(evs)) + e.tape, TradeTape.Capacity)
  {
    RunTape(e, evs);
    TradeTape.InsertAllKeepsNewest(e.tape, Trades(evs));
  }

  /** No order-book event in a run: the panel stays as it was. */
  lemma {:induction false} RunKeepsBook(e: State, evs: seq<Event>)
    requires Tradable(e.account) && AllAdmissible(evs)
    requires forall i :: 0 <= i < |evs| ==> !evs[i].OrderbookUpdate?
    ensures Run(e, evs).book == e.book
    decreases |evs|
  {
    if evs != [] {
      var init := evs[..|evs| - 1];
      AdmissiblePrefix(evs);
      forall i | 0 <= i < |init|
        ensures !init[i].OrderbookUpdate?
      {
        assert init[i] == evs[i];
      }
      RunKeepsBook(e, init);
      assert Run(e, evs) == Step(Run(e, init), evs[|evs| - 1]);
    }
  }

  /** The panel shows the rendering of the latest order-book event of a
      run, whatever comes after it. */
  lemma {:induction false} RunBook(e: State, evs: seq<Event>, k: nat)
    requires Tradable(e.account) && AllAdmissible(evs)
    requires k < |evs| && evs[k].OrderbookUpdate?
    requires forall j :: k < j < |evs| ==> !evs[j].OrderbookUpdate?
    ensures Admissible(evs[k])
    ensures Run(e, evs).book == Shown(OrderBook.Render(evs[k].units, evs[k].totalAsk, evs[k].totalBid))
    decreases |evs|
  {
    var init := evs[..|evs| - 1];
    var ev := evs[|evs| - 1];
    AdmissiblePrefix(evs);
    var r := Step(Run(e, init), ev);
    assert Run(e, evs).book == r.book;
    if k < |evs| - 1 {
      assert init[k] == evs[k];
      forall j | k < j < |init|
        ensures !init[j].OrderbookUpdate?
      {
        assert init[j] == evs[j];
      }
      RunBook(e, init, k);
      assert !ev.OrderbookUpdate?;
    }
  }

  /** Over any run of events the log is only appended to. */
  lemma {:induction false} RunLogGrows(e: State, evs: seq<Event>)
    requires Tradable(e.account) && AllAdmissible(evs)
    ensures |Run(e, evs).log| >= |e.log| && Run(e, evs).log[..|e.log|] == e.log
    decreases |evs|
  {
    if evs != [] {
      var init := evs[..|evs| - 1];
      var ev := evs[|evs| - 1];
      AdmissiblePrefix(evs);
      RunLogGrows(e, init);
      var m := Run(e, init);
      var r := Step(m, ev);
      assert r.log[..|m.log|] == m.log;
      assert r.log[..|e.log|] == m.log[..|e.log|];
    }
  }

  /** A session started from the constructed engine: every state it reaches
      is valid (positive balance, non-negative holdings, a positive entry
      price while Long), its window is the last 14 ticker prices and its
      tape the newest 30 trades. */
  lemma {:induction false} SessionFromInit(evs: seq<Event>)
    requires AllAdmissible(evs)
    ensures var r := Run(Init(), evs);
            && Valid(r)
            && r.prices == Last(TickerPrices(evs), PriceWindow.Capacity)
            && r.tape == First(Reverse(Trades(evs)), TradeTape.Capacity)
  {
    RunKeepsValid(Init(), evs);
    RunWindow(Init(), evs);
    RunTapeNewest(Init(), evs);
    assert [] + TickerPrices(evs) == TickerPrices(evs);
    assert Reverse(Trades(evs)) + [] == Reverse(Trades(evs));
  }

  /** Arming a fresh engine and feeding it one ticker whose draw exceeds
      0.98 opens a position: the session holds exactly the Buy of the whole
      starting balance's 99% at that price, and its log reads ACTIVATED,
      then the buy line. */
  lemma ArmedSessionEnters(price: real, draw: real)
    requires price > 0.0 && draw > RandomEntryAbove
    ensures var r := Run(Init(), [ToggleSystem, TickerPrice(price, draw)]);
            && r.running && !Flat(r.account)
            && r.account == Buy(Ledger.Initial(), price)
            && r.log == [LogLine(Sys, Activated), LogLine(BuyClass, BuyExecuted(price))]
  {
    var evs := [ToggleSystem, TickerPrice(price, draw)];
    assert evs[..1] == [ToggleSystem];
    assert [ToggleSystem][..0] == [];
    var armed := Run(Init(), [ToggleSystem]);
    assert armed == Toggle(Init());
    FlatTickBuysIff(armed, price, draw);
  }
}
