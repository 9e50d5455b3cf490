/** The simulated account the engine trades: a quote-currency (KRW) balance,
    a base-asset quantity and the price the open position was entered at.
    Only the two trading transitions, Buy and Sell, change it. */
module Ledger {
  import opened Arith

  /** Balance every session starts from; the wallet figures are relative to it. */
  const InitialBalance: real := 50000000.0

  /** Share of the balance committed on each entry. */
  const Allocation: real := 0.99

  /** Exchange fee charged on the notional of every buy and sell. */
  const FeeRate: real := 0.0005

  datatype Account = Account(balance: real, holdings: real, avgPrice: real)

  /** The account a session starts with: no position and no entry price. */
  function Initial(): (a: Account)
    ensures a.balance == InitialBalance && a.holdings == 0.0
  {
    Account(InitialBalance, 0.0, 0.0)
  }

  /** Opening a position at price: 99% of the balance is the notional, the
      position is notional / price, and the balance pays the notional plus
      the fee on it. Any previous holdings are overwritten, not added to. */
  function Buy(a: Account, price: real): (r: Account)
    requires price > 0.0
    ensures r.holdings * price == Allocation * a.balance
    ensures r.avgPrice == price
    ensures r.balance == a.balance - Allocation * a.balance - FeeRate * Allocation * a.balance
    ensures a.balance > 0.0 ==> r.balance > 0.0 && r.holdings > 0.0
  {
    var amount := a.balance * 0.99;
    var holdings := amount / price;
    var balance := a.balance - amount;
    var balance' := balance - amount * 0.0005;
    Account(balance', holdings, price)
  }

  /** Result of closing the position: the account and the trade's P&L. */
  datatype Sale = Sale(account: Account, pnl: real)

  /** Closing the position at price: the revenue net of the fee is credited,
      the P&L is that net revenue against the cost at the entry price, and the
      holdings drop to zero. The entry price itself is left as it was. */
  function Sell(a: Account, price: real): (r: Sale)
    ensures r.account.balance == a.balance + a.holdings * price * (1.0 - FeeRate)
    ensures r.pnl == a.holdings * price * (1.0 - FeeRate) - a.holdings * a.avgPrice
    ensures r.account.holdings == 0.0
    ensures r.account.avgPrice == a.avgPrice
  {
    var revenue := a.holdings * price;
    var fee := revenue * 0.0005;
    var balance := a.balance + (revenue - fee);
    var pnl := (revenue - fee) - (a.holdings * a.avgPrice);
    Sale(Account(balance, 0.0, a.avgPrice), pnl)
  }

  /** A full round trip, buying at p1 and selling at p2: the final balance is
      the 1% kept back, less the entry fee, plus the net sale revenue; the
      reported P&L leaves the entry fee out, so the balance moves by the P&L
      minus that fee. */
  lemma RoundTrip(a: Account, p1: real, p2: real)
    requires p1 > 0.0
    ensures var b := Buy(a, p1);
            var s := Sell(b, p2);
            && s.account.balance == a.balance * (1.0 - Allocation * (1.0 + FeeRate))
                                    + Allocation * a.balance * (1.0 - FeeRate) * p2 / p1
            && s.account.balance - a.balance == s.pnl - FeeRate * Allocation * a.balance
  {
    var b := Buy(a, p1);
    assert b.holdings * p1 == Allocation * a.balance;
    Quotient(b.holdings, Allocation * a.balance, p1);
  }

  /** Buying and selling at the same price costs both fees: 0.099% of the
      starting balance. */
  lemma RoundTripSamePrice(a: Account, p: real)
    requires p > 0.0
    ensures Sell(Buy(a, p), p).account.balance == a.balance * 0.99901
  {
    RoundTrip(a, p, p);
  }

  /** What the wallet panel shows for a balance. */
  datatype WalletView = WalletView(diff: real, rate: real, showsPlus: bool, upColour: bool)

  /** Difference and percentage against the fixed starting balance, with a
      '+' sign for a gain and the up colour for a gain or break-even. */
  function Wallet(balance: real): (w: WalletView)
    ensures w.diff + InitialBalance == balance
    ensures InitialBalance * (1.0 + w.rate / 100.0) == balance
    ensures w.rate > 0.0 <==> balance > InitialBalance
    ensures w.showsPlus <==> balance > InitialBalance
    ensures w.upColour <==> balance >= InitialBalance
  {
    var start := 50000000.0;
    var diff := balance - start;
    var rate := (diff / start) * 100.0;
    WalletView(diff, rate, diff > 0.0, diff >= 0.0)
  }
}
