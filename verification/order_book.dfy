/** The order-book panel: the top levels of each side and the bar widths
    drawn behind them, plus the bid/ask liquidity split. The feed delivers
    one list of units, each pairing an ask level with a bid level, with asks
    in ascending price order. */
module OrderBook {
  import opened Seqs
  import opened Arith

  /** Levels shown per side. */
  const Depth: nat := 8

  /** A level's share of its side total is scaled by this... */
  const WidthScale: real := 500.0

  /** ...and capped at this percentage. */
  const MaxWidth: real := 100.0

  datatype Unit = Unit(askPrice: real, askSize: real, bidPrice: real, bidSize: real)

  /** One rendered level: its price, size and bar width in percent. */
  datatype Row = Row(price: real, size: real, width: real)

  datatype Panel = Panel(asks: seq<Row>, bids: seq<Row>, bidRatio: real, askRatio: real)

  /** Width of a level's bar: five times its share of the side, capped at 100%. */
  function Width(size: real, total: real): (w: real)
    requires total > 0.0
    ensures w <= MaxWidth
    ensures size >= 0.0 ==> w >= 0.0
    ensures w == MaxWidth <==> 5.0 * size >= total
    ensures w < MaxWidth ==> w * total == WidthScale * size
  {
    var scaled := size / total * 500.0;
    ScaledShare(size, total);
    if scaled < 100.0 then scaled else 100.0
  }

  lemma ScaledShare(size: real, total: real)
    requires total > 0.0
    ensures size / total * 500.0 < 100.0 <==> 5.0 * size < total
    ensures size / total * 500.0 * total == 500.0 * size
    ensures size >= 0.0 ==> size / total * 500.0 >= 0.0
  {
    var share := size / total;
    assert share * total == size;
    ScaleLess(share, 0.2, total);
  }

  /** A larger level never gets a shorter bar: widths follow sizes within a side. */
  lemma WidthMonotone(small: real, large: real, total: real)
    requires total > 0.0 && small <= large
    ensures Width(small, total) <= Width(large, total)
  {
    var ws, wl := Width(small, total), Width(large, total);
    if wl < MaxWidth {
      assert 5.0 * small < total;
      assert ws < MaxWidth;
      ShareOrder(ws, wl, small, large, total);
    }
  }

  lemma ShareOrder(ws: real, wl: real, small: real, large: real, total: real)
    requires total > 0.0 && small <= large
    requires ws * total == 500.0 * small && wl * total == 500.0 * large
    ensures ws <= wl
  {
    ScaleLess(wl, ws, total);
  }

  /** The ask levels shown: the feed's units reversed (highest ask first),
      then the first Depth of them. */
  function AskLevels(units: seq<Unit>): (asks: seq<Unit>)
    ensures |asks| == Min(Depth, |units|)
    ensures forall i :: 0 <= i < |asks| ==> asks[i] == units[|units| - 1 - i]
  {
    First(Reverse(units), Depth)
  }

  /** The bid levels shown: the first Depth units in the feed's own order;
      reversing a copy for the asks leaves this order untouched. */
  function BidLevels(units: seq<Unit>): (bids: seq<Unit>)
    ensures bids == units[..Min(Depth, |units|)]
  {
    First(units, Depth)
  }

  /** The ask rows, each bar measured against the total ask size. */
  function AskRows(asks: seq<Unit>, totalAsk: real): (rows: seq<Row>)
    requires |asks| > 0 ==> totalAsk > 0.0
    ensures |rows| == |asks|
    ensures forall i :: 0 <= i < |rows| ==>
              rows[i].price == asks[i].askPrice && rows[i].size == asks[i].askSize
              && rows[i].width == Width(asks[i].askSize, totalAsk)
  {
    seq(|asks|, i requires 0 <= i < |asks| =>
      Row(asks[i].askPrice, asks[i].askSize, Width(asks[i].askSize, totalAsk)))
  }

  /** The bid rows, each bar measured against the total bid size. */
  function BidRows(bids: seq<Unit>, totalBid: real): (rows: seq<Row>)
    requires |bids| > 0 ==> totalBid > 0.0
    ensures |rows| == |bids|
    ensures forall i :: 0 <= i < |rows| ==>
              rows[i].price == bids[i].bidPrice && rows[i].size == bids[i].bidSize
              && rows[i].width == Width(bids[i].bidSize, totalBid)
  {
    seq(|bids|, i requires 0 <= i < |bids| =>
      Row(bids[i].bidPrice, bids[i].bidSize, Width(bids[i].bidSize, totalBid)))
  }

  /** The whole panel for one order-book event. The side totals cover the
      whole book, not only the levels shown. A side's total is a divisor only
      when that side has rows; the ratio bar always divides by the sum. */
  function Render(units: seq<Unit>, totalAsk: real, totalBid: real): (p: Panel)
    requires |units| > 0 ==> totalAsk > 0.0 && totalBid > 0.0
    requires totalAsk + totalBid > 0.0
    ensures |p.asks| == Min(Depth, |units|) && |p.bids| == Min(Depth, |units|)
    ensures forall i :: 0 <= i < |p.asks| ==>
              p.asks[i].price == units[|units| - 1 - i].askPrice
              && p.asks[i].size == units[|units| - 1 - i].askSize
    ensures forall i :: 0 <= i < |p.bids| ==>
              p.bids[i].price == units[i].bidPrice && p.bids[i].size == units[i].bidSize
    ensures forall i :: 0 <= i < |p.asks| ==>
              p.asks[i].width == Width(units[|units| - 1 - i].askSize, totalAsk)
    ensures forall i :: 0 <= i < |p.bids| ==>
              p.bids[i].width == Width(units[i].bidSize, totalBid)
    ensures p.bidRatio + p.askRatio == 100.0
    ensures p.bidRatio * (totalAsk + totalBid) == 100.0 * totalBid
  {
    var asks := AskLevels(units);
    var bids := BidLevels(units);
    var total := totalAsk + totalBid;
    var bidRatio := totalBid / total * 100.0;
    var askRatio := totalAsk / total * 100.0;
    assert totalBid / total * total == totalBid;
    assert totalAsk / total * total == totalAsk;
    assert bidRatio * total == 100.0 * totalBid;
    assert askRatio * total == 100.0 * totalAsk;
    Quotient(bidRatio + askRatio, 100.0 * total, total);
    Panel(AskRows(asks, totalAsk), BidRows(bids, totalBid), bidRatio, askRatio)
  }

  /** With non-negative side totals both ratio bars lie in [0, 100]. */
  lemma RatiosInRange(units: seq<Unit>, totalAsk: real, totalBid: real)
    requires |units| > 0 ==> totalAsk > 0.0 && totalBid > 0.0
    requires totalAsk >= 0.0 && totalBid >= 0.0 && totalAsk + totalBid > 0.0
    ensures var p := Render(units, totalAsk, totalBid);
            0.0 <= p.bidRatio <= 100.0 && 0.0 <= p.askRatio <= 100.0
  {
    var p := Render(units, totalAsk, totalBid);
    var total := totalAsk + totalBid;
    assert p.bidRatio * total == 100.0 * totalBid;
    assert p.askRatio * total == 100.0 * totalAsk;
    ScaleLess(p.bidRatio, 0.0, total);
    ScaleLess(p.askRatio, 0.0, total);
  }

  /** Ten ask levels in ascending price order: the panel shows the eight
      highest, highest first, and the bids keep the feed's first eight. */
  lemma TenLevels(units: seq<Unit>, totalAsk: real, totalBid: real)
    requires |units| == 10
    requires totalAsk > 0.0 && totalBid > 0.0
    requires forall i, j :: 0 <= i < j < |units| ==> units[i].askPrice < units[j].askPrice
    ensures var p := Render(units, totalAsk, totalBid);
            && |p.asks| == 8 && p.asks[0].price == units[9].askPrice
            && p.asks[7].price == units[2].askPrice
            && (forall i, j :: 0 <= i < j < 8 ==> p.asks[i].price > p.asks[j].price)
            && |p.bids| == 8 && p.bids[7].price == units[7].bidPrice
  {
    var p := Render(units, totalAsk, totalBid);
    forall i, j | 0 <= i < j < 8
      ensures p.asks[i].price > p.asks[j].price
    {
      assert p.asks[i].price == units[9 - i].askPrice;
      assert p.asks[j].price == units[9 - j].askPrice;
    }
  }
}
