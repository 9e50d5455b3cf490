/** The trade tape: recent executions, newest first. Each trade event puts a
    new row at the top of the list and, if the list then holds more than
    Capacity rows, removes the bottom (oldest) one. */
module TradeTape {
  import opened Seqs

  /** Rows the tape keeps. */
  const Capacity: nat := 30

  /** Which side of the book the taker hit; the feed marks buys "BID". */
  datatype Side = Bid | Ask

  datatype Trade = Trade(price: real, volume: real, timestamp: int, side: Side)

  /** The colour side of a trade from the feed's ask/bid marker: "BID" is a
      buy, anything else is shown as a sell. */
  function SideOf(askBid: string): (s: Side)
    ensures s == Bid <==> askBid == "BID"
  {
    if askBid == "BID" then Bid else Ask
  }

  /** The tape after one trade event. */
  function Insert(tape: seq<Trade>, t: Trade): (r: seq<Trade>)
    ensures |r| > 0 && r[0] == t
    ensures |tape| < Capacity ==> r == [t] + tape
    ensures |tape| == Capacity ==> r == [t] + tape[..Capacity - 1]
    ensures |tape| <= Capacity ==> |r| <= Capacity && r == First([t] + tape, Capacity)
  {
    var l := [t] + tape;
    if |l| > Capacity then l[..|l| - 1] else l
  }

  /** The tape after a run of trade events, oldest event first. */
  function InsertAll(tape: seq<Trade>, ts: seq<Trade>): seq<Trade>
    decreases |ts|
  {
    if ts == [] then tape else Insert(InsertAll(tape, ts[..|ts| - 1]), ts[|ts| - 1])
  }

  /** After any run of trades the tape is the newest (at most) Capacity of
      all trades seen, newest first; it never exceeds Capacity. */
  lemma {:induction false} InsertAllKeepsNewest(tape: seq<Trade>, ts: seq<Trade>)
    requires |tape| <= Capacity
    ensures InsertAll(tape, ts) == First(Reverse(ts) + tape, Capacity)
    ensures |InsertAll(tape, ts)| <= Capacity
    decreases |ts|
  {
    if ts == [] {
      assert Reverse(ts) + tape == tape;
    } else {
      var init := ts[..|ts| - 1];
      var t := ts[|ts| - 1];
      InsertAllKeepsNewest(tape, init);
      FirstOfFirst([t], Reverse(init) + tape, Capacity);
      ReverseSnoc(init, t);
      assert init + [t] == ts;
      assert [t] + (Reverse(init) + tape) == Reverse(ts) + tape;
    }
  }

  /** From an empty tape, after 35 trades the tape holds exactly the newest
      30, latest on top; the five oldest are gone. */
  lemma ThirtyFiveTrades(ts: seq<Trade>)
    requires |ts| == 35
    ensures var tape := InsertAll([], ts);
            && |tape| == Capacity
            && (forall i :: 0 <= i < Capacity ==> tape[i] == ts[34 - i])
  {
    InsertAllKeepsNewest([], ts);
    assert Reverse(ts) + [] == Reverse(ts);
  }
}
