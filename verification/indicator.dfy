/** The engine's simplified 14-sample relative-strength index. Gains and
    losses are plain sums over consecutive price differences (no smoothing),
    and a window with no losses divides by 1 instead of 0. */
module Indicator {
  import opened Arith

  /** Number of samples the index needs before it leaves its neutral value. */
  const Period: nat := 14

  /** Value reported while the window is shorter than Period. */
  const Neutral: real := 50.0

  /** Sum of the positive differences between consecutive prices. */
  function Gains(s: seq<real>): (g: real)
    ensures g >= 0.0
    decreases |s|
  {
    if |s| < 2 then 0.0
    else
      var d := s[|s| - 1] - s[|s| - 2];
      Gains(s[..|s| - 1]) + (if d > 0.0 then d else 0.0)
  }

  /** Sum of the magnitudes of the non-positive differences between
      consecutive prices. */
  function Losses(s: seq<real>): (l: real)
    ensures l >= 0.0
    decreases |s|
  {
    if |s| < 2 then 0.0
    else
      var d := s[|s| - 1] - s[|s| - 2];
      Losses(s[..|s| - 1]) + (if d > 0.0 then 0.0 else -d)
  }

  /** The divisor of the relative strength: the losses, or 1 when there are none. */
  function Divisor(s: seq<real>): (v: real)
    ensures v > 0.0
    ensures Losses(s) > 0.0 ==> v == Losses(s)
  {
    var l := Losses(s);
    if l == 0.0 then 1.0 else l
  }

  /** The index of a price window: Neutral below Period samples, otherwise
      100 - 100/(1 + gains/divisor). */
  function Rsi(s: seq<real>): (r: real)
    ensures |s| < Period ==> r == Neutral
    ensures 0.0 <= r < 100.0
  {
    if |s| < Period then Neutral
    else
      var rs := Gains(s) / Divisor(s);
      RatioBound(Gains(s), Divisor(s));
      100.0 - 100.0 / (1.0 + rs)
  }

  lemma RatioBound(g: real, d: real)
    requires g >= 0.0 && d > 0.0
    ensures 0.0 <= 100.0 - 100.0 / (1.0 + g / d) < 100.0
  {
    var rs := g / d;
    assert rs >= 0.0;
    assert 100.0 / (1.0 + rs) <= 100.0;
    assert 100.0 / (1.0 + rs) > 0.0;
  }

  /** The accumulation loop of the indicator, as the engine runs it: one pass
      over consecutive pairs, each difference going to gains when positive
      and to losses otherwise. */
  method ComputeRsi(prices: seq<real>) returns (rsi: real)
    ensures rsi == Rsi(prices)
  {
    rsi := Neutral;
    if |prices| >= Period {
      var gains, losses := 0.0, 0.0;
      var i := 1;
      while i < |prices|
        invariant 1 <= i <= |prices|
        invariant gains == Gains(prices[..i])
        invariant losses == Losses(prices[..i])
      {
        var diff := prices[i] - prices[i - 1];
        assert prices[..i + 1][..i] == prices[..i];
        if diff > 0.0 {
          gains := gains + diff;
        } else {
          losses := losses - diff;
        }
        i := i + 1;
      }
      assert prices[..i] == prices;
      var rs := gains / (if losses == 0.0 then 1.0 else losses);
      rsi := 100.0 - 100.0 / (1.0 + rs);
    }
  }

  /** Telescoping: gains minus losses is the net move from the first to the
      last price of the window. */
  lemma {:induction false} NetMove(s: seq<real>)
    requires |s| >= 1
    ensures Gains(s) - Losses(s) == s[|s| - 1] - s[0]
    decreases |s|
  {
    if |s| >= 2 {
      NetMove(s[..|s| - 1]);
    }
  }

  /** Closed form independent of the reciprocal: with losses present the
      index is the gains' share of all movement; without losses the divisor
      1 stands in for them. */
  lemma ClosedForm(s: seq<real>)
    requires |s| >= Period
    ensures Losses(s) > 0.0 ==> Rsi(s) == 100.0 * Gains(s) / (Gains(s) + Losses(s))
    ensures Losses(s) == 0.0 ==> Rsi(s) == 100.0 * Gains(s) / (Gains(s) + 1.0)
  {
    var g, d := Gains(s), Divisor(s);
    ShareForm(g, d);
  }

  lemma ShareForm(g: real, d: real)
    requires g >= 0.0 && d > 0.0
    ensures 100.0 - 100.0 / (1.0 + g / d) == 100.0 * g / (g + d)
  {
    var q := 1.0 + g / d;
    assert g / d * d == g;
    assert q * d == d + g;
    var inv := 100.0 / q;
    assert inv * q == 100.0;
    assert inv * (g + d) == inv * q * d;
    var x := 100.0 - inv;
    assert x * (g + d) == 100.0 * g;
    Quotient(x, 100.0 * g, g + d);
  }

  /** The buy trigger on the index, restated on the sums: the index is below
      35 exactly when 13 times the gains is below 7 times the divisor. */
  lemma OversoldIff(s: seq<real>)
    requires |s| >= Period
    ensures Rsi(s) < 35.0 <==> 13.0 * Gains(s) < 7.0 * Divisor(s)
  {
    OversoldShare(Gains(s), Divisor(s));
  }

  lemma OversoldShare(g: real, d: real)
    requires g >= 0.0 && d > 0.0
    ensures 100.0 - 100.0 / (1.0 + g / d) < 35.0 <==> 13.0 * g < 7.0 * d
  {
    ShareForm(g, d);
    var x := 100.0 - 100.0 / (1.0 + g / d);
    assert x * (g + d) == 100.0 * g;
    ScaleLess(x, 35.0, g + d);
    assert x < 35.0 <==> 100.0 * g < 35.0 * (g + d);
  }

  /** Consequence of dividing by 1 when nothing fell: a full window in which
      the price never fell, and rose by less than 7/13 in total, reads as
      oversold (index below 35). A flat window counts here too: its zero
      differences go to the losses, which stay 0. */
  lemma RisingWindowReadsOversold(s: seq<real>)
    requires |s| >= Period
    requires Losses(s) == 0.0
    requires s[|s| - 1] - s[0] < 7.0 / 13.0
    ensures Rsi(s) < 35.0
  {
    NetMove(s);
    OversoldIff(s);
  }

  /** The classic fourteen-price test window. */
  const FixtureWindow: seq<real> := [44.0, 44.25, 44.5, 43.75, 44.5, 44.8, 45.35,
                                     45.1, 44.9, 45.4, 45.7, 45.6, 45.1, 45.4]

  /** Over the first 5 fixture prices the gains sum to 1.25 and the losses to 0.75. */
  lemma FixtureToFive()
    ensures Gains(FixtureWindow[..5]) == 1.25 && Losses(FixtureWindow[..5]) == 0.75
  {
    var s := FixtureWindow;
    assert Gains(s[..2]) == 0.25 && Losses(s[..2]) == 0.0 by {
      Unfold(s, 2);
    }
    assert Gains(s[..3]) == 0.5 && Losses(s[..3]) == 0.0 by {
      Unfold(s, 3);
    }
    assert Gains(s[..4]) == 0.5 && Losses(s[..4]) == 0.75 by {
      Unfold(s, 4);
    }
    assert Gains(s[..5]) == 1.25 && Losses(s[..5]) == 0.75 by {
      Unfold(s, 5);
    }
  }

  /** Over the first 9 fixture prices the gains sum to 2.1 and the losses to 1.2. */
  lemma FixtureToNine()
    ensures Gains(FixtureWindow[..9]) == 2.1 && Losses(FixtureWindow[..9]) == 1.2
  {
    var s := FixtureWindow;
    FixtureToFive();
    assert Gains(s[..6]) == 1.55 && Losses(s[..6]) == 0.75 by {
      Unfold(s, 6);
    }
    assert Gains(s[..7]) == 2.1 && Losses(s[..7]) == 0.75 by {
      Unfold(s, 7);
    }
    assert Gains(s[..8]) == 2.1 && Losses(s[..8]) == 1.0 by {
      Unfold(s, 8);
    }
    assert Gains(s[..9]) == 2.1 && Losses(s[..9]) == 1.2 by {
      Unfold(s, 9);
    }
  }

  /** Over the fixture the gains sum to 3.2 and the losses to 1.8. */
  lemma FixtureSums()
    ensures Gains(FixtureWindow) == 3.2 && Losses(FixtureWindow) == 1.8
  {
    var s := FixtureWindow;
    FixtureToNine();
    assert Gains(s[..10]) == 2.6 && Losses(s[..10]) == 1.2 by {
      Unfold(s, 10);
    }
    assert Gains(s[..11]) == 2.9 && Losses(s[..11]) == 1.2 by {
      Unfold(s, 11);
    }
    assert Gains(s[..12]) == 2.9 && Losses(s[..12]) == 1.3 by {
      Unfold(s, 12);
    }
    assert Gains(s[..13]) == 2.9 && Losses(s[..13]) == 1.8 by {
      Unfold(s, 13);
    }
    assert Gains(s[..14]) == 3.2 && Losses(s[..14]) == 1.8 by {
      Unfold(s, 14);
    }
    assert s[..14] == s;
  }

  /** The fixture's index: relative strength 3.2/1.8, index exactly 64. */
  lemma FixtureRsi()
    ensures Rsi(FixtureWindow) == 64.0
  {
    FixtureSums();
    ShareForm(3.2, 1.8);
  }

  /** One step of the sums: extending a prefix by one price adds its
      difference to exactly one of them. */
  lemma Unfold(s: seq<real>, k: nat)
    requires 2 <= k <= |s|
    ensures var d := s[k - 1] - s[k - 2];
            && Gains(s[..k]) == Gains(s[..k - 1]) + (if d > 0.0 then d else 0.0)
            && Losses(s[..k]) == Losses(s[..k - 1]) + (if d > 0.0 then 0.0 else -d)
  {
    assert s[..k][..k - 1] == s[..k - 1];
  }
}
