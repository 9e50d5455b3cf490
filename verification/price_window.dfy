/** The engine's buffer of recent ticker prices, read by the momentum
    indicator. Every ticker event appends its trade price; once the buffer
    holds more than Capacity prices the oldest one is shifted out. */
module PriceWindow {
  import opened Seqs

  /** Number of prices the window retains (one RSI period). */
  const Capacity: nat := 14

  /** The window after one ticker price arrives: the price is appended and,
      if that overfills the window, exactly one price (the oldest) is dropped. */
  function Push(w: seq<real>, p: real): (r: seq<real>)
    ensures |r| > 0 && r[|r| - 1] == p
    ensures |w| < Capacity ==> r == w + [p]
    ensures |w| == Capacity ==> r == w[1..] + [p]
    ensures |w| <= Capacity ==> |r| <= Capacity && r == Last(w + [p], Capacity)
  {
    var t := w + [p];
    if |t| > Capacity then t[1..] else t
  }

  /** The window after a run of ticker prices, oldest first. */
  function PushAll(w: seq<real>, ps: seq<real>): seq<real>
    decreases |ps|
  {
    if ps == [] then w else Push(PushAll(w, ps[..|ps| - 1]), ps[|ps| - 1])
  }

  /** Starting from any window that respects the capacity, the window after
      any run of prices is exactly the last (at most) Capacity prices seen,
      in arrival order; in particular it never exceeds Capacity. */
  lemma {:induction false} PushAllKeepsLast(w: seq<real>, ps: seq<real>)
    requires |w| <= Capacity
    ensures PushAll(w, ps) == Last(w + ps, Capacity)
    ensures |PushAll(w, ps)| <= Capacity
    decreases |ps|
  {
    if ps == [] {
      assert w + ps == w;
    } else {
      var init := ps[..|ps| - 1];
      var p := ps[|ps| - 1];
      PushAllKeepsLast(w, init);
      var before := PushAll(w, init);
      assert PushAll(w, ps) == Push(before, p);
      LastOfLast(w + init, [p], Capacity);
      AppendLast(w, ps);
      assert Push(before, p) == Last(before + [p], Capacity);
    }
  }

  /** From the empty start-up window, after N prices the window is the last
      min(N, 14) of them, oldest first. */
  lemma {:induction false} FromEmpty(ps: seq<real>)
    ensures |PushAll([], ps)| == Min(Capacity, |ps|)
    ensures forall i :: 0 <= i < |PushAll([], ps)| ==>
              PushAll([], ps)[i] == ps[|ps| - |PushAll([], ps)| + i]
  {
    var empty: seq<real> := [];
    assert empty + ps == ps;
    PushAllKeepsLast(empty, ps);
    var r := PushAll(empty, ps);
    assert r == Last(ps, Capacity);
    assert |r| == Min(Capacity, |ps|);
    assert forall i :: 0 <= i < |r| ==> r[i] == ps[|ps| - |r| + i];
  }
}
