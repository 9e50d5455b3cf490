/** Sequence helpers shared by the bounded buffers of the engine: the price
    window keeps a suffix, the trade tape and the order book keep a prefix,
    and the ask side of the book is read in reverse. */
module Seqs {

  /** The smaller of two naturals. */
  function Min(a: nat, b: nat): nat {
    if a <= b then a else b
  }

  /** The first min(n, |s|) elements of s. */
  function First<T>(s: seq<T>, n: nat): (r: seq<T>)
    ensures |r| == Min(n, |s|)
    ensures forall i :: 0 <= i < |r| ==> r[i] == s[i]
  {
    if |s| <= n then s else s[..n]
  }

  /** The last min(n, |s|) elements of s, in their original order. */
  function Last<T>(s: seq<T>, n: nat): (r: seq<T>)
    ensures |r| == Min(n, |s|)
    ensures forall i :: 0 <= i < |r| ==> r[i] == s[|s| - |r| + i]
  {
    if |s| <= n then s else s[|s| - n..]
  }

  /** s read back to front: element i of the result is element |s|-1-i of s. */
  function Reverse<T>(s: seq<T>): (r: seq<T>)
    ensures |r| == |s|
    ensures forall i :: 0 <= i < |s| ==> r[i] == s[|s| - 1 - i]
    decreases |s|
  {
    if s == [] then [] else [s[|s| - 1]] + Reverse(s[..|s| - 1])
  }

  /** Appending one element to a sequence puts it at the front of the reverse. */
  lemma ReverseSnoc<T>(s: seq<T>, x: T)
    ensures Reverse(s + [x]) == [x] + Reverse(s)
  {
    assert (s + [x])[..|s|] == s;
  }

  /** Splitting off the last element of the second operand of a
      concatenation and appending it again gives the concatenation back. */
  lemma AppendLast<T>(w: seq<T>, s: seq<T>)
    requires |s| > 0
    ensures w + s[..|s| - 1] + [s[|s| - 1]] == w + s
  {
    assert s[..|s| - 1] + [s[|s| - 1]] == s;
  }

  /** Taking the last n of an already trimmed sequence, extended by t, is the
      same as taking the last n of the untrimmed sequence extended by t. */
  lemma LastOfLast<T>(s: seq<T>, t: seq<T>, n: nat)
    ensures Last(Last(s, n) + t, n) == Last(s + t, n)
  {
    var a := Last(Last(s, n) + t, n);
    var b := Last(s + t, n);
    assert |a| == |b|;
    forall i | 0 <= i < |a|
      ensures a[i] == b[i]
    {
      var k := |t| - |a| + i;
      if k >= 0 {
        assert a[i] == t[k];
        assert b[i] == t[k];
      }
    }
  }

  /** Symmetrically, trimming the front after a prepend. */
  lemma FirstOfFirst<T>(t: seq<T>, s: seq<T>, n: nat)
    ensures First(t + First(s, n), n) == First(t + s, n)
  {
    var a := First(t + First(s, n), n);
    var b := First(t + s, n);
    assert |a| == |b|;
    forall i | 0 <= i < |a|
      ensures a[i] == b[i]
    {
      if i >= |t| {
        assert a[i] == s[i - |t|];
      }
    }
  }
}
