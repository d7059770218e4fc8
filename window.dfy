/**
 * The sliding window of recent non-zero samples kept by the averaging
 * coroutine in Lab6-2/Lab6-2.cpp (a `std::deque<double>` there), and the
 * mean that the coroutine publishes.  Samples are exact reals.
 */
module Window {

  /** The window never holds more than this many samples. */
  const Capacity: nat := 3

  /** Left-to-right sum, the order `std::accumulate` adds in, starting from 0.0. */
  function Sum(s: seq<real>): real
  {
    if s == [] then 0.0 else Sum(s[..|s| - 1]) + s[|s| - 1]
  }

  /** The published average of a window; an empty window averages 0.0. */
  function Mean(s: seq<real>): (r: real)
    ensures s == [] ==> r == 0.0
    ensures |s| == 1 ==> r == s[0]
  {
    if s == [] then 0.0
    else
      assert |s| == 1 ==> Sum(s) == s[0] by {
        if |s| == 1 { assert s[..0] == []; }
      }
      Sum(s) / (|s| as real)
  }

  /** The last `n` elements of `s`, or all of `s` when it is shorter. */
  function LastN(s: seq<real>, n: nat): (r: seq<real>)
    ensures |r| == if |s| <= n then |s| else n
    ensures forall i :: 0 <= i < |r| ==> r[i] == s[|s| - |r| + i]
  {
    if |s| <= n then s else s[|s| - n..]
  }

  /** `push_back` of a sample, then `pop_front` when the window would exceed its capacity. */
  function Push(w: seq<real>, x: real): (r: seq<real>)
    ensures |w| <= Capacity ==> |r| <= Capacity
    ensures r != [] && r[|r| - 1] == x
    ensures |w| < Capacity ==> r == w + [x]
    ensures |w| == Capacity ==> r == w[1..] + [x]
  {
    var v := w + [x];
    if |v| > Capacity then v[1..] else v
  }

  /** FIFO eviction: a window that is the last samples of a stream stays so after a push. */
  lemma PushKeepsLastThree(xs: seq<real>, x: real)
    ensures Push(LastN(xs, Capacity), x) == LastN(xs + [x], Capacity)
  {
    var w := LastN(xs, Capacity);
    if |xs| >= Capacity {
      assert w == xs[|xs| - Capacity..];
      assert w[1..] + [x] == (xs + [x])[|xs| + 1 - Capacity..];
    } else {
      assert w + [x] == xs + [x];
    }
  }

  /** Samples older than the window's capacity have no effect on it. */
  lemma LastNForgetsPrefix(a: seq<real>, t: seq<real>)
    requires |t| >= Capacity
    ensures LastN(a + t, Capacity) == LastN(t, Capacity)
  {
    assert (a + t)[|a + t| - Capacity..] == t[|t| - Capacity..];
  }

  /** The sum lies between `|s|` times a lower and an upper bound of the samples. */
  lemma {:induction false} SumBounds(s: seq<real>, lo: real, hi: real)
    requires forall i :: 0 <= i < |s| ==> lo <= s[i] <= hi
    ensures (|s| as real) * lo <= Sum(s) <= (|s| as real) * hi
  {
    if s != [] {
      var init := s[..|s| - 1];
      assert forall i :: 0 <= i < |init| ==> init[i] == s[i];
      SumBounds(init, lo, hi);
      var m := |init| as real;
      assert Sum(s) == Sum(init) + s[|s| - 1];
      assert (|s| as real) * lo == m * lo + lo && (|s| as real) * hi == m * hi + hi;
    }
  }

  /** The mean of a non-empty window lies between any lower and upper bound of its samples. */
  lemma MeanBounds(s: seq<real>, lo: real, hi: real)
    requires s != []
    requires forall i :: 0 <= i < |s| ==> lo <= s[i] <= hi
    ensures lo <= Mean(s) <= hi
  {
    SumBounds(s, lo, hi);
    var n := |s| as real;
    assert Mean(s) == Sum(s) / n;
    assert n * lo <= Sum(s) <= n * hi;
    assert lo == (n * lo) / n && hi == (n * hi) / n;
  }
}
