/** The episode scores kept by the control loop and the rolling average over
    the most recent of them that decides when training stops. */
module Scores {

  /** Number of most recent episodes the rolling average covers. */
  const AvgWindow: nat := 30

  /** Sum of a sequence of scores, accumulated from the last one. */
  function SumNat(s: seq<nat>): nat
  {
    if s == [] then 0 else SumNat(s[..|s| - 1]) + s[|s| - 1]
  }

  /** Appending one score adds it to the total. */
  lemma SumNatAppend(s: seq<nat>, x: nat)
    ensures SumNat(s + [x]) == SumNat(s) + x
  {
    assert (s + [x])[..|s|] == s;
  }

  /** The number of scores the rolling average takes: min(30, |s|). */
  function WindowSize(s: seq<nat>): (k: nat)
    ensures k <= |s| && k <= AvgWindow
    ensures k == AvgWindow || k == |s|
  {
    if |s| < AvgWindow then |s| else AvgWindow
  }

  /** Mean of the last min(30, |s|) scores, as `np.mean(scores[-min(30, len(scores)):])`. */
  function AvgLast(s: seq<nat>): (a: real)
    requires |s| > 0
    ensures 0.0 <= a
    ensures (WindowSize(s) as real) * a == SumNat(s[|s| - WindowSize(s)..]) as real
  {
    var k := WindowSize(s);
    (SumNat(s[|s| - k..]) as real) / (k as real)
  }

  /** The `avg_score` variable after the episodes whose scores are s: 0 before any. */
  function RollingAvg(s: seq<nat>): real
  {
    if |s| == 0 then 0.0 else AvgLast(s)
  }

  /** (n + 1) · x == n · x + x. */
  lemma MulSucc(n: nat, x: nat)
    ensures (n + 1) * x == n * x + x
  {
  }

  lemma {:induction false} SumNatBounds(s: seq<nat>, lo: nat, hi: nat)
    requires forall i :: 0 <= i < |s| ==> lo <= s[i] <= hi
    ensures |s| * lo <= SumNat(s) <= |s| * hi
  {
    if s != [] {
      var n := |s| - 1;
      var p := s[..n];
      assert forall i :: 0 <= i < |p| ==> p[i] == s[i];
      SumNatBounds(p, lo, hi);
      assert SumNat(s) == SumNat(p) + s[n];
      MulSucc(n, lo);
      MulSucc(n, hi);
    }
  }

  /** Dividing a sum bounded by k·lo and k·hi by k gives a value between lo and hi. */
  lemma DivBounds(sum: nat, k: nat, lo: nat, hi: nat)
    requires k > 0 && k * lo <= sum <= k * hi
    ensures (lo as real) <= (sum as real) / (k as real) <= (hi as real)
  {
    var kr, sr, lr, hr := k as real, sum as real, lo as real, hi as real;
    assert (k * lo) as real == kr * lr;
    assert (k * hi) as real == kr * hr;
    assert (sr / kr) * kr == sr;
  }

  /** The sum of the averaged window lies between k·lo and k·hi. */
  lemma WindowSumBounds(s: seq<nat>, lo: nat, hi: nat)
    requires forall i :: |s| - WindowSize(s) <= i < |s| ==> lo <= s[i] <= hi
    ensures WindowSize(s) * lo <= SumNat(s[|s| - WindowSize(s)..]) <= WindowSize(s) * hi
  {
    var w := s[|s| - WindowSize(s)..];
    assert forall j :: 0 <= j < |w| ==> w[j] == s[|s| - WindowSize(s) + j];
    SumNatBounds(w, lo, hi);
  }

  /** The rolling average lies between the least and the greatest score of its window. */
  lemma AvgLastBounds(s: seq<nat>, lo: nat, hi: nat)
    requires |s| > 0
    requires forall i :: |s| - WindowSize(s) <= i < |s| ==> lo <= s[i] <= hi
    ensures (lo as real) <= AvgLast(s) <= (hi as real)
  {
    WindowSumBounds(s, lo, hi);
    DivBounds(SumNat(s[|s| - WindowSize(s)..]), WindowSize(s), lo, hi);
  }

  /** Once there are at least 30 scores, the average depends on the last 30 only. */
  lemma AvgLastWindow(p: seq<nat>, s: seq<nat>)
    requires |s| >= AvgWindow
    ensures AvgLast(p + s) == AvgLast(s)
  {
    var ps := p + s;
    assert ps[|ps| - AvgWindow..] == s[|s| - AvgWindow..];
  }

  /** The average can reach a threshold only if some score of the window does. */
  lemma AvgReachedNeedsScore(s: seq<nat>, threshold: nat)
    requires |s| > 0 && (threshold as real) <= AvgLast(s)
    ensures exists i :: |s| - WindowSize(s) <= i < |s| && threshold <= s[i]
  {
    if forall i :: |s| - WindowSize(s) <= i < |s| ==> s[i] < threshold {
      AvgLastBounds(s, 0, threshold - 1);
    }
  }
}
