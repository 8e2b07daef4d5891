/** The return estimator of the policy-gradient agent: discounted returns of
    one episode's rewards, computed by a reverse loop with a running
    accumulator, and their mean-centring before they are handed to the
    optimiser as targets. */
module Returns {

  /** The discount factor γ of the agent. */
  const Gamma: real := 0.99

  /** Specification of the discounted return at step t:
      G_t = r_t + γ·G_{t+1}, and G_n = 0 past the last step. */
  function Disc(rs: seq<real>, t: nat): real
    requires t <= |rs|
    decreases |rs| - t
  {
    if t == |rs| then 0.0 else rs[t] + Gamma * Disc(rs, t + 1)
  }

  /** The whole sequence of discounted returns, one per reward. */
  function ReturnsOf(rs: seq<real>): (g: seq<real>)
    ensures |g| == |rs|
  {
    seq(|rs|, i requires 0 <= i < |rs| => Disc(rs, i))
  }

  /** x to the power k. */
  function Pow(x: real, k: nat): real
  {
    if k == 0 then 1.0 else x * Pow(x, k - 1)
  }

  /** Reference definition: Σ_{k < m} γ^k · rs[t + k], summed front to back. */
  function WeightedSum(rs: seq<real>, t: nat, m: nat): real
    requires t + m <= |rs|
  {
    if m == 0 then 0.0 else WeightedSum(rs, t, m - 1) + Pow(Gamma, m - 1) * rs[t + m - 1]
  }

  /** Peeling the first term off the weighted sum leaves γ times the sum
      that starts one step later. */
  lemma {:induction false} WeightedSumStep(rs: seq<real>, t: nat, m: nat)
    requires t + m + 1 <= |rs|
    ensures WeightedSum(rs, t, m + 1) == rs[t] + Gamma * WeightedSum(rs, t + 1, m)
  {
    if m > 0 {
      WeightedSumStep(rs, t, m - 1);
      var p := Pow(Gamma, m - 1);
      var x := rs[t + m];
      calc {
        WeightedSum(rs, t, m + 1);
        WeightedSum(rs, t, m) + Pow(Gamma, m) * x;
        rs[t] + Gamma * WeightedSum(rs, t + 1, m - 1) + (Gamma * p) * x;
        rs[t] + Gamma * (WeightedSum(rs, t + 1, m - 1) + p * x);
        rs[t] + Gamma * WeightedSum(rs, t + 1, m);
      }
    }
  }

  /** The recurrence has the closed form G_t = Σ_{k=0}^{n-1-t} γ^k · r_{t+k}. */
  lemma {:induction false} DiscClosedForm(rs: seq<real>, t: nat)
    requires t <= |rs|
    ensures Disc(rs, t) == WeightedSum(rs, t, |rs| - t)
    decreases |rs| - t
  {
    if t < |rs| {
      DiscClosedForm(rs, t + 1);
      WeightedSumStep(rs, t, |rs| - t - 1);
    }
  }

  /** Three rewards of 1 give the returns [2.9701, 1.99, 1.0]. */
  lemma DiscExample()
    ensures ReturnsOf([1.0, 1.0, 1.0]) == [2.9701, 1.99, 1.0]
  {
  }

  /** The reverse loop of the trainer: `discounted` starts as zeros, and the
      accumulator is multiplied by γ and gets the reward of each index, last
      index first. */
  method DiscountedReturns(rewards: seq<real>) returns (discounted: seq<real>)
    ensures |discounted| == |rewards|
    ensures |rewards| > 0 ==> discounted[|rewards| - 1] == rewards[|rewards| - 1]
    ensures forall i :: 0 <= i < |rewards| - 1 ==> discounted[i] == rewards[i] + Gamma * discounted[i + 1]
    ensures forall i :: 0 <= i < |rewards| ==> discounted[i] == WeightedSum(rewards, i, |rewards| - i)
    ensures discounted == ReturnsOf(rewards)
  {
    var d := new real[|rewards|](_ => 0.0);
    var runningAdd := 0.0;
    var index := |rewards|;
    while index > 0
      invariant 0 <= index <= |rewards|
      invariant runningAdd == Disc(rewards, index)
      invariant forall k :: index <= k < |rewards| ==> d[k] == Disc(rewards, k)
    {
      index := index - 1;
      runningAdd := runningAdd * Gamma + rewards[index];
      d[index] := runningAdd;
    }
    discounted := d[..];
    assert forall i :: 0 <= i < |rewards| ==> discounted[i] == Disc(rewards, i);
    assert discounted == ReturnsOf(rewards);
    forall i | 0 <= i < |rewards|
      ensures discounted[i] == WeightedSum(rewards, i, |rewards| - i)
    {
      DiscClosedForm(rewards, i);
    }
  }

  /** Sum of a sequence of reals. */
  function Sum(xs: seq<real>): real
  {
    if xs == [] then 0.0 else xs[0] + Sum(xs[1..])
  }

  /** Arithmetic mean, as `np.mean`. */
  function Mean(xs: seq<real>): real
    requires |xs| > 0
  {
    Sum(xs) / (|xs| as real)
  }

  /** Element-wise subtraction of a constant, as numpy's `xs -= c`. */
  function Shift(xs: seq<real>, c: real): (r: seq<real>)
    ensures |r| == |xs|
  {
    if xs == [] then [] else [xs[0] - c] + Shift(xs[1..], c)
  }

  /** Every element is lowered by c. */
  lemma {:induction false} ShiftAt(xs: seq<real>, c: real, i: nat)
    requires i < |xs|
    ensures Shift(xs, c)[i] == xs[i] - c
  {
    if i > 0 {
      ShiftAt(xs[1..], c, i - 1);
    }
  }

  /** The sequence with its own mean subtracted from every element. */
  function Center(xs: seq<real>): (r: seq<real>)
    requires |xs| > 0
    ensures |r| == |xs|
    ensures forall i :: 0 <= i < |xs| ==> r[i] == xs[i] - Mean(xs)
  {
    assert forall i :: 0 <= i < |xs| ==> Shift(xs, Mean(xs))[i] == xs[i] - Mean(xs) by {
      forall i | 0 <= i < |xs| {
        ShiftAt(xs, Mean(xs), i);
      }
    }
    Shift(xs, Mean(xs))
  }

  lemma {:induction false} SumShift(xs: seq<real>, c: real)
    ensures Sum(Shift(xs, c)) == Sum(xs) - (|xs| as real) * c
  {
    if xs != [] {
      SumShift(xs[1..], c);
      assert Shift(xs, c)[1..] == Shift(xs[1..], c);
    }
  }

  /** Centred returns sum to zero, so their mean is zero. */
  lemma CenterHasMeanZero(xs: seq<real>)
    requires |xs| > 0
    ensures Sum(Center(xs)) == 0.0
    ensures Mean(Center(xs)) == 0.0
  {
    var n := |xs| as real;
    SumShift(xs, Mean(xs));
    assert n * (Sum(xs) / n) == Sum(xs);
  }
}
