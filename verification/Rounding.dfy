/** Two-decimal rounding and averages over the reals. */
module Rounding {

  /** The nearest integer; a tie goes to the even one. */
  function NearestInteger(x: real): int {
    var below := x.Floor;
    var rest := x - below as real;
    if rest < 0.5 || (rest == 0.5 && below % 2 == 0) then below else below + 1
  }

  /** round(x, 2) on exact values: the nearest hundredth, ties to the even hundredth. */
  function Round2(x: real): real {
    NearestInteger(100.0 * x) as real / 100.0
  }

  lemma Round2Error(x: real)
    ensures -0.005 <= Round2(x) - x <= 0.005
  {
    var y := 100.0 * x;
    assert -0.5 <= NearestInteger(y) as real - y <= 0.5;
  }

  lemma NearestMonotone(x: real, y: real)
    requires x <= y
    ensures NearestInteger(x) <= NearestInteger(y)
  {
    assert x.Floor <= y.Floor;
  }

  lemma Round2Monotone(x: real, y: real)
    requires x <= y
    ensures Round2(x) <= Round2(y)
  {
    NearestMonotone(100.0 * x, 100.0 * y);
  }

  lemma Round2Fixes(n: int)
    ensures Round2(n as real / 100.0) == n as real / 100.0
  {
    assert 100.0 * (n as real / 100.0) == n as real;
  }

  lemma Round2Idempotent(x: real)
    ensures Round2(Round2(x)) == Round2(x)
  {
    Round2Fixes(NearestInteger(100.0 * x));
  }

  /** Whole scores such as 0 and 10 are kept, so rounding cannot leave the range they bound. */
  lemma Round2Within(x: real, lo: int, hi: int)
    requires lo as real <= x <= hi as real
    ensures lo as real <= Round2(x) <= hi as real
  {
    Round2Fixes(100 * lo);
    Round2Fixes(100 * hi);
    Round2Monotone(lo as real, x);
    Round2Monotone(x, hi as real);
  }

  // ---------- averages ----------

  function Sum(xs: seq<real>): real {
    if xs == [] then 0.0 else Sum(xs[..|xs| - 1]) + xs[|xs| - 1]
  }

  function Mean(xs: seq<real>): real
    requires xs != []
  {
    Sum(xs) / |xs| as real
  }

  function Min(x: real, y: real): real {
    if y < x then y else x
  }

  /** The least of start and the elements of xs. */
  function Least(start: real, xs: seq<real>): (m: real)
    ensures m <= start && forall i :: 0 <= i < |xs| ==> m <= xs[i]
    ensures m == start || m in xs
  {
    if xs == [] then start
    else
      assert xs == xs[..|xs| - 1] + [xs[|xs| - 1]];
      Min(Least(start, xs[..|xs| - 1]), xs[|xs| - 1])
  }

  lemma {:induction false} SumShift(xs: seq<real>, ys: seq<real>, e: real)
    requires |xs| == |ys| && forall i :: 0 <= i < |xs| ==> xs[i] <= ys[i] + e
    ensures Sum(xs) <= Sum(ys) + |xs| as real * e
  {
    if xs != [] {
      var n := |xs| - 1;
      SumShift(xs[..n], ys[..n], e);
      assert |xs| as real * e == n as real * e + e;
    }
  }

  lemma QuotientAtMost(x: real, n: real, bound: real)
    requires n > 0.0 && x <= bound * n
    ensures x / n <= bound
  {
    assert x == (x / n) * n;
  }

  /** Shifting every element up by at most e shifts the mean by at most e. */
  lemma MeanShift(xs: seq<real>, ys: seq<real>, e: real)
    requires |xs| == |ys| > 0 && forall i :: 0 <= i < |xs| ==> xs[i] <= ys[i] + e
    ensures Mean(xs) <= Mean(ys) + e
  {
    SumShift(xs, ys, e);
    var n := |xs| as real;
    assert Sum(ys) == Mean(ys) * n;
    assert Sum(xs) <= (Mean(ys) + e) * n;
    QuotientAtMost(Sum(xs), n, Mean(ys) + e);
  }

  lemma {:induction false} SumConstant(n: nat, c: real)
    ensures Sum(seq(n, i => c)) == n as real * c
  {
    if n > 0 {
      SumConstant(n - 1, c);
      assert seq(n, i => c)[..n - 1] == seq(n - 1, i => c);
      assert n as real * c == (n - 1) as real * c + c;
    }
  }

  lemma MeanConstant(n: nat, c: real)
    requires n > 0
    ensures Mean(seq(n, i => c)) == c
  {
    SumConstant(n, c);
    assert n as real * c / n as real == c;
  }

  lemma MeanWithin(xs: seq<real>, lo: real, hi: real)
    requires xs != [] && forall i :: 0 <= i < |xs| ==> lo <= xs[i] <= hi
    ensures lo <= Mean(xs) <= hi
  {
    MeanConstant(|xs|, lo);
    MeanConstant(|xs|, hi);
    MeanShift(xs, seq(|xs|, i => hi), 0.0);
    MeanShift(seq(|xs|, i => lo), xs, 0.0);
  }

  // ---------- blending ----------

  /** alpha of the own score and the rest of the inherited one. */
  function Blend(alpha: real, own: real, inherited: real): real {
    alpha * own + (1.0 - alpha) * inherited
  }

  lemma BlendShift(alpha: real, own: real, own': real, inh: real, inh': real, d: real, e: real)
    requires 0.0 <= alpha <= 1.0 && own <= own' + d && inh <= inh' + e
    ensures Blend(alpha, own, inh) <= Blend(alpha, own', inh') + alpha * d + (1.0 - alpha) * e
  {
    assert alpha * own <= alpha * (own' + d);
    assert (1.0 - alpha) * inh <= (1.0 - alpha) * (inh' + e);
  }

  lemma BlendWithin(alpha: real, own: real, inh: real, lo: real, hi: real)
    requires 0.0 <= alpha <= 1.0 && lo <= own <= hi && lo <= inh <= hi
    ensures lo <= Blend(alpha, own, inh) <= hi
  {
    BlendShift(alpha, own, hi, inh, hi, 0.0, 0.0);
    BlendShift(alpha, lo, own, lo, inh, 0.0, 0.0);
  }
}
