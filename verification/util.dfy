/** Field helpers of `util.rs`: powers of a scalar, the challenge-weighted
    linear combination `lc`, the closed form of the first Lagrange
    polynomial at a point, and the indicator vector from which
    `compute_lagrange_poly` interpolates. */
module Util {
  import opened Base
  import opened Field

  // ---------------------------------------------------------------------
  // powers_of
  // ---------------------------------------------------------------------

  /** The first `n` items of `successors(Some(first), |p| Some(p * s))`. */
  function Successors(first: Fe, s: Fe, n: nat): (r: seq<Fe>)
    ensures |r| == n
    ensures forall k :: 0 <= k < n ==> r[k] == Mul(first, Pow(s, k))
    decreases n
  {
    if n == 0 then []
    else
      var rest := Successors(Mul(first, s), s, n - 1);
      SuccessorStep(first, s, rest);
      [first] + rest
  }

  lemma SuccessorStep(first: Fe, s: Fe, rest: seq<Fe>)
    requires forall k :: 0 <= k < |rest| ==> rest[k] == Mul(Mul(first, s), Pow(s, k))
    ensures forall k :: 0 < k <= |rest| ==> ([first] + rest)[k] == Mul(first, Pow(s, k))
    ensures ([first] + rest)[0] == Mul(first, Pow(s, 0))
  {
    hide Add, Mul;
    MulOneRight(first);
    forall k | 0 < k <= |rest|
      ensures ([first] + rest)[k] == Mul(first, Pow(s, k))
    {
      MulAssoc(first, s, Pow(s, k - 1));
    }
  }

  /** The first `n` items of `powers_of(s)`: 1, s, s^2, ... */
  function PowersOf(s: Fe, n: nat): (r: seq<Fe>)
    ensures |r| == n
    ensures forall k :: 0 <= k < n ==> r[k] == Pow(s, k)
  {
    var r := Successors(1, s, n);
    forall k | 0 <= k < n
      ensures r[k] == Pow(s, k)
    {
      MulOneLeft(Pow(s, k));
    }
    r
  }

  // ---------------------------------------------------------------------
  // lc
  // ---------------------------------------------------------------------

  /** Iteration order of `.iter().rev()`: last element first. */
  function Reverse(s: seq<Fe>): (r: seq<Fe>)
    ensures |r| == |s|
  {
    if |s| == 0 then [] else [s[|s| - 1]] + Reverse(s[..|s| - 1])
  }

  /** `fold(acc, |acc, val| acc * challenge + val)`. */
  function HornerFold(acc: Fe, rest: seq<Fe>, c: Fe): Fe
    decreases |rest|
  {
    if |rest| == 0 then acc else HornerFold(Add(Mul(acc, c), rest[0]), rest[1..], c)
  }

  /** Reference definition: v_0 + c*v_1 + ... + c^k*v_k, summed term by term. */
  function LinearSum(values: seq<Fe>, c: Fe): Fe
    decreases |values|
  {
    if |values| == 0 then 0
    else Add(LinearSum(values[..|values| - 1], c),
             Mul(values[|values| - 1], Pow(c, |values| - 1)))
  }

  /** `lc(values, challenge)`: rejects a degenerate challenge, then an empty
      list, and otherwise equals the direct polynomial combination. */
  function Lc(values: seq<Fe>, c: Fe): (r: Result<Fe>)
    ensures c == 0 || c == 1 ==> r == Err(DegenerateChallenge)
    ensures c != 0 && c != 1 && |values| == 0 ==> r == Err(EmptyValues)
    ensures c != 0 && c != 1 && |values| > 0 ==> r == Ok(LinearSum(values, c))
  {
    if c == 0 || c == 1 then Err(DegenerateChallenge)
    else if |values| == 0 then Err(EmptyValues)
    else
      var last := values[|values| - 1];
      HornerIsLinearSum(last, values[..|values| - 1], c);
      assert values[..|values| - 1] + [last] == values;
      Ok(HornerFold(last, Reverse(values)[1..], c))
  }

  /** Appending a value adds its top-power term. */
  lemma LinearSumSnoc(w: seq<Fe>, v: Fe, c: Fe)
    ensures LinearSum(w + [v], c) == Add(LinearSum(w, c), Mul(v, Pow(c, |w|)))
  {
    hide Add, Mul;
    assert (w + [v])[..|w|] == w;
  }

  /** The Horner fold over the reversed values agrees with the direct sum. */
  lemma {:induction false} HornerFoldReverse(acc: Fe, w: seq<Fe>, c: Fe)
    ensures HornerFold(acc, Reverse(w), c) == Add(Mul(acc, Pow(c, |w|)), LinearSum(w, c))
    decreases |w|
  {
    hide Add, Mul;
    if |w| == 0 {
      MulOneRight(acc);
      AddZeroRight(acc);
    } else {
      var n := |w| - 1;
      var wl, init := w[n], w[..n];
      assert Reverse(w)[1..] == Reverse(init);
      var acc' := Add(Mul(acc, c), wl);
      var pn, ls := Pow(c, n), LinearSum(init, c);
      calc {
        HornerFold(acc, Reverse(w), c);
        HornerFold(acc', Reverse(init), c);
        { HornerFoldReverse(acc', init, c); }
        Add(Mul(acc', pn), ls);
        { DistribRight(Mul(acc, c), wl, pn); }
        Add(Add(Mul(Mul(acc, c), pn), Mul(wl, pn)), ls);
        { MulAssoc(acc, c, pn); }
        Add(Add(Mul(acc, Pow(c, n + 1)), Mul(wl, pn)), ls);
        { AddAssoc(Mul(acc, Pow(c, n + 1)), Mul(wl, pn), ls);
          AddComm(Mul(wl, pn), ls); }
        Add(Mul(acc, Pow(c, n + 1)), Add(ls, Mul(wl, pn)));
        { assert init + [wl] == w; LinearSumSnoc(init, wl, c); }
        Add(Mul(acc, Pow(c, |w|)), LinearSum(w, c));
      }
    }
  }

  lemma HornerIsLinearSum(last: Fe, init: seq<Fe>, c: Fe)
    ensures HornerFold(last, Reverse(init + [last])[1..], c) == LinearSum(init + [last], c)
  {
    hide Add, Mul;
    var w := init + [last];
    assert w[..|w| - 1] == init;
    assert Reverse(w)[1..] == Reverse(init);
    HornerFoldReverse(last, init, c);
    LinearSumSnoc(init, last, c);
    AddComm(Mul(last, Pow(c, |init|)), LinearSum(init, c));
  }

  /** A single value is returned unchanged. */
  lemma LcSingleton(v: Fe, c: Fe)
    requires c != 0 && c != 1
    ensures Lc([v], c) == Ok(v)
  {
    hide Add, Mul;
    assert [v][..0] == [];
    MulOneRight(v);
  }

  // ---------------------------------------------------------------------
  // compute_first_lagrange_evaluation
  // ---------------------------------------------------------------------

  /** L_0(z) = zh_eval / (n * (z - 1)), failing when the denominator has no inverse. */
  function FirstLagrangeEvaluation(n: Usize, zhEval: Fe, z: Fe): (r: Result<Fe>)
    ensures r.Ok? ==> Mul(r.value, Mul(Reduce(n), Sub(z, 1))) == zhEval
    ensures Mul(Reduce(n), Sub(z, 1)) == 0 ==> r == Err(NotInvertible)
  {
    var nFr := Reduce(n);
    var denom := Mul(nFr, Sub(z, 1));
    match Inverse(denom)
    case None => Err(NotInvertible)
    case Some(inv) =>
      MulAssoc(zhEval, inv, denom);
      MulComm(inv, denom);
      MulOneRight(zhEval);
      Ok(Mul(zhEval, inv))
  }

  /** In a prime field the evaluation succeeds whenever `z != 1` and `n` is
      nonzero in the field, and its result is the unique solution. */
  lemma FirstLagrangeDefined(n: Usize, zhEval: Fe, z: Fe)
    requires IsPrime(P)
    requires Reduce(n) != 0 && z != 1
    ensures FirstLagrangeEvaluation(n, zhEval, z).Ok?
    ensures forall y: Fe :: Mul(y, Mul(Reduce(n), Sub(z, 1))) == zhEval
                         ==> y == FirstLagrangeEvaluation(n, zhEval, z).value
  {
    hide Add, Mul;
    var d := Mul(Reduce(n), Sub(z, 1));
    NonzeroProduct(Reduce(n), Sub(z, 1));
    InverseOfNonzero(d);
    var inv := Inverse(d).value;
    forall y: Fe | Mul(y, d) == zhEval
      ensures y == Mul(zhEval, inv)
    {
      calc {
        Mul(zhEval, inv);
        Mul(Mul(y, d), inv);
        { MulAssoc(y, d, inv); }
        Mul(y, Mul(d, inv));
        { MulOneRight(y); }
        y;
      }
    }
  }

  // ---------------------------------------------------------------------
  // compute_lagrange_poly (evaluation vector only)
  // ---------------------------------------------------------------------

  /** The evaluation vector `compute_lagrange_poly` interpolates: zeros of
      length `n` with a one written at `index`; fails unless `index < n`. */
  function LagrangeEvals(n: Usize, index: Usize): (r: Result<seq<Fe>>)
    ensures index >= n <==> r == Err(IndexOutOfDomain)
    ensures r.Ok? ==> |r.value| == n
    ensures r.Ok? ==> forall k :: 0 <= k < n ==> (r.value[k] == 1 <==> k == index)
    ensures r.Ok? ==> forall k :: 0 <= k < n ==> (r.value[k] == 0 <==> k != index)
  {
    if index >= n then Err(IndexOutOfDomain)
    else
      var zeros := seq(n, _ => 0);
      Ok(zeros[index := 1])
  }

  /** Sum of the pointwise products of two equally long vectors. */
  function Dot(u: seq<Fe>, v: seq<Fe>): Fe
    requires |u| == |v|
    decreases |u|
  {
    if |u| == 0 then 0 else Add(Mul(u[0], v[0]), Dot(u[1..], v[1..]))
  }

  /** Weighting any evaluation vector by the Lagrange indicator picks out
      exactly the value at `index`. */
  lemma LagrangeEvalsSelect(n: Usize, index: Usize, e: seq<Fe>)
    requires index < n && |e| == n
    ensures Dot(LagrangeEvals(n, index).value, e) == e[index]
  {
    IndicatorDot(LagrangeEvals(n, index).value, index, e);
  }

  lemma {:induction false} IndicatorDot(u: seq<Fe>, index: nat, e: seq<Fe>)
    requires |u| == |e| && index < |u|
    requires forall k :: 0 <= k < |u| ==> u[k] == (if k == index then 1 else 0)
    ensures Dot(u, e) == e[index]
    decreases |u|
  {
    hide Add, Mul;
    if index == 0 {
      ZeroDot(u[1..], e[1..]);
      MulOneLeft(e[0]);
      AddZeroRight(e[0]);
    } else {
      IndicatorDot(u[1..], index - 1, e[1..]);
      MulZeroLeft(e[0]);
      AddZeroLeft(e[index]);
    }
  }

  lemma {:induction false} ZeroDot(u: seq<Fe>, e: seq<Fe>)
    requires |u| == |e|
    requires forall k :: 0 <= k < |u| ==> u[k] == 0
    ensures Dot(u, e) == 0
    decreases |u|
  {
    hide Add, Mul;
    if |u| > 0 {
      ZeroDot(u[1..], e[1..]);
      MulZeroLeft(e[0]);
      AddZeroLeft(0);
    }
  }
}
