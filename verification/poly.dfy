/** Dense univariate polynomials over the field, as coefficient sequences
    (lowest degree first). Two sequences that differ only by trailing zero
    coefficients denote the same polynomial, so every property below is
    stated through `Coeff` or `Eval`, which ignore them. */
module Polynomial {
  import opened Field

  type Poly = seq<Fe>

  /** The coefficient of X^k; zero beyond the stored length. */
  function Coeff(p: Poly, k: nat): Fe {
    if k < |p| then p[k] else 0
  }

  function Tail(p: Poly): Poly {
    if |p| == 0 then [] else p[1..]
  }

  /** Evaluation at `x` by Horner's rule. */
  function Eval(p: Poly, x: Fe): Fe
    decreases |p|
  {
    if |p| == 0 then 0 else Add(p[0], Mul(x, Eval(p[1..], x)))
  }

  /** `poly * scalar`: every coefficient multiplied by `c`. */
  function Scale(p: Poly, c: Fe): (r: Poly)
    ensures |r| == |p|
  {
    seq(|p|, k requires 0 <= k < |p| => Mul(p[k], c))
  }

  lemma CoeffScale(p: Poly, c: Fe)
    ensures forall k: nat :: Coeff(Scale(p, c), k) == Mul(Coeff(p, k), c)
  {
    hide Mul;
    MulZeroLeft(c);
  }

  function Max(m: nat, n: nat): nat {
    if m < n then n else m
  }

  /** `poly + poly`: coefficient-wise sum, the shorter operand padded with zeros. */
  function PolyAdd(p: Poly, q: Poly): (r: Poly)
    ensures |r| == Max(|p|, |q|)
  {
    seq(Max(|p|, |q|), k requires 0 <= k < Max(|p|, |q|) => Add(Coeff(p, k), Coeff(q, k)))
  }

  lemma CoeffAdd(p: Poly, q: Poly)
    ensures forall k: nat :: Coeff(PolyAdd(p, q), k) == Add(Coeff(p, k), Coeff(q, k))
  {
    hide Add;
    AddZeroLeft(0);
  }

  /** Two coefficient lists denote the same polynomial (ark trims zero
      coefficients, so lists may differ by trailing zeros). */
  ghost predicate SameCoeffs(p: Poly, q: Poly) {
    forall k: nat :: Coeff(p, k) == Coeff(q, k)
  }

  lemma AddCongruent(p: Poly, p': Poly, q: Poly, q': Poly)
    requires SameCoeffs(p, p') && SameCoeffs(q, q')
    ensures SameCoeffs(PolyAdd(p, q), PolyAdd(p', q'))
  {
    hide Add;
    CoeffAdd(p, q);
    CoeffAdd(p', q');
  }

  lemma AddEmptyLeft(q: Poly)
    ensures SameCoeffs(PolyAdd([], q), q)
  {
    hide Add;
    CoeffAdd([], q);
    forall k: nat ensures Coeff(PolyAdd([], q), k) == Coeff(q, k) {
      AddZeroLeft(Coeff(q, k));
    }
  }

  lemma ScaleOne(q: Poly)
    ensures SameCoeffs(Scale(q, 1), q)
  {
    hide Mul;
    CoeffScale(q, 1);
    forall k: nat ensures Coeff(Scale(q, 1), k) == Coeff(q, k) {
      MulOneRight(Coeff(q, k));
    }
  }

  /** Horner's rule seen through `Coeff` and `Tail`, valid for the empty polynomial too. */
  lemma EvalUnfold(p: Poly, x: Fe)
    ensures Eval(p, x) == Add(Coeff(p, 0), Mul(x, Eval(Tail(p), x)))
  {
    hide Add, Mul;
    if |p| == 0 {
      MulZeroRight(x);
      AddZeroLeft(0);
    }
  }

  lemma TailAdd(p: Poly, q: Poly)
    ensures Tail(PolyAdd(p, q)) == PolyAdd(Tail(p), Tail(q))
  {
    hide Add, Mul;
    CoeffAdd(p, q);
    CoeffAdd(Tail(p), Tail(q));
    var l, r := Tail(PolyAdd(p, q)), PolyAdd(Tail(p), Tail(q));
    assert |l| == |r|;
    forall k | 0 <= k < |l|
      ensures l[k] == r[k]
    {
      assert Coeff(l, k) == Coeff(PolyAdd(p, q), k + 1);
      assert Coeff(Tail(p), k) == Coeff(p, k + 1);
      assert Coeff(Tail(q), k) == Coeff(q, k + 1);
    }
  }

  lemma TailScale(p: Poly, c: Fe)
    ensures Tail(Scale(p, c)) == Scale(Tail(p), c)
  {
    hide Add, Mul;
    CoeffScale(p, c);
    CoeffScale(Tail(p), c);
    var l, r := Tail(Scale(p, c)), Scale(Tail(p), c);
    assert |l| == |r|;
    forall k | 0 <= k < |l|
      ensures l[k] == r[k]
    {
      assert Coeff(l, k) == Coeff(Scale(p, c), k + 1);
      assert Coeff(Tail(p), k) == Coeff(p, k + 1);
    }
  }

  /** Evaluation is additive: (p + q)(x) = p(x) + q(x). */
  lemma {:induction false} EvalAdd(p: Poly, q: Poly, x: Fe)
    ensures Eval(PolyAdd(p, q), x) == Add(Eval(p, x), Eval(q, x))
    decreases |p| + |q|
  {
    hide Add, Mul;
    var s := PolyAdd(p, q);
    CoeffAdd(p, q);
    if |s| == 0 {
      assert |p| == 0 && |q| == 0;
      AddZeroLeft(0);
    } else {
      var ep, eq := Eval(Tail(p), x), Eval(Tail(q), x);
      calc {
        Eval(s, x);
        { EvalUnfold(s, x); }
        Add(Coeff(s, 0), Mul(x, Eval(Tail(s), x)));
        { TailAdd(p, q); EvalAdd(Tail(p), Tail(q), x); }
        Add(Add(Coeff(p, 0), Coeff(q, 0)), Mul(x, Add(ep, eq)));
        { Distrib(x, ep, eq); }
        Add(Add(Coeff(p, 0), Coeff(q, 0)), Add(Mul(x, ep), Mul(x, eq)));
        { AddSwapMiddle(Coeff(p, 0), Coeff(q, 0), Mul(x, ep), Mul(x, eq)); }
        Add(Add(Coeff(p, 0), Mul(x, ep)), Add(Coeff(q, 0), Mul(x, eq)));
        { EvalUnfold(p, x); EvalUnfold(q, x); }
        Add(Eval(p, x), Eval(q, x));
      }
    }
  }

  /** Evaluation is homogeneous: (c * p)(x) = c * p(x). */
  lemma {:induction false} EvalScale(p: Poly, c: Fe, x: Fe)
    ensures Eval(Scale(p, c), x) == Mul(c, Eval(p, x))
    decreases |p|
  {
    hide Add, Mul;
    var s := Scale(p, c);
    CoeffScale(p, c);
    if |p| == 0 {
      MulZeroRight(c);
    } else {
      var e := Eval(Tail(p), x);
      calc {
        Eval(s, x);
        { EvalUnfold(s, x); }
        Add(Coeff(s, 0), Mul(x, Eval(Tail(s), x)));
        { TailScale(p, c); EvalScale(Tail(p), c, x); }
        Add(Mul(Coeff(p, 0), c), Mul(x, Mul(c, e)));
        { MulComm(Coeff(p, 0), c); MulLeftComm(x, c, e); }
        Add(Mul(c, Coeff(p, 0)), Mul(c, Mul(x, e)));
        { Distrib(c, Coeff(p, 0), Mul(x, e)); }
        Mul(c, Add(Coeff(p, 0), Mul(x, e)));
        { EvalUnfold(p, x); }
        Mul(c, Eval(p, x));
      }
    }
  }

  /** The multi-scalar combination the verifier's pairs stand for, on the
      polynomials behind the commitments: the sum of `polys[k]` scaled by `scalars[k]`. */
  function Combine(scalars: seq<Fe>, polys: seq<Poly>): Poly
    requires |scalars| == |polys|
    decreases |scalars|
  {
    if |scalars| == 0 then []
    else PolyAdd(Combine(scalars[..|scalars| - 1], polys[..|polys| - 1]),
                 Scale(polys[|polys| - 1], scalars[|scalars| - 1]))
  }

  /** `Combine` of five pairs, unfolded. */
  lemma CombineFive(s: seq<Fe>, polys: seq<Poly>)
    requires |s| == 5 && |polys| == 5
    ensures Combine(s, polys) == PolyAdd(PolyAdd(PolyAdd(PolyAdd(PolyAdd([],
      Scale(polys[0], s[0])), Scale(polys[1], s[1])), Scale(polys[2], s[2])),
      Scale(polys[3], s[3])), Scale(polys[4], s[4]))
  {
    assert Combine(s[..0], polys[..0]) == [];
    assert s[..1][..0] == s[..0] && polys[..1][..0] == polys[..0];
    var c1 := Combine(s[..1], polys[..1]);
    assert c1 == PolyAdd([], Scale(polys[0], s[0]));
    assert s[..2][..1] == s[..1] && polys[..2][..1] == polys[..1];
    var c2 := Combine(s[..2], polys[..2]);
    assert c2 == PolyAdd(c1, Scale(polys[1], s[1]));
    assert s[..3][..2] == s[..2] && polys[..3][..2] == polys[..2];
    var c3 := Combine(s[..3], polys[..3]);
    assert c3 == PolyAdd(c2, Scale(polys[2], s[2]));
    assert s[..4][..3] == s[..3] && polys[..4][..3] == polys[..3];
    var c4 := Combine(s[..4], polys[..4]);
    assert c4 == PolyAdd(c3, Scale(polys[3], s[3]));
    assert s[..4] == s[..|s| - 1] && polys[..4] == polys[..|polys| - 1];
  }

  /** `Combine` of three pairs, unfolded. */
  lemma CombineThree(s: seq<Fe>, polys: seq<Poly>)
    requires |s| == 3 && |polys| == 3
    ensures Combine(s, polys) == PolyAdd(PolyAdd(PolyAdd([],
      Scale(polys[0], s[0])), Scale(polys[1], s[1])), Scale(polys[2], s[2]))
  {
    assert Combine(s[..0], polys[..0]) == [];
    assert s[..1][..0] == s[..0] && polys[..1][..0] == polys[..0];
    var c1 := Combine(s[..1], polys[..1]);
    assert c1 == PolyAdd([], Scale(polys[0], s[0]));
    assert s[..2][..1] == s[..1] && polys[..2][..1] == polys[..1];
    assert s[..2] == s[..|s| - 1] && polys[..2] == polys[..|polys| - 1];
  }
}
