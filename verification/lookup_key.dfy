/** Keys of the lookup gate (`keys/lookup.rs`): the prover's linearisation
    term, the pointwise quotient contribution on the coset domain, and the
    verifier's (scalar, commitment) appends. Every member that compresses
    the wires with `lc` fails when the challenge ζ is 0 or 1, where the
    source panics. */
module LookupKey {
  import opened Base
  import opened Field
  import opened Polynomial
  import opened Evaluations
  import opened Util

  /** The lookup selector polynomial. */
  datatype ProverKey = ProverKey(qLookup: Poly)

  /** The selector over the domain and the coset, and the fourth table
      column as a polynomial and over the coset. */
  datatype ExtendedProverKey = ExtendedProverKey(
    qLookup: seq<Fe>, qLookupCoset: seq<Fe>, t4: Poly, t4Coset: seq<Fe>)

  /** Commitments to the selector and the four table columns. */
  datatype VerifierKey<C> = VerifierKey(qLookup: C, t1: C, t2: C, t3: C, t4: C)

  /** The transcript challenges the lookup argument uses. */
  datatype Challenges = Challenges(alpha: Fe, delta: Fe, epsilon: Fe, zeta: Fe)

  /** The column values at one point of the coset: wires, compressed
      witness f, table t (and its shift), sorted halves h1 (and its shift)
      and h2, running product z2 (and its shift), and L_1 at that point. */
  datatype PointValues = PointValues(
    a: Fe, b: Fe, c: Fe, f: Fe, t: Fe, tNext: Fe, h1: Fe, h1Next: Fe, h2: Fe,
    z2: Fe, z2Next: Fe, l1: Fe)

  /** `alpha.square() * alpha`. */
  function Alpha3(alpha: Fe): (r: Fe)
    ensures r == Pow(alpha, 3)
  {
    SquarePowers(alpha);
    Mul(Square(alpha), alpha)
  }

  /** `alpha.square().square()`. */
  function Alpha4(alpha: Fe): (r: Fe)
    ensures r == Pow(alpha, 4)
  {
    SquarePowers(alpha);
    Square(Square(alpha))
  }

  // ---------------------------------------------------------------------
  // Prover: linearisation and quotient
  // ---------------------------------------------------------------------

  /** `compute_linearisation`: q_lookup·α³(lc(a,b,c,t4; ζ) − f)
      + z2·(α⁴(1+δ)(ε+f)(δ·t_ω + ε(1+δ) + t) + L_1·α⁵)
      + h1·(−α⁴·z2_ω·(δ·h1_ω + ε(1+δ) + h2)). */
  function ComputeLinearisation(pk: ProverKey, ch: Challenges, l1: Fe, w: WireEvals,
                                l: LookupEvals, z2: Poly, h1: Poly): (r: Result<Poly>)
    ensures r.Ok? <==> ch.zeta != 0 && ch.zeta != 1
  {
    var alpha, delta, eps := ch.alpha, ch.delta, ch.epsilon;
    var a4 := Alpha4(alpha);
    var opd := Add(delta, 1);
    var e1d := Mul(eps, opd);
    var compressed :- Lc([w.a, w.b, w.c, l.t4], ch.zeta);
    var part1 := Scale(pk.qLookup, Mul(Alpha3(alpha), Sub(compressed, l.f)));
    var part2 := Scale(z2, Add(Mul(Mul(Mul(a4, opd), Add(eps, l.f)),
                                   Add(Add(Mul(delta, l.tNext), e1d), l.t)),
                               Mul(Mul(l1, a4), alpha)));
    var part3 := Scale(h1, Mul(Mul(Neg(a4), l.z2Next), Add(Add(Mul(delta, l.h1Next), e1d), l.h2)));
    Ok(PolyAdd(PolyAdd(part1, part2), part3))
  }

  /** `compute_quotient_i`: the lookup, running-product, sorted-product and
      first-value terms at coset index `i`, summed. */
  function ComputeQuotientI(epk: ExtendedProverKey, i: nat, ch: Challenges, v: PointValues): (r: Result<Fe>)
    requires i < |epk.qLookupCoset| && i < |epk.t4Coset|
    ensures r.Ok? <==> ch.zeta != 0 && ch.zeta != 1
  {
    var alpha, delta, eps := ch.alpha, ch.delta, ch.epsilon;
    var a4 := Alpha4(alpha);
    var opd := Add(delta, 1);
    var e1d := Mul(eps, opd);
    var compressed :- Lc([v.a, v.b, v.c, epk.t4Coset[i]], ch.zeta);
    var part1 := Mul(Mul(Alpha3(alpha), Sub(compressed, v.f)), epk.qLookupCoset[i]);
    var part2 := Mul(Mul(Mul(Mul(a4, opd), Add(eps, v.f)), Add(Add(Mul(delta, v.tNext), e1d), v.t)), v.z2);
    var part3 := Mul(Mul(Mul(Neg(a4), v.z2Next), Add(Add(Mul(delta, v.h2), e1d), v.h1)),
                     Add(Add(Mul(delta, v.h1Next), v.h2), e1d));
    var part4 := Mul(Mul(Mul(Sub(v.z2, 1), v.l1), a4), alpha);
    Ok(Add(Add(Add(part1, part2), part3), part4))
  }

  // ---------------------------------------------------------------------
  // The constraints the quotient encodes (Plookup, reference forms)
  // ---------------------------------------------------------------------

  /** Where the lookup selector is on, the compressed wires equal f. */
  predicate LookupRowHolds(q: Fe, compressed: Fe, f: Fe) {
    q == 0 || compressed == f
  }

  /** Plookup's running-product recurrence from a point to the next:
      z2(X)·(1+δ)·(ε+f)·(ε(1+δ) + t + δ·t(Xω))
        = z2(Xω)·(ε(1+δ) + h1 + δ·h2)·(ε(1+δ) + h2 + δ·h1(Xω)). */
  predicate GrandProductStep(ch: Challenges, v: PointValues) {
    var g := Mul(ch.epsilon, Add(1, ch.delta));
    Mul(Mul(v.z2, Mul(Add(1, ch.delta), Add(ch.epsilon, v.f))), Add(Add(g, v.t), Mul(ch.delta, v.tNext)))
      == Mul(Mul(v.z2Next, Add(Add(g, v.h1), Mul(ch.delta, v.h2))), Add(Add(g, v.h2), Mul(ch.delta, v.h1Next)))
  }

  /** The running product starts at one: wherever L_1 is nonzero, z2 is one. */
  predicate StartsAtOne(v: PointValues) {
    v.l1 == 0 || v.z2 == 1
  }

  /** With the running-product constraints met, the quotient contribution is
      the lookup term α³·(lc − f)·q_lookup alone. */
  lemma QuotientIsLookupTerm(epk: ExtendedProverKey, i: nat, ch: Challenges, v: PointValues)
    requires i < |epk.qLookupCoset| && i < |epk.t4Coset|
    requires ch.zeta != 0 && ch.zeta != 1
    requires GrandProductStep(ch, v) && StartsAtOne(v)
    ensures ComputeQuotientI(epk, i, ch, v) == Ok(Mul(Mul(Alpha3(ch.alpha),
              Sub(LinearSum([v.a, v.b, v.c, epk.t4Coset[i]], ch.zeta), v.f)), epk.qLookupCoset[i]))
  {
    hide Add, Mul, Sub, Neg, Reduce, Alpha3, Alpha4;
    var alpha, delta, eps := ch.alpha, ch.delta, ch.epsilon;
    var a4 := Alpha4(alpha);
    var opd := Add(delta, 1);
    var e1d := Mul(eps, opd);
    var compressed := LinearSum([v.a, v.b, v.c, epk.t4Coset[i]], ch.zeta);
    var part1 := Mul(Mul(Alpha3(alpha), Sub(compressed, v.f)), epk.qLookupCoset[i]);
    var part2 := Mul(Mul(Mul(Mul(a4, opd), Add(eps, v.f)), Add(Add(Mul(delta, v.tNext), e1d), v.t)), v.z2);
    var part3 := Mul(Mul(Mul(Neg(a4), v.z2Next), Add(Add(Mul(delta, v.h2), e1d), v.h1)),
                     Add(Add(Mul(delta, v.h1Next), v.h2), e1d));
    var part4 := Mul(Mul(Mul(Sub(v.z2, 1), v.l1), a4), alpha);
    assert ComputeQuotientI(epk, i, ch, v) == Ok(Add(Add(Add(part1, part2), part3), part4));
    FirstValueTermVanishes(v, a4, alpha);
    RunningProductTermsCancel(ch, v, a4);
    calc {
      Add(Add(Add(part1, part2), part3), part4);
      { AddZeroRight(Add(Add(part1, part2), part3)); }
      Add(Add(part1, part2), part3);
      { AddAssoc(part1, part2, part3); }
      Add(part1, Add(part2, part3));
      { AddZeroRight(part1); }
      part1;
    }
  }

  /** (z2 − 1)·L_1·α⁴·α vanishes when the running product starts at one. */
  lemma FirstValueTermVanishes(v: PointValues, a4: Fe, alpha: Fe)
    requires StartsAtOne(v)
    ensures Mul(Mul(Mul(Sub(v.z2, 1), v.l1), a4), alpha) == 0
  {
    hide Mul;
    if v.l1 == 0 {
      MulZeroRight(Sub(v.z2, 1));
    } else {
      assert Sub(v.z2, 1) == 0;
      MulZeroLeft(v.l1);
    }
    MulZeroLeft(a4);
    MulZeroLeft(alpha);
  }

  /** The running-product term and the sorted-product term of the quotient
      cancel wherever the Plookup recurrence holds at the point. */
  lemma RunningProductTermsCancel(ch: Challenges, v: PointValues, a4: Fe)
    requires GrandProductStep(ch, v)
    ensures var delta, eps := ch.delta, ch.epsilon;
            var opd := Add(delta, 1);
            var e1d := Mul(eps, opd);
            Add(Mul(Mul(Mul(Mul(a4, opd), Add(eps, v.f)), Add(Add(Mul(delta, v.tNext), e1d), v.t)), v.z2),
                Mul(Mul(Mul(Neg(a4), v.z2Next), Add(Add(Mul(delta, v.h2), e1d), v.h1)),
                    Add(Add(Mul(delta, v.h1Next), v.h2), e1d))) == 0
  {
    hide Add, Mul, Neg;
    var delta, eps := ch.delta, ch.epsilon;
    AddComm(delta, 1);
    var opd := Add(1, delta);
    var e1d := Mul(eps, opd);
    var ef := Add(eps, v.f);
    var tt := Add(Add(Mul(delta, v.tNext), e1d), v.t);
    var gg := Add(Add(Mul(delta, v.h2), e1d), v.h1);
    var hh := Add(Add(Mul(delta, v.h1Next), v.h2), e1d);
    // The reference factors are the same field elements, summed in another order.
    SumReorder(e1d, v.t, Mul(delta, v.tNext));
    SumReorder(e1d, v.h1, Mul(delta, v.h2));
    SumReorder2(e1d, v.h2, Mul(delta, v.h1Next));
    var lhs := Mul(Mul(v.z2, Mul(opd, ef)), tt);
    assert lhs == Mul(Mul(v.z2Next, gg), hh);
    MulPullLeft5(a4, opd, ef, tt, v.z2);
    MulPullLeft4(Neg(a4), v.z2Next, gg, hh);
    DistribRight(a4, Neg(a4), lhs);
    AddNeg(a4);
    MulZeroLeft(lhs);
  }

  /** a·o·e·t·z regrouped as a·((z·(o·e))·t). */
  lemma MulPullLeft5(a: Fe, o: Fe, e: Fe, t: Fe, z: Fe)
    ensures Mul(Mul(Mul(Mul(a, o), e), t), z) == Mul(a, Mul(Mul(z, Mul(o, e)), t))
  {
    hide Mul, Reduce;
    Mul5IsReduce(a, o, e, t, z);
    MulNestedIsReduce(z, o, e);
    var x: int, y: int, u: int := z, o, e;
    ReduceFe(t);
    MulReduce(x * (y * u), t);
    ReduceFe(a);
    MulReduce(a, x * (y * u) * t);
    IntFiveProduct(a, o, e, t, z);
  }

  /** n·w·g·h regrouped as n·((w·g)·h). */
  lemma MulPullLeft4(n: Fe, w: Fe, g: Fe, h: Fe)
    ensures Mul(Mul(Mul(n, w), g), h) == Mul(n, Mul(Mul(w, g), h))
  {
    hide Mul, Reduce;
    Mul4IsReduce(n, w, g, h);
    Mul3IsReduce(w, g, h);
    var x: int, y: int, u: int := w, g, h;
    ReduceFe(n);
    MulReduce(n, x * y * u);
    IntMulAssoc3(n, w, g, h);
  }

  lemma SumReorder(x: Fe, y: Fe, z: Fe)
    ensures Add(Add(z, x), y) == Add(Add(x, y), z)
  {
    Add3IsReduce(z, x, y);
    Add3IsReduce(x, y, z);
  }

  lemma SumReorder2(x: Fe, y: Fe, z: Fe)
    ensures Add(Add(z, y), x) == Add(Add(x, y), z)
  {
    Add3IsReduce(z, y, x);
    Add3IsReduce(x, y, z);
  }

  lemma IntMulAssoc3(n: int, w: int, g: int, h: int)
    ensures n * w * g * h == n * (w * g * h)
  {
  }

  lemma IntFiveProduct(a: int, o: int, e: int, t: int, z: int)
    ensures a * o * e * t * z == a * (z * (o * e) * t)
  {
  }

  /** The contribution at index `i` reads nothing of the coset vectors
      beyond that index. */
  lemma QuotientReadsOnlyIndex(epk: ExtendedProverKey, epk': ExtendedProverKey, i: nat,
                               ch: Challenges, v: PointValues)
    requires i < |epk.qLookupCoset| && i < |epk.t4Coset|
    requires i < |epk'.qLookupCoset| && i < |epk'.t4Coset|
    requires epk.qLookupCoset[i] == epk'.qLookupCoset[i] && epk.t4Coset[i] == epk'.t4Coset[i]
    ensures ComputeQuotientI(epk, i, ch, v) == ComputeQuotientI(epk', i, ch, v)
  {
  }

  /** Completeness at a point: when every lookup constraint holds there,
      the quotient contribution vanishes. */
  lemma QuotientVanishes(epk: ExtendedProverKey, i: nat, ch: Challenges, v: PointValues)
    requires i < |epk.qLookupCoset| && i < |epk.t4Coset|
    requires ch.zeta != 0 && ch.zeta != 1
    requires GrandProductStep(ch, v) && StartsAtOne(v)
    ensures LookupRowHolds(epk.qLookupCoset[i], LinearSum([v.a, v.b, v.c, epk.t4Coset[i]], ch.zeta), v.f)
            ==> ComputeQuotientI(epk, i, ch, v) == Ok(0)
  {
    hide Mul, Sub, Alpha3;
    QuotientIsLookupTerm(epk, i, ch, v);
    var compressed := LinearSum([v.a, v.b, v.c, epk.t4Coset[i]], ch.zeta);
    var q := epk.qLookupCoset[i];
    var s := Mul(Alpha3(ch.alpha), Sub(compressed, v.f));
    if q == 0 {
      MulZeroRight(s);
    } else if compressed == v.f {
      SubSelf(v.f);
      MulZeroRight(Alpha3(ch.alpha));
      MulZeroLeft(q);
    }
  }

  /** Soundness of the lookup term: with α nonzero in a prime field and the
      running-product constraints met, the quotient contribution vanishes
      exactly when the lookup row holds. */
  lemma QuotientDetectsLookupViolation(epk: ExtendedProverKey, i: nat, ch: Challenges, v: PointValues)
    requires IsPrime(P)
    requires i < |epk.qLookupCoset| && i < |epk.t4Coset|
    requires ch.zeta != 0 && ch.zeta != 1 && ch.alpha != 0
    requires GrandProductStep(ch, v) && StartsAtOne(v)
    ensures ComputeQuotientI(epk, i, ch, v) == Ok(0)
        <==> LookupRowHolds(epk.qLookupCoset[i], LinearSum([v.a, v.b, v.c, epk.t4Coset[i]], ch.zeta), v.f)
  {
    var compressed := LinearSum([v.a, v.b, v.c, epk.t4Coset[i]], ch.zeta);
    var q := epk.qLookupCoset[i];
    if LookupRowHolds(q, compressed, v.f) {
      QuotientVanishes(epk, i, ch, v);
    } else {
      hide Mul, Sub, Alpha3;
      QuotientIsLookupTerm(epk, i, ch, v);
      assert Sub(compressed, v.f) != 0 by { SubNonzero(compressed, v.f); }
      NonzeroProduct(Square(ch.alpha), ch.alpha) by { NonzeroProduct(ch.alpha, ch.alpha); }
      NonzeroProduct(Alpha3(ch.alpha), Sub(compressed, v.f));
      NonzeroProduct(Mul(Alpha3(ch.alpha), Sub(compressed, v.f)), q);
    }
  }

  lemma SubNonzero(a: Fe, b: Fe)
    requires a != b
    ensures Sub(a, b) != 0
  {
  }

  /** The part of the quotient identity the linearisation leaves to the
      verifier's constant term:
      L_1·α⁵ + α⁴·z2_ω·(δ·h1_ω + ε(1+δ) + h2)·(δ·h2 + ε(1+δ)). */
  function LinearisationConstant(ch: Challenges, l1: Fe, l: LookupEvals): Fe {
    var a4 := Alpha4(ch.alpha);
    var e1d := Mul(ch.epsilon, Add(ch.delta, 1));
    var hh := Add(Add(Mul(ch.delta, l.h1Next), e1d), l.h2);
    Sub(Mul(Mul(l1, a4), ch.alpha),
        Mul(Mul(Mul(Neg(a4), l.z2Next), hh), Add(Mul(ch.delta, l.h2), e1d)))
  }

  /** Prover consistency: evaluated at a point x, the linearisation term is
      the quotient contribution computed from the openings at x (q_lookup,
      z2 and h1 evaluated at x, everything else from the proof's lookup
      openings) plus the constant term; both fail together on a degenerate ζ. */
  lemma LinearisationMatchesQuotient(pk: ProverKey, ch: Challenges, l1: Fe, w: WireEvals,
                                     l: LookupEvals, z2: Poly, h1: Poly, x: Fe)
    ensures var v := PointValues(w.a, w.b, w.c, l.f, l.t, l.tNext, Eval(h1, x), l.h1Next, l.h2,
                                 Eval(z2, x), l.z2Next, l1);
            var epk := ExtendedProverKey([], [Eval(pk.qLookup, x)], [], [l.t4]);
            var lin := ComputeLinearisation(pk, ch, l1, w, l, z2, h1);
            var quot := ComputeQuotientI(epk, 0, ch, v);
            && (lin.Ok? <==> quot.Ok?)
            && (lin.Ok? ==> Eval(lin.value, x) == Add(quot.value, LinearisationConstant(ch, l1, l)))
  {
    var v := PointValues(w.a, w.b, w.c, l.f, l.t, l.tNext, Eval(h1, x), l.h1Next, l.h2,
                         Eval(z2, x), l.z2Next, l1);
    var epk := ExtendedProverKey([], [Eval(pk.qLookup, x)], [], [l.t4]);
    if ch.zeta != 0 && ch.zeta != 1 {
      hide Add, Mul, Sub, Neg, Reduce, Alpha3, Alpha4, Eval, Scale, PolyAdd;
      var alpha, delta, eps := ch.alpha, ch.delta, ch.epsilon;
      var a4 := Alpha4(alpha);
      var opd := Add(delta, 1);
      var e1d := Mul(eps, opd);
      var compressed := LinearSum([w.a, w.b, w.c, l.t4], ch.zeta);
      var s1 := Mul(Alpha3(alpha), Sub(compressed, l.f));
      var xx := Mul(Mul(Mul(a4, opd), Add(eps, l.f)), Add(Add(Mul(delta, l.tNext), e1d), l.t));
      var yy := Mul(Mul(l1, a4), alpha);
      var kk := Mul(Neg(a4), l.z2Next);
      var hh := Add(Add(Mul(delta, l.h1Next), e1d), l.h2);
      var dd := Add(Mul(delta, l.h2), e1d);
      var q, z, hx := Eval(pk.qLookup, x), Eval(z2, x), Eval(h1, x);
      var p1, p2, p3 := Scale(pk.qLookup, s1), Scale(z2, Add(xx, yy)), Scale(h1, Mul(kk, hh));
      assert ComputeLinearisation(pk, ch, l1, w, l, z2, h1) == Ok(PolyAdd(PolyAdd(p1, p2), p3));
      assert ComputeQuotientI(epk, 0, ch, v) == Ok(Add(Add(Add(Mul(s1, q), Mul(xx, z)),
        Mul(Mul(kk, Add(dd, hx)), Add(Add(Mul(delta, l.h1Next), l.h2), e1d))),
        Mul(Mul(Mul(Sub(z, 1), l1), a4), alpha)));
      EvalAdd(PolyAdd(p1, p2), p3, x);
      EvalAdd(p1, p2, x);
      EvalScale(pk.qLookup, s1, x);
      EvalScale(z2, Add(xx, yy), x);
      EvalScale(h1, Mul(kk, hh), x);
      SumSwapLast(Mul(delta, l.h1Next), l.h2, e1d);
      MulPullLeft4(Sub(z, 1), l1, a4, alpha);
      LinearisationAlgebra(Mul(s1, q), xx, yy, z, kk, hh, dd, hx);
    }
  }

  lemma SumSwapLast(m: Fe, x: Fe, y: Fe)
    ensures Add(Add(m, x), y) == Add(Add(m, y), x)
  {
    Add3IsReduce(m, x, y);
    Add3IsReduce(m, y, x);
  }

  /** m1 + (X+Y)·z + K·H·h = m1 + X·z + K·(D+h)·H + (z−1)·Y + (Y − K·H·D) in the field. */
  lemma LinearisationAlgebra(m1: Fe, xx: Fe, yy: Fe, z: Fe, kk: Fe, hh: Fe, dd: Fe, hx: Fe)
    ensures Add(Add(m1, Mul(Add(xx, yy), z)), Mul(Mul(kk, hh), hx))
         == Add(Add(Add(Add(m1, Mul(xx, z)), Mul(Mul(kk, Add(dd, hx)), hh)), Mul(Sub(z, 1), yy)),
                Sub(yy, Mul(Mul(kk, hh), dd)))
  {
    hide Add, Mul, Sub, Reduce;
    var iX: int, iY: int, iZ: int, iK: int, iH: int, iD: int, iHx: int := xx, yy, z, kk, hh, dd, hx;
    // Left-hand side as one reduction.
    AddIsReduce(xx, yy);
    ReduceFe(z);
    MulReduce(iX + iY, iZ);
    Mul3IsReduce(kk, hh, hx);
    ReduceFe(m1);
    AddReduce(m1, (iX + iY) * iZ);
    AddReduce(m1 + (iX + iY) * iZ, iK * iH * iHx);
    // Right-hand side as one reduction.
    MulIsReduce(xx, z);
    AddIsReduce(dd, hx);
    ReduceFe(kk);
    MulReduce(iK, iD + iHx);
    ReduceFe(hh);
    MulReduce(iK * (iD + iHx), iH);
    SubIsReduce(z, 1);
    ReduceFe(yy);
    MulReduce(iZ - 1, iY);
    Mul3IsReduce(kk, hh, dd);
    SubReduce(iY, iK * iH * iD);
    AddChain5(m1, iX * iZ, iK * (iD + iHx) * iH, (iZ - 1) * iY, iY - iK * iH * iD);
    LinearisationIdentity(m1, iX, iY, iZ, iK, iH, iD, iHx);
  }

  lemma LinearisationIdentity(m: int, x: int, y: int, z: int, k: int, h: int, d: int, hx: int)
    ensures m + (x + y) * z + k * h * hx
         == m + x * z + k * (d + hx) * h + (z - 1) * y + (y - k * h * d)
  {
  }

  // ---------------------------------------------------------------------
  // Verifier: the (scalar, commitment) pairs of the linearisation
  // ---------------------------------------------------------------------

  /** Weight of the z2 commitment: α⁴(1+δ)(ε+f)(δ·t_ω + ε(1+δ) + t) + L_1·α⁵. */
  function VerifierZ2Scalar(ch: Challenges, l1: Fe, l: LookupEvals): Fe {
    var a4 := Alpha4(ch.alpha);
    var opd := Add(1, ch.delta);
    var e1d := Mul(ch.epsilon, opd);
    Add(Mul(Mul(Mul(a4, opd), Add(ch.epsilon, l.f)), Add(Add(Mul(ch.delta, l.tNext), e1d), l.t)),
        Mul(Mul(l1, a4), ch.alpha))
  }

  /** Weight of the h1 commitment: −α⁴·z2_ω·(δ·h1_ω + ε(1+δ) + h2). */
  function VerifierH1Scalar(ch: Challenges, l: LookupEvals): Fe {
    var a4 := Alpha4(ch.alpha);
    var e1d := Mul(ch.epsilon, Add(1, ch.delta));
    Mul(Mul(Neg(a4), l.z2Next), Add(Add(Mul(ch.delta, l.h1Next), e1d), l.h2))
  }

  /** `compute_linearisation_commitment` as written: the q_lookup weight is
      parsed as α³·lc(a,b,c,t4; ζ) − f. */
  function ComputeLinearisationCommitmentAsWritten<C>(
    vk: VerifierKey<C>, scalars: seq<Fe>, points: seq<C>, evals: ProofEvaluations,
    ch: Challenges, l1: Fe, z2Comm: C, h1Comm: C): (r: Result<(seq<Fe>, seq<C>)>)
    ensures r.Ok? <==> ch.zeta != 0 && ch.zeta != 1
    ensures r.Ok? ==> r.value.1 == points + [vk.qLookup, z2Comm, h1Comm]
    ensures r.Ok? ==> |r.value.0| == |scalars| + 3 && r.value.0[..|scalars|] == scalars
  {
    var w, l := evals.wire, evals.lookup;
    var compressed :- Lc([w.a, w.b, w.c, l.t4], ch.zeta);
    var s1 := Sub(Mul(Alpha3(ch.alpha), compressed), l.f);
    Ok((scalars + [s1, VerifierZ2Scalar(ch, l1, l), VerifierH1Scalar(ch, l)],
        points + [vk.qLookup, z2Comm, h1Comm]))
  }

  /** `compute_linearisation_commitment` with the q_lookup weight the
      prover uses, α³·(lc(a,b,c,t4; ζ) − f). */
  function ComputeLinearisationCommitment<C>(
    vk: VerifierKey<C>, scalars: seq<Fe>, points: seq<C>, evals: ProofEvaluations,
    ch: Challenges, l1: Fe, z2Comm: C, h1Comm: C): (r: Result<(seq<Fe>, seq<C>)>)
    ensures r.Ok? <==> ch.zeta != 0 && ch.zeta != 1
    ensures r.Ok? ==> r.value.1 == points + [vk.qLookup, z2Comm, h1Comm]
    ensures r.Ok? ==> |r.value.0| == |scalars| + 3 && r.value.0[..|scalars|] == scalars
  {
    var w, l := evals.wire, evals.lookup;
    var compressed :- Lc([w.a, w.b, w.c, l.t4], ch.zeta);
    var s1 := Mul(Alpha3(ch.alpha), Sub(compressed, l.f));
    Ok((scalars + [s1, VerifierZ2Scalar(ch, l1, l), VerifierH1Scalar(ch, l)],
        points + [vk.qLookup, z2Comm, h1Comm]))
  }

  /** Prover/verifier agreement: when the commitments are those of the
      prover's q_lookup, z2 and h1, the three appended scalars weight exactly
      those polynomials into the prover's linearisation term. */
  lemma LinearisationCommitmentAgrees<C>(pk: ProverKey, commit: Poly -> C, t: seq<C>,
                                         scalars: seq<Fe>, points: seq<C>, evals: ProofEvaluations,
                                         ch: Challenges, l1: Fe, z2: Poly, h1: Poly)
    requires |t| == 4
    ensures var vk := VerifierKey(commit(pk.qLookup), t[0], t[1], t[2], t[3]);
            var r := ComputeLinearisationCommitment(vk, scalars, points, evals, ch, l1,
                                                    commit(z2), commit(h1));
            var lin := ComputeLinearisation(pk, ch, l1, evals.wire, evals.lookup, z2, h1);
            && (r.Ok? <==> lin.Ok?)
            && (r.Ok? ==>
                  && r.value.1[|points|..] == [commit(pk.qLookup), commit(z2), commit(h1)]
                  && SameCoeffs(Combine(r.value.0[|scalars|..], [pk.qLookup, z2, h1]), lin.value))
  {
    if ch.zeta != 0 && ch.zeta != 1 {
      hide Add, Mul, Sub, Neg, Alpha3, Alpha4, Scale, PolyAdd;
      var vk := VerifierKey(commit(pk.qLookup), t[0], t[1], t[2], t[3]);
      var r := ComputeLinearisationCommitment(vk, scalars, points, evals, ch, l1, commit(z2), commit(h1));
      var w, l := evals.wire, evals.lookup;
      var compressed := LinearSum([w.a, w.b, w.c, l.t4], ch.zeta);
      var s1 := Mul(Alpha3(ch.alpha), Sub(compressed, l.f));
      var s2, s3 := VerifierZ2Scalar(ch, l1, l), VerifierH1Scalar(ch, l);
      assert r.value.0[|scalars|..] == [s1, s2, s3];
      AddComm(ch.delta, 1);
      var p1, p2, p3 := Scale(pk.qLookup, s1), Scale(z2, s2), Scale(h1, s3);
      assert ComputeLinearisation(pk, ch, l1, w, l, z2, h1) == Ok(PolyAdd(PolyAdd(p1, p2), p3));
      CombineThree([s1, s2, s3], [pk.qLookup, z2, h1]);
      AddEmptyLeft(p1);
      AddCongruent(PolyAdd([], p1), p1, p2, p2);
      AddCongruent(PolyAdd(PolyAdd([], p1), p2), PolyAdd(p1, p2), p3, p3);
    }
  }

  /** The as-written q_lookup weight α³·lc − f differs from the prover's
      α³·(lc − f): with α = 2, ζ = 2, all wires and t4 zero and f = 1 the
      verifier appends −1 where the prover's term needs −8. */
  lemma AsWrittenSelectorScalarDiffers<C>(vk: VerifierKey<C>, z2Comm: C, h1Comm: C)
    ensures var evals := ProofEvaluations(WireEvals(0, 0, 0), LookupEvals(1, 0, 0, 0, 0, 0, 0));
            var ch := Challenges(2, 0, 0, 2);
            var asWritten := ComputeLinearisationCommitmentAsWritten(vk, [], [], evals, ch, 0, z2Comm, h1Comm);
            var corrected := ComputeLinearisationCommitment(vk, [], [], evals, ch, 0, z2Comm, h1Comm);
            && asWritten.Ok? && corrected.Ok?
            && asWritten.value.0[0] == P - 1
            && corrected.value.0[0] == P - 8
            && asWritten.value.0[0] != corrected.value.0[0]
  {
    hide Add, Mul, Sub, Alpha3, LinearSum;
    var zeros: seq<Fe> := [0, 0, 0, 0];
    LinearSumZeros(zeros, 2);
    assert Lc(zeros, 2) == Ok(0);
    Alpha3Two();
    MulZeroRight(8);
    MinusOne();
    EightTimesMinusOne();
  }

  /** Apart from the q_lookup weight, the verifier as written and the
      corrected one append the same pairs, and the two q_lookup weights
      coincide exactly when α³·f = f. */
  lemma AsWrittenAgreesExactlyWhen<C>(vk: VerifierKey<C>, scalars: seq<Fe>, points: seq<C>,
                                      evals: ProofEvaluations, ch: Challenges, l1: Fe,
                                      z2Comm: C, h1Comm: C)
    ensures var asWritten := ComputeLinearisationCommitmentAsWritten(vk, scalars, points, evals, ch, l1, z2Comm, h1Comm);
            var corrected := ComputeLinearisationCommitment(vk, scalars, points, evals, ch, l1, z2Comm, h1Comm);
            && (asWritten.Ok? <==> corrected.Ok?)
            && (asWritten.Ok? ==>
                  && asWritten.value.1 == corrected.value.1
                  && asWritten.value.0[|scalars| + 1..] == corrected.value.0[|scalars| + 1..]
                  && (asWritten.value == corrected.value
                      <==> Mul(Alpha3(ch.alpha), evals.lookup.f) == evals.lookup.f))
  {
    if ch.zeta != 0 && ch.zeta != 1 {
      hide Mul, Sub, Alpha3, LinearSum;
      var w, l := evals.wire, evals.lookup;
      var a3, lc := Alpha3(ch.alpha), LinearSum([w.a, w.b, w.c, l.t4], ch.zeta);
      var asWritten := ComputeLinearisationCommitmentAsWritten(vk, scalars, points, evals, ch, l1, z2Comm, h1Comm);
      var corrected := ComputeLinearisationCommitment(vk, scalars, points, evals, ch, l1, z2Comm, h1Comm);
      var s2, s3 := VerifierZ2Scalar(ch, l1, l), VerifierH1Scalar(ch, l);
      assert asWritten.value.0 == scalars + [Sub(Mul(a3, lc), l.f), s2, s3];
      assert corrected.value.0 == scalars + [Mul(a3, Sub(lc, l.f)), s2, s3];
      DistribSub(a3, lc, l.f);
      SubInjective(Mul(a3, lc), l.f, Mul(a3, l.f));
      if asWritten.value == corrected.value {
        assert asWritten.value.0[|scalars|] == corrected.value.0[|scalars|];
      }
    }
  }

  lemma Alpha3Two()
    ensures Alpha3(2) == 8
  {
    hide Mul;
    hide Reduce;
    MulIsReduce(2, 2);
    ReduceFe(4);
    MulIsReduce(4, 2);
    ReduceFe(8);
  }

  lemma MinusOne()
    ensures Sub(0, 1) == P - 1
  {
  }

  lemma EightTimesMinusOne()
    ensures Mul(8, P - 1) == P - 8
  {
    DivModUnique(P, 8 * (P - 1), 7, P - 8);
  }

  lemma {:induction false} LinearSumZeros(z: seq<Fe>, c: Fe)
    requires forall k :: 0 <= k < |z| ==> z[k] == 0
    ensures LinearSum(z, c) == 0
    decreases |z|
  {
    if |z| > 0 {
      hide Add, Mul;
      LinearSumZeros(z[..|z| - 1], c);
      MulZeroLeft(Pow(c, |z| - 1));
      AddZeroLeft(0);
    }
  }
}
