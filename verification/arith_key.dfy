/** Keys of the arithmetic gate (`keys/arithmetic.rs`): the prover's
    linearisation term, the pointwise quotient contribution on the coset
    domain, and the verifier's (scalar, commitment) appends. */
module ArithmeticKey {
  import opened Field
  import opened Polynomial
  import opened Evaluations

  /** The five selector polynomials. */
  datatype ProverKey = ProverKey(qm: Poly, ql: Poly, qr: Poly, qo: Poly, qc: Poly)

  /** The selectors evaluated over the extended coset domain. */
  datatype ExtendedProverKey = ExtendedProverKey(
    qmCoset: seq<Fe>, qlCoset: seq<Fe>, qrCoset: seq<Fe>, qoCoset: seq<Fe>, qcCoset: seq<Fe>)

  /** Commitments to the five selectors; `C` is the opaque commitment type. */
  datatype VerifierKey<C> = VerifierKey(qm: C, ql: C, qr: C, qo: C, qc: C)

  /** `q_m·(a·b) + q_l·a + q_r·b + q_o·c + q_c`: coefficient by coefficient,
      the gate polynomial of the selectors' k-th coefficients. */
  function ComputeLinearisation(pk: ProverKey, w: WireEvals): (r: Poly)
    ensures forall k: nat :: Coeff(r, k) == Reduce(GateValue(
      Coeff(pk.qm, k), Coeff(pk.ql, k), Coeff(pk.qr, k), Coeff(pk.qo, k), Coeff(pk.qc, k),
      w.a, w.b, w.c, 0))
  {
    var r := PolyAdd(PolyAdd(PolyAdd(PolyAdd(
      Scale(pk.qm, Mul(w.a, w.b)),
      Scale(pk.ql, w.a)),
      Scale(pk.qr, w.b)),
      Scale(pk.qo, w.c)),
      pk.qc);
    LinearisationCoeffs(pk, w);
    r
  }

  lemma LinearisationCoeffs(pk: ProverKey, w: WireEvals)
    ensures var r := PolyAdd(PolyAdd(PolyAdd(PolyAdd(
              Scale(pk.qm, Mul(w.a, w.b)), Scale(pk.ql, w.a)), Scale(pk.qr, w.b)),
              Scale(pk.qo, w.c)), pk.qc);
            forall k: nat :: Coeff(r, k) == Reduce(GateValue(
              Coeff(pk.qm, k), Coeff(pk.ql, k), Coeff(pk.qr, k), Coeff(pk.qo, k),
              Coeff(pk.qc, k), w.a, w.b, w.c, 0))
  {
    hide Add, Mul, Reduce;
    var s1, s2, s3, s4 := Scale(pk.qm, Mul(w.a, w.b)), Scale(pk.ql, w.a), Scale(pk.qr, w.b), Scale(pk.qo, w.c);
    CoeffScale(pk.qm, Mul(w.a, w.b));
    CoeffScale(pk.ql, w.a);
    CoeffScale(pk.qr, w.b);
    CoeffScale(pk.qo, w.c);
    CoeffAdd(s1, s2);
    CoeffAdd(PolyAdd(s1, s2), s3);
    CoeffAdd(PolyAdd(PolyAdd(s1, s2), s3), s4);
    CoeffAdd(PolyAdd(PolyAdd(PolyAdd(s1, s2), s3), s4), pk.qc);
    forall k: nat
      ensures Add(Add(Add(Add(Mul(Coeff(pk.qm, k), Mul(w.a, w.b)), Mul(Coeff(pk.ql, k), w.a)),
                              Mul(Coeff(pk.qr, k), w.b)), Mul(Coeff(pk.qo, k), w.c)), Coeff(pk.qc, k))
           == Reduce(GateValue(Coeff(pk.qm, k), Coeff(pk.ql, k), Coeff(pk.qr, k),
                               Coeff(pk.qo, k), Coeff(pk.qc, k), w.a, w.b, w.c, 0))
    {
      LinearisationShape(Coeff(pk.qm, k), Coeff(pk.ql, k), Coeff(pk.qr, k),
                         Coeff(pk.qo, k), Coeff(pk.qc, k), w);
    }
  }

  /** The nested field expression of one linearisation coefficient is the
      gate polynomial reduced modulo P. */
  lemma LinearisationShape(qm: Fe, ql: Fe, qr: Fe, qo: Fe, qc: Fe, w: WireEvals)
    ensures Add(Add(Add(Add(Mul(qm, Mul(w.a, w.b)), Mul(ql, w.a)), Mul(qr, w.b)), Mul(qo, w.c)), qc)
         == Reduce(GateValue(qm, ql, qr, qo, qc, w.a, w.b, w.c, 0))
  {
    hide Add, Mul, Reduce;
    MulNestedIsReduce(qm, w.a, w.b);
    MulIsReduce(ql, w.a);
    MulIsReduce(qr, w.b);
    MulIsReduce(qo, w.c);
    ReduceFe(qc);
    var m1: int, m2: int, m3: int, m4: int := qm * (w.a * w.b), ql * w.a, qr * w.b, qo * w.c;
    AddChain5(m1, m2, m3, m4, qc);
    GateValueLinearisationOrder(qm, ql, qr, qo, qc, w.a, w.b, w.c);
  }

  lemma GateValueLinearisationOrder(qm: int, ql: int, qr: int, qo: int, qc: int, a: int, b: int, c: int)
    ensures qm * (a * b) + ql * a + qr * b + qo * c + qc == GateValue(qm, ql, qr, qo, qc, a, b, c, 0)
  {
  }

  /** Evaluating the linearisation term at any point gives the gate
      polynomial of the selector evaluations at that point. */
  lemma LinearisationEval(pk: ProverKey, w: WireEvals, x: Fe)
    ensures Eval(ComputeLinearisation(pk, w), x) == Reduce(GateValue(
      Eval(pk.qm, x), Eval(pk.ql, x), Eval(pk.qr, x), Eval(pk.qo, x), Eval(pk.qc, x),
      w.a, w.b, w.c, 0))
  {
    hide Add, Mul, Reduce;
    var ab := Mul(w.a, w.b);
    var s1, s2, s3, s4 := Scale(pk.qm, ab), Scale(pk.ql, w.a), Scale(pk.qr, w.b), Scale(pk.qo, w.c);
    EvalAdd(PolyAdd(PolyAdd(PolyAdd(s1, s2), s3), s4), pk.qc, x);
    EvalAdd(PolyAdd(PolyAdd(s1, s2), s3), s4, x);
    EvalAdd(PolyAdd(s1, s2), s3, x);
    EvalAdd(s1, s2, x);
    EvalScale(pk.qm, ab, x);
    EvalScale(pk.ql, w.a, x);
    EvalScale(pk.qr, w.b, x);
    EvalScale(pk.qo, w.c, x);
    MulComm(ab, Eval(pk.qm, x));
    MulComm(w.a, Eval(pk.ql, x));
    MulComm(w.b, Eval(pk.qr, x));
    MulComm(w.c, Eval(pk.qo, x));
    LinearisationShape(Eval(pk.qm, x), Eval(pk.ql, x), Eval(pk.qr, x), Eval(pk.qo, x),
                       Eval(pk.qc, x), w);
  }

  /** The quotient contribution at coset index `i`: the gate polynomial of
      the i-th coset selector values and the given wire and public values. */
  function ComputeQuotientI(epk: ExtendedProverKey, i: nat, a: Fe, b: Fe, c: Fe, pi: Fe): (r: Fe)
    requires i < |epk.qmCoset| && i < |epk.qlCoset| && i < |epk.qrCoset|
    requires i < |epk.qoCoset| && i < |epk.qcCoset|
    ensures r == Reduce(GateValue(epk.qmCoset[i], epk.qlCoset[i], epk.qrCoset[i],
                                  epk.qoCoset[i], epk.qcCoset[i], a, b, c, pi))
  {
    var qm, ql, qr, qo, qc := epk.qmCoset[i], epk.qlCoset[i], epk.qrCoset[i],
                              epk.qoCoset[i], epk.qcCoset[i];
    QuotientShape(qm, ql, qr, qo, qc, a, b, c, pi);
    Add(Add(Add(Add(Add(Mul(Mul(a, b), qm), Mul(a, ql)), Mul(b, qr)), Mul(c, qo)), qc), pi)
  }

  lemma QuotientShape(qm: Fe, ql: Fe, qr: Fe, qo: Fe, qc: Fe, a: Fe, b: Fe, c: Fe, pi: Fe)
    ensures Add(Add(Add(Add(Add(Mul(Mul(a, b), qm), Mul(a, ql)), Mul(b, qr)), Mul(c, qo)), qc), pi)
         == Reduce(GateValue(qm, ql, qr, qo, qc, a, b, c, pi))
  {
    hide Add, Mul, Reduce;
    MulComm(Mul(a, b), qm);
    MulNestedIsReduce(qm, a, b);
    MulIsReduce(a, ql);
    MulIsReduce(b, qr);
    MulIsReduce(c, qo);
    ReduceFe(qc);
    ReduceFe(pi);
    var m1: int, m2: int, m3: int, m4: int := qm * (a * b), a * ql, b * qr, c * qo;
    AddChain5(m1, m2, m3, m4, qc);
    AddReduce(m1 + m2 + m3 + m4 + qc, pi);
    GateValueQuotientOrder(qm, ql, qr, qo, qc, a, b, c, pi);
  }

  lemma GateValueQuotientOrder(qm: int, ql: int, qr: int, qo: int, qc: int,
                               a: int, b: int, c: int, pi: int)
    ensures qm * (a * b) + a * ql + b * qr + c * qo + qc + pi == GateValue(qm, ql, qr, qo, qc, a, b, c, pi)
  {
  }

  /** The quotient contribution reads nothing of the coset vectors beyond index `i`. */
  lemma QuotientReadsOnlyIndex(epk: ExtendedProverKey, epk': ExtendedProverKey, i: nat,
                               a: Fe, b: Fe, c: Fe, pi: Fe)
    requires i < |epk.qmCoset| && i < |epk.qlCoset| && i < |epk.qrCoset|
    requires i < |epk.qoCoset| && i < |epk.qcCoset|
    requires i < |epk'.qmCoset| && i < |epk'.qlCoset| && i < |epk'.qrCoset|
    requires i < |epk'.qoCoset| && i < |epk'.qcCoset|
    requires epk.qmCoset[i] == epk'.qmCoset[i] && epk.qlCoset[i] == epk'.qlCoset[i]
    requires epk.qrCoset[i] == epk'.qrCoset[i] && epk.qoCoset[i] == epk'.qoCoset[i]
    requires epk.qcCoset[i] == epk'.qcCoset[i]
    ensures ComputeQuotientI(epk, i, a, b, c, pi) == ComputeQuotientI(epk', i, a, b, c, pi)
  {
  }

  /** The public input enters additively: raising `pi` by `d` raises the result by `d`. */
  lemma QuotientAffineInPublicInput(epk: ExtendedProverKey, i: nat, a: Fe, b: Fe, c: Fe,
                                    pi: Fe, d: Fe)
    requires i < |epk.qmCoset| && i < |epk.qlCoset| && i < |epk.qrCoset|
    requires i < |epk.qoCoset| && i < |epk.qcCoset|
    ensures ComputeQuotientI(epk, i, a, b, c, Add(pi, d))
         == Add(ComputeQuotientI(epk, i, a, b, c, pi), d)
  {
    hide Add, Reduce;
    var g := GateValue(epk.qmCoset[i], epk.qlCoset[i], epk.qrCoset[i],
                       epk.qoCoset[i], epk.qcCoset[i], a, b, c, 0);
    assert GateValue(epk.qmCoset[i], epk.qlCoset[i], epk.qrCoset[i],
                     epk.qoCoset[i], epk.qcCoset[i], a, b, c, Add(pi, d)) == g + Add(pi, d);
    assert GateValue(epk.qmCoset[i], epk.qlCoset[i], epk.qrCoset[i],
                     epk.qoCoset[i], epk.qcCoset[i], a, b, c, pi) == g + pi;
    calc {
      Reduce(g + Add(pi, d));
      { ReduceFe(pi); ReduceFe(d); AddReduce(pi, d); ReduceAddLeft(pi + d, g); }
      Reduce(g + pi + d);
      { AddReduce(g + pi, d); ReduceFe(d); assert g + pi + d == (g + pi) + d; }
      Add(Reduce(g + pi), d);
    }
  }

  /** `compute_linearisation_commitment`: appends the five (scalar, commitment)
      pairs (a·b, q_m), (a, q_l), (b, q_r), (c, q_o), (1, q_c). */
  function ComputeLinearisationCommitment<C>(vk: VerifierKey<C>, scalars: seq<Fe>, points: seq<C>,
                                             evals: ProofEvaluations): (r: (seq<Fe>, seq<C>))
    ensures |r.0| == |scalars| + 5 && |r.1| == |points| + 5
    ensures r.0[..|scalars|] == scalars && r.1[..|points|] == points
    ensures r.1[|points|..] == [vk.qm, vk.ql, vk.qr, vk.qo, vk.qc]
  {
    var w := evals.wire;
    (scalars + [Mul(w.a, w.b), w.a, w.b, w.c, 1], points + [vk.qm, vk.ql, vk.qr, vk.qo, vk.qc])
  }

  /** Prover/verifier agreement: with a verifier key committing to the
      prover's selectors, the five appended scalars weight exactly those
      selectors into the prover's linearisation term. */
  lemma LinearisationCommitmentAgrees<C>(pk: ProverKey, commit: Poly -> C, scalars: seq<Fe>,
                                         points: seq<C>, evals: ProofEvaluations)
    ensures var vk := VerifierKey(commit(pk.qm), commit(pk.ql), commit(pk.qr),
                                  commit(pk.qo), commit(pk.qc));
            var r := ComputeLinearisationCommitment(vk, scalars, points, evals);
            var polys := [pk.qm, pk.ql, pk.qr, pk.qo, pk.qc];
            && r.1[|points|..] == seq(5, k requires 0 <= k < 5 => commit(polys[k]))
            && SameCoeffs(Combine(r.0[|scalars|..], polys), ComputeLinearisation(pk, evals.wire))
  {
    var vk := VerifierKey(commit(pk.qm), commit(pk.ql), commit(pk.qr), commit(pk.qo), commit(pk.qc));
    var r := ComputeLinearisationCommitment(vk, scalars, points, evals);
    var w := evals.wire;
    var ab := Mul(w.a, w.b);
    var s := r.0[|scalars|..];
    assert s == [ab, w.a, w.b, w.c, 1];
    var s1, s2, s3, s4 := Scale(pk.qm, ab), Scale(pk.ql, w.a), Scale(pk.qr, w.b), Scale(pk.qo, w.c);
    CombineFive([ab, w.a, w.b, w.c, 1], [pk.qm, pk.ql, pk.qr, pk.qo, pk.qc]);
    AddEmptyLeft(s1);
    AddCongruent(PolyAdd([], s1), s1, s2, s2);
    AddCongruent(PolyAdd(PolyAdd([], s1), s2), PolyAdd(s1, s2), s3, s3);
    AddCongruent(PolyAdd(PolyAdd(PolyAdd([], s1), s2), s3), PolyAdd(PolyAdd(s1, s2), s3), s4, s4);
    ScaleOne(pk.qc);
    AddCongruent(PolyAdd(PolyAdd(PolyAdd(PolyAdd([], s1), s2), s3), s4),
                 PolyAdd(PolyAdd(PolyAdd(s1, s2), s3), s4), Scale(pk.qc, 1), pk.qc);
  }

}
