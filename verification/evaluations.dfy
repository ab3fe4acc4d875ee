/** Openings the prover supplies at the challenge point, and the arithmetic
    gate relation they are checked against. The bundles are produced by the
    proof orchestration, which is not part of this model. */
module Evaluations {
  import opened Field

  /** Wire openings a(z), b(z), c(z). */
  datatype WireEvals = WireEvals(a: Fe, b: Fe, c: Fe)

  /** Lookup openings: the compressed witness column f, the table column t
      and its shift, the sorted halves h1 (with shift) and h2, the shifted
      running product z2, and the fourth table column t4. */
  datatype LookupEvals = LookupEvals(
    f: Fe, t: Fe, tNext: Fe, h1Next: Fe, h2: Fe, z2Next: Fe, t4: Fe)

  datatype ProofEvaluations = ProofEvaluations(wire: WireEvals, lookup: LookupEvals)

  /** The arithmetic gate polynomial q_m·a·b + q_l·a + q_r·b + q_o·c + q_c + pi,
      over the integers; a row is satisfied when it vanishes modulo P. */
  function GateValue(qm: int, ql: int, qr: int, qo: int, qc: int,
                     a: int, b: int, c: int, pi: int): int
  {
    qm * a * b + ql * a + qr * b + qo * c + qc + pi
  }
}
