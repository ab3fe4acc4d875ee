/** The reference arithmetic-gate checker (`constraint_system/helper.rs`):
    a Setup build supplies the selectors, a Proving build of the same circuit
    supplies the wire values, and every row must satisfy
    q_m·a·b + q_l·a + q_r·b + q_o·c + pi + q_c = 0. */
module Helper {
  import opened Base
  import opened Field
  import opened Evaluations
  import opened Tables
  import opened Circuit
  import opened LookupGates

  /** The rows `izip!` visits: as many as the shortest of the five selector
      vectors, the three wire vectors and the `n` public values. */
  function CheckedRows(s: SetupComposer, p: ProvingComposer): (m: nat)
    ensures m <= |s.qm| && m <= |s.ql| && m <= |s.qr| && m <= |s.qo| && m <= |s.qc|
    ensures m <= |p.wl| && m <= |p.wr| && m <= |p.wo| && m <= p.n
    ensures m == |s.qm| || m == |s.ql| || m == |s.qr| || m == |s.qo| || m == |s.qc|
            || m == |p.wl| || m == |p.wr| || m == |p.wo| || m == p.n
  {
    Min3(Min3(Min3(|s.qm|, |s.ql|, |s.qr|), |s.qo|, |s.qc|),
         Min3(|p.wl|, |p.wr|, |p.wo|), p.n)
  }

  /** `zip(..).all(i == j)`: the positions agree over the shorter list. */
  predicate PositionsAgree(a: seq<nat>, b: seq<nat>) {
    forall k :: 0 <= k < |a| && k < |b| ==> a[k] == b[k]
  }

  /** The value of a handle, 0 for one without a value. */
  function ValueOr0(p: ProvingComposer, v: Variable): Fe {
    match ValueOfVar(p, v)
    case Ok(x) => x
    case Err(_) => 0
  }

  /** Row `i` holds: its three wires have values and the gate polynomial
      vanishes modulo P. */
  predicate RowHolds(s: SetupComposer, p: ProvingComposer, pubVals: seq<Fe>, i: nat)
    requires i < CheckedRows(s, p) && i < |pubVals|
  {
    && Assigned(p, p.wl[i]) && Assigned(p, p.wr[i]) && Assigned(p, p.wo[i])
    && GateValue(s.qm[i], s.ql[i], s.qr[i], s.qo[i], s.qc[i],
                 ValueOr0(p, p.wl[i]), ValueOr0(p, p.wr[i]), ValueOr0(p, p.wo[i]), pubVals[i]) % P == 0
  }

  /** Every row the check visits holds. */
  predicate AllRowsHold(s: SetupComposer, p: ProvingComposer) {
    forall i :: 0 <= i < CheckedRows(s, p) ==> RowHolds(s, p, AsEvals(p.pi, p.n), i)
  }

  /** The gate output in the order the checker sums it. */
  lemma CheckOrderShape(qm: Fe, ql: Fe, qr: Fe, qo: Fe, qc: Fe, a: Fe, b: Fe, c: Fe, pi: Fe)
    ensures Add(Add(Add(Add(Add(Mul(Mul(qm, a), b), Mul(ql, a)), Mul(qr, b)), Mul(qo, c)), pi), qc)
         == Reduce(GateValue(qm, ql, qr, qo, qc, a, b, c, pi))
  {
    hide Add, Mul, Reduce;
    Mul3IsReduce(qm, a, b);
    MulIsReduce(ql, a);
    MulIsReduce(qr, b);
    MulIsReduce(qo, c);
    ReduceFe(pi);
    ReduceFe(qc);
    var m1: int, m2: int, m3: int, m4: int := qm * a * b, ql * a, qr * b, qo * c;
    AddChain5(m1, m2, m3, m4, pi);
    AddReduce(m1 + m2 + m3 + m4 + pi, qc);
    assert m1 + m2 + m3 + m4 + pi + qc == GateValue(qm, ql, qr, qo, qc, a, b, c, pi);
  }

  /** The body of the checker's closure for row `i`: the three wire values,
      in order, then the gate output summed in the checker's order. */
  function RowOutput(s: SetupComposer, p: ProvingComposer, pubVals: seq<Fe>, i: nat): (r: Result<Fe>)
    requires i < CheckedRows(s, p) && i < |pubVals|
    ensures r.Ok? <==> Assigned(p, p.wl[i]) && Assigned(p, p.wr[i]) && Assigned(p, p.wo[i])
    ensures r.Ok? ==> (r.value == 0 <==> RowHolds(s, p, pubVals, i))
    ensures r.Err? ==> && r.error.UnassignedVariable?
                       && Var(r.error.id) in [p.wl[i], p.wr[i], p.wo[i]]
                       && !Assigned(p, Var(r.error.id))
  {
    var a :- ValueOfVar(p, p.wl[i]);
    var b :- ValueOfVar(p, p.wr[i]);
    var c :- ValueOfVar(p, p.wo[i]);
    CheckOrderShape(s.qm[i], s.ql[i], s.qr[i], s.qo[i], s.qc[i], a, b, c, pubVals[i]);
    Ok(Add(Add(Add(Add(Add(Mul(Mul(s.qm[i], a), b), Mul(s.ql[i], a)), Mul(s.qr[i], b)),
                   Mul(s.qo[i], c)), pubVals[i]), s.qc[i]))
  }

  /** `check_arith_gate(setup, proving)`: the failed assertion becomes an error. */
  method CheckArithGate(s: SetupComposer, p: ProvingComposer) returns (r: Result<()>)
    ensures s.n != p.n ==> r == Err(CircuitSizeMismatch)
    ensures s.n == p.n && !PositionsAgree(s.pp, Positions(p.pi)) ==> r == Err(PublicInputMismatch)
    ensures r.Ok? <==> s.n == p.n && PositionsAgree(s.pp, Positions(p.pi)) && AllRowsHold(s, p)
    ensures s.n == p.n && PositionsAgree(s.pp, Positions(p.pi)) && r.Err? ==>
              r.error.GateUnsatisfied? || r.error.UnassignedVariable?
    ensures r.Err? && r.error.GateUnsatisfied? ==>
              && r.error.gate < CheckedRows(s, p)
              && (forall i :: 0 <= i < r.error.gate ==> RowHolds(s, p, AsEvals(p.pi, p.n), i))
              && !RowHolds(s, p, AsEvals(p.pi, p.n), r.error.gate)
    ensures r.Err? && r.error.UnassignedVariable? ==>
              exists i :: 0 <= i < CheckedRows(s, p)
                && (forall j :: 0 <= j < i ==> RowHolds(s, p, AsEvals(p.pi, p.n), j))
                && Var(r.error.id) in [p.wl[i], p.wr[i], p.wo[i]]
                && !Assigned(p, Var(r.error.id))
  {
    if s.n != p.n {
      return Err(CircuitSizeMismatch);
    }
    var setupPos, provingPos := s.pp, Positions(p.pi);
    for k := 0 to if |setupPos| < |provingPos| then |setupPos| else |provingPos|
      invariant forall j :: 0 <= j < k ==> setupPos[j] == provingPos[j]
    {
      if setupPos[k] != provingPos[k] {
        return Err(PublicInputMismatch);
      }
    }
    var pubVals := AsEvals(p.pi, p.n);
    var rows := CheckedRows(s, p);
    for i := 0 to rows
      invariant forall j :: 0 <= j < i ==> RowHolds(s, p, pubVals, j)
    {
      var out := RowOutput(s, p, pubVals, i);
      if out.Err? {
        assert !RowHolds(s, p, pubVals, i);
        assert !AllRowsHold(s, p);
        return Err(out.error);
      }
      if out.value != 0 {
        assert !RowHolds(s, p, pubVals, i);
        assert !AllRowsHold(s, p);
        return Err(GateUnsatisfied(i));
      }
    }
    return Ok(());
  }

  // ---------------------------------------------------------------------
  // Running one circuit description in both modes
  // ---------------------------------------------------------------------

  /** One call a circuit description makes on the constraint system:
      `assign_variable`, a general gate (`gate_constrain` in Setup,
      `input_wires` in Proving, with the public value when there is one), or
      one of the three lookup gates. */
  datatype Step =
    | AssignStep(value: Fe)
    | GateStep(a: Variable, b: Variable, c: Variable, sels: Selectors, pub: Option<Fe>)
    | ContainsStep(f: Family, x: Variable)
    | Lookup1DStep(f: Family, x: Variable)
    | Lookup2DStep(f: Family, x: Variable, y: Variable)

  predicate ValidStep(st: Step) {
    st.AssignStep? || st.GateStep? || ValidFamily(st.f)
  }

  /** A step that emits no arithmetic gate and no public input. */
  predicate LookupOnlyStep(st: Step) {
    !st.GateStep?
  }

  /** A general gate: Setup records the selectors and whether the gate is
      public, Proving records the wiring and the public value. */
  function GateStepCall(c: Composer, a: Variable, b: Variable, d: Variable, sels: Selectors, pub: Option<Fe>)
    : (r: Composer)
    ensures r.Setup? == c.Setup?
    ensures GateCount(r) == GateCount(c) + 1
    ensures VariablesAllocated(r) == VariablesAllocated(c)
  {
    match c
    case Setup(s) => Setup(GateConstrain(s, a, b, d, sels, pub.Some?))
    case Proving(p) => Proving(InputWires(p, a, b, d, pub))
  }

  function RunStep(cs: ConstraintSystem, st: Step): (r: Result<ConstraintSystem>)
    requires ValidStep(st)
    ensures r.Ok? ==> r.value.composer.Setup? == cs.composer.Setup?
    ensures r.Ok? ==> r.value.table == cs.table
    ensures st.AssignStep? || st.GateStep? ==> r.Ok?
  {
    match st
    case AssignStep(value) => Ok(AssignVariable(cs, value).0)
    case GateStep(a, b, c, sels, pub) => Ok(cs.(composer := GateStepCall(cs.composer, a, b, c, sels, pub)))
    case ContainsStep(f, x) => ContainsGate(cs, f, x)
    case Lookup1DStep(f, x) =>
      var (cs', _) :- Lookup1DGate(cs, f, x);
      Ok(cs')
    case Lookup2DStep(f, x, y) =>
      var (cs', _) :- Lookup2DGate(cs, f, x, y);
      Ok(cs')
  }

  /** A circuit description: its steps applied in order, stopping at the first failure. */
  function Run(cs: ConstraintSystem, steps: seq<Step>): (r: Result<ConstraintSystem>)
    requires forall k :: 0 <= k < |steps| ==> ValidStep(steps[k])
    ensures r.Ok? ==> r.value.composer.Setup? == cs.composer.Setup?
    ensures r.Ok? ==> r.value.table == cs.table
    decreases |steps|
  {
    if |steps| == 0 then Ok(cs)
    else
      var cs' :- RunStep(cs, steps[0]);
      Run(cs', steps[1..])
  }

  /** What both builds keep true while the same description runs: they are
      in lockstep and their per-gate vectors are well formed. */
  predicate BuildInvariant(s: SetupComposer, p: ProvingComposer) {
    Lockstep(s, p) && SetupWellFormed(s) && ProvingWellFormed(p)
  }

  /** What a description without general gates keeps in addition: no
      arithmetic selector is set, every Proving wire has a value, and there
      are no public inputs. */
  predicate LookupOnlyInvariant(s: SetupComposer, p: ProvingComposer) {
    && BuildInvariant(s, p)
    && (forall k :: 0 <= k < |s.qm| ==> s.qm[k] == 0)
    && (forall k :: 0 <= k < |s.ql| ==> s.ql[k] == 0)
    && (forall k :: 0 <= k < |s.qr| ==> s.qr[k] == 0)
    && (forall k :: 0 <= k < |s.qo| ==> s.qo[k] == 0)
    && (forall k :: 0 <= k < |s.qc| ==> s.qc[k] == 0)
    && WiresAssigned(p) && p.pi == [] && s.pp == []
  }

  lemma AppendKeepsInvariant(s: SetupComposer, p: ProvingComposer, s': SetupComposer, p': ProvingComposer,
                             a: Variable, b: Variable, d: Variable)
    requires BuildInvariant(s, p) && Lockstep(s', p')
    requires AppendsLookupGate(Setup(s), Setup(s'), a, b, d)
    requires AppendsLookupGate(Proving(p), Proving(p'), a, b, d)
    requires |p.values| <= |p'.values|
    ensures BuildInvariant(s', p')
    ensures LookupOnlyInvariant(s, p) && Assigned(p', a) && Assigned(p', b) && Assigned(p', d)
            ==> LookupOnlyInvariant(s', p')
  {
    if LookupOnlyInvariant(s, p) && Assigned(p', a) && Assigned(p', b) && Assigned(p', d) {
      AppendKeepsWiresAssigned(p, p', a, b, d);
      assert forall k :: 0 <= k < |s.qm| ==> s'.qm[k] == s.qm[k];
      assert forall k :: 0 <= k < |s.ql| ==> s'.ql[k] == s.ql[k];
      assert forall k :: 0 <= k < |s.qr| ==> s'.qr[k] == s.qr[k];
      assert forall k :: 0 <= k < |s.qo| ==> s'.qo[k] == s.qo[k];
      assert forall k :: 0 <= k < |s.qc| ==> s'.qc[k] == s.qc[k];
    }
  }

  /** One step run on both builds keeps the invariant, Setup succeeds
      whenever Proving does, and a lookup-only step keeps the lookup-only
      invariant. */
  lemma StepKeepsInvariant(s: SetupComposer, p: ProvingComposer, table: seq<Row>, st: Step)
    requires ValidStep(st) && BuildInvariant(s, p)
    requires RunStep(ConstraintSystem(Proving(p), table), st).Ok?
    ensures RunStep(ConstraintSystem(Setup(s), table), st).Ok?
    ensures BuildInvariant(RunStep(ConstraintSystem(Setup(s), table), st).value.composer.setup,
                           RunStep(ConstraintSystem(Proving(p), table), st).value.composer.proving)
    ensures LookupOnlyStep(st) && LookupOnlyInvariant(s, p) ==>
              LookupOnlyInvariant(RunStep(ConstraintSystem(Setup(s), table), st).value.composer.setup,
                                  RunStep(ConstraintSystem(Proving(p), table), st).value.composer.proving)
  {
    var css, csp := ConstraintSystem(Setup(s), table), ConstraintSystem(Proving(p), table);
    match st
    case AssignStep(value) =>
      AssignKeepsLockstep(s, p, value);
      var p' := AssignValue(p, value).0;
      if WiresAssigned(p) {
        assert forall k :: 0 <= k < |p.wl| ==> Assigned(p', p.wl[k]);
        assert forall k :: 0 <= k < |p.wr| ==> Assigned(p', p.wr[k]);
        assert forall k :: 0 <= k < |p.wo| ==> Assigned(p', p.wo[k]);
      }
    case GateStep(a, b, c, sels, pub) =>
      GateKeepsLockstep(s, p, a, b, c, sels, pub);
      var s' := GateConstrain(s, a, b, c, sels, pub.Some?);
      var p' := InputWires(p, a, b, c, pub);
      assert forall k :: 0 <= k < |s'.pp| ==> s'.pp[k] < s'.n;
      assert forall k :: 0 <= k < |p'.pi| ==> p'.pi[k].pos < p'.n;
    case ContainsStep(f, x) =>
      ContainsGateLockstep(s, p, table, f, x);
      var s', p' := ContainsGate(css, f, x).value.composer.setup, ContainsGate(csp, f, x).value.composer.proving;
      AppendKeepsInvariant(s, p, s', p', x, Zero, Zero);
    case Lookup1DStep(f, x) =>
      Lookup1DGateLockstep(s, p, table, f, x);
      var rs, rp := Lookup1DGate(css, f, x).value, Lookup1DGate(csp, f, x).value;
      AppendKeepsInvariant(s, p, rs.0.composer.setup, rp.0.composer.proving, x, rp.1, Zero);
    case Lookup2DStep(f, x, y) =>
      Lookup2DGateLockstep(s, p, table, f, x, y);
      var rs, rp := Lookup2DGate(css, f, x, y).value, Lookup2DGate(csp, f, x, y).value;
      AppendKeepsInvariant(s, p, rs.0.composer.setup, rp.0.composer.proving, x, y, rp.1);
  }

  /** The same description run on lockstep builds: Setup succeeds whenever
      Proving does, the invariant holds at the end, and a lookup-only
      description keeps the lookup-only invariant. */
  lemma {:induction false} RunKeepsInvariant(s: SetupComposer, p: ProvingComposer, table: seq<Row>, steps: seq<Step>)
    requires forall k :: 0 <= k < |steps| ==> ValidStep(steps[k])
    requires BuildInvariant(s, p)
    requires Run(ConstraintSystem(Proving(p), table), steps).Ok?
    ensures Run(ConstraintSystem(Setup(s), table), steps).Ok?
    ensures BuildInvariant(Run(ConstraintSystem(Setup(s), table), steps).value.composer.setup,
                           Run(ConstraintSystem(Proving(p), table), steps).value.composer.proving)
    ensures (forall k :: 0 <= k < |steps| ==> LookupOnlyStep(steps[k])) && LookupOnlyInvariant(s, p) ==>
              LookupOnlyInvariant(Run(ConstraintSystem(Setup(s), table), steps).value.composer.setup,
                                  Run(ConstraintSystem(Proving(p), table), steps).value.composer.proving)
    decreases |steps|
  {
    if |steps| > 0 {
      StepKeepsInvariant(s, p, table, steps[0]);
      var css := RunStep(ConstraintSystem(Setup(s), table), steps[0]).value;
      var csp := RunStep(ConstraintSystem(Proving(p), table), steps[0]).value;
      assert css == ConstraintSystem(Setup(css.composer.setup), table);
      assert csp == ConstraintSystem(Proving(csp.composer.proving), table);
      RunKeepsInvariant(css.composer.setup, csp.composer.proving, table, steps[1..]);
    }
  }

  lemma GateValueOfZeroRow(a: int, b: int, c: int)
    ensures GateValue(0, 0, 0, 0, 0, a, b, c, 0) % P == 0
  {
  }

  /** Under the lookup-only invariant every row of the check holds. */
  lemma InvariantPassesCheck(s: SetupComposer, p: ProvingComposer)
    requires LookupOnlyInvariant(s, p)
    ensures CheckedRows(s, p) == s.n
    ensures AllRowsHold(s, p)
  {
    AsEvalsEmpty(p.n);
    var pubVals := AsEvals(p.pi, p.n);
    assert CheckedRows(s, p) == s.n;
    forall i | 0 <= i < s.n
      ensures RowHolds(s, p, pubVals, i)
    {
      var a, b, c := ValueOr0(p, p.wl[i]), ValueOr0(p, p.wr[i]), ValueOr0(p, p.wo[i]);
      assert s.qm[i] == 0 && s.ql[i] == 0 && s.qr[i] == 0 && s.qo[i] == 0 && s.qc[i] == 0;
      assert pubVals[i] == 0;
      GateValueOfZeroRow(a, b, c);
      assert Assigned(p, p.wl[i]) && Assigned(p, p.wr[i]) && Assigned(p, p.wo[i]);
    }
  }

  /** The builds `test_arith_gates` hands to the checker, when both runs succeed. */
  function Builds(steps: seq<Step>, table: seq<Row>): (r: Option<(SetupComposer, ProvingComposer)>)
    requires forall k :: 0 <= k < |steps| ==> ValidStep(steps[k])
    ensures r.Some? <==> Run(NewSystem(true, table), steps).Ok? && Run(NewSystem(false, table), steps).Ok?
  {
    match (Run(NewSystem(true, table), steps), Run(NewSystem(false, table), steps))
    case (Ok(cs), Ok(cp)) => Some((cs.composer.setup, cp.composer.proving))
    case _ => None
  }

  /** Both runs of one description over the same table: Setup succeeds
      whenever Proving does, the two builds stay in lockstep, and a
      lookup-only description satisfies every row. */
  lemma BuildsAgree(steps: seq<Step>, table: seq<Row>)
    requires forall k :: 0 <= k < |steps| ==> ValidStep(steps[k])
    ensures Run(NewSystem(false, table), steps).Ok? ==> Builds(steps, table).Some?
    ensures Builds(steps, table).Some? ==> BuildInvariant(Builds(steps, table).value.0, Builds(steps, table).value.1)
    ensures Builds(steps, table).Some? && (forall k :: 0 <= k < |steps| ==> LookupOnlyStep(steps[k])) ==>
              AllRowsHold(Builds(steps, table).value.0, Builds(steps, table).value.1)
  {
    assert NewSystem(true, table) == ConstraintSystem(Setup(EmptySetup()), table);
    assert NewSystem(false, table) == ConstraintSystem(Proving(EmptyProving()), table);
    assert LookupOnlyInvariant(EmptySetup(), EmptyProving());
    if Run(NewSystem(false, table), steps).Ok? {
      RunKeepsInvariant(EmptySetup(), EmptyProving(), table, steps);
      if forall k :: 0 <= k < |steps| ==> LookupOnlyStep(steps[k]) {
        var (sc, pc) := Builds(steps, table).value;
        InvariantPassesCheck(sc, pc);
      }
    }
  }

  /** A description with one unsatisfied gate: assign 1, then a gate that
      asks `1·a = 0` of it. */
  function UnsatisfiedDescription(): seq<Step> {
    [AssignStep(1), GateStep(Var(0), Zero, Zero, Selectors(0, 1, 0, 0, 0, 0), None)]
  }

  /** Both runs of that description succeed, yet its gate does not hold, so
      `test_arith_gates` reports it. */
  lemma UnsatisfiedGateDetected(table: seq<Row>)
    ensures Builds(UnsatisfiedDescription(), table).Some?
    ensures !AllRowsHold(Builds(UnsatisfiedDescription(), table).value.0,
                         Builds(UnsatisfiedDescription(), table).value.1)
  {
    var steps := UnsatisfiedDescription();
    BuildsAgree(steps, table);
    assert Run(NewSystem(false, table), steps).Ok?;
    var (s, p) := Builds(steps, table).value;
    assert s.ql == [1] && s.qm == [0] && s.qr == [0] && s.qo == [0] && s.qc == [0];
    assert p.wl == [Var(0)] && p.wr == [Zero] && p.wo == [Zero] && p.values == [1] && p.pi == [];
    assert CheckedRows(s, p) == 1;
    AsEvalsEmpty(p.n);
    assert GateValue(0, 1, 0, 0, 0, 1, 0, 0, 0) % P == 1;
    assert !RowHolds(s, p, AsEvals(p.pi, p.n), 0);
  }

  /** `test_arith_gates(process)`: the description runs once in Setup mode
      and once in Proving mode over the same loaded table, then the two
      builds are checked against each other. The two builds always agree
      on size and public-input positions, so the check passes exactly when
      every gate of the circuit holds; a description without general gates
      always passes. */
  method TestArithGates(steps: seq<Step>, table: seq<Row>) returns (r: Result<()>)
    requires forall k :: 0 <= k < |steps| ==> ValidStep(steps[k])
    ensures Run(NewSystem(false, table), steps).Ok? ==> Builds(steps, table).Some?
    ensures Builds(steps, table).None? ==> r.Err?
    ensures Builds(steps, table).Some? ==>
              (r.Ok? <==> AllRowsHold(Builds(steps, table).value.0, Builds(steps, table).value.1))
    ensures Builds(steps, table).Some? && r.Err? ==> r.error.GateUnsatisfied? || r.error.UnassignedVariable?
    ensures (Run(NewSystem(false, table), steps).Ok? && forall k :: 0 <= k < |steps| ==> LookupOnlyStep(steps[k]))
            ==> r == Ok(())
  {
    BuildsAgree(steps, table);
    var setup :- Run(NewSystem(true, table), steps);
    var proving :- Run(NewSystem(false, table), steps);
    var sc, pc := setup.composer.setup, proving.composer.proving;
    assert PositionsAgree(sc.pp, Positions(pc.pi));
    r := CheckArithGate(sc, pc);
    if r.Ok? {
      assert r.value == ();
    }
  }
}
