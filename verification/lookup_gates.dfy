/** The lookup gates of the constraint system (`constraint_system/lookup.rs`):
    each first requires the family's rows to be loaded, then emits one gate
    carrying the lookup selector. Setup records the wiring; Proving also
    checks or computes the values against the family's rows. */
module LookupGates {
  import opened Base
  import opened Field
  import opened Tables
  import opened Circuit

  /** `c'` is `c` with one more lookup gate wired `(a, b, d)`: the lookup
      selectors in Setup, no public input in either mode, nothing else changed. */
  predicate AppendsLookupGate(c: Composer, c': Composer, a: Variable, b: Variable, d: Variable) {
    match (c, c')
    case (Setup(s), Setup(s')) =>
      && s'.n == s.n + 1
      && s'.wl == s.wl + [a] && s'.wr == s.wr + [b] && s'.wo == s.wo + [d]
      && s'.qm == s.qm + [0] && s'.ql == s.ql + [0] && s'.qr == s.qr + [0]
      && s'.qo == s.qo + [0] && s'.qc == s.qc + [0] && s'.qLookup == s.qLookup + [1]
      && s'.pp == s.pp
    case (Proving(p), Proving(p')) =>
      && p'.n == p.n + 1
      && p'.wl == p.wl + [a] && p'.wr == p.wr + [b] && p'.wo == p.wo + [d]
      && p'.pi == p.pi
    case _ => false
  }

  /** A handle has a value: `Zero`, or an assigned variable. */
  predicate Assigned(p: ProvingComposer, v: Variable) {
    v.Var? ==> v.id < |p.values|
  }

  /** Every wire of every Proving gate has a value. */
  predicate WiresAssigned(p: ProvingComposer) {
    && (forall k :: 0 <= k < |p.wl| ==> Assigned(p, p.wl[k]))
    && (forall k :: 0 <= k < |p.wr| ==> Assigned(p, p.wr[k]))
    && (forall k :: 0 <= k < |p.wo| ==> Assigned(p, p.wo[k]))
  }

  /** `contains_gate::<T>(x)`. */
  function ContainsGate(cs: ConstraintSystem, f: Family, x: Variable): (r: Result<ConstraintSystem>)
    requires ValidFamily(f)
    ensures !ContainsTable(cs.table, f) ==> r == Err(TableNotLoaded)
    ensures ContainsTable(cs.table, f) && cs.composer.Setup? ==> r.Ok?
    ensures cs.composer.Proving? ==>
              (r.Ok? <==> && ContainsTable(cs.table, f)
                          && ValueOfVar(cs.composer.proving, x).Ok?
                          && exists i :: 0 <= i < |Rows(f)|
                                         && Rows(f)[i].x == ValueOfVar(cs.composer.proving, x).value)
    ensures r.Ok? ==> r.value.table == cs.table
    ensures r.Ok? ==> AppendsLookupGate(cs.composer, r.value.composer, x, Zero, Zero)
    ensures r.Ok? ==> VariablesAllocated(r.value.composer) == VariablesAllocated(cs.composer)
    ensures r.Ok? && cs.composer.Proving? ==> r.value.composer.proving.values == cs.composer.proving.values
  {
    if !ContainsTable(cs.table, f) then Err(TableNotLoaded)
    else
      match cs.composer
      case Setup(s) =>
        Ok(cs.(composer := Setup(GateConstrain(s, x, Zero, Zero, LookupSelectors, false))))
      case Proving(p) =>
        var xv :- ValueOfVar(p, x);
        var found :- Contains(Rows(f), xv);
        Ok(cs.(composer := Proving(InputWires(p, x, Zero, Zero, None))))
  }

  /** `lookup_1d_gate::<T>(x)`: returns the output handle `y`. */
  function Lookup1DGate(cs: ConstraintSystem, f: Family, x: Variable): (r: Result<(ConstraintSystem, Variable)>)
    requires ValidFamily(f)
    ensures !ContainsTable(cs.table, f) ==> r == Err(TableNotLoaded)
    ensures ContainsTable(cs.table, f) && cs.composer.Setup? ==> r.Ok?
    ensures cs.composer.Proving? ==>
              (r.Ok? <==> && ContainsTable(cs.table, f)
                          && ValueOfVar(cs.composer.proving, x).Ok?
                          && Lookup1D(Rows(f), ValueOfVar(cs.composer.proving, x).value).Ok?)
    ensures r.Ok? ==> r.value.0.table == cs.table
    ensures r.Ok? ==> r.value.1 == Var(VariablesAllocated(cs.composer))
    ensures r.Ok? ==> VariablesAllocated(r.value.0.composer) == VariablesAllocated(cs.composer) + 1
    ensures r.Ok? ==> AppendsLookupGate(cs.composer, r.value.0.composer, x, r.value.1, Zero)
    ensures r.Ok? && cs.composer.Proving? ==>
              && ValueOfVar(r.value.0.composer.proving, r.value.1)
                 == Lookup1D(Rows(f), ValueOfVar(cs.composer.proving, x).value)
              && r.value.0.composer.proving.values[..|cs.composer.proving.values|]
                 == cs.composer.proving.values
  {
    if !ContainsTable(cs.table, f) then Err(TableNotLoaded)
    else
      match cs.composer
      case Setup(s) =>
        var (s1, y) := NewVariable(s);
        Ok((cs.(composer := Setup(GateConstrain(s1, x, y, Zero, LookupSelectors, false))), y))
      case Proving(p) =>
        var xv :- ValueOfVar(p, x);
        var yv :- Lookup1D(Rows(f), xv);
        var (p1, y) := AssignValue(p, yv);
        Ok((cs.(composer := Proving(InputWires(p1, x, y, Zero, None))), y))
  }

  /** `lookup_2d_gate::<T>(x, y)`: returns the output handle `z`. */
  function Lookup2DGate(cs: ConstraintSystem, f: Family, x: Variable, y: Variable)
    : (r: Result<(ConstraintSystem, Variable)>)
    requires ValidFamily(f)
    ensures !ContainsTable(cs.table, f) ==> r == Err(TableNotLoaded)
    ensures ContainsTable(cs.table, f) && cs.composer.Setup? ==> r.Ok?
    ensures cs.composer.Proving? ==>
              (r.Ok? <==> && ContainsTable(cs.table, f)
                          && ValueOfVar(cs.composer.proving, x).Ok?
                          && ValueOfVar(cs.composer.proving, y).Ok?
                          && Lookup2D(Rows(f), ValueOfVar(cs.composer.proving, x).value,
                                      ValueOfVar(cs.composer.proving, y).value).Ok?)
    ensures r.Ok? ==> r.value.0.table == cs.table
    ensures r.Ok? ==> r.value.1 == Var(VariablesAllocated(cs.composer))
    ensures r.Ok? ==> VariablesAllocated(r.value.0.composer) == VariablesAllocated(cs.composer) + 1
    ensures r.Ok? ==> AppendsLookupGate(cs.composer, r.value.0.composer, x, y, r.value.1)
    ensures r.Ok? && cs.composer.Proving? ==>
              && ValueOfVar(r.value.0.composer.proving, r.value.1)
                 == Lookup2D(Rows(f), ValueOfVar(cs.composer.proving, x).value,
                             ValueOfVar(cs.composer.proving, y).value)
              && r.value.0.composer.proving.values[..|cs.composer.proving.values|]
                 == cs.composer.proving.values
  {
    if !ContainsTable(cs.table, f) then Err(TableNotLoaded)
    else
      match cs.composer
      case Setup(s) =>
        var (s1, z) := NewVariable(s);
        Ok((cs.(composer := Setup(GateConstrain(s1, x, y, z, LookupSelectors, false))), z))
      case Proving(p) =>
        var xv :- ValueOfVar(p, x);
        var yv :- ValueOfVar(p, y);
        var zv :- Lookup2D(Rows(f), xv, yv);
        var (p1, z) := AssignValue(p, zv);
        Ok((cs.(composer := Proving(InputWires(p1, x, y, z, None))), z))
  }

  // ---------------------------------------------------------------------
  // The Proving row is a row of the table
  // ---------------------------------------------------------------------

  /** The values on a Proving lookup gate's wires form a row of the family:
      `[x, 0, 0]` for a set, `[x, y, 0]` for a one-argument map, `[x, y, z]`
      for a two-argument map. */
  lemma ProvingRowInTable(cs: ConstraintSystem, f: Family, x: Variable, y: Variable)
    requires ValidFamily(f) && cs.composer.Proving?
    ensures ContainsGate(cs, f, x).Ok? ==>
              exists i :: 0 <= i < |Rows(f)| && Rows(f)[i].x == ValueOfVar(cs.composer.proving, x).value
    ensures Lookup1DGate(cs, f, x).Ok? ==>
              var r := Lookup1DGate(cs, f, x).value;
              exists i :: 0 <= i < |Rows(f)|
                && Rows(f)[i].x == ValueOfVar(cs.composer.proving, x).value
                && Rows(f)[i].y == ValueOfVar(r.0.composer.proving, r.1).value
    ensures Lookup2DGate(cs, f, x, y).Ok? ==>
              var r := Lookup2DGate(cs, f, x, y).value;
              exists i :: 0 <= i < |Rows(f)|
                && Rows(f)[i].x == ValueOfVar(cs.composer.proving, x).value
                && Rows(f)[i].y == ValueOfVar(cs.composer.proving, y).value
                && Rows(f)[i].z == ValueOfVar(r.0.composer.proving, r.1).value
  {
  }

  /** A range check in Proving mode: with the `bits`-bit range table loaded
      and `x` assigned, `contains_gate` accepts `x` exactly when its value
      is below `2^bits`. */
  lemma ContainsGateRange(cs: ConstraintSystem, bits: nat, x: Variable)
    requires bits < 128 && cs.composer.Proving?
    requires ContainsTable(cs.table, UintRange(bits))
    requires ValueOfVar(cs.composer.proving, x).Ok?
    ensures ContainsGate(cs, UintRange(bits), x).Ok?
        <==> ValueOfVar(cs.composer.proving, x).value < Pow2(bits)
  {
    RangeContains(bits, ValueOfVar(cs.composer.proving, x).value);
  }

  // ---------------------------------------------------------------------
  // Both modes emit the same gate
  // ---------------------------------------------------------------------

  /** Lockstep builds given the same call stay in lockstep, return the same
      handle, and Setup succeeds whenever Proving does. */
  lemma ContainsGateLockstep(s: SetupComposer, p: ProvingComposer, table: seq<Row>, f: Family, x: Variable)
    requires ValidFamily(f) && Lockstep(s, p)
    requires ContainsGate(ConstraintSystem(Proving(p), table), f, x).Ok?
    ensures ContainsGate(ConstraintSystem(Setup(s), table), f, x).Ok?
    ensures Lockstep(ContainsGate(ConstraintSystem(Setup(s), table), f, x).value.composer.setup,
                     ContainsGate(ConstraintSystem(Proving(p), table), f, x).value.composer.proving)
  {
    GateKeepsLockstep(s, p, x, Zero, Zero, LookupSelectors, None);
  }

  lemma Lookup1DGateLockstep(s: SetupComposer, p: ProvingComposer, table: seq<Row>, f: Family, x: Variable)
    requires ValidFamily(f) && Lockstep(s, p)
    requires Lookup1DGate(ConstraintSystem(Proving(p), table), f, x).Ok?
    ensures Lookup1DGate(ConstraintSystem(Setup(s), table), f, x).Ok?
    ensures Lookup1DGate(ConstraintSystem(Setup(s), table), f, x).value.1
            == Lookup1DGate(ConstraintSystem(Proving(p), table), f, x).value.1
    ensures Lockstep(Lookup1DGate(ConstraintSystem(Setup(s), table), f, x).value.0.composer.setup,
                     Lookup1DGate(ConstraintSystem(Proving(p), table), f, x).value.0.composer.proving)
  {
    var yv := Lookup1D(Rows(f), ValueOfVar(p, x).value).value;
    AssignKeepsLockstep(s, p, yv);
    var (s1, y) := NewVariable(s);
    var (p1, y') := AssignValue(p, yv);
    GateKeepsLockstep(s1, p1, x, y, Zero, LookupSelectors, None);
  }

  lemma Lookup2DGateLockstep(s: SetupComposer, p: ProvingComposer, table: seq<Row>, f: Family,
                             x: Variable, y: Variable)
    requires ValidFamily(f) && Lockstep(s, p)
    requires Lookup2DGate(ConstraintSystem(Proving(p), table), f, x, y).Ok?
    ensures Lookup2DGate(ConstraintSystem(Setup(s), table), f, x, y).Ok?
    ensures Lookup2DGate(ConstraintSystem(Setup(s), table), f, x, y).value.1
            == Lookup2DGate(ConstraintSystem(Proving(p), table), f, x, y).value.1
    ensures Lockstep(Lookup2DGate(ConstraintSystem(Setup(s), table), f, x, y).value.0.composer.setup,
                     Lookup2DGate(ConstraintSystem(Proving(p), table), f, x, y).value.0.composer.proving)
  {
    var zv := Lookup2D(Rows(f), ValueOfVar(p, x).value, ValueOfVar(p, y).value).value;
    AssignKeepsLockstep(s, p, zv);
    var (s1, z) := NewVariable(s);
    var (p1, z') := AssignValue(p, zv);
    GateKeepsLockstep(s1, p1, x, y, z, LookupSelectors, None);
  }

  // ---------------------------------------------------------------------
  // Every Proving wire keeps a value
  // ---------------------------------------------------------------------

  /** Appending a gate whose wires have values, without dropping values,
      keeps every wire valued. */
  lemma AppendKeepsWiresAssigned(p: ProvingComposer, p': ProvingComposer, a: Variable, b: Variable, d: Variable)
    requires WiresAssigned(p)
    requires p'.wl == p.wl + [a] && p'.wr == p.wr + [b] && p'.wo == p.wo + [d]
    requires |p.values| <= |p'.values|
    requires Assigned(p', a) && Assigned(p', b) && Assigned(p', d)
    ensures WiresAssigned(p')
  {
    assert forall k :: 0 <= k < |p.wl| ==> p'.wl[k] == p.wl[k];
    assert forall k :: 0 <= k < |p.wr| ==> p'.wr[k] == p.wr[k];
    assert forall k :: 0 <= k < |p.wo| ==> p'.wo[k] == p.wo[k];
  }

  /** A successful Proving gate only wires handles that have values. */
  lemma ContainsGateKeepsWiresAssigned(cs: ConstraintSystem, f: Family, x: Variable)
    requires ValidFamily(f) && cs.composer.Proving? && WiresAssigned(cs.composer.proving)
    requires ContainsGate(cs, f, x).Ok?
    ensures WiresAssigned(ContainsGate(cs, f, x).value.composer.proving)
  {
    var p := cs.composer.proving;
    AppendKeepsWiresAssigned(p, ContainsGate(cs, f, x).value.composer.proving, x, Zero, Zero);
  }

  lemma Lookup1DGateKeepsWiresAssigned(cs: ConstraintSystem, f: Family, x: Variable)
    requires ValidFamily(f) && cs.composer.Proving? && WiresAssigned(cs.composer.proving)
    requires Lookup1DGate(cs, f, x).Ok?
    ensures WiresAssigned(Lookup1DGate(cs, f, x).value.0.composer.proving)
  {
    var r := Lookup1DGate(cs, f, x).value;
    AppendKeepsWiresAssigned(cs.composer.proving, r.0.composer.proving, x, r.1, Zero);
  }

  lemma Lookup2DGateKeepsWiresAssigned(cs: ConstraintSystem, f: Family, x: Variable, y: Variable)
    requires ValidFamily(f) && cs.composer.Proving? && WiresAssigned(cs.composer.proving)
    requires Lookup2DGate(cs, f, x, y).Ok?
    ensures WiresAssigned(Lookup2DGate(cs, f, x, y).value.0.composer.proving)
  {
    var r := Lookup2DGate(cs, f, x, y).value;
    AppendKeepsWiresAssigned(cs.composer.proving, r.0.composer.proving, x, y, r.1);
  }
}
