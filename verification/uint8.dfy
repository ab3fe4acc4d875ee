/** The 8-bit gadget of the SHA-256 circuits (`sha256/uint/uint8.rs`): a byte
    is either a circuit variable carrying its value or a constant, and the
    bitwise operations AND, XOR and AND-NOT emit one lookup gate whenever a
    variable is involved. */
module Uint8Gadget {
  import opened Base
  import opened Field
  import opened Tables
  import C = Circuit
  import opened LookupGates

  /** `Uint8Var`: a circuit handle and the byte it is meant to hold. */
  datatype Uint8Var = Uint8Var(handle: C.Variable, value: U8)

  /** `Uint8`: a variable byte or a constant one. */
  datatype Uint8 = Variable(v: Uint8Var) | Constant(c: U8)

  /** The operations the gadget offers; `Or` has tables but no gadget. */
  predicate GadgetOp(op: BinOp) {
    op != Or
  }

  /** `Uint8::value`. */
  function Value(u: Uint8): (r: U8)
    ensures u.Constant? ==> r == u.c
    ensures u.Variable? ==> r == u.v.value
  {
    match u
    case Variable(x) => x.value
    case Constant(c) => c
  }

  /** In a Proving build, the handle holds the byte the gadget records for it. */
  predicate Consistent(cs: C.ConstraintSystem, x: Uint8Var) {
    cs.composer.Proving? ==> C.ValueOfVar(cs.composer.proving, x.handle) == Ok(x.value as Fe)
  }

  predicate ConsistentOperand(cs: C.ConstraintSystem, u: Uint8) {
    u.Variable? ==> Consistent(cs, u.v)
  }

  /** `cs'` extends the Proving build `cs` without changing any value. */
  predicate KeepsValues(cs: C.ConstraintSystem, cs': C.ConstraintSystem) {
    cs.composer.Proving? ==>
      && cs'.composer.Proving?
      && |cs.composer.proving.values| <= |cs'.composer.proving.values|
      && cs'.composer.proving.values[..|cs.composer.proving.values|] == cs.composer.proving.values
  }

  /** The gate count of the build. */
  function Gates(cs: C.ConstraintSystem): nat {
    C.GateCount(cs.composer)
  }

  // ---------------------------------------------------------------------
  // Uint8Var
  // ---------------------------------------------------------------------

  /** `Uint8Var::assign`: a fresh handle for `value`, range-checked against
      the 8-bit table by one `contains_gate`. */
  function Assign(cs: C.ConstraintSystem, value: U8): (r: Result<(C.ConstraintSystem, Uint8Var)>)
    ensures r.Ok? <==> ContainsTable(cs.table, UintRange(8))
    ensures r.Err? ==> r.error == TableNotLoaded
    ensures r.Ok? ==> r.value.1.value == value
    ensures r.Ok? ==> Gates(r.value.0) == Gates(cs) + 1
    ensures r.Ok? ==> Consistent(r.value.0, r.value.1)
    ensures r.Ok? && cs.composer.Setup? ==> r.value.0.composer.Setup?
  {
    var (cs1, handle) := C.AssignVariable(cs, value as Fe);
    AssignedValueInRange(cs, value);
    var cs2 :- ContainsGate(cs1, UintRange(8), handle);
    Ok((cs2, Uint8Var(handle, value)))
  }

  /** The freshly assigned handle holds `value`, and a byte passes the 8-bit range check. */
  lemma AssignedValueInRange(cs: C.ConstraintSystem, value: U8)
    ensures var (cs1, h) := C.AssignVariable(cs, value as Fe);
            && h.Var?
            && (cs1.composer.Proving? ==> C.ValueOfVar(cs1.composer.proving, h) == Ok(value as Fe))
            && Contains(Rows(UintRange(8)), value as Fe).Ok?
  {
    Pow2Widths();
    RangeContains(8, value as Fe);
  }

  /** `and`, `xor`, `not_and` on two variables: one two-argument lookup. */
  function VarOp(cs: C.ConstraintSystem, op: BinOp, x: Uint8Var, y: Uint8Var)
    : (r: Result<(C.ConstraintSystem, Uint8Var)>)
    requires GadgetOp(op)
    ensures r.Ok? ==> r.value.1.value == ApplyU8(op, x.value, y.value)
    ensures r.Ok? ==> KeepsValues(cs, r.value.0)
    ensures r.Ok? ==> Gates(r.value.0) == Gates(cs) + 1
    ensures r.Ok? ==> AppendsLookupGate(cs.composer, r.value.0.composer, x.handle, y.handle, r.value.1.handle)
    ensures cs.composer.Setup? ==> (r.Ok? <==> ContainsTable(cs.table, U8Op(op)))
    ensures Consistent(cs, x) && Consistent(cs, y) ==>
              && (r.Ok? <==> ContainsTable(cs.table, U8Op(op)))
              && (r.Ok? ==> Consistent(r.value.0, r.value.1))
  {
    OpLookupU8(op, x.value, y.value);
    var (cs', z) :- Lookup2DGate(cs, U8Op(op), x.handle, y.handle);
    Ok((cs', Uint8Var(z, ApplyU8(op, x.value, y.value))))
  }

  /** `and_with_const`, `xor_with_const`, `not_and_with_const`: one
      one-argument lookup in the table for the constant `k`. */
  function WithConst(cs: C.ConstraintSystem, op: BinOp, x: Uint8Var, k: U8)
    : (r: Result<(C.ConstraintSystem, Uint8Var)>)
    requires GadgetOp(op)
    ensures r.Ok? ==> r.value.1.value == ApplyU8(op, x.value, k)
    ensures r.Ok? ==> KeepsValues(cs, r.value.0)
    ensures r.Ok? ==> Gates(r.value.0) == Gates(cs) + 1
    ensures r.Ok? ==> AppendsLookupGate(cs.composer, r.value.0.composer, x.handle, r.value.1.handle, C.Zero)
    ensures cs.composer.Setup? ==> (r.Ok? <==> ContainsTable(cs.table, U8OpWithConst(op, k)))
    ensures Consistent(cs, x) ==>
              && (r.Ok? <==> ContainsTable(cs.table, U8OpWithConst(op, k)))
              && (r.Ok? ==> Consistent(r.value.0, r.value.1))
  {
    WithConstLookupU8(op, k, x.value);
    var (cs', y) :- Lookup1DGate(cs, U8OpWithConst(op, k), x.handle);
    Ok((cs', Uint8Var(y, ApplyU8(op, x.value, k))))
  }

  // ---------------------------------------------------------------------
  // Uint8
  // ---------------------------------------------------------------------

  /** The table `Uint8::and`/`xor`/`not_and` looks up for a pair of operands;
      none when both are constants. */
  function TableFor(op: BinOp, a: Uint8, b: Uint8): Option<Family> {
    match (a, b)
    case (Variable(_), Variable(_)) => Some(U8Op(op))
    case (Variable(_), Constant(k)) => Some(U8OpWithConst(op, k))
    case (Constant(k), Variable(_)) =>
      if op == NotAnd then Some(U8OpWithConst(And, NotU8(k))) else Some(U8OpWithConst(op, k))
    case (Constant(_), Constant(_)) => None
  }

  /** `Uint8::and`, `Uint8::xor` and `Uint8::not_and`: dispatch on which
      operands are variables. With a constant left operand the variable is
      looked up against the constant (for AND-NOT, ANDed with `!k`). */
  function Op(cs: C.ConstraintSystem, op: BinOp, a: Uint8, b: Uint8): (r: Result<(C.ConstraintSystem, Uint8)>)
    requires GadgetOp(op)
    ensures r.Ok? ==> Value(r.value.1) == ApplyU8(op, Value(a), Value(b))
    ensures r.Ok? ==> KeepsValues(cs, r.value.0)
    ensures a.Constant? && b.Constant? ==> r == Ok((cs, Constant(ApplyU8(op, a.c, b.c))))
    ensures a.Variable? || b.Variable? ==> r.Ok? ==> r.value.1.Variable? && Gates(r.value.0) == Gates(cs) + 1
    ensures cs.composer.Setup? ==> (r.Ok? <==> TableFor(op, a, b).None? || ContainsTable(cs.table, TableFor(op, a, b).value))
    ensures ConsistentOperand(cs, a) && ConsistentOperand(cs, b) ==>
              && (r.Ok? <==> TableFor(op, a, b).None? || ContainsTable(cs.table, TableFor(op, a, b).value))
              && (r.Ok? ==> ConsistentOperand(r.value.0, r.value.1))
  {
    match (a, b)
    case (Variable(x), Variable(y)) =>
      var (cs', z) :- VarOp(cs, op, x, y);
      Ok((cs', Variable(z)))
    case (Variable(x), Constant(k)) =>
      var (cs', z) :- WithConst(cs, op, x, k);
      Ok((cs', Variable(z)))
    case (Constant(k), Variable(y)) =>
      if op == NotAnd then
        var (cs', z) :- WithConst(cs, And, y, NotU8(k));
        NotAndU8(k, y.value);
        Ok((cs', Variable(z)))
      else
        var (cs', z) :- WithConst(cs, op, y, k);
        CommU8(op, k, y.value);
        Ok((cs', Variable(z)))
    case (Constant(k), Constant(m)) =>
      Ok((cs, Constant(ApplyU8(op, k, m))))
  }

  /** Handles recorded earlier keep their values when a gadget call extends
      a Proving build, so earlier bytes stay consistent. */
  lemma OpKeepsEarlierConsistent(cs: C.ConstraintSystem, op: BinOp, a: Uint8, b: Uint8, w: Uint8Var)
    requires GadgetOp(op) && Consistent(cs, w)
    requires Op(cs, op, a, b).Ok?
    ensures Consistent(Op(cs, op, a, b).value.0, w)
  {
    var cs' := Op(cs, op, a, b).value.0;
    if cs.composer.Proving? && w.handle.Var? {
      var p, p' := cs.composer.proving, cs'.composer.proving;
      assert p'.values[w.handle.id] == p'.values[..|p.values|][w.handle.id];
    }
  }
}
