/** The dual-mode composer behind `ConstraintSystem`: a Setup composer records
    selectors and wiring, a Proving composer records wiring and witness values.
    The variable allocator, the value map and the public-input store are
    internals of the composer; they are modelled by their minimal behaviour:
    fresh handles are numbered consecutively, values are kept by handle, and
    public inputs are kept as (position, value) pairs in insertion order. */
module Circuit {
  import opened Base
  import opened Field
  import opened Tables

  /** A handle into the variable store; `Zero` stands for the constant 0. */
  datatype Variable = Zero | Var(id: nat)

  /** The selector values of one gate. */
  datatype Selectors = Selectors(qm: Fe, ql: Fe, qr: Fe, qo: Fe, qc: Fe, qLookup: Fe)

  /** `Selectors::new_lookup()`: every arithmetic selector zero, the lookup selector one. */
  const LookupSelectors: Selectors := Selectors(0, 0, 0, 0, 0, 1)

  datatype SetupComposer = SetupComposer(
    n: nat,
    qm: seq<Fe>, ql: seq<Fe>, qr: seq<Fe>, qo: seq<Fe>, qc: seq<Fe>, qLookup: seq<Fe>,
    wl: seq<Variable>, wr: seq<Variable>, wo: seq<Variable>,
    pp: seq<nat>,
    nextVar: nat)

  datatype PublicInput = PublicInput(pos: nat, value: Fe)

  datatype ProvingComposer = ProvingComposer(
    n: nat,
    wl: seq<Variable>, wr: seq<Variable>, wo: seq<Variable>,
    pi: seq<PublicInput>,
    values: seq<Fe>)

  datatype Composer = Setup(setup: SetupComposer) | Proving(proving: ProvingComposer)

  /** The facade: a composer and the loaded lookup table. */
  datatype ConstraintSystem = ConstraintSystem(composer: Composer, table: seq<Row>)

  function EmptySetup(): SetupComposer {
    SetupComposer(0, [], [], [], [], [], [], [], [], [], [], 0)
  }

  function EmptyProving(): ProvingComposer {
    ProvingComposer(0, [], [], [], [], [])
  }

  /** `ConstraintSystem::new(setup)` with the lookup table it is given. */
  function NewSystem(isSetup: bool, table: seq<Row>): ConstraintSystem {
    ConstraintSystem(if isSetup then Setup(EmptySetup()) else Proving(EmptyProving()), table)
  }

  // ---------------------------------------------------------------------
  // Setup mode
  // ---------------------------------------------------------------------

  /** Every per-gate vector has one entry per gate, and public-input
      positions are gate indices. */
  predicate SetupWellFormed(s: SetupComposer) {
    && |s.qm| == s.n && |s.ql| == s.n && |s.qr| == s.n && |s.qo| == s.n
    && |s.qc| == s.n && |s.qLookup| == s.n
    && |s.wl| == s.n && |s.wr| == s.n && |s.wo| == s.n
    && (forall k :: 0 <= k < |s.pp| ==> s.pp[k] < s.n)
  }

  /** `perm.new_variable()`: a handle never handed out before. */
  function NewVariable(s: SetupComposer): (SetupComposer, Variable) {
    (s.(nextVar := s.nextVar + 1), Var(s.nextVar))
  }

  /** `gate_constrain(a, b, c, sels, is_public)`: appends one gate. */
  function GateConstrain(s: SetupComposer, a: Variable, b: Variable, c: Variable,
                         sels: Selectors, isPublic: bool): SetupComposer {
    s.(n := s.n + 1,
       qm := s.qm + [sels.qm], ql := s.ql + [sels.ql], qr := s.qr + [sels.qr],
       qo := s.qo + [sels.qo], qc := s.qc + [sels.qc], qLookup := s.qLookup + [sels.qLookup],
       wl := s.wl + [a], wr := s.wr + [b], wo := s.wo + [c],
       pp := if isPublic then s.pp + [s.n] else s.pp)
  }

  // ---------------------------------------------------------------------
  // Proving mode
  // ---------------------------------------------------------------------

  predicate ProvingWellFormed(p: ProvingComposer) {
    && |p.wl| == p.n && |p.wr| == p.n && |p.wo| == p.n
    && (forall k :: 0 <= k < |p.pi| ==> p.pi[k].pos < p.n)
  }

  /** `var_map.assign_variable(value)`: a fresh handle bound to `value`. */
  function AssignValue(p: ProvingComposer, value: Fe): (ProvingComposer, Variable) {
    (p.(values := p.values + [value]), Var(|p.values|))
  }

  /** `var_map.value_of_var(v)`: `Zero` is 0, an unassigned handle is an error. */
  function ValueOfVar(p: ProvingComposer, v: Variable): (r: Result<Fe>)
    ensures v == Zero ==> r == Ok(0)
    ensures v.Var? ==> (r.Ok? <==> v.id < |p.values|)
    ensures v.Var? && r.Ok? ==> r.value == p.values[v.id]
    ensures r.Err? ==> r.error == UnassignedVariable(v.id)
  {
    match v
    case Zero => Ok(0)
    case Var(id) => if id < |p.values| then Ok(p.values[id]) else Err(UnassignedVariable(id))
  }

  /** `input_wires(a, b, c, public_value)`: appends one gate's wiring. */
  function InputWires(p: ProvingComposer, a: Variable, b: Variable, c: Variable,
                      publicValue: Option<Fe>): ProvingComposer {
    p.(n := p.n + 1, wl := p.wl + [a], wr := p.wr + [b], wo := p.wo + [c],
       pi := if publicValue.Some? then p.pi + [PublicInput(p.n, publicValue.value)] else p.pi)
  }

  /** `pi.get_pos()`: the public-input positions in insertion order. */
  function Positions(pi: seq<PublicInput>): (r: seq<nat>)
    ensures |r| == |pi|
    ensures forall k :: 0 <= k < |r| ==> r[k] == pi[k].pos
  {
    seq(|pi|, k requires 0 <= k < |pi| => pi[k].pos)
  }

  /** `pi.as_evals(n)`: `n` values, each public input written at its
      position (a later input at the same position wins), zero elsewhere. */
  function AsEvals(pi: seq<PublicInput>, n: nat): (r: seq<Fe>)
    ensures |r| == n
    decreases |pi|
  {
    if |pi| == 0 then seq(n, _ => 0)
    else
      var prev := AsEvals(pi[..|pi| - 1], n);
      var last := pi[|pi| - 1];
      if last.pos < n then prev[last.pos := last.value] else prev
  }

  /** Without public inputs every row's public value is zero. */
  lemma AsEvalsEmpty(n: nat)
    ensures forall k :: 0 <= k < n ==> AsEvals([], n)[k] == 0
  {
  }

  /** The value `as_evals` places at a position: that of the last public
      input there, or zero when there is none. */
  lemma {:induction false} AsEvalsAt(pi: seq<PublicInput>, n: nat, k: nat)
    requires k < n
    ensures (forall j :: 0 <= j < |pi| ==> pi[j].pos != k) ==> AsEvals(pi, n)[k] == 0
    ensures forall j :: 0 <= j < |pi| && pi[j].pos == k
              && (forall j' :: j < j' < |pi| ==> pi[j'].pos != k)
              ==> AsEvals(pi, n)[k] == pi[j].value
    decreases |pi|
  {
    if |pi| > 0 {
      var init := pi[..|pi| - 1];
      AsEvalsAt(init, n, k);
      assert forall j :: 0 <= j < |init| ==> init[j] == pi[j];
    }
  }

  // ---------------------------------------------------------------------
  // Both modes
  // ---------------------------------------------------------------------

  /** `ConstraintSystem::assign_variable(value)`: Setup allocates a handle
      and drops the value, Proving binds the handle to it. */
  function AssignVariable(cs: ConstraintSystem, value: Fe): (r: (ConstraintSystem, Variable))
    ensures r.0.table == cs.table && r.0.composer.Setup? == cs.composer.Setup?
  {
    match cs.composer
    case Setup(s) =>
      var (s', v) := NewVariable(s);
      (cs.(composer := Setup(s')), v)
    case Proving(p) =>
      var (p', v) := AssignValue(p, value);
      (cs.(composer := Proving(p')), v)
  }

  /** Number of gates emitted so far. */
  function GateCount(c: Composer): nat {
    match c
    case Setup(s) => s.n
    case Proving(p) => p.n
  }

  function Min3(a: nat, b: nat, c: nat): (m: nat)
    ensures m <= a && m <= b && m <= c
    ensures m == a || m == b || m == c
  {
    if a <= b && a <= c then a else if b <= c then b else c
  }

  /** The number of handles handed out so far. */
  function VariablesAllocated(c: Composer): nat {
    match c
    case Setup(s) => s.nextVar
    case Proving(p) => |p.values|
  }

  /** Two builds of the same circuit, one per mode, that agree on everything
      both modes record: gate count, wiring, handle numbering and the
      positions of public inputs. */
  predicate Lockstep(s: SetupComposer, p: ProvingComposer) {
    && s.n == p.n
    && s.wl == p.wl && s.wr == p.wr && s.wo == p.wo
    && s.nextVar == |p.values|
    && s.pp == Positions(p.pi)
  }

  /** The same-API calls in both modes keep two builds in lockstep and hand
      out the same handle. */
  lemma AssignKeepsLockstep(s: SetupComposer, p: ProvingComposer, value: Fe)
    requires Lockstep(s, p)
    ensures Lockstep(NewVariable(s).0, AssignValue(p, value).0)
    ensures NewVariable(s).1 == AssignValue(p, value).1
    ensures ValueOfVar(AssignValue(p, value).0, AssignValue(p, value).1) == Ok(value)
  {
  }

  lemma GateKeepsLockstep(s: SetupComposer, p: ProvingComposer, a: Variable, b: Variable, c: Variable,
                          sels: Selectors, publicValue: Option<Fe>)
    requires Lockstep(s, p)
    ensures Lockstep(GateConstrain(s, a, b, c, sels, publicValue.Some?), InputWires(p, a, b, c, publicValue))
  {
    var s', p' := GateConstrain(s, a, b, c, sels, publicValue.Some?), InputWires(p, a, b, c, publicValue);
    if publicValue.Some? {
      assert Positions(p'.pi) == Positions(p.pi) + [p.n];
    } else {
      assert p'.pi == p.pi;
    }
  }
}
