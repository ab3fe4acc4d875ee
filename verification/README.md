# A Dafny model of the PLONK/Plookup arithmetization core

This project models the arithmetization core of the `plonk` workspace:

- the arithmetic and lookup gates' prover and verifier keys;
- the field helpers they use (`powers_of`, `lc`, the first Lagrange evaluation, the Lagrange indicator vector);
- the lookup-table families (range tables and `u8`/`u16` operation tables);
- the constraint system's three lookup gates (`contains_gate`, `lookup_1d_gate`, `lookup_2d_gate`);
- the debugging checker `check_arith_gate` with its driver `test_arith_gates`;
- the SHA-256 byte gadget (`Uint8Var` / `Uint8`).

The scalar field is an abstract modulus `P` above 2^128. Field elements are the residues `0 <= x < P`. Primality is assumed only by the lemmas that need it (`IsPrime(P)`). Polynomials are coefficient sequences and are compared coefficient by coefficient. Commitments are an abstract type parameter: a prover/verifier agreement is stated by pairing each verifier weight with the polynomial behind its commitment.

Where the source panics (an `assert!`, an `unwrap` of `None`, a failed table lookup), the model returns an error value of `Base.Result`.

Modules:

- `Base`: `Option`, `Result` and the error cases.
- `Field`: modular arithmetic.
- `Polynomial`: coefficient sequences, evaluation and linear combination.
- `Util`: the helpers of `util.rs`.
- `Evaluations`: proof evaluations and the gate polynomial `q_m·a·b + q_l·a + q_r·b + q_o·c + q_c + pi`.
- `ArithmeticKey` and `LookupKey`: the two key files.
- `Tables`: the families of `lookup/custom.rs` and the first-match table search.
- `Circuit`: the dual-mode composer, as far as the lookup gates and the checker use it.
- `LookupGates`: `constraint_system/lookup.rs`.
- `Helper`: `constraint_system/helper.rs`.
- `Uint8Gadget`: `sha256/uint/uint8.rs`.

## Model

| member | source | states |
|---|---|---|
| Util.PowersOf | plonk-core/src/util.rs:19-24 | the k-th item of the successor iteration starting at one and multiplying by `s` is `s^k` |
| Util.Successors | plonk-core/src/util.rs:23 | `successors(first, p -> p*s)` yields `first·s^k` at position k |
| Util.Lc | plonk-core/src/util.rs:173-192 | fails on challenge 0 or 1, then on an empty list; otherwise the reversed Horner fold equals the direct sum `v_0 + c·v_1 + … + c^k·v_k` |
| Util.HornerFoldReverse | plonk-core/src/util.rs:187-191 | folding `acc·c + v` over the reversed values equals `acc·c^n` plus the direct power sum |
| Util.HornerIsLinearSum | plonk-core/src/util.rs:182-191 | seeding the fold with the last value and skipping it gives the direct power sum |
| Util.LinearSumSnoc | plonk-core/src/util.rs:171-172 | appending a value adds its top-power term to the combination |
| Util.LcSingleton | plonk-core/src/util.rs:182-191 | the combination of a single value is that value |
| Util.FirstLagrangeEvaluation | plonk-core/src/util.rs:210-218 | a returned `L_0(z)` times `n·(z−1)` gives back `zh_eval`; a zero denominator fails instead of unwrapping |
| Util.FirstLagrangeDefined | plonk-core/src/util.rs:210-218 | in a prime field, `n ≠ 0` and `z ≠ 1` make the evaluation succeed, and its result is the only solution of `y·n·(z−1) = zh_eval` |
| Util.LagrangeEvals | plonk-core/src/util.rs:221-230 | `index >= n` fails the domain assertion; otherwise a length-`n` vector that is one exactly at `index` and zero exactly elsewhere |
| Util.LagrangeEvalsSelect | plonk-core/src/util.rs:221-231 | weighting any evaluation vector by the indicator picks out exactly its value at `index` |
| Util.IndicatorDot | plonk-core/src/util.rs:229-230 | a vector with a single one at `index` dotted with `e` gives `e[index]` |
| Util.ZeroDot | plonk-core/src/util.rs:229 | the all-zero vector dotted with anything gives zero |
| ArithmeticKey.ComputeLinearisation | plonk-core/src/proof_system/keys/arithmetic.rs:37-46 | every coefficient of the result is the gate polynomial of the selectors' coefficients at the wire evaluations, with no public input |
| ArithmeticKey.LinearisationCoeffs | plonk-core/src/proof_system/keys/arithmetic.rs:41-45 | the scaled and summed selector polynomials have, coefficient by coefficient, the gate polynomial's value |
| ArithmeticKey.LinearisationShape | plonk-core/src/proof_system/keys/arithmetic.rs:41-45 | the nested field expression of one coefficient equals the gate polynomial reduced modulo P |
| ArithmeticKey.LinearisationEval | plonk-core/src/proof_system/keys/arithmetic.rs:37-46 | evaluated at any point, the linearisation term is the gate polynomial of the selector evaluations there |
| ArithmeticKey.ComputeQuotientI | plonk-core/src/proof_system/keys/arithmetic.rs:67-81 | the quotient contribution at index i is the gate polynomial of the i-th coset selectors, the wire values and the public input, modulo P |
| ArithmeticKey.QuotientShape | plonk-core/src/proof_system/keys/arithmetic.rs:75-80 | the source's product and sum order equals the gate polynomial modulo P |
| ArithmeticKey.QuotientReadsOnlyIndex | plonk-core/src/proof_system/keys/arithmetic.rs:75-80 | two keys that agree at index i give the same contribution there |
| ArithmeticKey.QuotientAffineInPublicInput | plonk-core/src/proof_system/keys/arithmetic.rs:80 | raising the public input by d raises the contribution by d |
| ArithmeticKey.ComputeLinearisationCommitment | plonk-core/src/proof_system/keys/arithmetic.rs:116-136 | appends five scalars and the five selector commitments in the order q_m, q_l, q_r, q_o, q_c; earlier entries are untouched |
| ArithmeticKey.LinearisationCommitmentAgrees | plonk-core/src/proof_system/keys/arithmetic.rs:122-135 | with commitments to the prover's selectors, the appended scalars weight those selectors into exactly the prover's linearisation term |
| LookupKey.Alpha3 | plonk-core/src/proof_system/keys/lookup.rs:55 | `alpha_sq * alpha` is `α^3` |
| LookupKey.Alpha4 | plonk-core/src/proof_system/keys/lookup.rs:45 | `alpha_sq.square()` is `α^4` |
| LookupKey.ComputeLinearisation | plonk-core/src/proof_system/keys/lookup.rs:32-77 | succeeds exactly when ζ is neither 0 nor 1, the challenges `lc` accepts |
| LookupKey.ComputeQuotientI | plonk-core/src/proof_system/keys/lookup.rs:96-147 | succeeds exactly when ζ is neither 0 nor 1 |
| LookupKey.QuotientIsLookupTerm | plonk-core/src/proof_system/keys/lookup.rs:116-146 | when the running product takes a valid Plookup step and starts at one, the contribution reduces to `α³·(lc − f)·q_lookup` |
| LookupKey.QuotientReadsOnlyIndex | plonk-core/src/proof_system/keys/lookup.rs:123-129 | two keys that agree at index i on `q_lookup_coset` and `t4_coset` give the same contribution there |
| LookupKey.FirstValueTermVanishes | plonk-core/src/proof_system/keys/lookup.rs:144 | `(z2 − 1)·L_1·α⁵` is zero wherever the running product starts at one |
| LookupKey.RunningProductTermsCancel | plonk-core/src/proof_system/keys/lookup.rs:131-142 | the two running-product terms cancel wherever Plookup's recurrence holds at the point |
| LookupKey.QuotientVanishes | plonk-core/src/proof_system/keys/lookup.rs:96-147 | completeness: when the lookup, recurrence and start constraints hold at the point, the contribution is zero |
| LookupKey.QuotientDetectsLookupViolation | plonk-core/src/proof_system/keys/lookup.rs:123-129 | in a prime field with α ≠ 0 and the product constraints met, the contribution is zero if and only if the selector is off or the compressed wires equal f |
| LookupKey.LinearisationMatchesQuotient | plonk-core/src/proof_system/keys/lookup.rs:32-77 | the linearisation evaluated at x equals the quotient contribution at the opened values plus the constant the verifier accounts for separately, and both fail on the same ζ |
| LookupKey.ComputeLinearisationCommitmentAsWritten | plonk-core/src/proof_system/keys/lookup.rs:182-229 | the verifier as written: fails on ζ ∈ {0, 1}; appends three scalars and the commitments q_lookup, z2, h1 in that order |
| LookupKey.ComputeLinearisationCommitment | plonk-core/src/proof_system/keys/lookup.rs:182-229 | the corrected verifier: same failure and append shape, with the selector weight `α³·(lc − f)` |
| LookupKey.LinearisationCommitmentAgrees | plonk-core/src/proof_system/keys/lookup.rs:49-76 | with commitments to the prover's polynomials, the corrected verifier's three weights combine q_lookup, z2 and h1 into exactly the prover's linearisation term |
| LookupKey.AsWrittenAgreesExactlyWhen | plonk-core/src/proof_system/keys/lookup.rs:205-228 | the as-written and corrected verifiers fail together and append the same commitments and the same z2 and h1 weights; their outputs are equal exactly when `α³·f = f` |
| LookupKey.AsWrittenSelectorScalarDiffers | plonk-core/src/proof_system/keys/lookup.rs:205-207 | for α = ζ = 2, zero wires, zero t4 and f = 1, the as-written selector weight is P−1 while the prover's weight is P−8 |
| Tables.CollectSetRows | plonk-core/src/lookup/custom.rs:17-26 | one row `[e, 0, 0]` per element, in element order |
| Tables.Collect1DRows | plonk-core/src/lookup/custom.rs:40-50 | one row `[x, lookup(x), 0]` per axis value, in axis order |
| Tables.Collect2DRows | plonk-core/src/lookup/custom.rs:68-81 | `|x|·|y|` rows, x-major; row `i·|y| + j` is `[x_i, y_j, lookup(x_i, y_j)]` |
| Tables.Map2DRowsIndex | plonk-core/src/lookup/custom.rs:73-78 | the x-major generator places the pair (i, j) at row `i·|y| + j` |
| Tables.RangeElements | plonk-core/src/lookup/custom.rs:113-115 | `0..(1 << bits)` has `2^bits` elements and element i is i |
| Tables.U8Axis | plonk-core/src/lookup/custom.rs:135-137 | `0..=u8::MAX` is the 256 bytes in order |
| Tables.U16Axis | plonk-core/src/lookup/custom.rs:177-179 | `0..=u16::MAX` is the 65536 values in order |
| Tables.Bitwise | plonk-core/src/lookup/custom.rs:192-205 | the bitwise operation on `width` bits stays below `2^width` |
| Tables.FirstMatch | plonk-core/src/constraint_system/lookup.rs:47 | returns the first row matching on x (and y) and none before it; none exactly when no row matches |
| Tables.Contains | plonk-core/src/constraint_system/lookup.rs:26 | the membership check succeeds if and only if some row starts with x |
| Tables.Lookup1D | plonk-core/src/constraint_system/lookup.rs:47 | the value is the second column of a row starting with x; fails exactly when no row starts with x |
| Tables.Lookup2D | plonk-core/src/constraint_system/lookup.rs:78 | the value is the third column of a row starting with (x, y); fails exactly when none does |
| Tables.Map1DLookup | plonk-core/src/lookup/custom.rs:40-50 | searching a one-argument table at an axis value returns the map's value there |
| Tables.Map2DRowAt | plonk-core/src/lookup/custom.rs:68-81 | row k of a two-argument table is built from x number `k / |y|` and y number `k % |y|` |
| Tables.Map2DRowIndexAt | plonk-core/src/lookup/custom.rs:68-81 | the row for x number i and y number j exists and holds `lookup(x_i, y_j)` |
| Tables.Map2DLookup | plonk-core/src/lookup/custom.rs:68-81 | searching a two-argument table at two axis values returns the map's value there |
| Tables.Map2DMatchValue | plonk-core/src/lookup/custom.rs:73-78 | any row whose first two columns are (x, y) carries `lookup(x, y)` |
| Tables.Map1DFirstColumn | plonk-core/src/lookup/custom.rs:44-47 | a value outside the x-axis is not found in a one-argument table |
| Tables.Map2DFirstColumn | plonk-core/src/lookup/custom.rs:73-78 | a value outside the x-axis is not found in a two-argument table |
| Tables.RangeContains | plonk-core/src/lookup/custom.rs:105-120 | a value is in the `bits`-bit range table if and only if it is below `2^bits` |
| Tables.NotLookupU8 | plonk-core/src/lookup/custom.rs:188 | the u8 NOT table maps a byte v to `255 − v` and has no row for a larger value |
| Tables.NotLookupU16 | plonk-core/src/lookup/custom.rs:190 | the u16 NOT table maps v to `65535 − v` and has no row for a larger value |
| Tables.OpLookupU8 | plonk-core/src/lookup/custom.rs:192-195 | the two-argument u8 tables map two bytes to the bitwise result, and have no row for a first argument of 256 or more |
| Tables.WithConstLookupU8 | plonk-core/src/lookup/custom.rs:166-183 | the u8 table for constant k maps a byte x to `op(x, k)`, and has no row for larger values |
| Tables.WithConstLookupU16 | plonk-core/src/lookup/custom.rs:202-205 | the u16 table for constant k maps x to `op(x, k)`, and has no row for larger values |
| Tables.WithConstAgreesWithVar | plonk-core/src/lookup/custom.rs:146-183 | for a byte, the constant-k table gives the same value as the two-argument table at (x, k) |
| Tables.BitwiseComm | plonk-core/src/lookup/custom.rs:192-194 | OR, XOR and AND are commutative |
| Tables.NotAndIsAndNot | plonk-core/src/lookup/custom.rs:195 | `(!x) & y` equals `y & !x` on any width |
| Tables.XorInvolution | plonk-core/src/lookup/custom.rs:193 | XOR with the same key twice gives back the value |
| Tables.NotAndU8 | plonk-hashing/src/sha256/uint/uint8.rs:171-172 | on bytes, `(!x) & y` equals `y & !x`, so the constant-left AND-NOT may use the AND-with-constant table |
| Tables.CommU8 | plonk-hashing/src/sha256/uint/uint8.rs:137 | on bytes, AND and XOR commute, so a constant left operand may be swapped to the right |
| Tables.XorTwiceU8 | plonk-hashing/src/sha256/uint/uint8.rs:154 | on bytes, XOR with the same constant twice gives back the byte |
| Circuit.ValueOfVar | plonk-core/src/constraint_system/lookup.rs:25 | the zero variable reads 0; a handle reads its stored value exactly when it was assigned, else `UnassignedVariable` |
| Circuit.Positions | plonk-core/src/constraint_system/helper.rs:97 | the positions of the public inputs, in insertion order |
| Circuit.AsEvalsAt | plonk-core/src/constraint_system/helper.rs:101 | the public value at a position is that of the last input there, or zero when there is none |
| Circuit.AsEvalsEmpty | plonk-core/src/constraint_system/helper.rs:101 | with no public inputs every row's public value is zero |
| Circuit.AssignVariable | plonk-hashing/src/sha256/uint/uint8.rs:17 | assigning keeps the table and the mode |
| Circuit.AssignKeepsLockstep | plonk-core/src/constraint_system/lookup.rs:39-49 | allocating in Setup and assigning in Proving hand out the same handle, keep the builds in lockstep, and the handle reads the value |
| Circuit.GateKeepsLockstep | plonk-core/src/constraint_system/lookup.rs:43-51 | `gate_constrain` and `input_wires` with the same wiring keep the builds in lockstep |
| LookupGates.ContainsGate | plonk-core/src/constraint_system/lookup.rs:15-31 | fails with `TableNotLoaded` when the family is not loaded; Setup then succeeds; Proving succeeds exactly when x is assigned and some family row starts with its value; appends `(x, 0, 0)` with only the lookup selector set and allocates nothing |
| LookupGates.ContainsGateRange | plonk-core/src/constraint_system/lookup.rs:15-31 | with the `bits`-bit range table loaded and x assigned, the Proving range check passes exactly when x's value is below `2^bits` |
| LookupGates.Lookup1DGate | plonk-core/src/constraint_system/lookup.rs:33-56 | same failure cases; returns the next fresh handle, appends `(x, y, 0)`; in Proving y holds the table's value for x and earlier values are untouched |
| LookupGates.Lookup2DGate | plonk-core/src/constraint_system/lookup.rs:59-87 | same failure cases; returns the next fresh handle, appends `(x, y, z)`; in Proving z holds the table's value for (x, y) and earlier values are untouched |
| LookupGates.ProvingRowInTable | plonk-core/src/constraint_system/lookup.rs:24-29 | after a successful Proving gate, the wire values form a row of the family |
| LookupGates.ContainsGateLockstep | plonk-core/src/constraint_system/lookup.rs:15-31 | if the Proving call succeeds, the Setup call on a lockstep build succeeds and the builds stay in lockstep |
| LookupGates.Lookup1DGateLockstep | plonk-core/src/constraint_system/lookup.rs:33-56 | as above, and both modes return the same handle |
| LookupGates.Lookup2DGateLockstep | plonk-core/src/constraint_system/lookup.rs:59-87 | as above, and both modes return the same handle |
| LookupGates.AppendKeepsWiresAssigned | plonk-core/src/constraint_system/lookup.rs:22-82 | appending a gate whose three wires are assigned keeps every wire of the build assigned |
| LookupGates.ContainsGateKeepsWiresAssigned | plonk-core/src/constraint_system/lookup.rs:24-29 | a successful Proving `contains_gate` leaves every wire assigned |
| LookupGates.Lookup1DGateKeepsWiresAssigned | plonk-core/src/constraint_system/lookup.rs:45-52 | a successful Proving `lookup_1d_gate` leaves every wire assigned |
| LookupGates.Lookup2DGateKeepsWiresAssigned | plonk-core/src/constraint_system/lookup.rs:75-83 | a successful Proving `lookup_2d_gate` leaves every wire assigned |
| Helper.CheckedRows | plonk-core/src/constraint_system/helper.rs:104-115 | `izip!` stops at the shortest of the zipped vectors |
| Helper.CheckOrderShape | plonk-core/src/constraint_system/helper.rs:120 | the checker's sum order equals the gate polynomial modulo P |
| Helper.RowOutput | plonk-core/src/constraint_system/helper.rs:116-121 | a row's output exists exactly when its three wires are assigned, and is zero exactly when the gate equation holds there |
| Helper.CheckArithGate | plonk-core/src/constraint_system/helper.rs:90-123 | size mismatch and position mismatch fail first; passes if and only if sizes agree, positions agree pairwise and every zipped row satisfies its gate; a reported gate index is the first failing row; once sizes and positions agree, the only failures are an unsatisfied gate or an unassigned wire |
| Helper.RunStep | plonk-core/src/constraint_system/helper.rs:134-135 | a step of the circuit description keeps the build's mode and table; assignments and general gates never fail |
| Helper.GateStepCall | plonk-core/src/constraint_system/helper.rs:134-135 | a general gate keeps the mode, adds exactly one gate and allocates no handle |
| Helper.Run | plonk-core/src/constraint_system/helper.rs:134-135 | running a description keeps the build's mode and table |
| Helper.AppendKeepsInvariant | plonk-core/src/constraint_system/helper.rs:131-135 | appending the same lookup gate to both builds keeps them well formed and in lockstep, and keeps zero arithmetic selectors and assigned wires when the new wires have values |
| Helper.StepKeepsInvariant | plonk-core/src/constraint_system/helper.rs:134-135 | a step that succeeds in Proving succeeds in Setup and keeps the two builds in lockstep and well formed; a lookup-only step also keeps the lookup-only invariant |
| Helper.RunKeepsInvariant | plonk-core/src/constraint_system/helper.rs:131-135 | a description that runs in Proving runs in Setup and keeps the invariant throughout, and the lookup-only invariant for a lookup-only description |
| Helper.GateValueOfZeroRow | plonk-core/src/constraint_system/helper.rs:120 | a row with all arithmetic selectors zero and no public input satisfies the gate |
| Helper.InvariantPassesCheck | plonk-core/src/constraint_system/helper.rs:104-122 | builds that keep the lookup-only invariant have all rows checked and all rows satisfied |
| Helper.BuildsAgree | plonk-core/src/constraint_system/helper.rs:131-140 | Setup succeeds whenever Proving does; the builds are in lockstep and well formed; a lookup-only description satisfies every row |
| Helper.UnsatisfiedGateDetected | plonk-core/src/constraint_system/helper.rs:116-121 | a description that assigns 1 and constrains `1·a = 0` runs in both modes, yet its gate does not hold |
| Helper.TestArithGates | plonk-core/src/constraint_system/helper.rs:126-141 | a failing run is reported; when both runs succeed the result is Ok if and only if every row of the circuit satisfies its gate, and any failure is an unsatisfied gate or an unassigned wire; a lookup-only description that runs in Proving passes |
| Uint8Gadget.Value | plonk-hashing/src/sha256/uint/uint8.rs:120-125 | the value of a variable byte is its recorded value, of a constant its constant |
| Uint8Gadget.Assign | plonk-hashing/src/sha256/uint/uint8.rs:16-25 | succeeds exactly when the 8-bit range table is loaded; adds one gate; the new handle holds the byte |
| Uint8Gadget.AssignedValueInRange | plonk-hashing/src/sha256/uint/uint8.rs:17-18 | the fresh handle reads the assigned byte, and a byte passes the 8-bit range check |
| Uint8Gadget.VarOp | plonk-hashing/src/sha256/uint/uint8.rs:27-49 | records `op(x, y)`; one lookup gate on (x, y, z); with consistent inputs it succeeds exactly when the table is loaded and the output handle holds the recorded byte |
| Uint8Gadget.WithConst | plonk-hashing/src/sha256/uint/uint8.rs:52-92 | records `op(x, k)`; one lookup gate on (x, y, 0) in the table for k; with a consistent input it succeeds exactly when that table is loaded and the output is consistent |
| Uint8Gadget.Op | plonk-hashing/src/sha256/uint/uint8.rs:127-176 | the result's value is `op` on the operands' values; two constants give a constant with no gate; otherwise a variable and one gate; with consistent operands it succeeds exactly when the needed table is loaded |
| Uint8Gadget.OpKeepsEarlierConsistent | plonk-hashing/src/sha256/uint/uint8.rs:127-176 | a gadget call never changes what earlier handles hold |

## Left out

- The FFT and coset wrappers of `util.rs` (lines 95-167), the `EvaluationDomainExt` accessors (lines 27-92) and the interpolation step of `compute_lagrange_poly` (line 231): they need roots of unity and FFTs over a concrete field. The model keeps the indicator vector and proves what interpolating it means for a weighted sum.
- The labelling macros and `par_izip!` (`util.rs` lines 234-312): they have no semantics beyond naming and iteration.
- Commitment computation, multi-scalar multiplication and serialization: commitments are opaque values, and only the order and weights of the pairs are modelled.
- LookupKey.ComputeLinearisation: its own contract states only when it succeeds. Its value is described by `LookupKey.LinearisationMatchesQuotient` and `LookupKey.LinearisationCommitmentAgrees`.
- LookupKey.ComputeQuotientI: its own contract states only when it succeeds. Its value is described by `LookupKey.QuotientIsLookupTerm`, `LookupKey.QuotientVanishes` and `LookupKey.QuotientDetectsLookupViolation`.
- The commented-out tests of `util.rs`, `lookup.rs` and `helper.rs`: they are disabled.
- The composer internals (`SetupComposer`, `ProvingComposer`, `Permutation`, `VarMap`, `PublicInputs`, `Selectors`, `LookupTable`) are not part of this model. They are modelled by their minimal behaviour: handles are numbered consecutively, values are kept by handle, and public inputs are kept in insertion order. For `as_evals`, a later input at the same position is taken to win.
- `LookupTable::contains` (`lookup.rs` line 26): its definition is not part of this model, and the gate discards whatever it returns. The model assumes that `contains` itself rejects (panics on) a value outside the family's rows, so Proving `contains_gate` fails on such a value. If `contains` only returned a flag, the source's Proving `contains_gate` would accept any value.
- How tables are loaded into the lookup table: the loaded table is a parameter of the constraint system.
- Tables.RangeElements: the model requires `bits < 128`. For 128 bits or more, Rust's `1u128 << bits` overflows, and that case is not modelled.
- The 256 literal match arms of `impl_u8_var_const_operation!`: they are modelled as one table family indexed by the constant, which is what every arm selects.
- The `Or` operation: its tables are modelled, but `uint8.rs` offers no OR gadget.
- The `test_arith_gates` closure: it is modelled as a list of steps (assign, a general gate through `gate_constrain` in Setup and `input_wires` in Proving, `contains_gate`, `lookup_1d_gate`, `lookup_2d_gate`), and the same list runs in both modes. A `FnMut` closure that behaves differently on its two calls is not modelled. The composer's named arithmetic-gate helpers (addition, multiplication and the like) are not part of this model; each is a general gate with particular selectors.
- `u8`, `u16` and `u128` are bounded naturals, and bitwise operations are defined bit by bit.
- Panics with messages: each becomes an error value, and the message text is dropped.
- Per-gate debug provenance (call-site backtraces kept by the composers under a feature flag): it has no effect on the gates, the values or the checker's verdict.

## Findings

| source | as written | input that shows it | evidently intended | confidence | as-written member | corrected member |
|---|---|---|---|---|---|---|
| plonk-core/src/proof_system/keys/lookup.rs:205-207 | the verifier weights the q_lookup commitment by `α³·lc(a,b,c,t4; ζ) − f`, so `f` is not multiplied by `α³` | α = 2, ζ = 2, a = b = c = t4 = 0, f = 1: the verifier's weight is P−1, the prover's is P−8 | `α³·(lc(a,b,c,t4; ζ) − f)`, the weight the prover uses at lines 55-56 | not executed | LookupKey.AsWrittenSelectorScalarDiffers | LookupKey.LinearisationCommitmentAgrees |
