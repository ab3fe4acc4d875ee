/** Lookup-table families (`lookup/custom.rs`) and the table search the
    constraint system performs on their rows. A family is a generator of
    rows `[x, y, z]`: a set (`[e, 0, 0]`), a one-argument map
    (`[x, f(x), 0]`) or a two-argument map (`[x, y, f(x, y)]`). */
module Tables {
  import opened Base
  import opened Field

  /** One table row `[x, y, z]`. */
  datatype Row = Row(x: Fe, y: Fe, z: Fe)

  /** Values of Rust's `u128`. */
  type U128 = n: nat | n < Bound

  // ---------------------------------------------------------------------
  // Default `collect_rows` of the three generator traits
  // ---------------------------------------------------------------------

  /** Rows of a set: `[e, 0, 0]` per element, in order. */
  function SetRows<E>(elements: seq<E>, embed: E -> Fe): seq<Row> {
    seq(|elements|, i requires 0 <= i < |elements| => Row(embed(elements[i]), 0, 0))
  }

  /** Rows of a one-argument map: `[x, f(x), 0]` per axis value, in order. */
  function Map1DRows<X, Y>(xAxis: seq<X>, lookup: X -> Y, ex: X -> Fe, ey: Y -> Fe): seq<Row> {
    seq(|xAxis|, i requires 0 <= i < |xAxis| => Row(ex(xAxis[i]), ey(lookup(xAxis[i])), 0))
  }

  /** The rows a two-argument map emits for one x: `[x, y, f(x, y)]` per y. */
  function RowsForX<X, Y, Z>(x: X, yAxis: seq<Y>, lookup: (X, Y) -> Z,
                             ex: X -> Fe, ey: Y -> Fe, ez: Z -> Fe): seq<Row> {
    seq(|yAxis|, j requires 0 <= j < |yAxis| => Row(ex(x), ey(yAxis[j]), ez(lookup(x, yAxis[j]))))
  }

  /** Rows of a two-argument map, x-major: all rows of the first x, then the next. */
  function Map2DRows<X, Y, Z>(xAxis: seq<X>, yAxis: seq<Y>, lookup: (X, Y) -> Z,
                              ex: X -> Fe, ey: Y -> Fe, ez: Z -> Fe): seq<Row>
    decreases |xAxis|
  {
    if |xAxis| == 0 then []
    else Map2DRows(xAxis[..|xAxis| - 1], yAxis, lookup, ex, ey, ez)
         + RowsForX(xAxis[|xAxis| - 1], yAxis, lookup, ex, ey, ez)
  }

  /** `CustomSet::collect_rows`. */
  method CollectSetRows<E>(elements: seq<E>, embed: E -> Fe) returns (rows: seq<Row>)
    ensures |rows| == |elements|
    ensures forall i :: 0 <= i < |rows| ==> rows[i] == Row(embed(elements[i]), 0, 0)
    ensures rows == SetRows(elements, embed)
  {
    rows := [];
    for k := 0 to |elements|
      invariant |rows| == k
      invariant forall i :: 0 <= i < k ==> rows[i] == Row(embed(elements[i]), 0, 0)
    {
      rows := rows + [Row(embed(elements[k]), 0, 0)];
    }
  }

  /** `Custom1DMap::collect_rows`. */
  method Collect1DRows<X, Y>(xAxis: seq<X>, lookup: X -> Y, ex: X -> Fe, ey: Y -> Fe)
    returns (rows: seq<Row>)
    ensures |rows| == |xAxis|
    ensures forall i :: 0 <= i < |rows| ==> rows[i] == Row(ex(xAxis[i]), ey(lookup(xAxis[i])), 0)
    ensures rows == Map1DRows(xAxis, lookup, ex, ey)
  {
    rows := [];
    for k := 0 to |xAxis|
      invariant |rows| == k
      invariant forall i :: 0 <= i < k ==> rows[i] == Row(ex(xAxis[i]), ey(lookup(xAxis[i])), 0)
    {
      var y := lookup(xAxis[k]);
      rows := rows + [Row(ex(xAxis[k]), ey(y), 0)];
    }
  }

  /** `Custom2DMap::collect_rows`: the nested loop over both axes. */
  method Collect2DRows<X, Y, Z>(xAxis: seq<X>, yAxis: seq<Y>, lookup: (X, Y) -> Z,
                                ex: X -> Fe, ey: Y -> Fe, ez: Z -> Fe)
    returns (rows: seq<Row>)
    ensures rows == Map2DRows(xAxis, yAxis, lookup, ex, ey, ez)
    ensures |rows| == |xAxis| * |yAxis|
    ensures forall i, j :: 0 <= i < |xAxis| && 0 <= j < |yAxis| ==>
              rows[i * |yAxis| + j] == Row(ex(xAxis[i]), ey(yAxis[j]), ez(lookup(xAxis[i], yAxis[j])))
  {
    rows := [];
    for k := 0 to |xAxis|
      invariant rows == Map2DRows(xAxis[..k], yAxis, lookup, ex, ey, ez)
    {
      var x := xAxis[k];
      var inner: seq<Row> := [];
      for j := 0 to |yAxis|
        invariant |inner| == j
        invariant forall m :: 0 <= m < j ==>
                    inner[m] == Row(ex(x), ey(yAxis[m]), ez(lookup(x, yAxis[m])))
      {
        var z := lookup(x, yAxis[j]);
        inner := inner + [Row(ex(x), ey(yAxis[j]), ez(z))];
      }
      assert xAxis[..k + 1][..k] == xAxis[..k];
      rows := rows + inner;
    }
    assert xAxis[..|xAxis|] == xAxis;
    Map2DRowsIndex(xAxis, yAxis, lookup, ex, ey, ez);
  }

  /** Length and x-major layout of `Map2DRows`. */
  lemma {:induction false} Map2DRowsIndex<X, Y, Z>(xAxis: seq<X>, yAxis: seq<Y>, lookup: (X, Y) -> Z,
                                                   ex: X -> Fe, ey: Y -> Fe, ez: Z -> Fe)
    ensures |Map2DRows(xAxis, yAxis, lookup, ex, ey, ez)| == |xAxis| * |yAxis|
    ensures forall i, j :: 0 <= i < |xAxis| && 0 <= j < |yAxis| ==>
              Map2DRows(xAxis, yAxis, lookup, ex, ey, ez)[i * |yAxis| + j]
                == Row(ex(xAxis[i]), ey(yAxis[j]), ez(lookup(xAxis[i], yAxis[j])))
    decreases |xAxis|
  {
    if |xAxis| > 0 {
      var n, m := |xAxis| - 1, |yAxis|;
      var init := xAxis[..n];
      Map2DRowsIndex(init, yAxis, lookup, ex, ey, ez);
      var prefix := Map2DRows(init, yAxis, lookup, ex, ey, ez);
      assert |prefix| == n * m;
      assert (n + 1) * m == n * m + m;
      forall i, j | 0 <= i < |xAxis| && 0 <= j < m
        ensures Map2DRows(xAxis, yAxis, lookup, ex, ey, ez)[i * m + j]
                == Row(ex(xAxis[i]), ey(yAxis[j]), ez(lookup(xAxis[i], yAxis[j])))
      {
        if i < n {
          IndexBelowBlock(i, j, n, m);
          assert xAxis[i] == init[i];
        } else {
          assert i * m + j == n * m + j;
        }
      }
    }
  }

  lemma IndexBelowBlock(i: nat, j: nat, n: nat, m: nat)
    requires i < n && j < m
    ensures i * m + j < n * m
  {
    assert (i + 1) * m <= n * m by { MulMonotone(i + 1, n, m); }
  }

  lemma MulMonotone(a: nat, b: nat, m: nat)
    requires a <= b
    ensures a * m <= b * m
  {
  }

  // ---------------------------------------------------------------------
  // Axes and bitwise operations
  // ---------------------------------------------------------------------

  /** `2^n` as a natural number. */
  function Pow2(n: nat): nat {
    if n == 0 then 1 else 2 * Pow2(n - 1)
  }

  lemma {:induction false} Pow2Monotone(m: nat, n: nat)
    requires m <= n
    ensures Pow2(m) <= Pow2(n)
    decreases n - m
  {
    if m < n {
      Pow2Monotone(m, n - 1);
    }
  }

  /** `(0..(1 << bits)).collect()` over `u128`; the shift is defined for `bits < 128` only. */
  function RangeElements(bits: nat): (r: seq<U128>)
    requires bits < 128
    ensures |r| == Pow2(bits)
    ensures forall i :: 0 <= i < |r| ==> r[i] as int == i
  {
    assert Pow2(127) < Bound by { Pow2Monotone(bits, 127); Pow2Bound(); }
    Pow2Monotone(bits, 127);
    seq(Pow2(bits), i requires 0 <= i < Pow2(bits) => i as U128)
  }

  lemma Pow2Bound()
    ensures Pow2(128) == Bound
  {
    Pow2Widths();
    Pow2Add(16, 16);
    Pow2Add(32, 32);
    Pow2Add(64, 64);
  }

  lemma {:induction false} Pow2Add(m: nat, n: nat)
    ensures Pow2(m + n) == Pow2(m) * Pow2(n)
    decreases m
  {
    if m > 0 {
      Pow2Add(m - 1, n);
    }
  }

  /** Values of Rust's `u8` and `u16`. */
  type U8 = x: nat | x < 256
  type U16 = x: nat | x < 65536

  lemma Pow2Widths()
    ensures Pow2(8) == 256 && Pow2(16) == 65536
  {
    assert Pow2(4) == 16;
    Pow2Add(4, 4);
    Pow2Add(8, 8);
  }

  /** `(0..=u8::MAX).collect()`. */
  function U8Axis(): (r: seq<U8>)
    ensures |r| == 256
    ensures forall i :: 0 <= i < 256 ==> r[i] == i
  {
    seq(256, i requires 0 <= i < 256 => i as U8)
  }

  /** `(0..=u16::MAX).collect()`. */
  function U16Axis(): (r: seq<U16>)
    ensures |r| == 65536
    ensures forall i :: 0 <= i < 65536 ==> r[i] == i
  {
    seq(65536, i requires 0 <= i < 65536 => i as U16)
  }

  /** The binary operations the operation tables enumerate. */
  datatype BinOp = Or | Xor | And | NotAnd

  /** `op` on single bits; `NotAnd` is `(!a) & b`. */
  function BitOf(op: BinOp, a: nat, b: nat): (r: nat)
    requires a < 2 && b < 2
    ensures r < 2
  {
    match op
    case Or => if a == 1 || b == 1 then 1 else 0
    case Xor => if a != b then 1 else 0
    case And => a * b
    case NotAnd => (1 - a) * b
  }

  /** `op` applied bitwise to the low `width` bits of `x` and `y`. */
  function Bitwise(op: BinOp, x: nat, y: nat, width: nat): (r: nat)
    ensures r < Pow2(width)
    decreases width
  {
    if width == 0 then 0
    else 2 * Bitwise(op, x / 2, y / 2, width - 1) + BitOf(op, x % 2, y % 2)
  }

  /** `x | y`, `x ^ y`, `x & y` and `!x & y` on `u8`. */
  function ApplyU8(op: BinOp, x: U8, y: U8): U8 {
    Pow2Widths();
    Bitwise(op, x, y, 8)
  }

  /** The same operations on `u16`. */
  function ApplyU16(op: BinOp, x: U16, y: U16): U16 {
    Pow2Widths();
    Bitwise(op, x, y, 16)
  }

  /** `!x` on `u8` and `u16`: every bit flipped. */
  function NotU8(x: U8): U8 { 255 - x }
  function NotU16(x: U16): U16 { 65535 - x }

  /** `u8 -> F`, `u16 -> F` and `u128 -> F`: the integer value, below P. */
  function U8ToField(x: U8): Fe { x }
  function U16ToField(x: U16): Fe { x }
  function U128ToField(x: U128): Fe { x }

  // ---------------------------------------------------------------------
  // The concrete families
  // ---------------------------------------------------------------------

  /** The table families defined over the unsigned types; a `@withconst`
      family is one table per constant `k`. */
  datatype Family =
    | UintRange(bits: nat)
    | U8Not
    | U16Not
    | U8Op(op: BinOp)
    | U8OpWithConst(op: BinOp, k: U8)
    | U16OpWithConst(op: BinOp, k16: U16)

  predicate ValidFamily(f: Family) {
    f.UintRange? ==> f.bits < 128
  }

  /** `<T as CustomTable<F>>::collect_rows()` for family `f`. */
  function Rows(f: Family): seq<Row>
    requires ValidFamily(f)
  {
    match f
    case UintRange(bits) => SetRows(RangeElements(bits), U128ToField)
    case U8Not => Map1DRows(U8Axis(), (x: U8) => NotU8(x), U8ToField, U8ToField)
    case U16Not => Map1DRows(U16Axis(), (x: U16) => NotU16(x), U16ToField, U16ToField)
    case U8Op(op) =>
      Map2DRows(U8Axis(), U8Axis(), (x: U8, y: U8) => ApplyU8(op, x, y), U8ToField, U8ToField, U8ToField)
    case U8OpWithConst(op, k) =>
      Map1DRows(U8Axis(), (x: U8) => ApplyU8(op, x, k), U8ToField, U8ToField)
    case U16OpWithConst(op, k16) =>
      Map1DRows(U16Axis(), (x: U16) => ApplyU16(op, x, k16), U16ToField, U16ToField)
  }

  // ---------------------------------------------------------------------
  // Table search
  // ---------------------------------------------------------------------

  /** A row matches on its first column, and on its second too when `y` is given. */
  predicate Matches(r: Row, x: Fe, y: Option<Fe>) {
    r.x == x && (y.Some? ==> r.y == y.value)
  }

  /** Index of the first matching row, if any. */
  function FirstMatch(rows: seq<Row>, x: Fe, y: Option<Fe>): (r: Option<nat>)
    ensures r.Some? ==> r.value < |rows| && Matches(rows[r.value], x, y)
    ensures r.Some? ==> forall i :: 0 <= i < r.value ==> !Matches(rows[i], x, y)
    ensures r.None? <==> forall i :: 0 <= i < |rows| ==> !Matches(rows[i], x, y)
    decreases |rows|
  {
    if |rows| == 0 then None
    else if Matches(rows[0], x, y) then Some(0)
    else
      match FirstMatch(rows[1..], x, y)
      case None => None
      case Some(i) => Some(i + 1)
  }

  /** `contains::<T>(x)`: succeeds when some row of the family starts with `x`. */
  function Contains(rows: seq<Row>, x: Fe): (r: Result<()>)
    ensures r.Ok? <==> exists i :: 0 <= i < |rows| && rows[i].x == x
    ensures r.Err? ==> r.error == ValueNotInTable
  {
    match FirstMatch(rows, x, None)
    case Some(_) => Ok(())
    case None => Err(ValueNotInTable)
  }

  /** `lookup_1d::<T>(x)`: the second column of the first row starting with `x`. */
  function Lookup1D(rows: seq<Row>, x: Fe): (r: Result<Fe>)
    ensures r.Ok? ==> exists i :: 0 <= i < |rows| && rows[i].x == x && rows[i].y == r.value
    ensures r.Err? <==> forall i :: 0 <= i < |rows| ==> rows[i].x != x
    ensures r.Err? ==> r.error == NoMatchingRow
  {
    match FirstMatch(rows, x, None)
    case Some(i) => Ok(rows[i].y)
    case None => Err(NoMatchingRow)
  }

  /** `lookup_2d::<T>(x, y)`: the third column of the first row starting with `x, y`. */
  function Lookup2D(rows: seq<Row>, x: Fe, y: Fe): (r: Result<Fe>)
    ensures r.Ok? ==> exists i :: 0 <= i < |rows| && rows[i].x == x && rows[i].y == y && rows[i].z == r.value
    ensures r.Err? <==> forall i :: 0 <= i < |rows| ==> !(rows[i].x == x && rows[i].y == y)
    ensures r.Err? ==> r.error == NoMatchingRow
  {
    match FirstMatch(rows, x, Some(y))
    case Some(i) => Ok(rows[i].z)
    case None => Err(NoMatchingRow)
  }

  /** `contains_table::<T>()`: every row of the family is in the loaded table. */
  predicate ContainsTable(table: seq<Row>, f: Family)
    requires ValidFamily(f)
  {
    forall i :: 0 <= i < |Rows(f)| ==> Rows(f)[i] in table
  }

  // ---------------------------------------------------------------------
  // What a search over a generated family returns
  // ---------------------------------------------------------------------

  /** Searching a one-argument map at an axis value returns the map's value. */
  lemma Map1DLookup<X, Y>(xAxis: seq<X>, lookup: X -> Y, ex: X -> Fe, ey: Y -> Fe, x: X, idx: nat)
    requires idx < |xAxis| && xAxis[idx] == x
    requires forall a, b :: ex(a) == ex(b) ==> a == b
    ensures Lookup1D(Map1DRows(xAxis, lookup, ex, ey), ex(x)) == Ok(ey(lookup(x)))
  {
    var rows := Map1DRows(xAxis, lookup, ex, ey);
    assert rows[idx].x == ex(x);
    var r := Lookup1D(rows, ex(x));
    var i :| 0 <= i < |rows| && rows[i].x == ex(x) && rows[i].y == r.value;
    assert ex(xAxis[i]) == ex(x);
  }

  /** Row `k` of a two-argument map, located by division and remainder. */
  lemma Map2DRowAt<X, Y, Z>(xAxis: seq<X>, yAxis: seq<Y>, lookup: (X, Y) -> Z,
                            ex: X -> Fe, ey: Y -> Fe, ez: Z -> Fe, k: nat)
    requires k < |Map2DRows(xAxis, yAxis, lookup, ex, ey, ez)|
    ensures |yAxis| > 0 && k / |yAxis| < |xAxis|
    ensures Map2DRows(xAxis, yAxis, lookup, ex, ey, ez)[k]
            == Row(ex(xAxis[k / |yAxis|]), ey(yAxis[k % |yAxis|]),
                   ez(lookup(xAxis[k / |yAxis|], yAxis[k % |yAxis|])))
  {
    hide Map2DRows;
    Map2DRowsIndex(xAxis, yAxis, lookup, ex, ey, ez);
    var n, m := |xAxis|, |yAxis|;
    var i, j := k / m, k % m;
    DivModSplit(k, m, n);
    assert Map2DRows(xAxis, yAxis, lookup, ex, ey, ez)[i * m + j]
           == Row(ex(xAxis[i]), ey(yAxis[j]), ez(lookup(xAxis[i], yAxis[j])));
  }

  lemma DivModSplit(k: nat, m: nat, n: nat)
    requires m > 0 && k < n * m
    ensures k == (k / m) * m + k % m && k / m < n && k % m < m
  {
    if k / m >= n {
      MulMonotone(n, k / m, m);
    }
  }

  /** One instance of `Map2DRowsIndex`. */
  lemma Map2DRowIndexAt<X, Y, Z>(xAxis: seq<X>, yAxis: seq<Y>, lookup: (X, Y) -> Z,
                                 ex: X -> Fe, ey: Y -> Fe, ez: Z -> Fe, i: nat, j: nat)
    requires i < |xAxis| && j < |yAxis|
    ensures i * |yAxis| + j < |Map2DRows(xAxis, yAxis, lookup, ex, ey, ez)|
    ensures Map2DRows(xAxis, yAxis, lookup, ex, ey, ez)[i * |yAxis| + j]
            == Row(ex(xAxis[i]), ey(yAxis[j]), ez(lookup(xAxis[i], yAxis[j])))
  {
    hide Map2DRows;
    Map2DRowsIndex(xAxis, yAxis, lookup, ex, ey, ez);
    IndexBelowBlock(i, j, |xAxis|, |yAxis|);
  }

  /** Searching a two-argument map at two axis values returns the map's value. */
  lemma Map2DLookup<X, Y, Z>(xAxis: seq<X>, yAxis: seq<Y>, lookup: (X, Y) -> Z,
                             ex: X -> Fe, ey: Y -> Fe, ez: Z -> Fe,
                             x: X, y: Y, ix: nat, iy: nat)
    requires ix < |xAxis| && xAxis[ix] == x && iy < |yAxis| && yAxis[iy] == y
    requires forall a, b :: ex(a) == ex(b) ==> a == b
    requires forall a, b :: ey(a) == ey(b) ==> a == b
    ensures Lookup2D(Map2DRows(xAxis, yAxis, lookup, ex, ey, ez), ex(x), ey(y)) == Ok(ez(lookup(x, y)))
  {
    hide Map2DRows;
    var rows := Map2DRows(xAxis, yAxis, lookup, ex, ey, ez);
    Map2DRowIndexAt(xAxis, yAxis, lookup, ex, ey, ez, ix, iy);
    var at := ix * |yAxis| + iy;
    assert rows[at].x == ex(x) && rows[at].y == ey(y);
    var r := Lookup2D(rows, ex(x), ey(y));
    assert r.Ok?;
    var k :| 0 <= k < |rows| && rows[k].x == ex(x) && rows[k].y == ey(y) && rows[k].z == r.value;
    Map2DMatchValue(xAxis, yAxis, lookup, ex, ey, ez, x, y, k);
  }

  /** In a two-argument map with injective embeddings, a row that starts
      with `x, y` ends with the map's value at `(x, y)`. */
  lemma Map2DMatchValue<X, Y, Z>(xAxis: seq<X>, yAxis: seq<Y>, lookup: (X, Y) -> Z,
                                 ex: X -> Fe, ey: Y -> Fe, ez: Z -> Fe, x: X, y: Y, k: nat)
    requires forall a, b :: ex(a) == ex(b) ==> a == b
    requires forall a, b :: ey(a) == ey(b) ==> a == b
    requires k < |Map2DRows(xAxis, yAxis, lookup, ex, ey, ez)|
    requires Map2DRows(xAxis, yAxis, lookup, ex, ey, ez)[k].x == ex(x)
    requires Map2DRows(xAxis, yAxis, lookup, ex, ey, ez)[k].y == ey(y)
    ensures Map2DRows(xAxis, yAxis, lookup, ex, ey, ez)[k].z == ez(lookup(x, y))
  {
    hide Map2DRows;
    Map2DRowAt(xAxis, yAxis, lookup, ex, ey, ez, k);
    var i, j := k / |yAxis|, k % |yAxis|;
    assert ex(xAxis[i]) == ex(x) && ey(yAxis[j]) == ey(y);
  }

  /** Only values of the x-axis occur in the first column of a one-argument map. */
  lemma Map1DFirstColumn<X, Y>(xAxis: seq<X>, lookup: X -> Y, ex: X -> Fe, ey: Y -> Fe, v: Fe)
    requires forall i :: 0 <= i < |xAxis| ==> ex(xAxis[i]) != v
    ensures Lookup1D(Map1DRows(xAxis, lookup, ex, ey), v) == Err(NoMatchingRow)
  {
  }

  /** Only values of the x-axis occur in the first column of a two-argument map. */
  lemma Map2DFirstColumn<X, Y, Z>(xAxis: seq<X>, yAxis: seq<Y>, lookup: (X, Y) -> Z,
                                  ex: X -> Fe, ey: Y -> Fe, ez: Z -> Fe, v: Fe, w: Fe)
    requires forall i :: 0 <= i < |xAxis| ==> ex(xAxis[i]) != v
    ensures Lookup2D(Map2DRows(xAxis, yAxis, lookup, ex, ey, ez), v, w) == Err(NoMatchingRow)
  {
    var rows := Map2DRows(xAxis, yAxis, lookup, ex, ey, ez);
    forall k | 0 <= k < |rows| ensures rows[k].x != v {
      Map2DRowAt(xAxis, yAxis, lookup, ex, ey, ez, k);
    }
  }

  /** The `BITS`-bit range table holds exactly the values below `2^BITS`. */
  lemma RangeContains(bits: nat, v: Fe)
    requires bits < 128
    ensures Contains(Rows(UintRange(bits)), v).Ok? <==> v < Pow2(bits)
  {
    var elements := RangeElements(bits);
    var rows := Rows(UintRange(bits));
    assert rows == SetRows(elements, U128ToField);
    assert forall i :: 0 <= i < |rows| ==> rows[i].x == i;
    if v < Pow2(bits) {
      assert rows[v].x == v;
    }
  }

  /** The `u8` and `u16` NOT tables map `x` to `!x`, and only bytes (resp.
      16-bit values) are found. */
  lemma NotLookupU8(v: Fe)
    ensures Lookup1D(Rows(U8Not), v) == if v < 256 then Ok(NotU8(v) as Fe) else Err(NoMatchingRow)
  {
    if v < 256 {
      Map1DLookup(U8Axis(), (x: U8) => NotU8(x), U8ToField, U8ToField, v as U8, v);
    } else {
      Map1DFirstColumn(U8Axis(), (x: U8) => NotU8(x), U8ToField, U8ToField, v);
    }
  }

  lemma NotLookupU16(v: Fe)
    ensures Lookup1D(Rows(U16Not), v) == if v < 65536 then Ok(NotU16(v) as Fe) else Err(NoMatchingRow)
  {
    if v < 65536 {
      Map1DLookup(U16Axis(), (x: U16) => NotU16(x), U16ToField, U16ToField, v as U16, v);
    } else {
      Map1DFirstColumn(U16Axis(), (x: U16) => NotU16(x), U16ToField, U16ToField, v);
    }
  }

  /** A `u8` operation table maps `(x, y)` to `x op y`; a first column outside
      the bytes is not found. */
  lemma OpLookupU8(op: BinOp, v: Fe, w: Fe)
    ensures v < 256 && w < 256 ==> Lookup2D(Rows(U8Op(op)), v, w) == Ok(ApplyU8(op, v, w) as Fe)
    ensures 256 <= v ==> Lookup2D(Rows(U8Op(op)), v, w) == Err(NoMatchingRow)
  {
    var f := (x: U8, y: U8) => ApplyU8(op, x, y);
    if v < 256 && w < 256 {
      Map2DLookup(U8Axis(), U8Axis(), f, U8ToField, U8ToField, U8ToField, v as U8, w as U8, v, w);
    } else if 256 <= v {
      Map2DFirstColumn(U8Axis(), U8Axis(), f, U8ToField, U8ToField, U8ToField, v, w);
    }
  }

  /** The `u8` table for a fixed right operand `k` maps `x` to `x op k`, and
      finds bytes only. */
  lemma WithConstLookupU8(op: BinOp, k: U8, v: Fe)
    ensures Lookup1D(Rows(U8OpWithConst(op, k)), v)
            == if v < 256 then Ok(ApplyU8(op, v, k) as Fe) else Err(NoMatchingRow)
  {
    var f := (x: U8) => ApplyU8(op, x, k);
    if v < 256 {
      Map1DLookup(U8Axis(), f, U8ToField, U8ToField, v as U8, v);
    } else {
      Map1DFirstColumn(U8Axis(), f, U8ToField, U8ToField, v);
    }
  }

  lemma WithConstLookupU16(op: BinOp, k: U16, v: Fe)
    ensures Lookup1D(Rows(U16OpWithConst(op, k)), v)
            == if v < 65536 then Ok(ApplyU16(op, v, k) as Fe) else Err(NoMatchingRow)
  {
    var f := (x: U16) => ApplyU16(op, x, k);
    if v < 65536 {
      Map1DLookup(U16Axis(), f, U16ToField, U16ToField, v as U16, v);
    } else {
      Map1DFirstColumn(U16Axis(), f, U16ToField, U16ToField, v);
    }
  }

  /** Looking `x` up in the table for constant `k` gives the same answer as
      looking `(x, k)` up in the two-argument table of the same operation. */
  lemma WithConstAgreesWithVar(op: BinOp, k: U8, v: Fe)
    requires v < 256
    ensures Lookup1D(Rows(U8OpWithConst(op, k)), v) == Lookup2D(Rows(U8Op(op)), v, k)
  {
    WithConstLookupU8(op, k, v);
    OpLookupU8(op, v, k);
  }

  // ---------------------------------------------------------------------
  // Bitwise identities
  // ---------------------------------------------------------------------

  /** `|`, `^` and `&` do not depend on the order of their operands. */
  lemma {:induction false} BitwiseComm(op: BinOp, x: nat, y: nat, width: nat)
    requires op != NotAnd
    ensures Bitwise(op, x, y, width) == Bitwise(op, y, x, width)
    decreases width
  {
    if width > 0 {
      BitwiseComm(op, x / 2, y / 2, width - 1);
    }
  }

  /** `!x & y` is `y & !x`, with `!x` the complement within `width` bits. */
  lemma {:induction false} NotAndIsAndNot(x: nat, y: nat, width: nat)
    requires x < Pow2(width)
    ensures Bitwise(NotAnd, x, y, width) == Bitwise(And, y, Pow2(width) - 1 - x, width)
    decreases width
  {
    if width > 0 {
      var h := Pow2(width - 1);
      var nx := Pow2(width) - 1 - x;
      assert nx == 2 * (h - 1 - x / 2) + (1 - x % 2);
      assert nx / 2 == h - 1 - x / 2 && nx % 2 == 1 - x % 2;
      NotAndIsAndNot(x / 2, y / 2, width - 1);
    }
  }

  /** XOR with the same operand twice gives the original value back. */
  lemma {:induction false} XorInvolution(x: nat, k: nat, width: nat)
    requires x < Pow2(width)
    ensures Bitwise(Xor, Bitwise(Xor, x, k, width), k, width) == x
    decreases width
  {
    if width > 0 {
      var once := Bitwise(Xor, x, k, width);
      var rest := Bitwise(Xor, x / 2, k / 2, width - 1);
      assert once / 2 == rest && once % 2 == BitOf(Xor, x % 2, k % 2);
      XorInvolution(x / 2, k / 2, width - 1);
    }
  }

  /** `!x & y` on bytes equals `y & !x`: the operand swap the gadget performs
      when the left operand is a constant. */
  lemma NotAndU8(x: U8, y: U8)
    ensures ApplyU8(NotAnd, x, y) == ApplyU8(And, y, NotU8(x))
  {
    Pow2Widths();
    NotAndIsAndNot(x, y, 8);
  }

  lemma CommU8(op: BinOp, x: U8, y: U8)
    requires op != NotAnd
    ensures ApplyU8(op, x, y) == ApplyU8(op, y, x)
  {
    BitwiseComm(op, x, y, 8);
  }

  lemma XorTwiceU8(x: U8, k: U8)
    ensures ApplyU8(Xor, ApplyU8(Xor, x, k), k) == x
  {
    Pow2Widths();
    XorInvolution(x, k, 8);
  }
}
