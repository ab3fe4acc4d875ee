/** The scalar field of the proof system: integers modulo a prime `P`.

    `P` is left abstract: the model only fixes that it exceeds 2^128, so
    that every value of the u8/u16/u128 lookup tables embeds injectively.
    Primality is stated as a hypothesis (`IsPrime(P)`) wherever it is
    needed, namely for the existence of inverses. */
module Field {
  import opened Base

  /** 2^128: every table element (at most a u128) lies below it. */
  const Bound: nat := 0x1_0000_0000_0000_0000_0000_0000_0000_0000

  type Modulus = p: nat | p > Bound witness Bound + 1

  /** The field characteristic, deliberately left without a value. */
  const P: Modulus

  /** Field elements as canonical residues. */
  type Fe = x: int | 0 <= x < P

  ghost predicate Divides(d: nat, n: int)
    requires d > 0
  {
    n % d == 0
  }

  ghost predicate IsPrime(p: nat) {
    p >= 2 && forall d: nat :: 1 < d < p ==> !Divides(d, p)
  }

  /** The canonical residue of an integer (also `F::from` on unsigned ints). */
  function Reduce(x: int): Fe {
    x % P
  }

  function Add(a: Fe, b: Fe): Fe { (a + b) % P }
  function Sub(a: Fe, b: Fe): Fe { (a - b) % P }
  function Neg(a: Fe): Fe { if a == 0 then 0 else P - a }
  function Mul(a: Fe, b: Fe): Fe { (a * b) % P }
  function Square(a: Fe): Fe { Mul(a, a) }

  /** Reference exponentiation by repeated multiplication. */
  function Pow(a: Fe, n: nat): Fe {
    if n == 0 then 1 else Mul(a, Pow(a, n - 1))
  }

  // ---------------------------------------------------------------------
  // Integer division facts, for an arbitrary positive modulus.
  // ---------------------------------------------------------------------

  lemma MulAtLeast(a: int, b: int)
    requires a >= 1 && b > 0
    ensures a * b >= b
  {
    assert a * b - b == (a - 1) * b;
  }

  lemma DivModUnique(m: int, n: int, q: int, r: int)
    requires m > 0 && n == q * m + r && 0 <= r < m
    ensures n % m == r && n / m == q
  {
    var q0, r0 := n / m, n % m;
    assert n == q0 * m + r0;
    assert (q0 - q) * m == r - r0;
    if q0 > q {
      MulAtLeast(q0 - q, m);
    } else if q > q0 {
      MulAtLeast(q - q0, m);
    }
  }

  lemma ModShift(m: int, k: int, z: int)
    requires m > 0
    ensures (k * m + z) % m == z % m
  {
    var q, r := z / m, z % m;
    assert k * m + z == (k + q) * m + r;
    DivModUnique(m, k * m + z, k + q, r);
  }

  lemma ModAddLeft(m: int, x: int, y: int)
    requires m > 0
    ensures (x % m + y) % m == (x + y) % m
  {
    var q := x / m;
    assert x + y == q * m + (x % m + y);
    ModShift(m, q, x % m + y);
  }

  lemma ModMulLeft(m: int, x: int, y: int)
    requires m > 0
    ensures ((x % m) * y) % m == (x * y) % m
  {
    var q := x / m;
    assert x * y == (q * y) * m + (x % m) * y;
    ModShift(m, q * y, (x % m) * y);
  }

  lemma MulNonPositive(a: int, b: int)
    requires a <= 0 && b > 0
    ensures a * b <= 0
  {
  }

  /** A positive multiple of `d` is at least `d`. */
  lemma DivisorAtMost(d: int, n: int)
    requires d > 0 && n > 0 && n % d == 0
    ensures d <= n
  {
    var k := n / d;
    assert n == k * d;
    if k >= 1 {
      MulAtLeast(k, d);
    } else {
      MulNonPositive(k, d);
    }
  }

  lemma MultipleOfDivisor(d: int, k: int)
    requires d > 0
    ensures (k * d) % d == 0
  {
    ModShift(d, k, 0);
  }

  // ---------------------------------------------------------------------
  // The field operations agree with integer arithmetic modulo P.
  // ---------------------------------------------------------------------

  lemma AddReduce(x: int, y: int)
    ensures Add(Reduce(x), Reduce(y)) == Reduce(x + y)
  {
    ModAddLeft(P, x, y % P);
    ModAddLeft(P, y, x);
  }

  lemma MulReduce(x: int, y: int)
    ensures Mul(Reduce(x), Reduce(y)) == Reduce(x * y)
  {
    ModMulLeft(P, x, y % P);
    ModMulLeft(P, y, x);
  }

  lemma NegReduce(x: int)
    ensures Neg(Reduce(x)) == Reduce(-x)
  {
    var q, r := x / P, x % P;
    assert x == q * P + r;
    if r == 0 {
      DivModUnique(P, -x, -q, 0);
    } else {
      assert -x == (-q - 1) * P + (P - r);
      DivModUnique(P, -x, -q - 1, P - r);
    }
  }

  lemma SubReduce(x: int, y: int)
    ensures Sub(Reduce(x), Reduce(y)) == Reduce(x - y)
  {
    var b: int := Reduce(y);
    ModAddLeft(P, x, -b);
    var qy := y / P;
    assert y == qy * P + b;
    assert x - b == qy * P + (x - y);
    ModShift(P, qy, x - y);
  }

  lemma ReduceAddLeft(x: int, y: int)
    ensures Reduce(Reduce(x) + y) == Reduce(x + y)
  {
    ModAddLeft(P, x, y);
  }

  /** A left-nested chain of five field additions is one reduction of the integer sum. */
  lemma AddChain5(x1: int, x2: int, x3: int, x4: int, x5: int)
    ensures Add(Add(Add(Add(Reduce(x1), Reduce(x2)), Reduce(x3)), Reduce(x4)), Reduce(x5))
         == Reduce(x1 + x2 + x3 + x4 + x5)
  {
    hide Add, Reduce;
    AddReduce(x1, x2);
    AddReduce(x1 + x2, x3);
    AddReduce(x1 + x2 + x3, x4);
    AddReduce(x1 + x2 + x3 + x4, x5);
  }

  /** `a·(b·c)` in the field is one reduction of the integer product. */
  lemma MulNestedIsReduce(a: Fe, b: Fe, c: Fe)
    ensures Mul(a, Mul(b, c)) == Reduce(a * (b * c))
  {
    hide Mul, Reduce;
    var x: int, y: int := b, c;
    MulIsReduce(b, c);
    ReduceFe(a);
    MulReduce(a, x * y);
  }

  lemma ReduceMulLeft(x: int, y: int)
    ensures Reduce(Reduce(x) * y) == Reduce(x * y)
  {
    ModMulLeft(P, x, y);
  }

  lemma SubIsReduce(a: Fe, b: Fe)
    ensures Sub(a, b) == Reduce(a - b)
  {
  }

  lemma SubSelf(a: Fe)
    ensures Sub(a, a) == 0
  {
  }

  lemma AddNeg(a: Fe)
    ensures Add(a, Neg(a)) == 0
  {
  }

  lemma NegIsReduce(a: Fe)
    ensures Neg(a) == Reduce(-(a as int))
  {
    ReduceFe(a);
    NegReduce(a);
  }

  lemma Add3IsReduce(a: Fe, b: Fe, c: Fe)
    ensures Add(Add(a, b), c) == Reduce(a + b + c)
  {
    hide Add, Reduce;
    var x: int, y: int, z: int := a, b, c;
    AddIsReduce(a, b);
    ReduceFe(c);
    AddReduce(x + y, z);
  }

  lemma Mul3IsReduce(a: Fe, b: Fe, c: Fe)
    ensures Mul(Mul(a, b), c) == Reduce(a * b * c)
  {
    hide Mul, Reduce;
    var x: int, y: int, z: int := a, b, c;
    MulIsReduce(a, b);
    ReduceFe(c);
    MulReduce(x * y, z);
  }

  lemma Mul4IsReduce(a: Fe, b: Fe, c: Fe, d: Fe)
    ensures Mul(Mul(Mul(a, b), c), d) == Reduce(a * b * c * d)
  {
    hide Mul, Reduce;
    var x: int, y: int, z: int, u: int := a, b, c, d;
    Mul3IsReduce(a, b, c);
    ReduceFe(d);
    MulReduce(x * y * z, u);
  }

  lemma Mul5IsReduce(a: Fe, b: Fe, c: Fe, d: Fe, e: Fe)
    ensures Mul(Mul(Mul(Mul(a, b), c), d), e) == Reduce(a * b * c * d * e)
  {
    hide Mul, Reduce;
    var x: int, y: int, z: int, u: int, v: int := a, b, c, d, e;
    Mul4IsReduce(a, b, c, d);
    ReduceFe(e);
    MulReduce(x * y * z * u, v);
  }

  lemma ReduceFe(a: Fe)
    ensures Reduce(a) == a
  {
  }

  lemma AddIsReduce(a: Fe, b: Fe)
    ensures Add(a, b) == Reduce(a + b)
  {
  }

  lemma MulIsReduce(a: Fe, b: Fe)
    ensures Mul(a, b) == Reduce(a * b)
  {
  }

  // ---------------------------------------------------------------------
  // Ring laws of the field operations.
  // ---------------------------------------------------------------------

  lemma AddComm(a: Fe, b: Fe)
    ensures Add(a, b) == Add(b, a)
  {
    AddIsReduce(a, b);
    AddIsReduce(b, a);
  }

  lemma MulComm(a: Fe, b: Fe)
    ensures Mul(a, b) == Mul(b, a)
  {
    MulIsReduce(a, b);
    MulIsReduce(b, a);
  }

  lemma AddAssoc(a: Fe, b: Fe, c: Fe)
    ensures Add(Add(a, b), c) == Add(a, Add(b, c))
  {
    hide Add, Reduce;
    AddIsReduce(a, b);
    AddIsReduce(b, c);
    ReduceFe(a);
    ReduceFe(c);
    AddReduce(a + b, c);
    AddReduce(a, b + c);
    assert a + b + c == a + (b + c);
  }

  lemma MulAssoc(a: Fe, b: Fe, c: Fe)
    ensures Mul(Mul(a, b), c) == Mul(a, Mul(b, c))
  {
    hide Mul, Reduce;
    MulIsReduce(a, b);
    MulIsReduce(b, c);
    ReduceFe(a);
    ReduceFe(c);
    MulReduce(a * b, c);
    MulReduce(a, b * c);
    IntMulAssoc(a, b, c);
  }

  lemma IntMulAssoc(a: int, b: int, c: int)
    ensures (a * b) * c == a * (b * c)
  {
  }

  lemma IntDistrib(a: int, b: int, c: int)
    ensures a * (b + c) == a * b + a * c
  {
  }

  lemma Distrib(a: Fe, b: Fe, c: Fe)
    ensures Mul(a, Add(b, c)) == Add(Mul(a, b), Mul(a, c))
  {
    hide Mul, Add, Reduce;
    AddIsReduce(b, c);
    MulIsReduce(a, b);
    MulIsReduce(a, c);
    ReduceFe(a);
    MulReduce(a, b + c);
    AddReduce(a * b, a * c);
    IntDistrib(a, b, c);
  }

  lemma IntDistribSub(a: int, b: int, c: int)
    ensures a * (b - c) == a * b - a * c
  {
  }

  lemma DistribSub(a: Fe, b: Fe, c: Fe)
    ensures Mul(a, Sub(b, c)) == Sub(Mul(a, b), Mul(a, c))
  {
    hide Mul, Sub, Reduce;
    SubIsReduce(b, c);
    MulIsReduce(a, b);
    MulIsReduce(a, c);
    ReduceFe(a);
    MulReduce(a, b - c);
    SubReduce(a * b, a * c);
    IntDistribSub(a, b, c);
  }

  /** Subtraction from a fixed value is injective. */
  lemma SubInjective(u: Fe, v: Fe, w: Fe)
    ensures Sub(u, v) == Sub(u, w) <==> v == w
  {
    hide Sub;
    SubValue(u, v);
    SubValue(u, w);
  }

  /** The canonical residue of a difference of two residues. */
  lemma SubValue(u: Fe, v: Fe)
    ensures Sub(u, v) == if u >= v then u - v else u - v + P
  {
    if u >= v {
      DivModUnique(P, u - v, 0, u - v);
    } else {
      DivModUnique(P, u - v, -1, u - v + P);
    }
  }

  lemma MulOneRight(a: Fe)
    ensures Mul(a, 1) == a
  {
    MulIsReduce(a, 1);
  }

  lemma MulZeroRight(a: Fe)
    ensures Mul(a, 0) == 0
  {
    MulIsReduce(a, 0);
  }

  /** Regrouping a sum of four terms. */
  lemma AddSwapMiddle(a: Fe, b: Fe, c: Fe, d: Fe)
    ensures Add(Add(a, b), Add(c, d)) == Add(Add(a, c), Add(b, d))
  {
    hide Add;
    AddAssoc(a, b, Add(c, d));
    AddAssoc(b, c, d);
    AddComm(b, c);
    AddAssoc(c, b, d);
    AddAssoc(a, c, Add(b, d));
  }

  lemma MulLeftComm(a: Fe, b: Fe, c: Fe)
    ensures Mul(a, Mul(b, c)) == Mul(b, Mul(a, c))
  {
    hide Mul;
    MulAssoc(a, b, c);
    MulComm(a, b);
    MulAssoc(b, a, c);
  }

  lemma DistribRight(a: Fe, b: Fe, c: Fe)
    ensures Mul(Add(a, b), c) == Add(Mul(a, c), Mul(b, c))
  {
    hide Mul, Add;
    MulComm(Add(a, b), c);
    Distrib(c, a, b);
    MulComm(c, a);
    MulComm(c, b);
  }

  lemma MulOneLeft(a: Fe)
    ensures Mul(1, a) == a
  {
    MulIsReduce(1, a);
  }

  lemma MulZeroLeft(a: Fe)
    ensures Mul(0, a) == 0
  {
    MulIsReduce(0, a);
  }

  lemma AddZeroLeft(a: Fe)
    ensures Add(0, a) == a
  {
    AddIsReduce(0, a);
  }

  lemma AddZeroRight(a: Fe)
    ensures Add(a, 0) == a
  {
    AddIsReduce(a, 0);
  }

  /** x^(m+n) = x^m * x^n. */
  lemma {:induction false} PowAdd(a: Fe, m: nat, n: nat)
    ensures Pow(a, m + n) == Mul(Pow(a, m), Pow(a, n))
    decreases m
  {
    hide Mul;
    if m == 0 {
      MulComm(1, Pow(a, n));
      MulOneRight(Pow(a, n));
    } else {
      calc {
        Pow(a, m + n);
        Mul(a, Pow(a, (m - 1) + n));
        { PowAdd(a, m - 1, n); }
        Mul(a, Mul(Pow(a, m - 1), Pow(a, n)));
        { MulAssoc(a, Pow(a, m - 1), Pow(a, n)); }
        Mul(Mul(a, Pow(a, m - 1)), Pow(a, n));
        Mul(Pow(a, m), Pow(a, n));
      }
    }
  }

  /** Squaring twice is the fourth power; squaring then multiplying is the cube. */
  lemma SquarePowers(a: Fe)
    ensures Square(a) == Pow(a, 2)
    ensures Mul(Square(a), a) == Pow(a, 3)
    ensures Square(Square(a)) == Pow(a, 4)
    ensures Mul(Square(Square(a)), a) == Pow(a, 5)
  {
    hide Mul;
    assert Pow(a, 1) == a by { MulOneRight(a); }
    PowAdd(a, 2, 1);
    MulComm(Pow(a, 2), a);
    PowAdd(a, 2, 2);
    PowAdd(a, 4, 1);
    MulComm(Pow(a, 4), a);
  }

  // ---------------------------------------------------------------------
  // Inverses, by the extended Euclidean algorithm.
  // ---------------------------------------------------------------------

  /** Returns `(s, t, g)` with `s*a + t*b == g` and `g` a common divisor. */
  function Egcd(a: nat, b: nat): (r: (int, int, nat))
    ensures r.0 * a + r.1 * b == r.2
    ensures a > 0 || b > 0 ==> r.2 > 0 && a % r.2 == 0 && b % r.2 == 0
    decreases b
  {
    if b == 0 then (1, 0, a)
    else
      var rec := Egcd(b, a % b);
      EgcdStep(a, b, rec.0, rec.1, rec.2);
      (rec.1, rec.0 - (a / b) * rec.1, rec.2)
  }

  lemma EgcdStep(a: nat, b: nat, s: int, t: int, g: nat)
    requires b > 0
    requires s * b + t * (a % b) == g
    requires g > 0 ==> b % g == 0 && (a % b) % g == 0
    ensures t * a + (s - (a / b) * t) * b == g
    ensures g > 0 ==> a % g == 0
  {
    var q := a / b;
    assert a == q * b + a % b;
    assert t * a + (s - q * t) * b == s * b + t * (a - q * b);
    if g > 0 {
      var kb, km := b / g, (a % b) / g;
      assert b == kb * g;
      assert a % b == km * g;
      assert a == (q * kb + km) * g;
      MultipleOfDivisor(g, q * kb + km);
    }
  }

  /** `inverse()` of the source: `None` exactly when no inverse is found. */
  function Inverse(x: Fe): (r: Option<Fe>)
    ensures r.Some? ==> Mul(x, r.value) == 1
    ensures x == 0 ==> r.None?
  {
    var e := Egcd(x, P);
    if e.2 == 1 then
      InverseStep(x, e.0, e.1);
      Some(Reduce(e.0))
    else
      None
  }

  lemma InverseStep(x: Fe, s: int, t: int)
    requires s * x + t * P == 1
    ensures Mul(x, Reduce(s)) == 1
  {
    hide Mul, Reduce;
    ReduceFe(x);
    MulReduce(x, s);
    BezoutRearrange(x, s, t, P);
    ReduceShift(-t, 1);
    OneReduced();
  }

  lemma ReduceShift(k: int, z: int)
    ensures Reduce(k * P + z) == Reduce(z)
  {
    ModShift(P, k, z);
  }

  lemma OneReduced()
    ensures Reduce(1) == 1
  {
  }

  lemma BezoutRearrange(x: int, s: int, t: int, m: int)
    requires s * x + t * m == 1
    ensures x * s == (-t) * m + 1
  {
  }

  /** In a prime field every nonzero element has an inverse. */
  lemma InverseOfNonzero(x: Fe)
    requires IsPrime(P)
    requires x != 0
    ensures Inverse(x).Some?
  {
    var e := Egcd(x, P);
    var g := e.2;
    DivisorAtMost(g, x);
    if g != 1 {
      assert 1 < g < P;
      assert Divides(g, P);
      assert false;
    }
  }

  /** A prime field has no zero divisors. */
  lemma NonzeroProduct(a: Fe, b: Fe)
    requires IsPrime(P)
    requires a != 0 && b != 0
    ensures Mul(a, b) != 0
  {
    hide Add, Mul;
    InverseOfNonzero(a);
    var ia := Inverse(a).value;
    if Mul(a, b) == 0 {
      calc {
        b;
        { MulOneRight(b); MulComm(a, ia); }
        Mul(b, Mul(ia, a));
        { MulLeftComm(b, ia, a); }
        Mul(ia, Mul(b, a));
        { MulComm(b, a); }
        Mul(ia, 0);
        { MulZeroRight(ia); }
        0;
      }
      assert false;
    }
  }
}
