/**
 The interpreter's 64-bit integer helpers: wrapping by default, exact-or-trap when
 NOQERI_CHECKED_OVERFLOW is on.  `checked` stands for that switch.
 */
module Int64 {
  import opened Basics

  const MIN: int := -0x8000_0000_0000_0000
  const MAX: int := 0x7fff_ffff_ffff_ffff
  const TWO64: int := 0x1_0000_0000_0000_0000

  type i64 = x: int | MIN <= x <= MAX
  type u64 = x: int | 0 <= x < TWO64

  datatype ArithError = Overflow | DivisionByZero | RemainderByZero

  predicate InRange(x: int) {
    MIN <= x <= MAX
  }

  /** Two integers that differ by a multiple of 2^64. */
  ghost predicate Congruent(x: int, y: int) {
    (x - y) % TWO64 == 0
  }

  /** static_cast<uint64_t> */
  function ToUnsigned(x: i64): (u: u64)
    ensures Congruent(u, x)
  {
    x % TWO64
  }

  /** Reinterprets the 64 bits as a signed number. */
  function Wrapped(u: u64): (x: i64)
    ensures Congruent(x, u)
  {
    if u <= MAX then u else u - TWO64
  }

  /** The range of int64 holds exactly one representative of each residue class. */
  lemma CongruentInRangeIsEqual(x: i64, y: i64)
    requires Congruent(x, y)
    ensures x == y
  {
  }

  lemma CongruentSum(u: int, a: int, v: int, b: int)
    requires Congruent(u, a) && Congruent(v, b)
    ensures Congruent((u + v) % TWO64, a + b) && Congruent((u - v) % TWO64, a - b)
  {
    var s, t := (u - a) / TWO64, (v - b) / TWO64;
    assert u == a + s * TWO64 && v == b + t * TWO64;
    MultipleApart(u + v, a + b, s + t);
    MultipleApart(u - v, a - b, s - t);
  }

  lemma MultipleApart(x: int, y: int, k: int)
    requires x == y + k * TWO64
    ensures Congruent(x % TWO64, y)
  {
  }

  /** Reads a sum or difference, taken modulo 2^64, as a signed number. */
  function WrappedSum(x: int, ghost exact: int): (r: i64)
    requires Congruent(x % TWO64, exact)
    ensures Congruent(r, exact)
  {
    CongruentTransitive(Wrapped(x % TWO64), x % TWO64, exact);
    Wrapped(x % TWO64)
  }

  function AddInt(checked: bool, a: i64, b: i64): (r: Result<i64, ArithError>)
    ensures checked ==> r == if InRange(a + b) then Ok(a + b) else Err(Overflow)
    ensures !checked ==> r.Ok? && Congruent(r.value, a + b)
  {
    if checked then
      if (b > 0 && a > MAX - b) || (b < 0 && a < MIN - b) then Err(Overflow) else Ok(a + b)
    else
      CongruentSum(ToUnsigned(a), a, ToUnsigned(b), b);
      Ok(WrappedSum(ToUnsigned(a) + ToUnsigned(b), a + b))
  }

  function SubInt(checked: bool, a: i64, b: i64): (r: Result<i64, ArithError>)
    ensures checked ==> r == if InRange(a - b) then Ok(a - b) else Err(Overflow)
    ensures !checked ==> r.Ok? && Congruent(r.value, a - b)
  {
    if checked then
      if (b < 0 && a > MAX + b) || (b > 0 && a < MIN + b) then Err(Overflow) else Ok(a - b)
    else
      CongruentSum(ToUnsigned(a), a, ToUnsigned(b), b);
      Ok(WrappedSum(ToUnsigned(a) - ToUnsigned(b), a - b))
  }

  /** Division as C++ does it: the quotient is truncated towards zero. */
  function TruncDiv(a: int, b: int): int
    requires b != 0
  {
    if a >= 0 then
      if b > 0 then a / b else -(a / -b)
    else
      if b > 0 then -(-a / b) else -a / -b
  }

  function TruncMod(a: int, b: int): int
    requires b != 0
  {
    a - b * TruncDiv(a, b)
  }

  ghost function Abs(x: int): nat {
    if x < 0 then -x else x
  }

  lemma FloorBounds(x: int, y: int)
    requires y > 0
    ensures y * (x / y) <= x < y * (x / y) + y
    ensures x >= 0 ==> y * (x / y) >= 0
  {
  }

  /** The product of divisor and truncated quotient, by sign of the dividend. */
  lemma TruncDivProduct(a: int, b: int)
    requires b != 0
    ensures b * TruncDiv(a, b) == if a >= 0 then Abs(b) * (Abs(a) / Abs(b)) else -(Abs(b) * (Abs(a) / Abs(b)))
  {
    var q := Abs(a) / Abs(b);
    assert TruncDiv(a, b) == if (a >= 0) == (b > 0) then q else -q;
    NegatedProduct(b, q);
  }

  lemma NegatedProduct(b: int, q: int)
    ensures b * -q == -(b * q) == -b * q
  {
  }

  /** The defining property of truncating division: the remainder is smaller than the divisor
      and carries the dividend's sign. */
  lemma TruncDivMeaning(a: int, b: int)
    requires b != 0
    ensures a == b * TruncDiv(a, b) + TruncMod(a, b)
    ensures Abs(TruncMod(a, b)) < Abs(b)
    ensures TruncMod(a, b) == 0 || (TruncMod(a, b) > 0 <==> a > 0)
  {
    TruncDivProduct(a, b);
    FloorBounds(Abs(a), Abs(b));
    var d, p := Abs(b), Abs(b) * (Abs(a) / Abs(b));
    RemainderSign(a, d, p, TruncMod(a, b));
  }

  lemma RemainderSign(a: int, d: nat, p: int, r: int)
    requires 0 <= p <= Abs(a) < p + d
    requires r == if a >= 0 then a - p else a + p
    ensures Abs(r) < d
    ensures r == 0 || (r > 0 <==> a > 0)
  {
  }

  lemma MulMonotone(x: int, y: int, k: int)
    requires x <= y && k >= 0
    ensures x * k <= y * k
  {
  }

  /** Comparing with a truncated quotient decides a product bound (dividend >= 0, divisor > 0). */
  lemma QuotientBound(a: int, b: int, m: int)
    requires b > 0
    ensures a > m / b <==> a * b > m
  {
    FloorBounds(m, b);
    var q := m / b;
    if a > q { MulMonotone(q + 1, a, b); } else { MulMonotone(a, q, b); }
  }

  function MulOverflows(a: i64, b: i64): (overflows: bool)
  {
    if a == 0 || b == 0 then false
    else if a == -1 then b == MIN
    else if b == -1 then a == MIN
    else if a > 0 then
      (if b > 0 then a > TruncDiv(MAX, b) else b < TruncDiv(MIN, a))
    else if b > 0 then a < TruncDiv(MIN, b)
    else a < TruncDiv(MAX, b)
  }

  /** The division-based test is exact: it fires if and only if the true product leaves int64. */
  lemma MulOverflowsIsExact(a: i64, b: i64)
    ensures MulOverflows(a, b) <==> !InRange(a * b)
  {
    if a > 0 && b > 0 {
      PositiveProduct(a, b);
      QuotientBound(a, b, MAX);
    } else if a > 0 && b < -1 {
      MixedSigns(a, b);
    } else if a < -1 && b > 0 {
      MixedSigns(b, a);
    } else if a < -1 && b < -1 {
      BothNegative(a, b);
    }
  }

  lemma MixedSigns(p: i64, n: i64)
    requires p > 0 && n < -1
    ensures n < TruncDiv(MIN, p) <==> !InRange(p * n)
  {
    var m := 0 - n;
    NegatedProduct(p, m);
    PositiveProduct(p, m);
    ProductCommutes(p, m);
    QuotientBound(m, p, -MIN);
  }

  lemma BothNegative(a: i64, b: i64)
    requires a < -1 && b < -1
    ensures a < TruncDiv(MAX, b) <==> !InRange(a * b)
  {
    var x, y := 0 - a, 0 - b;
    NegatedProduct(x, y);
    NegatedProduct(a, y);
    PositiveProduct(x, y);
    QuotientBound(x, y, MAX);
  }

  lemma ProductCommutes(a: int, b: int)
    ensures a * b == b * a
  {
  }

  lemma PositiveProduct(a: int, b: int)
    requires a > 0 && b > 0
    ensures a * b > 0
  {
  }

  lemma CongruentProduct(a: int, b: int, u: int, v: int)
    requires Congruent(u, a) && Congruent(v, b)
    ensures Congruent(u * v, a * b)
  {
    var s, t := (u - a) / TWO64, (v - b) / TWO64;
    assert u == a + s * TWO64 && v == b + t * TWO64;
    calc {
      u * v - a * b;
      (a + s * TWO64) * (b + t * TWO64) - a * b;
      (a * t + s * b + s * t * TWO64) * TWO64;
    }
    MultipleIsZero(a * t + s * b + s * t * TWO64);
  }

  lemma MultipleIsZero(k: int)
    ensures (k * TWO64) % TWO64 == 0
  {
  }

  lemma CongruentTransitive(x: int, y: int, z: int)
    requires Congruent(x, y) && Congruent(y, z)
    ensures Congruent(x, z)
  {
  }

  /** Multiplying the unsigned images modulo 2^64 and reading the result as signed. */
  function WrappedProduct(a: i64, b: i64): (r: i64)
    ensures Congruent(r, a * b)
  {
    var p := ToUnsigned(a) * ToUnsigned(b);
    CongruentProduct(a, b, ToUnsigned(a), ToUnsigned(b));
    CongruentRemainder(p);
    CongruentTransitive(p % TWO64, p, a * b);
    CongruentTransitive(Wrapped(p % TWO64), p % TWO64, a * b);
    Wrapped(p % TWO64)
  }

  lemma CongruentRemainder(p: int)
    ensures Congruent(p % TWO64, p)
  {
  }

  function MulInt(checked: bool, a: i64, b: i64): (r: Result<i64, ArithError>)
    ensures checked ==> r == if InRange(a * b) then Ok(a * b) else Err(Overflow)
    ensures !checked ==> r.Ok? && Congruent(r.value, a * b)
  {
    MulOverflowsIsExact(a, b);
    if checked && MulOverflows(a, b) then Err(Overflow)
    else if checked then Ok(a * b)
    else Ok(WrappedProduct(a, b))
  }

  /** A quotient is no larger than the dividend, and at most half of it unless the divisor is one. */
  lemma QuotientBounds(x: nat, y: nat)
    requires y > 0
    ensures 0 <= x / y <= x
    ensures y >= 2 ==> 2 * (x / y) <= x
  {
    FloorBounds(x, y);
    MulMonotone(1, y, x / y);
    if y >= 2 { MulMonotone(2, y, x / y); }
  }

  lemma QuotientInRange(a: i64, b: i64)
    requires b != 0 && !(a == MIN && b == -1)
    ensures InRange(TruncDiv(a, b))
    ensures InRange(TruncMod(a, b))
  {
    QuotientBounds(Abs(a), Abs(b));
    TruncDivMeaning(a, b);
    QuotientMagnitude(a, b);
  }

  lemma QuotientMagnitude(a: int, b: int)
    requires b != 0
    ensures TruncDiv(a, b) == if (a >= 0) == (b > 0) then Abs(a) / Abs(b) else -(Abs(a) / Abs(b))
  {
  }

  function DivInt(checked: bool, a: i64, b: i64): (r: Result<i64, ArithError>)
    ensures b == 0 ==> r == Err(DivisionByZero)
    ensures b != 0 && checked ==>
      r == if InRange(TruncDiv(a, b)) then Ok(TruncDiv(a, b)) else Err(Overflow)
    ensures b != 0 && !checked ==> r.Ok? && Congruent(r.value, TruncDiv(a, b))
  {
    if b == 0 then Err(DivisionByZero)
    else if a == MIN && b == -1 then (if checked then Err(Overflow) else Ok(a))
    else
      QuotientInRange(a, b);
      Ok(TruncDiv(a, b))
  }

  function ModInt(a: i64, b: i64): (r: Result<i64, ArithError>)
    ensures b == 0 ==> r == Err(RemainderByZero)
    ensures b != 0 ==> r == Ok(TruncMod(a, b))
  {
    if b == 0 then Err(RemainderByZero)
    else if a == MIN && b == -1 then Ok(0)
    else
      QuotientInRange(a, b);
      Ok(TruncMod(a, b))
  }

  function NegateInt(checked: bool, a: i64): (r: Result<i64, ArithError>)
    ensures checked ==> r == if InRange(0 - a) then Ok(0 - a) else Err(Overflow)
    ensures !checked ==> r.Ok? && Congruent(r.value, 0 - a)
  {
    if a == MIN then (if checked then Err(Overflow) else Ok(a)) else Ok(0 - a)
  }
}
