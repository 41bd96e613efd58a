/**
 Run-time values and the operators on them.  Floating-point numbers are opaque: a `Floats` record
 supplies their arithmetic, so every theorem holds whatever that arithmetic is.
 */
module Values {
  import opened Basics
  import opened Int64

  datatype Double = Bits(raw: nat)

  datatype Value = Null | Int(i: i64) | Dbl(d: Double) | Bool(b: bool) | Str(s: string)

  datatype BinOp = Add | Sub | Mul | Div | Mod | Eq | Ne | Lt | Le | Gt | Ge | And | Or

  datatype UnOp = Not | Negate | Keep

  datatype Floats = Floats(
    arith: (BinOp, Double, Double) -> Double,
    compare: (BinOp, Double, Double) -> bool,
    negate: Double -> Double,
    ofInt: i64 -> Double,
    isZero: Double -> bool)

  datatype Error =
    | Arith(arith: ArithError)
    | IntegerRequired
    | NumberRequired
    | UnsupportedBinary(op: BinOp)
    | UndefinedVariable(name: string)
    | CallFailed(name: string)
    | NullAccess
    | OutOfBounds(index: i64, length: i64)
    | InvalidRegister
    | UnwrittenRegister
    | ExternFunction(name: string)

  type Outcome = Result<Value, Error>

  function Truthy(f: Floats, v: Value): bool {
    match v
    case Null => false
    case Int(i) => i != 0
    case Dbl(d) => !f.isZero(d)
    case Bool(b) => b
    case Str(s) => s != ""
  }

  function AsInt(v: Value): Result<i64, Error> {
    match v
    case Int(i) => Ok(i)
    case Bool(b) => Ok(if b then 1 else 0)
    case Null => Ok(0)
    case _ => Err(IntegerRequired)
  }

  function AsDouble(f: Floats, v: Value): Result<Double, Error> {
    match v
    case Dbl(d) => Ok(d)
    case Int(i) => Ok(f.ofInt(i))
    case _ => Err(NumberRequired)
  }

  function Lift(r: Result<i64, ArithError>): Outcome {
    match r
    case Ok(x) => Ok(Int(x))
    case Err(e) => Err(Arith(e))
  }

  predicate IsComparison(op: BinOp) {
    op in {Eq, Ne, Lt, Le, Gt, Ge}
  }

  function CompareInts(op: BinOp, x: i64, y: i64): bool
    requires IsComparison(op)
  {
    match op
    case Eq => x == y
    case Ne => x != y
    case Lt => x < y
    case Le => x <= y
    case Gt => x > y
    case Ge => x >= y
  }

  predicate IsNumber(v: Value) {
    v.Int? || v.Dbl?
  }

  /** The interpreter's binary operator: integers first, then mixed numbers, strings and logic. */
  function BinaryOp(f: Floats, checked: bool, op: BinOp, a: Value, b: Value): Outcome {
    if a.Int? && b.Int? && op.Add? then Lift(AddInt(checked, a.i, b.i))
    else if a.Int? && b.Int? && op.Sub? then Lift(SubInt(checked, a.i, b.i))
    else if a.Int? && b.Int? && op.Mul? then Lift(MulInt(checked, a.i, b.i))
    else if a.Int? && b.Int? && op.Div? then Lift(DivInt(checked, a.i, b.i))
    else if a.Int? && b.Int? && op.Mod? then Lift(ModInt(a.i, b.i))
    else if a.Int? && b.Int? && IsComparison(op) then Ok(Bool(CompareInts(op, a.i, b.i)))
    else if IsNumber(a) && IsNumber(b) && op in {Add, Sub, Mul, Div} then
      Ok(Dbl(f.arith(op, AsDouble(f, a).value, AsDouble(f, b).value)))
    else if IsNumber(a) && IsNumber(b) && IsComparison(op) then
      Ok(Bool(f.compare(op, AsDouble(f, a).value, AsDouble(f, b).value)))
    else if a.Str? && b.Str? && op.Add? then Ok(Str(a.s + b.s))
    else if a.Str? && b.Str? && op.Eq? then Ok(Bool(a.s == b.s))
    else if a.Str? && b.Str? && op.Ne? then Ok(Bool(a.s != b.s))
    else if op.And? then Ok(Bool(Truthy(f, a) && Truthy(f, b)))
    else if op.Or? then Ok(Bool(Truthy(f, a) || Truthy(f, b)))
    else Err(UnsupportedBinary(op))
  }

  function UnaryOp(f: Floats, checked: bool, op: UnOp, v: Value): Outcome {
    match op
    case Not => Ok(Bool(!Truthy(f, v)))
    case Negate =>
      if v.Int? then Lift(NegateInt(checked, v.i))
      else (match AsDouble(f, v) case Ok(d) => Ok(Dbl(f.negate(d))) case Err(e) => Err(e))
    case Keep => Ok(v)
  }

  datatype CastKind = ToInteger | ToFloat | ToOther

  /** What a cast to the named type does to a value: pointers and all integer types convert to
      int64 without narrowing, the float types to double, everything else leaves it alone. */
  function CastKindOf(typeName: string): CastKind {
    if "*" <= typeName then ToInteger
    else if typeName in {"i8", "i16", "i32", "i64", "u8", "u16", "u32", "u64", "isize", "usize", "int", "int64"}
    then ToInteger
    else if typeName in {"float", "float64"} then ToFloat
    else ToOther
  }

  function CastValue(f: Floats, typeName: string, v: Value): Outcome {
    match CastKindOf(typeName)
    case ToFloat => (match AsDouble(f, v) case Ok(d) => Ok(Dbl(d)) case Err(e) => Err(e))
    case ToInteger => (match AsInt(v) case Ok(i) => Ok(Int(i)) case Err(e) => Err(e))
    case ToOther => Ok(v)
  }

  /** The code a `throw` returns: negative codes as they are, others below zero. */
  function ThrownCode(code: i64): (r: i64)
    ensures r < 0
  {
    if code < 0 then code else -(code + 1)
  }

  /** Two codes leave as the same value only if they are the same, or one is the other's complement. */
  lemma ThrownCodesCoincide(a: i64, b: i64)
    ensures ThrownCode(a) == ThrownCode(b) <==> a == b || a + b == -1
  {
  }
}
