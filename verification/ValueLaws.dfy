/**
 Laws of the operators that source evaluation, interpreter and folding share, and what they say of runs of lowered
 code: comparison by the sign of the difference, arithmetic by the integers, truth by the false values.
 */
module ValueLaws {
  import opened Basics
  import opened Int64
  import opened Values
  import opened Nir
  import opened Interpreter
  import opened Lowering
  import opened LoweringMeaning
  import S = Source

  // ----- comparison -----

  /** `a op b` on integers, as a truth value. */
  ghost predicate Holds(f: Floats, checked: bool, op: BinOp, a: i64, b: i64) {
    BinaryOp(f, checked, op, Int(a), Int(b)) == Ok(Bool(true))
  }

  ghost predicate Fails(f: Floats, checked: bool, op: BinOp, a: i64, b: i64) {
    BinaryOp(f, checked, op, Int(a), Int(b)) == Ok(Bool(false))
  }

  /** Integers are compared by the sign of their difference. */
  lemma ComparesBySign(f: Floats, checked: bool, a: i64, b: i64)
    ensures if a - b < 0 then Holds(f, checked, Lt, a, b) else Fails(f, checked, Lt, a, b)
    ensures if b - a < 0 then Holds(f, checked, Gt, a, b) else Fails(f, checked, Gt, a, b)
    ensures if a - b == 0 then Holds(f, checked, Eq, a, b) else Fails(f, checked, Eq, a, b)
    ensures Holds(f, checked, Le, a, b) <==> Holds(f, checked, Lt, a, b) || Holds(f, checked, Eq, a, b)
    ensures Fails(f, checked, Le, a, b) <==> Holds(f, checked, Gt, a, b)
    ensures Holds(f, checked, Ge, a, b) <==> Fails(f, checked, Lt, a, b)
    ensures Fails(f, checked, Ge, a, b) <==> Holds(f, checked, Lt, a, b)
    ensures Holds(f, checked, Ne, a, b) <==> Fails(f, checked, Eq, a, b)
    ensures Fails(f, checked, Ne, a, b) <==> Holds(f, checked, Eq, a, b)
  {
  }

  /** Doubles are compared as the floating-point unit does, integers among them as doubles. */
  lemma ComparesDoubles(f: Floats, checked: bool, op: BinOp, d: Double, e: Double, i: i64)
    requires IsComparison(op)
    ensures BinaryOp(f, checked, op, Dbl(d), Dbl(e)) == Ok(Bool(f.compare(op, d, e)))
    ensures BinaryOp(f, checked, op, Int(i), Dbl(e)) == BinaryOp(f, checked, op, Dbl(f.ofInt(i)), Dbl(e))
    ensures BinaryOp(f, checked, op, Dbl(d), Int(i)) == BinaryOp(f, checked, op, Dbl(d), Dbl(f.ofInt(i)))
  {
  }

  // ----- arithmetic -----

  /** The integer an operator stands for; division and remainder go towards zero. */
  ghost function Exact(op: BinOp, a: int, b: int): int
    requires op in {Add, Sub, Mul, Div, Mod} && (op in {Div, Mod} ==> b != 0)
  {
    if op.Add? then a + b else if op.Sub? then a - b else if op.Mul? then a * b else if op.Div? then TruncDiv(a, b) else TruncMod(a, b)
  }

  /** Checked arithmetic gives that integer or, where it is none of int64, an error; the other arithmetic wraps. */
  lemma ComputesExactly(f: Floats, op: BinOp, a: i64, b: i64)
    requires op in {Add, Sub, Mul, Div, Mod} && (op in {Div, Mod} ==> b != 0)
    ensures BinaryOp(f, true, op, Int(a), Int(b)) ==
            if op.Mod? || InRange(Exact(op, a, b)) then Ok(Int(Exact(op, a, b))) else Err(Arith(Overflow))
    ensures var r := BinaryOp(f, false, op, Int(a), Int(b));
            r.Ok? && r.value.Int? && Congruent(r.value.i, Exact(op, a, b))
  {
    hide TruncDiv, TruncMod;
  }

  lemma DividesByZero(f: Floats, checked: bool, a: i64)
    ensures BinaryOp(f, checked, Div, Int(a), Int(0)) == Err(Arith(DivisionByZero))
    ensures BinaryOp(f, checked, Mod, Int(a), Int(0)) == Err(Arith(RemainderByZero))
  {
  }

  /** Doubles go to the floating-point unit, integers beside them as doubles; they have no remainder. */
  lemma ComputesDoubles(f: Floats, checked: bool, op: BinOp, d: Double, e: Double, i: i64)
    requires op in {Add, Sub, Mul, Div}
    ensures BinaryOp(f, checked, op, Dbl(d), Dbl(e)) == Ok(Dbl(f.arith(op, d, e)))
    ensures BinaryOp(f, checked, op, Int(i), Dbl(e)) == BinaryOp(f, checked, op, Dbl(f.ofInt(i)), Dbl(e))
    ensures BinaryOp(f, checked, op, Dbl(d), Int(i)) == BinaryOp(f, checked, op, Dbl(d), Dbl(f.ofInt(i)))
  {
  }

  // ----- text -----

  /** The sum of two texts begins with the left one and ends with the right one. */
  lemma JoinsTexts(f: Floats, checked: bool, s: string, t: string)
    ensures var r := BinaryOp(f, checked, Add, Str(s), Str(t));
            && r.Ok? && r.value.Str? && |r.value.s| == |s| + |t|
            && s <= r.value.s && r.value.s[|s|..] == t
    ensures BinaryOp(f, checked, Eq, Str(s), Str(t)) == Ok(Bool(s == t))
    ensures BinaryOp(f, checked, Ne, Str(s), Str(t)) == Ok(Bool(s != t))
  {
  }

  // ----- truth -----

  /** The false values: null, zero, the false truth value and the empty text. */
  lemma FalseValues(f: Floats, v: Value)
    ensures !Truthy(f, v) <==> v in {Null, Int(0), Bool(false), Str("")} || (v.Dbl? && f.isZero(v.d))
  {
  }

  lemma LogicByTruth(f: Floats, checked: bool, a: Value, b: Value)
    ensures BinaryOp(f, checked, And, a, b) == Ok(Bool(Truthy(f, a) && Truthy(f, b)))
    ensures BinaryOp(f, checked, Or, a, b) == Ok(Bool(Truthy(f, a) || Truthy(f, b)))
    ensures UnaryOp(f, checked, Not, a) == Ok(Bool(false)) <==> Truthy(f, a)
    ensures UnaryOp(f, checked, Not, a) == Ok(Bool(true)) <==> !Truthy(f, a)
  {
  }

  // ----- what is an error -----

  /** The operators that have a result on two values of these kinds. */
  predicate Supported(op: BinOp, a: Value, b: Value) {
    || op in {And, Or}
    || (IsNumber(a) && IsNumber(b) && !op.Mod?)
    || (a.Int? && b.Int?)
    || (a.Str? && b.Str? && op in {Add, Eq, Ne})
  }

  /** Every other combination is an error that names the operator. */
  lemma UnsupportedIff(f: Floats, checked: bool, op: BinOp, a: Value, b: Value)
    ensures BinaryOp(f, checked, op, a, b) == Err(UnsupportedBinary(op)) <==> !Supported(op, a, b)
    ensures BinaryOp(f, checked, op, a, b).Err? && Supported(op, a, b) ==> a.Int? && b.Int?
  {
  }

  /** Negation is subtraction from zero on integers; on doubles it is the unit's; nothing else has one. */
  lemma Negates(f: Floats, checked: bool, v: Value)
    ensures v.Int? ==> UnaryOp(f, checked, Negate, v) == BinaryOp(f, checked, Sub, Int(0), v)
    ensures v.Dbl? ==> UnaryOp(f, checked, Negate, v) == Ok(Dbl(f.negate(v.d)))
    ensures !IsNumber(v) ==> UnaryOp(f, checked, Negate, v) == Err(NumberRequired)
    ensures UnaryOp(f, checked, Keep, v) == Ok(v)
  {
    if v.Int? && !checked { CongruentInRangeIsEqual(NegateInt(false, v.i).value, SubInt(false, 0, v.i).value); }
  }

  // ----- casts -----

  predicate NamesInteger(t: string) {
    || (t != "" && t[0] == '*')
    || t in {"int", "int64", "isize", "usize", "i8", "i16", "i32", "i64", "u8", "u16", "u32", "u64"}
  }

  predicate NamesFloat(t: string) {
    t in {"float", "float64"}
  }

  /** A cast to an integer type gives an integer without narrowing it, one to a float type a double; others change nothing. */
  lemma CastsByName(f: Floats, t: string, v: Value)
    ensures NamesInteger(t) ==>
      CastValue(f, t, v) == match v
                            case Int(_) => Ok(v)
                            case Bool(b) => Ok(Int(if b then 1 else 0))
                            case Null => Ok(Int(0))
                            case _ => Err(IntegerRequired)
    ensures NamesFloat(t) ==>
      CastValue(f, t, v) == match v case Dbl(_) => Ok(v) case Int(i) => Ok(Dbl(f.ofInt(i))) case _ => Err(NumberRequired)
    ensures !NamesInteger(t) && !NamesFloat(t) ==> CastValue(f, t, v) == Ok(v)
  {
    assert "*" <= t <==> t != "" && t[0] == '*';
  }

  // ----- checks -----

  /** The checked registers hold these integers. */
  ghost predicate HoldInts(m: Machine, nextReg: nat, regs: Regs, a: Reg, x: i64, b: Reg, n: i64) {
    Get(m, nextReg, regs, a) == Ok(Int(x)) && Get(m, nextReg, regs, b) == Ok(Int(n))
  }

  /** A null check passes every integer but zero; a bounds check, exactly the indices from zero to below the length. */
  lemma ChecksPassIff(m: Machine, nextReg: nat, regs: Regs, pc: nat, vars: Vars, a: Reg, x: i64, b: Reg, n: i64)
    requires HoldInts(m, nextReg, regs, a, x, b, n)
    ensures var vals := GetAll(m, nextReg, regs, CheckNonNull(a).Args());
            vals.Ok? && Act(m, CheckNonNull(a), pc, vals.value, vars) == if x == 0 then Fault(NullAccess) else Goto(pc + 1, None, vars)
    ensures var vals := GetAll(m, nextReg, regs, CheckBounds(a, b).Args());
            vals.Ok? && Act(m, CheckBounds(a, b), pc, vals.value, vars) ==
                        if 0 <= x && x - n < 0 then Goto(pc + 1, None, vars) else Fault(OutOfBounds(x, n))
  {
    assert [a, b][1..] == [b] && [b][1..] == [] && [a][1..] == [];
  }

  // ----- calls -----

  ghost predicate LastNamed(params: seq<string>, args: seq<Value>, k: nat, x: string)
    requires k < |params| && k < |args|
  {
    params[k] == x && forall j :: k < j < |params| && j < |args| ==> params[j] != x
  }

  /** Parameters get the arguments by position; where a name is repeated the last one counts. */
  lemma {:induction false} BindsByPosition(params: seq<string>, args: seq<Value>, x: string)
    ensures x in Bind(params, args) <==> exists k :: 0 <= k < |params| && k < |args| && params[k] == x
    ensures forall k :: 0 <= k < |params| && k < |args| && LastNamed(params, args, k, x) ==> Bind(params, args)[x] == args[k]
    decreases |params|
  {
    if params != [] && args != [] {
      var n := if |params| < |args| then |params| else |args|;
      BindsByPosition(params[..n - 1], args[..n - 1], x);
      if params[n - 1] != x {
        forall k | 0 <= k < n && params[k] == x ensures params[..n - 1][k] == x && args[..n - 1][k] == args[k] { }
      }
    }
  }

  // ----- runs -----

  /** A function of two parameters that returns one operator's result. */
  function Operation(op: BinOp): S.Function {
    S.Function("f", ["a", "b"], [S.Return(S.Binary(S.Name("a"), op, S.Name("b")))], false)
  }

  lemma OperationMeaning(m: Machine, sp: S.Program, op: BinOp, a: Value, b: Value, trace: Trace, clock: nat)
    requires !op.And? && !op.Or?
    ensures var r := S.RunSource(m, false, sp, Operation(op), [a, b], trace, clock);
            match BinaryOp(m.float, m.checked, op, a, b)
            case Ok(v) => r.Done? && r.value == v && r.trace == trace && r.clock == clock
            case Err(e) => r == Failed(e, trace)
  {
    hide BinaryOp;
    var vars := Bind(["a", "b"], [a, b]);
    assert vars["a"] == a && vars["b"] == b by { TwoBound(a, b); }
    var st := S.State([vars], trace, clock);
    assert S.Eval(m, false, sp, S.Name("a"), st) == S.Next(a, st);
    assert S.Eval(m, false, sp, S.Name("b"), st) == S.Next(b, st);
    var e := S.Binary(S.Name("a"), op, S.Name("b"));
    assert S.Eval(m, false, sp, e, st) == S.Yield(BinaryOp(m.float, m.checked, op, a, b), st);
    assert S.ExecAll(m, false, sp, [S.Return(e)], st) == S.Exec(m, false, sp, S.Return(e), st);
  }

  lemma TwoBound(a: Value, b: Value)
    ensures Bind(["a", "b"], [a, b]) == map["a" := a, "b" := b]
  {
    assert ["a", "b"][..1] == ["a"] && [a, b][..1] == [a] && ["a"][..0] == [] && [a][..0] == [];
    assert Bind(["a"], [a]) == map["a" := a];
  }

  /** The lowered function computes the operator: `a <= b` is true exactly if `b - a` is not negative. */
  lemma LoweredOperation(m: Machine, op: BinOp, a: Value, b: Value, trace: Trace, clock: nat)
    requires !op.And? && !op.Or?
    ensures var sp := [S.FunctionDecl(Operation(op))];
            |LowerProgram(sp).functions| == 1 &&
            var r := RunFunction(m, LowerProgram(sp), LowerProgram(sp).functions[0], [a, b], trace, clock);
            match BinaryOp(m.float, m.checked, op, a, b)
            case Ok(v) => r.Done? && r.value == v && r.trace == trace && r.clock == clock
            case Err(e) => r == Failed(e, trace)
  {
    var sp: S.Program := [S.FunctionDecl(Operation(op))];
    assert S.Functions(sp) == [Operation(op)] && S.Entry(sp) == [] by { assert sp[1..] == []; }
    assert S.UserProgram(sp);
    hide BinaryOp, LowerProgram, RunFunction;
    FunctionLoweringPreservesMeaning(m, sp, 0, [a, b], trace, clock);
    OperationMeaning(m, sp, op, a, b, trace, clock);
    hide S.RunSource;
  }

  /** A lowered comparison returns true exactly by the sign of the difference. */
  lemma LoweredComparison(m: Machine, op: BinOp, a: i64, b: i64, trace: Trace, clock: nat)
    requires IsComparison(op)
    ensures var sp := [S.FunctionDecl(Operation(op))];
            |LowerProgram(sp).functions| == 1 &&
            var r := RunFunction(m, LowerProgram(sp), LowerProgram(sp).functions[0], [Int(a), Int(b)], trace, clock);
            var truth := match op
                         case Lt => a - b < 0 case Le => b - a >= 0 case Gt => b - a < 0 case Ge => a - b >= 0
                         case Eq => a - b == 0 case _ => a - b != 0;
            r.Done? && r.value == Bool(truth)
  {
    hide LowerProgram, RunFunction;
    LoweredOperation(m, op, Int(a), Int(b), trace, clock);
    ComparesBySign(m.float, m.checked, a, b);
  }
}
