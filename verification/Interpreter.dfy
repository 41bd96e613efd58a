/**
 The reference interpreter's meaning of NIR.

 Runs are clocked: a backward jump and a call of a user function each use one tick, and a run
 whose clock is used up is `OutOfTime`.  A program terminates with a result when some clock gives
 that result, and diverges when every clock gives OutOfTime; a theorem that holds for every
 clock speaks about both.
 */
module Interpreter {
  import opened Basics
  import opened Values
  import opened Nir

  /** A call, of a user function or of the host, with its arguments. */
  datatype Event = Event(name: string, args: seq<Value>)

  type Trace = seq<Event>

  /**
   What a run depends on besides the program: the overflow switch, floating-point arithmetic, and the
   host, whose answer to a call (None is a failed call) may depend on every call made before.
   With `strict` set, reading a register that was never written is an error; the interpreter itself
   is not strict, and reads null.
   */
  datatype Machine = Machine(
    checked: bool,
    strict: bool,
    float: Floats,
    host: (Trace, Event) -> Option<Value>)

  type Vars = map<string, Value>
  type Regs = map<Reg, Value>

  /** What one instruction does once its operands are read. */
  datatype Effect =
    | Goto(pc: nat, result: Option<Value>, vars: Vars)
    | Finish(value: Value)
    | Fault(error: Error)
    | Invoke

  function Produce(pc: nat, r: Outcome, vars: Vars): Effect {
    match r
    case Ok(v) => Goto(pc + 1, Some(v), vars)
    case Err(e) => Fault(e)
  }

  function Act(m: Machine, i: Instr, pc: nat, vals: seq<Value>, vars: Vars): (e: Effect)
    requires |vals| == |i.Args()|
    ensures e.Goto? ==> (e.result.Some? <==> i.HasDest())
    ensures e.Invoke? <==> i.Call?
  {
    match i
    case Const(_, v) => Goto(pc + 1, Some(v), vars)
    case Load(_, x) => if x in vars then Goto(pc + 1, Some(vars[x]), vars) else Fault(UndefinedVariable(x))
    case Store(x, _) => Goto(pc + 1, None, vars[x := vals[0]])
    case Unary(_, op, _) => Produce(pc, UnaryOp(m.float, m.checked, op, vals[0]), vars)
    case Binary(_, op, _, _) => Produce(pc, BinaryOp(m.float, m.checked, op, vals[0], vals[1]), vars)
    case Cast(_, t, _) => Produce(pc, CastValue(m.float, t, vals[0]), vars)
    case Call(_, _, _) => Invoke
    case CheckNonNull(_) =>
      (match AsInt(vals[0])
       case Err(e) => Fault(e)
       case Ok(n) => if n == 0 then Fault(NullAccess) else Goto(pc + 1, None, vars))
    case CheckBounds(_, _) =>
      (match (AsInt(vals[0]), AsInt(vals[1]))
       case (Err(e), _) => Fault(e)
       case (_, Err(e)) => Fault(e)
       case (Ok(index), Ok(length)) =>
         if index < 0 || length < 0 || index >= length then Fault(OutOfBounds(index, length))
         else Goto(pc + 1, None, vars))
    case Try(_, _) =>
      (match AsInt(vals[0])
       case Err(e) => Fault(e)
       case Ok(n) => if n < 0 then Finish(Int(n)) else Goto(pc + 1, Some(Int(n)), vars))
    case Throw(_) =>
      (match AsInt(vals[0]) case Err(e) => Fault(e) case Ok(n) => Finish(Int(ThrownCode(n))))
    case Jump(t) => Goto(t, None, vars)
    case JumpIfFalse(_, t) => Goto(if Truthy(m.float, vals[0]) then pc + 1 else t, None, vars)
    case Return(v) => Finish(if v.Some? then vals[0] else Null)
    case Nop => Goto(pc + 1, None, vars)
  }

  /** Reads a register; one that was never written holds null. */
  function Get(m: Machine, nextReg: nat, regs: Regs, r: Reg): Outcome {
    if r >= nextReg then Err(InvalidRegister)
    else if r in regs then Ok(regs[r])
    else if m.strict then Err(UnwrittenRegister)
    else Ok(Null)
  }

  function GetAll(m: Machine, nextReg: nat, regs: Regs, args: seq<Reg>): (r: Result<seq<Value>, Error>)
    ensures r.Ok? ==> |r.value| == |args|
    ensures r.Ok? ==> forall k :: 0 <= k < |args| ==> Get(m, nextReg, regs, args[k]) == Ok(r.value[k])
  {
    if args == [] then Ok([])
    else
      match Get(m, nextReg, regs, args[0])
      case Err(e) => Err(e)
      case Ok(v) =>
        match GetAll(m, nextReg, regs, args[1..])
        case Err(e) => Err(e)
        case Ok(vs) => Ok([v] + vs)
  }

  datatype FnResult =
    | Done(value: Value, vars: Vars, trace: Trace, clock: nat)
    | Failed(error: Error, trace: Trace)
    | OutOfTime(trace: Trace)

  /** Parameters take the arguments in order; arguments or parameters left over are ignored. */
  function Bind(params: seq<string>, args: seq<Value>): Vars {
    if params == [] || args == [] then map[]
    else
      var n := if |params| < |args| then |params| else |args|;
      Bind(params[..n - 1], args[..n - 1])[params[n - 1] := args[n - 1]]
  }

  function RunFunction(m: Machine, p: Program, fn: Function, args: seq<Value>, trace: Trace, clock: nat): (r: FnResult)
    ensures r.Done? ==> r.clock <= clock
    decreases clock, |fn.code| + 1
  {
    if fn.isExtern then Failed(ExternFunction(fn.name), trace)
    else Run(m, p, fn, 0, map[], Bind(fn.params, args), trace, clock)
  }

  function Run(m: Machine, p: Program, fn: Function, pc: nat, regs: Regs, vars: Vars, trace: Trace, clock: nat)
    : (r: FnResult)
    ensures r.Done? ==> r.clock <= clock
    decreases clock, if pc < |fn.code| then |fn.code| - pc else 0
  {
    if pc >= |fn.code| then Done(Null, vars, trace, clock)
    else
      match GetAll(m, fn.nextReg, regs, fn.code[pc].Args())
      case Err(e) => Failed(e, trace)
      case Ok(vals) =>
        match Act(m, fn.code[pc], pc, vals, vars)
        case Fault(e) => Failed(e, trace)
        case Finish(v) => Done(v, vars, trace, clock)
        case Goto(next, result, vars') =>
          var regs' := if result.Some? then regs[fn.code[pc].dest := result.value] else regs;
          if next > pc then Run(m, p, fn, next, regs', vars', trace, clock)
          else if clock == 0 then OutOfTime(trace)
          else Run(m, p, fn, next, regs', vars', trace, clock - 1)
        case Invoke =>
          match CallOut(m, p, fn.code[pc].callee, vals, trace, clock)
          case Done(v, _, trace', clock') =>
            Run(m, p, fn, pc + 1, regs[fn.code[pc].dest := v], vars, trace', clock')
          case other => other
  }

  /** A call: the user function of that name if there is one, the host otherwise. */
  function CallOut(m: Machine, p: Program, name: string, args: seq<Value>, trace: Trace, clock: nat): (r: FnResult)
    ensures r.Done? ==> r.clock <= clock
    decreases clock, 0
  {
    var called := trace + [Event(name, args)];
    match FindUser(p.functions, name)
    case Some(i) =>
      if clock == 0 then OutOfTime(called)
      else RunFunction(m, p, p.functions[i], args, called, clock - 1)
    case None =>
      match m.host(trace, Event(name, args))
      case Some(v) => Done(v, map[], called, clock)
      case None => Failed(CallFailed(name), called)
  }

  /** A call never gains ticks. */
  lemma CallEnds(m: Machine, p: Program, name: string, args: seq<Value>, trace: Trace, clock: nat)
    ensures var c := CallOut(m, p, name, args, trace, clock); c.Done? ==> c.clock <= clock
  {
  }

  /** The interpreter's loop computes exactly the recursive meaning above. */
  method Interpret(m: Machine, p: Program, fn: Function, args: seq<Value>, start: Trace, ticks: nat)
    returns (r: FnResult)
    ensures r == RunFunction(m, p, fn, args, start, ticks)
    decreases ticks
  {
    hide Act, GetAll, Bind, FindUser;
    if fn.isExtern { return Failed(ExternFunction(fn.name), start); }
    var vars := BindParameters(fn.params, args);
    var regs: Regs := map[];
    var pc, trace := 0, start;
    var clock: nat := ticks;
    while pc < |fn.code|
      invariant clock <= ticks
      invariant RunFunction(m, p, fn, args, start, ticks) == Run(m, p, fn, pc, regs, vars, trace, clock)
      decreases clock, if pc < |fn.code| then |fn.code| - pc else 0
    {
      var i := fn.code[pc];
      var vals := GetAll(m, fn.nextReg, regs, i.Args());
      if vals.Err? { return Failed(vals.error, trace); }
      match Act(m, i, pc, vals.value, vars)
      case Fault(e) => return Failed(e, trace);
      case Finish(v) => return Done(v, vars, trace, clock);
      case Goto(next, result, vars') =>
        if next <= pc {
          if clock == 0 { return OutOfTime(trace); }
          clock := clock - 1;
        }
        if result.Some? { regs := regs[i.dest := result.value]; }
        vars, pc := vars', next;
      case Invoke =>
        var user := FindUser(p.functions, i.callee);
        var event := Event(i.callee, vals.value);
        var answer: FnResult;
        if user.Some? {
          if clock == 0 { return OutOfTime(trace + [event]); }
          answer := Interpret(m, p, p.functions[user.value], vals.value, trace + [event], clock - 1);
        } else {
          var reply := m.host(trace, event);
          answer := if reply.Some? then Done(reply.value, map[], trace + [event], clock)
                    else Failed(CallFailed(i.callee), trace + [event]);
        }
        if !answer.Done? { return answer; }
        regs, trace, clock, pc := regs[i.dest := answer.value], answer.trace, answer.clock, pc + 1;
    }
    return Done(Null, vars, trace, clock);
  }

  method BindParameters(params: seq<string>, args: seq<Value>) returns (vars: Vars)
    ensures vars == Bind(params, args)
  {
    vars := map[];
    var i := 0;
    assert params[..0] == [];
    while i < |params| && i < |args|
      invariant i <= |params| && i <= |args|
      invariant vars == Bind(params[..i], args[..i])
    {
      vars := vars[params[i] := args[i]];
      assert params[..i + 1][..i] == params[..i] && args[..i + 1][..i] == args[..i];
      i := i + 1;
    }
    assert Bind(params[..i], args[..i]) == Bind(params, args) by {
      if i > 0 {
        assert params[..i][..i - 1] == params[..i - 1] && args[..i][..i - 1] == args[..i - 1];
      }
    }
  }
}
