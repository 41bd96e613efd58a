/**
 Lowering preserves meaning: for every clock, the interpreter on the lowered code and the flat
 big-step meaning of the source give the same value, calls, remaining clock and user variables, or
 the same error, or both run out of time.
 */
module LoweringMeaning {
  import opened Basics
  import opened Values
  import opened Nir
  import opened Interpreter
  import opened Lowering
  import S = Source

  /** The two tables hold the same user variables; the lowered code also has temporaries. */
  ghost predicate Agree(source: Vars, lowered: Vars) {
    forall x: string :: S.IsUserName(x) ==>
      (x in source <==> x in lowered) && (x in source ==> source[x] == lowered[x])
  }

  ghost predicate SameResult(source: FnResult, lowered: FnResult) {
    match source
    case Done(v, vars, trace, clock) =>
      lowered.Done? && lowered.value == v && lowered.trace == trace && lowered.clock == clock && Agree(vars, lowered.vars)
    case other => lowered == other
  }

  /** A point a run has reached. */
  datatype Point = Point(pc: nat, regs: Regs, vars: Vars, trace: Trace, clock: nat)

  ghost function From(m: Machine, p: Program, fn: Function, c: Point): FnResult {
    Run(m, p, fn, c.pc, c.regs, c.vars, c.trace, c.clock)
  }

  ghost predicate HasAt(code: seq<Instr>, at: nat, part: seq<Instr>) {
    at + |part| <= |code| && code[at..at + |part|] == part
  }

  lemma HasParts(code: seq<Instr>, at: nat, a: seq<Instr>, b: seq<Instr>)
    requires HasAt(code, at, a + b)
    ensures HasAt(code, at, a) && HasAt(code, at + |a|, b)
  {
    assert (a + b)[..|a|] == a && (a + b)[|a|..] == b;
  }

  ghost predicate Kept(before: Regs, after: Regs, limit: nat) {
    forall r :: r in before && r < limit ==> r in after && after[r] == before[r]
  }

  /** The run `whole` follows the source result `r`: it arrives at `c`, at index `pc`, or ends likewise. */
  ghost predicate Follows(m: Machine, p: Program, fn: Function, whole: FnResult, r: S.Result, c: Point, pc: nat) {
    match r
    case Next(_, st) =>
      && whole == From(m, p, fn, c) && c.pc == pc && c.trace == st.trace && c.clock == st.clock
      && |st.env| == 1 && Agree(st.env[0], c.vars)
    case Exit(v, st) => |st.env| == 1 && whole == Done(v, c.vars, st.trace, st.clock) && Agree(st.env[0], c.vars)
    case Fail(e, trace) => whole == Failed(e, trace)
    case Timeout(trace) => whole == OutOfTime(trace)
  }

  ghost predicate Holds(r: S.Result, c: Point, reg: Reg) {
    r.Next? ==> reg in c.regs && c.regs[reg] == r.value
  }

  lemma GetOne(m: Machine, n: nat, regs: Regs, r: Reg)
    requires r < n && r in regs
    ensures GetAll(m, n, regs, [r]) == Ok([regs[r]])
  {
    GetMany(m, n, regs, [r], [regs[r]]);
  }

  lemma GetTwo(m: Machine, n: nat, regs: Regs, r: Reg, s: Reg)
    requires r < n && r in regs && s < n && s in regs
    ensures GetAll(m, n, regs, [r, s]) == Ok([regs[r], regs[s]])
  {
    GetMany(m, n, regs, [r, s], [regs[r], regs[s]]);
  }

  lemma {:induction false} GetMany(m: Machine, n: nat, regs: Regs, rs: seq<Reg>, vs: seq<Value>)
    requires |rs| == |vs| && forall k :: 0 <= k < |rs| ==> rs[k] < n && rs[k] in regs && regs[rs[k]] == vs[k]
    ensures GetAll(m, n, regs, rs) == Ok(vs)
  {
    if rs != [] {
      GetMany(m, n, regs, rs[1..], vs[1..]);
      assert vs == [vs[0]] + vs[1..];
    }
  }

  /** The point after the instruction at `c` went on to `next` without using a tick. */
  ghost function After(c: Point, i: Instr, result: Option<Value>, vars: Vars, next: nat): Point
    requires result.Some? ==> i.HasDest()
  {
    c.(pc := next, vars := vars, regs := if result.Some? then c.regs[i.dest := result.value] else c.regs)
  }

  /** What the run from `c` comes to, when the instruction there has the effect `e`. */
  ghost predicate Stepped(m: Machine, p: Program, fn: Function, c: Point, i: Instr, e: Effect)
    requires e.Goto? ==> (e.result.Some? ==> i.HasDest())
  {
    match e
    case Goto(next, result, vars) =>
      next > c.pc ==> From(m, p, fn, c) == From(m, p, fn, After(c, i, result, vars, next))
    case Finish(v) => From(m, p, fn, c) == Done(v, c.vars, c.trace, c.clock)
    case Fault(err) => From(m, p, fn, c) == Failed(err, c.trace)
    case Invoke => true
  }

  lemma Steps(m: Machine, p: Program, fn: Function, c: Point, vals: seq<Value>)
    requires c.pc < |fn.code| && GetAll(m, fn.nextReg, c.regs, fn.code[c.pc].Args()) == Ok(vals)
    ensures Stepped(m, p, fn, c, fn.code[c.pc], Act(m, fn.code[c.pc], c.pc, vals, c.vars))
  {
  }

  /** Executes an instruction with one operand, held in a register. */
  lemma StepOne(m: Machine, p: Program, fn: Function, c: Point, i: Instr, r: Reg)
    requires c.pc < |fn.code| && fn.code[c.pc] == i && i.Args() == [r] && r < fn.nextReg && r in c.regs
    ensures Stepped(m, p, fn, c, i, Act(m, i, c.pc, [c.regs[r]], c.vars))
  {
    GetOne(m, fn.nextReg, c.regs, r);
    Steps(m, p, fn, c, [c.regs[r]]);
  }

  lemma StepLoad(m: Machine, p: Program, fn: Function, c: Point, dest: Reg, x: string)
    requires c.pc < |fn.code| && fn.code[c.pc] == Load(dest, x) && x in c.vars
    ensures From(m, p, fn, c) == From(m, p, fn, c.(pc := c.pc + 1, regs := c.regs[dest := c.vars[x]]))
  {
  }

  lemma StepStore(m: Machine, p: Program, fn: Function, c: Point, x: string, r: Reg)
    requires c.pc < |fn.code| && fn.code[c.pc] == Store(x, r) && r < fn.nextReg && r in c.regs
    ensures From(m, p, fn, c) == From(m, p, fn, c.(pc := c.pc + 1, vars := c.vars[x := c.regs[r]]))
  {
    StepOne(m, p, fn, c, Store(x, r), r);
  }

  lemma StepTest(m: Machine, p: Program, fn: Function, c: Point, r: Reg, target: nat)
    requires c.pc < |fn.code| && fn.code[c.pc] == JumpIfFalse(r, target) && r < fn.nextReg && r in c.regs
    requires c.pc < target
    ensures From(m, p, fn, c) == From(m, p, fn, c.(pc := if Truthy(m.float, c.regs[r]) then c.pc + 1 else target))
  {
    hide Run;
    var next := if Truthy(m.float, c.regs[r]) then c.pc + 1 else target;
    StepOne(m, p, fn, c, JumpIfFalse(r, target), r);
    assert Act(m, JumpIfFalse(r, target), c.pc, [c.regs[r]], c.vars) == Goto(next, None, c.vars);
  }

  lemma StepJump(m: Machine, p: Program, fn: Function, c: Point, target: nat)
    requires c.pc < |fn.code| && fn.code[c.pc] == Jump(target) && c.pc < target
    ensures From(m, p, fn, c) == From(m, p, fn, c.(pc := target))
  {
  }

  lemma FindUserLowered(fs: seq<S.Function>, name: string)
    ensures FindUser(LowerFunctions(fs), name) == S.FindFunction(fs, name)
  {
    FindsTheSame(fs, LowerFunctions(fs), name);
  }

  lemma {:induction false} FindsTheSame(fs: seq<S.Function>, gs: seq<Function>, name: string)
    requires |fs| == |gs|
    requires forall i :: 0 <= i < |fs| ==> gs[i].name == fs[i].name && gs[i].isExtern == fs[i].isExtern
    ensures FindUser(gs, name) == S.FindFunction(fs, name)
  {
    if fs != [] { FindsTheSame(fs[1..], gs[1..], name); }
  }

  /** Where one more instruction leads, if it goes on at all. */
  ghost function Moved(c: Point, i: Instr, e: Effect): Point
    requires e.Goto? ==> (e.result.Some? ==> i.HasDest())
  {
    if e.Goto? then After(c, i, e.result, e.vars, e.pc) else c
  }

  /** The whole run of an expression: what its value, calls and traps do to the lowered code. */
  ghost predicate ExprFollows(m: Machine, sp: S.Program, fn: Function, e: S.Expr, at: nat, next: nat,
                              regs: Regs, vars: Vars, st: S.State, c: Point)
    requires |st.env| == 1
  {
    var l, r := LowerExpr(e, at, next), S.Eval(m, false, sp, e, st);
    var p := LowerProgram(sp);
    && Follows(m, p, fn, Run(m, p, fn, at, regs, vars, st.trace, st.clock), r, c, at + |l.code|)
    && Holds(r, c, l.reg) && (r.Next? ==> Kept(regs, c.regs, next))
  }

  ghost predicate ExprReady(sp: S.Program, fn: Function, e: S.Expr, at: nat, next: nat, vars: Vars, st: S.State) {
    && S.UserProgram(sp) && S.UserExpr(e) && |st.env| == 1 && Agree(st.env[0], vars)
    && var l := LowerExpr(e, at, next); HasAt(fn.code, at, l.code) && l.next <= fn.nextReg
  }

  lemma {:induction false} ExprMeaning(m: Machine, sp: S.Program, fn: Function, e: S.Expr, at: nat, next: nat,
                                       regs: Regs, vars: Vars, st: S.State)
    returns (c: Point)
    requires ExprReady(sp, fn, e, at, next, vars, st)
    ensures ExprFollows(m, sp, fn, e, at, next, regs, vars, st, c)
    decreases st.clock, 1, e, 2
  {
    var p, l := LowerProgram(sp), LowerExpr(e, at, next);
    c := Point(at, regs, vars, st.trace, st.clock);
    match e
    case Literal(v) =>
      assert fn.code[at] == l.code[0];
      Steps(m, p, fn, c, []);
      c := After(c, l.code[0], Some(v), vars, at + 1);
    case Name(x) =>
      assert fn.code[at] == l.code[0];
      Steps(m, p, fn, c, []);
      if x in vars { c := After(c, l.code[0], Some(vars[x]), vars, at + 1); }
    case Unary(op, a) =>
      c := OperandMeaning(m, sp, fn, e, a, at, next, regs, vars, st);
    case Try(a) =>
      c := OperandMeaning(m, sp, fn, e, a, at, next, regs, vars, st);
    case Cast(a, t) =>
      c := OperandMeaning(m, sp, fn, e, a, at, next, regs, vars, st);
    case Assign(x, a) =>
      c := OperandMeaning(m, sp, fn, e, a, at, next, regs, vars, st);
    case Binary(a, op, b) =>
      if op.And? || op.Or? {
        c := LogicMeaning(m, sp, fn, e, at, next, regs, vars, st);
      } else {
        c := BinaryMeaning(m, sp, fn, e, at, next, regs, vars, st);
      }
    case Call(f, args) =>
      c := CallMeaning(m, sp, fn, e, at, next, regs, vars, st);
  }

  predicate HasOperand(e: S.Expr, a: S.Expr) {
    ((e.Unary? || e.Cast?) && e.operand == a) || (e.Try? && e.tried == a) || (e.Assign? && e.source == a)
  }

  lemma OperandLayout(code: seq<Instr>, e: S.Expr, a: S.Expr, at: nat, next: nat) returns (i: Instr)
    requires HasOperand(e, a) && HasAt(code, at, LowerExpr(e, at, next).code)
    ensures var l, q := LowerExpr(e, at, next), LowerExpr(a, at, next);
            && HasAt(code, at, q.code) && |l.code| == |q.code| + 1
            && at + |q.code| < |code| && code[at + |q.code|] == i && i == OwnInstr(e, q)
            && l.reg == (if e.Assign? then q.reg else q.next) && l.next == (if e.Assign? then q.next else q.next + 1)
  {
    hide LowerExpr;
    var q := LowerExpr(a, at, next);
    i := OwnInstr(e, q);
    LowerOperand(e, a, at, next);
    HasParts(code, at, q.code, [i]);
    assert code[at + |q.code|] == [i][0];
  }

  /** The instruction a one-operand construct adds to its operand's code. */
  ghost function OwnInstr(e: S.Expr, q: Lowered): Instr
    requires e.Unary? || e.Cast? || e.Try? || e.Assign?
  {
    match e
    case Unary(op, _) => Instr.Unary(q.next, op, q.reg)
    case Cast(_, t) => Instr.Cast(q.next, t, q.reg)
    case Try(_) => Instr.Try(q.next, q.reg)
    case Assign(x, _) => Store(x, q.reg)
  }

  lemma LowerOperand(e: S.Expr, a: S.Expr, at: nat, next: nat)
    requires HasOperand(e, a)
    ensures var l, q := LowerExpr(e, at, next), LowerExpr(a, at, next);
            && l.code == q.code + [OwnInstr(e, q)]
            && l.reg == (if e.Assign? then q.reg else q.next) && l.next == (if e.Assign? then q.next else q.next + 1)
  {
  }

  lemma EvalOperand(m: Machine, sp: S.Program, e: S.Expr, a: S.Expr, st: S.State)
    requires HasOperand(e, a)
    ensures var r := S.Eval(m, false, sp, a, st);
            S.Eval(m, false, sp, e, st) == if r.Next? then OperandResult(m, e, r) else r
  {
  }

  /** Constructs with one operand: its code, then one instruction that reads its register. */
  lemma {:induction false} OperandMeaning(m: Machine, sp: S.Program, fn: Function, e: S.Expr, a: S.Expr, at: nat, next: nat,
                                          regs: Regs, vars: Vars, st: S.State)
    returns (c: Point)
    requires ExprReady(sp, fn, e, at, next, vars, st)
    requires HasOperand(e, a)
    ensures ExprFollows(m, sp, fn, e, at, next, regs, vars, st, c)
    decreases st.clock, 1, e, 1
  {
    hide S.Eval, LowerExpr, Run, LowerProgram, OperandResult, OwnInstr, Agree, S.UserProgram, HasAt;
    var p, q := LowerProgram(sp), LowerExpr(a, at, next);
    var i := OperandLayout(fn.code, e, a, at, next);
    EvalOperand(m, sp, e, a, st);
    c := ExprMeaning(m, sp, fn, a, at, next, regs, vars, st);
    var r := S.Eval(m, false, sp, a, st);
    if r.Next? {
      var before := c.regs;
      c := OwnMeaning(m, p, fn, e, q, c, r);
      KeptTransitive(regs, before, c.regs, next, q.next);
    }
  }

  /** The own instruction of a one-operand construct, at `c`, whose operand has the result `r`. */
  lemma {:induction false} OwnMeaning(m: Machine, p: Program, fn: Function, e: S.Expr, q: Lowered, c: Point, r: S.Result)
    returns (d: Point)
    requires (e.Unary? || e.Cast? || e.Try? || e.Assign?) && r.Next? && |r.st.env| == 1 && Agree(r.st.env[0], c.vars)
    requires e.Assign? ==> S.IsUserName(e.target)
    requires c.pc < |fn.code| && fn.code[c.pc] == OwnInstr(e, q) && q.reg < q.next && q.reg < fn.nextReg
    requires q.reg in c.regs && c.regs[q.reg] == r.value && c.trace == r.st.trace && c.clock == r.st.clock
    ensures Follows(m, p, fn, From(m, p, fn, c), OperandResult(m, e, r), d, c.pc + 1)
    ensures Holds(OperandResult(m, e, r), d, if e.Assign? then q.reg else q.next)
    ensures Kept(c.regs, d.regs, q.next)
  {
    hide Run, Agree;
    var i := fn.code[c.pc];
    StepOne(m, p, fn, c, i, q.reg);
    OwnEffect(m, e, q, c.pc, r, c.vars);
    hide OperandResult, Act;
    d := Moved(c, i, Act(m, i, c.pc, [r.value], c.vars));
  }

  /** What the own instruction of a one-operand construct does to the operand's value `r.value`. */
  lemma OwnEffect(m: Machine, e: S.Expr, q: Lowered, pc: nat, r: S.Result, vars: Vars)
    requires (e.Unary? || e.Cast? || e.Try? || e.Assign?) && r.Next? && |r.st.env| == 1 && Agree(r.st.env[0], vars)
    requires e.Assign? ==> S.IsUserName(e.target)
    ensures var effect := Act(m, OwnInstr(e, q), pc, [r.value], vars);
            match OperandResult(m, e, r)
            case Next(v, st) =>
              && effect == Goto(pc + 1, if e.Assign? then None else Some(v), if e.Assign? then vars[e.target := v] else vars)
              && |st.env| == 1 && Agree(st.env[0], effect.vars) && st.trace == r.st.trace && st.clock == r.st.clock
              && (e.Assign? ==> v == r.value)
            case Exit(v, st) => effect == Finish(v) && st == r.st
            case Fail(err, trace) => effect == Fault(err) && trace == r.st.trace
            case Timeout(_) => false
  {
    if e.Assign? { assert S.Update(r.st.env, e.target, r.value)[0] == r.st.env[0][e.target := r.value]; }
  }

  /** The result of a one-operand construct whose operand has the result `r`. */
  ghost function OperandResult(m: Machine, e: S.Expr, r: S.Result): S.Result
    requires r.Next?
  {
    match e
    case Unary(op, _) => S.Yield(UnaryOp(m.float, m.checked, op, r.value), r.st)
    case Cast(_, t) => S.Yield(CastValue(m.float, t, r.value), r.st)
    case Assign(x, _) => S.Next(r.value, r.st.(env := S.Update(r.st.env, x, r.value)))
    case Try(_) =>
      (match AsInt(r.value)
       case Err(err) => S.Fail(err, r.st.trace)
       case Ok(n) => if n < 0 then S.Exit(Int(n), r.st) else S.Next(Int(n), r.st))
    case _ => r
  }

  lemma StepTwo(m: Machine, p: Program, fn: Function, c: Point, i: Instr, r: Reg, s: Reg)
    requires c.pc < |fn.code| && fn.code[c.pc] == i && i.Args() == [r, s]
    requires r < fn.nextReg && r in c.regs && s < fn.nextReg && s in c.regs
    ensures Stepped(m, p, fn, c, i, Act(m, i, c.pc, [c.regs[r], c.regs[s]], c.vars))
  {
    GetTwo(m, fn.nextReg, c.regs, r, s);
    Steps(m, p, fn, c, [c.regs[r], c.regs[s]]);
  }

  lemma KeptTransitive(a: Regs, b: Regs, c: Regs, low: nat, high: nat)
    requires Kept(a, b, low) && Kept(b, c, high) && low <= high
    ensures Kept(a, c, low)
  {
  }

  lemma KeptValue(before: Regs, after: Regs, limit: nat, r: Reg)
    requires Kept(before, after, limit) && r in before && r < limit
    ensures r in after && after[r] == before[r]
  {
  }

  lemma KeptThenWritten(a: Regs, b: Regs, c: Regs, low: nat, high: nat, dest: Reg, v: Value)
    requires Kept(a, b, low) && Kept(b, c, high) && low <= high && low <= dest
    ensures Kept(a, c[dest := v], low)
  {
  }

  lemma BinaryLayout(code: seq<Instr>, e: S.Expr, at: nat, next: nat)
    requires e.Binary? && !e.bop.And? && !e.bop.Or? && HasAt(code, at, LowerExpr(e, at, next).code)
    ensures var l, a := LowerExpr(e, at, next), LowerExpr(e.left, at, next);
            var b := LowerExpr(e.right, at + |a.code|, a.next);
            && HasAt(code, at, a.code) && HasAt(code, at + |a.code|, b.code)
            && |l.code| == |a.code + b.code| + 1 && at + |l.code| <= |code|
            && code[at + |a.code + b.code|] == Instr.Binary(b.next, e.bop, a.reg, b.reg)
            && l.reg == b.next && l.next == b.next + 1
  {
    var a := LowerExpr(e.left, at, next);
    var b := LowerExpr(e.right, at + |a.code|, a.next);
    var i := Instr.Binary(b.next, e.bop, a.reg, b.reg);
    HasParts(code, at, a.code + b.code, [i]);
    HasParts(code, at, a.code, b.code);
    assert code[at + |a.code + b.code|] == [i][0];
  }

  lemma EvalBinary(m: Machine, sp: S.Program, e: S.Expr, st: S.State)
    requires e.Binary? && !e.bop.And? && !e.bop.Or?
    ensures var l := S.Eval(m, false, sp, e.left, st);
            S.Eval(m, false, sp, e, st) ==
            if !l.Next? then l else
            var r := S.Eval(m, false, sp, e.right, l.st);
            if !r.Next? then r else S.Yield(BinaryOp(m.float, m.checked, e.bop, l.value, r.value), r.st)
  {
  }

  /** The operators that evaluate both operands. */
  lemma {:induction false} BinaryMeaning(m: Machine, sp: S.Program, fn: Function, e: S.Expr, at: nat, next: nat,
                                         regs: Regs, vars: Vars, st: S.State)
    returns (c: Point)
    requires ExprReady(sp, fn, e, at, next, vars, st) && e.Binary? && !e.bop.And? && !e.bop.Or?
    ensures ExprFollows(m, sp, fn, e, at, next, regs, vars, st, c)
    decreases st.clock, 1, e, 1
  {
    hide S.Eval, LowerExpr, Run, BinaryOp, LowerProgram, Agree, S.UserProgram, HasAt, Kept;
    var p := LowerProgram(sp);
    BinaryLayout(fn.code, e, at, next);
    EvalBinary(m, sp, e, st);
    var a := LowerExpr(e.left, at, next);
    var b := LowerExpr(e.right, at + |a.code|, a.next);
    c := ExprMeaning(m, sp, fn, e.left, at, next, regs, vars, st);
    var l := S.Eval(m, false, sp, e.left, st);
    if l.Next? {
      var c1 := c;
      c := ExprMeaning(m, sp, fn, e.right, at + |a.code|, a.next, c1.regs, c1.vars, l.st);
      var r := S.Eval(m, false, sp, e.right, l.st);
      if r.Next? {
        var i := fn.code[c.pc];
        var effect := Act(m, i, c.pc, [l.value, r.value], c.vars);
        KeptThenWritten(regs, c1.regs, c.regs, next, a.next, i.dest, if effect.Goto? then effect.result.value else Null);
        KeptValue(c1.regs, c.regs, a.next, a.reg);
        StepTwo(m, p, fn, c, i, a.reg, b.reg);
        c := Moved(c, i, effect);
      }
    }
  }

  lemma LogicLayout(code: seq<Instr>, e: S.Expr, at: nat, next: nat)
    requires e.Binary? && (e.bop.And? || e.bop.Or?) && HasAt(code, at, LowerExpr(e, at, next).code)
    ensures var l, a := LowerExpr(e, at, next), LowerExpr(e.left, at, next);
            var temp := LogicTemp(at + |a.code|, a.next);
            var t := Tail(e, temp, a, at);
            && HasAt(code, at, a.code) && HasAt(code, at + |a.code|, t.code)
            && |l.code| == |a.code| + |t.code| + 1 && at + |l.code| <= |code|
            && code[at + |a.code| + |t.code|] == Load(t.next, temp)
            && l.reg == t.next && l.next == t.next + 1
  {
    var l, a := LowerExpr(e, at, next), LowerExpr(e.left, at, next);
    var temp := LogicTemp(at + |a.code|, a.next);
    var t := Tail(e, temp, a, at);
    var load := Load(t.next, temp);
    assert l == LowerLogic(a, e.bop, e.right, at);
    assert l == Lowered(a.code + (t.code + [load]), t.next, t.next + 1);
    HasParts(code, at, a.code, t.code + [load]);
    HasParts(code, at + |a.code|, t.code, [load]);
    assert code[at + |a.code| + |t.code|] == [load][0];
  }

  /** The code of a short-circuit operator after its left operand `a`, up to the final load. */
  ghost function Tail(e: S.Expr, temp: string, a: Lowered, at: nat): (t: LoweredStmt)
    requires e.Binary?
    ensures a.next < t.next
  {
    if e.bop.And? then AndTail(temp, a.reg, e.right, at + |a.code|, a.next)
    else OrTail(temp, a.reg, e.right, at + |a.code|, a.next)
  }

  lemma EvalLogic(m: Machine, sp: S.Program, e: S.Expr, st: S.State)
    requires e.Binary? && (e.bop.And? || e.bop.Or?)
    ensures var l := S.Eval(m, false, sp, e.left, st);
            S.Eval(m, false, sp, e, st) ==
            if !l.Next? then l
            else if e.bop.And? then AndResult(m, sp, l, e.right) else OrResult(m, sp, l, e.right)
  {
  }

  /** The short-circuit operators: the temporary ends up holding the value the operator has. */
  lemma {:induction false} LogicMeaning(m: Machine, sp: S.Program, fn: Function, e: S.Expr, at: nat, next: nat,
                                        regs: Regs, vars: Vars, st: S.State)
    returns (c: Point)
    requires ExprReady(sp, fn, e, at, next, vars, st) && e.Binary? && (e.bop.And? || e.bop.Or?)
    ensures ExprFollows(m, sp, fn, e, at, next, regs, vars, st, c)
    decreases st.clock, 1, e, 1
  {
    hide S.Eval, LowerExpr, Run, LowerProgram, AndTail, OrTail, Agree, Act, Kept;
    var p, a := LowerProgram(sp), LowerExpr(e.left, at, next);
    LogicLayout(fn.code, e, at, next);
    EvalLogic(m, sp, e, st);
    var temp := LogicTemp(at + |a.code|, a.next);
    c := ExprMeaning(m, sp, fn, e.left, at, next, regs, vars, st);
    var l := S.Eval(m, false, sp, e.left, st);
    if l.Next? {
      var c1 := c;
      if e.bop.And? {
        c := AndMeaning(m, sp, fn, e.right, temp, a.reg, a.next, c1, l);
      } else {
        c := OrMeaning(m, sp, fn, e.right, temp, a.reg, a.next, c1, l);
      }
      if S.Eval(m, false, sp, e, st).Next? {
        var dest := fn.code[c.pc].dest;
        KeptThenWritten(regs, c1.regs, c.regs, next, a.next, dest, c.vars[temp]);
        StepLoad(m, p, fn, c, dest, temp);
        c := c.(pc := c.pc + 1, regs := c.regs[dest := c.vars[temp]]);
      }
    }
  }

  /** The value of `left && b` when the left operand has the result `l`. */
  ghost function AndResult(m: Machine, sp: S.Program, l: S.Result, b: S.Expr): S.Result
    requires l.Next?
  {
    if Truthy(m.float, l.value) then S.Eval(m, false, sp, b, l.st) else l
  }

  ghost function OrResult(m: Machine, sp: S.Program, l: S.Result, b: S.Expr): S.Result
    requires l.Next?
  {
    if Truthy(m.float, l.value) then l else S.Eval(m, false, sp, b, l.st)
  }

  /** After the short-circuit code the temporary holds the result. */
  ghost predicate InTemp(r: S.Result, c: Point, temp: string) {
    r.Next? ==> temp in c.vars && c.vars[temp] == r.value
  }

  lemma AgreeStore(source: Vars, lowered: Vars, temp: string, v: Value)
    requires Agree(source, lowered) && !S.IsUserName(temp)
    ensures Agree(source, lowered[temp := v])
  {
  }

  lemma TailLayout(code: seq<Instr>, at: nat, head: seq<Instr>, q: seq<Instr>, save: Instr)
    requires HasAt(code, at, head + q + [save])
    ensures forall k :: 0 <= k < |head| ==> code[at + k] == head[k]
    ensures HasAt(code, at + |head|, q)
    ensures at + |head| + |q| < |code| && code[at + |head| + |q|] == save
  {
    HasParts(code, at, head + q, [save]);
    HasParts(code, at, head, q);
    assert code[at + |head + q|] == [save][0];
    forall k | 0 <= k < |head| ensures code[at + k] == head[k] {
      assert code[at..at + |head|][k] == head[k];
    }
  }

  lemma AndLayout(code: seq<Instr>, b: S.Expr, temp: string, left: Reg, at: nat, next: nat)
    requires HasAt(code, at, AndTail(temp, left, b, at, next).code)
    ensures var t, q := AndTail(temp, left, b, at, next), LowerExpr(b, at + 2, next);
            var end := at + 2 + |q.code| + 1;
            && HasAt(code, at + 2, q.code) && |t.code| == |q.code| + 3 && t.next == q.next && end <= |code|
            && code[at] == Store(temp, left) && code[at + 1] == JumpIfFalse(left, end)
            && code[end - 1] == Store(temp, q.reg)
  {
    hide LowerExpr;
    var q := LowerExpr(b, at + 2, next);
    var end := at + 2 + |q.code| + 1;
    var head, save := [Store(temp, left), JumpIfFalse(left, end)], Store(temp, q.reg);
    TailLayout(code, at, head, q.code, save);
    assert code[at] == head[0] && code[at + 1] == head[1];
  }

  lemma {:induction false} AndMeaning(m: Machine, sp: S.Program, fn: Function, b: S.Expr, temp: string, left: Reg, next: nat,
                                      start: Point, l: S.Result)
    returns (c: Point)
    requires S.UserProgram(sp) && S.UserExpr(b) && !S.IsUserName(temp)
    requires l.Next? && |l.st.env| == 1 && Agree(l.st.env[0], start.vars)
    requires start.trace == l.st.trace && start.clock == l.st.clock
    requires left in start.regs && start.regs[left] == l.value && left < next <= fn.nextReg
    requires var t := AndTail(temp, left, b, start.pc, next); HasAt(fn.code, start.pc, t.code) && t.next <= fn.nextReg
    ensures var p, t, r := LowerProgram(sp), AndTail(temp, left, b, start.pc, next), AndResult(m, sp, l, b);
            && Follows(m, p, fn, From(m, p, fn, start), r, c, start.pc + |t.code|)
            && InTemp(r, c, temp) && (r.Next? ==> Kept(start.regs, c.regs, next))
    decreases l.st.clock, 1, b, 3
  {
    hide S.Eval, LowerExpr, Run, LowerProgram, Agree, Act, AndTail, S.UserExpr, S.UserProgram, HasAt;
    AndLayout(fn.code, b, temp, left, start.pc, next);
    var p, q := LowerProgram(sp), LowerExpr(b, start.pc + 2, next);
    var end := start.pc + 2 + |q.code| + 1;
    StepStore(m, p, fn, start, temp, left);
    c := start.(pc := start.pc + 1, vars := start.vars[temp := l.value]);
    AgreeStore(l.st.env[0], start.vars, temp, l.value);
    StepTest(m, p, fn, c, left, end);
    c := c.(pc := if Truthy(m.float, l.value) then c.pc + 1 else end);
    if Truthy(m.float, l.value) {
      c := ExprMeaning(m, sp, fn, b, start.pc + 2, next, c.regs, c.vars, l.st);
      var r := S.Eval(m, false, sp, b, l.st);
      if r.Next? {
        AgreeStore(r.st.env[0], c.vars, temp, r.value);
        StepStore(m, p, fn, c, temp, q.reg);
        c := c.(pc := c.pc + 1, vars := c.vars[temp := r.value]);
      }
    }
  }

  lemma OrLayout(code: seq<Instr>, b: S.Expr, temp: string, left: Reg, at: nat, next: nat)
    requires HasAt(code, at, OrTail(temp, left, b, at, next).code)
    ensures var t, q := OrTail(temp, left, b, at, next), LowerExpr(b, at + 3, next);
            var end := at + 3 + |q.code| + 1;
            && HasAt(code, at + 3, q.code) && |t.code| == |q.code| + 4 && t.next == q.next && end <= |code|
            && code[at] == Store(temp, left) && code[at + 1] == JumpIfFalse(left, at + 3) && code[at + 2] == Jump(end)
            && code[end - 1] == Store(temp, q.reg)
  {
    hide LowerExpr;
    var q := LowerExpr(b, at + 3, next);
    var end := at + 3 + |q.code| + 1;
    var head, save := [Store(temp, left), JumpIfFalse(left, at + 3), Jump(end)], Store(temp, q.reg);
    TailLayout(code, at, head, q.code, save);
    assert code[at] == head[0] && code[at + 1] == head[1] && code[at + 2] == head[2];
  }

  lemma {:induction false} OrMeaning(m: Machine, sp: S.Program, fn: Function, b: S.Expr, temp: string, left: Reg, next: nat,
                                     start: Point, l: S.Result)
    returns (c: Point)
    requires S.UserProgram(sp) && S.UserExpr(b) && !S.IsUserName(temp)
    requires l.Next? && |l.st.env| == 1 && Agree(l.st.env[0], start.vars)
    requires start.trace == l.st.trace && start.clock == l.st.clock
    requires left in start.regs && start.regs[left] == l.value && left < next <= fn.nextReg
    requires var t := OrTail(temp, left, b, start.pc, next); HasAt(fn.code, start.pc, t.code) && t.next <= fn.nextReg
    ensures var p, t, r := LowerProgram(sp), OrTail(temp, left, b, start.pc, next), OrResult(m, sp, l, b);
            && Follows(m, p, fn, From(m, p, fn, start), r, c, start.pc + |t.code|)
            && InTemp(r, c, temp) && (r.Next? ==> Kept(start.regs, c.regs, next))
    decreases l.st.clock, 1, b, 3
  {
    hide S.Eval, LowerExpr, Run, LowerProgram, Agree, Act, OrTail, S.UserExpr, S.UserProgram, HasAt;
    OrLayout(fn.code, b, temp, left, start.pc, next);
    var p, q := LowerProgram(sp), LowerExpr(b, start.pc + 3, next);
    var end := start.pc + 3 + |q.code| + 1;
    StepStore(m, p, fn, start, temp, left);
    c := start.(pc := start.pc + 1, vars := start.vars[temp := l.value]);
    AgreeStore(l.st.env[0], start.vars, temp, l.value);
    StepTest(m, p, fn, c, left, start.pc + 3);
    c := c.(pc := if Truthy(m.float, l.value) then c.pc + 1 else start.pc + 3);
    if Truthy(m.float, l.value) {
      StepJump(m, p, fn, c, end);
      c := c.(pc := end);
    } else {
      c := ExprMeaning(m, sp, fn, b, start.pc + 3, next, c.regs, c.vars, l.st);
      var r := S.Eval(m, false, sp, b, l.st);
      if r.Next? {
        AgreeStore(r.st.env[0], c.vars, temp, r.value);
        StepStore(m, p, fn, c, temp, q.reg);
        c := c.(pc := c.pc + 1, vars := c.vars[temp := r.value]);
      }
    }
  }

  // ----- calls -----

  /** The registers hold the argument values. */
  ghost predicate Hold(regs: Regs, rs: seq<Reg>, vs: seq<Value>) {
    |rs| == |vs| && forall k :: 0 <= k < |rs| ==> rs[k] in regs && regs[rs[k]] == vs[k]
  }

  ghost predicate ArgsFollow(m: Machine, p: Program, fn: Function, whole: FnResult, r: S.ArgsResult, c: Point, pc: nat,
                             rs: seq<Reg>, before: Regs, limit: nat) {
    match r
    case Values(vs, st) =>
      Follows(m, p, fn, whole, S.Next(Null, st), c, pc) && Hold(c.regs, rs, vs) && Kept(before, c.regs, limit)
    case Stop(q) => Follows(m, p, fn, whole, q, c, pc)
  }

  lemma {:induction false} ArgsMeaning(m: Machine, sp: S.Program, fn: Function, es: seq<S.Expr>, at: nat, next: nat,
                                       regs: Regs, vars: Vars, st: S.State)
    returns (c: Point)
    requires S.UserProgram(sp) && (forall a <- es :: S.UserExpr(a)) && |st.env| == 1 && Agree(st.env[0], vars)
    requires var l := LowerArgs(es, at, next); HasAt(fn.code, at, l.code) && l.next <= fn.nextReg
    ensures var p, l := LowerProgram(sp), LowerArgs(es, at, next);
            ArgsFollow(m, p, fn, Run(m, p, fn, at, regs, vars, st.trace, st.clock), S.EvalArgs(m, false, sp, es, st), c,
                       at + |l.code|, l.regs, regs, next)
    decreases st.clock, 1, es
  {
    hide S.Eval, LowerExpr, Run, LowerProgram, Agree, HasAt, Hold, Kept, S.UserExpr, S.UserProgram;
    c := Point(at, regs, vars, st.trace, st.clock);
    HoldNone(regs, next);
    if es != [] {
      var a := LowerExpr(es[0], at, next);
      var q := LowerArgs(es[1..], at + |a.code|, a.next);
      HasParts(fn.code, at, a.code, q.code);
      c := ExprMeaning(m, sp, fn, es[0], at, next, regs, vars, st);
      var r := S.Eval(m, false, sp, es[0], st);
      if r.Next? {
        var c1 := c;
        c := ArgsMeaning(m, sp, fn, es[1..], at + |a.code|, a.next, c1.regs, c1.vars, r.st);
        var rest := S.EvalArgs(m, false, sp, es[1..], r.st);
        if rest.Values? {
          HoldFirst(regs, c1.regs, c.regs, next, a.next, a.reg, r.value, q.regs, rest.values);
        }
      }
    }
  }

  lemma HoldNone(regs: Regs, next: nat)
    ensures Hold(regs, [], []) && Kept(regs, regs, next)
  {
  }

  /** The first argument's register still has its value after the others. */
  lemma HoldFirst(before: Regs, first: Regs, last: Regs, next: nat, high: nat, reg: Reg, value: Value, rs: seq<Reg>, vs: seq<Value>)
    requires next <= reg < high && reg in first && first[reg] == value && Hold(last, rs, vs)
    requires Kept(before, first, next) && Kept(first, last, high)
    ensures Hold(last, [reg] + rs, [value] + vs) && Kept(before, last, next)
  {
  }

  lemma {:induction false} CallMeaning(m: Machine, sp: S.Program, fn: Function, e: S.Expr, at: nat, next: nat,
                                       regs: Regs, vars: Vars, st: S.State)
    returns (c: Point)
    requires ExprReady(sp, fn, e, at, next, vars, st) && e.Call?
    ensures ExprFollows(m, sp, fn, e, at, next, regs, vars, st, c)
    decreases st.clock, 1, e, 1
  {
    hide LowerArgs, S.EvalArgs, LowerProgram, Agree, S.CallNamed, CallOut, LowerExpr, S.Eval, Run, S.UserProgram;
    CallLayout(fn.code, e, at, next);
    EvalCall(m, sp, e, st);
    var p, l := LowerProgram(sp), LowerArgs(e.args, at, next + 1);
    c := ArgsMeaning(m, sp, fn, e.args, at, next + 1, regs, vars, st);
    var r := S.EvalArgs(m, false, sp, e.args, st);
    if r.Values? {
      forall k | 0 <= k < |l.regs| ensures l.regs[k] < fn.nextReg {
        assert l.regs[k] in l.regs;
      }
      var name := S.CalleeText(e.callee);
      StepCall(m, p, fn, c, next, name, l.regs, r.values);
      NamedCallMeaning(m, sp, name, r.values, c.trace, c.clock);
      var q := CallOut(m, p, name, r.values, c.trace, c.clock);
      if q.Done? {
        c := Point(c.pc + 1, c.regs[next := q.value], c.vars, q.trace, q.clock);
      }
    }
  }

  lemma CallLayout(code: seq<Instr>, e: S.Expr, at: nat, next: nat)
    requires e.Call? && HasAt(code, at, LowerExpr(e, at, next).code)
    ensures var q, l := LowerExpr(e, at, next), LowerArgs(e.args, at, next + 1);
            && HasAt(code, at, l.code) && |q.code| == |l.code| + 1 && q.reg == next && q.next == l.next
            && at + |l.code| < |code| && code[at + |l.code|] == Instr.Call(next, S.CalleeText(e.callee), l.regs)
  {
    hide LowerArgs;
    var l := LowerArgs(e.args, at, next + 1);
    var i := Instr.Call(next, S.CalleeText(e.callee), l.regs);
    HasParts(code, at, l.code, [i]);
    assert code[at + |l.code|] == [i][0];
  }

  lemma EvalCall(m: Machine, sp: S.Program, e: S.Expr, st: S.State)
    requires e.Call?
    ensures var r := S.EvalArgs(m, false, sp, e.args, st);
            S.Eval(m, false, sp, e, st) ==
            if r.Stop? then r.result
            else CallResult(S.CallNamed(m, false, sp, S.CalleeText(e.callee), r.values, r.st.trace, r.st.clock), r.st)
  {
  }

  ghost function CallResult(q: FnResult, st: S.State): S.Result {
    match q
    case Done(v, _, trace, clock) => S.Next(v, S.State(st.env, trace, clock))
    case Failed(e, trace) => S.Fail(e, trace)
    case OutOfTime(trace) => S.Timeout(trace)
  }

  lemma StepCall(m: Machine, p: Program, fn: Function, c: Point, dest: Reg, name: string, rs: seq<Reg>, vs: seq<Value>)
    requires c.pc < |fn.code| && fn.code[c.pc] == Instr.Call(dest, name, rs)
    requires Hold(c.regs, rs, vs) && forall k :: 0 <= k < |rs| ==> rs[k] < fn.nextReg
    ensures var q := CallOut(m, p, name, vs, c.trace, c.clock);
            From(m, p, fn, c) ==
            if q.Done? then From(m, p, fn, Point(c.pc + 1, c.regs[dest := q.value], c.vars, q.trace, q.clock)) else q
  {
    GetMany(m, fn.nextReg, c.regs, rs, vs);
  }

  lemma {:induction false} NamedCallMeaning(m: Machine, sp: S.Program, name: string, args: seq<Value>, trace: Trace, clock: nat)
    requires S.UserProgram(sp)
    ensures SameResult(S.CallNamed(m, false, sp, name, args, trace, clock),
                       CallOut(m, LowerProgram(sp), name, args, trace, clock))
    decreases clock, 0
  {
    var fs := S.Functions(sp);
    FindUserLowered(fs, name);
    var i := S.FindFunction(fs, name);
    if i.Some? && clock > 0 {
      assert fs[i.value] in fs;
      FunctionMeaning(m, sp, fs[i.value], args, trace + [Event(name, args)], clock - 1);
    }
  }

  lemma {:induction false} FunctionMeaning(m: Machine, sp: S.Program, f: S.Function, args: seq<Value>, trace: Trace, clock: nat)
    requires S.UserProgram(sp) && S.UserFunction(f)
    ensures SameResult(S.RunSource(m, false, sp, f, args, trace, clock),
                       RunFunction(m, LowerProgram(sp), LowerFunction(f), args, trace, clock))
    decreases clock, 3
  {
    if !f.isExtern {
      var vars := Bind(f.params, args);
      BodyMeaning(m, sp, LowerFunction(f), f.body, vars, trace, clock);
    }
  }

  /** A whole body, at the start of a function, followed at most by the final return. */
  lemma {:induction false} BodyMeaning(m: Machine, sp: S.Program, fn: Function, body: seq<S.Stmt>, vars: Vars, trace: Trace, clock: nat)
    requires S.UserProgram(sp) && forall s <- body :: S.UserStmt(s)
    requires var l := LowerAll(body, 0, 0);
             && fn.nextReg == l.next && (fn.code == l.code || fn.code == l.code + [Instr.Return(None)])
    ensures SameResult(S.RunBody(m, false, sp, body, vars, trace, clock),
                       Run(m, LowerProgram(sp), fn, 0, map[], vars, trace, clock))
    decreases clock, 2
  {
    hide S.ExecAll, Run, LowerAll, LowerProgram;
    var l, p := LowerAll(body, 0, 0), LowerProgram(sp);
    assert HasAt(fn.code, 0, l.code) by { assert (l.code + [Instr.Return(None)])[..|l.code|] == l.code; }
    var st := S.State([vars], trace, clock);
    var c := AllMeaning(m, sp, fn, body, 0, 0, map[], vars, st);
    if S.ExecAll(m, false, sp, body, st).Next? {
      RunsOff(m, p, fn, c);
    }
  }

  lemma RunsOff(m: Machine, p: Program, fn: Function, c: Point)
    requires c.pc == |fn.code| || (c.pc + 1 == |fn.code| && fn.code[c.pc] == Instr.Return(None))
    ensures From(m, p, fn, c) == Done(Null, c.vars, c.trace, c.clock)
  {
    if c.pc < |fn.code| { Steps(m, p, fn, c, []); }
  }

  // ----- statements -----

  ghost predicate StmtReady(sp: S.Program, fn: Function, l: LoweredStmt, at: nat, vars: Vars, st: S.State) {
    && S.UserProgram(sp) && |st.env| == 1 && Agree(st.env[0], vars)
    && HasAt(fn.code, at, l.code) && l.next <= fn.nextReg
  }

  ghost predicate StmtFollows(m: Machine, sp: S.Program, fn: Function, r: S.Result, l: LoweredStmt, at: nat,
                              regs: Regs, vars: Vars, st: S.State, c: Point) {
    Follows(m, LowerProgram(sp), fn, Run(m, LowerProgram(sp), fn, at, regs, vars, st.trace, st.clock), r, c, at + |l.code|)
  }

  lemma {:induction false} AllMeaning(m: Machine, sp: S.Program, fn: Function, ss: seq<S.Stmt>, at: nat, next: nat,
                                      regs: Regs, vars: Vars, st: S.State)
    returns (c: Point)
    requires (forall s <- ss :: S.UserStmt(s)) && StmtReady(sp, fn, LowerAll(ss, at, next), at, vars, st)
    ensures StmtFollows(m, sp, fn, S.ExecAll(m, false, sp, ss, st), LowerAll(ss, at, next), at, regs, vars, st, c)
    decreases st.clock, 1, ss
  {
    hide S.Exec, LowerStmt, Run, LowerProgram;
    c := Point(at, regs, vars, st.trace, st.clock);
    if ss != [] {
      var a := LowerStmt(ss[0], at, next);
      var q := LowerAll(ss[1..], at + |a.code|, a.next);
      HasParts(fn.code, at, a.code, q.code);
      c := StmtMeaning(m, sp, fn, ss[0], at, next, regs, vars, st);
      var r := S.Exec(m, false, sp, ss[0], st);
      if r.Next? {
        c := AllMeaning(m, sp, fn, ss[1..], at + |a.code|, a.next, c.regs, c.vars, r.st);
      }
    }
  }

  lemma {:induction false} StmtMeaning(m: Machine, sp: S.Program, fn: Function, s: S.Stmt, at: nat, next: nat,
                                       regs: Regs, vars: Vars, st: S.State)
    returns (c: Point)
    requires S.UserStmt(s) && StmtReady(sp, fn, LowerStmt(s, at, next), at, vars, st)
    ensures StmtFollows(m, sp, fn, S.Exec(m, false, sp, s, st), LowerStmt(s, at, next), at, regs, vars, st, c)
    decreases st.clock, 1, s, 2
  {
    hide S.Eval, LowerExpr, Run, LowerProgram, LowerAll, LowerBranches, S.ExecAll;
    match s
    case Let(x, e) => c := LeafMeaning(m, sp, fn, s, e, at, next, regs, vars, st);
    case ExprStmt(e) => c := ExprMeaning(m, sp, fn, e, at, next, regs, vars, st);
    case Return(e) => c := LeafMeaning(m, sp, fn, s, e, at, next, regs, vars, st);
    case Throw(e) => c := LeafMeaning(m, sp, fn, s, e, at, next, regs, vars, st);
    case ReturnNothing =>
      assert fn.code[at] == LowerStmt(s, at, next).code[0];
      c := Point(at, regs, vars, st.trace, st.clock);
      Steps(m, LowerProgram(sp), fn, c, []);
    case Block(ss) => c := AllMeaning(m, sp, fn, ss, at, next, regs, vars, st);
    case If(_, _) => c := IfMeaning(m, sp, fn, s, at, next, regs, vars, st);
    case IfElse(_, _, _) => c := IfElseMeaning(m, sp, fn, s, at, next, regs, vars, st);
    case While(_, _) => c := WhileMeaning(m, sp, fn, s, at, next, regs, vars, st);
  }

  /** Statements that evaluate one expression and then execute one instruction on it. */
  lemma {:induction false} LeafMeaning(m: Machine, sp: S.Program, fn: Function, s: S.Stmt, e: S.Expr, at: nat, next: nat,
                                       regs: Regs, vars: Vars, st: S.State)
    returns (c: Point)
    requires S.UserStmt(s) && StmtReady(sp, fn, LowerStmt(s, at, next), at, vars, st)
    requires (s.Let? && s.init == e) || (s.Return? && s.value == e) || (s.Throw? && s.value == e)
    ensures StmtFollows(m, sp, fn, S.Exec(m, false, sp, s, st), LowerStmt(s, at, next), at, regs, vars, st, c)
    decreases st.clock, 1, s, 1
  {
    hide S.Eval, LowerExpr, Run, LowerProgram, HasAt, Kept, S.UserProgram, S.UserExpr;
    var q, l := LowerExpr(e, at, next), LowerStmt(s, at, next);
    var i := l.code[|q.code|];
    assert l.code == q.code + [i];
    HasParts(fn.code, at, q.code, [i]);
    assert fn.code[at + |q.code|] == [i][0];
    c := ExprMeaning(m, sp, fn, e, at, next, regs, vars, st);
    if S.Eval(m, false, sp, e, st).Next? {
      StepOne(m, LowerProgram(sp), fn, c, i, q.reg);
      c := Moved(c, i, Act(m, i, c.pc, [c.regs[q.reg]], c.vars));
    }
  }

  /** The condition of a branch and the jump after it: to `target` when it is false, on when it is true. */
  lemma {:induction false} ConditionMeaning(m: Machine, sp: S.Program, fn: Function, e: S.Expr, target: nat, at: nat, next: nat,
                                            regs: Regs, vars: Vars, st: S.State)
    returns (c: Point)
    requires ExprReady(sp, fn, e, at, next, vars, st)
    requires var l := LowerExpr(e, at, next);
             at + |l.code| < |fn.code| && fn.code[at + |l.code|] == JumpIfFalse(l.reg, target) && at + |l.code| < target
    ensures var r, l := S.Eval(m, false, sp, e, st), LowerExpr(e, at, next);
            Follows(m, LowerProgram(sp), fn, Run(m, LowerProgram(sp), fn, at, regs, vars, st.trace, st.clock), r, c,
                    if r.Next? && !Truthy(m.float, r.value) then target else at + |l.code| + 1)
    decreases st.clock, 1, e, 3
  {
    hide S.Eval, LowerExpr, Run, LowerProgram;
    var l := LowerExpr(e, at, next);
    c := ExprMeaning(m, sp, fn, e, at, next, regs, vars, st);
    if S.Eval(m, false, sp, e, st).Next? {
      var i := fn.code[c.pc];
      StepOne(m, LowerProgram(sp), fn, c, i, l.reg);
      c := Moved(c, i, Act(m, i, c.pc, [c.regs[l.reg]], c.vars));
    }
  }

  lemma {:induction false} IfMeaning(m: Machine, sp: S.Program, fn: Function, s: S.Stmt, at: nat, next: nat,
                                     regs: Regs, vars: Vars, st: S.State)
    returns (c: Point)
    requires s.If? && S.UserStmt(s) && StmtReady(sp, fn, LowerStmt(s, at, next), at, vars, st)
    ensures StmtFollows(m, sp, fn, S.Exec(m, false, sp, s, st), LowerStmt(s, at, next), at, regs, vars, st, c)
    decreases st.clock, 1, s, 1
  {
    hide S.Eval, LowerExpr, Run, LowerProgram, Agree, S.UserProgram;
    var l := LowerExpr(s.condition, at, next);
    var a := LowerStmt(s.thenBranch, at + |l.code| + 1, l.next);
    var jump := [JumpIfFalse(l.reg, at + |l.code| + 1 + |a.code|)];
    HasParts(fn.code, at, l.code, jump + a.code);
    HasParts(fn.code, at + |l.code|, jump, a.code);
    assert fn.code[at + |l.code|] == jump[0];
    c := ConditionMeaning(m, sp, fn, s.condition, at + |l.code| + 1 + |a.code|, at, next, regs, vars, st);
    var r := S.Eval(m, false, sp, s.condition, st);
    if r.Next? && Truthy(m.float, r.value) {
      c := StmtMeaning(m, sp, fn, s.thenBranch, at + |l.code| + 1, l.next, c.regs, c.vars, r.st);
    }
  }

  lemma BranchesLayout(code: seq<Instr>, s: S.Stmt, reg: Reg, start: nat, next: nat)
    requires s.IfElse? && HasAt(code, start, LowerBranches(s, reg, start, next).code)
    ensures var a := LowerStmt(s.thenBranch, start + 1, next);
            var mid := start + 1 + |a.code| + 1;
            var b := LowerStmt(s.elseBranch, mid, a.next);
            && HasAt(code, start + 1, a.code) && HasAt(code, mid, b.code)
            && mid <= |code| && code[start] == JumpIfFalse(reg, mid) && code[mid - 1] == Jump(mid + |b.code|)
            && |LowerBranches(s, reg, start, next).code| == |a.code| + |b.code| + 2
            && LowerBranches(s, reg, start, next).next == b.next
  {
    hide LowerStmt;
    var a := LowerStmt(s.thenBranch, start + 1, next);
    var mid := start + 1 + |a.code| + 1;
    var b := LowerStmt(s.elseBranch, mid, a.next);
    var jump, skip := [JumpIfFalse(reg, mid)], [Jump(mid + |b.code|)];
    HasParts(code, start, jump + a.code, skip + b.code);
    HasParts(code, start, jump, a.code);
    HasParts(code, start + 1 + |a.code|, skip, b.code);
    assert code[start] == jump[0] && code[start + 1 + |a.code|] == skip[0];
  }

  lemma IfElseLayout(code: seq<Instr>, s: S.Stmt, at: nat, next: nat)
    requires s.IfElse? && HasAt(code, at, LowerStmt(s, at, next).code)
    ensures var l, q := LowerExpr(s.condition, at, next), LowerStmt(s, at, next);
            var b := LowerBranches(s, l.reg, at + |l.code|, l.next);
            && HasAt(code, at, l.code) && HasAt(code, at + |l.code|, b.code)
            && |q.code| == |l.code| + |b.code| && q.next == b.next
  {
    hide LowerExpr, LowerBranches;
    var l := LowerExpr(s.condition, at, next);
    HasParts(code, at, l.code, LowerBranches(s, l.reg, at + |l.code|, l.next).code);
  }

  lemma ExecIfElse(m: Machine, sp: S.Program, s: S.Stmt, st: S.State)
    requires s.IfElse?
    ensures var r := S.Eval(m, false, sp, s.condition, st);
            S.Exec(m, false, sp, s, st) ==
            if !r.Next? then r
            else S.Exec(m, false, sp, if Truthy(m.float, r.value) then s.thenBranch else s.elseBranch, r.st)
  {
  }

  lemma {:induction false} IfElseMeaning(m: Machine, sp: S.Program, fn: Function, s: S.Stmt, at: nat, next: nat,
                                         regs: Regs, vars: Vars, st: S.State)
    returns (c: Point)
    requires s.IfElse? && S.UserStmt(s) && StmtReady(sp, fn, LowerStmt(s, at, next), at, vars, st)
    ensures StmtFollows(m, sp, fn, S.Exec(m, false, sp, s, st), LowerStmt(s, at, next), at, regs, vars, st, c)
    decreases st.clock, 1, s, 1
  {
    hide S.Eval, LowerExpr, Run, LowerProgram, Agree, LowerStmt, S.Exec;
    hide LowerBranches;
    IfElseLayout(fn.code, s, at, next);
    ExecIfElse(m, sp, s, st);
    var l := LowerExpr(s.condition, at, next);
    var start := at + |l.code|;
    BranchesLayout(fn.code, s, l.reg, start, l.next);
    var a := LowerStmt(s.thenBranch, start + 1, l.next);
    var mid := start + 1 + |a.code| + 1;
    var b := LowerStmt(s.elseBranch, mid, a.next);
    c := ConditionMeaning(m, sp, fn, s.condition, mid, at, next, regs, vars, st);
    var r := S.Eval(m, false, sp, s.condition, st);
    if r.Next? && Truthy(m.float, r.value) {
      c := StmtMeaning(m, sp, fn, s.thenBranch, start + 1, l.next, c.regs, c.vars, r.st);
      if S.Exec(m, false, sp, s.thenBranch, r.st).Next? {
        StepJump(m, LowerProgram(sp), fn, c, mid + |b.code|);
        c := c.(pc := mid + |b.code|);
      }
    } else if r.Next? {
      c := StmtMeaning(m, sp, fn, s.elseBranch, mid, a.next, c.regs, c.vars, r.st);
    }
  }

  /** The jump back uses a tick, as the turn of the source loop does. */
  lemma StepBack(m: Machine, p: Program, fn: Function, c: Point, target: nat)
    requires c.pc < |fn.code| && fn.code[c.pc] == Jump(target) && target <= c.pc
    ensures From(m, p, fn, c) ==
      if c.clock == 0 then OutOfTime(c.trace) else From(m, p, fn, c.(pc := target, clock := c.clock - 1))
  {
  }

  lemma WhileLayout(code: seq<Instr>, s: S.Stmt, at: nat, next: nat)
    requires s.While? && HasAt(code, at, LowerStmt(s, at, next).code)
    ensures var l, q := LowerExpr(s.condition, at, next), LowerStmt(s, at, next);
            var start := at + |l.code|;
            var body := LowerStmt(s.body, start + 1, l.next);
            var end := start + 1 + |body.code| + 1;
            && HasAt(code, at, l.code) && HasAt(code, start + 1, body.code)
            && end <= |code| && code[start] == JumpIfFalse(l.reg, end) && code[end - 1] == Jump(at)
            && |q.code| == |l.code| + |body.code| + 2 && q.next == body.next
  {
    hide LowerExpr;
    var l := LowerExpr(s.condition, at, next);
    var start := at + |l.code|;
    var body := LowerStmt(s.body, start + 1, l.next);
    var jump, back := [JumpIfFalse(l.reg, start + 1 + |body.code| + 1)], [Jump(at)];
    HasParts(code, at, l.code, jump + body.code + back);
    HasParts(code, start, jump + body.code, back);
    HasParts(code, start, jump, body.code);
    assert code[start] == jump[0] && code[start + |jump + body.code|] == back[0];
  }

  lemma ExecWhile(m: Machine, sp: S.Program, s: S.Stmt, st: S.State)
    requires s.While?
    ensures var r := S.Eval(m, false, sp, s.condition, st);
            S.Exec(m, false, sp, s, st) ==
            if !r.Next? then r
            else if !Truthy(m.float, r.value) then S.Next(Null, r.st)
            else
              var q := S.Exec(m, false, sp, s.body, r.st);
              if !q.Next? then q
              else if q.st.clock == 0 then S.Timeout(q.st.trace)
              else S.Exec(m, false, sp, s, q.st.(clock := q.st.clock - 1))
  {
  }

  lemma {:induction false} WhileMeaning(m: Machine, sp: S.Program, fn: Function, s: S.Stmt, at: nat, next: nat,
                                        regs: Regs, vars: Vars, st: S.State)
    returns (c: Point)
    requires s.While? && S.UserStmt(s) && StmtReady(sp, fn, LowerStmt(s, at, next), at, vars, st)
    ensures StmtFollows(m, sp, fn, S.Exec(m, false, sp, s, st), LowerStmt(s, at, next), at, regs, vars, st, c)
    decreases st.clock, 1, s, 1
  {
    hide S.Eval, LowerExpr, Run, LowerProgram, LowerStmt, S.Exec, Agree, S.UserProgram;
    WhileLayout(fn.code, s, at, next);
    ExecWhile(m, sp, s, st);
    var l := LowerExpr(s.condition, at, next);
    var start := at + |l.code|;
    var body := LowerStmt(s.body, start + 1, l.next);
    var end := start + 1 + |body.code| + 1;
    c := ConditionMeaning(m, sp, fn, s.condition, end, at, next, regs, vars, st);
    var r := S.Eval(m, false, sp, s.condition, st);
    if r.Next? && Truthy(m.float, r.value) {
      c := StmtMeaning(m, sp, fn, s.body, start + 1, l.next, c.regs, c.vars, r.st);
      var q := S.Exec(m, false, sp, s.body, r.st);
      if q.Next? {
        StepBack(m, LowerProgram(sp), fn, c, at);
        if q.st.clock > 0 {
          c := StmtMeaning(m, sp, fn, s, at, next, c.regs, c.vars, q.st.(clock := q.st.clock - 1));
        }
      }
    }
  }

  // ----- programs -----

  /**
   Lowering preserves meaning, for every function of every program of the fragment, all arguments, every
   history of calls and every clock: the lowered function ends as the source does, with the same value,
   user variables, calls and remaining ticks, or with the same error, or both run out of ticks.
   */
  lemma FunctionLoweringPreservesMeaning(m: Machine, sp: S.Program, k: nat, args: seq<Value>, trace: Trace, clock: nat)
    requires S.UserProgram(sp) && k < |S.Functions(sp)|
    ensures SameResult(S.RunSource(m, false, sp, S.Functions(sp)[k], args, trace, clock),
                       RunFunction(m, LowerProgram(sp), LowerProgram(sp).functions[k], args, trace, clock))
  {
    assert S.Functions(sp)[k] in S.Functions(sp);
    FunctionMeaning(m, sp, S.Functions(sp)[k], args, trace, clock);
  }

  /** The same for the top-level statements, which become the entry function. */
  lemma EntryLoweringPreservesMeaning(m: Machine, sp: S.Program, trace: Trace, clock: nat)
    requires S.UserProgram(sp)
    ensures SameResult(S.RunBody(m, false, sp, S.Entry(sp), map[], trace, clock),
                       RunFunction(m, LowerProgram(sp), LowerProgram(sp).entry, [], trace, clock))
  {
    BodyMeaning(m, sp, LowerProgram(sp).entry, S.Entry(sp), map[], trace, clock);
  }

  /** Lowered code reads no register before it is written: a machine that stops at such reads never does. */
  lemma LoweredNeverReadsUnwritten(m: Machine, sp: S.Program, k: nat, args: seq<Value>, trace: Trace, clock: nat)
    requires S.UserProgram(sp) && k < |S.Functions(sp)|
    ensures var r := RunFunction(m.(strict := true), LowerProgram(sp), LowerProgram(sp).functions[k], args, trace, clock);
            !(r.Failed? && S.RegisterError(r.error))
  {
    FunctionLoweringPreservesMeaning(m.(strict := true), sp, k, args, trace, clock);
  }

  /** Nor does the lowered entry. */
  lemma LoweredEntryNeverReadsUnwritten(m: Machine, sp: S.Program, trace: Trace, clock: nat)
    requires S.UserProgram(sp)
    ensures var r := RunFunction(m.(strict := true), LowerProgram(sp), LowerProgram(sp).entry, [], trace, clock);
            !(r.Failed? && S.RegisterError(r.error))
  {
    EntryLoweringPreservesMeaning(m.(strict := true), sp, trace, clock);
  }
}
