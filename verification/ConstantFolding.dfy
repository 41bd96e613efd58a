/**
 Constant folding is a lockstep bisimulation.  On code in which every register has one definition, and
 on runs that read no unwritten register, the folded code goes through the same indices, registers and
 variables, makes the same calls and ends with the same result or error.
 */
module ConstantFolding {
  import opened Basics
  import opened Int64
  import opened Values
  import opened Nir
  import opened Interpreter
  import opened Optimizer

  // ----- what the scan knows -----

  lemma {:induction false} ScanIsPrefix(f: Floats, code: seq<Instr>, k: nat, n: nat)
    requires k <= n <= |code|
    ensures Scan(f, code, n).0[..k] == Scan(f, code, k).0
    decreases n - k
  {
    if k < n {
      ScanIsPrefix(f, code, k, n - 1);
      assert Scan(f, code, n).0[..k] == Scan(f, code, n - 1).0[..k];
    } else {
      assert Scan(f, code, n).0[..k] == Scan(f, code, n).0;
    }
  }

  lemma FoldedAt(f: Floats, code: seq<Instr>, k: nat)
    requires k < |code|
    ensures Folded(f, code)[k] == Rewrite(f, code[k], Scan(f, code, k).1)
    ensures Folded(f, code)[..k] == Scan(f, code, k).0
  {
    ScanIsPrefix(f, code, k + 1, |code|);
    ScanIsPrefix(f, code, k, |code|);
    assert Folded(f, code)[k] == Folded(f, code)[..k + 1][k];
  }

  /** Whatever the scan knows comes from a constant instruction it has passed. */
  lemma {:induction false} KnownIsConst(f: Floats, code: seq<Instr>, k: nat, r: Reg)
    requires k <= |code| && r in Scan(f, code, k).1
    ensures exists d :: 0 <= d < k && Scan(f, code, k).0[d] == Const(r, Scan(f, code, k).1[r])
  {
    if k > 0 {
      var (done, known) := Scan(f, code, k - 1);
      var i := Rewrite(f, code[k - 1], known);
      if i.Const? && i.dest == r {
        assert Scan(f, code, k).0[k - 1] == i;
      } else {
        KnownIsConst(f, code, k - 1, r);
        var d :| 0 <= d < k - 1 && done[d] == Const(r, known[r]);
        assert Scan(f, code, k).0[d] == done[d];
      }
    }
  }

  /** The same definitions in the same places. */
  lemma FoldedKeepsDefs(f: Floats, code: seq<Instr>)
    ensures var folded := Folded(f, code);
            forall k :: 0 <= k < |code| ==> folded[k].HasDest() == code[k].HasDest() && (code[k].HasDest() ==> folded[k].dest == code[k].dest)
    ensures SingleDef(code) ==> SingleDef(Folded(f, code))
  {
    forall k | 0 <= k < |code|
      ensures var folded := Folded(f, code);
              folded[k].HasDest() == code[k].HasDest() && (code[k].HasDest() ==> folded[k].dest == code[k].dest)
    {
      FoldedAt(f, code, k);
    }
  }

  // ----- folding and checked overflow -----

  /** The true result of an integer operator leaves int64. */
  predicate Overflows(op: BinOp, a: Value, b: Value) {
    a.Int? && b.Int? && ((op.Add? && !InRange(a.i + b.i)) || (op.Sub? && !InRange(a.i - b.i)) || (op.Mul? && !InRange(a.i * b.i))
                         || (op.Div? && b.i != 0 && !InRange(TruncDiv(a.i, b.i))))
  }

  /** Folding agrees with a checking interpreter exactly when the integer result is in range; otherwise that one stops. */
  lemma CheckedFoldIff(f: Floats, op: BinOp, a: Value, b: Value)
    requires Fold(f, op, a, b).Some?
    ensures BinaryOp(f, true, op, a, b) == Ok(Fold(f, op, a, b).value) <==> !Overflows(op, a, b)
    ensures Overflows(op, a, b) ==> BinaryOp(f, true, op, a, b) == Err(Arith(Overflow))
  {
    if a.Int? && b.Int? {
      if op.Add? && InRange(a.i + b.i) { CongruentInRangeIsEqual(AddInt(false, a.i, b.i).value, a.i + b.i); }
      if op.Sub? && InRange(a.i - b.i) { CongruentInRangeIsEqual(SubInt(false, a.i, b.i).value, a.i - b.i); }
      if op.Mul? && InRange(a.i * b.i) { CongruentInRangeIsEqual(MulInt(false, a.i, b.i).value, a.i * b.i); }
      if op.Div? && InRange(TruncDiv(a.i, b.i)) { CongruentInRangeIsEqual(DivInt(false, a.i, b.i).value, TruncDiv(a.i, b.i)); }
    }
  }

  /** No operator the scan folds overflows. */
  ghost predicate FoldsInRange(f: Floats, code: seq<Instr>) {
    forall k :: 0 <= k < |code| ==> FoldInRange(code[k], Scan(f, code, k).1)
  }

  predicate FoldInRange(i: Instr, known: Known) {
    i.Binary? && i.left in known && i.right in known ==> !Overflows(i.bop, known[i.left], known[i.right])
  }

  /** One folded operator: what it becomes is what the interpreter computes, unless it overflows and is checked. */
  lemma FoldAgrees(m: Machine, op: BinOp, a: Value, b: Value)
    requires Fold(m.float, op, a, b).Some?
    requires m.checked ==> !Overflows(op, a, b) || BinaryOp(m.float, true, op, a, b).Ok?
    ensures BinaryOp(m.float, m.checked, op, a, b) == Ok(Fold(m.float, op, a, b).value)
  {
    hide BinaryOp, Fold, Overflows;
    if m.checked { CheckedFoldIff(m.float, op, a, b); } else { FoldIsWrappingBinary(m.float, op, a, b); }
  }

  // ----- the invariant and one step -----

  /** A written register that a constant instruction defines holds that constant. */
  ghost predicate ConstantsHold(code: seq<Instr>, regs: Regs) {
    forall d :: 0 <= d < |code| && code[d].Const? && code[d].dest in regs ==> regs[code[d].dest] == code[d].literal
  }

  lemma KnownHolds(f: Floats, code: seq<Instr>, pc: nat, regs: Regs, r: Reg)
    requires pc < |code| && ConstantsHold(Folded(f, code), regs) && r in regs && r in Scan(f, code, pc).1
    ensures regs[r] == Scan(f, code, pc).1[r]
  {
    KnownIsConst(f, code, pc, r);
    var d :| 0 <= d < pc && Scan(f, code, pc).0[d] == Const(r, Scan(f, code, pc).1[r]);
    FoldedAt(f, code, pc);
    assert Folded(f, code)[d] == Folded(f, code)[..pc][d];
  }

  /**
   One step in lockstep: the rewritten instruction, at the same state, reads what it needs and has the
   same effect.  In particular a check is dropped only where it would have passed.
   */
  lemma FoldedStep(m: Machine, nextReg: nat, code: seq<Instr>, pc: nat, regs: Regs, vars: Vars, vals: seq<Value>)
    returns (vals': seq<Value>)
    requires m.strict && pc < |code| && ConstantsHold(Folded(m.float, code), regs)
    requires GetAll(m, nextReg, regs, code[pc].Args()) == Ok(vals)
    requires !m.checked || !Act(m, code[pc], pc, vals, vars).Fault? || FoldInRange(code[pc], Scan(m.float, code, pc).1)
    ensures var i := Folded(m.float, code)[pc];
            && GetAll(m, nextReg, regs, i.Args()) == Ok(vals')
            && |vals'| == |i.Args()|
            && Act(m, i, pc, vals', vars) == Act(m, code[pc], pc, vals, vars)
  {
    var f, i := m.float, code[pc];
    var known := Scan(f, code, pc).1;
    FoldedAt(f, code, pc);
    vals' := if Rewrite(f, i, known) == i then vals else [];
    forall r | r in i.Args() && r in known
      ensures r in regs && regs[r] == known[r]
    {
      var k :| 0 <= k < |i.Args()| && i.Args()[k] == r;
      assert Get(m, nextReg, regs, r) == Ok(vals[k]);
      KnownHolds(f, code, pc, regs, r);
    }
    ReadValues(m, nextReg, regs, i.Args(), vals);
    if Rewrite(f, i, known) != i {
      if i.Binary? {
        TwoValues(i, vals);
        FoldAgrees(m, i.bop, known[i.left], known[i.right]);
      }
    }
  }

  lemma TwoValues(i: Instr, vals: seq<Value>)
    requires i.Binary? && |vals| == |i.Args()|
    ensures i.Args()[0] == i.left && i.Args()[1] == i.right && i.left in i.Args() && i.right in i.Args()
  {
  }

  lemma ReadValues(m: Machine, nextReg: nat, regs: Regs, args: seq<Reg>, vals: seq<Value>)
    requires m.strict && GetAll(m, nextReg, regs, args) == Ok(vals)
    ensures |vals| == |args| && forall k :: 0 <= k < |args| ==> args[k] in regs && vals[k] == regs[args[k]]
  {
    forall k | 0 <= k < |args| ensures args[k] in regs && vals[k] == regs[args[k]] {
      assert Get(m, nextReg, regs, args[k]) == Ok(vals[k]);
    }
  }

  /** Writing a result keeps the invariant. */
  lemma ConstantsStillHold(m: Machine, code: seq<Instr>, pc: nat, regs: Regs, v: Value)
    requires pc < |code| && SingleDef(code) && code[pc].HasDest() && ConstantsHold(code, regs)
    requires code[pc].Const? ==> v == code[pc].literal
    ensures ConstantsHold(code, regs[code[pc].dest := v])
  {
    forall d | 0 <= d < |code| && code[d].Const? && code[d].dest in regs[code[pc].dest := v]
      ensures regs[code[pc].dest := v][code[d].dest] == code[d].literal
    {
      if d < pc { assert code[d].dest != code[pc].dest; }
      if pc < d { assert code[pc].dest != code[d].dest; }
    }
  }

  // ----- whole runs -----

  function FoldPass(f: Floats): seq<Instr> -> seq<Instr> {
    code => Folded(f, code)
  }

  ghost predicate DestsFit(code: seq<Instr>, nextReg: nat) {
    forall k :: 0 <= k < |code| && code[k].HasDest() ==> code[k].dest < nextReg
  }

  /** One definition for each register, all below the function's register count. */
  ghost predicate SingleAssignment(fn: Function) {
    SingleDef(fn.code) && DestsFit(fn.code, fn.nextReg)
  }

  ghost predicate SingleAssignments(p: Program) {
    SingleAssignment(p.entry) && forall fn <- p.functions :: SingleAssignment(fn)
  }

  predicate ReadUnwritten(r: FnResult) {
    r.Failed? && r.error.UnwrittenRegister?
  }

  ghost predicate FoldsInRangeEverywhere(f: Floats, p: Program) {
    forall fn <- p.functions :: FoldsInRange(f, fn.code)
  }

  /** Overflow is not checked, or the run does not fail, or nothing folded overflows. */
  ghost predicate FoldIsExact(m: Machine, p: Program, fn: Function, r: FnResult) {
    !m.checked || !r.Failed? || (FoldsInRange(m.float, fn.code) && FoldsInRangeEverywhere(m.float, p))
  }

  lemma {:induction false} FoldedRun(m: Machine, p: Program, fn: Function, pc: nat, regs: Regs, vars: Vars, trace: Trace, clock: nat)
    requires m.strict && SingleAssignments(p) && SingleAssignment(fn)
    requires ConstantsHold(Folded(m.float, fn.code), regs)
    requires !ReadUnwritten(Run(m, p, fn, pc, regs, vars, trace, clock))
    requires FoldIsExact(m, p, fn, Run(m, p, fn, pc, regs, vars, trace, clock))
    ensures var pass := FoldPass(m.float);
            Run(m, MapProgram(p, pass), MapFunction(fn, pass), pc, regs, vars, trace, clock)
              == Run(m, p, fn, pc, regs, vars, trace, clock)
    decreases clock, if pc < |fn.code| then |fn.code| - pc else 0
  {
    hide Act, Folded, GetAll, CallOut, ConstantsHold, FoldInRange, FoldsInRangeEverywhere;
    var pass := FoldPass(m.float);
    var q, gn := MapProgram(p, pass), MapFunction(fn, pass);
    assert gn.code == Folded(m.float, fn.code);
    if pc < |fn.code| {
      var i, j := fn.code[pc], gn.code[pc];
      var vals := GetAll(m, fn.nextReg, regs, i.Args());
      if vals.Ok? {
        FoldedKeepsDefs(m.float, fn.code);
        var vals' := FoldedStep(m, fn.nextReg, fn.code, pc, regs, vars, vals.value);
        var e := Act(m, i, pc, vals.value, vars);
        if e.Goto? {
          var regs' := if e.result.Some? then regs[i.dest := e.result.value] else regs;
          if e.result.Some? {
            ConstResult(m, j, pc, vals', vars);
            ConstantsStillHold(m, gn.code, pc, regs, e.result.value);
          }
          if e.pc > pc {
            FoldedRun(m, p, fn, e.pc, regs', e.vars, trace, clock);
          } else if clock > 0 {
            FoldedRun(m, p, fn, e.pc, regs', e.vars, trace, clock - 1);
          }
        } else if e.Invoke? {
          CallsStayCalls(m.float, fn.code, pc);
          var r := CallOut(m, p, i.callee, vals.value, trace, clock);
          CallEnds(m, p, i.callee, vals.value, trace, clock);
          FoldedCall(m, p, i.callee, vals.value, trace, clock);
          if r.Done? {
            ConstantsStillHold(m, gn.code, pc, regs, r.value);
            FoldedRun(m, p, fn, pc + 1, regs[i.dest := r.value], vars, r.trace, r.clock);
          }
        }
      } else {
        ReadErrors(m, fn.nextReg, regs, i.Args());
        InvalidIsNotRewritten(m, fn.nextReg, fn.code, pc, regs);
      }
    }
  }

  lemma ConstResult(m: Machine, i: Instr, pc: nat, vals: seq<Value>, vars: Vars)
    requires |vals| == |i.Args()|
    ensures i.Const? ==> Act(m, i, pc, vals, vars) == Goto(pc + 1, Some(i.literal), vars)
  {
  }

  lemma CallsStayCalls(f: Floats, code: seq<Instr>, pc: nat)
    requires pc < |code| && code[pc].Call?
    ensures Folded(f, code)[pc] == code[pc]
  {
    FoldedAt(f, code, pc);
  }

  /** An instruction that reads an invalid register is not rewritten: known registers are defined ones. */
  lemma InvalidIsNotRewritten(m: Machine, nextReg: nat, code: seq<Instr>, pc: nat, regs: Regs)
    requires m.strict && pc < |code| && DestsFit(code, nextReg)
    requires GetAll(m, nextReg, regs, code[pc].Args()) == Err(InvalidRegister)
    ensures Folded(m.float, code)[pc] == code[pc]
  {
    var i, known := code[pc], Scan(m.float, code, pc).1;
    FoldedAt(m.float, code, pc);
    var k := InvalidArg(m, nextReg, regs, i.Args());
    if i.Args()[k] in known {
      KnownIsConst(m.float, code, pc, i.Args()[k]);
      var d :| 0 <= d < pc && Scan(m.float, code, pc).0[d] == Const(i.Args()[k], known[i.Args()[k]]);
      assert Folded(m.float, code)[d] == Folded(m.float, code)[..pc][d];
      FoldedKeepsDefs(m.float, code);
      assert false;
    }
  }

  lemma {:induction false} InvalidArg(m: Machine, nextReg: nat, regs: Regs, args: seq<Reg>) returns (k: nat)
    requires GetAll(m, nextReg, regs, args) == Err(InvalidRegister)
    ensures k < |args| && args[k] >= nextReg
  {
    k := 0;
    if Get(m, nextReg, regs, args[0]).Ok? {
      k := InvalidArg(m, nextReg, regs, args[1..]);
      k := k + 1;
    }
  }

  lemma {:induction false} ReadErrors(m: Machine, nextReg: nat, regs: Regs, args: seq<Reg>)
    requires GetAll(m, nextReg, regs, args).Err?
    ensures GetAll(m, nextReg, regs, args).error in {InvalidRegister, UnwrittenRegister}
  {
    if Get(m, nextReg, regs, args[0]).Ok? { ReadErrors(m, nextReg, regs, args[1..]); }
  }

  lemma {:induction false} FoldedCall(m: Machine, p: Program, name: string, args: seq<Value>, trace: Trace, clock: nat)
    requires m.strict && SingleAssignments(p) && !ReadUnwritten(CallOut(m, p, name, args, trace, clock))
    requires !m.checked || !CallOut(m, p, name, args, trace, clock).Failed? || FoldsInRangeEverywhere(m.float, p)
    ensures CallOut(m, MapProgram(p, FoldPass(m.float)), name, args, trace, clock) == CallOut(m, p, name, args, trace, clock)
    decreases clock, 0
  {
    var pass := FoldPass(m.float);
    MappedFind(p, pass, name);
    var i := FindUser(p.functions, name);
    if i.Some? && clock > 0 {
      var fn := p.functions[i.value];
      assert fn in p.functions;
      FoldedRun(m, p, fn, 0, map[], Bind(fn.params, args), trace + [Event(name, args)], clock - 1);
    }
  }

  // ----- from strict machines to the interpreter -----

  /** A run that reads no unwritten register is the interpreter's own run. */
  lemma {:induction false} StrictIsLenient(m: Machine, p: Program, fn: Function, pc: nat, regs: Regs, vars: Vars, trace: Trace, clock: nat)
    requires !ReadUnwritten(Run(m.(strict := true), p, fn, pc, regs, vars, trace, clock))
    ensures Run(m.(strict := false), p, fn, pc, regs, vars, trace, clock) == Run(m.(strict := true), p, fn, pc, regs, vars, trace, clock)
    decreases clock, if pc < |fn.code| then |fn.code| - pc else 0
  {
    hide Act, GetAll, CallOut;
    var s, l := m.(strict := true), m.(strict := false);
    if pc < |fn.code| {
      var i := fn.code[pc];
      StrictReads(m, fn.nextReg, regs, i.Args());
      var vals := GetAll(s, fn.nextReg, regs, i.Args());
      if vals.Ok? {
        SameAct(m, i, pc, vals.value, vars);
        var e := Act(s, i, pc, vals.value, vars);
        if e.Goto? {
          var regs' := if e.result.Some? then regs[i.dest := e.result.value] else regs;
          if e.pc > pc { StrictIsLenient(m, p, fn, e.pc, regs', e.vars, trace, clock); }
          else if clock > 0 { StrictIsLenient(m, p, fn, e.pc, regs', e.vars, trace, clock - 1); }
        } else if e.Invoke? {
          var r := CallOut(s, p, i.callee, vals.value, trace, clock);
          CallEnds(s, p, i.callee, vals.value, trace, clock);
          StrictCall(m, p, i.callee, vals.value, trace, clock);
          if r.Done? { StrictIsLenient(m, p, fn, pc + 1, regs[i.dest := r.value], vars, r.trace, r.clock); }
        }
      }
    }
  }

  lemma SameAct(m: Machine, i: Instr, pc: nat, vals: seq<Value>, vars: Vars)
    requires |vals| == |i.Args()|
    ensures Act(m.(strict := true), i, pc, vals, vars) == Act(m.(strict := false), i, pc, vals, vars)
  {
  }

  lemma {:induction false} StrictReads(m: Machine, n: nat, regs: Regs, args: seq<Reg>)
    ensures var s := GetAll(m.(strict := true), n, regs, args);
            s != Err(UnwrittenRegister) ==> GetAll(m.(strict := false), n, regs, args) == s
  {
    if args != [] { StrictReads(m, n, regs, args[1..]); }
  }

  lemma {:induction false} StrictCall(m: Machine, p: Program, name: string, args: seq<Value>, trace: Trace, clock: nat)
    requires !ReadUnwritten(CallOut(m.(strict := true), p, name, args, trace, clock))
    ensures CallOut(m.(strict := false), p, name, args, trace, clock) == CallOut(m.(strict := true), p, name, args, trace, clock)
    decreases clock, 0
  {
    var i := FindUser(p.functions, name);
    if i.Some? && clock > 0 {
      var fn := p.functions[i.value];
      StrictIsLenient(m, p, fn, 0, map[], Bind(fn.params, args), trace + [Event(name, args)], clock - 1);
    }
  }

  /**
   Folding the constants of every function keeps every run that reads no unwritten register, loops,
   calls, errors and running out of time included; where overflow is checked, it keeps the runs that do not
   fail, and all of them if nothing folded overflows.
   */
  lemma FoldingKeepsRuns(m: Machine, p: Program, fn: Function, args: seq<Value>, trace: Trace, clock: nat)
    requires SingleAssignments(p) && SingleAssignment(fn)
    requires !ReadUnwritten(RunFunction(m.(strict := true), p, fn, args, trace, clock))
    requires FoldIsExact(m, p, fn, RunFunction(m.(strict := true), p, fn, args, trace, clock))
    ensures var q, gn := MapProgram(p, FoldPass(m.float)), MapFunction(fn, FoldPass(m.float));
            var r := RunFunction(m.(strict := true), p, fn, args, trace, clock);
            && RunFunction(m.(strict := true), q, gn, args, trace, clock) == r
            && RunFunction(m.(strict := false), q, gn, args, trace, clock) == r
            && RunFunction(m.(strict := false), p, fn, args, trace, clock) == r
  {
    if !fn.isExtern {
      var s := m.(strict := true);
      var q, gn := MapProgram(p, FoldPass(m.float)), MapFunction(fn, FoldPass(m.float));
      FoldedRun(s, p, fn, 0, map[], Bind(fn.params, args), trace, clock);
      StrictIsLenient(m, p, fn, 0, map[], Bind(fn.params, args), trace, clock);
      StrictIsLenient(m, q, gn, 0, map[], Bind(fn.params, args), trace, clock);
    }
  }

  /** Folding keeps single assignment, so rounds can be repeated. */
  lemma FoldingKeepsSingleAssignment(f: Floats, fn: Function)
    requires SingleAssignment(fn)
    ensures SingleAssignment(MapFunction(fn, FoldPass(f)))
  {
    FoldedKeepsDefs(f, fn.code);
  }
}
