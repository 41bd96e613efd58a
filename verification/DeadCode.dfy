/**
 Dead-code removal.  With the jumps renumbered it keeps every run that does not fail; the optimizer's
 removal, which leaves the targets as they were, is that removal exactly when no jump target lies
 behind a removed instruction.
 */
module DeadCode {
  import opened Basics
  import opened Values
  import opened Nir
  import opened Interpreter
  import opened Optimizer

  // ----- the kept-index map -----

  /** Where index `pc` of the code ends up: the number of instructions kept before it. */
  function NewIndex(code: seq<Instr>, used: set<Reg>, pc: nat): nat {
    if pc <= |code| then |Filter(code[..pc], used)| else |Filter(code, used)| + (pc - |code|)
  }

  function Retarget(i: Instr, code: seq<Instr>, used: set<Reg>): (r: Instr)
    ensures r.Args() == i.Args() && r.HasDest() == i.HasDest() && (i.HasDest() ==> r.dest == i.dest)
  {
    match i
    case Jump(t) => Jump(NewIndex(code, used, t))
    case JumpIfFalse(a, t) => JumpIfFalse(a, NewIndex(code, used, t))
    case _ => i
  }

  /** Dead-code removal with every jump redirected to the new index of its target. */
  function Renumbered(code: seq<Instr>): (r: seq<Instr>)
    ensures |r| == |Dce(code)|
  {
    var used, kept := Used(code), Dce(code);
    seq(|kept|, k requires 0 <= k < |kept| => Retarget(kept[k], code, used))
  }

  lemma NewIndexStep(code: seq<Instr>, used: set<Reg>, pc: nat)
    requires pc < |code|
    ensures NewIndex(code, used, pc + 1) == NewIndex(code, used, pc) + if Dead(code[pc], used) then 0 else 1
  {
    assert code[..pc + 1][..pc] == code[..pc];
  }

  lemma {:induction false} NewIndexMonotone(code: seq<Instr>, used: set<Reg>, a: nat, b: nat)
    requires a <= b
    ensures NewIndex(code, used, a) <= NewIndex(code, used, b)
    decreases b - a
  {
    assert code[..|code|] == code;
    if a < b {
      NewIndexMonotone(code, used, a, b - 1);
      if b <= |code| { NewIndexStep(code, used, b - 1); }
    }
  }

  /** A kept instruction is found at its new index. */
  lemma {:induction false} KeptAt(code: seq<Instr>, used: set<Reg>, pc: nat, n: nat)
    requires pc < n <= |code| && !Dead(code[pc], used)
    ensures var kept, k := Filter(code[..n], used), NewIndex(code, used, pc);
            k < |kept| && kept[k] == code[pc]
    decreases n
  {
    assert code[..n][..n - 1] == code[..n - 1];
    if pc < n - 1 { KeptAt(code, used, pc, n - 1); }
  }

  // ----- the renumbered removal keeps runs -----

  ghost predicate SameUsed(used: set<Reg>, a: Regs, b: Regs) {
    forall r :: r in used ==> (r in a <==> r in b) && (r in a ==> a[r] == b[r])
  }

  lemma {:induction false} SameReads(m: Machine, n: nat, a: Regs, b: Regs, args: seq<Reg>, used: set<Reg>)
    requires SameUsed(used, a, b) && forall r <- args :: r in used
    ensures GetAll(m, n, a, args) == GetAll(m, n, b, args)
  {
    if args != [] {
      assert args[0] in used;
      SameReads(m, n, a, b, args[1..], used);
    }
  }

  /** A removed instruction that does not fail only writes a register nobody reads, if anything. */
  lemma DeadStep(m: Machine, i: Instr, pc: nat, vals: seq<Value>, vars: Vars, used: set<Reg>)
    requires Dead(i, used) && |vals| == |i.Args()|
    ensures var e := Act(m, i, pc, vals, vars);
            e.Fault? || (e.Goto? && e.pc == pc + 1 && e.vars == vars && (e.result.Some? ==> i.dest !in used))
  {
  }

  /** A kept instruction has the same effect, at its new index. */
  lemma KeptStep(m: Machine, code: seq<Instr>, used: set<Reg>, pc: nat, vals: seq<Value>, vars: Vars)
    requires pc < |code| && |vals| == |code[pc].Args()| && !Dead(code[pc], used)
    ensures var e := Act(m, code[pc], pc, vals, vars);
            var e' := Act(m, Retarget(code[pc], code, used), NewIndex(code, used, pc), vals, vars);
            match e
            case Goto(next, result, vs) =>
              && e' == Goto(NewIndex(code, used, next), result, vs)
              && (next > pc <==> NewIndex(code, used, next) > NewIndex(code, used, pc))
            case other => e' == other
  {
    hide NewIndex;
    NewIndexStep(code, used, pc);
    var e := Act(m, code[pc], pc, vals, vars);
    if e.Goto? {
      if e.pc > pc {
        NewIndexMonotone(code, used, pc + 1, e.pc);
      } else {
        NewIndexMonotone(code, used, e.pc, pc);
      }
    }
  }

  /** The renumbered run of `fn` from the new index of `pc`. */
  ghost function NewRun(m: Machine, p: Program, fn: Function, pc: nat, regs: Regs, vars: Vars, trace: Trace, clock: nat): FnResult {
    Run(m, MapProgram(p, Renumbered), MapFunction(fn, Renumbered), NewIndex(fn.code, Used(fn.code), pc), regs, vars, trace, clock)
  }

  /** Instructions without side effects that succeed on all operands: constants, no-ops, `!`, logic, casts that leave the value alone. */
  predicate NeverFails(i: Instr) {
    match i
    case Const(_, _) => true
    case Nop => true
    case Unary(_, op, _) => !op.Negate?
    case Binary(_, op, _, _) => op.And? || op.Or?
    case Cast(_, t, _) => CastKindOf(t).ToOther?
    case _ => false
  }

  /** Of the instructions that can be removed, exactly these never fail. */
  lemma NeverFailsIff(i: Instr, used: set<Reg>, some: Machine)
    requires Dead(i, used)
    ensures NeverFails(i) <==>
      forall m: Machine, vals, vars :: |vals| == |i.Args()| ==> !Act(m, i, 0, vals, vars).Fault?
  {
    if !NeverFails(i) {
      var vals := if i.Args() == [] then [] else if |i.Args()| == 1 then [Str("")] else [Null, Null];
      assert Act(some, i, 0, vals, map[]).Fault?;
    }
  }

  /** Nothing that is removed can fail: not the instruction, and not reading its operands. */
  ghost predicate Harmless(m: Machine, fn: Function) {
    forall i <- fn.code :: Dead(i, Used(fn.code)) ==>
      NeverFails(i) && (i.Args() == [] || (!m.strict && forall r <- i.Args() :: r < fn.nextReg))
  }

  ghost predicate HarmlessProgram(m: Machine, p: Program) {
    forall fn <- p.functions :: Harmless(m, fn)
  }

  /** A run that removal keeps: it does not fail, or nothing removed could fail. */
  ghost predicate Comparable(m: Machine, p: Program, fn: Function, r: FnResult) {
    !r.Failed? || (Harmless(m, fn) && HarmlessProgram(m, p))
  }

  lemma HarmlessStep(m: Machine, fn: Function, pc: nat, regs: Regs, vars: Vars)
    requires Harmless(m, fn) && pc < |fn.code| && Dead(fn.code[pc], Used(fn.code))
    ensures var vals := GetAll(m, fn.nextReg, regs, fn.code[pc].Args());
            vals.Ok? && Act(m, fn.code[pc], pc, vals.value, vars).Goto?
  {
    var i := fn.code[pc];
    assert i in fn.code;
    ReadsLeniently(m, fn.nextReg, regs, i.Args());
  }

  /** The interpreter reads every register there is. */
  lemma {:induction false} ReadsLeniently(m: Machine, nextReg: nat, regs: Regs, args: seq<Reg>)
    requires args == [] || (!m.strict && forall r <- args :: r < nextReg)
    ensures GetAll(m, nextReg, regs, args).Ok?
  {
    if args != [] {
      assert args[0] in args && forall r <- args[1..] :: r in args;
      ReadsLeniently(m, nextReg, regs, args[1..]);
    }
  }

  lemma {:induction false} RenumberedRun(m: Machine, p: Program, fn: Function, pc: nat, regs: Regs, regs': Regs, vars: Vars,
                                         trace: Trace, clock: nat)
    requires SameUsed(Used(fn.code), regs, regs')
    requires Comparable(m, p, fn, Run(m, p, fn, pc, regs, vars, trace, clock))
    ensures NewRun(m, p, fn, pc, regs', vars, trace, clock) == Run(m, p, fn, pc, regs, vars, trace, clock)
    decreases clock, if pc < |fn.code| then |fn.code| - pc else 0, 1
  {
    hide Act, Used, NewIndex, Dead, SameUsed, Retarget, Filter, MapProgram, Renumbered, CallOut, GetAll, Dce, Harmless, HarmlessProgram;
    var code, used := fn.code, Used(fn.code);
    EndIndex(code, used);
    if pc >= |code| {
      NewIndexMonotone(code, used, |code|, pc);
    } else if Dead(code[pc], used) {
      if Harmless(m, fn) { HarmlessStep(m, fn, pc, regs, vars); }
      var vals := GetAll(m, fn.nextReg, regs, code[pc].Args());
      var e := Act(m, code[pc], pc, vals.value, vars);
      NewIndexStep(code, used, pc);
      DeadStep(m, code[pc], pc, vals.value, vars, used);
      var after := if e.result.Some? then regs[code[pc].dest := e.result.value] else regs;
      if e.result.Some? { UnusedWrite(used, regs, regs', code[pc].dest, e.result.value); }
      RenumberedRun(m, p, fn, pc + 1, after, regs', vars, trace, clock);
    } else {
      ArgsAreUsed(code, pc);
      SameReads(m, fn.nextReg, regs, regs', code[pc].Args(), used);
      KeptInstr(code, pc);
      var vals := GetAll(m, fn.nextReg, regs, code[pc].Args());
      if vals.Err? {
        RetargetReads(code[pc], code, used);
      } else if code[pc].Call? {
        KeptCall(m, p, fn, pc, regs, regs', vals.value, vars, trace, clock);
      } else {
        KeptInstruction(m, p, fn, pc, regs, regs', vals.value, vars, trace, clock);
      }
    }
  }

  lemma {:induction false} KeptInstruction(m: Machine, p: Program, fn: Function, pc: nat, regs: Regs, regs': Regs, vals: seq<Value>,
                                           vars: Vars, trace: Trace, clock: nat)
    requires SameUsed(Used(fn.code), regs, regs') && pc < |fn.code| && !fn.code[pc].Call?
    requires !Dead(fn.code[pc], Used(fn.code))
    requires GetAll(m, fn.nextReg, regs, fn.code[pc].Args()) == Ok(vals) == GetAll(m, fn.nextReg, regs', fn.code[pc].Args())
    requires var at := NewIndex(fn.code, Used(fn.code), pc);
             at < |Renumbered(fn.code)| && Renumbered(fn.code)[at] == Retarget(fn.code[pc], fn.code, Used(fn.code))
    requires Comparable(m, p, fn, Run(m, p, fn, pc, regs, vars, trace, clock))
    ensures NewRun(m, p, fn, pc, regs', vars, trace, clock) == Run(m, p, fn, pc, regs, vars, trace, clock)
    decreases clock, if pc < |fn.code| then |fn.code| - pc else 0, 0
  {
    hide Act, Used, NewIndex, Dead, SameUsed, Retarget, Filter, MapProgram, Renumbered, CallOut, GetAll, Dce, Harmless, HarmlessProgram;
    var code, used, i := fn.code, Used(fn.code), fn.code[pc];
    KeptStep(m, code, used, pc, vals, vars);
    var e := Act(m, i, pc, vals, vars);
    if e.Goto? {
      var after := if e.result.Some? then regs[i.dest := e.result.value] else regs;
      var after' := if e.result.Some? then regs'[i.dest := e.result.value] else regs';
      if e.result.Some? { UsedWrite(used, regs, regs', i.dest, e.result.value); }
      if e.pc > pc {
        RenumberedRun(m, p, fn, e.pc, after, after', e.vars, trace, clock);
      } else if clock > 0 {
        RenumberedRun(m, p, fn, e.pc, after, after', e.vars, trace, clock - 1);
      }
    }
  }

  lemma {:induction false} KeptCall(m: Machine, p: Program, fn: Function, pc: nat, regs: Regs, regs': Regs, vals: seq<Value>,
                                    vars: Vars, trace: Trace, clock: nat)
    requires SameUsed(Used(fn.code), regs, regs') && pc < |fn.code| && fn.code[pc].Call?
    requires !Dead(fn.code[pc], Used(fn.code))
    requires GetAll(m, fn.nextReg, regs, fn.code[pc].Args()) == Ok(vals) == GetAll(m, fn.nextReg, regs', fn.code[pc].Args())
    requires var at := NewIndex(fn.code, Used(fn.code), pc);
             at < |Renumbered(fn.code)| && Renumbered(fn.code)[at] == Retarget(fn.code[pc], fn.code, Used(fn.code))
    requires Comparable(m, p, fn, Run(m, p, fn, pc, regs, vars, trace, clock))
    ensures NewRun(m, p, fn, pc, regs', vars, trace, clock) == Run(m, p, fn, pc, regs, vars, trace, clock)
    decreases clock, if pc < |fn.code| then |fn.code| - pc else 0, 0
  {
    hide Act, Used, NewIndex, Dead, SameUsed, Retarget, Filter, MapProgram, Renumbered, CallOut, GetAll, Dce, Harmless, HarmlessProgram;
    var code, used, i := fn.code, Used(fn.code), fn.code[pc];
    NewIndexStep(code, used, pc);
    RetargetCall(i, code, used);
    var r := CallOut(m, p, i.callee, vals, trace, clock);
    RenumberedCall(m, p, i.callee, vals, trace, clock);
    if r.Done? {
      UsedWrite(used, regs, regs', i.dest, r.value);
      RenumberedRun(m, p, fn, pc + 1, regs[i.dest := r.value], regs'[i.dest := r.value], vars, r.trace, r.clock);
    }
  }

  lemma RetargetCall(i: Instr, code: seq<Instr>, used: set<Reg>)
    requires i.Call?
    ensures Retarget(i, code, used) == i
  {
  }

  lemma RetargetReads(i: Instr, code: seq<Instr>, used: set<Reg>)
    ensures Retarget(i, code, used).Args() == i.Args()
  {
  }

  lemma ArgsAreUsed(code: seq<Instr>, pc: nat)
    requires pc < |code|
    ensures forall r <- code[pc].Args() :: r in Used(code)
  {
  }

  lemma EndIndex(code: seq<Instr>, used: set<Reg>)
    ensures NewIndex(code, used, |code|) == |Filter(code, used)|
    ensures Dce(code) == Filter(code, Used(code))
  {
    assert code[..|code|] == code;
  }

  lemma KeptInstr(code: seq<Instr>, pc: nat)
    requires pc < |code| && !Dead(code[pc], Used(code))
    ensures var at := NewIndex(code, Used(code), pc);
            at < |Renumbered(code)| && Renumbered(code)[at] == Retarget(code[pc], code, Used(code))
  {
    KeptAt(code, Used(code), pc, |code|);
    assert code[..|code|] == code;
  }

  lemma UnusedWrite(used: set<Reg>, a: Regs, b: Regs, dest: Reg, v: Value)
    requires SameUsed(used, a, b) && dest !in used
    ensures SameUsed(used, a[dest := v], b)
  {
  }

  lemma UsedWrite(used: set<Reg>, a: Regs, b: Regs, dest: Reg, v: Value)
    requires SameUsed(used, a, b)
    ensures SameUsed(used, a[dest := v], b[dest := v])
  {
  }

  lemma {:induction false} RenumberedCall(m: Machine, p: Program, name: string, args: seq<Value>, trace: Trace, clock: nat)
    requires !CallOut(m, p, name, args, trace, clock).Failed? || HarmlessProgram(m, p)
    ensures CallOut(m, MapProgram(p, Renumbered), name, args, trace, clock) == CallOut(m, p, name, args, trace, clock)
    decreases clock, 0
  {
    hide Harmless, Renumbered, RunFunction;
    MappedFind(p, Renumbered, name);
    var i := FindUser(p.functions, name);
    if i.Some? && clock > 0 {
      var fn := p.functions[i.value];
      assert fn in p.functions;
      RenumberedFunction(m, p, fn, args, trace + [Event(name, args)], clock - 1);
    }
  }

  lemma {:induction false} RenumberedFunction(m: Machine, p: Program, fn: Function, args: seq<Value>, trace: Trace, clock: nat)
    requires Comparable(m, p, fn, RunFunction(m, p, fn, args, trace, clock))
    ensures RunFunction(m, MapProgram(p, Renumbered), MapFunction(fn, Renumbered), args, trace, clock)
              == RunFunction(m, p, fn, args, trace, clock)
    decreases clock, |fn.code| + 1
  {
    hide Harmless, HarmlessProgram, Run, Used, Filter, Renumbered, Dce;
    if !fn.isExtern {
      assert NewIndex(fn.code, Used(fn.code), 0) == 0 by { StartIndex(fn.code, Used(fn.code)); }
      RenumberedRun(m, p, fn, 0, map[], map[], Bind(fn.params, args), trace, clock);
    }
  }

  lemma StartIndex(code: seq<Instr>, used: set<Reg>)
    ensures NewIndex(code, used, 0) == 0
  {
  }

  /**
   Removing dead code everywhere and renumbering the jumps keeps every run that does not fail: the same
   value, variables, calls and remaining clock, or running out of time after the same calls.
   */
  lemma RenumberedKeepsRuns(m: Machine, p: Program, fn: Function, args: seq<Value>, trace: Trace, clock: nat)
    requires !RunFunction(m, p, fn, args, trace, clock).Failed?
    ensures RunFunction(m, MapProgram(p, Renumbered), MapFunction(fn, Renumbered), args, trace, clock)
              == RunFunction(m, p, fn, args, trace, clock)
  {
    RenumberedFunction(m, p, fn, args, trace, clock);
  }

  /** Where nothing that is removed can fail, it keeps the failing runs too. */
  lemma HarmlessRemovalKeepsAllRuns(m: Machine, p: Program, fn: Function, args: seq<Value>, trace: Trace, clock: nat)
    requires Harmless(m, fn) && HarmlessProgram(m, p)
    ensures RunFunction(m, MapProgram(p, Renumbered), MapFunction(fn, Renumbered), args, trace, clock)
              == RunFunction(m, p, fn, args, trace, clock)
  {
    RenumberedFunction(m, p, fn, args, trace, clock);
  }

  // ----- the removal as written -----

  /** Every jump target is at or before the first instruction that is removed. */
  ghost predicate TargetsBeforeRemoved(code: seq<Instr>) {
    forall j, k :: 0 <= j < |code| && code[j].IsJump() && 0 <= k < |code| && k < code[j].target ==> !Dead(code[k], Used(code))
  }

  lemma {:induction false} NewIndexFixed(code: seq<Instr>, used: set<Reg>, t: nat)
    ensures NewIndex(code, used, t) <= t
    ensures NewIndex(code, used, t) == t <==> forall k :: 0 <= k < |code| && k < t ==> !Dead(code[k], used)
    decreases t
  {
    hide Dead;
    assert code[..|code|] == code;
    if t > 0 {
      NewIndexFixed(code, used, t - 1);
      if t <= |code| { NewIndexStep(code, used, t - 1); }
    }
  }

  /** Leaving the targets alone is right exactly when no target lies behind a removed instruction. */
  lemma DceIsRenumberedIff(code: seq<Instr>)
    ensures Dce(code) == Renumbered(code) <==> TargetsBeforeRemoved(code)
  {
    var used, kept := Used(code), Dce(code);
    assert code[..|code|] == code;
    if TargetsBeforeRemoved(code) {
      forall k | 0 <= k < |kept| ensures Retarget(kept[k], code, used) == kept[k] {
        FilterKeeps(code, used, kept[k]);
        if kept[k].IsJump() { NewIndexFixed(code, used, kept[k].target); }
      }
      assert Dce(code) == Renumbered(code);
    }
    if Dce(code) == Renumbered(code) {
      forall j, k | 0 <= j < |code| && code[j].IsJump() && 0 <= k < |code| && k < code[j].target
        ensures !Dead(code[k], used)
      {
        KeptInstr(code, j);
        KeptAt(code, used, j, |code|);
        NewIndexFixed(code, used, code[j].target);
      }
    }
  }

  lemma {:induction false} FilterKeeps(code: seq<Instr>, used: set<Reg>, i: Instr)
    requires i in Filter(code, used)
    ensures i in code && !Dead(i, used)
  {
    var last := code[|code| - 1];
    if i in Filter(code[..|code| - 1], used) { FilterKeeps(code[..|code| - 1], used, i); }
  }

  ghost predicate RemovalIsSafe(p: Program) {
    TargetsBeforeRemoved(p.entry.code) && forall fn <- p.functions :: TargetsBeforeRemoved(fn.code)
  }

  lemma SafeRemoval(p: Program)
    requires RemovalIsSafe(p)
    ensures MapProgram(p, Dce) == MapProgram(p, Renumbered)
  {
    DceIsRenumberedIff(p.entry.code);
    forall i | 0 <= i < |p.functions|
      ensures MapFunction(p.functions[i], Dce) == MapFunction(p.functions[i], Renumbered)
    {
      assert p.functions[i] in p.functions;
      DceIsRenumberedIff(p.functions[i].code);
    }
    assert MapProgram(p, Dce).functions == MapProgram(p, Renumbered).functions;
  }

  /** One removal as the optimizer does it keeps every run that does not fail, where it is safe. */
  lemma RemovalKeepsRuns(m: Machine, p: Program, fn: Function, args: seq<Value>, trace: Trace, clock: nat)
    requires RemovalIsSafe(p) && TargetsBeforeRemoved(fn.code)
    requires !RunFunction(m, p, fn, args, trace, clock).Failed?
    ensures RunFunction(m, MapProgram(p, Dce), MapFunction(fn, Dce), args, trace, clock)
              == RunFunction(m, p, fn, args, trace, clock)
  {
    SafeRemoval(p);
    DceIsRenumberedIff(fn.code);
    RenumberedKeepsRuns(m, p, fn, args, trace, clock);
  }
}
