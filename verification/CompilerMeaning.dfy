/** From source to optimized code: the end-to-end statements, and programs that show their conditions are needed. */
module CompilerMeaning {
  import opened Basics
  import opened Int64
  import opened Values
  import opened Nir
  import opened Interpreter
  import opened Lowering
  import opened LoweredShape
  import opened LoweringMeaning
  import opened LexicalScope
  import opened Optimizer
  import opened ConstantFolding
  import opened DeadCode
  import opened PipelineMeaning
  import S = Source

  /** Lowered programs are in single assignment. */
  lemma LoweredIsSingleAssignment(p: S.Program)
    ensures SingleAssignments(LowerProgram(p))
  {
    LoweredEntryIsWellFormed(p);
    forall fn | fn in LowerProgram(p).functions ensures SingleAssignment(fn) {
      var i :| 0 <= i < |S.Functions(p)| && fn == LowerFunction(S.Functions(p)[i]);
      LoweredIsWellFormed(S.Functions(p)[i]);
    }
  }

  /**
   Compiling a well-scoped function without shadowing keeps its lexical meaning: the interpreter on the
   lowered code returns the same value after the same calls, or fails with the same error, or runs out of time.
   */
  lemma LoweringKeepsLexicalMeaning(m: Machine, p: S.Program, k: nat, args: seq<Value>, trace: Trace, clock: nat)
    requires S.UserProgram(p) && WellScopedProgram(p) && k < |S.Functions(p)|
    ensures SameEnding(S.RunSource(m, true, p, S.Functions(p)[k], args, trace, clock),
                       RunFunction(m, LowerProgram(p), LowerProgram(p).functions[k], args, trace, clock))
  {
    var f := S.Functions(p)[k];
    LexicalIsFlat(m, p, f, args, trace, clock);
    FunctionLoweringPreservesMeaning(m, p, k, args, trace, clock);
  }

  /**
   The same for the optimized code, at every level, when the optimizer removes nothing in front of a jump target and
   the source run does not fail.
   */
  lemma CompilingKeepsLexicalMeaning(m: Machine, p: S.Program, k: nat, args: seq<Value>, trace: Trace, clock: nat, level: Level)
    requires S.UserProgram(p) && WellScopedProgram(p) && k < |S.Functions(p)|
    requires !m.strict && SafeProgramAt(m.float, LowerProgram(p), level)
    requires !S.RunSource(m.(strict := true), true, p, S.Functions(p)[k], args, trace, clock).Failed?
    ensures var q := MapProgram(LowerProgram(p), LevelPass(m.float, level));
            SameEnding(S.RunSource(m.(strict := true), true, p, S.Functions(p)[k], args, trace, clock),
                       RunFunction(m, q, q.functions[k], args, trace, clock))
  {
    LoweredIsSingleAssignment(p);
    LoweringKeepsLexicalMeaning(m.(strict := true), p, k, args, trace, clock);
    PipelineKeepsRuns(m, LowerProgram(p), k, args, trace, clock, level);
    assert m.(strict := false) == m;
  }

  /** Both statements for the top-level statements, which become the entry. */
  lemma LoweringKeepsEntryLexicalMeaning(m: Machine, p: S.Program, trace: Trace, clock: nat)
    requires S.UserProgram(p) && WellScopedProgram(p) && WellScopedEntry(p)
    ensures SameEnding(S.RunBody(m, true, p, S.Entry(p), map[], trace, clock),
                       RunFunction(m, LowerProgram(p), LowerProgram(p).entry, [], trace, clock))
  {
    EntryLexicalIsFlat(m, p, trace, clock);
    EntryLoweringPreservesMeaning(m, p, trace, clock);
  }

  lemma CompilingKeepsEntryLexicalMeaning(m: Machine, p: S.Program, trace: Trace, clock: nat, level: Level)
    requires S.UserProgram(p) && WellScopedProgram(p) && WellScopedEntry(p)
    requires !m.strict && SafeProgramAt(m.float, LowerProgram(p), level)
    requires !S.RunBody(m.(strict := true), true, p, S.Entry(p), map[], trace, clock).Failed?
    ensures SameEnding(S.RunBody(m.(strict := true), true, p, S.Entry(p), map[], trace, clock),
                       var q := MapProgram(LowerProgram(p), LevelPass(m.float, level)); RunFunction(m, q, q.entry, [], trace, clock))
  {
    LoweredIsSingleAssignment(p);
    LoweringKeepsEntryLexicalMeaning(m.(strict := true), p, trace, clock);
    PipelineKeepsEntryRuns(m, LowerProgram(p), [], trace, clock, level);
    assert m.(strict := false) == m;
  }

  // ----- a name declared twice -----

  /** { let x = 1 } { let x = 2 } */
  const SIBLINGS: seq<S.Stmt> := [DeclaresX(1), DeclaresX(2)]

  function DeclaresX(v: i64): S.Stmt {
    S.Block([S.Let("x", S.Literal(Int(v)))])
  }

  lemma DeclaringX(v: i64, visible: set<string>)
    ensures var s := DeclaresX(v); Scoped(s, visible) && Unshadowed(s) && Declared(s) == {"x"} && Introduced(s) == {}
  {
    var ss := [S.Let("x", S.Literal(Int(v)))];
    assert ss[1..] == [] && Declared(ss[0]) == {"x"};
    assert DeclaredAll(ss) == Declared(ss[0]) + DeclaredAll(ss[1..]) == {"x"};
  }

  /** Blocks side by side may declare the same name; a block inside may not. */
  lemma SiblingsAreWellScoped()
    ensures WellScoped(SIBLINGS, {}) && !WellScoped(SHADOWING, {})
  {
    DeclaringX(1, {});
    DeclaringX(2, {});
    assert SIBLINGS[1..] == [DeclaresX(2)] && SIBLINGS[1..][1..] == [];
    var none: set<string> := {};
    assert none + none == none;
    DeclaringX(2, {"x"});
    assert SHADOWING[1..][0] == DeclaresX(2) && "x" in DeclaredAll(SHADOWING[1..]);
  }

  /** let x = 1; { let x = 2; } return x */
  const SHADOWING: seq<S.Stmt> :=
    [S.Let("x", S.Literal(Int(1))), S.Block([S.Let("x", S.Literal(Int(2)))]), S.Return(S.Name("x"))]

  lemma LetLiteral(m: Machine, lexical: bool, x: string, v: Value, st: S.State)
    ensures S.Exec(m, lexical, [], S.Let(x, S.Literal(v)), st) == S.Next(Null, st.(env := S.Define(st.env, x, v)))
  {
    assert S.Eval(m, lexical, [], S.Literal(v), st) == S.Next(v, st);
  }

  lemma ReturnName(m: Machine, lexical: bool, x: string, st: S.State)
    requires S.Lookup(st.env, x).Some?
    ensures S.Exec(m, lexical, [], S.Return(S.Name(x)), st) == S.Exit(S.Lookup(st.env, x).value, st)
  {
    assert S.Eval(m, lexical, [], S.Name(x), st) == S.Next(S.Lookup(st.env, x).value, st);
  }

  lemma OneStatement(m: Machine, lexical: bool, s: S.Stmt, st: S.State)
    ensures S.ExecAll(m, lexical, [], [s], st) == S.Exec(m, lexical, [], s, st)
  {
    assert [s][1..] == [];
  }

  lemma InnerBlock(m: Machine, lexical: bool, st: S.State)
    requires st.env == [map["x" := Int(1)]]
    ensures S.Exec(m, lexical, [], SHADOWING[1], st) ==
      S.Next(Null, st.(env := [map["x" := Int(if lexical then 1 else 2)]]))
  {
    var inner := st.(env := if lexical then st.env + [map[]] else st.env);
    var decl := S.Let("x", S.Literal(Int(2)));
    OneStatement(m, lexical, decl, inner);
    LetLiteral(m, lexical, "x", Int(2), inner);
    if lexical {
      assert S.Define(inner.env, "x", Int(2))[..1] == st.env;
    } else {
      assert st.env[0]["x" := Int(2)] == map["x" := Int(2)];
      assert S.Define(inner.env, "x", Int(2)) == [map["x" := Int(2)]];
    }
  }

  lemma ShadowingRun(m: Machine, lexical: bool, trace: Trace, clock: nat)
    ensures var r := S.RunBody(m, lexical, [], SHADOWING, map[], trace, clock);
            r.Done? && r.value == Int(if lexical then 1 else 2)
  {
    var s0 := S.State([map[]], trace, clock);
    LetLiteral(m, lexical, "x", Int(1), s0);
    var s1 := S.State([map["x" := Int(1)]], trace, clock);
    assert S.Define(s0.env, "x", Int(1)) == s1.env;
    InnerBlock(m, lexical, s1);
    var s2 := S.State([map["x" := Int(if lexical then 1 else 2)]], trace, clock);
    ReturnName(m, lexical, "x", s2);
    OneStatement(m, lexical, SHADOWING[2], s2);
    var rest := SHADOWING[1..];
    assert rest[0] == SHADOWING[1] && rest[1..] == [SHADOWING[2]];
    assert S.ExecAll(m, lexical, [], rest, s1) == S.ExecAll(m, lexical, [], [SHADOWING[2]], s2);
    assert S.ExecAll(m, lexical, [], SHADOWING, s0) == S.ExecAll(m, lexical, [], rest, s1);
  }

  /** With the inner declaration the two readings differ: 1 lexically, 2 as lowered. */
  lemma ShadowingChangesMeaning(m: Machine, trace: Trace, clock: nat)
    ensures var lexical := S.RunBody(m, true, [], SHADOWING, map[], trace, clock);
            lexical.Done? && lexical.value == Int(1)
    ensures var flat := S.RunBody(m, false, [], SHADOWING, map[], trace, clock);
            flat.Done? && flat.value == Int(2)
  {
    ShadowingRun(m, true, trace, clock);
    ShadowingRun(m, false, trace, clock);
  }

  // ----- a removal in front of a jump target -----

  /** 1; if (false) { return 1 } return 2 */
  const SKIPPING: seq<S.Stmt> :=
    [S.ExprStmt(S.Literal(Int(1))),
     S.If(S.Literal(Bool(false)), S.Return(S.Literal(Int(1)))),
     S.Return(S.Literal(Int(2)))]

  const SKIPPING_CODE: seq<Instr> :=
    [Const(0, Int(1)), Const(1, Bool(false)), JumpIfFalse(1, 5), Const(2, Int(1)), Instr.Return(Some(2)),
     Const(3, Int(2)), Instr.Return(Some(3))]

  lemma LoweredReturn(v: Value, at: nat, next: nat)
    ensures LowerStmt(S.Return(S.Literal(v)), at, next)
         == LoweredStmt([Const(next, v), Instr.Return(Some(next))], next + 1)
  {
    assert LowerExpr(S.Literal(v), at, next) == Lowered([Const(next, v)], next, next + 1);
  }

  lemma LoweredGuard()
    ensures LowerStmt(SKIPPING[1], 1, 1)
        == LoweredStmt([Const(1, Bool(false)), JumpIfFalse(1, 5), Const(2, Int(1)), Instr.Return(Some(2))], 3)
  {
    LoweredReturn(Int(1), 3, 2);
    assert LowerExpr(S.Literal(Bool(false)), 1, 1) == Lowered([Const(1, Bool(false))], 1, 2);
  }

  lemma LoweredTwo(a: S.Stmt, b: seq<S.Stmt>, at: nat, next: nat)
    ensures LowerAll([a] + b, at, next) ==
      var x := LowerStmt(a, at, next);
      var y := LowerAll(b, at + |x.code|, x.next);
      LoweredStmt(x.code + y.code, y.next)
  {
    assert ([a] + b)[1..] == b;
  }

  lemma SkippingLowered()
    ensures LowerFunction(S.Function("f", [], SKIPPING, false)) == Function("f", [], SKIPPING_CODE, 4, false)
  {
    hide LowerStmt, LowerAll;
    var first := LoweredStmt([Const(0, Int(1))], 1);
    assert LowerStmt(SKIPPING[0], 0, 0) == first by { LoweredExprStmt(Int(1), 0, 0); }
    LoweredGuard();
    LoweredReturn(Int(2), 5, 3);
    LoweredNone(7, 4);
    LoweredTwo(SKIPPING[2], [], 5, 3);
    LoweredTwo(SKIPPING[1], [SKIPPING[2]], 1, 1);
    LoweredTwo(SKIPPING[0], [SKIPPING[1], SKIPPING[2]], 0, 0);
    assert [SKIPPING[0]] + [SKIPPING[1], SKIPPING[2]] == SKIPPING;
    assert [SKIPPING[2]] + [] == [SKIPPING[2]] && [SKIPPING[1]] + [SKIPPING[2]] == [SKIPPING[1], SKIPPING[2]];
    assert LowerAll(SKIPPING, 0, 0).code == SKIPPING_CODE;
  }

  lemma LoweredNone(at: nat, next: nat)
    ensures LowerAll([], at, next) == LoweredStmt([], next)
  {
  }

  lemma LoweredExprStmt(v: Value, at: nat, next: nat)
    ensures LowerStmt(S.ExprStmt(S.Literal(v)), at, next) == LoweredStmt([Const(next, v)], next + 1)
  {
  }

  const SKIPPING_REMOVED: seq<Instr> :=
    [Const(1, Bool(false)), JumpIfFalse(1, 5), Const(2, Int(1)), Instr.Return(Some(2)), Const(3, Int(2)), Instr.Return(Some(3))]

  /** Only the unused first constant is removed, and the jump still goes to index 5. */
  lemma SkippingRemoval()
    ensures Dce(SKIPPING_CODE) == SKIPPING_REMOVED && !TargetsBeforeRemoved(SKIPPING_CODE)
  {
    hide Filter, Used;
    var c := SKIPPING_CODE;
    SkippingUsed();
    SkippingDead();
    FilterDrop(c, 0, Used(c));
    FilterTail(c, 1, Used(c));
    assert c[1..] == SKIPPING_REMOVED && c[..7] == c;
    assert c[2].IsJump() && 0 < c[2].target;
  }

  /** Only the first instruction is dead. */
  lemma SkippingDead()
    ensures Dead(SKIPPING_CODE[0], {1, 2, 3}) && forall i <- SKIPPING_CODE[1..] :: !Dead(i, {1, 2, 3})
  {
    var c := SKIPPING_CODE;
    assert c[1..] == SKIPPING_REMOVED;
    assert forall k :: 0 <= k < 6 ==> !Dead(SKIPPING_REMOVED[k], {1, 2, 3});
  }

  lemma {:induction false} FilterTail(code: seq<Instr>, k: nat, used: set<Reg>)
    requires k <= |code| && forall i <- code[k..] :: !Dead(i, used)
    ensures Filter(code, used) == Filter(code[..k], used) + code[k..]
    decreases |code| - k
  {
    if k < |code| {
      assert code[k..][0] == code[k] && code[k] in code[k..];
      FilterPush(code, k, used);
      FilterTail(code, k + 1, used);
    } else {
      assert code[..k] == code;
    }
  }

  lemma SkippingUsed()
    ensures Used(SKIPPING_CODE) == {1, 2, 3}
  {
    var c := SKIPPING_CODE;
    assert 1 in c[2].Args() && 2 in c[4].Args() && 3 in c[6].Args();
    forall k, r | 0 <= k < |c| && r in c[k].Args() ensures r in {1, 2, 3} {}
  }

  lemma FilterDrop(code: seq<Instr>, k: nat, used: set<Reg>)
    requires k < |code| && Dead(code[k], used)
    ensures Filter(code[..k + 1], used) == Filter(code[..k], used)
    ensures Filter(code[..0], used) == []
  {
    assert code[..k + 1][..k] == code[..k];
  }

  lemma FilterPush(code: seq<Instr>, k: nat, used: set<Reg>)
    requires k < |code| && !Dead(code[k], used)
    ensures Filter(code[..k + 1], used) == Filter(code[..k], used) + [code[k]]
  {
    assert code[..k + 1][..k] == code[..k];
  }

  /** The same program returns 2 when lowered, and null once its dead constant has been removed. */
  lemma RemovalChangesMeaning(m: Machine, trace: Trace, clock: nat)
    requires !m.strict
    ensures var fn := LowerFunction(S.Function("f", [], SKIPPING, false));
            var p := Program(fn, [fn]);
            && RunFunction(m, p, fn, [], trace, clock) == Done(Int(2), map[], trace, clock)
            && RunFunction(m, MapProgram(p, Dce), MapFunction(fn, Dce), [], trace, clock) == Done(Null, map[], trace, clock)
  {
    hide RunFunction, Dce, LowerFunction;
    SkippingLowered();
    SkippingRemoval();
    var fn := Function("f", [], SKIPPING_CODE, 4, false);
    SkippingRun(m, Program(fn, [fn]), trace, clock);
    SkippingRemovedRun(m, MapProgram(Program(fn, [fn]), Dce), trace, clock);
  }

  lemma SkippingRun(m: Machine, p: Program, trace: Trace, clock: nat)
    requires !m.strict
    ensures RunFunction(m, p, Function("f", [], SKIPPING_CODE, 4, false), [], trace, clock) == Done(Int(2), map[], trace, clock)
  {
    var fn := Function("f", [], SKIPPING_CODE, 4, false);
    var r1: Regs := map[0 := Int(1)];
    var r2 := r1[1 := Bool(false)];
    hide Run;
    StepConst(m, p, fn, 0, map[], trace, clock);
    StepConst(m, p, fn, 1, r1, trace, clock);
    StepFalse(m, p, fn, 2, r2, trace, clock);
    StepConst(m, p, fn, 5, r2, trace, clock);
    StepReturn(m, p, fn, 6, r2[3 := Int(2)], trace, clock);
  }

  lemma SkippingRemovedRun(m: Machine, p: Program, trace: Trace, clock: nat)
    requires !m.strict
    ensures RunFunction(m, p, Function("f", [], SKIPPING_REMOVED, 4, false), [], trace, clock) == Done(Null, map[], trace, clock)
  {
    var fn := Function("f", [], SKIPPING_REMOVED, 4, false);
    var r1: Regs := map[1 := Bool(false)];
    hide Run;
    StepConst(m, p, fn, 0, map[], trace, clock);
    StepFalse(m, p, fn, 1, r1, trace, clock);
    StepReturn(m, p, fn, 5, r1, trace, clock);
  }

  lemma StepConst(m: Machine, p: Program, fn: Function, pc: nat, regs: Regs, trace: Trace, clock: nat)
    requires pc < |fn.code| && fn.code[pc].Const?
    ensures Run(m, p, fn, pc, regs, map[], trace, clock)
         == Run(m, p, fn, pc + 1, regs[fn.code[pc].dest := fn.code[pc].literal], map[], trace, clock)
  {
  }

  lemma StepFalse(m: Machine, p: Program, fn: Function, pc: nat, regs: Regs, trace: Trace, clock: nat)
    requires pc < |fn.code| && fn.code[pc].JumpIfFalse? && pc < fn.code[pc].target
    requires var r := fn.code[pc].arg; r < fn.nextReg && r in regs && regs[r] == Bool(false)
    ensures Run(m, p, fn, pc, regs, map[], trace, clock) == Run(m, p, fn, fn.code[pc].target, regs, map[], trace, clock)
  {
    GetOne(m, fn.nextReg, regs, fn.code[pc].arg);
  }

  lemma ReadOne(m: Machine, n: nat, regs: Regs, r: Reg, v: Value)
    requires Get(m, n, regs, r) == Ok(v)
    ensures GetAll(m, n, regs, [r]) == Ok([v])
  {
    assert [r][1..] == [] && [v] + [] == [v];
  }

  lemma StepReturn(m: Machine, p: Program, fn: Function, pc: nat, regs: Regs, trace: Trace, clock: nat)
    requires pc < |fn.code| && fn.code[pc].Return? && fn.code[pc].value.Some? && fn.code[pc].value.value < fn.nextReg
    requires !m.strict
    ensures var r := fn.code[pc].value.value;
            Run(m, p, fn, pc, regs, map[], trace, clock) == Done(if r in regs then regs[r] else Null, map[], trace, clock)
  {
    var r := fn.code[pc].value.value;
    ReadOne(m, fn.nextReg, regs, r, if r in regs then regs[r] else Null);
  }

  // ----- a removed instruction that would have failed -----

  /** 1 / 0; */
  const TRAPPING: seq<S.Stmt> := [S.ExprStmt(S.Binary(S.Literal(Int(1)), Div, S.Literal(Int(0))))]

  const TRAPPING_CODE: seq<Instr> :=
    [Const(0, Int(1)), Const(1, Int(0)), Instr.Binary(2, Div, 0, 1), Instr.Return(None)]

  const TRAPPING_REMOVED: seq<Instr> := [Const(0, Int(1)), Const(1, Int(0)), Instr.Return(None)]

  lemma TrappingLowered()
    ensures LowerFunction(S.Function("f", [], TRAPPING, false)) == Function("f", [], TRAPPING_CODE, 3, false)
  {
    var e := TRAPPING[0].expr;
    assert LowerExpr(S.Literal(Int(1)), 0, 0) == Lowered([Const(0, Int(1))], 0, 1);
    assert LowerExpr(S.Literal(Int(0)), 1, 1) == Lowered([Const(1, Int(0))], 1, 2);
    assert LowerExpr(e, 0, 0) == Lowered(TRAPPING_CODE[..3], 2, 3);
    assert LowerStmt(TRAPPING[0], 0, 0) == LoweredStmt(TRAPPING_CODE[..3], 3);
    LoweredNone(3, 3);
    LoweredTwo(TRAPPING[0], [], 0, 0);
    assert [TRAPPING[0]] + [] == TRAPPING;
    assert LowerAll(TRAPPING, 0, 0).code == TRAPPING_CODE[..3];
  }

  lemma TrappingUsed()
    ensures Used(TRAPPING_CODE) == {0, 1}
  {
    var c := TRAPPING_CODE;
    assert 0 in c[2].Args() && 1 in c[2].Args();
    forall k, r | 0 <= k < |c| && r in c[k].Args() ensures r in {0, 1} {}
  }

  /** Only the division is removed; no jump is there to be misled. */
  lemma TrappingRemoval()
    ensures Dce(TRAPPING_CODE) == TRAPPING_REMOVED && TargetsBeforeRemoved(TRAPPING_CODE)
    ensures exists i <- TRAPPING_CODE :: Dead(i, Used(TRAPPING_CODE)) && !NeverFails(i)
  {
    hide Filter, Used;
    var c := TRAPPING_CODE;
    TrappingUsed();
    var used := Used(c);
    assert c[2] in c && Dead(c[2], used);
    FilterDrop(c, 2, used);
    FilterPush(c, 0, used);
    FilterPush(c, 1, used);
    FilterPush(c, 3, used);
    assert c[..4] == c && TRAPPING_REMOVED == [] + [c[0]] + [c[1]] + [c[3]];
  }

  /** Removal hides the failure: the lowered program fails in its division, the shortened one returns null. */
  lemma RemovalHidesFailure(m: Machine, trace: Trace, clock: nat)
    ensures var fn := LowerFunction(S.Function("f", [], TRAPPING, false));
            var p := Program(fn, [fn]);
            && RunFunction(m, p, fn, [], trace, clock) == Failed(Arith(DivisionByZero), trace)
            && RunFunction(m, MapProgram(p, Dce), MapFunction(fn, Dce), [], trace, clock) == Done(Null, map[], trace, clock)
  {
    hide RunFunction, Dce, LowerFunction, TargetsBeforeRemoved, Dead;
    TrappingLowered();
    TrappingRemoval();
    var fn := Function("f", [], TRAPPING_CODE, 3, false);
    TrappingRun(m, Program(fn, [fn]), trace, clock);
    TrappingRemovedRun(m, MapProgram(Program(fn, [fn]), Dce), trace, clock);
  }

  lemma TrappingRun(m: Machine, p: Program, trace: Trace, clock: nat)
    ensures RunFunction(m, p, Function("f", [], TRAPPING_CODE, 3, false), [], trace, clock) == Failed(Arith(DivisionByZero), trace)
  {
    var fn := Function("f", [], TRAPPING_CODE, 3, false);
    var r1: Regs := map[0 := Int(1)];
    DividesByZero(m, p, fn, r1[1 := Int(0)], trace, clock);
    hide Run;
    StepConst(m, p, fn, 0, map[], trace, clock);
    StepConst(m, p, fn, 1, r1, trace, clock);
  }

  lemma TrappingRemovedRun(m: Machine, p: Program, trace: Trace, clock: nat)
    ensures RunFunction(m, p, Function("f", [], TRAPPING_REMOVED, 3, false), [], trace, clock) == Done(Null, map[], trace, clock)
  {
    var fn := Function("f", [], TRAPPING_REMOVED, 3, false);
    var r1: Regs := map[0 := Int(1)];
    StepReturnNull(m, p, fn, 2, r1[1 := Int(0)], trace, clock);
    hide Run;
    StepConst(m, p, fn, 0, map[], trace, clock);
    StepConst(m, p, fn, 1, r1, trace, clock);
  }

  lemma StepReturnNull(m: Machine, p: Program, fn: Function, pc: nat, regs: Regs, trace: Trace, clock: nat)
    requires pc < |fn.code| && fn.code[pc] == Instr.Return(None)
    ensures Run(m, p, fn, pc, regs, map[], trace, clock) == Done(Null, map[], trace, clock)
  {
  }

  lemma DividesByZero(m: Machine, p: Program, fn: Function, regs: Regs, trace: Trace, clock: nat)
    requires fn.code == TRAPPING_CODE && fn.nextReg == 3 && regs == map[0 := Int(1), 1 := Int(0)]
    ensures Run(m, p, fn, 2, regs, map[], trace, clock) == Failed(Arith(DivisionByZero), trace)
  {
    ReadOne(m, 3, regs, 1, Int(0));
    assert [0, 1][1..] == [1] && [Int(1)] + [Int(0)] == [Int(1), Int(0)];
  }

  // ----- an overflow that is folded -----

  /** The largest integer plus one. */
  const OVERFLOWING: seq<Instr> :=
    [Const(0, Int(MAX)), Const(1, Int(1)), Instr.Binary(2, Add, 0, 1), Instr.Return(Some(2))]

  const OVERFLOWING_FOLDED: seq<Instr> :=
    [Const(0, Int(MAX)), Const(1, Int(1)), Const(2, Int(MIN)), Instr.Return(Some(2))]

  lemma OverflowingFolds(f: Floats)
    ensures Folded(f, OVERFLOWING) == OVERFLOWING_FOLDED
  {
    var c := OVERFLOWING;
    assert Congruent(AddInt(false, MAX, 1).value, MIN);
    CongruentInRangeIsEqual(AddInt(false, MAX, 1).value, MIN);
    assert Fold(f, Add, Int(MAX), Int(1)) == Some(Int(MIN));
    assert Scan(f, c, 0) == ([], map[]);
    hide Scan, Fold;
    var k1, k2: Known := map[0 := Int(MAX)], map[0 := Int(MAX), 1 := Int(1)];
    ScanNext(f, c, 0, [], map[]);
    assert [] + [c[0]] == c[..1] && map[][0 := Int(MAX)] == k1;
    ScanNext(f, c, 1, c[..1], k1);
    assert c[..1] + [c[1]] == c[..2] && k1[1 := Int(1)] == k2;
    ScanNext(f, c, 2, c[..2], k2);
    var most := c[..2] + [Const(2, Int(MIN))];
    ScanNext(f, c, 3, most, k2[2 := Int(MIN)]);
    assert most + [c[3]] == OVERFLOWING_FOLDED;
  }

  /** Where overflow is checked, the addition fails; once folded, it yields the smallest integer. */
  lemma FoldingHidesOverflow(m: Machine, p: Program, trace: Trace, clock: nat)
    requires m.checked && !m.strict
    ensures Run(m, p, Function("f", [], OVERFLOWING, 3, false), 0, map[], map[], trace, clock) == Failed(Arith(Overflow), trace)
    ensures var folded := Folded(m.float, OVERFLOWING);
            Run(m, p, Function("f", [], folded, 3, false), 0, map[], map[], trace, clock) == Done(Int(MIN), map[], trace, clock)
  {
    OverflowingFolds(m.float);
    var fn, gn := Function("f", [], OVERFLOWING, 3, false), Function("f", [], OVERFLOWING_FOLDED, 3, false);
    var r1: Regs := map[0 := Int(MAX)];
    var r2 := r1[1 := Int(1)];
    AddsBeyond(m, p, fn, r2, trace, clock);
    hide Run, Folded;
    StepConst(m, p, fn, 0, map[], trace, clock);
    StepConst(m, p, fn, 1, r1, trace, clock);
    StepConst(m, p, gn, 0, map[], trace, clock);
    StepConst(m, p, gn, 1, r1, trace, clock);
    StepConst(m, p, gn, 2, r2, trace, clock);
    StepReturn(m, p, gn, 3, r2[2 := Int(MIN)], trace, clock);
  }

  lemma AddsBeyond(m: Machine, p: Program, fn: Function, regs: Regs, trace: Trace, clock: nat)
    requires m.checked && fn.code == OVERFLOWING && fn.nextReg == 3 && regs == map[0 := Int(MAX), 1 := Int(1)]
    ensures Run(m, p, fn, 2, regs, map[], trace, clock) == Failed(Arith(Overflow), trace)
  {
    ReadOne(m, 3, regs, 1, Int(1));
    assert [0, 1][1..] == [1] && [Int(MAX)] + [Int(1)] == [Int(MAX), Int(1)];
    assert BinaryOp(m.float, true, Add, Int(MAX), Int(1)) == Err(Arith(Overflow));
  }

  // ----- a constant that is never written -----

  /** A register whose constant is jumped over, then read. */
  const JUMPED_OVER: seq<Instr> :=
    [Jump(2), Const(0, Int(5)), Const(1, Int(1)), Instr.Binary(2, Add, 0, 1), Instr.Return(Some(2))]

  const JUMPED_OVER_FOLDED: seq<Instr> :=
    [Jump(2), Const(0, Int(5)), Const(1, Int(1)), Const(2, Int(6)), Instr.Return(Some(2))]

  lemma ScanNext(f: Floats, code: seq<Instr>, k: nat, done: seq<Instr>, known: Known)
    requires k < |code| && Scan(f, code, k) == (done, known)
    ensures Scan(f, code, k + 1) == (done + [Rewrite(f, code[k], known)], Learn(Rewrite(f, code[k], known), known))
  {
  }

  lemma JumpedOverFolds(f: Floats)
    ensures Folded(f, JUMPED_OVER) == JUMPED_OVER_FOLDED
  {
    var c := JUMPED_OVER;
    assert AddInt(false, 5, 1) == Ok(6) by { CongruentInRangeIsEqual(AddInt(false, 5, 1).value, 6); }
    assert Fold(f, Add, Int(5), Int(1)) == Some(Int(6));
    assert Scan(f, c, 0) == ([], map[]);
    hide Scan, Fold;
    var k1, k2: Known := map[0 := Int(5)], map[0 := Int(5), 1 := Int(1)];
    ScanNext(f, c, 0, [], map[]);
    assert [] + [Jump(2)] == c[..1];
    ScanNext(f, c, 1, c[..1], map[]);
    assert c[..1] + [c[1]] == c[..2] && map[][0 := Int(5)] == k1;
    ScanNext(f, c, 2, c[..2], k1);
    assert c[..2] + [c[2]] == c[..3] && k1[1 := Int(1)] == k2;
    ScanNext(f, c, 3, c[..3], k2);
    var most := c[..3] + [Const(2, Int(6))];
    ScanNext(f, c, 4, most, k2[2 := Int(6)]);
    assert most + [c[4]] == JUMPED_OVER_FOLDED;
  }

  /** The scan takes the jumped-over constant for known: the interpreter fails on null + 1, the folded code returns 6. */
  lemma FoldingAnUnwrittenReadChangesMeaning(m: Machine, p: Program, trace: Trace, clock: nat)
    requires !m.strict
    ensures Run(m, p, Function("f", [], JUMPED_OVER, 3, false), 0, map[], map[], trace, clock)
         == Failed(UnsupportedBinary(Add), trace)
    ensures var folded := Folded(m.float, JUMPED_OVER);
            Run(m, p, Function("f", [], folded, 3, false), 0, map[], map[], trace, clock) == Done(Int(6), map[], trace, clock)
  {
    JumpedOverFolds(m.float);
    var fn := Function("f", [], JUMPED_OVER, 3, false);
    var gn := Function("f", [], JUMPED_OVER_FOLDED, 3, false);
    var one := map[1 := Int(1)];
    BinaryOnNull(m, p, fn, one, trace, clock);
    assert Run(m, p, fn, 0, map[], map[], trace, clock) == Run(m, p, fn, 2, map[], map[], trace, clock);
    assert Run(m, p, gn, 0, map[], map[], trace, clock) == Run(m, p, gn, 2, map[], map[], trace, clock);
    hide Run;
    StepConst(m, p, fn, 2, map[], trace, clock);
    StepConst(m, p, gn, 2, map[], trace, clock);
    StepConst(m, p, gn, 3, one, trace, clock);
    StepReturn(m, p, gn, 4, one[2 := Int(6)], trace, clock);
  }

  lemma BinaryOnNull(m: Machine, p: Program, fn: Function, regs: Regs, trace: Trace, clock: nat)
    requires !m.strict && fn.code == JUMPED_OVER && fn.nextReg == 3 && regs == map[1 := Int(1)]
    ensures Run(m, p, fn, 3, regs, map[], trace, clock) == Failed(UnsupportedBinary(Add), trace)
  {
    assert Get(m, 3, regs, 0) == Ok(Null) && Get(m, 3, regs, 1) == Ok(Int(1));
    ReadOne(m, 3, regs, 1, Int(1));
    assert [0, 1][1..] == [1] && [Null] + [Int(1)] == [Null, Int(1)];
    assert BinaryOp(m.float, m.checked, Add, Null, Int(1)) == Err(UnsupportedBinary(Add));
  }
}
