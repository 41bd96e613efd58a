/**
 The whole optimization pipeline, at every level, keeps every run that neither fails nor reads an
 unwritten register, provided no removal takes an instruction away in front of a jump target.  Code
 without jumps always satisfies that.
 */
module PipelineMeaning {
  import opened Values
  import opened Nir
  import opened Interpreter
  import opened Optimizer
  import opened ConstantFolding
  import opened DeadCode

  // ----- programs through passes -----

  lemma MapTwice(p: Program, a: seq<Instr> -> seq<Instr>, b: seq<Instr> -> seq<Instr>, c: seq<Instr> -> seq<Instr>)
    requires forall code :: c(code) == b(a(code))
    ensures MapProgram(MapProgram(p, a), b) == MapProgram(p, c)
    ensures forall fn :: MapFunction(MapFunction(fn, a), b) == MapFunction(fn, c)
  {
    var q, r := MapProgram(MapProgram(p, a), b), MapProgram(p, c);
    forall i | 0 <= i < |p.functions| ensures q.functions[i] == r.functions[i] {
      assert MapProgram(p, a).functions[i] == MapFunction(p.functions[i], a);
    }
    assert q.functions == r.functions;
  }

  lemma MapIdentity(p: Program, a: seq<Instr> -> seq<Instr>)
    requires forall code :: a(code) == code
    ensures MapProgram(p, a) == p && forall fn :: MapFunction(fn, a) == fn
  {
    assert MapProgram(p, a).functions == p.functions;
  }

  function RepeatPass(f: Floats, n: nat): seq<Instr> -> seq<Instr> {
    code => Repeated(f, code, n)
  }

  function LevelPass(f: Floats, level: Level): seq<Instr> -> seq<Instr> {
    code => Optimized(f, code, level)
  }

  // ----- when removal is safe -----

  /** At every round, no jump target of the folded code lies behind an instruction that gets removed. */
  ghost predicate SafeRounds(f: Floats, code: seq<Instr>, n: nat)
    decreases n
  {
    n == 0 || (TargetsBeforeRemoved(Folded(f, code)) && SafeRounds(f, Round(f, code), n - 1))
  }

  ghost predicate SafeAt(f: Floats, code: seq<Instr>, level: Level) {
    SafeRounds(f, code, Rounds(level)) && (level.Oz? ==> TargetsBeforeRemoved(Repeated(f, code, Rounds(level))))
  }

  ghost predicate JumpFree(code: seq<Instr>) {
    forall i <- code :: !i.IsJump()
  }

  lemma FoldedJumpFree(f: Floats, code: seq<Instr>)
    requires JumpFree(code)
    ensures JumpFree(Folded(f, code))
  {
    forall i | i in Folded(f, code) ensures !i.IsJump() {
      var k :| 0 <= k < |code| && Folded(f, code)[k] == i;
      FoldedAt(f, code, k);
      assert code[k] in code;
    }
  }

  lemma DceJumpFree(code: seq<Instr>)
    requires JumpFree(code)
    ensures JumpFree(Dce(code)) && TargetsBeforeRemoved(code)
  {
    forall i | i in Dce(code) ensures !i.IsJump() { FilterKeeps(code, Used(code), i); }
    forall j | 0 <= j < |code| ensures !code[j].IsJump() { assert code[j] in code; }
  }

  lemma {:induction false} JumpFreeRounds(f: Floats, code: seq<Instr>, n: nat)
    requires JumpFree(code)
    ensures SafeRounds(f, code, n) && JumpFree(Repeated(f, code, n))
    decreases n
  {
    hide Folded, Dce, TargetsBeforeRemoved, JumpFree;
    if n > 0 {
      FoldedJumpFree(f, code);
      DceJumpFree(Folded(f, code));
      JumpFreeRounds(f, Round(f, code), n - 1);
    }
  }

  /** Code without jumps is safe at every level. */
  lemma JumpFreeIsSafe(f: Floats, code: seq<Instr>, level: Level)
    requires JumpFree(code)
    ensures SafeAt(f, code, level)
  {
    JumpFreeRounds(f, code, Rounds(level));
    DceJumpFree(Repeated(f, code, Rounds(level)));
  }

  // ----- single assignment survives -----

  lemma {:induction false} FilterSingleDef(code: seq<Instr>, used: set<Reg>)
    requires SingleDef(code)
    ensures SingleDef(Filter(code, used))
  {
    if code != [] {
      var init, last := code[..|code| - 1], code[|code| - 1];
      FilterSingleDef(init, used);
      var kept := Filter(init, used);
      forall k | 0 <= k < |kept| && kept[k].HasDest() && last.HasDest() ensures kept[k].dest != last.dest {
        FilterKeeps(init, used, kept[k]);
        var j :| 0 <= j < |init| && init[j] == kept[k];
        assert code[j] == init[j];
      }
    }
  }

  lemma DceKeepsSingleAssignment(fn: Function)
    requires SingleAssignment(fn)
    ensures SingleAssignment(MapFunction(fn, Dce))
  {
    FilterSingleDef(fn.code, Used(fn.code));
    forall k | 0 <= k < |Dce(fn.code)| && Dce(fn.code)[k].HasDest() ensures Dce(fn.code)[k].dest < fn.nextReg {
      FilterKeeps(fn.code, Used(fn.code), Dce(fn.code)[k]);
    }
  }

  lemma RoundKeepsSingleAssignments(f: Floats, p: Program)
    requires SingleAssignments(p)
    ensures SingleAssignments(MapProgram(p, FoldPass(f)))
    ensures SingleAssignments(MapProgram(MapProgram(p, FoldPass(f)), Dce))
  {
    var q := MapProgram(p, FoldPass(f));
    FoldingKeepsSingleAssignment(f, p.entry);
    DceKeepsSingleAssignment(q.entry);
    forall fn | fn in q.functions ensures SingleAssignment(fn) && SingleAssignment(MapFunction(fn, Dce)) {
      var i :| 0 <= i < |p.functions| && fn == MapFunction(p.functions[i], FoldPass(f));
      assert p.functions[i] in p.functions;
      FoldingKeepsSingleAssignment(f, p.functions[i]);
      DceKeepsSingleAssignment(fn);
    }
    forall fn | fn in MapProgram(q, Dce).functions ensures SingleAssignment(fn) {
      var i :| 0 <= i < |q.functions| && fn == MapFunction(q.functions[i], Dce);
      assert q.functions[i] in q.functions;
    }
  }

  // ----- the pipeline -----

  ghost predicate SafeProgram(f: Floats, p: Program, n: nat) {
    SafeRounds(f, p.entry.code, n) && forall fn <- p.functions :: SafeRounds(f, fn.code, n)
  }

  /** One round of folding and removal keeps the runs. */
  lemma RoundKeepsRuns(m: Machine, p: Program, fn: Function, args: seq<Value>, trace: Trace, clock: nat, n: nat)
    requires m.strict && n > 0
    requires SingleAssignments(p) && SingleAssignment(fn) && SafeProgram(m.float, p, n) && SafeRounds(m.float, fn.code, n)
    requires !RunFunction(m, p, fn, args, trace, clock).Failed?
    ensures var q := MapProgram(MapProgram(p, FoldPass(m.float)), Dce);
            var gn := MapFunction(MapFunction(fn, FoldPass(m.float)), Dce);
            && RunFunction(m, q, gn, args, trace, clock) == RunFunction(m, p, fn, args, trace, clock)
            && SingleAssignments(q) && SingleAssignment(gn)
            && SafeProgram(m.float, q, n - 1) && SafeRounds(m.float, gn.code, n - 1)
  {
    hide RunFunction, Folded, Dce, TargetsBeforeRemoved, SingleAssignment;
    var pass := FoldPass(m.float);
    var q, gn := MapProgram(p, pass), MapFunction(fn, pass);
    FoldingKeepsRuns(m, p, fn, args, trace, clock);
    assert m.(strict := true) == m;
    RoundKeepsSingleAssignments(m.float, p);
    FoldingKeepsSingleAssignment(m.float, fn);
    DceKeepsSingleAssignment(gn);
    forall h | h in q.functions ensures TargetsBeforeRemoved(h.code) {
      var i :| 0 <= i < |p.functions| && h == MapFunction(p.functions[i], pass);
      assert p.functions[i] in p.functions;
    }
    RemovalKeepsRuns(m, q, gn, args, trace, clock);
    forall h | h in MapProgram(q, Dce).functions ensures SafeRounds(m.float, h.code, n - 1) {
      var i :| 0 <= i < |q.functions| && h == MapFunction(q.functions[i], Dce);
      assert q.functions[i] == MapFunction(p.functions[i], pass) && p.functions[i] in p.functions;
    }
  }

  lemma {:induction false} RoundsKeepRuns(m: Machine, p: Program, fn: Function, args: seq<Value>, trace: Trace, clock: nat, n: nat)
    requires m.strict
    requires SingleAssignments(p) && SingleAssignment(fn) && SafeProgram(m.float, p, n) && SafeRounds(m.float, fn.code, n)
    requires !RunFunction(m, p, fn, args, trace, clock).Failed?
    ensures var pass := RepeatPass(m.float, n);
            RunFunction(m, MapProgram(p, pass), MapFunction(fn, pass), args, trace, clock) == RunFunction(m, p, fn, args, trace, clock)
    decreases n
  {
    hide RunFunction, SafeRounds, SingleAssignments, SingleAssignment, Dce, Folded;
    var pass := RepeatPass(m.float, n);
    if n == 0 {
      MapIdentity(p, pass);
    } else {
      RoundKeepsRuns(m, p, fn, args, trace, clock, n);
      var fold, rest := FoldPass(m.float), RepeatPass(m.float, n - 1);
      var both: seq<Instr> -> seq<Instr> := code => Round(m.float, code);
      MapTwice(p, fold, Dce, both);
      MapTwice(p, both, rest, pass);
      assert MapFunction(MapFunction(fn, fold), Dce) == MapFunction(fn, both);
      assert MapFunction(MapFunction(fn, both), rest) == MapFunction(fn, pass);
      RoundsKeepRuns(m, MapProgram(p, both), MapFunction(fn, both), args, trace, clock, n - 1);
    }
  }

  ghost predicate SafeProgramAt(f: Floats, p: Program, level: Level) {
    SafeAt(f, p.entry.code, level) && forall fn <- p.functions :: SafeAt(f, fn.code, level)
  }

  /** A function of the program, or its entry. */
  ghost predicate Belongs(fn: Function, p: Program) {
    fn == p.entry || fn in p.functions
  }

  /** At `Oz`, the rounds are followed by one more removal. */
  lemma LastRemoval(f: Floats, p: Program, fn: Function, level: Level)
    requires SafeProgramAt(f, p, level) && Belongs(fn, p)
    ensures var all, rounds := LevelPass(f, level), RepeatPass(f, Rounds(level));
            if level.Oz? then
              && MapProgram(p, all) == MapProgram(MapProgram(p, rounds), Dce)
              && MapFunction(fn, all) == MapFunction(MapFunction(fn, rounds), Dce)
              && RemovalIsSafe(MapProgram(p, rounds)) && TargetsBeforeRemoved(MapFunction(fn, rounds).code)
            else MapProgram(p, all) == MapProgram(p, rounds) && MapFunction(fn, all) == MapFunction(fn, rounds)
  {
    hide SafeRounds, TargetsBeforeRemoved, Dce, Repeated;
    var all, rounds := LevelPass(f, level), RepeatPass(f, Rounds(level));
    if level.Oz? {
      MapTwice(p, rounds, Dce, all);
      forall h | h in MapProgram(p, rounds).functions ensures TargetsBeforeRemoved(h.code) {
        var i :| 0 <= i < |p.functions| && h == MapFunction(p.functions[i], rounds);
        assert p.functions[i] in p.functions;
      }
    } else {
      assert forall code :: all(code) == rounds(code);
      assert MapProgram(p, all).functions == MapProgram(p, rounds).functions;
    }
  }

  lemma SafeFunctionAt(f: Floats, p: Program, fn: Function, level: Level)
    requires SingleAssignments(p) && SafeProgramAt(f, p, level) && Belongs(fn, p)
    ensures SafeProgram(f, p, Rounds(level)) && SafeRounds(f, fn.code, Rounds(level)) && SingleAssignment(fn)
  {
    hide SafeRounds, TargetsBeforeRemoved, SingleAssignment;
  }

  lemma PipelineKeepsStrictRuns(m: Machine, p: Program, fn: Function, args: seq<Value>, trace: Trace, clock: nat, level: Level)
    requires m.strict && SingleAssignments(p) && SafeProgramAt(m.float, p, level) && Belongs(fn, p)
    requires !RunFunction(m, p, fn, args, trace, clock).Failed?
    ensures var pass := LevelPass(m.float, level);
            RunFunction(m, MapProgram(p, pass), MapFunction(fn, pass), args, trace, clock) == RunFunction(m, p, fn, args, trace, clock)
  {
    var rounds := RepeatPass(m.float, Rounds(level));
    SafeFunctionAt(m.float, p, fn, level);
    LastRemoval(m.float, p, fn, level);
    hide RunFunction, SafeProgram, SafeProgramAt, SafeRounds, SingleAssignments, SingleAssignment, TargetsBeforeRemoved, RemovalIsSafe;
    RoundsKeepRuns(m, p, fn, args, trace, clock, Rounds(level));
    if level.Oz? {
      RemovalKeepsRuns(m, MapProgram(p, rounds), MapFunction(fn, rounds), args, trace, clock);
    }
  }

  /** What the next two theorems have in common: any function of the program, or its entry. */
  lemma PipelineKeepsFunctionRuns(m: Machine, p: Program, fn: Function, args: seq<Value>, trace: Trace, clock: nat, level: Level)
    requires SingleAssignments(p) && SafeProgramAt(m.float, p, level) && Belongs(fn, p)
    requires !RunFunction(m.(strict := true), p, fn, args, trace, clock).Failed?
    ensures var q, gn := MapProgram(p, LevelPass(m.float, level)), MapFunction(fn, LevelPass(m.float, level));
            var r := RunFunction(m.(strict := true), p, fn, args, trace, clock);
            && RunFunction(m.(strict := true), q, gn, args, trace, clock) == r
            && RunFunction(m.(strict := false), q, gn, args, trace, clock) == r
            && RunFunction(m.(strict := false), p, fn, args, trace, clock) == r
  {
    hide RunFunction, SafeProgramAt, SingleAssignments;
    var pass := LevelPass(m.float, level);
    PipelineKeepsStrictRuns(m.(strict := true), p, fn, args, trace, clock, level);
    LenientFunction(m, p, fn, args, trace, clock);
    LenientFunction(m, MapProgram(p, pass), MapFunction(fn, pass), args, trace, clock);
  }

  /**
   The pipeline keeps runs, at every level: a function of the optimized program ends as before, with the same
   value, variables, calls and clock, or runs out of time after the same calls, on the strict machine and on
   the interpreter.
   */
  lemma PipelineKeepsRuns(m: Machine, p: Program, k: nat, args: seq<Value>, trace: Trace, clock: nat, level: Level)
    requires SingleAssignments(p) && SafeProgramAt(m.float, p, level) && k < |p.functions|
    requires !RunFunction(m.(strict := true), p, p.functions[k], args, trace, clock).Failed?
    ensures var q := MapProgram(p, LevelPass(m.float, level));
            var r := RunFunction(m.(strict := true), p, p.functions[k], args, trace, clock);
            && RunFunction(m.(strict := true), q, q.functions[k], args, trace, clock) == r
            && RunFunction(m.(strict := false), q, q.functions[k], args, trace, clock) == r
            && RunFunction(m.(strict := false), p, p.functions[k], args, trace, clock) == r
  {
    hide RunFunction, SafeProgramAt, SingleAssignments;
    assert Belongs(p.functions[k], p);
    PipelineKeepsFunctionRuns(m, p, p.functions[k], args, trace, clock, level);
  }

  /** The same for the entry. */
  lemma PipelineKeepsEntryRuns(m: Machine, p: Program, args: seq<Value>, trace: Trace, clock: nat, level: Level)
    requires SingleAssignments(p) && SafeProgramAt(m.float, p, level)
    requires !RunFunction(m.(strict := true), p, p.entry, args, trace, clock).Failed?
    ensures var q := MapProgram(p, LevelPass(m.float, level));
            var r := RunFunction(m.(strict := true), p, p.entry, args, trace, clock);
            && RunFunction(m.(strict := true), q, q.entry, args, trace, clock) == r
            && RunFunction(m.(strict := false), q, q.entry, args, trace, clock) == r
            && RunFunction(m.(strict := false), p, p.entry, args, trace, clock) == r
  {
    hide RunFunction, SafeProgramAt, SingleAssignments;
    assert Belongs(p.entry, p);
    PipelineKeepsFunctionRuns(m, p, p.entry, args, trace, clock, level);
  }

  lemma LenientFunction(m: Machine, p: Program, fn: Function, args: seq<Value>, trace: Trace, clock: nat)
    requires !ReadUnwritten(RunFunction(m.(strict := true), p, fn, args, trace, clock))
    ensures RunFunction(m.(strict := false), p, fn, args, trace, clock) == RunFunction(m.(strict := true), p, fn, args, trace, clock)
  {
    if !fn.isExtern { StrictIsLenient(m, p, fn, 0, map[], Bind(fn.params, args), trace, clock); }
  }
}
