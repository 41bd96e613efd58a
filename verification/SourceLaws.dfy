/**
 Laws of the parts of the source language that its meaning and its lowering share: declarations keep their order,
 callees their names, and the innermost scope that has a name decides.
 */
module SourceLaws {
  import opened Basics
  import opened Int64
  import opened Values
  import opened Nir
  import opened Interpreter
  import S = Source

  // ----- declarations -----

  /** Functions and top-level statements stay in the order in which they are declared. */
  lemma {:induction false} DeclarationsInOrder(p: S.Program, d: S.Decl)
    ensures S.Functions(p + [d]) == S.Functions(p) + if d.FunctionDecl? then [d.fn] else []
    ensures S.Entry(p + [d]) == S.Entry(p) + if d.TopLevel? then [d.stmt] else []
    decreases |p|
  {
    if p == [] {
      assert p + [d] == [d] && [d][1..] == [];
    } else {
      assert (p + [d])[1..] == p[1..] + [d];
      DeclarationsInOrder(p[1..], d);
    }
  }

  /** A callee keeps its name; one that is not a name has none. */
  lemma CalleeKeepsName(callee: string)
    ensures callee != "" ==> S.CalleeText(callee) == callee
    ensures S.CalleeText("") == "<call>"
  {
  }

  // ----- scopes -----

  /** The scope at index `k` is the innermost one that has the name. */
  ghost predicate Innermost(env: S.Env, x: string, k: nat) {
    k < |env| && x in env[k] && forall j :: k < j < |env| ==> x !in env[j]
  }

  /** A name means what the innermost scope that has it says. */
  lemma {:induction false} LooksUpInnermost(env: S.Env, x: string, k: nat)
    requires Innermost(env, x, k)
    ensures S.Lookup(env, x) == Some(env[k][x])
    decreases |env|
  {
    if k < |env| - 1 {
      assert x !in env[|env| - 1];
      LooksUpInnermost(env[..|env| - 1], x, k);
    }
  }

  lemma {:induction false} LooksUpNothing(env: S.Env, x: string)
    requires forall k :: 0 <= k < |env| ==> x !in env[k]
    ensures S.Lookup(env, x) == None
    decreases |env|
  {
    if |env| > 1 { LooksUpNothing(env[..|env| - 1], x); }
  }

  /** An assignment changes the name where the innermost scope has it, or else in the outermost scope; nothing else. */
  lemma {:induction false} UpdatesInnermost(env: S.Env, x: string, v: Value, k: nat)
    requires Innermost(env, x, k) || (k == 0 && forall j :: 0 <= j < |env| ==> x !in env[j])
    ensures S.Update(env, x, v) == env[k := env[k][x := v]]
    decreases |env|
  {
    if k < |env| - 1 {
      var n := |env| - 1;
      UpdatesInnermost(env[..n], x, v, k);
      assert env == env[..n] + [env[n]];
    }
  }

  // ----- errors and codes -----

  /** A name that no scope has is an error, and so is a variable that no instruction has stored. */
  lemma UndefinedIsReported(m: Machine, p: S.Program, lexical: bool, x: string, st: S.State, dest: Reg, pc: nat, vars: Vars)
    requires x !in vars && forall k :: 0 <= k < |st.env| ==> x !in st.env[k]
    ensures S.Eval(m, lexical, p, S.Name(x), st) == S.Fail(UndefinedVariable(x), st.trace)
    ensures Act(m, Load(dest, x), pc, [], vars) == Fault(UndefinedVariable(x))
  {
    LooksUpNothing(st.env, x);
  }

  /** A try ends the function with a negative value, and goes on with any other. */
  lemma TriesBySign(m: Machine, p: S.Program, lexical: bool, n: i64, st: S.State, dest: Reg, r: Reg, pc: nat, vars: Vars)
    ensures S.Eval(m, lexical, p, S.Try(S.Literal(Int(n))), st) == if n < 0 then S.Exit(Int(n), st) else S.Next(Int(n), st)
    ensures Act(m, Instr.Try(dest, r), pc, [Int(n)], vars) == if n < 0 then Finish(Int(n)) else Goto(pc + 1, Some(Int(n)), vars)
  {
  }

  /** A negative code is thrown as it is, any other as its complement. */
  lemma ThrowsBySign(m: Machine, p: S.Program, lexical: bool, n: i64, st: S.State, r: Reg, pc: nat, vars: Vars)
    ensures var code := if n < 0 then n else -1 - n;
            && MIN <= code <= MAX
            && S.Exec(m, lexical, p, S.Throw(S.Literal(Int(n))), st) == S.Exit(Int(code), st)
            && Act(m, Instr.Throw(r), pc, [Int(n)], vars) == Finish(Int(code))
  {
  }

  // ----- control -----

  /** `&&` and `||` evaluate their right side only where the left one does not decide, and are the side that decides. */
  lemma ShortCircuits(m: Machine, p: S.Program, lexical: bool, a: Value, e: S.Expr, st: S.State)
    ensures S.Eval(m, lexical, p, S.Binary(S.Literal(a), And, e), st) ==
            if Truthy(m.float, a) then S.Eval(m, lexical, p, e, st) else S.Next(a, st)
    ensures S.Eval(m, lexical, p, S.Binary(S.Literal(a), Or, e), st) ==
            if Truthy(m.float, a) then S.Next(a, st) else S.Eval(m, lexical, p, e, st)
  {
  }

  /** A condition that is true chooses the first branch. */
  lemma ChoosesByTruth(m: Machine, p: S.Program, lexical: bool, c: Value, s: S.Stmt, t: S.Stmt, st: S.State)
    ensures S.Exec(m, lexical, p, S.IfElse(S.Literal(c), s, t), st) == S.Exec(m, lexical, p, if Truthy(m.float, c) then s else t, st)
    ensures Truthy(m.float, c) ==> S.Exec(m, lexical, p, S.If(S.Literal(c), s), st) == S.Exec(m, lexical, p, s, st)
    ensures !Truthy(m.float, c) ==>
      && S.Exec(m, lexical, p, S.If(S.Literal(c), s), st) == S.Next(Null, st)
      && S.Exec(m, lexical, p, S.While(S.Literal(c), s), st) == S.Next(Null, st)
  {
  }

  /** A function that returns nothing, or ends without returning, yields null. */
  lemma NothingIsNull(m: Machine, p: S.Program, lexical: bool, vars: Vars, trace: Trace, clock: nat)
    ensures S.RunBody(m, lexical, p, [], vars, trace, clock) == Done(Null, vars, trace, clock)
    ensures S.RunBody(m, lexical, p, [S.ReturnNothing], vars, trace, clock) == Done(Null, vars, trace, clock)
  {
    var st := S.State([vars], trace, clock);
    assert S.ExecAll(m, lexical, p, [S.ReturnNothing], st) == S.Exec(m, lexical, p, S.ReturnNothing, st);
  }

  // ----- calling -----

  /** A call that no function answers passes its arguments on in their order, behind everything called before. */
  lemma CallsInOrder(m: Machine, p: S.Program, lexical: bool, name: string, a: Value, b: Value, st: S.State)
    requires name != "" && S.FindFunction(S.Functions(p), name).None?
    ensures var e := Event(name, [a, b]);
            S.Eval(m, lexical, p, S.Call(name, [S.Literal(a), S.Literal(b)]), st) ==
            match m.host(st.trace, e)
            case Some(v) => S.Next(v, st.(trace := st.trace + [e]))
            case None => S.Fail(CallFailed(name), st.trace + [e])
  {
    hide S.FindFunction, S.Functions;
    var x, y := S.Literal(a), S.Literal(b);
    assert [x, y][1..] == [y] && [y][1..] == [];
    assert S.EvalArgs(m, lexical, p, [y], st) == S.Values([b], st);
    assert S.EvalArgs(m, lexical, p, [x, y], st) == S.Values([a, b], st);
  }
}
