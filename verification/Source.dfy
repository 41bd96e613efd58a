/**
 The source language's statements and expressions, and their meaning.

 The meaning is a big-step evaluation with the interpreter's clock: one tick for each call of a user
 function and one for each turn of a loop.  It comes in two readings.  The lexical one, which the
 type checker's scopes promise, opens a scope for every block; the flat one keeps one table of
 variables per call, which is what the lowered code does.
 */
module Source {
  import opened Basics
  import opened Values
  import opened Interpreter

  datatype Expr =
    | Literal(literal: Value)
    | Name(name: string)
    | Unary(uop: UnOp, operand: Expr)
    | Try(tried: Expr)
    | Binary(left: Expr, bop: BinOp, right: Expr)
    | Assign(target: string, source: Expr)
    | Cast(operand: Expr, typeName: string)
    | Call(callee: string, args: seq<Expr>)

  datatype Stmt =
    | Let(name: string, init: Expr)
    | ExprStmt(expr: Expr)
    | Block(statements: seq<Stmt>)
    | If(condition: Expr, thenBranch: Stmt)
    | IfElse(condition: Expr, thenBranch: Stmt, elseBranch: Stmt)
    | While(condition: Expr, body: Stmt)
    | ReturnNothing
    | Return(value: Expr)
    | Throw(value: Expr)

  datatype Function = Function(name: string, params: seq<string>, body: seq<Stmt>, isExtern: bool)

  /** A top-level declaration; records, imports and modules emit no code. */
  datatype Decl = FunctionDecl(fn: Function) | TopLevel(stmt: Stmt) | Other

  type Program = seq<Decl>

  function Functions(p: Program): seq<Function> {
    if p == [] then []
    else if p[0].FunctionDecl? then [p[0].fn] + Functions(p[1..])
    else Functions(p[1..])
  }

  function Entry(p: Program): seq<Stmt> {
    if p == [] then []
    else if p[0].TopLevel? then [p[0].stmt] + Entry(p[1..])
    else Entry(p[1..])
  }

  function FindFunction(fs: seq<Function>, name: string): (i: Option<nat>)
    ensures i.Some? ==> i.value < |fs| && fs[i.value].name == name && !fs[i.value].isExtern
    ensures forall k :: 0 <= k < (if i.Some? then i.value else |fs|) ==> fs[k].name != name || fs[k].isExtern
  {
    if fs == [] then None
    else if fs[0].name == name && !fs[0].isExtern then Some(0)
    else
      var rest := FindFunction(fs[1..], name);
      if rest.Some? then Some(rest.value + 1) else None
  }

  /** The name a call is lowered to; a callee that is not a name has none. */
  function CalleeText(callee: string): string {
    if callee == "" then "<call>" else callee
  }

  // ----- environments: a stack of scopes, innermost last -----

  type Env = env: seq<Vars> | |env| > 0 witness [map[]]

  function Lookup(env: Env, x: string): Option<Value> {
    if x in env[|env| - 1] then Some(env[|env| - 1][x])
    else if |env| == 1 then None
    else Lookup(env[..|env| - 1], x)
  }

  /** A declaration: always in the innermost scope. */
  function Define(env: Env, x: string, v: Value): Env {
    env[|env| - 1 := env[|env| - 1][x := v]]
  }

  /** An assignment: in the innermost scope that has the name, in the outermost one if none has. */
  function Update(env: Env, x: string, v: Value): (r: Env)
    ensures |r| == |env|
  {
    if x in env[|env| - 1] || |env| == 1 then Define(env, x, v)
    else Update(env[..|env| - 1], x, v) + [env[|env| - 1]]
  }

  // ----- evaluation -----

  datatype State = State(env: Env, trace: Trace, clock: nat)

  datatype Result =
    | Next(value: Value, st: State)    // evaluation goes on; a statement leaves null
    | Exit(value: Value, st: State)    // the function returns the value
    | Fail(error: Error, trace: Trace)
    | Timeout(trace: Trace)

  datatype ArgsResult = Values(values: seq<Value>, st: State) | Stop(result: Result)

  function Yield(r: Outcome, st: State): (q: Result)
  {
    match r
    case Ok(v) => Next(v, st)
    case Err(e) => Fail(e, st.trace)
  }

  /** Evaluation never gains ticks, and its errors are never about registers. */
  predicate Continues(r: Result, clock: nat) {
    && (r.Next? ==> r.st.clock <= clock) && (r.Exit? ==> r.st.clock <= clock)
    && (r.Fail? ==> !RegisterError(r.error))
  }

  predicate RegisterError(e: Error) {
    e.InvalidRegister? || e.UnwrittenRegister?
  }

  predicate Returns(r: FnResult, clock: nat) {
    (r.Done? ==> r.clock <= clock) && (r.Failed? ==> !RegisterError(r.error))
  }

  function Eval(m: Machine, lexical: bool, p: Program, e: Expr, st: State): (r: Result)
    ensures Continues(r, st.clock)
    decreases st.clock, 1, e
  {
    match e
    case Literal(v) => Next(v, st)
    case Name(x) =>
      (match Lookup(st.env, x) case Some(v) => Next(v, st) case None => Fail(UndefinedVariable(x), st.trace))
    case Unary(op, a) =>
      var r := Eval(m, lexical, p, a, st);
      if r.Next? then Yield(UnaryOp(m.float, m.checked, op, r.value), r.st) else r
    case Try(a) =>
      var r := Eval(m, lexical, p, a, st);
      if !r.Next? then r else
      (match AsInt(r.value)
       case Err(e) => Fail(e, r.st.trace)
       case Ok(n) => if n < 0 then Exit(Int(n), r.st) else Next(Int(n), r.st))
    case Binary(a, op, b) =>
      var l := Eval(m, lexical, p, a, st);
      if !l.Next? then l
      else if op.And? && !Truthy(m.float, l.value) then l
      else if op.Or? && Truthy(m.float, l.value) then l
      else
        var r := Eval(m, lexical, p, b, l.st);
        if !r.Next? || op.And? || op.Or? then r
        else Yield(BinaryOp(m.float, m.checked, op, l.value, r.value), r.st)
    case Assign(x, a) =>
      var r := Eval(m, lexical, p, a, st);
      if r.Next? then Next(r.value, r.st.(env := Update(r.st.env, x, r.value))) else r
    case Cast(a, t) =>
      var r := Eval(m, lexical, p, a, st);
      if r.Next? then Yield(CastValue(m.float, t, r.value), r.st) else r
    case Call(f, args) =>
      match EvalArgs(m, lexical, p, args, st)
      case Stop(r) => r
      case Values(vs, st') =>
        match CallNamed(m, lexical, p, CalleeText(f), vs, st'.trace, st'.clock)
        case Done(v, _, trace, clock) => Next(v, State(st'.env, trace, clock))
        case Failed(e, trace) => Fail(e, trace)
        case OutOfTime(trace) => Timeout(trace)
  }

  /** Arguments are evaluated from left to right. */
  function EvalArgs(m: Machine, lexical: bool, p: Program, es: seq<Expr>, st: State): (r: ArgsResult)
    ensures r.Values? ==> r.st.clock <= st.clock && |r.values| == |es|
    ensures r.Stop? ==> !r.result.Next? && Continues(r.result, st.clock)
    decreases st.clock, 1, es
  {
    if es == [] then Values([], st)
    else
      var a := Eval(m, lexical, p, es[0], st);
      if !a.Next? then Stop(a)
      else
        match EvalArgs(m, lexical, p, es[1..], a.st)
        case Values(vs, st') => Values([a.value] + vs, st')
        case stop => stop
  }

  function Exec(m: Machine, lexical: bool, p: Program, s: Stmt, st: State): (r: Result)
    ensures Continues(r, st.clock) && (r.Next? ==> r.value == Null)
    decreases st.clock, 1, s
  {
    match s
    case Let(x, e) =>
      var r := Eval(m, lexical, p, e, st);
      if r.Next? then Next(Null, r.st.(env := Define(r.st.env, x, r.value))) else r
    case ExprStmt(e) =>
      var r := Eval(m, lexical, p, e, st);
      if r.Next? then Next(Null, r.st) else r
    case Block(ss) =>
      if !lexical then ExecAll(m, lexical, p, ss, st)
      else
        var r := ExecAll(m, lexical, p, ss, st.(env := st.env + [map[]]));
        if r.Next? then Next(Null, r.st.(env := if |r.st.env| > 1 then r.st.env[..|r.st.env| - 1] else r.st.env)) else r
    case If(c, t) =>
      var r := Eval(m, lexical, p, c, st);
      if !r.Next? then r
      else if Truthy(m.float, r.value) then Exec(m, lexical, p, t, r.st)
      else Next(Null, r.st)
    case IfElse(c, t, f) =>
      var r := Eval(m, lexical, p, c, st);
      if !r.Next? then r
      else if Truthy(m.float, r.value) then Exec(m, lexical, p, t, r.st)
      else Exec(m, lexical, p, f, r.st)
    case While(c, b) =>
      var r := Eval(m, lexical, p, c, st);
      if !r.Next? then r
      else if !Truthy(m.float, r.value) then Next(Null, r.st)
      else
        var q := Exec(m, lexical, p, b, r.st);
        if !q.Next? then q
        else if q.st.clock == 0 then Timeout(q.st.trace)
        else Exec(m, lexical, p, s, q.st.(clock := q.st.clock - 1))
    case ReturnNothing => Exit(Null, st)
    case Return(e) =>
      var r := Eval(m, lexical, p, e, st);
      if r.Next? then Exit(r.value, r.st) else r
    case Throw(e) =>
      var r := Eval(m, lexical, p, e, st);
      if !r.Next? then r else
      (match AsInt(r.value) case Err(e) => Fail(e, r.st.trace) case Ok(n) => Exit(Int(ThrownCode(n)), r.st))
  }

  function ExecAll(m: Machine, lexical: bool, p: Program, ss: seq<Stmt>, st: State): (r: Result)
    ensures Continues(r, st.clock) && (r.Next? ==> r.value == Null)
    decreases st.clock, 1, ss
  {
    if ss == [] then Next(Null, st)
    else
      var r := Exec(m, lexical, p, ss[0], st);
      if r.Next? then ExecAll(m, lexical, p, ss[1..], r.st) else r
  }

  function CallNamed(m: Machine, lexical: bool, p: Program, name: string, args: seq<Value>, trace: Trace, clock: nat)
    : (r: FnResult)
    ensures Returns(r, clock)
    decreases clock, 0
  {
    var called := trace + [Event(name, args)];
    match FindFunction(Functions(p), name)
    case Some(i) =>
      if clock == 0 then OutOfTime(called)
      else RunSource(m, lexical, p, Functions(p)[i], args, called, clock - 1)
    case None =>
      match m.host(trace, Event(name, args))
      case Some(v) => Done(v, map[], called, clock)
      case None => Failed(CallFailed(name), called)
  }

  /** A function body; one that ends without returning yields null.  The variables of the result are
      those of the outermost scope. */
  function RunBody(m: Machine, lexical: bool, p: Program, body: seq<Stmt>, vars: Vars, trace: Trace, clock: nat)
    : (r: FnResult)
    ensures Returns(r, clock)
    decreases clock, 2
  {
    match ExecAll(m, lexical, p, body, State([vars], trace, clock))
    case Next(_, st) => Done(Null, st.env[0], st.trace, st.clock)
    case Exit(v, st) => Done(v, st.env[0], st.trace, st.clock)
    case Fail(e, t) => Failed(e, t)
    case Timeout(t) => OutOfTime(t)
  }

  function RunSource(m: Machine, lexical: bool, p: Program, f: Function, args: seq<Value>, trace: Trace, clock: nat)
    : (r: FnResult)
    ensures Returns(r, clock)
    decreases clock, 3
  {
    if f.isExtern then Failed(ExternFunction(f.name), trace)
    else RunBody(m, lexical, p, f.body, Bind(f.params, args), trace, clock)
  }

  // ----- the modelled fragment -----

  /** Names the lowerer makes up start with a dollar sign; the lexer accepts none such. */
  predicate IsUserName(x: string) {
    x == "" || x[0] != '$'
  }

  /** Callees the lowerer turns into memory instructions instead of calls. */
  const BUILTINS: set<string> := {"len", "slice", "atomic.load", "atomicLoad", "atomic.store", "atomicStore",
                                  "atomic.exchange", "atomicExchange", "atomic.compareExchange",
                                  "atomicCompareExchange", "atomic.fence", "atomicFence", "asm", "intrinsic"}

  predicate UserExpr(e: Expr) {
    match e
    case Literal(_) => true
    case Name(x) => IsUserName(x)
    case Unary(_, a) => UserExpr(a)
    case Try(a) => UserExpr(a)
    case Binary(a, _, b) => UserExpr(a) && UserExpr(b)
    case Assign(x, a) => IsUserName(x) && UserExpr(a)
    case Cast(a, _) => UserExpr(a)
    case Call(f, args) => f !in BUILTINS && forall a <- args :: UserExpr(a)
  }

  predicate UserStmt(s: Stmt) {
    match s
    case Let(x, e) => IsUserName(x) && UserExpr(e)
    case ExprStmt(e) => UserExpr(e)
    case Block(ss) => forall t <- ss :: UserStmt(t)
    case If(c, t) => UserExpr(c) && UserStmt(t)
    case IfElse(c, t, f) => UserExpr(c) && UserStmt(t) && UserStmt(f)
    case While(c, b) => UserExpr(c) && UserStmt(b)
    case ReturnNothing => true
    case Return(e) => UserExpr(e)
    case Throw(e) => UserExpr(e)
  }

  predicate UserFunction(f: Function) {
    (forall x <- f.params :: IsUserName(x)) && forall s <- f.body :: UserStmt(s)
  }

  /** Every function and top-level statement lies in the fragment. */
  predicate UserProgram(p: Program) {
    (forall f <- Functions(p) :: UserFunction(f)) && forall s <- Entry(p) :: UserStmt(s)
  }
}
