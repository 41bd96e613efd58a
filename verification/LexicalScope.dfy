/**
 Lexical and flat meaning agree on well-scoped programs in which no declaration shadows a visible name.

 The type checker resolves names through a stack of scopes and lets an inner block declare an outer name
 again; the lowered code has one table of variables per call.
 */
module LexicalScope {
  import opened Basics
  import S = Source
  import opened Values
  import opened Interpreter
  import opened Source

  // ----- what a program must satisfy -----

  /** Every name an expression reads or assigns is visible. */
  predicate ScopedExpr(e: Expr, visible: set<string>) {
    match e
    case Literal(_) => true
    case Name(x) => x in visible
    case Unary(_, a) => ScopedExpr(a, visible)
    case Try(a) => ScopedExpr(a, visible)
    case Binary(a, _, b) => ScopedExpr(a, visible) && ScopedExpr(b, visible)
    case Assign(x, a) => x in visible && ScopedExpr(a, visible)
    case Cast(a, _) => ScopedExpr(a, visible)
    case Call(_, args) => forall a <- args :: ScopedExpr(a, visible)
  }

  /** The grammar admits declarations only directly in blocks and function bodies. */
  predicate Scoped(s: Stmt, visible: set<string>) {
    match s
    case Let(_, e) => ScopedExpr(e, visible)
    case ExprStmt(e) => ScopedExpr(e, visible)
    case Block(ss) => ScopedAll(ss, visible)
    case If(c, t) => ScopedExpr(c, visible) && !t.Let? && Scoped(t, visible)
    case IfElse(c, t, f) => ScopedExpr(c, visible) && !t.Let? && !f.Let? && Scoped(t, visible) && Scoped(f, visible)
    case While(c, b) => ScopedExpr(c, visible) && !b.Let? && Scoped(b, visible)
    case ReturnNothing => true
    case Return(e) => ScopedExpr(e, visible)
    case Throw(e) => ScopedExpr(e, visible)
  }

  predicate ScopedAll(ss: seq<Stmt>, visible: set<string>) {
    ss == [] || (Scoped(ss[0], visible) && ScopedAll(ss[1..], visible + Introduced(ss[0])))
  }

  /** The name a statement adds to the block it stands in. */
  function Introduced(s: Stmt): set<string> {
    if s.Let? then {s.name} else {}
  }

  /** All names declared in a statement, at any depth. */
  function Declared(s: Stmt): set<string> {
    match s
    case Let(x, _) => {x}
    case Block(ss) => DeclaredAll(ss)
    case If(_, t) => Declared(t)
    case IfElse(_, t, f) => Declared(t) + Declared(f)
    case While(_, b) => Declared(b)
    case _ => {}
  }

  function DeclaredAll(ss: seq<Stmt>): set<string> {
    if ss == [] then {} else Declared(ss[0]) + DeclaredAll(ss[1..])
  }

  /** No declaration shadows a visible name; blocks side by side may declare the same names. */
  predicate Unshadowed(s: Stmt) {
    match s
    case Block(ss) => UnshadowedAll(ss)
    case If(_, t) => Unshadowed(t)
    case IfElse(_, t, f) => Unshadowed(t) && Unshadowed(f)
    case While(_, b) => Unshadowed(b)
    case _ => true
  }

  predicate UnshadowedAll(ss: seq<Stmt>) {
    ss == [] || (Unshadowed(ss[0]) && UnshadowedAll(ss[1..]) && Introduced(ss[0]) !! DeclaredAll(ss[1..]))
  }

  function Names(xs: seq<string>): set<string> {
    set x | x in xs
  }

  /** A function that reads and assigns only visible names, and redeclares none of them.  A call may pass
      fewer arguments than there are parameters, so only names bound for certain are counted visible. */
  predicate WellScoped(body: seq<Stmt>, bound: set<string>) {
    ScopedAll(body, bound) && UnshadowedAll(body) && bound !! DeclaredAll(body)
  }

  predicate WellScopedProgram(p: Program) {
    forall f <- Functions(p) :: WellScopedFunction(f)
  }

  /** The top-level statements run as one body, with no names bound. */
  predicate WellScopedEntry(p: Program) {
    WellScoped(S.Entry(p), {})
  }

  predicate WellScopedFunction(f: Function) {
    WellScoped(f.body, Names(f.params))
  }

  // ----- the relation between a stack of scopes and a flat table -----

  ghost function Entry(flat: Vars, x: string): Option<Value> {
    if x in flat then Some(flat[x]) else None
  }

  /** Every visible name has the same value in both, or is a parameter (in `ps`) unbound in both. */
  ghost predicate Agrees(env: Env, flat: Vars, visible: set<string>, ps: set<string>) {
    forall x :: x in visible ==> Lookup(env, x) == Entry(flat, x) && (x in ps || Lookup(env, x).Some?)
  }

  lemma {:induction false} LookupUpdate(env: Env, x: string, v: Value, y: string)
    ensures Lookup(Update(env, x, v), y) == if y == x then Some(v) else Lookup(env, y)
  {
    if x in env[|env| - 1] || |env| == 1 {
      LookupDefine(env, x, v, y);
    } else {
      LookupUpdate(env[..|env| - 1], x, v, y);
      var u := Update(env[..|env| - 1], x, v);
      assert (u + [env[|env| - 1]])[..|env| - 1] == u;
    }
  }

  lemma LookupDefine(env: Env, x: string, v: Value, y: string)
    ensures Lookup(Define(env, x, v), y) == if y == x then Some(v) else Lookup(env, y)
  {
    assert Define(env, x, v)[..|env| - 1] == env[..|env| - 1];
  }

  /** Assigning a name binds it nowhere new, except that an unbound one becomes bound outermost. */
  lemma {:induction false} UpdateGrows(env: Env, x: string, v: Value, ps: set<string>)
    requires x in ps || Lookup(env, x).Some?
    ensures Grew(env, Update(env, x, v), {}, ps)
  {
    if x !in env[|env| - 1] && |env| > 1 {
      var outer := env[..|env| - 1];
      UpdateGrows(outer, x, v, ps);
      forall i | 0 <= i < |env| ensures Widened(env, Update(env, x, v), i, {}, ps) {
        if i < |outer| { assert Widened(outer, Update(outer, x, v), i, {}, ps); }
      }
    }
  }

  lemma AgreesUpdate(env: Env, flat: Vars, visible: set<string>, x: string, v: Value, ps: set<string>)
    requires Agrees(env, flat, visible, ps)
    ensures Agrees(Update(env, x, v), Update([flat], x, v)[0], visible, ps)
  {
    forall y | y in visible ensures Lookup(Update(env, x, v), y) == Entry(flat[x := v], y) {
      LookupUpdate(env, x, v, y);
    }
  }

  lemma AgreesDefine(env: Env, flat: Vars, visible: set<string>, x: string, v: Value, ps: set<string>)
    requires Agrees(env, flat, visible, ps)
    ensures Agrees(Define(env, x, v), Define([flat], x, v)[0], visible + {x}, ps)
  {
    forall y | y in visible + {x} ensures Lookup(Define(env, x, v), y) == Entry(flat[x := v], y) {
      LookupDefine(env, x, v, y);
    }
  }

  /** The innermost scope gained names among `gained` only, the outermost one any parameters too. */
  ghost predicate Grew(before: Env, after: Env, gained: set<string>, ps: set<string>) {
    && |after| == |before|
    && forall i :: 0 <= i < |before| ==> Widened(before, after, i, gained, ps)
  }

  ghost predicate Widened(before: Env, after: Env, i: nat, gained: set<string>, ps: set<string>)
    requires i < |before| && |after| == |before|
  {
    after[i].Keys <= before[i].Keys + (if i == |before| - 1 then gained else {}) + if i == 0 then ps else {}
  }

  /** The lexical result and the flat one are the same evaluation. */
  ghost predicate Same(lex: S.Result, flat: S.Result, before: Env, seen: set<string>, gained: set<string>, ps: set<string>) {
    match lex
    case Next(v, st) =>
      && flat.Next? && flat.value == v && flat.st.trace == st.trace && flat.st.clock == st.clock && |flat.st.env| == 1
      && Agrees(st.env, flat.st.env[0], seen, ps) && Grew(before, st.env, gained, ps)
    case Exit(v, st) => flat.Exit? && flat.value == v && flat.st.trace == st.trace && flat.st.clock == st.clock
    case other => flat == other
  }

  ghost predicate SameArgs(lex: ArgsResult, flat: ArgsResult, before: Env, visible: set<string>, ps: set<string>) {
    match lex
    case Values(vs, st) => flat.Values? && flat.values == vs && Same(Next(Null, st), Next(Null, flat.st), before, visible, {}, ps)
    case Stop(r) => flat.Stop? && Same(r, flat.result, before, visible, {}, ps)
  }

  /** Equal values, calls and clocks, or equal errors; the tables of variables may differ. */
  ghost predicate SameEnding(lex: FnResult, flat: FnResult) {
    match lex
    case Done(v, _, trace, clock) => flat.Done? && flat.value == v && flat.trace == trace && flat.clock == clock
    case other => flat == other
  }

  lemma {:induction false} ExprScopes(m: Machine, p: Program, e: Expr, visible: set<string>, ps: set<string>, lex: State, flat: State)
    requires WellScopedProgram(p) && ScopedExpr(e, visible)
    requires |flat.env| == 1 && lex.trace == flat.trace && lex.clock == flat.clock && Agrees(lex.env, flat.env[0], visible, ps)
    ensures Same(Eval(m, true, p, e, lex), Eval(m, false, p, e, flat), lex.env, visible, {}, ps)
    decreases lex.clock, 1, e
  {
    hide WellScopedProgram, UnaryOp, BinaryOp, CastValue, AsInt, Truthy, CallNamed;
    match e
    case Literal(_) =>
    case Name(x) => assert Lookup(lex.env, x) == Entry(flat.env[0], x);
    case Unary(_, a) => ExprScopes(m, p, a, visible, ps, lex, flat);
    case Try(a) => ExprScopes(m, p, a, visible, ps, lex, flat);
    case Cast(a, _) => ExprScopes(m, p, a, visible, ps, lex, flat);
    case Binary(a, _, b) =>
      ExprScopes(m, p, a, visible, ps, lex, flat);
      var l, f := Eval(m, true, p, a, lex), Eval(m, false, p, a, flat);
      if l.Next? {
        ExprScopes(m, p, b, visible, ps, l.st, f.st);
        GrewTwice(lex.env, l.st.env, Eval(m, true, p, b, l.st), Eval(m, false, p, b, f.st), visible, {}, ps);
      }
    case Assign(x, a) =>
      ExprScopes(m, p, a, visible, ps, lex, flat);
      var l, f := Eval(m, true, p, a, lex), Eval(m, false, p, a, flat);
      if l.Next? {
        AgreesUpdate(l.st.env, f.st.env[0], visible, x, l.value, ps);
        UpdateGrows(l.st.env, x, l.value, ps);
        GrewTwice(lex.env, l.st.env, Eval(m, true, p, e, lex), Eval(m, false, p, e, flat), visible, {}, ps);
      }
    case Call(f, args) =>
      ArgsScopes(m, p, args, visible, ps, lex, flat);
      var l := EvalArgs(m, true, p, args, lex);
      if l.Values? {
        CallScopes(m, p, CalleeText(f), l.values, l.st.trace, l.st.clock);
      }
  }

  /** Growth of scopes over two evaluations in a row. */
  lemma GrewTwice(before: Env, middle: Env, lex: S.Result, flat: S.Result, seen: set<string>, gained: set<string>, ps: set<string>)
    requires Grew(before, middle, gained, ps) && Same(lex, flat, middle, seen, gained, ps)
    ensures Same(lex, flat, before, seen, gained, ps)
  {
    if lex.Next? {
      forall i | 0 <= i < |before| ensures Widened(before, lex.st.env, i, gained, ps) {
        assert Widened(before, middle, i, gained, ps) && Widened(middle, lex.st.env, i, gained, ps);
      }
    }
  }

  lemma {:induction false} ArgsScopes(m: Machine, p: Program, es: seq<Expr>, visible: set<string>, ps: set<string>, lex: State, flat: State)
    requires WellScopedProgram(p) && forall a <- es :: ScopedExpr(a, visible)
    requires |flat.env| == 1 && lex.trace == flat.trace && lex.clock == flat.clock && Agrees(lex.env, flat.env[0], visible, ps)
    ensures SameArgs(EvalArgs(m, true, p, es, lex), EvalArgs(m, false, p, es, flat), lex.env, visible, ps)
    decreases lex.clock, 1, es
  {
    hide Eval, WellScopedProgram;
    if es != [] {
      ExprScopes(m, p, es[0], visible, ps, lex, flat);
      var l, f := Eval(m, true, p, es[0], lex), Eval(m, false, p, es[0], flat);
      if l.Next? {
        ArgsScopes(m, p, es[1..], visible, ps, l.st, f.st);
        var ls, fs := EvalArgs(m, true, p, es[1..], l.st), EvalArgs(m, false, p, es[1..], f.st);
        if ls.Values? {
          GrewTwice(lex.env, l.st.env, Next(Null, ls.st), Next(Null, fs.st), visible, {}, ps);
        } else {
          GrewTwice(lex.env, l.st.env, ls.result, fs.result, visible, {}, ps);
        }
      }
    }
  }

  lemma {:induction false} CallScopes(m: Machine, p: Program, name: string, args: seq<Value>, trace: Trace, clock: nat)
    requires WellScopedProgram(p)
    ensures SameEnding(CallNamed(m, true, p, name, args, trace, clock), CallNamed(m, false, p, name, args, trace, clock))
    decreases clock, 0
  {
    var i := FindFunction(Functions(p), name);
    if i.Some? && clock > 0 {
      var f := Functions(p)[i.value];
      assert f in Functions(p) && WellScopedFunction(f);
      var vars, called := Bind(f.params, args), trace + [Event(name, args)];
      assert RunSource(m, true, p, f, args, called, clock - 1) == RunBody(m, true, p, f.body, vars, called, clock - 1);
      assert RunSource(m, false, p, f, args, called, clock - 1) == RunBody(m, false, p, f.body, vars, called, clock - 1);
      BodyScopes(m, p, f.body, Names(f.params), Bind(f.params, args), trace + [Event(name, args)], clock - 1);
    }
  }

  lemma {:induction false} BodyScopes(m: Machine, p: Program, body: seq<Stmt>, bound: set<string>, vars: Vars, trace: Trace, clock: nat)
    requires WellScopedProgram(p) && WellScoped(body, bound)
    ensures SameEnding(RunBody(m, true, p, body, vars, trace, clock), RunBody(m, false, p, body, vars, trace, clock))
    decreases clock, 2
  {
    hide ExecAll, WellScopedProgram;
    AllScopes(m, p, body, bound, bound, State([vars], trace, clock), State([vars], trace, clock));
  }

  lemma {:induction false} AllScopes(m: Machine, p: Program, ss: seq<Stmt>, visible: set<string>, ps: set<string>, lex: State, flat: State)
    requires WellScopedProgram(p) && ScopedAll(ss, visible) && UnshadowedAll(ss) && visible !! DeclaredAll(ss)
    requires |flat.env| == 1 && lex.trace == flat.trace && lex.clock == flat.clock && Agrees(lex.env, flat.env[0], visible, ps)
    ensures Same(ExecAll(m, true, p, ss, lex), ExecAll(m, false, p, ss, flat), lex.env, visible, DeclaredAll(ss), ps)
    decreases lex.clock, 1, ss, 0
  {
    hide Exec, WellScopedProgram, Scoped, Unshadowed;
    if ss != [] {
      var s, seen := ss[0], visible + Introduced(ss[0]);
      StmtScopes(m, p, s, visible, ps, lex, flat);
      var l, f := Exec(m, true, p, s, lex), Exec(m, false, p, s, flat);
      if l.Next? {
        AllScopes(m, p, ss[1..], seen, ps, l.st, f.st);
        Narrow(lex.env, l.st.env, ExecAll(m, true, p, ss[1..], l.st), ExecAll(m, false, p, ss[1..], f.st),
               visible, Introduced(s), DeclaredAll(ss[1..]), DeclaredAll(ss), ps);
      }
    }
  }

  lemma DefineGrows(before: Env, env: Env, x: string, v: Value, ps: set<string>)
    requires Grew(before, env, {}, ps)
    ensures Grew(before, Define(env, x, v), {x}, ps)
  {
    forall i | 0 <= i < |before| ensures Widened(before, Define(env, x, v), i, {x}, ps) {
      assert Widened(before, env, i, {}, ps);
    }
  }

  /** What is known of more names and less growth holds of fewer names and more growth. */
  lemma Narrow(before: Env, middle: Env, lex: S.Result, flat: S.Result, visible: set<string>, first: set<string>,
               second: set<string>, both: set<string>, ps: set<string>)
    requires Grew(before, middle, first, ps) && Same(lex, flat, middle, visible + first, second, ps)
    requires first <= both && second <= both
    ensures Same(lex, flat, before, visible, both, ps)
  {
    if lex.Next? {
      forall i | 0 <= i < |before| ensures Widened(before, lex.st.env, i, both, ps) {
        assert Widened(before, middle, i, first, ps) && Widened(middle, lex.st.env, i, second, ps);
      }
    }
  }

  lemma {:induction false} StmtScopes(m: Machine, p: Program, s: Stmt, visible: set<string>, ps: set<string>, lex: State, flat: State)
    requires WellScopedProgram(p) && Scoped(s, visible) && Unshadowed(s) && visible !! Declared(s)
    requires |flat.env| == 1 && lex.trace == flat.trace && lex.clock == flat.clock && Agrees(lex.env, flat.env[0], visible, ps)
    ensures Same(Exec(m, true, p, s, lex), Exec(m, false, p, s, flat), lex.env, visible + Introduced(s), Introduced(s), ps)
    decreases lex.clock, 1, s
  {
    hide Eval, ExecAll, WellScopedProgram, ScopedAll, UnshadowedAll, DeclaredAll, Agrees;
    assert visible + {} == visible;
    match s
    case Let(x, e) =>
      ExprScopes(m, p, e, visible, ps, lex, flat);
      var l, f := Eval(m, true, p, e, lex), Eval(m, false, p, e, flat);
      if l.Next? {
        AgreesDefine(l.st.env, f.st.env[0], visible, x, l.value, ps);
        DefineGrows(lex.env, l.st.env, x, l.value, ps);
      }
    case ExprStmt(e) => ExprScopes(m, p, e, visible, ps, lex, flat);
    case Block(ss) => BlockScopes(m, p, ss, visible, ps, lex, flat);
    case If(c, t) =>
      ExprScopes(m, p, c, visible, ps, lex, flat);
      var l, f := Eval(m, true, p, c, lex), Eval(m, false, p, c, flat);
      if l.Next? && Truthy(m.float, l.value) {
        StmtScopes(m, p, t, visible, ps, l.st, f.st);
        GrewTwice(lex.env, l.st.env, Exec(m, true, p, t, l.st), Exec(m, false, p, t, f.st), visible, {}, ps);
      }
    case IfElse(c, t, q) =>
      ExprScopes(m, p, c, visible, ps, lex, flat);
      var l, f := Eval(m, true, p, c, lex), Eval(m, false, p, c, flat);
      if l.Next? {
        var b := if Truthy(m.float, l.value) then t else q;
        StmtScopes(m, p, b, visible, ps, l.st, f.st);
        GrewTwice(lex.env, l.st.env, Exec(m, true, p, b, l.st), Exec(m, false, p, b, f.st), visible, {}, ps);
      }
    case While(c, b) => WhileScopes(m, p, s, visible, ps, lex, flat);
    case ReturnNothing =>
    case Return(e) => ExprScopes(m, p, e, visible, ps, lex, flat);
    case Throw(e) => ExprScopes(m, p, e, visible, ps, lex, flat);
  }

  lemma {:induction false} WhileScopes(m: Machine, p: Program, s: Stmt, visible: set<string>, ps: set<string>, lex: State, flat: State)
    requires s.While? && WellScopedProgram(p) && Scoped(s, visible) && Unshadowed(s) && visible !! Declared(s)
    requires |flat.env| == 1 && lex.trace == flat.trace && lex.clock == flat.clock && Agrees(lex.env, flat.env[0], visible, ps)
    ensures Same(Exec(m, true, p, s, lex), Exec(m, false, p, s, flat), lex.env, visible, {}, ps)
    decreases lex.clock, 1, s, 0
  {
    hide Eval, WellScopedProgram, Agrees;
    assert visible + {} == visible;
    ExprScopes(m, p, s.condition, visible, ps, lex, flat);
    var l, f := Eval(m, true, p, s.condition, lex), Eval(m, false, p, s.condition, flat);
    if l.Next? && Truthy(m.float, l.value) {
      StmtScopes(m, p, s.body, visible, ps, l.st, f.st);
      var l2, f2 := Exec(m, true, p, s.body, l.st), Exec(m, false, p, s.body, f.st);
      if l2.Next? {
        GrewTwice(lex.env, l.st.env, l2, f2, visible, {}, ps);
        if l2.st.clock > 0 {
          var l3, f3 := l2.st.(clock := l2.st.clock - 1), f2.st.(clock := f2.st.clock - 1);
          WhileScopes(m, p, s, visible, ps, l3, f3);
          GrewTwice(lex.env, l3.env, Exec(m, true, p, s, l3), Exec(m, false, p, s, f3), visible, {}, ps);
        }
      }
    }
  }

  /** Leaving a block: its scope held only names declared in it, so no visible name changes meaning. */
  lemma {:induction false} BlockScopes(m: Machine, p: Program, ss: seq<Stmt>, visible: set<string>, ps: set<string>, lex: State, flat: State)
    requires WellScopedProgram(p) && ScopedAll(ss, visible) && UnshadowedAll(ss) && visible !! DeclaredAll(ss)
    requires |flat.env| == 1 && lex.trace == flat.trace && lex.clock == flat.clock && Agrees(lex.env, flat.env[0], visible, ps)
    ensures Same(Exec(m, true, p, Block(ss), lex), Exec(m, false, p, Block(ss), flat), lex.env, visible, {}, ps)
    decreases lex.clock, 1, ss
  {
    hide ExecAll, WellScopedProgram;
    var inner := lex.(env := lex.env + [map[]]);
    assert inner.env[..|lex.env|] == lex.env;
    AllScopes(m, p, ss, visible, ps, inner, flat);
    var r := ExecAll(m, true, p, ss, inner);
    if r.Next? {
      assert Widened(inner.env, r.st.env, |lex.env|, DeclaredAll(ss), ps);
      var outer := r.st.env[..|lex.env|];
      var flatVars := ExecAll(m, false, p, ss, flat).st.env[0];
      assert Agrees(outer, flatVars, visible, ps) by {
        forall x | x in visible ensures Lookup(outer, x) == Lookup(r.st.env, x) {}
      }
      forall i | 0 <= i < |lex.env| ensures Widened(lex.env, outer, i, {}, ps) {
        assert Widened(inner.env, r.st.env, i, DeclaredAll(ss), ps);
      }
    }
  }

  /** For well-scoped programs without shadowing the flat meaning is the lexical one. */
  lemma LexicalIsFlat(m: Machine, p: Program, f: Function, args: seq<Value>, trace: Trace, clock: nat)
    requires WellScopedProgram(p) && f in Functions(p)
    ensures SameEnding(RunSource(m, true, p, f, args, trace, clock), RunSource(m, false, p, f, args, trace, clock))
  {
    if !f.isExtern {
      assert WellScopedFunction(f);
      BodyScopes(m, p, f.body, Names(f.params), Bind(f.params, args), trace, clock);
    }
  }

  /** The same for the top-level statements. */
  lemma EntryLexicalIsFlat(m: Machine, p: Program, trace: Trace, clock: nat)
    requires WellScopedProgram(p) && WellScopedEntry(p)
    ensures SameEnding(RunBody(m, true, p, S.Entry(p), map[], trace, clock), RunBody(m, false, p, S.Entry(p), map[], trace, clock))
  {
    BodyScopes(m, p, S.Entry(p), {}, map[], trace, clock);
  }
}
