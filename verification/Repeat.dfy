/**
 `repeat n { ... }`, which the parser turns into two hidden variables and a while loop.

 Apart from the hidden names, it is its body run max(0, n) times with n evaluated once; the counter never
 overflows, whether or not overflow is checked.  This is the flat meaning, which the lowered code has.
 */
module Repeat {
  import opened Basics
  import opened Int64
  import opened Values
  import opened Interpreter
  import opened Decimal
  import S = Source
  import opened Source
  import L = LexicalScope

  // ----- the desugaring -----

  function LimitName(source: nat, start: nat): string {
    "__nq_repeat_limit_" + (Text(source) + "_" + Text(start))
  }

  function IndexName(source: nat, start: nat): string {
    "__nq_repeat_index_" + (Text(source) + "_" + Text(start))
  }

  function Increment(index: string): Stmt {
    ExprStmt(Assign(index, Binary(Name(index), Add, Literal(Int(1)))))
  }

  function CountedLoop(body: seq<Stmt>, limit: string, index: string): Stmt {
    While(Binary(Name(index), Lt, Name(limit)), Block(body + [Increment(index)]))
  }

  /** The statement the parser builds for a repeat at offset `start` of source file `source`. */
  function RepeatStmt(count: Expr, body: seq<Stmt>, source: nat, start: nat): Stmt {
    var limit, index := LimitName(source, start), IndexName(source, start);
    Block([Let(limit, Cast(count, "int")), Let(index, Literal(Int(0))), CountedLoop(body, limit, index)])
  }

  function Hidden(source: nat, start: nat): set<string> {
    {LimitName(source, start), IndexName(source, start)}
  }

  /** Different repeats have different hidden names. */
  lemma HiddenNamesDistinct(s: nat, t: nat, s2: nat, t2: nat)
    ensures LimitName(s, t) != IndexName(s2, t2)
    ensures (s, t) != (s2, t2) ==> Hidden(s, t) !! Hidden(s2, t2)
  {
    assert LimitName(s, t)[12] == 'l' && IndexName(s2, t2)[12] == 'i' && IndexName(s, t)[12] == 'i' && LimitName(s2, t2)[12] == 'l';
    var a, b := Text(s) + "_" + Text(t), Text(s2) + "_" + Text(t2);
    if a == b {
      SplitInjective(Text(s), Text(t), Text(s2), Text(t2), '_');
      TextInjective(s, s2);
      TextInjective(t, t2);
    }
    assert LimitName(s, t)[18..] == a && LimitName(s2, t2)[18..] == b;
    assert IndexName(s, t)[18..] == a && IndexName(s2, t2)[18..] == b;
  }

  // ----- names a statement stays away from -----

  /** Mentions no name of `hidden` and assigns none of `kept`. */
  predicate ExprAvoids(e: Expr, hidden: set<string>, kept: set<string>) {
    match e
    case Literal(_) => true
    case Name(x) => x !in hidden
    case Unary(_, a) => ExprAvoids(a, hidden, kept)
    case Try(a) => ExprAvoids(a, hidden, kept)
    case Binary(a, _, b) => ExprAvoids(a, hidden, kept) && ExprAvoids(b, hidden, kept)
    case Assign(x, a) => x !in hidden && x !in kept && ExprAvoids(a, hidden, kept)
    case Cast(a, _) => ExprAvoids(a, hidden, kept)
    case Call(_, args) => forall a <- args :: ExprAvoids(a, hidden, kept)
  }

  predicate Avoids(s: Stmt, hidden: set<string>, kept: set<string>) {
    match s
    case Let(x, e) => x !in hidden && x !in kept && ExprAvoids(e, hidden, kept)
    case ExprStmt(e) => ExprAvoids(e, hidden, kept)
    case Block(ss) => AllAvoid(ss, hidden, kept)
    case If(c, t) => ExprAvoids(c, hidden, kept) && Avoids(t, hidden, kept)
    case IfElse(c, t, f) => ExprAvoids(c, hidden, kept) && Avoids(t, hidden, kept) && Avoids(f, hidden, kept)
    case While(c, b) => ExprAvoids(c, hidden, kept) && Avoids(b, hidden, kept)
    case ReturnNothing => true
    case Return(e) => ExprAvoids(e, hidden, kept)
    case Throw(e) => ExprAvoids(e, hidden, kept)
  }

  predicate AllAvoid(ss: seq<Stmt>, hidden: set<string>, kept: set<string>) {
    ss == [] || (Avoids(ss[0], hidden, kept) && AllAvoid(ss[1..], hidden, kept))
  }

  lemma {:induction false} AvoidAppended(ss: seq<Stmt>, s: Stmt, hidden: set<string>, kept: set<string>)
    ensures AllAvoid(ss + [s], hidden, kept) <==> AllAvoid(ss, hidden, kept) && Avoids(s, hidden, kept)
  {
    if ss == [] {
      assert ss + [s] == [s] && [s][1..] == [];
    } else {
      assert (ss + [s])[1..] == ss[1..] + [s];
      AvoidAppended(ss[1..], s, hidden, kept);
    }
  }

  /** A nested repeat stays away from the outer one's hidden names as soon as its count and body do. */
  lemma NestedRepeatAvoids(count: Expr, body: seq<Stmt>, source: nat, start: nat, outerSource: nat, outerStart: nat)
    requires (source, start) != (outerSource, outerStart)
    ensures var hidden := Hidden(outerSource, outerStart);
            Avoids(RepeatStmt(count, body, source, start), hidden, hidden) <==>
            ExprAvoids(count, hidden, hidden) && AllAvoid(body, hidden, hidden)
  {
    var hidden := Hidden(outerSource, outerStart);
    var limit, index := LimitName(source, start), IndexName(source, start);
    HiddenNamesDistinct(source, start, outerSource, outerStart);
    assert limit in Hidden(source, start) && index in Hidden(source, start);
    assert limit !in hidden && index !in hidden;
    var loop := CountedLoop(body, limit, index);
    AvoidAppended(body, Increment(index), hidden, hidden);
    var sum := Binary(Name(index), Add, Literal(Int(1)));
    assert ExprAvoids(Name(index), hidden, hidden) && ExprAvoids(Name(limit), hidden, hidden);
    assert ExprAvoids(sum, hidden, hidden) && ExprAvoids(loop.condition, hidden, hidden);
    assert Avoids(Increment(index), hidden, hidden);
    assert Avoids(loop, hidden, hidden) <==> AllAvoid(body + [Increment(index)], hidden, hidden);
    var ss := [Let(limit, Cast(count, "int")), Let(index, Literal(Int(0))), loop];
    assert ss[1..] == [ss[1], loop] && ss[1..][1..] == [loop] && [loop][1..] == [];
    assert AllAvoid(ss[1..][1..], hidden, hidden) <==> Avoids(loop, hidden, hidden);
    assert Avoids(ss[1], hidden, hidden) by { assert ExprAvoids(Literal(Int(0)), hidden, hidden); }
    assert AllAvoid(ss[1..], hidden, hidden) <==> Avoids(loop, hidden, hidden);
    assert Avoids(ss[0], hidden, hidden) <==> ExprAvoids(count, hidden, hidden);
    assert AllAvoid(ss, hidden, hidden) <==> Avoids(ss[0], hidden, hidden) && AllAvoid(ss[1..], hidden, hidden);
  }

  // ----- what it does not mention makes no difference, and what it does not assign stays -----

  ghost predicate Alike(a: State, b: State, hidden: set<string>) {
    && |a.env| == 1 && |b.env| == 1 && a.trace == b.trace && a.clock == b.clock
    && forall x :: x !in hidden ==> L.Entry(a.env[0], x) == L.Entry(b.env[0], x)
  }

  ghost predicate Unchanged(before: State, after: State, kept: set<string>) {
    |before.env| == 1 && |after.env| == 1 && forall x :: x in kept ==> L.Entry(before.env[0], x) == L.Entry(after.env[0], x)
  }

  /** The same result, up to hidden variables. */
  ghost predicate SameUpTo(r: S.Result, q: S.Result, hidden: set<string>) {
    match r
    case Next(v, st) => q.Next? && q.value == v && Alike(st, q.st, hidden)
    case Exit(v, st) => q.Exit? && q.value == v && Alike(st, q.st, hidden)
    case other => q == other
  }

  ghost predicate Keeps(before: State, r: S.Result, kept: set<string>) {
    r.Next? ==> Unchanged(before, r.st, kept)
  }

  lemma {:induction false} ExprAlike(m: Machine, p: Program, e: Expr, hidden: set<string>, kept: set<string>, a: State, b: State)
    requires ExprAvoids(e, hidden, kept) && Alike(a, b, hidden)
    ensures SameUpTo(Eval(m, false, p, e, a), Eval(m, false, p, e, b), hidden)
    ensures Keeps(a, Eval(m, false, p, e, a), kept)
    decreases a.clock, 1, e
  {
    hide UnaryOp, BinaryOp, CastValue, AsInt, Truthy, CallNamed;
    match e
    case Literal(_) =>
    case Name(x) => assert L.Entry(a.env[0], x) == L.Entry(b.env[0], x);
    case Unary(_, e1) => ExprAlike(m, p, e1, hidden, kept, a, b);
    case Try(e1) => ExprAlike(m, p, e1, hidden, kept, a, b);
    case Cast(e1, _) => ExprAlike(m, p, e1, hidden, kept, a, b);
    case Binary(e1, _, e2) =>
      ExprAlike(m, p, e1, hidden, kept, a, b);
      var r, q := Eval(m, false, p, e1, a), Eval(m, false, p, e1, b);
      if r.Next? { ExprAlike(m, p, e2, hidden, kept, r.st, q.st); }
    case Assign(x, e1) => ExprAlike(m, p, e1, hidden, kept, a, b);
    case Call(_, args) => ArgsAlike(m, p, args, hidden, kept, a, b);
  }

  lemma {:induction false} ArgsAlike(m: Machine, p: Program, es: seq<Expr>, hidden: set<string>, kept: set<string>, a: State, b: State)
    requires (forall e <- es :: ExprAvoids(e, hidden, kept)) && Alike(a, b, hidden)
    ensures match EvalArgs(m, false, p, es, a)
            case Values(vs, st) =>
              var q := EvalArgs(m, false, p, es, b);
              q.Values? && q.values == vs && Alike(st, q.st, hidden) && Unchanged(a, st, kept)
            case Stop(r) =>
              var q := EvalArgs(m, false, p, es, b);
              q.Stop? && SameUpTo(r, q.result, hidden)
    decreases a.clock, 1, es
  {
    hide Eval;
    if es != [] {
      ExprAlike(m, p, es[0], hidden, kept, a, b);
      var r, q := Eval(m, false, p, es[0], a), Eval(m, false, p, es[0], b);
      if r.Next? { ArgsAlike(m, p, es[1..], hidden, kept, r.st, q.st); }
    }
  }

  lemma {:induction false} AllAlike(m: Machine, p: Program, ss: seq<Stmt>, hidden: set<string>, kept: set<string>, a: State, b: State)
    requires AllAvoid(ss, hidden, kept) && Alike(a, b, hidden)
    ensures SameUpTo(ExecAll(m, false, p, ss, a), ExecAll(m, false, p, ss, b), hidden)
    ensures Keeps(a, ExecAll(m, false, p, ss, a), kept)
    decreases a.clock, 1, ss
  {
    hide Exec, Avoids;
    if ss != [] {
      StmtAlike(m, p, ss[0], hidden, kept, a, b);
      var r, q := Exec(m, false, p, ss[0], a), Exec(m, false, p, ss[0], b);
      if r.Next? { AllAlike(m, p, ss[1..], hidden, kept, r.st, q.st); }
    }
  }

  lemma {:induction false} StmtAlike(m: Machine, p: Program, s: Stmt, hidden: set<string>, kept: set<string>, a: State, b: State)
    requires Avoids(s, hidden, kept) && Alike(a, b, hidden)
    ensures SameUpTo(Exec(m, false, p, s, a), Exec(m, false, p, s, b), hidden)
    ensures Keeps(a, Exec(m, false, p, s, a), kept)
    decreases a.clock, 1, s
  {
    hide Eval, ExecAll, AllAvoid, Truthy, AsInt;
    match s
    case Let(_, e) => ExprAlike(m, p, e, hidden, kept, a, b);
    case ExprStmt(e) => ExprAlike(m, p, e, hidden, kept, a, b);
    case Block(ss) => AllAlike(m, p, ss, hidden, kept, a, b);
    case If(c, t) =>
      ExprAlike(m, p, c, hidden, kept, a, b);
      var r, q := Eval(m, false, p, c, a), Eval(m, false, p, c, b);
      if r.Next? { StmtAlike(m, p, t, hidden, kept, r.st, q.st); }
    case IfElse(c, t, f) =>
      ExprAlike(m, p, c, hidden, kept, a, b);
      var r, q := Eval(m, false, p, c, a), Eval(m, false, p, c, b);
      if r.Next? {
        StmtAlike(m, p, if Truthy(m.float, r.value) then t else f, hidden, kept, r.st, q.st);
      }
    case While(_, _) => LoopAlike(m, p, s, hidden, kept, a, b);
    case ReturnNothing =>
    case Return(e) => ExprAlike(m, p, e, hidden, kept, a, b);
    case Throw(e) => ExprAlike(m, p, e, hidden, kept, a, b);
  }

  lemma {:induction false} LoopAlike(m: Machine, p: Program, s: Stmt, hidden: set<string>, kept: set<string>, a: State, b: State)
    requires s.While? && Avoids(s, hidden, kept) && Alike(a, b, hidden)
    ensures SameUpTo(Exec(m, false, p, s, a), Exec(m, false, p, s, b), hidden)
    ensures Keeps(a, Exec(m, false, p, s, a), kept)
    decreases a.clock, 1, s, 0
  {
    hide Eval, Truthy;
    ExprAlike(m, p, s.condition, hidden, kept, a, b);
    var r, q := Eval(m, false, p, s.condition, a), Eval(m, false, p, s.condition, b);
    if r.Next? && Truthy(m.float, r.value) {
      StmtAlike(m, p, s.body, hidden, kept, r.st, q.st);
      var r2, q2 := Exec(m, false, p, s.body, r.st), Exec(m, false, p, s.body, q.st);
      if r2.Next? && r2.st.clock > 0 {
        LoopAlike(m, p, s, hidden, kept, r2.st.(clock := r2.st.clock - 1), q2.st.(clock := q2.st.clock - 1));
      }
    }
  }

  // ----- the loop counts -----

  /** A body run `n` times; every turn but the last is followed by a tick, and so is the last. */
  function Times(m: Machine, p: Program, body: seq<Stmt>, n: nat, st: State): (r: S.Result)
    decreases n
  {
    if n == 0 then Next(Null, st)
    else
      var r := ExecAll(m, false, p, body, st);
      if !r.Next? then r
      else if r.st.clock == 0 then Timeout(r.st.trace)
      else Times(m, p, body, n - 1, r.st.(clock := r.st.clock - 1))
  }

  /** The turns from `i` on, of a body that may read the counter: it holds the number of turns made. */
  function Turns(m: Machine, p: Program, body: seq<Stmt>, index: string, i: nat, n: nat, st: State): (r: S.Result)
    requires i <= n <= MAX
    decreases n - i
  {
    if i == n then Next(Null, st)
    else
      var r := ExecAll(m, false, p, body, st);
      if !r.Next? then r
      else if r.st.clock == 0 then Timeout(r.st.trace)
      else Turns(m, p, body, index, i + 1, n, State(Define(r.st.env, index, Int(i + 1)), r.st.trace, r.st.clock - 1))
  }

  ghost predicate Counting(st: State, limit: string, index: string, i: i64, n: i64) {
    |st.env| == 1 && L.Entry(st.env[0], limit) == Some(Int(n)) && L.Entry(st.env[0], index) == Some(Int(i))
  }

  lemma TestReads(m: Machine, p: Program, limit: string, index: string, i: i64, n: i64, st: State)
    requires Counting(st, limit, index, i, n)
    ensures Eval(m, false, p, Binary(Name(index), Lt, Name(limit)), st) == Next(Bool(i < n), st)
  {
    assert Eval(m, false, p, Name(index), st) == Next(Int(i), st);
    assert Eval(m, false, p, Name(limit), st) == Next(Int(n), st);
  }

  /** Below the limit the counter has room, so that the increment never overflows. */
  lemma IncrementCounts(m: Machine, p: Program, limit: string, index: string, i: i64, n: i64, st: State)
    requires Counting(st, limit, index, i, n) && i < n && limit != index
    ensures Exec(m, false, p, Increment(index), st) == Next(Null, st.(env := Define(st.env, index, Int(i + 1))))
    ensures Counting(st.(env := Define(st.env, index, Int(i + 1))), limit, index, i + 1, n)
  {
    var one := Literal(Int(1));
    assert Eval(m, false, p, one, st) == Next(Int(1), st);
    assert Eval(m, false, p, Name(index), st) == Next(Int(i), st);
    assert BinaryOp(m.float, m.checked, Add, Int(i), Int(1)) == Ok(Int(i + 1));
    assert Eval(m, false, p, Binary(Name(index), Add, one), st) == Next(Int(i + 1), st);
    assert Update(st.env, index, Int(i + 1)) == Define(st.env, index, Int(i + 1));
  }

  lemma {:induction false} ExecAppended(m: Machine, p: Program, ss: seq<Stmt>, s: Stmt, st: State)
    ensures var r := ExecAll(m, false, p, ss, st);
            ExecAll(m, false, p, ss + [s], st) == if r.Next? then Exec(m, false, p, s, r.st) else r
    decreases |ss|
  {
    hide Exec;
    if ss == [] {
      assert ss + [s] == [s] && [s][1..] == [];
    } else {
      assert (ss + [s])[1..] == ss[1..] + [s];
      var r := Exec(m, false, p, ss[0], st);
      if r.Next? { ExecAppended(m, p, ss[1..], s, r.st); }
    }
  }

  lemma {:induction false} LoopCounts(m: Machine, p: Program, body: seq<Stmt>, limit: string, index: string, i: nat, n: nat, st: State)
    requires i <= n <= MAX && limit != index
    requires AllAvoid(body, {}, {limit, index}) && Counting(st, limit, index, i, n)
    ensures Exec(m, false, p, CountedLoop(body, limit, index), st) == Turns(m, p, body, index, i, n, st)
    ensures var r := Turns(m, p, body, index, i, n, st);
            r.Next? ==> Counting(r.st, limit, index, n, n)
    decreases n - i
  {
    hide Eval, ExecAll;
    TestReads(m, p, limit, index, i, n, st);
    if i < n {
      ExecAppended(m, p, body, Increment(index), st);
      AllAlike(m, p, body, {}, {limit, index}, st, st);
      var r := ExecAll(m, false, p, body, st);
      if r.Next? {
        StillCounting(st, r.st, limit, index, i, n);
        IncrementCounts(m, p, limit, index, i, n, r.st);
        var q := State(Define(r.st.env, index, Int(i + 1)), r.st.trace, r.st.clock);
        if r.st.clock > 0 {
          LoopCounts(m, p, body, limit, index, i + 1, n, q.(clock := q.clock - 1));
        }
      }
    }
  }

  lemma StillCounting(before: State, after: State, limit: string, index: string, i: i64, n: i64)
    requires Counting(before, limit, index, i, n) && Unchanged(before, after, {limit, index})
    ensures Counting(after, limit, index, i, n)
  {
  }

  // ----- repeat -----

  function TurnsFor(n: i64): nat {
    if n < 0 then 0 else n
  }

  function Begun(st: State, n: i64, source: nat, start: nat): State {
    st.(env := Define(Define(st.env, LimitName(source, start), Int(n)), IndexName(source, start), Int(0)))
  }

  lemma RepeatBegins(m: Machine, p: Program, count: Expr, body: seq<Stmt>, source: nat, start: nat, st: State)
    requires |st.env| == 1
    ensures var c := Eval(m, false, p, Cast(count, "int"), st);
            var loop := CountedLoop(body, LimitName(source, start), IndexName(source, start));
            && (c.Next? ==> c.value.Int?)
            && Exec(m, false, p, RepeatStmt(count, body, source, start), st) ==
               if c.Next? then Exec(m, false, p, loop, Begun(c.st, c.value.i, source, start)) else c
  {
    var c := Eval(m, false, p, Cast(count, "int"), st);
    var limit, index := LimitName(source, start), IndexName(source, start);
    var loop := CountedLoop(body, limit, index);
    var ss := [Let(limit, Cast(count, "int")), Let(index, Literal(Int(0))), loop];
    assert Exec(m, false, p, RepeatStmt(count, body, source, start), st) == ExecAll(m, false, p, ss, st);
    assert ss[1..] == [ss[1], loop] && ss[1..][1..] == [loop] && [loop][1..] == [];
    if c.Next? {
      IntegerCount(m, p, count, st);
      var s1 := c.st.(env := Define(c.st.env, limit, c.value));
      assert Exec(m, false, p, ss[0], st) == Next(Null, s1);
      var s2 := Begun(c.st, c.value.i, source, start);
      assert Eval(m, false, p, Literal(Int(0)), s1) == Next(Int(0), s1);
      assert Exec(m, false, p, ss[1], s1) == Next(Null, s2);
      assert ExecAll(m, false, p, [loop], s2) == Exec(m, false, p, loop, s2);
      assert ExecAll(m, false, p, ss[1..], s1) == ExecAll(m, false, p, [loop], s2);
    } else {
      assert Exec(m, false, p, ss[0], st) == c;
    }
  }

  lemma IntegerCount(m: Machine, p: Program, count: Expr, st: State)
    ensures var c := Eval(m, false, p, Cast(count, "int"), st); c.Next? ==> c.value.Int?
  {
    assert CastKindOf("int") == ToInteger;
  }

  /**
   The count is evaluated once; what follows are max(0, n) turns of the body, which may read the hidden
   variables but not assign them.  When they all end normally the counter holds their number.
   */
  lemma RepeatCountsTurns(m: Machine, p: Program, count: Expr, body: seq<Stmt>, source: nat, start: nat, st: State)
    requires |st.env| == 1 && AllAvoid(body, {}, Hidden(source, start))
    ensures var c := Eval(m, false, p, Cast(count, "int"), st);
            var q := Exec(m, false, p, RepeatStmt(count, body, source, start), st);
            && (!c.Next? ==> q == c)
            && (c.Next? ==> c.value.Int? && RepeatedTurns(m, p, body, source, start, c.value.i, c.st, q))
  {
    hide Eval, ExecAll, Exec, LimitName, IndexName;
    RepeatBegins(m, p, count, body, source, start, st);
    StaysFlat(m, p, Cast(count, "int"), st);
    var c := Eval(m, false, p, Cast(count, "int"), st);
    if c.Next? {
      TurnsFromStart(m, p, body, source, start, c.value.i, c.st);
    }
  }

  ghost predicate RepeatedTurns(m: Machine, p: Program, body: seq<Stmt>, source: nat, start: nat, n: i64, st: State, q: S.Result) {
    && q == Turns(m, p, body, IndexName(source, start), 0, TurnsFor(n), Begun(st, n, source, start))
    && (q.Next? ==> |q.st.env| == 1 && L.Entry(q.st.env[0], IndexName(source, start)) == Some(Int(TurnsFor(n))))
  }

  lemma TurnsFromStart(m: Machine, p: Program, body: seq<Stmt>, source: nat, start: nat, n: i64, st: State)
    requires |st.env| == 1 && AllAvoid(body, {}, Hidden(source, start))
    ensures var loop := CountedLoop(body, LimitName(source, start), IndexName(source, start));
            RepeatedTurns(m, p, body, source, start, n, st, Exec(m, false, p, loop, Begun(st, n, source, start)))
  {
    hide Eval, ExecAll, LimitName, IndexName;
    var limit, index := LimitName(source, start), IndexName(source, start);
    HiddenNamesDistinct(source, start, source, start);
    var s := Begun(st, n, source, start);
    assert Counting(s, limit, index, 0, n);
    if n < 0 {
      TestReads(m, p, limit, index, 0, n, s);
    } else {
      LoopCounts(m, p, body, limit, index, 0, n, s);
    }
  }

  lemma {:induction false} TurnsAreTimes(m: Machine, p: Program, body: seq<Stmt>, index: string, i: nat, n: nat,
                                         a: State, b: State, hidden: set<string>)
    requires i <= n <= MAX && index in hidden && AllAvoid(body, hidden, hidden) && Alike(a, b, hidden)
    ensures SameUpTo(Turns(m, p, body, index, i, n, a), Times(m, p, body, n - i, b), hidden)
    decreases n - i
  {
    hide ExecAll;
    if i < n {
      AllAlike(m, p, body, hidden, hidden, a, b);
      var r, q := ExecAll(m, false, p, body, a), ExecAll(m, false, p, body, b);
      if r.Next? && r.st.clock > 0 {
        TurnsAreTimes(m, p, body, index, i + 1, n,
                      State(Define(r.st.env, index, Int(i + 1)), r.st.trace, r.st.clock - 1), q.st.(clock := q.st.clock - 1), hidden);
      }
    }
  }

  lemma {:induction false} ExprAvoidsLess(e: Expr, hidden: set<string>, kept: set<string>, less: set<string>, fewer: set<string>)
    requires ExprAvoids(e, hidden, kept) && less <= hidden && fewer <= kept
    ensures ExprAvoids(e, less, fewer)
  {
    match e
    case Literal(_) =>
    case Name(_) =>
    case Unary(_, a) => ExprAvoidsLess(a, hidden, kept, less, fewer);
    case Try(a) => ExprAvoidsLess(a, hidden, kept, less, fewer);
    case Binary(a, _, b) => ExprAvoidsLess(a, hidden, kept, less, fewer); ExprAvoidsLess(b, hidden, kept, less, fewer);
    case Assign(_, a) => ExprAvoidsLess(a, hidden, kept, less, fewer);
    case Cast(a, _) => ExprAvoidsLess(a, hidden, kept, less, fewer);
    case Call(_, args) =>
      forall a | a in args ensures ExprAvoids(a, less, fewer) { ExprAvoidsLess(a, hidden, kept, less, fewer); }
  }

  lemma {:induction false} AvoidsLess(s: Stmt, hidden: set<string>, kept: set<string>, less: set<string>, fewer: set<string>)
    requires Avoids(s, hidden, kept) && less <= hidden && fewer <= kept
    ensures Avoids(s, less, fewer)
    decreases s
  {
    match s
    case Let(_, e) => ExprAvoidsLess(e, hidden, kept, less, fewer);
    case ExprStmt(e) => ExprAvoidsLess(e, hidden, kept, less, fewer);
    case Block(ss) => AllAvoidLess(ss, hidden, kept, less, fewer);
    case If(c, t) => ExprAvoidsLess(c, hidden, kept, less, fewer); AvoidsLess(t, hidden, kept, less, fewer);
    case IfElse(c, t, f) =>
      ExprAvoidsLess(c, hidden, kept, less, fewer);
      AvoidsLess(t, hidden, kept, less, fewer);
      AvoidsLess(f, hidden, kept, less, fewer);
    case While(c, b) => ExprAvoidsLess(c, hidden, kept, less, fewer); AvoidsLess(b, hidden, kept, less, fewer);
    case ReturnNothing =>
    case Return(e) => ExprAvoidsLess(e, hidden, kept, less, fewer);
    case Throw(e) => ExprAvoidsLess(e, hidden, kept, less, fewer);
  }

  lemma {:induction false} AllAvoidLess(ss: seq<Stmt>, hidden: set<string>, kept: set<string>, less: set<string>, fewer: set<string>)
    requires AllAvoid(ss, hidden, kept) && less <= hidden && fewer <= kept
    ensures AllAvoid(ss, less, fewer)
    decreases ss
  {
    if ss != [] {
      AvoidsLess(ss[0], hidden, kept, less, fewer);
      AllAvoidLess(ss[1..], hidden, kept, less, fewer);
    }
  }

  lemma {:induction false} AvoidsNothing(e: Expr)
    ensures ExprAvoids(e, {}, {})
  {
    match e
    case Literal(_) =>
    case Name(_) =>
    case Unary(_, a) => AvoidsNothing(a);
    case Try(a) => AvoidsNothing(a);
    case Binary(a, _, b) => AvoidsNothing(a); AvoidsNothing(b);
    case Assign(_, a) => AvoidsNothing(a);
    case Cast(a, _) => AvoidsNothing(a);
    case Call(_, args) => forall a | a in args ensures ExprAvoids(a, {}, {}) { AvoidsNothing(a); }
  }

  /** Evaluation in one flat table leaves one flat table. */
  lemma StaysFlat(m: Machine, p: Program, e: Expr, st: State)
    requires |st.env| == 1
    ensures var r := Eval(m, false, p, e, st); r.Next? ==> |r.st.env| == 1
  {
    AvoidsNothing(e);
    ExprAlike(m, p, e, {}, {}, st, st);
  }

  /** For a body that does not mention the hidden names at all: just the body, max(0, n) times. */
  lemma RepeatIsTimes(m: Machine, p: Program, count: Expr, body: seq<Stmt>, source: nat, start: nat, st: State)
    requires |st.env| == 1 && AllAvoid(body, Hidden(source, start), Hidden(source, start))
    ensures var c := Eval(m, false, p, Cast(count, "int"), st);
            var q := Exec(m, false, p, RepeatStmt(count, body, source, start), st);
            && (!c.Next? ==> q == c)
            && (c.Next? ==> c.value.Int? && SameUpTo(q, Times(m, p, body, TurnsFor(c.value.i), c.st), Hidden(source, start)))
  {
    hide Eval, ExecAll, Exec, LimitName, IndexName;
    AllAvoidLess(body, Hidden(source, start), Hidden(source, start), {}, Hidden(source, start));
    StaysFlat(m, p, Cast(count, "int"), st);
    RepeatCountsTurns(m, p, count, body, source, start, st);
    var c := Eval(m, false, p, Cast(count, "int"), st);
    if c.Next? {
      var n := TurnsFor(c.value.i);
      assert Alike(Begun(c.st, c.value.i, source, start), c.st, Hidden(source, start));
      TurnsAreTimes(m, p, body, IndexName(source, start), 0, n, Begun(c.st, c.value.i, source, start), c.st, Hidden(source, start));
    }
  }
}
