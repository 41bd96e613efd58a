/**
 The temporaries of the short-circuit operators: each operator has one of its own, which no other operator and
 no user variable shares.
 */
module LogicTemps {
  import opened Basics
  import opened Values
  import opened Nir
  import opened Decimal
  import opened Lowering
  import S = Source

  predicate Touches(i: Instr, x: string) {
    (i.Load? || i.Store?) && i.name == x
  }

  /** A temporary made at an emission point of [lo, hi). */
  ghost predicate TempOf(x: string, lo: nat, hi: nat) {
    exists q: nat, r: nat :: lo <= q < hi && x == LogicTemp(q, r)
  }

  ghost predicate NamesIn(code: seq<Instr>, lo: nat, hi: nat) {
    forall k, x :: 0 <= k < |code| && Touches(code[k], x) ==> S.IsUserName(x) || TempOf(x, lo, hi)
  }

  /** Every temporary is read by one instruction only: the last of its operator's code. */
  ghost predicate OneReader(code: seq<Instr>) {
    forall i, j :: 0 <= i < j < |code| && code[i].Load? && code[j].Load? && code[i].name == code[j].name ==> S.IsUserName(code[i].name)
  }

  /** Code at index `at` uses user names and its own temporaries, each read once. */
  ghost predicate Tidy(code: seq<Instr>, at: nat) {
    NamesIn(code, at, at + |code|) && OneReader(code)
  }

  lemma TempsDiffer(q: nat, r: nat, q2: nat, r2: nat)
    requires LogicTemp(q, r) == LogicTemp(q2, r2)
    ensures q == q2 && r == r2
  {
    var n := |"$noqeri.logic."|;
    assert LogicTemp(q, r)[n..] == Text(q) + "." + Text(r);
    assert LogicTemp(q2, r2)[n..] == Text(q2) + "." + Text(r2);
    SplitInjective(Text(q), Text(r), Text(q2), Text(r2), '.');
    TextInjective(q, q2);
    TextInjective(r, r2);
  }

  lemma TempIsNoUserName(q: nat, r: nat)
    ensures !S.IsUserName(LogicTemp(q, r))
  {
    assert LogicTemp(q, r)[0] == '$';
  }

  lemma RangesApart(x: string, lo: nat, mid: nat, hi: nat)
    requires TempOf(x, lo, mid)
    ensures !TempOf(x, mid, hi)
  {
    var q: nat, r: nat :| lo <= q < mid && x == LogicTemp(q, r);
    if TempOf(x, mid, hi) {
      var q2: nat, r2: nat :| mid <= q2 < hi && x == LogicTemp(q2, r2);
      TempsDiffer(q, r, q2, r2);
    }
  }

  lemma Widen(x: string, lo: nat, hi: nat, lo2: nat, hi2: nat)
    requires TempOf(x, lo, hi) && lo2 <= lo && hi <= hi2
    ensures TempOf(x, lo2, hi2)
  {
    var q: nat, r: nat :| lo <= q < hi && x == LogicTemp(q, r);
    assert lo2 <= q < hi2 && x == LogicTemp(q, r);
  }

  lemma WidenNames(code: seq<Instr>, lo: nat, hi: nat, lo2: nat, hi2: nat)
    requires NamesIn(code, lo, hi) && lo2 <= lo && hi <= hi2
    ensures NamesIn(code, lo2, hi2)
  {
    hide TempOf;
    forall k, x | 0 <= k < |code| && Touches(code[k], x) && !S.IsUserName(x) ensures TempOf(x, lo2, hi2) {
      Widen(x, lo, hi, lo2, hi2);
    }
  }

  lemma JoinNames(a: seq<Instr>, b: seq<Instr>, lo: nat, hi: nat)
    requires NamesIn(a, lo, hi) && NamesIn(b, lo, hi)
    ensures NamesIn(a + b, lo, hi)
  {
    hide TempOf;
  }

  lemma TidyJoin(a: seq<Instr>, b: seq<Instr>, at: nat)
    requires Tidy(a, at) && Tidy(b, at + |a|)
    ensures Tidy(a + b, at)
  {
    hide TempOf;
    var mid, hi := at + |a|, at + |a + b|;
    WidenNames(a, at, mid, at, hi);
    WidenNames(b, mid, hi, at, hi);
    JoinNames(a, b, at, hi);
    var c := a + b;
    forall i, j | 0 <= i < j < |c| && c[i].Load? && c[j].Load? && c[i].name == c[j].name ensures S.IsUserName(c[i].name) {
      if i < |a| <= j {
        assert Touches(a[i], c[i].name) && Touches(b[j - |a|], c[i].name);
        if !S.IsUserName(c[i].name) { RangesApart(c[i].name, at, mid, hi); }
      }
    }
  }

  /** One more instruction that touches user names only. */
  lemma TidyAppend(a: seq<Instr>, i: Instr, at: nat)
    requires Tidy(a, at) && forall x :: Touches(i, x) ==> S.IsUserName(x)
    ensures Tidy(a + [i], at)
  {
    assert Tidy([i], at + |a|);
    TidyJoin(a, [i], at);
  }

  /** The short-circuit code: saves the temporary, lets the right operand run, saves again and reads it. */
  lemma TidyTail(head: seq<Instr>, right: seq<Instr>, r1: Reg, r2: Reg, at: nat, next: nat)
    requires head != [] && forall i <- head :: !i.Load? && forall x :: Touches(i, x) ==> x == LogicTemp(at, next)
    requires Tidy(right, at + |head|)
    ensures Tidy(head + right + [Store(LogicTemp(at, next), r1)] + [Load(r2, LogicTemp(at, next))], at)
  {
    hide LogicTemp, TempOf;
    var temp := LogicTemp(at, next);
    var c := head + right + [Store(temp, r1)] + [Load(r2, temp)];
    var hi, start := at + |c|, at + |head|;
    assert TempOf(temp, at, start) && TempOf(temp, at, hi) by { TempIs(at, next, start); TempIs(at, next, hi); }
    WidenNames(right, start, start + |right|, at, hi);
    assert NamesIn(head, at, hi) by {
      forall k, x | 0 <= k < |head| && Touches(head[k], x) ensures x == temp { assert head[k] in head; }
    }
    JoinNames(head, right, at, hi);
    JoinNames(head + right, [Store(temp, r1)], at, hi);
    JoinNames(head + right + [Store(temp, r1)], [Load(r2, temp)], at, hi);
    forall i, j | 0 <= i < j < |c| && c[i].Load? && c[j].Load? && c[i].name == c[j].name ensures S.IsUserName(c[i].name) {
      assert c[i] !in head;
      assert c[i] == right[i - |head|] && Touches(right[i - |head|], c[i].name);
      if j == |c| - 1 && !S.IsUserName(temp) {
        RangesApart(temp, at, start, start + |right|);
      }
    }
  }

  lemma TempIs(at: nat, next: nat, hi: nat)
    requires at < hi
    ensures TempOf(LogicTemp(at, next), at, hi)
  {
  }

  // ----- lowered code is tidy -----

  lemma {:induction false} ExprTidy(e: S.Expr, at: nat, next: nat)
    requires S.UserExpr(e)
    ensures Tidy(LowerExpr(e, at, next).code, at)
    decreases e, 0
  {
    hide Tidy, LogicTemp, LowerLogic, LowerArgs;
    var q := LowerExpr(e, at, next);
    match e
    case Literal(v) => LeafTidy(Const(next, v), at);
    case Name(x) => LeafTidy(Load(next, x), at);
    case Unary(_, a) => ExprTidy(a, at, next); TidyAppend(LowerExpr(a, at, next).code, q.code[|q.code| - 1], at);
    case Try(a) => ExprTidy(a, at, next); TidyAppend(LowerExpr(a, at, next).code, q.code[|q.code| - 1], at);
    case Cast(a, _) => ExprTidy(a, at, next); TidyAppend(LowerExpr(a, at, next).code, q.code[|q.code| - 1], at);
    case Assign(_, a) => ExprTidy(a, at, next); TidyAppend(LowerExpr(a, at, next).code, q.code[|q.code| - 1], at);
    case Binary(a, op, b) =>
      ExprTidy(a, at, next);
      var l := LowerExpr(a, at, next);
      if op.And? || op.Or? {
        LogicTidy(l, op, b, at);
      } else {
        var r := LowerExpr(b, at + |l.code|, l.next);
        ExprTidy(b, at + |l.code|, l.next);
        TidyJoin(l.code, r.code, at);
        TidyAppend(l.code + r.code, Instr.Binary(r.next, op, l.reg, r.reg), at);
      }
    case Call(_, args) =>
      ArgsTidy(args, at, next + 1);
      TidyAppend(LowerArgs(args, at, next + 1).code, q.code[|q.code| - 1], at);
  }

  lemma LeafTidy(i: Instr, at: nat)
    requires forall x :: Touches(i, x) ==> S.IsUserName(x)
    ensures Tidy([i], at)
  {
  }

  lemma {:induction false} LogicTidy(l: Lowered, op: BinOp, b: S.Expr, at: nat)
    requires (op.And? || op.Or?) && S.UserExpr(b) && Tidy(l.code, at)
    ensures Tidy(LowerLogic(l, op, b, at).code, at)
    decreases b, 2
  {
    hide Tidy, LogicTemp, LowerExpr;
    var mid := at + |l.code|;
    var temp := LogicTemp(mid, l.next);
    if op.And? {
      var r := LowerExpr(b, mid + 2, l.next);
      ExprTidy(b, mid + 2, l.next);
      var head := [Store(temp, l.reg), JumpIfFalse(l.reg, mid + 2 + |r.code| + 1)];
      TidyTail(head, r.code, r.reg, r.next, mid, l.next);
    } else {
      var r := LowerExpr(b, mid + 3, l.next);
      ExprTidy(b, mid + 3, l.next);
      var head := [Store(temp, l.reg), JumpIfFalse(l.reg, mid + 3), Jump(mid + 3 + |r.code| + 1)];
      TidyTail(head, r.code, r.reg, r.next, mid, l.next);
    }
    var t := if op.And? then AndTail(temp, l.reg, b, mid, l.next) else OrTail(temp, l.reg, b, mid, l.next);
    TidyJoin(l.code, t.code + [Load(t.next, temp)], at);
  }

  lemma {:induction false} ArgsTidy(es: seq<S.Expr>, at: nat, next: nat)
    requires forall e <- es :: S.UserExpr(e)
    ensures Tidy(LowerArgs(es, at, next).code, at)
    decreases es, 0
  {
    hide LowerExpr;
    if es != [] {
      hide Tidy;
      var a := LowerExpr(es[0], at, next);
      ExprTidy(es[0], at, next);
      ArgsTidy(es[1..], at + |a.code|, a.next);
      TidyJoin(a.code, LowerArgs(es[1..], at + |a.code|, a.next).code, at);
    }
  }

  lemma {:induction false} StmtTidy(s: S.Stmt, at: nat, next: nat)
    requires S.UserStmt(s)
    ensures Tidy(LowerStmt(s, at, next).code, at)
    decreases s, 1
  {
    hide Tidy, LowerExpr, LowerAll, LowerBranches;
    match s
    case Let(x, e) => ExprTidy(e, at, next); TidyAppend(LowerExpr(e, at, next).code, Store(x, LowerExpr(e, at, next).reg), at);
    case ExprStmt(e) => ExprTidy(e, at, next);
    case Block(ss) => AllTidy(ss, at, next);
    case If(c, t) => TestTidy(s, c, t, [], at, next);
    case IfElse(c, t, f) =>
      var l := LowerExpr(c, at, next);
      ExprTidy(c, at, next);
      BranchesTidy(s, l.reg, at + |l.code|, l.next);
      TidyJoin(l.code, LowerBranches(s, l.reg, at + |l.code|, l.next).code, at);
    case While(c, b) => TestTidy(s, c, b, [Jump(at)], at, next);
    case ReturnNothing => LeafTidy(Instr.Return(None), at);
    case Return(e) => ExprTidy(e, at, next); TidyAppend(LowerExpr(e, at, next).code, Instr.Return(Some(LowerExpr(e, at, next).reg)), at);
    case Throw(e) => ExprTidy(e, at, next); TidyAppend(LowerExpr(e, at, next).code, Instr.Throw(LowerExpr(e, at, next).reg), at);
  }

  /** A condition, its test, and a branch or loop body. */
  lemma {:induction false} TestTidy(s: S.Stmt, c: S.Expr, b: S.Stmt, back: seq<Instr>, at: nat, next: nat)
    requires S.UserStmt(s)
    requires (s == S.If(c, b) && back == []) || (s == S.While(c, b) && back == [Jump(at)])
    ensures Tidy(LowerStmt(s, at, next).code, at)
    decreases s, 0
  {
    hide Tidy, LowerExpr;
    var l := LowerExpr(c, at, next);
    var a := LowerStmt(b, at + |l.code| + 1, l.next);
    var test := JumpIfFalse(l.reg, at + |l.code| + 1 + |a.code| + |back|);
    ExprTidy(c, at, next);
    StmtTidy(b, at + |l.code| + 1, l.next);
    LeafTidy(test, at + |l.code|);
    TidyJoin([test], a.code, at + |l.code|);
    if back != [] { TidyAppend([test] + a.code, back[0], at + |l.code|); }
    assert [test] + a.code + back == if back == [] then [test] + a.code else [test] + a.code + [back[0]];
    TidyJoin(l.code, [test] + a.code + back, at);
  }

  lemma {:induction false} BranchesTidy(s: S.Stmt, reg: Reg, at: nat, next: nat)
    requires S.UserStmt(s) && s.IfElse?
    ensures Tidy(LowerBranches(s, reg, at, next).code, at)
    decreases s, 0
  {
    hide Tidy;
    var a := LowerStmt(s.thenBranch, at + 1, next);
    var mid := at + 1 + |a.code| + 1;
    var b := LowerStmt(s.elseBranch, mid, a.next);
    StmtTidy(s.thenBranch, at + 1, next);
    StmtTidy(s.elseBranch, mid, a.next);
    LeafTidy(JumpIfFalse(reg, mid), at);
    LeafTidy(Jump(mid + |b.code|), mid - 1);
    TidyJoin([JumpIfFalse(reg, mid)], a.code, at);
    TidyJoin([Jump(mid + |b.code|)], b.code, mid - 1);
    TidyJoin([JumpIfFalse(reg, mid)] + a.code, [Jump(mid + |b.code|)] + b.code, at);
  }

  lemma {:induction false} AllTidy(ss: seq<S.Stmt>, at: nat, next: nat)
    requires forall s <- ss :: S.UserStmt(s)
    ensures Tidy(LowerAll(ss, at, next).code, at)
    decreases ss, 1
  {
    hide LowerStmt;
    if ss != [] {
      hide Tidy;
      var a := LowerStmt(ss[0], at, next);
      StmtTidy(ss[0], at, next);
      AllTidy(ss[1..], at + |a.code|, a.next);
      TidyJoin(a.code, LowerAll(ss[1..], at + |a.code|, a.next).code, at);
    }
  }

  /** A variable the code touches is either a user's or a temporary made in this code, and not both. */
  ghost predicate TempsAreOwn(code: seq<Instr>) {
    && (forall k, x :: 0 <= k < |code| && Touches(code[k], x) ==> (S.IsUserName(x) <==> !TempOf(x, 0, |code|)))
    && OneReader(code)
  }

  lemma TidyIsOwn(code: seq<Instr>)
    requires Tidy(code, 0)
    ensures TempsAreOwn(code)
  {
    forall k, x | 0 <= k < |code| && Touches(code[k], x) && TempOf(x, 0, |code|) ensures !S.IsUserName(x) {
      var q: nat, r: nat :| 0 <= q < |code| && x == LogicTemp(q, r);
      TempIsNoUserName(q, r);
    }
  }

  /** In every lowered function, temporaries and user names are apart, and no two instructions read the same temporary. */
  lemma LoweredTempsAreOwn(f: S.Function)
    requires S.UserFunction(f)
    ensures TempsAreOwn(LowerFunction(f).code)
  {
    if !f.isExtern {
      SealedIsOwn(f.body);
    }
  }

  lemma SealedIsOwn(body: seq<S.Stmt>)
    requires forall s <- body :: S.UserStmt(s)
    ensures TempsAreOwn(Sealed(LowerAll(body, 0, 0).code)) && TempsAreOwn(LowerAll(body, 0, 0).code + [Instr.Return(None)])
  {
    hide LowerAll, TempsAreOwn;
    var code := LowerAll(body, 0, 0).code;
    AllTidy(body, 0, 0);
    TidyAppend(code, Instr.Return(None), 0);
    TidyIsOwn(code);
    TidyIsOwn(code + [Instr.Return(None)]);
  }

  /** The same in the entry. */
  lemma LoweredEntryTempsAreOwn(p: S.Program)
    requires S.UserProgram(p)
    ensures TempsAreOwn(LowerProgram(p).entry.code)
  {
    SealedIsOwn(S.Entry(p));
  }
}
