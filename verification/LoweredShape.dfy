/**
 The shape of lowered code: every register has one defining instruction, every use is well placed after
 it, and every jump is patched to a target inside the function or just past its end.
 */
module LoweredShape {
  import opened Basics
  import opened Values
  import opened Nir
  import opened Lowering
  import opened LiveRanges
  import S = Source

  /** An expression's code only jumps forward, and its register can be used right after it. */
  ghost predicate ExprShape(l: Lowered, at: nat, next: nat) {
    Shape(l.code, at, next, l.next) && Forward(l.code, at) && WellPlaced(l.code, at, |l.code|, l.reg)
  }

  lemma ForwardJoin(a: seq<Instr>, b: seq<Instr>, at: nat)
    requires Forward(a, at) && Forward(b, at + |a|)
    ensures Forward(a + b, at)
  {
    var c := a + b;
    forall k | 0 <= k < |c| && c[k].IsJump() ensures at + k < c[k].target {
      if k < |a| { assert c[k] == a[k]; } else { assert c[k] == b[k - |a|]; }
    }
  }

  /** A single instruction that reads nothing. */
  lemma LeafShape(i: Instr, at: nat, next: nat)
    requires i.Args() == [] && !i.IsJump() && (i.HasDest() ==> i.dest == next)
    ensures Shape([i], at, next, next + 1) && Forward([i], at)
    ensures i.HasDest() ==> WellPlaced([i], at, 1, next)
  {
    if i.HasDest() { assert DefAt([i], 0, next) && Enclosed([i], at, 0, 1); }
  }

  lemma {:induction false} ExprHasShape(e: S.Expr, at: nat, next: nat)
    ensures ExprShape(LowerExpr(e, at, next), at, next)
    decreases e, 1
  {
    hide Shape, Forward, WellPlaced;
    match e
    case Literal(v) => LeafShape(Const(next, v), at, next);
    case Name(x) => LeafShape(Load(next, x), at, next);
    case Unary(op, a) =>
      var q := LowerExpr(a, at, next);
      ExprHasShape(a, at, next);
      OwnShape(q, Instr.Unary(q.next, op, q.reg), at, next);
    case Try(a) =>
      var q := LowerExpr(a, at, next);
      ExprHasShape(a, at, next);
      OwnShape(q, Instr.Try(q.next, q.reg), at, next);
    case Cast(a, t) =>
      var q := LowerExpr(a, at, next);
      ExprHasShape(a, at, next);
      OwnShape(q, Instr.Cast(q.next, t, q.reg), at, next);
    case Assign(x, a) =>
      var q := LowerExpr(a, at, next);
      ExprHasShape(a, at, next);
      OwnShape(q, Store(x, q.reg), at, next);
    case Binary(a, op, b) =>
      ExprHasShape(a, at, next);
      var l := LowerExpr(a, at, next);
      if op.And? || op.Or? {
        LogicShape(l, op, b, at, next);
      } else {
        var r := LowerExpr(b, at + |l.code|, l.next);
        ExprHasShape(b, at + |l.code|, l.next);
        BinaryShape(l, r, op, at, next);
      }
    case Call(f, args) =>
      var l := LowerArgs(args, at, next + 1);
      ArgsHaveShape(args, at, next + 1);
      CallShape(l, Call(next, S.CalleeText(f), l.regs), at, next);
  }

  /** One operand and the instruction that reads it; that instruction may define the next register. */
  lemma OwnShape(q: Lowered, i: Instr, at: nat, next: nat)
    requires ExprShape(q, at, next) && next <= q.reg < q.next && i.Args() == [q.reg] && !i.IsJump()
    requires i.HasDest() ==> i.dest == q.next
    ensures ExprShape(Lowered(q.code + [i], if i.HasDest() then q.next else q.reg, if i.HasDest() then q.next + 1 else q.next), at, next)
  {
    Append(q.code, i, at, next, if i.HasDest() then q.next + 1 else q.next);
    ForwardJoin(q.code, [i], at);
  }

  lemma BinaryShape(l: Lowered, r: Lowered, op: BinOp, at: nat, next: nat)
    requires ExprShape(l, at, next) && ExprShape(r, at + |l.code|, l.next)
    requires next <= l.reg < l.next && l.next <= r.reg < r.next
    ensures ExprShape(Lowered(l.code + r.code + [Binary(r.next, op, l.reg, r.reg)], r.next, r.next + 1), at, next)
  {
    var i := Instr.Binary(r.next, op, l.reg, r.reg);
    Join(l.code, r.code, at, next, l.next, r.next);
    ForwardJoin(l.code, r.code, at);
    OperandsAfter(l.code, r.code, at, l.reg, r.reg);
    Append(l.code + r.code, i, at, next, r.next + 1);
    ForwardJoin(l.code + r.code, [i], at);
  }

  /** After two expression fragments both their registers can still be used. */
  lemma OperandsAfter(a: seq<Instr>, b: seq<Instr>, at: nat, x: Reg, y: Reg)
    requires WellPlaced(a, at, |a|, x) && WellPlaced(b, at + |a|, |b|, y)
    requires TargetsIn(a, at, at + |a|) && Forward(b, at + |a|)
    ensures WellPlaced(a + b, at, |a + b|, x) && WellPlaced(a + b, at, |a + b|, y)
  {
    assert a + b + [] == a + b;
    Embed(a, b, [], at, |b|, y);
    StillPlaced(a, b, at, x);
  }

  /** A register usable after a fragment is usable after more code that only jumps forward. */
  lemma StillPlaced(a: seq<Instr>, b: seq<Instr>, at: nat, x: Reg)
    requires WellPlaced(a, at, |a|, x) && TargetsIn(a, at, at + |a|) && Forward(b, at + |a|)
    ensures WellPlaced(a + b, at, |a + b|, x)
  {
    PlacedThrough(a, b, at, |a + b|, x);
  }

  lemma PlacedThrough(a: seq<Instr>, b: seq<Instr>, at: nat, u: nat, x: Reg)
    requires WellPlaced(a, at, |a|, x) && TargetsIn(a, at, at + |a|) && Forward(b, at + |a|)
    requires |a| <= u <= |a + b|
    ensures WellPlaced(a + b, at, u, x)
  {
    var d: nat :| d < |a| && DefAt(a, d, x) && Enclosed(a, at, d, |a|);
    var c := a + b;
    assert c[d] == a[d];
    forall j | 0 <= j < |c| && c[j].IsJump() && at + d < c[j].target <= at + u
      ensures d < j && at + j < c[j].target
    {
      if j < |a| { assert c[j] == a[j]; } else { assert c[j] == b[j - |a|]; }
    }
    assert DefAt(c, d, x) && Enclosed(c, at, d, u);
  }

  // ----- short-circuit operators -----

  /** The two or three instructions between the operands. */
  ghost function LogicHead(l: Lowered, temp: string, op: BinOp, start: nat, len: nat): (h: seq<Instr>)
    ensures |h| == if op.And? then 2 else 3
  {
    if op.And? then [Store(temp, l.reg), JumpIfFalse(l.reg, start + 2 + len + 1)]
    else [Store(temp, l.reg), JumpIfFalse(l.reg, start + 3), Jump(start + 3 + len + 1)]
  }

  lemma LogicParts(l: Lowered, op: BinOp, b: S.Expr, at: nat) returns (temp: string, head: seq<Instr>, r: Lowered)
    requires op.And? || op.Or?
    ensures r == LowerExpr(b, at + |l.code| + |head|, l.next)
    ensures head == LogicHead(l, temp, op, at + |l.code|, |r.code|)
    ensures LowerLogic(l, op, b, at) ==
      Lowered(l.code + head + r.code + [Store(temp, r.reg), Load(r.next, temp)], r.next, r.next + 1)
  {
    hide LowerExpr;
    var start := at + |l.code|;
    temp := LogicTemp(start, l.next);
    r := LowerExpr(b, start + if op.And? then 2 else 3, l.next);
    head := LogicHead(l, temp, op, start, |r.code|);
    var t := if op.And? then AndTail(temp, l.reg, b, start, l.next) else OrTail(temp, l.reg, b, start, l.next);
    assert t.code == head + r.code + [Store(temp, r.reg)];
    assert l.code + (t.code + [Load(t.next, temp)]) ==
      l.code + head + r.code + [Store(temp, r.reg), Load(r.next, temp)];
  }

  lemma {:induction false} LogicShape(l: Lowered, op: BinOp, b: S.Expr, at: nat, next: nat)
    requires ExprShape(l, at, next) && next <= l.reg < l.next && (op.And? || op.Or?)
    ensures ExprShape(LowerLogic(l, op, b, at), at, next)
    decreases b, 2
  {
    hide LowerExpr, LowerLogic, Shape, WellPlaced, Forward;
    var temp, head, r := LogicParts(l, op, b, at);
    ExprHasShape(b, at + |l.code| + |head|, l.next);
    var tail := [Store(temp, r.reg), Load(r.next, temp)];
    LogicDefs(l.code, head, r.code, tail, next, l.next, r.next, at, at + |l.code + head|);
    LogicUses(l, head, r, tail, temp, op, at, next);
  }

  lemma LogicDefs(l: seq<Instr>, head: seq<Instr>, r: seq<Instr>, tail: seq<Instr>, lo: nat, mid: nat, hi: nat, at: nat, rat: nat)
    requires Shape(l, at, lo, mid) && Shape(r, rat, mid, hi) && lo <= mid <= hi
    requires forall k :: 0 <= k < |head| ==> !head[k].HasDest()
    requires |tail| == 2 && !tail[0].HasDest() && tail[1].HasDest() && tail[1].dest == hi
    ensures DestsIn(l + head + r + tail, lo, hi + 1) && SingleDef(l + head + r + tail)
  {
    JoinDefs(l, head, lo, mid, mid);
    JoinDefs(l + head, r, lo, mid, hi);
    JoinDefs(l + head + r, tail, lo, hi, hi + 1);
  }

  lemma LogicUses(l: Lowered, head: seq<Instr>, r: Lowered, tail: seq<Instr>, temp: string, op: BinOp, at: nat, next: nat)
    requires ExprShape(l, at, next) && ExprShape(r, at + |l.code| + |head|, l.next) && (op.And? || op.Or?)
    requires head == LogicHead(l, temp, op, at + |l.code|, |r.code|)
    requires tail == [Store(temp, r.reg), Load(r.next, temp)]
    requires DestsIn(l.code + head + r.code + tail, next, r.next + 1) && SingleDef(l.code + head + r.code + tail)
    ensures ExprShape(Lowered(l.code + head + r.code + tail, r.next, r.next + 1), at, next)
  {
    var code, rest := l.code + head + r.code + tail, head + r.code + tail;
    LogicJumps(l, head, r, tail, temp, op, at, next);
    assert code == l.code + rest;
    ForwardSuffix(l.code, rest, at);
    forall u, x | 0 <= u < |code| && x in code[u].Args() ensures WellPlaced(code, at, u, x) {
      if u < |l.code| {
        assert code[u] == l.code[u];
        ForwardMisses(rest, at + |l.code|, at, at + u);
        EmbedFirst(l.code, rest, at, u, x);
      } else if u < |l.code| + |head| {
        assert code[u] == head[u - |l.code|] && x == l.reg;
        PlacedThrough(l.code, rest, at, u, x);
      } else {
        RightUse(l, head, r, tail, temp, op, at, next, u - |l.code| - |head|, x);
      }
    }
    var d := |code| - 1;
    assert code[d] == tail[1];
    assert DefAt(code, d, r.next) && Enclosed(code, at, d, |code|);
  }

  lemma ForwardMisses(b: seq<Instr>, at: nat, start: nat, end: nat)
    requires Forward(b, at) && end <= at
    ensures forall i <- b :: Misses(i, start, end)
  {
    forall i | i in b ensures Misses(i, start, end) {
      var k :| 0 <= k < |b| && b[k] == i;
    }
  }

  lemma ForwardSuffix(a: seq<Instr>, b: seq<Instr>, at: nat)
    requires Forward(a + b, at)
    ensures Forward(b, at + |a|)
  {
    forall k | 0 <= k < |b| && b[k].IsJump() ensures at + |a| + k < b[k].target {
      assert (a + b)[|a| + k] == b[k];
    }
  }

  /** A use in the right operand's code, or of its value right after. */
  lemma RightUse(l: Lowered, head: seq<Instr>, r: Lowered, tail: seq<Instr>, temp: string, op: BinOp, at: nat, next: nat,
                 v: nat, x: Reg)
    requires ExprShape(l, at, next) && ExprShape(r, at + |l.code| + |head|, l.next) && (op.And? || op.Or?)
    requires head == LogicHead(l, temp, op, at + |l.code|, |r.code|)
    requires tail == [Store(temp, r.reg), Load(r.next, temp)]
    requires v < |r.code| + 2 && x in (l.code + head + r.code + tail)[|l.code| + |head| + v].Args()
    ensures WellPlaced(l.code + head + r.code + tail, at, |l.code| + |head| + v, x)
  {
    var code := l.code + head + r.code + tail;
    if v < |r.code| {
      assert code[|l.code| + |head| + v] == r.code[v];
    } else {
      assert code[|l.code| + |head| + v] == tail[v - |r.code|];
    }
    assert |l.code + head| == |l.code| + |head|;
    assert v <= |r.code| && WellPlaced(r.code, at + |l.code + head|, v, x);
    LogicKeepsOut(l, head, r, tail, temp, op, at, next, v);
    Embed(l.code + head, r.code, tail, at, v, x);
  }

  /** Every jump of a short-circuit operator goes forward, to the final load at most. */
  lemma LogicJumps(l: Lowered, head: seq<Instr>, r: Lowered, tail: seq<Instr>, temp: string, op: BinOp, at: nat, next: nat)
    requires ExprShape(l, at, next) && ExprShape(r, at + |l.code| + |head|, l.next) && (op.And? || op.Or?)
    requires head == LogicHead(l, temp, op, at + |l.code|, |r.code|)
    requires tail == [Store(temp, r.reg), Load(r.next, temp)]
    ensures var code := l.code + head + r.code + tail;
            Forward(code, at) && TargetsIn(code, at, at + |code| - 1)
  {
    var code := l.code + head + r.code + tail;
    assert forall k :: |code| - 2 <= k < |code| ==> code[k] == tail[k - |code| + 2];
    forall k | 0 <= k < |code| && code[k].IsJump() ensures at + k < code[k].target && at <= code[k].target <= at + |code| - 1 {
      if k < |l.code| { assert code[k] == l.code[k]; }
      else if k < |l.code| + |head| { assert code[k] == head[k - |l.code|]; }
      else { assert code[k] == r.code[k - |l.code| - |head|]; }
    }
  }

  lemma LogicKeepsOut(l: Lowered, head: seq<Instr>, r: Lowered, tail: seq<Instr>, temp: string, op: BinOp, at: nat, next: nat, u: nat)
    requires ExprShape(l, at, next) && (op.And? || op.Or?) && u <= |r.code|
    requires head == LogicHead(l, temp, op, at + |l.code|, |r.code|)
    requires tail == [Store(temp, r.reg), Load(r.next, temp)]
    ensures KeepsOut(l.code + head, u, tail, at)
  {
    forall i | i in l.code + head ensures Misses(i, at + |l.code + head|, at + |l.code + head| + u) {
      if i in l.code { } else { assert i in head; }
    }
  }

  // ----- calls -----

  ghost predicate ArgsShape(l: LoweredArgs, at: nat, next: nat) {
    && Shape(l.code, at, next, l.next) && Forward(l.code, at)
    && forall r :: r in l.regs ==> WellPlaced(l.code, at, |l.code|, r)
  }

  lemma ArgShapeFirst(a: Lowered, l: LoweredArgs, at: nat, next: nat)
    requires ExprShape(a, at, next) && ArgsShape(l, at + |a.code|, a.next)
    ensures WellPlaced(a.code + l.code, at, |a.code + l.code|, a.reg)
  {
    StillPlaced(a.code, l.code, at, a.reg);
  }

  lemma ArgShapeRest(a: Lowered, l: LoweredArgs, at: nat, next: nat, r: Reg)
    requires ExprShape(a, at, next) && ArgsShape(l, at + |a.code|, a.next) && r in l.regs
    ensures WellPlaced(a.code + l.code, at, |a.code + l.code|, r)
  {
    assert a.code + l.code + [] == a.code + l.code;
    Embed(a.code, l.code, [], at, |l.code|, r);
  }

  lemma {:induction false} ArgsHaveShape(es: seq<S.Expr>, at: nat, next: nat)
    ensures ArgsShape(LowerArgs(es, at, next), at, next)
    decreases es, 1
  {
    hide LowerExpr, WellPlaced, Shape, Forward;
    if es != [] {
      var a := LowerExpr(es[0], at, next);
      var l := LowerArgs(es[1..], at + |a.code|, a.next);
      ExprHasShape(es[0], at, next);
      ArgsHaveShape(es[1..], at + |a.code|, a.next);
      Join(a.code, l.code, at, next, a.next, l.next);
      ForwardJoin(a.code, l.code, at);
      forall r | r in [a.reg] + l.regs ensures WellPlaced(a.code + l.code, at, |a.code + l.code|, r) {
        if r == a.reg {
          ArgShapeFirst(a, l, at, next);
        } else {
          ArgShapeRest(a, l, at, next, r);
        }
      }
    } else {
      EmptyShape(at, next);
    }
  }

  lemma CallShape(l: LoweredArgs, i: Instr, at: nat, next: nat)
    requires ArgsShape(l, at, next + 1) && i.Call? && i.dest == next && i.args == l.regs && next < l.next
    ensures ExprShape(Lowered(l.code + [i], next, l.next), at, next)
  {
    Append(l.code, i, at, next, l.next);
    ForwardJoin(l.code, [i], at);
  }

  // ----- statements -----

  lemma {:induction false} AllHaveShape(ss: seq<S.Stmt>, at: nat, next: nat)
    ensures var l := LowerAll(ss, at, next); Shape(l.code, at, next, l.next)
    decreases ss, 0
  {
    hide LowerStmt, Shape;
    if ss == [] {
      EmptyShape(at, next);
    } else {
      var a := LowerStmt(ss[0], at, next);
      var q := LowerAll(ss[1..], at + |a.code|, a.next);
      StmtHasShape(ss[0], at, next);
      AllHaveShape(ss[1..], at + |a.code|, a.next);
      Join(a.code, q.code, at, next, a.next, q.next);
    }
  }

  lemma EmptyShape(at: nat, next: nat)
    ensures Shape([], at, next, next) && Forward([], at)
  {
  }

  lemma {:induction false} StmtHasShape(s: S.Stmt, at: nat, next: nat)
    ensures var l := LowerStmt(s, at, next); Shape(l.code, at, next, l.next)
    decreases s, 1
  {
    hide LowerExpr, Shape, Forward, WellPlaced, LowerAll, LowerBranches;
    match s
    case Let(x, e) =>
      var q := LowerExpr(e, at, next);
      ExprHasShape(e, at, next);
      OwnShape(q, Store(x, q.reg), at, next);
    case ExprStmt(e) => ExprHasShape(e, at, next);
    case Return(e) =>
      var q := LowerExpr(e, at, next);
      ExprHasShape(e, at, next);
      OwnShape(q, Instr.Return(Some(q.reg)), at, next);
    case Throw(e) =>
      var q := LowerExpr(e, at, next);
      ExprHasShape(e, at, next);
      OwnShape(q, Instr.Throw(q.reg), at, next);
    case ReturnNothing => ReturnShape(at, next);
    case Block(ss) => AllHaveShape(ss, at, next);
    case If(c, t) =>
      var l := LowerExpr(c, at, next);
      var a := LowerStmt(t, at + |l.code| + 1, l.next);
      ExprHasShape(c, at, next);
      StmtHasShape(t, at + |l.code| + 1, l.next);
      IfShape(l, a, at, next);
    case IfElse(c, t, f) =>
      var l := LowerExpr(c, at, next);
      ExprHasShape(c, at, next);
      BranchesShape(s, l, at, next);
    case While(c, b) =>
      var l := LowerExpr(c, at, next);
      var a := LowerStmt(b, at + |l.code| + 1, l.next);
      ExprHasShape(c, at, next);
      StmtHasShape(b, at + |l.code| + 1, l.next);
      WhileShape(l, a, at, next);
  }

  lemma ReturnShape(at: nat, next: nat)
    ensures Shape([Instr.Return(None)], at, next, next)
  {
  }

  /** A condition, the jump that reads it, and code whose own jumps stay after that jump or return to the start. */
  lemma GuardedShape(l: Lowered, jump: Instr, body: seq<Instr>, after: seq<Instr>, at: nat, next: nat, hi: nat)
    requires ExprShape(l, at, next) && next <= l.next <= hi
    requires jump.JumpIfFalse? && jump.arg == l.reg && jump.target > at + |l.code| + |body|
    requires Shape(body, at + |l.code| + 1, l.next, hi)
    requires forall i <- after :: i.Args() == [] && !i.HasDest() && (i.IsJump() ==> i.target <= at || i.target > at + |l.code| + |body|)
    requires TargetsIn([jump] + after, at, at + |l.code| + 1 + |body| + |after|)
    ensures Shape(l.code + ([jump] + body + after), at, next, hi)
  {
    var rest := [jump] + body + after;
    var code, first := l.code + rest, l.code + [jump];
    assert code == first + body + after;
    JoinDefs(l.code, [jump], next, l.next, l.next);
    JoinDefs(first, body, next, l.next, hi);
    JoinDefs(first + body, after, next, hi, hi);
    GuardedTargets(l, jump, body, after, at, next, hi);
    assert forall k :: |first| + |body| <= k < |code| ==> code[k] == after[k - |first| - |body|] && code[k] in after;
    hide WellPlaced, ExprShape, TargetsIn;
    forall u, r | 0 <= u < |code| && r in code[u].Args() ensures WellPlaced(code, at, u, r) {
      if u < |first| + |body| {
        GuardedUses(l, jump, body, after, at, next, hi, u, r);
      } else {
        assert false;
      }
    }
  }

  /** A use in the condition, its test, or the body. */
  lemma GuardedUses(l: Lowered, jump: Instr, body: seq<Instr>, after: seq<Instr>, at: nat, next: nat, hi: nat, u: nat, r: Reg)
    requires ExprShape(l, at, next)
    requires jump.JumpIfFalse? && jump.arg == l.reg && jump.target > at + |l.code| + |body|
    requires Shape(body, at + |l.code| + 1, l.next, hi)
    requires forall i <- after :: i.IsJump() ==> i.target <= at || i.target > at + |l.code| + |body|
    requires var code := l.code + ([jump] + body + after); u < |l.code| + 1 + |body| && r in code[u].Args()
    ensures WellPlaced(l.code + ([jump] + body + after), at, u, r)
  {
    var rest, first := [jump] + body + after, l.code + [jump];
    var code := l.code + rest;
    if u <= |l.code| {
      if u < |l.code| { assert code[u] == l.code[u]; } else { assert code[u] == jump; }
      RestMisses(l, jump, body, after, at, hi, u);
      EmbedFirst(l.code, rest, at, u, r);
    } else {
      assert code == first + body + after && code[u] == body[u - |first|];
      BodyKeptOut(l, jump, body, after, at, next, hi, u - |first|);
      Embed(first, body, after, at, u - |first|, r);
    }
  }

  lemma GuardedTargets(l: Lowered, jump: Instr, body: seq<Instr>, after: seq<Instr>, at: nat, next: nat, hi: nat)
    requires ExprShape(l, at, next) && Shape(body, at + |l.code| + 1, l.next, hi)
    requires TargetsIn([jump] + after, at, at + |l.code| + 1 + |body| + |after|)
    ensures var code := l.code + ([jump] + body + after); TargetsIn(code, at, at + |code|)
  {
    var code, ja := l.code + ([jump] + body + after), [jump] + after;
    assert ja[0] == jump && forall k :: 0 <= k < |after| ==> ja[k + 1] == after[k];
    forall k | 0 <= k < |code| && code[k].IsJump() ensures at <= code[k].target <= at + |code| {
      if k < |l.code| { assert code[k] == l.code[k]; }
      else if k == |l.code| { assert code[k] == ja[0]; }
      else if k < |l.code| + 1 + |body| { assert code[k] == body[k - |l.code| - 1]; }
      else { assert code[k] == ja[k - |l.code| - |body|]; }
    }
  }

  lemma RestMisses(l: Lowered, jump: Instr, body: seq<Instr>, after: seq<Instr>, at: nat, hi: nat, u: nat)
    requires u <= |l.code| && jump.JumpIfFalse? && jump.target > at + |l.code| + |body|
    requires Shape(body, at + |l.code| + 1, l.next, hi)
    requires forall i <- after :: i.IsJump() ==> i.target <= at || i.target > at + |l.code| + |body|
    ensures forall i <- [jump] + body + after :: Misses(i, at, at + u)
  {
    forall i | i in [jump] + body + after ensures Misses(i, at, at + u) {
      if i in body { var k :| 0 <= k < |body| && body[k] == i; } else { assert i == jump || i in after; }
    }
  }

  lemma BodyKeptOut(l: Lowered, jump: Instr, body: seq<Instr>, after: seq<Instr>, at: nat, next: nat, hi: nat, u: nat)
    requires ExprShape(l, at, next) && u < |body|
    requires jump.JumpIfFalse? && jump.target > at + |l.code| + |body|
    requires forall i <- after :: i.IsJump() ==> i.target <= at || i.target > at + |l.code| + |body|
    ensures KeepsOut(l.code + [jump], u, after, at)
  {
    forall i | i in l.code + [jump] ensures Misses(i, at + |l.code| + 1, at + |l.code| + 1 + u) {
      if i in l.code { var k :| 0 <= k < |l.code| && l.code[k] == i; } else { assert i == jump; }
    }
  }

  lemma IfShape(l: Lowered, a: LoweredStmt, at: nat, next: nat)
    requires ExprShape(l, at, next) && Shape(a.code, at + |l.code| + 1, l.next, a.next) && next <= l.next <= a.next
    ensures Shape(l.code + ([JumpIfFalse(l.reg, at + |l.code| + 1 + |a.code|)] + a.code), at, next, a.next)
  {
    var jump := JumpIfFalse(l.reg, at + |l.code| + 1 + |a.code|);
    GuardedShape(l, jump, a.code, [], at, next, a.next);
    assert [jump] + a.code + [] == [jump] + a.code;
  }

  lemma WhileShape(l: Lowered, a: LoweredStmt, at: nat, next: nat)
    requires ExprShape(l, at, next) && Shape(a.code, at + |l.code| + 1, l.next, a.next) && next <= l.next <= a.next
    ensures Shape(l.code + ([JumpIfFalse(l.reg, at + |l.code| + 1 + |a.code| + 1)] + a.code + [Jump(at)]), at, next, a.next)
  {
    GuardedShape(l, JumpIfFalse(l.reg, at + |l.code| + 1 + |a.code| + 1), a.code, [Jump(at)], at, next, a.next);
  }

  lemma {:induction false} BranchesShape(s: S.Stmt, l: Lowered, at: nat, next: nat)
    requires s.IfElse? && ExprShape(l, at, next) && next <= l.next
    ensures var q := LowerBranches(s, l.reg, at + |l.code|, l.next); Shape(l.code + q.code, at, next, q.next)
    decreases s, 0
  {
    hide LowerStmt, Shape, ExprShape;
    var a := LowerStmt(s.thenBranch, at + |l.code| + 1, l.next);
    var mid := at + |l.code| + 1 + |a.code| + 1;
    var b := LowerStmt(s.elseBranch, mid, a.next);
    StmtHasShape(s.thenBranch, at + |l.code| + 1, l.next);
    StmtHasShape(s.elseBranch, mid, a.next);
    BothShapes(l, a, b, at, next);
    assert l.code + ([JumpIfFalse(l.reg, mid)] + a.code + ([Jump(mid + |b.code|)] + b.code))
        == BothCode(l, a, b, at);
  }

  ghost function BothCode(l: Lowered, a: LoweredStmt, b: LoweredStmt, at: nat): seq<Instr> {
    var mid := at + |l.code| + 1 + |a.code| + 1;
    l.code + [JumpIfFalse(l.reg, mid)] + a.code + [Jump(mid + |b.code|)] + b.code
  }

  ghost predicate BothReady(l: Lowered, a: LoweredStmt, b: LoweredStmt, at: nat, next: nat) {
    && ExprShape(l, at, next) && next <= l.next <= a.next <= b.next
    && Shape(a.code, at + |l.code| + 1, l.next, a.next)
    && Shape(b.code, at + |l.code| + 1 + |a.code| + 1, a.next, b.next)
  }

  /** The guard jumps over the first branch and the jump after it, which in turn skips the second. */
  lemma BothShapes(l: Lowered, a: LoweredStmt, b: LoweredStmt, at: nat, next: nat)
    requires BothReady(l, a, b, at, next)
    ensures Shape(BothCode(l, a, b, at), at, next, b.next)
  {
    hide WellPlaced;
    var code := BothCode(l, a, b, at);
    BothDefs(l, a, b, at, next);
    BothTargets(l, a, b, at, next);
    forall u, r | 0 <= u < |code| && r in code[u].Args() ensures WellPlaced(code, at, u, r) {
      if u <= |l.code| {
        GuardUse(l, a, b, at, next, u, r);
      } else if u < |l.code| + 1 + |a.code| {
        ThenUse(l, a, b, at, next, u - |l.code| - 1, r);
      } else {
        assert u != |l.code| + 1 + |a.code|;
        ElseUse(l, a, b, at, next, u - |l.code| - |a.code| - 2, r);
      }
    }
  }

  lemma BothDefs(l: Lowered, a: LoweredStmt, b: LoweredStmt, at: nat, next: nat)
    requires BothReady(l, a, b, at, next)
    ensures var code := BothCode(l, a, b, at); DestsIn(code, next, b.next) && SingleDef(code)
  {
    var mid := at + |l.code| + 1 + |a.code| + 1;
    var guard, skip := JumpIfFalse(l.reg, mid), Jump(mid + |b.code|);
    var first := l.code + [guard];
    JoinDefs(l.code, [guard], next, l.next, l.next);
    JoinDefs(first, a.code, next, l.next, a.next);
    JoinDefs(first + a.code, [skip], next, a.next, a.next);
    JoinDefs(first + a.code + [skip], b.code, next, a.next, b.next);
  }

  lemma BothTargets(l: Lowered, a: LoweredStmt, b: LoweredStmt, at: nat, next: nat)
    requires BothReady(l, a, b, at, next)
    ensures var code := BothCode(l, a, b, at); TargetsIn(code, at, at + |code|)
  {
    var code, first := BothCode(l, a, b, at), |l.code| + 1;
    forall k | 0 <= k < |code| && code[k].IsJump() ensures at <= code[k].target <= at + |code| {
      if k < |l.code| { assert code[k] == l.code[k]; }
      else if first <= k < first + |a.code| { assert code[k] == a.code[k - first]; }
      else if k > first + |a.code| { assert code[k] == b.code[k - first - |a.code| - 1]; }
    }
  }

  lemma GuardUse(l: Lowered, a: LoweredStmt, b: LoweredStmt, at: nat, next: nat, u: nat, r: Reg)
    requires BothReady(l, a, b, at, next) && u <= |l.code| && r in BothCode(l, a, b, at)[u].Args()
    ensures WellPlaced(BothCode(l, a, b, at), at, u, r)
  {
    var mid := at + |l.code| + 1 + |a.code| + 1;
    var guard, skip := JumpIfFalse(l.reg, mid), Jump(mid + |b.code|);
    var code, rest := BothCode(l, a, b, at), [guard] + a.code + [skip] + b.code;
    assert code == l.code + rest;
    if u < |l.code| { assert code[u] == l.code[u]; }
    PartsMiss(rest, [guard], a.code, skip, b.code, at, u);
    EmbedFirst(l.code, rest, at, u, r);
  }

  lemma ThenUse(l: Lowered, a: LoweredStmt, b: LoweredStmt, at: nat, next: nat, v: nat, r: Reg)
    requires BothReady(l, a, b, at, next) && v < |a.code| && r in BothCode(l, a, b, at)[|l.code| + 1 + v].Args()
    ensures WellPlaced(BothCode(l, a, b, at), at, |l.code| + 1 + v, r)
  {
    var mid := at + |l.code| + 1 + |a.code| + 1;
    var guard, skip := JumpIfFalse(l.reg, mid), Jump(mid + |b.code|);
    var code, first := BothCode(l, a, b, at), l.code + [guard];
    assert code == first + a.code + ([skip] + b.code);
    assert code[|first| + v] == a.code[v];
    PartsMiss([skip] + b.code, [], [], skip, b.code, at + |first|, v);
    PartsMiss(first, l.code, [], guard, [], at + |first|, v);
    Embed(first, a.code, [skip] + b.code, at, v, r);
  }

  lemma ElseUse(l: Lowered, a: LoweredStmt, b: LoweredStmt, at: nat, next: nat, v: nat, r: Reg)
    requires BothReady(l, a, b, at, next) && v < |b.code|
    requires r in BothCode(l, a, b, at)[|l.code| + 1 + |a.code| + 1 + v].Args()
    ensures WellPlaced(BothCode(l, a, b, at), at, |l.code| + 1 + |a.code| + 1 + v, r)
  {
    var mid := at + |l.code| + 1 + |a.code| + 1;
    var guard, skip := JumpIfFalse(l.reg, mid), Jump(mid + |b.code|);
    var code := BothCode(l, a, b, at);
    var second := l.code + [guard] + a.code + [skip];
    assert code == second + b.code + [];
    assert code[|second| + v] == b.code[v];
    PartsMiss(second, l.code, a.code, skip, [guard], mid, v);
    Embed(second, b.code, [], at, v, r);
  }

  /** Parts whose jumps land at `start` at most or beyond every use up to `u` keep out of it. */
  lemma PartsMiss(whole: seq<Instr>, a: seq<Instr>, b: seq<Instr>, i: Instr, c: seq<Instr>, start: nat, u: nat)
    requires forall x <- whole :: x in a || x in b || x == i || x in c
    requires TargetsOutside(a, start, u) && TargetsOutside(b, start, u) && TargetsOutside([i], start, u) && TargetsOutside(c, start, u)
    ensures forall x <- whole :: Misses(x, start, start + u)
  {
    assert [i][0] == i;
    forall x | x in whole ensures Misses(x, start, start + u) {
      if x in a { var k :| 0 <= k < |a| && a[k] == x; }
      else if x in b { var k :| 0 <= k < |b| && b[k] == x; }
      else if x in c { var k :| 0 <= k < |c| && c[k] == x; }
    }
  }

  ghost predicate TargetsOutside(a: seq<Instr>, start: nat, u: nat) {
    forall k :: 0 <= k < |a| && a[k].IsJump() ==> a[k].target <= start || a[k].target > start + u
  }

  // ----- whole functions -----

  /** Adding the final return changes nothing about the shape. */
  lemma SealedShape(code: seq<Instr>, hi: nat)
    requires Shape(code, 0, 0, hi)
    ensures Structured(Sealed(code)) && DestsIn(Sealed(code), 0, hi)
    ensures Structured(code + [Instr.Return(None)]) && DestsIn(code + [Instr.Return(None)], 0, hi)
  {
    Append(code, Instr.Return(None), 0, 0, hi);
  }

  /**
   Every lowered function is well formed: each register has one defining instruction and is below the
   function's register count, every operand is defined on the only way to its use, and every jump target
   is an index of the code or its end.
   */
  lemma LoweredIsWellFormed(f: S.Function)
    ensures var fn := LowerFunction(f); Structured(fn.code) && DestsIn(fn.code, 0, fn.nextReg)
  {
    if !f.isExtern {
      AllHaveShape(f.body, 0, 0);
      SealedShape(LowerAll(f.body, 0, 0).code, LowerAll(f.body, 0, 0).next);
    }
  }

  lemma LoweredEntryIsWellFormed(p: S.Program)
    ensures var fn := LowerProgram(p).entry; Structured(fn.code) && DestsIn(fn.code, 0, fn.nextReg)
  {
    AllHaveShape(S.Entry(p), 0, 0);
    SealedShape(LowerAll(S.Entry(p), 0, 0).code, LowerAll(S.Entry(p), 0, 0).next);
  }
}
