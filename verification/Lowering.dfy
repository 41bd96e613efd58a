/**
 Lowering of statements to NIR: short-circuit operators through a named temporary, structured control
 flow through jumps that are patched once their target is known.

 The functions give the code each construct is lowered to when it starts at index `at` with `next`
 as the first unused register; class `Lowerer` emits and back-patches it.
 */
module Lowering {
  import opened Basics
  import opened Values
  import opened Nir
  import opened Decimal
  import S = Source

  datatype Lowered = Lowered(code: seq<Instr>, reg: Reg, next: nat)

  datatype LoweredArgs = LoweredArgs(code: seq<Instr>, regs: seq<Reg>, next: nat)

  datatype LoweredStmt = LoweredStmt(code: seq<Instr>, next: nat)

  /** The name of a short-circuit temporary: from the emission point and the register counter. */
  function LogicTemp(at: nat, next: nat): string {
    "$noqeri.logic." + (Text(at) + "." + Text(next))
  }

  function LowerExpr(e: S.Expr, at: nat, next: nat): (l: Lowered)
    ensures next <= l.reg < l.next
    decreases e, 0
  {
    match e
    case Literal(v) => Lowered([Const(next, v)], next, next + 1)
    case Name(x) => Lowered([Load(next, x)], next, next + 1)
    case Unary(op, a) =>
      var l := LowerExpr(a, at, next);
      Lowered(l.code + [Unary(l.next, op, l.reg)], l.next, l.next + 1)
    case Try(a) =>
      var l := LowerExpr(a, at, next);
      Lowered(l.code + [Instr.Try(l.next, l.reg)], l.next, l.next + 1)
    case Binary(a, op, b) =>
      var l := LowerExpr(a, at, next);
      if op.And? || op.Or? then LowerLogic(l, op, b, at)
      else
        var r := LowerExpr(b, at + |l.code|, l.next);
        Lowered(l.code + r.code + [Binary(r.next, op, l.reg, r.reg)], r.next, r.next + 1)
    case Assign(x, a) =>
      var l := LowerExpr(a, at, next);
      Lowered(l.code + [Store(x, l.reg)], l.reg, l.next)
    case Cast(a, t) =>
      var l := LowerExpr(a, at, next);
      Lowered(l.code + [Cast(l.next, t, l.reg)], l.next, l.next + 1)
    case Call(f, args) =>
      var l := LowerArgs(args, at, next + 1);
      Lowered(l.code + [Call(next, S.CalleeText(f), l.regs)], next, l.next)
  }

  /** `&&` and `||` with the left operand already lowered, at the indices from `at` on. */
  function LowerLogic(l: Lowered, op: BinOp, b: S.Expr, at: nat): (r: Lowered)
    requires op.And? || op.Or?
    ensures r.reg + 1 == r.next && l.next < r.next
    decreases b, 2
  {
    var temp := LogicTemp(at + |l.code|, l.next);
    var t := if op.And? then AndTail(temp, l.reg, b, at + |l.code|, l.next) else OrTail(temp, l.reg, b, at + |l.code|, l.next);
    Lowered(l.code + (t.code + [Load(t.next, temp)]), t.next, t.next + 1)
  }

  /** Keeps the left value in the temporary, and replaces it by the right one unless the left is false. */
  function AndTail(temp: string, left: Reg, b: S.Expr, at: nat, next: nat): (t: LoweredStmt)
    ensures next < t.next
    decreases b, 1
  {
    var r := LowerExpr(b, at + 2, next);
    LoweredStmt([Store(temp, left), JumpIfFalse(left, at + 2 + |r.code| + 1)] + r.code + [Store(temp, r.reg)], r.next)
  }

  /** Keeps the left value in the temporary, and replaces it by the right one if the left is false. */
  function OrTail(temp: string, left: Reg, b: S.Expr, at: nat, next: nat): (t: LoweredStmt)
    ensures next < t.next
    decreases b, 1
  {
    var r := LowerExpr(b, at + 3, next);
    LoweredStmt([Store(temp, left), JumpIfFalse(left, at + 3), Jump(at + 3 + |r.code| + 1)]
                + r.code + [Store(temp, r.reg)], r.next)
  }

  function LowerArgs(es: seq<S.Expr>, at: nat, next: nat): (l: LoweredArgs)
    ensures next <= l.next && |l.regs| == |es|
    ensures forall r <- l.regs :: next <= r < l.next
    decreases es, 0
  {
    if es == [] then LoweredArgs([], [], next)
    else
      var a := LowerExpr(es[0], at, next);
      var l := LowerArgs(es[1..], at + |a.code|, a.next);
      LoweredArgs(a.code + l.code, [a.reg] + l.regs, l.next)
  }

  function LowerStmt(s: S.Stmt, at: nat, next: nat): (l: LoweredStmt)
    ensures next <= l.next
    decreases s, 1
  {
    match s
    case Let(x, e) =>
      var l := LowerExpr(e, at, next);
      LoweredStmt(l.code + [Store(x, l.reg)], l.next)
    case ExprStmt(e) =>
      var l := LowerExpr(e, at, next);
      LoweredStmt(l.code, l.next)
    case Block(ss) => LowerAll(ss, at, next)
    case If(c, t) =>
      var l := LowerExpr(c, at, next);
      var a := LowerStmt(t, at + |l.code| + 1, l.next);
      LoweredStmt(l.code + ([JumpIfFalse(l.reg, at + |l.code| + 1 + |a.code|)] + a.code), a.next)
    case IfElse(c, t, f) =>
      var l := LowerExpr(c, at, next);
      var q := LowerBranches(s, l.reg, at + |l.code|, l.next);
      LoweredStmt(l.code + q.code, q.next)
    case While(c, b) =>
      var l := LowerExpr(c, at, next);
      var body := LowerStmt(b, at + |l.code| + 1, l.next);
      LoweredStmt(l.code + ([JumpIfFalse(l.reg, at + |l.code| + 1 + |body.code| + 1)] + body.code + [Jump(at)]), body.next)
    case ReturnNothing => LoweredStmt([Instr.Return(None)], next)
    case Return(e) =>
      var l := LowerExpr(e, at, next);
      LoweredStmt(l.code + [Instr.Return(Some(l.reg))], l.next)
    case Throw(e) =>
      var l := LowerExpr(e, at, next);
      LoweredStmt(l.code + [Instr.Throw(l.reg)], l.next)
  }

  /** Both branches of an if, with the jumps around them; `reg` holds the condition. */
  function LowerBranches(s: S.Stmt, reg: Reg, at: nat, next: nat): (l: LoweredStmt)
    requires s.IfElse?
    ensures next <= l.next
    decreases s, 0
  {
    var a := LowerStmt(s.thenBranch, at + 1, next);
    var mid := at + 1 + |a.code| + 1;
    var b := LowerStmt(s.elseBranch, mid, a.next);
    LoweredStmt([JumpIfFalse(reg, mid)] + a.code + ([Jump(mid + |b.code|)] + b.code), b.next)
  }

  function LowerAll(ss: seq<S.Stmt>, at: nat, next: nat): (l: LoweredStmt)
    ensures next <= l.next
    decreases ss, 1
  {
    if ss == [] then LoweredStmt([], next)
    else
      var a := LowerStmt(ss[0], at, next);
      var l := LowerAll(ss[1..], at + |a.code|, a.next);
      LoweredStmt(a.code + l.code, l.next)
  }

  /** A trailing return is added unless the code already ends in one. */
  function Sealed(code: seq<Instr>): seq<Instr> {
    if code == [] || !code[|code| - 1].Return? then code + [Instr.Return(None)] else code
  }

  function LowerFunction(f: S.Function): Function {
    if f.isExtern then Function(f.name, f.params, [], 0, true)
    else
      var l := LowerAll(f.body, 0, 0);
      Function(f.name, f.params, Sealed(l.code), l.next, false)
  }

  function LowerProgram(p: S.Program): Program {
    var l := LowerAll(S.Entry(p), 0, 0);
    Program(Function("__entry", [], l.code + [Instr.Return(None)], l.next, false), LowerFunctions(S.Functions(p)))
  }

  function LowerFunctions(fs: seq<S.Function>): (gs: seq<Function>)
    ensures |gs| == |fs|
    ensures forall i :: 0 <= i < |fs| ==> gs[i] == LowerFunction(fs[i])
  {
    if fs == [] then [] else [LowerFunction(fs[0])] + LowerFunctions(fs[1..])
  }

  lemma PatchSuffix(before: seq<Instr>, jump: Instr, after: seq<Instr>, target: nat)
    requires jump.IsJump()
    ensures var patched := jump.(target := target);
            (before + [jump] + after)[|before| := patched] == before + ([patched] + after)
  {
  }

  // ----- the lowerer -----

  /** The function under construction: its code so far and its register counter. */
  class Lowerer {
    var code: seq<Instr>
    var nextReg: nat

    constructor ()
      ensures code == [] && nextReg == 0
    {
      code, nextReg := [], 0;
    }

    method Fresh() returns (r: Reg)
      modifies this
      ensures r == old(nextReg) && nextReg == r + 1 && code == old(code)
    {
      r := nextReg;
      nextReg := nextReg + 1;
    }

    method Emit(i: Instr)
      modifies this
      ensures code == old(code) + [i]
      ensures nextReg == if i.HasDest() && i.dest >= old(nextReg) then i.dest + 1 else old(nextReg)
    {
      if i.HasDest() && i.dest + 1 > nextReg { nextReg := i.dest + 1; }
      code := code + [i];
    }

    /** Sets the target of a jump emitted earlier. */
    method Patch(at: nat, target: nat)
      requires at < |code| && code[at].IsJump()
      modifies this
      ensures code == old(code)[at := old(code)[at].(target := target)] && nextReg == old(nextReg)
    {
      code := code[at := code[at].(target := target)];
    }

    method Expr(e: S.Expr) returns (r: Reg)
      modifies this
      ensures var l := LowerExpr(e, |old(code)|, old(nextReg));
              code == old(code) + l.code && r == l.reg && nextReg == l.next
      decreases e, 0, 1
    {
      hide LowerLogic, LowerArgs, LogicTemp, S.CalleeText;
      match e
      case Literal(v) =>
        r := Fresh();
        Emit(Const(r, v));
      case Name(x) =>
        r := Fresh();
        Emit(Load(r, x));
      case Unary(op, a) =>
        var arg := Expr(a);
        r := Fresh();
        Emit(Unary(r, op, arg));
      case Try(a) =>
        var arg := Expr(a);
        r := Fresh();
        Emit(Instr.Try(r, arg));
      case Binary(a, op, b) => r := BinaryExpr(e, a, op, b);
      case Assign(x, a) =>
        r := Expr(a);
        Emit(Store(x, r));
      case Cast(a, t) =>
        var arg := Expr(a);
        r := Fresh();
        Emit(Cast(r, t, arg));
      case Call(f, args) => r := CallExpr(e, f, args);
    }

    method BinaryExpr(e: S.Expr, a: S.Expr, op: BinOp, b: S.Expr) returns (r: Reg)
      requires e == S.Binary(a, op, b)
      modifies this
      ensures var l := LowerExpr(e, |old(code)|, old(nextReg));
              code == old(code) + l.code && r == l.reg && nextReg == l.next
      decreases e, 0, 0
    {
      hide LowerLogic, LogicTemp;
      var left := Expr(a);
      if op.And? || op.Or? {
        r := Logic(op, left, b, |old(code)|, LowerExpr(a, |old(code)|, old(nextReg)));
      } else {
        var right := Expr(b);
        r := Fresh();
        Emit(Binary(r, op, left, right));
      }
    }

    /** A call's destination is numbered before its arguments. */
    method CallExpr(e: S.Expr, f: string, args: seq<S.Expr>) returns (r: Reg)
      requires e == S.Call(f, args)
      modifies this
      ensures var l := LowerExpr(e, |old(code)|, old(nextReg));
              code == old(code) + l.code && r == l.reg && nextReg == l.next
      decreases e, 0, 0
    {
      hide LowerArgs, S.CalleeText;
      r := Fresh();
      var regs := Args(args);
      Emit(Call(r, S.CalleeText(f), regs));
    }

    /** The short-circuit operators; `left` holds the left operand, whose lowering is `l`. */
    method Logic(op: BinOp, left: Reg, b: S.Expr, ghost at: nat, ghost l: Lowered) returns (r: Reg)
      requires op.And? || op.Or?
      requires at <= |code| && code[at..] == l.code && left == l.reg && nextReg == l.next
      modifies this
      ensures var q := LowerLogic(l, op, b, at);
              code == old(code)[..at] + q.code && r == q.reg && nextReg == q.next
      decreases b, 2
    {
      assert code == code[..at] + l.code;
      var temp := LogicTemp(|code|, nextReg);
      if op.And? { EmitAnd(temp, left, b); } else { EmitOr(temp, left, b); }
      r := Fresh();
      Emit(Load(r, temp));
    }

    method EmitAnd(temp: string, left: Reg, b: S.Expr)
      modifies this
      ensures var t := AndTail(temp, left, b, |old(code)|, old(nextReg));
              code == old(code) + t.code && nextReg == t.next
      decreases b, 1
    {
      Emit(Store(temp, left));
      var testPos := |code|;
      Emit(JumpIfFalse(left, 0));
      var right := Expr(b);
      Emit(Store(temp, right));
      Patch(testPos, |code|);
    }

    method EmitOr(temp: string, left: Reg, b: S.Expr)
      modifies this
      ensures var t := OrTail(temp, left, b, |old(code)|, old(nextReg));
              code == old(code) + t.code && nextReg == t.next
      decreases b, 1
    {
      Emit(Store(temp, left));
      var testPos := |code|;
      Emit(JumpIfFalse(left, 0));
      var skipPos := |code|;
      Emit(Jump(0));
      Patch(testPos, |code|);
      assert code == old(code) + [Store(temp, left), JumpIfFalse(left, |code|), Jump(0)];
      var right := Expr(b);
      Emit(Store(temp, right));
      Patch(skipPos, |code|);
    }

    method Args(es: seq<S.Expr>) returns (regs: seq<Reg>)
      modifies this
      ensures var l := LowerArgs(es, |old(code)|, old(nextReg));
              code == old(code) + l.code && regs == l.regs && nextReg == l.next
      decreases es, 0
    {
      if es == [] { return []; }
      var r := Expr(es[0]);
      var rest := Args(es[1..]);
      return [r] + rest;
    }

    method Statement(s: S.Stmt)
      modifies this
      ensures var l := LowerStmt(s, |old(code)|, old(nextReg)); code == old(code) + l.code && nextReg == l.next
      decreases s, 1
    {
      hide LowerExpr, LowerAll, LowerBranches;
      match s
      case Let(x, e) =>
        var r := Expr(e);
        Emit(Store(x, r));
      case ExprStmt(e) =>
        var r := Expr(e);
      case Block(ss) =>
        Statements(ss);
      case If(c, t) => IfStatement(s, c, t);
      case IfElse(c, t, f) =>
        var r := Expr(c);
        Branches(s, r);
      case While(c, b) => WhileStatement(s, c, b);
      case ReturnNothing =>
        Emit(Instr.Return(None));
      case Return(e) =>
        var r := Expr(e);
        Emit(Instr.Return(Some(r)));
      case Throw(e) =>
        var r := Expr(e);
        Emit(Instr.Throw(r));
    }

    method IfStatement(s: S.Stmt, c: S.Expr, t: S.Stmt)
      requires s == S.If(c, t)
      modifies this
      ensures var l := LowerStmt(s, |old(code)|, old(nextReg)); code == old(code) + l.code && nextReg == l.next
      decreases s, 0
    {
      hide LowerExpr;
      var r := Expr(c);
      var jump := |code|;
      Emit(JumpIfFalse(r, 0));
      Statement(t);
      Patch(jump, |code|);
    }

    method Branches(s: S.Stmt, r: Reg)
      requires s.IfElse?
      modifies this
      ensures var l := LowerBranches(s, r, |old(code)|, old(nextReg)); code == old(code) + l.code && nextReg == l.next
      decreases s, 0
    {
      ghost var before := code;
      var jump := |code|;
      Emit(JumpIfFalse(r, 0));
      Statement(s.thenBranch);
      ghost var a := LowerStmt(s.thenBranch, |before| + 1, old(nextReg));
      var end := |code|;
      Emit(Jump(0));
      Patch(jump, |code|);
      ghost var first := before + ([JumpIfFalse(r, |code|)] + a.code);
      assert code == first + [Jump(0)];
      ElseSide(s, end, first);
    }

    /** Emits the else branch and patches the jump at `end`, which skips it. */
    method ElseSide(s: S.Stmt, end: nat, ghost first: seq<Instr>)
      requires s.IfElse? && code == first + [Jump(0)] && end == |first|
      modifies this
      ensures var b := LowerStmt(s.elseBranch, |first| + 1, old(nextReg));
              code == first + ([Jump(|first| + 1 + |b.code|)] + b.code) && nextReg == b.next
      decreases s.elseBranch, 2
    {
      Statement(s.elseBranch);
      ghost var b := LowerStmt(s.elseBranch, |first| + 1, old(nextReg));
      PatchSuffix(first, Jump(0), b.code, |code|);
      Patch(end, |code|);
    }

    method WhileStatement(s: S.Stmt, c: S.Expr, b: S.Stmt)
      requires s == S.While(c, b)
      modifies this
      ensures var l := LowerStmt(s, |old(code)|, old(nextReg)); code == old(code) + l.code && nextReg == l.next
      decreases s, 0
    {
      hide LowerExpr;
      var start := |code|;
      var r := Expr(c);
      var jump := |code|;
      Emit(JumpIfFalse(r, 0));
      Statement(b);
      Emit(Jump(start));
      Patch(jump, |code|);
    }

    method Statements(ss: seq<S.Stmt>)
      modifies this
      ensures var l := LowerAll(ss, |old(code)|, old(nextReg)); code == old(code) + l.code && nextReg == l.next
      decreases ss
    {
      if ss != [] {
        Statement(ss[0]);
        Statements(ss[1..]);
      }
    }
  }
}
