/**
 What the optimizer's passes do, beyond what they keep: which operators are folded, which checks are removed, which
 registers count as known, which instructions are dead, and how often each level repeats the passes.
 */
module OptimizerLaws {
  import opened Basics
  import opened Int64
  import opened Values
  import opened Nir
  import opened Interpreter
  import opened Optimizer
  import opened ConstantFolding

  // ----- folding -----

  /** An integer and a double. */
  predicate Mixed(a: Value, b: Value) {
    (a.Int? && b.Dbl?) || (a.Dbl? && b.Int?)
  }

  /** Folding declines where the wrapping interpreter fails, on mixed numbers, and on doubles divided by zero; nowhere else. */
  lemma FoldIff(f: Floats, op: BinOp, a: Value, b: Value)
    ensures Fold(f, op, a, b).Some? <==>
      && BinaryOp(f, false, op, a, b).Ok?
      && (Mixed(a, b) ==> op in {And, Or})
      && !(op.Div? && a.Dbl? && b.Dbl? && f.isZero(b.d))
  {
  }

  /** An operator on known constants becomes their folded value, wherever there is one. */
  lemma FoldsOperators(f: Floats, i: Instr, known: Known)
    requires i.Binary?
    ensures i.left in known && i.right in known && Fold(f, i.bop, known[i.left], known[i.right]).Some? ==>
      Rewrite(f, i, known).Const? && Rewrite(f, i, known).dest == i.dest
      && BinaryOp(f, false, i.bop, known[i.left], known[i.right]) == Ok(Rewrite(f, i, known).literal)
    ensures !(i.left in known && i.right in known && Fold(f, i.bop, known[i.left], known[i.right]).Some?) ==> Rewrite(f, i, known) == i
  {
    if i.left in known && i.right in known && Fold(f, i.bop, known[i.left], known[i.right]).Some? {
      FoldIsWrappingBinary(f, i.bop, known[i.left], known[i.right]);
    }
  }

  predicate KnownInt(r: Reg, known: Known) {
    r in known && known[r].Int?
  }

  /** A check goes exactly if its operands are known integers that pass it. */
  lemma RemovesPassedChecks(m: Machine, i: Instr, known: Known, pc: nat, vars: Vars)
    requires i.CheckNonNull? || i.CheckBounds?
    ensures Rewrite(m.float, i, known).Nop? <==>
      && (forall r <- i.Args() :: KnownInt(r, known))
      && Act(m, i, pc, seq(|i.Args()|, k requires 0 <= k < |i.Args()| => if i.Args()[k] in known then known[i.Args()[k]] else Null), vars).Goto?
    ensures !Rewrite(m.float, i, known).Nop? ==> Rewrite(m.float, i, known) == i
  {
    assert i.Args()[0] in i.Args();
    if i.CheckBounds? { assert i.Args()[1] in i.Args(); }
  }

  /** Any other instruction stays. */
  lemma KeepsOthers(f: Floats, i: Instr, known: Known)
    requires !i.Binary? && !i.CheckNonNull? && !i.CheckBounds?
    ensures Rewrite(f, i, known) == i
  {
  }

  /** Instruction `d` is a constant for `r`, and nothing after it defines `r`. */
  ghost predicate LastConstant(code: seq<Instr>, d: nat, r: Reg, v: Value) {
    && d < |code| && code[d] == Const(r, v)
    && forall j :: d < j < |code| && code[j].HasDest() ==> code[j].dest != r
  }

  /** A register is known exactly if its last definition in the folded code is a constant, and with that value. */
  lemma {:induction false} KnownIff(f: Floats, code: seq<Instr>, k: nat, r: Reg, v: Value)
    requires k <= |code|
    ensures var (done, known) := Scan(f, code, k);
            (r in known && known[r] == v) <==> exists d :: LastConstant(done, d, r, v)
    decreases k
  {
    if k > 0 {
      KnownIff(f, code, k - 1, r, v);
      var (before, known) := Scan(f, code, k - 1);
      var i := Rewrite(f, code[k - 1], known);
      hide Rewrite, Scan;
      LastStep(before, i, r, v);
    }
  }

  lemma LastStep(before: seq<Instr>, i: Instr, r: Reg, v: Value)
    ensures (exists d :: LastConstant(before + [i], d, r, v)) <==>
      if i.HasDest() && i.dest == r then i == Const(r, v) else exists d :: LastConstant(before, d, r, v)
  {
    var code, n := before + [i], |before|;
    assert code[n] == i;
    if i.HasDest() && i.dest == r {
      if i == Const(r, v) { assert LastConstant(code, n, r, v); }
    } else if d: nat :| LastConstant(code, d, r, v) {
      assert d < n;
      assert LastConstant(before, d, r, v) by { assert forall j :: 0 <= j < n ==> code[j] == before[j]; }
    } else if d: nat :| LastConstant(before, d, r, v) {
      assert LastConstant(code, d, r, v);
    }
  }

  // ----- dead code -----

  /** Whatever the operands, the instruction fails or goes on, and leaves the variables alone. */
  ghost predicate OnlyDefines(m: Machine, i: Instr) {
    forall vals, vars :: |vals| == |i.Args()| ==>
      var e := Act(m, i, 0, vals, vars); e.Fault? || (e.Goto? && e.pc == 1 && e.vars == vars)
  }

  /** The dead instructions are the no-ops, and those that only define a register nobody reads. */
  lemma DeadIff(m: Machine, i: Instr, used: set<Reg>)
    ensures Dead(i, used) <==> i.Nop? || (i.HasDest() && i.dest !in used && OnlyDefines(m, i))
  {
    if i.Try? {
      assert !OnlyDefines(m, i) by { assert Act(m, i, 0, [Int(-1)], map[]).Finish?; }
    } else if i.Call? {
      var vals := seq(|i.args|, _ => Null);
      assert !OnlyDefines(m, i) by { assert Act(m, i, 0, vals, map[]).Invoke?; }
    }
  }

  // ----- levels -----

  /** O1 and Os: one round; O2: two; O3: three; Oz: one round and one more removal; O0: nothing. */
  lemma LevelsAre(f: Floats, code: seq<Instr>)
    ensures Optimized(f, code, O0) == code
    ensures var one := Dce(Folded(f, code));
            var two := Dce(Folded(f, one));
            && Optimized(f, code, O1) == one && Optimized(f, code, Os) == one && Optimized(f, code, Oz) == Dce(one)
            && Optimized(f, code, O2) == two && Optimized(f, code, O3) == Dce(Folded(f, two))
  {
    hide Dce, Folded;
    var one := Round(f, code);
    var two := Round(f, one);
    assert Repeated(f, code, 1) == Repeated(f, one, 0);
    assert Repeated(f, code, 2) == Repeated(f, one, 1) == Repeated(f, two, 0);
    assert Repeated(f, code, 3) == Repeated(f, one, 2) == Repeated(f, two, 1) == Repeated(f, Round(f, two), 0);
  }
}
