/**
 The optimizer's two passes over a function's code, and the pipeline that repeats them.

 Constant folding scans the code in order, remembers which registers hold constants, and rewrites
 instructions in place.  Dead-code removal drops no-ops and unused definitions; it does not renumber the
 jumps of what is left.
 */
module Optimizer {
  import opened Basics
  import opened Int64
  import opened Values
  import opened Nir

  /** Folds an operator on two constants, or declines to.  Integer arithmetic always wraps. */
  function Fold(f: Floats, op: BinOp, a: Value, b: Value): Option<Value> {
    if a.Int? && b.Int? && op.Add? then Some(Int(AddInt(false, a.i, b.i).value))
    else if a.Int? && b.Int? && op.Sub? then Some(Int(SubInt(false, a.i, b.i).value))
    else if a.Int? && b.Int? && op.Mul? then Some(Int(MulInt(false, a.i, b.i).value))
    else if a.Int? && b.Int? && op.Div? && b.i != 0 then Some(Int(DivInt(false, a.i, b.i).value))
    else if a.Int? && b.Int? && op.Mod? && b.i != 0 then Some(Int(ModInt(a.i, b.i).value))
    else if a.Int? && b.Int? && IsComparison(op) then Some(Bool(CompareInts(op, a.i, b.i)))
    else if a.Dbl? && b.Dbl? && op in {Add, Sub, Mul} then Some(Dbl(f.arith(op, a.d, b.d)))
    else if a.Dbl? && b.Dbl? && op.Div? && !f.isZero(b.d) then Some(Dbl(f.arith(op, a.d, b.d)))
    else if a.Dbl? && b.Dbl? && IsComparison(op) then Some(Bool(f.compare(op, a.d, b.d)))
    else if a.Str? && b.Str? && op.Add? then Some(Str(a.s + b.s))
    else if a.Str? && b.Str? && op.Eq? then Some(Bool(a.s == b.s))
    else if a.Str? && b.Str? && op.Ne? then Some(Bool(a.s != b.s))
    else if op.And? then Some(Bool(Truthy(f, a) && Truthy(f, b)))
    else if op.Or? then Some(Bool(Truthy(f, a) || Truthy(f, b)))
    else None
  }

  /** Where folding gives a value, the interpreter computes the same one when it wraps. */
  lemma FoldIsWrappingBinary(f: Floats, op: BinOp, a: Value, b: Value)
    requires Fold(f, op, a, b).Some?
    ensures BinaryOp(f, false, op, a, b) == Ok(Fold(f, op, a, b).value)
  {
  }

  type Known = map<Reg, Value>

  predicate SafeCheck(i: Instr, known: Known) {
    match i
    case CheckNonNull(a) => a in known && known[a].Int? && known[a].i != 0
    case CheckBounds(a, n) =>
      a in known && n in known && known[a].Int? && known[n].Int? && 0 <= known[a].i < known[n].i
    case _ => false
  }

  /** One instruction, given what is known before it. */
  function Rewrite(f: Floats, i: Instr, known: Known): Instr {
    if i.Binary? && i.left in known && i.right in known && Fold(f, i.bop, known[i.left], known[i.right]).Some?
    then Const(i.dest, Fold(f, i.bop, known[i.left], known[i.right]).value)
    else if SafeCheck(i, known) then Nop
    else i
  }

  function Learn(i: Instr, known: Known): Known {
    if i.Const? then known[i.dest := i.literal]
    else if i.HasDest() then known - {i.dest}
    else known
  }

  /** The rewritten first `k` instructions, and what is known after them. */
  function Scan(f: Floats, code: seq<Instr>, k: nat): (r: (seq<Instr>, Known))
    requires k <= |code|
    ensures |r.0| == k
  {
    if k == 0 then ([], map[])
    else
      var (done, known) := Scan(f, code, k - 1);
      var i := Rewrite(f, code[k - 1], known);
      (done + [i], Learn(i, known))
  }

  function Folded(f: Floats, code: seq<Instr>): (r: seq<Instr>)
    ensures |r| == |code|
  {
    Scan(f, code, |code|).0
  }

  method FoldConstants(f: Floats, code: array<Instr>) returns (changed: bool)
    modifies code
    ensures code[..] == Folded(f, old(code[..]))
    ensures changed <==> code[..] != old(code[..])
  {
    ghost var was := code[..];
    var known: Known := map[];
    changed := false;
    var k := 0;
    while k < code.Length
      invariant k <= code.Length == |was|
      invariant (code[..k], known) == Scan(f, was, k)
      invariant forall j :: k <= j < code.Length ==> code[j] == was[j]
      invariant changed <==> code[..] != was
    {
      var i := code[k];
      var next := Rewrite(f, i, known);
      if next != i { changed := true; }
      code[k] := next;
      known := Learn(next, known);
      assert code[..k + 1] == code[..k] + [next];
      assert changed <==> code[..] != was by {
        if next == i { assert code[..] == was || changed; } else { assert code[..][k] != was[k]; }
      }
      k := k + 1;
    }
    assert code[..k] == code[..];
  }

  /** Instructions dead-code removal keeps even when their result is not used. */
  predicate SideEffect(i: Instr) {
    match i
    case CheckNonNull(_) => true
    case CheckBounds(_, _) => true
    case Store(_, _) => true
    case Call(_, _, _) => true
    case Try(_, _) => true
    case Throw(_) => true
    case Jump(_) => true
    case JumpIfFalse(_, _) => true
    case Return(_) => true
    case _ => false
  }

  /** The registers some instruction reads. */
  function Used(code: seq<Instr>): (s: set<Reg>)
    ensures forall r :: r in s <==> exists k :: 0 <= k < |code| && r in code[k].Args()
  {
    set k, r | 0 <= k < |code| && r in code[k].Args() :: r
  }

  predicate Dead(i: Instr, used: set<Reg>) {
    i.Nop? || (i.HasDest() && i.dest !in used && !SideEffect(i))
  }

  function Filter(code: seq<Instr>, used: set<Reg>): (r: seq<Instr>)
    ensures |r| <= |code|
    ensures |r| == |code| ==> r == code
  {
    if code == [] then []
    else
      var last := code[|code| - 1];
      Filter(code[..|code| - 1], used) + if Dead(last, used) then [] else [last]
  }

  /** Dead-code removal as the optimizer does it: jump targets stay as they were. */
  function Dce(code: seq<Instr>): seq<Instr> {
    Filter(code, Used(code))
  }

  method RemoveDead(code: seq<Instr>) returns (kept: seq<Instr>, changed: bool)
    ensures kept == Dce(code)
    ensures changed <==> kept != code
  {
    hide Used, Filter, Dead;
    var used := Operands(code);
    kept, changed := [], false;
    for k := 0 to |code|
      invariant kept == Filter(code[..k], used)
      invariant changed <==> |kept| < k
    {
      FilterStep(code, k, used);
      if Dead(code[k], used) { changed := true; } else { kept := kept + [code[k]]; }
    }
    assert code[..|code|] == code;
  }

  lemma FilterStep(code: seq<Instr>, k: nat, used: set<Reg>)
    requires k < |code|
    ensures Filter(code[..k + 1], used) == Filter(code[..k], used) + if Dead(code[k], used) then [] else [code[k]]
  {
    hide Dead;
    assert code[..k + 1][..k] == code[..k];
  }

  /** All registers that some instruction reads. */
  method Operands(code: seq<Instr>) returns (used: set<Reg>)
    ensures used == Used(code)
  {
    used := {};
    for k := 0 to |code|
      invariant forall r :: r in used <==> exists j :: 0 <= j < k && r in code[j].Args()
    {
      var args := code[k].Args();
      for a := 0 to |args|
        invariant forall r :: r in used <==> (exists j :: 0 <= j < k && r in code[j].Args()) || r in args[..a]
      {
        used := used + {args[a]};
        assert args[..a + 1] == args[..a] + [args[a]];
      }
      assert args[..|args|] == args;
    }
    assert used == Used(code);
  }

  datatype Level = O0 | O1 | O2 | O3 | Os | Oz

  function Rounds(level: Level): nat {
    match level
    case O0 => 0
    case O3 => 3
    case O2 => 2
    case _ => 1
  }

  function Round(f: Floats, code: seq<Instr>): seq<Instr> {
    Dce(Folded(f, code))
  }

  function Repeated(f: Floats, code: seq<Instr>, n: nat): seq<Instr>
    decreases n
  {
    if n == 0 then code else Repeated(f, Round(f, code), n - 1)
  }

  /** All rounds of a level, and one more removal at Oz. */
  function Optimized(f: Floats, code: seq<Instr>, level: Level): seq<Instr> {
    var r := Repeated(f, code, Rounds(level));
    if level.Oz? then Dce(r) else r
  }

  lemma {:induction false} RepeatedOnce(f: Floats, code: seq<Instr>, n: nat)
    ensures Repeated(f, code, n + 1) == Round(f, Repeated(f, code, n))
    decreases n
  {
    hide Round;
    if n > 0 { RepeatedOnce(f, Round(f, code), n - 1); }
  }

  lemma RepeatedZero(f: Floats, code: seq<Instr>)
    ensures Repeated(f, code, 0) == code
  {
  }

  /** The pipeline stops early when a round changes nothing; the result is that of all rounds. */
  method Pipeline(f: Floats, code: seq<Instr>, level: Level) returns (out: seq<Instr>)
    ensures out == Optimized(f, code, level)
  {
    hide Folded, Dce, Repeated;
    out := code;
    RepeatedZero(f, code);
    if level.O0? { return; }
    var rounds := if level.O3? then 3 else if level.O2? then 2 else 1;
    var r := 0;
    while r < rounds
      invariant r <= rounds && out == Repeated(f, code, r)
    {
      var cells := new Instr[|out|](k requires 0 <= k < |out| => out[k]);
      assert cells[..] == out;
      var a := FoldConstants(f, cells);
      var kept, b := RemoveDead(cells[..]);
      RepeatedOnce(f, code, r);
      if !a && !b {
        StillRepeated(f, code, r, rounds);
        break;
      }
      out, r := kept, r + 1;
    }
    if level.Oz? {
      var last;
      out, last := RemoveDead(out);
    }
  }

  /** A round that changes nothing makes all later rounds change nothing. */
  lemma {:induction false} StillRepeated(f: Floats, code: seq<Instr>, n: nat, more: nat)
    requires n <= more && Round(f, Repeated(f, code, n)) == Repeated(f, code, n)
    ensures Repeated(f, code, more) == Repeated(f, code, n)
    decreases more - n
  {
    hide Round, Repeated;
    if n < more {
      RepeatedOnce(f, code, n);
      StillRepeated(f, code, n + 1, more);
    }
  }
}
