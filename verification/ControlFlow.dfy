/**
 The control-flow graph of a function: leaders, the blocks between them, and each block's successors.
 The graph is exact: blocks partition the code, no jump enters the middle of one, and the listed
 successors are precisely where control can go from a block's last instruction.
 */
module ControlFlow {
  import opened Basics
  import opened Int64
  import opened Values
  import opened Nir
  import opened Interpreter

  datatype Block = Block(id: nat, begin: nat, end: nat, successors: seq<nat>)

  /** Instructions after which a block ends. */
  predicate EndsBlock(i: Instr) {
    i.Jump? || i.JumpIfFalse? || i.Return? || i.Throw?
  }

  predicate IsLeader(code: seq<Instr>, pc: nat) {
    pc < |code| && (pc == 0 || EndsBlock(code[pc - 1]) || exists j :: 0 <= j < |code| && code[j].IsJump() && code[j].target == pc)
  }

  /** Where control can go from an instruction, if it stays in the function. */
  function NextPcs(i: Instr, pc: nat): set<nat> {
    match i
    case Jump(t) => {t}
    case JumpIfFalse(_, t) => {t, pc + 1}
    case Return(_) => {}
    case Throw(_) => {}
    case _ => {pc + 1}
  }

  /** A block ends behind the instructions after which control does not simply go on. */
  lemma EndsBlockIff(i: Instr)
    ensures EndsBlock(i) <==> exists pc: nat :: NextPcs(i, pc) != {pc + 1}
  {
    match i
    case Jump(t) => assert t in NextPcs(i, t) && t + 1 !in NextPcs(i, t);
    case JumpIfFalse(_, t) => assert t in NextPcs(i, t) && t !in {t + 1};
    case Return(_) => assert 1 !in NextPcs(i, 0);
    case Throw(_) => assert 1 !in NextPcs(i, 0);
    case _ =>
  }

  // ----- the graph is exact -----

  /** The blocks are numbered, non-empty, follow each other and cover the code. */
  ghost predicate Partition(code: seq<Instr>, bs: seq<Block>) {
    && (code == [] <==> bs == [])
    && (bs != [] ==> bs[0].begin == 0 && bs[|bs| - 1].end == |code|)
    && (forall i :: 0 <= i < |bs| ==> bs[i].id == i && bs[i].begin < bs[i].end <= |code|)
    && (forall i :: 0 <= i < |bs| - 1 ==> bs[i].end == bs[i + 1].begin)
  }

  /** Control enters a block at its start only, and leaves it at its end only. */
  ghost predicate SingleEntry(code: seq<Instr>, bs: seq<Block>) {
    && (forall j :: 0 <= j < |code| && code[j].IsJump() && code[j].target < |code| ==> exists i :: 0 <= i < |bs| && bs[i].begin == code[j].target)
    && (forall i, pc :: 0 <= i < |bs| && bs[i].begin <= pc && pc + 1 < bs[i].end && pc < |code| ==> !EndsBlock(code[pc]))
  }

  ghost predicate SuccessorsOf(code: seq<Instr>, bs: seq<Block>, b: Block) {
    && 0 < b.end <= |code|
    && (forall s :: s in b.successors <==> 0 <= s < |bs| && bs[s].begin in NextPcs(code[b.end - 1], b.end - 1))
    && (forall x, y :: 0 <= x < y < |b.successors| ==> b.successors[x] != b.successors[y])
  }

  ghost predicate Exact(code: seq<Instr>, bs: seq<Block>) {
    Partition(code, bs) && SingleEntry(code, bs) && forall b <- bs :: SuccessorsOf(code, bs, b)
  }

  // ----- construction -----

  method Leaders(code: seq<Instr>) returns (leaders: set<nat>)
    requires code != []
    ensures forall pc: nat :: pc in leaders <==> IsLeader(code, pc)
  {
    leaders := {0};
    var i := 0;
    while i < |code|
      invariant i <= |code| && forall pc: nat :: pc in leaders <==> Marked(code, i, pc)
    {
      var was := leaders;
      if code[i].IsJump() && code[i].target < |code| { leaders := leaders + {code[i].target}; }
      if EndsBlock(code[i]) && i + 1 < |code| { leaders := leaders + {i + 1}; }
      MarkedNext(code, i, was, leaders);
      i := i + 1;
    }
  }

  /** Leaders found in the first `n` instructions. */
  ghost predicate Marked(code: seq<Instr>, n: nat, pc: nat) {
    && pc < |code|
    && (pc == 0 || (pc <= n && EndsBlock(code[pc - 1]))
        || exists j :: 0 <= j < n && j < |code| && code[j].IsJump() && code[j].target == pc)
  }

  lemma MarkedNext(code: seq<Instr>, i: nat, before: set<nat>, after: set<nat>)
    requires i < |code| && forall pc: nat :: pc in before <==> Marked(code, i, pc)
    requires after == before
      + (if code[i].IsJump() && code[i].target < |code| then {code[i].target} else {})
      + (if EndsBlock(code[i]) && i + 1 < |code| then {i + 1} else {})
    ensures forall pc: nat :: pc in after <==> Marked(code, i + 1, pc)
  {
    forall pc: nat ensures pc in after <==> Marked(code, i + 1, pc) {
      if Marked(code, i, pc) {
        if pc > 0 && !(pc <= i && EndsBlock(code[pc - 1])) {
          var j :| 0 <= j < i && j < |code| && code[j].IsJump() && code[j].target == pc;
        }
      }
    }
  }

  /** The leaders in ascending order, as iterating an ordered set yields them. */
  method Ascending(leaders: set<nat>, n: nat) returns (starts: seq<nat>)
    requires forall pc <- leaders :: pc < n
    ensures forall pc: nat :: pc in starts <==> pc in leaders
    ensures forall x, y :: 0 <= x < y < |starts| ==> starts[x] < starts[y]
  {
    starts := [];
    for pc := 0 to n
      invariant forall x :: x in starts <==> x in leaders && x < pc
      invariant forall x :: 0 <= x < |starts| ==> starts[x] < pc
      invariant forall x, y :: 0 <= x < y < |starts| ==> starts[x] < starts[y]
    {
      if pc in leaders { starts := starts + [pc]; }
    }
  }

  function BlockEnd(code: seq<Instr>, starts: seq<nat>, i: nat): nat
    requires i < |starts|
  {
    if i + 1 < |starts| then starts[i + 1] else |code|
  }

  /** The block that starts at `pc`, or else the one that contains it. */
  method BlockAt(bs: seq<Block>, pc: nat) returns (id: Option<nat>)
    requires forall i :: 0 <= i < |bs| ==> bs[i].id == i
    requires Ordered(bs)
    requires forall i :: 0 <= i < |bs| ==> bs[i].begin < bs[i].end
    ensures id.Some? <==> exists i :: 0 <= i < |bs| && bs[i].begin <= pc < bs[i].end
    ensures id.Some? ==> id.value < |bs| && bs[id.value].begin <= pc < bs[id.value].end
  {
    for i := 0 to |bs|
      invariant forall k :: 0 <= k < i ==> !(bs[k].begin <= pc < bs[k].end)
    {
      if bs[i].begin <= pc < bs[i].end { return Some(bs[i].id); }
    }
    return None;
  }

  function AddOnce(ids: seq<nat>, id: Option<nat>): seq<nat> {
    if id.Some? && id.value !in ids then ids + [id.value] else ids
  }

  /** The blocks between the leaders, without successors yet. */
  method BetweenLeaders(code: seq<Instr>) returns (bs: seq<Block>)
    requires code != []
    ensures Partition(code, bs) && SingleEntry(code, bs) && Ordered(bs)
  {
    hide Partition, SingleEntry, Ordered;
    var leaders := Leaders(code);
    var starts := Ascending(leaders, |code|);
    forall x | 0 <= x < |starts| ensures starts[x] < |code| { assert starts[x] in starts; }
    bs := [];
    for i := 0 to |starts|
      invariant |bs| == i
      invariant forall k :: 0 <= k < i ==> bs[k] == Block(k, starts[k], BlockEnd(code, starts, k), [])
    {
      bs := bs + [Block(i, starts[i], BlockEnd(code, starts, i), [])];
    }
    StartsPartition(code, starts, bs);
  }

  method Blocks(code: seq<Instr>) returns (bs: seq<Block>)
    ensures Exact(code, bs)
  {
    if code == [] { return []; }
    bs := BetweenLeaders(code);
    hide Partition, SingleEntry, Ordered, SuccessorsOf;
    var n := |bs|;
    for i := 0 to n
      invariant |bs| == n && Partition(code, bs) && SingleEntry(code, bs) && Ordered(bs)
      invariant forall k :: 0 <= k < i ==> SuccessorsOf(code, bs, bs[k])
    {
      var ids := Successors(code, bs, i);
      ghost var was := bs;
      bs := bs[i := bs[i].(successors := ids)];
      SuccessorsChange(code, was, bs, i);
    }
    forall b | b in bs ensures SuccessorsOf(code, bs, b) {
      var k :| 0 <= k < |bs| && bs[k] == b;
    }
  }

  ghost predicate Ordered(bs: seq<Block>) {
    forall i, j :: 0 <= i < j < |bs| ==> bs[i].end <= bs[j].begin
  }

  ghost predicate SameBounds(was: seq<Block>, bs: seq<Block>) {
    |was| == |bs| && forall k :: 0 <= k < |bs| ==> bs[k].begin == was[k].begin && bs[k].end == was[k].end && bs[k].id == was[k].id
  }

  lemma ShapeKept(code: seq<Instr>, was: seq<Block>, bs: seq<Block>)
    requires Partition(code, was) && SingleEntry(code, was) && Ordered(was) && SameBounds(was, bs)
    ensures Partition(code, bs) && SingleEntry(code, bs) && Ordered(bs)
  {
    forall j | 0 <= j < |code| && code[j].IsJump() && code[j].target < |code|
      ensures exists x :: 0 <= x < |bs| && bs[x].begin == code[j].target
    {
      var x :| 0 <= x < |was| && was[x].begin == code[j].target;
      assert bs[x].begin == code[j].target;
    }
  }

  lemma SuccessorsKept(code: seq<Instr>, was: seq<Block>, bs: seq<Block>, b: Block)
    requires SameBounds(was, bs) && SuccessorsOf(code, was, b)
    ensures SuccessorsOf(code, bs, b)
  {
  }

  /** Setting one block's successors leaves the graph's shape, and the other blocks' successors, right. */
  lemma SuccessorsChange(code: seq<Instr>, was: seq<Block>, bs: seq<Block>, i: nat)
    requires Partition(code, was) && SingleEntry(code, was) && Ordered(was) && i < |was| == |bs|
    requires SameBounds(was, bs) && forall k :: 0 <= k < |bs| && k != i ==> bs[k] == was[k]
    requires SuccessorsOf(code, was, bs[i]) && forall k :: 0 <= k < i ==> SuccessorsOf(code, was, was[k])
    ensures Partition(code, bs) && SingleEntry(code, bs) && Ordered(bs)
    ensures forall k :: 0 <= k <= i ==> SuccessorsOf(code, bs, bs[k])
  {
    hide Partition, SingleEntry, Ordered, SuccessorsOf;
    ShapeKept(code, was, bs);
    forall k | 0 <= k <= i ensures SuccessorsOf(code, bs, bs[k]) { SuccessorsKept(code, was, bs, bs[k]); }
  }

  ghost predicate AscendingLeaders(code: seq<Instr>, starts: seq<nat>) {
    && code != [] && (forall pc: nat :: pc in starts <==> IsLeader(code, pc))
    && (forall x, y :: 0 <= x < y < |starts| ==> starts[x] < starts[y])
    && (forall x :: 0 <= x < |starts| ==> starts[x] < |code|)
  }

  ghost predicate BlocksBetween(code: seq<Instr>, starts: seq<nat>, bs: seq<Block>) {
    |bs| == |starts| && forall k :: 0 <= k < |bs| ==> bs[k] == Block(k, starts[k], BlockEnd(code, starts, k), [])
  }

  lemma StartsPartition(code: seq<Instr>, starts: seq<nat>, bs: seq<Block>)
    requires AscendingLeaders(code, starts) && BlocksBetween(code, starts, bs)
    ensures Partition(code, bs) && SingleEntry(code, bs) && Ordered(bs)
  {
    assert IsLeader(code, 0);
    assert forall x :: 0 < x < |starts| ==> starts[0] < starts[x];
    var z :| 0 <= z < |starts| && starts[z] == 0;
    LeadersAreTargets(code, starts, bs);
  }

  lemma LeadersAreTargets(code: seq<Instr>, starts: seq<nat>, bs: seq<Block>)
    requires AscendingLeaders(code, starts) && BlocksBetween(code, starts, bs)
    ensures SingleEntry(code, bs)
  {
    forall j | 0 <= j < |code| && code[j].IsJump() && code[j].target < |code|
      ensures exists i :: 0 <= i < |bs| && bs[i].begin == code[j].target
    {
      assert IsLeader(code, code[j].target);
      var i :| 0 <= i < |starts| && starts[i] == code[j].target;
      assert bs[i].begin == code[j].target;
    }
    forall i, pc | 0 <= i < |bs| && bs[i].begin <= pc && pc + 1 < bs[i].end && pc < |code|
      ensures !EndsBlock(code[pc])
    {
      NoLeaderInside(code, starts, i, pc + 1);
    }
  }

  /** Between a block's start and its end there is no leader. */
  lemma NoLeaderInside(code: seq<Instr>, starts: seq<nat>, i: nat, pc: nat)
    requires AscendingLeaders(code, starts) && i < |starts| && starts[i] < pc < BlockEnd(code, starts, i)
    ensures !IsLeader(code, pc)
  {
    forall k | 0 <= k < |starts| ensures starts[k] != pc {}
  }

  method Successors(code: seq<Instr>, bs: seq<Block>, i: nat) returns (ids: seq<nat>)
    requires Partition(code, bs) && SingleEntry(code, bs) && Ordered(bs) && i < |bs|
    ensures SuccessorsOf(code, bs, bs[i].(successors := ids))
  {
    hide SingleEntry;
    FallsThrough(code, bs, i);
    var last := code[bs[i].end - 1];
    ids := [];
    var next := if i + 1 < |bs| then Some(i + 1) else None;
    if last.Jump? || last.JumpIfFalse? {
      var t := BlockAt(bs, last.target);
      TargetBlock(code, bs, bs[i].end - 1, t);
      hide Partition, SingleEntry, Ordered;
      ids := AddOnce(ids, t);
      if last.Jump? { return; }
      ids := AddOnce(ids, next);
    } else if last.Return? || last.Throw? {
      return;
    } else {
      ids := AddOnce(ids, next);
    }
  }

  /** The block after the `i`th is the one that starts where that ends. */
  lemma FallsThrough(code: seq<Instr>, bs: seq<Block>, i: nat)
    requires Partition(code, bs) && Ordered(bs) && i < |bs|
    ensures forall s :: 0 <= s < |bs| ==> (bs[s].begin == bs[i].end <==> s == i + 1)
    ensures 0 < bs[i].end <= |code|
  {
    forall s | 0 <= s < |bs| ensures bs[s].begin == bs[i].end <==> s == i + 1 {
      if i + 1 < |bs| { assert bs[i].end == bs[i + 1].begin; }
    }
  }

  /** The block found for a jump is the only one that starts at its target. */
  lemma TargetBlock(code: seq<Instr>, bs: seq<Block>, pc: nat, t: Option<nat>)
    requires Partition(code, bs) && SingleEntry(code, bs) && Ordered(bs) && pc < |code| && code[pc].IsJump()
    requires t.Some? ==> t.value < |bs| && bs[t.value].begin <= code[pc].target < bs[t.value].end
    requires t.None? ==> forall i :: 0 <= i < |bs| ==> !(bs[i].begin <= code[pc].target < bs[i].end)
    ensures forall s :: 0 <= s < |bs| ==> (bs[s].begin == code[pc].target <==> t == Some(s))
  {
    if t.Some? { StartOf(code, bs, pc, t.value); }
    forall s | 0 <= s < |bs| ensures bs[s].begin == code[pc].target <==> t == Some(s) {
      assert bs[s].begin < bs[s].end;
    }
  }

  /** A jump into a block goes to its start. */
  lemma StartOf(code: seq<Instr>, bs: seq<Block>, pc: nat, b: nat)
    requires Partition(code, bs) && SingleEntry(code, bs) && pc < |code| && code[pc].IsJump() && b < |bs|
    requires Ordered(bs)
    requires bs[b].begin <= code[pc].target < bs[b].end
    ensures bs[b].begin == code[pc].target
  {
    var i :| 0 <= i < |bs| && bs[i].begin == code[pc].target;
    assert i == b;
  }

  // ----- the graph and the interpreter -----

  /** An instruction that goes on, goes to one of its next indices. */
  lemma ActsWithinNext(m: Machine, i: Instr, pc: nat, vals: seq<Value>, vars: Vars)
    requires |vals| == |i.Args()|
    ensures var e := Act(m, i, pc, vals, vars);
            (e.Goto? ==> e.pc in NextPcs(i, pc)) && (e.Invoke? ==> NextPcs(i, pc) == {pc + 1})
  {
  }

  /** A step from inside a block goes to the next index of the block or to the start of a listed successor. */
  lemma StepFollowsGraph(code: seq<Instr>, bs: seq<Block>, b: nat, pc: nat, next: nat)
    requires Exact(code, bs) && b < |bs| && bs[b].begin <= pc < bs[b].end
    requires next in NextPcs(code[pc], pc) && next < |code|
    ensures (next == pc + 1 && next < bs[b].end) || exists s :: s in bs[b].successors && s < |bs| && bs[s].begin == next
  {
    assert bs[b] in bs;
    if pc + 1 == bs[b].end {
      StartsABlock(code, bs, b, next);
    }
  }

  lemma StartsABlock(code: seq<Instr>, bs: seq<Block>, b: nat, next: nat)
    requires Exact(code, bs) && b < |bs| && next < |code| && next in NextPcs(code[bs[b].end - 1], bs[b].end - 1)
    ensures exists s :: s in bs[b].successors && s < |bs| && bs[s].begin == next
  {
    assert bs[b] in bs && SuccessorsOf(code, bs, bs[b]);
    var last := code[bs[b].end - 1];
    if last.IsJump() && next == last.target {
      var s :| 0 <= s < |bs| && bs[s].begin == next;
      assert s in bs[b].successors;
    } else {
      assert next == bs[b].end && b + 1 < |bs|;
      assert b + 1 in bs[b].successors;
    }
  }

  /** A check of a register against itself never passes; every other instruction can go to each next index. */
  predicate CanPass(i: Instr) {
    i.CheckBounds? ==> i.index != i.length
  }

  /** Register contents that let an instruction go on, to its target if `take` says so. */
  ghost function Friendly(i: Instr, take: bool): Regs {
    map r | r in i.Args() :: if i.CheckBounds? && r == i.index then Int(0) else if take then Null else Int(1)
  }

  ghost function FriendlyVars(i: Instr): Vars {
    if i.Load? then map[i.name := Null] else map[]
  }

  /** From these registers and variables, the instruction goes to `next`, if need be through a call. */
  ghost predicate GoesTo(m: Machine, i: Instr, nextReg: nat, pc: nat, regs: Regs, vars: Vars, next: nat) {
    var vals := GetAll(m, nextReg, regs, i.Args());
    && vals.Ok?
    && var e := Act(m, i, pc, vals.value, vars);
       (e.Goto? && e.pc == next) || (e.Invoke? && next == pc + 1)
  }

  /** Each listed next index is a real step for some registers and variables, exactly if the instruction can pass at all. */
  lemma NextIsReachableIff(m: Machine, i: Instr, nextReg: nat, pc: nat, next: nat)
    requires next in NextPcs(i, pc) && forall r <- i.Args() :: r < nextReg
    ensures (exists regs, vars :: GoesTo(m, i, nextReg, pc, regs, vars, next)) <==> CanPass(i)
  {
    if CanPass(i) {
      FriendlyPasses(m, i, nextReg, pc, next);
    } else {
      forall regs, vars ensures !GoesTo(m, i, nextReg, pc, regs, vars, next) { NeverPasses(m, i, nextReg, pc, regs, vars); }
    }
  }

  lemma NeverPasses(m: Machine, i: Instr, nextReg: nat, pc: nat, regs: Regs, vars: Vars)
    requires !CanPass(i)
    ensures var vals := GetAll(m, nextReg, regs, i.Args()); vals.Ok? ==> Act(m, i, pc, vals.value, vars).Fault?
  {
    var vals := GetAll(m, nextReg, regs, i.Args());
    if vals.Ok? { assert vals.value[0] == vals.value[1]; }
  }

  lemma FriendlyPasses(m: Machine, i: Instr, nextReg: nat, pc: nat, next: nat)
    requires next in NextPcs(i, pc) && CanPass(i) && forall r <- i.Args() :: r < nextReg
    ensures GoesTo(m, i, nextReg, pc, Friendly(i, i.JumpIfFalse? && next == i.target), FriendlyVars(i), next)
  {
    var take := i.JumpIfFalse? && next == i.target;
    var regs, args := Friendly(i, take), i.Args();
    var vals := seq(|args|, k requires 0 <= k < |args| => regs[args[k]]);
    forall k | 0 <= k < |args| ensures args[k] < nextReg && args[k] in regs { assert args[k] in args; }
    ReadAll(m, nextReg, regs, args, vals);
    if i.Binary? { OnesWork(m, i.bop); }
  }

  lemma OnesWork(m: Machine, op: BinOp)
    ensures BinaryOp(m.float, m.checked, op, Int(1), Int(1)).Ok?
  {
    assert TruncDiv(1, 1) == 1;
  }

  lemma {:induction false} ReadAll(m: Machine, n: nat, regs: Regs, args: seq<Reg>, vals: seq<Value>)
    requires |vals| == |args| && forall k :: 0 <= k < |args| ==> args[k] < n && args[k] in regs && regs[args[k]] == vals[k]
    ensures GetAll(m, n, regs, args) == Ok(vals)
  {
    if args != [] {
      ReadAll(m, n, regs, args[1..], vals[1..]);
      assert vals == [vals[0]] + vals[1..];
    }
  }
}
