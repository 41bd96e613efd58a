/**
 Running a function on the places a plan gives its registers: physical registers and spill slots, shared
 by values whose intervals do not overlap.

 For code in which control moves only forward between a definition and its uses, which holds of everything the
 lowerer emits, such a run is the run on unboundedly many registers: the same result, calls and errors.
 */
module AllocatedRun {
  import opened Basics
  import opened Values
  import opened Nir
  import opened Interpreter
  import opened LiveRanges
  import opened LiveIntervals
  import opened LinearScan
  import opened Lowering
  import opened LoweredShape
  import S = Source

  type Placement = map<Reg, Place>

  /** What the physical registers and spill slots of one activation hold. */
  type Contents = map<Place, Value>

  function Read(m: Machine, nextReg: nat, place: Placement, held: Contents, r: Reg): Outcome {
    if r >= nextReg then Err(InvalidRegister)
    else if r in place && place[r] in held then Ok(held[place[r]])
    else if m.strict then Err(UnwrittenRegister)
    else Ok(Null)
  }

  function ReadAll(m: Machine, nextReg: nat, place: Placement, held: Contents, args: seq<Reg>): (r: Result<seq<Value>, Error>)
    ensures r.Ok? ==> |r.value| == |args|
  {
    if args == [] then Ok([])
    else
      match Read(m, nextReg, place, held, args[0])
      case Err(e) => Err(e)
      case Ok(v) =>
        match ReadAll(m, nextReg, place, held, args[1..])
        case Err(e) => Err(e)
        case Ok(vs) => Ok([v] + vs)
  }

  function Write(place: Placement, held: Contents, r: Reg, v: Value): Contents {
    if r in place then held[place[r] := v] else held
  }

  /** The interpreter's run with registers in their places; `places` has one placement for each function. */
  function RunPlaced(m: Machine, p: Program, places: seq<Placement>, fn: Function, place: Placement, pc: nat,
                     held: Contents, vars: Vars, trace: Trace, clock: nat): (r: FnResult)
    requires |places| == |p.functions|
    ensures r.Done? ==> r.clock <= clock
    decreases clock, if pc < |fn.code| then |fn.code| - pc else 0
  {
    if pc >= |fn.code| then Done(Null, vars, trace, clock)
    else
      match ReadAll(m, fn.nextReg, place, held, fn.code[pc].Args())
      case Err(e) => Failed(e, trace)
      case Ok(vals) =>
        match Act(m, fn.code[pc], pc, vals, vars)
        case Fault(e) => Failed(e, trace)
        case Finish(v) => Done(v, vars, trace, clock)
        case Goto(next, result, vars') =>
          var held' := if result.Some? then Write(place, held, fn.code[pc].dest, result.value) else held;
          if next > pc then RunPlaced(m, p, places, fn, place, next, held', vars', trace, clock)
          else if clock == 0 then OutOfTime(trace)
          else RunPlaced(m, p, places, fn, place, next, held', vars', trace, clock - 1)
        case Invoke =>
          match CallPlaced(m, p, places, fn.code[pc].callee, vals, trace, clock)
          case Done(v, _, trace', clock') =>
            RunPlaced(m, p, places, fn, place, pc + 1, Write(place, held, fn.code[pc].dest, v), vars, trace', clock')
          case other => other
  }

  function CallPlaced(m: Machine, p: Program, places: seq<Placement>, name: string, args: seq<Value>, trace: Trace, clock: nat)
    : (r: FnResult)
    requires |places| == |p.functions|
    ensures r.Done? ==> r.clock <= clock
    decreases clock, 0
  {
    var called := trace + [Event(name, args)];
    match FindUser(p.functions, name)
    case Some(i) =>
      if clock == 0 then OutOfTime(called)
      else RunPlacedFunction(m, p, places, p.functions[i], places[i], args, called, clock - 1)
    case None =>
      match m.host(trace, Event(name, args))
      case Some(v) => Done(v, map[], called, clock)
      case None => Failed(CallFailed(name), called)
  }

  function RunPlacedFunction(m: Machine, p: Program, places: seq<Placement>, fn: Function, place: Placement,
                             args: seq<Value>, trace: Trace, clock: nat): (r: FnResult)
    requires |places| == |p.functions|
    ensures r.Done? ==> r.clock <= clock
    decreases clock, |fn.code| + 1
  {
    if fn.isExtern then Failed(ExternFunction(fn.name), trace)
    else RunPlaced(m, p, places, fn, place, 0, map[], Bind(fn.params, args), trace, clock)
  }

  // ----- what a good plan gives -----

  /** What the instruction at `d` defines is used at `u`. */
  ghost predicate Needed(code: seq<Instr>, d: nat, u: nat) {
    d < u < |code| && code[d].HasDest() && code[d].dest in code[u].Args()
  }

  /** Every definition has a place, and nothing in between writes to it before a use. */
  ghost predicate Fits(code: seq<Instr>, place: Placement) {
    && (forall d :: 0 <= d < |code| && code[d].HasDest() ==> code[d].dest in place)
    && forall d: nat, u: nat, e: nat :: Needed(code, d, u) && d < e < u && code[e].HasDest() ==> place[code[e].dest] != place[code[d].dest]
  }

  ghost predicate Places(plan: Plan, place: Placement) {
    |plan.locations| == |plan.intervals|
    && forall k :: 0 <= k < |plan.intervals| ==>
         plan.intervals[k].value in place && place[plan.intervals[k].value] == plan.locations[k]
  }

  /** A conflict-free plan for single-assignment code never has a needed value overwritten. */
  lemma GoodPlanFits(code: seq<Instr>, plan: Plan, registers: seq<string>, place: Placement)
    requires SingleDef(code) && AllIntervals(code, |code|, plan.intervals)
    requires GoodPlan(plan, registers) && Places(plan, place)
    ensures Fits(code, place)
  {
    hide Feasible, SpillsFewest, ProperPlaces, SingleDef, Spans;
    var ivs := plan.intervals;
    forall d: nat | d < |code| && code[d].HasDest() ensures code[d].dest in place {
      var k := IntervalOf(code, ivs, d);
    }
    forall d: nat, u: nat, e: nat | Needed(code, d, u) && d < e < u && code[e].HasDest()
      ensures place[code[e].dest] != place[code[d].dest]
    {
      var i := IntervalOf(code, ivs, d);
      var j := IntervalOf(code, ivs, e);
      ReachesUse(code, ivs[i], d, u);
      assert ivs[i].begin < ivs[j].begin;
      assert Overlap(ivs[i], ivs[j]);
    }
  }

  lemma IntervalOf(code: seq<Instr>, ivs: seq<Interval>, d: nat) returns (k: nat)
    requires AllIntervals(code, |code|, ivs) && d < |code| && code[d].HasDest()
    ensures k < |ivs| && ivs[k].begin == d && ivs[k].value == code[d].dest && Spans(code, |code|, ivs[k])
    ensures d <= ivs[k].end
  {
    k :| 0 <= k < |ivs| && ivs[k].begin == d;
    assert Spans(code, |code|, ivs[k]);
  }

  lemma ReachesUse(code: seq<Instr>, iv: Interval, d: nat, u: nat)
    requires SingleDef(code) && Needed(code, d, u) && Spans(code, |code|, iv) && iv.begin == d
    ensures u <= iv.end
  {
    assert Serves(code, d, u);
  }

  // ----- one step -----

  /** Before index `pc`, every value defined earlier and still needed is in its place. */
  ghost predicate InPlace(code: seq<Instr>, place: Placement, pc: nat, regs: Regs, held: Contents) {
    forall d: nat, u: nat :: Needed(code, d, u) && d < pc <= u ==> Same(place, regs, held, code[d].dest)
  }

  predicate Same(place: Placement, regs: Regs, held: Contents, r: Reg) {
    r in regs && r in place && place[r] in held && held[place[r]] == regs[r]
  }

  ghost predicate Sound(fn: Function) {
    Structured(fn.code) && DestsIn(fn.code, 0, fn.nextReg)
  }

  /** Every use comes after its definition, with no way in between from elsewhere. */
  lemma UseIsEnclosed(fn: Function, u: nat, r: Reg)
    returns (d: nat)
    requires Sound(fn) && u < |fn.code| && r in fn.code[u].Args()
    ensures Needed(fn.code, d, u) && fn.code[d].dest == r && Enclosed(fn.code, 0, d, u) && r < fn.nextReg
  {
    assert WellPlaced(fn.code, 0, u, r);
    d :| d < u && DefAt(fn.code, d, r) && Enclosed(fn.code, 0, d, u);
  }

  lemma NeededIsEnclosed(fn: Function, d: nat, u: nat)
    requires Sound(fn) && Needed(fn.code, d, u)
    ensures Enclosed(fn.code, 0, d, u)
  {
    var e := UseIsEnclosed(fn, u, fn.code[d].dest);
    assert e == d;
  }

  lemma ReadsAgree(m: Machine, fn: Function, place: Placement, pc: nat, regs: Regs, held: Contents)
    requires Sound(fn) && pc < |fn.code| && InPlace(fn.code, place, pc, regs, held)
    ensures ReadAll(m, fn.nextReg, place, held, fn.code[pc].Args()) == GetAll(m, fn.nextReg, regs, fn.code[pc].Args())
  {
    var args := fn.code[pc].Args();
    forall r | r in args ensures Read(m, fn.nextReg, place, held, r) == Get(m, fn.nextReg, regs, r) {
      var d := UseIsEnclosed(fn, pc, r);
      assert Same(place, regs, held, r);
    }
    AllAgree(m, fn.nextReg, place, regs, held, args);
  }

  lemma {:induction false} AllAgree(m: Machine, nextReg: nat, place: Placement, regs: Regs, held: Contents, args: seq<Reg>)
    requires forall r <- args :: Read(m, nextReg, place, held, r) == Get(m, nextReg, regs, r)
    ensures ReadAll(m, nextReg, place, held, args) == GetAll(m, nextReg, regs, args)
  {
    if args != [] {
      AllAgree(m, nextReg, place, regs, held, args[1..]);
    }
  }

  /** Moving to the next instruction: the value written goes to a place nobody needs. */
  lemma StepsInPlace(fn: Function, place: Placement, pc: nat, regs: Regs, held: Contents, v: Value)
    requires Sound(fn) && Fits(fn.code, place) && pc < |fn.code| && InPlace(fn.code, place, pc, regs, held)
    ensures fn.code[pc].HasDest() ==>
      InPlace(fn.code, place, pc + 1, regs[fn.code[pc].dest := v], Write(place, held, fn.code[pc].dest, v))
    ensures !fn.code[pc].HasDest() ==> InPlace(fn.code, place, pc + 1, regs, held)
  {
    var code := fn.code;
    if code[pc].HasDest() {
      var r := code[pc].dest;
      var regs', held' := regs[r := v], Write(place, held, r, v);
      forall d: nat, u: nat | Needed(code, d, u) && d < pc + 1 <= u ensures Same(place, regs', held', code[d].dest) {
        if d < pc {
          assert Same(place, regs, held, code[d].dest);
          assert place[r] != place[code[d].dest];
        }
      }
    }
  }

  /** A jump lands where everything still needed was needed before it. */
  lemma JumpsInPlace(fn: Function, place: Placement, pc: nat, regs: Regs, held: Contents)
    requires Sound(fn) && pc < |fn.code| && fn.code[pc].IsJump() && InPlace(fn.code, place, pc, regs, held)
    ensures InPlace(fn.code, place, fn.code[pc].target, regs, held)
  {
    var code := fn.code;
    forall d: nat, u: nat | Needed(code, d, u) && d < code[pc].target <= u ensures Same(place, regs, held, code[d].dest) {
      NeededIsEnclosed(fn, d, u);
      assert d < pc <= u;
    }
  }

  lemma GoesInPlace(fn: Function, place: Placement, pc: nat, regs: Regs, held: Contents, next: nat, result: Option<Value>)
    requires Sound(fn) && Fits(fn.code, place) && pc < |fn.code| && InPlace(fn.code, place, pc, regs, held)
    requires next == pc + 1 || (fn.code[pc].IsJump() && next == fn.code[pc].target)
    requires result.Some? <==> fn.code[pc].HasDest()
    ensures InPlace(fn.code, place, next,
                    if result.Some? then regs[fn.code[pc].dest := result.value] else regs,
                    if result.Some? then Write(place, held, fn.code[pc].dest, result.value) else held)
  {
    hide InPlace, Sound, Fits, Write;
    StepsInPlace(fn, place, pc, regs, held, if result.Some? then result.value else Null);
    if next != pc + 1 { JumpsInPlace(fn, place, pc, regs, held); }
  }

  // ----- whole runs -----

  /** Every function with a body is sound and has a placement that fits. */
  ghost predicate AllFit(p: Program, places: seq<Placement>) {
    |places| == |p.functions|
    && forall i :: 0 <= i < |places| && !p.functions[i].isExtern ==> Sound(p.functions[i]) && Fits(p.functions[i].code, places[i])
  }

  lemma {:induction false} PlacedRun(m: Machine, p: Program, places: seq<Placement>, fn: Function, place: Placement, pc: nat,
                                     regs: Regs, held: Contents, vars: Vars, trace: Trace, clock: nat)
    requires AllFit(p, places) && Sound(fn) && Fits(fn.code, place) && InPlace(fn.code, place, pc, regs, held)
    ensures RunPlaced(m, p, places, fn, place, pc, held, vars, trace, clock) == Run(m, p, fn, pc, regs, vars, trace, clock)
    decreases clock, if pc < |fn.code| then |fn.code| - pc else 0, 1
  {
    hide Act, GetAll, ReadAll, Sound, Fits, InPlace, CallOut, CallPlaced, AllFit, FindUser, Write;
    if pc < |fn.code| {
      ReadsAgree(m, fn, place, pc, regs, held);
      var vals := GetAll(m, fn.nextReg, regs, fn.code[pc].Args());
      if vals.Ok? {
        var e := Act(m, fn.code[pc], pc, vals.value, vars);
        if e.Goto? { PlacedStep(m, p, places, fn, place, pc, regs, held, vals.value, vars, trace, clock); }
        if e.Invoke? { PlacedInvoke(m, p, places, fn, place, pc, regs, held, vals.value, vars, trace, clock); }
      }
    }
  }

  lemma {:induction false} PlacedStep(m: Machine, p: Program, places: seq<Placement>, fn: Function, place: Placement, pc: nat,
                                      regs: Regs, held: Contents, vals: seq<Value>, vars: Vars, trace: Trace, clock: nat)
    requires AllFit(p, places) && Sound(fn) && Fits(fn.code, place) && InPlace(fn.code, place, pc, regs, held)
    requires pc < |fn.code| && |vals| == |fn.code[pc].Args()| && Act(m, fn.code[pc], pc, vals, vars).Goto?
    requires GetAll(m, fn.nextReg, regs, fn.code[pc].Args()) == Ok(vals) == ReadAll(m, fn.nextReg, place, held, fn.code[pc].Args())
    ensures RunPlaced(m, p, places, fn, place, pc, held, vars, trace, clock) == Run(m, p, fn, pc, regs, vars, trace, clock)
    decreases clock, |fn.code| - pc, 0
  {
    hide Act, GetAll, ReadAll, Sound, Fits, InPlace, CallOut, CallPlaced, AllFit, FindUser, Write;
    var i := fn.code[pc];
    var e := Act(m, i, pc, vals, vars);
    Lands(m, i, pc, vals, vars);
    var regs' := if e.result.Some? then regs[i.dest := e.result.value] else regs;
    var held' := if e.result.Some? then Write(place, held, i.dest, e.result.value) else held;
    GoesInPlace(fn, place, pc, regs, held, e.pc, e.result);
    if e.pc > pc || clock > 0 {
      PlacedRun(m, p, places, fn, place, e.pc, regs', held', e.vars, trace, if e.pc > pc then clock else clock - 1);
    }
  }

  lemma {:induction false} PlacedInvoke(m: Machine, p: Program, places: seq<Placement>, fn: Function, place: Placement, pc: nat,
                                        regs: Regs, held: Contents, vals: seq<Value>, vars: Vars, trace: Trace, clock: nat)
    requires AllFit(p, places) && Sound(fn) && Fits(fn.code, place) && InPlace(fn.code, place, pc, regs, held)
    requires pc < |fn.code| && |vals| == |fn.code[pc].Args()| && Act(m, fn.code[pc], pc, vals, vars).Invoke?
    requires GetAll(m, fn.nextReg, regs, fn.code[pc].Args()) == Ok(vals) == ReadAll(m, fn.nextReg, place, held, fn.code[pc].Args())
    ensures RunPlaced(m, p, places, fn, place, pc, held, vars, trace, clock) == Run(m, p, fn, pc, regs, vars, trace, clock)
    decreases clock, |fn.code| - pc, 0
  {
    hide Act, GetAll, ReadAll, Sound, Fits, InPlace, CallOut, CallPlaced, AllFit, FindUser, Write;
    var i := fn.code[pc];
    PlacedCall(m, p, places, i.callee, vals, trace, clock);
    var c := CallOut(m, p, i.callee, vals, trace, clock);
    if c.Done? {
      CallEnds(m, p, i.callee, vals, trace, clock);
      StepsInPlace(fn, place, pc, regs, held, c.value);
      PlacedRun(m, p, places, fn, place, pc + 1, regs[i.dest := c.value], Write(place, held, i.dest, c.value), vars, c.trace, c.clock);
    }
  }

  /** Control goes to the next index or, from a jump, to its target; only instructions with a destination yield a value. */
  lemma Lands(m: Machine, i: Instr, pc: nat, vals: seq<Value>, vars: Vars)
    requires |vals| == |i.Args()| && Act(m, i, pc, vals, vars).Goto?
    ensures var e := Act(m, i, pc, vals, vars);
            && (e.pc == pc + 1 || (i.IsJump() && e.pc == i.target))
            && (e.result.Some? <==> i.HasDest())
  {
  }

  lemma {:induction false} PlacedCall(m: Machine, p: Program, places: seq<Placement>, name: string, args: seq<Value>, trace: Trace, clock: nat)
    requires AllFit(p, places)
    ensures CallPlaced(m, p, places, name, args, trace, clock) == CallOut(m, p, name, args, trace, clock)
    decreases clock, 0
  {
    var i := FindUser(p.functions, name);
    if i.Some? && clock > 0 {
      PlacedFunctionRun(m, p, places, i.value, args, trace + [Event(name, args)], clock - 1);
    }
  }

  lemma {:induction false} PlacedFunctionRun(m: Machine, p: Program, places: seq<Placement>, k: nat, args: seq<Value>, trace: Trace, clock: nat)
    requires AllFit(p, places) && k < |p.functions|
    ensures RunPlacedFunction(m, p, places, p.functions[k], places[k], args, trace, clock) ==
            RunFunction(m, p, p.functions[k], args, trace, clock)
    decreases clock, |p.functions[k].code| + 1
  {
    if !p.functions[k].isExtern {
      PlacedRun(m, p, places, p.functions[k], places[k], 0, map[], map[], Bind(p.functions[k].params, args), trace, clock);
    }
  }

  // ----- allocating a whole program -----

  /** Where a plan puts each value. */
  function PlacementOf(plan: Plan): Placement
    requires |plan.locations| == |plan.intervals|
  {
    PlaceFirst(plan.intervals, plan.locations)
  }

  function Placements(plans: seq<Plan>): (places: seq<Placement>)
    requires forall plan <- plans :: |plan.locations| == |plan.intervals|
    ensures |places| == |plans| && forall i :: 0 <= i < |plans| ==> places[i] == PlacementOf(plans[i])
  {
    seq(|plans|, i requires 0 <= i < |plans| => PlacementOf(plans[i]))
  }

  function PlaceFirst(ivs: seq<Interval>, locations: seq<Place>): Placement
    requires |locations| == |ivs|
  {
    if ivs == [] then map[]
    else PlaceFirst(ivs[..|ivs| - 1], locations[..|ivs| - 1])[ivs[|ivs| - 1].value := locations[|ivs| - 1]]
  }

  lemma {:induction false} PlacementIsPlan(ivs: seq<Interval>, locations: seq<Place>, k: nat)
    requires |locations| == |ivs| && DistinctValues(ivs) && k < |ivs|
    ensures ivs[k].value in PlaceFirst(ivs, locations) && PlaceFirst(ivs, locations)[ivs[k].value] == locations[k]
  {
    var n := |ivs| - 1;
    if k < n {
      PlacementIsPlan(ivs[..n], locations[..n], k);
      assert ivs[k].value != ivs[n].value;
    }
  }

  /** The plan covers the function's intervals, and is a good one; an extern function has no code to plan for. */
  ghost predicate Planned(fn: Function, plan: Plan, registers: seq<string>) {
    && |plan.locations| == |plan.intervals|
    && (!fn.isExtern ==> GoodPlan(plan, registers) && AllIntervals(fn.code, |fn.code|, plan.intervals))
  }

  /** A plan for one function; `sizes` holds its register sizes. */
  method AllocateFunction(fn: Function, sizes: seq<nat>, registers: seq<string>) returns (plan: Plan)
    requires NoDuplicates(registers) && (!fn.isExtern ==> Sound(fn))
    ensures Planned(fn, plan, registers)
    ensures !fn.isExtern ==> Fits(fn.code, PlacementOf(plan))
  {
    hide GoodPlan, Fits, Structured, NoDuplicates, PlaceFirst;
    plan := Allocate(fn.code, sizes, registers);
    if !fn.isExtern { PlanFits(fn, plan, registers); }
  }

  /** Plans for every function of a program, and for its entry. */
  method AllocateProgram(p: Program, sizes: seq<seq<nat>>, entrySizes: seq<nat>, registers: seq<string>)
    returns (plans: seq<Plan>, entry: Plan)
    requires NoDuplicates(registers) && |sizes| == |p.functions|
    requires Sound(p.entry) && forall fn <- p.functions :: !fn.isExtern ==> Sound(fn)
    ensures |plans| == |p.functions| && forall i :: 0 <= i < |plans| ==> Planned(p.functions[i], plans[i], registers)
    ensures Planned(p.entry, entry, registers) && forall plan <- plans :: |plan.locations| == |plan.intervals|
    ensures AllFit(p, Placements(plans)) && (!p.entry.isExtern ==> Fits(p.entry.code, PlacementOf(entry)))
  {
    hide GoodPlan, Fits, Structured, NoDuplicates, PlaceFirst, AllIntervals;
    plans := [];
    for k := 0 to |p.functions|
      invariant |plans| == k
      invariant forall i :: 0 <= i < k ==> Planned(p.functions[i], plans[i], registers)
      invariant forall i :: 0 <= i < k && !p.functions[i].isExtern ==> Fits(p.functions[i].code, PlacementOf(plans[i]))
    {
      var plan := AllocateFunction(p.functions[k], sizes[k], registers);
      plans := plans + [plan];
    }
    entry := AllocateFunction(p.entry, entrySizes, registers);
  }

  lemma PlanFits(fn: Function, plan: Plan, registers: seq<string>)
    requires Sound(fn) && AllIntervals(fn.code, |fn.code|, plan.intervals) && |plan.locations| == |plan.intervals|
    requires DistinctValues(plan.intervals) ==> GoodPlan(plan, registers)
    ensures GoodPlan(plan, registers) && Fits(fn.code, PlacementOf(plan))
  {
    hide GoodPlan, Fits;
    SingleDefDistinct(fn.code, plan.intervals);
    forall k | 0 <= k < |plan.intervals|
      ensures plan.intervals[k].value in PlacementOf(plan) && PlacementOf(plan)[plan.intervals[k].value] == plan.locations[k]
    {
      PlacementIsPlan(plan.intervals, plan.locations, k);
    }
    GoodPlanFits(fn.code, plan, registers, PlacementOf(plan));
  }

  lemma LoweredIsSound(p: S.Program)
    ensures forall fn <- LowerProgram(p).functions :: Sound(fn)
    ensures Sound(LowerProgram(p).entry)
  {
    LoweredEntryIsWellFormed(p);
    forall fn | fn in LowerProgram(p).functions ensures Sound(fn) {
      var i :| 0 <= i < |S.Functions(p)| && fn == LowerFunction(S.Functions(p)[i]);
      LoweredIsWellFormed(S.Functions(p)[i]);
    }
  }

  lemma PlansFit(p: S.Program, plans: seq<Plan>, registers: seq<string>)
    requires var q := LowerProgram(p);
             |plans| == |q.functions| && forall i :: 0 <= i < |plans| ==> Planned(q.functions[i], plans[i], registers)
    ensures AllFit(LowerProgram(p), Placements(plans))
  {
    hide GoodPlan, AllIntervals, Fits, Sound;
    LoweredIsSound(p);
    var q := LowerProgram(p);
    forall i | 0 <= i < |plans| && !q.functions[i].isExtern ensures Sound(q.functions[i]) && Fits(q.functions[i].code, PlacementOf(plans[i])) {
      assert q.functions[i] in q.functions;
      PlanFits(q.functions[i], plans[i], registers);
    }
  }

  /** Every lowered function runs on the places of any good plans exactly as on unbounded registers. */
  lemma AllocationKeepsLoweredRuns(m: Machine, p: S.Program, plans: seq<Plan>, registers: seq<string>,
                                   k: nat, args: seq<Value>, trace: Trace, clock: nat)
    requires var q := LowerProgram(p);
             |plans| == |q.functions| && forall i :: 0 <= i < |plans| ==> Planned(q.functions[i], plans[i], registers)
    requires k < |plans|
    ensures var q, places := LowerProgram(p), Placements(plans);
            RunPlacedFunction(m, q, places, q.functions[k], places[k], args, trace, clock) ==
            RunFunction(m, q, q.functions[k], args, trace, clock)
  {
    hide GoodPlan, AllIntervals, AllFit, Run, RunPlaced;
    PlansFit(p, plans, registers);
    PlacedFunctionRun(m, LowerProgram(p), Placements(plans), k, args, trace, clock);
  }

  /** So does the entry. */
  lemma AllocationKeepsLoweredEntry(m: Machine, p: S.Program, plans: seq<Plan>, entry: Plan, registers: seq<string>,
                                    trace: Trace, clock: nat)
    requires var q := LowerProgram(p);
             |plans| == |q.functions| && forall i :: 0 <= i < |plans| ==> Planned(q.functions[i], plans[i], registers)
    requires Planned(LowerProgram(p).entry, entry, registers)
    ensures var q := LowerProgram(p);
            RunPlacedFunction(m, q, Placements(plans), q.entry, PlacementOf(entry), [], trace, clock) ==
            RunFunction(m, q, q.entry, [], trace, clock)
  {
    hide GoodPlan, AllIntervals, AllFit, Run, RunPlaced, Sound, Fits, PlacementOf;
    PlansFit(p, plans, registers);
    LoweredIsSound(p);
    var q := LowerProgram(p);
    PlanFits(q.entry, entry, registers);
    NothingHeld(q.entry.code, PlacementOf(entry));
    PlacedRun(m, q, Placements(plans), q.entry, PlacementOf(entry), 0, map[], map[], Bind(q.entry.params, []), trace, clock);
  }

  lemma NothingHeld(code: seq<Instr>, place: Placement)
    ensures InPlace(code, place, 0, map[], map[])
  {
  }
}
