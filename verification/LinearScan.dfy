/**
 Linear-scan register allocation: intervals in order of their start, a list of active ones, and eviction
 of the one that ends last when no register is free.

 The plan is conflict-free, and no choice of whole intervals that the registers could hold keeps more of
 them in registers.
 */
module LinearScan {
  import opened Nir
  import opened LiveIntervals

  datatype Place = Physical(reg: string) | Slot(slot: nat)

  datatype Active = Active(interval: nat, reg: string)

  /** The place of each interval's value, in the order of the intervals. */
  datatype Plan = Plan(intervals: seq<Interval>, locations: seq<Place>, spillSlots: nat)

  // ----- what a plan promises -----

  predicate LiveAt(iv: Interval, p: nat) {
    iv.begin <= p <= iv.end
  }

  predicate Overlap(a: Interval, b: Interval) {
    a.begin <= b.end && b.begin <= a.end
  }

  /** Only values of at most eight bytes may live in a register. */
  predicate Narrow(iv: Interval) {
    iv.size <= 8
  }

  ghost function LiveOf(ivs: seq<Interval>, chosen: set<nat>, p: nat): set<nat> {
    set i | i in chosen && i < |ivs| && LiveAt(ivs[i], p)
  }

  /** A choice of intervals that `k` registers can hold: narrow ones, at most `k` live at any point. */
  ghost predicate Feasible(ivs: seq<Interval>, k: nat, chosen: set<nat>) {
    && (forall i <- chosen :: i < |ivs| && ivs[i].size <= 8)
    && (forall p: nat :: |LiveOf(ivs, chosen, p)| <= k)
  }

  ghost function InRegisters(places: seq<Place>): set<nat> {
    set i | 0 <= i < |places| && places[i].Physical?
  }

  ghost predicate NoConflict(ivs: seq<Interval>, places: seq<Place>) {
    |places| <= |ivs| && forall i, j :: 0 <= i < j < |places| && Overlap(ivs[i], ivs[j]) ==> places[i] != places[j]
  }

  ghost predicate ProperPlaces(ivs: seq<Interval>, places: seq<Place>, registers: seq<string>, slots: nat) {
    && |places| <= |ivs|
    && (forall i :: 0 <= i < |places| && places[i].Physical? ==> places[i].reg in registers && ivs[i].size <= 8)
    && (forall i :: 0 <= i < |places| && places[i].Slot? ==> places[i].slot < slots)
    && (forall i, j :: 0 <= i < j < |places| && places[i].Slot? ==> places[i] != places[j])
  }

  /** No slot is left empty. */
  ghost predicate SlotsUsed(places: seq<Place>, slots: nat) {
    forall s: nat :: s < slots ==> Slot(s) in places
  }

  /** No feasible choice is larger than what the plan keeps in registers. */
  ghost predicate SpillsFewest(ivs: seq<Interval>, k: nat, places: seq<Place>) {
    forall chosen :: Feasible(ivs, k, chosen) ==> |chosen| <= |InRegisters(places)|
  }

  ghost predicate GoodPlan(plan: Plan, registers: seq<string>) {
    && |plan.locations| == |plan.intervals|
    && ProperPlaces(plan.intervals, plan.locations, registers, plan.spillSlots)
    && NoConflict(plan.intervals, plan.locations) && SlotsUsed(plan.locations, plan.spillSlots)
    && Feasible(plan.intervals, |registers|, InRegisters(plan.locations))
    && SpillsFewest(plan.intervals, |registers|, plan.locations)
  }

  ghost predicate NoDuplicates<T>(s: seq<T>) {
    forall i, j :: 0 <= i < j < |s| ==> s[i] != s[j]
  }

  // ----- the exchange argument -----

  /** Below `c`, the choice takes only held intervals. */
  ghost predicate Agrees(u: set<nat>, c: nat, held: set<nat>) {
    forall i :: i in u && i < c ==> i in held
  }

  ghost predicate Below(held: set<nat>, c: nat) {
    forall i :: i in held ==> i < c
  }

  /** Some feasible choice is as large and agrees with the scan so far: of the first `c` intervals it
      takes only ones the scan holds. */
  ghost predicate Matched(ivs: seq<Interval>, k: nat, c: nat, held: set<nat>, chosen: set<nat>) {
    exists u: set<nat> :: Feasible(ivs, k, u) && |u| >= |chosen| && Agrees(u, c, held)
  }

  ghost predicate AllMatched(ivs: seq<Interval>, k: nat, c: nat, held: set<nat>) {
    forall chosen :: Feasible(ivs, k, chosen) ==> Matched(ivs, k, c, held, chosen)
  }

  lemma MatchedGrows(ivs: seq<Interval>, k: nat, c: nat, held: set<nat>, more: set<nat>)
    requires AllMatched(ivs, k, c, held)
    requires more == held + {c} || (more == held && c < |ivs| && !Narrow(ivs[c]))
    ensures AllMatched(ivs, k, c + 1, more)
  {
    forall chosen | Feasible(ivs, k, chosen) ensures Matched(ivs, k, c + 1, more, chosen) {
      assert Matched(ivs, k, c, held, chosen);
      var u: set<nat> :| Feasible(ivs, k, u) && |u| >= |chosen| && Agrees(u, c, held);
      OnlyNarrow(ivs, k, u);
      hide Feasible;
      assert Agrees(u, c + 1, more);
    }
  }

  lemma OnlyNarrow(ivs: seq<Interval>, k: nat, u: set<nat>)
    requires Feasible(ivs, k, u)
    ensures forall i <- u :: i < |ivs| && Narrow(ivs[i])
  {
  }

  /** When `k + 1` intervals are live where interval `c` starts, giving up the one that ends last costs nothing. */
  lemma MatchedEvicts(ivs: seq<Interval>, k: nat, c: nat, held: set<nat>, live: set<nat>, x: nat)
    requires c < |ivs| && Ascending(ivs) && AllMatched(ivs, k, c, held) && Feasible(ivs, k, held)
    requires live <= held + {c} && |live| == k + 1 && x in live
    requires Below(held, c)
    requires forall i <- live :: i < |ivs| && Narrow(ivs[i]) && LiveAt(ivs[i], ivs[c].begin) && ivs[i].end <= ivs[x].end
    ensures AllMatched(ivs, k, c + 1, held + {c} - {x})
  {
    hide Feasible, Agrees, LiveAt, Narrow, Ascending, Below;
    forall chosen | Feasible(ivs, k, chosen) ensures Matched(ivs, k, c + 1, held + {c} - {x}, chosen) {
      assert Matched(ivs, k, c, held, chosen);
      var u: set<nat> :| Feasible(ivs, k, u) && |u| >= |chosen| && Agrees(u, c, held);
      var v := EvictsFrom(ivs, k, c, held, live, x, u);
    }
  }

  lemma EvictsFrom(ivs: seq<Interval>, k: nat, c: nat, held: set<nat>, live: set<nat>, x: nat, u: set<nat>)
    returns (v: set<nat>)
    requires c < |ivs| && Ascending(ivs) && Feasible(ivs, k, held) && Below(held, c)
    requires live <= held + {c} && |live| == k + 1 && x in live
    requires forall i <- live :: i < |ivs| && Narrow(ivs[i]) && LiveAt(ivs[i], ivs[c].begin) && ivs[i].end <= ivs[x].end
    requires Feasible(ivs, k, u) && Agrees(u, c, held)
    ensures Feasible(ivs, k, v) && |v| == |u| && Agrees(v, c + 1, held + {c} - {x})
  {
    hide Feasible, Agrees, LiveAt, Narrow, Ascending, Below;
    AgreesNext(u, c, held, x);
    v := u;
    if x in u {
      var y := Spare(ivs, k, u, live, ivs[c].begin);
      Exchange(ivs, k, c, held, u, x, y);
      SwapSize(u, x, y);
      AgreesTraded(u, c, held, x, y);
      v := u - {x} + {y};
    }
  }

  lemma AgreesNext(u: set<nat>, c: nat, held: set<nat>, x: nat)
    requires Agrees(u, c, held)
    ensures x !in u ==> Agrees(u, c + 1, held + {c} - {x})
  {
  }

  lemma AgreesTraded(u: set<nat>, c: nat, held: set<nat>, x: nat, y: nat)
    requires Agrees(u, c, held) && y != x && y in held + {c}
    ensures Agrees(u - {x} + {y}, c + 1, held + {c} - {x})
  {
  }

  lemma SwapSize(u: set<nat>, x: nat, y: nat)
    requires x in u && y !in u
    ensures |u - {x} + {y}| == |u|
  {
    assert |u - {x}| == |u| - 1;
  }

  /** A feasible choice leaves out one of `k + 1` intervals live at the same point. */
  lemma Spare(ivs: seq<Interval>, k: nat, u: set<nat>, live: set<nat>, p: nat) returns (y: nat)
    requires Feasible(ivs, k, u) && |live| == k + 1 && forall i <- live :: i < |ivs| && LiveAt(ivs[i], p)
    ensures y in live && y !in u
  {
    if live <= u {
      SubsetSize(live, LiveOf(ivs, u, p));
    }
    y :| y in live && y !in u;
  }

  lemma {:induction false} SubsetSize(a: set<nat>, b: set<nat>)
    requires a <= b
    ensures |a| <= |b|
  {
    assert b == a + (b - a);
  }

  /** Trading interval `x` for `y`, which ends no later, where both are live at the start of interval `c`. */
  lemma Exchange(ivs: seq<Interval>, k: nat, c: nat, held: set<nat>, u: set<nat>, x: nat, y: nat)
    requires c < |ivs| && Ascending(ivs) && Feasible(ivs, k, u) && Feasible(ivs, k, held)
    requires Below(held, c) && Agrees(u, c, held)
    requires x in u && y !in u && y in held + {c} && y < |ivs| && Narrow(ivs[y])
    requires LiveAt(ivs[x], ivs[c].begin) && LiveAt(ivs[y], ivs[c].begin) && ivs[y].end <= ivs[x].end
    ensures Feasible(ivs, k, u - {x} + {y})
  {
    hide LiveOf, LiveAt, Ascending, Agrees, Below;
    var v := u - {x} + {y};
    forall p: nat ensures |LiveOf(ivs, v, p)| <= k {
      if p < ivs[c].begin {
        TradedBefore(ivs, c, held, u, x, y, p);
        SubsetSize(LiveOf(ivs, v, p), LiveOf(ivs, held, p));
      } else {
        TradedAfter(ivs, c, u, x, y, p);
      }
    }
  }

  lemma TradedBefore(ivs: seq<Interval>, c: nat, held: set<nat>, u: set<nat>, x: nat, y: nat, p: nat)
    requires c < |ivs| && Ascending(ivs) && Agrees(u, c, held) && y in held + {c} && p < ivs[c].begin
    ensures LiveOf(ivs, u - {x} + {y}, p) <= LiveOf(ivs, held, p)
  {
  }

  lemma TradedAfter(ivs: seq<Interval>, c: nat, u: set<nat>, x: nat, y: nat, p: nat)
    requires c < |ivs| && ivs[c].begin <= p
    requires x in u && y !in u && x < |ivs| && y < |ivs|
    requires LiveAt(ivs[x], ivs[c].begin) && LiveAt(ivs[y], ivs[c].begin) && ivs[y].end <= ivs[x].end
    ensures |LiveOf(ivs, u - {x} + {y}, p)| <= |LiveOf(ivs, u, p)|
  {
    var before, after := LiveOf(ivs, u, p), LiveOf(ivs, u - {x} + {y}, p);
    if LiveAt(ivs[y], p) {
      assert after == before - {x} + {y};
      SwapSize(before, x, y);
    } else {
      SubsetSize(after, before);
    }
  }

  // ----- the scan's invariant -----

  ghost function Regs(active: seq<Active>): (r: seq<string>)
    ensures |r| == |active| && forall x :: 0 <= x < |r| ==> r[x] == active[x].reg
  {
    seq(|active|, x requires 0 <= x < |active| => active[x].reg)
  }

  ghost function Holding(active: seq<Active>): set<nat> {
    set x | 0 <= x < |active| :: active[x].interval
  }

  /** The registers are split between the active intervals and the free list. */
  ghost predicate SplitRegisters(active: seq<Active>, free: seq<string>, registers: seq<string>) {
    && |active| + |free| == |registers| && NoDuplicates(Regs(active) + free)
    && forall r <- Regs(active) + free :: r in registers
  }

  ghost predicate ActiveOk(ivs: seq<Interval>, places: seq<Place>, active: seq<Active>) {
    && |places| <= |ivs|
    && (forall x :: 0 <= x < |active| ==>
          active[x].interval < |places| && places[active[x].interval] == Physical(active[x].reg))
    && (forall x, y :: 0 <= x < y < |active| ==> active[x].interval != active[y].interval)
  }

  /** Every interval in a register that reaches `from` is active. */
  ghost predicate ActiveComplete(ivs: seq<Interval>, places: seq<Place>, active: seq<Active>, from: nat) {
    |places| <= |ivs|
    && forall i :: 0 <= i < |places| && places[i].Physical? && ivs[i].end >= from ==> i in Holding(active)
  }

  ghost predicate Scanned(ivs: seq<Interval>, places: seq<Place>, registers: seq<string>, slots: nat) {
    && ProperPlaces(ivs, places, registers, slots) && NoConflict(ivs, places) && SlotsUsed(places, slots)
    && Feasible(ivs, |registers|, InRegisters(places))
    && AllMatched(ivs, |registers|, |places|, InRegisters(places))
  }

  lemma {:induction false} HoldingSize(active: seq<Active>)
    requires forall x, y :: 0 <= x < y < |active| ==> active[x].interval != active[y].interval
    ensures |Holding(active)| == |active|
  {
    if active != [] {
      var n := |active| - 1;
      HoldingSize(active[..n]);
      assert Holding(active) == Holding(active[..n]) + {active[n].interval};
    }
  }

  /** Where interval `c` starts and later, only active intervals and it can be live. */
  lemma FeasibleAfter(ivs: seq<Interval>, places: seq<Place>, active: seq<Active>, now: seq<Place>, k: nat, holding: set<nat>)
    requires Ascending(ivs) && |places| < |ivs| && |now| == |places| + 1
    requires Feasible(ivs, k, InRegisters(places)) && ActiveComplete(ivs, places, active, ivs[|places|].begin)
    requires forall i :: 0 <= i < |places| && now[i].Physical? ==> places[i].Physical?
    requires now[|places|].Physical? ==> Narrow(ivs[|places|])
    requires |holding| <= k && forall i <- InRegisters(now) :: i in Holding(active) + {|places|} ==> i in holding
    ensures Feasible(ivs, k, InRegisters(now))
  {
    var c := |places|;
    forall p: nat ensures |LiveOf(ivs, InRegisters(now), p)| <= k {
      var live := LiveOf(ivs, InRegisters(now), p);
      if p < ivs[c].begin {
        SubsetSize(live, LiveOf(ivs, InRegisters(places), p));
      } else {
        assert live <= holding;
        SubsetSize(live, holding);
      }
    }
  }

  // ----- the allocator -----

  /** Drops the active intervals that end before `begin`, and frees their registers. */
  method Expire(ivs: seq<Interval>, ghost places: seq<Place>, active0: seq<Active>, free0: seq<string>, begin: nat,
                ghost registers: seq<string>)
    returns (active: seq<Active>, free: seq<string>)
    requires ActiveOk(ivs, places, active0) && SplitRegisters(active0, free0, registers)
    requires ActiveComplete(ivs, places, active0, begin)
    ensures ActiveOk(ivs, places, active) && SplitRegisters(active, free, registers)
    ensures ActiveComplete(ivs, places, active, begin)
    ensures forall x :: 0 <= x < |active| ==> ivs[active[x].interval].end >= begin
  {
    active, free := active0, free0;
    var x := 0;
    while x < |active|
      invariant 0 <= x <= |active|
      invariant ActiveOk(ivs, places, active) && SplitRegisters(active, free, registers)
      invariant ActiveComplete(ivs, places, active, begin)
      invariant forall y :: 0 <= y < x ==> ivs[active[y].interval].end >= begin
      decreases |active| - x
    {
      if ivs[active[x].interval].end < begin {
        ghost var was, wasFree := active, free;
        free := free + [active[x].reg];
        active := active[..x] + active[x + 1..];
        Released(ivs, places, was, wasFree, x, begin, registers);
      } else {
        x := x + 1;
      }
    }
  }

  lemma Released(ivs: seq<Interval>, places: seq<Place>, active: seq<Active>, free: seq<string>, x: nat, begin: nat, registers: seq<string>)
    requires ActiveOk(ivs, places, active) && SplitRegisters(active, free, registers)
    requires ActiveComplete(ivs, places, active, begin) && x < |active| && ivs[active[x].interval].end < begin
    ensures var rest := active[..x] + active[x + 1..];
            && ActiveOk(ivs, places, rest) && SplitRegisters(rest, free + [active[x].reg], registers)
            && ActiveComplete(ivs, places, rest, begin)
  {
    var rest, more := active[..x] + active[x + 1..], free + [active[x].reg];
    var before, after := Regs(active) + free, Regs(rest) + more;
    RegsMove(active, free, x);
    forall i | i in Holding(active) && i != active[x].interval ensures i in Holding(rest) {
      var y :| 0 <= y < |active| && active[y].interval == i;
      assert rest[if y < x then y else y - 1] == active[y];
    }
  }

  /** Moving a register from the active list to the end of the free list only reorders. */
  lemma RegsMove(active: seq<Active>, free: seq<string>, x: nat)
    requires x < |active| && NoDuplicates(Regs(active) + free)
    ensures var rest := active[..x] + active[x + 1..];
            && NoDuplicates(Regs(rest) + (free + [active[x].reg]))
            && forall r :: r in Regs(rest) + (free + [active[x].reg]) ==> r in Regs(active) + free
  {
    var rest := active[..x] + active[x + 1..];
    var before, after := Regs(active) + free, Regs(rest) + (free + [active[x].reg]);
    assert |after| == |before|;
    forall k | 0 <= k < |after|
      ensures after[k] == before[if k < x then k else if k + 1 < |after| then k + 1 else x]
    {}
  }

  /** The first active interval that ends last. */
  method Farthest(ivs: seq<Interval>, ghost places: seq<Place>, active: seq<Active>) returns (f: nat)
    requires active != [] && ActiveOk(ivs, places, active)
    ensures f < |active|
    ensures forall x :: 0 <= x < |active| ==> ivs[active[x].interval].end <= ivs[active[f].interval].end
    ensures forall x :: 0 <= x < f ==> ivs[active[x].interval].end < ivs[active[f].interval].end
  {
    f := 0;
    for x := 1 to |active|
      invariant f < x <= |active|
      invariant forall y :: 0 <= y < x ==> ivs[active[y].interval].end <= ivs[active[f].interval].end
      invariant forall y :: 0 <= y < f ==> ivs[active[y].interval].end < ivs[active[f].interval].end
    {
      if ivs[active[f].interval].end < ivs[active[x].interval].end { f := x; }
    }
  }

  /** The scan's state before interval `|places|`; `from` is at or before where it starts. */
  ghost predicate State(ivs: seq<Interval>, places: seq<Place>, active: seq<Active>, free: seq<string>,
                        registers: seq<string>, slots: nat, from: nat) {
    && Ascending(ivs) && (forall iv <- ivs :: iv.begin <= iv.end)
    && Scanned(ivs, places, registers, slots) && ActiveOk(ivs, places, active)
    && SplitRegisters(active, free, registers) && ActiveComplete(ivs, places, active, from)
  }

  /** The next interval starts here, and the active intervals have been checked against that. */
  ghost predicate Ready(ivs: seq<Interval>, places: seq<Place>, active: seq<Active>, free: seq<string>,
                        registers: seq<string>, slots: nat) {
    && |places| < |ivs| && State(ivs, places, active, free, registers, slots, ivs[|places|].begin)
    && forall x :: 0 <= x < |active| ==> ivs[active[x].interval].end >= ivs[|places|].begin
  }

  lemma EmptyScan(ivs: seq<Interval>, registers: seq<string>)
    requires Ascending(ivs) && (forall iv <- ivs :: iv.begin <= iv.end) && NoDuplicates(registers)
    ensures State(ivs, [], [], registers, registers, 0, 0)
  {
    assert Regs([]) + registers == registers;
    forall chosen | Feasible(ivs, |registers|, chosen) ensures Matched(ivs, |registers|, 0, InRegisters([]), chosen) {
      assert Agrees(chosen, 0, InRegisters([]));
    }
    forall p: nat ensures |LiveOf(ivs, InRegisters([]), p)| <= |registers| {
      assert LiveOf(ivs, InRegisters([]), p) == {};
    }
  }

  /** Whoever is in register `r`, and overlaps the next interval, is active with it. */
  lemma HolderIsActive(ivs: seq<Interval>, places: seq<Place>, active: seq<Active>, free: seq<string>,
                       registers: seq<string>, slots: nat, i: nat)
    requires Ready(ivs, places, active, free, registers, slots)
    requires i < |places| && places[i].Physical? && Overlap(ivs[i], ivs[|places|])
    ensures exists x :: 0 <= x < |active| && active[x] == Active(i, places[i].reg)
  {
    assert i in Holding(active);
    var x :| 0 <= x < |active| && active[x].interval == i;
    assert active[x] == Active(i, places[i].reg);
  }

  // ----- a register is free -----

  lemma TakesFree(ivs: seq<Interval>, places: seq<Place>, active: seq<Active>, free: seq<string>, registers: seq<string>, slots: nat)
    requires Ready(ivs, places, active, free, registers, slots) && free != [] && Narrow(ivs[|places|])
    ensures var c, reg := |places|, free[|free| - 1];
            State(ivs, places + [Physical(reg)], active + [Active(c, reg)], free[..|free| - 1], registers, slots, ivs[c].begin)
  {
    hide Feasible, AllMatched, LiveAt, ActiveOk, ActiveComplete, NoConflict, SplitRegisters, ProperPlaces;
    var c, reg, left := |places|, free[|free| - 1], free[..|free| - 1];
    assert free == left + [reg];
    ActiveGrows(ivs, places, active, free, registers, slots, reg);
    RegsTaken(active, left, c, reg, registers);
    ProperGrows(ivs, places, registers, slots, active, free, reg);
    NewNoConflict(ivs, places, active, left, registers, slots, reg);
  }

  /** The interval joins the active ones; with it, no more are live than there are registers. */
  lemma ActiveGrows(ivs: seq<Interval>, places: seq<Place>, active: seq<Active>, free: seq<string>, registers: seq<string>, slots: nat, reg: string)
    requires Ready(ivs, places, active, free, registers, slots) && free != [] && Narrow(ivs[|places|])
    ensures var c, now, actives := |places|, places + [Physical(reg)], active + [Active(|places|, reg)];
            && ActiveOk(ivs, now, actives) && ActiveComplete(ivs, now, actives, ivs[c].begin)
            && Feasible(ivs, |registers|, InRegisters(now)) && AllMatched(ivs, |registers|, c + 1, InRegisters(now))
  {
    hide Feasible, AllMatched, NoConflict, ProperPlaces, SplitRegisters, Ascending, ActiveOk, ActiveComplete, Narrow;
    var c, now, actives := |places|, places + [Physical(reg)], active + [Active(|places|, reg)];
    InRegistersGrows(places, reg);
    ActiveJoined(ivs, places, active, reg);
    ActiveSize(ivs, now, actives);
    assert |active| + |free| == |registers| by { SplitSize(active, free, registers); }
    FeasibleAfter(ivs, places, active, now, |registers|, Holding(actives));
    MatchedGrows(ivs, |registers|, c, InRegisters(places), InRegisters(now));
  }

  lemma ActiveSize(ivs: seq<Interval>, places: seq<Place>, active: seq<Active>)
    requires ActiveOk(ivs, places, active)
    ensures |Holding(active)| == |active|
  {
    HoldingSize(active);
  }

  lemma SplitSize(active: seq<Active>, free: seq<string>, registers: seq<string>)
    requires SplitRegisters(active, free, registers)
    ensures |active| + |free| == |registers|
  {
  }

  lemma ActiveJoined(ivs: seq<Interval>, places: seq<Place>, active: seq<Active>, reg: string)
    requires |places| < |ivs| && ActiveOk(ivs, places, active) && ActiveComplete(ivs, places, active, ivs[|places|].begin)
    ensures var c, now, actives := |places|, places + [Physical(reg)], active + [Active(|places|, reg)];
            && ActiveOk(ivs, now, actives) && ActiveComplete(ivs, now, actives, ivs[c].begin)
            && Holding(actives) == Holding(active) + {c}
  {
    var c, actives := |places|, active + [Active(|places|, reg)];
    assert Holding(actives) == Holding(active) + {c} by {
      assert actives[|active|].interval == c;
      assert forall x :: 0 <= x < |active| ==> actives[x] == active[x];
    }
  }

  lemma ProperGrows(ivs: seq<Interval>, places: seq<Place>, registers: seq<string>, slots: nat,
                    active: seq<Active>, free: seq<string>, reg: string)
    requires ProperPlaces(ivs, places, registers, slots) && |places| < |ivs| && Narrow(ivs[|places|])
    requires SplitRegisters(active, free, registers) && reg in free
    ensures ProperPlaces(ivs, places + [Physical(reg)], registers, slots)
  {
    assert reg in Regs(active) + free;
  }

  lemma NewNoConflict(ivs: seq<Interval>, places: seq<Place>, active: seq<Active>, left: seq<string>,
                      registers: seq<string>, slots: nat, reg: string)
    requires Ready(ivs, places, active, left + [reg], registers, slots)
    ensures NoConflict(ivs, places + [Physical(reg)])
  {
    hide Feasible, AllMatched, ActiveOk, ActiveComplete, ProperPlaces, Ascending, Overlap;
    var c, now := |places|, places + [Physical(reg)];
    forall i | 0 <= i < c && Overlap(ivs[i], ivs[c]) ensures now[i] != now[c] {
      if places[i].Physical? {
        HolderIsActive(ivs, places, active, left + [reg], registers, slots, i);
        var x :| 0 <= x < |active| && active[x] == Active(i, places[i].reg);
        var all := Regs(active) + (left + [reg]);
        assert all[x] == places[i].reg && all[|all| - 1] == reg;
      }
    }
  }

  lemma InRegistersGrows(places: seq<Place>, reg: string)
    ensures InRegisters(places + [Physical(reg)]) == InRegisters(places) + {|places|}
  {
  }

  lemma RegsTaken(active: seq<Active>, left: seq<string>, c: nat, reg: string, registers: seq<string>)
    requires SplitRegisters(active, left + [reg], registers)
    ensures SplitRegisters(active + [Active(c, reg)], left, registers)
  {
    var a := |active|;
    var before, after := Regs(active) + (left + [reg]), Regs(active) + [reg] + left;
    assert Regs(active + [Active(c, reg)]) == Regs(active) + [reg];
    assert forall k :: 0 <= k < |after| ==> after[k] == before[if k < a then k else if k == a then |before| - 1 else k - 1];
  }

  // ----- the interval goes to a spill slot -----

  lemma SpillsWide(ivs: seq<Interval>, places: seq<Place>, active: seq<Active>, free: seq<string>, registers: seq<string>, slots: nat)
    requires Ready(ivs, places, active, free, registers, slots) && !Narrow(ivs[|places|])
    ensures State(ivs, places + [Slot(slots)], active, free, registers, slots + 1, ivs[|places|].begin)
  {
    hide Feasible, AllMatched, LiveAt, Agrees, SplitRegisters;
    InRegistersKept(places, slots);
    MatchedGrows(ivs, |registers|, |places|, InRegisters(places), InRegisters(places));
  }

  lemma InRegistersKept(places: seq<Place>, slot: nat)
    ensures InRegisters(places + [Slot(slot)]) == InRegisters(places)
  {
  }

  /** All registers are taken, and by intervals that end no later. */
  lemma SpillsLongest(ivs: seq<Interval>, places: seq<Place>, active: seq<Active>, registers: seq<string>, slots: nat)
    requires Ready(ivs, places, active, [], registers, slots) && Narrow(ivs[|places|])
    requires forall x :: 0 <= x < |active| ==> ivs[active[x].interval].end <= ivs[|places|].end
    ensures State(ivs, places + [Slot(slots)], active, [], registers, slots + 1, ivs[|places|].begin)
  {
    hide Feasible, AllMatched, Agrees;
    var c, held := |places|, InRegisters(places);
    InRegistersKept(places, slots);
    EvictionAllowed(ivs, places, active, registers, slots, c);
    assert held + {c} - {c} == held;
  }

  /** No active interval, nor interval `c`, ends after interval `x`. */
  ghost predicate EndsLast(ivs: seq<Interval>, active: seq<Active>, c: nat, x: nat) {
    && c < |ivs| && x < |ivs| && ivs[c].end <= ivs[x].end
    && forall y :: 0 <= y < |active| ==> active[y].interval < |ivs| && ivs[active[y].interval].end <= ivs[x].end
  }

  /** With all registers taken, the interval that ends last may be given up. */
  lemma EvictionAllowed(ivs: seq<Interval>, places: seq<Place>, active: seq<Active>, registers: seq<string>, slots: nat, x: nat)
    requires Ready(ivs, places, active, [], registers, slots) && Narrow(ivs[|places|])
    requires x in Holding(active) + {|places|} && EndsLast(ivs, active, |places|, x)
    ensures AllMatched(ivs, |registers|, |places| + 1, InRegisters(places) + {|places|} - {x})
  {
    hide Feasible, AllMatched, NoConflict, LiveAt, Narrow, ActiveComplete, ProperPlaces, Ascending, NoDuplicates;
    var c, held, live := |places|, InRegisters(places), Holding(active) + {|places|};
    HoldingSize(active);
    assert |live| == |registers| + 1;
    forall i | i in live ensures i in held + {c} && i < |ivs| && Narrow(ivs[i]) && LiveAt(ivs[i], ivs[c].begin) && ivs[i].end <= ivs[x].end {
      LiveNow(ivs, places, active, [], registers, slots, i);
    }
    MatchedEvicts(ivs, |registers|, c, held, live, x);
  }

  lemma LiveNow(ivs: seq<Interval>, places: seq<Place>, active: seq<Active>, free: seq<string>, registers: seq<string>, slots: nat, i: nat)
    requires Ready(ivs, places, active, free, registers, slots) && i in Holding(active) + {|places|}
    ensures i < |ivs| && LiveAt(ivs[i], ivs[|places|].begin)
    ensures i in InRegisters(places) + {|places|} && (i < |places| ==> Narrow(ivs[i]))
  {
    hide Feasible, AllMatched, NoConflict;
    if i == |places| { assert ivs[i] in ivs; }
  }

  // ----- an active interval makes room -----

  lemma Evicts(ivs: seq<Interval>, places: seq<Place>, active: seq<Active>, registers: seq<string>, slots: nat, f: nat)
    requires Ready(ivs, places, active, [], registers, slots) && Narrow(ivs[|places|]) && f < |active|
    requires active[f].interval < |places|
    requires ivs[active[f].interval].end > ivs[|places|].end
    requires forall x :: 0 <= x < |active| ==> ivs[active[x].interval].end <= ivs[active[f].interval].end
    ensures var c, e, reg := |places|, active[f].interval, active[f].reg;
            State(ivs, places[e := Slot(slots)] + [Physical(reg)], active[f := Active(c, reg)], [], registers, slots + 1, ivs[c].begin)
  {
    hide Feasible, AllMatched, ActiveOk, ActiveComplete, NoConflict, ProperPlaces, NoDuplicates, LiveAt, Narrow, SlotsUsed;
    var c, e, reg := |places|, active[f].interval, active[f].reg;
    var now, actives := places[e := Slot(slots)] + [Physical(reg)], active[f := Active(c, reg)];
    assert e in Holding(active);
    ReadyActive(ivs, places, active, [], registers, slots);
    EvictionAllowed(ivs, places, active, registers, slots, e);
    ActiveReplaced(ivs, places, active, registers, slots, f);
    assert InRegisters(now) == InRegisters(places) + {c} - {e};
    assert Regs(actives) == Regs(active);
    EvictionNoConflict(ivs, places, active, registers, slots, f);
    EvictionProper(ivs, places, active, registers, slots, f);
    assert places[e].Physical? by { HolderIsPhysical(ivs, places, active, f); }
    SlotTaken(places, e, slots, Physical(reg));
  }

  lemma HolderIsPhysical(ivs: seq<Interval>, places: seq<Place>, active: seq<Active>, f: nat)
    requires ActiveOk(ivs, places, active) && f < |active| && active[f].interval < |places|
    ensures places[active[f].interval].Physical?
  {
  }

  lemma SlotTaken(places: seq<Place>, e: nat, slots: nat, last: Place)
    requires e < |places| && places[e].Physical? && SlotsUsed(places, slots)
    ensures SlotsUsed(places[e := Slot(slots)] + [last], slots + 1)
  {
    var now := places[e := Slot(slots)] + [last];
    assert now[e] == Slot(slots);
    forall s: nat | s < slots ensures Slot(s) in now {
      var i :| 0 <= i < |places| && places[i] == Slot(s);
      assert now[i] == Slot(s);
    }
  }

  lemma ActiveReplaced(ivs: seq<Interval>, places: seq<Place>, active: seq<Active>, registers: seq<string>, slots: nat, f: nat)
    requires Ready(ivs, places, active, [], registers, slots) && Narrow(ivs[|places|]) && f < |active|
    requires active[f].interval < |places|
    ensures var c, reg := |places|, active[f].reg;
            var now, actives := places[active[f].interval := Slot(slots)] + [Physical(reg)], active[f := Active(c, reg)];
            && ActiveOk(ivs, now, actives) && ActiveComplete(ivs, now, actives, ivs[c].begin)
            && Feasible(ivs, |registers|, InRegisters(now))
  {
    hide Feasible, AllMatched, NoConflict, ProperPlaces, SplitRegisters, Ascending, ActiveOk, ActiveComplete, Narrow;
    var c, e, reg := |places|, active[f].interval, active[f].reg;
    var now, actives := places[e := Slot(slots)] + [Physical(reg)], active[f := Active(c, reg)];
    ActiveTraded(ivs, places, active, slots, f);
    ActiveSize(ivs, now, actives);
    SplitSize(active, [], registers);
    FeasibleAfter(ivs, places, active, now, |registers|, Holding(actives));
  }

  lemma ActiveTraded(ivs: seq<Interval>, places: seq<Place>, active: seq<Active>, slots: nat, f: nat)
    requires |places| < |ivs| && ActiveOk(ivs, places, active) && ActiveComplete(ivs, places, active, ivs[|places|].begin)
    requires f < |active| && active[f].interval < |places|
    ensures var c, e, reg := |places|, active[f].interval, active[f].reg;
            var now, actives := places[e := Slot(slots)] + [Physical(reg)], active[f := Active(c, reg)];
            && ActiveOk(ivs, now, actives) && ActiveComplete(ivs, now, actives, ivs[c].begin)
            && Holding(actives) == Holding(active) - {e} + {c}
  {
    HoldingReplaced(active, f, |places|);
  }

  lemma EvictionProper(ivs: seq<Interval>, places: seq<Place>, active: seq<Active>, registers: seq<string>, slots: nat, f: nat)
    requires Ready(ivs, places, active, [], registers, slots) && Narrow(ivs[|places|]) && f < |active|
    requires active[f].interval < |places|
    ensures ProperPlaces(ivs, places[active[f].interval := Slot(slots)] + [Physical(active[f].reg)], registers, slots + 1)
  {
    hide Feasible, AllMatched, NoConflict, LiveAt, Ascending, ActiveComplete, NoDuplicates;
    var all := Regs(active) + [];
    assert all[f] == active[f].reg;
  }

  lemma HoldingReplaced(active: seq<Active>, f: nat, c: nat)
    requires f < |active| && forall x, y :: 0 <= x < y < |active| ==> active[x].interval != active[y].interval
    requires forall x :: 0 <= x < |active| ==> active[x].interval != c
    ensures Holding(active[f := Active(c, active[f].reg)]) == Holding(active) - {active[f].interval} + {c}
  {
    var actives := active[f := Active(c, active[f].reg)];
    assert actives[f].interval == c;
    forall i | i in Holding(active) && i != active[f].interval ensures i in Holding(actives) {
      var x :| 0 <= x < |active| && active[x].interval == i;
      assert actives[x].interval == i;
    }
  }

  lemma EvictionNoConflict(ivs: seq<Interval>, places: seq<Place>, active: seq<Active>, registers: seq<string>, slots: nat, f: nat)
    requires Ready(ivs, places, active, [], registers, slots) && f < |active|
    ensures NoConflict(ivs, places[active[f].interval := Slot(slots)] + [Physical(active[f].reg)])
  {
    hide Feasible, AllMatched, Agrees;
    var c, e, reg := |places|, active[f].interval, active[f].reg;
    var now := places[e := Slot(slots)] + [Physical(reg)];
    forall i, j | 0 <= i < j < |now| && Overlap(ivs[i], ivs[j]) ensures now[i] != now[j] {
      if j == c && i != e && places[i].Physical? {
        HolderIsActive(ivs, places, active, [], registers, slots, i);
        var x :| 0 <= x < |active| && active[x] == Active(i, places[i].reg);
        var all := Regs(active) + [];
        assert all[x] == places[i].reg && all[f] == reg && x != f;
      }
    }
  }

  // ----- the whole scan -----

  /** The map from values to places, where every value has one interval. */
  ghost predicate Located(ivs: seq<Interval>, places: seq<Place>, locations: map<Reg, Place>) {
    |places| <= |ivs| && forall i :: 0 <= i < |places| ==> ivs[i].value in locations && locations[ivs[i].value] == places[i]
  }

  lemma LocatedGrows(ivs: seq<Interval>, places: seq<Place>, locations: map<Reg, Place>, place: Place)
    requires Located(ivs, places, locations) && |places| < |ivs| && DistinctValues(ivs)
    ensures Located(ivs, places + [place], locations[ivs[|places|].value := place])
  {
  }

  lemma LocatedMoves(ivs: seq<Interval>, places: seq<Place>, locations: map<Reg, Place>, e: nat, place: Place)
    requires Located(ivs, places, locations) && e < |places| && DistinctValues(ivs)
    ensures Located(ivs, places[e := place], locations[ivs[e].value := place])
  {
  }

  method Allocate(code: seq<Instr>, sizes: seq<nat>, registers: seq<string>) returns (plan: Plan)
    requires NoDuplicates(registers)
    ensures AllIntervals(code, |code|, plan.intervals)
    ensures forall iv <- plan.intervals :: iv.size == SizeOf(sizes, iv.value)
    ensures |plan.locations| == |plan.intervals|
    ensures DistinctValues(plan.intervals) ==> GoodPlan(plan, registers)
  {
    hide AllIntervals, State, GoodPlan, Located, DistinctValues;
    var ivs := Intervals(code, sizes);
    var active: seq<Active>, free, spillSlots: nat := [], registers, 0;
    var locations: map<Reg, Place> := map[];
    ghost var places: seq<Place>, from: nat := [], 0;
    WellOrdered(code, ivs);
    EmptyScan(ivs, registers);
    NoneLocated(ivs);
    for current := 0 to |ivs|
      invariant |places| == current && State(ivs, places, active, free, registers, spillSlots, from)
      invariant current < |ivs| ==> from <= ivs[current].begin
      invariant forall i :: 0 <= i < current ==> ivs[i].value in locations
      invariant DistinctValues(ivs) ==> Located(ivs, places, locations)
    {
      ToNext(ivs, places, active, free, registers, spillSlots, from);
      active, free := Expire(ivs, places, active, free, ivs[current].begin, registers);
      StillReady(ivs, places, active, free, registers, spillSlots);
      active, free, spillSlots, locations, places :=
        PlaceNext(ivs, current, active, free, spillSlots, locations, registers, places);
      from := ivs[current].begin;
    }
    plan := Plan(ivs, seq(|ivs|, i requires 0 <= i < |ivs| => locations[ivs[i].value]), spillSlots);
    if DistinctValues(ivs) {
      SameLocations(ivs, places, locations, plan.locations);
      Concluded(plan, active, free, registers, from);
    }
  }

  /** One round of the scan: a place for the next interval. */
  method PlaceNext(ivs: seq<Interval>, current: nat, active0: seq<Active>, free0: seq<string>, slots0: nat,
                   locations0: map<Reg, Place>, ghost registers: seq<string>, ghost places0: seq<Place>)
    returns (active: seq<Active>, free: seq<string>, slots: nat, locations: map<Reg, Place>, ghost places: seq<Place>)
    requires |places0| == current < |ivs| && Ready(ivs, places0, active0, free0, registers, slots0)
    requires DistinctValues(ivs) ==> Located(ivs, places0, locations0)
    ensures |places| == |places0| + 1 && State(ivs, places, active, free, registers, slots, ivs[|places0|].begin)
    ensures DistinctValues(ivs) ==> Located(ivs, places, locations)
    ensures locations.Keys >= locations0.Keys + {ivs[|places0|].value}
  {
    hide State, Located, DistinctValues;
    active, free, slots, locations, places := active0, free0, slots0, locations0, places0;
    var iv := ivs[current];
    ReadyActive(ivs, places, active, free, registers, slots);
    if iv.size > 8 || free == [] {
      if active != [] && iv.size <= 8 {
        var f := Farthest(ivs, places, active);
        var e, reg := active[f].interval, active[f].reg;
        if ivs[e].end > iv.end {
          Evicts(ivs, places, active, registers, slots, f);
          if DistinctValues(ivs) {
            LocatedMoves(ivs, places, locations, e, Slot(slots));
            LocatedGrows(ivs, places[e := Slot(slots)], locations[ivs[e].value := Slot(slots)], Physical(reg));
          }
          places := places[e := Slot(slots)] + [Physical(reg)];
          locations := locations[ivs[e].value := Slot(slots)];
          slots := slots + 1;
          active := active[f := Active(current, reg)];
          locations := locations[iv.value := Physical(reg)];
          return;
        }
      }
      if iv.size > 8 {
        SpillsWide(ivs, places, active, free, registers, slots);
      } else {
        SpillsLongest(ivs, places, active, registers, slots);
      }
      if DistinctValues(ivs) { LocatedGrows(ivs, places, locations, Slot(slots)); }
      places := places + [Slot(slots)];
      locations := locations[iv.value := Slot(slots)];
      slots := slots + 1;
    } else {
      TakesFree(ivs, places, active, free, registers, slots);
      var reg := free[|free| - 1];
      if DistinctValues(ivs) { LocatedGrows(ivs, places, locations, Physical(reg)); }
      free := free[..|free| - 1];
      active := active + [Active(current, reg)];
      places := places + [Physical(reg)];
      locations := locations[iv.value := Physical(reg)];
    }
  }

  lemma ReadyActive(ivs: seq<Interval>, places: seq<Place>, active: seq<Active>, free: seq<string>, registers: seq<string>, slots: nat)
    requires Ready(ivs, places, active, free, registers, slots)
    ensures ActiveOk(ivs, places, active) && forall x :: 0 <= x < |active| ==> active[x].interval < |places|
  {
  }

  lemma ToNext(ivs: seq<Interval>, places: seq<Place>, active: seq<Active>, free: seq<string>, registers: seq<string>, slots: nat, from: nat)
    requires |places| < |ivs| && State(ivs, places, active, free, registers, slots, from) && from <= ivs[|places|].begin
    ensures ActiveOk(ivs, places, active) && SplitRegisters(active, free, registers)
    ensures ActiveComplete(ivs, places, active, ivs[|places|].begin)
    ensures Ascending(ivs) && (forall iv <- ivs :: iv.begin <= iv.end) && Scanned(ivs, places, registers, slots)
  {
    hide Scanned, Ascending, ActiveOk, SplitRegisters;
  }

  lemma StillReady(ivs: seq<Interval>, places: seq<Place>, active: seq<Active>, free: seq<string>, registers: seq<string>, slots: nat)
    requires |places| < |ivs| && ActiveOk(ivs, places, active) && SplitRegisters(active, free, registers)
    requires ActiveComplete(ivs, places, active, ivs[|places|].begin)
    requires Ascending(ivs) && (forall iv <- ivs :: iv.begin <= iv.end) && Scanned(ivs, places, registers, slots)
    requires forall x :: 0 <= x < |active| ==> ivs[active[x].interval].end >= ivs[|places|].begin
    ensures Ready(ivs, places, active, free, registers, slots)
    ensures |places| + 1 < |ivs| ==> ivs[|places|].begin <= ivs[|places| + 1].begin
  {
    hide Scanned;
  }

  lemma NoneLocated(ivs: seq<Interval>)
    ensures Located(ivs, [], map[])
  {
  }

  lemma SameLocations(ivs: seq<Interval>, places: seq<Place>, locations: map<Reg, Place>, listed: seq<Place>)
    requires Located(ivs, places, locations) && |places| == |ivs| == |listed|
    requires forall i :: 0 <= i < |ivs| ==> ivs[i].value in locations && listed[i] == locations[ivs[i].value]
    ensures listed == places
  {
  }

  lemma WellOrdered(code: seq<Instr>, ivs: seq<Interval>)
    requires AllIntervals(code, |code|, ivs)
    ensures Ascending(ivs) && forall iv <- ivs :: iv.begin <= iv.end
  {
    forall iv | iv in ivs ensures iv.begin <= iv.end {
      var k :| 0 <= k < |ivs| && ivs[k] == iv;
      assert Spans(code, |code|, ivs[k]);
    }
  }

  /** When every interval is placed, the scan's invariant is the promise made for the plan. */
  lemma Concluded(plan: Plan, active: seq<Active>, free: seq<string>, registers: seq<string>, from: nat)
    requires State(plan.intervals, plan.locations, active, free, registers, plan.spillSlots, from)
    requires |plan.locations| == |plan.intervals|
    ensures GoodPlan(plan, registers)
  {
    var ivs, k, held := plan.intervals, |registers|, InRegisters(plan.locations);
    forall chosen | Feasible(ivs, k, chosen) ensures |chosen| <= |held| {
      assert Matched(ivs, k, |ivs|, held, chosen);
      var u: set<nat> :| Feasible(ivs, k, u) && |u| >= |chosen| && Agrees(u, |ivs|, held);
      assert u <= held;
      SubsetSize(u, held);
    }
  }
}
