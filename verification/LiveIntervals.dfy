/** Live intervals, as the register allocator computes them: from a definition to its last use. */
module LiveIntervals {
  import opened Nir
  import opened LiveRanges

  datatype Interval = Interval(value: Reg, begin: nat, end: nat, size: nat)

  /** The use at `u` reads what the instruction at `d` defined: no later definition lies between. */
  ghost predicate Serves(code: seq<Instr>, d: nat, u: nat) {
    && d <= u < |code| && code[d].HasDest() && code[d].dest in code[u].Args()
    && forall e :: d < e <= u && code[e].HasDest() ==> code[e].dest != code[d].dest
  }

  /** From a definition to the last use it serves before index `n`. */
  ghost predicate Spans(code: seq<Instr>, n: nat, iv: Interval) {
    && DefAt(code, iv.begin, iv.value) && iv.begin < n && iv.begin <= iv.end
    && (iv.end == iv.begin || (iv.end < n && Serves(code, iv.begin, iv.end)))
    && forall u :: 0 <= u < n && Serves(code, iv.begin, u) ==> u <= iv.end
  }

  /** Strictly ascending starts, so that sorting by start has nothing to do. */
  ghost predicate Ascending(ivs: seq<Interval>) {
    forall i, j :: 0 <= i < j < |ivs| ==> ivs[i].begin < ivs[j].begin
  }

  /** One interval for each definition in the first `n` instructions, in order. */
  ghost predicate AllIntervals(code: seq<Instr>, n: nat, ivs: seq<Interval>) {
    && n <= |code| && Ascending(ivs) && (forall k :: 0 <= k < |ivs| ==> Spans(code, n, ivs[k]))
    && forall d :: 0 <= d < n && code[d].HasDest() ==> exists k :: 0 <= k < |ivs| && ivs[k].begin == d
  }

  /** The latest interval of each register defined so far. */
  ghost predicate Latest(code: seq<Instr>, n: nat, ivs: seq<Interval>, index: map<Reg, nat>) {
    && (forall r :: r in index ==> index[r] < |ivs| && ivs[index[r]].value == r)
    && (forall r :: r in index ==> forall e :: ivs[index[r]].begin < e < n && e < |code| && code[e].HasDest() ==> code[e].dest != r)
    && (forall e :: 0 <= e < n && e < |code| && code[e].HasDest() ==> code[e].dest in index)
  }

  function SizeOf(sizes: seq<nat>, r: Reg): nat {
    if r < |sizes| then sizes[r] else 0
  }

  method Intervals(code: seq<Instr>, sizes: seq<nat>) returns (ivs: seq<Interval>)
    ensures AllIntervals(code, |code|, ivs)
    ensures forall iv <- ivs :: iv.size == if iv.value < |sizes| then sizes[iv.value] else 0
  {
    ivs := [];
    var index: map<Reg, nat> := map[];
    for pc := 0 to |code|
      invariant AllIntervals(code, pc, ivs) && Latest(code, pc, ivs, index)
      invariant forall k :: 0 <= k < |ivs| ==> ivs[k].size == SizeOf(sizes, ivs[k].value)
    {
      var i := code[pc];
      ghost var before, earlier := ivs, index;
      if i.HasDest() {
        index := index[i.dest := |ivs|];
        ivs := ivs + [Interval(i.dest, pc, pc, SizeOf(sizes, i.dest))];
      }
      DefinitionAdded(code, pc, before, earlier, ivs, index, sizes);
      ivs := Extend(code, pc, ivs, index);
    }
  }

  /** Intervals right before the uses of instruction `pc` are taken into account. */
  ghost predicate Pending(code: seq<Instr>, pc: nat, ivs: seq<Interval>, index: map<Reg, nat>) {
    && pc < |code| && Ascending(ivs) && Latest(code, pc + 1, ivs, index)
    && (forall k :: 0 <= k < |ivs| ==> PendingInterval(code, pc, ivs[k]))
    && forall d :: 0 <= d <= pc && code[d].HasDest() ==> exists k :: 0 <= k < |ivs| && ivs[k].begin == d
  }

  ghost predicate PendingInterval(code: seq<Instr>, pc: nat, iv: Interval) {
    && DefAt(code, iv.begin, iv.value) && iv.begin <= pc && iv.begin <= iv.end
    && (iv.end == iv.begin || (iv.end <= pc && Serves(code, iv.begin, iv.end)))
    && forall u :: 0 <= u < pc && Serves(code, iv.begin, u) ==> u <= iv.end
  }

  lemma DefinitionAdded(code: seq<Instr>, pc: nat, before: seq<Interval>, earlier: map<Reg, nat>,
                        ivs: seq<Interval>, index: map<Reg, nat>, sizes: seq<nat>)
    requires pc < |code| && AllIntervals(code, pc, before) && Latest(code, pc, before, earlier)
    requires var i := code[pc];
             if i.HasDest() then
               && ivs == before + [Interval(i.dest, pc, pc, SizeOf(sizes, i.dest))]
               && index == earlier[i.dest := |before|]
             else ivs == before && index == earlier
    ensures Pending(code, pc, ivs, index)
  {
    hide Latest, Spans, PendingInterval;
    LatestAdded(code, pc, before, earlier, ivs, index, sizes);
    forall k | 0 <= k < |ivs| ensures PendingInterval(code, pc, ivs[k]) {
      if k < |before| { NotYetUsed(code, pc, before[k]); } else { OwnInterval(code, pc, ivs[k]); }
    }
    forall d | 0 <= d <= pc && code[d].HasDest() ensures exists k :: 0 <= k < |ivs| && ivs[k].begin == d {
      if d < pc {
        var k :| 0 <= k < |before| && before[k].begin == d;
        assert ivs[k].begin == d;
      } else {
        assert ivs[|before|].begin == d;
      }
    }
    forall i, j | 0 <= i < j < |ivs| ensures ivs[i].begin < ivs[j].begin {
      if j == |before| { SpansBefore(code, pc, before[i]); }
    }
  }

  lemma SpansBefore(code: seq<Instr>, n: nat, iv: Interval)
    requires Spans(code, n, iv)
    ensures iv.begin < n
  {
  }

  lemma NotYetUsed(code: seq<Instr>, pc: nat, iv: Interval)
    requires pc < |code| && Spans(code, pc, iv)
    ensures PendingInterval(code, pc, iv)
  {
  }

  lemma OwnInterval(code: seq<Instr>, pc: nat, iv: Interval)
    requires DefAt(code, pc, iv.value) && iv.begin == pc == iv.end
    ensures PendingInterval(code, pc, iv)
  {
  }

  lemma LatestAdded(code: seq<Instr>, pc: nat, before: seq<Interval>, earlier: map<Reg, nat>,
                    ivs: seq<Interval>, index: map<Reg, nat>, sizes: seq<nat>)
    requires pc < |code| && Latest(code, pc, before, earlier)
    requires var i := code[pc];
             if i.HasDest() then
               && ivs == before + [Interval(i.dest, pc, pc, SizeOf(sizes, i.dest))]
               && index == earlier[i.dest := |before|]
             else ivs == before && index == earlier
    ensures Latest(code, pc + 1, ivs, index)
  {
    forall r | r in index ensures index[r] < |ivs| && ivs[index[r]].value == r {}
    forall r, e | r in index && ivs[index[r]].begin < e < pc + 1 && e < |code| && code[e].HasDest() ensures code[e].dest != r {
      if e < pc { assert r in earlier; }
    }
  }

  /** A use extends the interval of its register's latest definition. */
  method Extend(code: seq<Instr>, pc: nat, ivs0: seq<Interval>, index: map<Reg, nat>) returns (ivs: seq<Interval>)
    requires Pending(code, pc, ivs0, index)
    ensures AllIntervals(code, pc + 1, ivs) && Latest(code, pc + 1, ivs, index) && |ivs| == |ivs0|
    ensures forall k :: 0 <= k < |ivs| ==> ivs[k].value == ivs0[k].value && ivs[k].size == ivs0[k].size
  {
    ivs := ivs0;
    var args := code[pc].Args();
    for a := 0 to |args|
      invariant |ivs| == |ivs0|
      invariant forall k :: 0 <= k < |ivs| ==> ivs[k].(end := ivs0[k].end) == ivs0[k]
      invariant forall k :: 0 <= k < |ivs| ==>
        ivs[k].end == if ivs[k].value in args[..a] && index[ivs[k].value] == k then Larger(ivs0[k].end, pc) else ivs0[k].end
    {
      assert args[..a + 1] == args[..a] + [args[a]];
      if args[a] in index {
        var k := index[args[a]];
        ivs := ivs[k := ivs[k].(end := Larger(ivs[k].end, pc))];
      }
    }
    assert args[..|args|] == args;
    UsesTaken(code, pc, ivs0, ivs, index);
  }

  function Larger(a: nat, b: nat): nat {
    if a < b then b else a
  }

  lemma UsesTaken(code: seq<Instr>, pc: nat, ivs0: seq<Interval>, ivs: seq<Interval>, index: map<Reg, nat>)
    requires Pending(code, pc, ivs0, index) && |ivs| == |ivs0|
    requires forall k :: 0 <= k < |ivs| ==> ivs[k].(end := ivs0[k].end) == ivs0[k]
    requires forall k :: 0 <= k < |ivs| ==>
      ivs[k].end == if ivs[k].value in code[pc].Args() && index[ivs[k].value] == k then Larger(ivs0[k].end, pc) else ivs0[k].end
    ensures AllIntervals(code, pc + 1, ivs) && Latest(code, pc + 1, ivs, index)
  {
    hide Spans, PendingInterval;
    forall k | 0 <= k < |ivs| ensures Spans(code, pc + 1, ivs[k]) {
      ServesIffLatest(code, pc, ivs0, index, k);
      SpansAfter(code, pc, ivs0[k], ivs[k]);
    }
    forall d | 0 <= d < pc + 1 && code[d].HasDest() ensures exists k :: 0 <= k < |ivs| && ivs[k].begin == d {
      var k :| 0 <= k < |ivs0| && ivs0[k].begin == d;
      assert ivs[k].begin == d;
    }
  }

  lemma SpansAfter(code: seq<Instr>, pc: nat, before: Interval, after: Interval)
    requires pc < |code| && PendingInterval(code, pc, before)
    requires after == before.(end := if Serves(code, before.begin, pc) then Larger(before.end, pc) else before.end)
    ensures Spans(code, pc + 1, after)
  {
  }

  /** Instruction `pc` uses what interval `k` defines exactly when that is the latest definition. */
  lemma ServesIffLatest(code: seq<Instr>, pc: nat, ivs: seq<Interval>, index: map<Reg, nat>, k: nat)
    requires Pending(code, pc, ivs, index) && k < |ivs|
    ensures ivs[k].value in index
    ensures Serves(code, ivs[k].begin, pc) <==> ivs[k].value in code[pc].Args() && index[ivs[k].value] == k
  {
    assert PendingInterval(code, pc, ivs[k]);
    var r, b := ivs[k].value, ivs[k].begin;
    assert code[b].dest == r;
    var j := index[r];
    assert PendingInterval(code, pc, ivs[j]);
    assert code[ivs[j].begin].dest == r;
    assert ivs[j].begin == b ==> j == k;
    if Serves(code, b, pc) { assert ivs[j].begin == b; }
  }

  /** Distinct values in distinct intervals: what single assignment gives. */
  ghost predicate DistinctValues(ivs: seq<Interval>) {
    forall i, j :: 0 <= i < j < |ivs| ==> ivs[i].value != ivs[j].value
  }

  lemma SingleDefDistinct(code: seq<Instr>, ivs: seq<Interval>)
    requires SingleDef(code) && AllIntervals(code, |code|, ivs)
    ensures DistinctValues(ivs)
  {
    forall i, j | 0 <= i < j < |ivs| ensures ivs[i].value != ivs[j].value {
      assert Spans(code, |code|, ivs[i]) && Spans(code, |code|, ivs[j]);
    }
  }

  /** Sorting by start leaves the intervals as they are: no other strictly ascending list has the same elements. */
  lemma {:induction false} SortingKeepsOrder(ivs: seq<Interval>, sorted: seq<Interval>)
    requires Ascending(ivs) && Ascending(sorted) && multiset(ivs) == multiset(sorted)
    ensures sorted == ivs
  {
    SameSize(ivs, sorted);
    if ivs == [] {
      assert sorted == [];
    } else {
      SameFront(ivs, sorted);
      SortingKeepsOrder(Front(ivs), Front(sorted));
    }
  }

  function Front(ivs: seq<Interval>): seq<Interval>
    requires ivs != []
  {
    ivs[..|ivs| - 1]
  }

  lemma SameFront(a: seq<Interval>, b: seq<Interval>)
    requires Ascending(a) && Ascending(b) && multiset(a) == multiset(b) && |a| == |b| > 0
    ensures Ascending(Front(a)) && Ascending(Front(b)) && multiset(Front(a)) == multiset(Front(b))
    ensures Front(a) == Front(b) ==> a == b
  {
    SameLast(a, b);
    DropLast(a);
    DropLast(b);
    AscendingFront(a, |a| - 1);
    AscendingFront(b, |b| - 1);
    hide Ascending;
    assert a == Front(a) + [a[|a| - 1]] && b == Front(b) + [b[|b| - 1]];
  }

  lemma SameSize(a: seq<Interval>, b: seq<Interval>)
    requires multiset(a) == multiset(b)
    ensures |a| == |b|
  {
    assert |a| == |multiset(a)| == |multiset(b)| == |b|;
  }

  lemma AscendingFront(ivs: seq<Interval>, n: nat)
    requires Ascending(ivs) && n <= |ivs|
    ensures Ascending(ivs[..n])
  {
  }

  lemma SameLast(a: seq<Interval>, b: seq<Interval>)
    requires Ascending(a) && Ascending(b) && multiset(a) == multiset(b) && |a| == |b| > 0
    ensures a[|a| - 1] == b[|b| - 1]
  {
    var n := |a| - 1;
    assert a[n] in multiset(b) && b[n] in multiset(a);
    assert a[n] in b && b[n] in a;
    var i :| 0 <= i <= n && b[i] == a[n];
    var j :| 0 <= j <= n && a[j] == b[n];
    assert b[i].begin <= b[n].begin && a[j].begin <= a[n].begin;
    assert i == n;
  }

  lemma DropLast(a: seq<Interval>)
    requires a != []
    ensures multiset(a[..|a| - 1]) == multiset(a) - multiset{a[|a| - 1]}
  {
    assert a == a[..|a| - 1] + [a[|a| - 1]];
  }
}
