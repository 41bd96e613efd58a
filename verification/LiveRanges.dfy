/**
 Live ranges of registers in NIR code.

 A use is well placed when its register is defined earlier and control can enter the stretch between
 the two only through the definition: every jump that lands in it starts in it and goes forward.
 Code fragments are considered at the index `at` where they will stand, since jump targets are absolute.
 */
module LiveRanges {
  import opened Nir

  ghost predicate DefAt(code: seq<Instr>, d: nat, r: Reg) {
    d < |code| && code[d].HasDest() && code[d].dest == r
  }

  /** No jump enters the stretch after `d` up to `u` from outside or backwards. */
  ghost predicate Enclosed(code: seq<Instr>, at: nat, d: nat, u: nat) {
    forall j :: 0 <= j < |code| && code[j].IsJump() && at + d < code[j].target <= at + u ==> d < j && at + j < code[j].target
  }

  ghost predicate WellPlaced(code: seq<Instr>, at: nat, u: nat, r: Reg) {
    exists d: nat :: d < u && DefAt(code, d, r) && Enclosed(code, at, d, u)
  }

  ghost predicate UsesWellPlaced(code: seq<Instr>, at: nat) {
    forall u, r :: 0 <= u < |code| && r in code[u].Args() ==> WellPlaced(code, at, u, r)
  }

  ghost predicate DestsIn(code: seq<Instr>, lo: nat, hi: nat) {
    forall k :: 0 <= k < |code| && code[k].HasDest() ==> lo <= code[k].dest < hi
  }

  ghost predicate TargetsIn(code: seq<Instr>, lo: nat, hi: nat) {
    forall k :: 0 <= k < |code| && code[k].IsJump() ==> lo <= code[k].target <= hi
  }

  ghost predicate Forward(code: seq<Instr>, at: nat) {
    forall k :: 0 <= k < |code| && code[k].IsJump() ==> at + k < code[k].target
  }

  /** A self-contained fragment that defines registers of [lo, hi), each once. */
  ghost predicate Shape(code: seq<Instr>, at: nat, lo: nat, hi: nat) {
    TargetsIn(code, at, at + |code|) && DestsIn(code, lo, hi) && SingleDef(code) && UsesWellPlaced(code, at)
  }

  /** What the register allocator and the optimizer may rely on in a whole function. */
  ghost predicate Structured(code: seq<Instr>) {
    SingleDef(code) && UsesWellPlaced(code, 0) && TargetsIn(code, 0, |code|)
  }

  // ----- putting fragments together -----

  /** A jump that does not land in the stretch after `start` up to `end`. */
  predicate Misses(i: Instr, start: nat, end: nat) {
    i.IsJump() ==> i.target <= start || i.target > end
  }

  /** The jumps around a fragment do not land after its start, up to its index `u`. */
  ghost predicate KeepsOut(before: seq<Instr>, u: nat, after: seq<Instr>, at: nat) {
    && (forall i <- before :: Misses(i, at + |before|, at + |before| + u))
    && (forall i <- after :: Misses(i, at + |before|, at + |before| + u))
  }

  lemma Embed(before: seq<Instr>, part: seq<Instr>, after: seq<Instr>, at: nat, u: nat, r: Reg)
    requires u <= |part| && WellPlaced(part, at + |before|, u, r) && KeepsOut(before, u, after, at)
    ensures WellPlaced(before + part + after, at, |before| + u, r)
  {
    var d: nat :| d < u && DefAt(part, d, r) && Enclosed(part, at + |before|, d, u);
    var code, d', u' := before + part + after, |before| + d, |before| + u;
    assert code[d'] == part[d];
    assert forall j :: 0 <= j < |before| ==> code[j] == before[j];
    assert forall j :: |before| + |part| <= j < |code| ==> code[j] == after[j - |before| - |part|];
    forall j | 0 <= j < |code| && code[j].IsJump() && at + d' < code[j].target <= at + u'
      ensures d' < j && at + j < code[j].target
    {
      assert code[j] !in before && code[j] !in after;
      assert |before| <= j < |before| + |part|;
      assert code[j] == part[j - |before|];
    }
    assert DefAt(code, d', r) && Enclosed(code, at, d', u');
  }

  /** The same for a fragment that comes first. */
  lemma EmbedFirst(a: seq<Instr>, b: seq<Instr>, at: nat, u: nat, r: Reg)
    requires u <= |a| && WellPlaced(a, at, u, r)
    requires forall i <- b :: Misses(i, at, at + u)
    ensures WellPlaced(a + b, at, u, r)
  {
    assert [] + a + b == a + b;
    Embed([], a, b, at, u, r);
  }

  lemma JoinDefs(a: seq<Instr>, b: seq<Instr>, lo: nat, mid: nat, hi: nat)
    requires DestsIn(a, lo, mid) && SingleDef(a) && DestsIn(b, mid, hi) && SingleDef(b) && lo <= mid <= hi
    ensures DestsIn(a + b, lo, hi) && SingleDef(a + b)
  {
    var c := a + b;
    forall i, j | 0 <= i < j < |c| && c[i].HasDest() && c[j].HasDest() ensures c[i].dest != c[j].dest {
      if j < |a| {
        assert c[i] == a[i] && c[j] == a[j];
      } else if i >= |a| {
        assert c[i] == b[i - |a|] && c[j] == b[j - |a|];
      } else {
        assert c[i] == a[i] && c[j] == b[j - |a|];
      }
    }
  }

  /** An own definition that no other part makes. */
  lemma AddDef(a: seq<Instr>, i: Instr, lo: nat, hi: nat)
    requires DestsIn(a, lo, hi) && SingleDef(a)
    requires i.HasDest() ==> lo <= i.dest < hi && forall k :: 0 <= k < |a| && a[k].HasDest() ==> a[k].dest != i.dest
    ensures DestsIn(a + [i], lo, hi) && SingleDef(a + [i])
  {
    var c := a + [i];
    forall j, k | 0 <= j < k < |c| && c[j].HasDest() && c[k].HasDest() ensures c[j].dest != c[k].dest {
      assert c[j] == a[j];
      if k < |a| { assert c[k] == a[k]; }
    }
  }

  /** One fragment after another. */
  lemma Join(a: seq<Instr>, b: seq<Instr>, at: nat, lo: nat, mid: nat, hi: nat)
    requires Shape(a, at, lo, mid) && Shape(b, at + |a|, mid, hi) && lo <= mid <= hi
    ensures Shape(a + b, at, lo, hi)
  {
    JoinDefs(a, b, lo, mid, hi);
    var c := a + b;
    forall k | 0 <= k < |c| && c[k].IsJump() ensures at <= c[k].target <= at + |c| {
      if k < |a| { assert c[k] == a[k]; } else { assert c[k] == b[k - |a|]; }
    }
    forall u, r | 0 <= u < |c| && r in c[u].Args() ensures WellPlaced(c, at, u, r) {
      if u < |a| {
        assert c[u] == a[u] && c == [] + a + b;
        EmbedFirst(a, b, at, u, r);
      } else {
        assert c[u] == b[u - |a|] && c == a + b + [];
        Embed(a, b, [], at, u - |a|, r);
      }
    }
  }

  /** A fragment followed by one instruction whose operands are well placed there. */
  lemma Append(a: seq<Instr>, i: Instr, at: nat, lo: nat, hi: nat)
    requires TargetsIn(a, at, at + |a|) && DestsIn(a, lo, hi) && SingleDef(a) && UsesWellPlaced(a, at)
    requires i.HasDest() ==> lo <= i.dest < hi && forall k :: 0 <= k < |a| && a[k].HasDest() ==> a[k].dest != i.dest
    requires forall r :: r in i.Args() ==> WellPlaced(a, at, |a|, r)
    requires !i.IsJump()
    ensures Shape(a + [i], at, lo, hi)
    ensures i.HasDest() ==> WellPlaced(a + [i], at, |a| + 1, i.dest)
    ensures forall r :: WellPlaced(a, at, |a|, r) ==> WellPlaced(a + [i], at, |a| + 1, r)
  {
    AddDef(a, i, lo, hi);
    var c := a + [i];
    assert c[|a|] == i;
    forall k | 0 <= k < |c| && c[k].IsJump() ensures at <= c[k].target <= at + |c| {
      assert c[k] == a[k];
    }
    forall u, r | 0 <= u < |c| && r in c[u].Args() ensures WellPlaced(c, at, u, r) {
      if u < |a| { assert c[u] == a[u]; }
      EmbedFirst(a, [i], at, u, r);
    }
    if i.HasDest() {
      assert DefAt(c, |a|, i.dest) && Enclosed(c, at, |a|, |a| + 1);
    }
    forall r | WellPlaced(a, at, |a|, r) ensures WellPlaced(c, at, |a| + 1, r) {
      var d: nat :| d < |a| && DefAt(a, d, r) && Enclosed(a, at, d, |a|);
      assert DefAt(c, d, r) && Enclosed(c, at, d, |a| + 1) by {
        assert c[d] == a[d];
        forall j | 0 <= j < |c| && c[j].IsJump() && at + d < c[j].target <= at + |a| + 1
          ensures d < j && at + j < c[j].target { assert c[j] == a[j]; }
      }
    }
  }
}
