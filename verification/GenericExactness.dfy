/**
 Exactly which declarations generic matching is sound for: those in which no array type mentions a parameter.

 The other declarations have a call that goes wrong.  Its arguments are the annotated types, with every parameter
 outside arrays replaced by a name longer than all parameters; the bindings then lengthen the arrays.
 */
module GenericExactness {
  import opened Basics
  import opened Hexadecimal
  import opened Generics
  import opened GenericMatching
  import opened GenericBinding
  import opened GenericCalls

  // ----- a name that is no parameter -----

  function Longest(gps: seq<string>): (n: nat)
    ensures forall gp <- gps :: |gp| <= n
  {
    if gps == [] then 0
    else
      var n := Longest(gps[1..]);
      if |gps[0]| > n then |gps[0]| else n
  }

  function Filler(gps: seq<string>): string {
    seq(Longest(gps) + 1, _ => 'x')
  }

  predicate Fills(w: string, gps: seq<string>) {
    w != "" && (forall k :: 0 <= k < |w| ==> w[k] == 'x') && forall gp <- gps :: |gp| < |w|
  }

  lemma NoUnderscore(s: string)
    requires forall k :: 0 <= k < |s| ==> s[k] != '_'
    ensures Find(s, 0).None?
  {
    hide Find;
    if Find(s, 0).Some? { MarkerStarts(s, Find(s, 0).value); }
  }

  lemma FillerIsPlain(w: string, gps: seq<string>)
    requires Fills(w, gps)
    ensures PlainName(w) && w !in gps
  {
    NoUnderscore(w);
  }

  // ----- filling in the name -----

  /** The type with the name for every parameter outside arrays. */
  function Outside(t: Type, gps: seq<string>, w: string): Type
    decreases t, 1
  {
    match t
    case Named(id) => if id in gps then Named(w) else t
    case Ptr(u) => Ptr(Outside(u, gps, w))
    case Slice(u) => Slice(Outside(u, gps, w))
    case Arr(_, _) => t
    case App(base, args) => App(base, OutsideAll(args, gps, w))
  }

  function OutsideAll(ts: seq<Type>, gps: seq<string>, w: string): (r: seq<Type>)
    ensures |r| == |ts|
    decreases ts, 0
  {
    if ts == [] then [] else [Outside(ts[0], gps, w)] + OutsideAll(ts[1..], gps, w)
  }

  /** The type with the name for every parameter. */
  function Everywhere(t: Type, gps: seq<string>, w: string): Type
    decreases t, 1
  {
    match t
    case Named(id) => if id in gps then Named(w) else t
    case Ptr(u) => Ptr(Everywhere(u, gps, w))
    case Slice(u) => Slice(Everywhere(u, gps, w))
    case Arr(u, n) => Arr(Everywhere(u, gps, w), FilledCount(n, gps, w))
    case App(base, args) => App(base, EverywhereAll(args, gps, w))
  }

  function EverywhereAll(ts: seq<Type>, gps: seq<string>, w: string): (r: seq<Type>)
    ensures |r| == |ts|
    decreases ts, 0
  {
    if ts == [] then [] else [Everywhere(ts[0], gps, w)] + EverywhereAll(ts[1..], gps, w)
  }

  function FilledCount(n: string, gps: seq<string>, w: string): string {
    var k := WordStart(n);
    if n[k..] in gps then n[..k] + w else n
  }

  lemma FilledCountIsCount(n: string, gps: seq<string>, w: string)
    requires IsCount(n) && Find(n, 0).None? && Fills(w, gps)
    ensures IsCount(FilledCount(n, gps, w)) && Find(FilledCount(n, gps, w), 0).None?
  {
    hide Find;
    var k := WordStart(n);
    assert k > 0;
    if n[k..] in gps { NoUnderscore(n[..k] + w); }
  }

  lemma {:induction false} OutsideProper(t: Type, gps: seq<string>, w: string)
    requires Proper(t) && Fills(w, gps)
    ensures Proper(Outside(t, gps, w))
    decreases t, 1
  {
    hide Find, NoEarlierMarker, IsIdent, IsCount, PlainName, Fills;
    match t
    case Named(_) => FillerIsPlain(w, gps);
    case Ptr(u) => OutsideProper(u, gps, w);
    case Slice(u) => OutsideProper(u, gps, w);
    case Arr(_, _) =>
    case App(_, args) => OutsideAllProper(args, gps, w);
  }

  lemma {:induction false} OutsideAllProper(ts: seq<Type>, gps: seq<string>, w: string)
    requires AllProper(ts) && Fills(w, gps)
    ensures AllProper(OutsideAll(ts, gps, w))
    decreases ts, 0
  {
    hide Proper, Outside;
    if ts != [] {
      OutsideProper(ts[0], gps, w);
      OutsideAllProper(ts[1..], gps, w);
    }
  }

  lemma {:induction false} EverywhereProper(t: Type, gps: seq<string>, w: string)
    requires Proper(t) && Fills(w, gps)
    ensures Proper(Everywhere(t, gps, w))
    decreases t, 1
  {
    hide Find, NoEarlierMarker, IsIdent, IsCount, PlainName, Fills, FilledCount;
    match t
    case Named(_) => FillerIsPlain(w, gps);
    case Ptr(u) => EverywhereProper(u, gps, w);
    case Slice(u) => EverywhereProper(u, gps, w);
    case Arr(u, n) =>
      EverywhereProper(u, gps, w);
      FilledCountIsCount(n, gps, w);
    case App(_, args) => EverywhereAllProper(args, gps, w);
  }

  lemma {:induction false} EverywhereAllProper(ts: seq<Type>, gps: seq<string>, w: string)
    requires AllProper(ts) && Fills(w, gps)
    ensures AllProper(EverywhereAll(ts, gps, w))
    decreases ts, 0
  {
    hide Proper, Everywhere;
    if ts != [] {
      EverywhereProper(ts[0], gps, w);
      EverywhereAllProper(ts[1..], gps, w);
    }
  }

  // ----- binding every parameter to the name fills it in everywhere -----

  function Complete(gps: seq<string>, w: string): Bindings {
    map x | x in gps :: w
  }

  lemma {:induction false} SubstituteEverywhere(t: Type, gps: seq<string>, w: string)
    requires Proper(t) && GoodParameters(gps)
    ensures Substitute(Render(t), Complete(gps, w)) == Render(Everywhere(t, gps, w))
    decreases t, 1
  {
    hide Substitute, Find, Mangle, PlainName, NoEarlierMarker;
    var c := Complete(gps, w);
    match t
    case Named(id) => SubstituteName(id, c);
    case Ptr(u) =>
      SubstituteEverywhere(u, gps, w);
      SubstitutePrefix("*", Render(u), c);
    case Slice(u) =>
      SubstituteEverywhere(u, gps, w);
      SubstitutePrefix("[]", Render(u), c);
    case Arr(u, n) =>
      SubstituteEverywhere(u, gps, w);
      SubstituteArr(Render(u), n, c);
      SubstituteFilled(n, gps, w);
    case App(base, args) =>
      RenderApp(base, args);
      var word := base + Tail(RenderAll(args));
      assert "" + word == word;
      SubstituteApp("", base, RenderAll(args), c);
      SubstituteAllEverywhere(args, gps, w, |word|);
      assert "" + Render(Everywhere(t, gps, w)) == Render(Everywhere(t, gps, w));
  }

  lemma SubstituteFilled(n: string, gps: seq<string>, w: string)
    requires AllIdent(n) && Find(n, 0).None? && GoodParameters(gps)
    ensures Substitute(n, Complete(gps, w)) == FilledCount(n, gps, w)
  {
    hide Substitute, Find, PlainName;
    SubstituteCount(n, Complete(gps, w));
    var k := WordStart(n);
    assert n == n[..k] + n[k..];
    if k == |n| { NotEmpty(gps); }
  }

  lemma NotEmpty(gps: seq<string>)
    requires GoodParameters(gps)
    ensures "" !in gps
  {
  }

  lemma {:induction false} SubstituteAllEverywhere(ts: seq<Type>, gps: seq<string>, w: string, limit: nat)
    requires AllProper(ts) && GoodParameters(gps) && forall x <- RenderAll(ts) :: |x| < limit
    ensures SubstituteAll(RenderAll(ts), Complete(gps, w), limit) == RenderAll(EverywhereAll(ts, gps, w))
    decreases ts, 0
  {
    hide Substitute, Render, Everywhere, Proper, Complete, PlainName;
    if ts != [] {
      SubstituteEverywhere(ts[0], gps, w);
      assert RenderAll(ts)[1..] == RenderAll(ts[1..]);
      var es := EverywhereAll(ts, gps, w);
      assert es[1..] == EverywhereAll(ts[1..], gps, w);
      SubstituteAllEverywhere(ts[1..], gps, w, limit);
    }
  }

  // ----- and makes longer what it changes -----

  lemma {:induction false} HexLength(s: string)
    ensures |Hex(s)| == 2 * |s|
  {
    if s != "" { HexLength(s[1..]); }
  }

  lemma TailLength(args: seq<string>)
    requires args != []
    ensures |Tail(args)| == |MARKER| + 2 * |args[0]| + |Tail(args[1..])|
  {
    HexLength(args[0]);
  }

  /** Filling in makes a type longer exactly where it mentions a parameter. */
  lemma {:induction false} EverywhereGrows(t: Type, gps: seq<string>, w: string)
    requires Proper(t) && Fills(w, gps)
    ensures |Render(Everywhere(t, gps, w))| >= |Render(t)|
    ensures !Avoids(t, gps) ==> |Render(Everywhere(t, gps, w))| > |Render(t)|
    decreases t, 1
  {
    hide Find, Mangle, Tail, NoEarlierMarker, PlainName, IsIdent, IsCount;
    match t
    case Named(_) =>
    case Ptr(u) => EverywhereGrows(u, gps, w);
    case Slice(u) => EverywhereGrows(u, gps, w);
    case Arr(u, n) =>
      EverywhereGrows(u, gps, w);
      assert n[WordStart(n)..] in gps ==> |FilledCount(n, gps, w)| > |n|;
    case App(base, args) =>
      EverywhereProper(t, gps, w);
      RenderApp(base, args);
      RenderApp(base, EverywhereAll(args, gps, w));
      EverywhereAllGrows(args, gps, w);
  }

  lemma {:induction false} EverywhereAllGrows(ts: seq<Type>, gps: seq<string>, w: string)
    requires AllProper(ts) && Fills(w, gps)
    ensures |Tail(RenderAll(EverywhereAll(ts, gps, w)))| >= |Tail(RenderAll(ts))|
    ensures !AllAvoid(ts, gps) ==> |Tail(RenderAll(EverywhereAll(ts, gps, w)))| > |Tail(RenderAll(ts))|
    decreases ts, 0
  {
    hide Render, Tail, Proper, Avoids, Everywhere, Fills;
    if ts != [] {
      EverywhereGrows(ts[0], gps, w);
      EverywhereAllGrows(ts[1..], gps, w);
      FirstLength(ts);
      FirstLength(EverywhereAll(ts, gps, w));
      assert EverywhereAll(ts, gps, w)[1..] == EverywhereAll(ts[1..], gps, w);
    }
  }

  lemma FirstLength(ts: seq<Type>)
    requires ts != []
    ensures |Tail(RenderAll(ts))| == |MARKER| + 2 * |Render(ts[0])| + |Tail(RenderAll(ts[1..]))|
  {
    hide Render, Tail;
    TailLength(RenderAll(ts));
    assert RenderAll(ts)[1..] == RenderAll(ts[1..]);
  }

  /** Compared with filling in outside arrays only, it makes longer the types whose arrays mention a parameter. */
  lemma {:induction false} OutsideIsShorter(t: Type, gps: seq<string>, w: string)
    requires Proper(t) && Fills(w, gps)
    ensures |Render(Outside(t, gps, w))| <= |Render(Everywhere(t, gps, w))|
    ensures !ArraysAvoid(t, gps) ==> |Render(Outside(t, gps, w))| < |Render(Everywhere(t, gps, w))|
    decreases t, 1
  {
    hide Find, Mangle, Tail, NoEarlierMarker, PlainName, IsIdent, IsCount, Avoids, FilledCount;
    match t
    case Named(_) =>
    case Ptr(u) => OutsideIsShorter(u, gps, w);
    case Slice(u) => OutsideIsShorter(u, gps, w);
    case Arr(_, _) => EverywhereGrows(t, gps, w);
    case App(base, args) =>
      EverywhereProper(t, gps, w);
      OutsideProper(t, gps, w);
      RenderApp(base, OutsideAll(args, gps, w));
      RenderApp(base, EverywhereAll(args, gps, w));
      OutsideAllShorter(args, gps, w);
  }

  lemma {:induction false} OutsideAllShorter(ts: seq<Type>, gps: seq<string>, w: string)
    requires AllProper(ts) && Fills(w, gps)
    ensures |Tail(RenderAll(OutsideAll(ts, gps, w)))| <= |Tail(RenderAll(EverywhereAll(ts, gps, w)))|
    ensures !AllArraysAvoid(ts, gps) ==>
      |Tail(RenderAll(OutsideAll(ts, gps, w)))| < |Tail(RenderAll(EverywhereAll(ts, gps, w)))|
    decreases ts, 0
  {
    hide Render, Tail, Proper, ArraysAvoid, Everywhere, Outside, Fills;
    if ts != [] {
      OutsideIsShorter(ts[0], gps, w);
      OutsideAllShorter(ts[1..], gps, w);
      FirstLength(OutsideAll(ts, gps, w));
      FirstLength(EverywhereAll(ts, gps, w));
      assert OutsideAll(ts, gps, w)[1..] == OutsideAll(ts[1..], gps, w);
      assert EverywhereAll(ts, gps, w)[1..] == EverywhereAll(ts[1..], gps, w);
    }
  }

  // ----- filling in outside arrays gives a type that matches -----

  ghost predicate Filled(b: Bindings, gps: seq<string>, w: string) {
    forall x <- b.Keys :: x in gps && b[x] == w
  }

  lemma {:induction false} CoreOutside(t: Type, gps: seq<string>, w: string)
    ensures Core(Outside(t, gps, w)).App? <==> Core(t).App?
  {
    match t
    case Ptr(u) => CoreOutside(u, gps, w);
    case Slice(u) => CoreOutside(u, gps, w);
    case _ =>
  }

  lemma {:induction false} OutsideMatches(t: Type, gps: seq<string>, w: string, b: Bindings)
    requires Filled(b, gps, w)
    ensures var r := MatchType(t, Outside(t, gps, w), gps, b); r.Some? && Filled(r.value, gps, w)
    decreases t, 1
  {
    match t
    case Named(_) =>
    case Ptr(u) =>
      CoreOutside(u, gps, w);
      OutsideMatches(u, gps, w, b);
    case Slice(u) =>
      CoreOutside(u, gps, w);
      OutsideMatches(u, gps, w, b);
    case Arr(_, _) =>
    case App(_, args) => OutsideAllMatch(args, gps, w, b);
  }

  lemma {:induction false} OutsideAllMatch(ts: seq<Type>, gps: seq<string>, w: string, b: Bindings)
    requires Filled(b, gps, w)
    ensures var r := MatchTypes(ts, OutsideAll(ts, gps, w), gps, b); r.Some? && Filled(r.value, gps, w)
    decreases ts, 0
  {
    hide MatchType, Outside, Filled;
    if ts != [] {
      OutsideMatches(ts[0], gps, w, b);
      assert OutsideAll(ts, gps, w)[1..] == OutsideAll(ts[1..], gps, w);
      OutsideAllMatch(ts[1..], gps, w, MatchType(ts[0], Outside(ts[0], gps, w), gps, b).value);
    }
  }

  // ----- one type -----

  /** The match that goes wrong. */
  lemma ArrayGoesWrong(p: Type, gps: seq<string>, w: string)
    requires Proper(p) && GoodParameters(gps) && Fills(w, gps) && !ArraysAvoid(p, gps)
    ensures var a := Outside(p, gps, w);
            && Proper(a) && Bind(Render(p), Render(a), gps, map[]).Some?
            && !Matched(Render(p), Render(a), gps, map[], Bind(Render(p), Render(a), gps, map[]))
  {
    hide Bind, Substitute, Render, Proper, Fills, ArraysAvoid, MatchType, PlainName;
    var a, c := Outside(p, gps, w), Complete(gps, w);
    OutsideProper(p, gps, w);
    BindIsMatch(p, a, gps, map[]);
    OutsideMatches(p, gps, w, map[]);
    var r := MatchType(p, a, gps, map[]).value;
    assert Extends(r, c) && Binds(c, gps);
    SubstituteEverywhere(p, gps, w);
    OutsideIsShorter(p, gps, w);
  }

  /** Matching a type is sound, whatever it is matched with, exactly if no array in it mentions a parameter. */
  lemma BindIsSoundIff(p: Type, gps: seq<string>)
    requires Proper(p) && GoodParameters(gps)
    ensures ArraysAvoid(p, gps) <==>
      forall a, b :: Proper(a) && Binds(b, gps) ==> Matched(Render(p), Render(a), gps, b, Bind(Render(p), Render(a), gps, b))
  {
    hide Bind, Matched, Proper, Render, ArraysAvoid, PlainName;
    if ArraysAvoid(p, gps) {
      forall a, b | Proper(a) && Binds(b, gps) ensures Matched(Render(p), Render(a), gps, b, Bind(Render(p), Render(a), gps, b)) {
        BindSound(p, a, gps, b);
      }
    } else {
      var w := Filler(gps);
      ArrayGoesWrong(p, gps, w);
      assert Proper(Outside(p, gps, w)) && Binds(map[], gps);
    }
  }

  // ----- which parameters a match binds -----

  /** The parameters that stand outside arrays. */
  function Outer(t: Type, gps: seq<string>): set<string>
    decreases t, 1
  {
    match t
    case Named(id) => if id in gps then {id} else {}
    case Ptr(u) => Outer(u, gps)
    case Slice(u) => Outer(u, gps)
    case Arr(_, _) => {}
    case App(_, args) => OuterAll(args, gps)
  }

  function OuterAll(ts: seq<Type>, gps: seq<string>): set<string>
    decreases ts, 0
  {
    if ts == [] then {} else Outer(ts[0], gps) + OuterAll(ts[1..], gps)
  }

  lemma {:induction false} MatchKeys(p: Type, a: Type, gps: seq<string>, b: Bindings)
    ensures var r := MatchType(p, a, gps, b); r.Some? ==> r.value.Keys == b.Keys + Outer(p, gps)
    decreases p, 1
  {
    hide Render, Peels;
    match p
    case Named(_) =>
    case Ptr(u) => if a.Ptr? { MatchKeys(u, a.to, gps, b); }
    case Slice(u) => if a.Slice? { MatchKeys(u, a.of, gps, b); }
    case Arr(_, _) =>
    case App(_, args) => if a.App? && |a.args| == |args| { MatchAllKeys(args, a.args, gps, b); }
  }

  lemma {:induction false} MatchAllKeys(ps: seq<Type>, actuals: seq<Type>, gps: seq<string>, b: Bindings)
    requires |ps| == |actuals|
    ensures var r := MatchTypes(ps, actuals, gps, b); r.Some? ==> r.value.Keys == b.Keys + OuterAll(ps, gps)
    decreases ps, 0
  {
    hide MatchType, Outer;
    if ps != [] {
      MatchKeys(ps[0], actuals[0], gps, b);
      var first := MatchType(ps[0], actuals[0], gps, b);
      if first.Some? { MatchAllKeys(ps[1..], actuals[1..], gps, first.value); }
    }
  }

  // ----- whole declarations -----

  function OuterOf(types: seq<Option<Type>>, gps: seq<string>): set<string> {
    if types == [] then {}
    else (if types[0].Some? then Outer(types[0].value, gps) else {}) + OuterOf(types[1..], gps)
  }

  /** Every parameter stands outside arrays in some annotation; otherwise no call can have it inferred. */
  ghost predicate Inferable(types: seq<Option<Type>>, gps: seq<string>) {
    forall gp <- gps :: gp in OuterOf(types, gps)
  }

  /** If the bindings can be inferred, they turn every annotation into its argument's type. */
  ghost predicate SoundCall(annotations: seq<Annotation>, args: seq<string>, gps: seq<string>) {
    var r := Inferred(annotations, args, gps);
    r.Some? ==> forall i :: 0 <= i < |annotations| && i < |args| && annotations[i].Some? ==> Substitute(annotations[i].value, r.value) == args[i]
  }

  lemma {:induction false} CallKeys(annotations: seq<Annotation>, types: seq<Option<Type>>, args: seq<string>, actuals: seq<Type>,
                                    gps: seq<string>, b: Bindings)
    requires GoodParameters(gps) && Annotated(annotations, types) && Arguments(args, actuals)
    ensures var r := BindCall(annotations, args, gps, b); r.Some? ==> r.value.Keys <= b.Keys + OuterOf(types, gps)
    decreases |annotations|
  {
    hide Bind, Render, Proper, MatchType, Outer, PlainName;
    if annotations != [] && args != [] {
      assert Annotated(annotations[1..], types[1..]) && Arguments(args[1..], actuals[1..]);
      if annotations[0].None? {
        CallKeys(annotations[1..], types[1..], args[1..], actuals[1..], gps, b);
      } else {
        BindIsMatch(types[0].value, actuals[0], gps, b);
        MatchKeys(types[0].value, actuals[0], gps, b);
        var first := Bind(annotations[0].value, args[0], gps, b);
        if first.Some? { CallKeys(annotations[1..], types[1..], args[1..], actuals[1..], gps, first.value); }
      }
    }
  }

  /** Arguments that match every annotation. */
  function OutsideArguments(types: seq<Option<Type>>, gps: seq<string>, w: string): (r: seq<Type>)
    ensures |r| == |types|
  {
    if types == [] then []
    else [if types[0].Some? then Outside(types[0].value, gps, w) else Named(w)] + OutsideArguments(types[1..], gps, w)
  }

  lemma {:induction false} OutsideArgumentAt(types: seq<Option<Type>>, gps: seq<string>, w: string, i: nat)
    requires i < |types|
    ensures OutsideArguments(types, gps, w)[i] == if types[i].Some? then Outside(types[i].value, gps, w) else Named(w)
  {
    if i > 0 { OutsideArgumentAt(types[1..], gps, w, i - 1); }
  }

  lemma OutsideArgumentsAre(annotations: seq<Annotation>, types: seq<Option<Type>>, gps: seq<string>, w: string)
    requires Annotated(annotations, types) && Fills(w, gps)
    ensures Arguments(RenderAll(OutsideArguments(types, gps, w)), OutsideArguments(types, gps, w))
  {
    hide Proper, Render, Outside, Fills;
    var actuals := OutsideArguments(types, gps, w);
    forall i | 0 <= i < |actuals| ensures Proper(actuals[i]) && RenderAll(actuals)[i] == Render(actuals[i]) {
      OutsideArgumentAt(types, gps, w, i);
      RenderedAt(actuals, i);
      if types[i].Some? { OutsideProper(types[i].value, gps, w); } else { ProperName(w, gps); }
    }
  }

  lemma ProperName(w: string, gps: seq<string>)
    requires Fills(w, gps)
    ensures Proper(Named(w))
  {
    FillerIsPlain(w, gps);
  }

  lemma {:induction false} RenderedAt(ts: seq<Type>, i: nat)
    requires i < |ts|
    ensures RenderAll(ts)[i] == Render(ts[i])
  {
    hide Render;
    if i > 0 { RenderedAt(ts[1..], i - 1); }
  }

  lemma {:induction false} OutsideCall(annotations: seq<Annotation>, types: seq<Option<Type>>, gps: seq<string>, w: string, b: Bindings)
    requires GoodParameters(gps) && Annotated(annotations, types) && Fills(w, gps) && Filled(b, gps, w)
    ensures var r := BindCall(annotations, RenderAll(OutsideArguments(types, gps, w)), gps, b);
            r.Some? && Filled(r.value, gps, w) && r.value.Keys == b.Keys + OuterOf(types, gps)
    decreases |annotations|
  {
    hide Bind, Render, Proper, MatchType, Outer, Outside, Fills, Filled, PlainName;
    if annotations != [] {
      var actuals := OutsideArguments(types, gps, w);
      assert Annotated(annotations[1..], types[1..]);
      assert actuals[1..] == OutsideArguments(types[1..], gps, w) && RenderAll(actuals)[1..] == RenderAll(actuals[1..]);
      if annotations[0].None? {
        OutsideCall(annotations[1..], types[1..], gps, w, b);
      } else {
        var t := types[0].value;
        OutsideProper(t, gps, w);
        BindIsMatch(t, actuals[0], gps, b);
        OutsideMatches(t, gps, w, b);
        MatchKeys(t, actuals[0], gps, b);
        OutsideCall(annotations[1..], types[1..], gps, w, MatchType(t, actuals[0], gps, b).value);
      }
    }
  }

  lemma AllFilled(r: Bindings, gps: seq<string>, w: string)
    requires Filled(r, gps, w) && forall gp <- gps :: gp in r
    ensures r == Complete(gps, w)
  {
  }

  /** The call that goes wrong. */
  lemma CallGoesWrong(annotations: seq<Annotation>, types: seq<Option<Type>>, gps: seq<string>, w: string, i: nat)
    requires GoodParameters(gps) && Annotated(annotations, types) && Inferable(types, gps) && Fills(w, gps)
    requires i < |types| && types[i].Some? && !ArraysAvoid(types[i].value, gps)
    ensures !SoundCall(annotations, RenderAll(OutsideArguments(types, gps, w)), gps)
  {
    hide BindCall, Substitute, Render, Proper, Outside, OutsideArguments, Outer, OuterOf, Fills, ArraysAvoid, PlainName, Everywhere, Complete;
    var actuals := OutsideArguments(types, gps, w);
    var args := RenderAll(actuals);
    OutsideCall(annotations, types, gps, w, map[]);
    var r := BindCall(annotations, args, gps, map[]).value;
    AllFilled(r, gps, w);
    OutsideArgumentAt(types, gps, w, i);
    RenderedAt(actuals, i);
    SubstituteEverywhere(types[i].value, gps, w);
    OutsideIsShorter(types[i].value, gps, w);
    assert Substitute(annotations[i].value, r) != args[i];
  }

  /**
   A declaration is sound for all calls exactly if no array in its annotations mentions a parameter, or if some
   parameter stands in no annotation outside arrays, so that it can never be inferred.
   */
  lemma DeclarationIsSoundIff(annotations: seq<Annotation>, types: seq<Option<Type>>, gps: seq<string>)
    requires GoodParameters(gps) && Annotated(annotations, types)
    ensures SafeAnnotations(types, gps) || !Inferable(types, gps) <==>
      forall args, actuals :: Arguments(args, actuals) ==> SoundCall(annotations, args, gps)
  {
    hide BindCall, Substitute, Render, Proper, ArraysAvoid, PlainName, OuterOf, Arguments, GoodParameters;
    if SafeAnnotations(types, gps) || !Inferable(types, gps) {
      forall args, actuals | Arguments(args, actuals) ensures SoundCall(annotations, args, gps) {
        if SafeAnnotations(types, gps) {
          SafeCall(annotations, types, args, actuals, gps);
        } else {
          CallKeys(annotations, types, args, actuals, gps, map[]);
        }
      }
    } else {
      var i :| 0 <= i < |types| && types[i].Some? && !ArraysAvoid(types[i].value, gps);
      var w := Filler(gps);
      CallGoesWrong(annotations, types, gps, w, i);
      OutsideArgumentsAre(annotations, types, gps, w);
    }
  }

  lemma SafeCall(annotations: seq<Annotation>, types: seq<Option<Type>>, args: seq<string>, actuals: seq<Type>, gps: seq<string>)
    requires GoodParameters(gps) && Annotated(annotations, types) && SafeAnnotations(types, gps) && Arguments(args, actuals)
    ensures SoundCall(annotations, args, gps)
  {
    hide BindCall, Substitute, Annotated, Arguments, GoodParameters, SafeAnnotations;
    if Inferred(annotations, args, gps).Some? {
      forall i | 0 <= i < |annotations| && i < |args| && annotations[i].Some?
        ensures Substitute(annotations[i].value, Inferred(annotations, args, gps).value) == args[i]
      {
        GenericCallIsSound(annotations, types, args, actuals, gps, i);
      }
    }
  }
}
