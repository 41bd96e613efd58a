/**
 Exactly which declarations accept all their instances: no array type mentions a parameter, and no parameter stands
 below two pointers or slices.

 The other declarations refuse some call whose arguments are the annotated types with every parameter replaced.
 */
module GenericInstances {
  import opened Basics
  import opened Generics
  import opened GenericMatching
  import opened GenericBinding
  import opened GenericCalls
  import opened GenericExactness

  /** A proper type for every parameter. */
  ghost predicate Chooses(c: map<string, Type>, gps: seq<string>) {
    (forall x :: x in c.Keys <==> x in gps) && forall x <- c.Keys :: Proper(c[x])
  }

  /** The type with every parameter replaced. */
  function Instance(t: Type, c: map<string, Type>): Type
    decreases t, 1
  {
    match t
    case Named(id) => if id in c then c[id] else t
    case Ptr(u) => Ptr(Instance(u, c))
    case Slice(u) => Slice(Instance(u, c))
    case Arr(u, n) => Arr(Instance(u, c), InstanceCount(n, c))
    case App(base, args) => App(base, InstanceAll(args, c))
  }

  function InstanceAll(ts: seq<Type>, c: map<string, Type>): (r: seq<Type>)
    ensures |r| == |ts|
    decreases ts, 0
  {
    if ts == [] then [] else [Instance(ts[0], c)] + InstanceAll(ts[1..], c)
  }

  function InstanceCount(n: string, c: map<string, Type>): string {
    var k := WordStart(n);
    if n[k..] in c then n[..k] + Render(c[n[k..]]) else n
  }

  /** Not a parameter below a further pointer or slice. */
  predicate Near(u: Type, gps: seq<string>) {
    IsParameter(u, gps) || !IsParameter(Core(u), gps)
  }

  /** No array mentions a parameter, and no parameter stands below two pointers or slices. */
  predicate Follows(t: Type, gps: seq<string>) {
    match t
    case Named(_) => true
    case Ptr(u) => Near(u, gps) && Follows(u, gps)
    case Slice(u) => Near(u, gps) && Follows(u, gps)
    case Arr(_, _) => Avoids(t, gps)
    case App(_, args) => AllFollow(args, gps)
  }

  predicate AllFollow(ts: seq<Type>, gps: seq<string>) {
    ts == [] || (Follows(ts[0], gps) && AllFollow(ts[1..], gps))
  }

  // ----- a type that follows matches its instances -----

  /** The bindings are some of the choices. */
  ghost predicate Agrees(b: Bindings, c: map<string, Type>) {
    forall x <- b.Keys :: x in c && b[x] == Render(c[x])
  }

  lemma {:induction false} KeptInstance(t: Type, gps: seq<string>, c: map<string, Type>)
    requires Avoids(t, gps) && Chooses(c, gps)
    ensures Instance(t, c) == t
    decreases t, 1
  {
    match t
    case Named(_) =>
    case Ptr(u) => KeptInstance(u, gps, c);
    case Slice(u) => KeptInstance(u, gps, c);
    case Arr(u, n) => KeptInstance(u, gps, c);
    case App(_, args) => KeptInstances(args, gps, c);
  }

  lemma {:induction false} KeptInstances(ts: seq<Type>, gps: seq<string>, c: map<string, Type>)
    requires AllAvoid(ts, gps) && Chooses(c, gps)
    ensures InstanceAll(ts, c) == ts
    decreases ts, 0
  {
    if ts != [] {
      KeptInstance(ts[0], gps, c);
      KeptInstances(ts[1..], gps, c);
    }
  }

  lemma {:induction false} CoreInstance(t: Type, gps: seq<string>, c: map<string, Type>)
    requires Chooses(c, gps)
    ensures Core(Instance(t, c)) == if IsParameter(Core(t), gps) then Core(c[Core(t).id]) else Instance(Core(t), c)
  {
    match t
    case Ptr(u) => CoreInstance(u, gps, c);
    case Slice(u) => CoreInstance(u, gps, c);
    case _ =>
  }

  lemma NearPeels(u: Type, gps: seq<string>, c: map<string, Type>)
    requires Chooses(c, gps) && Near(u, gps)
    ensures Peels(u, Instance(u, c), gps)
  {
    CoreInstance(u, gps, c);
  }

  lemma {:induction false} FollowsMatches(p: Type, gps: seq<string>, c: map<string, Type>, b: Bindings)
    requires Follows(p, gps) && Chooses(c, gps) && Agrees(b, c)
    ensures var r := MatchType(p, Instance(p, c), gps, b); r.Some? && Agrees(r.value, c)
    decreases p, 1
  {
    hide Render, Peels, Near, Avoids, Proper;
    match p
    case Named(_) =>
    case Ptr(u) =>
      NearPeels(u, gps, c);
      FollowsMatches(u, gps, c, b);
    case Slice(u) =>
      NearPeels(u, gps, c);
      FollowsMatches(u, gps, c, b);
    case Arr(_, _) => KeptInstance(p, gps, c);
    case App(_, args) => AllFollowMatch(args, gps, c, b);
  }

  lemma {:induction false} AllFollowMatch(ts: seq<Type>, gps: seq<string>, c: map<string, Type>, b: Bindings)
    requires AllFollow(ts, gps) && Chooses(c, gps) && Agrees(b, c)
    ensures var r := MatchTypes(ts, InstanceAll(ts, c), gps, b); r.Some? && Agrees(r.value, c)
    decreases ts, 0
  {
    hide MatchType, Instance, Agrees, Follows, Chooses;
    if ts != [] {
      FollowsMatches(ts[0], gps, c, b);
      assert InstanceAll(ts, c)[1..] == InstanceAll(ts[1..], c);
      AllFollowMatch(ts[1..], gps, c, MatchType(ts[0], Instance(ts[0], c), gps, b).value);
    }
  }

  // ----- any other type refuses one of them -----

  /** An array that mentions a parameter is not equal to its instance. */
  lemma {:induction false} ArrayRefuses(p: Type, gps: seq<string>, w: string, b: Bindings)
    requires Proper(p) && Fills(w, gps) && !ArraysAvoid(p, gps)
    ensures MatchType(p, Everywhere(p, gps, w), gps, b).None?
    decreases p, 1
  {
    hide Find, NoEarlierMarker, PlainName, IsIdent, IsCount, Avoids, Render, Peels, Fills, FilledCount;
    match p
    case Named(_) =>
    case Ptr(u) => ArrayRefuses(u, gps, w, b);
    case Slice(u) => ArrayRefuses(u, gps, w, b);
    case Arr(_, _) => EverywhereGrows(p, gps, w);
    case App(_, args) => SomeArrayRefuses(args, gps, w, b);
  }

  lemma {:induction false} SomeArrayRefuses(ts: seq<Type>, gps: seq<string>, w: string, b: Bindings)
    requires AllProper(ts) && Fills(w, gps) && !AllArraysAvoid(ts, gps)
    ensures MatchTypes(ts, EverywhereAll(ts, gps, w), gps, b).None?
    decreases ts, 0
  {
    hide MatchType, Everywhere, ArraysAvoid, Proper, Fills;
    assert EverywhereAll(ts, gps, w)[1..] == EverywhereAll(ts[1..], gps, w);
    var first := MatchType(ts[0], Everywhere(ts[0], gps, w), gps, b);
    if !ArraysAvoid(ts[0], gps) {
      ArrayRefuses(ts[0], gps, w, b);
    } else if first.Some? {
      SomeArrayRefuses(ts[1..], gps, w, first.value);
    }
  }

  /** A parameter below two pointers or slices does not become an application. */
  lemma {:induction false} DepthRefuses(p: Type, gps: seq<string>, c: map<string, Type>, b: Bindings)
    requires ArraysAvoid(p, gps) && !Follows(p, gps) && Chooses(c, gps) && forall x <- c.Keys :: c[x].App?
    ensures MatchType(p, Instance(p, c), gps, b).None?
    decreases p, 1
  {
    hide Render, Avoids, Proper;
    match p
    case Named(_) =>
    case Ptr(u) => if Follows(u, gps) { CoreInstance(u, gps, c); } else { DepthRefuses(u, gps, c, b); }
    case Slice(u) => if Follows(u, gps) { CoreInstance(u, gps, c); } else { DepthRefuses(u, gps, c, b); }
    case Arr(_, _) =>
    case App(_, args) => SomeDepthRefuses(args, gps, c, b);
  }

  lemma {:induction false} SomeDepthRefuses(ts: seq<Type>, gps: seq<string>, c: map<string, Type>, b: Bindings)
    requires AllArraysAvoid(ts, gps) && !AllFollow(ts, gps) && Chooses(c, gps) && forall x <- c.Keys :: c[x].App?
    ensures MatchTypes(ts, InstanceAll(ts, c), gps, b).None?
    decreases ts, 0
  {
    hide MatchType, Instance, ArraysAvoid, Follows, Chooses;
    assert InstanceAll(ts, c)[1..] == InstanceAll(ts[1..], c);
    var first := MatchType(ts[0], Instance(ts[0], c), gps, b);
    if !Follows(ts[0], gps) {
      DepthRefuses(ts[0], gps, c, b);
    } else if first.Some? {
      SomeDepthRefuses(ts[1..], gps, c, first.value);
    }
  }

  // ----- the two choices -----

  function Names(gps: seq<string>, w: string): map<string, Type> {
    map x | x in gps :: Named(w)
  }

  function Applications(gps: seq<string>): map<string, Type> {
    map x | x in gps :: App("x", [Named("x")])
  }

  lemma NamesChoose(gps: seq<string>, w: string)
    requires Fills(w, gps)
    ensures Chooses(Names(gps, w), gps)
  {
    FillerIsPlain(w, gps);
  }

  lemma ApplicationsChoose(gps: seq<string>)
    ensures Chooses(Applications(gps), gps) && forall x <- Applications(gps).Keys :: Applications(gps)[x].App?
  {
    FillerIsPlain("x", []);
    assert ("x" + MARKER)[1..] == MARKER && ("x" + MARKER)[0] == 'x';
    assert Find("x" + MARKER, 0) == Some(1);
    assert Proper(App("x", [Named("x")]));
  }

  lemma {:induction false} InstanceIsEverywhere(t: Type, gps: seq<string>, w: string)
    ensures Instance(t, Names(gps, w)) == Everywhere(t, gps, w)
    decreases t, 1
  {
    match t
    case Named(_) =>
    case Ptr(u) => InstanceIsEverywhere(u, gps, w);
    case Slice(u) => InstanceIsEverywhere(u, gps, w);
    case Arr(u, _) => InstanceIsEverywhere(u, gps, w);
    case App(_, args) => InstancesAreEverywhere(args, gps, w);
  }

  lemma {:induction false} InstancesAreEverywhere(ts: seq<Type>, gps: seq<string>, w: string)
    ensures InstanceAll(ts, Names(gps, w)) == EverywhereAll(ts, gps, w)
    decreases ts, 0
  {
    hide Instance, Everywhere;
    if ts != [] {
      InstanceIsEverywhere(ts[0], gps, w);
      InstancesAreEverywhere(ts[1..], gps, w);
    }
  }

  lemma {:induction false} InstanceProper(t: Type, gps: seq<string>, c: map<string, Type>)
    requires Proper(t) && ArraysAvoid(t, gps) && Chooses(c, gps)
    ensures Proper(Instance(t, c))
    decreases t, 1
  {
    hide Find, NoEarlierMarker, IsIdent, IsCount, PlainName, Avoids;
    match t
    case Named(_) =>
    case Ptr(u) => InstanceProper(u, gps, c);
    case Slice(u) => InstanceProper(u, gps, c);
    case Arr(_, _) => KeptInstance(t, gps, c);
    case App(_, args) => InstanceAllProper(args, gps, c);
  }

  lemma {:induction false} InstanceAllProper(ts: seq<Type>, gps: seq<string>, c: map<string, Type>)
    requires AllProper(ts) && AllArraysAvoid(ts, gps) && Chooses(c, gps)
    ensures AllProper(InstanceAll(ts, c))
    decreases ts, 0
  {
    hide Proper, Instance, ArraysAvoid, Chooses;
    if ts != [] {
      InstanceProper(ts[0], gps, c);
      InstanceAllProper(ts[1..], gps, c);
    }
  }

  lemma {:induction false} FollowsAvoids(t: Type, gps: seq<string>)
    requires Follows(t, gps)
    ensures ArraysAvoid(t, gps)
    decreases t, 1
  {
    match t
    case Ptr(u) => FollowsAvoids(u, gps);
    case Slice(u) => FollowsAvoids(u, gps);
    case App(_, args) => AllFollowAvoid(args, gps);
    case _ =>
  }

  lemma {:induction false} AllFollowAvoid(ts: seq<Type>, gps: seq<string>)
    requires AllFollow(ts, gps)
    ensures AllArraysAvoid(ts, gps)
    decreases ts, 0
  {
    if ts != [] {
      FollowsAvoids(ts[0], gps);
      AllFollowAvoid(ts[1..], gps);
    }
  }

  // ----- whole declarations -----

  /** A call whose arguments are instances of the annotated types; the other arguments are any types. */
  ghost predicate InstanceCall(types: seq<Option<Type>>, args: seq<string>, actuals: seq<Type>, c: map<string, Type>) {
    |types| == |actuals| && Arguments(args, actuals)
    && forall i :: 0 <= i < |types| && types[i].Some? ==> actuals[i] == Instance(types[i].value, c)
  }

  ghost predicate FollowsAll(types: seq<Option<Type>>, gps: seq<string>) {
    forall i :: 0 <= i < |types| && types[i].Some? ==> Follows(types[i].value, gps)
  }

  function Rendered(c: map<string, Type>): Bindings {
    map x | x in c :: Render(c[x])
  }

  lemma {:induction false} FollowsCall(annotations: seq<Annotation>, types: seq<Option<Type>>, args: seq<string>, actuals: seq<Type>,
                                       gps: seq<string>, c: map<string, Type>, b: Bindings)
    requires GoodParameters(gps) && Annotated(annotations, types) && FollowsAll(types, gps)
    requires Chooses(c, gps) && InstanceCall(types, args, actuals, c) && Agrees(b, c)
    ensures var r := BindCall(annotations, args, gps, b);
            r.Some? && Agrees(r.value, c) && r.value.Keys == b.Keys + OuterOf(types, gps)
    decreases |annotations|
  {
    hide Bind, Render, Proper, MatchType, Outer, Instance, Agrees, Chooses, Follows, PlainName;
    if annotations != [] {
      assert Annotated(annotations[1..], types[1..]) && InstanceCall(types[1..], args[1..], actuals[1..], c);
      if annotations[0].None? {
        FollowsCall(annotations[1..], types[1..], args[1..], actuals[1..], gps, c, b);
      } else {
        var t := types[0].value;
        BindIsMatch(t, actuals[0], gps, b);
        FollowsMatches(t, gps, c, b);
        MatchKeys(t, actuals[0], gps, b);
        FollowsCall(annotations[1..], types[1..], args[1..], actuals[1..], gps, c, MatchType(t, actuals[0], gps, b).value);
      }
    }
  }

  lemma AllAgree(r: Bindings, c: map<string, Type>, gps: seq<string>)
    requires Chooses(c, gps) && Agrees(r, c) && forall gp <- gps :: gp in r
    ensures r == Rendered(c)
  {
  }

  /** A call with instances of the annotated types infers exactly the types chosen. */
  lemma InstanceIsInferred(annotations: seq<Annotation>, types: seq<Option<Type>>, args: seq<string>, actuals: seq<Type>,
                           gps: seq<string>, c: map<string, Type>)
    requires GoodParameters(gps) && Annotated(annotations, types) && FollowsAll(types, gps) && Inferable(types, gps)
    requires Chooses(c, gps) && InstanceCall(types, args, actuals, c)
    ensures Inferred(annotations, args, gps) == Some(Rendered(c))
  {
    hide BindCall, Render, Proper, Outer, OuterOf, Instance, Agrees, Chooses, Follows, PlainName, Rendered;
    assert Agrees(map[], c) by { NothingAgrees(c); }
    FollowsCall(annotations, types, args, actuals, gps, c, map[]);
    AllAgree(BindCall(annotations, args, gps, map[]).value, c, gps);
  }

  lemma NothingAgrees(c: map<string, Type>)
    ensures Agrees(map[], c)
  {
  }

  /** One refused argument refuses the call. */
  lemma {:induction false} CallRefused(annotations: seq<Annotation>, args: seq<string>, gps: seq<string>, b: Bindings, i: nat)
    requires i < |annotations| && i < |args| && annotations[i].Some?
    requires forall d :: Bind(annotations[i].value, args[i], gps, d).None?
    ensures BindCall(annotations, args, gps, b).None?
    decreases |annotations|
  {
    hide Bind;
    if i > 0 {
      var first := if annotations[0].Some? then Bind(annotations[0].value, args[0], gps, b) else Some(b);
      if first.Some? { CallRefused(annotations[1..], args[1..], gps, first.value, i - 1); }
    }
  }

  function InstanceArguments(types: seq<Option<Type>>, c: map<string, Type>): (r: seq<Type>)
    ensures |r| == |types|
  {
    seq(|types|, i requires 0 <= i < |types| => if types[i].Some? then Instance(types[i].value, c) else Named("x"))
  }

  lemma ArgumentsAreInstances(types: seq<Option<Type>>, c: map<string, Type>)
    requires forall i :: 0 <= i < |types| && types[i].Some? ==> Proper(Instance(types[i].value, c))
    ensures InstanceCall(types, RenderAll(InstanceArguments(types, c)), InstanceArguments(types, c), c)
  {
    hide Render, Instance;
    var actuals := InstanceArguments(types, c);
    FillerIsPlain("x", []);
    forall i | 0 <= i < |actuals| ensures Proper(actuals[i]) && RenderAll(actuals)[i] == Render(actuals[i]) { RenderedAt(actuals, i); }
  }

  /** The call that is refused, where an array mentions a parameter. */
  lemma ArrayRefusesCall(annotations: seq<Annotation>, types: seq<Option<Type>>, gps: seq<string>, w: string, i: nat)
    requires GoodParameters(gps) && Annotated(annotations, types) && Fills(w, gps)
    requires i < |types| && types[i].Some? && !ArraysAvoid(types[i].value, gps)
    ensures var actuals := InstanceArguments(types, Names(gps, w));
            InstanceCall(types, RenderAll(actuals), actuals, Names(gps, w)) && Inferred(annotations, RenderAll(actuals), gps).None?
  {
    hide Bind, BindCall, Render, Proper, Instance, MatchType, ArraysAvoid, PlainName, Fills, Everywhere, Names;
    var c := Names(gps, w);
    NamesCall(types, annotations, gps, w);
    var t, actuals := types[i].value, InstanceArguments(types, c);
    RenderedAt(actuals, i);
    InstanceIsEverywhere(t, gps, w);
    forall d ensures Bind(annotations[i].value, RenderAll(actuals)[i], gps, d).None? {
      BindIsMatch(t, actuals[i], gps, d);
      ArrayRefuses(t, gps, w, d);
    }
    CallRefused(annotations, RenderAll(actuals), gps, map[], i);
  }

  lemma NamesCall(types: seq<Option<Type>>, annotations: seq<Annotation>, gps: seq<string>, w: string)
    requires Annotated(annotations, types) && Fills(w, gps)
    ensures var actuals := InstanceArguments(types, Names(gps, w)); InstanceCall(types, RenderAll(actuals), actuals, Names(gps, w))
  {
    hide Proper, Instance, Fills, Names, Everywhere;
    forall i | 0 <= i < |types| && types[i].Some? ensures Proper(Instance(types[i].value, Names(gps, w))) {
      InstanceIsEverywhere(types[i].value, gps, w);
      EverywhereProper(types[i].value, gps, w);
    }
    ArgumentsAreInstances(types, Names(gps, w));
  }

  /** The call that is refused, where a parameter stands below two pointers or slices. */
  lemma DepthRefusesCall(annotations: seq<Annotation>, types: seq<Option<Type>>, gps: seq<string>, i: nat)
    requires GoodParameters(gps) && Annotated(annotations, types) && SafeAnnotations(types, gps)
    requires i < |types| && types[i].Some? && !Follows(types[i].value, gps)
    ensures var actuals := InstanceArguments(types, Applications(gps));
            InstanceCall(types, RenderAll(actuals), actuals, Applications(gps)) && Inferred(annotations, RenderAll(actuals), gps).None?
  {
    hide Bind, BindCall, Render, Proper, Instance, MatchType, ArraysAvoid, PlainName, Chooses, Applications, Follows;
    var c := Applications(gps);
    ApplicationsChoose(gps);
    forall j | 0 <= j < |types| && types[j].Some? ensures Proper(Instance(types[j].value, c)) { InstanceProper(types[j].value, gps, c); }
    ArgumentsAreInstances(types, c);
    var t, actuals := types[i].value, InstanceArguments(types, c);
    RenderedAt(actuals, i);
    forall d ensures Bind(annotations[i].value, RenderAll(actuals)[i], gps, d).None? {
      BindIsMatch(t, actuals[i], gps, d);
      DepthRefuses(t, gps, c, d);
    }
    CallRefused(annotations, RenderAll(actuals), gps, map[], i);
  }

  /**
   A declaration infers every instance of itself exactly if its annotations mention every parameter outside arrays and
   none inside, and none below two pointers or slices.
   */
  lemma InfersInstancesIff(annotations: seq<Annotation>, types: seq<Option<Type>>, gps: seq<string>)
    requires GoodParameters(gps) && Annotated(annotations, types)
    ensures FollowsAll(types, gps) && Inferable(types, gps) <==>
      forall c, args, actuals :: Chooses(c, gps) && InstanceCall(types, args, actuals, c) ==> Inferred(annotations, args, gps) == Some(Rendered(c))
  {
    hide BindCall, Render, Proper, ArraysAvoid, Follows, PlainName, OuterOf, Chooses, InstanceCall, GoodParameters, Rendered, Annotated;
    if FollowsAll(types, gps) && Inferable(types, gps) {
      forall c, args, actuals | Chooses(c, gps) && InstanceCall(types, args, actuals, c)
        ensures Inferred(annotations, args, gps) == Some(Rendered(c))
      {
        InstanceIsInferred(annotations, types, args, actuals, gps, c);
      }
    } else {
      SomeInstanceRefused(annotations, types, gps, Filler(gps));
    }
  }

  lemma SomeInstanceRefused(annotations: seq<Annotation>, types: seq<Option<Type>>, gps: seq<string>, w: string)
    requires GoodParameters(gps) && Annotated(annotations, types) && Fills(w, gps)
    requires !FollowsAll(types, gps) || !Inferable(types, gps)
    ensures exists c, args, actuals :: Chooses(c, gps) && InstanceCall(types, args, actuals, c) && Inferred(annotations, args, gps).None?
  {
    hide BindCall, Render, Proper, ArraysAvoid, Follows, PlainName, OuterOf, Chooses, InstanceCall, GoodParameters, Annotated, Fills;
    NamesChoose(gps, w);
    ApplicationsChoose(gps);
    if !SafeAnnotations(types, gps) {
      var i :| 0 <= i < |types| && types[i].Some? && !ArraysAvoid(types[i].value, gps);
      ArrayRefusesCall(annotations, types, gps, w, i);
    } else if !FollowsAll(types, gps) {
      var i :| 0 <= i < |types| && types[i].Some? && !Follows(types[i].value, gps);
      DepthRefusesCall(annotations, types, gps, i);
    } else {
      NamesCall(types, annotations, gps, w);
      var actuals := InstanceArguments(types, Names(gps, w));
      NotInferable(annotations, types, RenderAll(actuals), actuals, gps, Names(gps, w));
    }
  }

  lemma NotInferable(annotations: seq<Annotation>, types: seq<Option<Type>>, args: seq<string>, actuals: seq<Type>, gps: seq<string>,
                     c: map<string, Type>)
    requires GoodParameters(gps) && Annotated(annotations, types) && InstanceCall(types, args, actuals, c) && !Inferable(types, gps)
    ensures Inferred(annotations, args, gps).None?
  {
    hide BindCall, OuterOf, GoodParameters, Annotated;
    CallKeys(annotations, types, args, actuals, gps, map[]);
  }

  /** With the parameter `T`, the annotation `**T` refuses a pointer to a pointer to an application. */
  lemma PointerToPointerIsRefused()
    ensures Bind("**T", "**" + Mangle("Box", ["int"]), ["T"], map[]).None?
    ensures Bind("*T", "*" + Mangle("Box", ["int"]), ["T"], map[]) == Some(map["T" := Mangle("Box", ["int"])])
  {
    hide Bind, Mangle, Find, PlainName;
    PlainBox();
    var t, box := Named("T"), App("Box", [Named("int")]);
    assert RenderAll([Named("int")]) == ["int"];
    BindIsMatch(Ptr(t), Ptr(box), ["T"], map[]);
    BindIsMatch(Ptr(Ptr(t)), Ptr(Ptr(box)), ["T"], map[]);
    assert Render(Ptr(t)) == "*T" && Render(Ptr(Ptr(t))) == "**T";
    assert Render(Ptr(box)) == "*" + Mangle("Box", ["int"]) && Render(Ptr(Ptr(box))) == "**" + Mangle("Box", ["int"]);
  }

  lemma PlainBox()
    ensures PlainName("T") && PlainName("int") && IsIdent("Box") && NoEarlierMarker("Box")
  {
    NoUnderscore("T");
    NoUnderscore("int");
    var s := "Box" + MARKER;
    assert s[3..] == MARKER && s[0] == 'B' && s[1] == 'o' && s[2] == 'x';
    assert Find(s, 3) == Some(3);
    FindPast(s, 0, 3);
  }
}
