/** What a successful match of a call's types says about them. */
module GenericCalls {
  import opened Basics
  import opened Hexadecimal
  import opened Generics
  import opened GenericMatching
  import opened GenericBinding

  ghost predicate Extends(b: Bindings, c: Bindings) {
    forall x <- b.Keys :: x in c && c[x] == b[x]
  }

  ghost predicate Binds(b: Bindings, gps: seq<string>) {
    forall x <- b.Keys :: x in gps
  }

  /** Every completion of the bindings makes the pattern the actual type. */
  ghost predicate Becomes(pattern: string, actual: string, b: Bindings, gps: seq<string>) {
    forall c :: Extends(b, c) && Binds(c, gps) ==> Substitute(pattern, c) == actual
  }

  /** What a match guarantees: more bindings of the same parameters, and the pattern settled. */
  ghost predicate Matched(pattern: string, actual: string, gps: seq<string>, b: Bindings, r: Option<Bindings>) {
    r.Some? ==> Extends(b, r.value) && Binds(r.value, gps) && Becomes(pattern, actual, r.value, gps)
  }

  // ----- matching one parameter -----

  lemma BoundName(id: string, actual: string, gps: seq<string>, b: Bindings)
    requires PlainName(id) && id in gps && Binds(b, gps)
    ensures Matched(id, actual, gps, b, BindName(id, actual, b))
  {
    hide Substitute;
    var r := BindName(id, actual, b);
    if r.Some? {
      forall c | Extends(r.value, c) && Binds(c, gps) ensures Substitute(id, c) == actual {
        SubstituteName(id, c);
        assert id in r.value.Keys;
      }
    }
  }

  lemma WrappedBecomes(wrap: string, pattern: string, actual: string, b: Bindings, gps: seq<string>)
    requires (wrap == "*" || wrap == "[]") && Becomes(pattern, actual, b, gps)
    ensures Becomes(wrap + pattern, wrap + actual, b, gps)
  {
    hide Substitute;
    forall c | Extends(b, c) && Binds(c, gps) ensures Substitute(wrap + pattern, c) == wrap + actual {
      SubstitutePrefix(wrap, pattern, c);
    }
  }

  /** A type without parameters is settled by what is equal to it. */
  lemma EqualSound(p: Type, a: Type, gps: seq<string>, b: Bindings)
    requires Proper(p) && Avoids(p, gps) && Binds(b, gps) && Render(p) == Render(a)
    ensures Matched(Render(p), Render(a), gps, b, Some(b))
  {
    hide Substitute;
    forall c | Extends(b, c) && Binds(c, gps) ensures Substitute(Render(p), c) == Render(a) { KeptType(p, gps, c); }
  }

  lemma MatchedWrapped(wrap: string, pattern: string, actual: string, gps: seq<string>, b: Bindings, r: Option<Bindings>)
    requires (wrap == "*" || wrap == "[]") && Matched(pattern, actual, gps, b, r)
    ensures Matched(wrap + pattern, wrap + actual, gps, b, r)
  {
    hide Becomes;
    if r.Some? { WrappedBecomes(wrap, pattern, actual, r.value, gps); }
  }

  /** A successful match settles the pattern, if no array in it mentions a parameter. */
  lemma {:induction false} MatchSound(p: Type, a: Type, gps: seq<string>, b: Bindings)
    requires Proper(p) && Proper(a) && ArraysAvoid(p, gps) && Binds(b, gps)
    ensures Matched(Render(p), Render(a), gps, b, MatchType(p, a, gps, b))
    decreases p, 1
  {
    ProperParts(p);
    ProperParts(a);
    NothingMatched(Render(p), Render(a), gps, b);
    match p
    case Named(id) =>
      hide Matched, Avoids;
      if id in gps { BoundName(id, Render(a), gps, b); } else if Render(p) == Render(a) { NameAvoids(p, gps); EqualSound(p, a, gps, b); }
    case Ptr(u) =>
      hide Matched, Proper;
      if a.Ptr? && Peels(u, a.to, gps) {
        MatchSound(u, a.to, gps, b);
        MatchedWrapped("*", Render(u), Render(a.to), gps, b, MatchType(u, a.to, gps, b));
      }
    case Slice(u) =>
      hide Matched, Proper;
      if a.Slice? && Peels(u, a.of, gps) {
        MatchSound(u, a.of, gps, b);
        MatchedWrapped("[]", Render(u), Render(a.of), gps, b, MatchType(u, a.of, gps, b));
      }
    case Arr(_, _) =>
      hide Matched, Proper, Render;
      if Render(p) == Render(a) { EqualSound(p, a, gps, b); }
    case App(base, args) =>
      hide Matched, Proper, Render;
      if a.App? && a.base == base && |a.args| == |args| {
        AllSound(args, a.args, gps, b);
        var r := MatchTypes(args, a.args, gps, b);
        if r.Some? { ApplicationMatched(base, args, a.args, gps, b, r.value); }
      }
  }

  lemma NothingMatched(pattern: string, actual: string, gps: seq<string>, b: Bindings)
    ensures Matched(pattern, actual, gps, b, None)
  {
  }

  lemma NameAvoids(p: Type, gps: seq<string>)
    requires p.Named? && p.id !in gps
    ensures Avoids(p, gps)
  {
  }

  /** The arguments of a match, settled by the same bindings. */
  ghost predicate AllBecome(ps: seq<Type>, actuals: seq<Type>, b: Bindings, gps: seq<string>)
    requires |ps| == |actuals|
  {
    forall k :: 0 <= k < |ps| ==> Becomes(Render(ps[k]), Render(actuals[k]), b, gps)
  }

  lemma {:induction false} AllSound(ps: seq<Type>, actuals: seq<Type>, gps: seq<string>, b: Bindings)
    requires |ps| == |actuals| && AllProper(ps) && AllProper(actuals) && AllArraysAvoid(ps, gps) && Binds(b, gps)
    ensures var r := MatchTypes(ps, actuals, gps, b);
            r.Some? ==> Extends(b, r.value) && Binds(r.value, gps) && AllBecome(ps, actuals, r.value, gps)
    decreases ps, 0
  {
    hide Render, Becomes, Binds, ArraysAvoid, Proper, Matched;
    if ps != [] {
      MatchSound(ps[0], actuals[0], gps, b);
      var first := MatchType(ps[0], actuals[0], gps, b);
      if first.Some? {
        MatchedGives(Render(ps[0]), Render(actuals[0]), gps, b, first.value);
        AllSound(ps[1..], actuals[1..], gps, first.value);
        var r := MatchTypes(ps[1..], actuals[1..], gps, first.value);
        if r.Some? { StillBecomes(Render(ps[0]), Render(actuals[0]), first.value, r.value, gps); }
      }
    }
  }

  lemma StillBecomes(pattern: string, actual: string, b: Bindings, c: Bindings, gps: seq<string>)
    requires Becomes(pattern, actual, b, gps) && Extends(b, c)
    ensures Becomes(pattern, actual, c, gps)
  {
    hide Substitute;
    forall d | Extends(c, d) && Binds(d, gps) ensures Substitute(pattern, d) == actual { assert Extends(b, d); }
  }

  lemma {:induction false} SubstitutedArguments(ps: seq<Type>, actuals: seq<Type>, b: Bindings, c: Bindings, gps: seq<string>, limit: nat)
    requires |ps| == |actuals| && AllBecome(ps, actuals, b, gps) && Extends(b, c) && Binds(c, gps)
    requires forall x <- RenderAll(ps) :: |x| < limit
    ensures SubstituteAll(RenderAll(ps), c, limit) == RenderAll(actuals)
    decreases |ps|
  {
    hide Substitute, Render;
    if ps != [] {
      assert Becomes(Render(ps[0]), Render(actuals[0]), b, gps);
      assert RenderAll(ps)[1..] == RenderAll(ps[1..]);
      forall k | 0 <= k < |ps[1..]| ensures Becomes(Render(ps[1..][k]), Render(actuals[1..][k]), b, gps) {
        assert Becomes(Render(ps[k + 1]), Render(actuals[k + 1]), b, gps);
      }
      SubstitutedArguments(ps[1..], actuals[1..], b, c, gps, limit);
    }
  }

  /** Substituting in the arguments of an application makes it the other one. */
  lemma ApplicationSubstituted(base: string, ps: seq<Type>, actuals: seq<Type>, gps: seq<string>, r: Bindings, c: Bindings)
    requires Proper(App(base, ps)) && AllProper(actuals) && |ps| == |actuals| && AllBecome(ps, actuals, r, gps)
    requires Extends(r, c) && Binds(c, gps)
    ensures Substitute(base + Tail(RenderAll(ps)), c) == base + Tail(RenderAll(actuals))
  {
    hide Substitute, Mangle, Tail, AllBecome, Render, NoEarlierMarker, AllBytes, Trimmed, IsIdent, Extends, Binds;
    AllTrimmed(actuals);
    AllTrimmed(ps);
    var word := base + Tail(RenderAll(ps));
    assert RenderAll(ps) != [] && "" + word == word;
    SubstituteApp("", base, RenderAll(ps), c);
    SubstitutedArguments(ps, actuals, r, c, gps, |word|);
    MangleIsTail(base, RenderAll(actuals));
    assert "" + Mangle(base, RenderAll(actuals)) == Mangle(base, RenderAll(actuals));
  }

  lemma ApplicationMatched(base: string, ps: seq<Type>, actuals: seq<Type>, gps: seq<string>, b: Bindings, r: Bindings)
    requires Proper(App(base, ps)) && Proper(App(base, actuals)) && |ps| == |actuals|
    requires Extends(b, r) && Binds(r, gps) && AllBecome(ps, actuals, r, gps)
    ensures Matched(Render(App(base, ps)), Render(App(base, actuals)), gps, b, Some(r))
  {
    ProperParts(App(base, actuals));
    hide Substitute, Mangle, Tail, AllBecome, Extends, Binds, Render, Proper;
    RenderApp(base, ps);
    RenderApp(base, actuals);
    forall e | Extends(r, e) && Binds(e, gps)
      ensures Substitute(Render(App(base, ps)), e) == Render(App(base, actuals))
    {
      ApplicationSubstituted(base, ps, actuals, gps, r, e);
    }
  }

  /** If matching a type succeeds, every completion of the bindings turns the pattern into the actual type. */
  lemma BindSound(p: Type, a: Type, gps: seq<string>, b: Bindings)
    requires Proper(p) && Proper(a) && ArraysAvoid(p, gps) && GoodParameters(gps) && Binds(b, gps)
    ensures Matched(Render(p), Render(a), gps, b, Bind(Render(p), Render(a), gps, b))
  {
    BindIsMatch(p, a, gps, b);
    MatchSound(p, a, gps, b);
  }

  // ----- whole calls -----

  /** The annotated parameter types of a call. */
  ghost predicate Annotated(annotations: seq<Annotation>, types: seq<Option<Type>>) {
    |annotations| == |types|
    && forall i :: 0 <= i < |types| ==>
         if types[i].Some? then Proper(types[i].value) && annotations[i] == Some(Render(types[i].value)) else annotations[i].None?
  }

  /** No array in an annotation mentions a generic parameter. */
  ghost predicate SafeAnnotations(types: seq<Option<Type>>, gps: seq<string>) {
    forall i :: 0 <= i < |types| && types[i].Some? ==> ArraysAvoid(types[i].value, gps)
  }

  ghost predicate Arguments(args: seq<string>, actuals: seq<Type>) {
    |args| == |actuals| && forall i :: 0 <= i < |actuals| ==> Proper(actuals[i]) && args[i] == Render(actuals[i])
  }

  lemma {:induction false} CallSound(annotations: seq<Annotation>, types: seq<Option<Type>>, args: seq<string>, actuals: seq<Type>,
                                     gps: seq<string>, b: Bindings, i: nat)
    requires GoodParameters(gps) && Annotated(annotations, types) && SafeAnnotations(types, gps) && Arguments(args, actuals) && Binds(b, gps)
    ensures var r := BindCall(annotations, args, gps, b);
            r.Some? ==>
              && Extends(b, r.value) && Binds(r.value, gps)
              && (i < |annotations| && i < |args| && annotations[i].Some? ==> Becomes(annotations[i].value, args[i], r.value, gps))
    decreases |annotations|
  {
    hide Bind, Render, Becomes, Binds, Avoids, Proper, Matched;
    if annotations != [] && args != [] {
      assert Annotated(annotations[1..], types[1..]) && SafeAnnotations(types[1..], gps) && Arguments(args[1..], actuals[1..]);
      if annotations[0].None? {
        CallSound(annotations[1..], types[1..], args[1..], actuals[1..], gps, b, if i == 0 then 0 else i - 1);
      } else {
        BindSound(types[0].value, actuals[0], gps, b);
        var first := Bind(annotations[0].value, args[0], gps, b);
        if first.Some? {
          MatchedGives(annotations[0].value, args[0], gps, b, first.value);
          CallSound(annotations[1..], types[1..], args[1..], actuals[1..], gps, first.value, if i == 0 then 0 else i - 1);
          var r := BindCall(annotations[1..], args[1..], gps, first.value);
          if r.Some? { StillBecomes(annotations[0].value, args[0], first.value, r.value, gps); }
        }
      }
    }
  }

  lemma MatchedGives(pattern: string, actual: string, gps: seq<string>, b: Bindings, r: Bindings)
    requires Matched(pattern, actual, gps, b, Some(r))
    ensures Extends(b, r) && Binds(r, gps) && Becomes(pattern, actual, r, gps)
  {
  }

  /** The final bindings of a call turn every annotated parameter type into its argument's type. */
  lemma GenericCallIsSound(annotations: seq<Annotation>, types: seq<Option<Type>>, args: seq<string>, actuals: seq<Type>,
                           gps: seq<string>, i: nat)
    requires GoodParameters(gps) && Annotated(annotations, types) && SafeAnnotations(types, gps) && Arguments(args, actuals)
    requires i < |annotations| && i < |args| && annotations[i].Some?
    requires BindCall(annotations, args, gps, map[]).Some?
    ensures Substitute(annotations[i].value, BindCall(annotations, args, gps, map[]).value) == args[i]
  {
    hide Substitute, BindCall;
    CallSound(annotations, types, args, actuals, gps, map[], i);
    var r := BindCall(annotations, args, gps, map[]).value;
    assert Extends(r, r);
  }

  lemma ArrayMatchesItself(b: Bindings)
    ensures Bind("[T;3]", "[T;3]", ["T"], b) == Some(b)
  {
    PlainT();
    var three := Arr(Named("T"), "3");
    assert Render(three) == "[T;3]";
    hide BindParameter, ParseMangled, Render, ElementType, BindAll, PlainName;
    NoParameterForm(three, three, ["T"], b);
    RenderedMangling(three);
    OuterForm(three);
  }

  lemma ArraySubstituted()
    ensures Substitute("[T;3]", map["T" := "int"]) == "[int;3]"
  {
    hide Substitute, PlainName;
    PlainT();
    var t, n: string, b: Bindings := "T", "3", map["T" := "int"];
    SubstituteArr(t, n, b);
    SubstituteName(t, b);
    assert n[WordStart(n)..] == "";
    KeptCount(n, ["T"], b);
    assert "[" + t + (";" + n + "]") == "[T;3]" && "[" + "int" + (";" + n + "]") == "[int;3]";
  }

  /** The condition on the annotations is needed: an array type of a parameter matches itself as it stands. */
  lemma ArgumentMentionsParameter()
    ensures var gps: seq<string>, annotations: seq<Annotation> := ["T"], [Some("T"), Some("[T;3]")];
            var args: seq<string> := ["int", "[T;3]"];
            var r := BindCall(annotations, args, gps, map[]);
            r == Some(map["T" := "int"]) && Substitute("[T;3]", r.value) == "[int;3]"
  {
    hide Bind, Substitute, PlainName;
    var b: Bindings := map["T" := "int"];
    PlainT();
    NameBinds("T", "int", ["T"], map[]);
    ArrayMatchesItself(b);
    ArraySubstituted();
    var annotations: seq<Annotation>, args: seq<string> := [Some("T"), Some("[T;3]")], ["int", "[T;3]"];
    assert annotations[1..] == [Some("[T;3]")] && args[1..] == ["[T;3]"];
    assert annotations[1..][1..] == [] && args[1..][1..] == [];
    assert BindCall(annotations[1..], args[1..], ["T"], b) == Some(b);
  }

  lemma PlainT()
    ensures PlainName("T") && Proper(Arr(Named("T"), "3")) && AllIdent("3") && WordStart("3") == 1
  {
    FindsNothing("T", 1);
    assert Find("T", 0).None? && Find("3", 0).None?;
  }
}
