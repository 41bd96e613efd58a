/**
 What matching does, on the structure of types: the text comparisons of the matcher follow the types' forms.

 One case does not: below two pointers or slices, a parameter is not compared with a generic application.
 */
module GenericBinding {
  import opened Basics
  import opened Generics
  import opened GenericMatching

  predicate GoodParameters(gps: seq<string>) {
    forall k :: 0 <= k < |gps| ==> PlainName(gps[k])
  }

  // ----- the structural match -----

  predicate IsParameter(t: Type, gps: seq<string>) {
    t.Named? && t.id in gps
  }

  /** Under a pointer or slice the match goes on, if a parameter comes next or both are applications at heart, or neither. */
  predicate Peels(u: Type, v: Type, gps: seq<string>) {
    IsParameter(u, gps) || (Core(u).App? <==> Core(v).App?)
  }

  /** Binds the parameters of `p` so that it becomes `a`; None if they disagree. */
  function MatchType(p: Type, a: Type, gps: seq<string>, b: Bindings): Option<Bindings>
    decreases p, 1
  {
    match p
    case Named(id) => if id in gps then BindName(id, Render(a), b) else if Render(p) == Render(a) then Some(b) else None
    case Ptr(u) => if a.Ptr? && Peels(u, a.to, gps) then MatchType(u, a.to, gps, b) else None
    case Slice(u) => if a.Slice? && Peels(u, a.of, gps) then MatchType(u, a.of, gps, b) else None
    case Arr(_, _) => if Render(p) == Render(a) then Some(b) else None
    case App(base, args) =>
      if a.App? && a.base == base && |a.args| == |args| then MatchTypes(args, a.args, gps, b) else None
  }

  function MatchTypes(ps: seq<Type>, actuals: seq<Type>, gps: seq<string>, b: Bindings): Option<Bindings>
    requires |ps| == |actuals|
    decreases ps, 0
  {
    if ps == [] then Some(b)
    else
      match MatchType(ps[0], actuals[0], gps, b)
      case None => None
      case Some(b') => MatchTypes(ps[1..], actuals[1..], gps, b')
  }

  // ----- which branch a pattern takes -----

  lemma {:induction false} NoParameter(pattern: string, actual: string, gps: seq<string>, k: nat, b: Bindings)
    requires forall gp <- gps :: pattern != gp && (pattern == "*" + gp ==> !Starts(actual, "*")) && (pattern == "[]" + gp ==> !Starts(actual, "[]"))
    ensures BindParameter(pattern, actual, gps, k, b).NotThis?
    decreases |gps| - k
  {
    hide Bind, ElementType;
    if k < |gps| { NoParameter(pattern, actual, gps, k + 1, b); }
  }

  lemma {:induction false} NameParameter(id: string, actual: string, gps: seq<string>, k: nat, b: Bindings)
    requires GoodParameters(gps) && k <= |gps| && id in gps[k..] && PlainName(id)
    ensures BindParameter(id, actual, gps, k, b) == Answer(BindName(id, actual, b))
    decreases |gps| - k
  {
    hide Bind, ElementType;
    if gps[k] != id {
      assert gps[k..][1..] == gps[k + 1..] && gps[k..][0] == gps[k];
      NameParameter(id, actual, gps, k + 1, b);
    }
  }

  /** A pointer to a parameter, or a slice of one. */
  lemma {:induction false} WrappedParameter(wrap: string, id: string, actual: string, gps: seq<string>, k: nat, b: Bindings)
    requires (wrap == "*" || wrap == "[]") && Starts(actual, wrap)
    requires GoodParameters(gps) && k <= |gps| && id in gps[k..]
    ensures BindParameter(wrap + id, actual, gps, k, b) == Answer(Bind(id, ElementType(actual), gps, b))
    decreases |gps| - k
  {
    hide Bind, ElementType;
    assert (wrap + id)[0] == wrap[0];
    assert (wrap + id)[|wrap|..] == id;
    var gp := gps[k];
    assert (wrap + gp)[|wrap|..] == gp;
    assert ("*" + gp)[0] == '*' && ("[]" + gp)[0] == '[';
    if gp != id {
      assert gps[k..][1..] == gps[k + 1..] && gps[k..][0] == gps[k];
      WrappedParameter(wrap, id, actual, gps, k + 1, b);
    }
  }

  // ----- the text tells the type's outermost form -----

  lemma OuterForm(t: Type)
    requires Proper(t)
    ensures Starts(Render(t), "*") <==> t.Ptr?
    ensures Starts(Render(t), "[]") <==> t.Slice?
    ensures Render(t)[0] == '[' <==> t.Slice? || t.Arr?
  {
    RenderSolid(t);
    hide Mangle;
    match t
    case Named(_) =>
    case Ptr(u) =>
    case Slice(u) => assert Render(t)[..2] == "[]";
    case Arr(u, n) =>
      RenderSolid(u);
      assert Render(t)[1] == Render(u)[0];
    case App(base, args) =>
      RenderApp(base, args);
      assert Render(t)[0] == base[0];
  }

  lemma ElementOf(u: Type)
    requires Proper(u)
    ensures ElementType("*" + Render(u)) == Render(u) && ElementType("[]" + Render(u)) == Render(u)
  {
    RenderSolid(u);
    hide ElementType, Render, Solid;
    PointerElement("*" + Render(u), Render(u));
    SliceElement("[]" + Render(u), Render(u));
  }

  /** `*volatile ` has a blank, which no rendered type has. */
  lemma PointerElement(t: string, text: string)
    requires t == "*" + text && Solid(text)
    ensures ElementType(t) == text
  {
    Parts("*", text);
    assert !Starts(t, "[]") by { assert t[0] == '*'; }
    assert |t| > 9 ==> t[9] == text[8] && !IsBlank(t[9]);
    assert "*volatile "[9] == ' ';
  }

  lemma SliceElement(t: string, text: string)
    requires t == "[]" + text
    ensures ElementType(t) == text
  {
    Parts("[]", text);
    assert Starts(t, "[]");
  }

  /** A rendered type that is a parameter, or wraps one, has that form. */
  lemma ParameterForms(t: Type, gp: string)
    requires Proper(t) && PlainName(gp)
    ensures Render(t) == gp <==> t == Named(gp)
    ensures Render(t) == "*" + gp <==> t == Ptr(Named(gp))
    ensures Render(t) == "[]" + gp <==> t == Slice(Named(gp))
  {
    NamedForm(t, gp);
    OuterForm(t);
    assert ("*" + gp)[0] == '*' && ("[]" + gp)[..2] == "[]" && ("*" + gp)[1..] == gp && ("[]" + gp)[2..] == gp;
    match t
    case Ptr(u) =>
      assert Render(t)[1..] == Render(u);
      NamedForm(u, gp);
    case Slice(u) =>
      assert Render(t)[2..] == Render(u);
      NamedForm(u, gp);
    case _ =>
  }

  lemma NamedForm(t: Type, gp: string)
    requires Proper(t) && PlainName(gp)
    ensures Render(t) == gp <==> t == Named(gp)
  {
    OuterForm(t);
    RenderSolid(t);
    if t.App? {
      RenderApp(t.base, t.args);
      TailStarts(RenderAll(t.args));
      assert Render(t)[|t.base|..|t.base| + |MARKER|] == MARKER;
      assert MarkerAt(Render(t), |t.base|);
    }
  }

  lemma NoParameterForm(p: Type, a: Type, gps: seq<string>, b: Bindings)
    requires Proper(p) && Proper(a) && GoodParameters(gps)
    requires forall gp <- gps :: p != Named(gp) && !(p == Ptr(Named(gp)) && a.Ptr?) && !(p == Slice(Named(gp)) && a.Slice?)
    ensures BindParameter(Render(p), Render(a), gps, 0, b).NotThis?
  {
    hide Render, BindParameter;
    OuterForm(a);
    forall gp | gp in gps
      ensures Render(p) != gp
      ensures Render(p) == "*" + gp ==> !Starts(Render(a), "*")
      ensures Render(p) == "[]" + gp ==> !Starts(Render(a), "[]")
    {
      ParameterForms(p, gp);
    }
    NoParameter(Render(p), Render(a), gps, 0, b);
  }

  lemma NameBinds(id: string, actual: string, gps: seq<string>, b: Bindings)
    requires GoodParameters(gps) && id in gps && PlainName(id)
    ensures Bind(id, actual, gps, b) == BindName(id, actual, b)
  {
    hide BindParameter, ParseMangled;
    assert gps[0..] == gps;
    NameParameter(id, actual, gps, 0, b);
  }

  lemma {:induction false} CoreForms(p: Type, gps: seq<string>)
    requires Core(p).App?
    ensures forall gp <- gps :: p != Named(gp) && p != Ptr(Named(gp)) && p != Slice(Named(gp))
  {
  }

  // ----- what each form is bound to -----

  /** Neither a parameter nor a wrapped one, and of no form that is taken apart. */
  lemma RigidBind(p: Type, a: Type, gps: seq<string>, b: Bindings)
    requires Proper(p) && Proper(a) && GoodParameters(gps) && (p.Arr? || (p.Named? && p.id !in gps))
    ensures Bind(Render(p), Render(a), gps, b) == if Render(p) == Render(a) then Some(b) else None
  {
    hide Render, BindParameter, ParseMangled, BindAll, ElementType;
    NoParameterForm(p, a, gps, b);
    RenderedMangling(p);
    OuterForm(p);
  }

  lemma ParameterWrapped(wrap: string, id: string, v: Type, gps: seq<string>, b: Bindings)
    requires (wrap == "*" || wrap == "[]") && Proper(v) && GoodParameters(gps) && id in gps && PlainName(id)
    ensures Bind(wrap + id, wrap + Render(v), gps, b) == Bind(id, Render(v), gps, b)
  {
    hide ElementType, BindParameter, ParseMangled;
    assert gps[0..] == gps;
    ElementOf(v);
    Parts(wrap, Render(v));
    WrappedParameter(wrap, id, wrap + Render(v), gps, 0, b);
  }

  /** Both are pointers, or both slices, and neither is an application at heart. */
  lemma PeeledBind(wrap: string, u: Type, v: Type, p: Type, a: Type, gps: seq<string>, b: Bindings)
    requires (wrap == "*" && p == Ptr(u) && a == Ptr(v)) || (wrap == "[]" && p == Slice(u) && a == Slice(v))
    requires Proper(p) && Proper(a) && !Core(p).App? && !Core(a).App?
    requires BindParameter(Render(p), Render(a), gps, 0, b).NotThis?
    ensures Bind(Render(p), Render(a), gps, b) == Bind(Render(u), Render(v), gps, b)
  {
    hide BindParameter, ParseMangled, BindAll, ElementType;
    RenderedMangling(p);
    RenderedMangling(a);
    OuterForm(p);
    OuterForm(a);
    ElementOf(u);
    ElementOf(v);
    assert Render(p) == wrap + Render(u) && Render(a) == wrap + Render(v);
  }

  lemma NeverBinds(wrap: string, u: Type, p: Type, a: Type, gps: seq<string>, b: Bindings)
    requires (wrap == "*" && p == Ptr(u) && !a.Ptr?) || (wrap == "[]" && p == Slice(u) && !a.Slice?)
    requires Proper(p) && Proper(a) && !Core(p).App? && BindParameter(Render(p), Render(a), gps, 0, b).NotThis?
    ensures Bind(Render(p), Render(a), gps, b).None?
  {
    hide BindParameter, ParseMangled, BindAll, ElementType, Render;
    RenderedMangling(p);
    OuterForm(p);
    OuterForm(a);
  }

  /** An application at heart against something that is none, or the other way round. */
  lemma OneMangled(p: Type, a: Type, gps: seq<string>, b: Bindings)
    requires Proper(p) && Proper(a) && BindParameter(Render(p), Render(a), gps, 0, b).NotThis?
    requires Core(p).App? != Core(a).App?
    ensures Bind(Render(p), Render(a), gps, b).None?
  {
    hide BindParameter, ParseMangled, Render, Proper;
    RenderedMangling(p);
    RenderedMangling(a);
  }

  /** Two applications at heart agree if their text up to the arguments does, and the arguments do. */
  predicate SameHead(p: Type, a: Type)
    requires Core(p).App? && Core(a).App?
  {
    Pre(p) + Core(p).base == Pre(a) + Core(a).base && |Core(p).args| == |Core(a).args|
  }

  lemma MangledBind(p: Type, a: Type, gps: seq<string>, b: Bindings)
    requires Proper(p) && Proper(a) && GoodParameters(gps) && Core(p).App? && Core(a).App?
    ensures forall x <- RenderAll(Core(p).args) :: |x| < |Render(p)|
    ensures Bind(Render(p), Render(a), gps, b) ==
      if SameHead(p, a) then BindAll(RenderAll(Core(p).args), RenderAll(Core(a).args), gps, b, |Render(p)|) else None
  {
    hide BindParameter, ParseMangled, Render, Proper;
    CoreForms(p, gps);
    NoParameterForm(p, a, gps, b);
    RenderedMangling(p);
    RenderedMangling(a);
    MangledIsNotEmpty(Render(p));
  }

  lemma {:induction false} AnyBound(ps: seq<string>, actuals: seq<string>, gps: seq<string>, b: Bindings, m: nat, n: nat)
    requires |ps| == |actuals| && forall p <- ps :: |p| < m && |p| < n
    ensures BindAll(ps, actuals, gps, b, m) == BindAll(ps, actuals, gps, b, n)
    decreases |ps|
  {
    hide Bind;
    if ps != [] {
      var first := Bind(ps[0], actuals[0], gps, b);
      if first.Some? { AnyBound(ps[1..], actuals[1..], gps, first.value, m, n); }
    }
  }

  /** The heads of two pointers, or two slices, agree if what they point to has heads that agree. */
  lemma PeeledHead(wrap: string, u: Type, v: Type, p: Type, a: Type)
    requires (wrap == "*" && p == Ptr(u) && a == Ptr(v)) || (wrap == "[]" && p == Slice(u) && a == Slice(v))
    requires Core(p).App? && Core(a).App?
    ensures SameHead(p, a) <==> SameHead(u, v)
  {
    var x, y := Pre(u) + Core(u).base, Pre(v) + Core(v).base;
    assert Pre(p) + Core(p).base == wrap + x && Pre(a) + Core(a).base == wrap + y;
    Parts(wrap, x);
    Parts(wrap, y);
  }

  lemma HeadStarts(t: Type)
    requires Proper(t) && Core(t).App?
    ensures var h := Pre(t) + Core(t).base;
            h != "" && (h[0] == '*' <==> t.Ptr?) && (h[0] == '[' <==> t.Slice?) && (IdentStart(h[0]) <==> t.App?)
  {
    hide Find, NoEarlierMarker;
    RenderCore(t);
    match t
    case Ptr(u) => assert (Pre(t) + Core(t).base)[0] == Pre(t)[0];
    case Slice(u) => assert (Pre(t) + Core(t).base)[0] == Pre(t)[0];
    case App(base, _) => assert Pre(t) + Core(t).base == base;
    case Named(_) =>
    case Arr(_, _) =>
  }

  lemma MangledPeels(wrap: string, u: Type, v: Type, p: Type, a: Type, gps: seq<string>, b: Bindings)
    requires (wrap == "*" && p == Ptr(u) && a == Ptr(v)) || (wrap == "[]" && p == Slice(u) && a == Slice(v))
    requires Proper(p) && Proper(a) && GoodParameters(gps) && Core(p).App? && Core(a).App?
    ensures Bind(Render(p), Render(a), gps, b) == Bind(Render(u), Render(v), gps, b)
  {
    hide Bind, Render, BindAll, SameHead, Proper;
    assert Proper(u) && Proper(v) by { ProperParts(p); ProperParts(a); }
    MangledBind(p, a, gps, b);
    MangledBind(u, v, gps, b);
    PeeledHead(wrap, u, v, p, a);
    if SameHead(p, a) {
      SameArity(p, a);
      AnyBound(RenderAll(Core(p).args), RenderAll(Core(a).args), gps, b, |Render(p)|, |Render(u)|);
    }
  }

  lemma ProperParts(t: Type)
    requires Proper(t)
    ensures (t.Ptr? ==> Proper(t.to)) && (t.Slice? ==> Proper(t.of)) && (t.Arr? ==> Proper(t.of)) && (t.App? ==> AllProper(t.args))
  {
  }

  lemma SameArity(p: Type, a: Type)
    requires Core(p).App? && Core(a).App? && SameHead(p, a)
    ensures |Core(p).args| == |Core(a).args|
  {
  }

  // ----- the text match is the structural one -----

  /** Matching types as text is matching their structure. */
  lemma {:induction false} BindIsMatch(p: Type, a: Type, gps: seq<string>, b: Bindings)
    requires Proper(p) && Proper(a) && GoodParameters(gps)
    ensures Bind(Render(p), Render(a), gps, b) == MatchType(p, a, gps, b)
    decreases p, 1
  {
    hide Bind, Render, Proper, Peels;
    match p
    case Named(id) =>
      if id in gps { NamedBind(p, a, gps, b); } else { RigidBind(p, a, gps, b); }
    case Ptr(u) => WrappedBind("*", u, p, a, gps, b);
    case Slice(u) => WrappedBind("[]", u, p, a, gps, b);
    case Arr(_, _) => RigidBind(p, a, gps, b);
    case App(_, _) => ApplicationBind(p, a, gps, b);
  }

  lemma NamedBind(p: Type, a: Type, gps: seq<string>, b: Bindings)
    requires Proper(p) && IsParameter(p, gps) && GoodParameters(gps)
    ensures Bind(Render(p), Render(a), gps, b) == BindName(p.id, Render(a), b)
  {
    NameBinds(p.id, Render(a), gps, b);
  }

  lemma {:induction false} WrappedBind(wrap: string, u: Type, p: Type, a: Type, gps: seq<string>, b: Bindings)
    requires (wrap == "*" && p == Ptr(u)) || (wrap == "[]" && p == Slice(u))
    requires Proper(p) && Proper(a) && GoodParameters(gps)
    ensures Bind(Render(p), Render(a), gps, b) == MatchType(p, a, gps, b)
    decreases p, 0
  {
    ProperParts(p);
    ProperParts(a);
    hide Bind, Proper, ParseMangled, BindParameter, Find, PlainName;
    var same := if wrap == "*" then a.Ptr? else a.Slice?;
    if !same {
      NotSame(wrap, u, p, a, gps, b);
    } else {
      var v := if wrap == "*" then a.to else a.of;
      BindIsMatch(u, v, gps, b);
      if IsParameter(u, gps) {
        assert Render(p) == wrap + u.id && Render(a) == wrap + Render(v);
        PlainParameter(u, gps);
        ParameterWrapped(wrap, u.id, v, gps, b);
      } else {
        NoParameterForm(p, a, gps, b);
        if Core(u).App? != Core(v).App? {
          OneMangled(p, a, gps, b);
        } else if Core(u).App? {
          MangledPeels(wrap, u, v, p, a, gps, b);
        } else {
          PeeledBind(wrap, u, v, p, a, gps, b);
        }
      }
    }
  }

  lemma PlainParameter(u: Type, gps: seq<string>)
    requires IsParameter(u, gps) && GoodParameters(gps)
    ensures PlainName(u.id)
  {
  }

  lemma NotSame(wrap: string, u: Type, p: Type, a: Type, gps: seq<string>, b: Bindings)
    requires (wrap == "*" && p == Ptr(u) && !a.Ptr?) || (wrap == "[]" && p == Slice(u) && !a.Slice?)
    requires Proper(p) && Proper(a) && GoodParameters(gps)
    ensures Bind(Render(p), Render(a), gps, b).None?
  {
    hide Bind, Render, Proper, BindParameter;
    NoParameterForm(p, a, gps, b);
    if !Core(p).App? {
      NeverBinds(wrap, u, p, a, gps, b);
    } else if !Core(a).App? {
      OneMangled(p, a, gps, b);
    } else {
      MangledBind(p, a, gps, b);
      HeadStarts(p);
      HeadStarts(a);
    }
  }

  lemma {:induction false} ApplicationBind(p: Type, a: Type, gps: seq<string>, b: Bindings)
    requires p.App? && Proper(p) && Proper(a) && GoodParameters(gps)
    ensures Bind(Render(p), Render(a), gps, b) == MatchType(p, a, gps, b)
    decreases p, 0
  {
    ProperParts(p);
    ProperParts(a);
    hide Bind, Render, Proper, BindParameter, BindAll;
    if !Core(a).App? {
      NoParameterForm(p, a, gps, b);
      OneMangled(p, a, gps, b);
    } else {
      MangledBind(p, a, gps, b);
      HeadStarts(p);
      HeadStarts(a);
      if a.App? {
        assert "" + p.base == p.base && "" + a.base == a.base;
        if |a.args| == |p.args| { AllBind(p.args, a.args, gps, b, |Render(p)|); }
      }
    }
  }

  lemma {:induction false} AllBind(ps: seq<Type>, actuals: seq<Type>, gps: seq<string>, b: Bindings, limit: nat)
    requires |ps| == |actuals| && AllProper(ps) && AllProper(actuals) && GoodParameters(gps)
    requires forall x <- RenderAll(ps) :: |x| < limit
    ensures BindAll(RenderAll(ps), RenderAll(actuals), gps, b, limit) == MatchTypes(ps, actuals, gps, b)
    decreases ps, 0
  {
    hide Bind, Render, Proper;
    if ps != [] {
      BindIsMatch(ps[0], actuals[0], gps, b);
      assert RenderAll(ps)[1..] == RenderAll(ps[1..]) && RenderAll(actuals)[1..] == RenderAll(actuals[1..]);
      var first := Bind(Render(ps[0]), Render(actuals[0]), gps, b);
      if first.Some? { AllBind(ps[1..], actuals[1..], gps, first.value, limit); }
    }
  }
}
