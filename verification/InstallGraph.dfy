/**
 Installing a project's dependency graph: packages are fetched depth first, one version for each coordinate.

 The registry is a finite map from packages to their dependency lists; a package that is not in it cannot be fetched.
 */
module InstallGraph {
  import opened Basics

  datatype Package = Package(coordinate: string, version: string)

  datatype Dependency = Dependency(alias: string, package: Package)

  datatype Item = Item(alias: string, package: Package)

  type Registry = map<Package, seq<Dependency>>

  datatype InstallError = TooDeep(at: Package) | Conflict(first: Package, second: Package) | Cycle(at: Package) | Missing(package: Package)

  const DEPTH_LIMIT := 32

  // ----- reachability -----

  predicate DependsOn(registry: Registry, p: Package, q: Package) {
    p in registry && exists k :: 0 <= k < |registry[p]| && registry[p][k].package == q
  }

  predicate IsRoot(roots: seq<Dependency>, p: Package) {
    exists k :: 0 <= k < |roots| && roots[k].package == p
  }

  /** A root, a dependency of it, a dependency of that, and so on. */
  predicate Chain(registry: Registry, roots: seq<Dependency>, path: seq<Package>) {
    && path != [] && IsRoot(roots, path[0])
    && forall k :: 0 <= k < |path| - 1 ==> DependsOn(registry, path[k], path[k + 1])
  }

  ghost predicate Reachable(registry: Registry, roots: seq<Dependency>, p: Package) {
    exists path :: Chain(registry, roots, path) && path[|path| - 1] == p
  }

  /** The last may have been seen before; the others are packages of different names. */
  predicate DistinctButLast(path: seq<Package>) {
    forall i, j :: 0 <= i < j < |path| - 1 ==> path[i].coordinate != path[j].coordinate
  }

  /** Why an installation failed: something is really wrong with the graph, or some chain in it is too long. */
  ghost predicate Evidence(registry: Registry, roots: seq<Dependency>, e: InstallError) {
    match e
    case TooDeep(_) => LongChain(registry, roots)
    case Conflict(p, q) =>
      p.coordinate == q.coordinate && p.version != q.version && Reachable(registry, roots, p) && Reachable(registry, roots, q)
    case Missing(p) => Reachable(registry, roots, p) && p !in registry
    case Cycle(_) => false
  }

  ghost predicate LongChain(registry: Registry, roots: seq<Dependency>) {
    exists path :: Chain(registry, roots, path) && |path| == 34 && DistinctButLast(path)
  }

  ghost predicate AllPresent(registry: Registry, roots: seq<Dependency>) {
    forall p :: Reachable(registry, roots, p) ==> p in registry
  }

  ghost predicate OneVersion(registry: Registry, roots: seq<Dependency>) {
    forall p, q :: Reachable(registry, roots, p) && Reachable(registry, roots, q) && p.coordinate == q.coordinate ==> p == q
  }

  // ----- how deep the search goes -----

  /** A dependency that is looked at, so many packages below a root. */
  datatype Step = Step(dep: Dependency, depth: nat)

  function Steps(deps: seq<Dependency>, depth: nat): seq<Step> {
    seq(|deps|, k requires 0 <= k < |deps| => Step(deps[k], depth))
  }

  /** Everything a depth-first search looks at, given what is still to do: the dependencies of a package come first. */
  function Visits(registry: Registry, todo: seq<Step>, seen: set<Package>): seq<Step>
    decreases registry.Keys - seen, |todo|
  {
    if todo == [] then []
    else
      var p := todo[0].dep.package;
      if p in seen || p !in registry then [todo[0]] + Visits(registry, todo[1..], seen)
      else [todo[0]] + Visits(registry, Steps(registry[p], todo[0].depth + 1) + todo[1..], seen + {p})
  }

  predicate Shallow(visits: seq<Step>) {
    forall s <- visits :: s.depth <= 32
  }

  /** The search from the roots stays within the limit. */
  predicate WithinLimit(registry: Registry, roots: seq<Dependency>) {
    Shallow(Visits(registry, Steps(roots, 0), {}))
  }

  lemma VisitsFirst(registry: Registry, s: Step, rest: seq<Step>, seen: set<Package>)
    ensures var p := s.dep.package;
            var todo := if p in seen || p !in registry then rest else Steps(registry[p], s.depth + 1) + rest;
            var then' := if p in seen || p !in registry then seen else seen + {p};
            Shallow(Visits(registry, [s] + rest, seen)) <==> s.depth <= DEPTH_LIMIT && Shallow(Visits(registry, todo, then'))
  {
    hide Steps;
    assert ([s] + rest)[1..] == rest;
    var p := s.dep.package;
    var v := Visits(registry, if p in seen || p !in registry then rest else Steps(registry[p], s.depth + 1) + rest,
                    if p in seen || p !in registry then seen else seen + {p});
    ShallowFirst(s, v);
  }

  lemma ShallowFirst(s: Step, v: seq<Step>)
    ensures Shallow([s] + v) <==> s.depth <= DEPTH_LIMIT && Shallow(v)
  {
    assert s in [s] + v;
    assert forall t <- v :: t in [s] + v;
  }

  lemma NextStep(deps: seq<Dependency>, depth: nat, k: nat, rest: seq<Step>)
    requires k < |deps|
    ensures Steps(deps, depth)[k..] + rest == [Step(deps[k], depth)] + (Steps(deps, depth)[k + 1..] + rest)
  {
  }

  // ----- what is known while installing -----

  /** The resolved packages by coordinate, their order of insertion, and the packages being visited. */
  datatype State = State(resolved: map<string, Item>, order: seq<string>, visiting: set<Package>)

  predicate Has(s: State, p: Package) {
    p.coordinate in s.resolved && s.resolved[p.coordinate].package == p
  }

  ghost function Seen(s: State): set<Package> {
    set c | c in s.resolved :: s.resolved[c].package
  }

  /** What a search looks at and has not looked at before, under the name it is first asked for by. */
  function Fetched(visits: seq<Step>, seen: set<Package>): seq<Item> {
    if visits == [] then []
    else
      var d := visits[0].dep;
      if d.package in seen then Fetched(visits[1..], seen) else [Item(d.alias, d.package)] + Fetched(visits[1..], seen + {d.package})
  }

  const NOTHING := Item("", Package("", ""))

  /** What is resolved, in its order. */
  ghost function Listed(s: State): seq<Item> {
    seq(|s.order|, i requires 0 <= i < |s.order| => if s.order[i] in s.resolved then s.resolved[s.order[i]] else NOTHING)
  }

  /** What will be resolved when the rest is done too. */
  ghost function Expected(registry: Registry, s: State, todo: seq<Step>): seq<Item> {
    Listed(s) + Fetched(Visits(registry, todo, Seen(s)), Seen(s))
  }

  /** What was to do is done, as far as `rest`, within the limit; or it goes beyond the limit. */
  ghost predicate Searched(registry: Registry, before: State, todo: seq<Step>, after: State, rest: seq<Step>, error: Option<InstallError>) {
    && (error.None? ==> Expected(registry, before, todo) == Expected(registry, after, rest))
    && (error.None? ==> (Shallow(Visits(registry, todo, Seen(before))) <==> Shallow(Visits(registry, rest, Seen(after)))))
    && (error.Some? && error.value.TooDeep? ==> !Shallow(Visits(registry, todo, Seen(before))))
  }

  lemma SameExpected(registry: Registry, s: State, t: State, rest: seq<Step>)
    requires s.resolved == t.resolved && s.order == t.order
    ensures Expected(registry, s, rest) == Expected(registry, t, rest) && Seen(s) == Seen(t)
  {
    hide Fetched, Visits;
    assert Seen(s) == Seen(t) && Listed(s) == Listed(t);
  }

  /** Looking at a package that cannot be looked at so deep, or that is resolved. */
  lemma SearchedNothing(registry: Registry, s: State, dep: Dependency, depth: nat, rest: seq<Step>)
    requires depth > DEPTH_LIMIT || Has(s, dep.package)
    ensures depth > DEPTH_LIMIT ==> !Shallow(Visits(registry, [Step(dep, depth)] + rest, Seen(s)))
    ensures depth <= DEPTH_LIMIT ==> (Shallow(Visits(registry, [Step(dep, depth)] + rest, Seen(s))) <==> Shallow(Visits(registry, rest, Seen(s))))
    ensures Has(s, dep.package) ==> Expected(registry, s, [Step(dep, depth)] + rest) == Expected(registry, s, rest)
  {
    hide Visits;
    VisitsFirst(registry, Step(dep, depth), rest, Seen(s));
    FetchedFirst(registry, Step(dep, depth), rest, Seen(s));
    if Has(s, dep.package) { assert dep.package in Seen(s); }
  }

  lemma FetchedFirst(registry: Registry, s: Step, rest: seq<Step>, seen: set<Package>)
    ensures var d := s.dep;
            Fetched(Visits(registry, [s] + rest, seen), seen) ==
              if d.package in seen then Fetched(Visits(registry, rest, seen), seen)
              else if d.package !in registry then [Item(d.alias, d.package)] + Fetched(Visits(registry, rest, seen), seen + {d.package})
              else
                [Item(d.alias, d.package)] +
                Fetched(Visits(registry, Steps(registry[d.package], s.depth + 1) + rest, seen + {d.package}), seen + {d.package})
  {
    hide Steps;
    assert ([s] + rest)[1..] == rest;
    var p := s.dep.package;
    var v := Visits(registry, if p in seen || p !in registry then rest else Steps(registry[p], s.depth + 1) + rest,
                    if p in seen || p !in registry then seen else seen + {p});
    assert Visits(registry, [s] + rest, seen) == [s] + v;
    FetchedAdds(s, v, seen);
  }

  lemma FetchedAdds(s: Step, v: seq<Step>, seen: set<Package>)
    ensures Fetched([s] + v, seen) ==
      if s.dep.package in seen then Fetched(v, seen) else [Item(s.dep.alias, s.dep.package)] + Fetched(v, seen + {s.dep.package})
  {
    assert ([s] + v)[1..] == v;
  }

  /** Looking at a new package is looking at its dependencies. */
  lemma SearchedOne(registry: Registry, s: State, item: Item, dep: Dependency, depth: nat, rest: seq<Step>)
    requires item == Item(dep.alias, dep.package) && dep.package in registry && depth <= DEPTH_LIMIT
    requires dep.package.coordinate !in s.resolved
    requires forall c <- s.resolved.Keys :: s.resolved[c].package.coordinate == c
    ensures Shallow(Visits(registry, [Step(dep, depth)] + rest, Seen(s))) <==>
            Shallow(Visits(registry, Steps(registry[dep.package], depth + 1) + rest, Seen(Entered(s, item))))
  {
    hide Visits;
    VisitsFirst(registry, Step(dep, depth), rest, Seen(s));
    SeenEntered(s, item);
  }

  lemma ExpectedOne(registry: Registry, s: State, item: Item, dep: Dependency, depth: nat, rest: seq<Step>)
    requires item == Item(dep.alias, dep.package) && dep.package in registry
    requires dep.package.coordinate !in s.resolved && forall i :: 0 <= i < |s.order| ==> s.order[i] in s.resolved
    requires forall c <- s.resolved.Keys :: s.resolved[c].package.coordinate == c
    ensures Expected(registry, s, [Step(dep, depth)] + rest) ==
            Expected(registry, Entered(s, item), Steps(registry[dep.package], depth + 1) + rest)
  {
    hide Visits, Steps, Seen, Fetched;
    FetchedFirst(registry, Step(dep, depth), rest, Seen(s));
    SeenEntered(s, item);
    ListedEntered(s, item);
    var seen := Seen(s) + {item.package};
    var more := Fetched(Visits(registry, Steps(registry[dep.package], depth + 1) + rest, seen), seen);
    assert Listed(s) + ([item] + more) == (Listed(s) + [item]) + more;
  }

  lemma ListedEntered(s: State, item: Item)
    requires item.package.coordinate !in s.resolved && forall i :: 0 <= i < |s.order| ==> s.order[i] in s.resolved
    ensures Listed(Entered(s, item)) == Listed(s) + [item]
  {
  }

  lemma SeenEntered(s: State, item: Item)
    requires item.package.coordinate !in s.resolved
    requires forall c <- s.resolved.Keys :: s.resolved[c].package.coordinate == c
    ensures Seen(Entered(s, item)) == Seen(s) + {item.package} && item.package !in Seen(s)
  {
    var t, p := Entered(s, item), item.package;
    forall q | q in Seen(s) + {p} ensures q in Seen(t) {
      if q in Seen(s) {
        var c :| c in s.resolved && s.resolved[c].package == q;
        assert c in t.resolved && t.resolved[c].package == q;
      } else {
        assert p.coordinate in t.resolved && t.resolved[p.coordinate].package == p;
      }
    }
  }

  /** The package was fetched, and its dependencies are resolved at the versions it asks for. */
  predicate Complete(registry: Registry, s: State, p: Package) {
    p in registry && forall k :: 0 <= k < |registry[p]| ==> Has(s, registry[p][k].package)
  }

  ghost predicate Ordered(s: State) {
    && (forall c :: c in s.resolved <==> c in s.order)
    && forall i, j :: 0 <= i < j < |s.order| ==> s.order[i] != s.order[j]
  }

  /** What is resolved was reached; what is resolved and not being visited is complete. */
  ghost predicate Good(registry: Registry, roots: seq<Dependency>, s: State) {
    && (forall c <- s.resolved.Keys :: s.resolved[c].package.coordinate == c && Reachable(registry, roots, s.resolved[c].package))
    && (forall p <- s.visiting :: Has(s, p))
    && (forall c <- s.resolved.Keys :: s.resolved[c].package !in s.visiting ==> Complete(registry, s, s.resolved[c].package))
    && Ordered(s)
  }

  /** The packages from a root down to here, of different names, are all resolved. */
  ghost predicate Under(registry: Registry, roots: seq<Dependency>, s: State, path: seq<Package>, depth: nat) {
    && |path| == depth && (path == [] || Chain(registry, roots, path))
    && (forall k :: 0 <= k < |path| ==> Has(s, path[k])) && forall i, j :: 0 <= i < j < |path| ==> path[i].coordinate != path[j].coordinate
  }

  /** Resolved packages stay as they are. */
  ghost predicate Grew(s: State, t: State) {
    forall c <- s.resolved.Keys :: c in t.resolved && t.resolved[c] == s.resolved[c]
  }

  function Entered(s: State, item: Item): State {
    State(s.resolved[item.package.coordinate := item], s.order + [item.package.coordinate], s.visiting + {item.package})
  }

  lemma EnteredGood(registry: Registry, roots: seq<Dependency>, s: State, item: Item)
    requires Good(registry, roots, s) && item.package.coordinate !in s.resolved && Reachable(registry, roots, item.package)
    ensures Good(registry, roots, Entered(s, item)) && Grew(s, Entered(s, item)) && Has(Entered(s, item), item.package)
  {
    hide Reachable;
    var t, p := Entered(s, item), item.package;
    assert forall q :: Has(s, q) ==> Has(t, q);
    forall c | c in t.resolved.Keys && t.resolved[c].package !in t.visiting ensures Complete(registry, t, t.resolved[c].package) {
      assert c in s.resolved.Keys && Complete(registry, s, s.resolved[c].package);
    }
  }

  lemma LeftGood(registry: Registry, roots: seq<Dependency>, s: State, p: Package)
    requires Good(registry, roots, s) && Complete(registry, s, p)
    ensures Good(registry, roots, s.(visiting := s.visiting - {p}))
  {
    hide Reachable;
    var t := s.(visiting := s.visiting - {p});
    assert forall q :: Has(t, q) == Has(s, q);
    assert forall q :: Complete(registry, t, q) == Complete(registry, s, q);
  }

  lemma UnderGrows(registry: Registry, roots: seq<Dependency>, s: State, t: State, path: seq<Package>, depth: nat)
    requires Under(registry, roots, s, path, depth) && Grew(s, t)
    ensures Under(registry, roots, t, path, depth)
  {
    hide Chain;
  }

  lemma GrewTwice(s: State, t: State, u: State)
    requires Grew(s, t) && Grew(t, u)
    ensures Grew(s, u) && forall p :: Has(s, p) ==> Has(u, p)
  {
  }

  /** Going one package further down. */
  lemma UnderNext(registry: Registry, roots: seq<Dependency>, s: State, path: seq<Package>, depth: nat, item: Item)
    requires Good(registry, roots, s) && Under(registry, roots, s, path, depth) && item.package.coordinate !in s.resolved
    requires Chain(registry, roots, path + [item.package])
    ensures Under(registry, roots, Entered(s, item), path + [item.package], depth + 1)
  {
    hide Chain;
  }

  /** A chain this long is evidence, whether or not its last package was seen before. */
  lemma LongPath(registry: Registry, roots: seq<Dependency>, s: State, path: seq<Package>, p: Package)
    requires Under(registry, roots, s, path, DEPTH_LIMIT + 1) && Chain(registry, roots, path + [p])
    ensures LongChain(registry, roots)
  {
    hide Chain;
    assert DistinctButLast(path + [p]);
  }

  // ----- the installer -----

  class Installer {
    const registry: Registry
    var resolved: map<string, Item>
    var order: seq<string>
    var visiting: set<Package>

    constructor (registry: Registry)
      ensures this.registry == registry && Now() == State(map[], [], {})
    {
      this.registry, resolved, order, visiting := registry, map[], [], {};
    }

    ghost function Now(): State
      reads this
    {
      State(resolved, order, visiting)
    }

    /** The visit went well: more is resolved, and nothing else is being visited; or there is something wrong. */
    ghost predicate Went(roots: seq<Dependency>, before: State, error: Option<InstallError>)
      reads this
    {
      if error.Some? then Evidence(registry, roots, error.value)
      else Good(registry, roots, Now()) && Grew(before, Now()) && visiting == before.visiting
    }

    method Visit(dep: Dependency, depth: nat, ghost roots: seq<Dependency>, ghost path: seq<Package>, ghost rest: seq<Step>)
      returns (error: Option<InstallError>)
      requires Good(registry, roots, Now()) && Under(registry, roots, Now(), path, depth) && depth <= DEPTH_LIMIT + 1
      requires Chain(registry, roots, path + [dep.package])
      modifies this
      ensures Went(roots, old(Now()), error)
      ensures error.None? ==> Has(Now(), dep.package)
      ensures Searched(registry, old(Now()), [Step(dep, depth)] + rest, Now(), rest, error)
      decreases DEPTH_LIMIT + 1 - depth, 1
    {
      hide Under, Chain, LongChain, Complete, Ordered, Visits, Shallow, Seen, Steps, Expected;
      var p := dep.package;
      ReachedBy(registry, roots, path + [p]);
      ghost var before := Now();
      if depth > DEPTH_LIMIT {
        LongPath(registry, roots, before, path, p);
        SearchedNothing(registry, before, dep, depth, rest);
        return Some(TooDeep(p));
      }
      if p.coordinate in resolved {
        var prior := resolved[p.coordinate].package;
        if prior.version != p.version { return Some(Conflict(prior, p)); }
        SearchedNothing(registry, before, dep, depth, rest);
        return None;
      }
      if p in visiting { return Some(Cycle(p)); }
      visiting := visiting + {p};
      if p !in registry { return Some(Missing(p)); }
      var item := Item(dep.alias, p);
      EnteredGood(registry, roots, before, item);
      UnderNext(registry, roots, before, path, depth, item);
      ItemsOf(registry, roots, before);
      SearchedOne(registry, before, item, dep, depth, rest);
      ExpectedOne(registry, before, item, dep, depth, rest);
      resolved, order := resolved[p.coordinate := item], order + [p.coordinate];
      error := Enter(p, depth, roots, path, before, item, rest);
    }

    /** Visits the dependencies of a package that was just resolved, and leaves it. */
    method Enter(p: Package, depth: nat, ghost roots: seq<Dependency>, ghost path: seq<Package>, ghost before: State, ghost item: Item,
                 ghost rest: seq<Step>)
      returns (error: Option<InstallError>)
      requires item.package == p && p.coordinate !in before.resolved && p !in before.visiting && Now() == Entered(before, item)
      requires Good(registry, roots, Now()) && Grew(before, Now()) && Has(Now(), p)
      requires p in registry && depth <= DEPTH_LIMIT && Under(registry, roots, Now(), path + [p], depth + 1)
      modifies this
      ensures Went(roots, before, error)
      ensures error.None? ==> Has(Now(), p)
      ensures Searched(registry, old(Now()), Steps(registry[p], depth + 1) + rest, Now(), rest, error)
      decreases DEPTH_LIMIT + 1 - depth, 0
    {
      hide Good, Under, Evidence, Complete, Visits, Shallow, Steps, Expected;
      ghost var entered := Now();
      error := VisitChildren(p, depth, roots, path, rest);
      if error.None? {
        GrewTwice(before, entered, Now());
        GrewTwice(entered, Now(), Now());
        LeftGood(registry, roots, Now(), p);
        ghost var done := Now();
        visiting := visiting - {p};
        SameExpected(registry, done, Now(), rest);
      }
    }

    method VisitChildren(p: Package, depth: nat, ghost roots: seq<Dependency>, ghost path: seq<Package>, ghost rest: seq<Step>)
      returns (error: Option<InstallError>)
      requires Good(registry, roots, Now()) && p in registry && depth <= DEPTH_LIMIT
      requires Under(registry, roots, Now(), path + [p], depth + 1)
      modifies this
      ensures Went(roots, old(Now()), error)
      ensures error.None? ==> Complete(registry, Now(), p)
      ensures Searched(registry, old(Now()), Steps(registry[p], depth + 1) + rest, Now(), rest, error)
      decreases DEPTH_LIMIT - depth, 2
    {
      hide Good, Under, Evidence, Grew, Visits, Shallow, Seen, Expected;
      ghost var start := Now();
      ghost var steps := Steps(registry[p], depth + 1);
      GrewSelf(start);
      assert steps[0..] == steps;
      for k := 0 to |registry[p]|
        invariant Searched(registry, start, steps + rest, Now(), steps[k..] + rest, None)
        invariant Good(registry, roots, Now()) && Grew(start, Now()) && visiting == start.visiting
        invariant Under(registry, roots, Now(), path + [p], depth + 1)
        invariant forall j :: 0 <= j < k ==> Has(Now(), registry[p][j].package)
      {
        var child := registry[p][k];
        ghost var before := Now();
        UnderChain(registry, roots, before, path + [p], depth + 1);
        OneFurther(registry, roots, path + [p], child.package, k);
        NextStep(registry[p], depth + 1, k, rest);
        var e := Visit(child, depth + 1, roots, path + [p], steps[k + 1..] + rest);
        if e.Some? { return e; }
        GrewTwice(start, before, Now());
        GrewSelf(before);
        GrewTwice(before, before, Now());
        UnderGrows(registry, roots, before, Now(), path + [p], depth + 1);
      }
      assert steps[|registry[p]|..] + rest == rest;
      return None;
    }

    /** Installs everything the roots need, in the order of the first visits. */
    method Install(roots: seq<Dependency>) returns (r: Result<seq<Item>, InstallError>)
      requires Now() == State(map[], [], {})
      modifies this
      ensures r.Ok? ==> Installed(registry, roots, r.value)
      ensures r.Err? ==> Evidence(registry, roots, r.error)
      ensures r.Ok? ==> WithinLimit(registry, roots) && r.value == Fetched(Visits(registry, Steps(roots, 0), {}), {})
      ensures r.Err? && r.error.TooDeep? ==> !WithinLimit(registry, roots)
    {
      hide Good, Under, Evidence, Grew, Visits, Shallow, Fetched, Listed;
      NothingYet(registry, roots);
      NothingListed(Now());
      GrewSelf(Now());
      ghost var steps := Steps(roots, 0);
      assert steps[0..] + [] == steps && Seen(Now()) == {};
      for k := 0 to |roots|
        invariant WithinLimit(registry, roots) <==> Shallow(Visits(registry, steps[k..] + [], Seen(Now())))
        invariant Fetched(Visits(registry, steps, {}), {}) == Expected(registry, Now(), steps[k..] + [])
        invariant Good(registry, roots, Now()) && visiting == {}
        invariant forall j :: 0 <= j < k ==> Has(Now(), roots[j].package)
      {
        ghost var before := Now();
        StartUnder(registry, roots, before, k);
        NextStep(roots, 0, k, []);
        var e := Visit(roots[k], 0, roots, [], steps[k + 1..] + []);
        if e.Some? { return Err(e.value); }
        GrewSelf(before);
        GrewTwice(before, before, Now());
      }
      assert steps[|roots|..] + [] == [];
      NothingLeft(registry, Seen(Now()));
      ghost var s := Now();
      ItemsOf(registry, roots, s);
      var items := seq(|order|, i requires 0 <= i < |order| && order[i] in resolved reads this => resolved[order[i]]);
      AllInstalled(registry, roots, s, items);
      ListedItems(s, items);
      assert Listed(s) + [] == Listed(s);
      return Ok(items);
    }
  }

  lemma NothingLeft(registry: Registry, seen: set<Package>)
    ensures Shallow(Visits(registry, [], seen)) && Fetched(Visits(registry, [], seen), seen) == []
  {
  }

  lemma NothingListed(s: State)
    ensures s.order == [] ==> Listed(s) == [] && forall more: seq<Item> :: Listed(s) + more == more
  {
  }

  lemma ListedItems(s: State, items: seq<Item>)
    requires |items| == |s.order| && forall i :: 0 <= i < |items| ==> s.order[i] in s.resolved && items[i] == s.resolved[s.order[i]]
    ensures Listed(s) == items
  {
  }

  lemma ReachedBy(registry: Registry, roots: seq<Dependency>, path: seq<Package>)
    requires Chain(registry, roots, path)
    ensures Reachable(registry, roots, path[|path| - 1])
  {
  }

  lemma OneFurther(registry: Registry, roots: seq<Dependency>, path: seq<Package>, p: Package, k: nat)
    requires Chain(registry, roots, path)
    requires var last := path[|path| - 1]; last in registry && k < |registry[last]| && registry[last][k].package == p
    ensures Chain(registry, roots, path + [p])
  {
    var longer := path + [p];
    forall j | 0 <= j < |longer| - 1 ensures DependsOn(registry, longer[j], longer[j + 1]) {
      if j == |path| - 1 { assert registry[longer[j]][k].package == longer[j + 1]; }
    }
  }

  lemma GrewSelf(s: State)
    ensures Grew(s, s)
  {
  }

  lemma NothingYet(registry: Registry, roots: seq<Dependency>)
    ensures Good(registry, roots, State(map[], [], {}))
  {
  }

  lemma UnderChain(registry: Registry, roots: seq<Dependency>, s: State, path: seq<Package>, depth: nat)
    requires Under(registry, roots, s, path, depth) && depth > 0
    ensures Chain(registry, roots, path)
  {
  }

  lemma StartUnder(registry: Registry, roots: seq<Dependency>, s: State, k: nat)
    requires k < |roots|
    ensures Under(registry, roots, s, [], 0) && Chain(registry, roots, [] + [roots[k].package])
  {
    assert [] + [roots[k].package] == [roots[k].package];
    assert IsRoot(roots, roots[k].package);
  }

  lemma ItemsOf(registry: Registry, roots: seq<Dependency>, s: State)
    requires Good(registry, roots, s)
    ensures forall i :: 0 <= i < |s.order| ==> s.order[i] in s.resolved
  {
    forall i | 0 <= i < |s.order| ensures s.order[i] in s.resolved { assert s.order[i] in s.order; }
  }

  // ----- the result -----

  /** Exactly the packages that can be reached, each once, with every dependency at the version asked for. */
  ghost predicate Installed(registry: Registry, roots: seq<Dependency>, items: seq<Item>) {
    && (forall p :: Reachable(registry, roots, p) <==> exists k :: 0 <= k < |items| && items[k].package == p)
    && (forall j, k :: 0 <= j < k < |items| ==> items[j].package.coordinate != items[k].package.coordinate)
    && forall k :: 0 <= k < |items| ==> items[k].package in registry
  }

  lemma {:induction false} ChainResolved(registry: Registry, roots: seq<Dependency>, s: State, path: seq<Package>)
    requires Good(registry, roots, s) && s.visiting == {} && (forall j :: 0 <= j < |roots| ==> Has(s, roots[j].package))
    requires Chain(registry, roots, path)
    ensures Has(s, path[|path| - 1])
    decreases |path|
  {
    hide Reachable, Ordered;
    var n := |path| - 1;
    if n > 0 {
      assert Chain(registry, roots, path[..n]);
      ChainResolved(registry, roots, s, path[..n]);
      assert DependsOn(registry, path[n - 1], path[n]);
      assert Complete(registry, s, s.resolved[path[n - 1].coordinate].package);
    }
  }

  lemma AllInstalled(registry: Registry, roots: seq<Dependency>, s: State, items: seq<Item>)
    requires Good(registry, roots, s) && s.visiting == {} && (forall j :: 0 <= j < |roots| ==> Has(s, roots[j].package))
    requires |items| == |s.order| && forall i :: 0 <= i < |items| ==> s.order[i] in s.resolved && items[i] == s.resolved[s.order[i]]
    ensures Installed(registry, roots, items)
  {
    hide Reachable, Complete;
    forall p ensures Reachable(registry, roots, p) <==> exists k :: 0 <= k < |items| && items[k].package == p {
      if Reachable(registry, roots, p) {
        ReachedIsResolved(registry, roots, s, p);
        var k :| 0 <= k < |s.order| && s.order[k] == p.coordinate;
        assert items[k].package == p;
      }
    }
    forall k | 0 <= k < |items| ensures items[k].package in registry { ResolvedIsPresent(registry, roots, s, s.order[k]); }
  }

  lemma ReachedIsResolved(registry: Registry, roots: seq<Dependency>, s: State, p: Package)
    requires Good(registry, roots, s) && s.visiting == {} && (forall j :: 0 <= j < |roots| ==> Has(s, roots[j].package))
    requires Reachable(registry, roots, p)
    ensures Has(s, p)
  {
    hide Good, Has;
    var path :| Chain(registry, roots, path) && path[|path| - 1] == p;
    ChainResolved(registry, roots, s, path);
  }

  lemma ResolvedIsPresent(registry: Registry, roots: seq<Dependency>, s: State, c: string)
    requires Good(registry, roots, s) && s.visiting == {} && c in s.resolved
    ensures s.resolved[c].package in registry
  {
    assert Complete(registry, s, s.resolved[c].package);
  }

  /** An installation can only succeed where everything is there and nothing is asked for in two versions. */
  lemma InstalledIsConsistent(registry: Registry, roots: seq<Dependency>, items: seq<Item>)
    requires Installed(registry, roots, items)
    ensures AllPresent(registry, roots) && OneVersion(registry, roots)
  {
    hide Reachable;
  }

  /**
   An installation succeeds exactly if everything is there, in one version each, and the search stays within the limit;
   it lists what the search finds, in its order.
   */
  method InstallAll(registry: Registry, roots: seq<Dependency>) returns (r: Result<seq<Item>, InstallError>)
    ensures r.Ok? <==> AllPresent(registry, roots) && OneVersion(registry, roots) && WithinLimit(registry, roots)
    ensures r.Ok? ==> Installed(registry, roots, r.value) && r.value == Fetched(Visits(registry, Steps(roots, 0), {}), {})
    ensures r.Err? ==> Evidence(registry, roots, r.error)
    ensures r.Err? && r.error.TooDeep? ==> !WithinLimit(registry, roots)
  {
    hide Reachable, Installed, LongChain, WithinLimit, Fetched, Visits;
    var installer := new Installer(registry);
    r := installer.Install(roots);
    if r.Ok? { InstalledIsConsistent(registry, roots, r.value); }
  }
}
