/**
 Generic matching is sound: when a call's parameter types all match its argument types, substituting the final bindings
 into a parameter type gives exactly the argument's type.

 Types are those a program can write without `volatile`.
 */
module GenericMatching {
  import opened Basics
  import opened Hexadecimal
  import opened Generics

  datatype Type = Named(id: string) | Ptr(to: Type) | Slice(of: Type) | Arr(of: Type, count: string) | App(base: string, args: seq<Type>)

  // ----- types and their text -----

  function Render(t: Type): string
    decreases t, 1
  {
    match t
    case Named(id) => id
    case Ptr(u) => "*" + Render(u)
    case Slice(u) => "[]" + Render(u)
    case Arr(u, n) => "[" + Render(u) + (";" + n + "]")
    case App(b, args) => Mangle(b, RenderAll(args))
  }

  function RenderAll(ts: seq<Type>): (r: seq<string>)
    ensures |r| == |ts|
    decreases ts, 0
  {
    if ts == [] then [] else [Render(ts[0])] + RenderAll(ts[1..])
  }

  predicate IsIdent(s: string) {
    s != "" && IdentStart(s[0]) && forall k :: 0 <= k < |s| ==> IdentChar(s[k])
  }

  /** No marker begins inside the base when a marker is written behind it. */
  predicate NoEarlierMarker(base: string) {
    Find(base + MARKER, 0) == Some(|base|)
  }

  /** An identifier that is no mangled application. */
  predicate PlainName(s: string) {
    IsIdent(s) && Find(s, 0).None?
  }

  predicate IsCount(n: string) {
    n != "" && '0' <= n[0] <= '9' && forall k :: 0 <= k < |n| ==> IdentChar(n[k])
  }

  predicate Proper(t: Type) {
    match t
    case Named(id) => PlainName(id)
    case Ptr(u) => Proper(u)
    case Slice(u) => Proper(u)
    case Arr(u, n) => Proper(u) && IsCount(n) && Find(n, 0).None?
    case App(b, args) => IsIdent(b) && NoEarlierMarker(b) && args != [] && AllProper(args)
  }

  predicate AllProper(ts: seq<Type>) {
    ts == [] || (Proper(ts[0]) && AllProper(ts[1..]))
  }

  /** No word of the type is one of the names; a count's digits may be followed by a word. */
  predicate Avoids(t: Type, gps: seq<string>) {
    match t
    case Named(id) => id !in gps
    case Ptr(u) => Avoids(u, gps)
    case Slice(u) => Avoids(u, gps)
    case Arr(u, n) => Avoids(u, gps) && CountAvoids(n, gps)
    case App(_, args) => AllAvoid(args, gps)
  }

  predicate AllAvoid(ts: seq<Type>, gps: seq<string>) {
    ts == [] || (Avoids(ts[0], gps) && AllAvoid(ts[1..], gps))
  }

  /** No array in the type mentions one of the names; elsewhere they may stand. */
  predicate ArraysAvoid(t: Type, gps: seq<string>) {
    match t
    case Named(_) => true
    case Ptr(u) => ArraysAvoid(u, gps)
    case Slice(u) => ArraysAvoid(u, gps)
    case Arr(_, _) => Avoids(t, gps)
    case App(_, args) => AllArraysAvoid(args, gps)
  }

  predicate AllArraysAvoid(ts: seq<Type>, gps: seq<string>) {
    ts == [] || (ArraysAvoid(ts[0], gps) && AllArraysAvoid(ts[1..], gps))
  }

  /** The number of characters in front of the first word. */
  function WordStart(n: string): (k: nat)
    ensures k <= |n| && (forall j :: 0 <= j < k ==> !IdentStart(n[j])) && (k < |n| ==> IdentStart(n[k]))
  {
    if n == "" || IdentStart(n[0]) then 0 else 1 + WordStart(n[1..])
  }

  /** A count such as 0x10 ends in a word, x10. */
  predicate CountAvoids(n: string, gps: seq<string>) {
    n[WordStart(n)..] !in gps
  }

  // ----- markers -----

  lemma MarkerStarts(s: string, i: nat)
    requires MarkerAt(s, i)
    ensures s[i] == '_' && s[i + 2] == 'n'
  {
    assert s[i..i + |MARKER|][0] == '_' && s[i..i + |MARKER|][2] == 'n';
  }

  /** Where no marker stands, the search goes on. */
  lemma {:induction false} FindPast(s: string, i: nat, j: nat)
    requires i <= j && forall k :: i <= k < j ==> !MarkerAt(s, k)
    ensures Find(s, i) == Find(s, j)
    decreases j - i
  {
    if i < j {
      if i + |MARKER| <= |s| { FindPast(s, i + 1, j); }
    }
  }

  lemma FindHere(s: string, i: nat)
    requires MarkerAt(s, i)
    ensures Find(s, i) == Some(i)
  {
  }

  lemma {:induction false} HexDigits(s: string)
    ensures forall k :: 0 <= k < |Hex(s)| ==> Hex(s)[k] != '_' && IdentChar(Hex(s)[k])
  {
    if s != "" { HexDigits(s[1..]); }
  }

  // ----- the mangled tail -----

  function Tail(args: seq<string>): string {
    if args == [] then "" else MARKER + Hex(args[0]) + Tail(args[1..])
  }

  predicate Trimmed(s: string) {
    Trim(s) == s
  }

  lemma {:induction false} TailAppend(args: seq<string>, a: string)
    ensures Tail(args + [a]) == Tail(args) + (MARKER + Hex(a))
  {
    if args == [] {
      assert args + [a] == [a] && [a][1..] == [];
    } else {
      assert (args + [a])[1..] == args[1..] + [a];
      TailAppend(args[1..], a);
    }
  }

  lemma {:induction false} MangleIsTail(base: string, args: seq<string>)
    requires forall k :: 0 <= k < |args| ==> Trimmed(args[k])
    ensures Mangle(base, args) == base + Tail(args)
  {
    hide Tail, Hex, Trim;
    if args == [] {
      NoTail();
      assert base + "" == base;
    } else {
      var n := |args| - 1;
      MangleIsTail(base, args[..n]);
      TailAppend(args[..n], args[n]);
      assert args == args[..n] + [args[n]];
      Associate(base, Tail(args[..n]), MARKER, Hex(args[n]));
    }
  }

  lemma NoTail()
    ensures Tail([]) == ""
  {
  }

  lemma Associate(a: string, b: string, c: string, d: string)
    ensures a + b + c + d == a + (b + (c + d))
  {
  }

  lemma TailStarts(args: seq<string>)
    requires args != []
    ensures |Tail(args)| >= |MARKER| && Tail(args)[..|MARKER|] == MARKER
  {
  }

  /** Text and what stands behind it. */
  lemma Parts(a: string, b: string)
    ensures (a + b)[..|a|] == a && (a + b)[|a|..] == b
  {
  }

  lemma NothingBehind(s: string)
    ensures s + "" == s
  {
  }

  /** The first argument `h` of a tail, behind a prefix. */
  lemma FirstArgument(value: string, pre: string, h: string, arg: string, rest: string)
    requires AllBytes(arg) && h == Hex(arg) && value == pre + MARKER + h + rest
    ensures var q := |pre| + |MARKER|;
            && MarkerAt(value, |pre|) && q + |h| <= |value|
            && Find(value, q) == Find(value, q + |h|) && value[q..q + |h|] == h && Unhex(h) == Some(arg)
            && value[q..] == h + rest
  {
    hide Find, Unhex, Hex, AllBytes;
    var q := |pre| + |MARKER|;
    Slices(pre, MARKER, h, rest);
    assert value[|pre|..q] == MARKER;
    SkipsHex(value, q, h, rest, arg);
    UnhexOfHex(arg);
  }

  lemma ReadsLast(value: string, pre: string, h: string, arg: string)
    requires AllBytes(arg) && h == Hex(arg) && value == pre + MARKER + h
    ensures MarkerAt(value, |pre|) && ParseArguments(value, |pre|) == Some([arg])
  {
    hide Find, Unhex, Hex, ParseArguments, MarkerAt, AllBytes;
    NothingBehind(value);
    NothingBehind(h);
    FirstArgument(value, pre, h, arg, "");
    FindsNothing(value, |value|);
    LastArgument(value, |pre|, arg);
  }

  lemma ReadsNext(value: string, pre: string, h: string, longer: string, arg: string, rest: string, args: seq<string>)
    requires AllBytes(arg) && h == Hex(arg) && longer == pre + MARKER + h && value == longer + rest
    requires MarkerAt(value, |longer|) && ParseArguments(value, |longer|) == Some(args)
    ensures MarkerAt(value, |pre|) && ParseArguments(value, |pre|) == Some([arg] + args)
  {
    hide Find, Unhex, Hex, ParseArguments, MarkerAt, AllBytes;
    FirstArgument(value, pre, h, arg, rest);
    FindHere(value, |longer|);
    NextArgument(value, |pre|, |longer|, arg, args);
  }

  /** Behind a prefix, the tail's arguments are read back. */
  lemma {:induction false} ArgumentsReadBack(pre: string, args: seq<string>)
    requires args != [] && forall k :: 0 <= k < |args| ==> AllBytes(args[k])
    ensures MarkerAt(pre + Tail(args), |pre|) && ParseArguments(pre + Tail(args), |pre|) == Some(args)
    decreases |args|
  {
    hide Hex, Tail, ParseArguments, MarkerAt, AllBytes;
    TailIs(pre, args);
    var value, h, rest := pre + Tail(args), Hex(args[0]), Tail(args[1..]);
    var longer := pre + MARKER + h;
    if args[1..] == [] {
      NoTail();
      NothingBehind(longer);
      ReadsLast(value, pre, h, args[0]);
      assert [args[0]] == args;
    } else {
      ArgumentsReadBack(longer, args[1..]);
      ReadsNext(value, pre, h, longer, args[0], rest, args[1..]);
      assert [args[0]] + args[1..] == args;
    }
  }

  lemma LastArgument(value: string, p: nat, arg: string)
    requires MarkerAt(value, p)
    requires var q := p + |MARKER|;
             Find(value, q) == None && Unhex(Segment(value, q, None)) == Some(arg)
    ensures ParseArguments(value, p) == Some([arg])
  {
    hide Find, Unhex;
  }

  lemma NextArgument(value: string, p: nat, next: nat, arg: string, args: seq<string>)
    requires MarkerAt(value, p) && MarkerAt(value, next) && p + |MARKER| <= next
    requires var q := p + |MARKER|;
             Find(value, q) == Some(next) && Unhex(Segment(value, q, Some(next))) == Some(arg)
    requires ParseArguments(value, next) == Some(args)
    ensures ParseArguments(value, p) == Some([arg] + args)
  {
    hide Find, Unhex;
  }

  lemma TailIs(pre: string, args: seq<string>)
    requires args != []
    ensures pre + Tail(args) == pre + MARKER + Hex(args[0]) + Tail(args[1..])
  {
    hide Hex;
    Associate(pre, MARKER, Hex(args[0]), Tail(args[1..]));
  }

  lemma Slices(a: string, b: string, c: string, d: string)
    ensures var s := a + b + c + d;
            && s[|a|..|a| + |b|] == b && s[|a| + |b|..] == c + d && s[|a| + |b|..|a| + |b| + |c|] == c
            && s[|a| + |b| + |c|..] == d
  {
  }

  lemma FindsNothing(s: string, i: nat)
    requires i >= |s|
    ensures Find(s, i).None?
  {
  }

  /** No marker begins in a hexadecimal part. */
  lemma SkipsHex(value: string, q: nat, h: string, rest: string, s: string)
    requires q + |h| + |rest| == |value| && value[q..] == h + rest && h == Hex(s)
    ensures Find(value, q) == Find(value, q + |h|)
  {
    hide Find, Hex;
    HexDigits(s);
    forall k | q <= k < q + |h| ensures !MarkerAt(value, k) {
      assert value[k] == value[q..][k - q] == h[k - q];
      if MarkerAt(value, k) { MarkerStarts(value, k); }
    }
    FindPast(value, q, q + |h|);
  }

  lemma SameMarker(s: string, i: nat, t: string, j: nat)
    requires i + |MARKER| <= |s| && j + |MARKER| <= |t| && s[i..i + |MARKER|] == t[j..j + |MARKER|]
    ensures MarkerAt(s, i) == MarkerAt(t, j)
  {
  }

  /** Behind a base there are the same characters, whatever is in front of it. */
  lemma BaseWindow(pre: string, base: string, tail: string, k: nat)
    requires |tail| >= |MARKER| && tail[..|MARKER|] == MARKER && k <= |base|
    ensures MarkerAt(pre + base + tail, |pre| + k) == MarkerAt(base + MARKER, k)
  {
    var s, t := pre + base + tail, base + MARKER;
    assert s[|pre|..|pre| + |base| + |MARKER|] == t;
    assert s[|pre| + k..|pre| + k + |MARKER|] == s[|pre|..|pre| + |base| + |MARKER|][k..k + |MARKER|];
    SameMarker(s, |pre| + k, t, k);
  }

  lemma MarkerLast(base: string)
    ensures MarkerAt(base + MARKER, |base|)
  {
    assert (base + MARKER)[|base|..|base| + |MARKER|] == MARKER;
  }

  /** A base without an earlier marker, in front of a tail. */
  lemma FirstMarker(pre: string, base: string, args: seq<string>)
    requires args != [] && NoEarlierMarker(base) && forall k :: 0 <= k < |pre| ==> pre[k] != '_'
    ensures Find(pre + base + Tail(args), 0) == Some(|pre| + |base|)
  {
    hide Tail, MarkerAt, Find;
    TailStarts(args);
    var value := pre + base + Tail(args);
    var at := |pre| + |base|;
    assert forall k :: 0 <= k < |base| ==> !MarkerAt(base + MARKER, k);
    forall k | 0 <= k < at ensures !MarkerAt(value, k) {
      if k >= |pre| {
        BaseWindow(pre, base, Tail(args), k - |pre|);
      } else if MarkerAt(value, k) {
        MarkerStarts(value, k);
      }
    }
    BaseWindow(pre, base, Tail(args), |base|);
    MarkerLast(base);
    FindPast(value, 0, at);
    FindHere(value, at);
  }

  lemma MangledReadsBack(pre: string, base: string, args: seq<string>)
    requires args != [] && base != "" && NoEarlierMarker(base) && forall k :: 0 <= k < |pre| ==> pre[k] != '_'
    requires forall k :: 0 <= k < |args| ==> AllBytes(args[k])
    ensures ParseMangled(pre + base + Tail(args)) == Some(Application(pre + base, args))
  {
    hide Find, ParseArguments, ParseMangled, Tail, MarkerAt, AllBytes, NoEarlierMarker;
    var first, tail := pre + base, Tail(args);
    FirstMarker(pre, base, args);
    ArgumentsReadBack(first, args);
    Parts(first, tail);
    SplitAtMarker(first + tail, first, args);
  }

  lemma SplitAtMarker(value: string, first: string, args: seq<string>)
    requires first != "" && |first| <= |value| && value[..|first|] == first && Find(value, 0) == Some(|first|)
    requires MarkerAt(value, |first|) && ParseArguments(value, |first|) == Some(args)
    ensures ParseMangled(value) == Some(Application(first, args))
  {
    hide Find, ParseArguments, MarkerAt;
  }

  /** Mangling is undone exactly if the base is not empty and no marker begins earlier. */
  lemma MangleReadsBackIff(base: string, args: seq<string>)
    requires args != [] && forall k :: 0 <= k < |args| ==> Trimmed(args[k]) && AllBytes(args[k])
    ensures ParseMangled(Mangle(base, args)) == Some(Application(base, args)) <==> base != "" && NoEarlierMarker(base)
  {
    hide ParseArguments, Tail, Mangle, MarkerAt, Find;
    MangleIsTail(base, args);
    var value := base + Tail(args);
    if base != "" && NoEarlierMarker(base) {
      MangledReadsBack("", base, args);
      assert "" + base == base;
    } else {
      TailStarts(args);
      assert "" + base + Tail(args) == value;
      BaseWindow("", base, Tail(args), |base|);
      MarkerLast(base);
      var first := Find(value, 0);
      assert first.Some? && first.value <= |base|;
      if first.value == |base| {
        forall k | 0 <= k < |base| ensures !MarkerAt(base + MARKER, k) { BaseWindow("", base, Tail(args), k); }
        FindPast(base + MARKER, 0, |base|);
        FindHere(base + MARKER, |base|);
      } else {
        assert |value[..first.value]| == first.value;
      }
    }
  }

  /** A base that ends in the beginning of a marker is cut there. */
  lemma BaseWithMarkerIsCut()
    ensures !NoEarlierMarker("a__nqg")
    ensures ParseMangled(Mangle("a__nqg", ["int"])) != Some(Application("a__nqg", ["int"]))
  {
    var base := "a__nqg";
    assert (base + MARKER)[1..1 + |MARKER|] == MARKER;
    assert MarkerAt(base + MARKER, 1);
    hide ParseMangled, Mangle;
    assert Trimmed("int") && AllBytes("int");
    MangleReadsBackIff(base, ["int"]);
  }

  // ----- the text of types -----

  predicate Solid(s: string) {
    forall k :: 0 <= k < |s| ==> !IsBlank(s[k])
  }

  lemma SolidTrimmed(s: string)
    requires Solid(s)
    ensures Trimmed(s)
  {
  }

  predicate AllIdent(s: string) {
    forall k :: 0 <= k < |s| ==> IdentChar(s[k])
  }

  lemma {:induction false} TailIdent(args: seq<string>)
    ensures AllIdent(Tail(args)) && Solid(Tail(args)) && AllBytes(Tail(args))
  {
    if args != [] {
      HexDigits(args[0]);
      TailIdent(args[1..]);
    }
  }

  lemma JoinSolid(a: string, b: string)
    requires Solid(a) && Solid(b) && AllBytes(a) && AllBytes(b)
    ensures Solid(a + b) && AllBytes(a + b)
  {
  }

  lemma IdentSolid(s: string)
    requires AllIdent(s)
    ensures Solid(s) && AllBytes(s)
  {
  }

  lemma SignsSolid()
    ensures forall s <- ["*", "[]", "[", ";", "]"] :: Solid(s) && AllBytes(s)
  {
  }

  lemma {:induction false} RenderSolid(t: Type)
    requires Proper(t)
    ensures Solid(Render(t)) && Render(t) != "" && Trimmed(Render(t)) && AllBytes(Render(t))
    ensures Render(t)[0] != ']' && Render(t)[0] != ';'
    decreases t, 1
  {
    hide Mangle, Trimmed, Trim, Solid, AllBytes, Find, NoEarlierMarker, Tail;
    SignsSolid();
    match t {
      case Named(id) => IdentSolid(id);
      case Ptr(u) =>
        RenderSolid(u);
        JoinSolid("*", Render(u));
      case Slice(u) =>
        RenderSolid(u);
        JoinSolid("[]", Render(u));
      case Arr(u, n) =>
        RenderSolid(u);
        IdentSolid(n);
        JoinSolid("[", Render(u));
        JoinSolid(";", n);
        JoinSolid(";" + n, "]");
        JoinSolid("[" + Render(u), ";" + n + "]");
      case App(b, args) =>
        AllTrimmed(args);
        MangleIsTail(b, RenderAll(args));
        TailIdent(RenderAll(args));
        IdentSolid(b);
        JoinSolid(b, Tail(RenderAll(args)));
    }
    SolidTrimmed(Render(t));
  }

  lemma {:induction false} AllTrimmed(ts: seq<Type>)
    requires AllProper(ts)
    ensures forall k :: 0 <= k < |ts| ==> Trimmed(RenderAll(ts)[k]) && AllBytes(RenderAll(ts)[k])
    decreases ts, 0
  {
    hide Render, Trimmed, AllBytes;
    if ts != [] {
      RenderSolid(ts[0]);
      AllTrimmed(ts[1..]);
    }
  }

  lemma RenderApp(b: string, args: seq<Type>)
    requires Proper(App(b, args))
    ensures Render(App(b, args)) == b + Tail(RenderAll(args)) && RenderAll(args) != []
    ensures forall k :: 0 <= k < |args| ==> AllBytes(RenderAll(args)[k])
  {
    hide AllBytes, Mangle, Trimmed;
    AllTrimmed(args);
    MangleIsTail(b, RenderAll(args));
  }

  /** The pointers and slices around a type, as text. */
  function Pre(t: Type): string {
    match t case Ptr(u) => "*" + Pre(u) case Slice(u) => "[]" + Pre(u) case _ => ""
  }

  function Core(t: Type): Type {
    match t case Ptr(u) => Core(u) case Slice(u) => Core(u) case _ => t
  }

  predicate IsPrefixChar(c: char) {
    c == '*' || c == '[' || c == ']'
  }

  lemma {:induction false} RenderCore(t: Type)
    ensures Render(t) == Pre(t) + Render(Core(t)) && !Core(t).Ptr? && !Core(t).Slice?
    ensures forall k :: 0 <= k < |Pre(t)| ==> IsPrefixChar(Pre(t)[k])
    ensures Proper(t) ==> Proper(Core(t))
  {
    hide Mangle, Find, IsIdent, IsCount;
    match t
    case Ptr(u) =>
      RenderCore(u);
      assert "*" + (Pre(u) + Render(Core(u))) == ("*" + Pre(u)) + Render(Core(u));
    case Slice(u) =>
      RenderCore(u);
      assert "[]" + (Pre(u) + Render(Core(u))) == ("[]" + Pre(u)) + Render(Core(u));
    case _ => assert "" + Render(t) == Render(t);
  }

  // ----- which types are mangled -----

  /** Text that ends in a bracket is no application. */
  lemma {:induction false} BracketNoArguments(value: string, p: nat)
    requires MarkerAt(value, p) && value[|value| - 1] == ']'
    ensures ParseArguments(value, p).None?
    decreases |value| - p
  {
    hide Find, Unhex;
    var q := p + |MARKER|;
    var next := Find(value, q);
    if next.None? {
      assert value[p..q] == MARKER;
      assert value[q - 1] == value[p..q][|MARKER| - 1] == '_';
      var last := Segment(value, q, next);
      assert last[|last| - 1] == ']';
      UnhexNeedsDigits(last, |last| - 1);
    } else {
      BracketNoArguments(value, next.value);
    }
  }

  lemma BracketNotMangled(value: string)
    requires value != "" && value[|value| - 1] == ']'
    ensures ParseMangled(value).None?
  {
    hide Find, ParseArguments;
    var first := Find(value, 0);
    if first.Some? && first.value != 0 { BracketNoArguments(value, first.value); }
  }

  lemma NameNotMangled(pre: string, id: string)
    requires Find(id, 0).None? && forall k :: 0 <= k < |pre| ==> pre[k] != '_'
    ensures ParseMangled(pre + id).None?
  {
    hide Find;
    var value := pre + id;
    forall k | 0 <= k ensures !MarkerAt(value, k) {
      if MarkerAt(value, k) { MarkerBehind(pre, id, k); }
    }
  }

  /** A marker behind text without underscores. */
  lemma MarkerBehind(pre: string, s: string, k: nat)
    requires MarkerAt(pre + s, k) && forall j :: 0 <= j < |pre| ==> pre[j] != '_'
    ensures k >= |pre| && MarkerAt(s, k - |pre|)
  {
    MarkerStarts(pre + s, k);
    assert (pre + s)[k..k + |MARKER|] == s[k - |pre|..k - |pre| + |MARKER|];
  }

  lemma RenderedMangling(t: Type)
    requires Proper(t)
    ensures Core(t).App? ==> ParseMangled(Render(t)) == Some(Application(Pre(t) + Core(t).base, RenderAll(Core(t).args)))
    ensures !Core(t).App? ==> ParseMangled(Render(t)).None?
  {
    hide ParseMangled, Mangle, AllBytes, Find, Tail;
    RenderCore(t);
    var pre := Pre(t);
    assert forall k :: 0 <= k < |pre| ==> pre[k] != '_';
    match Core(t)
    case Named(id) => NameNotMangled(pre, id);
    case Arr(u, n) => BracketNotMangled(Render(t));
    case App(b, args) =>
      RenderApp(b, args);
      assert Render(t) == pre + b + Tail(RenderAll(args));
      MangledReadsBack(pre, b, RenderAll(args));
  }

  // ----- substitution in types -----

  lemma {:induction false} WholeWord(w: string)
    requires AllIdent(w)
    ensures WordLength(w) == |w|
  {
    if w != "" { WholeWord(w[1..]); }
  }

  lemma SubstituteWordIs(w: string, b: Bindings)
    requires IsIdent(w)
    ensures Substitute(w, b) == Replaced(w, b)
  {
    hide Substitute, Replaced;
    WholeWord(w);
    SubstituteUnfolds(w, b);
    SubstituteNothing(b);
    assert w[..|w|] == w && w[|w|..] == "";
    assert Replaced(w, b) + "" == Replaced(w, b);
  }

  lemma SubstituteName(id: string, b: Bindings)
    requires PlainName(id)
    ensures Substitute(id, b) == Lookup(id, b)
  {
    hide Substitute;
    SubstituteWordIs(id, b);
    NameNotMangled("", id);
    assert "" + id == id;
  }

  lemma {:induction false} SubstitutePrefix(pre: string, s: string, b: Bindings)
    requires forall k :: 0 <= k < |pre| ==> !IdentStart(pre[k])
    ensures Substitute(pre + s, b) == pre + Substitute(s, b)
    decreases |pre|
  {
    hide Substitute, Replaced;
    if pre == "" {
      assert pre + s == s && pre + Substitute(s, b) == Substitute(s, b);
    } else {
      assert (pre + s)[1..] == pre[1..] + s;
      SubstituteUnfolds(pre + s, b);
      SubstitutePrefix(pre[1..], s, b);
      assert [pre[0]] + (pre[1..] + Substitute(s, b)) == pre + Substitute(s, b);
    }
  }

  lemma {:induction false} WordThenRest(s: string, rest: string)
    requires rest == "" || !IdentChar(rest[0])
    ensures WordLength(s + rest) == WordLength(s)
  {
    if s == "" {
      assert s + rest == rest;
    } else {
      assert (s + rest)[1..] == s[1..] + rest;
      WordThenRest(s[1..], rest);
    }
  }

  /** Text that begins with no word character is substituted on its own. */
  lemma {:induction false} SubstituteSplit(s: string, rest: string, b: Bindings)
    requires rest == "" || !IdentChar(rest[0])
    ensures Substitute(s + rest, b) == Substitute(s, b) + Substitute(rest, b)
    decreases |s|
  {
    hide Substitute, Replaced, WordLength, IdentChar, IdentStart;
    if s == "" {
      SubstituteNothing(b);
      assert s + rest == rest && "" + Substitute(rest, b) == Substitute(rest, b);
    } else {
      var n := FirstStep(s, rest, b);
      SubstituteSplit(s[n..], rest, b);
      var text := if IdentStart(s[0]) then Replaced(s[..n], b) else s[..n];
      assert text + (Substitute(s[n..], b) + Substitute(rest, b)) == text + Substitute(s[n..], b) + Substitute(rest, b);
    }
  }

  /** The first word, or the first other character, is the same with the rest behind it. */
  lemma FirstStep(s: string, rest: string, b: Bindings) returns (n: nat)
    requires s != "" && (rest == "" || !IdentChar(rest[0]))
    ensures 0 < n <= |s|
    ensures var text := if IdentStart(s[0]) then Replaced(s[..n], b) else s[..n];
            && Substitute(s, b) == text + Substitute(s[n..], b)
            && Substitute(s + rest, b) == text + Substitute(s[n..] + rest, b)
  {
    hide Substitute, Replaced;
    WordThenRest(s, rest);
    SubstituteUnfolds(s, b);
    SubstituteUnfolds(s + rest, b);
    n := if IdentStart(s[0]) then WordLength(s) else 1;
    assert (s + rest)[..n] == s[..n] && (s + rest)[n..] == s[n..] + rest;
    assert s[..1] == [s[0]];
  }

  /** The text of an application is one word. */
  lemma ApplicationWord(base: string, args: seq<string>)
    requires args != [] && IsIdent(base) && NoEarlierMarker(base) && forall k :: 0 <= k < |args| ==> AllBytes(args[k])
    ensures IsIdent(base + Tail(args)) && ParseMangled(base + Tail(args)) == Some(Application(base, args))
  {
    TailIdent(args);
    Parts(base, Tail(args));
    hide Find, ParseMangled, Tail, NoEarlierMarker, AllBytes;
    MangledReadsBack("", base, args);
    assert "" + base == base;
  }

  lemma SubstituteApp(pre: string, base: string, args: seq<string>, b: Bindings)
    requires args != [] && IsIdent(base) && NoEarlierMarker(base) && forall k :: 0 <= k < |pre| ==> IsPrefixChar(pre[k])
    requires forall k :: 0 <= k < |args| ==> AllBytes(args[k])
    ensures (forall a <- args :: |a| < |base + Tail(args)|)
    ensures Substitute(pre + (base + Tail(args)), b) == pre + Mangle(base, SubstituteAll(args, b, |base + Tail(args)|))
  {
    assert forall k :: 0 <= k < |pre| ==> !IdentStart(pre[k]);
    hide Substitute, Mangle, Tail, ParseMangled, IsIdent, AllBytes, NoEarlierMarker, IdentStart, IsPrefixChar;
    var word := base + Tail(args);
    ApplicationWord(base, args);
    MangledIsNotEmpty(word);
    SubstituteWordIs(word, b);
    SubstitutePrefix(pre, word, b);
  }

  lemma SubstituteArr(u: string, n: string, b: Bindings)
    ensures Substitute("[" + u + (";" + n + "]"), b) == "[" + Substitute(u, b) + (";" + Substitute(n, b) + "]")
  {
    hide Substitute;
    var rest: string := ";" + n + "]";
    assert "[" + u + rest == "[" + (u + rest);
    SubstitutePrefix("[", u + rest, b);
    SubstituteSplit(u, rest, b);
    assert rest == ";" + (n + "]");
    SubstitutePrefix(";", n + "]", b);
    SubstituteSplit(n, "]", b);
    assert "]" + "" == "]";
    SubstitutePrefix("]", "", b);
    SubstituteNothing(b);
    assert "[" + (Substitute(u, b) + (";" + (Substitute(n, b) + "]"))) == "[" + Substitute(u, b) + (";" + Substitute(n, b) + "]");
  }

  /** In a count, the word behind the digits is replaced. */
  lemma SubstituteCount(n: string, b: Bindings)
    requires AllIdent(n) && Find(n, 0).None?
    ensures var k := WordStart(n); Substitute(n, b) == n[..k] + if k < |n| then Lookup(n[k..], b) else ""
  {
    hide Substitute, Find;
    var k := WordStart(n);
    var word: string := n[k..];
    assert n == n[..k] + word;
    SubstitutePrefix(n[..k], word, b);
    if k == |n| {
      SubstituteNothing(b);
    } else {
      SuffixHasNoMarker(n, k);
      SubstituteName(word, b);
    }
  }

  /** A count stays as it is, unless its word is a parameter. */
  lemma KeptCount(n: string, gps: seq<string>, b: Bindings)
    requires AllIdent(n) && Find(n, 0).None? && CountAvoids(n, gps) && forall x <- b.Keys :: x in gps
    ensures Substitute(n, b) == n
  {
    hide Substitute, Find;
    SubstituteCount(n, b);
  }

  lemma SuffixHasNoMarker(n: string, k: nat)
    requires k <= |n| && Find(n, 0).None?
    ensures Find(n[k..], 0).None?
  {
    hide Find;
    var s := n[k..];
    if Find(s, 0).Some? { MarkerInSuffix(n, k, Find(s, 0).value); }
  }

  lemma MarkerInSuffix(n: string, k: nat, j: nat)
    requires k <= |n| && MarkerAt(n[k..], j)
    ensures MarkerAt(n, k + j)
  {
    assert n[k..][j..j + |MARKER|] == n[k + j..k + j + |MARKER|];
  }

  /** A type that mentions no parameter stays as it is. */
  lemma {:induction false} KeptType(t: Type, gps: seq<string>, b: Bindings)
    requires Proper(t) && Avoids(t, gps) && forall x <- b.Keys :: x in gps
    ensures Substitute(Render(t), b) == Render(t)
    decreases t, 1
  {
    hide Substitute, Find, Mangle, CountAvoids;
    match t
    case Named(id) => SubstituteName(id, b);
    case Ptr(u) =>
      KeptType(u, gps, b);
      SubstitutePrefix("*", Render(u), b);
    case Slice(u) =>
      KeptType(u, gps, b);
      SubstitutePrefix("[]", Render(u), b);
    case Arr(u, n) =>
      KeptType(u, gps, b);
      SubstituteArr(Render(u), n, b);
      KeptCount(n, gps, b);
    case App(base, args) =>
      RenderApp(base, args);
      SubstituteApp("", base, RenderAll(args), b);
      assert "" + (base + Tail(RenderAll(args))) == base + Tail(RenderAll(args));
      KeptTypes(args, gps, b, |base + Tail(RenderAll(args))|);
      assert "" + Mangle(base, RenderAll(args)) == Mangle(base, RenderAll(args));
  }

  lemma {:induction false} KeptTypes(ts: seq<Type>, gps: seq<string>, b: Bindings, limit: nat)
    requires AllProper(ts) && AllAvoid(ts, gps) && (forall x <- b.Keys :: x in gps) && forall a <- RenderAll(ts) :: |a| < limit
    ensures SubstituteAll(RenderAll(ts), b, limit) == RenderAll(ts)
    decreases ts, 0
  {
    hide Substitute, Render;
    if ts != [] {
      KeptType(ts[0], gps, b);
      assert RenderAll(ts)[1..] == RenderAll(ts[1..]);
      KeptTypes(ts[1..], gps, b, limit);
    }
  }
}
