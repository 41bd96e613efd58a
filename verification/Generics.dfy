/**
 Generic types in the monomorphizer: they are strings, in which an application `Base<A, B>` is mangled into one word,
 and a call's type arguments are found by matching parameter types against argument types.
 */
module Generics {
  import opened Basics
  import opened Hexadecimal

  const MARKER: string := "__nqg__"

  type Bindings = map<string, string>

  // ----- characters and words -----

  predicate IdentStart(c: char) {
    'a' <= c <= 'z' || 'A' <= c <= 'Z' || c == '_'
  }

  predicate IdentChar(c: char) {
    IdentStart(c) || '0' <= c <= '9'
  }

  predicate IsBlank(c: char) {
    c == ' ' || c == '\t' || c == '\r' || c == '\n'
  }

  function WordLength(s: string): (n: nat)
    ensures n <= |s| && forall k :: 0 <= k < n ==> IdentChar(s[k])
    ensures n < |s| ==> !IdentChar(s[n])
  {
    if s == "" || !IdentChar(s[0]) then 0 else 1 + WordLength(s[1..])
  }

  function TrimLeft(s: string): (r: string)
    ensures |r| <= |s|
  {
    if s != "" && IsBlank(s[0]) then TrimLeft(s[1..]) else s
  }

  function TrimRight(s: string): (r: string)
    ensures |r| <= |s|
  {
    if s != "" && IsBlank(s[|s| - 1]) then TrimRight(s[..|s| - 1]) else s
  }

  function Trim(s: string): string {
    TrimRight(TrimLeft(s))
  }

  predicate MarkerAt(s: string, i: nat) {
    i + |MARKER| <= |s| && s[i..i + |MARKER|] == MARKER
  }

  /** The first marker at or behind index `i`. */
  function Find(s: string, i: nat): (k: Option<nat>)
    ensures k.Some? ==> i <= k.value && MarkerAt(s, k.value)
    ensures k.Some? ==> forall j :: i <= j < k.value ==> !MarkerAt(s, j)
    ensures k.None? ==> forall j :: i <= j ==> !MarkerAt(s, j)
    decreases |s| - i
  {
    if i + |MARKER| > |s| then None else if MarkerAt(s, i) then Some(i) else Find(s, i + 1)
  }

  // ----- mangling -----

  datatype Application = Application(base: string, args: seq<string>)

  function Mangle(base: string, args: seq<string>): string {
    if args == [] then base else Mangle(base, args[..|args| - 1]) + MARKER + Hex(Trim(args[|args| - 1]))
  }

  method MangleGeneric(base: string, args: seq<string>) returns (out: string)
    ensures out == Mangle(base, args)
  {
    out := base;
    for i := 0 to |args|
      invariant out == Mangle(base, args[..i])
    {
      assert args[..i + 1][..i] == args[..i];
      out := out + MARKER + Hex(Trim(args[i]));
    }
    assert args[..|args|] == args;
  }

  /** The segment from index `q` up to the marker at `next`, or to the end. */
  function Segment(value: string, q: nat, next: Option<nat>): string
    requires q <= |value| && (next.Some? ==> q <= next.value <= |value|)
  {
    if next.Some? then value[q..next.value] else value[q..]
  }

  /** The decoded arguments from the marker at `p` on. */
  function ParseArguments(value: string, p: nat): (r: Option<seq<string>>)
    requires MarkerAt(value, p)
    ensures r.Some? ==> forall a <- r.value :: |a| < |value|
    decreases |value| - p
  {
    var q := p + |MARKER|;
    var next := Find(value, q);
    match Unhex(Segment(value, q, next))
    case None => None
    case Some(arg) =>
      UnhexIsShorter(Segment(value, q, next));
      if next.None? then Some([arg])
      else
        match ParseArguments(value, next.value)
        case None => None
        case Some(args) => Some([arg] + args)
  }

  lemma {:induction false} UnhexIsShorter(s: string)
    ensures Unhex(s).Some? ==> |s| == 2 * |Unhex(s).value|
  {
    if |s| > 1 { UnhexIsShorter(s[2..]); }
  }

  function ParseMangled(value: string): (r: Option<Application>)
    ensures r.Some? ==> forall a <- r.value.args :: |a| < |value|
  {
    match Find(value, 0)
    case None => None
    case Some(first) =>
      if first == 0 then None
      else
        match ParseArguments(value, first)
        case None => None
        case Some(args) => Some(Application(value[..first], args))
  }

  lemma MangledIsNotEmpty(value: string)
    ensures ParseMangled(value).Some? ==> value != "" && forall a <- ParseMangled(value).value.args :: |a| < |value|
  {
  }

  method ParseMangledGeneric(value: string) returns (app: Option<Application>)
    ensures app == ParseMangled(value)
  {
    hide Find, Unhex, ParseArguments;
    var first := Find(value, 0);
    if first.None? || first.value == 0 { return None; }
    var args: seq<string> := [];
    var p := first.value;
    ghost var whole := ParseArguments(value, p);
    Prepended([], whole);
    while true
      invariant MarkerAt(value, p) && whole == Prepend(args, ParseArguments(value, p))
      decreases |value| - p
    {
      ArgumentsUnfold(value, p, args);
      p := p + |MARKER|;
      var next := Find(value, p);
      var decoded := Unhex(Segment(value, p, next));
      if decoded.None? { return None; }
      args := args + [decoded.value];
      if next.None? { break; }
      p := next.value;
    }
    return Some(Application(value[..first.value], args));
  }

  function Prepend(args: seq<string>, rest: Option<seq<string>>): Option<seq<string>> {
    if rest.Some? then Some(args + rest.value) else None
  }

  lemma Prepended(args: seq<string>, rest: Option<seq<string>>)
    ensures Prepend([], rest) == rest
    ensures Prepend(args, Some([])) == Some(args)
  {
    if rest.Some? { assert [] + rest.value == rest.value; }
    assert args + [] == args;
  }

  lemma ArgumentsUnfold(value: string, p: nat, args: seq<string>)
    requires MarkerAt(value, p)
    ensures p + |MARKER| <= |value|
    ensures var q := p + |MARKER|;
            var next := Find(value, q);
            var arg := Unhex(Segment(value, q, next));
            Prepend(args, ParseArguments(value, p)) ==
              if arg.None? then None
              else if next.None? then Some(args + [arg.value])
              else Prepend(args + [arg.value], ParseArguments(value, next.value))
  {
    hide Find, Unhex;
    var q := p + |MARKER|;
    var next := Find(value, q);
    var arg := Unhex(Segment(value, q, next));
    if arg.Some? && next.Some? {
      var rest := ParseArguments(value, next.value);
      if rest.Some? { assert args + ([arg.value] + rest.value) == args + [arg.value] + rest.value; }
    }
  }

  // ----- substitution -----

  function Lookup(word: string, b: Bindings): string {
    if word in b then b[word] else word
  }

  /** Replaces the bound words of a type, inside mangled arguments too. */
  function Substitute(value: string, b: Bindings): string
    decreases |value|, 1, 0
  {
    if value == "" then ""
    else if IdentStart(value[0]) then
      var n := WordLength(value);
      var word: string := value[..n];
      (match ParseMangled(word)
       case Some(app) => Mangle(app.base, SubstituteAll(app.args, b, |value|))
       case None => Lookup(word, b)) + Substitute(value[n..], b)
    else [value[0]] + Substitute(value[1..], b)
  }

  function SubstituteAll(args: seq<string>, b: Bindings, limit: nat): (r: seq<string>)
    requires forall a <- args :: |a| < limit
    ensures |r| == |args|
    decreases limit, 0, |args|
  {
    if args == [] then [] else [Substitute(args[0], b)] + SubstituteAll(args[1..], b, limit)
  }

  /** What a word becomes. */
  function Replaced(word: string, b: Bindings): string {
    match ParseMangled(word)
    case Some(app) => Mangle(app.base, SubstituteAll(app.args, b, |word|))
    case None => Lookup(word, b)
  }

  lemma SubstituteUnfolds(value: string, b: Bindings)
    requires value != ""
    ensures var n := WordLength(value);
            Substitute(value, b) == if IdentStart(value[0]) then Replaced(value[..n], b) + Substitute(value[n..], b)
                                    else [value[0]] + Substitute(value[1..], b)
    ensures IdentStart(value[0]) ==> WordLength(value) > 0
  {
    hide ParseMangled, Mangle;
    var n := WordLength(value);
    if IdentStart(value[0]) {
      var app := ParseMangled(value[..n]);
      if app.Some? { AnyLimit(app.value.args, b, |value|, n); }
    }
  }

  method SubstituteType(value: string, b: Bindings) returns (out: string)
    ensures out == Substitute(value, b)
    decreases |value|, 1, 0
  {
    hide Substitute;
    out := "";
    var i := 0;
    assert value[0..] == value;
    while i < |value|
      invariant i <= |value| && out + Substitute(value[i..], b) == Substitute(value, b)
      decreases |value| - i
    {
      ghost var before, rest := out, Substitute(value[i..], b);
      var text, next := SubstituteStep(value, i, b);
      out := out + text;
      assert before + rest == out + Substitute(value[next..], b);
      i := next;
    }
    SubstituteNothing(b);
    assert value[|value|..] == "" && out + "" == out;
  }

  /** One word, or one other character. */
  method SubstituteStep(value: string, i: nat, b: Bindings) returns (text: string, next: nat)
    requires i < |value|
    ensures i < next <= |value| && Substitute(value[i..], b) == text + Substitute(value[next..], b)
    decreases |value|, 0, 1
  {
    hide Replaced, Substitute;
    ghost var rest: string := value[i..];
    SubstituteUnfolds(rest, b);
    if IdentStart(value[i]) {
      next := WordEnd(value, i);
      assert rest[..next - i] == value[i..next] && rest[next - i..] == value[next..];
      text := SubstituteWord(value[i..next], b);
    } else {
      assert rest[1..] == value[i + 1..];
      text, next := [value[i]], i + 1;
    }
  }

  lemma SubstituteNothing(b: Bindings)
    ensures Substitute("", b) == ""
  {
  }

  method SubstituteWord(word: string, b: Bindings) returns (text: string)
    ensures text == Replaced(word, b)
    decreases |word|, 0, 0
  {
    var app := ParseMangledGeneric(word);
    if app.None? { return Lookup(word, b); }
    var args := SubstituteEach(app.value.args, b, |word|);
    text := MangleGeneric(app.value.base, args);
  }

  method WordEnd(value: string, i: nat) returns (j: nat)
    requires i < |value| && IdentStart(value[i])
    ensures i < j <= |value| && j == i + WordLength(value[i..])
  {
    j := i + 1;
    while j < |value| && IdentChar(value[j])
      invariant i < j <= |value| && WordLength(value[i..]) == j - i + WordLength(value[j..])
      decreases |value| - j
    {
      assert value[j..][1..] == value[j + 1..];
      j := j + 1;
    }
  }

  method SubstituteEach(args: seq<string>, b: Bindings, limit: nat) returns (out: seq<string>)
    requires forall a <- args :: |a| < limit
    ensures out == SubstituteAll(args, b, limit)
    decreases limit - 1, 2, |args|
  {
    if args == [] { return []; }
    var first := SubstituteType(args[0], b);
    var rest := SubstituteEach(args[1..], b, limit);
    return [first] + rest;
  }

  lemma {:induction false} AnyLimit(args: seq<string>, b: Bindings, m: nat, n: nat)
    requires forall a <- args :: |a| < m && |a| < n
    ensures SubstituteAll(args, b, m) == SubstituteAll(args, b, n)
    decreases |args|
  {
    if args != [] { AnyLimit(args[1..], b, m, n); }
  }

  // ----- matching -----

  predicate Starts(s: string, prefix: string) {
    prefix <= s
  }

  /** The last semicolon. */
  function LastSemicolon(s: string): (k: Option<nat>)
    ensures k.Some? ==> k.value < |s| && s[k.value] == ';'
  {
    if s == "" then None else if s[|s| - 1] == ';' then Some(|s| - 1) else LastSemicolon(s[..|s| - 1])
  }

  /** What a slice, pointer or array type is made of. */
  function ElementType(t: string): string {
    if Starts(t, "[]") then t[2..]
    else if Starts(t, "*volatile ") then t[10..]
    else if Starts(t, "*") then t[1..]
    else if |t| > 3 && t[0] == '[' then
      match LastSemicolon(t) case Some(k) => (if k > 0 then t[1..k] else "") case None => "unknown"
    else "unknown"
  }

  /** The answer for a parameter name, a pointer to it or a slice of it; None if the pattern is none of these. */
  datatype Attempt = NotThis | Answer(result: Option<Bindings>)

  /** Binds the parameters of `pattern` so that it becomes `actual`; None if they disagree. */
  function Bind(pattern: string, actual: string, gps: seq<string>, b: Bindings): Option<Bindings>
    decreases |pattern|, 1, 0
  {
    match BindParameter(pattern, actual, gps, 0, b)
    case Answer(r) => r
    case NotThis =>
      var p, a := ParseMangled(pattern), ParseMangled(actual);
      if p.Some? || a.Some? then
        if p.None? || a.None? || p.value.base != a.value.base || |p.value.args| != |a.value.args| then None
        else BindAll(p.value.args, a.value.args, gps, b, |pattern|)
      else if Starts(pattern, "*") && Starts(actual, "*") then Bind(ElementType(pattern), ElementType(actual), gps, b)
      else if Starts(pattern, "[]") && Starts(actual, "[]") then Bind(ElementType(pattern), ElementType(actual), gps, b)
      else if pattern == actual then Some(b)
      else None
  }

  function BindName(gp: string, actual: string, b: Bindings): Option<Bindings> {
    if gp !in b then Some(b[gp := actual]) else if b[gp] == actual then Some(b) else None
  }

  function BindParameter(pattern: string, actual: string, gps: seq<string>, k: nat, b: Bindings): Attempt
    decreases |pattern|, 0, |gps| - k
  {
    if k >= |gps| then NotThis
    else
      var gp := gps[k];
      if pattern == gp then Answer(BindName(gp, actual, b))
      else if pattern == "*" + gp && Starts(actual, "*") then Answer(Bind(gp, ElementType(actual), gps, b))
      else if pattern == "[]" + gp && Starts(actual, "[]") then Answer(Bind(gp, ElementType(actual), gps, b))
      else BindParameter(pattern, actual, gps, k + 1, b)
  }

  function BindAll(ps: seq<string>, actuals: seq<string>, gps: seq<string>, b: Bindings, limit: nat): Option<Bindings>
    requires |ps| == |actuals| && forall p <- ps :: |p| < limit
    decreases limit, 0, |ps|
  {
    if ps == [] then Some(b)
    else
      match Bind(ps[0], actuals[0], gps, b)
      case None => None
      case Some(b') => BindAll(ps[1..], actuals[1..], gps, b', limit)
  }

  /** The bindings found so far, and whether the types agree. */
  class Matcher {
    const parameters: seq<string>
    var bindings: Bindings

    constructor (parameters: seq<string>)
      ensures this.parameters == parameters && bindings == map[]
    {
      this.parameters, bindings := parameters, map[];
    }

    /** What the match should have done: on success the bindings are those of the function above. */
    ghost predicate Did(r: Option<Bindings>, ok: bool)
      reads this
    {
      if ok then r == Some(bindings) else r.None?
    }

    method Match(pattern: string, actual: string) returns (ok: bool)
      modifies this`bindings
      ensures Did(Bind(pattern, actual, parameters, old(bindings)), ok)
      decreases |pattern|, 1, 0
    {
      hide ParseMangled, ElementType;
      for k := 0 to |parameters|
        invariant bindings == old(bindings)
        invariant BindParameter(pattern, actual, parameters, 0, bindings) == BindParameter(pattern, actual, parameters, k, bindings)
      {
        var gp := parameters[k];
        if pattern == gp {
          if gp !in bindings {
            bindings := bindings[gp := actual];
            return true;
          }
          return bindings[gp] == actual;
        }
        if pattern == "*" + gp && Starts(actual, "*") {
          ok := Match(gp, ElementType(actual));
          return;
        }
        if pattern == "[]" + gp && Starts(actual, "[]") {
          ok := Match(gp, ElementType(actual));
          return;
        }
      }
      ok := MatchStructure(pattern, actual);
    }

    /** A pattern that is no parameter, pointer to one or slice of one. */
    method MatchStructure(pattern: string, actual: string) returns (ok: bool)
      requires BindParameter(pattern, actual, parameters, 0, bindings).NotThis?
      modifies this`bindings
      ensures Did(Bind(pattern, actual, parameters, old(bindings)), ok)
      decreases |pattern|, 0, 0
    {
      hide ParseMangled, BindParameter, BindAll;
      var p := ParseMangledGeneric(pattern);
      var a := ParseMangledGeneric(actual);
      if p.Some? || a.Some? {
        if p.None? || a.None? || p.value.base != a.value.base || |p.value.args| != |a.value.args| { return false; }
        MangledIsNotEmpty(pattern);
        ok := MatchAll(p.value.args, a.value.args, |pattern|);
        return;
      }
      if Starts(pattern, "*") && Starts(actual, "*") {
        ok := Match(ElementType(pattern), ElementType(actual));
        return;
      }
      if Starts(pattern, "[]") && Starts(actual, "[]") {
        ok := Match(ElementType(pattern), ElementType(actual));
        return;
      }
      return pattern == actual;
    }

    method MatchAll(ps: seq<string>, actuals: seq<string>, limit: nat) returns (ok: bool)
      requires |ps| == |actuals| && 0 < limit && forall p <- ps :: |p| < limit
      modifies this`bindings
      ensures Did(BindAll(ps, actuals, parameters, old(bindings), limit), ok)
      decreases limit - 1, 2, |ps|
    {
      hide Bind;
      ghost var whole := BindAll(ps, actuals, parameters, bindings, limit);
      assert ps[0..] == ps && actuals[0..] == actuals;
      for i := 0 to |ps|
        invariant whole == BindAll(ps[i..], actuals[i..], parameters, bindings, limit)
      {
        assert ps[i..][1..] == ps[i + 1..] && actuals[i..][1..] == actuals[i + 1..];
        ok := Match(ps[i], actuals[i]);
        if !ok { return; }
      }
      return true;
    }
  }

  // ----- calls -----

  /** A parameter's annotated type, if it has one. */
  type Annotation = Option<string>

  /** Binds from all annotated parameters, in order; None if one disagrees. */
  function BindCall(annotations: seq<Annotation>, args: seq<string>, gps: seq<string>, b: Bindings): Option<Bindings> {
    if annotations == [] || args == [] then Some(b)
    else if annotations[0].None? then BindCall(annotations[1..], args[1..], gps, b)
    else
      match Bind(annotations[0].value, args[0], gps, b)
      case None => None
      case Some(b') => BindCall(annotations[1..], args[1..], gps, b')
  }

  /** The bindings of a generic call; None if an argument disagrees or a parameter is left unbound. */
  function Inferred(annotations: seq<Annotation>, args: seq<string>, gps: seq<string>): Option<Bindings> {
    var b := BindCall(annotations, args, gps, map[]);
    if b.Some? && forall gp <- gps :: gp in b.value then b else None
  }

  method InferCall(annotations: seq<Annotation>, args: seq<string>, gps: seq<string>) returns (bindings: Option<Bindings>)
    ensures bindings == Inferred(annotations, args, gps)
  {
    hide Bind;
    var matcher := new Matcher(gps);
    var ok := true;
    var i := 0;
    assert annotations[0..] == annotations && args[0..] == args;
    while i < |annotations| && i < |args|
      invariant i <= |annotations| && i <= |args|
      invariant ok ==> BindCall(annotations, args, gps, map[]) == BindCall(annotations[i..], args[i..], gps, matcher.bindings)
      invariant !ok ==> BindCall(annotations, args, gps, map[]) == None
      decreases |annotations| - i
    {
      assert annotations[i..][1..] == annotations[i + 1..] && args[i..][1..] == args[i + 1..];
      if annotations[i].Some? {
        var agrees := matcher.Match(annotations[i].value, args[i]);
        if !agrees { ok := false; }
      }
      i := i + 1;
    }
    for k := 0 to |gps|
      invariant ok ==> BindCall(annotations, args, gps, map[]) == Some(matcher.bindings)
      invariant ok ==> forall j :: 0 <= j < k ==> gps[j] in matcher.bindings
      invariant !ok ==>
        (var r := BindCall(annotations, args, gps, map[]);
         r.None? || exists j :: 0 <= j < k && gps[j] !in r.value)
    {
      if gps[k] !in matcher.bindings && ok { ok := false; }
    }
    return if ok then Some(matcher.bindings) else None;
  }
}
