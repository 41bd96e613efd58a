/**
 The grammar of expressions, as a relation between tokens and trees: the parser reads a tree without errors exactly if
 the tokens are a text of it, and no text has two trees.
 */
module ExpressionGrammar {
  import opened Basics
  import opened Lexer
  import opened Expressions

  // ----- precedence -----

  /** The level at which a token continues an expression: -1 for none. */
  function OpLevel(k: Kind): int {
    match k
    case Equal => 0
    case OrOr => 1
    case AndAnd => 2
    case EqualEqual => 3 case BangEqual => 3
    case Less => 4 case LessEqual => 4 case Greater => 4 case GreaterEqual => 4
    case Plus => 5 case Minus => 5
    case Star => 6 case Slash => 6 case Percent => 6
    case AsKw => 8
    case LParen => 9 case LBracket => 9 case Dot => 9
    case _ => -1
  }

  /** The level at which a tree is parsed without parentheses. */
  function LevelOf(e: Expr): nat {
    match e
    case Binary(_, op, _) => if 0 <= OpLevel(op) <= 6 then OpLevel(op) else 10
    case Unary(_, _) => 7
    case Cast(_, _) => 8
    case Call(_, _) => 9
    case Index(_, _) => 9
    case Member(_, _) => 9
    case _ => 10
  }

  /** An assignment is read as far right as possible, other operators from the left. */
  function LeftLevel(op: Kind): nat {
    if op.Equal? then 1 else if OpLevel(op) > 0 then OpLevel(op) else 10
  }

  function RightLevel(op: Kind): nat {
    if op.Equal? then 0 else if OpLevel(op) > 0 then OpLevel(op) + 1 else 10
  }

  // ----- the grammar -----

  /** The first `k` tokens are a text of the type. */
  predicate TypeReads(ts: seq<Token>, k: nat, t: TypeName)
    decreases t
  {
    && 0 < k <= |ts|
    && match t
       case Pointer(v, u) =>
         && ts[0].kind.Star?
         && if v then k > 1 && ts[1].kind.VolatileKw? && TypeReads(ts[2..], k - 2, u) else TypeReads(ts[1..], k - 1, u)
       case Slice(u) => k > 1 && ts[0].kind.LBracket? && ts[1].kind.RBracket? && TypeReads(ts[2..], k - 2, u)
       case Fixed(u, n) =>
         && k > 4 && ts[0].kind.LBracket? && TypeReads(ts[1..], k - 4, u)
         && ts[k - 3].kind.Semicolon? && ts[k - 2] == Token(Integer, n) && ts[k - 1].kind.RBracket?
       case Base(n) => k == 1 && ts[0] == Token(Identifier, n)
  }

  /** What can be assigned to: a name, an index, a member, what a pointer points to. */
  predicate IsPlace(e: Expr) {
    match e
    case Name(_) => true
    case Index(_, _) => true
    case Member(_, _) => true
    case Unary(op, _) => op.Star?
    case _ => false
  }

  predicate IsLiteral(t: Token, l: Literal) {
    t.kind in {Integer, Float, TrueKw, FalseKw, NullKw, String} && LiteralOf(t) == Some(l)
  }

  /** The first `k` tokens are a text of the tree where level `n` or higher is wanted; parentheses may stand anywhere. */
  ghost predicate Reads(n: nat, ts: seq<Token>, k: nat, e: Expr)
    decreases k, 1
  {
    k <= |ts| && (InBrackets(ts, k, e) || (n <= LevelOf(e) && Plain(ts, k, e)))
  }

  ghost predicate InBrackets(ts: seq<Token>, k: nat, e: Expr)
    requires k <= |ts|
    decreases k, 0
  {
    k >= 2 && ts[0].kind.LParen? && ts[k - 1].kind.RParen? && Reads(0, ts[1..], k - 2, e)
  }

  /** Without parentheses around the whole. */
  ghost predicate Plain(ts: seq<Token>, k: nat, e: Expr)
    requires k <= |ts|
    decreases k, 0
  {
    match e
    case Lit(l) => k == 1 && IsLiteral(ts[0], l)
    case Name(x) => k == 1 && ts[0] == Token(Identifier, x)
    case Array(es) => k >= 2 && ts[0].kind.LBracket? && ts[k - 1].kind.RBracket? && ItemsRead(ts[1..], k - 2, es)
    case Unary(op, a) => k >= 1 && ts[0].kind == op && IsPrefixOp(op) && Reads(7, ts[1..], k - 1, a)
    case Binary(l, op, r) =>
      && 0 <= OpLevel(op) <= 6 && (op.Equal? ==> IsPlace(l))
      && exists m: nat :: m < k && BinaryAt(ts, k, m, l, op, r)
    case Cast(a, t) => exists m: nat :: m < k && CastAt(ts, k, m, a, t)
    case Call(f, args) => exists m: nat :: m + 1 < k && CallAt(ts, k, m, f, args)
    case Index(a, i) => exists m: nat :: m + 1 < k && IndexAt(ts, k, m, a, i)
    case Member(a, x) => k >= 2 && ts[k - 2].kind.Dot? && ts[k - 1] == Token(Identifier, x) && Reads(9, ts, k - 2, a)
  }

  /** The operator at `m` joins the operands on its two sides. */
  ghost predicate BinaryAt(ts: seq<Token>, k: nat, m: nat, l: Expr, op: Kind, r: Expr)
    requires m < k <= |ts|
    decreases k, 0, 0
  {
    ts[m].kind == op && Reads(LeftLevel(op), ts, m, l) && Reads(RightLevel(op), ts[m + 1..], k - m - 1, r)
  }

  ghost predicate CastAt(ts: seq<Token>, k: nat, m: nat, a: Expr, t: TypeName)
    requires m < k <= |ts|
    decreases k, 0, 0
  {
    ts[m].kind.AsKw? && Reads(8, ts, m, a) && TypeReads(ts[m + 1..], k - m - 1, t)
  }

  ghost predicate CallAt(ts: seq<Token>, k: nat, m: nat, f: Expr, args: seq<Expr>)
    requires m + 1 < k <= |ts|
    decreases k, 0, 0
  {
    ts[m].kind.LParen? && ts[k - 1].kind.RParen? && Reads(9, ts, m, f) && ItemsRead(ts[m + 1..], k - m - 2, args)
  }

  ghost predicate IndexAt(ts: seq<Token>, k: nat, m: nat, a: Expr, i: Expr)
    requires m + 1 < k <= |ts|
    decreases k, 0, 0
  {
    ts[m].kind.LBracket? && ts[k - 1].kind.RBracket? && Reads(9, ts, m, a) && Reads(0, ts[m + 1..], k - m - 2, i)
  }

  /** Expressions with commas between them. */
  ghost predicate ItemsRead(ts: seq<Token>, k: nat, es: seq<Expr>)
    decreases k, 2
  {
    && k <= |ts|
    && if es == [] then k == 0
       else if |es| == 1 then Reads(0, ts, k, es[0])
       else exists m: nat :: m < k && ts[m].kind.Comma? && Reads(0, ts, m, es[0]) && ItemsRead(ts[m + 1..], k - m - 1, es[1..])
  }

  // ----- what the parser makes of a text -----

  /** What parsing at each level makes of the tokens: the levels that loop go on with the tree. */
  ghost predicate Yields(n: nat, ts: seq<Token>, e: Expr, rest: seq<Token>) {
    if n == 0 then ParseExpr(ts) == Parsed(e, rest, [])
    else if n <= 6 then ParseLevel(n, ts) == LevelLoop(n, e, rest)
    else if n == 7 then ParseUnary(ts) == Parsed(e, rest, [])
    else if n == 8 then ParseCast(ts) == CastLoop(e, rest)
    else if n == 9 then ParseCall(ts) == CallLoop(e, rest)
    else ParsePrimary(ts) == Parsed(e, rest, [])
  }

  /** A token that does not continue an expression above level `n`. */
  predicate Stops(n: nat, rest: seq<Token>) {
    OpLevel(Head(rest).kind) <= n && (n == 0 ==> OpLevel(Head(rest).kind) < 0)
  }

  lemma OpLevelIs(n: nat, k: Kind)
    requires 1 <= n <= 6
    ensures OfLevel(n, k) <==> OpLevel(k) == n
  {
  }

  lemma StopsAbove(n: nat, rest: seq<Token>)
    requires Stops(n, rest)
    ensures Stops(n + 1, rest)
  {
  }

  lemma StopsAt(n: nat, rest: seq<Token>)
    requires n > 0 && OpLevel(Head(rest).kind) <= n
    ensures Stops(n, rest)
  {
  }

  /** A closing token or a comma ends every expression. */
  lemma StopsBefore(rest: seq<Token>)
    requires Head(rest).kind in {RParen, RBracket, Comma}
    ensures Stops(0, rest)
  {
  }

  lemma LoopsStop(n: nat, e: Expr, rest: seq<Token>)
    requires n < 10 && Stops(n, rest)
    ensures 1 <= n + 1 <= 6 ==> LevelLoop(n + 1, e, rest) == Parsed(e, rest, [])
    ensures n == 0 ==> !Head(rest).kind.Equal?
    ensures n <= 7 ==> CastLoop(e, rest) == Parsed(e, rest, [])
    ensures n <= 8 ==> CallLoop(e, rest) == Parsed(e, rest, [])
  {
    PostfixStops(n, e, rest);
    hide ParseArgs, ParseEnclosed, ParseLevel, CastLoop, CallLoop;
  }

  lemma PostfixStops(n: nat, e: Expr, rest: seq<Token>)
    requires n < 10 && Stops(n, rest)
    ensures n <= 7 ==> CastLoop(e, rest) == Parsed(e, rest, [])
    ensures n <= 8 ==> CallLoop(e, rest) == Parsed(e, rest, [])
  {
    hide ParseArgs, ParseEnclosed, ParseLevel, LevelLoop;
  }

  lemma PrimaryThenCalls(ts: seq<Token>, e: Expr, rest: seq<Token>)
    requires ParsePrimary(ts) == Parsed(e, rest, [])
    ensures ParseCall(ts) == CallLoop(e, rest)
  {
    LaterNone(CallLoop(e, rest));
  }

  /** Levels at which the tree has no operator pass it on. */
  lemma Descend(n: nat, ts: seq<Token>, e: Expr, rest: seq<Token>)
    requires n < 10 && Yields(n + 1, ts, e, rest) && Stops(n, rest) && (n == 7 ==> !IsPrefixOp(Head(ts).kind))
    ensures Yields(n, ts, e, rest)
  {
    hide LevelLoop, CastLoop, CallLoop, ParseCall, ParsePrimary;
    LoopsStop(n, e, rest);
    if n == 8 {
      LaterNone(CastLoop(e, rest));
    } else if n == 9 {
      PrimaryThenCalls(ts, e, rest);
    } else if 1 <= n <= 6 {
      if n == 6 { assert ParseLevel(7, ts) == ParseUnary(ts); }
      LaterNone(LevelLoop(n, e, rest));
    }
  }

  /** A text begins with no closing token, and above the prefix operators with none of them. */
  lemma {:induction false} Starts(n: nat, ts: seq<Token>, k: nat, e: Expr)
    requires Reads(n, ts, k, e)
    ensures k > 0 && Head(ts).kind !in {RParen, RBracket, Comma, Eof}
    ensures n >= 8 ==> !IsPrefixOp(Head(ts).kind)
    decreases k
  {
    if !InBrackets(ts, k, e) {
      assert Plain(ts, k, e);
      match e
      case Binary(l, op, r) =>
        var m: nat :| m < k && BinaryAt(ts, k, m, l, op, r);
        Starts(LeftLevel(op), ts, m, l);
      case Cast(a, t) =>
        var m: nat :| m < k && CastAt(ts, k, m, a, t);
        Starts(8, ts, m, a);
      case Call(f, args) =>
        var m: nat :| m + 1 < k && CallAt(ts, k, m, f, args);
        Starts(9, ts, m, f);
      case Index(a, i) =>
        var m: nat :| m + 1 < k && IndexAt(ts, k, m, a, i);
        Starts(9, ts, m, a);
      case Member(a, _) => Starts(9, ts, k - 2, a);
      case _ =>
    }
  }

  lemma {:induction false} TypeComplete(ts: seq<Token>, k: nat, t: TypeName)
    requires TypeReads(ts, k, t)
    ensures ParseType(ts) == Parsed(t, ts[k..], [])
    decreases t
  {
    match t
    case Pointer(v, u) =>
      if v {
        TypeComplete(ts[2..], k - 2, u);
        assert ts[2..][k - 2..] == ts[k..];
      } else {
        TypeStarts(ts[1..], k - 1, u);
        TypeComplete(ts[1..], k - 1, u);
        assert ts[1..][k - 1..] == ts[k..];
      }
    case Slice(u) =>
      TypeComplete(ts[2..], k - 2, u);
      assert ts[2..][k - 2..] == ts[k..];
    case Fixed(u, n) =>
      TypeStarts(ts[1..], k - 4, u);
      TypeComplete(ts[1..], k - 4, u);
      FixedComplete(ts, k, u, n);
    case Base(_) =>
  }

  lemma TypeStarts(ts: seq<Token>, k: nat, t: TypeName)
    requires TypeReads(ts, k, t)
    ensures Head(ts).kind in {Star, LBracket, Identifier}
  {
  }

  lemma FixedComplete(ts: seq<Token>, k: nat, u: TypeName, n: string)
    requires 4 < k <= |ts| && ts[0].kind.LBracket? && !Head(ts[1..]).kind.RBracket? && ParseType(ts[1..]) == Parsed(u, ts[1..][k - 4..], [])
    requires ts[k - 3].kind.Semicolon? && ts[k - 2] == Token(Integer, n) && ts[k - 1].kind.RBracket?
    ensures ParseType(ts) == Parsed(Fixed(u, n), ts[k..], [])
  {
    var r1 := ts[k - 3..];
    assert ts[1..][k - 4..] == r1 && r1[1..] == ts[k - 2..] && r1[1..][1..] == ts[k - 1..] && r1[1..][1..][1..] == ts[k..];
    assert Consume(r1, Semicolon) == Parsed(r1[0], r1[1..], []);
    assert Consume(r1[1..], Integer) == Parsed(ts[k - 2], r1[1..][1..], []);
    assert Consume(r1[1..][1..], RBracket) == Parsed(ts[k - 1], ts[k..], []);
  }

  /** One turn of a level's loop, with an operand that is parsed without errors. */
  lemma LoopsOn(n: nat, l: Expr, more: seq<Token>, r: Expr, rest: seq<Token>)
    requires more != [] && 1 <= n <= 6 && OfLevel(n, Head(more).kind) && ParseLevel(n + 1, more[1..]) == Parsed(r, rest, [])
    ensures LevelLoop(n, l, more) == LevelLoop(n, Binary(l, more[0].kind, r), rest)
  {
    hide ParseLevel, LevelLoop, OfLevel;
    LoopOnce(n, l, more, []);
    LaterNone(LevelLoop(n, l, more));
    LaterNone(LevelLoop(n, Binary(l, more[0].kind, r), rest));
    assert [] + [] == ParseLevel(n + 1, more[1..]).errors;
  }

  /** Every text is read as its tree. */
  lemma {:induction false} Complete(n: nat, ts: seq<Token>, k: nat, e: Expr)
    requires n <= 10 && Reads(n, ts, k, e) && Stops(n, ts[k..])
    ensures Yields(n, ts, e, ts[k..])
    decreases k, 12 - n
  {
    hide Yields, Stops, Plain, InBrackets;
    if n < 10 && (InBrackets(ts, k, e) || LevelOf(e) != n) {
      StopsAbove(n, ts[k..]);
      Complete(n + 1, ts, k, e);
      if n == 7 { Starts(8, ts, k, e); }
      Descend(n, ts, e, ts[k..]);
    } else if InBrackets(ts, k, e) {
      BracketsComplete(ts, k, e);
    } else {
      OwnComplete(ts, k, e);
    }
  }

  lemma {:induction false} BracketsComplete(ts: seq<Token>, k: nat, e: Expr)
    requires k <= |ts| && InBrackets(ts, k, e)
    ensures Yields(10, ts, e, ts[k..])
    decreases k, 1
  {
    EnclosedComplete(ts[1..], k - 2, e, RParen);
    hide ParseEnclosed, Reads;
    assert ts[1..][k - 1..] == ts[k..];
  }

  /** A text and the token that closes it. */
  lemma {:induction false} EnclosedComplete(ts: seq<Token>, k: nat, e: Expr, close: Kind)
    requires Reads(0, ts, k, e) && k < |ts| && ts[k].kind == close && close in {RParen, RBracket}
    ensures ParseEnclosed(ts, close) == Parsed(e, ts[k + 1..], [])
    decreases k, 13
  {
    hide ParseExpr, Reads;
    StopsBefore(ts[k..]);
    Complete(0, ts, k, e);
    assert ts[k..][1..] == ts[k + 1..];
  }

  lemma {:induction false} OwnComplete(ts: seq<Token>, k: nat, e: Expr)
    requires k <= |ts| && Plain(ts, k, e) && Stops(LevelOf(e), ts[k..])
    ensures Yields(LevelOf(e), ts, e, ts[k..])
    decreases k, 1
  {
    hide Yields, Stops, Reads, ItemsRead, TypeReads, LiteralOf;
    match e
    case Lit(l) => LiteralYields(ts, l);
    case Name(x) => NameYields(ts, x);
    case Array(es) =>
      ArgsComplete(ts[1..], k - 2, es, RBracket);
      assert ts[1..][k - 1..] == ts[k..];
      ArrayYields(ts, es, ts[k..]);
    case Unary(op, a) =>
      assert ts[1..][k - 1..] == ts[k..];
      Complete(7, ts[1..], k - 1, a);
      UnaryYields(ts, a, ts[k..]);
    case Binary(l, op, r) =>
      var m: nat :| m < k && BinaryAt(ts, k, m, l, op, r);
      BinaryComplete(ts, k, m, l, op, r);
    case Cast(a, t) =>
      var m: nat :| m < k && CastAt(ts, k, m, a, t);
      CastComplete(ts, k, m, a, t);
    case Call(f, args) =>
      var m: nat :| m + 1 < k && CallAt(ts, k, m, f, args);
      CallComplete(ts, k, m, f, args);
    case Index(a, i) =>
      var m: nat :| m + 1 < k && IndexAt(ts, k, m, a, i);
      IndexComplete(ts, k, m, a, i);
    case Member(a, x) => MemberComplete(ts, k, a, x);
  }

  lemma {:induction false} CallComplete(ts: seq<Token>, k: nat, m: nat, f: Expr, args: seq<Expr>)
    requires m + 1 < k <= |ts| && CallAt(ts, k, m, f, args)
    ensures Yields(9, ts, Call(f, args), ts[k..])
    decreases k, 0
  {
    hide Yields, Stops, Reads, ItemsRead;
    StopsAt(9, ts[m..]);
    Complete(9, ts, m, f);
    ArgsComplete(ts[m + 1..], k - m - 2, args, RParen);
    assert ts[m..][1..] == ts[m + 1..] && ts[m + 1..][k - m - 1..] == ts[k..];
    CallYields(ts, f, args, ts[m..], ts[k..]);
  }

  lemma {:induction false} CastComplete(ts: seq<Token>, k: nat, m: nat, a: Expr, t: TypeName)
    requires m < k <= |ts| && CastAt(ts, k, m, a, t)
    ensures Yields(8, ts, Cast(a, t), ts[k..])
    decreases k, 0
  {
    hide Yields, Stops, Reads, TypeReads;
    StopsAt(8, ts[m..]);
    Complete(8, ts, m, a);
    TypeComplete(ts[m + 1..], k - m - 1, t);
    assert ts[m..][1..] == ts[m + 1..] && ts[m + 1..][k - m - 1..] == ts[k..];
    CastYields(ts, a, t, ts[m..], ts[k..]);
  }

  lemma {:induction false} IndexComplete(ts: seq<Token>, k: nat, m: nat, a: Expr, i: Expr)
    requires m + 1 < k <= |ts| && IndexAt(ts, k, m, a, i)
    ensures Yields(9, ts, Index(a, i), ts[k..])
    decreases k, 0
  {
    hide Yields, Stops, Reads;
    StopsAt(9, ts[m..]);
    Complete(9, ts, m, a);
    EnclosedComplete(ts[m + 1..], k - m - 2, i, RBracket);
    assert ts[m..][1..] == ts[m + 1..] && ts[m + 1..][k - m - 1..] == ts[k..];
    IndexYields(ts, a, i, ts[m..], ts[k..]);
  }

  lemma {:induction false} MemberComplete(ts: seq<Token>, k: nat, a: Expr, x: string)
    requires 2 <= k <= |ts| && ts[k - 2].kind.Dot? && ts[k - 1] == Token(Identifier, x) && Reads(9, ts, k - 2, a)
    ensures Yields(9, ts, Member(a, x), ts[k..])
    decreases k, 0
  {
    hide Yields, Stops, Reads;
    StopsAt(9, ts[k - 2..]);
    Complete(9, ts, k - 2, a);
    assert ts[k - 2..][1..] == ts[k - 1..] && ts[k - 1..][1..] == ts[k..];
    MemberYields(ts, a, x, ts[k - 2..], ts[k..]);
  }

  lemma LiteralYields(ts: seq<Token>, l: Literal)
    requires ts != [] && IsLiteral(ts[0], l)
    ensures Yields(10, ts, Lit(l), ts[1..])
  {
    hide LiteralOf;
  }

  lemma NameYields(ts: seq<Token>, x: string)
    requires ts != [] && ts[0] == Token(Identifier, x)
    ensures Yields(10, ts, Name(x), ts[1..])
  {
  }

  lemma ArrayYields(ts: seq<Token>, es: seq<Expr>, rest: seq<Token>)
    requires ts != [] && ts[0].kind.LBracket? && ParseArgs(ts[1..], RBracket) == Parsed(es, rest, [])
    ensures Yields(10, ts, Array(es), rest)
  {
    hide ParseArgs;
  }

  lemma UnaryYields(ts: seq<Token>, a: Expr, rest: seq<Token>)
    requires ts != [] && IsPrefixOp(ts[0].kind) && Yields(7, ts[1..], a, rest)
    ensures Yields(7, ts, Unary(ts[0].kind, a), rest)
  {
    hide ParseCast;
  }

  lemma CastYields(ts: seq<Token>, a: Expr, t: TypeName, more: seq<Token>, rest: seq<Token>)
    requires Yields(8, ts, a, more) && Head(more).kind.AsKw? && ParseType(more[1..]) == Parsed(t, rest, [])
    ensures Yields(8, ts, Cast(a, t), rest)
  {
    hide ParseCast, ParseType;
  }

  /** A tree that is another one and an argument list, an index or a member name behind it. */
  lemma PostfixYields(ts: seq<Token>, a: Expr, e: Expr, more: seq<Token>, rest: seq<Token>)
    requires Yields(9, ts, a, more) && Head(more).kind in {LParen, LBracket, Dot} && CallStep(a, more) == Parsed(e, rest, [])
    ensures Yields(9, ts, e, rest)
  {
    hide ParseCall, CallLoop, CallStep;
    CallLoopStep(a, more);
    LaterNone(CallLoop(e, rest));
  }

  lemma CallYields(ts: seq<Token>, f: Expr, args: seq<Expr>, more: seq<Token>, rest: seq<Token>)
    requires Yields(9, ts, f, more) && Head(more).kind.LParen? && ParseArgs(more[1..], RParen) == Parsed(args, rest, [])
    ensures Yields(9, ts, Call(f, args), rest)
  {
    hide ParseArgs, Yields;
    PostfixYields(ts, f, Call(f, args), more, rest);
  }

  lemma IndexYields(ts: seq<Token>, a: Expr, i: Expr, more: seq<Token>, rest: seq<Token>)
    requires Yields(9, ts, a, more) && Head(more).kind.LBracket? && ParseEnclosed(more[1..], RBracket) == Parsed(i, rest, [])
    ensures Yields(9, ts, Index(a, i), rest)
  {
    hide ParseEnclosed, Yields;
    PostfixYields(ts, a, Index(a, i), more, rest);
  }

  lemma MemberYields(ts: seq<Token>, a: Expr, x: string, more: seq<Token>, rest: seq<Token>)
    requires Yields(9, ts, a, more) && Head(more).kind.Dot? && Head(more[1..]) == Token(Identifier, x) && rest == more[1..][1..]
    ensures Yields(9, ts, Member(a, x), rest)
  {
    hide Yields;
    PostfixYields(ts, a, Member(a, x), more, rest);
  }

  lemma {:induction false} BinaryComplete(ts: seq<Token>, k: nat, m: nat, l: Expr, op: Kind, r: Expr)
    requires m < k <= |ts| && BinaryAt(ts, k, m, l, op, r) && 0 <= OpLevel(op) <= 6 && (op.Equal? ==> IsPlace(l))
    requires Stops(OpLevel(op), ts[k..])
    ensures Yields(OpLevel(op), ts, Binary(l, op, r), ts[k..])
    decreases k, 0
  {
    hide Yields, Stops, Reads;
    var n := OpLevel(op);
    var more, rest := ts[m..], ts[k..];
    assert more[1..] == ts[m + 1..] && ts[m + 1..][k - m - 1..] == rest && more[0].kind == op;
    if n == 0 {
      assert op.Equal?;
      StopsAt(1, more);
      Complete(1, ts, m, l);
      Complete(0, ts[m + 1..], k - m - 1, r);
      AssignYields(ts, l, r, more, rest);
    } else {
      StopsAt(n, more);
      Complete(n, ts, m, l);
      StopsAbove(n, rest);
      Complete(n + 1, ts[m + 1..], k - m - 1, r);
      LevelYields(n, ts, l, op, r, more, rest);
    }
  }

  lemma AssignYields(ts: seq<Token>, l: Expr, r: Expr, more: seq<Token>, rest: seq<Token>)
    requires IsPlace(l) && Head(more).kind.Equal? && Yields(1, ts, l, more) && Yields(0, more[1..], r, rest)
    ensures Yields(0, ts, Binary(l, Equal, r), rest)
  {
    hide ParseLevel;
    assert LevelLoop(1, l, more) == Parsed(l, more, []);
  }

  lemma LevelYields(n: nat, ts: seq<Token>, l: Expr, op: Kind, r: Expr, more: seq<Token>, rest: seq<Token>)
    requires 1 <= n <= 6 && OpLevel(op) == n && Stops(n, rest) && Head(more).kind == op && more != []
    requires Yields(n, ts, l, more) && Yields(n + 1, more[1..], r, rest)
    ensures Yields(n, ts, Binary(l, op, r), rest)
  {
    hide ParseLevel, LevelLoop, OpLevel, OfLevel;
    OpLevelIs(n, op);
    RightOperand(n, more[1..], r, rest);
    LoopsOn(n, l, more, r, rest);
  }

  lemma RightOperand(n: nat, ts: seq<Token>, r: Expr, rest: seq<Token>)
    requires 1 <= n <= 6 && Stops(n, rest) && Yields(n + 1, ts, r, rest)
    ensures ParseLevel(n + 1, ts) == Parsed(r, rest, [])
  {
    hide ParseUnary;
    LoopsStop(n, r, rest);
  }

  // ----- lists -----

  lemma {:induction false} ArgsComplete(ts: seq<Token>, k: nat, es: seq<Expr>, close: Kind)
    requires ItemsRead(ts, k, es) && k < |ts| && ts[k].kind == close && close in {RParen, RBracket}
    ensures ParseArgs(ts, close) == Parsed(es, ts[k + 1..], [])
    decreases k, 14
  {
    hide ParseItems, Reads;
    if es != [] {
      ItemsStart(ts, k, es);
      ItemsComplete(ts, k, es);
      assert ts[k..][1..] == ts[k + 1..];
    }
  }

  lemma ItemsStart(ts: seq<Token>, k: nat, es: seq<Expr>)
    requires ItemsRead(ts, k, es) && es != []
    ensures Head(ts).kind !in {RParen, RBracket}
  {
    hide Reads;
    if |es| == 1 {
      Starts(0, ts, k, es[0]);
    } else {
      var m: nat :| m < k && ts[m].kind.Comma? && Reads(0, ts, m, es[0]) && ItemsRead(ts[m + 1..], k - m - 1, es[1..]);
      Starts(0, ts, m, es[0]);
    }
  }

  lemma ItemsGoOn(ts: seq<Token>, more: seq<Token>, e: Expr, es: seq<Expr>, rest: seq<Token>)
    requires ParseExpr(ts) == Parsed(e, more, []) && Head(more).kind.Comma? && ParseItems(more[1..]) == Parsed(es, rest, [])
    ensures ParseItems(ts) == Parsed([e] + es, rest, [])
  {
    hide ParseExpr;
  }

  lemma {:induction false} ItemsComplete(ts: seq<Token>, k: nat, es: seq<Expr>)
    requires ItemsRead(ts, k, es) && es != [] && k < |ts| && ts[k].kind in {RParen, RBracket}
    ensures ParseItems(ts) == Parsed(es, ts[k..], [])
    decreases k, 13
  {
    hide ParseExpr, Reads, Stops;
    if |es| == 1 {
      StopsBefore(ts[k..]);
      Complete(0, ts, k, es[0]);
      assert [es[0]] == es;
    } else {
      var m: nat :| m < k && ts[m].kind.Comma? && Reads(0, ts, m, es[0]) && ItemsRead(ts[m + 1..], k - m - 1, es[1..]);
      hide ParseItems, ItemsRead;
      StopsBefore(ts[m..]);
      Complete(0, ts, m, es[0]);
      assert ts[m..][1..] == ts[m + 1..] && ts[m + 1..][k - m - 1..] == ts[k..];
      ItemsComplete(ts[m + 1..], k - m - 1, es[1..]);
      ItemsGoOn(ts, ts[m..], es[0], es[1..], ts[k..]);
      assert [es[0]] + es[1..] == es;
    }
  }

  // ----- what is parsed is a text -----

  lemma Lower(n: nat, m: nat, ts: seq<Token>, k: nat, e: Expr)
    requires Reads(m, ts, k, e) && n <= m
    ensures Reads(n, ts, k, e)
  {
    hide Plain, InBrackets;
  }

  /** Without errors the parser has taken a text of the tree, and left the rest. */
  ghost predicate Took(n: nat, ts: seq<Token>, r: Parse<Expr>) {
    r.Parsed? && r.errors == [] ==>
      |r.rest| <= |ts| && r.rest == ts[|ts| - |r.rest|..] && Reads(n, ts, |ts| - |r.rest|, r.value)
  }

  /** A text and the token that closes it. */
  ghost predicate TookEnclosed(ts: seq<Token>, close: Kind, r: Parse<Expr>) {
    r.Parsed? && r.errors == [] ==>
      && |r.rest| < |ts| && r.rest == ts[|ts| - |r.rest|..] && ts[|ts| - |r.rest| - 1].kind == close
      && Reads(0, ts, |ts| - |r.rest| - 1, r.value)
  }

  ghost predicate TookItems(ts: seq<Token>, r: Parse<seq<Expr>>) {
    r.Parsed? && r.errors == [] ==>
      |r.rest| <= |ts| && r.rest == ts[|ts| - |r.rest|..] && ItemsRead(ts, |ts| - |r.rest|, r.value) && r.value != []
  }

  ghost predicate TookArgs(ts: seq<Token>, close: Kind, r: Parse<seq<Expr>>) {
    r.Parsed? && r.errors == [] ==>
      && |r.rest| < |ts| && r.rest == ts[|ts| - |r.rest|..] && ts[|ts| - |r.rest| - 1].kind == close
      && ItemsRead(ts, |ts| - |r.rest| - 1, r.value)
  }

  // ----- types from their parts -----

  lemma TypePointer(ts: seq<Token>, k: nat, v: bool, u: TypeName)
    requires (if v then 1 else 0) < k <= |ts| && ts[0].kind.Star? && (v ==> ts[1].kind.VolatileKw?)
    requires var n := if v then 2 else 1; k >= n && TypeReads(ts[n..], k - n, u)
    ensures TypeReads(ts, k, Pointer(v, u))
  {
  }

  lemma TypeSlice(ts: seq<Token>, k: nat, u: TypeName)
    requires 2 <= k <= |ts| && ts[0].kind.LBracket? && ts[1].kind.RBracket? && TypeReads(ts[2..], k - 2, u)
    ensures TypeReads(ts, k, Slice(u))
  {
  }

  lemma TypeFixed(ts: seq<Token>, k: nat, u: TypeName, n: string)
    requires 4 < k <= |ts| && ts[0].kind.LBracket? && TypeReads(ts[1..], k - 4, u)
    requires ts[k - 3].kind.Semicolon? && ts[k - 2] == Token(Integer, n) && ts[k - 1].kind.RBracket?
    ensures TypeReads(ts, k, Fixed(u, n))
  {
  }

  lemma TypeBase(ts: seq<Token>)
    requires ts != [] && ts[0].kind.Identifier?
    ensures TypeReads(ts, 1, Base(ts[0].lexeme))
  {
  }

  /** The parser has taken a text of the type, and left the rest. */
  ghost predicate TypeTaken(ts: seq<Token>, r: Parse<TypeName>) {
    r.Parsed? ==> |r.rest| <= |ts| && r.rest == ts[|ts| - |r.rest|..] && TypeReads(ts, |ts| - |r.rest|, r.value)
  }

  lemma {:induction false} TypeTook(ts: seq<Token>)
    ensures TypeTaken(ts, ParseType(ts))
    decreases |ts|
  {
    hide ParseType, TypeTaken;
    if Head(ts).kind.Star? {
      TypeTook(if Head(ts[1..]).kind.VolatileKw? then ts[2..] else ts[1..]);
      PointerTook(ts);
    } else if Head(ts).kind.LBracket? {
      if Head(ts[1..]).kind.RBracket? {
        TypeTook(ts[2..]);
        SliceTook(ts);
      } else {
        TypeTook(ts[1..]);
        FixedTook(ts);
      }
    } else {
      BaseTook(ts);
    }
  }

  lemma BaseTook(ts: seq<Token>)
    requires Head(ts).kind !in {Star, LBracket}
    ensures TypeTaken(ts, ParseType(ts))
  {
    hide TypeReads;
    if Head(ts).kind.Identifier? { TypeBase(ts); }
  }

  lemma PointerTook(ts: seq<Token>)
    requires Head(ts).kind.Star?
    requires var us := if Head(ts[1..]).kind.VolatileKw? then ts[2..] else ts[1..]; TypeTaken(us, ParseType(us))
    ensures TypeTaken(ts, ParseType(ts))
  {
    hide TypeReads, ParseFixed;
    var isVolatile := Head(ts[1..]).kind.VolatileKw?;
    var us := if isVolatile then ts[2..] else ts[1..];
    var r := ParseType(us);
    if r.Parsed? {
      var k := |ts| - |r.rest|;
      assert us[|us| - |r.rest|..] == ts[k..];
      TypePointer(ts, k, isVolatile, r.value);
    }
  }

  lemma SliceTook(ts: seq<Token>)
    requires Head(ts).kind.LBracket? && Head(ts[1..]).kind.RBracket? && TypeTaken(ts[2..], ParseType(ts[2..]))
    ensures TypeTaken(ts, ParseType(ts))
  {
    hide TypeReads, ParseFixed;
    var r := ParseType(ts[2..]);
    if r.Parsed? {
      var k := |ts| - |r.rest|;
      assert ts[2..][k - 2..] == ts[k..];
      TypeSlice(ts, k, r.value);
    }
  }

  lemma FixedParts(ts: seq<Token>)
    requires Head(ts).kind.LBracket? && !Head(ts[1..]).kind.RBracket? && ParseType(ts).Parsed?
    ensures var r, q := ParseType(ts[1..]), ParseType(ts);
            && r.Parsed? && |r.rest| >= 3 && r.rest[0].kind.Semicolon? && r.rest[1].kind.Integer? && r.rest[2].kind.RBracket?
            && q.rest == r.rest[3..] && q.value == Fixed(r.value, r.rest[1].lexeme)
  {
    assert ParseType(ts) == ParseFixed(ts);
    hide ParseType;
    var r := ParseType(ts[1..]).rest;
    assert r[1..][1..] == r[2..] && r[2..][1..] == r[3..];
  }

  lemma FixedTook(ts: seq<Token>)
    requires Head(ts).kind.LBracket? && !Head(ts[1..]).kind.RBracket? && TypeTaken(ts[1..], ParseType(ts[1..]))
    ensures TypeTaken(ts, ParseType(ts))
  {
    if ParseType(ts).Parsed? {
      FixedParts(ts);
      hide ParseType, TypeReads;
      var r := ParseType(ts[1..]);
      var k := |ts| - |r.rest|;
      assert r.rest == ts[k..] by { assert ts[1..][k - 1..] == ts[k..]; }
      assert r.rest[3..] == ts[k + 3..];
      assert ts[k + 1] == Token(Integer, r.rest[1].lexeme);
      TypeFixed(ts, k + 3, r.value, r.rest[1].lexeme);
    }
  }

  // ----- expressions from their parts -----

  lemma ExprTurns(ts: seq<Token>)
    ensures var l, r := ParseLevel(1, ts), ParseExpr(ts);
            r.Parsed? && r.errors == [] ==>
              && l.Parsed? && l.errors == []
              && if Head(l.rest).kind.Equal? then
                   var v := ParseExpr(l.rest[1..]);
                   v.Parsed? && v.errors == [] && ValidTarget(l.value) && r == Parsed(Binary(l.value, Equal, v.value), v.rest, [])
                 else r == l
  {
    hide ParseLevel;
  }

  lemma {:induction false} ExprTook(ts: seq<Token>)
    ensures Took(0, ts, ParseExpr(ts))
    decreases |ts|, 20
  {
    hide ParseLevel, ParseExpr, Reads;
    LevelTook(1, ts);
    ExprTurns(ts);
    var l, r := ParseLevel(1, ts), ParseExpr(ts);
    if r.Parsed? && r.errors == [] {
      var m, k := |ts| - |l.rest|, |ts| - |r.rest|;
      if Head(l.rest).kind.Equal? {
        ExprTook(l.rest[1..]);
        assert l.rest[1..] == ts[m + 1..] && ts[m + 1..][k - m - 1..] == ts[k..];
        BinaryTook(0, ts, m, l.value, ParseExpr(l.rest[1..]).value, k);
      } else {
        Lower(0, 1, ts, m, l.value);
      }
    }
  }

  /** Two texts with an operator between them. */
  lemma BinaryTook(n: nat, ts: seq<Token>, m: nat, l: Expr, r: Expr, k: nat)
    requires m < k <= |ts| && OpLevel(ts[m].kind) == n <= 6 && (ts[m].kind.Equal? ==> IsPlace(l))
    requires Reads(if n == 0 then 1 else n, ts, m, l) && Reads(if n == 0 then 0 else n + 1, ts[m + 1..], k - m - 1, r)
    ensures Reads(n, ts, k, Binary(l, ts[m].kind, r))
  {
    hide Reads, InBrackets;
    assert BinaryAt(ts, k, m, l, ts[m].kind, r);
    PlainReads(n, ts, k, Binary(l, ts[m].kind, r));
  }

  lemma PlainReads(n: nat, ts: seq<Token>, k: nat, e: Expr)
    requires k <= |ts| && Plain(ts, k, e) && n <= LevelOf(e)
    ensures Reads(n, ts, k, e)
  {
    hide Plain, InBrackets;
  }

  lemma {:induction false} LevelTook(n: nat, ts: seq<Token>)
    requires 1 <= n <= 7
    ensures Took(n, ts, ParseLevel(n, ts))
    decreases |ts|, 19 - n
  {
    hide ParseUnary, LevelLoop, Reads;
    if n == 7 {
      UnaryTook(ts);
    } else {
      LevelTook(n + 1, ts);
      var r := ParseLevel(n + 1, ts);
      if r.Parsed? && r.errors == [] {
        LaterNone(LevelLoop(n, r.value, r.rest));
        Lower(n, n + 1, ts, |ts| - |r.rest|, r.value);
        LoopTook(n, ts, |ts| - |r.rest|, r.value);
      }
    }
  }

  lemma {:induction false} LoopTook(n: nat, ts: seq<Token>, m: nat, e: Expr)
    requires 1 <= n < 7 && Reads(n, ts, m, e)
    ensures Took(n, ts, LevelLoop(n, e, ts[m..]))
    decreases |ts|, 11, |ts| - m
  {
    hide ParseLevel, LevelLoop, Reads;
    ReadsWithin(n, ts, m, e);
    var more := ts[m..];
    LoopTurns(n, e, more);
    if OfLevel(n, Head(more).kind) {
      assert more[1..] == ts[m + 1..];
      WithinLevel(n, ts, m);
      var r := ParseLevel(n + 1, more[1..]);
      if r.Parsed? && r.errors == [] {
        var k := |ts| - |r.rest|;
        assert r.rest == ts[m + 1..][k - m - 1..] == ts[k..];
        OpLevelIs(n, ts[m].kind);
        BinaryTook(n, ts, m, e, r.value, k);
        LoopTook(n, ts, k, Binary(e, ts[m].kind, r.value));
      }
    }
  }

  lemma ReadsWithin(n: nat, ts: seq<Token>, k: nat, e: Expr)
    requires Reads(n, ts, k, e)
    ensures 0 < k <= |ts|
  {
    Starts(n, ts, k, e);
  }

  lemma {:induction false} WithinLevel(n: nat, ts: seq<Token>, m: nat)
    requires 1 <= n < 7 && m < |ts|
    ensures Took(n + 1, ts[m + 1..], ParseLevel(n + 1, ts[m + 1..]))
    decreases |ts|, 10
  {
    LevelTook(n + 1, ts[m + 1..]);
  }

  lemma LoopTurns(n: nat, e: Expr, ts: seq<Token>)
    requires 1 <= n < 7
    ensures var r := ParseLevel(n + 1, if ts == [] then [] else ts[1..]);
            if !OfLevel(n, Head(ts).kind) then LevelLoop(n, e, ts) == Parsed(e, ts, [])
            else if r.Parsed? && r.errors == [] then LevelLoop(n, e, ts) == LevelLoop(n, Binary(e, ts[0].kind, r.value), r.rest)
            else LevelLoop(n, e, ts).Parsed? ==> LevelLoop(n, e, ts).errors != []
  {
    hide ParseLevel;
    if OfLevel(n, Head(ts).kind) {
      var r := ParseLevel(n + 1, ts[1..]);
      if r.Parsed? { LaterNone(LevelLoop(n, Binary(e, ts[0].kind, r.value), r.rest)); }
    }
  }

  lemma {:induction false} UnaryTook(ts: seq<Token>)
    ensures Took(7, ts, ParseUnary(ts))
    decreases |ts|, 10
  {
    hide ParseCast, Reads;
    if IsPrefixOp(Head(ts).kind) {
      UnaryTook(ts[1..]);
      var r := ParseUnary(ts[1..]);
      if r.Parsed? && r.errors == [] {
        var k := |ts| - |r.rest|;
        assert ts[1..][k - 1..] == ts[k..];
        PlainReads(7, ts, k, Unary(ts[0].kind, r.value));
      }
    } else {
      CastTook(ts);
      var r := ParseCast(ts);
      if r.Parsed? && r.errors == [] { Lower(7, 8, ts, |ts| - |r.rest|, r.value); }
    }
  }

  lemma {:induction false} CastTook(ts: seq<Token>)
    ensures Took(8, ts, ParseCast(ts))
    decreases |ts|, 9
  {
    hide ParseCall, CastLoop, Reads;
    CallTook(ts);
    var r := ParseCall(ts);
    if r.Parsed? && r.errors == [] {
      LaterNone(CastLoop(r.value, r.rest));
      Lower(8, 9, ts, |ts| - |r.rest|, r.value);
      CastLoopTook(ts, |ts| - |r.rest|, r.value);
    }
  }

  lemma CastTurns(e: Expr, ts: seq<Token>)
    ensures !Head(ts).kind.AsKw? ==> CastLoop(e, ts) == Parsed(e, ts, [])
    ensures Head(ts).kind.AsKw? ==>
      var r := ParseType(ts[1..]);
      if r.Parsed? then CastLoop(e, ts) == CastLoop(Cast(e, r.value), r.rest) else CastLoop(e, ts).Thrown?
  {
    hide ParseType;
  }

  lemma {:induction false} CastLoopTook(ts: seq<Token>, m: nat, e: Expr)
    requires Reads(8, ts, m, e)
    ensures Took(8, ts, CastLoop(e, ts[m..]))
    decreases |ts| - m
  {
    hide ParseType, CastLoop, Reads, TypeReads;
    ReadsWithin(8, ts, m, e);
    var more := ts[m..];
    CastTurns(e, more);
    if Head(more).kind.AsKw? {
      assert more[1..] == ts[m + 1..];
      TypeTook(more[1..]);
      var r := ParseType(more[1..]);
      if r.Parsed? {
        var k := |ts| - |r.rest|;
        assert r.rest == ts[m + 1..][k - m - 1..] == ts[k..];
        CastReads(ts, k, m, e, r.value);
        CastLoopTook(ts, k, Cast(e, r.value));
      }
    }
  }

  lemma {:induction false} CallTook(ts: seq<Token>)
    ensures Took(9, ts, ParseCall(ts))
    decreases |ts|, 8
  {
    hide ParsePrimary, CallLoop, Reads;
    PrimaryTook(ts);
    var r := ParsePrimary(ts);
    if r.Parsed? && r.errors == [] {
      LaterNone(CallLoop(r.value, r.rest));
      Lower(9, 10, ts, |ts| - |r.rest|, r.value);
      CallLoopTook(ts, |ts| - |r.rest|, r.value);
    }
  }

  lemma CastReads(ts: seq<Token>, k: nat, m: nat, a: Expr, t: TypeName)
    requires m < k <= |ts| && CastAt(ts, k, m, a, t)
    ensures Reads(8, ts, k, Cast(a, t))
  {
    hide Reads, TypeReads;
    PlainReads(8, ts, k, Cast(a, t));
  }

  lemma CallReads(ts: seq<Token>, k: nat, m: nat, f: Expr, args: seq<Expr>)
    requires m + 1 < k <= |ts| && CallAt(ts, k, m, f, args)
    ensures Reads(9, ts, k, Call(f, args))
  {
    hide Reads, ItemsRead;
    PlainReads(9, ts, k, Call(f, args));
  }

  lemma IndexReads(ts: seq<Token>, k: nat, m: nat, a: Expr, i: Expr)
    requires m + 1 < k <= |ts| && IndexAt(ts, k, m, a, i)
    ensures Reads(9, ts, k, Index(a, i))
  {
    hide Reads;
    PlainReads(9, ts, k, Index(a, i));
  }

  lemma MemberReads(ts: seq<Token>, m: nat, a: Expr)
    requires m + 1 < |ts| && ts[m].kind.Dot? && ts[m + 1].kind.Identifier? && Reads(9, ts, m, a)
    ensures Reads(9, ts, m + 2, Member(a, ts[m + 1].lexeme))
  {
    hide Reads;
    assert ts[m + 1] == Token(Identifier, ts[m + 1].lexeme);
    PlainReads(9, ts, m + 2, Member(a, ts[m + 1].lexeme));
  }

  lemma {:induction false} CallTaken(ts: seq<Token>, m: nat, e: Expr)
    requires Reads(9, ts, m, e) && m < |ts| && ts[m].kind.LParen?
    ensures Took(9, ts, CallStep(e, ts[m..]))
    decreases |ts|, 5
  {
    hide ParseArgs, Reads, ItemsRead;
    assert ts[m..][1..] == ts[m + 1..];
    ArgsTook(ts[m + 1..], RParen);
    var r := CallStep(e, ts[m..]);
    if r.Parsed? && r.errors == [] {
      var k := |ts| - |r.rest|;
      assert ts[m + 1..][k - m - 1..] == ts[k..];
      CallReads(ts, k, m, e, r.value.args);
    }
  }

  lemma {:induction false} IndexTaken(ts: seq<Token>, m: nat, e: Expr)
    requires Reads(9, ts, m, e) && m < |ts| && ts[m].kind.LBracket?
    ensures Took(9, ts, CallStep(e, ts[m..]))
    decreases |ts|, 5
  {
    hide ParseEnclosed, Reads;
    assert ts[m..][1..] == ts[m + 1..];
    EnclosedTook(ts[m + 1..], RBracket);
    var r := CallStep(e, ts[m..]);
    if r.Parsed? && r.errors == [] {
      var k := |ts| - |r.rest|;
      assert ts[m + 1..][k - m - 1..] == ts[k..];
      IndexReads(ts, k, m, e, r.value.index);
    }
  }

  lemma MemberTaken(ts: seq<Token>, m: nat, e: Expr)
    requires Reads(9, ts, m, e) && m < |ts| && ts[m].kind.Dot?
    ensures Took(9, ts, CallStep(e, ts[m..]))
  {
    hide Reads;
    assert ts[m..][1..] == ts[m + 1..];
    var r := CallStep(e, ts[m..]);
    if r.Parsed? {
      assert ts[m + 1..][1..] == ts[m + 2..];
      MemberReads(ts, m, e);
    }
  }

  /** One argument list, index or member name. */
  lemma {:induction false} StepTook(ts: seq<Token>, m: nat, e: Expr)
    requires Reads(9, ts, m, e) && Head(ts[m..]).kind in {LParen, LBracket, Dot}
    ensures Took(9, ts, CallStep(e, ts[m..]))
    decreases |ts|, 6
  {
    hide CallStep, Took, Reads;
    ReadsWithin(9, ts, m, e);
    if ts[m].kind.LParen? { CallTaken(ts, m, e); }
    else if ts[m].kind.LBracket? { IndexTaken(ts, m, e); }
    else { MemberTaken(ts, m, e); }
  }

  lemma {:induction false} CallLoopTook(ts: seq<Token>, m: nat, e: Expr)
    requires Reads(9, ts, m, e)
    ensures Took(9, ts, CallLoop(e, ts[m..]))
    decreases |ts|, 7, |ts| - m
  {
    hide CallLoop, CallStep, Reads;
    ReadsWithin(9, ts, m, e);
    var more := ts[m..];
    if Head(more).kind in {LParen, LBracket, Dot} {
      StepTook(ts, m, e);
      CallTurns(e, more);
      var r := CallStep(e, more);
      if r.Parsed? && r.errors == [] { CallLoopTook(ts, |ts| - |r.rest|, r.value); }
    } else {
      CallEnds(e, more);
    }
  }

  lemma CallTurns(e: Expr, ts: seq<Token>)
    requires Head(ts).kind in {LParen, LBracket, Dot}
    ensures var r := CallStep(e, ts);
            if r.Parsed? && r.errors == [] then CallLoop(e, ts) == CallLoop(r.value, r.rest)
            else CallLoop(e, ts).Parsed? ==> CallLoop(e, ts).errors != []
  {
    hide CallStep, CallLoop;
    CallLoopStep(e, ts);
    var r := CallStep(e, ts);
    if r.Parsed? { LaterNone(CallLoop(r.value, r.rest)); }
  }

  lemma {:induction false} EnclosedTook(ts: seq<Token>, close: Kind)
    requires !close.Eof?
    ensures TookEnclosed(ts, close, ParseEnclosed(ts, close))
    decreases |ts|, 21
  {
    hide ParseExpr, Reads;
    ExprTook(ts);
  }

  lemma {:induction false} ArgsTook(ts: seq<Token>, close: Kind)
    requires !close.Eof?
    ensures TookArgs(ts, close, ParseArgs(ts, close))
    decreases |ts|, 22
  {
    hide ParseItems, Reads;
    if Head(ts).kind != close { ItemsTook(ts); }
  }

  lemma ItemsAdd(ts: seq<Token>, k: nat, m: nat, e: Expr, es: seq<Expr>)
    requires m < k <= |ts| && ts[m].kind.Comma? && Reads(0, ts, m, e) && ItemsRead(ts[m + 1..], k - m - 1, es) && es != []
    ensures ItemsRead(ts, k, [e] + es)
  {
    hide Reads;
    assert ([e] + es)[1..] == es;
  }

  lemma ItemsOne(ts: seq<Token>, k: nat, e: Expr)
    requires Reads(0, ts, k, e)
    ensures ItemsRead(ts, k, [e])
  {
    hide Plain, InBrackets;
  }

  lemma ItemsTurns(ts: seq<Token>)
    ensures var e, r := ParseExpr(ts), ParseItems(ts);
            r.Parsed? && r.errors == [] ==>
              && e.Parsed? && e.errors == []
              && if Head(e.rest).kind.Comma? then
                   var q := ParseItems(e.rest[1..]);
                   q.Parsed? && q.errors == [] && r.value == [e.value] + q.value && r.rest == q.rest
                 else r.value == [e.value] && r.rest == e.rest
  {
    hide ParseExpr;
  }

  lemma {:induction false} ItemsTook(ts: seq<Token>)
    ensures TookItems(ts, ParseItems(ts))
    decreases |ts|, 21
  {
    hide ParseExpr, ParseItems, Reads, ItemsRead;
    ExprTook(ts);
    ItemsTurns(ts);
    var e, r := ParseExpr(ts), ParseItems(ts);
    if r.Parsed? && r.errors == [] {
      var m, k := |ts| - |e.rest|, |ts| - |r.rest|;
      if Head(e.rest).kind.Comma? {
        ItemsTook(e.rest[1..]);
        assert e.rest[1..] == ts[m + 1..] && ts[m + 1..][k - m - 1..] == ts[k..];
        ItemsAdd(ts, k, m, e.value, ParseItems(e.rest[1..]).value);
      } else {
        ItemsOne(ts, k, e.value);
      }
    }
  }

  lemma {:induction false} PrimaryTook(ts: seq<Token>)
    ensures Took(10, ts, ParsePrimary(ts))
    decreases |ts|, 7
  {
    hide ParseArgs, ParseEnclosed, LiteralOf, Reads, ItemsRead;
    var r := ParsePrimary(ts);
    if r.Parsed? {
      if Head(ts).kind.LBracket? {
        ArgsTook(ts[1..], RBracket);
      } else if Head(ts).kind.LParen? {
        EnclosedTook(ts[1..], RParen);
      }
      if r.errors == [] {
        var k := |ts| - |r.rest|;
        assert ts[1..][k - 1..] == ts[k..];
        if ts[0].kind.LParen? {
          BracketsRead(10, ts, k, r.value);
        } else {
          PlainReads(10, ts, k, r.value);
        }
      }
    }
  }

  lemma BracketsRead(n: nat, ts: seq<Token>, k: nat, e: Expr)
    requires k <= |ts| && InBrackets(ts, k, e)
    ensures Reads(n, ts, k, e)
  {
    hide Plain, InBrackets;
  }

  // ----- the theorems -----

  /** Before a token that does not go on with it, a tree is read without errors exactly from its texts. */
  lemma ParsesIff(ts: seq<Token>, k: nat, e: Expr)
    requires k <= |ts| && Stops(0, ts[k..])
    ensures ParseExpr(ts) == Parsed(e, ts[k..], []) <==> Reads(0, ts, k, e)
  {
    hide ParseExpr, Reads, Stops;
    ExprTook(ts);
    if Reads(0, ts, k, e) { Complete(0, ts, k, e); }
  }

  /** No text has two trees. */
  lemma OneTree(ts: seq<Token>, d: Expr, e: Expr)
    requires Reads(0, ts, |ts|, d) && Reads(0, ts, |ts|, e)
    ensures d == e
  {
    hide Reads;
    ParsesIff(ts, |ts|, d);
    ParsesIff(ts, |ts|, e);
  }
}
