/**
 The expression parser: recursive descent through ten levels of precedence.

 The functions say what is parsed from the tokens that are left; class `Parser` parses with a cursor.
 */
module Expressions {
  import opened Basics
  import opened Int64
  import opened Lexer

  /** A type as the parser reads it; the syntax tree holds it as a string. */
  datatype TypeName = Pointer(isVolatile: bool, to: TypeName) | Slice(of: TypeName) | Fixed(of: TypeName, count: string) | Base(name: string)

  /** Floating-point literals keep their digits, whose value is std::stod's. */
  datatype Literal = NullLit | IntLit(integer: i64) | FloatLit(digits: string) | BoolLit(truth: bool) | StringLit(text: string)

  datatype Expr =
    | Lit(literal: Literal)
    | Name(name: string)
    | Unary(op: Kind, operand: Expr)
    | Binary(left: Expr, op: Kind, right: Expr)
    | Call(callee: Expr, args: seq<Expr>)
    | Cast(value: Expr, typeName: TypeName)
    | Index(object: Expr, index: Expr)
    | Member(object: Expr, member: string)
    | Array(elements: seq<Expr>)

  datatype ParseError = InvalidTarget | ExpectedExpression | Expected(kind: Kind) | LiteralOutOfRange

  /** Parsed something, with the tokens left and the errors met; or gave up with an error. */
  datatype Parse<T> = Parsed(value: T, rest: seq<Token>, errors: seq<ParseError>) | Thrown(errors: seq<ParseError>)

  // ----- literals -----

  function DigitOf(c: char): nat {
    if '0' <= c <= '9' then (c - '0') as nat
    else if 'a' <= c <= 'f' then 10 + (c - 'a') as nat
    else if 'A' <= c <= 'F' then 10 + (c - 'A') as nat
    else 36
  }

  /** The number the leading digits of a base denote, read from the left. */
  function Digits(s: string, base: nat, value: nat): nat {
    if s == "" || DigitOf(s[0]) >= base then value else Digits(s[1..], base, value * base + DigitOf(s[0]))
  }

  /** std::stoull with base 0: hexadecimal after 0x, octal after another leading zero, else decimal. */
  function Unsigned(lexeme: string): nat {
    if IsHex(lexeme) then Digits(lexeme[2..], 16, 0)
    else if lexeme != "" && lexeme[0] == '0' then Digits(lexeme, 8, 0)
    else Digits(lexeme, 10, 0)
  }

  /** A 64-bit unsigned literal, taken as a signed integer; larger ones are errors. */
  function IntegerValue(lexeme: string): Option<i64> {
    var n := Unsigned(lexeme);
    if n < TWO64 then Some(Wrapped(n)) else None
  }

  function Escaped(c: char): char {
    match c
    case 'n' => '\n'
    case 'r' => '\r'
    case 't' => '\t'
    case '0' => '\0'
    case other => other
  }

  /** The text from index `i` of a string lexeme on; its last character is the closing quote. */
  function DecodeFrom(lexeme: string, i: nat): string
    decreases |lexeme| - i
  {
    if i + 1 >= |lexeme| then ""
    else if lexeme[i] != '\\' || i + 2 >= |lexeme| then [lexeme[i]] + DecodeFrom(lexeme, i + 1)
    else [Escaped(lexeme[i + 1])] + DecodeFrom(lexeme, i + 2)
  }

  function DecodeString(lexeme: string): string {
    if |lexeme| < 2 then "" else DecodeFrom(lexeme, 1)
  }

  method DecodeStringLiteral(lexeme: string) returns (out: string)
    ensures out == DecodeString(lexeme)
  {
    if |lexeme| < 2 { return ""; }
    out := "";
    var i := 1;
    while i + 1 < |lexeme|
      invariant out + DecodeFrom(lexeme, i) == DecodeString(lexeme)
      decreases |lexeme| - i
    {
      var c := lexeme[i];
      if c != '\\' || i + 2 >= |lexeme| {
        out := out + [c];
      } else {
        i := i + 1;
        out := out + [Escaped(lexeme[i])];
      }
      i := i + 1;
    }
  }

  // ----- precedence -----

  /** The operators of the binary levels, from `||` (1) to the products (6). */
  predicate OfLevel(n: nat, k: Kind) {
    match n
    case 1 => k.OrOr?
    case 2 => k.AndAnd?
    case 3 => k.EqualEqual? || k.BangEqual?
    case 4 => k.Less? || k.LessEqual? || k.Greater? || k.GreaterEqual?
    case 5 => k.Plus? || k.Minus?
    case 6 => k.Star? || k.Slash? || k.Percent?
    case _ => false
  }

  predicate IsPrefixOp(k: Kind) {
    k in {Bang, Minus, Plus, Star, Ampersand, TryKw}
  }

  predicate ValidTarget(e: Expr) {
    e.Name? || e.Index? || e.Member? || (e.Unary? && e.op.Star?)
  }

  const END := Token(Eof, "")

  function Head(ts: seq<Token>): Token {
    if ts == [] then END else ts[0]
  }

  /** The tokens after the next one; nothing is taken at the end. */
  function Tail(ts: seq<Token>): seq<Token> {
    if Head(ts).kind.Eof? then ts else ts[1..]
  }

  // ----- the grammar -----

  function Consume(ts: seq<Token>, k: Kind): (r: Parse<Token>)
    requires !k.Eof?
    ensures r.Parsed? ==> |r.rest| < |ts| && r.errors == []
  {
    if Head(ts).kind == k then Parsed(ts[0], ts[1..], []) else Thrown([Expected(k)])
  }

  function ParseType(ts: seq<Token>): (r: Parse<TypeName>)
    ensures r.Parsed? ==> |r.rest| < |ts| && r.errors == []
    decreases |ts|
  {
    if Head(ts).kind.Star? then
      var isVolatile := Head(ts[1..]).kind.VolatileKw?;
      match ParseType(if isVolatile then ts[2..] else ts[1..])
      case Parsed(t, rest, _) => Parsed(Pointer(isVolatile, t), rest, [])
      case Thrown(e) => Thrown(e)
    else if Head(ts).kind.LBracket? then
      if Head(ts[1..]).kind.RBracket? then
        match ParseType(ts[2..])
        case Parsed(t, rest, _) => Parsed(Slice(t), rest, [])
        case Thrown(e) => Thrown(e)
      else ParseFixed(ts)
    else
      match Consume(ts, Identifier)
      case Parsed(name, rest, _) => Parsed(Base(name.lexeme), rest, [])
      case Thrown(e) => Thrown(e)
  }

  function ParseFixed(ts: seq<Token>): (r: Parse<TypeName>)
    requires ts != []
    ensures r.Parsed? ==> |r.rest| < |ts| && r.errors == []
    decreases |ts|, 0
  {
    match ParseType(ts[1..])
    case Thrown(e) => Thrown(e)
    case Parsed(element, r1, _) =>
      match Consume(r1, Semicolon)
      case Thrown(e) => Thrown(e)
      case Parsed(_, r2, _) =>
        match Consume(r2, Integer)
        case Thrown(e) => Thrown(e)
        case Parsed(count, r3, _) =>
          match Consume(r3, RBracket)
          case Thrown(e) => Thrown(e)
          case Parsed(_, r4, _) => Parsed(Fixed(element, count.lexeme), r4, [])
  }

  /** The same result, after earlier errors. */
  function Later<T>(errors: seq<ParseError>, r: Parse<T>): Parse<T> {
    match r
    case Parsed(v, rest, more) => Parsed(v, rest, errors + more)
    case Thrown(more) => Thrown(errors + more)
  }

  function ParseExpr(ts: seq<Token>): (r: Parse<Expr>)
    ensures r.Parsed? ==> |r.rest| < |ts|
    decreases |ts|, 20
  {
    match ParseLevel(1, ts)
    case Thrown(e) => Thrown(e)
    case Parsed(left, rest, errors) =>
      if !Head(rest).kind.Equal? then Parsed(left, rest, errors)
      else
        match ParseExpr(rest[1..])
        case Thrown(e) => Thrown(errors + e)
        case Parsed(value, after, more) =>
          if ValidTarget(left) then Parsed(Binary(left, Equal, value), after, errors + more)
          else Parsed(left, after, errors + more + [InvalidTarget])
  }

  function ParseLevel(n: nat, ts: seq<Token>): (r: Parse<Expr>)
    requires 1 <= n <= 7
    ensures r.Parsed? ==> |r.rest| < |ts|
    decreases |ts|, 19 - n
  {
    if n == 7 then ParseUnary(ts)
    else
      match ParseLevel(n + 1, ts)
      case Thrown(e) => Thrown(e)
      case Parsed(e, rest, errors) => Later(errors, LevelLoop(n, e, rest))
  }

  function LevelLoop(n: nat, e: Expr, ts: seq<Token>): (r: Parse<Expr>)
    requires 1 <= n < 7
    ensures r.Parsed? ==> |r.rest| <= |ts|
    decreases |ts|, 0
  {
    if !OfLevel(n, Head(ts).kind) then Parsed(e, ts, [])
    else
      match ParseLevel(n + 1, ts[1..])
      case Thrown(e) => Thrown(e)
      case Parsed(right, rest, errors) => Later(errors, LevelLoop(n, Binary(e, ts[0].kind, right), rest))
  }

  function ParseUnary(ts: seq<Token>): (r: Parse<Expr>)
    ensures r.Parsed? ==> |r.rest| < |ts|
    decreases |ts|, 10
  {
    if IsPrefixOp(Head(ts).kind) then
      match ParseUnary(ts[1..])
      case Thrown(e) => Thrown(e)
      case Parsed(e, rest, errors) => Parsed(Unary(ts[0].kind, e), rest, errors)
    else ParseCast(ts)
  }

  function ParseCast(ts: seq<Token>): (r: Parse<Expr>)
    ensures r.Parsed? ==> |r.rest| < |ts|
    decreases |ts|, 9
  {
    match ParseCall(ts)
    case Thrown(e) => Thrown(e)
    case Parsed(e, rest, errors) => Later(errors, CastLoop(e, rest))
  }

  function CastLoop(e: Expr, ts: seq<Token>): (r: Parse<Expr>)
    ensures r.Parsed? ==> |r.rest| <= |ts|
    decreases |ts|, 0
  {
    if !Head(ts).kind.AsKw? then Parsed(e, ts, [])
    else
      match ParseType(ts[1..])
      case Thrown(e) => Thrown(e)
      case Parsed(t, rest, _) => CastLoop(Cast(e, t), rest)
  }

  function ParseCall(ts: seq<Token>): (r: Parse<Expr>)
    ensures r.Parsed? ==> |r.rest| < |ts|
    decreases |ts|, 8
  {
    match ParsePrimary(ts)
    case Thrown(e) => Thrown(e)
    case Parsed(e, rest, errors) => Later(errors, CallLoop(e, rest))
  }

  function CallLoop(e: Expr, ts: seq<Token>): (r: Parse<Expr>)
    ensures r.Parsed? ==> |r.rest| <= |ts|
    decreases |ts|, 0
  {
    match Head(ts).kind
    case LParen =>
      (match ParseArgs(ts[1..], RParen)
       case Thrown(e) => Thrown(e)
       case Parsed(args, rest, errors) => Later(errors, CallLoop(Call(e, args), rest)))
    case LBracket =>
      (match ParseEnclosed(ts[1..], RBracket)
       case Thrown(e) => Thrown(e)
       case Parsed(index, rest, errors) => Later(errors, CallLoop(Index(e, index), rest)))
    case Dot =>
      (match Consume(ts[1..], Identifier)
       case Thrown(e) => Thrown(e)
       case Parsed(name, rest, _) => CallLoop(Member(e, name.lexeme), rest))
    case _ => Parsed(e, ts, [])
  }

  /** An expression and a closing token. */
  function ParseEnclosed(ts: seq<Token>, close: Kind): (r: Parse<Expr>)
    requires !close.Eof?
    ensures r.Parsed? ==> |r.rest| < |ts|
    decreases |ts|, 21
  {
    match ParseExpr(ts)
    case Thrown(e) => Thrown(e)
    case Parsed(e, rest, errors) =>
      match Consume(rest, close)
      case Thrown(more) => Thrown(errors + more)
      case Parsed(_, after, _) => Parsed(e, after, errors)
  }

  /** Expressions separated by commas, perhaps none, and a closing token. */
  function ParseArgs(ts: seq<Token>, close: Kind): (r: Parse<seq<Expr>>)
    requires !close.Eof?
    ensures r.Parsed? ==> |r.rest| < |ts|
    decreases |ts|, 22
  {
    if Head(ts).kind == close then Parsed([], ts[1..], [])
    else
      match ParseItems(ts)
      case Thrown(e) => Thrown(e)
      case Parsed(items, rest, errors) =>
        match Consume(rest, close)
        case Thrown(more) => Thrown(errors + more)
        case Parsed(_, after, _) => Parsed(items, after, errors)
  }

  function ParseItems(ts: seq<Token>): (r: Parse<seq<Expr>>)
    ensures r.Parsed? ==> |r.rest| < |ts|
    decreases |ts|, 21
  {
    match ParseExpr(ts)
    case Thrown(e) => Thrown(e)
    case Parsed(e, rest, errors) =>
      if !Head(rest).kind.Comma? then Parsed([e], rest, errors)
      else
        match ParseItems(rest[1..])
        case Thrown(more) => Thrown(errors + more)
        case Parsed(es, after, more) => Parsed([e] + es, after, errors + more)
  }

  /** The literal a token stands for; None for an integer out of range. */
  function LiteralOf(t: Token): Option<Literal>
    requires t.kind in {Integer, Float, TrueKw, FalseKw, NullKw, String}
  {
    match t.kind
    case Integer => (match IntegerValue(t.lexeme) case Some(v) => Some(IntLit(v)) case None => None)
    case Float => Some(FloatLit(t.lexeme))
    case TrueKw => Some(BoolLit(true))
    case FalseKw => Some(BoolLit(false))
    case String => Some(StringLit(DecodeString(t.lexeme)))
    case _ => Some(NullLit)
  }

  function ParsePrimary(ts: seq<Token>): (r: Parse<Expr>)
    ensures r.Parsed? ==> |r.rest| < |ts|
    decreases |ts|, 7
  {
    var k := Head(ts).kind;
    if k in {Integer, Float, TrueKw, FalseKw, NullKw, String} then
      match LiteralOf(ts[0])
      case Some(l) => Parsed(Lit(l), ts[1..], [])
      case None => Thrown([LiteralOutOfRange])
    else if k.Identifier? then Parsed(Name(ts[0].lexeme), ts[1..], [])
    else if k.LBracket? then
      match ParseArgs(ts[1..], RBracket)
      case Thrown(e) => Thrown(e)
      case Parsed(es, rest, errors) => Parsed(Array(es), rest, errors)
    else if k.LParen? then ParseEnclosed(ts[1..], RParen)
    else Thrown([ExpectedExpression])
  }

  // ----- the parser -----

  class Parser {
    const tokens: seq<Token>
    var current: nat
    var errors: seq<ParseError>

    /** The token list ends with an end-of-file token, which the cursor never passes. */
    ghost predicate Valid()
      reads this
    {
      current < |tokens| && tokens[|tokens| - 1].kind.Eof?
    }

    ghost function Rest(): seq<Token>
      reads this
      requires Valid()
    {
      tokens[current..]
    }

    /** The parser did what the grammar says from `before` on; None stands for a thrown error. */
    ghost predicate Did<T>(before: seq<Token>, known: seq<ParseError>, p: Parse<T>, result: Option<T>)
      reads this
    {
      Valid() &&
      match p
      case Parsed(v, rest, more) => result == Some(v) && Rest() == rest && errors == known + more
      case Thrown(more) => result == None && errors == known + more
    }

    constructor (tokens: seq<Token>)
      requires tokens != [] && tokens[|tokens| - 1].kind.Eof?
      ensures Valid() && Rest() == tokens && errors == []
    {
      this.tokens := tokens;
      current, errors := 0, [];
    }

    function Peek(): Token
      reads this
      requires Valid()
      ensures Peek() == Head(Rest())
    {
      tokens[current]
    }

    method Advance() returns (t: Token)
      requires Valid() && !Peek().kind.Eof?
      modifies this`current
      ensures Valid() && t == old(Rest())[0] && Rest() == old(Rest())[1..]
    {
      t := tokens[current];
      current := current + 1;
    }

    method Match(k: Kind) returns (found: bool)
      requires Valid() && !k.Eof?
      modifies this`current
      ensures Valid() && found == (old(Peek()).kind == k)
      ensures if found then Rest() == old(Rest())[1..] else current == old(current)
    {
      found := Peek().kind == k;
      if found { var _ := Advance(); }
    }

    method Expect(k: Kind) returns (t: Option<Token>)
      requires Valid() && !k.Eof?
      modifies this
      ensures Did(old(Rest()), old(errors), Consume(old(Rest()), k), t)
    {
      assert errors + [] == errors;
      if Peek().kind == k {
        var found := Advance();
        return Some(found);
      }
      errors := errors + [Expected(k)];
      return None;
    }

    method ReadType() returns (t: Option<TypeName>)
      requires Valid()
      modifies this
      ensures Did(old(Rest()), old(errors), ParseType(old(Rest())), t)
      decreases |tokens| - current, 1
    {
      hide ParseFixed;
      assert errors + [] == errors;
      ghost var ts := Rest();
      var star := Match(Star);
      if star {
        t := ReadPointer(ts);
        return;
      }
      var bracket := Match(LBracket);
      if bracket {
        t := ReadBracketed(ts);
        return;
      }
      var name := Expect(Identifier);
      return if name.Some? then Some(Base(name.value.lexeme)) else None;
    }

    method ReadPointer(ghost ts: seq<Token>) returns (t: Option<TypeName>)
      requires Valid() && Head(ts).kind.Star? && Rest() == ts[1..]
      modifies this
      ensures Did(ts, old(errors), ParseType(ts), t)
      decreases |tokens| - current, 2
    {
      hide ParseFixed;
      var isVolatile := Match(VolatileKw);
      assert Rest() == if isVolatile then ts[2..] else ts[1..];
      var to := ReadType();
      return if to.Some? then Some(Pointer(isVolatile, to.value)) else None;
    }

    method ReadBracketed(ghost ts: seq<Token>) returns (t: Option<TypeName>)
      requires Valid() && Head(ts).kind.LBracket? && Rest() == ts[1..]
      modifies this
      ensures Did(ts, old(errors), ParseType(ts), t)
      decreases |tokens| - current, 3
    {
      hide ParseFixed;
      var slice := Match(RBracket);
      if slice {
        assert Rest() == ts[2..];
        var of := ReadType();
        return if of.Some? then Some(Slice(of.value)) else None;
      }
      t := ReadFixed(ts);
    }

    /** A fixed array type, behind its opening bracket. */
    method ReadFixed(ghost ts: seq<Token>) returns (t: Option<TypeName>)
      requires Valid() && ts != [] && Rest() == ts[1..]
      modifies this
      ensures Did(ts, old(errors), ParseFixed(ts), t)
      decreases |tokens| - current, 2
    {
      hide ParseType;
      var element := ReadType();
      if element.None? { return None; }
      assert errors == old(errors) + [];
      var semicolon := Expect(Semicolon);
      if semicolon.None? { return None; }
      var count := Expect(Integer);
      if count.None? { return None; }
      var close := Expect(RBracket);
      if close.None? { return None; }
      return Some(Fixed(element.value, count.value.lexeme));
    }

    method Expression() returns (e: Option<Expr>)
      requires Valid()
      modifies this
      ensures Did(old(Rest()), old(errors), ParseExpr(old(Rest())), e)
      decreases |tokens| - current, 20
    {
      hide ParseLevel;
      ghost var ts := Rest();
      e := BinaryLevel(1);
      if e.None? { return; }
      var left := e.value;
      ghost var reported := ParseLevel(1, ts).errors;
      var equal := Match(Equal);
      if equal {
        var value := Expression();
        if value.None? {
          assert errors == old(errors) + (reported + ParseExpr(ParseLevel(1, ts).rest[1..]).errors);
          return None;
        }
        ghost var more := ParseExpr(ParseLevel(1, ts).rest[1..]).errors;
        assert errors == old(errors) + (reported + more);
        var valid := left.Name? || left.Index? || left.Member?;
        if left.Unary? { valid := left.op == Star; }
        if !valid {
          errors := errors + [InvalidTarget];
          assert errors == old(errors) + (reported + more + [InvalidTarget]);
          return Some(left);
        }
        return Some(Binary(left, Equal, value.value));
      }
    }

    /** The six binary levels, from `||` to the products, and the unary operators below them. */
    method BinaryLevel(n: nat) returns (e: Option<Expr>)
      requires 1 <= n <= 7 && Valid()
      modifies this
      ensures Did(old(Rest()), old(errors), ParseLevel(n, old(Rest())), e)
      decreases |tokens| - current, 19 - n
    {
      hide ParseUnary;
      ghost var ts := Rest();
      if n == 7 {
        e := UnaryExpression();
        return;
      }
      e := BinaryLevel(n + 1);
      if e.None? { return; }
      ghost var reported := ParseLevel(n + 1, ts).errors;
      while OfLevel(n, Peek().kind)
        invariant Valid() && e.Some? && old(current) < current && errors == old(errors) + reported
        invariant ParseLevel(n, ts) == Later(reported, LevelLoop(n, e.value, Rest()))
        decreases |tokens| - current
      {
        ghost var before, left := Rest(), e.value;
        var op := Advance();
        var right := BinaryLevel(n + 1);
        ghost var r := ParseLevel(n + 1, before[1..]);
        LoopOnce(n, left, before, reported);
        assert errors == old(errors) + (reported + r.errors);
        if right.None? { return None; }
        e := Some(Binary(e.value, op.kind, right.value));
        reported := reported + r.errors;
      }
      assert reported + [] == reported;
    }

    method UnaryExpression() returns (e: Option<Expr>)
      requires Valid()
      modifies this
      ensures Did(old(Rest()), old(errors), ParseUnary(old(Rest())), e)
      decreases |tokens| - current, 10
    {
      hide ParseCast;
      if IsPrefixOp(Peek().kind) {
        var op := Advance();
        e := UnaryExpression();
        if e.Some? { e := Some(Unary(op.kind, e.value)); }
      } else {
        e := CastExpression();
      }
    }

    method CastExpression() returns (e: Option<Expr>)
      requires Valid()
      modifies this
      ensures Did(old(Rest()), old(errors), ParseCast(old(Rest())), e)
      decreases |tokens| - current, 9
    {
      hide ParseCall, ParseType;
      ghost var ts := Rest();
      e := CallExpression();
      if e.None? { return; }
      ghost var reported := ParseCall(ts).errors;
      var more := Match(AsKw);
      ghost var before := ParseCall(ts).rest;
      while more
        invariant Valid() && e.Some? && old(current) < current && errors == old(errors) + reported
        invariant ParseCast(ts) == Later(reported, CastLoop(e.value, before))
        invariant more == Head(before).kind.AsKw? && Rest() == if more then before[1..] else before
        decreases |tokens| - current
      {
        var t := ReadType();
        CastOnce(e.value, before, reported);
        if t.None? {
          assert errors == old(errors) + (reported + ParseType(before[1..]).errors);
          return None;
        }
        e := Some(Cast(e.value, t.value));
        before := Rest();
        assert errors + [] == errors && reported + [] == reported;
        more := Match(AsKw);
      }
      assert reported + [] == reported;
    }

    method CallExpression() returns (e: Option<Expr>)
      requires Valid()
      modifies this
      ensures Did(old(Rest()), old(errors), ParseCall(old(Rest())), e)
      decreases |tokens| - current, 8
    {
      hide ParsePrimary, CallLoop, CallStep;
      ghost var ts := Rest();
      e := Primary();
      if e.None? { return; }
      ghost var reported := ParsePrimary(ts).errors;
      while Peek().kind in {LParen, LBracket, Dot}
        invariant Valid() && e.Some? && old(current) < current && errors == old(errors) + reported
        invariant ParseCall(ts) == Later(reported, CallLoop(e.value, Rest()))
        decreases |tokens| - current
      {
        ghost var before, target := Rest(), e.value;
        e := Postfix(e.value);
        ghost var r := CallStep(target, before);
        CallOnce(target, before, reported);
        assert errors == old(errors) + (reported + r.errors);
        if e.None? { return None; }
        reported := reported + r.errors;
      }
      CallEnds(e.value, Rest());
      assert reported + [] == reported;
    }

    /** One argument list, index or member name. */
    method Postfix(e: Expr) returns (r: Option<Expr>)
      requires Valid() && Peek().kind in {LParen, LBracket, Dot}
      modifies this
      ensures Did(old(Rest()), old(errors), CallStep(e, old(Rest())), r)
      decreases |tokens| - current, 6
    {
      hide ParseArgs, ParseEnclosed;
      var op := Advance();
      if op.kind.LParen? {
        var args := Arguments(RParen);
        return if args.Some? then Some(Call(e, args.value)) else None;
      } else if op.kind.LBracket? {
        var index := Enclosed(RBracket);
        return if index.Some? then Some(Index(e, index.value)) else None;
      } else {
        var name := Expect(Identifier);
        return if name.Some? then Some(Member(e, name.value.lexeme)) else None;
      }
    }

    method Enclosed(close: Kind) returns (e: Option<Expr>)
      requires Valid() && !close.Eof?
      modifies this
      ensures Did(old(Rest()), old(errors), ParseEnclosed(old(Rest()), close), e)
      decreases |tokens| - current, 21
    {
      hide ParseExpr;
      ghost var ts := Rest();
      e := Expression();
      if e.None? { return; }
      ghost var r := ParseExpr(ts);
      var t := Expect(close);
      if t.None? {
        assert errors == old(errors) + (r.errors + Consume(r.rest, close).errors);
        return None;
      }
    }

    /** Expressions separated by commas, up to the closing token. */
    method Arguments(close: Kind) returns (es: Option<seq<Expr>>)
      requires Valid() && !close.Eof?
      modifies this
      ensures Did(old(Rest()), old(errors), ParseArgs(old(Rest()), close), es)
      decreases |tokens| - current, 23
    {
      hide ParseItems;
      ghost var ts := Rest();
      assert errors + [] == errors;
      var empty := Match(close);
      if empty { return Some([]); }
      es := Items();
      if es.None? { return; }
      ghost var r := ParseItems(ts);
      var t := Expect(close);
      if t.None? {
        assert errors == old(errors) + (r.errors + Consume(r.rest, close).errors);
        return None;
      }
    }

    method Items() returns (es: Option<seq<Expr>>)
      requires Valid()
      modifies this
      ensures Did(old(Rest()), old(errors), ParseItems(old(Rest())), es)
      decreases |tokens| - current, 22
    {
      hide ParseExpr, ParseItems;
      ghost var ts := Rest();
      ghost var before, reported: seq<ParseError> := ts, [];
      var items: seq<Expr> := [];
      assert errors + [] == errors;
      NoItemsYet(ParseItems(ts));
      while true
        invariant Valid() && old(current) <= current && errors == old(errors) + reported && Rest() == before
        invariant ParseItems(ts) == ItemsAfter(items, reported, ParseItems(before))
        decreases |tokens| - current
      {
        var e := Expression();
        ghost var r := ParseExpr(before);
        assert errors == old(errors) + (reported + r.errors);
        ItemsOnce(items, reported, before);
        if e.None? { return None; }
        items := items + [e.value];
        reported := reported + r.errors;
        var comma := Match(Comma);
        if !comma { return Some(items); }
        before := Rest();
      }
    }

    method Primary() returns (e: Option<Expr>)
      requires Valid()
      modifies this
      ensures Did(old(Rest()), old(errors), ParsePrimary(old(Rest())), e)
      decreases |tokens| - current, 7
    {
      hide ParseArgs, ParseEnclosed, LiteralOf;
      assert errors + [] == errors;
      var k := Peek().kind;
      if k in {Integer, Float, TrueKw, FalseKw, NullKw, String} {
        var t := Advance();
        var l := LiteralOf(t);
        if l.Some? { return Some(Lit(l.value)); }
        errors := errors + [LiteralOutOfRange];
        return None;
      } else if k.Identifier? {
        var t := Advance();
        return Some(Name(t.lexeme));
      } else if k.LBracket? {
        var t := Advance();
        var es := Arguments(RBracket);
        return if es.Some? then Some(Array(es.value)) else None;
      } else if k.LParen? {
        var t := Advance();
        e := Enclosed(RParen);
      } else {
        errors := errors + [ExpectedExpression];
        return None;
      }
    }
  }

  // ----- one turn of each loop -----

  lemma LoopOnce(n: nat, e: Expr, ts: seq<Token>, reported: seq<ParseError>)
    requires 1 <= n < 7 && OfLevel(n, Head(ts).kind)
    ensures var r := ParseLevel(n + 1, ts[1..]);
            && (r.Thrown? ==> Later(reported, LevelLoop(n, e, ts)) == Thrown(reported + r.errors))
            && (r.Parsed? ==> Later(reported, LevelLoop(n, e, ts)) ==
                              Later(reported + r.errors, LevelLoop(n, Binary(e, ts[0].kind, r.value), r.rest)))
  {
    var r := ParseLevel(n + 1, ts[1..]);
    if r.Parsed? { LaterTwice(reported, r.errors, LevelLoop(n, Binary(e, ts[0].kind, r.value), r.rest)); }
  }

  lemma LaterTwice<T>(a: seq<ParseError>, b: seq<ParseError>, p: Parse<T>)
    ensures Later(a, Later(b, p)) == Later(a + b, p)
  {
    match p
    case Parsed(_, _, c) => assert a + (b + c) == a + b + c;
    case Thrown(c) => assert a + (b + c) == a + b + c;
  }

  lemma CastOnce(e: Expr, ts: seq<Token>, reported: seq<ParseError>)
    requires Head(ts).kind.AsKw?
    ensures var r := ParseType(ts[1..]);
            && (r.Thrown? ==> Later(reported, CastLoop(e, ts)) == Thrown(reported + r.errors))
            && (r.Parsed? ==> Later(reported, CastLoop(e, ts)) == Later(reported, CastLoop(Cast(e, r.value), r.rest)))
  {
  }

  /** One argument list, index or member name behind an expression. */
  function CallStep(e: Expr, ts: seq<Token>): (r: Parse<Expr>)
    requires Head(ts).kind in {LParen, LBracket, Dot}
    ensures r.Parsed? ==> |r.rest| < |ts|
  {
    if Head(ts).kind.LParen? then
      match ParseArgs(ts[1..], RParen)
      case Thrown(e) => Thrown(e)
      case Parsed(args, rest, errors) => Parsed(Call(e, args), rest, errors)
    else if Head(ts).kind.LBracket? then
      match ParseEnclosed(ts[1..], RBracket)
      case Thrown(e) => Thrown(e)
      case Parsed(index, rest, errors) => Parsed(Index(e, index), rest, errors)
    else
      match Consume(ts[1..], Identifier)
      case Thrown(e) => Thrown(e)
      case Parsed(name, rest, errors) => Parsed(Member(e, name.lexeme), rest, errors)
  }

  lemma CallOnce(e: Expr, ts: seq<Token>, reported: seq<ParseError>)
    requires Head(ts).kind in {LParen, LBracket, Dot}
    ensures var r := CallStep(e, ts);
            && (r.Thrown? ==> Later(reported, CallLoop(e, ts)) == Thrown(reported + r.errors))
            && (r.Parsed? ==> Later(reported, CallLoop(e, ts)) == Later(reported + r.errors, CallLoop(r.value, r.rest)))
  {
    CallLoopStep(e, ts);
    hide CallStep, CallLoop;
    var r := CallStep(e, ts);
    if r.Parsed? { LaterTwice(reported, r.errors, CallLoop(r.value, r.rest)); }
  }

  lemma CallLoopStep(e: Expr, ts: seq<Token>)
    requires Head(ts).kind in {LParen, LBracket, Dot}
    ensures var r := CallStep(e, ts);
            && (r.Thrown? ==> CallLoop(e, ts) == Thrown(r.errors))
            && (r.Parsed? ==> CallLoop(e, ts) == Later(r.errors, CallLoop(r.value, r.rest)))
  {
    hide ParseArgs, ParseEnclosed;
    var r := CallStep(e, ts);
    if Head(ts).kind.Dot? && r.Parsed? { LaterNone(CallLoop(r.value, r.rest)); }
  }

  lemma LaterNone(p: Parse<Expr>)
    ensures Later([], p) == p
  {
    match p
    case Parsed(_, _, c) => assert [] + c == c;
    case Thrown(c) => assert [] + c == c;
  }

  lemma CallEnds(e: Expr, ts: seq<Token>)
    requires Head(ts).kind !in {LParen, LBracket, Dot}
    ensures CallLoop(e, ts) == Parsed(e, ts, [])
  {
  }

  /** The rest of a list, behind items already parsed. */
  function ItemsAfter(items: seq<Expr>, reported: seq<ParseError>, p: Parse<seq<Expr>>): Parse<seq<Expr>> {
    match p
    case Parsed(es, rest, more) => Parsed(items + es, rest, reported + more)
    case Thrown(more) => Thrown(reported + more)
  }

  lemma NoItemsYet(p: Parse<seq<Expr>>)
    ensures ItemsAfter([], [], p) == p
  {
    match p
    case Parsed(es, _, more) => assert [] + es == es && [] + more == more;
    case Thrown(more) => assert [] + more == more;
  }

  lemma ItemsOnce(items: seq<Expr>, reported: seq<ParseError>, ts: seq<Token>)
    ensures var r := ParseExpr(ts);
            && (r.Thrown? ==> ItemsAfter(items, reported, ParseItems(ts)) == Thrown(reported + r.errors))
            && (r.Parsed? && Head(r.rest).kind.Comma? ==>
                  ItemsAfter(items, reported, ParseItems(ts)) ==
                  ItemsAfter(items + [r.value], reported + r.errors, ParseItems(r.rest[1..])))
            && (r.Parsed? && !Head(r.rest).kind.Comma? ==>
                  ItemsAfter(items, reported, ParseItems(ts)) == Parsed(items + [r.value], r.rest, reported + r.errors))
  {
    hide ParseExpr;
    var r := ParseExpr(ts);
    if r.Parsed? && Head(r.rest).kind.Comma? {
      match ParseItems(r.rest[1..])
      case Parsed(es, _, more) =>
        assert items + ([r.value] + es) == items + [r.value] + es;
        assert reported + (r.errors + more) == reported + r.errors + more;
      case Thrown(more) => assert reported + (r.errors + more) == reported + r.errors + more;
    }
  }
}
