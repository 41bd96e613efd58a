/**
 What the expression parser makes of operators, said by a table of ranks alone; and what the digits of a number denote.
 */
module ExpressionForms {
  import opened Basics
  import opened Int64
  import opened Lexer
  import opened LexerFacts
  import opened Expressions
  import opened ExpressionGrammar
  import opened ExpressionPrinting

  // ----- operators -----

  /** How strongly a binary operator binds, from `||` to the products. */
  function Rank(k: Kind): Option<nat> {
    match k
    case OrOr => Some(1)
    case AndAnd => Some(2)
    case EqualEqual => Some(3) case BangEqual => Some(3)
    case Less => Some(4) case LessEqual => Some(4) case Greater => Some(4) case GreaterEqual => Some(4)
    case Plus => Some(5) case Minus => Some(5)
    case Star => Some(6) case Slash => Some(6) case Percent => Some(6)
    case _ => None
  }

  /** `!`, `-`, `+`, `*`, `&` and `try` stand in front of their operand. */
  predicate StandsInFront(k: Kind) {
    k.Bang? || k.Minus? || k.Plus? || k.Star? || k.Ampersand? || k.TryKw?
  }

  /** What may stand behind an operand without being a binary operator: an assignment, a cast, a call, an index, a member. */
  predicate GoesOn(k: Kind) {
    k.Equal? || k.AsKw? || k.LParen? || k.LBracket? || k.Dot?
  }

  lemma RanksAre(k: Kind)
    ensures OpLevel(k) == if Rank(k).Some? then Rank(k).value else if k.Equal? then 0 else if k.AsKw? then 8 else if GoesOn(k) then 9 else -1
    ensures IsPrefixOp(k) <==> StandsInFront(k)
  {
  }

  function Id(name: string): Token {
    Token(Identifier, name)
  }

  predicate Named(name: string) {
    Own(Id(name))
  }

  lemma OperandIs(name: string)
    requires Named(name)
    ensures Legal(Name(name)) && LevelOf(Name(name)) == 10 && forall n :: 0 <= n <= 10 ==> Print(Name(name), n) == [Id(name)]
  {
  }

  /** A binary expression is printed bare where its rank is wanted or less. */
  lemma PrintBinary(l: Expr, k: Kind, r: Expr, n: nat)
    requires Rank(k).Some? && n <= Rank(k).value
    ensures Print(Binary(l, k, r), n) == Print(l, Rank(k).value) + ([OpToken(k)] + Print(r, Rank(k).value + 1))
  {
    RanksAre(k);
    hide OpToken;
  }

  lemma PrintPair(a: string, k: Kind, b: string, n: nat)
    requires Named(a) && Named(b) && Rank(k).Some? && n <= Rank(k).value
    ensures Print(Binary(Name(a), k, Name(b)), n) == [Id(a), OpToken(k), Id(b)]
  {
    RankIsSmall(k);
    OperandIs(a);
    OperandIs(b);
    PrintBinary(Name(a), k, Name(b), n);
    hide Print, OpToken, Rank;
  }

  lemma RankIsSmall(k: Kind)
    requires Rank(k).Some?
    ensures 1 <= Rank(k).value <= 6
  {
  }

  /** `a k b l c`, as the ranks of the operators say. */
  function Grouped(a: string, k: Kind, b: string, l: Kind, c: string): Expr
    requires Rank(k).Some? && Rank(l).Some?
  {
    if Rank(k).value >= Rank(l).value then Binary(Binary(Name(a), k, Name(b)), l, Name(c))
    else Binary(Name(a), k, Binary(Name(b), l, Name(c)))
  }

  /** Two operators in a row: the first one's operands are taken together unless the second one binds more strongly. */
  lemma RankDecides(a: string, k: Kind, b: string, l: Kind, c: string, rest: seq<Token>)
    requires Named(a) && Named(b) && Named(c) && Rank(k).Some? && Rank(l).Some?
    requires var next := Head(rest).kind; Rank(next).None? && !GoesOn(next)
    ensures ParseExpr([Id(a), OpToken(k), Id(b), OpToken(l), Id(c)] + rest) == Parsed(Grouped(a, k, b, l, c), rest, [])
  {
    RanksAre(Head(rest).kind);
    assert Stops(0, rest);
    GroupedIsLegal(a, k, b, l, c);
    if Rank(k).value >= Rank(l).value { PrintLeft(a, k, b, l, c); } else { PrintRight(a, k, b, l, c); }
    hide Print, ParseExpr, Named, OpToken, Grouped, Legal, Rank, GoesOn, Stops;
    RoundTrip(0, Grouped(a, k, b, l, c), rest);
  }

  lemma GroupedIsLegal(a: string, k: Kind, b: string, l: Kind, c: string)
    requires Named(a) && Named(b) && Named(c) && Rank(k).Some? && Rank(l).Some?
    ensures Legal(Grouped(a, k, b, l, c))
  {
    OperandIs(a);
    OperandIs(b);
    OperandIs(c);
    RanksAre(k);
    RanksAre(l);
    RankIsSmall(k);
    RankIsSmall(l);
    hide Rank, OpLevel, Named, Legal;
    LegalPair(Name(a), k, Name(b));
    LegalPair(Name(b), l, Name(c));
    LegalPair(Binary(Name(a), k, Name(b)), l, Name(c));
    LegalPair(Name(a), k, Binary(Name(b), l, Name(c)));
  }

  lemma LegalPair(l: Expr, k: Kind, r: Expr)
    requires 1 <= OpLevel(k) <= 6
    ensures Legal(l) && Legal(r) ==> Legal(Binary(l, k, r))
  {
  }

  lemma PrintLeft(a: string, k: Kind, b: string, l: Kind, c: string)
    requires Named(a) && Named(b) && Named(c) && Rank(k).Some? && Rank(l).Some? && Rank(k).value >= Rank(l).value
    ensures Print(Grouped(a, k, b, l, c), 0) == [Id(a), OpToken(k), Id(b), OpToken(l), Id(c)]
  {
    OperandIs(c);
    RankIsSmall(l);
    PrintPair(a, k, b, Rank(l).value);
    PrintBinary(Binary(Name(a), k, Name(b)), l, Name(c), 0);
    hide Print, OpToken, Rank, Named, Legal;
  }

  lemma PrintRight(a: string, k: Kind, b: string, l: Kind, c: string)
    requires Named(a) && Named(b) && Named(c) && Rank(k).Some? && Rank(l).Some? && Rank(k).value < Rank(l).value
    ensures Print(Grouped(a, k, b, l, c), 0) == [Id(a), OpToken(k), Id(b), OpToken(l), Id(c)]
  {
    OperandIs(a);
    RankIsSmall(k);
    PrintPair(b, l, c, Rank(k).value + 1);
    PrintBinary(Name(a), k, Binary(Name(b), l, Name(c)), 0);
    hide Print, OpToken, Rank, Named, Legal;
  }

  /** Assignments associate to the right. */
  lemma AssignsToTheRight(a: string, b: string, c: string, rest: seq<Token>)
    requires Named(a) && Named(b) && Named(c)
    requires var next := Head(rest).kind; Rank(next).None? && !GoesOn(next)
    ensures ParseExpr([Id(a), Sign(Equal), Id(b), Sign(Equal), Id(c)] + rest) ==
            Parsed(Binary(Name(a), Equal, Binary(Name(b), Equal, Name(c))), rest, [])
  {
    OperandIs(a);
    OperandIs(b);
    OperandIs(c);
    RanksAre(Head(rest).kind);
    var inner := Binary(Name(b), Equal, Name(c));
    var e := Binary(Name(a), Equal, inner);
    PrintAssign(Name(b), Name(c));
    PrintAssign(Name(a), inner);
    assert Legal(inner);
    assert Legal(e);
    hide Print, ParseExpr, Named, Sign, Legal, Rank, OpLevel;
    assert Print(e, 0) == [Id(a), Sign(Equal), Id(b), Sign(Equal), Id(c)];
    RoundTrip(0, e, rest);
  }

  lemma PrintAssign(l: Expr, r: Expr)
    ensures Print(Binary(l, Equal, r), 0) == Print(l, 1) + ([Sign(Equal)] + Print(r, 0))
  {
  }

  /** An operator in front binds its operand before any operator behind it. */
  lemma FrontBindsFirst(p: Kind, a: string, k: Kind, b: string, rest: seq<Token>)
    requires Named(a) && Named(b) && StandsInFront(p) && Rank(k).Some?
    requires var next := Head(rest).kind; Rank(next).None? && !GoesOn(next)
    ensures ParseExpr([OpToken(p), Id(a), OpToken(k), Id(b)] + rest) ==
            Parsed(Binary(Expr.Unary(p, Name(a)), k, Name(b)), rest, [])
  {
    OperandIs(a);
    OperandIs(b);
    RanksAre(p);
    RanksAre(k);
    RanksAre(Head(rest).kind);
    var front := Expr.Unary(p, Name(a));
    var e := Binary(front, k, Name(b));
    RankIsSmall(k);
    PrintFront(p, a, Rank(k).value);
    PrintBinary(front, k, Name(b), 0);
    assert Legal(e);
    hide Print, ParseExpr, Named, OpToken, Rank, Legal;
    assert Print(e, 0) == [OpToken(p), Id(a), OpToken(k), Id(b)];
    RoundTrip(0, e, rest);
  }

  lemma PrintFront(p: Kind, a: string, n: nat)
    requires Named(a) && n <= 6
    ensures Print(Expr.Unary(p, Name(a)), n) == [OpToken(p), Id(a)]
  {
    OperandIs(a);
    var e := Expr.Unary(p, Name(a));
    assert Bare(e) == [OpToken(p)] + Print(Name(a), 7);
    assert Print(e, n) == Bare(e);
  }

  /** Anything that is no operator ends the expression. */
  lemma OthersEndIt(a: string, rest: seq<Token>)
    requires Named(a) && var next := Head(rest).kind; Rank(next).None? && !GoesOn(next)
    ensures ParseExpr([Id(a)] + rest) == Parsed(Name(a), rest, [])
  {
    OperandIs(a);
    RanksAre(Head(rest).kind);
    hide Print, ParseExpr, Named;
    RoundTrip(0, Name(a), rest);
  }

  /** A token that does not stand in front is not taken for an operator there. */
  lemma OnlyTheseInFront(ts: seq<Token>)
    ensures ParseUnary(ts) == if StandsInFront(Head(ts).kind) then
                                match ParseUnary(ts[1..])
                                case Thrown(e) => Thrown(e)
                                case Parsed(e, rest, errors) => Parsed(Expr.Unary(ts[0].kind, e), rest, errors)
                              else ParseCast(ts)
  {
  }

  // ----- errors -----

  /** An assignment to anything but a name, an index, a member or a pointer's target is reported, and its left side is kept. */
  lemma BadTargetIsReported(l: Expr, r: Expr, rest: seq<Token>)
    requires Legal(l) && Legal(r) && Stops(0, rest)
    requires !(l.Name? || l.Index? || l.Member? || (l.Unary? && l.op.Star?))
    ensures ParseExpr(Print(l, 1) + ([Sign(Equal)] + (Print(r, 0) + rest))) == Parsed(l, rest, [InvalidTarget])
  {
    hide Print, Legal, Yields, Stops;
    var more := [Sign(Equal)] + (Print(r, 0) + rest);
    assert Stops(1, more) by { StopsAt(1, more); }
    RoundTrip(1, l, more);
    RoundTrip(0, r, rest);
    ReportedTarget(Print(l, 1) + more, l, r, more, rest);
  }

  lemma ReportedTarget(ts: seq<Token>, l: Expr, r: Expr, more: seq<Token>, rest: seq<Token>)
    requires !ValidTarget(l) && Head(more).kind.Equal? && Yields(1, ts, l, more) && Yields(0, more[1..], r, rest)
    ensures ParseExpr(ts) == Parsed(l, rest, [InvalidTarget])
  {
    hide ParseLevel, ValidTarget;
    assert LevelLoop(1, l, more) == Parsed(l, more, []);
    assert [] + [] + [InvalidTarget] == [InvalidTarget];
  }

  /** A parenthesis that is not closed is reported, and reading ends. */
  lemma UnclosedIsReported(e: Expr, rest: seq<Token>)
    requires Legal(e) && Stops(0, rest) && !Head(rest).kind.RParen?
    ensures ParsePrimary([Sign(LParen)] + (Print(e, 0) + rest)) == Thrown([Expected(RParen)])
  {
    hide Print, Legal, Stops, ParseExpr;
    RoundTrip(0, e, rest);
    var ts := [Sign(LParen)] + (Print(e, 0) + rest);
    assert ts[1..] == Print(e, 0) + rest;
    assert [] + [Expected(RParen)] == [Expected(RParen)];
  }

  /** Where no expression begins, that is reported; and a literal that does not fit, too. */
  lemma NothingBegins(ts: seq<Token>)
    ensures Head(ts).kind !in {Integer, Float, String, TrueKw, FalseKw, NullKw, Identifier, LParen, LBracket} ==>
            ParsePrimary(ts) == Thrown([ExpectedExpression])
    ensures Head(ts).kind.Integer? && IntegerValue(Head(ts).lexeme).None? ==> ParsePrimary(ts) == Thrown([LiteralOutOfRange])
  {
    hide IntegerValue, ParseEnclosed, ParseArgs;
  }

  // ----- numbers -----

  /** The value of a digit, of either case. */
  function DigitValue(c: char): Option<nat> {
    match c
    case '0' => Some(0) case '1' => Some(1) case '2' => Some(2) case '3' => Some(3) case '4' => Some(4)
    case '5' => Some(5) case '6' => Some(6) case '7' => Some(7) case '8' => Some(8) case '9' => Some(9)
    case 'a' => Some(10) case 'b' => Some(11) case 'c' => Some(12) case 'd' => Some(13) case 'e' => Some(14) case 'f' => Some(15)
    case 'A' => Some(10) case 'B' => Some(11) case 'C' => Some(12) case 'D' => Some(13) case 'E' => Some(14) case 'F' => Some(15)
    case _ => None
  }

  predicate DigitsBelow(s: string, base: nat) {
    forall k :: 0 <= k < |s| ==> DigitValue(s[k]).Some? && DigitValue(s[k]).value < base
  }

  /** The number that digits denote: the last one counts once, each one before it `base` times as much. */
  function Place(s: string, base: nat): nat
    requires DigitsBelow(s, base)
  {
    if s == "" then 0 else Place(s[..|s| - 1], base) * base + DigitValue(s[|s| - 1]).value
  }

  lemma DigitIs(c: char)
    ensures DigitOf(c) == if DigitValue(c).Some? then DigitValue(c).value else 36
  {
  }

  lemma {:induction false} DigitsLast(s: string, c: char, base: nat, value: nat)
    requires DigitsBelow(s, base) && base <= 36
    ensures Expressions.Digits(s + [c], base, value) ==
      if DigitOf(c) < base then Expressions.Digits(s, base, value) * base + DigitOf(c) else Expressions.Digits(s, base, value)
    decreases |s|
  {
    if s == "" {
      assert "" + [c] == [c] && [c][1..] == "";
      OneDigit(c, base, value);
    } else {
      DigitIs(s[0]);
      hide DigitOf, DigitValue;
      assert (s + [c])[1..] == s[1..] + [c] && (s + [c])[0] == s[0];
      DigitsLast(s[1..], c, base, value * base + DigitOf(s[0]));
    }
  }

  lemma OneDigit(c: char, base: nat, value: nat)
    ensures Expressions.Digits([c], base, value) == if DigitOf(c) < base then value * base + DigitOf(c) else value
    ensures Expressions.Digits("", base, value) == value
  {
    hide DigitOf;
    assert [c][1..] == "";
    if DigitOf(c) < base { assert Expressions.Digits("", base, value * base + DigitOf(c)) == value * base + DigitOf(c); }
  }

  lemma {:induction false} DigitsPlace(s: string, base: nat)
    requires DigitsBelow(s, base) && base <= 36
    ensures Expressions.Digits(s, base, 0) == Place(s, base)
    decreases |s|
  {
    hide DigitOf, DigitValue;
    if s == "" {
      OneDigit('0', base, 0);
    } else {
      var n := |s| - 1;
      var t, c := s[..n], s[n];
      DigitsPlace(t, base);
      DigitIs(c);
      DigitsLast(t, c, base, 0);
      assert Place(s, base) == Place(t, base) * base + DigitOf(c);
      hide Expressions.Digits, Place, DigitsBelow;
      assert s == t + [c];
    }
  }

  /** Integer literals: hexadecimal behind 0x, octal behind another leading zero, decimal otherwise; taken modulo 2^64. */
  lemma LiteralsByPlace(s: string)
    ensures |s| > 1 && s[0] == '0' && s[1] in {'x', 'X'} && DigitsBelow(s[2..], 16) ==> Unsigned(s) == Place(s[2..], 16)
    ensures s != "" && s[0] == '0' && DigitsBelow(s, 8) ==> Unsigned(s) == Place(s, 8)
    ensures s != "" && s[0] != '0' && DigitsBelow(s, 10) ==> Unsigned(s) == Place(s, 10)
    ensures Unsigned(s) >= TWO64 ==> IntegerValue(s) == None
    ensures Unsigned(s) < TWO64 ==> IntegerValue(s).Some? && Congruent(IntegerValue(s).value, Unsigned(s))
  {
    assert DigitValue('x').None? && DigitValue('X').None?;
    hide DigitValue, DigitOf, Place, DigitsBelow, Expressions.Digits;
    if |s| > 1 && DigitsBelow(s[2..], 16) { DigitsPlace(s[2..], 16); }
    if DigitsBelow(s, 8) { DigitsPlace(s, 8); NoHex(s, 8); }
    if DigitsBelow(s, 10) { DigitsPlace(s, 10); }
  }

  lemma NoHex(s: string, base: nat)
    requires DigitsBelow(s, base)
    ensures !IsHex(s)
  {
  }
}
