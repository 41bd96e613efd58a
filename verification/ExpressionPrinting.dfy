/**
 Printing expressions with parentheses only where the levels of precedence need them, and reading them back.

 Every expression tree with legal names, operators and assignment targets is what the parser makes of its printed
 form, as tokens and as text.
 */
module ExpressionPrinting {
  import opened Basics
  import opened Int64
  import opened Lexer
  import opened LexerFacts
  import opened Expressions
  import opened ExpressionGrammar
  import D = Decimal
  import M = FormatterMeaning

  // ----- printing -----

  function Sign(k: Kind): Token
    requires IsPunctuation(k)
  {
    Token(k, Spelling(k))
  }

  function OpToken(k: Kind): Token {
    if IsPunctuation(k) then Sign(k) else Token(k, "try")
  }

  /** Quotes, backslashes and null characters are escaped; everything else stands for itself. */
  function Encode(text: string): string {
    if text == "" then "\""
    else
      (match text[0]
       case '"' => "\\\""
       case '\\' => "\\\\"
       case '\0' => "\\0"
       case c => [c])
      + Encode(text[1..])
  }

  function LiteralToken(l: Literal): Token {
    match l
    case NullLit => Token(NullKw, "null")
    case IntLit(v) => Token(Integer, D.Text(ToUnsigned(v)))
    case FloatLit(digits) => Token(Float, digits)
    case BoolLit(b) => if b then Token(TrueKw, "true") else Token(FalseKw, "false")
    case StringLit(s) => Token(String, "\"" + Encode(s))
  }

  function PrintType(t: TypeName): seq<Token> {
    match t
    case Pointer(v, u) => [Sign(Star)] + (if v then [Token(VolatileKw, "volatile")] else []) + PrintType(u)
    case Slice(u) => [Sign(LBracket), Sign(RBracket)] + PrintType(u)
    case Fixed(u, n) => [Sign(LBracket)] + PrintType(u) + [Sign(Semicolon), Token(Integer, n), Sign(RBracket)]
    case Base(n) => [Token(Identifier, n)]
  }

  /** The tokens of an expression where level `n` or higher is expected. */
  function Print(e: Expr, n: nat): seq<Token>
    decreases e, 1
  {
    if LevelOf(e) < n then [Sign(LParen)] + (Bare(e) + [Sign(RParen)]) else Bare(e)
  }

  function Bare(e: Expr): seq<Token>
    decreases e, 0
  {
    match e
    case Lit(l) => [LiteralToken(l)]
    case Name(x) => [Token(Identifier, x)]
    case Unary(op, a) => [OpToken(op)] + Print(a, 7)
    case Binary(l, op, r) =>
      if op.Equal? then Print(l, 1) + ([Sign(Equal)] + Print(r, 0))
      else Print(l, LevelOf(e)) + ([OpToken(op)] + Print(r, LevelOf(e) + 1))
    case Call(f, args) => Print(f, 9) + ([Sign(LParen)] + (PrintItems(args) + [Sign(RParen)]))
    case Cast(a, t) => Print(a, 8) + ([Token(AsKw, "as")] + PrintType(t))
    case Index(a, i) => Print(a, 9) + ([Sign(LBracket)] + (Print(i, 0) + [Sign(RBracket)]))
    case Member(a, x) => Print(a, 9) + [Sign(Dot), Token(Identifier, x)]
    case Array(es) => [Sign(LBracket)] + (PrintItems(es) + [Sign(RBracket)])
  }

  function PrintItems(es: seq<Expr>): seq<Token>
    decreases es, 0
  {
    if es == [] then []
    else if |es| == 1 then Print(es[0], 0)
    else Print(es[0], 0) + ([Sign(Comma)] + PrintItems(es[1..]))
  }

  // ----- the trees that can be printed -----

  predicate LegalType(t: TypeName) {
    match t
    case Pointer(_, u) => LegalType(u)
    case Slice(u) => LegalType(u)
    case Fixed(u, n) => LegalType(u) && Own(Token(Integer, n))
    case Base(n) => Own(Token(Identifier, n))
  }

  /** Operators where they belong, assignments to legal targets, and names and numbers the lexer reads as such. */
  predicate Legal(e: Expr) {
    match e
    case Lit(l) => l.FloatLit? ==> Own(Token(Float, l.digits))
    case Name(x) => Own(Token(Identifier, x))
    case Unary(op, a) => IsPrefixOp(op) && Legal(a)
    case Binary(l, op, r) => 0 <= OpLevel(op) <= 6 && (op.Equal? ==> ValidTarget(l)) && Legal(l) && Legal(r)
    case Call(f, args) => Legal(f) && AllLegal(args)
    case Cast(a, t) => Legal(a) && LegalType(t)
    case Index(a, i) => Legal(a) && Legal(i)
    case Member(a, x) => Legal(a) && Own(Token(Identifier, x))
    case Array(es) => AllLegal(es)
  }

  predicate AllLegal(es: seq<Expr>) {
    es == [] || (Legal(es[0]) && AllLegal(es[1..]))
  }

  // ----- literals -----

  lemma {:induction false} DigitsAppend(s: string, c: char, value: nat)
    requires (forall d <- s :: D.IsDigit(d)) && D.IsDigit(c)
    ensures Digits(s + [c], 10, value) == 10 * Digits(s, 10, value) + DigitOf(c)
    decreases |s|
  {
    if s == "" {
      assert s + [c] == [c] && [c][1..] == "";
      assert Digits([c], 10, value) == Digits("", 10, value * 10 + DigitOf(c));
    } else {
      assert (s + [c])[1..] == s[1..] + [c] && (s + [c])[0] == s[0] && D.IsDigit(s[0]);
      DigitsAppend(s[1..], c, value * 10 + DigitOf(s[0]));
      assert Digits(s + [c], 10, value) == Digits(s[1..] + [c], 10, value * 10 + DigitOf(s[0]));
    }
  }

  lemma {:induction false} DigitsOfText(n: nat)
    ensures Digits(D.Text(n), 10, 0) == n
  {
    if n < 10 {
      assert D.Text(n)[1..] == "";
    } else {
      DigitsOfText(n / 10);
      DigitsAppend(D.Text(n / 10), D.Digit(n % 10), 0);
    }
  }

  lemma UnsignedOfText(n: nat)
    ensures Unsigned(D.Text(n)) == n
  {
    var s := D.Text(n);
    if s[0] == '0' {
      assert s == "0" && s[1..] == "";
      assert Digits("0", 8, 0) == Digits("", 8, 0);
    } else {
      DigitsOfText(n);
    }
  }

  lemma IntegerReadsBack(v: i64)
    ensures IntegerValue(D.Text(ToUnsigned(v))) == Some(v)
  {
    UnsignedOfText(ToUnsigned(v));
  }

  /** Decoding from index `i` on gives back the text whose encoding stands there. */
  lemma {:induction false} DecodeEncoded(lexeme: string, i: nat, text: string)
    requires 0 < i <= |lexeme| && lexeme[i..] == Encode(text)
    ensures DecodeFrom(lexeme, i) == text
    decreases |text|
  {
    assert |lexeme| - i == |Encode(text)|;
    EncodedIsLong(text);
    if text != "" {
      var step := if text[0] == '"' || text[0] == '\\' || text[0] == '\0' then 2 else 1;
      assert lexeme[i] == lexeme[i..][0];
      assert lexeme[i..][step..] == lexeme[i + step..];
      assert Encode(text)[step..] == Encode(text[1..]);
      DecodeEncoded(lexeme, i + step, text[1..]);
      EncodedIsLong(text[1..]);
      if step == 2 {
        assert lexeme[i + 1] == lexeme[i..][1];
      }
      assert text == [text[0]] + text[1..];
    }
  }

  lemma EncodedIsLong(text: string)
    ensures |Encode(text)| >= 1 && (text != "" ==> |Encode(text)| >= 2)
  {
  }

  lemma StringReadsBack(text: string)
    ensures DecodeString("\"" + Encode(text)) == text
  {
    var lexeme := "\"" + Encode(text);
    assert lexeme[1..] == Encode(text);
    EncodedIsLong(text);
    DecodeEncoded(lexeme, 1, text);
  }

  lemma LiteralReadsBack(l: Literal)
    ensures LiteralToken(l).kind in {Integer, Float, TrueKw, FalseKw, NullKw, String}
    ensures LiteralOf(LiteralToken(l)) == Some(l)
  {
    match l
    case IntLit(v) => IntegerReadsBack(v);
    case StringLit(s) => StringReadsBack(s);
    case _ =>
  }

  // ----- types -----

  lemma {:induction false} PrintTypeReads(t: TypeName, rest: seq<Token>)
    ensures TypeReads(PrintType(t) + rest, |PrintType(t)|, t)
  {
    hide TypeReads;
    var ts, k := PrintType(t) + rest, |PrintType(t)|;
    match t
    case Pointer(v, u) =>
      PrintTypeReads(u, rest);
      assert ts[if v then 2 else 1..] == PrintType(u) + rest;
      TypePointer(ts, k, v, u);
    case Slice(u) =>
      PrintTypeReads(u, rest);
      assert ts[2..] == PrintType(u) + rest;
      TypeSlice(ts, k, u);
    case Fixed(u, n) =>
      var tail := [Sign(Semicolon), Token(Integer, n), Sign(RBracket)] + rest;
      PrintTypeReads(u, tail);
      assert ts[1..] == PrintType(u) + tail;
      TypeFixed(ts, k, u, n);
    case Base(_) => TypeBase(ts);
  }

  lemma TypeReadsBack(t: TypeName, rest: seq<Token>)
    ensures ParseType(PrintType(t) + rest) == Parsed(t, rest, [])
  {
    PrintTypeReads(t, rest);
    TypeComplete(PrintType(t) + rest, |PrintType(t)|, t);
  }

  // ----- expressions -----

  lemma OperatorToken(op: Kind)
    ensures OpToken(op).kind == op
  {
  }

  /** What is printed is a text of the tree. */
  lemma {:induction false} PrintReads(n: nat, e: Expr, rest: seq<Token>)
    requires Legal(e)
    ensures Reads(n, Print(e, n) + rest, |Print(e, n)|, e)
    decreases e, if LevelOf(e) < n then 3 else 2
  {
    hide Reads, Bare;
    if LevelOf(e) < n {
      var ts, k := Print(e, n) + rest, |Print(e, n)|;
      PrintReads(0, e, [Sign(RParen)] + rest);
      assert ts[1..] == Print(e, 0) + ([Sign(RParen)] + rest);
      assert InBrackets(ts, k, e);
      BracketsRead(n, ts, k, e);
    } else {
      BareReads(e, rest);
      Lower(n, LevelOf(e), Bare(e) + rest, |Bare(e)|, e);
    }
  }

  lemma {:induction false} BareReads(e: Expr, rest: seq<Token>)
    requires Legal(e)
    ensures Reads(LevelOf(e), Bare(e) + rest, |Bare(e)|, e)
    decreases e, 1
  {
    hide Reads, Print, PrintItems, PrintType, LiteralToken, LiteralOf, OpToken, ItemsRead;
    var ts, k := Bare(e) + rest, |Bare(e)|;
    match e
    case Lit(l) =>
      LiteralReadsBack(l);
      PlainReads(10, ts, k, e);
    case Name(_) =>
      PlainReads(10, ts, k, e);
    case Array(es) =>
      PrintItemsRead(es, [Sign(RBracket)] + rest);
      assert ts[1..] == PrintItems(es) + ([Sign(RBracket)] + rest);
      PlainReads(10, ts, k, e);
    case Unary(op, a) =>
      OperatorToken(op);
      PrintReads(7, a, rest);
      assert ts[1..] == Print(a, 7) + rest;
      PlainReads(7, ts, k, e);
    case Binary(l, op, r) => BinaryReads(l, op, r, rest);
    case Cast(a, t) => CastBare(a, t, rest);
    case Call(f, args) => CallBare(f, args, rest);
    case Index(a, i) => IndexBare(a, i, rest);
    case Member(a, x) => MemberBare(a, x, rest);
  }

  lemma {:induction false} CastBare(a: Expr, t: TypeName, rest: seq<Token>)
    requires Legal(Cast(a, t))
    ensures Reads(8, Bare(Cast(a, t)) + rest, |Bare(Cast(a, t))|, Cast(a, t))
    decreases Cast(a, t), 0
  {
    hide Reads, TypeReads, Print, PrintType;
    var ts, m := Bare(Cast(a, t)) + rest, |Print(a, 8)|;
    var more := [Token(AsKw, "as")] + (PrintType(t) + rest);
    PrintReads(8, a, more);
    PrintTypeReads(t, rest);
    assert ts == Print(a, 8) + more;
    Behind(ts, m, Print(a, 8), Token(AsKw, "as"), PrintType(t) + rest);
    CastReads(ts, |Bare(Cast(a, t))|, m, a, t);
  }

  lemma {:induction false} CallBare(f: Expr, args: seq<Expr>, rest: seq<Token>)
    requires Legal(Call(f, args))
    ensures Reads(9, Bare(Call(f, args)) + rest, |Bare(Call(f, args))|, Call(f, args))
    decreases Call(f, args), 0
  {
    hide Reads, ItemsRead, Print, PrintItems;
    var ts, m := Bare(Call(f, args)) + rest, |Print(f, 9)|;
    var inner := PrintItems(args) + ([Sign(RParen)] + rest);
    PrintReads(9, f, [Sign(LParen)] + inner);
    PrintItemsRead(args, [Sign(RParen)] + rest);
    assert ts == Print(f, 9) + ([Sign(LParen)] + inner);
    Behind(ts, m, Print(f, 9), Sign(LParen), inner);
    CallReads(ts, |Bare(Call(f, args))|, m, f, args);
  }

  lemma {:induction false} IndexBare(a: Expr, i: Expr, rest: seq<Token>)
    requires Legal(Index(a, i))
    ensures Reads(9, Bare(Index(a, i)) + rest, |Bare(Index(a, i))|, Index(a, i))
    decreases Index(a, i), 0
  {
    hide Reads, Print;
    var ts, m := Bare(Index(a, i)) + rest, |Print(a, 9)|;
    var inner := Print(i, 0) + ([Sign(RBracket)] + rest);
    PrintReads(9, a, [Sign(LBracket)] + inner);
    PrintReads(0, i, [Sign(RBracket)] + rest);
    assert ts == Print(a, 9) + ([Sign(LBracket)] + inner);
    Behind(ts, m, Print(a, 9), Sign(LBracket), inner);
    IndexReads(ts, |Bare(Index(a, i))|, m, a, i);
  }

  lemma {:induction false} MemberBare(a: Expr, x: string, rest: seq<Token>)
    requires Legal(Member(a, x))
    ensures Reads(9, Bare(Member(a, x)) + rest, |Bare(Member(a, x))|, Member(a, x))
    decreases Member(a, x), 0
  {
    hide Reads, Print;
    var ts, m := Bare(Member(a, x)) + rest, |Print(a, 9)|;
    var more := [Sign(Dot), Token(Identifier, x)] + rest;
    PrintReads(9, a, more);
    assert ts == Print(a, 9) + more && ts[m] == more[0] && ts[m + 1] == more[1];
    MemberReads(ts, m, a);
  }

  lemma Behind(ts: seq<Token>, m: nat, front: seq<Token>, t: Token, inner: seq<Token>)
    requires ts == front + ([t] + inner) && m == |front|
    ensures m < |ts| && ts[m] == t && ts[m + 1..] == inner
  {
  }

  lemma {:induction false} BinaryReads(l: Expr, op: Kind, r: Expr, rest: seq<Token>)
    requires Legal(Binary(l, op, r))
    ensures Reads(OpLevel(op), Bare(Binary(l, op, r)) + rest, |Bare(Binary(l, op, r))|, Binary(l, op, r))
    decreases Binary(l, op, r), 0
  {
    hide Reads, Print;
    var e := Binary(l, op, r);
    var ts, m := Bare(e) + rest, |Print(l, LeftLevel(op))|;
    OperatorToken(op);
    var inner := Print(r, RightLevel(op)) + rest;
    PrintReads(LeftLevel(op), l, [OpToken(op)] + inner);
    PrintReads(RightLevel(op), r, rest);
    assert ts == Print(l, LeftLevel(op)) + ([OpToken(op)] + inner);
    Behind(ts, m, Print(l, LeftLevel(op)), OpToken(op), inner);
    BinaryTook(OpLevel(op), ts, m, l, r, |Bare(e)|);
  }

  lemma {:induction false} PrintItemsRead(es: seq<Expr>, rest: seq<Token>)
    requires AllLegal(es)
    ensures ItemsRead(PrintItems(es) + rest, |PrintItems(es)|, es)
    decreases es, 0
  {
    hide Reads, Print, Legal;
    var ts := PrintItems(es) + rest;
    if |es| == 1 {
      PrintReads(0, es[0], rest);
    } else if |es| > 1 {
      var inner := PrintItems(es[1..]) + rest;
      PrintReads(0, es[0], [Sign(Comma)] + inner);
      PrintItemsRead(es[1..], rest);
      var m := |Print(es[0], 0)|;
      assert ts == Print(es[0], 0) + ([Sign(Comma)] + inner) && ts[m..] == [Sign(Comma)] + inner && ts[m + 1..] == inner;
    }
  }

  /** A printed tree is read back, at every level, before a token that does not go on with it. */
  lemma RoundTrip(n: nat, e: Expr, rest: seq<Token>)
    requires n <= 10 && Legal(e) && Stops(n, rest)
    ensures Yields(n, Print(e, n) + rest, e, rest)
  {
    hide Yields, Print, Reads, Stops;
    PrintReads(n, e, rest);
    assert (Print(e, n) + rest)[|Print(e, n)|..] == rest;
    Complete(n, Print(e, n) + rest, |Print(e, n)|, e);
  }

  // ----- from text -----

  /** The tokens as text, each behind a blank. */
  function TextOf(ts: seq<Token>): string {
    if ts == [] then "" else " " + (ts[0].lexeme + TextOf(ts[1..]))
  }

  predicate AllPrintable(ts: seq<Token>) {
    forall t <- ts :: Own(t) && !M.IsComment(t)
  }

  lemma {:induction false} LexPrinted(ts: seq<Token>)
    requires AllPrintable(ts)
    ensures Lex(TextOf(ts), true) == Lexed(ts + [M.EOF], [])
    ensures M.WithoutComments(ts + [M.EOF]) == ts + [M.EOF]
  {
    hide Lex, Own;
    if ts == [] {
      LexBlank("");
      assert ts + [M.EOF] == [M.EOF] && [M.EOF][1..] == [];
    } else {
      LexPrinted(ts[1..]);
      assert ts[0] in ts;
      assert (ts + [M.EOF])[1..] == ts[1..] + [M.EOF];
      LexFirst(ts);
    }
  }

  lemma LexFirst(ts: seq<Token>)
    requires ts != [] && Own(ts[0]) && !M.IsComment(ts[0])
    requires Lex(TextOf(ts[1..]), true) == Lexed(ts[1..] + [M.EOF], [])
    ensures Lex(TextOf(ts), true) == Lexed(ts + [M.EOF], [])
  {
    hide Lex, Own, Ends, M.IsComment;
    var after := TextOf(ts[1..]);
    TextEnds(ts[0], ts[1..]);
    LexToken(" ", ts[0], after);
    assert [ts[0]] + (ts[1..] + [M.EOF]) == ts + [M.EOF];
  }

  lemma TextEnds(t: Token, ts: seq<Token>)
    requires !M.IsComment(t)
    ensures Ends(t, TextOf(ts))
  {
    if ts == [] { EndsAtEnd(t); } else { M.BlankEnds(t, TextOf(ts)); }
  }

  /** Words, read whole. */
  lemma {:induction false} SpanWord(w: string)
    requires forall c <- w :: In(c, Word)
    ensures Span(w, Word) == |w|
  {
    if w != "" { SpanWord(w[1..]); }
  }

  lemma WordOwn(w: string)
    requires w != "" && IsLetter(w[0]) && forall c <- w :: In(c, Word)
    ensures Own(Token(WordKind(w), w))
  {
    SpanWord(w[1..]);
    assert w[..|w|] == w;
  }

  lemma KeywordsOwn()
    ensures Own(Token(AsKw, "as")) && Own(Token(TryKw, "try")) && Own(Token(VolatileKw, "volatile"))
    ensures Own(Token(TrueKw, "true")) && Own(Token(FalseKw, "false")) && Own(Token(NullKw, "null"))
  {
    hide Own, GroupOf;
    OperatorWords();
    assert WordKind("true") == TrueKw && WordKind("false") == FalseKw && WordKind("null") == NullKw;
    WordOwn("true");
    WordOwn("false");
    WordOwn("null");
  }

  lemma OperatorWords()
    ensures Own(Token(AsKw, "as")) && Own(Token(TryKw, "try")) && Own(Token(VolatileKw, "volatile"))
  {
    hide Own, GroupOf;
    assert WordKind("as") == AsKw && WordKind("try") == TryKw && WordKind("volatile") == VolatileKw;
    WordOwn("as");
    WordOwn("try");
    WordOwn("volatile");
  }

  lemma SignOwn(k: Kind)
    requires IsPunctuation(k)
    ensures Own(Sign(k))
  {
    hide ScanWord, ScanNumber, ScanString, ScanComment;
  }

  lemma {:induction false} SpanDigits(s: string)
    requires forall c <- s :: D.IsDigit(c)
    ensures Span(s, Decimal) == |s|
  {
    if s != "" {
      assert D.IsDigit(s[0]);
      SpanDigits(s[1..]);
    }
  }

  lemma IntegerOwn(n: nat)
    ensures Own(Token(Integer, D.Text(n)))
  {
    hide ScanWord, ScanPunctuation, ScanString, ScanComment;
    var s := D.Text(n);
    SpanDigits(s);
    assert D.IsDigit(s[0]);
    assert |s| > 1 ==> D.IsDigit(s[1]);
    assert s[..|s|] == s;
  }

  lemma {:induction false} StringBodyEncoded(text: string)
    ensures StringBody(Encode(text)) == |Encode(text)| - 1 && Encode(text)[|Encode(text)| - 1] == '"'
  {
    if text != "" {
      StringBodyEncoded(text[1..]);
      var step := if text[0] == '"' || text[0] == '\\' || text[0] == '\0' then 2 else 1;
      assert Encode(text)[step..] == Encode(text[1..]);
    }
  }

  lemma StringOwn(text: string)
    ensures Own(Token(String, "\"" + Encode(text)))
  {
    hide ScanWord, ScanPunctuation, ScanNumber, ScanComment;
    var s := "\"" + Encode(text);
    StringBodyEncoded(text);
    assert s[1..] == Encode(text);
  }

  lemma LiteralOwn(l: Literal)
    requires l.FloatLit? ==> Own(Token(Float, l.digits))
    ensures AllPrintable([LiteralToken(l)])
  {
    hide Own;
    KeywordsOwn();
    match l
    case IntLit(v) => IntegerOwn(ToUnsigned(v));
    case StringLit(s) => StringOwn(s);
    case _ =>
  }

  lemma {:induction false} TypePrintable(t: TypeName)
    requires LegalType(t)
    ensures AllPrintable(PrintType(t))
  {
    hide Own;
    KeywordsOwn();
    SignOwn(Star);
    SignOwn(LBracket);
    SignOwn(RBracket);
    SignOwn(Semicolon);
    match t
    case Pointer(_, u) => TypePrintable(u);
    case Slice(u) => TypePrintable(u);
    case Fixed(u, _) => TypePrintable(u);
    case Base(_) =>
  }

  lemma {:induction false} PrintPrintable(e: Expr, n: nat)
    requires Legal(e)
    ensures AllPrintable(Print(e, n))
    decreases e, 1
  {
    hide Own, Bare;
    SignOwn(LParen);
    SignOwn(RParen);
    BarePrintable(e);
  }

  lemma {:induction false} BarePrintable(e: Expr)
    requires Legal(e)
    ensures AllPrintable(Bare(e))
    decreases e, 0, 1
  {
    hide Own, Print, PrintItems, PrintType, LiteralToken;
    match e
    case Lit(l) => LiteralOwn(l);
    case Name(_) =>
    case Unary(op, a) => PrintPrintable(a, 7); OpOwn(op);
    case Binary(l, op, r) =>
      OpOwn(op);
      PrintPrintable(l, if op.Equal? then 1 else LevelOf(e));
      PrintPrintable(r, if op.Equal? then 0 else LevelOf(e) + 1);
    case _ => PostfixPrintable(e);
  }

  lemma {:induction false} PostfixPrintable(e: Expr)
    requires Legal(e) && !e.Lit? && !e.Name? && !e.Unary? && !e.Binary?
    ensures AllPrintable(Bare(e))
    decreases e, 0, 0
  {
    hide Own, Print, PrintItems, PrintType, LiteralToken;
    SignOwn(LBracket);
    SignOwn(RBracket);
    match e
    case Call(f, args) =>
      SignOwn(LParen);
      SignOwn(RParen);
      PrintPrintable(f, 9);
      ItemsPrintable(args);
    case Cast(a, t) =>
      KeywordsOwn();
      PrintPrintable(a, 8);
      TypePrintable(t);
    case Index(a, i) => PrintPrintable(a, 9); PrintPrintable(i, 0);
    case Member(a, _) => SignOwn(Dot); PrintPrintable(a, 9);
    case Array(es) => ItemsPrintable(es);
  }

  lemma OpOwn(op: Kind)
    requires IsPrefixOp(op) || 0 <= OpLevel(op) <= 6
    ensures Own(OpToken(op)) && !M.IsComment(OpToken(op)) && (op.Equal? ==> OpToken(op) == Sign(Equal))
  {
    hide Own;
    KeywordsOwn();
    if IsPunctuation(op) { SignOwn(op); }
  }

  lemma {:induction false} ItemsPrintable(es: seq<Expr>)
    requires AllLegal(es)
    ensures AllPrintable(PrintItems(es))
    decreases es, 0
  {
    hide Own, Print;
    SignOwn(Comma);
    if es != [] {
      PrintPrintable(es[0], 0);
      ItemsPrintable(es[1..]);
    }
  }

  /** Every legal expression is what the parser reads from its printed text, with nothing but the end left over. */
  lemma PrintedTextReadsBack(e: Expr)
    requires Legal(e)
    ensures Lex(TextOf(Print(e, 0)), false).errors == []
    ensures ParseExpr(Lex(TextOf(Print(e, 0)), false).tokens) == Parsed(e, [M.EOF], [])
  {
    hide Lex, Print, ParseExpr, Legal;
    PrintPrintable(e, 0);
    LexPrinted(Print(e, 0));
    M.CommentsAreSkipped(TextOf(Print(e, 0)));
    RoundTrip(0, e, [M.EOF]);
  }
}
