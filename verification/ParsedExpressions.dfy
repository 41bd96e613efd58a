/**
 What the expression parser can return: without errors, exactly the legal trees.  Together with the round trip of
 printed expressions this says which trees have a source text at all.
 */
module ParsedExpressions {
  import opened Lexer
  import opened LexerFacts
  import opened Expressions
  import opened ExpressionGrammar
  import opened ExpressionPrinting
  import opened LexerText
  import M = FormatterMeaning

  /** Tokens as the lexer makes them. */
  ghost predicate Lexical(ts: seq<Token>) {
    forall t <- ts :: t.kind.Eof? || Own(t)
  }

  lemma LexicalRest(ts: seq<Token>, m: nat)
    requires Lexical(ts) && m <= |ts|
    ensures Lexical(ts[m..])
  {
    hide Own;
  }

  lemma {:induction false} TypeLegal(ts: seq<Token>, k: nat, t: TypeName)
    requires Lexical(ts) && TypeReads(ts, k, t)
    ensures LegalType(t)
    decreases t
  {
    hide Own;
    match t
    case Pointer(v, u) =>
      LexicalRest(ts, if v then 2 else 1);
      TypeLegal(ts[if v then 2 else 1..], if v then k - 2 else k - 1, u);
    case Slice(u) =>
      LexicalRest(ts, 2);
      TypeLegal(ts[2..], k - 2, u);
    case Fixed(u, n) =>
      LexicalRest(ts, 1);
      TypeLegal(ts[1..], k - 4, u);
      assert ts[k - 2] in ts;
    case Base(n) =>
      assert ts[0] in ts;
  }

  /** A text of lexical tokens has a legal tree. */
  lemma {:induction false} TextLegal(n: nat, ts: seq<Token>, k: nat, e: Expr)
    requires Lexical(ts) && Reads(n, ts, k, e)
    ensures Legal(e)
    decreases k, 1
  {
    hide Own, Lexical;
    if InBrackets(ts, k, e) {
      LexicalRest(ts, 1);
      TextLegal(0, ts[1..], k - 2, e);
    } else {
      assert Plain(ts, k, e);
      PlainLegal(ts, k, e);
    }
  }

  lemma {:induction false} PlainLegal(ts: seq<Token>, k: nat, e: Expr)
    requires Lexical(ts) && k <= |ts| && Plain(ts, k, e)
    ensures Legal(e)
    decreases k, 0
  {
    hide Own, Reads, ItemsRead, TypeReads, LiteralOf;
    match e
    case Lit(l) => LiteralLegal(ts[0], l);
    case Name(_) => assert ts[0] in ts;
    case Array(es) =>
      LexicalRest(ts, 1);
      ItemsLegal(ts[1..], k - 2, es);
    case Unary(_, a) =>
      LexicalRest(ts, 1);
      TextLegal(7, ts[1..], k - 1, a);
    case Binary(l, op, r) =>
      var m: nat :| m < k && BinaryAt(ts, k, m, l, op, r);
      LexicalRest(ts, m + 1);
      TextLegal(LeftLevel(op), ts, m, l);
      TextLegal(RightLevel(op), ts[m + 1..], k - m - 1, r);
    case Cast(a, t) =>
      var m: nat :| m < k && CastAt(ts, k, m, a, t);
      LexicalRest(ts, m + 1);
      TextLegal(8, ts, m, a);
      TypeLegal(ts[m + 1..], k - m - 1, t);
    case Call(f, args) =>
      var m: nat :| m + 1 < k && CallAt(ts, k, m, f, args);
      LexicalRest(ts, m + 1);
      TextLegal(9, ts, m, f);
      ItemsLegal(ts[m + 1..], k - m - 2, args);
    case Index(a, i) =>
      var m: nat :| m + 1 < k && IndexAt(ts, k, m, a, i);
      LexicalRest(ts, m + 1);
      TextLegal(9, ts, m, a);
      TextLegal(0, ts[m + 1..], k - m - 2, i);
    case Member(a, _) =>
      TextLegal(9, ts, k - 2, a);
      assert ts[k - 1] in ts;
  }

  lemma LiteralLegal(t: Token, l: Literal)
    requires IsLiteral(t, l) && (t.kind.Eof? || Own(t))
    ensures Legal(Lit(l))
  {
    hide Own, IntegerValue, DecodeString;
    assert t == Token(t.kind, t.lexeme);
  }

  lemma {:induction false} ItemsLegal(ts: seq<Token>, k: nat, es: seq<Expr>)
    requires Lexical(ts) && ItemsRead(ts, k, es)
    ensures AllLegal(es)
    decreases k, 2
  {
    hide Own, Reads, Legal, Lexical;
    if |es| == 1 {
      TextLegal(0, ts, k, es[0]);
      assert es[1..] == [];
    } else if |es| > 1 {
      var m: nat :| m < k && ts[m].kind.Comma? && Reads(0, ts, m, es[0]) && ItemsRead(ts[m + 1..], k - m - 1, es[1..]);
      LexicalRest(ts, m + 1);
      TextLegal(0, ts, m, es[0]);
      ItemsLegal(ts[m + 1..], k - m - 1, es[1..]);
    }
  }

  /** Parsing leaves a rest of the tokens, and without errors yields a legal tree. */
  lemma ExprSound(ts: seq<Token>)
    requires Lexical(ts)
    ensures var r := ParseExpr(ts);
            r.Parsed? && r.errors == [] ==> |r.rest| <= |ts| && r.rest == ts[|ts| - |r.rest|..] && Legal(r.value)
  {
    hide ParseExpr, Reads, Legal, Lexical;
    ExprTook(ts);
    var r := ParseExpr(ts);
    if r.Parsed? && r.errors == [] { TextLegal(0, ts, |ts| - |r.rest|, r.value); }
  }

  // ----- which trees have a source text -----

  ghost predicate HasText(e: Expr) {
    exists text: string :: ReadsAs(text, e)
  }

  /** The text lexes and parses without errors, as a whole, to the tree. */
  ghost predicate ReadsAs(text: string, e: Expr) {
    Lex(text, true).errors == [] && ParseExpr(Lex(text, false).tokens) == Parsed(e, [M.EOF], [])
  }

  /** The tokens of a text, which comments stand between, are a text of the tree. */
  ghost predicate Tells(text: string, ts: seq<Token>, e: Expr) {
    var told := M.WithoutComments(ts); Consists(text, ts) && Reads(0, told + [M.EOF], |told|, e)
  }

  /** A source text is read as a tree exactly if it consists of tokens that are, without the comments, a text of the tree. */
  lemma ReadsAsIff(text: string, e: Expr)
    ensures ReadsAs(text, e) <==> exists ts :: Tells(text, ts, e)
  {
    hide Lex, ParseExpr, Consists, Reads;
    if ReadsAs(text, e) {
      LexedConsists(text);
      var ts := Lex(text, true).tokens[..|Lex(text, true).tokens| - 1];
      assert Lex(text, true).tokens == ts + [M.EOF];
      ToldParses(text, ts, e);
      assert Tells(text, ts, e);
    }
    if ts :| Tells(text, ts, e) {
      LexesIff(text, ts);
      ToldParses(text, ts, e);
    }
  }

  lemma ToldParses(text: string, ts: seq<Token>, e: Expr)
    requires Lex(text, true) == Lexed(ts + [M.EOF], [])
    ensures var told := M.WithoutComments(ts);
            ParseExpr(Lex(text, false).tokens) == Parsed(e, [M.EOF], []) <==> Reads(0, told + [M.EOF], |told|, e)
  {
    hide Lex, ParseExpr, Reads;
    M.CommentsAreSkipped(text);
    M.WithoutCommentsJoin(ts, [M.EOF]);
    var told := M.WithoutComments(ts);
    assert M.WithoutComments([M.EOF]) == [M.EOF] by { assert [M.EOF][1..] == []; }
    assert (told + [M.EOF])[|told|..] == [M.EOF];
    ParsesIff(told + [M.EOF], |told|, e);
  }

  lemma {:induction false} FilteredLexical(ts: seq<Token>)
    requires Lexical(ts)
    ensures Lexical(M.WithoutComments(ts))
  {
    hide Own;
    if ts != [] {
      LexicalRest(ts, 1);
      FilteredLexical(ts[1..]);
    }
  }

  lemma HasTextIffLegal(e: Expr)
    ensures HasText(e) <==> Legal(e)
  {
    hide Lex, ParseExpr, Legal, Print, Own;
    if HasText(e) {
      var text :| ReadsAs(text, e);
      M.CommentsAreSkipped(text);
      LexedAreOwn(text);
      M.LastIsEof(text);
      var tokens := Lex(text, true).tokens;
      assert Lexical(tokens);
      FilteredLexical(tokens);
      ExprSound(Lex(text, false).tokens);
    }
    if Legal(e) {
      var text := TextOf(Print(e, 0));
      PrintedTextReadsBack(e);
      PrintPrintable(e, 0);
      LexPrinted(Print(e, 0));
      assert ReadsAs(text, e);
    }
  }
}
