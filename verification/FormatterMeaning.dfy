/**
 Formatting keeps the tokens: an error-free source text and its formatted text have the same kinds and lexemes,
 up to trailing blanks of line comments, exactly if the text has no two ampersands in a row and no decimal
 integer, dot and number in a row.  Formatting twice is formatting once.
 */
module FormatterMeaning {
  import opened Basics
  import opened Lexer
  import opened LexerFacts
  import opened Formatter

  predicate DecimalInteger(t: Token) {
    t.kind.Integer? && !IsHex(t.lexeme)
  }

  predicate IsNumber(t: Token) {
    t.kind.Integer? || t.kind.Float?
  }

  /** Two ampersands, written without a blank between them, become one token. */
  predicate TwoAmpersands(ts: seq<Token>, i: nat) {
    i + 1 < |ts| && ts[i].kind.Ampersand? && ts[i + 1].kind.Ampersand?
  }

  /** An integer, a dot and a number, written together, begin with a floating-point number. */
  predicate IntegerDotNumber(ts: seq<Token>, i: nat) {
    i + 2 < |ts| && DecimalInteger(ts[i]) && ts[i + 1].kind.Dot? && IsNumber(ts[i + 2])
  }

  predicate Merges(ts: seq<Token>, i: nat) {
    TwoAmpersands(ts, i) || IntegerDotNumber(ts, i)
  }

  ghost predicate Separable(ts: seq<Token>) {
    forall i: nat :: !Merges(ts, i)
  }

  ghost predicate AllOwn(ts: seq<Token>) {
    forall k :: 0 <= k < |ts| ==> Own(ts[k]) && Proper(ts[k])
  }

  function ShownAll(ts: seq<Token>): (r: seq<Token>)
    ensures |r| == |ts| && forall k :: 0 <= k < |ts| ==> r[k] == Shown(ts[k])
  {
    if ts == [] then [] else ShownAll(ts[..|ts| - 1]) + [Shown(ts[|ts| - 1])]
  }

  // ----- the gap in front of a token -----

  lemma GapIsBlank(s: State, k: Kind)
    requires Good(s)
    ensures AllBlank(Gap(s, k))
    ensures Gap(s, k) != "" && s.base != "" ==> Gap(s, k)[0] == ' ' || Gap(s, k)[0] == '\n'
    ensures s.prev.LineComment? && s.base != "" ==> Gap(s, k) != "" && Gap(s, k)[0] == '\n'
  {
  }

  /** Where nothing separates two tokens, the second is a bracket, a separator or a prefix operator, or the first is. */
  lemma NoGap(s: State, k: Kind)
    requires Good(s) && s.base != "" && Gap(s, k) == ""
    ensures IsTight(k) || k.LParen? || (k.Star? && BeforePrefix(s.prev)) || k.Ampersand? || k.Bang? || TightAfter(s.prev)
    ensures !IsBinaryOperator(k) && !EndsOpen(k) && !k.RBrace? && (k.Star? ==> BeforePrefix(s.prev))
    ensures !s.prev.LineComment?
  {
  }

  /** The first character of a token's lexeme. */
  lemma FirstChar(t: Token)
    requires Own(t) && Proper(t)
    ensures t.lexeme != "" && !t.kind.Eof?
    ensures IsWord(t.kind) ==> IsLetter(t.lexeme[0]) || t.lexeme[0] == '_'
    ensures IsNumber(t) <==> IsDecimal(t.lexeme[0])
    ensures t.kind.String? ==> t.lexeme[0] == '"'
    ensures IsPunctuation(t.kind) ==> t.lexeme == Spelling(t.kind)
  {
    hide ScanWord, ScanNumber, ScanPunctuation, StringBody, CommentBody, Spelling;
    ScanKinds(t.lexeme);
    SpellingStarts(t.kind);
    if t.kind.LineComment? { assert t.lexeme[..2][0] == '/'; }
  }

  lemma SpellingStarts(k: Kind)
    ensures IsPunctuation(k) ==> Spelling(k) != "" && !IsDecimal(Spelling(k)[0])
  {
  }

  // ----- what follows a token in the output ends it -----

  /** The text after the first `k` tokens ends the last of them, and does not turn an integer before a dot into another number. */
  predicate Follows(ts: seq<Token>, k: nat, after: string)
    requires k <= |ts|
  {
    && (k > 0 ==> Ends(Shown(ts[k - 1]), after))
    && (k > 1 && ts[k - 1].kind.Dot? && DecimalInteger(ts[k - 2]) ==> !IsDecimal(Ahead(after, 0)))
  }

  lemma BlankEnds(t: Token, after: string)
    requires after != "" && (after[0] == ' ' || after[0] == '\n') && (t.kind.LineComment? ==> after[0] == '\n')
    ensures Ends(t, after)
  {
  }

  lemma NextEnds(s: State, p: Token, t: Token, after: string)
    requires Good(s) && s.base != "" && s.prev == p.kind && Gap(s, t.kind) == ""
    requires Own(p) && Own(t) && Proper(t) && !(p.kind.Ampersand? && t.kind.Ampersand?)
    requires DecimalInteger(p) && t.kind.Dot? ==> !IsDecimal(Ahead(after, 0))
    ensures Ends(p, t.lexeme + after)
  {
    hide Gap, Good, Own, Proper;
    NoGap(s, t.kind);
    FirstChar(t);
    var text := t.lexeme + after;
    assert Ahead(text, 0) == t.lexeme[0];
    if t.kind.Dot? { assert Ahead(text, 1) == Ahead(after, 0); }
  }

  /** The gap, the next token and what is behind it follow the first `k` tokens. */
  lemma StepFollows(ts: seq<Token>, k: nat, after: string)
    requires AllOwn(ts) && k < |ts| && Good(Layout(ts[..k])) && (k > 0 ==> Layout(ts[..k]).base != "" && Layout(ts[..k]).prev == ts[k - 1].kind)
    requires k > 0 ==> !TwoAmpersands(ts, k - 1)
    requires k > 1 ==> !IntegerDotNumber(ts, k - 2)
    requires k > 0 && ts[k].kind.Dot? && DecimalInteger(ts[k - 1]) ==> !IsDecimal(Ahead(after, 0))
    ensures Follows(ts, k, Gap(Layout(ts[..k]), ts[k].kind) + (Shown(ts[k]).lexeme + after))
  {
    hide Layout, Ends, Own, Proper, Good, Gap;
    if k > 0 {
      var s, t := Layout(ts[..k]), Shown(ts[k]);
      ShownIsOwn(ts[k]);
      ShownIsOwn(ts[k - 1]);
      GapIsBlank(s, t.kind);
      FirstChar(t);
      var gap, text := Gap(s, t.kind), Gap(s, t.kind) + (t.lexeme + after);
      if gap == "" {
        NextEnds(s, Shown(ts[k - 1]), t, after);
        assert text == t.lexeme + after;
        assert text[0] == t.lexeme[0];
      } else {
        assert text[0] == gap[0];
        BlankEnds(Shown(ts[k - 1]), text);
      }
    }
  }

  // ----- reading the output -----

  lemma LayoutStep(ts: seq<Token>, k: nat)
    requires k < |ts|
    ensures Layout(ts[..k + 1]) == Next(Layout(ts[..k]), ts[k])
  {
    assert ts[..k + 1][..k] == ts[..k];
  }

  lemma {:induction false} LayoutIsGood(ts: seq<Token>, k: nat)
    requires AllOwn(ts) && k <= |ts|
    ensures Good(Layout(ts[..k])) && (k > 0 ==> Layout(ts[..k]).base != "" && Layout(ts[..k]).prev == ts[k - 1].kind)
  {
    hide Good, Own, Proper;
    if k == 0 {
      assert ts[..0] == [] && Good(START) by { StartIsGood(); }
    } else {
      LayoutIsGood(ts, k - 1);
      LayoutStep(ts, k - 1);
      NextIsGood(Layout(ts[..k - 1]), ts[k - 1]);
    }
  }

  lemma StartIsGood()
    ensures Good(START)
  {
  }

  function Prefixed(ts: seq<Token>, rest: Lexed): Lexed {
    Lexed(ts + rest.tokens, rest.errors)
  }

  /** The first `k` tokens are read back, whatever follows them. */
  lemma {:induction false} ReadBack(ts: seq<Token>, k: nat, after: string)
    requires AllOwn(ts) && k <= |ts| && Follows(ts, k, after)
    requires forall i: nat :: i + 1 < k ==> !TwoAmpersands(ts, i)
    requires forall i: nat :: i + 2 < k ==> !IntegerDotNumber(ts, i)
    ensures Lex(Layout(ts[..k]).base + after, true) == Prefixed(ShownAll(ts[..k]), Lex(after, true))
    decreases k
  {
    hide Lex, Layout, Follows, Own, Proper, Good, Gap, ShownAll, TwoAmpersands, IntegerDotNumber;
    if k == 0 {
      assert ts[..0] == [] && Layout([]).base + after == after && ShownAll([]) == [] by { EmptyLayout(); }
    } else {
      var s, t := Layout(ts[..k - 1]), ts[k - 1];
      LayoutIsGood(ts, k - 1);
      LastFollows(ts, k, after);
      StepFollows(ts, k - 1, after);
      var gap, lexeme := Gap(s, t.kind), Shown(t).lexeme;
      ReadBack(ts, k - 1, gap + (lexeme + after));
      ShownIsOwn(t);
      GapIsBlank(s, t.kind);
      LexToken(gap, Shown(t), after);
      LayoutStep(ts, k - 1);
      assert s.base + gap + lexeme + after == s.base + (gap + (lexeme + after));
      ShownStep(ts, k - 1);
    }
  }

  lemma LastFollows(ts: seq<Token>, k: nat, after: string)
    requires 0 < k <= |ts| && Follows(ts, k, after)
    ensures Ends(Shown(ts[k - 1]), after)
    ensures k > 1 && ts[k - 1].kind.Dot? && DecimalInteger(ts[k - 2]) ==> !IsDecimal(Ahead(after, 0))
  {
  }

  lemma EmptyLayout()
    ensures Layout([]).base == "" && ShownAll([]) == []
  {
  }

  lemma ShownStep(ts: seq<Token>, k: nat)
    requires k < |ts|
    ensures ShownAll(ts[..k + 1]) == ShownAll(ts[..k]) + [Shown(ts[k])]
  {
    assert ts[..k + 1][..k] == ts[..k];
  }

  const EOF := Token(Eof, "")

  lemma SeparableIsReadBack(ts: seq<Token>)
    requires AllOwn(ts) && Separable(ts)
    ensures Lex(Finished(Layout(ts)), true) == Lexed(ShownAll(ts) + [EOF], [])
  {
    hide Lex, Layout, Own, Proper, Good, ShownAll;
    assert ts[..|ts|] == ts;
    forall i: nat ensures !TwoAmpersands(ts, i) && !IntegerDotNumber(ts, i) { assert !Merges(ts, i); }
    LayoutIsGood(ts, |ts|);
    if ts == [] {
      EmptyLayout();
      LexBlank("");
      assert ShownAll(ts) + [EOF] == [EOF];
    } else {
      BlankEnds(Shown(ts[|ts| - 1]), "\n");
      assert Follows(ts, |ts|, "\n");
      ReadBack(ts, |ts|, "\n");
      LexBlank("\n");
    }
  }

  // ----- two tokens that merge -----

  lemma {:induction false} BaseGrows(ts: seq<Token>, i: nat, j: nat)
    requires i <= j <= |ts|
    ensures Layout(ts[..i]).base <= Layout(ts[..j]).base
    decreases j - i
  {
    hide Layout, Next;
    if i < j {
      BaseGrows(ts, i, j - 1);
      LayoutStep(ts, j - 1);
      NextGrows(Layout(ts[..j - 1]), ts[j - 1]);
      LongerStill(Layout(ts[..i]).base, Layout(ts[..j - 1]).base, Layout(ts[..j]).base);
    }
  }

  lemma LongerStill(a: string, b: string, c: string)
    requires a <= b <= c
    ensures a <= c
  {
  }

  lemma NextGrows(s: State, t: Token)
    ensures s.base <= Next(s, t).base
  {
    hide Gap, Shown;
  }

  /** The output continues at a merging place with a text whose first token is another one. */
  lemma Merged(ts: seq<Token>, i: nat, text: string) returns (after: string)
    requires AllOwn(ts) && Merges(ts, i) && text == Finished(Layout(ts))
    ensures text == Layout(ts[..i]).base + (Gap(Layout(ts[..i]), ts[i].kind) + (ts[i].lexeme + after))
    ensures var r := ScanToken(ts[i].lexeme + after, true); r.kind != ts[i].kind && !r.kind.Eof?
  {
    hide Layout, Gap, Own, Proper, Good, Lex, ScanToken;
    var s := Layout(ts[..i]);
    var front := s.base + Gap(s, ts[i].kind) + ts[i].lexeme;
    WrittenFirst(ts, i);
    WrittenSecond(ts, i, text, front);
    after := text[|front|..];
    if TwoAmpersands(ts, i) {
      AmpersandIs(ts[i]);
      AmpersandsMerge(after);
    } else {
      WrittenThird(ts, i, text, front);
      IntegerMerges(ts[i], after);
    }
    assert text == front + after;
    assert text == s.base + (Gap(s, ts[i].kind) + (ts[i].lexeme + after));
  }

  /** The output up to and including the first of the merging tokens. */
  lemma WrittenFirst(ts: seq<Token>, i: nat)
    requires Merges(ts, i)
    ensures Layout(ts[..i + 1]).base == Layout(ts[..i]).base + Gap(Layout(ts[..i]), ts[i].kind) + ts[i].lexeme
  {
    hide Layout, Gap;
    LayoutStep(ts, i);
  }

  /** The second one comes right behind it. */
  lemma WrittenSecond(ts: seq<Token>, i: nat, text: string, front: string)
    requires AllOwn(ts) && Merges(ts, i) && text == Finished(Layout(ts)) && front == Layout(ts[..i + 1]).base
    ensures Layout(ts[..i + 2]).base == front + ts[i + 1].lexeme && front <= text
    ensures |front| < |text| && [text[|front|]] == ts[i + 1].lexeme == (if TwoAmpersands(ts, i) then "&" else ".")
  {
    hide Layout, Gap, Own, Proper, Good;
    LayoutStep(ts, i);
    LayoutStep(ts, i + 1);
    SecondIsTight(Layout(ts[..i]), ts[i], ts[i + 1]);
    var second := Layout(ts[..i + 2]).base;
    assert second == front + ts[i + 1].lexeme;
    BaseGrows(ts, i + 2, |ts|);
    assert ts[..|ts|] == ts;
    if TwoAmpersands(ts, i) { AmpersandIs(ts[i + 1]); } else { DotIs(ts[i + 1]); }
    assert text[|front|] == second[|front|];
    assert second[..|front|] == front;
  }

  /** A number comes right behind the dot. */
  lemma WrittenThird(ts: seq<Token>, i: nat, text: string, front: string)
    requires AllOwn(ts) && IntegerDotNumber(ts, i) && text == Finished(Layout(ts)) && front == Layout(ts[..i + 1]).base
    requires Layout(ts[..i + 2]).base == front + "."
    ensures |text| > |front| + 1 && IsDecimal(text[|front| + 1])
  {
    hide Layout, Gap, Own, Proper, Good;
    LayoutStep(ts, i + 1);
    LayoutStep(ts, i + 2);
    LayoutIsGood(ts, i + 1);
    ThirdIsTight(Layout(ts[..i + 1]), ts[i + 1], ts[i + 2]);
    FirstChar(ts[i + 2]);
    var third := Layout(ts[..i + 3]).base;
    assert third == front + "." + ts[i + 2].lexeme;
    BaseGrows(ts, i + 3, |ts|);
    assert ts[..|ts|] == ts;
    assert text[|front| + 1] == third[|front| + 1] == ts[i + 2].lexeme[0];
  }

  lemma SecondIsTight(s: State, a: Token, b: Token)
    requires (a.kind.Ampersand? && b.kind.Ampersand?) || (a.kind.Integer? && b.kind.Dot?)
    ensures Shown(a) == a && Shown(b) == b && Gap(Next(s, a), b.kind) == ""
  {
  }

  lemma ThirdIsTight(s: State, a: Token, b: Token)
    requires a.kind.Dot? && IsNumber(b) && Good(s) && s.base != ""
    ensures Shown(b) == b && Gap(Next(s, a), b.kind) == ""
  {
  }

  lemma AmpersandIs(t: Token)
    requires Proper(t) && t.kind.Ampersand?
    ensures t.lexeme == "&"
  {
  }

  lemma DotIs(t: Token)
    requires Proper(t) && t.kind.Dot?
    ensures t.lexeme == "."
  {
  }

  lemma AmpersandsMerge(after: string)
    requires after != "" && after[0] == '&'
    ensures ScanToken("&" + after, true) == Scan(AndAnd, 2, None)
  {
    hide ScanWord, ScanNumber, ScanString, ScanComment;
    var t := "&" + after;
    assert t[0] == '&' && Ahead(t, 1) == '&';
  }

  lemma IntegerMerges(t: Token, after: string)
    requires Own(t) && Proper(t) && DecimalInteger(t) && |after| > 1 && after[0] == '.' && IsDecimal(after[1])
    ensures var r := ScanToken(t.lexeme + after, true); r.kind.Float? && r.error.None?
  {
    hide ScanWord, ScanPunctuation, ScanString, ScanComment;
    FirstChar(t);
    var n := |t.lexeme|;
    assert n == Span(t.lexeme, Decimal) by { OwnInteger(t); }
    assert t.lexeme[..n] == t.lexeme;
    SpanCut(t.lexeme, after, Decimal);
    var u := t.lexeme + after;
    NotHex(t.lexeme, n, after);
    assert u[0] == t.lexeme[0] && Ahead(u, n) == '.' && Ahead(u, n + 1) == after[1];
  }

  lemma OwnInteger(t: Token)
    requires Own(t) && DecimalInteger(t) && IsDecimal(t.lexeme[0])
    ensures Span(t.lexeme, Decimal) == |t.lexeme|
  {
    hide ScanWord, ScanPunctuation, ScanString, ScanComment;
  }

  lemma MergingIsNotReadBack(ts: seq<Token>)
    requires AllOwn(ts) && !Separable(ts)
    ensures Lex(Finished(Layout(ts)), true) != Lexed(ShownAll(ts) + [EOF], [])
  {
    hide Lex, Layout, Own, Proper, Good, Gap, ShownAll, ScanToken, Follows;
    var any: nat :| Merges(ts, any);
    var i := FirstMerge(ts, any);
    var text := Finished(Layout(ts));
    var after := Merged(ts, i, text);
    var s, t := Layout(ts[..i]), ts[i];
    LayoutIsGood(ts, i);
    forall j: nat | j < i ensures !TwoAmpersands(ts, j) && !IntegerDotNumber(ts, j) { assert !Merges(ts, j); }
    assert Shown(t) == t;
    StepFollows(ts, i, after);
    var rest := Gap(s, t.kind) + (t.lexeme + after);
    ReadBack(ts, i, rest);
    GapIsBlank(s, t.kind);
    OtherToken(Gap(s, t.kind), t, after);
    assert ShownAll(ts)[i] == t && (ShownAll(ts) + [EOF])[i] == t;
    assert Lex(text, true).tokens[i] == Lex(rest, true).tokens[0];
  }

  lemma {:induction false} FirstMerge(ts: seq<Token>, any: nat) returns (i: nat)
    requires Merges(ts, any)
    ensures Merges(ts, i) && forall j: nat :: j < i ==> !Merges(ts, j)
  {
    i := 0;
    while !Merges(ts, i)
      invariant i <= any && forall j: nat :: j < i ==> !Merges(ts, j)
      decreases any - i
    {
      i := i + 1;
    }
  }

  /** The first token of a text that starts differently. */
  lemma OtherToken(gap: string, t: Token, after: string)
    requires AllBlank(gap) && Own(t)
    requires var r := ScanToken(t.lexeme + after, true); r.kind != t.kind && !r.kind.Eof?
    ensures var tokens := Lex(gap + (t.lexeme + after), true).tokens; tokens != [] && tokens[0] != t
  {
    hide ScanToken, Lex;
    OwnStart(t);
    var u := t.lexeme + after;
    SkipBlanks(gap, u);
    assert (gap + u)[|gap|..] == u;
    LexUnfolds(gap + u, true);
  }

  // ----- the theorems -----

  /** The tokens of a text, without the end-of-file one. */
  function Tokens(source: string): seq<Token> {
    var tokens := Lex(source, true).tokens;
    if tokens == [] then [] else tokens[..|tokens| - 1]
  }

  lemma FormatKeepsTokens(source: string)
    requires Lex(source, true).errors == []
    ensures Lex(Format(source), true) == Lexed(ShownAll(Tokens(source)) + [EOF], []) <==> Separable(Tokens(source))
  {
    hide Lex, Layout, Own, Proper, ShownAll, Separable;
    EofIsLast(source, true);
    LexedAreOwn(source);
    var ts := Tokens(source);
    assert AllOwn(ts);
    if Separable(ts) {
      SeparableIsReadBack(ts);
    } else {
      MergingIsNotReadBack(ts);
    }
  }

  const AMPERSAND: Token := Token(Ampersand, "&")

  lemma LexedAmpersands()
    ensures Lex("& &", true) == Lexed([AMPERSAND, AMPERSAND, EOF], [])
  {
    OneAmpersand();
    hide Own, Ends, Lex;
    LexBlank("");
    LexToken(" ", AMPERSAND, "");
    LexToken("", AMPERSAND, " &");
    assert " " + ("&" + "") == " &" && "" + ("&" + " &") == "& &";
  }

  /** The source `& &` is formatted to a text with other tokens. */
  lemma AmpersandsDoNotSurvive()
    ensures Lex("& &", true) == Lexed([AMPERSAND, AMPERSAND, EOF], [])
    ensures Lex(Format("& &"), true) != Lexed(ShownAll(Tokens("& &")) + [EOF], [])
  {
    LexedAmpersands();
    hide Lex, Format, ShownAll;
    assert Merges(Tokens("& &"), 0);
    FormatKeepsTokens("& &");
  }

  lemma OneAmpersand()
    ensures Own(AMPERSAND) && Ends(AMPERSAND, "") && Ends(AMPERSAND, " &") && AllBlank(" ") && AllBlank("")
  {
  }

  lemma TrimTwice(s: string)
    ensures Trim(Trim(s)) == Trim(s)
  {
  }

  lemma {:induction false} ShownLayout(ts: seq<Token>)
    ensures Layout(ShownAll(ts)) == Layout(ts)
  {
    if ts != [] {
      var n := |ts| - 1;
      ShownLayout(ts[..n]);
      TrimTwice(ts[n].lexeme);
      assert ShownAll(ts)[..n] == ShownAll(ts[..n]);
    }
  }

  /** Formatting a formatted text changes nothing. */
  lemma FormatIsIdempotent(source: string)
    requires Lex(source, true).errors == [] ==> Separable(Tokens(source))
    ensures Format(Format(source)) == Format(source)
  {
    hide Lex, Layout, ShownAll, Separable;
    if Lex(source, true).errors == [] {
      FormatKeepsTokens(source);
      EofIsLast(source, true);
      var ts := Tokens(source);
      assert (ShownAll(ts) + [EOF])[..|ts|] == ShownAll(ts);
      ShownLayout(ts);
    }
  }

  // ----- what the parser sees -----

  predicate IsComment(t: Token) {
    t.kind.LineComment? || t.kind.BlockComment?
  }

  function WithoutComments(ts: seq<Token>): seq<Token> {
    if ts == [] then []
    else if IsComment(ts[0]) then WithoutComments(ts[1..])
    else [ts[0]] + WithoutComments(ts[1..])
  }

  lemma {:induction false} WithoutCommentsJoin(a: seq<Token>, b: seq<Token>)
    ensures WithoutComments(a + b) == WithoutComments(a) + WithoutComments(b)
  {
    if a == [] {
      assert a + b == b;
    } else {
      assert (a + b)[1..] == a[1..] + b;
      WithoutCommentsJoin(a[1..], b);
    }
  }

  /** Skipping a first stretch, and then the rest, is skipping it all. */
  lemma SkipFirst(t: string, n: nat)
    requires n <= |t| && Skip(t, false) == Onward(n, Skip(t[n..], false))
    ensures Lex(t, false) == Lex(t[n..], false)
  {
    hide Skip, ScanToken;
    var s := Skip(t[n..], false);
    assert t[n..][s.length..] == t[n + s.length..];
    LexUnfolds(t, false);
    LexUnfolds(t[n..], false);
  }

  lemma LineFromSlashes(t: string)
    requires Ahead(t, 0) == '/' && Ahead(t, 1) == '/'
    ensures Span(t, Line) == 2 + Span(t[2..], Line)
  {
    assert t[1..][1..] == t[2..];
    assert Span(t, Line) == 1 + Span(t[1..], Line);
  }

  /** What the formatter's lexer reads as a comment. */
  lemma CommentShape(u: string)
    requires u != "" && ScanToken(u, true).error.None? && IsComment(Token(ScanToken(u, true).kind, ""))
    ensures u[0] == '/'
    ensures Ahead(u, 1) == '/' || Ahead(u, 1) == '*'
    ensures Ahead(u, 1) == '/' ==> ScanToken(u, true).length == 2 + Span(u[2..], Line)
    ensures Ahead(u, 1) == '*' ==>
              var n := 2 + CommentBody(u[2..]); Ahead(u, n) != NUL && ScanToken(u, true).length == n + 2
  {
    hide ScanWord, ScanNumber, ScanPunctuation, Span, CommentBody;
    ScanKinds(u);
  }

  /** A comment that the formatter's lexer reads is one that the parser's lexer skips. */
  lemma CommentSkipped(u: string)
    requires u != "" && !In(u[0], Blank) && ScanToken(u, true).error.None?
    requires IsComment(Token(ScanToken(u, true).kind, ""))
    ensures var n := ScanToken(u, true).length; Lex(u, false) == Lex(u[n..], false)
  {
    CommentShape(u);
    hide ScanToken, Skip, Lex, Span, CommentBody, IsComment;
    SkipUnfolds(u, false);
    if Ahead(u, 1) == '/' { LineFromSlashes(u); }
    SkipFirst(u, ScanToken(u, true).length);
  }

  lemma NoCommentSkipped(u: string)
    requires u != "" && !In(u[0], Blank) && ScanToken(u, true).error.None?
    requires !IsComment(Token(ScanToken(u, true).kind, ""))
    ensures ScanToken(u, false) == ScanToken(u, true) && Skip(u, false) == Skipped(0, None)
  {
    hide ScanWord, ScanNumber, ScanPunctuation;
    ScanKinds(u);
  }

  lemma {:induction false} BlanksSkipped(t: string)
    ensures var n := Skip(t, true).length; n <= |t| && Lex(t, false) == Lex(t[n..], false) && Skip(t, true).error.None?
  {
    hide Lex;
    if t != "" && In(t[0], Blank) {
      BlanksSkipped(t[1..]);
      SkipFirst(t, 1);
      var n := Skip(t[1..], true).length;
      assert t[1..][n..] == t[n + 1..];
    } else {
      assert t[0..] == t;
    }
  }

  /** Without errors, the parser's tokens are the formatter's without the comments. */
  lemma {:induction false} CommentsAreSkipped(t: string)
    requires Lex(t, true).errors == []
    ensures Lex(t, false) == Lexed(WithoutComments(Lex(t, true).tokens), [])
    decreases |t|
  {
    hide Lex, Skip, ScanToken, WithoutComments, IsComment;
    BlanksSkipped(t);
    LexUnfolds(t, true);
    SkipStops(t);
    var u := t[Skip(t, true).length..];
    if u == "" {
      NothingLeft();
      OnlyEof();
    } else {
      if ScanToken(u, true).kind.Eof? { EofIsError(u); }
      CommentsAreSkipped(u[ScanToken(u, true).length..]);
      FirstSkipped(u);
    }
  }

  /** A token after which only tokens without comments are left. */
  lemma FirstSkipped(u: string)
    requires u != "" && !In(u[0], Blank) && ScanToken(u, true).error.None? && !ScanToken(u, true).kind.Eof?
    requires var rest := u[ScanToken(u, true).length..];
             Lex(rest, true).errors == [] && Lex(rest, false) == Lexed(WithoutComments(Lex(rest, true).tokens), [])
    ensures var r := ScanToken(u, true);
            var token, rest := Token(r.kind, u[..r.length]), Lex(u[r.length..], true);
            Lex(u, false) == Lexed(WithoutComments([token] + rest.tokens), [])
  {
    var r := ScanToken(u, true);
    var token, rest := Token(r.kind, u[..r.length]), Lex(u[r.length..], true).tokens;
    FirstWithout(token, rest);
    if IsComment(token) {
      hide Lex, Skip, ScanToken, WithoutComments;
      CommentSkipped(u);
    } else {
      hide Lex, Skip, ScanToken, WithoutComments;
      NoCommentSkipped(u);
      LexUnfolds(u, false);
      assert u[0..] == u;
    }
  }

  lemma FirstWithout(t: Token, ts: seq<Token>)
    ensures WithoutComments([t] + ts) == (if IsComment(t) then [] else [t]) + WithoutComments(ts)
  {
    assert ([t] + ts)[1..] == ts;
    assert [] + WithoutComments(ts) == WithoutComments(ts);
  }

  lemma OnlyEof()
    ensures WithoutComments([EOF]) == [EOF]
  {
    assert [EOF][1..] == [];
  }

  lemma NothingLeft()
    ensures Lex("", false) == Lexed([EOF], [])
  {
    LexUnfolds("", false);
    SkipUnfolds("", false);
  }

  lemma EofIsError(u: string)
    requires u != "" && ScanToken(u, true).kind.Eof?
    ensures ScanToken(u, true).error.Some?
  {
    hide ScanNumber, ScanWord;
    ScanKinds(u);
  }

  lemma {:induction false} ShownComments(ts: seq<Token>)
    ensures WithoutComments(ShownAll(ts)) == WithoutComments(ts)
  {
    if ts != [] {
      var n := |ts| - 1;
      ShownComments(ts[..n]);
      WithoutCommentsJoin(ShownAll(ts[..n]), [Shown(ts[n])]);
      WithoutCommentsJoin(ts[..n], [ts[n]]);
      assert ts == ts[..n] + [ts[n]];
      assert [Shown(ts[n])][1..] == [] && [ts[n]][1..] == [];
    }
  }

  /** Formatting never changes what the parser sees, unless tokens merge. */
  lemma FormattingKeepsParserInput(source: string)
    requires Lex(source, true).errors == [] && Separable(Tokens(source))
    ensures Lex(Format(source), false) == Lex(source, false)
  {
    hide Lex, Layout, Separable, ShownAll, WithoutComments;
    FormatKeepsTokens(source);
    EofIsLast(source, true);
    CommentsAreSkipped(source);
    CommentsAreSkipped(Format(source));
    var ts := Tokens(source);
    LastIsEof(source);
    assert Lex(source, true).tokens == ts + [EOF];
    ShownComments(ts);
    WithoutCommentsJoin(ts, [EOF]);
    WithoutCommentsJoin(ShownAll(ts), [EOF]);
  }

  /** Without errors, the end-of-file token is empty. */
  lemma {:induction false} LastIsEof(t: string)
    requires Lex(t, true).errors == []
    ensures var tokens := Lex(t, true).tokens; tokens != [] && tokens[|tokens| - 1] == EOF
    decreases |t|
  {
    hide ScanToken, Skip;
    LexUnfolds(t, true);
    var u := t[Skip(t, true).length..];
    if u != "" {
      var r := ScanToken(u, true);
      if r.kind.Eof? { EofIsError(u); } else { LastIsEof(u[r.length..]); }
    }
  }

  // ----- the formatter itself -----

  method FormatSource(source: string) returns (text: string)
    ensures text == Format(source)
  {
    hide Lex, Layout, Own, Proper, Finished;
    var lexed := LexSource(source, true);
    if lexed.errors != [] { return source; }
    EofIsLast(source, true);
    LexedAreOwn(source);
    text := WriteAll(lexed.tokens);
  }

  /** Writes the tokens up to the end-of-file one. */
  method WriteAll(tokens: seq<Token>) returns (text: string)
    requires tokens != [] && tokens[|tokens| - 1].kind.Eof?
    requires forall k :: 0 <= k < |tokens| - 1 ==> !tokens[k].kind.Eof? && Proper(tokens[k])
    ensures text == Finished(Layout(tokens[..|tokens| - 1]))
  {
    hide Layout, Proper, Finished, Next, Good, AtLineStart;
    var writer := new Writer();
    var k := 0;
    assert tokens[..0] == [] && Layout([]) == START by { EmptyIsStart(); }
    while !tokens[k].kind.Eof?
      invariant k < |tokens| && writer.Valid() && fresh(writer) && writer.state == Layout(tokens[..k])
      decreases |tokens| - k
    {
      writer.Write(tokens[k]);
      LayoutStep(tokens, k);
      k := k + 1;
    }
    writer.Finish();
    return writer.out;
  }

  lemma EmptyIsStart()
    ensures Layout([]) == START
  {
  }
}
