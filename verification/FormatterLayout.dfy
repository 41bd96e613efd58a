/**
 What formatted text looks like: which tokens begin and end lines, how far lines are indented, and where blanks stand
 within them, each said by the kinds of neighbouring tokens and the depth of braces alone.
 */
module FormatterLayout {
  import opened Lexer
  import opened LexerFacts
  import opened Formatter
  import opened FormatterMeaning

  // ----- the rules -----

  /** The open braces: closing ones beyond the opening ones do not count. */
  function Depth(ts: seq<Token>): nat {
    if ts == [] then 0
    else
      var before, k := Depth(ts[..|ts| - 1]), ts[|ts| - 1].kind;
      if k.LBrace? then before + 1 else if k.RBrace? && before > 0 then before - 1 else before
  }

  /** A line ends behind comments, braces and semicolons. */
  predicate Breaks(k: Kind) {
    k.LineComment? || k.BlockComment? || k.LBrace? || k.RBrace? || k.Semicolon?
  }

  predicate IsInfixSign(k: Kind) {
    || k.Plus? || k.Minus? || k.Slash? || k.Percent? || k.AsKw?
    || k.Equal? || k.EqualEqual? || k.BangEqual? || k.Less? || k.LessEqual? || k.Greater? || k.GreaterEqual?
    || k.AndAnd? || k.OrOr?
  }

  /** A token begins a line: the first one, those behind a line's end, and closing braces. */
  predicate BeginsLine(ts: seq<Token>, i: nat)
    requires i < |ts|
  {
    i == 0 || Breaks(ts[i - 1].kind) || ts[i].kind.RBrace?
  }

  /** A star between operands: not behind an opening sign, a colon, a comma, `=`, `as` or `return`, nor at the start. */
  predicate InfixStar(ts: seq<Token>, i: nat)
    requires i < |ts|
  {
    ts[i].kind.Star? && i > 0
    && ts[i - 1].kind !in {Colon, LParen, Comma, Equal, AsKw, ReturnKw, LBracket}
  }

  /** Operands, keywords, comments, opening braces and infix stars are indented where they begin a line; signs are not. */
  predicate Indented(ts: seq<Token>, i: nat)
    requires i < |ts|
  {
    var k := ts[i].kind;
    && !IsInfixSign(k)
    && k !in {Semicolon, Comma, Colon, Dot, LParen, RParen, LBracket, RBracket, Ampersand, Bang}
    && (k.Star? ==> InfixStar(ts, i))
  }

  /** How many levels a token is indented that begins a line: a closing brace goes back to the line of its opening one. */
  function Level(ts: seq<Token>, i: nat): nat
    requires i < |ts|
  {
    if ts[i].kind.RBrace? then Depth(ts[..i + 1])
    else if Indented(ts, i) then Depth(ts[..i])
    else 0
  }

  /** Whether a blank stands between a token and the one before it on the same line. */
  predicate Apart(ts: seq<Token>, i: nat)
    requires 0 < i < |ts|
  {
    var p, k := ts[i - 1].kind, ts[i].kind;
    if k in {Semicolon, Comma, Colon, Dot, RParen, LBracket, RBracket, Ampersand, Bang} then false
    else if k.LParen? then p.IfKw? || p.WhileKw?
    else if IsInfixSign(k) || k.LBrace? || k.LineComment? || k.BlockComment? then true
    else if k.Star? then InfixStar(ts, i)
    else if p.Star? then InfixStar(ts, i - 1)
    else p !in {LParen, LBracket, Dot, Ampersand, Bang}
  }

  /** What stands in front of a token. */
  function Between(ts: seq<Token>, i: nat): string
    requires i < |ts|
  {
    if BeginsLine(ts, i) then (if i == 0 then "" else "\n") + Spaces(4 * Level(ts, i))
    else if Apart(ts, i) then " "
    else ""
  }

  /** The first `n` tokens with what stands in front of each. */
  function Written(ts: seq<Token>, n: nat): string
    requires n <= |ts|
  {
    if n == 0 then "" else Written(ts, n - 1) + Between(ts, n - 1) + Shown(ts[n - 1]).lexeme
  }

  lemma BlanksAre(n: nat)
    ensures |Spaces(n)| == n && forall k :: 0 <= k < n ==> Spaces(n)[k] == ' '
  {
  }

  /** Line comments are shown without the blanks and tabulators at their end, other tokens as they are. */
  lemma CommentsLoseBlanks(t: Token)
    ensures Shown(t).kind == t.kind && (!t.kind.LineComment? ==> Shown(t) == t)
    ensures t.kind.LineComment? ==>
      var x := Shown(t).lexeme;
      x <= t.lexeme && (x != "" ==> x[|x| - 1] !in {' ', '\t'}) && forall k :: |x| <= k < |t.lexeme| ==> t.lexeme[k] in {' ', '\t'}
  {
  }

  // ----- the layout follows them -----

  function LastKind(ts: seq<Token>, n: nat): Kind
    requires n <= |ts|
  {
    if n == 0 then Eof else ts[n - 1].kind
  }

  /** What the writer leaves behind the last token. */
  function Pending(ts: seq<Token>, n: nat): string
    requires n <= |ts|
  {
    if n == 0 then ""
    else
      var k := ts[n - 1].kind;
      if Breaks(k) then "\n" else if k.Comma? || k.Colon? || IsInfixSign(k) || InfixStar(ts, n - 1) then " " else ""
  }

  function StateAfter(ts: seq<Token>, n: nat): State
    requires n <= |ts|
  {
    State(Written(ts, n), Pending(ts, n), Depth(ts[..n]), LastKind(ts, n))
  }

  lemma DepthStep(ts: seq<Token>, n: nat)
    requires n < |ts|
    ensures var before, k := Depth(ts[..n]), ts[n].kind;
            Depth(ts[..n + 1]) == if k.LBrace? then before + 1 else if k.RBrace? && before > 0 then before - 1 else before
  {
    assert ts[..n + 1][..n] == ts[..n];
  }

  lemma SignsAre(k: Kind)
    ensures IsInfixSign(k) <==> IsBinaryOperator(k)
    ensures Breaks(k) <==> EndsLine(k)
  {
  }

  /** Either the line begins here, or the token before does not end it. */
  lemma StartIs(ts: seq<Token>, n: nat)
    requires n < |ts| && (n > 0 ==> Written(ts, n) != "")
    ensures var s := StateAfter(ts, n);
            && (AtLineStart(s) <==> n == 0 || Breaks(ts[n - 1].kind))
            && s.pad == if n == 0 then "" else Pending(ts, n)
  {
    hide Written;
    if n == 0 { NothingWritten(ts); }
  }

  lemma ClosingGap(ts: seq<Token>, n: nat)
    requires n < |ts| && ts[n].kind.RBrace? && (n > 0 ==> Written(ts, n) != "")
    ensures Gap(StateAfter(ts, n), ts[n].kind) == Between(ts, n)
  {
    StartIs(ts, n);
    DepthStep(ts, n);
    hide Written, Depth, Spaces, Indented, Apart, AtLineStart;
  }

  /** At the start of a line. */
  lemma OpeningGap(ts: seq<Token>, n: nat)
    requires n < |ts| && !ts[n].kind.RBrace? && (n == 0 || (Breaks(ts[n - 1].kind) && Written(ts, n) != "")) && !ts[n].kind.Eof?
    ensures Gap(StateAfter(ts, n), ts[n].kind) == Between(ts, n)
  {
    StartIs(ts, n);
    NoSpaces();
    var s, k := StateAfter(ts, n), ts[n].kind;
    SignsAre(k);
    BreaksBeforePrefix(LastKind(ts, n));
    hide Written, Depth, Spaces, AtLineStart, Apart, Breaks, EndsLine, StateAfter, BeforePrefix, TightAfter, Pending;
    assert s.pad == if n == 0 then "" else "\n";
    assert s.pad + "" == s.pad;
  }

  /** Behind the end of a line or at the start, a star is a prefix only at the start; and no bracket is open. */
  lemma BreaksBeforePrefix(k: Kind)
    requires Breaks(k) || k.Eof?
    ensures BeforePrefix(k) <==> k.Eof?
    ensures !TightAfter(k) && !IsBinaryOperator(k) && !k.IfKw? && !k.WhileKw?
    ensures k !in {Colon, LParen, Comma, Equal, AsKw, ReturnKw, LBracket}
  {
  }

  predicate SignOrOpener(k: Kind) {
    || IsTight(k) || k.LParen? || k.LBrace? || k.LineComment? || k.BlockComment?
    || IsBinaryOperator(k) || k.Star? || k.Ampersand? || k.Bang?
  }

  /** Within a line, in front of a sign or an opening brace or comment. */
  lemma SignGap(ts: seq<Token>, n: nat)
    requires 0 < n < |ts| && !ts[n].kind.RBrace? && !Breaks(ts[n - 1].kind) && Written(ts, n) != "" && !LastKind(ts, n).Eof?
    requires SignOrOpener(ts[n].kind)
    ensures Gap(StateAfter(ts, n), ts[n].kind) == Between(ts, n)
  {
    StartIs(ts, n);
    SignsAre(ts[n].kind);
    hide Written, Depth, Spaces, AtLineStart, Indented, Breaks, EndsLine, TightAfter;
    assert Pending(ts, n) == "" || Pending(ts, n) == " ";
  }

  /** Within a line, in front of an operand or keyword. */
  lemma OperandGap(ts: seq<Token>, n: nat)
    requires 0 < n < |ts| && !ts[n].kind.RBrace? && !Breaks(ts[n - 1].kind) && Written(ts, n) != "" && !LastKind(ts, n).Eof?
    requires !SignOrOpener(ts[n].kind)
    ensures Gap(StateAfter(ts, n), ts[n].kind) == Between(ts, n)
  {
    StartIs(ts, n);
    SignsAre(ts[n].kind);
    SignsAre(ts[n - 1].kind);
    hide Written, Depth, Spaces, AtLineStart, Indented, Breaks, EndsLine, IsBinaryOperator;
  }

  /** One token: the text in front of it. */
  lemma GapIsBetween(ts: seq<Token>, n: nat)
    requires n < |ts| && (n > 0 ==> Written(ts, n) != "" && !LastKind(ts, n).Eof?) && !ts[n].kind.Eof?
    ensures Gap(StateAfter(ts, n), ts[n].kind) == Between(ts, n)
  {
    hide Gap, StateAfter, Between, Written, Breaks, IsTight, IsBinaryOperator;
    var k := ts[n].kind;
    if k.RBrace? {
      ClosingGap(ts, n);
    } else if n == 0 || Breaks(ts[n - 1].kind) {
      OpeningGap(ts, n);
    } else if SignOrOpener(k) {
      SignGap(ts, n);
    } else {
      OperandGap(ts, n);
    }
  }

  lemma NoSpaces()
    ensures Spaces(0) == ""
  {
  }

  lemma WrittenStep(ts: seq<Token>, n: nat)
    requires n < |ts|
    ensures Written(ts, n + 1) == Written(ts, n) + Between(ts, n) + Shown(ts[n]).lexeme
  {
  }

  lemma NextIs(ts: seq<Token>, n: nat)
    requires n < |ts| && (n > 0 ==> Written(ts, n) != "" && !LastKind(ts, n).Eof?) && Proper(ts[n])
    ensures Next(StateAfter(ts, n), ts[n]) == StateAfter(ts, n + 1) && Written(ts, n + 1) != ""
  {
    GapIsBetween(ts, n);
    DepthStep(ts, n);
    SignsAre(ts[n].kind);
    ShownIsSolid(ts[n]);
    WrittenStep(ts, n);
    hide Gap, Between, Written, Depth, Shown;
    var s, k := StateAfter(ts, n), ts[n].kind;
    assert Pad(s, k) == Pending(ts, n + 1);
  }

  /** The writer's state after any tokens is the one the rules give. */
  lemma {:induction false} LayoutIsWritten(ts: seq<Token>, n: nat)
    requires AllOwn(ts) && n <= |ts|
    ensures Layout(ts[..n]) == StateAfter(ts, n) && (n > 0 ==> Written(ts, n) != "" && !LastKind(ts, n).Eof?)
  {
    hide Next, Written, Own, Proper;
    if n == 0 {
      assert ts[..0] == [] && Written(ts, 0) == "" by { NothingWritten(ts); }
    } else {
      LayoutIsWritten(ts, n - 1);
      assert ts[..n][..n - 1] == ts[..n - 1];
      NextIs(ts, n - 1);
      ProperKind(ts[n - 1]);
    }
  }

  lemma ProperKind(t: Token)
    requires Proper(t)
    ensures !t.kind.Eof?
  {
  }

  lemma NothingWritten(ts: seq<Token>)
    ensures Written(ts, 0) == ""
  {
  }

  /** Formatted text is its tokens with what the rules put in front of each, and a line end. */
  lemma FormatIsWritten(source: string)
    requires Lex(source, true).errors == []
    ensures var ts := Tokens(source);
            Format(source) == if ts == [] then "" else Written(ts, |ts|) + "\n"
  {
    LexedAreOwn(source);
    EofIsLast(source, true);
    var ts := Tokens(source);
    assert AllOwn(ts);
    hide Lex, Layout, Written, AllOwn;
    LayoutIsWritten(ts, |ts|);
    assert ts[..|ts|] == ts;
    if ts == [] { NothingWritten(ts); }
  }

  // ----- lines -----

  lemma {:induction false} WrittenGrows(ts: seq<Token>, m: nat, n: nat)
    requires m <= n <= |ts|
    ensures Written(ts, m) <= Written(ts, n)
    decreases n - m
  {
    hide Between, Shown;
    if m < n { WrittenGrows(ts, m, n - 1); }
  }

  /**
   A token that begins a line stands, behind the start of the text or a line end, behind exactly its indentation: four
   blanks for each open brace if it is an operand, keyword, comment or opening brace.  Within a line no line ends.
   */
  lemma LinesAreIndented(source: string, i: nat)
    requires Lex(source, true).errors == [] && i < |Tokens(source)|
    ensures var ts := Tokens(source);
            var front := if i == 0 then "" else Written(ts, i) + "\n";
            BeginsLine(ts, i) ==> front + Spaces(4 * Level(ts, i)) + Shown(ts[i]).lexeme <= Format(source)
    ensures var ts := Tokens(source);
            !BeginsLine(ts, i) ==> Written(ts, i) + (if Apart(ts, i) then " " else "") + Shown(ts[i]).lexeme <= Format(source)
  {
    var ts := Tokens(source);
    TokenStands(source, i);
    hide Lex, Tokens, Written, Format, Level, Apart, Spaces, Shown, BeginsLine;
    var w, x := Written(ts, i), Shown(ts[i]).lexeme;
    if i == 0 { NothingWritten(ts); }
    Regrouped(w, Spaces(4 * Level(ts, i)), x);
  }

  lemma TokenStands(source: string, i: nat)
    requires Lex(source, true).errors == [] && i < |Tokens(source)|
    ensures var ts := Tokens(source); Written(ts, i) + Between(ts, i) + Shown(ts[i]).lexeme <= Format(source)
  {
    hide Lex, Tokens, Written, Format, Between, Shown;
    FormatIsWritten(source);
    var ts := Tokens(source);
    WrittenGrows(ts, i + 1, |ts|);
    WrittenStep(ts, i);
    PrefixOfLonger(Written(ts, i) + Between(ts, i) + Shown(ts[i]).lexeme, Written(ts, i + 1), Written(ts, |ts|));
  }

  lemma PrefixOfLonger(a: string, b: string, c: string)
    requires a == b && b <= c
    ensures a <= c + "\n"
  {
  }

  lemma Regrouped(w: string, blanks: string, x: string)
    ensures w + ("\n" + blanks) + x == (w + "\n") + blanks + x
    ensures "" + ("" + blanks) + x == "" + blanks + x
  {
    assert "" + blanks == blanks;
  }

  /** The last line ends with the text, and only lines end with a line end. */
  lemma TextEndsLine(source: string)
    requires Lex(source, true).errors == [] && Tokens(source) != []
    ensures Format(source) != "" && Format(source)[|Format(source)| - 1] == '\n'
  {
    FormatIsWritten(source);
    hide Lex, Tokens, Written, Format;
  }
}
