/**
 The source formatter.  Its layout is a function of the tokens: what is written in front of a token depends on
 the token before it, the pending blank or line end, and the depth of braces.

 Class `Writer` appends to the output and trims it, as the formatter does; it is proved to produce that layout.
 */
module Formatter {
  import opened Lexer

  predicate IsBinaryOperator(k: Kind) {
    k in {Plus, Minus, Slash, Percent, Equal, EqualEqual, BangEqual, Less, LessEqual, Greater, GreaterEqual,
          AndAnd, OrOr, AsKw}
  }

  /** A line end follows the token. */
  predicate EndsLine(k: Kind) {
    k in {LineComment, BlockComment, LBrace, RBrace, Semicolon}
  }

  /** Nothing is written between the token before and this one. */
  predicate IsTight(k: Kind) {
    k in {Semicolon, Comma, Colon, Dot, LBracket, RBracket, RParen}
  }

  /** After these, a star, an ampersand or a bang is a prefix operator. */
  predicate BeforePrefix(k: Kind) {
    k in {Colon, LParen, Comma, Equal, AsKw, ReturnKw, LBracket, Eof}
  }

  /** Operands and keywords go right behind these. */
  predicate TightAfter(k: Kind) {
    k in {LParen, LBracket, Dot, Star, Ampersand, Bang}
  }

  // ----- text -----

  predicate IsPad(c: char) {
    c == ' ' || c == '\t'
  }

  function Trim(s: string): (r: string)
    ensures |r| <= |s| && r == s[..|r|] && (r != "" ==> !IsPad(r[|r| - 1]))
    ensures forall k :: |r| <= k < |s| ==> IsPad(s[k])
  {
    if s != "" && IsPad(s[|s| - 1]) then Trim(s[..|s| - 1]) else s
  }

  function Spaces(n: nat): string {
    seq(n, _ => ' ')
  }

  /** A token as the formatter shows it: line comments lose their trailing blanks. */
  function Shown(t: Token): Token {
    if t.kind.LineComment? then t.(lexeme := Trim(t.lexeme)) else t
  }

  // ----- the layout -----

  /** The output so far: `base` ends with the last token, `pad` is what was written behind it. */
  datatype State = State(base: string, pad: string, indent: nat, prev: Kind)

  const START := State("", "", 0, Eof)

  predicate AtLineStart(s: State) {
    s.base == "" || s.pad == "\n"
  }

  function Margin(s: State, indent: nat): string {
    if AtLineStart(s) then s.pad + Spaces(4 * indent) else s.pad
  }

  /** Only a line end stays, if there is one. */
  function Tight(s: State): string {
    if s.pad == "\n" then "\n" else ""
  }

  function Separated(s: State): string {
    if AtLineStart(s) then Margin(s, s.indent) else " "
  }

  function Dedent(n: nat): nat {
    if n == 0 then 0 else n - 1
  }

  predicate IsPrefix(s: State, k: Kind) {
    k != Star || BeforePrefix(s.prev)
  }

  /** What stands between the token before and a token of kind `k`. */
  function Gap(s: State, k: Kind): string {
    if k.LineComment? || k.BlockComment? || k.LBrace? then Separated(s)
    else if k.RBrace? then (if AtLineStart(s) then s.pad else "\n") + Spaces(4 * Dedent(s.indent))
    else if IsTight(k) then Tight(s)
    else if k.LParen? then if s.prev.IfKw? || s.prev.WhileKw? then Separated(s) else Tight(s)
    else if IsBinaryOperator(k) then if AtLineStart(s) then s.pad else " "
    else if k.Star? || k.Ampersand? || k.Bang? then if IsPrefix(s, k) then Tight(s) else Separated(s)
    else if TightAfter(s.prev) || s.prev.Eof? || EndsOpen(s.prev) || IsBinaryOperator(s.prev) then Margin(s, s.indent)
    else Separated(s)
  }

  predicate EndsOpen(k: Kind) {
    k.LBrace? || k.LineComment? || k.BlockComment?
  }

  function Pad(s: State, k: Kind): string {
    if EndsLine(k) then "\n"
    else if k.Comma? || k.Colon? || IsBinaryOperator(k) || (k.Star? && !IsPrefix(s, k)) then " "
    else ""
  }

  function Indent(s: State, k: Kind): nat {
    if k.LBrace? then s.indent + 1 else if k.RBrace? then Dedent(s.indent) else s.indent
  }

  function Next(s: State, t: Token): State {
    State(s.base + Gap(s, t.kind) + Shown(t).lexeme, Pad(s, t.kind), Indent(s, t.kind), t.kind)
  }

  /** The layout of a sequence of tokens, without the end-of-file one. */
  function Layout(tokens: seq<Token>): State {
    if tokens == [] then START else Next(Layout(tokens[..|tokens| - 1]), tokens[|tokens| - 1])
  }

  function Finished(s: State): string {
    if s.base == "" then "" else s.base + "\n"
  }

  /** What formatting makes of a source text; one with errors stays as it is. */
  function Format(source: string): string {
    var r := Lex(source, true);
    if r.errors != [] then source else Finished(Layout(r.tokens[..|r.tokens| - 1]))
  }

  // ----- tokens and states that occur -----

  predicate Solid(c: char) {
    c != ' ' && c != '\t' && c != '\n'
  }

  /** A token as the lexer makes them. */
  predicate Proper(t: Token) {
    && t.lexeme != "" && !t.kind.Eof?
    && (IsPunctuation(t.kind) ==> t.lexeme == Spelling(t.kind))
    && (if t.kind.LineComment? then |t.lexeme| >= 2 && t.lexeme[..2] == "//" && '\n' !in t.lexeme
        else Solid(t.lexeme[|t.lexeme| - 1]))
  }

  predicate Good(s: State) {
    if s.base == "" then s == START
    else
      && Solid(s.base[|s.base| - 1]) && !s.prev.Eof?
      && (s.pad == "\n" <==> EndsLine(s.prev))
      && (s.pad == " " <== s.prev.Comma? || s.prev.Colon? || IsBinaryOperator(s.prev))
      && (s.pad == "" || s.pad == "\n" || (s.pad == " " && (s.prev.Star? || s.prev.Comma? || s.prev.Colon? || IsBinaryOperator(s.prev))))
  }

  lemma ShownIsSolid(t: Token)
    requires Proper(t)
    ensures Shown(t).lexeme != "" && Solid(Shown(t).lexeme[|Shown(t).lexeme| - 1]) && Proper(Shown(t))
  {
    if t.kind.LineComment? {
      var r := Trim(t.lexeme);
      assert t.lexeme[0] == '/' && t.lexeme[1] == '/';
      assert |r| >= 2;
      assert r[..2] == t.lexeme[..2];
      assert forall k :: 0 <= k < |r| ==> r[k] == t.lexeme[k];
    }
  }

  lemma NextIsGood(s: State, t: Token)
    requires Good(s) && Proper(t)
    ensures Good(Next(s, t)) && Next(s, t).base != ""
  {
    ShownIsSolid(t);
  }

  // ----- the writer -----

  /** Trimming stops at the first character from the end that is no padding. */
  lemma {:induction false} TrimIs(s: string, n: nat)
    requires n <= |s| && (forall k :: n <= k < |s| ==> IsPad(s[k])) && (n == 0 || !IsPad(s[n - 1]))
    ensures Trim(s) == s[..n]
  {
    if n < |s| {
      TrimIs(s[..|s| - 1], n);
      assert s[..|s| - 1][..n] == s[..n];
    }
  }

  lemma TrimPad(base: string, pad: string)
    requires base == "" || !IsPad(base[|base| - 1])
    ensures Trim(base + pad) == base + Trim(pad)
  {
    var q := Trim(pad);
    assert forall k :: |q| <= k < |pad| ==> (base + pad)[|base| + k] == pad[k];
    TrimIs(base + pad, |base| + |q|);
    assert (base + pad)[..|base| + |q|] == base + q;
  }

  class Writer {
    var out: string
    var indent: nat
    var lineStart: bool
    var prev: Kind
    ghost var state: State

    ghost predicate Valid()
      reads this
    {
      && Good(state) && out == state.base + state.pad && lineStart == AtLineStart(state)
      && indent == state.indent && prev == state.prev
    }

    constructor ()
      ensures Valid() && state == START
    {
      out, indent, lineStart, prev, state := "", 0, true, Eof, START;
    }

    method WriteIndent()
      modifies this`out, this`lineStart
      ensures !lineStart && out == if old(lineStart) then old(out) + Spaces(4 * indent) else old(out)
    {
      if lineStart {
        out := out + Spaces(4 * indent);
        lineStart := false;
      }
    }

    method TrimSpace()
      modifies this`out
      ensures out == Trim(old(out))
    {
      while out != "" && IsPad(out[|out| - 1])
        invariant Trim(out) == Trim(old(out))
        decreases |out|
      {
        out := out[..|out| - 1];
      }
    }

    method Space()
      modifies this`out
      ensures out == if old(out) != "" && old(out)[|old(out)| - 1] != ' ' && old(out)[|old(out)| - 1] != '\n'
                     then old(out) + " " else old(out)
    {
      if out != "" && out[|out| - 1] != ' ' && out[|out| - 1] != '\n' { out := out + " "; }
    }

    method NewLine()
      modifies this`out, this`lineStart
      ensures lineStart
      ensures var trimmed := Trim(old(out));
              out == if trimmed == "" || trimmed[|trimmed| - 1] != '\n' then trimmed + "\n" else trimmed
    {
      TrimSpace();
      if out == "" || out[|out| - 1] != '\n' { out := out + "\n"; }
      lineStart := true;
    }

    /** Leaves the margin and one blank, unless at the start of a line. */
    method Separate()
      requires Valid()
      modifies this`out, this`lineStart
      ensures !lineStart && out == state.base + Separated(state)
    {
      WriteIndent();
      assert out == state.base + Margin(state, indent);
      Space();
    }

    /** Takes back the margin and any pending blank. */
    method Tighten()
      requires Valid()
      modifies this`out, this`lineStart
      ensures !lineStart && out == state.base + Tight(state)
    {
      ghost var margin := Margin(state, indent);
      WriteIndent();
      assert out == state.base + margin;
      TrimPad(state.base, margin);
      TrimMargin(state);
      TrimSpace();
    }

    /** Appends the text of a token that ends its line. */
    method AppendLine(text: string, ghost t: Token, ghost front: string)
      requires out == front && Proper(t) && text == t.lexeme
      modifies this`out, this`lineStart
      ensures lineStart && out == front + Shown(t).lexeme + "\n"
    {
      out := out + text;
      TrimShown(front, t);
      ShownIsSolid(t);
      NewLine();
    }

    method Write(t: Token)
      requires Valid() && Proper(t)
      modifies this
      ensures Valid() && state == Next(old(state), t)
    {
      NextIsGood(state, t);
      ghost var s := state;
      if EndsLine(t.kind) { WriteLine(t); } else { WriteInline(t); }
      prev := t.kind;
      state := Next(s, t);
    }

    /** The tokens that end their line. */
    method WriteLine(t: Token)
      requires Valid() && Proper(t) && EndsLine(t.kind)
      modifies this`out, this`lineStart, this`indent
      ensures lineStart && indent == Indent(state, t.kind)
      ensures out == state.base + Gap(state, t.kind) + Shown(t).lexeme + "\n"
    {
      ghost var front := state.base + Gap(state, t.kind);
      if t.kind.LineComment? {
        Separate();
        AppendLine(t.lexeme, t, front);
      } else if t.kind.BlockComment? {
        Separate();
        AppendLine(t.lexeme, t, front);
      } else if t.kind.RBrace? {
        CloseBrace();
        AppendLine("}", t, front);
      } else if t.kind.LBrace? {
        Separate();
        AppendLine("{", t, front);
        indent := indent + 1;
      } else {
        TrimPad(state.base, state.pad);
        TrimMargin(state);
        TrimSpace();
        AppendLine(";", t, front);
      }
    }

    /** Goes to a new line and back by one level. */
    method CloseBrace()
      requires Valid()
      modifies this`out, this`lineStart, this`indent
      ensures !lineStart && indent == Dedent(old(indent)) && out == state.base + Gap(state, RBrace)
    {
      if !lineStart {
        TrimPad(state.base, state.pad);
        TrimMargin(state);
        NewLine();
      }
      indent := if indent == 0 then 0 else indent - 1;
      WriteIndent();
    }

    /** All tokens that do not end a line. */
    method WriteInline(t: Token)
      requires Valid() && Proper(t) && !EndsLine(t.kind)
      modifies this`out, this`lineStart
      ensures !lineStart && out == state.base + Gap(state, t.kind) + t.lexeme + Pad(state, t.kind)
    {
      hide Good;
      if IsTight(t.kind) {
        WriteTight(t);
      } else if t.kind.LParen? {
        if prev.IfKw? || prev.WhileKw? { Separate(); } else { Tighten(); }
        out := out + "(";
      } else if IsBinaryOperator(t.kind) {
        Tighten();
        SpaceIsGap(state, t.kind);
        Space();
        out := out + t.lexeme + " ";
      } else if t.kind.Star? || t.kind.Ampersand? || t.kind.Bang? {
        WriteSign(t);
      } else {
        WriteOperand(t);
      }
    }

    method WriteTight(t: Token)
      requires Valid() && Proper(t) && IsTight(t.kind) && !EndsLine(t.kind)
      modifies this`out, this`lineStart
      ensures !lineStart && out == state.base + Gap(state, t.kind) + t.lexeme + Pad(state, t.kind)
    {
      Tighten();
      if t.kind.Comma? { out := out + ", "; }
      else if t.kind.Colon? { out := out + ": "; }
      else if t.kind.Dot? { out := out + "."; }
      else if t.kind.LBracket? { out := out + "["; }
      else if t.kind.RBracket? { out := out + "]"; }
      else { out := out + ")"; }
    }

    method WriteSign(t: Token)
      requires Valid() && Proper(t) && (t.kind.Star? || t.kind.Ampersand? || t.kind.Bang?)
      modifies this`out, this`lineStart
      ensures !lineStart && out == state.base + Gap(state, t.kind) + t.lexeme + Pad(state, t.kind)
    {
      var prefix := prev.Colon? || prev.LParen? || prev.Comma? || prev.Equal? || prev.AsKw? || prev.ReturnKw? ||
                    prev.LBracket? || prev.Eof?;
      if !prefix && t.kind.Star? {
        Separate();
        out := out + "*" + " ";
      } else {
        Tighten();
        out := out + t.lexeme;
      }
    }

    method WriteOperand(t: Token)
      requires Valid() && Proper(t) && !EndsLine(t.kind) && !IsTight(t.kind) && !t.kind.LParen?
      requires !IsBinaryOperator(t.kind) && !t.kind.Star? && !t.kind.Ampersand? && !t.kind.Bang?
      modifies this`out, this`lineStart
      ensures !lineStart && out == state.base + Gap(state, t.kind) + t.lexeme + Pad(state, t.kind)
    {
      var tightAfter := prev.LParen? || prev.LBracket? || prev.Dot? || prev.Star? || prev.Ampersand? || prev.Bang?;
      ghost var margin := Margin(state, indent);
      if !tightAfter && !prev.Eof? && !prev.LBrace? && !prev.LineComment? && !prev.BlockComment? && !IsBinaryOperator(prev) {
        Separate();
      } else {
        WriteIndent();
        assert out == state.base + margin;
      }
      out := out + t.lexeme;
    }

    /** The final line end. */
    method Finish()
      requires Valid()
      modifies this`out, this`lineStart
      ensures out == Finished(state)
    {
      if !lineStart {
        TrimPad(state.base, state.pad);
        TrimMargin(state);
        NewLine();
      }
    }
  }

  /** Trimming what is behind the last token leaves only a line end. */
  lemma TrimMargin(s: State)
    requires Good(s)
    ensures Trim(Margin(s, s.indent)) == Tight(s) && Trim(s.pad) == Tight(s)
  {
    TrimIs(Margin(s, s.indent), |Tight(s)|);
    TrimIs(s.pad, |Tight(s)|);
  }

  /** One blank after trimming, unless a line or the text starts here. */
  lemma SpaceIsGap(s: State, k: Kind)
    requires Good(s) && IsBinaryOperator(k)
    ensures var out := s.base + Tight(s);
            s.base + Gap(s, k) == if out != "" && out[|out| - 1] != ' ' && out[|out| - 1] != '\n' then out + " " else out
  {
  }

  lemma TrimShown(front: string, t: Token)
    requires Proper(t)
    ensures Trim(front + t.lexeme) == front + Shown(t).lexeme
  {
    ShownIsSolid(t);
    ShownIsPart(t);
    hide Proper, Shown, Trim;
    TrimTail(front, Shown(t).lexeme, t.lexeme);
  }

  lemma ShownIsPart(t: Token)
    requires Proper(t)
    ensures var q := Shown(t).lexeme;
            |q| <= |t.lexeme| && q == t.lexeme[..|q|] && forall k :: |q| <= k < |t.lexeme| ==> IsPad(t.lexeme[k])
  {
  }

  /** Padding behind solid text is all that goes. */
  lemma TrimTail(front: string, q: string, text: string)
    requires q != "" && Solid(q[|q| - 1]) && |q| <= |text| && q == text[..|q|]
    requires forall k :: |q| <= k < |text| ==> IsPad(text[k])
    ensures Trim(front + text) == front + q
  {
    var whole, n := front + text, |front| + |q|;
    assert whole[n - 1] == q[|q| - 1];
    assert forall k :: n <= k < |whole| ==> whole[k] == text[k - |front|];
    TrimIs(whole, n);
    assert whole[..n] == front + q;
  }
}
