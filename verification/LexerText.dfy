/**
 Which texts the lexer accepts: blanks and tokens, each token written in its form and as long as it can be.
 */
module LexerText {
  import opened Lexer
  import opened LexerFacts
  import opened LexerForms
  import M = FormatterMeaning

  /** Blanks, then a token that does not go on. */
  predicate Begins(t: string, gap: string, token: Token, after: string) {
    AllBlank(gap) && t == gap + (token.lexeme + after) && Ends(token, after)
  }

  /** The text is these tokens with blanks around them. */
  ghost predicate Consists(t: string, ts: seq<Token>)
    decreases |ts|
  {
    if ts == [] then AllBlank(t)
    else HasForm(ts[0].kind, ts[0].lexeme) && exists gap, after :: Begins(t, gap, ts[0], after) && Consists(after, ts[1..])
  }

  // ----- a token is read as far as it goes -----

  lemma WordGoesOn(u: string)
    requires u != "" && (IsLetter(u[0]) || u[0] == '_')
    ensures var r := ScanWord(u); Ends(Token(r.kind, u[..r.length]), u[r.length..])
  {
    hide WordKind, GroupOf, Span;
    var n := Span(u[1..], Word);
    assert n < |u| - 1 ==> u[1..][n] == u[1 + n];
  }

  lemma NumberGoesOn(u: string)
    requires u != "" && IsDecimal(u[0])
    ensures var r := ScanNumber(u); Ends(Token(r.kind, u[..r.length]), u[r.length..])
  {
    hide Span;
    var r := ScanNumber(u);
    var lexeme, after := u[..r.length], u[r.length..];
    if IsHex(u) {
      var n := Span(u[2..], Hexadecimal);
      assert n < |u| - 2 ==> u[2..][n] == u[2 + n];
      assert IsHex(lexeme);
    } else {
      var n := Span(u, CharClass.Decimal);
      if r.kind.Float? {
        var m := Span(u[n + 1..], CharClass.Decimal);
        assert m < |u| - n - 1 ==> u[n + 1..][m] == u[n + 1 + m];
      } else {
        assert r.length == n && !IsHex(lexeme) by { if |lexeme| > 1 { assert lexeme[0] == u[0] && lexeme[1] == u[1]; } }
        assert Ahead(after, 0) == Ahead(u, n) && Ahead(after, 1) == Ahead(u, n + 1);
        if lexeme == "0" { assert lexeme[0] == u[0] && n == 1; }
      }
    }
  }

  lemma SignGoesOn(u: string)
    requires u != "" && ScanPunctuation(u).error.None? && (u[0] == '/' ==> Ahead(u, 1) != '/' && Ahead(u, 1) != '*')
    ensures var r := ScanPunctuation(u); Ends(Token(r.kind, u[..r.length]), u[r.length..])
  {
    var r := ScanPunctuation(u);
    assert Ahead(u[r.length..], 0) == Ahead(u, r.length);
  }

  lemma LineGoesOn(u: string)
    requires |u| > 1 && u[0] == '/' && u[1] == '/'
    ensures var n := 2 + Span(u[2..], Line); Ends(Token(LineComment, u[..n]), u[n..])
  {
    hide Span;
    var n := Span(u[2..], Line);
    assert n < |u| - 2 ==> u[2..][n] == u[2 + n];
  }

  lemma TokenGoesOn(u: string)
    requires u != "" && ScanToken(u, true).error.None?
    ensures var r := ScanToken(u, true); Ends(Token(r.kind, u[..r.length]), u[r.length..])
  {
    hide Ends, ScanWord, ScanNumber, ScanPunctuation, ScanString, ScanComment, Span;
    if IsLetter(u[0]) || u[0] == '_' { WordGoesOn(u); }
    else if IsDecimal(u[0]) { NumberGoesOn(u); }
    else if u[0] == '"' { ClosedEnds(String, u); }
    else if u[0] == '/' && Ahead(u, 1) == '/' { LineGoesOn(u); }
    else if u[0] == '/' && Ahead(u, 1) == '*' { ClosedEnds(BlockComment, u); }
    else { SignGoesOn(u); }
  }

  lemma ClosedEnds(k: Kind, u: string)
    requires u != "" && (k.String? || k.BlockComment?)
    ensures k.String? ==> var r := ScanString(u); Ends(Token(r.kind, u[..r.length]), u[r.length..])
    ensures k.BlockComment? && |u| > 1 ==> var r := ScanComment(u); Ends(Token(r.kind, u[..r.length]), u[r.length..])
  {
    hide StringBody, CommentBody;
  }

  // ----- the theorem -----

  lemma {:induction false} ConsistsLexes(t: string, ts: seq<Token>)
    requires Consists(t, ts)
    ensures Lex(t, true) == Lexed(ts + [M.EOF], [])
    decreases |ts|
  {
    hide Lex, HasForm, Ends;
    if ts == [] {
      LexBlank(t);
      assert ts + [M.EOF] == [M.EOF];
    } else {
      var gap, after :| Begins(t, gap, ts[0], after) && Consists(after, ts[1..]);
      ConsistsLexes(after, ts[1..]);
      OwnIffForm(ts[0].kind, ts[0].lexeme);
      LexToken(gap, ts[0], after);
      assert [ts[0]] + (ts[1..] + [M.EOF]) == ts + [M.EOF];
    }
  }

  lemma {:induction false} SkippedBlank(t: string)
    ensures Skip(t, true).error.None? && AllBlank(t[..Skip(t, true).length])
  {
    if t != "" && In(t[0], Blank) {
      SkippedBlank(t[1..]);
      var n := Skip(t[1..], true).length;
      assert t[..1 + n] == [t[0]] + t[1..][..n];
    }
  }

  lemma {:induction false} LexedConsists(t: string)
    requires Lex(t, true).errors == []
    ensures var tokens := Lex(t, true).tokens;
            tokens != [] && tokens[|tokens| - 1] == M.EOF && Consists(t, tokens[..|tokens| - 1])
    decreases |t|
  {
    hide ScanToken, Skip, HasForm, Lex, Ends;
    LexUnfolds(t, true);
    SkippedBlank(t);
    var s := Skip(t, true);
    var gap, u := t[..s.length], t[s.length..];
    assert t == gap + u;
    if u == "" {
      assert gap == t;
    } else {
      var r := ScanToken(u, true);
      if r.kind.Eof? {
        M.EofIsError(u);
        assert false;
      } else {
        var token, after := Token(r.kind, u[..r.length]), u[r.length..];
        SkipStops(t);
        ScannedIsOwn(u);
        OwnIffForm(token.kind, token.lexeme);
        TokenGoesOn(u);
        LexedConsists(after);
        assert u == token.lexeme + after;
        assert Begins(t, gap, token, after);
        var tokens := Lex(t, true).tokens;
        assert tokens[..|tokens| - 1][1..] == Lex(after, true).tokens[..|tokens| - 2];
      }
    }
  }

  /** A text is lexed to these tokens without errors exactly if it consists of them. */
  lemma LexesIff(t: string, ts: seq<Token>)
    ensures Lex(t, true) == Lexed(ts + [M.EOF], []) <==> Consists(t, ts)
  {
    hide Lex, Consists;
    if Consists(t, ts) { ConsistsLexes(t, ts); }
    if Lex(t, true) == Lexed(ts + [M.EOF], []) {
      LexedConsists(t);
      assert (ts + [M.EOF])[..|ts|] == ts;
    }
  }
}
