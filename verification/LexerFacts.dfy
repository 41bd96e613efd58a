/** A token is read alike wherever it stands, as long as what follows does not continue it. */
module LexerFacts {
  import opened Basics
  import opened Lexer
  import opened Formatter

  /** The text `after` does not continue the token. */
  predicate Ends(t: Token, after: string) {
    var c := Ahead(after, 0);
    if IsWord(t.kind) then !In(c, Word)
    else match t.kind
      case Integer =>
        if IsHex(t.lexeme) then !In(c, Hexadecimal)
        else !IsDecimal(c) && !(t.lexeme == "0" && (c == 'x' || c == 'X')) && !(c == '.' && IsDecimal(Ahead(after, 1)))
      case Float => !IsDecimal(c)
      case Bang => c != '='
      case Equal => c != '='
      case Less => c != '='
      case Greater => c != '='
      case Ampersand => c != '&'
      case Slash => c != '/' && c != '*'
      case LineComment => !In(c, Line)
      case _ => true
  }

  /** The lexer reads exactly this token from its lexeme. */
  predicate Own(t: Token) {
    t.lexeme != "" && !t.kind.Eof? && ScanToken(t.lexeme, true) == Scan(t.kind, |t.lexeme|, None)
  }

  lemma {:induction false} SpanCut(t: string, after: string, cls: CharClass)
    requires after == "" || !In(after[0], cls)
    ensures Span(t[..Span(t, cls)] + after, cls) == Span(t, cls)
  {
    var n := Span(t, cls);
    var u := t[..n] + after;
    if n == 0 {
      assert u == after;
    } else {
      assert t[1..][..n - 1] == t[..n][1..];
      assert u[1..] == t[1..][..n - 1] + after;
      SpanCut(t[1..], after, cls);
    }
  }

  lemma {:induction false} StringCut(t: string, after: string)
    requires Ahead(t, StringBody(t)) == '"'
    ensures var n := StringBody(t); StringBody(t[..n + 1] + after) == n
  {
    var n := StringBody(t);
    var u := t[..n + 1] + after;
    if n == 0 {
    } else if t[0] == '\\' && Ahead(t, 1) != NUL {
      assert u[2..] == t[2..][..n - 1] + after;
      StringCut(t[2..], after);
    } else {
      assert u[1..] == t[1..][..n] + after;
      StringCut(t[1..], after);
    }
  }

  lemma {:induction false} CommentCut(t: string, after: string)
    requires Ahead(t, CommentBody(t)) == '*'
    ensures var n := CommentBody(t); n + 2 <= |t| && CommentBody(t[..n + 2] + after) == n
  {
    var n := CommentBody(t);
    assert Ahead(t, n + 1) == '/';
    var u := t[..n + 2] + after;
    if n > 0 {
      assert u[1..] == t[1..][..n + 1] + after;
      CommentCut(t[1..], after);
    }
  }

  lemma WordCut(t: string, after: string)
    requires t != "" && !In(Ahead(after, 0), Word)
    ensures var r := ScanWord(t); ScanWord(t[..r.length] + after) == r
  {
    var n := Span(t[1..], Word);
    SpanCut(t[1..], after, Word);
    var u := t[..1 + n] + after;
    assert u[1..] == t[1..][..n] + after;
    assert u[..1 + n] == t[..1 + n];
  }

  lemma NumberCut(t: string, after: string)
    requires t != "" && IsDecimal(t[0])
    requires var r := ScanNumber(t); Ends(Token(r.kind, t[..r.length]), after)
    ensures var r := ScanNumber(t); ScanNumber(t[..r.length] + after) == r
  {
    hide Ends, Span;
    var r := ScanNumber(t);
    EndsNumber(t, after);
    if IsHex(t) {
      HexCut(t, after);
    } else if r.kind.Float? {
      FloatCut(t, after);
    } else {
      IntegerCut(t, after);
    }
  }

  lemma HexCut(t: string, after: string)
    requires t != "" && IsDecimal(t[0]) && IsHex(t) && !In(Ahead(after, 0), Hexadecimal)
    ensures var r := ScanNumber(t); ScanNumber(t[..r.length] + after) == r
  {
    hide Span;
    var r := ScanNumber(t);
    var u := t[..r.length] + after;
    SpanCut(t[2..], after, Hexadecimal);
    assert u[2..] == t[2..][..r.length - 2] + after;
    assert u[0] == t[0] && u[1] == t[1];
  }

  lemma IntegerCut(t: string, after: string)
    requires t != "" && IsDecimal(t[0]) && !IsHex(t) && ScanNumber(t).kind.Integer? && !IsDecimal(Ahead(after, 0))
    requires !(Ahead(after, 0) == '.' && IsDecimal(Ahead(after, 1)))
    requires t[..ScanNumber(t).length] == "0" ==> Ahead(after, 0) != 'x' && Ahead(after, 0) != 'X'
    ensures var r := ScanNumber(t); ScanNumber(t[..r.length] + after) == r
  {
    hide Span, IsHex;
    var r := ScanNumber(t);
    var u := t[..r.length] + after;
    SpanCut(t, after, Decimal);
    NotHex(t, r.length, after);
    assert Ahead(u, r.length) == Ahead(after, 0) && Ahead(u, r.length + 1) == Ahead(after, 1);
  }

  /** What ends a number. */
  lemma EndsNumber(t: string, after: string)
    requires t != "" && IsDecimal(t[0])
    requires var r := ScanNumber(t); Ends(Token(r.kind, t[..r.length]), after)
    ensures IsHex(t) ==> !In(Ahead(after, 0), Hexadecimal)
    ensures !IsHex(t) ==> !IsDecimal(Ahead(after, 0))
    ensures var r := ScanNumber(t);
            !IsHex(t) && r.kind.Integer? ==>
              && !(Ahead(after, 0) == '.' && IsDecimal(Ahead(after, 1)))
              && (t[..r.length] == "0" ==> Ahead(after, 0) != 'x' && Ahead(after, 0) != 'X')
  {
    hide Span;
    var r := ScanNumber(t);
    var lexeme := t[..r.length];
    if IsHex(t) {
      assert IsHex(lexeme);
    } else if |lexeme| > 1 {
      assert lexeme[0] == t[0] && lexeme[1] == t[1];
    }
  }

  lemma FloatCut(t: string, after: string)
    requires t != "" && IsDecimal(t[0]) && !IsHex(t) && ScanNumber(t).kind.Float? && !IsDecimal(Ahead(after, 0))
    ensures var r := ScanNumber(t); ScanNumber(t[..r.length] + after) == r
  {
    hide IsHex;
    var n := Span(t, Decimal);
    var m := Span(t[n + 1..], Decimal);
    var rest := t[n..n + 1 + m] + after;
    var u := t[..n + 1 + m] + after;
    FloatParts(t, n, m, after);
    SpanCut(t, rest, Decimal);
    NotHex(t, n, rest);
    SpanCut(t[n + 1..], after, Decimal);
    hide Span;
    assert ScanNumber(u) == Scan(Float, n + 1 + m, None);
  }

  lemma FloatParts(t: string, n: nat, m: nat, after: string)
    requires n + 1 + m <= |t| && m > 0 && t[n] == '.'
    ensures var rest, u := t[n..n + 1 + m] + after, t[..n + 1 + m] + after;
            && u == t[..n] + rest && rest[0] == '.' && u[n + 1..] == t[n + 1..][..m] + after
            && Ahead(u, n) == '.' && Ahead(u, n + 1) == t[n + 1]
  {
  }

  lemma NotHex(t: string, n: nat, rest: string)
    requires t != "" && IsDecimal(t[0]) && !IsHex(t) && n == Span(t, Decimal)
    requires t[..n] == "0" ==> Ahead(rest, 0) != 'x' && Ahead(rest, 0) != 'X'
    ensures !IsHex(t[..n] + rest)
  {
    var u := t[..n] + rest;
    assert u[0] == t[0];
    if n == 1 && t[0] == '0' {
      assert t[..1] == "0";
    } else if n > 1 {
      assert u[1] == t[1];
    }
  }

  lemma PunctuationCut(t: string, after: string)
    requires t != "" && ScanPunctuation(t).error.None?
    requires var r := ScanPunctuation(t); Ends(Token(r.kind, t[..r.length]), after)
    ensures var r := ScanPunctuation(t); ScanPunctuation(t[..r.length] + after) == r
  {
    var r := ScanPunctuation(t);
    var u := t[..r.length] + after;
    assert u[0] == t[0];
    if r.length == 1 {
      assert Ahead(u, 1) == Ahead(after, 0);
    } else {
      assert Ahead(u, 1) == t[1];
    }
  }

  lemma StringTokenCut(t: string, after: string)
    requires t != "" && t[0] == '"' && ScanString(t).error.None?
    ensures var r := ScanString(t); ScanString(t[..r.length] + after) == r
  {
    hide StringBody;
    var r := ScanString(t);
    var u := t[..r.length] + after;
    StringCut(t[1..], after);
    assert u[1..] == t[1..][..r.length - 1] + after;
    assert u[r.length - 1] == t[r.length - 1];
  }

  lemma LineTokenCut(t: string, after: string)
    requires Ahead(t, 0) == '/' && Ahead(t, 1) == '/' && !In(Ahead(after, 0), Line)
    ensures var n := 2 + Span(t[2..], Line);
            var u := t[..n] + after;
            u[0] == '/' && Ahead(u, 1) == '/' && 2 + Span(u[2..], Line) == n
  {
    hide Span;
    var n := 2 + Span(t[2..], Line);
    SpanCut(t[2..], after, Line);
    assert (t[..n] + after)[2..] == t[2..][..n - 2] + after;
  }

  lemma BlockTokenCut(t: string, after: string)
    requires Ahead(t, 0) == '/' && Ahead(t, 1) == '*' && ScanComment(t).error.None?
    ensures var r := ScanComment(t);
            var u := t[..r.length] + after;
            u[0] == '/' && Ahead(u, 1) == '*' && ScanComment(u) == r
  {
    hide CommentBody;
    var r := ScanComment(t);
    var u := t[..r.length] + after;
    CommentCut(t[2..], after);
    assert u[1] == t[1];
    assert u[2..] == t[2..][..r.length - 2] + after;
    assert u[r.length - 2] == t[r.length - 2];
  }

  /** The token at the front of a text is read from its lexeme alone, and from its lexeme with anything that ends it. */
  lemma ScanCut(t: string, after: string)
    requires t != "" && ScanToken(t, true).error.None?
    requires var r := ScanToken(t, true); Ends(Token(r.kind, t[..r.length]), after)
    ensures var r := ScanToken(t, true); ScanToken(t[..r.length] + after, true) == r
  {
    hide ScanWord, ScanNumber, ScanPunctuation, ScanString, ScanComment, Span;
    var r := ScanToken(t, true);
    assert (t[..r.length] + after)[0] == t[0];
    ScanKinds(t);
    if IsLetter(t[0]) || t[0] == '_' {
      WordCut(t, after);
    } else if IsDecimal(t[0]) {
      NumberCut(t, after);
    } else if t[0] == '"' {
      StringTokenCut(t, after);
    } else if t[0] == '/' && Ahead(t, 1) == '/' {
      LineTokenCut(t, after);
    } else if t[0] == '/' && Ahead(t, 1) == '*' {
      BlockTokenCut(t, after);
    } else {
      PunctuationCut(t, after);
      SlashApart(t, after);
    }
  }

  /** What the scanners yield. */
  lemma ScanKinds(t: string)
    requires t != ""
    ensures IsWord(ScanWord(t).kind)
    ensures IsDecimal(t[0]) ==> ScanNumber(t).kind in {Integer, Float}
    ensures ScanPunctuation(t).error.None? ==> IsPunctuation(ScanPunctuation(t).kind)
    ensures ScanPunctuation(t).error.None? ==> t[..ScanPunctuation(t).length] == Spelling(ScanPunctuation(t).kind)
  {
  }

  /** A slash that starts no comment still starts none. */
  lemma SlashApart(t: string, after: string)
    requires t != "" && ScanPunctuation(t).error.None?
    requires t[0] == '/' ==> Ahead(t, 1) != '/' && Ahead(t, 1) != '*'
    requires var r := ScanPunctuation(t); Ends(Token(r.kind, t[..r.length]), after)
    ensures var u := t[..ScanPunctuation(t).length] + after;
            u[0] == '/' ==> Ahead(u, 1) != '/' && Ahead(u, 1) != '*'
  {
  }

  // ----- tokens of an error-free text -----

  lemma EndsAtEnd(t: Token)
    ensures Ends(t, "")
  {
  }

  lemma ScannedIsOwn(t: string)
    requires t != "" && ScanToken(t, true).error.None? && !In(t[0], Blank)
    ensures var r := ScanToken(t, true); Own(Token(r.kind, t[..r.length])) && Proper(Token(r.kind, t[..r.length]))
  {
    var r := ScanToken(t, true);
    var token := Token(r.kind, t[..r.length]);
    EndsAtEnd(token);
    ScanCut(t, "");
    assert token.lexeme + "" == token.lexeme;
    ScannedIsProper(t);
  }

  lemma ScannedIsProper(t: string)
    requires t != "" && ScanToken(t, true).error.None?
    ensures var r := ScanToken(t, true); Proper(Token(r.kind, t[..r.length]))
  {
    hide ScanWord, ScanNumber, ScanPunctuation, Spelling;
    ScanKinds(t);
    LastOfWord(t);
    var r := ScanToken(t, true);
    var lexeme := t[..r.length];
    if IsPunctuation(r.kind) {
      SpellingSolid(r.kind);
    } else if r.kind.LineComment? {
      assert lexeme[..2] == "//";
    }
  }

  /** Words and numbers end in a letter, a digit or an underscore. */
  lemma LastOfWord(t: string)
    requires t != ""
    ensures In(t[0], Word) ==> Solid(t[ScanWord(t).length - 1])
    ensures IsDecimal(t[0]) ==> Solid(t[ScanNumber(t).length - 1])
  {
    hide WordKind, IsHex;
    if In(t[0], Word) {
      assert In(t[ScanWord(t).length - 1], Word);
    }
    if IsDecimal(t[0]) { LastOfNumber(t); }
  }

  lemma LastOfNumber(t: string)
    requires t != "" && IsDecimal(t[0])
    ensures Solid(t[ScanNumber(t).length - 1])
  {
  }

  lemma SpellingSolid(k: Kind)
    requires IsPunctuation(k)
    ensures Spelling(k) != "" && Solid(Spelling(k)[|Spelling(k)| - 1])
  {
  }

  /** A line comment without its trailing blanks is a line comment. */
  lemma ShownIsOwn(t: Token)
    requires Own(t) && Proper(t)
    ensures Own(Shown(t)) && Proper(Shown(t))
  {
    ShownIsSolid(t);
    if t.kind.LineComment? { CommentIsOwn(t); }
  }

  lemma CommentIsOwn(t: Token)
    requires Own(t) && Proper(t) && t.kind.LineComment? && Proper(Shown(t))
    ensures Own(Shown(t))
  {
    hide ScanWord, ScanNumber, ScanPunctuation, ScanComment, ScanString, WordKind, GroupOf;
    ScanKinds(t.lexeme);
    var q := Shown(t).lexeme;
    assert q[..2] == "//" && t.lexeme[..2] == "//";
    assert q[0] == '/' && q[1] == '/' && t.lexeme[0] == '/' && t.lexeme[1] == '/';
    SpanAll(t.lexeme[2..], |q| - 2);
    assert t.lexeme[2..][..|q| - 2] == q[2..];
  }

  lemma {:induction false} SpanAll(t: string, n: nat)
    requires Span(t, Line) == |t| && n <= |t|
    ensures Span(t[..n], Line) == n
  {
    if n > 0 {
      assert t[..n][1..] == t[1..][..n - 1];
      SpanAll(t[1..], n - 1);
    }
  }

  // ----- reading a token behind blanks -----

  predicate AllBlank(s: string) {
    forall c <- s :: In(c, Blank)
  }

  lemma {:induction false} SkipBlanks(gap: string, t: string)
    requires AllBlank(gap) && (t == "" || !In(t[0], Blank))
    ensures Skip(gap + t, true) == Skipped(|gap|, None)
  {
    if gap == "" {
      assert gap + t == t;
    } else {
      assert (gap + t)[1..] == gap[1..] + t;
      SkipBlanks(gap[1..], t);
    }
  }

  lemma OwnStart(t: Token)
    requires Own(t)
    ensures !In(t.lexeme[0], Blank)
  {
  }

  /** Blanks, a token, and what ends it. */
  lemma LexToken(gap: string, t: Token, after: string)
    requires AllBlank(gap) && Own(t) && Ends(t, after)
    ensures Lex(gap + (t.lexeme + after), true) == Before(t, [], Lex(after, true))
  {
    hide ScanToken, Ends;
    OwnStart(t);
    var u := t.lexeme + after;
    SkipBlanks(gap, u);
    assert (gap + u)[|gap|..] == u;
    assert t.lexeme[..|t.lexeme|] == t.lexeme;
    ScanCut(t.lexeme, after);
    LexUnfolds(gap + u, true);
    assert u[..|t.lexeme|] == t.lexeme && u[|t.lexeme|..] == after;
  }

  /** Blanks only. */
  lemma LexBlank(gap: string)
    requires AllBlank(gap)
    ensures Lex(gap, true) == Lexed([Token(Eof, "")], [])
  {
    SkipBlanks(gap, "");
    assert gap + "" == gap;
    LexUnfolds(gap, true);
  }

  /** All tokens of an error-free text are as the lexer reads them anywhere. */
  lemma {:induction false} LexedAreOwn(t: string)
    requires Lex(t, true).errors == []
    ensures var tokens := Lex(t, true).tokens;
            forall k :: 0 <= k < |tokens| - 1 ==> Own(tokens[k]) && Proper(tokens[k])
    decreases |t|
  {
    hide ScanToken, Skip, Own, Proper;
    LexUnfolds(t, true);
    var s := Skip(t, true);
    var u := t[s.length..];
    if u != "" {
      SkipStops(t);
      var r := ScanToken(u, true);
      if !r.kind.Eof? {
        ScannedIsOwn(u);
        LexedAreOwn(u[r.length..]);
      }
    }
  }

  lemma {:induction false} SkipStops(t: string)
    ensures var u := t[Skip(t, true).length..]; u == "" || !In(u[0], Blank)
  {
    if t != "" && In(t[0], Blank) {
      SkipStops(t[1..]);
      assert t[1..][Skip(t[1..], true).length..] == t[Skip(t, true).length..];
    }
  }
}
