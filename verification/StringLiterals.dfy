/**
 How text is spelled in string literals, of programs and of database scripts: a character stands for itself or is
 written by its escape.  Decoding a literal gives exactly the text it spells.
 */
module StringLiterals {
  import opened Basics
  import opened Lexer
  import E = Expressions
  import opened DatabaseLexer

  /** Behind a backslash, `n`, `r`, `t` and, in programs, `0` stand for a control character, others for themselves. */
  predicate Stands(zero: bool, c: char, t: char) {
    || (c == 'n' && t == '\n')
    || (c == 'r' && t == '\r')
    || (c == 't' && t == '\t')
    || (zero && c == '0' && t == '\0')
    || (c !in "nrt" && !(zero && c == '0') && t == c)
  }

  /** The characters between the quotes spell the text. */
  predicate Spells(zero: bool, b: string, text: string) {
    if b == "" then text == ""
    else if text == "" then false
    else if b[0] == '\\' then |b| > 1 && Stands(zero, b[1], text[0]) && Spells(zero, b[2..], text[1..])
    else b[0] == text[0] && Spells(zero, b[1..], text[1..])
  }

  /** No backslash is left over at the end. */
  predicate WellEscaped(b: string) {
    b == "" || (if b[0] == '\\' then |b| > 1 && WellEscaped(b[2..]) else WellEscaped(b[1..]))
  }

  lemma {:induction false} SpelledIsWellEscaped(zero: bool, b: string, text: string)
    requires Spells(zero, b, text)
    ensures WellEscaped(b)
    decreases |b|
  {
    if b != "" {
      if b[0] == '\\' { SpelledIsWellEscaped(zero, b[2..], text[1..]); } else { SpelledIsWellEscaped(zero, b[1..], text[1..]); }
    }
  }

  /** A literal spells one text. */
  lemma {:induction false} SpellsOne(zero: bool, b: string, text: string, other: string)
    requires Spells(zero, b, text) && Spells(zero, b, other)
    ensures text == other
    decreases |b|
  {
    if b != "" {
      assert text == [text[0]] + text[1..] && other == [other[0]] + other[1..];
      if b[0] == '\\' { SpellsOne(zero, b[2..], text[1..], other[1..]); } else { SpellsOne(zero, b[1..], text[1..], other[1..]); }
    }
  }

  // ----- programs -----

  lemma {:induction false} DecodesFrom(lexeme: string, i: nat, b: string)
    requires 0 < i && i + |b| + 1 == |lexeme| && lexeme[i..i + |b|] == b && WellEscaped(b)
    ensures Spells(true, b, E.DecodeFrom(lexeme, i))
    decreases |b|
  {
    if b != "" {
      assert lexeme[i] == b[0];
      if b[0] == '\\' {
        assert lexeme[i + 1] == b[1];
        assert lexeme[i + 2..i + 2 + |b[2..]|] == b[2..];
        DecodesFrom(lexeme, i + 2, b[2..]);
        var text := E.DecodeFrom(lexeme, i);
        assert text[1..] == E.DecodeFrom(lexeme, i + 2);
      } else {
        assert lexeme[i + 1..i + 1 + |b[1..]|] == b[1..];
        DecodesFrom(lexeme, i + 1, b[1..]);
        var text := E.DecodeFrom(lexeme, i);
        assert text[1..] == E.DecodeFrom(lexeme, i + 1);
      }
    }
  }

  function Quote(b: string): string {
    "\"" + b + "\""
  }

  /** A literal is decoded to a text exactly if it spells that text. */
  lemma DecodesWhatIsSpelled(b: string, text: string)
    requires WellEscaped(b)
    ensures Spells(true, b, text) <==> E.DecodeString(Quote(b)) == text
  {
    assert Quote(b)[1..1 + |b|] == b;
    DecodesFrom(Quote(b), 1, b);
    if Spells(true, b, text) { SpellsOne(true, b, text, E.DecodeString(Quote(b))); }
  }

  lemma {:induction false} BodyIsWellEscaped(t: string)
    requires Ahead(t, StringBody(t)) == '"'
    ensures StringBody(t) < |t| && WellEscaped(t[..StringBody(t)])
    decreases |t|
  {
    var n := StringBody(t);
    if t != "" && t[0] != '"' && t[0] != NUL {
      if t[0] == '\\' && Ahead(t, 1) != NUL {
        BodyIsWellEscaped(t[2..]);
        assert t[..n][2..] == t[2..][..n - 2];
      } else {
        BodyIsWellEscaped(t[1..]);
        assert t[..n][1..] == t[1..][..n - 1];
      }
    }
  }

  /** What the lexer takes for a string literal is one, closed and well escaped. */
  lemma LexedIsWellEscaped(t: string)
    requires t != "" && t[0] == '"' && ScanString(t).error.None?
    ensures exists b :: t[..ScanString(t).length] == Quote(b) && WellEscaped(b)
  {
    var n := StringBody(t[1..]);
    BodyIsWellEscaped(t[1..]);
    assert t[..n + 2] == Quote(t[1..][..n]);
  }

  // ----- scripts -----

  /** No quote stands unescaped. */
  predicate Unquoted(b: string) {
    b == "" || (b[0] != '"' && (if b[0] == '\\' then |b| > 1 && Unquoted(b[2..]) else Unquoted(b[1..])))
  }

  lemma {:induction false} QuotedSpells(s: string, i: nat, b: string)
    requires i + |b| < |s| && s[i..i + |b|] == b && s[i + |b|] == '"' && WellEscaped(b) && Unquoted(b)
    ensures var q := QuotedFrom(s, i); q.closed && q.next == i + |b| + 1 && Spells(false, b, q.text)
    decreases |b|
  {
    if b != "" {
      assert s[i] == b[0];
      var k := if b[0] == '\\' then 2 else 1;
      if k == 2 { assert s[i + 1] == b[1]; }
      assert s[i + k..i + k + |b[k..]|] == b[k..];
      QuotedSpells(s, i + k, b[k..]);
      var q := QuotedFrom(s, i);
      assert q.text[1..] == QuotedFrom(s, i + k).text;
    }
  }

  lemma {:induction false} ClosedIsSpelled(s: string, i: nat)
    requires i <= |s| && QuotedFrom(s, i).closed
    ensures var n := QuotedFrom(s, i).next;
            i < n && s[n - 1] == '"' && WellEscaped(s[i..n - 1]) && Unquoted(s[i..n - 1])
    decreases |s| - i
  {
    var n := QuotedFrom(s, i).next;
    if i < |s| && s[i] != '"' {
      var k := if s[i] == '\\' && i + 1 < |s| then 2 else 1;
      ClosedIsSpelled(s, i + k);
      assert s[i..n - 1][k..] == s[i + k..n - 1];
    }
  }

  /** A closed literal of a script is read up to the first quote that is not escaped, as exactly the text it spells. */
  lemma ReadsWhatIsSpelled(s: string, i: nat, n: nat, text: string)
    requires i < n <= |s|
    ensures QuotedFrom(s, i) == Quoted(text, n, true) <==>
      s[n - 1] == '"' && Unquoted(s[i..n - 1]) && WellEscaped(s[i..n - 1]) && Spells(false, s[i..n - 1], text)
  {
    var q, b := QuotedFrom(s, i), s[i..n - 1];
    if q.closed && q.next == n {
      ClosedIsSpelled(s, i);
      QuotedSpells(s, i, b);
      if Spells(false, b, text) { SpellsOne(false, b, text, q.text); }
    } else if s[n - 1] == '"' && Unquoted(b) && WellEscaped(b) {
      QuotedSpells(s, i, b);
    }
  }
}
