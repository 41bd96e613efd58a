/**
 What tokens look like: each kind has its form of text, and the lexer takes a text for one token of a kind exactly if
 it has that form.
 */
module LexerForms {
  import opened Basics
  import opened Lexer
  import opened LexerFacts
  import opened StringLiterals

  // ----- the forms -----

  predicate Letter(c: char) {
    'a' <= c <= 'z' || 'A' <= c <= 'Z' || c == '_'
  }

  predicate Digit(c: char) {
    '0' <= c <= '9'
  }

  predicate HexDigit(c: char) {
    Digit(c) || 'a' <= c <= 'f' || 'A' <= c <= 'F'
  }

  predicate Digits(s: string) {
    forall k :: 0 <= k < |s| ==> Digit(s[k])
  }

  predicate HexDigits(s: string) {
    forall k :: 0 <= k < |s| ==> HexDigit(s[k])
  }

  predicate NameLike(s: string) {
    s != "" && Letter(s[0]) && forall k :: 0 <= k < |s| ==> Letter(s[k]) || Digit(s[k])
  }

  /** The words that are keywords: of control flow, of declarations, of expressions. */
  function Keyword(s: string): Option<Kind> {
    if FlowWord(s).Some? then FlowWord(s) else if DeclaringWord(s).Some? then DeclaringWord(s) else ValueWord(s)
  }

  function FlowWord(s: string): Option<Kind> {
    if s == "if" then Some(IfKw)
    else if s == "else" then Some(ElseKw)
    else if s == "while" then Some(WhileKw)
    else if s == "repeat" then Some(RepeatKw)
    else if s == "return" then Some(ReturnKw)
    else if s == "throw" then Some(ThrowKw)
    else if s == "unsafe" then Some(UnsafeKw)
    else None
  }

  function DeclaringWord(s: string): Option<Kind> {
    if s == "let" then Some(LetKw)
    else if s == "const" then Some(ConstKw)
    else if s == "function" then Some(FunctionKw)
    else if s == "import" then Some(ImportKw)
    else if s == "module" then Some(ModuleKw)
    else if s == "record" then Some(RecordKw)
    else if s == "class" then Some(ClassKw)
    else if s == "extern" then Some(ExternKw)
    else if s == "export" then Some(ExportKw)
    else None
  }

  function ValueWord(s: string): Option<Kind> {
    if s == "true" then Some(TrueKw)
    else if s == "false" then Some(FalseKw)
    else if s == "null" then Some(NullKw)
    else if s == "as" then Some(AsKw)
    else if s == "try" then Some(TryKw)
    else if s == "volatile" then Some(VolatileKw)
    else None
  }

  /** The punctuation, as it is written. */
  function Sign(s: string): Option<Kind> {
    if |s| == 1 then OneSign(s[0]) else if |s| == 2 then TwoSigns(s[0], s[1]) else None
  }

  function OneSign(c: char): Option<Kind> {
    match c
    case '(' => Some(LParen) case ')' => Some(RParen) case '{' => Some(LBrace) case '}' => Some(RBrace)
    case '[' => Some(LBracket) case ']' => Some(RBracket) case ',' => Some(Comma) case ':' => Some(Colon)
    case ';' => Some(Semicolon) case '.' => Some(Dot) case '+' => Some(Plus) case '-' => Some(Minus)
    case '*' => Some(Star) case '/' => Some(Slash) case '%' => Some(Percent) case '!' => Some(Bang)
    case '=' => Some(Equal) case '<' => Some(Less) case '>' => Some(Greater) case '&' => Some(Ampersand)
    case _ => None
  }

  function TwoSigns(c: char, d: char): Option<Kind> {
    if c == '!' && d == '=' then Some(BangEqual) else if c == '=' && d == '=' then Some(EqualEqual)
    else if c == '<' && d == '=' then Some(LessEqual) else if c == '>' && d == '=' then Some(GreaterEqual)
    else if c == '&' && d == '&' then Some(AndAnd) else if c == '|' && d == '|' then Some(OrOr)
    else None
  }

  /** Digits, or hexadecimal digits behind 0x. */
  predicate IntegerForm(s: string) {
    (s != "" && Digits(s)) || (|s| > 1 && s[0] == '0' && (s[1] == 'x' || s[1] == 'X') && HexDigits(s[2..]))
  }

  ghost predicate FloatForm(s: string) {
    exists k :: 0 < k < |s| - 1 && s[k] == '.' && Digits(s[..k]) && Digits(s[k + 1..])
  }

  ghost predicate StringForm(s: string) {
    exists b :: s == Quote(b) && Unquoted(b) && NUL !in b
  }

  predicate LineCommentForm(s: string) {
    |s| > 1 && s[..2] == "//" && '\n' !in s && NUL !in s
  }

  /** The first closing mark behind the opening one is at the end. */
  predicate BlockCommentForm(s: string) {
    && |s| > 3 && s[..2] == "/*" && s[|s| - 2..] == "*/" && NUL !in s
    && forall k :: 2 <= k < |s| - 2 ==> !(s[k] == '*' && s[k + 1] == '/')
  }

  /** The texts of the tokens of a kind. */
  ghost predicate HasForm(k: Kind, s: string) {
    match k
    case Eof => false
    case Identifier => NameLike(s) && Keyword(s) == None
    case Integer => IntegerForm(s)
    case Float => FloatForm(s)
    case String => StringForm(s)
    case LineComment => LineCommentForm(s)
    case BlockComment => BlockCommentForm(s)
    case _ => (NameLike(s) && Keyword(s) == Some(k)) || Sign(s) == Some(k)
  }

  // ----- the lexer reads exactly these forms -----

  lemma ClassesAre(c: char)
    ensures In(c, Word) <==> Letter(c) || Digit(c)
    ensures In(c, CharClass.Decimal) <==> Digit(c)
    ensures In(c, Hexadecimal) <==> HexDigit(c)
    ensures In(c, Blank) <==> c in {' ', '\t', '\r', '\n'}
    ensures In(c, Line) <==> c !in {'\n', '\0'}
    ensures IsLetter(c) || c == '_' <==> Letter(c)
  {
  }

  lemma SpanAllIff(t: string, cls: CharClass)
    ensures Span(t, cls) == |t| <==> forall k :: 0 <= k < |t| ==> In(t[k], cls)
  {
  }

  lemma FlowWords(w: string)
    ensures StatementKeyword(w) == FlowWord(w)
  {
  }

  lemma DeclaringWords(w: string)
    ensures DeclarationKeyword(w) == DeclaringWord(w)
  {
  }

  lemma ValueWords(w: string)
    ensures ExpressionKeyword(w) == ValueWord(w)
  {
  }

  lemma KeywordsAre(w: string)
    ensures WordKind(w) == if Keyword(w).Some? then Keyword(w).value else Identifier
  {
    hide StatementKeyword, DeclarationKeyword, ExpressionKeyword, FlowWord, DeclaringWord, ValueWord;
    FlowWords(w);
    DeclaringWords(w);
    ValueWords(w);
  }

  lemma WordForm(s: string, k: Kind)
    requires s != "" && (IsLetter(s[0]) || s[0] == '_')
    ensures Own(Token(k, s)) <==> NameLike(s) && k == if Keyword(s).Some? then Keyword(s).value else Identifier
  {
    hide WordKind, Keyword;
    KeywordsAre(s);
    SpanAllIff(s[1..], Word);
    assert s[..|s|] == s;
    assert NameLike(s) <==> Span(s[1..], Word) == |s[1..]|;
  }

  lemma HexIsNoFloat(s: string)
    requires IsHex(s)
    ensures !FloatForm(s) && !Digits(s)
  {
    assert !Digit(s[1]);
    forall m | 0 < m < |s| - 1 && s[m] == '.' ensures !Digits(s[..m]) { assert m > 1 && s[..m][1] == s[1]; }
  }

  lemma HexForm(s: string, k: Kind)
    requires s != "" && IsHex(s)
    ensures IsDecimal(s[0]) && (ScanNumber(s) == Scan(k, |s|, None) <==> k.Integer? && IntegerForm(s))
  {
    HexIsNoFloat(s);
    SpanAllIff(s[2..], Hexadecimal);
    assert HexDigits(s[2..]) <==> Span(s[2..], Hexadecimal) == |s[2..]|;
    hide Span, HexDigits, Digits;
  }

  lemma NumberForm(s: string, k: Kind)
    requires s != "" && IsDecimal(s[0])
    ensures ScanNumber(s) == Scan(k, |s|, None) <==> (k.Integer? && IntegerForm(s)) || (k.Float? && FloatForm(s))
  {
    hide ScanNumber, IntegerForm, FloatForm;
    if IsHex(s) {
      HexForm(s, k);
      HexIsNoFloat(s);
    } else {
      DecimalForm(s, k);
    }
  }

  /** The dot of a floating-point number is behind its first digits. */
  lemma DotIs(s: string, m: nat, n: nat)
    requires 0 < m < |s| - 1 && s[m] == '.' && Digits(s[..m])
    requires n <= |s| && (forall k :: 0 <= k < n ==> Digit(s[k])) && (n < |s| ==> !Digit(s[n]))
    ensures m == n
  {
    assert forall k :: 0 <= k < m ==> s[..m][k] == s[k];
  }

  /** Where the first digits end, and what follows. */
  lemma FloatFormIff(s: string, n: nat)
    requires n == Span(s, CharClass.Decimal)
    ensures FloatForm(s) <==> 0 < n < |s| - 1 && s[n] == '.' && Digits(s[n + 1..])
  {
    assert Digits(s[..n]);
    if FloatForm(s) {
      var m :| 0 < m < |s| - 1 && s[m] == '.' && Digits(s[..m]) && Digits(s[m + 1..]);
      DotIs(s, m, n);
    }
  }

  lemma DecimalForm(s: string, k: Kind)
    requires s != "" && IsDecimal(s[0]) && !IsHex(s)
    ensures ScanNumber(s) == Scan(k, |s|, None) <==> (k.Integer? && IntegerForm(s)) || (k.Float? && FloatForm(s))
  {
    var n := Span(s, CharClass.Decimal);
    FloatFormIff(s, n);
    assert n > 0 && (Digits(s) <==> n == |s|);
    if 0 < n < |s| - 1 && s[n] == '.' {
      var t := s[n + 1..];
      assert Digits(t) <==> Span(t, CharClass.Decimal) == |t|;
      assert Digits(t) ==> Digit(t[0]);
    }
    hide Span, Digits, FloatForm;
  }

  lemma SignForm(s: string, k: Kind)
    requires s != "" && !(s[0] == '/' && Ahead(s, 1) in {'/', '*'}) && k != Eof
    ensures ScanPunctuation(s) == Scan(k, |s|, None) <==> Sign(s) == Some(k)
  {
  }

  lemma {:induction false} BodyHasForm(t: string)
    requires Ahead(t, StringBody(t)) == '"'
    ensures var n := StringBody(t); n < |t| && t[n] == '"' && Unquoted(t[..n]) && NUL !in t[..n]
    decreases |t|
  {
    var n := StringBody(t);
    if t != "" && t[0] != '"' && t[0] != NUL {
      var k := if t[0] == '\\' && Ahead(t, 1) != NUL then 2 else 1;
      BodyHasForm(t[k..]);
      assert t[..n] == t[..k] + t[k..][..n - k];
      assert t[..n][k..] == t[k..][..n - k];
    }
  }

  lemma {:induction false} FormIsBody(b: string, rest: string)
    requires Unquoted(b) && NUL !in b
    ensures StringBody(b + ("\"" + rest)) == |b|
    decreases |b|
  {
    var t := b + ("\"" + rest);
    if b == "" {
      assert t == "\"" + rest;
    } else {
      var k := if b[0] == '\\' then 2 else 1;
      assert t[k..] == b[k..] + ("\"" + rest);
      FormIsBody(b[k..], rest);
    }
  }

  lemma TextHasForm(s: string)
    requires s != "" && s[0] == '"'
    ensures var n := 1 + StringBody(s[1..]); n + 1 == |s| && s[n] == '"' ==> StringForm(s)
  {
    var n := 1 + StringBody(s[1..]);
    if n + 1 == |s| && s[n] == '"' {
      BodyHasForm(s[1..]);
      hide StringBody, Unquoted;
      var b := s[1..][..n - 1];
      assert s == Quote(b);
    }
  }

  lemma FormIsText(s: string)
    requires StringForm(s)
    ensures |s| > 1 && s[0] == '"' && s[|s| - 1] == '"' && StringBody(s[1..]) == |s| - 2
  {
    var b :| s == Quote(b) && Unquoted(b) && NUL !in b;
    FormIsBody(b, "");
    hide StringBody, Unquoted;
    assert s[1..] == b + ("\"" + "");
  }

  lemma TextForm(s: string, k: Kind)
    requires s != "" && s[0] == '"'
    ensures ScanString(s) == Scan(k, |s|, None) <==> k.String? && StringForm(s)
  {
    TextHasForm(s);
    BodyEnds(s[1..]);
    if StringForm(s) { FormIsText(s); }
    hide StringBody, StringForm;
  }

  lemma BodyEnds(t: string)
    ensures var n := StringBody(t); n <= |t| && (n < |t| ==> t[n] == '"' || t[n] == NUL)
  {
  }

  lemma {:induction false} CommentBodyIs(t: string)
    ensures var n := CommentBody(t);
            && (forall k :: 0 <= k < n ==> t[k] != NUL && !(t[k] == '*' && Ahead(t, k + 1) == '/'))
            && (n < |t| ==> t[n] == NUL || (t[n] == '*' && Ahead(t, n + 1) == '/'))
    decreases |t|
  {
    var n := CommentBody(t);
    if n > 0 {
      CommentBodyIs(t[1..]);
      forall k | 0 < k < n ensures t[k] != NUL && !(t[k] == '*' && Ahead(t, k + 1) == '/') { assert t[1..][k - 1] == t[k]; }
    }
  }

  lemma BlockForm(s: string, k: Kind)
    requires |s| > 1 && s[0] == '/' && s[1] == '*'
    ensures ScanComment(s) == Scan(k, |s|, None) <==> k.BlockComment? && BlockCommentForm(s)
  {
    hide CommentBody;
    var t := s[2..];
    var n := CommentBody(t);
    CommentBodyIs(t);
    assert forall j :: 0 <= j < |t| ==> t[j] == s[j + 2];
    assert s[..2] == "/*";
    if BlockCommentForm(s) {
      assert s[|s| - 2..] == "*/" && s[|s| - 2] == '*' && s[|s| - 1] == '/' by {
        assert s[|s| - 2..][0] == s[|s| - 2] && s[|s| - 2..][1] == s[|s| - 1];
      }
      assert t[|s| - 4] == '*' && Ahead(t, |s| - 3) == '/';
      assert n == |s| - 4;
    }
    assert |s| > 3 && s[|s| - 2] == '*' && s[|s| - 1] == '/' ==> s[|s| - 2..] == "*/";
  }

  lemma LineForm(s: string)
    requires |s| > 1 && s[0] == '/' && s[1] == '/'
    ensures 2 + Span(s[2..], Line) == |s| <==> LineCommentForm(s)
  {
    var t := s[2..];
    SpanAllIff(t, Line);
    assert s[..2] == "//";
    assert forall j :: 0 <= j < |t| ==> t[j] == s[j + 2];
    if LineCommentForm(s) {
      forall j | 0 <= j < |t| ensures In(t[j], Line) { assert t[j] in s; }
    } else if c :| c in s && (c == '\n' || c == NUL) {
      var j :| 0 <= j < |s| && s[j] == c;
      assert !In(t[j - 2], Line);
    }
  }

  /** What a form begins with. */
  lemma FormStarts(k: Kind, s: string)
    requires HasForm(k, s)
    ensures s != ""
    ensures !Letter(s[0]) ==> !NameLike(s)
    ensures !Digit(s[0]) ==> !IntegerForm(s) && !FloatForm(s)
    ensures s[0] != '"' ==> !StringForm(s)
    ensures !(s[0] == '/' && Ahead(s, 1) == '/') ==> !LineCommentForm(s)
    ensures !(s[0] == '/' && Ahead(s, 1) == '*') ==> !BlockCommentForm(s)
  {
    hide Keyword, Sign;
    NoSign();
    if FloatForm(s) {
      var m :| 0 < m < |s| - 1 && s[m] == '.' && Digits(s[..m]) && Digits(s[m + 1..]);
      assert s[..m][0] == s[0];
    }
    if |s| > 1 { assert s[..2][0] == s[0] && s[..2][1] == s[1]; }
  }

  lemma NoSign()
    ensures Sign("") == None
  {
  }

  /** What the form of a text is, by its first characters. */
  lemma FormByStart(k: Kind, s: string)
    requires s != ""
    ensures Letter(s[0]) ==> (HasForm(k, s) <==> NameLike(s) && k == if Keyword(s).Some? then Keyword(s).value else Identifier)
    ensures Digit(s[0]) ==> (HasForm(k, s) <==> (k.Integer? && IntegerForm(s)) || (k.Float? && FloatForm(s)))
    ensures s[0] == '"' ==> (HasForm(k, s) <==> k.String? && StringForm(s))
    ensures s[0] == '/' && Ahead(s, 1) == '/' ==> (HasForm(k, s) <==> k.LineComment? && LineCommentForm(s))
    ensures s[0] == '/' && Ahead(s, 1) == '*' ==> (HasForm(k, s) <==> k.BlockComment? && BlockCommentForm(s))
    ensures !Letter(s[0]) && !Digit(s[0]) && s[0] != '"' && !(s[0] == '/' && Ahead(s, 1) in {'/', '*'}) ==>
      (HasForm(k, s) <==> Sign(s) == Some(k))
  {
    if HasForm(k, s) { FormStarts(k, s); }
    KeywordKinds(s);
    SignKinds(s);
    SignStarts(s);
    hide NameLike, Keyword, IntegerForm, FloatForm, StringForm, LineCommentForm, BlockCommentForm, Sign, Letter, Digit, Ahead;
  }

  lemma KeywordKinds(s: string)
    ensures Keyword(s).Some? ==> IsWord(Keyword(s).value) && !Keyword(s).value.Identifier?
  {
    FlowKinds(s);
    DeclaringKinds(s);
    ValueKinds(s);
    hide FlowWord, DeclaringWord, ValueWord, IsWord;
  }

  lemma FlowKinds(s: string)
    ensures FlowWord(s).Some? ==> IsWord(FlowWord(s).value) && !FlowWord(s).value.Identifier?
  {
  }

  lemma DeclaringKinds(s: string)
    ensures DeclaringWord(s).Some? ==> IsWord(DeclaringWord(s).value) && !DeclaringWord(s).value.Identifier?
  {
  }

  lemma ValueKinds(s: string)
    ensures ValueWord(s).Some? ==> IsWord(ValueWord(s).value) && !ValueWord(s).value.Identifier?
  {
  }

  lemma SignKinds(s: string)
    ensures Sign(s).Some? ==> IsPunctuation(Sign(s).value)
  {
  }

  lemma SignStarts(s: string)
    requires s != ""
    ensures Letter(s[0]) || Digit(s[0]) || s[0] == '"' || (s[0] == '/' && Ahead(s, 1) in {'/', '*'}) ==> Sign(s) == None
  {
  }

  /** A text is one token of a kind, as the lexer reads it, exactly if it has that kind's form. */
  lemma OwnIffForm(k: Kind, s: string)
    ensures Own(Token(k, s)) <==> HasForm(k, s)
  {
    if s == "" {
      EmptyHasNoForm(k);
    } else {
      FormByStart(k, s);
      if k == Eof {
      } else {
        OwnByStart(k, s);
      }
      hide HasForm, Own;
    }
  }

  lemma EmptyHasNoForm(k: Kind)
    ensures !HasForm(k, "")
  {
    if HasForm(k, "") { FormStarts(k, ""); }
  }

  lemma OwnByStart(k: Kind, s: string)
    requires s != "" && k != Eof
    ensures Letter(s[0]) ==> (Own(Token(k, s)) <==> NameLike(s) && k == if Keyword(s).Some? then Keyword(s).value else Identifier)
    ensures Digit(s[0]) ==> (Own(Token(k, s)) <==> (k.Integer? && IntegerForm(s)) || (k.Float? && FloatForm(s)))
    ensures s[0] == '"' ==> (Own(Token(k, s)) <==> k.String? && StringForm(s))
    ensures s[0] == '/' && Ahead(s, 1) == '/' ==> (Own(Token(k, s)) <==> k.LineComment? && LineCommentForm(s))
    ensures s[0] == '/' && Ahead(s, 1) == '*' ==> (Own(Token(k, s)) <==> k.BlockComment? && BlockCommentForm(s))
    ensures !Letter(s[0]) && !Digit(s[0]) && s[0] != '"' && !(s[0] == '/' && Ahead(s, 1) in {'/', '*'}) ==>
      (Own(Token(k, s)) <==> Sign(s) == Some(k))
  {
    hide NameLike, Keyword, IntegerForm, FloatForm, StringForm, LineCommentForm, BlockCommentForm, Sign;
    hide ScanWord, ScanNumber, ScanString, ScanComment, ScanPunctuation;
    var c := s[0];
    if Letter(c) {
      WordForm(s, k);
    } else if Digit(c) {
      NumberForm(s, k);
    } else if c == '"' {
      TextForm(s, k);
    } else if c == '/' && Ahead(s, 1) == '/' {
      LineForm(s);
    } else if c == '/' && Ahead(s, 1) == '*' {
      BlockForm(s, k);
    } else {
      SignForm(s, k);
    }
  }
}
