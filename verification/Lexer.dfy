/**
 The lexer: maximal munch over the source text, with comments kept as tokens or skipped.

 The functions say what is read from the text that is left; class `Lexer` reads it with a cursor.
 Source positions in tokens are left out.
 */
module Lexer {
  import opened Basics

  datatype Kind =
    | LParen | RParen | LBrace | RBrace | LBracket | RBracket | Comma | Colon | Semicolon | Dot
    | Plus | Minus | Star | Slash | Percent | Bang | BangEqual | Equal | EqualEqual
    | Less | LessEqual | Greater | GreaterEqual | Ampersand | AndAnd | OrOr
    | Identifier | Integer | Float | String | LineComment | BlockComment | Eof
    | LetKw | ConstKw | FunctionKw | IfKw | ElseKw | WhileKw | RepeatKw | ReturnKw | TrueKw | FalseKw | NullKw
    | ImportKw | ModuleKw | RecordKw | ClassKw | ExternKw | ExportKw | VolatileKw | AsKw | ThrowKw | TryKw | UnsafeKw

  datatype Token = Token(kind: Kind, lexeme: string)

  datatype LexError = UnexpectedCharacter | UnterminatedString | UnterminatedComment

  const NUL: char := '\0'

  // ----- character classes -----

  datatype CharClass = Blank | Word | Decimal | Hexadecimal | Line

  predicate IsLetter(c: char) {
    'a' <= c <= 'z' || 'A' <= c <= 'Z'
  }

  predicate IsDecimal(c: char) {
    '0' <= c <= '9'
  }

  predicate In(c: char, cls: CharClass) {
    match cls
    case Blank => c == ' ' || c == '\t' || c == '\r' || c == '\n'
    case Word => IsLetter(c) || IsDecimal(c) || c == '_'
    case Decimal => IsDecimal(c)
    case Hexadecimal => IsDecimal(c) || 'a' <= c <= 'f' || 'A' <= c <= 'F'
    case Line => c != '\n' && c != NUL
  }

  /** The character at an offset of the text that is left; past the end, the null character. */
  function Ahead(t: string, k: nat): char {
    if k < |t| then t[k] else NUL
  }

  /** How many characters at the front are of the class. */
  function Span(t: string, cls: CharClass): (n: nat)
    ensures n <= |t|
    ensures forall k :: 0 <= k < n ==> In(t[k], cls)
    ensures n < |t| ==> !In(t[n], cls)
  {
    if t != "" && In(t[0], cls) then 1 + Span(t[1..], cls) else 0
  }

  /** The text of a string literal after its opening quote, up to the closing one (or a null character, or the end). */
  function StringBody(t: string): (n: nat)
    ensures n <= |t|
    ensures n < |t| ==> t[n] == '"' || t[n] == NUL
  {
    if t == "" || t[0] == '"' || t[0] == NUL then 0
    else if t[0] == '\\' && Ahead(t, 1) != NUL then 2 + StringBody(t[2..])
    else 1 + StringBody(t[1..])
  }

  /** The text of a block comment after its opening mark, up to the closing mark. */
  function CommentBody(t: string): (n: nat)
    ensures n <= |t|
    ensures n < |t| && t[n] != NUL ==> t[n] == '*' && Ahead(t, n + 1) == '/'
  {
    if t == "" || t[0] == NUL || (t[0] == '*' && Ahead(t, 1) == '/') then 0 else 1 + CommentBody(t[1..])
  }

  // ----- one token -----

  datatype Scan = Scan(kind: Kind, length: nat, error: Option<LexError>)

  function StatementKeyword(w: string): (k: Option<Kind>)
    ensures k.Some? ==> IsWord(k.value)
  {
    if w == "if" then Some(IfKw) else if w == "else" then Some(ElseKw) else if w == "while" then Some(WhileKw)
    else if w == "repeat" then Some(RepeatKw) else if w == "return" then Some(ReturnKw) else if w == "throw" then Some(ThrowKw)
    else if w == "unsafe" then Some(UnsafeKw) else None
  }

  function DeclarationKeyword(w: string): (k: Option<Kind>)
    ensures k.Some? ==> IsWord(k.value)
  {
    if w == "let" then Some(LetKw) else if w == "const" then Some(ConstKw) else if w == "function" then Some(FunctionKw)
    else if w == "import" then Some(ImportKw) else if w == "module" then Some(ModuleKw) else if w == "record" then Some(RecordKw)
    else if w == "class" then Some(ClassKw) else if w == "extern" then Some(ExternKw) else if w == "export" then Some(ExportKw)
    else None
  }

  function ExpressionKeyword(w: string): (k: Option<Kind>)
    ensures k.Some? ==> IsWord(k.value)
  {
    if w == "true" then Some(TrueKw) else if w == "false" then Some(FalseKw) else if w == "null" then Some(NullKw)
    else if w == "as" then Some(AsKw) else if w == "try" then Some(TryKw) else if w == "volatile" then Some(VolatileKw)
    else None
  }

  /** Keywords and identifiers. */
  function WordKind(w: string): (k: Kind)
    ensures IsWord(k)
  {
    var s, d, e := StatementKeyword(w), DeclarationKeyword(w), ExpressionKeyword(w);
    if s.Some? then s.value else if d.Some? then d.value else if e.Some? then e.value else Identifier
  }

  datatype Group = Punctuation | Literal | Comment | Ending | Wordlike

  function GroupOf(k: Kind): Group {
    match k
    case LParen => Punctuation case RParen => Punctuation case LBrace => Punctuation case RBrace => Punctuation
    case LBracket => Punctuation case RBracket => Punctuation case Comma => Punctuation case Colon => Punctuation
    case Semicolon => Punctuation case Dot => Punctuation case Plus => Punctuation case Minus => Punctuation
    case Star => Punctuation case Slash => Punctuation case Percent => Punctuation case Bang => Punctuation
    case BangEqual => Punctuation case Equal => Punctuation case EqualEqual => Punctuation case Less => Punctuation
    case LessEqual => Punctuation case Greater => Punctuation case GreaterEqual => Punctuation
    case Ampersand => Punctuation case AndAnd => Punctuation case OrOr => Punctuation
    case Integer => Literal case Float => Literal case String => Literal
    case LineComment => Comment case BlockComment => Comment case Eof => Ending
    case _ => Wordlike
  }

  predicate IsPunctuation(k: Kind) {
    GroupOf(k).Punctuation?
  }

  /** The lexeme of each punctuation token. */
  function Spelling(k: Kind): string
    requires IsPunctuation(k)
  {
    match k
    case LParen => "(" case RParen => ")" case LBrace => "{" case RBrace => "}" case LBracket => "[" case RBracket => "]"
    case Comma => "," case Colon => ":" case Semicolon => ";" case Dot => "."
    case Plus => "+" case Minus => "-" case Star => "*" case Slash => "/" case Percent => "%"
    case Bang => "!" case BangEqual => "!=" case Equal => "=" case EqualEqual => "==" case Less => "<" case LessEqual => "<="
    case Greater => ">" case GreaterEqual => ">=" case Ampersand => "&" case AndAnd => "&&" case _ => "||"
  }

  predicate IsWord(k: Kind) {
    GroupOf(k).Wordlike?
  }

  function ScanWord(t: string): (r: Scan)
    requires t != ""
    ensures 0 < r.length <= |t| && r.error.None?
  {
    var n := 1 + Span(t[1..], Word);
    Scan(WordKind(t[..n]), n, None)
  }

  predicate IsHex(t: string) {
    |t| > 1 && t[0] == '0' && (t[1] == 'x' || t[1] == 'X')
  }

  function ScanNumber(t: string): (r: Scan)
    requires t != "" && IsDecimal(t[0])
    ensures 0 < r.length <= |t| && r.error.None?
  {
    if IsHex(t) then Scan(Integer, 2 + Span(t[2..], Hexadecimal), None)
    else
      var n := Span(t, Decimal);
      if Ahead(t, n) == '.' && IsDecimal(Ahead(t, n + 1)) then Scan(Float, n + 1 + Span(t[n + 1..], Decimal), None)
      else Scan(Integer, n, None)
  }

  function ScanString(t: string): (r: Scan)
    requires t != ""
    ensures 0 < r.length <= |t|
  {
    var n := 1 + StringBody(t[1..]);
    if Ahead(t, n) == NUL then Scan(String, n, Some(UnterminatedString)) else Scan(String, n + 1, None)
  }

  function ScanComment(t: string): (r: Scan)
    requires |t| > 1
    ensures 0 < r.length <= |t|
  {
    var n := 2 + CommentBody(t[2..]);
    if Ahead(t, n) == NUL then Scan(BlockComment, n, Some(UnterminatedComment)) else Scan(BlockComment, n + 2, None)
  }

  /** One or two characters: `two` if the next character is `second`. */
  function OneOrTwo(t: string, second: char, two: Kind, one: Kind): (r: Scan)
    requires t != "" && second != NUL
    ensures 0 < r.length <= |t|
  {
    if Ahead(t, 1) == second then Scan(two, 2, None) else Scan(one, 1, None)
  }

  function ScanPunctuation(t: string): (r: Scan)
    requires t != ""
    ensures 0 < r.length <= |t|
  {
    match t[0]
    case '(' => Scan(LParen, 1, None)
    case ')' => Scan(RParen, 1, None)
    case '{' => Scan(LBrace, 1, None)
    case '}' => Scan(RBrace, 1, None)
    case '[' => Scan(LBracket, 1, None)
    case ']' => Scan(RBracket, 1, None)
    case ',' => Scan(Comma, 1, None)
    case ':' => Scan(Colon, 1, None)
    case ';' => Scan(Semicolon, 1, None)
    case '.' => Scan(Dot, 1, None)
    case '+' => Scan(Plus, 1, None)
    case '-' => Scan(Minus, 1, None)
    case '*' => Scan(Star, 1, None)
    case '%' => Scan(Percent, 1, None)
    case '/' => Scan(Slash, 1, None)
    case '!' => OneOrTwo(t, '=', BangEqual, Bang)
    case '=' => OneOrTwo(t, '=', EqualEqual, Equal)
    case '<' => OneOrTwo(t, '=', LessEqual, Less)
    case '>' => OneOrTwo(t, '=', GreaterEqual, Greater)
    case '&' => OneOrTwo(t, '&', AndAnd, Ampersand)
    case '|' => if Ahead(t, 1) == '|' then Scan(OrOr, 2, None) else Scan(Eof, 1, Some(UnexpectedCharacter))
    case _ => Scan(Eof, 1, Some(UnexpectedCharacter))
  }

  /** The token at the front of the text; `keep` says whether comments are tokens. */
  function ScanToken(t: string, keep: bool): (r: Scan)
    requires t != ""
    ensures 0 < r.length <= |t|
  {
    if IsLetter(t[0]) || t[0] == '_' then ScanWord(t)
    else if IsDecimal(t[0]) then ScanNumber(t)
    else if t[0] == '"' then ScanString(t)
    else if keep && t[0] == '/' && Ahead(t, 1) == '/' then Scan(LineComment, 2 + Span(t[2..], Line), None)
    else if keep && t[0] == '/' && Ahead(t, 1) == '*' then ScanComment(t)
    else ScanPunctuation(t)
  }

  // ----- all tokens -----

  datatype Skipped = Skipped(length: nat, error: Option<LexError>)

  /** What lies in front of the next token: blanks, and comments unless they are kept. */
  function Skip(t: string, keep: bool): (r: Skipped)
    ensures r.length <= |t|
    decreases |t|
  {
    if t != "" && In(t[0], Blank) then
      var r := Skip(t[1..], keep);
      Skipped(1 + r.length, r.error)
    else if !keep && Ahead(t, 0) == '/' && Ahead(t, 1) == '/' then
      var n := Span(t, Line);
      var r := Skip(t[n..], keep);
      Skipped(n + r.length, r.error)
    else if !keep && Ahead(t, 0) == '/' && Ahead(t, 1) == '*' then
      var n := 2 + CommentBody(t[2..]);
      if Ahead(t, n) == NUL then Skipped(n, Some(UnterminatedComment))
      else
        var r := Skip(t[n + 2..], keep);
        Skipped(n + 2 + r.length, r.error)
    else Skipped(0, None)
  }

  /** One turn of skipping. */
  lemma SkipUnfolds(t: string, keep: bool)
    ensures Skip(t, keep) ==
      if t != "" && In(t[0], Blank) then Onward(1, Skip(t[1..], keep))
      else if !keep && Ahead(t, 0) == '/' && Ahead(t, 1) == '/' then Onward(Span(t, Line), Skip(t[Span(t, Line)..], keep))
      else if !keep && Ahead(t, 0) == '/' && Ahead(t, 1) == '*' then
        var n := 2 + CommentBody(t[2..]);
        if Ahead(t, n) == NUL then Skipped(n, Some(UnterminatedComment)) else Onward(n + 2, Skip(t[n + 2..], keep))
      else Skipped(0, None)
    ensures Ahead(t, 0) == '/' ==> Span(t, Line) > 0
    ensures Ahead(t, 0) == '/' && Ahead(t, 1) == '*' ==>
      var n := 2 + CommentBody(t[2..]);
      Ahead(t, n) != NUL ==> n + 2 <= |t|
  {
  }

  function Onward(n: nat, r: Skipped): Skipped {
    Skipped(n + r.length, r.error)
  }

  datatype Lexed = Lexed(tokens: seq<Token>, errors: seq<LexError>)

  function Reported(e: Option<LexError>): seq<LexError> {
    if e.Some? then [e.value] else []
  }

  /** All tokens of the text, up to the first end-of-file one, and the errors on the way. */
  function Lex(t: string, keep: bool): Lexed
    decreases |t|
  {
    var s := Skip(t, keep);
    var u := t[s.length..];
    if u == "" then Lexed([Token(Eof, "")], Reported(s.error))
    else
      var r := ScanToken(u, keep);
      var token, found := Token(r.kind, u[..r.length]), Reported(s.error) + Reported(r.error);
      if r.kind.Eof? then Lexed([token], found)
      else
        var rest := Lex(u[r.length..], keep);
        Lexed([token] + rest.tokens, found + rest.errors)
  }

  /** One token and the rest; every token but the last takes at least one character. */
  lemma LexUnfolds(t: string, keep: bool)
    ensures var s := Skip(t, keep);
            var u := t[s.length..];
            Lex(t, keep) ==
            if u == "" then Lexed([Token(Eof, "")], Reported(s.error))
            else
              var r := ScanToken(u, keep);
              var token, found := Token(r.kind, u[..r.length]), Reported(s.error) + Reported(r.error);
              if r.kind.Eof? then Lexed([token], found) else Before(token, found, Lex(u[r.length..], keep))
    ensures var u := t[Skip(t, keep).length..];
            u != "" ==> 0 < ScanToken(u, keep).length <= |u| <= |t|
  {
    hide Skip, ScanToken;
  }

  function Before(token: Token, found: seq<LexError>, rest: Lexed): Lexed {
    Lexed([token] + rest.tokens, found + rest.errors)
  }

  /** Exactly the last token is an end-of-file one. */
  lemma {:induction false} EofIsLast(t: string, keep: bool)
    ensures var tokens := Lex(t, keep).tokens;
            && tokens != [] && tokens[|tokens| - 1].kind.Eof?
            && forall k :: 0 <= k < |tokens| - 1 ==> !tokens[k].kind.Eof?
    decreases |t|
  {
    hide ScanToken, Skip;
    var u := t[Skip(t, keep).length..];
    if u != "" && !ScanToken(u, keep).kind.Eof? {
      EofIsLast(u[ScanToken(u, keep).length..], keep);
    }
  }

  // ----- the lexer -----

  class Lexer {
    const source: string
    const preserveTrivia: bool
    var current: nat
    var errors: seq<LexError>

    ghost predicate Valid()
      reads this
    {
      current <= |source|
    }

    ghost function Rest(): string
      reads this
      requires Valid()
    {
      source[current..]
    }

    constructor (source: string, preserveTrivia: bool)
      ensures this.source == source && this.preserveTrivia == preserveTrivia
      ensures Valid() && Rest() == source && errors == []
    {
      this.source, this.preserveTrivia := source, preserveTrivia;
      current, errors := 0, [];
    }

    function Peek(offset: nat): char
      reads this
      requires Valid()
      ensures Peek(offset) == Ahead(Rest(), offset)
    {
      if current + offset < |source| then source[current + offset] else NUL
    }

    method Advance() returns (c: char)
      requires Valid()
      modifies this`current
      ensures Valid() && c == old(Ahead(Rest(), 0))
      ensures old(current) < |source| ==> current == old(current) + 1 && Rest() == old(Rest())[1..]
      ensures old(current) == |source| ==> current == old(current)
    {
      if current >= |source| { return NUL; }
      c := source[current];
      current := current + 1;
    }

    method Match(expected: char) returns (found: bool)
      requires Valid() && expected != NUL
      modifies this`current
      ensures Valid() && found == (old(Ahead(Rest(), 0)) == expected)
      ensures current == if found then old(current) + 1 else old(current)
    {
      if Peek(0) != expected { return false; }
      var _ := Advance();
      return true;
    }

    /** Reads on while characters are of the class. */
    method SpanOver(cls: CharClass)
      requires Valid() && !In(NUL, cls)
      modifies this`current
      ensures Valid() && current == old(current) + Span(old(Rest()), cls)
    {
      while In(Peek(0), cls)
        invariant Valid() && old(current) <= current
        invariant current + Span(Rest(), cls) == old(current) + Span(old(Rest()), cls)
        decreases |source| - current
      {
        var _ := Advance();
      }
    }

    /** The loop's progress: what is left to skip from the cursor on. */
    ghost predicate Skipping(whole: Skipped, begin: nat)
      reads this
    {
      Valid() && begin <= current && current + Skip(Rest(), preserveTrivia).length == begin + whole.length
      && Skip(Rest(), preserveTrivia).error == whole.error
    }

    method SkipWhitespaceAndComments()
      requires Valid()
      modifies this
      ensures Valid()
      ensures var r := Skip(old(Rest()), preserveTrivia);
              current == old(current) + r.length && errors == old(errors) + Reported(r.error)
    {
      hide Skip, Span, CommentBody;
      ghost var whole, begin := Skip(Rest(), preserveTrivia), current;
      while true
        invariant Skipping(whole, begin) && errors == old(errors)
        decreases |source| - current
      {
        ghost var t := Rest();
        SkipUnfolds(t, preserveTrivia);
        var c := Peek(0);
        if current < |source| && In(c, Blank) {
          var _ := Advance();
        } else if c == '/' && Peek(1) == '/' {
          if preserveTrivia { break; }
          SpanOver(Line);
          assert Rest() == t[Span(t, Line)..];
        } else if c == '/' && Peek(1) == '*' {
          if preserveTrivia { break; }
          var closed := SkipBlockComment();
          if !closed { return; }
          assert Rest() == t[2 + CommentBody(t[2..]) + 2..];
        } else {
          break;
        }
      }
      SkipUnfolds(Rest(), preserveTrivia);
    }

    /** Skips a block comment; one that is not closed is an error. */
    method SkipBlockComment() returns (closed: bool)
      requires Valid() && Ahead(Rest(), 0) == '/' && Ahead(Rest(), 1) == '*'
      modifies this
      ensures Valid()
      ensures var t := old(Rest());
              var n := 2 + CommentBody(t[2..]);
              && closed == (Ahead(t, n) != NUL)
              && current == old(current) + n + (if closed then 2 else 0)
              && errors == if closed then old(errors) else old(errors) + [UnterminatedComment]
    {
      ghost var t := Rest();
      current := current + 2;
      assert Rest() == t[2..];
      OverComment();
      assert Ahead(t, 2 + CommentBody(t[2..])) == Ahead(Rest(), 0);
      closed := Peek(0) != NUL;
      if closed { current := current + 2; } else { errors := errors + [UnterminatedComment]; }
    }

    /** Reads up to the end of a block comment. */
    method OverComment()
      requires Valid()
      modifies this`current
      ensures Valid() && current == old(current) + CommentBody(old(Rest()))
    {
      while Peek(0) != NUL && !(Peek(0) == '*' && Peek(1) == '/')
        invariant Valid() && old(current) <= current
        invariant current + CommentBody(Rest()) == old(current) + CommentBody(old(Rest()))
        decreases |source| - current
      {
        var _ := Advance();
      }
    }

    /** A token from `start` to the cursor. */
    function Made(kind: Kind, start: nat): Token
      reads this
      requires Valid() && start <= current
    {
      Token(kind, source[start..current])
    }

    /** The cursor is behind the token that starts at `start`, and the token is what the scan says. */
    ghost predicate Took(start: nat, r: Scan, token: Token)
      reads this
    {
      && Valid() && start + r.length == current && token == Token(r.kind, source[start..current])
    }

    method ScanIdentifier(start: nat) returns (token: Token)
      requires Valid() && current == start + 1
      modifies this`current
      ensures Took(start, ScanWord(source[start..]), token)
    {
      assert source[start..][1..] == Rest();
      SpanOver(Word);
      assert source[start..][..current - start] == source[start..current];
      return Made(WordKind(source[start..current]), start);
    }

    method ScanDigits(start: nat) returns (token: Token)
      requires Valid() && current == start + 1 && IsDecimal(source[start])
      modifies this`current
      ensures Took(start, ScanNumber(source[start..]), token)
    {
      ghost var t := source[start..];
      assert t[1..] == Rest();
      if source[start] == '0' && (Peek(0) == 'x' || Peek(0) == 'X') {
        var _ := Advance();
        assert t[2..] == Rest();
        SpanOver(Hexadecimal);
        return Made(Integer, start);
      }
      SpanOver(Decimal);
      ghost var n := Span(t, Decimal);
      assert current == start + n && t[n..] == Rest();
      assert Ahead(t, n) == Ahead(Rest(), 0) && Ahead(t, n + 1) == Ahead(Rest(), 1);
      var kind := Integer;
      if Peek(0) == '.' && IsDecimal(Peek(1)) {
        kind := Float;
        var _ := Advance();
        assert t[n + 1..] == Rest();
        SpanOver(Decimal);
      }
      return Made(kind, start);
    }

    method StringLiteral(start: nat) returns (token: Token)
      requires Valid() && current == start + 1
      modifies this
      ensures Took(start, ScanString(source[start..]), token)
      ensures errors == old(errors) + Reported(ScanString(source[start..]).error)
    {
      ghost var t := source[start..];
      assert t[1..] == Rest();
      while Peek(0) != '"' && Peek(0) != NUL
        invariant Valid() && start < current && errors == old(errors)
        invariant current + StringBody(Rest()) == start + 1 + StringBody(t[1..])
        decreases |source| - current
      {
        if Peek(0) == '\\' && Peek(1) != NUL {
          current := current + 2;
        } else {
          var _ := Advance();
        }
      }
      assert Ahead(t, current - start) == Ahead(Rest(), 0);
      if Peek(0) == NUL {
        errors := errors + [UnterminatedString];
        return Made(String, start);
      }
      var _ := Advance();
      return Made(String, start);
    }

    method ScanOne() returns (token: Token)
      requires Valid()
      modifies this
      ensures Valid() && old(current) <= current
      ensures var s := Skip(old(Rest()), preserveTrivia);
              var u := old(Rest())[s.length..];
              if u == "" then
                && token == Token(Eof, "") && current == |source| && errors == old(errors) + Reported(s.error)
              else
                var r := ScanToken(u, preserveTrivia);
                && token == Token(r.kind, u[..r.length]) && Rest() == u[r.length..]
                && errors == old(errors) + Reported(s.error) + Reported(r.error)
    {
      SkipWhitespaceAndComments();
      var start := current;
      ghost var u := Rest();
      assert u == old(Rest())[Skip(old(Rest()), preserveTrivia).length..];
      if current >= |source| { return Token(Eof, ""); }
      token := ScanAt(start);
      ghost var r := ScanToken(u, preserveTrivia);
      assert u[..r.length] == source[start..current] && u[r.length..] == Rest();
    }

    /** The token at the cursor, with no blanks in front. */
    method ScanAt(start: nat) returns (token: Token)
      requires Valid() && current == start < |source|
      modifies this
      ensures Took(start, ScanToken(source[start..], preserveTrivia), token)
      ensures errors == old(errors) + Reported(ScanToken(source[start..], preserveTrivia).error)
    {
      hide ScanWord, ScanNumber, ScanString, ScanPunctuation;
      ghost var t := source[start..];
      var c := Advance();
      assert t[1..] == Rest() && c == t[0];
      assert Ahead(t, 1) == Ahead(Rest(), 0);
      if IsLetter(c) || c == '_' {
        token := ScanIdentifier(start);
      } else if IsDecimal(c) {
        token := ScanDigits(start);
      } else if c == '"' {
        token := StringLiteral(start);
      } else if preserveTrivia && c == '/' && Peek(0) == '/' {
        var _ := Advance();
        assert t[2..] == Rest();
        SpanOver(Line);
        token := Made(LineComment, start);
      } else if preserveTrivia && c == '/' && Peek(0) == '*' {
        var _ := Advance();
        assert t[2..] == Rest();
        OverComment();
        assert Ahead(t, current - start) == Ahead(Rest(), 0);
        if Peek(0) == NUL {
          errors := errors + [UnterminatedComment];
          return Made(BlockComment, start);
        }
        current := current + 2;
        token := Made(BlockComment, start);
      } else {
        token := Punctuation(start, c);
      }
    }

    method Punctuation(start: nat, c: char) returns (token: Token)
      requires Valid() && current == start + 1 && c == source[start]
      modifies this
      ensures Took(start, ScanPunctuation(source[start..]), token)
      ensures errors == old(errors) + Reported(ScanPunctuation(source[start..]).error)
    {
      ghost var t := source[start..];
      assert Ahead(t, 1) == Ahead(Rest(), 0);
      var kind;
      match c {
        case '(' => kind := LParen;
        case ')' => kind := RParen;
        case '{' => kind := LBrace;
        case '}' => kind := RBrace;
        case '[' => kind := LBracket;
        case ']' => kind := RBracket;
        case ',' => kind := Comma;
        case ':' => kind := Colon;
        case ';' => kind := Semicolon;
        case '.' => kind := Dot;
        case '+' => kind := Plus;
        case '-' => kind := Minus;
        case '*' => kind := Star;
        case '%' => kind := Percent;
        case '/' => kind := Slash;
        case '!' =>
          var two := Match('=');
          kind := if two then BangEqual else Bang;
        case '=' =>
          var two := Match('=');
          kind := if two then EqualEqual else Equal;
        case '<' =>
          var two := Match('=');
          kind := if two then LessEqual else Less;
        case '>' =>
          var two := Match('=');
          kind := if two then GreaterEqual else Greater;
        case '&' =>
          var two := Match('&');
          kind := if two then AndAnd else Ampersand;
        case '|' =>
          var two := Match('|');
          kind := if two then OrOr else Eof;
          if !two { errors := errors + [UnexpectedCharacter]; }
        case _ =>
          kind := Eof;
          errors := errors + [UnexpectedCharacter];
      }
      return Made(kind, start);
    }

    method LexAll() returns (tokens: seq<Token>)
      requires Valid()
      modifies this
      ensures Lexed(tokens, errors) == Lexed(Lex(old(Rest()), preserveTrivia).tokens, old(errors) + Lex(old(Rest()), preserveTrivia).errors)
    {
      hide Skip, ScanToken, Lex;
      ghost var whole := Lex(Rest(), preserveTrivia);
      tokens := [];
      while true
        invariant Valid()
        invariant var r := Lex(Rest(), preserveTrivia);
                  tokens + r.tokens == whole.tokens && errors + r.errors == old(errors) + whole.errors
        decreases |source| - current
      {
        ghost var rest, before := Rest(), errors;
        var token := ScanOne();
        tokens := tokens + [token];
        LexUnfolds(rest, preserveTrivia);
        if token.kind.Eof? { break; }
      }
    }
  }

  method LexSource(source: string, keep: bool) returns (lexed: Lexed)
    ensures lexed == Lex(source, keep)
  {
    hide Lex;
    var lexer := new Lexer(source, keep);
    var tokens := lexer.LexAll();
    assert [] + Lex(source, keep).errors == Lex(source, keep).errors;
    return Lexed(tokens, lexer.errors);
  }
}
