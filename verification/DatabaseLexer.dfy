/**
 The lexer of database scripts, and what it reads back.

 The functions say which token stands at each place of a script; class `ScriptLexer` reads them with a cursor.
 */
module DatabaseLexer {
  import opened Basics
  import opened DatabaseText
  import opened Hexadecimal
  import opened DatabaseScript
  import D = Decimal

  predicate IsAlpha(c: char) {
    'a' <= c <= 'z' || 'A' <= c <= 'Z' || c == '_'
  }

  predicate IsWordChar(c: char) {
    IsAlpha(c) || D.IsDigit(c) || c == '-'
  }

  /** Behind the end of the line. */
  function LineFrom(s: string, i: nat): (n: nat)
    requires i <= |s|
    ensures i <= n <= |s| && (i < |s| ==> i < n)
    decreases |s| - i
  {
    if i == |s| then i else if s[i] == '\n' then i + 1 else LineFrom(s, i + 1)
  }

  /** Behind blanks and comments; comments start with `//` or `#`. */
  function GapFrom(s: string, i: nat): (n: nat)
    requires i <= |s|
    ensures i <= n <= |s|
    decreases |s| - i
  {
    if i < |s| && IsSpace(s[i]) then GapFrom(s, i + 1)
    else if i + 1 < |s| && s[i] == '/' && s[i + 1] == '/' then GapFrom(s, LineFrom(s, i))
    else if i < |s| && s[i] == '#' then GapFrom(s, LineFrom(s, i))
    else i
  }

  function WordFrom(s: string, i: nat): (n: nat)
    requires i <= |s|
    ensures i <= n <= |s|
    decreases |s| - i
  {
    if i < |s| && IsWordChar(s[i]) then WordFrom(s, i + 1) else i
  }

  /** Digits with at most one dot; `dot` says whether it was seen. */
  function NumberFrom(s: string, i: nat, dot: bool): (n: nat)
    requires i <= |s|
    ensures i <= n <= |s|
    decreases |s| - i
  {
    if i < |s| && s[i] == '.' && !dot then NumberFrom(s, i + 1, true)
    else if i < |s| && D.IsDigit(s[i]) then NumberFrom(s, i + 1, dot)
    else i
  }

  datatype Quoted = Quoted(text: string, next: nat, closed: bool)

  function Escaped(c: char): char {
    match c
    case 'n' => '\n'
    case 'r' => '\r'
    case 't' => '\t'
    case _ => c
  }

  /** The text of a string literal behind its opening quote, with its escapes resolved. */
  function QuotedFrom(s: string, i: nat): (q: Quoted)
    requires i <= |s|
    ensures i <= q.next <= |s|
    ensures AllBytes(s) ==> AllBytes(q.text)
    decreases |s| - i
  {
    if i == |s| then Quoted("", i, false)
    else if s[i] == '"' then Quoted("", i + 1, true)
    else if s[i] == '\\' && i + 1 < |s| then
      var q := QuotedFrom(s, i + 2);
      q.(text := [Escaped(s[i + 1])] + q.text)
    else
      var q := QuotedFrom(s, i + 1);
      q.(text := [s[i]] + q.text)
  }

  function Punctuation(c: char): (k: Option<Kind>)
    ensures k.Some? ==> IsPunctuation(k.value)
  {
    match c
    case '{' => Some(LBrace)
    case '}' => Some(RBrace)
    case ':' => Some(Colon)
    case ',' => Some(Comma)
    case ';' => Some(Semi)
    case '=' => Some(Equals)
    case _ => None
  }

  predicate IsPunctuation(k: Kind) {
    !(k.Id? || k.Str? || k.Num? || k.End?)
  }

  function Spelling(k: Kind): (c: char)
    requires IsPunctuation(k)
    ensures Punctuation(c) == Some(k)
  {
    match k
    case LBrace => '{'
    case RBrace => '}'
    case Colon => ':'
    case Comma => ','
    case Semi => ';'
    case Equals => '='
  }

  /** What stands at a place: a token, or a character that starts none; `ok` unless it is an error. */
  datatype Item = Item(token: Option<Token>, next: nat, ok: bool)

  function ItemFrom(s: Bytes, i: nat): (r: Item)
    requires i < |s|
    ensures i < r.next <= |s|
  {
    var c := s[i];
    if IsAlpha(c) then
      var n := WordFrom(s, i + 1);
      Item(Some(Token(Id, s[i..n])), n, true)
    else if D.IsDigit(c) || (c == '-' && i + 1 < |s| && D.IsDigit(s[i + 1])) then
      var n := NumberFrom(s, i + 1, false);
      Item(Some(Token(Num, s[i..n])), n, true)
    else if c == '"' then
      var q := QuotedFrom(s, i + 1);
      Item(Some(Token(Str, q.text)), q.next, q.closed)
    else
      match Punctuation(c)
      case Some(k) => Item(Some(Token(k, [c])), i + 1, true)
      case None => Item(None, i + 1, false)
  }

  datatype Scanned = Scanned(tokens: seq<Token>, ok: bool)

  function Joined(item: Item, rest: Scanned): Scanned {
    Scanned(Shown(item.token) + rest.tokens, item.ok && rest.ok)
  }

  /** The tokens from a place on, and whether there was no error. */
  function LexFrom(s: Bytes, i: nat): Scanned
    requires i <= |s|
    decreases |s| - i
  {
    var n := GapFrom(s, i);
    if n == |s| then Scanned([Token(End, "")], true)
    else
      var item := ItemFrom(s, n);
      Joined(item, LexFrom(s, item.next))
  }

  function LexScript(s: Bytes): Scanned {
    LexFrom(s, 0)
  }

  function Shown(token: Option<Token>): seq<Token> {
    if token.Some? then [token.value] else []
  }

  /** The tokens before index `i` were read. */
  ghost predicate Reads(s: Bytes, i: nat, out: seq<Token>, failed: bool) {
    i <= |s| && LexScript(s) == Scanned(out + LexFrom(s, i).tokens, !failed && LexFrom(s, i).ok)
  }

  lemma NothingRead(s: Bytes)
    ensures Reads(s, 0, [], false)
  {
    assert [] + LexFrom(s, 0).tokens == LexFrom(s, 0).tokens;
  }

  lemma OneRead(s: Bytes, i: nat, out: seq<Token>, failed: bool)
    requires Reads(s, i, out, failed) && GapFrom(s, i) < |s|
    ensures var item := ItemFrom(s, GapFrom(s, i)); Reads(s, item.next, out + Shown(item.token), failed || !item.ok)
  {
    hide ItemFrom, GapFrom, LexScript;
    var item := ItemFrom(s, GapFrom(s, i));
    var rest := LexFrom(s, item.next);
    assert LexFrom(s, i) == Joined(item, rest);
    assert out + (Shown(item.token) + rest.tokens) == (out + Shown(item.token)) + rest.tokens;
  }

  lemma AllRead(s: Bytes, i: nat, out: seq<Token>, failed: bool)
    requires Reads(s, i, out, failed) && GapFrom(s, i) == |s|
    ensures Scanned(out + [Token(End, "")], !failed) == LexScript(s)
  {
    hide GapFrom;
  }

  // ----- the lexer -----

  /** A script being read into tokens. */
  class ScriptLexer {
    const input: Bytes
    var pos: nat
    var failed: bool

    ghost predicate Valid()
      reads this
    {
      pos <= |input|
    }

    constructor (input: Bytes)
      ensures this.input == input && pos == 0 && !failed
    {
      this.input := input;
      pos, failed := 0, false;
    }

    method SkipLine()
      requires Valid()
      modifies this`pos
      ensures Valid() && pos == LineFrom(input, old(pos))
    {
      while pos < |input|
        invariant old(pos) <= pos <= |input| && LineFrom(input, pos) == LineFrom(input, old(pos))
        decreases |input| - pos
      {
        var c := input[pos];
        pos := pos + 1;
        if c == '\n' { return; }
      }
    }

    method Skip()
      requires Valid()
      modifies this`pos
      ensures Valid() && pos == GapFrom(input, old(pos))
    {
      while true
        invariant old(pos) <= pos <= |input| && GapFrom(input, pos) == GapFrom(input, old(pos))
        decreases |input| - pos
      {
        ghost var before := pos;
        while pos < |input| && IsSpace(input[pos])
          invariant before <= pos <= |input| && GapFrom(input, pos) == GapFrom(input, old(pos))
          decreases |input| - pos
        {
          pos := pos + 1;
        }
        if pos + 1 < |input| && input[pos] == '/' && input[pos + 1] == '/' {
          SkipLine();
        } else if pos < |input| && input[pos] == '#' {
          SkipLine();
        } else {
          break;
        }
      }
    }

    method Run() returns (out: seq<Token>)
      requires pos == 0 && !failed
      modifies this
      ensures Scanned(out, !failed) == LexScript(input)
    {
      hide Reads, LexScript, GapFrom, ItemFrom;
      out := [];
      NothingRead(input);
      while true
        invariant Valid() && Reads(input, pos, out, failed)
        decreases |input| - pos
      {
        ghost var before := pos;
        Skip();
        if pos >= |input| {
          AllRead(input, before, out, failed);
          break;
        }
        OneRead(input, before, out, failed);
        var token := ReadItem();
        if token.Some? { out := out + [token.value]; } else { assert out + [] == out; }
      }
      out := out + [Token(End, "")];
    }

    /** What stands at the cursor. */
    method ReadItem() returns (token: Option<Token>)
      requires pos < |input|
      modifies this
      ensures var item := ItemFrom(input, old(pos));
              token == item.token && pos == item.next && failed == (old(failed) || !item.ok)
    {
      hide WordFrom, NumberFrom, QuotedFrom;
      var c := input[pos];
      pos := pos + 1;
      if IsAlpha(c) {
        var text := Word();
        return Some(Token(Id, text));
      } else if D.IsDigit(c) || (c == '-' && pos < |input| && D.IsDigit(input[pos])) {
        var text := Number();
        return Some(Token(Num, text));
      } else if c == '"' {
        var text := Text();
        return Some(Token(Str, text));
      }
      var kind := Punctuation(c);
      if kind.Some? { return Some(Token(kind.value, [c])); }
      failed := true;
      return None;
    }

    /** A word whose first character was read. */
    method Word() returns (text: Bytes)
      requires Valid() && pos > 0
      modifies this`pos
      ensures Valid() && pos == WordFrom(input, old(pos)) && text == input[old(pos) - 1..pos]
    {
      var s: string := [input[pos - 1]];
      while pos < |input| && IsWordChar(input[pos])
        invariant old(pos) <= pos <= |input| && s == input[old(pos) - 1..pos]
        invariant WordFrom(input, pos) == WordFrom(input, old(pos))
        decreases |input| - pos
      {
        s := s + [input[pos]];
        pos := pos + 1;
      }
      return s;
    }

    /** A number whose first character was read. */
    method Number() returns (text: Bytes)
      requires Valid() && pos > 0
      modifies this`pos
      ensures Valid() && pos == NumberFrom(input, old(pos), false) && text == input[old(pos) - 1..pos]
    {
      var s: string := [input[pos - 1]];
      var dot := false;
      while pos < |input|
        invariant old(pos) <= pos <= |input| && s == input[old(pos) - 1..pos]
        invariant NumberFrom(input, pos, dot) == NumberFrom(input, old(pos), false)
        decreases |input| - pos
      {
        var n := input[pos];
        if n == '.' && !dot {
          dot := true;
        } else if !D.IsDigit(n) {
          break;
        }
        s := s + [n];
        pos := pos + 1;
      }
      return s;
    }

    /** The text of a string literal behind its opening quote; one that is not closed is an error. */
    method Text() returns (text: string)
      requires Valid()
      modifies this
      ensures Valid()
      ensures var q := QuotedFrom(input, old(pos)); text == q.text && pos == q.next && failed == (old(failed) || !q.closed)
    {
      hide QuotedFrom;
      text := "";
      Nothing(QuotedFrom(input, pos));
      while pos < |input|
        invariant old(pos) <= pos <= |input| && failed == old(failed)
        invariant QuotedFrom(input, old(pos)) == Behind(text, QuotedFrom(input, pos))
        decreases |input| - pos
      {
        OneCharacter(input, pos, text);
        var n := input[pos];
        pos := pos + 1;
        if n == '"' { return; }
        if n == '\\' && pos < |input| {
          var e := input[pos];
          pos := pos + 1;
          text := text + [Escaped(e)];
        } else {
          text := text + [n];
        }
      }
      OneCharacter(input, pos, text);
      failed := true;
    }
  }

  function Behind(text: string, q: Quoted): Quoted {
    q.(text := text + q.text)
  }

  lemma Nothing(q: Quoted)
    ensures Behind("", q) == q
  {
  }

  /** One turn of reading a string literal. */
  lemma OneCharacter(s: string, i: nat, text: string)
    requires i <= |s|
    ensures var q := Behind(text, QuotedFrom(s, i));
            q == if i == |s| then Quoted(text, i, false)
                 else if s[i] == '"' then Quoted(text, i + 1, true)
                 else if s[i] == '\\' && i + 1 < |s| then Behind(text + [Escaped(s[i + 1])], QuotedFrom(s, i + 2))
                 else Behind(text + [s[i]], QuotedFrom(s, i + 1))
  {
    assert forall c: char, rest: string :: text + ([c] + rest) == text + [c] + rest;
    assert text + "" == text;
  }

  // ----- what the lexer reads back -----

  /** A token that a script can spell. */
  predicate Writable(t: Token) {
    match t.kind
    case Id => t.text != "" && IsAlpha(t.text[0]) && forall k :: 0 < k < |t.text| ==> IsWordChar(t.text[k])
    case Num => Numeral(t.text)
    case Str => true
    case End => false
    case k => t.text == [Spelling(k)]
  }

  /** A digit, or a minus and a digit, and then digits and at most one dot. */
  predicate Numeral(s: string) {
    && s != "" && (D.IsDigit(s[0]) || (s[0] == '-' && |s| > 1 && D.IsDigit(s[1])))
    && (forall k :: 0 < k < |s| ==> s[k] == '.' || D.IsDigit(s[k]))
    && forall j, k :: 0 < j < k < |s| ==> s[j] != '.' || s[k] != '.'
  }

  function Quote(s: string): (r: string)
    ensures AllBytes(s) ==> AllBytes(r)
  {
    if s == "" then "\""
    else (if s[0] == '"' || s[0] == '\\' then ['\\', s[0]] else [s[0]]) + Quote(s[1..])
  }

  function Spelled(t: Token): (r: string)
    ensures AllBytes(r)
  {
    if t.kind.Str? then "\"" + Quote(t.text) else t.text
  }

  /** The tokens with a blank behind each. */
  function Written(ts: seq<Token>): (r: string)
    ensures AllBytes(r)
  {
    if ts == [] then "" else Spelled(ts[0]) + " " + Written(ts[1..])
  }

  predicate Writables(ts: seq<Token>) {
    forall k :: 0 <= k < |ts| ==> Writable(ts[k])
  }

  lemma {:induction false} WordIs(s: string, i: nat, j: nat)
    requires i <= j <= |s| && (forall k :: i <= k < j ==> IsWordChar(s[k])) && (j == |s| || !IsWordChar(s[j]))
    ensures WordFrom(s, i) == j
    decreases j - i
  {
    if i < j { WordIs(s, i + 1, j); }
  }

  lemma {:induction false} NumberIs(s: string, i: nat, j: nat, dot: bool)
    requires i <= j <= |s| && (forall k :: i <= k < j ==> s[k] == '.' || D.IsDigit(s[k]))
    requires forall k, l :: i <= k < l < j ==> s[k] != '.' || s[l] != '.'
    requires dot ==> forall k :: i <= k < j ==> s[k] != '.'
    requires j == |s| || (s[j] != '.' && !D.IsDigit(s[j]))
    ensures NumberFrom(s, i, dot) == j
    decreases j - i
  {
    if i < j { NumberIs(s, i + 1, j, dot || s[i] == '.'); }
  }

  /** Every text can be quoted. */
  lemma {:induction false} QuotedReadsBack(s: string, i: nat, text: string)
    requires i + |Quote(text)| <= |s| && s[i..i + |Quote(text)|] == Quote(text)
    ensures QuotedFrom(s, i) == Quoted(text, i + |Quote(text)|, true)
    decreases |text|
  {
    hide AllBytes;
    var q := Quote(text);
    assert s[i] == q[0];
    if text != "" {
      var n := if text[0] == '"' || text[0] == '\\' then 2 else 1;
      if n == 2 { assert s[i + 1] == q[1]; }
      QuoteRest(s, i, text, n);
      QuotedReadsBack(s, i + n, text[1..]);
      assert text == [text[0]] + text[1..];
    }
  }

  lemma QuoteRest(s: string, i: nat, text: string, n: nat)
    requires text != "" && n == if text[0] == '"' || text[0] == '\\' then 2 else 1
    requires i + |Quote(text)| <= |s| && s[i..i + |Quote(text)|] == Quote(text)
    ensures |Quote(text)| == n + |Quote(text[1..])| && s[i + n..i + |Quote(text)|] == Quote(text[1..])
  {
    var q := Quote(text);
    assert s[i + n..i + |q|] == s[i..i + |q|][n..] == q[n..];
  }

  lemma WordReadsBack(s: string, i: nat, u: string)
    requires 0 < |u| && i + |u| < |s| && s[i..i + |u|] == u && s[i + |u|] == ' '
    requires forall k :: 0 < k < |u| ==> IsWordChar(u[k])
    ensures WordFrom(s, i + 1) == i + |u|
  {
    forall k | i < k < i + |u| ensures IsWordChar(s[k]) { assert s[i..i + |u|][k - i] == s[k]; }
    WordIs(s, i + 1, i + |u|);
  }

  lemma NumberReadsBack(s: string, i: nat, u: string)
    requires Numeral(u) && i + |u| < |s| && s[i..i + |u|] == u && s[i + |u|] == ' '
    ensures NumberFrom(s, i + 1, false) == i + |u|
  {
    forall k | i < k < i + |u| ensures s[k] == u[k - i] { assert s[i..i + |u|][k - i] == s[k]; }
    NumberIs(s, i + 1, i + |u|, false);
  }

  /** A spelled token is read back, up to the blank behind it. */
  lemma ItemReadsBack(s: Bytes, i: nat, t: Token)
    requires Writable(t) && i + |Spelled(t)| < |s| && s[i..i + |Spelled(t)|] == Spelled(t) && s[i + |Spelled(t)|] == ' '
    ensures ItemFrom(s, i) == Item(Some(t), i + |Spelled(t)|, true) && GapFrom(s, i) == i
  {
    hide Quote, AllBytes, QuotedFrom, WordFrom, NumberFrom;
    var u := Spelled(t);
    var j := i + |u|;
    assert s[i] == u[0];
    if |u| > 1 { assert s[i + 1] == u[1]; }
    match t.kind
    case Id => WordReadsBack(s, i, u);
    case Num => NumberReadsBack(s, i, u);
    case Str =>
      assert s[i + 1..j] == s[i..j][1..] == u[1..] == Quote(t.text);
      QuotedReadsBack(s, i + 1, t.text);
    case _ =>
  }

  lemma {:induction false} WrittenReadsBack(s: Bytes, i: nat, ts: seq<Token>)
    requires i <= |s| && s[i..] == Written(ts) && Writables(ts)
    ensures LexFrom(s, i) == Scanned(ts + [Token(End, "")], true)
    decreases |ts|
  {
    hide LexFrom, Writable, Writables, Spelled, AllBytes;
    if ts != [] {
      WritablesRest(ts);
      SpelledFirst(s, i, Spelled(ts[0]), Written(ts[1..]));
      WrittenReadsBack(s, i + |Spelled(ts[0])| + 1, ts[1..]);
      FirstReadBack(s, i, ts[0], ts[1..]);
      assert ts == [ts[0]] + ts[1..];
    } else {
      NothingLeft(s);
      assert ts + [Token(End, "")] == [Token(End, "")];
    }
  }

  lemma NothingLeft(s: Bytes)
    ensures LexFrom(s, |s|) == Scanned([Token(End, "")], true)
  {
  }

  lemma FirstReadBack(s: Bytes, i: nat, t: Token, ts: seq<Token>)
    requires Writable(t)
    requires var j := i + |Spelled(t)|;
             && j < |s| && s[i..j] == Spelled(t) && s[j] == ' '
             && LexFrom(s, j + 1) == Scanned(ts + [Token(End, "")], true)
    ensures LexFrom(s, i) == Scanned([t] + ts + [Token(End, "")], true)
  {
    hide ItemFrom, Writable, LexFrom, GapFrom, Spelled;
    var j := i + |Spelled(t)|;
    ItemReadsBack(s, i, t);
    ItemThenRest(s, i, t, j);
    GapOnward(s, j);
    assert [t] + (ts + [Token(End, "")]) == [t] + ts + [Token(End, "")];
  }

  lemma WritablesRest(ts: seq<Token>)
    requires ts != [] && Writables(ts)
    ensures Writable(ts[0]) && Writables(ts[1..])
  {
  }

  lemma SpelledFirst(s: string, i: nat, u: string, rest: string)
    requires i <= |s| && s[i..] == u + " " + rest
    ensures var j := i + |u|; j < |s| && s[i..j] == u && s[j] == ' ' && s[j + 1..] == rest
  {
    var j := i + |u|;
    assert s[i..j] == s[i..][..|u|] && s[j] == s[i..][|u|] == ' ' && s[j + 1..] == s[i..][|u| + 1..] == rest;
  }

  lemma ItemThenRest(s: Bytes, i: nat, t: Token, j: nat)
    requires i < j < |s| && GapFrom(s, i) == i && ItemFrom(s, i) == Item(Some(t), j, true)
    ensures LexFrom(s, i) == Scanned([t] + LexFrom(s, j).tokens, LexFrom(s, j).ok)
  {
  }

  lemma GapOnward(s: Bytes, i: nat)
    requires i < |s| && IsSpace(s[i])
    ensures LexFrom(s, i) == LexFrom(s, i + 1)
  {
  }

  lemma {:induction false} WordShape(s: string, i: nat, k: nat)
    requires i <= |s| && i <= k < WordFrom(s, i)
    ensures IsWordChar(s[k])
    decreases |s| - i
  {
    if i < k { WordShape(s, i + 1, k); }
  }

  lemma {:induction false} NumberShape(s: string, i: nat, dot: bool, k: nat, l: nat)
    requires i <= |s| && i <= k <= l < NumberFrom(s, i, dot)
    ensures s[l] == '.' || D.IsDigit(s[l])
    ensures dot ==> s[l] != '.'
    ensures k < l ==> s[k] != '.' || s[l] != '.'
    decreases |s| - i
  {
    if i < l { NumberShape(s, i + 1, dot || s[i] == '.', if k == i then i + 1 else k, l); }
  }

  lemma ItemIsWritable(s: Bytes, i: nat)
    requires i < |s|
    ensures var t := ItemFrom(s, i).token; t.Some? ==> Writable(t.value)
  {
    var c := s[i];
    if IsAlpha(c) {
      var u := s[i..WordFrom(s, i + 1)];
      forall k | 0 < k < |u| ensures IsWordChar(u[k]) { WordShape(s, i + 1, i + k); }
    } else if D.IsDigit(c) || (c == '-' && i + 1 < |s| && D.IsDigit(s[i + 1])) {
      var u := s[i..NumberFrom(s, i + 1, false)];
      forall k | 0 < k < |u| ensures u[k] == '.' || D.IsDigit(u[k]) { NumberShape(s, i + 1, false, i + k, i + k); }
      forall k, l | 0 < k < l < |u| ensures u[k] != '.' || u[l] != '.' { NumberShape(s, i + 1, false, i + k, i + l); }
    }
  }

  lemma FirstWritable(item: Item, rest: Scanned)
    requires item.token.Some? ==> Writable(item.token.value)
    requires rest.tokens != [] && rest.tokens[|rest.tokens| - 1] == Token(End, "") && Writables(rest.tokens[..|rest.tokens| - 1])
    ensures var ts := Joined(item, rest).tokens;
            && ts != [] && ts[|ts| - 1] == Token(End, "") && Writables(ts[..|ts| - 1])
            && Script(ts)
  {
    var ts := Joined(item, rest).tokens;
    var at := if item.token.Some? then 1 else 0;
    assert ts[at..] == rest.tokens;
    forall k | 0 <= k < |ts| - 1 ensures Writable(ts[k]) {
      if k >= at { assert ts[k] == rest.tokens[..|rest.tokens| - 1][k - at]; }
    }
  }

  /** The lexer yields writable tokens and an end token, which is what the statements expect of a script. */
  lemma {:induction false} LexedIsWritable(s: Bytes, i: nat)
    requires i <= |s|
    ensures var ts := LexFrom(s, i).tokens;
            ts != [] && ts[|ts| - 1] == Token(End, "") && Writables(ts[..|ts| - 1])
    ensures Script(LexFrom(s, i).tokens)
    decreases |s| - i
  {
    var n := GapFrom(s, i);
    if n < |s| {
      var item := ItemFrom(s, n);
      ItemIsWritable(s, n);
      hide GapFrom, ItemFrom;
      LexedIsWritable(s, item.next);
      FirstWritable(item, LexFrom(s, item.next));
    }
  }

  /** Tokens are those of some script without errors exactly if each can be written. */
  lemma HasScriptIffWritable(ts: seq<Token>)
    ensures (exists s: Bytes :: LexScript(s) == Scanned(ts + [Token(End, "")], true)) <==> Writables(ts)
  {
    if Writables(ts) {
      var s: Bytes := Written(ts);
      WrittenReadsBack(s, 0, ts);
      assert LexScript(s) == Scanned(ts + [Token(End, "")], true);
    }
    forall s: Bytes | LexScript(s) == Scanned(ts + [Token(End, "")], true) ensures Writables(ts) {
      LexedIsWritable(s, 0);
      assert (ts + [Token(End, "")])[..|ts|] == ts;
    }
  }
}
