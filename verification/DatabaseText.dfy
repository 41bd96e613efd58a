/** How NoqeriDB files spell numbers and lines: decimal integers, words between blanks. */
module DatabaseText {
  import opened Basics
  import opened Hexadecimal
  import D = Decimal

  lemma {:induction false} HexIsSolid(s: Bytes)
    ensures Solid(Hex(s)) && |Hex(s)| == 2 * |s|
  {
    if s != "" { HexIsSolid(s[1..]); }
  }

  // ----- integers -----

  predicate IsSpace(c: char) {
    c == ' ' || '\t' <= c <= '\r'
  }

  function IntText(n: int): Bytes {
    if n < 0 then TextBytes(-n); "-" + D.Text(-n) else TextBytes(n); D.Text(n)
  }

  lemma TextBytes(n: nat)
    ensures AllBytes(D.Text(n)) && AllBytes("-" + D.Text(n))
  {
    assert forall k :: 0 <= k < |D.Text(n)| ==> D.IsDigit(D.Text(n)[k]);
  }

  /** The number of leading decimal digits. */
  function DigitCount(s: string): (n: nat)
    ensures n <= |s| && forall k :: 0 <= k < n ==> D.IsDigit(s[k])
  {
    if s == "" || !D.IsDigit(s[0]) then 0 else 1 + DigitCount(s[1..])
  }

  /** std::stoll and std::stoi: leading blanks, a sign, then digits; what follows is ignored. */
  function ParseInt(s: string): Option<int> {
    if s != "" && IsSpace(s[0]) then ParseInt(s[1..])
    else if s != "" && s[0] == '-' then (match ParseNat(s[1..]) case Some(n) => Some(Negated(n)) case None => None)
    else ParseNat(if s != "" && s[0] == '+' then s[1..] else s)
  }

  function Negated(n: int): int {
    -n
  }

  function ParseNat(s: string): Option<nat> {
    var n := DigitCount(s);
    if n == 0 then None else Some(D.Value(s[..n]))
  }

  lemma {:induction false} AllDigits(s: string)
    requires forall k :: 0 <= k < |s| ==> D.IsDigit(s[k])
    ensures DigitCount(s) == |s|
  {
    if s != "" { AllDigits(s[1..]); }
  }

  lemma ParseNatOfText(n: nat)
    ensures ParseNat(D.Text(n)) == Some(n)
  {
    AllDigits(D.Text(n));
    D.ValueOfText(n);
    assert D.Text(n)[..|D.Text(n)|] == D.Text(n);
  }

  lemma ParseIntOfText(n: int)
    ensures ParseInt(IntText(n)) == Some(n)
  {
    if n < 0 {
      ParseNatOfText(-n);
      assert IntText(n)[1..] == D.Text(-n);
    } else {
      ParseNatOfText(n);
      assert D.IsDigit(D.Text(n)[0]);
    }
  }

  // ----- words -----

  predicate Solid(s: string) {
    forall k :: 0 <= k < |s| ==> !IsSpace(s[k])
  }

  function WordLength(s: string): (n: nat)
    ensures n <= |s|
  {
    if s == "" || IsSpace(s[0]) then 0 else 1 + WordLength(s[1..])
  }

  /** The words of a line, as stream extraction reads them. */
  function Words(s: string): seq<string>
    decreases |s|
  {
    if s == "" then []
    else if IsSpace(s[0]) then Words(s[1..])
    else [s[..WordLength(s)]] + Words(s[WordLength(s)..])
  }

  /** Words joined by single blanks. */
  function Join(ws: seq<string>): string {
    if ws == [] then ""
    else if |ws| == 1 then ws[0]
    else ws[0] + (" " + Join(ws[1..]))
  }

  /** Empty words leave no trace in the line. */
  function NonEmpty(ws: seq<string>): seq<string> {
    if ws == [] then [] else (if ws[0] == "" then [] else [ws[0]]) + NonEmpty(ws[1..])
  }

  lemma {:induction false} WordEnds(w: string, rest: string)
    requires Solid(w) && (rest == "" || IsSpace(rest[0]))
    ensures WordLength(w + rest) == |w|
  {
    if w == "" {
      assert w + rest == rest;
    } else {
      assert (w + rest)[1..] == w[1..] + rest;
      WordEnds(w[1..], rest);
    }
  }

  lemma WordThen(w: string, rest: string)
    requires Solid(w) && w != "" && (rest == "" || IsSpace(rest[0]))
    ensures Words(w + rest) == [w] + Words(rest)
  {
    WordEnds(w, rest);
    assert (w + rest)[..|w|] == w && (w + rest)[|w|..] == rest;
    assert !IsSpace((w + rest)[0]) by { assert (w + rest)[0] == w[0]; }
  }

  /** Reading a joined line gives its words, except the empty ones. */
  lemma {:induction false} WordsOfJoin(ws: seq<string>)
    requires forall w <- ws :: Solid(w)
    ensures Words(Join(ws)) == NonEmpty(ws)
  {
    if ws != [] {
      assert ws[0] in ws;
      WordsOfJoin(ws[1..]);
      if |ws| == 1 {
        assert ws[0] + "" == ws[0] && ws[1..] == [];
        if ws[0] != "" { WordThen(ws[0], ""); }
      } else {
        var rest := " " + Join(ws[1..]);
        assert rest[1..] == Join(ws[1..]);
        if ws[0] == "" { assert ws[0] + rest == rest; } else { WordThen(ws[0], rest); }
      }
    }
  }

  lemma {:induction false} NothingEmpty(ws: seq<string>)
    requires forall k :: 0 <= k < |ws| ==> ws[k] != ""
    ensures NonEmpty(ws) == ws
  {
    if ws != [] {
      NothingEmpty(ws[1..]);
    }
  }

  /** The k-th word; extraction that finds none leaves an empty string. */
  function WordAt(line: string, k: nat): string {
    var ws := Words(line);
    if k < |ws| then ws[k] else ""
  }

  /** The k-th word as a count; extraction that finds no number leaves zero. */
  function NumberAt(line: string, k: nat): nat {
    match ParseNat(WordAt(line, k)) case Some(n) => n case None => 0
  }
}
