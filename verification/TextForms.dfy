/**
 The small alphabets everything else is written in, said by tables: hexadecimal and decimal digits, blanks, database
 types, and one database file, line by line.
 */
module TextForms {
  import opened Basics
  import opened DatabaseText
  import opened Hexadecimal
  import opened Database
  import D = Decimal
  import G = Generics
  import F = DatabaseFile
  import S = DatabaseScript
  import L = DatabaseLexer

  const LOWER_DIGITS := "0123456789abcdef"
  const UPPER_DIGITS := "0123456789ABCDEF"

  // ----- hexadecimal -----

  lemma HexDigitIs(n: nat)
    requires n < 16
    ensures HexDigit(n) == LOWER_DIGITS[n]
  {
    assert LOWER_DIGITS[10] == 'a' && LOWER_DIGITS[15] == 'f';
  }

  lemma NibbleIs(c: char, n: nat)
    requires n < 16
    ensures Nibble(c) == Some(n) <==> c == LOWER_DIGITS[n] || c == UPPER_DIGITS[n]
  {
  }

  /** Each byte becomes two digits, the higher one first. */
  lemma {:induction false} HexIsHighFirst(s: string, i: nat)
    requires i < |s| && AllBytes(s)
    ensures |Hex(s)| == 2 * |s|
    ensures Hex(s)[2 * i] == LOWER_DIGITS[s[i] as int / 16] && Hex(s)[2 * i + 1] == LOWER_DIGITS[s[i] as int % 16]
    decreases |s|
  {
    HexIsSolid(s);
    if i == 0 {
      FirstByte(s);
      hide Hex;
    } else {
      HexIsHighFirst(s[1..], i - 1);
      HexRest(s);
      hide Hex;
      PairBehind(Hex(s), i);
    }
  }

  lemma PairBehind(h: string, i: nat)
    requires 0 < i && 2 * i + 1 < |h|
    ensures h[2 * i] == h[2..][2 * (i - 1)] && h[2 * i + 1] == h[2..][2 * (i - 1) + 1]
  {
  }

  lemma FirstByte(s: string)
    requires s != "" && s[0] as int < 256
    ensures |Hex(s)| >= 2 && Hex(s)[0] == LOWER_DIGITS[s[0] as int / 16] && Hex(s)[1] == LOWER_DIGITS[s[0] as int % 16]
  {
    var high, low := s[0] as int / 16, s[0] as int % 16;
    HexDigitIs(high);
    HexDigitIs(low);
    assert high % 16 == high;
    hide HexDigit;
  }

  lemma HexRest(s: string)
    requires s != ""
    ensures |Hex(s)| >= 2 && Hex(s)[2..] == Hex(s[1..])
  {
  }

  // ----- decimal -----

  function PowerOfTen(n: nat): nat {
    if n == 0 then 1 else 10 * PowerOfTen(n - 1)
  }

  lemma DecimalDigitIs(n: nat)
    requires n < 10
    ensures D.Digit(n) == LOWER_DIGITS[n]
  {
  }

  /** The leading digit counts most. */
  lemma {:induction false} ValueFromLeft(n: nat, s: string)
    requires n < 10 && forall c <- s :: D.IsDigit(c)
    ensures forall c <- [LOWER_DIGITS[n]] + s :: D.IsDigit(c)
    ensures D.Value([LOWER_DIGITS[n]] + s) == n * PowerOfTen(|s|) + D.Value(s)
    decreases |s|
  {
    DecimalDigitIs(n);
    var whole := [D.Digit(n)] + s;
    if s == "" {
      assert whole == [D.Digit(n)] && whole[..0] == "";
    } else {
      var k := |s| - 1;
      ValueFromLeft(n, s[..k]);
      assert whole[..|whole| - 1] == [D.Digit(n)] + s[..k];
      Shifted(n, k);
      hide PowerOfTen;
    }
  }

  lemma Shifted(n: nat, k: nat)
    ensures n * PowerOfTen(k + 1) == 10 * (n * PowerOfTen(k))
  {
  }

  /** Negative integers have a minus sign in front of their magnitude. */
  lemma IntTextIs(n: nat)
    ensures IntText(n) == D.Text(n)
    ensures n > 0 ==> IntText(0 - n) == "-" + D.Text(n)
    ensures D.Text(n)[|D.Text(n)| - 1] == LOWER_DIGITS[n % 10]
  {
    DecimalDigitIs(n % 10);
  }

  /** The digits at the front of a text that begins with one. */
  predicate Leads(s: string, n: nat) {
    0 < n <= |s| && (forall k :: 0 <= k < n ==> D.IsDigit(s[k])) && (n < |s| ==> !D.IsDigit(s[n]))
  }

  lemma {:induction false} DigitsLead(s: string, n: nat)
    requires Leads(s, n)
    ensures DigitCount(s) == n
    decreases n
  {
    hide D.IsDigit;
    if n > 1 {
      assert Leads(s[1..], n - 1);
      DigitsLead(s[1..], n - 1);
    }
  }

  lemma NumberIsRead(s: string, n: nat)
    requires Leads(s, n)
    ensures ParseInt(s) == Some(D.Value(s[..n])) && ParseInt("+" + s) == Some(D.Value(s[..n]))
    ensures ParseInt("-" + s) == Some(0 - D.Value(s[..n]))
  {
    DigitsLead(s, n);
    hide DigitCount, D.Value, Leads;
    assert D.IsDigit(s[0]) by { Led(s, n); }
    assert ("+" + s)[1..] == s && ("-" + s)[1..] == s;
  }

  lemma Led(s: string, n: nat)
    requires Leads(s, n)
    ensures D.IsDigit(s[0])
  {
  }

  lemma {:induction false} BlanksPassed(gap: string, s: string)
    requires forall k :: 0 <= k < |gap| ==> IsSpace(gap[k])
    ensures ParseInt(gap + s) == ParseInt(s)
    decreases |gap|
  {
    if gap == "" {
      assert gap + s == s;
    } else {
      BlanksPassed(gap[1..], s);
      assert (gap + s)[1..] == gap[1..] + s;
    }
  }

  /** A number is read behind blanks and a sign, up to the first character that is no digit. */
  lemma NumbersAreRead(gap: string, s: string, n: nat)
    requires (forall k :: 0 <= k < |gap| ==> IsSpace(gap[k])) && Leads(s, n)
    ensures ParseInt(gap + s) == Some(D.Value(s[..n])) && ParseInt(gap + ("+" + s)) == Some(D.Value(s[..n]))
    ensures ParseInt(gap + ("-" + s)) == Some(0 - D.Value(s[..n]))
  {
    hide ParseInt, D.Value;
    NumberIsRead(s, n);
    BlanksPassed(gap, s);
    BlanksPassed(gap, "+" + s);
    BlanksPassed(gap, "-" + s);
  }

  lemma NothingToRead(s: string)
    requires s == "" || !(IsSpace(s[0]) || D.IsDigit(s[0]) || s[0] in {'+', '-'})
    ensures ParseInt(s) == None
  {
  }

  lemma SpacesAre(c: char)
    ensures IsSpace(c) <==> c in {' ', '\t', '\n', '\U{0b}', '\U{0c}', '\r'}
  {
  }

  // ----- database types and values -----

  lemma LowerIs(s: string)
    ensures |Lower(s)| == |s|
    ensures forall k :: 0 <= k < |s| ==> Lower(s)[k] == if 'A' <= s[k] <= 'Z' then s[k] - 'A' + 'a' else s[k]
  {
  }

  /** The names of the types, in any case. */
  lemma TypesAre(s: string)
    ensures ParseType(s) == Some(IntType) <==> Lower(s) in {"int", "integer"}
    ensures ParseType(s) == Some(RealType) <==> Lower(s) in {"real", "float"}
    ensures ParseType(s) == Some(BoolType) <==> Lower(s) == "bool"
    ensures ParseType(s) == Some(TextType) <==> Lower(s) in {"text", "string"}
  {
    hide Lower;
  }

  /** Integers stand in real columns; otherwise columns hold values of their own kind. */
  lemma CompatibleIs(t: ValueType, v: Value)
    ensures Compatible(t, v) <==>
      (t, v.Int?, v.Real?, v.Bool?, v.Text?) in {(IntType, true, false, false, false), (RealType, false, true, false, false),
        (RealType, true, false, false, false), (BoolType, false, false, true, false), (TextType, false, false, false, true)}
  {
  }

  /** Without doubles, values are the same if they are equal; an integer is compared with a double as a double. */
  lemma SameIs(f: Reals, a: Value, b: Value)
    ensures !a.Real? && !b.Real? ==> (SameValue(f, a, b) <==> a == b)
    ensures a.Real? && b.Int? ==> (SameValue(f, a, b) <==> SameValue(f, a, Real(f.ofInt(b.i))))
    ensures a.Int? && b.Real? ==> (SameValue(f, a, b) <==> SameValue(f, Real(f.ofInt(a.i)), b))
    ensures a.Real? && b.Real? ==> (SameValue(f, a, b) <==> f.same(a.d, b.d))
    ensures (a.Real? && (b.Bool? || b.Text?)) || (b.Real? && (a.Bool? || a.Text?)) ==> !SameValue(f, a, b)
  {
  }

  lemma TextsOfValues(f: Reals, b: bool, s: Bytes)
    ensures ValueText(f, Value.Bool(b)) == (if b then "true" else "false") && ValueText(f, Value.Text(s)) == s
  {
  }

  // ----- scripts -----

  /** The signs of scripts. */
  lemma ScriptSigns(c: char, k: S.Kind)
    ensures L.Punctuation(c) == Some(k) <==>
      (c, k) in {('{', S.LBrace), ('}', S.RBrace), (':', S.Colon), (',', S.Comma), (';', S.Semi), ('=', S.Equals)}
  {
  }

  lemma ScriptWords(c: char)
    ensures L.IsAlpha(c) <==> 'a' <= c <= 'z' || 'A' <= c <= 'Z' || c == '_'
    ensures L.IsWordChar(c) <==> L.IsAlpha(c) || '0' <= c <= '9' || c == '-'
  {
  }

  /** A comment runs to the end of its line, or of the text. */
  predicate LineEnds(s: string, i: nat, n: nat)
    requires i < n <= |s|
  {
    (n == |s| || s[n - 1] == '\n') && forall k :: i <= k < n - 1 ==> s[k] != '\n'
  }

  predicate StartsComment(s: string, i: nat)
    requires i < |s|
  {
    s[i] == '#' || (s[i] == '/' && i + 1 < |s| && s[i + 1] == '/')
  }

  /** Blanks and comments only. */
  ghost predicate Blank(s: string, i: nat, n: nat)
    requires i <= n <= |s|
    decreases n - i
  {
    || i == n
    || (IsSpace(s[i]) && Blank(s, i + 1, n))
    || (StartsComment(s, i) && exists e :: i < e <= n && LineEnds(s, i, e) && Blank(s, e, n))
  }

  lemma {:induction false} LineFromEnds(s: string, i: nat)
    requires i < |s|
    ensures LineEnds(s, i, L.LineFrom(s, i))
    decreases |s| - i
  {
    if s[i] != '\n' && i + 1 < |s| { LineFromEnds(s, i + 1); }
  }

  /** What is skipped is blanks and comments, up to a character that begins neither. */
  lemma {:induction false} SkipsBlanks(s: string, i: nat)
    requires i <= |s|
    ensures var n := L.GapFrom(s, i); Blank(s, i, n) && (n < |s| ==> !IsSpace(s[n]) && !StartsComment(s, n))
    decreases |s| - i
  {
    hide L.LineFrom, LineEnds;
    if i < |s| && IsSpace(s[i]) {
      SkipsBlanks(s, i + 1);
    } else if i < |s| && StartsComment(s, i) {
      LineFromEnds(s, i);
      SkipsBlanks(s, L.LineFrom(s, i));
    }
  }

  /** A word goes on as far as it can. */
  lemma {:induction false} WordsGoOn(s: string, i: nat)
    requires i <= |s|
    ensures var n := L.WordFrom(s, i); (forall k :: i <= k < n ==> L.IsWordChar(s[k])) && (n < |s| ==> !L.IsWordChar(s[n]))
    decreases |s| - i
  {
    hide L.IsWordChar;
    if i < |s| && L.IsWordChar(s[i]) { WordsGoOn(s, i + 1); }
  }

  predicate HasDot(s: string, i: nat, n: nat)
    requires n <= |s|
  {
    exists k :: i <= k < n && s[k] == '.'
  }

  /** A number goes on as far as it can: digits, with one dot among them at most. */
  predicate NumberAt(s: string, i: nat, n: nat, dot: bool)
    requires i <= n <= |s|
  {
    && (forall k :: i <= k < n ==> D.IsDigit(s[k]) || (s[k] == '.' && !dot && !HasDot(s, i, k)))
    && (n < |s| ==> !D.IsDigit(s[n]) && (s[n] == '.' ==> dot || HasDot(s, i, n)))
  }

  lemma {:induction false} NumbersGoOn(s: string, i: nat, dot: bool)
    requires i <= |s|
    ensures NumberAt(s, i, L.NumberFrom(s, i, dot), dot)
    decreases |s| - i
  {
    var n := L.NumberFrom(s, i, dot);
    if i < |s| && s[i] == '.' && !dot {
      NumbersGoOn(s, i + 1, true);
      assert i < n ==> HasDot(s, i, n);
    } else if i < |s| && D.IsDigit(s[i]) {
      NumbersGoOn(s, i + 1, dot);
      forall k | i <= k <= n ensures HasDot(s, i, k) <==> HasDot(s, i + 1, k) {
        if HasDot(s, i, k) { var j :| i <= j < k && s[j] == '.'; assert j > i; }
      }
    }
  }

  // ----- generic types -----

  lemma WordsAre(c: char)
    ensures G.IdentStart(c) <==> 'a' <= c <= 'z' || 'A' <= c <= 'Z' || c == '_'
    ensures G.IdentChar(c) <==> G.IdentStart(c) || '0' <= c <= '9'
    ensures G.IsBlank(c) <==> c in {' ', '\t', '\r', '\n'}
  {
  }

  predicate Blanks(s: string) {
    forall k :: 0 <= k < |s| ==> G.IsBlank(s[k])
  }

  lemma {:induction false} TrimsLeft(gap: string, s: string)
    requires Blanks(gap) && (s == "" || !G.IsBlank(s[0]))
    ensures G.TrimLeft(gap + s) == s
    decreases |gap|
  {
    hide G.IsBlank;
    if gap == "" {
      assert gap + s == s;
    } else {
      TrimsLeft(gap[1..], s);
      assert (gap + s)[1..] == gap[1..] + s;
    }
  }

  lemma {:induction false} TrimsRight(s: string, tail: string)
    requires Blanks(tail) && (s == "" || !G.IsBlank(s[|s| - 1]))
    ensures G.TrimRight(s + tail) == s
    decreases |tail|
  {
    hide G.IsBlank;
    if tail == "" {
      assert s + tail == s;
    } else {
      var k := |tail| - 1;
      TrimsRight(s, tail[..k]);
      assert (s + tail)[..|s + tail| - 1] == s + tail[..k];
    }
  }

  /** Trimming takes the blanks at both ends, and no more. */
  lemma TrimsBlanks(gap: string, s: string, tail: string)
    requires Blanks(gap) && Blanks(tail) && s != "" && !G.IsBlank(s[0]) && !G.IsBlank(s[|s| - 1])
    ensures G.Trim(gap + (s + tail)) == s
  {
    hide G.IsBlank, G.TrimLeft, G.TrimRight;
    TrimsLeft(gap, s + tail);
    TrimsRight(s, tail);
  }

  lemma {:induction false} SemicolonIs(s: string, n: string)
    requires ';' !in n
    ensures G.LastSemicolon(s + (";" + n)) == Some(|s|)
    decreases |n|
  {
    var t := s + (";" + n);
    if n != "" {
      var k := |n| - 1;
      assert t[..|t| - 1] == s + (";" + n[..k]) && n[k] in n;
      SemicolonIs(s, n[..k]);
    }
  }

  lemma SliceOf(t: string)
    ensures G.ElementType("[]" + t) == t
  {
    hide G.LastSemicolon;
    var slice := "[]" + t;
    assert slice[..2] == "[]" && slice[2..] == t;
  }

  lemma VolatileOf(t: string)
    ensures G.ElementType("*volatile " + t) == t
  {
    hide G.LastSemicolon;
    var kept := "*volatile " + t;
    assert kept[..10] == "*volatile " && kept[10..] == t && kept[0] == '*';
  }

  lemma VolatileInside(t: string)
    requires "*volatile " <= "*" + t
    ensures "volatile " <= t
  {
    var pointer := "*" + t;
    assert pointer[..10] == "*volatile " && t[..9] == pointer[..10][1..] && "*volatile "[1..] == "volatile ";
  }

  lemma PointerOf(t: string)
    requires !("volatile " <= t)
    ensures G.ElementType("*" + t) == t
  {
    hide G.LastSemicolon;
    var pointer := "*" + t;
    assert pointer[0] == '*' && pointer[1..] == t && pointer[..1] == "*";
    if "*volatile " <= pointer {
      VolatileInside(t);
      assert false;
    }
  }

  lemma ArrayOf(t: string, n: string)
    requires t != "" && t[0] != ']' && ';' !in n && |t| + |n| > 1
    ensures G.ElementType("[" + t + (";" + n)) == t
  {
    SemicolonIs("[" + t, n);
    hide G.LastSemicolon;
    var counted := "[" + t + (";" + n);
    assert counted[0] == '[' && counted[1] == t[0] && counted[1..1 + |t|] == t && |counted| > 2;
    assert counted[..2] == ['[', t[0]] && "[]"[1] == ']';
  }

  /** What slices, volatile pointers, other pointers and arrays are made of. */
  lemma ElementsAre(t: string, n: string)
    ensures G.ElementType("[]" + t) == t && G.ElementType("*volatile " + t) == t
    ensures !("volatile " <= t) ==> G.ElementType("*" + t) == t
    ensures t != "" && t[0] != ']' && ';' !in n && |t| + |n| > 1 ==> G.ElementType("[" + t + (";" + n)) == t
  {
    hide G.ElementType;
    SliceOf(t);
    VolatileOf(t);
    if !("volatile " <= t) { PointerOf(t); }
    if t != "" && t[0] != ']' && ';' !in n && |t| + |n| > 1 { ArrayOf(t, n); }
  }

  // ----- examples -----

  /** An application's mangled name: its base, and each argument in hexadecimal behind a marker. */
  lemma MangledBox()
    ensures G.Mangle("Box", ["int", "T"]) == "Box" + "__nqg__" + "696e74" + "__nqg__" + "54"
  {
    var args := ["int", "T"];
    assert args[..1] == ["int"] && ["int"][..0] == [];
    assert G.Mangle("Box", []) == "Box";
    assert G.Trim("int") == "int" && G.Trim("T") == "T";
    HexOfInt();
    hide Hex;
    assert G.Mangle("Box", ["int"]) == "Box" + "__nqg__" + "696e74";
  }

  lemma HexOfInt()
    ensures Hex("int") == "696e74" && Hex("T") == "54"
  {
    assert "int"[1..] == "nt" && "nt"[1..] == "t" && "t"[1..] == "" && "T"[1..] == "";
    assert Hex("t") == "74";
    assert Hex("nt") == "6e74";
  }

  const ID := Column("id", IntType, true, false, false)
  const NOTE := Column("n", TextType, false, true, false)

  const ROW: Row := map["id" := Int(5)]
  const TABLE := Table("t", [ID, NOTE], [ROW])

  /** A file with one table of two columns and one row. */
  lemma SavedTable(f: Reals, order: set<Bytes> -> seq<Bytes>)
    requires Enumerates(order)
    ensures Save(f, order, map["t" := TABLE]) ==
      ["NQDB1", "TABLE 74 2 1", "COL 6964 int 1 0 0", "COL 6e text 0 1 0", "ROW 1", "VAL 6964 0:35", "ENDTABLE"]
  {
    TableLineIs(TABLE);
    ColumnLinesAre();
    RowLinesAre(f, ROW);
    hide Save, TableLine, ColumnLine, RowLine, ValueLine;
    SavedLines(f, order, "TABLE 74 2 1", "COL 6964 int 1 0 0", "COL 6e text 0 1 0", "ROW 1", "VAL 6964 0:35");
  }

  lemma SavedLines(f: Reals, order: set<Bytes> -> seq<Bytes>, table: string, c: string, d: string, row: string, v: string)
    requires Enumerates(order) && TableLine(TABLE, "t") == table && ColumnLine(ID) == c && ColumnLine(NOTE) == d
    requires RowLine(ROW) == row && ValueLine(f, "id", Int(5)) == v
    ensures Save(f, order, map["t" := TABLE]) == ["NQDB1", table, c, d, row, v, "ENDTABLE"]
  {
    hide TableLine, ColumnLine, RowLine, ValueLine;
    var tables: Tables := map["t" := TABLE];
    OnlyKey(order, tables.Keys, "t");
    OnlyKey(order, ROW.Keys, "id");
    TwoColumnLines(ID, NOTE);
    OneRow(f, order);
    assert AllTableLines(f, order, tables, ["t"][1..]) == [];
    assert TableLines(f, order, "t", TABLE) == [table, c, d, row, v, "ENDTABLE"];
  }

  lemma TwoColumnLines(a: Column, b: Column)
    ensures ColumnLines([a, b]) == [ColumnLine(a), ColumnLine(b)]
  {
    hide ColumnLine;
    assert [a, b][1..] == [b] && [b][1..] == [];
    assert ColumnLines([b]) == [ColumnLine(b)];
  }

  lemma OneRow(f: Reals, order: set<Bytes> -> seq<Bytes>)
    requires Enumerates(order) && order(ROW.Keys) == ["id"]
    ensures RowLines(f, order, [ROW]) == [RowLine(ROW), ValueLine(f, "id", Int(5))]
  {
    hide RowLine, ValueLine;
    assert ["id"][1..] == [] && [ROW][1..] == [];
    assert ValueLines(f, ROW, ["id"]) == [ValueLine(f, "id", Int(5))] by { assert ValueLines(f, ROW, ["id"][1..]) == []; }
    assert RowLines(f, order, [ROW][1..]) == [];
  }

  lemma OnlyKey(order: set<Bytes> -> seq<Bytes>, keys: set<Bytes>, key: Bytes)
    requires Enumerates(order) && keys == {key}
    ensures order(keys) == [key]
  {
    var names := order(keys);
    assert ListOf(names, keys);
    F.ListSize(names, keys);
    forall k | 0 <= k < |names| ensures names[k] == key { assert names[k] in names; }
    assert names == [key];
  }

  lemma TableLineIs(t: Table)
    requires |t.columns| == 2 && |t.rows| == 1
    ensures TableLine(t, "t") == "TABLE 74 2 1"
  {
    SmallHex();
    assert D.Text(2) == "2" && D.Text(1) == "1";
    hide Hex;
    JoinFour("TABLE", "74", "2", "1");
  }

  lemma JoinFour(a: string, b: string, c: string, d: string)
    ensures Join([a, b, c, d]) == a + " " + b + " " + c + " " + d
  {
    assert [a, b, c, d][1..] == [b, c, d] && [b, c, d][1..] == [c, d] && [c, d][1..] == [d];
    assert Join([c, d]) == c + (" " + d);
    assert Join([b, c, d]) == b + (" " + (c + (" " + d)));
  }

  lemma SmallHex()
    ensures Hex("t") == "74" && Hex("id") == "6964" && Hex("n") == "6e" && Hex("5") == "35"
  {
    assert "id"[1..] == "d" && "d"[1..] == "" && "t"[1..] == "" && "n"[1..] == "" && "5"[1..] == "";
    assert Hex("d") == "64";
  }

  lemma ColumnLinesAre()
    ensures ColumnLine(ID) == "COL 6964 int 1 0 0" && ColumnLine(NOTE) == "COL 6e text 0 1 0"
  {
    SmallHex();
    FirstColumn();
    SecondColumn();
  }

  lemma FirstColumn()
    ensures Hex("id") == "6964" ==> ColumnLine(ID) == "COL 6964 int 1 0 0"
  {
    hide Hex, Join;
    JoinSix("COL", Hex("id"), "int", "1", "0", "0");
  }

  lemma SecondColumn()
    ensures Hex("n") == "6e" ==> ColumnLine(NOTE) == "COL 6e text 0 1 0"
  {
    hide Hex, Join;
    JoinSix("COL", Hex("n"), "text", "0", "1", "0");
  }

  lemma JoinSix(a: string, b: string, c: string, d: string, e: string, g: string)
    ensures Join([a, b, c, d, e, g]) == a + " " + b + " " + c + " " + d + " " + e + " " + g
  {
    JoinFour(c, d, e, g);
    assert [a, b, c, d, e, g][1..] == [b, c, d, e, g] && [b, c, d, e, g][1..] == [c, d, e, g];
    var four := Join([c, d, e, g]);
    assert Join([b, c, d, e, g]) == b + (" " + four);
    assert Join([a, b, c, d, e, g]) == a + (" " + (b + (" " + four)));
  }

  lemma RowLinesAre(f: Reals, row: Row)
    requires row == map["id" := Int(5)]
    ensures RowLine(row) == "ROW 1" && ValueLine(f, "id", Int(5)) == "VAL 6964 0:35"
  {
    SmallHex();
    assert |row| == 1 && D.Text(1) == "1" && D.Text(5) == "5" && IntText(5) == "5";
    assert Encode(f, Int(5)) == "0:35";
    hide Hex;
    assert ["ROW", "1"][1..] == ["1"];
    assert ["VAL", "6964", "0:35"][1..] == ["6964", "0:35"] && ["6964", "0:35"][1..] == ["0:35"];
    assert Join(["6964", "0:35"]) == "6964" + (" " + "0:35");
  }
}
