/**
 A database file is read back exactly as it was written, if and only if no name in it is empty: an empty name leaves
 no word on its line.
 */
module DatabaseFile {
  import opened Basics
  import opened DatabaseText
  import opened Hexadecimal
  import opened Database
  import D = Decimal

  // ----- when a file can be read back -----

  predicate NamedRow(row: Row) {
    "" !in row
  }

  predicate NamedTable(t: Table) {
    (forall c <- t.columns :: c.name != "") && forall row <- t.rows :: NamedRow(row)
  }

  /** No table, column or field has an empty name. */
  predicate Named(tables: Tables) {
    forall name <- tables.Keys :: name != "" && NamedTable(tables[name])
  }

  /** Every table carries the name it is stored under. */
  predicate WellKeyed(tables: Tables) {
    forall name <- tables.Keys :: tables[name].name == name
  }

  // ----- single lines -----

  lemma NumbersSolid(n: nat)
    ensures Solid(D.Text(n)) && D.Text(n) != ""
  {
    assert forall k :: 0 <= k < |D.Text(n)| ==> D.IsDigit(D.Text(n)[k]);
  }

  lemma {:induction false} SolidConcat(a: string, b: string)
    requires Solid(a) && Solid(b)
    ensures Solid(a + b)
  {
  }

  lemma EncodeSolid(f: Reals, v: Value)
    ensures Solid(Encode(f, v)) && |Encode(f, v)| >= 2 && Encode(f, v)[1] == ':'
  {
    HexIsSolid(ValueText(f, v));
    SolidConcat("0:", Hex(ValueText(f, v)));
    SolidConcat("1:", Hex(ValueText(f, v)));
    SolidConcat("2:", Hex(ValueText(f, v)));
    SolidConcat("3:", Hex(ValueText(f, v)));
  }

  function KindDigit(v: Value): Bytes {
    match v case Int(_) => "0" case Real(_) => "1" case Bool(_) => "2" case Text(_) => "3"
  }

  lemma EncodedColon(f: Reals, v: Value)
    ensures ColonAt(Encode(f, v)) == Some(1)
    ensures Encode(f, v)[..1] == KindDigit(v) && Encode(f, v)[2..] == Hex(ValueText(f, v))
  {
    hide Hex, ValueText;
    var s := Encode(f, v);
    assert s == KindDigit(v) + (":" + Hex(ValueText(f, v)));
    assert s[0] != ':' && s[1..][0] == ':';
    assert ColonAt(s[1..]) == Some(0);
  }

  lemma DecodeOfEncode(f: Reals, v: Value)
    requires Faithful(f)
    ensures Decode(f, Encode(f, v)) == Some(v)
  {
    hide Hex, Unhex, Encode, ColonAt, ParseInt, IntText;
    EncodedColon(f, v);
    UnhexOfHex(ValueText(f, v));
    SmallNumbers();
    if v.Int? { ParseIntOfText(v.i); }
  }

  lemma SmallNumbers()
    ensures ParseInt("0") == Some(0) && ParseInt("1") == Some(1) && ParseInt("2") == Some(2) && ParseInt("3") == Some(3)
  {
    ParseNatOfText(0);
    ParseNatOfText(1);
    ParseNatOfText(2);
    ParseNatOfText(3);
  }

  lemma ReadBackNumber(ws: seq<string>, k: nat, n: nat)
    requires (forall w <- ws :: Solid(w)) && (forall j :: 0 <= j < |ws| ==> ws[j] != "") && k < |ws| && ws[k] == D.Text(n)
    ensures NumberAt(Join(ws), k) == n
  {
    WordsOfJoin(ws);
    NothingEmpty(ws);
    ParseNatOfText(n);
  }

  lemma FlagsAre()
    ensures Flag(true) == D.Text(1) && Flag(false) == D.Text(0)
  {
  }

  function ColumnWords(c: Column): seq<string> {
    ["COL", Hex(c.name), TypeName(c.kind), Flag(c.required), Flag(c.unique), Flag(c.key)]
  }

  lemma ColumnWordsSolid(c: Column)
    ensures forall w <- ColumnWords(c) :: Solid(w)
    ensures forall k :: 0 <= k < 6 ==> k != 1 ==> ColumnWords(c)[k] != ""
  {
    HexIsSolid(c.name);
    assert Solid(TypeName(c.kind)) && Solid(Flag(c.required)) && Solid(Flag(c.unique)) && Solid(Flag(c.key)) && Solid("COL");
  }

  lemma ColumnReadsBack(c: Column)
    requires c.name != ""
    ensures WordAt(ColumnLine(c), 0) == "COL" && ReadColumn(ColumnLine(c)) == Some(c)
  {
    hide Words, Join, Hex, Unhex, NumberAt, ParseType, TypeName, NonEmpty, Solid;
    var ws := ColumnWords(c);
    ColumnWordsSolid(c);
    HexIsSolid(c.name);
    UnhexOfHex(c.name);
    FlagsAre();
    WordsOfJoin(ws);
    NothingEmpty(ws);
    ReadBackNumber(ws, 3, if c.required then 1 else 0);
    ReadBackNumber(ws, 4, if c.unique then 1 else 0);
    ReadBackNumber(ws, 5, if c.key then 1 else 0);
    TypeReadsBack(c.kind);
  }

  lemma TypeReadsBack(t: ValueType)
    ensures ParseType(TypeName(t)) == Some(t)
  {
    var s := TypeName(t);
    LowerOfLower(s);
  }

  lemma {:induction false} LowerOfLower(s: string)
    ensures (forall k :: 0 <= k < |s| ==> !('A' <= s[k] <= 'Z')) ==> Lower(s) == s
  {
    if s != "" { LowerOfLower(s[1..]); }
  }

  lemma ValueReadsBack(f: Reals, name: Bytes, v: Value)
    requires Faithful(f) && name != ""
    ensures var line := ValueLine(f, name, v);
            && WordAt(line, 0) == "VAL" && Unhex(WordAt(line, 1)) == Some(name) && Decode(f, WordAt(line, 2)) == Some(v)
  {
    var ws := ["VAL", Hex(name), Encode(f, v)];
    HexIsSolid(name);
    UnhexOfHex(name);
    EncodeSolid(f, v);
    DecodeOfEncode(f, v);
    WordsOfJoin(ws);
    NothingEmpty(ws);
  }

  lemma TableLineReadsBack(t: Table, name: Bytes)
    requires name != ""
    ensures var line := TableLine(t, name);
            && WordAt(line, 0) == "TABLE" && Unhex(WordAt(line, 1)) == Some(name)
            && NumberAt(line, 2) == |t.columns| && NumberAt(line, 3) == |t.rows|
  {
    var ws := ["TABLE", Hex(name), D.Text(|t.columns|), D.Text(|t.rows|)];
    HexIsSolid(name);
    UnhexOfHex(name);
    NumbersSolid(|t.columns|);
    NumbersSolid(|t.rows|);
    WordsOfJoin(ws);
    NothingEmpty(ws);
    ReadBackNumber(ws, 2, |t.columns|);
    ReadBackNumber(ws, 3, |t.rows|);
  }

  lemma RowLineReadsBack(row: Row)
    ensures WordAt(RowLine(row), 0) == "ROW" && NumberAt(RowLine(row), 1) == |row|
  {
    var ws := ["ROW", D.Text(|row|)];
    NumbersSolid(|row|);
    WordsOfJoin(ws);
    NothingEmpty(ws);
    ReadBackNumber(ws, 1, |row|);
  }

  lemma EndIsSolid()
    ensures Solid("ENDTABLE")
  {
    var w := "ENDTABLE";
    assert w[0] == 'E' && w[1] == 'N' && w[2] == 'D' && w[3] == 'T' && w[4] == 'A' && w[5] == 'B' && w[6] == 'L' && w[7] == 'E';
  }

  lemma EndLineReadsBack()
    ensures WordAt("ENDTABLE", 0) == "ENDTABLE"
  {
    var ws := ["ENDTABLE"];
    EndIsSolid();
    assert forall w <- ws :: w == "ENDTABLE";
    WordsOfJoin(ws);
    NothingEmpty(ws);
  }

  // ----- rows -----

  /** A row with the fields of another one added. */
  function Added(acc: Row, row: Row, names: seq<Bytes>): Row
    requires forall name <- names :: name in row
    decreases |names|
  {
    if names == [] then acc else Added(acc[names[0] := row[names[0]]], row, names[1..])
  }

  lemma {:induction false} AddedHas(acc: Row, row: Row, names: seq<Bytes>)
    requires forall name <- names :: name in row
    decreases |names|
    ensures forall n :: n in Added(acc, row, names) <==> n in acc || n in names
    ensures forall n :: n in names ==> Added(acc, row, names)[n] == row[n]
    ensures forall n :: n in acc && n !in names ==> Added(acc, row, names)[n] == acc[n]
  {
    if names != [] {
      AddedHas(acc[names[0] := row[names[0]]], row, names[1..]);
      assert forall n :: n in names <==> n == names[0] || n in names[1..];
    }
  }

  lemma {:induction false} ValuesReadBack(f: Reals, row: Row, names: seq<Bytes>, acc: Row, rest: File)
    requires Faithful(f) && forall k :: 0 <= k < |names| ==> names[k] in row && names[k] != ""
    ensures ReadValues(f, ValueLines(f, row, names) + rest, |names|, acc) == Some((Added(acc, row, names), rest))
    decreases |names|
  {
    hide ValueLine, Decode, WordAt;
    var lines := ValueLines(f, row, names) + rest;
    if names == [] {
      assert lines == rest;
    } else {
      ValueReadsBack(f, names[0], row[names[0]]);
      assert lines[1..] == ValueLines(f, row, names[1..]) + rest;
      ValuesReadBack(f, row, names[1..], acc[names[0] := row[names[0]]], rest);
    }
  }

  lemma RowReadsBack(f: Reals, order: set<Bytes> -> seq<Bytes>, row: Row, rest: File)
    requires Faithful(f) && Enumerates(order) && NamedRow(row)
    ensures ListOf(order(row.Keys), row.Keys)
    ensures ReadValues(f, ValueLines(f, row, order(row.Keys)) + rest, |row|, map[]) == Some((row, rest))
  {
    hide ReadValues, ValueLines, Faithful, Added;
    var names := order(row.Keys);
    assert ListOf(names, row.Keys);
    forall k | 0 <= k < |names| ensures names[k] in row && names[k] != "" { assert names[k] in names; }
    hide Enumerates, ReadValues, ValueLines, ListOf, Faithful, NamedRow;
    ListSize(names, row.Keys);
    assert |row| == |row.Keys|;
    ValuesReadBack(f, row, names, map[], rest);
    AddedHas(map[], row, names);
    assert Added(map[], row, names) == row;
  }

  lemma {:induction false} ListSize(names: seq<Bytes>, keys: set<Bytes>)
    requires ListOf(names, keys)
    ensures |names| == |keys|
  {
    if names == [] {
      assert keys == {};
    } else {
      var n := |names| - 1;
      assert names[n] in names && names[n] in keys;
      assert ListOf(names[..n], keys - {names[n]}) by {
        forall name ensures name in keys - {names[n]} <==> name in names[..n] {
          if name in names && name != names[n] {
            var k :| 0 <= k < |names| && names[k] == name;
            assert names[..n][k] == name;
          }
          if name in names[..n] {
            var k :| 0 <= k < n && names[..n][k] == name;
            assert names[k] in names && names[k] != names[n];
          }
        }
      }
      ListSize(names[..n], keys - {names[n]});
    }
  }

  // ----- tables -----

  lemma {:induction false} ColumnsReadBack(f: Reals, columns: seq<Column>, st: Loader, rest: File)
    requires InTable(st) && forall k :: 0 <= k < |columns| ==> columns[k].name != ""
    ensures var t := st.tables[st.current.value];
            LoadLines(f, ColumnLines(columns) + rest, st) ==
            LoadLines(f, rest, st.(tables := st.tables[st.current.value := t.(columns := t.columns + columns)]))
    decreases |columns|
  {
    hide ReadColumn, ReadValues, OpenTable, WordAt, ColumnLine, NumberAt;
    var t := st.tables[st.current.value];
    var lines := ColumnLines(columns) + rest;
    if columns == [] {
      assert lines == rest && t.columns + columns == t.columns;
      assert st.tables[st.current.value := t] == st.tables;
    } else {
      ColumnReadsBack(columns[0]);
      assert lines[0] == ColumnLine(columns[0]) && lines[1..] == ColumnLines(columns[1..]) + rest;
      var next := WithColumn(st, columns[0]);
      ColumnsReadBack(f, columns[1..], next, rest);
      assert t.columns + columns == t.columns + [columns[0]] + columns[1..];
      assert next.tables[st.current.value := t.(columns := t.columns + columns)] == st.tables[st.current.value := t.(columns := t.columns + columns)];
    }
  }

  lemma {:induction false} RowsReadBack(f: Reals, order: set<Bytes> -> seq<Bytes>, rows: seq<Row>, st: Loader, rest: File)
    requires Faithful(f) && Enumerates(order) && InTable(st) && forall k :: 0 <= k < |rows| ==> NamedRow(rows[k])
    ensures var t := st.tables[st.current.value];
            LoadLines(f, RowLines(f, order, rows) + rest, st) ==
            LoadLines(f, rest, st.(tables := st.tables[st.current.value := t.(rows := t.rows + rows)], seen := st.seen + |rows|))
    decreases |rows|
  {
    hide ReadColumn, ReadValues, OpenTable, WordAt, RowLine, NumberAt, ValueLines, Enumerates, NamedRow;
    var t := st.tables[st.current.value];
    var lines := RowLines(f, order, rows) + rest;
    if rows == [] {
      assert lines == rest && t.rows + rows == t.rows;
      assert st.tables[st.current.value := t] == st.tables;
    } else {
      var row := rows[0];
      RowLineReadsBack(row);
      var after := RowLines(f, order, rows[1..]) + rest;
      RowReadsBack(f, order, row, after);
      assert lines[0] == RowLine(row) && lines[1..] == ValueLines(f, row, order(row.Keys)) + after;
      var next := WithRow(st, row);
      RowsReadBack(f, order, rows[1..], next, rest);
      assert t.rows + rows == t.rows + [row] + rows[1..];
      assert next.tables[st.current.value := t.(rows := t.rows + rows)] == st.tables[st.current.value := t.(rows := t.rows + rows)];
    }
  }

  /** The state behind a table that was read whole. */
  function Closed(st: Loader, name: Bytes, t: Table): Loader {
    Loader(st.tables[name := t.(name := name)], None, |t.columns|, |t.rows|, |t.rows|)
  }

  lemma TableOpens(f: Reals, name: Bytes, t: Table, st: Loader, rest: File)
    requires name != ""
    ensures LoadLines(f, [TableLine(t, name)] + rest, st) ==
            LoadLines(f, rest, Loader(st.tables[name := Table(name, [], [])], Some(name), |t.columns|, |t.rows|, 0))
  {
    hide ReadColumn, ReadValues, WordAt, NumberAt, TableLine;
    TableLineReadsBack(t, name);
    assert ([TableLine(t, name)] + rest)[1..] == rest;
  }

  lemma TableCloses(f: Reals, st: Loader, rest: File)
    requires InTable(st) && |st.tables[st.current.value].columns| == st.columns && st.seen == st.rows
    ensures LoadLines(f, ["ENDTABLE"] + rest, st) == LoadLines(f, rest, st.(current := None))
  {
    hide ReadColumn, ReadValues, OpenTable, WordAt, NumberAt;
    EndLineReadsBack();
    assert (["ENDTABLE"] + rest)[1..] == rest;
  }

  lemma TableReadsBack(f: Reals, order: set<Bytes> -> seq<Bytes>, name: Bytes, t: Table, st: Loader, rest: File)
    requires Faithful(f) && Enumerates(order) && name != "" && NamedTable(t)
    ensures LoadLines(f, TableLines(f, order, name, t) + rest, st) == LoadLines(f, rest, Closed(st, name, t))
  {
    hide LoadLines, Enumerates, TableLine, ColumnLines, RowLines, NamedRow;
    var s1 := Loader(st.tables[name := Table(name, [], [])], Some(name), |t.columns|, |t.rows|, 0);
    var s2 := s1.(tables := s1.tables[name := Table(name, t.columns, [])]);
    var s3 := s2.(tables := s2.tables[name := Table(name, t.columns, t.rows)], seen := |t.rows|);
    var end := ["ENDTABLE"] + rest;
    var rows := RowLines(f, order, t.rows) + end;
    var columns := ColumnLines(t.columns) + rows;
    assert TableLines(f, order, name, t) + rest == [TableLine(t, name)] + columns;
    TableOpens(f, name, t, st, columns);
    assert [] + t.columns == t.columns && [] + t.rows == t.rows;
    ColumnsReadBack(f, t.columns, s1, rows);
    RowsReadBack(f, order, t.rows, s2, end);
    TableCloses(f, s3, rest);
    assert s3.tables == st.tables[name := t.(name := name)];
  }

  function Restored(acc: Tables, tables: Tables, names: seq<Bytes>): Tables
    requires forall name <- names :: name in tables
    decreases |names|
  {
    if names == [] then acc else Restored(acc[names[0] := tables[names[0]].(name := names[0])], tables, names[1..])
  }

  lemma {:induction false} RestoredHas(acc: Tables, tables: Tables, names: seq<Bytes>)
    requires forall name <- names :: name in tables
    decreases |names|
    ensures forall n :: n in Restored(acc, tables, names) <==> n in acc || n in names
    ensures forall n :: n in names ==> Restored(acc, tables, names)[n] == tables[n].(name := n)
    ensures forall n :: n in acc && n !in names ==> Restored(acc, tables, names)[n] == acc[n]
  {
    if names != [] {
      RestoredHas(acc[names[0] := tables[names[0]].(name := names[0])], tables, names[1..]);
      assert forall n :: n in names <==> n == names[0] || n in names[1..];
    }
  }

  lemma {:induction false} TablesReadBack(f: Reals, order: set<Bytes> -> seq<Bytes>, tables: Tables, names: seq<Bytes>, st: Loader)
    requires Faithful(f) && Enumerates(order) && st.current.None?
    requires forall k :: 0 <= k < |names| ==> names[k] in tables && names[k] != "" && NamedTable(tables[names[k]])
    ensures LoadLines(f, AllTableLines(f, order, tables, names), st) == Some(Restored(st.tables, tables, names))
    decreases |names|
  {
    hide Enumerates, TableLines, NamedTable, WordAt, NumberAt, ReadValues, ReadColumn, OpenTable;
    if names != [] {
      var name := names[0];
      TableReadsBack(f, order, name, tables[name], st, AllTableLines(f, order, tables, names[1..]));
      TablesReadBack(f, order, tables, names[1..], Closed(st, name, tables[name]));
    }
  }

  lemma NamedReadsBack(f: Reals, order: set<Bytes> -> seq<Bytes>, tables: Tables)
    requires Faithful(f) && Enumerates(order) && Named(tables) && WellKeyed(tables)
    ensures Load(f, Save(f, order, tables)) == Some(tables)
  {
    hide NamedTable, LoadLines, AllTableLines;
    var names := order(tables.Keys);
    assert ListOf(names, tables.Keys);
    forall k | 0 <= k < |names| ensures names[k] in tables && names[k] != "" && NamedTable(tables[names[k]]) {
      assert names[k] in names;
    }
    TablesReadBack(f, order, tables, names, Loader(map[], None, 0, 0, 0));
    RestoredHas(map[], tables, names);
    assert Restored(map[], tables, names) == tables;
    assert Save(f, order, tables)[1..] == AllTableLines(f, order, tables, names);
  }

  // ----- empty names -----

  /** The line of a column without a name has the type where the name should be, and no type is hexadecimal. */
  lemma NamelessColumn(c: Column)
    requires c.name == ""
    ensures WordAt(ColumnLine(c), 0) == "COL" && ReadColumn(ColumnLine(c)) == None
  {
    var ws := ColumnWords(c);
    ColumnWordsSolid(c);
    WordsOfJoin(ws);
    assert Hex(c.name) == "";
    var rest := ws[2..];
    assert ws[1..][1..] == rest;
    NothingEmpty(rest);
    assert NonEmpty(ws) == ["COL"] + NonEmpty(ws[1..]) && NonEmpty(ws[1..]) == NonEmpty(rest) by {
      assert ws[1..][0] == "";
    }
    hide Words, Join, NonEmpty;
    assert WordAt(ColumnLine(c), 1) == TypeName(c.kind);
    TypesAreNotHex(c.kind);
  }

  lemma TypesAreNotHex(t: ValueType)
    ensures Unhex(TypeName(t)) == None
  {
    var s := TypeName(t);
    match t
    case IntType => UnhexNeedsDigits(s, 0);
    case RealType => UnhexNeedsDigits(s, 0);
    case BoolType => UnhexNeedsDigits(s, 1);
    case TextType => UnhexNeedsDigits(s, 0);
  }

  lemma NamelessValue(f: Reals, v: Value)
    ensures WordAt(ValueLine(f, "", v), 0) == "VAL" && Unhex(WordAt(ValueLine(f, "", v), 1)) == None
  {
    var ws := ["VAL", Hex(""), Encode(f, v)];
    EncodeSolid(f, v);
    WordsOfJoin(ws);
    assert ws[1..][0] == "" && ws[1..][1..] == [Encode(f, v)];
    NothingEmpty([Encode(f, v)]);
    assert NonEmpty(ws[1..]) == [] + NonEmpty([Encode(f, v)]);
    assert NonEmpty(ws) == ["VAL"] + NonEmpty(ws[1..]);
    UnhexNeedsDigits(Encode(f, v), 1);
  }

  lemma {:induction false} NamelessColumnsFail(f: Reals, columns: seq<Column>, st: Loader, rest: File)
    requires InTable(st) && exists k :: 0 <= k < |columns| && columns[k].name == ""
    ensures LoadLines(f, ColumnLines(columns) + rest, st) == None
    decreases |columns|
  {
    hide ReadColumn, ReadValues, OpenTable, WordAt, ColumnLine, NumberAt;
    var lines := ColumnLines(columns) + rest;
    assert lines[0] == ColumnLine(columns[0]) && lines[1..] == ColumnLines(columns[1..]) + rest;
    if columns[0].name == "" {
      NamelessColumn(columns[0]);
    } else {
      ColumnReadsBack(columns[0]);
      var k :| 0 <= k < |columns| && columns[k].name == "";
      assert columns[1..][k - 1].name == "";
      NamelessColumnsFail(f, columns[1..], WithColumn(st, columns[0]), rest);
    }
  }

  lemma {:induction false} NamelessValuesFail(f: Reals, row: Row, names: seq<Bytes>, acc: Row, rest: File)
    requires Faithful(f) && (forall name <- names :: name in row) && "" in names
    ensures ReadValues(f, ValueLines(f, row, names) + rest, |names|, acc) == None
    decreases |names|
  {
    hide ValueLine, Decode, WordAt;
    var lines := ValueLines(f, row, names) + rest;
    assert lines[1..] == ValueLines(f, row, names[1..]) + rest;
    if names[0] == "" {
      NamelessValue(f, row[names[0]]);
    } else {
      ValueReadsBack(f, names[0], row[names[0]]);
      NamelessValuesFail(f, row, names[1..], acc[names[0] := row[names[0]]], rest);
    }
  }

  lemma NamelessRowFails(f: Reals, order: set<Bytes> -> seq<Bytes>, row: Row, rest: File)
    requires Faithful(f) && Enumerates(order) && !NamedRow(row)
    ensures ListOf(order(row.Keys), row.Keys)
    ensures ReadValues(f, ValueLines(f, row, order(row.Keys)) + rest, |row|, map[]) == None
  {
    var names := order(row.Keys);
    assert ListOf(names, row.Keys);
    ListSize(names, row.Keys);
    assert |row| == |row.Keys|;
    assert "" in row.Keys;
    NamelessValuesFail(f, row, names, map[], rest);
  }

  lemma {:induction false} NamelessRowsFail(f: Reals, order: set<Bytes> -> seq<Bytes>, rows: seq<Row>, st: Loader, rest: File)
    requires Faithful(f) && Enumerates(order) && InTable(st) && exists k :: 0 <= k < |rows| && !NamedRow(rows[k])
    ensures LoadLines(f, RowLines(f, order, rows) + rest, st) == None
    decreases |rows|
  {
    hide ReadColumn, ReadValues, OpenTable, WordAt, RowLine, NumberAt, ValueLines, Enumerates, NamedRow;
    var lines := RowLines(f, order, rows) + rest;
    var row := rows[0];
    RowLineReadsBack(row);
    var after := RowLines(f, order, rows[1..]) + rest;
    if !NamedRow(row) {
      NamelessRowFails(f, order, row, after);
      assert lines[0] == RowLine(row) && lines[1..] == ValueLines(f, row, order(row.Keys)) + after;
    } else {
      RowReadsBack(f, order, row, after);
      assert lines[0] == RowLine(row) && lines[1..] == ValueLines(f, row, order(row.Keys)) + after;
      var k :| 0 <= k < |rows| && !NamedRow(rows[k]);
      assert rows[1..][k - 1] == rows[k];
      NamelessRowsFail(f, order, rows[1..], WithRow(st, row), rest);
    }
  }

  lemma NamelessTableFails(f: Reals, order: set<Bytes> -> seq<Bytes>, name: Bytes, t: Table, st: Loader, rest: File)
    requires Faithful(f) && Enumerates(order) && name != "" && !NamedTable(t)
    ensures LoadLines(f, TableLines(f, order, name, t) + rest, st) == None
  {
    hide LoadLines, Enumerates, TableLine, ColumnLines, RowLines, NamedRow;
    var s1 := Loader(st.tables[name := Table(name, [], [])], Some(name), |t.columns|, |t.rows|, 0);
    var s2 := s1.(tables := s1.tables[name := Table(name, t.columns, [])]);
    var end := ["ENDTABLE"] + rest;
    var rows := RowLines(f, order, t.rows) + end;
    var columns := ColumnLines(t.columns) + rows;
    assert TableLines(f, order, name, t) + rest == [TableLine(t, name)] + columns;
    TableOpens(f, name, t, st, columns);
    if exists k :: 0 <= k < |t.columns| && t.columns[k].name == "" {
      NamelessColumnsFail(f, t.columns, s1, rows);
    } else {
      assert [] + t.columns == t.columns;
      ColumnsReadBack(f, t.columns, s1, rows);
      var row :| row in t.rows && !NamedRow(row);
      var k :| 0 <= k < |t.rows| && t.rows[k] == row;
      NamelessRowsFail(f, order, t.rows, s2, end);
    }
  }

  lemma {:induction false} NamelessTablesFail(f: Reals, order: set<Bytes> -> seq<Bytes>, tables: Tables, names: seq<Bytes>, st: Loader)
    requires Faithful(f) && Enumerates(order) && st.current.None?
    requires forall k :: 0 <= k < |names| ==> names[k] in tables && names[k] != ""
    requires exists k :: 0 <= k < |names| && !NamedTable(tables[names[k]])
    ensures LoadLines(f, AllTableLines(f, order, tables, names), st) == None
    decreases |names|
  {
    hide Enumerates, TableLines, NamedTable, WordAt, NumberAt, ReadValues, ReadColumn, OpenTable;
    var name := names[0];
    var rest := AllTableLines(f, order, tables, names[1..]);
    if !NamedTable(tables[name]) {
      NamelessTableFails(f, order, name, tables[name], st, rest);
    } else {
      TableReadsBack(f, order, name, tables[name], st, rest);
      var k :| 0 <= k < |names| && !NamedTable(tables[names[k]]);
      assert names[1..][k - 1] == names[k];
      NamelessTablesFail(f, order, tables, names[1..], Closed(st, name, tables[name]));
    }
  }

  /** Every table line has a word behind its keyword. */
  predicate Titled(line: string) {
    WordAt(line, 0) == "TABLE" ==> WordAt(line, 1) != ""
  }

  ghost predicate AllTitled(lines: File) {
    forall k :: 0 <= k < |lines| ==> Titled(lines[k])
  }

  /** Reading creates only tables with a name, stored under that name. */
  lemma {:induction false} LoadedTables(f: Reals, lines: File, st: Loader)
    requires WellKeyed(st.tables)
    ensures var r := LoadLines(f, lines, st); r.Some? ==> WellKeyed(r.value)
    ensures AllTitled(lines) && "" !in st.tables ==> var r := LoadLines(f, lines, st); r.Some? ==> "" !in r.value
    decreases |lines|
  {
    hide WordAt, ReadColumn, NumberAt, Unhex;
    if lines != [] {
      var op := WordAt(lines[0], 0);
      if op == "TABLE" {
        var next := OpenTable(st, lines[0]);
        if next.Some? {
          if Unhex(WordAt(lines[0], 1)) == Some("") { UnhexEmpty(WordAt(lines[0], 1)); }
          LoadedTables(f, lines[1..], next.value);
        }
      } else if op == "COL" && InTable(st) {
        var c := ReadColumn(lines[0]);
        if c.Some? { LoadedTables(f, lines[1..], WithColumn(st, c.value)); }
      } else if op == "ROW" && InTable(st) {
        var r := ReadValues(f, lines[1..], NumberAt(lines[0], 1), map[]);
        if r.Some? {
          RestIsSuffix(f, lines[1..], NumberAt(lines[0], 1), map[]);
          LoadedTables(f, r.value.1, WithRow(st, r.value.0));
        }
      } else if op == "ENDTABLE" && InTable(st) {
        LoadedTables(f, lines[1..], st.(current := None));
      } else if op == "" {
        LoadedTables(f, lines[1..], st);
      }
    }
  }

  lemma {:induction false} RestIsSuffix(f: Reals, lines: File, n: nat, row: Row)
    ensures var r := ReadValues(f, lines, n, row); r.Some? && AllTitled(lines) ==> AllTitled(r.value.1)
    decreases n
  {
    hide WordAt, Unhex, Decode, Titled;
    if n > 0 && lines != [] {
      var name, v := Unhex(WordAt(lines[0], 1)), Decode(f, WordAt(lines[0], 2));
      if name.Some? && v.Some? { RestIsSuffix(f, lines[1..], n - 1, row[name.value := v.value]); }
    }
  }

  lemma {:induction false} WordsNotEmpty(s: string)
    ensures forall k :: 0 <= k < |Words(s)| ==> Words(s)[k] != ""
    decreases |s|
  {
    if s != "" {
      if IsSpace(s[0]) { WordsNotEmpty(s[1..]); } else { WordsNotEmpty(s[WordLength(s)..]); }
    }
  }

  lemma TableLineTitled(t: Table, name: Bytes)
    ensures Titled(TableLine(t, name))
  {
    var ws := ["TABLE", Hex(name), D.Text(|t.columns|), D.Text(|t.rows|)];
    HexIsSolid(name);
    NumbersSolid(|t.columns|);
    NumbersSolid(|t.rows|);
    WordsOfJoin(ws);
    WordsNotEmpty(TableLine(t, name));
    assert ws[2..] == [D.Text(|t.columns|), D.Text(|t.rows|)];
    NothingEmpty(ws[2..]);
    assert NonEmpty(ws) == ["TABLE"] + NonEmpty(ws[1..]);
    assert ws[1..][1..] == ws[2..];
    assert |NonEmpty(ws[1..])| >= 2;
  }

  /** The other lines have other keywords. */
  lemma {:induction false} ColumnLinesTitled(columns: seq<Column>)
    ensures AllTitled(ColumnLines(columns))
  {
    if columns != [] {
      hide WordAt, ColumnLine;
      ColumnKeyword(columns[0]);
      ColumnLinesTitled(columns[1..]);
    }
  }

  lemma ColumnKeyword(c: Column)
    ensures WordAt(ColumnLine(c), 0) == "COL"
  {
    if c.name == "" { NamelessColumn(c); } else { ColumnReadsBack(c); }
  }

  lemma ValueKeyword(f: Reals, name: Bytes, v: Value)
    ensures WordAt(ValueLine(f, name, v), 0) == "VAL"
  {
    var ws := ["VAL", Hex(name), Encode(f, v)];
    HexIsSolid(name);
    EncodeSolid(f, v);
    WordsOfJoin(ws);
  }

  lemma {:induction false} ValueLinesTitled(f: Reals, row: Row, names: seq<Bytes>)
    requires forall name <- names :: name in row
    ensures AllTitled(ValueLines(f, row, names))
    decreases |names|
  {
    if names != [] {
      hide WordAt, ValueLine;
      ValueKeyword(f, names[0], row[names[0]]);
      ValueLinesTitled(f, row, names[1..]);
    }
  }

  lemma {:induction false} RowLinesTitled(f: Reals, order: set<Bytes> -> seq<Bytes>, rows: seq<Row>)
    requires Enumerates(order)
    ensures AllTitled(RowLines(f, order, rows))
  {
    if rows != [] {
      hide WordAt, RowLine, ValueLines;
      RowLineReadsBack(rows[0]);
      assert ListOf(order(rows[0].Keys), rows[0].Keys);
      ValueLinesTitled(f, rows[0], order(rows[0].Keys));
      RowLinesTitled(f, order, rows[1..]);
    }
  }

  lemma {:induction false} TableLinesTitled(f: Reals, order: set<Bytes> -> seq<Bytes>, tables: Tables, names: seq<Bytes>)
    requires Enumerates(order) && forall name <- names :: name in tables
    ensures AllTitled(AllTableLines(f, order, tables, names))
    decreases |names|
  {
    if names != [] {
      hide TableLines, Titled;
      OneTableTitled(f, order, names[0], tables[names[0]]);
      TableLinesTitled(f, order, tables, names[1..]);
    }
  }

  lemma OneTableTitled(f: Reals, order: set<Bytes> -> seq<Bytes>, name: Bytes, t: Table)
    requires Enumerates(order)
    ensures AllTitled(TableLines(f, order, name, t))
  {
    hide WordAt, TableLine, ColumnLines, RowLines;
    TableLineTitled(t, name);
    ColumnLinesTitled(t.columns);
    RowLinesTitled(f, order, t.rows);
    EndLineReadsBack();
  }

  // ----- the theorem -----

  /** What is saved is loaded again, exactly if no name is empty and every table is stored under its name. */
  lemma SavedReadsBackIff(f: Reals, order: set<Bytes> -> seq<Bytes>, tables: Tables)
    requires Faithful(f) && Enumerates(order)
    ensures Load(f, Save(f, order, tables)) == Some(tables) <==> Named(tables) && WellKeyed(tables)
  {
    hide NamedTable, LoadLines, AllTableLines, AllTitled;
    if Named(tables) && WellKeyed(tables) {
      NamedReadsBack(f, order, tables);
    } else {
      var names, start := order(tables.Keys), Loader(map[], None, 0, 0, 0);
      assert ListOf(names, tables.Keys);
      assert Save(f, order, tables)[1..] == AllTableLines(f, order, tables, names);
      LoadedTables(f, AllTableLines(f, order, tables, names), start);
      TableLinesTitled(f, order, tables, names);
      if WellKeyed(tables) && "" !in tables {
        var name :| name in tables.Keys && !NamedTable(tables[name]);
        assert name in names;
        var k :| 0 <= k < |names| && names[k] == name;
        forall j | 0 <= j < |names| ensures names[j] in tables && names[j] != "" { assert names[j] in names; }
        NamelessTablesFail(f, order, tables, names, start);
      }
    }
  }

  /** A table with a nameless column is saved to a file that does not give it back. */
  lemma NamelessColumnIsLost(f: Reals, order: set<Bytes> -> seq<Bytes>)
    requires Faithful(f) && Enumerates(order)
    ensures var tables := map["t" := Table("t", [Column("", TextType, false, false, false)], [])];
            Load(f, Save(f, order, tables)) != Some(tables)
  {
    hide Load, Save;
    var tables: Tables := map["t" := Table("t", [Column("", TextType, false, false, false)], [])];
    assert "t" in tables && tables["t"].columns[0].name == "";
    SavedReadsBackIff(f, order, tables);
  }
}
