/**
 Damaged database files: a file that is cut off loads exactly if the cut lies behind a table, and then as fewer
 tables; wrong counts, unknown records and a wrong header are found.
 */
module DatabaseDamage {
  import opened Basics
  import opened DatabaseText
  import opened Hexadecimal
  import opened Database
  import opened DatabaseFile
  import D = Decimal

  // ----- a table that is cut off -----

  lemma NothingLeft(f: Reals, st: Loader)
    ensures LoadLines(f, [], st) == if st.current.Some? then None else Some(st.tables)
  {
  }

  lemma {:induction false} ValuesLength(f: Reals, row: Row, names: seq<Bytes>)
    requires forall name <- names :: name in row
    ensures |ValueLines(f, row, names)| == |names|
  {
    hide ValueLine;
    if names != [] { ValuesLength(f, row, names[1..]); }
  }

  /** A row that lacks values is not read. */
  lemma {:induction false} CutValues(f: Reals, row: Row, names: seq<Bytes>, m: nat, acc: Row)
    requires Faithful(f) && m < |names| && forall k :: 0 <= k < |names| ==> names[k] in row && names[k] != ""
    ensures |ValueLines(f, row, names)| == |names| && ReadValues(f, ValueLines(f, row, names)[..m], |names|, acc) == None
    decreases |names|
  {
    hide ValueLine, Decode, WordAt, Faithful, Unhex;
    ValuesLength(f, row, names);
    var lines := ValueLines(f, row, names)[..m];
    if m > 0 {
      ValueReadsBack(f, names[0], row[names[0]]);
      assert lines[0] == ValueLine(f, names[0], row[names[0]]);
      assert lines[1..] == ValueLines(f, row, names[1..])[..m - 1];
      CutValues(f, row, names[1..], m - 1, acc[names[0] := row[names[0]]]);
    }
  }

  lemma CutRow(f: Reals, order: set<Bytes> -> seq<Bytes>, row: Row, st: Loader, m: nat)
    requires Faithful(f) && Enumerates(order) && InTable(st) && NamedRow(row)
    ensures ListOf(order(row.Keys), row.Keys)
    ensures m < |ValueLines(f, row, order(row.Keys))| ==>
            LoadLines(f, [RowLine(row)] + ValueLines(f, row, order(row.Keys))[..m], st) == None
  {
    var names := order(row.Keys);
    assert ListOf(names, row.Keys);
    forall k | 0 <= k < |names| ensures names[k] in row && names[k] != "" { assert names[k] in names; }
    hide Enumerates, NamedRow, ListOf, Faithful;
    ListSize(names, row.Keys);
    assert |row| == |row.Keys|;
    ValuesLength(f, row, names);
    if m < |names| {
      CutValues(f, row, names, m, map[]);
      RowLineReadsBack(row);
      hide ReadValues, ValueLines, RowLine, WordAt, NumberAt, ReadColumn, OpenTable;
      var lines := [RowLine(row)] + ValueLines(f, row, names)[..m];
      assert lines[1..] == ValueLines(f, row, names)[..m];
    }
  }

  lemma {:induction false} CutRows(f: Reals, order: set<Bytes> -> seq<Bytes>, rows: seq<Row>, st: Loader, n: nat)
    requires Faithful(f) && Enumerates(order) && InTable(st) && n <= |RowLines(f, order, rows)|
    requires forall k :: 0 <= k < |rows| ==> NamedRow(rows[k])
    ensures LoadLines(f, RowLines(f, order, rows)[..n], st) == None
    decreases |rows|
  {
    hide LoadLines, ValueLines, RowLine, NamedRow, Enumerates, Faithful;
    var lines := RowLines(f, order, rows);
    if n == 0 {
      assert lines[..0] == [];
      NothingLeft(f, st);
    } else {
      var row := rows[0];
      CutRow(f, order, row, st, if n > 0 then n - 1 else 0);
      var values := ValueLines(f, row, order(row.Keys));
      var rest := RowLines(f, order, rows[1..]);
      assert lines == [RowLine(row)] + values + rest;
      if n - 1 < |values| {
        assert lines[..n] == [RowLine(row)] + values[..n - 1];
      } else {
        var cut := rest[..n - 1 - |values|];
        assert lines[..n] == [RowLine(row)] + values + cut;
        OneRowRead(f, order, row, st, cut);
        CutRows(f, order, rows[1..], WithRow(st, row), n - 1 - |values|);
      }
    }
  }

  lemma RowStep(f: Reals, lines: File, st: Loader, row: Row, rest: File)
    requires InTable(st) && lines != [] && WordAt(lines[0], 0) == "ROW"
    requires ReadValues(f, lines[1..], NumberAt(lines[0], 1), map[]) == Some((row, rest))
    ensures LoadLines(f, lines, st) == LoadLines(f, rest, WithRow(st, row))
  {
    hide WordAt, NumberAt, ReadValues, ReadColumn, OpenTable;
  }

  lemma OneRowRead(f: Reals, order: set<Bytes> -> seq<Bytes>, row: Row, st: Loader, rest: File)
    requires Faithful(f) && Enumerates(order) && InTable(st) && NamedRow(row)
    ensures ListOf(order(row.Keys), row.Keys)
    ensures LoadLines(f, [RowLine(row)] + ValueLines(f, row, order(row.Keys)) + rest, st) == LoadLines(f, rest, WithRow(st, row))
  {
    hide LoadLines, ReadValues, ValueLines, RowLine, WordAt, NumberAt, Faithful, Enumerates, NamedRow;
    RowLineReadsBack(row);
    RowReadsBack(f, order, row, rest);
    hide ListOf;
    var values := ValueLines(f, row, order(row.Keys));
    var lines := [RowLine(row)] + values + rest;
    assert lines[1..] == values + rest && lines[0] == RowLine(row);
    RowStep(f, lines, st, row, rest);
  }

  lemma {:induction false} ColumnsCut(columns: seq<Column>, n: nat)
    requires n <= |columns|
    ensures |ColumnLines(columns)| == |columns| && ColumnLines(columns)[..n] == ColumnLines(columns[..n])
    decreases |columns|
  {
    hide ColumnLine;
    if columns != [] {
      ColumnsCut(columns[1..], if n > 0 then n - 1 else 0);
      if n > 0 { assert columns[..n][1..] == columns[1..][..n - 1]; }
    }
  }

  lemma CutTable(f: Reals, order: set<Bytes> -> seq<Bytes>, name: Bytes, t: Table, st: Loader, n: nat)
    requires Faithful(f) && Enumerates(order) && name != "" && NamedTable(t) && 0 < n < |TableLines(f, order, name, t)|
    ensures LoadLines(f, TableLines(f, order, name, t)[..n], st) == None
  {
    hide LoadLines, TableLine, RowLines, NamedRow, Enumerates, Faithful;
    var s1 := Loader(st.tables[name := Table(name, [], [])], Some(name), |t.columns|, |t.rows|, 0);
    var columns, rows := ColumnLines(t.columns), RowLines(f, order, t.rows);
    var lines := TableLines(f, order, name, t);
    ColumnsCut(t.columns, |t.columns|);
    assert lines == [TableLine(t, name)] + (columns + (rows + ["ENDTABLE"]));
    if n - 1 <= |columns| {
      assert lines[..n] == [TableLine(t, name)] + columns[..n - 1];
      TableOpens(f, name, t, st, columns[..n - 1]);
      ColumnsCut(t.columns, n - 1);
      assert columns[..n - 1] + [] == columns[..n - 1];
      ColumnsReadBack(f, t.columns[..n - 1], s1, []);
      NothingLeft(f, s1.(tables := s1.tables[name := Table(name, [] + t.columns[..n - 1], [])]));
    } else {
      var cut := rows[..n - 1 - |columns|];
      assert lines[..n] == [TableLine(t, name)] + (columns + cut);
      TableOpens(f, name, t, st, columns + cut);
      ColumnsReadBack(f, t.columns, s1, cut);
      CutRows(f, order, t.rows, s1.(tables := s1.tables[name := Table(name, [] + t.columns, [])]), n - 1 - |columns|);
    }
  }

  // ----- a file that is cut off -----

  /** The first `n` lines are those of the first `j` tables. */
  ghost predicate WholeTables(f: Reals, order: set<Bytes> -> seq<Bytes>, tables: Tables, names: seq<Bytes>, n: nat, j: nat)
    requires Enumerates(order) && forall name <- names :: name in tables
  {
    j <= |names| && n == |AllTableLines(f, order, tables, names[..j])|
  }

  lemma FirstOf(f: Reals, order: set<Bytes> -> seq<Bytes>, tables: Tables, names: seq<Bytes>, j: nat)
    requires Enumerates(order) && 0 < j <= |names| && forall name <- names :: name in tables
    ensures AllTableLines(f, order, tables, names[..j])
         == TableLines(f, order, names[0], tables[names[0]]) + AllTableLines(f, order, tables, names[1..][..j - 1])
  {
    hide TableLines, Enumerates;
    assert names[..j][1..] == names[1..][..j - 1] && names[..j][0] == names[0];
  }

  lemma {:induction false} TablesInFront(f: Reals, order: set<Bytes> -> seq<Bytes>, tables: Tables, names: seq<Bytes>, j: nat)
    requires Enumerates(order) && j <= |names| && forall name <- names :: name in tables
    ensures AllTableLines(f, order, tables, names[..j]) <= AllTableLines(f, order, tables, names)
    decreases j
  {
    hide TableLines, Enumerates;
    if j > 0 {
      FirstOf(f, order, tables, names, j);
      TablesInFront(f, order, tables, names[1..], j - 1);
    }
  }

  lemma {:induction false} CutInside(f: Reals, order: set<Bytes> -> seq<Bytes>, tables: Tables, names: seq<Bytes>, st: Loader, n: nat)
    requires Faithful(f) && Enumerates(order) && st.current.None? && forall name <- names :: name in tables
    requires n <= |AllTableLines(f, order, tables, names)|
    requires forall k :: 0 <= k < |names| ==> names[k] != "" && NamedTable(tables[names[k]])
    requires forall j: nat :: !WholeTables(f, order, tables, names, n, j)
    ensures LoadLines(f, AllTableLines(f, order, tables, names)[..n], st) == None
    decreases |names|
  {
    hide LoadLines, TableLines, NamedTable, Enumerates, Faithful;
    assert names[..0] == [] && !WholeTables(f, order, tables, names, n, 0);
    var lines, name := AllTableLines(f, order, tables, names), names[0];
    var first, rest := TableLines(f, order, name, tables[name]), AllTableLines(f, order, tables, names[1..]);
    if n < |first| {
      assert lines[..n] == first[..n];
      CutTable(f, order, name, tables[name], st, n);
    } else {
      var m := n - |first|;
      assert lines[..n] == first + rest[..m];
      TableReadsBack(f, order, name, tables[name], st, rest[..m]);
      forall j: nat ensures !WholeTables(f, order, tables, names[1..], m, j) {
        if j < |names| {
          FirstOf(f, order, tables, names, j + 1);
          assert !WholeTables(f, order, tables, names, n, j + 1);
        }
      }
      CutInside(f, order, tables, names[1..], Closed(st, name, tables[name]), m);
    }
  }

  /** Behind these lines a table has just ended, or none begun. */
  ghost predicate BehindTable(f: Reals, order: set<Bytes> -> seq<Bytes>, tables: Tables, names: seq<Bytes>, n: nat)
    requires Enumerates(order) && forall name <- names :: name in tables
  {
    exists j: nat :: WholeTables(f, order, tables, names, n, j)
  }

  lemma CutLoads(f: Reals, order: set<Bytes> -> seq<Bytes>, tables: Tables, names: seq<Bytes>, n: nat)
    requires Faithful(f) && Enumerates(order) && forall k :: 0 <= k < |names| ==> names[k] in tables && names[k] != ""
    requires n <= |AllTableLines(f, order, tables, names)| && forall k :: 0 <= k < |names| ==> NamedTable(tables[names[k]])
    ensures var r := LoadLines(f, AllTableLines(f, order, tables, names)[..n], Loader(map[], None, 0, 0, 0));
            && (r.Some? <==> BehindTable(f, order, tables, names, n))
            && forall j: nat :: WholeTables(f, order, tables, names, n, j) ==> r == Some(Restored(map[], tables, names[..j]))
  {
    hide NamedTable, AllTableLines, LoadLines, Faithful, Enumerates, Restored;
    var start, cut := Loader(map[], None, 0, 0, 0), AllTableLines(f, order, tables, names)[..n];
    forall j: nat | WholeTables(f, order, tables, names, n, j)
      ensures LoadLines(f, cut, start) == Some(Restored(map[], tables, names[..j]))
    {
      TablesInFront(f, order, tables, names, j);
      assert cut == AllTableLines(f, order, tables, names[..j]);
      TablesReadBack(f, order, tables, names[..j], start);
    }
    if !BehindTable(f, order, tables, names, n) {
      CutInside(f, order, tables, names, start, n);
    }
  }

  /**
   A saved file that is cut off `n` lines behind its header loads exactly if a table has just ended there, or none
   begun; it then holds the tables before the cut, and the others are gone unnoticed.
   */
  lemma CutFileLoadsIff(f: Reals, order: set<Bytes> -> seq<Bytes>, tables: Tables, n: nat)
    requires Faithful(f) && Enumerates(order) && Named(tables) && n < |Save(f, order, tables)|
    ensures ListOf(order(tables.Keys), tables.Keys)
    ensures var names, r := order(tables.Keys), Load(f, Save(f, order, tables)[..n + 1]);
            && (r.Some? <==> BehindTable(f, order, tables, names, n))
            && forall j: nat :: WholeTables(f, order, tables, names, n, j) ==> r == Some(Restored(map[], tables, names[..j]))
  {
    hide NamedTable, AllTableLines, LoadLines, Faithful, WholeTables, BehindTable, Restored;
    var names := order(tables.Keys);
    assert ListOf(names, tables.Keys);
    hide Enumerates, ListOf;
    forall k | 0 <= k < |names| ensures names[k] in tables && names[k] != "" && NamedTable(tables[names[k]]) {
      InList(names, tables.Keys, k);
    }
    var lines := Save(f, order, tables);
    assert lines[..n + 1][0] == HEADER && lines[..n + 1][1..] == AllTableLines(f, order, tables, names)[..n];
    CutLoads(f, order, tables, names, n);
  }

  lemma InList(names: seq<Bytes>, keys: set<Bytes>, k: nat)
    requires ListOf(names, keys) && k < |names|
    ensures names[k] in keys
  {
    assert names[k] in names;
  }

  // ----- other damage -----

  lemma HeaderMustMatch(f: Reals, file: File)
    ensures file == [] || file[0] != "NQDB1" ==> Load(f, file) == None
  {
  }

  /** A record of no known kind, or a part of a table outside one, is found. */
  lemma UnknownRecordIsFound(f: Reals, line: string, rest: File, st: Loader)
    requires var op := WordAt(line, 0); op !in {"", "TABLE"} && (op in {"COL", "ROW", "ENDTABLE"} ==> !InTable(st))
    ensures LoadLines(f, [line] + rest, st) == None
  {
    hide WordAt, ReadValues, ReadColumn, OpenTable;
  }

  /** A table or column line whose name or type cannot be read is found. */
  lemma BadLineIsFound(f: Reals, line: string, rest: File, st: Loader)
    requires || (WordAt(line, 0) == "TABLE" && Unhex(WordAt(line, 1)).None?)
             || (WordAt(line, 0) == "COL" && InTable(st) && (Unhex(WordAt(line, 1)).None? || ParseType(WordAt(line, 2)).None?))
    ensures LoadLines(f, [line] + rest, st) == None
  {
    hide WordAt, ReadValues, Unhex, ParseType;
    assert "TABLE" != "COL" by { assert |"TABLE"| != |"COL"|; }
  }

  /** So is a value line that is none, or whose name or value cannot be read. */
  lemma BadValueIsFound(f: Reals, line: string, rest: File, n: nat, row: Row)
    requires n > 0 && (WordAt(line, 0) != "VAL" || Unhex(WordAt(line, 1)).None? || Decode(f, WordAt(line, 2)).None?)
    ensures ReadValues(f, [line] + rest, n, row) == None
  {
    hide WordAt, Unhex, Decode;
  }

  /** What a stored value is, by its kind; integers beyond 64 bits and other kinds are none. */
  lemma StoredIff(f: Reals, kind: int, raw: Bytes, v: Value)
    ensures DecodeAs(f, kind, raw) == Some(v) <==>
      match v
      case Int(i) => kind == 0 && ParseInt(raw) == Some(i)
      case Real(d) => kind == 1 && f.read(raw) == Some(d)
      case Bool(b) => kind == 2 && (b <==> raw == "true")
      case Text(s) => kind == 3 && s == raw
  {
    hide ParseInt;
  }

  /** A table ends only with the columns and rows its first line announced. */
  lemma CountsMustAgree(f: Reals, st: Loader, rest: File)
    requires InTable(st) && (|st.tables[st.current.value].columns| != st.columns || st.seen != st.rows)
    ensures LoadLines(f, ["ENDTABLE"] + rest, st) == None
  {
    EndLineReadsBack();
    hide WordAt, ReadValues, ReadColumn, OpenTable;
    assert (["ENDTABLE"] + rest)[0] == "ENDTABLE";
  }
}
