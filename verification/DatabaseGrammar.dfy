/**
 Which scripts succeed: those whose tokens are statements, each of which means something on the tables the ones before
 it leave.  Everything else fails and changes no file.
 */
module DatabaseGrammar {
  import opened Basics
  import opened DatabaseText
  import opened Hexadecimal
  import opened Database
  import opened DatabaseScript
  import opened DatabaseSafety
  import opened DatabaseHistory
  import opened DatabaseMeaning

  // ----- the grammar -----

  function Word(text: Bytes): Token {
    Token(Id, text)
  }

  /** Which keyword begins the statement. */
  function Keyword(st: Statement): Bytes {
    match st
    case Use(_) => "database"
    case Create(_, _) => "table"
    case Add(_, _) => "insert"
    case Show(_, _) => "select"
    case Remove(_, _) => "delete"
    case Change(_, _, _) => "update"
  }

  /** A number with a dot is a double, one without an integer of 64 bits. */
  predicate NumberIs(f: Reals, text: Bytes, v: Value) {
    if '.' in text then v.Real? && f.read(text) == Some(v.d) else v.Int? && ParseInt(text) == Some(v.i)
  }

  /** The value a token denotes. */
  predicate Denotes(f: Reals, t: Token, v: Value) {
    match t.kind
    case Str => v == Text(t.text)
    case Num => NumberIs(f, t.text, v)
    case Id => v.Bool? && Lower(t.text) == (if v.b then "true" else "false")
    case _ => false
  }

  ghost predicate FieldAt(f: Reals, ts: seq<Token>, i: nat, name: Bytes, v: Value) {
    i + 2 < |ts| && ts[i] == Word(name) && ts[i + 1].kind.Colon? && Denotes(f, ts[i + 2], v)
  }

  /** Fields with commas between them, and a closing brace, up to `n`. */
  ghost predicate FieldsAt(f: Reals, ts: seq<Token>, i: nat, fields: Fields, n: nat)
    decreases |fields|
  {
    && fields != [] && FieldAt(f, ts, i, fields[0].0, fields[0].1) && i + 3 < |ts|
    && if |fields| == 1 then ts[i + 3].kind.RBrace? && n == i + 4
       else ts[i + 3].kind.Comma? && FieldsAt(f, ts, i + 4, fields[1..], n)
  }

  ghost predicate ObjectAt(f: Reals, ts: seq<Token>, i: nat, fields: Fields, n: nat) {
    && i + 1 < |ts| && ts[i].kind.LBrace?
    && if fields == [] then ts[i + 1].kind.RBrace? && n == i + 2 else FieldsAt(f, ts, i + 1, fields, n)
  }

  ghost predicate ConditionAt(f: Reals, ts: seq<Token>, i: nat, w: Condition, n: nat) {
    match w
    case Every => i < |ts| && !IsKeyword(ts[i], "where") && n == i
    case Where(name, v) =>
      && i + 3 < |ts| && IsKeyword(ts[i], "where") && ts[i + 1] == Word(name) && ts[i + 2].kind.Equals?
      && Denotes(f, ts[i + 3], v) && n == i + 4
  }

  predicate IsFlag(t: Token) {
    IsKeyword(t, "required") || IsKeyword(t, "unique") || IsKeyword(t, "key")
  }

  ghost predicate Has(ts: seq<Token>, i: nat, n: nat, word: Bytes)
    requires n <= |ts|
  {
    exists k :: i <= k < n && IsKeyword(ts[k], word)
  }

  /** Flags in any order and number; a key is unique and required. */
  ghost predicate FlagsAt(ts: seq<Token>, i: nat, c: Column, n: nat) {
    && i <= n < |ts| && (forall k :: i <= k < n ==> IsFlag(ts[k])) && !IsFlag(ts[n])
    && (c.key <==> Has(ts, i, n, "key"))
    && (c.required <==> Has(ts, i, n, "required") || c.key)
    && (c.unique <==> Has(ts, i, n, "unique") || c.key)
  }

  ghost predicate ColumnAt(ts: seq<Token>, i: nat, c: Column, n: nat) {
    && i + 2 < |ts| && ts[i] == Word(c.name) && ts[i + 1].kind.Colon? && ts[i + 2].kind.Id?
    && ParseType(ts[i + 2].text) == Some(c.kind) && FlagsAt(ts, i + 3, c, n)
  }

  /** One comma or semicolon may stand behind a column. */
  function PastSeparator(ts: seq<Token>, i: nat): nat {
    if i < |ts| && (ts[i].kind.Comma? || ts[i].kind.Semi?) then i + 1 else i
  }

  ghost predicate ColumnsAt(ts: seq<Token>, i: nat, columns: seq<Column>, n: nat)
    decreases |columns|
  {
    if columns == [] then i < |ts| && ts[i].kind.RBrace? && n == i + 1
    else exists m: nat :: ColumnAt(ts, i, columns[0], m) && ColumnsAt(ts, PastSeparator(ts, m), columns[1..], n)
  }

  ghost predicate StatementAt(f: Reals, ts: seq<Token>, i: nat, st: Statement, n: nat) {
    && i + 1 < |ts| && IsKeyword(ts[i], Keyword(st))
    && match st
       case Use(path) => ts[i + 1] == Token(Str, path) && n == i + 2
       case Create(name, columns) =>
         ts[i + 1] == Word(name) && i + 2 < |ts| && ts[i + 2].kind.LBrace? && ColumnsAt(ts, i + 3, columns, n)
       case Add(name, fields) => ts[i + 1] == Word(name) && ObjectAt(f, ts, i + 2, fields, n)
       case Show(name, w) => ts[i + 1] == Word(name) && ConditionAt(f, ts, i + 2, w, n)
       case Remove(name, w) => ts[i + 1] == Word(name) && ConditionAt(f, ts, i + 2, w, n)
       case Change(name, fields, w) =>
         && ts[i + 1] == Word(name) && i + 2 < |ts| && IsKeyword(ts[i + 2], "set")
         && exists m: nat :: ObjectAt(f, ts, i + 3, fields, m) && ConditionAt(f, ts, m, w, n)
  }

  /** Statements up to the end, each with or without a semicolon behind it. */
  ghost predicate ProgramAt(f: Reals, ts: seq<Token>, i: nat, sts: seq<Statement>)
    decreases |sts|
  {
    if sts == [] then i < |ts| && ts[i].kind.End?
    else exists n: nat :: StatementAt(f, ts, i, sts[0], n) && ProgramAt(f, ts, PastSemicolon(ts, n), sts[1..])
  }

  function PastSemicolon(ts: seq<Token>, i: nat): nat {
    if i < |ts| && ts[i].kind.Semi? then i + 1 else i
  }

  // ----- values -----

  lemma ValueIff(f: Reals, ts: seq<Token>, i: nat, v: Value)
    requires At(ts, i)
    ensures Denotes(f, ts[i], v) <==> ReadValue(f, ts, i) == Got(v, i + 1)
    ensures ReadValue(f, ts, i).Got? ==> ReadValue(f, ts, i).next == i + 1
  {
    hide ParseInt, Script, Lower;
    assert "true" != "false" by { assert |"true"| != |"false"|; }
  }

  lemma NotLast(ts: seq<Token>, i: nat)
    requires At(ts, i) && !ts[i].kind.End?
    ensures At(ts, i + 1)
  {
  }

  lemma FieldIff(f: Reals, ts: seq<Token>, i: nat, name: Bytes, v: Value)
    requires At(ts, i)
    ensures FieldAt(f, ts, i, name, v) <==> ReadField(f, ts, i) == Got((name, v), i + 3)
    ensures ReadField(f, ts, i).Got? ==> ReadField(f, ts, i).next == i + 3
  {
    hide Script, ReadValue, Denotes;
    if ts[i].kind.Id? {
      NotLast(ts, i);
      if ts[i + 1].kind.Colon? {
        NotLast(ts, i + 1);
        ValueIff(f, ts, i + 2, v);
        var r := ReadValue(f, ts, i + 2);
        if r.Got? { ValueIff(f, ts, i + 2, r.value); }
      }
    }
  }

  // ----- objects -----

  /** What the row becomes when the fields are put in, one by one. */
  function Put(row: Row, fields: Fields): Row
    decreases |fields|
  {
    if fields == [] then row else Put(row[fields[0].0 := fields[0].1], fields[1..])
  }

  lemma {:induction false} PutLast(row: Row, fields: Fields)
    requires fields != []
    ensures var n := |fields| - 1; Put(row, fields) == Put(row, fields[..n])[fields[n].0 := fields[n].1]
    decreases |fields|
  {
    var n := |fields| - 1;
    if n > 0 {
      PutLast(row[fields[0].0 := fields[0].1], fields[1..]);
      assert fields[1..][..n - 1] == fields[..n][1..] && fields[1..][n - 1] == fields[n];
    } else {
      assert fields[..n] == [] && fields[1..] == [];
    }
  }

  lemma {:induction false} PutIsRow(fields: Fields)
    ensures Put(map[], fields) == RowOf(fields)
    decreases |fields|
  {
    if fields != [] {
      PutLast(map[], fields);
      PutIsRow(fields[..|fields| - 1]);
    }
  }

  lemma {:induction false} FieldsComplete(f: Reals, ts: seq<Token>, i: nat, row: Row, fields: Fields, n: nat)
    requires At(ts, i) && FieldsAt(f, ts, i, fields, n)
    ensures ReadFields(f, ts, i, row) == Got(Put(row, fields), n)
    decreases |fields|
  {
    hide Script, ReadField, FieldAt;
    var (name, v) := fields[0];
    FieldIff(f, ts, i, name, v);
    if |fields| == 1 {
      assert fields[1..] == [];
      assert Put(row, fields) == row[name := v];
    } else {
      NotLast(ts, i + 3);
      FieldsComplete(f, ts, i + 4, row[name := v], fields[1..], n);
    }
  }

  lemma {:induction false} FieldsSound(f: Reals, ts: seq<Token>, i: nat, row: Row) returns (fields: Fields)
    requires At(ts, i) && ReadFields(f, ts, i, row).Got?
    ensures FieldsAt(f, ts, i, fields, ReadFields(f, ts, i, row).next)
    decreases |ts| - i
  {
    hide Script, ReadField, FieldAt;
    var (name, v) := ReadField(f, ts, i).value;
    FieldIff(f, ts, i, name, v);
    if ts[i + 3].kind.Comma? {
      NotLast(ts, i + 3);
      var rest := FieldsSound(f, ts, i + 4, row[name := v]);
      fields := [(name, v)] + rest;
      assert fields[1..] == rest;
    } else {
      fields := [(name, v)];
    }
  }

  lemma FirstField(f: Reals, ts: seq<Token>, i: nat, fields: Fields, n: nat)
    requires FieldsAt(f, ts, i, fields, n)
    ensures i < |ts| && ts[i].kind.Id?
  {
  }

  lemma ObjectComplete(f: Reals, ts: seq<Token>, i: nat, fields: Fields, n: nat)
    requires At(ts, i) && ObjectAt(f, ts, i, fields, n)
    ensures ReadObject(f, ts, i) == Got(RowOf(fields), n)
  {
    hide Script, ReadFields, FieldsAt;
    NotLast(ts, i);
    if fields == [] {
    } else {
      FirstField(f, ts, i + 1, fields, n);
      FieldsComplete(f, ts, i + 1, map[], fields, n);
      PutIsRow(fields);
    }
  }

  lemma ObjectSound(f: Reals, ts: seq<Token>, i: nat) returns (fields: Fields)
    requires At(ts, i) && ReadObject(f, ts, i).Got?
    ensures ObjectAt(f, ts, i, fields, ReadObject(f, ts, i).next)
  {
    hide Script, ReadFields, FieldsAt;
    NotLast(ts, i);
    if ts[i + 1].kind.RBrace? {
      fields := [];
    } else {
      fields := FieldsSound(f, ts, i + 1, map[]);
      assert fields != [] by { FirstField(f, ts, i + 1, fields, ReadObject(f, ts, i).next); NotNone(f, ts, i + 1, fields, ReadObject(f, ts, i).next); }
    }
  }

  lemma NotNone(f: Reals, ts: seq<Token>, i: nat, fields: Fields, n: nat)
    requires FieldsAt(f, ts, i, fields, n)
    ensures fields != []
  {
  }

  // ----- conditions -----

  lemma ConditionComplete(f: Reals, ts: seq<Token>, i: nat, w: Condition, n: nat)
    requires At(ts, i) && ConditionAt(f, ts, i, w, n)
    ensures ReadWhere(f, ts, i) == Got(w, n)
  {
    hide Script, ReadValue, Denotes, Lower;
    if w.Where? {
      NotLast(ts, i);
      NotLast(ts, i + 1);
      NotLast(ts, i + 2);
      ValueIff(f, ts, i + 3, w.value);
    }
  }

  lemma ConditionSound(f: Reals, ts: seq<Token>, i: nat)
    requires At(ts, i) && ReadWhere(f, ts, i).Got?
    ensures ConditionAt(f, ts, i, ReadWhere(f, ts, i).value, ReadWhere(f, ts, i).next)
  {
    hide Script, ReadValue, Denotes, Lower;
    if IsKeyword(ts[i], "where") {
      NotLast(ts, i);
      NotLast(ts, i + 1);
      NotLast(ts, i + 2);
      ValueIff(f, ts, i + 3, ReadWhere(f, ts, i).value.value);
    }
  }

  // ----- columns -----

  lemma {:induction false} RepeatedName(before: seq<Column>, columns: seq<Column>)
    requires columns != [] && HasColumn(before, columns[0].name)
    ensures !DistinctNames(before + columns)
  {
    var k :| 0 <= k < |before| && before[k].name == columns[0].name;
    assert (before + columns)[k].name == (before + columns)[|before|].name;
  }

  lemma NewName(before: seq<Column>, c: Column)
    requires DistinctNames(before) && !HasColumn(before, c.name)
    ensures DistinctNames(before + [c])
  {
  }

  lemma NoNames()
    ensures DistinctNames([])
  {
  }

  /** What flags from `i` to `n` make of a column. */
  ghost predicate Flagged(ts: seq<Token>, i: nat, base: Column, c: Column, n: nat) {
    && i <= n < |ts| && (forall k :: i <= k < n ==> IsFlag(ts[k])) && !IsFlag(ts[n])
    && c.name == base.name && c.kind == base.kind
    && (c.key <==> base.key || Has(ts, i, n, "key"))
    && (c.required <==> base.required || Has(ts, i, n, "required") || Has(ts, i, n, "key"))
    && (c.unique <==> base.unique || Has(ts, i, n, "unique") || Has(ts, i, n, "key"))
  }

  lemma HasFirst(ts: seq<Token>, i: nat, n: nat, word: Bytes)
    requires i < n <= |ts|
    ensures Has(ts, i, n, word) <==> IsKeyword(ts[i], word) || Has(ts, i + 1, n, word)
  {
    hide IsKeyword;
  }

  lemma FlagWords(t: Token)
    ensures IsKeyword(t, "required") ==> !IsKeyword(t, "unique") && !IsKeyword(t, "key")
    ensures IsKeyword(t, "unique") ==> !IsKeyword(t, "key")
    ensures t.kind.End? ==> !IsFlag(t)
  {
    hide Lower;
    assert |"required"| == 8 && |"unique"| == 6 && |"key"| == 3;
  }

  lemma {:induction false} FlagsFlag(ts: seq<Token>, i: nat, base: Column)
    requires At(ts, i)
    ensures var (c, n) := ReadFlags(ts, i, base); Flagged(ts, i, base, c, n)
    decreases |ts| - i
  {
    hide IsKeyword, Script, Has;
    var (c, n) := ReadFlags(ts, i, base);
    FlagWords(ts[i]);
    if IsFlag(ts[i]) {
      NotLast(ts, i);
      FlagsFlag(ts, i + 1, if IsKeyword(ts[i], "required") then base.(required := true)
                           else if IsKeyword(ts[i], "unique") then base.(unique := true)
                           else base.(key := true, unique := true, required := true));
      HasFirst(ts, i, n, "required");
      HasFirst(ts, i, n, "unique");
      HasFirst(ts, i, n, "key");
    } else {
      assert n == i;
      NoneHas(ts, i);
    }
  }

  lemma NoneHas(ts: seq<Token>, i: nat)
    requires i <= |ts|
    ensures !Has(ts, i, i, "required") && !Has(ts, i, i, "unique") && !Has(ts, i, i, "key")
  {
  }

  lemma FlagsEndOnce(ts: seq<Token>, i: nat, m: nat, n: nat)
    requires i <= m < |ts| && i <= n < |ts| && !IsFlag(ts[m]) && !IsFlag(ts[n])
    requires (forall k :: i <= k < m ==> IsFlag(ts[k])) && forall k :: i <= k < n ==> IsFlag(ts[k])
    ensures m == n
  {
    hide IsFlag;
  }

  lemma ColumnIff(ts: seq<Token>, i: nat, c: Column, n: nat, columns: seq<Column>)
    requires At(ts, i)
    ensures ReadDeclared(ts, i, columns) == Got(c, n) <==> ColumnAt(ts, i, c, n) && !HasColumn(columns, c.name)
  {
    hide Script, ReadFlags, ParseType, HasColumn, Has, IsFlag;
    if ts[i].kind.Id? {
      NotLast(ts, i);
      if ts[i + 1].kind.Colon? {
        NotLast(ts, i + 1);
        if ts[i + 2].kind.Id? && ParseType(ts[i + 2].text).Some? {
          NotLast(ts, i + 2);
          var base := Column(ts[i].text, ParseType(ts[i + 2].text).value, false, false, false);
          FlagsFlag(ts, i + 3, base);
          var (d, m) := ReadFlags(ts, i + 3, base);
          if ColumnAt(ts, i, c, n) { FlagsEndOnce(ts, i + 3, m, n); }
        }
      }
    }
  }

  lemma {:induction false} ColumnsComplete(ts: seq<Token>, i: nat, columns: seq<Column>, n: nat, before: seq<Column>)
    requires At(ts, i) && ColumnsAt(ts, i, columns, n) && DistinctNames(before)
    ensures var r := ReadColumns(ts, i, before);
            if DistinctNames(before + columns) then r == Got(before + columns, n) else r.Bad?
    decreases |columns|
  {
    hide Script, ReadDeclared, ColumnAt, DistinctNames, HasColumn;
    if columns == [] {
      assert before + columns == before;
    } else {
      var c := columns[0];
      var m: nat :| ColumnAt(ts, i, c, m) && ColumnsAt(ts, PastSeparator(ts, m), columns[1..], n);
      ColumnStarts(ts, i, c, m);
      ColumnIff(ts, i, c, m, before);
      assert before + columns == (before + [c]) + columns[1..];
      if HasColumn(before, c.name) {
        RepeatedName(before, columns);
        RepeatIsBad(ts, i, c, m, before);
      } else {
        NewName(before, c);
        if ts[m].kind.Comma? || ts[m].kind.Semi? { NotLast(ts, m); }
        ColumnsComplete(ts, PastSeparator(ts, m), columns[1..], n, before + [c]);
      }
    }
  }

  lemma ColumnStarts(ts: seq<Token>, i: nat, c: Column, m: nat)
    requires At(ts, i) && ColumnAt(ts, i, c, m)
    ensures ts[i].kind.Id? && At(ts, m)
  {
    hide Script;
  }

  lemma RepeatIsBad(ts: seq<Token>, i: nat, c: Column, m: nat, before: seq<Column>)
    requires At(ts, i) && ColumnAt(ts, i, c, m) && HasColumn(before, c.name)
    ensures ReadDeclared(ts, i, before).Bad?
  {
    ColumnIff(ts, i, c, m, []);
    assert !HasColumn([], c.name);
    hide Script, ReadFlags, ParseType, FlagsAt;
  }

  lemma {:induction false} ColumnsSound(ts: seq<Token>, i: nat, before: seq<Column>) returns (columns: seq<Column>)
    requires At(ts, i) && ReadColumns(ts, i, before).Got?
    ensures ColumnsAt(ts, i, columns, ReadColumns(ts, i, before).next)
    decreases |ts| - i
  {
    hide Script, ReadDeclared, ColumnAt, HasColumn;
    if ts[i].kind.RBrace? {
      columns := [];
    } else {
      var d := ReadDeclared(ts, i, before);
      ColumnIff(ts, i, d.value, d.next, before);
      if ts[d.next].kind.Comma? || ts[d.next].kind.Semi? { NotLast(ts, d.next); }
      var rest := ColumnsSound(ts, PastSeparator(ts, d.next), before + [d.value]);
      columns := [d.value] + rest;
      assert columns[1..] == rest;
    }
  }

  // ----- statements -----

  ghost predicate Stood(w: World, ts: seq<Token>, s: Running, st: Statement, n: nat) {
    Ready(ts, s) && StatementAt(w.f, ts, s.at, st, n)
  }

  lemma NamedIs(ts: seq<Token>, s: Running, name: Bytes)
    requires Ready(ts, s) && ts[s.at].kind.Id? && s.at + 1 < |ts| && ts[s.at + 1] == Word(name)
    ensures Named(ts, s) == (if name in s.tables then Some(name) else None) && At(ts, s.at + 2)
  {
    hide Script;
    NotLast(ts, s.at);
    NotLast(ts, s.at + 1);
  }

  lemma UseStood(w: World, ts: seq<Token>, s: Running, st: Statement, n: nat)
    requires Stood(w, ts, s, st, n) && st.Use? && ts[s.at].kind.Id?
    ensures n >= s.at && Obeys(s, DoDatabase(w, ts, s), UseMeaning(w, DbOf(s), st.path), n - s.at)
  {
    hide Script, Load, IsKeyword;
    assert |s.tables| == 0 <==> s.tables == map[];
  }

  lemma CreateStood(w: World, ts: seq<Token>, s: Running, st: Statement, n: nat)
    requires Stood(w, ts, s, st, n) && st.Create? && ts[s.at].kind.Id?
    ensures n >= s.at && Obeys(s, DoTable(w, ts, s), CreateMeaning(DbOf(s), st.name, st.columns), n - s.at)
  {
    hide Script, ColumnsAt, ReadColumns, DistinctNames, DoTable, IsKeyword;
    NamedIs(ts, s, st.name);
    NotLast(ts, s.at + 2);
    NoNames();
    ColumnsComplete(ts, s.at + 3, st.columns, n, []);
    ColumnsGrow(ts, s.at + 3, st.columns, n);
    assert [] + st.columns == st.columns;
    TableUnfolds(w, ts, s, st.name, ReadColumns(ts, s.at + 3, []));
  }

  lemma {:induction false} ColumnsGrow(ts: seq<Token>, i: nat, columns: seq<Column>, n: nat)
    requires ColumnsAt(ts, i, columns, n)
    ensures i < n
    decreases |columns|
  {
    if columns != [] {
      var m: nat :| ColumnAt(ts, i, columns[0], m) && ColumnsAt(ts, PastSeparator(ts, m), columns[1..], n);
      ColumnsGrow(ts, PastSeparator(ts, m), columns[1..], n);
    }
  }

  lemma AddStood(w: World, ts: seq<Token>, s: Running, st: Statement, n: nat)
    requires Stood(w, ts, s, st, n) && st.Add? && ts[s.at].kind.Id?
    ensures n >= s.at && Obeys(s, DoInsert(w, ts, s), AddMeaning(w.f, DbOf(s), st.name, RowOf(st.fields)), n - s.at)
  {
    hide Script, ObjectAt, ReadObject, RowOf, Named, Validates, MayStand, DoInsert, IsKeyword;
    NamedIs(ts, s, st.name);
    ObjectComplete(w.f, ts, s.at + 2, st.fields, n);
    InsertUnfolds(w, ts, s, st.name, RowOf(st.fields), n);
    if st.name in s.tables { NewRowIff(w.f, s.tables[st.name], RowOf(st.fields)); }
  }

  lemma ShowStood(w: World, ts: seq<Token>, s: Running, st: Statement, n: nat)
    requires Stood(w, ts, s, st, n) && st.Show? && ts[s.at].kind.Id?
    ensures n >= s.at && Obeys(s, DoSelect(w, ts, s), ShowMeaning(w.f, DbOf(s), st.name, st.w), n - s.at)
  {
    hide Script, ConditionAt, ReadWhere, Named, Answer, Heading, Only, Lines, Tabbed, Names, IsKeyword;
    NamedIs(ts, s, st.name);
    ConditionComplete(w.f, ts, s.at + 2, st.w, n);
    if st.name in s.tables {
      var t := s.tables[st.name];
      AnswerIs(w.f, t.rows, t.columns, st.w);
      HeadingIs(t.columns);
    }
  }

  lemma RemoveStood(w: World, ts: seq<Token>, s: Running, st: Statement, n: nat)
    requires Stood(w, ts, s, st, n) && st.Remove? && ts[s.at].kind.Id?
    ensures n >= s.at && Obeys(s, DoDelete(w, ts, s), RemoveMeaning(w.f, DbOf(s), st.name, st.w), n - s.at)
  {
    hide Script, ConditionAt, ReadWhere, Named, Kept, Without, AnyMeets, IsKeyword;
    NamedIs(ts, s, st.name);
    ConditionComplete(w.f, ts, s.at + 2, st.w, n);
    if st.name in s.tables { KeptIs(w.f, s.tables[st.name].rows, st.w); }
  }

  lemma ChangeStood(w: World, ts: seq<Token>, s: Running, st: Statement, n: nat)
    requires Stood(w, ts, s, st, n) && st.Change? && ts[s.at].kind.Id?
    ensures n >= s.at && Obeys(s, DoUpdate(w, ts, s), ChangeMeaning(w.f, DbOf(s), st.name, RowOf(st.fields), st.w), n - s.at)
  {
    hide Script, ObjectAt, ConditionAt, ReadObject, ReadWhere, RowOf, Named, IsKeyword, DoUpdate;
    hide Patched, Changed, AnyMatches, AnyMeets, MayChangeFrom;
    var m: nat :| ObjectAt(w.f, ts, s.at + 3, st.fields, m) && ConditionAt(w.f, ts, m, st.w, n);
    NamedIs(ts, s, st.name);
    KeywordsAreIds(ts[s.at + 2]);
    NotLast(ts, s.at + 2);
    ObjectComplete(w.f, ts, s.at + 3, st.fields, m);
    ConditionComplete(w.f, ts, m, st.w, n);
    UpdateUnfolds(w, ts, s, st.name, RowOf(st.fields), st.w, m, n);
    if st.name in s.tables { TableChanges(w.f, s.tables[st.name], RowOf(st.fields), st.w); }
  }

  lemma KeywordOf(st: Statement)
    ensures Keyword(st) == "database" <==> st.Use?
    ensures Keyword(st) == "table" <==> st.Create?
    ensures Keyword(st) == "insert" <==> st.Add?
    ensures Keyword(st) == "select" <==> st.Show?
    ensures Keyword(st) == "delete" <==> st.Remove?
    ensures Keyword(st) == "update" <==> st.Change?
  {
    var word := Keyword(st);
    assert |word| == if st.Use? then 8 else if st.Create? then 5 else 6;
    assert word[0] == if st.Use? || st.Remove? then 'd' else if st.Create? then 't' else if st.Add? then 'i' else if st.Show? then 's' else 'u';
    assert "insert"[0] == 'i' && "select"[0] == 's' && "delete"[0] == 'd' && "update"[0] == 'u';
  }

  lemma KeywordChosen(t: Token, st: Statement)
    requires IsKeyword(t, Keyword(st))
    ensures t.kind.Id?
    ensures IsKeyword(t, "database") <==> st.Use?
    ensures IsKeyword(t, "table") <==> st.Create?
    ensures IsKeyword(t, "insert") <==> st.Add?
    ensures IsKeyword(t, "select") <==> st.Show?
    ensures IsKeyword(t, "delete") <==> st.Remove?
    ensures IsKeyword(t, "update") <==> st.Change?
  {
    KeywordOf(st);
    hide Keyword, Lower;
  }

  /** What stands there as a statement is done as it means, and fails where that is nothing. */
  lemma StatementStood(w: World, ts: seq<Token>, s: Running, st: Statement, n: nat)
    requires Stood(w, ts, s, st, n)
    ensures n >= s.at && Obeys(s, DoStatement(w, ts, s), Meaning(w, st, DbOf(s)), n - s.at)
  {
    hide Script, Keyword, IsKeyword, Obeys, DoDatabase, DoTable, DoInsert, DoSelect, DoDelete, DoUpdate, ObjectAt, ConditionAt, ColumnsAt;
    hide UseMeaning, CreateMeaning, AddMeaning, ShowMeaning, RemoveMeaning, ChangeMeaning;
    KeywordChosen(ts[s.at], st);
    match st
    case Use(_) => UseStood(w, ts, s, st, n);
    case Create(_, _) => CreateStood(w, ts, s, st, n);
    case Add(_, _) => AddStood(w, ts, s, st, n);
    case Show(_, _) => ShowStood(w, ts, s, st, n);
    case Remove(_, _) => RemoveStood(w, ts, s, st, n);
    case Change(_, _, _) => ChangeStood(w, ts, s, st, n);
  }

  /** The statement went well: it was done, and reported nothing. */
  predicate Well(s: Running, r: Option<Running>) {
    r.Some? && (r.value.failed ==> s.failed)
  }

  lemma TableFound(w: World, ts: seq<Token>, s: Running) returns (st: Statement)
    requires Ready(ts, s) && IsKeyword(ts[s.at], "table") && !s.failed && ts[s.at].kind.Id? && Well(s, DoTable(w, ts, s))
    ensures Stood(w, ts, s, st, DoTable(w, ts, s).value.at)
  {
    hide Script, ColumnsAt, ReadColumns, IsKeyword;
    NotLast(ts, s.at);
    NotLast(ts, s.at + 1);
    NotLast(ts, s.at + 2);
    var columns := ColumnsSound(ts, s.at + 3, []);
    st := Create(ts[s.at + 1].text, columns);
  }

  lemma InsertFound(w: World, ts: seq<Token>, s: Running) returns (st: Statement)
    requires Ready(ts, s) && IsKeyword(ts[s.at], "insert") && !s.failed && ts[s.at].kind.Id? && Well(s, DoInsert(w, ts, s))
    ensures Stood(w, ts, s, st, DoInsert(w, ts, s).value.at)
  {
    hide Script, ObjectAt, ReadObject, IsKeyword, Validates;
    NotLast(ts, s.at);
    NotLast(ts, s.at + 1);
    var fields := ObjectSound(w.f, ts, s.at + 2);
    st := Add(ts[s.at + 1].text, fields);
  }

  lemma SelectFound(w: World, ts: seq<Token>, s: Running) returns (st: Statement)
    requires Ready(ts, s) && IsKeyword(ts[s.at], "select") && !s.failed && ts[s.at].kind.Id? && Well(s, DoSelect(w, ts, s))
    ensures Stood(w, ts, s, st, DoSelect(w, ts, s).value.at)
  {
    hide Script, ConditionAt, ReadWhere, IsKeyword, Answer, Heading;
    NotLast(ts, s.at);
    NotLast(ts, s.at + 1);
    ConditionSound(w.f, ts, s.at + 2);
    st := Show(ts[s.at + 1].text, ReadWhere(w.f, ts, s.at + 2).value);
  }

  lemma DeleteFound(w: World, ts: seq<Token>, s: Running) returns (st: Statement)
    requires Ready(ts, s) && IsKeyword(ts[s.at], "delete") && !s.failed && ts[s.at].kind.Id? && Well(s, DoDelete(w, ts, s))
    ensures Stood(w, ts, s, st, DoDelete(w, ts, s).value.at)
  {
    hide Script, ConditionAt, ReadWhere, IsKeyword, Kept;
    NotLast(ts, s.at);
    NotLast(ts, s.at + 1);
    ConditionSound(w.f, ts, s.at + 2);
    st := Remove(ts[s.at + 1].text, ReadWhere(w.f, ts, s.at + 2).value);
  }

  lemma UpdateFound(w: World, ts: seq<Token>, s: Running) returns (st: Statement)
    requires Ready(ts, s) && IsKeyword(ts[s.at], "update") && !s.failed && ts[s.at].kind.Id? && Well(s, DoUpdate(w, ts, s))
    ensures Stood(w, ts, s, st, DoUpdate(w, ts, s).value.at)
  {
    hide Script, ObjectAt, ConditionAt, ReadObject, ReadWhere, IsKeyword, Patched, AnyMatches;
    NotLast(ts, s.at);
    NotLast(ts, s.at + 1);
    KeywordsAreIds(ts[s.at + 2]);
    NotLast(ts, s.at + 2);
    var fields := ObjectSound(w.f, ts, s.at + 3);
    var m := ReadObject(w.f, ts, s.at + 3).next;
    ConditionSound(w.f, ts, m);
    st := Change(ts[s.at + 1].text, fields, ReadWhere(w.f, ts, m).value);
  }

  lemma DatabaseFound(w: World, ts: seq<Token>, s: Running) returns (st: Statement)
    requires Ready(ts, s) && IsKeyword(ts[s.at], "database") && !s.failed && ts[s.at].kind.Id? && Well(s, DoDatabase(w, ts, s))
    ensures Stood(w, ts, s, st, DoDatabase(w, ts, s).value.at)
  {
    hide Script, Load, IsKeyword;
    NotLast(ts, s.at);
    st := Use(ts[s.at + 1].text);
  }

  /** Whatever goes well is a statement. */
  lemma StatementFound(w: World, ts: seq<Token>, s: Running) returns (st: Statement)
    requires Ready(ts, s) && !s.failed && Well(s, DoStatement(w, ts, s))
    ensures Stood(w, ts, s, st, DoStatement(w, ts, s).value.at)
  {
    hide Script, IsKeyword, Stood, DoDatabase, DoTable, DoInsert, DoSelect, DoDelete, DoUpdate;
    var t := ts[s.at];
    KeywordsAreIds(t);
    if IsKeyword(t, "database") { st := DatabaseFound(w, ts, s); }
    else if IsKeyword(t, "table") { st := TableFound(w, ts, s); }
    else if IsKeyword(t, "insert") { st := InsertFound(w, ts, s); }
    else if IsKeyword(t, "select") { st := SelectFound(w, ts, s); }
    else if IsKeyword(t, "delete") { st := DeleteFound(w, ts, s); }
    else { st := UpdateFound(w, ts, s); }
  }

  // ----- scripts -----

  lemma StartReady(ts: seq<Token>, s: Running)
    requires Script(ts) && s.at == 0
    ensures Ready(ts, s)
  {
  }

  lemma {:induction false} ProgramStood(w: World, ts: seq<Token>, s: Running, sts: seq<Statement>)
    requires Ready(ts, s) && ProgramAt(w.f, ts, s.at, sts)
    ensures var r, m := DoAll(w, ts, s), MeaningAll(w, sts, DbOf(s));
            match m
            case None => r.None?
            case Some(db) => r.Some? && DbOf(r.value) == db && r.value.failed == s.failed
    decreases |sts|
  {
    hide Script, Meaning, DoStatement, StatementAt;
    if sts != [] {
      var n: nat :| StatementAt(w.f, ts, s.at, sts[0], n) && ProgramAt(w.f, ts, PastSemicolon(ts, n), sts[1..]);
      StatementStood(w, ts, s, sts[0], n);
      BeginsWithId(w.f, ts, s.at, sts[0], n);
      var r := DoStatement(w, ts, s);
      if r.Some? {
        StillReady(w, ts, s);
        ProgramStood(w, ts, PastSemi(ts, r.value), sts[1..]);
      }
    }
  }

  lemma BeginsWithId(f: Reals, ts: seq<Token>, i: nat, st: Statement, n: nat)
    requires StatementAt(f, ts, i, st, n)
    ensures i < |ts| && ts[i].kind.Id?
  {
    hide Keyword, Lower, ObjectAt, ConditionAt, ColumnsAt;
  }

  lemma {:induction false} ProgramFound(w: World, ts: seq<Token>, s: Running) returns (sts: seq<Statement>)
    requires Ready(ts, s) && DoAll(w, ts, s).Some? && !DoAll(w, ts, s).value.failed
    ensures ProgramAt(w.f, ts, s.at, sts) && !s.failed
    decreases |ts| - s.at
  {
    hide Script, DoStatement, StatementAt;
    if ts[s.at].kind.End? {
      sts := [];
    } else {
      var r := DoStatement(w, ts, s);
      StillReady(w, ts, s);
      var rest := ProgramFound(w, ts, PastSemi(ts, r.value));
      FailedStays(w, ts, s);
      var st := StatementFound(w, ts, s);
      sts := [st] + rest;
      ProgramAdds(w.f, ts, s.at, st, r.value.at, rest);
    }
  }

  lemma ProgramAdds(f: Reals, ts: seq<Token>, i: nat, st: Statement, n: nat, rest: seq<Statement>)
    requires StatementAt(f, ts, i, st, n) && ProgramAt(f, ts, PastSemicolon(ts, n), rest)
    ensures ProgramAt(f, ts, i, [st] + rest)
  {
    hide StatementAt;
    assert ([st] + rest)[1..] == rest;
  }

  lemma FailedDatabase(w: World, ts: seq<Token>, s: Running)
    requires Ready(ts, s) && ts[s.at].kind.Id?
    ensures var r := DoDatabase(w, ts, s); r.Some? && s.failed ==> r.value.failed
  {
    hide Script, Load;
  }

  lemma FailedTable(w: World, ts: seq<Token>, s: Running)
    requires Ready(ts, s) && ts[s.at].kind.Id?
    ensures var r := DoTable(w, ts, s); r.Some? && s.failed ==> r.value.failed
  {
    hide Script, ReadColumns;
  }

  lemma FailedInsert(w: World, ts: seq<Token>, s: Running)
    requires Ready(ts, s) && ts[s.at].kind.Id?
    ensures var r := DoInsert(w, ts, s); r.Some? && s.failed ==> r.value.failed
  {
    hide Script, Named, ReadObject, Validates;
  }

  lemma FailedSelect(w: World, ts: seq<Token>, s: Running)
    requires Ready(ts, s) && ts[s.at].kind.Id?
    ensures var r := DoSelect(w, ts, s); r.Some? && s.failed ==> r.value.failed
  {
    hide Script, Named, ReadWhere, IsKeyword, Answer, Heading;
  }

  lemma FailedDelete(w: World, ts: seq<Token>, s: Running)
    requires Ready(ts, s) && ts[s.at].kind.Id?
    ensures var r := DoDelete(w, ts, s); r.Some? && s.failed ==> r.value.failed
  {
    hide Script, Named, ReadWhere, Kept;
  }

  lemma FailedUpdate(w: World, ts: seq<Token>, s: Running)
    requires Ready(ts, s) && ts[s.at].kind.Id?
    ensures var r := DoUpdate(w, ts, s); r.Some? && s.failed ==> r.value.failed
  {
    hide Script, Named, IsKeyword, ReadObject, ReadWhere, Patched, AnyMatches;
  }

  /** An error that was reported is not forgotten. */
  lemma FailedStays(w: World, ts: seq<Token>, s: Running)
    requires Ready(ts, s)
    ensures var r := DoStatement(w, ts, s); r.Some? && s.failed ==> r.value.failed
  {
    KeywordsAreIds(ts[s.at]);
    hide Script, IsKeyword, DoDatabase, DoTable, DoInsert, DoSelect, DoDelete, DoUpdate;
    if ts[s.at].kind.Id? {
      FailedDatabase(w, ts, s);
      FailedTable(w, ts, s);
      FailedInsert(w, ts, s);
      FailedSelect(w, ts, s);
      FailedDelete(w, ts, s);
      FailedUpdate(w, ts, s);
    }
  }

  /** What a script is to leave: nothing if its file is damaged. */
  ghost function Outcome(w: World, sts: seq<Statement>, path: Path): Option<Db> {
    match TablesAt(w.f, w.disk, path)
    case None => None
    case Some(tables) => MeaningAll(w, sts, Db(path, tables, false, []))
  }

  /** Any tokens: if they are statements they end as those mean, and otherwise in failure. */
  lemma EndingIff(w: World, ts: seq<Token>, path: Path)
    requires Script(ts)
    ensures forall sts :: ProgramAt(w.f, ts, 0, sts) ==>
      Outcome(w, sts, path) == (match Ending(w, ts, path) case None => None case Some(s) => Some(DbOf(s)))
    ensures (forall sts :: !ProgramAt(w.f, ts, 0, sts)) ==> Ending(w, ts, path).None?
  {
    hide Script, MeaningAll, DoAll, TablesAt, ProgramAt;
    var start := TablesAt(w.f, w.disk, path);
    if start.Some? {
      var s := Running(0, path, start.value, false, false, []);
      StartReady(ts, s);
      forall sts | ProgramAt(w.f, ts, 0, sts)
        ensures Outcome(w, sts, path) == (match Ending(w, ts, path) case None => None case Some(s') => Some(DbOf(s')))
      {
        ProgramStood(w, ts, s, sts);
      }
      if Ending(w, ts, path).Some? {
        var sts := ProgramFound(w, ts, s);
      }
    }
  }

  /**
   A script succeeds exactly if its tokens are statements that mean something, each on the tables the ones before it
   leave; it then commits the tables the last one leaves.  Any other script changes no file.
   */
  lemma ScriptSucceedsIff(w: World, order: set<Bytes> -> seq<Bytes>, ts: seq<Token>, path: Path)
    requires Sound(w, order) && Script(ts)
    ensures var r := Execute(w, order, ts, path);
            && (r.ok <==> exists sts :: ProgramAt(w.f, ts, 0, sts) && Outcome(w, sts, path).Some?)
            && (!r.ok ==> r.disk == w.disk)
            && forall sts :: r.ok && ProgramAt(w.f, ts, 0, sts) ==>
                 var db := Outcome(w, sts, path);
                 && db.Some? && TablesAt(w.f, r.disk, db.value.path) == Some(db.value.tables)
                 && SameElsewhere(w.disk, r.disk, db.value.path)
  {
    hide Script, Faithful, Execute, TablesAt, SameElsewhere, ProgramAt, Outcome, Ending, GoodDisk;
    ScriptCommits(w, order, ts, path);
    EndingIff(w, ts, path);
  }
}
