/** Executing database scripts: the session with its cursor, and reading and writing the file. */
module DatabaseSession {
  import opened Basics
  import opened DatabaseText
  import opened Hexadecimal
  import opened Database
  import opened DatabaseScript

  // ----- files -----

  /** Reads a file line by line. */
  method LoadState(f: Reals, file: File) returns (tables: Option<Tables>)
    ensures tables == Load(f, file)
  {
    if file == [] || file[0] != HEADER { return None; }
    var st := Loader(map[], None, 0, 0, 0);
    var i := 1;
    assert file[1..] == file[i..];
    while i < |file|
      invariant 1 <= i <= |file| && Load(f, file) == LoadLines(f, file[i..], st)
      decreases |file| - i
    {
      hide ReadColumn, ReadValues, OpenTable, WordAt, NumberAt;
      var line := file[i];
      var op := WordAt(line, 0);
      ghost var rest := file[i..];
      assert rest[0] == line && rest[1..] == file[i + 1..];
      i := i + 1;
      if op == "TABLE" {
        var begun := OpenTable(st, line);
        if begun.None? { return None; }
        st := begun.value;
      } else if op == "COL" && InTable(st) {
        var c := ReadColumn(line);
        if c.None? { return None; }
        st := WithColumn(st, c.value);
      } else if op == "ROW" && InTable(st) {
        var row, next := LoadRow(f, file, i, NumberAt(line, 1));
        if row.None? { return None; }
        st, i := WithRow(st, row.value), next;
      } else if op == "ENDTABLE" && InTable(st) {
        if |st.tables[st.current.value].columns| != st.columns || st.seen != st.rows { return None; }
        st := st.(current := None);
      } else if op != "" {
        return None;
      }
    }
    assert file[|file|..] == [];
    return if st.current.Some? then None else Some(st.tables);
  }

  /** The value lines of a row, from line `start` on. */
  method LoadRow(f: Reals, file: File, start: nat, n: nat) returns (row: Option<Row>, next: nat)
    requires start <= |file|
    ensures start <= next <= |file|
    ensures var r := ReadValues(f, file[start..], n, map[]);
            if row.Some? then r == Some((row.value, file[next..])) else r.None?
  {
    hide WordAt, Decode, Unhex;
    var left, fields: Row := n, map[];
    next := start;
    while left > 0
      invariant start <= next <= |file|
      invariant ReadValues(f, file[start..], n, map[]) == ReadValues(f, file[next..], left, fields)
      decreases left
    {
      if next == |file| { return None, next; }
      var line := file[next];
      assert file[next..][0] == line && file[next..][1..] == file[next + 1..];
      if WordAt(line, 0) != "VAL" { return None, next; }
      var name, v := Unhex(WordAt(line, 1)), Decode(f, WordAt(line, 2));
      if name.None? || v.None? { return None, next; }
      fields := fields[name.value := v.value];
      left, next := left - 1, next + 1;
    }
    return Some(fields), next;
  }

  /** Writes the tables one after the other. */
  method SaveState(f: Reals, order: set<Bytes> -> seq<Bytes>, tables: Tables) returns (out: File)
    requires Enumerates(order)
    ensures out == Save(f, order, tables)
  {
    hide TableLines;
    var names := order(tables.Keys);
    assert ListOf(names, tables.Keys);
    out := [HEADER];
    for i := 0 to |names|
      invariant out + AllTableLines(f, order, tables, names[i..]) == Save(f, order, tables)
    {
      assert names[i] in names && names[i..][0] == names[i] && names[i..][1..] == names[i + 1..];
      var lines := WriteTable(f, order, names[i], tables[names[i]]);
      out := out + lines;
    }
  }

  method WriteTable(f: Reals, order: set<Bytes> -> seq<Bytes>, name: Bytes, t: Table) returns (out: File)
    requires Enumerates(order)
    ensures out == TableLines(f, order, name, t)
  {
    hide Enumerates, TableLine, ColumnLine, RowLine, ValueLines;
    out := [TableLine(t, name)];
    for i := 0 to |t.columns|
      invariant out + ColumnLines(t.columns[i..]) == [TableLine(t, name)] + ColumnLines(t.columns)
    {
      assert t.columns[i..][1..] == t.columns[i + 1..];
      out := out + [ColumnLine(t.columns[i])];
    }
    assert out == [TableLine(t, name)] + ColumnLines(t.columns);
    ghost var front := out;
    for i := 0 to |t.rows|
      invariant out + RowLines(f, order, t.rows[i..]) == front + RowLines(f, order, t.rows)
    {
      assert t.rows[i..][0] == t.rows[i] && t.rows[i..][1..] == t.rows[i + 1..];
      var values := WriteRow(f, order, t.rows[i]);
      out := out + [RowLine(t.rows[i])] + values;
    }
    out := out + ["ENDTABLE"];
  }

  method WriteRow(f: Reals, order: set<Bytes> -> seq<Bytes>, row: Row) returns (out: File)
    requires Enumerates(order)
    ensures ListOf(order(row.Keys), row.Keys) && out == ValueLines(f, row, order(row.Keys))
  {
    hide ValueLine;
    var names := order(row.Keys);
    assert ListOf(names, row.Keys);
    out := [];
    for i := 0 to |names|
      invariant out + ValueLines(f, row, names[i..]) == ValueLines(f, row, names)
    {
      assert names[i] in names && names[i..][0] == names[i] && names[i..][1..] == names[i + 1..];
      out := out + [ValueLine(f, names[i], row[names[i]])];
    }
  }

  // ----- the session -----

  class Session {
    const world: World
    const tokens: seq<Token>
    var at: nat
    var path: Path
    var tables: Tables
    var dirty: bool
    var failed: bool
    var output: seq<string>

    ghost function Now(): Running
      reads this
    {
      Running(at, path, tables, dirty, failed, output)
    }

    ghost predicate Valid()
      reads this
    {
      At(tokens, at)
    }

    constructor (world: World, tokens: seq<Token>, path: Path)
      requires Script(tokens)
      ensures Valid() && this.world == world && this.tokens == tokens
      ensures Now() == Running(0, path, map[], false, false, [])
    {
      this.world, this.tokens := world, tokens;
      at, this.path, tables, dirty, failed, output := 0, path, map[], false, false, [];
    }

    function Peek(): Token
      reads this
      requires Valid()
    {
      tokens[at]
    }

    method Match(k: Kind) returns (found: bool)
      requires Valid() && !k.End?
      modifies this`at
      ensures Valid() && found == (old(Peek()).kind == k) && at == old(at) + if found then 1 else 0
    {
      found := Peek().kind == k;
      if found { at := at + 1; }
    }

    /** Reading went as it should: the value, or None and an error reported. */
    ghost predicate Did<T>(before: Running, r: Read<T>, result: Option<T>)
      reads this
    {
      Valid() && Now() == Went(before, r) && result == if r.Got? then Some(r.value) else None
    }

    method ReadOne() returns (v: Option<Value>)
      requires Valid()
      modifies this`at, this`failed
      ensures Did(old(Now()), ReadValue(world.f, tokens, old(at)), v)
    {
      var t := Peek();
      if t.kind.Str? {
        at := at + 1;
        return Some(Text(t.text));
      } else if t.kind.Num? {
        at := at + 1;
        v := ReadNumber(world.f, t.text);
        if v.None? { failed := true; }
      } else if IsKeyword(t, "true") {
        at := at + 1;
        return Some(Bool(true));
      } else if IsKeyword(t, "false") {
        at := at + 1;
        return Some(Bool(false));
      } else {
        failed := true;
        return None;
      }
    }

    method Object() returns (row: Option<Row>)
      requires Valid()
      modifies this`at, this`failed
      ensures Did(old(Now()), ReadObject(world.f, tokens, old(at)), row)
    {
      hide Script, ReadField;
      var open := Match(LBrace);
      if !open { failed := true; return None; }
      var r: Row := map[];
      if !Peek().kind.RBrace? {
        ghost var whole := ReadFields(world.f, tokens, at, r);
        while true
          invariant Valid() && old(at) < at && failed == old(failed) && whole == ReadFields(world.f, tokens, at, r)
          decreases |tokens| - at
        {
          var field := Field();
          if field.None? { return None; }
          r := r[field.value.0 := field.value.1];
          var comma := Match(Comma);
          if !comma { break; }
        }
        assert whole == if tokens[at].kind.RBrace? then Got(r, at + 1) else Bad(at);
      }
      var close := Match(RBrace);
      if !close { failed := true; return None; }
      return Some(r);
    }

    method Field() returns (field: Option<(Bytes, Value)>)
      requires Valid()
      modifies this`at, this`failed
      ensures Did(old(Now()), ReadField(world.f, tokens, old(at)), field)
    {
      hide ReadValue;
      if !Peek().kind.Id? { failed := true; return None; }
      var name := Peek().text;
      at := at + 1;
      var colon := Match(Colon);
      if !colon { failed := true; return None; }
      var v := ReadOne();
      if v.None? { return None; }
      return Some((name, v.value));
    }

    /** None for no condition, and for one that could not be read. */
    method WhereClause() returns (w: Option<Condition>)
      requires Valid()
      modifies this`at, this`failed
      ensures Valid() && Now() == Went(old(Now()), ReadWhere(world.f, tokens, old(at)))
      ensures var r := ReadWhere(world.f, tokens, old(at));
              w == if r.Got? && r.value.Where? then Some(r.value) else None
    {
      if !IsKeyword(Peek(), "where") { return None; }
      at := at + 1;
      if !Peek().kind.Id? { failed := true; return None; }
      var name := Peek().text;
      at := at + 1;
      var equal := Match(Equals);
      if !equal { failed := true; return None; }
      var v := ReadOne();
      if v.None? { return None; }
      return Some(Where(name, v.value));
    }

    /** The columns of a table declaration, up to its closing brace. */
    method Columns() returns (columns: Option<seq<Column>>)
      requires Valid()
      modifies this`at, this`failed
      ensures Did(old(Now()), ReadColumns(tokens, old(at), []), columns)
    {
      hide ReadDeclared, Script;
      var found: seq<Column> := [];
      while !Peek().kind.RBrace? && !Peek().kind.End?
        invariant Valid() && old(at) <= at && failed == old(failed)
        invariant ReadColumns(tokens, old(at), []) == ReadColumns(tokens, at, found)
        decreases |tokens| - at
      {
        var c := OneColumn(found);
        if c.None? { return None; }
        found := found + [c.value];
        var comma := Match(Comma);
        if !comma { var _ := Match(Semi); }
      }
      var close := Match(RBrace);
      if !close {
        EndIsNoColumn(tokens, at, found);
        failed := true;
        return None;
      }
      return Some(found);
    }

    static lemma EndIsNoColumn(ts: seq<Token>, i: nat, columns: seq<Column>)
      requires At(ts, i) && ts[i].kind.End?
      ensures ReadColumns(ts, i, columns) == Bad(i)
    {
    }

    method OneColumn(found: seq<Column>) returns (c: Option<Column>)
      requires Valid()
      modifies this`at, this`failed
      ensures Did(old(Now()), ReadDeclared(tokens, old(at), found), c)
    {
      hide ParseType, ReadFlags;
      if !Peek().kind.Id? { failed := true; return None; }
      var name := Peek().text;
      at := at + 1;
      var colon := Match(Colon);
      if !colon || !Peek().kind.Id? { failed := true; return None; }
      var kind := ParseType(Peek().text);
      at := at + 1;
      if kind.None? { failed := true; return None; }
      var column := Flags(Column(name, kind.value, false, false, false));
      var known := Has(found, column.name);
      if known { failed := true; return None; }
      return Some(column);
    }

    method Flags(c0: Column) returns (c: Column)
      requires Valid()
      modifies this`at
      ensures Valid() && old(at) <= at && (c, at) == ReadFlags(tokens, old(at), c0)
    {
      c := c0;
      while Peek().kind.Id?
        invariant Valid() && old(at) <= at
        invariant ReadFlags(tokens, old(at), c0) == ReadFlags(tokens, at, c)
        decreases |tokens| - at
      {
        hide Lower;
        var flag := Lower(Peek().text);
        if flag == "required" {
          c := c.(required := true);
        } else if flag == "unique" {
          c := c.(unique := true);
        } else if flag == "key" {
          c := c.(key := true, unique := true, required := true);
        } else {
          break;
        }
        at := at + 1;
      }
    }

    static method Has(columns: seq<Column>, name: Bytes) returns (found: bool)
      ensures found == HasColumn(columns, name)
    {
      for k := 0 to |columns|
        invariant forall j :: 0 <= j < k ==> columns[j].name != name
      {
        if columns[k].name == name { return true; }
      }
      return false;
    }

    /** Checks a row that is about to be stored, at index `skip` or at the end. */
    method Validate(t: Table, row: Row, skip: Option<nat>) returns (ok: bool)
      modifies this`failed
      ensures ok == Validates(world.f, t, row, skip) && failed == (old(failed) || !ok)
    {
      hide ColumnAllows, FindColumn, Compatible;
      var known := CheckFields(t, row);
      if !known { failed := true; return false; }
      for k := 0 to |t.columns|
        invariant failed == old(failed)
        invariant forall j :: 0 <= j < k ==> ColumnAllows(world.f, t, row, skip, t.columns[j])
      {
        var c := t.columns[k];
        var allowed := CheckColumn(t, row, skip, c);
        if !allowed {
          assert c in t.columns;
          failed := true;
          return false;
        }
      }
      return true;
    }

    /** Every field is a declared column's, and of its type. */
    static method CheckFields(t: Table, row: Row) returns (ok: bool)
      ensures ok == forall name <- row.Keys ::
        FindColumn(t.columns, name).Some? && Compatible(FindColumn(t.columns, name).value.kind, row[name])
    {
      hide Compatible;
      var names := row.Keys;
      while names != {}
        invariant names <= row.Keys
        invariant forall name <- row.Keys :: name !in names ==>
          FindColumn(t.columns, name).Some? && Compatible(FindColumn(t.columns, name).value.kind, row[name])
        decreases |names|
      {
        var name :| name in names;
        var c := FindColumn(t.columns, name);
        if c.None? || !Compatible(c.value.kind, row[name]) { return false; }
        names := names - {name};
      }
      return true;
    }

    method CheckColumn(t: Table, row: Row, skip: Option<nat>, c: Column) returns (ok: bool)
      ensures ok == ColumnAllows(world.f, t, row, skip, c)
    {
      if c.required && c.name !in row { return false; }
      if IsConstrained(c) && c.name in row {
        for n := 0 to |t.rows|
          invariant forall m :: 0 <= m < n && skip != Some(m) && c.name in t.rows[m] ==>
            !SameValue(world.f, t.rows[m][c.name], row[c.name])
        {
          if skip == Some(n) { continue; }
          if c.name in t.rows[n] && SameValue(world.f, t.rows[n][c.name], row[c.name]) { return false; }
        }
      }
      return true;
    }

    /** What the statement at the cursor should have done; None for failure. */
    ghost predicate Ran(r: Option<Running>, ok: bool)
      reads this
    {
      if ok then Valid() && r == Some(Now()) else r.None?
    }

    method Database() returns (ok: bool)
      requires Valid() && Peek().kind.Id?
      modifies this
      ensures Ran(DoDatabase(world, tokens, old(Now())), ok)
    {
      hide Load;
      at := at + 1;
      if !Peek().kind.Str? { return false; }
      var requested := world.resolve(Peek().text);
      at := at + 1;
      if path != requested && path in world.disk && |tables| != 0 { return false; }
      path, tables := requested, map[];
      if requested in world.disk {
        var loaded := LoadState(world.f, world.disk[requested]);
        if loaded.None? { return false; }
        tables := loaded.value;
      }
      return true;
    }

    method DeclareTable() returns (ok: bool)
      requires Valid() && Peek().kind.Id?
      modifies this
      ensures Ran(DoTable(world, tokens, old(Now())), ok)
    {
      hide ReadColumns, Script;
      TwoMore(tokens, at);
      at := at + 1;
      if !Peek().kind.Id? { return false; }
      var name := Peek().text;
      at := at + 1;
      var open := Match(LBrace);
      if !open { return false; }
      var columns := Columns();
      if columns.None? { return false; }
      if name !in tables {
        tables := tables[name := Table(name, columns.value, [])];
        dirty := true;
      } else if |tables[name].columns| != |columns.value| {
        return false;
      }
      return true;
    }

    /** Behind a token that does not end the script there is another one. */
    static lemma TwoMore(ts: seq<Token>, i: nat)
      requires At(ts, i) && !ts[i].kind.End?
      ensures i + 1 < |ts| && (!ts[i + 1].kind.End? ==> i + 2 < |ts|)
    {
    }

    /** Takes the keyword and the name of a table that exists. */
    method TableName() returns (name: Option<Bytes>)
      requires Valid() && Peek().kind.Id?
      modifies this`at
      ensures name == Named(tokens, old(Now()))
      ensures name.Some? ==> Valid() && at == old(at) + 2 && name.value in tables
    {
      at := at + 1;
      if !Peek().kind.Id? { return None; }
      var n := Peek().text;
      at := at + 1;
      return if n in tables then Some(n) else None;
    }

    method Insert() returns (ok: bool)
      requires Valid() && Peek().kind.Id?
      modifies this
      ensures Ran(DoInsert(world, tokens, old(Now())), ok)
    {
      hide Script, ReadObject, Validates, Named;
      var name := TableName();
      if name.None? { return false; }
      var row := Object();
      if row.None? { return false; }
      var t := tables[name.value];
      var valid := Validate(t, row.value, None);
      if !valid { return false; }
      tables := tables[name.value := t.(rows := t.rows + [row.value])];
      dirty := true;
      return true;
    }

    method Select() returns (ok: bool)
      requires Valid() && Peek().kind.Id?
      modifies this
      ensures Ran(DoSelect(world, tokens, old(Now())), ok)
    {
      hide Script, ReadWhere, Named, IsKeyword, Heading, Answer;
      var name := TableName();
      if name.None? { return false; }
      var t := tables[name.value];
      ghost var c := ReadWhere(world.f, tokens, at);
      var w := WhereClause();
      WhereIsRead(world.f, tokens, old(at) + 2);
      if IsKeyword(Peek(), "where") && w.None? { return false; }
      var heading := WriteHeading(t.columns);
      var answer := WriteAnswer(t, if w.Some? then w.value else Every);
      output := output + [heading];
      output := output + answer;
      return true;
    }

    /** Without a condition the cursor is not at another `where`. */
    static lemma WhereIsRead(f: Reals, ts: seq<Token>, i: nat)
      requires At(ts, i)
      ensures var c := ReadWhere(f, ts, i);
              && (c.Got? && c.value.Every? ==> !IsKeyword(ts[c.next], "where"))
              && (c.Bad? ==> ConditionOf(c) == Every)
    {
      hide ReadValue;
    }

    static method WriteHeading(columns: seq<Column>) returns (line: string)
      ensures line == Heading(columns)
    {
      line := "";
      for c := 0 to |columns|
        invariant line == Heading(columns[..c])
      {
        assert columns[..c + 1][..c] == columns[..c];
        if c > 0 { line := line + "\t"; }
        line := line + columns[c].name;
      }
      assert columns[..|columns|] == columns;
    }

    method WriteCells(row: Row, columns: seq<Column>) returns (line: string)
      ensures line == Cells(world.f, row, columns)
    {
      line := "";
      for c := 0 to |columns|
        invariant line == Cells(world.f, row, columns[..c])
      {
        assert columns[..c + 1][..c] == columns[..c];
        if c > 0 { line := line + "\t"; }
        if columns[c].name in row { line := line + ValueText(world.f, row[columns[c].name]); }
      }
      assert columns[..|columns|] == columns;
    }

    method WriteAnswer(t: Table, w: Condition) returns (lines: seq<string>)
      ensures lines == Answer(world.f, t.rows, t.columns, w)
    {
      hide Cells, Matches;
      lines := [];
      for r := 0 to |t.rows|
        invariant lines == Answer(world.f, t.rows[..r], t.columns, w)
      {
        assert t.rows[..r + 1][..r] == t.rows[..r];
        if Matches(world.f, t.rows[r], w) {
          var line := WriteCells(t.rows[r], t.columns);
          lines := lines + [line];
        }
      }
      assert t.rows[..|t.rows|] == t.rows;
    }

    method Delete() returns (ok: bool)
      requires Valid() && Peek().kind.Id?
      modifies this
      ensures Ran(DoDelete(world, tokens, old(Now())), ok)
    {
      hide Script, ReadWhere, Named, Kept, Matches;
      var name := TableName();
      if name.None? { return false; }
      var t := tables[name.value];
      ghost var c := ReadWhere(world.f, tokens, at);
      var found := WhereClause();
      WhereIsRead(world.f, tokens, old(at) + 2);
      var w := if found.Some? then found.value else Every;
      var kept := Remove(t.rows, w);
      tables := tables[name.value := t.(rows := kept)];
      dirty := dirty || |kept| != |t.rows|;
      return true;
    }

    method Remove(rows: seq<Row>, w: Condition) returns (kept: seq<Row>)
      ensures kept == Kept(world.f, rows, w)
    {
      hide Matches;
      kept := [];
      for r := 0 to |rows|
        invariant kept == Kept(world.f, rows[..r], w)
      {
        assert rows[..r + 1][..r] == rows[..r];
        if !Matches(world.f, rows[r], w) { kept := kept + [rows[r]]; }
      }
      assert rows[..|rows|] == rows;
    }

    method Update() returns (ok: bool)
      requires Valid() && Peek().kind.Id?
      modifies this
      ensures Ran(DoUpdate(world, tokens, old(Now())), ok)
    {
      hide Script, ReadWhere, ReadObject, Named, Patched, AnyMatches, Lower;
      var name := TableName();
      if name.None? { return false; }
      if !IsKeyword(Peek(), "set") { return false; }
      SetIsNotLast(tokens, at);
      at := at + 1;
      var patch := Object();
      if patch.None? { return false; }
      WhereIsRead(world.f, tokens, at);
      var found := WhereClause();
      var w := if found.Some? then found.value else Every;
      ok := Patch(name.value, patch.value, w);
    }

    static lemma SetIsNotLast(ts: seq<Token>, i: nat)
      requires At(ts, i) && ts[i].kind.Id?
      ensures i + 1 < |ts|
    {
    }

    /** Patches the matching rows one after the other; stops at the first that is not allowed. */
    method Patch(name: Bytes, patch: Row, w: Condition) returns (ok: bool)
      requires name in tables && Valid()
      modifies this`tables, this`dirty, this`failed
      ensures var r := Patched(world.f, old(tables[name]), patch, w, 0);
              && ok == r.Some?
              && (ok ==> tables == old(tables)[name := r.value] && failed == old(failed)
                         && dirty == (old(dirty) || AnyMatches(world.f, old(tables[name]).rows, w)))
    {
      hide Matches, Validates;
      ghost var start := tables[name];
      var i := 0;
      while i < |tables[name].rows|
        invariant name in tables && i <= |tables[name].rows| == |start.rows| && failed == old(failed)
        invariant tables == old(tables)[name := tables[name]]
        invariant forall k :: i <= k < |start.rows| ==> tables[name].rows[k] == start.rows[k]
        invariant Patched(world.f, start, patch, w, 0) == Patched(world.f, tables[name], patch, w, i)
        invariant dirty <==> old(dirty) || exists k :: 0 <= k < i && Matches(world.f, start.rows[k], w)
        decreases |tables[name].rows| - i
      {
        var t := tables[name];
        if Matches(world.f, t.rows[i], w) {
          var candidate := t.rows[i] + patch;
          var valid := Validate(t, candidate, Some(i));
          if !valid { return false; }
          tables := tables[name := t.(rows := t.rows[i := candidate])];
          dirty := true;
        }
        i := i + 1;
      }
      return true;
    }

    method Statement() returns (ok: bool)
      requires Valid()
      modifies this
      ensures Ran(DoStatement(world, tokens, old(Now())), ok)
    {
      hide DoDatabase, DoTable, DoInsert, DoSelect, DoDelete, DoUpdate, Lower;
      var t := Peek();
      if IsKeyword(t, "database") {
        ok := Database();
      } else if IsKeyword(t, "table") {
        ok := DeclareTable();
      } else if IsKeyword(t, "insert") {
        ok := Insert();
      } else if IsKeyword(t, "select") {
        ok := Select();
      } else if IsKeyword(t, "delete") {
        ok := Delete();
      } else if IsKeyword(t, "update") {
        ok := Update();
      } else {
        ok := false;
      }
    }

    method Run() returns (ok: bool)
      requires Valid()
      modifies this
      ensures Ran(DoAll(world, tokens, old(Now())), ok)
    {
      hide DoStatement, Script;
      ghost var whole := DoAll(world, tokens, Now());
      while !Peek().kind.End?
        invariant Valid() && whole == DoAll(world, tokens, Now())
        decreases |tokens| - at
      {
        ghost var before := Now();
        ok := Statement();
        if !ok { return; }
        SemiIsNotLast(tokens, at);
        var _ := Match(Semi);
        assert Now() == PastSemi(tokens, DoStatement(world, tokens, before).value);
      }
      return true;
    }

    static lemma SemiIsNotLast(ts: seq<Token>, i: nat)
      requires At(ts, i)
      ensures ts[i].kind.Semi? ==> i + 1 < |ts|
    {
    }
  }

  /** A script against the files: its outcome and the files after it. */
  method ExecuteScript(world: World, order: set<Bytes> -> seq<Bytes>, tokens: seq<Token>, path: Path) returns (r: Ended)
    requires Script(tokens) && Enumerates(order)
    ensures r == Execute(world, order, tokens, path)
  {
    hide DoAll, Load, Save, Script, Enumerates;
    var session := new Session(world, tokens, path);
    if path in world.disk {
      var loaded := LoadState(world.f, world.disk[path]);
      if loaded.None? { return Ended(false, world.disk); }
      session.tables := loaded.value;
    }
    var ok := session.Run();
    if !ok || session.failed { return Ended(false, world.disk); }
    if session.dirty {
      var file := SaveState(world.f, order, session.tables);
      return Ended(true, world.disk[session.path := file]);
    }
    return Ended(true, world.disk);
  }
}
