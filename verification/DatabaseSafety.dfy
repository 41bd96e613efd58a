/**
 Safety of NoqeriDB over whole histories: every stored table satisfies its schema and its uniqueness constraints, and
 a failing script leaves the files as they were.
 */
module DatabaseSafety {
  import opened Basics
  import opened Hexadecimal
  import opened Database
  import F = DatabaseFile
  import opened DatabaseLexer
  import opened DatabaseScript
  import opened DatabaseSession

  // ----- rows -----

  ghost predicate GoodRows(f: Reals, columns: seq<Column>, rows: seq<Row>) {
    && (forall k :: 0 <= k < |rows| ==> RowFits(columns, rows[k]))
    && forall i, j :: 0 <= i < |rows| && 0 <= j < |rows| && i != j ==> !Clash(f, columns, rows[i], rows[j])
  }

  ghost predicate GoodColumns(columns: seq<Column>) {
    DistinctNames(columns) && forall k :: 0 <= k < |columns| ==> columns[k].name != "" && (columns[k].key ==> columns[k].unique && columns[k].required)
  }

  lemma GoodParts(f: Reals, t: Table)
    ensures GoodTable(f, t) <==> GoodColumns(t.columns) && GoodRows(f, t.columns, t.rows)
  {
    hide RowFits, Clash;
    if GoodColumns(t.columns) && GoodRows(f, t.columns, t.rows) {
      forall c | c in t.columns ensures c.name != "" && (c.key ==> c.unique && c.required) {
        var k :| 0 <= k < |t.columns| && t.columns[k] == c;
      }
      forall row | row in t.rows ensures RowFits(t.columns, row) {
        var k :| 0 <= k < |t.rows| && t.rows[k] == row;
      }
    }
    if GoodTable(f, t) {
      forall k | 0 <= k < |t.columns| ensures t.columns[k].name != "" && (t.columns[k].key ==> t.columns[k].unique && t.columns[k].required) {
        assert t.columns[k] in t.columns;
      }
      forall k | 0 <= k < |t.rows| ensures RowFits(t.columns, t.rows[k]) { assert t.rows[k] in t.rows; }
    }
  }

  lemma SameSymmetric(f: Reals, a: Value, b: Value)
    requires Faithful(f)
    ensures SameValue(f, a, b) == SameValue(f, b, a)
  {
  }

  /** A validated row clashes with no row but the one it replaces. */
  lemma ValidatedFits(f: Reals, t: Table, row: Row, skip: Option<nat>, n: nat)
    requires Faithful(f) && Validates(f, t, row, skip) && n < |t.rows| && skip != Some(n)
    ensures RowFits(t.columns, row)
    ensures !Clash(f, t.columns, t.rows[n], row) && !Clash(f, t.columns, row, t.rows[n])
  {
    forall c | c in t.columns ensures !ClashIn(f, c, t.rows[n], row) && !ClashIn(f, c, row, t.rows[n]) {
      assert ColumnAllows(f, t, row, skip, c);
      if c.name in row && c.name in t.rows[n] { SameSymmetric(f, t.rows[n][c.name], row[c.name]); }
    }
  }

  lemma ValidatedRowFits(f: Reals, t: Table, row: Row, skip: Option<nat>)
    requires Validates(f, t, row, skip)
    ensures RowFits(t.columns, row)
  {
    forall c | c in t.columns ensures c.required ==> c.name in row { assert ColumnAllows(f, t, row, skip, c); }
  }

  lemma AppendedGood(f: Reals, t: Table, row: Row)
    requires Faithful(f) && GoodTable(f, t) && Validates(f, t, row, None)
    ensures GoodTable(f, t.(rows := t.rows + [row]))
  {
    hide GoodTable, Validates, RowFits, Clash;
    GoodParts(f, t);
    ValidatedRowFits(f, t, row, None);
    forall n | 0 <= n < |t.rows|
      ensures !Clash(f, t.columns, t.rows[n], row) && !Clash(f, t.columns, row, t.rows[n]) { ValidatedFits(f, t, row, None, n); }
    GoodParts(f, t.(rows := t.rows + [row]));
  }

  lemma ReplacedGood(f: Reals, t: Table, row: Row, i: nat)
    requires Faithful(f) && GoodTable(f, t) && i < |t.rows| && Validates(f, t, row, Some(i))
    ensures GoodTable(f, t.(rows := t.rows[i := row]))
  {
    hide GoodTable, Validates, RowFits, Clash;
    GoodParts(f, t);
    ValidatedRowFits(f, t, row, Some(i));
    forall n | 0 <= n < |t.rows| && n != i
      ensures !Clash(f, t.columns, t.rows[n], row) && !Clash(f, t.columns, row, t.rows[n]) { ValidatedFits(f, t, row, Some(i), n); }
    GoodParts(f, t.(rows := t.rows[i := row]));
  }

  lemma {:induction false} PatchedGood(f: Reals, t: Table, patch: Row, w: Condition, i: nat)
    requires Faithful(f) && GoodTable(f, t)
    ensures var r := Patched(f, t, patch, w, i); r.Some? ==> GoodTable(f, r.value) && r.value.name == t.name && r.value.columns == t.columns
    decreases |t.rows| - i
  {
    hide GoodTable, Validates, Matches;
    if i < |t.rows| {
      if !Matches(f, t.rows[i], w) {
        PatchedGood(f, t, patch, w, i + 1);
      } else if Validates(f, t, t.rows[i] + patch, Some(i)) {
        ReplacedGood(f, t, t.rows[i] + patch, i);
        PatchedGood(f, t.(rows := t.rows[i := t.rows[i] + patch]), patch, w, i + 1);
      }
    }
  }

  /** A successful update patches every matching row, and only those. */
  lemma {:induction false} PatchedPointwise(f: Reals, t: Table, patch: Row, w: Condition, i: nat)
    requires Patched(f, t, patch, w, i).Some?
    ensures var rows := Patched(f, t, patch, w, i).value.rows;
            && |rows| == |t.rows|
            && forall k :: 0 <= k < |rows| ==> rows[k] == if k >= i && Matches(f, t.rows[k], w) then t.rows[k] + patch else t.rows[k]
    decreases |t.rows| - i
  {
    hide Validates, Matches;
    if i < |t.rows| {
      var next := if Matches(f, t.rows[i], w) then t.(rows := t.rows[i := t.rows[i] + patch]) else t;
      PatchedPointwise(f, next, patch, w, i + 1);
    }
  }

  lemma {:induction false} KeptFrom(f: Reals, rows: seq<Row>, w: Condition, i: nat) returns (k: nat)
    requires i < |Kept(f, rows, w)|
    ensures k < |rows| && rows[k] == Kept(f, rows, w)[i] && !Matches(f, rows[k], w)
  {
    hide Matches;
    var n := |rows| - 1;
    if !Matches(f, rows[n], w) && i == |Kept(f, rows[..n], w)| {
      k := n;
    } else {
      k := KeptFrom(f, rows[..n], w, i);
    }
  }

  lemma {:induction false} KeptGood(f: Reals, columns: seq<Column>, rows: seq<Row>, w: Condition)
    requires GoodRows(f, columns, rows)
    ensures GoodRows(f, columns, Kept(f, rows, w)) && |Kept(f, rows, w)| <= |rows|
  {
    hide Matches, RowFits, Clash;
    if rows != [] {
      var n := |rows| - 1;
      KeptGood(f, columns, rows[..n], w);
      var rest := Kept(f, rows[..n], w);
      forall i | 0 <= i < |rest| ensures !Clash(f, columns, rest[i], rows[n]) && !Clash(f, columns, rows[n], rest[i]) {
        var k := KeptFrom(f, rows[..n], w, i);
        assert rows[..n][k] == rows[k];
      }
    }
  }

  /** Deleting keeps exactly the rows that do not match, in their order. */
  lemma {:induction false} KeptExactly(f: Reals, rows: seq<Row>, w: Condition)
    ensures forall row :: row in Kept(f, rows, w) <==> row in rows && !Matches(f, row, w)
    ensures multiset(Kept(f, rows, w)) <= multiset(rows)
  {
    hide Matches;
    if rows != [] {
      var n := |rows| - 1;
      KeptExactly(f, rows[..n], w);
      assert rows == rows[..n] + [rows[n]];
    }
  }

  // ----- columns -----

  lemma {:induction false} FlagsGood(ts: seq<Token>, i: nat, c: Column)
    requires At(ts, i) && (c.key ==> c.unique && c.required)
    ensures var d := ReadFlags(ts, i, c).0; (d.key ==> d.unique && d.required) && d.name == c.name
    decreases |ts| - i
  {
    hide Lower;
    if IsKeyword(ts[i], "required") {
      FlagsGood(ts, i + 1, c.(required := true));
    } else if IsKeyword(ts[i], "unique") {
      FlagsGood(ts, i + 1, c.(unique := true));
    } else if IsKeyword(ts[i], "key") {
      FlagsGood(ts, i + 1, c.(key := true, unique := true, required := true));
    }
  }

  lemma ColumnGood(ts: seq<Token>, i: nat, columns: seq<Column>)
    requires At(ts, i) && GoodColumns(columns)
    ensures var r := ReadDeclared(ts, i, columns); r.Got? ==> GoodColumns(columns + [r.value])
  {
    hide ReadFlags, ParseType;
    if ts[i].kind.Id? && ts[i + 1].kind.Colon? && ts[i + 2].kind.Id? && ParseType(ts[i + 2].text).Some? {
      FlagsGood(ts, i + 3, Column(ts[i].text, ParseType(ts[i + 2].text).value, false, false, false));
    }
  }

  lemma {:induction false} ColumnsGood(ts: seq<Token>, i: nat, columns: seq<Column>)
    requires At(ts, i) && GoodColumns(columns)
    ensures var r := ReadColumns(ts, i, columns); r.Got? ==> GoodColumns(r.value)
    decreases |ts| - i
  {
    hide ReadDeclared, GoodColumns;
    if !ts[i].kind.RBrace? {
      ColumnGood(ts, i, columns);
      var r := ReadDeclared(ts, i, columns);
      if r.Got? {
        ColumnsGood(ts, if ts[r.next].kind.Comma? || ts[r.next].kind.Semi? then r.next + 1 else r.next, columns + [r.value]);
      }
    }
  }

  // ----- files -----

  /** Every file was written by a successful script. */
  ghost predicate GoodDisk(f: Reals, order: set<Bytes> -> seq<Bytes>, disk: map<Path, File>)
    requires Enumerates(order)
  {
    forall path <- disk.Keys :: GoodFile(f, order, disk[path])
  }

  ghost predicate GoodFile(f: Reals, order: set<Bytes> -> seq<Bytes>, file: File)
    requires Enumerates(order)
  {
    exists tables :: GoodTables(f, tables) && file == Save(f, order, tables)
  }

  lemma GoodIsNamed(f: Reals, tables: Tables)
    requires GoodTables(f, tables)
    ensures F.Named(tables) && F.WellKeyed(tables)
  {
    forall name | name in tables.Keys ensures F.NamedTable(tables[name]) {
      var t := tables[name];
      assert GoodTable(f, t);
      forall row | row in t.rows ensures F.NamedRow(row) {
        assert !HasColumn(t.columns, "");
      }
    }
  }

  /** What such a file holds is what was saved. */
  lemma GoodFileLoads(f: Reals, order: set<Bytes> -> seq<Bytes>, file: File)
    requires Faithful(f) && Enumerates(order) && GoodFile(f, order, file)
    ensures Load(f, file).Some? && GoodTables(f, Load(f, file).value) && file == Save(f, order, Load(f, file).value)
  {
    hide Load, Save, GoodTables;
    var tables :| GoodTables(f, tables) && file == Save(f, order, tables);
    GoodIsNamed(f, tables);
    F.SavedReadsBackIff(f, order, tables);
  }

  // ----- statements -----

  ghost predicate Sound(w: World, order: set<Bytes> -> seq<Bytes>) {
    Faithful(w.f) && Enumerates(order) && GoodDisk(w.f, order, w.disk)
  }

  lemma LoadedGood(w: World, order: set<Bytes> -> seq<Bytes>, path: Path)
    requires Sound(w, order) && path in w.disk
    ensures Load(w.f, w.disk[path]).Some? && GoodTables(w.f, Load(w.f, w.disk[path]).value)
  {
    hide GoodFile, Load, Save, GoodTables;
    GoodFileLoads(w.f, order, w.disk[path]);
  }

  lemma StoredGood(f: Reals, tables: Tables, name: Bytes, t: Table)
    requires GoodTables(f, tables) && name != "" && t.name == name && GoodTable(f, t)
    ensures GoodTables(f, tables[name := t])
  {
    hide GoodTable;
  }

  lemma StatementGood(w: World, order: set<Bytes> -> seq<Bytes>, ts: seq<Token>, s: Running)
    requires Sound(w, order) && Ready(ts, s) && GoodTables(w.f, s.tables)
    ensures var r := DoStatement(w, ts, s); r.Some? ==> GoodTables(w.f, r.value.tables)
  {
    hide GoodTable, GoodDisk, Faithful, Load, ReadWhere, ReadObject, ReadColumns, Patched, Kept, Validates, Answer, Heading,
         IsKeyword, AnyMatches, DoTable, DoDatabase;
    var t := ts[s.at];
    var keyword := t.kind.Id?;
    if keyword {
      DatabaseGood(w, order, ts, s);
      TableGood(w, ts, s);
      var name := Named(ts, s);
      if name.Some? { ChangesGood(w, ts, s, name.value); }
    }
    KeywordsAreIds(t);
  }

  lemma KeywordsAreIds(t: Token)
    ensures forall word :: IsKeyword(t, word) ==> t.kind.Id?
  {
  }

  lemma DatabaseGood(w: World, order: set<Bytes> -> seq<Bytes>, ts: seq<Token>, s: Running)
    requires Sound(w, order) && Ready(ts, s) && GoodTables(w.f, s.tables) && ts[s.at].kind.Id?
    ensures var r := DoDatabase(w, ts, s); r.Some? ==> GoodTables(w.f, r.value.tables)
  {
    hide GoodTables, Sound, Load;
    if ts[s.at + 1].kind.Str? {
      var requested := w.resolve(ts[s.at + 1].text);
      if requested in w.disk { LoadedGood(w, order, requested); } else { NoTables(w.f); }
    }
  }

  lemma TableGood(w: World, ts: seq<Token>, s: Running)
    requires Ready(ts, s) && GoodTables(w.f, s.tables) && ts[s.at].kind.Id?
    ensures var r := DoTable(w, ts, s); r.Some? ==> GoodTables(w.f, r.value.tables)
  {
    hide GoodTable, ReadColumns;
    var r := DoTable(w, ts, s);
    if r.Some? {
      var name := ts[s.at + 1].text;
      ColumnsGood(ts, s.at + 3, []);
      var columns := ReadColumns(ts, s.at + 3, []).value;
      EmptyTableGood(w.f, name, columns);
      StoredGood(w.f, s.tables, name, Table(name, columns, []));
    }
  }

  lemma EmptyTableGood(f: Reals, name: Bytes, columns: seq<Column>)
    requires GoodColumns(columns)
    ensures GoodTable(f, Table(name, columns, []))
  {
    GoodParts(f, Table(name, columns, []));
  }

  lemma ChangesGood(w: World, ts: seq<Token>, s: Running, name: Bytes)
    requires Faithful(w.f) && Ready(ts, s) && GoodTables(w.f, s.tables) && ts[s.at].kind.Id?
    requires Named(ts, s) == Some(name)
    ensures var r := DoInsert(w, ts, s); r.Some? ==> GoodTables(w.f, r.value.tables)
    ensures var r := DoDelete(w, ts, s); r.Some? ==> GoodTables(w.f, r.value.tables)
    ensures var r := DoUpdate(w, ts, s); r.Some? ==> GoodTables(w.f, r.value.tables)
  {
    hide GoodTable, Faithful, ReadWhere, ReadObject, Patched, Kept, Validates, Lower, AnyMatches, GoodRows, GoodColumns;
    var t := s.tables[name];
    var inserted := ReadObject(w.f, ts, s.at + 2);
    if inserted.Got? && Validates(w.f, t, inserted.value, None) {
      AppendedGood(w.f, t, inserted.value);
      StoredGood(w.f, s.tables, name, t.(rows := t.rows + [inserted.value]));
    }
    var c := ReadWhere(w.f, ts, s.at + 2);
    var rows := Kept(w.f, t.rows, ConditionOf(c));
    GoodParts(w.f, t);
    KeptGood(w.f, t.columns, t.rows, ConditionOf(c));
    GoodParts(w.f, t.(rows := rows));
    StoredGood(w.f, s.tables, name, t.(rows := rows));
    if IsKeyword(ts[s.at + 2], "set") {
      var patch := ReadObject(w.f, ts, s.at + 3);
      if patch.Got? {
        var d := ConditionOf(ReadWhere(w.f, ts, patch.next));
        PatchedGood(w.f, t, patch.value, d, 0);
        var q := Patched(w.f, t, patch.value, d, 0);
        if q.Some? { StoredGood(w.f, s.tables, name, q.value); }
      }
    }
  }

  lemma {:induction false} AllGood(w: World, order: set<Bytes> -> seq<Bytes>, ts: seq<Token>, s: Running)
    requires Sound(w, order) && Ready(ts, s) && GoodTables(w.f, s.tables)
    ensures var r := DoAll(w, ts, s); r.Some? ==> GoodTables(w.f, r.value.tables)
    decreases |ts| - s.at
  {
    hide Sound, GoodTables, DoStatement, Script;
    if !ts[s.at].kind.End? {
      var r := DoStatement(w, ts, s);
      if r.Some? {
        StatementGood(w, order, ts, s);
        StillReady(w, ts, s);
        AllGood(w, order, ts, PastSemi(ts, r.value));
      }
    }
  }

  lemma StillReady(w: World, ts: seq<Token>, s: Running)
    requires Ready(ts, s)
    ensures var r := DoStatement(w, ts, s); r.Some? ==> s.at < r.value.at && Ready(ts, r.value) && Ready(ts, PastSemi(ts, r.value))
  {
    hide DoStatement;
  }

  // ----- histories -----

  /** A script keeps every file good; one that fails changes none. */
  lemma ScriptIsSafe(w: World, order: set<Bytes> -> seq<Bytes>, ts: seq<Token>, path: Path)
    requires Sound(w, order) && Script(ts)
    ensures var r := Execute(w, order, ts, path);
            GoodDisk(w.f, order, r.disk) && (!r.ok ==> r.disk == w.disk)
  {
    hide GoodTables, DoAll, Load, Save, Faithful;
    var start := if path in w.disk then Load(w.f, w.disk[path]) else Some(map[]);
    if start.Some? {
      assert GoodTables(w.f, start.value) by {
        if path in w.disk { LoadedGood(w, order, path); } else { NoTables(w.f); }
      }
      var s := Running(0, path, start.value, false, false, []);
      AllGood(w, order, ts, s);
    }
  }

  lemma NoTables(f: Reals)
    ensures GoodTables(f, map[])
  {
  }

  /** A script with the file it is run against and the paths it may name. */
  datatype Job = Job(tokens: seq<Token>, path: Path, resolve: Bytes -> Path)

  ghost predicate Runnable(job: Job) {
    Script(job.tokens)
  }

  /** The files after a sequence of scripts, starting from none. */
  function Replay(f: Reals, order: set<Bytes> -> seq<Bytes>, jobs: seq<Job>): map<Path, File>
    requires Enumerates(order) && forall job <- jobs :: Runnable(job)
  {
    if jobs == [] then map[]
    else
      var n := |jobs| - 1;
      assert jobs[n] in jobs && Runnable(jobs[n]);
      Execute(World(f, Replay(f, order, jobs[..n]), jobs[n].resolve), order, jobs[n].tokens, jobs[n].path).disk
  }

  /** Whatever scripts were run, in whatever order, every file there is holds only good tables. */
  lemma {:induction false} HistoryIsSafe(f: Reals, order: set<Bytes> -> seq<Bytes>, jobs: seq<Job>)
    requires Faithful(f) && Enumerates(order) && forall job <- jobs :: Runnable(job)
    ensures var disk := Replay(f, order, jobs);
            forall path <- disk.Keys :: Load(f, disk[path]).Some? && GoodTables(f, Load(f, disk[path]).value)
    ensures GoodDisk(f, order, Replay(f, order, jobs))
  {
    hide GoodTables, Load, Save, Faithful, Execute, GoodFile, Enumerates;
    if jobs != [] {
      var n := |jobs| - 1;
      assert jobs[n] in jobs;
      HistoryIsSafe(f, order, jobs[..n]);
      ScriptIsSafe(World(f, Replay(f, order, jobs[..n]), jobs[n].resolve), order, jobs[n].tokens, jobs[n].path);
    }
    var disk := Replay(f, order, jobs);
    forall path | path in disk.Keys ensures Load(f, disk[path]).Some? && GoodTables(f, Load(f, disk[path]).value) {
      GoodFileLoads(f, order, disk[path]);
    }
  }

  /** Running a script's text: a text that does not lex fails like a script that does. */
  method RunText(w: World, order: set<Bytes> -> seq<Bytes>, source: Bytes, path: Path) returns (r: Ended)
    requires Sound(w, order)
    ensures Script(LexScript(source).tokens)
    ensures r == if LexScript(source).ok then Execute(w, order, LexScript(source).tokens, path) else Ended(false, w.disk)
    ensures GoodDisk(w.f, order, r.disk)
    ensures !r.ok ==> r.disk == w.disk
  {
    LexedIsWritable(source, 0);
    hide Execute, Script, GoodDisk, Faithful, LexFrom;
    var lexer := new ScriptLexer(source);
    var tokens := lexer.Run();
    if lexer.failed { return Ended(false, w.disk); }
    ScriptIsSafe(w, order, tokens, path);
    r := ExecuteScript(w, order, tokens, path);
  }
}
