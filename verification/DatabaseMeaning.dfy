/**
 What database statements mean, on tables alone: rows are added, kept and patched by what they hold.  Each part of
 executing a statement does what its meaning says.
 */
module DatabaseMeaning {
  import opened Basics
  import opened DatabaseText
  import opened Hexadecimal
  import opened Database
  import opened DatabaseScript
  import opened DatabaseSafety
  import opened DatabaseHistory

  type Fields = seq<(Bytes, Value)>

  datatype Statement =
    | Use(path: Bytes)
    | Create(name: Bytes, columns: seq<Column>)
    | Add(name: Bytes, fields: Fields)
    | Show(name: Bytes, w: Condition)
    | Remove(name: Bytes, w: Condition)
    | Change(name: Bytes, fields: Fields, w: Condition)

  /** The tables at hand, the path they go to, whether they are to be written, and what was answered. */
  datatype Db = Db(path: Path, tables: Tables, dirty: bool, output: seq<string>)

  // ----- the meaning -----

  function RowOf(fields: Fields): Row {
    if fields == [] then map[] else RowOf(fields[..|fields| - 1])[fields[|fields| - 1].0 := fields[|fields| - 1].1]
  }

  /** The row fits the columns, and agrees in no unique or key column with another row. */
  ghost predicate MayStand(f: Reals, t: Table, row: Row, others: seq<Row>) {
    RowFits(t.columns, row) && forall n :: 0 <= n < |others| ==> !Clash(f, t.columns, others[n], row)
  }

  /** The row has the value in the column; every row, without a condition. */
  predicate Meets(f: Reals, row: Row, w: Condition) {
    match w
    case Every => true
    case Where(name, value) => name in row && SameValue(f, row[name], value)
  }

  /** The rows that do not meet the condition, in their order. */
  function Without(f: Reals, rows: seq<Row>, w: Condition): seq<Row> {
    if rows == [] then []
    else (if Meets(f, rows[0], w) then [] else [rows[0]]) + Without(f, rows[1..], w)
  }

  function Only(f: Reals, rows: seq<Row>, w: Condition): seq<Row> {
    if rows == [] then []
    else (if Meets(f, rows[0], w) then [rows[0]] else []) + Only(f, rows[1..], w)
  }

  /** The first `n` rows changed where they meet the condition. */
  function Changed(f: Reals, rows: seq<Row>, patch: Row, w: Condition, n: nat): (r: seq<Row>)
    requires n <= |rows|
    ensures |r| == |rows|
  {
    seq(|rows|, k requires 0 <= k < |rows| => if k < n && Meets(f, rows[k], w) then rows[k] + patch else rows[k])
  }

  /** Each changed row may stand beside the rows before it, changed, and those behind it, as they were. */
  ghost predicate MayChange(f: Reals, t: Table, patch: Row, w: Condition, k: nat)
    requires k < |t.rows|
  {
    Meets(f, t.rows[k], w) ==>
      MayStand(f, t, t.rows[k] + patch, Changed(f, t.rows, patch, w, k)[..k] + t.rows[k + 1..])
  }

  /** All rows from index `i` on may be changed. */
  ghost predicate MayChangeFrom(f: Reals, t: Table, patch: Row, w: Condition, i: nat) {
    forall k :: i <= k < |t.rows| ==> MayChange(f, t, patch, w, k)
  }

  /** Texts with tabulators between them. */
  function Tabbed(texts: seq<string>): string {
    if texts == [] then "" else if |texts| == 1 then texts[0] else texts[0] + "\t" + Tabbed(texts[1..])
  }

  function Names(columns: seq<Column>): seq<string> {
    seq(|columns|, k requires 0 <= k < |columns| => columns[k].name)
  }

  /** The values of a row, column by column; nothing where it has none. */
  function Texts(f: Reals, row: Row, columns: seq<Column>): seq<string> {
    seq(|columns|, k requires 0 <= k < |columns| => if columns[k].name in row then ValueText(f, row[columns[k].name]) else "")
  }

  function Lines(f: Reals, rows: seq<Row>, columns: seq<Column>): seq<string> {
    seq(|rows|, k requires 0 <= k < |rows| => Tabbed(Texts(f, rows[k], columns)))
  }

  ghost function UseMeaning(w: World, db: Db, path: Bytes): Option<Db> {
    var p := w.resolve(path);
    if db.path != p && db.path in w.disk && db.tables != map[] then None
    else (match TablesAt(w.f, w.disk, p) case None => None case Some(tables) => Some(db.(path := p, tables := tables)))
  }

  ghost function CreateMeaning(db: Db, name: Bytes, columns: seq<Column>): Option<Db> {
    if !DistinctNames(columns) then None
    else if name !in db.tables then Some(db.(tables := db.tables[name := Table(name, columns, [])], dirty := true))
    else if |db.tables[name].columns| == |columns| then Some(db)
    else None
  }

  ghost function AddMeaning(f: Reals, db: Db, name: Bytes, row: Row): Option<Db> {
    if name in db.tables && MayStand(f, db.tables[name], row, db.tables[name].rows) then
      var t := db.tables[name];
      Some(db.(tables := db.tables[name := t.(rows := t.rows + [row])], dirty := true))
    else None
  }

  ghost function ShowMeaning(f: Reals, db: Db, name: Bytes, w: Condition): Option<Db> {
    if name !in db.tables then None
    else
      var t := db.tables[name];
      Some(db.(output := db.output + [Tabbed(Names(t.columns))] + Lines(f, Only(f, t.rows, w), t.columns)))
  }

  ghost predicate AnyMeets(f: Reals, rows: seq<Row>, w: Condition) {
    exists k :: 0 <= k < |rows| && Meets(f, rows[k], w)
  }

  ghost function RemoveMeaning(f: Reals, db: Db, name: Bytes, w: Condition): Option<Db> {
    if name !in db.tables then None
    else
      var t := db.tables[name];
      Some(db.(tables := db.tables[name := t.(rows := Without(f, t.rows, w))], dirty := db.dirty || AnyMeets(f, t.rows, w)))
  }

  ghost function ChangeMeaning(f: Reals, db: Db, name: Bytes, patch: Row, w: Condition): Option<Db> {
    if name in db.tables && MayChangeFrom(f, db.tables[name], patch, w, 0) then
      var t := db.tables[name];
      Some(db.(tables := db.tables[name := t.(rows := Changed(f, t.rows, patch, w, |t.rows|))], dirty := db.dirty || AnyMeets(f, t.rows, w)))
    else None
  }

  /** What a statement makes of the tables; None if it fails. */
  ghost function Meaning(w: World, s: Statement, db: Db): Option<Db> {
    match s
    case Use(path) => UseMeaning(w, db, path)
    case Create(name, columns) => CreateMeaning(db, name, columns)
    case Add(name, fields) => AddMeaning(w.f, db, name, RowOf(fields))
    case Show(name, c) => ShowMeaning(w.f, db, name, c)
    case Remove(name, c) => RemoveMeaning(w.f, db, name, c)
    case Change(name, fields, c) => ChangeMeaning(w.f, db, name, RowOf(fields), c)
  }

  // ----- rows -----

  lemma ValidatesIff(f: Reals, t: Table, row: Row, skip: Option<nat>)
    requires skip.Some? ==> skip.value < |t.rows|
    ensures Validates(f, t, row, skip) <==>
      RowFits(t.columns, row) && forall n :: 0 <= n < |t.rows| && skip != Some(n) ==> !Clash(f, t.columns, t.rows[n], row)
  {
    if Validates(f, t, row, skip) {
      ValidatedRowFits(f, t, row, skip);
      forall n, c | 0 <= n < |t.rows| && skip != Some(n) && c in t.columns ensures !ClashIn(f, c, t.rows[n], row) {
        assert ColumnAllows(f, t, row, skip, c);
      }
    } else if RowFits(t.columns, row) {
      var c :| c in t.columns && !ColumnAllows(f, t, row, skip, c);
      var n :| 0 <= n < |t.rows| && skip != Some(n) && c.name in t.rows[n] && SameValue(f, t.rows[n][c.name], row[c.name]);
      assert ClashIn(f, c, t.rows[n], row);
    }
  }

  lemma NewRowIff(f: Reals, t: Table, row: Row)
    ensures Validates(f, t, row, None) <==> MayStand(f, t, row, t.rows)
  {
    hide Validates, RowFits, Clash;
    ValidatesIff(f, t, row, None);
  }

  lemma OtherRowIff(f: Reals, t: Table, row: Row, i: nat)
    requires i < |t.rows|
    ensures Validates(f, t, row, Some(i)) <==> MayStand(f, t, row, t.rows[..i] + t.rows[i + 1..])
  {
    hide Validates, RowFits, Clash;
    ValidatesIff(f, t, row, Some(i));
    var others := t.rows[..i] + t.rows[i + 1..];
    forall n | 0 <= n < |others| ensures others[n] == t.rows[if n < i then n else n + 1] { }
    forall n | 0 <= n < |t.rows| && n != i ensures t.rows[n] == others[if n < i then n else n - 1] { }
  }

  lemma MeetsIff(f: Reals, row: Row, w: Condition)
    ensures Matches(f, row, w) <==> Meets(f, row, w)
  {
  }

  lemma Grouped(a: seq<Row>, b: seq<Row>, c: seq<Row>)
    ensures a + (b + c) == (a + b) + c
  {
  }

  lemma {:induction false} WithoutLast(f: Reals, rows: seq<Row>, row: Row, w: Condition)
    ensures Without(f, rows + [row], w) == Without(f, rows, w) + if Meets(f, row, w) then [] else [row]
    decreases |rows|
  {
    hide Meets;
    if rows == [] {
      assert [] + [row] == [row] && [row][1..] == [];
    } else {
      assert (rows + [row])[1..] == rows[1..] + [row] && (rows + [row])[0] == rows[0];
      WithoutLast(f, rows[1..], row, w);
      Grouped(if Meets(f, rows[0], w) then [] else [rows[0]], Without(f, rows[1..], w), if Meets(f, row, w) then [] else [row]);
    }
  }

  lemma {:induction false} OnlyLast(f: Reals, rows: seq<Row>, row: Row, w: Condition)
    ensures Only(f, rows + [row], w) == Only(f, rows, w) + if Meets(f, row, w) then [row] else []
    decreases |rows|
  {
    hide Meets;
    if rows == [] {
      assert [] + [row] == [row] && [row][1..] == [];
    } else {
      assert (rows + [row])[1..] == rows[1..] + [row] && (rows + [row])[0] == rows[0];
      OnlyLast(f, rows[1..], row, w);
      Grouped(if Meets(f, rows[0], w) then [rows[0]] else [], Only(f, rows[1..], w), if Meets(f, row, w) then [row] else []);
    }
  }

  lemma {:induction false} KeptIs(f: Reals, rows: seq<Row>, w: Condition)
    ensures Kept(f, rows, w) == Without(f, rows, w)
    ensures |Without(f, rows, w)| <= |rows|
    ensures |Without(f, rows, w)| != |rows| <==> AnyMeets(f, rows, w)
    decreases |rows|
  {
    hide Meets, Matches;
    if rows != [] {
      var n := |rows| - 1;
      KeptIs(f, rows[..n], w);
      MeetsIff(f, rows[n], w);
      assert rows == rows[..n] + [rows[n]];
      WithoutLast(f, rows[..n], rows[n], w);
    }
  }

  // ----- answers -----

  lemma {:induction false} TabbedLast(texts: seq<string>, last: string)
    ensures Tabbed(texts + [last]) == Tabbed(texts) + (if texts == [] then "" else "\t") + last
    decreases |texts|
  {
    if texts == [] {
      assert [] + [last] == [last];
    } else {
      assert (texts + [last])[1..] == texts[1..] + [last];
      TabbedLast(texts[1..], last);
      if |texts| > 1 { assert texts[0] + "\t" + (Tabbed(texts[1..]) + "\t" + last) == (texts[0] + "\t" + Tabbed(texts[1..])) + "\t" + last; }
    }
  }

  lemma {:induction false} HeadingIs(columns: seq<Column>)
    ensures Heading(columns) == Tabbed(Names(columns))
    decreases |columns|
  {
    if columns != [] {
      var n := |columns| - 1;
      HeadingIs(columns[..n]);
      assert Names(columns) == Names(columns[..n]) + [columns[n].name];
      TabbedLast(Names(columns[..n]), columns[n].name);
    }
  }

  function CellText(f: Reals, row: Row, c: Column): string {
    if c.name in row then ValueText(f, row[c.name]) else ""
  }

  lemma CellsStep(f: Reals, row: Row, columns: seq<Column>)
    requires columns != []
    ensures var n := |columns| - 1;
            Cells(f, row, columns) == Cells(f, row, columns[..n]) + (if n > 0 then "\t" else "") + CellText(f, row, columns[n])
  {
    hide ValueText;
  }

  lemma TextsStep(f: Reals, row: Row, columns: seq<Column>)
    requires columns != []
    ensures var n := |columns| - 1; Texts(f, row, columns) == Texts(f, row, columns[..n]) + [CellText(f, row, columns[n])]
  {
    hide ValueText;
    var n := |columns| - 1;
    forall k | 0 <= k < n ensures Texts(f, row, columns)[k] == Texts(f, row, columns[..n])[k] { assert columns[..n][k] == columns[k]; }
  }

  lemma {:induction false} CellsAre(f: Reals, row: Row, columns: seq<Column>)
    ensures Cells(f, row, columns) == Tabbed(Texts(f, row, columns))
    decreases |columns|
  {
    if columns != [] {
      var n := |columns| - 1;
      CellsStep(f, row, columns);
      TextsStep(f, row, columns);
      CellsAre(f, row, columns[..n]);
      TabbedLast(Texts(f, row, columns[..n]), CellText(f, row, columns[n]));
      hide Cells, Tabbed, CellText;
    }
  }

  lemma {:induction false} AnswerIs(f: Reals, rows: seq<Row>, columns: seq<Column>, w: Condition)
    ensures Answer(f, rows, columns, w) == Lines(f, Only(f, rows, w), columns)
    decreases |rows|
  {
    hide Meets, Matches, Cells, Tabbed, Texts;
    if rows != [] {
      var n := |rows| - 1;
      AnswerIs(f, rows[..n], columns, w);
      MeetsIff(f, rows[n], w);
      assert rows == rows[..n] + [rows[n]];
      OnlyLast(f, rows[..n], rows[n], w);
      CellsAre(f, rows[n], columns);
      var only := Only(f, rows[..n], w);
      assert Lines(f, only + [rows[n]], columns) == Lines(f, only, columns) + [Tabbed(Texts(f, rows[n], columns))];
    } else {
      assert Only(f, rows, w) == [];
    }
  }

  // ----- updates -----

  /** Patching from index `i` on, the rows before it patched already. */
  lemma {:induction false} PatchedIs(f: Reals, t: Table, patch: Row, w: Condition, i: nat)
    requires i <= |t.rows|
    ensures Patched(f, t.(rows := Changed(f, t.rows, patch, w, i)), patch, w, i) ==
            if MayChangeFrom(f, t, patch, w, i) then Some(t.(rows := Changed(f, t.rows, patch, w, |t.rows|))) else None
    decreases |t.rows| - i
  {
    if i < |t.rows| {
      PatchedIs(f, t, patch, w, i + 1);
      OneChanged(f, t, patch, w, i);
      ChangeFirst(f, t, patch, w, i);
      hide Changed, MayChange, MayChangeFrom, Validates, Matches, Meets;
    }
  }

  lemma ChangeFirst(f: Reals, t: Table, patch: Row, w: Condition, i: nat)
    requires i < |t.rows|
    ensures MayChangeFrom(f, t, patch, w, i) <==> MayChange(f, t, patch, w, i) && MayChangeFrom(f, t, patch, w, i + 1)
  {
    hide MayChange;
  }

  /** One row: whether it is patched, and whether it may be. */
  lemma OneChanged(f: Reals, t: Table, patch: Row, w: Condition, i: nat)
    requires i < |t.rows|
    ensures var rows := Changed(f, t.rows, patch, w, i);
            && |rows| == |t.rows| && rows[i] == t.rows[i] && (Matches(f, rows[i], w) <==> Meets(f, t.rows[i], w))
            && Changed(f, t.rows, patch, w, i + 1) == (if Meets(f, t.rows[i], w) then rows[i := rows[i] + patch] else rows)
            && (MayChange(f, t, patch, w, i) <==>
                (Meets(f, t.rows[i], w) ==> Validates(f, t.(rows := rows), rows[i] + patch, Some(i))))
  {
    hide Meets, Matches, Validates, MayStand;
    var rows := Changed(f, t.rows, patch, w, i);
    MeetsIff(f, t.rows[i], w);
    OtherRowIff(f, t.(rows := rows), rows[i] + patch, i);
    assert rows[i + 1..] == t.rows[i + 1..];
    SameColumns(f, t, rows, rows[i] + patch, rows[..i] + t.rows[i + 1..]);
  }

  lemma SameColumns(f: Reals, t: Table, rows: seq<Row>, row: Row, others: seq<Row>)
    ensures MayStand(f, t.(rows := rows), row, others) <==> MayStand(f, t, row, others)
  {
  }

  lemma NothingChanged(f: Reals, t: Table, patch: Row, w: Condition)
    ensures t.(rows := Changed(f, t.rows, patch, w, 0)) == t
  {
    assert Changed(f, t.rows, patch, w, 0) == t.rows;
  }

  lemma AnyIff(f: Reals, rows: seq<Row>, w: Condition)
    ensures AnyMatches(f, rows, w) <==> AnyMeets(f, rows, w)
  {
    hide Meets, Matches;
    forall k | 0 <= k < |rows| ensures Matches(f, rows[k], w) <==> Meets(f, rows[k], w) { MeetsIff(f, rows[k], w); }
  }

  // ----- statements -----

  function DbOf(s: Running): Db {
    Db(s.path, s.tables, s.dirty, s.output)
  }

  /** The statement went as its meaning says, and the script goes on behind `n` tokens. */
  ghost predicate Obeys(s: Running, r: Option<Running>, m: Option<Db>, n: nat) {
    match m
    case None => r.None?
    case Some(db) => r == Some(Running(s.at + n, db.path, db.tables, db.dirty, s.failed, db.output))
  }

  lemma TableUnfolds(w: World, ts: seq<Token>, s: Running, name: Bytes, r: Read<seq<Column>>)
    requires Ready(ts, s) && At(ts, s.at + 3) && ts[s.at].kind.Id? && ts[s.at + 1] == Token(Id, name) && ts[s.at + 2].kind.LBrace?
    requires ReadColumns(ts, s.at + 3, []) == r
    ensures DoTable(w, ts, s) ==
      if r.Bad? then None
      else if name !in s.tables then Some(s.(at := r.next, tables := s.tables[name := Table(name, r.value, [])], dirty := true))
      else if |s.tables[name].columns| != |r.value| then None
      else Some(s.(at := r.next))
  {
    hide Script, ReadColumns;
  }

  lemma InsertUnfolds(w: World, ts: seq<Token>, s: Running, name: Bytes, row: Row, n: nat)
    requires Ready(ts, s) && At(ts, s.at + 2) && ts[s.at].kind.Id? && Named(ts, s) == (if name in s.tables then Some(name) else None)
    requires ReadObject(w.f, ts, s.at + 2) == Got(row, n)
    ensures DoInsert(w, ts, s) ==
      if name !in s.tables || !Validates(w.f, s.tables[name], row, None) then None
      else
        var t := s.tables[name];
        Some(s.(at := n, tables := s.tables[name := t.(rows := t.rows + [row])], dirty := true))
  {
    hide Script, ReadObject, Named, Validates;
  }

  lemma UpdateUnfolds(w: World, ts: seq<Token>, s: Running, name: Bytes, patch: Row, c: Condition, n: nat, end: nat)
    requires Ready(ts, s) && ts[s.at].kind.Id? && Named(ts, s) == (if name in s.tables then Some(name) else None)
    requires At(ts, s.at + 3) && At(ts, n) && IsKeyword(ts[s.at + 2], "set")
    requires ReadObject(w.f, ts, s.at + 3) == Got(patch, n) && ReadWhere(w.f, ts, n) == Got(c, end)
    ensures DoUpdate(w, ts, s) ==
      if name !in s.tables then None
      else
        var t := s.tables[name];
        match Patched(w.f, t, patch, c, 0)
        case None => None
        case Some(t') => Some(s.(at := end, tables := s.tables[name := t'], dirty := s.dirty || AnyMatches(w.f, t.rows, c)))
  {
    hide Script, ReadObject, ReadWhere, Named, IsKeyword, Patched, AnyMatches;
  }

  lemma TableChanges(f: Reals, t: Table, patch: Row, w: Condition)
    ensures Patched(f, t, patch, w, 0) ==
            (if MayChangeFrom(f, t, patch, w, 0) then Some(t.(rows := Changed(f, t.rows, patch, w, |t.rows|))) else None)
    ensures AnyMatches(f, t.rows, w) <==> AnyMeets(f, t.rows, w)
  {
    hide Patched, Changed, MayChange, AnyMatches, Meets;
    PatchedIs(f, t, patch, w, 0);
    NothingChanged(f, t, patch, w);
    AnyIff(f, t.rows, w);
  }

  /** Each statement on the tables the ones before it leave. */
  ghost function MeaningAll(w: World, sts: seq<Statement>, db: Db): Option<Db> {
    if sts == [] then Some(db)
    else match Meaning(w, sts[0], db) case None => None case Some(next) => MeaningAll(w, sts[1..], next)
  }
}
