/**
 Database scripts: statements that read and change the tables of one file, which is written only when the whole
 script succeeds.

 The functions give what a statement does; class `Session` executes a script with a cursor over its tokens.
 */
module DatabaseScript {
  import opened Basics
  import opened Int64
  import opened DatabaseText
  import opened Hexadecimal
  import opened Database

  datatype Kind = Id | Str | Num | LBrace | RBrace | Colon | Comma | Semi | Equals | End

  datatype Token = Token(kind: Kind, text: Bytes)

  type Path = string

  /** What a script runs against: the files, how a quoted path is resolved, and floating point. */
  datatype World = World(f: Reals, disk: map<Path, File>, resolve: Bytes -> Path)

  /** The tokens of a script: one end token, at the end, and no identifier without text. */
  ghost predicate Script(ts: seq<Token>) {
    && ts != [] && ts[|ts| - 1].kind.End?
    && (forall k :: 0 <= k < |ts| - 1 ==> !ts[k].kind.End?)
    && forall k :: 0 <= k < |ts| && ts[k].kind.Id? ==> ts[k].text != ""
  }

  /** A script, and a place in it. */
  ghost predicate At(ts: seq<Token>, i: nat) {
    Script(ts) && i < |ts|
  }

  // ----- reading -----

  /** A value and the place behind it, or the place where reading failed. */
  datatype Read<T> = Got(value: T, next: nat) | Bad(next: nat)

  predicate IsKeyword(t: Token, word: string) {
    t.kind.Id? && Lower(t.text) == word
  }

  function ReadNumber(f: Reals, text: Bytes): Option<Value> {
    if '.' in text then (match f.read(text) case Some(d) => Some(Real(d)) case None => None)
    else
      match ParseInt(text)
      case Some(n) => if MIN <= n <= MAX then Some(Int(n)) else None
      case None => None
  }

  function ReadValue(f: Reals, ts: seq<Token>, i: nat): (r: Read<Value>)
    requires At(ts, i)
    ensures i <= r.next < |ts| && (r.Got? ==> i < r.next)
  {
    var t := ts[i];
    if t.kind.Str? then Got(Text(t.text), i + 1)
    else if t.kind.Num? then (match ReadNumber(f, t.text) case Some(v) => Got(v, i + 1) case None => Bad(i + 1))
    else if IsKeyword(t, "true") then Got(Bool(true), i + 1)
    else if IsKeyword(t, "false") then Got(Bool(false), i + 1)
    else Bad(i)
  }

  /** One field `name: value`. */
  function ReadField(f: Reals, ts: seq<Token>, i: nat): (r: Read<(Bytes, Value)>)
    requires At(ts, i)
    ensures i <= r.next < |ts| && (r.Got? ==> i < r.next)
  {
    if !ts[i].kind.Id? then Bad(i)
    else if !ts[i + 1].kind.Colon? then Bad(i + 1)
    else match ReadValue(f, ts, i + 2) case Bad(next) => Bad(next) case Got(v, next) => Got((ts[i].text, v), next)
  }

  /** Fields separated by commas, up to the closing brace; later ones replace earlier ones. */
  function ReadFields(f: Reals, ts: seq<Token>, i: nat, row: Row): (r: Read<Row>)
    requires At(ts, i)
    ensures i <= r.next < |ts| && (r.Got? ==> i < r.next)
    decreases |ts| - i
  {
    match ReadField(f, ts, i)
    case Bad(next) => Bad(next)
    case Got((name, v), next) =>
      if ts[next].kind.Comma? then ReadFields(f, ts, next + 1, row[name := v])
      else if ts[next].kind.RBrace? then Got(row[name := v], next + 1)
      else Bad(next)
  }

  function ReadObject(f: Reals, ts: seq<Token>, i: nat): (r: Read<Row>)
    requires At(ts, i)
    ensures i <= r.next < |ts| && (r.Got? ==> i < r.next)
  {
    if !ts[i].kind.LBrace? then Bad(i)
    else if ts[i + 1].kind.RBrace? then Got(map[], i + 2)
    else ReadFields(f, ts, i + 1, map[])
  }

  /** The condition of a where clause: every row without one. */
  datatype Condition = Every | Where(name: Bytes, value: Value)

  function ReadWhere(f: Reals, ts: seq<Token>, i: nat): (r: Read<Condition>)
    requires At(ts, i)
    ensures i <= r.next < |ts|
  {
    if !IsKeyword(ts[i], "where") then Got(Every, i)
    else if !ts[i + 1].kind.Id? then Bad(i + 1)
    else if !ts[i + 2].kind.Equals? then Bad(i + 2)
    else
      match ReadValue(f, ts, i + 3)
      case Bad(next) => Bad(next)
      case Got(v, next) => Got(Where(ts[i + 1].text, v), next)
  }

  /** Column flags; `key` implies the other two. */
  function ReadFlags(ts: seq<Token>, i: nat, c: Column): (r: (Column, nat))
    requires At(ts, i)
    ensures i <= r.1 < |ts| && r.0.name == c.name
    decreases |ts| - i
  {
    if IsKeyword(ts[i], "required") then ReadFlags(ts, i + 1, c.(required := true))
    else if IsKeyword(ts[i], "unique") then ReadFlags(ts, i + 1, c.(unique := true))
    else if IsKeyword(ts[i], "key") then ReadFlags(ts, i + 1, c.(key := true, unique := true, required := true))
    else (c, i)
  }

  /** One column declaration `name: type flags`, of a name not declared before. */
  function ReadDeclared(ts: seq<Token>, i: nat, columns: seq<Column>): (r: Read<Column>)
    requires At(ts, i)
    ensures i <= r.next < |ts| && (r.Got? ==> i < r.next)
  {
    if !ts[i].kind.Id? then Bad(i)
    else if !ts[i + 1].kind.Colon? then Bad(i + 1)
    else if !ts[i + 2].kind.Id? then Bad(i + 2)
    else
      match ParseType(ts[i + 2].text)
      case None => Bad(i + 3)
      case Some(kind) =>
        var (c, next) := ReadFlags(ts, i + 3, Column(ts[i].text, kind, false, false, false));
        if HasColumn(columns, c.name) then Bad(next) else Got(c, next)
  }

  function ReadColumns(ts: seq<Token>, i: nat, columns: seq<Column>): (r: Read<seq<Column>>)
    requires At(ts, i)
    ensures i <= r.next < |ts| && (r.Got? ==> i < r.next)
    decreases |ts| - i
  {
    if ts[i].kind.RBrace? then Got(columns, i + 1)
    else
      match ReadDeclared(ts, i, columns)
      case Bad(next) => Bad(next)
      case Got(c, next) =>
        ReadColumns(ts, if ts[next].kind.Comma? || ts[next].kind.Semi? then next + 1 else next, columns + [c])
  }

  // ----- rows -----

  /** The row may be stored at index `skip`, or be a new one. */
  predicate Validates(f: Reals, t: Table, row: Row, skip: Option<nat>) {
    && (forall name <- row.Keys :: FindColumn(t.columns, name).Some? && Compatible(FindColumn(t.columns, name).value.kind, row[name]))
    && forall c <- t.columns :: ColumnAllows(f, t, row, skip, c)
  }

  predicate ColumnAllows(f: Reals, t: Table, row: Row, skip: Option<nat>, c: Column) {
    && (c.required ==> c.name in row)
    && (IsConstrained(c) && c.name in row ==>
          forall n :: 0 <= n < |t.rows| && skip != Some(n) && c.name in t.rows[n] ==> !SameValue(f, t.rows[n][c.name], row[c.name]))
  }

  predicate Matches(f: Reals, row: Row, w: Condition) {
    w.Every? || (w.name in row && SameValue(f, row[w.name], w.value))
  }

  function Kept(f: Reals, rows: seq<Row>, w: Condition): seq<Row> {
    if rows == [] then []
    else
      var rest := Kept(f, rows[..|rows| - 1], w);
      if Matches(f, rows[|rows| - 1], w) then rest else rest + [rows[|rows| - 1]]
  }

  /** Patches the matching rows from index `i` on, each checked against the table as it is then. */
  function Patched(f: Reals, t: Table, patch: Row, w: Condition, i: nat): Option<Table>
    decreases |t.rows| - i
  {
    if i >= |t.rows| then Some(t)
    else if !Matches(f, t.rows[i], w) then Patched(f, t, patch, w, i + 1)
    else if Validates(f, t, t.rows[i] + patch, Some(i)) then
      Patched(f, t.(rows := t.rows[i := t.rows[i] + patch]), patch, w, i + 1)
    else None
  }

  predicate AnyMatches(f: Reals, rows: seq<Row>, w: Condition) {
    exists i :: 0 <= i < |rows| && Matches(f, rows[i], w)
  }

  /** One line of a query's answer. */
  function Cells(f: Reals, row: Row, columns: seq<Column>): string {
    if columns == [] then ""
    else
      var n := |columns| - 1;
      Cells(f, row, columns[..n]) + (if n > 0 then "\t" else "") +
      (if columns[n].name in row then ValueText(f, row[columns[n].name]) else "")
  }

  function Heading(columns: seq<Column>): string {
    if columns == [] then ""
    else Heading(columns[..|columns| - 1]) + (if |columns| > 1 then "\t" else "") + columns[|columns| - 1].name
  }

  function Answer(f: Reals, rows: seq<Row>, columns: seq<Column>, w: Condition): seq<string> {
    if rows == [] then []
    else
      var rest := Answer(f, rows[..|rows| - 1], columns, w);
      if Matches(f, rows[|rows| - 1], w) then rest + [Cells(f, rows[|rows| - 1], columns)] else rest
  }

  // ----- statements -----

  /** A script being executed: `failed` says whether an error was reported. */
  datatype Running = Running(at: nat, path: Path, tables: Tables, dirty: bool, failed: bool, output: seq<string>)

  /** The place behind the value that was read, or the error, which ends nothing by itself. */
  function Went<T>(s: Running, r: Read<T>): Running {
    s.(at := r.next, failed := s.failed || r.Bad?)
  }

  /** Where a condition could not be read there is none, so that every row matches. */
  function ConditionOf(r: Read<Condition>): Condition {
    if r.Got? then r.value else Every
  }

  ghost predicate Ready(ts: seq<Token>, s: Running) {
    At(ts, s.at)
  }

  function DoDatabase(w: World, ts: seq<Token>, s: Running): (r: Option<Running>)
    requires Ready(ts, s) && ts[s.at].kind.Id?
    ensures r.Some? ==> s.at < r.value.at < |ts|
  {
    if !ts[s.at + 1].kind.Str? then None
    else
      var requested := w.resolve(ts[s.at + 1].text);
      if s.path != requested && s.path in w.disk && |s.tables| != 0 then None
      else
        var loaded := if requested in w.disk then Load(w.f, w.disk[requested]) else Some(map[]);
        if loaded.None? then None else Some(s.(at := s.at + 2, path := requested, tables := loaded.value))
  }

  function DoTable(w: World, ts: seq<Token>, s: Running): (r: Option<Running>)
    requires Ready(ts, s) && ts[s.at].kind.Id?
    ensures r.Some? ==> s.at < r.value.at < |ts|
  {
    if !ts[s.at + 1].kind.Id? || !ts[s.at + 2].kind.LBrace? then None
    else
      var name := ts[s.at + 1].text;
      match ReadColumns(ts, s.at + 3, [])
      case Bad(_) => None
      case Got(columns, next) =>
        if name !in s.tables then
          Some(s.(at := next, tables := s.tables[name := Table(name, columns, [])], dirty := true))
        else if |s.tables[name].columns| != |columns| then None
        else Some(s.(at := next))
  }

  /** The table a statement names behind its keyword. */
  function Named(ts: seq<Token>, s: Running): Option<Bytes>
    requires Ready(ts, s) && ts[s.at].kind.Id?
  {
    if ts[s.at + 1].kind.Id? && ts[s.at + 1].text in s.tables then Some(ts[s.at + 1].text) else None
  }

  function DoInsert(w: World, ts: seq<Token>, s: Running): (r: Option<Running>)
    requires Ready(ts, s) && ts[s.at].kind.Id?
    ensures r.Some? ==> s.at < r.value.at < |ts|
  {
    match Named(ts, s)
    case None => None
    case Some(name) =>
      var t := s.tables[name];
      match ReadObject(w.f, ts, s.at + 2)
      case Bad(_) => None
      case Got(row, next) =>
        if !Validates(w.f, t, row, None) then None
        else Some(s.(at := next, tables := s.tables[name := t.(rows := t.rows + [row])], dirty := true))
  }

  function DoSelect(w: World, ts: seq<Token>, s: Running): (r: Option<Running>)
    requires Ready(ts, s) && ts[s.at].kind.Id?
    ensures r.Some? ==> s.at < r.value.at < |ts|
  {
    match Named(ts, s)
    case None => None
    case Some(name) =>
      var t := s.tables[name];
      var c := ReadWhere(w.f, ts, s.at + 2);
      if c.Bad? && IsKeyword(ts[c.next], "where") then None
      else Some(Went(s, c).(output := s.output + [Heading(t.columns)] + Answer(w.f, t.rows, t.columns, ConditionOf(c))))
  }

  function DoDelete(w: World, ts: seq<Token>, s: Running): (r: Option<Running>)
    requires Ready(ts, s) && ts[s.at].kind.Id?
    ensures r.Some? ==> s.at < r.value.at < |ts|
  {
    match Named(ts, s)
    case None => None
    case Some(name) =>
      var t := s.tables[name];
      var c := ReadWhere(w.f, ts, s.at + 2);
      var rows := Kept(w.f, t.rows, ConditionOf(c));
      Some(Went(s, c).(tables := s.tables[name := t.(rows := rows)], dirty := s.dirty || |rows| != |t.rows|))
  }

  function DoUpdate(w: World, ts: seq<Token>, s: Running): (r: Option<Running>)
    requires Ready(ts, s) && ts[s.at].kind.Id?
    ensures r.Some? ==> s.at < r.value.at < |ts|
  {
    match Named(ts, s)
    case None => None
    case Some(name) =>
      if !IsKeyword(ts[s.at + 2], "set") then None
      else
        match ReadObject(w.f, ts, s.at + 3)
        case Bad(_) => None
        case Got(patch, next) =>
          var c := ReadWhere(w.f, ts, next);
          var t := s.tables[name];
          match Patched(w.f, t, patch, ConditionOf(c), 0)
          case None => None
          case Some(t') =>
            Some(Went(s, c).(tables := s.tables[name := t'], dirty := s.dirty || AnyMatches(w.f, t.rows, ConditionOf(c))))
  }

  /** One statement; None if the script ends with it in failure. */
  function DoStatement(w: World, ts: seq<Token>, s: Running): (r: Option<Running>)
    requires Ready(ts, s)
    ensures r.Some? ==> s.at < r.value.at < |ts|
  {
    var t := ts[s.at];
    if IsKeyword(t, "database") then DoDatabase(w, ts, s)
    else if IsKeyword(t, "table") then DoTable(w, ts, s)
    else if IsKeyword(t, "insert") then DoInsert(w, ts, s)
    else if IsKeyword(t, "select") then DoSelect(w, ts, s)
    else if IsKeyword(t, "delete") then DoDelete(w, ts, s)
    else if IsKeyword(t, "update") then DoUpdate(w, ts, s)
    else None
  }

  // ----- scripts -----

  function PastSemi(ts: seq<Token>, s: Running): Running
    requires Ready(ts, s)
  {
    if ts[s.at].kind.Semi? then s.(at := s.at + 1) else s
  }

  /** The statements from here to the end. */
  function DoAll(w: World, ts: seq<Token>, s: Running): Option<Running>
    requires Ready(ts, s)
    decreases |ts| - s.at
  {
    if ts[s.at].kind.End? then Some(s)
    else
      match DoStatement(w, ts, s)
      case None => None
      case Some(s') => DoAll(w, ts, PastSemi(ts, s'))
  }

  datatype Ended = Ended(ok: bool, disk: map<Path, File>)

  /** A whole script against the file at `path`: nothing is written unless it succeeds. */
  function Execute(w: World, order: set<Bytes> -> seq<Bytes>, ts: seq<Token>, path: Path): Ended
    requires Script(ts) && Enumerates(order)
  {
    var start := if path in w.disk then Load(w.f, w.disk[path]) else Some(map[]);
    match start
    case None => Ended(false, w.disk)
    case Some(tables) =>
      match DoAll(w, ts, Running(0, path, tables, false, false, []))
      case None => Ended(false, w.disk)
      case Some(s) =>
        if s.failed then Ended(false, w.disk)
        else if s.dirty then Ended(true, w.disk[s.path := Save(w.f, order, s.tables)])
        else Ended(true, w.disk)
  }
}
