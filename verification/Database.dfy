/**
 NoqeriDB: tables with typed, required and unique columns, and their text file.

 Doubles are opaque, as are their comparison and their text; `std::map`'s order of iteration is a parameter, since
 nothing stored depends on it.  A file is the list of its lines.
 */
module Database {
  import opened Basics
  import opened Int64
  import opened DatabaseText
  import opened Hexadecimal
  import D = Decimal
  import V = Values

  datatype Reals = Reals(
    same: (V.Double, V.Double) -> bool,
    ofInt: i64 -> V.Double,
    show: V.Double -> Bytes,
    read: string -> Option<V.Double>)

  /** What is assumed of floating point: comparison is symmetric, and seventeen digits tell a double. */
  ghost predicate Faithful(f: Reals) {
    && (forall a, b :: f.same(a, b) == f.same(b, a))
    && forall d :: f.read(f.show(d)) == Some(d)
  }

  datatype Value = Int(i: i64) | Real(d: V.Double) | Bool(b: bool) | Text(s: Bytes)

  datatype ValueType = IntType | RealType | BoolType | TextType

  datatype Column = Column(name: Bytes, kind: ValueType, required: bool, unique: bool, key: bool)

  type Row = map<Bytes, Value>

  datatype Table = Table(name: Bytes, columns: seq<Column>, rows: seq<Row>)

  type Tables = map<Bytes, Table>

  type File = seq<string>

  // ----- values -----

  function ToLower(c: char): char {
    if 'A' <= c <= 'Z' then c - 'A' + 'a' else c
  }

  function Lower(s: string): string {
    if s == "" then "" else [ToLower(s[0])] + Lower(s[1..])
  }

  function TypeName(t: ValueType): Bytes {
    match t case IntType => "int" case RealType => "real" case BoolType => "bool" case TextType => "text"
  }

  function ParseType(s: string): Option<ValueType> {
    var x := Lower(s);
    if x == "int" || x == "integer" then Some(IntType)
    else if x == "real" || x == "float" then Some(RealType)
    else if x == "bool" then Some(BoolType)
    else if x == "text" || x == "string" then Some(TextType)
    else None
  }

  function ValueText(f: Reals, v: Value): Bytes {
    match v
    case Int(i) => IntText(i)
    case Real(d) => f.show(d)
    case Bool(b) => if b then "true" else "false"
    case Text(s) => s
  }

  /** Values of one kind are compared as such, an integer and a double as doubles; others are never equal. */
  predicate SameValue(f: Reals, a: Value, b: Value) {
    match (a, b)
    case (Int(x), Int(y)) => x == y
    case (Real(x), Real(y)) => f.same(x, y)
    case (Bool(x), Bool(y)) => x == y
    case (Text(x), Text(y)) => x == y
    case (Int(x), Real(y)) => f.same(f.ofInt(x), y)
    case (Real(x), Int(y)) => f.same(x, f.ofInt(y))
    case _ => false
  }

  predicate Compatible(t: ValueType, v: Value) {
    match t
    case IntType => v.Int?
    case RealType => v.Real? || v.Int?
    case BoolType => v.Bool?
    case TextType => v.Text?
  }

  // ----- what every stored table satisfies -----

  predicate HasColumn(columns: seq<Column>, name: Bytes) {
    exists k :: 0 <= k < |columns| && columns[k].name == name
  }

  /** The first column of that name. */
  function FindColumn(columns: seq<Column>, name: Bytes): (c: Option<Column>)
    ensures c.Some? <==> HasColumn(columns, name)
    ensures c.Some? ==> c.value in columns && c.value.name == name
  {
    if columns == [] then None
    else if columns[0].name == name then Some(columns[0])
    else FindColumn(columns[1..], name)
  }

  ghost predicate DistinctNames(columns: seq<Column>) {
    forall j, k :: 0 <= j < k < |columns| ==> columns[j].name != columns[k].name
  }

  /** Only declared columns, with values of their types, and all required ones. */
  ghost predicate RowFits(columns: seq<Column>, row: Row) {
    && (forall name <- row.Keys :: FindColumn(columns, name).Some? && Compatible(FindColumn(columns, name).value.kind, row[name]))
    && forall c <- columns :: c.required ==> c.name in row
  }

  predicate IsConstrained(c: Column) {
    c.unique || c.key
  }

  /** The two rows have the same value in a unique or key column. */
  ghost predicate Clash(f: Reals, columns: seq<Column>, a: Row, b: Row) {
    exists c :: c in columns && ClashIn(f, c, a, b)
  }

  predicate ClashIn(f: Reals, c: Column, a: Row, b: Row) {
    IsConstrained(c) && c.name in a && c.name in b && SameValue(f, a[c.name], b[c.name])
  }

  ghost predicate GoodTable(f: Reals, t: Table) {
    && DistinctNames(t.columns)
    && (forall c <- t.columns :: c.name != "" && (c.key ==> c.unique && c.required))
    && (forall row <- t.rows :: RowFits(t.columns, row))
    && forall i, j :: 0 <= i < |t.rows| && 0 <= j < |t.rows| && i != j ==> !Clash(f, t.columns, t.rows[i], t.rows[j])
  }

  ghost predicate GoodTables(f: Reals, tables: Tables) {
    forall name <- tables.Keys :: name != "" && tables[name].name == name && GoodTable(f, tables[name])
  }

  // ----- the file: writing -----

  /** Some order in which to go through the keys of a map. */
  ghost predicate Enumerates(order: set<Bytes> -> seq<Bytes>) {
    forall keys :: ListOf(order(keys), keys)
  }

  ghost predicate ListOf(names: seq<Bytes>, keys: set<Bytes>) {
    && (forall name :: name in keys <==> name in names)
    && forall i, j :: 0 <= i < j < |names| ==> names[i] != names[j]
  }

  function Encode(f: Reals, v: Value): Bytes {
    match v
    case Int(_) => "0:" + Hex(ValueText(f, v))
    case Real(_) => "1:" + Hex(ValueText(f, v))
    case Bool(_) => "2:" + Hex(ValueText(f, v))
    case Text(_) => "3:" + Hex(ValueText(f, v))
  }

  function Flag(b: bool): Bytes {
    if b then "1" else "0"
  }

  function ColumnLine(c: Column): string {
    Join(["COL", Hex(c.name), TypeName(c.kind), Flag(c.required), Flag(c.unique), Flag(c.key)])
  }

  function ColumnLines(columns: seq<Column>): File {
    if columns == [] then [] else [ColumnLine(columns[0])] + ColumnLines(columns[1..])
  }

  function ValueLine(f: Reals, name: Bytes, v: Value): string {
    Join(["VAL", Hex(name), Encode(f, v)])
  }

  function ValueLines(f: Reals, row: Row, names: seq<Bytes>): File
    requires forall name <- names :: name in row
  {
    if names == [] then [] else [ValueLine(f, names[0], row[names[0]])] + ValueLines(f, row, names[1..])
  }

  function RowLines(f: Reals, order: set<Bytes> -> seq<Bytes>, rows: seq<Row>): File
    requires Enumerates(order)
  {
    if rows == [] then []
    else
      assert ListOf(order(rows[0].Keys), rows[0].Keys);
      [RowLine(rows[0])] + ValueLines(f, rows[0], order(rows[0].Keys)) + RowLines(f, order, rows[1..])
  }

  function RowLine(row: Row): string {
    Join(["ROW", D.Text(|row|)])
  }

  function TableLine(t: Table, name: Bytes): string {
    Join(["TABLE", Hex(name), D.Text(|t.columns|), D.Text(|t.rows|)])
  }

  function TableLines(f: Reals, order: set<Bytes> -> seq<Bytes>, name: Bytes, t: Table): File
    requires Enumerates(order)
  {
    [TableLine(t, name)] + ColumnLines(t.columns) + RowLines(f, order, t.rows) + ["ENDTABLE"]
  }

  function AllTableLines(f: Reals, order: set<Bytes> -> seq<Bytes>, tables: Tables, names: seq<Bytes>): File
    requires Enumerates(order) && forall name <- names :: name in tables
  {
    if names == [] then []
    else TableLines(f, order, names[0], tables[names[0]]) + AllTableLines(f, order, tables, names[1..])
  }

  const HEADER := "NQDB1"

  function Save(f: Reals, order: set<Bytes> -> seq<Bytes>, tables: Tables): File
    requires Enumerates(order)
  {
    assert ListOf(order(tables.Keys), tables.Keys);
    [HEADER] + AllTableLines(f, order, tables, order(tables.Keys))
  }

  // ----- the file: reading -----

  /** The first colon splits the kind from the hexadecimal text. */
  function ColonAt(s: string): Option<nat> {
    if s == "" then None
    else if s[0] == ':' then Some(0)
    else (match ColonAt(s[1..]) case Some(k) => Some(k + 1) case None => None)
  }

  lemma {:induction false} ColonInside(s: string)
    ensures ColonAt(s).Some? ==> ColonAt(s).value < |s|
  {
    if s != "" { ColonInside(s[1..]); }
  }

  function Decode(f: Reals, s: string): Option<Value> {
    match ColonAt(s)
    case None => None
    case Some(p) =>
      ColonInside(s);
      match (ParseInt(s[..p]), Unhex(s[p + 1..]))
      case (Some(kind), Some(raw)) => DecodeAs(f, kind, raw)
      case _ => None
  }

  function DecodeAs(f: Reals, kind: int, raw: Bytes): Option<Value> {
    if kind == 0 then
      (match ParseInt(raw)
       case Some(n) => if MIN <= n <= MAX then Some(Int(n)) else None
       case None => None)
    else if kind == 1 then (match f.read(raw) case Some(d) => Some(Real(d)) case None => None)
    else if kind == 2 then Some(Bool(raw == "true"))
    else if kind == 3 then Some(Text(raw))
    else None
  }

  datatype Loader = Loader(tables: Tables, current: Option<Bytes>, columns: nat, rows: nat, seen: nat)

  predicate InTable(st: Loader) {
    st.current.Some? && st.current.value in st.tables
  }

  /** A row's value lines. */
  function ReadValues(f: Reals, lines: File, n: nat, row: Row): (r: Option<(Row, File)>)
    ensures r.Some? ==> |r.value.1| <= |lines|
    decreases n
  {
    if n == 0 then Some((row, lines))
    else if lines == [] || WordAt(lines[0], 0) != "VAL" then None
    else
      match (Unhex(WordAt(lines[0], 1)), Decode(f, WordAt(lines[0], 2)))
      case (Some(name), Some(v)) => ReadValues(f, lines[1..], n - 1, row[name := v])
      case _ => None
  }

  function ReadColumn(line: string): Option<Column> {
    match (Unhex(WordAt(line, 1)), ParseType(WordAt(line, 2)))
    case (Some(name), Some(kind)) =>
      Some(Column(name, kind, NumberAt(line, 3) != 0, NumberAt(line, 4) != 0, NumberAt(line, 5) != 0))
    case _ => None
  }

  function OpenTable(st: Loader, line: string): Option<Loader> {
    match Unhex(WordAt(line, 1))
    case None => None
    case Some(name) => Some(Loader(st.tables[name := Table(name, [], [])], Some(name), NumberAt(line, 2), NumberAt(line, 3), 0))
  }

  function WithColumn(st: Loader, c: Column): Loader
    requires InTable(st)
  {
    var t := st.tables[st.current.value];
    st.(tables := st.tables[st.current.value := t.(columns := t.columns + [c])])
  }

  function WithRow(st: Loader, row: Row): Loader
    requires InTable(st)
  {
    var t := st.tables[st.current.value];
    st.(tables := st.tables[st.current.value := t.(rows := t.rows + [row])], seen := st.seen + 1)
  }

  function LoadLines(f: Reals, lines: File, st: Loader): Option<Tables>
    decreases |lines|
  {
    if lines == [] then if st.current.Some? then None else Some(st.tables)
    else
      var op := WordAt(lines[0], 0);
      if op == "TABLE" then
        match OpenTable(st, lines[0]) case None => None case Some(st') => LoadLines(f, lines[1..], st')
      else if op == "COL" && InTable(st) then
        match ReadColumn(lines[0]) case None => None case Some(c) => LoadLines(f, lines[1..], WithColumn(st, c))
      else if op == "ROW" && InTable(st) then
        match ReadValues(f, lines[1..], NumberAt(lines[0], 1), map[])
        case None => None
        case Some((row, rest)) => LoadLines(f, rest, WithRow(st, row))
      else if op == "ENDTABLE" && InTable(st) then
        if |st.tables[st.current.value].columns| != st.columns || st.seen != st.rows then None
        else LoadLines(f, lines[1..], st.(current := None))
      else if op == "" then LoadLines(f, lines[1..], st)
      else None
  }

  /** What a database file holds; None for one that is damaged. */
  function Load(f: Reals, file: File): Option<Tables> {
    if file == [] || file[0] != HEADER then None else LoadLines(f, file[1..], Loader(map[], None, 0, 0, 0))
  }
}
