/**
 What NoqeriDB files hold: a script that succeeds commits exactly the tables it ends with, and the next one starts
 from them.
 */
module DatabaseHistory {
  import opened Basics
  import opened Hexadecimal
  import opened Database
  import F = DatabaseFile
  import opened DatabaseScript
  import opened DatabaseSafety

  /** The tables of the file at a path, none if there is no file; None if it is damaged. */
  function TablesAt(f: Reals, disk: map<Path, File>, path: Path): Option<Tables> {
    if path in disk then Load(f, disk[path]) else Some(map[])
  }

  // ----- tables that were not changed are those of the file -----

  ghost predicate Clean(w: World, s: Running) {
    s.dirty || TablesAt(w.f, w.disk, s.path) == Some(s.tables)
  }

  lemma {:induction false} KeptAll(f: Reals, rows: seq<Row>, w: Condition)
    ensures |Kept(f, rows, w)| <= |rows|
    ensures |Kept(f, rows, w)| == |rows| ==> Kept(f, rows, w) == rows
  {
    hide Matches;
    if rows != [] {
      var n := |rows| - 1;
      KeptAll(f, rows[..n], w);
      assert rows == rows[..n] + [rows[n]];
    }
  }

  lemma {:induction false} PatchedNone(f: Reals, t: Table, patch: Row, w: Condition, i: nat)
    requires !AnyMatches(f, t.rows, w)
    ensures Patched(f, t, patch, w, i) == Some(t)
    decreases |t.rows| - i
  {
    hide Matches, Validates;
    if i < |t.rows| { PatchedNone(f, t, patch, w, i + 1); }
  }

  lemma StoredBack(tables: Tables, name: Bytes)
    requires name in tables
    ensures tables[name := tables[name]] == tables
  {
  }

  lemma DeleteClean(w: World, ts: seq<Token>, s: Running)
    requires Ready(ts, s) && ts[s.at].kind.Id? && Clean(w, s)
    ensures var r := DoDelete(w, ts, s); r.Some? ==> Clean(w, r.value)
  {
    hide ReadWhere, Kept, Load;
    var name := Named(ts, s);
    if name.Some? {
      KeptAll(w.f, s.tables[name.value].rows, ConditionOf(ReadWhere(w.f, ts, s.at + 2)));
      StoredBack(s.tables, name.value);
    }
  }

  lemma UpdateClean(w: World, ts: seq<Token>, s: Running)
    requires Ready(ts, s) && ts[s.at].kind.Id? && Clean(w, s)
    ensures var r := DoUpdate(w, ts, s); r.Some? ==> Clean(w, r.value)
  {
    hide ReadWhere, ReadObject, Patched, AnyMatches, Load, Lower;
    var name := Named(ts, s);
    if name.Some? && IsKeyword(ts[s.at + 2], "set") {
      var patch := ReadObject(w.f, ts, s.at + 3);
      if patch.Got? {
        var t, c := s.tables[name.value], ConditionOf(ReadWhere(w.f, ts, patch.next));
        if !AnyMatches(w.f, t.rows, c) { PatchedNone(w.f, t, patch.value, c, 0); }
        StoredBack(s.tables, name.value);
      }
    }
  }

  /** Whatever a statement does, the tables are dirty or those of the file. */
  lemma StatementClean(w: World, ts: seq<Token>, s: Running)
    requires Ready(ts, s) && Clean(w, s)
    ensures var r := DoStatement(w, ts, s); r.Some? ==> Clean(w, r.value)
  {
    hide DoDelete, DoUpdate, ReadColumns, ReadObject, ReadWhere, Load, IsKeyword, Validates, Answer, Heading;
    KeywordsAreIds(ts[s.at]);
    if ts[s.at].kind.Id? {
      DeleteClean(w, ts, s);
      UpdateClean(w, ts, s);
    }
  }

  lemma {:induction false} AllClean(w: World, ts: seq<Token>, s: Running)
    requires Ready(ts, s) && Clean(w, s)
    ensures var r := DoAll(w, ts, s); r.Some? ==> Clean(w, r.value)
    decreases |ts| - s.at
  {
    hide DoStatement, Script, TablesAt;
    if !ts[s.at].kind.End? {
      var r := DoStatement(w, ts, s);
      if r.Some? {
        StatementClean(w, ts, s);
        StillReady(w, ts, s);
        AllClean(w, ts, PastSemi(ts, r.value));
      }
    }
  }

  // ----- one script -----

  /** Where a script that succeeds ends: the statements run from the tables at its path, without an error. */
  function Ending(w: World, ts: seq<Token>, path: Path): Option<Running>
    requires Script(ts)
  {
    match TablesAt(w.f, w.disk, path)
    case None => None
    case Some(tables) => Finished(DoAll(w, ts, Running(0, path, tables, false, false, [])))
  }

  function Finished(r: Option<Running>): Option<Running> {
    if r.Some? && !r.value.failed then r else None
  }

  ghost predicate SameElsewhere(before: map<Path, File>, after: map<Path, File>, path: Path) {
    forall p :: p != path ==> (p in before <==> p in after) && (p in before ==> after[p] == before[p])
  }

  /** What a script commits: afterwards the path it ends at holds the tables it ends with, and no other file has changed. */
  ghost predicate Committed(f: Reals, before: map<Path, File>, after: map<Path, File>, s: Running) {
    TablesAt(f, after, s.path) == Some(s.tables) && SameElsewhere(before, after, s.path)
  }

  /** A script succeeds exactly if its statements do, and then commits what they leave; otherwise it changes no file. */
  lemma ScriptCommits(w: World, order: set<Bytes> -> seq<Bytes>, ts: seq<Token>, path: Path)
    requires Sound(w, order) && Script(ts)
    ensures var r, e := Execute(w, order, ts, path), Ending(w, ts, path);
            && (r.ok <==> e.Some?)
            && (r.ok ==> Committed(w.f, w.disk, r.disk, e.value))
            && (!r.ok ==> r.disk == w.disk)
  {
    hide GoodTables, DoAll, Load, Save, Faithful, GoodDisk;
    var start := TablesAt(w.f, w.disk, path);
    if start.Some? {
      assert GoodTables(w.f, start.value) by {
        if path in w.disk { LoadedGood(w, order, path); } else { NoTables(w.f); }
      }
      var s := Running(0, path, start.value, false, false, []);
      var e := DoAll(w, ts, s);
      if e.Some? {
        AllGood(w, order, ts, s);
        AllClean(w, ts, s);
        SavedHolds(w.f, order, e.value.tables);
      }
    }
  }

  lemma SavedHolds(f: Reals, order: set<Bytes> -> seq<Bytes>, tables: Tables)
    requires Faithful(f) && Enumerates(order) && GoodTables(f, tables)
    ensures Load(f, Save(f, order, tables)) == Some(tables)
  {
    hide Load, Save;
    GoodIsNamed(f, tables);
    F.SavedReadsBackIff(f, order, tables);
  }

  // ----- histories -----

  /** The tables at a path after a history: those the last successful script that ended there left, none before. */
  ghost function LastTables(f: Reals, order: set<Bytes> -> seq<Bytes>, jobs: seq<Job>, path: Path): Tables
    requires Enumerates(order) && forall job <- jobs :: Runnable(job)
    decreases |jobs|, 1
  {
    if jobs == [] then map[]
    else
      var n := |jobs| - 1;
      assert jobs[n] in jobs && Runnable(jobs[n]);
      var e := LastEnding(f, order, jobs);
      if e.Some? && e.value.path == path then e.value.tables else LastTables(f, order, jobs[..n], path)
  }

  /** Where the last script of a history ends, started on the tables the scripts before it left. */
  ghost function LastEnding(f: Reals, order: set<Bytes> -> seq<Bytes>, jobs: seq<Job>): Option<Running>
    requires Enumerates(order) && jobs != [] && forall job <- jobs :: Runnable(job)
    decreases |jobs|, 0
  {
    var n := |jobs| - 1;
    assert jobs[n] in jobs && Runnable(jobs[n]);
    var w := World(f, Replay(f, order, jobs[..n]), jobs[n].resolve);
    Finished(DoAll(w, jobs[n].tokens, Running(0, jobs[n].path, LastTables(f, order, jobs[..n], jobs[n].path), false, false, [])))
  }

  /** After any history every path holds the tables last committed there, so that the next script starts from them. */
  lemma {:induction false} HistoryCommits(f: Reals, order: set<Bytes> -> seq<Bytes>, jobs: seq<Job>, path: Path)
    requires Faithful(f) && Enumerates(order) && forall job <- jobs :: Runnable(job)
    ensures TablesAt(f, Replay(f, order, jobs), path) == Some(LastTables(f, order, jobs, path))
    decreases |jobs|
  {
    hide Load, Save, Faithful, Execute, Enumerates, DoAll, Runnable;
    if jobs != [] {
      var n := |jobs| - 1;
      var job, before := jobs[n], jobs[..n];
      assert job in jobs;
      HistoryCommits(f, order, before, path);
      HistoryCommits(f, order, before, job.path);
      HistoryIsSafe(f, order, before);
      var w := World(f, Replay(f, order, before), job.resolve);
      RunnableScript(job);
      ScriptCommits(w, order, job.tokens, job.path);
      assert Ending(w, job.tokens, job.path) == LastEnding(f, order, jobs);
    }
  }

  lemma RunnableScript(job: Job)
    ensures Runnable(job) <==> Script(job.tokens)
  {
  }

  // ----- changing the file -----

  /**
   A database statement with a path whose file can be read is accepted if it names the same path again, or there is
   no file at the old one, or there are no tables; it takes the tables of the new path, and those at hand are gone.
   */
  lemma DatabaseForgets(w: World, ts: seq<Token>, s: Running)
    requires Ready(ts, s) && ts[s.at].kind.Id? && ts[s.at + 1].kind.Str?
    ensures var requested, r := w.resolve(ts[s.at + 1].text), DoDatabase(w, ts, s);
            && (r.Some? <==> TablesAt(w.f, w.disk, requested).Some? && (s.path == requested || s.path !in w.disk || s.tables == map[]))
            && (r.Some? ==> r.value.path == requested && TablesAt(w.f, w.disk, requested) == Some(r.value.tables))
  {
    hide Load;
    assert |s.tables| == 0 <==> s.tables == map[];
  }

  const FORGETFUL: seq<Token> :=
    [Token(Id, "table"), Token(Id, "t"), Token(LBrace, "{"), Token(RBrace, "}"), Token(Id, "database"), Token(Str, "b"), Token(End, "")]

  /** `table t { } database "b"` with no files: the script succeeds, and the table is in none. */
  lemma UnsavedTableIsLost(f: Reals, order: set<Bytes> -> seq<Bytes>)
    requires Enumerates(order)
    ensures Script(FORGETFUL)
    ensures var w := World(f, map[], _ => "b");
            Execute(w, order, FORGETFUL, "a") == Ended(true, map["b" := Save(f, order, map[])])
  {
    var w := World(f, map[], _ => "b");
    var ts := FORGETFUL;
    KeywordsSpelled();
    hide Lower, Save;
    var s0 := Running(0, "a", map[], false, false, []);
    assert ReadColumns(ts, 3, []) == Got([], 4);
    var s1 := s0.(at := 4, tables := map["t" := Table("t", [], [])], dirty := true);
    assert DoStatement(w, ts, s0) == Some(s1);
    var s2 := s1.(at := 6, path := "b", tables := map[]);
    assert DoStatement(w, ts, s1) == Some(s2);
    assert DoAll(w, ts, s2) == Some(s2);
    assert DoAll(w, ts, s1) == Some(s2);
    assert DoAll(w, ts, s0) == Some(s2);
  }

  lemma KeywordsSpelled()
    ensures Lower("table") == "table" && Lower("database") == "database"
  {
    F.LowerOfLower("table");
    F.LowerOfLower("database");
  }
}
