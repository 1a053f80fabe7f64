/** The index of a room's files: their passages, kept up to date file by file, up to a limit. */
module CodebaseIndex {
  import opened Strings

  type Path = string

  const MOST_PASSAGES: nat := 8000

  datatype File = File(path: Path, text: string)

  datatype Row = Row(id: int, path: Path, piece: string)

  /** The two tables: each indexed file's hash, and the passages in the order they were put in. */
  datatype Db = Db(files: map<Path, string>, rows: seq<Row>)

  /** How texts are hashed, and how a file is cut. */
  datatype Ways = Ways(hash: string -> string, cut: (Path, string) -> seq<string>)

  /** No two texts have the same hash. */
  ghost predicate Injective(w: Ways) {
    forall a, b :: w.hash(a) == w.hash(b) ==> a == b
  }

  // ----- the tables

  /** The passages of one file, in order. */
  function RowsOf(rows: seq<Row>, path: Path): seq<string>
    decreases |rows|
  {
    if rows == [] then [] else
      RowsOf(rows[..|rows| - 1], path) + if rows[|rows| - 1].path == path then [rows[|rows| - 1].piece] else []
  }

  /** The rows of all files but these. */
  function Without(rows: seq<Row>, paths: set<Path>): (left: seq<Row>)
    ensures |left| <= |rows|
    ensures forall r :: r in left <==> r in rows && r.path !in paths
    decreases |rows|
  {
    if rows == [] then [] else
      Without(rows[..|rows| - 1], paths) + if rows[|rows| - 1].path in paths then [] else [rows[|rows| - 1]]
  }

  /** Ids go up, so none is there twice. */
  ghost predicate Ascending(rows: seq<Row>) {
    forall i, j :: 0 <= i < j < |rows| ==> rows[i].id < rows[j].id
  }

  function NextId(rows: seq<Row>): (id: int)
    ensures forall r :: r in rows ==> r.id < id
    decreases |rows|
  {
    if rows == [] then 1 else
      var before, last := NextId(rows[..|rows| - 1]), rows[|rows| - 1].id;
      if last < before then before else last + 1
  }

  function Numbered(path: Path, pieces: seq<string>, id: int): (rows: seq<Row>)
    ensures |rows| == |pieces| && forall i :: 0 <= i < |rows| ==> rows[i] == Row(id + i, path, pieces[i])
  {
    seq(|pieces|, i requires 0 <= i < |pieces| => Row(id + i, path, pieces[i]))
  }

  // ----- bringing it up to date

  /** Files that are new or have another hash. */
  function Changed(db: Db, files: seq<File>, w: Ways): (changed: seq<File>)
    ensures forall f :: f in changed <==> f in files && !Known(db, f, w)
    decreases |files|
  {
    if files == [] then [] else
      var f := files[|files| - 1];
      Changed(db, files[..|files| - 1], w) + if Known(db, f, w) then [] else [f]
  }

  predicate Known(db: Db, f: File, w: Ways) {
    f.path in db.files && db.files[f.path] == w.hash(f.text)
  }

  function Paths(files: seq<File>): (paths: set<Path>)
    ensures forall f :: f in files ==> f.path in paths
  {
    set f | f in files :: f.path
  }

  function Cleared(db: Db, paths: set<Path>): Db {
    Db(db.files - paths, Without(db.rows, paths))
  }

  /** The loop over changed files: each is put in if its passages still fit. */
  function Inserted(db: Db, changed: seq<File>, id: int, w: Ways): Db
    decreases |changed|
  {
    if changed == [] then db else
      var before, f := Inserted(db, changed[..|changed| - 1], id, w), changed[|changed| - 1];
      var pieces := w.cut(f.path, f.text);
      if |before.rows| + |pieces| > MOST_PASSAGES then before
      else Db(before.files[f.path := w.hash(f.text)],
        before.rows + Numbered(f.path, pieces, id + |before.rows| - |db.rows|))
  }

  /** Whether one of them does not fit. */
  function LeavesOut(db: Db, changed: seq<File>, id: int, w: Ways): bool
    decreases |changed|
  {
    if changed == [] then false else
      var front, f := changed[..|changed| - 1], changed[|changed| - 1];
      LeavesOut(db, front, id, w) || |Inserted(db, front, id, w).rows| + |w.cut(f.path, f.text)| > MOST_PASSAGES
  }

  function Refreshed(db: Db, files: seq<File>, w: Ways): Db {
    var changed := Changed(db, files, w);
    var gone := db.files.Keys - Paths(files);
    if gone == {} && changed == [] then db
    else Inserted(Cleared(db, gone + Paths(changed)), changed, NextId(db.rows), w)
  }

  function LeavesOutAny(db: Db, files: seq<File>, w: Ways): bool {
    var changed := Changed(db, files, w);
    var gone := db.files.Keys - Paths(files);
    !(gone == {} && changed == []) && LeavesOut(Cleared(db, gone + Paths(changed)), changed, NextId(db.rows), w)
  }

  // ----- what an index is

  ghost predicate DistinctPaths(files: seq<File>) {
    forall i, j :: 0 <= i < j < |files| ==> files[i].path != files[j].path
  }

  /** An indexed file has this text's hash, and just its passages, in order. */
  ghost predicate Indexed(db: Db, f: File, w: Ways) {
    f.path in db.files && db.files[f.path] == w.hash(f.text) && RowsOf(db.rows, f.path) == w.cut(f.path, f.text)
  }

  /**
   * Files are indexed as they are or not at all, others not; and there are at most so many passages,
   * with ids of their own.
   */
  ghost predicate Exact(db: Db, files: seq<File>, w: Ways) {
    && (forall f :: f in files && f.path in db.files ==> Indexed(db, f, w))
    && db.files.Keys <= Paths(files)
    && (forall r :: r in db.rows ==> r.path in db.files)
    && Ascending(db.rows) && |db.rows| <= MOST_PASSAGES
  }

  lemma {:induction false} RowsOfConcat(a: seq<Row>, b: seq<Row>, path: Path)
    ensures RowsOf(a + b, path) == RowsOf(a, path) + RowsOf(b, path)
    decreases |b|
  {
    if b == [] {
      assert a + b == a;
    } else {
      assert (a + b)[..|a + b| - 1] == a + b[..|b| - 1];
      RowsOfConcat(a, b[..|b| - 1], path);
    }
  }

  lemma {:induction false} RowsOfNumbered(path: Path, pieces: seq<string>, id: int, other: Path)
    ensures RowsOf(Numbered(path, pieces, id), other) == if other == path then pieces else []
    decreases |pieces|
  {
    if pieces != [] {
      var front := pieces[..|pieces| - 1];
      RowsOfNumbered(path, front, id, other);
      assert Numbered(path, pieces, id)[..|pieces| - 1] == Numbered(path, front, id);
      assert front + [pieces[|pieces| - 1]] == pieces;
    }
  }

  lemma {:induction false} NoRowsOf(rows: seq<Row>, path: Path)
    requires forall r :: r in rows ==> r.path != path
    ensures RowsOf(rows, path) == []
    decreases |rows|
  {
    if rows != [] { NoRowsOf(rows[..|rows| - 1], path); }
  }

  lemma {:induction false} RowsOfWithout(rows: seq<Row>, paths: set<Path>, path: Path)
    requires path !in paths
    ensures RowsOf(Without(rows, paths), path) == RowsOf(rows, path)
    decreases |rows|
  {
    if rows != [] {
      var front, last := rows[..|rows| - 1], rows[|rows| - 1];
      RowsOfWithout(front, paths, path);
      var left := Without(front, paths);
      if last.path in paths {
        assert left + [] == left;
      } else {
        assert (left + [last])[..|left|] == left;
      }
    }
  }

  lemma {:induction false} AscendingWithout(rows: seq<Row>, paths: set<Path>)
    requires Ascending(rows)
    ensures Ascending(Without(rows, paths))
    decreases |rows|
  {
    if rows != [] {
      AscendingWithout(rows[..|rows| - 1], paths);
      var left := Without(rows[..|rows| - 1], paths);
      assert forall i :: 0 <= i < |left| ==> left[i] in left;
      assert forall r :: r in left ==> r.id < rows[|rows| - 1].id;
    }
  }

  lemma AscendingNumbered(rows: seq<Row>, path: Path, pieces: seq<string>, id: int)
    requires Ascending(rows) && forall r :: r in rows ==> r.id < id
    ensures var all := rows + Numbered(path, pieces, id);
      Ascending(all) && forall r :: r in all ==> r.id < id + |pieces|
  {
    assert forall i :: 0 <= i < |rows| ==> rows[i] in rows;
    var more := Numbered(path, pieces, id);
    forall r | r in more ensures r.id < id + |pieces| {
      var i :| 0 <= i < |more| && more[i] == r;
    }
  }

  lemma {:induction false} ChangedDistinct(db: Db, files: seq<File>, w: Ways)
    requires DistinctPaths(files)
    ensures DistinctPaths(Changed(db, files, w))
    decreases |files|
  {
    hide Known;
    if files != [] {
      var front, f := files[..|files| - 1], files[|files| - 1];
      ChangedDistinct(db, front, w);
      var before := Changed(db, front, w);
      forall i | 0 <= i < |before| ensures before[i].path != f.path {
        assert before[i] in before && before[i] in front;
      }
    }
  }

  lemma ClearedExact(db: Db, was: seq<File>, files: seq<File>, w: Ways)
    requires Exact(db, was, w) && Injective(w) && DistinctPaths(files)
    ensures var changed := Changed(db, files, w);
      var c := Cleared(db, db.files.Keys - Paths(files) + Paths(changed));
      && Exact(c, files, w)
      && (forall f :: f in files ==> f in changed || f.path in c.files)
      && forall f :: f in changed ==> f.path !in c.files
  {
    var changed := Changed(db, files, w);
    var paths := db.files.Keys - Paths(files) + Paths(changed);
    var c := Cleared(db, paths);
    AscendingWithout(db.rows, paths);
    hide Ascending, Known;
    forall f | f in files && f !in changed ensures f.path in c.files {
      assert Known(db, f, w);
    }
    forall f | f in files && f.path in c.files ensures Indexed(c, f, w) {
      assert f !in changed;
      RowsOfWithout(db.rows, paths, f.path);
    }
  }

  /** One more file put in. */
  lemma InsertedOne(x: Db, files: seq<File>, f: File, id: int, w: Ways)
    requires Exact(x, files, w) && DistinctPaths(files) && f in files && f.path !in x.files
    requires |x.rows| + |w.cut(f.path, f.text)| <= MOST_PASSAGES && forall r :: r in x.rows ==> r.id < id
    ensures var pieces := w.cut(f.path, f.text);
      var y := Db(x.files[f.path := w.hash(f.text)], x.rows + Numbered(f.path, pieces, id));
      Exact(y, files, w) && forall r :: r in y.rows ==> r.id < id + |pieces|
  {
    var pieces := w.cut(f.path, f.text);
    var y := Db(x.files[f.path := w.hash(f.text)], x.rows + Numbered(f.path, pieces, id));
    AscendingNumbered(x.rows, f.path, pieces, id);
    hide Ascending;
    forall g | g in files && g.path in y.files ensures Indexed(y, g, w) {
      if g.path != f.path { assert Indexed(x, g, w); }
      IndexedStill(x, f, id, g, w);
    }
  }

  lemma RowsOfMore(rows: seq<Row>, path: Path, pieces: seq<string>, id: int, other: Path)
    requires other == path ==> RowsOf(rows, path) == []
    ensures RowsOf(rows + Numbered(path, pieces, id), other) == if other == path then pieces else RowsOf(rows, other)
  {
    RowsOfConcat(rows, Numbered(path, pieces, id), other);
    RowsOfNumbered(path, pieces, id, other);
    hide RowsOf, Numbered;
    assert [] + pieces == pieces && RowsOf(rows, other) + [] == RowsOf(rows, other);
  }

  lemma IndexedStill(x: Db, f: File, id: int, g: File, w: Ways)
    requires if g == f then forall r :: r in x.rows ==> r.path != f.path else g.path != f.path && Indexed(x, g, w)
    ensures Indexed(Db(x.files[f.path := w.hash(f.text)], x.rows + Numbered(f.path, w.cut(f.path, f.text), id)), g, w)
  {
    if g == f { NoRowsOf(x.rows, f.path); }
    RowsOfMore(x.rows, f.path, w.cut(f.path, f.text), id, g.path);
    hide RowsOf, Numbered;
  }

  /** What `x` has over `c`: files of this list, and ids from `id` on. */
  ghost predicate Grown(c: Db, x: Db, paths: set<Path>, id: int) {
    && |x.rows| >= |c.rows| && (forall r :: r in x.rows ==> r.id < id + |x.rows| - |c.rows|)
    && c.files.Keys <= x.files.Keys <= c.files.Keys + paths
  }

  lemma GrownOne(c: Db, x: Db, paths: set<Path>, id: int, files: seq<File>, f: File, w: Ways)
    requires Exact(x, files, w) && DistinctPaths(files) && f in files && f.path !in c.files && f.path !in paths
    requires Grown(c, x, paths, id) && |x.rows| + |w.cut(f.path, f.text)| <= MOST_PASSAGES
    ensures var y := Db(x.files[f.path := w.hash(f.text)],
      x.rows + Numbered(f.path, w.cut(f.path, f.text), id + |x.rows| - |c.rows|));
      Exact(y, files, w) && Grown(c, y, paths + {f.path}, id)
  {
    hide Exact, Numbered;
    InsertedOne(x, files, f, id + |x.rows| - |c.rows|, w);
  }

  /** Nothing is lost on the way, and what is put in is files of the list. */
  lemma {:induction false} InsertedExact(c: Db, files: seq<File>, changed: seq<File>, id: int, w: Ways)
    requires Exact(c, files, w) && DistinctPaths(files) && DistinctPaths(changed)
    requires forall f :: f in changed ==> f in files && f.path !in c.files
    requires forall r :: r in c.rows ==> r.id < id
    ensures Exact(Inserted(c, changed, id, w), files, w) && Grown(c, Inserted(c, changed, id, w), Paths(changed), id)
    decreases |changed|
  {
    hide Exact;
    if changed != [] {
      var front, f := changed[..|changed| - 1], changed[|changed| - 1];
      InsertedExact(c, files, front, id, w);
      var before := Inserted(c, front, id, w);
      PathsOfMore(front, f);
      assert front + [f] == changed;
      hide Paths, Numbered, DistinctPaths;
      if |before.rows| + |w.cut(f.path, f.text)| <= MOST_PASSAGES {
        hide Grown;
        GrownOne(c, before, Paths(front), id, files, f, w);
      }
    }
  }

  lemma PathsOfMore(files: seq<File>, f: File)
    ensures Paths(files + [f]) == Paths(files) + {f.path}
    ensures f.path in Paths(files) ==> exists g :: g in files && g.path == f.path
  {
    assert forall g :: g in files + [f] <==> g in files || g == f;
  }

  /** From any index that was exact for the files as they were, to one that is for the files as they are. */
  lemma RefreshedExact(db: Db, was: seq<File>, files: seq<File>, w: Ways)
    requires Exact(db, was, w) && Injective(w) && DistinctPaths(files)
    ensures Exact(Refreshed(db, files, w), files, w)
  {
    var changed := Changed(db, files, w);
    var gone := db.files.Keys - Paths(files);
    ClearedExact(db, was, files, w);
    ChangedDistinct(db, files, w);
    hide Exact, Changed, Inserted;
    var c := Cleared(db, gone + Paths(changed));
    if gone == {} && changed == [] {
      NothingCleared(db);
    } else {
      InsertedExact(c, files, changed, NextId(db.rows), w);
    }
  }

  lemma {:induction false} NothingWithout(rows: seq<Row>)
    ensures Without(rows, {}) == rows
    decreases |rows|
  {
    if rows != [] {
      NothingWithout(rows[..|rows| - 1]);
      assert rows[..|rows| - 1] + [rows[|rows| - 1]] == rows;
    }
  }

  lemma NothingCleared(db: Db)
    ensures Cleared(db, {} + Paths([])) == db
  {
    assert {} + Paths([]) == {} && db.files - {} == db.files;
    NothingWithout(db.rows);
  }

  /** However the files change between them, after any number of refreshes the index is exact for the last files. */
  lemma {:induction false} EveryRefreshExact(snapshots: seq<seq<File>>, w: Ways)
    requires Injective(w) && snapshots != [] && forall files :: files in snapshots ==> DistinctPaths(files)
    ensures Exact(AfterAll(snapshots, w), snapshots[|snapshots| - 1], w)
    decreases |snapshots|
  {
    var front := snapshots[..|snapshots| - 1];
    hide Exact, Refreshed, Injective, DistinctPaths;
    if front == [] {
      RefreshedExact(Db(map[], []), [], snapshots[0], w);
    } else {
      EveryRefreshExact(front, w);
      RefreshedExact(AfterAll(front, w), front[|front| - 1], snapshots[|snapshots| - 1], w);
    }
  }

  function AfterAll(snapshots: seq<seq<File>>, w: Ways): Db
    decreases |snapshots|
  {
    if snapshots == [] then Db(map[], [])
    else Refreshed(AfterAll(snapshots[..|snapshots| - 1], w), snapshots[|snapshots| - 1], w)
  }

  // ----- when every file is in it

  function Total(files: seq<File>, w: Ways): nat
    decreases |files|
  {
    if files == [] then 0 else
      Total(files[..|files| - 1], w) + |w.cut(files[|files| - 1].path, files[|files| - 1].text)|
  }

  function Counted(rows: seq<Row>, files: seq<File>): nat
    decreases |files|
  {
    if files == [] then 0 else Counted(rows, files[..|files| - 1]) + |RowsOf(rows, files[|files| - 1].path)|
  }

  /** One row more counts once. */
  lemma {:induction false} CountedOne(rows: seq<Row>, r: Row, files: seq<File>)
    requires DistinctPaths(files)
    ensures Counted(rows + [r], files) == Counted(rows, files) + if r.path in Paths(files) then 1 else 0
    decreases |files|
  {
    if files != [] {
      var front, f := files[..|files| - 1], files[|files| - 1];
      CountedOne(rows, r, front);
      assert (rows + [r])[..|rows|] == rows;
      PathsOfMore(front, f);
      assert front + [f] == files;
    }
  }

  lemma {:induction false} CountedAll(rows: seq<Row>, files: seq<File>)
    requires DistinctPaths(files) && forall r :: r in rows ==> r.path in Paths(files)
    ensures Counted(rows, files) == |rows|
    decreases |rows|
  {
    if rows == [] {
      CountedNone(files);
    } else {
      var front, r := rows[..|rows| - 1], rows[|rows| - 1];
      assert front + [r] == rows && r in rows;
      CountedAll(front, files);
      CountedOne(front, r, files);
    }
  }

  lemma {:induction false} CountedNone(files: seq<File>)
    ensures Counted([], files) == 0
    decreases |files|
  {
    if files != [] { CountedNone(files[..|files| - 1]); }
  }

  /** Files that have their passages or none have at most the total; less those of one that has none. */
  lemma {:induction false} CountedAtMost(rows: seq<Row>, files: seq<File>, w: Ways, missing: File)
    requires forall f :: f in files ==> RowsOf(rows, f.path) == w.cut(f.path, f.text) || RowsOf(rows, f.path) == []
    requires RowsOf(rows, missing.path) == []
    ensures Counted(rows, files) <= Total(files, w)
    ensures missing in files ==> Counted(rows, files) + |w.cut(missing.path, missing.text)| <= Total(files, w)
    decreases |files|
  {
    hide RowsOf;
    if files != [] {
      var front, f := files[..|files| - 1], files[|files| - 1];
      assert f in files && forall g :: g in files <==> g in front || g == f;
      CountedAtMost(rows, front, w, missing);
    }
  }

  lemma {:induction false} CountedExactly(rows: seq<Row>, files: seq<File>, w: Ways)
    requires forall f :: f in files ==> RowsOf(rows, f.path) == w.cut(f.path, f.text)
    ensures Counted(rows, files) == Total(files, w)
    decreases |files|
  {
    hide RowsOf;
    if files != [] {
      assert files[|files| - 1] in files;
      CountedExactly(rows, files[..|files| - 1], w);
    }
  }

  ghost predicate AllIn(db: Db, files: seq<File>) {
    forall f :: f in files ==> f.path in db.files
  }

  /** What is not in the index yet has room in it, if there is room for everything. */
  lemma RoomForOneMore(x: Db, files: seq<File>, f: File, w: Ways)
    requires Exact(x, files, w) && DistinctPaths(files) && f in files && f.path !in x.files
      && Total(files, w) <= MOST_PASSAGES
    ensures |x.rows| + |w.cut(f.path, f.text)| <= MOST_PASSAGES
  {
    hide Ascending;
    NoRowsOf(x.rows, f.path);
    forall g | g in files ensures RowsOf(x.rows, g.path) == w.cut(g.path, g.text) || RowsOf(x.rows, g.path) == [] {
      if g.path !in x.files { NoRowsOf(x.rows, g.path); }
    }
    CountedAll(x.rows, files);
    CountedAtMost(x.rows, files, w, f);
  }

  lemma {:induction false} AllInserted(c: Db, files: seq<File>, changed: seq<File>, id: int, w: Ways)
    requires Exact(c, files, w) && DistinctPaths(files) && DistinctPaths(changed) && Total(files, w) <= MOST_PASSAGES
    requires forall f :: f in changed ==> f in files && f.path !in c.files
    requires forall r :: r in c.rows ==> r.id < id
    ensures AllIn(Inserted(c, changed, id, w), changed)
    decreases |changed|
  {
    if changed != [] {
      var front, f := changed[..|changed| - 1], changed[|changed| - 1];
      InsertedExact(c, files, front, id, w);
      AllInserted(c, files, front, id, w);
      RoomForOneMore(Inserted(c, front, id, w), files, f, w);
      hide Exact, Paths, Numbered, DistinctPaths, Grown;
    }
  }

  lemma ExactAllInFits(x: Db, files: seq<File>, w: Ways)
    requires Exact(x, files, w) && DistinctPaths(files) && AllIn(x, files)
    ensures Total(files, w) <= MOST_PASSAGES
  {
    hide Ascending;
    CountedExactly(x.rows, files, w);
    CountedAll(x.rows, files);
  }

  lemma {:induction false} FitsSoAllIn(db: Db, was: seq<File>, files: seq<File>, w: Ways)
    requires Exact(db, was, w) && Injective(w) && DistinctPaths(files) && Total(files, w) <= MOST_PASSAGES
    ensures AllIn(Refreshed(db, files, w), files)
  {
    var changed := Changed(db, files, w);
    var gone := db.files.Keys - Paths(files);
    ClearedExact(db, was, files, w);
    ChangedDistinct(db, files, w);
    hide Exact, Changed, Inserted;
    var c := Cleared(db, gone + Paths(changed));
    if gone == {} && changed == [] {
      NothingCleared(db);
    } else {
      AllInserted(c, files, changed, NextId(db.rows), w);
      InsertedExact(c, files, changed, NextId(db.rows), w);
    }
  }

  lemma LeavesOutMeans(db: Db, was: seq<File>, files: seq<File>, w: Ways)
    requires Exact(db, was, w) && Injective(w) && DistinctPaths(files)
    ensures LeavesOutAny(db, files, w) <==> !AllIn(Refreshed(db, files, w), files)
  {
    var changed := Changed(db, files, w);
    var gone := db.files.Keys - Paths(files);
    ClearedExact(db, was, files, w);
    ChangedDistinct(db, files, w);
    hide Exact, Changed, Inserted, LeavesOut;
    var c := Cleared(db, gone + Paths(changed));
    if gone == {} && changed == [] {
      NothingCleared(db);
    } else {
      InsertedExact(c, files, changed, NextId(db.rows), w);
      LeftOutIsMissing(c, files, changed, NextId(db.rows), w);
    }
  }

  /** A refresh leaves no file out, and says so, exactly when all their passages together are not too many. */
  lemma RefreshedComplete(db: Db, was: seq<File>, files: seq<File>, w: Ways)
    requires Exact(db, was, w) && Injective(w) && DistinctPaths(files)
    ensures AllIn(Refreshed(db, files, w), files) <==> Total(files, w) <= MOST_PASSAGES
    ensures LeavesOutAny(db, files, w) <==> Total(files, w) > MOST_PASSAGES
  {
    RefreshedExact(db, was, files, w);
    LeavesOutMeans(db, was, files, w);
    hide Exact, Refreshed, LeavesOutAny;
    if AllIn(Refreshed(db, files, w), files) { ExactAllInFits(Refreshed(db, files, w), files, w); }
    if Total(files, w) <= MOST_PASSAGES { FitsSoAllIn(db, was, files, w); }
  }

  /** Files are left out only when one does not fit, and then some are missing. */
  lemma {:induction false} LeftOutIsMissing(c: Db, files: seq<File>, changed: seq<File>, id: int, w: Ways)
    requires Exact(c, files, w) && DistinctPaths(files) && DistinctPaths(changed)
    requires forall f :: f in changed ==> f in files && f.path !in c.files
    requires forall r :: r in c.rows ==> r.id < id
    ensures LeavesOut(c, changed, id, w) == !AllIn(Inserted(c, changed, id, w), changed)
    decreases |changed|
  {
    hide Exact;
    if changed != [] {
      var front, f := changed[..|changed| - 1], changed[|changed| - 1];
      LeftOutIsMissing(c, files, front, id, w);
      InsertedExact(c, files, front, id, w);
      hide Paths, Numbered, DistinctPaths, LeavesOut;
      assert f in changed && forall g :: g in changed <==> g in front || g == f;
    }
  }

  /** A file is left out only when its passages do not fit beside all that is in. */
  lemma LeftOutFitsNot(db: Db, was: seq<File>, files: seq<File>, w: Ways, f: File)
    requires Exact(db, was, w) && Injective(w) && DistinctPaths(files) && f in files
    requires f.path !in Refreshed(db, files, w).files
    ensures |Refreshed(db, files, w).rows| + |w.cut(f.path, f.text)| > MOST_PASSAGES
  {
    var changed := Changed(db, files, w);
    var gone := db.files.Keys - Paths(files);
    ClearedExact(db, was, files, w);
    ChangedDistinct(db, files, w);
    hide Exact, Changed, Inserted;
    var c := Cleared(db, gone + Paths(changed));
    if gone == {} && changed == [] {
      NothingCleared(db);
    } else {
      InsertedExact(c, files, changed, NextId(db.rows), w);
      NotInserted(c, changed, NextId(db.rows), w, f);
    }
  }

  lemma {:induction false} NotInserted(c: Db, changed: seq<File>, id: int, w: Ways, f: File)
    requires f in changed && f.path !in Inserted(c, changed, id, w).files
    ensures |Inserted(c, changed, id, w).rows| + |w.cut(f.path, f.text)| > MOST_PASSAGES
    decreases |changed|
  {
    var front, last := changed[..|changed| - 1], changed[|changed| - 1];
    if f in front { NotInserted(c, front, id, w, f); }
    assert f in front || f == last;
    hide Numbered;
  }

  /** Ids go on from the greatest there is, from one in an empty table. */
  lemma {:induction false} NextIdFollows(rows: seq<Row>)
    requires forall r :: r in rows ==> r.id >= 1
    ensures rows == [] ==> NextId(rows) == 1
    ensures rows != [] ==> exists r :: r in rows && NextId(rows) == r.id + 1
    decreases |rows|
  {
    if rows != [] {
      var front, last := rows[..|rows| - 1], rows[|rows| - 1];
      NextIdFollows(front);
      assert last in rows && forall r :: r in front ==> r in rows;
    }
  }

  // ----- the index itself

  datatype Note = TooManyFiles | TooManyPassages

  class Index {
    const ways: Ways
    var files: map<Path, string>
    var rows: seq<Row>

    constructor (ways: Ways)
      ensures Now() == Db(map[], []) && this.ways == ways
    {
      this.ways, files, rows := ways, map[], [];
    }

    ghost function Now(): Db
      reads this
    {
      Db(files, rows)
    }

    /** `over` files were not read, as too many had been: of what was left out the last reason is told. */
    method Refresh(current: seq<File>, over: nat) returns (changes: nat, note: Option<Note>)
      requires DistinctPaths(current)
      modifies this
      ensures Now() == Refreshed(old(Now()), current, ways)
      ensures note == if LeavesOutAny(old(Now()), current, ways) then Some(TooManyPassages)
        else if over > 0 then Some(TooManyFiles) else None
      ensures changes == |old(files).Keys - Paths(current)| + |Changed(old(Now()), current, ways)|
    {
      var changed := ChangedFiles(current);
      var gone := files.Keys - Paths(current);
      note := if over > 0 then Some(TooManyFiles) else None;
      if gone == {} && changed == [] { return 0, note; }
      var id := NextId(rows);
      Clear(gone + Paths(changed));
      var leftOut := Insert(changed, id);
      if leftOut { note := Some(TooManyPassages); }
      return |gone| + |changed|, note;
    }

    method ChangedFiles(current: seq<File>) returns (changed: seq<File>)
      ensures changed == Changed(Now(), current, ways)
    {
      changed := [];
      for i := 0 to |current|
        invariant changed == Changed(Now(), current[..i], ways)
      {
        assert current[..i + 1][..i] == current[..i];
        var f := current[i];
        if !(f.path in files && files[f.path] == ways.hash(f.text)) { changed := changed + [f]; }
      }
      assert current[..|current|] == current;
    }

    /** Each path's passages and hash are deleted. */
    method Clear(paths: set<Path>)
      modifies this
      ensures Now() == Cleared(old(Now()), paths)
    {
      var left := paths;
      ghost var done: set<Path> := {};
      NothingWithout(rows);
      hide Without;
      while left != {}
        invariant paths == done + left && files == old(files) - done && rows == Without(old(rows), done)
        decreases left
      {
        var path :| path in left;
        WithoutMore(old(rows), done, path);
        files := files - {path};
        rows := Without(rows, {path});
        left, done := left - {path}, done + {path};
      }
      assert done == paths;
    }

    /** One file's passages, numbered, if there is room for them. */
    method PiecesOf(f: File, room: int, id: int) returns (fits: bool, more: seq<Row>)
      ensures fits == (|ways.cut(f.path, f.text)| <= room)
      ensures fits ==> more == Numbered(f.path, ways.cut(f.path, f.text), id)
    {
      var pieces := ways.cut(f.path, f.text);
      fits, more := |pieces| <= room, Numbered(f.path, pieces, id);
    }

    /** Each changed file is put in, if it still fits; `room` counts down. */
    method Insert(changed: seq<File>, firstId: int) returns (leftOut: bool)
      modifies this
      ensures Now() == Inserted(old(Now()), changed, firstId, ways)
      ensures leftOut == LeavesOut(old(Now()), changed, firstId, ways)
    {
      leftOut := false;
      var room, id, added := MOST_PASSAGES - |rows|, firstId, [];
      assert rows + added == rows;
      ghost var before := Now();
      hide Numbered, Inserted, LeavesOut;
      NoneInserted(before, firstId, ways);
      for i := 0 to |changed|
        invariant rows == before.rows && room == MOST_PASSAGES - |rows| - |added| && id == firstId + |added|
        invariant Db(files, rows + added) == Inserted(before, changed[..i], firstId, ways)
        invariant leftOut == LeavesOut(before, changed[..i], firstId, ways)
      {
        InsertMore(before, changed, i, firstId, ways, files, added);
        var fits, more := PiecesOf(changed[i], room, id);
        if !fits {
          leftOut := true;
          continue;
        }
        room, id, added := room - |more|, id + |more|, added + more;
        files := files[changed[i].path := ways.hash(changed[i].text)];
      }
      assert changed[..|changed|] == changed;
      rows := rows + added;
    }
  }

  lemma NoneInserted(db: Db, id: int, w: Ways)
    ensures Inserted(db, [], id, w) == db && !LeavesOut(db, [], id, w)
  {}

  lemma InsertMore(db: Db, changed: seq<File>, i: nat, id: int, w: Ways, files: map<Path, string>, added: seq<Row>)
    requires i < |changed| && Inserted(db, changed[..i], id, w) == Db(files, db.rows + added)
    ensures var f := changed[i];
      var pieces := w.cut(f.path, f.text);
      var fits := |db.rows| + |added| + |pieces| <= MOST_PASSAGES;
      && Inserted(db, changed[..i + 1], id, w)
         == (if fits then Db(files[f.path := w.hash(f.text)],
           db.rows + (added + Numbered(f.path, pieces, id + |added|)))
             else Db(files, db.rows + added))
      && LeavesOut(db, changed[..i + 1], id, w) == (LeavesOut(db, changed[..i], id, w) || !fits)
  {
    hide Inserted, LeavesOut, Numbered;
    InsertStep(db, changed, i, id, w);
    var more := Numbered(changed[i].path, w.cut(changed[i].path, changed[i].text), id + |added|);
    assert db.rows + (added + more) == db.rows + added + more;
  }

  lemma InsertStep(db: Db, changed: seq<File>, i: nat, id: int, w: Ways)
    requires i < |changed|
    ensures var x, f := Inserted(db, changed[..i], id, w), changed[i];
      var pieces := w.cut(f.path, f.text);
      var fits := |x.rows| + |pieces| <= MOST_PASSAGES;
      && Inserted(db, changed[..i + 1], id, w)
         == (if fits then Db(x.files[f.path := w.hash(f.text)],
           x.rows + Numbered(f.path, pieces, id + |x.rows| - |db.rows|)) else x)
      && LeavesOut(db, changed[..i + 1], id, w) == (LeavesOut(db, changed[..i], id, w) || !fits)
  {
    hide Numbered;
    assert changed[..i + 1][..i] == changed[..i];
  }

  lemma {:induction false} WithoutMore(rows: seq<Row>, paths: set<Path>, path: Path)
    ensures Without(Without(rows, paths), {path}) == Without(rows, paths + {path})
    decreases |rows|
  {
    if rows != [] {
      var front, last := rows[..|rows| - 1], rows[|rows| - 1];
      WithoutMore(front, paths, path);
      var left := Without(front, paths);
      if last.path in paths {
        assert left + [] == left;
      } else {
        assert (left + [last])[..|left|] == left;
      }
    }
  }
}
