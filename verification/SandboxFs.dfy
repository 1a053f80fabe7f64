/**
 * The sandbox's files and the agent that carries out the runner's operations on them in order; when a plain
 * file system would do the same.
 */
module SandboxFs {
  import opened Paths

  /** A file's text, or a binary file's bytes by their SHA-256. */
  datatype Data = Text(text: string) | Blob(sha: string)

  datatype Entry = Folder | File(data: Data)

  type Fs = map<Path, Entry>

  datatype Op = Delete(path: Path) | Mkdir(path: Path) | Write(path: Path, data: Data)

  /** Every entry lies in folders that exist. */
  ghost predicate TreeShaped(fs: Fs) {
    forall p, d :: p in fs && Ancestor(d, p) ==> d in fs && fs[d] == Folder
  }

  function FilesOf(fs: Fs): map<Path, Data> {
    map p | p in fs && fs[p].File? :: fs[p].data
  }

  /** `rm -rf`: the entry and all beneath it; nothing when it is missing. */
  function RemoveTree(fs: Fs, p: Path): Fs {
    map q | q in fs && q != p && !Ancestor(p, q) :: fs[q]
  }

  /** Make each of these a folder, replacing a file in the way. */
  function EnsureFolders(fs: Fs, ds: set<Path>): Fs {
    fs + map d | d in ds :: Folder
  }

  /** What the agent does for one operation. */
  function Apply(fs: Fs, op: Op): Fs {
    match op
    case Delete(p) => RemoveTree(fs, p)
    case Mkdir(p) => EnsureFolders(fs, Ancestors(p) + {p})
    case Write(p, data) =>
      var made := EnsureFolders(fs, Ancestors(p));
      (if p in fs && fs[p].Folder? then RemoveTree(made, p) else made)[p := File(data)]
  }

  function Run(fs: Fs, ops: seq<Op>): Fs
    decreases |ops|
  {
    if ops == [] then fs else Run(Apply(fs, ops[0]), ops[1..])
  }

  /**
   * An operation that a plain file system would carry out, without the agent's repairs: it
   * deletes something that is there and empty, makes a folder where nothing is, inside one
   * that is there, and writes inside a folder that is there and not over a folder.
   */
  ghost predicate Legal(fs: Fs, op: Op) {
    match op
    case Delete(p) => p in fs && forall q :: q in fs ==> !Ancestor(p, q)
    case Mkdir(p) => p !in fs && InFolders(fs, p)
    case Write(p, _) => InFolders(fs, p) && !(p in fs && fs[p].Folder?)
  }

  ghost predicate InFolders(fs: Fs, p: Path) {
    forall d :: Ancestor(d, p) ==> d in fs && fs[d] == Folder
  }

  ghost predicate AllLegal(fs: Fs, ops: seq<Op>)
    decreases |ops|
  {
    ops == [] || (Legal(fs, ops[0]) && AllLegal(Apply(fs, ops[0]), ops[1..]))
  }

  lemma {:induction false} RunConcat(fs: Fs, a: seq<Op>, b: seq<Op>)
    ensures Run(fs, a + b) == Run(Run(fs, a), b)
    ensures AllLegal(fs, a + b) <==> AllLegal(fs, a) && AllLegal(Run(fs, a), b)
    decreases |a|
  {
    if a == [] {
      assert a + b == b;
    } else {
      assert (a + b)[1..] == a[1..] + b;
      RunConcat(Apply(fs, a[0]), a[1..], b);
    }
  }

  function Elements(ps: seq<Path>): set<Path> {
    set p | p in ps
  }

  function Chosen(ps: seq<Path>, files: map<Path, Data>): map<Path, Data> {
    map p | p in ps && p in files :: files[p]
  }

  function Entries(ps: seq<Path>, files: map<Path, Data>): Fs {
    map p | p in ps && p in files :: File(files[p])
  }

  function DataAt(files: map<Path, Data>, p: Path): Data {
    if p in files then files[p] else Text("")
  }

  function Deletes(ps: seq<Path>): (ops: seq<Op>)
  {
    seq(|ps|, i requires 0 <= i < |ps| => Delete(ps[i]))
  }

  function Mkdirs(ps: seq<Path>): (ops: seq<Op>)
  {
    seq(|ps|, i requires 0 <= i < |ps| => Mkdir(ps[i]))
  }

  function Writes(ps: seq<Path>, files: map<Path, Data>): (ops: seq<Op>)
  {
    seq(|ps|, i requires 0 <= i < |ps| => Write(ps[i], DataAt(files, ps[i])))
  }

  // ----- what an operation does when it is legal

  lemma LegalMkdir(fs: Fs, p: Path)
    requires Legal(fs, Mkdir(p))
    ensures Apply(fs, Mkdir(p)) == fs[p := Folder]
  {}

  lemma LegalWrite(fs: Fs, p: Path, data: Data)
    requires Legal(fs, Write(p, data))
    ensures Apply(fs, Write(p, data)) == fs[p := File(data)]
  {}

  lemma RunLast(fs: Fs, ops: seq<Op>, op: Op)
    ensures Run(fs, ops + [op]) == Apply(Run(fs, ops), op)
    ensures AllLegal(fs, ops + [op]) <==> AllLegal(fs, ops) && Legal(Run(fs, ops), op)
  {
    RunConcat(fs, ops, [op]);
  }

  lemma OpsLast(init: seq<Path>, p: Path)
    ensures Deletes(init + [p]) == Deletes(init) + [Delete(p)]
    ensures Mkdirs(init + [p]) == Mkdirs(init) + [Mkdir(p)]
  {}

  lemma WritesLast(init: seq<Path>, p: Path, files: map<Path, Data>)
    ensures Writes(init + [p], files) == Writes(init, files) + [Write(p, DataAt(files, p))]
  {}

  lemma ElementsLast(init: seq<Path>, p: Path)
    ensures Elements(init + [p]) == Elements(init) + {p}
  {
    forall q ensures q in init + [p] <==> q in init || q == p {}
  }

  lemma UpdateLast<V>(a: map<Path, V>, b: map<Path, V>, p: Path, v: V)
    ensures (a + b)[p := v] == a + b[p := v]
  {}

  lemma ChosenLast(init: seq<Path>, p: Path, files: map<Path, Data>)
    requires p in files
    ensures Chosen(init + [p], files) == Chosen(init, files)[p := files[p]]
    ensures Entries(init + [p], files) == Entries(init, files)[p := File(files[p])]
  {
    forall q ensures q in init + [p] <==> q in init || q == p {}
  }

  lemma NoRuns(fs: Fs, files: map<Path, Data>)
    ensures AllLegal(fs, []) && Run(fs, []) == fs
    ensures Deletes([]) == Mkdirs([]) == Writes([], files) == []
    ensures fs - Elements([]) == EnsureFolders(fs, Elements([])) == fs + Entries([], files) == fs
  {
    assert EnsureFolders(fs, Elements([])) == fs;
  }

  // ----- what runs of one kind of operation do, when each is legal

  ghost predicate Distinct(ps: seq<Path>) {
    forall i, j :: 0 <= i < j < |ps| ==> ps[i] != ps[j]
  }

  /** Whatever lies beneath an entry of the list is listed before it. */
  ghost predicate BottomUp(fs: Fs, ps: seq<Path>) {
    forall i, q :: 0 <= i < |ps| && q in fs && Ancestor(ps[i], q) ==> q in ps[..i]
  }

  lemma {:induction false} DeleteAll(fs: Fs, ps: seq<Path>)
    requires Distinct(ps) && BottomUp(fs, ps)
    requires forall p :: p in ps ==> p in fs
    ensures AllLegal(fs, Deletes(ps))
    ensures Run(fs, Deletes(ps)) == fs - Elements(ps)
    decreases |ps|
  {
    NoRuns(fs, map[]);
    hide Apply, Legal, Ancestor, Elements, Run, AllLegal, Deletes;
    if ps != [] {
      var n := |ps| - 1;
      DeleteAll(fs, ps[..n]);
      DeleteNext(fs, ps[..n], ps[n]);
      assert ps == ps[..n] + [ps[n]];
    }
  }

  lemma DeleteNext(fs: Fs, gone: seq<Path>, p: Path)
    requires AllLegal(fs, Deletes(gone)) && Run(fs, Deletes(gone)) == fs - Elements(gone)
    requires p in fs && p !in gone
    requires forall q :: q in fs && Ancestor(p, q) ==> q in gone
    ensures AllLegal(fs, Deletes(gone + [p]))
    ensures Run(fs, Deletes(gone + [p])) == fs - Elements(gone + [p])
  {
    var before := fs - Elements(gone);
    assert Legal(before, Delete(p));
    hide *;
    OpsLast(gone, p);
    RunLast(fs, Deletes(gone), Delete(p));
    ElementsLast(gone, p);
    assert before - {p} == fs - (Elements(gone) + {p});
  }

  /** Folders above an entry are there already or listed before it. */
  ghost predicate TopDown(fs: Fs, ps: seq<Path>) {
    forall i, d :: 0 <= i < |ps| && Ancestor(d, ps[i]) ==> d in ps[..i] || (d in fs && fs[d] == Folder)
  }

  lemma {:induction false} MkdirAll(fs: Fs, ps: seq<Path>)
    requires Distinct(ps) && TopDown(fs, ps)
    requires forall p :: p in ps ==> p !in fs
    ensures AllLegal(fs, Mkdirs(ps))
    ensures Run(fs, Mkdirs(ps)) == EnsureFolders(fs, Elements(ps))
    decreases |ps|
  {
    NoRuns(fs, map[]);
    hide Apply, Legal, Ancestor, Elements, EnsureFolders, Run, AllLegal, Mkdirs;
    if ps != [] {
      var n := |ps| - 1;
      MkdirAll(fs, ps[..n]);
      MkdirNext(fs, ps[..n], ps[n]);
      assert ps == ps[..n] + [ps[n]];
    }
  }

  lemma MkdirNext(fs: Fs, made: seq<Path>, p: Path)
    requires AllLegal(fs, Mkdirs(made)) && Run(fs, Mkdirs(made)) == EnsureFolders(fs, Elements(made))
    requires p !in fs && p !in made
    requires forall d :: Ancestor(d, p) ==> d in made || (d in fs && fs[d] == Folder)
    ensures AllLegal(fs, Mkdirs(made + [p]))
    ensures Run(fs, Mkdirs(made + [p])) == EnsureFolders(fs, Elements(made + [p]))
  {
    hide *;
    NewFolder(fs, made, p);
    LegalMkdir(EnsureFolders(fs, Elements(made)), p);
    OpsLast(made, p);
    RunLast(fs, Mkdirs(made), Mkdir(p));
  }

  lemma NewFolder(fs: Fs, made: seq<Path>, p: Path)
    requires p !in fs && p !in made
    requires forall d :: Ancestor(d, p) ==> d in made || (d in fs && fs[d] == Folder)
    ensures Legal(EnsureFolders(fs, Elements(made)), Mkdir(p))
    ensures EnsureFolders(fs, Elements(made + [p])) == EnsureFolders(fs, Elements(made))[p := Folder]
  {
    hide Ancestor, Ancestors;
    ElementsLast(made, p);
  }

  /** Writing files inside folders that are there, none over a folder. */
  lemma {:induction false} WriteAll(fs: Fs, ps: seq<Path>, files: map<Path, Data>)
    requires forall p :: p in ps ==> p in files && InFolders(fs, p) && !(p in fs && fs[p].Folder?)
    ensures AllLegal(fs, Writes(ps, files))
    ensures Run(fs, Writes(ps, files)) == fs + Entries(ps, files)
    decreases |ps|
  {
    NoRuns(fs, files);
    hide Apply, Legal, InFolders, Run, AllLegal, Writes, Entries, DataAt;
    if ps != [] {
      var n := |ps| - 1;
      WriteAll(fs, ps[..n], files);
      WriteNext(fs, ps[..n], ps[n], files);
      assert ps == ps[..n] + [ps[n]];
    }
  }

  lemma WriteNext(fs: Fs, init: seq<Path>, p: Path, files: map<Path, Data>)
    requires p in files && InFolders(fs, p) && !(p in fs && fs[p].Folder?)
    requires forall q :: q in init ==> !(q in fs && fs[q].Folder?)
    requires AllLegal(fs, Writes(init, files)) && Run(fs, Writes(init, files)) == fs + Entries(init, files)
    ensures AllLegal(fs, Writes(init + [p], files))
    ensures Run(fs, Writes(init + [p], files)) == fs + Entries(init + [p], files)
  {
    var before := fs + Entries(init, files);
    assert DataAt(files, p) == files[p];
    hide *;
    LegalWrite(before, p, files[p]);
    WritesLast(init, p, files);
    RunLast(fs, Writes(init, files), Write(p, files[p]));
    ChosenLast(init, p, files);
    UpdateLast(fs, Entries(init, files), p, File(files[p]));
  }

  // ----- what they do to the files, whatever folders the sandbox has

  lemma RemoveTreeKeepsShape(fs: Fs, d: Path)
    requires TreeShaped(fs)
    ensures TreeShaped(RemoveTree(fs, d))
  {
    var next := RemoveTree(fs, d);
    forall p, a | p in next && Ancestor(a, p) ensures a in next && next[a] == Folder {
    }
  }

  lemma EnsureFoldersKeepsShape(fs: Fs, ds: set<Path>)
    requires TreeShaped(fs)
    requires forall d, a :: d in ds && Ancestor(a, d) ==> a in ds
    requires forall d :: d in ds ==> d !in FilesOf(fs)
    ensures TreeShaped(EnsureFolders(fs, ds)) && FilesOf(EnsureFolders(fs, ds)) == FilesOf(fs)
  {}

  /** Deleting folders drops the files at those very paths, when no file lies beneath them. */
  lemma {:induction false} DeleteFolders(fs: Fs, ds: seq<Path>)
    requires TreeShaped(fs)
    requires forall d, q :: d in ds && q in FilesOf(fs) ==> !Ancestor(d, q)
    ensures TreeShaped(Run(fs, Deletes(ds)))
    ensures FilesOf(Run(fs, Deletes(ds))) == FilesOf(fs) - Elements(ds)
    decreases |ds|
  {
    if ds == [] {
      assert FilesOf(fs) - Elements(ds) == FilesOf(fs);
    } else {
      var n := |ds| - 1;
      DeleteFolders(fs, ds[..n]);
      DeleteFoldersNext(fs, ds[..n], ds[n]);
      assert ds == ds[..n] + [ds[n]];
    }
  }

  lemma DeleteFoldersNext(fs: Fs, init: seq<Path>, d: Path)
    requires TreeShaped(Run(fs, Deletes(init)))
    requires FilesOf(Run(fs, Deletes(init))) == FilesOf(fs) - Elements(init)
    requires forall q :: q in FilesOf(fs) ==> !Ancestor(d, q)
    ensures TreeShaped(Run(fs, Deletes(init + [d])))
    ensures FilesOf(Run(fs, Deletes(init + [d]))) == FilesOf(fs) - Elements(init + [d])
  {
    var before := Run(fs, Deletes(init));
    assert TreeShaped(RemoveTree(before, d)) && FilesOf(RemoveTree(before, d)) == FilesOf(before) - {d} by {
      RemoveTreeKeepsShape(before, d);
    }
    hide *;
    OpsLast(init, d);
    RunLast(fs, Deletes(init), Delete(d));
    ElementsLast(init, d);
    assert (FilesOf(fs) - Elements(init)) - {d} == FilesOf(fs) - (Elements(init) + {d});
  }

  /** Making folders leaves the files alone, when none stands in the way. */
  lemma {:induction false} MakeFolders(fs: Fs, ds: seq<Path>)
    requires TreeShaped(fs)
    requires forall d :: d in ds ==> d !in FilesOf(fs) && forall a :: Ancestor(a, d) ==> a !in FilesOf(fs)
    ensures TreeShaped(Run(fs, Mkdirs(ds))) && FilesOf(Run(fs, Mkdirs(ds))) == FilesOf(fs)
    decreases |ds|
  {
    if ds != [] {
      var n := |ds| - 1;
      var init, d := ds[..n], ds[n];
      assert Mkdirs(ds) == Mkdirs(init) + [Mkdir(d)];
      assert forall q :: q in init ==> q in ds;
      MakeFolders(fs, init);
      RunLast(fs, Mkdirs(init), Mkdir(d));
      MakeOne(Run(fs, Mkdirs(init)), d);
    }
  }

  lemma MakeOne(fs: Fs, d: Path)
    requires TreeShaped(fs)
    requires d !in FilesOf(fs) && forall a :: Ancestor(a, d) ==> a !in FilesOf(fs)
    ensures TreeShaped(Apply(fs, Mkdir(d))) && FilesOf(Apply(fs, Mkdir(d))) == FilesOf(fs)
  {
    forall b, a | b in Ancestors(d) + {d} && Ancestor(a, b) ensures a in Ancestors(d) + {d} {
    }
    EnsureFoldersKeepsShape(fs, Ancestors(d) + {d});
  }

  lemma FolderGone(fs: Fs, p: Path)
    requires InFolders(fs, p)
    ensures InFolders(RemoveTree(fs, p), p) && forall q :: q in RemoveTree(fs, p) ==> q != p && !Ancestor(p, q)
  {}

  /** A file in folders that are there, where nothing lies beneath. */
  lemma PutInPlace(fs: Fs, p: Path, data: Data)
    requires TreeShaped(fs) && InFolders(fs, p) && forall q :: q in fs ==> !Ancestor(p, q)
    ensures TreeShaped(fs[p := File(data)]) && FilesOf(fs[p := File(data)]) == FilesOf(fs)[p := data]
  {
    hide Ancestor;
  }

  lemma WriteOne(fs: Fs, p: Path, data: Data)
    requires TreeShaped(fs)
    requires forall q :: q in FilesOf(fs) ==> !Ancestor(p, q) && !Ancestor(q, p)
    ensures TreeShaped(Apply(fs, Write(p, data)))
    ensures FilesOf(Apply(fs, Write(p, data))) == FilesOf(fs)[p := data]
  {
    forall b, a | b in Ancestors(p) && Ancestor(a, b) ensures a in Ancestors(p) { }
    EnsureFoldersKeepsShape(fs, Ancestors(p));
    var made := EnsureFolders(fs, Ancestors(p));
    assert InFolders(made, p);
    hide EnsureFolders, Ancestor, TreeShaped;
    if p in fs && fs[p].Folder? {
      RemoveTreeKeepsShape(made, p);
      FolderGone(made, p);
      PutInPlace(RemoveTree(made, p), p, data);
    } else {
      PutInPlace(made, p, data);
    }
  }

  /** Writing files changes just those files, when no file lies above or beneath one of them. */
  lemma {:induction false} WriteFiles(fs: Fs, ps: seq<Path>, files: map<Path, Data>)
    requires TreeShaped(fs)
    requires forall p :: p in ps ==> p in files
    requires forall p, q :: p in ps && (q in FilesOf(fs) || q in ps) ==> !Ancestor(p, q) && !Ancestor(q, p)
    ensures TreeShaped(Run(fs, Writes(ps, files)))
    ensures FilesOf(Run(fs, Writes(ps, files))) == FilesOf(fs) + Chosen(ps, files)
    decreases |ps|
  {
    hide Apply;
    if ps != [] {
      var n := |ps| - 1;
      WriteFiles(fs, ps[..n], files);
      WriteFilesNext(fs, ps[..n], ps[n], files);
      assert ps == ps[..n] + [ps[n]];
    }
  }

  lemma WriteFilesNext(fs: Fs, init: seq<Path>, p: Path, files: map<Path, Data>)
    requires p in files
    requires TreeShaped(Run(fs, Writes(init, files)))
    requires FilesOf(Run(fs, Writes(init, files))) == FilesOf(fs) + Chosen(init, files)
    requires forall q :: q in FilesOf(fs) || q in init ==> !Ancestor(p, q) && !Ancestor(q, p)
    ensures TreeShaped(Run(fs, Writes(init + [p], files)))
    ensures FilesOf(Run(fs, Writes(init + [p], files))) == FilesOf(fs) + Chosen(init + [p], files)
  {
    var before := Run(fs, Writes(init, files));
    assert forall q :: q in FilesOf(before) ==> q in FilesOf(fs) || q in init;
    assert DataAt(files, p) == files[p];
    hide *;
    WriteOne(before, p, files[p]);
    WritesLast(init, p, files);
    RunLast(fs, Writes(init, files), Write(p, files[p]));
    ChosenLast(init, p, files);
    UpdateLast(FilesOf(fs), Chosen(init, files), p, files[p]);
  }
}
