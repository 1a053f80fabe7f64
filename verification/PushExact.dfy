/** What a push achieves: the sandbox then holds what the room holds. */
module PushExact {
  import opened Paths
  import opened SandboxFs
  import opened PushPlan

  // ----- a sandbox that is exactly what the mirror says

  /** The files the room keeps, as they were. */
  function KeptFiles(m: Mirror, room: Mirror): map<Path, Data> {
    map p | p in m.files && p in room.files :: m.files[p]
  }

  lemma FilesAreLeaves(m: Mirror)
    requires WellFormed(m)
    ensures forall p, q :: p in m.files && q in FsOf(m) ==> !Ancestor(p, q)
  {}

  lemma FilesGo(m: Mirror, room: Mirror, t: Plan)
    requires WellFormed(m) && Enumerates(t.dels, ToDelete(m, room))
    ensures AllLegal(FsOf(m), Deletes(t.dels))
    ensures Run(FsOf(m), Deletes(t.dels)) == FsOf(Mirror(KeptFiles(m, room), m.dirs))
  {
    var fs := FsOf(m);
    hide Ancestor, AllLegal, Run, WellFormed;
    FilesAreLeaves(m);
    assert forall p :: p in t.dels ==> p in m.files by { assert forall p :: p in t.dels ==> p in ToDelete(m, room); }
    assert fs - Elements(t.dels) == FsOf(Mirror(KeptFiles(m, room), m.dirs)) by { KeptEntries(m, room, t); }
    DeleteAll(fs, t.dels);
  }

  lemma KeptEntries(m: Mirror, room: Mirror, t: Plan)
    requires WellFormed(m) && Enumerates(t.dels, ToDelete(m, room))
    ensures FsOf(m) - Elements(t.dels) == FsOf(Mirror(KeptFiles(m, room), m.dirs))
  {}

  lemma FoldersGo(m: Mirror, room: Mirror, t: Plan)
    requires WellFormed(m) && WellFormed(room)
    requires Enumerates(t.rmdirs, m.dirs - room.dirs) && SortedDown(t.rmdirs)
    requires m.files.Keys <= room.files.Keys
    ensures AllLegal(FsOf(m), Deletes(t.rmdirs))
    ensures Run(FsOf(m), Deletes(t.rmdirs)) == FsOf(Mirror(m.files, m.dirs * room.dirs))
  {
    var fs := FsOf(m);
    hide Ancestor, AllLegal, Run, SortedDown;
    forall i, q | 0 <= i < |t.rmdirs| && q in fs && Ancestor(t.rmdirs[i], q) ensures q in t.rmdirs[..i] {
      assert t.rmdirs[i] in m.dirs - room.dirs;
      assert q in m.dirs - room.dirs;
      DescendantComesFirst(t.rmdirs, i, q);
    }
    DeleteAll(fs, t.rmdirs);
    assert fs - Elements(t.rmdirs) == FsOf(Mirror(m.files, m.dirs * room.dirs));
  }

  lemma FoldersCome(m: Mirror, room: Mirror, t: Plan)
    requires WellFormed(room)
    requires m.files.Keys <= room.files.Keys && m.dirs <= room.dirs
    requires Enumerates(t.mkdirs, room.dirs - m.dirs) && Sorted(t.mkdirs)
    ensures AllLegal(FsOf(m), Mkdirs(t.mkdirs))
    ensures Run(FsOf(m), Mkdirs(t.mkdirs)) == FsOf(Mirror(m.files, room.dirs))
  {
    var fs := FsOf(m);
    hide Ancestor, AllLegal, Run, Sorted, Elements, EnsureFolders;
    forall i, d | 0 <= i < |t.mkdirs| && Ancestor(d, t.mkdirs[i])
      ensures d in t.mkdirs[..i] || (d in fs && fs[d] == Folder)
    {
      assert t.mkdirs[i] in room.dirs - m.dirs;
      assert d in room.dirs;
      if d !in m.dirs { AncestorComesFirst(t.mkdirs, i, d); }
    }
    MkdirAll(fs, t.mkdirs);
    MoreFolders(m, room, t);
  }

  lemma MoreFolders(m: Mirror, room: Mirror, t: Plan)
    requires room.files.Keys !! room.dirs && m.files.Keys <= room.files.Keys && m.dirs <= room.dirs
    requires Enumerates(t.mkdirs, room.dirs - m.dirs)
    ensures EnsureFolders(FsOf(m), Elements(t.mkdirs)) == FsOf(Mirror(m.files, room.dirs))
  {
    assert Elements(t.mkdirs) == room.dirs - m.dirs;
  }

  lemma FilesCome(m: Mirror, room: Mirror, t: Plan, store: set<string>)
    requires WellFormed(room)
    requires m.files.Keys <= room.files.Keys && m.dirs == room.dirs
    requires Enumerates(t.puts, ToPut(m, room, store))
    ensures AllLegal(FsOf(m), Writes(t.puts, room.files))
    ensures Run(FsOf(m), Writes(t.puts, room.files)) == FsOf(Mirror(m.files + Chosen(t.puts, room.files), room.dirs))
  {
    var fs := FsOf(m);
    hide Ancestor, AllLegal, Run, Writes, Chosen, Entries;
    forall p | p in t.puts ensures p in room.files && InFolders(fs, p) && !(p in fs && fs[p].Folder?) {
      assert p in ToPut(m, room, store);
    }
    WriteAll(fs, t.puts, room.files);
    MoreFiles(m, room.files, t.puts);
  }

  lemma MoreFiles(m: Mirror, files: map<Path, Data>, ps: seq<Path>)
    ensures FsOf(m) + Entries(ps, files) == FsOf(Mirror(m.files + Chosen(ps, files), m.dirs))
  {}

  /** What the room's files are in the sandbox once the push is done. */
  function AfterPuts(m: Mirror, room: Mirror, t: Plan): map<Path, Data> {
    KeptFiles(m, room) + Chosen(t.puts, room.files)
  }

  lemma AfterPutsIsRoom(m: Mirror, room: Mirror, store: set<string>, t: Plan)
    requires Enumerates(t.puts, ToPut(m, room, store))
    ensures AfterPuts(m, room, t) == room.files <==> Answered(m, room, store)
  {
    var after := AfterPuts(m, room, t);
    if Answered(m, room, store) {
      forall p | p in room.files ensures p in after && after[p] == room.files[p] {
        if Changed(m, room, p) { assert p in ToPut(m, room, store); } else { assert p !in ToPut(m, room, store); }
      }
      assert after.Keys == room.files.Keys;
    } else {
      var p :| Changed(m, room, p) && !Available(store, room.files[p]);
      assert p !in ToPut(m, room, store);
      assert !(p in after && after[p] == room.files[p]);
    }
  }

  lemma FsOfInjective(a: map<Path, Data>, b: map<Path, Data>, dirs: set<Path>)
    requires a.Keys !! dirs && b.Keys !! dirs
    ensures FsOf(Mirror(a, dirs)) == FsOf(Mirror(b, dirs)) <==> a == b
  {
    var fa, fb := FsOf(Mirror(a, dirs)), FsOf(Mirror(b, dirs));
    if fa == fb {
      forall p | p in a ensures p in b && a[p] == b[p] { assert fa[p] == File(a[p]); assert fb[p] == File(a[p]); }
      forall p | p in b ensures p in a { assert fb[p] == File(b[p]); assert p in fa && fa[p] == File(b[p]); }
    }
  }

  /**
   * Down-sync: on a sandbox that holds what the mirror says, every operation of a push is one
   * a plain file system would carry out in that order, even when files become folders, folders
   * become files or text becomes binary; and the sandbox ends up holding exactly the room's
   * files and folders if and only if the object store has every binary file that changed.
   */
  lemma PushIsExact(m: Mirror, room: Mirror, store: set<string>, t: Plan)
    requires WellFormed(m) && WellFormed(room) && IsPush(m, room, store, t)
    ensures AllLegal(FsOf(m), OpsOf(t, room))
    ensures Run(FsOf(m), OpsOf(t, room)) == FsOf(room) <==> Answered(m, room, store)
  {
    var kept := KeptFiles(m, room);
    var m1, m2, m3 := Mirror(kept, m.dirs), Mirror(kept, m.dirs * room.dirs), Mirror(kept, room.dirs);
    hide Ancestor, AllLegal, Run, Sorted, SortedDown, Writes, Deletes, Mkdirs, FsOf;
    FilesGo(m, room, t);
    FoldersGo(m1, room, t);
    assert m2.dirs * room.dirs == m2.dirs && room.dirs - m2.dirs == room.dirs - m.dirs;
    FoldersCome(m2, room, t);
    assert ToPut(m3, room, store) == ToPut(m, room, store);
    FilesCome(m3, room, t, store);
    AfterPutsIsRoom(m, room, store, t);
    assert forall p :: p in t.puts ==> p in room.files by {
      assert forall p :: p in t.puts ==> p in ToPut(m, room, store);
    }
    FsOfInjective(AfterPuts(m, room, t), room.files, room.dirs);
    hide *;
    FourRuns(FsOf(m), t, room, FsOf(m1), FsOf(m2), FsOf(m3));
  }

  lemma FourRuns(fs: Fs, t: Plan, room: Mirror, fs1: Fs, fs2: Fs, fs3: Fs)
    requires Run(fs, Deletes(t.dels)) == fs1
    requires Run(fs1, Deletes(t.rmdirs)) == fs2
    requires Run(fs2, Mkdirs(t.mkdirs)) == fs3
    ensures Run(fs, OpsOf(t, room)) == Run(fs3, Writes(t.puts, room.files))
    ensures (AllLegal(fs, Deletes(t.dels)) && AllLegal(fs1, Deletes(t.rmdirs))
        && AllLegal(fs2, Mkdirs(t.mkdirs)) && AllLegal(fs3, Writes(t.puts, room.files)))
      ==> AllLegal(fs, OpsOf(t, room))
  {
    hide Run, AllLegal, Deletes, Mkdirs, Writes;
    var a, b, c, d := Deletes(t.dels), Deletes(t.rmdirs), Mkdirs(t.mkdirs), Writes(t.puts, room.files);
    RunConcat(fs, a, b);
    RunConcat(fs, a + b, c);
    RunConcat(fs, a + b + c, d);
  }

  // ----- a sandbox in which programs also made or removed folders of their own

  /** No folder the mirror still lists, but the room has not, is the place of an unchanged file. */
  ghost predicate NoStaleFolder(m: Mirror, room: Mirror) {
    forall p :: p in m.dirs && p in room.files ==> Changed(m, room, p)
  }

  /** The files a push leaves in the sandbox: what it could send, and what it did not touch. */
  function Left(m: Mirror, room: Mirror, store: set<string>): map<Path, Data> {
    map p | p in room.files && ((Changed(m, room, p) && Available(store, room.files[p]))
      || (p in m.files && p !in m.dirs))
      :: if Changed(m, room, p) && Available(store, room.files[p]) then room.files[p] else m.files[p]
  }

  /** When the sandbox holds the mirror's files but whatever folders, this is what a push leaves. */
  lemma PushLeaves(fs: Fs, m: Mirror, room: Mirror, store: set<string>, t: Plan)
    requires TreeShaped(fs) && FilesOf(fs) == m.files
    requires WellFormed(room) && IsPush(m, room, store, t)
    ensures TreeShaped(Run(fs, OpsOf(t, room)))
    ensures FilesOf(Run(fs, OpsOf(t, room))) == Left(m, room, store)
  {
    var fs1 := Run(fs, Deletes(t.dels));
    GeneralFilesGo(fs, m, room, store, t);
    var kept := KeptFiles(m, room);
    var fs2 := Run(fs1, Deletes(t.rmdirs));
    forall d, q | d in t.rmdirs && q in kept ensures !Ancestor(d, q) { assert d in m.dirs - room.dirs; }
    DeleteFolders(fs1, t.rmdirs);
    var left := kept - Elements(t.rmdirs);
    var fs3 := Run(fs2, Mkdirs(t.mkdirs));
    forall d | d in t.mkdirs ensures d !in left && forall a :: Ancestor(a, d) ==> a !in left {
      assert d in room.dirs - m.dirs;
    }
    MakeFolders(fs2, t.mkdirs);
    forall p, q | p in t.puts && (q in left || q in t.puts)
      ensures p in room.files && !Ancestor(p, q) && !Ancestor(q, p)
    {
      assert p in ToPut(m, room, store) && (q in t.puts ==> q in ToPut(m, room, store));
    }
    forall p | p in t.puts ensures p in room.files { assert p in ToPut(m, room, store); }
    WriteFiles(fs3, t.puts, room.files);
    FinalFiles(m, room, store, t);
    hide *;
    FourRuns(fs, t, room, fs1, fs2, fs3);
  }

  /**
   * It leaves exactly the room's files if and only if the store has what changed and no
   * unchanged file stands where the mirror still lists a folder.
   */
  lemma PushKeepsFiles(fs: Fs, m: Mirror, room: Mirror, store: set<string>, t: Plan)
    requires TreeShaped(fs) && FilesOf(fs) == m.files
    requires WellFormed(room) && IsPush(m, room, store, t)
    ensures TreeShaped(Run(fs, OpsOf(t, room)))
    ensures FilesOf(Run(fs, OpsOf(t, room))) == room.files <==> Answered(m, room, store) && NoStaleFolder(m, room)
  {
    PushLeaves(fs, m, room, store, t);
  }

  lemma GeneralFilesGo(fs: Fs, m: Mirror, room: Mirror, store: set<string>, t: Plan)
    requires TreeShaped(fs) && FilesOf(fs) == m.files && Enumerates(t.dels, ToDelete(m, room))
    ensures TreeShaped(Run(fs, Deletes(t.dels))) && FilesOf(Run(fs, Deletes(t.dels))) == KeptFiles(m, room)
  {
    forall p | p in t.dels ensures p in FilesOf(fs) { assert p in ToDelete(m, room); }
    forall d, q | d in t.dels && q in FilesOf(fs) ensures !Ancestor(d, q) { assert d in FilesOf(fs); }
    DeleteFolders(fs, t.dels);
    assert FilesOf(fs) - Elements(t.dels) == KeptFiles(m, room);
  }

  lemma FinalFiles(m: Mirror, room: Mirror, store: set<string>, t: Plan)
    requires room.files.Keys !! room.dirs
    requires Enumerates(t.puts, ToPut(m, room, store)) && Enumerates(t.rmdirs, m.dirs - room.dirs)
    ensures KeptFiles(m, room) - Elements(t.rmdirs) + Chosen(t.puts, room.files) == Left(m, room, store)
  {
    assert forall p :: p in room.files ==> (p in t.rmdirs <==> p in m.dirs);
    assert forall p :: p in t.puts <==> Changed(m, room, p) && Available(store, room.files[p]) by {
      assert forall p :: p in t.puts <==> p in ToPut(m, room, store);
    }
  }

  /**
   * A file the sandbox has, where the mirror still lists a folder the room has dropped: the
   * push deletes it and does not send it again, though the mirror says it is there.
   */
  lemma StaleFolderLosesFile(t: Plan)
    requires IsPush(Mirror(map["a" := Text("x")], {"a"}), Mirror(map["a" := Text("x")], {}), {}, t)
    ensures FilesOf(Run(map["a" := File(Text("x"))], OpsOf(t, Mirror(map["a" := Text("x")], {})))) == map[]
  {
    var fs: Fs := map["a" := File(Text("x"))];
    var m, room := Mirror(map["a" := Text("x")], {"a"}), Mirror(map["a" := Text("x")], {});
    assert FilesOf(fs) == m.files;
    PushLeaves(fs, m, room, {}, t);
  }

  /** A text file that became binary while the store had no answer: its old text stays in the sandbox. */
  lemma MissingBytesLeaveOldText(t: Plan)
    requires IsPush(Mirror(map["a" := Text("x")], {}), Mirror(map["a" := Blob("s")], {}), {}, t)
    ensures FilesOf(Run(map["a" := File(Text("x"))], OpsOf(t, Mirror(map["a" := Blob("s")], {}))))
      == map["a" := Text("x")]
  {
    var fs: Fs := map["a" := File(Text("x"))];
    var m, room := Mirror(map["a" := Text("x")], {}), Mirror(map["a" := Blob("s")], {});
    assert FilesOf(fs) == m.files;
    PushLeaves(fs, m, room, {}, t);
  }
}
