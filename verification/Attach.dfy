/** Bringing a sandbox whose files are unknown in line with the room. */
module Attach {
  import opened Paths
  import opened SandboxFs
  import opened PushPlan

  /** What the agent leaves in place at one path. */
  predicate Keeps(fs: Fs, files: set<Path>, dirs: set<Path>, p: Path)
    requires p in fs
  {
    if fs[p].Folder? then p in dirs || exists f :: f in files && p in Ancestors(f) else p in files
  }

  /** `reconcile`: an entry stays when it is wanted, and so is every folder above it. */
  function Reconciled(fs: Fs, files: set<Path>, dirs: set<Path>): Fs {
    map p | p in fs && Keeps(fs, files, dirs, p)
      && (forall d :: d in Ancestors(p) ==> d in fs && Keeps(fs, files, dirs, d)) :: fs[p]
  }

  /** The entries the sandbox has that the room has too, as the same kind. */
  function Common(fs: Fs, room: Mirror): Fs {
    map p | p in fs && (if fs[p].Folder? then p in room.dirs else p in room.files) :: fs[p]
  }

  lemma ReconcileLeavesCommon(fs: Fs, room: Mirror)
    requires TreeShaped(fs) && WellFormed(room)
    ensures Reconciled(fs, room.files.Keys, room.dirs) == Common(fs, room)
  {
    hide Ancestor;
    forall p | p in Common(fs, room) ensures p in Reconciled(fs, room.files.Keys, room.dirs) {
      forall d | d in Ancestors(p) ensures d in fs && Keeps(fs, room.files.Keys, room.dirs, d) {}
    }
  }

  function WithAbove(ds: seq<Path>): set<Path> {
    Elements(ds) + set i, d | 0 <= i < |ds| && d in Ancestors(ds[i]) :: d
  }

  lemma EnsureTwice(fs: Fs, a: set<Path>, b: set<Path>)
    ensures EnsureFolders(EnsureFolders(fs, a), b) == EnsureFolders(fs, a + b)
  {}

  lemma WithAboveLast(init: seq<Path>, d: Path)
    ensures WithAbove(init + [d]) == WithAbove(init) + (Ancestors(d) + {d})
  {
    hide Ancestor;
    var ds := init + [d];
    ElementsLast(init, d);
    forall a | a in WithAbove(init) + (Ancestors(d) + {d}) ensures a in WithAbove(ds) {
      if a in Ancestors(d) { assert ds[|init|] == d; }
      if i :| 0 <= i < |init| && a in Ancestors(init[i]) { assert ds[i] == init[i]; }
    }
  }

  lemma {:induction false} MkdirsEnsure(fs: Fs, ds: seq<Path>)
    ensures Run(fs, Mkdirs(ds)) == EnsureFolders(fs, WithAbove(ds))
    decreases |ds|
  {
    if ds == [] {
      assert EnsureFolders(fs, WithAbove(ds)) == fs;
    } else {
      var n := |ds| - 1;
      var init, d := ds[..n], ds[n];
      MkdirsEnsure(fs, init);
      assert ds == init + [d];
      assert Apply(Run(fs, Mkdirs(init)), Mkdir(d)) == EnsureFolders(Run(fs, Mkdirs(init)), Ancestors(d) + {d});
      hide *;
      OpsLast(init, d);
      RunLast(fs, Mkdirs(init), Mkdir(d));
      WithAboveLast(init, d);
      EnsureTwice(fs, WithAbove(init), Ancestors(d) + {d});
    }
  }

  lemma ClosedAbove(room: Mirror, ds: seq<Path>)
    requires WellFormed(room) && Enumerates(ds, room.dirs)
    ensures WithAbove(ds) == room.dirs
  {
    hide Ancestor;
  }

  /** A file the room has and the sandbox held all along. */
  ghost predicate HadIt(fs: Fs, room: Mirror, p: Path) {
    p in fs && p in room.files && fs[p] == File(room.files[p])
  }

  /** Every binary file is in the store, or was in the sandbox already. */
  ghost predicate AllAtHand(fs: Fs, room: Mirror, store: set<string>) {
    forall p :: p in room.files ==> Available(store, room.files[p]) || HadIt(fs, room, p)
  }

  /**
   * Whatever the sandbox held, attaching leaves it with exactly the room's files and folders
   * if and only if every binary file is in the store or was there already.
   */
  lemma AttachIsExact(fs: Fs, room: Mirror, store: set<string>, made: seq<Path>, puts: seq<Path>)
    requires TreeShaped(fs) && WellFormed(room)
    requires Enumerates(made, room.dirs) && Enumerates(puts, ToPut(Mirror(map[], {}), room, store))
    ensures Run(Reconciled(fs, room.files.Keys, room.dirs), Mkdirs(made) + Writes(puts, room.files)) == FsOf(room)
      <==> AllAtHand(fs, room, store)
  {
    var fs1 := Common(fs, room);
    ReconcileLeavesCommon(fs, room);
    MkdirsEnsure(fs1, made);
    ClosedAbove(room, made);
    WritesReach(fs, room, store, puts);
    hide *;
    RunConcat(fs1, Mkdirs(made), Writes(puts, room.files));
    AttachedOrNot(fs, room, store, puts);
  }

  lemma WritesReach(fs: Fs, room: Mirror, store: set<string>, puts: seq<Path>)
    requires WellFormed(room) && Enumerates(puts, ToPut(Mirror(map[], {}), room, store))
    ensures var fs2 := EnsureFolders(Common(fs, room), room.dirs);
      Run(fs2, Writes(puts, room.files)) == fs2 + Entries(puts, room.files)
  {
    hide Ancestor, Run, AllLegal, Writes, Entries;
    var fs2 := EnsureFolders(Common(fs, room), room.dirs);
    forall p | p in puts ensures p in room.files && InFolders(fs2, p) && !(p in fs2 && fs2[p].Folder?) {
      assert p in ToPut(Mirror(map[], {}), room, store);
    }
    WriteAll(fs2, puts, room.files);
  }

  lemma AttachedOrNot(fs: Fs, room: Mirror, store: set<string>, puts: seq<Path>)
    requires WellFormed(room) && Enumerates(puts, ToPut(Mirror(map[], {}), room, store))
    ensures EnsureFolders(Common(fs, room), room.dirs) + Entries(puts, room.files) == FsOf(room)
      <==> AllAtHand(fs, room, store)
  {
    hide Ancestor;
    var last := EnsureFolders(Common(fs, room), room.dirs) + Entries(puts, room.files);
    forall p | p in room.files
      ensures p in puts <==> Available(store, room.files[p])
      ensures (p in last && last[p] == File(room.files[p])) <==> Available(store, room.files[p]) || HadIt(fs, room, p)
    {
      assert p in puts <==> p in ToPut(Mirror(map[], {}), room, store);
    }
    forall d | d in room.dirs ensures d in last && last[d] == Folder {
      assert d in puts <==> d in ToPut(Mirror(map[], {}), room, store);
    }
    forall p | p in last ensures p in room.files || p in room.dirs {
      assert p in puts <==> p in ToPut(Mirror(map[], {}), room, store);
    }
    if AllAtHand(fs, room, store) {
      assert last.Keys == FsOf(room).Keys;
    } else {
      var p :| p in room.files && !Available(store, room.files[p]) && !HadIt(fs, room, p);
      assert FsOf(room)[p] == File(room.files[p]);
    }
  }
}
