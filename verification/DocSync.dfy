/**
 * The runner as a peer of the room's files document: what it sends down to the sandbox's agent, what
 * it takes up from there, and what it remembers between the two.
 */
module DocSync {
  import opened Strings
  import opened Paths
  import opened PathNames
  import opened SiblingNames
  import opened RoomNodes
  import opened NewNodes
  import opened NewFiles
  import opened SandboxFs
  import opened PushPlan
  import opened PushExact
  import opened RoomDoc
  import opened Tracking
  import opened Attach
  import opened SyncSteps

  /** Largest binary file a program's change brings into the room. */
  const MAX_BLOB_BYTES: nat := 5 * 1024 * 1024

  /** The sandbox and its agent: operations are carried out in the order they come. */
  class Sandbox {
    var fs: Fs
    var log: seq<Op>

    method Request(op: Op)
      modifies this
      ensures log == old(log) + [op] && fs == Apply(old(fs), op)
    {
      fs := Apply(fs, op);
      log := log + [op];
    }

    /** Remove what the room lacks: what is not listed, and all beneath it. */
    method Reconcile(files: set<Path>, dirs: set<Path>)
      modifies this`fs
      ensures fs == Reconciled(old(fs), files, dirs)
    {
      fs := Reconciled(fs, files, dirs);
    }
  }

  /** A run of operations was sent, and the agent has carried it out. */
  ghost predicate Sent(agent: Sandbox, log0: seq<Op>, fs0: Fs, ops: seq<Op>)
    reads agent
  {
    agent.log == log0 + ops && agent.fs == Run(fs0, ops)
  }

  lemma SentMore(log0: seq<Op>, fs0: Fs, ops: seq<Op>, op: Op)
    ensures log0 + (ops + [op]) == log0 + ops + [op]
    ensures Run(fs0, ops + [op]) == Apply(Run(fs0, ops), op)
  {
    RunLast(fs0, ops, op);
  }

  class DocSync {
    const agent: Sandbox
    var room: Room
    /** The SHA-256s the object store has; without a store no binary file can be sent. */
    var store: set<string>
    var hasStore: bool
    var written: map<Path, string>
    var writtenBlobs: map<Path, string>
    var dirs: set<Path>
    var treeDirty: bool
    var dirtyTexts: set<Id>
    var pathById: map<Id, Path>

    ghost function Held(): Mirror
      reads this`written, this`writtenBlobs, this`dirs
    {
      Mirror(HeldFiles(written, writtenBlobs), dirs)
    }

    ghost function Answers(): set<string>
      reads this`hasStore, this`store
    {
      if hasStore then store else {}
    }

    /** All of it, with the sandbox: what the steps of the sync are about. */
    ghost function Now(): Sync
      reads this, agent
    {
      Sync(room, Held(), treeDirty, dirtyTexts, pathById, agent.fs, Answers())
    }

    /** Kept by every method: the memory of the last push is right. */
    ghost predicate Valid()
      reads this
    {
      && RoomOk(room)
      && written.Keys !! writtenBlobs.Keys
      && Tracked(View(room), Held(), treeDirty, dirtyTexts, pathById)
    }

    lemma ValidIsRight()
      ensures Valid() <==> Right(Now()) && written.Keys !! writtenBlobs.Keys
      ensures Valid() ==> RoomOk(room)
      ensures Now() == Sync(room, Held(), treeDirty, dirtyTexts, pathById, agent.fs, Answers())
    {
      hide RoomOk, Tracked, View, Held, Answers;
    }

    constructor (agent: Sandbox, room: Room, hasStore: bool, store: set<string>)
      requires RoomOk(room)
      ensures Valid() && this.agent == agent && this.room == room && this.hasStore == hasStore && this.store == store
      ensures Held() == Mirror(map[], {}) && treeDirty
    {
      this.agent, this.room, this.hasStore, this.store := agent, room, hasStore, store;
      written, writtenBlobs, dirs := map[], map[], {};
      treeDirty, dirtyTexts, pathById := true, {}, map[];
    }

    // ----- edits in the room, as the document's observers see them

    method EditText(id: Id, text: string)
      requires Valid() && Enabled(Now(), SyncSteps.EditText(id, text))
      modifies this`room, this`dirtyTexts
      ensures Valid() && Now() == After(old(Now()), SyncSteps.EditText(id, text))
    {
      hide *;
      ghost var next := After(Now(), SyncSteps.EditText(id, text));
      ValidIsRight();
      StepKeepsRight(Now(), SyncSteps.EditText(id, text));
      AfterEditIs(Now(), id, text);
      room := Room(room.nodes, room.contents[id := text]);
      dirtyTexts := dirtyTexts + {id};
      ValidIsRight();
      assert Now() == next;
    }

    /** Nodes made, moved, renamed, put in the trash or taken from it; and texts edited with them. */
    method EditTree(next: Room, touched: set<Id>)
      requires Valid() && Enabled(Now(), SyncSteps.EditTree(next, touched))
      modifies this`room, this`treeDirty, this`dirtyTexts
      ensures Valid() && Now() == After(old(Now()), SyncSteps.EditTree(next, touched))
    {
      hide *;
      ghost var after := After(Now(), SyncSteps.EditTree(next, touched));
      ValidIsRight();
      StepKeepsRight(Now(), SyncSteps.EditTree(next, touched));
      AfterTreeIs(Now(), next, touched);
      room := next;
      treeDirty := true;
      dirtyTexts := dirtyTexts + touched;
      ValidIsRight();
      assert Now() == after;
    }

    // ----- down

    /** Every live text file, binary file and folder, and the paths by id. */
    method TakeSnapshot() returns (files: map<Path, string>, blobs: map<Path, string>, folders: set<Path>)
      requires RoomOk(room)
      modifies this`pathById
      ensures Mirror(HeldFiles(files, blobs), folders) == Shown(View(room))
      ensures files.Keys !! blobs.Keys
      ensures PathsById(TreeOf(room.nodes), pathById)
    {
      hide *;
      RoomOkIs(room);
      var tree := ListTree(room.nodes);
      var doc := Doc(tree, room.contents);
      SnapshotStarts(room, doc);
      files, blobs, folders := map[], map[], {};
      pathById := map[];
      var todo := tree.Keys;
      ghost var seen: set<Path> := {};
      while todo != {}
        invariant seen + todo == doc.tree.Keys && seen !! todo
        invariant files == TextsAmong(doc, seen) && blobs == BlobsAmong(doc, seen) && folders == FoldersAmong(doc, seen)
        invariant PathsAmong(doc.tree, seen, pathById)
      {
        var p :| p in todo;
        var node := doc.tree[p];
        AmongMore(doc, seen, p, pathById);
        IsOneOf(node);
        pathById := pathById[node.id := p];
        if node.FolderNode? {
          folders := folders + {p};
        } else if node.blob.Some? {
          blobs := blobs[p := node.blob.value];
        } else {
          files := files[p := TextOf(doc, node.id)];
        }
        todo, seen := todo - {p}, seen + {p};
      }
      AmongAll(doc, seen, pathById);
    }

    method DeleteTexts(files: map<Path, string>, blobs: map<Path, string>) returns (ghost dels: seq<Path>)
      modifies this`written, agent
      ensures written == Restrict(old(written), files.Keys)
      ensures Enumerates(dels, old(written).Keys - files.Keys - blobs.Keys)
      ensures Sent(agent, old(agent.log), old(agent.fs), Deletes(dels))
    {
      dels := [];
      var todo := written.Keys;
      ghost var seen: set<Path> := {};
      while todo != {}
        invariant seen + todo == old(written).Keys && seen !! todo
        invariant written == Restrict(old(written), todo + files.Keys)
        invariant Enumerates(dels, seen - files.Keys - blobs.Keys)
        invariant Sent(agent, old(agent.log), old(agent.fs), Deletes(dels))
      {
        var p :| p in todo;
        todo, seen := todo - {p}, seen + {p};
        MarkSeen(seen - {p}, p, files.Keys, blobs.Keys, dels);
        RestrictLess(old(written), todo, p, files.Keys);
        hide Enumerates, Restrict, Run, Apply, Deletes;
        if p !in files {
          written := written - {p};
          if p !in blobs {
            SentMore(old(agent.log), old(agent.fs), Deletes(dels), Delete(p));
            OpsLast(dels, p);
            agent.Request(Delete(p));
            dels := dels + [p];
          }
        }
      }
      assert {} + files.Keys == files.Keys && seen == old(written).Keys;
    }

    method DeleteBlobs(files: map<Path, string>, blobs: map<Path, string>) returns (ghost dels: seq<Path>)
      modifies this`writtenBlobs, agent
      ensures writtenBlobs == Restrict(old(writtenBlobs), blobs.Keys)
      ensures Enumerates(dels, old(writtenBlobs).Keys - blobs.Keys - files.Keys)
      ensures Sent(agent, old(agent.log), old(agent.fs), Deletes(dels))
    {
      dels := [];
      var todo := writtenBlobs.Keys;
      ghost var seen: set<Path> := {};
      while todo != {}
        invariant seen + todo == old(writtenBlobs).Keys && seen !! todo
        invariant writtenBlobs == Restrict(old(writtenBlobs), todo + blobs.Keys)
        invariant Enumerates(dels, seen - blobs.Keys - files.Keys)
        invariant Sent(agent, old(agent.log), old(agent.fs), Deletes(dels))
      {
        var p :| p in todo;
        todo, seen := todo - {p}, seen + {p};
        MarkSeen(seen - {p}, p, blobs.Keys, files.Keys, dels);
        RestrictLess(old(writtenBlobs), todo, p, blobs.Keys);
        hide Enumerates, Restrict, Run, Apply, Deletes;
        if p !in blobs {
          writtenBlobs := writtenBlobs - {p};
          if p !in files {
            SentMore(old(agent.log), old(agent.fs), Deletes(dels), Delete(p));
            OpsLast(dels, p);
            agent.Request(Delete(p));
            dels := dels + [p];
          }
        }
      }
      assert {} + blobs.Keys == blobs.Keys && seen == old(writtenBlobs).Keys;
    }

    method DeleteFolders(folders: set<Path>) returns (ghost gone: seq<Path>)
      modifies this`dirs, agent
      ensures dirs == old(dirs) * folders
      ensures Enumerates(gone, old(dirs) - folders) && SortedDown(gone)
      ensures Sent(agent, old(agent.log), old(agent.fs), Deletes(gone))
    {
      var ordered := SortDown(dirs);
      gone := [];
      for i := 0 to |ordered|
        invariant dirs == old(dirs) - Elements(gone)
        invariant Enumerates(gone, Elements(ordered[..i]) - folders) && SortedDown(gone)
        invariant Sent(agent, old(agent.log), old(agent.fs), Deletes(gone))
      {
        var dir := ordered[i];
        assert ordered[..i + 1] == ordered[..i] + [dir];
        NextInOrder(ordered, i, gone, folders);
        if dir !in folders {
          dirs := dirs - {dir};
          hide Enumerates, Run, Apply, Deletes, SortedDown;
          SentMore(old(agent.log), old(agent.fs), Deletes(gone), Delete(dir));
          OpsLast(gone, dir);
          agent.Request(Delete(dir));
          ElementsLast(gone, dir);
          gone := gone + [dir];
        }
      }
      assert ordered[..|ordered|] == ordered;
      assert Elements(ordered) == old(dirs);
    }

    method MakeFolders(folders: set<Path>) returns (ghost made: seq<Path>)
      modifies this`dirs, agent
      ensures dirs == old(dirs) + folders
      ensures Enumerates(made, folders - old(dirs)) && Sorted(made)
      ensures Sent(agent, old(agent.log), old(agent.fs), Mkdirs(made))
    {
      var ordered := Sort(folders);
      made := [];
      for i := 0 to |ordered|
        invariant dirs == old(dirs) + Elements(ordered[..i])
        invariant Enumerates(made, Elements(ordered[..i]) - old(dirs)) && Sorted(made)
        invariant Sent(agent, old(agent.log), old(agent.fs), Mkdirs(made))
      {
        var dir := ordered[i];
        assert ordered[..i + 1] == ordered[..i] + [dir];
        NextUp(ordered, i, made, old(dirs));
        hide Enumerates, Run, Apply, Mkdirs, Sorted, Elements;
        ElementsLast(ordered[..i], dir);
        if dir !in dirs {
          dirs := dirs + {dir};
          SentMore(old(agent.log), old(agent.fs), Mkdirs(made), Mkdir(dir));
          OpsLast(made, dir);
          agent.Request(Mkdir(dir));
          made := made + [dir];
        }
      }
      assert ordered[..|ordered|] == ordered;
      assert Elements(ordered) == folders;
    }

    method WriteTexts(files: map<Path, string>, ghost room: map<Path, Data>) returns (ghost puts: seq<Path>)
      requires forall p :: p in files ==> p in room && room[p] == Text(files[p])
      modifies this`written, agent
      ensures written == old(written) + files
      ensures Enumerates(puts, Differing(files, old(written), files.Keys))
      ensures Sent(agent, old(agent.log), old(agent.fs), Writes(puts, room))
    {
      puts := [];
      var todo := files.Keys;
      ghost var seen: set<Path> := {};
      while todo != {}
        invariant seen + todo == files.Keys && seen !! todo
        invariant written == old(written) + Restrict(files, seen)
        invariant Enumerates(puts, Differing(files, old(written), seen))
        invariant Sent(agent, old(agent.log), old(agent.fs), Writes(puts, room))
      {
        var p :| p in todo;
        DifferingMore(files, old(written), seen, p, puts);
        RestrictMore(old(written), files, seen, p);
        assert DataAt(room, p) == Text(files[p]);
        hide Enumerates, Run, Apply, Writes, Differing, Sendable, Restrict, DataAt, HeldFiles;
        if !(p in written && written[p] == files[p]) {
          written := written[p := files[p]];
          SentMore(old(agent.log), old(agent.fs), Writes(puts, room), Write(p, Text(files[p])));
          WritesLast(puts, p, room);
          agent.Request(Write(p, Text(files[p])));
          puts := puts + [p];
        }
        todo, seen := todo - {p}, seen + {p};
      }
      assert Restrict(files, seen) == files;
    }

    method WriteBlobs(blobs: map<Path, string>, ghost room: map<Path, Data>) returns (ghost puts: seq<Path>)
      requires forall p :: p in blobs ==> p in room && room[p] == Blob(blobs[p])
      modifies this`writtenBlobs, agent
      ensures writtenBlobs == old(writtenBlobs) + blobs
      ensures Enumerates(puts, Sendable(blobs, Differing(blobs, old(writtenBlobs), blobs.Keys), Answers()))
      ensures Sent(agent, old(agent.log), old(agent.fs), Writes(puts, room))
    {
      puts := [];
      var todo := blobs.Keys;
      ghost var seen: set<Path> := {};
      while todo != {}
        invariant seen + todo == blobs.Keys && seen !! todo
        invariant writtenBlobs == old(writtenBlobs) + Restrict(blobs, seen)
        invariant Enumerates(puts, Sendable(blobs, Differing(blobs, old(writtenBlobs), seen), Answers()))
        invariant Sent(agent, old(agent.log), old(agent.fs), Writes(puts, room))
      {
        var p :| p in todo;
        SendableMore(blobs, old(writtenBlobs), seen, p, Answers(), puts);
        RestrictMore(old(writtenBlobs), blobs, seen, p);
        assert DataAt(room, p) == Blob(blobs[p]);
        hide Enumerates, Run, Apply, Writes, Differing, Sendable, Restrict, DataAt, HeldFiles;
        if !(p in writtenBlobs && writtenBlobs[p] == blobs[p]) {
          writtenBlobs := writtenBlobs[p := blobs[p]];
          if hasStore && blobs[p] in store {
            SentMore(old(agent.log), old(agent.fs), Writes(puts, room), Write(p, Blob(blobs[p])));
            WritesLast(puts, p, room);
            agent.Request(Write(p, Blob(blobs[p])));
            puts := puts + [p];
          }
        }
        todo, seen := todo - {p}, seen + {p};
      }
      assert Restrict(blobs, seen) == blobs;
    }

    lemma ValidInStep()
      requires Valid() && !treeDirty
      ensures var doc := View(room);
        && DocOk(doc) && PathsById(doc.tree, pathById) && InStep(doc, Held(), dirtyTexts)
          && doc.contents == room.contents
        && TextsOnly(doc, dirtyTexts) && TreeOk(doc.tree)
        && Held().files == HeldFiles(written, writtenBlobs) && written.Keys !! writtenBlobs.Keys
    {
      RoomIsWellFormed(room);
      hide RoomOk, Shown, View, HeldFiles, PathsById, InStep, Ancestor, TreeOk;
    }

    /** The shortcut for when only texts changed. */
    method PushTexts() returns (ghost puts: seq<Path>)
      requires Valid() && !treeDirty
      modifies this`written, this`dirtyTexts, agent
      ensures Enumerates(puts, FastPuts(View(room), old(Held()), old(dirtyTexts), pathById))
      ensures agent.log == old(agent.log) + Writes(puts, Shown(View(room)).files)
      ensures agent.fs == Run(old(agent.fs), Writes(puts, Shown(View(room)).files))
      ensures written == old(written) + TextsAmong(View(room), Elements(puts)) && dirtyTexts == {}
    {
      hide *;
      ValidInStep();
      puts := [];
      ghost var held, doc := Held(), View(room);
      ghost var shown := Shown(doc).files;
      ghost var written0, blobs0 := written, writtenBlobs;
      var dirty, byId, contents := dirtyTexts, pathById, room.contents;
      var todo := dirty;
      ghost var seen: set<Id> := {};
      FastPutsNone(doc, held, byId, written0, shown, agent.fs);
      while todo != {}
        invariant seen + todo == dirty && seen !! todo
        invariant Enumerates(puts, FastPuts(doc, held, seen, byId))
        invariant written == written0 + TextsAmong(doc, Elements(puts))
        invariant agent.log == old(agent.log) + Writes(puts, shown)
          && agent.fs == Run(old(agent.fs), Writes(puts, shown))
      {
        var id :| id in todo;
        FastPutsStep(doc, held, dirty, seen, byId, id, puts, written0, blobs0);
        if id in byId && id in contents {
          var path, content := byId[id], contents[id];
          if !(path in written && written[path] == content) {
            written := written[path := content];
            SentMore(old(agent.log), old(agent.fs), Writes(puts, shown), Write(path, Text(content)));
            WritesLast(puts, path, shown);
            agent.Request(Write(path, Text(content)));
            puts := puts + [path];
          }
        }
        todo, seen := todo - {id}, seen + {id};
      }
      assert seen == dirty;
      dirtyTexts := {};
    }

    /**
     * Bring the sandbox up to what the room shows now. Unless the mirror holds a file where the room
     * has a folder and nothing marks the tree, what it sends is what the full comparison would send.
     * The sandbox's files are then again the mirror's exactly if the push was clean.
     */
    method Push() returns (ghost plan: Plan)
      requires Valid()
      modifies this`written, this`writtenBlobs, this`dirs, this`treeDirty, this`dirtyTexts, this`pathById, agent
      ensures Valid() && CanPush(old(Now()), plan, pathById) && Now() == AfterPush(old(Now()), plan, pathById)
      ensures agent.log == old(agent.log) + OpsOf(plan, Shows(old(Now())))
      ensures IsPush(old(Held()), Shows(old(Now())), Answers(), plan)
        <==> old(treeDirty) || old(Held()).files.Keys <= Shows(old(Now())).files.Keys
      ensures old(InSync(Now())) ==> (InSync(Now()) <==> Clean(old(Now())))
    {
      ghost var before := Now();
      ValidIsRight();
      NowIs();
      assert RoomOk(room) && written.Keys !! writtenBlobs.Keys;
      hide *;
      if !treeDirty {
        plan := PushOnlyTexts();
      } else {
        plan := PushAll();
        NowIs();
        AfterFullPush(before, plan, pathById);
      }
      if InSync(before) { PushInSync(before, plan, pathById); }
      PushKeepsRight(before, plan, pathById);
      ValidIsRight();
    }

    method PushOnlyTexts() returns (ghost plan: Plan)
      requires Valid() && !treeDirty
      modifies this`written, this`dirtyTexts, agent
      ensures written.Keys !! writtenBlobs.Keys
      ensures CanPush(old(Now()), plan, pathById) && Now() == AfterPush(old(Now()), plan, pathById)
      ensures agent.log == old(agent.log) + OpsOf(plan, Shows(old(Now())))
      ensures IsPush(old(Held()), Shows(old(Now())), Answers(), plan)
        <==> old(Held()).files.Keys <= Shows(old(Now())).files.Keys
    {
      hide *;
      ghost var before, dirty, written0, doc := Now(), dirtyTexts, written, View(room);
      NowIs();
      ValidInStep();
      ghost var puts := PushTexts();
      plan := Plan([], [], [], puts);
      FastPathIsPush(doc, before.held, dirty, pathById, Answers(), puts);
      TextsCaughtUp(doc, before.held, dirty, pathById, puts, written0, writtenBlobs);
      CaughtIs(doc, before.held);
      AfterShortcut(before, puts);
      NowIs();
    }

    /** Removals: files, then folders from the bottom up. */
    method RemoveGone(files: map<Path, string>, blobs: map<Path, string>, folders: set<Path>)
      returns (ghost dels: seq<Path>, ghost gone: seq<Path>)
      requires written.Keys !! writtenBlobs.Keys
      modifies this`written, this`writtenBlobs, this`dirs, agent
      ensures written == Restrict(old(written), files.Keys) && writtenBlobs == Restrict(old(writtenBlobs), blobs.Keys)
      ensures dirs == old(dirs) * folders
      ensures Enumerates(dels, (old(written).Keys - files.Keys - blobs.Keys)
        + (old(writtenBlobs).Keys - blobs.Keys - files.Keys))
      ensures Enumerates(gone, old(dirs) - folders) && SortedDown(gone)
      ensures agent.log == old(agent.log) + (Deletes(dels) + Deletes(gone))
      ensures agent.fs == Run(old(agent.fs), Deletes(dels) + Deletes(gone))
    {
      hide Enumerates, Restrict, Run, Deletes, SortedDown;
      ghost var texts := DeleteTexts(files, blobs);
      ghost var bins := DeleteBlobs(files, blobs);
      gone := DeleteFolders(folders);
      dels := texts + bins;
      EnumeratesBoth(texts, old(written).Keys - files.Keys - blobs.Keys, bins,
        old(writtenBlobs).Keys - blobs.Keys - files.Keys);
      RunsJoin(texts, bins, map[]);
      ThreeRuns(old(agent.log), old(agent.fs), Deletes(texts), Deletes(bins), Deletes(gone));
    }

    /** Additions: folders from the top down, then files. */
    method AddNew(files: map<Path, string>, blobs: map<Path, string>, folders: set<Path>, ghost room: map<Path, Data>)
      returns (ghost made: seq<Path>, ghost puts: seq<Path>)
      requires room == HeldFiles(files, blobs) && files.Keys !! blobs.Keys
      modifies this`written, this`writtenBlobs, this`dirs, agent
      ensures written == old(written) + files && writtenBlobs == old(writtenBlobs) + blobs
        && dirs == old(dirs) + folders
      ensures Enumerates(made, folders - old(dirs)) && Sorted(made)
      ensures Enumerates(puts, Differing(files, old(written), files.Keys)
        + Sendable(blobs, Differing(blobs, old(writtenBlobs), blobs.Keys), Answers()))
      ensures agent.log == old(agent.log) + (Mkdirs(made) + Writes(puts, room))
      ensures agent.fs == Run(old(agent.fs), Mkdirs(made) + Writes(puts, room))
    {
      ghost var a, b := Differing(files, written, files.Keys),
        Sendable(blobs, Differing(blobs, writtenBlobs, blobs.Keys), Answers());
      hide Enumerates, Run, Mkdirs, Writes, Sorted, Differing, Sendable, HeldFiles, Answers;
      PutsApart(written, writtenBlobs, files, blobs, Answers());
      made := MakeFolders(folders);
      ghost var texts := WriteTexts(files, room);
      ghost var bins := WriteBlobs(blobs, room);
      puts := texts + bins;
      EnumeratesBoth(texts, a, bins, b);
      RunsJoin(texts, bins, room);
      ThreeRuns(old(agent.log), old(agent.fs), Mkdirs(made), Writes(texts, room), Writes(bins, room));
      Associate(Mkdirs(made), Writes(texts, room), Writes(bins, room));
    }

    method PushAll() returns (ghost plan: Plan)
      requires RoomOk(room) && written.Keys !! writtenBlobs.Keys
      modifies this`written, this`writtenBlobs, this`dirs, this`treeDirty, this`dirtyTexts, this`pathById, agent
      ensures written.Keys !! writtenBlobs.Keys && !treeDirty && dirtyTexts == {}
      ensures PathsById(TreeOf(room.nodes), pathById) && Held() == Shown(View(room))
      ensures IsPush(old(Held()), Shown(View(room)), Answers(), plan)
      ensures Sent(agent, old(agent.log), old(agent.fs), OpsOf(plan, Shown(View(room))))
    {
      ghost var written0, blobs0, dirs0, doc := written, writtenBlobs, dirs, View(room);
      ViewTree(room);
      hide HeldFiles, Restrict, Differing, Sendable, Enumerates, RoomOk, Shown, PathsById, Run, Deletes, Mkdirs, Writes,
        Sorted, SortedDown, IsPush, InStep, Tracked, Answers, OpsOf, View, TreeOf;
      treeDirty := false;
      dirtyTexts := {};
      var files, blobs, folders := TakeSnapshot();
      ghost var dels, gone := RemoveGone(files, blobs, folders);
      ghost var made, puts := AddNew(files, blobs, folders, Shown(doc).files);
      plan := Plan(dels, gone, made, puts);
      PushDone(doc, pathById, written0, blobs0, dirs0, files, blobs, folders, Answers(), plan, old(agent.log),
        old(agent.fs));
    }

    lemma NowIs()
      ensures Now() == Sync(room, Held(), treeDirty, dirtyTexts, pathById, agent.fs, Answers())
      ensures Held() == Mirror(HeldFiles(written, writtenBlobs), dirs)
      ensures Shows(Now()) == Shown(View(room))
    {
      hide HeldFiles, Shown, View, Answers;
    }

    /**
     * Point at a sandbox and bring it in line with the room, whatever it holds: its files and folders
     * are then the room's exactly if every binary file is in the store or was there already.
     */
    method AttachAgent()
      requires Valid() && TreeShaped(agent.fs)
      modifies this`written, this`writtenBlobs, this`dirs, this`treeDirty, this`dirtyTexts, this`pathById, agent
      ensures Valid() && PathsById(TreeOf(room.nodes), pathById)
      ensures Now() == old(Now()).(
        held := Shows(old(Now())), treeDirty := false, dirty := {}, pathById := pathById, fs := agent.fs)
      ensures agent.fs == FsOf(Shows(Now())) <==> AllAtHand(old(agent.fs), Shows(Now()), Answers())
      ensures agent.fs == FsOf(Shows(Now())) ==> InSync(Now())
    {
      hide HeldFiles, RoomOk, Shown, PathsById, Tracked, WellFormed, TreeShaped, FsOf, AllAtHand, Agrees, View, Answers;
      RoomIsWellFormed(room);
      var files, blobs, folders := TakeSnapshot();
      Fill(files, blobs, folders, Shown(View(room)));
      treeDirty, dirtyTexts := false, {};
      ViewTree(room);
      CaughtUp(View(room), pathById);
    }

    /** Clear away what the room lacks, then send all it has. */
    method Fill(files: map<Path, string>, blobs: map<Path, string>, folders: set<Path>, ghost room: Mirror)
      requires room == Mirror(HeldFiles(files, blobs), folders) && files.Keys !! blobs.Keys
      requires WellFormed(room) && TreeShaped(agent.fs)
      modifies this`written, this`writtenBlobs, this`dirs, agent
      ensures written == files && writtenBlobs == blobs && dirs == folders
      ensures agent.fs == FsOf(room) <==> AllAtHand(old(agent.fs), room, Answers())
      ensures agent.fs == FsOf(room) ==> Agrees(agent.fs, room)
    {
      hide HeldFiles, Differing, Sendable, Enumerates, Run, Mkdirs, Writes, Sorted, Answers, WellFormed, TreeShaped,
        FsOf, Reconciled, AllAtHand, Agrees;
      agent.Reconcile(files.Keys + blobs.Keys, folders);
      written, writtenBlobs, dirs := map[], map[], {};
      ghost var made, puts := AddNew(files, blobs, folders, room.files);
      AttachDone(old(agent.fs), room, files, blobs, Answers(), made, puts);
    }

    // ----- up: what a program did in the sandbox, reported and fully handled

    /** Every folder above a path. */
    method AddParents(path: Path)
      modifies this`dirs
      ensures dirs == old(dirs) + Ancestors(path)
    {
      var i := |path|;
      while i > 0
        invariant 0 <= i <= |path|
        invariant forall d :: d in dirs <==> d in old(dirs) || (Ancestor(d, path) && |d| >= i)
      {
        i := i - 1;
        if 0 < i && path[i] == '/' { dirs := dirs + {path[..i]}; }
      }
    }

    /**
     * A program wrote a file, and the agent reported it. A binary file is not taken up without a store,
     * or if it is too large: then it stays in the sandbox only.
     */
    method ProgramWrote(p: Path, data: Data, bytes: nat, makes: Makes)
      requires Valid()
      requires Enabled(Now(), if Taken(data, bytes) then Wrote(p, data, makes) else LeftAlone(p, data))
      modifies this`room, this`store, this`written, this`writtenBlobs, this`dirs, this`treeDirty, this`dirtyTexts,
        agent`fs
      ensures Valid()
      ensures Now() == After(old(Now()), if Taken(data, bytes) then Wrote(p, data, makes) else LeftAlone(p, data))
    {
      hide *;
      if Taken(data, bytes) {
        ProgramWroteTaken(p, data, makes);
      } else {
        ghost var next := After(Now(), LeftAlone(p, data));
        AfterLeftAloneIs(Now(), p, data);
        ValidIsRight();
        StepKeepsRight(Now(), LeftAlone(p, data));
        agent.fs := agent.fs[p := File(data)];
        ValidIsRight();
        assert Now() == next;
      }
    }

    method ProgramWroteTaken(p: Path, data: Data, makes: Makes)
      requires Valid() && Enabled(Now(), Wrote(p, data, makes)) && (data.Blob? ==> hasStore)
      modifies this`room, this`store, this`written, this`writtenBlobs, this`dirs, this`treeDirty, this`dirtyTexts,
        agent`fs
      ensures Valid() && Now() == After(old(Now()), Wrote(p, data, makes))
    {
      hide *;
      ghost var before := Now();
      ghost var next := After(before, Wrote(p, data, makes));
      ValidIsRight();
      WroteNeeds(before, p, data, makes);
      StepKeepsRight(before, Wrote(p, data, makes));
      AfterWroteIs(before, p, data, makes);
      agent.fs := agent.fs[p := File(data)];
      TakeUp(p, data, makes);
      ValidIsRight();
      assert Now() == next;
    }

    method TakeUp(p: Path, data: Data, makes: Makes)
      requires RoomOk(room) && written.Keys !! writtenBlobs.Keys && (data.Blob? ==> hasStore)
      requires p !in TreeOf(room.nodes) ==> CanMake(room, p, makes) && NoBlankMade(room.nodes, p)
      modifies this`room, this`store, this`written, this`writtenBlobs, this`dirs, this`treeDirty, this`dirtyTexts
      ensures written.Keys !! writtenBlobs.Keys && Held() == Noted(old(Held()), p, data)
      ensures room == AfterWrite(old(room), p, data, makes)
      ensures (treeDirty, dirtyTexts) == Marks(View(old(room)), old(treeDirty), old(dirtyTexts), p, data)
      ensures Answers() == if data.Blob? then old(Answers()) + {data.sha} else old(Answers())
    {
      hide Noted, AfterWrite, Marks, HeldFiles, TreeOf, RoomOk, CanMake, NoBlankMade, View;
      NoteInMirror(p, data);
      NoteInDoc(p, data, makes);
    }

    method NoteInMirror(p: Path, data: Data)
      requires written.Keys !! writtenBlobs.Keys
      modifies this`store, this`written, this`writtenBlobs, this`dirs
      ensures written.Keys !! writtenBlobs.Keys && Held() == Noted(old(Held()), p, data)
      ensures store == if data.Blob? then old(store) + {data.sha} else old(store)
    {
      NotedHeld(written, writtenBlobs, p, data);
      hide HeldFiles;
      match data {
        case Text(text) =>
          written, writtenBlobs := written[p := text], writtenBlobs - {p};
        case Blob(sha) =>
          store := store + {sha};
          written, writtenBlobs := written - {p}, writtenBlobs[p := sha];
      }
      AddParents(p);
    }

    /** The change in the document, and what its observers mark. */
    method NoteInDoc(p: Path, data: Data, makes: Makes)
      requires RoomOk(room)
      requires p !in TreeOf(room.nodes) ==> CanMake(room, p, makes) && NoBlankMade(room.nodes, p)
      modifies this`room, this`treeDirty, this`dirtyTexts
      ensures room == AfterWrite(old(room), p, data, makes)
      ensures (treeDirty, dirtyTexts) == Marks(View(old(room)), old(treeDirty), old(dirtyTexts), p, data)
    {
      var tree := ListTree(room.nodes);
      if p !in tree {
        room := AddFile(p, data, makes);
        treeDirty := true;
      } else if tree[p].FileNode? {
        var id := tree[p].id;
        assert id in room.nodes;
        MarksAre(room, p, data);
        hide WithData;
        if data.Text? && tree[p].blob.None? && id in room.contents {
          if room.contents[id] != data.text { dirtyTexts := dirtyTexts + {id}; }
        } else if tree[p].blob != BlobOf(data) || data.Text? {
          treeDirty := true;
        }
        room := SetData(room, id, data);
      }
    }

    method AddFile(p: Path, data: Data, makes: Makes) returns (next: Room)
      requires RoomOk(room) && CanMake(room, p, makes) && p !in TreeOf(room.nodes) && NoBlankMade(room.nodes, p)
      ensures Covers(makes, p) && p != "" && next == WithFile(room, p, data, makes)
    {
      CanMakeIs(room, p, makes);
      CoversAbove(makes, p);
      assert WellNamed(room.nodes);
      hide CreateAtPath, Covers, NoBlankMade, CanMake, Able, WellNamed, TreeOf;
      var nodes := MakeAtPath(room.nodes, p, BlobOf(data), makes);
      match data {
        case Text(text) => next := Room(nodes, room.contents[makes[p].id := text]);
        case Blob(_) => next := Room(nodes, room.contents);
      }
    }

    /** A program removed a file, and the agent reported it. */
    method ProgramRemoved(p: Path)
      requires Valid() && Enabled(Now(), Removed(p))
      modifies this`room, this`written, this`writtenBlobs, this`treeDirty, agent`fs
      ensures Valid() && Now() == After(old(Now()), Removed(p))
    {
      hide *;
      ghost var before := Now();
      ghost var next := After(before, Removed(p));
      ValidIsRight();
      StepKeepsRight(before, Removed(p));
      AfterRemovedIs(before, p);
      agent.fs := agent.fs - {p};
      Forget(p);
      ValidIsRight();
      assert Now() == next;
    }

    method Forget(p: Path)
      requires RoomOk(room) && written.Keys !! writtenBlobs.Keys
      modifies this`room, this`written, this`writtenBlobs, this`treeDirty
      ensures written.Keys !! writtenBlobs.Keys && Held() == Mirror(old(Held()).files - {p}, old(Held()).dirs)
      ensures var tree := TreeOf(old(room).nodes);
        var live := p in tree && tree[p].FileNode?;
        && (live ==> tree[p].id in old(room).nodes)
        && room == (if live then Trash(old(room), tree[p].id) else old(room))
        && treeDirty == (old(treeDirty) || live)
    {
      RemovedHeld(written, writtenBlobs, p);
      var tree := ListTree(room.nodes);
      hide HeldFiles, TreeOf, Trash;
      written, writtenBlobs := written - {p}, writtenBlobs - {p};
      if p in tree && tree[p].FileNode? {
        room := Trash(room, tree[p].id);
        treeDirty := true;
      }
    }

    /** Folders a program makes, or removes once empty, are not reported: the mirror stays as it is. */
    method ProgramMadeFolder(d: Path)
      requires Valid() && Enabled(Now(), MadeFolder(d))
      modifies agent`fs
      ensures Valid() && Now() == After(old(Now()), MadeFolder(d))
    {
      hide Tracked, RoomOk, HeldFiles, InFolders;
      agent.fs := agent.fs[d := Folder];
    }

    method ProgramRemovedFolder(d: Path)
      requires Valid() && Enabled(Now(), RemovedFolder(d))
      modifies agent`fs
      ensures Valid() && Now() == After(old(Now()), RemovedFolder(d))
    {
      hide Ancestor, Tracked, RoomOk, HeldFiles;
      agent.fs := agent.fs - {d};
    }

    predicate Taken(data: Data, bytes: nat): (taken: bool)
      reads this`hasStore
      ensures taken && data.Blob? ==> hasStore
      ensures !taken <==> data.Blob? && (!hasStore || bytes > MAX_BLOB_BYTES)
    {
      data.Blob? ==> hasStore && bytes <= MAX_BLOB_BYTES
    }
  }

  lemma SnapshotStarts(room: Room, doc: Doc)
    requires RoomOk(room) && doc == Doc(TreeOf(room.nodes), room.contents)
    ensures doc == View(room) && DistinctIds(doc.tree) && PathsAmong(doc.tree, {}, map[])
    ensures TextsAmong(doc, {}) == map[] && BlobsAmong(doc, {}) == map[] && FoldersAmong(doc, {}) == {}
  {
    RoomIsWellFormed(room);
    hide TreeOf, RoomOk, DistinctIds, Ancestor;
  }

  lemma IsOneOf(node: Node)
    ensures IsText(node) <==> node.FileNode? && node.blob.None?
    ensures IsBlob(node) <==> node.FileNode? && node.blob.Some?
  {}

  lemma AfterFullPush(s: Sync, plan: Plan, paths: map<Id, Path>)
    requires s.treeDirty && IsPush(s.held, Shows(s), s.store, plan) && PathsById(TreeOf(s.room.nodes), paths)
    ensures CanPush(s, plan, paths)
    ensures AfterPush(s, plan, paths)
      == Sync(s.room, Shows(s), false, {}, paths, Run(s.fs, OpsOf(plan, Shows(s))), s.store)
  {
    hide IsPush, PathsById, TreeOf, Shown, View, Run, OpsOf;
  }

  lemma AfterShortcut(s: Sync, puts: seq<Path>)
    requires !s.treeDirty && Enumerates(puts, FastPuts(View(s.room), s.held, s.dirty, s.pathById))
    ensures var plan := Plan([], [], [], puts);
      && CanPush(s, plan, s.pathById) && OpsOf(plan, Shows(s)) == Writes(puts, Shown(View(s.room)).files)
      && AfterPush(s, plan, s.pathById) == Sync(
        s.room, Caught(View(s.room), s.held), false, {}, s.pathById, Run(s.fs, OpsOf(plan, Shows(s))), s.store)
  {
    OnlyWrites(puts, Shows(s));
    hide Enumerates, FastPuts, Shown, View, Run, OpsOf, Writes;
  }

  lemma ViewTree(room: Room)
    ensures View(room).tree == TreeOf(room.nodes)
  {}

  lemma AfterWroteIs(s: Sync, p: Path, data: Data, makes: Makes)
    requires Enabled(s, Wrote(p, data, makes))
    ensures p !in TreeOf(s.room.nodes) ==> Covers(makes, p) && p != ""
    ensures var (marked, texts) := Marks(View(s.room), s.treeDirty, s.dirty, p, data);
      After(s, Wrote(p, data, makes)) == Sync(
        AfterWrite(s.room, p, data, makes), Noted(s.held, p, data), marked, texts, s.pathById, s.fs[p := File(data)],
        if data.Blob? then s.store + {data.sha} else s.store)
  {
    hide TreeOf, AfterWrite, Noted, Marks, InFolders, View;
  }

  lemma AfterEditIs(s: Sync, id: Id, text: string)
    requires Enabled(s, SyncSteps.EditText(id, text))
    ensures After(s, SyncSteps.EditText(id, text)) == Sync(
      Room(s.room.nodes, s.room.contents[id := text]), s.held, s.treeDirty, s.dirty + {id}, s.pathById, s.fs, s.store)
  {}

  lemma AfterTreeIs(s: Sync, next: Room, touched: set<Id>)
    requires Enabled(s, SyncSteps.EditTree(next, touched))
    ensures After(s, SyncSteps.EditTree(next, touched))
      == Sync(next, s.held, true, s.dirty + touched, s.pathById, s.fs, s.store)
  {
    hide RoomOk;
  }

  lemma WroteNeeds(s: Sync, p: Path, data: Data, makes: Makes)
    requires Enabled(s, Wrote(p, data, makes))
    ensures p !in TreeOf(s.room.nodes) ==> CanMake(s.room, p, makes) && NoBlankMade(s.room.nodes, p)
  {
    hide TreeOf, CanMake, NoBlankMade;
  }

  lemma AfterLeftAloneIs(s: Sync, p: Path, data: Data)
    requires Enabled(s, LeftAlone(p, data))
    ensures After(s, LeftAlone(p, data))
      == Sync(s.room, s.held, s.treeDirty, s.dirty, s.pathById, s.fs[p := File(data)], s.store)
  {
    hide CanWrite;
  }

  lemma UpdateSame<K, V>(m: map<K, V>, k: K, v: V)
    ensures m[k := v] == m <==> k in m && m[k] == v
  {
    if m[k := v] == m { assert k in m[k := v]; }
  }

  /** What is marked, told from the node and its text. */
  lemma MarksAre(room: Room, p: Path, data: Data)
    requires RoomOk(room) && p in TreeOf(room.nodes) && TreeOf(room.nodes)[p].FileNode?
    ensures var doc := View(room); var node := doc.tree[p];
      WithData(doc, p, data) == doc <==>
        if data.Text? then node.blob.None? && node.id in doc.contents && doc.contents[node.id] == data.text
        else node.blob == Some(data.sha)
  {
    var doc := View(room);
    var node := doc.tree[p];
    assert node.blob.Some? ==> node.id !in doc.contents by {
      RoomIsWellFormed(room);
      hide Ancestor, TreeOf, RoomOk, Shown, DistinctIds;
    }
    hide TreeOf, RoomOk;
    match data {
      case Text(text) =>
        assert WithData(doc, p, data) == Doc(doc.tree[p := FileNode(node.id, None)], doc.contents[node.id := text]);
        UpdateSame(doc.tree, p, FileNode(node.id, None));
        UpdateSame(doc.contents, node.id, text);
      case Blob(sha) =>
        assert WithData(doc, p, data) == Doc(doc.tree[p := FileNode(node.id, Some(sha))], doc.contents - {node.id});
        UpdateSame(doc.tree, p, FileNode(node.id, Some(sha)));
        assert node.id !in doc.contents ==> doc.contents - {node.id} == doc.contents;
    }
  }
}
