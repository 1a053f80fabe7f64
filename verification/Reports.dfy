/** What a report from the sandbox does to the room, to what is marked, and to the next push. */
module Reports {
  import opened Strings
  import opened Paths
  import opened PathNames
  import opened SiblingNames
  import opened RoomNodes
  import opened NewNodes
  import opened NewFiles
  import opened SandboxFs
  import opened PushPlan
  import opened RoomDoc
  import opened Tracking
  import opened Echo
  import opened Removals
  import opened SyncSteps

  // ----- a file that was removed

  ghost predicate LiveFile(s: Sync, p: Path) {
    p in TreeOf(s.room.nodes) && TreeOf(s.room.nodes)[p].FileNode?
  }

  lemma LiveFileIs(s: Sync, p: Path)
    requires Right(s) && Enabled(s, Removed(p)) && LiveFile(s, p)
    ensures p in TreeOf(s.room.nodes)
    ensures var id, next := TreeOf(s.room.nodes)[p].id, After(s, Removed(p));
      && Trashing(s.room.nodes, next.room.nodes, id, p)
      && next.room.contents == s.room.contents && next.treeDirty && p !in next.held.files
      && next.held.dirs == s.held.dirs && id in s.room.nodes
  {
    LiveFileShown(s, p);
    hide ShownAt, WellNamed, Tracked, TreeOf, Trash;
    var id := TreeOf(s.room.nodes)[p].id;
    TrashIs(s.room, id, p);
    AfterRemovedIs(s, p);
  }

  lemma LiveFileShown(s: Sync, p: Path)
    requires Right(s) && LiveFile(s, p)
    ensures p in TreeOf(s.room.nodes) && WellNamed(s.room.nodes)
    ensures var id := TreeOf(s.room.nodes)[p].id;
      id in s.room.nodes && ShownAt(s.room.nodes, id, p) && !s.room.nodes[id].folder
  {
    hide Tracked, PathOf, WellNamed;
  }

  lemma TrashIs(room: Room, id: Id, p: Path)
    requires WellNamed(room.nodes) && ShownAt(room.nodes, id, p) && id in room.nodes && !room.nodes[id].folder
    ensures Trashing(room.nodes, Trash(room, id).nodes, id, p) && Trash(room, id).contents == room.contents
  {
    hide PathOf, WellNamed;
  }

  /**
   * A file that a program removed is at no path of the room's tree; everything else is there still, where it
   * was if that is outside the file's folder; texts stay. The tree is just what it was without the file exactly
   * if nobody beside it has passed over its name.
   */
  lemma RemovedLeavesRoom(s: Sync, p: Path)
    requires Right(s) && Enabled(s, Removed(p)) && LiveFile(s, p)
    ensures var tree, next := TreeOf(s.room.nodes), After(s, Removed(p)).room;
      var id, less := tree[p].id, TreeOf(next.nodes);
      && (forall q :: q in less ==> less[q].id != id)
      && (forall q :: q in tree && q != p ==> exists now ::
           now in less && less[now] == tree[q] && (Dir(p) != "" && !Ancestor(Dir(p), q) ==> now == q))
      && next.contents == s.room.contents
      && id in s.room.nodes && (less == tree - {p} <==> GivesNothingBack(s.room.nodes, id))
  {
    hide *;
    LiveFileIs(s, p);
    var tree, next := TreeOf(s.room.nodes), After(s, Removed(p)).room;
    NotInTree(s.room.nodes, next.nodes, tree[p].id, p);
    TreeWithout(s.room.nodes, next.nodes, tree[p].id, p);
    var less := TreeOf(next.nodes);
    forall q | q in tree && q != p
      ensures exists now ::
        now in less && less[now] == tree[q] && (Dir(p) != "" && !Ancestor(Dir(p), q) ==> now == q)
    {
      OthersInTree(s.room.nodes, next.nodes, tree[p].id, p, q);
    }
  }

  /** What is no live file of the room's is removed from the sandbox alone. */
  lemma RemovedElsewhere(s: Sync, p: Path)
    requires Enabled(s, Removed(p)) && !LiveFile(s, p)
    ensures var next := After(s, Removed(p)); next.room == s.room && next.treeDirty == s.treeDirty
  {}

  /** The next push does not write it again: there is nothing at its path, but for the folder the mirror had there. */
  lemma NotWrittenBack(s: Sync, p: Path, plan: Plan, paths: map<Id, Path>)
    requires Right(s) && Enabled(s, Removed(p)) && LiveFile(s, p) && TreeOf(s.room.nodes)[p].id in s.room.nodes
    requires GivesNothingBack(s.room.nodes, TreeOf(s.room.nodes)[p].id)
    requires CanPush(After(s, Removed(p)), plan, paths)
    ensures var next := After(s, Removed(p));
      (forall op :: op in OpsOf(plan, Shows(next)) ==> op.path != p) <==> p !in s.held.dirs
  {
    hide *;
    var next := After(s, Removed(p));
    LiveFileIs(s, p);
    RemovedLeavesRoom(s, p);
    assert p !in TreeOf(next.room.nodes);
    PushIs(next, plan, paths);
    NotShownIsNotPushed(next.held, View(next.room), next.store, plan, p);
  }

  lemma PushIs(s: Sync, plan: Plan, paths: map<Id, Path>)
    requires CanPush(s, plan, paths) && s.treeDirty
    ensures IsPush(s.held, Shown(View(s.room)), s.store, plan) && View(s.room).tree == TreeOf(s.room.nodes)
    ensures Shows(s) == Shown(View(s.room))
  {
    hide IsPush, TreeOf;
  }

  lemma NotShownIsNotPushed(held: Mirror, doc: Doc, store: set<string>, t: Plan, p: Path)
    requires p !in held.files && p !in doc.tree && IsPush(held, Shown(doc), store, t)
    ensures (forall op :: op in OpsOf(t, Shown(doc)) ==> op.path != p) <==> p !in held.dirs
  {
    hide OpsOf, Sorted, SortedDown, Ancestor;
    OpPaths(t, Shown(doc), p);
    assert p in t.dels <==> p in ToDelete(held, Shown(doc));
    assert p in t.rmdirs <==> p in held.dirs - Shown(doc).dirs;
    assert p in t.mkdirs <==> p in Shown(doc).dirs - held.dirs;
    assert p in t.puts <==> p in ToPut(held, Shown(doc), store);
  }

  // ----- a file that was written

  /**
   * A push by full comparison does nothing at a folder above it exactly if the room shows a folder there, and
   * the mirror had no file there.
   */
  lemma FoldersAboveStay(s: Sync, p: Path, data: Data, makes: Makes, plan: Plan, paths: map<Id, Path>, d: Path)
    requires Right(s) && Enabled(s, Wrote(p, data, makes)) && Ancestor(d, p)
    requires CanPush(After(s, Wrote(p, data, makes)), plan, paths) && After(s, Wrote(p, data, makes)).treeDirty
    ensures var next := After(s, Wrote(p, data, makes));
      (forall op :: op in OpsOf(plan, Shows(next)) ==> op.path != d) <==> d in Shows(next).dirs && d !in s.held.files
  {
    hide *;
    var next := After(s, Wrote(p, data, makes));
    PushIs(next, plan, paths);
    MirrorAbove(s, p, data, makes, d);
    HeldFolderStays(next.held, View(next.room), next.store, plan, d);
  }

  lemma MirrorAbove(s: Sync, p: Path, data: Data, makes: Makes, d: Path)
    requires Enabled(s, Wrote(p, data, makes)) && Ancestor(d, p)
    ensures var next := After(s, Wrote(p, data, makes));
      d in next.held.dirs && (d in next.held.files <==> d in s.held.files)
  {
    hide TreeOf, Marks, CanMake, NoBlankMade, InFolders;
  }

  lemma HeldFolderStays(held: Mirror, doc: Doc, store: set<string>, t: Plan, d: Path)
    requires d in held.dirs && IsPush(held, Shown(doc), store, t)
    ensures (forall op :: op in OpsOf(t, Shown(doc)) ==> op.path != d) <==> d in Shown(doc).dirs && d !in held.files
  {
    hide OpsOf, Sorted, SortedDown, Ancestor;
    OpPaths(t, Shown(doc), d);
    ShownApart(doc);
    assert d in t.dels <==> d in ToDelete(held, Shown(doc));
    assert d in t.rmdirs <==> d in held.dirs - Shown(doc).dirs;
    assert d in t.mkdirs <==> d in Shown(doc).dirs - held.dirs;
    assert d in t.puts <==> d in ToPut(held, Shown(doc), store);
  }

  /** What the sandbox holds then, and what the store can answer for: the file's bytes, if it is binary, among them. */
  lemma WroteReaches(s: Sync, p: Path, data: Data, makes: Makes)
    requires Enabled(s, Wrote(p, data, makes))
    ensures var next := After(s, Wrote(p, data, makes));
      && next.fs == s.fs[p := File(data)] && Available(next.store, data)
      && (data.Text? ==> next.store == s.store) && s.store <= next.store
      && forall sha :: sha in next.store && data != Blob(sha) ==> sha in s.store
  {
    hide TreeOf, Marks, CanMake, NoBlankMade, InFolders, AfterWrite, Noted, View;
  }

  /** The ids whose text the document has before and after, but not the same. */
  function EditedTexts(before: map<Id, string>, after: map<Id, string>): set<Id> {
    set id | id in before && id in after && before[id] != after[id]
  }

  lemma MarksThere(room: Room, treeDirty: bool, dirty: set<Id>, p: Path, data: Data, makes: Makes)
    requires RoomOk(room) && p in TreeOf(room.nodes)
    ensures var (marked, texts) := Marks(View(room), treeDirty, dirty, p, data);
      var next := AfterWrite(room, p, data, makes);
      && (marked <==> treeDirty || next.nodes != room.nodes || next.contents.Keys != room.contents.Keys)
      && texts == dirty + EditedTexts(room.contents, next.contents)
  {
    var tree := TreeOf(room.nodes);
    var id := tree[p].id;
    assert id in room.nodes && tree[p] == NodeOf(room.nodes, id) by { hide PathOf; }
    hide TreeOf, WellNamed;
    if tree[p].FolderNode? {
      assert EditedTexts(room.contents, room.contents) == {};
    } else {
      DataThere(room, id, data);
      WithDataSame(View(room), p, data);
      hide SetData, WithData, EditedTexts, TextNodesOnly;
    }
  }

  lemma WithDataSame(doc: Doc, p: Path, data: Data)
    requires p in doc.tree && doc.tree[p].FileNode?
    ensures WithData(doc, p, data) == doc <==>
      doc.tree[p].blob == BlobOf(data) && HasText(doc.contents, doc.tree[p].id, data)
  {
    var id := doc.tree[p].id;
    match data
    case Text(t) => assert doc.contents[id := t] == doc.contents <==> id in doc.contents && doc.contents[id] == t;
    case Blob(_) => assert doc.contents - {id} == doc.contents <==> id !in doc.contents;
  }

  predicate HasText(contents: map<Id, string>, id: Id, data: Data) {
    if data.Text? then id in contents && contents[id] == data.text else id !in contents
  }

  lemma DataThere(room: Room, id: Id, data: Data)
    requires RoomOk(room) && id in room.nodes && !room.nodes[id].folder
    ensures var next := SetData(room, id, data);
      && (next.nodes == room.nodes <==> room.nodes[id].blob == BlobOf(data))
      && (next.contents.Keys == room.contents.Keys <==> (data.Text? <==> id in room.contents))
      && EditedTexts(room.contents, next.contents) ==
           if data.Text? && id in room.contents && room.contents[id] != data.text then {id} else {}
  {
  }

  lemma MarksNew(room: Room, treeDirty: bool, dirty: set<Id>, p: Path, data: Data, makes: Makes)
    requires RoomOk(room) && p !in TreeOf(room.nodes) && CanMake(room, p, makes)
    ensures Covers(makes, p) && p != ""
    ensures var (marked, texts) := Marks(View(room), treeDirty, dirty, p, data);
      var next := AfterWrite(room, p, data, makes);
      && marked && next.nodes != room.nodes && texts == dirty + EditedTexts(room.contents, next.contents)
  {
    hide *;
    CanMakeIs(room, p, makes);
    MadeIsNew(room, p, makes);
    WithFileIs(room, p, data, makes);
    MadeNode(room.nodes, p, BlobOf(data), makes);
    AfterIsWith(room, treeDirty, dirty, p, data, makes);
    NoneEdited(room.contents, makes[p].id, data);
  }

  lemma MadeIsNew(room: Room, p: Path, makes: Makes)
    requires CanMake(room, p, makes)
    ensures p in makes && makes[p].id !in room.nodes && makes[p].id !in room.contents
  {
    assert OnWay(p, p);
  }

  lemma AfterIsWith(room: Room, treeDirty: bool, dirty: set<Id>, p: Path, data: Data, makes: Makes)
    requires p !in TreeOf(room.nodes) && Covers(makes, p) && p != ""
    ensures AfterWrite(room, p, data, makes) == WithFile(room, p, data, makes)
    ensures Marks(View(room), treeDirty, dirty, p, data) == (true, dirty)
  {
    hide TreeOf, WithFile, Covers;
  }

  lemma NoneEdited(contents: map<Id, string>, id: Id, data: Data)
    requires id !in contents
    ensures EditedTexts(contents, if data.Text? then contents[id := data.text] else contents) == {}
  {}

  /** Nodes, or which of them have a text, are what the tree is marked for; a text that changed is marked itself. */
  lemma MarksWhatChanged(s: Sync, p: Path, data: Data, makes: Makes)
    requires Right(s) && Enabled(s, Wrote(p, data, makes))
    ensures var next := After(s, Wrote(p, data, makes));
      && (next.treeDirty <==>
           s.treeDirty || next.room.nodes != s.room.nodes || next.room.contents.Keys != s.room.contents.Keys)
      && next.dirty == s.dirty + EditedTexts(s.room.contents, next.room.contents)
  {
    hide Tracked, WellNamed, TextNodesOnly, TreeOf, AfterWrite, Noted, Marks, View, InFolders, CanMake, NoBlankMade;
    if p in TreeOf(s.room.nodes) {
      MarksThere(s.room, s.treeDirty, s.dirty, p, data, makes);
    } else {
      MarksNew(s.room, s.treeDirty, s.dirty, p, data, makes);
    }
  }
}
