/** The sync, event by event: when each can come, what it makes of the state, and what it keeps. */
module SyncSteps {
  import opened Strings
  import opened Paths
  import opened PathNames
  import opened SiblingNames
  import opened RoomNodes
  import opened NewNodes
  import opened NewFiles
  import opened SandboxFs
  import opened PushPlan
  import opened PushExact
  import opened RoomDoc
  import opened Tracking
  import opened Echo

  /** What the sync keeps, with the room's document, the sandbox and the object store beside it. */
  datatype Sync = Sync(
    room: Room, held: Mirror, treeDirty: bool, dirty: set<Id>, pathById: map<Id, Path>, fs: Fs, store: set<string>)

  /** One event, with what it brings or what was chosen at it. */
  datatype Action =
    | EditText(id: Id, text: string)
    | EditTree(next: Room, touched: set<Id>)
    | Push(plan: Plan, paths: map<Id, Path>)
    | Wrote(path: Path, data: Data, makes: Makes)
    | LeftAlone(path: Path, data: Data)
    | Removed(path: Path)
    | MadeFolder(path: Path)
    | RemovedFolder(path: Path)

  ghost function Shows(s: Sync): Mirror {
    Shown(View(s.room))
  }

  /** The plan a push can have: the full comparison, or the shortcut's writes when the tree is not marked. */
  ghost predicate CanPush(s: Sync, plan: Plan, paths: map<Id, Path>) {
    if s.treeDirty then
      IsPush(s.held, Shows(s), s.store, plan) && PathsById(TreeOf(s.room.nodes), paths)
    else (
      && plan == Plan([], [], [], plan.puts) && paths == s.pathById
      && Enumerates(plan.puts, FastPuts(View(s.room), s.held, s.dirty, s.pathById)))
  }

  ghost predicate CanWrite(fs: Fs, p: Path) {
    InFolders(fs, p) && !(p in fs && fs[p].Folder?)
  }

  /**
   * A program can write, remove and make folders as file systems go. What it writes is taken up, when no name
   * that has to be made for it is blank, or it is left alone: too large, or binary and there is no store.
   */
  ghost predicate Enabled(s: Sync, a: Action) {
    match a
    case EditText(id, _) => id in s.room.contents
    case EditTree(next, _) => RoomOk(next)
    case Push(plan, paths) => CanPush(s, plan, paths)
    case Wrote(p, _, makes) =>
      CanWrite(s.fs, p) && (p !in TreeOf(s.room.nodes) ==> CanMake(s.room, p, makes) && NoBlankMade(s.room.nodes, p))
    case LeftAlone(p, _) => CanWrite(s.fs, p)
    case Removed(p) => p in s.fs && s.fs[p].File?
    case MadeFolder(d) => d !in s.fs && InFolders(s.fs, d)
    case RemovedFolder(d) => d in s.fs && s.fs[d].Folder? && forall q :: q in s.fs ==> !Ancestor(d, q)
  }

  /** `trash`. */
  function Trash(room: Room, id: Id): Room
    requires id in room.nodes
  {
    room.(nodes := room.nodes[id := room.nodes[id].(trashed := true)])
  }

  ghost function AfterPush(s: Sync, plan: Plan, paths: map<Id, Path>): Sync {
    s.(held := if s.treeDirty then Shows(s) else Caught(View(s.room), s.held), treeDirty := false, dirty := {},
       pathById := paths, fs := Run(s.fs, OpsOf(plan, Shows(s))))
  }

  ghost function AfterWrote(s: Sync, p: Path, data: Data, makes: Makes): Sync
    requires p !in TreeOf(s.room.nodes) ==> Covers(makes, p) && p != ""
  {
    var (marked, texts) := Marks(View(s.room), s.treeDirty, s.dirty, p, data);
    Sync(AfterWrite(s.room, p, data, makes), Noted(s.held, p, data), marked, texts, s.pathById, s.fs[p := File(data)],
      if data.Blob? then s.store + {data.sha} else s.store)
  }

  ghost function AfterRemoved(s: Sync, p: Path): Sync {
    var tree := TreeOf(s.room.nodes);
    var gone := s.(held := Mirror(s.held.files - {p}, s.held.dirs), fs := s.fs - {p});
    if p in tree && tree[p].FileNode? then gone.(room := Trash(s.room, tree[p].id), treeDirty := true) else gone
  }

  ghost function After(s: Sync, a: Action): Sync
    requires Enabled(s, a)
  {
    match a
    case EditText(id, text) =>
      s.(room := Room(s.room.nodes, s.room.contents[id := text]), dirty := s.dirty + {id})
    case EditTree(next, touched) => s.(room := next, treeDirty := true, dirty := s.dirty + touched)
    case Push(plan, paths) => AfterPush(s, plan, paths)
    case Wrote(p, data, makes) => AfterWrote(s, p, data, makes)
    case LeftAlone(p, data) => s.(fs := s.fs[p := File(data)])
    case Removed(p) => AfterRemoved(s, p)
    case MadeFolder(d) => s.(fs := s.fs[d := Folder])
    case RemovedFolder(d) => s.(fs := s.fs - {d})
  }

  /** The memory of the last push is right: unless the tree is marked, only marked texts can differ. */
  ghost predicate Right(s: Sync) {
    RoomOk(s.room) && Tracked(View(s.room), s.held, s.treeDirty, s.dirty, s.pathById)
  }

  /** The mirror's files are the sandbox's. */
  ghost predicate InSync(s: Sync) {
    Agrees(s.fs, s.held)
  }

  /**
   * A push by full comparison can bring the room to the sandbox: the store has what changed, and
   * no unchanged file stands where the mirror still lists a folder. One by shortcut always can.
   */
  ghost predicate Clean(s: Sync) {
    s.treeDirty ==> Answered(s.held, Shows(s), s.store) && NoStaleFolder(s.held, Shows(s))
  }

  /** The steps that keep the mirror's files the sandbox's: a clean push, and a file left alone that changes nothing. */
  ghost predicate Harmless(s: Sync, a: Action) {
    match a
    case Push(_, _) => Clean(s)
    case LeftAlone(p, data) => p in s.held.files && s.held.files[p] == data
    case _ => true
  }

  lemma LeftAloneInSync(fs: Fs, held: Mirror, p: Path, data: Data)
    requires Agrees(fs, held) && CanWrite(fs, p)
    ensures Agrees(fs[p := File(data)], held) <==> p in held.files && held.files[p] == data
  {
    hide Ancestor;
    var next := fs[p := File(data)];
    assert TreeShaped(next);
    assert FilesOf(next) == FilesOf(fs)[p := data];
    if FilesOf(next) == held.files { assert p in FilesOf(next) && FilesOf(next)[p] == data; }
  }

  lemma EditStaysTracked(
      doc: Doc, held: Mirror, treeDirty: bool, dirty: set<Id>, pathById: map<Id, Path>, id: Id, text: string)
    requires DocOk(doc) && Tracked(doc, held, treeDirty, dirty, pathById) && id in doc.contents
    ensures Tracked(Doc(doc.tree, doc.contents[id := text]), held, treeDirty, dirty + {id}, pathById)
  {
    hide Ancestor, TreeOk;
    var next := Doc(doc.tree, doc.contents[id := text]);
    assert Shown(next).dirs == Shown(doc).dirs;
    forall p | p in Shown(doc).files && doc.tree[p].id != id ensures Shown(next).files[p] == Shown(doc).files[p] {}
  }

  lemma EditKeepsRight(s: Sync, id: Id, text: string)
    requires Right(s) && id in s.room.contents
    ensures Right(s.(room := Room(s.room.nodes, s.room.contents[id := text]), dirty := s.dirty + {id}))
  {
    RoomIsWellFormed(s.room);
    assert TextNodesOnly(Room(s.room.nodes, s.room.contents[id := text]));
    hide WellNamed, TreeOf, Tracked, DocOk, TextNodesOnly;
    EditStaysTracked(View(s.room), s.held, s.treeDirty, s.dirty, s.pathById, id, text);
  }

  lemma PushKeepsRight(s: Sync, plan: Plan, paths: map<Id, Path>)
    requires Right(s) && CanPush(s, plan, paths)
    ensures Right(AfterPush(s, plan, paths))
  {
    var doc := View(s.room);
    if s.treeDirty { CaughtUp(doc, paths); } else { CaughtInStep(doc, s.held, s.dirty); }
    hide RoomOk, Shown, PathsById, InStep, IsPush, TreeOf, Caught;
  }

  lemma TrashKeepsOk(room: Room, id: Id)
    requires RoomOk(room) && id in room.nodes
    ensures RoomOk(Trash(room, id))
  {}

  lemma AfterRemovedIs(s: Sync, p: Path)
    requires Enabled(s, Removed(p))
    ensures var tree := TreeOf(s.room.nodes);
      var live := p in tree && tree[p].FileNode?;
      && (live ==> tree[p].id in s.room.nodes)
      && After(s, Removed(p)) == Sync(
        if live then Trash(s.room, tree[p].id) else s.room, Mirror(s.held.files - {p}, s.held.dirs),
        s.treeDirty || live, s.dirty, s.pathById, s.fs - {p}, s.store)
  {
    hide PathOf, Trash;
  }

  lemma RemovedKeepsRight(s: Sync, p: Path)
    requires Right(s)
    ensures Right(AfterRemoved(s, p))
  {
    var tree := TreeOf(s.room.nodes);
    if p in tree && tree[p].FileNode? {
      assert tree[p].id in s.room.nodes;
      TrashKeepsOk(s.room, tree[p].id);
      hide RoomOk, TreeOf, Trash, InStep, PathsById;
    } else {
      hide RoomOk, TreeOf, Tracked;
      RemovedStaysTracked(View(s.room), s.held, s.treeDirty, s.dirty, s.pathById, p);
    }
  }

  /** Whatever happens, the memory stays right. */
  lemma StepKeepsRight(s: Sync, a: Action)
    requires Right(s) && Enabled(s, a)
    ensures Right(After(s, a))
  {
    match a
    case EditText(id, text) => EditKeepsRight(s, id, text);
    case EditTree(_, _) =>
      hide RoomOk;
    case Push(plan, paths) =>
      hide Right, CanPush, AfterPush;
      PushKeepsRight(s, plan, paths);
    case Wrote(p, data, makes) =>
      hide RoomOk, Tracked, AfterWrite, Noted, Marks, InFolders, CanMake, NoBlankMade, TreeOf, View;
      EventStaysTracked(s.room, s.held, s.treeDirty, s.dirty, s.pathById, p, data, makes);
    case Removed(p) =>
      hide Right, AfterRemoved;
      RemovedKeepsRight(s, p);
    case LeftAlone(_, _) =>
      hide RoomOk, Tracked, InFolders;
    case MadeFolder(d) =>
      hide RoomOk, Tracked, InFolders;
    case RemovedFolder(d) =>
      hide RoomOk, Tracked, Ancestor;
  }

  /** A push leaves the mirror and the sandbox with the same files exactly if it was clean. */
  lemma PushInSync(s: Sync, plan: Plan, paths: map<Id, Path>)
    requires Right(s) && InSync(s) && CanPush(s, plan, paths)
    ensures InSync(AfterPush(s, plan, paths)) <==> Clean(s)
  {
    RoomIsWellFormed(s.room);
    if s.treeDirty {
      hide Shown, View, RoomOk, TreeShaped, FilesOf, Answered, NoStaleFolder, OpsOf, Run, IsPush, WellFormed,
        PathsById, Caught;
      PushKeepsFiles(s.fs, s.held, Shows(s), s.store, plan);
    } else {
      hide Shown, View, RoomOk, DocOk, Agrees, OpsOf, Run, WellFormed, PathsById, Caught, InStep, Enumerates, FastPuts;
      ShortcutKeepsFiles(View(s.room), s.fs, s.held, s.dirty, s.pathById, plan.puts);
      OnlyWrites(plan.puts, Shows(s));
    }
  }

  /** A step keeps the mirror's files the sandbox's exactly if it is harmless: all are, but for those two. */
  lemma StepInSync(s: Sync, a: Action)
    requires Right(s) && InSync(s) && Enabled(s, a)
    ensures InSync(After(s, a)) <==> Harmless(s, a)
  {
    match a
    case Push(plan, paths) =>
      hide Right, CanPush, AfterPush, Clean, InSync;
      PushInSync(s, plan, paths);
    case Wrote(p, data, makes) =>
      hide Right, Agrees, AfterWrite, Noted, Marks, InFolders, TreeOf, View;
      WroteInSync(s.fs, s.held, p, data);
    case LeftAlone(p, data) =>
      hide Right, Agrees, InFolders;
      LeftAloneInSync(s.fs, s.held, p, data);
    case Removed(p) =>
      hide Right, Agrees, TreeOf, Trash;
      RemovedInSync(s.fs, s.held, p);
    case MadeFolder(d) =>
      hide Right, Agrees, InFolders;
      FolderInSync(s.fs, s.held, d);
    case RemovedFolder(d) =>
      hide Right, Agrees, Ancestor;
      FolderInSync(s.fs, s.held, d);
    case _ =>
      hide Right, Agrees, RoomOk;
  }

  /**
   * A push right after a program wrote a file has no operation at its path exactly if it is a
   * shortcut, or the room takes the file there and the mirror listed no folder there.
   */
  lemma WroteNotEchoed(s: Sync, p: Path, data: Data, makes: Makes, plan: Plan, paths: map<Id, Path>)
    requires Right(s) && Enabled(s, Wrote(p, data, makes))
    requires CanPush(After(s, Wrote(p, data, makes)), plan, paths)
    ensures var next := After(s, Wrote(p, data, makes));
      (forall op :: op in OpsOf(plan, Shows(next)) ==> op.path != p)
        <==> !next.treeDirty || (p !in s.held.dirs && Takes(s.room.nodes, p, makes))
  {
    var next := After(s, Wrote(p, data, makes));
    WroteIs(s, p, data, makes, plan, paths);
    if !next.treeDirty { ShortcutSparesIt(s, p, data, makes, plan, paths); }
    hide *;
    EchoFree(s.room, s.held, p, data, makes, next.store, plan);
  }

  lemma WroteIs(s: Sync, p: Path, data: Data, makes: Makes, plan: Plan, paths: map<Id, Path>)
    requires Right(s) && Enabled(s, Wrote(p, data, makes))
    requires CanPush(After(s, Wrote(p, data, makes)), plan, paths)
    ensures RoomOk(s.room)
    ensures p !in TreeOf(s.room.nodes) ==> CanMake(s.room, p, makes) && Covers(makes, p) && p != ""
    ensures var next := After(s, Wrote(p, data, makes));
      && Shows(next) == Shown(View(AfterWrite(s.room, p, data, makes)))
      && (next.treeDirty ==> IsPush(Noted(s.held, p, data), Shows(next), next.store, plan))
  {
    hide Tracked, WellNamed, TextNodesOnly, TreeOf, AfterWrite, Noted, Shown, View, IsPush, Marks, FreshMakes, Ancestor;
  }

  /** The shortcut writes edited texts that differ from the mirror, and the program's text is in both. */
  lemma ShortcutSparesIt(s: Sync, p: Path, data: Data, makes: Makes, plan: Plan, paths: map<Id, Path>)
    requires Right(s) && Enabled(s, Wrote(p, data, makes))
    requires var next := After(s, Wrote(p, data, makes)); !next.treeDirty && CanPush(next, plan, paths)
    ensures var next := After(s, Wrote(p, data, makes));
      forall op :: op in OpsOf(plan, Shows(next)) ==> op.path != p
  {
    var next := After(s, Wrote(p, data, makes));
    StepKeepsRight(s, Wrote(p, data, makes));
    RoomIsWellFormed(next.room);
    assert p in TreeOf(s.room.nodes);
    RoomIsWellFormed(s.room);
    if TreeOf(s.room.nodes)[p].FileNode? {
      SetDataShows(s.room, p, data);
      WithDataOk(View(s.room), p, data);
    }
    var doc := View(next.room);
    assert p in Shown(doc).files ==> Shown(doc).files[p] == data;
    OpPaths(plan, Shows(next), p);
    hide *;
    NotPut(doc, next.held, next.dirty, next.pathById, p);
  }

  lemma NotPut(doc: Doc, held: Mirror, dirty: set<Id>, pathById: map<Id, Path>, p: Path)
    requires DocOk(doc) && PathsById(doc.tree, pathById)
    requires p in held.files && (p in Shown(doc).files ==> Shown(doc).files[p] == held.files[p])
    ensures p !in FastPuts(doc, held, dirty, pathById)
  {
    hide Ancestor, TreeOk;
    forall id | id in dirty && NeedsText(doc, held, pathById, id) ensures pathById[id] != p {
      assert doc.tree[pathById[id]].id == id;
      assert Shown(doc).files[pathById[id]] == Text(doc.contents[id]);
    }
  }
}
