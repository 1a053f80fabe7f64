/**
 * The room's files document: its nodes and texts by id, what the sync sees of them, and what a file reported
 * by the sandbox makes of them.
 */
module RoomDoc {
  import opened Strings
  import opened Paths
  import opened PathNames
  import opened SiblingNames
  import opened RoomNodes
  import opened InsertNode
  import opened NewNodes
  import opened NewFiles
  import opened SandboxFs
  import opened PushPlan

  /** The document: texts outlive their nodes, so that a file in the trash keeps its text. */
  datatype Room = Room(nodes: Nodes, contents: map<Id, string>)

  /** What the sync sees: the live tree by path, and the texts. */
  datatype Doc = Doc(tree: Tree, contents: map<Id, string>)

  ghost function View(room: Room): Doc {
    Doc(TreeOf(room.nodes), room.contents)
  }

  /** Of these nodes, only text files have a text. */
  ghost predicate TextsOnly(doc: Doc, ids: set<Id>) {
    forall p :: p in doc.tree && doc.tree[p].id in ids && doc.tree[p].id in doc.contents
      ==> doc.tree[p].FileNode? && doc.tree[p].blob.None?
  }

  ghost predicate DocOk(doc: Doc) {
    TreeOk(doc.tree) && TextsOnly(doc, doc.contents.Keys)
  }

  function TextOf(doc: Doc, id: Id): string {
    if id in doc.contents then doc.contents[id] else ""
  }

  function DataOf(doc: Doc, node: Node): Data
    requires node.FileNode?
  {
    if node.blob.Some? then Blob(node.blob.value) else Text(TextOf(doc, node.id))
  }

  /** Every live file and folder, as the room shows them. */
  function Shown(doc: Doc): Mirror {
    Mirror(
      map p | p in doc.tree && doc.tree[p].FileNode? :: DataOf(doc, doc.tree[p]),
      set p | p in doc.tree && doc.tree[p].FolderNode?)
  }

  lemma ShownIsWellFormed(doc: Doc)
    requires TreeOk(doc.tree)
    ensures WellFormed(Shown(doc))
  {
    hide Ancestor;
  }

  /** Of the nodes, only text files have a text. */
  ghost predicate TextNodesOnly(room: Room) {
    forall id :: id in room.nodes && id in room.contents ==> !room.nodes[id].folder && room.nodes[id].blob.None?
  }

  ghost predicate RoomOk(room: Room) {
    WellNamed(room.nodes) && TextNodesOnly(room)
  }

  /** Whatever the nodes, moved, renamed or in the trash: the room shows files and folders in folders, each once. */
  lemma RoomIsWellFormed(room: Room)
    requires RoomOk(room)
    ensures DocOk(View(room)) && WellFormed(Shown(View(room)))
  {
    TreeIsTree(room.nodes);
    hide ShownAt, Ancestor, WellNamed, TreeOk, CaseApart;
    ShownIsWellFormed(View(room));
  }

  ghost predicate PathsById(tree: Tree, pathById: map<Id, Path>) {
    && (forall p :: p in tree ==> tree[p].id in pathById && pathById[tree[p].id] == p)
    && (forall id :: id in pathById ==> pathById[id] in tree && tree[pathById[id]].id == id)
  }

  /** A live node is shown at its path: a folder, the bytes of its hash, or its text, which is empty if it has none. */
  lemma ShownData(room: Room, id: Id, p: Path)
    requires RoomOk(room) && ShownAt(room.nodes, id, p) && id in room.nodes
    ensures var shown := Shown(View(room)); var r := room.nodes[id];
      && (p in shown.dirs <==> r.folder) && (p in shown.files <==> !r.folder)
      && (!r.folder && r.blob == None && id in room.contents ==> shown.files[p] == Text(room.contents[id]))
      && (!r.folder && r.blob == None && id !in room.contents ==> shown.files[p] == Text(""))
      && (!r.folder && r.blob.Some? ==> shown.files[p] == Blob(r.blob.value))
  {
    hide PathOf, WellNamed;
    ShownIsInTree(room.nodes, id, p);
  }

  // ----- new data in a file that is there

  /** The document with new data in a file it has. */
  function WithData(doc: Doc, path: Path, data: Data): Doc
    requires path in doc.tree && doc.tree[path].FileNode?
  {
    var id := doc.tree[path].id;
    match data
    case Text(t) => Doc(doc.tree[path := FileNode(id, None)], doc.contents[id := t])
    case Blob(sha) => Doc(doc.tree[path := FileNode(id, Some(sha))], doc.contents - {id})
  }

  lemma WithDataOk(doc: Doc, path: Path, data: Data)
    requires DocOk(doc) && path in doc.tree && doc.tree[path].FileNode?
    ensures DocOk(WithData(doc, path, data))
    ensures Shown(WithData(doc, path, data)) == Mirror(Shown(doc).files[path := data], Shown(doc).dirs)
  {
    var next := WithData(doc, path, data);
    SameNodes(doc, next, path);
    WithDataTexts(doc, path, data);
    hide Ancestor, WithData, TreeOk, TextsOnly;
    assert Shown(next).dirs == Shown(doc).dirs;
    assert Shown(next).files == Shown(doc).files[path := data] by {
      forall p | p in Shown(doc).files && p != path ensures DataOf(next, next.tree[p]) == DataOf(doc, doc.tree[p]) {}
    }
  }

  lemma WithDataTexts(doc: Doc, path: Path, data: Data)
    requires DocOk(doc) && path in doc.tree && doc.tree[path].FileNode?
    ensures var next := WithData(doc, path, data);
      TextsOnly(next, next.contents.Keys) && next.tree.Keys == doc.tree.Keys && DataOf(next, next.tree[path]) == data
    ensures forall id :: id != doc.tree[path].id ==> TextOf(WithData(doc, path, data), id) == TextOf(doc, id)
  {
    hide Ancestor;
  }

  lemma SameNodes(doc: Doc, next: Doc, path: Path)
    requires path in doc.tree && path in next.tree && next.tree == doc.tree[path := next.tree[path]]
    requires next.tree[path].FileNode? && doc.tree[path].FileNode? && next.tree[path].id == doc.tree[path].id
    requires TreeOk(doc.tree)
    ensures TreeOk(next.tree)
    ensures forall p :: p in doc.tree && p != path ==>
      next.tree[p] == doc.tree[p] && next.tree[p].id != doc.tree[path].id
  {
    hide Ancestor;
  }

  /** `setFileText`, or `setBlob`. */
  function SetData(room: Room, id: Id, data: Data): Room
    requires id in room.nodes
  {
    match data
    case Text(t) => Room(WithBlob(room.nodes, id, None), room.contents[id := t])
    case Blob(sha) => Room(WithBlob(room.nodes, id, Some(sha)), room.contents - {id})
  }

  /** The room then shows the data at the file's path, and all else as it did. */
  lemma SetDataShows(room: Room, p: Path, data: Data)
    requires RoomOk(room) && p in TreeOf(room.nodes) && TreeOf(room.nodes)[p].FileNode?
    ensures var next := SetData(room, TreeOf(room.nodes)[p].id, data);
      RoomOk(next) && View(next) == WithData(View(room), p, data)
  {
    var tree := TreeOf(room.nodes);
    var id := tree[p].id;
    var blob := if data.Blob? then Some(data.sha) else None;
    assert id in room.nodes && !room.nodes[id].folder;
    SetDataTexts(room, id, data);
    assert TreeOf(WithBlob(room.nodes, id, blob)) == tree[p := FileNode(id, blob)] by {
      assert WellNamed(room.nodes);
      hide *;
      TreeIsTree(room.nodes);
      IdsDiffer(tree);
      BlobInTree(room.nodes, id, blob);
    }
    BlobShows(room.nodes, id, blob);
    hide ShownAt, WellNamed, TreeOf, WithBlob, TextNodesOnly;
  }

  lemma IdsDiffer(tree: Tree)
    requires TreeOk(tree)
    ensures forall p, q :: p in tree && q in tree && tree[p].id == tree[q].id ==> p == q
  {}

  lemma SetDataTexts(room: Room, id: Id, data: Data)
    requires TextNodesOnly(room) && id in room.nodes && !room.nodes[id].folder
    ensures TextNodesOnly(SetData(room, id, data))
  {}

  // ----- a file that was not there

  /** Ids and times for the nodes to be made at `p`, a path of the room's kind: ids that nothing has yet. */
  ghost predicate CanMake(room: Room, p: Path, makes: Makes) {
    && p != "" && p[0] != '/' && Covers(makes, p) && FreshMakes(room.nodes, p, makes)
    && forall a :: OnWay(a, p) && a in makes ==> makes[a].id !in room.contents
  }

  /** `createFileAtPath`, or `createBinaryFileAtPath`. */
  ghost function WithFile(room: Room, p: Path, data: Data, makes: Makes): Room
    requires Covers(makes, p) && p != ""
  {
    CoversAbove(makes, p);
    match data
    case Text(t) => Room(CreateAtPath(room.nodes, p, None, makes), room.contents[makes[p].id := t])
    case Blob(sha) => Room(CreateAtPath(room.nodes, p, Some(sha), makes), room.contents)
  }

  function BlobOf(data: Data): Option<string> {
    if data.Blob? then Some(data.sha) else None
  }

  lemma WithFileIs(room: Room, p: Path, data: Data, makes: Makes)
    requires Covers(makes, p) && p != ""
    ensures p in makes
    ensures var next := WithFile(room, p, data, makes); var id := makes[p].id;
      && next.nodes == CreateAtPath(room.nodes, p, BlobOf(data), makes) && View(next).tree == TreeOf(next.nodes)
      && next.contents == (if data.Text? then room.contents[id := data.text] else room.contents)
      && DataOf(View(next), FileNode(id, BlobOf(data))) == data
  {
    CoversAbove(makes, p);
    hide TreeOf, CreateAtPath;
  }

  lemma CanMakeIs(room: Room, p: Path, makes: Makes)
    requires CanMake(room, p, makes)
    ensures p != "" && Covers(makes, p) && (WellNamed(room.nodes) ==> Able(room.nodes, p, makes))
  {
    hide WellNamed;
  }

  /** The new file is shown at `p` exactly if it fits there, and has its data. */
  lemma WithFileShows(room: Room, p: Path, data: Data, makes: Makes)
    requires WellNamed(room.nodes) && CanMake(room, p, makes) && p !in TreeOf(room.nodes)
    ensures Covers(makes, p) && p != ""
    ensures var doc := View(WithFile(room, p, data, makes));
      && (p in doc.tree <==> Fits(room.nodes, p, makes))
      && (p in doc.tree ==> doc.tree[p].FileNode? && DataOf(doc, doc.tree[p]) == data)
  {
    hide *;
    CanMakeIs(room, p, makes);
    WithFileIs(room, p, data, makes);
    MadeInTree(room.nodes, p, BlobOf(data), makes);
  }

  /** It breaks no rule of the room exactly if no name that has to be made for it is blank. */
  lemma WithFileOk(room: Room, p: Path, data: Data, makes: Makes)
    requires RoomOk(room) && CanMake(room, p, makes) && p !in TreeOf(room.nodes)
    ensures Covers(makes, p) && p != ""
    ensures RoomOk(WithFile(room, p, data, makes)) <==> NoBlankMade(room.nodes, p)
  {
    hide *;
    CanMakeIs(room, p, makes);
    RoomOkIs(room);
    WithFileTexts(room, p, data, makes);
    MadeNamed(room.nodes, p, BlobOf(data), makes);
    WithFileIs(room, p, data, makes);
    RoomOkIs(WithFile(room, p, data, makes));
  }

  lemma RoomOkIs(room: Room)
    ensures RoomOk(room) <==> WellNamed(room.nodes) && TextNodesOnly(room)
  {}

  lemma WithFileTexts(room: Room, p: Path, data: Data, makes: Makes)
    requires WellNamed(room.nodes) && TextNodesOnly(room) && CanMake(room, p, makes) && p !in TreeOf(room.nodes)
    ensures Covers(makes, p) && p != ""
    ensures TextNodesOnly(WithFile(room, p, data, makes))
  {
    CanMakeIs(room, p, makes);
    var next := WithFile(room, p, data, makes);
    assert data.Text? ==> BlobOf(data) == None;
    MadeIdsApart(room, p, makes);
    hide WithFile, CanMake, BlobOf, OnWay, Able, WellNamed, Covers;
    WithFileIs(room, p, data, makes);
    MadeIsShown(room.nodes, p, BlobOf(data), makes);
    GrownIs(room.nodes, next.nodes, p, makes);
    MadeNode(room.nodes, p, BlobOf(data), makes);
    hide CreateAtPath, TreeOf, View, DataOf, Grown, Fits, ShownAt;
    forall id | id in next.nodes && id in next.contents ensures !next.nodes[id].folder && next.nodes[id].blob.None? {
      if id !in room.nodes {
        var a :| OnWay(a, p) && a in makes && makes[a].id == id;
      }
    }
  }

  lemma MadeIdsApart(room: Room, p: Path, makes: Makes)
    requires CanMake(room, p, makes)
    ensures p in makes
    ensures forall a :: OnWay(a, p) && a in makes ==>
      makes[a].id !in room.contents && (makes[a].id == makes[p].id ==> a == p)
  {
    assert OnWay(p, p);
  }

  /** What a file reported by the sandbox makes of the document; at a folder's path, nothing. */
  ghost function AfterWrite(room: Room, p: Path, data: Data, makes: Makes): Room
    requires p !in TreeOf(room.nodes) ==> Covers(makes, p) && p != ""
  {
    var tree := TreeOf(room.nodes);
    if p in tree then if tree[p].FileNode? then SetData(room, tree[p].id, data) else room
    else WithFile(room, p, data, makes)
  }

  /** New text for a text file is an edit of its text; anything else changes the tree. */
  predicate TextEdit(doc: Doc, p: Path, data: Data)
    requires p in doc.tree && doc.tree[p].FileNode?
  {
    data.Text? && doc.tree[p].blob.None? && doc.tree[p].id in doc.contents
  }

  /** What the document's observers mark; data a file has already is no change. */
  function Marks(doc: Doc, treeDirty: bool, dirty: set<Id>, p: Path, data: Data): (bool, set<Id>) {
    if p !in doc.tree then (true, dirty)
    else if doc.tree[p].FolderNode? || WithData(doc, p, data) == doc then (treeDirty, dirty)
    else if TextEdit(doc, p, data) then (treeDirty, dirty + {doc.tree[p].id})
    else (true, dirty)
  }

  /** The room takes a file at `p` if it shows a file there, or nothing and it fits. */
  ghost predicate Takes(nodes: Nodes, p: Path, makes: Makes) {
    if p in TreeOf(nodes) then TreeOf(nodes)[p].FileNode? else Fits(nodes, p, makes)
  }

  /**
   * The room shows a reported file as that file at that path exactly when it has a file there
   * already or nothing is shown there and the file fits.
   */
  lemma ShownThere(room: Room, p: Path, data: Data, makes: Makes)
    requires RoomOk(room)
    requires p !in TreeOf(room.nodes) ==> CanMake(room, p, makes)
    ensures p !in TreeOf(room.nodes) ==> Covers(makes, p) && p != ""
    ensures var files := Shown(View(AfterWrite(room, p, data, makes))).files;
      && (p in files ==> files[p] == data)
      && (p in files <==> Takes(room.nodes, p, makes))
  {
    var tree := TreeOf(room.nodes);
    if p !in tree {
      WithFileShows(room, p, data, makes);
    } else if tree[p].FileNode? {
      SetDataShows(room, p, data);
      RoomIsWellFormed(room);
      WithDataOk(View(room), p, data);
    }
    hide Fits, Able, WithFile, CanMake, SetData, WithData, View;
  }
}
