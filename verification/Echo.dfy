/**
 * What comes back to the sandbox of a change that came from it: when the next push leaves a program's file
 * alone, and inputs at which it removes the file again.
 */
module Echo {
  import opened Strings
  import opened WhiteSpace
  import opened Paths
  import opened PathNames
  import opened SiblingNames
  import opened RoomNodes
  import opened Newcomers
  import opened InsertNode
  import opened InsertPaths
  import opened NewNodes
  import opened NewFiles
  import opened SandboxFs
  import opened PushPlan
  import opened RoomDoc
  import opened Tracking

  /**
   * A file reported by the sandbox causes no operation on its path at the next push, whatever
   * else that push does, exactly when the room shows it as that file at that path and the
   * mirror did not list a folder there.
   */
  lemma NoEcho(held: Mirror, p: Path, data: Data, room: Mirror, store: set<string>, t: Plan)
    requires room.files.Keys !! room.dirs && IsPush(Noted(held, p, data), room, store, t)
    requires p in room.files ==> room.files[p] == data
    ensures (forall op :: op in OpsOf(t, room) ==> op.path != p) <==> p !in held.dirs && p in room.files
  {
    var noted := Noted(held, p, data);
    assert p !in Ancestors(p);
    hide Ancestor, Sorted, SortedDown;
    OpPaths(t, room, p);
    assert p in t.dels <==> p in ToDelete(noted, room);
    assert p in t.rmdirs <==> p in noted.dirs - room.dirs;
    assert p in t.mkdirs <==> p in room.dirs - noted.dirs;
    assert p in t.puts <==> p in ToPut(noted, room, store);
  }

  lemma ShownApart(doc: Doc)
    ensures Shown(doc).files.Keys !! Shown(doc).dirs
  {}

  /**
   * So a program's change is echoed at its own path exactly when the mirror still lists a
   * folder there, or the room has a folder there, or a new file does not fit there: a name that
   * differs only in case, or a file in place of a folder above it, is in the way, a name to be
   * made is changed by trimming it, or there are more than 65 names.
   */
  lemma EchoFree(room: Room, held: Mirror, p: Path, data: Data, makes: Makes, store: set<string>, t: Plan)
    requires RoomOk(room)
    requires p !in TreeOf(room.nodes) ==> CanMake(room, p, makes)
    ensures p !in TreeOf(room.nodes) ==> Covers(makes, p) && p != ""
    ensures var shown := Shown(View(AfterWrite(room, p, data, makes)));
      IsPush(Noted(held, p, data), shown, store, t) ==>
        ((forall op :: op in OpsOf(t, shown) ==> op.path != p) <==> p !in held.dirs && Takes(room.nodes, p, makes))
  {
    hide *;
    ShownThere(room, p, data, makes);
    var shown := Shown(View(AfterWrite(room, p, data, makes)));
    ShownApart(View(AfterWrite(room, p, data, makes)));
    if IsPush(Noted(held, p, data), shown, store, t) {
      NoEcho(held, p, data, shown, store, t);
    }
  }

  /** What the room does not take, it shows no file for: the next push removes it from the sandbox. */
  lemma NotTakenIsDeleted(room: Room, held: Mirror, p: Path, data: Data, makes: Makes, store: set<string>, t: Plan)
    requires RoomOk(room) && !Takes(room.nodes, p, makes)
    requires p !in TreeOf(room.nodes) ==> CanMake(room, p, makes)
    ensures p !in TreeOf(room.nodes) ==> Covers(makes, p) && p != ""
    ensures var shown := Shown(View(AfterWrite(room, p, data, makes)));
      IsPush(Noted(held, p, data), shown, store, t) ==> Delete(p) in OpsOf(t, shown)
  {
    hide *;
    ShownThere(room, p, data, makes);
    NotedHasIt(held, p, data);
    var shown := Shown(View(AfterWrite(room, p, data, makes)));
    if IsPush(Noted(held, p, data), shown, store, t) { MissingIsDeleted(Noted(held, p, data), p, shown, store, t); }
  }

  lemma MissingIsDeleted(held: Mirror, p: Path, shown: Mirror, store: set<string>, t: Plan)
    requires IsPush(held, shown, store, t) && p in held.files && p !in shown.files
    ensures Delete(p) in OpsOf(t, shown)
  {
    assert p in ToDelete(held, shown);
    DeletesIn(t, shown, p);
  }

  lemma NotedHasIt(held: Mirror, p: Path, data: Data)
    ensures p in Noted(held, p, data).files
  {}

  lemma DeletesIn(t: Plan, room: Mirror, p: Path)
    requires p in t.dels
    ensures Delete(p) in OpsOf(t, room)
  {
    var i :| 0 <= i < |t.dels| && t.dels[i] == p;
    assert Deletes(t.dels)[i] == Delete(p);
  }

  lemma OpPaths(t: Plan, room: Mirror, p: Path)
    ensures (exists op :: op in OpsOf(t, room) && op.path == p)
      <==> p in t.dels || p in t.rmdirs || p in t.mkdirs || p in t.puts
  {
    var a, b, c, d := Deletes(t.dels), Deletes(t.rmdirs), Mkdirs(t.mkdirs), Writes(t.puts, room.files);
    var ops := OpsOf(t, room);
    assert forall op :: op in ops <==> op in a || op in b || op in c || op in d;
    if p in t.dels { var i :| 0 <= i < |t.dels| && t.dels[i] == p; assert a[i] in ops && a[i].path == p; }
    if p in t.rmdirs { var i :| 0 <= i < |t.rmdirs| && t.rmdirs[i] == p; assert b[i] in ops && b[i].path == p; }
    if p in t.mkdirs { var i :| 0 <= i < |t.mkdirs| && t.mkdirs[i] == p; assert c[i] in ops && c[i].path == p; }
    if p in t.puts { var i :| 0 <= i < |t.puts| && t.puts[i] == p; assert d[i] in ops && d[i].path == p; }
  }

  // ----- inputs that do come back

  /** At the next push, whatever else it does, what the program wrote is removed again. */
  ghost predicate Echoed(room: Room, held: Mirror, p: Path, data: Data, makes: Makes, store: set<string>)
    requires p !in TreeOf(room.nodes) ==> Covers(makes, p) && p != ""
  {
    var shown := Shown(View(AfterWrite(room, p, data, makes)));
    forall t :: IsPush(Noted(held, p, data), shown, store, t) ==> Delete(p) in OpsOf(t, shown)
  }

  lemma NotTakenIsEchoed(room: Room, held: Mirror, p: Path, data: Data, makes: Makes, store: set<string>)
    requires RoomOk(room) && !Takes(room.nodes, p, makes)
    requires p !in TreeOf(room.nodes) ==> CanMake(room, p, makes)
    ensures p !in TreeOf(room.nodes) ==> Covers(makes, p) && p != ""
    ensures Echoed(room, held, p, data, makes, store)
  {
    if p !in TreeOf(room.nodes) { CanMakeIs(room, p, makes); }
    hide RoomOk, Takes, CanMake, Shown, View, AfterWrite, IsPush, Noted, OpsOf, TreeOf, Covers;
    forall t | IsPush(Noted(held, p, data), Shown(View(AfterWrite(room, p, data, makes))), store, t)
      ensures Delete(p) in OpsOf(t, Shown(View(AfterWrite(room, p, data, makes))))
    {
      NotTakenIsDeleted(room, held, p, data, makes, store, t);
    }
  }

  function OneFile(name: string, at: int, text: string): Room {
    Room(map[1 := Record(false, name, None, at, false, None)], map[1 := text])
  }

  lemma TreeOfOne(name: string, at: int, text: string)
    requires name != "" && '/' !in name
    ensures RoomOk(OneFile(name, at, text)) && TreeOf(OneFile(name, at, text).nodes) == map[name := FileNode(1, None)]
  {
    var nodes := OneFile(name, at, text).nodes;
    assert Siblings(nodes, None) == {1};
    NamesOfOne(nodes, 1);
    assert PathOf(nodes, 1, MOST_PARTS) == Some(name);
    ShownIsInTree(nodes, 1, name);
  }

  /** A name that trimming changes: `a` with a space after it, in an empty room. */
  lemma UntrimmedIsEchoed(held: Mirror, data: Data, makes: Makes, store: set<string>)
    requires CanMake(Room(map[], map[]), "a ", makes)
    ensures TreeOf(map[]) == map[]
    ensures Echoed(Room(map[], map[]), held, "a ", data, makes, store)
  {
    assert RoomOk(Room(map[], map[])) && TreeOf(map[]) == map[];
    UntrimmedDoesNotFit(makes);
    hide *;
    NotTakenIsEchoed(Room(map[], map[]), held, "a ", data, makes, store);
  }

  lemma UntrimmedDoesNotFit(makes: Makes)
    ensures !Takes(map[], "a ", makes)
  {
    var p := "a ";
    assert OnWay(p, p) && '/' !in p && !Trimmed(p, JsSpace) && TreeOf(map[]) == map[] && !FolderAt(map[], p);
    hide Trim, Base, Ancestor, Parts, LastSlash, FolderAt;
    BaseOfName(p);
    TrimmedStays(p, JsSpace);
    assert !Passes(map[], p, makes);
  }

  /** A name that the room has in another case, for a file that is older than the new one. */
  lemma OtherCaseIsEchoed(at: int, held: Mirror, data: Data, makes: Makes, store: set<string>)
    requires var room := OneFile("Readme", at, "x");
      && CanMake(room, "README", makes) && "README" in makes
      && OlderThan(room.nodes, 1, makes["README"].id, makes["README"].at)
    ensures "README" !in TreeOf(OneFile("Readme", at, "x").nodes)
    ensures Echoed(OneFile("Readme", at, "x"), held, "README", data, makes, store)
  {
    TreeOfOne("Readme", at, "x");
    assert "README" !in map["Readme" := FileNode(1, None)];
    OtherCaseDoesNotFit(at, makes);
    CanMakeIs(OneFile("Readme", at, "x"), "README", makes);
    hide *;
    NotTakenIsEchoed(OneFile("Readme", at, "x"), held, "README", data, makes, store);
  }

  lemma OtherCaseDoesNotFit(at: int, makes: Makes)
    requires "README" in makes
    requires OlderThan(OneFile("Readme", at, "x").nodes, 1, makes["README"].id, makes["README"].at)
    ensures !Takes(OneFile("Readme", at, "x").nodes, "README", makes)
  {
    hide *;
    var nodes := OneFile("Readme", at, "x").nodes;
    TreeOfOne("Readme", at, "x");
    OtherCase();
    BaseOfName("README");
    FolderInTree(nodes, "README");
    RoomOkIs(OneFile("Readme", at, "x"));
    FolderThereIs(nodes, "README");
    SomebodyOlder(nodes, "README", makes["README"], 1, "Readme");
    PassesIs(nodes, "README", makes);
    OwnWay("README");
    DoesNotPass(nodes, "README", makes);
  }

  lemma OtherCase()
    ensures Lower("Readme") == Lower("README") && '/' !in "README"
    ensures "README" !in map["Readme" := FileNode(1, None)] && map["Readme" := FileNode(1, None)]["Readme"].id == 1
  {
    assert Lower("Readme") == "readme" == Lower("README");
  }

  lemma SomebodyOlder(nodes: Nodes, p: Path, m: Made, x: Id, q: Path)
    requires ShownAt(nodes, x, q) && Lower(q) == Lower(p) && OlderThan(nodes, x, m.id, m.at)
    ensures !NobodyOlder(nodes, p, m)
  {
    hide Lower, OlderThan;
  }

  lemma DoesNotPass(nodes: Nodes, p: Path, makes: Makes)
    requires p !in TreeOf(nodes) && OnWay(p, p) && !Passes(nodes, p, makes)
    ensures !Takes(nodes, p, makes)
  {
    hide TreeOf, Passes, OnWay, Parts;
  }

  /** A path of more than 65 names, in any room. */
  lemma TooDeepIsEchoed(room: Room, held: Mirror, p: Path, data: Data, makes: Makes, store: set<string>)
    requires RoomOk(room) && CanMake(room, p, makes) && Parts(p) > 65
    ensures p !in TreeOf(room.nodes)
    ensures Echoed(room, held, p, data, makes, store)
  {
    if p in TreeOf(room.nodes) {
      PathHasParts(room.nodes, TreeOf(room.nodes)[p].id, MOST_PARTS, MOST_PARTS);
    }
    assert !Takes(room.nodes, p, makes);
    hide RoomOk, CanMake, TreeOf, Takes;
    NotTakenIsEchoed(room, held, p, data, makes, store);
  }

  lemma OlderIsShown(at: int, makes: Makes)
    requires var room := OneFile("Readme", at, "x");
      && CanMake(room, "README", makes) && "README" in makes
      && !OlderThan(room.nodes, 1, makes["README"].id, makes["README"].at)
    ensures Covers(makes, "README")
    ensures var tree := TreeOf(WithFile(OneFile("Readme", at, "x"), "README", Text("y"), makes).nodes);
      "README" in tree && tree["README"] == FileNode(makes["README"].id, None) && "Readme" !in tree
  {
    hide *;
    var room, m := OneFile("Readme", at, "x"), makes["README"];
    NotOlder(at, m);
    var nodes := room.nodes[m.id := Record(false, "README", None, m.at, false, None)];
    CanMakeIs(room, "README", makes);
    IdIsNew(room, at, makes);
    OlderNodes(room, makes);
    OlderNames(m, at);
    OlderTree(nodes, m);
  }

  lemma NotOlder(at: int, m: Made)
    requires !OlderThan(OneFile("Readme", at, "x").nodes, 1, m.id, m.at)
    ensures m.at < at || (m.at == at && m.id <= 1)
  {}

  lemma OlderNodes(room: Room, makes: Makes)
    requires Covers(makes, "README") && "README" in makes
    ensures WithFile(room, "README", Text("y"), makes).nodes
      == room.nodes[makes["README"].id := Record(false, "README", None, makes["README"].at, false, None)]
  {
    assert BlobOf(Text("y")) == None;
    hide *;
    OlderRecord(makes["README"]);
    WithFileIs(room, "README", Text("y"), makes);
    CoversAbove(makes, "README");
    RootFolder(room.nodes, makes);
    CreateIs(room.nodes, "README", room.nodes, None, None, makes);
  }

  lemma OlderTree(nodes: Nodes, m: Made)
    requires m.id in nodes && nodes[m.id] == Record(false, "README", None, m.at, false, None)
    requires (forall x :: ShownAt(nodes, x, "README") <==> x == m.id) && (forall x :: !ShownAt(nodes, x, "Readme"))
    ensures var tree := TreeOf(nodes);
      "README" in tree && tree["README"] == FileNode(m.id, None) && "Readme" !in tree
  {
    assert NodeOf(nodes, m.id) == FileNode(m.id, None);
    hide *;
    OnlyShown(nodes, "README", m.id, true);
    OnlyShown(nodes, "Readme", m.id, false);
  }

  lemma IdIsNew(room: Room, at: int, makes: Makes)
    requires room == OneFile("Readme", at, "x") && CanMake(room, "README", makes)
    ensures "README" in makes && makes["README"].id != 1
  {
    assert OnWay("README", "README");
  }

  lemma OlderRecord(m: Made)
    ensures Dir("README") == "" && NewRecord(m, false, Base("README"), None, None)
      == Record(false, "README", None, m.at, false, None)
  {
    assert '/' !in "README" && Trimmed("README", JsSpace);
    hide Trim, Base, Dir, LastSlash;
    BaseOfName("README");
    TrimmedStays("README", JsSpace);
  }

  lemma AtTheRoot(nodes: Nodes, id: Id)
    requires id in nodes && !nodes[id].trashed && nodes[id].parent.None?
    ensures id in Siblings(nodes, None)
    ensures forall p :: ShownAt(nodes, id, p) <==> p == Names(nodes, Siblings(nodes, None))[id]
  {
    assert Above(nodes, id) == None && IsLive(nodes, id, {});
    AmongSiblings(nodes, id);
    PathFrom(nodes, id, MOST_PARTS);
    hide IsLive, Names, PathOf, NameOf, Siblings;
  }

  lemma OnlyThose(nodes: Nodes)
    ensures forall x, p :: ShownAt(nodes, x, p) ==> x in nodes
  {}

  lemma OlderNames(m: Made, at: int)
    requires m.id != 1 && (m.at < at || (m.at == at && m.id < 1))
    ensures var nodes := OneFile("Readme", at, "x").nodes[m.id := Record(false, "README", None, m.at, false, None)];
      && m.id in nodes && (forall x :: ShownAt(nodes, x, "README") <==> x == m.id)
      && (forall x :: !ShownAt(nodes, x, "Readme"))
  {
    var id := m.id;
    var nodes := OneFile("Readme", at, "x").nodes[id := Record(false, "README", None, m.at, false, None)];
    assert Siblings(nodes, None) == {id, 1};
    assert Lower("Readme") == "readme" == Lower("README");
    AtTheRoot(nodes, id);
    AtTheRoot(nodes, 1);
    assert nodes[id].name == "README" && nodes[1].name == "Readme" && Older(nodes, id, 1) && nodes.Keys == {id, 1};
    hide *;
    NamesOfTwo(nodes, id, 1);
    SiblingsApart(nodes, {id, 1}, id, 1);
    OnlyThose(nodes);
  }

  /**
   * When the room's file is not older than the new one, the clock being behind: the new file takes the
   * name, the room's own is shown by another, and the next push removes it from the sandbox.
   */
  lemma OlderClockRenames(at: int, makes: Makes, t: Plan, store: set<string>)
    requires var room := OneFile("Readme", at, "x");
      && CanMake(room, "README", makes) && "README" in makes
      && !OlderThan(room.nodes, 1, makes["README"].id, makes["README"].at)
    ensures "README" !in TreeOf(OneFile("Readme", at, "x").nodes)
    ensures var shown := Shown(View(AfterWrite(OneFile("Readme", at, "x"), "README", Text("y"), makes)));
      && "README" in shown.files && "Readme" !in shown.files
      && (IsPush(Noted(Mirror(map["Readme" := Text("x")], {}), "README", Text("y")), shown, store, t) ==>
        Delete("Readme") in OpsOf(t, shown))
  {
    var room := OneFile("Readme", at, "x");
    TreeOfOne("Readme", at, "x");
    OlderIsShown(at, makes);
    var shown := Shown(View(AfterWrite(room, "README", Text("y"), makes)));
    var noted := Noted(Mirror(map["Readme" := Text("x")], {}), "README", Text("y"));
    assert "Readme" in noted.files;
    hide AfterWrite, View, CanMake, OneFile, Noted, IsPush, OpsOf, Shown;
    if IsPush(noted, shown, store, t) { MissingIsDeleted(noted, "Readme", shown, store, t); }
  }

  // ----- what becomes of the room's own files

  /**
   * When the mirror is what the room shows, a new file that takes nobody's name brings no removal of
   * anything the room has, but for files the program made folders of; when it takes one, the tree
   * changes elsewhere too (`NewFiles.TreeKept`).
   */
  lemma OthersAreKept(room: Room, p: Path, data: Data, makes: Makes, store: set<string>, t: Plan)
    requires RoomOk(room) && CanMake(room, p, makes) && p !in TreeOf(room.nodes) && NoBlankMade(room.nodes, p)
    ensures p != "" && Covers(makes, p) && FirstMade(room.nodes, p) in makes
    ensures makes[FirstMade(room.nodes, p)].id !in room.nodes
    ensures var shown := Shown(View(WithFile(room, p, data, makes)));
      IsPush(Noted(Shown(View(room)), p, data), shown, store, t) && !Displaces(room.nodes, p, BlobOf(data), makes) ==>
        forall q :: q in TreeOf(room.nodes) && (Ancestor(q, p) ==> TreeOf(room.nodes)[q].FolderNode?) ==>
          Delete(q) !in OpsOf(t, shown)
  {
    hide *;
    RoomOkIs(room);
    CanMakeIs(room, p, makes);
    TreeKept(room.nodes, p, BlobOf(data), makes);
    WithFileIs(room, p, data, makes);
    var doc, next := View(room), View(WithFile(room, p, data, makes));
    var shown := Shown(next);
    ViewIs(room);
    if IsPush(Noted(Shown(doc), p, data), shown, store, t) && !Displaces(room.nodes, p, BlobOf(data), makes) {
      forall q | q in TreeOf(room.nodes) && (Ancestor(q, p) ==> TreeOf(room.nodes)[q].FolderNode?)
        ensures Delete(q) !in OpsOf(t, shown)
      {
        KeptIsNotDeleted(doc, next, p, data, store, t, q);
      }
    }
  }

  lemma ViewIs(room: Room)
    ensures View(room).tree == TreeOf(room.nodes)
  {}

  lemma KeptIsNotDeleted(doc: Doc, next: Doc, p: Path, data: Data, store: set<string>, t: Plan, q: Path)
    requires IsPush(Noted(Shown(doc), p, data), Shown(next), store, t)
    requires q in doc.tree && q in next.tree && next.tree[q] == doc.tree[q] && p !in doc.tree
    requires Ancestor(q, p) ==> doc.tree[q].FolderNode?
    ensures Delete(q) !in OpsOf(t, Shown(next))
  {
    var noted, room := Noted(Shown(doc), p, data), Shown(next);
    hide Ancestor, Sorted, SortedDown;
    assert q in t.dels <==> q in ToDelete(noted, room);
    assert q in t.rmdirs <==> q in noted.dirs - room.dirs;
    DeletesOnly(t, room, q);
  }

  lemma DeletesOnly(t: Plan, room: Mirror, q: Path)
    requires q !in t.dels && q !in t.rmdirs
    ensures Delete(q) !in OpsOf(t, room)
  {
    var a, b, c, d := Deletes(t.dels), Deletes(t.rmdirs), Mkdirs(t.mkdirs), Writes(t.puts, room.files);
    assert forall op :: op in OpsOf(t, room) <==> op in a || op in b || op in c || op in d;
  }
}
