/**
 * The live tree of a room's files document: which nodes are shown, where each of them is, and what no two of
 * them share.
 */
module RoomNodes {
  import opened Strings
  import opened Paths
  import opened PathNames
  import opened SiblingNames

  /** Nodes deeper than this many names are not shown. */
  const MOST_PARTS: nat := 65

  datatype Node = FolderNode(id: Id) | FileNode(id: Id, blob: Option<string>)

  type Tree = map<Path, Node>

  // ----- which nodes are live, and where they are

  /** The folder a node is in; one that is missing puts the node at the root. */
  function Above(nodes: Nodes, id: Id): (up: Option<Id>)
    requires id in nodes
    ensures up.Some? ==> up.value in nodes
  {
    if nodes[id].parent.Some? && nodes[id].parent.value in nodes then nodes[id].parent else None
  }

  /** Neither the node nor anything above it is in the trash, or above itself. */
  predicate IsLive(nodes: Nodes, id: Id, seen: set<Id>)
    requires id in nodes
    decreases nodes.Keys - seen
  {
    if nodes[id].trashed || id in seen then false else
      assert nodes.Keys - (seen + {id}) == nodes.Keys - seen - {id};
      assert id in nodes.Keys - seen;
      Above(nodes, id).None? || IsLive(nodes, Above(nodes, id).value, seen + {id})
  }

  function Siblings(nodes: Nodes, folder: Option<Id>): (s: set<Id>)
    ensures s <= nodes.Keys
  {
    set id | id in nodes && IsLive(nodes, id, {}) && Above(nodes, id) == folder
  }

  ghost function NameOf(nodes: Nodes, id: Id): string
    requires id in nodes && IsLive(nodes, id, {})
  {
    Names(nodes, Siblings(nodes, Above(nodes, id)))[id]
  }

  /** The path a node is shown at, if that has at most so many names. */
  ghost function PathOf(nodes: Nodes, id: Id, parts: nat): Option<Path>
    requires id in nodes
    decreases parts
  {
    if parts == 0 || !IsLive(nodes, id, {}) then None else
    match Above(nodes, id)
    case None => Some(Under("", NameOf(nodes, id)))
    case Some(up) =>
      if !nodes[up].folder || PathOf(nodes, up, parts - 1).None? then None
      else Some(Under(PathOf(nodes, up, parts - 1).value, NameOf(nodes, id)))
  }

  ghost predicate ShownAt(nodes: Nodes, id: Id, p: Path) {
    id in nodes && PathOf(nodes, id, MOST_PARTS) == Some(p)
  }

  /** Names are there, and hold no slash. */
  ghost predicate WellNamed(nodes: Nodes) {
    forall id :: id in nodes ==> nodes[id].name != "" && '/' !in nodes[id].name
  }

  lemma NameIsGood(nodes: Nodes, id: Id)
    requires WellNamed(nodes) && id in nodes && IsLive(nodes, id, {})
    ensures NameOf(nodes, id) != "" && '/' !in NameOf(nodes, id)
  {
    hide IsLive;
    NamesKeep(nodes, Siblings(nodes, Above(nodes, id)), id);
  }

  /** The path of the folder a shown node is in; none at the root. */
  ghost function FolderPath(nodes: Nodes, id: Id, parts: nat): Path
    requires id in nodes && PathOf(nodes, id, parts).Some?
  {
    if Above(nodes, id).None? then "" else PathOf(nodes, Above(nodes, id).value, parts - 1).value
  }

  lemma PathIs(nodes: Nodes, id: Id, parts: nat)
    requires WellNamed(nodes) && id in nodes && PathOf(nodes, id, parts).Some?
    ensures parts > 0 && IsLive(nodes, id, {}) && NameOf(nodes, id) != "" && '/' !in NameOf(nodes, id)
    ensures PathOf(nodes, id, parts) == Some(Under(FolderPath(nodes, id, parts), NameOf(nodes, id)))
    ensures PathOf(nodes, id, parts).value != ""
    ensures Above(nodes, id).None? ==> FolderPath(nodes, id, parts) == ""
    ensures Above(nodes, id).Some? ==>
      var up, folder := Above(nodes, id).value, FolderPath(nodes, id, parts);
      folder != "" && nodes[up].folder && PathOf(nodes, up, parts - 1) == Some(folder)
    decreases parts
  {
    hide IsLive, NameOf, WellNamed;
    NameIsGood(nodes, id);
    if Above(nodes, id).Some? { PathIs(nodes, Above(nodes, id).value, parts - 1); }
  }

  lemma PathFrom(nodes: Nodes, id: Id, parts: nat)
    requires id in nodes && IsLive(nodes, id, {})
    ensures parts == 0 ==> PathOf(nodes, id, parts).None?
    ensures Above(nodes, id).None? && parts > 0 ==> PathOf(nodes, id, parts) == Some(Under("", NameOf(nodes, id)))
    ensures Above(nodes, id).Some? ==>
      var up := Above(nodes, id).value;
      PathOf(nodes, id, parts) ==
        if parts > 0 && nodes[up].folder && PathOf(nodes, up, parts - 1).Some?
        then Some(Under(PathOf(nodes, up, parts - 1).value, NameOf(nodes, id))) else None
  {
    hide IsLive, NameOf, Under;
  }

  /** A path is the same whatever more names were allowed. */
  lemma {:induction false} PathHasParts(nodes: Nodes, id: Id, parts: nat, more: nat)
    requires WellNamed(nodes) && id in nodes && PathOf(nodes, id, parts).Some?
    ensures var p := PathOf(nodes, id, parts).value;
      Parts(p) <= parts && PathOf(nodes, id, more) == if Parts(p) <= more then Some(p) else None
    decreases parts
  {
    hide *;
    PathIs(nodes, id, parts);
    PathFrom(nodes, id, parts);
    PathFrom(nodes, id, more);
    PartsUnder(FolderPath(nodes, id, parts), NameOf(nodes, id));
    if Above(nodes, id).Some? {
      PathHasParts(nodes, Above(nodes, id).value, parts - 1, if more == 0 then 0 else more - 1);
    }
  }

  /** No two nodes are shown at paths that are the same but for case. */
  lemma {:induction false} PathsApart(nodes: Nodes, a: Id, b: Id, parts: nat)
    requires WellNamed(nodes) && a in nodes && b in nodes
    requires PathOf(nodes, a, parts).Some? && PathOf(nodes, b, parts).Some?
    requires Lower(PathOf(nodes, a, parts).value) == Lower(PathOf(nodes, b, parts).value)
    ensures a == b
    decreases parts
  {
    hide *;
    PathIs(nodes, a, parts);
    PathIs(nodes, b, parts);
    var fa, fb := FolderPath(nodes, a, parts), FolderPath(nodes, b, parts);
    LowerTells(fa, NameOf(nodes, a), fb, NameOf(nodes, b));
    assert Above(nodes, a) == Above(nodes, b) by {
      if Above(nodes, a).Some? && Above(nodes, b).Some? {
        PathsApart(nodes, Above(nodes, a).value, Above(nodes, b).value, parts - 1);
      }
    }
    SiblingsDiffer(nodes, a, b);
  }

  lemma SiblingsDiffer(nodes: Nodes, a: Id, b: Id)
    requires a in nodes && b in nodes && IsLive(nodes, a, {}) && IsLive(nodes, b, {})
    requires Above(nodes, a) == Above(nodes, b) && Lower(NameOf(nodes, a)) == Lower(NameOf(nodes, b))
    ensures a == b
  {
    hide IsLive, Lower;
    if a != b { SiblingsApart(nodes, Siblings(nodes, Above(nodes, a)), a, b); }
  }

  // ----- the tree, by path

  /** `findByPath`. */
  ghost function FindByPath(nodes: Nodes, p: Path): (found: Option<Id>)
    ensures found.Some? ==> ShownAt(nodes, found.value, p)
    ensures found.None? ==> forall id :: !ShownAt(nodes, id, p)
  {
    if exists id :: ShownAt(nodes, id, p) then
      var id :| ShownAt(nodes, id, p);
      Some(id)
    else None
  }

  function NodeOf(nodes: Nodes, id: Id): Node
    requires id in nodes
  {
    if nodes[id].folder then FolderNode(id) else FileNode(id, nodes[id].blob)
  }

  ghost function ShownPaths(nodes: Nodes): (ps: set<Path>)
    ensures forall p :: p in ps <==> FindByPath(nodes, p).Some?
  {
    var ps := set id | id in nodes && PathOf(nodes, id, MOST_PARTS).Some? :: PathOf(nodes, id, MOST_PARTS).value;
    assert forall p :: p in ps <==> exists id :: ShownAt(nodes, id, p) by {
      hide PathOf;
      forall p | p in ps ensures exists id :: ShownAt(nodes, id, p) {
        var id :| id in nodes && PathOf(nodes, id, MOST_PARTS).Some? && PathOf(nodes, id, MOST_PARTS).value == p;
        ShownNow(nodes, id, p);
      }
      forall id, p | ShownAt(nodes, id, p) ensures p in ps { assert PathOf(nodes, id, MOST_PARTS).value == p; }
    }
    ps
  }

  /** `flatten(listTree(doc))`, by path. */
  ghost function TreeOf(nodes: Nodes): (tree: Tree)
    ensures forall p :: p in tree ==> ShownAt(nodes, tree[p].id, p) && tree[p] == NodeOf(nodes, tree[p].id)
    ensures forall p :: p in tree <==> FindByPath(nodes, p).Some?
    ensures forall p :: p in tree ==> FindByPath(nodes, p) == Some(tree[p].id)
  {
    hide PathOf;
    map p | p in ShownPaths(nodes) :: NodeOf(nodes, FindByPath(nodes, p).value)
  }

  ghost predicate TreeOk(tree: Tree) {
    && (forall p, d :: p in tree && Ancestor(d, p) ==> d in tree && tree[d].FolderNode?)
    && DistinctIds(tree)
  }

  ghost predicate DistinctIds(tree: Tree) {
    forall p, q :: p in tree && q in tree && tree[p].id == tree[q].id ==> p == q
  }

  /** No two paths are the same but for case. */
  ghost predicate CaseApart(tree: Tree) {
    forall p, q :: p in tree && q in tree && Lower(p) == Lower(q) ==> p == q
  }

  lemma ShownIsInTree(nodes: Nodes, id: Id, p: Path)
    requires WellNamed(nodes) && ShownAt(nodes, id, p)
    ensures p in TreeOf(nodes) && TreeOf(nodes)[p] == NodeOf(nodes, id)
  {
    hide WellNamed, PathOf;
    var other := FindByPath(nodes, p).value;
    PathsApart(nodes, TreeOf(nodes)[p].id, id, MOST_PARTS);
  }

  /** What a shown node lies in is shown, as folders. */
  lemma {:induction false} AboveIsShown(nodes: Nodes, id: Id, parts: nat, d: Path)
    requires WellNamed(nodes) && id in nodes && PathOf(nodes, id, parts).Some? && parts <= MOST_PARTS
    requires Ancestor(d, PathOf(nodes, id, parts).value)
    ensures exists up :: ShownAt(nodes, up, d) && nodes[up].folder
    decreases parts
  {
    hide *;
    PathIs(nodes, id, parts);
    var folder := FolderPath(nodes, id, parts);
    AncestorOfUnder(d, folder, NameOf(nodes, id));
    var up := Above(nodes, id).value;
    if d == folder {
      PathHasParts(nodes, up, parts - 1, MOST_PARTS);
      ShownNow(nodes, up, d);
    } else {
      AboveIsShown(nodes, up, parts - 1, d);
    }
  }

  lemma ShownNow(nodes: Nodes, id: Id, p: Path)
    requires id in nodes && PathOf(nodes, id, MOST_PARTS) == Some(p)
    ensures ShownAt(nodes, id, p)
  {}

  /** Whatever the nodes: each path is one node's, lies in folders, and is no other's in another case. */
  lemma TreeIsTree(nodes: Nodes)
    requires WellNamed(nodes)
    ensures TreeOk(TreeOf(nodes)) && CaseApart(TreeOf(nodes))
  {
    var tree := TreeOf(nodes);
    hide PathOf, Ancestor, WellNamed, Lower;
    forall p, d | p in tree && Ancestor(d, p) ensures d in tree && tree[d].FolderNode? {
      AboveIsShown(nodes, tree[p].id, MOST_PARTS, d);
      var up :| ShownAt(nodes, up, d) && nodes[up].folder;
      ShownIsInTree(nodes, up, d);
    }
    forall p, q | p in tree && q in tree && Lower(p) == Lower(q) ensures p == q {
      PathsApart(nodes, tree[p].id, tree[q].id, MOST_PARTS);
    }
  }

  // ----- what a change leaves as it is

  /** Of each node all is as it was but for its bytes, and no new node is above it. */
  ghost predicate Kept(nodes: Nodes, next: Nodes) {
    forall id :: id in nodes ==> id in next && SamePlace(nodes[id], next[id]) && Above(next, id) == Above(nodes, id)
  }

  predicate SamePlace(a: Record, b: Record) {
    SameName(a, b) && a.parent == b.parent && a.trashed == b.trashed
  }

  lemma {:induction false} LiveStays(nodes: Nodes, next: Nodes, id: Id, seen: set<Id>, more: set<Id>)
    requires Kept(nodes, next) && id in nodes && forall x :: x in nodes ==> (x in seen <==> x in more)
    ensures IsLive(next, id, more) == IsLive(nodes, id, seen)
    decreases nodes.Keys - seen
  {
    hide Above;
    if !nodes[id].trashed && id !in seen && Above(nodes, id).Some? {
      assert nodes.Keys - (seen + {id}) == nodes.Keys - seen - {id} && id in nodes.Keys - seen;
      LiveStays(nodes, next, Above(nodes, id).value, seen + {id}, more + {id});
    }
  }

  /** What was live still is, under the same name. */
  ghost predicate NamesKept(nodes: Nodes, next: Nodes) {
    forall id :: id in nodes && IsLive(nodes, id, {}) ==>
      id in next && IsLive(next, id, {}) && NameOf(next, id) == NameOf(nodes, id)
  }

  lemma {:induction false} PathStays(nodes: Nodes, next: Nodes, id: Id, parts: nat)
    requires Kept(nodes, next) && NamesKept(nodes, next) && id in nodes
    ensures id in next && PathOf(next, id, parts) == PathOf(nodes, id, parts)
    decreases parts, 1
  {
    LiveStays(nodes, next, id, {}, {});
    hide IsLive, NameOf, Under, Above, PathOf, SamePlace;
    if parts > 0 && IsLive(nodes, id, {}) {
      assert NameOf(next, id) == NameOf(nodes, id);
      PathFrom(nodes, id, parts);
      PathFrom(next, id, parts);
      if Above(nodes, id).Some? { StaysAbove(nodes, next, id, parts); }
    } else {
      NoPath(nodes, id, parts);
      NoPath(next, id, parts);
    }
  }

  lemma StaysAbove(nodes: Nodes, next: Nodes, id: Id, parts: nat)
    requires Kept(nodes, next) && NamesKept(nodes, next) && id in nodes && parts > 0 && Above(nodes, id).Some?
    ensures id in next && Above(next, id) == Above(nodes, id)
    ensures var up := Above(nodes, id).value;
      next[up].folder == nodes[up].folder && PathOf(next, up, parts - 1) == PathOf(nodes, up, parts - 1)
    decreases parts, 0
  {
    hide NamesKept, Above, PathOf;
    PathStays(nodes, next, Above(nodes, id).value, parts - 1);
  }

  lemma NoPath(nodes: Nodes, id: Id, parts: nat)
    requires id in nodes && (parts == 0 || !IsLive(nodes, id, {}))
    ensures PathOf(nodes, id, parts).None?
  {
    hide IsLive;
  }

  /** New bytes for one file. */
  function WithBlob(nodes: Nodes, id: Id, blob: Option<string>): Nodes
    requires id in nodes
  {
    nodes[id := nodes[id].(blob := blob)]
  }

  lemma BlobKeepsNames(nodes: Nodes, id: Id, blob: Option<string>)
    requires id in nodes
    ensures Kept(nodes, WithBlob(nodes, id, blob)) && NamesKept(nodes, WithBlob(nodes, id, blob))
  {
    var next := WithBlob(nodes, id, blob);
    assert Kept(nodes, next);
    forall x | x in nodes ensures IsLive(next, x, {}) == IsLive(nodes, x, {}) { LiveStays(nodes, next, x, {}, {}); }
    forall x | x in nodes && IsLive(nodes, x, {}) ensures NameOf(next, x) == NameOf(nodes, x) {
      hide IsLive, Above;
      assert Siblings(next, Above(nodes, x)) == Siblings(nodes, Above(nodes, x));
      NamesStay(nodes, next, Siblings(nodes, Above(nodes, x)));
    }
  }

  /** The tree has them where the file is shown, and is else as it was. */
  lemma BlobInTree(nodes: Nodes, id: Id, blob: Option<string>)
    requires WellNamed(nodes) && id in nodes && !nodes[id].folder
    ensures var next := WithBlob(nodes, id, blob);
      WellNamed(next) && TreeOf(next) == map p | p in TreeOf(nodes) ::
        if TreeOf(nodes)[p].id == id then FileNode(id, blob) else TreeOf(nodes)[p]
  {
    hide *;
    var next := WithBlob(nodes, id, blob);
    BlobShows(nodes, id, blob);
    SameTree(nodes, next);
    forall p | p in TreeOf(nodes)
      ensures TreeOf(next)[p] == if TreeOf(nodes)[p].id == id then FileNode(id, blob) else TreeOf(nodes)[p]
    {
      NodeWith(nodes, id, blob, TreeOf(nodes)[p].id);
    }
  }

  lemma BlobShows(nodes: Nodes, id: Id, blob: Option<string>)
    requires WellNamed(nodes) && id in nodes
    ensures var next := WithBlob(nodes, id, blob);
      WellNamed(next) && forall x, p :: ShownAt(next, x, p) <==> ShownAt(nodes, x, p)
  {
    var next := WithBlob(nodes, id, blob);
    BlobKeepsNames(nodes, id, blob);
    hide Kept, NamesKept, PathOf;
    forall x, p ensures ShownAt(next, x, p) <==> ShownAt(nodes, x, p) {
      if x in nodes { PathStays(nodes, next, x, MOST_PARTS); }
    }
  }

  lemma NodeWith(nodes: Nodes, id: Id, blob: Option<string>, x: Id)
    requires id in nodes && x in nodes && !nodes[id].folder
    ensures NodeOf(WithBlob(nodes, id, blob), x) == if x == id then FileNode(id, blob) else NodeOf(nodes, x)
  {}

  lemma SameTree(nodes: Nodes, next: Nodes)
    requires WellNamed(nodes) && WellNamed(next) && forall x, p :: ShownAt(next, x, p) <==> ShownAt(nodes, x, p)
    ensures TreeOf(next).Keys == TreeOf(nodes).Keys
    ensures forall p :: p in TreeOf(nodes) ==>
      var id := TreeOf(nodes)[p].id;
      id in nodes && id in next && TreeOf(next)[p] == NodeOf(next, id)
  {
    hide PathOf, WellNamed;
    forall p | p in TreeOf(nodes) ensures p in TreeOf(next) && TreeOf(next)[p] == NodeOf(next, TreeOf(nodes)[p].id) {
      ShownIsInTree(next, TreeOf(nodes)[p].id, p);
    }
    forall p | p in TreeOf(next) ensures p in TreeOf(nodes) {
      ShownIsInTree(nodes, TreeOf(next)[p].id, p);
    }
  }

  // ----- names the tree is not made for

  /** A room with a file `a`, and another of that name in a folder without a name. */
  function BlankRoom(): Nodes {
    map[
      1 := Record(false, "a", None, 0, false, None), 2 := Record(true, "", None, 1, false, None),
      3 := Record(false, "a", Some(2), 2, false, None)]
  }

  /** A child of a node without a name is shown as if it were at the root: two nodes, one path. */
  lemma BlankNameCollides()
    ensures ShownAt(BlankRoom(), 1, "a") && ShownAt(BlankRoom(), 3, "a")
  {
    var nodes := BlankRoom();
    assert Siblings(nodes, None) == {1, 2} && Siblings(nodes, Some(2)) == {3};
    NamesOfOne(nodes, 3);
    NamesOfTwo(nodes, 1, 2);
  }

  /** A room with a file `b` in a folder `a`, and a file whose own name is `a/b`. */
  function SlashRoom(): Nodes {
    map[
      1 := Record(true, "a", None, 0, false, None), 2 := Record(false, "b", Some(1), 1, false, None),
      3 := Record(false, "a/b", None, 2, false, None)]
  }

  /** A name with a slash can be another node's path. */
  lemma SlashNameCollides()
    ensures ShownAt(SlashRoom(), 2, "a/b") && ShownAt(SlashRoom(), 3, "a/b")
  {
    var nodes := SlashRoom();
    assert Siblings(nodes, None) == {1, 3} && Siblings(nodes, Some(1)) == {2};
    NamesOfOne(nodes, 2);
    NamesOfTwo(nodes, 1, 3);
    assert Under("a", "b") == "a/b";
  }

  lemma NamesOfOne(nodes: Nodes, a: Id)
    requires a in nodes
    ensures Names(nodes, {a}) == map[a := nodes[a].name]
  {
    NewcomerGivesWay(nodes, {a}, a);
    assert {a} - {a} == {} && Taken(Names(nodes, {})) == {};
    FreeNameIs(nodes[a], {});
  }

  lemma NamesOfTwo(nodes: Nodes, a: Id, b: Id)
    requires a in nodes && b in nodes && a != b && Older(nodes, a, b)
    ensures Lower(nodes[a].name) != Lower(nodes[b].name) ==>
      Names(nodes, {a, b}) == map[a := nodes[a].name, b := nodes[b].name]
    ensures Lower(nodes[a].name) == Lower(nodes[b].name) ==>
      Names(nodes, {a, b})[a] == nodes[a].name && Names(nodes, {a, b})[b] != nodes[b].name
  {
    NewcomerGivesWay(nodes, {a, b}, b);
    assert {a, b} - {b} == {a};
    NamesOfOne(nodes, a);
    assert Taken(map[a := nodes[a].name]) == {Lower(nodes[a].name)};
    FreeNameIs(nodes[b], {Lower(nodes[a].name)});
  }

  // ----- the loops

  /** `isLive`. */
  method NodeIsLive(nodes: Nodes, id: Id) returns (live: bool)
    requires id in nodes
    ensures live == IsLive(nodes, id, {})
  {
    var current := Some(id);
    var seen: set<Id> := {};
    while current.Some?
      invariant current.Some? ==> current.value in nodes
      invariant IsLive(nodes, id, {}) == (current.Some? ==> IsLive(nodes, current.value, seen))
      decreases nodes.Keys - seen, current.Some?
    {
      var x := current.value;
      if nodes[x].trashed || x in seen { return false; }
      assert x in nodes.Keys - seen;
      seen := seen + {x};
      current := Above(nodes, x);
    }
    return true;
  }

  /** What of a tree lies in a folder; all of it lies in the root. */
  ghost function Subtree(tree: Tree, folder: Path): Tree {
    map p | p in tree && (folder == "" || Ancestor(folder, p)) :: tree[p]
  }

  /** What is at these paths or lies in them. */
  ghost function Among(tree: Tree, tops: set<Path>): Tree {
    map p | p in tree && (exists c :: c in tops && (p == c || Ancestor(c, p))) :: tree[p]
  }

  ghost predicate IsFolderAt(nodes: Nodes, folder: Option<Id>, prefix: Path) {
    if folder.None? then prefix == "" else ShownAt(nodes, folder.value, prefix) && nodes[folder.value].folder
  }

  lemma AmongNone(tree: Tree)
    ensures Among(tree, {}) == map[]
  {}

  lemma NothingDeeper(nodes: Nodes, prefix: Path)
    requires WellNamed(nodes) && prefix != "" && Parts(prefix) >= MOST_PARTS
    ensures Subtree(TreeOf(nodes), prefix) == map[]
  {
    hide PathOf, Ancestor, WellNamed, Parts;
    forall p | p in TreeOf(nodes) ensures !Ancestor(prefix, p) {
      if Ancestor(prefix, p) { DeeperHasMore(prefix, p); }
      PathHasParts(nodes, TreeOf(nodes)[p].id, MOST_PARTS, MOST_PARTS);
    }
  }

  lemma ChildIsShown(nodes: Nodes, folder: Option<Id>, prefix: Path, x: Id)
    requires WellNamed(nodes) && IsFolderAt(nodes, folder, prefix) && x in Siblings(nodes, folder)
    requires folder.None? || Parts(prefix) < MOST_PARTS
    ensures prefix == "" || Ancestor(prefix, Under(prefix, Names(nodes, Siblings(nodes, folder))[x]))
    ensures var path := Under(prefix, Names(nodes, Siblings(nodes, folder))[x]);
      && x in nodes && ShownAt(nodes, x, path) && path != ""
      && Parts(path) == if folder.None? then 1 else Parts(prefix) + 1
  {
    NameIsGood(nodes, x);
    PartsUnder(prefix, NameOf(nodes, x));
    AncestorOfUnder(prefix, prefix, NameOf(nodes, x));
    PathFrom(nodes, x, MOST_PARTS);
    hide PathOf, WellNamed, Parts, IsLive;
    if folder.Some? {
      PathIs(nodes, folder.value, MOST_PARTS);
      PathHasParts(nodes, folder.value, MOST_PARTS, MOST_PARTS - 1);
    }
  }

  lemma WithChild(nodes: Nodes, done: set<Path>, x: Id, path: Path)
    requires WellNamed(nodes) && ShownAt(nodes, x, path) && path != ""
    ensures var tree := TreeOf(nodes); var with := Among(tree, done)[path := NodeOf(nodes, x)];
      Among(tree, done + {path}) == if nodes[x].folder then with + Subtree(tree, path) else with
  {
    assert x in nodes;
    hide *;
    var tree := TreeOf(nodes);
    ShownIsInTree(nodes, x, path);
    TreeIsTree(nodes);
    AmongOneMore(tree, done, path);
    KindOf(nodes, x);
    if !nodes[x].folder { NothingInFile(tree, path); }
  }

  lemma KindOf(nodes: Nodes, id: Id)
    requires id in nodes
    ensures NodeOf(nodes, id).FileNode? <==> !nodes[id].folder
  {}

  lemma AmongOneMore(tree: Tree, done: set<Path>, path: Path)
    requires path in tree && path != ""
    ensures Among(tree, done + {path}) == Among(tree, done)[path := tree[path]] + Subtree(tree, path)
  {
    hide Ancestor;
  }

  lemma NothingInFile(tree: Tree, path: Path)
    requires TreeOk(tree) && path in tree && path != "" && tree[path].FileNode?
    ensures Subtree(tree, path) == map[] && forall t: Tree :: t + Subtree(tree, path) == t
  {
    hide Ancestor;
  }

  /** Whatever lies in a folder is one of its nodes or lies in one. */
  lemma {:induction false} TopIn(nodes: Nodes, folder: Option<Id>, prefix: Path, id: Id, parts: nat) returns (x: Id)
    requires WellNamed(nodes) && IsFolderAt(nodes, folder, prefix) && (folder.Some? ==> prefix != "")
    requires id in nodes && parts <= MOST_PARTS && PathOf(nodes, id, parts).Some?
    requires prefix == "" || Ancestor(prefix, PathOf(nodes, id, parts).value)
    ensures x in Siblings(nodes, folder)
    ensures var c, p := Under(prefix, Names(nodes, Siblings(nodes, folder))[x]), PathOf(nodes, id, parts).value;
      p == c || Ancestor(c, p)
    decreases parts
  {
    hide *;
    PathIs(nodes, id, parts);
    var above := FolderPath(nodes, id, parts);
    AncestorOfUnder(prefix, above, NameOf(nodes, id));
    if above == prefix {
      x := id;
      InThatFolder(nodes, folder, prefix, id, parts);
    } else {
      x := TopIn(nodes, folder, prefix, Above(nodes, id).value, parts - 1);
      AncestorOfUnder(Under(prefix, Names(nodes, Siblings(nodes, folder))[x]), above, NameOf(nodes, id));
    }
  }

  lemma InThatFolder(nodes: Nodes, folder: Option<Id>, prefix: Path, id: Id, parts: nat)
    requires WellNamed(nodes) && IsFolderAt(nodes, folder, prefix) && (folder.Some? ==> prefix != "")
    requires id in nodes && parts <= MOST_PARTS && PathOf(nodes, id, parts).Some?
    requires FolderPath(nodes, id, parts) == prefix
    ensures id in Siblings(nodes, folder) && NameOf(nodes, id) == Names(nodes, Siblings(nodes, folder))[id]
  {
    hide *;
    PathIs(nodes, id, parts);
    AmongSiblings(nodes, id);
    FolderIs(nodes, folder, prefix);
    if Above(nodes, id).Some? {
      PathHasParts(nodes, Above(nodes, id).value, parts - 1, MOST_PARTS);
      PathsApart(nodes, Above(nodes, id).value, folder.value, MOST_PARTS);
    }
  }

  lemma AmongSiblings(nodes: Nodes, id: Id)
    requires id in nodes && IsLive(nodes, id, {})
    ensures id in Siblings(nodes, Above(nodes, id))
    ensures NameOf(nodes, id) == Names(nodes, Siblings(nodes, Above(nodes, id)))[id]
  {}

  lemma FolderIs(nodes: Nodes, folder: Option<Id>, prefix: Path)
    requires IsFolderAt(nodes, folder, prefix)
    ensures folder.None? ==> prefix == ""
    ensures folder.Some? ==> folder.value in nodes && PathOf(nodes, folder.value, MOST_PARTS) == Some(prefix)
  {}

  lemma AllInFolder(nodes: Nodes, folder: Option<Id>, prefix: Path, tops: set<Path>)
    requires WellNamed(nodes) && IsFolderAt(nodes, folder, prefix) && (folder.Some? ==> prefix != "")
    requires forall x :: x in Siblings(nodes, folder) ==>
      Under(prefix, Names(nodes, Siblings(nodes, folder))[x]) in tops
    requires forall c :: c in tops ==> prefix == "" || Ancestor(prefix, c)
    ensures Among(TreeOf(nodes), tops) == Subtree(TreeOf(nodes), prefix)
  {
    var tree := TreeOf(nodes);
    hide PathOf, WellNamed, Ancestor, Siblings, IsLive, Under, IsFolderAt;
    forall p | p in tree && (prefix == "" || Ancestor(prefix, p)) ensures p in Among(tree, tops) {
      var x := TopIn(nodes, folder, prefix, tree[p].id, MOST_PARTS);
    }
    forall p, c | p in tree && c in tops && (p == c || Ancestor(c, p)) ensures prefix == "" || Ancestor(prefix, p) {
      if prefix != "" && p != c { AncestorsChain(prefix, c, p); }
    }
  }

  /** `build`: the nodes in one folder, and in the folders among them. */
  method Build(nodes: Nodes, folder: Option<Id>, prefix: Path, depth: nat) returns (tree: Tree)
    requires WellNamed(nodes) && IsFolderAt(nodes, folder, prefix)
    requires if folder.None? then depth == 0 else prefix != "" && depth == Parts(prefix)
    ensures tree == Subtree(TreeOf(nodes), prefix)
    decreases MOST_PARTS - depth
  {
    tree := map[];
    AmongNone(TreeOf(nodes));
    assert MOST_PARTS == 65;
    hide *;
    if depth > 64 {
      NothingDeeper(nodes, prefix);
      return;
    }
    var siblings := Siblings(nodes, folder);
    var names := ResolveSiblingNames(nodes, siblings);
    var todo := siblings;
    ghost var done: set<Path> := {};
    while todo != {}
      invariant todo <= siblings
      invariant forall x :: x in siblings ==> x in todo || Under(prefix, names[x]) in done
      invariant forall c :: c in done ==> prefix == "" || Ancestor(prefix, c)
      invariant tree == Among(TreeOf(nodes), done)
    {
      var x :| x in todo;
      var path := Under(prefix, names[x]);
      ChildIsShown(nodes, folder, prefix, x);
      WithChild(nodes, done, x, path);
      tree := tree[path := NodeOf(nodes, x)];
      if nodes[x].folder {
        assert IsFolderAt(nodes, Some(x), path) by { FolderNow(nodes, x, path); }
        var below := Build(nodes, Some(x), path, depth + 1);
        tree := tree + below;
      }
      todo, done := todo - {x}, done + {path};
    }
    AllInFolder(nodes, folder, prefix, done);
  }

  lemma FolderNow(nodes: Nodes, id: Id, p: Path)
    requires ShownAt(nodes, id, p) && nodes[id].folder
    ensures IsFolderAt(nodes, Some(id), p)
  {}

  /** `listTree`: what it lists is what its nodes are shown at. */
  method ListTree(nodes: Nodes) returns (tree: Tree)
    requires WellNamed(nodes)
    ensures tree == TreeOf(nodes)
  {
    tree := Build(nodes, None, "", 0);
  }
}
