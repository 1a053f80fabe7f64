/**
 * Files made at a path of the room's document: the loop that makes them, the tree that comes of it, whom it takes
 * a name from, and blank names.
 */
module NewFiles {
  import opened Strings
  import opened WhiteSpace
  import opened Paths
  import opened PathNames
  import opened SiblingNames
  import opened Newcomers
  import opened RoomNodes
  import opened InsertNode
  import opened InsertPaths
  import opened NewNodes

  // ----- by a clock that is not behind

  ghost predicate LiesIn(nodes: Nodes, x: Id, d: Path) {
    && x in nodes && IsLive(nodes, x, {})
    && if Above(nodes, x).None? then d == "" else ShownAt(nodes, Above(nodes, x).value, d)
  }

  /** Every node made at `p` is younger than those already beside it. */
  ghost predicate YoungestMade(nodes: Nodes, p: Path, makes: Makes) {
    forall x: Id, a :: a in makes && OnWay(a, p) && !FolderAt(nodes, a) && LiesIn(nodes, x, Dir(a)) ==>
      nodes[x].createdAt < makes[a].at || (nodes[x].createdAt == makes[a].at && x < makes[a].id)
  }

  ghost predicate Nobody(nodes: Nodes, p: Path) {
    forall id, q :: ShownAt(nodes, id, q) ==> Lower(q) != Lower(p)
  }

  lemma NobodyBelow(nodes: Nodes, p: Path)
    requires WellNamed(nodes) && p != "" && p[0] != '/' && Dir(p) != "" && Nobody(nodes, Dir(p))
    ensures Nobody(nodes, p)
  {
    WayUp(p);
    hide PathOf, WellNamed, Lower, Dir, Base, Under;
    forall x, q | ShownAt(nodes, x, q) ensures Lower(q) != Lower(p) {
      if Lower(q) == Lower(p) { FolderOfSameCase(nodes, x, q, p); }
    }
  }

  lemma FolderOfSameCase(nodes: Nodes, x: Id, q: Path, p: Path)
    requires WellNamed(nodes) && p != "" && p[0] != '/' && Dir(p) != "" && ShownAt(nodes, x, q) && Lower(q) == Lower(p)
    ensures !Nobody(nodes, Dir(p))
  {
    WayUp(p);
    PathIs(nodes, x, MOST_PARTS);
    LowerTells(FolderPath(nodes, x, MOST_PARTS), NameOf(nodes, x), Dir(p), Base(p));
    hide PathOf, IsLive, Lower, Dir, Base, Under, WellNamed;
    var up := Above(nodes, x).value;
    PathHasParts(nodes, up, MOST_PARTS - 1, MOST_PARTS);
    ShownNow(nodes, up, FolderPath(nodes, x, MOST_PARTS));
  }

  /**
   * Nothing in the room takes this path, or one of the folders above it, by a name that is
   * the same but for case; folders that are there already, by that very path, are fine.
   */
  ghost predicate Free(tree: Tree, p: Path) {
    forall q, a :: q in tree && OnWay(a, p) && Lower(q) == Lower(a) ==> a != p && q == a && tree[q].FolderNode?
  }

  /** The names that have to be made are as trimming leaves them. */
  ghost predicate NewNamesTrimmed(tree: Tree, p: Path) {
    forall a :: OnWay(a, p) && a !in tree ==> Trim(Base(a), JsSpace) == Base(a)
  }

  /** One name of the way is there, or free and trimmed. */
  ghost predicate PassesIn(tree: Tree, a: Path) {
    (a in tree && tree[a].FolderNode?)
      || (Trim(Base(a), JsSpace) == Base(a) && forall q :: q in tree ==> Lower(q) != Lower(a))
  }

  lemma AllPass(tree: Tree, p: Path)
    requires CaseApart(tree) && p !in tree
    ensures (forall a :: OnWay(a, p) ==> PassesIn(tree, a)) <==> Free(tree, p) && NewNamesTrimmed(tree, p)
  {
    hide Lower, Trim, Base, OnWay;
    if forall a :: OnWay(a, p) ==> PassesIn(tree, a) {
      forall q, a | q in tree && OnWay(a, p) && Lower(q) == Lower(a) ensures a != p && q == a && tree[q].FolderNode? {
        assert PassesIn(tree, a);
      }
      forall a | OnWay(a, p) && a !in tree ensures Trim(Base(a), JsSpace) == Base(a) { assert PassesIn(tree, a); }
    }
    if Free(tree, p) && NewNamesTrimmed(tree, p) {
      forall a | OnWay(a, p) ensures PassesIn(tree, a) {}
    }
  }

  lemma ShownLiesIn(nodes: Nodes, p: Path, x: Id, q: Path)
    requires WellNamed(nodes) && FolderThere(nodes, p) && p != "" && p[0] != '/'
    requires ShownAt(nodes, x, q) && Lower(q) == Lower(p)
    ensures LiesIn(nodes, x, Dir(p))
  {
    WayUp(p);
    var parent: Option<Id> := None;
    if Dir(p) != "" {
      FoundFolder(nodes, Dir(p));
      parent := FindByPath(nodes, Dir(p));
    }
    assert IsFolderAt(nodes, parent, Dir(p)) && (parent.Some? ==> Dir(p) != "");
    hide PathOf, WellNamed, Dir, Base, Lower, Under, IsLive, Names, Above;
    ShownIsChild(nodes, parent, Dir(p), Base(p), x, q);
  }

  /** With the youngest nodes, who is not older is not there at all, in this folder or beneath another case of it. */
  lemma {:induction false} PassesNobody(nodes: Nodes, p: Path, makes: Makes, a: Path)
    requires WellNamed(nodes) && YoungestMade(nodes, p, makes) && OnWay(a, p) && a != "" && a[0] != '/'
    requires !FolderAt(nodes, a) && forall b :: OnWay(b, p) ==> Passes(nodes, b, makes)
    ensures Nobody(nodes, a)
    decreases |a|
  {
    WayUp(a);
    assert Passes(nodes, a, makes);
    if FolderThere(nodes, a) {
      hide PathOf, WellNamed, Lower, Dir, Base, LiesIn, OnWay;
      forall x, q | ShownAt(nodes, x, q) ensures Lower(q) != Lower(a) {
        if Lower(q) == Lower(a) { ShownLiesIn(nodes, a, x, q); }
      }
    } else {
      OnWayFromDir(a, p);
      hide PathOf, WellNamed, Lower, Base, LiesIn, YoungestMade, Nobody, Passes;
      PassesNobody(nodes, p, makes, Dir(a));
      NobodyBelow(nodes, a);
    }
  }

  lemma FitsIs(nodes: Nodes, p: Path, makes: Makes)
    ensures Fits(nodes, p, makes) <==>
      Parts(p) <= MOST_PARTS && forall a :: OnWay(a, p) ==> Passes(nodes, a, makes)
  {}

  lemma NobodyInTree(nodes: Nodes, a: Path)
    requires WellNamed(nodes)
    ensures Nobody(nodes, a) <==> forall q :: q in TreeOf(nodes) ==> Lower(q) != Lower(a)
  {
    hide PathOf, WellNamed, Lower;
    forall id, q | ShownAt(nodes, id, q) ensures q in TreeOf(nodes) { ShownIsInTree(nodes, id, q); }
  }

  /**
   * When all that is made is younger than what is beside it, a path fits if and only if nothing takes it or a
   * folder's above it in another case or as a file, the names made are trimmed, and there are at most 65 names.
   */
  lemma FitsWhenYoungest(nodes: Nodes, p: Path, makes: Makes)
    requires WellNamed(nodes) && p != "" && p[0] != '/' && p !in TreeOf(nodes)
    requires Covers(makes, p) && YoungestMade(nodes, p, makes)
    ensures var tree := TreeOf(nodes);
      Fits(nodes, p, makes) <==> Free(tree, p) && NewNamesTrimmed(tree, p) && Parts(p) <= MOST_PARTS
  {
    FitsIs(nodes, p, makes);
    TreeIsTree(nodes);
    AllPass(TreeOf(nodes), p);
    hide TreeOf, WellNamed, Free, NewNamesTrimmed, CaseApart, TreeOk, Parts, Passes, PassesIn, OnWay, YoungestMade,
      Fits;
    if forall a :: OnWay(a, p) ==> Passes(nodes, a, makes) {
      forall a | OnWay(a, p) ensures PassesIn(TreeOf(nodes), a) { PassesToTree(nodes, p, makes, a); }
    }
    if forall a :: OnWay(a, p) ==> PassesIn(TreeOf(nodes), a) {
      forall a | OnWay(a, p) ensures Passes(nodes, a, makes) { PassesFromTree(nodes, p, makes, a); }
    }
  }

  lemma PassesToTree(nodes: Nodes, p: Path, makes: Makes, a: Path)
    requires WellNamed(nodes) && YoungestMade(nodes, p, makes) && OnWay(a, p) && p != "" && p[0] != '/'
    requires forall b :: OnWay(b, p) ==> Passes(nodes, b, makes)
    ensures PassesIn(TreeOf(nodes), a)
  {
    hide *;
    OnWayFirst(a, p);
    FolderInTree(nodes, a);
    NobodyInTree(nodes, a);
    PassesIs(nodes, a, makes);
    PassesInIs(TreeOf(nodes), a);
    if !FolderAt(nodes, a) { PassesNobody(nodes, p, makes, a); }
  }

  lemma OnWayFirst(a: Path, p: Path)
    requires OnWay(a, p) && p != ""
    ensures a != "" && a[0] == p[0]
  {}

  lemma PassesInIs(tree: Tree, a: Path)
    ensures PassesIn(tree, a) <==>
      || (a in tree && tree[a].FolderNode?)
      || (Trim(Base(a), JsSpace) == Base(a) && forall q :: q in tree ==> Lower(q) != Lower(a))
  {
    hide Trim, Base, Lower;
  }

  lemma NobodyNoneOlder(nodes: Nodes, a: Path, m: Made)
    requires Nobody(nodes, a)
    ensures NobodyOlder(nodes, a, m)
  {
    hide ShownAt, Lower, OlderThan;
  }

  lemma CoversHas(makes: Makes, p: Path, a: Path)
    requires Covers(makes, p) && OnWay(a, p) && a != ""
    ensures a in makes
  {}

  lemma PassesFromTree(nodes: Nodes, p: Path, makes: Makes, a: Path)
    requires WellNamed(nodes) && Covers(makes, p) && OnWay(a, p) && p != "" && PassesIn(TreeOf(nodes), a)
    ensures Passes(nodes, a, makes)
  {
    hide *;
    OnWayFirst(a, p);
    CoversHas(makes, p, a);
    FolderInTree(nodes, a);
    NobodyInTree(nodes, a);
    PassesIs(nodes, a, makes);
    PassesInIs(TreeOf(nodes), a);
    if Nobody(nodes, a) { NobodyNoneOlder(nodes, a, makes[a]); }
  }

  /** The file is there, as it was asked for. */
  lemma MadeNode(nodes: Nodes, p: Path, blob: Option<string>, makes: Makes)
    requires Covers(makes, p) && p != ""
    ensures p in makes
    ensures var next := CreateAtPath(nodes, p, blob, makes); var id := makes[p].id;
      id in next && NodeOf(next, id) == FileNode(id, blob) && next[id].blob == blob && !next[id].folder
  {
    CoversAbove(makes, p);
  }

  lemma OnlyShown(nodes: Nodes, p: Path, id: Id, fits: bool)
    requires id in nodes && forall x :: ShownAt(nodes, x, p) <==> x == id && fits
    ensures p in TreeOf(nodes) <==> fits
    ensures p in TreeOf(nodes) ==> TreeOf(nodes)[p] == NodeOf(nodes, id)
  {
    hide ShownAt;
    assert ShownAt(nodes, id, p) <==> fits;
  }

  /** The tree then has the file at `p`, or nothing there. */
  lemma MadeInTree(nodes: Nodes, p: Path, blob: Option<string>, makes: Makes)
    requires Able(nodes, p, makes) && p !in TreeOf(nodes)
    ensures p in makes && Covers(makes, p) && p != ""
    ensures var tree := TreeOf(CreateAtPath(nodes, p, blob, makes));
      (p in tree <==> Fits(nodes, p, makes)) && (p in tree ==> tree[p] == FileNode(makes[p].id, blob))
  {
    hide *;
    AbleIs(nodes, p, makes);
    MadeIsShown(nodes, p, blob, makes);
    MadeNode(nodes, p, blob, makes);
    OnlyShown(CreateAtPath(nodes, p, blob, makes), p, makes[p].id, Fits(nodes, p, makes));
  }

  lemma GrownIs(nodes: Nodes, next: Nodes, p: Path, makes: Makes)
    requires Grown(nodes, next, p, makes)
    ensures forall x :: x in nodes ==> x in next && next[x] == nodes[x]
    ensures forall x :: x in next && x !in nodes ==> exists a :: OnWay(a, p) && a in makes && makes[a].id == x
  {
    hide OnWay, Kept;
  }

  lemma RootFolder(nodes: Nodes, makes: Makes)
    requires Covers(makes, "")
    ensures Folders(nodes, "", makes) == (nodes, None)
  {}

  // ----- whom a new file takes a name from

  lemma FoldersThere(nodes: Nodes, d: Path, makes: Makes)
    requires Able(nodes, d, makes) && FolderAt(nodes, d)
    ensures Covers(makes, d) && Folders(nodes, d, makes) == (nodes, FindByPath(nodes, d))
  {
    hide *;
    AbleIs(nodes, d, makes);
    CoversAbove(makes, d);
    if Dir(d) != "" {
      AbleAbove(nodes, d, makes);
      FolderAbove(nodes, d);
    }
    FoldersReady(nodes, Dir(d), makes);
    var (made, parent) := Folders(nodes, Dir(d), makes);
    SameSoFar(nodes, made, parent, Dir(d), makes);
    FoldersIs(nodes, d, made, parent, makes);
    FoundFolder(nodes, d);
  }

  /** The first of the names on the way that has to be made: the only one that others can be beside. */
  ghost function FirstMade(nodes: Nodes, p: Path): Path
    decreases |p|
  {
    WayUp(p);
    if FolderThere(nodes, p) then p else FirstMade(nodes, Dir(p))
  }

  lemma {:induction false} FirstMadeIs(nodes: Nodes, p: Path)
    requires p != "" && p[0] != '/' && !FolderAt(nodes, p)
    ensures var f := FirstMade(nodes, p);
      f != "" && f[0] != '/' && OnWay(f, p) && !FolderAt(nodes, f) && FolderThere(nodes, f)
    decreases |p|
  {
    OwnWay(p);
    WayUp(p);
    hide OnWay, FolderAt, Dir;
    if !FolderThere(nodes, p) { FirstMadeIs(nodes, Dir(p)); }
  }

  ghost function FolderOf(nodes: Nodes, f: Path): Option<Id> {
    if Dir(f) == "" then None else FindByPath(nodes, Dir(f))
  }

  /** The node made first. */
  ghost function FirstRecord(nodes: Nodes, p: Path, blob: Option<string>, makes: Makes): Record
    requires FirstMade(nodes, p) in makes
  {
    var f := FirstMade(nodes, p);
    NewRecord(makes[f], f != p, Base(f), FolderOf(nodes, f), if f != p then None else blob)
  }

  lemma FirstLands(nodes: Nodes, f: Path, makes: Makes, r: Record)
    requires Able(nodes, f, makes) && FolderThere(nodes, f) && f in makes
    requires r.parent == FolderOf(nodes, f) && !r.trashed
    ensures Lands(nodes, makes[f].id, r, Dir(f))
  {
    OwnWay(f);
    WayUp(f);
    if Dir(f) != "" { FoundFolder(nodes, Dir(f)); }
    hide WellNamed, PathOf, IsLive, Dir;
  }

  /** Folders are made where that one is new, and take no other's name. */
  lemma {:induction false} FoldersAfterFirst(nodes: Nodes, d: Path, makes: Makes, x: Id, n: nat)
    requires Able(nodes, d, makes) && !FolderAt(nodes, d) && x in nodes
    ensures Covers(makes, d) && FirstMade(nodes, d) in makes && x in Folders(nodes, d, makes).0
    ensures var f := FirstMade(nodes, d);
      var first := NewRecord(makes[f], true, Base(f), FolderOf(nodes, f), None);
      && x in nodes[makes[f].id := first]
      && PathOf(Folders(nodes, d, makes).0, x, n) == PathOf(nodes[makes[f].id := first], x, n)
    decreases |d|
  {
    FirstIs(nodes, d);
    hide *;
    AbleIs(nodes, d, makes);
    WayUp(d);
    CoversAbove(makes, d);
    FolderThereIs(nodes, d);
    if Dir(d) != "" { AbleAbove(nodes, d, makes); }
    FoldersReady(nodes, Dir(d), makes);
    var (made, parent) := Folders(nodes, Dir(d), makes);
    var r := NewRecord(makes[d], true, Base(d), parent, None);
    RecordIs(makes[d], true, Base(d), parent, None);
    FoldersIs(nodes, d, made, parent, makes);
    NoneFound(nodes, made, parent, d, makes);
    MakeOne(nodes, made, parent, d, makes, r);
    MakingIs(nodes, made, parent, d, makes, r);
    ExtendsHas(nodes, made, x);
    if FolderThere(nodes, d) {
      ParentOf(nodes, d, made, parent, makes);
    } else {
      FoldersAfterFirst(nodes, Dir(d), makes, x, n);
      AloneStays(made, makes[d].id, r, x, n);
    }
  }

  lemma FirstIs(nodes: Nodes, d: Path)
    ensures FirstMade(nodes, d) == if FolderThere(nodes, d) then d else FirstMade(nodes, Dir(d))
  {}

  lemma ParentOf(nodes: Nodes, f: Path, made: Nodes, parent: Option<Id>, makes: Makes)
    requires Able(nodes, f, makes) && FolderThere(nodes, f) && Covers(makes, Dir(f))
    requires (made, parent) == Folders(nodes, Dir(f), makes)
    ensures made == nodes && parent == FolderOf(nodes, f)
  {
    FolderThereIs(nodes, f);
    assert FolderOf(nodes, f) == if Dir(f) == "" then None else FindByPath(nodes, Dir(f));
    hide *;
    if Dir(f) == "" {
      RootFolder(nodes, makes);
    } else {
      AbleAbove(nodes, f, makes);
      FoldersThere(nodes, Dir(f), makes);
    }
  }

  /** Of what was there, all is shown in the end as it is shown once the first node is made. */
  lemma AfterFirst(nodes: Nodes, p: Path, blob: Option<string>, makes: Makes, x: Id, n: nat)
    requires Able(nodes, p, makes) && !FolderAt(nodes, p) && x in nodes
    ensures p != "" && Covers(makes, p) && FirstMade(nodes, p) in makes && x in CreateAtPath(nodes, p, blob, makes)
    ensures var f := FirstMade(nodes, p); var first := FirstRecord(nodes, p, blob, makes);
      && x in nodes[makes[f].id := first]
      && PathOf(CreateAtPath(nodes, p, blob, makes), x, n) == PathOf(nodes[makes[f].id := first], x, n)
  {
    FirstIs(nodes, p);
    FirstRecordIs(nodes, p, blob, makes);
    hide *;
    AbleIs(nodes, p, makes);
    WayUp(p);
    FolderThereIs(nodes, p);
    var made, parent, r := MadeSo(nodes, p, blob, makes);
    MakingIs(nodes, made, parent, p, makes, r);
    ExtendsHas(nodes, made, x);
    if FolderThere(nodes, p) {
      ParentOf(nodes, p, made, parent, makes);
    } else {
      AbleAbove(nodes, p, makes);
      FoldersAfterFirst(nodes, Dir(p), makes, x, n);
      AloneStays(made, makes[p].id, r, x, n);
    }
  }

  lemma FirstRecordIs(nodes: Nodes, p: Path, blob: Option<string>, makes: Makes)
    requires Able(nodes, p, makes) && !FolderAt(nodes, p)
    ensures var f := FirstMade(nodes, p);
      && f in makes && OnWay(f, p) && FolderThere(nodes, f) && Able(nodes, f, makes)
      && (f != p ==> |f| < |p|)
      && FirstRecord(nodes, p, blob, makes)
        == NewRecord(makes[f], f != p, Base(f), FolderOf(nodes, f), if f != p then None else blob)
  {
    FirstMadeIs(nodes, p);
    var f := FirstMade(nodes, p);
    hide FirstMade, FirstRecord, FolderAt, Fresh, WellNamed, FolderThere, Base, Dir;
    AbleOn(nodes, p, makes, f);
    assert FirstRecord(nodes, p, blob, makes)
      == NewRecord(makes[f], f != p, Base(f), FolderOf(nodes, f), if f != p then None else blob) by {
      FirstRecordUnfolds(nodes, p, blob, makes);
    }
  }

  lemma FirstRecordUnfolds(nodes: Nodes, p: Path, blob: Option<string>, makes: Makes)
    requires FirstMade(nodes, p) in makes
    ensures var f := FirstMade(nodes, p);
      FirstRecord(nodes, p, blob, makes)
        == NewRecord(makes[f], f != p, Base(f), FolderOf(nodes, f), if f != p then None else blob)
  {
    hide FirstMade, Base, FolderOf;
  }

  lemma AbleOn(nodes: Nodes, p: Path, makes: Makes, a: Path)
    requires Able(nodes, p, makes) && OnWay(a, p) && a != ""
    ensures Able(nodes, a, makes) && a in makes && (a != p ==> |a| < |p|)
  {
    assert a[0] == p[0];
    forall b | OnWay(b, a) ensures OnWay(b, p) {
      if b != a && a != p { AncestorsChain(b, a, p); }
    }
    hide Ancestor, Fresh, WellNamed;
  }

  /** Everyone shown is shown still, at the same path. */
  ghost predicate AllStay(nodes: Nodes, next: Nodes) {
    forall x, q :: ShownAt(nodes, x, q) ==> ShownAt(next, x, q)
  }

  /** One new node, of any age, in the folder at `d`: all others stay exactly if nobody is shown by the name it gets. */
  lemma InsertLeavesAll(nodes: Nodes, id: Id, r: Record, d: Path)
    requires Lands(nodes, id, r, d) && '/' !in r.name
    ensures id !in nodes && (AllStay(nodes, nodes[id := r]) <==> Nobody(nodes, Under(d, NewName(nodes, id, r))))
  {
    hide *;
    LandsIs(nodes, id, r, d);
    NewNameHasNoSlash(nodes, id, r);
    var name := NewName(nodes, id, r);
    if Nobody(nodes, Under(d, name)) {
      NobodyLeavesAll(nodes, id, r, d);
    } else {
      var x, q := Somebody(nodes, Under(d, name));
      SomebodyMoves(nodes, id, r, d, x, q);
      NotAllStay(nodes, nodes[id := r], x, q);
    }
  }

  lemma Somebody(nodes: Nodes, p: Path) returns (x: Id, q: Path)
    requires !Nobody(nodes, p)
    ensures ShownAt(nodes, x, q) && Lower(q) == Lower(p)
  {
    hide ShownAt, Lower;
    x, q :| ShownAt(nodes, x, q) && Lower(q) == Lower(p);
  }

  lemma NotAllStay(nodes: Nodes, next: Nodes, x: Id, q: Path)
    requires ShownAt(nodes, x, q) && !ShownAt(next, x, q)
    ensures !AllStay(nodes, next)
  {}

  lemma SomebodyMoves(nodes: Nodes, id: Id, r: Record, d: Path, x: Id, q: Path)
    requires Lands(nodes, id, r, d) && id !in nodes && '/' !in NewName(nodes, id, r)
    requires ShownAt(nodes, x, q) && Lower(q) == Lower(Under(d, NewName(nodes, id, r)))
    ensures !ShownAt(nodes[id := r], x, q)
  {
    hide *;
    LandsIs(nodes, id, r, d);
    LandsAt(nodes, id, r, d);
    ShownIsChild(nodes, r.parent, d, NewName(nodes, id, r), x, q);
    AmongSiblings(nodes, x);
    NameGivenUp(nodes, id, r, x);
    MovedFrom(nodes, nodes[id := r], x, q);
  }

  lemma LandsAt(nodes: Nodes, id: Id, r: Record, d: Path)
    requires Lands(nodes, id, r, d)
    ensures IsFolderAt(nodes, r.parent, d)
  {
    hide WellNamed, CanInsert, IsFolderAt;
  }

  /** Who is shown by the name the new node gets has to take another. */
  lemma NameGivenUp(nodes: Nodes, id: Id, r: Record, x: Id)
    requires WellNamed(nodes) && CanInsert(nodes, id, r) && id !in nodes && x in Siblings(nodes, r.parent)
    requires Lower(Names(nodes, Siblings(nodes, r.parent))[x]) == Lower(NewName(nodes, id, r))
    ensures var next := nodes[id := r];
      && x in next && IsLive(next, x, {}) && Lower(NameOf(next, x)) != Lower(NewName(nodes, id, r))
      && '/' !in NameOf(next, x)
  {
    var next, s := nodes[id := r], Siblings(nodes, r.parent);
    InsertNames(nodes, id, r);
    assert Names(next, s + {id})[id] == NewName(nodes, id, r);
    hide *;
    OldName(nodes, id, r, x);
    SiblingsApart(next, s + {id}, x, id);
  }

  lemma MovedFrom(nodes: Nodes, next: Nodes, x: Id, q: Path)
    requires WellNamed(nodes) && ShownAt(nodes, x, q) && x in next
    requires IsLive(nodes, x, {}) && IsLive(next, x, {}) && Lower(NameOf(next, x)) != Lower(NameOf(nodes, x))
    requires '/' !in NameOf(next, x)
    ensures !ShownAt(next, x, q)
  {
    PathIs(nodes, x, MOST_PARTS);
    UnderTells(FolderPath(nodes, x, MOST_PARTS), NameOf(nodes, x));
    hide WellNamed, IsLive, NameOf, Lower, Under, Dir, Base;
    if PathOf(next, x, MOST_PARTS).Some? {
      var folder := ShownInParts(next, x, MOST_PARTS);
      UnderTells(folder, NameOf(next, x));
    }
  }

  lemma NobodyLeavesAll(nodes: Nodes, id: Id, r: Record, d: Path)
    requires Lands(nodes, id, r, d) && id !in nodes && '/' !in NewName(nodes, id, r)
    requires Nobody(nodes, Under(d, NewName(nodes, id, r)))
    ensures AllStay(nodes, nodes[id := r])
  {
    LandsIs(nodes, id, r, d);
    var next := nodes[id := r];
    hide PathOf, Lands, Nobody, CanInsert, WellNamed, NewName;
    if r.parent.None? || Parts(d) < MOST_PARTS {
      NobodyBeside(nodes, id, r, d);
      InsertKeepsNames(nodes, id, r);
      InsertNames(nodes, id, r);
      forall x, q | ShownAt(nodes, x, q) ensures ShownAt(next, x, q) { PathStays(nodes, next, x, MOST_PARTS); }
    } else {
      forall x, q | ShownAt(nodes, x, q) ensures ShownAt(next, x, q) {
        PathHasParts(nodes, x, MOST_PARTS, MOST_PARTS);
        if Ancestor(d, q) { DeeperHasMore(d, q); }
        OutsideStays(nodes, id, r, d, x, MOST_PARTS);
      }
    }
  }

  lemma NobodyBeside(nodes: Nodes, id: Id, r: Record, d: Path)
    requires Lands(nodes, id, r, d) && id !in nodes && (r.parent.None? || Parts(d) < MOST_PARTS)
    requires Nobody(nodes, Under(d, NewName(nodes, id, r)))
    ensures NoSibling(nodes, r.parent, NewName(nodes, id, r))
  {
    var name, s := NewName(nodes, id, r), Siblings(nodes, r.parent);
    LandsIs(nodes, id, r, d);
    assert IsFolderAt(nodes, r.parent, d);
    hide PathOf, Lands, CanInsert, WellNamed, NewName, Names, Lower, Under, Siblings, IsFolderAt;
    forall x | x in s ensures Lower(Names(nodes, s)[x]) != Lower(name) {
      ChildIsShown(nodes, r.parent, d, x);
      LowerUnder(d, Names(nodes, s)[x]);
      LowerUnder(d, name);
    }
  }

  /** Somebody is shown where the first node that is made comes to be shown, in any case of letters. */
  ghost predicate Displaces(nodes: Nodes, p: Path, blob: Option<string>, makes: Makes)
    requires FirstMade(nodes, p) in makes && makes[FirstMade(nodes, p)].id !in nodes
  {
    var f := FirstMade(nodes, p);
    !Nobody(nodes, Under(Dir(f), NewName(nodes, makes[f].id, FirstRecord(nodes, p, blob, makes))))
  }

  /**
   * Whatever the clocks: a file made at a path leaves everyone else shown where they were if and only if
   * nobody was shown, in any case of letters, by the name that the first node made for it gets.
   */
  lemma OthersStay(nodes: Nodes, p: Path, blob: Option<string>, makes: Makes)
    requires Able(nodes, p, makes) && p !in TreeOf(nodes)
    ensures p != "" && Covers(makes, p) && FirstMade(nodes, p) in makes && makes[FirstMade(nodes, p)].id !in nodes
    ensures AllStay(nodes, CreateAtPath(nodes, p, blob, makes)) <==> !Displaces(nodes, p, blob, makes)
  {
    AbleIs(nodes, p, makes);
    FolderInTree(nodes, p);
    FirstRecordIs(nodes, p, blob, makes);
    var f, r := FirstMade(nodes, p), FirstRecord(nodes, p, blob, makes);
    RecordIs(makes[f], f != p, Base(f), FolderOf(nodes, f), if f != p then None else blob);
    FirstLands(nodes, f, makes, r);
    hide PathOf, Lands, TreeOf, Able, FirstMade, FirstRecord, NewName, Nobody, CreateAtPath, WellNamed, Base,
      Dir, Under, FolderAt, Covers;
    InsertLeavesAll(nodes, makes[f].id, r, Dir(f));
    var next := CreateAtPath(nodes, p, blob, makes);
    forall x, q | x in nodes ensures ShownAt(next, x, q) <==> ShownAt(nodes[makes[f].id := r], x, q) {
      AfterFirst(nodes, p, blob, makes, x, MOST_PARTS);
    }
  }

  /** Who has to move is younger than that first node. */
  lemma DisplacedIsYounger(nodes: Nodes, id: Id, r: Record, x: Id)
    requires CanInsert(nodes, id, r) && x in Siblings(nodes, r.parent) && OlderThan(nodes, x, id, r.createdAt)
    ensures id !in nodes
    ensures Lower(Names(nodes, Siblings(nodes, r.parent))[x]) != Lower(NewName(nodes, id, r))
  {
    var next, s := nodes[id := r], Siblings(nodes, r.parent);
    InsertNames(nodes, id, r);
    assert Older(next, x, id);
    hide Names, Lower, Siblings, CanInsert, NameOf, IsLive;
    OlderUnmoved(next, s, id, x);
    SiblingsApart(next, s + {id}, x, id);
  }

  // ----- blank names

  /** No name that has to be made is all white space, to be trimmed away. */
  ghost predicate NoBlankMade(nodes: Nodes, p: Path) {
    forall a :: OnWay(a, p) && a != "" && !FolderAt(nodes, a) ==> Trim(Base(a), JsSpace) != ""
  }

  lemma NoBlankUp(nodes: Nodes, p: Path)
    requires p != "" && p[0] != '/' && !FolderAt(nodes, p)
    ensures NoBlankMade(nodes, p)
      <==> Trim(Base(p), JsSpace) != "" && (Dir(p) != "" ==> NoBlankMade(nodes, Dir(p)))
  {
    OnWayUp(p);
    hide OnWay, FolderAt, Trim, Base, Dir;
    assert OnWay(p, p) by { OwnWay(p); }
  }

  lemma NamedWith(nodes: Nodes, id: Id, r: Record)
    requires id !in nodes && '/' !in r.name
    ensures WellNamed(nodes[id := r]) <==> WellNamed(nodes) && r.name != ""
  {
    if WellNamed(nodes[id := r]) {
      forall x | x in nodes ensures nodes[x].name != "" && '/' !in nodes[x].name {
        assert nodes[id := r][x] == nodes[x];
      }
      assert nodes[id := r][id] == r;
    }
  }

  /** The folders on the way have names exactly if none of those made is blank. */
  lemma {:induction false} FoldersNamed(nodes: Nodes, d: Path, makes: Makes)
    requires Able(nodes, d, makes)
    ensures Covers(makes, d) && (WellNamed(Folders(nodes, d, makes).0) <==> NoBlankMade(nodes, d))
    decreases |d|
  {
    hide *;
    AbleIs(nodes, d, makes);
    WayUp(d);
    CoversAbove(makes, d);
    if FolderAt(nodes, d) {
      FoldersThere(nodes, d, makes);
      NoneToMake(nodes, d, makes);
    } else {
      if Dir(d) != "" {
        AbleAbove(nodes, d, makes);
        FoldersNamed(nodes, Dir(d), makes);
      } else {
        RootFolder(nodes, makes);
      }
      FoldersReady(nodes, Dir(d), makes);
      var (made, parent) := Folders(nodes, Dir(d), makes);
      var r := NewRecord(makes[d], true, Base(d), parent, None);
      RecordIs(makes[d], true, Base(d), parent, None);
      FoldersIs(nodes, d, made, parent, makes);
      NoneFound(nodes, made, parent, d, makes);
      MakeOne(nodes, made, parent, d, makes, r);
      MakingIs(nodes, made, parent, d, makes, r);
      NamedWith(made, makes[d].id, r);
      NoBlankUp(nodes, d);
    }
  }

  lemma NoneToMake(nodes: Nodes, d: Path, makes: Makes)
    requires WellNamed(nodes) && FolderAt(nodes, d)
    ensures NoBlankMade(nodes, d)
  {
    FoldersPass(nodes, d, makes);
    hide FolderAt, OnWay, WellNamed, Passes;
  }

  /** A file made leaves a room whose nodes all have names exactly if no name that had to be made is blank. */
  lemma MadeNamed(nodes: Nodes, p: Path, blob: Option<string>, makes: Makes)
    requires Able(nodes, p, makes) && p !in TreeOf(nodes)
    ensures p != "" && Covers(makes, p)
    ensures WellNamed(CreateAtPath(nodes, p, blob, makes)) <==> NoBlankMade(nodes, p)
  {
    hide *;
    AbleIs(nodes, p, makes);
    FolderInTree(nodes, p);
    var made, parent, r := MadeSo(nodes, p, blob, makes);
    MakingIs(nodes, made, parent, p, makes, r);
    NamedWith(made, makes[p].id, r);
    NoBlankUp(nodes, p);
    if Dir(p) != "" {
      AbleAbove(nodes, p, makes);
      FoldersNamed(nodes, Dir(p), makes);
    } else {
      RootFolder(nodes, makes);
    }
  }

  /** A blank name at the root: the file is shown at the empty path, which the sandbox's agent refuses. */
  lemma BlankIsShownAtNoPath(nodes: Nodes, p: Path, blob: Option<string>, makes: Makes)
    requires Able(nodes, p, makes) && p !in TreeOf(nodes) && Dir(p) == "" && Trim(Base(p), JsSpace) == ""
    ensures p != "" && Covers(makes, p) && p in makes
    ensures ShownAt(CreateAtPath(nodes, p, blob, makes), makes[p].id, "")
  {
    hide *;
    AbleIs(nodes, p, makes);
    FolderInTree(nodes, p);
    var made, parent, r := MadeSo(nodes, p, blob, makes);
    MakingIs(nodes, made, parent, p, makes, r);
    FolderThereIs(nodes, p);
    var next := CreateAtPath(nodes, p, blob, makes);
    MakePath(nodes, made, parent, p, makes, r, MOST_PARTS);
    assert MOST_PARTS > 0 && Under("", "") == "" by { Plain(); }
    BlankNewName(made, makes[p].id, r);
    ShownNow(next, makes[p].id, "");
  }

  lemma Plain()
    ensures MOST_PARTS > 0 && Under("", "") == ""
  {}

  lemma BlankNewName(nodes: Nodes, id: Id, r: Record)
    requires WellNamed(nodes) && CanInsert(nodes, id, r) && r.name == ""
    ensures id !in nodes && NewName(nodes, id, r) == ""
  {
    assert Trimmed("", JsSpace);
    TrimmedStays("", JsSpace);
    NewNameComesOut(nodes, id, r, "");
    var s := Siblings(nodes, r.parent);
    hide Names, Siblings, CanInsert, Trim, OlderThan;
    forall x | x in s ensures Lower(Names(nodes, s)[x]) != Lower("") { NamesKeep(nodes, s, x); }
  }

  /** And everyone else is in the tree as before exactly if nobody had to give up a name. */
  lemma TreeKept(nodes: Nodes, p: Path, blob: Option<string>, makes: Makes)
    requires Able(nodes, p, makes) && p !in TreeOf(nodes) && NoBlankMade(nodes, p)
    ensures p != "" && Covers(makes, p) && FirstMade(nodes, p) in makes && makes[FirstMade(nodes, p)].id !in nodes
    ensures var tree, after := TreeOf(nodes), TreeOf(CreateAtPath(nodes, p, blob, makes));
      (forall q :: q in tree ==> q in after && after[q] == tree[q]) <==> !Displaces(nodes, p, blob, makes)
  {
    hide *;
    AbleIs(nodes, p, makes);
    OthersStay(nodes, p, blob, makes);
    MadeNamed(nodes, p, blob, makes);
    MadeIsShown(nodes, p, blob, makes);
    var next := CreateAtPath(nodes, p, blob, makes);
    GrownIs(nodes, next, p, makes);
    StayIsTree(nodes, next);
  }

  lemma StayIsTree(nodes: Nodes, next: Nodes)
    requires WellNamed(nodes) && WellNamed(next) && forall x :: x in nodes ==> x in next && next[x] == nodes[x]
    ensures AllStay(nodes, next)
      <==> forall q :: q in TreeOf(nodes) ==> q in TreeOf(next) && TreeOf(next)[q] == TreeOf(nodes)[q]
  {
    var tree, after := TreeOf(nodes), TreeOf(next);
    hide PathOf, WellNamed;
    if AllStay(nodes, next) {
      forall q | q in tree ensures q in after && after[q] == tree[q] { ShownIsInTree(next, tree[q].id, q); }
    }
    if forall q :: q in tree ==> q in after && after[q] == tree[q] {
      forall x, q | ShownAt(nodes, x, q) ensures ShownAt(next, x, q) {
        ShownIsInTree(nodes, x, q);
        assert after[q].id == x;
      }
    }
  }

  /** A blank name on the way makes such a room: a program writes `a` in a folder whose name is one space. */
  lemma BlankNameMakes(makes: Makes)
    requires Covers(makes, " /a") && " " in makes && makes[" "] == Made(2, 1) && " /a" in makes
      && makes[" /a"] == Made(3, 2)
    ensures CreateAtPath(map[1 := Record(false, "a", None, 0, false, None)], " /a", None, makes) == BlankRoom()
  {
    var nodes: Nodes := map[1 := Record(false, "a", None, 0, false, None)];
    var made := nodes[2 := Record(true, "", None, 1, false, None)];
    assert made[3 := Record(false, "a", Some(2), 2, false, None)] == BlankRoom();
    assert NewRecord(Made(2, 1), true, " ", None, None) == Record(true, Trim(" ", JsSpace), None, 1, false, None);
    assert NewRecord(Made(3, 2), false, "a", Some(2), None)
      == Record(false, Trim("a", JsSpace), Some(2), 2, false, None);
    hide *;
    BlankParts();
    CoversAbove(makes, " /a");
    CoversAbove(makes, " ");
    NothingAtSpace();
    RootFolder(nodes, makes);
    FoldersMore(nodes, " ", nodes, None, makes);
    CreateIs(nodes, " /a", made, Some(2), None, makes);
  }

  lemma BlankParts()
    ensures Dir(" /a") == " " && Base(" /a") == "a" && Dir(" ") == "" && Base(" ") == " "
    ensures Trim(" ", JsSpace) == "" && Trim("a", JsSpace) == "a"
  {
    assert Under(" ", "a") == " /a" && Under("", " ") == " ";
    assert Trimmed("a", JsSpace) && TrimStart(" ", JsSpace) == "";
    hide Dir, Base, TrimStart, TrimEnd;
    UnderTells(" ", "a");
    UnderTells("", " ");
    TrimmedStays("a", JsSpace);
  }

  lemma NothingAtSpace()
    ensures " " !in TreeOf(map[1 := Record(false, "a", None, 0, false, None)])
  {
    var nodes: Nodes := map[1 := Record(false, "a", None, 0, false, None)];
    assert Siblings(nodes, None) == {1};
    NamesOfOne(nodes, 1);
    assert PathOf(nodes, 1, MOST_PARTS) == Some("a");
  }

  // ----- the loop

  lemma FoldersMore(nodes: Nodes, d: Path, made: Nodes, parent: Option<Id>, makes: Makes)
    requires d != "" && Covers(makes, d) && Covers(makes, Dir(d)) && |Dir(d)| < |d|
    requires (made, parent) == Folders(nodes, Dir(d), makes)
    ensures d in makes
    ensures Folders(nodes, d, makes) ==
      if d in TreeOf(made) && TreeOf(made)[d].FolderNode? then (made, Some(TreeOf(made)[d].id))
      else (made[makes[d].id := NewRecord(makes[d], true, Base(d), parent, None)], Some(makes[d].id))
  {
    CoversAbove(makes, d);
    hide Ancestor, Dir, Base, PathOf, NewRecord;
  }

  /** What is left of a path, past a prefix of its names. */
  ghost predicate Leads(p: Path, prefix: Path, parts: seq<string>, i: nat) {
    && i < |parts| && (forall q :: q in parts ==> '/' !in q)
    && p == Under(prefix, Join(parts[i..], '/')) && (i > 0 <==> prefix != "")
  }

  lemma {:induction false} PartsHaveNone(s: string, c: char)
    ensures forall q :: q in Split(s, c) ==> c !in q
    decreases |s|
  {
    var i := IndexOf(s, c);
    if i < |s| { PartsHaveNone(s[i + 1..], c); }
  }

  lemma LeadsFirst(p: Path)
    requires p != "" && p[0] != '/'
    ensures Leads(p, "", Split(p, '/'), 0)
  {
    PartsHaveNone(p, '/');
    JoinSplit(p, '/');
    assert Split(p, '/')[0..] == Split(p, '/');
    hide Split;
  }

  lemma LeadsOn(p: Path, prefix: Path, parts: seq<string>, i: nat)
    requires Leads(p, prefix, parts, i) && i + 1 < |parts| && p != "" && p[0] != '/'
    ensures var next := Under(prefix, parts[i]);
      Leads(p, next, parts, i + 1) && Ancestor(next, p) && Dir(next) == prefix && Base(next) == parts[i]
  {
    var more := Join(parts[i + 1..], '/');
    assert parts[i] in parts && parts[i..] == [parts[i]] + parts[i + 1..];
    hide Join, Dir, Base, LastSlash;
    JoinFirst(parts[i], parts[i + 1..], '/');
    UnderTells(prefix, parts[i]);
    NextUnder(p, prefix, parts[i], more);
  }

  lemma NextUnder(p: Path, prefix: Path, name: string, more: string)
    requires p == Under(prefix, name + "/" + more) && p != "" && p[0] != '/'
    ensures var next := Under(prefix, name); p == Under(next, more) && next != "" && Ancestor(next, p)
  {
    var next := Under(prefix, name);
    if prefix == "" {
      assert p[0] == (name + "/")[0];
    } else {
      assert prefix + "/" + (name + "/" + more) == next + "/" + more;
    }
    assert p == next + "/" + more;
  }

  lemma LeadsLast(p: Path, prefix: Path, parts: seq<string>)
    requires parts != [] && Leads(p, prefix, parts, |parts| - 1)
    ensures Dir(p) == prefix && Base(p) == parts[|parts| - 1]
  {
    var name := parts[|parts| - 1];
    assert parts[|parts| - 1..] == [name] && Join([name], '/') == name && name in parts;
    UnderTells(prefix, name);
  }

  lemma CoversOn(nodes: Nodes, p: Path, d: Path, makes: Makes)
    requires Ancestor(d, p) && Able(nodes, p, makes) && NoBlankMade(nodes, p)
    ensures Covers(makes, d) && Able(nodes, d, makes) && NoBlankMade(nodes, d)
  {
    AbleOn(nodes, p, makes, d);
    forall a | OnWay(a, d) ensures OnWay(a, p) {
      if a != d { AncestorsChain(a, d, p); }
    }
    hide Ancestor, Base, Trim, FolderAt;
  }

  lemma FoldersNext(nodes: Nodes, d: Path, made: Nodes, parent: Option<Id>, makes: Makes)
    requires Able(nodes, d, makes) && NoBlankMade(nodes, d) && Covers(makes, Dir(d))
    requires (made, parent) == Folders(nodes, Dir(d), makes)
    ensures d in makes && d != "" && Covers(makes, d)
    ensures var tree, next := TreeOf(made), made[makes[d].id := NewRecord(makes[d], true, Base(d), parent, None)];
      && WellNamed(Folders(nodes, d, makes).0)
      && Folders(nodes, d, makes) ==
        if d in tree && tree[d].FolderNode? then (made, Some(tree[d].id)) else (next, Some(makes[d].id))
  {
    hide *;
    AbleIs(nodes, d, makes);
    CoversAbove(makes, d);
    FoldersNamed(nodes, d, makes);
    FoldersMore(nodes, d, made, parent, makes);
  }

  /** `createAtPath`: folders that are there are reused. */
  method MakeAtPath(nodes: Nodes, p: Path, blob: Option<string>, makes: Makes) returns (next: Nodes)
    requires Able(nodes, p, makes) && p !in TreeOf(nodes) && NoBlankMade(nodes, p)
    ensures p != "" && Covers(makes, p)
    ensures next == CreateAtPath(nodes, p, blob, makes) && WellNamed(next)
  {
    AbleIs(nodes, p, makes);
    var parts := Split(p, '/');
    LeadsFirst(p);
    next := nodes;
    var parent: Option<Id> := None;
    var prefix := "";
    assert Covers(makes, "") && Folders(nodes, "", makes) == (next, parent);
    hide *;
    for i := 0 to |parts| - 1
      invariant Leads(p, prefix, parts, i) && WellNamed(next)
      invariant Covers(makes, prefix) && (next, parent) == Folders(nodes, prefix, makes)
    {
      LeadsOn(p, prefix, parts, i);
      prefix := Under(prefix, parts[i]);
      CoversOn(nodes, p, prefix, makes);
      FoldersNext(nodes, prefix, next, parent, makes);
      var tree := ListTree(next);
      if prefix in tree && tree[prefix].FolderNode? {
        parent := Some(tree[prefix].id);
      } else {
        var m := makes[prefix];
        next, parent := next[m.id := NewRecord(m, true, parts[i], parent, None)], Some(m.id);
      }
    }
    LeadsLast(p, prefix, parts);
    CreateIs(nodes, p, next, parent, blob, makes);
    MadeNamed(nodes, p, blob, makes);
    next := next[makes[p].id := NewRecord(makes[p], false, parts[|parts| - 1], parent, blob)];
  }
}
