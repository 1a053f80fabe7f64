/**
 * Nodes made at a path of the room's files document: folders that are there are reused, others are made,
 * and then the file; and where what was made is shown.
 */
module NewNodes {
  import opened Strings
  import opened WhiteSpace
  import opened Paths
  import opened PathNames
  import opened SiblingNames
  import opened RoomNodes
  import opened InsertNode
  import opened InsertPaths

  // ----- nodes along a path

  /** What a new node gets: an id, and the time by the clock of who makes it. */
  datatype Made = Made(id: Id, at: int)

  type Makes = map<Path, Made>

  /** `insertNode`: names are trimmed. */
  function NewRecord(m: Made, folder: bool, name: string, parent: Option<Id>, blob: Option<string>): Record {
    Record(folder, Trim(name, JsSpace), parent, m.at, false, if folder then None else blob)
  }

  ghost predicate FolderAt(nodes: Nodes, d: Path) {
    exists id :: ShownAt(nodes, id, d) && nodes[id].folder
  }

  ghost predicate Covers(makes: Makes, p: Path) {
    forall a :: OnWay(a, p) && a != "" ==> a in makes
  }

  lemma CoversAbove(makes: Makes, p: Path)
    requires Covers(makes, p) && p != ""
    ensures p in makes && Covers(makes, Dir(p)) && |Dir(p)| < |p|
  {
    assert OnWay(p, p);
    forall a | OnWay(a, Dir(p)) && a != "" ensures a in makes { assert OnWay(a, p); }
  }

  /** The folders above a new node: those at these paths already are used, the others are made. */
  ghost function Folders(nodes: Nodes, d: Path, makes: Makes): (Nodes, Option<Id>)
    requires Covers(makes, d)
    decreases |d|
  {
    if d == "" then (nodes, None) else
      CoversAbove(makes, d);
      var (made, parent) := Folders(nodes, Dir(d), makes);
      var found := FindByPath(made, d);
      if found.Some? && made[found.value].folder then (made, found)
      else (made[makes[d].id := NewRecord(makes[d], true, Base(d), parent, None)], Some(makes[d].id))
  }

  /** `createAtPath`. */
  ghost function CreateAtPath(nodes: Nodes, p: Path, blob: Option<string>, makes: Makes): Nodes
    requires Covers(makes, p) && p != ""
  {
    CoversAbove(makes, p);
    var (made, parent) := Folders(nodes, Dir(p), makes);
    made[makes[p].id := NewRecord(makes[p], false, Base(p), parent, blob)]
  }

  /** Ids that nothing has yet, each its own. */
  ghost predicate FreshMakes(nodes: Nodes, p: Path, makes: Makes) {
    && (forall a :: OnWay(a, p) ==> a in makes && Fresh(nodes, makes[a].id))
    && (forall a, b :: OnWay(a, p) && OnWay(b, p) && makes[a].id == makes[b].id ==> a == b)
  }

  /** No node older than the one to be made is shown at this path, in any case of letters. */
  ghost predicate NobodyOlder(nodes: Nodes, p: Path, m: Made) {
    forall x, q :: ShownAt(nodes, x, q) && Lower(q) == Lower(p) ==> !OlderThan(nodes, x, m.id, m.at)
  }

  /** The folder a node at `a` goes into is there. */
  ghost predicate FolderThere(nodes: Nodes, a: Path) {
    Dir(a) == "" || FolderAt(nodes, Dir(a))
  }

  /** A new node asked for at `p` gets its name, and so do the folders made for it. */
  ghost predicate Places(nodes: Nodes, p: Path, makes: Makes)
    decreases |p|
  {
    && p != "" && p in makes && Trim(Base(p), JsSpace) == Base(p)
    && if FolderThere(nodes, p) then NobodyOlder(nodes, p, makes[p]) else Places(nodes, Dir(p), makes)
  }

  /** Who is in the folder on the way, by name, is who is shown there. */
  lemma OlderIsShown(nodes: Nodes, parent: Option<Id>, p: Path, m: Made)
    requires WellNamed(nodes) && IsFolderAt(nodes, parent, Dir(p)) && (parent.Some? ==> Dir(p) != "")
    requires p != "" && p[0] != '/' && Parts(p) <= MOST_PARTS
    ensures NoOlderSibling(nodes, parent, Base(p), m.id, m.at) <==> NobodyOlder(nodes, p, m)
  {
    WayUp(p);
    PartsUnder(Dir(p), Base(p));
    assert parent.None? || Parts(Dir(p)) < MOST_PARTS by { FolderIs(nodes, parent, Dir(p)); }
    var s := Siblings(nodes, parent);
    hide PathOf, WellNamed, Lower, Dir, Base, Under, Names, Siblings, IsFolderAt, ShownAt, OlderThan;
    if NobodyOlder(nodes, p, m) {
      forall x | x in s && OlderThan(nodes, x, m.id, m.at) ensures Lower(Names(nodes, s)[x]) != Lower(Base(p)) {
        if Lower(Names(nodes, s)[x]) == Lower(Base(p)) { var q := ChildHasPath(nodes, parent, p, x); }
      }
    }
    if NoOlderSibling(nodes, parent, Base(p), m.id, m.at) {
      forall x, q | ShownAt(nodes, x, q) && Lower(q) == Lower(p) ensures !OlderThan(nodes, x, m.id, m.at) {
        ShownIsChild(nodes, parent, Dir(p), Base(p), x, q);
      }
    }
  }

  lemma ChildHasPath(nodes: Nodes, parent: Option<Id>, p: Path, x: Id) returns (q: Path)
    requires WellNamed(nodes) && IsFolderAt(nodes, parent, Dir(p)) && p != "" && p[0] != '/'
    requires x in Siblings(nodes, parent) && (parent.None? || Parts(Dir(p)) < MOST_PARTS)
    requires Lower(Names(nodes, Siblings(nodes, parent))[x]) == Lower(Base(p))
    ensures ShownAt(nodes, x, q) && Lower(q) == Lower(p)
  {
    WayUp(p);
    var name := Names(nodes, Siblings(nodes, parent))[x];
    q := Under(Dir(p), name);
    ChildIsShown(nodes, parent, Dir(p), x);
    LowerUnder(Dir(p), name);
    LowerUnder(Dir(p), Base(p));
  }

  lemma ShownIsChild(nodes: Nodes, parent: Option<Id>, d: Path, name: string, x: Id, q: Path)
    requires WellNamed(nodes) && IsFolderAt(nodes, parent, d) && (parent.Some? ==> d != "")
    requires '/' !in name && ShownAt(nodes, x, q) && Lower(q) == Lower(Under(d, name))
    ensures x in nodes && x in Siblings(nodes, parent)
    ensures Lower(Names(nodes, Siblings(nodes, parent))[x]) == Lower(name)
    ensures IsLive(nodes, x, {}) && Above(nodes, x) == parent
  {
    FolderIs(nodes, parent, d);
    assert x in nodes && PathOf(nodes, x, MOST_PARTS) == Some(q);
    hide *;
    PathIs(nodes, x, MOST_PARTS);
    LowerTells(FolderPath(nodes, x, MOST_PARTS), NameOf(nodes, x), d, name);
    AmongSiblings(nodes, x);
    if parent.Some? {
      PathHasParts(nodes, Above(nodes, x).value, MOST_PARTS - 1, MOST_PARTS);
      PathsApart(nodes, Above(nodes, x).value, parent.value, MOST_PARTS);
    }
  }

  // ----- the folders made so far

  ghost predicate Extends(nodes: Nodes, made: Nodes) {
    forall x :: x in nodes ==> x in made && made[x] == nodes[x]
  }

  /** What is new is on the way to `d`, and nothing unknown is above it. */
  ghost predicate NewOnWay(nodes: Nodes, made: Nodes, d: Path, makes: Makes) {
    forall x :: x in made && x !in nodes ==>
      && (made[x].parent.Some? ==> made[x].parent.value in made)
      && exists a :: OnWay(a, d) && a != "" && a in makes && makes[a].id == x
  }

  /** What was there is as it was; the rest is new. */
  ghost predicate Grown(nodes: Nodes, made: Nodes, d: Path, makes: Makes) {
    Kept(nodes, made) && Extends(nodes, made) && NewOnWay(nodes, made, d, makes)
  }

  /** At `d` and beneath it nobody is shown, of those that were there, who was not so before. */
  ghost predicate Quiet(nodes: Nodes, made: Nodes, d: Path) {
    forall x, n: nat ::
      (x in nodes && x in made && n <= MOST_PARTS && PathOf(made, x, n).Some? && OnWay(d, PathOf(made, x, n).value))
      ==> PathOf(nodes, x, n) == PathOf(made, x, n)
  }

  /** No new node is shown deeper than `d`. */
  ghost predicate NotDeeper(nodes: Nodes, made: Nodes, d: Path) {
    forall x, n: nat :: x in made && x !in nodes && PathOf(made, x, n).Some?
      ==> Parts(PathOf(made, x, n).value) <= Parts(d)
  }

  /** A node is shown at `d` exactly if it got its name, and so did what is above it. */
  ghost predicate ShownIf(nodes: Nodes, made: Nodes, id: Id, d: Path, makes: Makes) {
    id in made && forall n: nat :: n <= MOST_PARTS ==>
      (PathOf(made, id, n) == Some(d) <==> Places(nodes, d, makes) && Parts(d) <= n)
  }

  /** The last folder made is empty, and shown as asked for or not at all where it could be. */
  ghost predicate IsNew(nodes: Nodes, made: Nodes, parent: Option<Id>, d: Path, makes: Makes) {
    && parent.Some? && parent.value !in nodes && Siblings(made, parent) == {}
    && NotDeeper(nodes, made, d) && Quiet(nodes, made, d) && ShownIf(nodes, made, parent.value, d, makes)
  }

  ghost predicate Ready(nodes: Nodes, made: Nodes, parent: Option<Id>, d: Path, makes: Makes) {
    && Grown(nodes, made, d, makes) && LiveFolder(made, parent) && (parent.None? <==> d == "")
    && if d == "" || FolderAt(nodes, d) then made == nodes && IsFolderAt(nodes, parent, d)
       else IsNew(nodes, made, parent, d, makes)
  }

  /** New nodes can be made for `p`, a path of the room's kind. */
  ghost predicate Able(nodes: Nodes, p: Path, makes: Makes) {
    && WellNamed(nodes) && p != "" && p[0] != '/'
    && Covers(makes, p) && FreshMakes(nodes, p, makes)
  }

  ghost predicate Asked(nodes: Nodes, p: Path, makes: Makes) {
    Able(nodes, p, makes) && !FolderAt(nodes, p)
  }

  lemma MakeFresh(nodes: Nodes, made: Nodes, parent: Option<Id>, p: Path, makes: Makes)
    requires Asked(nodes, p, makes) && Ready(nodes, made, parent, Dir(p), makes)
    ensures p in makes && Fresh(made, makes[p].id) && LiveFolder(made, parent)
  {
    assert OnWay(p, p);
    var id := makes[p].id;
    WayUp(p);
    hide Ancestor, Dir, PathOf, WellNamed, FolderAt, ShownIf, NotDeeper, Kept, Quiet;
    forall x | x in made && x !in nodes ensures x != id {
      var a :| OnWay(a, Dir(p)) && a != "" && a in makes && makes[a].id == x;
      assert OnWay(a, p) && a != p;
    }
  }

  lemma KeptTwice(nodes: Nodes, made: Nodes, next: Nodes)
    requires Kept(nodes, made) && Kept(made, next)
    ensures Kept(nodes, next)
  {}

  lemma MakeGrown(nodes: Nodes, made: Nodes, p: Path, makes: Makes, id: Id, r: Record)
    requires Grown(nodes, made, Dir(p), makes) && p in makes && id == makes[p].id && id !in made && p != ""
    requires Kept(made, made[id := r]) && (r.parent.Some? ==> r.parent.value in made)
    ensures Grown(nodes, made[id := r], p, makes)
  {
    assert Kept(nodes, made) && Extends(nodes, made) && NewOnWay(nodes, made, Dir(p), makes);
    ExtendsMore(nodes, made, id, r);
    NewOnWayMore(nodes, made, p, makes, id, r);
    KeptTwice(nodes, made, made[id := r]);
    hide Kept, Extends, NewOnWay;
  }

  lemma ExtendsMore(nodes: Nodes, made: Nodes, id: Id, r: Record)
    requires Extends(nodes, made) && id !in made
    ensures Extends(nodes, made[id := r])
  {}

  lemma NewOnWayMore(nodes: Nodes, made: Nodes, p: Path, makes: Makes, id: Id, r: Record)
    requires NewOnWay(nodes, made, Dir(p), makes) && p in makes && id == makes[p].id && p != ""
    requires r.parent.Some? ==> r.parent.value in made
    ensures NewOnWay(nodes, made[id := r], p, makes)
  {
    hide Ancestor, Dir, OnWay;
    var next := made[id := r];
    forall x | x in next && x !in nodes ensures exists a :: OnWay(a, p) && a != "" && a in makes && makes[a].id == x {
      if x == id {
        OwnWay(p);
      } else {
        var a :| OnWay(a, Dir(p)) && a != "" && a in makes && makes[a].id == x;
        WayUp(p);
      }
    }
  }

  lemma OwnWay(p: Path)
    ensures OnWay(p, p)
  {}

  /** The folder above is shown, at its path, exactly if it was there or got its name. */
  lemma FolderShown(nodes: Nodes, made: Nodes, parent: Option<Id>, p: Path, makes: Makes, n: nat)
    requires Asked(nodes, p, makes) && Ready(nodes, made, parent, Dir(p), makes) && Dir(p) != "" && n <= MOST_PARTS
    ensures parent.Some? && parent.value in made
    ensures PathOf(made, parent.value, n) == Some(Dir(p))
      <==> (FolderAt(nodes, Dir(p)) || Places(nodes, Dir(p), makes)) && Parts(Dir(p)) <= n
    ensures FolderAt(nodes, Dir(p)) && PathOf(made, parent.value, n).Some?
      ==> PathOf(made, parent.value, n) == Some(Dir(p))
  {
    hide Ancestor, Dir, PathOf, FolderAt, Places, Parts, Grown, FreshMakes, Covers, IsLive, WellNamed, Quiet;
    if FolderAt(nodes, Dir(p)) {
      PathHasParts(nodes, parent.value, MOST_PARTS, n);
    }
  }

  /** The name is free in the folder above exactly if nobody older is shown there by it; in a new folder it is. */
  lemma NameFree(nodes: Nodes, made: Nodes, parent: Option<Id>, p: Path, makes: Makes)
    requires Asked(nodes, p, makes) && Ready(nodes, made, parent, Dir(p), makes) && Parts(p) <= MOST_PARTS && p in makes
    ensures NoOlderSibling(made, parent, Base(p), makes[p].id, makes[p].at)
      <==> FolderThere(nodes, p) ==> NobodyOlder(nodes, p, makes[p])
  {
    hide Ancestor, Dir, Base, PathOf, FolderAt, Parts, Grown, FreshMakes, Covers, IsLive, WellNamed, NobodyOlder,
      Siblings, Names, NotDeeper, ShownIf, IsFolderAt, Quiet;
    if FolderThere(nodes, p) {
      OlderIsShown(nodes, parent, p, makes[p]);
    } else {
      assert Siblings(made, parent) == {};
    }
  }

  /** A record on its way into the folder above `p`. */
  ghost predicate Making(nodes: Nodes, made: Nodes, parent: Option<Id>, p: Path, makes: Makes, r: Record) {
    && Asked(nodes, p, makes) && Ready(nodes, made, parent, Dir(p), makes)
    && p in makes && CanInsert(made, makes[p].id, r) && r.createdAt == makes[p].at
    && r.name == Trim(Base(p), JsSpace) && r.parent == parent
  }

  lemma MakingIs(nodes: Nodes, made: Nodes, parent: Option<Id>, p: Path, makes: Makes, r: Record)
    requires Making(nodes, made, parent, p, makes, r)
    ensures Asked(nodes, p, makes) && Ready(nodes, made, parent, Dir(p), makes)
    ensures p in makes && CanInsert(made, makes[p].id, r) && r.createdAt == makes[p].at && makes[p].id !in made
    ensures r.name == Trim(Base(p), JsSpace) && r.parent == parent && '/' !in r.name
    ensures WellNamed(nodes) && p != "" && p[0] != '/' && !FolderAt(nodes, p)
    ensures (parent.None? <==> Dir(p) == "") && (parent.Some? ==> parent.value in made)
    ensures FolderThere(nodes, p) ==> made == nodes && Lands(nodes, makes[p].id, r, Dir(p))
    ensures !FolderThere(nodes, p) ==> Siblings(made, r.parent) == {} && NotDeeper(nodes, made, Dir(p)) && Dir(p) != ""
    ensures !FolderThere(nodes, p) ==> Quiet(nodes, made, Dir(p))
    ensures Extends(nodes, made)
  {
    hide IsLive, Siblings, FreshMakes, NotDeeper, ShownIf, Ancestor, Dir, Base, PathOf, Quiet, WellNamed, Kept,
      NewOnWay, IsFolderAt, Extends;
  }

  /** Where the folder is new, everything made and everything there before stays where it is shown. */
  lemma AloneStays(nodes: Nodes, id: Id, r: Record, x: Id, n: nat)
    requires CanInsert(nodes, id, r) && Siblings(nodes, r.parent) == {} && x in nodes
    ensures x in nodes[id := r] && PathOf(nodes[id := r], x, n) == PathOf(nodes, x, n)
  {
    assert Kept(nodes, nodes[id := r]) by { InsertNames(nodes, id, r); }
    hide *;
    AloneKeepsNames(nodes, id, r);
    PathStays(nodes, nodes[id := r], x, n);
  }

  /** The folder is shown where it was, as it gets the new node. */
  lemma ParentStays(nodes: Nodes, made: Nodes, parent: Option<Id>, p: Path, makes: Makes, r: Record, n: nat)
    requires Making(nodes, made, parent, p, makes, r) && parent.Some?
    ensures p in makes && parent.value in made && parent.value in made[makes[p].id := r]
    ensures PathOf(made[makes[p].id := r], parent.value, n) == PathOf(made, parent.value, n)
  {
    hide *;
    MakingIs(nodes, made, parent, p, makes, r);
    if FolderThere(nodes, p) {
      FolderStays(nodes, makes[p].id, r, Dir(p), n);
    } else {
      AloneStays(made, makes[p].id, r, parent.value, n);
    }
  }

  lemma MakePath(nodes: Nodes, made: Nodes, parent: Option<Id>, p: Path, makes: Makes, r: Record, n: nat)
    requires Making(nodes, made, parent, p, makes, r)
    ensures p in makes && makes[p].id !in made && (parent.Some? ==> parent.value in made)
    ensures PathOf(made[makes[p].id := r], makes[p].id, n) ==
      if n == 0 then None
      else if parent.None? then Some(Under("", NewName(made, makes[p].id, r)))
      else if PathOf(made, parent.value, n - 1).None? then None
      else Some(Under(PathOf(made, parent.value, n - 1).value, NewName(made, makes[p].id, r)))
  {
    hide *;
    MakingIs(nodes, made, parent, p, makes, r);
    if n > 0 && parent.Some? { ParentStays(nodes, made, parent, p, makes, r, n - 1); }
    InsertPath(made, makes[p].id, r, n);
  }

  lemma MakeShown(nodes: Nodes, made: Nodes, parent: Option<Id>, p: Path, makes: Makes, r: Record)
    requires Making(nodes, made, parent, p, makes, r)
    ensures p in makes && ShownIf(nodes, made[makes[p].id := r], makes[p].id, p, makes)
  {
    hide PathOf, Places, Parts, Making;
    MakingIs(nodes, made, parent, p, makes, r);
    hide Asked, Ready, CanInsert, WellNamed, Base, Dir, FolderAt, Siblings, Lands, FolderThere, Quiet, NotDeeper,
      Extends;
    var id := makes[p].id;
    var next := made[id := r];
    forall n: nat | n <= MOST_PARTS
      ensures PathOf(next, id, n) == Some(p) <==> Places(nodes, p, makes) && Parts(p) <= n
    {
      MakeShownAt(nodes, made, parent, p, makes, r, n);
    }
  }

  lemma MakeShownAt(nodes: Nodes, made: Nodes, parent: Option<Id>, p: Path, makes: Makes, r: Record, n: nat)
    requires Making(nodes, made, parent, p, makes, r) && n <= MOST_PARTS
    ensures p in makes
    ensures PathOf(made[makes[p].id := r], makes[p].id, n) == Some(p) <==> Places(nodes, p, makes) && Parts(p) <= n
  {
    hide *;
    MakingIs(nodes, made, parent, p, makes, r);
    var id := makes[p].id;
    var name := NewName(made, id, r);
    PlacesIs(nodes, p, makes);
    FolderThereIs(nodes, p);
    WayUp(p);
    PartsUnder(Dir(p), Base(p));
    NewNameHasNoSlash(made, id, r);
    UnderTells(Dir(p), Base(p));
    MakePath(nodes, made, parent, p, makes, r, n);
    NewNameComesOut(made, id, r, Base(p));
    if Parts(p) <= MOST_PARTS { NameFree(nodes, made, parent, p, makes); }
    if Dir(p) == "" {
      UnderTells("", name);
    } else if n > 0 {
      FolderShown(nodes, made, parent, p, makes, n - 1);
      if PathOf(made, parent.value, n - 1).Some? { UnderTells(PathOf(made, parent.value, n - 1).value, name); }
    }
  }

  lemma FolderThereIs(nodes: Nodes, p: Path)
    ensures FolderThere(nodes, p) <==> Dir(p) == "" || FolderAt(nodes, Dir(p))
  {}

  lemma PlacesIs(nodes: Nodes, p: Path, makes: Makes)
    requires p != ""
    ensures Places(nodes, p, makes) <==>
      && p in makes && Trim(Base(p), JsSpace) == Base(p)
      && if FolderThere(nodes, p) then NobodyOlder(nodes, p, makes[p]) else Places(nodes, Dir(p), makes)
  {}

  lemma MakeNotDeeper(nodes: Nodes, made: Nodes, parent: Option<Id>, p: Path, makes: Makes, r: Record)
    requires Making(nodes, made, parent, p, makes, r)
    ensures p in makes && NotDeeper(nodes, made[makes[p].id := r], p)
  {
    hide PathOf, Parts, Making;
    MakingIs(nodes, made, parent, p, makes, r);
    hide Asked, Ready, CanInsert, WellNamed, Base, Dir, FolderAt, Siblings, Lands, FolderThere, Quiet, Extends;
    var id := makes[p].id;
    var next := made[id := r];
    forall x, n: nat | x in next && x !in nodes && PathOf(next, x, n).Some?
      ensures Parts(PathOf(next, x, n).value) <= Parts(p)
    {
      if x == id {
        NewNotDeeper(nodes, made, parent, p, makes, r, n);
      } else {
        OldNotDeeper(nodes, made, parent, p, makes, r, x, n);
      }
    }
  }

  lemma OldNotDeeper(nodes: Nodes, made: Nodes, parent: Option<Id>, p: Path, makes: Makes, r: Record, x: Id, n: nat)
    requires Making(nodes, made, parent, p, makes, r) && p in makes
    requires x in made && x !in nodes && PathOf(made[makes[p].id := r], x, n).Some?
    ensures Parts(PathOf(made[makes[p].id := r], x, n).value) <= Parts(p)
  {
    hide Making, PathOf, Parts;
    MakingIs(nodes, made, parent, p, makes, r);
    hide Asked, Ready, CanInsert, WellNamed, Base, Dir, FolderAt, Siblings, Lands, FolderThere, Quiet, Extends, Under;
    WayUp(p);
    PartsUnder(Dir(p), Base(p));
    AloneStays(made, makes[p].id, r, x, n);
  }

  lemma NewNotDeeper(nodes: Nodes, made: Nodes, parent: Option<Id>, p: Path, makes: Makes, r: Record, n: nat)
    requires Making(nodes, made, parent, p, makes, r) && p in makes
    requires PathOf(made[makes[p].id := r], makes[p].id, n).Some?
    ensures Parts(PathOf(made[makes[p].id := r], makes[p].id, n).value) <= Parts(p)
  {
    hide *;
    MakingIs(nodes, made, parent, p, makes, r);
    var name := NewName(made, makes[p].id, r);
    NewNameHasNoSlash(made, makes[p].id, r);
    MakePath(nodes, made, parent, p, makes, r, n);
    if parent.None? {
      PartsUnder("", name);
    } else {
      var above := PathOf(made, parent.value, n - 1).value;
      FolderNotDeeper(nodes, made, parent, p, makes, n - 1);
      NotDeeperStep(above, name, p);
    }
  }

  /** Nobody that was there comes to be shown where the new node is asked to be. */
  lemma MakeQuiet(nodes: Nodes, made: Nodes, parent: Option<Id>, p: Path, makes: Makes, r: Record)
    requires Making(nodes, made, parent, p, makes, r)
    ensures p in makes && Quiet(nodes, made[makes[p].id := r], p)
  {
    hide PathOf, Making;
    MakingIs(nodes, made, parent, p, makes, r);
    hide Asked, Ready, CanInsert, WellNamed, Base, Dir, FolderAt, Siblings, Lands, FolderThere, OnWay, NotDeeper,
      Extends;
    var id := makes[p].id;
    var next := made[id := r];
    forall x, n: nat | x in nodes && x in next && n <= MOST_PARTS && PathOf(next, x, n).Some?
        && OnWay(p, PathOf(next, x, n).value)
      ensures PathOf(nodes, x, n) == PathOf(next, x, n)
    {
      MakeQuietAt(nodes, made, parent, p, makes, r, x, n);
    }
  }

  lemma MakeQuietAt(nodes: Nodes, made: Nodes, parent: Option<Id>, p: Path, makes: Makes, r: Record, x: Id, n: nat)
    requires Making(nodes, made, parent, p, makes, r) && p in makes && x in nodes && x in made[makes[p].id := r]
    requires n <= MOST_PARTS && PathOf(made[makes[p].id := r], x, n).Some?
    requires OnWay(p, PathOf(made[makes[p].id := r], x, n).value)
    ensures PathOf(nodes, x, n) == PathOf(made[makes[p].id := r], x, n)
  {
    hide *;
    MakingIs(nodes, made, parent, p, makes, r);
    WayUp(p);
    if FolderThere(nodes, p) {
      NobodyMovesIn(nodes, makes[p].id, r, Dir(p), Base(p), x, n);
    } else {
      ExtendsHas(nodes, made, x);
      AloneStays(made, makes[p].id, r, x, n);
      OnWayFromDir(p, PathOf(made, x, n).value);
      QuietIs(nodes, made, Dir(p), x, n);
    }
  }

  lemma ExtendsHas(nodes: Nodes, made: Nodes, x: Id)
    requires Extends(nodes, made) && x in nodes
    ensures x in made
  {}

  lemma QuietIs(nodes: Nodes, made: Nodes, d: Path, x: Id, n: nat)
    requires Quiet(nodes, made, d) && x in nodes && x in made && n <= MOST_PARTS && PathOf(made, x, n).Some?
    requires OnWay(d, PathOf(made, x, n).value)
    ensures PathOf(nodes, x, n) == PathOf(made, x, n)
  {
    hide PathOf, OnWay;
  }

  lemma OnWayFromDir(p: Path, q: Path)
    requires OnWay(p, q) && p != "" && p[0] != '/' && Dir(p) != ""
    ensures OnWay(Dir(p), q)
  {
    WayUp(p);
    AncestorOfUnder(Dir(p), Dir(p), Base(p));
    hide Ancestor, Dir, Base, Under;
    if p != q { AncestorsChain(Dir(p), p, q); }
  }

  lemma NotDeeperStep(above: Path, name: string, p: Path)
    requires '/' !in name && p != "" && p[0] != '/' && Dir(p) != "" && Parts(above) <= Parts(Dir(p))
    ensures Parts(Under(above, name)) <= Parts(p)
  {
    WayUp(p);
    hide *;
    PartsUnder(above, name);
    PartsUnder(Dir(p), Base(p));
  }

  lemma FolderNotDeeper(nodes: Nodes, made: Nodes, parent: Option<Id>, p: Path, makes: Makes, n: nat)
    requires Asked(nodes, p, makes) && Ready(nodes, made, parent, Dir(p), makes) && parent.Some?
    requires parent.value in made && PathOf(made, parent.value, n).Some?
    ensures Parts(PathOf(made, parent.value, n).value) <= Parts(Dir(p))
  {
    hide Ancestor, Dir, PathOf, FolderAt, Places, Parts, Grown, FreshMakes, Covers, IsLive, WellNamed, Quiet;
    if FolderAt(nodes, Dir(p)) { PathHasParts(nodes, parent.value, MOST_PARTS, n); }
  }

  /** What making one more node at `p` adds. */
  lemma MakeOne(nodes: Nodes, made: Nodes, parent: Option<Id>, p: Path, makes: Makes, r: Record)
    requires Asked(nodes, p, makes) && Ready(nodes, made, parent, Dir(p), makes)
    requires p in makes && r.createdAt == makes[p].at
    requires r.name == Trim(Base(p), JsSpace) && r.parent == parent && !r.trashed
    ensures var id := makes[p].id; var next := made[id := r];
      && Grown(nodes, next, p, makes) && NotDeeper(nodes, next, p) && Quiet(nodes, next, p)
      && ShownIf(nodes, next, id, p, makes)
      && Siblings(next, Some(id)) == {} && id !in nodes && IsLive(next, id, {})
      && Making(nodes, made, parent, p, makes, r)
  {
    var id := makes[p].id;
    MakeFresh(nodes, made, parent, p, makes);
    assert CanInsert(made, id, r);
    assert Grown(nodes, made, Dir(p), makes) && nodes.Keys <= made.Keys;
    NoChildren(made, id);
    assert WellNamed(nodes) && p != "" && p[0] != '/';
    assert id !in made && (parent.Some? ==> parent.value in made);
    assert Making(nodes, made, parent, p, makes, r);
    hide *;
    InsertNames(made, id, r);
    InsertSiblings(made, id, r);
    MakeGrown(nodes, made, p, makes, id, r);
    MakeShown(nodes, made, parent, p, makes, r);
    MakeNotDeeper(nodes, made, parent, p, makes, r);
    MakeQuiet(nodes, made, parent, p, makes, r);
  }

  lemma NoChildren(nodes: Nodes, id: Id)
    requires id !in nodes
    ensures Siblings(nodes, Some(id)) == {}
  {}

  lemma AbleAbove(nodes: Nodes, p: Path, makes: Makes)
    requires Able(nodes, p, makes) && Dir(p) != ""
    ensures Able(nodes, Dir(p), makes)
  {
    WayUp(p);
    CoversAbove(makes, p);
    hide Ancestor, Dir, WellNamed, Fresh;
    assert forall a :: OnWay(a, Dir(p)) && a != "" ==> OnWay(a, p);
    assert !OnWay("", Dir(p)) by { NoneAbove(Dir(p)); }
  }

  lemma FolderAbove(nodes: Nodes, d: Path)
    requires WellNamed(nodes) && d != "" && d[0] != '/' && FolderAt(nodes, d) && Dir(d) != ""
    ensures FolderAt(nodes, Dir(d))
  {
    WayUp(d);
    AncestorOfUnder(Dir(d), Dir(d), Base(d));
    hide PathOf, Dir, Base, Ancestor, WellNamed, Under;
    var id :| ShownAt(nodes, id, d) && nodes[id].folder;
    AboveIsShown(nodes, id, MOST_PARTS, Dir(d));
  }

  lemma FoundFolder(nodes: Nodes, d: Path)
    requires WellNamed(nodes) && FolderAt(nodes, d) && d != ""
    ensures var found := FindByPath(nodes, d);
      found.Some? && nodes[found.value].folder && IsLive(nodes, found.value, {}) && IsFolderAt(nodes, found, d)
  {
    hide PathOf, WellNamed, IsLive;
    var id :| ShownAt(nodes, id, d) && nodes[id].folder;
    var found := FindByPath(nodes, d);
    PathsApart(nodes, id, found.value, MOST_PARTS);
    PathIs(nodes, id, MOST_PARTS);
  }

  lemma GrownNone(nodes: Nodes, d: Path, makes: Makes)
    ensures Grown(nodes, nodes, d, makes)
  {}

  /** No folder is found where there was none: what was made so far is not as deep, and nobody moved there. */
  lemma NoneFound(nodes: Nodes, made: Nodes, parent: Option<Id>, d: Path, makes: Makes)
    requires Asked(nodes, d, makes) && Ready(nodes, made, parent, Dir(d), makes)
    ensures forall id :: ShownAt(made, id, d) ==> !made[id].folder
  {
    WayUp(d);
    PartsUnder(Dir(d), Base(d));
    hide PathOf, Dir, Base, Ancestor, WellNamed, Under, Parts, FreshMakes, Covers, IsLive, ShownIf, IsFolderAt, OnWay,
      Quiet;
    forall id | ShownAt(made, id, d) ensures !made[id].folder {
      if id in nodes && made != nodes {
        OwnWay(d);
        OnWayFromDir(d, d);
        QuietIs(nodes, made, Dir(d), id, MOST_PARTS);
      }
    }
  }

  lemma FoldersIs(nodes: Nodes, d: Path, made: Nodes, parent: Option<Id>, makes: Makes)
    requires d != "" && Covers(makes, d) && Covers(makes, Dir(d)) && (made, parent) == Folders(nodes, Dir(d), makes)
    ensures d in makes
    ensures var found := FindByPath(made, d);
      Folders(nodes, d, makes) ==
        if found.Some? && made[found.value].folder then (made, found)
        else (made[makes[d].id := NewRecord(makes[d], true, Base(d), parent, None)], Some(makes[d].id))
  {
    CoversAbove(makes, d);
    hide Ancestor, Dir, Base, NewRecord;
  }

  lemma ReadyThere(nodes: Nodes, d: Path, makes: Makes)
    requires WellNamed(nodes) && FolderAt(nodes, d) && d != ""
    ensures Ready(nodes, nodes, FindByPath(nodes, d), d, makes)
  {
    FoundFolder(nodes, d);
    GrownNone(nodes, d, makes);
    hide WellNamed, FolderAt, Grown, IsFolderAt, IsLive;
  }

  lemma SameSoFar(nodes: Nodes, made: Nodes, parent: Option<Id>, d: Path, makes: Makes)
    requires Ready(nodes, made, parent, d, makes) && (d == "" || FolderAt(nodes, d))
    ensures made == nodes
  {}

  lemma ReadyMade(nodes: Nodes, made: Nodes, parent: Option<Id>, d: Path, makes: Makes)
    requires Asked(nodes, d, makes) && Ready(nodes, made, parent, Dir(d), makes) && d in makes
    ensures var id, r := makes[d].id, NewRecord(makes[d], true, Base(d), parent, None);
      Ready(nodes, made[id := r], Some(id), d, makes)
  {
    var id, r := makes[d].id, NewRecord(makes[d], true, Base(d), parent, None);
    RecordIs(makes[d], true, Base(d), parent, None);
    MakeOne(nodes, made, parent, d, makes, r);
    assert made[id := r][id].folder;
    hide Grown, NotDeeper, Quiet, ShownIf, Siblings, IsLive, Dir, Base, Making, Covers, FreshMakes, WellNamed,
      NewRecord;
  }

  /** `Folders` has the folder there already, or makes it. */
  lemma FoldersStep(nodes: Nodes, d: Path, makes: Makes)
    requires Able(nodes, d, makes) && Covers(makes, Dir(d))
    requires var (made, parent) := Folders(nodes, Dir(d), makes); Ready(nodes, made, parent, Dir(d), makes)
    ensures var (made, parent) := Folders(nodes, d, makes); Ready(nodes, made, parent, d, makes)
  {
    hide *;
    AbleIs(nodes, d, makes);
    var (made, parent) := Folders(nodes, Dir(d), makes);
    FoldersIs(nodes, d, made, parent, makes);
    if FolderAt(nodes, d) {
      if Dir(d) != "" { FolderAbove(nodes, d); }
      SameSoFar(nodes, made, parent, Dir(d), makes);
      FoundFolder(nodes, d);
      ReadyThere(nodes, d, makes);
    } else {
      NoneFound(nodes, made, parent, d, makes);
      ReadyMade(nodes, made, parent, d, makes);
    }
  }

  lemma {:induction false} FoldersReady(nodes: Nodes, d: Path, makes: Makes)
    requires if d == "" then Covers(makes, d) else Able(nodes, d, makes)
    ensures var (made, parent) := Folders(nodes, d, makes); Ready(nodes, made, parent, d, makes)
    decreases |d|
  {
    if d == "" {
      GrownNone(nodes, d, makes);
    } else {
      CoversAbove(makes, d);
      if Dir(d) != "" { AbleAbove(nodes, d, makes); }
      hide *;
      FoldersReady(nodes, Dir(d), makes);
      FoldersStep(nodes, d, makes);
    }
  }

  // ----- where a new file is shown

  /**
   * One name of the way is there already, or can be had: trimming leaves it, and where its folder is
   * there, nobody older is shown by it. In a folder that is made with it, nobody is.
   */
  ghost predicate Passes(nodes: Nodes, a: Path, makes: Makes) {
    FolderAt(nodes, a) || (
      && a in makes && Trim(Base(a), JsSpace) == Base(a)
      && (FolderThere(nodes, a) ==> NobodyOlder(nodes, a, makes[a])))
  }

  /** A new file asked for at `p` can be shown there. */
  ghost predicate Fits(nodes: Nodes, p: Path, makes: Makes) {
    Parts(p) <= MOST_PARTS && forall a :: OnWay(a, p) ==> Passes(nodes, a, makes)
  }

  lemma {:induction false} PlacesPasses(nodes: Nodes, p: Path, makes: Makes)
    requires WellNamed(nodes) && p != "" && p[0] != '/' && !FolderAt(nodes, p)
    ensures Places(nodes, p, makes) <==> forall a :: OnWay(a, p) ==> Passes(nodes, a, makes)
    decreases |p|
  {
    PlacesIs(nodes, p, makes);
    FolderThereIs(nodes, p);
    OnWayUp(p);
    hide *;
    PassesIs(nodes, p, makes);
    if Dir(p) != "" {
      WayUp(p);
      if FolderAt(nodes, Dir(p)) {
        FoldersPass(nodes, Dir(p), makes);
      } else {
        PlacesPasses(nodes, Dir(p), makes);
      }
    }
  }

  lemma PassesIs(nodes: Nodes, a: Path, makes: Makes)
    ensures Passes(nodes, a, makes) <==>
      || FolderAt(nodes, a)
      || (a in makes && Trim(Base(a), JsSpace) == Base(a)
          && (FolderThere(nodes, a) ==> NobodyOlder(nodes, a, makes[a])))
  {}

  lemma FoldersPass(nodes: Nodes, d: Path, makes: Makes)
    requires WellNamed(nodes) && FolderAt(nodes, d)
    ensures forall a :: OnWay(a, d) ==> FolderAt(nodes, a) && Passes(nodes, a, makes)
  {
    hide PathOf, WellNamed, Ancestor, NobodyOlder, FolderThere, Trim, Base;
    var id :| ShownAt(nodes, id, d) && nodes[id].folder;
    forall a | OnWay(a, d) ensures FolderAt(nodes, a) {
      if a != d { AboveIsShown(nodes, id, MOST_PARTS, a); }
    }
  }

  lemma AbleIs(nodes: Nodes, p: Path, makes: Makes)
    requires Able(nodes, p, makes)
    ensures WellNamed(nodes) && p != "" && p[0] != '/' && Covers(makes, p)
    ensures !FolderAt(nodes, p) ==> Asked(nodes, p, makes)
  {}

  lemma RecordIs(m: Made, folder: bool, name: string, parent: Option<Id>, blob: Option<string>)
    ensures var r := NewRecord(m, folder, name, parent, blob);
      r.createdAt == m.at && r.name == Trim(name, JsSpace) && r.parent == parent && !r.trashed
  {}

  lemma FolderInTree(nodes: Nodes, a: Path)
    requires WellNamed(nodes)
    ensures FolderAt(nodes, a) <==> a in TreeOf(nodes) && TreeOf(nodes)[a].FolderNode?
  {
    hide PathOf, WellNamed, Lower;
    var tree := TreeOf(nodes);
    if FolderAt(nodes, a) {
      var id :| ShownAt(nodes, id, a) && nodes[id].folder;
      ShownIsInTree(nodes, id, a);
    }
    if a in tree && tree[a].FolderNode? { assert ShownAt(nodes, tree[a].id, a); }
  }

  lemma CreateIs(nodes: Nodes, p: Path, made: Nodes, parent: Option<Id>, blob: Option<string>, makes: Makes)
    requires p != "" && Covers(makes, p) && Covers(makes, Dir(p))
    requires (made, parent) == Folders(nodes, Dir(p), makes)
    ensures p in makes
    ensures CreateAtPath(nodes, p, blob, makes)
      == made[makes[p].id := NewRecord(makes[p], false, Base(p), parent, blob)]
  {
    CoversAbove(makes, p);
  }

  /** Of what is there once `p` is made, only its own node can be shown there. */
  lemma OnlyNew(nodes: Nodes, made: Nodes, parent: Option<Id>, p: Path, makes: Makes, r: Record, id: Id)
    requires Making(nodes, made, parent, p, makes, r) && p !in TreeOf(nodes) && p in makes
    requires Quiet(nodes, made[makes[p].id := r], p) && ShownAt(made[makes[p].id := r], id, p)
    ensures id == makes[p].id
  {
    var next := made[makes[p].id := r];
    assert id in next && PathOf(next, id, MOST_PARTS) == Some(p);
    hide *;
    MakingIs(nodes, made, parent, p, makes, r);
    if id != makes[p].id {
      if id in nodes {
        OwnWay(p);
        QuietIs(nodes, next, p, id, MOST_PARTS);
        ShownNow(nodes, id, p);
        ShownIsInTree(nodes, id, p);
      } else {
        AloneStays(made, makes[p].id, r, id, MOST_PARTS);
        NotDeeperIs(nodes, made, Dir(p), id, MOST_PARTS);
        WayUp(p);
        PartsUnder(Dir(p), Base(p));
      }
    }
  }

  lemma NotDeeperIs(nodes: Nodes, made: Nodes, d: Path, x: Id, n: nat)
    requires NotDeeper(nodes, made, d) && x in made && x !in nodes && PathOf(made, x, n).Some?
    ensures Parts(PathOf(made, x, n).value) <= Parts(d)
  {
    hide PathOf, Parts;
  }

  lemma ShownIfNow(nodes: Nodes, made: Nodes, id: Id, p: Path, makes: Makes)
    requires ShownIf(nodes, made, id, p, makes)
    ensures ShownAt(made, id, p) <==> Places(nodes, p, makes) && Parts(p) <= MOST_PARTS
  {
    hide PathOf, Places, Parts;
  }

  /** What `createAtPath` leaves, on the way to its file. */
  lemma MadeSo(nodes: Nodes, p: Path, blob: Option<string>, makes: Makes)
    returns (made: Nodes, parent: Option<Id>, r: Record)
    requires Able(nodes, p, makes) && !FolderAt(nodes, p)
    ensures p in makes && p != "" && Covers(makes, p) && Covers(makes, Dir(p))
    ensures (made, parent) == Folders(nodes, Dir(p), makes) && Ready(nodes, made, parent, Dir(p), makes)
    ensures r == NewRecord(makes[p], false, Base(p), parent, blob)
    ensures CreateAtPath(nodes, p, blob, makes) == made[makes[p].id := r] && Making(nodes, made, parent, p, makes, r)
    ensures var next := made[makes[p].id := r];
      && Grown(nodes, next, p, makes) && Quiet(nodes, next, p) && makes[p].id !in nodes
      && ShownIf(nodes, next, makes[p].id, p, makes)
  {
    hide *;
    AbleIs(nodes, p, makes);
    CoversAbove(makes, p);
    if Dir(p) != "" { AbleAbove(nodes, p, makes); }
    FoldersReady(nodes, Dir(p), makes);
    var (m, up) := Folders(nodes, Dir(p), makes);
    made, parent := m, up;
    r := NewRecord(makes[p], false, Base(p), parent, blob);
    RecordIs(makes[p], false, Base(p), parent, blob);
    CreateIs(nodes, p, made, parent, blob, makes);
    MakeOne(nodes, made, parent, p, makes, r);
  }

  /**
   * A new file asked for where nothing is shown is shown there if and only if each name on its way is a
   * folder that is there, or one that trimming leaves and that, where its folder is there, nobody older has
   * in any case; and there are at most 65 names. That is so whatever the clocks say. Nobody else is shown there.
   */
  lemma MadeIsShown(nodes: Nodes, p: Path, blob: Option<string>, makes: Makes)
    requires Able(nodes, p, makes) && p !in TreeOf(nodes)
    ensures p in makes && p != "" && Covers(makes, p)
    ensures var next := CreateAtPath(nodes, p, blob, makes);
      && Grown(nodes, next, p, makes) && makes[p].id !in nodes
      && (forall id :: ShownAt(next, id, p) <==> id == makes[p].id && Fits(nodes, p, makes))
  {
    assert Fits(nodes, p, makes) <==>
      Parts(p) <= MOST_PARTS && forall a :: OnWay(a, p) ==> Passes(nodes, a, makes);
    hide *;
    AbleIs(nodes, p, makes);
    FolderInTree(nodes, p);
    var made, parent, r := MadeSo(nodes, p, blob, makes);
    var next := CreateAtPath(nodes, p, blob, makes);
    PlacesPasses(nodes, p, makes);
    ShownIfNow(nodes, next, makes[p].id, p, makes);
    forall id | ShownAt(next, id, p) ensures id == makes[p].id { OnlyNew(nodes, made, parent, p, makes, r, id); }
  }
}
