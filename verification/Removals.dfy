/** One file of the room's document in the trash: who is shown where then. */
module Removals {
  import opened Strings
  import opened Paths
  import opened PathNames
  import opened SiblingNames
  import opened Newcomers
  import opened RoomNodes
  import opened InsertPaths

  // ----- who takes another name once a sibling is gone

  /** Among these siblings `x` has passed over this name, in some case of letters, before it came to its own. */
  ghost predicate GaveWay(nodes: Nodes, s: set<Id>, x: Id, name: string)
    requires s <= nodes.Keys && x in s
  {
    exists k, j :: 1 <= j < k && Names(nodes, s)[x] == Candidate(nodes[x].name, nodes[x].folder, k)
      && Lower(Candidate(nodes[x].name, nodes[x].folder, j)) == Lower(name)
  }

  ghost predicate NoneGaveWay(nodes: Nodes, s: set<Id>, y: Id)
    requires s <= nodes.Keys && y in nodes
  {
    forall x :: x in s ==> !GaveWay(nodes, s + {y}, x, Names(nodes, s + {y})[y])
  }

  /** A name is the same without what the node has not passed over. */
  lemma OneLessTaken(r: Record, taken: set<string>, t: string)
    requires forall k, j :: 1 <= j < k && FreeName(r, taken + {t}) == Candidate(r.name, r.folder, k) ==>
      Lower(Candidate(r.name, r.folder, j)) != t
    ensures FreeName(r, taken) == FreeName(r, taken + {t})
  {
    var k := FreeNameFirst(r, taken + {t});
    hide Lower, Candidate, FreeName;
    FirstFreeIs(r, taken, k);
  }

  lemma GaveWayIs(nodes: Nodes, s: set<Id>, x: Id, name: string, j: nat, k: nat)
    requires s <= nodes.Keys && x in s && 1 <= j < k
    requires Names(nodes, s)[x] == Candidate(nodes[x].name, nodes[x].folder, k)
    requires Lower(Candidate(nodes[x].name, nodes[x].folder, j)) == Lower(name)
    ensures GaveWay(nodes, s, x, name)
  {
    hide Names, Candidate, Lower;
  }

  /** With one sibling gone all others keep their names exactly if none of them had passed over its name. */
  lemma WhenNoneMoves(nodes: Nodes, s: set<Id>, y: Id)
    requires s <= nodes.Keys && y in nodes && y !in s
    ensures Unmoved(nodes, s, y) <==> NoneGaveWay(nodes, s, y)
  {
    if Unmoved(nodes, s, y) {
      forall x | x in s ensures !GaveWay(nodes, s + {y}, x, Names(nodes, s + {y})[y]) {
        UnmovedGaveNoWay(nodes, s, y, x);
      }
    }
    if NoneGaveWay(nodes, s, y) { NoneMoves(nodes, s, y); }
  }

  lemma UnmovedGaveNoWay(nodes: Nodes, s: set<Id>, y: Id, x: Id)
    requires s <= nodes.Keys && y in nodes && y !in s && x in s && Unmoved(nodes, s, y)
    ensures !GaveWay(nodes, s + {y}, x, Names(nodes, s + {y})[y])
  {
    var r, t := nodes[x], Lower(Names(nodes, s + {y})[y]);
    NamesByAge(nodes, s, x);
    var older := Names(nodes, OlderOf(nodes, s, x));
    var n := FreeNameFirst(r, Taken(older));
    hide Names, Candidate, Lower, FreeName, OlderOf;
    forall k, j | 1 <= j < k && Names(nodes, s + {y})[x] == Candidate(r.name, r.folder, k)
      ensures Lower(Candidate(r.name, r.folder, j)) != t
    {
      if n < k { CandidatesDiffer(r.name, r.folder, n, k); }
      if k < n { CandidatesDiffer(r.name, r.folder, k, n); }
      var z :| z in older && Lower(older[z]) == Lower(Candidate(r.name, r.folder, j));
      SiblingsApart(nodes, s + {y}, z, y);
    }
  }

  lemma {:induction false} NoneMoves(nodes: Nodes, s: set<Id>, y: Id)
    requires s <= nodes.Keys && y in nodes && y !in s && NoneGaveWay(nodes, s, y)
    ensures Unmoved(nodes, s, y)
    decreases s
  {
    var z := Youngest(nodes, s + {y});
    if z == y {
      assert s + {y} - {y} == s;
      hide FreeName, Taken, Lower;
    } else {
      var less := s - {z};
      assert s + {y} - {z} == less + {y};
      assert IsYoungest(nodes, s, z);
      NewcomerGivesWay(nodes, s, z);
      NewcomerGivesWay(nodes, s + {y}, z);
      hide FreeName, Taken, Lower, Names, Candidate;
      var t := Lower(Names(nodes, less + {y})[y]);
      assert NoneGaveWay(nodes, less, y);
      NoneMoves(nodes, less, y);
      TakenWithout(nodes, less, y);
      assert !GaveWay(nodes, s + {y}, z, Names(nodes, s + {y})[y]);
      OneLessTaken(nodes[z], Taken(Names(nodes, less)), t);
    }
  }

  // ----- who is shown

  /** A file that is shown, before and after it is put into the trash, and nothing else changed. */
  ghost predicate Trashing(nodes: Nodes, next: Nodes, id: Id, p: Path) {
    && WellNamed(nodes) && ShownAt(nodes, id, p) && !nodes[id].folder
    && next.Keys == nodes.Keys && (forall x :: x in nodes && x != id ==> next[x] == nodes[x])
    && next[id] == nodes[id].(trashed := true)
  }

  lemma TrashingIs(nodes: Nodes, next: Nodes, id: Id, p: Path)
    requires Trashing(nodes, next, id, p)
    ensures WellNamed(nodes) && WellNamed(next) && id in nodes && ShownAt(nodes, id, p) && !nodes[id].folder
    ensures next.Keys == nodes.Keys
    ensures forall x :: x in nodes ==> Above(next, x) == Above(nodes, x) && next[x].folder == nodes[x].folder
    ensures forall s :: s <= nodes.Keys ==> SameNames(nodes, next, s)
  {
    hide PathOf;
  }

  lemma {:induction false} LiveWas(nodes: Nodes, next: Nodes, id: Id, p: Path, x: Id, seen: set<Id>)
    requires Trashing(nodes, next, id, p) && x in nodes && IsLive(next, x, seen)
    ensures IsLive(nodes, x, seen) && x != id
    decreases nodes.Keys - seen
  {
    hide PathOf, WellNamed;
    if Above(nodes, x).Some? {
      assert nodes.Keys - (seen + {x}) == nodes.Keys - seen - {x} && x in nodes.Keys - seen;
      LiveWas(nodes, next, id, p, Above(nodes, x).value, seen + {x});
    }
  }

  /** In the root, or in a folder that is shown. */
  ghost predicate InShown(nodes: Nodes, up: Option<Id>, n: nat) {
    up.None? || (up.value in nodes && nodes[up.value].folder && PathOf(nodes, up.value, n).Some?)
  }

  lemma {:induction false} LiveStill(nodes: Nodes, next: Nodes, id: Id, p: Path, x: Id, seen: set<Id>, n: nat)
    requires Trashing(nodes, next, id, p) && x in nodes && x != id && IsLive(nodes, x, seen)
    requires InShown(nodes, Above(nodes, x), n)
    ensures x in next && IsLive(next, x, seen)
    decreases n
  {
    TrashingIs(nodes, next, id, p);
    LiveIs(nodes, x, seen);
    LiveIs(next, x, seen);
    hide *;
    assert next[x] == nodes[x] by { OthersSame(nodes, next, id, p, x); }
    if Above(nodes, x).Some? {
      var up := Above(nodes, x).value;
      FolderAbove(nodes, up, n);
      FolderIsNot(nodes, id, Some(up), n);
      LiveStill(nodes, next, id, p, up, seen + {x}, n - 1);
    }
  }

  lemma OthersSame(nodes: Nodes, next: Nodes, id: Id, p: Path, x: Id)
    requires Trashing(nodes, next, id, p) && x in nodes && x != id
    ensures x in next && next[x] == nodes[x]
  {}

  lemma LiveIs(nodes: Nodes, x: Id, seen: set<Id>)
    requires x in nodes
    ensures IsLive(nodes, x, seen) <==>
      !nodes[x].trashed && x !in seen && (Above(nodes, x).Some? ==> IsLive(nodes, Above(nodes, x).value, seen + {x}))
  {}

  lemma FolderAbove(nodes: Nodes, x: Id, n: nat)
    requires x in nodes && PathOf(nodes, x, n).Some?
    ensures n > 0 && InShown(nodes, Above(nodes, x), n - 1) && IsLive(nodes, x, {})
  {
    hide IsLive;
  }

  /** Of any place that is shown, the siblings are as before but for the file. */
  lemma SiblingsLess(nodes: Nodes, next: Nodes, id: Id, p: Path, up: Option<Id>, n: nat)
    requires Trashing(nodes, next, id, p) && InShown(nodes, up, n)
    ensures Siblings(next, up) == Siblings(nodes, up) - {id}
  {
    TrashingIs(nodes, next, id, p);
    hide Trashing, PathOf, IsLive, Above, WellNamed;
    forall x | x in Siblings(next, up) ensures x in Siblings(nodes, up) - {id} { LiveWas(nodes, next, id, p, x, {}); }
    forall x | x in Siblings(nodes, up) - {id} ensures x in Siblings(next, up) {
      LiveStill(nodes, next, id, p, x, {}, n);
    }
  }

  /** The file is shown nowhere; everyone else is shown if and only if shown before. */
  lemma {:induction false} StillShown(nodes: Nodes, next: Nodes, id: Id, p: Path, x: Id, n: nat)
    requires Trashing(nodes, next, id, p) && x in nodes
    ensures x in next && (PathOf(next, x, n).Some? <==> x != id && PathOf(nodes, x, n).Some?)
    decreases n
  {
    hide *;
    TrashingIs(nodes, next, id, p);
    var up := Above(nodes, x);
    if n > 0 && up.Some? { StillShown(nodes, next, id, p, up.value, n - 1); }
    if PathOf(nodes, x, n).Some? && x != id {
      FolderAbove(nodes, x, n);
      LiveStill(nodes, next, id, p, x, {}, n - 1);
      PathFrom(nodes, x, n);
      PathFrom(next, x, n);
      if up.Some? { FolderIsNot(nodes, id, up, n - 1); }
    }
    if PathOf(next, x, n).Some? {
      FolderAbove(next, x, n);
      LiveWas(nodes, next, id, p, x, {});
      PathFrom(nodes, x, n);
      PathFrom(next, x, n);
    }
  }

  lemma FolderIsNot(nodes: Nodes, id: Id, up: Option<Id>, n: nat)
    requires id in nodes && !nodes[id].folder && InShown(nodes, up, n)
    ensures up != Some(id)
  {
    hide PathOf;
  }

  // ----- and where

  /** Those beside it. */
  ghost function Beside(nodes: Nodes, id: Id): (s: set<Id>)
    requires id in nodes
    ensures s <= nodes.Keys && id !in s
  {
    Siblings(nodes, Above(nodes, id)) - {id}
  }

  /** Nobody beside it has passed over its name. */
  ghost predicate GivesNothingBack(nodes: Nodes, id: Id)
    requires id in nodes
  {
    NoneGaveWay(nodes, Beside(nodes, id), id)
  }

  lemma BesideIs(nodes: Nodes, id: Id)
    requires id in nodes && IsLive(nodes, id, {})
    ensures Siblings(nodes, Above(nodes, id)) == Beside(nodes, id) + {id}
  {
    AmongSiblings(nodes, id);
    hide IsLive;
  }

  /** Elsewhere names stay; beside the file they are those the others have among themselves. */
  lemma NamesLess(nodes: Nodes, next: Nodes, id: Id, p: Path, x: Id, n: nat)
    requires Trashing(nodes, next, id, p) && x in nodes && x != id && PathOf(nodes, x, n).Some?
    ensures id in nodes && x in next && IsLive(nodes, x, {}) && IsLive(next, x, {})
    ensures Above(nodes, x) != Above(nodes, id) ==> NameOf(next, x) == NameOf(nodes, x)
    ensures Above(nodes, x) == Above(nodes, id) ==>
      && x in Beside(nodes, id) && NameOf(next, x) == Names(nodes, Beside(nodes, id))[x]
      && NameOf(nodes, x) == Names(nodes, Beside(nodes, id) + {id})[x]
  {
    hide *;
    TrashingIs(nodes, next, id, p);
    FolderAbove(nodes, x, n);
    LiveStill(nodes, next, id, p, x, {}, n - 1);
    var up := Above(nodes, x);
    SiblingsLess(nodes, next, id, p, up, n - 1);
    AmongSiblings(nodes, x);
    AmongSiblings(next, x);
    NamesStay(nodes, next, Siblings(next, up));
    TrashedIsLive(nodes, next, id, p);
    if up == Above(nodes, id) {
      BesideIs(nodes, id);
    } else {
      NotAmong(nodes, id, up);
      assert Siblings(nodes, up) - {id} == Siblings(nodes, up);
    }
  }

  lemma NotAmong(nodes: Nodes, id: Id, up: Option<Id>)
    requires id in nodes && Above(nodes, id) != up
    ensures id !in Siblings(nodes, up)
  {
    hide IsLive;
  }

  lemma TrashedIsLive(nodes: Nodes, next: Nodes, id: Id, p: Path)
    requires Trashing(nodes, next, id, p)
    ensures IsLive(nodes, id, {}) && PathOf(nodes, id, MOST_PARTS) == Some(p)
    ensures InShown(nodes, Above(nodes, id), MOST_PARTS - 1)
  {
    hide IsLive, WellNamed;
    FolderAbove(nodes, id, MOST_PARTS);
  }

  /** Its folder is the one its path tells. */
  lemma FolderOfTrashed(nodes: Nodes, next: Nodes, id: Id, p: Path)
    requires Trashing(nodes, next, id, p)
    ensures id in nodes && IsFolderAt(nodes, Above(nodes, id), Dir(p)) && (Above(nodes, id).Some? <==> Dir(p) != "")
    ensures Above(nodes, id).Some? ==> Parts(Dir(p)) < MOST_PARTS
  {
    hide *;
    TrashingIs(nodes, next, id, p);
    TrashedIsLive(nodes, next, id, p);
    PathIs(nodes, id, MOST_PARTS);
    var d := FolderPath(nodes, id, MOST_PARTS);
    UnderTells(d, NameOf(nodes, id));
    if Above(nodes, id).Some? {
      var up := Above(nodes, id).value;
      PathHasParts(nodes, up, MOST_PARTS - 1, MOST_PARTS);
      ShownNow(nodes, up, d);
      FolderNow(nodes, up, d);
    } else {
      assert IsFolderAt(nodes, None, "") by { RootIs(nodes); }
    }
  }

  lemma RootIs(nodes: Nodes)
    ensures IsFolderAt(nodes, None, "")
  {}

  /** Whoever is shown outside the file's folder stays where it is. */
  lemma {:induction false} OutsideKept(nodes: Nodes, next: Nodes, id: Id, p: Path, x: Id, n: nat)
    requires Trashing(nodes, next, id, p) && Dir(p) != "" && x in nodes
    requires PathOf(nodes, x, n).Some? && !Ancestor(Dir(p), PathOf(nodes, x, n).value)
    ensures x in next && PathOf(next, x, n) == PathOf(nodes, x, n)
    decreases n
  {
    hide *;
    TrashingIs(nodes, next, id, p);
    FolderOfTrashed(nodes, next, id, p);
    FolderIs(nodes, Above(nodes, id), Dir(p));
    PathIs(nodes, x, n);
    var folder, name := FolderPath(nodes, x, n), NameOf(nodes, x);
    AncestorOfUnder(Dir(p), folder, name);
    if Above(nodes, x) == Above(nodes, id) { PathSame(nodes, Above(nodes, x).value, n - 1, MOST_PARTS); }
    NamesLess(nodes, next, id, p, x, n);
    PathFrom(nodes, x, n);
    PathFrom(next, x, n);
    if Above(nodes, x).Some? { OutsideKept(nodes, next, id, p, Above(nodes, x).value, n - 1); }
  }

  /** So does everyone else, if nobody beside the file has passed over its name. */
  lemma {:induction false} AllKept(nodes: Nodes, next: Nodes, id: Id, p: Path, x: Id, n: nat)
    requires Trashing(nodes, next, id, p) && id in nodes && GivesNothingBack(nodes, id)
    requires x in nodes && x != id && PathOf(nodes, x, n).Some?
    ensures x in next && PathOf(next, x, n) == PathOf(nodes, x, n)
    decreases n
  {
    hide *;
    TrashingIs(nodes, next, id, p);
    NamesLess(nodes, next, id, p, x, n);
    assert NameOf(next, x) == NameOf(nodes, x) by { KeepsName(nodes, id, x); }
    PathFrom(nodes, x, n);
    PathFrom(next, x, n);
    if Above(nodes, x).Some? {
      FolderAbove(nodes, x, n);
      FolderIsNot(nodes, id, Above(nodes, x), n - 1);
      AllKept(nodes, next, id, p, Above(nodes, x).value, n - 1);
    }
  }

  lemma KeepsName(nodes: Nodes, id: Id, x: Id)
    requires id in nodes && GivesNothingBack(nodes, id)
    ensures x in Beside(nodes, id) ==>
      Names(nodes, Beside(nodes, id) + {id})[x] == Names(nodes, Beside(nodes, id))[x]
  {
    WhenNoneMoves(nodes, Beside(nodes, id), id);
    hide Names, Beside, NoneGaveWay;
  }

  /** Everyone but the file is shown where it was. */
  ghost predicate OthersShown(nodes: Nodes, next: Nodes, id: Id) {
    forall x, q :: x != id && ShownAt(nodes, x, q) ==> ShownAt(next, x, q)
  }

  /** Whoever is beside the file is shown in its folder. */
  lemma BesideShown(nodes: Nodes, next: Nodes, id: Id, p: Path, x: Id) returns (q: Path)
    requires Trashing(nodes, next, id, p) && id in nodes && x in Beside(nodes, id)
    ensures x != id && x in nodes && ShownAt(nodes, x, q) && PathOf(nodes, x, MOST_PARTS) == Some(q)
    ensures Above(nodes, x) == Above(nodes, id)
  {
    TrashedIsLive(nodes, next, id, p);
    BesideIs(nodes, id);
    TrashingIs(nodes, next, id, p);
    FolderOfTrashed(nodes, next, id, p);
    var all := Siblings(nodes, Above(nodes, id));
    assert x in all && x != id && x in nodes;
    hide IsLive, PathOf, WellNamed, Trashing, Names, IsFolderAt;
    ChildIsShown(nodes, Above(nodes, id), Dir(p), x);
    q := Under(Dir(p), Names(nodes, all)[x]);
    assert PathOf(nodes, x, MOST_PARTS) == Some(q) by { ShownMeans(nodes, x, q); }
  }

  lemma ShownMeans(nodes: Nodes, x: Id, q: Path)
    requires ShownAt(nodes, x, q)
    ensures x in nodes && PathOf(nodes, x, MOST_PARTS) == Some(q)
  {
    hide PathOf;
  }

  lemma SamePlaceSameName(nodes: Nodes, next: Nodes, id: Id, p: Path, x: Id, q: Path)
    requires Trashing(nodes, next, id, p) && x in nodes && x != id && x in next
    requires PathOf(nodes, x, MOST_PARTS) == Some(q) && PathOf(next, x, MOST_PARTS) == Some(q)
    ensures IsLive(nodes, x, {}) && IsLive(next, x, {}) && NameOf(next, x) == NameOf(nodes, x)
  {
    hide *;
    TrashingIs(nodes, next, id, p);
    PathIs(nodes, x, MOST_PARTS);
    PathIs(next, x, MOST_PARTS);
    UnderTells(FolderPath(nodes, x, MOST_PARTS), NameOf(nodes, x));
    UnderTells(FolderPath(next, x, MOST_PARTS), NameOf(next, x));
  }

  /** Everyone else stays where it is exactly if nobody beside the file has passed over its name. */
  lemma OthersStay(nodes: Nodes, next: Nodes, id: Id, p: Path)
    requires Trashing(nodes, next, id, p)
    ensures id in nodes && (OthersShown(nodes, next, id) <==> GivesNothingBack(nodes, id))
  {
    hide PathOf, Trashing, GivesNothingBack;
    TrashingIs(nodes, next, id, p);
    if GivesNothingBack(nodes, id) {
      forall x, q | x != id && ShownAt(nodes, x, q) ensures ShownAt(next, x, q) {
        AllKept(nodes, next, id, p, x, MOST_PARTS);
      }
    }
    if OthersShown(nodes, next, id) { StayingGivesNothing(nodes, next, id, p); }
  }

  lemma StayingGivesNothing(nodes: Nodes, next: Nodes, id: Id, p: Path)
    requires Trashing(nodes, next, id, p) && id in nodes && OthersShown(nodes, next, id)
    ensures GivesNothingBack(nodes, id)
  {
    var s := Beside(nodes, id);
    forall x | x in s ensures Names(nodes, s + {id})[x] == Names(nodes, s)[x] {
      var q := BesideShown(nodes, next, id, p, x);
      assert ShownAt(next, x, q);
      hide *;
      ShownMeans(next, x, q);
      NamesLess(nodes, next, id, p, x, MOST_PARTS);
      SamePlaceSameName(nodes, next, id, p, x, q);
    }
    hide Names, Beside, NoneGaveWay, PathOf, IsLive, OthersShown;
    WhenNoneMoves(nodes, s, id);
  }

  // ----- the tree

  /** A file in the trash is at no path of the tree. */
  lemma NotInTree(nodes: Nodes, next: Nodes, id: Id, p: Path)
    requires Trashing(nodes, next, id, p)
    ensures forall q :: q in TreeOf(next) ==> TreeOf(next)[q].id != id
  {
    hide PathOf, Trashing;
    forall q | q in TreeOf(next) ensures TreeOf(next)[q].id != id {
      if TreeOf(next)[q].id == id { TrashingIs(nodes, next, id, p); StillShown(nodes, next, id, p, id, MOST_PARTS); }
    }
  }

  /** Whatever else the tree has is there still, somewhere; outside the file's folder it is where it was. */
  lemma OthersInTree(nodes: Nodes, next: Nodes, id: Id, p: Path, q: Path)
    requires Trashing(nodes, next, id, p) && q in TreeOf(nodes) && q != p
    ensures var tree, less := TreeOf(nodes), TreeOf(next);
      exists now :: now in less && less[now] == tree[q] && (Dir(p) != "" && !Ancestor(Dir(p), q) ==> now == q)
  {
    var x := TreeOf(nodes)[q].id;
    assert ShownAt(nodes, x, q);
    hide *;
    TrashingIs(nodes, next, id, p);
    ShownMeans(nodes, x, q);
    TrashedIsLive(nodes, next, id, p);
    StillShown(nodes, next, id, p, x, MOST_PARTS);
    var now := PathOf(next, x, MOST_PARTS).value;
    if Dir(p) != "" && !Ancestor(Dir(p), q) { OutsideKept(nodes, next, id, p, x, MOST_PARTS); }
    ShownNow(next, x, now);
    ShownIsInTree(next, x, now);
    SameNode(nodes, next, id, p, x, q);
  }

  lemma SameNode(nodes: Nodes, next: Nodes, id: Id, p: Path, x: Id, q: Path)
    requires Trashing(nodes, next, id, p) && x in nodes && x != id && ShownAt(nodes, x, q)
    ensures x in next && NodeOf(next, x) == NodeOf(nodes, x)
    ensures q in TreeOf(nodes) && TreeOf(nodes)[q] == NodeOf(nodes, x)
  {
    ShownIsInTree(nodes, x, q);
    hide PathOf, WellNamed;
  }

  /** The tree is as it was but for the file exactly if nobody beside it has passed over its name. */
  lemma TreeWithout(nodes: Nodes, next: Nodes, id: Id, p: Path)
    requires Trashing(nodes, next, id, p)
    ensures id in nodes && (TreeOf(next) == TreeOf(nodes) - {p} <==> GivesNothingBack(nodes, id))
  {
    hide PathOf, Trashing, GivesNothingBack, WellNamed;
    TrashingIs(nodes, next, id, p);
    OthersStay(nodes, next, id, p);
    var tree, less := TreeOf(nodes), TreeOf(next);
    ShownIsInTree(nodes, id, p);
    if OthersShown(nodes, next, id) { OthersMakeTree(nodes, next, id, p); }
    if less == tree - {p} {
      forall x, q | x != id && ShownAt(nodes, x, q) ensures ShownAt(next, x, q) {
        ShownIsInTree(nodes, x, q);
        assert q != p;
        assert q in less && less[q] == tree[q];
      }
    }
  }

  lemma OthersMakeTree(nodes: Nodes, next: Nodes, id: Id, p: Path)
    requires Trashing(nodes, next, id, p) && OthersShown(nodes, next, id)
    ensures TreeOf(next) == TreeOf(nodes) - {p}
  {
    hide PathOf, Trashing, WellNamed;
    TrashingIs(nodes, next, id, p);
    ShownIsInTree(nodes, id, p);
    var tree, less := TreeOf(nodes), TreeOf(next);
    forall q | q in tree && q != p ensures q in less && less[q] == tree[q] { OtherIsThere(nodes, next, id, p, q); }
    forall q | q in less ensures q in tree && q != p { OtherWasThere(nodes, next, id, p, q); }
  }

  lemma OtherIsThere(nodes: Nodes, next: Nodes, id: Id, p: Path, q: Path)
    requires Trashing(nodes, next, id, p) && OthersShown(nodes, next, id) && q in TreeOf(nodes) && q != p
    ensures q in TreeOf(next) && TreeOf(next)[q] == TreeOf(nodes)[q]
  {
    var x := TreeOf(nodes)[q].id;
    assert ShownAt(nodes, x, q) && (x != id ==> ShownAt(next, x, q));
    hide *;
    TrashingIs(nodes, next, id, p);
    ShownMeans(nodes, x, q);
    ShownMeans(nodes, id, p);
    ShownIsInTree(next, x, q);
    SameNode(nodes, next, id, p, x, q);
  }

  lemma OtherWasThere(nodes: Nodes, next: Nodes, id: Id, p: Path, q: Path)
    requires Trashing(nodes, next, id, p) && OthersShown(nodes, next, id) && q in TreeOf(next)
    ensures q in TreeOf(nodes) && q != p
  {
    var x := TreeOf(next)[q].id;
    assert ShownAt(next, x, q);
    TrashingIs(nodes, next, id, p);
    ShownMeans(next, x, q);
    StillShown(nodes, next, id, p, x, MOST_PARTS);
    var was := PathOf(nodes, x, MOST_PARTS).value;
    ShownNow(nodes, x, was);
    assert ShownAt(next, x, was);
    hide *;
    ShownMeans(next, x, was);
    ShownIsInTree(nodes, x, q);
    ShownIsInTree(nodes, id, p);
    NodeHasId(nodes, x);
    NodeHasId(nodes, id);
  }

  lemma NodeHasId(nodes: Nodes, x: Id)
    requires x in nodes
    ensures NodeOf(nodes, x).id == x
  {}
}
