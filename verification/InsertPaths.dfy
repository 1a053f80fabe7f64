/**
 * Where nodes are shown once a new one is among them: outside its folder as before, and nobody else at the
 * place it was asked to have.
 */
module InsertPaths {
  import opened Strings
  import opened WhiteSpace
  import opened Paths
  import opened PathNames
  import opened SiblingNames
  import opened RoomNodes
  import opened InsertNode

  /** A new node goes into the folder at `d`, or to the root. */
  ghost predicate Lands(nodes: Nodes, id: Id, r: Record, d: Path) {
    WellNamed(nodes) && CanInsert(nodes, id, r) && IsFolderAt(nodes, r.parent, d) && (r.parent.Some? <==> d != "")
  }

  lemma {:induction false} PathSame(nodes: Nodes, x: Id, n: nat, m: nat)
    requires x in nodes && PathOf(nodes, x, n).Some? && PathOf(nodes, x, m).Some?
    ensures PathOf(nodes, x, n) == PathOf(nodes, x, m)
    decreases n
  {
    hide *;
    var f := ShownInParts(nodes, x, n);
    var g := ShownInParts(nodes, x, m);
    if Above(nodes, x).Some? { PathSame(nodes, Above(nodes, x).value, n - 1, m - 1); }
  }

  lemma ShownInParts(nodes: Nodes, x: Id, n: nat) returns (folder: Path)
    requires x in nodes && PathOf(nodes, x, n).Some?
    ensures n > 0 && IsLive(nodes, x, {}) && PathOf(nodes, x, n) == Some(Under(folder, NameOf(nodes, x)))
    ensures Above(nodes, x).None? ==> folder == ""
    ensures Above(nodes, x).Some? ==>
      nodes[Above(nodes, x).value].folder && PathOf(nodes, Above(nodes, x).value, n - 1) == Some(folder)
  {
    LiveIfShown(nodes, x, n);
    folder := if Above(nodes, x).None? then "" else PathOf(nodes, Above(nodes, x).value, n - 1).value;
    hide IsLive, NameOf, Under;
  }

  lemma LiveIfShown(nodes: Nodes, x: Id, n: nat)
    requires x in nodes && PathOf(nodes, x, n).Some?
    ensures n > 0 && IsLive(nodes, x, {})
  {
    hide IsLive;
  }

  lemma LandsIs(nodes: Nodes, id: Id, r: Record, d: Path)
    requires Lands(nodes, id, r, d)
    ensures WellNamed(nodes) && CanInsert(nodes, id, r) && id !in nodes && (r.parent.Some? <==> d != "")
    ensures r.parent.Some? ==>
      var up := r.parent.value;
      up in nodes && nodes[up].folder && up != id && PathOf(nodes, up, MOST_PARTS) == Some(d)
  {
    hide IsLive, PathOf, WellNamed;
  }

  lemma OldName(nodes: Nodes, id: Id, r: Record, x: Id)
    requires WellNamed(nodes) && CanInsert(nodes, id, r) && x in nodes && IsLive(nodes[id := r], x, {})
    ensures NameOf(nodes[id := r], x) != "" && '/' !in NameOf(nodes[id := r], x)
    ensures IsLive(nodes, x, {}) && Above(nodes[id := r], x) == Above(nodes, x)
    ensures Above(nodes, x) != r.parent ==> NameOf(nodes[id := r], x) == NameOf(nodes, x)
  {
    var next := nodes[id := r];
    InsertIsLive(nodes, id, r);
    AmongSiblings(next, x);
    NamesKeep(next, Siblings(next, Above(next, x)), x);
    InsertNames(nodes, id, r);
    assert next[x] == nodes[x];
    hide Names, IsLive, Siblings, CanInsert;
  }

  lemma OldPathNotEmpty(nodes: Nodes, id: Id, r: Record, x: Id, n: nat)
    requires WellNamed(nodes) && CanInsert(nodes, id, r) && x in nodes && PathOf(nodes[id := r], x, n).Some?
    ensures PathOf(nodes[id := r], x, n).value != ""
  {
    hide *;
    var folder := ShownInParts(nodes[id := r], x, n);
    OldName(nodes, id, r, x);
    UnderNotEmpty(folder, NameOf(nodes[id := r], x));
  }

  /** The path of an old node, taken apart. */
  lemma OldPath(nodes: Nodes, id: Id, r: Record, x: Id, n: nat) returns (folder: Path, name: string)
    requires WellNamed(nodes) && CanInsert(nodes, id, r) && id !in nodes && x in nodes
    requires PathOf(nodes[id := r], x, n).Some?
    ensures n > 0 && IsLive(nodes, x, {}) && IsLive(nodes[id := r], x, {}) && name == NameOf(nodes[id := r], x)
    ensures PathOf(nodes[id := r], x, n) == Some(Under(folder, name)) && name != "" && '/' !in name
    ensures Above(nodes, x).None? ==> folder == ""
    ensures Above(nodes, x).Some? ==>
      var up := Above(nodes, x).value;
      folder != "" && nodes[up].folder && up != id && PathOf(nodes[id := r], up, n - 1) == Some(folder)
    ensures Above(nodes, x) != r.parent ==> name == NameOf(nodes, x)
  {
    hide *;
    folder := ShownInParts(nodes[id := r], x, n);
    name := NameOf(nodes[id := r], x);
    OldName(nodes, id, r, x);
    if Above(nodes, x).Some? { OldPathNotEmpty(nodes, id, r, Above(nodes, x).value, n - 1); }
  }

  lemma UnderNotEmpty(folder: Path, name: string)
    requires name != ""
    ensures Under(folder, name) != ""
  {}

  /** Nodes shown outside the new node's folder are shown there still. */
  lemma {:induction false} OutsideStays(nodes: Nodes, id: Id, r: Record, d: Path, x: Id, n: nat)
    requires Lands(nodes, id, r, d) && d != "" && x in nodes
    requires PathOf(nodes, x, n).Some? && !Ancestor(d, PathOf(nodes, x, n).value)
    ensures PathOf(nodes[id := r], x, n) == PathOf(nodes, x, n)
    decreases n
  {
    hide *;
    LandsIs(nodes, id, r, d);
    PathIs(nodes, x, n);
    var next := nodes[id := r];
    var folder, name := FolderPath(nodes, x, n), NameOf(nodes, x);
    LiveAndPlace(nodes, id, r, x);
    PathFrom(nodes, x, n);
    PathFrom(next, x, n);
    AncestorOfUnder(d, folder, name);
    if Above(nodes, x).Some? {
      var up := Above(nodes, x).value;
      if up == r.parent.value { PathSame(nodes, up, n - 1, MOST_PARTS); }
      OutsideStays(nodes, id, r, d, up, n - 1);
    }
  }

  lemma LiveAndPlace(nodes: Nodes, id: Id, r: Record, x: Id)
    requires CanInsert(nodes, id, r) && x in nodes && IsLive(nodes, x, {})
    ensures var next := nodes[id := r];
      && IsLive(next, x, {}) && Above(next, x) == Above(nodes, x)
      && (Above(nodes, x) != r.parent ==> NameOf(next, x) == NameOf(nodes, x))
      && (Above(nodes, x).Some? ==> next[Above(nodes, x).value] == nodes[Above(nodes, x).value])
  {
    InsertNames(nodes, id, r);
    hide IsLive, NameOf, Names;
  }

  /** The folder itself is shown where it was. */
  lemma FolderStays(nodes: Nodes, id: Id, r: Record, d: Path, n: nat)
    requires Lands(nodes, id, r, d) && d != ""
    ensures r.parent.Some? && r.parent.value in nodes && r.parent.value in nodes[id := r]
    ensures PathOf(nodes[id := r], r.parent.value, n) == PathOf(nodes, r.parent.value, n)
  {
    hide *;
    LandsIs(nodes, id, r, d);
    var next, up := nodes[id := r], r.parent.value;
    NotAboveItself(d);
    OutsideStays(nodes, id, r, d, up, MOST_PARTS);
    if PathOf(nodes, up, n).Some? {
      PathSame(nodes, up, n, MOST_PARTS);
      OutsideStays(nodes, id, r, d, up, n);
    } else if PathOf(next, up, n).Some? {
      PathSame(next, up, n, MOST_PARTS);
      OutsideWas(nodes, id, r, d, up, n);
    }
  }

  lemma NotAboveItself(d: Path)
    ensures !Ancestor(d, d)
  {}

  /** And whoever is shown outside it was shown there before. */
  lemma {:induction false} OutsideWas(nodes: Nodes, id: Id, r: Record, d: Path, x: Id, n: nat)
    requires Lands(nodes, id, r, d) && d != "" && x in nodes
    requires PathOf(nodes[id := r], x, n).Some? && !Ancestor(d, PathOf(nodes[id := r], x, n).value)
    ensures PathOf(nodes, x, n) == PathOf(nodes[id := r], x, n)
    decreases n
  {
    hide *;
    LandsIs(nodes, id, r, d);
    var next := nodes[id := r];
    var folder, name := OldPath(nodes, id, r, x, n);
    PathFrom(nodes, x, n);
    AncestorOfUnder(d, folder, name);
    if Above(nodes, x).Some? {
      var up := Above(nodes, x).value;
      if up == r.parent.value {
        NotAboveItself(d);
        OutsideStays(nodes, id, r, d, up, MOST_PARTS);
        PathSame(next, up, n - 1, MOST_PARTS);
      }
      OutsideWas(nodes, id, r, d, up, n - 1);
    }
  }

  /** The path of the new node. */
  lemma InsertPath(nodes: Nodes, id: Id, r: Record, parts: nat)
    requires CanInsert(nodes, id, r)
    requires r.parent.Some? && parts > 0 ==>
      && r.parent.value in nodes[id := r] && r.parent.value in nodes
      && PathOf(nodes[id := r], r.parent.value, parts - 1) == PathOf(nodes, r.parent.value, parts - 1)
    ensures id !in nodes
    ensures PathOf(nodes[id := r], id, parts) ==
      if parts == 0 then None
      else if r.parent.None? then Some(Under("", NewName(nodes, id, r)))
      else if PathOf(nodes, r.parent.value, parts - 1).None? then None
      else Some(Under(PathOf(nodes, r.parent.value, parts - 1).value, NewName(nodes, id, r)))
  {
    var next := nodes[id := r];
    if r.parent.Some? { ParentIs(nodes, id, r); }
    InsertNames(nodes, id, r);
    PathFrom(next, id, parts);
    hide *;
  }

  lemma ParentIs(nodes: Nodes, id: Id, r: Record)
    requires CanInsert(nodes, id, r) && r.parent.Some?
    ensures var up := r.parent.value; up in nodes && nodes[up].folder && up != id && nodes[id := r][up] == nodes[up]
  {
    hide IsLive;
  }

  /** At the path asked for, and beneath it, only the new node can be shown that was not shown there before. */
  lemma {:induction false} NobodyMovesIn(nodes: Nodes, id: Id, r: Record, d: Path, asked: string, x: Id, n: nat)
    requires Lands(nodes, id, r, d) && r.name == Trim(asked, JsSpace) && '/' !in asked && x in nodes && n <= MOST_PARTS
    requires PathOf(nodes[id := r], x, n).Some? && OnWay(Under(d, asked), PathOf(nodes[id := r], x, n).value)
    ensures PathOf(nodes, x, n) == PathOf(nodes[id := r], x, n)
    decreases n
  {
    hide *;
    LandsIs(nodes, id, r, d);
    var next, p := nodes[id := r], Under(d, asked);
    var folder, name := OldPath(nodes, id, r, x, n);
    PathFrom(nodes, x, n);
    WayUnder(p, folder, name);
    if Under(folder, name) == p {
      UnderTells(folder, name);
      UnderTells(d, asked);
      if Above(nodes, x).Some? {
        var up := Above(nodes, x).value;
        NotAboveItself(d);
        OutsideWas(nodes, id, r, d, up, n - 1);
        PathHasParts(nodes, up, n - 1, MOST_PARTS);
        PathsApart(nodes, up, r.parent.value, MOST_PARTS);
      }
      AmongSiblings(nodes, x);
      InsertMovesNobodyThere(nodes, id, r, asked, x);
    } else {
      var up := Above(nodes, x).value;
      if Some(up) == r.parent {
        FolderStays(nodes, id, r, d, n - 1);
        PathSame(nodes, up, n - 1, MOST_PARTS);
        LongerUnder(d, asked);
        OnWayLonger(p, folder);
      }
      NobodyMovesIn(nodes, id, r, d, asked, up, n - 1);
    }
  }

  lemma WayUnder(p: Path, folder: Path, name: string)
    requires OnWay(p, Under(folder, name)) && '/' !in name
    ensures Under(folder, name) == p || (folder != "" && OnWay(p, folder))
  {
    AncestorOfUnder(p, folder, name);
    hide Ancestor;
  }

  lemma LongerUnder(d: Path, name: string)
    requires d != ""
    ensures |Under(d, name)| > |d|
  {}

  lemma OnWayLonger(p: Path, q: Path)
    requires OnWay(p, q)
    ensures |p| <= |q|
  {}
}
