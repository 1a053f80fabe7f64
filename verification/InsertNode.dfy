/**
 * One new node in the room's files document: which name it gets, at which path it is shown, and that it takes
 * no other node's name.
 */
module InsertNode {
  import opened Strings
  import opened WhiteSpace
  import opened Paths
  import opened PathNames
  import opened SiblingNames
  import opened Newcomers
  import opened RoomNodes

  // ----- one new node

  ghost predicate Fresh(nodes: Nodes, id: Id) {
    id !in nodes && forall x :: x in nodes ==> nodes[x].parent != Some(id)
  }

  ghost predicate LiveFolder(nodes: Nodes, parent: Option<Id>) {
    parent.Some? ==> parent.value in nodes && nodes[parent.value].folder && IsLive(nodes, parent.value, {})
  }

  /** A new node, in a folder that is there. */
  ghost predicate CanInsert(nodes: Nodes, id: Id, r: Record) {
    Fresh(nodes, id) && LiveFolder(nodes, r.parent) && !r.trashed
  }

  lemma InsertIsLive(nodes: Nodes, id: Id, r: Record)
    requires CanInsert(nodes, id, r)
    ensures var next := nodes[id := r];
      && Kept(nodes, next) && (forall x :: x in nodes ==> IsLive(next, x, {}) == IsLive(nodes, x, {}))
      && Above(next, id) == r.parent && IsLive(next, id, {})
  {
    var next := nodes[id := r];
    assert Kept(nodes, next);
    forall x | x in nodes ensures IsLive(next, x, {}) == IsLive(nodes, x, {}) { LiveStays(nodes, next, x, {}, {}); }
    if r.parent.Some? { LiveStays(nodes, next, r.parent.value, {}, {id}); }
    assert {} + {id} == {id};
  }

  lemma InsertSiblings(nodes: Nodes, id: Id, r: Record)
    requires CanInsert(nodes, id, r)
    ensures var next := nodes[id := r];
      && Siblings(next, r.parent) == Siblings(nodes, r.parent) + {id}
      && (forall q :: q != r.parent ==> Siblings(next, q) == Siblings(nodes, q))
  {
    InsertIsLive(nodes, id, r);
    hide IsLive, Fresh, LiveFolder;
    var next := nodes[id := r];
    assert forall x :: x in nodes ==> Above(next, x) == Above(nodes, x);
    hide Above, Kept;
    assert forall x :: x in next <==> x in nodes || x == id;
  }

  // ----- the names there

  /** The name it is shown by. */
  ghost function NewName(nodes: Nodes, id: Id, r: Record): string
    requires id !in nodes
  {
    Names(nodes[id := r], Siblings(nodes, r.parent) + {id})[id]
  }

  /** What is in other folders keeps its name; in this one, names are those of the siblings with the newcomer. */
  lemma InsertNames(nodes: Nodes, id: Id, r: Record)
    requires CanInsert(nodes, id, r)
    ensures var next := nodes[id := r]; var s := Siblings(nodes, r.parent);
      && id !in nodes && Kept(nodes, next) && IsLive(next, id, {}) && Above(next, id) == r.parent
      && NameOf(next, id) == NewName(nodes, id, r) && Names(next, s) == Names(nodes, s)
      && (forall x :: x in nodes && IsLive(nodes, x, {}) ==> IsLive(next, x, {}))
      && (forall x :: x in s ==> IsLive(nodes, x, {}) && NameOf(next, x) == Names(next, s + {id})[x])
      && (forall x :: x in nodes && IsLive(nodes, x, {}) && Above(nodes, x) != r.parent ==>
           NameOf(next, x) == NameOf(nodes, x))
  {
    hide *;
    var next := nodes[id := r];
    var s := Siblings(nodes, r.parent);
    IdIsNew(nodes, id, r);
    InsertIsLive(nodes, id, r);
    InsertSiblings(nodes, id, r);
    NamesStay(nodes, next, s);
    AmongSiblings(next, id);
    NewNameIs(nodes, id, r);
    forall x | x in s
      ensures x in nodes && IsLive(nodes, x, {}) && NameOf(next, x) == Names(next, s + {id})[x]
    {
      InsertBeside(nodes, id, r, x);
    }
    forall x | x in nodes && IsLive(nodes, x, {}) && Above(nodes, x) != r.parent
      ensures NameOf(next, x) == NameOf(nodes, x)
    {
      InsertElsewhere(nodes, id, r, x);
    }
  }

  lemma IdIsNew(nodes: Nodes, id: Id, r: Record)
    requires CanInsert(nodes, id, r)
    ensures id !in nodes && SameNames(nodes, nodes[id := r], Siblings(nodes, r.parent))
  {}

  lemma NewNameIs(nodes: Nodes, id: Id, r: Record)
    requires id !in nodes
    ensures NewName(nodes, id, r) == Names(nodes[id := r], Siblings(nodes, r.parent) + {id})[id]
  {
    hide Names, Siblings;
  }

  lemma InsertBeside(nodes: Nodes, id: Id, r: Record, x: Id)
    requires CanInsert(nodes, id, r) && x in Siblings(nodes, r.parent)
    ensures var next := nodes[id := r]; var s := Siblings(nodes, r.parent);
      && x in nodes && IsLive(nodes, x, {}) && IsLive(next, x, {}) && s + {id} <= next.Keys
      && NameOf(next, x) == Names(next, s + {id})[x]
  {
    var next := nodes[id := r];
    InsertIsLive(nodes, id, r);
    InsertSiblings(nodes, id, r);
    assert x in nodes && IsLive(nodes, x, {}) && Above(nodes, x) == r.parent && Above(next, x) == r.parent;
    hide *;
    AmongSiblings(next, x);
  }

  lemma InsertElsewhere(nodes: Nodes, id: Id, r: Record, x: Id)
    requires CanInsert(nodes, id, r) && x in nodes && IsLive(nodes, x, {}) && Above(nodes, x) != r.parent
    ensures IsLive(nodes[id := r], x, {}) && NameOf(nodes[id := r], x) == NameOf(nodes, x)
  {
    var next := nodes[id := r];
    var s := Siblings(nodes, Above(nodes, x));
    InsertIsLive(nodes, id, r);
    InsertSiblings(nodes, id, r);
    assert Above(next, x) == Above(nodes, x) && SameNames(nodes, next, s);
    hide *;
    AmongSiblings(nodes, x);
    AmongSiblings(next, x);
    NamesStay(nodes, next, s);
  }

  /** `x` is older than the new node. */
  predicate OlderThan(nodes: Nodes, x: Id, id: Id, at: int)
    requires x in nodes
  {
    nodes[x].createdAt < at || (nodes[x].createdAt == at && x < id)
  }

  /** Nobody in its folder is shown by this name, in any case of letters; or nobody older. */
  ghost predicate NoSibling(nodes: Nodes, parent: Option<Id>, name: string) {
    forall x :: x in Siblings(nodes, parent) ==> Lower(Names(nodes, Siblings(nodes, parent))[x]) != Lower(name)
  }

  ghost predicate NoOlderSibling(nodes: Nodes, parent: Option<Id>, name: string, id: Id, at: int) {
    forall x :: x in Siblings(nodes, parent) && OlderThan(nodes, x, id, at) ==>
      Lower(Names(nodes, Siblings(nodes, parent))[x]) != Lower(name)
  }

  /** A new node leaves every other its name exactly if nobody beside it is shown by the name it gets. */
  lemma InsertKeepsNames(nodes: Nodes, id: Id, r: Record)
    requires CanInsert(nodes, id, r)
    ensures id !in nodes
    ensures NamesKept(nodes, nodes[id := r]) <==> NoSibling(nodes, r.parent, NewName(nodes, id, r))
  {
    var next := nodes[id := r];
    var s := Siblings(nodes, r.parent);
    InsertNames(nodes, id, r);
    WhenUnmoved(next, s, id);
    UnmovedIsKept(nodes, id, r);
    hide Names, NameOf, IsLive, Above, Lower, Siblings, CanInsert, Kept, Unmoved, NamesKept;
  }

  lemma UnmovedIsKept(nodes: Nodes, id: Id, r: Record)
    requires CanInsert(nodes, id, r)
    ensures Siblings(nodes, r.parent) <= nodes[id := r].Keys
    ensures NamesKept(nodes, nodes[id := r]) <==> Unmoved(nodes[id := r], Siblings(nodes, r.parent), id)
  {
    var next, s := nodes[id := r], Siblings(nodes, r.parent);
    InsertNames(nodes, id, r);
    forall x | x in s ensures x in nodes && IsLive(nodes, x, {}) && NameOf(nodes, x) == Names(nodes, s)[x] {
      AmongSiblings(nodes, x);
    }
    forall x | x in nodes && IsLive(nodes, x, {}) && Above(nodes, x) == r.parent ensures x in s {
      AmongSiblings(nodes, x);
    }
    hide Names, NameOf, IsLive, Above, Siblings, CanInsert, Kept;
  }

  lemma AloneKeepsNames(nodes: Nodes, id: Id, r: Record)
    requires CanInsert(nodes, id, r) && Siblings(nodes, r.parent) == {}
    ensures NamesKept(nodes, nodes[id := r])
  {
    InsertKeepsNames(nodes, id, r);
    hide NamesKept, CanInsert;
  }

  /** The name asked for comes out when it is trimmed and no sibling has it in any case, and only then. */
  lemma NameComesOut(r: Record, taken: set<string>, asked: string)
    requires r.name == Trim(asked, JsSpace)
    ensures FreeName(r, taken) == asked <==> Trim(asked, JsSpace) == asked && Lower(asked) !in taken
  {
    FreeNameIs(r, taken);
    TrimmedStays(asked, JsSpace);
    if Lower(r.name) in taken {
      var k :| k >= 2 && FreeName(r, taken) == Candidate(r.name, r.folder, k);
      NumberedIsTrimmed(r.name, r.folder, k);
    }
  }

  /** The name asked for comes out exactly if it is trimmed and nobody older in the folder has it, in any case. */
  lemma NewNameComesOut(nodes: Nodes, id: Id, r: Record, asked: string)
    requires CanInsert(nodes, id, r) && r.name == Trim(asked, JsSpace)
    ensures id !in nodes
    ensures NewName(nodes, id, r) == asked
      <==> Trim(asked, JsSpace) == asked && NoOlderSibling(nodes, r.parent, asked, id, r.createdAt)
  {
    var next := nodes[id := r];
    var s := Siblings(nodes, r.parent);
    InsertNames(nodes, id, r);
    NewcomersName(next, s, id);
    var older := Names(next, OlderOf(next, s, id));
    assert NewName(nodes, id, r) == FreeName(r, Taken(older));
    OlderTaken(nodes, id, r, asked);
    hide *;
    NameComesOut(r, Taken(older), asked);
  }

  /** The names of the older siblings are those they are shown by. */
  lemma OlderTaken(nodes: Nodes, id: Id, r: Record, asked: string)
    requires CanInsert(nodes, id, r) && id !in nodes
    ensures Siblings(nodes, r.parent) <= nodes[id := r].Keys
    ensures Lower(asked) in Taken(Names(nodes[id := r], OlderOf(nodes[id := r], Siblings(nodes, r.parent), id)))
      <==> !NoOlderSibling(nodes, r.parent, asked, id, r.createdAt)
  {
    var next, s := nodes[id := r], Siblings(nodes, r.parent);
    assert s <= nodes.Keys && id !in s;
    var older := Names(next, OlderOf(next, s, id));
    OlderNamesAre(nodes, id, r);
    hide Names, Lower, Siblings, CanInsert, Older, OlderThan, OlderOf, Taken;
    TakenBy(older, asked);
  }

  lemma OlderNamesAre(nodes: Nodes, id: Id, r: Record)
    requires CanInsert(nodes, id, r) && id !in nodes
    ensures Siblings(nodes, r.parent) <= nodes[id := r].Keys
    ensures var s := Siblings(nodes, r.parent);
      var older := Names(nodes[id := r], OlderOf(nodes[id := r], s, id));
      && (forall x :: x in older <==> x in s && OlderThan(nodes, x, id, r.createdAt))
      && (forall x :: x in older ==> older[x] == Names(nodes, s)[x])
  {
    var next, s := nodes[id := r], Siblings(nodes, r.parent);
    InsertNames(nodes, id, r);
    assert forall x :: x in s ==> (Older(next, x, id) <==> OlderThan(nodes, x, id, r.createdAt));
    assert forall x :: x in OlderOf(next, s, id) <==> x in s && Older(next, x, id);
    hide *;
    forall x | x in OlderOf(next, s, id) ensures Names(next, OlderOf(next, s, id))[x] == Names(nodes, s)[x] {
      OlderAlike(next, s, id, x);
    }
  }

  lemma TakenBy(names: map<Id, string>, asked: string)
    ensures Lower(asked) in Taken(names) <==> exists x :: x in names && Lower(names[x]) == Lower(asked)
  {
    hide Lower;
  }

  lemma OlderAlike(nodes: Nodes, s: set<Id>, y: Id, x: Id)
    requires s <= nodes.Keys && y in nodes && y !in s && x in s && Older(nodes, x, y)
    ensures x in Names(nodes, OlderOf(nodes, s, y)) && Names(nodes, OlderOf(nodes, s, y))[x] == Names(nodes, s)[x]
  {
    var all := s + {y};
    assert OlderOf(nodes, all, y) == OlderOf(nodes, s, y);
    hide Names, FreeName, Taken;
    NamesByAge(nodes, all, y);
    OlderUnmoved(nodes, s, y, x);
  }

  lemma NewNameHasNoSlash(nodes: Nodes, id: Id, r: Record)
    requires CanInsert(nodes, id, r) && '/' !in r.name
    ensures id !in nodes && '/' !in NewName(nodes, id, r)
  {
    InsertNames(nodes, id, r);
    NewcomersName(nodes[id := r], Siblings(nodes, r.parent), id);
    var taken := Taken(Names(nodes[id := r], OlderOf(nodes[id := r], Siblings(nodes, r.parent), id)));
    var k :| 1 <= k && FreeName(r, taken) == Candidate(r.name, r.folder, k);
    CandidateKeeps(r.name, r.folder, k);
  }

  /** Who is now shown by the name asked for was so before, but for the new node. */
  lemma InsertMovesNobodyThere(nodes: Nodes, id: Id, r: Record, asked: string, x: Id)
    requires WellNamed(nodes) && CanInsert(nodes, id, r) && r.name == Trim(asked, JsSpace)
    requires x in Siblings(nodes, r.parent) && IsLive(nodes[id := r], x, {}) && NameOf(nodes[id := r], x) == asked
    ensures IsLive(nodes, x, {}) && NameOf(nodes, x) == asked
  {
    var next := nodes[id := r];
    var s := Siblings(nodes, r.parent);
    InsertNames(nodes, id, r);
    AmongSiblings(nodes, x);
    hide Names, NameOf, IsLive, Above, Lower, Siblings, CanInsert, Kept, Trim;
    NobodyMovesThere(next, s, id, asked, x);
  }
}
