/** A node among siblings of any age: the name it is shown by, and whom it takes one from. */
module Newcomers {
  import opened Strings
  import opened WhiteSpace
  import opened SiblingNames

  /** The first of its names that is not taken. */
  ghost predicate FirstFree(r: Record, taken: set<string>, k: nat) {
    && k >= 1 && Lower(Candidate(r.name, r.folder, k)) !in taken
    && forall j :: 1 <= j < k ==> Lower(Candidate(r.name, r.folder, j)) in taken
  }

  lemma {:induction false} FreeFromFirst(r: Record, taken: set<string>, n: nat) returns (k: nat)
    requires 1 <= n <= |taken| + 1
    requires forall j :: 1 <= j < n ==> Lower(Candidate(r.name, r.folder, j)) in taken
    ensures FirstFree(r, taken, k) && FreeFrom(r.name, r.folder, taken, n) == Candidate(r.name, r.folder, k)
    decreases |taken| + 1 - n
  {
    EnoughTries(r.name, r.folder, taken);
    hide Lower, Candidate;
    if Lower(Candidate(r.name, r.folder, n)) !in taken {
      k := n;
    } else {
      k := FreeFromFirst(r, taken, n + 1);
    }
  }

  lemma FreeNameFirst(r: Record, taken: set<string>) returns (k: nat)
    ensures FirstFree(r, taken, k) && FreeName(r, taken) == Candidate(r.name, r.folder, k)
  {
    k := FreeFromFirst(r, taken, 1);
  }

  lemma FirstFreeIs(r: Record, taken: set<string>, k: nat)
    requires FirstFree(r, taken, k)
    ensures FreeName(r, taken) == Candidate(r.name, r.folder, k)
  {
    var other := FreeNameFirst(r, taken);
    hide Lower, Candidate, FreeName;
  }

  /** A name more that is taken changes nothing for a node that has another. */
  lemma OneMoreTaken(r: Record, taken: set<string>, t: string)
    requires Lower(FreeName(r, taken)) != t
    ensures FreeName(r, taken + {t}) == FreeName(r, taken)
  {
    var k := FreeNameFirst(r, taken);
    hide Lower, Candidate, FreeName;
    FirstFreeIs(r, taken + {t}, k);
  }

  ghost function OlderOf(nodes: Nodes, s: set<Id>, y: Id): (older: set<Id>)
    requires s <= nodes.Keys && y in nodes
    ensures older <= s && y !in older
  {
    set x | x in s && Older(nodes, x, y)
  }

  /** A node's name, and those of its older siblings, depend on these alone. */
  lemma {:induction false} NamesByAge(nodes: Nodes, s: set<Id>, y: Id)
    requires s <= nodes.Keys && y in s
    ensures var older := Names(nodes, OlderOf(nodes, s, y));
      && Names(nodes, s)[y] == FreeName(nodes[y], Taken(older))
      && forall x :: x in older ==> Names(nodes, s)[x] == older[x]
    decreases s
  {
    var z := Youngest(nodes, s);
    hide FreeName, Taken;
    if z == y {
      assert OlderOf(nodes, s, y) == s - {y};
    } else {
      assert OlderOf(nodes, s, y) == OlderOf(nodes, s - {z}, y);
      hide OlderOf;
      NamesByAge(nodes, s - {z}, y);
    }
  }

  /** A node is shown by its own name exactly if no older sibling is shown by it, in any case of letters. */
  lemma OwnNameKept(nodes: Nodes, s: set<Id>, y: Id)
    requires s <= nodes.Keys && y in s
    ensures Names(nodes, s)[y] == nodes[y].name
      <==> forall x :: x in s && Older(nodes, x, y) ==> Lower(Names(nodes, s)[x]) != Lower(nodes[y].name)
  {
    NamesByAge(nodes, s, y);
    var older := Names(nodes, OlderOf(nodes, s, y));
    FreeNameIs(nodes[y], Taken(older));
    assert forall x :: x in s && Older(nodes, x, y) <==> x in older;
    hide Lower, FreeName, Names, Older, OlderOf, Candidate;
    assert forall x :: x in older ==> Lower(older[x]) in Taken(older);
    if Lower(nodes[y].name) in Taken(older) {
      var x :| x in older && Lower(older[x]) == Lower(nodes[y].name);
      assert Names(nodes, s)[x] == older[x];
    }
  }

  /** Siblings older than a newcomer keep their names. */
  lemma OlderUnmoved(nodes: Nodes, s: set<Id>, y: Id, x: Id)
    requires s <= nodes.Keys && y in nodes && y !in s && x in s && Older(nodes, x, y)
    ensures Names(nodes, s + {y})[x] == Names(nodes, s)[x]
  {
    assert OlderOf(nodes, s + {y}, x) == OlderOf(nodes, s, x);
    hide OlderOf, FreeName, Names, Taken;
    NamesByAge(nodes, s, x);
    NamesByAge(nodes, s + {y}, x);
  }

  /** A newcomer's name depends on its older siblings alone. */
  lemma NewcomersName(nodes: Nodes, s: set<Id>, y: Id)
    requires s <= nodes.Keys && y in nodes && y !in s
    ensures Names(nodes, s + {y})[y] == FreeName(nodes[y], Taken(Names(nodes, OlderOf(nodes, s, y))))
  {
    assert OlderOf(nodes, s + {y}, y) == OlderOf(nodes, s, y);
    hide OlderOf, FreeName, Names, Taken;
    NamesByAge(nodes, s + {y}, y);
  }

  ghost predicate Unmoved(nodes: Nodes, s: set<Id>, y: Id)
    requires s <= nodes.Keys && y in nodes
  {
    forall x :: x in s ==> Names(nodes, s + {y})[x] == Names(nodes, s)[x]
  }

  /** Nobody is shown by the name the newcomer gets, in any case of letters. */
  ghost predicate Unwanted(nodes: Nodes, s: set<Id>, y: Id)
    requires s <= nodes.Keys && y in nodes
  {
    forall x :: x in s ==> Lower(Names(nodes, s)[x]) != Lower(Names(nodes, s + {y})[y])
  }

  /**
   * A newcomer, however old, leaves all its siblings their names exactly if none is shown by the
   * name that it gets: what one has to give up, others may have to give up for it, but not before.
   */
  lemma {:induction false} WhenUnmoved(nodes: Nodes, s: set<Id>, y: Id)
    requires s <= nodes.Keys && y in nodes && y !in s
    ensures Unmoved(nodes, s, y) <==> Unwanted(nodes, s, y)
  {
    if Unmoved(nodes, s, y) {
      hide Names, Lower;
      forall x | x in s ensures Lower(Names(nodes, s)[x]) != Lower(Names(nodes, s + {y})[y]) {
        SiblingsApart(nodes, s + {y}, x, y);
      }
    }
    if Unwanted(nodes, s, y) { UnwantedMovesNobody(nodes, s, y); }
  }

  lemma {:induction false} UnwantedMovesNobody(nodes: Nodes, s: set<Id>, y: Id)
    requires s <= nodes.Keys && y in nodes && y !in s && Unwanted(nodes, s, y)
    ensures Unmoved(nodes, s, y)
    decreases s
  {
    var z := Youngest(nodes, s + {y});
    if z == y {
      assert s + {y} - {y} == s;
      hide FreeName, Taken, Lower;
    } else {
      var less := s - {z};
      assert s + {y} - {z} == less + {y};
      assert IsYoungest(nodes, s, z);
      NewcomerGivesWay(nodes, s, z);
      NewcomerGivesWay(nodes, s + {y}, z);
      hide FreeName, Taken, Lower, Names;
      UnwantedMovesNobody(nodes, less, y);
      TakenWithout(nodes, less, y);
      OneMoreTaken(nodes[z], Taken(Names(nodes, less)), Lower(Names(nodes, less + {y})[y]));
    }
  }

  lemma TakenWithout(nodes: Nodes, s: set<Id>, y: Id)
    requires s <= nodes.Keys && y in nodes && y !in s && Unmoved(nodes, s, y)
    ensures Taken(Names(nodes, s + {y})) == Taken(Names(nodes, s)) + {Lower(Names(nodes, s + {y})[y])}
  {
    hide Names, Lower;
    var names, more := Names(nodes, s), Names(nodes, s + {y});
    forall t | t in Taken(names) ensures t in Taken(more) {
      var x :| x in names && Lower(names[x]) == t;
      assert more[x] == names[x];
    }
    assert more[y] == more[y];
  }

  // ----- names with white space at an end

  lemma LowerTrimmed(s: string)
    ensures Trimmed(Lower(s), JsSpace) <==> Trimmed(s, JsSpace)
  {}

  /** All numbered names of a node begin alike and end alike. */
  lemma NumberedEnds(name: string, folder: bool, k: nat)
    requires k >= 2 && name != ""
    ensures Trimmed(Candidate(name, folder, k), JsSpace)
      <==> !JsSpace(name[0]) && (ExtOf(name, folder) == "" || !JsSpace(name[|name| - 1]))
  {
    var c := Candidate(name, folder, k);
    var stem, ext := StemOf(name, folder), ExtOf(name, folder);
    StemAndExt(name, folder);
    CandidateIs(name, folder, k);
    assert !JsSpace(')');
    assert stem != "";
    hide Decimal, Candidate, StemOf, ExtOf, JsSpace;
    assert c[0] == stem[0] == name[0];
    assert c[|c| - 1] == if ext == "" then ')' else ext[|ext| - 1];
    assert ext != "" ==> ext[|ext| - 1] == name[|name| - 1];
  }

  ghost predicate AgreeOnUntrimmed(a: set<string>, b: set<string>) {
    forall t :: !Trimmed(t, JsSpace) ==> (t in a <==> t in b)
  }

  lemma UntrimmedTaken(r: Record, a: set<string>, b: set<string>, k: nat)
    requires AgreeOnUntrimmed(a, b) && !Trimmed(Candidate(r.name, r.folder, k), JsSpace)
    ensures Lower(Candidate(r.name, r.folder, k)) in a <==> Lower(Candidate(r.name, r.folder, k)) in b
  {
    LowerTrimmed(Candidate(r.name, r.folder, k));
    hide Lower, Candidate, JsSpace;
  }

  /** A name with white space at an end depends on such names alone. */
  lemma UntrimmedFree(r: Record, a: set<string>, b: set<string>)
    requires AgreeOnUntrimmed(a, b) && r.name != "" && !Trimmed(FreeName(r, a), JsSpace)
    ensures FreeName(r, b) == FreeName(r, a)
  {
    var k := FreeNameFirst(r, a);
    forall j | 1 <= j <= k && !Trimmed(Candidate(r.name, r.folder, j), JsSpace)
      ensures Lower(Candidate(r.name, r.folder, j)) in a <==> Lower(Candidate(r.name, r.folder, j)) in b
    {
      UntrimmedTaken(r, a, b, j);
    }
    forall j | 1 <= j <= k ensures !Trimmed(Candidate(r.name, r.folder, j), JsSpace) {
      if k >= 2 { NumberedEnds(r.name, r.folder, k); }
      if j >= 2 { NumberedEnds(r.name, r.folder, j); }
      assert Candidate(r.name, r.folder, 1) == r.name;
    }
    hide Lower, Candidate, JsSpace, FreeName;
    assert FirstFree(r, b, k);
    FirstFreeIs(r, b, k);
  }

  ghost predicate UntrimmedSame(nodes: Nodes, s: set<Id>, y: Id)
    requires s <= nodes.Keys && y in nodes
  {
    forall x :: x in s ==>
      var before, after := Names(nodes, s)[x], Names(nodes, s + {y})[x];
      (Trimmed(before, JsSpace) && Trimmed(after, JsSpace)) || before == after
  }

  /** What a newcomer with a trimmed name makes others give up, and take for it, is trimmed too. */
  lemma {:induction false} UntrimmedStay(nodes: Nodes, s: set<Id>, y: Id)
    requires s <= nodes.Keys && y in nodes && y !in s && Trimmed(Names(nodes, s + {y})[y], JsSpace)
    requires forall x :: x in s ==> nodes[x].name != ""
    ensures UntrimmedSame(nodes, s, y)
    decreases s
  {
    var z := Youngest(nodes, s + {y});
    hide JsSpace;
    if z == y {
      assert s + {y} - {y} == s;
      hide FreeName, Taken, Lower;
    } else {
      var less := s - {z};
      assert s + {y} - {z} == less + {y};
      assert IsYoungest(nodes, s, z);
      NewcomerGivesWay(nodes, s, z);
      NewcomerGivesWay(nodes, s + {y}, z);
      hide FreeName, Taken, Lower, Names;
      UntrimmedStay(nodes, less, y);
      UntrimmedAgree(nodes, less, y);
      var a, b := Taken(Names(nodes, less)), Taken(Names(nodes, less + {y}));
      if !Trimmed(FreeName(nodes[z], a), JsSpace) { UntrimmedFree(nodes[z], a, b); }
      if !Trimmed(FreeName(nodes[z], b), JsSpace) { UntrimmedFree(nodes[z], b, a); }
    }
  }

  lemma UntrimmedAgree(nodes: Nodes, s: set<Id>, y: Id)
    requires s <= nodes.Keys && y in nodes && y !in s && Trimmed(Names(nodes, s + {y})[y], JsSpace)
    requires UntrimmedSame(nodes, s, y)
    ensures AgreeOnUntrimmed(Taken(Names(nodes, s)), Taken(Names(nodes, s + {y})))
  {
    hide Names, Lower, JsSpace;
    var names, more := Names(nodes, s), Names(nodes, s + {y});
    forall t | !Trimmed(t, JsSpace) ensures t in Taken(names) <==> t in Taken(more) {
      if t in Taken(names) {
        var x :| x in names && Lower(names[x]) == t;
        LowerTrimmed(names[x]);
        assert more[x] == names[x];
      }
      if t in Taken(more) {
        var x :| x in more && Lower(more[x]) == t;
        LowerTrimmed(more[x]);
        assert x != y && names[x] == more[x];
      }
    }
  }

  /**
   * Nobody moves to the name a newcomer was asked to have: who is shown by it now, but for the
   * newcomer, was so before.
   */
  lemma NobodyMovesThere(nodes: Nodes, s: set<Id>, y: Id, asked: string, x: Id)
    requires s <= nodes.Keys && y in nodes && y !in s && x in s && forall z :: z in s ==> nodes[z].name != ""
    requires nodes[y].name == Trim(asked, JsSpace) && Names(nodes, s + {y})[x] == asked
    ensures Names(nodes, s)[x] == asked
  {
    NewcomerTrimmed(nodes, s, y);
    SiblingsApart(nodes, s + {y}, x, y);
    TrimmedStays(asked, JsSpace);
    if Trimmed(asked, JsSpace) {
      OwnNameKept(nodes, s + {y}, y);
      hide Names, Lower, JsSpace, Trim, Older;
      var o :| o in s + {y} && Older(nodes, o, y) && Lower(Names(nodes, s + {y})[o]) == Lower(asked);
      if o != x { SiblingsApart(nodes, s + {y}, o, x); }
      NotOlderThanItself(nodes, y);
      OlderUnmoved(nodes, s, y, x);
    } else {
      UntrimmedStay(nodes, s, y);
      hide Names, Lower, JsSpace, Trim;
    }
  }

  lemma NotOlderThanItself(nodes: Nodes, y: Id)
    requires y in nodes
    ensures !Older(nodes, y, y)
  {}

  lemma NewcomerTrimmed(nodes: Nodes, s: set<Id>, y: Id)
    requires s <= nodes.Keys && y in nodes && y !in s && forall z :: z in s ==> nodes[z].name != ""
    requires Trimmed(nodes[y].name, JsSpace)
    ensures Trimmed(Names(nodes, s + {y})[y], JsSpace)
  {
    NewcomersName(nodes, s, y);
    var older := OlderOf(nodes, s, y);
    var taken := Taken(Names(nodes, older));
    var k := FreeNameFirst(nodes[y], taken);
    if nodes[y].name == "" {
      forall t | t in taken ensures t != "" {
        var x :| x in older && Lower(Names(nodes, older)[x]) == t;
        NamesKeep(nodes, older, x);
      }
      assert Lower("") == "" && Candidate("", nodes[y].folder, 1) == "";
    } else if k >= 2 {
      NumberedEnds(nodes[y].name, nodes[y].folder, k);
    }
  }
}
