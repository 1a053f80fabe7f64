/** The nodes of a room's files document, and the names under which those of one folder are shown. */
module SiblingNames {
  import opened Strings
  import opened WhiteSpace

  type Id = nat

  /** Ids are compared as numbers where the code compares UUIDs as text: either way, a total order. */
  datatype Record = Record(
    folder: bool, name: string, parent: Option<Id>, createdAt: int, trashed: bool, blob: Option<string>)

  type Nodes = map<Id, Record>

  // ----- a name, and the names it gives way to

  function StemOf(name: string, folder: bool): string {
    if folder || LastDot(name) <= 0 then name else name[..LastDot(name)]
  }

  function ExtOf(name: string, folder: bool): (ext: string)
    ensures ext == "" || ext[0] == '.'
  {
    if folder || LastDot(name) <= 0 then "" else name[LastDot(name)..]
  }

  /** The name the loop tries: the node's own, then with (2), (3) and so on before the extension. */
  function Candidate(name: string, folder: bool, n: nat): string {
    if n <= 1 then name else StemOf(name, folder) + " (" + Decimal(n) + ")" + ExtOf(name, folder)
  }

  lemma CandidateIs(name: string, folder: bool, n: nat)
    requires n >= 2
    ensures Candidate(name, folder, n) == (StemOf(name, folder) + " (") + Decimal(n) + (")" + ExtOf(name, folder))
  {}

  lemma StemAndExt(name: string, folder: bool)
    ensures StemOf(name, folder) + ExtOf(name, folder) == name
  {}

  /** The number stands before the extension of a file, which begins at the last dot: after `main`, of `main.py`. */
  lemma NumberBeforeExtension(base: string, ext: string, n: nat)
    requires base != "" && '.' !in ext && n >= 2
    ensures Candidate(base + "." + ext, false, n) == base + " (" + Decimal(n) + ")." + ext
  {
    var name := base + "." + ext;
    assert name[|base| + 1..] == ext;
    LastDotIs(name, |base|);
    hide Decimal, LastDot;
    assert name[..|base|] == base && name[|base|..] == "." + ext;
    assert ")" + ("." + ext) == ")." + ext;
  }

  /** It stands at the end of a folder's name, and of one with no dot but at its start: `.env`. */
  lemma NumberAtEnd(name: string, folder: bool, n: nat)
    requires n >= 2 && (folder || '.' !in name || (name[0] == '.' && '.' !in name[1..]))
    ensures Candidate(name, folder, n) == name + " (" + Decimal(n) + ")"
  {
    if !folder && '.' in name { LastDotIs(name, 0); }
    hide Decimal;
  }

  /** One is the name itself, two the first number. */
  lemma OwnNameFirst(r: Record, taken: set<string>)
    ensures Lower(r.name) !in taken ==> FreeName(r, taken) == r.name
    ensures Lower(r.name) in taken && Lower(Candidate(r.name, r.folder, 2)) !in taken ==>
      FreeName(r, taken) == Candidate(r.name, r.folder, 2)
  {
    hide Lower, StemOf, ExtOf;
    assert Candidate(r.name, r.folder, 1) == r.name;
  }

  lemma CandidatesDiffer(name: string, folder: bool, j: nat, k: nat)
    requires 1 <= j < k
    ensures Lower(Candidate(name, folder, j)) != Lower(Candidate(name, folder, k))
  {
    var stem, ext := StemOf(name, folder), ExtOf(name, folder);
    StemAndExt(name, folder);
    CandidateIs(name, folder, k);
    ValueOfDecimal(k);
    if j == 1 {
      hide Decimal, Lower, StemOf, ExtOf;
      LowerLength(name);
      LowerLength(Candidate(name, folder, k));
    } else {
      CandidateIs(name, folder, j);
      ValueOfDecimal(j);
      hide Decimal, Value, Lower, StemOf, ExtOf, Candidate, DigitRun;
      assert !IsDigit((")" + ext)[0]);
      ShowsRun(stem + " (", Decimal(j), ")" + ext);
      ShowsRun(stem + " (", Decimal(k), ")" + ext);
    }
  }

  lemma LowerLength(s: string)
    ensures |Lower(s)| == |s|
  {}

  /** One try more than the names taken is enough. */
  lemma EnoughTries(name: string, folder: bool, taken: set<string>)
    ensures exists n :: 1 <= n <= |taken| + 1 && Lower(Candidate(name, folder, n)) !in taken
  {
    var tried := (n: nat) => Lower(Candidate(name, folder, n));
    forall j, k | 1 <= j < k <= |taken| + 1 ensures tried(j) != tried(k) { CandidatesDiffer(name, folder, j, k); }
    hide Candidate, Lower;
    if forall n :: 1 <= n <= |taken| + 1 ==> Lower(Candidate(name, folder, n)) in taken {
      forall n | 1 <= n <= |taken| + 1 ensures tried(n) in taken {}
      Pigeonhole(tried, |taken| + 1, taken);
    }
  }

  /** The loop from its `n`th name on, when those before are taken. */
  function FreeFrom(name: string, folder: bool, taken: set<string>, n: nat): (r: string)
    requires 1 <= n <= |taken| + 1 && forall k :: 1 <= k < n ==> Lower(Candidate(name, folder, k)) in taken
    ensures Lower(r) !in taken
    ensures exists k :: n <= k && r == Candidate(name, folder, k)
    ensures Lower(Candidate(name, folder, n)) !in taken ==> r == Candidate(name, folder, n)
    decreases |taken| + 1 - n
  {
    EnoughTries(name, folder, taken);
    if Lower(Candidate(name, folder, n)) !in taken then Candidate(name, folder, n)
    else FreeFrom(name, folder, taken, n + 1)
  }

  /** The name a node is shown by, next to siblings with these names in lower case. */
  function FreeName(r: Record, taken: set<string>): string {
    FreeFrom(r.name, r.folder, taken, 1)
  }

  lemma FreeNameIs(r: Record, taken: set<string>)
    ensures Lower(FreeName(r, taken)) !in taken
    ensures Lower(r.name) !in taken ==> FreeName(r, taken) == r.name
    ensures Lower(r.name) in taken ==> exists k :: k >= 2 && FreeName(r, taken) == Candidate(r.name, r.folder, k)
  {
    var k :| 1 <= k && FreeName(r, taken) == Candidate(r.name, r.folder, k);
  }

  /** Names stay free of slashes, and are never empty if they were not. */
  lemma CandidateKeeps(name: string, folder: bool, n: nat)
    ensures '/' !in name ==> '/' !in Candidate(name, folder, n)
    ensures name != "" || n >= 2 ==> Candidate(name, folder, n) != ""
  {
    if n >= 2 {
      var stem, number, ext := StemOf(name, folder), Decimal(n), ExtOf(name, folder);
      StemAndExt(name, folder);
      assert forall c :: c in stem || c in ext ==> c in stem + ext;
      assert Digits(number) && !IsDigit('/');
      CandidateIs(name, folder, n);
      hide *;
      var whole := (stem + " (") + number + (")" + ext);
      assert forall c :: c in whole <==> c in stem || c in " (" || c in number || c in ")" || c in ext;
    }
  }

  /** Trimming a numbered name does not give the name: it is longer, and begins and ends like it. */
  lemma NumberedIsTrimmed(name: string, folder: bool, n: nat)
    requires n >= 2 && Trimmed(name, JsSpace)
    ensures Trim(Candidate(name, folder, n), JsSpace) != name
  {
    var c := Candidate(name, folder, n);
    var stem, ext := StemOf(name, folder), ExtOf(name, folder);
    StemAndExt(name, folder);
    CandidateIs(name, folder, n);
    assert |c| > |name|;
    assert !JsSpace(')');
    if name == "" {
      assert c[|c| - 1] == ')';
      NotAllSpace(c, |c| - 1);
    } else {
      assert stem != "";
      hide Decimal, Candidate, StemOf, ExtOf;
      assert c[0] == stem[0] == name[0];
      assert c[|c| - 1] == if ext == "" then ')' else ext[|ext| - 1];
      assert ext != "" ==> ext[|ext| - 1] == name[|name| - 1];
      TrimmedStays(c, JsSpace);
    }
  }

  lemma {:induction false} NotAllSpace(s: string, i: nat)
    requires i < |s| && !JsSpace(s[i])
    ensures Trim(s, JsSpace) != ""
  {
    var t := TrimStart(s, JsSpace);
    StartKeeps(s, i);
    EndKeeps(t);
  }

  lemma {:induction false} StartKeeps(s: string, i: nat)
    requires i < |s| && !JsSpace(s[i])
    ensures TrimStart(s, JsSpace) != ""
  {
    if JsSpace(s[0]) { StartKeeps(s[1..], i - 1); }
  }

  lemma {:induction false} EndKeeps(s: string)
    requires s != "" && !JsSpace(s[0])
    ensures TrimEnd(s, JsSpace) != ""
  {
    if JsSpace(s[|s| - 1]) { EndKeeps(s[..|s| - 1]); }
  }

  // ----- who gives way to whom

  /** The oldest node keeps its name; of two as old, the one with the smaller id. */
  predicate Older(nodes: Nodes, a: Id, b: Id)
    requires a in nodes && b in nodes
  {
    nodes[a].createdAt < nodes[b].createdAt || (nodes[a].createdAt == nodes[b].createdAt && a < b)
  }

  ghost predicate IsYoungest(nodes: Nodes, s: set<Id>, y: Id)
    requires s <= nodes.Keys
  {
    y in s && forall x :: x in s && x != y ==> Older(nodes, x, y)
  }

  lemma {:induction false} YoungestExists(nodes: Nodes, s: set<Id>)
    requires s != {} && s <= nodes.Keys
    ensures exists y :: IsYoungest(nodes, s, y)
    decreases s
  {
    var x :| x in s;
    if s == {x} {
      assert IsYoungest(nodes, s, x);
    } else {
      YoungestExists(nodes, s - {x});
      var y :| IsYoungest(nodes, s - {x}, y);
      if Older(nodes, x, y) {
        assert IsYoungest(nodes, s, y);
      } else {
        forall z | z in s && z != x ensures Older(nodes, z, x) { assert z == y || Older(nodes, z, y); }
        assert IsYoungest(nodes, s, x);
      }
    }
  }

  ghost function Youngest(nodes: Nodes, s: set<Id>): (y: Id)
    requires s != {} && s <= nodes.Keys
    ensures IsYoungest(nodes, s, y)
  {
    YoungestExists(nodes, s);
    var y :| IsYoungest(nodes, s, y);
    y
  }

  function Taken(names: map<Id, string>): set<string> {
    set id | id in names :: Lower(names[id])
  }

  /** `resolveSiblingNames`: from the oldest on, each node has the first of its names that is not taken yet. */
  ghost function Names(nodes: Nodes, s: set<Id>): (names: map<Id, string>)
    requires s <= nodes.Keys
    ensures names.Keys == s
    decreases s
  {
    if s == {} then map[] else
      var y := Youngest(nodes, s);
      var before := Names(nodes, s - {y});
      before[y := FreeName(nodes[y], Taken(before))]
  }

  /** Whatever the nodes are, siblings are shown under names that differ in every case of letters. */
  lemma {:induction false} SiblingsApart(nodes: Nodes, s: set<Id>, a: Id, b: Id)
    requires s <= nodes.Keys && a in s && b in s && a != b
    ensures Lower(Names(nodes, s)[a]) != Lower(Names(nodes, s)[b])
    decreases s
  {
    var y := Youngest(nodes, s);
    var before := Names(nodes, s - {y});
    FreeNameIs(nodes[y], Taken(before));
    hide Lower, FreeName;
    if a != y && b != y {
      SiblingsApart(nodes, s - {y}, a, b);
    } else {
      var other := if a == y then b else a;
      assert Lower(before[other]) in Taken(before);
    }
  }

  /** A node younger than its siblings leaves them their names. */
  lemma NewcomerGivesWay(nodes: Nodes, s: set<Id>, y: Id)
    requires s <= nodes.Keys && IsYoungest(nodes, s, y)
    ensures var before := Names(nodes, s - {y});
      Names(nodes, s) == before[y := FreeName(nodes[y], Taken(before))]
  {
    var z := Youngest(nodes, s);
    assert z == y;
  }

  ghost predicate SameNames(nodes: Nodes, next: Nodes, s: set<Id>) {
    forall id :: id in s ==> id in nodes && id in next && SameName(nodes[id], next[id])
  }

  predicate SameName(a: Record, b: Record) {
    a.name == b.name && a.folder == b.folder && a.createdAt == b.createdAt
  }

  /** Names depend on nothing else of the nodes, and on no other node. */
  lemma {:induction false} NamesStay(nodes: Nodes, next: Nodes, s: set<Id>)
    requires SameNames(nodes, next, s)
    ensures s <= nodes.Keys && s <= next.Keys && Names(next, s) == Names(nodes, s)
    decreases s
  {
    assert s <= nodes.Keys && s <= next.Keys;
    if s != {} {
      var y := Youngest(nodes, s);
      assert IsYoungest(next, s, y);
      NewcomerGivesWay(next, s, y);
      NamesStay(nodes, next, s - {y});
      hide FreeFrom;
    }
  }

  /** Names of nodes without slashes have none; those of nodes with names are not empty. */
  lemma {:induction false} NamesKeep(nodes: Nodes, s: set<Id>, id: Id)
    requires s <= nodes.Keys && id in s
    ensures '/' !in nodes[id].name ==> '/' !in Names(nodes, s)[id]
    ensures nodes[id].name != "" ==> Names(nodes, s)[id] != ""
    decreases s
  {
    var y := Youngest(nodes, s);
    if id == y {
      var taken := Taken(Names(nodes, s - {y}));
      var k :| 1 <= k && FreeName(nodes[y], taken) == Candidate(nodes[y].name, nodes[y].folder, k);
      CandidateKeeps(nodes[y].name, nodes[y].folder, k);
    } else {
      NamesKeep(nodes, s - {y}, id);
    }
  }

  // ----- the loops

  ghost predicate ByAge(nodes: Nodes, ordered: seq<Id>)
    requires forall id :: id in ordered ==> id in nodes
  {
    forall i, j :: 0 <= i < j < |ordered| ==> Older(nodes, ordered[i], ordered[j])
  }

  function IdsIn(ordered: seq<Id>): set<Id> {
    set id | id in ordered
  }

  /** `[...siblings].sort(...)`: oldest first. */
  method SortByAge(nodes: Nodes, siblings: set<Id>) returns (ordered: seq<Id>)
    requires siblings <= nodes.Keys
    ensures IdsIn(ordered) == siblings && (forall id :: id in ordered ==> id in nodes) && ByAge(nodes, ordered)
  {
    ordered := [];
    var rest := siblings;
    while rest != {}
      invariant IdsIn(ordered) + rest == siblings && IdsIn(ordered) !! rest
      invariant (forall id :: id in ordered ==> id in nodes) && ByAge(nodes, ordered)
    {
      var x :| x in rest;
      assert x !in ordered by { assert x !in IdsIn(ordered); }
      ordered := InsertByAge(nodes, ordered, x);
      rest := rest - {x};
    }
  }

  method InsertByAge(nodes: Nodes, ordered: seq<Id>, x: Id) returns (more: seq<Id>)
    requires x in nodes && x !in ordered && (forall id :: id in ordered ==> id in nodes) && ByAge(nodes, ordered)
    ensures IdsIn(more) == IdsIn(ordered) + {x} && (forall id :: id in more ==> id in nodes) && ByAge(nodes, more)
  {
    var i := 0;
    while i < |ordered| && Older(nodes, ordered[i], x)
      invariant 0 <= i <= |ordered| && forall k :: 0 <= k < i ==> Older(nodes, ordered[k], x)
    {
      i := i + 1;
    }
    more := ordered[..i] + [x] + ordered[i..];
    Inserted(nodes, ordered, i, x);
  }

  lemma Inserted(nodes: Nodes, ordered: seq<Id>, i: nat, x: Id)
    requires i <= |ordered| && x in nodes && (forall id :: id in ordered ==> id in nodes) && ByAge(nodes, ordered)
    requires forall k :: 0 <= k < i ==> Older(nodes, ordered[k], x)
    requires x !in ordered && (i < |ordered| ==> !Older(nodes, ordered[i], x))
    ensures var more := ordered[..i] + [x] + ordered[i..];
      IdsIn(more) == IdsIn(ordered) + {x} && (forall id :: id in more ==> id in nodes) && ByAge(nodes, more)
  {
    var more := ordered[..i] + [x] + ordered[i..];
    assert ordered == ordered[..i] + ordered[i..];
    forall k | i <= k < |ordered| ensures Older(nodes, x, ordered[k]) {
      assert ordered[i] in ordered;
    }
    assert forall id :: id in more <==> id in ordered || id == x;
    hide Older;
  }

  method ResolveSiblingNames(nodes: Nodes, siblings: set<Id>) returns (display: map<Id, string>)
    requires siblings <= nodes.Keys
    ensures display == Names(nodes, siblings)
  {
    var ordered := SortByAge(nodes, siblings);
    var taken: set<string> := {};
    display := map[];
    assert IdsIn(ordered[..0]) == {};
    for i := 0 to |ordered|
      invariant IdsIn(ordered[..i]) <= nodes.Keys
      invariant display == Names(nodes, IdsIn(ordered[..i])) && taken == Taken(display)
    {
      var id := ordered[i];
      NextByAge(nodes, ordered, i);
      var name := TakeFreeName(nodes[id], taken);
      assert Taken(display[id := name]) == taken + {Lower(name)} by { TakenMore(display, id, name); }
      taken := taken + {Lower(name)};
      display := display[id := name];
    }
    assert ordered[..|ordered|] == ordered;
  }

  lemma TakenMore(names: map<Id, string>, id: Id, name: string)
    requires id !in names
    ensures Taken(names[id := name]) == Taken(names) + {Lower(name)}
  {
    hide Lower;
    var more := names[id := name];
    forall t | t in Taken(names) ensures t in Taken(more) {
      var other :| other in names && Lower(names[other]) == t;
      assert more[other] == names[other];
    }
    assert more[id] == name;
  }

  lemma NextByAge(nodes: Nodes, ordered: seq<Id>, i: nat)
    requires i < |ordered| && (forall id :: id in ordered ==> id in nodes) && ByAge(nodes, ordered)
    ensures IdsIn(ordered[..i + 1]) <= nodes.Keys && ordered[i] !in IdsIn(ordered[..i])
    ensures var before := Names(nodes, IdsIn(ordered[..i]));
      Names(nodes, IdsIn(ordered[..i + 1])) == before[ordered[i] := FreeName(nodes[ordered[i]], Taken(before))]
  {
    var s, y := IdsIn(ordered[..i + 1]), ordered[i];
    assert ordered[..i + 1] == ordered[..i] + [y];
    assert y !in ordered[..i] by { assert forall k :: 0 <= k < i ==> Older(nodes, ordered[k], y); }
    assert s - {y} == IdsIn(ordered[..i]);
    assert IsYoungest(nodes, s, y);
    hide Older, FreeName, Taken;
    NewcomerGivesWay(nodes, s, y);
  }

  /** The loop over a node's names. */
  method TakeFreeName(node: Record, taken: set<string>) returns (name: string)
    ensures name == FreeName(node, taken)
  {
    name := node.name;
    var n := 1;
    EnoughTries(node.name, node.folder, taken);
    hide Lower, Decimal, StemOf, ExtOf;
    while Lower(name) in taken
      invariant 1 <= n <= |taken| + 1 && name == Candidate(node.name, node.folder, n)
      invariant forall k :: 1 <= k < n ==> Lower(Candidate(node.name, node.folder, k)) in taken
      invariant FreeFrom(node.name, node.folder, taken, n) == FreeName(node, taken)
      decreases |taken| + 1 - n
    {
      n := n + 1;
      name := Candidate(node.name, node.folder, n);
    }
  }
}
