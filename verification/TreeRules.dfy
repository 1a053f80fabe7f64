/** What a room's tree is made to keep to when it is stored. */
module TreeRules {
  import opened Strings
  import opened WhiteSpace
  import opened NodeNames
  import opened RoomTree

  const MAX_DEPTH: nat := 12
  const MAX_FILE_CHARS: nat := 250_000
  const MAX_WORKSPACE_TOTAL_CONTENT_CHARS: nat := 600_000

  /** A node as it comes in; its id is the one it has, or the one made for it. */
  datatype Raw = Raw(kind: string, name: string, id: string, content: string, children: seq<Raw>)

  datatype Stats = Stats(nodes: nat, characters: nat)

  /** `names` are those taken among the siblings, in lower case; `Endless` is a call that never returns. */
  datatype Outcome =
    | Ok(nodes: seq<Node>, names: set<string>, stats: Stats)
    | TooDeep
    | TooLarge
    | ContentTooLarge
    | Endless

  function Kind(raw: Raw): string {
    Lower(Strip(raw.kind))
  }

  /** `normalize_workspace_tree` */
  function Normalized(raws: seq<Raw>, depth: nat, stats: Stats): Outcome
    decreases raws, 1
  {
    if depth > MAX_DEPTH then TooDeep else Level(raws, depth, stats)
  }

  function Level(raws: seq<Raw>, depth: nat, stats: Stats): Outcome
    decreases raws, 0
  {
    if raws == [] then Ok([], {}, stats)
    else
      match Level(raws[..|raws| - 1], depth, stats)
      case Ok(nodes, names, s) => Added(raws[|raws| - 1], depth, nodes, names, s)
      case other => other
  }

  /** One more of some siblings. */
  function Added(raw: Raw, depth: nat, nodes: seq<Node>, names: set<string>, s: Stats): Outcome
    decreases raw
  {
    var name := NormalName(raw.name);
    if name == "" then Ok(nodes, names, s)
    else
      match UniqueName(names, name)
      case None => Endless
      case Some(unique) =>
        if s.nodes + 1 > MAX_WORKSPACE_NODES then TooLarge
        else Placed(raw, depth, nodes, names + {Lower(unique)}, s.(nodes := s.nodes + 1), unique)
  }

  /** A node that has its name and is counted; one of another kind takes both and is dropped. */
  function Placed(raw: Raw, depth: nat, nodes: seq<Node>, names: set<string>, s: Stats, name: string): Outcome
    decreases raw, 0
  {
    if Kind(raw) == "folder" then
      match Normalized(raw.children, depth + 1, s)
      case Ok(children, _, after) => Ok(nodes + [Folder(raw.id, name, children)], names, after)
      case other => other
    else if Kind(raw) == "file" then
      var content := Cut(raw.content, MAX_FILE_CHARS);
      if s.characters + |content| > MAX_WORKSPACE_TOTAL_CONTENT_CHARS then ContentTooLarge
      else Ok(nodes + [File(raw.id, name, Some(content))], names, s.(characters := s.characters + |content|))
    else Ok(nodes, names, s)
  }

  /** The counters that all levels share. */
  class Counters {
    var nodes: nat
    var characters: nat

    constructor ()
      ensures Now() == Stats(0, 0)
    {
      nodes, characters := 0, 0;
    }

    ghost function Now(): Stats
      reads this
    {
      Stats(nodes, characters)
    }
  }

  method NormalizeWorkspaceTree(raws: seq<Raw>, depth: nat, stats: Counters) returns (r: Outcome)
    modifies stats
    ensures r == Normalized(raws, depth, old(stats.Now()))
    ensures r.Ok? ==> stats.Now() == r.stats
    decreases raws, 1
  {
    if depth > MAX_DEPTH { return TooDeep; }
    var nodes: seq<Node>, names: set<string> := [], {};
    ghost var before := stats.Now();
    hide Level, Added;
    for i := 0 to |raws|
      invariant Ok(nodes, names, stats.Now()) == Level(raws[..i], depth, before)
    {
      LevelNext(raws, i, depth, before);
      r := AddNode(raws[i], depth, nodes, names, stats);
      if !r.Ok? {
        LevelFails(raws, i + 1, depth, before);
        return;
      }
      nodes, names := r.nodes, r.names;
    }
    assert raws[..|raws|] == raws;
    return Ok(nodes, names, Stats(stats.nodes, stats.characters));
  }

  /** The loop's body. */
  method AddNode(raw: Raw, depth: nat, nodes: seq<Node>, names: set<string>, stats: Counters) returns (r: Outcome)
    modifies stats
    ensures r == Added(raw, depth, nodes, names, old(stats.Now()))
    ensures r.Ok? ==> stats.Now() == r.stats
    decreases raw, 1
  {
    hide NormalName, UniqueName, Placed;
    var name := NormalName(raw.name);
    if name == "" { return Ok(nodes, names, Stats(stats.nodes, stats.characters)); }
    if UniqueName(names, name).None? { return Endless; }
    var unique, more := BuildUniqueNodeName(names, name);
    stats.nodes := stats.nodes + 1;
    if stats.nodes > MAX_WORKSPACE_NODES { return TooLarge; }
    r := PlaceNode(raw, depth, nodes, more, unique, stats);
  }

  /** The rest of it, once a node has its name and is counted. */
  method PlaceNode(raw: Raw, depth: nat, nodes: seq<Node>, names: set<string>, name: string, stats: Counters)
    returns (r: Outcome)
    modifies stats
    ensures r == Placed(raw, depth, nodes, names, old(stats.Now()), name)
    ensures r.Ok? ==> stats.Now() == r.stats && r.names == names
    decreases raw, 0
  {
    hide Normalized;
    if Kind(raw) == "folder" {
      var inside := NormalizeWorkspaceTree(raw.children, depth + 1, stats);
      if !inside.Ok? { return inside; }
      return Ok(nodes + [Folder(raw.id, name, inside.nodes)], names, inside.stats);
    }
    if Kind(raw) == "file" {
      var content := Cut(raw.content, MAX_FILE_CHARS);
      stats.characters := stats.characters + |content|;
      if stats.characters > MAX_WORKSPACE_TOTAL_CONTENT_CHARS { return ContentTooLarge; }
      return Ok(nodes + [File(raw.id, name, Some(content))], names, Stats(stats.nodes, stats.characters));
    }
    return Ok(nodes, names, Stats(stats.nodes, stats.characters));
  }

  lemma LevelNext(raws: seq<Raw>, i: nat, depth: nat, stats: Stats)
    requires i < |raws|
    ensures Level(raws[..i + 1], depth, stats) == match Level(raws[..i], depth, stats)
      case Ok(nodes, names, s) => Added(raws[i], depth, nodes, names, s)
      case other => other
  {
    assert raws[..i + 1][..i] == raws[..i];
    hide Added;
  }

  /** What fails at a node fails for all. */
  lemma {:induction false} LevelFails(raws: seq<Raw>, i: nat, depth: nat, stats: Stats)
    requires i <= |raws| && !Level(raws[..i], depth, stats).Ok?
    ensures Level(raws, depth, stats) == Level(raws[..i], depth, stats)
    decreases |raws| - i
  {
    hide Level, Added;
    if i < |raws| {
      LevelNext(raws, i, depth, stats);
      LevelFails(raws, i + 1, depth, stats);
    } else {
      assert raws[..i] == raws;
    }
  }

  // ----- what is stored keeps the rules

  function Count(nodes: seq<Node>): nat
    decreases nodes
  {
    if nodes == [] then 0 else Count(nodes[..|nodes| - 1]) + CountOf(nodes[|nodes| - 1])
  }

  function CountOf(node: Node): nat
    decreases node
  {
    match node case Folder(_, _, children) => 1 + Count(children) case File(_, _, _) => 1
  }

  function Chars(nodes: seq<Node>): nat
    decreases nodes
  {
    if nodes == [] then 0 else Chars(nodes[..|nodes| - 1]) + CharsOf(nodes[|nodes| - 1])
  }

  function CharsOf(node: Node): nat
    decreases node
  {
    match node case Folder(_, _, children) => Chars(children) case File(_, _, content) => |TextOf(content)|
  }

  /** Names are good and, in any case of letters, their own; files are not too long, folders not too deep. */
  ghost predicate KeepsRules(nodes: seq<Node>, depth: nat)
    decreases nodes
  {
    && depth <= MAX_DEPTH
    && (forall i, j :: 0 <= i < j < |nodes| ==> Lower(nodes[i].name) != Lower(nodes[j].name))
    && forall i :: 0 <= i < |nodes| ==> NodeKeepsRules(nodes[i], depth)
  }

  ghost predicate NodeKeepsRules(node: Node, depth: nat)
    decreases node
  {
    && GoodName(node.name)
    && match node
       case Folder(_, _, children) => KeepsRules(children, depth + 1)
       case File(_, _, content) => content.Some? && |content.value| <= MAX_FILE_CHARS
  }

  ghost predicate Taken(nodes: seq<Node>, names: set<string>) {
    forall i :: 0 <= i < |nodes| ==> Lower(nodes[i].name) in names
  }

  /** The counters went from `before` to `after` over these nodes, and neither went over its limit. */
  ghost predicate Counts(before: Stats, after: Stats, nodes: seq<Node>, names: set<string>) {
    && before.nodes + Count(nodes) <= after.nodes && before.nodes + |names| <= after.nodes
    && after.characters == before.characters + Chars(nodes)
    && (before.nodes <= MAX_WORKSPACE_NODES ==> after.nodes <= MAX_WORKSPACE_NODES)
    && (before.characters <= MAX_WORKSPACE_TOTAL_CONTENT_CHARS
      ==> after.characters <= MAX_WORKSPACE_TOTAL_CONTENT_CHARS)
  }

  ghost predicate LevelKept(r: Outcome, depth: nat, before: Stats) {
    r.Ok? ==> KeepsRules(r.nodes, depth) && Taken(r.nodes, r.names) && Counts(before, r.stats, r.nodes, r.names)
  }

  /** One node more, with a name of its own. */
  lemma OneMoreKept(nodes: seq<Node>, names: set<string>, depth: nat, node: Node, before: Stats, s: Stats, after: Stats)
    requires LevelKept(Ok(nodes, names, s), depth, before)
    requires NodeKeepsRules(node, depth) && Lower(node.name) !in names
    requires s.nodes + CountOf(node) <= after.nodes && after.characters == s.characters + CharsOf(node)
    requires s.nodes <= MAX_WORKSPACE_NODES ==> after.nodes <= MAX_WORKSPACE_NODES
    requires s.characters <= MAX_WORKSPACE_TOTAL_CONTENT_CHARS ==> after.characters <= MAX_WORKSPACE_TOTAL_CONTENT_CHARS
    ensures LevelKept(Ok(nodes + [node], names + {Lower(node.name)}, after), depth, before)
  {
    assert (nodes + [node])[..|nodes|] == nodes;
    assert CountOf(node) >= 1;
    hide NodeKeepsRules, Lower, CountOf, CharsOf;
  }

  lemma {:induction false} LevelKeeps(raws: seq<Raw>, depth: nat, stats: Stats)
    requires depth <= MAX_DEPTH
    ensures LevelKept(Level(raws, depth, stats), depth, stats)
    decreases raws, 0
  {
    hide LevelKept, Added;
    if raws == [] {
      NoneKept(depth, stats);
    } else {
      var r := Level(raws[..|raws| - 1], depth, stats);
      LevelKeeps(raws[..|raws| - 1], depth, stats);
      if r.Ok? {
        AddedKeeps(raws[|raws| - 1], depth, r.nodes, r.names, r.stats, stats);
      } else {
        FailedKept(r, depth, stats);
      }
    }
  }

  lemma NoneKept(depth: nat, stats: Stats)
    requires depth <= MAX_DEPTH
    ensures LevelKept(Ok([], {}, stats), depth, stats)
  {}

  lemma FailedKept(r: Outcome, depth: nat, stats: Stats)
    requires !r.Ok?
    ensures LevelKept(r, depth, stats)
  {}

  lemma AddedKeeps(raw: Raw, depth: nat, nodes: seq<Node>, names: set<string>, s: Stats, before: Stats)
    requires depth <= MAX_DEPTH && LevelKept(Ok(nodes, names, s), depth, before)
    ensures LevelKept(Added(raw, depth, nodes, names, s), depth, before)
    decreases raw, 1
  {
    hide LevelKept, Placed, NormalName, UniqueName;
    var name := NormalName(raw.name);
    NormalNameGood(raw.name);
    if name != "" && UniqueName(names, name).Some? && s.nodes + 1 <= MAX_WORKSPACE_NODES {
      UniqueNameGood(names, name);
      PlacedKeeps(raw, depth, nodes, names, s, UniqueName(names, name).value, before);
    } else if name != "" {
      FailedKept(Added(raw, depth, nodes, names, s), depth, before);
    }
  }

  lemma PlacedKeeps(raw: Raw, depth: nat, nodes: seq<Node>, names: set<string>, s: Stats, name: string, before: Stats)
    requires depth <= MAX_DEPTH && LevelKept(Ok(nodes, names, s), depth, before) && s.nodes + 1 <= MAX_WORKSPACE_NODES
    requires GoodName(name) && Lower(name) !in names
    ensures LevelKept(Placed(raw, depth, nodes, names + {Lower(name)}, s.(nodes := s.nodes + 1), name), depth, before)
    decreases raw, 0
  {
    hide GoodName, Lower, Cut;
    var counted := s.(nodes := s.nodes + 1);
    if Kind(raw) == "folder" {
      var inside := Normalized(raw.children, depth + 1, counted);
      if depth + 1 <= MAX_DEPTH { LevelKeeps(raw.children, depth + 1, counted); }
      hide Normalized, Count, Chars, KeepsRules, Taken;
      if inside.Ok? {
        OneMoreKept(nodes, names, depth, Folder(raw.id, name, inside.nodes), before, s, inside.stats);
      }
    } else if Kind(raw) == "file" {
      var content := Cut(raw.content, MAX_FILE_CHARS);
      hide Count, Chars, KeepsRules, Taken;
      if s.characters + |content| <= MAX_WORKSPACE_TOTAL_CONTENT_CHARS {
        OneMoreKept(nodes, names, depth, File(raw.id, name, Some(content)), before, s,
          counted.(characters := s.characters + |content|));
      }
    }
  }

  /** Whatever comes in, what is stored keeps the rules, and the limits on all of it. */
  lemma StoredKeepsRules(raws: seq<Raw>)
    ensures var r := Normalized(raws, 0, Stats(0, 0));
      r.Ok? ==>
        && KeepsRules(r.nodes, 0) && Count(r.nodes) <= MAX_WORKSPACE_NODES
        && Chars(r.nodes) <= MAX_WORKSPACE_TOTAL_CONTENT_CHARS
  {
    LevelKeeps(raws, 0, Stats(0, 0));
    hide KeepsRules, Count, Chars, Level;
  }

  // ----- what is stored can be taken out and written back

  lemma {:induction false} RulesName(nodes: seq<Node>, depth: nat, prefix: Path)
    requires KeepsRules(nodes, depth)
    ensures WellNamed(nodes) && AllPresent(Files(nodes, prefix))
    decreases nodes
  {
    hide GoodName, Lower;
    forall i | 0 <= i < |nodes| ensures '/' !in nodes[i].name && (nodes[i].Folder? ==> WellNamed(nodes[i].children)) {
      assert NodeKeepsRules(nodes[i], depth);
      HasNoSlash(nodes[i].name);
      if nodes[i].Folder? { RulesName(nodes[i].children, depth + 1, prefix); }
    }
    if nodes != [] {
      var front, last := nodes[..|nodes| - 1], nodes[|nodes| - 1];
      assert KeepsRules(front, depth) by { assert forall i :: 0 <= i < |front| ==> front[i] == nodes[i]; }
      assert NodeKeepsRules(last, depth);
      RulesName(front, depth, prefix);
      if last.Folder? { RulesName(last.children, depth + 1, prefix + last.name + "/"); }
    }
  }

  lemma HasNoSlash(name: string)
    requires GoodName(name)
    ensures '/' !in name
  {}

  /** Whatever is stored: its files have paths of their own, and a document seeded from it writes back nothing new. */
  lemma {:induction false} StoredSeedsAndWritesBack(raws: seq<Raw>, stored: seq<Node>)
    requires var r := Normalized(raws, 0, Stats(0, 0)); r.Ok? && r.nodes == stored
    ensures DistinctPaths(Files(stored, "")) && Written(stored, "", Flat(Files(stored, ""))) == stored
  {
    StoredKeepsRules(raws);
    hide *;
    RulesName(stored, 0, "");
    PathsIdentify(stored, "");
    SeededWritesBack(stored);
  }

  // ----- when it returns at all

  /** Every name leaves room for a number. */
  ghost predicate Roomy(raws: seq<Raw>)
    decreases raws
  {
    forall i :: 0 <= i < |raws| ==> |BaseOf(NormalName(raws[i].name))| <= 116 && Roomy(raws[i].children)
  }

  lemma {:induction false} RoomyReturns(raws: seq<Raw>, depth: nat, stats: Stats)
    requires Roomy(raws) && depth <= MAX_DEPTH && stats.nodes <= MAX_WORKSPACE_NODES
    ensures Level(raws, depth, stats) != Endless
    decreases raws, 0
  {
    hide Added, BaseOf, NormalName;
    if raws != [] {
      var front, last := raws[..|raws| - 1], raws[|raws| - 1];
      assert Roomy(front) by { assert forall i :: 0 <= i < |front| ==> front[i] == raws[i]; }
      RoomyReturns(front, depth, stats);
      LevelKeeps(front, depth, stats);
      var r := Level(front, depth, stats);
      if r.Ok? {
        hide Level, KeepsRules, Count, Chars;
        RoomyAdded(last, depth, r.nodes, r.names, r.stats);
      }
    }
  }

  lemma RoomyAdded(raw: Raw, depth: nat, nodes: seq<Node>, names: set<string>, s: Stats)
    requires |BaseOf(NormalName(raw.name))| <= 116 && Roomy(raw.children)
    requires depth <= MAX_DEPTH && |names| <= s.nodes <= MAX_WORKSPACE_NODES
    ensures Added(raw, depth, nodes, names, s) != Endless
    decreases raw
  {
    hide *;
    var name := NormalName(raw.name);
    EndsWithin(names, name);
    if name != "" && s.nodes + 1 <= MAX_WORKSPACE_NODES {
      var unique, counted := UniqueName(names, name).value, s.(nodes := s.nodes + 1);
      if depth + 1 <= MAX_DEPTH { RoomyReturns(raw.children, depth + 1, counted); }
      PlacedReturns(raw, depth, nodes, names + {Lower(unique)}, counted, unique);
    }
    AddedReturns(raw, depth, nodes, names, s);
  }

  lemma AddedReturns(raw: Raw, depth: nat, nodes: seq<Node>, names: set<string>, s: Stats)
    requires var name := NormalName(raw.name);
      && UniqueName(names, name).Some?
      && var unique := UniqueName(names, name).value;
         var placed := Placed(raw, depth, nodes, names + {Lower(unique)}, s.(nodes := s.nodes + 1), unique);
         name != "" && s.nodes + 1 <= MAX_WORKSPACE_NODES ==> placed != Endless
    ensures Added(raw, depth, nodes, names, s) != Endless
  {
    hide NormalName, UniqueName, Placed;
  }

  lemma PlacedReturns(raw: Raw, depth: nat, nodes: seq<Node>, names: set<string>, s: Stats, name: string)
    requires depth + 1 <= MAX_DEPTH ==> Level(raw.children, depth + 1, s) != Endless
    ensures Placed(raw, depth, nodes, names, s, name) != Endless
  {
    hide Level;
  }

  // ----- storing again what is stored

  function AsRaws(nodes: seq<Node>): (raws: seq<Raw>)
    ensures |raws| == |nodes|
    decreases nodes
  {
    if nodes == [] then [] else AsRaws(nodes[..|nodes| - 1]) + [AsRaw(nodes[|nodes| - 1])]
  }

  function AsRaw(node: Node): Raw
    decreases node
  {
    match node
    case Folder(id, name, children) => Raw("folder", name, id, "", AsRaws(children))
    case File(id, name, content) => Raw("file", name, id, TextOf(content), [])
  }

  /** No name begins or ends with white space. */
  ghost predicate AllStripped(nodes: seq<Node>)
    decreases nodes
  {
    forall i :: 0 <= i < |nodes| ==>
      Stripped(nodes[i].name) && (nodes[i].Folder? ==> AllStripped(nodes[i].children))
  }

  function LowerNames(nodes: seq<Node>): (names: set<string>)
    ensures forall name :: name in names ==> exists i :: 0 <= i < |nodes| && name == Lower(nodes[i].name)
  {
    set i | 0 <= i < |nodes| :: Lower(nodes[i].name)
  }

  lemma LowerNamesMore(nodes: seq<Node>)
    requires nodes != []
    ensures var front, last := nodes[..|nodes| - 1], nodes[|nodes| - 1];
      LowerNames(nodes) == LowerNames(front) + {Lower(last.name)}
  {
    hide Lower;
    var front := nodes[..|nodes| - 1];
    assert forall i :: 0 <= i < |front| ==> front[i] == nodes[i];
  }

  lemma Kinds()
    ensures forall node: Node :: Kind(AsRaw(node)) == if node.Folder? then "folder" else "file"
  {
    assert Lower("folder") == "folder" && Lower("file") == "file";
    StrippedStays("folder");
    StrippedStays("file");
  }

  /** Nodes that keep the rules come out as they are, if their names are stripped. */
  lemma {:induction false} ComesOutSame(nodes: seq<Node>, depth: nat, stats: Stats)
    requires KeepsRules(nodes, depth) && AllStripped(nodes)
    requires stats.nodes + Count(nodes) <= MAX_WORKSPACE_NODES
    requires stats.characters + Chars(nodes) <= MAX_WORKSPACE_TOTAL_CONTENT_CHARS
    ensures Level(AsRaws(nodes), depth, stats)
      == Ok(nodes, LowerNames(nodes), Stats(stats.nodes + Count(nodes), stats.characters + Chars(nodes)))
    decreases nodes
  {
    hide *;
    if nodes == [] {
      NothingComesOut(depth, stats);
    } else {
      var front, last := nodes[..|nodes| - 1], nodes[|nodes| - 1];
      FrontKeeps(nodes, depth);
      CountsMore(nodes);
      ComesOutSame(front, depth, stats);
      LowerNamesMore(nodes);
      NewName(nodes, depth);
      NodeComesOutSame(last, depth, front, LowerNames(front),
        Stats(stats.nodes + Count(front), stats.characters + Chars(front)));
      LevelLast(nodes, depth, stats);
      assert nodes == front + [last];
    }
  }

  lemma NothingComesOut(depth: nat, stats: Stats)
    ensures Level(AsRaws([]), depth, stats)
      == Ok([], LowerNames([]), Stats(stats.nodes + Count([]), stats.characters + Chars([])))
  {}

  lemma CountsMore(nodes: seq<Node>)
    requires nodes != []
    ensures var front, last := nodes[..|nodes| - 1], nodes[|nodes| - 1];
      Count(nodes) == Count(front) + CountOf(last) && Chars(nodes) == Chars(front) + CharsOf(last)
  {}

  lemma LevelLast(nodes: seq<Node>, depth: nat, stats: Stats)
    requires nodes != []
    ensures Level(AsRaws(nodes), depth, stats) == match Level(AsRaws(nodes[..|nodes| - 1]), depth, stats)
      case Ok(ns, names, s) => Added(AsRaw(nodes[|nodes| - 1]), depth, ns, names, s)
      case other => other
  {
    var raws := AsRaws(nodes);
    assert raws[..|raws| - 1] == AsRaws(nodes[..|nodes| - 1]);
    hide Added;
  }

  lemma {:induction false} FrontKeeps(nodes: seq<Node>, depth: nat)
    requires nodes != [] && KeepsRules(nodes, depth)
    ensures KeepsRules(nodes[..|nodes| - 1], depth) && NodeKeepsRules(nodes[|nodes| - 1], depth)
    ensures AllStripped(nodes) ==> AllStripped(nodes[..|nodes| - 1])
    ensures AllStripped(nodes) <==> AllStripped(nodes[..|nodes| - 1]) && NodeStripped(nodes[|nodes| - 1])
  {
    var front := nodes[..|nodes| - 1];
    assert forall i :: 0 <= i < |front| ==> front[i] == nodes[i];
    hide NodeKeepsRules, Lower, Stripped;
  }

  ghost predicate NodeStripped(node: Node) {
    Stripped(node.name) && (node.Folder? ==> AllStripped(node.children))
  }

  lemma NewName(nodes: seq<Node>, depth: nat)
    requires nodes != [] && KeepsRules(nodes, depth)
    ensures Lower(nodes[|nodes| - 1].name) !in LowerNames(nodes[..|nodes| - 1])
  {
    hide Lower;
  }

  lemma NodeComesOutSame(node: Node, depth: nat, nodes: seq<Node>, names: set<string>, s: Stats)
    requires NodeKeepsRules(node, depth) && NodeStripped(node) && Lower(node.name) !in names
    requires s.nodes + CountOf(node) <= MAX_WORKSPACE_NODES
    requires s.characters + CharsOf(node) <= MAX_WORKSPACE_TOTAL_CONTENT_CHARS
    ensures Added(AsRaw(node), depth, nodes, names, s)
      == Ok(nodes + [node], names + {Lower(node.name)}, Stats(s.nodes + CountOf(node), s.characters + CharsOf(node)))
    decreases node, 1
  {
    NodeRules(node, depth);
    hide *;
    AddedAsNamed(AsRaw(node), depth, nodes, names, s);
    NodePlacedSame(node, depth, nodes, names + {Lower(node.name)}, s.(nodes := s.nodes + 1));
  }

  lemma NodePlacedSame(node: Node, depth: nat, nodes: seq<Node>, names: set<string>, s: Stats)
    requires NodeKeepsRules(node, depth) && NodeStripped(node) && s.nodes >= 1
    requires s.nodes + CountOf(node) - 1 <= MAX_WORKSPACE_NODES
    requires s.characters + CharsOf(node) <= MAX_WORKSPACE_TOTAL_CONTENT_CHARS
    ensures Placed(AsRaw(node), depth, nodes, names, s, node.name)
      == Ok(nodes + [node], names, Stats(s.nodes + CountOf(node) - 1, s.characters + CharsOf(node)))
    decreases node, 0
  {
    NodeRules(node, depth);
    hide *;
    if node.Folder? {
      ComesOutSame(node.children, depth + 1, s);
      PlacedFolder(node, depth, nodes, names, s);
    }
  }

  lemma NodeRules(node: Node, depth: nat)
    requires NodeKeepsRules(node, depth)
    ensures GoodName(node.name) && node.name != "" && AsRaw(node).name == node.name && CountOf(node) >= 1
    ensures node.File? ==> node.content.Some? && |node.content.value| <= MAX_FILE_CHARS
    ensures node.File? ==> CountOf(node) == 1 && CharsOf(node) == |node.content.value|
    ensures node.Folder? ==> KeepsRules(node.children, depth + 1) && (NodeStripped(node) ==> AllStripped(node.children))
    ensures node.Folder? ==> CountOf(node) == 1 + Count(node.children) && CharsOf(node) == Chars(node.children)
    ensures NodeStripped(node) ==> Stripped(node.name)
    ensures depth + 1 <= MAX_DEPTH || node.File?
  {
    hide Stripped, Lower, AllStripped;
  }

  lemma PlacedFolder(node: Node, depth: nat, nodes: seq<Node>, names: set<string>, s: Stats)
    requires node.Folder? && depth + 1 <= MAX_DEPTH
    requires Level(AsRaws(node.children), depth + 1, s)
      == Ok(node.children, LowerNames(node.children),
        Stats(s.nodes + Count(node.children), s.characters + Chars(node.children)))
    ensures Placed(AsRaw(node), depth, nodes, names, s, node.name)
      == Ok(nodes + [node], names, Stats(s.nodes + CountOf(node) - 1, s.characters + CharsOf(node)))
  {
    Kinds();
    hide Level, Kind, AsRaws, LowerNames, Count, Chars;
  }

  lemma AddedAsNamed(raw: Raw, depth: nat, nodes: seq<Node>, names: set<string>, s: Stats)
    requires raw.name != "" && NormalName(raw.name) == raw.name && Lower(raw.name) !in names
      && s.nodes + 1 <= MAX_WORKSPACE_NODES
    ensures Added(raw, depth, nodes, names, s)
      == Placed(raw, depth, nodes, names + {Lower(raw.name)}, s.(nodes := s.nodes + 1), raw.name)
  {
    hide NormalName, Placed, Lower;
  }

  // ----- and only such

  lemma CandidateParts(name: string, k: nat)
    requires name != ""
    ensures var c, base := Candidate(name, k), BaseOf(name);
      && c != "" && c[0] == name[0] && base <= name
      && (|base| < |c| ==> c[|base|] == '-') && (|base| < |name| ==> name[|base|] == '.')
  {
    var base, c := BaseOf(name), Candidate(name, k);
    assert c <= base + "-" + Decimal(k) + SuffixOf(name);
    assert base != "" && c[0] == base[0];
  }

  lemma StrippedPrefix(value: string)
    requires value != "" && !PySpace(value[0])
    ensures var s := Strip(value); s <= value && (|s| < |value| ==> PySpace(value[|s|]))
  {
    TrimEndBefore(value, PySpace);
  }

  lemma StrippedFirst(value: string)
    ensures Strip(value) != "" ==> !PySpace(Strip(value)[0])
  {
    StrippedStays(value);
  }

  /** What a number was put into is not the text it was stripped from, unless that was stripped already. */
  lemma CandidateNotOriginal(value: string, k: nat)
    requires Strip(value) != "" && Candidate(Strip(value), k) == value
    ensures Strip(value) == value
  {
    hide Strip, Candidate, BaseOf;
    CandidateParts(Strip(value), k);
    StrippedFirst(value);
    StrippedPrefix(value);
  }

  lemma {:induction false} NoMoreThanCameIn(raws: seq<Raw>, depth: nat, stats: Stats)
    ensures var r := Level(raws, depth, stats); r.Ok? ==> |r.nodes| <= |raws|
    decreases |raws|
  {
    hide Added;
    if raws != [] {
      var r := Level(raws[..|raws| - 1], depth, stats);
      NoMoreThanCameIn(raws[..|raws| - 1], depth, stats);
      if r.Ok? { OneAtMost(raws[|raws| - 1], depth, r.nodes, r.names, r.stats); }
    }
  }

  lemma OneAtMost(raw: Raw, depth: nat, nodes: seq<Node>, names: set<string>, s: Stats)
    ensures var r := Added(raw, depth, nodes, names, s); r.Ok? ==> nodes <= r.nodes && |r.nodes| <= |nodes| + 1
  {
    hide Normalized, NormalName, UniqueName, Kind;
  }

  /** Nodes that come out as they went in have stripped names. */
  lemma {:induction false} SameIsStripped(nodes: seq<Node>, depth: nat, stats: Stats)
    requires KeepsRules(nodes, depth)
    requires Level(AsRaws(nodes), depth, stats).Ok? && Level(AsRaws(nodes), depth, stats).nodes == nodes
    ensures AllStripped(nodes)
    decreases nodes
  {
    if nodes != [] {
      var front, last := nodes[..|nodes| - 1], nodes[|nodes| - 1];
      hide *;
      FrontKeeps(nodes, depth);
      LevelLast(nodes, depth, stats);
      NoMoreThanCameIn(AsRaws(front), depth, stats);
      var r := Level(AsRaws(front), depth, stats);
      OneAtMost(AsRaw(last), depth, r.nodes, r.names, r.stats);
      SameFront(r.nodes, nodes);
      SameIsStripped(front, depth, stats);
      NodeSameIsStripped(last, depth, front, r.names, r.stats);
    }
  }

  lemma SameFront(some: seq<Node>, nodes: seq<Node>)
    requires nodes != [] && some <= nodes && |some| <= |nodes| - 1 && |nodes| <= |some| + 1
    ensures some == nodes[..|nodes| - 1] && nodes == some + [nodes[|nodes| - 1]]
  {}

  lemma {:induction false} NodeSameIsStripped(node: Node, depth: nat, nodes: seq<Node>, names: set<string>, s: Stats)
    requires NodeKeepsRules(node, depth)
    requires var r := Added(AsRaw(node), depth, nodes, names, s); r.Ok? && r.nodes == nodes + [node]
    ensures NodeStripped(node)
    decreases node
  {
    var name := NormalName(node.name);
    NodeRules(node, depth);
    hide *;
    AddedSame(node, depth, nodes, names, s);
    NameSame(node.name, names);
    if node.Folder? {
      SameIsStripped(node.children, depth + 1, s.(nodes := s.nodes + 1));
    }
  }

  /** What is appended has the unique name, and the children that came out. */
  lemma {:induction false} AddedSame(node: Node, depth: nat, nodes: seq<Node>, names: set<string>, s: Stats)
    requires var r := Added(AsRaw(node), depth, nodes, names, s); r.Ok? && r.nodes == nodes + [node]
    ensures NormalName(node.name) != "" && UniqueName(names, NormalName(node.name)) == Some(node.name)
    ensures node.Folder? ==>
      var inside := Level(AsRaws(node.children), depth + 1, s.(nodes := s.nodes + 1));
      inside.Ok? && inside.nodes == node.children
  {
    hide NormalName, UniqueName, Placed, Lower;
    var unique := UniqueName(names, NormalName(node.name));
    assert |nodes + [node]| == |nodes| + 1;
    if unique.Some? {
      PlacedSame(node, depth, nodes, names + {Lower(unique.value)}, s.(nodes := s.nodes + 1), unique.value);
    }
  }

  lemma PlacedSame(node: Node, depth: nat, nodes: seq<Node>, names: set<string>, s: Stats, name: string)
    ensures var r := Placed(AsRaw(node), depth, nodes, names, s, name);
      r.Ok? && r.nodes == nodes + [node] ==>
        && name == node.name
        && (node.Folder? ==>
            var inside := Level(AsRaws(node.children), depth + 1, s);
            inside.Ok? && inside.nodes == node.children)
  {
    Kinds();
    hide Kind, Level, Cut;
    var r := Placed(AsRaw(node), depth, nodes, names, s, name);
    if r.Ok? && r.nodes == nodes + [node] {
      assert r.nodes[|nodes|] == node;
    }
  }

  lemma NameSame(name: string, names: set<string>)
    requires GoodName(name) && NormalName(name) != "" && UniqueName(names, NormalName(name)) == Some(name)
    ensures Stripped(name)
  {
    StrippedStays(name);
    var s := Strip(name);
    assert |s| <= |name| && NormalName(name) == s;
    if !Free(names, s) {
      CandidateNotOriginal(name, FirstFree(names, s, 2, LAST_TRY).value);
    }
  }

  /** What is stored is stored again as it is, exactly when no name in it begins or ends with white space. */
  lemma {:induction false} StoredAgain(nodes: seq<Node>)
    requires KeepsRules(nodes, 0) && Count(nodes) <= MAX_WORKSPACE_NODES
      && Chars(nodes) <= MAX_WORKSPACE_TOTAL_CONTENT_CHARS
    ensures var r := Normalized(AsRaws(nodes), 0, Stats(0, 0));
      r.Ok? && r.nodes == nodes <==> AllStripped(nodes)
  {
    var r := Normalized(AsRaws(nodes), 0, Stats(0, 0));
    hide Level, KeepsRules, AllStripped, Count, Chars, AsRaws;
    if AllStripped(nodes) { ComesOutSame(nodes, 0, Stats(0, 0)); }
    if r.Ok? && r.nodes == nodes { SameIsStripped(nodes, 0, Stats(0, 0)); }
  }

  lemma OneFileStored(id: string, name: string)
    requires NormalName(name) != ""
    ensures Normalized([Raw("file", name, id, "", [])], 0, Stats(0, 0))
      == Ok([File(id, NormalName(name), Some(""))], {Lower(NormalName(name))}, Stats(1, 0))
  {
    var raw := Raw("file", name, id, "", []);
    assert [raw][..0] == [] && [raw][|[raw]| - 1] == raw;
    StrippedStays("file");
    assert Kind(raw) == "file";
    hide NormalName, Kind, Lower;
    assert Level([], 0, Stats(0, 0)) == Ok([], {}, Stats(0, 0));
    assert Added(raw, 0, [], {}, Stats(0, 0))
      == Ok([File(id, NormalName(name), Some(""))], {Lower(NormalName(name))}, Stats(1, 0));
  }

  lemma OneFileAgain(id: string, name: string)
    ensures AsRaws([File(id, name, Some(""))]) == [Raw("file", name, id, "", [])]
  {
    var nodes := [File(id, name, Some(""))];
    assert nodes[..0] == [] && nodes[|nodes| - 1] == File(id, name, Some(""));
    assert AsRaws([]) == [];
  }

  lemma CutNames(front: string, rest: string)
    requires |front| == 119 && Stripped(front) && rest != "" && Stripped(rest) && '/' !in front + rest
      && '\\' !in front + rest
    ensures NormalName(front + " " + rest) == front + " " && NormalName(front + " ") == front
  {
    var value := front + " " + rest;
    assert value[0] == front[0] && value[|value| - 1] == rest[|rest| - 1];
    StrippedStays(value);
    forall c | c in value ensures c in front + rest || c == ' ' {
      assert c in front || c in " " || c in rest;
    }
    assert value[..LONGEST_NAME] == front + " ";
    SpaceStripped(front);
    assert forall c :: c in front ==> c in front + rest;
  }

  lemma SpaceStripped(front: string)
    requires front != "" && Stripped(front)
    ensures Strip(front + " ") == front
  {
    var value := front + " ";
    assert value[..|value| - 1] == front && value[0] == front[0];
    assert TrimStart(value, PySpace) == value;
    assert TrimEnd(front, PySpace) == front;
  }

  /**
   * Cutting a name to length can leave white space at its end: such a file is stored by a name that is
   * changed when what was stored is stored again.
   */
  lemma CutLeavesSpace(id: string, front: string, rest: string)
    requires |front| == 119 && Stripped(front) && rest != "" && Stripped(rest) && '/' !in front + rest
      && '\\' !in front + rest
    ensures var stored := Normalized([Raw("file", front + " " + rest, id, "", [])], 0, Stats(0, 0));
      && stored.Ok? && stored.nodes == [File(id, front + " ", Some(""))]
      && var again := Normalized(AsRaws(stored.nodes), 0, Stats(0, 0));
         again.Ok? && again.nodes == [File(id, front, Some(""))]
  {
    CutNames(front, rest);
    hide *;
    OneFileStored(id, front + " " + rest);
    OneFileAgain(id, front + " ");
    OneFileStored(id, front + " ");
  }
}
