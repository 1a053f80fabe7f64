/**
 * A room's stored tree and the texts of its files by path: seeding the shared document from the one, and
 * writing the other back into it.
 */
module RoomTree {
  import opened Strings

  type Path = string

  /** A file's content may be missing. */
  datatype Node =
    | Folder(id: string, name: string, children: seq<Node>)
    | File(id: string, name: string, content: Option<string>)

  // ----- the files of a tree

  datatype Entry = Entry(path: Path, content: Option<string>)

  /** All files with their paths, in the order of the walk. */
  function Files(nodes: seq<Node>, prefix: Path): seq<Entry>
    decreases nodes
  {
    if nodes == [] then [] else Files(nodes[..|nodes| - 1], prefix) + FilesOf(nodes[|nodes| - 1], prefix)
  }

  function FilesOf(node: Node, prefix: Path): seq<Entry>
    decreases node
  {
    match node
    case Folder(_, name, children) => Files(children, prefix + name + "/")
    case File(_, name, content) => [Entry(prefix + name, content)]
  }

  function TextOf(content: Option<string>): string {
    if content.Some? then content.value else ""
  }

  /** By path; of two files at one path, the later. */
  function Flat(entries: seq<Entry>): (flat: map<Path, string>)
    decreases |entries|
  {
    if entries == [] then map[] else
      var e := entries[|entries| - 1];
      Flat(entries[..|entries| - 1])[e.path := TextOf(e.content)]
  }

  /** A file's path is its name, after those of its folders with slashes between; without content it is empty. */
  lemma PathsTell(id: string, folder: string, other: string, name: string, content: Option<string>)
    ensures var files := [File(id, name, content)];
      && Files(files, "") == [Entry(name, content)]
      && Files([Folder(other, folder, files)], "") == [Entry(folder + "/" + name, content)]
      && Flat(Files(files, "")) == map[name := if content == None then "" else content.value]
  {
    var file, files := File(id, name, content), [File(id, name, content)];
    assert files[..0] == [] && "" + name == name && "" + folder + "/" == folder + "/";
    assert Files(files, "") == [] + FilesOf(file, "");
    assert Files(files, folder + "/") == [] + FilesOf(file, folder + "/");
    var above := Folder(other, folder, files);
    assert [above][..0] == [];
    assert Files([above], "") == [] + FilesOf(above, "");
  }

  // ----- the shared document

  class RoomDoc {
    var files: map<Path, string>

    constructor ()
      ensures files == map[]
    {
      files := map[];
    }

    /** What the document has already stays as it is. */
    method SeedFromTree(tree: seq<Node>)
      modifies this
      ensures files == Flat(Files(tree, "")) + old(files)
    {
      var flat := Walk(tree, "", map[]);
      assert Flat([]) == map[];
      files := flat + files;
    }

    /** The recursive walk, filling `flat`. */
    method Walk(nodes: seq<Node>, prefix: Path, flat: map<Path, string>) returns (more: map<Path, string>)
      ensures more == flat + Flat(Files(nodes, prefix))
      decreases nodes
    {
      more := flat;
      assert Files(nodes[..0], prefix) == [] && flat + Flat([]) == flat;
      hide Flat, Files;
      for i := 0 to |nodes|
        invariant more == flat + Flat(Files(nodes[..i], prefix))
      {
        FlatNext(nodes, i, prefix, flat);
        match nodes[i]
        case Folder(_, name, children) => more := Walk(children, prefix + name + "/", more);
        case File(_, name, content) =>
          OneFlat(more, Entry(prefix + name, content));
          more := more[prefix + name := TextOf(content)];
      }
      assert nodes[..|nodes|] == nodes;
    }

    function Snapshot(): map<Path, string>
      reads this
    {
      files
    }
  }

  lemma FilesNext(nodes: seq<Node>, i: nat, prefix: Path)
    requires i < |nodes|
    ensures Files(nodes[..i + 1], prefix) == Files(nodes[..i], prefix) + FilesOf(nodes[i], prefix)
  {
    assert nodes[..i + 1][..i] == nodes[..i];
  }

  lemma FlatNext(nodes: seq<Node>, i: nat, prefix: Path, flat: map<Path, string>)
    requires i < |nodes|
    ensures flat + Flat(Files(nodes[..i + 1], prefix))
      == flat + Flat(Files(nodes[..i], prefix)) + Flat(FilesOf(nodes[i], prefix))
  {
    hide Flat, Files, FilesOf;
    FilesNext(nodes, i, prefix);
    FlatConcat(Files(nodes[..i], prefix), FilesOf(nodes[i], prefix));
  }

  lemma OneFlat(flat: map<Path, string>, e: Entry)
    ensures flat + Flat([e]) == flat[e.path := TextOf(e.content)]
  {
    assert [e][..0] == [];
    assert Flat([e]) == map[e.path := TextOf(e.content)];
  }

  lemma {:induction false} FlatConcat(a: seq<Entry>, b: seq<Entry>)
    ensures Flat(a + b) == Flat(a) + Flat(b)
    decreases |b|
  {
    if b == [] {
      assert a + b == a;
    } else {
      assert (a + b)[..|a + b| - 1] == a + b[..|b| - 1];
      FlatConcat(a, b[..|b| - 1]);
    }
  }

  // ----- writing back

  /** Every file whose path has a text gets it. */
  function Written(nodes: seq<Node>, prefix: Path, files: map<Path, string>): (r: seq<Node>)
    ensures |r| == |nodes|
    decreases nodes
  {
    if nodes == [] then [] else
      Written(nodes[..|nodes| - 1], prefix, files) + [WrittenNode(nodes[|nodes| - 1], prefix, files)]
  }

  function WrittenNode(node: Node, prefix: Path, files: map<Path, string>): Node
    decreases node
  {
    match node
    case Folder(id, name, children) => Folder(id, name, Written(children, prefix + name + "/", files))
    case File(id, name, content) => if prefix + name in files then File(id, name, Some(files[prefix + name])) else node
  }

  /** `replace_room_file_contents`: the tree as it becomes, and whether it is to be stored. */
  method ReplaceFileContents(nodes: seq<Node>, prefix: Path, files: map<Path, string>)
    returns (tree: seq<Node>, changed: bool)
    ensures tree == Written(nodes, prefix, files)
    ensures changed <==> tree != nodes
    decreases nodes
  {
    tree, changed := [], false;
    assert Written(nodes[..0], prefix, files) == [];
    hide Written;
    for i := 0 to |nodes|
      invariant tree == Written(nodes[..i], prefix, files)
      invariant changed <==> tree != nodes[..i]
    {
      var node, now := nodes[i], nodes[i];
      match node
      {
        case Folder(id, name, children) =>
          var inside, some := ReplaceFileContents(children, prefix + name + "/", files);
          now, changed := Folder(id, name, inside), changed || some;
        case File(id, name, content) =>
          if prefix + name in files && content != Some(files[prefix + name]) {
            now, changed := File(id, name, Some(files[prefix + name])), true;
          }
      }
      WrittenNext(nodes, i, prefix, files);
      tree := tree + [now];
    }
    assert nodes[..|nodes|] == nodes;
  }

  lemma WrittenNext(nodes: seq<Node>, i: nat, prefix: Path, files: map<Path, string>)
    requires i < |nodes|
    ensures Written(nodes[..i + 1], prefix, files)
      == Written(nodes[..i], prefix, files) + [WrittenNode(nodes[i], prefix, files)]
    ensures nodes[..i + 1] == nodes[..i] + [nodes[i]]
  {
    assert nodes[..i + 1][..i] == nodes[..i];
  }

  function Rewritten(entries: seq<Entry>, files: map<Path, string>): (r: seq<Entry>)
    ensures |r| == |entries|
  {
    seq(|entries|, i requires 0 <= i < |entries| =>
      var e := entries[i]; if e.path in files then Entry(e.path, Some(files[e.path])) else e)
  }

  /** Writing back changes the contents at the paths it is given, and no path. */
  lemma {:induction false} FilesOfWritten(nodes: seq<Node>, prefix: Path, files: map<Path, string>)
    ensures Files(Written(nodes, prefix, files), prefix) == Rewritten(Files(nodes, prefix), files)
    decreases nodes
  {
    if nodes != [] {
      var front, last := nodes[..|nodes| - 1], nodes[|nodes| - 1];
      FilesOfWritten(front, prefix, files);
      var w := Written(nodes, prefix, files);
      assert w[..|w| - 1] == Written(front, prefix, files);
      match last
      case Folder(_, name, children) =>
        FilesOfWritten(children, prefix + name + "/", files);
      case File(_, name, content) =>
    }
  }

  /** The map updated by another, at its own keys. */
  function Updated(flat: map<Path, string>, files: map<Path, string>): map<Path, string> {
    map p | p in flat :: if p in files then files[p] else flat[p]
  }

  lemma {:induction false} FlatOfRewritten(entries: seq<Entry>, files: map<Path, string>)
    ensures Flat(Rewritten(entries, files)) == Updated(Flat(entries), files)
    decreases |entries|
  {
    if entries != [] {
      var front := entries[..|entries| - 1];
      FlatOfRewritten(front, files);
      assert Rewritten(entries, files)[..|front|] == Rewritten(front, files);
    }
  }

  /** What is written back is what is taken out next, at the paths there are. */
  lemma WrittenReadsBack(tree: seq<Node>, files: map<Path, string>)
    ensures Flat(Files(Written(tree, "", files), "")) == Updated(Flat(Files(tree, "")), files)
  {
    FilesOfWritten(tree, "", files);
    FlatOfRewritten(Files(tree, ""), files);
  }

  /** A tree without its contents. */
  function Shape(nodes: seq<Node>): (r: seq<Node>)
    ensures |r| == |nodes|
    decreases nodes
  {
    if nodes == [] then [] else
      Shape(nodes[..|nodes| - 1])
        + [match nodes[|nodes| - 1]
           case Folder(id, name, children) => Folder(id, name, Shape(children))
           case File(id, name, _) => File(id, name, None)]
  }

  /** Ids, names, folders and order stay. */
  lemma {:induction false} WrittenKeepsShape(nodes: seq<Node>, prefix: Path, files: map<Path, string>)
    ensures Shape(Written(nodes, prefix, files)) == Shape(nodes)
    decreases nodes
  {
    if nodes != [] {
      var front, last := nodes[..|nodes| - 1], nodes[|nodes| - 1];
      WrittenKeepsShape(front, prefix, files);
      var w := Written(nodes, prefix, files);
      assert w[..|w| - 1] == Written(front, prefix, files);
      if last.Folder? { WrittenKeepsShape(last.children, prefix + last.name + "/", files); }
    }
  }

  // ----- paths identify files

  ghost predicate WellNamed(nodes: seq<Node>)
    decreases nodes
  {
    && (forall i, j :: 0 <= i < j < |nodes| ==> nodes[i].name != nodes[j].name)
    && forall i :: 0 <= i < |nodes| ==> '/' !in nodes[i].name && (nodes[i].Folder? ==> WellNamed(nodes[i].children))
  }

  /** The path of something in a folder's `prefix`: the name there, to the end or to a slash. */
  ghost predicate Begins(path: Path, prefix: Path, name: string) {
    && |path| >= |prefix + name| && path[..|prefix + name|] == prefix + name
    && (|path| > |prefix + name| ==> path[|prefix + name|] == '/')
  }

  lemma NameInPath(path: Path, prefix: Path, a: string, b: string)
    requires Begins(path, prefix, a) && Begins(path, prefix, b)
    ensures |a| < |b| ==> '/' in b
    ensures |a| == |b| ==> a == b
  {
    assert a == path[..|prefix + a|][|prefix|..] && b == path[..|prefix + b|][|prefix|..];
    if |a| < |b| { assert b[|a|] == path[|prefix + a|]; }
  }

  lemma {:induction false} FilesBegin(nodes: seq<Node>, prefix: Path)
    ensures forall e :: e in Files(nodes, prefix) ==> exists i :: 0 <= i < |nodes| && e in FilesOf(nodes[i], prefix)
    ensures forall e :: e in Files(nodes, prefix) ==> prefix <= e.path
    decreases nodes
  {
    if nodes != [] {
      var last := nodes[|nodes| - 1];
      FilesBegin(nodes[..|nodes| - 1], prefix);
      FilesOfBegin(last, prefix);
      forall e | e in Files(nodes, prefix) ensures exists i :: 0 <= i < |nodes| && e in FilesOf(nodes[i], prefix) {
        if e in Files(nodes[..|nodes| - 1], prefix) {
          var i :| 0 <= i < |nodes| - 1 && e in FilesOf(nodes[..|nodes| - 1][i], prefix);
          assert e in FilesOf(nodes[i], prefix);
        }
      }
    }
  }

  lemma FilesOfBegin(node: Node, prefix: Path)
    ensures forall e :: e in FilesOf(node, prefix) ==> Begins(e.path, prefix, node.name)
    decreases node
  {
    if node.Folder? {
      var inner := prefix + node.name + "/";
      FilesBegin(node.children, inner);
      forall e | e in FilesOf(node, prefix) ensures Begins(e.path, prefix, node.name) {
        assert e.path[..|inner|] == inner;
      }
    }
  }

  ghost predicate DistinctPaths(entries: seq<Entry>) {
    forall i, j :: 0 <= i < j < |entries| ==> entries[i].path != entries[j].path
  }

  /** In a tree with slash-free names, distinct in each folder, no two files have one path. */
  lemma {:induction false} PathsIdentify(nodes: seq<Node>, prefix: Path)
    requires WellNamed(nodes)
    ensures DistinctPaths(Files(nodes, prefix))
    decreases nodes
  {
    if nodes != [] {
      var front, last := nodes[..|nodes| - 1], nodes[|nodes| - 1];
      PathsIdentify(front, prefix);
      if last.Folder? { PathsIdentify(last.children, prefix + last.name + "/"); }
      var a, b := Files(front, prefix), FilesOf(last, prefix);
      forall e, f | e in a && f in b ensures e.path != f.path { ApartFromLast(nodes, prefix, e, f); }
      assert forall i :: 0 <= i < |a| ==> a[i] in a;
      assert forall i :: 0 <= i < |b| ==> b[i] in b;
      hide Files, FilesOf, WellNamed;
      assert Files(nodes, prefix) == a + b;
    }
  }

  lemma ApartFromLast(nodes: seq<Node>, prefix: Path, e: Entry, f: Entry)
    requires nodes != [] && WellNamed(nodes)
    requires e in Files(nodes[..|nodes| - 1], prefix) && f in FilesOf(nodes[|nodes| - 1], prefix)
    ensures e.path != f.path
  {
    var front, last := nodes[..|nodes| - 1], nodes[|nodes| - 1];
    FilesBegin(front, prefix);
    var i :| 0 <= i < |front| && e in FilesOf(front[i], prefix);
    FilesOfBegin(front[i], prefix);
    FilesOfBegin(last, prefix);
    assert front[i] == nodes[i];
    hide Files, FilesOf;
    if e.path == f.path {
      NameInPath(e.path, prefix, nodes[i].name, last.name);
      NameInPath(e.path, prefix, last.name, nodes[i].name);
    }
  }

  // ----- writing back what was taken out

  lemma {:induction false} FlatOfDistinct(entries: seq<Entry>)
    requires DistinctPaths(entries)
    ensures forall e :: e in entries ==> e.path in Flat(entries) && Flat(entries)[e.path] == TextOf(e.content)
    ensures forall p :: p in Flat(entries) ==> exists e :: e in entries && e.path == p
    decreases |entries|
  {
    if entries != [] {
      var front, last := entries[..|entries| - 1], entries[|entries| - 1];
      FlatOfDistinct(front);
      forall p | p in Flat(entries) ensures exists e :: e in entries && e.path == p {
        if p in Flat(front) {
          var e :| e in front && e.path == p;
          assert e in entries;
        } else {
          assert last in entries;
        }
      }
      forall e | e in entries ensures e.path in Flat(entries) && Flat(entries)[e.path] == TextOf(e.content) {
        if e != last { assert e in front; }
      }
    }
  }

  ghost predicate AllPresent(entries: seq<Entry>) {
    forall e :: e in entries ==> e.content.Some?
  }

  lemma {:induction false} WrittenSame(nodes: seq<Node>, prefix: Path, files: map<Path, string>)
    ensures Written(nodes, prefix, files) == nodes <==> Rewritten(Files(nodes, prefix), files) == Files(nodes, prefix)
    decreases nodes
  {
    if nodes != [] {
      var front, last := nodes[..|nodes| - 1], nodes[|nodes| - 1];
      WrittenSame(front, prefix, files);
      WrittenNodeSame(last, prefix, files);
      assert nodes == front + [last];
      hide Written, WrittenNode, Rewritten, FilesOf;
      SameParts(Files(front, prefix), Rewritten(Files(front, prefix), files), FilesOf(last, prefix),
        Rewritten(FilesOf(last, prefix), files));
    }
  }

  lemma WrittenNodeSame(node: Node, prefix: Path, files: map<Path, string>)
    ensures WrittenNode(node, prefix, files) == node
      <==> Rewritten(FilesOf(node, prefix), files) == FilesOf(node, prefix)
    decreases node
  {
    match node
    case Folder(_, name, children) => WrittenSame(children, prefix + name + "/", files);
    case File(_, name, content) =>
      var e := Entry(prefix + name, content);
      assert Rewritten([e], files)[0] == if e.path in files then Entry(e.path, Some(files[e.path])) else e;
      assert [e][0] == e;
  }

  lemma SameParts(a: seq<Entry>, c: seq<Entry>, b: seq<Entry>, d: seq<Entry>)
    requires |a| == |c| && |b| == |d|
    ensures c + d == a + b <==> c == a && d == b
  {
    if c + d == a + b {
      assert (c + d)[..|c|] == c && (a + b)[..|a|] == a && (c + d)[|c|..] == d && (a + b)[|a|..] == b;
    }
  }

  /** Writing back what was taken out changes nothing, exactly when no file's content is missing. */
  lemma SeededWritesBack(tree: seq<Node>)
    requires WellNamed(tree)
    ensures Written(tree, "", Flat(Files(tree, ""))) == tree <==> AllPresent(Files(tree, ""))
  {
    var entries := Files(tree, "");
    PathsIdentify(tree, "");
    WrittenSame(tree, "", Flat(entries));
    FlatOfDistinct(entries);
    hide Files, Flat, Written, WellNamed, DistinctPaths;
    var r := Rewritten(entries, Flat(entries));
    forall i | 0 <= i < |entries| ensures r[i] == Entry(entries[i].path, Some(TextOf(entries[i].content))) {
      assert entries[i] in entries;
    }
    if AllPresent(entries) { assert r == entries; }
    if r == entries {
      forall e | e in entries ensures e.content.Some? {
        var i :| 0 <= i < |entries| && entries[i] == e;
        assert r[i] == entries[i];
      }
    }
  }
}
