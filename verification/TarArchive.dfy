/**
 * The archive of a room's files with their folders: which entries there are, in which order, and the bytes that
 * the loops write for them.
 */
module TarArchive {
  import opened Strings
  import opened Bytes
  import opened TarFields
  import opened TarPaths
  import opened Ustar

  datatype BoxFile = BoxFile(path: Buffer, data: Buffer)

  /** An entry to be written: a file, or a folder with its trailing slash. */
  datatype Item = Item(path: Buffer, data: Buffer, folder: bool)

  function FolderItem(folder: Buffer): Item {
    Item(folder + [SLASH], [], true)
  }

  function Fill(n: nat): nat {
    (512 - n % 512) % 512
  }

  /** One entry's bytes; nothing when its path does not fit the format. */
  function Block(i: Item): Buffer {
    match HeaderOf(i.path, |i.data|, i.folder)
    case None => []
    case Some(header) => header + i.data + Zeros(Fill(|i.data|))
  }

  function Blocks(items: seq<Item>): Buffer
    decreases |items|
  {
    if items == [] then [] else Block(items[0]) + Blocks(items[1..])
  }

  /** The folders above a path, from the top. */
  function FolderList(path: Buffer): (fs: seq<Buffer>)
  {
    var pieces := Split(path, SLASH);
    seq(|pieces| - 1, d requires 0 <= d < |pieces| - 1 => Join(pieces[..d + 1], SLASH))
  }

  function Members(fs: seq<Buffer>): set<Buffer> {
    set f | f in fs
  }

  /** An entry for each folder that has none yet. */
  function NewFolders(fs: seq<Buffer>, seen: set<Buffer>): seq<Item>
    decreases |fs|
  {
    if fs == [] then []
    else if fs[0] in seen then NewFolders(fs[1..], seen)
    else [FolderItem(fs[0])] + NewFolders(fs[1..], seen + {fs[0]})
  }

  /** The entries of these files, each after its folders. */
  function ItemsOf(files: seq<BoxFile>, seen: set<Buffer>): seq<Item>
    decreases |files|
  {
    if files == [] then [] else
      var fs := FolderList(files[0].path);
      NewFolders(fs, seen) + [Item(files[0].path, files[0].data, false)] + ItemsOf(files[1..], seen + Members(fs))
  }

  method TarOf(files: seq<BoxFile>) returns (out: Buffer)
    requires forall f :: f in files ==> |f.data| <= MAX_SAFE
    ensures out == Blocks(ItemsOf(files, {})) + Zeros(1024)
  {
    out := [];
    var folders: set<Buffer> := {};
    ghost var all := Blocks(ItemsOf(files, {}));
    assert files[0..] == files && [] + all == all;
    hide *;
    for n := 0 to |files|
      invariant out + Blocks(ItemsOf(files[n..], folders)) == all
    {
      var file := files[n];
      assert file in files;
      ghost var rest := ItemsOf(files[n + 1..], folders + Members(FolderList(file.path)));
      FileItems(files, n, folders);
      out, folders := AddFolders(file.path, folders, out, [Item(file.path, file.data, false)] + rest);
      var header := TarHeader(file.path, |file.data|, false);
      FileBlock(file, out, rest);
      if header.Some? { out := out + header.value + file.data + Zeros(Fill(|file.data|)); }
    }
    assert files[|files|..] == [];
    assert out + [] == out;
    out := out + Zeros(1024);
  }

  /** The inner loop: headers for the folders above a path that have none yet. */
  method AddFolders(path: Buffer, folders: set<Buffer>, out: Buffer, ghost last: seq<Item>)
    returns (more: Buffer, known: set<Buffer>)
    ensures known == folders + Members(FolderList(path))
    ensures more + Blocks(last) == out + Blocks(NewFolders(FolderList(path), folders) + last)
  {
    more, known := out, folders;
    var pieces := Split(path, SLASH);
    ghost var fs := FolderList(path);
    ghost var all := out + Blocks(NewFolders(fs, folders) + last);
    assert fs[0..] == fs;
    hide *;
    for depth := 1 to |pieces|
      invariant more + Blocks(NewFolders(fs[depth - 1..], known) + last) == all
      invariant known + Members(fs[depth - 1..]) == folders + Members(fs)
    {
      var folder := Join(pieces[..depth], SLASH);
      FolderStep(path, depth, known, last);
      if folder !in known {
        known := known + {folder};
        var header := TarHeader(folder + [SLASH], 0, true);
        FolderBlock(folder, more, Blocks(NewFolders(fs[depth..], known) + last));
        if header.Some? { more := more + header.value; }
      }
    }
    NoFolders(fs, known, last);
  }

  lemma FileItems(files: seq<BoxFile>, n: nat, folders: set<Buffer>)
    requires n < |files|
    ensures var fs := FolderList(files[n].path); var after := folders + Members(fs);
      ItemsOf(files[n..], folders)
        == NewFolders(fs, folders) + ([Item(files[n].path, files[n].data, false)] + ItemsOf(files[n + 1..], after))
  {
    assert files[n..][1..] == files[n + 1..];
  }

  lemma FolderStep(path: Buffer, depth: nat, folders: set<Buffer>, last: seq<Item>)
    requires 1 <= depth < |Split(path, SLASH)|
    ensures var fs := FolderList(path); var folder := Join(Split(path, SLASH)[..depth], SLASH);
      && |fs| == |Split(path, SLASH)| - 1
      && Members(fs[depth - 1..]) == {folder} + Members(fs[depth..])
      && (folder in folders ==> NewFolders(fs[depth - 1..], folders) == NewFolders(fs[depth..], folders))
      && (folder in folders || Blocks(NewFolders(fs[depth - 1..], folders) + last)
        == Block(FolderItem(folder)) + Blocks(NewFolders(fs[depth..], folders + {folder}) + last))
  {
    var fs := FolderList(path);
    var folder := Join(Split(path, SLASH)[..depth], SLASH);
    assert fs[depth - 1] == folder;
    hide Split, Join, FolderList, Block;
    assert fs[depth - 1..] == [folder] + fs[depth..];
    var item, more := FolderItem(folder), NewFolders(fs[depth..], folders + {folder});
    assert ([item] + (more + last))[1..] == more + last;
    assert [item] + more + last == [item] + (more + last);
  }

  lemma FolderBlock(folder: Buffer, out: Buffer, more: Buffer)
    ensures var block := Block(FolderItem(folder));
      var header := HeaderOf(folder + [SLASH], 0, true);
      out + (block + more) == (if header.Some? then out + header.value else out) + more
  {
    hide HeaderOf;
    var header := HeaderOf(folder + [SLASH], 0, true);
    if header.Some? {
      assert header.value + [] + Zeros(Fill(0)) == header.value;
      assert out + (header.value + more) == out + header.value + more;
    } else {
      assert out + ([] + more) == out + more;
    }
  }

  lemma FileBlock(file: BoxFile, out: Buffer, rest: seq<Item>)
    ensures var header := HeaderOf(file.path, |file.data|, false);
      out + Blocks([Item(file.path, file.data, false)] + rest)
        == (if header.Some? then out + header.value + file.data + Zeros(Fill(|file.data|)) else out) + Blocks(rest)
  {
    hide *;
    var item := Item(file.path, file.data, false);
    var header := HeaderOf(file.path, |file.data|, false);
    BlocksFirst(item, rest);
    BlockIs(item);
    if header.Some? {
    } else {
      assert out + ([] + Blocks(rest)) == out + Blocks(rest);
    }
  }

  lemma BlocksFirst(item: Item, rest: seq<Item>)
    ensures Blocks([item] + rest) == Block(item) + Blocks(rest)
  {
    hide Block;
    assert ([item] + rest)[1..] == rest;
  }

  lemma BlockIs(i: Item)
    ensures var header := HeaderOf(i.path, |i.data|, i.folder);
      Block(i) == if header.Some? then header.value + i.data + Zeros(Fill(|i.data|)) else []
  {
    hide HeaderOf;
  }

  lemma NoFolders(fs: seq<Buffer>, folders: set<Buffer>, last: seq<Item>)
    ensures NewFolders(fs[|fs|..], folders) + last == last && folders + Members(fs[|fs|..]) == folders
  {}

  // ----- which entries there are

  /** A folder above a path ends just before one of its slashes, and every slash ends one. */
  lemma FolderListExact(path: Buffer, f: Buffer)
    ensures f in FolderList(path) <==> |f| < |path| && path[..|f|] == f && path[|f|] == SLASH
  {
    var fs := FolderList(path);
    hide Split, Join;
    if f in fs {
      var d :| 0 <= d < |fs| && fs[d] == f;
      FolderSplits(path, d + 1);
    }
    if |f| < |path| && path[..|f|] == f && path[|f|] == SLASH {
      SlashSplits(path, |f|);
      assert fs[|Split(f, SLASH)| - 1] == f;
    }
  }

  lemma FolderSplits(path: Buffer, depth: nat)
    requires 1 <= depth < |Split(path, SLASH)|
    ensures var f := Join(Split(path, SLASH)[..depth], SLASH);
      |f| < |path| && path[..|f|] == f && path[|f|] == SLASH
  {
    var pieces := Split(path, SLASH);
    JoinSplit(path, SLASH);
    hide Split;
    JoinApart(pieces[..depth], pieces[depth..], SLASH);
    assert pieces[..depth] + pieces[depth..] == pieces;
  }

  lemma {:induction false} JoinApart(a: seq<Buffer>, b: seq<Buffer>, c: Byte)
    requires a != [] && b != []
    ensures Join(a + b, c) == Join(a, c) + [c] + Join(b, c)
    decreases |a|
  {
    assert (a + b)[1..] == a[1..] + b;
    if |a| > 1 {
      JoinApart(a[1..], b, c);
      assert a[0] + [c] + (Join(a[1..], c) + [c] + Join(b, c)) == a[0] + [c] + Join(a[1..], c) + [c] + Join(b, c);
    } else {
      assert a[1..] + b == b;
    }
  }

  lemma SlashSplits(path: Buffer, k: nat)
    requires k < |path| && path[k] == SLASH
    ensures var front := Split(path[..k], SLASH); var pieces := Split(path, SLASH);
      |front| < |pieces| && Join(pieces[..|front|], SLASH) == path[..k]
  {
    assert path == path[..k] + [SLASH] + path[k + 1..];
    SplitAt(path[..k], path[k + 1..]);
    hide Split;
    JoinSplit(path[..k], SLASH);
    assert Split(path, SLASH)[..|Split(path[..k], SLASH)|] == Split(path[..k], SLASH);
  }

  lemma {:induction false} SplitAt(a: Buffer, b: Buffer)
    ensures Split(a + [SLASH] + b, SLASH) == Split(a, SLASH) + Split(b, SLASH)
    decreases |a|
  {
    hide Split, IndexOf;
    var i := IndexOf(a, SLASH);
    if i == |a| {
      SplitFirst(a, b, SLASH);
      SplitWhole(a, SLASH);
    } else {
      var front, back := a[..i], a[i + 1..];
      assert a == front + [SLASH] + back;
      SplitAt(back, b);
      SplitFirst(front, back, SLASH);
      assert a + [SLASH] + b == front + [SLASH] + (back + [SLASH] + b);
      SplitFirst(front, back + [SLASH] + b, SLASH);
      assert [front] + (Split(back, SLASH) + Split(b, SLASH)) == [front] + Split(back, SLASH) + Split(b, SLASH);
    }
  }

  /** The folders of one path come from the top down. */
  lemma FolderListGrows(path: Buffer, d: nat, e: nat)
    requires d < e < |FolderList(path)|
    ensures |FolderList(path)[d]| < |FolderList(path)[e]|
  {
    var pieces := Split(path, SLASH);
    hide Split;
    assert pieces[..e + 1] == pieces[..d + 1] + pieces[d + 1..e + 1];
    JoinApart(pieces[..d + 1], pieces[d + 1..e + 1], SLASH);
  }

  /** How much of an entry's path can hold folders above it: a folder's own slash does not count. */
  function Above(i: Item): nat {
    if i.folder && i.path != [] then |i.path| - 1 else |i.path|
  }

  /** Folder entries have distinct paths, none of a folder seen before. */
  ghost predicate FoldersOnce(items: seq<Item>, seen: set<Buffer>) {
    && (forall i, f :: 0 <= i < |items| && items[i].folder && f in seen ==> items[i] != FolderItem(f))
    && (forall i, j :: 0 <= i < j < |items| && items[i].folder && items[j].folder ==> items[i] != items[j])
  }

  ghost predicate FoldersOf(items: seq<Item>, fs: seq<Buffer>) {
    forall i :: i in items ==> i.folder && i.path[..Above(i)] in fs && i == FolderItem(i.path[..Above(i)])
  }

  lemma {:induction false} NewFoldersListed(fs: seq<Buffer>, seen: set<Buffer>)
    ensures FoldersOf(NewFolders(fs, seen), fs)
    ensures forall f :: f in fs ==> f in seen || FolderItem(f) in NewFolders(fs, seen)
    decreases |fs|
  {
    if fs != [] {
      NewFoldersListed(fs[1..], if fs[0] in seen then seen else seen + {fs[0]});
      assert forall f :: f in fs <==> f == fs[0] || f in fs[1..];
      assert FolderItem(fs[0]).path[..|fs[0]|] == fs[0];
    }
  }

  lemma {:induction false} NewFoldersOnce(fs: seq<Buffer>, seen: set<Buffer>)
    ensures FoldersOnce(NewFolders(fs, seen), seen)
    decreases |fs|
  {
    if fs != [] {
      var more := seen + {fs[0]};
      NewFoldersOnce(fs[1..], more);
      if fs[0] in seen {
        assert more == seen;
      } else {
        FolderThenOnce(fs[0], NewFolders(fs[1..], more), seen);
      }
    }
  }

  lemma SameFolder(f: Buffer, g: Buffer)
    requires FolderItem(f) == FolderItem(g)
    ensures f == g
  {
    assert (f + [SLASH])[..|f|] == f && (g + [SLASH])[..|g|] == g;
  }

  lemma FolderThenOnce(f: Buffer, rest: seq<Item>, seen: set<Buffer>)
    requires f !in seen && FoldersOnce(rest, seen + {f})
    ensures FoldersOnce([FolderItem(f)] + rest, seen)
  {
    var all := [FolderItem(f)] + rest;
    forall i | 1 <= i < |all| && all[i].folder ensures all[i] != all[0] { assert all[i] == rest[i - 1]; }
    forall i, g | 0 <= i < |all| && all[i].folder && g in seen ensures all[i] != FolderItem(g) {
      if i == 0 && all[0] == FolderItem(g) { SameFolder(f, g); }
    }
  }

  lemma OnceConcat(a: seq<Item>, b: seq<Item>, seen: set<Buffer>, fs: seq<Buffer>)
    requires FoldersOnce(a, seen) && FoldersOnce(b, seen + Members(fs))
    requires FoldersOf(a, fs)
    ensures FoldersOnce(a + b, seen)
  {
    var all := a + b;
    forall i, j | 0 <= i < |a| <= j < |all| && all[i].folder && all[j].folder ensures all[i] != all[j] {
      assert a[i] in a;
      var f := a[i].path[..Above(a[i])];
      assert f in seen + Members(fs);
      assert all[j] == b[j - |a|] != FolderItem(f);
    }
  }

  lemma FileThenOnce(file: Item, rest: seq<Item>, seen: set<Buffer>)
    requires !file.folder && FoldersOnce(rest, seen)
    ensures FoldersOnce([file] + rest, seen)
  {}

  /** Each folder has exactly one entry. */
  lemma {:induction false} FoldersHaveOneEntry(files: seq<BoxFile>, seen: set<Buffer>)
    ensures FoldersOnce(ItemsOf(files, seen), seen)
    decreases |files|
  {
    if files != [] {
      var fs := FolderList(files[0].path);
      NewFoldersOnce(fs, seen);
      NewFoldersListed(fs, seen);
      FoldersHaveOneEntry(files[1..], seen + Members(fs));
      hide *;
      OnceOfThree(NewFolders(fs, seen), Item(files[0].path, files[0].data, false),
        ItemsOf(files[1..], seen + Members(fs)), seen, fs);
    }
  }

  lemma OnceOfThree(a: seq<Item>, file: Item, c: seq<Item>, seen: set<Buffer>, fs: seq<Buffer>)
    requires !file.folder && FoldersOnce(a, seen) && FoldersOf(a, fs) && FoldersOnce(c, seen + Members(fs))
    ensures FoldersOnce(a + [file] + c, seen)
  {
    hide *;
    FileThenOnce(file, c, seen + Members(fs));
    OnceConcat(a, [file] + c, seen, fs);
    assert a + [file] + c == a + ([file] + c);
  }

  /** The folders above an entry were seen, or have an entry before it. */
  ghost predicate FoldersBefore(items: seq<Item>, seen: set<Buffer>) {
    forall j, k :: 0 <= j < |items| && 0 <= k < Above(items[j]) && items[j].path[k] == SLASH ==>
      items[j].path[..k] in seen || FolderItem(items[j].path[..k]) in items[..j]
  }

  lemma BeforeConcat(a: seq<Item>, b: seq<Item>, seen: set<Buffer>, more: set<Buffer>)
    requires FoldersBefore(a, seen) && FoldersBefore(b, more)
    requires forall f :: f in more ==> f in seen || FolderItem(f) in a
    ensures FoldersBefore(a + b, seen)
  {
    var all := a + b;
    forall j, k | 0 <= j < |all| && 0 <= k < Above(all[j]) && all[j].path[k] == SLASH
      ensures all[j].path[..k] in seen || FolderItem(all[j].path[..k]) in all[..j]
    {
      var f := all[j].path[..k];
      if j < |a| {
        assert all[..j] == a[..j] && all[j] == a[j];
      } else {
        assert all[..j] == a + b[..j - |a|] && all[j] == b[j - |a|];
      }
    }
  }

  /** In a list of folders, those above one are seen or come before it. */
  ghost predicate ListedTopDown(fs: seq<Buffer>, seen: set<Buffer>) {
    forall d, k :: 0 <= d < |fs| && 0 <= k < |fs[d]| && fs[d][k] == SLASH
      ==> fs[d][..k] in seen || fs[d][..k] in fs[..d]
  }

  lemma {:induction false} NewFoldersBefore(fs: seq<Buffer>, seen: set<Buffer>)
    requires ListedTopDown(fs, seen)
    ensures FoldersBefore(NewFolders(fs, seen), seen)
    decreases |fs|
  {
    if fs != [] {
      var more := seen + {fs[0]};
      NewFoldersBefore(fs[1..], more);
      if fs[0] in seen {
        assert more == seen;
      } else {
        var first := [FolderItem(fs[0])];
        assert FoldersBefore(first, seen) by { assert fs[..0] == []; FirstHasNone(fs, seen); }
        BeforeConcat(first, NewFolders(fs[1..], more), seen, more);
      }
    }
  }

  lemma FirstHasNone(fs: seq<Buffer>, seen: set<Buffer>)
    requires fs != [] && ListedTopDown(fs, seen)
    ensures FoldersBefore([FolderItem(fs[0])], seen)
  {
    assert fs[..0] == [];
    var i := FolderItem(fs[0]);
    forall k | 0 <= k < Above(i) && i.path[k] == SLASH ensures i.path[..k] in seen {
      assert i.path[..k] == fs[0][..k] && fs[0][k] == SLASH;
    }
  }

  lemma FolderListTopDown(path: Buffer)
    ensures ListedTopDown(FolderList(path), {})
  {
    var fs := FolderList(path);
    hide FolderList;
    forall d, k | 0 <= d < |fs| && 0 <= k < |fs[d]| && fs[d][k] == SLASH ensures fs[d][..k] in fs[..d] {
      var f, g := fs[d], fs[d][..k];
      FolderListExact(path, f);
      assert f in fs;
      assert path[..|g|] == path[..|f|][..k] == g && path[|g|] == path[..|f|][k];
      FolderListExact(path, g);
      var e :| 0 <= e < |fs| && fs[e] == g;
      if d < e { FolderListGrows(path, d, e); }
      assert fs[..d][e] == g;
    }
  }

  /** Each folder's entry comes before all entries beneath it. */
  lemma {:induction false} FoldersComeFirst(files: seq<BoxFile>, seen: set<Buffer>)
    ensures FoldersBefore(ItemsOf(files, seen), seen)
    decreases |files|
  {
    if files != [] {
      var fs := FolderList(files[0].path);
      var file := Item(files[0].path, files[0].data, false);
      var more := seen + Members(fs);
      FolderListTopDown(files[0].path);
      assert ListedTopDown(fs, seen);
      NewFoldersBefore(fs, seen);
      NewFoldersListed(fs, seen);
      assert forall f :: f in more ==> f in seen || FolderItem(f) in NewFolders(fs, seen);
      FoldersComeFirst(files[1..], more);
      FileAfterFolders(file, fs, more);
      hide *;
      BeforeOfThree(NewFolders(fs, seen), file, ItemsOf(files[1..], more), seen, more);
    }
  }

  lemma BeforeOfThree(a: seq<Item>, file: Item, c: seq<Item>, seen: set<Buffer>, more: set<Buffer>)
    requires FoldersBefore(a, seen) && FoldersBefore([file], more) && FoldersBefore(c, more)
    requires forall f :: f in more ==> f in seen || FolderItem(f) in a
    ensures FoldersBefore(a + [file] + c, seen)
  {
    hide FoldersBefore, FolderItem;
    BeforeConcat([file], c, more, more);
    BeforeConcat(a, [file] + c, seen, more);
    assert a + [file] + c == a + ([file] + c);
  }

  lemma FileAfterFolders(file: Item, fs: seq<Buffer>, seen: set<Buffer>)
    requires !file.folder && fs == FolderList(file.path) && Members(fs) <= seen
    ensures FoldersBefore([file], seen)
  {
    hide FolderList;
    forall k | 0 <= k < |file.path| && file.path[k] == SLASH ensures file.path[..k] in seen {
      FolderListExact(file.path, file.path[..k]);
      assert file.path[..k] in Members(fs);
    }
  }
}
