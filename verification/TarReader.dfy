/** A ustar reader, and what it gets out of the archives that are written. */
module TarReader {
  import opened Strings
  import opened Bytes
  import opened TarFields
  import opened TarPaths
  import opened Ustar
  import opened TarArchive

  function UpToNul(f: Buffer): Buffer {
    if f == [] || f[0] == NUL then [] else [f[0]] + UpToNul(f[1..])
  }

  datatype Header = Header(path: Buffer, size: nat, folder: bool)

  /** A header, when its magic, version and checksum are right. */
  function ReadHeader(h: Buffer): Option<Header>
    requires |h| == 512
  {
    if h[257..263] != MAGIC || h[263..265] != VERSION then None
    else if ReadOctal(0, h[148..156]) != Sum(h[..148] + BLANKS + h[156..]) then None
    else
      var fields := PathFields(UpToNul(h[345..500]), UpToNul(h[..100]));
      Some(Header(Joined(fields), ReadOctal(0, h[124..136]), h[156] == FIVE))
  }

  datatype Entry = Entry(path: Buffer, data: Buffer, folder: bool)

  /** The entries up to the first block of zeros, or nothing for what is not an archive. */
  function ReadTar(s: Buffer): Option<seq<Entry>>
    decreases |s|
  {
    if |s| < 512 then None
    else if s[..512] == Zeros(512) then Some([])
    else
      match ReadHeader(s[..512])
      case None => None
      case Some(h) =>
        var next := 512 + h.size + Fill(h.size);
        if |s| < next then None else
          Following(Entry(h.path, s[512..512 + h.size], h.folder), ReadTar(s[next..]))
  }

  function Following(e: Entry, rest: Option<seq<Entry>>): Option<seq<Entry>> {
    match rest
    case None => None
    case Some(es) => Some([e] + es)
  }

  // ----- one header

  lemma {:induction false} UpToNulPadded(t: Buffer, n: nat)
    requires NUL !in t
    ensures UpToNul(t + Zeros(n)) == t
    decreases |t|
  {
    if t != [] {
      assert (t + Zeros(n))[1..] == t[1..] + Zeros(n);
      UpToNulPadded(t[1..], n);
    }
  }

  /** The size field holds the size exactly when it has at most twelve octal digits. */
  lemma SizeReadsBack(size: nat)
    ensures ReadOctal(0, SizeField(size)) == size <==> size < Pow8(12)
  {
    var text := OctalText(size);
    OctalLength(size, 12);
    OctalLength(size, 11);
    ReadOctalText(size);
    if |text| <= 11 {
      assert SizeField(size) == Octal(size, 12) + [NUL];
      ReadField(size, 12, [NUL]);
    } else if |text| == 12 {
      assert Octal(size, 12) == text;
      assert SizeField(size) == text;
    } else {
      ReadOctalBound(0, SizeField(size));
    }
  }

  lemma FrontSlices(name: Buffer, size: nat, folder: bool)
    requires |name| <= 100
    ensures var front := Before(name, size, folder);
      |front| == 148 && front[..100] == name + Zeros(100 - |name|) && front[124..136] == SizeField(size)
  {
    assert Padded(name, 100) == name + Zeros(100 - |name|);
    hide Zeros;
  }

  lemma BehindSlices(prefix: Buffer, folder: bool)
    requires |prefix| <= 155
    ensures var behind := Behind(prefix, folder);
      && |behind| == 356 && behind[0] == (if folder then FIVE else ZERO)
      && behind[101..107] == MAGIC && behind[107..109] == VERSION && behind[189..344] == prefix + Zeros(155 - |prefix|)
  {
    var a, b, c, d := Padded([if folder then FIVE else ZERO], 101), MAGIC, Padded(VERSION, 82), Padded(prefix, 167);
    assert Behind(prefix, folder) == a + b + c + d;
    assert |a| == 101 && |b| == 6 && |c| == 82 && |d| == 167;
    assert a[0] == if folder then FIVE else ZERO;
    assert c[..2] == VERSION;
    assert d[..155] == prefix + Zeros(155 - |prefix|);
    hide Behind, Padded, Zeros;
    assert (a + b + c + d)[101..107] == b;
    assert (a + b + c + d)[107..109] == c[..2];
    assert (a + b + c + d)[189..344] == d[..155];
  }

  /** A header reads back as what it was written from, its checksum right. */
  lemma HeaderReads(s: PathFields, size: nat, folder: bool)
    requires |s.name| <= 100 && |s.prefix| <= 155 && NUL !in s.name && NUL !in s.prefix
    requires size < Pow8(12)
    ensures var h := HeaderBytes(s, size, folder);
      |h| == 512 && h[..512] != Zeros(512) && ReadHeader(h) == Some(Header(Joined(s), size, folder))
  {
    hide *;
    var front, behind := Before(s.name, size, folder), Behind(s.prefix, folder);
    FrontSlices(s.name, size, folder);
    BehindSlices(s.prefix, folder);
    HeaderParts(front, behind);
    HeaderIs(s, size, folder);
    var h := HeaderBytes(s, size, folder);
    UpToNulPadded(s.name, 100 - |s.name|);
    UpToNulPadded(s.prefix, 155 - |s.prefix|);
    SizeReadsBack(size);
    FieldsRead(h, s, size, folder);
  }

  lemma HeaderParts(front: Buffer, behind: Buffer)
    requires |front| == 148 && |behind| == 356 && behind[101..107] == MAGIC
    ensures var h := front + Checksum(Sum(front + BLANKS + behind)) + behind;
      && |h| == 512 && h[..512] == h != Zeros(512)
      && ReadOctal(0, h[148..156]) == Sum(h[..148] + BLANKS + h[156..]) && h[156] == behind[0]
      && h[..100] == front[..100] && h[124..136] == front[124..136]
      && h[257..263] == behind[101..107] && h[263..265] == behind[107..109] && h[345..500] == behind[189..344]
  {
    assert |BLANKS| == 8;
    hide *;
    var sum := Sum(front + BLANKS + behind);
    ChecksumFits(front + BLANKS + behind);
    ChecksumReads(sum);
    var h := front + Checksum(sum) + behind;
    HeaderSlices(h, front, Checksum(sum), behind);
  }

  lemma ChecksumReads(sum: nat)
    ensures ReadOctal(0, Checksum(sum)) == sum
  {
    ReadField(sum, 7, [NUL, SPACE]);
  }

  lemma FieldsRead(h: Buffer, s: PathFields, size: nat, folder: bool)
    requires |h| == 512 && h[257..263] == MAGIC && h[263..265] == VERSION
    requires ReadOctal(0, h[148..156]) == Sum(h[..148] + BLANKS + h[156..])
    requires UpToNul(h[345..500]) == s.prefix && UpToNul(h[..100]) == s.name
    requires ReadOctal(0, h[124..136]) == size && h[156] == (if folder then FIVE else ZERO)
    ensures ReadHeader(h) == Some(Header(Joined(s), size, folder))
  {
    hide ReadOctal, UpToNul, Sum, Joined;
  }

  lemma HeaderSlices(h: Buffer, front: Buffer, check: Buffer, behind: Buffer)
    requires |front| == 148 && |check| == 8 && |behind| == 356 && h == front + check + behind
    ensures |h| == 512 && h[..512] == h && h[..148] == front && h[148..156] == check && h[156..] == behind
      && h[156] == behind[0]
    ensures h[..100] == front[..100] && h[124..136] == front[124..136]
    ensures h[257..263] == behind[101..107] && h[263..265] == behind[107..109] && h[345..500] == behind[189..344]
  {}

  lemma FixedFields(s: PathFields, size: nat, folder: bool)
    requires |s.name| <= 100 && |s.prefix| <= 155
    ensures var h := Before(s.name, size, folder);
      && |h| == 148 && h[100..108] == Numeric(if folder then FOLDER_MODE else FILE_MODE, 8)
      && h[108..116] == Numeric(USER, 8) && h[116..124] == Numeric(GROUP, 8) && h[136..148] == Numeric(0, 12)
    ensures var b := Behind(s.prefix, folder);
      && |b| == 356 && b[0] == (if folder then FIVE else ZERO) && b[1..101] == Zeros(100)
      && b[109..189] == Zeros(80) && b[344..356] == Zeros(12)
  {
    assert Padded([if folder then FIVE else ZERO], 101) == [if folder then FIVE else ZERO] + Zeros(100);
    assert Padded(VERSION, 82) == VERSION + Zeros(80);
    assert Padded(s.prefix, 167) == s.prefix + Zeros(155 - |s.prefix|) + Zeros(12);
  }

  /**
   * Who a header says the entry belongs to, and who may do what with it: mode 2775 for folders and 664 for files,
   * user 10001 and group 10000, no time, no names, no link and no device; and that it is a ustar header, whose sum
   * was taken with spaces in its own place.
   */
  lemma OwnersRead(s: PathFields, size: nat, folder: bool)
    requires |s.name| <= 100 && |s.prefix| <= 155
    ensures var h := HeaderBytes(s, size, folder);
      && |h| == 512
      && ReadOctal(0, h[100..108]) == (if folder then ((2 * 8 + 7) * 8 + 7) * 8 + 5 else (6 * 8 + 6) * 8 + 4)
      && ReadOctal(0, h[108..116]) == 10001 && ReadOctal(0, h[116..124]) == 10000 && ReadOctal(0, h[136..148]) == 0
      && h[156] == (if folder then '5' else '0') as int
      && h[157..257] == Zeros(100) && h[265..345] == Zeros(80) && h[500..512] == Zeros(12)
      && h[257..263] == [117, 115, 116, 97, 114, 0] && h[263..265] == [48, 48]
      && ReadOctal(0, h[148..156]) == Sum(h[..148] + [32, 32, 32, 32, 32, 32, 32, 32] + h[156..])
  {
    assert MAGIC == [117, 115, 116, 97, 114, 0] && VERSION == [48, 48] && BLANKS == [32, 32, 32, 32, 32, 32, 32, 32];
    assert FOLDER_MODE == 1533 && FILE_MODE == 436 && USER == 10001 && GROUP == 10000 && FIVE == 53 && ZERO == 48;
    assert |BLANKS| == 8;
    hide *;
    var front, behind := Before(s.name, size, folder), Behind(s.prefix, folder);
    FixedFields(s, size, folder);
    BehindSlices(s.prefix, folder);
    HeaderParts(front, behind);
    HeaderIs(s, size, folder);
    ChecksumFits(front + BLANKS + behind);
    var h := HeaderBytes(s, size, folder);
    OtherSlices(h, front, Checksum(Sum(front + BLANKS + behind)), behind);
    NumericReads(if folder then FOLDER_MODE else FILE_MODE, 8);
    NumericReads(USER, 8);
    NumericReads(GROUP, 8);
    NumericReads(0, 12);
  }

  lemma NumericReads(n: nat, length: nat)
    requires length > 0
    ensures ReadOctal(0, Numeric(n, length)) == n
  {
    ReadField(n, length, [NUL]);
  }

  lemma OtherSlices(h: Buffer, front: Buffer, check: Buffer, behind: Buffer)
    requires |front| == 148 && |check| == 8 && |behind| == 356 && h == front + check + behind
    ensures |h| == 512 && h[100..108] == front[100..108] && h[108..116] == front[108..116]
    ensures h[116..124] == front[116..124] && h[136..148] == front[136..148] && h[156] == behind[0]
    ensures h[157..257] == behind[1..101] && h[265..345] == behind[109..189] && h[500..512] == behind[344..356]
  {}

  // ----- the archive

  /** What can be asked of the files: paths without NUL, and sizes the field can hold. */
  ghost predicate Readable(i: Item) {
    NUL !in i.path && |i.data| < Pow8(12)
  }

  /** The path a reader gets: the path itself, but for one leading slash (see `SplitJoins`). */
  function PathRead(path: Buffer): Buffer
    requires SplitPath(path).Some?
  {
    Joined(SplitPath(path).value)
  }

  /** The entries whose paths fit the format. */
  function Fitting(items: seq<Item>): seq<Entry>
    decreases |items|
  {
    if items == [] then []
    else if SplitPath(items[0].path).None? then Fitting(items[1..])
    else [Entry(PathRead(items[0].path), items[0].data, items[0].folder)] + Fitting(items[1..])
  }

  lemma ReadOne(i: Item, more: Buffer)
    requires Readable(i) && SplitPath(i.path).Some?
    ensures ReadTar(Block(i) + more) == Following(Entry(PathRead(i.path), i.data, i.folder), ReadTar(more))
  {
    var s := SplitPath(i.path).value;
    var header := HeaderBytes(s, |i.data|, i.folder);
    assert NUL !in i.path && |i.data| < Pow8(12) && PathRead(i.path) == Joined(s);
    assert HeaderOf(i.path, |i.data|, i.folder) == Some(header);
    hide *;
    BlockIs(i);
    HeaderReads(s, |i.data|, i.folder);
    EntrySlices(header, i.data, Zeros(Fill(|i.data|)), more);
  }

  lemma EntrySlices(header: Buffer, data: Buffer, fill: Buffer, more: Buffer)
    requires |header| == 512 && |fill| == Fill(|data|)
    ensures var all := header + data + fill + more; var next := 512 + |data| + Fill(|data|);
      |all| >= next && header[..512] == header && all[..512] == header && all[512..512 + |data|] == data
        && all[next..] == more
  {
    hide Fill;
  }

  lemma {:induction false} ReadBlocks(items: seq<Item>)
    requires forall i :: i in items ==> Readable(i)
    ensures ReadTar(Blocks(items) + Zeros(1024)) == Some(Fitting(items))
    decreases |items|
  {
    hide Block, SplitPath, ReadHeader, PathRead;
    if items == [] {
      assert ([] + Zeros(1024))[..512] == Zeros(512);
    } else {
      ReadBlocks(items[1..]);
      var rest := Blocks(items[1..]) + Zeros(1024);
      assert Blocks(items) + Zeros(1024) == Block(items[0]) + rest;
      if SplitPath(items[0].path).None? {
        BlockIs(items[0]);
        assert [] + rest == rest;
      } else {
        ReadOne(items[0], rest);
      }
    }
  }

  // ----- what a reader gets of the files

  function OnlyFiles(es: seq<Entry>): seq<Entry>
    decreases |es|
  {
    if es == [] then [] else (if es[0].folder then [] else [es[0]]) + OnlyFiles(es[1..])
  }

  /** A file, if its path fits: under its path as a reader gets it, or under its own. */
  function Taken(f: BoxFile, own: bool): seq<Entry> {
    if SplitPath(f.path).None? then [] else [Entry(if own then f.path else PathRead(f.path), f.data, false)]
  }

  function FilesThatFit(files: seq<BoxFile>, own: bool): seq<Entry>
    decreases |files|
  {
    if files == [] then [] else Taken(files[0], own) + FilesThatFit(files[1..], own)
  }

  lemma {:induction false} FittingConcat(a: seq<Item>, b: seq<Item>)
    ensures Fitting(a + b) == Fitting(a) + Fitting(b)
    decreases |a|
  {
    if a == [] {
      assert a + b == b;
    } else {
      assert (a + b)[1..] == a[1..] + b;
      FittingConcat(a[1..], b);
      hide PathRead;
    }
  }

  lemma {:induction false} OnlyFilesConcat(a: seq<Entry>, b: seq<Entry>)
    ensures OnlyFiles(a + b) == OnlyFiles(a) + OnlyFiles(b)
    decreases |a|
  {
    if a == [] {
      assert a + b == b;
    } else {
      assert (a + b)[1..] == a[1..] + b;
      OnlyFilesConcat(a[1..], b);
    }
  }

  lemma {:induction false} FoldersAreNotFiles(fs: seq<Buffer>, seen: set<Buffer>)
    ensures OnlyFiles(Fitting(NewFolders(fs, seen))) == []
    decreases |fs|
  {
    if fs != [] {
      FoldersAreNotFiles(fs[1..], if fs[0] in seen then seen else seen + {fs[0]});
      hide PathRead;
    }
  }

  lemma {:induction false} FilesInOrder(files: seq<BoxFile>, seen: set<Buffer>)
    ensures OnlyFiles(Fitting(ItemsOf(files, seen))) == FilesThatFit(files, false)
    decreases |files|
  {
    if files != [] {
      var fs := FolderList(files[0].path);
      var a, c := NewFolders(fs, seen), ItemsOf(files[1..], seen + Members(fs));
      var b := [Item(files[0].path, files[0].data, false)];
      FilesInOrder(files[1..], seen + Members(fs));
      FoldersAreNotFiles(fs, seen);
      hide *;
      FilesOfThree(a, b, c);
    }
  }

  lemma FilesOfThree(a: seq<Item>, b: seq<Item>, c: seq<Item>)
    requires OnlyFiles(Fitting(a)) == []
    ensures OnlyFiles(Fitting(a + b + c)) == OnlyFiles(Fitting(b)) + OnlyFiles(Fitting(c))
  {
    hide *;
    assert a + b + c == a + (b + c);
    FittingConcat(a, b + c);
    FittingConcat(b, c);
    OnlyFilesConcat(Fitting(a), Fitting(b) + Fitting(c));
    OnlyFilesConcat(Fitting(b), Fitting(c));
  }

  ghost predicate LosesSlash(path: Buffer) { |path| == 101 && path[0] == SLASH }

  /** Read paths are the files' own exactly when no path is one that loses its leading slash. */
  lemma {:induction false} OwnPaths(files: seq<BoxFile>)
    ensures FilesThatFit(files, false) == FilesThatFit(files, true) <==> forall f :: f in files ==> !LosesSlash(f.path)
    decreases |files|
  {
    if files != [] {
      OwnPaths(files[1..]);
      OwnPath(files[0]);
      assert forall f :: f in files <==> f == files[0] || f in files[1..];
      hide Taken, LosesSlash;
      SamePrefix(Taken(files[0], false), FilesThatFit(files[1..], false), Taken(files[0], true),
        FilesThatFit(files[1..], true));
    }
  }

  lemma OwnPath(f: BoxFile)
    ensures |Taken(f, false)| == |Taken(f, true)|
    ensures Taken(f, false) == Taken(f, true) <==> !LosesSlash(f.path)
  {
    if SplitPath(f.path).Some? { SplitJoins(f.path); }
    hide Joined;
    if Taken(f, false) == Taken(f, true) && SplitPath(f.path).Some? {
      assert Taken(f, false)[0] == Taken(f, true)[0];
    }
  }

  lemma SamePrefix(x: seq<Entry>, u: seq<Entry>, y: seq<Entry>, v: seq<Entry>)
    requires |x| == |y|
    ensures x + u == y + v <==> x == y && u == v
  {
    if x + u == y + v {
      assert (x + u)[..|x|] == x && (y + v)[..|y|] == y && (x + u)[|x|..] == u && (y + v)[|y|..] == v;
    }
  }

  lemma {:induction false} ItemsReadable(files: seq<BoxFile>, seen: set<Buffer>)
    requires forall f :: f in files ==> NUL !in f.path && |f.data| < Pow8(12)
    ensures forall i :: i in ItemsOf(files, seen) ==> Readable(i)
    decreases |files|
  {
    if files != [] {
      var fs := FolderList(files[0].path);
      assert files[0] in files;
      ItemsReadable(files[1..], seen + Members(fs));
      NewFoldersReadable(files[0].path, seen);
    }
  }

  lemma NewFoldersReadable(path: Buffer, seen: set<Buffer>)
    requires NUL !in path
    ensures forall i :: i in NewFolders(FolderList(path), seen) ==> Readable(i)
  {
    var fs := FolderList(path);
    NewFoldersListed(fs, seen);
    PowPositive(12);
    hide FolderList, NewFolders, Pow8, Above;
    forall i | i in NewFolders(fs, seen) ensures Readable(i) {
      var f := i.path[..Above(i)];
      FolderListExact(path, f);
      assert i.path == f + [SLASH];
    }
  }

  /**
   * What is written reads back: every file with a path that fits, in order, under its own path and
   * with its exact bytes.
   */
  lemma ArchiveRoundTrip(files: seq<BoxFile>)
    requires forall f :: f in files ==> NUL !in f.path && |f.data| < Pow8(12)
    ensures var r := ReadTar(Blocks(ItemsOf(files, {})) + Zeros(1024));
      r.Some? && (OnlyFiles(r.value) == FilesThatFit(files, true) <==> forall f :: f in files ==> !LosesSlash(f.path))
  {
    hide *;
    ItemsReadable(files, {});
    ReadBlocks(ItemsOf(files, {}));
    FilesInOrder(files, {});
    OwnPaths(files);
  }

  // ----- the folders a reader gets

  /** The items that fit, as they are. */
  function Fit(items: seq<Item>): (kept: seq<Item>)
    ensures forall i :: i in kept <==> i in items && SplitPath(i.path).Some?
    decreases |items|
  {
    if items == [] then [] else
      var front, last := items[..|items| - 1], items[|items| - 1];
      assert items == front + [last];
      if SplitPath(last.path).None? then Fit(front) else Fit(front) + [last]
  }

  ghost predicate Rooted(path: Buffer) { path != [] && path[0] == SLASH }

  function EntryOf(i: Item): Entry {
    Entry(i.path, i.data, i.folder)
  }

  lemma {:induction false} FitIsFitting(items: seq<Item>)
    requires forall i :: i in items ==> !Rooted(i.path)
    ensures |Fitting(items)| == |Fit(items)| && forall j :: 0 <= j < |Fit(items)| ==>
      Fitting(items)[j] == EntryOf(Fit(items)[j])
    decreases |items|
  {
    if items != [] {
      var front, last := items[..|items| - 1], items[|items| - 1];
      assert items == front + [last];
      FitIsFitting(front);
      FittingConcat(front, [last]);
      OneFitting(last);
      hide Fitting;
    }
  }

  lemma OneFitting(i: Item)
    requires !Rooted(i.path)
    ensures Fitting([i]) == if SplitPath(i.path).None? then [] else [EntryOf(i)]
  {
    assert [i][1..] == [] && Fitting([]) == [];
    if SplitPath(i.path).Some? { SplitJoins(i.path); }
  }

  /** Leaving out what does not fit takes no folder from what does. */
  lemma {:induction false} FitKeepsFolders(items: seq<Item>)
    requires FoldersBefore(items, {}) && FoldersOnce(items, {})
    ensures FoldersBefore(Fit(items), {}) && FoldersOnce(Fit(items), {})
    decreases |items|
  {
    if items != [] {
      var front, last := items[..|items| - 1], items[|items| - 1];
      assert items == front + [last];
      FrontFolders(front, last);
      FitKeepsFolders(front);
      if SplitPath(last.path).Some? {
        LastFolders(front, last);
        hide FoldersBefore, FoldersOnce, Fit;
        var kept := Fit(front);
        LastKeeps(kept, last);
      }
    }
  }

  lemma FrontFolders(front: seq<Item>, last: Item)
    requires FoldersBefore(front + [last], {}) && FoldersOnce(front + [last], {})
    ensures FoldersBefore(front, {}) && FoldersOnce(front, {})
    ensures forall k :: 0 <= k < TarArchive.Above(last) && last.path[k] == SLASH ==> FolderItem(last.path[..k]) in front
    ensures last.folder ==> last !in front
  {
    var items := front + [last];
    assert forall j :: 0 <= j < |front| ==> items[j] == front[j] && items[..j] == front[..j];
    assert items[|front|] == last && items[..|front|] == front;
    hide FolderItem;
    forall j | 0 <= j < |front| && last.folder ensures front[j] != last {
      assert items[j] == front[j] && items[|front|] == last;
    }
  }

  lemma LastFolders(front: seq<Item>, last: Item)
    requires SplitPath(last.path).Some?
    requires forall k :: 0 <= k < TarArchive.Above(last) && last.path[k] == SLASH ==>
      FolderItem(last.path[..k]) in front
    ensures forall k :: 0 <= k < TarArchive.Above(last) && last.path[k] == SLASH ==>
      FolderItem(last.path[..k]) in Fit(front)
  {
    SplitFound(last.path);
    hide Fit, SplitPath, Representable;
    forall k | 0 <= k < TarArchive.Above(last) && last.path[k] == SLASH
      ensures FolderItem(last.path[..k]) in Fit(front)
    {
      AncestorsRepresentable(last.path, k);
      assert last.path[..k] + [SLASH] == last.path[..k + 1];
      SplitFound(last.path[..k + 1]);
    }
  }

  lemma LastKeeps(kept: seq<Item>, last: Item)
    requires FoldersBefore(kept, {}) && FoldersOnce(kept, {}) && (last.folder ==> last !in kept)
    requires forall k :: 0 <= k < TarArchive.Above(last) && last.path[k] == SLASH ==> FolderItem(last.path[..k]) in kept
    ensures FoldersBefore(kept + [last], {}) && FoldersOnce(kept + [last], {})
  {
    var items := kept + [last];
    assert forall j :: 0 <= j < |kept| ==> items[j] == kept[j] && items[..j] == kept[..j] && kept[j] in kept;
    assert items[|kept|] == last && items[..|kept|] == kept;
    hide FolderItem;
  }

  lemma {:induction false} ItemsNotRooted(files: seq<BoxFile>, seen: set<Buffer>)
    requires forall f :: f in files ==> !Rooted(f.path)
    ensures forall i :: i in ItemsOf(files, seen) ==> !Rooted(i.path) && (i.folder ==> i.data == [])
    decreases |files|
  {
    if files != [] {
      var path := files[0].path;
      var fs := FolderList(path);
      assert files[0] in files;
      ItemsNotRooted(files[1..], seen + Members(fs));
      NewFoldersListed(fs, seen);
      hide FolderList, NewFolders;
      forall i | i in NewFolders(fs, seen) ensures !Rooted(i.path) {
        FolderListExact(path, i.path[..TarArchive.Above(i)]);
      }
    }
  }

  /**
   * What a reader gets: each folder above an entry has exactly one entry, and that comes before. So it is
   * for any files whose paths do not begin with a slash, also when some do not fit and are left out.
   */
  lemma FoldersReadFirst(files: seq<BoxFile>, j: nat, k: nat)
    requires forall f :: f in files ==> NUL !in f.path && |f.data| < Pow8(12) && !Rooted(f.path)
    requires var r := ReadTar(Blocks(ItemsOf(files, {})) + Zeros(1024));
      r.Some? ==>
        && j < |r.value| && k < |r.value[j].path| - (if r.value[j].folder then 1 else 0)
        && r.value[j].path[k] == SLASH
    ensures var r := ReadTar(Blocks(ItemsOf(files, {})) + Zeros(1024));
      && r.Some?
      && var folder := Entry(r.value[j].path[..k + 1], [], true);
         exists i :: 0 <= i < j && r.value[i] == folder && OnlyThere(r.value, folder, i)
  {
    var items := ItemsOf(files, {});
    ItemsReadable(files, {});
    ItemsNotRooted(files, {});
    ReadBlocks(items);
    FoldersComeFirst(files, {});
    FoldersHaveOneEntry(files, {});
    hide ItemsOf, Blocks, ReadTar, Readable, Rooted, Pow8;
    FitIsFitting(items);
    FitKeepsFolders(items);
    var i := FolderEntry(Fit(items), Fitting(items), j, k);
  }

  ghost predicate OnlyThere(es: seq<Entry>, folder: Entry, i: nat) {
    forall h :: 0 <= h < |es| && es[h].folder && es[h].path == folder.path ==> h == i
  }

  lemma FolderEntry(items: seq<Item>, es: seq<Entry>, j: nat, k: nat) returns (i: nat)
    requires FoldersBefore(items, {}) && FoldersOnce(items, {})
    requires |es| == |items| && forall h :: 0 <= h < |items| ==> es[h] == EntryOf(items[h])
    requires forall i :: i in items && i.folder ==> i.data == []
    requires j < |items| && k < TarArchive.Above(items[j]) && items[j].path[k] == SLASH
    ensures es[j].path == items[j].path
    ensures i < j && es[i] == Entry(es[j].path[..k + 1], [], true) && OnlyThere(es, es[i], i)
  {
    var f := FolderItem(items[j].path[..k]);
    assert es[j] == EntryOf(items[j]) && f in items[..j];
    i :| 0 <= i < j && items[i] == f;
    assert items[j].path[..k] + [SLASH] == items[j].path[..k + 1];
    forall h | 0 <= h < |es| && es[h].folder && es[h].path == es[i].path ensures h == i {
      assert items[h] in items && items[h] == f;
    }
  }

  lemma HeaderSize(s: PathFields, size: nat, folder: bool)
    requires |s.name| <= 100 && |s.prefix| <= 155
    ensures |HeaderBytes(s, size, folder)| == 512
  {
    HeaderIs(s, size, folder);
    ChecksumFits(Before(s.name, size, folder) + BLANKS + Behind(s.prefix, folder));
    hide *;
  }

  lemma FilledUp(header: Buffer, data: Buffer, fill: Buffer)
    requires |header| == 512 && |fill| == Fill(|data|)
    ensures |header + data + fill| % 512 == 0
  {
    assert |header + data + fill| == 512 + |data| + |fill|;
  }

  lemma WholeBlock(i: Item)
    ensures |Block(i)| % 512 == 0
  {
    if SplitPath(i.path).Some? {
      var s := SplitPath(i.path).value;
      assert HeaderOf(i.path, |i.data|, i.folder) == Some(HeaderBytes(s, |i.data|, i.folder));
      hide *;
      HeaderSize(s, |i.data|, i.folder);
      BlockIs(i);
      FilledUp(HeaderBytes(s, |i.data|, i.folder), i.data, Zeros(Fill(|i.data|)));
    }
  }

  /** An archive is whole blocks of 512 bytes. */
  lemma {:induction false} WholeBlocks(items: seq<Item>)
    ensures |Blocks(items) + Zeros(1024)| % 512 == 0
    decreases |items|
  {
    hide Block;
    if items != [] {
      WholeBlocks(items[1..]);
      WholeBlock(items[0]);
    }
  }
}
