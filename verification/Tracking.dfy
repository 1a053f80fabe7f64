/** What the sync remembers between pushes, and when its shortcut for text edits is sound. */
module Tracking {
  import opened Strings
  import opened Paths
  import opened PathNames
  import opened SiblingNames
  import opened RoomNodes
  import opened NewNodes
  import opened NewFiles
  import opened SandboxFs
  import opened PushPlan
  import opened RoomDoc
  import opened Attach

  /** The mirror, from its two halves. */
  function HeldFiles(written: map<Path, string>, blobs: map<Path, string>): map<Path, Data> {
    (map p | p in written :: Text(written[p])) + (map p | p in blobs :: Blob(blobs[p]))
  }

  /**
   * The mirror holds what the room shows, but for texts marked as edited; it may hold files
   * where the room has folders, which a program put there.
   */
  ghost predicate InStep(doc: Doc, held: Mirror, dirty: set<Id>) {
    var room := Shown(doc);
    && held.dirs == room.dirs
    && room.files.Keys <= held.files.Keys <= room.files.Keys + room.dirs
    && forall p :: p in room.files && held.files[p] != room.files[p] ==>
        held.files[p].Text? && doc.tree[p].blob.None? && doc.tree[p].id in dirty && doc.tree[p].id in doc.contents
  }

  /** The mirror's files are the sandbox's. */
  ghost predicate Agrees(fs: Fs, held: Mirror) {
    TreeShaped(fs) && FilesOf(fs) == held.files
  }

  /** Unless the tree is marked as changed, the paths by id are current and the mirror is in step. */
  ghost predicate Tracked(doc: Doc, held: Mirror, treeDirty: bool, dirty: set<Id>, pathById: map<Id, Path>) {
    treeDirty || (PathsById(doc.tree, pathById) && InStep(doc, held, dirty))
  }

  predicate NeedsText(doc: Doc, held: Mirror, pathById: map<Id, Path>, id: Id) {
    && id in pathById && id in doc.contents
    && !(pathById[id] in held.files && held.files[pathById[id]] == Text(doc.contents[id]))
  }

  /** What the shortcut writes: the edited texts that differ from the mirror. */
  function FastPuts(doc: Doc, held: Mirror, dirty: set<Id>, pathById: map<Id, Path>): set<Path> {
    set id | id in dirty && NeedsText(doc, held, pathById, id) :: pathById[id]
  }

  lemma FastPutsWhenTextsOnly(doc: Doc, held: Mirror, dirty: set<Id>, pathById: map<Id, Path>, store: set<string>)
    requires TreeOk(doc.tree) && PathsById(doc.tree, pathById) && InStep(doc, held, dirty)
    requires TextsOnly(doc, dirty)
    ensures FastPuts(doc, held, dirty, pathById) == ToPut(held, Shown(doc), store)
  {
    var room := Shown(doc);
    hide Ancestor, TreeOk;
    forall p | p in ToPut(held, room, store) ensures p in FastPuts(doc, held, dirty, pathById) {
      assert NeedsText(doc, held, pathById, doc.tree[p].id);
    }
    forall p | p in FastPuts(doc, held, dirty, pathById) ensures p in ToPut(held, room, store) {
      var id :| id in dirty && NeedsText(doc, held, pathById, id) && pathById[id] == p;
      assert doc.tree[p].id == id;
      assert room.files[p] == Text(doc.contents[id]);
    }
  }

  lemma NothingToDelete(held: Mirror, room: Mirror)
    ensures Enumerates([], ToDelete(held, room)) <==> held.files.Keys <= room.files.Keys
  {
    if Enumerates([], ToDelete(held, room)) {
      forall p | p in held.files ensures p in room.files { assert p !in ToDelete(held, room); }
    }
  }

  /**
   * The shortcut for text edits sends what the full comparison would send, and so needs no
   * other proof, exactly when no edited text belongs to a live folder or binary file and the
   * mirror holds no file where the room has a folder.
   */
  lemma FastPathIsPush(
      doc: Doc, held: Mirror, dirty: set<Id>, pathById: map<Id, Path>, store: set<string>, puts: seq<Path>)
    requires TreeOk(doc.tree) && PathsById(doc.tree, pathById) && InStep(doc, held, dirty)
    requires Enumerates(puts, FastPuts(doc, held, dirty, pathById))
    ensures IsPush(held, Shown(doc), store, Plan([], [], [], puts))
      <==> TextsOnly(doc, dirty) && held.files.Keys <= Shown(doc).files.Keys
  {
    NothingToDelete(held, Shown(doc));
    if TextsOnly(doc, dirty) {
      FastPutsWhenTextsOnly(doc, held, dirty, pathById, store);
    } else if held.files.Keys <= Shown(doc).files.Keys {
      var p :| p in doc.tree && doc.tree[p].id in dirty && doc.tree[p].id in doc.contents
        && !(doc.tree[p].FileNode? && doc.tree[p].blob.None?);
      assert p in puts;
    }
  }

  // ----- a change that came from the sandbox

  /** The mirror once a file reported by the sandbox is noted. */
  function Noted(held: Mirror, p: Path, data: Data): Mirror {
    Mirror(held.files[p := data], held.dirs + Ancestors(p))
  }

  // ----- a snapshot, or a run of deletions, as far as a loop has got

  function TextsAmong(doc: Doc, seen: set<Path>): map<Path, string> {
    map p | p in seen && p in doc.tree && doc.tree[p].FileNode? && doc.tree[p].blob.None? :: TextOf(doc, doc.tree[p].id)
  }

  function BlobsAmong(doc: Doc, seen: set<Path>): map<Path, string> {
    map p | p in seen && p in doc.tree && doc.tree[p].FileNode? && doc.tree[p].blob.Some? :: doc.tree[p].blob.value
  }

  function FoldersAmong(doc: Doc, seen: set<Path>): set<Path> {
    set p | p in seen && p in doc.tree && doc.tree[p].FolderNode?
  }

  ghost predicate PathsAmong(tree: Tree, seen: set<Path>, pathById: map<Id, Path>) {
    && (forall p :: p in tree && p in seen ==> tree[p].id in pathById && pathById[tree[p].id] == p)
    && (forall id :: id in pathById ==> pathById[id] in seen && pathById[id] in tree && tree[pathById[id]].id == id)
  }

  lemma AmongMore(doc: Doc, seen: set<Path>, p: Path, pathById: map<Id, Path>)
    requires DistinctIds(doc.tree) && p in doc.tree && p !in seen && PathsAmong(doc.tree, seen, pathById)
    ensures PathsAmong(doc.tree, seen + {p}, pathById[doc.tree[p].id := p])
    ensures var node := doc.tree[p]; var more := seen + {p};
      var texts, blobs, folders := TextsAmong(doc, seen), BlobsAmong(doc, seen), FoldersAmong(doc, seen);
      && TextsAmong(doc, more) == (if IsText(node) then texts[p := TextOf(doc, node.id)] else texts)
      && BlobsAmong(doc, more) == (if IsBlob(node) then blobs[p := node.blob.value] else blobs)
      && FoldersAmong(doc, more) == (if node.FolderNode? then folders + {p} else folders)
  {
    hide Ancestor, TextOf, TreeOk;
    AmongMoreTexts(doc, seen, p);
    assert PathsAmong(doc.tree, seen + {p}, pathById[doc.tree[p].id := p]) by {
      hide TextsAmong, BlobsAmong, FoldersAmong;
    }
    hide PathsAmong, TextsAmong;
  }

  predicate IsText(node: Node) {
    node.FileNode? && node.blob.None?
  }

  predicate IsBlob(node: Node) {
    node.FileNode? && node.blob.Some?
  }

  lemma AmongMoreTexts(doc: Doc, seen: set<Path>, p: Path)
    requires p in doc.tree && p !in seen
    ensures var node, texts := doc.tree[p], TextsAmong(doc, seen);
      TextsAmong(doc, seen + {p}) == if IsText(node) then texts[p := TextOf(doc, node.id)] else texts
  {}

  lemma AmongAll(doc: Doc, seen: set<Path>, pathById: map<Id, Path>)
    requires seen == doc.tree.Keys && PathsAmong(doc.tree, seen, pathById)
    ensures Mirror(HeldFiles(TextsAmong(doc, seen), BlobsAmong(doc, seen)), FoldersAmong(doc, seen)) == Shown(doc)
    ensures TextsAmong(doc, seen).Keys !! BlobsAmong(doc, seen).Keys
    ensures PathsById(doc.tree, pathById)
  {}

  function Restrict<V>(m: map<Path, V>, keys: set<Path>): map<Path, V> {
    map p | p in m && p in keys :: m[p]
  }

  lemma RestrictMore(held: map<Path, string>, m: map<Path, string>, seen: set<Path>, p: Path)
    requires p in m && p !in seen
    ensures var now := held + Restrict(m, seen);
      && held + Restrict(m, seen + {p}) == now[p := m[p]]
      && ((p in now && now[p] == m[p]) <==> (p in held && held[p] == m[p]))
      && (p in now && now[p] == m[p] ==> now[p := m[p]] == now)
  {}

  lemma RestrictLess<V>(m: map<Path, V>, todo: set<Path>, p: Path, kept: set<Path>)
    requires p !in todo
    ensures Restrict(m, todo + kept) == if p in kept then Restrict(m, todo + {p} + kept)
      else Restrict(m, todo + {p} + kept) - {p}
  {}

  lemma MarkSeen(seen: set<Path>, p: Path, a: set<Path>, b: set<Path>, dels: seq<Path>)
    requires p !in seen && Enumerates(dels, seen - a - b)
    ensures if p in a || p in b then Enumerates(dels, seen + {p} - a - b)
      else Enumerates(dels + [p], seen + {p} - a - b)
  {
    if p in a || p in b {
      assert seen + {p} - a - b == seen - a - b;
    } else {
      assert seen + {p} - a - b == (seen - a - b) + {p};
    }
  }

  /** Taking the next of a list in order, unless it is to stay. */
  lemma NextInOrder(ordered: seq<Path>, i: nat, gone: seq<Path>, stay: set<Path>)
    requires i < |ordered| && SortedDown(ordered) && SortedDown(gone)
    requires Enumerates(gone, Elements(ordered[..i]) - stay)
    ensures var more := if ordered[i] in stay then gone else gone + [ordered[i]];
      Enumerates(more, Elements(ordered[..i + 1]) - stay) && SortedDown(more)
  {
    var p := ordered[i];
    assert ordered[..i + 1] == ordered[..i] + [p];
    ElementsLast(ordered[..i], p);
    if p in stay {
      assert Elements(ordered[..i + 1]) - stay == Elements(ordered[..i]) - stay;
    } else {
      assert p !in ordered[..i] by {
        forall k | 0 <= k < i ensures ordered[k] != p { BeforeAsymmetric(p, ordered[k]); }
      }
      assert Elements(ordered[..i + 1]) - stay == (Elements(ordered[..i]) - stay) + {p};
      forall k | 0 <= k < |gone| ensures Before(p, gone[k]) {
        assert gone[k] in Elements(ordered[..i]);
        var j :| 0 <= j < i && ordered[j] == gone[k];
      }
    }
  }

  lemma NextUp(ordered: seq<Path>, i: nat, made: seq<Path>, stay: set<Path>)
    requires i < |ordered| && Sorted(ordered) && Sorted(made)
    requires Enumerates(made, Elements(ordered[..i]) - stay)
    ensures ordered[i] !in Elements(ordered[..i])
    ensures var more := if ordered[i] in stay then made else made + [ordered[i]];
      Enumerates(more, Elements(ordered[..i + 1]) - stay) && Sorted(more)
  {
    var p := ordered[i];
    assert ordered[..i + 1] == ordered[..i] + [p];
    ElementsLast(ordered[..i], p);
    assert p !in ordered[..i] by {
      forall k | 0 <= k < i ensures ordered[k] != p { BeforeAsymmetric(ordered[k], p); }
    }
    if p in stay {
      assert Elements(ordered[..i + 1]) - stay == Elements(ordered[..i]) - stay;
    } else {
      assert Elements(ordered[..i + 1]) - stay == (Elements(ordered[..i]) - stay) + {p};
      forall k | 0 <= k < |made| ensures Before(made[k], p) {
        assert made[k] in Elements(ordered[..i]);
        var j :| 0 <= j < i && ordered[j] == made[k];
      }
    }
  }

  /** Going through a map, those that differ from what was held before. */
  function Differing(m: map<Path, string>, held: map<Path, string>, seen: set<Path>): set<Path> {
    set p | p in m && p in seen && !(p in held && held[p] == m[p])
  }

  lemma DifferingMore(m: map<Path, string>, held: map<Path, string>, seen: set<Path>, p: Path, puts: seq<Path>)
    requires p in m && p !in seen && Enumerates(puts, Differing(m, held, seen))
    ensures if p in held && held[p] == m[p] then Enumerates(puts, Differing(m, held, seen + {p}))
            else Enumerates(puts + [p], Differing(m, held, seen + {p}))
  {
    if p in held && held[p] == m[p] {
      assert Differing(m, held, seen + {p}) == Differing(m, held, seen);
    } else {
      assert Differing(m, held, seen + {p}) == Differing(m, held, seen) + {p};
    }
  }

  function Sendable(m: map<Path, string>, ps: set<Path>, store: set<string>): set<Path> {
    set p | p in ps && p in m && m[p] in store
  }

  lemma SendableMore(m: map<Path, string>, held: map<Path, string>, seen: set<Path>, p: Path, store: set<string>,
    puts: seq<Path>)
    requires p in m && p !in seen && Enumerates(puts, Sendable(m, Differing(m, held, seen), store))
    ensures if (p in held && held[p] == m[p]) || m[p] !in store
            then Enumerates(puts, Sendable(m, Differing(m, held, seen + {p}), store))
            else Enumerates(puts + [p], Sendable(m, Differing(m, held, seen + {p}), store))
  {
    var before, after := Sendable(m, Differing(m, held, seen), store),
      Sendable(m, Differing(m, held, seen + {p}), store);
    if (p in held && held[p] == m[p]) || m[p] !in store {
      assert after == before;
    } else {
      assert after == before + {p};
    }
  }

  lemma EnumeratesBoth(a: seq<Path>, s: set<Path>, b: seq<Path>, t: set<Path>)
    requires Enumerates(a, s) && Enumerates(b, t) && s !! t
    ensures Enumerates(a + b, s + t)
  {
    forall i, j | 0 <= i < j < |a + b| ensures (a + b)[i] != (a + b)[j] {
      if i < |a| <= j { assert a[i] in s && b[j - |a|] in t; }
    }
  }

  lemma RunsJoin(a: seq<Path>, b: seq<Path>, files: map<Path, Data>)
    ensures Deletes(a + b) == Deletes(a) + Deletes(b) && Writes(a + b, files) == Writes(a, files) + Writes(b, files)
  {}

  /** The six loops of a push, two over texts, two over binary files and two over folders, are one push. */
  lemma LoopsArePush(
      written: map<Path, string>, writtenBlobs: map<Path, string>, dirs: set<Path>,
      files: map<Path, string>, blobs: map<Path, string>, folders: set<Path>, store: set<string>, t: Plan)
    requires written.Keys !! writtenBlobs.Keys && files.Keys !! blobs.Keys
    requires Enumerates(t.dels, (written.Keys - files.Keys - blobs.Keys)
      + (writtenBlobs.Keys - blobs.Keys - files.Keys))
    requires Enumerates(t.rmdirs, dirs - folders) && SortedDown(t.rmdirs)
    requires Enumerates(t.mkdirs, folders - dirs) && Sorted(t.mkdirs)
    requires Enumerates(t.puts, Differing(files, Restrict(written, files.Keys), files.Keys)
      + Sendable(blobs, Differing(blobs, Restrict(writtenBlobs, blobs.Keys), blobs.Keys), store))
    ensures IsPush(Mirror(HeldFiles(written, writtenBlobs), dirs), Mirror(HeldFiles(files, blobs), folders), store, t)
  {
    var held, room := Mirror(HeldFiles(written, writtenBlobs), dirs), Mirror(HeldFiles(files, blobs), folders);
    hide Enumerates, Sorted, SortedDown;
    assert ToDelete(held, room) == (written.Keys - files.Keys - blobs.Keys)
      + (writtenBlobs.Keys - blobs.Keys - files.Keys);
    PutsJoin(written, writtenBlobs, dirs, files, blobs, folders, store);
  }

  lemma PutsJoin(
      written: map<Path, string>, writtenBlobs: map<Path, string>, dirs: set<Path>,
      files: map<Path, string>, blobs: map<Path, string>, folders: set<Path>, store: set<string>)
    requires written.Keys !! writtenBlobs.Keys && files.Keys !! blobs.Keys
    ensures ToPut(Mirror(HeldFiles(written, writtenBlobs), dirs), Mirror(HeldFiles(files, blobs), folders), store)
      == Differing(files, Restrict(written, files.Keys), files.Keys)
         + Sendable(blobs, Differing(blobs, Restrict(writtenBlobs, blobs.Keys), blobs.Keys), store)
  {
    var held, room := Mirror(HeldFiles(written, writtenBlobs), dirs), Mirror(HeldFiles(files, blobs), folders);
    var texts := Differing(files, Restrict(written, files.Keys), files.Keys);
    var bins := Sendable(blobs, Differing(blobs, Restrict(writtenBlobs, blobs.Keys), blobs.Keys), store);
    forall p ensures p in ToPut(held, room, store) <==> p in texts || p in bins {
      if p in files { PutText(written, writtenBlobs, files, blobs, p); }
      if p in blobs { PutBlob(written, writtenBlobs, files, blobs, p); }
      hide HeldFiles, Restrict;
      assert p in room.files <==> p in files || p in blobs by { HeldKeys(files, blobs); }
    }
  }

  lemma HeldKeys(files: map<Path, string>, blobs: map<Path, string>)
    ensures HeldFiles(files, blobs).Keys == files.Keys + blobs.Keys
  {}

  lemma PutText(written: map<Path, string>, writtenBlobs: map<Path, string>, files: map<Path, string>,
    blobs: map<Path, string>, p: Path)
    requires p in files && written.Keys !! writtenBlobs.Keys && files.Keys !! blobs.Keys
    ensures HeldFiles(files, blobs)[p] == Text(files[p]) && p in Restrict(files, files.Keys)
    ensures (p in HeldFiles(written, writtenBlobs) && HeldFiles(written, writtenBlobs)[p] == Text(files[p]))
      <==> (p in Restrict(written, files.Keys) && Restrict(written, files.Keys)[p] == files[p])
  {}

  lemma PutBlob(written: map<Path, string>, writtenBlobs: map<Path, string>, files: map<Path, string>,
    blobs: map<Path, string>, p: Path)
    requires p in blobs && written.Keys !! writtenBlobs.Keys && files.Keys !! blobs.Keys
    ensures HeldFiles(files, blobs)[p] == Blob(blobs[p]) && p in Restrict(blobs, blobs.Keys)
    ensures (p in HeldFiles(written, writtenBlobs) && HeldFiles(written, writtenBlobs)[p] == Blob(blobs[p]))
      <==> (p in Restrict(writtenBlobs, blobs.Keys) && Restrict(writtenBlobs, blobs.Keys)[p] == blobs[p])
  {}

  lemma FastPutsMore(doc: Doc, held: Mirror, seen: set<Id>, pathById: map<Id, Path>, id: Id, puts: seq<Path>)
    requires PathsById(doc.tree, pathById)
    requires id !in seen && Enumerates(puts, FastPuts(doc, held, seen, pathById))
    ensures id in pathById ==> pathById[id] !in puts
    ensures if !NeedsText(doc, held, pathById, id) then Enumerates(puts, FastPuts(doc, held, seen + {id}, pathById))
            else Enumerates(puts + [pathById[id]], FastPuts(doc, held, seen + {id}, pathById))
  {
    var before, after := FastPuts(doc, held, seen, pathById), FastPuts(doc, held, seen + {id}, pathById);
    assert id in pathById ==> pathById[id] !in before;
    if NeedsText(doc, held, pathById, id) {
      assert after == before + {pathById[id]};
    } else {
      assert after == before;
    }
  }

  lemma FastPutsNow(
      doc: Doc, held: Mirror, dirty: set<Id>, pathById: map<Id, Path>, id: Id, puts: seq<Path>,
      written: map<Path, string>, writtenBlobs: map<Path, string>)
    requires DocOk(doc) && PathsById(doc.tree, pathById) && InStep(doc, held, dirty)
    requires held.files == HeldFiles(written, writtenBlobs) && written.Keys !! writtenBlobs.Keys
    requires id in pathById && id in doc.contents && pathById[id] !in puts
    ensures var now := written + TextsAmong(doc, Elements(puts));
      var p := pathById[id];
      && (NeedsText(doc, held, pathById, id) <==> !(p in now && now[p] == doc.contents[id]))
      && DataAt(Shown(doc).files, p) == Text(doc.contents[id])
      && written + TextsAmong(doc, Elements(puts + [p])) == now[p := doc.contents[id]]
  {
    var p := pathById[id];
    assert doc.tree[p].FileNode? && doc.tree[p].blob.None?;
    assert Shown(doc).files[p] == Text(doc.contents[id]);
    assert held.files[p] == Shown(doc).files[p] || held.files[p].Text?;
    hide Ancestor, InStep, TreeOk, PathsById, Shown;
    ElementsLast(puts, p);
    TextsAmongMore(doc, Elements(puts), p);
    UpdateLast(written, TextsAmong(doc, Elements(puts)), p, doc.contents[id]);
  }

  lemma TextsAmongMore(doc: Doc, seen: set<Path>, p: Path)
    requires p in doc.tree && doc.tree[p].FileNode? && doc.tree[p].blob.None?
    ensures TextsAmong(doc, seen + {p}) == TextsAmong(doc, seen)[p := TextOf(doc, doc.tree[p].id)]
  {}

  lemma FastPutsStep(
      doc: Doc, held: Mirror, dirty: set<Id>, seen: set<Id>, pathById: map<Id, Path>, id: Id, puts: seq<Path>,
      written: map<Path, string>, writtenBlobs: map<Path, string>)
    requires DocOk(doc) && PathsById(doc.tree, pathById) && InStep(doc, held, dirty)
    requires held.files == HeldFiles(written, writtenBlobs) && written.Keys !! writtenBlobs.Keys
    requires id !in seen && Enumerates(puts, FastPuts(doc, held, seen, pathById))
    ensures var now := written + TextsAmong(doc, Elements(puts));
      if id in pathById && id in doc.contents && !(pathById[id] in now && now[pathById[id]] == doc.contents[id]) then
        var p := pathById[id];
        && Enumerates(puts + [p], FastPuts(doc, held, seen + {id}, pathById))
        && DataAt(Shown(doc).files, p) == Text(doc.contents[id])
        && written + TextsAmong(doc, Elements(puts + [p])) == now[p := doc.contents[id]]
      else
        Enumerates(puts, FastPuts(doc, held, seen + {id}, pathById))
  {
    FastPutsMore(doc, held, seen, pathById, id, puts);
    assert !(id in pathById && id in doc.contents) ==> !NeedsText(doc, held, pathById, id);
    hide *;
    if id in pathById && id in doc.contents {
      FastPutsNow(doc, held, dirty, pathById, id, puts, written, writtenBlobs);
    }
  }

  lemma FastPutsNone(doc: Doc, held: Mirror, pathById: map<Id, Path>, written: map<Path, string>,
    room: map<Path, Data>, fs: Fs)
    ensures Enumerates([], FastPuts(doc, held, {}, pathById))
    ensures written + TextsAmong(doc, Elements([])) == written
    ensures Writes([], room) == [] && Run(fs, []) == fs
  {}

  /** The mirror once the shortcut has written what differed: the room's files, and any it keeps where folders are. */
  function Caught(doc: Doc, held: Mirror): Mirror {
    Mirror(held.files + Shown(doc).files, held.dirs)
  }

  lemma TextsCaughtUp(
      doc: Doc, held: Mirror, dirty: set<Id>, pathById: map<Id, Path>, puts: seq<Path>,
      written: map<Path, string>, writtenBlobs: map<Path, string>)
    requires DocOk(doc) && PathsById(doc.tree, pathById) && InStep(doc, held, dirty)
    requires held.files == HeldFiles(written, writtenBlobs) && written.Keys !! writtenBlobs.Keys
    requires Enumerates(puts, FastPuts(doc, held, dirty, pathById))
    ensures var now := written + TextsAmong(doc, Elements(puts));
      now.Keys !! writtenBlobs.Keys && HeldFiles(now, writtenBlobs) == Caught(doc, held).files
  {
    FastPutsWhenTextsOnly(doc, held, dirty, pathById, {});
    var room := Shown(doc);
    var now := written + TextsAmong(doc, Elements(puts));
    forall p
      ensures p in puts <==> p in room.files && held.files[p] != room.files[p]
      ensures p in puts ==> p in written && p in now && room.files[p] == Text(now[p])
      ensures p !in puts ==> (p in now <==> p in written) && (p in now ==> now[p] == written[p])
    {
      assert p in puts <==> p in ToPut(held, room, {});
    }
    assert now.Keys == written.Keys;
    assert room.files.Keys <= held.files.Keys;
    hide *;
    SameHeld(held.files, room.files, written, now, writtenBlobs);
    assert HeldFiles(now, writtenBlobs) == held.files + room.files;
    CaughtIs(doc, held);
  }

  lemma CaughtIs(doc: Doc, held: Mirror)
    ensures Caught(doc, held) == Mirror(held.files + Shown(doc).files, held.dirs)
  {}

  lemma SameHeld(held: map<Path, Data>, room: map<Path, Data>, written: map<Path, string>, now: map<Path, string>,
    blobs: map<Path, string>)
    requires held == HeldFiles(written, blobs) && written.Keys !! blobs.Keys && now.Keys == written.Keys
    requires room.Keys <= held.Keys
    requires forall p :: p in room && held[p] != room[p] ==> p in now && room[p] == Text(now[p])
    requires forall p :: p in now && !(p in room && held[p] != room[p]) ==> now[p] == written[p]
    ensures HeldFiles(now, blobs) == held + room
  {}

  /** And still in step, with nothing left to write. */
  lemma CaughtInStep(doc: Doc, held: Mirror, dirty: set<Id>)
    requires InStep(doc, held, dirty)
    ensures InStep(doc, Caught(doc, held), {})
  {}

  /** The shortcut overwrites files that are there: then too the mirror's files are the sandbox's. */
  lemma ShortcutKeepsFiles(doc: Doc, fs: Fs, held: Mirror, dirty: set<Id>, pathById: map<Id, Path>, puts: seq<Path>)
    requires DocOk(doc) && PathsById(doc.tree, pathById) && InStep(doc, held, dirty) && Agrees(fs, held)
    requires Enumerates(puts, FastPuts(doc, held, dirty, pathById))
    ensures Agrees(Run(fs, Writes(puts, Shown(doc).files)), Caught(doc, held))
  {
    var files := Shown(doc).files;
    FastPutsWhenTextsOnly(doc, held, dirty, pathById, {});
    forall p ensures p in puts <==> p in files && held.files[p] != files[p] {
      assert p in puts <==> p in ToPut(held, Shown(doc), {});
    }
    assert files.Keys <= FilesOf(fs).Keys;
    hide DocOk, InStep, PathsById, FastPuts, Shown, Ancestor, ToPut;
    assert forall p :: p in puts ==> p in fs && fs[p].File? && InFolders(fs, p);
    WriteAll(fs, puts, files);
    Overwritten(fs, puts, files, held);
    CaughtIs(doc, held);
    hide *;
  }

  lemma Overwritten(fs: Fs, puts: seq<Path>, files: map<Path, Data>, held: Mirror)
    requires TreeShaped(fs) && FilesOf(fs) == held.files && files.Keys <= held.files.Keys
    requires forall p :: p in puts <==> p in files && held.files[p] != files[p]
    ensures TreeShaped(fs + Entries(puts, files)) && FilesOf(fs + Entries(puts, files)) == held.files + files
  {
    hide Ancestor;
    var next := fs + Entries(puts, files);
    assert forall p :: p in files ==> p in fs && fs[p] == File(held.files[p]) by {
      forall p | p in files ensures p in fs && fs[p] == File(held.files[p]) { assert p in FilesOf(fs); }
    }
    assert forall d :: d in fs && fs[d] == Folder ==> d in next && next[d] == Folder;
  }

  lemma CaughtUp(doc: Doc, pathById: map<Id, Path>)
    requires PathsById(doc.tree, pathById)
    ensures Tracked(doc, Shown(doc), false, {}, pathById)
  {}

  lemma AllHeld(written: map<Path, string>, m: map<Path, string>)
    ensures Restrict(written, m.Keys) + m == m
  {}

  lemma OnlyWrites(puts: seq<Path>, room: Mirror)
    ensures OpsOf(Plan([], [], [], puts), room) == Writes(puts, room.files)
  {}

  lemma PutsApart(written: map<Path, string>, writtenBlobs: map<Path, string>, files: map<Path, string>,
    blobs: map<Path, string>, store: set<string>)
    requires files.Keys !! blobs.Keys
    ensures Differing(files, written, files.Keys) !! Sendable(blobs, Differing(blobs, writtenBlobs, blobs.Keys), store)
    ensures var room := HeldFiles(files, blobs);
      (forall p :: p in files ==> p in room && room[p] == Text(files[p]))
        && (forall p :: p in blobs ==> p in room && room[p] == Blob(blobs[p]))
  {}

  lemma Associate(a: seq<Op>, b: seq<Op>, c: seq<Op>)
    ensures a + (b + c) == a + b + c
  {}

  lemma {:induction false} TwoRuns(log: seq<Op>, fs: Fs, a: seq<Op>, b: seq<Op>)
    ensures log + a + b == log + (a + b)
    ensures Run(Run(fs, a), b) == Run(fs, a + b)
  {
    hide *;
    RunConcat(fs, a, b);
    Associate(log, a, b);
  }

  lemma {:induction false} ThreeRuns(log: seq<Op>, fs: Fs, a: seq<Op>, b: seq<Op>, c: seq<Op>)
    ensures log + a + b + c == log + (a + b + c)
    ensures Run(Run(Run(fs, a), b), c) == Run(fs, a + b + c)
  {
    hide *;
    TwoRuns(log, fs, a, b);
    TwoRuns(log, fs, a + b, c);
  }

  lemma PushDone(
      doc: Doc, pathById: map<Id, Path>, written: map<Path, string>, writtenBlobs: map<Path, string>, dirs: set<Path>,
      files: map<Path, string>, blobs: map<Path, string>, folders: set<Path>, store: set<string>, t: Plan,
      log: seq<Op>, fs: Fs)
    requires written.Keys !! writtenBlobs.Keys && files.Keys !! blobs.Keys
    requires Shown(doc) == Mirror(HeldFiles(files, blobs), folders) && PathsById(doc.tree, pathById)
    requires Enumerates(t.dels, (written.Keys - files.Keys - blobs.Keys)
      + (writtenBlobs.Keys - blobs.Keys - files.Keys))
    requires Enumerates(t.rmdirs, dirs - folders) && SortedDown(t.rmdirs)
    requires Enumerates(t.mkdirs, folders - dirs * folders) && Sorted(t.mkdirs)
    requires Enumerates(t.puts, Differing(files, Restrict(written, files.Keys), files.Keys)
      + Sendable(blobs, Differing(blobs, Restrict(writtenBlobs, blobs.Keys), blobs.Keys), store))
    ensures IsPush(Mirror(HeldFiles(written, writtenBlobs), dirs), Shown(doc), store, t)
    ensures Restrict(written, files.Keys) + files == files && Restrict(writtenBlobs, blobs.Keys) + blobs == blobs
    ensures dirs * folders + folders == folders
    ensures Tracked(doc, Shown(doc), false, {}, pathById)
    ensures var down, up := Deletes(t.dels) + Deletes(t.rmdirs), Mkdirs(t.mkdirs) + Writes(t.puts, Shown(doc).files);
      log + down + up == log + OpsOf(t, Shown(doc)) && Run(Run(fs, down), up) == Run(fs, OpsOf(t, Shown(doc)))
  {
    CaughtUp(doc, pathById);
    hide HeldFiles, Restrict, Differing, Sendable, Enumerates, Shown, PathsById, Run, Deletes, Mkdirs, Writes, Sorted,
      SortedDown, IsPush, InStep, Tracked;
    AllHeld(written, files);
    AllHeld(writtenBlobs, blobs);
    LoopsArePush(written, writtenBlobs, dirs, files, blobs, folders, store, t);
    TwoRuns(log, fs, Deletes(t.dels) + Deletes(t.rmdirs), Mkdirs(t.mkdirs) + Writes(t.puts, Shown(doc).files));
    Associate(Deletes(t.dels) + Deletes(t.rmdirs), Mkdirs(t.mkdirs), Writes(t.puts, Shown(doc).files));
  }

  lemma AttachPuts(files: map<Path, string>, blobs: map<Path, string>, dirs: set<Path>, store: set<string>)
    requires files.Keys !! blobs.Keys
    ensures Differing(files, map[], files.Keys) + Sendable(blobs, Differing(blobs, map[], blobs.Keys), store)
      == ToPut(Mirror(map[], {}), Mirror(HeldFiles(files, blobs), dirs), store)
  {}

  lemma RoomAgrees(room: Mirror)
    requires WellFormed(room)
    ensures Agrees(FsOf(room), room)
  {
    hide Ancestor;
  }

  lemma NotedHeld(written: map<Path, string>, writtenBlobs: map<Path, string>, p: Path, data: Data)
    requires written.Keys !! writtenBlobs.Keys
    ensures HeldFiles(written, writtenBlobs)[p := data] == match data
      case Text(text) => HeldFiles(written[p := text], writtenBlobs - {p})
      case Blob(sha) => HeldFiles(written - {p}, writtenBlobs[p := sha])
  {
    match data
    case Text(text) => NotedText(written, writtenBlobs, p, text);
    case Blob(sha) => NotedBlob(written, writtenBlobs, p, sha);
  }

  lemma NotedText(written: map<Path, string>, writtenBlobs: map<Path, string>, p: Path, text: string)
    requires written.Keys !! writtenBlobs.Keys
    ensures HeldFiles(written, writtenBlobs)[p := Text(text)] == HeldFiles(written[p := text], writtenBlobs - {p})
  {}

  lemma NotedBlob(written: map<Path, string>, writtenBlobs: map<Path, string>, p: Path, sha: string)
    requires written.Keys !! writtenBlobs.Keys
    ensures HeldFiles(written, writtenBlobs)[p := Blob(sha)] == HeldFiles(written - {p}, writtenBlobs[p := sha])
  {}

  /** New data in a file the room has: noting it in mirror and document alike keeps them in step. */
  lemma DataStaysTracked(doc: Doc, held: Mirror, dirty: set<Id>, p: Path, data: Data)
    requires DocOk(doc) && InStep(doc, held, dirty) && p in doc.tree && doc.tree[p].FileNode?
    ensures var (marked, texts) := Marks(doc, false, dirty, p, data);
      marked || InStep(WithData(doc, p, data), Noted(held, p, data), texts)
  {
    hide Ancestor, Ancestors, TreeOk, DataOf, TextsOnly, Shown;
    AboveInDirs(doc, p);
    assert held.dirs + Ancestors(p) == held.dirs;
    WithDataOk(doc, p, data);
    OthersStay(doc, p, data);
    hide WithData, TextEdit;
  }

  lemma AboveInDirs(doc: Doc, p: Path)
    requires DocOk(doc) && p in doc.tree
    ensures Ancestors(p) <= Shown(doc).dirs
  {}

  lemma OthersStay(doc: Doc, p: Path, data: Data)
    requires DocOk(doc) && p in doc.tree && doc.tree[p].FileNode?
    ensures var next := WithData(doc, p, data);
      forall q | q in doc.tree && q != p ::
        q in next.tree && next.tree[q] == doc.tree[q]
          && (doc.tree[q].id in next.contents <==> doc.tree[q].id in doc.contents)
  {
    hide Ancestor;
  }

  /** At a folder of the room the mirror alone notes the file; they stay in step. */
  lemma FolderStaysTracked(doc: Doc, held: Mirror, dirty: set<Id>, p: Path, data: Data)
    requires DocOk(doc) && InStep(doc, held, dirty) && p in doc.tree && doc.tree[p].FolderNode?
    ensures InStep(doc, Noted(held, p, data), dirty)
  {
    AboveInDirs(doc, p);
    hide Ancestor, Ancestors, TreeOk, DataOf, TextsOnly;
    assert held.dirs + Ancestors(p) == held.dirs;
  }

  /** Whatever file a program's report brings, the memory of the last push stays right. */
  lemma EventStaysTracked(
      room: Room, held: Mirror, treeDirty: bool, dirty: set<Id>, pathById: map<Id, Path>, p: Path, data: Data,
      makes: Makes)
    requires RoomOk(room) && Tracked(View(room), held, treeDirty, dirty, pathById)
    requires p !in TreeOf(room.nodes) ==> CanMake(room, p, makes) && NoBlankMade(room.nodes, p)
    ensures p !in TreeOf(room.nodes) ==> Covers(makes, p) && p != ""
    ensures var (marked, texts) := Marks(View(room), treeDirty, dirty, p, data);
      var next := AfterWrite(room, p, data, makes);
      RoomOk(next) && Tracked(View(next), Noted(held, p, data), marked, texts, pathById)
  {
    var doc := View(room);
    RoomIsWellFormed(room);
    if p !in doc.tree {
      WithFileOk(room, p, data, makes);
      hide RoomOk, WithFile, CanMake, NoBlankMade, InStep, PathsById, Noted;
    } else if doc.tree[p].FileNode? {
      SetDataShows(room, p, data);
      hide RoomOk, SetData, TreeOf, CanMake, DocOk;
      if !treeDirty {
        DataStaysTracked(doc, held, dirty, p, data);
        SamePaths(doc, p, data, pathById);
      }
      hide InStep, PathsById, Noted, WithData, TextEdit;
    } else if !treeDirty {
      FolderStaysTracked(doc, held, dirty, p, data);
    }
  }

  lemma SamePaths(doc: Doc, p: Path, data: Data, pathById: map<Id, Path>)
    requires PathsById(doc.tree, pathById) && p in doc.tree && doc.tree[p].FileNode?
    ensures PathsById(WithData(doc, p, data).tree, pathById)
  {}

  /** What a program writes where it can, the mirror notes: at any path, whatever the mirror had there. */
  lemma WroteInSync(fs: Fs, held: Mirror, p: Path, data: Data)
    requires Agrees(fs, held) && InFolders(fs, p) && !(p in fs && fs[p].Folder?)
    ensures Agrees(fs[p := File(data)], Noted(held, p, data))
  {
    hide Ancestor;
  }

  lemma FolderInSync(fs: Fs, held: Mirror, d: Path)
    requires Agrees(fs, held)
    ensures d !in fs && InFolders(fs, d) ==> Agrees(fs[d := Folder], held)
    ensures (d in fs && fs[d].Folder? && forall q :: q in fs ==> !Ancestor(d, q)) ==> Agrees(fs - {d}, held)
  {
    hide Ancestor;
    assert d !in fs ==> FilesOf(fs[d := Folder]) == FilesOf(fs);
    assert d in fs && fs[d].Folder? ==> FilesOf(fs - {d}) == FilesOf(fs);
  }

  lemma RemovedHeld(written: map<Path, string>, writtenBlobs: map<Path, string>, p: Path)
    requires written.Keys !! writtenBlobs.Keys
    ensures HeldFiles(written - {p}, writtenBlobs - {p}) == HeldFiles(written, writtenBlobs) - {p}
  {}

  lemma RemovedInSync(fs: Fs, held: Mirror, p: Path)
    requires Agrees(fs, held) && p in fs && fs[p].File?
    ensures Agrees(fs - {p}, Mirror(held.files - {p}, held.dirs))
  {
    hide Ancestor;
    assert FilesOf(fs - {p}) == FilesOf(fs) - {p};
  }

  lemma RemovedStaysTracked(doc: Doc, held: Mirror, treeDirty: bool, dirty: set<Id>, pathById: map<Id, Path>, p: Path)
    requires Tracked(doc, held, treeDirty, dirty, pathById) && !(p in doc.tree && doc.tree[p].FileNode?)
    ensures Tracked(doc, Mirror(held.files - {p}, held.dirs), treeDirty, dirty, pathById)
  {}

  lemma AttachDone(
      fs: Fs, room: Mirror, files: map<Path, string>, blobs: map<Path, string>, store: set<string>, made: seq<Path>,
      puts: seq<Path>)
    requires TreeShaped(fs) && WellFormed(room) && files.Keys !! blobs.Keys && room.files == HeldFiles(files, blobs)
    requires Enumerates(made, room.dirs - {})
    requires Enumerates(puts, Differing(files, map[], files.Keys)
      + Sendable(blobs, Differing(blobs, map[], blobs.Keys), store))
    ensures var after := Run(Reconciled(fs, files.Keys + blobs.Keys, room.dirs),
      Mkdirs(made) + Writes(puts, room.files));
      (after == FsOf(room) <==> AllAtHand(fs, room, store)) && (after == FsOf(room) ==> Agrees(after, room))
    ensures map[] + files == files && map[] + blobs == blobs && {} + room.dirs == room.dirs
  {
    hide *;
    HeldKeys(files, blobs);
    AttachPuts(files, blobs, room.dirs, store);
    RoomAgrees(room);
    assert room.dirs - {} == room.dirs;
    assert room == Mirror(HeldFiles(files, blobs), room.dirs);
    AttachIsExact(fs, room, store, made, puts);
  }
}
