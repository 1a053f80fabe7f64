/** What one push sends to the sandbox: four runs of operations, from what the mirror and the room hold. */
module PushPlan {
  import opened Paths
  import opened SandboxFs

  /** The synced files and folders: what the room shows, or what the sandbox is thought to hold. */
  datatype Mirror = Mirror(files: map<Path, Data>, dirs: set<Path>)

  /** No path is both file and folder, and what lies in a folder has that folder listed. */
  ghost predicate WellFormed(m: Mirror) {
    && m.files.Keys !! m.dirs
    && Closed(m)
  }

  ghost predicate Closed(m: Mirror) {
    forall p, d :: (p in m.files || p in m.dirs) && Ancestor(d, p) ==> d in m.dirs
  }

  /** A sandbox that holds just this. */
  function FsOf(m: Mirror): Fs {
    (map d | d in m.dirs :: Folder) + (map p | p in m.files :: File(m.files[p]))
  }

  /** The paths of one push, run by run. */
  datatype Plan = Plan(dels: seq<Path>, rmdirs: seq<Path>, mkdirs: seq<Path>, puts: seq<Path>)

  function OpsOf(t: Plan, room: Mirror): seq<Op> {
    Deletes(t.dels) + Deletes(t.rmdirs) + Mkdirs(t.mkdirs) + Writes(t.puts, room.files)
  }

  predicate Changed(m: Mirror, room: Mirror, p: Path) {
    p in room.files && !(p in m.files && m.files[p] == room.files[p])
  }

  /** A binary file can be sent only when the object store has its bytes. */
  predicate Available(store: set<string>, data: Data) {
    data.Blob? ==> data.sha in store
  }

  function ToDelete(m: Mirror, room: Mirror): set<Path> {
    set p | p in m.files && p !in room.files
  }

  function ToPut(m: Mirror, room: Mirror, store: set<string>): set<Path> {
    set p | p in room.files && Changed(m, room, p) && Available(store, room.files[p])
  }

  /**
   * The full comparison of mirror and room: files the room lacks go first, then folders,
   * those beneath before those above; then new folders from the top down, then every file
   * that differs. Files may come in any order.
   */
  ghost predicate IsPush(m: Mirror, room: Mirror, store: set<string>, t: Plan) {
    && Enumerates(t.dels, ToDelete(m, room))
    && Enumerates(t.rmdirs, m.dirs - room.dirs) && SortedDown(t.rmdirs)
    && Enumerates(t.mkdirs, room.dirs - m.dirs) && Sorted(t.mkdirs)
    && Enumerates(t.puts, ToPut(m, room, store))
  }

  /** The store can answer for every binary file that has to be sent. */
  ghost predicate Answered(m: Mirror, room: Mirror, store: set<string>) {
    forall p :: Changed(m, room, p) ==> Available(store, room.files[p])
  }
}
