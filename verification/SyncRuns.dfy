/** Whole runs of the sync: edits in the room, pushes, and what programs do, in any order. */
module SyncRuns {
  import opened Strings
  import opened Paths
  import opened SiblingNames
  import opened RoomNodes
  import opened NewNodes
  import opened SandboxFs
  import opened PushPlan
  import opened PushExact
  import opened RoomDoc
  import opened Tracking
  import opened SyncSteps

  ghost predicate CanRun(s: Sync, actions: seq<Action>)
    decreases |actions|, 0
  {
    actions == [] ||
      (CanRun(s, actions[..|actions| - 1]) && Enabled(RunOf(s, actions[..|actions| - 1]), actions[|actions| - 1]))
  }

  ghost function RunOf(s: Sync, actions: seq<Action>): Sync
    requires CanRun(s, actions)
    decreases |actions|, 1
  {
    if actions == [] then s else After(RunOf(s, actions[..|actions| - 1]), actions[|actions| - 1])
  }

  /** Before the run and after each of its steps the mirror's files are the sandbox's. */
  ghost predicate AlwaysInSync(s: Sync, actions: seq<Action>)
    requires CanRun(s, actions)
    decreases |actions|
  {
    (actions == [] || AlwaysInSync(s, actions[..|actions| - 1])) && InSync(RunOf(s, actions))
  }

  /** Each push of the run was clean when it came, and no file was left alone that the mirror has not. */
  ghost predicate AllHarmless(s: Sync, actions: seq<Action>)
    requires CanRun(s, actions)
    decreases |actions|
  {
    actions == [] ||
      (AllHarmless(s, actions[..|actions| - 1])
        && Harmless(RunOf(s, actions[..|actions| - 1]), actions[|actions| - 1]))
  }

  /** After every step of every run the memory of the last push is right. */
  lemma {:induction false} EveryRunRight(s: Sync, actions: seq<Action>)
    requires Right(s) && CanRun(s, actions)
    ensures Right(RunOf(s, actions))
    decreases |actions|
  {
    hide Right, After, Enabled;
    if actions != [] {
      EveryRunRight(s, actions[..|actions| - 1]);
      StepKeepsRight(RunOf(s, actions[..|actions| - 1]), actions[|actions| - 1]);
    }
  }

  /** The mirror is what the sandbox holds, at every step of a run, exactly if each step was harmless. */
  lemma {:induction false} EveryRunInSync(s: Sync, actions: seq<Action>)
    requires Right(s) && InSync(s) && CanRun(s, actions)
    ensures AlwaysInSync(s, actions) <==> AllHarmless(s, actions)
    decreases |actions|
  {
    hide Right, After, Enabled, InSync, Harmless;
    if actions != [] {
      var before := actions[..|actions| - 1];
      EveryRunRight(s, before);
      EveryRunInSync(s, before);
      if AlwaysInSync(s, before) {
        InSyncNow(s, before);
        StepInSync(RunOf(s, before), actions[|actions| - 1]);
      }
    }
  }

  lemma InSyncNow(s: Sync, actions: seq<Action>)
    requires CanRun(s, actions) && AlwaysInSync(s, actions)
    ensures InSync(RunOf(s, actions))
  {}

  /** Where such a run can begin: with a sandbox that was brought in line. */
  lemma AttachedIsKept(room: Room, paths: map<Id, Path>, store: set<string>)
    requires RoomOk(room) && PathsById(TreeOf(room.nodes), paths)
    ensures var s := Sync(room, Shown(View(room)), false, {}, paths, FsOf(Shown(View(room))), store);
      Right(s) && InSync(s)
  {
    hide RoomOk, Tracked, Agrees, Shown, PathsById, TreeOf;
    RoomIsWellFormed(room);
    CaughtUp(View(room), paths);
    RoomAgrees(Shown(View(room)));
  }

  /**
   * In any such run, a clean push leaves the sandbox with every file the room shows, and with
   * no other, but that a shortcut leaves a file where the room has a folder.
   */
  lemma PushedIsShown(s: Sync, actions: seq<Action>, plan: Plan, paths: map<Id, Path>)
    requires Right(s) && InSync(s) && CanRun(s, actions) && AllHarmless(s, actions)
    requires CanPush(RunOf(s, actions), plan, paths) && Clean(RunOf(s, actions))
    ensures var now := RunOf(s, actions); var files := FilesOf(AfterPush(now, plan, paths).fs);
      && (forall p :: p in Shows(now).files ==> p in files && files[p] == Shows(now).files[p])
      && (now.treeDirty ==> files == Shows(now).files)
      && (forall p :: p in files && p !in Shows(now).files ==> p in Shows(now).dirs)
  {
    hide Right, InSync, Clean, CanPush, AfterPush, Shows;
    EveryRunRight(s, actions);
    EveryRunInSync(s, actions);
    InSyncNow(s, actions);
    PushedFiles(RunOf(s, actions), plan, paths);
  }

  lemma PushedFiles(s: Sync, plan: Plan, paths: map<Id, Path>)
    requires Right(s) && InSync(s) && CanPush(s, plan, paths) && Clean(s)
    ensures var files := FilesOf(AfterPush(s, plan, paths).fs);
      && (forall p :: p in Shows(s).files ==> p in files && files[p] == Shows(s).files[p])
      && (s.treeDirty ==> files == Shows(s).files)
      && (forall p :: p in files && p !in Shows(s).files ==> p in Shows(s).dirs)
  {
    PushInSync(s, plan, paths);
    hide RoomOk, Shown, View, TreeShaped, FilesOf, Run, OpsOf, PathsById, IsPush;
    assert AfterPush(s, plan, paths).held.files == FilesOf(AfterPush(s, plan, paths).fs);
  }

  /**
   * In any run: a push right after a program wrote a file has no operation at that path exactly if
   * only texts are marked, or the room takes the file there and the mirror listed no folder there.
   */
  lemma NotEchoed(
      s: Sync, actions: seq<Action>, p: Path, data: Data, makes: Makes, plan: Plan, paths: map<Id, Path>)
    requires Right(s) && CanRun(s, actions) && Enabled(RunOf(s, actions), Wrote(p, data, makes))
    requires CanPush(After(RunOf(s, actions), Wrote(p, data, makes)), plan, paths)
    ensures var now := RunOf(s, actions); var next := After(now, Wrote(p, data, makes));
      (forall op :: op in OpsOf(plan, Shows(next)) ==> op.path != p)
        <==> !next.treeDirty || (p !in now.held.dirs && Takes(now.room.nodes, p, makes))
  {
    EveryRunRight(s, actions);
    hide *;
    WroteNotEchoed(RunOf(s, actions), p, data, makes, plan, paths);
  }
}
