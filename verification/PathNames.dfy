/**
 * Paths of the room's tree name by name: a path from its folder and its name and back, how many names
 * it has, and what is on the way to it.
 */
module PathNames {
  import opened Strings
  import opened Paths

  function Under(folder: Path, name: string): Path {
    if folder == "" then name else folder + "/" + name
  }

  /** How many names a path has. */
  function Parts(p: Path): (n: nat)
    ensures n >= 1
  {
    if p == "" then 1 else Parts(p[..|p| - 1]) + if p[|p| - 1] == '/' then 1 else 0
  }

  lemma {:induction false} PartsOfName(name: string)
    requires '/' !in name
    ensures Parts(name) == 1
  {
    if name != "" {
      assert name[|name| - 1] in name && forall c :: c in name[..|name| - 1] ==> c in name;
      PartsOfName(name[..|name| - 1]);
    }
  }

  lemma {:induction false} PartsMore(folder: Path, name: string)
    requires '/' !in name
    ensures Parts(folder + "/" + name) == Parts(folder) + 1
    decreases |name|
  {
    var p := folder + "/" + name;
    if name == "" {
      assert p == folder + "/" && p[..|p| - 1] == folder;
    } else {
      var less := name[..|name| - 1];
      assert name[|name| - 1] in name && forall c :: c in less ==> c in name;
      assert p[..|p| - 1] == folder + "/" + less;
      PartsMore(folder, less);
    }
  }

  lemma PartsUnder(folder: Path, name: string)
    requires '/' !in name
    ensures Parts(Under(folder, name)) == if folder == "" then 1 else Parts(folder) + 1
  {
    if folder == "" { PartsOfName(name); } else { PartsMore(folder, name); }
  }

  function LastSlash(p: Path): (i: int)
    ensures -1 <= i < |p| && (i >= 0 ==> p[i] == '/') && '/' !in p[i + 1..]
  {
    if p == "" then -1 else if p[|p| - 1] == '/' then |p| - 1 else
      var less := p[..|p| - 1];
      assert p[LastSlash(less) + 1..] == less[LastSlash(less) + 1..] + [p[|p| - 1]];
      LastSlash(less)
  }

  /** The folder a path is in; none at the root. */
  function Dir(p: Path): Path {
    if LastSlash(p) < 0 then "" else p[..LastSlash(p)]
  }

  function Base(p: Path): (name: string)
    ensures '/' !in name
  {
    p[LastSlash(p) + 1..]
  }

  lemma BaseOfName(name: string)
    requires '/' !in name
    ensures Dir(name) == "" && Base(name) == name
  {
    hide LastSlash, Dir, Base;
    DirAndBase(name);
  }

  lemma {:induction false} LastSlashAt(folder: Path, name: string)
    requires '/' !in name
    ensures LastSlash(folder + "/" + name) == |folder|
    decreases |name|
  {
    var p := folder + "/" + name;
    if name != "" {
      var less := name[..|name| - 1];
      assert p[..|p| - 1] == folder + "/" + less;
      LastSlashAt(folder, less);
    }
  }

  lemma DirAndBase(p: Path)
    ensures LastSlash(p) < 0 ==> Dir(p) == "" && Base(p) == p
    ensures LastSlash(p) >= 0 ==> Dir(p) == p[..LastSlash(p)] && Base(p) == p[LastSlash(p) + 1..]
  {
    hide LastSlash;
  }

  /** A path tells its folder and its name. */
  lemma UnderTells(folder: Path, name: string)
    requires '/' !in name
    ensures Dir(Under(folder, name)) == folder && Base(Under(folder, name)) == name
  {
    hide LastSlash, Dir, Base;
    var p := Under(folder, name);
    DirAndBase(p);
    if folder != "" {
      LastSlashAt(folder, name);
      assert p[..|folder|] == folder && p[|folder| + 1..] == name;
    } else {
      BaseOfName(name);
    }
  }

  lemma LowerUnder(folder: Path, name: string)
    ensures Lower(Under(folder, name)) == Under(Lower(folder), Lower(name))
    ensures '/' !in name ==> '/' !in Lower(name)
  {
    if folder != "" { LowerApart(folder, "/", name); }
    assert forall i :: 0 <= i < |name| ==> Lower(name)[i] == LowerChar(name[i]) && name[i] in name;
  }

  lemma LowerTells(fa: Path, na: string, fb: Path, nb: string)
    requires '/' !in na && '/' !in nb && Lower(Under(fa, na)) == Lower(Under(fb, nb))
    ensures Lower(fa) == Lower(fb) && Lower(na) == Lower(nb) && (fa == "" <==> fb == "")
  {
    LowerUnder(fa, na);
    LowerUnder(fb, nb);
    UnderTells(Lower(fa), Lower(na));
    UnderTells(Lower(fb), Lower(nb));
    assert |Lower(fa)| == |fa| && |Lower(fb)| == |fb|;
  }

  lemma AncestorOfUnder(d: Path, folder: Path, name: string)
    requires '/' !in name
    ensures Ancestor(d, Under(folder, name)) <==> folder != "" && (d == folder || Ancestor(d, folder))
  {
    var p := Under(folder, name);
    var start := if folder == "" then 0 else |folder| + 1;
    forall i | start <= i < |p| ensures p[i] != '/' { assert p[i] == name[i - start]; }
    if folder != "" {
      assert p[..|folder|] == folder && p[|folder|] == '/';
      assert |d| <= |folder| ==> p[..|d|] == folder[..|d|];
    }
  }

  lemma AncestorsChain(a: Path, b: Path, c: Path)
    requires Ancestor(a, b) && Ancestor(b, c)
    ensures Ancestor(a, c)
  {}

  lemma {:induction false} DeeperHasMore(d: Path, p: Path)
    requires Ancestor(d, p)
    ensures Parts(d) < Parts(p)
    decreases |p|
  {
    var less := p[..|p| - 1];
    if |p| == |d| + 1 {
      assert less == d;
    } else {
      assert less[..|d|] == d && less[|d|] == '/';
      DeeperHasMore(d, less);
    }
  }

  ghost predicate OnWay(a: Path, p: Path) {
    a == p || Ancestor(a, p)
  }

  lemma WayUp(p: Path)
    ensures forall a :: a != "" && OnWay(a, Dir(p)) ==> OnWay(a, p) && a != p
    ensures |p| > 0 ==> |Dir(p)| < |p|
    ensures p != "" && p[0] != '/' ==> Under(Dir(p), Base(p)) == p && (Dir(p) != "" ==> Dir(p)[0] != '/')
  {}

  lemma NoneAbove(p: Path)
    requires p != ""
    ensures !OnWay("", p)
  {}

  lemma OnWayUp(p: Path)
    requires p != "" && p[0] != '/'
    ensures forall a :: OnWay(a, p) <==> a == p || (Dir(p) != "" && OnWay(a, Dir(p)))
  {
    WayUp(p);
    forall a ensures OnWay(a, p) <==> a == p || (Dir(p) != "" && OnWay(a, Dir(p))) {
      AncestorOfUnder(a, Dir(p), Base(p));
    }
  }
}
