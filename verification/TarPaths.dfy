/** A path in the two fields a tar header has for it: a prefix, and a name. */
module TarPaths {
  import opened Strings
  import opened Bytes
  import opened TarFields

  datatype PathFields = PathFields(prefix: Buffer, name: Buffer)

  /** `path.indexOf("/", from)`, or the length when there is none. */
  function SlashFrom(path: Buffer, from: nat): (i: nat)
    requires from <= |path|
    ensures from <= i <= |path| && (i < |path| ==> path[i] == SLASH)
    ensures forall k :: from <= k < i ==> path[k] != SLASH
    decreases |path| - from
  {
    if from == |path| || path[from] == SLASH then from else SlashFrom(path, from + 1)
  }

  /** The first slash that leaves a name of at most 100 bytes. */
  function Cut(path: Buffer): nat
    requires |path| > 100
  {
    SlashFrom(path, |path| - 101)
  }

  function SplitPath(path: Buffer): Option<PathFields> {
    if |path| <= 100 then Some(PathFields([], path)) else
      var cut := Cut(path);
      if cut == |path| then None else
        var name, prefix := path[cut + 1..], path[..cut];
        if |name| > 100 || |prefix| > 155 then None else Some(PathFields(prefix, name))
  }

  /** A slash at which the format lets a path be split. */
  predicate LegalCut(path: Buffer, cut: nat) {
    cut < |path| && path[cut] == SLASH && cut <= 155 && |path| - 1 - cut <= 100
  }

  ghost predicate Representable(path: Buffer) {
    |path| <= 100 || exists cut :: LegalCut(path, cut)
  }

  /** A split is found whenever the format allows one. */
  lemma SplitFound(path: Buffer)
    ensures SplitPath(path).Some? <==> Representable(path)
  {
    if |path| > 100 {
      if SplitPath(path).Some? { assert LegalCut(path, Cut(path)); }
      if cut: nat :| LegalCut(path, cut) { assert Cut(path) <= cut; }
    }
  }

  /** How a reader puts the two fields together. */
  function Joined(s: PathFields): Buffer {
    if s.prefix == [] then s.name else s.prefix + [SLASH] + s.name
  }

  /** The fields give back the path, unless its only cut is at a leading slash, which is then lost. */
  lemma SplitJoins(path: Buffer)
    requires SplitPath(path).Some?
    ensures Joined(SplitPath(path).value) == path <==> !(|path| == 101 && path[0] == SLASH)
  {
    if |path| > 100 {
      var cut := Cut(path);
      assert path == path[..cut] + [SLASH] + path[cut + 1..];
    }
  }

  /** When a path fits the format, so does the path of every folder above it. */
  lemma AncestorsRepresentable(path: Buffer, k: nat)
    requires Representable(path) && k < |path| && path[k] == SLASH
    ensures Representable(path[..k + 1])
  {
    var folder := path[..k + 1];
    if |folder| > 100 {
      var cut: nat :| LegalCut(path, cut);
      if cut <= k { assert LegalCut(folder, cut); } else { assert LegalCut(folder, k); }
    }
  }
}
