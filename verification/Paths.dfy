/**
 * Slash-separated paths of the room's tree, which of them lie above which, and the order in which
 * the sync visits folders: JavaScript's default sort, and that sort reversed.
 */
module Paths {

  type Path = string

  /** `d` is a folder somewhere above `p`. */
  predicate Ancestor(d: Path, p: Path) {
    0 < |d| < |p| && p[..|d|] == d && p[|d|] == '/'
  }

  /** Every folder above `p`. */
  function Ancestors(p: Path): (ds: set<Path>)
    ensures forall d :: d in ds <==> Ancestor(d, p)
  {
    var ds := set i | 0 < i < |p| && p[i] == '/' :: p[..i];
    assert forall d | Ancestor(d, p) :: d in ds by {
      forall d | Ancestor(d, p) ensures d in ds { assert d == p[..|d|]; }
    }
    ds
  }

  /** The order of JavaScript's default sort: by character code, a prefix first. */
  predicate Before(a: Path, b: Path) {
    b != [] && (a == [] || a[0] < b[0] || (a[0] == b[0] && Before(a[1..], b[1..])))
  }

  /** They are the same for `k` characters, and then `a` ends, or has the smaller one. */
  ghost predicate DifferAt(a: Path, b: Path, k: int) {
    0 <= k <= |a| && k < |b| && a[..k] == b[..k] && (k == |a| || a[k] < b[k])
  }

  lemma {:induction false} BeforeMeans(a: Path, b: Path)
    ensures Before(a, b) <==> exists k :: DifferAt(a, b, k)
  {
    if a != [] && b != [] && a[0] == b[0] {
      var c, d := a[1..], b[1..];
      BeforeMeans(c, d);
      assert a == [a[0]] + c && b == [b[0]] + d;
      if k :| DifferAt(c, d, k) {
        assert a[..k + 1] == [a[0]] + c[..k] && b[..k + 1] == [b[0]] + d[..k];
        assert DifferAt(a, b, k + 1);
      }
      if k :| DifferAt(a, b, k) {
        assert k > 0 && c[..k - 1] == a[..k][1..] && d[..k - 1] == b[..k][1..];
        assert DifferAt(c, d, k - 1);
      }
    } else if a == [] && b != [] {
      assert DifferAt(a, b, 0);
    } else if b != [] && a[0] < b[0] {
      assert DifferAt(a, b, 0);
    } else if a != [] && b != [] {
      forall k | 0 < k <= |a| && k <= |b| ensures a[..k] != b[..k] { assert a[..k][0] == a[0] && b[..k][0] == b[0]; }
    }
  }

  lemma {:induction false} PrefixBefore(a: Path, b: Path)
    requires |a| < |b| && b[..|a|] == a
    ensures Before(a, b)
  {
    if a != [] {
      assert a[0] == b[0];
      assert b[1..][..|a| - 1] == b[..|a|][1..] == a[1..];
      PrefixBefore(a[1..], b[1..]);
    }
  }

  lemma {:induction false} BeforeTransitive(a: Path, b: Path, c: Path)
    requires Before(a, b) && Before(b, c)
    ensures Before(a, c)
  {
    if a != [] && a[0] == b[0] == c[0] {
      BeforeTransitive(a[1..], b[1..], c[1..]);
    }
  }

  lemma {:induction false} BeforeTotal(a: Path, b: Path)
    ensures a == b || Before(a, b) || Before(b, a)
  {
    if a != [] && b != [] && a[0] == b[0] {
      BeforeTotal(a[1..], b[1..]);
      if a[1..] == b[1..] {
        assert a == [a[0]] + a[1..] && b == [b[0]] + b[1..];
      }
    }
  }

  lemma {:induction false} BeforeAsymmetric(a: Path, b: Path)
    requires Before(a, b)
    ensures !Before(b, a)
  {
    if a != [] && a[0] == b[0] {
      BeforeAsymmetric(a[1..], b[1..]);
    }
  }

  /** `xs` lists every element of `s`, each once. */
  ghost predicate Enumerates<T(!new)>(xs: seq<T>, s: set<T>) {
    && (forall x :: x in xs <==> x in s)
    && (forall i, j :: 0 <= i < j < |xs| ==> xs[i] != xs[j])
  }

  predicate Sorted(ps: seq<Path>) {
    forall i, j :: 0 <= i < j < |ps| ==> Before(ps[i], ps[j])
  }

  /** Where `x` goes in a sorted list. */
  method Insert(ps: seq<Path>, x: Path) returns (out: seq<Path>)
    requires Sorted(ps) && x !in ps
    ensures Sorted(out)
    ensures forall s :: Enumerates(ps, s) ==> Enumerates(out, s + {x})
  {
    var i := 0;
    while i < |ps| && Before(ps[i], x)
      invariant 0 <= i <= |ps|
      invariant forall k :: 0 <= k < i ==> Before(ps[k], x)
    {
      i := i + 1;
    }
    out := ps[..i] + [x] + ps[i..];
    forall k | i <= k < |ps| ensures Before(x, ps[k]) {
      BeforeTotal(ps[i], x);
      if i < k { BeforeTransitive(x, ps[i], ps[k]); }
    }
    forall s | Enumerates(ps, s) ensures Enumerates(out, s + {x}) {
      assert forall y :: y in out <==> y in ps || y == x by {
        assert ps == ps[..i] + ps[i..];
      }
    }
  }

  /** `[...set].sort()`. */
  method Sort(s: set<Path>) returns (ps: seq<Path>)
    ensures Sorted(ps) && Enumerates(ps, s)
  {
    ps := [];
    var rest := s;
    while rest != {}
      invariant rest <= s
      invariant Sorted(ps) && Enumerates(ps, s - rest)
    {
      var x :| x in rest;
      ps := Insert(ps, x);
      rest := rest - {x};
      assert s - rest == (s - (rest + {x})) + {x};
    }
    assert s - rest == s;
  }

  /** `[...set].sort().reverse()`: what lies beneath a folder comes before it. */
  predicate SortedDown(ps: seq<Path>) {
    forall i, j :: 0 <= i < j < |ps| ==> Before(ps[j], ps[i])
  }

  method SortDown(s: set<Path>) returns (out: seq<Path>)
    ensures SortedDown(out) && Enumerates(out, s)
  {
    var ps := Sort(s);
    var n := |ps|;
    out := seq(n, i requires 0 <= i < n => ps[n - 1 - i]);
    forall x ensures x in out <==> x in s {
      if x in s {
        var k :| 0 <= k < n && ps[k] == x;
        assert out[n - 1 - k] == x;
      }
    }
  }

  /** In a sorted list the folders above a path come before it. */
  lemma AncestorComesFirst(ps: seq<Path>, i: nat, d: Path)
    requires Sorted(ps) && i < |ps| && d in ps && Ancestor(d, ps[i])
    ensures d in ps[..i]
  {
    var k :| 0 <= k < |ps| && ps[k] == d;
    PrefixBefore(d, ps[i]);
    if i < k { BeforeAsymmetric(ps[i], d); }
  }

  /** In a list sorted down, what lies beneath a folder comes before the folder. */
  lemma DescendantComesFirst(ps: seq<Path>, i: nat, q: Path)
    requires SortedDown(ps) && i < |ps| && q in ps && Ancestor(ps[i], q)
    ensures q in ps[..i]
  {
    var k :| 0 <= k < |ps| && ps[k] == q;
    PrefixBefore(ps[i], q);
    if i < k { BeforeAsymmetric(ps[i], q); }
  }
}
