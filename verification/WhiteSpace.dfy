/**
 * White space, as Python and as JavaScript take it, and what is left of a text when it is taken from
 * both ends: `strip` in the one, `trim` in the other.
 */
module WhiteSpace {

  predicate PySpace(c: char) {
    9 as char <= c <= 13 as char || 28 as char <= c <= 32 as char
    || c in {'\U{85}', '\U{a0}', '\U{1680}', '\U{2028}', '\U{2029}', '\U{202f}', '\U{205f}', '\U{3000}'}
    || '\U{2000}' <= c <= '\U{200a}'
  }

  predicate JsSpace(c: char) {
    9 as char <= c <= 13 as char
    || c in {' ', '\U{a0}', '\U{1680}', '\U{2028}', '\U{2029}', '\U{202f}', '\U{205f}', '\U{3000}', '\U{feff}'}
    || '\U{2000}' <= c <= '\U{200a}'
  }

  predicate Blank(s: string, space: char -> bool) {
    forall c :: c in s ==> space(c)
  }

  function TrimStart(s: string, space: char -> bool): (r: string)
    ensures |r| <= |s| && (r != [] ==> !space(r[0])) && (r == s || |r| < |s|)
    ensures forall c :: c in r ==> c in s
  {
    if s != [] && space(s[0]) then TrimStart(s[1..], space) else s
  }

  function TrimEnd(s: string, space: char -> bool): (r: string)
    ensures r <= s && (r != [] ==> !space(r[|r| - 1]))
    ensures s != [] && space(s[|s| - 1]) ==> r != s
  {
    if s != [] && space(s[|s| - 1]) then TrimEnd(s[..|s| - 1], space) else s
  }

  function Trim(s: string, space: char -> bool): (r: string)
    ensures |r| <= |s| && forall c :: c in r ==> c in s
  {
    TrimEnd(TrimStart(s, space), space)
  }

  ghost predicate Trimmed(s: string, space: char -> bool) {
    s != [] ==> !space(s[0]) && !space(s[|s| - 1])
  }

  /** What is trimmed stays, and nothing else does. */
  lemma TrimmedStays(s: string, space: char -> bool)
    ensures Trim(s, space) == s <==> Trimmed(s, space)
    ensures Trimmed(Trim(s, space), space)
  {
    var t := TrimStart(s, space);
    var r := TrimEnd(t, space);
    if r != [] { assert r[0] == t[0]; }
  }

  /** What follows at the end is white space. */
  lemma {:induction false} TrimEndBefore(s: string, space: char -> bool)
    ensures |TrimEnd(s, space)| < |s| ==> space(s[|TrimEnd(s, space)|])
  {
    if s != [] && space(s[|s| - 1]) { TrimEndBefore(s[..|s| - 1], space); }
  }

  lemma {:induction false} StartIsSpace(s: string, space: char -> bool) returns (front: string)
    ensures s == front + TrimStart(s, space) && Blank(front, space)
    decreases |s|
  {
    front := "";
    if s != [] && space(s[0]) {
      var more := StartIsSpace(s[1..], space);
      var rest := TrimStart(s[1..], space);
      assert TrimStart(s, space) == rest;
      front := [s[0]] + more;
      hide TrimStart;
      assert s == [s[0]] + (more + rest) == front + rest;
    } else {
      assert TrimStart(s, space) == s;
    }
  }

  lemma {:induction false} EndIsSpace(s: string, space: char -> bool) returns (back: string)
    ensures s == TrimEnd(s, space) + back && Blank(back, space)
    decreases |s|
  {
    back := "";
    if s != [] && space(s[|s| - 1]) {
      var more := EndIsSpace(s[..|s| - 1], space);
      back := more + [s[|s| - 1]];
      assert s == s[..|s| - 1] + [s[|s| - 1]];
    }
  }

  /** Only white space is taken off, at the ends. */
  lemma TrimTakesSpace(s: string, space: char -> bool) returns (front: string, back: string)
    ensures s == front + Trim(s, space) + back && Blank(front, space) && Blank(back, space)
    ensures Trimmed(Trim(s, space), space)
  {
    front := StartIsSpace(s, space);
    back := EndIsSpace(TrimStart(s, space), space);
    TrimmedStays(s, space);
    hide TrimStart, TrimEnd;
  }

  // ----- Python's

  /** `strip()` */
  function Strip(s: string): (r: string)
    ensures |r| <= |s| && forall c :: c in r ==> c in s
  {
    Trim(s, PySpace)
  }

  ghost predicate Stripped(s: string) {
    Trimmed(s, PySpace)
  }

  lemma StrippedStays(s: string)
    ensures Strip(s) == s <==> Stripped(s)
    ensures Stripped(Strip(s))
  {
    TrimmedStays(s, PySpace);
  }
}
