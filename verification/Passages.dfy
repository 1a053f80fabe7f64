/**
 * A file's lines cut into passages: its functions where they are known, and windows over the rest, each
 * overlapping the one before.
 */
module Passages {
  import opened WhiteSpace

  const WINDOW_LINES: int := 40
  const WINDOW_OVERLAP: int := 8
  const LONGEST_PASSAGE_LINES: int := 150
  const REMOVED := "[removed: looks like a secret]"

  /** Lines `start` to `end`, counted from 1. */
  datatype Span = Span(start: int, end: int, name: string)

  /** A function that was found in a file. */
  datatype Fn = Fn(start: int, end: int, name: string)

  predicate AllBlank(lines: seq<string>, start: int, end: int)
    requires 1 <= start && end <= |lines|
  {
    forall i :: start - 1 <= i < end ==> Blank(lines[i], PySpace)
  }

  function Min(a: int, b: int): int {
    if a < b then a else b
  }

  /** All windows of `first` to `last`, blank ones too. */
  function Cuts(first: int, last: int): seq<Span>
    decreases last - first
  {
    if first > last then [] else
      var end := Min(last, first + WINDOW_LINES - 1);
      [Span(first, end, "")] + if end == last then [] else Cuts(end - WINDOW_OVERLAP + 1, last)
  }

  function NotBlank(lines: seq<string>, spans: seq<Span>): (some: seq<Span>)
    requires forall s :: s in spans ==> 1 <= s.start && s.end <= |lines|
    ensures forall s :: s in some <==> s in spans && !AllBlank(lines, s.start, s.end)
  {
    if spans == [] then []
    else (if AllBlank(lines, spans[0].start, spans[0].end) then [] else [spans[0]]) + NotBlank(lines, spans[1..])
  }

  function Named(spans: seq<Span>, name: string): (named: seq<Span>)
    ensures |named| == |spans| && forall i :: 0 <= i < |spans| ==> named[i] == spans[i].(name := name)
  {
    seq(|spans|, i requires 0 <= i < |spans| => spans[i].(name := name))
  }

  ghost predicate Within(spans: seq<Span>, first: int, last: int, longest: int) {
    forall s :: s in spans ==> first <= s.start <= s.end <= last && s.end - s.start + 1 <= longest
  }

  ghost predicate Covered(spans: seq<Span>, line: int) {
    exists s :: s in spans && s.start <= line <= s.end
  }

  /** Windows fill their lines, each overlapping the one before by just `WINDOW_OVERLAP` lines. */
  ghost predicate Filled(cuts: seq<Span>, first: int, last: int) {
    && Within(cuts, first, last, WINDOW_LINES)
    && (forall line :: first <= line <= last ==> Covered(cuts, line))
    && (forall i :: 0 < i < |cuts| ==> cuts[i - 1].end - cuts[i].start + 1 == WINDOW_OVERLAP)
    && if first <= last then cuts != [] && cuts[0].start == first && cuts[|cuts| - 1].end == last else cuts == []
  }

  lemma {:induction false} CutsCover(first: int, last: int)
    ensures Filled(Cuts(first, last), first, last)
    decreases last - first
  {
    if first <= last {
      var end := Min(last, first + WINDOW_LINES - 1);
      var next := end - WINDOW_OVERLAP + 1;
      var s, rest := Span(first, end, ""), if end == last then [] else Cuts(next, last);
      assert Cuts(first, last) == [s] + rest;
      hide Cuts, Filled;
      if end != last {
        CutsCover(next, last);
      }
      FirstCut(s, rest, first, last);
    }
  }

  lemma FirstCut(s: Span, rest: seq<Span>, first: int, last: int)
    requires first == s.start <= s.end <= last && s.end - first < WINDOW_LINES
    requires if s.end < last then first < s.end - WINDOW_OVERLAP + 1
      && Filled(rest, s.end - WINDOW_OVERLAP + 1, last) else rest == []
    ensures Filled([s] + rest, first, last)
  {
    var cuts := [s] + rest;
    assert s in cuts;
    forall line | first <= line <= last ensures Covered(cuts, line) {
      if line > s.end {
        assert Covered(rest, line);
        var t :| t in rest && t.start <= line <= t.end;
        assert t in cuts;
      }
    }
  }

  /** `windows`, all that it yields. */
  function Windows(lines: seq<string>, first: int, last: int): seq<Span>
    requires 1 <= first && last <= |lines|
  {
    CutsCover(first, last);
    NotBlank(lines, Cuts(first, last))
  }

  /** The first window's part in what is yielded, and what is left to do. */
  lemma WindowsStep(lines: seq<string>, start: int, last: int)
    requires 1 <= start <= last <= |lines|
    ensures var end := Min(last, start + WINDOW_LINES - 1);
      Windows(lines, start, last)
        == (if AllBlank(lines, start, end) then [] else [Span(start, end, "")])
          + if end == last then [] else Windows(lines, end - WINDOW_OVERLAP + 1, last)
  {
    CutsCover(start, last);
    hide AllBlank;
    var end := Min(last, start + WINDOW_LINES - 1);
    var rest := if end == last then [] else Cuts(end - WINDOW_OVERLAP + 1, last);
    assert Cuts(start, last) == [Span(start, end, "")] + rest;
    NotBlankFirst(lines, Span(start, end, ""), rest);
  }

  lemma NotBlankFirst(lines: seq<string>, s: Span, rest: seq<Span>)
    requires forall t :: t in [s] + rest ==> 1 <= t.start && t.end <= |lines|
    ensures s in [s] + rest && forall t :: t in rest ==> t in [s] + rest
    ensures NotBlank(lines, [s] + rest) == (if AllBlank(lines, s.start, s.end) then [] else [s]) + NotBlank(lines, rest)
  {
    hide AllBlank;
    assert ([s] + rest)[1..] == rest;
  }

  method WindowsOf(lines: seq<string>, first: int, last: int) returns (spans: seq<Span>)
    requires 1 <= first && last <= |lines|
    ensures spans == Windows(lines, first, last)
  {
    spans := [];
    var start := first;
    hide Windows, AllBlank;
    ghost var all := Windows(lines, first, last);
    while start <= last
      invariant first <= start && spans + Windows(lines, start, last) == all
      decreases last - start
    {
      var end := Min(last, start + WINDOW_LINES - 1);
      WindowsStep(lines, start, last);
      var one := if AllBlank(lines, start, end) then [] else [Span(start, end, "")];
      ghost var rest := if end == last then [] else Windows(lines, end - WINDOW_OVERLAP + 1, last);
      assert spans + (one + rest) == spans + one + rest;
      spans := spans + one;
      if end == last {
        assert spans + [] == spans;
        return;
      }
      start := end - WINDOW_OVERLAP + 1;
    }
    NoWindows(lines, start, last);
    assert spans + [] == spans;
  }

  lemma NoWindows(lines: seq<string>, first: int, last: int)
    requires 1 <= first && last <= |lines| && first > last
    ensures Windows(lines, first, last) == []
  {}

  lemma WindowsCover(lines: seq<string>, first: int, last: int)
    requires 1 <= first && last <= |lines|
    ensures var spans := Windows(lines, first, last);
      && Within(spans, first, last, WINDOW_LINES)
      && forall k :: first <= k <= last && !Blank(lines[k - 1], PySpace) ==> Covered(spans, k)
  {
    CutsCover(first, last);
    var cuts, spans := Cuts(first, last), Windows(lines, first, last);
    hide Cuts, NotBlank, Blank;
    forall k | first <= k <= last && !Blank(lines[k - 1], PySpace) ensures Covered(spans, k) {
      assert Covered(cuts, k);
      var s :| s in cuts && s.start <= k <= s.end;
      assert !AllBlank(lines, s.start, s.end);
      assert s in spans;
    }
  }

  /** Line numbers inside the file. */
  ghost predicate Inside(fns: seq<Fn>, count: int) {
    forall f :: f in fns ==> 1 <= f.start <= f.end <= count
  }

  /** One function's passages. */
  function FnSpans(lines: seq<string>, f: Fn): seq<Span>
    requires 1 <= f.start <= f.end <= |lines|
  {
    if f.end - f.start + 1 > LONGEST_PASSAGE_LINES then Named(Windows(lines, f.start, f.end), f.name)
    else [Span(f.start, f.end, f.name)]
  }

  datatype Progress = Progress(spans: seq<Span>, covered: int)

  /** What there is after some functions, and up to which line. */
  function SpansSoFar(lines: seq<string>, fns: seq<Fn>): (p: Progress)
    requires Inside(fns, |lines|)
    ensures 0 <= p.covered <= |lines|
    decreases |fns|
  {
    if fns == [] then Progress([], 0) else
      var p, f := SpansSoFar(lines, fns[..|fns| - 1]), fns[|fns| - 1];
      if f.start <= p.covered then p
      else Progress(p.spans + Windows(lines, p.covered + 1, f.start - 1) + FnSpans(lines, f), f.end)
  }

  function SpansOf(lines: seq<string>, fns: seq<Fn>): seq<Span>
    requires Inside(fns, |lines|)
  {
    var p := SpansSoFar(lines, fns);
    p.spans + Windows(lines, p.covered + 1, |lines|)
  }

  method PassagesOf(lines: seq<string>, fns: seq<Fn>) returns (spans: seq<Span>)
    requires Inside(fns, |lines|)
    ensures spans == SpansOf(lines, fns)
  {
    spans := [];
    var covered := 0;
    hide Windows, FnSpans;
    for i := 0 to |fns|
      invariant Progress(spans, covered) == SpansSoFar(lines, fns[..i])
      invariant 0 <= covered <= |lines|
    {
      var fn := fns[i];
      assert fns[..i + 1][..i] == fns[..i] && fn in fns;
      if fn.start > covered {
        var before := WindowsOf(lines, covered + 1, fn.start - 1);
        var own := OneFunction(lines, fn);
        spans := spans + before + own;
        covered := fn.end;
      }
    }
    assert fns[..|fns|] == fns;
    var after := WindowsOf(lines, covered + 1, |lines|);
    spans := spans + after;
  }

  method OneFunction(lines: seq<string>, fn: Fn) returns (spans: seq<Span>)
    requires 1 <= fn.start <= fn.end <= |lines|
    ensures spans == FnSpans(lines, fn)
  {
    if fn.end - fn.start + 1 > LONGEST_PASSAGE_LINES {
      var plain := WindowsOf(lines, fn.start, fn.end);
      spans := Named(plain, fn.name);
    } else {
      spans := [Span(fn.start, fn.end, fn.name)];
    }
  }

  /** What is asked of passages: they stay in the file, none is too long, and no line with text up to here is missed. */
  ghost predicate Complete(spans: seq<Span>, lines: seq<string>, upTo: int)
    requires upTo <= |lines|
  {
    && Within(spans, 1, |lines|, LONGEST_PASSAGE_LINES)
    && forall k :: 1 <= k <= upTo && !Blank(lines[k - 1], PySpace) ==> Covered(spans, k)
  }

  lemma MoreSpans(a: seq<Span>, b: seq<Span>, lines: seq<string>, from: int, upTo: int)
    requires 0 <= from <= upTo <= |lines| && Complete(a, lines, from)
    requires Within(b, 1, |lines|, LONGEST_PASSAGE_LINES)
    requires forall k :: from < k <= upTo && !Blank(lines[k - 1], PySpace) ==> Covered(b, k)
    ensures Complete(a + b, lines, upTo)
  {
    hide Blank;
    forall k | 1 <= k <= upTo && !Blank(lines[k - 1], PySpace) ensures Covered(a + b, k) {
      if k <= from {
        assert Covered(a, k);
        var s :| s in a && s.start <= k <= s.end;
        assert s in a + b;
      } else {
        assert Covered(b, k);
        var s :| s in b && s.start <= k <= s.end;
        assert s in a + b;
      }
    }
  }

  lemma FnCovers(lines: seq<string>, f: Fn)
    requires 1 <= f.start <= f.end <= |lines|
    ensures var spans := FnSpans(lines, f);
      && Within(spans, f.start, f.end, LONGEST_PASSAGE_LINES)
      && forall k :: f.start <= k <= f.end && !Blank(lines[k - 1], PySpace) ==> Covered(spans, k)
  {
    hide Windows, Blank;
    if f.end - f.start + 1 > LONGEST_PASSAGE_LINES {
      WindowsCover(lines, f.start, f.end);
      NamedCovers(Windows(lines, f.start, f.end), f.name, f.start, f.end);
      hide Within, Covered;
    } else {
      assert FnSpans(lines, f)[0] in FnSpans(lines, f);
    }
  }

  /** Names do not change what is covered. */
  lemma NamedCovers(plain: seq<Span>, name: string, first: int, last: int)
    requires Within(plain, first, last, WINDOW_LINES)
    ensures Within(Named(plain, name), first, last, LONGEST_PASSAGE_LINES)
    ensures forall line :: Covered(plain, line) ==> Covered(Named(plain, name), line)
  {
    var named := Named(plain, name);
    forall s | s in named ensures first <= s.start <= s.end <= last && s.end - s.start + 1 <= WINDOW_LINES {
      var i :| 0 <= i < |named| && named[i] == s;
      assert plain[i] in plain;
    }
    forall line | Covered(plain, line) ensures Covered(named, line) {
      var s :| s in plain && s.start <= line <= s.end;
      var i :| 0 <= i < |plain| && plain[i] == s;
      assert named[i] in named;
    }
  }

  lemma {:induction false} SoFarComplete(lines: seq<string>, fns: seq<Fn>)
    requires Inside(fns, |lines|)
    ensures var p := SpansSoFar(lines, fns); Complete(p.spans, lines, p.covered)
    decreases |fns|
  {
    hide Windows, FnSpans, Blank;
    if fns != [] {
      var p, f := SpansSoFar(lines, fns[..|fns| - 1]), fns[|fns| - 1];
      SoFarComplete(lines, fns[..|fns| - 1]);
      if f.start > p.covered {
        var before := Windows(lines, p.covered + 1, f.start - 1);
        WindowsCover(lines, p.covered + 1, f.start - 1);
        FnCovers(lines, f);
        hide Complete, Covered;
        MoreSpans(p.spans, before, lines, p.covered, f.start - 1);
        MoreSpans(p.spans + before, FnSpans(lines, f), lines, f.start - 1, f.end);
      }
    }
  }

  /**
   * Whatever functions were found: every line with text is in a passage, and passages are in the file
   * and not too long.
   */
  lemma PassagesComplete(lines: seq<string>, fns: seq<Fn>)
    requires Inside(fns, |lines|)
    ensures Complete(SpansOf(lines, fns), lines, |lines|)
  {
    hide Windows, Blank;
    var p := SpansSoFar(lines, fns);
    SoFarComplete(lines, fns);
    WindowsCover(lines, p.covered + 1, |lines|);
    hide Complete, Covered;
    MoreSpans(p.spans, Windows(lines, p.covered + 1, |lines|), lines, p.covered, |lines|);
  }

  /** Functions one after the other, none inside another. */
  ghost predicate Apart(fns: seq<Fn>) {
    forall i, j :: 0 <= i < j < |fns| ==> fns[i].end < fns[j].start
  }

  /** Such functions are whole passages with their names, but for those too long for one. */
  lemma {:induction false} FunctionsWhole(lines: seq<string>, fns: seq<Fn>)
    requires Inside(fns, |lines|) && Apart(fns)
    ensures var spans := SpansSoFar(lines, fns).spans;
      forall f :: f in fns && f.end - f.start + 1 <= LONGEST_PASSAGE_LINES ==> Span(f.start, f.end, f.name) in spans
    ensures SpansSoFar(lines, fns).covered == if fns == [] then 0 else fns[|fns| - 1].end
    ensures SpansSoFar(lines, fns).spans <= SpansOf(lines, fns)
    decreases |fns|
  {
    hide Windows;
    if fns != [] {
      FunctionsWhole(lines, fns[..|fns| - 1]);
      assert forall f :: f in fns <==> f in fns[..|fns| - 1] || f == fns[|fns| - 1];
    }
  }

  /** It lies in a function, under its name, or in none, and has no name. */
  ghost predicate FromFn(s: Span, fns: seq<Fn>) {
    || (exists f :: f in fns && s.name == f.name && f.start <= s.start && s.end <= f.end)
    || (s.name == "" && forall f :: f in fns ==> s.end < f.start || f.end < s.start)
  }

  ghost predicate AllFrom(spans: seq<Span>, fns: seq<Fn>) {
    forall s :: s in spans ==> FromFn(s, fns)
  }

  lemma {:induction false} CutsHaveNoName(first: int, last: int)
    ensures forall s :: s in Cuts(first, last) ==> s.name == ""
    decreases last - first
  {
    var end := Min(last, first + WINDOW_LINES - 1);
    if first <= last && end != last { CutsHaveNoName(end - WINDOW_OVERLAP + 1, last); }
  }

  /** Windows between functions. */
  lemma WindowsAreNone(lines: seq<string>, fns: seq<Fn>, first: int, last: int)
    requires 1 <= first && last <= |lines| && forall f :: f in fns ==> last < f.start || f.end < first
    ensures AllFrom(Windows(lines, first, last), fns)
  {
    WindowsCover(lines, first, last);
    CutsHaveNoName(first, last);
    hide Blank;
  }

  lemma FnSpansAre(lines: seq<string>, f: Fn, fns: seq<Fn>)
    requires 1 <= f.start <= f.end <= |lines| && f in fns
    ensures AllFrom(FnSpans(lines, f), fns)
  {
    FnCovers(lines, f);
    hide Windows, Blank, Covered;
    assert forall s :: s in FnSpans(lines, f) ==> s.name == f.name;
  }

  /** One more of some functions that lie apart. */
  lemma NextFrom(lines: seq<string>, fns: seq<Fn>, n: nat, covered: int)
    requires n < |fns| && Inside(fns, |lines|) && Apart(fns) && covered == if n == 0 then 0 else fns[n - 1].end
    ensures var f := fns[n];
      && 0 <= covered < f.start <= f.end <= |lines|
      && AllFrom(Windows(lines, covered + 1, f.start - 1), fns) && AllFrom(FnSpans(lines, f), fns)
  {
    hide Blank, Windows, FnSpans, FromFn;
    var f := fns[n];
    assert f in fns && (n > 0 ==> fns[n - 1] in fns);
    forall g | g in fns ensures f.start - 1 < g.start || g.end < covered + 1 {
      var i :| 0 <= i < |fns| && fns[i] == g;
      assert fns[i] in fns;
      assert i < n - 1 ==> fns[i].end < fns[n - 1].start;
    }
    WindowsAreNone(lines, fns, covered + 1, f.start - 1);
    FnSpansAre(lines, f, fns);
  }

  lemma {:induction false} SoFarFrom(lines: seq<string>, fns: seq<Fn>, all: seq<Fn>)
    requires fns <= all && Inside(fns, |lines|) && Inside(all, |lines|) && Apart(all)
    ensures AllFrom(SpansSoFar(lines, fns).spans, all)
    decreases |fns|
  {
    hide Windows, FnSpans, Blank, FromFn;
    if fns != [] {
      var front := fns[..|fns| - 1];
      SoFarFrom(lines, front, all);
      FunctionsWhole(lines, front);
      NextFrom(lines, all, |fns| - 1, SpansSoFar(lines, front).covered);
    }
  }

  /** Each passage is one of a function, with its name, or lies between them and has none. */
  lemma PassagesFrom(lines: seq<string>, fns: seq<Fn>)
    requires Inside(fns, |lines|) && Apart(fns)
    ensures AllFrom(SpansOf(lines, fns), fns)
  {
    SoFarFrom(lines, fns, fns);
    FunctionsWhole(lines, fns);
    WindowsAreNone(lines, fns, SpansSoFar(lines, fns).covered + 1, |lines|);
    hide FromFn, Windows, SpansSoFar;
  }

  lemma {:induction false} InnerAddsNothing(lines: seq<string>, fns: seq<Fn>, inner: seq<Fn>, covered: int)
    requires Inside(fns, |lines|) && Inside(inner, |lines|) && SpansSoFar(lines, fns).covered == covered
    requires forall f :: f in inner ==> f.start <= covered
    ensures Inside(fns + inner, |lines|) && SpansSoFar(lines, fns + inner) == SpansSoFar(lines, fns)
    decreases |inner|
  {
    hide Windows, FnSpans;
    if inner == [] {
      assert fns + inner == fns;
    } else {
      var less, f := inner[..|inner| - 1], inner[|inner| - 1];
      InnerAddsNothing(lines, fns, less, covered);
      assert (fns + inner)[..|fns + inner| - 1] == fns + less && (fns + inner)[|fns + inner| - 1] == f && f in inner;
    }
  }

  /** Functions that begin inside one that is in already bring no passages. */
  lemma InnerBringNone(lines: seq<string>, fns: seq<Fn>, inner: seq<Fn>)
    requires fns != [] && Inside(fns, |lines|) && Apart(fns) && Inside(inner, |lines|)
    requires forall f :: f in inner ==> f.start <= fns[|fns| - 1].end
    ensures Inside(fns + inner, |lines|) && SpansOf(lines, fns + inner) == SpansOf(lines, fns)
  {
    hide *;
    FunctionsWhole(lines, fns);
    InnerAddsNothing(lines, fns, inner, fns[|fns| - 1].end);
    SpansAlike(lines, fns, fns + inner);
  }

  lemma SpansAlike(lines: seq<string>, a: seq<Fn>, b: seq<Fn>)
    requires Inside(a, |lines|) && Inside(b, |lines|) && SpansSoFar(lines, a) == SpansSoFar(lines, b)
    ensures SpansOf(lines, a) == SpansOf(lines, b)
  {
    hide SpansSoFar, Windows, Inside;
  }

  // ----- secrets

  /** The lines with those that hold secrets taken out; a secret's line outside the file means nothing. */
  function WithoutSecrets(lines: seq<string>, secrets: set<int>): (left: seq<string>)
    ensures |left| == |lines|
  {
    seq(|lines|, i requires 0 <= i < |lines| => if i + 1 in secrets then REMOVED else lines[i])
  }

  /** Taking secrets out leaves no line uncovered, and lines that held one are covered too. */
  lemma SecretsStayCovered(lines: seq<string>, secrets: set<int>, fns: seq<Fn>)
    requires Inside(fns, |lines|)
    ensures var spans := SpansOf(WithoutSecrets(lines, secrets), fns);
      forall k :: 1 <= k <= |lines| && (!Blank(lines[k - 1], PySpace) || k in secrets) ==> Covered(spans, k)
  {
    var left := WithoutSecrets(lines, secrets);
    PassagesComplete(left, fns);
    RemovedIsText();
    hide SpansOf, Blank, Covered, Within;
  }

  /** Nothing of a line that held one is left, and all of every other. */
  lemma SecretsAreGone(lines: seq<string>, secrets: set<int>, k: int)
    requires 1 <= k <= |lines|
    ensures WithoutSecrets(lines, secrets)[k - 1]
      == if k in secrets then "[removed: looks like a secret]" else lines[k - 1]
  {}

  lemma RemovedIsText()
    ensures !Blank(REMOVED, PySpace)
  {
    assert '[' in REMOVED;
  }
}
