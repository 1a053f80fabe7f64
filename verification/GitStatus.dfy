/** `git status --porcelain=v2 --branch -z`, printed and parsed. */
module GitStatus {
  import opened Strings

  const NUL := '\0'

  datatype Change = Change(
    path: string, from: Option<string>, staged: Option<char>, unstaged: Option<char>, conflict: bool)

  datatype Status = Status(branch: Option<string>, head: Option<string>, changes: seq<Change>)

  const EMPTY := Status(None, None, [])

  /** A letter of XY: a dot is no change, and a letter git may add later counts as modified. */
  function Mark(c: char): Option<char> {
    if c == '.' then None else if c in "MADRCT" then Some(c) else Some('M')
  }

  /** That letter of XY; a field too short for it counts as modified too. */
  function MarkAt(xy: string, i: nat): Option<char> {
    if i < |xy| then Mark(xy[i]) else Some('M')
  }

  predicate StartsWith(s: string, prefix: string) {
    |prefix| <= |s| && s[..|prefix|] == prefix
  }

  const OID := "# branch.oid "
  const HEAD := "# branch.head "

  function Field(fields: seq<string>, i: nat): string {
    if i < |fields| then fields[i] else ""
  }

  function After(fields: seq<string>, i: nat): string {
    if i <= |fields| then Join(fields[i..], ' ') else ""
  }

  /** How many parts a record takes: a rename's takes the old path that follows it too. */
  function Width(part: string): nat {
    if StartsWith(part, "2 ") then 2 else 1
  }

  /** The status with one more record read; `next` is the part after it. */
  function ReadRecord(st: Status, part: string, next: Option<string>): Status {
    if StartsWith(part, OID) then
      var oid := part[|OID|..];
      st.(head := if oid == "(initial)" then None else Some(if |oid| <= 7 then oid else oid[..7]))
    else if StartsWith(part, HEAD) then
      var name := part[|HEAD|..];
      st.(branch := if name == "(detached)" then None else Some(name))
    else
      var fields := Split(part, ' ');
      var xy := Field(fields, 1);
      if StartsWith(part, "1 ") then
        st.(changes := st.changes + [Change(After(fields, 8), None, MarkAt(xy, 0), MarkAt(xy, 1), false)])
      else if StartsWith(part, "2 ") then
        st.(changes := st.changes + [Change(After(fields, 9), next, MarkAt(xy, 0), MarkAt(xy, 1), false)])
      else if StartsWith(part, "u ") then
        st.(changes := st.changes + [Change(After(fields, 10), None, None, Some('M'), true)])
      else if StartsWith(part, "? ") then
        st.(changes := st.changes + [Change(part[2..], None, None, Some('?'), false)])
      else st
  }

  function ReadParts(st: Status, parts: seq<string>): Status
    decreases |parts|
  {
    if parts == [] then st
    else if parts[0] == "" then ReadParts(st, parts[1..])
    else
      var next := if |parts| > 1 then Some(parts[1]) else None;
      var width := if Width(parts[0]) <= |parts| then Width(parts[0]) else |parts|;
      ReadParts(ReadRecord(st, parts[0], next), parts[width..])
  }

  method ParseStatus(raw: string) returns (st: Status)
    ensures st == ReadParts(EMPTY, Split(raw, NUL))
  {
    var parts := Split(raw, NUL);
    st := EMPTY;
    var i := 0;
    assert parts[0..] == parts;
    while i < |parts|
      invariant 0 <= i
      invariant i <= |parts| ==> ReadParts(st, parts[i..]) == ReadParts(EMPTY, parts)
      invariant i > |parts| ==> st == ReadParts(EMPTY, parts)
    {
      var part := parts[i];
      assert parts[i..][0] == part && parts[i..][1..] == parts[i + 1..];
      if part != "" {
        var next := if i + 1 < |parts| then Some(parts[i + 1]) else None;
        assert i + 2 <= |parts| ==> parts[i..][2..] == parts[i + 2..];
        st := ReadRecord(st, part, next);
        if StartsWith(part, "2 ") { i := i + 1; }
      }
      i := i + 1;
    }
  }

  // ----- the printer

  datatype Record =
    | Oid(oid: string)
    | Head(name: string)
    | OtherHeader(text: string)
    | Ordinary(x: char, y: char, rest: seq<string>, path: string)
    | Renamed(x: char, y: char, rest: seq<string>, path: string, old_: string)
    | Unmerged(x: char, y: char, rest: seq<string>, path: string)
    | Untracked(path: string)

  /** A field git prints has no space and no NUL in it. */
  predicate IsField(s: string) {
    ' ' !in s && NUL !in s
  }

  /** What git can print: fields as many as the format has, and paths without NUL. */
  predicate Printable(r: Record) {
    match r
    case Oid(oid) => NUL !in oid
    case Head(name) => NUL !in name
    case OtherHeader(text) => NUL !in text && !StartsWith("# " + text, OID) && !StartsWith("# " + text, HEAD)
    case Ordinary(x, y, rest, path) => IsField([x, y]) && |rest| == 6 && (forall f :: f in rest ==> IsField(f))
      && NUL !in path
    case Renamed(x, y, rest, path, o) =>
      IsField([x, y]) && |rest| == 7 && (forall f :: f in rest ==> IsField(f)) && NUL !in path && NUL !in o
    case Unmerged(x, y, rest, path) => IsField([x, y]) && |rest| == 8 && (forall f :: f in rest ==> IsField(f))
      && NUL !in path
    case Untracked(path) => NUL !in path
  }

  function Line(r: Record): string {
    match r
    case Oid(oid) => OID + oid
    case Head(name) => HEAD + name
    case OtherHeader(text) => "# " + text
    case Ordinary(x, y, rest, path) => Join(["1", [x, y]] + rest + [path], ' ')
    case Renamed(x, y, rest, path, _) => Join(["2", [x, y]] + rest + [path], ' ')
    case Unmerged(x, y, rest, path) => Join(["u", [x, y]] + rest + [path], ' ')
    case Untracked(path) => "? " + path
  }

  function Lines(r: Record): seq<string> {
    if r.Renamed? then [Line(r), r.old_] else [Line(r)]
  }

  /** Every record, each of its lines ended by NUL. */
  function Print(rs: seq<Record>): string
    decreases |rs|
  {
    if rs == [] then "" else Terminated(Lines(rs[0])) + Print(rs[1..])
  }

  function Terminated(lines: seq<string>): string
    decreases |lines|
  {
    if lines == [] then "" else lines[0] + [NUL] + Terminated(lines[1..])
  }

  /** What a record says, as the Source Control view shows it. */
  function Meaning(st: Status, r: Record): Status {
    match r
    case Oid(oid) => st.(head := if oid == "(initial)" then None else Some(if |oid| <= 7 then oid else oid[..7]))
    case Head(name) => st.(branch := if name == "(detached)" then None else Some(name))
    case OtherHeader(_) => st
    case Ordinary(x, y, _, path) => st.(changes := st.changes + [Change(path, None, Mark(x), Mark(y), false)])
    case Renamed(x, y, _, path, o) => st.(changes := st.changes + [Change(path, Some(o), Mark(x), Mark(y), false)])
    case Unmerged(_, _, _, path) => st.(changes := st.changes + [Change(path, None, None, Some('M'), true)])
    case Untracked(path) => st.(changes := st.changes + [Change(path, None, None, Some('?'), false)])
  }

  function MeaningOf(st: Status, rs: seq<Record>): Status
    decreases |rs|
  {
    if rs == [] then st else MeaningOf(Meaning(st, rs[0]), rs[1..])
  }

  lemma LineHasNoNul(r: Record)
    requires Printable(r)
    ensures NUL !in Line(r)
  {
    match r {
      case Ordinary(x, y, rest, path) => JoinLacks(["1", [x, y]] + rest + [path], ' ', NUL);
      case Renamed(x, y, rest, path, _) => JoinLacks(["2", [x, y]] + rest + [path], ' ', NUL);
      case Unmerged(x, y, rest, path) => JoinLacks(["u", [x, y]] + rest + [path], ' ', NUL);
      case _ =>
    }
  }

  lemma {:induction false} JoinLacks(parts: seq<string>, c: char, d: char)
    requires c != d && forall p :: p in parts ==> d !in p
    ensures d !in Join(parts, c)
    decreases |parts|
  {
    if |parts| > 1 { JoinLacks(parts[1..], c, d); }
  }

  /** The path is what follows the fields, spaces and all. */
  lemma {:induction false} FieldsOf(kind: string, x: char, y: char, rest: seq<string>, path: string)
    requires IsField(kind) && IsField([x, y]) && forall f :: f in rest ==> IsField(f)
    ensures var fields := Split(Join([kind, [x, y]] + rest + [path], ' '), ' ');
      Field(fields, 1) == [x, y] && After(fields, 2 + |rest|) == path
  {
    hide Split, Join, IndexOf;
    var front := [kind, [x, y]] + rest;
    SplitJoin(front, path, ' ');
    var fields := Split(Join(front + [path], ' '), ' ');
    assert fields == front + Split(path, ' ');
    assert fields[|front|..] == Split(path, ' ');
    JoinSplit(path, ' ');
  }

  lemma KindTells(s: string)
    requires s != []
    ensures s[0] != '#' ==> !StartsWith(s, OID) && !StartsWith(s, HEAD)
    ensures s[0] != '1' ==> !StartsWith(s, "1 ")
    ensures s[0] != '2' ==> !StartsWith(s, "2 ")
    ensures s[0] != 'u' ==> !StartsWith(s, "u ")
    ensures s[0] != '?' ==> !StartsWith(s, "? ")
  {
  }

  lemma PrefixStarts(prefix: string, more: string)
    ensures StartsWith(prefix + more, prefix) && (prefix + more)[|prefix|..] == more
  {}

  lemma HeaderRoundTrip(st: Status, r: Record, next: Option<string>)
    requires Printable(r) && (r.Oid? || r.Head? || r.OtherHeader? || r.Untracked?)
    ensures Line(r) != "" && Width(Line(r)) == |Lines(r)|
    ensures ReadRecord(st, Line(r), next) == Meaning(st, r)
  {
    KindTells(Line(r));
    match r {
      case Oid(oid) => PrefixStarts(OID, oid);
      case Head(name) => PrefixStarts(HEAD, name); assert Line(r)[9] != OID[9];
      case OtherHeader(text) =>
      case Untracked(path) => PrefixStarts("? ", path);
    }
    hide StartsWith, Split, Join, IndexOf;
  }

  lemma RecordRoundTrip(st: Status, r: Record, next: Option<string>)
    requires Printable(r) && (r.Renamed? ==> next == Some(r.old_))
    ensures Line(r) != "" && Width(Line(r)) == |Lines(r)|
    ensures ReadRecord(st, Line(r), next) == Meaning(st, r)
  {
    hide StartsWith, Split, Join, IndexOf, Field, After;
    assert "1" + " " == "1 " && "2" + " " == "2 " && "u" + " " == "u ";
    match r {
      case Ordinary(x, y, rest, path) => FieldsRoundTrip("1", x, y, rest, path);
      case Renamed(x, y, rest, path, _) => FieldsRoundTrip("2", x, y, rest, path);
      case Unmerged(x, y, rest, path) => FieldsRoundTrip("u", x, y, rest, path);
      case _ => HeaderRoundTrip(st, r, next);
    }
    KindTells(Line(r));
  }

  lemma {:induction false} FieldsRoundTrip(kind: string, x: char, y: char, rest: seq<string>, path: string)
    requires |kind| == 1 && IsField(kind) && IsField([x, y]) && forall f :: f in rest ==> IsField(f)
    ensures var line := Join([kind, [x, y]] + rest + [path], ' ');
      && line != "" && line[0] == kind[0] && StartsWith(line, kind + " ")
      && Field(Split(line, ' '), 1) == [x, y] && After(Split(line, ' '), 2 + |rest|) == path
  {
    hide Split, Join, IndexOf, Field, After, IsField, StartsWith;
    FieldsOf(kind, x, y, rest, path);
    var more := [[x, y]] + rest + [path];
    assert [kind, [x, y]] + rest + [path] == [kind] + more;
    JoinFirst(kind, more, ' ');
    PrefixStarts(kind + " ", Join(more, ' '));
    assert kind + [' '] + Join(more, ' ') == kind + " " + Join(more, ' ');
  }

  /** NUL-free lines, each ended by NUL, split into those lines and an empty end. */
  lemma {:induction false} SplitTerminated(lines: seq<string>, more: string)
    requires forall l :: l in lines ==> NUL !in l
    ensures Split(Terminated(lines) + more, NUL) == lines + Split(more, NUL)
  {
    if lines == [] {
      assert Terminated(lines) + more == more;
      assert lines + Split(more, NUL) == Split(more, NUL);
    } else {
      SplitTerminated(lines[1..], more);
      SplitTerminatedNext(lines[0], lines[1..], more);
      assert [lines[0]] + lines[1..] == lines;
    }
  }

  lemma SplitTerminatedNext(line: string, rest: seq<string>, more: string)
    requires NUL !in line && Split(Terminated(rest) + more, NUL) == rest + Split(more, NUL)
    ensures Split(Terminated([line] + rest) + more, NUL) == [line] + rest + Split(more, NUL)
  {
    hide Split, IndexOf;
    assert ([line] + rest)[1..] == rest;
    assert Terminated([line] + rest) == line + [NUL] + Terminated(rest);
    hide *;
    assert line + [NUL] + Terminated(rest) + more == line + [NUL] + (Terminated(rest) + more);
    SplitFirst(line, Terminated(rest) + more, NUL);
  }

  lemma {:induction false} ReadPrinted(st: Status, rs: seq<Record>)
    requires forall r :: r in rs ==> Printable(r)
    ensures ReadParts(st, Split(Print(rs), NUL)) == MeaningOf(st, rs)
    decreases |rs|
  {
    if rs == [] {
      assert Split("", NUL) == [""];
      assert [""][1..] == [];
    } else {
      var r, rest := rs[0], rs[1..];
      LineHasNoNul(r);
      SplitTerminated(Lines(r), Print(rest));
      var more := Split(Print(rest), NUL);
      var parts := Lines(r) + more;
      var next := if |parts| > 1 then Some(parts[1]) else None;
      RecordRoundTrip(st, r, next);
      assert parts[0] == Line(r) && parts[|Lines(r)|..] == more;
      ReadPrinted(Meaning(st, r), rest);
    }
  }

  /** What the Source Control view shows for a letter of XY. */
  ghost predicate Shows(mark: Option<char>, c: char) {
    && (mark == None <==> c == '.')
    && (c in ['M', 'A', 'D', 'R', 'C', 'T'] ==> mark == Some(c))
    && (c !in ['.', 'M', 'A', 'D', 'R', 'C', 'T'] ==> mark == Some('M'))
  }

  lemma MarkShows(c: char)
    ensures Shows(Mark(c), c)
  {}

  /** A change that is printed is read as one change of its path, with the marks its letters stand for. */
  lemma LettersTell(r: Record)
    requires Printable(r) && (r.Ordinary? || r.Renamed?)
    ensures var st := ReadParts(EMPTY, Split(Print([r]), NUL));
      && st.branch == None && st.head == None && |st.changes| == 1
      && var c := st.changes[0];
        && c.path == r.path && c.from == (if r.Renamed? then Some(r.old_) else None) && !c.conflict
        && Shows(c.staged, r.x) && Shows(c.unstaged, r.y)
  {
    StatusRoundTrip([r]);
    MarkShows(r.x);
    MarkShows(r.y);
    hide Split, Print, ReadParts, Mark, Printable;
    assert [r][1..] == [];
    assert MeaningOf(EMPTY, [r]) == Meaning(EMPTY, r);
  }

  /** What the records other than changes say. */
  ghost predicate Says(st: Status, r: Record, next: Status) {
    match r
    case Oid(oid) => next == st.(head := if oid == "(initial)" then None else Some(ShortOid(oid)))
    case Head(name) => next == st.(branch := if name == "(detached)" then None else Some(name))
    case OtherHeader(_) => next == st
    case Unmerged(_, _, _, path) => next == st.(changes := st.changes + [Change(path, None, None, Some('M'), true)])
    case Untracked(path) => next == st.(changes := st.changes + [Change(path, None, None, Some('?'), false)])
    case _ => true
  }

  /** Its first seven digits. */
  function ShortOid(oid: string): string {
    oid[..if |oid| < 7 then |oid| else 7]
  }

  lemma MeaningSays(st: Status, r: Record)
    ensures Says(st, r, MeaningOf(st, [r]))
  {
    assert [r][1..] == [] && MeaningOf(st, [r]) == Meaning(st, r);
    assert r.Oid? && |r.oid| <= 7 ==> ShortOid(r.oid) == r.oid;
    hide Mark, MeaningOf;
  }

  /** They are read so. */
  lemma OthersTell(st: Status, r: Record)
    requires Printable(r)
    ensures Says(st, r, ReadParts(st, Split(Print([r]), NUL)))
  {
    hide *;
    ReadPrinted(st, [r]);
    MeaningSays(st, r);
  }

  /** A record with too few letters counts as modified, and with too few fields has no path; others mean nothing. */
  lemma OddRecords(st: Status, part: string, next: Option<string>)
    ensures ReadRecord(st, "1 ", next).changes == st.changes + [Change("", None, Some('M'), Some('M'), false)]
    ensures part != "" && part[0] !in "#12u?" ==> ReadRecord(st, part, next) == st
  {
    SplitFirst("1", "", ' ');
    SplitWhole("", ' ');
    assert "1" + [' '] + "" == "1 ";
    assert "1 "[0] == '1';
    KindTells("1 ");
    if part != "" { KindTells(part); }
    hide Split;
  }

  /**
   * Parsing inverts printing, whatever the paths: they may hold spaces, and a rename's old path
   * is never read as a record of its own, even when it looks like one.
   */
  lemma StatusRoundTrip(rs: seq<Record>)
    requires forall r :: r in rs ==> Printable(r)
    ensures ReadParts(EMPTY, Split(Print(rs), NUL)) == MeaningOf(EMPTY, rs)
  {
    ReadPrinted(EMPTY, rs);
  }
}
