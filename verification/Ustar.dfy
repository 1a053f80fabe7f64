/** A tar header (POSIX.1, "ustar Interchange Format"), written field by field. */
module Ustar {
  import opened Strings
  import opened Bytes
  import opened TarFields
  import opened TarPaths

  /** Modes 2775 (folders, set-group-id) and 664 (files), in octal. */
  const FOLDER_MODE: nat := 1533
  const FILE_MODE: nat := 436
  const USER: nat := 10001
  const GROUP: nat := 10000
  const MAGIC: Buffer := [117, 115, 116, 97, 114, 0]
  const VERSION: Buffer := [48, 48]
  const BLANKS: Buffer := [32, 32, 32, 32, 32, 32, 32, 32]

  /** JavaScript's largest safe integer; no buffer is longer. */
  const MAX_SAFE: nat := 0x1F_FFFF_FFFF_FFFF

  // ----- a header

  function Sum(s: Buffer): nat {
    if s == [] then 0 else Sum(s[..|s| - 1]) + s[|s| - 1]
  }

  lemma {:induction false} SumBound(s: Buffer)
    ensures Sum(s) <= 255 * |s|
    decreases |s|
  {
    if s != [] { SumBound(s[..|s| - 1]); }
  }

  function Numeric(value: nat, length: nat): Buffer
    requires length > 0
  {
    Octal(value, length) + [NUL]
  }

  /** A size too long for its field runs on into the next, which is written over it. */
  function SizeField(size: nat): (f: Buffer)
    ensures |f| == 12
  {
    Numeric(size, 12)[..12]
  }

  function Before(name: Buffer, size: nat, folder: bool): Buffer {
    Padded(name, 100) + Numeric(if folder then FOLDER_MODE else FILE_MODE, 8) + Numeric(USER, 8) + Numeric(GROUP, 8)
      + SizeField(size) + Numeric(0, 12)
  }

  function Behind(prefix: Buffer, folder: bool): Buffer {
    Padded([if folder then FIVE else ZERO], 101) + MAGIC + Padded(VERSION, 82) + Padded(prefix, 167)
  }

  function Checksum(sum: nat): Buffer {
    Octal(sum, 7) + [NUL, SPACE]
  }

  function HeaderBytes(s: PathFields, size: nat, folder: bool): Buffer {
    var before, behind := Before(s.name, size, folder), Behind(s.prefix, folder);
    before + Checksum(Sum(before + BLANKS + behind)) + behind
  }

  function HeaderOf(path: Buffer, size: nat, folder: bool): Option<Buffer> {
    match SplitPath(path)
    case None => None
    case Some(s) => Some(HeaderBytes(s, size, folder))
  }

  /** The checksum of a header always fits its six digits. */
  lemma ChecksumFits(s: Buffer)
    requires |s| <= 512
    ensures |Checksum(Sum(s))| == 8 && |OctalText(Sum(s))| <= 6
  {
    SumBound(s);
    assert Pow8(6) == 262144 by { assert Pow8(3) == 512; }
    OctalLength(Sum(s), 6);
  }

  // ----- writing a header into its 512 bytes

  /** `header.write(text, at)`: what does not fit is cut off. */
  function Overwrite(s: Buffer, t: Buffer, at: nat): (r: Buffer)
    requires at <= |s|
    ensures |r| == |s|
  {
    var n := if |t| <= |s| - at then |t| else |s| - at;
    s[..at] + t[..n] + s[at + n..]
  }

  method Put(header: array<Byte>, text: Buffer, at: nat)
    requires at <= header.Length
    modifies header
    ensures header[..] == Overwrite(old(header[..]), text, at)
  {
    var n := if |text| <= header.Length - at then |text| else header.Length - at;
    for i := 0 to n
      invariant forall k :: 0 <= k < header.Length ==>
        header[k] == if at <= k < at + i then text[k - at] else old(header[k])
    {
      header[at + i] := text[i];
    }
    ghost var r := Overwrite(old(header[..]), text, at);
    forall k | 0 <= k < header.Length ensures header[..][k] == r[k] {}
  }

  /** Writing the next field into zeros. */
  lemma NextField(done: Buffer, n: nat, t: Buffer, len: nat)
    requires |t| <= len <= n
    ensures Overwrite(done + Zeros(n), t, |done|) == done + Padded(t, len) + Zeros(n - len)
  {}

  /** A size that runs on is cut to its field by the time field that follows. */
  lemma SizeThenTime(done: Buffer, n: nat, size: Buffer, time: Buffer)
    requires 12 <= |size| <= 24 <= n && |time| == 12
    ensures Overwrite(Overwrite(done + Zeros(n), size, |done|), time, |done| + 12)
      == done + size[..12] + time + Zeros(n - 24)
  {}

  lemma ReplaceMiddle(before: Buffer, was: Buffer, now: Buffer, behind: Buffer)
    requires |was| == |now|
    ensures Overwrite(before + was + behind, now, |before|) == before + now + behind
  {}

  lemma {:induction false} SizeLength(size: nat)
    requires size <= MAX_SAFE
    ensures 12 <= |Numeric(size, 12)| <= 24
  {
    assert Pow8(18) == 0x40_0000_0000_0000 by { assert Pow8(6) == 262144; assert Pow8(12) == 0x10_0000_0000; }
    OctalLength(size, 18);
  }

  method TarHeader(path: Buffer, size: nat, directory: bool) returns (r: Option<Buffer>)
    requires size <= MAX_SAFE
    ensures r == HeaderOf(path, size, directory)
  {
    var name, prefix := path, [];
    if |path| > 100 {
      var cut := SlashFrom(path, |path| - 101);
      if cut == |path| { return None; }
      prefix, name := path[..cut], path[cut + 1..];
      if |name| > 100 || |prefix| > 155 { return None; }
    }
    var header := WriteHeader(name, prefix, size, directory);
    return Some(header[..]);
  }

  method WriteHeader(name: Buffer, prefix: Buffer, size: nat, directory: bool) returns (header: array<Byte>)
    requires |name| <= 100 && |prefix| <= 155 && size <= MAX_SAFE
    ensures fresh(header) && header[..] == HeaderBytes(PathFields(prefix, name), size, directory)
  {
    header := new Byte[512](_ => 0);
    assert header[..] == [] + Zeros(512);
    ghost var front := WriteFront(header, name, size, directory);
    ghost var behind := WriteBehind(header, prefix, directory, front);
    var sum := AddUp(header);
    ChecksumFits(front + BLANKS + behind);
    hide *;
    Put(header, Checksum(sum), 148);
    ReplaceMiddle(front, BLANKS, Checksum(sum), behind);
    HeaderIs(PathFields(prefix, name), size, directory);
  }

  lemma HeaderIs(s: PathFields, size: nat, folder: bool)
    ensures var before, behind := Before(s.name, size, folder), Behind(s.prefix, folder);
      HeaderBytes(s, size, folder) == before + Checksum(Sum(before + BLANKS + behind)) + behind
  {}

  /** Put the next field, which fits, after what is written already. */
  method PutNext(header: array<Byte>, text: Buffer, at: nat, len: nat, ghost done: Buffer)
    returns (ghost more: Buffer)
    requires |done| == at && at + len <= header.Length && |text| <= len
      && header[..] == done + Zeros(header.Length - |done|)
    modifies header
    ensures more == done + Padded(text, len) && header[..] == more + Zeros(header.Length - |more|)
  {
    NextField(done, header.Length - at, text, len);
    hide *;
    Put(header, text, at);
    more := done + Padded(text, len);
  }

  method WriteFront(header: array<Byte>, name: Buffer, size: nat, directory: bool) returns (ghost done: Buffer)
    requires header.Length == 512 && header[..] == [] + Zeros(512)
    requires |name| <= 100 && size <= MAX_SAFE
    modifies header
    ensures done == Before(name, size, directory) && |done| == 148 && header[..] == done + Zeros(364)
  {
    var mode := Numeric(if directory then FOLDER_MODE else FILE_MODE, 8);
    var user, group, length, time := Numeric(USER, 8), Numeric(GROUP, 8), Numeric(size, 12), Numeric(0, 12);
    SizeLength(size);
    PaddedFull(mode, 8);
    PaddedFull(user, 8);
    PaddedFull(group, 8);
    assert SizeField(size) == length[..12];
    assert Before(name, size, directory) == Padded(name, 100) + mode + user + group + SizeField(size) + time;
    hide *;
    assert [] + Padded(name, 100) == Padded(name, 100);
    done := PutNext(header, name, 0, 100, []);
    done := PutNext(header, mode, 100, 8, done);
    done := PutNext(header, user, 108, 8, done);
    done := PutNext(header, group, 116, 8, done);
    SizeThenTime(done, 388, length, time);
    Put(header, length, 124);
    Put(header, time, 136);
    done := done + SizeField(size) + time;
  }

  method WriteBehind(header: array<Byte>, prefix: Buffer, directory: bool, ghost front: Buffer)
    returns (ghost behind: Buffer)
    requires header.Length == 512 && |front| == 148 && header[..] == front + Zeros(364)
    requires |prefix| <= 155
    modifies header
    ensures behind == Behind(prefix, directory) && |behind| == 356 && header[..] == front + BLANKS + behind
  {
    var kind := [if directory then FIVE else ZERO];
    PaddedFull(BLANKS, 8);
    PaddedFull(MAGIC, 6);
    behind := Padded(kind, 101) + MAGIC + Padded(VERSION, 82) + Padded(prefix, 167);
    assert behind == Behind(prefix, directory);
    hide *;
    ghost var done := PutNext(header, BLANKS, 148, 8, front);
    done := PutNext(header, kind, 156, 101, done);
    done := PutNext(header, MAGIC, 257, 6, done);
    done := PutNext(header, VERSION, 263, 82, done);
    done := PutNext(header, prefix, 345, 167, done);
    assert done + Zeros(0) == done;
  }

  lemma PaddedFull(t: Buffer, n: nat)
    requires |t| == n
    ensures Padded(t, n) == t
  {}

  method AddUp(header: array<Byte>) returns (sum: nat)
    ensures sum == Sum(header[..])
  {
    sum := 0;
    for i := 0 to header.Length
      invariant sum == Sum(header[..i])
    {
      assert header[..i + 1][..i] == header[..i];
      sum := sum + header[i];
    }
    assert header[..header.Length] == header[..];
  }
}
