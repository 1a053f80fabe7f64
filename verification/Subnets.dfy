/** IPv4 ranges, the free blocks of one, and a network on a block. */
module Subnets {
  import opened Strings

  /** `size` addresses from `start`. */
  datatype Range = Range(start: nat, size: nat)

  function Pow2(k: nat): (p: nat)
    ensures p >= 1
  {
    if k == 0 then 1 else 2 * Pow2(k - 1)
  }

  // ----- addresses

  /** `toInt`, of parts that are digits. */
  function ToInt(parts: seq<string>): nat
    requires forall p :: p in parts ==> Digits(p)
    decreases |parts|
  {
    if parts == [] then 0 else ToInt(parts[..|parts| - 1]) * 256 + Value(parts[|parts| - 1])
  }

  /** `toIp`, of a number below 2 to the 32. */
  function ToIp(n: nat): string {
    Join([Decimal(n / 0x100_0000 % 256), Decimal(n / 0x1_0000 % 256), Decimal(n / 0x100 % 256), Decimal(n % 256)], '.')
  }

  function SlashBits(n: nat, bits: nat): string {
    ToIp(n) + "/" + Decimal(bits)
  }

  predicate Octet(p: string) {
    1 <= |p| <= 3 && Digits(p) && Value(p) <= 255
  }

  predicate Dotted(parts: seq<string>) {
    |parts| == 4 && forall p :: p in parts ==> Octet(p)
  }

  lemma TimesGrows(a: int, b: int, k: nat)
    requires a <= b
    ensures a * k <= b * k
  {}

  lemma NotBelow(x: int, q: int, size: nat, r: nat)
    requires r < size && q * size <= x * size + r
    ensures q <= x
  {
    if x < q { TimesGrows(x + 1, q, size); }
  }

  /** A number between two multiples: its quotient, and its remainder. */
  lemma Quotient(q: int, size: nat, n: nat)
    requires size > 0 && q * size <= n < q * size + size
    ensures n / size == q && n % size == n - q * size
  {
    var x := n / size;
    assert n == x * size + n % size;
    NotBelow(x, q, size, n % size);
    NotBelow(q, x, size, n - q * size);
  }

  function RoundDown(n: nat, size: nat): (d: nat)
    requires size > 0
    ensures d % size == 0 && d <= n < d + size
  {
    var d := n - n % size;
    Quotient(n / size, size, d);
    d
  }

  /** Two different multiples are a size apart. */
  lemma Apart(a: nat, b: nat, size: nat)
    requires size > 0 && a % size == 0 && b % size == 0 && a < b
    ensures a + size <= b
  {
    var x, y := a / size, b / size;
    assert a == x * size && b == y * size;
    if y <= x { TimesGrows(y, x, size); }
    TimesGrows(x + 1, y, size);
    assert (x + 1) * size == x * size + size;
  }

  lemma NextMultiple(a: nat, size: nat)
    requires size > 0 && a % size == 0
    ensures (a + size) % size == 0
  {
    var x := a / size;
    assert (x + 1) * size == a + size;
    Quotient(x + 1, size, a + size);
  }

  /** `parseCidr`: the network of an address and a number of bits. */
  function ParseCidr(cidr: string): Option<Range> {
    var halves := Split(cidr, '/');
    if |halves| != 2 || !(1 <= |halves[1]| <= 2) || !Digits(halves[1]) then None
    else NetworkOf(Split(halves[0], '.'), Value(halves[1]))
  }

  function NetworkOf(parts: seq<string>, bits: nat): Option<Range> {
    if !Dotted(parts) || bits > 32 then None
    else Some(Range(RoundDown(ToInt(parts), Pow2(32 - bits)), Pow2(32 - bits)))
  }

  predicate Overlap(a: Range, b: Range) {
    a.start < b.start + b.size && b.start < a.start + a.size
  }

  predicate Holds(r: Range, address: int) {
    r.start <= address < r.start + r.size
  }

  lemma OverlapIsSharing(a: Range, b: Range)
    ensures Overlap(a, b) && a.size > 0 && b.size > 0 <==> exists x :: Holds(a, x) && Holds(b, x)
  {
    if Overlap(a, b) && a.size > 0 && b.size > 0 {
      var x := if a.start < b.start then b.start else a.start;
      assert Holds(a, x) && Holds(b, x);
    }
  }

  // ----- the free blocks

  predicate Free(start: nat, size: nat, used: seq<Range>) {
    forall u :: u in used ==> !Overlap(Range(start, size), u)
  }

  /** The loop of `freeSubnets`. */
  function FreeFrom(start: nat, end: nat, size: nat, used: seq<Range>): seq<nat>
    requires size > 0
    decreases end - start
  {
    if start + size > end then []
    else (if Free(start, size, used) then [start] else []) + FreeFrom(start + size, end, size, used)
  }

  function Used(taken: seq<string>): seq<Range>
    decreases |taken|
  {
    if taken == [] then [] else
      Used(taken[..|taken| - 1])
        + match ParseCidr(taken[|taken| - 1]) case None => [] case Some(r) => [r]
  }

  function FreeStarts(range: Range, bits: nat, taken: seq<string>): seq<nat>
    requires bits <= 32
  {
    FreeFrom(range.start, range.start + range.size, Pow2(32 - bits), Used(taken))
  }

  function Written(starts: seq<nat>, bits: nat): seq<string> {
    seq(|starts|, i requires 0 <= i < |starts| => SlashBits(starts[i], bits))
  }

  /** All that `freeSubnets` yields, in order; nothing when its base is no range. */
  method FreeSubnets(base: string, bits: nat, taken: seq<string>) returns (subnets: Option<seq<string>>)
    requires bits <= 32
    ensures subnets == match ParseCidr(base)
      case None => None
      case Some(range) => Some(Written(FreeStarts(range, bits, taken), bits))
  {
    var parsed := ParseCidr(base);
    if parsed.None? { return None; }
    var used := ParseAll(taken);
    var free := FreeIn(parsed.value, bits, used);
    return Some(free);
  }

  /** `taken.map(parseCidr)`, without what is no range. */
  method ParseAll(taken: seq<string>) returns (used: seq<Range>)
    ensures used == Used(taken)
  {
    used := [];
    hide ParseCidr;
    for i := 0 to |taken|
      invariant used == Used(taken[..i])
    {
      assert taken[..i + 1][..i] == taken[..i];
      var r := ParseCidr(taken[i]);
      if r.Some? { used := used + [r.value]; }
    }
    assert taken[..|taken|] == taken;
  }

  method FreeIn(range: Range, bits: nat, used: seq<Range>) returns (free: seq<string>)
    requires bits <= 32
    ensures free == Written(FreeFrom(range.start, range.start + range.size, Pow2(32 - bits), used), bits)
  {
    hide *;
    var size, start, end := Pow2(32 - bits), range.start, range.start + range.size;
    ghost var all, starts: seq<nat> := FreeFrom(start, end, size, used), [];
    free := [];
    WrittenMore([], 0, bits);
    Joined(starts, start, all);
    while start + size <= end
      invariant starts + FreeFrom(start, end, size, used) == all
      invariant free == Written(starts, bits)
      decreases end - start
    {
      FreeFromIs(start, end, size, used);
      WrittenMore(starts, start, bits);
      Joined(starts, start, FreeFrom(start + size, end, size, used));
      if Free(start, size, used) {
        free, starts := free + [SlashBits(start, bits)], starts + [start];
      }
      start := start + size;
    }
    FreeFromIs(start, end, size, used);
    Joined(starts, start, []);
  }

  lemma Joined(starts: seq<nat>, at: nat, rest: seq<nat>)
    ensures starts + ([at] + rest) == starts + [at] + rest && [] + rest == rest && starts + [] == starts
  {}

  lemma FreeFromIs(start: nat, end: nat, size: nat, used: seq<Range>)
    requires size > 0
    ensures FreeFrom(start, end, size, used) ==
      if start + size > end then []
      else (if Free(start, size, used) then [start] else []) + FreeFrom(start + size, end, size, used)
  {
    hide Free;
  }

  lemma WrittenMore(starts: seq<nat>, at: nat, bits: nat)
    ensures Written([], bits) == [] && Written(starts + [at], bits) == Written(starts, bits) + [SlashBits(at, bits)]
  {
    hide SlashBits;
  }

  ghost predicate Ascending(starts: seq<nat>, size: nat) {
    forall i, j :: 0 <= i < j < |starts| ==> starts[i] + size <= starts[j]
  }

  /** An aligned block of a range that overlaps nothing used. */
  ghost predicate FreeBlock(at: nat, start: nat, end: nat, size: nat, used: seq<Range>)
    requires size > 0
  {
    start <= at && at + size <= end && at % size == 0 && Free(at, size, used)
  }

  /** The loop finds exactly the free aligned blocks, in ascending order and apart. */
  lemma {:induction false} FreeFromExact(start: nat, end: nat, size: nat, used: seq<Range>)
    requires size > 0 && start % size == 0
    ensures var all := FreeFrom(start, end, size, used);
      Ascending(all, size) && forall at :: at in all <==> FreeBlock(at, start, end, size, used)
    decreases end - start
  {
    if start + size <= end {
      NextMultiple(start, size);
      FreeFromExact(start + size, end, size, used);
      var rest := FreeFrom(start + size, end, size, used);
      assert forall i :: 0 <= i < |rest| ==> rest[i] in rest;
      forall at | FreeBlock(at, start, end, size, used) && at != start ensures at in rest {
        Apart(start, at, size);
        assert FreeBlock(at, start + size, end, size, used);
      }
      hide Free;
      forall at ensures at in FreeFrom(start, end, size, used) <==> FreeBlock(at, start, end, size, used) {
        assert at in rest <==> FreeBlock(at, start + size, end, size, used);
      }
    } else {
      forall at: nat ensures !FreeBlock(at, start, end, size, used) {}
    }
  }

  // ----- addresses read back

  lemma DecimalIsDigits(n: nat)
    requires n < 1000
    ensures 1 <= |Decimal(n)| <= 3 && Digits(Decimal(n)) && Value(Decimal(n)) == n
    ensures (n < 100 ==> |Decimal(n)| <= 2) && '.' !in Decimal(n) && '/' !in Decimal(n)
  {
    ValueOfDecimal(n);
    assert Digits(Decimal(n));
  }

  lemma FourParts(a: string, b: string, c: string, d: string)
    requires '.' !in a && '.' !in b && '.' !in c && '.' !in d
    requires '/' !in a && '/' !in b && '/' !in c && '/' !in d
    ensures Split(Join([a, b, c, d], '.'), '.') == [a, b, c, d] && '/' !in Join([a, b, c, d], '.')
  {
    hide *;
    SplitJoin([a, b, c], d, '.');
    SplitWhole(d, '.');
    assert [a, b, c] + [d] == [a, b, c, d];
    JoinOfFour(a, b, c, d);
  }

  lemma JoinOfFour(a: string, b: string, c: string, d: string)
    ensures Join([a, b, c, d], '.') == a + "." + (b + "." + (c + "." + d))
  {
    assert Join([d], '.') == d;
    hide Join;
    JoinFirst(c, [d], '.');
    JoinFirst(b, [c, d], '.');
    JoinFirst(a, [b, c, d], '.');
    assert [c] + [d] == [c, d] && [b] + [c, d] == [b, c, d] && [a] + [b, c, d] == [a, b, c, d];
  }

  lemma ToIntOfFour(a: string, b: string, c: string, d: string)
    requires Digits(a) && Digits(b) && Digits(c) && Digits(d)
    ensures ToInt([a, b, c, d]) == Value(a) * 0x100_0000 + Value(b) * 0x1_0000 + Value(c) * 0x100 + Value(d)
  {
    var q := [a, b, c, d];
    assert q[..3] == [a, b, c] && [a, b, c][..2] == [a, b] && [a, b][..1] == [a];
    assert forall p :: p in [a, b, c] ==> p in q;
    hide Value, Digits;
    assert ToInt([]) == 0 && [a][..0] == [];
    assert ToInt([a]) == Value(a);
    assert ToInt([a, b]) == Value(a) * 256 + Value(b);
    assert ToInt([a, b, c]) == (Value(a) * 256 + Value(b)) * 256 + Value(c);
  }

  lemma FourBytes(n: nat)
    requires n < 0x1_0000_0000
    ensures n == n / 0x100_0000 % 256 * 0x100_0000 + n / 0x1_0000 % 256 * 0x1_0000 + n / 0x100 % 256 * 0x100 + n % 256
  {
    assert n / 0x1_0000 == n / 0x100 / 0x100 && n / 0x100_0000 == n / 0x1_0000 / 0x100;
  }

  lemma IpReadsBack(n: nat)
    requires n < 0x1_0000_0000
    ensures var parts := Split(ToIp(n), '.'); Dotted(parts) && ToInt(parts) == n && '/' !in ToIp(n)
  {
    hide Decimal, Join, Value, Split, ToInt, Digits;
    FourBytes(n);
    var a, b, c, d := n / 0x100_0000 % 256, n / 0x1_0000 % 256, n / 0x100 % 256, n % 256;
    DecimalIsDigits(a);
    DecimalIsDigits(b);
    DecimalIsDigits(c);
    DecimalIsDigits(d);
    FourParts(Decimal(a), Decimal(b), Decimal(c), Decimal(d));
    ToIntOfFour(Decimal(a), Decimal(b), Decimal(c), Decimal(d));
  }

  /** An aligned block, written out, parses to its own range. */
  lemma BlockReadsBack(start: nat, bits: nat)
    requires bits <= 32 && start < 0x1_0000_0000 && start % Pow2(32 - bits) == 0
    ensures ParseCidr(SlashBits(start, bits)) == Some(Range(start, Pow2(32 - bits)))
  {
    IpReadsBack(start);
    DecimalIsDigits(bits);
    SplitFirst(ToIp(start), Decimal(bits), '/');
    SplitWhole(Decimal(bits), '/');
    assert ToIp(start) + "/" + Decimal(bits) == ToIp(start) + ['/'] + Decimal(bits);
    hide ToIp, Decimal, Split, ToInt, Value, Pow2;
    RoundedAlready(start, Pow2(32 - bits));
  }

  lemma RoundedAlready(n: nat, size: nat)
    requires size > 0 && n % size == 0
    ensures RoundDown(n, size) == n
  {}

  // ----- what is parsed, and its blocks

  /** The address that four octets make, whatever zeros they begin with. */
  function Address(a: string, b: string, c: string, d: string): nat
    requires Digits(a) && Digits(b) && Digits(c) && Digits(d)
  {
    Value(a) * 0x100_0000 + Value(b) * 0x1_0000 + Value(c) * 0x100 + Value(d)
  }

  /** The aligned block of this size that an address lies in. */
  ghost predicate IsBlockOf(r: Range, size: nat, address: nat)
    requires size > 0
  {
    r.size == size && r.start % size == 0 && r.start <= address < r.start + size
  }

  /** One to three digits, no more than 255. */
  ghost predicate IsOctet(p: string) {
    p != "" && |p| <= 3 && Digits(p) && Value(p) < 256
  }

  ghost predicate IsCidr(cidr: string, a: string, b: string, c: string, d: string, bits: string) {
    && cidr == a + "." + b + "." + c + "." + d + "/" + bits
    && IsOctet(a) && IsOctet(b) && IsOctet(c) && IsOctet(d)
    && bits != "" && |bits| <= 2 && Digits(bits) && Value(bits) <= 32
  }

  lemma NoDotInDigits(p: string)
    requires Digits(p)
    ensures '.' !in p && '/' !in p
  {}

  lemma HalvesParse(cidr: string, ip: string, bits: string)
    requires Split(cidr, '/') == [ip, bits] && bits != "" && |bits| <= 2 && Digits(bits)
    ensures ParseCidr(cidr) == NetworkOf(Split(ip, '.'), Value(bits))
  {
    hide Split, Digits, Value, NetworkOf;
  }

  lemma NetworkIs(parts: seq<string>, bits: nat)
    requires Dotted(parts) && bits <= 32
    ensures NetworkOf(parts, bits).Some? && IsBlockOf(NetworkOf(parts, bits).value, Pow2(32 - bits), ToInt(parts))
  {
    hide Value, Digits, ToInt, Pow2;
  }

  lemma AddressOfFour(a: string, b: string, c: string, d: string)
    requires Digits(a) && Digits(b) && Digits(c) && Digits(d)
    ensures ToInt([a, b, c, d]) == Address(a, b, c, d)
  {
    ToIntOfFour(a, b, c, d);
    hide Value, Digits, ToInt;
  }

  lemma OctetsDot(a: string, b: string, c: string, d: string)
    requires IsOctet(a) && IsOctet(b) && IsOctet(c) && IsOctet(d)
    ensures Dotted([a, b, c, d]) && Digits(a) && Digits(b) && Digits(c) && Digits(d)
  {
    hide Value, Digits;
    assert Octet(a) && Octet(b) && Octet(c) && Octet(d);
  }

  lemma CidrIs(cidr: string, a: string, b: string, c: string, d: string, bits: string)
    requires IsCidr(cidr, a, b, c, d, bits)
    ensures cidr == a + "." + b + "." + c + "." + d + "/" + bits && Digits(bits)
    ensures IsOctet(a) && IsOctet(b) && IsOctet(c) && IsOctet(d) && Digits(a) && Digits(b) && Digits(c) && Digits(d)
    ensures bits != "" && |bits| <= 2 && Value(bits) <= 32
  {
    hide Digits, Value;
  }

  /** Any address with any number of bits is read as the network it lies in. */
  lemma ParseReads(cidr: string, a: string, b: string, c: string, d: string, bits: string)
    requires IsCidr(cidr, a, b, c, d, bits)
    ensures Digits(a) && Digits(b) && Digits(c) && Digits(d) && Digits(bits) && Value(bits) <= 32
    ensures ParseCidr(cidr).Some?
    ensures IsBlockOf(ParseCidr(cidr).value, Pow2(32 - Value(bits)), Address(a, b, c, d))
  {
    hide *;
    CidrIs(cidr, a, b, c, d, bits);
    NoDotInDigits(a);
    NoDotInDigits(b);
    NoDotInDigits(c);
    NoDotInDigits(d);
    NoDotInDigits(bits);
    FourParts(a, b, c, d);
    JoinOfFour(a, b, c, d);
    var ip := Join([a, b, c, d], '.');
    assert cidr == ip + ['/'] + bits;
    SplitFirst(ip, bits, '/');
    SplitWhole(bits, '/');
    HalvesParse(cidr, ip, bits);
    OctetsDot(a, b, c, d);
    NetworkIs([a, b, c, d], Value(bits));
    AddressOfFour(a, b, c, d);
  }

  /** Nothing else is read. */
  lemma OnlyCidrsParse(cidr: string)
    requires ParseCidr(cidr).Some?
    ensures exists a, b, c, d, bits :: IsCidr(cidr, a, b, c, d, bits)
  {
    hide *;
    var halves, q := ParsedParts(cidr);
    JoinSplit(cidr, '/');
    JoinSplit(halves[0], '.');
    JoinOfFour(q[0], q[1], q[2], q[3]);
    JoinFirst(halves[0], [halves[1]], '/');
    assert [halves[0]] + [halves[1]] == halves;
    JoinOfOne(halves[1], '/');
    assert cidr == q[0] + "." + q[1] + "." + q[2] + "." + q[3] + "/" + halves[1];
    assert IsCidr(cidr, q[0], q[1], q[2], q[3], halves[1]) by { PartsAreCidr(cidr, q, halves[1]); }
  }

  lemma JoinOfOne(a: string, c: char)
    ensures Join([a], c) == a
  {}

  lemma ParsedParts(cidr: string) returns (halves: seq<string>, q: seq<string>)
    requires ParseCidr(cidr).Some?
    ensures halves == Split(cidr, '/') && |halves| == 2 && q == Split(halves[0], '.')
    ensures |q| == 4 && q == [q[0], q[1], q[2], q[3]]
    ensures IsOctet(q[0]) && IsOctet(q[1]) && IsOctet(q[2]) && IsOctet(q[3])
    ensures halves[1] != "" && |halves[1]| <= 2 && Digits(halves[1]) && Value(halves[1]) <= 32
  {
    hide Split, Digits, Value, ToInt, Pow2, RoundDown;
    halves := Split(cidr, '/');
    q := Split(halves[0], '.');
    assert q[0] in q && q[1] in q && q[2] in q && q[3] in q;
  }

  lemma PartsAreCidr(cidr: string, q: seq<string>, bits: string)
    requires |q| == 4 && IsOctet(q[0]) && IsOctet(q[1]) && IsOctet(q[2]) && IsOctet(q[3])
    requires bits != "" && |bits| <= 2 && Digits(bits) && Value(bits) <= 32
    requires cidr == q[0] + "." + q[1] + "." + q[2] + "." + q[3] + "/" + bits
    ensures IsCidr(cidr, q[0], q[1], q[2], q[3], bits)
  {
    hide Digits, Value;
  }

  lemma {:induction false} PowSum(a: nat, b: nat)
    ensures Pow2(a + b) == Pow2(a) * Pow2(b)
  {
    if a > 0 {
      PowSum(a - 1, b);
      assert Pow2(a) * Pow2(b) == 2 * Pow2(a - 1) * Pow2(b);
    }
  }

  lemma AllAddresses()
    ensures Pow2(32) == 0x1_0000_0000
  {
    assert Pow2(8) == 256;
    PowSum(8, 8);
    PowSum(16, 16);
  }

  lemma MultipleOfPart(n: nat, parts: nat, size: nat)
    requires size > 0 && parts > 0 && n % (parts * size) == 0
    ensures n % size == 0
  {
    var q := n / (parts * size);
    assert n == q * (parts * size) == (q * parts) * size;
    Quotient(q * parts, size, n);
  }

  lemma AddressBound(parts: seq<string>)
    requires Dotted(parts)
    ensures ToInt(parts) < 0x1_0000_0000
  {
    assert parts == [parts[0], parts[1], parts[2], parts[3]];
    assert Octet(parts[0]) && Octet(parts[1]) && Octet(parts[2]) && Octet(parts[3]);
    hide Value, ToInt;
    ToIntOfFour(parts[0], parts[1], parts[2], parts[3]);
  }

  /** An aligned power of two of addresses, all within 32 bits. */
  ghost predicate IsNetwork(r: Range, bits: nat) {
    bits <= 32 && r.size == Pow2(32 - bits) && r.start % r.size == 0 && r.start + r.size <= 0x1_0000_0000
  }

  lemma RoundedIsNetwork(at: nat, bits: nat)
    requires bits <= 32 && at < 0x1_0000_0000
    ensures IsNetwork(Range(RoundDown(at, Pow2(32 - bits)), Pow2(32 - bits)), bits)
  {
    AllAddresses();
    PowSum(bits, 32 - bits);
    var size := Pow2(32 - bits);
    hide Pow2;
    Quotient(Pow2(bits), size, 0x1_0000_0000);
    Apart(RoundDown(at, size), 0x1_0000_0000, size);
  }

  lemma ParsedIsNetwork(cidr: string)
    requires ParseCidr(cidr).Some?
    ensures var bits := Value(Split(cidr, '/')[1]); IsNetwork(ParseCidr(cidr).value, bits)
  {
    var halves := Split(cidr, '/');
    var parts, bits := Split(halves[0], '.'), Value(halves[1]);
    AddressBound(parts);
    hide Split, Value, ToInt, Pow2;
    RoundedIsNetwork(ToInt(parts), bits);
  }

  lemma BlocksOfNetwork(r: Range, b: nat, bits: nat)
    requires IsNetwork(r, b) && b <= bits <= 32
    ensures r.start % Pow2(32 - bits) == 0 && r.size == Pow2(bits - b) * Pow2(32 - bits)
  {
    PowSum(bits - b, 32 - bits);
    hide Pow2;
    MultipleOfPart(r.start, Pow2(bits - b), Pow2(32 - bits));
  }

  lemma {:induction false} PowGrows(a: nat, b: nat)
    requires a < b
    ensures Pow2(a) < Pow2(b)
    decreases b
  {
    if a < b - 1 { PowGrows(a, b - 1); }
  }

  lemma NoBlockFits(start: nat, end: nat, size: nat, used: seq<Range>)
    requires size > 0 && start + size > end
    ensures FreeFrom(start, end, size, used) == [] && Ascending([], size)
    ensures forall at :: !FreeBlock(at, start, end, size, used)
  {}

  lemma NetworkIsSmaller(r: Range, b: nat, bits: nat)
    requires IsNetwork(r, b) && bits < b
    ensures r.size < Pow2(32 - bits)
  {
    PowGrows(32 - b, 32 - bits);
  }

  lemma FreeStartsExact(base: string, bits: nat, taken: seq<string>)
    requires bits <= 32 && ParseCidr(base).Some?
    ensures var r := ParseCidr(base).value; var size := Pow2(32 - bits); var all := FreeStarts(r, bits, taken);
      Ascending(all, size) && forall at :: at in all <==> FreeBlock(at, r.start, r.start + r.size, size, Used(taken))
  {
    ParsedIsNetwork(base);
    hide *;
    BlocksIn(ParseCidr(base).value, Value(Split(base, '/')[1]), bits, Used(taken));
  }

  lemma BlocksIn(r: Range, b: nat, bits: nat, used: seq<Range>)
    requires IsNetwork(r, b) && bits <= 32
    ensures var size := Pow2(32 - bits); var all := FreeFrom(r.start, r.start + r.size, size, used);
      Ascending(all, size) && forall at :: at in all <==> FreeBlock(at, r.start, r.start + r.size, size, used)
  {
    hide *;
    if b <= bits {
      BlocksOfNetwork(r, b, bits);
      FreeFromExact(r.start, r.start + r.size, Pow2(32 - bits), used);
    } else {
      NetworkIsSmaller(r, b, bits);
      NoBlockFits(r.start, r.start + r.size, Pow2(32 - bits), used);
    }
  }

  lemma WrittenExact(base: string, bits: nat, taken: seq<string>)
    requires bits <= 32 && ParseCidr(base).Some?
    ensures var r := ParseCidr(base).value; var size := Pow2(32 - bits); var all := FreeStarts(r, bits, taken);
      && Ascending(all, size)
      && (forall at :: at in all <==> FreeBlock(at, r.start, r.start + r.size, size, Used(taken)))
      && forall at :: at in all ==> ParseCidr(SlashBits(at, bits)) == Some(Range(at, size))
  {
    ParsedIsNetwork(base);
    FreeStartsExact(base, bits, taken);
    hide ParseCidr, SlashBits, Used, Value, Split, FreeStarts, Ascending, Free, Pow2;
    var r, size := ParseCidr(base).value, Pow2(32 - bits);
    forall at | at in FreeStarts(r, bits, taken) ensures ParseCidr(SlashBits(at, bits)) == Some(Range(at, size)) {
      assert FreeBlock(at, r.start, r.start + r.size, size, Used(taken));
      BlockReadsBack(at, bits);
    }
  }

  // ----- what is listed

  /** These ranges are those of the strings at these places, and no other string is a range. */
  ghost predicate RangesAt(taken: seq<string>, at: seq<nat>, used: seq<Range>) {
    && |at| == |used| && (forall j, k :: 0 <= j < k < |at| ==> at[j] < at[k])
    && (forall k :: 0 <= k < |at| ==> at[k] < |taken| && ParseCidr(taken[at[k]]) == Some(used[k]))
    && (forall i :: 0 <= i < |taken| && ParseCidr(taken[i]).Some? ==> i in at)
  }

  lemma NoneMore(front: seq<string>, t: string, at: seq<nat>, used: seq<Range>)
    requires RangesAt(front, at, used) && ParseCidr(t).None?
    ensures RangesAt(front + [t], at, used)
  {
    hide ParseCidr;
    var taken := front + [t];
    assert forall i :: 0 <= i < |front| ==> taken[i] == front[i];
  }

  lemma OneMore(front: seq<string>, t: string, at: seq<nat>, used: seq<Range>)
    requires RangesAt(front, at, used) && ParseCidr(t).Some?
    ensures RangesAt(front + [t], at + [|front|], used + [ParseCidr(t).value])
  {
    hide ParseCidr;
    var taken, more := front + [t], at + [|front|];
    assert forall i :: 0 <= i < |front| ==> taken[i] == front[i];
    assert more[|at|] == |front|;
    forall i | 0 <= i < |taken| && ParseCidr(taken[i]).Some? ensures i in more {
      if i < |front| { assert i in at; }
    }
  }

  /** The ranges used are those that listed strings parse to, each at the place of its string; no other is left out. */
  lemma {:induction false} UsedAre(taken: seq<string>) returns (at: seq<nat>)
    ensures RangesAt(taken, at, Used(taken))
    decreases |taken|
  {
    at := [];
    if taken != [] {
      var front, t := taken[..|taken| - 1], taken[|taken| - 1];
      at := UsedAre(front);
      assert taken == front + [t];
      UsedLast(taken);
      hide *;
      if ParseCidr(t).Some? {
        OneMore(front, t, at, Used(front));
        at := at + [|front|];
      } else {
        NoneMore(front, t, at, Used(front));
        assert Used(front) + [] == Used(front);
      }
    }
  }

  lemma UsedLast(taken: seq<string>)
    requires taken != []
    ensures var n := |taken| - 1;
      Used(taken) == Used(taken[..n]) + match ParseCidr(taken[n]) case None => [] case Some(r) => [r]
  {
    hide ParseCidr;
  }

  /** Of what is listed this is a range. */
  ghost predicate Listed(taken: seq<string>, u: Range) {
    exists t :: t in taken && ParseCidr(t) == Some(u)
  }

  lemma UsedIs(taken: seq<string>)
    ensures forall u :: u in Used(taken) <==> Listed(taken, u)
  {
    var at := UsedAre(taken);
    hide ParseCidr, Used;
    forall u | u in Used(taken) ensures Listed(taken, u) {
      var k :| 0 <= k < |at| && Used(taken)[k] == u;
      assert taken[at[k]] in taken;
    }
    forall u | Listed(taken, u) ensures u in Used(taken) {
      var t :| t in taken && ParseCidr(t) == Some(u);
      var i :| 0 <= i < |taken| && taken[i] == t;
      var k :| 0 <= k < |at| && at[k] == i;
    }
  }

  /** An aligned block of a range that overlaps no range that is listed. */
  ghost predicate OpenBlock(at: nat, r: Range, size: nat, taken: seq<string>)
    requires size > 0
  {
    && r.start <= at && at + size <= r.start + r.size && at % size == 0
    && forall t :: t in taken && ParseCidr(t).Some? ==> !Overlap(Range(at, size), ParseCidr(t).value)
  }

  lemma OpenIsFree(at: nat, r: Range, size: nat, taken: seq<string>)
    requires size > 0
    ensures OpenBlock(at, r, size, taken) <==> FreeBlock(at, r.start, r.start + r.size, size, Used(taken))
  {
    UsedIs(taken);
    hide ParseCidr, Used, Overlap;
    assert forall t :: t in taken && ParseCidr(t).Some? ==> Listed(taken, ParseCidr(t).value);
  }

  /** What is yielded: just the open aligned blocks of the base, lowest first, apart, each parsing to its own range. */
  lemma FreeSubnetsExact(base: string, bits: nat, taken: seq<string>)
    requires bits <= 32 && ParseCidr(base).Some?
    ensures var r := ParseCidr(base).value; var size := Pow2(32 - bits); var all := FreeStarts(r, bits, taken);
      && Ascending(all, size) && (forall at :: at in all <==> OpenBlock(at, r, size, taken))
      && forall at :: at in all ==> ParseCidr(SlashBits(at, bits)) == Some(Range(at, size))
  {
    hide *;
    var r, size := ParseCidr(base).value, Pow2(32 - bits);
    WrittenExact(base, bits, taken);
    forall at ensures at in FreeStarts(r, bits, taken) <==> OpenBlock(at, r, size, taken) {
      OpenIsFree(at, r, size, taken);
    }
  }

  // ----- room for more

  /** How many blocks of this size a listed range takes of a base: none when it lies elsewhere. */
  function BlocksTaken(base: Range, size: nat, u: Range): nat
    requires size > 0
  {
    if !Overlap(base, u) then 0 else if u.size < size then 1 else u.size / size
  }

  function AllTaken(base: Range, size: nat, used: seq<Range>): nat
    requires size > 0
    decreases |used|
  {
    if used == [] then 0
    else AllTaken(base, size, used[..|used| - 1]) + BlocksTaken(base, size, used[|used| - 1])
  }

  /** None by one that lies elsewhere, one by a smaller one, and by a larger one as many as it is made of. */
  lemma TakenIs(base: Range, size: nat, u: Range, blocks: nat)
    requires size > 0
    ensures (base.start + base.size <= u.start || u.start + u.size <= base.start) ==> BlocksTaken(base, size, u) == 0
    ensures Overlap(base, u) && u.size < size ==> BlocksTaken(base, size, u) == 1
    ensures Overlap(base, u) && u.size == blocks * size && blocks > 0 ==> BlocksTaken(base, size, u) == blocks
  {
    if u.size == blocks * size && blocks > 0 {
      Quotient(blocks, size, u.size);
      TimesGrows(1, blocks, size);
    }
  }

  lemma FreeWithOneMore(start: nat, size: nat, used: seq<Range>, u: Range)
    ensures Free(start, size, used + [u]) <==> Free(start, size, used) && !Overlap(Range(start, size), u)
  {
    hide Overlap;
    assert forall x :: x in used + [u] <==> x in used || x == u;
  }

  /** A range that ends within `m` blocks of `from`, or of where the search is, takes at most `m` of the free ones. */
  lemma {:induction false} TakesAtMost(start: nat, end: nat, size: nat, used: seq<Range>, u: Range, from: nat, m: nat)
    requires size > 0 && start % size == 0 && from % size == 0 && from <= u.start
    requires u.start + u.size <= (if start < from then from else start) + m * size
    ensures |FreeFrom(start, end, size, used + [u])| >= |FreeFrom(start, end, size, used)| - m
    decreases end - start
  {
    hide FreeFrom, Free;
    FreeFromIs(start, end, size, used);
    FreeFromIs(start, end, size, used + [u]);
    FreeWithOneMore(start, size, used, u);
    if start + size <= end {
      NextMultiple(start, size);
      if start < from {
        Apart(start, from, size);
        TakesAtMost(start + size, end, size, used, u, from, m);
      } else if m == 0 {
        TakesAtMost(start + size, end, size, used, u, from, 0);
      } else {
        OneLess(m, size);
        TakesAtMost(start + size, end, size, used, u, from, m - 1);
      }
    }
  }

  lemma OneLess(m: nat, size: nat)
    requires m > 0
    ensures m * size == size + (m - 1) * size
  {}

  /** One that lies elsewhere takes none. */
  lemma {:induction false} TakesNone(start: nat, end: nat, size: nat, used: seq<Range>, u: Range)
    requires size > 0 && (end <= u.start || u.start + u.size <= start)
    ensures FreeFrom(start, end, size, used + [u]) == FreeFrom(start, end, size, used)
    decreases end - start
  {
    if start + size <= end {
      TakesNone(start + size, end, size, used, u);
    }
  }

  /** A network smaller than a block lies in one. */
  lemma SmallIsInside(u: Range, b: nat, bits: nat)
    requires IsNetwork(u, b) && bits <= 32 && u.size < Pow2(32 - bits)
    ensures var size := Pow2(32 - bits); u.start + u.size <= RoundDown(u.start, size) + size
  {
    if b <= bits && b < bits { PowGrows(32 - bits, 32 - b); }
    PowSum(b - bits, 32 - b);
    var size := Pow2(32 - bits);
    var from := RoundDown(u.start, size);
    hide Pow2;
    MultipleOfPart(from, Pow2(b - bits), u.size);
    assert size == Pow2(b - bits) * u.size;
    MultipleOfPart(size, Pow2(b - bits), u.size);
    SumOfMultiples(from, size, u.size);
    Apart(u.start, from + size, u.size);
  }

  lemma SumOfMultiples(a: nat, b: nat, size: nat)
    requires size > 0 && a % size == 0 && b % size == 0
    ensures (a + b) % size == 0
  {
    assert a + b == (a / size + b / size) * size;
    Quotient(a / size + b / size, size, a + b);
  }

  /** A network as large as a block is made of blocks. */
  lemma LargeIsBlocks(u: Range, b: nat, bits: nat)
    requires IsNetwork(u, b) && bits <= 32 && u.size >= Pow2(32 - bits)
    ensures var size := Pow2(32 - bits); u.start % size == 0 && u.size == u.size / size * size
  {
    if bits < b { PowGrows(32 - b, 32 - bits); }
    BlocksOfNetwork(u, b, bits);
    hide Pow2;
    Quotient(Pow2(bits - b), Pow2(32 - bits), u.size);
  }

  lemma OneMoreTaken(base: Range, bits: nat, used: seq<Range>, u: Range, b: nat)
    requires bits <= 32 && base.start % Pow2(32 - bits) == 0 && IsNetwork(u, b)
    ensures var size, end := Pow2(32 - bits), base.start + base.size;
      |FreeFrom(base.start, end, size, used + [u])|
        >= |FreeFrom(base.start, end, size, used)| - BlocksTaken(base, size, u)
  {
    var size, end := Pow2(32 - bits), base.start + base.size;
    hide Pow2, FreeFrom;
    if !Overlap(base, u) {
      TakesNone(base.start, end, size, used, u);
    } else if u.size < size {
      SmallIsInside(u, b, bits);
      TakesAtMost(base.start, end, size, used, u, RoundDown(u.start, size), 1);
    } else {
      LargeIsBlocks(u, b, bits);
      TakesAtMost(base.start, end, size, used, u, u.start, u.size / size);
    }
  }

  lemma {:induction false} AllFreeAtFirst(start: nat, count: nat, size: nat)
    requires size > 0
    ensures |FreeFrom(start, start + count * size, size, [])| == count
    decreases count
  {
    if count > 0 {
      assert start + count * size == start + size + (count - 1) * size;
      AllFreeAtFirst(start + size, count - 1, size);
    }
  }

  ghost predicate AllNetworks(used: seq<Range>) {
    forall u :: u in used ==> exists b: nat :: IsNetwork(u, b)
  }

  lemma {:induction false} LeftOver(base: Range, bits: nat, count: nat, used: seq<Range>)
    requires bits <= 32 && base.start % Pow2(32 - bits) == 0 && base.size == count * Pow2(32 - bits)
      && AllNetworks(used)
    ensures var size := Pow2(32 - bits);
      |FreeFrom(base.start, base.start + base.size, size, used)| >= count - AllTaken(base, size, used)
    decreases |used|
  {
    hide IsNetwork, FreeFrom, Pow2;
    if used == [] {
      AllFreeAtFirst(base.start, count, Pow2(32 - bits));
    } else {
      var before, u := used[..|used| - 1], used[|used| - 1];
      assert used == before + [u] && u in used && forall x :: x in before ==> x in used;
      LeftOver(base, bits, count, before);
      var b: nat :| IsNetwork(u, b);
      OneMoreTaken(base, bits, before, u, b);
    }
  }

  lemma {:induction false} UsedAreNetworks(taken: seq<string>)
    ensures AllNetworks(Used(taken))
    decreases |taken|
  {
    hide ParseCidr, IsNetwork;
    if taken != [] {
      UsedAreNetworks(taken[..|taken| - 1]);
      if ParseCidr(taken[|taken| - 1]).Some? { ParsedIsNetwork(taken[|taken| - 1]); }
    }
  }

  /**
   * Whatever ranges are listed, as many blocks are free as the base has beyond those that the
   * ranges take of it: none by a range elsewhere, one by a smaller one, all its own by a larger one.
   */
  lemma RoomForMore(base: string, bits: nat, taken: seq<string>)
    requires ParseCidr(base).Some? && Value(Split(base, '/')[1]) <= bits <= 32
    ensures var r := ParseCidr(base).value;
      |FreeStarts(r, bits, taken)|
        >= Pow2(bits - Value(Split(base, '/')[1])) - AllTaken(r, Pow2(32 - bits), Used(taken))
  {
    var r, b := ParseCidr(base).value, Value(Split(base, '/')[1]);
    ParsedIsNetwork(base);
    UsedAreNetworks(taken);
    hide Pow2, Value, Split, ParseCidr, Used, FreeFrom, AllNetworks;
    BlocksOfNetwork(r, b, bits);
    LeftOver(r, bits, Pow2(bits - b), Used(taken));
  }

  ghost predicate SmallWhereOver(base: Range, size: nat, used: seq<Range>) {
    forall u :: u in used && Overlap(base, u) ==> u.size <= size
  }

  lemma AtMostOne(base: Range, size: nat, used: seq<Range>, u: Range)
    requires size > 0 && SmallWhereOver(base, size, used) && u in used
    ensures BlocksTaken(base, size, u) <= 1
  {
    if u.size == size { Quotient(1, size, u.size); }
  }

  lemma AllTakenLast(base: Range, size: nat, used: seq<Range>)
    requires size > 0 && used != []
    ensures AllTaken(base, size, used)
      == AllTaken(base, size, used[..|used| - 1]) + BlocksTaken(base, size, used[|used| - 1])
  {}

  /** When those over the base are no larger than a block, each listed range takes at most one. */
  lemma {:induction false} AtMostOneEach(base: Range, size: nat, used: seq<Range>)
    requires size > 0 && SmallWhereOver(base, size, used)
    ensures AllTaken(base, size, used) <= |used|
    decreases |used|
  {
    if used != [] {
      var before, u := used[..|used| - 1], used[|used| - 1];
      assert u in used && forall x :: x in before ==> x in used;
      AtMostOneEach(base, size, before);
      hide SmallWhereOver, AllTaken;
      AtMostOne(base, size, used, u);
      AllTakenLast(base, size, used);
    }
  }

  /** A sixteen-bit range of which nothing is taken has 1,024 blocks for rooms. */
  lemma RoomsOfSixteenBits(base: string, taken: seq<string>)
    requires ParseCidr(base).Some? && Value(Split(base, '/')[1]) == 16
    requires forall t :: t in taken && ParseCidr(t).Some? ==> !Overlap(ParseCidr(base).value, ParseCidr(t).value)
    ensures |FreeStarts(ParseCidr(base).value, ROOM_SUBNET_BITS, taken)| == 1024
  {
    var r := ParseCidr(base).value;
    ParsedIsNetwork(base);
    UsedIs(taken);
    assert Pow2(10) == 1024 by {
      assert Pow2(5) == 32;
      PowSum(5, 5);
    }
    hide Pow2, Value, Split, ParseCidr, Used, FreeFrom, Overlap;
    BlocksOfNetwork(r, 16, ROOM_SUBNET_BITS);
    AllElsewhere(r, Pow2(32 - ROOM_SUBNET_BITS), Used(taken));
    AllFreeAtFirst(r.start, 1024, Pow2(32 - ROOM_SUBNET_BITS));
  }

  lemma {:induction false} AllElsewhere(base: Range, size: nat, used: seq<Range>)
    requires size > 0 && base.size > 0 && forall u :: u in used ==> !Overlap(base, u)
    ensures FreeFrom(base.start, base.start + base.size, size, used)
      == FreeFrom(base.start, base.start + base.size, size, [])
    decreases |used|
  {
    hide FreeFrom;
    if used != [] {
      var before, u := used[..|used| - 1], used[|used| - 1];
      assert used == before + [u] && u in used;
      AllElsewhere(base, size, before);
      TakesNone(base.start, base.start + base.size, size, before, u);
    }
  }

  // ----- a room's network

  const ROOM_SUBNET_BITS: nat := 26

  /** What comes of trying to create a network on a block. */
  datatype Attempt =
    | Created(id: string)
    | Refused(conflict: bool, made: Option<string>, overlap: bool)

  datatype Ensured = Network(id: string) | NoRoom | Failed | NotARange

  /** The search goes on after this block: it was refused as overlapping, and nobody else made the network. */
  predicate Passed(create: string -> Attempt, subnet: string) {
    var a := create(subnet);
    a.Refused? && a.overlap && !(a.conflict && a.made.Some?)
  }

  /** What a block brings when the search ends there: the network, whoever made it, or another failure. */
  predicate Brings(a: Attempt, r: Ensured) {
    match r
    case Network(id) => a == Created(id) || (a.Refused? && a.conflict && a.made == Some(id))
    case Failed => a.Refused? && !a.overlap && !(a.conflict && a.made.Some?)
    case _ => false
  }

  method EnsureNetwork(existing: Option<string>, base: string, taken: seq<string>, create: string -> Attempt)
    returns (r: Ensured, ghost tried: seq<string>)
    ensures existing.Some? ==> r == Network(existing.value) && tried == []
    ensures existing.None? ==> (r == NotARange <==> ParseCidr(base).None?)
    ensures existing.None? && ParseCidr(base).Some? ==>
      var free := Written(FreeStarts(ParseCidr(base).value, ROOM_SUBNET_BITS, taken), ROOM_SUBNET_BITS);
      && tried <= free && (r == NoRoom <==> forall s :: s in free ==> Passed(create, s))
      && (r != NoRoom ==> tried != [] && Brings(create(tried[|tried| - 1]), r)
                          && forall s :: s in tried[..|tried| - 1] ==> Passed(create, s))
  {
    tried := [];
    hide ParseCidr, FreeStarts, Written;
    if existing.Some? { return Network(existing.value), tried; }
    var subnets := FreeSubnets(base, ROOM_SUBNET_BITS, taken);
    if subnets.None? { return NotARange, tried; }
    for i := 0 to |subnets.value|
      invariant tried == subnets.value[..i] && forall s :: s in tried ==> Passed(create, s)
    {
      var subnet := subnets.value[i];
      assert subnet in subnets.value && subnets.value[..i + 1] == tried + [subnet];
      tried := tried + [subnet];
      assert tried[..i] == subnets.value[..i];
      match create(subnet)
      case Created(id) => return Network(id), tried;
      case Refused(conflict, made, overlap) =>
        if conflict && made.Some? { return Network(made.value), tried; }
        if !overlap { return Failed, tried; }
    }
    return NoRoom, tried;
  }

  lemma WrittenPassed(starts: seq<nat>, bits: nat, create: string -> Attempt)
    ensures (forall s :: s in Written(starts, bits) ==> Passed(create, s))
      <==> (forall at :: at in starts ==> Passed(create, SlashBits(at, bits)))
  {
    hide SlashBits, Passed;
    var w := Written(starts, bits);
    assert forall i :: 0 <= i < |starts| ==> w[i] == SlashBits(starts[i], bits) && w[i] in w && starts[i] in starts;
  }

  /**
   * There is no room exactly when every aligned block of the range that overlaps none listed was
   * refused as overlapping.
   */
  lemma NoRoomMeans(base: string, taken: seq<string>, create: string -> Attempt)
    requires ParseCidr(base).Some?
    ensures var r := ParseCidr(base).value; var bits := ROOM_SUBNET_BITS; var free := FreeStarts(r, bits, taken);
      (forall s :: s in Written(free, bits) ==> Passed(create, s))
        <==> AllPassed(r, Pow2(32 - bits), taken, bits, create)
  {
    hide ParseCidr, SlashBits, Pow2, FreeStarts, Written, Passed, OpenBlock;
    var r, bits, size := ParseCidr(base).value, ROOM_SUBNET_BITS, Pow2(32 - ROOM_SUBNET_BITS);
    FreeSubnetsExact(base, bits, taken);
    WrittenPassed(FreeStarts(r, bits, taken), bits, create);
    assert forall at :: at in FreeStarts(r, bits, taken) <==> OpenBlock(at, r, size, taken);
  }

  ghost predicate AllPassed(r: Range, size: nat, taken: seq<string>, bits: nat, create: string -> Attempt)
    requires size > 0
  {
    forall at :: OpenBlock(at, r, size, taken) ==> Passed(create, SlashBits(at, bits))
  }
}
