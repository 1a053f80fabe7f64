/**
 * The fields of a tar header (POSIX.1, `pax` utility, "ustar Interchange Format"): text padded with
 * zeros, and octal numbers, which read back as they were written.
 */
module TarFields {
  import opened Bytes

  type Buffer = seq<Byte>

  const NUL: Byte := 0
  const SPACE: Byte := 32
  const SLASH: Byte := 47
  const ZERO: Byte := 48
  const FIVE: Byte := 53

  function Zeros(n: nat): (z: Buffer)
    ensures |z| == n
  {
    seq(n, _ => NUL)
  }

  function Padded(t: Buffer, n: nat): (p: Buffer)
    ensures |t| <= n ==> |p| == n
  {
    if |t| <= n then t + Zeros(n - |t|) else t
  }

  // ----- octal numbers

  function OctalText(n: nat): (s: Buffer)
    ensures s != []
  {
    if n < 8 then [ZERO + n] else OctalText(n / 8) + [ZERO + n % 8]
  }

  function PadStart(s: Buffer, n: nat): (p: Buffer)
    ensures |p| == if |s| < n then n else |s|
  {
    if |s| < n then seq(n - |s|, _ => ZERO) + s else s
  }

  /** `octal(value, length)`: digits for a field of that length, whose last byte is for the NUL. */
  function Octal(value: nat, length: nat): Buffer
    requires length > 0
  {
    PadStart(OctalText(value), length - 1)
  }

  predicate IsOctal(b: Byte) { 48 <= b <= 55 }

  /** How a reader takes a numeric field: digits up to the first other byte. */
  function ReadOctal(acc: nat, field: Buffer): nat
    decreases |field|
  {
    if field != [] && IsOctal(field[0]) then ReadOctal(8 * acc + (field[0] - 48), field[1..]) else acc
  }

  ghost predicate AllOctal(s: Buffer) {
    forall b :: b in s ==> IsOctal(b)
  }

  lemma {:induction false} ReadOctalConcat(acc: nat, a: Buffer, b: Buffer)
    requires AllOctal(a)
    ensures ReadOctal(acc, a + b) == ReadOctal(ReadOctal(acc, a), b)
    decreases |a|
  {
    if a == [] {
      assert a + b == b;
    } else {
      assert (a + b)[1..] == a[1..] + b;
      assert a[0] in a;
      ReadOctalConcat(8 * acc + (a[0] - 48), a[1..], b);
    }
  }

  lemma {:induction false} ReadOctalText(n: nat)
    ensures AllOctal(OctalText(n)) && ReadOctal(0, OctalText(n)) == n
  {
    if n >= 8 {
      ReadOctalText(n / 8);
      ReadOctalConcat(0, OctalText(n / 8), [ZERO + n % 8]);
      assert [ZERO + n % 8][1..] == [];
    }
  }

  lemma {:induction false} LeadingZeros(k: nat, s: Buffer)
    ensures ReadOctal(0, seq(k, _ => ZERO) + s) == ReadOctal(0, s)
  {
    if k == 0 {
      assert seq(k, _ => ZERO) + s == s;
    } else {
      assert (seq(k, _ => ZERO) + s)[1..] == seq(k - 1, _ => ZERO) + s;
      LeadingZeros(k - 1, s);
    }
  }

  /** Padded with zeros and ended by anything but a digit, a number reads back. */
  lemma ReadField(n: nat, length: nat, end: Buffer)
    requires length > 0 && (end == [] || !IsOctal(end[0]))
    ensures AllOctal(Octal(n, length)) && ReadOctal(0, Octal(n, length) + end) == n
  {
    var text := OctalText(n);
    var s := Octal(n, length);
    ReadOctalText(n);
    if |text| < length - 1 {
      LeadingZeros(length - 1 - |text|, text);
      forall b | b in s ensures IsOctal(b) {}
    }
    ReadOctalConcat(0, s, end);
  }

  function Pow8(k: nat): nat {
    if k == 0 then 1 else 8 * Pow8(k - 1)
  }

  /** Digits enough: a number has at most `k` octal digits exactly when it is below 8 to the `k`. */
  lemma {:induction false} OctalLength(n: nat, k: nat)
    requires k > 0
    ensures |OctalText(n)| <= k <==> n < Pow8(k)
    decreases k
  {
    if n < 8 {
      assert Pow8(k) >= 8 by { PowAtLeast(k); }
    } else if k > 1 {
      OctalLength(n / 8, k - 1);
    }
  }

  lemma {:induction false} PowAtLeast(k: nat)
    requires k > 0
    ensures Pow8(k) >= 8
  {
    if k > 1 { PowAtLeast(k - 1); }
  }

  lemma TimesEight(acc: nat, next: nat, p: nat)
    requires next + 1 <= 8 * acc + 8
    ensures (next + 1) * p <= (acc + 1) * (8 * p)
  {
    assert (next + 1) * p <= (8 * acc + 8) * p;
  }

  lemma {:induction false} ReadOctalBound(acc: nat, s: Buffer)
    ensures ReadOctal(acc, s) < (acc + 1) * Pow8(|s|)
    decreases |s|
  {
    if s != [] && IsOctal(s[0]) {
      var next := 8 * acc + (s[0] - 48);
      ReadOctalBound(next, s[1..]);
      TimesEight(acc, next, Pow8(|s| - 1));
    } else {
      PowPositive(|s|);
    }
  }

  lemma {:induction false} PowPositive(k: nat)
    ensures Pow8(k) >= 1
  {
    if k > 0 { PowPositive(k - 1); }
  }
}
