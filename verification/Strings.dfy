/**
 * What both languages of the repository do with strings and sequences: splitting at a separator and
 * joining, lower case, and numbers in decimal; and which of these undo each other.
 */
module Strings {

  datatype Option<+T> = None | Some(value: T)

  /** Where `c` first is in `s`, or the length of `s`. */
  function IndexOf<T(==)>(s: seq<T>, c: T): (i: nat)
    ensures i <= |s| && c !in s[..i]
    ensures i < |s| ==> s[i] == c
    ensures i == |s| <==> c !in s
  {
    if s == [] || s[0] == c then 0 else
      var i := 1 + IndexOf(s[1..], c);
      assert s[..i] == [s[0]] + s[1..][..i - 1];
      i
  }

  lemma {:induction false} IndexOfConcat<T>(a: seq<T>, b: seq<T>, c: T)
    requires c !in a
    ensures IndexOf(a + [c] + b, c) == |a|
    decreases |a|
  {
    var s := a + [c] + b;
    if a != [] {
      assert s[0] == a[0] && s[1..] == a[1..] + [c] + b;
      IndexOfConcat(a[1..], b, c);
    }
  }

  lemma CutAt<T>(s: seq<T>, i: nat)
    requires i < |s|
    ensures s == s[..i] + [s[i]] + s[i + 1..]
  {}

  /** `s.split(c)`. */
  function Split<T(==)>(s: seq<T>, c: T): (parts: seq<seq<T>>)
    ensures parts != []
    decreases |s|
  {
    var i := IndexOf(s, c);
    if i == |s| then [s] else [s[..i]] + Split(s[i + 1..], c)
  }

  /** `parts.join(c)`. */
  function Join<T>(parts: seq<seq<T>>, c: T): seq<T> {
    if parts == [] then []
    else if |parts| == 1 then parts[0]
    else parts[0] + [c] + Join(parts[1..], c)
  }

  lemma JoinFirst<T>(a: seq<T>, more: seq<seq<T>>, c: T)
    requires more != []
    ensures Join([a] + more, c) == a + [c] + Join(more, c)
  {
    assert ([a] + more)[1..] == more;
  }

  lemma {:induction false} JoinSplit<T>(s: seq<T>, c: T)
    ensures Join(Split(s, c), c) == s
    decreases |s|
  {
    hide IndexOf;
    var i := IndexOf(s, c);
    if i < |s| {
      JoinSplit(s[i + 1..], c);
      hide Split, Join;
      JoinFirst(s[..i], Split(s[i + 1..], c), c);
      assert s == s[..i] + [c] + s[i + 1..];
    }
  }

  /** What comes before a separator splits on its own. */
  lemma SplitFirst<T>(a: seq<T>, b: seq<T>, c: T)
    requires c !in a
    ensures Split(a + [c] + b, c) == [a] + Split(b, c)
  {
    hide IndexOf;
    IndexOfConcat(a, b, c);
    var s := a + [c] + b;
    assert s[..|a|] == a && s[|a| + 1..] == b;
  }

  /** Text that grows splits as before, but for its last part. */
  lemma {:induction false} SplitMore<T>(a: seq<T>, b: seq<T>, c: T)
    ensures var parts := Split(a, c);
      Split(a + b, c) == parts[..|parts| - 1] + Split(parts[|parts| - 1] + b, c)
    decreases |a|
  {
    hide *;
    var i := IndexOf(a, c);
    if i == |a| {
      SplitWhole(a, c);
      assert [a][..0] == [] && [] + Split(a + b, c) == Split(a + b, c);
    } else {
      CutAt(a, i);
      SplitMore(a[i + 1..], b, c);
      SplitMoreStep(a[..i], a[i + 1..], b, c);
    }
  }

  lemma SplitWhole<T>(a: seq<T>, c: T)
    requires c !in a
    ensures Split(a, c) == [a]
  {}

  lemma SplitMoreStep<T>(first: seq<T>, rest: seq<T>, b: seq<T>, c: T)
    requires c !in first
    requires var parts := Split(rest, c); Split(rest + b, c) == parts[..|parts| - 1] + Split(parts[|parts| - 1] + b, c)
    ensures var parts := Split(first + [c] + rest, c);
      Split(first + [c] + rest + b, c) == parts[..|parts| - 1] + Split(parts[|parts| - 1] + b, c)
  {
    hide *;
    var parts := Split(rest, c);
    SplitFirst(first, rest, c);
    SplitFirst(first, rest + b, c);
    assert first + [c] + rest + b == first + [c] + (rest + b);
    assert ([first] + parts)[..|parts|] == [first] + parts[..|parts| - 1];
    assert ([first] + parts)[|parts|] == parts[|parts| - 1];
    assert [first] + (parts[..|parts| - 1] + Split(parts[|parts| - 1] + b, c))
      == [first] + parts[..|parts| - 1] + Split(parts[|parts| - 1] + b, c);
  }

  /** Parts without the separator, and then any text, split into those parts and that text's own. */
  lemma {:induction false} SplitJoin<T>(parts: seq<seq<T>>, last: seq<T>, c: T)
    requires forall p :: p in parts ==> c !in p
    ensures Split(Join(parts + [last], c), c) == parts + Split(last, c)
    decreases |parts|
  {
    if parts == [] {
      assert parts + [last] == [last] && Join([last], c) == last;
      assert parts + Split(last, c) == Split(last, c);
    } else {
      SplitJoin(parts[1..], last, c);
      SplitJoinFirst(parts[0], parts[1..], last, c);
      assert [parts[0]] + parts[1..] == parts;
    }
  }

  lemma {:induction false} SplitJoinFirst<T>(a: seq<T>, rest: seq<seq<T>>, last: seq<T>, c: T)
    requires c !in a && Split(Join(rest + [last], c), c) == rest + Split(last, c)
    ensures Split(Join([a] + rest + [last], c), c) == [a] + rest + Split(last, c)
  {
    hide *;
    assert [a] + rest + [last] == [a] + (rest + [last]);
    JoinFirst(a, rest + [last], c);
    SplitFirst(a, Join(rest + [last], c), c);
  }

  // ----- letters and numbers

  function LowerChar(c: char): char {
    if 'A' <= c <= 'Z' then c - 'A' + 'a' else c
  }

  /** Lower case, of ASCII letters. */
  function Lower(s: string): string {
    seq(|s|, i requires 0 <= i < |s| => LowerChar(s[i]))
  }

  /** Each capital letter becomes its small one, and nothing else changes. */
  lemma LowerLetters(s: string)
    ensures Lower("ABCDEFGHIJKLMNOPQRSTUVWXYZ") == "abcdefghijklmnopqrstuvwxyz"
    ensures (forall c :: c in s ==> c !in "ABCDEFGHIJKLMNOPQRSTUVWXYZ") ==> Lower(s) == s
  {
    var capitals := "ABCDEFGHIJKLMNOPQRSTUVWXYZ";
    forall c | 'A' <= c <= 'Z' ensures c in capitals { assert capitals[(c - 'A') as int] == c; }
    assert forall i :: 0 <= i < |s| ==> s[i] in s;
  }

  predicate IsDigit(c: char) { '0' <= c <= '9' }

  function Digit(d: nat): char
    requires d < 10
  {
    '0' + d as char
  }

  function DigitValue(c: char): nat
    requires IsDigit(c)
  {
    (c - '0') as nat
  }

  predicate Digits(s: string) {
    forall c :: c in s ==> IsDigit(c)
  }

  /** A number written out, without leading zeros. */
  function Decimal(n: nat): (s: string)
    ensures s != [] && Digits(s)
  {
    if n < 10 then [Digit(n)] else Decimal(n / 10) + [Digit(n % 10)]
  }

  /** `Number(s)` for digits, leading zeros and all. */
  function Value(s: string): nat
    requires Digits(s)
  {
    if s == [] then 0 else 10 * Value(s[..|s| - 1]) + DigitValue(s[|s| - 1])
  }

  lemma {:induction false} ValueOfDecimal(n: nat)
    ensures Value(Decimal(n)) == n
  {
    if n >= 10 {
      ValueOfDecimal(n / 10);
      assert Decimal(n)[..|Decimal(n)| - 1] == Decimal(n / 10);
    }
  }

  /** `rfind(".")`, or `lastIndexOf(".")`. */
  function LastDot(s: string): (i: int)
    ensures -1 <= i < |s| && (i >= 0 ==> s[i] == '.')
  {
    if s == "" then -1 else if s[|s| - 1] == '.' then |s| - 1 else LastDot(s[..|s| - 1])
  }

  lemma {:induction false} NoDotBehind(s: string)
    ensures forall k :: LastDot(s) < k < |s| ==> s[k] != '.'
    decreases |s|
  {
    if s != "" && s[|s| - 1] != '.' {
      var less := s[..|s| - 1];
      NoDotBehind(less);
      assert forall k :: 0 <= k < |less| ==> less[k] == s[k];
    }
  }

  lemma LastDotIs(s: string, i: nat)
    requires i < |s| && s[i] == '.' && '.' !in s[i + 1..]
    ensures LastDot(s) == i
  {
    NoDotBehind(s);
    forall k | i < k < |s| ensures s[k] != '.' { assert s[k] == s[i + 1..][k - i - 1]; }
  }

  /** The digits a text begins with. */
  function DigitRun(s: string): (d: string)
    ensures Digits(d)
  {
    if s != [] && IsDigit(s[0]) then [s[0]] + DigitRun(s[1..]) else []
  }

  lemma {:induction false} RunOfDigits(digits: string, rest: string)
    requires Digits(digits) && (rest == "" || !IsDigit(rest[0]))
    ensures DigitRun(digits + rest) == digits
    decreases |digits|
  {
    if digits == "" {
      assert digits + rest == rest;
    } else {
      assert (digits + rest)[1..] == digits[1..] + rest;
      RunOfDigits(digits[1..], rest);
    }
  }

  lemma LowerApart(a: string, b: string, c: string)
    ensures Lower(a + b + c) == Lower(a) + Lower(b) + Lower(c)
  {}

  lemma LowerDigits(s: string)
    requires Digits(s)
    ensures Lower(s) == s
  {
    assert forall i :: 0 <= i < |s| ==> s[i] in s && IsDigit(s[i]);
  }

  /** Digits after some text, and not followed by one, can be told in lower case. */
  lemma ShowsRun(front: string, digits: string, rest: string)
    requires Digits(digits) && (rest == "" || !IsDigit(rest[0]))
    ensures var lowered := Lower(front + digits + rest);
      && |Lower(front)| <= |lowered| && lowered[..|Lower(front)|] == Lower(front)
      && DigitRun(lowered[|Lower(front)|..]) == digits
  {
    LowerApart(front, digits, rest);
    LowerDigits(digits);
    assert Lower(rest) == "" || !IsDigit(Lower(rest)[0]);
    RunOfDigits(digits, Lower(rest));
    hide *;
    assert (Lower(front) + digits + Lower(rest))[|Lower(front)|..] == digits + Lower(rest);
    assert (Lower(front) + digits + Lower(rest))[..|Lower(front)|] == Lower(front);
  }

  /** Different strings that are all in a set are no more than it has. */
  lemma {:induction false} Pigeonhole(f: nat -> string, n: nat, taken: set<string>)
    requires forall j, k :: 1 <= j < k <= n ==> f(j) != f(k)
    requires forall k :: 1 <= k <= n ==> f(k) in taken
    ensures n <= |taken|
  {
    if n > 0 {
      Pigeonhole(f, n - 1, taken - {f(n)});
    }
  }
}
