/** Names in a room's tree: made plain, cut to length, and told apart from their siblings'. */
module NodeNames {
  import opened Strings
  import opened WhiteSpace

  const LONGEST_NAME: nat := 120
  const MAX_WORKSPACE_NODES: nat := 500

  /** `s[:n]` */
  function Cut(s: string, n: nat): (r: string)
    ensures r <= s && |r| == if |s| <= n then |s| else n
    ensures forall c :: c in r ==> c in s
  {
    if |s| <= n then s else s[..n]
  }

  /** `_normalize_node_name`; an empty name is refused. */
  function NormalName(value: string): string {
    var name := Strip(value);
    if name == "" || '/' in name || '\\' in name || name == "." || name == ".." then "" else Cut(name, LONGEST_NAME)
  }

  ghost predicate GoodName(name: string) {
    1 <= |name| <= LONGEST_NAME && '/' !in name && '\\' !in name && name != "." && name != ".."
  }

  function BaseOf(name: string): string {
    if LastDot(name) <= 0 then name else name[..LastDot(name)]
  }

  function SuffixOf(name: string): (s: string)
    ensures s == "" || s[0] == '.'
  {
    if LastDot(name) <= 0 then "" else name[LastDot(name)..]
  }

  /** The name with a number before its extension, cut to length. */
  function Candidate(name: string, counter: nat): string {
    Cut(BaseOf(name) + "-" + Decimal(counter) + SuffixOf(name), LONGEST_NAME)
  }

  /** No sibling has this name, in any case. */
  predicate Free(existing: set<string>, candidate: string) {
    Lower(candidate) !in existing
  }

  /** The loop from `counter` on, when it ends by `last`. */
  function FirstFree(existing: set<string>, name: string, counter: nat, last: nat): (r: Option<nat>)
    ensures r.Some? <==> exists k :: counter <= k <= last && Free(existing, Candidate(name, k))
    ensures r.Some? ==> counter <= r.value <= last && Free(existing, Candidate(name, r.value))
    ensures r.Some? ==> forall k :: counter <= k < r.value ==> !Free(existing, Candidate(name, k))
    decreases last + 1 - counter
  {
    if counter > last then None
    else if Free(existing, Candidate(name, counter)) then Some(counter)
    else FirstFree(existing, name, counter + 1, last)
  }

  /** More tries than there can be siblings. */
  const LAST_TRY: nat := MAX_WORKSPACE_NODES + 2

  /** `_build_unique_node_name`; nothing stands for a loop that never ends (see `EndsWithin`). */
  function UniqueName(existing: set<string>, name: string): Option<string> {
    if Free(existing, name) then Some(name)
    else
      match FirstFree(existing, name, 2, LAST_TRY)
      case None => None
      case Some(k) => Some(Candidate(name, k))
  }

  method BuildUniqueNodeName(existing: set<string>, name: string) returns (unique: string, more: set<string>)
    requires UniqueName(existing, name).Some?
    ensures Some(unique) == UniqueName(existing, name) && more == existing + {Lower(unique)}
  {
    if Lower(name) !in existing { return name, existing + {Lower(name)}; }
    var dot := LastDot(name);
    var base, suffix := if dot <= 0 then name else name[..dot], if dot <= 0 then "" else name[dot..];
    var counter := 2;
    while true
      invariant 2 <= counter && FirstFree(existing, name, counter, LAST_TRY) == FirstFree(existing, name, 2, LAST_TRY)
      decreases LAST_TRY + 1 - counter
    {
      var candidate := Cut(base + "-" + Decimal(counter) + suffix, LONGEST_NAME);
      if Lower(candidate) !in existing { return candidate, existing + {Lower(candidate)}; }
      counter := counter + 1;
    }
  }

  // ----- what the names are

  lemma NormalNameGood(value: string)
    ensures NormalName(value) != "" ==> GoodName(NormalName(value))
  {}

  /** A unique name is a good one, and differs from all there are. */
  lemma UniqueNameGood(existing: set<string>, name: string)
    requires GoodName(name) && UniqueName(existing, name).Some?
    ensures var r := UniqueName(existing, name).value; GoodName(r) && Lower(r) !in existing
  {
    if !Free(existing, name) {
      CandidateGood(name, FirstFree(existing, name, 2, LAST_TRY).value);
    }
  }

  lemma CandidateGood(name: string, k: nat)
    requires GoodName(name)
    ensures GoodName(Candidate(name, k))
  {
    var base, number, suffix := BaseOf(name), Decimal(k), SuffixOf(name);
    assert Digits(number);
    assert forall c :: c in base ==> c in name;
    assert forall c :: c in suffix ==> c in name;
    assert base != "";
    hide Decimal, BaseOf, SuffixOf;
    var whole := base + "-" + number + suffix;
    forall c | c in whole ensures c in name || c == '-' || IsDigit(c) {
      assert c in base || c == '-' || c in number || c in suffix;
    }
    assert whole == base + "-" + (number + suffix);
  }

  /** The number stands before the extension, which begins at the last dot: after `main`, of `main.py`. */
  lemma NumberBeforeExtension(base: string, ext: string, k: nat)
    requires base != "" && '.' !in ext && |base| + 1 + |Decimal(k)| + 1 + |ext| <= LONGEST_NAME
    ensures Candidate(base + "." + ext, k) == base + "-" + Decimal(k) + "." + ext
  {
    var name := base + "." + ext;
    assert name[|base| + 1..] == ext;
    LastDotIs(name, |base|);
    hide Decimal, LastDot;
    assert name[..|base|] == base && name[|base|..] == "." + ext;
    assert base + "-" + Decimal(k) + ("." + ext) == base + "-" + Decimal(k) + "." + ext;
  }

  /** It stands at the end of a name with no dot but at its start. */
  lemma NumberAtEnd(name: string, k: nat)
    requires name != "" && ('.' !in name || (name[0] == '.' && '.' !in name[1..]))
    requires |name| + 1 + |Decimal(k)| <= LONGEST_NAME
    ensures Candidate(name, k) == name + "-" + Decimal(k)
  {
    if '.' in name { LastDotIs(name, 0); }
    hide Decimal;
    assert name + "-" + Decimal(k) + "" == name + "-" + Decimal(k);
  }

  /** A name that is free is kept; one that is not gets the least number, from 2 on, that makes it free. */
  lemma LeastNumber(existing: set<string>, name: string, k: nat)
    requires |existing| <= MAX_WORKSPACE_NODES && k >= 2 && Lower(Candidate(name, k)) !in existing
    requires forall j :: 2 <= j < k ==> Lower(Candidate(name, j)) in existing
    ensures Lower(name) !in existing ==> UniqueName(existing, name) == Some(name)
    ensures Lower(name) in existing ==> UniqueName(existing, name) == Some(Candidate(name, k))
  {
    hide Candidate, Lower;
    assert Free(existing, Candidate(name, k));
    EndsWithin(existing, name);
    if !Free(existing, name) {
      assert forall j :: 2 <= j < k ==> !Free(existing, Candidate(name, j));
    }
  }

  // ----- when the loop ends

  lemma {:induction false} DecimalLength(n: nat)
    ensures n < 1000 ==> |Decimal(n)| <= 3
    ensures n >= 10 ==> |Decimal(n)| >= 2
  {
    if n >= 10 {
      assert |Decimal(n)| == |Decimal(n / 10)| + 1;
      if 100 <= n < 1000 {
        assert |Decimal(n / 10)| == |Decimal(n / 10 / 10)| + 1 && |Decimal(n / 10 / 10)| == 1;
      }
    }
  }

  lemma CutApart(a: string, b: string, c: string, n: nat)
    requires |a| + |b| <= n
    ensures Cut(a + b + c, n) == a + b + Cut(c, n - |a| - |b|)
  {}

  /** Where the whole number shows, a candidate is its base, the number, and some of the extension. */
  lemma CandidateShows(name: string, k: nat)
    requires |BaseOf(name)| <= 116 && k < 1000
    ensures var front := Lower(BaseOf(name) + "-"); var lowered := Lower(Candidate(name, k));
      |front| <= |lowered| && lowered[..|front|] == front && DigitRun(lowered[|front|..]) == Decimal(k)
  {
    DecimalLength(k);
    assert !IsDigit('.');
    hide *;
    var front, digits := BaseOf(name) + "-", Decimal(k);
    CandidateIs(name, k);
    CutApart(front, digits, SuffixOf(name), LONGEST_NAME);
    ShowsRun(front, digits, Cut(SuffixOf(name), LONGEST_NAME - |front| - |digits|));
  }

  lemma CandidateIs(name: string, k: nat)
    ensures Candidate(name, k) == Cut(BaseOf(name) + "-" + Decimal(k) + SuffixOf(name), LONGEST_NAME)
      && LONGEST_NAME == 120
  {}

  lemma CandidatesDiffer(name: string, j: nat, k: nat)
    requires |BaseOf(name)| <= 116 && j < 1000 && k < 1000 && Lower(Candidate(name, j)) == Lower(Candidate(name, k))
    ensures j == k
  {
    CandidateShows(name, j);
    CandidateShows(name, k);
    ValueOfDecimal(j);
    ValueOfDecimal(k);
  }

  /** With room for the number, one more try than the names taken is enough. */
  lemma EnoughTries(existing: set<string>, name: string)
    requires |BaseOf(name)| <= 116 && |existing| <= MAX_WORKSPACE_NODES
    ensures exists k :: 2 <= k <= |existing| + 2 && Free(existing, Candidate(name, k))
  {
    var n := |existing| + 1;
    var tried := (k: nat) => Lower(Candidate(name, k + 1));
    forall j, k | 1 <= j < k <= n ensures tried(j) != tried(k) {
      if tried(j) == tried(k) { CandidatesDiffer(name, j + 1, k + 1); }
    }
    hide Candidate, Lower, BaseOf;
    if forall k :: 2 <= k <= |existing| + 2 ==> !Free(existing, Candidate(name, k)) {
      forall k | 1 <= k <= n ensures tried(k) in existing {
        assert !Free(existing, Candidate(name, k + 1));
      }
      Pigeonhole(tried, n, existing);
    }
  }

  /** With less room, a number of three digits or more shows no more than the number without its last digit. */
  lemma LastDigitHidden(name: string, k: nat)
    requires |BaseOf(name)| > 116 && k >= 100
    ensures Candidate(name, k) == Candidate(name, k / 10)
  {
    DecimalLength(k / 10);
    var front, shorter := BaseOf(name) + "-", Decimal(k / 10);
    var a, b := front + Decimal(k) + SuffixOf(name), front + shorter + SuffixOf(name);
    assert Decimal(k) == shorter + [Digit(k % 10)];
    hide Decimal, SuffixOf;
    assert a[..|front| + |shorter|] == front + shorter == b[..|front| + |shorter|];
    assert Cut(a, LONGEST_NAME) == Cut(front + shorter, LONGEST_NAME) == Cut(b, LONGEST_NAME);
  }

  lemma {:induction false} FreeEarly(existing: set<string>, name: string, k: nat)
    requires |BaseOf(name)| > 116 && k >= 2 && Free(existing, Candidate(name, k))
    ensures exists j :: 2 <= j < 100 && Free(existing, Candidate(name, j))
    decreases k
  {
    if k >= 100 {
      LastDigitHidden(name, k);
      FreeEarly(existing, name, k / 10);
    }
  }

  /** The loop ends exactly when one of its first tries is free. */
  lemma EndsWithin(existing: set<string>, name: string)
    requires |existing| <= MAX_WORKSPACE_NODES
    ensures UniqueName(existing, name).Some?
      <==> Free(existing, name) || exists k :: 2 <= k && Free(existing, Candidate(name, k))
    ensures |BaseOf(name)| <= 116 ==> UniqueName(existing, name).Some?
  {
    hide Candidate;
    if |BaseOf(name)| <= 116 {
      EnoughTries(existing, name);
    } else if k: nat :| 2 <= k && Free(existing, Candidate(name, k)) {
      FreeEarly(existing, name, k);
    }
  }

  /** A name as long as they get, without an extension, leaves no room for a number: its second use never ends. */
  lemma {:induction false} LongNameTwice(name: string, k: nat)
    requires |name| == LONGEST_NAME && LastDot(name) <= 0
    ensures !Free({Lower(name)}, Candidate(name, k)) && UniqueName({Lower(name)}, name).None?
  {
    forall j: nat ensures Candidate(name, j) == name {
      assert (name + "-" + Decimal(j) + "")[..LONGEST_NAME] == name;
    }
  }
}
