/** The rate limiter: a pruned queue of times that stands for the whole history of hits. */
module RateLimiter {
  import opened Strings

  type Times = seq<real>

  /** The rule of one key: at most `limit` hits in `window` seconds. */
  datatype Rule = Rule(limit: nat, window: nat) {
    ghost predicate Valid() { limit >= 1 }
  }

  function Prune(attempts: Times, now: real, window: nat): Times {
    if attempts != [] && now - attempts[0] >= window as real then Prune(attempts[1..], now, window) else attempts
  }

  datatype Outcome = Outcome(attempts: Times, retryAfter: Option<real>)

  /** What `hit` makes of one key's queue. */
  function After(attempts: Times, rule: Rule, now: real): Outcome
    requires rule.Valid()
  {
    var left := Prune(attempts, now, rule.window);
    if |left| < rule.limit then Outcome(left + [now], None)
    else
      var wait := rule.window as real - (now - left[0]);
      Outcome(left, Some(if wait > 0.0 then wait else 0.0))
  }

  /** A queue that is missing is made empty on first use. */
  function Attempts(requests: map<string, Times>, key: string): Times {
    if key in requests then requests[key] else []
  }

  class SlidingWindowRateLimiter {
    var requests: map<string, Times>

    constructor ()
      ensures requests == map[]
    {
      requests := map[];
    }

    method Hit(key: string, rule: Rule, now: real) returns (retryAfter: Option<real>)
      requires rule.Valid()
      modifies this
      ensures var o := After(Attempts(old(requests), key), rule, now);
        requests == old(requests)[key := o.attempts] && retryAfter == o.retryAfter
    {
      var attempts := Attempts(requests, key);
      ghost var all := attempts;
      while attempts != [] && now - attempts[0] >= rule.window as real
        invariant Prune(attempts, now, rule.window) == Prune(all, now, rule.window)
        decreases |attempts|
      {
        attempts := attempts[1..];
      }
      if |attempts| >= rule.limit {
        var wait := rule.window as real - (now - attempts[0]);
        retryAfter := Some(if wait > 0.0 then wait else 0.0);
      } else {
        attempts := attempts + [now];
        retryAfter := None;
      }
      requests := requests[key := attempts];
    }
  }

  // ----- runs of one key

  ghost predicate Sorted(ts: Times) {
    forall i, j :: 0 <= i <= j < |ts| ==> ts[i] <= ts[j]
  }

  function Front(ts: Times): Times
    requires ts != []
  {
    ts[..|ts| - 1]
  }

  function Last(ts: Times): real
    requires ts != []
  {
    ts[|ts| - 1]
  }

  /** The queue after hits at these times. */
  function Queue(times: Times, rule: Rule): Times
    requires rule.Valid()
    decreases |times|
  {
    if times == [] then [] else After(Queue(Front(times), rule), rule, Last(times)).attempts
  }

  function AnswerTo(times: Times, rule: Rule): Option<real>
    requires rule.Valid() && times != []
  {
    After(Queue(Front(times), rule), rule, Last(times)).retryAfter
  }

  /** All the times of this run at which a hit was accepted. */
  function Accepted(times: Times, rule: Rule): Times
    requires rule.Valid()
    decreases |times|
  {
    if times == [] then [] else
      Accepted(Front(times), rule) + if AnswerTo(times, rule).None? then [Last(times)] else []
  }

  /** Those of some times that are less than a window old. */
  function Recent(ts: Times, now: real, window: nat): (r: Times)
    decreases |ts|
  {
    if ts == [] then []
    else if now - ts[0] < window as real then [ts[0]] + Recent(ts[1..], now, window)
    else Recent(ts[1..], now, window)
  }

  lemma {:induction false} RecentConcat(a: Times, b: Times, now: real, window: nat)
    ensures Recent(a + b, now, window) == Recent(a, now, window) + Recent(b, now, window)
    decreases |a|
  {
    if a == [] {
      assert a + b == b;
    } else {
      assert (a + b)[1..] == a[1..] + b;
      RecentConcat(a[1..], b, now, window);
    }
  }

  lemma {:induction false} RecentOfRecent(ts: Times, now: real, later: real, window: nat)
    requires now <= later
    ensures Recent(Recent(ts, now, window), later, window) == Recent(ts, later, window)
    decreases |ts|
  {
    if ts != [] {
      RecentOfRecent(ts[1..], now, later, window);
      if now - ts[0] < window as real {
        var rest := Recent(ts[1..], now, window);
        assert ([ts[0]] + rest)[1..] == rest;
      }
    }
  }

  /** Pruning a queue in order from its front keeps just what is recent. */
  lemma {:induction false} PruneKeepsRecent(ts: Times, now: real, window: nat)
    requires Sorted(ts)
    ensures Prune(ts, now, window) == Recent(ts, now, window) && Sorted(Prune(ts, now, window))
    ensures forall t :: t in Prune(ts, now, window) ==> t in ts && now - t < window as real
    decreases |ts|
  {
    if ts != [] {
      PruneKeepsRecent(ts[1..], now, window);
      if now - ts[0] < window as real {
        forall t | t in ts ensures now - t < window as real {
          var i :| 0 <= i < |ts| && ts[i] == t;
          assert ts[0] <= ts[i];
        }
        AllRecent(ts, now, window);
      }
    }
  }

  lemma {:induction false} AllRecent(ts: Times, now: real, window: nat)
    requires forall t :: t in ts ==> now - t < window as real
    ensures Recent(ts, now, window) == ts
    decreases |ts|
  {
    if ts != [] {
      assert ts[0] in ts;
      assert forall t :: t in ts[1..] ==> t in ts;
      AllRecent(ts[1..], now, window);
      assert [ts[0]] + ts[1..] == ts;
    }
  }

  /** The queue is in order, no older than the clock, and from here on stands for the whole history. */
  ghost predicate StandsFor(queue: Times, history: Times, now: real, window: nat) {
    && Sorted(queue) && (forall t :: t in queue ==> t <= now)
    && forall later :: later >= now ==> Recent(queue, later, window) == Recent(history, later, window)
  }

  lemma SortedMore(ts: Times, now: real)
    requires Sorted(ts) && forall t :: t in ts ==> t <= now
    ensures Sorted(ts + [now])
  {
    assert forall i :: 0 <= i < |ts| ==> ts[i] in ts;
  }

  lemma HitStandsFor(queue: Times, history: Times, before: real, now: real, rule: Rule)
    requires rule.Valid() && StandsFor(queue, history, before, rule.window) && before <= now
    ensures var o := After(queue, rule, now);
      StandsFor(o.attempts, history + if o.retryAfter.None? then [now] else [], now, rule.window)
  {
    var w := rule.window;
    var left := Prune(queue, now, w);
    PruneKeepsRecent(queue, now, w);
    assert history + [] == history;
    SortedMore(left, now);
    hide Recent, Prune;
    forall later | later >= now
      ensures Recent(left, later, w) == Recent(history, later, w)
      ensures Recent(left + [now], later, w) == Recent(history + [now], later, w)
    {
      RecentAgree(queue, history, now, later, w);
    }
  }

  lemma {:induction false} RecentAgree(queue: Times, history: Times, now: real, later: real, w: nat)
    requires now <= later && Recent(queue, later, w) == Recent(history, later, w)
    ensures var left := Recent(queue, now, w);
      && Recent(left, later, w) == Recent(history, later, w)
      && Recent(left + [now], later, w) == Recent(history + [now], later, w)
  {
    hide Recent;
    RecentOfRecent(queue, now, later, w);
    RecentConcat(Recent(queue, now, w), [now], later, w);
    RecentConcat(history, [now], later, w);
  }

  lemma {:induction false} QueueStandsFor(times: Times, rule: Rule)
    requires rule.Valid() && Sorted(times) && times != []
    ensures StandsFor(Queue(times, rule), Accepted(times, rule), Last(times), rule.window)
    decreases |times|
  {
    var front := Front(times);
    if front == [] {
      assert StandsFor([], [], Last(times), rule.window);
      HitStandsFor([], [], Last(times), Last(times), rule);
    } else {
      QueueStandsFor(front, rule);
      HitStandsFor(Queue(front, rule), Accepted(front, rule), Last(front), Last(times), rule);
    }
  }

  /**
   * A hit is accepted exactly when the whole history of accepted hits has fewer than the limit in the
   * window behind it.
   */
  lemma DecidesAsHistory(times: Times, rule: Rule)
    requires rule.Valid() && Sorted(times) && times != []
    ensures AnswerTo(times, rule).None?
      <==> |Recent(Accepted(Front(times), rule), Last(times), rule.window)| < rule.limit
  {
    var front, now := Front(times), Last(times);
    if front != [] {
      QueueStandsFor(front, rule);
      PruneKeepsRecent(Queue(front, rule), now, rule.window);
      hide Recent, Prune, Queue, Accepted;
      assert now >= Last(front);
    }
  }

  // ----- no window holds more than the limit

  function CountIn(ts: Times, from: real, window: nat): nat
    decreases |ts|
  {
    if ts == [] then 0 else
      CountIn(Front(ts), from, window) + if from <= Last(ts) < from + window as real then 1 else 0
  }

  /** Accepted hits that are `limit` apart in order are a window apart in time. */
  ghost predicate Spaced(ts: Times, rule: Rule) {
    forall i :: 0 <= i < |ts| - rule.limit ==> ts[i + rule.limit] - ts[i] >= rule.window as real
  }

  lemma {:induction false} FewRecent(ts: Times, now: real, window: nat, k: nat)
    requires Sorted(ts) && k < |ts| && now - ts[|ts| - 1 - k] < window as real
    ensures |Recent(ts, now, window)| > k
    decreases k
  {
    var a, b := ts[..|ts| - 1], [Last(ts)];
    assert ts == a + b && b[1..] == [];
    RecentConcat(a, b, now, window);
    assert ts[|ts| - 1 - k] <= Last(ts);
    if k > 0 { FewRecent(a, now, window, k - 1); }
  }

  lemma {:induction false} AcceptedSorted(times: Times, rule: Rule)
    requires rule.Valid() && Sorted(times)
    ensures Sorted(Accepted(times, rule)) && forall t :: t in Accepted(times, rule) ==> t in times
    decreases |times|
  {
    if times != [] {
      AcceptedSorted(Front(times), rule);
      var before, now := Accepted(Front(times), rule), Last(times);
      hide After, Queue;
      forall t | t in before ensures t in times && t <= now { assert t in Front(times); }
      SortedMore(before, now);
      assert before + [] == before;
    }
  }

  lemma {:induction false} AcceptedSpaced(times: Times, rule: Rule)
    requires rule.Valid() && Sorted(times)
    ensures Spaced(Accepted(times, rule), rule)
    decreases |times|
  {
    if times != [] {
      AcceptedSpaced(Front(times), rule);
      AcceptedSorted(Front(times), rule);
      DecidesAsHistory(times, rule);
      var before, now := Accepted(Front(times), rule), Last(times);
      hide Recent, After, Queue, Sorted;
      if AnswerTo(times, rule).None? {
        if |before| >= rule.limit && now - before[|before| - rule.limit] < rule.window as real {
          FewRecent(before, now, rule.window, rule.limit - 1);
        }
      } else {
        assert before + [] == before;
      }
    }
  }

  /** Any accepted hits that lie within less than a window are no more than the limit. */
  lemma FewTogether(times: Times, rule: Rule, i: nat, j: nat)
    requires rule.Valid() && Sorted(times) && i <= j < |Accepted(times, rule)|
    requires Accepted(times, rule)[j] - Accepted(times, rule)[i] < rule.window as real
    ensures j - i + 1 <= rule.limit
  {
    AcceptedSpaced(times, rule);
    AcceptedSorted(times, rule);
    SpacedApart(Accepted(times, rule), rule, i, j);
    hide Accepted, Spaced, Sorted;
  }

  lemma SpacedApart(ts: Times, rule: Rule, i: nat, j: nat)
    requires Sorted(ts) && Spaced(ts, rule) && i <= j < |ts|
    ensures j - i >= rule.limit ==> ts[j] - ts[i] >= rule.window as real
  {
    if j - i >= rule.limit { assert ts[i + rule.limit] <= ts[j]; }
  }

  lemma {:induction false} TheLastOnes(ts: Times, from: real, window: nat)
    requires Sorted(ts) && CountIn(ts, from, window) > 0 && Last(ts) < from + window as real
    ensures CountIn(ts, from, window) <= |ts| && ts[|ts| - CountIn(ts, from, window)] >= from
    decreases |ts|
  {
    if CountIn(Front(ts), from, window) > 0 {
      TheLastOnes(Front(ts), from, window);
    }
  }

  lemma {:induction false} SpacedBound(ts: Times, rule: Rule, from: real)
    requires Sorted(ts) && Spaced(ts, rule)
    ensures CountIn(ts, from, rule.window) <= rule.limit
    decreases |ts|
  {
    if ts != [] {
      var c := CountIn(ts, from, rule.window);
      SpacedBound(Front(ts), rule, from);
      if c > 0 && Last(ts) < from + rule.window as real {
        TheLastOnes(ts, from, rule.window);
      }
    }
  }

  /** No stretch of one window, wherever it begins, holds more than the limit of accepted hits. */
  lemma NoWindowHoldsMore(times: Times, rule: Rule, from: real)
    requires rule.Valid() && Sorted(times)
    ensures CountIn(Accepted(times, rule), from, rule.window) <= rule.limit
  {
    AcceptedSorted(times, rule);
    AcceptedSpaced(times, rule);
    SpacedBound(Accepted(times, rule), rule, from);
  }

  // ----- what a refusal promises

  lemma {:induction false} PruneShrinks(queue: Times, now: real, window: nat)
    ensures |Prune(queue, now, window)| <= |queue|
    ensures queue != [] && now - queue[0] >= window as real ==> |Prune(queue, now, window)| < |queue|
    decreases |queue|
  {
    if queue != [] { PruneShrinks(queue[1..], now, window); }
  }

  lemma {:induction false} QueueWithinLimit(times: Times, rule: Rule)
    requires rule.Valid()
    ensures |Queue(times, rule)| <= rule.limit
    decreases |times|
  {
    if times != [] {
      QueueWithinLimit(Front(times), rule);
      PruneShrinks(Queue(Front(times), rule), Last(times), rule.window);
    }
  }

  /** The queue is at its limit, until this time. */
  ghost predicate Full(queue: Times, rule: Rule, until: real) {
    queue != [] && |queue| == rule.limit && queue[0] + rule.window as real == until
  }

  lemma {:induction false} PruneEndsFresh(queue: Times, now: real, window: nat)
    ensures var left := Prune(queue, now, window); left != [] ==> now - left[0] < window as real
    decreases |queue|
  {
    if queue != [] { PruneEndsFresh(queue[1..], now, window); }
  }

  lemma {:induction false} RefusedIsFull(times: Times, rule: Rule)
    requires rule.Valid() && times != [] && AnswerTo(times, rule).Some?
    ensures AnswerTo(times, rule).value > 0.0
      && Full(Queue(times, rule), rule, Last(times) + AnswerTo(times, rule).value)
  {
    var queue := Queue(Front(times), rule);
    QueueWithinLimit(times, rule);
    PruneEndsFresh(queue, Last(times), rule.window);
  }

  lemma FullDecides(queue: Times, rule: Rule, until: real, now: real)
    requires rule.Valid() && Full(queue, rule, until)
    ensures After(queue, rule, now).retryAfter.None? <==> now >= until
    ensures now < until ==> After(queue, rule, now).attempts == queue
  {
    PruneShrinks(queue, now, rule.window);
  }

  lemma {:induction false} StaysFull(times: Times, more: Times, rule: Rule, until: real)
    requires rule.Valid() && Full(Queue(times, rule), rule, until) && forall t :: t in more ==> t < until
    ensures Queue(times + more, rule) == Queue(times, rule)
    decreases |more|
  {
    if more == [] {
      assert times + more == times;
    } else {
      assert Front(times + more) == times + Front(more) && Last(times + more) == Last(more);
      assert Last(more) in more && forall t :: t in Front(more) ==> t in more;
      StaysFull(times, Front(more), rule, until);
      FullDecides(Queue(times, rule), rule, until, Last(more));
    }
  }

  /** After a refusal every hit is refused until the time it told, and the first one from then on is accepted. */
  lemma RetryIsExact(times: Times, more: Times, now: real, rule: Rule)
    requires rule.Valid() && times != [] && AnswerTo(times, rule).Some?
    requires forall t :: t in more ==> t < Last(times) + AnswerTo(times, rule).value
    ensures AnswerTo(times, rule).value > 0.0
    ensures AnswerTo(times + more + [now], rule).None? <==> now >= Last(times) + AnswerTo(times, rule).value
  {
    var until := Last(times) + AnswerTo(times, rule).value;
    RefusedIsFull(times, rule);
    StaysFull(times, more, rule, until);
    FullDecides(Queue(times, rule), rule, until, now);
    assert Front(times + more + [now]) == times + more;
  }

  /** The whole seconds a refused caller is told: `max(1, ceil(wait))`. */
  function RetrySeconds(wait: real): int {
    var up := -(-wait).Floor;
    if up > 1 then up else 1
  }

  /** Of the whole seconds one can wait, those told are the fewest that do. */
  lemma SecondsAreEnough(times: Times, seconds: nat, rule: Rule)
    requires rule.Valid() && times != [] && AnswerTo(times, rule).Some?
    ensures AnswerTo(times + [Last(times) + seconds as real], rule).None?
      <==> seconds >= RetrySeconds(AnswerTo(times, rule).value)
  {
    RetryIsExact(times, [], Last(times) + seconds as real, rule);
    assert times + [] == times;
    hide AnswerTo;
  }

  // ----- many keys

  datatype Hit = Hit(key: string, time: real)

  ghost function Requests(hits: seq<Hit>, rules: map<string, Rule>): map<string, Times>
    requires forall h :: h in hits ==> h.key in rules && rules[h.key].Valid()
    decreases |hits|
  {
    if hits == [] then map[] else
      var before, h := Requests(hits[..|hits| - 1], rules), hits[|hits| - 1];
      assert h in hits;
      before[h.key := After(Attempts(before, h.key), rules[h.key], h.time).attempts]
  }

  ghost function TimesOf(hits: seq<Hit>, key: string): Times
    decreases |hits|
  {
    if hits == [] then [] else
      var h := hits[|hits| - 1];
      TimesOf(hits[..|hits| - 1], key) + if h.key == key then [h.time] else []
  }

  /** Keys do not see each other: each one's queue is that of its own hits. */
  lemma {:induction false} KeysAreApart(hits: seq<Hit>, rules: map<string, Rule>, key: string)
    requires forall h :: h in hits ==> h.key in rules && rules[h.key].Valid()
    requires key in rules && rules[key].Valid()
    ensures Attempts(Requests(hits, rules), key) == Queue(TimesOf(hits, key), rules[key])
    decreases |hits|
  {
    if hits != [] {
      var h := hits[|hits| - 1];
      assert h in hits;
      KeysAreApart(hits[..|hits| - 1], rules, key);
      var times := TimesOf(hits[..|hits| - 1], key);
      if h.key == key {
        assert Front(times + [h.time]) == times;
      } else {
        assert times + [] == times;
      }
    }
  }
}
