/**
 * Day 10, part two: the number of ways to chain the adapters from the
 * outlet (`start`) to the device (`goal`), each step climbing at most
 * `maxDiff` jolts. `count_arrangements` counts 1 for going straight to the
 * goal when it is in reach, plus, for every following adapter in reach,
 * the ways on from that adapter over the adapters after it; results are
 * remembered per starting joltage in a cache shared by all the calls.
 *
 * Keying the cache by the starting joltage alone is right only when each
 * call's adapters are exactly those above its start: the adapters must be
 * strictly ascending and above the outlet, which the callers here require.
 */
module Day10b {
  import opened Common
  import Day10a

  /** Strictly ascending order: sorted, without repeats. */
  predicate StrictlyAscending(s: seq<nat>) {
    forall i, j :: 0 <= i < j < |s| ==> s[i] < s[j]
  }

  /* ---------------------------------------------------------------- */
  /* The count without the cache                                       */
  /* ---------------------------------------------------------------- */

  /** The arrangements from `start` on, over `numbers` and on to `goal`. */
  function Arrangements(start: nat, goal: nat, numbers: seq<nat>, maxDiff: nat): nat
    decreases |numbers|, 1, 0
  {
    (if goal - start <= maxDiff then 1 else 0) + Branches(start, goal, numbers, maxDiff, 0)
  }

  /**
   * The arrangements through the adapters from position `idx` on that are
   * still in reach of `start`: the `take_while` stops at the first one out
   * of reach.
   */
  function Branches(start: nat, goal: nat, numbers: seq<nat>, maxDiff: nat, idx: nat): nat
    requires idx <= |numbers|
    decreases |numbers|, 0, |numbers| - idx
  {
    if idx == |numbers| || numbers[idx] - start > maxDiff then 0
    else Arrangements(numbers[idx], goal, numbers[idx + 1..], maxDiff) + Branches(start, goal, numbers, maxDiff, idx + 1)
  }

  /** Each adapter climbs at most `maxDiff` above the one before it, the first above `start`, and `goal` above the last. */
  predicate Connected(start: nat, goal: nat, numbers: seq<nat>, maxDiff: nat) {
    && (|numbers| > 0 ==> numbers[0] <= start + maxDiff)
    && (forall i :: 0 < i < |numbers| ==> numbers[i] <= numbers[i - 1] + maxDiff)
    && goal <= (if |numbers| == 0 then start else numbers[|numbers| - 1]) + maxDiff
  }

  /** When using every adapter is itself an arrangement, there is at least one. */
  lemma {:induction false} ConnectedArranges(start: nat, goal: nat, numbers: seq<nat>, maxDiff: nat)
    requires Connected(start, goal, numbers, maxDiff)
    ensures Arrangements(start, goal, numbers, maxDiff) >= 1
    decreases |numbers|
  {
    if |numbers| > 0 {
      var rest := numbers[1..];
      assert Connected(numbers[0], goal, rest, maxDiff) by {
        if |rest| > 0 {
          assert rest[0] == numbers[1];
        }
        forall i | 0 < i < |rest|
          ensures rest[i] <= rest[i - 1] + maxDiff
        {
          assert rest[i] == numbers[i + 1] && rest[i - 1] == numbers[i];
        }
      }
      ConnectedArranges(numbers[0], goal, rest, maxDiff);
    }
  }

  /** With no adapters, the only arrangement is the direct one, when the goal is in reach. */
  lemma NoAdapters(start: nat, goal: nat, maxDiff: nat)
    ensures Arrangements(start, goal, [], maxDiff) == if goal - start <= maxDiff then 1 else 0
  {
  }

  /* ---------------------------------------------------------------- */
  /* The adapters above a joltage                                      */
  /* ---------------------------------------------------------------- */

  /** `s` without its leading elements at most `k`: on ascending `s`, the elements above `k`. */
  function Above(s: seq<nat>, k: int): (r: seq<nat>)
    ensures |r| <= |s| && r == s[|s| - |r|..]
    ensures |r| > 0 ==> r[0] > k
  {
    if |s| == 0 || s[0] > k then s else Above(s[1..], k)
  }

  /** Dropping up to `a`, then up to `b` at least `a`, is dropping up to `b`. */
  lemma {:induction false} AboveAbove(s: seq<nat>, a: int, b: int)
    requires a <= b
    ensures Above(Above(s, a), b) == Above(s, b)
  {
    if |s| > 0 && s[0] <= a {
      AboveAbove(s[1..], a, b);
    }
  }

  /** On strictly ascending adapters, those above the one at `idx` are the ones after it. */
  lemma {:induction false} AboveAt(s: seq<nat>, idx: nat)
    requires StrictlyAscending(s) && idx < |s|
    ensures Above(s, s[idx]) == s[idx + 1..]
  {
    if idx == 0 {
      if |s| > 1 {
        assert s[1..][0] > s[0];
      }
    } else {
      AboveAt(s[1..], idx - 1);
      assert s[1..][idx - 1..] == s[idx..] && s[1..][idx - 1] == s[idx];
      assert s[1..][idx..] == s[idx + 1..];
    }
  }

  /**
   * A call's adapters are those above its start, and so are those of each
   * call it makes: the adapters after the one it moves to.
   */
  lemma AboveNext(all: seq<nat>, start: nat, idx: nat)
    requires StrictlyAscending(all) && idx < |Above(all, start)|
    ensures var numbers := Above(all, start);
      Above(all, numbers[idx]) == numbers[idx + 1..] && StrictlyAscending(numbers) && numbers[idx] > start
  {
    var numbers := Above(all, start);
    assert StrictlyAscending(numbers);
    assert numbers[idx] >= numbers[0] > start;
    AboveAbove(all, start, numbers[idx]);
    AboveAt(numbers, idx);
  }

  /* ---------------------------------------------------------------- */
  /* count_arrangements with its cache                                 */
  /* ---------------------------------------------------------------- */

  /** The cache shared by the calls: a count per starting joltage. */
  class Memo {
    var cache: map<nat, nat>

    constructor ()
      ensures cache == map[]
    {
      cache := map[];
    }

    /** Every cached count is the count from its start over the adapters above it. */
    ghost predicate Holds(all: seq<nat>, goal: nat, maxDiff: nat)
      reads this
    {
      forall k :: k in cache ==> cache[k] == Arrangements(k, goal, Above(all, k), maxDiff)
    }
  }

  /**
   * `count_arrangements`: a cached count is returned as it is; otherwise
   * the count is summed over the adapters in reach, cached and returned.
   * The caller's adapters are those of `all` above `start` (a ghost
   * argument).
   */
  method CountArrangements(start: nat, goal: nat, numbers: seq<nat>, maxDiff: nat, memo: Memo, ghost all: seq<nat>)
    returns (r: nat)
    requires StrictlyAscending(all) && numbers == Above(all, start)
    requires memo.Holds(all, goal, maxDiff)
    modifies memo
    ensures memo.Holds(all, goal, maxDiff) && start in memo.cache
    ensures r == Arrangements(start, goal, numbers, maxDiff)
    decreases |numbers|
  {
    if start in memo.cache {
      return memo.cache[start];
    }
    r := if goal - start <= maxDiff then 1 else 0;
    var idx := 0;
    while idx < |numbers| && numbers[idx] - start <= maxDiff
      invariant idx <= |numbers| && memo.Holds(all, goal, maxDiff)
      invariant r + Branches(start, goal, numbers, maxDiff, idx) == Arrangements(start, goal, numbers, maxDiff)
      decreases |numbers| - idx
    {
      AboveNext(all, start, idx);
      var ways := CountArrangements(numbers[idx], goal, numbers[idx + 1..], maxDiff, memo, all);
      r := r + ways;
      idx := idx + 1;
    }
    memo.cache := memo.cache[start := r];
  }

  /**
   * `main` after reading: sorts the adapters, then counts from the outlet
   * (0) to three above the last adapter with steps of at most 3 and an
   * empty cache. `None` is the panic on no adapters. The adapters must be
   * distinct and above 0.
   */
  method CountAll(numbers: array<nat>) returns (r: Option<nat>)
    requires forall i, j :: 0 <= i < j < numbers.Length ==> numbers[i] != numbers[j]
    requires forall i :: 0 <= i < numbers.Length ==> numbers[i] > 0
    modifies numbers
    ensures multiset(numbers[..]) == multiset(old(numbers[..])) && StrictlyAscending(numbers[..])
    ensures r.None? <==> numbers.Length == 0
    ensures r.Some? ==> r.value == Arrangements(0, numbers[numbers.Length - 1] + 3, numbers[..], 3)
  {
    ghost var before := numbers[..];
    Day10a.SortUnstable(numbers);
    DistinctSorted(before, numbers[..]);
    if numbers.Length == 0 {
      return None;
    }
    var all := numbers[..];
    assert Above(all, 0) == all by {
      assert all[0] in multiset(before);
    }
    var memo := new Memo();
    var count := CountArrangements(0, numbers[numbers.Length - 1] + 3, all, 3, memo, all);
    return Some(count);
  }

  /** Sorting distinct positive adapters leaves them strictly ascending and positive. */
  lemma DistinctSorted(before: seq<nat>, after: seq<nat>)
    requires forall i, j :: 0 <= i < j < |before| ==> before[i] != before[j]
    requires forall i :: 0 <= i < |before| ==> before[i] > 0
    requires Day10a.Sorted(after) && multiset(after) == multiset(before)
    ensures StrictlyAscending(after)
    ensures forall i :: 0 <= i < |after| ==> after[i] > 0
  {
    forall i | 0 <= i < |after|
      ensures after[i] > 0
    {
      assert after[i] in multiset(before);
    }
    forall i, j | 0 <= i < j < |after|
      ensures after[i] < after[j]
    {
      if after[i] == after[j] {
        Twice(after, i, j);
        DistinctOnce(before, after[i]);
        assert false;
      }
    }
  }

  /** A value at two positions occurs at least twice. */
  lemma Twice(s: seq<nat>, i: nat, j: nat)
    requires i < j < |s| && s[i] == s[j]
    ensures multiset(s)[s[i]] >= 2
  {
    assert s == s[..i] + [s[i]] + s[i + 1..j] + [s[j]] + s[j + 1..];
  }

  /** In a sequence without repeats every value occurs at most once. */
  lemma {:induction false} DistinctOnce(s: seq<nat>, x: nat)
    requires forall p, q :: 0 <= p < q < |s| ==> s[p] != s[q]
    ensures multiset(s)[x] <= 1
  {
    if |s| > 0 {
      assert s == [s[0]] + s[1..];
      DistinctOnce(s[1..], x);
      if s[0] == x {
        assert x !in s[1..];
      }
    }
  }

  /** The adapters in reach from position `idx + 1` on are those of the rest from `idx` on. */
  lemma {:induction false} BranchesShift(start: nat, goal: nat, x: nat, rest: seq<nat>, maxDiff: nat, idx: nat)
    requires idx <= |rest|
    ensures Branches(start, goal, [x] + rest, maxDiff, idx + 1) == Branches(start, goal, rest, maxDiff, idx)
    decreases |rest| - idx
  {
    var s := [x] + rest;
    if idx < |rest| {
      assert s[idx + 1] == rest[idx] && s[idx + 2..] == rest[idx + 1..];
      BranchesShift(start, goal, x, rest, maxDiff, idx + 1);
    }
  }

  /**
   * The recurrence behind the count: an arrangement from `start` either
   * moves to the next adapter `x`, when in reach, or leaves it out; when
   * `x` is out of reach the search stops there and only the direct step
   * to the goal is left.
   */
  lemma ArrangementsCons(start: nat, goal: nat, x: nat, rest: seq<nat>, maxDiff: nat)
    ensures x <= start + maxDiff ==>
      Arrangements(start, goal, [x] + rest, maxDiff) == Arrangements(x, goal, rest, maxDiff) + Arrangements(start, goal, rest, maxDiff)
    ensures x > start + maxDiff ==>
      Arrangements(start, goal, [x] + rest, maxDiff) == if goal <= start + maxDiff then 1 else 0
  {
    var s := [x] + rest;
    assert s[1..] == rest;
    BranchesShift(start, goal, x, rest, maxDiff, 0);
  }
}
