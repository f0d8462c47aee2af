/**
 * Day 1, part two: find `level` entries (repetition allowed) that sum to the
 * expected total and multiply them, through a chain of nested matchers.
 */
module Day1b {
  import opened Common

  /** A matcher: given the entries chosen so far and the target, the product found, if any. */
  type Matcher = (seq<nat>, nat) -> Option<nat>

  function Product(s: seq<nat>): nat {
    if s == [] then 1 else Product(s[..|s| - 1]) * s[|s| - 1]
  }

  /** `t` is a tuple of `n` entries of `input`, repetition allowed. */
  predicate IsTuple(input: seq<nat>, t: seq<nat>, n: nat) {
    |t| == n && forall x :: x in t ==> x in input
  }

  /**
   * `find_match` from the `k`-th input number on: append each number to a fresh
   * copy of `current` and ask the next matcher, or at the innermost level
   * compare the sum.
   */
  function FindMatchFrom(input: seq<nat>, expected: nat, current: seq<nat>, matcher: Option<Matcher>, k: nat): Option<nat>
    requires k <= |input|
    decreases |input| - k
  {
    if k == |input| then None
    else
      var selection := current + [input[k]];
      match matcher
      case Some(m) =>
        var found := m(selection, expected);
        if found.Some? then found else FindMatchFrom(input, expected, current, matcher, k + 1)
      case None =>
        if Sum(selection) == expected then Some(Product(selection))
        else FindMatchFrom(input, expected, current, matcher, k + 1)
  }

  function FindMatch(input: seq<nat>, expected: nat, current: seq<nat>, matcher: Option<Matcher>): Option<nat> {
    FindMatchFrom(input, expected, current, matcher, 0)
  }

  /**
   * The search a chain of `depth + 1` nested matchers performs, written with
   * the depth in place of the closures: `depth` more numbers are chosen after
   * the current one.
   */
  function SearchFrom(input: seq<nat>, expected: nat, current: seq<nat>, depth: nat, k: nat): Option<nat>
    requires k <= |input|
    decreases depth, |input| - k
  {
    if k == |input| then None
    else
      var selection := current + [input[k]];
      if depth > 0 then
        var found := SearchFrom(input, expected, selection, depth - 1, 0);
        if found.Some? then found else SearchFrom(input, expected, current, depth, k + 1)
      else if Sum(selection) == expected then Some(Product(selection))
      else SearchFrom(input, expected, current, depth, k + 1)
  }

  /** `m` behaves as the chain of `depth + 1` matchers. */
  ghost predicate Searches(input: seq<nat>, m: Matcher, depth: nat) {
    forall c, e :: m(c, e) == SearchFrom(input, e, c, depth, 0)
  }

  /** A `find_match` whose next matcher behaves as `depth` nested levels is the search at `depth`. */
  lemma {:induction false} FindMatchSearches(input: seq<nat>, expected: nat, current: seq<nat>, matcher: Option<Matcher>, depth: nat, k: nat)
    requires k <= |input|
    requires matcher.None? <==> depth == 0
    requires matcher.Some? ==> Searches(input, matcher.value, depth - 1)
    ensures FindMatchFrom(input, expected, current, matcher, k) == SearchFrom(input, expected, current, depth, k)
    decreases |input| - k
  {
    if k < |input| {
      FindMatchSearches(input, expected, current, matcher, depth, k + 1);
    }
  }

  /** `gen_matcher`: nests `level` matchers; level 0 panics on `unwrap`. */
  method GenMatcher(numbers: seq<nat>, level: nat) returns (f: Matcher)
    requires level >= 1
    ensures Searches(numbers, f, level - 1)
  {
    var func: Option<Matcher> := None;
    for i := 0 to level
      invariant func.None? <==> i == 0
      invariant func.Some? ==> Searches(numbers, func.value, i - 1)
    {
      var next := func;
      forall c, e
        ensures FindMatch(numbers, e, c, next) == SearchFrom(numbers, e, c, i, 0)
      {
        FindMatchSearches(numbers, e, c, next, i, 0);
      }
      func := Some((c: seq<nat>, e: nat) => FindMatch(numbers, e, c, next));
    }
    f := func.value;
  }

  /** A found product is the product of `current` extended by `depth + 1` entries that sum to the target. */
  lemma {:induction false} SearchSound(input: seq<nat>, expected: nat, current: seq<nat>, depth: nat, k: nat)
    requires k <= |input|
    ensures var r := SearchFrom(input, expected, current, depth, k);
      r.Some? ==> exists t: seq<nat> :: (IsTuple(input, t, depth + 1) &&
        Sum(current + t) == expected && r.value == Product(current + t))
    decreases depth, |input| - k
  {
    var r := SearchFrom(input, expected, current, depth, k);
    if k < |input| && r.Some? {
      var x := input[k];
      var selection := current + [x];
      if depth > 0 && SearchFrom(input, expected, selection, depth - 1, 0).Some? {
        SearchSound(input, expected, selection, depth - 1, 0);
        var t :| IsTuple(input, t, depth) && Sum(selection + t) == expected && r.value == Product(selection + t);
        assert selection + t == current + ([x] + t);
        assert IsTuple(input, [x] + t, depth + 1);
      } else if depth == 0 && Sum(selection) == expected {
        assert IsTuple(input, [x], 1);
      } else {
        SearchSound(input, expected, current, depth, k + 1);
      }
    }
  }

  /** If some extension by `depth + 1` entries from `input[k..]` onward (first entry) sums to the target, the search finds one. */
  lemma {:induction false} SearchComplete(input: seq<nat>, expected: nat, current: seq<nat>, depth: nat, k: nat, t: seq<nat>)
    requires k <= |input| && IsTuple(input, t, depth + 1) && Sum(current + t) == expected
    requires t[0] in input[k..]
    ensures SearchFrom(input, expected, current, depth, k).Some?
    decreases depth, |input| - k
  {
    var x := input[k];
    var selection := current + [x];
    if x == t[0] {
      assert current + t == selection + t[1..];
      if depth > 0 {
        assert t[1..][0] in input[0..];
        SearchComplete(input, expected, selection, depth - 1, 0, t[1..]);
      } else {
        assert t == [x];
      }
    } else {
      assert t[0] in input[k + 1..];
      SearchComplete(input, expected, current, depth, k + 1, t);
    }
  }

  /**
   * The whole part-two answer: a chain of `level` matchers finds a product
   * exactly when some `level` entries (repetition allowed) sum to `expected`,
   * and the product it finds is of such entries.
   */
  lemma MatcherFindsIff(numbers: seq<nat>, level: nat, expected: nat, f: Matcher)
    requires level >= 1 && Searches(numbers, f, level - 1)
    ensures f([], expected).Some? <==> exists t: seq<nat> :: IsTuple(numbers, t, level) && Sum(t) == expected
    ensures f([], expected).Some? ==> exists t: seq<nat> :: IsTuple(numbers, t, level) && Sum(t) == expected && f([], expected).value == Product(t)
  {
    SearchSound(numbers, expected, [], level - 1, 0);
    if exists t: seq<nat> :: IsTuple(numbers, t, level) && Sum(t) == expected {
      var t: seq<nat> :| IsTuple(numbers, t, level) && Sum(t) == expected;
      assert [] + t == t;
      assert t[0] in numbers[0..];
      SearchComplete(numbers, expected, [], level - 1, 0, t);
    }
    assert forall t: seq<nat> :: [] + t == t;
  }
}
