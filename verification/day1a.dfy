/**
 * Day 1, part one: find two entries of the expense report that sum to the
 * expected total and multiply them.
 */
module Day1a {
  import opened Common

  /** Entries `i` and `j` (possibly the same entry) sum to `expected`. */
  predicate IsPair(numbers: seq<nat>, expected: nat, i: int, j: int) {
    0 <= i < |numbers| && 0 <= j < |numbers| && numbers[i] + numbers[j] == expected
  }

  /** No entry of row `a` at a column in `[from, to)` completes a pair. */
  predicate NoPairInRow(numbers: seq<nat>, expected: nat, a: nat, from: int, to: int)
    requires a < |numbers|
  {
    forall b :: from <= b < to && 0 <= b < |numbers| ==> numbers[a] + numbers[b] != expected
  }

  /** No pair has its first entry in a row of `[from, to)`. */
  predicate NoPairInRows(numbers: seq<nat>, expected: nat, from: int, to: int) {
    forall a :: from <= a < to && 0 <= a < |numbers| ==> NoPairInRow(numbers, expected, a, 0, |numbers|)
  }

  /** The inner loop of `find_result`: `y` runs over `numbers[j..]` with `x = numbers[i]`. */
  function FindInner(numbers: seq<nat>, expected: nat, i: nat, j: nat): (r: Option<nat>)
    requires i < |numbers| && j <= |numbers|
    ensures r.None? <==> NoPairInRow(numbers, expected, i, j, |numbers|)
    ensures r.Some? ==> exists b :: (j <= b && IsPair(numbers, expected, i, b) &&
      r.value == numbers[i] * numbers[b] && NoPairInRow(numbers, expected, i, j, b))
    decreases |numbers| - j
  {
    if j == |numbers| then None
    else if numbers[i] + numbers[j] == expected then Some(numbers[i] * numbers[j])
    else FindInner(numbers, expected, i, j + 1)
  }

  /** The outer loop of `find_result`: `x` runs over `numbers[i..]`. */
  function FindOuter(numbers: seq<nat>, expected: nat, i: nat): (r: Option<nat>)
    requires i <= |numbers|
    ensures r.None? <==> NoPairInRows(numbers, expected, i, |numbers|)
    ensures r.Some? ==> exists a, b :: (i <= a && IsPair(numbers, expected, a, b) &&
      r.value == numbers[a] * numbers[b] &&
      NoPairInRows(numbers, expected, i, a) && NoPairInRow(numbers, expected, a, 0, b))
    decreases |numbers| - i
  {
    if i == |numbers| then None
    else
      match FindInner(numbers, expected, i, 0)
      case Some(p) => Some(p)
      case None => FindOuter(numbers, expected, i + 1)
  }

  /**
   * `find_result`: the product of the first pair, in row-major order, that
   * sums to `expected`; None exactly when no pair (an entry may be used twice) does.
   */
  function FindResult(numbers: seq<nat>, expected: nat): (r: Option<nat>)
    ensures r.None? <==> !exists a, b :: IsPair(numbers, expected, a, b)
    ensures r.Some? ==> exists a, b :: (IsPair(numbers, expected, a, b) &&
      r.value == numbers[a] * numbers[b] &&
      NoPairInRows(numbers, expected, 0, a) && NoPairInRow(numbers, expected, a, 0, b))
  {
    var r := FindOuter(numbers, expected, 0);
    assert r.None? ==> forall a, b :: IsPair(numbers, expected, a, b) ==> NoPairInRow(numbers, expected, a, 0, |numbers|);
    r
  }

  /** An entry may pair with itself: `[1010]` finds 1010 * 1010. */
  lemma SelfPairExample()
    ensures FindResult([1010], 2020) == Some(1020100)
  {
    assert IsPair([1010], 2020, 0, 0);
  }
}
