/**
 * Day 9, part two: the encryption weakness. With the invalid number of
 * part one as the target, `find_encryption_weakness` looks for a
 * contiguous run of at least two numbers adding up to it, trying the
 * runs' first positions in order and growing each run until its sum
 * reaches or passes the target, and answers the smallest plus the largest
 * number of the run.
 *
 * As written, the number that completes the sum is added to the running
 * sum but not to `sum_operands`, so the answer is taken over the run
 * without its last number. `FindEncryptionWeaknessAsWritten` models that;
 * `FindEncryptionWeakness` takes the whole run, as the puzzle asks.
 *
 * `find_invalid_number`, `calculate_permutation_sums` and
 * `is_number_valid` are the code of part one, modelled once in `Day9a`.
 */
module Day9b {
  import opened Common
  import Day9a
  import Day10a

  /** The smallest number of a non-empty list. */
  function Least(s: seq<nat>): (m: nat)
    requires |s| > 0
    ensures m in s && forall x :: x in s ==> m <= x
  {
    if |s| == 1 then s[0]
    else
      assert s == [s[0]] + s[1..];
      var m := Least(s[1..]);
      if s[0] <= m then s[0] else m
  }

  /** The largest number of a non-empty list. */
  function Greatest(s: seq<nat>): (m: nat)
    requires |s| > 0
    ensures m in s && forall x :: x in s ==> x <= m
  {
    if |s| == 1 then s[0]
    else
      assert s == [s[0]] + s[1..];
      var m := Greatest(s[1..]);
      if s[0] >= m then s[0] else m
  }

  /** The run from `i` through `j` has at least two numbers and adds up to `target`. */
  predicate RunSums(numbers: seq<nat>, target: nat, i: nat, j: nat) {
    i < j < |numbers| && Sum(numbers[i..j + 1]) == target
  }

  /** Some run of at least two numbers adds up to `target`. */
  ghost predicate HasRun(numbers: seq<nat>, target: nat) {
    exists i: nat, j: nat :: RunSums(numbers, target, i, j)
  }

  /** The run from `i` through `j` is the one found: no run starts earlier, none from `i` ends earlier. */
  ghost predicate FirstRun(numbers: seq<nat>, target: nat, i: nat, j: nat) {
    && RunSums(numbers, target, i, j)
    && (forall i': nat, j': nat :: i' < i ==> !RunSums(numbers, target, i', j'))
    && (forall j': nat :: j' < j ==> !RunSums(numbers, target, i, j'))
  }

  /** There is only one first run. */
  lemma FirstRunUnique(numbers: seq<nat>, target: nat, i: nat, j: nat, i2: nat, j2: nat)
    requires FirstRun(numbers, target, i, j) && FirstRun(numbers, target, i2, j2)
    ensures i == i2 && j == j2
  {
  }

  /** A run's sum grows by its next number. */
  lemma SumSnoc(numbers: seq<nat>, i: nat, j: nat)
    requires i <= j < |numbers|
    ensures Sum(numbers[i..j + 1]) == Sum(numbers[i..j]) + numbers[j]
  {
    assert numbers[i..j + 1] == numbers[i..j] + [numbers[j]];
    SumAppend(numbers[i..j], [numbers[j]]);
  }

  /** Longer runs from the same position never add up to less. */
  lemma {:induction false} SumGrows(numbers: seq<nat>, i: nat, j: nat, k: nat)
    requires i <= j <= k <= |numbers|
    ensures Sum(numbers[i..j]) <= Sum(numbers[i..k])
    decreases k - j
  {
    if j < k {
      SumSnoc(numbers, i, k - 1);
      SumGrows(numbers, i, j, k - 1);
    }
  }

  /** Once a run from `i` passes the target, no longer run from `i` matches. */
  lemma PastTarget(numbers: seq<nat>, target: nat, i: nat, j: nat)
    requires i < j < |numbers| && Sum(numbers[i..j + 1]) > target
    ensures forall k: nat :: j <= k ==> !RunSums(numbers, target, i, k)
  {
    forall k: nat | j <= k
      ensures !RunSums(numbers, target, i, k)
    {
      if k < |numbers| {
        SumGrows(numbers, i, j + 1, k + 1);
      }
    }
  }

  /** `sort_unstable` of the operands, then the first plus the last. */
  method FirstPlusLast(operands: seq<nat>) returns (r: nat)
    requires |operands| > 0
    ensures r == Least(operands) + Greatest(operands)
  {
    var sorted := new nat[|operands|](k requires 0 <= k < |operands| => operands[k]);
    assert sorted[..] == operands;
    Day10a.SortUnstable(sorted);
    SortedFirst(operands, sorted[..]);
    SortedLast(operands, sorted[..]);
    r := sorted[0] + sorted[sorted.Length - 1];
  }

  /** Sorted, the smallest number comes first. */
  lemma SortedFirst(s: seq<nat>, t: seq<nat>)
    requires |s| > 0 && Day10a.Sorted(t) && multiset(t) == multiset(s)
    ensures |t| == |s| && t[0] == Least(s)
  {
    assert |t| == |multiset(t)| == |s|;
    var lo := Least(s);
    assert t[0] in multiset(t);
    assert t[0] in s;
    assert lo in multiset(s);
    assert lo in t;
    var p :| 0 <= p < |t| && t[p] == lo;
    assert t[0] <= t[p];
  }

  /** Sorted, the largest number comes last. */
  lemma SortedLast(s: seq<nat>, t: seq<nat>)
    requires |s| > 0 && Day10a.Sorted(t) && multiset(t) == multiset(s)
    ensures |t| == |s| && t[|t| - 1] == Greatest(s)
  {
    assert |t| == |multiset(t)| == |s|;
    var hi := Greatest(s);
    assert t[|t| - 1] in multiset(t);
    assert t[|t| - 1] in s;
    assert hi in multiset(s);
    assert hi in t;
    var q :| 0 <= q < |t| && t[q] == hi;
    assert t[q] <= t[|t| - 1];
  }

  /**
   * `find_encryption_weakness` as written: for each first position, the
   * running sum grows number by number; the numbers kept as operands are
   * those added while the sum stayed below the target, so the run's last
   * number is left out of the answer.
   */
  method FindEncryptionWeaknessAsWritten(numbers: seq<nat>, target: nat) returns (r: Option<nat>)
    ensures r.None? <==> !HasRun(numbers, target)
    ensures r.Some? ==> exists i: nat, j: nat :: FirstRun(numbers, target, i, j) && r.value == Least(numbers[i..j]) + Greatest(numbers[i..j])
  {
    for i := 0 to |numbers|
      invariant forall i': nat, j': nat :: i' < i ==> !RunSums(numbers, target, i', j')
    {
      var sum := numbers[i];
      var operands := [numbers[i]];
      var j := i + 1;
      assert numbers[i..j] == [numbers[i]];
      while j < |numbers|
        invariant i < j <= |numbers|
        invariant sum == Sum(numbers[i..j]) && operands == numbers[i..j]
        invariant forall j': nat :: j' < j ==> !RunSums(numbers, target, i, j')
        decreases |numbers| - j
      {
        SumSnoc(numbers, i, j);
        sum := sum + numbers[j];
        if sum < target {
          operands := operands + [numbers[j]];
        } else if sum > target {
          PastTarget(numbers, target, i, j);
          break;
        } else {
          assert FirstRun(numbers, target, i, j);
          var answer := FirstPlusLast(operands);
          return Some(answer);
        }
        j := j + 1;
      }
      assert forall j': nat :: !RunSums(numbers, target, i, j');
    }
    return None;
  }

  /** `find_encryption_weakness` with the run's last number among the operands: the smallest plus the largest of the whole run. */
  method FindEncryptionWeakness(numbers: seq<nat>, target: nat) returns (r: Option<nat>)
    ensures r.None? <==> !HasRun(numbers, target)
    ensures r.Some? ==> exists i: nat, j: nat :: FirstRun(numbers, target, i, j) && r.value == Least(numbers[i..j + 1]) + Greatest(numbers[i..j + 1])
  {
    for i := 0 to |numbers|
      invariant forall i': nat, j': nat :: i' < i ==> !RunSums(numbers, target, i', j')
    {
      var sum := numbers[i];
      var operands := [numbers[i]];
      var j := i + 1;
      assert numbers[i..j] == [numbers[i]];
      while j < |numbers|
        invariant i < j <= |numbers|
        invariant sum == Sum(numbers[i..j]) && operands == numbers[i..j]
        invariant forall j': nat :: j' < j ==> !RunSums(numbers, target, i, j')
        decreases |numbers| - j
      {
        SumSnoc(numbers, i, j);
        sum := sum + numbers[j];
        operands := operands + [numbers[j]];
        assert operands == numbers[i..j + 1];
        if sum > target {
          PastTarget(numbers, target, i, j);
          break;
        } else if sum == target {
          assert FirstRun(numbers, target, i, j);
          var answer := FirstPlusLast(operands);
          return Some(answer);
        }
        j := j + 1;
      }
      assert forall j': nat :: !RunSums(numbers, target, i, j');
    }
    return None;
  }

  /**
   * With the numbers 1, 2, 3 and the target 6 the run is the whole list;
   * the smallest plus the largest of it is 1 + 3 = 4, but the code as
   * written leaves the 3 out and answers 1 + 2 = 3.
   */
  lemma LastLeftOut(numbers: seq<nat>)
    requires numbers == [1, 2, 3]
    ensures FirstRun(numbers, 6, 0, 2)
    ensures Least(numbers[0..2]) + Greatest(numbers[0..2]) == 3
    ensures Least(numbers[0..3]) + Greatest(numbers[0..3]) == 4
  {
    assert numbers[0..3] == [1, 2, 3] && numbers[0..2] == [1, 2];
    assert Sum([1, 2, 3]) == 6 && Sum([1, 2]) == 3;
    assert !RunSums(numbers, 6, 0, 1);
    assert Least([1, 2]) == 1 && Greatest([1, 2]) == 2;
    assert Least([1, 2, 3]) == 1 && Greatest([1, 2, 3]) == 3;
  }

  /** `main`: the numbers, the invalid number, then the weakness for it. */
  method Solve(lines: seq<string>, preamble: nat) returns (r: Option<nat>)
    ensures var numbers := Day9a.ParseNumbers(lines); var target := Day9a.Answer(numbers, preamble, Day9a.Preceding);
      && (r.None? <==> !HasRun(numbers, target))
      && (r.Some? ==> exists i: nat, j: nat :: FirstRun(numbers, target, i, j) && r.value == Least(numbers[i..j + 1]) + Greatest(numbers[i..j + 1]))
  {
    var numbers := Day9a.ParseNumbers(lines);
    var target := Day9a.FindInvalidNumber(numbers, preamble);
    r := FindEncryptionWeakness(numbers, target);
  }
}
