/**
 * Day 10, part one: the joltage adapters are sorted in place, then the
 * difference from each adapter to the one before it (the first to the
 * outlet's `input` joltage) is counted per value, and the device's own
 * adapter adds one more difference of `device`. A difference above
 * `maxDiff` is a panic.
 *
 * The Rust function is generic in its number type; the program calls it
 * with `u8` values, 0 as the outlet and 3 for both the limit and the
 * device. Here joltages are naturals and differences integers; a negative
 * difference (an adapter below the outlet) is the subtraction's overflow
 * panic.
 */
module Day10a {
  import opened Common

  /** Ascending order. */
  predicate Sorted(s: seq<nat>) {
    forall i, j :: 0 <= i < j < |s| ==> s[i] <= s[j]
  }

  /* ---------------------------------------------------------------- */
  /* sort_unstable                                                     */
  /* ---------------------------------------------------------------- */

  /** The slice's `sort_unstable`, as an insertion sort: afterwards ascending and a permutation of before. */
  method SortUnstable(a: array<nat>)
    modifies a
    ensures Sorted(a[..]) && multiset(a[..]) == multiset(old(a[..]))
  {
    for i := 0 to a.Length
      invariant Sorted(a[..i]) && multiset(a[..]) == multiset(old(a[..]))
    {
      Insert(a, i);
    }
  }

  /** Moves `a[i]` down into the ascending prefix `a[..i]`, which becomes `a[..i + 1]`. */
  method Insert(a: array<nat>, i: nat)
    requires i < a.Length && Sorted(a[..i])
    modifies a
    ensures Sorted(a[..i + 1]) && multiset(a[..]) == multiset(old(a[..]))
  {
    var j := i;
    while j > 0 && a[j - 1] > a[j]
      invariant j <= i && multiset(a[..]) == multiset(old(a[..]))
      invariant forall p, q :: 0 <= p < q <= i && q != j ==> a[p] <= a[q]
      invariant 0 < j < i ==> a[j - 1] <= a[j + 1]
    {
      Swap(a, j);
      j := j - 1;
    }
  }

  /** Exchanges `a[j - 1]` and `a[j]`. */
  method Swap(a: array<nat>, j: nat)
    requires 0 < j < a.Length
    modifies a
    ensures a[j - 1] == old(a[j]) && a[j] == old(a[j - 1])
    ensures forall k :: 0 <= k < a.Length && k != j - 1 && k != j ==> a[k] == old(a[k])
    ensures multiset(a[..]) == multiset(old(a[..]))
  {
    a[j - 1], a[j] := a[j], a[j - 1];
  }

  /** The head of an ascending sequence is at most any of its elements. */
  lemma SortedHead(s: seq<nat>, x: nat)
    requires Sorted(s) && x in multiset(s)
    ensures s[0] <= x
  {
    var k :| 0 <= k < |s| && s[k] == x;
  }

  /** Two ascending sequences with the same elements are equal: the sort's result does not depend on how it sorts. */
  lemma {:induction false} SortedUnique(s: seq<nat>, t: seq<nat>)
    requires Sorted(s) && Sorted(t) && multiset(s) == multiset(t)
    ensures s == t
    decreases |s|
  {
    assert |s| == |multiset(s)| == |multiset(t)| == |t|;
    if |s| > 0 {
      assert s[0] in multiset(s) && t[0] in multiset(t);
      SortedHead(s, t[0]);
      SortedHead(t, s[0]);
      DropHead(s, t);
      SortedUnique(s[1..], t[1..]);
    }
  }

  /** Equal heads taken off equal multisets leave equal multisets. */
  lemma DropHead(s: seq<nat>, t: seq<nat>)
    requires |s| > 0 && |t| > 0 && s[0] == t[0] && multiset(s) == multiset(t)
    ensures multiset(s[1..]) == multiset(t[1..])
  {
    assert s == [s[0]] + s[1..] && t == [t[0]] + t[1..];
    assert multiset(s) == multiset{s[0]} + multiset(s[1..]);
    assert multiset(t) == multiset{s[0]} + multiset(t[1..]);
    assert multiset(s[1..]) == multiset(s) - multiset{s[0]};
  }

  /* ---------------------------------------------------------------- */
  /* The distribution                                                  */
  /* ---------------------------------------------------------------- */

  /** The difference from each adapter to the one before it, the first to `input`. */
  function Differences(s: seq<nat>, input: nat): (d: seq<int>)
    ensures |d| == |s|
  {
    seq(|s|, i requires 0 <= i < |s| => s[i] - (if i == 0 then input else s[i - 1]))
  }

  /** One adapter more adds one difference, to the adapter before it. */
  lemma DifferencesSnoc(s: seq<nat>, input: nat, x: nat)
    ensures Differences(s + [x], input) == Differences(s, input) + [x - (if |s| == 0 then input else s[|s| - 1])]
  {
  }

  /** The differences add up to the climb from the outlet to the last adapter. */
  lemma {:induction false} DifferencesTelescope(s: seq<nat>, input: nat)
    requires |s| > 0
    ensures Sum(Differences(s, input)) == s[|s| - 1] - input
    decreases |s|
  {
    var init := s[..|s| - 1];
    assert s == init + [s[|s| - 1]];
    DifferencesSnoc(init, input, s[|s| - 1]);
    SumAppend(Differences(init, input), [s[|s| - 1] - (if |init| == 0 then input else init[|init| - 1])]);
    if |init| > 0 {
      DifferencesTelescope(init, input);
    }
  }

  /** `*distribution.entry(k).or_default() += 1`. */
  function Bump(m: map<int, nat>, k: int): (r: map<int, nat>)
    ensures k in r && r[k] == (if k in m then m[k] + 1 else 1)
    ensures forall x :: x != k ==> (x in r <==> x in m) && (x in m ==> r[x] == m[x])
  {
    m[k := if k in m then m[k] + 1 else 1]
  }

  /** The counts of the first `k` differences, taken in order. */
  function Tally(d: seq<int>, k: nat): map<int, nat>
    requires k <= |d|
  {
    if k == 0 then map[] else Bump(Tally(d, k - 1), d[k - 1])
  }

  /** Each of the first `k` differences is a key, counted as often as it occurs there, and nothing else is a key. */
  lemma {:induction false} TallyCounts(d: seq<int>, k: nat)
    requires k <= |d|
    ensures forall x :: x in Tally(d, k) <==> x in d[..k]
    ensures forall x :: x in Tally(d, k) ==> Tally(d, k)[x] == multiset(d[..k])[x]
  {
    if k > 0 {
      assert d[..k] == d[..k - 1] + [d[k - 1]];
      TallyCounts(d, k - 1);
    }
  }

  /** The counts add up to the number of differences counted. */
  lemma {:induction false} TallySum(d: seq<int>, k: nat)
    requires k <= |d|
    ensures SumValues(Tally(d, k)) == k
  {
    if k > 0 {
      TallySum(d, k - 1);
      SumBump(Tally(d, k - 1), d[k - 1]);
      assert Tally(d, k) == Bump(Tally(d, k - 1), d[k - 1]);
    } else {
      assert Tally(d, 0) == map[];
    }
  }

  /** Counting one more difference adds one to the sum of the counts. */
  lemma SumBump(m: map<int, nat>, x: int)
    ensures SumValues(Bump(m, x)) == SumValues(m) + 1
  {
    var v := if x in m then m[x] + 1 else 1;
    SumValuesUpdate(m, x, v);
    if x in m {
      SumValuesRemove(m, x);
    } else {
      assert m - {x} == m;
    }
  }

  /** A difference that makes the function panic: negative (the subtraction overflows) or above the limit. */
  predicate Aborts(diff: int, maxDiff: nat) {
    diff < 0 || diff > maxDiff
  }

  /**
   * `joltage_difference_distribution` on the sorted adapters: the counts of
   * the differences and one more `device`, or `None` for the panic.
   */
  function Distribution(sorted: seq<nat>, input: nat, maxDiff: nat, device: nat): Option<map<int, nat>> {
    var d := Differences(sorted, input);
    if exists i :: 0 <= i < |d| && Aborts(d[i], maxDiff) then None
    else Some(Bump(Tally(d, |d|), device))
  }

  /**
   * The distribution's meaning: with no aborting difference, each key
   * counts its differences (one more for `device`) and the counts add up
   * to one more than the number of adapters.
   */
  lemma DistributionCounts(sorted: seq<nat>, input: nat, maxDiff: nat, device: nat)
    ensures var r := Distribution(sorted, input, maxDiff, device);
      var d := Differences(sorted, input);
      && (r.None? <==> exists i :: 0 <= i < |sorted| && Aborts(d[i], maxDiff))
      && (r.Some? ==> SumValues(r.value) == |sorted| + 1)
      && (r.Some? ==> forall x :: x in r.value <==> x in d || x == device)
      && (r.Some? ==> forall x :: x in r.value ==> r.value[x] == multiset(d + [device])[x])
  {
    var d := Differences(sorted, input);
    var e := d + [device];
    assert e[..|d|] == d && e[..|e|] == e;
    assert Tally(e, |d|) == Tally(d, |d|) by {
      TallyPrefix(d, e, |d|);
    }
    TallyCounts(e, |e|);
    TallySum(e, |e|);
  }

  /**
   * On ascending adapters starting at or above the outlet, the function
   * panics exactly when two neighbours (or the outlet and the first) are
   * more than `maxDiff` apart.
   */
  lemma SortedAborts(sorted: seq<nat>, input: nat, maxDiff: nat, device: nat)
    requires Sorted(sorted) && (|sorted| > 0 ==> input <= sorted[0])
    ensures Distribution(sorted, input, maxDiff, device).None? <==>
      (|sorted| > 0 && sorted[0] - input > maxDiff) ||
      exists i :: 1 <= i < |sorted| && sorted[i] - sorted[i - 1] > maxDiff
  {
    var d := Differences(sorted, input);
    if exists i :: 0 <= i < |d| && Aborts(d[i], maxDiff) {
      var i :| 0 <= i < |d| && Aborts(d[i], maxDiff);
      if i > 0 {
        assert sorted[i] - sorted[i - 1] > maxDiff;
      }
    } else if |sorted| > 0 {
      assert !Aborts(d[0], maxDiff);
      forall i | 1 <= i < |sorted|
        ensures sorted[i] - sorted[i - 1] <= maxDiff
      {
        assert !Aborts(d[i], maxDiff);
      }
    }
  }

  /**
   * `joltage_difference_distribution`: sorts the adapters in place, then
   * counts their differences.
   */
  method JoltageDifferenceDistribution(numbers: array<nat>, input: nat, maxDiff: nat, device: nat)
    returns (r: Option<map<int, nat>>)
    modifies numbers
    ensures Sorted(numbers[..]) && multiset(numbers[..]) == multiset(old(numbers[..]))
    ensures r == Distribution(numbers[..], input, maxDiff, device)
  {
    SortUnstable(numbers);
    r := CountDifferences(numbers, input, maxDiff, device);
  }

  /**
   * The loop of `joltage_difference_distribution`: counts the differences
   * in order, then the device's; `None` is the panic on the first aborting
   * difference.
   */
  method CountDifferences(numbers: array<nat>, input: nat, maxDiff: nat, device: nat)
    returns (r: Option<map<int, nat>>)
    ensures r == Distribution(numbers[..], input, maxDiff, device)
  {
    ghost var d := Differences(numbers[..], input);
    var distribution: map<int, nat> := map[];
    var prev := input;
    for i := 0 to numbers.Length
      invariant prev == if i == 0 then input else numbers[i - 1]
      invariant distribution == Tally(d, i)
      invariant forall k :: 0 <= k < i ==> !Aborts(d[k], maxDiff)
    {
      var diff := numbers[i] as int - prev as int;
      assert diff == d[i];
      if diff < 0 || diff > maxDiff {
        return None;
      }
      distribution := Bump(distribution, diff);
      prev := numbers[i];
    }
    return Some(Bump(distribution, device));
  }

  /** The counts depend only on the differences counted. */
  lemma {:induction false} TallyPrefix(d: seq<int>, e: seq<int>, k: nat)
    requires k <= |d| && k <= |e| && d[..k] == e[..k]
    ensures Tally(d, k) == Tally(e, k)
  {
    if k > 0 {
      assert d[k - 1] == d[..k][k - 1] == e[..k][k - 1] == e[k - 1];
      assert d[..k - 1] == d[..k][..k - 1];
      assert e[..k - 1] == e[..k][..k - 1];
      TallyPrefix(d, e, k - 1);
    }
  }

  /** `m` counts `ones` differences of 1 and `threes` of 3, and no other difference. */
  ghost predicate Counted(m: map<int, nat>, ones: nat, threes: nat) {
    && m.Keys == (if ones > 0 then {1} else {}) + (if threes > 0 then {3} else {})
    && (1 in m ==> m[1] == ones) && (3 in m ==> m[3] == threes)
  }

  /**
   * The first example: the adapters 16, 10, 15, 5, 1, 11, 7, 19, 6, 12, 4,
   * once sorted, give 7 differences of 1 and 5 of 3, and no other.
   */
  lemma ExampleA(sorted: seq<nat>)
    requires sorted == [1, 4, 5, 6, 7, 10, 11, 12, 15, 16, 19]
    ensures var r := Distribution(sorted, 0, 3, 3);
      r.Some? && r.value.Keys == {1, 3} && r.value[1] == 7 && r.value[3] == 5
  {
    var d := Differences(sorted, 0);
    assert d == [1, 3, 1, 1, 1, 3, 1, 1, 3, 1, 3];
    assert forall i :: 0 <= i < |d| ==> !Aborts(d[i], 3);
    TallyA();
  }

  /** The differences of the first example, counted. */
  lemma TallyA()
    ensures Counted(Tally([1, 3, 1, 1, 1, 3, 1, 1, 3, 1, 3], 11), 7, 4)
  {
  }
}
