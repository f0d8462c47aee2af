/**
 * Day 9, part one: the first number of the list, from position
 * `preamble_length` on, that is not the sum of two different numbers
 * among the `preamble_length` numbers before it.
 *
 * `calculate_permutation_sums` records, for every ordered pair of
 * positions holding different values, the pair under the values' sum;
 * `is_number_valid` then looks for a recorded pair whose positions are both
 * at or after the window's first position. It sets no upper bound, so a
 * pair made of the number itself or of numbers after it also counts. The
 * window used here is a `Window`: `Onward` is the code as written,
 * `Preceding` the numbers just before the one checked, which is the rule of
 * the puzzle; `FindInvalidNumber` scans with the latter.
 */
module Day9a {
  import opened Common

  /** A sum's recorded pairs of positions. */
  type Sums = map<nat, set<(nat, nat)>>

  /** Positions `a` and `b` hold different values adding up to `s`. */
  predicate SumsTo(numbers: seq<nat>, s: nat, a: nat, b: nat) {
    a < |numbers| && b < |numbers| && numbers[a] != numbers[b] && numbers[a] + numbers[b] == s
  }

  /** The pair of positions `a`, `b` is recorded under the sum `s`. */
  predicate Recorded(sums: Sums, s: nat, a: nat, b: nat) {
    s in sums && (a, b) in sums[s]
  }

  /** Pair `(a, b)` comes before `(i, j)` in the nested loops' order. */
  predicate Before(a: nat, b: nat, i: nat, j: nat) {
    a < i || (a == i && b < j)
  }

  /**
   * `sums` records exactly the pairs with different values that the
   * loops have visited before `(i, j)`, each under its sum, and has no
   * empty entry.
   */
  ghost predicate RecordsUpTo(numbers: seq<nat>, sums: Sums, i: nat, j: nat) {
    && (forall s, a, b :: Recorded(sums, s, a, b) <==> SumsTo(numbers, s, a, b) && Before(a, b, i, j))
    && (forall s :: s in sums ==> sums[s] != {})
  }

  /** `sums` records every pair of positions with different values under its sum, and nothing else. */
  ghost predicate RecordsAll(numbers: seq<nat>, sums: Sums) {
    RecordsUpTo(numbers, sums, |numbers|, 0)
  }

  /** `sums.entry(s).or_insert_with(HashSet::new).insert(p)`. */
  function Record(sums: Sums, s: nat, p: (nat, nat)): (r: Sums)
    ensures r.Keys == sums.Keys + {s}
    ensures r[s] == (if s in sums then sums[s] else {}) + {p}
    ensures forall t :: t in sums && t != s ==> r[t] == sums[t]
  {
    sums[s := (if s in sums then sums[s] else {}) + {p}]
  }

  /** One more visited pair: recorded when its values differ, skipped otherwise. */
  lemma RecordStep(numbers: seq<nat>, sums: Sums, i: nat, j: nat)
    requires RecordsUpTo(numbers, sums, i, j) && i < |numbers| && j < |numbers|
    ensures RecordsUpTo(numbers,
      if numbers[i] != numbers[j] then Record(sums, numbers[i] + numbers[j], (i, j)) else sums, i, j + 1)
  {
    var r := if numbers[i] != numbers[j] then Record(sums, numbers[i] + numbers[j], (i, j)) else sums;
    forall s: nat, a: nat, b: nat
      ensures Recorded(r, s, a, b) <==> SumsTo(numbers, s, a, b) && Before(a, b, i, j + 1)
    {
      if (a, b) == (i, j) {
        assert Recorded(sums, s, a, b) <==> false;
      } else {
        assert Recorded(r, s, a, b) <==> Recorded(sums, s, a, b);
      }
    }
  }

  /** A finished row is the start of the next one. */
  lemma RowDone(numbers: seq<nat>, sums: Sums, i: nat)
    requires RecordsUpTo(numbers, sums, i, |numbers|)
    ensures RecordsUpTo(numbers, sums, i + 1, 0)
  {
    forall s: nat, a: nat, b: nat
      ensures Recorded(sums, s, a, b) <==> SumsTo(numbers, s, a, b) && Before(a, b, i + 1, 0)
    {
      assert Recorded(sums, s, a, b) <==> SumsTo(numbers, s, a, b) && Before(a, b, i, |numbers|);
    }
  }

  /** `calculate_permutation_sums`: every ordered pair of positions, skipping those with equal values. */
  method CalculatePermutationSums(numbers: seq<nat>) returns (sums: Sums)
    ensures RecordsAll(numbers, sums)
  {
    sums := map[];
    for i := 0 to |numbers|
      invariant RecordsUpTo(numbers, sums, i, 0)
    {
      for j := 0 to |numbers|
        invariant RecordsUpTo(numbers, sums, i, j)
      {
        RecordStep(numbers, sums, i, j);
        if numbers[i] == numbers[j] {
          continue;
        }
        sums := Record(sums, numbers[i] + numbers[j], (i, j));
      }
      RowDone(numbers, sums, i);
    }
  }

  /** The recording is symmetric: a pair is recorded exactly when its reverse is. */
  lemma RecordsSymmetric(numbers: seq<nat>, sums: Sums, s: nat, a: nat, b: nat)
    requires RecordsAll(numbers, sums)
    ensures Recorded(sums, s, a, b) <==> Recorded(sums, s, b, a)
  {
    assert Recorded(sums, s, a, b) <==> SumsTo(numbers, s, a, b) && Before(a, b, |numbers|, 0);
    assert Recorded(sums, s, b, a) <==> SumsTo(numbers, s, b, a) && Before(b, a, |numbers|, 0);
  }

  /** `num` is the sum of the values at two positions in `[lo, hi)` that differ. */
  predicate SumOfTwo(numbers: seq<nat>, lo: nat, hi: nat, num: nat) {
    exists a, b :: lo <= a < hi && lo <= b < hi && SumsTo(numbers, num, a, b)
  }

  /** `is_number_valid`: some pair recorded under `num` has both positions at or after `first`. */
  predicate IsNumberValid(num: nat, first: nat, sums: Sums) {
    num in sums && exists p :: p in sums[num] && first <= p.0 && first <= p.1
  }

  /** On the recorded sums, a number is valid as written exactly when two differing values from `first` on, anywhere up to the end, add up to it. */
  lemma ValidAsWritten(numbers: seq<nat>, sums: Sums, num: nat, first: nat)
    requires RecordsAll(numbers, sums)
    ensures IsNumberValid(num, first, sums) <==> SumOfTwo(numbers, first, |numbers|, num)
  {
    if IsNumberValid(num, first, sums) {
      var p :| p in sums[num] && first <= p.0 && first <= p.1;
      assert Recorded(sums, num, p.0, p.1);
    }
    if SumOfTwo(numbers, first, |numbers|, num) {
      var a, b :| first <= a < |numbers| && first <= b < |numbers| && SumsTo(numbers, num, a, b);
      assert Recorded(sums, num, a, b);
    }
  }

  /** The check with the window closed at `end`: both positions in `[first, end)`. */
  predicate IsNumberValidWithin(num: nat, first: nat, end: nat, sums: Sums) {
    num in sums && exists p :: p in sums[num] && first <= p.0 < end && first <= p.1 < end
  }

  /** On the recorded sums, the closed check holds exactly when two differing values in `[first, end)` add up to `num`. */
  lemma ValidWithin(numbers: seq<nat>, sums: Sums, num: nat, first: nat, end: nat)
    requires RecordsAll(numbers, sums) && end <= |numbers|
    ensures IsNumberValidWithin(num, first, end, sums) <==> SumOfTwo(numbers, first, end, num)
  {
    if IsNumberValidWithin(num, first, end, sums) {
      var p :| p in sums[num] && first <= p.0 < end && first <= p.1 < end;
      assert Recorded(sums, num, p.0, p.1);
    }
    if SumOfTwo(numbers, first, end, num) {
      var a, b :| first <= a < end && first <= b < end && SumsTo(numbers, num, a, b);
      assert Recorded(sums, num, a, b);
    }
  }

  /* ---------------------------------------------------------------- */
  /* The scan                                                          */
  /* ---------------------------------------------------------------- */

  /** Where the two addends may come from: `Onward` from the window's start to the end of the list (as written), `Preceding` the numbers just before the one checked. */
  datatype Window = Onward | Preceding

  /** The number at `idx` passes the check with `window`. */
  predicate Valid(numbers: seq<nat>, preamble: nat, window: Window, idx: nat)
    requires preamble <= idx < |numbers|
  {
    SumOfTwo(numbers, idx - preamble, if window == Onward then |numbers| else idx, numbers[idx])
  }

  /** The scan from `idx` on, `num` being the number it last took. */
  function ScanFrom(numbers: seq<nat>, preamble: nat, window: Window, idx: nat, num: nat): nat
    requires preamble <= idx
    decreases |numbers| - idx
  {
    if idx >= |numbers| then num
    else if !Valid(numbers, preamble, window, idx) then numbers[idx]
    else ScanFrom(numbers, preamble, window, idx + 1, numbers[idx])
  }

  /** The scan's answer: it starts at position `preamble` with 0. */
  function Answer(numbers: seq<nat>, preamble: nat, window: Window): nat {
    ScanFrom(numbers, preamble, window, preamble, 0)
  }

  /** With no number after the preamble the answer is 0. */
  lemma AnswerNoCandidates(numbers: seq<nat>, preamble: nat, window: Window)
    requires |numbers| <= preamble
    ensures Answer(numbers, preamble, window) == 0
  {
  }

  /** The scan stops at the first number that fails the check. */
  lemma {:induction false} ScanFromStops(numbers: seq<nat>, preamble: nat, window: Window, idx: nat, num: nat, k: nat)
    requires preamble <= idx <= k < |numbers| && !Valid(numbers, preamble, window, k)
    requires forall j :: idx <= j < k ==> Valid(numbers, preamble, window, j)
    ensures ScanFrom(numbers, preamble, window, idx, num) == numbers[k]
    decreases k - idx
  {
    if idx < k {
      assert Valid(numbers, preamble, window, idx);
      ScanFromStops(numbers, preamble, window, idx + 1, numbers[idx], k);
    }
  }

  /** The answer is the first number from the preamble on that fails the check. */
  lemma AnswerFirstInvalid(numbers: seq<nat>, preamble: nat, window: Window, k: nat)
    requires preamble <= k < |numbers| && !Valid(numbers, preamble, window, k)
    requires forall j :: preamble <= j < k ==> Valid(numbers, preamble, window, j)
    ensures Answer(numbers, preamble, window) == numbers[k]
  {
    ScanFromStops(numbers, preamble, window, preamble, 0, k);
  }

  /** The scan runs to the end while every number passes. */
  lemma {:induction false} ScanFromEnd(numbers: seq<nat>, preamble: nat, window: Window, idx: nat, num: nat)
    requires preamble <= idx < |numbers|
    requires forall j :: idx <= j < |numbers| ==> Valid(numbers, preamble, window, j)
    ensures ScanFrom(numbers, preamble, window, idx, num) == numbers[|numbers| - 1]
    decreases |numbers| - idx
  {
    assert Valid(numbers, preamble, window, idx);
    if idx + 1 < |numbers| {
      ScanFromEnd(numbers, preamble, window, idx + 1, numbers[idx]);
    }
  }

  /** When every number from the preamble on passes, the answer is the last number. */
  lemma AnswerAllValid(numbers: seq<nat>, preamble: nat, window: Window)
    requires preamble < |numbers|
    requires forall j :: preamble <= j < |numbers| ==> Valid(numbers, preamble, window, j)
    ensures Answer(numbers, preamble, window) == numbers[|numbers| - 1]
  {
    ScanFromEnd(numbers, preamble, window, preamble, 0);
  }

  /** The scan of `main` as written: the first position whose number `is_number_valid` rejects. */
  method FindInvalidNumberAsWritten(numbers: seq<nat>, preamble: nat) returns (num: nat)
    ensures num == Answer(numbers, preamble, Onward)
  {
    var sums := CalculatePermutationSums(numbers);
    num := 0;
    var idx := preamble;
    while idx < |numbers|
      invariant preamble <= idx
      invariant ScanFrom(numbers, preamble, Onward, idx, num) == Answer(numbers, preamble, Onward)
      decreases |numbers| - idx
    {
      num := numbers[idx];
      ValidAsWritten(numbers, sums, num, idx - preamble);
      if !IsNumberValid(num, idx - preamble, sums) {
        break;
      }
      idx := idx + 1;
    }
  }

  /** The scan with the window closed at the number checked: the puzzle's answer. */
  method FindInvalidNumber(numbers: seq<nat>, preamble: nat) returns (num: nat)
    ensures num == Answer(numbers, preamble, Preceding)
  {
    var sums := CalculatePermutationSums(numbers);
    num := 0;
    var idx := preamble;
    while idx < |numbers|
      invariant preamble <= idx
      invariant ScanFrom(numbers, preamble, Preceding, idx, num) == Answer(numbers, preamble, Preceding)
      decreases |numbers| - idx
    {
      num := numbers[idx];
      ValidWithin(numbers, sums, num, idx - preamble, idx);
      if !IsNumberValidWithin(num, idx - preamble, idx, sums) {
        break;
      }
      idx := idx + 1;
    }
  }

  /**
   * With a preamble of 1 and the numbers 5, 7, 3, 4, the 7 is not the sum
   * of two different numbers of the preamble (5 alone), but the check as
   * written accepts it through 3 + 4, found after it; the scan as written
   * answers 3 where the puzzle's answer is 7.
   */
  lemma LooksAhead(numbers: seq<nat>)
    requires numbers == [5, 7, 3, 4]
    ensures Answer(numbers, 1, Onward) == 3
    ensures Answer(numbers, 1, Preceding) == 7
  {
    assert SumsTo(numbers, 7, 2, 3);
    assert Valid(numbers, 1, Onward, 1);
    assert !Valid(numbers, 1, Onward, 2) by {
      forall a, b | 1 <= a < 4 && 1 <= b < 4
        ensures !SumsTo(numbers, 3, a, b)
      {
      }
    }
    AnswerFirstInvalid(numbers, 1, Onward, 2);
    assert !Valid(numbers, 1, Preceding, 1) by {
      forall a, b | 0 <= a < 1 && 0 <= b < 1
        ensures !SumsTo(numbers, 7, a, b)
      {
      }
    }
    AnswerFirstInvalid(numbers, 1, Preceding, 1);
  }

  /* ---------------------------------------------------------------- */
  /* Reading the numbers                                               */
  /* ---------------------------------------------------------------- */

  /** The numbers of the non-empty lines that parse as `u64`; the others are reported and skipped. */
  function ParseNumbers(lines: seq<string>): (r: seq<nat>)
    ensures |r| <= |lines|
    ensures forall i :: 0 <= i < |r| ==> r[i] < U64_LIMIT
  {
    if |lines| == 0 then []
    else
      var rest := ParseNumbers(lines[1..]);
      var parsed := ParseUnsigned(lines[0], U64_LIMIT);
      if lines[0] == "" || parsed.None? then rest else [parsed.value] + rest
  }

  /** The lines holding the numbers' decimal forms read back as the numbers. */
  lemma {:induction false} ParseNumbersDecimal(numbers: seq<nat>)
    requires forall i :: 0 <= i < |numbers| ==> numbers[i] < U64_LIMIT
    ensures ParseNumbers(seq(|numbers|, i requires 0 <= i < |numbers| => ToDecimal(numbers[i]))) == numbers
  {
    var lines := seq(|numbers|, i requires 0 <= i < |numbers| => ToDecimal(numbers[i]));
    if |numbers| > 0 {
      ParseUnsignedToDecimal(numbers[0], U64_LIMIT);
      assert lines[1..] == seq(|numbers[1..]|, i requires 0 <= i < |numbers[1..]| => ToDecimal(numbers[1..][i]));
      ParseNumbersDecimal(numbers[1..]);
      assert numbers == [numbers[0]] + numbers[1..];
    }
  }

  /** `main`: the numbers, then the scan, with the window of the puzzle. */
  method Solve(lines: seq<string>, preamble: nat) returns (num: nat)
    ensures num == Answer(ParseNumbers(lines), preamble, Preceding)
  {
    var numbers := ParseNumbers(lines);
    num := FindInvalidNumber(numbers, preamble);
  }
}
