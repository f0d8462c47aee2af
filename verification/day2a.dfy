/**
 * Day 2, part one: a password line `min-max c: password` passes when `c`
 * occurs between `min` and `max` times (inclusive) in the password.
 */
module Day2a {
  import opened Common

  /** One parsed line: `occurrences` is the inclusive range `min..=max`. */
  datatype LineData = LineData(min: nat, max: nat, character: char, password: string)

  /** `passes_policy`. */
  predicate PassesPolicy(line: LineData) {
    line.min <= Count(line.password, line.character) <= line.max
  }

  /** The verdict depends only on the multiset of password characters, so reordering them changes nothing. */
  lemma PassesPolicyPermutation(line: LineData, other: string)
    requires multiset(other) == multiset(line.password)
    ensures PassesPolicy(line.(password := other)) == PassesPolicy(line)
  {
  }

  /** Adding one more occurrence of the character can only move the count past the range. */
  lemma PassesPolicyMonotone(line: LineData)
    requires line.min <= line.max
    requires PassesPolicy(line.(password := line.password + [line.character]))
    ensures PassesPolicy(line) || Count(line.password, line.character) + 1 == line.min
  {
    assert multiset(line.password + [line.character])[line.character] ==
      multiset(line.password)[line.character] + 1;
  }

  /* The line shape `{d}-{d} {}: {}` */

  predicate NoWhitespace(s: string) { forall i :: 0 <= i < |s| ==> !IsWhitespace(s[i]) }

  /**
   * The accepted line shape: a u32, '-', a u32, ' ', one character, ": "
   * and a non-empty password without whitespace; anything else is skipped.
   */
  function ParseLine(line: string): (r: Option<LineData>)
    ensures r.Some? ==> r.value.min < U32_LIMIT && r.value.max < U32_LIMIT && |r.value.password| > 0
  {
    match SplitOnce(line, "-")
    case None => None
    case Some((lo, rest)) =>
      match SplitOnce(rest, " ")
      case None => None
      case Some((hi, tail)) =>
        if |tail| >= 4 && tail[1..3] == ": " && NoWhitespace(tail[3..]) then
          match (ParseUnsigned(lo, U32_LIMIT), ParseUnsigned(hi, U32_LIMIT))
          case (Some(a), Some(b)) => Some(LineData(a, b, tail[0], tail[3..]))
          case _ => None
        else None
  }

  /** The line printed for `d`. */
  function FormatLine(d: LineData): string {
    ToDecimal(d.min) + "-" + ToDecimal(d.max) + " " + [d.character] + ": " + d.password
  }

  /** Every printable line parses back to its data. */
  lemma ParseFormatLine(d: LineData)
    requires d.min < U32_LIMIT && d.max < U32_LIMIT
    requires |d.password| > 0 && NoWhitespace(d.password)
    ensures ParseLine(FormatLine(d)) == Some(d)
  {
    var lo, hi := ToDecimal(d.min), ToDecimal(d.max);
    var tail := [d.character] + ": " + d.password;
    var rest := hi + " " + tail;
    var line := FormatLine(d);
    assert line == lo + "-" + rest;
    DigitsBeforeFind(lo, "-", rest);
    DigitsBeforeFind(hi, " ", tail);
    assert tail[1..3] == ": " && tail[3..] == d.password;
    ParseUnsignedToDecimal(d.min, U32_LIMIT);
    ParseUnsignedToDecimal(d.max, U32_LIMIT);
  }

  /** A separator that is not a digit is first found right after a run of digits. */
  lemma DigitsBeforeFind(digits: string, sep: string, rest: string)
    requires |sep| == 1 && !IsDigit(sep[0]) && AllDigits(digits)
    ensures SplitOnce(digits + sep + rest, sep) == Some((digits, rest))
  {
    var s := digits + sep + rest;
    assert OccursAt(s, sep, |digits|);
    forall k: nat | k < |digits|
      ensures !OccursAt(s, sep, k)
    {
      assert s[k..k + 1][0] == digits[k];
    }
    assert s[..|digits|] == digits;
    assert s[|digits| + 1..] == rest;
  }

  /** The answer: the number of lines that parse and pass. */
  function ValidPasswords(lines: seq<string>): (n: nat)
    ensures n <= |lines|
  {
    if lines == [] then 0
    else
      var rest := ValidPasswords(lines[1..]);
      match ParseLine(lines[0])
      case Some(d) => if PassesPolicy(d) then 1 + rest else rest
      case None => rest
  }

  /** Counting is additive over a split of the input. */
  lemma {:induction false} ValidPasswordsAppend(a: seq<string>, b: seq<string>)
    ensures ValidPasswords(a + b) == ValidPasswords(a) + ValidPasswords(b)
  {
    if a != [] {
      assert (a + b)[1..] == a[1..] + b;
      ValidPasswordsAppend(a[1..], b);
    } else {
      assert a + b == b;
    }
  }
}
