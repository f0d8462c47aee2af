/**
 * Day 2, part two: the two numbers of a password line are 1-based positions,
 * and exactly one of them must hold the character.
 */
module Day2b {
  import opened Common
  import Day2a

  /** `char_at_position_matches`: a position past the end of the password does not match. */
  predicate CharAtPositionMatches(text: string, idx: nat, c: char) {
    idx < |text| && text[idx] == c
  }

  /** `passes_policy`; a position of 0 underflows the u32 subtraction, so both must be at least 1. */
  predicate PassesPolicy(line: Day2a.LineData)
    requires line.min >= 1 && line.max >= 1
  {
    CharAtPositionMatches(line.password, line.min - 1, line.character) !=
    CharAtPositionMatches(line.password, line.max - 1, line.character)
  }

  /** A position past the end of the password never matches, so the other position alone decides. */
  lemma PositionPastEnd(line: Day2a.LineData)
    requires line.min >= 1 && line.max > |line.password|
    ensures PassesPolicy(line) <==> line.min <= |line.password| && line.password[line.min - 1] == line.character
  {
  }

  /** With equal positions the exclusive or is always false. */
  lemma SamePositionsNeverPass(line: Day2a.LineData)
    requires line.min >= 1 && line.min == line.max
    ensures !PassesPolicy(line)
  {
  }

  /** A line that parses with a position of 0: `start() - 1` on a u32 panics for it. */
  predicate Underflows(line: string) {
    match Day2a.ParseLine(line)
    case Some(d) => d.min == 0 || d.max == 0
    case None => false
  }

  /** A line that parses, has both positions at least 1 and passes. */
  predicate Passes(line: string) {
    match Day2a.ParseLine(line)
    case Some(d) => d.min >= 1 && d.max >= 1 && PassesPolicy(d)
    case None => false
  }

  /**
   * The answer: the number of lines that parse and pass, or `None` when a
   * parsed line has a position of 0 and `passes_policy` panics.
   */
  function ValidPasswords(lines: seq<string>): (r: Option<nat>)
    ensures r.Some? ==> r.value <= |lines|
  {
    if lines == [] then Some(0)
    else if Underflows(lines[0]) then None
    else
      match ValidPasswords(lines[1..])
      case None => None
      case Some(rest) => Some(if Passes(lines[0]) then 1 + rest else rest)
  }

  /** The count is missing exactly when some line panics. */
  lemma {:induction false} ValidPasswordsPanicsIff(lines: seq<string>)
    ensures ValidPasswords(lines).None? <==> exists i :: 0 <= i < |lines| && Underflows(lines[i])
  {
    if lines != [] {
      ValidPasswordsPanicsIff(lines[1..]);
      SomeAtHeadOrTail(lines, Underflows);
    }
  }

  /** Some element satisfies `p` exactly when the head or some element of the tail does. */
  lemma SomeAtHeadOrTail<T>(s: seq<T>, p: T -> bool)
    requires |s| > 0
    ensures (exists i :: 0 <= i < |s| && p(s[i])) <==> p(s[0]) || exists i :: 0 <= i < |s[1..]| && p(s[1..][i])
  {
    if exists i :: 0 <= i < |s| && p(s[i]) {
      var i :| 0 <= i < |s| && p(s[i]);
      if i > 0 {
        assert s[1..][i - 1] == s[i];
      }
    }
    if exists i :: 0 <= i < |s[1..]| && p(s[1..][i]) {
      var i :| 0 <= i < |s[1..]| && p(s[1..][i]);
      assert s[i + 1] == s[1..][i];
    }
  }

  /** One line counts 1 when it passes, 0 when it does not, and is the panic when it has a position of 0. */
  lemma ValidPasswordsOne(line: string)
    ensures ValidPasswords([line]) == if Underflows(line) then None else Some(if Passes(line) then 1 else 0)
  {
    assert [line][1..] == [];
  }

  /** Over two batches of lines the counts add, and a panic in either batch is a panic of the whole. */
  lemma {:induction false} ValidPasswordsAppend(a: seq<string>, b: seq<string>)
    ensures ValidPasswords(a + b).None? <==> ValidPasswords(a).None? || ValidPasswords(b).None?
    ensures ValidPasswords(a + b).Some? ==>
      ValidPasswords(a + b).value == ValidPasswords(a).value + ValidPasswords(b).value
  {
    if a != [] {
      assert (a + b)[1..] == a[1..] + b;
      assert (a + b)[0] == a[0];
      ValidPasswordsAppend(a[1..], b);
    } else {
      assert a + b == b;
    }
  }

  /** The puzzle's examples: `1-3 a: abcde` passes; `1-3 b: cdefg` and `2-9 c: ccccccccc` do not. */
  lemma Example()
    ensures PassesPolicy(Day2a.LineData(1, 3, 'a', "abcde"))
    ensures !PassesPolicy(Day2a.LineData(1, 3, 'b', "cdefg"))
    ensures !PassesPolicy(Day2a.LineData(2, 9, 'c', "ccccccccc"))
  {
  }
}
