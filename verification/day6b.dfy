/**
 * Day 6, part two: a group now contributes the number of questions that
 * everyone in it answered. `count_yes_answers` reads one group's lines,
 * tallying every character, and counts the characters whose tally equals
 * the number of people; `main` sums it over the groups.
 */
module Day6b {
  import opened Common
  import Day6a

  /** The `answers` map after the characters of `s` are tallied into `m`. */
  function Tally(m: map<char, nat>, s: string): map<char, nat>
    decreases |s|
  {
    if s == [] then m
    else
      var t := Tally(m, s[..|s| - 1]);
      var c := s[|s| - 1];
      t[c := (if c in t then t[c] else 0) + 1]
  }

  /** The `answers` map after the group's lines are read. */
  function GroupTally(group: seq<string>): map<char, nat>
    decreases |group|
  {
    if group == [] then map[] else Tally(GroupTally(group[..|group| - 1]), group[|group| - 1])
  }

  /** The number of occurrences of `c` over all lines of the group. */
  function Occurrences(group: seq<string>, c: char): nat
    decreases |group|
  {
    if group == [] then 0 else Occurrences(group[..|group| - 1], c) + Count(group[|group| - 1], c)
  }

  /** The value `count_yes_answers` returns for a group: the characters whose tally is the number of people. */
  function Everyone(group: seq<string>): nat {
    var m := GroupTally(group);
    var all := set c | c in m && m[c] == |group|;
    |all|
  }

  /** Tallying adds each character's occurrences to its entry; untouched keys keep their value. */
  lemma {:induction false} TallyCounts(m: map<char, nat>, s: string, c: char)
    ensures c in Tally(m, s) <==> c in m || c in s
    ensures c in Tally(m, s) ==> Tally(m, s)[c] == (if c in m then m[c] else 0) + Count(s, c)
    decreases |s|
  {
    if s != [] {
      var init := s[..|s| - 1];
      TallyCounts(m, init, c);
      assert s == init + [s[|s| - 1]];
      assert multiset(s) == multiset(init) + multiset{s[|s| - 1]};
    }
  }

  /**
   * The group's map holds exactly the characters that occur in it (the
   * questions anyone answered), each with its number of occurrences.
   */
  lemma {:induction false} GroupTallyCounts(group: seq<string>, c: char)
    ensures c in GroupTally(group) <==> c in Day6a.Distinct(group)
    ensures c in GroupTally(group) ==> GroupTally(group)[c] == Occurrences(group, c)
    decreases |group|
  {
    if group != [] {
      var init := group[..|group| - 1];
      var last := group[|group| - 1];
      GroupTallyCounts(init, c);
      TallyCounts(GroupTally(init), last, c);
      if c !in GroupTally(init) {
        OccurrencesAbsent(init, c);
      }
    }
  }

  /** A character outside the union occurs nowhere in the group. */
  lemma {:induction false} OccurrencesAbsent(group: seq<string>, c: char)
    requires c !in Day6a.Distinct(group)
    ensures Occurrences(group, c) == 0
    decreases |group|
  {
    if group != [] {
      OccurrencesAbsent(group[..|group| - 1], c);
    }
  }

  /** The loop of `count_yes_answers` stops at the first empty line at or after `start`, or at the end. */
  function GroupEnd(lines: seq<string>, start: nat): (end: nat)
    requires start <= |lines|
    ensures start <= end <= |lines|
    ensures end < |lines| ==> lines[end] == ""
    ensures forall k :: start <= k < end ==> lines[k] != ""
  {
    match IndexOf(lines[start..], "")
    case None => assert forall k :: start <= k < |lines| ==> lines[k] == lines[start..][k - start]; |lines|
    case Some(i) => assert forall k :: start <= k < start + i ==> lines[k] == lines[start..][..i][k - start]; start + i
  }

  /**
   * `count_yes_answers` on the lines from `start`: tallies every character of
   * each non-empty line and counts the people, stopping after the first empty
   * line; returns the group's count and where the next call starts.
   */
  method CountYesAnswers(lines: seq<string>, start: nat) returns (count: nat, next: nat)
    requires start <= |lines|
    ensures var end := GroupEnd(lines, start);
      count == Everyone(lines[start..end]) && next == if end < |lines| then end + 1 else end
  {
    var answers: map<char, nat> := map[];
    var personCount: nat := 0;
    var k := start;
    while k < |lines| && lines[k] != ""
      invariant start <= k <= |lines|
      invariant forall j :: start <= j < k ==> lines[j] != ""
      invariant personCount == k - start
      invariant answers == GroupTally(lines[start..k])
      decreases |lines| - k
    {
      var line := lines[k];
      answers := TallyLine(answers, line);
      personCount := personCount + 1;
      GroupTallyNext(lines, start, k);
      k := k + 1;
    }
    EndIsGroupEnd(lines, start, k);
    var all := set c | c in answers && answers[c] == personCount;
    count := |all|;
    next := if k < |lines| then k + 1 else k;
  }

  /** Reading line `k` extends the group's map by that line's tally. */
  lemma GroupTallyNext(lines: seq<string>, start: nat, k: nat)
    requires start <= k < |lines|
    ensures GroupTally(lines[start..k + 1]) == Tally(GroupTally(lines[start..k]), lines[k])
  {
    assert lines[start..k + 1][..k - start] == lines[start..k];
  }

  /** The loop of `count_yes_answers` ends where GroupEnd says. */
  lemma EndIsGroupEnd(lines: seq<string>, start: nat, k: nat)
    requires start <= k <= |lines|
    requires forall j :: start <= j < k ==> lines[j] != ""
    requires k < |lines| ==> lines[k] == ""
    ensures GroupEnd(lines, start) == k
  {
    var rest := lines[start..];
    if k < |lines| {
      assert rest[..k - start] == lines[start..k];
      IndexOfIs(rest, "", k - start);
    } else {
      assert forall j :: 0 <= j < |rest| ==> rest[j] == lines[start + j];
    }
  }

  /** The inner loop of `count_yes_answers`: one increment per character of the line. */
  method TallyLine(answers: map<char, nat>, line: string) returns (r: map<char, nat>)
    ensures r == Tally(answers, line)
  {
    r := answers;
    for j := 0 to |line|
      invariant r == Tally(answers, line[..j])
    {
      var c := line[j];
      assert line[..j + 1][..j] == line[..j];
      r := r[c := (if c in r then r[c] else 0) + 1];
    }
    assert line[..|line|] == line;
  }

  /** The sum `main` computes from the group starting at `start` onward. */
  function TotalFrom(lines: seq<string>, start: nat): nat
    requires start <= |lines|
    decreases |lines| - start
  {
    if start == |lines| then 0
    else
      var end := GroupEnd(lines, start);
      Everyone(lines[start..end]) + TotalFrom(lines, if end < |lines| then end + 1 else end)
  }

  /** `main`: while a line remains, add `count_yes_answers` of the next group. */
  method YesAnswersSum(lines: seq<string>) returns (sum: nat)
    ensures sum == TotalFrom(lines, 0)
  {
    sum := 0;
    var pos := 0;
    while pos < |lines|
      invariant pos <= |lines|
      invariant sum + TotalFrom(lines, pos) == TotalFrom(lines, 0)
      decreases |lines| - pos
    {
      var count, next := CountYesAnswers(lines, pos);
      sum := sum + count;
      pos := next;
    }
  }

  /** The sum of Everyone over a list of groups. */
  function EveryoneTotal(groups: seq<seq<string>>): nat {
    if groups == [] then 0 else Everyone(groups[0]) + EveryoneTotal(groups[1..])
  }

  /** `main`'s total is the sum of Everyone over the empty-line separated groups. */
  lemma {:induction false} TotalFromGroups(lines: seq<string>, start: nat)
    requires start <= |lines|
    ensures TotalFrom(lines, start) == EveryoneTotal(Day6a.Groups(lines[start..]))
    decreases |lines| - start
  {
    if start == |lines| {
      assert lines[start..] == [];
      assert Everyone([]) == 0;
    } else if GroupEnd(lines, start) == |lines| {
      LastGroup(lines, start);
    } else {
      var end := GroupEnd(lines, start);
      TotalFromGroups(lines, end + 1);
      InnerGroup(lines, start);
    }
  }

  /** With no empty line from `start` on, the rest is the last group. */
  lemma LastGroup(lines: seq<string>, start: nat)
    requires start < |lines| && GroupEnd(lines, start) == |lines|
    ensures TotalFrom(lines, start) == EveryoneTotal(Day6a.Groups(lines[start..]))
  {
    var rest := lines[start..];
    assert IndexOf(rest, "") == None by {
      assert forall j :: 0 <= j < |rest| ==> rest[j] == lines[start + j];
    }
    assert Day6a.Groups(rest) == [rest];
    var single: seq<seq<string>> := [rest];
    assert single[1..] == [];
    assert lines[start..|lines|] == rest;
  }

  /** With an empty line at `end`, the group before it is followed by the groups after it. */
  lemma InnerGroup(lines: seq<string>, start: nat)
    requires start < |lines| && GroupEnd(lines, start) < |lines|
    requires var end := GroupEnd(lines, start);
      TotalFrom(lines, end + 1) == EveryoneTotal(Day6a.Groups(lines[end + 1..]))
    ensures TotalFrom(lines, start) == EveryoneTotal(Day6a.Groups(lines[start..]))
  {
    var rest := lines[start..];
    var end := GroupEnd(lines, start);
    var i := end - start;
    assert rest[..i] == lines[start..end];
    assert rest[i + 1..] == lines[end + 1..];
    IndexOfIs(rest, "", i);
    assert Day6a.Groups(rest) == [rest[..i]] + Day6a.Groups(rest[i + 1..]);
  }

  /** Nobody in an empty group: a group that begins with an empty line contributes 0. */
  lemma EmptyGroup()
    ensures Everyone([]) == 0
  {
  }

  /** A line that repeats no character; in the puzzle's input every line is such. */
  predicate NoRepeats(line: string) {
    forall i, j :: 0 <= i < j < |line| ==> line[i] != line[j]
  }

  /**
   * When no line repeats a character, a character counts exactly when it
   * occurs in every line of a non-empty group: the questions everyone answered.
   */
  lemma EveryoneIff(group: seq<string>, c: char)
    requires forall k :: 0 <= k < |group| ==> NoRepeats(group[k])
    ensures var m := GroupTally(group);
      (c in m && m[c] == |group|) <==> (|group| > 0 && forall k :: 0 <= k < |group| ==> c in group[k])
  {
    GroupTallyCounts(group, c);
    Day6a.DistinctIff(group, c);
    OccurrencesAll(group, c);
  }

  /** With no repeats, each line adds at most one occurrence, so all lines are needed to reach the group size. */
  lemma {:induction false} OccurrencesAll(group: seq<string>, c: char)
    requires forall k :: 0 <= k < |group| ==> NoRepeats(group[k])
    ensures Occurrences(group, c) <= |group|
    ensures Occurrences(group, c) == |group| <==> forall k :: 0 <= k < |group| ==> c in group[k]
    decreases |group|
  {
    if group != [] {
      var init := group[..|group| - 1];
      var last := group[|group| - 1];
      OccurrencesAll(init, c);
      CountNoRepeats(last, c);
      assert forall k :: 0 <= k < |init| ==> init[k] == group[k];
    }
  }

  /** In a line without repeats a character occurs once or not at all. */
  lemma {:induction false} CountNoRepeats(line: string, c: char)
    requires NoRepeats(line)
    ensures Count(line, c) == if c in line then 1 else 0
    decreases |line|
  {
    if line != [] {
      CountNoRepeats(line[1..], c);
      assert line[0] == c ==> c !in line[1..];
    }
  }

  /** A character repeated within one line is tallied twice: `["aa", "b"]` counts `a` for both people. */
  lemma RepeatCountsTwice()
    ensures Everyone(["aa", "b"]) == 1
  {
    var g := ["aa", "b"];
    assert g[..1] == ["aa"] && ["aa"][..0] == [];
    assert Tally(map[], "a") == map['a' := 1];
    assert Tally(map[], "aa") == map['a' := 2];
    assert GroupTally(["aa"]) == map['a' := 2];
    var m := map['a' := 2, 'b' := 1];
    assert GroupTally(g) == m;
    assert (set c | c in m && m[c] == 2) == {'a'};
  }
}
