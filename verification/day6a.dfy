/**
 * Day 6, part one: the customs declaration forms. Each line holds the
 * questions one person answered "yes" to; groups are separated by empty
 * lines, and a group contributes the number of questions anyone in it
 * answered. The answer is the sum over all groups.
 */
module Day6a {
  import opened Common

  /** The characters of one line. */
  function Chars(line: string): set<char> {
    set c | c in line
  }

  /** The questions anyone in the group answered: the union of its lines' characters. */
  function Distinct(group: seq<string>): set<char>
    decreases |group|
  {
    if group == [] then {} else Distinct(group[..|group| - 1]) + Chars(group[|group| - 1])
  }

  /** A character is in the union exactly when some line of the group contains it. */
  lemma {:induction false} DistinctIff(group: seq<string>, c: char)
    ensures c in Distinct(group) <==> exists k :: 0 <= k < |group| && c in group[k]
    decreases |group|
  {
    if group != [] {
      var init := group[..|group| - 1];
      DistinctIff(init, c);
      assert forall k :: 0 <= k < |init| ==> init[k] == group[k];
    }
  }

  /** The sum of the groups' distinct-answer counts. */
  function GroupsTotal(groups: seq<seq<string>>): nat
    decreases |groups|
  {
    if groups == [] then 0
    else GroupsTotal(groups[..|groups| - 1]) + |Distinct(groups[|groups| - 1])|
  }

  /** The groups of the input: the runs of lines between empty lines. */
  function Groups(lines: seq<string>): seq<seq<string>> {
    Split(lines, "")
  }

  /** An empty line opens a new, empty group. */
  lemma GroupsEmptyLine(lines: seq<string>)
    ensures Groups(lines + [""]) == Groups(lines) + [[]]
  {
    SplitSnoc(lines, "", "");
  }

  /** Any other line joins the open (last) group. */
  lemma GroupsOtherLine(lines: seq<string>, line: string)
    requires line != ""
    ensures var g := Groups(lines);
      Groups(lines + [line]) == g[..|g| - 1] + [g[|g| - 1] + [line]]
  {
    SplitSnoc(lines, "", line);
  }

  lemma GroupsTotalSnoc(groups: seq<seq<string>>, group: seq<string>)
    ensures GroupsTotal(groups + [group]) == GroupsTotal(groups) + |Distinct(group)|
  {
    assert (groups + [group])[..|groups|] == groups;
  }

  lemma DistinctSnoc(group: seq<string>, line: string)
    ensures Distinct(group + [line]) == Distinct(group) + Chars(line)
  {
    assert (group + [line])[..|group|] == group;
  }

  /** The state of the loop in `main` after some lines: the total so far and the open group's answers. */
  predicate Scanned(lines: seq<string>, sum: nat, unique: set<char>) {
    var g := Groups(lines);
    sum == GroupsTotal(g[..|g| - 1]) && unique == Distinct(g[|g| - 1])
  }

  /** One more line keeps the loop state in step with the groups read so far. */
  lemma ScannedStep(lines: seq<string>, sum: nat, unique: set<char>, line: string)
    requires Scanned(lines, sum, unique)
    ensures line == [] ==> Scanned(lines + [line], sum + |unique|, {})
    ensures line != [] ==> Scanned(lines + [line], sum, unique + Chars(line))
  {
    var g := Groups(lines);
    var init := g[..|g| - 1];
    assert g == init + [g[|g| - 1]];
    if line == [] {
      GroupsEmptyLine(lines);
      GroupsTotalSnoc(init, g[|g| - 1]);
      assert (g + [[]])[..|g|] == g;
    } else {
      GroupsOtherLine(lines, line);
      DistinctSnoc(g[|g| - 1], line);
      var h := init + [g[|g| - 1] + [line]];
      assert h[..|h| - 1] == init;
    }
  }

  /** ScannedStep for the next line of the input. */
  lemma ScannedNext(lines: seq<string>, i: nat, sum: nat, unique: set<char>)
    requires i < |lines| && Scanned(lines[..i], sum, unique)
    ensures lines[i] == [] ==> Scanned(lines[..i + 1], sum + |unique|, {})
    ensures lines[i] != [] ==> Scanned(lines[..i + 1], sum, unique + Chars(lines[i]))
  {
    assert lines[..i + 1] == lines[..i] + [lines[i]];
    ScannedStep(lines[..i], sum, unique, lines[i]);
  }

  /** The loop's end: adding the open group completes the total over all groups. */
  lemma ScannedTotal(lines: seq<string>, sum: nat, unique: set<char>)
    requires Scanned(lines, sum, unique)
    ensures sum + |unique| == GroupsTotal(Groups(lines))
  {
    var g := Groups(lines);
    assert g == g[..|g| - 1] + [g[|g| - 1]];
  }

  /**
   * The loop in `main`: an empty line adds the open group's answer count to
   * the sum and clears the set, any other line inserts its characters; the
   * last group is added after the loop.
   */
  method YesAnswersSum(lines: seq<string>) returns (sum: nat)
    ensures sum == GroupsTotal(Groups(lines))
  {
    var unique: set<char> := {};
    sum := 0;
    assert lines[..0] == [];
    for i := 0 to |lines|
      invariant Scanned(lines[..i], sum, unique)
    {
      var line := lines[i];
      ScannedNext(lines, i, sum, unique);
      if line == [] {
        sum := sum + |unique|;
        unique := {};
      } else {
        unique := InsertChars(unique, line);
      }
    }
    assert lines[..|lines|] == lines;
    ScannedTotal(lines, sum, unique);
    sum := sum + |unique|;
  }

  /** The inner loop of `main`: inserts each character of a non-empty line into the set. */
  method InsertChars(unique: set<char>, line: string) returns (r: set<char>)
    ensures r == unique + Chars(line)
  {
    r := unique;
    for j := 0 to |line|
      invariant r == unique + Chars(line[..j])
    {
      assert line[..j + 1] == line[..j] + [line[j]];
      r := r + {line[j]};
    }
    assert line[..|line|] == line;
  }

  /** Extra empty lines at the end change nothing: an empty group answers nothing. */
  lemma TrailingEmptyLine(lines: seq<string>)
    ensures GroupsTotal(Groups(lines + [""])) == GroupsTotal(Groups(lines))
  {
    GroupsEmptyLine(lines);
    GroupsTotalSnoc(Groups(lines), []);
  }

  /** Groups never share answers: appending a group adds exactly that group's distinct answers. */
  lemma NewGroup(lines: seq<string>, line: string)
    requires line != ""
    ensures GroupsTotal(Groups(lines + ["", line])) == GroupsTotal(Groups(lines)) + |Chars(line)|
  {
    var g := Groups(lines);
    var l1 := lines + [""];
    GroupsEmptyLine(lines);
    assert Groups(l1) == g + [[]];
    assert lines + ["", line] == l1 + [line];
    GroupsOtherLine(l1, line);
    assert Groups(l1 + [line]) == g + [[line]] by {
      var g1 := g + [[]];
      assert g1[..|g1| - 1] == g && g1[|g1| - 1] + [line] == [line];
    }
    GroupsTotalSnoc(g, [line]);
    DistinctSnoc([], line);
  }
}
