/**
 * Day 19, part one: message rules. Lines up to the first blank line are
 * rules `idx: alternative | alternative`, whose parts are quoted characters
 * or rule numbers; the remaining non-blank lines are messages. A message is
 * valid when it is one of the strings rule 0 expands to.
 */
module Day19a {
  import opened Common

  const USIZE_LIMIT: nat := U64_LIMIT

  datatype RulePart = Literal(c: char) | Idx(index: nat)

  type Alternative = seq<RulePart>

  type Rules = map<nat, seq<Alternative>>

  /* ---------------------------------------------------------------- */
  /* Parsing                                                           */
  /* ---------------------------------------------------------------- */

  predicate Quoted(s: string) {
    StartsWith(s, "\"") && EndsWith(s, "\"")
  }

  /** Length of the run of '"' at the start of `s`. */
  function QuoteRun(s: string): (n: nat)
    ensures n <= |s| && (forall j :: 0 <= j < n ==> s[j] == '"') && (n < |s| ==> s[n] != '"')
  {
    if s == [] || s[0] != '"' then 0 else 1 + QuoteRun(s[1..])
  }

  /**
   * One token of an alternative: a quoted token is the first character left
   * once the quotes are trimmed from both ends (a token of quotes only has
   * none, and the source panics); any other token is a `usize` rule number.
   */
  function ParseToken(s: string): (r: Option<RulePart>)
    ensures Quoted(s) ==> (r.Some? <==> exists j :: 0 <= j < |s| && s[j] != '"')
    ensures r.Some? && r.value.Literal? ==> Quoted(s) && r.value.c != '"' && r.value.c in s
    ensures !Quoted(s) ==> (r.Some? <==> ParseUnsigned(s, USIZE_LIMIT).Some?)
    ensures !Quoted(s) && r.Some? ==> r.value == Idx(ParseUnsigned(s, USIZE_LIMIT).value)
  {
    if Quoted(s) then
      var n := QuoteRun(s);
      if n < |s| then Some(Literal(s[n])) else None
    else
      match ParseUnsigned(s, USIZE_LIMIT)
      case Some(k) => Some(Idx(k))
      case None => None
  }

  /** A literal part is written between quotes, a rule number in decimal. */
  function ShowPart(p: RulePart): string {
    match p
    case Literal(c) => ['"', c, '"']
    case Idx(k) => ToDecimal(k)
  }

  /** A literal that can be written between quotes and inside an alternative. */
  predicate Writable(p: RulePart) {
    p.Literal? ==> p.c != '"' && p.c != '|' && !IsWhitespace(p.c)
  }

  lemma ParseShowPart(p: RulePart)
    requires Writable(p) && (p.Idx? ==> p.index < USIZE_LIMIT)
    ensures ParseToken(ShowPart(p)) == Some(p)
  {
    if p.Idx? {
      ParseUnsignedToDecimal(p.index, USIZE_LIMIT);
      assert !Quoted(ShowPart(p)) by {
        assert IsDigit(ShowPart(p)[0]);
      }
    } else {
      var s := ShowPart(p);
      assert Quoted(s) by {
        assert s[..1] == "\"" && s[|s| - 1..] == "\"";
      }
      assert QuoteRun(s) == 1;
    }
  }

  /** Every token of an alternative; one bad token spoils it. */
  function ParseParts(tokens: seq<string>): (r: Option<Alternative>)
    ensures r.Some? <==> forall i :: 0 <= i < |tokens| ==> ParseToken(tokens[i]).Some?
    ensures r.Some? ==> |r.value| == |tokens| && forall i :: 0 <= i < |tokens| ==> ParseToken(tokens[i]) == Some(r.value[i])
  {
    if tokens == [] then Some([])
    else
      match ParseToken(tokens[0])
      case None => None
      case Some(p) =>
        match ParseParts(tokens[1..])
        case None => None
        case Some(ps) => Some([p] + ps)
  }

  /** One `|`-separated piece, split on whitespace into tokens. */
  function ParseAlternative(piece: string): Option<Alternative> {
    ParseParts(Words(piece, IsWhitespace))
  }

  /** Every `|`-separated piece, split on whitespace into tokens. */
  function ParseAlternatives(pieces: seq<string>): (r: Option<seq<Alternative>>)
    ensures r.Some? <==> forall i :: 0 <= i < |pieces| ==> ParseAlternative(pieces[i]).Some?
    ensures r.Some? ==> |r.value| == |pieces|
    ensures r.Some? ==> forall i :: 0 <= i < |pieces| ==> ParseAlternative(pieces[i]) == Some(r.value[i])
  {
    if pieces == [] then Some([])
    else
      match ParseAlternative(pieces[0])
      case None => None
      case Some(a) =>
        match ParseAlternatives(pieces[1..])
        case None => None
        case Some(rest) => Some([a] + rest)
  }

  /**
   * A rule line: the trimmed line up to the first ':' is the `usize` rule
   * number and the rest its alternatives. A missing ':' or a bad number or
   * token is a panic in the source, `None` here.
   */
  function ParseRuleLine(line: string): (r: Option<(nat, seq<Alternative>)>)
    ensures r.Some? ==> ':' in Trim(line) && r.value.0 < USIZE_LIMIT
  {
    match SplitOnce(Trim(line), ":")
    case None => None
    case Some((head, rest)) =>
      assert Trim(line) == head + ":" + rest;
      assert ':' in Trim(line) by { assert Trim(line)[|head|] == ':'; }
      match ParseUnsigned(head, USIZE_LIMIT)
      case None => None
      case Some(k) =>
        match ParseAlternatives(Split(rest, '|'))
        case None => None
        case Some(alts) => Some((k, alts))
  }

  function ShowAlternative(a: Alternative): string {
    Spaced(ShowParts(a))
  }

  function ShowParts(a: Alternative): (r: seq<string>)
    ensures |r| == |a| && forall i :: 0 <= i < |a| ==> r[i] == ShowPart(a[i])
  {
    if a == [] then [] else [ShowPart(a[0])] + ShowParts(a[1..])
  }

  function ShowAlternatives(alts: seq<Alternative>): (r: seq<string>)
    ensures |r| == |alts| && forall i :: 0 <= i < |alts| ==> r[i] == ShowAlternative(alts[i])
  {
    if alts == [] then [] else [ShowAlternative(alts[0])] + ShowAlternatives(alts[1..])
  }

  /** A rule written the way the puzzle writes it, e.g. `1: 2 3| 3 2`. */
  function ShowRule(k: nat, alts: seq<Alternative>): string
    requires |alts| >= 1
  {
    ToDecimal(k) + ":" + Join(ShowAlternatives(alts), '|')
  }

  /** Writing a rule and parsing it back gives the rule. */
  lemma ParseShowRule(k: nat, alts: seq<Alternative>)
    requires k < USIZE_LIMIT && |alts| >= 1
    requires forall i, j :: 0 <= i < |alts| && 0 <= j < |alts[i]| ==> Writable(alts[i][j])
    requires forall i, j :: 0 <= i < |alts| && 0 <= j < |alts[i]| && alts[i][j].Idx? ==> alts[i][j].index < USIZE_LIMIT
    ensures ParseRuleLine(ShowRule(k, alts)) == Some((k, alts))
  {
    var pieces := ShowAlternatives(alts);
    var body := Join(pieces, '|');
    var line := ShowRule(k, alts);
    forall i | 0 <= i < |alts|
      ensures '|' !in pieces[i] && ParseAlternative(pieces[i]) == Some(alts[i])
    {
      AlternativeRoundTrip(alts[i]);
    }
    SplitJoin(pieces, '|');
    assert line == ToDecimal(k) + [':'] + body;
    RuleBodyEnd(alts);
    TrimRule(k, body);
    assert ':' !in ToDecimal(k) by {
      forall j | 0 <= j < |ToDecimal(k)|
        ensures ToDecimal(k)[j] != ':'
      {
        assert IsDigit(ToDecimal(k)[j]);
      }
    }
    SplitOnceAfter(ToDecimal(k), ':', body);
    ParseUnsignedToDecimal(k, USIZE_LIMIT);
    AlternativesParse(pieces, alts);
  }

  /** A rule line starts with a digit and ends with a non-space, so trimming keeps it. */
  lemma TrimRule(k: nat, body: string)
    requires body == [] || !IsWhitespace(body[|body| - 1])
    ensures Trim(ToDecimal(k) + [':'] + body) == ToDecimal(k) + [':'] + body
  {
    var line := ToDecimal(k) + [':'] + body;
    assert IsDigit(line[0]);
    TrimUnchanged(line);
  }

  /** The alternatives, written out, end in a non-space (or are empty). */
  lemma RuleBodyEnd(alts: seq<Alternative>)
    requires |alts| >= 1
    requires forall i, j :: 0 <= i < |alts| && 0 <= j < |alts[i]| ==> Writable(alts[i][j])
    ensures var body := Join(ShowAlternatives(alts), '|'); body == [] || !IsWhitespace(body[|body| - 1])
  {
    AlternativeEnd(alts[|alts| - 1]);
    JoinEnd(ShowAlternatives(alts));
  }

  lemma AlternativeEnd(a: Alternative)
    requires forall j :: 0 <= j < |a| ==> Writable(a[j])
    ensures var s := ShowAlternative(a); s == [] || !IsWhitespace(s[|s| - 1])
  {
    if a != [] {
      var tokens := ShowParts(a);
      SpacedSuffix(tokens);
      ShownPartPlain(a[|a| - 1]);
    }
  }

  lemma JoinEnd(pieces: seq<string>)
    requires |pieces| >= 1
    requires var p := pieces[|pieces| - 1]; p == [] || !IsWhitespace(p[|p| - 1])
    ensures var s := Join(pieces, '|'); s == [] || !IsWhitespace(s[|s| - 1])
  {
    var s := Join(pieces, '|');
    var p := pieces[|pieces| - 1];
    JoinSuffix(pieces, '|');
    if p != [] {
      assert s[|s| - 1] == s[|s| - |p|..][|p| - 1];
    }
  }

  lemma AlternativesParse(pieces: seq<string>, alts: seq<Alternative>)
    requires |pieces| == |alts|
    requires forall i :: 0 <= i < |alts| ==> ParseAlternative(pieces[i]) == Some(alts[i])
    ensures ParseAlternatives(pieces) == Some(alts)
  {
    var r := ParseAlternatives(pieces);
    assert r.Some?;
    assert r.value == alts;
  }

  /** One alternative, written with a space before each part, parses back. */
  lemma AlternativeRoundTrip(a: Alternative)
    requires forall j :: 0 <= j < |a| ==> Writable(a[j]) && (a[j].Idx? ==> a[j].index < USIZE_LIMIT)
    ensures '|' !in ShowAlternative(a)
    ensures ParseAlternative(ShowAlternative(a)) == Some(a)
  {
    var tokens := ShowParts(a);
    forall j | 0 <= j < |a|
      ensures tokens[j] != [] && NoSeparator(tokens[j], IsWhitespace) && '|' !in tokens[j]
      ensures ParseToken(tokens[j]) == Some(a[j])
    {
      ShownPartPlain(a[j]);
      ParseShowPart(a[j]);
    }
    WordsSpaced(tokens);
    SpacedFree(tokens, '|');
    var r := ParseParts(tokens);
    assert r.Some? && r.value == a;
  }

  /** The written form of a part is non-empty, has no whitespace and no '|'. */
  lemma ShownPartPlain(p: RulePart)
    requires Writable(p)
    ensures ShowPart(p) != [] && NoSeparator(ShowPart(p), IsWhitespace) && '|' !in ShowPart(p)
  {
    var s := ShowPart(p);
    forall j | 0 <= j < |s|
      ensures !IsWhitespace(s[j]) && s[j] != '|'
    {
      if p.Idx? {
        assert IsDigit(s[j]);
      }
    }
  }

  /** Spacing tokens free of `c` adds no `c` (for a non-space `c`). */
  lemma {:induction false} SpacedFree(tokens: seq<string>, c: char)
    requires c != ' ' && forall k :: 0 <= k < |tokens| ==> c !in tokens[k]
    ensures c !in Spaced(tokens)
  {
    if tokens != [] {
      SpacedFree(tokens[1..], c);
    }
  }

  /* ---------------------------------------------------------------- */
  /* Rules and messages (`parse`)                                      */
  /* ---------------------------------------------------------------- */

  predicate Blank(line: string) {
    Trim(line) == []
  }

  /** Index of the first blank line, or the number of lines. */
  function FirstBlank(lines: seq<string>): (n: nat)
    ensures n <= |lines| && (forall j :: 0 <= j < n ==> !Blank(lines[j])) && (n < |lines| ==> Blank(lines[n]))
  {
    if lines == [] || Blank(lines[0]) then 0
    else
      var n := FirstBlank(lines[1..]);
      assert forall j :: 1 <= j <= |lines[1..]| ==> lines[j] == lines[1..][j - 1];
      1 + n
  }

  /** A parser of rule lines; `parse` uses ParseRuleLine. */
  type RuleParser = string -> Option<(nat, seq<Alternative>)>

  /** Rule lines inserted in order, a later rule for the same number replacing an earlier one. */
  function RulesOf(lines: seq<string>, parseRule: RuleParser): Option<Rules> {
    if lines == [] then Some(map[])
    else
      match RulesOf(lines[..|lines| - 1], parseRule)
      case None => None
      case Some(rules) =>
        match parseRule(lines[|lines| - 1])
        case None => None
        case Some((k, alts)) => Some(rules[k := alts])
  }

  /** The rules fail to parse exactly when one of their lines is malformed. */
  lemma {:induction false} RulesOfNone(lines: seq<string>, parseRule: RuleParser)
    ensures RulesOf(lines, parseRule).None? <==> exists j :: 0 <= j < |lines| && parseRule(lines[j]).None?
  {
    if lines != [] {
      var init := lines[..|lines| - 1];
      var last := |lines| - 1;
      RulesOfNone(init, parseRule);
      if RulesOf(init, parseRule).None? {
        var j :| 0 <= j < |init| && parseRule(init[j]).None?;
        assert lines[j] == init[j];
      } else if parseRule(lines[last]).None? {
      } else {
        forall j | 0 <= j < |lines|
          ensures parseRule(lines[j]).Some?
        {
          if j < last {
            assert lines[j] == init[j];
          } else {
            assert j == last;
          }
        }
      }
    }
  }

  /** The non-blank lines, trimmed. */
  function MessagesOf(lines: seq<string>): seq<string> {
    if lines == [] then []
    else
      var prev := MessagesOf(lines[..|lines| - 1]);
      var last := lines[|lines| - 1];
      if Blank(last) then prev else prev + [Trim(last)]
  }

  /**
   * The fold of `parse` over the lines: whether rules are still being
   * read, the rules and the messages; `None` once a malformed rule line
   * would have panicked.
   */
  function ParseFold(lines: seq<string>, parseRule: RuleParser): Option<(bool, Rules, seq<string>)> {
    if lines == [] then Some((true, map[], []))
    else
      match ParseFold(lines[..|lines| - 1], parseRule)
      case None => None
      case Some((parseRules, rules, messages)) =>
        var line := lines[|lines| - 1];
        if Blank(line) then Some((false, rules, messages))
        else if parseRules then
          match parseRule(line)
          case None => None
          case Some((k, alts)) => Some((true, rules[k := alts], messages))
        else Some((false, rules, messages + [Trim(line)]))
  }

  /**
   * What the fold computes: the lines before the first blank line are the
   * rules, and the non-blank lines after it the messages.
   */
  predicate FoldMeans(lines: seq<string>, parseRule: RuleParser) {
    var b := FirstBlank(lines);
    (ParseFold(lines, parseRule).None? <==> RulesOf(lines[..b], parseRule).None?)
    && (ParseFold(lines, parseRule).Some? ==>
          ParseFold(lines, parseRule).value == (b == |lines|, RulesOf(lines[..b], parseRule).value, MessagesOf(lines[b..])))
  }

  lemma {:induction false} ParseFoldMeaning(lines: seq<string>, parseRule: RuleParser)
    ensures FoldMeans(lines, parseRule)
  {
    if lines != [] {
      var init := lines[..|lines| - 1];
      var line := lines[|lines| - 1];
      ParseFoldMeaning(init, parseRule);
      LastSplit(lines);
      FirstBlankSnoc(init, line);
      var b := FirstBlank(init);
      if b < |init| {
        MessageLineStep(init, line, parseRule);
      } else if Blank(line) {
        FirstBlankStep(init, line, parseRule);
      } else {
        RuleLineStep(init, line, parseRule);
      }
    }
  }

  /** A line after the first blank line is a message, or skipped when blank. */
  lemma MessageLineStep(init: seq<string>, line: string, parseRule: RuleParser)
    requires FoldMeans(init, parseRule) && FirstBlank(init) < |init|
    requires FirstBlank(init + [line]) == FirstBlank(init)
    ensures FoldMeans(init + [line], parseRule)
  {
    var b := FirstBlank(init);
    SliceSnoc(init, line, b);
    MessagesSnoc(init[b..], line);
    ParseFoldSnoc(init, line, parseRule);
  }

  lemma SliceSnoc<T>(s: seq<T>, x: T, b: nat)
    requires b <= |s|
    ensures (s + [x])[..b] == s[..b] && (s + [x])[b..] == s[b..] + [x]
  {
  }

  lemma MessagesSnoc(s: seq<string>, line: string)
    ensures MessagesOf(s + [line]) == if Blank(line) then MessagesOf(s) else MessagesOf(s) + [Trim(line)]
  {
    assert (s + [line])[..|s|] == s;
  }

  lemma ParseFoldSnoc(init: seq<string>, line: string, parseRule: RuleParser)
    ensures ParseFold(init + [line], parseRule) ==
      match ParseFold(init, parseRule)
      case None => None
      case Some((parseRules, rules, messages)) =>
        if Blank(line) then Some((false, rules, messages))
        else if parseRules then
          match parseRule(line)
          case None => None
          case Some((k, alts)) => Some((true, rules[k := alts], messages))
        else Some((false, rules, messages + [Trim(line)]))
  {
    assert (init + [line])[..|init|] == init;
  }

  /** The first blank line ends the rules. */
  lemma FirstBlankStep(init: seq<string>, line: string, parseRule: RuleParser)
    requires FoldMeans(init, parseRule) && FirstBlank(init) == |init| && Blank(line)
    requires FirstBlank(init + [line]) == |init|
    ensures FoldMeans(init + [line], parseRule)
  {
    var lines := init + [line];
    assert lines[..|lines| - 1] == init;
    assert lines[..|init|] == init && init[..|init|] == init;
    assert lines[|init|..] == [line] && [line][..0] == [];
  }

  /** Before any blank line, a line is a rule. */
  lemma RuleLineStep(init: seq<string>, line: string, parseRule: RuleParser)
    requires FoldMeans(init, parseRule) && FirstBlank(init) == |init| && !Blank(line)
    requires FirstBlank(init + [line]) == |init| + 1
    ensures FoldMeans(init + [line], parseRule)
  {
    var lines := init + [line];
    Whole(lines);
    Whole(init);
    RulesSnoc(init, line, parseRule);
    ParseFoldSnoc(init, line, parseRule);
    match ParseFold(init, parseRule)
    case None =>
      assert RulesOf(init, parseRule).None?;
    case Some((parseRules, rules, messages)) =>
      assert parseRules && rules == RulesOf(init, parseRule).value && messages == [];
  }

  lemma LastSplit<T>(s: seq<T>)
    requires s != []
    ensures s == s[..|s| - 1] + [s[|s| - 1]]
  {
  }

  lemma Whole<T>(s: seq<T>)
    ensures s[..|s|] == s && s[|s|..] == []
  {
  }

  lemma RulesSnoc(init: seq<string>, line: string, parseRule: RuleParser)
    ensures RulesOf(init + [line], parseRule) ==
      match RulesOf(init, parseRule)
      case None => None
      case Some(rules) =>
        match parseRule(line)
        case None => None
        case Some((k, alts)) => Some(rules[k := alts])
  {
    assert (init + [line])[..|init|] == init;
  }

  lemma FirstBlankSnoc(init: seq<string>, line: string)
    ensures var b := FirstBlank(init);
      FirstBlank(init + [line]) == if b < |init| then b else if Blank(line) then |init| else |init| + 1
  {
    var lines := init + [line];
    var b, b2 := FirstBlank(init), FirstBlank(lines);
    assert forall j :: 0 <= j < |init| ==> lines[j] == init[j];
    if b < |init| {
      assert b2 <= b by { assert Blank(lines[b]); }
    } else if Blank(line) {
      assert b2 <= |init| by { assert Blank(lines[|init|]); }
    }
  }

  /** `parse`: the fold over the lines, or `None` where the source panics. */
  method Parse(lines: seq<string>) returns (r: Option<(Rules, seq<string>)>)
    ensures r.None? <==> ParseFold(lines, ParseRuleLine).None?
    ensures r.Some? ==> r.value == (ParseFold(lines, ParseRuleLine).value.1, ParseFold(lines, ParseRuleLine).value.2)
  {
    var parseRules := true;
    var rules: Rules := map[];
    var messages: seq<string> := [];
    for i := 0 to |lines|
      invariant ParseFold(lines[..i], ParseRuleLine) == Some((parseRules, rules, messages))
    {
      var line := lines[i];
      assert lines[..i + 1][..i] == lines[..i] && lines[..i + 1][i] == line;
      if Trim(line) == [] {
        parseRules := false;
        continue;
      }
      if parseRules {
        match ParseRuleLine(line) {
          case None =>
            NoneStaysNone(lines, i + 1, ParseRuleLine);
            return None;
          case Some((k, alts)) =>
            rules := rules[k := alts];
        }
      } else {
        messages := messages + [Trim(line)];
      }
    }
    assert lines[..|lines|] == lines;
    return Some((rules, messages));
  }

  /** After a panic, further lines change nothing. */
  lemma {:induction false} NoneStaysNone(lines: seq<string>, i: nat, parseRule: RuleParser)
    requires i <= |lines| && ParseFold(lines[..i], parseRule).None?
    ensures ParseFold(lines, parseRule).None?
    decreases |lines| - i
  {
    if i < |lines| {
      assert lines[..i + 1][..i] == lines[..i];
      NoneStaysNone(lines, i + 1, parseRule);
    } else {
      assert lines[..i] == lines;
    }
  }

  /* ---------------------------------------------------------------- */
  /* Expansion                                                         */
  /* ---------------------------------------------------------------- */

  /** The rank of a known rule, plus one; zero for a number with no rule. */
  function Height(rules: Rules, rank: map<nat, nat>, idx: nat): nat {
    if idx in rules && idx in rank then rank[idx] + 1 else 0
  }

  /** Every rule number named by `parts` has a height below `bound`. */
  predicate PartsBelow(rules: Rules, rank: map<nat, nat>, parts: Alternative, bound: nat) {
    forall k :: 0 <= k < |parts| && parts[k].Idx? ==> Height(rules, rank, parts[k].index) < bound
  }

  predicate AltsBelow(rules: Rules, rank: map<nat, nat>, alts: seq<Alternative>, bound: nat) {
    forall a :: 0 <= a < |alts| ==> PartsBelow(rules, rank, alts[a], bound)
  }

  /**
   * The rules are acyclic, as `rank` witnesses: every rule names only rules
   * of lower rank. Expansion of a cyclic rule does not terminate in the
   * source.
   */
  predicate Ranked(rules: Rules, rank: map<nat, nat>) {
    forall i :: i in rules ==> i in rank && AltsBelow(rules, rank, rules[i], rank[i] + 1)
  }

  /** `x` followed by each of `ys`. */
  function Prepend(x: string, ys: seq<string>): (r: seq<string>)
    ensures |r| == |ys| && forall i :: 0 <= i < |ys| ==> r[i] == x + ys[i]
  {
    if ys == [] then [] else [x + ys[0]] + Prepend(x, ys[1..])
  }

  /** Every `x + y`, the first factor varying slowest. */
  function Combine(xs: seq<string>, ys: seq<string>): seq<string> {
    if xs == [] then [] else Prepend(xs[0], ys) + Combine(xs[1..], ys)
  }

  /**
   * `multi_cartesian_product` followed by `join("")`: every concatenation
   * choosing one string from each list, the last list varying fastest; no
   * lists give no strings.
   */
  function Products(lists: seq<seq<string>>): seq<string> {
    if |lists| == 0 then []
    else if |lists| == 1 then lists[0]
    else Combine(Products(lists[..|lists| - 1]), lists[|lists| - 1])
  }

  /** The uncached expansion of rule `idx`: a number without a rule gives nothing. */
  function Expand(rules: Rules, rank: map<nat, nat>, idx: nat): seq<string>
    requires Ranked(rules, rank)
    decreases Height(rules, rank, idx), 2
  {
    if idx !in rules then [] else ExpandAlts(rules, rank, rules[idx], Height(rules, rank, idx))
  }

  /** The alternatives' expansions, one after the other. */
  function ExpandAlts(rules: Rules, rank: map<nat, nat>, alts: seq<Alternative>, bound: nat): seq<string>
    requires Ranked(rules, rank) && AltsBelow(rules, rank, alts, bound)
    decreases bound, 1, |alts|
  {
    if alts == [] then []
    else
      ExpandAlts(rules, rank, alts[..|alts| - 1], bound)
        + Products(PartExpansions(rules, rank, alts[|alts| - 1], bound))
  }

  /** The expansion of each part of an alternative: a literal gives its one character. */
  function PartExpansions(rules: Rules, rank: map<nat, nat>, parts: Alternative, bound: nat): (r: seq<seq<string>>)
    requires Ranked(rules, rank) && PartsBelow(rules, rank, parts, bound)
    ensures |r| == |parts|
    decreases bound, 0, |parts|
  {
    if parts == [] then []
    else
      PartExpansions(rules, rank, parts[..|parts| - 1], bound)
        + [PartExpansion(rules, rank, parts[|parts| - 1], bound)]
  }

  function PartExpansion(rules: Rules, rank: map<nat, nat>, p: RulePart, bound: nat): seq<string>
    requires Ranked(rules, rank) && (p.Idx? ==> Height(rules, rank, p.index) < bound)
    decreases bound, 0, 0
  {
    match p
    case Literal(c) => [[c]]
    case Idx(j) => Expand(rules, rank, j)
  }

  /* ---------------------------------------------------------------- */
  /* The language of a rule                                            */
  /* ---------------------------------------------------------------- */

  /** Rule `idx` derives `s`: some alternative of its rule derives `s`. */
  predicate Derives(rules: Rules, rank: map<nat, nat>, idx: nat, s: string)
    requires Ranked(rules, rank)
    decreases Height(rules, rank, idx), 2
  {
    idx in rules
    && exists a :: 0 <= a < |rules[idx]| && SeqDerives(rules, rank, rules[idx][a], Height(rules, rank, idx), s)
  }

  /**
   * A sequence of parts derives `s` when `s` splits into pieces, one per
   * part in order, each derived by its part. An empty alternative derives
   * nothing, as the product of no lists is empty.
   */
  predicate SeqDerives(rules: Rules, rank: map<nat, nat>, parts: Alternative, bound: nat, s: string)
    requires Ranked(rules, rank) && PartsBelow(rules, rank, parts, bound)
    decreases bound, 1, |parts|
  {
    if |parts| == 0 then false
    else if |parts| == 1 then PartDerives(rules, rank, parts[0], bound, s)
    else
      exists k :: 0 <= k <= |s|
        && SeqDerives(rules, rank, parts[..|parts| - 1], bound, s[..k])
        && PartDerives(rules, rank, parts[|parts| - 1], bound, s[k..])
  }

  /** A literal derives its character; a rule number what its rule derives. */
  predicate PartDerives(rules: Rules, rank: map<nat, nat>, p: RulePart, bound: nat, s: string)
    requires Ranked(rules, rank) && (p.Idx? ==> Height(rules, rank, p.index) < bound)
    decreases bound, 0
  {
    match p
    case Literal(c) => s == [c]
    case Idx(j) => Derives(rules, rank, j, s)
  }

  lemma PrependHas(x: string, ys: seq<string>, s: string)
    ensures s in Prepend(x, ys) <==> |x| <= |s| && s[..|x|] == x && s[|x|..] in ys
  {
    var r := Prepend(x, ys);
    if s in r {
      var i :| 0 <= i < |r| && r[i] == s;
      assert s[..|x|] == x && s[|x|..] == ys[i];
    }
    if |x| <= |s| && s[..|x|] == x && s[|x|..] in ys {
      var i :| 0 <= i < |ys| && ys[i] == s[|x|..];
      assert s == x + ys[i] == r[i];
    }
  }

  /** `s` is a combination exactly when it splits into a first and a second factor. */
  lemma {:induction false} CombineHas(xs: seq<string>, ys: seq<string>, s: string)
    ensures s in Combine(xs, ys) <==> exists k :: 0 <= k <= |s| && s[..k] in xs && s[k..] in ys
  {
    if xs != [] {
      CombineHas(xs[1..], ys, s);
      PrependHas(xs[0], ys, s);
      if s in Combine(xs, ys) {
        if s in Prepend(xs[0], ys) {
          var k := |xs[0]|;
          assert s[..k] in xs && s[k..] in ys;
        }
      } else {
        forall k | 0 <= k <= |s| && s[..k] in xs
          ensures s[k..] !in ys
        {
          if s[..k] == xs[0] {
            assert |xs[0]| == k;
          } else {
            assert s[..k] in xs[1..];
          }
        }
      }
    }
  }

  /** The expansion of a rule is exactly the set of strings the rule derives. */
  lemma {:induction false} ExpandIff(rules: Rules, rank: map<nat, nat>, idx: nat, s: string)
    requires Ranked(rules, rank)
    ensures s in Expand(rules, rank, idx) <==> Derives(rules, rank, idx, s)
    decreases Height(rules, rank, idx), 2
  {
    if idx in rules {
      AltsIff(rules, rank, rules[idx], Height(rules, rank, idx), s);
    }
  }

  lemma {:induction false} AltsIff(rules: Rules, rank: map<nat, nat>, alts: seq<Alternative>, bound: nat, s: string)
    requires Ranked(rules, rank) && AltsBelow(rules, rank, alts, bound)
    ensures s in ExpandAlts(rules, rank, alts, bound)
        <==> exists a :: 0 <= a < |alts| && SeqDerives(rules, rank, alts[a], bound, s)
    decreases bound, 1, |alts|
  {
    if alts != [] {
      var init, last := alts[..|alts| - 1], alts[|alts| - 1];
      AltsIff(rules, rank, init, bound, s);
      SeqIff(rules, rank, last, bound, s);
      if exists a :: 0 <= a < |alts| && SeqDerives(rules, rank, alts[a], bound, s) {
        var a :| 0 <= a < |alts| && SeqDerives(rules, rank, alts[a], bound, s);
        if a < |init| {
          assert init[a] == alts[a];
        }
      }
      if exists a :: 0 <= a < |init| && SeqDerives(rules, rank, init[a], bound, s) {
        var a :| 0 <= a < |init| && SeqDerives(rules, rank, init[a], bound, s);
        assert alts[a] == init[a];
      }
    }
  }

  lemma {:induction false} SeqIff(rules: Rules, rank: map<nat, nat>, parts: Alternative, bound: nat, s: string)
    requires Ranked(rules, rank) && PartsBelow(rules, rank, parts, bound)
    ensures s in Products(PartExpansions(rules, rank, parts, bound)) <==> SeqDerives(rules, rank, parts, bound, s)
    decreases bound, 0, |parts|
  {
    var lists := PartExpansions(rules, rank, parts, bound);
    if |parts| == 1 {
      assert parts[..0] == [];
      PartIff(rules, rank, parts[0], bound, s);
    } else if |parts| > 1 {
      var init, last := parts[..|parts| - 1], parts[|parts| - 1];
      assert lists[..|lists| - 1] == PartExpansions(rules, rank, init, bound);
      CombineHas(Products(lists[..|lists| - 1]), lists[|lists| - 1], s);
      forall k | 0 <= k <= |s|
        ensures s[..k] in Products(PartExpansions(rules, rank, init, bound))
            <==> SeqDerives(rules, rank, init, bound, s[..k])
        ensures s[k..] in lists[|lists| - 1] <==> PartDerives(rules, rank, last, bound, s[k..])
      {
        SeqIff(rules, rank, init, bound, s[..k]);
        PartIff(rules, rank, last, bound, s[k..]);
      }
    }
  }

  lemma {:induction false} PartIff(rules: Rules, rank: map<nat, nat>, p: RulePart, bound: nat, s: string)
    requires Ranked(rules, rank) && (p.Idx? ==> Height(rules, rank, p.index) < bound)
    ensures s in PartExpansion(rules, rank, p, bound) <==> PartDerives(rules, rank, p, bound, s)
    decreases bound, 0, 0
  {
    if p.Idx? {
      ExpandIff(rules, rank, p.index, s);
    }
  }

  /* ---------------------------------------------------------------- */
  /* Cached expansion (`expand_rule`)                                  */
  /* ---------------------------------------------------------------- */

  /**
   * The memo of `expand`: every cached entry is the rule's expansion. The
   * ranking is a ghost witness that the rules are acyclic.
   */
  class Expander {
    const rules: Rules
    ghost const rank: map<nat, nat>
    var cache: map<nat, seq<string>>

    ghost predicate Valid()
      reads this
    {
      Ranked(rules, rank) && forall i :: i in cache ==> cache[i] == Expand(rules, rank, i)
    }

    constructor(rules: Rules, ghost rank: map<nat, nat>)
      requires Ranked(rules, rank)
      ensures Valid() && this.rules == rules && this.rank == rank && cache == map[]
    {
      this.rules := rules;
      this.rank := rank;
      cache := map[];
    }

    /** `expand`: the expansion of rule `idx`, remembered in the cache (an empty one for a missing rule). */
    method ExpandIdx(idx: nat) returns (r: seq<string>)
      requires Valid()
      modifies this
      ensures Valid() && r == Expand(rules, rank, idx)
      ensures old(cache).Keys <= cache.Keys && idx in cache
      decreases Height(rules, rank, idx), 2
    {
      if idx in cache {
        return cache[idx];
      }
      if idx in rules {
        var alts := rules[idx];
        var bound := Height(rules, rank, idx);
        var results := [];
        for a := 0 to |alts|
          invariant Valid() && old(cache).Keys <= cache.Keys
          invariant results == ExpandAlts(rules, rank, alts[..a], bound)
        {
          var lists := ExpandParts(alts[a], bound);
          assert alts[..a + 1][..a] == alts[..a];
          results := results + Products(lists);
        }
        assert alts[..|alts|] == alts;
        cache := cache[idx := results];
      }
      if idx !in cache {
        cache := cache[idx := []];
      }
      r := cache[idx];
    }

    /** The expansions of the parts of one alternative, in order. */
    method ExpandParts(parts: Alternative, ghost bound: nat) returns (lists: seq<seq<string>>)
      requires Valid() && PartsBelow(rules, rank, parts, bound)
      modifies this
      ensures Valid() && lists == PartExpansions(rules, rank, parts, bound)
      ensures old(cache).Keys <= cache.Keys
      decreases bound, 1
    {
      lists := [];
      for j := 0 to |parts|
        invariant Valid() && old(cache).Keys <= cache.Keys
        invariant lists == PartExpansions(rules, rank, parts[..j], bound)
      {
        var e: seq<string>;
        match parts[j] {
          case Literal(c) =>
            e := [[c]];
          case Idx(k) =>
            e := ExpandIdx(k);
        }
        assert parts[..j + 1][..j] == parts[..j];
        lists := lists + [e];
      }
      assert parts[..|parts|] == parts;
    }
  }

  /** `expand_rule`: the set of strings rule `idx` derives, through a fresh cache. */
  method ExpandRule(rules: Rules, ghost rank: map<nat, nat>, idx: nat) returns (allowed: set<string>)
    requires Ranked(rules, rank)
    ensures forall s :: s in allowed <==> Derives(rules, rank, idx, s)
  {
    var expander := new Expander(rules, rank);
    var expansion := expander.ExpandIdx(idx);
    allowed := set s | s in expansion;
    forall s
      ensures s in allowed <==> Derives(rules, rank, idx, s)
    {
      ExpandIff(rules, rank, idx, s);
    }
  }

  /** How many of the messages rule 0 derives. */
  ghost function ValidCount(rules: Rules, rank: map<nat, nat>, messages: seq<string>): nat
    requires Ranked(rules, rank)
  {
    if messages == [] then 0
    else
      ValidCount(rules, rank, messages[..|messages| - 1])
        + if Derives(rules, rank, 0, messages[|messages| - 1]) then 1 else 0
  }

  /** The count is at most the number of messages, and all of them exactly when every message is valid. */
  lemma {:induction false} ValidCountBounds(rules: Rules, rank: map<nat, nat>, messages: seq<string>)
    requires Ranked(rules, rank)
    ensures ValidCount(rules, rank, messages) <= |messages|
    ensures ValidCount(rules, rank, messages) == |messages|
        <==> forall i :: 0 <= i < |messages| ==> Derives(rules, rank, 0, messages[i])
  {
    if messages != [] {
      var init := messages[..|messages| - 1];
      ValidCountBounds(rules, rank, init);
      if forall i :: 0 <= i < |messages| ==> Derives(rules, rank, 0, messages[i]) {
        forall i | 0 <= i < |init|
          ensures Derives(rules, rank, 0, init[i])
        {
          assert init[i] == messages[i];
        }
      } else {
        var i :| 0 <= i < |messages| && !Derives(rules, rank, 0, messages[i]);
        if i < |init| {
          assert init[i] == messages[i];
        }
      }
    }
  }

  /** `main`: count the messages rule 0 allows. */
  method CountValid(rules: Rules, ghost rank: map<nat, nat>, messages: seq<string>) returns (n: nat)
    requires Ranked(rules, rank)
    ensures n == ValidCount(rules, rank, messages)
  {
    var allowed := ExpandRule(rules, rank, 0);
    n := 0;
    for i := 0 to |messages|
      invariant n == ValidCount(rules, rank, messages[..i])
    {
      assert messages[..i + 1][..i] == messages[..i];
      if messages[i] in allowed {
        n := n + 1;
      }
    }
    assert messages[..|messages|] == messages;
  }

  /* ---------------------------------------------------------------- */
  /* The puzzle's example                                              */
  /* ---------------------------------------------------------------- */

  function ExampleRules(): Rules {
    map[0 := [[Idx(4), Idx(1), Idx(5)]],
        1 := [[Idx(2), Idx(3)], [Idx(3), Idx(2)]],
        2 := [[Idx(4), Idx(4)], [Idx(5), Idx(5)]],
        3 := [[Idx(4), Idx(5)], [Idx(5), Idx(4)]],
        4 := [[Literal('a')]],
        5 := [[Literal('b')]]]
  }

  function ExampleRank(): map<nat, nat> {
    map[0 := 3, 1 := 2, 2 := 1, 3 := 1, 4 := 0, 5 := 0]
  }

  lemma ExampleRanked()
    ensures Ranked(ExampleRules(), ExampleRank())
  {
    var rules, rank := ExampleRules(), ExampleRank();
    assert rules.Keys == {0, 1, 2, 3, 4, 5};
    forall i | i in rules
      ensures i in rank && AltsBelow(rules, rank, rules[i], rank[i] + 1)
    {
      RankedAt(i);
    }
  }

  lemma RankedAt(i: nat)
    requires i in {0, 1, 2, 3, 4, 5}
    ensures var rules, rank := ExampleRules(), ExampleRank();
      i in rank && AltsBelow(rules, rank, rules[i], rank[i] + 1)
  {
    var rules: Rules, rank: map<nat, nat> := ExampleRules(), ExampleRank();
    var alts: seq<Alternative> := rules[i];
    forall a | 0 <= a < |alts|
      ensures PartsBelow(rules, rank, alts[a], rank[i] + 1)
    {
      var parts: Alternative := alts[a];
      forall k | 0 <= k < |parts| && parts[k].Idx?
        ensures Height(rules, rank, parts[k].index) < rank[i] + 1
      {
        var j := parts[k].index;
        assert j in rules && j in rank && rank[j] < rank[i];
      }
    }
  }

  lemma ExampleLetters()
    ensures Ranked(ExampleRules(), ExampleRank())
    ensures Expand(ExampleRules(), ExampleRank(), 4) == ["a"]
    ensures Expand(ExampleRules(), ExampleRank(), 5) == ["b"]
  {
    ExampleRanked();
  }

  lemma TwoAlts(rules: Rules, rank: map<nat, nat>, idx: nat, p: Alternative, q: Alternative)
    requires Ranked(rules, rank) && idx in rules && rules[idx] == [p, q]
    ensures PartsBelow(rules, rank, p, Height(rules, rank, idx)) && PartsBelow(rules, rank, q, Height(rules, rank, idx))
    ensures Expand(rules, rank, idx)
         == Products(PartExpansions(rules, rank, p, Height(rules, rank, idx)))
          + Products(PartExpansions(rules, rank, q, Height(rules, rank, idx)))
  {
    var h := Height(rules, rank, idx);
    assert AltsBelow(rules, rank, [p, q], h);
    assert [p, q][0] == p && [p, q][1] == q;
    assert [p, q][..1] == [p] && [p][..0] == [];
    assert ExpandAlts(rules, rank, [p], h) == Products(PartExpansions(rules, rank, p, h));
  }

  lemma TwoParts(rules: Rules, rank: map<nat, nat>, x: nat, y: nat, bound: nat)
    requires Ranked(rules, rank) && Height(rules, rank, x) < bound && Height(rules, rank, y) < bound
    ensures PartsBelow(rules, rank, [Idx(x), Idx(y)], bound)
    ensures Products(PartExpansions(rules, rank, [Idx(x), Idx(y)], bound))
         == Combine(Expand(rules, rank, x), Expand(rules, rank, y))
  {
    var parts := [Idx(x), Idx(y)];
    assert forall k :: 0 <= k < 2 ==> parts[k] == Idx(x) || parts[k] == Idx(y);
    assert parts[..1] == [Idx(x)] && [Idx(x)][..0] == [];
    var lists := PartExpansions(rules, rank, parts, bound);
    assert PartExpansion(rules, rank, Idx(x), bound) == Expand(rules, rank, x);
    assert PartExpansion(rules, rank, Idx(y), bound) == Expand(rules, rank, y);
    assert PartExpansions(rules, rank, [Idx(x)], bound)
        == PartExpansions(rules, rank, [], bound) + [PartExpansion(rules, rank, Idx(x), bound)];
    assert lists == PartExpansions(rules, rank, [Idx(x)], bound) + [Expand(rules, rank, y)];
    assert lists[..1] == [Expand(rules, rank, x)];
  }

  /** Rules 2 and 3 give the two-letter words with equal and with different letters. */
  lemma ExamplePairs()
    ensures Ranked(ExampleRules(), ExampleRank())
    ensures Expand(ExampleRules(), ExampleRank(), 2) == ["aa", "bb"]
    ensures Expand(ExampleRules(), ExampleRank(), 3) == ["ab", "ba"]
  {
    ExampleLetters();
    PairRules(ExampleRules(), ExampleRank());
  }

  lemma PairRules(rules: Rules, rank: map<nat, nat>)
    requires Ranked(rules, rank) && 4 in rules && 5 in rules && rank[4] == 0 && rank[5] == 0
    requires Expand(rules, rank, 4) == ["a"] && Expand(rules, rank, 5) == ["b"]
    requires 2 in rules && rules[2] == [[Idx(4), Idx(4)], [Idx(5), Idx(5)]] && rank[2] == 1
    requires 3 in rules && rules[3] == [[Idx(4), Idx(5)], [Idx(5), Idx(4)]] && rank[3] == 1
    ensures Expand(rules, rank, 2) == ["aa", "bb"] && Expand(rules, rank, 3) == ["ab", "ba"]
  {
    TwoAlts(rules, rank, 2, [Idx(4), Idx(4)], [Idx(5), Idx(5)]);
    TwoParts(rules, rank, 4, 4, 2);
    TwoParts(rules, rank, 5, 5, 2);
    TwoAlts(rules, rank, 3, [Idx(4), Idx(5)], [Idx(5), Idx(4)]);
    TwoParts(rules, rank, 4, 5, 2);
    TwoParts(rules, rank, 5, 4, 2);
    CombineOne("a", "a");
    CombineOne("b", "b");
    CombineOne("a", "b");
    CombineOne("b", "a");
    assert "a" + "a" == "aa" && "b" + "b" == "bb" && "a" + "b" == "ab" && "b" + "a" == "ba";
  }

  lemma CombineOne(x: string, y: string)
    ensures Combine([x], [y]) == [x + y]
  {
    assert Combine([x], [y]) == Prepend(x, [y]) + Combine([], [y]);
  }

  lemma CombineTwo(x1: string, x2: string, y1: string, y2: string)
    ensures Combine([x1, x2], [y1, y2]) == [x1 + y1, x1 + y2, x2 + y1, x2 + y2]
  {
    assert [x1, x2][1..] == [x2];
    assert Combine([x2], [y1, y2]) == Prepend(x2, [y1, y2]) + Combine([], [y1, y2]);
  }

  /** Every string of `xs` followed by `y`. */
  lemma {:induction false} CombineLast(xs: seq<string>, y: string)
    ensures |Combine(xs, [y])| == |xs|
    ensures forall i :: 0 <= i < |xs| ==> Combine(xs, [y])[i] == xs[i] + y
    decreases |xs|
  {
    if xs != [] {
      CombineLast(xs[1..], y);
    }
  }

  lemma ThreeParts(rules: Rules, rank: map<nat, nat>, x: nat, y: nat, z: nat, bound: nat)
    requires Ranked(rules, rank)
    requires Height(rules, rank, x) < bound && Height(rules, rank, y) < bound && Height(rules, rank, z) < bound
    ensures PartsBelow(rules, rank, [Idx(x), Idx(y), Idx(z)], bound)
    ensures Products(PartExpansions(rules, rank, [Idx(x), Idx(y), Idx(z)], bound))
         == Combine(Combine(Expand(rules, rank, x), Expand(rules, rank, y)), Expand(rules, rank, z))
  {
    var parts := [Idx(x), Idx(y), Idx(z)];
    assert forall k :: 0 <= k < 3 ==> parts[k] == Idx(x) || parts[k] == Idx(y) || parts[k] == Idx(z);
    TwoParts(rules, rank, x, y, bound);
    assert parts[..2] == [Idx(x), Idx(y)];
    var lists := PartExpansions(rules, rank, parts, bound);
    assert PartExpansion(rules, rank, Idx(z), bound) == Expand(rules, rank, z);
    assert lists == PartExpansions(rules, rank, [Idx(x), Idx(y)], bound) + [Expand(rules, rank, z)];
    assert lists[..2] == PartExpansions(rules, rank, [Idx(x), Idx(y)], bound);
  }

  lemma OneAlt(rules: Rules, rank: map<nat, nat>, idx: nat, p: Alternative)
    requires Ranked(rules, rank) && idx in rules && rules[idx] == [p]
    ensures PartsBelow(rules, rank, p, Height(rules, rank, idx))
    ensures Expand(rules, rank, idx) == Products(PartExpansions(rules, rank, p, Height(rules, rank, idx)))
  {
    var h := Height(rules, rank, idx);
    assert AltsBelow(rules, rank, [p], h);
    assert [p][0] == p && [p][..0] == [];
    assert ExpandAlts(rules, rank, [p], h) == ExpandAlts(rules, rank, [], h) + Products(PartExpansions(rules, rank, p, h));
  }

  /** Rule 1 gives the eight four-letter middles. */
  lemma MiddleRule(rules: Rules, rank: map<nat, nat>)
    requires Ranked(rules, rank) && 2 in rules && 3 in rules && rank[2] == 1 && rank[3] == 1
    requires Expand(rules, rank, 2) == ["aa", "bb"] && Expand(rules, rank, 3) == ["ab", "ba"]
    requires 1 in rules && rules[1] == [[Idx(2), Idx(3)], [Idx(3), Idx(2)]] && rank[1] == 2
    ensures Expand(rules, rank, 1) == ["aaab", "aaba", "bbab", "bbba", "abaa", "abbb", "baaa", "babb"]
  {
    TwoAlts(rules, rank, 1, [Idx(2), Idx(3)], [Idx(3), Idx(2)]);
    TwoParts(rules, rank, 2, 3, 3);
    TwoParts(rules, rank, 3, 2, 3);
    CombineTwo("aa", "bb", "ab", "ba");
    CombineTwo("ab", "ba", "aa", "bb");
    assert "aa" + "ab" == "aaab" && "aa" + "ba" == "aaba" && "bb" + "ab" == "bbab" && "bb" + "ba" == "bbba";
    assert "ab" + "aa" == "abaa" && "ab" + "bb" == "abbb" && "ba" + "aa" == "baaa" && "ba" + "bb" == "babb";
  }

  /** Rule 0 puts an "a" before and a "b" after each middle. */
  lemma TopRule(rules: Rules, rank: map<nat, nat>)
    requires Ranked(rules, rank) && 4 in rules && 5 in rules && 1 in rules
    requires rank[4] == 0 && rank[5] == 0 && rank[1] == 2
    requires Expand(rules, rank, 4) == ["a"] && Expand(rules, rank, 5) == ["b"]
    requires Expand(rules, rank, 1) == ["aaab", "aaba", "bbab", "bbba", "abaa", "abbb", "baaa", "babb"]
    requires 0 in rules && rules[0] == [[Idx(4), Idx(1), Idx(5)]] && rank[0] == 3
    ensures Expand(rules, rank, 0) == ["aaaabb", "aaabab", "abbabb", "abbbab", "aabaab", "aabbbb", "abaaab", "ababbb"]
  {
    OneAlt(rules, rank, 0, [Idx(4), Idx(1), Idx(5)]);
    ThreeParts(rules, rank, 4, 1, 5, 4);
    Wrap(Expand(rules, rank, 1), "a", "b");
    WrapMiddles(Expand(rules, rank, 1), Combine(Combine(["a"], Expand(rules, rank, 1)), ["b"]));
  }

  /** Combining with single strings on both sides wraps each string. */
  lemma Wrap(ms: seq<string>, x: string, y: string)
    ensures |Combine(Combine([x], ms), [y])| == |ms|
    ensures forall i :: 0 <= i < |ms| ==> Combine(Combine([x], ms), [y])[i] == x + ms[i] + y
  {
    var front := Combine([x], ms);
    assert [x][1..] == [];
    assert front == Prepend(x, ms) + Combine([], ms);
    CombineLast(front, y);
  }

  lemma WrapMiddles(ms: seq<string>, r: seq<string>)
    requires ms == ["aaab", "aaba", "bbab", "bbba", "abaa", "abbb", "baaa", "babb"]
    requires |r| == |ms| && forall i :: 0 <= i < |ms| ==> r[i] == "a" + ms[i] + "b"
    ensures r == ["aaaabb", "aaabab", "abbabb", "abbbab", "aabaab", "aabbbb", "abaaab", "ababbb"]
  {
    assert r[0] == "a" + "aaab" + "b" == "aaaabb";
    assert r[1] == "a" + "aaba" + "b" == "aaabab";
    assert r[2] == "a" + "bbab" + "b" == "abbabb";
    assert r[3] == "a" + "bbba" + "b" == "abbbab";
    assert r[4] == "a" + "abaa" + "b" == "aabaab";
    assert r[5] == "a" + "abbb" + "b" == "aabbbb";
    assert r[6] == "a" + "baaa" + "b" == "abaaab";
    assert r[7] == "a" + "babb" + "b" == "ababbb";
  }

  /** The puzzle's example: rule 0 matches exactly eight messages. */
  lemma ExampleLanguage()
    ensures Ranked(ExampleRules(), ExampleRank())
    ensures forall s :: (Derives(ExampleRules(), ExampleRank(), 0, s)
                         <==> s in ["aaaabb", "aaabab", "abbabb", "abbbab", "aabaab", "aabbbb", "abaaab", "ababbb"])
  {
    ExampleLetters();
    ExamplePairs();
    LanguageOf(ExampleRules(), ExampleRank());
  }

  lemma LanguageOf(rules: Rules, rank: map<nat, nat>)
    requires Ranked(rules, rank) && 4 in rules && 5 in rules && rank[4] == 0 && rank[5] == 0
    requires Expand(rules, rank, 4) == ["a"] && Expand(rules, rank, 5) == ["b"]
    requires 2 in rules && 3 in rules && rank[2] == 1 && rank[3] == 1
    requires Expand(rules, rank, 2) == ["aa", "bb"] && Expand(rules, rank, 3) == ["ab", "ba"]
    requires 1 in rules && rules[1] == [[Idx(2), Idx(3)], [Idx(3), Idx(2)]] && rank[1] == 2
    requires 0 in rules && rules[0] == [[Idx(4), Idx(1), Idx(5)]] && rank[0] == 3
    ensures forall s :: (Derives(rules, rank, 0, s)
                         <==> s in ["aaaabb", "aaabab", "abbabb", "abbbab", "aabaab", "aabbbb", "abaaab", "ababbb"])
  {
    MiddleRule(rules, rank);
    TopRule(rules, rank);
    forall s
      ensures Derives(rules, rank, 0, s) <==> s in Expand(rules, rank, 0)
    {
      ExpandIff(rules, rank, 0, s);
    }
  }

  lemma ValidCountSnoc(rules: Rules, rank: map<nat, nat>, init: seq<string>, m: string)
    requires Ranked(rules, rank)
    ensures ValidCount(rules, rank, init + [m])
         == ValidCount(rules, rank, init) + if Derives(rules, rank, 0, m) then 1 else 0
  {
    assert (init + [m])[..|init|] == init;
  }

  /** Of the example's five messages, two are valid. */
  lemma ExampleCount()
    ensures Ranked(ExampleRules(), ExampleRank())
    ensures ValidCount(ExampleRules(), ExampleRank(), ["ababbb", "bababa", "abbbab", "aaabbb", "aaaabbb"]) == 2
  {
    ExampleLanguage();
    CountOf(ExampleRules(), ExampleRank());
  }

  lemma CountOf(rules: Rules, rank: map<nat, nat>)
    requires Ranked(rules, rank)
    requires forall s :: (Derives(rules, rank, 0, s)
                          <==> s in ["aaaabb", "aaabab", "abbabb", "abbbab", "aabaab", "aabbbb", "abaaab", "ababbb"])
    ensures ValidCount(rules, rank, ["ababbb", "bababa", "abbbab", "aaabbb", "aaaabbb"]) == 2
  {
    assert Derives(rules, rank, 0, "ababbb") && Derives(rules, rank, 0, "abbbab");
    assert !Derives(rules, rank, 0, "bababa") by { assert "bababa"[0] == 'b'; }
    assert !Derives(rules, rank, 0, "aaabbb") by { assert "aaabbb"[3] == 'b'; }
    assert !Derives(rules, rank, 0, "aaaabbb") by { assert |"aaaabbb"| == 7; }
    FiveCount(rules, rank, "ababbb", "bababa", "abbbab", "aaabbb", "aaaabbb");
  }

  lemma FiveCount(rules: Rules, rank: map<nat, nat>, m1: string, m2: string, m3: string, m4: string, m5: string)
    requires Ranked(rules, rank)
    requires Derives(rules, rank, 0, m1) && Derives(rules, rank, 0, m3)
    requires !Derives(rules, rank, 0, m2) && !Derives(rules, rank, 0, m4) && !Derives(rules, rank, 0, m5)
    ensures ValidCount(rules, rank, [m1, m2, m3, m4, m5]) == 2
  {
    ValidCountSnoc(rules, rank, [], m1);
    ValidCountSnoc(rules, rank, [m1], m2);
    ValidCountSnoc(rules, rank, [m1, m2], m3);
    ValidCountSnoc(rules, rank, [m1, m2, m3], m4);
    ValidCountSnoc(rules, rank, [m1, m2, m3, m4], m5);
    assert [m1] + [m2] == [m1, m2] && [m1, m2] + [m3] == [m1, m2, m3];
    assert [m1, m2, m3] + [m4] == [m1, m2, m3, m4] && [m1, m2, m3, m4] + [m5] == [m1, m2, m3, m4, m5];
    assert [] + [m1] == [m1];
  }
}
