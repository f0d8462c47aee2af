/**
 * Day 16, part one: ticket translation. The input has three sections:
 * field rules (`class: 1-3 or 5-7`), "your ticket:" followed by a
 * comma-separated list of numbers, and "nearby tickets:" followed by one
 * such list per line. The ticket scanning error rate is the sum of the
 * values on the nearby tickets that no rule admits.
 *
 * `parse` reads the lines with a three-state machine; the sections are
 * told apart only by the two header lines.
 */
module Day16a {
  import opened Common

  /* ---------------------------------------------------------------- */
  /* Rules and tickets                                                 */
  /* ---------------------------------------------------------------- */

  /** `RangeInclusive<u32>`: `lo..=hi`, empty when `lo > hi`. */
  datatype Range = Range(lo: nat, hi: nat)

  predicate Contains(r: Range, n: nat) { r.lo <= n <= r.hi }

  /** The two ranges of a field. */
  datatype Rule = Rule(first: Range, second: Range)

  predicate Satisfies(rule: Rule, n: nat) { Contains(rule.first, n) || Contains(rule.second, n) }

  /** `FieldRules`: the rule of each field, by name. */
  type FieldRules = map<string, Rule>

  type Ticket = seq<nat>

  /** Some field's rule admits `n`. */
  predicate FitsAny(rules: FieldRules, n: nat) {
    exists f :: f in rules && Satisfies(rules[f], n)
  }

  /* ---------------------------------------------------------------- */
  /* The ticket scanning error rate                                    */
  /* ---------------------------------------------------------------- */

  /** The values of one ticket that no rule admits, summed in order. */
  function TicketErrorRate(rules: FieldRules, t: Ticket): (r: nat)
    ensures r <= Sum(t)
  {
    if |t| == 0 then 0
    else ValueError(rules, t[0]) + TicketErrorRate(rules, t[1..])
  }

  /** What one value adds to the error rate: itself when no rule admits it. */
  function ValueError(rules: FieldRules, n: nat): nat {
    if FitsAny(rules, n) then 0 else n
  }

  /** Every value that no rule admits is part of its ticket's error rate. */
  lemma {:induction false} TicketErrorRateCounts(rules: FieldRules, t: Ticket, i: nat)
    requires i < |t| && !FitsAny(rules, t[i])
    ensures t[i] <= TicketErrorRate(rules, t)
    decreases i
  {
    if i > 0 {
      assert t[1..][i - 1] == t[i];
      TicketErrorRateCounts(rules, t[1..], i - 1);
    }
  }

  /**
   * A ticket adds nothing exactly when each of its values that no rule
   * admits is 0: a 0 outside every range goes unnoticed.
   */
  lemma {:induction false} TicketErrorRateZero(rules: FieldRules, t: Ticket)
    ensures TicketErrorRate(rules, t) == 0 <==> forall i :: 0 <= i < |t| && !FitsAny(rules, t[i]) ==> t[i] == 0
  {
    if |t| > 0 {
      TicketErrorRateZero(rules, t[1..]);
      if TicketErrorRate(rules, t) == 0 {
        forall i | 0 <= i < |t| && !FitsAny(rules, t[i])
          ensures t[i] == 0
        {
          TicketErrorRateCounts(rules, t, i);
        }
      } else {
        if TicketErrorRate(rules, t[1..]) == 0 {
          assert !FitsAny(rules, t[0]) && t[0] != 0;
        } else {
          var i :| 0 <= i < |t[1..]| && !FitsAny(rules, t[1..][i]) && t[1..][i] != 0;
          assert t[i + 1] == t[1..][i];
        }
      }
    }
  }

  /** `determine_ticket_scanning_error_rate`: the error rates of all tickets, summed. */
  function ErrorRate(rules: FieldRules, tickets: seq<Ticket>): nat {
    if |tickets| == 0 then 0
    else TicketErrorRate(rules, tickets[0]) + ErrorRate(rules, tickets[1..])
  }

  /** The error rate is additive over a split of the tickets. */
  lemma {:induction false} ErrorRateAppend(rules: FieldRules, a: seq<Ticket>, b: seq<Ticket>)
    ensures ErrorRate(rules, a + b) == ErrorRate(rules, a) + ErrorRate(rules, b)
  {
    if |a| > 0 {
      assert (a + b)[0] == a[0];
      assert (a + b)[1..] == a[1..] + b;
      ErrorRateAppend(rules, a[1..], b);
    } else {
      assert a + b == b;
    }
  }

  /** The error rate is 0 exactly when every value outside all rules is 0. */
  lemma {:induction false} ErrorRateZero(rules: FieldRules, tickets: seq<Ticket>)
    ensures ErrorRate(rules, tickets) == 0 <==>
      forall k, i :: 0 <= k < |tickets| && 0 <= i < |tickets[k]| && !FitsAny(rules, tickets[k][i]) ==> tickets[k][i] == 0
  {
    if |tickets| > 0 {
      ErrorRateZero(rules, tickets[1..]);
      TicketErrorRateZero(rules, tickets[0]);
      if ErrorRate(rules, tickets) != 0 {
        if TicketErrorRate(rules, tickets[0]) == 0 {
          var k, i :| 0 <= k < |tickets[1..]| && 0 <= i < |tickets[1..][k]|
            && !FitsAny(rules, tickets[1..][k][i]) && tickets[1..][k][i] != 0;
          assert tickets[k + 1] == tickets[1..][k];
        }
      } else {
        forall k, i | 0 <= k < |tickets| && 0 <= i < |tickets[k]| && !FitsAny(rules, tickets[k][i])
          ensures tickets[k][i] == 0
        {
          if k > 0 {
            assert tickets[k] == tickets[1..][k - 1];
          }
        }
      }
    }
  }

  /* ---------------------------------------------------------------- */
  /* Parsing a rule line                                               */
  /* ---------------------------------------------------------------- */

  /** `{d}-{d}`: two u32s around a '-'. */
  function ParseRange(s: string): (r: Option<Range>)
    ensures r.Some? ==> r.value.lo < U32_LIMIT && r.value.hi < U32_LIMIT
  {
    match SplitOnce(s, "-")
    case None => None
    case Some((a, b)) =>
      match (ParseUnsigned(a, U32_LIMIT), ParseUnsigned(b, U32_LIMIT))
      case (Some(lo), Some(hi)) => Some(Range(lo, hi))
      case _ => None
  }

  /**
   * The accepted shape of `{[^:]}: {d}-{d} or {d}-{d}`: a non-empty name
   * up to the first ':', then ": ", a range, " or " and a range.
   */
  function ParseRule(line: string): (r: Option<(string, Rule)>)
    ensures r.Some? ==> |r.value.0| > 0 && ':' !in r.value.0
  {
    match SplitOnce(line, ":")
    case None => None
    case Some((name, rest)) =>
      if |name| == 0 || |rest| == 0 || rest[0] != ' ' then None
      else match SplitOnce(rest[1..], " or ")
        case None => None
        case Some((a, b)) =>
          match (ParseRange(a), ParseRange(b))
          case (Some(first), Some(second)) =>
            SplitOnceNameHasNoColon(line, name, rest);
            Some((name, Rule(first, second)))
          case _ => None
  }

  lemma SplitOnceNameHasNoColon(line: string, name: string, rest: string)
    requires SplitOnce(line, ":") == Some((name, rest))
    ensures ':' !in name
  {
    if ':' in name {
      var k :| 0 <= k < |name| && name[k] == ':';
      assert line[k..k + 1] == [name[k]];
      assert OccursAt(line, ":", k);
    }
  }

  /** A range as the input writes it. */
  function FormatRange(r: Range): string {
    ToDecimal(r.lo) + "-" + ToDecimal(r.hi)
  }

  /** A rule line as the input writes it. */
  function FormatRule(name: string, rule: Rule): string {
    name + ": " + FormatRange(rule.first) + " or " + FormatRange(rule.second)
  }

  /** A pattern whose first character is absent from `head` is first found right after `head`. */
  lemma SplitOnceAt(head: string, pat: string, rest: string)
    requires |pat| > 0 && pat[0] !in head
    ensures SplitOnce(head + pat + rest, pat) == Some((head, rest))
  {
    var s := head + pat + rest;
    assert s[|head|..|head| + |pat|] == pat;
    assert OccursAt(s, pat, |head|);
    forall k: nat | k < |head|
      ensures !OccursAt(s, pat, k)
    {
      assert s[k] == head[k];
      if k + |pat| <= |s| {
        assert s[k..k + |pat|][0] == s[k];
      }
    }
    assert s[..|head|] == head;
    assert s[|head| + |pat|..] == rest;
  }

  /** A range of u32s parses back from its written form. */
  lemma ParseFormatRange(r: Range)
    requires r.lo < U32_LIMIT && r.hi < U32_LIMIT
    ensures ParseRange(FormatRange(r)) == Some(r)
  {
    var a, b := ToDecimal(r.lo), ToDecimal(r.hi);
    DecimalOfToDecimal(r.lo);
    DecimalOfToDecimal(r.hi);
    SplitOnceAt(a, "-", b);
    ParseUnsignedToDecimal(r.lo, U32_LIMIT);
    ParseUnsignedToDecimal(r.hi, U32_LIMIT);
  }

  /** A written range holds no space, so " or " is first found after it. */
  lemma FormatRangeNoSpace(r: Range)
    ensures ' ' !in FormatRange(r)
  {
    var a, b := ToDecimal(r.lo), ToDecimal(r.hi);
    DecimalOfToDecimal(r.lo);
    DecimalOfToDecimal(r.hi);
    forall i | 0 <= i < |FormatRange(r)|
      ensures FormatRange(r)[i] != ' '
    {
      if i < |a| {
        assert FormatRange(r)[i] == a[i];
      } else if i > |a| {
        assert FormatRange(r)[i] == b[i - |a| - 1];
      }
    }
  }

  /** Every rule with a name free of ':' and u32 bounds parses back from its line. */
  lemma ParseFormatRule(name: string, rule: Rule)
    requires |name| > 0 && ':' !in name
    requires rule.first.lo < U32_LIMIT && rule.first.hi < U32_LIMIT
    requires rule.second.lo < U32_LIMIT && rule.second.hi < U32_LIMIT
    ensures ParseRule(FormatRule(name, rule)) == Some((name, rule))
  {
    var a, b := FormatRange(rule.first), FormatRange(rule.second);
    var tail := a + " or " + b;
    var rest := " " + tail;
    var line := FormatRule(name, rule);
    assert line == name + ":" + rest;
    SplitOnceAt(name, ":", rest);
    assert SplitOnce(line, ":") == Some((name, rest));
    ParseFormatRange(rule.first);
    ParseFormatRange(rule.second);
    FormatRangeNoSpace(rule.first);
    assert rest[1..] == tail;
    SplitOnceAt(a, " or ", b);
    assert SplitOnce(rest[1..], " or ") == Some((a, b));
  }

  /* ---------------------------------------------------------------- */
  /* Parsing a ticket line                                             */
  /* ---------------------------------------------------------------- */

  /** Each piece as a u32, or `None` at the first that is not one. */
  function ParseValues(pieces: seq<string>): (r: Option<Ticket>)
    ensures r.Some? <==> forall i :: 0 <= i < |pieces| ==> ParseUnsigned(pieces[i], U32_LIMIT).Some?
    ensures r.Some? ==> |r.value| == |pieces|
    ensures r.Some? ==> forall i :: 0 <= i < |pieces| ==> ParseUnsigned(pieces[i], U32_LIMIT) == Some(r.value[i])
  {
    if |pieces| == 0 then Some([])
    else match (ParseUnsigned(pieces[0], U32_LIMIT), ParseValues(pieces[1..]))
      case (Some(v), Some(vs)) =>
        assert forall i :: 1 <= i < |pieces| ==> pieces[i] == pieces[1..][i - 1];
        Some([v] + vs)
      case (None, _) => None
      case (_, None) =>
        assert forall i :: 0 <= i < |pieces[1..]| ==> pieces[1..][i] == pieces[i + 1];
        None
  }

  /** `line.split(',')` with each piece parsed as a u32; `None` is the `unwrap` panic. */
  function ParseTicket(line: string): (r: Option<Ticket>)
    ensures r.Some? ==> forall i :: 0 <= i < |r.value| ==> r.value[i] < U32_LIMIT
  {
    var r := ParseValues(Split(line, ','));
    if r.Some? then
      assert forall i :: 0 <= i < |r.value| ==> ParseUnsigned(Split(line, ',')[i], U32_LIMIT) == Some(r.value[i]);
      r
    else r
  }

  /** A ticket as the input writes it: its values in decimal, separated by commas. */
  function FormatTicket(t: Ticket): string {
    if |t| == 0 then "" else Join(seq(|t|, i requires 0 <= i < |t| => ToDecimal(t[i])), ',')
  }

  /** Every non-empty ticket of u32s parses back from its line. */
  lemma ParseFormatTicket(t: Ticket)
    requires |t| > 0 && forall i :: 0 <= i < |t| ==> t[i] < U32_LIMIT
    ensures ParseTicket(FormatTicket(t)) == Some(t)
  {
    var pieces := seq(|t|, i requires 0 <= i < |t| => ToDecimal(t[i]));
    forall k | 0 <= k < |pieces|
      ensures ',' !in pieces[k]
      ensures ParseUnsigned(pieces[k], U32_LIMIT) == Some(t[k])
    {
      DecimalOfToDecimal(t[k]);
      ParseUnsignedToDecimal(t[k], U32_LIMIT);
    }
    SplitJoin(pieces, ',');
    var r := ParseValues(pieces);
    assert r.Some?;
    assert r.value == t;
  }

  /* ---------------------------------------------------------------- */
  /* The section state machine                                         */
  /* ---------------------------------------------------------------- */

  datatype State = Rules | MyTicket | NearbyTickets

  /** The fold's accumulator and the `state` variable it mutates. */
  datatype Parsed = Parsed(state: State, rules: FieldRules, myTicket: Ticket, nearbyTickets: seq<Ticket>)

  function Start(): Parsed {
    Parsed(Rules, map[], [], [])
  }

  /**
   * One line of `parse`, trimmed: a blank line changes nothing; a line
   * starting "your ticket" or "nearby tickets" switches the state,
   * whatever it was; otherwise a rule line in the Rules state adds or
   * replaces its field (other lines are skipped there), and in a ticket
   * state the line is a ticket that replaces my ticket or joins the
   * nearby ones. `None` is the `unwrap` panic on a line that is not a
   * list of u32s.
   */
  function ParseStep(p: Parsed, raw: string): (r: Option<Parsed>)
    ensures r.None? ==> p.state != Rules
    ensures r.Some? && p.state != Rules ==> r.value.state != Rules && r.value.rules == p.rules
    ensures r.Some? ==> p.nearbyTickets <= r.value.nearbyTickets
  {
    var line := Trim(raw);
    if |line| == 0 then Some(p)
    else if StartsWith(line, "your ticket") then Some(p.(state := MyTicket))
    else if StartsWith(line, "nearby tickets") then Some(p.(state := NearbyTickets))
    else ParseContent(p, line)
  }

  /** A trimmed line that is neither blank nor a header: a rule or a ticket, by state. */
  function ParseContent(p: Parsed, line: string): (r: Option<Parsed>)
    ensures r.None? ==> p.state != Rules
    ensures r.Some? && p.state != Rules ==> r.value.state != Rules && r.value.rules == p.rules
    ensures r.Some? ==> p.nearbyTickets <= r.value.nearbyTickets
  {
    match p.state
    case Rules =>
      (match ParseRule(line)
       case None => Some(p)
       case Some((name, rule)) => Some(p.(rules := p.rules[name := rule])))
    case _ =>
      match ParseTicket(line)
      case None => None
      case Some(t) =>
        if p.state == MyTicket then Some(p.(myTicket := t))
        else Some(p.(nearbyTickets := p.nearbyTickets + [t]))
  }

  /** A line that is its own trim, not blank and not a header is read as content. */
  lemma ContentStep(p: Parsed, line: string)
    requires |line| > 0 && Trim(line) == line
    requires !StartsWith(line, "your ticket") && !StartsWith(line, "nearby tickets")
    ensures ParseStep(p, line) == ParseContent(p, line)
  {
  }

  /** The fold over the lines, `None` once one panics. */
  function ParseFrom(p: Parsed, lines: seq<string>): Option<Parsed>
    decreases |lines|
  {
    if |lines| == 0 then Some(p)
    else match ParseStep(p, lines[0])
      case None => None
      case Some(q) => ParseFrom(q, lines[1..])
  }

  /** Parsing `a + b` is parsing `a`, then `b`. */
  lemma {:induction false} ParseFromAppend(p: Parsed, a: seq<string>, b: seq<string>)
    ensures ParseFrom(p, a + b) == match ParseFrom(p, a) case None => None case Some(q) => ParseFrom(q, b)
    decreases |a|
  {
    if |a| > 0 {
      assert (a + b)[0] == a[0];
      assert (a + b)[1..] == a[1..] + b;
      match ParseStep(p, a[0])
      case None =>
      case Some(q) => ParseFromAppend(q, a[1..], b);
    } else {
      assert a + b == b;
    }
  }

  /** Once a ticket header is read, the rules are final and the state never returns to Rules. */
  lemma {:induction false} RulesFrozen(p: Parsed, lines: seq<string>)
    requires p.state != Rules
    ensures ParseFrom(p, lines).Some? ==>
      ParseFrom(p, lines).value.state != Rules && ParseFrom(p, lines).value.rules == p.rules
    decreases |lines|
  {
    if |lines| > 0 {
      match ParseStep(p, lines[0])
      case None =>
      case Some(q) => RulesFrozen(q, lines[1..]);
    }
  }

  /** Nearby tickets are only ever appended: the earlier ones stay, in order. */
  lemma {:induction false} NearbyTicketsGrow(p: Parsed, lines: seq<string>)
    ensures ParseFrom(p, lines).Some? ==> p.nearbyTickets <= ParseFrom(p, lines).value.nearbyTickets
    decreases |lines|
  {
    if |lines| > 0 {
      match ParseStep(p, lines[0])
      case None =>
      case Some(q) => NearbyTicketsGrow(q, lines[1..]);
    }
  }

  /**
   * `parse`: the fold over the lines, mutating `state` and the three
   * collections; `None` is the panic on a bad ticket line.
   */
  method Parse(lines: seq<string>) returns (r: Option<(FieldRules, Ticket, seq<Ticket>)>)
    ensures r == match ParseFrom(Start(), lines)
      case None => None
      case Some(p) => Some((p.rules, p.myTicket, p.nearbyTickets))
  {
    var state := Rules;
    var rules: FieldRules := map[];
    var myTicket: Ticket := [];
    var nearbyTickets: seq<Ticket> := [];
    for i := 0 to |lines|
      invariant ParseFrom(Start(), lines) == ParseFrom(Parsed(state, rules, myTicket, nearbyTickets), lines[i..])
    {
      ghost var before := Parsed(state, rules, myTicket, nearbyTickets);
      assert lines[i..][0] == lines[i] && lines[i..][1..] == lines[i + 1..];
      var line := Trim(lines[i]);
      if |line| == 0 {
      } else if StartsWith(line, "your ticket") {
        state := MyTicket;
      } else if StartsWith(line, "nearby tickets") {
        state := NearbyTickets;
      } else if state == Rules {
        var rule := ParseRule(line);
        if rule.Some? {
          rules := rules[rule.value.0 := rule.value.1];
        }
      } else {
        var ticket := ParseTicket(line);
        if ticket.None? {
          return None;
        }
        if state == MyTicket {
          myTicket := ticket.value;
        } else {
          nearbyTickets := nearbyTickets + [ticket.value];
        }
      }
      assert ParseStep(before, lines[i]) == Some(Parsed(state, rules, myTicket, nearbyTickets));
    }
    assert lines[|lines|..] == [];
    return Some((rules, myTicket, nearbyTickets));
  }

  /* ---------------------------------------------------------------- */
  /* Parsing a whole input                                             */
  /* ---------------------------------------------------------------- */

  /** A field name the rule shape reads back: non-empty, no ':', no leading whitespace, not a header. */
  predicate GoodName(name: string) {
    |name| > 0 && ':' !in name && !IsWhitespace(name[0])
    && !StartsWith(name, "your ticket") && !StartsWith(name, "nearby tickets")
  }

  predicate GoodRule(rule: Rule) {
    rule.first.lo < U32_LIMIT && rule.first.hi < U32_LIMIT
    && rule.second.lo < U32_LIMIT && rule.second.hi < U32_LIMIT
  }

  predicate GoodTicket(t: Ticket) {
    |t| > 0 && forall i :: 0 <= i < |t| ==> t[i] < U32_LIMIT
  }

  /** Every rule of the list can be written and read back. */
  predicate GoodRules(rules: seq<(string, Rule)>) {
    forall i :: 0 <= i < |rules| ==> GoodName(rules[i].0) && GoodRule(rules[i].1)
  }

  predicate GoodTickets(tickets: seq<Ticket>) {
    forall k :: 0 <= k < |tickets| ==> GoodTicket(tickets[k])
  }

  /** The rules in the order they are written, each replacing an earlier one of the same name. */
  function Insert(m: FieldRules, rules: seq<(string, Rule)>): FieldRules
    decreases |rules|
  {
    if |rules| == 0 then m else Insert(m[rules[0].0 := rules[0].1], rules[1..])
  }

  function RuleLines(rules: seq<(string, Rule)>): seq<string> {
    seq(|rules|, i requires 0 <= i < |rules| => FormatRule(rules[i].0, rules[i].1))
  }

  function TicketLines(tickets: seq<Ticket>): seq<string> {
    seq(|tickets|, k requires 0 <= k < |tickets| => FormatTicket(tickets[k]))
  }

  /** The input as the puzzle writes it: the rules, my ticket and the nearby tickets, each under its header. */
  function FormatInput(rules: seq<(string, Rule)>, mine: Ticket, nearby: seq<Ticket>): seq<string> {
    RuleLines(rules) + MiddleLines(mine) + TicketLines(nearby)
  }

  /** The lines between the rules and the nearby tickets: my ticket under its header, then the nearby header. */
  function MiddleLines(mine: Ticket): seq<string> {
    ["", "your ticket:", FormatTicket(mine), "", "nearby tickets:"]
  }

  /** A line that is a name without `pat`'s character ':' followed by ':' cannot start with `pat`. */
  lemma NotHeader(name: string, rest: string, pat: string)
    requires ':' !in name && ':' !in pat && !StartsWith(name, pat)
    ensures !StartsWith(name + ":" + rest, pat)
  {
    var line := name + ":" + rest;
    if |pat| <= |name| {
      assert line[..|pat|] == name[..|pat|];
    } else {
      assert line[|name|] == ':';
    }
  }

  /** A written rule line is its own trim. */
  lemma RuleLineShape(name: string, rule: Rule)
    requires GoodName(name) && GoodRule(rule)
    ensures var line := FormatRule(name, rule);
      |line| > 0 && Trim(line) == line
  {
    var line := FormatRule(name, rule);
    var hi := ToDecimal(rule.second.hi);
    DecimalOfToDecimal(rule.second.hi);
    var front := name + ": " + FormatRange(rule.first) + " or " + ToDecimal(rule.second.lo) + "-";
    assert line == front + hi;
    assert line[|line| - 1] == hi[|hi| - 1];
    assert line[0] == name[0];
    TrimUnchanged(line);
  }

  /** A rule line names no header. */
  lemma RuleLineNotHeader(name: string, rule: Rule)
    requires GoodName(name)
    ensures var line := FormatRule(name, rule);
      !StartsWith(line, "your ticket") && !StartsWith(line, "nearby tickets")
  {
    var rest := " " + FormatRange(rule.first) + " or " + FormatRange(rule.second);
    assert FormatRule(name, rule) == name + ":" + rest;
    NotHeader(name, rest, "your ticket");
    NotHeader(name, rest, "nearby tickets");
  }

  /** A rule line in the Rules state adds its field. */
  lemma RuleLineStep(p: Parsed, name: string, rule: Rule)
    requires p.state == Rules && GoodName(name) && GoodRule(rule)
    ensures ParseStep(p, FormatRule(name, rule)) == Some(p.(rules := p.rules[name := rule]))
  {
    RuleLineShape(name, rule);
    RuleLineNotHeader(name, rule);
    ContentStep(p, FormatRule(name, rule));
    ParseFormatRule(name, rule);
  }

  /** The rule lines, read in the Rules state, insert their fields in order. */
  lemma {:induction false} RuleLinesParse(p: Parsed, rules: seq<(string, Rule)>)
    requires p.state == Rules && GoodRules(rules)
    ensures ParseFrom(p, RuleLines(rules)) == Some(p.(rules := Insert(p.rules, rules)))
    decreases |rules|
  {
    var lines := RuleLines(rules);
    if |rules| > 0 {
      RuleLineStep(p, rules[0].0, rules[0].1);
      assert lines[0] == FormatRule(rules[0].0, rules[0].1);
      assert lines[1..] == RuleLines(rules[1..]);
      RuleLinesParse(p.(rules := p.rules[rules[0].0 := rules[0].1]), rules[1..]);
    }
  }

  /** A written ticket is its own trim and starts with a digit. */
  lemma TicketLineShape(t: Ticket)
    requires GoodTicket(t)
    ensures var line := FormatTicket(t); |line| > 0 && Trim(line) == line && IsDigit(line[0])
  {
    var pieces := seq(|t|, i requires 0 <= i < |t| => ToDecimal(t[i]));
    var line := FormatTicket(t);
    DecimalOfToDecimal(t[0]);
    DecimalOfToDecimal(t[|t| - 1]);
    var last := pieces[|pieces| - 1];
    JoinSuffix(pieces, ',');
    assert line[|line| - 1] == last[|last| - 1];
    if |pieces| == 1 {
      assert line == pieces[0];
    } else {
      assert line == pieces[0] + [','] + Join(pieces[1..], ',');
      assert line[0] == pieces[0][0];
    }
    TrimUnchanged(line);
  }

  /** A line starting with a digit is not a header. */
  lemma DigitNotHeader(line: string, pat: string)
    requires |line| > 0 && IsDigit(line[0]) && |pat| > 0 && !IsDigit(pat[0])
    ensures !StartsWith(line, pat)
  {
    if |pat| <= |line| {
      assert line[..|pat|][0] == line[0];
    }
  }

  /** A ticket line in a ticket state is parsed and stored. */
  lemma TicketLineStep(p: Parsed, t: Ticket)
    requires p.state != Rules && GoodTicket(t)
    ensures ParseStep(p, FormatTicket(t)) ==
      Some(if p.state == MyTicket then p.(myTicket := t) else p.(nearbyTickets := p.nearbyTickets + [t]))
  {
    var line := FormatTicket(t);
    TicketLineShape(t);
    DigitNotHeader(line, "your ticket");
    DigitNotHeader(line, "nearby tickets");
    ContentStep(p, line);
    ParseFormatTicket(t);
  }

  /** The nearby ticket lines from the `k`-th on, read in the NearbyTickets state, are appended in order. */
  lemma {:induction false} TicketLinesFrom(p: Parsed, tickets: seq<Ticket>, k: nat)
    requires p.state == NearbyTickets && k <= |tickets|
    requires GoodTickets(tickets)
    ensures ParseFrom(p, TicketLines(tickets)[k..]) == Some(p.(nearbyTickets := p.nearbyTickets + tickets[k..]))
    decreases |tickets| - k
  {
    var lines := TicketLines(tickets);
    if k < |tickets| {
      var t := tickets[k];
      var q := p.(nearbyTickets := p.nearbyTickets + [t]);
      TicketLineStep(p, t);
      ParseFromAt(p, lines, k, q);
      TicketLinesFrom(q, tickets, k + 1);
      AppendFrom(p.nearbyTickets, tickets, k);
    } else {
      assert tickets[k..] == [];
      assert p.nearbyTickets + [] == p.nearbyTickets;
    }
  }

  /** Appending `s[k]`, then `s[k + 1..]`, is appending `s[k..]`. */
  lemma AppendFrom<T>(a: seq<T>, s: seq<T>, k: nat)
    requires k < |s|
    ensures a + [s[k]] + s[k + 1..] == a + s[k..]
  {
    assert s[k..] == [s[k]] + s[k + 1..];
  }

  /** The nearby ticket lines, read in the NearbyTickets state, are appended in order. */
  lemma TicketLinesParse(p: Parsed, tickets: seq<Ticket>)
    requires p.state == NearbyTickets
    requires GoodTickets(tickets)
    ensures ParseFrom(p, TicketLines(tickets)) == Some(p.(nearbyTickets := p.nearbyTickets + tickets))
  {
    TicketLinesFrom(p, tickets, 0);
    assert TicketLines(tickets)[0..] == TicketLines(tickets);
    assert tickets[0..] == tickets;
  }

  /** Parsing `lines[k..]` is the step on `lines[k]`, then the rest. */
  lemma ParseFromAt(p: Parsed, lines: seq<string>, k: nat, q: Parsed)
    requires k < |lines| && ParseStep(p, lines[k]) == Some(q)
    ensures ParseFrom(p, lines[k..]) == ParseFrom(q, lines[k + 1..])
  {
    assert lines[k..][0] == lines[k] && lines[k..][1..] == lines[k + 1..];
  }

  /** Parsing the last line alone. */
  lemma ParseFromLast(p: Parsed, lines: seq<string>, q: Parsed)
    requires |lines| > 0 && ParseStep(p, lines[|lines| - 1]) == Some(q)
    ensures ParseFrom(p, lines[|lines| - 1..]) == Some(q)
  {
    var tail := lines[|lines| - 1..];
    assert tail[0] == lines[|lines| - 1];
    assert |tail[1..]| == 0;
  }

  /** A header line without surrounding whitespace switches the state; "your ticket" is tested first. */
  lemma HeaderLine(p: Parsed, line: string)
    requires |line| > 0 && !IsWhitespace(line[0]) && !IsWhitespace(line[|line| - 1])
    ensures StartsWith(line, "your ticket") ==> ParseStep(p, line) == Some(p.(state := MyTicket))
    ensures !StartsWith(line, "your ticket") && StartsWith(line, "nearby tickets") ==>
      ParseStep(p, line) == Some(p.(state := NearbyTickets))
  {
    TrimUnchanged(line);
  }

  /** The "your ticket:" header switches to MyTicket. */
  lemma MyTicketHeaderStep(p: Parsed)
    ensures ParseStep(p, "your ticket:") == Some(p.(state := MyTicket))
  {
    var h := "your ticket:";
    assert |h| == 12 && h[0] == 'y' && h[11] == ':';
    assert h[..11] == "your ticket";
    HeaderLine(p, h);
  }

  /** The "nearby tickets:" header switches to NearbyTickets. */
  lemma NearbyHeaderStep(p: Parsed)
    ensures ParseStep(p, "nearby tickets:") == Some(p.(state := NearbyTickets))
  {
    var h := "nearby tickets:";
    assert |h| == 15 && h[0] == 'n' && h[14] == ':';
    assert h[..11] != "your ticket" by { assert h[..11][0] == 'n'; }
    assert h[..14] == "nearby tickets";
    HeaderLine(p, h);
  }

  /** The first three of the five lines between the rules and the nearby tickets: a blank line, the header and my ticket. */
  lemma MiddleFront(p: Parsed, mine: Ticket, lines: seq<string>)
    requires p.state == Rules && GoodTicket(mine)
    requires |lines| == 5 && lines[0] == "" && lines[1] == "your ticket:" && lines[2] == FormatTicket(mine)
    ensures ParseFrom(p, lines) == ParseFrom(p.(state := MyTicket, myTicket := mine), lines[3..])
  {
    var q := p.(state := MyTicket);
    MyTicketHeaderStep(p);
    TicketLineStep(q, mine);
    assert lines[0..] == lines;
    ParseFromAt(p, lines, 0, p);
    ParseFromAt(p, lines, 1, q);
    ParseFromAt(q, lines, 2, q.(myTicket := mine));
  }

  /** The last two: a blank line and the nearby header. */
  lemma MiddleBack(r: Parsed, lines: seq<string>)
    requires |lines| == 5 && lines[3] == "" && lines[4] == "nearby tickets:"
    ensures ParseFrom(r, lines[3..]) == Some(r.(state := NearbyTickets))
  {
    NearbyHeaderStep(r);
    ParseFromAt(r, lines, 3, r);
    ParseFromLast(r, lines, r.(state := NearbyTickets));
  }

  /** The five lines between the rules and the nearby tickets. */
  lemma MiddleParse(p: Parsed, mine: Ticket)
    requires p.state == Rules && GoodTicket(mine)
    ensures ParseFrom(p, MiddleLines(mine)) ==
      Some(p.(state := NearbyTickets, myTicket := mine))
  {
    var lines := MiddleLines(mine);
    MiddleFront(p, mine, lines);
    MiddleBack(p.(state := MyTicket, myTicket := mine), lines);
  }

  /**
   * Every well-formed input parses back to its parts: the rules (a later
   * rule replacing an earlier one of the same name), my ticket and the
   * nearby tickets in order.
   */
  lemma ParseFormatInput(rules: seq<(string, Rule)>, mine: Ticket, nearby: seq<Ticket>)
    requires GoodRules(rules) && GoodTicket(mine) && GoodTickets(nearby)
    ensures ParseFrom(Start(), FormatInput(rules, mine, nearby)) ==
      Some(Parsed(NearbyTickets, Insert(map[], rules), mine, nearby))
  {
    var q := Parsed(NearbyTickets, Insert(map[], rules), mine, []);
    RulesAndMiddleParse(rules, mine);
    TicketLinesParse(q, nearby);
    assert q.nearbyTickets + nearby == nearby;
    ParseFromAppend(Start(), RuleLines(rules) + MiddleLines(mine), TicketLines(nearby));
  }

  /** The rule lines and the five middle lines leave the rules and my ticket read, in the NearbyTickets state. */
  lemma RulesAndMiddleParse(rules: seq<(string, Rule)>, mine: Ticket)
    requires GoodRules(rules) && GoodTicket(mine)
    ensures ParseFrom(Start(), RuleLines(rules) + MiddleLines(mine)) ==
      Some(Parsed(NearbyTickets, Insert(map[], rules), mine, []))
  {
    var p := Start().(rules := Insert(map[], rules));
    RuleLinesParse(Start(), rules);
    MiddleParse(p, mine);
    ParseFromAppend(Start(), RuleLines(rules), MiddleLines(mine));
  }

  /* ---------------------------------------------------------------- */
  /* The example                                                       */
  /* ---------------------------------------------------------------- */

  function ExampleRules(): FieldRules {
    map["class" := Rule(Range(1, 3), Range(5, 7)),
        "row" := Rule(Range(6, 11), Range(33, 44)),
        "seat" := Rule(Range(13, 40), Range(45, 50))]
  }

  lemma ExampleFits(n: nat)
    requires n in {2, 3, 6, 7, 20, 38, 40, 47, 50}
    ensures FitsAny(ExampleRules(), n)
  {
    var rules := ExampleRules();
    if n <= 7 {
      assert Satisfies(rules["class"], n);
    } else {
      assert Satisfies(rules["seat"], n);
    }
  }

  lemma ExampleMisses(n: nat)
    requires n in {4, 12, 55}
    ensures !FitsAny(ExampleRules(), n)
  {
    var rules := ExampleRules();
    forall f | f in rules
      ensures !Satisfies(rules[f], n)
    {
      assert f == "class" || f == "row" || f == "seat";
    }
  }

  lemma ExampleValue(n: nat)
    requires n in {2, 3, 4, 6, 7, 12, 20, 38, 40, 47, 50, 55}
    ensures ValueError(ExampleRules(), n) == if n in {4, 12, 55} then n else 0
  {
    if n in {4, 12, 55} {
      ExampleMisses(n);
    } else {
      ExampleFits(n);
    }
  }

  lemma ExampleTicket(a: nat, b: nat, c: nat)
    requires a in {2, 3, 4, 6, 7, 12, 20, 38, 40, 47, 50, 55}
    requires b in {2, 3, 4, 6, 7, 12, 20, 38, 40, 47, 50, 55}
    requires c in {2, 3, 4, 6, 7, 12, 20, 38, 40, 47, 50, 55}
    ensures TicketErrorRate(ExampleRules(), [a, b, c]) ==
      (if a in {4, 12, 55} then a else 0) + (if b in {4, 12, 55} then b else 0) + (if c in {4, 12, 55} then c else 0)
  {
    var rules := ExampleRules();
    ExampleValue(a);
    ExampleValue(b);
    ExampleValue(c);
    assert [a, b, c][1..] == [b, c] && [b, c][1..] == [c] && [c][1..] == [];
    assert TicketErrorRate(rules, [c]) == ValueError(rules, c);
    assert TicketErrorRate(rules, [b, c]) == ValueError(rules, b) + ValueError(rules, c);
  }

  /** The error rate of `tickets[k..]` is that of `tickets[k]` plus that of the rest. */
  lemma ErrorRateFrom(rules: FieldRules, tickets: seq<Ticket>, k: nat)
    requires k < |tickets|
    ensures ErrorRate(rules, tickets[k..]) == TicketErrorRate(rules, tickets[k]) + ErrorRate(rules, tickets[k + 1..])
  {
    assert tickets[k..][0] == tickets[k] && tickets[k..][1..] == tickets[k + 1..];
  }

  /** The example's nearby tickets one by one. */
  lemma ExampleRates()
    ensures TicketErrorRate(ExampleRules(), [7, 3, 47]) == 0
    ensures TicketErrorRate(ExampleRules(), [40, 4, 50]) == 4
    ensures TicketErrorRate(ExampleRules(), [55, 2, 20]) == 55
    ensures TicketErrorRate(ExampleRules(), [38, 6, 12]) == 12
  {
    ExampleTicket(7, 3, 47);
    ExampleTicket(40, 4, 50);
    ExampleTicket(55, 2, 20);
    ExampleTicket(38, 6, 12);
  }

  /** The example's nearby tickets have error rate 4 + 55 + 12 = 71. */
  lemma Example()
    ensures ErrorRate(ExampleRules(), [[7, 3, 47], [40, 4, 50], [55, 2, 20], [38, 6, 12]]) == 71
  {
    var rules := ExampleRules();
    var tickets: seq<Ticket> := [[7, 3, 47], [40, 4, 50], [55, 2, 20], [38, 6, 12]];
    ExampleRates();
    assert tickets[0..] == tickets;
    ErrorRateFrom(rules, tickets, 0);
    ErrorRateFrom(rules, tickets, 1);
    ErrorRateFrom(rules, tickets, 2);
    ErrorRateFrom(rules, tickets, 3);
    assert |tickets[4..]| == 0;
  }
}
