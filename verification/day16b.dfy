/**
 * Day 16, part two: the nearby tickets that fit the rules fix which
 * position of a ticket holds which field. A position is a candidate for
 * a field when every valid ticket's value there satisfies the field's
 * rule; fields are then fixed one at a time, each when exactly one of
 * its candidates is still free.
 *
 * Reading the input and the error rate are the same code as part one
 * and come from `Day16a`.
 */
module Day16b {
  import opened Common
  import Day16a

  type FieldRules = Day16a.FieldRules
  type Ticket = Day16a.Ticket

  /* ---------------------------------------------------------------- */
  /* Valid tickets                                                     */
  /* ---------------------------------------------------------------- */

  /** `validate_ticket`: every value is admitted by some field's rule. */
  function ValidateTicket(rules: FieldRules, t: Ticket): (r: bool)
    ensures r <==> forall i :: 0 <= i < |t| ==> Day16a.FitsAny(rules, t[i])
  {
    if |t| == 0 then true
    else
      assert forall i :: 1 <= i < |t| ==> t[i] == t[1..][i - 1];
      Day16a.FitsAny(rules, t[0]) && ValidateTicket(rules, t[1..])
  }

  /** A valid ticket adds nothing to the scanning error rate. */
  lemma ValidTicketNoError(rules: FieldRules, t: Ticket)
    requires ValidateTicket(rules, t)
    ensures Day16a.TicketErrorRate(rules, t) == 0
  {
    Day16a.TicketErrorRateZero(rules, t);
  }

  /** The converse fails: a 0 that no rule admits makes the ticket invalid yet adds 0 to the error rate. */
  lemma ZeroInvalidWithoutError()
    ensures var rules := map["a" := Day16a.Rule(Day16a.Range(1, 3), Day16a.Range(5, 7))];
      !ValidateTicket(rules, [0]) && Day16a.TicketErrorRate(rules, [0]) == 0
  {
    var rules := map["a" := Day16a.Rule(Day16a.Range(1, 3), Day16a.Range(5, 7))];
    assert !Day16a.FitsAny(rules, 0) by {
      forall f | f in rules
        ensures !Day16a.Satisfies(rules[f], 0)
      {
        assert f == "a";
      }
    }
    assert [0][1..] == [];
  }

  /** The nearby tickets that `main` keeps: the valid ones, in order. */
  function ValidTickets(rules: FieldRules, tickets: seq<Ticket>): (r: seq<Ticket>)
    ensures |r| <= |tickets|
    ensures forall t :: t in r <==> t in tickets && ValidateTicket(rules, t)
  {
    if |tickets| == 0 then []
    else
      var rest := ValidTickets(rules, tickets[1..]);
      assert forall t :: t in tickets <==> t == tickets[0] || t in tickets[1..];
      if ValidateTicket(rules, tickets[0]) then [tickets[0]] + rest else rest
  }

  /* ---------------------------------------------------------------- */
  /* Candidate positions                                               */
  /* ---------------------------------------------------------------- */

  /** Every ticket has a value at `pos`, and the rule admits each of them. */
  predicate ColumnFits(rule: Day16a.Rule, tickets: seq<Ticket>, pos: nat) {
    forall k :: 0 <= k < |tickets| ==> pos < |tickets[k]| && Day16a.Satisfies(rule, tickets[k][pos])
  }

  /** The positions below `n` that fit the rule of `field`. */
  function CandidatesBelow(rule: Day16a.Rule, tickets: seq<Ticket>, n: nat): set<nat>
    decreases n
  {
    if n == 0 then {}
    else CandidatesBelow(rule, tickets, n - 1) + (if ColumnFits(rule, tickets, n - 1) then {n - 1} else {})
  }

  /** The positions below `n` whose column the rule admits, and no others. */
  lemma {:induction false} CandidatesBelowMembers(rule: Day16a.Rule, tickets: seq<Ticket>, n: nat)
    ensures forall pos: nat :: pos in CandidatesBelow(rule, tickets, n) <==> pos < n && ColumnFits(rule, tickets, pos)
    decreases n
  {
    if n > 0 {
      CandidatesBelowMembers(rule, tickets, n - 1);
    }
  }

  /** Every ticket is at least as long as the first: `t[pos]` is in bounds for each position of the first. */
  predicate Rectangular(tickets: seq<Ticket>) {
    |tickets| > 0 ==> forall k :: 0 <= k < |tickets| ==> |tickets[0]| <= |tickets[k]|
  }

  /** The candidate positions of a field: those of the first ticket whose column the field's rule admits. */
  function Candidates(rules: FieldRules, tickets: seq<Ticket>, field: string): (r: set<nat>)
    requires field in rules && |tickets| > 0
    ensures forall pos: nat :: pos in r <==> pos < |tickets[0]| && ColumnFits(rules[field], tickets, pos)
  {
    CandidatesBelowMembers(rules[field], tickets, |tickets[0]|);
    CandidatesBelow(rules[field], tickets, |tickets[0]|)
  }

  /** The fields with at least one candidate, each with its candidates: `potential_positions` once gathered. */
  function AllCandidates(rules: FieldRules, tickets: seq<Ticket>): map<string, set<nat>>
    requires |tickets| > 0
  {
    map f | f in rules && Candidates(rules, tickets, f) != {} :: Candidates(rules, tickets, f)
  }

  /* ---------------------------------------------------------------- */
  /* Fixing the fields                                                 */
  /* ---------------------------------------------------------------- */

  /** Each assigned field is assigned one of its candidates, and no two share a position. */
  predicate Assignment(cands: map<string, set<nat>>, m: map<string, nat>) {
    (forall f :: f in m ==> f in cands && m[f] in cands[f])
    && (forall f, g :: f in m && g in m && f != g ==> m[f] != m[g])
  }

  /** The positions taken so far. */
  function Taken(m: map<string, nat>): set<nat> {
    set f | f in m :: m[f]
  }

  /** `potential` without the fields of `fixed`. */
  function Without(potential: map<string, set<nat>>, fixed: set<string>): (r: map<string, set<nat>>)
    ensures r.Keys == potential.Keys - fixed
    ensures forall f :: f in r ==> r[f] == potential[f]
  {
    map f | f in potential && f !in fixed :: potential[f]
  }

  /**
   * The state of the fixing loop: each pending field still has all its
   * candidates, no field is pending and assigned at once, and between
   * them they are all the fields.
   */
  predicate Fixing(cands: map<string, set<nat>>, potential: map<string, set<nat>>, m: map<string, nat>) {
    (forall f :: f in potential ==> f in cands && potential[f] == cands[f])
    && potential.Keys !! m.Keys
    && potential.Keys + m.Keys == cands.Keys
    && Assignment(cands, m)
  }

  /** Where the source's loop never ends: fields remain and none has exactly one free candidate. */
  datatype Stuck = Stuck(remaining: map<string, set<nat>>, determined: set<nat>)

  /**
   * `determine_field_positions`. The candidate sets are gathered position
   * by position; then each pass visits the pending fields (in the
   * unspecified order of a `HashMap`), fixes each whose candidates minus
   * the positions taken so far are exactly one, and drops the fixed
   * fields afterwards. A pass that fixes nothing would repeat forever;
   * the model returns `Err` there.
   */
  method DetermineFieldPositions(rules: FieldRules, tickets: seq<Ticket>)
    returns (r: Result<map<string, nat>, Stuck>)
    requires Rectangular(tickets)
    ensures |tickets| == 0 ==> r == Ok(map[])
    ensures |tickets| > 0 && r.Ok? ==>
      r.value.Keys == AllCandidates(rules, tickets).Keys && Assignment(AllCandidates(rules, tickets), r.value)
    ensures |tickets| > 0 && r.Err? ==>
      r.error.remaining != map[]
      && (forall f :: f in r.error.remaining ==>
            f in AllCandidates(rules, tickets) && r.error.remaining[f] == AllCandidates(rules, tickets)[f])
      && (forall f :: f in r.error.remaining ==> |r.error.remaining[f] - r.error.determined| != 1)
  {
    if |tickets| == 0 {
      return Ok(map[]);
    }
    var potential := GatherCandidates(rules, tickets);
    r := FixFields(potential);
  }

  /**
   * The `loop` of `determine_field_positions` over the gathered candidate
   * sets `cands`: passes until no field is pending, or until a pass fixes
   * nothing.
   */
  method FixFields(cands: map<string, set<nat>>) returns (r: Result<map<string, nat>, Stuck>)
    ensures r.Ok? ==> r.value.Keys == cands.Keys && Assignment(cands, r.value)
    ensures r.Err? ==>
      r.error.remaining != map[]
      && (forall f :: f in r.error.remaining ==> f in cands && r.error.remaining[f] == cands[f])
      && (forall f :: f in r.error.remaining ==> |r.error.remaining[f] - r.error.determined| != 1)
  {
    var potential := cands;
    var determined: set<nat> := {};
    var fieldPositions: map<string, nat> := map[];
    while potential != map[]
      invariant Fixing(cands, potential, fieldPositions)
      invariant determined == Taken(fieldPositions)
      decreases |potential.Keys|
    {
      var matched: set<string>;
      matched, fieldPositions, determined := FixingPass(cands, potential, fieldPositions, determined);
      if matched == {} {
        return Err(Stuck(potential, determined));
      }
      var rest := Without(potential, matched);
      assert rest.Keys < potential.Keys;
      potential := rest;
    }
    return Ok(fieldPositions);
  }

  /**
   * The nested loops that fill `potential_positions`: for each position of
   * the first ticket, each field (in any order) whose rule admits the
   * column gets the position.
   */
  method GatherCandidates(rules: FieldRules, tickets: seq<Ticket>) returns (potential: map<string, set<nat>>)
    requires |tickets| > 0
    ensures potential == AllCandidates(rules, tickets)
  {
    potential := map[];
    for pos: nat := 0 to |tickets[0]|
      invariant Gathered(rules, tickets, potential, {}, pos)
    {
      var todo := rules.Keys;
      var done: set<string> := {};
      while todo != {}
        invariant todo !! done && todo + done == rules.Keys
        invariant Gathered(rules, tickets, potential, done, pos)
        decreases |todo|
      {
        var f :| f in todo;
        ghost var before := potential;
        if ColumnFits(rules[f], tickets, pos) {
          var old_: set<nat> := if f in potential then potential[f] else {};
          potential := potential[f := old_ + {pos}];
        }
        GatherStep(rules, tickets, before, potential, done, f, pos);
        MoveOne(todo, done, f);
        todo, done := todo - {f}, done + {f};
      }
      GatherNext(rules, tickets, potential, pos);
    }
    GatherDone(rules, tickets, potential);
  }

  /** Moving one element from `todo` to `done` keeps them apart and keeps their union. */
  lemma MoveOne<T>(todo: set<T>, done: set<T>, x: T)
    requires x in todo && todo !! done
    ensures (todo - {x}) !! (done + {x}) && (todo - {x}) + (done + {x}) == todo + done
  {
  }

  /** Visiting `x` of `todo`, possibly matching it, keeps the matched ones among the visited. */
  lemma VisitOne<T>(keys: set<T>, todo: set<T>, matched: set<T>, x: T)
    requires x in todo && todo <= keys && matched <= keys - todo + {x}
    ensures todo - {x} <= keys && matched <= keys - (todo - {x})
  {
  }

  /** The limit of a field while position `pos` is being gathered: past it once the field is done. */
  function Limit(f: string, done: set<string>, pos: nat): nat {
    if f in done then pos + 1 else pos
  }

  /** `potential` holds each field's candidates below its limit, exactly for the fields that have one. */
  ghost predicate Gathered(rules: FieldRules, tickets: seq<Ticket>, potential: map<string, set<nat>>, done: set<string>, pos: nat) {
    forall f :: (f in potential <==> f in rules && CandidatesBelow(rules[f], tickets, Limit(f, done, pos)) != {})
      && (f in potential ==> potential[f] == CandidatesBelow(rules[f], tickets, Limit(f, done, pos)))
  }

  /** Visiting one more field at `pos` keeps `potential` gathered. */
  lemma GatherStep(rules: FieldRules, tickets: seq<Ticket>, p0: map<string, set<nat>>, p1: map<string, set<nat>>,
                   done: set<string>, f: string, pos: nat)
    requires f in rules && f !in done && Gathered(rules, tickets, p0, done, pos)
    requires p1 == if ColumnFits(rules[f], tickets, pos) then p0[f := (if f in p0 then p0[f] else {}) + {pos}] else p0
    ensures Gathered(rules, tickets, p1, done + {f}, pos)
  {
    forall g
      ensures (g in p1 <==> g in rules && CandidatesBelow(rules[g], tickets, Limit(g, done + {f}, pos)) != {})
      ensures (g in p1 ==> p1[g] == CandidatesBelow(rules[g], tickets, Limit(g, done + {f}, pos)))
    {
      if g != f {
        assert Limit(g, done + {f}, pos) == Limit(g, done, pos);
      }
    }
  }

  /** Once every field is done at `pos`, the fields are gathered below `pos + 1`. */
  lemma GatherNext(rules: FieldRules, tickets: seq<Ticket>, potential: map<string, set<nat>>, pos: nat)
    requires Gathered(rules, tickets, potential, rules.Keys, pos)
    ensures Gathered(rules, tickets, potential, {}, pos + 1)
  {
    forall f
      ensures (f in potential <==> f in rules && CandidatesBelow(rules[f], tickets, Limit(f, {}, pos + 1)) != {})
      ensures (f in potential ==> potential[f] == CandidatesBelow(rules[f], tickets, Limit(f, {}, pos + 1)))
    {
      if f in rules {
        assert Limit(f, rules.Keys, pos) == Limit(f, {}, pos + 1);
      }
    }
  }

  /** Gathered below the first ticket's length, `potential` is every field's candidates. */
  lemma GatherDone(rules: FieldRules, tickets: seq<Ticket>, potential: map<string, set<nat>>)
    requires |tickets| > 0 && Gathered(rules, tickets, potential, {}, |tickets[0]|)
    ensures potential == AllCandidates(rules, tickets)
  {
    var all := AllCandidates(rules, tickets);
    forall f
      ensures f in potential <==> f in all
      ensures f in potential ==> potential[f] == all[f]
    {
      if f in rules {
        assert Candidates(rules, tickets, f) == CandidatesBelow(rules[f], tickets, Limit(f, {}, |tickets[0]|));
      }
    }
  }

  /**
   * One pass of the loop: each pending field, in any order, is fixed
   * when exactly one of its candidates is not yet taken; `matched` is the
   * set fixed in this pass.
   */
  method FixingPass(ghost cands: map<string, set<nat>>, potential: map<string, set<nat>>,
                    m0: map<string, nat>, determined0: set<nat>)
    returns (matched: set<string>, m: map<string, nat>, determined: set<nat>)
    requires Fixing(cands, potential, m0) && determined0 == Taken(m0)
    ensures matched <= potential.Keys
    ensures Fixing(cands, Without(potential, matched), m)
    ensures determined == Taken(m)
    ensures matched == {} ==> m == m0 && forall f :: f in potential ==> |potential[f] - determined| != 1
  {
    m, determined, matched := m0, determined0, {};
    var todo := potential.Keys;
    PassStart(cands, potential, m0, determined0);
    while todo != {}
      invariant Pass(cands, potential, m0, todo, matched, m, determined)
      decreases |todo|
    {
      var f :| f in todo;
      var diff := potential[f] - determined;
      if |diff| == 1 {
        var pos :| pos in diff;
        PassFix(cands, potential, m0, todo, matched, m, determined, f, pos);
        m := m[f := pos];
        determined := determined + {pos};
        matched := matched + {f};
      } else {
        PassSkip(cands, potential, m0, todo, matched, m, determined, f);
      }
      todo := todo - {f};
    }
    PassDone(cands, potential, m0, matched, m, determined);
  }

  /** A pass starts with every pending field still to visit and none matched. */
  lemma PassStart(cands: map<string, set<nat>>, potential: map<string, set<nat>>, m0: map<string, nat>, determined0: set<nat>)
    requires Fixing(cands, potential, m0) && determined0 == Taken(m0)
    ensures Pass(cands, potential, m0, potential.Keys, {}, m0, determined0)
  {
    assert Without(potential, {}) == potential;
  }

  /** A pass that has visited every pending field leaves the loop's state with the matched fields dropped. */
  lemma PassDone(cands: map<string, set<nat>>, potential: map<string, set<nat>>, m0: map<string, nat>,
                 matched: set<string>, m: map<string, nat>, determined: set<nat>)
    requires Pass(cands, potential, m0, {}, matched, m, determined)
    ensures matched <= potential.Keys
    ensures Fixing(cands, Without(potential, matched), m)
    ensures determined == Taken(m)
    ensures matched == {} ==> m == m0 && forall f :: f in potential ==> |potential[f] - determined| != 1
  {
  }

  /**
   * The state of a pass with `todo` still to visit: the fields matched so
   * far were visited, the loop's state holds with them dropped, and while
   * nothing is matched each visited field has other than one free candidate.
   */
  predicate Pass(cands: map<string, set<nat>>, potential: map<string, set<nat>>, m0: map<string, nat>,
                 todo: set<string>, matched: set<string>, m: map<string, nat>, determined: set<nat>)
  {
    todo <= potential.Keys && matched <= potential.Keys - todo
    && Fixing(cands, Without(potential, matched), m)
    && determined == Taken(m)
    && (matched == {} ==> m == m0 && forall f :: f in potential.Keys - todo ==> |potential[f] - determined| != 1)
  }

  /** Visiting a field with other than one free candidate changes nothing. */
  lemma PassSkip(cands: map<string, set<nat>>, potential: map<string, set<nat>>, m0: map<string, nat>,
                 todo: set<string>, matched: set<string>, m: map<string, nat>, determined: set<nat>, f: string)
    requires Pass(cands, potential, m0, todo, matched, m, determined)
    requires f in todo && |potential[f] - determined| != 1
    ensures Pass(cands, potential, m0, todo - {f}, matched, m, determined)
  {
    VisitOne(potential.Keys, todo, matched, f);
  }

  /** Visiting a field and fixing it to a free candidate. */
  lemma PassFix(cands: map<string, set<nat>>, potential: map<string, set<nat>>, m0: map<string, nat>,
                todo: set<string>, matched: set<string>, m: map<string, nat>, determined: set<nat>, f: string, pos: nat)
    requires Pass(cands, potential, m0, todo, matched, m, determined)
    requires f in todo && pos in potential[f] - determined
    ensures Pass(cands, potential, m0, todo - {f}, matched + {f}, m[f := pos], determined + {pos})
  {
    FixOne(cands, potential, matched, m, f, pos);
    VisitOne(potential.Keys, todo, matched + {f}, f);
  }

  /** Fixing a pending field to one of its candidates that nobody has taken keeps the loop's state. */
  lemma FixOne(cands: map<string, set<nat>>, potential: map<string, set<nat>>,
               matched: set<string>, m: map<string, nat>, f: string, pos: nat)
    requires f in potential && f !in matched
    requires Fixing(cands, Without(potential, matched), m)
    requires pos in potential[f] && pos !in Taken(m)
    ensures Fixing(cands, Without(potential, matched + {f}), m[f := pos])
    ensures Taken(m[f := pos]) == Taken(m) + {pos}
  {
    var before := Without(potential, matched);
    assert f in before;
    var m' := m[f := pos];
    assert Assignment(cands, m') by {
      forall g, h | g in m' && h in m' && g != h
        ensures m'[g] != m'[h]
      {
        if g == f {
          assert m[h] in Taken(m);
        } else if h == f {
          assert m[g] in Taken(m);
        }
      }
    }
    TakenAdd(m, f, pos);
  }

  /** Assigning a new field adds its position to those taken. */
  lemma TakenAdd(m: map<string, nat>, f: string, pos: nat)
    requires f !in m
    ensures Taken(m[f := pos]) == Taken(m) + {pos}
  {
    var m' := m[f := pos];
    forall p
      ensures p in Taken(m') <==> p in Taken(m) + {pos}
    {
      if p in Taken(m) {
        var g :| g in m && m[g] == p;
        assert m'[g] == p;
      }
      if p == pos {
        assert m'[f] == pos;
      }
      if p in Taken(m') {
        var g :| g in m' && m'[g] == p;
        if g != f {
          assert m[g] == p;
        }
      }
    }
  }

  /* ---------------------------------------------------------------- */
  /* The example                                                       */
  /* ---------------------------------------------------------------- */

  function ExampleRules(): FieldRules {
    map["class" := Day16a.Rule(Day16a.Range(0, 1), Day16a.Range(4, 19)),
        "row" := Day16a.Rule(Day16a.Range(0, 5), Day16a.Range(8, 19)),
        "seat" := Day16a.Rule(Day16a.Range(0, 13), Day16a.Range(16, 19))]
  }

  function ExampleTickets(): seq<Ticket> {
    [[3, 9, 18], [15, 1, 5], [5, 14, 9]]
  }

  /** Row admits every column of the example. */
  lemma ExampleRow()
    ensures Candidates(ExampleRules(), ExampleTickets(), "row") == {0, 1, 2}
  {
    var rule, tickets := ExampleRules()["row"], ExampleTickets();
    assert ColumnFits(rule, tickets, 0) && ColumnFits(rule, tickets, 1) && ColumnFits(rule, tickets, 2);
  }

  /** Class admits the last two columns: 3 is outside 0-1 and 4-19. */
  lemma ExampleClass()
    ensures Candidates(ExampleRules(), ExampleTickets(), "class") == {1, 2}
  {
    var rule, tickets := ExampleRules()["class"], ExampleTickets();
    assert !Day16a.Satisfies(rule, tickets[0][0]);
    assert ColumnFits(rule, tickets, 1) && ColumnFits(rule, tickets, 2);
  }

  /** Seat admits only the last column: 15 and 14 are outside 0-13 and 16-19. */
  lemma ExampleSeat()
    ensures Candidates(ExampleRules(), ExampleTickets(), "seat") == {2}
  {
    var rule, tickets := ExampleRules()["seat"], ExampleTickets();
    assert !Day16a.Satisfies(rule, tickets[1][0]);
    assert !Day16a.Satisfies(rule, tickets[2][1]);
    assert ColumnFits(rule, tickets, 2);
  }

  /** Row fits every column, class the last two, seat only the last. */
  lemma ExampleCandidates(rules: FieldRules, tickets: seq<Ticket>)
    requires rules == ExampleRules() && tickets == ExampleTickets()
    ensures AllCandidates(rules, tickets) == map["row" := {0, 1, 2}, "class" := {1, 2}, "seat" := {2}]
  {
    ExampleRow();
    ExampleClass();
    ExampleSeat();
    var all := AllCandidates(rules, tickets);
    var target := map["row" := {0, 1, 2}, "class" := {1, 2}, "seat" := {2}];
    forall f
      ensures f in all <==> f in target
      ensures f in all ==> all[f] == target[f]
    {
      if f in rules {
        assert f == "class" || f == "row" || f == "seat";
      }
    }
  }

  /** With the example's candidates, the only complete assignment without shared positions. */
  lemma ExampleForced(cands: map<string, set<nat>>, m: map<string, nat>)
    requires cands == map["row" := {0, 1, 2}, "class" := {1, 2}, "seat" := {2}]
    requires m.Keys == cands.Keys && Assignment(cands, m)
    ensures m == map["row" := 0, "class" := 1, "seat" := 2]
  {
    assert m["seat"] == 2;
    assert m["class"] == 1;
    assert m["row"] == 0;
  }

  /**
   * In the example the assignment is forced: any complete assignment of
   * candidates to fields, no two sharing a position, puts row at 0, class
   * at 1 and seat at 2.
   */
  lemma Example(rules: FieldRules, tickets: seq<Ticket>, m: map<string, nat>)
    requires rules == ExampleRules() && tickets == ExampleTickets()
    requires m.Keys == AllCandidates(rules, tickets).Keys && Assignment(AllCandidates(rules, tickets), m)
    ensures m == map["row" := 0, "class" := 1, "seat" := 2]
  {
    ExampleCandidates(rules, tickets);
    ExampleForced(AllCandidates(rules, tickets), m);
  }
}
