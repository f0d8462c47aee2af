/**
 * Day 19, part two: the rules are read as in part one, rules 8 and 11 are
 * replaced by the looping rules `8: 42 | 42 8` and `11: 42 31 | 42 11 31`,
 * and each message is matched against rule 0 directly instead of through
 * an expansion. The matcher can recurse forever on a left-recursive rule,
 * so it is modelled with a fuel bound on the depth of rule calls.
 */
module Day19b {
  import opened Common
  import opened Day19a

  /** The replacement rules. */
  function Replacements(): Rules {
    map[8 := [[Idx(42)], [Idx(42), Idx(8)]],
        11 := [[Idx(42), Idx(31)], [Idx(42), Idx(11), Idx(31)]]]
  }

  /** `rules.extend(new_rules)`: the replacements override rules 8 and 11; every other rule stays. */
  function Patched(rules: Rules): (r: Rules)
    ensures r.Keys == rules.Keys + {8, 11}
    ensures r[8] == [[Idx(42)], [Idx(42), Idx(8)]]
    ensures r[11] == [[Idx(42), Idx(31)], [Idx(42), Idx(11), Idx(31)]]
    ensures forall i :: i in rules && i != 8 && i != 11 ==> r[i] == rules[i]
  {
    rules + Replacements()
  }

  /* ---------------------------------------------------------------- */
  /* `try_validation` as written                                       */
  /* ---------------------------------------------------------------- */

  /** How a match attempt ends: the length matched, no match, or more rule calls than the fuel allows. */
  datatype Attempt = Consumed(n: nat) | Fails | OutOfFuel

  /**
   * Match rule `idx` against a prefix of `msg`: the first alternative that
   * matches wins, later ones are never tried. A missing rule fails.
   */
  function TryRule(rules: Rules, idx: nat, msg: string, fuel: nat): (r: Attempt)
    ensures r.Consumed? ==> r.n <= |msg|
    decreases fuel, 0
  {
    if fuel == 0 then OutOfFuel
    else if idx !in rules then Fails
    else FirstMatch(rules, rules[idx], msg, fuel - 1)
  }

  /** The first alternative, in order, that matches a prefix of `msg`. */
  function FirstMatch(rules: Rules, alts: seq<Alternative>, msg: string, fuel: nat): (r: Attempt)
    ensures r.Consumed? ==> r.n <= |msg|
    decreases fuel, 2, |alts|
  {
    if alts == [] then Fails
    else
      match TryParts(rules, alts[0], msg, 0, fuel)
      case Fails => FirstMatch(rules, alts[1..], msg, fuel)
      case other => other
  }

  /**
   * Match the parts of one alternative from offset `at`: a part finding the
   * message used up fails the alternative; a literal must equal the next
   * character; a rule number matches a prefix of the rest.
   */
  function TryParts(rules: Rules, parts: Alternative, msg: string, at: nat, fuel: nat): (r: Attempt)
    requires at <= |msg|
    ensures r.Consumed? ==> at <= r.n <= |msg|
    decreases fuel, 1, |parts|
  {
    if parts == [] then Consumed(at)
    else if at >= |msg| then Fails
    else
      match parts[0]
      case Literal(c) =>
        if msg[at] != c then Fails else TryParts(rules, parts[1..], msg, at + 1, fuel)
      case Idx(j) =>
        match TryRule(rules, j, msg[at..], fuel)
        case Consumed(n) => TryParts(rules, parts[1..], msg, at + n, fuel)
        case Fails => Fails
        case OutOfFuel => OutOfFuel
  }

  /** `is_valid_message` as written: the first match of rule 0 covers the whole message. */
  function ValidAsWritten(rules: Rules, msg: string, fuel: nat): bool {
    TryRule(rules, 0, msg, fuel) == Consumed(|msg|)
  }

  /** `try_validation`: the alternatives in order, the first that does not fail deciding. */
  method TryValidation(rules: Rules, idx: nat, msg: string, fuel: nat) returns (r: Attempt)
    ensures r == TryRule(rules, idx, msg, fuel)
    decreases fuel, 0
  {
    if fuel == 0 {
      return OutOfFuel;
    }
    if idx !in rules {
      return Fails;
    }
    var alts := rules[idx];
    for a := 0 to |alts|
      invariant FirstMatch(rules, alts, msg, fuel - 1) == FirstMatch(rules, alts[a..], msg, fuel - 1)
    {
      assert alts[a..][1..] == alts[a + 1..];
      var t := TryAlternative(rules, alts[a], msg, fuel - 1);
      if t != Fails {
        return t;
      }
    }
    return Fails;
  }

  /** One alternative: `char_idx` advances over the parts, the first mismatch failing the alternative. */
  method TryAlternative(rules: Rules, parts: Alternative, msg: string, fuel: nat) returns (r: Attempt)
    ensures r == TryParts(rules, parts, msg, 0, fuel)
    decreases fuel, 1
  {
    var charIdx := 0;
    for k := 0 to |parts|
      invariant charIdx <= |msg|
      invariant TryParts(rules, parts, msg, 0, fuel) == TryParts(rules, parts[k..], msg, charIdx, fuel)
    {
      assert parts[k..][1..] == parts[k + 1..];
      if charIdx >= |msg| {
        return Fails;
      }
      match parts[k] {
        case Literal(c) =>
          if msg[charIdx] != c {
            return Fails;
          }
          charIdx := charIdx + 1;
        case Idx(j) =>
          var sub := TryValidation(rules, j, msg[charIdx..], fuel);
          match sub {
            case Consumed(n) =>
              charIdx := charIdx + n;
            case Fails =>
              return Fails;
            case OutOfFuel =>
              return OutOfFuel;
          }
      }
    }
    assert parts[|parts|..] == [];
    return Consumed(charIdx);
  }

  /** `is_valid_message` as written. */
  method IsValidMessageAsWritten(rules: Rules, msg: string, fuel: nat) returns (valid: bool)
    ensures valid == ValidAsWritten(rules, msg, fuel)
  {
    var r := TryValidation(rules, 0, msg, fuel);
    valid := r.Consumed? && r.n == |msg|;
  }

  /* ---------------------------------------------------------------- */
  /* Matching with every alternative                                   */
  /* ---------------------------------------------------------------- */

  /**
   * Every length of a prefix of `msg` that rule `idx` matches, trying all
   * alternatives and, after a rule number, every length it can match.
   */
  function Ends(rules: Rules, idx: nat, msg: string, fuel: nat): (r: set<nat>)
    ensures forall n :: n in r ==> n <= |msg|
    decreases fuel, 0
  {
    if fuel == 0 || idx !in rules then {}
    else AltsEnds(rules, rules[idx], msg, fuel - 1)
  }

  function AltsEnds(rules: Rules, alts: seq<Alternative>, msg: string, fuel: nat): (r: set<nat>)
    ensures forall n :: n in r ==> n <= |msg|
    decreases fuel, 2, |alts|
  {
    if alts == [] then {}
    else PartsEnds(rules, alts[0], msg, 0, fuel) + AltsEnds(rules, alts[1..], msg, fuel)
  }

  function PartsEnds(rules: Rules, parts: Alternative, msg: string, at: nat, fuel: nat): (r: set<nat>)
    requires at <= |msg|
    ensures forall n :: n in r ==> at <= n <= |msg|
    decreases fuel, 1, |parts|, 1
  {
    if parts == [] then {at}
    else if at >= |msg| then {}
    else
      match parts[0]
      case Literal(c) =>
        if msg[at] != c then {} else PartsEnds(rules, parts[1..], msg, at + 1, fuel)
      case Idx(j) =>
        var firsts := Ends(rules, j, msg[at..], fuel);
        set n, m | n in firsts && m in EndsAfter(rules, parts[1..], msg, at, n, fuel) :: m
  }

  /** The ends of `parts` matched from `n` characters after `at`. */
  function EndsAfter(rules: Rules, parts: Alternative, msg: string, at: nat, n: nat, fuel: nat): (r: set<nat>)
    ensures forall m :: m in r ==> m <= |msg|
    decreases fuel, 1, |parts|, 2
  {
    if at + n <= |msg| then PartsEnds(rules, parts, msg, at + n, fuel) else {}
  }

  /** A message is valid when rule 0 can match all of it. */
  function ValidMessage(rules: Rules, msg: string, fuel: nat): bool {
    |msg| in Ends(rules, 0, msg, fuel)
  }

  /** Whatever the matcher as written accepts is a real match: its length is one of the ends. */
  lemma {:induction false} TryRuleSound(rules: Rules, idx: nat, msg: string, fuel: nat)
    ensures TryRule(rules, idx, msg, fuel).Consumed? ==> TryRule(rules, idx, msg, fuel).n in Ends(rules, idx, msg, fuel)
    decreases fuel, 0
  {
    if fuel > 0 && idx in rules {
      FirstMatchSound(rules, rules[idx], msg, fuel - 1);
    }
  }

  lemma {:induction false} FirstMatchSound(rules: Rules, alts: seq<Alternative>, msg: string, fuel: nat)
    ensures FirstMatch(rules, alts, msg, fuel).Consumed?
        ==> FirstMatch(rules, alts, msg, fuel).n in AltsEnds(rules, alts, msg, fuel)
    decreases fuel, 2, |alts|
  {
    if alts != [] {
      TryPartsSound(rules, alts[0], msg, 0, fuel);
      FirstMatchSound(rules, alts[1..], msg, fuel);
    }
  }

  lemma {:induction false} TryPartsSound(rules: Rules, parts: Alternative, msg: string, at: nat, fuel: nat)
    requires at <= |msg|
    ensures TryParts(rules, parts, msg, at, fuel).Consumed?
        ==> TryParts(rules, parts, msg, at, fuel).n in PartsEnds(rules, parts, msg, at, fuel)
    decreases fuel, 1, |parts|
  {
    if parts != [] && at < |msg| {
      match parts[0]
      case Literal(c) =>
        if msg[at] == c {
          TryPartsSound(rules, parts[1..], msg, at + 1, fuel);
        }
      case Idx(j) =>
        TryRuleSound(rules, j, msg[at..], fuel);
        var first := TryRule(rules, j, msg[at..], fuel);
        if first.Consumed? {
          TryPartsSound(rules, parts[1..], msg, at + first.n, fuel);
          var r := TryParts(rules, parts[1..], msg, at + first.n, fuel);
          if r.Consumed? {
            assert r.n in EndsAfter(rules, parts[1..], msg, at, first.n, fuel);
          }
        }
    }
  }

  /** The matcher as written only ever accepts valid messages. */
  lemma AsWrittenSound(rules: Rules, msg: string, fuel: nat)
    ensures ValidAsWritten(rules, msg, fuel) ==> ValidMessage(rules, msg, fuel)
  {
    TryRuleSound(rules, 0, msg, fuel);
  }

  /* ---------------------------------------------------------------- */
  /* A message the matcher as written misses                           */
  /* ---------------------------------------------------------------- */

  /** `0: 1 3`, `1: 2 | 2 2`, `2: "a"`, `3: "b"`: rule 0 derives "ab" and "aab". */
  function ShortFirst(): Rules {
    map[0 := [[Idx(1), Idx(3)]],
        1 := [[Idx(2)], [Idx(2), Idx(2)]],
        2 := [[Literal('a')]],
        3 := [[Literal('b')]]]
  }

  /** A rule of one literal matches that character and nothing else. */
  lemma LetterRule(rules: Rules, idx: nat, c: char, msg: string, fuel: nat)
    requires idx in rules && rules[idx] == [[Literal(c)]] && fuel >= 1
    ensures TryRule(rules, idx, msg, fuel) == if msg != [] && msg[0] == c then Consumed(1) else Fails
    ensures Ends(rules, idx, msg, fuel) == if msg != [] && msg[0] == c then {1} else {}
  {
    var alt: Alternative := [Literal(c)];
    assert alt[1..] == [];
    assert [alt][1..] == [];
    assert AltsEnds(rules, [alt], msg, fuel - 1) == PartsEnds(rules, alt, msg, 0, fuel - 1) + AltsEnds(rules, [], msg, fuel - 1);
    if msg != [] && msg[0] == c {
      assert TryParts(rules, alt, msg, 0, fuel - 1) == Consumed(1);
      assert PartsEnds(rules, alt, msg, 0, fuel - 1) == {1};
    } else {
      assert TryParts(rules, alt, msg, 0, fuel - 1) == Fails;
      assert FirstMatch(rules, [alt], msg, fuel - 1) == FirstMatch(rules, [], msg, fuel - 1);
      assert PartsEnds(rules, alt, msg, 0, fuel - 1) == {};
    }
  }

  /** As written, rule 1 settles for its first alternative and matches one "a". */
  lemma ShortFirstRuleOne(rules: Rules, fuel: nat)
    requires rules == ShortFirst() && fuel >= 2
    ensures TryRule(rules, 1, "aab", fuel) == Consumed(1)
  {
    LetterRule(rules, 2, 'a', "aab", fuel - 1);
    var alt: Alternative := [Idx(2)];
    assert alt[1..] == [];
    assert TryParts(rules, alt, "aab", 0, fuel - 1) == Consumed(1);
  }

  /** After that, rule 3 finds an "a" where it needs a "b", and rule 0 has no other alternative. */
  lemma ShortFirstAsWritten()
    ensures !ValidAsWritten(ShortFirst(), "aab", 3)
  {
    var rules := ShortFirst();
    ShortFirstRuleOne(rules, 2);
    LetterRule(rules, 3, 'b', "ab", 2);
    var alt: Alternative := [Idx(1), Idx(3)];
    assert alt[1..] == [Idx(3)] && alt[1..][1..] == [];
    assert "aab"[1..] == "ab";
    assert TryParts(rules, alt[1..], "aab", 1, 2) == Fails;
    assert TryParts(rules, alt, "aab", 0, 2) == Fails;
    assert [alt][1..] == [];
  }

  /** A rule number matching `k` characters, then the rest of the parts ending at `m`, ends the parts at `m`. */
  lemma IdxThen(rules: Rules, parts: Alternative, msg: string, at: nat, fuel: nat, k: nat, m: nat)
    requires |parts| >= 1 && parts[0].Idx? && at < |msg| && at + k <= |msg|
    requires k in Ends(rules, parts[0].index, msg[at..], fuel)
    requires m in PartsEnds(rules, parts[1..], msg, at + k, fuel)
    ensures m in PartsEnds(rules, parts, msg, at, fuel)
  {
    assert m in EndsAfter(rules, parts[1..], msg, at, k, fuel);
  }

  /** Every end of one alternative is an end of the list it belongs to. */
  lemma {:induction false} AltsEndsHas(rules: Rules, alts: seq<Alternative>, i: nat, msg: string, fuel: nat, n: nat)
    requires i < |alts| && n in PartsEnds(rules, alts[i], msg, 0, fuel)
    ensures n in AltsEnds(rules, alts, msg, fuel)
    decreases i
  {
    if i > 0 {
      assert alts[1..][i - 1] == alts[i];
      AltsEndsHas(rules, alts[1..], i - 1, msg, fuel, n);
    }
  }

  /** Rule 1 can also match "aa" through its second alternative. */
  lemma ShortFirstPair(rules: Rules, msg: string)
    requires 1 in rules && rules[1] == [[Idx(2)], [Idx(2), Idx(2)]] && 2 in rules && rules[2] == [[Literal('a')]]
    requires msg == "aab"
    ensures 2 in Ends(rules, 1, msg, 2)
  {
    var alt := rules[1][1];
    LetterRule(rules, 2, 'a', msg[0..], 1);
    LetterRule(rules, 2, 'a', msg[1..], 1);
    assert alt[1..][1..] == [];
    IdxThen(rules, alt[1..], msg, 1, 1, 1, 2);
    IdxThen(rules, alt, msg, 0, 1, 1, 2);
    AltsEndsHas(rules, rules[1], 1, msg, 1, 2);
  }

  /** Matching with every alternative accepts "aab". */
  lemma ShortFirstMatches()
    ensures ValidMessage(ShortFirst(), "aab", 3)
  {
    var rules := ShortFirst();
    ShortFirstPair(rules, "aab");
    ShortFirstWhole(rules, "aab");
  }

  /** Rule 1 matching "aa" and rule 3 the "b" make rule 0 match all three characters. */
  lemma ShortFirstWhole(rules: Rules, msg: string)
    requires 0 in rules && rules[0] == [[Idx(1), Idx(3)]] && 3 in rules && rules[3] == [[Literal('b')]]
    requires msg == "aab" && 2 in Ends(rules, 1, msg, 2)
    ensures 3 in Ends(rules, 0, msg, 3)
  {
    var alt := rules[0][0];
    LetterRule(rules, 3, 'b', msg[2..], 2);
    assert msg[0..] == msg && alt[1..][1..] == [];
    IdxThen(rules, alt[1..], msg, 2, 2, 1, 3);
    IdxThen(rules, alt, msg, 0, 2, 2, 3);
    AltsEndsHas(rules, rules[0], 0, msg, 2, 3);
  }

  /* ---------------------------------------------------------------- */
  /* The ends are the grammar's derivations                            */
  /* ---------------------------------------------------------------- */

  /**
   * A sequence of two or more parts derives `s` exactly when its first part
   * derives a prefix of `s` and the remaining parts the rest.
   */
  lemma {:induction false} SeqDerivesFront(rules: Rules, rank: map<nat, nat>, parts: Alternative, bound: nat, s: string)
    requires Ranked(rules, rank) && PartsBelow(rules, rank, parts, bound) && |parts| >= 2
    ensures PartsBelow(rules, rank, parts[1..], bound)
    ensures SeqDerives(rules, rank, parts, bound, s)
        <==> exists k :: 0 <= k <= |s| && PartDerives(rules, rank, parts[0], bound, s[..k])
                        && SeqDerives(rules, rank, parts[1..], bound, s[k..])
    decreases |parts|, 2
  {
    PartsBelowSlices(rules, rank, parts, bound);
    if |parts| == 2 {
      assert parts[..1] == [parts[0]] && parts[1..] == [parts[1]];
    } else {
      if SeqDerives(rules, rank, parts, bound, s) {
        FrontOfSeq(rules, rank, parts, bound, s);
      }
      if exists k1 :: 0 <= k1 <= |s| && PartDerives(rules, rank, parts[0], bound, s[..k1])
                      && SeqDerives(rules, rank, parts[1..], bound, s[k1..]) {
        SeqOfFront(rules, rank, parts, bound, s);
      }
    }
  }

  /** Dropping the first or the last part keeps every rule number below the bound. */
  lemma PartsBelowSlices(rules: Rules, rank: map<nat, nat>, parts: Alternative, bound: nat)
    requires PartsBelow(rules, rank, parts, bound) && |parts| >= 1
    ensures PartsBelow(rules, rank, parts[1..], bound) && PartsBelow(rules, rank, parts[..|parts| - 1], bound)
  {
    var rest := parts[1..];
    forall k | 0 <= k < |rest| ensures rest[k] == parts[k + 1] { }
  }

  lemma FrontOfSeq(rules: Rules, rank: map<nat, nat>, parts: Alternative, bound: nat, s: string)
    requires Ranked(rules, rank) && PartsBelow(rules, rank, parts, bound) && |parts| > 2
    requires PartsBelow(rules, rank, parts[..|parts| - 1], bound) && PartsBelow(rules, rank, parts[1..], bound)
    requires SeqDerives(rules, rank, parts, bound, s)
    ensures exists k1 :: 0 <= k1 <= |s| && PartDerives(rules, rank, parts[0], bound, s[..k1])
                        && SeqDerives(rules, rank, parts[1..], bound, s[k1..])
    decreases |parts|, 1
  {
    var k :| 0 <= k <= |s| && SeqDerives(rules, rank, parts[..|parts| - 1], bound, s[..k])
             && PartDerives(rules, rank, parts[|parts| - 1], bound, s[k..]);
    FrontFromBack(rules, rank, parts, bound, s, k);
  }

  lemma SeqOfFront(rules: Rules, rank: map<nat, nat>, parts: Alternative, bound: nat, s: string)
    requires Ranked(rules, rank) && PartsBelow(rules, rank, parts, bound) && |parts| > 2
    requires PartsBelow(rules, rank, parts[..|parts| - 1], bound) && PartsBelow(rules, rank, parts[1..], bound)
    requires exists k1 :: 0 <= k1 <= |s| && PartDerives(rules, rank, parts[0], bound, s[..k1])
                         && SeqDerives(rules, rank, parts[1..], bound, s[k1..])
    ensures SeqDerives(rules, rank, parts, bound, s)
    decreases |parts|, 1
  {
    var k1 :| 0 <= k1 <= |s| && PartDerives(rules, rank, parts[0], bound, s[..k1])
              && SeqDerives(rules, rank, parts[1..], bound, s[k1..]);
    BackFromFront(rules, rank, parts, bound, s, k1);
  }

  /** A split after all but the last part gives a split after the first part. */
  lemma {:induction false} FrontFromBack(rules: Rules, rank: map<nat, nat>, parts: Alternative, bound: nat, s: string, k: nat)
    requires Ranked(rules, rank) && PartsBelow(rules, rank, parts, bound) && |parts| > 2 && k <= |s|
    requires PartsBelow(rules, rank, parts[..|parts| - 1], bound) && PartsBelow(rules, rank, parts[1..], bound)
    requires SeqDerives(rules, rank, parts[..|parts| - 1], bound, s[..k])
    requires PartDerives(rules, rank, parts[|parts| - 1], bound, s[k..])
    ensures exists k1 :: 0 <= k1 <= |s| && PartDerives(rules, rank, parts[0], bound, s[..k1])
                        && SeqDerives(rules, rank, parts[1..], bound, s[k1..])
    decreases |parts|, 0
  {
    var init, last, rest := parts[..|parts| - 1], parts[|parts| - 1], parts[1..];
    MiddleParts(parts);
    SeqDerivesFront(rules, rank, init, bound, s[..k]);
    var k1 :| 0 <= k1 <= k && PartDerives(rules, rank, parts[0], bound, s[..k][..k1])
              && SeqDerives(rules, rank, init[1..], bound, s[..k][k1..]);
    Slices(s, k1, k);
    SeqBack(rules, rank, rest, bound, s[k1..], k - k1);
  }

  /** A split after the first part gives a split before the last part. */
  lemma {:induction false} BackFromFront(rules: Rules, rank: map<nat, nat>, parts: Alternative, bound: nat, s: string, k1: nat)
    requires Ranked(rules, rank) && PartsBelow(rules, rank, parts, bound) && |parts| > 2 && k1 <= |s|
    requires PartsBelow(rules, rank, parts[..|parts| - 1], bound) && PartsBelow(rules, rank, parts[1..], bound)
    requires PartDerives(rules, rank, parts[0], bound, s[..k1])
    requires SeqDerives(rules, rank, parts[1..], bound, s[k1..])
    ensures SeqDerives(rules, rank, parts, bound, s)
    decreases |parts|, 0
  {
    var init, last, rest := parts[..|parts| - 1], parts[|parts| - 1], parts[1..];
    MiddleParts(parts);
    var t := s[k1..];
    var k2 :| 0 <= k2 <= |t| && SeqDerives(rules, rank, init[1..], bound, t[..k2])
              && PartDerives(rules, rank, last, bound, t[k2..]);
    var k := k1 + k2;
    Slices(s, k1, k);
    SeqDerivesFront(rules, rank, init, bound, s[..k]);
    assert SeqDerives(rules, rank, init, bound, s[..k]);
    SeqBack(rules, rank, parts, bound, s, k);
  }

  /** Dropping the first and the last part commute. */
  lemma MiddleParts(parts: Alternative)
    requires |parts| > 2
    ensures parts[1..][..|parts| - 2] == parts[..|parts| - 1][1..]
    ensures parts[1..][|parts| - 2] == parts[|parts| - 1] && parts[..|parts| - 1][0] == parts[0]
  {
  }

  lemma Slices<T>(s: seq<T>, i: nat, j: nat)
    requires i <= j <= |s|
    ensures s[..j][..i] == s[..i] && s[..j][i..] == s[i..][..j - i] && s[i..][j - i..] == s[j..]
  {
  }

  /** A sequence of two or more parts derives `s` split before its last part. */
  lemma SeqBack(rules: Rules, rank: map<nat, nat>, parts: Alternative, bound: nat, s: string, k: nat)
    requires Ranked(rules, rank) && PartsBelow(rules, rank, parts, bound) && |parts| >= 2 && k <= |s|
    requires PartsBelow(rules, rank, parts[..|parts| - 1], bound)
    requires SeqDerives(rules, rank, parts[..|parts| - 1], bound, s[..k])
    requires PartDerives(rules, rank, parts[|parts| - 1], bound, s[k..])
    ensures SeqDerives(rules, rank, parts, bound, s)
  {
  }

  /** Every alternative of every rule has at least one part. */
  predicate NoEmptyAlternative(rules: Rules) {
    forall i, a :: i in rules && 0 <= a < |rules[i]| ==> rules[i][a] != []
  }

  /** Nothing derives the empty string. */
  lemma {:induction false} DerivesNonEmpty(rules: Rules, rank: map<nat, nat>, idx: nat, s: string)
    requires Ranked(rules, rank)
    ensures Derives(rules, rank, idx, s) ==> s != []
    decreases Height(rules, rank, idx), 2
  {
    if Derives(rules, rank, idx, s) {
      var alts := rules[idx];
      var a :| 0 <= a < |alts| && SeqDerives(rules, rank, alts[a], Height(rules, rank, idx), s);
      SeqNonEmpty(rules, rank, alts[a], Height(rules, rank, idx), s);
    }
  }

  lemma {:induction false} SeqNonEmpty(rules: Rules, rank: map<nat, nat>, parts: Alternative, bound: nat, s: string)
    requires Ranked(rules, rank) && PartsBelow(rules, rank, parts, bound)
    ensures SeqDerives(rules, rank, parts, bound, s) ==> s != []
    decreases bound, 1, |parts|
  {
    if |parts| == 1 {
      PartNonEmpty(rules, rank, parts[0], bound, s);
    } else if |parts| > 1 && SeqDerives(rules, rank, parts, bound, s) {
      var init := parts[..|parts| - 1];
      var k :| 0 <= k <= |s| && SeqDerives(rules, rank, init, bound, s[..k])
               && PartDerives(rules, rank, parts[|parts| - 1], bound, s[k..]);
      SeqNonEmpty(rules, rank, init, bound, s[..k]);
    }
  }

  lemma {:induction false} PartNonEmpty(rules: Rules, rank: map<nat, nat>, p: RulePart, bound: nat, s: string)
    requires Ranked(rules, rank) && (p.Idx? ==> Height(rules, rank, p.index) < bound)
    ensures PartDerives(rules, rank, p, bound, s) ==> s != []
    decreases bound, 0
  {
    if p.Idx? {
      DerivesNonEmpty(rules, rank, p.index, s);
    }
  }

  /**
   * For acyclic rules without empty alternatives, and fuel at least the
   * rule's height, the ends of rule `idx` are exactly the lengths of the
   * prefixes of `msg` it derives.
   */
  lemma {:induction false} EndsIff(rules: Rules, rank: map<nat, nat>, idx: nat, msg: string, fuel: nat, n: nat)
    requires Ranked(rules, rank) && NoEmptyAlternative(rules) && fuel >= Height(rules, rank, idx)
    ensures n in Ends(rules, idx, msg, fuel) <==> n <= |msg| && Derives(rules, rank, idx, msg[..n])
    decreases Height(rules, rank, idx), 2
  {
    if idx in rules {
      AltsEndsIff(rules, rank, rules[idx], Height(rules, rank, idx), msg, fuel - 1, n);
    }
  }

  lemma {:induction false} AltsEndsIff(rules: Rules, rank: map<nat, nat>, alts: seq<Alternative>, bound: nat,
                                       msg: string, fuel: nat, n: nat)
    requires Ranked(rules, rank) && NoEmptyAlternative(rules) && AltsBelow(rules, rank, alts, bound)
    requires (forall a :: 0 <= a < |alts| ==> alts[a] != []) && fuel + 1 >= bound
    ensures n in AltsEnds(rules, alts, msg, fuel)
        <==> n <= |msg| && exists a :: 0 <= a < |alts| && SeqDerives(rules, rank, alts[a], bound, msg[..n])
    decreases bound, 1, |alts|
  {
    if alts != [] {
      var rest := alts[1..];
      PartsEndsIff(rules, rank, alts[0], bound, msg, 0, fuel, n);
      AltsEndsIff(rules, rank, rest, bound, msg, fuel, n);
      if n <= |msg| {
        assert msg[0..n] == msg[..n];
        if exists a :: 0 <= a < |alts| && SeqDerives(rules, rank, alts[a], bound, msg[..n]) {
          var a :| 0 <= a < |alts| && SeqDerives(rules, rank, alts[a], bound, msg[..n]);
          if a > 0 {
            assert rest[a - 1] == alts[a];
          }
        }
        if exists a :: 0 <= a < |rest| && SeqDerives(rules, rank, rest[a], bound, msg[..n]) {
          var a :| 0 <= a < |rest| && SeqDerives(rules, rank, rest[a], bound, msg[..n]);
          assert alts[a + 1] == rest[a];
        }
      }
    }
  }

  lemma {:induction false} PartsEndsIff(rules: Rules, rank: map<nat, nat>, parts: Alternative, bound: nat,
                                        msg: string, at: nat, fuel: nat, n: nat)
    requires Ranked(rules, rank) && NoEmptyAlternative(rules) && PartsBelow(rules, rank, parts, bound)
    requires parts != [] && at <= |msg| && fuel + 1 >= bound
    ensures n in PartsEnds(rules, parts, msg, at, fuel) <==> at <= n <= |msg| && SeqDerives(rules, rank, parts, bound, msg[at..n])
    decreases bound, 0, |parts|, 2
  {
    if at == |msg| {
      if at <= n <= |msg| {
        assert msg[at..n] == [];
        SeqNonEmpty(rules, rank, parts, bound, msg[at..n]);
      }
    } else if parts[0].Literal? {
      if |parts| == 1 {
        LiteralLastIff(rules, rank, parts, bound, msg, at, fuel, n);
      } else {
        LiteralFrontIff(rules, rank, parts, bound, msg, at, fuel, n);
      }
    } else {
      if |parts| == 1 {
        IdxLastIff(rules, rank, parts, bound, msg, at, fuel, n);
      } else {
        IdxFrontIff(rules, rank, parts, bound, msg, at, fuel, n);
      }
    }
  }

  lemma LiteralLastIff(rules: Rules, rank: map<nat, nat>, parts: Alternative, bound: nat,
                       msg: string, at: nat, fuel: nat, n: nat)
    requires Ranked(rules, rank) && PartsBelow(rules, rank, parts, bound)
    requires |parts| == 1 && parts[0].Literal? && at < |msg|
    ensures n in PartsEnds(rules, parts, msg, at, fuel) <==> at <= n <= |msg| && SeqDerives(rules, rank, parts, bound, msg[at..n])
  {
    var c := parts[0].c;
    assert parts[1..] == [];
    if at <= n <= |msg| && msg[at..n] == [c] {
      assert n == at + 1 && msg[at] == c;
    }
    if n == at + 1 && msg[at] == c {
      assert msg[at..n] == [c];
    }
  }

  lemma {:induction false} LiteralFrontIff(rules: Rules, rank: map<nat, nat>, parts: Alternative, bound: nat,
                                           msg: string, at: nat, fuel: nat, n: nat)
    requires Ranked(rules, rank) && NoEmptyAlternative(rules) && PartsBelow(rules, rank, parts, bound)
    requires |parts| >= 2 && parts[0].Literal? && at < |msg| && fuel + 1 >= bound
    ensures n in PartsEnds(rules, parts, msg, at, fuel) <==> at <= n <= |msg| && SeqDerives(rules, rank, parts, bound, msg[at..n])
    decreases bound, 0, |parts|, 1
  {
    PartsEndsIff(rules, rank, parts[1..], bound, msg, at + 1, fuel, n);
    if at <= n <= |msg| {
      LiteralSplit(rules, rank, parts, bound, msg[at..n]);
      if at + 1 <= n {
        assert msg[at..n][1..] == msg[at + 1..n];
      }
    }
  }

  /** An alternative opening with a literal derives exactly that character followed by what the rest derives. */
  lemma LiteralSplit(rules: Rules, rank: map<nat, nat>, parts: Alternative, bound: nat, s: string)
    requires Ranked(rules, rank) && NoEmptyAlternative(rules) && PartsBelow(rules, rank, parts, bound)
    requires |parts| >= 2 && parts[0].Literal?
    ensures SeqDerives(rules, rank, parts, bound, s)
        <==> |s| >= 1 && s[0] == parts[0].c && SeqDerives(rules, rank, parts[1..], bound, s[1..])
  {
    var c, rest := parts[0].c, parts[1..];
    SeqDerivesFront(rules, rank, parts, bound, s);
    if SeqDerives(rules, rank, parts, bound, s) {
      var k :| 0 <= k <= |s| && PartDerives(rules, rank, parts[0], bound, s[..k])
               && SeqDerives(rules, rank, rest, bound, s[k..]);
      assert s[..k] == [c];
      assert k == 1;
    }
    if |s| >= 1 && s[0] == c && SeqDerives(rules, rank, rest, bound, s[1..]) {
      assert s[..1] == [c];
    }
  }

  lemma {:induction false} IdxLastIff(rules: Rules, rank: map<nat, nat>, parts: Alternative, bound: nat,
                                      msg: string, at: nat, fuel: nat, n: nat)
    requires Ranked(rules, rank) && NoEmptyAlternative(rules) && PartsBelow(rules, rank, parts, bound)
    requires |parts| == 1 && parts[0].Idx? && at < |msg| && fuel + 1 >= bound
    ensures n in PartsEnds(rules, parts, msg, at, fuel) <==> at <= n <= |msg| && SeqDerives(rules, rank, parts, bound, msg[at..n])
    decreases bound, 0, |parts|, 1
  {
    var j := parts[0].index;
    var tail := msg[at..];
    assert parts[1..] == [];
    if n in PartsEnds(rules, parts, msg, at, fuel) {
      var k :| k in Ends(rules, j, tail, fuel) && n in EndsAfter(rules, [], msg, at, k, fuel);
      EndsIff(rules, rank, j, tail, fuel, k);
      assert at + k <= |msg| && n in PartsEnds(rules, [], msg, at + k, fuel);
      assert n == at + k && tail[..k] == msg[at..n];
    }
    if at <= n <= |msg| && SeqDerives(rules, rank, parts, bound, msg[at..n]) {
      EndsIff(rules, rank, j, tail, fuel, n - at);
      assert tail[..n - at] == msg[at..n];
      assert n in EndsAfter(rules, [], msg, at, n - at, fuel);
    }
  }

  lemma {:induction false} IdxFrontIff(rules: Rules, rank: map<nat, nat>, parts: Alternative, bound: nat,
                                       msg: string, at: nat, fuel: nat, n: nat)
    requires Ranked(rules, rank) && NoEmptyAlternative(rules) && PartsBelow(rules, rank, parts, bound)
    requires |parts| >= 2 && parts[0].Idx? && at < |msg| && fuel + 1 >= bound
    ensures n in PartsEnds(rules, parts, msg, at, fuel) <==> at <= n <= |msg| && SeqDerives(rules, rank, parts, bound, msg[at..n])
    decreases bound, 0, |parts|, 1
  {
    var j, rest := parts[0].index, parts[1..];
    var tail := msg[at..];
    SeqDerivesFront(rules, rank, parts, bound, []);
    if n in PartsEnds(rules, parts, msg, at, fuel) {
      var k :| k in Ends(rules, j, tail, fuel) && n in EndsAfter(rules, rest, msg, at, k, fuel);
      IdxFrontStep(rules, rank, parts, bound, msg, at, fuel, n, k);
    }
    if at <= n <= |msg| && SeqDerives(rules, rank, parts, bound, msg[at..n]) {
      var s := msg[at..n];
      SeqDerivesFront(rules, rank, parts, bound, s);
      var k :| 0 <= k <= |s| && PartDerives(rules, rank, parts[0], bound, s[..k])
               && SeqDerives(rules, rank, rest, bound, s[k..]);
      IdxBackStep(rules, rank, parts, bound, msg, at, fuel, n, k);
    }
  }

  /** A match of the rule number and then of the rest is a derivation of the whole. */
  lemma {:induction false} IdxFrontStep(rules: Rules, rank: map<nat, nat>, parts: Alternative, bound: nat,
                                        msg: string, at: nat, fuel: nat, n: nat, k: nat)
    requires Ranked(rules, rank) && NoEmptyAlternative(rules) && PartsBelow(rules, rank, parts, bound)
    requires |parts| >= 2 && parts[0].Idx? && at < |msg| && fuel + 1 >= bound
    requires PartsBelow(rules, rank, parts[1..], bound)
    requires k in Ends(rules, parts[0].index, msg[at..], fuel) && n in EndsAfter(rules, parts[1..], msg, at, k, fuel)
    ensures at <= n <= |msg| && SeqDerives(rules, rank, parts, bound, msg[at..n])
    decreases bound, 0, |parts|, 0
  {
    var j, rest := parts[0].index, parts[1..];
    var tail := msg[at..];
    assert at + k <= |msg| && n in PartsEnds(rules, rest, msg, at + k, fuel);
    EndsIff(rules, rank, j, tail, fuel, k);
    PartsEndsIff(rules, rank, rest, bound, msg, at + k, fuel, n);
    var s := msg[at..n];
    assert s[..k] == tail[..k] && s[k..] == msg[at + k..n];
    SeqDerivesFront(rules, rank, parts, bound, s);
  }

  /** A derivation split after the rule number is a match of the number and then of the rest. */
  lemma {:induction false} IdxBackStep(rules: Rules, rank: map<nat, nat>, parts: Alternative, bound: nat,
                                       msg: string, at: nat, fuel: nat, n: nat, k: nat)
    requires Ranked(rules, rank) && NoEmptyAlternative(rules) && PartsBelow(rules, rank, parts, bound)
    requires |parts| >= 2 && parts[0].Idx? && at < |msg| && fuel + 1 >= bound && at <= n <= |msg| && k <= n - at
    requires PartsBelow(rules, rank, parts[1..], bound)
    requires PartDerives(rules, rank, parts[0], bound, msg[at..n][..k])
    requires SeqDerives(rules, rank, parts[1..], bound, msg[at..n][k..])
    ensures n in PartsEnds(rules, parts, msg, at, fuel)
    decreases bound, 0, |parts|, 0
  {
    var j, rest := parts[0].index, parts[1..];
    var tail := msg[at..];
    var s := msg[at..n];
    assert s[..k] == tail[..k] && s[k..] == msg[at + k..n];
    EndsIff(rules, rank, j, tail, fuel, k);
    PartsEndsIff(rules, rank, rest, bound, msg, at + k, fuel, n);
    assert n in EndsAfter(rules, rest, msg, at, k, fuel);
  }

  /* ---------------------------------------------------------------- */
  /* Counting the valid messages                                       */
  /* ---------------------------------------------------------------- */

  /** On rules without loops or empty alternatives, and with enough fuel, the matcher accepts exactly the language of rule 0. */
  lemma ValidMessageIff(rules: Rules, rank: map<nat, nat>, msg: string, fuel: nat)
    requires Ranked(rules, rank) && NoEmptyAlternative(rules) && fuel >= Height(rules, rank, 0)
    ensures ValidMessage(rules, msg, fuel) <==> Derives(rules, rank, 0, msg)
  {
    EndsIff(rules, rank, 0, msg, fuel, |msg|);
    assert msg[..|msg|] == msg;
  }

  /** Number of messages the matcher accepts against rule 0. */
  function MatchCount(rules: Rules, messages: seq<string>, fuel: nat): (n: nat)
    ensures n <= |messages|
  {
    if messages == [] then 0
    else
      MatchCount(rules, messages[..|messages| - 1], fuel)
        + if ValidMessage(rules, messages[|messages| - 1], fuel) then 1 else 0
  }

  /** On rules part one can expand, the matcher counts the same messages as the expansion. */
  lemma {:induction false} MatchCountAgrees(rules: Rules, rank: map<nat, nat>, messages: seq<string>, fuel: nat)
    requires Ranked(rules, rank) && NoEmptyAlternative(rules) && fuel >= Height(rules, rank, 0)
    ensures MatchCount(rules, messages, fuel) == ValidCount(rules, rank, messages)
  {
    if messages != [] {
      MatchCountAgrees(rules, rank, messages[..|messages| - 1], fuel);
      ValidMessageIff(rules, rank, messages[|messages| - 1], fuel);
    }
  }

  /** `main`: patch rules 8 and 11, then count the messages rule 0 matches. */
  method CountValidMessages(rules: Rules, messages: seq<string>, fuel: nat) returns (n: nat)
    ensures n == MatchCount(Patched(rules), messages, fuel)
  {
    var patched := Patched(rules);
    n := 0;
    for i := 0 to |messages|
      invariant n == MatchCount(patched, messages[..i], fuel)
    {
      assert messages[..i + 1][..i] == messages[..i];
      var valid := ValidMessage(patched, messages[i], fuel);
      if valid {
        n := n + 1;
      }
    }
    assert messages[..|messages|] == messages;
  }
}
