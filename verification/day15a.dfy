/**
 * Day 15, part one: the elves' memory game. The starting numbers are
 * spoken in turn; after them each turn looks at the number just spoken and
 * speaks 0 if that was its first time, and otherwise how many turns apart
 * its two most recent utterances were. The program answers the number
 * spoken on the last turn.
 *
 * Turns are counted from 0 (the source's `round`). The game itself is
 * specified by `Spoken`; the class `Game` is the program's bookkeeping: a
 * map from each number to the (at most two) most recent turns it was
 * spoken on.
 */
module Day15a {
  import opened Common

  /** The turns (indices into `h`) on which `x` was spoken, in increasing order. */
  function Occurrences(h: seq<nat>, x: nat): (r: seq<nat>)
    decreases |h|
  {
    if |h| == 0 then []
    else Occurrences(h[..|h| - 1], x) + (if h[|h| - 1] == x then [|h| - 1] else [])
  }

  /** Speaking one more number adds its turn to that number's occurrences only. */
  lemma OccurrencesSnoc(h: seq<nat>, n: nat, x: nat)
    ensures Occurrences(h + [n], x) == Occurrences(h, x) + (if n == x then [|h|] else [])
  {
    assert (h + [n])[..|h|] == h;
  }

  /** `Occurrences` lists exactly the turns on which `x` was spoken, each below `|h|`, in increasing order. */
  lemma {:induction false} OccurrencesMeaning(h: seq<nat>, x: nat)
    ensures forall i: nat :: i in Occurrences(h, x) <==> i < |h| && h[i] == x
    ensures Increasing(Occurrences(h, x))
    decreases |h|
  {
    if |h| > 0 {
      var init := h[..|h| - 1];
      OccurrencesMeaning(init, x);
      var prev := Occurrences(init, x);
      var r := Occurrences(h, x);
      assert r == prev + (if h[|h| - 1] == x then [|h| - 1] else []);
      forall i: nat
        ensures i in r <==> i < |h| && h[i] == x
      {
        if i < |h| - 1 {
          assert h[i] == init[i];
        }
      }
      if h[|h| - 1] == x {
        forall a | 0 <= a < |prev|
          ensures prev[a] < |h| - 1
        {
          assert prev[a] in prev;
        }
        IncreasingSnoc(prev, |h| - 1);
      }
    }
  }

  /** Strictly increasing. */
  predicate Increasing(s: seq<nat>) {
    forall a, b :: 0 <= a < b < |s| ==> s[a] < s[b]
  }

  lemma IncreasingSnoc(s: seq<nat>, v: nat)
    requires Increasing(s) && forall a :: 0 <= a < |s| ==> s[a] < v
    ensures Increasing(s + [v])
  {
  }

  /** Every recorded turn lies inside `h`. */
  lemma {:induction false} OccurrencesBelow(h: seq<nat>, x: nat)
    ensures forall k :: 0 <= k < |Occurrences(h, x)| ==> Occurrences(h, x)[k] < |h|
    decreases |h|
  {
    if |h| > 0 {
      OccurrencesBelow(h[..|h| - 1], x);
    }
  }

  /** The most recent two elements of a sequence (all of it when shorter). */
  function LastTwo(q: seq<nat>): (r: seq<nat>)
    ensures |r| == if |q| < 2 then |q| else 2
  {
    if |q| <= 2 then q else q[|q| - 2..]
  }

  /**
   * The source's per-number queue update: append the turn and, when the
   * queue then holds three turns, drop the oldest.
   */
  function Push(q: seq<nat>, turn: nat): (r: seq<nat>)
    ensures |q| <= 2 ==> |r| <= 2
    ensures |r| > 0 && r[|r| - 1] == turn
  {
    var q' := q + [turn];
    if |q'| == 3 then q'[1..] else q'
  }

  /** Keeping the last two and pushing keeps the last two of the longer list. */
  lemma PushLastTwo(q: seq<nat>, turn: nat)
    ensures Push(LastTwo(q), turn) == LastTwo(q + [turn])
  {
    if |q| > 2 {
      assert (q + [turn])[|q| - 1..] == [q[|q| - 1], turn];
      assert q[|q| - 2..][1..] == [q[|q| - 1]];
    }
  }

  /**
   * The number spoken after the turns `h`: 0 when the last number had not
   * been spoken before, otherwise the distance between its two most recent
   * turns.
   */
  function NextNumber(h: seq<nat>): nat
    requires |h| > 0
  {
    var occ := Occurrences(h, h[|h| - 1]);
    if |occ| >= 2 then
      LastOccurrences(h);
      OccurrencesBelow(h[..|h| - 1], h[|h| - 1]);
      occ[|occ| - 1] - occ[|occ| - 2]
    else 0
  }

  /** The turns on which the last number was spoken before the last turn. */
  lemma LastOccurrences(h: seq<nat>)
    requires |h| > 0
    ensures var prev := Occurrences(h[..|h| - 1], h[|h| - 1]);
      Occurrences(h, h[|h| - 1]) == prev + [|h| - 1]
  {
    var init := h[..|h| - 1];
    assert init + [h[|h| - 1]] == h;
    OccurrencesSnoc(init, h[|h| - 1], h[|h| - 1]);
  }

  /**
   * The rule of the game in its own words: the next number is 0 exactly
   * when the last number had not been spoken before.
   */
  lemma NextNumberMeaning(h: seq<nat>)
    requires |h| > 0
    ensures NextNumber(h) == 0 <==> forall j :: 0 <= j < |h| - 1 ==> h[j] != h[|h| - 1]
  {
    var last := h[|h| - 1];
    var init := h[..|h| - 1];
    LastOccurrences(h);
    OccurrencesMeaning(init, last);
    var prev := Occurrences(init, last);
    if |prev| > 0 {
      var p := prev[|prev| - 1];
      assert p in prev;
      assert h[p] == init[p];
    } else {
      forall j | 0 <= j < |h| - 1
        ensures h[j] != last
      {
        assert h[j] == init[j];
        assert j !in prev;
      }
    }
  }

  /**
   * When the last number was spoken before, most recently on turn `j`, the
   * next number is the turn count back to `j`.
   */
  lemma NextIsGap(h: seq<nat>, j: nat)
    requires j < |h| - 1 && h[j] == h[|h| - 1]
    requires forall k :: j < k < |h| - 1 ==> h[k] != h[|h| - 1]
    ensures NextNumber(h) == |h| - 1 - j
  {
    var last := h[|h| - 1];
    var init := h[..|h| - 1];
    LastOccurrences(h);
    OccurrencesMeaning(init, last);
    var prev := Occurrences(init, last);
    assert h[j] == init[j];
    assert j in prev;
    var p := prev[|prev| - 1];
    assert p in prev;
    assert h[p] == init[p];
    assert forall a :: 0 <= a < |prev| ==> prev[a] <= p;
    assert j <= p;
  }

  /**
   * The numbers spoken in the first `n` turns, or all the starting numbers
   * when there are more of them than `n`.
   */
  function Spoken(starts: seq<nat>, n: nat): (r: seq<nat>)
    requires |starts| > 0
    ensures |r| == if n <= |starts| then |starts| else n
    ensures starts <= r
  {
    if n <= |starts| then starts
    else var h := Spoken(starts, n - 1); h + [NextNumber(h)]
  }

  /** Each turn after the starting numbers follows the rule. */
  lemma {:induction false} SpokenRule(starts: seq<nat>, n: nat, t: nat)
    requires |starts| > 0 && |starts| <= t < n
    ensures Spoken(starts, n)[t] == NextNumber(Spoken(starts, n)[..t])
    decreases n
  {
    var h := Spoken(starts, n - 1);
    assert Spoken(starts, n) == h + [NextNumber(h)];
    if t == n - 1 {
      assert (h + [NextNumber(h)])[..t] == h;
    } else {
      SpokenRule(starts, n - 1, t);
      assert (h + [NextNumber(h)])[..t] == h[..t];
    }
  }

  /** A game longer by one turn extends the shorter one. */
  lemma SpokenStep(starts: seq<nat>, n: nat)
    requires |starts| > 0 && n >= |starts|
    ensures Spoken(starts, n + 1) == Spoken(starts, n) + [NextNumber(Spoken(starts, n))]
  {
  }

  /** The number spoken on the last of `rounds` turns (the last starting number when there are more of those). */
  function Answer(starts: seq<nat>, rounds: nat): nat
    requires |starts| > 0
  {
    var h := Spoken(starts, rounds); h[|h| - 1]
  }

  /**
   * The starting numbers on the first line of the input: trimmed, split on
   * commas, each parsed as a `u64`. `None` is the source's panic (no line,
   * or a piece that is not a number).
   */
  function ParseStarts(lines: seq<string>): (r: Option<seq<nat>>)
    ensures r.Some? ==> |r.value| > 0 && forall k :: 0 <= k < |r.value| ==> r.value[k] < U64_LIMIT
  {
    if |lines| == 0 then None
    else ParsePieces(Split(Trim(lines[0]), ','))
  }

  /** Every piece parsed as a `u64`, or `None` at the first that does not parse. */
  function ParsePieces(pieces: seq<string>): (r: Option<seq<nat>>)
    ensures r.Some? ==> |r.value| == |pieces|
    ensures r.Some? ==> forall k :: 0 <= k < |r.value| ==> ParseUnsigned(pieces[k], U64_LIMIT) == Some(r.value[k])
    ensures r.None? ==> exists k :: 0 <= k < |pieces| && ParseUnsigned(pieces[k], U64_LIMIT).None?
  {
    if |pieces| == 0 then Some([])
    else match (ParseUnsigned(pieces[0], U64_LIMIT), ParsePieces(pieces[1..]))
      case (Some(v), Some(rest)) => Some([v] + rest)
      case (None, _) => None
      case (_, None) => None
  }

  /** The numbers printed with commas between them parse back. */
  lemma {:induction false} ParseFormatStarts(starts: seq<nat>)
    requires |starts| > 0 && forall k :: 0 <= k < |starts| ==> starts[k] < U64_LIMIT
    ensures ParseStarts([Join(Formatted(starts), ',')]) == Some(starts)
  {
    var pieces := Formatted(starts);
    FormattedNoComma(starts);
    SplitJoin(pieces, ',');
    var line := Join(pieces, ',');
    TrimFormatted(starts);
    assert Trim(line) == line;
    FormattedParse(starts);
  }

  /** Each number in decimal. */
  function Formatted(starts: seq<nat>): (r: seq<string>)
    ensures |r| == |starts|
    ensures forall k :: 0 <= k < |r| ==> r[k] == ToDecimal(starts[k])
  {
    if |starts| == 0 then [] else [ToDecimal(starts[0])] + Formatted(starts[1..])
  }

  lemma FormattedNoComma(starts: seq<nat>)
    ensures forall k :: 0 <= k < |starts| ==> ',' !in Formatted(starts)[k]
  {
    forall k | 0 <= k < |starts|
      ensures ',' !in Formatted(starts)[k]
    {
      var d := Formatted(starts)[k];
      assert forall i :: 0 <= i < |d| ==> d[i] != ',';
    }
  }

  /** The printed line neither starts nor ends with whitespace. */
  lemma TrimFormatted(starts: seq<nat>)
    requires |starts| > 0
    ensures Trim(Join(Formatted(starts), ',')) == Join(Formatted(starts), ',')
  {
    var pieces := Formatted(starts);
    var line := Join(pieces, ',');
    var first := pieces[0];
    var final := pieces[|pieces| - 1];
    JoinSuffix(pieces, ',');
    assert line[0] == first[0] && IsDigit(first[0]);
    assert line[|line| - 1] == final[|final| - 1] && IsDigit(final[|final| - 1]);
    TrimUnchanged(line);
  }

  lemma {:induction false} FormattedParse(starts: seq<nat>)
    requires forall k :: 0 <= k < |starts| ==> starts[k] < U64_LIMIT
    ensures ParsePieces(Formatted(starts)) == Some(starts)
  {
    if |starts| > 0 {
      ParseUnsignedToDecimal(starts[0], U64_LIMIT);
      FormattedParse(starts[1..]);
      assert Formatted(starts)[1..] == Formatted(starts[1..]);
      assert [starts[0]] + starts[1..] == starts;
    }
  }

  /** `memory` holds, for each number spoken in `h` and no other, the last two turns it was spoken on. */
  ghost predicate Tracks(h: seq<nat>, memory: map<nat, seq<nat>>) {
    forall x :: Entry(h, memory, x)
  }

  /** The entry for `x`: present exactly when `x` was spoken, holding its last two turns. */
  ghost predicate Entry(h: seq<nat>, memory: map<nat, seq<nat>>, x: nat) {
    && (x in memory <==> x in h)
    && (x in memory ==> memory[x] == LastTwo(Occurrences(h, x)))
  }

  /** Recording `n` on the next turn keeps `memory` in step with the turns. */
  lemma TracksRecord(h: seq<nat>, memory: map<nat, seq<nat>>, n: nat)
    requires Tracks(h, memory)
    ensures Tracks(h + [n], memory[n := Push(if n in memory then memory[n] else [], |h|)])
  {
    var memory' := memory[n := Push(if n in memory then memory[n] else [], |h|)];
    forall x
      ensures Entry(h + [n], memory', x)
    {
      if x == n {
        RecordOwn(h, memory, n);
      } else {
        assert Entry(h, memory, x);
        OccurrencesSnoc(h, n, x);
      }
    }
  }

  /** The recorded number's own queue after the push. */
  lemma RecordOwn(h: seq<nat>, memory: map<nat, seq<nat>>, n: nat)
    requires Tracks(h, memory)
    ensures Push(if n in memory then memory[n] else [], |h|) == LastTwo(Occurrences(h + [n], n))
  {
    OccurrencesSnoc(h, n, n);
    assert Entry(h, memory, n);
    if n !in memory {
      OccurrencesAbsent(h, n);
    }
    PushLastTwo(Occurrences(h, n), |h|);
  }

  /** A number never spoken has no turns. */
  lemma {:induction false} OccurrencesAbsent(h: seq<nat>, x: nat)
    requires x !in h
    ensures Occurrences(h, x) == []
  {
    if |h| > 0 {
      assert forall k :: 0 <= k < |h| - 1 ==> h[..|h| - 1][k] == h[k];
      OccurrencesAbsent(h[..|h| - 1], x);
    }
  }

  /**
   * What the last number's queue says: it holds one turn or two, and the
   * next number is 0 for one and the difference of the two otherwise.
   */
  lemma QueueNext(h: seq<nat>, q: seq<nat>)
    requires |h| > 0 && q == LastTwo(Occurrences(h, h[|h| - 1]))
    ensures |q| == 1 || |q| == 2
    ensures |q| == 1 ==> NextNumber(h) == 0
    ensures |q| == 2 ==> q[0] <= q[1] && NextNumber(h) == q[1] - q[0]
  {
    var last := h[|h| - 1];
    var prev := Occurrences(h[..|h| - 1], last);
    LastOccurrences(h);
    OccurrencesBelow(h[..|h| - 1], last);
    LastTwoSnoc(prev, |h| - 1);
  }

  /** The last two of a list that ends in `v`. */
  lemma LastTwoSnoc(prev: seq<nat>, v: nat)
    ensures LastTwo(prev + [v]) == if |prev| == 0 then [v] else [prev[|prev| - 1], v]
  {
  }

  /** The program's state: `memory`, `last_number` and `round` of `play_game`. */
  class Game {
    /** For each number spoken so far, the (at most two) most recent turns it was spoken on. */
    var memory: map<nat, seq<nat>>
    var lastNumber: Option<nat>
    var round: nat
    /** The numbers spoken so far. */
    ghost var history: seq<nat>

    ghost predicate Valid()
      reads this
    {
      && round == |history|
      && lastNumber == (if |history| == 0 then None else Some(history[|history| - 1]))
      && Tracks(history, memory)
    }

    constructor ()
      ensures Valid() && history == []
    {
      memory := map[];
      lastNumber := None;
      round := 0;
      history := [];
    }

    /**
     * `record_number`: `n` becomes the last number, the current turn is
     * pushed on its queue (dropping the oldest at three) and the turn
     * count advances.
     */
    method RecordNumber(n: nat)
      requires Valid()
      modifies this
      ensures Valid() && history == old(history) + [n]
      ensures lastNumber == Some(n) && round == old(round) + 1
      ensures memory == old(memory)[n := Push(if n in old(memory) then old(memory)[n] else [], old(round))]
    {
      var q := if n in memory then memory[n] else [];
      lastNumber := Some(n);
      memory := memory[n := Push(q, round)];
      round := round + 1;
      TracksRecord(history, old(memory), n);
      history := history + [n];
    }

    /**
     * The loop body's choice: with the last number's queue holding one
     * turn the next number is 0, with two it is their difference.
     */
    method NextFromMemory() returns (next: nat)
      requires Valid() && |history| > 0
      ensures next == NextNumber(history)
    {
      var last := history[|history| - 1];
      assert last in history && Entry(history, memory, last);
      var q := memory[lastNumber.value];
      QueueNext(history, q);
      if |q| == 1 {
        next := 0;
      } else if |q| == 2 {
        next := q[1] - q[0];
      } else {
        assert false;
      }
    }
  }

  /**
   * `play_game`: speak the starting numbers, then play turns until
   * `rounds` turns have been spoken, and answer the last number spoken.
   * `None` is the panic on an unparsable first line.
   */
  method PlayGame(lines: seq<string>, rounds: nat) returns (r: Option<nat>)
    ensures r.None? <==> ParseStarts(lines).None?
    ensures r.Some? ==> r.value == Answer(ParseStarts(lines).value, rounds)
  {
    var parsed := ParseStarts(lines);
    if parsed.None? {
      return None;
    }
    var answer := Play(parsed.value, rounds);
    return Some(answer);
  }

  /** The game proper, from the parsed starting numbers. */
  method Play(starts: seq<nat>, rounds: nat) returns (r: nat)
    requires |starts| > 0
    ensures r == Answer(starts, rounds)
  {
    var game := new Game();
    RecordStarts(game, starts);
    while game.round < rounds
      invariant game.Valid() && game.history == Spoken(starts, game.round)
      invariant game.round <= rounds || game.round == |starts|
      decreases rounds - game.round
    {
      var next := game.NextFromMemory();
      SpokenStep(starts, game.round);
      game.RecordNumber(next);
    }
    assert Spoken(starts, rounds) == game.history;
    return game.lastNumber.value;
  }

  /** The starting numbers, recorded in order on turns 0, 1, ... */
  method RecordStarts(game: Game, starts: seq<nat>)
    requires game.Valid() && game.history == []
    modifies game
    ensures game.Valid() && game.history == starts
  {
    for k := 0 to |starts|
      invariant game.Valid() && game.history == starts[..k]
    {
      game.RecordNumber(starts[k]);
      assert starts[..k + 1] == starts[..k] + [starts[k]];
    }
    assert starts[..|starts|] == starts;
  }

  /** The turns 0, 3, 6, 0, 3, 3 that open the game starting 0, 3, 6. */
  lemma ExampleOpening(starts: seq<nat>)
    requires starts == [0, 3, 6]
    ensures Spoken(starts, 6) == [0, 3, 6, 0, 3, 3]
  {
    var h := starts;
    NextNumberMeaning(h);
    SpokenStep(starts, 3);
    h := h + [0];
    NextIsGap(h, 0);
    SpokenStep(starts, 4);
    h := h + [3];
    NextIsGap(h, 1);
    SpokenStep(starts, 5);
  }

  /** The first ten turns of the game starting 0, 3, 6. */
  lemma Example(starts: seq<nat>)
    requires starts == [0, 3, 6]
    ensures Spoken(starts, 10) == [0, 3, 6, 0, 3, 3, 1, 0, 4, 0]
  {
    ExampleOpening(starts);
    var h := [0, 3, 6, 0, 3, 3];
    NextIsGap(h, 4);
    SpokenStep(starts, 6);
    h := h + [1];
    NextNumberMeaning(h);
    SpokenStep(starts, 7);
    h := h + [0];
    NextIsGap(h, 3);
    SpokenStep(starts, 8);
    h := h + [4];
    NextNumberMeaning(h);
    SpokenStep(starts, 9);
  }
}
