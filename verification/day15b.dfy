/**
 * Day 15, part two: the same memory game played for many more turns, with
 * lighter bookkeeping: `memory` maps each number to the last turn it was
 * spoken on, and recording a number answers the next number at once (the
 * turn count back to its previous utterance, or 0).
 *
 * As written, the answer computed when the last starting number is
 * recorded is thrown away and the first generated number is always 0. That
 * agrees with the game only when the last starting number does not occur
 * earlier among the starting numbers; `PlayAsWritten` models the code as
 * written and `Play` keeps that answer.
 */
module Day15b {
  import opened Common
  import Day15a

  /** The entry for `x`: present exactly when `x` was spoken, holding the last turn it was spoken on. */
  ghost predicate Entry(h: seq<nat>, memory: map<nat, nat>, x: nat) {
    && (x in memory <==> x in h)
    && (x in memory ==> MostRecent(h, x, memory[x]))
  }

  /** `x` was spoken on turn `t` and not since. */
  ghost predicate MostRecent(h: seq<nat>, x: nat, t: nat) {
    t < |h| && h[t] == x && forall k :: t < k < |h| ==> h[k] != x
  }

  /** `memory` holds, for each number spoken in `h` and no other, the last turn it was spoken on. */
  ghost predicate Tracks(h: seq<nat>, memory: map<nat, nat>) {
    forall x :: Entry(h, memory, x)
  }

  /** Recording `n` on the next turn keeps `memory` in step with the turns. */
  lemma TracksRecord(h: seq<nat>, memory: map<nat, nat>, n: nat)
    requires Tracks(h, memory)
    ensures Tracks(h + [n], memory[n := |h|])
  {
    var h' := h + [n];
    var memory' := memory[n := |h|];
    forall x
      ensures Entry(h', memory', x)
    {
      assert Entry(h, memory, x);
      if x != n && x in memory {
        assert h'[memory[x]] == h[memory[x]];
        forall k | memory[x] < k < |h'|
          ensures h'[k] != x
        {
          if k < |h| {
            assert h'[k] == h[k];
          }
        }
      }
      if x != n && x in h' {
        var k :| 0 <= k < |h'| && h'[k] == x;
        assert k < |h| && h[k] == x;
      }
    }
  }

  /**
   * The answer `record_number` gives: with `n`'s previous turn in
   * `memory` it is the game's next number after `h + [n]`.
   */
  lemma RecordAnswer(h: seq<nat>, memory: map<nat, nat>, n: nat)
    requires Tracks(h, memory)
    ensures n in memory ==> memory[n] < |h|
    ensures Day15a.NextNumber(h + [n]) == if n in memory then |h| - memory[n] else 0
  {
    var h' := h + [n];
    assert Entry(h, memory, n);
    if n in memory {
      var p := memory[n];
      assert h'[p] == h[p];
      forall k | p < k < |h'| - 1
        ensures h'[k] != h'[|h'| - 1]
      {
        assert h'[k] == h[k];
      }
      Day15a.NextIsGap(h', p);
    } else {
      forall j | 0 <= j < |h'| - 1
        ensures h'[j] != h'[|h'| - 1]
      {
        assert h'[j] == h[j];
      }
      Day15a.NextNumberMeaning(h');
    }
  }

  /** The program's state: `memory`, `last_number` and `round` of `play_game`. */
  class Game {
    /** For each number spoken so far, the last turn it was spoken on. */
    var memory: map<nat, nat>
    var lastNumber: Option<nat>
    var round: nat
    /** The numbers spoken so far. */
    ghost var history: seq<nat>

    ghost predicate Valid()
      reads this
    {
      && round == |history|
      && lastNumber == (if |history| == 0 then None else Some(history[|history| - 1]))
      && Tracks(history, memory)
    }

    constructor ()
      ensures Valid() && history == []
    {
      memory := map[];
      lastNumber := None;
      round := 0;
      history := [];
    }

    /**
     * `record_number`: `n` becomes the last number and is mapped to the
     * current turn, the turn count advances, and the answer is the turn
     * count back to `n`'s previous turn, or 0 if it had none, which is the
     * game's next number.
     */
    method RecordNumber(n: nat) returns (next: nat)
      requires Valid()
      modifies this
      ensures Valid() && history == old(history) + [n]
      ensures lastNumber == Some(n) && round == old(round) + 1
      ensures memory == old(memory)[n := old(round)]
      ensures next == Day15a.NextNumber(history)
    {
      RecordAnswer(history, memory, n);
      TracksRecord(history, memory, n);
      if n in memory {
        next := round - memory[n];
      } else {
        next := 0;
      }
      lastNumber := Some(n);
      memory := memory[n := round];
      round := round + 1;
      history := history + [n];
    }
  }

  /**
   * The turns the program as written speaks: the starting numbers, then a
   * 0, then the game's rule.
   */
  function AsWritten(starts: seq<nat>, n: nat): (r: seq<nat>)
    requires |starts| > 0
    ensures |r| == if n <= |starts| then |starts| else n
    ensures starts <= r
    ensures n > |starts| ==> r[|starts|] == 0
  {
    if n <= |starts| then starts
    else if n == |starts| + 1 then starts + [0]
    else var h := AsWritten(starts, n - 1); h + [Day15a.NextNumber(h)]
  }

  /** One more turn of the program as written: a 0 right after the starting numbers, the rule after that. */
  lemma AsWrittenStep(starts: seq<nat>, n: nat)
    requires |starts| > 0 && n >= |starts|
    ensures AsWritten(starts, n + 1) ==
      AsWritten(starts, n) + [if n == |starts| then 0 else Day15a.NextNumber(AsWritten(starts, n))]
  {
  }

  /**
   * When the last starting number does not occur earlier among them, the
   * game's first generated number is 0 and the program as written plays
   * the game.
   */
  lemma {:induction false} AsWrittenAgrees(starts: seq<nat>, n: nat)
    requires |starts| > 0
    requires forall j :: 0 <= j < |starts| - 1 ==> starts[j] != starts[|starts| - 1]
    ensures AsWritten(starts, n) == Day15a.Spoken(starts, n)
    decreases n
  {
    if n == |starts| + 1 {
      Day15a.NextNumberMeaning(starts);
    } else if n > |starts| + 1 {
      AsWrittenAgrees(starts, n - 1);
    }
  }

  /**
   * With the starting numbers 1, 2, 1 the fourth number of the game is 2
   * (1 was last spoken two turns before), yet the program as written
   * speaks 0 there.
   */
  lemma RepeatedLastStart(starts: seq<nat>)
    requires starts == [1, 2, 1]
    ensures AsWritten(starts, 4) == [1, 2, 1, 0]
    ensures Day15a.Spoken(starts, 4) == [1, 2, 1, 2]
    ensures Day15a.Answer(starts, 4) == 2
  {
    Day15a.NextIsGap(starts, 0);
    Day15a.SpokenStep(starts, 3);
  }

  /** The starting numbers, recorded in order; the answer for the last one is returned. */
  method RecordStarts(game: Game, starts: seq<nat>) returns (next: nat)
    requires game.Valid() && game.history == [] && |starts| > 0
    modifies game
    ensures game.Valid() && game.history == starts
    ensures next == Day15a.NextNumber(starts)
  {
    next := 0;
    for k := 0 to |starts|
      invariant game.Valid() && game.history == starts[..k]
      invariant k > 0 ==> next == Day15a.NextNumber(starts[..k])
    {
      next := game.RecordNumber(starts[k]);
      assert starts[..k + 1] == starts[..k] + [starts[k]];
    }
    assert starts[..|starts|] == starts;
  }

  /**
   * `play_game` as written: after the starting numbers the next number is
   * reset to 0, then each recorded number's answer is the next number.
   */
  method PlayAsWritten(starts: seq<nat>, rounds: nat) returns (r: nat)
    requires |starts| > 0
    ensures var h := AsWritten(starts, rounds); r == h[|h| - 1]
  {
    var game := new Game();
    var ignored := RecordStarts(game, starts);
    var next := 0;
    while game.round < rounds
      invariant game.Valid() && game.history == AsWritten(starts, game.round)
      invariant game.round <= rounds || game.round == |starts|
      invariant next == if game.round == |starts| then 0 else Day15a.NextNumber(game.history)
      decreases rounds - game.round
    {
      AsWrittenStep(starts, game.round);
      next := game.RecordNumber(next);
    }
    assert AsWritten(starts, rounds) == game.history;
    return game.lastNumber.value;
  }

  /**
   * `play_game` with the answer for the last starting number kept: the
   * number spoken on the last turn of the game.
   */
  method Play(starts: seq<nat>, rounds: nat) returns (r: nat)
    requires |starts| > 0
    ensures r == Day15a.Answer(starts, rounds)
  {
    var game := new Game();
    var next := RecordStarts(game, starts);
    while game.round < rounds
      invariant game.Valid() && game.history == Day15a.Spoken(starts, game.round)
      invariant game.round <= rounds || game.round == |starts|
      invariant next == Day15a.NextNumber(game.history)
      decreases rounds - game.round
    {
      Day15a.SpokenStep(starts, game.round);
      next := game.RecordNumber(next);
    }
    assert Day15a.Spoken(starts, rounds) == game.history;
    return game.lastNumber.value;
  }

  /**
   * `play_game`: the starting numbers from the first line, then the game.
   * `None` is the panic on an unparsable first line.
   */
  method PlayGame(lines: seq<string>, rounds: nat) returns (r: Option<nat>)
    ensures r.None? <==> Day15a.ParseStarts(lines).None?
    ensures r.Some? ==> r.value == Day15a.Answer(Day15a.ParseStarts(lines).value, rounds)
  {
    var parsed := Day15a.ParseStarts(lines);
    if parsed.None? {
      return None;
    }
    var answer := Play(parsed.value, rounds);
    return Some(answer);
  }

  /** For the starting numbers 0, 3, 6 the program as written plays the game: its tenth number is 0. */
  lemma Example(starts: seq<nat>)
    requires starts == [0, 3, 6]
    ensures AsWritten(starts, 10) == [0, 3, 6, 0, 3, 3, 1, 0, 4, 0]
  {
    AsWrittenAgrees(starts, 10);
    Day15a.Example(starts);
  }
}
