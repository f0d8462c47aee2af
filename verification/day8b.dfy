/**
 * Day 8, part two: exactly one `jmp` or `nop` of the boot code is corrupted;
 * changing it (`jmp` to `nop` or `nop` to `jmp`) makes the program leave
 * its last instruction, and the answer is the accumulator then.
 *
 * `run_instructions` searches depth first: at every `jmp` or `nop` it first
 * runs the rest with the instruction unchanged and, when that does not
 * finish, runs the rest with the instruction changed. As written, the run
 * after a change goes on searching, so it can change several instructions
 * (see SearchAsWritten and ChangesTwo). The model's `Search` stops searching
 * after one change, which is what the puzzle asks for.
 */
module Day8b {
  import opened Common
  import Day8a

  /** The state `run_instructions` carries; cloned before each attempt. */
  datatype RunState = RunState(accumulator: int, instructionPointer: nat, executedInstructions: set<nat>)

  /** `Result<i32, RunError>`, plus the debug build's panic. */
  datatype Outcome = Finished(acc: int) | DetectedLoop(instructionPointer: nat, accumulator: int) | Panicked

  /** The corrected instruction: `jmp` and `nop` trade places and keep their argument. */
  function Corrected(ins: Day8a.Instruction): (r: Day8a.Instruction)
    requires ins.operation != Day8a.Acc
    ensures r.argument == ins.argument && r.operation != Day8a.Acc && r.operation != ins.operation
  {
    Day8a.Instruction(if ins.operation == Day8a.Jmp then Day8a.Nop else Day8a.Jmp, ins.argument)
  }

  lemma CorrectedTwice(ins: Day8a.Instruction)
    requires ins.operation != Day8a.Acc
    ensures Corrected(Corrected(ins)) == ins
  {
  }

  /** The unrepaired outcome of a plain run. */
  function AsOutcome(s: Day8a.Stop): Outcome {
    match s
    case Exited(_, a) => Finished(a)
    case Looped(p, a) => DetectedLoop(p, a)
    case Panicked(_) => Panicked
  }

  /* ---------------------------------------------------------------- */
  /* The search                                                        */
  /* ---------------------------------------------------------------- */

  /** `run_instructions` as written: after a change the search goes on. */
  function SearchAsWritten(prog: seq<Day8a.Instruction>, pc: nat, acc: int, seen: set<nat>): Outcome
    requires Day8a.WellFormed(prog)
    decreases |Day8a.Positions(|prog|) - seen|
  {
    if pc >= |prog| then Finished(acc)
    else if pc in seen then DetectedLoop(pc, acc)
    else
      var ins := prog[pc];
      var seen' := seen + {pc};
      UnseenShrinks(Day8a.Positions(|prog|), seen, pc);
      match Day8a.Step(ins, pc, acc)
      case None => Panicked
      case Some((next, acc')) =>
        if ins.operation == Day8a.Acc then SearchAsWritten(prog, next, acc', seen')
        else
          var original := SearchAsWritten(prog, next, acc', seen');
          if original.Finished? || original.Panicked? then original
          else
            match Day8a.Step(Corrected(ins), pc, acc)
            case None => Panicked
            case Some((next2, acc2)) => SearchAsWritten(prog, next2, acc2, seen')
  }

  /**
   * The search with at most one change: while `mayRepair` holds, a `jmp` or
   * `nop` is first kept and then changed; the run after the change, and
   * every run with `mayRepair` false, is a plain run.
   */
  function Search(prog: seq<Day8a.Instruction>, pc: nat, acc: int, seen: set<nat>, mayRepair: bool): Outcome
    requires Day8a.WellFormed(prog)
    decreases |Day8a.Positions(|prog|) - seen|
  {
    if pc >= |prog| then Finished(acc)
    else if pc in seen then DetectedLoop(pc, acc)
    else
      var ins := prog[pc];
      var seen' := seen + {pc};
      UnseenShrinks(Day8a.Positions(|prog|), seen, pc);
      match Day8a.Step(ins, pc, acc)
      case None => Panicked
      case Some((next, acc')) =>
        if ins.operation == Day8a.Acc || !mayRepair then Search(prog, next, acc', seen', mayRepair)
        else
          var original := Search(prog, next, acc', seen', true);
          if original.Finished? || original.Panicked? then original
          else
            match Day8a.Step(Corrected(ins), pc, acc)
            case None => Panicked
            case Some((next2, acc2)) => Search(prog, next2, acc2, seen', false)
  }

  /* ---------------------------------------------------------------- */
  /* The imperative search                                             */
  /* ---------------------------------------------------------------- */

  /** `run_instruction`: one instruction's effect on the accumulator and pointer, `None` for a panic. */
  method RunInstruction(ins: Day8a.Instruction, acc: int, pc: nat) returns (r: Option<(nat, int)>)
    requires I32_MIN <= ins.argument <= I32_MAX
    ensures r == Day8a.Step(ins, pc, acc)
  {
    var a := acc;
    var p := pc;
    match ins.operation {
      case Acc =>
        a := a + ins.argument;
        if !(I32_MIN <= a <= I32_MAX) {
          return None;
        }
      case Jmp =>
        if ins.argument > 0 {
          p := p + ins.argument;
        } else {
          if ins.argument == I32_MIN || p < -ins.argument {
            return None;
          }
          p := p - (-ins.argument);
        }
      case Nop =>
    }
    match ins.operation {
      case Acc => p := p + 1;
      case Nop => p := p + 1;
      case Jmp =>
    }
    return Some((p, a));
  }

  /** `run_instructions` on a state, with the single-change correction. */
  method RunInstructions(prog: seq<Day8a.Instruction>, state0: RunState, mayRepair: bool) returns (r: Outcome)
    requires Day8a.WellFormed(prog)
    ensures r == Search(prog, state0.instructionPointer, state0.accumulator, state0.executedInstructions, mayRepair)
    decreases |Day8a.Positions(|prog|) - state0.executedInstructions|
  {
    var all := Day8a.Positions(|prog|);
    var state := state0;
    while state.instructionPointer < |prog|
      invariant Search(prog, state.instructionPointer, state.accumulator, state.executedInstructions, mayRepair)
             == Search(prog, state0.instructionPointer, state0.accumulator, state0.executedInstructions, mayRepair)
      invariant |all - state.executedInstructions| <= |all - state0.executedInstructions|
      decreases |all - state.executedInstructions|
    {
      var pc := state.instructionPointer;
      var instruction := prog[pc];
      if pc in state.executedInstructions {
        return DetectedLoop(pc, state.accumulator);
      }
      UnseenShrinks(all, state.executedInstructions, pc);
      var seen' := state.executedInstructions + {pc};
      state := state.(executedInstructions := seen');
      var step := RunInstruction(instruction, state.accumulator, pc);
      if step.None? {
        return Panicked;
      }
      if instruction.operation != Day8a.Acc && mayRepair {
        var tryState := state.(instructionPointer := step.value.0, accumulator := step.value.1);
        var original := RunInstructions(prog, tryState, true);
        if original.Finished? || original.Panicked? {
          return original;
        }
        var corrected := RunInstruction(Corrected(instruction), state.accumulator, pc);
        if corrected.None? {
          return Panicked;
        }
        tryState := state.(instructionPointer := corrected.value.0, accumulator := corrected.value.1);
        r := RunInstructions(prog, tryState, false);
        return;
      }
      state := state.(instructionPointer := step.value.0, accumulator := step.value.1);
    }
    return Finished(state.accumulator);
  }

  /** `main`: the search from the default state. */
  method Solve(prog: seq<Day8a.Instruction>) returns (r: Outcome)
    requires Day8a.WellFormed(prog)
    ensures r == Search(prog, 0, 0, {}, true)
  {
    r := RunInstructions(prog, RunState(0, 0, {}), true);
  }

  /* ---------------------------------------------------------------- */
  /* Changed programs                                                  */
  /* ---------------------------------------------------------------- */

  /** The program with the `jmp`/`nop` instructions at `changes` corrected. */
  function Patch(prog: seq<Day8a.Instruction>, changes: set<nat>): (p: seq<Day8a.Instruction>)
    requires Day8a.WellFormed(prog)
    requires forall k :: k in changes ==> k < |prog| && prog[k].operation != Day8a.Acc
    ensures |p| == |prog| && Day8a.WellFormed(p)
    ensures forall i :: 0 <= i < |prog| && i !in changes ==> p[i] == prog[i]
    ensures forall i :: i in changes ==> p[i] == Corrected(prog[i])
  {
    seq(|prog|, i requires 0 <= i < |prog| => if i in changes then Corrected(prog[i]) else prog[i])
  }

  predicate Changeable(prog: seq<Day8a.Instruction>, changes: set<nat>) {
    forall k :: k in changes ==> k < |prog| && prog[k].operation != Day8a.Acc
  }

  /** Without repairs the search is the plain run of part one. */
  lemma {:induction false} PlainSearch(prog: seq<Day8a.Instruction>, pc: nat, acc: int, seen: set<nat>)
    requires Day8a.WellFormed(prog)
    ensures Search(prog, pc, acc, seen, false) == AsOutcome(Day8a.Execute(prog, pc, acc, seen).end)
    decreases |Day8a.Positions(|prog|) - seen|
  {
    if pc < |prog| && pc !in seen {
      Day8a.ExecuteStep(prog, pc, acc, seen);
      match Day8a.Step(prog[pc], pc, acc)
      case None =>
      case Some((next, acc')) =>
        UnseenShrinks(Day8a.Positions(|prog|), seen, pc);
        PlainSearch(prog, next, acc', seen + {pc});
    }
  }

  /** When the program already finishes unchanged, the search returns that run's accumulator. */
  lemma {:induction false} UnchangedFirst(prog: seq<Day8a.Instruction>, pc: nat, acc: int, seen: set<nat>, mayRepair: bool)
    requires Day8a.WellFormed(prog)
    requires Day8a.Execute(prog, pc, acc, seen).end.Exited?
    ensures Search(prog, pc, acc, seen, mayRepair) == Finished(Day8a.Execute(prog, pc, acc, seen).end.acc)
    ensures SearchAsWritten(prog, pc, acc, seen) == Finished(Day8a.Execute(prog, pc, acc, seen).end.acc)
    decreases |Day8a.Positions(|prog|) - seen|
  {
    if pc < |prog| && pc !in seen {
      Day8a.ExecuteStep(prog, pc, acc, seen);
      match Day8a.Step(prog[pc], pc, acc)
      case None =>
      case Some((next, acc')) =>
        UnseenShrinks(Day8a.Positions(|prog|), seen, pc);
        UnchangedFirst(prog, next, acc', seen + {pc}, mayRepair);
        UnchangedFirst(prog, next, acc', seen + {pc}, true);
    }
  }

  /**
   * A finished search is the finished plain run of the program with at most
   * one `jmp`/`nop` changed (none when `mayRepair` is false), at a position
   * not executed before.
   */
  lemma {:induction false} SearchSound(prog: seq<Day8a.Instruction>, pc: nat, acc: int, seen: set<nat>, mayRepair: bool)
    returns (changes: set<nat>)
    requires Day8a.WellFormed(prog)
    requires Search(prog, pc, acc, seen, mayRepair).Finished?
    ensures Changeable(prog, changes) && changes !! seen && |changes| <= (if mayRepair then 1 else 0)
    ensures Day8a.Execute(Patch(prog, changes), pc, acc, seen).end.Exited?
    ensures Day8a.Execute(Patch(prog, changes), pc, acc, seen).end.acc == Search(prog, pc, acc, seen, mayRepair).acc
    decreases |Day8a.Positions(|prog|) - seen|
  {
    if pc >= |prog| || pc in seen {
      changes := {};
      return;
    }
    var ins := prog[pc];
    var seen' := seen + {pc};
    UnseenShrinks(Day8a.Positions(|prog|), seen, pc);
    var (next, acc') := Day8a.Step(ins, pc, acc).value;
    var original := Search(prog, next, acc', seen', true);
    if ins.operation == Day8a.Acc || !mayRepair || original.Finished? {
      var m := ins.operation != Day8a.Acc && mayRepair;
      changes := SearchSound(prog, next, acc', seen', if m then true else mayRepair);
      PatchedStep(prog, changes, pc, acc, seen, ins);
    } else {
      var (next2, acc2) := Day8a.Step(Corrected(ins), pc, acc).value;
      PlainSearch(prog, next2, acc2, seen');
      changes := {pc};
      var p := Patch(prog, changes);
      Day8a.ExecuteFrame(p, prog, next2, acc2, seen');
      Day8a.ExecuteStep(p, pc, acc, seen);
    }
  }

  /** Unchanged at `pc`, the changed program's run goes through the same first step. */
  lemma PatchedStep(prog: seq<Day8a.Instruction>, changes: set<nat>, pc: nat, acc: int, seen: set<nat>, ins: Day8a.Instruction)
    requires Day8a.WellFormed(prog) && Changeable(prog, changes)
    requires pc < |prog| && pc !in seen && pc !in changes && ins == prog[pc] && Day8a.Step(ins, pc, acc).Some?
    ensures var (next, acc') := Day8a.Step(ins, pc, acc).value;
            Day8a.Execute(Patch(prog, changes), pc, acc, seen).end
            == Day8a.Execute(Patch(prog, changes), next, acc', seen + {pc}).end
  {
    Day8a.ExecuteStep(Patch(prog, changes), pc, acc, seen);
  }

  /** As written: a finished search is the finished plain run of the program with some `jmp`/`nop` changed. */
  lemma {:induction false} SearchAsWrittenSound(prog: seq<Day8a.Instruction>, pc: nat, acc: int, seen: set<nat>)
    returns (changes: set<nat>)
    requires Day8a.WellFormed(prog)
    requires SearchAsWritten(prog, pc, acc, seen).Finished?
    ensures Changeable(prog, changes) && changes !! seen
    ensures Day8a.Execute(Patch(prog, changes), pc, acc, seen).end.Exited?
    ensures Day8a.Execute(Patch(prog, changes), pc, acc, seen).end.acc == SearchAsWritten(prog, pc, acc, seen).acc
    decreases |Day8a.Positions(|prog|) - seen|
  {
    if pc >= |prog| || pc in seen {
      changes := {};
      return;
    }
    var ins := prog[pc];
    var seen' := seen + {pc};
    UnseenShrinks(Day8a.Positions(|prog|), seen, pc);
    var (next, acc') := Day8a.Step(ins, pc, acc).value;
    if ins.operation == Day8a.Acc || SearchAsWritten(prog, next, acc', seen').Finished? {
      changes := SearchAsWrittenSound(prog, next, acc', seen');
      PatchedStep(prog, changes, pc, acc, seen, ins);
    } else {
      var (next2, acc2) := Day8a.Step(Corrected(ins), pc, acc).value;
      var later := SearchAsWrittenSound(prog, next2, acc2, seen');
      changes := later + {pc};
      var p := Patch(prog, changes);
      Day8a.ExecuteFrame(p, Patch(prog, later), next2, acc2, seen');
      Day8a.ExecuteStep(p, pc, acc, seen);
    }
  }

  /**
   * When changing one `jmp`/`nop` makes the program finish, the search does
   * not report a loop: it finishes, or a panic on the way stops it.
   */
  lemma {:induction false} SearchComplete(prog: seq<Day8a.Instruction>, pc: nat, acc: int, seen: set<nat>, k: nat)
    requires Day8a.WellFormed(prog) && Changeable(prog, {k})
    requires Day8a.Execute(Patch(prog, {k}), pc, acc, seen).end.Exited?
    ensures !Search(prog, pc, acc, seen, true).DetectedLoop?
    decreases |Day8a.Positions(|prog|) - seen|
  {
    var p := Patch(prog, {k});
    if pc < |prog| && pc !in seen {
      var ins := prog[pc];
      var seen' := seen + {pc};
      UnseenShrinks(Day8a.Positions(|prog|), seen, pc);
      Day8a.ExecuteStep(p, pc, acc, seen);
      if Day8a.Step(ins, pc, acc).Some? {
        var (next, acc') := Day8a.Step(ins, pc, acc).value;
        if k == pc {
          var (next2, acc2) := Day8a.Step(Corrected(ins), pc, acc).value;
          PlainSearch(prog, next2, acc2, seen');
          Day8a.ExecuteFrame(p, prog, next2, acc2, seen');
        } else {
          SearchComplete(prog, next, acc', seen', k);
        }
      }
    }
  }

  /** A program whose only one-change fix is at position 0, with a two-change fix at 1 and 2. */
  function TwoChanges(): seq<Day8a.Instruction> {
    [Day8a.Instruction(Day8a.Nop, 4), Day8a.Instruction(Day8a.Jmp, 0), Day8a.Instruction(Day8a.Jmp, 0),
     Day8a.Instruction(Day8a.Acc, 1)]
  }

  /** As written, the search answers 1, reached by changing both 1 and 2. */
  lemma ChangesTwo()
    ensures SearchAsWritten(TwoChanges(), 0, 0, {}) == Finished(1)
  {
    var p := TwoChanges();
    var s1 := {} + {0};
    var s2 := s1 + {1};
    var s3 := s2 + {2};
    var s4 := s3 + {3};
    assert SearchAsWritten(p, 4, 1, s4) == Finished(1);
    assert SearchAsWritten(p, 3, 0, s3) == Finished(1);
    assert SearchAsWritten(p, 2, 0, s3) == DetectedLoop(2, 0);
    assert SearchAsWritten(p, 2, 0, s2) == Finished(1);
    assert SearchAsWritten(p, 1, 0, s2) == DetectedLoop(1, 0);
    assert SearchAsWritten(p, 1, 0, s1) == Finished(1);
  }

  /** With one change at most, the search answers 0: only changing instruction 0 makes it finish. */
  lemma ChangesOne()
    ensures Search(TwoChanges(), 0, 0, {}, true) == Finished(0)
  {
    var p := TwoChanges();
    var s1 := {} + {0};
    var s2 := s1 + {1};
    var s3 := s2 + {2};
    assert Search(p, 2, 0, s3, false) == DetectedLoop(2, 0);
    assert Search(p, 2, 0, s2, false) == DetectedLoop(2, 0);
    assert Search(p, 1, 0, s2, true) == DetectedLoop(1, 0);
    assert Search(p, 1, 0, s1, true) == DetectedLoop(2, 0);
    assert Search(p, 4, 0, s1, false) == Finished(0);
  }

  /** Of the one-change programs, only the one changed at 0 finishes, with accumulator 0. */
  lemma OneChangeRuns(k: nat)
    requires Changeable(TwoChanges(), {k})
    ensures Day8a.Execute(Patch(TwoChanges(), {k}), 0, 0, {}).end.Exited? <==> k == 0
    ensures k == 0 ==> Day8a.Execute(Patch(TwoChanges(), {k}), 0, 0, {}).end == Day8a.Exited(4, 0)
  {
    var p := Patch(TwoChanges(), {k});
    var s1 := {} + {0};
    var s2 := s1 + {1};
    var s3 := s2 + {2};
    if k == 0 {
      assert p[0] == Day8a.Instruction(Day8a.Jmp, 4);
      assert Day8a.Execute(p, 4, 0, s1).end == Day8a.Exited(4, 0);
    } else if k == 1 {
      assert p[0] == TwoChanges()[0] && p[1] == Day8a.Instruction(Day8a.Nop, 0) && p[2] == TwoChanges()[2];
      assert Day8a.Execute(p, 2, 0, s3).end == Day8a.Looped(2, 0);
      assert Day8a.Execute(p, 2, 0, s2).end == Day8a.Looped(2, 0);
      assert Day8a.Execute(p, 1, 0, s1).end == Day8a.Looped(2, 0);
    } else {
      assert p[0] == TwoChanges()[0] && p[1] == TwoChanges()[1];
      assert Day8a.Execute(p, 1, 0, s2).end == Day8a.Looped(1, 0);
      assert Day8a.Execute(p, 1, 0, s1).end == Day8a.Looped(1, 0);
    }
  }
}
