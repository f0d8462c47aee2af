/**
 * Day 8, part one: the handheld console's boot code. Each line is an
 * operation (`acc`, `jmp` or `nop`) and a signed 32-bit argument; the program
 * runs from instruction 0 with the accumulator at 0, and the answer is the
 * accumulator just before some instruction would run a second time (or when
 * the instruction pointer leaves the program).
 *
 * The source runs in a debug build: an i32 overflow of the accumulator, the
 * `abs` of i32::MIN and a usize underflow of the instruction pointer panic.
 * Those panics are the `None` / `Panicked` cases here.
 */
module Day8a {
  import opened Common

  datatype Operation = Acc | Jmp | Nop

  datatype Instruction = Instruction(operation: Operation, argument: int)

  datatype ParseError =
    | MissingInstructionPart(instruction: string, missingPart: string)
    | UnknownOperation(text: string)
    | InvalidArgument(text: string)

  /* ---------------------------------------------------------------- */
  /* Parsing                                                           */
  /* ---------------------------------------------------------------- */

  function OperationName(op: Operation): string {
    match op
    case Acc => "acc"
    case Jmp => "jmp"
    case Nop => "nop"
  }

  /** `Operation::from_str`: exactly one of the three names, anything else is unknown. */
  function ParseOperation(s: string): (r: Result<Operation, ParseError>)
    ensures r.Ok? <==> s in {"acc", "jmp", "nop"}
    ensures r.Ok? ==> OperationName(r.value) == s
    ensures r.Err? ==> r.error == UnknownOperation(s)
  {
    if s == "acc" then Ok(Acc)
    else if s == "jmp" then Ok(Jmp)
    else if s == "nop" then Ok(Nop)
    else Err(UnknownOperation(s))
  }

  /**
   * `Instruction::from_str`: the text up to the first space is the
   * operation (checked first), the rest is an i32. A line without a space
   * has no argument part.
   */
  function ParseInstruction(s: string): (r: Result<Instruction, ParseError>)
    ensures r.Ok? ==> I32_MIN <= r.value.argument <= I32_MAX
    ensures r.Ok? ==> exists rest :: s == OperationName(r.value.operation) + " " + rest
  {
    var parts := SplitOnce(s, " ");
    var opText := if parts.Some? then parts.value.0 else s;
    match ParseOperation(opText)
    case Err(e) => Err(e)
    case Ok(op) =>
      if parts.None? then Err(MissingInstructionPart(s, "argument"))
      else
        match ParseSigned(parts.value.1, I32_MIN, I32_MAX)
        case None => Err(InvalidArgument(parts.value.1))
        case Some(arg) =>
          assert s == opText + " " + parts.value.1;
          Ok(Instruction(op, arg))
  }

  /** The puzzle's own notation: the operation, a space and the argument with its sign. */
  function Show(ins: Instruction): string {
    var n: nat := if ins.argument < 0 then -ins.argument else ins.argument;
    OperationName(ins.operation) + " " + (if ins.argument < 0 then "-" else "+") + ToDecimal(n)
  }

  /** Each operation's name parses back to it and has no space in it. */
  lemma NameParses(op: Operation)
    ensures ' ' !in OperationName(op)
    ensures ParseOperation(OperationName(op)) == Ok(op)
  {
  }

  /** Every instruction with an i32 argument parses back from its printed form. */
  lemma ParseShow(ins: Instruction)
    requires I32_MIN <= ins.argument <= I32_MAX
    ensures ParseInstruction(Show(ins)) == Ok(ins)
  {
    var name := OperationName(ins.operation);
    var n: nat := if ins.argument < 0 then -ins.argument else ins.argument;
    var arg := (if ins.argument < 0 then "-" else "+") + ToDecimal(n);
    NameParses(ins.operation);
    SplitOnceAfter(name, ' ', arg);
    assert Show(ins) == name + [' '] + arg;
    ParseSignedRoundTrip(ins.argument, I32_MIN, I32_MAX);
    assert ParseSigned(arg, I32_MIN, I32_MAX) == Some(ins.argument);
  }

  /** A line with no space is refused: an unknown operation first, otherwise a missing argument. */
  lemma NoSpace(s: string)
    requires ' ' !in s
    ensures ParseInstruction(s) == if s in {"acc", "jmp", "nop"} then Err(MissingInstructionPart(s, "argument"))
                                   else Err(UnknownOperation(s))
  {
    SplitOnceAbsent(s, ' ');
  }

  /** `main` keeps the lines that parse, in order, and drops the others. */
  function Program(lines: seq<string>): (prog: seq<Instruction>)
    ensures |prog| <= |lines|
    ensures forall ins :: ins in prog ==> exists line :: line in lines && ParseInstruction(line) == Ok(ins)
  {
    if lines == [] then []
    else
      var rest := Program(lines[1..]);
      match ParseInstruction(lines[0])
      case Ok(ins) => [ins] + rest
      case Err(_) => rest
  }

  /* ---------------------------------------------------------------- */
  /* Execution                                                         */
  /* ---------------------------------------------------------------- */

  /**
   * The effect of one instruction at `pc` on the pointer and the
   * accumulator; `None` where the debug build panics.
   */
  function Step(ins: Instruction, pc: nat, acc: int): (r: Option<(nat, int)>)
    requires I32_MIN <= ins.argument <= I32_MAX
    ensures ins.operation == Acc ==> (r.Some? <==> I32_MIN <= acc + ins.argument <= I32_MAX)
    ensures ins.operation == Jmp ==> (r.Some? <==> ins.argument != I32_MIN && pc + ins.argument >= 0)
    ensures ins.operation == Nop ==> r.Some?
    ensures r.Some? ==> r.value.0 == pc + (if ins.operation == Jmp then ins.argument else 1)
    ensures r.Some? ==> r.value.1 == acc + (if ins.operation == Acc then ins.argument else 0)
  {
    match ins.operation
    case Acc =>
      var a := acc + ins.argument;
      if I32_MIN <= a <= I32_MAX then Some((pc + 1, a)) else None
    case Nop => Some((pc + 1, acc))
    case Jmp =>
      if ins.argument > 0 then Some((pc + ins.argument, acc))
      else if ins.argument == I32_MIN then None
      else
        var back := -ins.argument;
        if pc < back then None else Some((pc - back, acc))
  }

  predicate WellFormed(prog: seq<Instruction>) {
    forall i :: 0 <= i < |prog| ==> I32_MIN <= prog[i].argument <= I32_MAX
  }

  /** The positions of a program of length `n`. */
  function Positions(n: nat): (r: set<nat>)
    ensures forall i: int :: i in r <==> 0 <= i < n
    ensures |r| == n
  {
    if n == 0 then {} else Positions(n - 1) + {n - 1}
  }

  /** How a run ends: the pointer left the program, an instruction was about to run twice, or a panic. */
  datatype Stop = Exited(pointer: nat, acc: int) | Looped(pointer: nat, acc: int) | Panicked(pointer: nat)

  /** A run: the positions executed, in order, and how it stopped. */
  datatype Run = Run(trace: seq<nat>, end: Stop)

  predicate Distinct(t: seq<nat>) {
    forall i, j :: 0 <= i < j < |t| ==> t[i] != t[j]
  }

  /**
   * The run from `pc` with accumulator `acc`, having already executed the
   * positions in `seen`.
   */
  function Execute(prog: seq<Instruction>, pc: nat, acc: int, seen: set<nat>): (r: Run)
    requires WellFormed(prog)
    ensures forall i :: i in r.trace ==> i < |prog| && i !in seen
    ensures Distinct(r.trace)
    ensures r.end.Exited? ==> r.end.pointer >= |prog|
    ensures r.end.Looped? ==> r.end.pointer in seen || r.end.pointer in r.trace
    ensures r.end.Panicked? ==> r.end.pointer < |prog| && r.end.pointer !in seen && r.end.pointer !in r.trace
    decreases |Positions(|prog|) - seen|
  {
    if pc >= |prog| then Run([], Exited(pc, acc))
    else if pc in seen then Run([], Looped(pc, acc))
    else
      match Step(prog[pc], pc, acc)
      case None => Run([], Panicked(pc))
      case Some((next, acc')) =>
        UnseenShrinks(Positions(|prog|), seen, pc);
        var rest := Execute(prog, next, acc', seen + {pc});
        Run([pc] + rest.trace, rest.end)
  }

  /** Unfolds one executed instruction of a run. */
  lemma ExecuteStep(prog: seq<Instruction>, pc: nat, acc: int, seen: set<nat>)
    requires WellFormed(prog) && pc < |prog| && pc !in seen
    ensures Step(prog[pc], pc, acc).None? ==> Execute(prog, pc, acc, seen).end == Panicked(pc)
    ensures Step(prog[pc], pc, acc).Some? ==>
      var (next, acc') := Step(prog[pc], pc, acc).value;
      Execute(prog, pc, acc, seen).end == Execute(prog, next, acc', seen + {pc}).end
  {
  }

  /** The answer `run_instructions` returns, or `None` for a panic. */
  function Answer(s: Stop): Option<int> {
    match s
    case Exited(_, a) => Some(a)
    case Looped(_, a) => Some(a)
    case Panicked(_) => None
  }

  /** `run_instructions`: the loop over the instruction pointer with the set of executed positions. */
  method RunInstructions(prog: seq<Instruction>) returns (r: Option<int>)
    requires WellFormed(prog)
    ensures r == Answer(Execute(prog, 0, 0, {}).end)
  {
    var acc := 0;
    var pc: nat := 0;
    var executed: set<nat> := {};
    while pc < |prog|
      invariant Execute(prog, pc, acc, executed).end == Execute(prog, 0, 0, {}).end
      decreases |Positions(|prog|) - executed|
    {
      if pc in executed {
        return Some(acc);
      }
      UnseenShrinks(Positions(|prog|), executed, pc);
      ExecuteStep(prog, pc, acc, executed);
      ghost var step := Step(prog[pc], pc, acc);
      executed := executed + {pc};
      var ins := prog[pc];
      match ins.operation {
        case Acc =>
          var a := acc + ins.argument;
          if !(I32_MIN <= a <= I32_MAX) {
            return None;
          }
          acc := a;
        case Jmp =>
          if ins.argument > 0 {
            pc := pc + ins.argument;
          } else {
            if ins.argument == I32_MIN {
              return None;
            }
            var back := -ins.argument;
            if pc < back {
              return None;
            }
            pc := pc - back;
          }
        case Nop =>
      }
      match ins.operation {
        case Acc => pc := pc + 1;
        case Nop => pc := pc + 1;
        case Jmp =>
      }
      assert step.Some? && step.value.0 == pc && step.value.1 == acc;
    }
    return Some(acc);
  }

  /* ---------------------------------------------------------------- */
  /* Properties of a run                                               */
  /* ---------------------------------------------------------------- */

  /** The sum of the `acc` arguments at the given positions. */
  function AccTotal(prog: seq<Instruction>, t: seq<nat>): int
    requires forall i :: i in t ==> i < |prog|
  {
    if t == [] then 0
    else
      assert t[0] in t;
      assert forall i :: i in t[1..] ==> i in t;
      (if prog[t[0]].operation == Acc then prog[t[0]].argument else 0) + AccTotal(prog, t[1..])
  }

  /** The accumulator a run ends with is its start value plus every `acc` argument it executed. */
  lemma {:induction false} AccumulatorIsTotal(prog: seq<Instruction>, pc: nat, acc: int, seen: set<nat>)
    requires WellFormed(prog)
    ensures var r := Execute(prog, pc, acc, seen);
            !r.end.Panicked? ==> r.end.acc == acc + AccTotal(prog, r.trace)
    decreases |Positions(|prog|) - seen|
  {
    if pc < |prog| && pc !in seen {
      match Step(prog[pc], pc, acc)
      case None =>
      case Some((next, acc')) =>
        UnseenShrinks(Positions(|prog|), seen, pc);
        AccumulatorIsTotal(prog, next, acc', seen + {pc});
        var rest := Execute(prog, next, acc', seen + {pc});
        assert ([pc] + rest.trace)[1..] == rest.trace;
    }
  }

  /** A run executes at most as many instructions as there are positions it has not executed yet. */
  lemma {:induction false} TraceBound(prog: seq<Instruction>, pc: nat, acc: int, seen: set<nat>)
    requires WellFormed(prog)
    ensures |Execute(prog, pc, acc, seen).trace| <= |Positions(|prog|) - seen|
    decreases |Positions(|prog|) - seen|
  {
    if pc < |prog| && pc !in seen {
      match Step(prog[pc], pc, acc)
      case None =>
      case Some((next, acc')) =>
        UnseenShrinks(Positions(|prog|), seen, pc);
        TraceBound(prog, next, acc', seen + {pc});
    }
  }

  /** From the start, no instruction runs twice, so at most `|prog|` of them run. */
  lemma RunLength(prog: seq<Instruction>)
    requires WellFormed(prog)
    ensures |Execute(prog, 0, 0, {}).trace| <= |prog|
  {
    TraceBound(prog, 0, 0, {});
    assert Positions(|prog|) - {} == Positions(|prog|);
  }

  /** A run never looks at positions it has already executed: programs that agree elsewhere run alike. */
  lemma {:induction false} ExecuteFrame(p: seq<Instruction>, q: seq<Instruction>, pc: nat, acc: int, seen: set<nat>)
    requires WellFormed(p) && WellFormed(q) && |p| == |q|
    requires forall i :: 0 <= i < |p| && i !in seen ==> p[i] == q[i]
    ensures Execute(p, pc, acc, seen) == Execute(q, pc, acc, seen)
    decreases |Positions(|p|) - seen|
  {
    if pc < |p| && pc !in seen {
      match Step(p[pc], pc, acc)
      case None =>
      case Some((next, acc')) =>
        UnseenShrinks(Positions(|p|), seen, pc);
        ExecuteFrame(p, q, next, acc', seen + {pc});
    }
  }

  /** The puzzle's example program. */
  function Example(): seq<Instruction> {
    [Instruction(Nop, 0), Instruction(Acc, 1), Instruction(Jmp, 4), Instruction(Acc, 3), Instruction(Jmp, -3),
     Instruction(Acc, -99), Instruction(Acc, 1), Instruction(Jmp, -4), Instruction(Acc, 6)]
  }

  /** The example runs 0, 1, 2, 6, 7, 3, 4 and is about to run instruction 1 again with accumulator 5. */
  lemma ExampleLoops()
    ensures Execute(Example(), 0, 0, {}) == Run([0, 1, 2, 6, 7, 3, 4], Looped(1, 5))
  {
    var p := Example();
    var s1 := {} + {0};
    var s2 := s1 + {1};
    var s3 := s2 + {2};
    var r := ExampleTail(s3);
    r := ExecutedFirst(p, 2, 1, s2, 6, 1, r);
    r := ExecutedFirst(p, 1, 0, s1, 2, 1, r);
    r := ExecutedFirst(p, 0, 0, {}, 1, 0, r);
  }

  /** The example from instruction 6 on, after 0, 1 and 2 have run. */
  lemma ExampleTail(s3: set<nat>) returns (r: Run)
    requires s3 == {0, 1, 2}
    ensures Execute(Example(), 6, 1, s3) == r == Run([6, 7, 3, 4], Looped(1, 5))
  {
    var p := Example();
    var s4 := s3 + {6};
    var s5 := s4 + {7};
    var s6 := s5 + {3};
    var s7 := s6 + {4};
    assert 1 in s7;
    r := Run([], Looped(1, 5));
    assert Execute(p, 1, 5, s7) == r;
    r := ExecutedFirst(p, 4, 5, s6, 1, 5, r);
    r := ExecutedFirst(p, 3, 2, s5, 4, 5, r);
    r := ExecutedFirst(p, 7, 2, s4, 3, 2, r);
    r := ExecutedFirst(p, 6, 1, s3, 7, 2, r);
  }

  /** One executed instruction in front of the rest of a run. */
  lemma ExecutedFirst(prog: seq<Instruction>, pc: nat, acc: int, seen: set<nat>, next: nat, acc': int, rest: Run)
    returns (r: Run)
    requires WellFormed(prog) && pc < |prog| && pc !in seen
    requires Step(prog[pc], pc, acc) == Some((next, acc'))
    requires Execute(prog, next, acc', seen + {pc}) == rest
    ensures r == Run([pc] + rest.trace, rest.end)
    ensures Execute(prog, pc, acc, seen) == r
  {
    r := Run([pc] + rest.trace, rest.end);
  }
}
