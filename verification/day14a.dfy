/*
 * Day 14, part one: a docking program writes 36-bit values to memory
 * through a bitmask. A mask line such as `mask = XXXX1XXXX0X` sets each
 * bit marked '1', clears each bit marked '0' and leaves each bit marked
 * 'X' as it is in the value; `mem[a] = v` stores the masked `v` at `a`.
 * The answer is the sum of the values left in memory.
 *
 * The u64 words and their bits are those of the U64Bits module.
 */
module Day14a {
  import opened Common
  import opened U64Bits

  /* ---------------------------------------------------------------- */
  /* Parsing a mask                                                    */
  /* ---------------------------------------------------------------- */

  /** A parsed mask: `zeros` has a bit for every '0' of the text, `ones` for every '1'. */
  datatype Bitmask = Bitmask(zeros: nat, ones: nat)

  predicate IsMaskChar(c: char) { c == '0' || c == '1' || c == 'X' }

  /**
   * The mask `from_str` builds from the (trimmed) text `s`: Err when a
   * character is not '0', '1' or 'X'; otherwise each character shifts both
   * words and a '0' or '1' sets the new low bit of `zeros` or `ones`.
   */
  function MaskOf(s: string): (r: Result<Bitmask, ()>)
    ensures r.Ok? <==> forall i :: 0 <= i < |s| ==> IsMaskChar(s[i])
  {
    if forall i :: 0 <= i < |s| ==> IsMaskChar(s[i])
    then Ok(Bitmask(Word(Marks(s, '0')), Word(Marks(s, '1'))))
    else Err(())
  }

  /** Both words of a parsed mask are u64s, and no bit is both set and cleared. */
  lemma MaskOfDisjoint(s: string)
    requires MaskOf(s).Ok?
    ensures MaskOf(s).value.zeros < U64_LIMIT && MaskOf(s).value.ones < U64_LIMIT
    ensures Disjoint(MaskOf(s).value.zeros, MaskOf(s).value.ones)
  {
    WordDisjoint(Marks(s, '0'), Marks(s, '1'));
    WordBound(Marks(s, '0'));
    WordBound(Marks(s, '1'));
  }

  /**
   * The bit meaning of a parsed mask: bit `p` belongs to the character `p`
   * places from the end and is set in `ones` exactly for a '1' and in
   * `zeros` exactly for a '0'; bits 64 and up, and bits above the text, are clear.
   */
  lemma MaskOfBits(s: string, p: nat)
    requires MaskOf(s).Ok?
    ensures var m := MaskOf(s).value;
      (Bit(m.ones, p) <==> p < 64 && p < |s| && s[|s| - 1 - p] == '1') &&
      (Bit(m.zeros, p) <==> p < 64 && p < |s| && s[|s| - 1 - p] == '0')
  {
    assert MaskOf(s).value == Bitmask(Word(Marks(s, '0')), Word(Marks(s, '1')));
    MarksBit(s, '0', p);
    MarksBit(s, '1', p);
  }

  /** The loop of `from_str` after the first `i` characters. */
  predicate MaskRead(t: string, i: nat, zeros: nat, ones: nat)
    requires i <= |t|
  {
    (forall j :: 0 <= j < i ==> IsMaskChar(t[j])) &&
    zeros == Word(Marks(t[..i], '0')) && ones == Word(Marks(t[..i], '1'))
  }

  lemma MaskReadStep(t: string, i: nat, zeros: nat, ones: nat)
    requires i < |t| && MaskRead(t, i, zeros, ones) && IsMaskChar(t[i])
    ensures MaskRead(t, i + 1, ShiftIn(zeros, t[i] == '0'), ShiftIn(ones, t[i] == '1'))
  {
    MarksSnoc(t, i, '0');
    MarksSnoc(t, i, '1');
    WordSnoc(Marks(t[..i], '0'), t[i] == '0');
    WordSnoc(Marks(t[..i], '1'), t[i] == '1');
  }

  /** `Bitmask::from_str`: trims the text, then shifts both words and sets a bit per character. */
  method FromStr(s: string) returns (r: Result<Bitmask, ()>)
    ensures r == MaskOf(Trim(s))
  {
    var t := Trim(s);
    var zeros := 0;
    var ones := 0;
    assert t[..0] == [];
    for i := 0 to |t|
      invariant MaskRead(t, i, zeros, ones)
    {
      var c := t[i];
      if !IsMaskChar(c) {
        return Err(());
      }
      MaskReadStep(t, i, zeros, ones);
      zeros := Shl(zeros);
      ones := Shl(ones);
      if c == '1' {
        ones := Or(ones, 1);
      } else if c == '0' {
        zeros := Or(zeros, 1);
      }
    }
    assert t[..|t|] == t;
    r := Ok(Bitmask(zeros, ones));
  }

  /* ---------------------------------------------------------------- */
  /* Applying a mask                                                   */
  /* ---------------------------------------------------------------- */

  /**
   * `Bitmask::apply`: clears the `zeros` bits and sets the `ones` bits;
   * every other bit comes from the value.
   */
  function Apply(m: Bitmask, value: nat): nat {
    Or(AndNot(value, m.zeros), m.ones)
  }

  /** Bit `p` of a masked value: set for a `ones` bit, else clear for a `zeros` bit, else the value's. */
  lemma ApplyBit(m: Bitmask, value: nat, p: nat)
    ensures Bit(Apply(m, value), p) <==> Bit(m.ones, p) || (!Bit(m.zeros, p) && Bit(value, p))
  {
    BitOr(AndNot(value, m.zeros), m.ones, p);
    BitAndNot(value, m.zeros, p);
  }

  /** A masked u64 is a u64. */
  lemma ApplyBound(m: Bitmask, value: nat)
    requires m.ones < U64_LIMIT && value < U64_LIMIT
    ensures Apply(m, value) < U64_LIMIT
  {
    U64Limit();
    AndNotBound(value, m.zeros);
    OrBound(AndNot(value, m.zeros), m.ones, 64);
  }

  /** Applying a mask twice is applying it once. */
  lemma ApplyIdempotent(m: Bitmask, value: nat)
    ensures Apply(m, Apply(m, value)) == Apply(m, value)
  {
    forall p: nat
      ensures Bit(Apply(m, Apply(m, value)), p) == Bit(Apply(m, value), p)
    {
      ApplyBit(m, Apply(m, value), p);
      ApplyBit(m, value, p);
    }
    BitsDetermine(Apply(m, Apply(m, value)), Apply(m, value));
  }

  /**
   * The mask read character by character: the bit belonging to a '1' is
   * set, the bit belonging to a '0' is clear, and every other bit is the
   * value's own.
   */
  lemma ApplyMaskText(s: string, value: nat, p: nat)
    requires MaskOf(s).Ok?
    ensures var r := Apply(MaskOf(s).value, value);
      if p < 64 && p < |s| && s[|s| - 1 - p] == '1' then Bit(r, p)
      else if p < 64 && p < |s| && s[|s| - 1 - p] == '0' then !Bit(r, p)
      else Bit(r, p) == Bit(value, p)
  {
    MaskOfBits(s, p);
    ApplyBit(MaskOf(s).value, value, p);
  }

  /* ---------------------------------------------------------------- */
  /* Running the program                                               */
  /* ---------------------------------------------------------------- */

  /** The two line shapes `execute` acts on. */
  datatype Instruction = SetMask(text: string) | Write(address: nat, value: nat)

  /**
   * The shape of a trimmed line: `mask = <text>`, or `mem[<d>] = <d>` with
   * both numbers u64; any other line is skipped.
   */
  function ParseLine(line: string): (r: Option<Instruction>)
    ensures r.Some? && r.value.Write? ==> r.value.address < U64_LIMIT && r.value.value < U64_LIMIT
  {
    var t := Trim(line);
    if StartsWith(t, "mask = ") then Some(SetMask(t[7..]))
    else if StartsWith(t, "mem[") then
      match SplitOnce(t[4..], "] = ")
      case None => None
      case Some((a, v)) =>
        match (ParseUnsigned(a, U64_LIMIT), ParseUnsigned(v, U64_LIMIT))
        case (Some(address), Some(value)) => Some(Write(address, value))
        case _ => None
    else None
  }

  /** The state of `execute`: the current mask and the memory. */
  datatype Machine = Machine(mask: Bitmask, mem: map<nat, nat>)

  /**
   * One line of `execute`: a mask line replaces the mask (None where its
   * text is not a mask: the `unwrap` panics), a write stores the masked
   * value, other lines change nothing.
   */
  function Step(st: Machine, ins: Option<Instruction>): Option<Machine> {
    match ins
    case None => Some(st)
    case Some(SetMask(text)) =>
      (match MaskOf(Trim(text))
       case Err(_) => None
       case Ok(m) => Some(Machine(m, st.mem)))
    case Some(Write(a, v)) => Some(Machine(st.mask, st.mem[a := Apply(st.mask, v)]))
  }

  /** The machine after the instructions, from the default mask and an empty memory. */
  function Run(prog: seq<Option<Instruction>>): Option<Machine>
    decreases |prog|
  {
    if prog == [] then Some(Machine(Bitmask(0, 0), map[]))
    else
      match Run(prog[..|prog| - 1])
      case None => None
      case Some(st) => Step(st, prog[|prog| - 1])
  }

  /** The instructions of the lines. */
  function Program(lines: seq<string>): seq<Option<Instruction>> {
    seq(|lines|, k requires 0 <= k < |lines| => ParseLine(lines[k]))
  }

  lemma RunSnoc(prog: seq<Option<Instruction>>, i: nat)
    requires i < |prog|
    ensures Run(prog[..i + 1]) == match Run(prog[..i]) case None => None case Some(st) => Step(st, prog[i])
  {
    assert prog[..i + 1][..i] == prog[..i];
  }

  /** `execute`: runs every line, then sums the values left in memory (None where a mask line panics). */
  method Execute(lines: seq<string>) returns (r: Option<nat>)
    ensures r == match Run(Program(lines)) case None => None case Some(st) => Some(SumValues(st.mem))
  {
    var mem: map<nat, nat> := map[];
    var mask := Bitmask(0, 0);
    ghost var prog := Program(lines);
    assert prog[..0] == [];
    for i := 0 to |lines|
      invariant Run(prog[..i]) == Some(Machine(mask, mem))
    {
      RunSnoc(prog, i);
      match ParseLine(lines[i])
      case Some(SetMask(text)) =>
        var parsed := FromStr(text);
        if parsed.Err? {
          RunNone(prog, i + 1);
          return None;
        }
        mask := parsed.value;
      case Some(Write(a, v)) =>
        mem := mem[a := Apply(mask, v)];
      case None =>
    }
    assert prog[..|lines|] == prog;
    var sum := SumMemory(mem);
    r := Some(sum);
  }

  /** A panic ends the run: once a prefix fails, the whole program does. */
  lemma {:induction false} RunNone(prog: seq<Option<Instruction>>, i: nat)
    requires i <= |prog| && Run(prog[..i]).None?
    ensures Run(prog).None?
    decreases |prog| - i
  {
    if i < |prog| {
      RunSnoc(prog, i);
      RunNone(prog, i + 1);
    } else {
      assert prog[..i] == prog;
    }
  }

  /** `mem.values().sum()`: adds the stored values in whatever order the keys come. */
  method SumMemory(mem: map<nat, nat>) returns (sum: nat)
    ensures sum == SumValues(mem)
  {
    sum := 0;
    var rest := mem;
    while rest.Keys != {}
      invariant sum + SumValues(rest) == SumValues(mem)
      decreases |rest.Keys|
    {
      var a :| a in rest;
      SumValuesRemove(rest, a);
      sum := sum + rest[a];
      rest := rest - {a};
    }
    assert rest == map[];
  }

  /* ---------------------------------------------------------------- */
  /* What the memory holds                                             */
  /* ---------------------------------------------------------------- */

  /** The instruction writes to address `a`. */
  predicate WritesTo(ins: Option<Instruction>, a: nat) {
    ins.Some? && ins.value.Write? && ins.value.address == a
  }

  /** The machine after the first `i` instructions, when the whole run succeeds. */
  lemma RunPrefix(prog: seq<Option<Instruction>>, i: nat)
    requires i <= |prog| && Run(prog).Some?
    ensures Run(prog[..i]).Some?
  {
    if Run(prog[..i]).None? {
      RunNone(prog, i);
    }
  }

  /** An address holds a value exactly when some instruction wrote to it. */
  lemma {:induction false} MemoryKeys(prog: seq<Option<Instruction>>, a: nat)
    requires Run(prog).Some?
    ensures a in Run(prog).value.mem <==> exists i :: 0 <= i < |prog| && WritesTo(prog[i], a)
    decreases |prog|
  {
    if prog != [] {
      var n := |prog| - 1;
      var init := prog[..n];
      assert Run(init).Some?;
      MemoryKeys(init, a);
      if a in Run(prog).value.mem && !WritesTo(prog[n], a) {
        var i :| 0 <= i < |init| && WritesTo(init[i], a);
        assert WritesTo(prog[i], a);
      }
      if exists i :: 0 <= i < |prog| && WritesTo(prog[i], a) {
        var i :| 0 <= i < |prog| && WritesTo(prog[i], a);
        if i < n {
          assert WritesTo(init[i], a);
        }
      }
    }
  }

  /**
   * The last write wins: an address holds the value of its last write,
   * masked with the mask in effect when that write ran.
   */
  lemma {:induction false} LastWrite(prog: seq<Option<Instruction>>, a: nat, i: nat)
    requires Run(prog).Some? && i < |prog| && WritesTo(prog[i], a)
    requires forall j :: i < j < |prog| ==> !WritesTo(prog[j], a)
    ensures Run(prog[..i]).Some?
    ensures a in Run(prog).value.mem
    ensures Run(prog).value.mem[a] == Apply(Run(prog[..i]).value.mask, prog[i].value.value)
    decreases |prog|
  {
    RunPrefix(prog, i);
    var n := |prog| - 1;
    var init := prog[..n];
    assert Run(init).Some?;
    if i < n {
      assert init[..i] == prog[..i];
      LastWrite(init, a, i);
      assert !WritesTo(prog[n], a);
    } else {
      assert init == prog[..i];
    }
  }

  /** The instructions `ParseLine` produces: addresses and values are u64s. */
  predicate U64Program(prog: seq<Option<Instruction>>) {
    forall k :: 0 <= k < |prog| && prog[k].Some? && prog[k].value.Write? ==>
      prog[k].value.address < U64_LIMIT && prog[k].value.value < U64_LIMIT
  }

  lemma ProgramU64(lines: seq<string>)
    ensures U64Program(Program(lines))
  {
  }

  /** Every value left in memory is a u64 (the sum itself may exceed one). */
  lemma {:induction false} RunValuesU64(prog: seq<Option<Instruction>>)
    requires U64Program(prog) && Run(prog).Some?
    ensures Run(prog).value.mask.ones < U64_LIMIT
    ensures forall a :: a in Run(prog).value.mem ==> Run(prog).value.mem[a] < U64_LIMIT
    decreases |prog|
  {
    if prog != [] {
      var n := |prog| - 1;
      var init := prog[..n];
      assert Run(init).Some?;
      RunValuesU64(init);
      var st := Run(init).value;
      match prog[n]
      case Some(SetMask(text)) =>
        MaskOfDisjoint(Trim(text));
      case Some(Write(_, v)) =>
        ApplyBound(st.mask, v);
      case None =>
    }
  }

  /* ---------------------------------------------------------------- */
  /* The worked example                                                */
  /* ---------------------------------------------------------------- */

  /** `n` copies of `x`. */
  function Repeat<T>(x: T, n: nat): (s: seq<T>)
    ensures |s| == n && forall i :: 0 <= i < n ==> s[i] == x
  {
    if n == 0 then [] else Repeat(x, n - 1) + [x]
  }

  /** The mask of the example: bit 6 set, bit 1 cleared. */
  function ExampleMask(): string {
    Repeat('X', 29) + "1XXXX0X"
  }

  /** The character of the example mask `p` places from the end. */
  lemma ExampleMaskChar(p: nat)
    requires p < 36
    ensures var s := ExampleMask(); s[35 - p] == if p == 1 then '0' else if p == 6 then '1' else 'X'
  {
    var s := ExampleMask();
    if p < 7 {
      assert s[35 - p] == "1XXXX0X"[6 - p];
    } else {
      assert s[35 - p] == Repeat('X', 29)[35 - p];
    }
  }

  /** The example mask parses to `zeros == 2` and `ones == 64`. */
  lemma ExampleMaskOf()
    ensures MaskOf(ExampleMask()) == Ok(Bitmask(2, 64))
  {
    var s := ExampleMask();
    forall i | 0 <= i < |s|
      ensures IsMaskChar(s[i])
    {
      ExampleMaskChar(35 - i);
    }
    var m := MaskOf(s).value;
    forall p: nat
      ensures Bit(m.zeros, p) == Bit(Pow2(1), p) && Bit(m.ones, p) == Bit(Pow2(6), p)
    {
      MaskOfBits(s, p);
      BitPow2(1, p);
      BitPow2(6, p);
      if p < 36 {
        ExampleMaskChar(p);
      }
    }
    BitsDetermine(m.zeros, Pow2(1));
    BitsDetermine(m.ones, Pow2(6));
    assert Pow2(6) == 64;
  }

  /** The values of the unit test: 11 becomes 73 (bit 1 cleared, bit 6 set). */
  lemma ApplyEleven()
    ensures Apply(Bitmask(2, 64), 11) == 73
  {
    AndNotZero(2);
    assert AndNot(5, 1) == 2 * AndNot(2, 0);
    assert AndNot(11, 2) == 9;
    OrZero(4);
    assert Or(1, 8) == 2 * Or(0, 4) + 1;
    assert Or(2, 16) == 2 * Or(1, 8);
    assert Or(4, 32) == 2 * Or(2, 16);
    assert Or(9, 64) == 2 * Or(4, 32) + 1;
  }

  /** 101 already has bit 6 set and bit 1 clear, so it is left as it is. */
  lemma ApplyHundredOne()
    ensures Apply(Bitmask(2, 64), 101) == 101
  {
    AndNotHundredOne();
    OrHundredOne();
  }

  lemma AndNotHundredOne()
    ensures AndNot(101, 2) == 101
  {
    AndNotZero(25);
    assert AndNot(50, 1) == 2 * AndNot(25, 0);
  }

  lemma OrHundredOne()
    ensures Or(101, 64) == 101
  {
    assert Or(1, 1) == 1;
    assert Or(3, 2) == 2 * Or(1, 1) + 1;
    assert Or(6, 4) == 2 * Or(3, 2);
    assert Or(12, 8) == 2 * Or(6, 4);
    assert Or(25, 16) == 2 * Or(12, 8) + 1;
    assert Or(50, 32) == 2 * Or(25, 16);
  }

  /** 0 becomes 64: only the set bit survives. */
  lemma ApplyZero()
    ensures Apply(Bitmask(2, 64), 0) == 64
  {
    OrZero(64);
  }

  /** The program of the example: set the mask, then write 11, 101 and 0. */
  function ExampleProgram(mask: string): seq<Option<Instruction>> {
    [Some(SetMask(mask)), Some(Write(8, 11)), Some(Write(7, 101)), Some(Write(8, 0))]
  }

  lemma ExampleMaskTrimmed()
    ensures MaskOf(Trim(ExampleMask())) == Ok(Bitmask(2, 64))
  {
    ExampleMaskOf();
    ExampleMaskChar(0);
    ExampleMaskChar(35);
    TrimUnchanged(ExampleMask());
  }

  /** A write appended to a program that runs stores the masked value. */
  lemma WriteAfter(prog: seq<Option<Instruction>>, st: Machine, a: nat, v: nat)
    requires Run(prog) == Some(st)
    ensures Run(prog + [Some(Write(a, v))]) == Some(Machine(st.mask, st.mem[a := Apply(st.mask, v)]))
  {
    var longer := prog + [Some(Write(a, v))];
    assert longer[..|longer| - 1] == prog;
  }

  lemma ExampleMaskLine(mask: string)
    requires MaskOf(Trim(mask)) == Ok(Bitmask(2, 64))
    ensures Run([Some(SetMask(mask))]) == Some(Machine(Bitmask(2, 64), map[]))
  {
    var prog := [Some(SetMask(mask))];
    assert prog[..0] == [];
  }

  lemma ExampleFirstWrite(mask: string)
    requires MaskOf(Trim(mask)) == Ok(Bitmask(2, 64))
    ensures Run([Some(SetMask(mask)), Some(Write(8, 11))]) == Some(Machine(Bitmask(2, 64), map[8 := 73]))
  {
    ExampleMaskLine(mask);
    ApplyEleven();
    WriteAfter([Some(SetMask(mask))], Machine(Bitmask(2, 64), map[]), 8, 11);
    assert [Some(SetMask(mask)), Some(Write(8, 11))] == [Some(SetMask(mask))] + [Some(Write(8, 11))];
  }

  lemma ExampleSecondWrite(mask: string)
    requires MaskOf(Trim(mask)) == Ok(Bitmask(2, 64))
    ensures Run([Some(SetMask(mask)), Some(Write(8, 11)), Some(Write(7, 101))])
         == Some(Machine(Bitmask(2, 64), map[8 := 73][7 := 101]))
  {
    var prog := [Some(SetMask(mask)), Some(Write(8, 11))];
    ExampleFirstWrite(mask);
    ApplyHundredOne();
    WriteAfter(prog, Machine(Bitmask(2, 64), map[8 := 73]), 7, 101);
    assert [Some(SetMask(mask)), Some(Write(8, 11)), Some(Write(7, 101))] == prog + [Some(Write(7, 101))];
  }

  lemma ExampleSteps(mask: string)
    requires MaskOf(Trim(mask)) == Ok(Bitmask(2, 64))
    ensures Run(ExampleProgram(mask)) == Some(Machine(Bitmask(2, 64), map[8 := 73][7 := 101][8 := 64]))
  {
    var prog := [Some(SetMask(mask)), Some(Write(8, 11)), Some(Write(7, 101))];
    ExampleSecondWrite(mask);
    ApplyZero();
    WriteAfter(prog, Machine(Bitmask(2, 64), map[8 := 73][7 := 101]), 8, 0);
    assert ExampleProgram(mask) == prog + [Some(Write(8, 0))];
  }

  lemma ExampleMemory()
    ensures map[8 := 73][7 := 101][8 := 64] == map[8 := 64, 7 := 101]
  {
  }

  /** The example leaves 64 at address 8 and 101 at address 7. */
  lemma ExampleRun()
    ensures Run(ExampleProgram(ExampleMask())) == Some(Machine(Bitmask(2, 64), map[8 := 64, 7 := 101]))
  {
    ExampleMaskTrimmed();
    ExampleSteps(ExampleMask());
    ExampleMemory();
  }

  /** The answer of the example is 165. */
  lemma ExampleSum()
    ensures SumValues(map[8 := 64, 7 := 101]) == 165
  {
    SumTwo(8, 64, 7, 101);
  }
}
