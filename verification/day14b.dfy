/*
 * Day 14, part two: the mask now decodes memory addresses. A '1' sets the
 * address bit, a '0' leaves it as it is, and an 'X' is floating: it takes
 * both values, so an address with k floating bits stands for 2^k
 * addresses, and `mem[a] = v` writes `v` (unmasked) to all of them. The
 * answer is again the sum of the values left in memory.
 *
 * The u64 words and their bits are those of the U64Bits module; the line
 * shapes are those of part one (Day14a.ParseLine).
 */
module Day14b {
  import opened Common
  import opened U64Bits
  import Day14a

  /* ---------------------------------------------------------------- */
  /* Parsing a mask                                                    */
  /* ---------------------------------------------------------------- */

  /**
   * A parsed mask: the bit positions of the 'X's, from the first
   * character to the last (so highest first), and a word with the '1' bits.
   */
  datatype Bitmask = Bitmask(floating: seq<nat>, ones: nat)

  /**
   * The positions `from_str` records for the 'X's among the first `n`
   * characters of `t`: the character at index `idx` stands for bit
   * `|t| - idx - 1`. They are strictly decreasing and belong to those
   * characters.
   */
  function Floats(t: string, n: nat): (r: seq<nat>)
    requires n <= |t|
    ensures forall i, j :: 0 <= i < j < |r| ==> r[i] > r[j]
    ensures forall i :: 0 <= i < |r| ==> |t| - n <= r[i] < |t|
    decreases n
  {
    if n == 0 then []
    else if t[n - 1] == 'X' then Floats(t, n - 1) + [|t| - n]
    else Floats(t, n - 1)
  }

  /** A position is recorded exactly when its character, counted from the end, is an 'X'. */
  lemma {:induction false} FloatsIff(t: string, n: nat, p: nat)
    requires n <= |t|
    ensures p in Floats(t, n) <==> |t| - n <= p < |t| && t[|t| - 1 - p] == 'X'
    decreases n
  {
    if n > 0 {
      FloatsIff(t, n - 1, p);
    }
  }

  /**
   * The mask `from_str` builds from the trimmed text `t`: Err when a
   * character is not '0', '1' or 'X'; otherwise the 'X' positions and the
   * word of '1' bits.
   */
  function MaskOf(t: string): (r: Result<Bitmask, ()>)
    ensures r.Ok? <==> forall i :: 0 <= i < |t| ==> Day14a.IsMaskChar(t[i])
  {
    if forall i :: 0 <= i < |t| ==> Day14a.IsMaskChar(t[i])
    then Ok(Bitmask(Floats(t, |t|), Word(Marks(t, '1'))))
    else Err(())
  }

  /**
   * The meaning of a parsed mask: bit `p` of `ones` is set exactly for a
   * '1' `p` places from the end (among the last 64); `p` is floating
   * exactly for an 'X' there; the floating positions are strictly
   * decreasing, and no floating bit is a `ones` bit.
   */
  lemma MaskOfBits(t: string, p: nat)
    requires MaskOf(t).Ok?
    ensures var m := MaskOf(t).value;
      (Bit(m.ones, p) <==> p < 64 && p < |t| && t[|t| - 1 - p] == '1') &&
      (p in m.floating <==> p < |t| && t[|t| - 1 - p] == 'X') &&
      (p in m.floating ==> !Bit(m.ones, p))
    ensures var m := MaskOf(t).value;
      forall i, j :: 0 <= i < j < |m.floating| ==> m.floating[i] > m.floating[j]
  {
    assert MaskOf(t).value == Bitmask(Floats(t, |t|), Word(Marks(t, '1')));
    MarksBit(t, '1', p);
    FloatsIff(t, |t|, p);
  }

  /** The loop of `from_str` after the first `i` characters. */
  predicate MaskRead(t: string, i: nat, floating: seq<nat>, ones: nat)
    requires i <= |t|
  {
    (forall j :: 0 <= j < i ==> Day14a.IsMaskChar(t[j])) &&
    floating == Floats(t, i) && ones == Word(Marks(t[..i], '1'))
  }

  lemma MaskReadStep(t: string, i: nat, floating: seq<nat>, ones: nat, bitlen: nat)
    requires i < |t| == bitlen && MaskRead(t, i, floating, ones) && Day14a.IsMaskChar(t[i])
    ensures MaskRead(t, i + 1, if t[i] == 'X' then floating + [bitlen - i - 1] else floating, ShiftIn(ones, t[i] == '1'))
  {
    MarksSnoc(t, i, '1');
    WordSnoc(Marks(t[..i], '1'), t[i] == '1');
  }

  /**
   * `Bitmask::from_str`: trims the text, notes its length, then for each
   * character of the (again trimmed) text shifts `ones` and sets its low
   * bit for a '1' or records the position of an 'X'.
   */
  method FromStr(s: string) returns (r: Result<Bitmask, ()>)
    ensures r == MaskOf(Trim(s))
  {
    var t := Trim(s);
    var ones := 0;
    var bitlen: nat := |t|;
    var floating: seq<nat> := [];
    // `s.trim().trim()` is `s.trim()`: the loop reads the characters of `t`
    TrimTwice(s);
    assert t[..0] == [];
    for idx := 0 to |t|
      invariant MaskRead(t, idx, floating, ones)
    {
      var c := t[idx];
      if !Day14a.IsMaskChar(c) {
        return Err(());
      }
      MaskReadStep(t, idx, floating, ones, bitlen);
      ones := Shl(ones);
      if c == '1' {
        ones := Or(ones, 1);
      } else if c == 'X' {
        floating := floating + [bitlen - idx - 1];
      }
    }
    assert t[..|t|] == t;
    r := Ok(Bitmask(floating, ones));
  }

  /* ---------------------------------------------------------------- */
  /* Floating addresses                                                */
  /* ---------------------------------------------------------------- */

  /** No floating position reaches 64, so every `0b1 << pos` fits a u64. */
  predicate ShiftsFit(floating: seq<nat>) {
    forall i :: 0 <= i < |floating| ==> floating[i] < 64
  }

  /**
   * The addresses `apply_floating` pushes, in order: for the first
   * position, the variants with that bit forced to one, then those with it
   * forced to zero; a single position pushes its two variants directly, and
   * no position pushes nothing.
   */
  function Pushes(value: nat, floating: seq<nat>): seq<nat>
    decreases |floating|
  {
    if floating == [] then []
    else
      var forcedOne := Or(value, Pow2(floating[0]));
      var forcedZero := AndNot(value, Pow2(floating[0]));
      if |floating| == 1 then [forcedOne, forcedZero]
      else Pushes(forcedOne, floating[1..]) + Pushes(forcedZero, floating[1..])
  }

  /**
   * Every address the floating bits make from `value`: one per choice of
   * the floating bits, ones before zeros, position by position; with no
   * floating position, the value itself.
   */
  function Variants(value: nat, floating: seq<nat>): seq<nat>
    decreases |floating|
  {
    if floating == [] then [value]
    else
      Variants(Or(value, Pow2(floating[0])), floating[1..]) +
      Variants(AndNot(value, Pow2(floating[0])), floating[1..])
  }

  /** With at least one floating position, `apply_floating` pushes exactly the variants. */
  lemma {:induction false} PushesVariants(value: nat, floating: seq<nat>)
    requires floating != []
    ensures Pushes(value, floating) == Variants(value, floating)
    decreases |floating|
  {
    var rest := floating[1..];
    var forcedOne := Or(value, Pow2(floating[0]));
    var forcedZero := AndNot(value, Pow2(floating[0]));
    if |floating| == 1 {
      assert rest == [];
    } else {
      PushesVariants(forcedOne, rest);
      PushesVariants(forcedZero, rest);
    }
  }

  /** There are 2^k variants for k floating positions. */
  lemma {:induction false} VariantsCount(value: nat, floating: seq<nat>)
    ensures |Variants(value, floating)| == Pow2(|floating|)
    decreases |floating|
  {
    if floating != [] {
      VariantsCount(Or(value, Pow2(floating[0])), floating[1..]);
      VariantsCount(AndNot(value, Pow2(floating[0])), floating[1..]);
    }
  }

  /** Forcing bit `q` to one or to zero leaves every other bit alone. */
  lemma ForceBit(value: nat, q: nat, p: nat)
    ensures Bit(Or(value, Pow2(q)), p) <==> p == q || Bit(value, p)
    ensures Bit(AndNot(value, Pow2(q)), p) <==> p != q && Bit(value, p)
  {
    BitOr(value, Pow2(q), p);
    BitAndNot(value, Pow2(q), p);
    BitPow2(q, p);
  }

  /**
   * The variants are exactly the numbers that agree with `value` on every
   * bit that is not floating.
   */
  lemma {:induction false} VariantsIff(value: nat, floating: seq<nat>, x: nat)
    ensures x in Variants(value, floating) <==> forall p: nat :: p !in floating ==> Bit(x, p) == Bit(value, p)
    decreases |floating|
  {
    if floating == [] {
      if forall p: nat :: p !in floating ==> Bit(x, p) == Bit(value, p) {
        BitsDetermine(x, value);
      }
    } else {
      var q, rest := floating[0], floating[1..];
      var forcedOne := Or(value, Pow2(q));
      var forcedZero := AndNot(value, Pow2(q));
      VariantsIff(forcedOne, rest, x);
      VariantsIff(forcedZero, rest, x);
      forall p: nat
        ensures Bit(forcedOne, p) <==> p == q || Bit(value, p)
        ensures Bit(forcedZero, p) <==> p != q && Bit(value, p)
      {
        ForceBit(value, q, p);
      }
      assert forall p :: p in floating <==> p == q || p in rest;
      if forall p: nat :: p !in floating ==> Bit(x, p) == Bit(value, p) {
        if Bit(x, q) {
          assert forall p: nat :: p !in rest ==> Bit(x, p) == Bit(forcedOne, p);
        } else {
          assert forall p: nat :: p !in rest ==> Bit(x, p) == Bit(forcedZero, p);
        }
      }
    }
  }

  /** No element occurs twice. */
  predicate Distinct(s: seq<nat>) {
    forall i, j :: 0 <= i < j < |s| ==> s[i] != s[j]
  }

  lemma DistinctConcat(a: seq<nat>, b: seq<nat>)
    requires Distinct(a) && Distinct(b)
    requires forall i, j :: 0 <= i < |a| && 0 <= j < |b| ==> a[i] != b[j]
    ensures Distinct(a + b)
  {
  }

  /** Distinct floating positions give pairwise-distinct variants. */
  lemma {:induction false} VariantsDistinct(value: nat, floating: seq<nat>)
    requires Distinct(floating)
    ensures Distinct(Variants(value, floating))
    decreases |floating|
  {
    if floating != [] {
      var q, rest := floating[0], floating[1..];
      var forcedOne := Or(value, Pow2(q));
      var forcedZero := AndNot(value, Pow2(q));
      var ones, zeros := Variants(forcedOne, rest), Variants(forcedZero, rest);
      VariantsDistinct(forcedOne, rest);
      VariantsDistinct(forcedZero, rest);
      assert q !in rest;
      ForceBit(value, q, q);
      forall i, j | 0 <= i < |ones| && 0 <= j < |zeros|
        ensures ones[i] != zeros[j]
      {
        VariantsIff(forcedOne, rest, ones[i]);
        VariantsIff(forcedZero, rest, zeros[j]);
      }
      DistinctConcat(ones, zeros);
    }
  }

  /** A strictly decreasing sequence has no repeated element. */
  lemma DecreasingDistinct(s: seq<nat>)
    requires forall i, j :: 0 <= i < j < |s| ==> s[i] > s[j]
    ensures Distinct(s)
  {
  }

  /* ---------------------------------------------------------------- */
  /* Applying a mask                                                   */
  /* ---------------------------------------------------------------- */

  /**
   * `Bitmask::apply` as written: None when a floating position is 64 or
   * more (`0b1 << pos` overflows, which panics); otherwise what
   * `apply_floating` pushes for `value | ones`, which is nothing at all for
   * a mask without floating bits.
   */
  function ApplyAsWritten(m: Bitmask, value: nat): Option<seq<nat>> {
    if ShiftsFit(m.floating) then Some(Pushes(Or(value, m.ones), m.floating)) else None
  }

  /**
   * The addresses a write goes to: every variant of `value | ones` over the
   * floating bits, so `value | ones` itself when no bit floats; None when a
   * floating position is 64 or more.
   */
  function Addresses(m: Bitmask, value: nat): Option<seq<nat>> {
    if ShiftsFit(m.floating) then Some(Variants(Or(value, m.ones), m.floating)) else None
  }

  /**
   * The two agree whenever some bit floats; without a floating bit the code
   * as written yields no address, so such a mask makes every write a no-op.
   */
  lemma AsWrittenAddresses(m: Bitmask, value: nat)
    ensures m.floating != [] ==> ApplyAsWritten(m, value) == Addresses(m, value)
    ensures m.floating == [] ==>
      ApplyAsWritten(m, value) == Some([]) && Addresses(m, value) == Some([Or(value, m.ones)])
  {
    if m.floating != [] {
      PushesVariants(Or(value, m.ones), m.floating);
    }
  }

  /**
   * What `apply` promises: the addresses are exactly the numbers that have
   * every `ones` bit set and agree with `value` on every other bit that does
   * not float; there are 2^k of them for k floating bits, and for a parsed
   * mask no two are equal.
   */
  lemma AddressesIff(m: Bitmask, value: nat, x: nat)
    requires Addresses(m, value).Some?
    ensures var addrs := Addresses(m, value).value;
      (x in addrs <==> forall p: nat :: p !in m.floating ==> Bit(x, p) == (Bit(value, p) || Bit(m.ones, p))) &&
      |addrs| == Pow2(|m.floating|)
  {
    VariantsIff(Or(value, m.ones), m.floating, x);
    VariantsCount(Or(value, m.ones), m.floating);
    forall p: nat
      ensures Bit(Or(value, m.ones), p) == (Bit(value, p) || Bit(m.ones, p))
    {
      BitOr(value, m.ones, p);
    }
  }

  /** The addresses of a parsed mask are pairwise distinct, each has all `ones` bits set, and each is a u64 when the value is. */
  lemma ParsedAddresses(t: string, value: nat, x: nat)
    requires MaskOf(t).Ok? && Addresses(MaskOf(t).value, value).Some?
    requires value < U64_LIMIT
    ensures var m := MaskOf(t).value; var addrs := Addresses(m, value).value;
      Distinct(addrs) &&
      (x in addrs ==> x < U64_LIMIT && forall p: nat :: Bit(m.ones, p) ==> Bit(x, p))
  {
    var m := MaskOf(t).value;
    MaskOfBits(t, 0);
    DecreasingDistinct(m.floating);
    VariantsDistinct(Or(value, m.ones), m.floating);
    var addrs := Addresses(m, value).value;
    if x in addrs {
      AddressesIff(m, value, x);
      forall p: nat | Bit(m.ones, p)
        ensures Bit(x, p)
      {
        MaskOfBits(t, p);
      }
      U64Limit();
      BitsBelow(value, 64);
      forall p: nat | p >= 64
        ensures !Bit(x, p)
      {
        MaskOfBits(t, p);
        assert p !in m.floating;
      }
      BitsBelow(x, 64);
    }
  }

  /**
   * `apply_floating`: for the first position, forces the bit to one and to
   * zero; with one position left it pushes both, otherwise it recurses on
   * the rest for each. `output` is the vector pushed to; None where
   * `0b1 << pos` overflows (a position of 64 or more), which panics.
   */
  method ApplyFloating(value: nat, floating: seq<nat>, output: seq<nat>) returns (r: Option<seq<nat>>)
    ensures r == if ShiftsFit(floating) then Some(output + Pushes(value, floating)) else None
    decreases |floating|
  {
    if floating == [] {
      assert output + Pushes(value, floating) == output;
      return Some(output);
    }
    PushesStep(value, floating);
    var pos := floating[0];
    if pos >= 64 {
      return None;
    }
    var forcedOne := Or(value, Pow2(pos));
    var forcedZero := AndNot(value, Pow2(pos));
    if |floating| == 1 {
      var pushed := output + [forcedOne];
      pushed := pushed + [forcedZero];
      assert pushed == output + ([forcedOne] + [forcedZero]);
      r := Some(pushed);
    } else {
      var afterOne := ApplyFloating(forcedOne, floating[1..], output);
      if afterOne.None? {
        return None;
      }
      r := ApplyFloating(forcedZero, floating[1..], afterOne.value);
    }
  }

  /** One level of `apply_floating`: the shifts of the first position and of the rest, and the pushes. */
  lemma PushesStep(value: nat, floating: seq<nat>)
    requires floating != []
    ensures ShiftsFit(floating) <==> floating[0] < 64 && ShiftsFit(floating[1..])
    ensures var forcedOne, forcedZero := Or(value, Pow2(floating[0])), AndNot(value, Pow2(floating[0]));
      if |floating| == 1 then Pushes(value, floating) == [forcedOne] + [forcedZero]
      else forall output: seq<nat> ::
        output + Pushes(value, floating) == (output + Pushes(forcedOne, floating[1..])) + Pushes(forcedZero, floating[1..])
  {
    var rest := floating[1..];
    assert forall i :: 0 <= i < |rest| ==> rest[i] == floating[i + 1];
    if |floating| == 1 {
      assert rest == [];
    }
  }

  /**
   * `Bitmask::apply` with the case of no floating bit giving the single
   * address `value | ones`; otherwise `apply_floating` on `value | ones`.
   */
  method Apply(m: Bitmask, value: nat) returns (r: Option<seq<nat>>)
    ensures r == Addresses(m, value)
  {
    var v := Or(value, m.ones);
    if m.floating == [] {
      return Some([v]);
    }
    r := ApplyFloating(v, m.floating, []);
    PushesVariants(v, m.floating);
    assert [] + Pushes(v, m.floating) == Pushes(v, m.floating);
  }

  /* ---------------------------------------------------------------- */
  /* Running the program                                               */
  /* ---------------------------------------------------------------- */

  /** The state of `execute`: the current mask and the memory. */
  datatype Machine = Machine(mask: Bitmask, mem: map<nat, nat>)

  /** The memory after `mem.insert(address, value)` for each address in turn. */
  function WriteAll(mem: map<nat, nat>, addrs: seq<nat>, value: nat): map<nat, nat>
    decreases |addrs|
  {
    if addrs == [] then mem else WriteAll(mem[addrs[0] := value], addrs[1..], value)
  }

  /** Every written address holds the value; every other entry is unchanged. */
  lemma {:induction false} WriteAllAt(mem: map<nat, nat>, addrs: seq<nat>, value: nat, a: nat)
    ensures a in WriteAll(mem, addrs, value) <==> a in mem || a in addrs
    ensures a in WriteAll(mem, addrs, value) ==>
      WriteAll(mem, addrs, value)[a] == if a in addrs then value else mem[a]
    decreases |addrs|
  {
    if addrs != [] {
      WriteAllAt(mem[addrs[0] := value], addrs[1..], value, a);
      assert a in addrs <==> a == addrs[0] || a in addrs[1..];
    }
  }

  /** The addresses of a list, as a set. */
  function Elements(addrs: seq<nat>): set<nat> {
    set a | a in addrs
  }

  lemma MulSucc(m: nat, n: nat, v: nat)
    requires m == n + 1
    ensures m * v == n * v + v
  {
  }

  /** Writing one value to distinct addresses: what they held before drops out of the sum, and the value counts once per address. */
  lemma {:induction false} SumWriteAll(mem: map<nat, nat>, addrs: seq<nat>, value: nat)
    requires Distinct(addrs)
    ensures SumValues(WriteAll(mem, addrs, value)) == SumValues(mem - Elements(addrs)) + |addrs| * value
    decreases |addrs|
  {
    if addrs == [] {
      assert mem - Elements(addrs) == mem;
    } else {
      var h, rest := addrs[0], addrs[1..];
      DistinctTail(addrs);
      SumWriteAll(mem[h := value], rest, value);
      SumStoreFirst(mem, addrs, value);
      var before, n := SumValues(mem - Elements(addrs)), |rest|;
      assert SumValues(WriteAll(mem, addrs, value)) == before + value + n * value;
      MulSucc(|addrs|, n, value);
    }
  }

  /** The tail of a distinct list is distinct and does not hold its head. */
  lemma DistinctTail(addrs: seq<nat>)
    requires Distinct(addrs) && addrs != []
    ensures Distinct(addrs[1..]) && addrs[0] !in Elements(addrs[1..])
    ensures Elements(addrs) == Elements(addrs[1..]) + {addrs[0]}
  {
    var rest := addrs[1..];
    assert forall a :: a in addrs <==> a == addrs[0] || a in rest;
    forall i, j | 0 <= i < j < |rest|
      ensures rest[i] != rest[j]
    {
      assert rest[i] == addrs[i + 1] && rest[j] == addrs[j + 1];
    }
  }

  /** Storing at the first address, then dropping the others: what the first held is replaced by the value. */
  lemma SumStoreFirst(mem: map<nat, nat>, addrs: seq<nat>, value: nat)
    requires addrs != [] && addrs[0] !in Elements(addrs[1..])
    requires Elements(addrs) == Elements(addrs[1..]) + {addrs[0]}
    ensures SumValues(mem[addrs[0] := value] - Elements(addrs[1..])) == SumValues(mem - Elements(addrs)) + value
  {
    var h, later := addrs[0], Elements(addrs[1..]);
    MapMinusUpdate(mem, later, h, value);
    SumValuesUpdate(mem - later, h, value);
    MapMinusTwice(mem, later, {h});
  }

  /**
   * One line of `execute`: a mask line replaces the mask (None where its
   * text is not a mask: the `unwrap` panics); a write line stores the
   * value, unmasked, at every address the mask makes of the address (None
   * where `apply` panics); other lines change nothing.
   */
  function Step(st: Machine, ins: Option<Day14a.Instruction>): Option<Machine> {
    match ins
    case None => Some(st)
    case Some(SetMask(text)) =>
      (match MaskOf(Trim(text))
       case Err(_) => None
       case Ok(m) => Some(Machine(m, st.mem)))
    case Some(Write(a, v)) =>
      (match Addresses(st.mask, a)
       case None => None
       case Some(addrs) => Some(Machine(st.mask, WriteAll(st.mem, addrs, v))))
  }

  /** The machine after the instructions, from the default mask (no floating bit, no ones) and an empty memory. */
  function Run(prog: seq<Option<Day14a.Instruction>>): Option<Machine>
    decreases |prog|
  {
    if prog == [] then Some(Machine(Bitmask([], 0), map[]))
    else
      match Run(prog[..|prog| - 1])
      case None => None
      case Some(st) => Step(st, prog[|prog| - 1])
  }

  lemma RunSnoc(prog: seq<Option<Day14a.Instruction>>, i: nat)
    requires i < |prog|
    ensures Run(prog[..i + 1]) == match Run(prog[..i]) case None => None case Some(st) => Step(st, prog[i])
  {
    assert prog[..i + 1][..i] == prog[..i];
  }

  /** A panic ends the run: once a prefix fails, the whole program does. */
  lemma {:induction false} RunNone(prog: seq<Option<Day14a.Instruction>>, i: nat)
    requires i <= |prog| && Run(prog[..i]).None?
    ensures Run(prog).None?
    decreases |prog| - i
  {
    if i < |prog| {
      RunSnoc(prog, i);
      RunNone(prog, i + 1);
    } else {
      assert prog[..i] == prog;
    }
  }

  /** The inner loop of `execute`: inserts the value at each address in turn. */
  method InsertAll(mem: map<nat, nat>, addrs: seq<nat>, value: nat) returns (r: map<nat, nat>)
    ensures r == WriteAll(mem, addrs, value)
  {
    r := mem;
    for k := 0 to |addrs|
      invariant WriteAll(r, addrs[k..], value) == WriteAll(mem, addrs, value)
    {
      assert addrs[k..][1..] == addrs[k + 1..];
      r := r[addrs[k] := value];
    }
  }

  /**
   * `execute`: runs every line, then sums the values left in memory; None
   * where a mask line does not parse or a write's address expansion panics.
   */
  method Execute(lines: seq<string>) returns (r: Option<nat>)
    ensures r == match Run(Day14a.Program(lines)) case None => None case Some(st) => Some(SumValues(st.mem))
  {
    var mem: map<nat, nat> := map[];
    var mask := Bitmask([], 0);
    ghost var prog := Day14a.Program(lines);
    assert prog[..0] == [];
    for i := 0 to |lines|
      invariant Run(prog[..i]) == Some(Machine(mask, mem))
    {
      RunSnoc(prog, i);
      match Day14a.ParseLine(lines[i])
      case Some(SetMask(text)) =>
        var parsed := FromStr(text);
        if parsed.Err? {
          RunNone(prog, i + 1);
          return None;
        }
        mask := parsed.value;
      case Some(Write(address, value)) =>
        var addrs := Apply(mask, address);
        if addrs.None? {
          RunNone(prog, i + 1);
          return None;
        }
        mem := InsertAll(mem, addrs.value, value);
      case None =>
    }
    assert prog[..|lines|] == prog;
    var sum := Day14a.SumMemory(mem);
    r := Some(sum);
  }

  /* ---------------------------------------------------------------- */
  /* What the memory holds                                             */
  /* ---------------------------------------------------------------- */

  /** The instruction is a write that puts address `a` among the addresses the machine's mask makes. */
  predicate StepWrites(st: Machine, ins: Option<Day14a.Instruction>, a: nat) {
    ins.Some? && ins.value.Write? &&
    match Addresses(st.mask, ins.value.address)
    case None => false
    case Some(addrs) => a in addrs
  }

  /** One step on one address: a write that reaches it stores its value there; anything else leaves it alone. */
  lemma StepAt(st: Machine, ins: Option<Day14a.Instruction>, a: nat)
    requires Step(st, ins).Some?
    ensures var mem := Step(st, ins).value.mem;
      (a in mem <==> a in st.mem || StepWrites(st, ins, a)) &&
      (a in mem ==> mem[a] == if StepWrites(st, ins, a) then ins.value.value else st.mem[a])
  {
    if ins.Some? && ins.value.Write? {
      var addrs := Addresses(st.mask, ins.value.address).value;
      WriteAllAt(st.mem, addrs, ins.value.value, a);
    }
  }

  /** Instruction `i` is a write that runs and puts address `a` among its addresses. */
  predicate WritesTo(prog: seq<Option<Day14a.Instruction>>, i: nat, a: nat)
    requires i < |prog|
  {
    Run(prog[..i]).Some? && StepWrites(Run(prog[..i]).value, prog[i], a)
  }

  /** Whether an instruction writes an address does not depend on what follows it. */
  lemma WritesToPrefix(prog: seq<Option<Day14a.Instruction>>, n: nat, i: nat, a: nat)
    requires i < n <= |prog|
    ensures WritesTo(prog[..n], i, a) == WritesTo(prog, i, a)
  {
    assert prog[..n][..i] == prog[..i];
  }

  /** A successful run ends with a successful step from the run of all but the last instruction. */
  lemma RunLast(prog: seq<Option<Day14a.Instruction>>)
    requires prog != [] && Run(prog).Some?
    ensures var init := prog[..|prog| - 1];
      Run(init).Some? && Step(Run(init).value, prog[|prog| - 1]) == Run(prog)
  {
  }

  /** An address holds a value exactly when some write put it among its addresses. */
  lemma {:induction false} MemoryKeys(prog: seq<Option<Day14a.Instruction>>, a: nat)
    requires Run(prog).Some?
    ensures a in Run(prog).value.mem <==> exists i :: 0 <= i < |prog| && WritesTo(prog, i, a)
    decreases |prog|
  {
    if prog != [] {
      var n := |prog| - 1;
      var init := prog[..n];
      RunLast(prog);
      MemoryKeys(init, a);
      StepAt(Run(init).value, prog[n], a);
      assert WritesTo(prog, n, a) == StepWrites(Run(init).value, prog[n], a);
      forall i | 0 <= i < n
        ensures WritesTo(init, i, a) == WritesTo(prog, i, a)
      {
        WritesToPrefix(prog, n, i, a);
      }
    }
  }

  /** Instruction `k - 1` on address `a`, in the run of the first `k` instructions. */
  lemma PrefixStepAt(prog: seq<Option<Day14a.Instruction>>, k: nat, a: nat)
    requires 0 < k <= |prog| && Run(prog[..k]).Some?
    ensures Run(prog[..k - 1]).Some?
    ensures var before, after := Run(prog[..k - 1]).value.mem, Run(prog[..k]).value.mem;
      (a in after <==> a in before || WritesTo(prog, k - 1, a)) &&
      (a in after ==> after[a] == if WritesTo(prog, k - 1, a) then prog[k - 1].value.value else before[a])
  {
    RunSnoc(prog, k - 1);
    StepAt(Run(prog[..k - 1]).value, prog[k - 1], a);
  }

  /** From the write at `i` up to instruction `k`, with no write to `a` in between, `a` keeps the value written at `i`. */
  lemma {:induction false} KeepsValue(prog: seq<Option<Day14a.Instruction>>, a: nat, i: nat, k: nat)
    requires i < k <= |prog| && Run(prog[..k]).Some? && WritesTo(prog, i, a)
    requires forall j :: i < j < k ==> !WritesTo(prog, j, a)
    ensures a in Run(prog[..k]).value.mem && Run(prog[..k]).value.mem[a] == prog[i].value.value
    decreases k
  {
    PrefixStepAt(prog, k, a);
    if i < k - 1 {
      KeepsValue(prog, a, i, k - 1);
    }
  }

  /**
   * The last write wins: an address holds the value, unmasked, of the last
   * write that put it among its addresses.
   */
  lemma LastWrite(prog: seq<Option<Day14a.Instruction>>, a: nat, i: nat)
    requires Run(prog).Some? && i < |prog| && WritesTo(prog, i, a)
    requires forall j :: i < j < |prog| ==> !WritesTo(prog, j, a)
    ensures a in Run(prog).value.mem && Run(prog).value.mem[a] == prog[i].value.value
  {
    assert prog[..|prog|] == prog;
    KeepsValue(prog, a, i, |prog|);
  }

  /* ---------------------------------------------------------------- */
  /* The worked examples                                               */
  /* ---------------------------------------------------------------- */

  /** The first mask of the examples: bits 5 and 0 float, bits 4 and 1 are set. */
  function FirstMask(): string {
    Day14a.Repeat('0', 30) + "X1001X"
  }

  /** The second mask of the examples: bits 3, 1 and 0 float. */
  function SecondMask(): string {
    Day14a.Repeat('0', 32) + "X0XX"
  }

  /** No 'X' among the first `n` characters: no position recorded. */
  lemma {:induction false} FloatsNone(t: string, n: nat)
    requires n <= |t| && forall k :: 0 <= k < n ==> t[k] != 'X'
    ensures Floats(t, n) == []
    decreases n
  {
    if n > 0 {
      FloatsNone(t, n - 1);
    }
  }

  /** Bits 4 and 1 make 18. */
  lemma BitEighteen(p: nat)
    ensures Bit(18, p) <==> p == 4 || p == 1
  {
    BitDouble(9, p);
    if p > 1 {
      BitPow2(2, p - 2);
      assert Pow2(2) == 4;
      assert Bit(9, p - 1) == Bit(4, p - 2);
    }
  }

  /** A text of valid characters, its floating positions and its ones word make its mask. */
  lemma MaskOfParts(t: string, floating: seq<nat>, ones: nat)
    requires forall k :: 0 <= k < |t| ==> Day14a.IsMaskChar(t[k])
    requires Floats(t, |t|) == floating && Word(Marks(t, '1')) == ones
    ensures MaskOf(t) == Ok(Bitmask(floating, ones))
  {
  }

  lemma FirstMaskChars()
    ensures var t := FirstMask();
      |t| == 36 && (forall k :: 0 <= k < 30 ==> t[k] == '0') && t[30..] == "X1001X"
  {
  }

  lemma FirstMaskFloats()
    ensures Floats(FirstMask(), 36) == [5, 0]
  {
    var t := FirstMask();
    FirstMaskChars();
    FloatsNone(t, 30);
    assert t[30] == 'X' && t[31] != 'X' && t[32] != 'X' && t[33] != 'X' && t[34] != 'X' && t[35] == 'X';
    assert Floats(t, 31) == [5];
    assert Floats(t, 35) == [5];
  }

  lemma FirstMaskOnes()
    ensures Word(Marks(FirstMask(), '1')) == 18
  {
    var t := FirstMask();
    FirstMaskChars();
    forall p: nat
      ensures Bit(Word(Marks(t, '1')), p) == Bit(18, p)
    {
      MarksBit(t, '1', p);
      BitEighteen(p);
      if p < 36 {
        assert p < 6 ==> t[35 - p] == "X1001X"[5 - p];
      }
    }
    BitsDetermine(Word(Marks(t, '1')), 18);
  }

  lemma FirstMaskOf()
    ensures MaskOf(FirstMask()) == Ok(Bitmask([5, 0], 18))
  {
    var t := FirstMask();
    FirstMaskChars();
    assert forall k :: 30 <= k < 36 ==> t[k] == "X1001X"[k - 30];
    FirstMaskFloats();
    FirstMaskOnes();
    MaskOfParts(t, [5, 0], 18);
  }

  lemma SecondMaskChars()
    ensures var t := SecondMask();
      |t| == 36 && (forall k :: 0 <= k < 32 ==> t[k] == '0') && t[32..] == "X0XX"
  {
  }

  lemma SecondMaskFloats()
    ensures Floats(SecondMask(), 36) == [3, 1, 0]
  {
    var t := SecondMask();
    SecondMaskChars();
    FloatsNone(t, 32);
    assert t[32] == 'X' && t[33] != 'X' && t[34] == 'X' && t[35] == 'X';
    assert Floats(t, 33) == [3];
    assert Floats(t, 34) == [3];
    assert Floats(t, 35) == [3, 1];
  }

  /** A text without the character `c` marks nothing: its word is zero. */
  lemma MarksAbsent(t: string, c: char)
    requires forall k :: 0 <= k < |t| ==> t[k] != c
    ensures Word(Marks(t, c)) == 0
  {
    forall p: nat
      ensures Bit(Word(Marks(t, c)), p) == Bit(0, p)
    {
      MarksBit(t, c, p);
      BitZero(p);
    }
    BitsDetermine(Word(Marks(t, c)), 0);
  }

  lemma SecondMaskOnes()
    ensures Word(Marks(SecondMask(), '1')) == 0
  {
    var t := SecondMask();
    SecondMaskChars();
    assert forall k :: 32 <= k < 36 ==> t[k] == "X0XX"[k - 32];
    MarksAbsent(t, '1');
  }

  lemma SecondMaskOf()
    ensures MaskOf(SecondMask()) == Ok(Bitmask([3, 1, 0], 0))
  {
    var t := SecondMask();
    SecondMaskChars();
    assert forall k :: 32 <= k < 36 ==> t[k] == "X0XX"[k - 32];
    SecondMaskFloats();
    SecondMaskOnes();
    MaskOfParts(t, [3, 1, 0], 0);
  }

  /** The variants over a set bit `q` and then `rest`: those keeping it, then those with it cleared. */
  lemma VariantsSetBit(x: nat, q: nat, rest: seq<nat>)
    requires Bit(x, q)
    ensures x >= Pow2(q)
    ensures Variants(x, [q] + rest) == Variants(x, rest) + Variants(x - Pow2(q), rest)
  {
    ForcePow2(x, q);
    assert ([q] + rest)[1..] == rest;
  }

  /** The variants over bit 0 alone: the number with that bit set, then with it clear. */
  lemma VariantsLow(x: nat)
    ensures Variants(x, [0]) == if x % 2 == 0 then [x + 1, x] else [x, x - 1]
  {
    ForcePow2(x, 0);
    assert [0][1..] == [];
  }

  /** Floating a set bit `q` above bit 0 over an even number. */
  lemma VariantsHighLow(x: nat, q: nat, low: seq<nat>)
    requires x % 2 == 0 && 0 < q && Bit(x, q) && low == [0]
    ensures x >= Pow2(q)
    ensures Variants(x, [q] + low) == [x + 1, x, x - Pow2(q) + 1, x - Pow2(q)]
  {
    VariantsSetBit(x, q, low);
    assert Pow2(q) == 2 * Pow2(q - 1);
    VariantsLow(x);
    VariantsLow(x - Pow2(q));
  }

  /** Floating bits 1 and 0 over a number whose bit 1 is set and bit 0 clear. */
  lemma VariantsTwoLow(x: nat, low: seq<nat>)
    requires x % 4 == 2 && low == [0]
    ensures Variants(x, [1] + low) == [x + 1, x, x - 1, x - 2]
  {
    assert Bit(x, 1) == Bit(x / 2, 0);
    assert Pow2(1) == 2;
    VariantsSetBit(x, 1, low);
    VariantsLow(x);
    VariantsLow(x - 2);
  }

  /** A mask applies to the variants of `value | ones` when no shift overflows. */
  lemma AddressesOf(m: Bitmask, value: nat, v: nat, vs: seq<nat>)
    requires ShiftsFit(m.floating) && Or(value, m.ones) == v && Variants(v, m.floating) == vs
    ensures Addresses(m, value) == Some(vs)
  {
  }

  lemma FortyTwoOrEighteen()
    ensures Or(42, 18) == 58
  {
    assert Or(1, 0) == 1;
    assert Or(2, 1) == 2 * Or(1, 0) + 1;
    assert Or(5, 2) == 2 * Or(2, 1) + 1;
    assert Or(10, 4) == 2 * Or(5, 2);
    assert Or(21, 9) == 2 * Or(10, 4) + 1;
  }

  /** The variants of 58 over bits 5 and 0 (stated on variables, so the solver does not evaluate them). */
  lemma FirstVariants(x: nat, q: nat, low: seq<nat>)
    requires x == 58 && q == 5 && low == [0]
    ensures Variants(x, [q] + low) == [59, 58, 27, 26]
  {
    assert Bit(58, 5) by {
      assert Bit(58, 5) == Bit(1, 0);
    }
    assert Pow2(5) == 32;
    VariantsHighLow(x, q, low);
  }

  /** 42 under the first mask: 58, then bits 5 and 0 float. */
  lemma FirstExample()
    ensures Addresses(Bitmask([5, 0], 18), 42) == Some([59, 58, 27, 26])
  {
    FortyTwoOrEighteen();
    FirstVariants(58, 5, [0]);
    assert [5] + [0] == [5, 0];
    AddressesOf(Bitmask([5, 0], 18), 42, 58, [59, 58, 27, 26]);
  }

  lemma LessFours(x: nat, k: nat)
    requires x >= 4 * k
    ensures (x - 4 * k) % 4 == x % 4
  {
  }

  /** Floating a set bit `q` and then bits 1 and 0 over a number whose bit 1 is set and bit 0 clear. */
  lemma VariantsHighTwoLow(x: nat, q: nat, low: seq<nat>)
    requires Bit(x, q) && 1 < q && x % 4 == 2 && low == [0]
    ensures x >= Pow2(q)
    ensures var y := x - Pow2(q);
      Variants(x, [q] + ([1] + low)) == [x + 1, x, x - 1, x - 2, y + 1, y, y - 1, y - 2]
  {
    VariantsSetBit(x, q, [1] + low);
    var y := x - Pow2(q);
    var k := Pow2(q - 2);
    assert Pow2(q) == 4 * k by {
      assert Pow2(q - 1) == 2 * k;
    }
    LessFours(x, k);
    VariantsTwoLow(x, low);
    VariantsTwoLow(y, low);
  }

  /** The variants of 26 over bits 3, 1 and 0 (stated on variables, so the solver does not evaluate them). */
  lemma SecondVariants(x: nat, q: nat, low: seq<nat>)
    requires x == 26 && q == 3 && low == [0]
    ensures Variants(x, [q] + ([1] + low)) == [27, 26, 25, 24, 19, 18, 17, 16]
  {
    assert Bit(26, 3) by {
      assert Bit(26, 3) == Bit(3, 0);
    }
    assert Pow2(3) == 8;
    VariantsHighTwoLow(x, q, low);
  }

  /** 26 under the second mask: bits 3, 1 and 0 float. */
  lemma SecondExample()
    ensures Addresses(Bitmask([3, 1, 0], 0), 26) == Some([27, 26, 25, 24, 19, 18, 17, 16])
  {
    OrZeroRight(26);
    SecondVariants(26, 3, [0]);
    assert [3] + ([1] + [0]) == [3, 1, 0];
    AddressesOf(Bitmask([3, 1, 0], 0), 26, 26, [27, 26, 25, 24, 19, 18, 17, 16]);
  }

  /** The example program of the puzzle, with its two mask texts as parameters. */
  function ExampleProgram(first: string, second: string): seq<Option<Day14a.Instruction>> {
    [Some(Day14a.SetMask(first)), Some(Day14a.Write(42, 100))] + [Some(Day14a.SetMask(second)), Some(Day14a.Write(26, 1))]
  }

  /** A mask line appended to a program that runs replaces the mask. */
  lemma MaskAfter(prog: seq<Option<Day14a.Instruction>>, st: Machine, text: string, m: Bitmask)
    requires Run(prog) == Some(st) && MaskOf(Trim(text)) == Ok(m)
    ensures Run(prog + [Some(Day14a.SetMask(text))]) == Some(Machine(m, st.mem))
  {
    var longer := prog + [Some(Day14a.SetMask(text))];
    assert longer[..|longer| - 1] == prog;
  }

  /** A write appended to a program that runs stores the value at every address of the mask. */
  lemma WriteAfter(prog: seq<Option<Day14a.Instruction>>, st: Machine, a: nat, v: nat, addrs: seq<nat>)
    requires Run(prog) == Some(st) && Addresses(st.mask, a) == Some(addrs)
    ensures Run(prog + [Some(Day14a.Write(a, v))]) == Some(Machine(st.mask, WriteAll(st.mem, addrs, v)))
  {
    var longer := prog + [Some(Day14a.Write(a, v))];
    assert longer[..|longer| - 1] == prog;
  }

  /** A mask line and then a write appended to a program that runs. */
  lemma MaskThenWrite(prog: seq<Option<Day14a.Instruction>>, st: Machine, text: string, m: Bitmask, a: nat, v: nat, addrs: seq<nat>)
    requires Run(prog) == Some(st) && MaskOf(Trim(text)) == Ok(m) && Addresses(m, a) == Some(addrs)
    ensures Run(prog + [Some(Day14a.SetMask(text)), Some(Day14a.Write(a, v))]) == Some(Machine(m, WriteAll(st.mem, addrs, v)))
  {
    var withMask := prog + [Some(Day14a.SetMask(text))];
    MaskAfter(prog, st, text, m);
    WriteAfter(withMask, Machine(m, st.mem), a, v, addrs);
    assert withMask + [Some(Day14a.Write(a, v))] == prog + [Some(Day14a.SetMask(text)), Some(Day14a.Write(a, v))];
  }

  /** The example program leaves the second mask and the memory of its two writes. */
  lemma ExampleSteps(first: string, second: string, m1: Bitmask, m2: Bitmask, a1: seq<nat>, a2: seq<nat>)
    requires MaskOf(Trim(first)) == Ok(m1) && MaskOf(Trim(second)) == Ok(m2)
    requires Addresses(m1, 42) == Some(a1) && Addresses(m2, 26) == Some(a2)
    ensures Run(ExampleProgram(first, second)) == Some(Machine(m2, WriteAll(WriteAll(map[], a1, 100), a2, 1)))
  {
    var p0: seq<Option<Day14a.Instruction>> := [];
    var p2 := [Some(Day14a.SetMask(first)), Some(Day14a.Write(42, 100))];
    MaskThenWrite(p0, Machine(Bitmask([], 0), map[]), first, m1, 42, 100, a1);
    assert p0 + p2 == p2;
    MaskThenWrite(p2, Machine(m1, WriteAll(map[], a1, 100)), second, m2, 26, 1, a2);
  }

  /** The mask texts of the example have no surrounding blanks. */
  lemma ExampleMasksTrimmed()
    ensures Trim(FirstMask()) == FirstMask() && Trim(SecondMask()) == SecondMask()
  {
    FirstMaskChars();
    SecondMaskChars();
    TrimUnchanged(FirstMask());
    TrimUnchanged(SecondMask());
  }

  /** After the first write, only 59 and 58 escape the second one, each holding 100. */
  lemma ExampleSurvivors(mem: map<nat, nat>, a1: seq<nat>, a2: seq<nat>)
    requires a1 == [59, 58, 27, 26] && a2 == [27, 26, 25, 24, 19, 18, 17, 16]
    requires mem == WriteAll(map[], a1, 100)
    ensures mem - Elements(a2) == map[59 := 100, 58 := 100]
  {
    var left := mem - Elements(a2);
    forall a: nat
      ensures a in left <==> a == 59 || a == 58
      ensures a in left ==> left[a] == 100
    {
      WriteAllAt(map[], a1, 100, a);
    }
  }

  /** Writing `w` to distinct addresses over a memory where two other entries survive: those two plus `w` per address. */
  lemma SumOverTwo(mem: map<nat, nat>, addrs: seq<nat>, w: nat, k1: nat, v1: nat, k2: nat, v2: nat)
    requires Distinct(addrs) && k1 != k2
    requires mem - Elements(addrs) == map[k1 := v1, k2 := v2]
    ensures SumValues(WriteAll(mem, addrs, w)) == v1 + v2 + |addrs| * w
  {
    SumWriteAll(mem, addrs, w);
    SumTwo(k1, v1, k2, v2);
  }

  /** The answer of the example is 208. */
  lemma ExampleSum(first: string, second: string)
    requires first == FirstMask() && second == SecondMask()
    ensures var r := Run(ExampleProgram(first, second));
      r.Some? && SumValues(r.value.mem) == 208
  {
    var a1: seq<nat> := [59, 58, 27, 26];
    var a2: seq<nat> := [27, 26, 25, 24, 19, 18, 17, 16];
    var m1, m2 := Bitmask([5, 0], 18), Bitmask([3, 1, 0], 0);
    ExampleMasksTrimmed();
    FirstMaskOf();
    SecondMaskOf();
    FirstExample();
    SecondExample();
    ExampleSteps(first, second, m1, m2, a1, a2);
    ParsedAddresses(second, 26, 0);
    var mem := WriteAll(map[], a1, 100);
    ExampleSurvivors(mem, a1, a2);
    SumOverTwo(mem, a2, 1, 59, 100, 58, 100);
  }

  /**
   * A mask without floating bits, as written: "1" parses, yet a write under
   * it reaches no address, where forcing the ones bit gives exactly one.
   */
  lemma NoFloatingWritesNothing(t: string, value: nat)
    requires t == "1" && value == 0
    ensures MaskOf(t) == Ok(Bitmask([], 1))
    ensures ApplyAsWritten(Bitmask([], 1), value) == Some([])
    ensures Addresses(Bitmask([], 1), value) == Some([1])
  {
    OneMaskOf(t);
    OrZero(1);
    AsWrittenAddresses(Bitmask([], 1), value);
  }

  lemma OneMaskOf(t: string)
    requires t == "1"
    ensures MaskOf(t) == Ok(Bitmask([], 1))
  {
    FloatsNone(t, 1);
    var flags := Marks(t, '1');
    assert flags == [true];
    assert Word(flags) == Or(Shl(0), 1);
    assert Shl(0) == 0;
    OrZero(1);
    assert Day14a.IsMaskChar(t[0]);
    MaskOfParts(t, [], 1);
  }
}
