/**
 * Day 5, part two: a boarding pass is 7 row letters (F = lower half,
 * B = upper half of 128 rows) then 3 column letters (L/R over 8 columns);
 * the seat id is row * 8 + column. Your seat is the one gap in the sorted ids.
 */
module Day5b {
  import opened Common

  datatype Part = Column | Row

  /** The letters that select the lower and the upper half. */
  datatype PartEncoding = PartEncoding(low: char, high: char)

  datatype Error = UnexpectedCharacter(given: char, expected: PartEncoding) | InvalidInputLength(length: nat)

  datatype Seat = Seat(row: nat, column: nat, id: nat)

  /** `Part::get_str_len`. */
  function StrLen(part: Part): nat {
    match part
    case Column => 3
    case Row => 7
  }

  /** `Part::get_encoding`. */
  function Encoding(part: Part): PartEncoding {
    match part
    case Row => PartEncoding('F', 'B')
    case Column => PartEncoding('L', 'R')
  }

  /** `Part::get_max_value`. */
  function MaxValue(part: Part): nat {
    match part
    case Column => 8
    case Row => 128
  }

  function Pow2(n: nat): (p: nat)
    ensures p >= 1
  {
    if n == 0 then 1 else 2 * Pow2(n - 1)
  }

  /** The maximum is two to the number of letters: each letter halves the range exactly. */
  lemma MaxValueIsPow2(part: Part)
    ensures MaxValue(part) == Pow2(StrLen(part))
  {
    assert Pow2(3) == 8;
    assert Pow2(7) == 128;
  }

  /** Every letter is the part's low or high letter. */
  predicate WellEncoded(s: string, e: PartEncoding) {
    forall i :: 0 <= i < |s| ==> s[i] == e.low || s[i] == e.high
  }

  /** The binary number the letters spell, high letter = 1, most significant first. */
  function BinaryValue(s: string, e: PartEncoding): (v: nat)
    ensures v < Pow2(|s|)
    decreases |s|
  {
    if s == [] then 0
    else 2 * BinaryValue(s[..|s| - 1], e) + (if s[|s| - 1] == e.high then 1 else 0)
  }

  /** The first letter that is neither the low nor the high letter. */
  function FirstUnexpected(s: string, e: PartEncoding): (i: nat)
    requires !WellEncoded(s, e)
    ensures i < |s| && s[i] != e.low && s[i] != e.high && WellEncoded(s[..i], e)
  {
    if s[0] != e.low && s[0] != e.high then 0
    else
      var i := FirstUnexpected(s[1..], e);
      assert s[..i + 1] == [s[0]] + s[1..][..i];
      i + 1
  }

  /** Appending a letter doubles the value and adds its bit. */
  lemma BinaryValueSnoc(s: string, e: PartEncoding, c: char)
    ensures BinaryValue(s + [c], e) == 2 * BinaryValue(s, e) + (if c == e.high then 1 else 0)
  {
    assert (s + [c])[..|s|] == s;
  }

  /**
   * The lower end of the range after the letters `s`, out of `n` letters in
   * all: the lower half keeps it, the upper half moves it up by half the width.
   */
  function RangeLow(s: string, e: PartEncoding, n: nat): (low: nat)
    requires |s| <= n
    ensures low >= 1
    decreases |s|
  {
    if s == [] then 1
    else
      var low := RangeLow(s[..|s| - 1], e, n);
      if s[|s| - 1] == e.high then low + Pow2(n - |s|) else low
  }

  /** The lower end is one past the letters' value shifted left by the letters still to come. */
  lemma {:induction false} RangeLowValue(s: string, e: PartEncoding, n: nat)
    requires |s| <= n && e.low != e.high
    ensures RangeLow(s, e, n) == 1 + BinaryValue(s, e) * Pow2(n - |s|)
    decreases |s|
  {
    if s != [] {
      var init := s[..|s| - 1];
      RangeLowValue(init, e, n);
      var b := if s[|s| - 1] == e.high then 1 else 0;
      assert Pow2(n - |init|) == 2 * Pow2(n - |s|);
      ShiftArith(BinaryValue(init, e), Pow2(n - |s|), b);
    }
  }

  /** Shifting `v` left one place and adding the bit `b`, then shifting by `p`. */
  lemma ShiftArith(v: nat, p: nat, b: nat)
    ensures v * (2 * p) + b * p == (2 * v + b) * p
  {
  }

  /**
   * The loop state of `decode_part` after `i` letters: they are all valid,
   * and `(lo, hi)` is the range they select, of width `2^(n - i)`.
   */
  predicate Halved(input: string, e: PartEncoding, n: nat, i: nat, lo: int, hi: int) {
    i <= |input| <= n && WellEncoded(input[..i], e)
    && lo == RangeLow(input[..i], e, n) && hi == lo - 1 + Pow2(n - i)
  }

  /** The loop invariant of `decode_part` survives one more valid letter. */
  lemma HalvingStep(input: string, e: PartEncoding, n: nat, i: nat, lo: int, hi: int)
    requires Halved(input, e, n, i, lo, hi) && i < |input| && e.low != e.high
    requires input[i] == e.low || input[i] == e.high
    ensures var mid := lo + (hi - lo) / 2;
      if input[i] == e.low then Halved(input, e, n, i + 1, lo, mid)
      else Halved(input, e, n, i + 1, mid + 1, hi)
  {
    assert input[..i + 1] == input[..i] + [input[i]];
    assert Pow2(n - i) == 2 * Pow2(n - i - 1);
  }

  /** After every letter, the range's lower end gives the shifted binary value. */
  lemma HalvedAll(input: string, e: PartEncoding, n: nat, lo: int, hi: int)
    requires Halved(input, e, n, |input|, lo, hi) && e.low != e.high
    ensures WellEncoded(input, e) && lo - 1 == BinaryValue(input, e) * Pow2(n - |input|)
  {
    assert input[..|input|] == input;
    RangeLowValue(input, e, n);
  }

  /**
   * `decode_part`: starting from the range `(1, max)`, each letter keeps the
   * lower or the upper half; a letter that is neither fails. The answer is the
   * range's lower end minus one. On its full length the answer is the binary
   * value of the letters, and on a shorter input that value shifted left by
   * the missing letters.
   */
  method DecodePart(input: string, part: Part) returns (r: Result<nat, Error>)
    requires |input| <= StrLen(part)
    ensures r == PartValue(input, part)
  {
    var e := Encoding(part);
    var n := StrLen(part);
    MaxValueIsPow2(part);
    var lo, hi := 1, MaxValue(part);
    for i := 0 to |input|
      invariant Halved(input, e, n, i, lo, hi)
    {
      var c := input[i];
      if c != e.low && c != e.high {
        FirstUnexpectedIs(input, e, i);
        PartValueErr(input, part, i);
        return Err(UnexpectedCharacter(c, e));
      }
      HalvingStep(input, e, n, i, lo, hi);
      var mid := lo + (hi - lo) / 2;
      if c == e.low {
        hi := mid;
      } else {
        lo := mid + 1;
      }
    }
    HalvedAll(input, e, n, lo, hi);
    PartValueOk(input, part, lo - 1);
    r := Ok(lo - 1);
  }

  /** PartValue on well-encoded letters. */
  lemma PartValueOk(input: string, part: Part, v: nat)
    requires |input| <= StrLen(part) && WellEncoded(input, Encoding(part))
    requires v == BinaryValue(input, Encoding(part)) * Pow2(StrLen(part) - |input|)
    ensures PartValue(input, part) == Ok(v)
  {
  }

  /** PartValue at the first bad letter. */
  lemma PartValueErr(input: string, part: Part, i: nat)
    requires |input| <= StrLen(part) && !WellEncoded(input, Encoding(part))
    requires FirstUnexpected(input, Encoding(part)) == i
    ensures PartValue(input, part) == Err(UnexpectedCharacter(input[i], Encoding(part)))
  {
  }

  /** The first bad letter is the one the loop stops at. */
  lemma FirstUnexpectedIs(s: string, e: PartEncoding, i: nat)
    requires i < |s| && s[i] != e.low && s[i] != e.high && WellEncoded(s[..i], e)
    ensures !WellEncoded(s, e) && FirstUnexpected(s, e) == i
  {
    assert s[i] != e.low && s[i] != e.high;
  }

  /**
   * The pure meaning of `decode_part` on at most the part's letters: the
   * letters' binary value shifted left by the letters missing, below the
   * part's maximum, or the first bad letter.
   */
  function PartValue(input: string, part: Part): (r: Result<nat, Error>)
    requires |input| <= StrLen(part)
    ensures r.Ok? ==> r.value < MaxValue(part)
  {
    MaxValueIsPow2(part);
    var e := Encoding(part);
    if WellEncoded(input, e) then
      ShiftedBelow(BinaryValue(input, e), |input|, StrLen(part));
      Ok(BinaryValue(input, e) * Pow2(StrLen(part) - |input|))
    else Err(UnexpectedCharacter(input[FirstUnexpected(input, e)], e))
  }

  /** Two to a sum is the product of the powers. */
  lemma {:induction false} Pow2Add(a: nat, b: nat)
    ensures Pow2(a + b) == Pow2(a) * Pow2(b)
    decreases a
  {
    if a > 0 {
      Pow2Add(a - 1, b);
    }
  }

  /** An `m`-letter value shifted left by `n - m` places stays below `2^n`. */
  lemma ShiftedBelow(v: nat, m: nat, n: nat)
    requires v < Pow2(m) && m <= n
    ensures v * Pow2(n - m) < Pow2(n)
  {
    Pow2Add(m, n - m);
    var q := Pow2(n - m);
    MulLe(v + 1, Pow2(m), q);
    assert (v + 1) * q == v * q + q;
  }

  /** Multiplying keeps the order. */
  lemma MulLe(a: nat, b: nat, c: nat)
    requires a <= b
    ensures a * c <= b * c
  {
  }

  /** The letters of both encodings are ASCII: a well-encoded part has one byte per letter. */
  lemma WellEncodedBytes(s: string, part: Part)
    requires WellEncoded(s, Encoding(part))
    ensures Utf8Length(s) == |s|
  {
    AsciiLength(s);
  }

  /**
   * `decode`: the pass must be 10 bytes long (`str::len`, checked before the
   * letters); the row is decoded from the first 7 bytes and the column from
   * the rest, and the id is row * 8 + column. `None` is the panic of
   * `&input[0..7]` when byte 7 falls inside a character.
   */
  method Decode(input: string) returns (r: Option<Result<Seat, Error>>)
    ensures r == DecodeSpec(input)
  {
    var length := Utf8Length(input);
    if length != StrLen(Row) + StrLen(Column) {
      return Some(Err(InvalidInputLength(length)));
    }
    var boundary := ByteBoundary(input, StrLen(Row));
    if boundary.None? {
      return None;
    }
    var k := boundary.value;
    SplitBytes(input, k);
    var row := DecodePart(input[..k], Row);
    if row.Err? {
      return Some(Err(row.error));
    }
    var column := DecodePart(input[k..], Column);
    if column.Err? {
      return Some(Err(column.error));
    }
    r := Some(Ok(Seat(row.value, column.value, row.value * 8 + column.value)));
  }

  /** Cutting a 10-byte pass after 7 bytes leaves at most 3 characters. */
  lemma SplitBytes(input: string, k: nat)
    requires k <= |input| && Utf8Length(input) == 10 && Utf8Length(input[..k]) == 7
    ensures Utf8Length(input[k..]) == 3 && |input[k..]| <= 3
  {
    assert input[..k] + input[k..] == input;
    Utf8Append(input[..k], input[k..]);
  }

  /** What `decode` computes; `None` is the slicing panic. */
  function DecodeSpec(input: string): (r: Option<Result<Seat, Error>>)
    ensures r.Some? && r.value.Ok? ==>
      var seat := r.value.value; seat.row < 128 && seat.column < 8 && seat.id == seat.row * 8 + seat.column
  {
    var length := Utf8Length(input);
    if length != 10 then Some(Err(InvalidInputLength(length)))
    else match ByteBoundary(input, 7)
      case None => None
      case Some(k) =>
        SplitBytes(input, k);
        match PartValue(input[..k], Row)
        case Err(e) => Some(Err(e))
        case Ok(row) =>
          match PartValue(input[k..], Column)
          case Err(e) => Some(Err(e))
          case Ok(column) => Some(Ok(Seat(row, column, row * 8 + column)))
  }

  /** `decode` panics exactly on a 10-byte pass with no character boundary after byte 7. */
  lemma DecodePanicsIff(input: string)
    ensures DecodeSpec(input).None? <==>
      Utf8Length(input) == 10 && forall k :: 0 <= k <= |input| ==> Utf8Length(input[..k]) != 7
  {
    if Utf8Length(input) == 10 && exists k :: 0 <= k <= |input| && Utf8Length(input[..k]) == 7 {
      var k :| 0 <= k <= |input| && Utf8Length(input[..k]) == 7;
      ByteBoundaryAt(input, k);
    }
  }

  /**
   * `decode` succeeds exactly on ten letters, seven row letters then three
   * column letters, and the seat is the two halves read as binary numbers.
   */
  lemma DecodeOkIff(input: string)
    ensures (DecodeSpec(input).Some? && DecodeSpec(input).value.Ok?) <==>
      |input| == 10 && WellEncoded(input[..7], Encoding(Row)) && WellEncoded(input[7..], Encoding(Column))
    ensures DecodeSpec(input).Some? && DecodeSpec(input).value.Ok? ==>
      var row := BinaryValue(input[..7], Encoding(Row));
      var column := BinaryValue(input[7..], Encoding(Column));
      DecodeSpec(input).value.value == Seat(row, column, row * 8 + column)
  {
    var r := DecodeSpec(input);
    if r.Some? && r.value.Ok? {
      var k := ByteBoundary(input, 7).value;
      SplitBytes(input, k);
      WellEncodedBytes(input[..k], Row);
      WellEncodedBytes(input[k..], Column);
    }
    if |input| == 10 && WellEncoded(input[..7], Encoding(Row)) && WellEncoded(input[7..], Encoding(Column)) {
      WellEncodedBytes(input[..7], Row);
      WellEncodedBytes(input[7..], Column);
      assert input[..7] + input[7..] == input;
      Utf8Append(input[..7], input[7..]);
      ByteBoundaryAt(input, 7);
    }
  }

  /** An ASCII pass never panics, and its length error gives its number of characters. */
  lemma DecodeAscii(input: string)
    requires forall i :: 0 <= i < |input| ==> input[i] as int < 0x80
    ensures DecodeSpec(input).Some?
    ensures |input| != 10 ==> DecodeSpec(input) == Some(Err(InvalidInputLength(|input|)))
  {
    AsciiLength(input);
    if |input| == 10 {
      AsciiLength(input[..7]);
      ByteBoundaryAt(input, 7);
    }
  }

  /** The pass `FFFFFFéRR` has 10 bytes, but byte 7 is the middle of `é`: slicing panics. */
  lemma NonAsciiPanics()
    ensures DecodeSpec("FFFFFF\U{e9}RR").None?
  {
    var f, c, rest := "FFFFFF", '\U{e9}', "RR";
    assert "FFFFFF\U{e9}RR" == f + [c] + rest;
    assert Utf8Width(c) == 2;
    SplitCharacterPanics(f, c, rest);
  }

  /** Six ASCII characters, a two-byte character and two ASCII characters: ten bytes, split inside the character. */
  lemma SplitCharacterPanics(f: string, c: char, rest: string)
    requires |f| == 6 && forall i :: 0 <= i < |f| ==> f[i] as int < 0x80
    requires |rest| == 2 && forall i :: 0 <= i < |rest| ==> rest[i] as int < 0x80
    requires Utf8Width(c) == 2
    ensures DecodeSpec(f + [c] + rest).None?
  {
    var s := f + [c] + rest;
    AsciiLength(f);
    AsciiLength(rest);
    Utf8Append(f + [c], rest);
    Utf8Append(f, [c]);
    assert Utf8Length([c]) == 2;
    InsideCharacter(f, c, rest, 7);
    DecodePanicsIff(s);
  }

  /** A byte offset inside the first non-ASCII character after an ASCII prefix is no character boundary. */
  lemma InsideCharacter(f: string, c: char, rest: string, b: nat)
    requires forall i :: 0 <= i < |f| ==> f[i] as int < 0x80
    requires |f| < b < |f| + Utf8Width(c)
    ensures var s := f + [c] + rest; forall k :: 0 <= k <= |s| ==> Utf8Length(s[..k]) != b
  {
    var s := f + [c] + rest;
    forall k | 0 <= k <= |s|
      ensures Utf8Length(s[..k]) != b
    {
      if k <= |f| {
        assert s[..k] == f[..k];
        AsciiLength(f[..k]);
      } else {
        assert s[..k] == (f + [c]) + s[|f| + 1..k];
        Utf8Append(f + [c], s[|f| + 1..k]);
        Utf8Append(f, [c]);
        AsciiLength(f);
      }
    }
  }

  /** The letters for `v` in `n` letters of the part's encoding. */
  function Encode(v: nat, n: nat, e: PartEncoding): (s: string)
    ensures |s| == n && WellEncoded(s, e)
  {
    if n == 0 then [] else Encode(v / 2, n - 1, e) + [if v % 2 == 1 then e.high else e.low]
  }

  /** Decoding the letters of a value below 2^n gives the value back. */
  lemma {:induction false} BinaryValueEncode(v: nat, n: nat, e: PartEncoding)
    requires v < Pow2(n) && e.low != e.high
    ensures BinaryValue(Encode(v, n, e), e) == v
  {
    if n > 0 {
      var s := Encode(v, n, e);
      assert s[..|s| - 1] == Encode(v / 2, n - 1, e);
      BinaryValueEncode(v / 2, n - 1, e);
    }
  }

  /** The boarding pass of a seat: its row letters and its column letters. */
  function BoardingPass(row: nat, column: nat): string {
    Encode(row, 7, Encoding(Row)) + Encode(column, 3, Encoding(Column))
  }

  /** Every seat's boarding pass decodes back to that seat. */
  lemma DecodeBoardingPass(row: nat, column: nat)
    requires row < 128 && column < 8
    ensures DecodeSpec(BoardingPass(row, column)) == Some(Ok(Seat(row, column, row * 8 + column)))
  {
    var s := BoardingPass(row, column);
    assert s[..7] == Encode(row, 7, Encoding(Row));
    assert s[7..] == Encode(column, 3, Encoding(Column));
    PartValueEncode(row, Row);
    PartValueEncode(column, Column);
    DecodeHalves(s, row, column);
  }

  /** Different seats have different ids: row and column are the id's quotient and remainder by 8. */
  lemma SeatIdInjective(a: Seat, b: Seat)
    requires a.column < 8 && b.column < 8
    requires a.id == a.row * 8 + a.column && b.id == b.row * 8 + b.column
    ensures a.id == b.id ==> a == b
  {
    if a.id == b.id {
      assert a.row == a.id / 8 && b.row == b.id / 8;
    }
  }

  /** A part's letters for a value below the maximum decode back to the value. */
  lemma PartValueEncode(v: nat, part: Part)
    requires v < MaxValue(part)
    ensures PartValue(Encode(v, StrLen(part), Encoding(part)), part) == Ok(v)
  {
    MaxValueIsPow2(part);
    var e := Encoding(part);
    var s := Encode(v, StrLen(part), e);
    BinaryValueEncode(v, StrLen(part), e);
    assert WellEncoded(s, e) && StrLen(part) - |s| == 0;
    assert BinaryValue(s, e) * Pow2(0) == v;
  }

  /* The tests of `decode_part` (and the parts of the `decode` tests): one lemma per pass half. */

  lemma RowExample44()
    ensures PartValue("FBFBBFF", Row) == Ok(44)
  {
    PartValueEncode(44, Row);
    assert Encode(44, 7, Encoding(Row)) == "FBFBBFF";
  }

  lemma ColumnExample5()
    ensures PartValue("RLR", Column) == Ok(5)
  {
    PartValueEncode(5, Column);
    assert Encode(5, 3, Encoding(Column)) == "RLR";
  }

  lemma RowExample70()
    ensures PartValue("BFFFBBF", Row) == Ok(70)
  {
    PartValueEncode(70, Row);
    assert Encode(70, 7, Encoding(Row)) == "BFFFBBF";
  }

  lemma ColumnExample7()
    ensures PartValue("RRR", Column) == Ok(7)
  {
    PartValueEncode(7, Column);
    assert Encode(7, 3, Encoding(Column)) == "RRR";
  }

  lemma RowExample14()
    ensures PartValue("FFFBBBF", Row) == Ok(14)
  {
    PartValueEncode(14, Row);
    assert Encode(14, 7, Encoding(Row)) == "FFFBBBF";
  }

  lemma RowExample102()
    ensures PartValue("BBFFBBF", Row) == Ok(102)
  {
    PartValueEncode(102, Row);
    assert Encode(102, 7, Encoding(Row)) == "BBFFBBF";
  }

  lemma ColumnExample4()
    ensures PartValue("RLL", Column) == Ok(4)
  {
    PartValueEncode(4, Column);
    assert Encode(4, 3, Encoding(Column)) == "RLL";
  }

  /** `decode` of a pass whose halves decode to `row` and `column`. */
  lemma DecodeHalves(s: string, row: nat, column: nat)
    requires |s| == 10 && PartValue(s[..7], Row) == Ok(row) && PartValue(s[7..], Column) == Ok(column)
    ensures DecodeSpec(s) == Some(Ok(Seat(row, column, row * 8 + column)))
  {
    WellEncodedBytes(s[..7], Row);
    WellEncodedBytes(s[7..], Column);
    assert s[..7] + s[7..] == s;
    Utf8Append(s[..7], s[7..]);
    ByteBoundaryAt(s, 7);
  }

  /* The tests of `decode`: one lemma per pass. */

  lemma SeatExample567()
    ensures BoardingPass(70, 7) == "BFFFBBFRRR"
    ensures DecodeSpec(BoardingPass(70, 7)) == Some(Ok(Seat(70, 7, 567)))
  {
    assert Encode(70, 7, Encoding(Row)) == "BFFFBBF";
    assert Encode(7, 3, Encoding(Column)) == "RRR";
    DecodeBoardingPass(70, 7);
  }

  lemma SeatExample119()
    ensures BoardingPass(14, 7) == "FFFBBBFRRR"
    ensures DecodeSpec(BoardingPass(14, 7)) == Some(Ok(Seat(14, 7, 119)))
  {
    assert Encode(14, 7, Encoding(Row)) == "FFFBBBF";
    assert Encode(7, 3, Encoding(Column)) == "RRR";
    DecodeBoardingPass(14, 7);
  }

  lemma SeatExample820()
    ensures BoardingPass(102, 4) == "BBFFBBFRLL"
    ensures DecodeSpec(BoardingPass(102, 4)) == Some(Ok(Seat(102, 4, 820)))
  {
    assert Encode(102, 7, Encoding(Row)) == "BBFFBBF";
    assert Encode(4, 3, Encoding(Column)) == "RLL";
    DecodeBoardingPass(102, 4);
  }

  /* ---------------------------------------------------------------- */
  /* The seats of the input                                            */
  /* ---------------------------------------------------------------- */

  /**
   * `main` keeps the lines that decode (reporting the others) as seats, in
   * input order; `None` when decoding a line panics.
   */
  function ParsedSeats(lines: seq<string>): (r: Option<seq<Seat>>)
    ensures r.None? <==> exists k :: 0 <= k < |lines| && DecodeSpec(lines[k]).None?
    ensures r.Some? ==> |r.value| <= |lines| && forall k :: 0 <= k < |r.value| ==> r.value[k].id < 1024
  {
    if lines == [] then Some([])
    else match DecodeSpec(lines[0])
      case None => None
      case Some(d) =>
        match ParsedSeats(lines[1..])
        case None =>
          ghost var k :| 0 <= k < |lines[1..]| && DecodeSpec(lines[1..][k]).None?;
          assert DecodeSpec(lines[k + 1]).None?;
          None
        case Some(rest) =>
          assert forall k :: 1 <= k < |lines| ==> lines[k] == lines[1..][k - 1];
          Some(match d case Ok(seat) => [seat] + rest case Err(_) => rest)
  }

  /** Every kept seat is what some input line decodes to, and every decoding line is kept. */
  lemma {:induction false} ParsedSeatsIff(lines: seq<string>, seat: Seat)
    requires ParsedSeats(lines).Some?
    ensures seat in ParsedSeats(lines).value <==> exists k :: 0 <= k < |lines| && DecodeSpec(lines[k]) == Some(Ok(seat))
  {
    if lines != [] {
      assert forall k :: 1 <= k < |lines| ==> lines[k] == lines[1..][k - 1];
      ParsedSeatsIff(lines[1..], seat);
      if seat in ParsedSeats(lines[1..]).value {
        var k :| 0 <= k < |lines[1..]| && DecodeSpec(lines[1..][k]) == Some(Ok(seat));
        assert DecodeSpec(lines[k + 1]) == Some(Ok(seat));
      }
    }
  }

  /** Ids sorted the way `sort_by_key` leaves them (equal ids may repeat). */
  predicate SortedIds(ids: seq<nat>) {
    forall i, j :: 0 <= i < j < |ids| ==> ids[i] <= ids[j]
  }

  /** `seats.last().unwrap().id`: the last sorted id; `None` is the panic on an empty list. */
  function HighestSeatId(ids: seq<nat>): (h: Option<nat>)
    ensures h.None? <==> |ids| == 0
    ensures h.Some? ==> h.value in ids
  {
    if |ids| == 0 then None else Some(ids[|ids| - 1])
  }

  /** The last sorted id is the highest id. */
  lemma HighestIsMaximum(ids: seq<nat>)
    requires SortedIds(ids)
    ensures HighestSeatId(ids).Some? ==> forall k :: 0 <= k < |ids| ==> ids[k] <= HighestSeatId(ids).value
  {
    forall k | 0 <= k < |ids| - 1
      ensures ids[k] <= ids[|ids| - 1]
    {
    }
  }

  /* ---------------------------------------------------------------- */
  /* The gap search                                                    */
  /* ---------------------------------------------------------------- */

  /** Ids `k` and `k + 1` are consecutive. */
  predicate ConsecutiveAt(ids: seq<nat>, k: nat)
    requires k + 1 < |ids|
  {
    ids[k] + 1 == ids[k + 1]
  }

  /**
   * The gap search of `main` over the sorted ids: the id after the first one
   * not followed by its successor, or None when all ids are consecutive.
   */
  method FindMissing(ids: seq<nat>) returns (missing: Option<nat>)
    ensures missing.None? <==> forall k :: 0 <= k && k + 1 < |ids| ==> ConsecutiveAt(ids, k)
    ensures missing.Some? ==> exists k :: (0 <= k && k + 1 < |ids| && !ConsecutiveAt(ids, k) &&
      missing.value == ids[k] + 1 && forall j :: 0 <= j < k ==> ConsecutiveAt(ids, j))
  {
    var lastSeatId: Option<nat> := None;
    var i := 0;
    while i < |ids|
      invariant 0 <= i <= |ids|
      invariant lastSeatId == if i == 0 then None else Some(ids[i - 1])
      invariant forall j :: 0 <= j && j + 1 < i ==> ConsecutiveAt(ids, j)
    {
      var id := ids[i];
      if lastSeatId.Some? && lastSeatId.value + 1 != id {
        assert !ConsecutiveAt(ids, i - 1);
        return Some(lastSeatId.value + 1);
      }
      lastSeatId := Some(id);
      i := i + 1;
    }
    return None;
  }

  predicate StrictlySorted(ids: seq<nat>) {
    forall i, j :: 0 <= i < j < |ids| ==> ids[i] < ids[j]
  }

  /**
   * On strictly sorted ids, a found id is free, and lies strictly between the
   * lowest and the highest id: the seat with its neighbours on both sides.
   */
  lemma MissingIsFree(ids: seq<nat>, k: nat)
    requires StrictlySorted(ids) && k + 1 < |ids| && !ConsecutiveAt(ids, k)
    ensures ids[k] + 1 !in ids
    ensures ids[0] < ids[k] + 1 < ids[|ids| - 1]
  {
    forall j | 0 <= j < |ids|
      ensures ids[j] != ids[k] + 1
    {
      if j <= k {
        assert ids[j] <= ids[k];
      } else {
        assert ids[j] >= ids[k + 1];
      }
    }
  }
}
