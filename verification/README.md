# aoc2020 in Dafny

A model of the puzzle solutions in this repository for the 2020 calendar
of daily programming puzzles. Each solution is a standalone Rust binary,
`src/bin/dayNN.rs`, that reads an input file, parses it and prints an
answer. Each binary here is one Dafny module, `DayNN` (for example
`Day7a` for `src/bin/day7a.rs`). A module models the binary's parsing,
its data structures and its computation, and proves what the code
promises about them. Day 13, part one, is not part of this model.

Two modules hold definitions that several days use:

- `Common` models the Rust standard-library behaviour the solutions rely
  on: `Option`, `trim` and `trim_end_matches`, `split`, `splitn`, `find`,
  parsing of unsigned and signed integers with their width limits, and
  sums over sequences and maps.
- `U64Bits` models 64-bit words as naturals below 2^64, with the bitwise
  operations and shifts of day 14 written out bit by bit.

Where the Rust code mutates state step by step, the model does too. The
grids of day 11 are classes over arrays. Day 15's games are classes whose
maps the methods update. The adapter cache of day 10 is a class, and
day 10's sort works in place on an array. Loops are `while`/`for` loops with invariants,
each proved against a function that states what the loop computes.
Day 18's scanner and parser, whose cursors and token list change step by
step, are the classes `Scanner` and `Parser`; day 19's expander, which fills
a cache, is the class `Expander`. Their methods are proved equal to the
reference functions `Lex`, `ParseExpression` and `Expand`, about which the
properties are proved. Day 18's evaluator and day 19's matcher, which
only compute values, are functions over datatypes.

A panic of the source — an `unwrap` on a malformed line, an arithmetic
overflow in a debug build, an index out of range — becomes an explicit
`None` or error value, or else a precondition that excludes it; where an
integer of fixed width is modelled as unbounded, its overflow is not
modelled. Each such case is listed under "Left out". Reading files, command-line options, timing and
printing are not modelled; the input is a sequence of lines already read.

Where a natural contract did not hold for the code as written, the model
keeps both versions. One member models the code as written, with a lemma
that shows the discrepancy on a concrete input. Another member holds the
evidently intended behaviour, with that property proved; the rest of the
model uses it. These are listed under "Findings".

Day 18's grammar is inverted on purpose: `+` and `-` bind tighter than
`*` and `/`, and both levels associate to the left. The model keeps that
grammar.

## Model

| member | source | states |
|---|---|---|
| Day1a.FindInner | src/bin/day1a.rs:28-32 | the inner loop finds a y completing x exactly when one exists in the rest of the list, and the product is of the first such y |
| Day1a.FindOuter | src/bin/day1a.rs:27-35 | the outer loop returns None iff no pair from the remaining rows sums to the target; otherwise the product of the first pair in row-major order |
| Day1a.FindResult | src/bin/day1a.rs:26-36 | None iff no two entries (an entry may pair with itself) sum to the target; otherwise x*y for the first such pair in row-major order |
| Day1b.FindMatchSearches | src/bin/day1b.rs:46-72 | find_match with a next matcher that behaves as depth nested levels equals the depth-indexed search |
| Day1b.GenMatcher | src/bin/day1b.rs:29-44 | the closure built by nesting `level` matchers behaves as the search choosing `level` entries |
| Day1b.SearchSound | src/bin/day1b.rs:52-71 | a found value is the product of the selection extended by depth+1 input entries whose total sum is the target |
| Day1b.SearchComplete | src/bin/day1b.rs:52-71 | if some extension by depth+1 input entries sums to the target, the search finds a value |
| Day1b.MatcherFindsIff | src/bin/day1b.rs:18-19 | the level-n matcher finds a product iff some n entries (repetition allowed) sum to the target, and the product is of such entries |
| Day2a.PassesPolicyPermutation | src/bin/day2a.rs:45-53 | the verdict depends only on the character count: any reordering of the password gives the same verdict |
| Day2a.PassesPolicyMonotone | src/bin/day2a.rs:45-53 | a password that passes with one extra occurrence of the character either passes already or falls one short of the minimum |
| Day2a.ParseLine | src/bin/day2a.rs:27-35 | a parsed line has u32 bounds and a non-empty password |
| Day2a.ParseFormatLine | src/bin/day2a.rs:27-35 | every line printed in the shape `min-max c: password` parses back to the same data |
| Day2a.ValidPasswords | src/bin/day2a.rs:25-38 | the answer counts at most one per line |
| Day2a.ValidPasswordsAppend | src/bin/day2a.rs:25-38 | the count over two batches of lines is the sum of their counts |
| Day2b.PositionPastEnd | src/bin/day2b.rs:45-55 | a position beyond the password never matches, so the other position alone decides |
| Day2b.SamePositionsNeverPass | src/bin/day2b.rs:49-50 | with min == max the exclusive or is always false |
| Day2b.ValidPasswords | src/bin/day2b.rs:25-38 | a count, when there is one, is at most one per line |
| Day2b.ValidPasswordsPanicsIff | src/bin/day2b.rs:25-50 | the count is missing (the u32 underflow of `start() - 1` or `end() - 1`) exactly when some line parses with a position of 0 |
| Day2b.ValidPasswordsOne | src/bin/day2b.rs:27-38 | a single line counts 1 when it parses and passes the policy, 0 when it does not parse or fails, and is the panic when it has a position of 0 |
| Day2b.ValidPasswordsAppend | src/bin/day2b.rs:25-38 | over two batches of lines the counts add, and a panic in either batch is a panic of the whole |
| Day2b.Example | src/bin/day2b.rs:45-51 | `1-3 a: abcde` passes; `1-3 b: cdefg` and `2-9 c: ccccccccc` do not |
| Day6a.DistinctIff | src/bin/day6a.rs:24-27 | a character is among a group's distinct answers exactly when some line of the group contains it |
| Day6a.GroupsEmptyLine | src/bin/day6a.rs:21-23 | an empty line closes the open group and opens a new, empty one |
| Day6a.GroupsOtherLine | src/bin/day6a.rs:24-27 | a non-empty line joins the open group |
| Day6a.ScannedStep | src/bin/day6a.rs:18-34 | each line keeps the running sum equal to the total of the closed groups and the set equal to the open group's distinct answers |
| Day6a.YesAnswersSum | src/bin/day6a.rs:15-37 | the loop plus the final addition yields the sum, over the empty-line separated groups, of each group's number of distinct answers |
| Day6a.InsertChars | src/bin/day6a.rs:25-27 | inserting a line's characters yields the set extended by exactly those characters |
| Day6a.TrailingEmptyLine | src/bin/day6a.rs:21-23 | a trailing empty line (an empty group) does not change the sum |
| Day6a.NewGroup | src/bin/day6a.rs:21-27 | the set is cleared at a separator, so a new one-line group adds exactly its own distinct characters |
| Day6b.TallyCounts | src/bin/day6b.rs:37-39 | tallying a line adds each character's number of occurrences to its entry and creates entries only for characters of the line |
| Day6b.GroupTallyCounts | src/bin/day6b.rs:31-48 | the group's map holds exactly the characters anyone answered, each mapped to its total occurrences over the group |
| Day6b.GroupEnd | src/bin/day6b.rs:31-36 | a group ends at the first empty line at or after its start, or at the end of input |
| Day6b.CountYesAnswers | src/bin/day6b.rs:27-51 | reads the lines up to and including the next empty line and returns the number of characters whose tally equals the number of people, with the position after the consumed lines |
| Day6b.TallyLine | src/bin/day6b.rs:37-39 | one increment per character of the line |
| Day6b.YesAnswersSum | src/bin/day6b.rs:15-20 | while a line remains, the count of the next group is added: the sum over consecutive groups |
| Day6b.TotalFromGroups | src/bin/day6b.rs:18-20 | the total equals the sum of the per-group counts over the empty-line separated groups |
| Day6b.EmptyGroup | src/bin/day6b.rs:34-35 | a group that begins with an empty line contributes 0 |
| Day6b.EveryoneIff | src/bin/day6b.rs:37-50 | when no line repeats a character, a character counts iff the group is non-empty and every line contains it |
| Day6b.OccurrencesAll | src/bin/day6b.rs:37-41 | without repeats the occurrences never exceed the people, and equal them iff every line has the character |
| Day6b.RepeatCountsTwice | src/bin/day6b.rs:37-39 | a character repeated within one line is tallied twice: `["aa", "b"]` counts `a` |
| Day3a.Chunks | src/bin/day3a.rs:77-81 | every buffer `read_line` returns before end of file is non-empty |
| Day3a.TreeRow | src/bin/day3a.rs:86-91 | one cell per character, a tree exactly where the character is `#` |
| Day3a.PushRow | src/bin/day3a.rs:86-91 | the data grows by exactly the trimmed buffer's cells |
| Day3a.ChunksStep | src/bin/day3a.rs:77-95 | each iteration consumes exactly the next buffer of the file |
| Day3a.Parse | src/bin/day3a.rs:71-108 | the loop builds the line count, the first buffer's byte count minus one as line length and the trimmed buffers' cells, and fails with MissingLineLength when nothing was read |
| Day3a.LineLengthSnoc | src/bin/day3a.rs:82-84 | only the first buffer read sets the line length, to its byte count minus one |
| Day3a.ParseFailsIff | src/bin/day3a.rs:103-107 | parsing fails exactly for an empty file |
| Day3a.MapFileChunks | src/bin/day3a.rs:77-81 | a file of `.`/`#` rows, each ended by a newline, is read one row (with its newline) per buffer |
| Day3a.Utf8LenMapRow | src/bin/day3a.rs:82-84 | a map row's buffer has one byte per character plus the newline |
| Day3a.TrimMapRow | src/bin/day3a.rs:86 | trimming a row's buffer leaves exactly the row |
| Day3a.ParseMapFile | src/bin/day3a.rs:71-108 | a file of equally wide rows parses to one line per row, line length equal to the width, and the rows' cells |
| Day3a.GridCellsIndex | src/bin/day3a.rs:115 | in equally wide rows, row y column x is cell y*width+x |
| Day3a.GetPosition | src/bin/day3a.rs:110-120 | EndOfMap exactly when y is past the last line or the index is past the data; otherwise the cell at y*line_length + x mod line_length |
| Day3a.GetPositionWraps | src/bin/day3a.rs:115 | moving a whole line length to the right reads the same cell |
| Day3a.GetPositionMapFile | src/bin/day3a.rs:110-120 | on a parsed map file, the position is the file's character at column x mod width, and EndOfMap below the last row |
| Day3a.CountTrees | src/bin/day3a.rs:23-33 | the loop counts the trees met on the slope until get_position fails |
| Day3a.TreesFromMapFile | src/bin/day3a.rs:23-33 | on a parsed map file, the slope-(3,1) count is the number of rows y whose character at column 3y mod width is `#` |
| Day5b.MaxValueIsPow2 | src/bin/day5b.rs:105-131 | each part's maximum is 2 to the power of its letter count (8 = 2^3, 128 = 2^7) |
| Day5b.RangeLowValue | src/bin/day5b.rs:138-143 | after some letters the range's lower end is one past their binary value shifted left by the letters still to come |
| Day5b.HalvingStep | src/bin/day5b.rs:139-143 | a valid letter halves the range: the low letter keeps the lower half, the high letter the upper half |
| Day5b.DecodePart | src/bin/day5b.rs:134-153 | the halving loop computes PartValue: the letters read as binary (high = 1) shifted by the missing letters, or UnexpectedCharacter with the first bad letter and the part's encoding |
| Day5b.FirstUnexpectedIs | src/bin/day5b.rs:144-148 | the error names the first letter that is neither encoding letter |
| Day5b.PartValue | src/bin/day5b.rs:134-153 | a decoded part is below the part's maximum |
| Day5b.PartValueOk | src/bin/day5b.rs:138-152 | letters that are all the low or high letter decode to their binary value shifted by the missing letters |
| Day5b.PartValueErr | src/bin/day5b.rs:144-148 | otherwise the error carries the first bad letter and the part's encoding |
| Day5b.Decode | src/bin/day5b.rs:79-92 | the method computes DecodeSpec: InvalidInputLength with the byte length unless it is 10, the slicing panic when byte 7 is inside a character, otherwise the row from the first 7 bytes and the column from the rest, failing with the first part's error; id = row * 8 + column |
| Day5b.DecodeSpec | src/bin/day5b.rs:79-92 | a decoded seat has row < 128, column < 8 and id = row * 8 + column |
| Day5b.SplitBytes | src/bin/day5b.rs:85-86 | after the first 7 of 10 bytes, 3 bytes and at most 3 characters remain for the column |
| Day5b.DecodePanicsIff | src/bin/day5b.rs:81-85 | `decode` panics exactly when the pass has 10 bytes and no prefix of it has exactly 7 |
| Day5b.DecodeOkIff | src/bin/day5b.rs:79-92 | decoding succeeds iff the pass is 7 row letters then 3 column letters, and the seat is the two halves read as binary numbers |
| Day5b.DecodeAscii | src/bin/day5b.rs:81-83 | an ASCII pass never panics, and a wrong length is reported as its number of characters |
| Day5b.NonAsciiPanics | src/bin/day5b.rs:85 | the 10-byte pass `FFFFFFéRR` panics when sliced after byte 7, the middle of `é` |
| Day5b.BinaryValueEncode | src/bin/day5b.rs:134-153 | reading back the letters written for a value below 2^n gives the value |
| Day5b.PartValueEncode | src/bin/day5b.rs:134-153 | every value below the part's maximum has letters that decode to it |
| Day5b.DecodeBoardingPass | src/bin/day5b.rs:79-92 | every seat (row < 128, column < 8) has a pass that decodes back to it |
| Day5b.SeatIdInjective | src/bin/day5b.rs:90 | different seats have different ids |
| Day5b.RowExample44 | src/bin/day5b.rs:174 | `FBFBBFF` is row 44 |
| Day5b.ColumnExample5 | src/bin/day5b.rs:175 | `RLR` is column 5 |
| Day5b.RowExample70 | src/bin/day5b.rs:176 | `BFFFBBF` is row 70 |
| Day5b.ColumnExample7 | src/bin/day5b.rs:177 | `RRR` is column 7 |
| Day5b.SeatExample567 | src/bin/day5b.rs:184-191 | `BFFFBBFRRR` is row 70, column 7, id 567 |
| Day5b.SeatExample119 | src/bin/day5b.rs:193-200 | `FFFBBBFRRR` is row 14, column 7, id 119 |
| Day5b.SeatExample820 | src/bin/day5b.rs:202-209 | `BBFFBBFRLL` is row 102, column 4, id 820 |
| Day5b.ParsedSeats | src/bin/day5b.rs:17-27 | None iff decoding some line panics; otherwise at most one seat per line, every id below 1024 |
| Day5b.ParsedSeatsIff | src/bin/day5b.rs:17-27 | a seat is kept iff some input line decodes to it |
| Day5b.HighestSeatId | src/bin/day5b.rs:54 | None (the `unwrap` panic) exactly on an empty list; otherwise one of the ids |
| Day5b.HighestIsMaximum | src/bin/day5b.rs:29-54 | on ids sorted as `sort_by_key` leaves them, the reported id is the highest |
| Day5b.FindMissing | src/bin/day5b.rs:31-52 | None iff every id is followed by its successor; otherwise the successor of the first id that is not |
| Day5b.MissingIsFree | src/bin/day5b.rs:29-52 | on strictly sorted ids the reported id is free and lies strictly between the lowest and highest ids |
| Day18b.DigitRun | src/bin/day18b.rs:124-127 | the digit run the scanner consumes: all digits, and followed by a non-digit or the end |
| Day18b.LexUnlex | src/bin/day18b.rs:75-134 | scanning a token list written out with the puzzle's spacing (a space between tokens, none just inside parentheses) gives that list back |
| Day18b.LexHasNoEndOfFile | src/bin/day18b.rs:75-83 | EndOfFile is produced only by the final push of `scan` |
| Day18b.Scanner.constructor | src/bin/day18b.rs:68-73 | a new scanner holds the line with both cursors at 0 and no tokens |
| Day18b.Scanner.Peek | src/bin/day18b.rs:112-118 | '\0' at the end, otherwise the character under the cursor |
| Day18b.Scanner.Advance | src/bin/day18b.rs:107-110 | moves the cursor by one and returns the character it passed |
| Day18b.Scanner.AddToken | src/bin/day18b.rs:120-122 | appends exactly the given token |
| Day18b.Scanner.Number | src/bin/day18b.rs:124-134 | consumes the whole digit run and appends one Number token of its decimal value |
| Day18b.Scanner.ScanToken | src/bin/day18b.rs:89-105 | appends the token of one lexing step (none for whitespace and unknown characters) and advances by that step |
| Day18b.Scanner.Scan | src/bin/day18b.rs:75-83 | the result is the tokens so far, the lexing of the rest of the line, then EndOfFile |
| Day18b.ParseExpressionSound | src/bin/day18b.rs:200-265 | a successful parse returns a tree of the grammar whose tokens are exactly those consumed |
| Day18b.ParseFlatten | src/bin/day18b.rs:200-265 | parsing the tokens of any tree of the grammar returns that same tree and consumes all of them |
| Day18b.ParseExpression | src/bin/day18b.rs:200-202 | a parse consumes at least one token and stops before EndOfFile or at a token that is neither additive nor multiplicative |
| Day18b.FactorLoop | src/bin/day18b.rs:221-236 | the `*`/`/` loop stops only at a token it cannot continue with |
| Day18b.TermLoop | src/bin/day18b.rs:204-219 | the `+`/`-` loop stops only at a non-additive token |
| Day18b.ParsePrimary | src/bin/day18b.rs:252-265 | a successful primary parse consumes at least one token and leaves the cursor on a token |
| Day18b.PrecedenceExample | src/bin/day18b.rs:204-236 | `1 + 2 * 3 + 4` groups as `(1 + 2) * (3 + 4)` |
| Day18b.TrailingTokensExample | src/bin/day18b.rs:151-153 | `parse` stops after one expression and ignores the tokens that follow |
| Day18b.ParseExample | src/bin/day18b.rs:328-343 | the tokens of the test line `2 * 3 + (4 * 5)` parse to `2 * (3 + (4 * 5))` |
| Day18b.EvaluationExample | src/bin/day18b.rs:328-343 | that tree evaluates to 46, the value the test expects |
| Day18b.Parser.constructor | src/bin/day18b.rs:144-149 | a new parser holds the tokens with the cursor at 0 |
| Day18b.Parser.Advance | src/bin/day18b.rs:180-190 | moves past the current token unless it is EndOfFile and returns the previous token |
| Day18b.Parser.MatchToken | src/bin/day18b.rs:155-170 | consumes the current token exactly when it is not EndOfFile and passes the check |
| Day18b.Parser.ConsumeToken | src/bin/day18b.rs:172-178 | consumes a token that passes the check and reports failure otherwise |
| Day18b.Parser.Parse | src/bin/day18b.rs:151-153 | the tree and cursor agree with the reference parse of the tokens |
| Day18b.Parser.Expression | src/bin/day18b.rs:200-202 | agrees with the reference parse |
| Day18b.Parser.Factor | src/bin/day18b.rs:221-236 | agrees with the reference factor parse |
| Day18b.Parser.Term | src/bin/day18b.rs:204-219 | agrees with the reference term parse |
| Day18b.Parser.Unary | src/bin/day18b.rs:238-250 | agrees with the reference unary parse |
| Day18b.Parser.Primary | src/bin/day18b.rs:252-265 | agrees with the reference primary parse, errors included |
| Day18b.AsI64 | src/bin/day18b.rs:270 | `as i64` keeps the value modulo 2^64 and lands in the i64 range |
| Day18b.TruncDivRemainder | src/bin/day18b.rs:292 | Rust's `/` truncates: the remainder is smaller than the divisor and has the dividend's sign |
| Day18b.Checked | src/bin/day18b.rs:276-292 | an i64 result exists exactly when the exact value is in range |
| Day18b.Evaluate | src/bin/day18b.rs:268-298 | a value, when there is one, is in the i64 range (an overflow or a division by zero gives none) |
| Day18b.GrammarTreesWellFormed | src/bin/day18b.rs:200-298 | every tree the parser can build uses only the operators `evaluate_expression` handles |
| Day18b.DivisionExample | src/bin/day18b.rs:292 | `7 / -2` is -3 |
| Day18b.DivisionByZeroExample | src/bin/day18b.rs:292 | `1 / 0` has no value |
| Day18b.LineValue | src/bin/day18b.rs:22-24 | a line's value, when it parses, is the value of a grammatical tree written at the start of its tokens |
| Day18b.LineValueOfTree | src/bin/day18b.rs:22-24 | a grammatical tree written out as a line (a space around each operator) scans back to the tree's tokens, and the line's value is the tree's value |
| Day18b.LexWritten | src/bin/day18b.rs:75-134 | the written text of a tree, followed by anything that does not start with a digit, scans to the tree's tokens and then the scan of what follows |
| Day18b.WellFormedFits | src/bin/day18b.rs:124-134 | every number of a tree `evaluate_expression` handles fits in a u64, so scanning its text does not reach `number`'s panic |
| Day18b.TestLine | src/bin/day18b.rs:337-342 | a line that is the written text of a grammatical tree of value v scans to the tree's tokens without a panic and evaluates to v |
| Day18b.ScannerExample | src/bin/day18b.rs:304-325 | `Scanner::new("2 * 3 + (4 * 5)").scan()` returns exactly the ten tokens `test_scanner` lists, ending in EndOfFile |
| Day18b.EvalExample51 | src/bin/day18b.rs:330 | the line `1 + (2 * 3) + (4 * (5 + 6))` scans, parses and evaluates to 51 |
| Day18b.EvalExample46 | src/bin/day18b.rs:331 | the line `2 * 3 + (4 * 5)` scans to the tokens of `test_scanner` and evaluates to 46 |
| Day18b.EvalExample1445 | src/bin/day18b.rs:332 | the line `5 + (8 * 3 + 9 + 3 * 4 * 3)` scans, parses and evaluates to 1445 |
| Day18b.EvalExample669060 | src/bin/day18b.rs:333 | the line `5 * 9 * (7 * 3 * 3 + 9 * 3 + (8 + 6 * 4))` scans, parses and evaluates to 669060 |
| Day18b.EvalExample23340 | src/bin/day18b.rs:334 | the line `((2 + 4 * 9) * (6 + 9 * 8 + 6) + 6) + 2 + 4 * 2` scans, parses and evaluates to 23340 |
| Day18b.LineResult | src/bin/day18b.rs:21-24 | a line contributes a value exactly when it scans, parses and evaluates without a panic |
| Day18b.CheckedSumIsSum | src/bin/day18b.rs:25 | the checked sum exists iff every value does and no partial sum overflows, and then equals the sum |
| Day18b.TotalIsSum | src/bin/day18b.rs:19-25 | `main` has a result iff every line evaluates and no partial sum overflows; it is the sum of the lines' values |
| U64Bits.ShiftInBit | src/bin/day14a.rs:39-44 | shifting left and or-ing in a flag puts the flag at bit 0, moves every bit up by one and drops bit 63 |
| U64Bits.WordBit | src/bin/day14a.rs:38-48 | bit p of the word built from a flag sequence is the flag p places from the end, for p below 64 and within the sequence; all other bits are clear |
| U64Bits.WordDisjoint | src/bin/day14a.rs:42-47 | two flag sequences never flagged at the same position build words with no common bit |
| Day14a.MaskOf | src/bin/day14a.rs:34-54 | parsing succeeds exactly when every character is '0', '1' or 'X' |
| Day14a.MaskOfDisjoint | src/bin/day14a.rs:34-54 | a parsed mask has u64 zeros and ones words sharing no bit |
| Day14a.MaskOfBits | src/bin/day14a.rs:38-48 | bit p of ones (of zeros) is set exactly when the character p places from the end of the text, among the last 64, is '1' (is '0') |
| Day14a.FromStr | src/bin/day14a.rs:34-54 | the shifting loop over the trimmed text returns the mask of the text, or the error at the first character other than '0', '1', 'X' |
| Day14a.ApplyBit | src/bin/day14a.rs:58-60 | a bit of the result is set for a ones bit, clear for a zeros bit that is not a ones bit, and the value's bit otherwise |
| Day14a.ApplyBound | src/bin/day14a.rs:58-60 | applying a mask with a u64 ones word to a u64 value gives a u64 |
| Day14a.ApplyIdempotent | src/bin/day14a.rs:58-60 | applying the same mask twice is applying it once |
| Day14a.ApplyMaskText | src/bin/day14a.rs:34-60 | under a parsed mask text, a '1' position is set, a '0' position is clear, and every other bit is the value's own |
| Day14a.ParseLine | src/bin/day14a.rs:68-77 | a recognised write line carries a u64 address and a u64 value |
| Day14a.Execute | src/bin/day14a.rs:63-81 | the loop over the lines returns the sum of the final memory, or None where a mask line does not parse (the unwrap panics) |
| Day14a.RunNone | src/bin/day14a.rs:71 | once a mask line panics, the whole run fails |
| Day14a.SumMemory | src/bin/day14a.rs:80 | the sum of the values in memory, independent of the order of the keys |
| Day14a.MemoryKeys | src/bin/day14a.rs:64-78 | an address is in memory exactly when some write line wrote to it |
| Day14a.LastWrite | src/bin/day14a.rs:65-77 | an address holds the value of its last write, masked with the mask in force when that write ran |
| Day14a.ProgramU64 | src/bin/day14a.rs:75 | every parsed write has a u64 address and value |
| Day14a.RunValuesU64 | src/bin/day14a.rs:64-78 | the mask's ones word and every stored value stay u64 throughout a run |
| Day14a.ExampleMaskOf | src/bin/day14a.rs:90-96 | the test mask parses to zeros = 2 and ones = 64 |
| Day14a.ApplyEleven | src/bin/day14a.rs:90 | the test mask turns 11 into 73 |
| Day14a.ApplyHundredOne | src/bin/day14a.rs:91 | the test mask leaves 101 unchanged |
| Day14a.ApplyZero | src/bin/day14a.rs:92 | the test mask turns 0 into 64 |
| Day14a.ExampleRun | src/bin/day14a.rs:103-111 | the example program leaves 64 at address 8 and 101 at address 7 |
| Day14a.ExampleSum | src/bin/day14a.rs:111-112 | the example's memory sums to 165 |
| Day14b.Floats | src/bin/day14b.rs:37-46 | the recorded 'X' positions are strictly decreasing and each names a bit within the text's length |
| Day14b.FloatsIff | src/bin/day14b.rs:40-46 | position p is recorded exactly when the character p places from the end is an 'X' |
| Day14b.MaskOf | src/bin/day14b.rs:34-55 | parsing succeeds exactly when every character is '0', '1' or 'X' |
| Day14b.MaskOfBits | src/bin/day14b.rs:36-54 | a ones bit is set exactly for a '1' p places from the end (among the last 64), p floats exactly for an 'X' there, no floating bit is a ones bit, and the floating positions strictly decrease |
| Day14b.FromStr | src/bin/day14b.rs:34-55 | the loop over the trimmed text returns the mask of the text, or the error at the first character other than '0', '1', 'X' |
| Day14b.PushesVariants | src/bin/day14b.rs:62-81 | with at least one floating position, what `apply_floating` pushes is the list of all variants |
| Day14b.VariantsCount | src/bin/day14b.rs:62-81 | k floating positions give 2^k variants |
| Day14b.ForceBit | src/bin/day14b.rs:69-72 | forcing bit q to one (to zero) sets (clears) bit q and leaves every other bit as it was |
| Day14b.VariantsIff | src/bin/day14b.rs:62-81 | a number is a variant exactly when it agrees with the value on every bit that does not float |
| Day14b.VariantsDistinct | src/bin/day14b.rs:62-81 | distinct floating positions give pairwise-distinct variants |
| Day14b.AsWrittenAddresses | src/bin/day14b.rs:59-87 | with a floating bit, `apply` as written gives the variants of value OR ones; without one it gives no address, where the variants are the single address value OR ones |
| Day14b.AddressesIff | src/bin/day14b.rs:59-87 | the addresses are exactly the numbers with every ones bit set that agree with the value on every other non-floating bit, and there are 2^k of them |
| Day14b.ParsedAddresses | src/bin/day14b.rs:34-87 | for a parsed mask and a u64 value, the addresses are pairwise distinct u64s with every ones bit set |
| Day14b.ApplyFloating | src/bin/day14b.rs:62-81 | the recursion appends the variants of the value to the output, or panics (None) when a position is 64 or more |
| Day14b.Apply | src/bin/day14b.rs:59-87 | the corrected `apply` (see Findings): every variant of value OR ones over the floating bits, the single address value OR ones when none floats, or the panic (None) on a position of 64 or more |
| Day14b.WriteAllAt | src/bin/day14b.rs:103-105 | after inserting the value at each address, exactly the written addresses and the old keys are present; written ones hold the value, others keep their old value |
| Day14b.SumWriteAll | src/bin/day14b.rs:103-109 | writing one value to distinct addresses gives the sum of the untouched entries plus the value once per address |
| Day14b.InsertAll | src/bin/day14b.rs:103-105 | the insert loop leaves the memory with every address written |
| Day14b.Execute | src/bin/day14b.rs:90-110 | the loop over the lines, with the corrected `apply`, returns the sum of the final memory, or None where a mask line does not parse or an address expansion panics |
| Day14b.RunNone | src/bin/day14b.rs:98 | once a line panics, the whole run fails |
| Day14b.MemoryKeys | src/bin/day14b.rs:90-107 | an address is in memory exactly when some write put it among the addresses of its mask |
| Day14b.LastWrite | src/bin/day14b.rs:102-106 | an address holds the unmasked value of the last write that reached it |
| Day14b.FirstMaskOf | src/bin/day14b.rs:119-123 | the first test mask parses to floating bits 5 and 0 with ones = 18 |
| Day14b.SecondMaskOf | src/bin/day14b.rs:124-128 | the second test mask parses to floating bits 3, 1 and 0 with ones = 0 |
| Day14b.FirstExample | src/bin/day14b.rs:119-123 | 42 under the first test mask goes to 59, 58, 27 and 26 (the test's sorted list, in the order generated) |
| Day14b.SecondExample | src/bin/day14b.rs:124-128 | 26 under the second test mask goes to 27, 26, 25, 24, 19, 18, 17 and 16 |
| Day14b.ExampleSum | src/bin/day14b.rs:143-153 | the example program runs without a panic and leaves a memory summing to 208 |
| Day14b.NoFloatingWritesNothing | src/bin/day14b.rs:63-65 | the mask "1" parses, but `apply` as written gives no address for 0, where the single address 1 is intended |
| Day8a.ParseOperation | src/bin/day8a.rs:123-130 | exactly "acc", "jmp" and "nop" parse, to the operation whose name they are; anything else is `UnknownOperation` with the text |
| Day8a.ParseInstruction | src/bin/day8a.rs:84-110 | a parsed instruction has an i32 argument and the line starts with its operation's name and a space |
| Day8a.ParseShow | src/bin/day8a.rs:84-110 | every instruction with an i32 argument, printed as name, space and signed decimal, parses back to itself |
| Day8a.NoSpace | src/bin/day8a.rs:86-104 | a line without a space fails: `UnknownOperation` unless it is an operation name, then `MissingInstructionPart` for the argument |
| Day8a.Program | src/bin/day8a.rs:18-29 | the program keeps only lines that parse, never more instructions than lines |
| Day8a.Step | src/bin/day8a.rs:54-69 | `acc` adds its argument and moves on by one, `nop` moves on by one, `jmp` moves by its signed argument; i32 overflow, `abs` of i32::MIN and a pointer below 0 panic |
| Day8a.Execute | src/bin/day8a.rs:37-73 | a run executes only positions inside the program, each at most once, and never one executed before; it stops past the end, at an executed position, or at a panicking one |
| Day8a.RunInstructions | src/bin/day8a.rs:37-73 | the loop with the executed set returns the accumulator of the run's stop, or `None` for a panic |
| Day8a.AccumulatorIsTotal | src/bin/day8a.rs:54 | the final accumulator is the start value plus the arguments of every `acc` the run executed |
| Day8a.RunLength | src/bin/day8a.rs:42-47 | from the start, at most as many instructions run as the program has |
| Day8a.TraceBound | src/bin/day8a.rs:42-47 | a run executes at most as many instructions as there are positions not yet executed |
| Day8a.ExecuteFrame | src/bin/day8a.rs:42-47 | a run never reads an instruction it has already executed: programs that agree elsewhere run alike |
| Day8a.ExampleLoops | src/bin/day8a.rs:37-73 | the puzzle's example runs 0, 1, 2, 6, 7, 3, 4 and stops before running 1 again with accumulator 5 |
| Day8b.Corrected | src/bin/day8b.rs:68-76 | the correction swaps `jmp` and `nop` and keeps the argument |
| Day8b.RunInstruction | src/bin/day8b.rs:98-120 | `run_instruction` has the effect of one step of part one, panics included |
| Day8b.RunInstructions | src/bin/day8b.rs:37-96 | the loop with its recursive attempts returns the search's outcome (with the single-change correction) |
| Day8b.Solve | src/bin/day8b.rs:31 | the answer is the search from instruction 0, accumulator 0 and nothing executed |
| Day8b.PlainSearch | src/bin/day8b.rs:37-96 | a search that may not change anything is the plain run of part one |
| Day8b.UnchangedFirst | src/bin/day8b.rs:50-62 | a program that already finishes unchanged is answered with its own accumulator, as written and corrected |
| Day8b.SearchSound | src/bin/day8b.rs:37-96 | a finished search is the finished run of the program with at most one `jmp`/`nop` changed, at a position not yet executed |
| Day8b.SearchComplete | src/bin/day8b.rs:37-96 | if changing one `jmp`/`nop` makes the program finish, the search does not report a loop |
| Day8b.SearchAsWrittenSound | src/bin/day8b.rs:37-96 | as written, a finished search is the finished run of the program with some set of `jmp`/`nop` changed |
| Day8b.ChangesTwo | src/bin/day8b.rs:37-96 | as written, nop +4, jmp +0, jmp +0, acc +1 is answered with 1 |
| Day8b.ChangesOne | src/bin/day8b.rs:37-96 | with one change at most, that program is answered with 0 |
| Day8b.OneChangeRuns | src/bin/day8b.rs:37-96 | in that program only the change at 0 makes it finish, with accumulator 0 |
| Day4a.KeyValue | src/bin/day4a.rs:80-90 | a token has a key and value iff it contains ':'; the key runs to the first ':', the value to the next ':' or the end, and neither contains ':' |
| Day4a.ParseKvIntoMap | src/bin/day4a.rs:80-90 | a token with a key inserts it (new or overwritten) and leaves every other key alone; a token without one changes nothing |
| Day4a.ParseKvLineIntoMap | src/bin/day4a.rs:74-78 | the record after a line is every whitespace-separated token of it applied in order |
| Day4a.ParseTokensKeys | src/bin/day4a.rs:74-90 | after a line a key is present iff it was before or some token names it |
| Day4a.LastTokenWins | src/bin/day4a.rs:74-90 | a key holds the value of the last token that names it |
| Day4a.UntouchedKey | src/bin/day4a.rs:74-90 | a key no token names keeps its old value |
| Day4a.TryFrom | src/bin/day4a.rs:103-121 | conversion succeeds iff byr, iyr, eyr, hgt, hcl, ecl and pid are all present, carrying their values; otherwise the error names the first missing one in that order; cid is optional |
| Day4a.OptionToPassport | src/bin/day4a.rs:32-46 | a pending record that converts is appended; one that does not, or no record, leaves the list unchanged |
| Day4a.ParsePassports | src/bin/day4a.rs:26-72 | the passports collected line by line are those of the line-by-line specification of the loop |
| Day4a.Records | src/bin/day4a.rs:26-72 | the records of the input are one more than its blank lines |
| Day4a.ParsePassportsRecords | src/bin/day4a.rs:26-72 | when the empty record does not convert, the loop keeps exactly the records between blank lines that convert, in order |
| Day4a.BlankAddsNothing | src/bin/day4a.rs:64-68 | parsing the tokens of a blank line leaves the record unchanged |
| Day4a.EmptyRecordRefused | src/bin/day4a.rs:103-121 | the empty record is refused for `byr` |
| Day4a.ExampleRecords | src/bin/day4a.rs:103-121 | the third example record of the puzzle converts and the fourth is refused for `byr` |
| Day4a.CountPassports | src/bin/day4a.rs:15-24 | the count printed is the number of records between blank lines that convert |
| Day4b.ParseRanged | src/bin/day4b.rs:146-163 | a field is accepted iff it parses as a `u32` in the closed range, and the value kept is the parsed one |
| Day4b.RangedRoundTrip | src/bin/day4b.rs:146-205 | a number in range, printed in decimal, is accepted as itself |
| Day4b.ParseHeight | src/bin/day4b.rs:212-278 | a height ending in "in" is inches in 59..=76, otherwise one ending in "cm" is centimetres in 150..=193, otherwise the unit is refused |
| Day4b.HeightRoundTrip | src/bin/day4b.rs:212-278 | a height in range printed with its unit parses back to itself |
| Day4b.FirstInvalid | src/bin/day4b.rs:292-296 | the character reported is the first one outside a-z and 0-9, and there is none iff all are inside |
| Day4b.ParseHairColor | src/bin/day4b.rs:282-302 | a hair colour is accepted iff it is '#' followed only by a-z and 0-9 (any length), and is kept whole; without '#' it is refused as such |
| Day4b.HairColorFromStr | src/bin/day4b.rs:285-301 | the early-return character loop gives the same answer as the hair colour rule |
| Day4b.ParseEyeColor | src/bin/day4b.rs:314-331 | an eye colour is accepted iff it is one of the seven names, and its name round-trips |
| Day4b.EyeColorRoundTrip | src/bin/day4b.rs:314-331 | every eye colour's name parses back to it |
| Common.Utf8Length | src/bin/day4b.rs:339-344 | `str::len` counts bytes: at least one per character |
| Common.Utf8Append | src/bin/day5b.rs:81 | byte lengths add over a concatenation |
| Common.AsciiLength | src/bin/day5b.rs:81 | an ASCII string has one byte per character |
| Common.ByteBoundary | src/bin/day5b.rs:85-86 | slicing at byte b succeeds at the character count whose bytes are exactly the first b, and panics (None) when no prefix has b bytes |
| Common.ByteBoundaryAt | src/bin/day5b.rs:85-86 | the byte length of any prefix is a boundary at that prefix |
| Day4b.NonDigits | src/bin/day4b.rs:346-349 | the collected non-digits are empty iff every character is a digit |
| Day4b.ParsePassportId | src/bin/day4b.rs:335-353 | a passport id is accepted iff it has nine characters, all ASCII digits, and is kept whole |
| Day4b.DigitsAreBytes | src/bin/day4b.rs:339-349 | an all-digit text has as many bytes as characters |
| Day4b.FromStr | src/bin/day4b.rs:113-129 | a missing field is reported as missing; a present one is accepted iff its validator accepts it, and otherwise the validator's reason is reported with the field name |
| Day4b.FieldName | src/bin/day4b.rs:131-139 | the fields are read in the order byr, iyr, eyr, hgt, hcl, ecl, pid |
| Day4b.TryFrom | src/bin/day4b.rs:107-142 | conversion succeeds iff all seven required fields are present and valid; otherwise the error names the first one that is missing or invalid, and says missing exactly when it is absent; cid is optional |
| Day4b.StricterThanPartOne | src/bin/day4b.rs:107-142 | every record accepted here is accepted by part one |
| Day4b.BirthYearExamples | src/bin/day4b.rs:146-163 | 2002 is a valid birth year and 2003 is out of range |
| Day4b.HeightExamples | src/bin/day4b.rs:212-278 | 60in and 190cm are accepted |
| Day4b.HeightRefused | src/bin/day4b.rs:212-278 | 190in is out of range and 190 has no unit |
| Day4b.HairColorExamples | src/bin/day4b.rs:282-302 | #123abz is accepted (the source allows every lowercase letter) and 123abc lacks the '#' |
| Day4b.HairColorRefused | src/bin/day4b.rs:282-302 | #12-abc is refused for its first invalid character '-' |
| Day4b.EyeColorExamples | src/bin/day4b.rs:314-331 | brn is accepted and wat refused |
| Day4b.PassportIdExamples | src/bin/day4b.rs:335-353 | 000000001 is accepted and 0123456789 is refused for its length 10 |
| Day4b.CountPassports | src/bin/day4b.rs:15-28 | the count printed is the number of records between blank lines that pass every validator |
| Day19a.ParseToken | src/bin/day19a.rs:59-65 | a quoted token parses exactly when it holds a non-quote character, which becomes the literal; any other token is a rule number below 2^64 |
| Day19a.ParseShowPart | src/bin/day19a.rs:59-65 | a part written as a quoted character or a decimal number parses back to the same part |
| Day19a.ParseParts | src/bin/day19a.rs:54-67 | an alternative parses exactly when every token does, and its parts are the tokens' parts in order |
| Day19a.ParseAlternatives | src/bin/day19a.rs:52-68 | a rule's right-hand side parses exactly when every '|'-separated piece does, one alternative per piece in order |
| Day19a.ParseRuleLine | src/bin/day19a.rs:50-53 | a rule line that parses has a ':' and a rule number that fits a usize |
| Day19a.ParseShowRule | src/bin/day19a.rs:49-70 | a rule written as `k: alternatives|…` parses back to the same number and alternatives |
| Day19a.FirstBlank | src/bin/day19a.rs:44-47 | the position of the first blank line (or the end), before which no line is blank |
| Day19a.RulesOfNone | src/bin/day19a.rs:49-70 | reading the rules fails (the source panics) exactly when one rule line is malformed |
| Day19a.ParseFoldMeaning | src/bin/day19a.rs:37-77 | the fold yields the rules read from the lines before the first blank line, in order with later rules replacing earlier ones, and the trimmed non-blank lines after it as messages |
| Day19a.Parse | src/bin/day19a.rs:37-77 | the loop over the lines computes the fold, failing exactly when it does |
| Day19a.CombineHas | src/bin/day19a.rs:90-97 | a string is in the product of two lists exactly when it splits into a string of the first followed by one of the second |
| Day19a.ExpandIff | src/bin/day19a.rs:82-105 | for acyclic rules the expansion of a rule contains exactly the strings the rule derives in the grammar sense (some alternative whose parts derive consecutive pieces) |
| Day19a.Expander.ExpandIdx | src/bin/day19a.rs:82-105 | the cached expansion returns the rule's expansion, keeps every cache entry equal to its rule's expansion and only adds entries |
| Day19a.Expander.ExpandParts | src/bin/day19a.rs:89-98 | the expansions of an alternative's parts in order, with the cache kept valid |
| Day19a.ExpandRule | src/bin/day19a.rs:79-111 | the returned set holds exactly the strings the rule derives |
| Day19a.ValidCountBounds | src/bin/day19a.rs:20-23 | at most every message is valid, and all are exactly when rule 0 derives each |
| Day19a.CountValid | src/bin/day19a.rs:17-24 | the count printed is the number of messages rule 0 derives |
| Day19a.ExampleLanguage | src/bin/day19a.rs:148-176 | in the example rule 0 derives exactly aaaabb, aaabab, abbabb, abbbab, aabaab, aabbbb, abaaab and ababbb |
| Day19a.ExampleCount | src/bin/day19a.rs:118-145 | two of the example's five messages are valid |
| Day19b.Patched | src/bin/day19b.rs:19-25 | rules 8 and 11 become `42 \| 42 8` and `42 31 \| 42 11 31`, every other rule is kept and no rule is lost |
| Day19b.TryRule | src/bin/day19b.rs:122-173 | a successful attempt consumes at most the whole message |
| Day19b.TryValidation | src/bin/day19b.rs:122-173 | the loop over a rule's alternatives returns the first one that does not fail, a missing rule failing |
| Day19b.TryAlternative | src/bin/day19b.rs:126-169 | the loop over an alternative's parts fails at the end of the message or on a mismatch, and otherwise returns the characters consumed |
| Day19b.IsValidMessageAsWritten | src/bin/day19b.rs:121-181 | a message is valid as written exactly when the first match of rule 0 consumes all of it |
| Day19b.AsWrittenSound | src/bin/day19b.rs:121-181 | every message accepted as written is accepted by the matcher that tries every alternative |
| Day19b.ShortFirstAsWritten | src/bin/day19b.rs:126-172 | with rules `0: 1 3`, `1: 2 \| 2 2`, `2: "a"`, `3: "b"` the matcher as written refuses "aab" |
| Day19b.ShortFirstMatches | src/bin/day19b.rs:126-172 | the matcher that tries every alternative accepts "aab" under the same rules |
| Day19b.EndsIff | src/bin/day19b.rs:121-181 | on acyclic rules without empty alternatives, with enough fuel, the corrected matcher ends exactly at the prefixes the rule derives |
| Day19b.ValidMessageIff | src/bin/day19b.rs:121-181 | on such rules a message is valid exactly when rule 0 derives it, as in part one |
| Day19b.MatchCountAgrees | src/bin/day19b.rs:27-30 | on such rules the number of valid messages equals part one's count |
| Day19b.CountValidMessages | src/bin/day19b.rs:13-35 | the count printed is the number of messages the corrected matcher accepts against rule 0 of the patched rules |
| Day11a.ParsePlace | src/bin/day11a.rs:42-53 | ".", "L" and "#" are the only texts that parse; any other text is refused as `InvalidGridPlace` carrying that text |
| Day11a.ParseShowPlace | src/bin/day11a.rs:42-67 | displaying a place and parsing the text gives the place back |
| Day11a.ShowParsePlace | src/bin/day11a.rs:42-67 | every text that parses is the display of the place it parses to |
| Day11a.ParseChar | src/bin/day11a.rs:96-101 | a character is cut to its low byte; an ASCII character parses as its one-character text, a byte of 0x80 or more is an encoding error |
| Day11a.ParseShowRow | src/bin/day11a.rs:96-102 | the display of a row of places reads back as that row |
| Day11a.ParseLayout | src/bin/day11a.rs:81-113 | parsing succeeds exactly when every non-blank line is made of places |
| Day11a.ParseShowLayout | src/bin/day11a.rs:81-113 | rows of one non-zero width, displayed one per line, parse back to that width as the line length and the places row after row |
| Day11a.Place | src/bin/day11a.rs:115-123 | `get_position` finds a place exactly when x is below the line length and y * line_length + x is inside the data, and then it is the place at that index |
| Day11a.PositionOf | src/bin/day11a.rs:213-216 | the position the iterator gives index i has a column below the line length, and row * line_length + column is i again |
| Day11a.PlaceOfIndex | src/bin/day11a.rs:207-221 | `get_position` at the position the iterator gives for index i finds the place at i, and `get_position_mut` writes index i |
| Day11a.AdjacentCount | src/bin/day11a.rs:135-169 | `get_adjacent_positions` returns at most 8 places |
| Day11a.AdjacentMembers | src/bin/day11a.rs:135-169 | a cell is adjacent exactly when it is in the 3x3 block around the position, is not the position itself and the grid has a place there |
| Day11a.AdjacentOrdered | src/bin/day11a.rs:138-139 | the adjacent cells come in row-major order, rows outer and columns inner, as the nested loops visit them |
| Day11a.SeatLayout.AdjacentPositions | src/bin/day11a.rs:135-169 | the nested loops over the offsets return exactly the places of the adjacent cells |
| Day11a.SeatLayout.OffsetPlace | src/bin/day11a.rs:140-164 | one inner-loop step pushes the place at that offset when both checked coordinates exist, differ from the position and name a place, and nothing otherwise |
| Day11a.SeatLayoutIter.Next | src/bin/day11a.rs:207-221 | nothing when the line length is 0 or the places are used up; otherwise the place at idx with position (idx % line_length, idx / line_length), and idx advances by one |
| Day11a.SeatLayout.CountOccupiedSeats | src/bin/day11a.rs:257-262 | the count is the number of occupied places, 0 when the line length is 0 |
| Day11a.Decide | src/bin/day11a.rs:235-239 | a place becomes occupied exactly when it is an empty seat with no occupied neighbour, becomes empty exactly when it is occupied with at least the limit of occupied neighbours, and floor never changes |
| Day11a.RoundWith | src/bin/day11a.rs:224-251 | after a round a place is floor exactly when it was floor before |
| Day11a.FirstRoundFillsSeats | src/bin/day11a.rs:235-236 | from a layout without occupied seats one round fills every seat and keeps the floor |
| Day11a.ChangesUpTo | src/bin/day11a.rs:226-243 | every position in the changeset names a place of the grid, so `get_position_mut(..).unwrap()` cannot fail |
| Day11a.OverlayChanges | src/bin/day11a.rs:224-251 | writing the changeset, collected from the unchanged grid, in its order gives the round in which every place follows the rule |
| Day11a.FixpointIff | src/bin/day11a.rs:245-247 | the changeset is empty exactly when the round leaves the layout as it is |
| Day11a.SeatLayout.Changeset | src/bin/day11a.rs:226-243 | the filter-map over the iterator yields the changes of all places in the iterator's order |
| Day11a.SeatLayout.PlaceChange | src/bin/day11a.rs:228-242 | the closure extends the changes of the places before it with the change the rule decides from the adjacent places |
| Day11a.SeatLayout.ApplyChanges | src/bin/day11a.rs:249-251 | writing the changes one after another leaves the places of the overlay of the changes |
| Day11a.SeatLayout.ApplySeatingRules | src/bin/day11a.rs:224-255 | the layout is the one after the rounds run, and it stops only at a layout the next round leaves unchanged |
| Day11b.Place | src/bin/day11b.rs:144-158 | `get_position` finds a place exactly when both coordinates are non-negative, x is below the line length and y * line_length + x is inside the data, and then it is the place at that index |
| Day11b.ReachDecreases | src/bin/day11b.rs:192-200 | each step of the walk that lands on a place brings it closer to the edge it walks towards, so the walk ends |
| Day11b.Sight | src/bin/day11b.rs:192-200 | what is seen along a direction is never floor, and it is a place of the layout |
| Day11b.SightFirst | src/bin/day11b.rs:192-200 | what is seen along a direction is what `get_position` answers at the first step that is not floor |
| Day11b.SightStops | src/bin/day11b.rs:192-200 | along every direction some step is the first that is not floor |
| Day11b.SeatLayout.LookAlong | src/bin/day11b.rs:190-200 | the walk loop yields what is seen along the direction |
| Day11b.SightsFrom | src/bin/day11b.rs:189-205 | the places seen along some directions are at most one per direction, never floor, and places of the layout |
| Day11b.VisibleBounds | src/bin/day11b.rs:176-208 | `get_visible_seats` returns at most 8 places and none of them is floor |
| Day11b.SeatLayout.VisibleSeats | src/bin/day11b.rs:176-208 | the loop over the eight directions returns what is seen along each, in the order of the directions |
| Day11b.SeatLayoutIter.Next | src/bin/day11b.rs:246-260 | nothing when the line length is 0 or the places are used up; otherwise the place at idx with the signed position (idx % line_length, idx / line_length), and idx advances by one |
| Day11b.FirstRoundFillsSeats | src/bin/day11b.rs:274-275 | from a layout without occupied seats one round fills every seat and keeps the floor |
| Day11b.SeatLayout.Changeset | src/bin/day11b.rs:265-282 | the filter-map over the iterator yields part one's changeset for the counts of seats in sight and the limit 5, with signed positions |
| Day11b.SeatLayout.PlaceChange | src/bin/day11b.rs:267-281 | the closure extends the changes of the places before it with the change the rule decides from the seats in sight |
| Day11b.SeatLayout.ApplyChanges | src/bin/day11b.rs:288-290 | writing the changes one after another leaves the places of the overlay of the changes |
| Day11b.SeatLayout.ApplySeatingRules | src/bin/day11b.rs:263-294 | the layout is the one after the rounds run, and it stops only at a layout the next round leaves unchanged |
| Day11b.SeatLayout.CountOccupiedSeats | src/bin/day11b.rs:296-301 | the count is the number of occupied places, 0 when the line length is 0 |
| Day17b.OffsetOf | src/bin/day17b.rs:128-131 | the k-th offset of the four nested loops over -1..=1 has coordinates in -1..1 and lies at counter 27(ox+1)+9(oy+1)+3(oz+1)+(ow+1) |
| Day17b.Neighbours | src/bin/day17b.rs:124-150 | the four loops, skipping the zero offset and writing through the running index, fill the 80 slots with the neighbour sequence |
| Day17b.NeighbourNear | src/bin/day17b.rs:132-143 | every written neighbour differs from the position and lies within one step in every coordinate |
| Day17b.NeighboursDistinct | src/bin/day17b.rs:124-150 | two different slots hold two different positions |
| Day17b.NeighbourFound | src/bin/day17b.rs:124-150 | every position within one step, other than the position itself, is written to some slot |
| Day17b.NeighboursExactly | src/bin/day17b.rs:124-150 | the 80 slots hold exactly the positions near the position, without repeats |
| Day17b.Grid.constructor | src/bin/day17b.rs:37-39 | a new grid holds no cube |
| Day17b.Grid.ParseGridSlice | src/bin/day17b.rs:153-169 | after the fold over the lines, the map holds the trimmed input's characters at (x, y, 0, 0) with the other entries kept |
| Day17b.ParsedAll | src/bin/day17b.rs:153-169 | a position gains an entry exactly when it is a character of the trimmed input, is active iff that character is '#', and every other entry keeps its value |
| Day17b.ParsedStep | src/bin/day17b.rs:155-165 | inserting the character at column x of line y extends the parsed prefix by that one position |
| Day17b.ParsedNextLine | src/bin/day17b.rs:154-168 | after the last character of a line the fold continues with y + 1, a blank line included |
| Day17b.Grid.ActiveBounds | src/bin/day17b.rs:41-58 | none exactly when no cube is active (the source's unwrap panics); otherwise the least and greatest coordinates, each bounding every active cube and taken by one |
| Day17b.BoundsStep | src/bin/day17b.rs:42-55 | one more active cube moves the minimum and maximum of each coordinate to include it and keeps them attained |
| Day17b.BoundsUnique | src/bin/day17b.rs:41-58 | the bounds of a set of cubes are determined by it |
| Day17b.BoundsOf | src/bin/day17b.rs:41-58 | every non-empty set of cubes has bounds that hold every member and are attained |
| Day17b.Grid.ActiveCount | src/bin/day17b.rs:60-62 | the count is the number of positions whose entry is true |
| Day17b.CountNone | src/bin/day17b.rs:184-190 | without an active entry the filtered count is 0 |
| Day17b.CountLone | src/bin/day17b.rs:184-190 | with one active cube, a list without repeats counts it once if it holds it and 0 otherwise |
| Day17b.Grid.CountActiveNeighbours | src/bin/day17b.rs:184-190 | the count is the number of active cubes among the 80 neighbours, a missing entry counting as inactive |
| Day17b.RuleCases | src/bin/day17b.rs:196-205 | an active cube stays active iff it has 2 or 3 active neighbours; an inactive one becomes active iff it has 3 |
| Day17b.Grid.CheckPos | src/bin/day17b.rs:192-205 | the position joins the deactivate set exactly when it is active without 2 or 3 active neighbours, and the activate set exactly when it is inactive with 3 |
| Day17b.Deactivations | src/bin/day17b.rs:207-229 | holds exactly the positions of the widened box that are active and lack 2 or 3 active neighbours |
| Day17b.Activations | src/bin/day17b.rs:207-229 | holds exactly the positions of the widened box that are inactive with 3 active neighbours |
| Day17b.CollectedStep | src/bin/day17b.rs:213-215 | checking the next position of the box adds exactly its decision to the sets |
| Day17b.CollectedAll | src/bin/day17b.rs:210-218 | once every position of the box is checked, the sets are the cycle's deactivations and activations |
| Day17b.Grid.CheckPlane | src/bin/day17b.rs:212-217 | the two inner loops add the decisions of every (x, y) of the box in one (z, w) plane |
| Day17b.CycleCellsAt | src/bin/day17b.rs:180-229 | inside the widened box a cycle applies the rule from the grid before the cycle; outside it every entry and every absence is kept |
| Day17b.ActiveWithin | src/bin/day17b.rs:41-58 | every active cube lies within the bounds of the active cubes |
| Day17b.QuietOutside | src/bin/day17b.rs:207-218 | outside the widened box nothing is active and no neighbour is active, so the box misses no change |
| Day17b.CycleIsRule | src/bin/day17b.rs:180-229 | a cycle is the rule applied to every cube of the unbounded grid |
| Day17b.Cycle | src/bin/day17b.rs:180-229 | the grid after a cycle holds exactly the cubes the rule makes active |
| Day17b.Grid.SimulateCycle | src/bin/day17b.rs:180-229 | the decisions are all collected before the writes, and the new grid is the cycle of the old one; without an active cube it panics and writes nothing |
| Day17b.EvolveStaysNone | src/bin/day17b.rs:171-178 | once a cycle panics, no later cycle count completes |
| Day17b.Grid.SimulateCycles | src/bin/day17b.rs:171-178 | completes exactly when no cycle panics, leaving the grid after that many cycles |
| Day17b.LoneNeighbours | src/bin/day17b.rs:184-190 | around a lone active cube a position counts 1 active neighbour iff it is near it |
| Day17b.LoneRule | src/bin/day17b.rs:192-205 | after a lone cube the rule leaves no cube active |
| Day17b.LoneCubeDies | src/bin/day17b.rs:180-229 | a lone active cube dies in the first cycle |
| Day17b.DiesThenPanics | src/bin/day17b.rs:41-58 | a grid whose first cycle leaves no active cube panics in the second |
| Day17b.LoneCubePanics | src/bin/day17b.rs:171-178 | six cycles of a single '#' do not complete: the second cycle's `active_bounds` panics |
| Day12a.Degrees | src/bin/day12a.rs:147-156 | each heading is a multiple of 90 below 360 |
| Day12a.Rem360 | src/bin/day12a.rs:131 | the signed remainder lies strictly between -360 and 360 and has the sign of the dividend |
| Day12a.Normalize | src/bin/day12a.rs:131-135 | adding 360 to a negative remainder brings every angle into [0, 360) |
| Day12a.NormalizeIsModulo | src/bin/day12a.rs:131-135 | the two-step reduction equals the mathematical remainder modulo 360 |
| Day12a.DirectionOfDegrees | src/bin/day12a.rs:125-145 | the conversion from an `i16` angle succeeds exactly for multiples of 90 and then yields the heading equal to the angle modulo 360 |
| Day12a.DegreesRoundTrip | src/bin/day12a.rs:125-156 | converting a heading to degrees and back gives the heading |
| Day12a.MultiplierClockwise | src/bin/day12a.rs:115-122 | each unit step has length 1, and the heading 90 degrees clockwise has the step rotated clockwise |
| Day12a.ParseAction | src/bin/day12a.rs:202-222 | an unrecognised text is returned inside the error |
| Day12a.ParseActionLetters | src/bin/day12a.rs:202-222 | exactly the seven one-letter strings N S E W L R F parse, each back to the letter it is written with |
| Day12a.ParseInstruction | src/bin/day12a.rs:164-173 | succeeds exactly when the first character is an action letter and the rest is a `u16` |
| Day12a.ParseFormat | src/bin/day12a.rs:164-173 | every instruction parses back from its letter followed by its value in decimal |
| Day12a.ParseInstructions | src/bin/day12a.rs:33-52 | at most one instruction per line |
| Day12a.ParseInstructionsFormat | src/bin/day12a.rs:33-52 | instructions written one per line parse back to the same list |
| Day12a.AsI16 | src/bin/day12a.rs:87 | `value as i16` is in the `i16` range and congruent to the value modulo 2^16 |
| Day12a.CheckedI16 | src/bin/day12a.rs:87-88 | a value is kept exactly when it is in the `i16` range, where a debug build does not panic |
| Day12a.TurnNoOverflow | src/bin/day12a.rs:86-90 | for values up to 32497 no 16-bit step overflows, so the new heading is the conversion of the heading plus or minus the value |
| Day12a.TurnBy | src/bin/day12a.rs:86-90 | in that range a turn succeeds exactly by a multiple of 90, and the new heading is the old one plus (R) or minus (L) the value modulo 360 |
| Day12a.TurnBack | src/bin/day12a.rs:86-90 | a right turn followed by a left turn by the same multiple of 90 restores the heading |
| Day12a.TurnOffHeading | src/bin/day12a.rs:88-90 | R45 panics in `unwrap`, as 45 degrees is not a heading |
| Day12a.TurnOverflow | src/bin/day12a.rs:87 | L32768 panics: the value reads as -32768 as an `i16` and its product with -1 overflows |
| Day12a.MoveByDistance | src/bin/day12a.rs:99-100 | a move of `value` in any compass direction changes the Manhattan distance from the old location by exactly `value` |
| Day12a.MoveByMultiplier | src/bin/day12a.rs:92-100 | a move adds the value times the direction's unit step to each coordinate |
| Day12a.NavigateStep | src/bin/day12a.rs:84-103 | a move keeps the heading and moves along the named direction or, for F, the heading; a turn keeps the location and fails exactly when the turn panics |
| Day12a.FollowAppend | src/bin/day12a.rs:80-82 | following two lists in turn is following their concatenation, a panic in the first ending both |
| Day12a.Example | src/bin/day12a.rs:236-253 | F10 N3 F7 R90 F11 from the origin facing east ends at (17, -8) facing south, at Manhattan distance 25 |
| Day12a.Ship.constructor | src/bin/day12a.rs:67-73 | the ship starts at its starting location with the given heading |
| Day12a.Ship.CalcManhattanDistance | src/bin/day12a.rs:75-78 | the distance is 0 exactly when the ship is back at its starting location |
| Day12a.Ship.Navigate | src/bin/day12a.rs:84-103 | the new location and heading are the step's result; on a panic nothing changes |
| Day12a.Ship.FollowNavigationInstructions | src/bin/day12a.rs:80-82 | completes exactly when no instruction panics and leaves the ship in the state of following every instruction in turn |
| Day12b.RotateQuarter | src/bin/day12b.rs:61-69 | a quarter turn clockwise keeps the waypoint's distance from the ship |
| Day12b.RotateTimesNorm | src/bin/day12b.rs:61-69 | any number of quarter turns keeps that distance |
| Day12b.RotateTimesAdd | src/bin/day12b.rs:61-69 | j quarter turns followed by k are j + k quarter turns |
| Day12b.FullTurn | src/bin/day12b.rs:61-69 | four quarter turns are the identity |
| Day12b.RotateTimesMod | src/bin/day12b.rs:61-69 | quarter turns repeat with period 4 |
| Day12b.RotateNorm | src/bin/day12b.rs:61-69 | a rotation by a multiple of 90 degrees keeps the waypoint's distance |
| Day12b.QuarterCounts | src/bin/day12b.rs:61-69 | an angle and its negation rotate by quarter counts that add up to a full turn |
| Day12b.RotateBack | src/bin/day12b.rs:61-69 | rotating by an angle and then by its negation restores the point |
| Day12b.RotationExample | src/bin/day12b.rs:268-274 | (10, 4) rotated by 90 degrees is (4, -10) |
| Day12b.FullCircle | src/bin/day12b.rs:61-69 | a rotation by 360 or -360 degrees is the identity |
| Day12b.Angle | src/bin/day12b.rs:99 | the 16-bit product of the turn's sign and the value overflows only for L32768; otherwise it is the signed value modulo 2^16 |
| Day12b.QuarterTurnsModelled | src/bin/day12b.rs:98-102 | every L or R by a multiple of 90 up to 32767 is a quarter-turn rotation |
| Day12b.NavigateStep | src/bin/day12b.rs:96-116 | a turn keeps the location and the waypoint's distance; N, S, E, W keep the location and move the waypoint by exactly the value; F keeps the waypoint; only L32768 panics |
| Day12b.TurnRightThenLeft | src/bin/day12b.rs:98-102 | R then L by the same multiple of 90 restores the ship's state |
| Day12b.FollowAppend | src/bin/day12b.rs:92-94 | following two lists in turn is following their concatenation, a panic in the first ending both |
| Day12b.Example | src/bin/day12b.rs:249-266 | F10 N3 F7 R90 F11 from the origin ends at (214, -72), at Manhattan distance 286 |
| Day12b.Ship.constructor | src/bin/day12b.rs:79-85 | the ship starts at its starting location with the waypoint at (10, 1) |
| Day12b.Ship.CalcManhattanDistance | src/bin/day12b.rs:87-90 | the distance is 0 exactly when the ship is back at its starting location |
| Day12b.Ship.Navigate | src/bin/day12b.rs:96-116 | the new location and waypoint are the step's result, the F loop adding the waypoint once per unit of the value; on a panic nothing changes |
| Day12b.Ship.FollowNavigationInstructions | src/bin/day12b.rs:92-94 | completes exactly when no instruction panics and leaves the ship in the state of following every instruction in turn |
| Day16a.TicketErrorRate | src/bin/day16a.rs:98-105 | a ticket's error rate never exceeds the sum of its values |
| Day16a.TicketErrorRateCounts | src/bin/day16a.rs:100-105 | every value that no field's rule admits is counted in its ticket's error rate |
| Day16a.TicketErrorRateZero | src/bin/day16a.rs:100-105 | a ticket adds nothing exactly when each value outside every rule is 0 |
| Day16a.ErrorRateAppend | src/bin/day16a.rs:95-107 | the scanning error rate of two lists of tickets is the sum of their rates |
| Day16a.ErrorRateZero | src/bin/day16a.rs:95-107 | the error rate is 0 exactly when every value on every ticket that no rule admits is 0 |
| Day16a.ParseRange | src/bin/day16a.rs:57-62 | a range that is read has both bounds below 2^32 |
| Day16a.ParseRule | src/bin/day16a.rs:55-63 | a rule that is read has a non-empty field name without ':' |
| Day16a.ParseFormatRange | src/bin/day16a.rs:57-62 | every range of u32 bounds is read back from its written form |
| Day16a.ParseFormatRule | src/bin/day16a.rs:55-71 | every rule with a non-empty name free of ':' and u32 bounds is read back from its line |
| Day16a.ParseValues | src/bin/day16a.rs:74-78 | the values are read exactly when every piece is a u32, one value per piece, each the piece's number |
| Day16a.ParseTicket | src/bin/day16a.rs:74-78 | every value of a ticket that is read is below 2^32 |
| Day16a.ParseFormatTicket | src/bin/day16a.rs:74-78 | every non-empty ticket of u32s is read back from its comma-separated line |
| Day16a.ParseStep | src/bin/day16a.rs:45-88 | only a ticket line can panic, and only in a ticket state; once in a ticket state the rules stay as they are and the state never returns to Rules; nearby tickets are only appended |
| Day16a.ParseFromAppend | src/bin/day16a.rs:42-92 | reading two blocks of lines is reading the first, then the second from the state it leaves |
| Day16a.RulesFrozen | src/bin/day16a.rs:46-53 | after a ticket header no later line changes the rules or returns to the Rules state |
| Day16a.NearbyTicketsGrow | src/bin/day16a.rs:84 | the nearby tickets read so far stay, in order, as a prefix of those read at the end |
| Day16a.Parse | src/bin/day16a.rs:33-93 | the loop over the lines ends in the state of the fold over them, or reports the panic the fold reaches |
| Day16a.RuleLineStep | src/bin/day16a.rs:54-72 | a written rule line, read in the Rules state, inserts its field's rule |
| Day16a.TicketLineStep | src/bin/day16a.rs:73-87 | a written ticket line, read in a ticket state, replaces my ticket or joins the nearby tickets |
| Day16a.RuleLinesParse | src/bin/day16a.rs:54-72 | written rule lines insert their rules in order, a later rule replacing an earlier one of the same name |
| Day16a.TicketLinesParse | src/bin/day16a.rs:84 | written nearby ticket lines are appended in order |
| Day16a.MiddleParse | src/bin/day16a.rs:46-53 | a blank line, "your ticket:", my ticket, a blank line and "nearby tickets:" store my ticket and end in the NearbyTickets state |
| Day16a.ParseFormatInput | src/bin/day16a.rs:33-93 | every well-formed input is read back as its rules, my ticket and its nearby tickets in order |
| Day16a.Example | src/bin/day16a.rs:113-134 | the example's nearby tickets have scanning error rate 71 |
| Day16b.ValidateTicket | src/bin/day16b.rs:126-132 | a ticket is valid exactly when every one of its values is admitted by some field's rule |
| Day16b.ValidTicketNoError | src/bin/day16b.rs:112-132 | a valid ticket adds nothing to the scanning error rate |
| Day16b.ZeroInvalidWithoutError | src/bin/day16b.rs:112-132 | the converse fails: a ticket whose only value is a 0 outside every rule is invalid yet adds 0 to the error rate |
| Day16b.ValidTickets | src/bin/day16b.rs:32-35 | the kept tickets are exactly the valid ones among the nearby tickets, and never more of them |
| Day16b.Candidates | src/bin/day16b.rs:144-154 | a position is a candidate for a field exactly when it is a position of the first ticket and every ticket's value there satisfies the field's rule |
| Day16b.CandidatesBelowMembers | src/bin/day16b.rs:144-154 | the positions gathered below a bound are those below it whose column the rule admits |
| Day16b.GatherCandidates | src/bin/day16b.rs:142-154 | the nested loops leave exactly the fields with at least one candidate, each mapped to all of its candidates |
| Day16b.FixingPass | src/bin/day16b.rs:164-184 | one pass keeps every fixed field at one of its candidates with no two sharing a position, drops the fields it fixed, and when it fixes nothing leaves every pending field with other than one free candidate |
| Day16b.FixFields | src/bin/day16b.rs:156-187 | the loop either fixes every field to one of its candidates, no two sharing a position, or stops where a pass fixes nothing, the source looping forever there |
| Day16b.DetermineFieldPositions | src/bin/day16b.rs:134-188 | no tickets give an empty map; otherwise every field with a candidate is fixed to one of its candidates with no two sharing a position, or the loop is stuck |
| Day16b.Example | src/bin/day16b.rs:219-243 | in the example every complete assignment without shared positions puts row at 0, class at 1 and seat at 2 |
| Day15a.OccurrencesMeaning | src/bin/day15a.rs:36-41 | the turns recorded for a number are exactly the turns it was spoken on, in increasing order |
| Day15a.PushLastTwo | src/bin/day15a.rs:36-41 | pushing a turn onto a queue of the last two turns and dropping the oldest at three leaves the last two turns of the longer history |
| Day15a.NextNumberMeaning | src/bin/day15a.rs:60-65 | the next number is 0 exactly when the last number had not been spoken before |
| Day15a.NextIsGap | src/bin/day15a.rs:60-65 | when the last number was spoken before, the next number is the count of turns back to its most recent earlier turn |
| Day15a.SpokenRule | src/bin/day15a.rs:55-73 | every turn after the starting numbers speaks the next number of the turns before it |
| Day15a.ParsePieces | src/bin/day15a.rs:45-53 | every comma-separated piece parses as a u64, or the parse fails at a piece that does not |
| Day15a.ParseFormatStarts | src/bin/day15a.rs:45-53 | a comma-separated line of u64 starting numbers parses back to those numbers |
| Day15a.TracksRecord | src/bin/day15a.rs:27-43 | recording a number keeps every spoken number, and no other, mapped to its last two turns |
| Day15a.QueueNext | src/bin/day15a.rs:58-65 | the last number's queue holds one or two turns; one gives 0 and two give their difference, the game's next number |
| Day15a.Game.RecordNumber | src/bin/day15a.rs:27-43 | the number becomes the last number, the turn is pushed on its queue keeping the last two, and the turn count grows by one, keeping the memory in step with the history |
| Day15a.Game.NextFromMemory | src/bin/day15a.rs:58-65 | the number chosen from the last number's queue is the game's next number |
| Day15a.RecordStarts | src/bin/day15a.rs:45-53 | the starting numbers are recorded in order on turns 0, 1, ... |
| Day15a.Play | src/bin/day15a.rs:55-75 | the loop stops once the turn count reaches `rounds` and returns the number of the last turn, the last starting number when there are at least `rounds` of them |
| Day15a.PlayGame | src/bin/day15a.rs:22-76 | an unparsable first line is the panic; otherwise the answer is the number spoken on the last turn of the game |
| Day15a.Example | src/bin/day15a.rs:55-73 | the starting numbers 0, 3, 6 give 0, 3, 6, 0, 3, 3, 1, 0, 4, 0 in the first ten turns |
| Day15b.TracksRecord | src/bin/day15b.rs:35-41 | recording a number on the next turn keeps every spoken number, and no other, mapped to the last turn it was spoken on |
| Day15b.RecordAnswer | src/bin/day15b.rs:37-40 | the turn count back to the number's previous turn, or 0 when it had none, is the game's next number |
| Day15b.Game.RecordNumber | src/bin/day15b.rs:29-45 | the number becomes the last number and is mapped to the current turn, the turn count grows by one, and the answer is the game's next number |
| Day15b.AsWrittenAgrees | src/bin/day15b.rs:47-71 | when the last starting number does not occur earlier among them, the program as written plays the game |
| Day15b.RepeatedLastStart | src/bin/day15b.rs:55-59 | for the starting numbers 1, 2, 1 the program as written speaks 0 on the fourth turn where the game speaks 2 |
| Day15b.RecordStarts | src/bin/day15b.rs:47-57 | the starting numbers are recorded in order and the answer for the last one is the game's next number |
| Day15b.PlayAsWritten | src/bin/day15b.rs:47-73 | as written, the first generated number is 0, then each answer is the next number; the result is the last of those turns |
| Day15b.Play | src/bin/day15b.rs:47-73 | with the answer for the last starting number kept, the result is the number spoken on the last turn of the game |
| Day15b.PlayGame | src/bin/day15b.rs:24-74 | the corrected program (the answer for the last starting number kept): an unparsable first line is the panic; otherwise the answer is the number spoken on the last turn of the game |
| Day15b.Example | src/bin/day15b.rs:82-95 | for the starting numbers 0, 3, 6 the program as written plays the game: 0, 3, 6, 0, 3, 3, 1, 0, 4, 0 |
| Day13b.Parse | src/bin/day13b.rs:22-37 | the notes parse only with two lines and a `u32` first line, and then into a non-empty bus list |
| Day13b.ParseIds | src/bin/day13b.rs:30-36 | the bus list has one entry per comma-separated piece, each "x" or a `u32` id, and fails exactly when some piece is neither |
| Day13b.ParseFormatNotes | src/bin/day13b.rs:22-37 | notes printed from a departure and a bus list of `u32` ids parse back to that bus list |
| Day13b.SearchFrom | src/bin/day13b.rs:58-66 | the inner search finds the least step count from its start at which the bus departs at the timestamp plus its offset, or none up to the id |
| Day13b.SearchDefined | src/bin/day13b.rs:58-66 | with a step coprime to the id the inner search always finds a departure, whether it starts at 0 or 1 steps |
| Day13b.SieveFits | src/bin/day13b.rs:51-69 | every timestamp the sieve produces suits every listed bus |
| Day13b.EarliestFits | src/bin/day13b.rs:39-72 | when `find_earliest_timestamp` answers (as written or corrected), every listed bus departs at the answer plus its position |
| Day13b.SieveZero | src/bin/day13b.rs:63 | a listed id of 0 makes the sieve panic (the remainder by zero) |
| Day13b.SieveDefined | src/bin/day13b.rs:51-69 | with pairwise coprime ids and no id of 0 the sieve always ends with a timestamp |
| Day13b.EarliestNone | src/bin/day13b.rs:39-72 | with pairwise coprime ids, the search panics exactly when there are two entries or more and the first is "x" or some later id is 0 |
| Day13b.CongruentStep | src/bin/day13b.rs:58-68 | after folding one more bus in, timestamps suiting all buses so far lie whole multiples of the grown step from the new timestamp |
| Day13b.LeastStep | src/bin/day13b.rs:58-66 | a search testing the current timestamp first skips no earlier timestamp suiting the buses so far |
| Day13b.EarliestStep | src/bin/day13b.rs:58-68 | one sieve round keeps the timestamp the earliest one suiting the buses so far and the step their common period |
| Day13b.SieveEarliest | src/bin/day13b.rs:51-69 | from an earliest state, the corrected sieve ends at the earliest timestamp suiting every listed bus |
| Day13b.FirstEarliest | src/bin/day13b.rs:46-48 | starting from the first bus's id as timestamp and step is the earliest state for that bus |
| Day13b.TimestampEarliest | src/bin/day13b.rs:39-72 | for pairwise coprime ids led by a bus, the corrected answer suits every bus and is the least such timestamp from the first id on |
| Day13b.AdvanceAsWritten | src/bin/day13b.rs:58-66 | the inner loop as written ends at the first departure found from one step on |
| Day13b.Advance | src/bin/day13b.rs:58-66 | the corrected inner loop ends at the first departure found from the current timestamp on |
| Day13b.FindEarliestTimestampAsWritten | src/bin/day13b.rs:39-72 | `find_earliest_timestamp` as written computes the sieve that steps before testing, panicking where it does |
| Day13b.FindEarliestTimestamp | src/bin/day13b.rs:39-72 | the corrected loop computes the sieve that tests before stepping, hence the earliest timestamp |
| Day13b.AsWrittenSkips | src/bin/day13b.rs:58-66 | for the ids 2, 3 the timestamp 2 suits both buses and is the corrected answer, yet as written the answer is 8 |
| Day13b.Example | src/bin/day13b.rs:87-92 | the ids 17, x, 13, 19 give 3417, both as written and corrected |
| Day10a.SortUnstable | src/bin/day10a.rs:40 | the slice ends ascending and a permutation of what it held |
| Day10a.Insert | src/bin/day10a.rs:40 | one insertion step grows the ascending prefix by one element and permutes the slice |
| Day10a.SortedUnique | src/bin/day10a.rs:40 | two ascending orders of the same elements are equal, so the result does not depend on how the unstable sort orders equal values |
| Day10a.DifferencesTelescope | src/bin/day10a.rs:43-52 | the differences counted along the chain add up to the climb from the outlet to the last adapter |
| Day10a.TallyCounts | src/bin/day10a.rs:51 | after counting, each difference seen is a key holding how often it occurred, and nothing else is a key |
| Day10a.TallySum | src/bin/day10a.rs:45-53 | the counts add up to the number of differences counted |
| Day10a.DistributionCounts | src/bin/day10a.rs:42-58 | the function panics exactly when some difference aborts; otherwise each key counts its differences plus the device's, and the counts add up to the number of adapters plus one |
| Day10a.SortedAborts | src/bin/day10a.rs:46-49 | on sorted adapters at or above the outlet, the panic happens exactly when two neighbours, or the outlet and the first adapter, are more than the limit apart |
| Day10a.JoltageDifferenceDistribution | src/bin/day10a.rs:31-59 | the adapters end sorted and permuted in place, and the result is the distribution of the sorted adapters |
| Day10a.CountDifferences | src/bin/day10a.rs:42-58 | the counting loop yields the distribution of the adapters in their order, or the panic at the first aborting difference |
| Day10a.ExampleA | src/bin/day10a.rs:65-90 | the first example, sorted, gives 7 differences of 1 and 5 of 3 (with the device), and no other |
| Day10b.ConnectedArranges | src/bin/day10b.rs:53-61 | when every adapter is within the step limit of the one before it (the first of the start, the goal of the last), there is at least one arrangement |
| Day10b.NoAdapters | src/bin/day10b.rs:53 | with no adapters left, the count is 1 when the goal is within the step limit of the start and 0 otherwise |
| Day10b.ArrangementsCons | src/bin/day10b.rs:55-61 | the count from a start over `x` and the rest is the count from `x` plus the count leaving `x` out when `x` is in reach, and only the direct step when it is not |
| Day10b.AboveNext | src/bin/day10b.rs:55-59 | on strictly ascending adapters, the adapters after the one a call moves to are exactly the adapters above that one's joltage, so the cache's key determines a call's arguments |
| Day10b.CountArrangements | src/bin/day10b.rs:39-65 | the cached recursion returns the count of arrangements from `start` over its adapters, records it under `start`, and keeps every cached count equal to the count from its key |
| Day10b.CountAll | src/bin/day10b.rs:15-37 | the adapters end strictly ascending and permuted; no adapters is the panic, otherwise the result is the count from the outlet 0 to three above the last adapter with steps of at most 3 |
| Day10b.DistinctSorted | src/bin/day10b.rs:25 | sorting distinct positive adapters leaves them strictly ascending and positive |
| Day9a.CalculatePermutationSums | src/bin/day9a.rs:54-72 | every ordered pair of positions holding different values is recorded under its sum and nothing else is; pairs of equal values, the same position twice included, never are |
| Day9a.RecordsSymmetric | src/bin/day9a.rs:57-67 | a pair of positions is recorded under a sum exactly when the reversed pair is |
| Day9a.ValidAsWritten | src/bin/day9a.rs:74-87 | on the recorded sums, `is_number_valid` holds exactly when two different values at positions from the window's start on, with no upper bound, add up to the number |
| Day9a.ValidWithin | src/bin/day9a.rs:74-87 | the check with the window closed at a position holds exactly when two different values inside the window add up to the number |
| Day9a.AnswerNoCandidates | src/bin/day9a.rs:36-43 | with no number past the preamble the scan answers 0 |
| Day9a.AnswerFirstInvalid | src/bin/day9a.rs:36-43 | the scan answers the first number from the preamble on that fails the check |
| Day9a.AnswerAllValid | src/bin/day9a.rs:36-43 | when every number from the preamble on passes, the scan answers the last number |
| Day9a.FindInvalidNumberAsWritten | src/bin/day9a.rs:33-43 | the scan as written returns the answer with the check open to the end of the list |
| Day9a.FindInvalidNumber | src/bin/day9a.rs:33-43 | the scan returns the answer with the window of the `preamble_length` numbers before the one checked |
| Day9a.LooksAhead | src/bin/day9a.rs:74-87 | with preamble 1 and the numbers 5, 7, 3, 4 the scan as written answers 3 where the windowed scan answers 7 |
| Day9a.ParseNumbers | src/bin/day9a.rs:18-30 | the non-empty lines that parse as `u64` give the numbers, each below 2^64, at most one per line |
| Day9a.ParseNumbersDecimal | src/bin/day9a.rs:18-30 | lines holding the decimal forms of numbers below 2^64 read back as those numbers |
| Day9a.Solve | src/bin/day9a.rs:15-43 | the corrected program (the windowed check of Findings) answers the windowed scan's answer on the parsed numbers |
| Day9b.Least | src/bin/day9b.rs:113-114 | the smallest number of a non-empty list is in it and at most every number of it |
| Day9b.Greatest | src/bin/day9b.rs:113-114 | the largest number of a non-empty list is in it and at least every number of it |
| Day9b.FirstRunUnique | src/bin/day9b.rs:99-121 | the run found (earliest start, then shortest) is unique |
| Day9b.PastTarget | src/bin/day9b.rs:111 | once a run's sum passes the target, no longer run from the same position adds up to it, so abandoning it loses nothing |
| Day9b.FirstPlusLast | src/bin/day9b.rs:113-114 | sorting the operands and adding the first and the last gives the smallest plus the largest |
| Day9b.SortedFirst | src/bin/day9b.rs:113-114 | after sorting, the first number is the smallest |
| Day9b.SortedLast | src/bin/day9b.rs:113-114 | after sorting, the last number is the largest |
| Day9b.FindEncryptionWeaknessAsWritten | src/bin/day9b.rs:99-121 | None exactly when no run of two or more numbers adds up to the target; otherwise, for the first such run, the smallest plus the largest of the run without its last number |
| Day9b.FindEncryptionWeakness | src/bin/day9b.rs:99-121 | None exactly when no run of two or more numbers adds up to the target; otherwise the smallest plus the largest of the first such run |
| Day9b.LastLeftOut | src/bin/day9b.rs:104-115 | for 1, 2, 3 and target 6 the run is the whole list, whose smallest plus largest is 4, while the run without its last number gives 3 |
| Day9b.Solve | src/bin/day9b.rs:16-40 | the corrected program answers the weakness of its whole run (see Findings) for the windowed scan's answer on the parsed numbers |
| Day7a.StripExact | src/bin/day7a.rs:75-81 | a clean bag name followed by " bag" or " bags" strips back to exactly the name |
| Day7a.StripNamed | src/bin/day7a.rs:75-81 | the same with trailing whitespace after the word, as the text before "contain" has |
| Day7a.EntryRoundTrip | src/bin/day7a.rs:31-37 | a part `<n> <name> bag(s)`, with or without a leading space, parses back to the name and the count |
| Day7a.CollectEntries | src/bin/day7a.rs:29-39 | the written parts collect into the map of the entries, a later entry for a bag replacing an earlier one |
| Day7a.ContentsRoundTrip | src/bin/day7a.rs:26-40 | the text after "contain" reads back as the contents: "no other bags." as the empty map, otherwise the map of the comma-separated parts |
| Day7a.RuleRoundTrip | src/bin/day7a.rs:21-42 | a rule line written from a bag name without "contain" and writable entries parses back to that bag and the map of the entries |
| Day7a.ParseAll | src/bin/day7a.rs:18-42 | the lines give rules exactly when every line parses, and then one rule per line, in order |
| Day7a.DataOfKeys | src/bin/day7a.rs:42 | a bag has an entry in the collected rules exactly when some line is a rule for it |
| Day7a.DataOfLast | src/bin/day7a.rs:42 | a bag's entry is the contents of the last rule for it |
| Day7a.BuildData | src/bin/day7a.rs:15-49 | the loop over the lines ends with None exactly when some line does not parse, and otherwise with each bag mapped to the contents of its last rule |
| Day7a.PushLists | src/bin/day7a.rs:56-59 | pushing lists the outer bag under the inner one and changes no other listing; lists stay free of repeats when the pair was not yet listed |
| Day7a.ContainedByIndex | src/bin/day7a.rs:51-64 | an outer bag is listed under an inner bag exactly when the outer bag's rule holds the inner one; every list is non-empty and without repeats |
| Day7a.Direct | src/bin/day7a.rs:83-97 | a bag whose rule holds the searched bag is one of its containers |
| Day7a.Transitive | src/bin/day7a.rs:83-97 | a container of a container of a bag is a container of that bag |
| Day7a.ChainDrops | src/bin/day7a.rs:88-95 | along a chain of holding bags the rank strictly drops |
| Day7a.NotOwnContainer | src/bin/day7a.rs:88-95 | with a ranking no bag holds itself, so the search without a visited set ends |
| Day7a.LastStep | src/bin/day7a.rs:88-94 | every container of a bag is a bag listed under it in the index, or a container of one |
| Day7a.ContainersOfMember | src/bin/day7a.rs:90-93 | the bags the loop collects for a list are exactly the listed bags and their containers |
| Day7a.IndexedContainers | src/bin/day7a.rs:88-96 | the bags listed under a bag, with their containers, are exactly its containers; a bag not in the index has none |
| Day7a.Fewer | src/bin/day7a.rs:90-93 | each recursive search is for a bag with strictly fewer containers |
| Day7a.SearchContainers | src/bin/day7a.rs:83-97 | the set after the search is the set before it plus exactly the bags that hold the searched bag, directly or through other bags |
| Day7a.CountContainers | src/bin/day7a.rs:12-73 | None exactly when a line does not parse; otherwise the number of bags that hold a shiny gold bag |
| Day7b.TermProduct | src/bin/day7b.rs:76 | `count + content_amount * count` is the count times one plus what one inner bag holds |
| Day7b.SearchContent | src/bin/day7b.rs:67-80 | the result, summed in any visiting order, is the content of the bag: 0 without a rule, otherwise the sum of its terms |
| Day7b.CountContent | src/bin/day7b.rs:12-57 | None exactly when a line does not parse; otherwise the number of bags a shiny gold bag holds |
| Day7b.EmptyRule | src/bin/day7b.rs:27-28 | a bag whose rule is "no other bags" holds nothing |
| Day7b.SingleEntry | src/bin/day7b.rs:70-78 | a rule with one entry of n bags holds those n and n times what one of them holds |
| Day7b.HoldsEach | src/bin/day7b.rs:70-78 | each entry of a rule contributes at least its own term to the bag's content |
| Day7b.AtLeastDirect | src/bin/day7b.rs:70-78 | a bag holds at least the sum of the counts its rule lists |
| Day7b.RankIndependent | src/bin/day7b.rs:67-80 | the content does not depend on which ranking shows the rules to be free of cycles |
| Day7b.DoublingChain | src/bin/day7b.rs:67-80 | in a chain of bags each holding two of the next down to one holding none, a bag i places from the end holds 2^(n-i) - 2 bags; the seven-bag example gives 126 |

## Left out

- Day1a.FindResult: the entries are unbounded naturals; the u64 overflow of `x + y` and `x * y` (a panic in a debug build, a wrap in a release build) is not modelled.
- Day1b.MatcherFindsIff: the u64 sum of the chosen entries and their product are unbounded here; their overflow is not modelled.
- Day2b.ValidPasswords: a position of 0 makes `start() - 1` underflow, the debug build's panic (None); the release build's wrap to 4294967295, after which that position never matches, is not modelled.
- Day3a.GetPosition: requires a line length above 0 for a row inside the map; a file whose first line is empty has line length 0, and `x % self.line_length` then panics, which is not modelled.
- Day3a.CountTrees: requires the same non-zero line length, and a downward step above 0 (`main` uses 1).
- Day5b: a line that fails to read (dropped by `filter_map`) and the `eprintln!` report of a pass that fails to decode are not modelled.
- Day9a.Solve: runs the windowed check of Day9a.FindInvalidNumber, the correction listed under Findings; the program as written, Day9a.FindInvalidNumberAsWritten, is modelled beside it but is not what Solve runs.
- Day9b.Solve: runs Day9b.FindEncryptionWeakness on the windowed scan's answer, the corrections listed under Findings; the program as written is Day9b.FindEncryptionWeaknessAsWritten on Day9a.FindInvalidNumberAsWritten's answer.
- Day15b.PlayGame: runs Day15b.Play, the correction listed under Findings; the program as written is Day15b.PlayAsWritten, which agrees with it when the last starting number does not occur earlier (Day15b.AsWrittenAgrees).
- Day14b.Apply: is the corrected `apply`; the code as written is Day14b.ApplyAsWritten, which returns no address for a mask without 'X' (see Findings).
- Day14b.Execute: runs the corrected Day14b.Apply; under the code as written every write under a mask without 'X' is lost.
- Day19b.ValidMessageIff: stated only for acyclic rules without empty alternatives; the patched rules 8 (`42 | 42 8`) and 11 (`42 31 | 42 11 31`) are cyclic, so neither it nor Day19b.MatchCountAgrees covers them, and the test's expectation that "aaaabbaaaabbaaa" is invalid under the patched example rules is not proved.
- Day19b.CountValidMessages: counts with the corrected matcher that tries every alternative (Day19b.IsValidMessageAsWritten is the program as written, see Findings).
- Day14a.SumMemory: the sum is an unbounded nat; `mem.values().sum()` on u64 would panic on overflow in a debug build (the values are u64, the sum is not bounded by the model).
- Day2a.ParseLine: `scan_fmt!` with `"{d}-{d} {}: {}"` is modelled as the exact shape: digits, '-', digits, one space, one character, ": ", and a password without whitespace running to the end of the line. A line that the macro matches with extra whitespace, or with text after the password, is skipped here but may be accepted by the macro. Day2b reads its lines the same way.
- Day14a.ParseLine: `scan_fmt!`'s `{}` is modelled as the whole rest of the trimmed line after `mask = ` (the mask text is then trimmed again by `from_str`); a text with inner whitespace, or an empty one, may be matched differently by the macro.
- Day14a: reading the file and printing the result are I/O; lines that fail to decode are not modelled (the input is a sequence of strings).
- Day14b.Floats: positions are `(bitlen - idx - 1) as u32`; the model keeps them as unbounded nats, so the u32 truncation of a position above 2^32 - 1 (a text of more than 4 billion characters) is not modelled.
- Day14b.ApplyFloating: `0b1 << pos` with pos of 64 or more panics only in a debug build (a release build masks the shift amount); the model always treats it as a panic (None).
- Day14b.ParseLine: the lines are decoded with part one's `Day14a.ParseLine`, with the same `scan_fmt!` approximation.
- Day14b.Execute: the sum is an unbounded nat, as in part one; an overflowing u64 sum is not modelled.
- Day14b.ExampleSum: the example program is given as its four decoded instructions rather than as text lines.
- Day8a.Program: the lines that fail to parse are reported on standard error; the messages are not modelled.
- Day8a.RunInstructions: the trace printed for each instruction is not modelled.
- Day8a.Step: the instruction pointer is an unbounded natural; usize overflow on a forward jump cannot happen for programs that fit in memory.
- Day8b.RunInstructions: the loop and recursion use the single-change correction (see Findings); the search as written is the function SearchAsWritten, not a method.
- Day4a.ParsePassports: a line that fails to read (which the source reports and then drops the pending record for) is not modelled; the input is a sequence of lines already read.
- Conversion errors, which the source prints to standard error and then discards, are modelled as values and not printed.
- Day4b.ParseRanged: the reasons for refusal stand for the source's formatted error messages; their text is not modelled.
- Day19a.Expander.ExpandIdx: requires acyclic rules (witnessed by a ghost ranking); on a cyclic rule the source recurses until the stack overflows, which is not modelled.
- Day19a: `multi_cartesian_product` of an alternative with no parts yields no strings (the behaviour of the itertools release of the time), so an empty alternative derives nothing.
- Day19a: the order of the expanded strings is modelled but the source only uses them as a hash set.
- Day19b.TryRule: the depth of rule calls is bounded by a fuel parameter; the source has no bound and recurses until the stack overflows on a left-recursive rule.
- Day19b.CountValidMessages: the patched rules loop through 8 and 11, so the count is stated for a given fuel rather than for the unbounded recursion.
- Day19b: the replacement rules are written out as `Replacements` rather than parsed from their text.
- Day19b: messages are treated as ASCII; the source mixes character positions (`chars().nth`) with byte slicing, which agree only on ASCII.
- Day19b: the tracing lines printed on every step are not modelled.
- Day11a.SeatLayout.ApplySeatingRules: the loop of the source has no bound; the model runs at most `fuel` rounds and says with `settled` whether it stopped at a fixpoint.
- Day11a: `usize` arithmetic is unbounded here; the products `y * line_length` cannot overflow for the grids the program reads.
- Day11a: the example grid that settles with 37 occupied seats is not replayed; unfolding the rounds of a 10x10 grid is too costly for the verifier.
- Day11a: `Display for SeatLayout`, the timing with `Instant`, the command-line options and I/O errors are not modelled.
- Day11b.SeatLayout.ApplySeatingRules: the loop of the source has no bound; the model runs at most `fuel` rounds and says with `settled` whether it stopped at a fixpoint.
- Day11b: `GridPlace`, its parsing and display and `SeatLayout::parse` are the same code as in part one and are modelled once, in `Day11a`.
- Day11b: the `i32` coordinates and the casts `line_length as i32` and `idx as usize` are unbounded integers here; they cannot overflow for the grids the program reads.
- Day11b: the example grid that settles with 26 occupied seats is not replayed; unfolding the rounds of a 10x10 grid is too costly for the verifier.
- Day11b: `Display for SeatLayout`, the timing with `Instant`, the command-line options and I/O errors are not modelled.
- Day17b: the `i32` coordinates are unbounded integers; they cannot overflow within six cycles of the grids the program reads.
- Day17b.Grid.ActiveBounds: computes the eight minima and maxima in one pass over the active cubes instead of eight passes over the collected vector; the result is the same.
- Day17b.Grid.SimulateCycles: states nothing about the grid after a cycle panics, since the program aborts there.
- Day17b: the test that six cycles of the 3x3 example leave 848 active cubes is not replayed; unfolding six cycles over a 4-D box is too costly for the verifier.
- Day17b: the input arrives as a sequence of lines; reading lines that fail with an I/O error (skipped by `filter_map`) is not modelled.
- Day17b: `Display for Grid`, the timing with `Instant` and the command-line options are not modelled.
- Day12a.Ship.Navigate: the `i32` location is an unbounded integer; an overflow of the location (a debug-build panic) is not modelled.
- Day12a.Ship.Navigate: the 16-bit overflows of the turn arithmetic are debug-build panics; a release build would wrap instead, which is not modelled.
- Day12a.Ship.CalcManhattanDistance: the `as u32` casts and the `u32` sum are unbounded; they cannot wrap for the locations an `i32` holds.
- Day12a: the `eprintln!` report of a line that fails to parse, reading the file, and lines that fail with an I/O error are not modelled.
- Day12b.Ship.Navigate: requires every turn to be by a multiple of 90 degrees, because the `f32` sine, cosine and rounding of `Point::rotate` are not modelled; for other angles the waypoint would land on rounded coordinates.
- Day12b.Rotate: a rotation by whole quarter turns; the `f32` result could differ from it by rounding for huge angles or coordinates, which is not modelled.
- Day12b: `parse_instructions`, the instruction and action parsers and the `Direction` conversions are the same code as in part one and are modelled once, in `Day12a`.
- Day12b: the `i32` location and waypoint are unbounded integers; their overflow (a debug-build panic) is not modelled.
- Day12b: the `eprintln!` report of a line that fails to parse, reading the file, and lines that fail with an I/O error are not modelled.
- Day16a: a rule line is read in the exact shape `name: a-b or c-d`; the extra whitespace the `scan_fmt!` pattern would tolerate around its pieces is not modelled, and a line of another shape is skipped, as the source does.
- Day16a: the `u32` error-rate sum is an unbounded integer; its overflow (a debug-build panic) is not modelled.
- Day16a: reading the file, lines that fail with an I/O error (which the source drops) and the `println!` reports are not modelled.
- Day16b: `parse` and the error rate are the same code as part one (`my_ticket = ticket` in place of `mem::replace`) and are modelled once, in `Day16a`.
- Day16b.DetermineFieldPositions: requires every ticket to be at least as long as the first; on a shorter ticket the source panics on `t[pos]`, which is not modelled.
- Day16b.DetermineFieldPositions: a pass that fixes nothing makes the source loop forever; the model returns `Err` with the pending fields there instead of requiring that every pass makes progress.
- Day16b: the `HashMap` visiting order is left unspecified (the model picks any pending field); the result is proved for every order.
- Day16b: the product of my ticket's "departure" fields in `main`, the `Instant` timing and the `println!` reports are not modelled.
- Day16b.Example: pins down any `Ok` result for the example as row 0, class 1, seat 2; that the loop does reach `Ok` on the example is not proved.
- Day15a.Example: replays ten turns of the game; the 2020-turn results of the unit tests (1, 10, 27, 78, 438, 1836) are not proved.
- Day15a: the `println!` report of each turn and reading the input file are not modelled; the input is the list of its lines.
- Day15a, Day15b: integers are unbounded; a turn count never exceeds `rounds` or the number of starting numbers, and a generated number is a difference of two turns, so `usize`/`u64` wrap-around is not modelled.
- Day15b.Example: replays ten turns of the starting numbers 0, 3, 6; the 30,000,000-turn answer 175594 of the unit test is not proved.
- Day15b: the `Instant` timing in `main` is not modelled.
- Day13b.FindEarliestTimestamp, Day13b.FindEarliestTimestampAsWritten: require pairwise coprime ids (the puzzle's ids are distinct primes); without that the inner loop may never end, which is not modelled.
- Day13b: `u64` overflow of the timestamp and the step is not modelled; integers are unbounded.
- Day13b.Example: only the unit test with "17,x,13,19" is proved; the other five expected answers of the test are not.
- Day13b: `main` (reading the file and printing) is not modelled.
- Day10a: `main` (reading the file, keeping the lines that parse as `u8`, and printing the product of the counts of 1 and 3) is not modelled.
- Day10a.SortUnstable: the standard library's unstable sort is modelled by an insertion sort; only its result (ascending, a permutation) is relied on, and SortedUnique shows that result is unique.
- Day10a.ExampleA: starts from the sorted adapters of the first test; the second test (22 and 10) is not proved.
- Day10a: joltages are unbounded naturals; the `u8` width and a release build's wrapping subtraction are not modelled (a negative difference is the debug build's overflow panic).
- Day10b.CountAll: requires distinct adapters above 0; the cache is keyed by the joltage alone, so with a repeated adapter (1, 1) the program as written would count 4 where the arrangements number 3, which is not proved here.
- Day10b: the `u8` width of the adapters (the overflow of `last + 3`) is not modelled; the tests' expected counts (8 and 19208) are not restated as lemmas.
- Day9a: numbers are unbounded naturals; the `u64` overflow of a pair's sum (a panic in a debug build) is not modelled, and the timing and printing of `main` are left out.
- Day9b: the `u64` overflow of the running sum is not modelled; `find_invalid_number` is part one's scan and is modelled once, by Day9a.FindInvalidNumberAsWritten and its windowed correction.
- Day7a.SearchContainers, Day7a.CountContainers: require a ranking under which every bag ranks above the bags it holds; on rules with a cycle the search of the source recurses until the stack overflows, which is not modelled.
- Day7a: a line without "contain", a part without a space or a count that is not a `usize` make an `unwrap` panic; the model returns None for the whole input there.
- Day7a: the order of the bags in each index list depends on the `HashMap` visiting order and is left unspecified; only which bags are listed is stated.
- Day7a: the examples of the puzzle (4 bags hold shiny gold) are not replayed; the string literals make the unfolding too costly for the verifier.
- Day7a, Day7b: reading the file, lines that fail with an I/O error (reported and skipped) and the `println!` reports are not modelled.
- Day7b.SearchContent, Day7b.CountContent: require the same ranking as part one; on a cycle the source recurses without end.
- Day7b: the `usize` sum and products are unbounded; their overflow (a debug-build panic) is not modelled.
- Day7b: the rules are parsed with part one's `Day7a.ParseRule` and collected with `Day7a.BuildData`, the same code in both files.
- Day7b.DoublingChain: the second example is stated for any chain of seven bags rather than replayed on its literal text.

## Findings

| source | as written | input that shows it | evidently intended | confidence | as-written member | corrected member |
|---|---|---|---|---|---|---|
| src/bin/day14b.rs:62-65, 83-86 | a mask without 'X' makes `apply` return no address, so every write under it is lost | mask "1", value 0: no address, where address 1 is expected | `apply` returns the single address value OR ones | medium; not executed | Day14b.NoFloatingWritesNothing | Day14b.Apply |
| src/bin/day8b.rs:50-83 | after changing a `jmp`/`nop`, the rest runs through the same search, so further instructions can be changed too | nop +4, jmp +0, jmp +0, acc +1: answer 1 from changing 1 and 2, while the only one-change fix (at 0) gives 0 | the run after the change is a plain run | medium; not executed | Day8b.ChangesTwo | Day8b.SearchSound |
| src/bin/day19b.rs:122-173 | each rule keeps only the first alternative that matches and never returns to try the others when a later part fails | rules `0: 1 3`, `1: 2 \| 2 2`, `2: "a"`, `3: "b"`, message "aab": rule 1 takes one "a", rule 3 then meets "a" and the message is refused | "aab" is derived by rule 0 and is valid; a match tries every alternative and every length | high; not executed | Day19b.ShortFirstAsWritten | Day19b.ShortFirstMatches |
| src/bin/day15b.rs:55-59 | the answer `record_number` gives for the last starting number is dropped and the first generated number is always 0 | starting numbers 1, 2, 1 and 4 turns: part two answers 0, part one (src/bin/day15a.rs) answers 2 | the first generated number is the answer for the last starting number, as in part one | high; not executed | Day15b.RepeatedLastStart | Day15b.Play |
| src/bin/day13b.rs:58-66 | the inner loop adds a step before its first test, so a timestamp that already suits the next bus is skipped | ids "2,3": 2 suits both buses, yet the answer is 8 | test the current timestamp first: the earliest timestamp suiting every bus | high; not executed | Day13b.AsWrittenSkips | Day13b.FindEarliestTimestamp |
| src/bin/day9a.rs:74-87, src/bin/day9b.rs:84-97 | `is_number_valid` accepts a pair at any positions from the window's start on, including the number itself and those after it | preamble 1, numbers 5, 7, 3, 4: 7 passes through 3 + 4, and the answer is 3 | only the `preamble_length` numbers before the one checked count, so 7 is the answer | high; not executed | Day9a.LooksAhead | Day9a.FindInvalidNumber |
| src/bin/day9b.rs:104-115 | the number completing the sum is never pushed to `sum_operands`, so the answer is the smallest plus the largest of the run without its last number | numbers 1, 2, 3, target 6: answer 1 + 2 = 3 | the smallest plus the largest of the whole run, 1 + 3 = 4 | high; not executed | Day9b.LastLeftOut | Day9b.FindEncryptionWeakness |
