/**
 * Day 3, part one: a map of open squares `.` and trees `#` repeats to the
 * right forever. Starting at the top-left corner and moving 3 right and 1
 * down at a time, count the trees met before falling off the bottom.
 */
module Day3a {
  import opened Common

  /** `TreeMap`: `data` holds every row's cells one after the other, `true` for a tree. */
  datatype TreeMap = TreeMap(lines: nat, lineLength: int, data: seq<bool>)

  datatype TreeMapError = EndOfMap | MissingLineLength

  /* ---------------------------------------------------------------- */
  /* Reading the file                                                  */
  /* ---------------------------------------------------------------- */

  /** `read_line` from `pos`: the end of the next line, just past its `\n`, or the end of the file. */
  function ReadLine(content: string, pos: nat): (next: nat)
    requires pos < |content|
    ensures pos < next <= |content|
  {
    match IndexOf(content[pos..], '\n')
    case None => |content|
    case Some(i) => pos + i + 1
  }

  /** The successive buffers `read_line` returns, each with its `\n` if it has one. */
  function Chunks(content: string): (r: seq<string>)
    ensures forall k :: 0 <= k < |r| ==> r[k] != []
    decreases |content|
  {
    if content == [] then []
    else
      var n := ReadLine(content, 0);
      [content[..n]] + Chunks(content[n..])
  }

  /** One row of cells: a tree exactly where the character is `#`. */
  function TreeRow(s: string): (r: seq<bool>)
    ensures |r| == |s| && forall i :: 0 <= i < |s| ==> (r[i] <==> s[i] == '#')
  {
    seq(|s|, i requires 0 <= i < |s| => s[i] == '#')
  }

  /** The cells pushed for the buffers read: each buffer's `trim_end`, one cell per character. */
  function RowsData(chunks: seq<string>): seq<bool>
    decreases |chunks|
  {
    if chunks == [] then []
    else RowsData(chunks[..|chunks| - 1]) + TreeRow(TrimEndWhile(chunks[|chunks| - 1], IsWhitespace))
  }

  /** What `TreeMap::parse` builds from the file contents. */
  function ParsedMap(content: string): Result<TreeMap, TreeMapError> {
    var chunks := Chunks(content);
    match LineLengthOf(chunks)
    case None => Err(MissingLineLength)
    case Some(n) => Ok(TreeMap(|chunks|, n, RowsData(chunks)))
  }

  /** The inner loop of `parse`: one cell per character of the trimmed buffer. */
  method PushRow(data: seq<bool>, buffer: string) returns (r: seq<bool>)
    ensures r == data + TreeRow(TrimEndWhile(buffer, IsWhitespace))
  {
    var trimmed := TrimEndWhile(buffer, IsWhitespace);
    r := data;
    for i := 0 to |trimmed|
      invariant r == data + TreeRow(trimmed[..i])
    {
      r := r + [trimmed[i] == '#'];
    }
    assert trimmed[..|trimmed|] == trimmed;
  }

  /** Reading from `pos` yields the next buffer followed by the rest of the buffers. */
  lemma ChunksFrom(content: string, pos: nat)
    requires pos < |content|
    ensures Chunks(content[pos..]) == [content[pos..ReadLine(content, pos)]] + Chunks(content[ReadLine(content, pos)..])
  {
    var rest := content[pos..];
    var next := ReadLine(content, pos);
    ReadLineShift(content, pos);
    ChunksUnfold(rest);
    assert rest[..next - pos] == content[pos..next];
    assert rest[next - pos..] == content[next..];
  }

  /** Reading a suffix from its start finds the same line end. */
  lemma ReadLineShift(content: string, pos: nat)
    requires pos < |content|
    ensures ReadLine(content[pos..], 0) == ReadLine(content, pos) - pos
  {
    assert content[pos..][0..] == content[pos..];
  }

  /** The buffers of a non-empty text: the first, then those of the rest. */
  lemma ChunksUnfold(s: string)
    requires s != []
    ensures Chunks(s) == [s[..ReadLine(s, 0)]] + Chunks(s[ReadLine(s, 0)..])
  {
  }

  /** The loop of `parse` moves one buffer from the unread to the read ones. */
  lemma ChunksStep(content: string, pos: nat, done: seq<string>)
    requires pos < |content| && Chunks(content) == done + Chunks(content[pos..])
    ensures var next := ReadLine(content, pos);
      Chunks(content) == (done + [content[pos..next]]) + Chunks(content[next..])
  {
    ChunksFrom(content, pos);
    var next := ReadLine(content, pos);
    assert done + ([content[pos..next]] + Chunks(content[next..])) == (done + [content[pos..next]]) + Chunks(content[next..]);
  }

  /** The line length the first buffer gives, once there is one. */
  function LineLengthOf(chunks: seq<string>): Option<int> {
    if chunks == [] then None else Some(Utf8Length(chunks[0]) - 1)
  }

  /**
   * The line length after reading `chunk`: when none is set yet, the chunk's
   * byte count minus one; otherwise the one already set.
   */
  function FirstSet(lineLength: Option<int>, chunk: string): Option<int> {
    if lineLength.None? then Some(Utf8Length(chunk) - 1) else lineLength
  }

  /** Only the first buffer read sets the line length. */
  lemma LineLengthSnoc(chunks: seq<string>, chunk: string)
    ensures LineLengthOf(chunks + [chunk]) == FirstSet(LineLengthOf(chunks), chunk)
  {
    assert (chunks + [chunk])[0] == if chunks == [] then chunk else chunks[0];
  }

  lemma RowsDataSnoc(chunks: seq<string>, chunk: string)
    ensures RowsData(chunks + [chunk]) == RowsData(chunks) + TreeRow(TrimEndWhile(chunk, IsWhitespace))
  {
    assert (chunks + [chunk])[..|chunks|] == chunks;
  }

  /**
   * `TreeMap::parse`: reads buffer after buffer until end of file, takes the
   * line length from the first buffer's byte count minus one, pushes one cell
   * per character of each trimmed buffer and counts the buffers; an empty
   * file has no line length.
   */
  method Parse(content: string) returns (r: Result<TreeMap, TreeMapError>)
    ensures r == ParsedMap(content)
  {
    var data: seq<bool> := [];
    var lineLength: Option<int> := None;
    var lines: nat := 0;
    var pos := 0;
    ghost var done: seq<string> := [];
    while pos < |content|
      invariant pos <= |content|
      invariant Chunks(content) == done + Chunks(content[pos..])
      invariant lines == |done| && data == RowsData(done)
      invariant lineLength == LineLengthOf(done)
      decreases |content| - pos
    {
      var next := ReadLine(content, pos);
      var buffer := content[pos..next];
      ChunksStep(content, pos, done);
      ghost var read := done + [buffer];
      LineLengthSnoc(done, buffer);
      lineLength := FirstSet(lineLength, buffer);
      RowsDataSnoc(done, buffer);
      data := PushRow(data, buffer);
      assert data == RowsData(read);
      lines := lines + 1;
      done := read;
      pos := next;
    }
    assert content[pos..] == [];
    assert done == Chunks(content);
    match lineLength
    case None =>
      r := Err(MissingLineLength);
    case Some(n) =>
      r := Ok(TreeMap(lines, n, data));
  }

  /** Only an empty file fails to parse. */
  lemma ParseFailsIff(content: string)
    ensures ParsedMap(content).Err? <==> content == []
  {
  }

  /* ---------------------------------------------------------------- */
  /* A well-formed map file                                            */
  /* ---------------------------------------------------------------- */

  /** A row of the map file: only `.` and `#`. */
  predicate MapRow(row: string) {
    forall i :: 0 <= i < |row| ==> row[i] == '.' || row[i] == '#'
  }

  /** The file holding `rows`, each ended by a newline. */
  function MapFile(rows: seq<string>): string {
    if rows == [] then [] else rows[0] + "\n" + MapFile(rows[1..])
  }

  /** The buffers read from a map file are its rows, each with its newline. */
  lemma MapFileChunks(rows: seq<string>)
    requires forall k :: 0 <= k < |rows| ==> MapRow(rows[k])
    ensures |Chunks(MapFile(rows))| == |rows|
    ensures forall k :: 0 <= k < |rows| ==> Chunks(MapFile(rows))[k] == rows[k] + "\n"
  {
    MapFileBuffers(rows);
    WithNewlinesIndex(rows);
  }

  /** Each row followed by a newline. */
  function WithNewlines(rows: seq<string>): seq<string> {
    if rows == [] then [] else [rows[0] + "\n"] + WithNewlines(rows[1..])
  }

  lemma {:induction false} WithNewlinesIndex(rows: seq<string>)
    ensures |WithNewlines(rows)| == |rows|
    ensures forall k :: 0 <= k < |rows| ==> WithNewlines(rows)[k] == rows[k] + "\n"
  {
    if rows != [] {
      WithNewlinesIndex(rows[1..]);
      assert forall k :: 1 <= k < |rows| ==> rows[k] == rows[1..][k - 1];
    }
  }

  lemma {:induction false} MapFileBuffers(rows: seq<string>)
    requires forall k :: 0 <= k < |rows| ==> MapRow(rows[k])
    ensures Chunks(MapFile(rows)) == WithNewlines(rows)
  {
    if rows != [] {
      assert MapRow(rows[0]);
      MapRowChunk(rows[0], MapFile(rows[1..]));
      assert forall k :: 0 <= k < |rows[1..]| ==> rows[1..][k] == rows[k + 1];
      MapFileBuffers(rows[1..]);
    }
  }

  /** A map row and its newline are read as one buffer. */
  lemma MapRowChunk(row: string, rest: string)
    requires MapRow(row)
    ensures Chunks(row + "\n" + rest) == [row + "\n"] + Chunks(rest)
  {
    var content := row + "\n" + rest;
    assert content[..|row|] == row;
    assert content[|row|] == '\n';
    IndexOfIs(content, '\n', |row|);
    assert content[0..] == content;
    assert ReadLine(content, 0) == |row| + 1;
    assert content[..|row| + 1] == row + "\n";
    assert content[|row| + 1..] == rest;
    ChunksUnfold(content);
  }

  /** An ASCII string encodes to one byte per character. */
  lemma {:induction false} Utf8LenMapRow(row: string)
    requires MapRow(row)
    ensures Utf8Length(row + "\n") == |row| + 1
    decreases |row|
  {
    if row != [] {
      assert (row + "\n")[1..] == row[1..] + "\n";
      Utf8LenMapRow(row[1..]);
    }
  }

  /** Trimming a row's buffer leaves the row. */
  lemma TrimMapRow(row: string)
    requires MapRow(row)
    ensures TrimEndWhile(row + "\n", IsWhitespace) == row
  {
    var s := row + "\n";
    var r := TrimEndWhile(s, IsWhitespace);
    assert r != [] ==> r[|r| - 1] == s[|r| - 1];
  }

  /** The cells of the rows of a map, one row after the other. */
  function GridCells(rows: seq<string>): seq<bool>
    decreases |rows|
  {
    if rows == [] then [] else GridCells(rows[..|rows| - 1]) + TreeRow(rows[|rows| - 1])
  }

  /** The cells pushed for a map file's buffers are the rows' cells. */
  lemma {:induction false} RowsDataMapRows(chunks: seq<string>, rows: seq<string>)
    requires |chunks| == |rows|
    requires forall k :: 0 <= k < |rows| ==> MapRow(rows[k]) && chunks[k] == rows[k] + "\n"
    ensures RowsData(chunks) == GridCells(rows)
    decreases |rows|
  {
    if rows != [] {
      var n := |rows| - 1;
      assert forall k :: 0 <= k < n ==> rows[..n][k] == rows[k] && chunks[..n][k] == chunks[k];
      RowsDataMapRows(chunks[..n], rows[..n]);
      TrimMapRow(rows[n]);
      assert RowsData(chunks) == RowsData(chunks[..n]) + TreeRow(TrimEndWhile(chunks[n], IsWhitespace));
    }
  }

  /**
   * Parsing a map file of rows of one width `w` gives one line per row, line
   * length `w` and the rows' cells.
   */
  lemma ParseMapFile(rows: seq<string>, width: nat)
    requires |rows| > 0
    requires forall k :: 0 <= k < |rows| ==> MapRow(rows[k]) && |rows[k]| == width
    ensures ParsedMap(MapFile(rows)) == Ok(TreeMap(|rows|, width, GridCells(rows)))
  {
    MapFileChunks(rows);
    var chunks := Chunks(MapFile(rows));
    Utf8LenMapRow(rows[0]);
    RowsDataMapRows(chunks, rows);
  }

  /** `y * w + x` lies in the first `n` rows of width `w` when `y < n` and `x < w`. */
  lemma CellInRows(n: nat, width: nat, y: nat, x: nat)
    requires y < n && x < width
    ensures y * width + x < n * width
  {
    assert (y + 1) * width <= n * width;
  }

  /** Equally wide rows give `width` cells per row. */
  lemma {:induction false} GridCellsLength(rows: seq<string>, width: nat)
    requires forall k :: 0 <= k < |rows| ==> |rows[k]| == width
    ensures |GridCells(rows)| == |rows| * width
    decreases |rows|
  {
    if rows != [] {
      var n := |rows| - 1;
      GridCellsLength(rows[..n], width);
      assert (n + 1) * width == n * width + width;
    }
  }

  /** Row `y`, column `x` of equally wide rows is cell `y * width + x`. */
  lemma {:induction false} GridCellsIndex(rows: seq<string>, width: nat, y: nat, x: nat)
    requires forall k :: 0 <= k < |rows| ==> |rows[k]| == width
    requires y < |rows| && x < width
    ensures y * width + x < |GridCells(rows)|
    ensures GridCells(rows)[y * width + x] <==> rows[y][x] == '#'
    decreases |rows|
  {
    var n := |rows| - 1;
    var init := rows[..n];
    GridCellsLength(rows, width);
    GridCellsLength(init, width);
    var i := y * width + x;
    CellInRows(|rows|, width, y, x);
    assert GridCells(rows) == GridCells(init) + TreeRow(rows[n]);
    if y < n {
      GridCellsIndex(init, width, y, x);
    } else {
      assert i - |GridCells(init)| == x;
    }
  }

  /* ---------------------------------------------------------------- */
  /* Looking up a position                                             */
  /* ---------------------------------------------------------------- */

  /** The index `get_position` reads: the row's start plus the column wrapped to the line length. */
  function CellIndex(m: TreeMap, x: nat, y: nat): int
    requires m.lineLength > 0
  {
    y * m.lineLength + x % m.lineLength
  }

  /**
   * `get_position`: rows at or past `lines` are the end of the map, columns
   * wrap modulo the line length (which must not be 0, or the remainder
   * panics), and an index past the data is also the end of the map.
   */
  function GetPosition(m: TreeMap, x: nat, y: nat): (r: Result<bool, TreeMapError>)
    requires y < m.lines ==> m.lineLength > 0
    ensures r.Err? ==> r.error == EndOfMap
    ensures r.Ok? <==> y < m.lines && CellIndex(m, x, y) < |m.data|
    ensures r.Ok? ==> r.value == m.data[CellIndex(m, x, y)]
  {
    if y >= m.lines then Err(EndOfMap)
    else
      var idx := CellIndex(m, x, y);
      if idx < |m.data| then Ok(m.data[idx]) else Err(EndOfMap)
  }

  /** The map repeats to the right: moving a whole line length right changes nothing. */
  lemma GetPositionWraps(m: TreeMap, x: nat, y: nat)
    requires m.lineLength > 0
    ensures GetPosition(m, x + m.lineLength, y) == GetPosition(m, x, y)
  {
    ModAddDivisor(x, m.lineLength);
  }

  /** On a parsed map file, the position is the file's cell at the column wrapped to the width. */
  lemma GetPositionMapFile(rows: seq<string>, width: nat, x: nat, y: nat)
    requires |rows| > 0 && width > 0
    requires forall k :: 0 <= k < |rows| ==> MapRow(rows[k]) && |rows[k]| == width
    ensures var m := TreeMap(|rows|, width, GridCells(rows));
      GetPosition(m, x, y) == if y < |rows| then Ok(rows[y][x % width] == '#') else Err(EndOfMap)
  {
    if y < |rows| {
      GridCellsIndex(rows, width, y, x % width);
      CellInRows(|rows|, width, y, x % width);
    }
  }

  /* ---------------------------------------------------------------- */
  /* Counting trees                                                    */
  /* ---------------------------------------------------------------- */

  /** The trees met from `(x, y)` on, moving by the slope until `get_position` fails. */
  function TreesFrom(m: TreeMap, right: nat, down: nat, x: nat, y: nat): nat
    requires m.lineLength > 0 && down > 0
    decreases m.lines - y
  {
    match GetPosition(m, x, y)
    case Err(_) => 0
    case Ok(tree) => (if tree then 1 else 0) + TreesFrom(m, right, down, x + right, y + down)
  }

  /**
   * The loop of `main` for a slope (`main` uses 3 right, 1 down): count the
   * trees until `get_position` fails.
   */
  method CountTrees(m: TreeMap, right: nat, down: nat) returns (treeCounter: nat)
    requires m.lineLength > 0 && down > 0
    ensures treeCounter == TreesFrom(m, right, down, 0, 0)
  {
    treeCounter := 0;
    var x: nat, y: nat := 0, 0;
    while GetPosition(m, x, y).Ok?
      invariant treeCounter + TreesFrom(m, right, down, x, y) == TreesFrom(m, right, down, 0, 0)
      decreases m.lines - y
    {
      if GetPosition(m, x, y).value {
        treeCounter := treeCounter + 1;
      }
      x, y := x + right, y + down;
    }
  }

  /** The trees of a well-formed map on the rows `y, y + 1, ...`, at column `3y` wrapped to the width. */
  function SlopeTrees(rows: seq<string>, width: nat, y: nat): nat
    requires width > 0
    requires forall k :: 0 <= k < |rows| ==> |rows[k]| == width
    decreases |rows| - y
  {
    if y >= |rows| then 0
    else (if rows[y][(3 * y) % width] == '#' then 1 else 0) + SlopeTrees(rows, width, y + 1)
  }

  /**
   * On a parsed map file, the count of `main` (slope 3 right, 1 down) is the
   * number of rows `y` with a tree at column `3y` modulo the width.
   */
  lemma {:induction false} TreesFromMapFile(rows: seq<string>, width: nat, y: nat)
    requires |rows| > 0 && width > 0
    requires forall k :: 0 <= k < |rows| ==> MapRow(rows[k]) && |rows[k]| == width
    ensures TreesFrom(TreeMap(|rows|, width, GridCells(rows)), 3, 1, 3 * y, y) == SlopeTrees(rows, width, y)
    decreases |rows| - y
  {
    GetPositionMapFile(rows, width, 3 * y, y);
    if y < |rows| {
      assert 3 * (y + 1) == 3 * y + 3;
      TreesFromMapFile(rows, width, y + 1);
    }
  }
}
