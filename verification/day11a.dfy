/**
 * Day 11, part one: a waiting area of floor `.`, empty seats `L` and
 * occupied seats `#` changes in rounds. Every change of a round is decided
 * from the layout as it was before the round: an empty seat with no
 * occupied seat among the places adjacent to it becomes occupied, an
 * occupied seat with four or more occupied neighbours becomes empty, and
 * floor never changes. The rounds stop at the first one that changes
 * nothing, and the answer is the number of occupied seats.
 *
 * The layout is stored row after row in one array; `lineLength` is the
 * width of a row. The pieces that part two shares (the places, reading a
 * layout, the rule and the round) are defined here once.
 */
module Day11a {
  import opened Common

  datatype GridPlace = Floor | EmptySeat | OccupiedSeat

  datatype ParseError = InvalidGridPlace(text: string) | EncodingError

  /* ---------------------------------------------------------------- */
  /* Places and reading a layout                                       */
  /* ---------------------------------------------------------------- */

  /** `GridPlace::from_str`: ".", "L" and "#" are places, any other text is refused with that text. */
  function ParsePlace(s: string): (r: Result<GridPlace, ParseError>)
    ensures r.Ok? <==> s == "." || s == "L" || s == "#"
    ensures r.Err? ==> r.error == InvalidGridPlace(s)
  {
    if s == "." then Ok(Floor)
    else if s == "L" then Ok(EmptySeat)
    else if s == "#" then Ok(OccupiedSeat)
    else Err(InvalidGridPlace(s))
  }

  /** `Display for GridPlace`: one character per place. */
  function ShowPlace(p: GridPlace): (s: string)
    ensures |s| == 1 && !IsWhitespace(s[0])
  {
    match p
    case Floor => "."
    case EmptySeat => "L"
    case OccupiedSeat => "#"
  }

  /** Displaying a place and parsing the text gives the place back. */
  lemma ParseShowPlace(p: GridPlace)
    ensures ParsePlace(ShowPlace(p)) == Ok(p)
  {
  }

  /** Every text that parses is the display of what it parses to. */
  lemma ShowParsePlace(s: string)
    requires ParsePlace(s).Ok?
    ensures ShowPlace(ParsePlace(s).value) == s
  {
  }

  /**
   * One character as `SeatLayout::parse` reads it: the character is cut to
   * its low byte (`char as u8`), a byte of 0x80 or more is not a UTF-8
   * string, and the one-byte string is parsed as a place.
   */
  function ParseChar(c: char): (r: Result<GridPlace, ParseError>)
    ensures (c as int) < 128 ==> r == ParsePlace([c])
    ensures (c as int) % 256 >= 128 ==> r == Err(EncodingError)
  {
    var b := (c as int) % 256;
    if b >= 128 then Err(EncodingError) else ParsePlace([b as char])
  }

  /** The places of one trimmed line, failing at its first character that is not a place. */
  function ParseRow(s: string): (r: Result<seq<GridPlace>, ParseError>)
    ensures r.Ok? ==> |r.value| == |s|
  {
    if s == [] then Ok([])
    else
      match ParseChar(s[0])
      case Err(e) => Err(e)
      case Ok(p) =>
        match ParseRow(s[1..])
        case Err(e) => Err(e)
        case Ok(ps) => Ok([p] + ps)
  }

  /** The text of a row of places, one character each. */
  function ShowRow(ps: seq<GridPlace>): (s: string)
    ensures |s| == |ps|
    ensures forall k :: 0 <= k < |s| ==> !IsWhitespace(s[k])
  {
    if ps == [] then [] else ShowPlace(ps[0]) + ShowRow(ps[1..])
  }

  /** Reading the text of a row gives the row back. */
  lemma {:induction false} ParseShowRow(ps: seq<GridPlace>)
    ensures ParseRow(ShowRow(ps)) == Ok(ps)
  {
    if ps != [] {
      var s := ShowRow(ps);
      ParseShowPlace(ps[0]);
      assert s[0] == ShowPlace(ps[0])[0] && s[1..] == ShowRow(ps[1..]);
      ParseShowRow(ps[1..]);
      assert [ps[0]] + ps[1..] == ps;
    }
  }

  /** The places of the lines: blank lines are skipped, the others trimmed and read in order. */
  function ParseLines(lines: seq<string>): (r: Result<seq<GridPlace>, ParseError>)
  {
    if lines == [] then Ok([])
    else
      var line := Trim(lines[0]);
      if line == [] then ParseLines(lines[1..])
      else
        match ParseRow(line)
        case Err(e) => Err(e)
        case Ok(ps) =>
          match ParseLines(lines[1..])
          case Err(e) => Err(e)
          case Ok(rest) => Ok(ps + rest)
  }

  /** The character count of the first line that is not blank once trimmed, 0 when there is none. */
  function FirstLength(lines: seq<string>): nat {
    if lines == [] then 0
    else if Trim(lines[0]) == [] then FirstLength(lines[1..])
    else |Trim(lines[0])|
  }

  /** `SeatLayout::parse` over the lines read: the line length and the places of all lines, row after row. */
  function ParseLayout(lines: seq<string>): (r: Result<(nat, seq<GridPlace>), ParseError>)
    ensures r.Ok? <==> ParseLines(lines).Ok?
  {
    match ParseLines(lines)
    case Err(e) => Err(e)
    case Ok(data) => Ok((FirstLength(lines), data))
  }

  /** The rows concatenated. */
  function Flatten(rows: seq<seq<GridPlace>>): seq<GridPlace> {
    if rows == [] then [] else rows[0] + Flatten(rows[1..])
  }

  /** Rows of equal, non-zero width written one per line read back as that width and the places in order. */
  lemma {:induction false} ParseShowLayout(rows: seq<seq<GridPlace>>, width: nat)
    requires width > 0 && forall k :: 0 <= k < |rows| ==> |rows[k]| == width
    ensures var lines := seq(|rows|, k requires 0 <= k < |rows| => ShowRow(rows[k]));
      ParseLayout(lines) == Ok((if rows == [] then 0 else width, Flatten(rows)))
  {
    var lines := seq(|rows|, k requires 0 <= k < |rows| => ShowRow(rows[k]));
    ParseShowLines(rows, width);
    if rows != [] {
      TrimUnchanged(lines[0]);
    }
  }

  lemma {:induction false} ParseShowLines(rows: seq<seq<GridPlace>>, width: nat)
    requires width > 0 && forall k :: 0 <= k < |rows| ==> |rows[k]| == width
    ensures var lines := seq(|rows|, k requires 0 <= k < |rows| => ShowRow(rows[k]));
      ParseLines(lines) == Ok(Flatten(rows))
  {
    var lines := seq(|rows|, k requires 0 <= k < |rows| => ShowRow(rows[k]));
    if rows != [] {
      var line := lines[0];
      TrimUnchanged(line);
      ParseShowRow(rows[0]);
      assert lines[1..] == seq(|rows[1..]|, k requires 0 <= k < |rows[1..]| => ShowRow(rows[1..][k]));
      ParseShowLines(rows[1..], width);
    }
  }

  /* ---------------------------------------------------------------- */
  /* Positions                                                         */
  /* ---------------------------------------------------------------- */

  /** `Point` of part one: unsigned column and row. */
  datatype Point = Point(x: nat, y: nat)

  /**
   * `get_position`: nothing at or past the end of a row; otherwise the place
   * at index `y * line_length + x % line_length`, if the data reaches it.
   */
  function Place(ll: nat, g: seq<GridPlace>, x: nat, y: nat): (r: Option<GridPlace>)
    ensures r.Some? <==> x < ll && y * ll + x < |g|
    ensures r.Some? ==> r.value == g[y * ll + x]
  {
    if x >= ll then None
    else
      assert x % ll == x;
      var idx := y * ll + x % ll;
      if idx < |g| then Some(g[idx]) else None
  }

  /** The index `get_position_mut` writes for a position. */
  function Index(ll: nat, p: Point): nat
    requires ll > 0
  {
    p.y * ll + p.x % ll
  }

  /** A position that names a place of a grid of `size` places. */
  predicate InGrid(ll: nat, size: nat, p: Point) {
    p.x < ll && Index(ll, p) < size
  }

  /** The position the iterator gives the place at index `i`: column `i % ll` of row `i / ll`. */
  function PositionOf(ll: nat, i: nat): (p: Point)
    requires ll > 0
    ensures p.x < ll && p.y * ll + p.x == i
  {
    DivModIndex(ll, i);
    Point(i % ll, i / ll)
  }

  /** The position the iterator gives the place at index `i` is that of the place: `get_position` finds it there. */
  lemma PlaceOfIndex(ll: nat, g: seq<GridPlace>, i: nat)
    requires ll > 0 && i < |g|
    ensures Place(ll, g, PositionOf(ll, i).x, PositionOf(ll, i).y) == Some(g[i])
    ensures InGrid(ll, |g|, PositionOf(ll, i)) && Index(ll, PositionOf(ll, i)) == i
  {
    DivModIndex(ll, i);
  }

  lemma DivModIndex(ll: nat, i: nat)
    requires ll > 0
    ensures (i / ll) * ll + i % ll == i && i % ll < ll && (i % ll) % ll == i % ll
  {
  }

  /* ---------------------------------------------------------------- */
  /* Adjacent places                                                   */
  /* ---------------------------------------------------------------- */

  /** The offsets the nested loops of `get_adjacent_positions` visit: the column offset changes fastest. */
  function Offsets(): (r: seq<(int, int)>)
    ensures |r| == 9
  {
    [(-1, -1), (0, -1), (1, -1), (-1, 0), (0, 0), (1, 0), (-1, 1), (0, 1), (1, 1)]
  }

  /** Offset (dx, dy) comes at position 3 * (dy + 1) + (dx + 1). */
  lemma OffsetAt(dx: int, dy: int)
    requires -1 <= dx <= 1 && -1 <= dy <= 1
    ensures 0 <= 3 * (dy + 1) + (dx + 1) < 9 && Offsets()[3 * (dy + 1) + (dx + 1)] == (dx, dy)
  {
  }

  /** Every offset moves at most one column and one row. */
  lemma OffsetsInRange()
    ensures forall k :: 0 <= k < 9 ==> -1 <= Offsets()[k].0 <= 1 && -1 <= Offsets()[k].1 <= 1
  {
  }

  lemma OffsetsSorted()
    ensures forall i, j :: 0 <= i < j < 9 ==> OffsetBefore(Offsets()[i], Offsets()[j])
  {
  }

  /**
   * The cell one offset names: kept when neither coordinate goes below zero
   * (the checked subtraction), it is not the cell itself and the grid has a
   * place there.
   */
  function CellAt(ll: nat, g: seq<GridPlace>, x: nat, y: nat, d: (int, int)): (r: seq<Point>)
    ensures forall k :: 0 <= k < |r| ==> Place(ll, g, r[k].x, r[k].y).Some?
  {
    if x + d.0 >= 0 && y + d.1 >= 0 && d != (0, 0) && Place(ll, g, x + d.0, y + d.1).Some?
    then [Point(x + d.0, y + d.1)]
    else []
  }

  /** The cells the offsets name, in the offsets' order. */
  function CellsFrom(ll: nat, g: seq<GridPlace>, x: nat, y: nat, offsets: seq<(int, int)>): (r: seq<Point>)
    ensures forall k :: 0 <= k < |r| ==> Place(ll, g, r[k].x, r[k].y).Some?
  {
    if offsets == [] then []
    else CellsFrom(ll, g, x, y, offsets[..|offsets| - 1]) + CellAt(ll, g, x, y, offsets[|offsets| - 1])
  }

  /** One more offset adds the cell it names, if any. */
  lemma CellsStep(ll: nat, g: seq<GridPlace>, x: nat, y: nat, offs: seq<(int, int)>, k: nat)
    requires k < |offs|
    ensures CellsFrom(ll, g, x, y, offs[..k + 1]) == CellsFrom(ll, g, x, y, offs[..k]) + CellAt(ll, g, x, y, offs[k])
  {
    assert offs[..k + 1][..k] == offs[..k];
  }

  /** The place found at offset (dx, dy) extends the places of the offsets before it. */
  lemma PlacesStep(ll: nat, g: seq<GridPlace>, x: nat, y: nat, offs: seq<(int, int)>, dx: int, dy: int, found: seq<GridPlace>)
    requires offs == Offsets() && -1 <= dx <= 1 && -1 <= dy <= 1
    requires found == PlacesAt(ll, g, CellAt(ll, g, x, y, (dx, dy)))
    ensures 0 <= 3 * (dy + 1) + (dx + 1) < 9
    ensures PlacesAt(ll, g, CellsFrom(ll, g, x, y, offs[..3 * (dy + 1) + (dx + 1) + 1]))
      == PlacesAt(ll, g, CellsFrom(ll, g, x, y, offs[..3 * (dy + 1) + (dx + 1)])) + found
  {
    var k := 3 * (dy + 1) + (dx + 1);
    OffsetAt(dx, dy);
    CellsStep(ll, g, x, y, offs, k);
    PlacesAtAppend(ll, g, CellsFrom(ll, g, x, y, offs[..k]), CellAt(ll, g, x, y, (dx, dy)));
  }

  /** The places at the given cells. */
  function PlacesAt(ll: nat, g: seq<GridPlace>, cells: seq<Point>): (r: seq<GridPlace>)
    requires forall k :: 0 <= k < |cells| ==> Place(ll, g, cells[k].x, cells[k].y).Some?
    ensures |r| == |cells|
  {
    seq(|cells|, k requires 0 <= k < |cells| => Place(ll, g, cells[k].x, cells[k].y).value)
  }

  lemma PlacesAtAppend(ll: nat, g: seq<GridPlace>, cells: seq<Point>, more: seq<Point>)
    requires forall k :: 0 <= k < |cells| ==> Place(ll, g, cells[k].x, cells[k].y).Some?
    requires forall k :: 0 <= k < |more| ==> Place(ll, g, more[k].x, more[k].y).Some?
    ensures PlacesAt(ll, g, cells + more) == PlacesAt(ll, g, cells) + PlacesAt(ll, g, more)
  {
  }

  function AdjacentCells(ll: nat, g: seq<GridPlace>, x: nat, y: nat): seq<Point> {
    CellsFrom(ll, g, x, y, Offsets())
  }

  /** What `get_adjacent_positions` returns: the places of the adjacent cells. */
  function AdjacentPlaces(ll: nat, g: seq<GridPlace>, x: nat, y: nat): seq<GridPlace> {
    PlacesAt(ll, g, AdjacentCells(ll, g, x, y))
  }

  /** A cell in the 3x3 block around (x, y) other than (x, y) itself. */
  predicate Near(x: nat, y: nat, c: Point) {
    c != Point(x, y) && x - 1 <= c.x <= x + 1 && y - 1 <= c.y <= y + 1
  }

  /** Row-major order of cells. */
  predicate Before(c: Point, d: Point) {
    c.y < d.y || (c.y == d.y && c.x < d.x)
  }

  /** Row-major order of offsets. */
  predicate OffsetBefore(a: (int, int), b: (int, int)) {
    a.1 < b.1 || (a.1 == b.1 && a.0 < b.0)
  }

  lemma {:induction false} CellsFromHas(ll: nat, g: seq<GridPlace>, x: nat, y: nat, offsets: seq<(int, int)>, c: Point)
    ensures c in CellsFrom(ll, g, x, y, offsets)
        <==> exists k :: 0 <= k < |offsets| && CellAt(ll, g, x, y, offsets[k]) == [c]
  {
    if offsets != [] {
      var init := offsets[..|offsets| - 1];
      CellsFromHas(ll, g, x, y, init, c);
      if exists k :: 0 <= k < |offsets| && CellAt(ll, g, x, y, offsets[k]) == [c] {
        var k :| 0 <= k < |offsets| && CellAt(ll, g, x, y, offsets[k]) == [c];
        if k < |init| {
          assert init[k] == offsets[k];
        }
      }
      if c in CellsFrom(ll, g, x, y, init) {
        var k :| 0 <= k < |init| && CellAt(ll, g, x, y, init[k]) == [c];
        assert offsets[k] == init[k];
      }
    }
  }

  lemma {:induction false} CellsFromAppend(ll: nat, g: seq<GridPlace>, x: nat, y: nat, a: seq<(int, int)>, b: seq<(int, int)>)
    ensures CellsFrom(ll, g, x, y, a + b) == CellsFrom(ll, g, x, y, a) + CellsFrom(ll, g, x, y, b)
    decreases |b|
  {
    if b == [] {
      assert a + b == a;
    } else {
      var b' := b[..|b| - 1];
      assert (a + b)[..|a + b| - 1] == a + b';
      CellsFromAppend(ll, g, x, y, a, b');
    }
  }

  lemma {:induction false} CellsFromLength(ll: nat, g: seq<GridPlace>, x: nat, y: nat, offsets: seq<(int, int)>)
    ensures |CellsFrom(ll, g, x, y, offsets)| <= |offsets|
  {
    if offsets != [] {
      CellsFromLength(ll, g, x, y, offsets[..|offsets| - 1]);
    }
  }

  lemma {:induction false} CellsFromOrdered(ll: nat, g: seq<GridPlace>, x: nat, y: nat, offsets: seq<(int, int)>)
    requires forall i, j :: 0 <= i < j < |offsets| ==> OffsetBefore(offsets[i], offsets[j])
    ensures var cells := CellsFrom(ll, g, x, y, offsets);
      forall i, j :: 0 <= i < j < |cells| ==> Before(cells[i], cells[j])
  {
    if offsets != [] {
      var init, last := offsets[..|offsets| - 1], offsets[|offsets| - 1];
      var prev := CellsFrom(ll, g, x, y, init);
      CellsFromOrdered(ll, g, x, y, init);
      var cells := CellsFrom(ll, g, x, y, offsets);
      if CellAt(ll, g, x, y, last) != [] {
        var c := Point(x + last.0, y + last.1);
        forall i | 0 <= i < |prev|
          ensures Before(prev[i], c)
        {
          CellsFromHas(ll, g, x, y, init, prev[i]);
          var k :| 0 <= k < |init| && CellAt(ll, g, x, y, init[k]) == [prev[i]];
          assert OffsetBefore(offsets[k], offsets[|offsets| - 1]);
        }
        assert cells == prev + [c];
      }
    }
  }

  /** There are at most eight adjacent places: the offset (0, 0) never contributes. */
  lemma AdjacentCount(ll: nat, g: seq<GridPlace>, x: nat, y: nat)
    ensures |AdjacentPlaces(ll, g, x, y)| <= 8
  {
    CellsCount(ll, g, x, y, Offsets());
  }

  lemma CellsCount(ll: nat, g: seq<GridPlace>, x: nat, y: nat, offs: seq<(int, int)>)
    requires offs == Offsets()
    ensures |CellsFrom(ll, g, x, y, offs)| <= 8
  {
    var a, b := offs[..4], offs[5..];
    assert offs == (a + [(0, 0)]) + b;
    CellsFromAppend(ll, g, x, y, a + [(0, 0)], b);
    CellsFromAppend(ll, g, x, y, a, [(0, 0)]);
    CellsFromLength(ll, g, x, y, a);
    CellsFromLength(ll, g, x, y, b);
    assert [(0, 0)][..0] == [];
    assert CellAt(ll, g, x, y, (0, 0)) == [];
  }

  /** A cell is adjacent exactly when it lies in the 3x3 block around (x, y), is not (x, y) and is on the grid. */
  lemma AdjacentMembers(ll: nat, g: seq<GridPlace>, x: nat, y: nat, c: Point)
    ensures c in AdjacentCells(ll, g, x, y) <==> Near(x, y, c) && Place(ll, g, c.x, c.y).Some?
  {
    var offs := Offsets();
    CellsFromHas(ll, g, x, y, offs, c);
    if c in AdjacentCells(ll, g, x, y) {
      var k :| 0 <= k < |offs| && CellAt(ll, g, x, y, offs[k]) == [c];
      OffsetsInRange();
      var d := offs[k];
      assert -1 <= d.0 <= 1 && -1 <= d.1 <= 1;
      assert c == Point(x + d.0, y + d.1) && d != (0, 0);
    }
    if Near(x, y, c) && Place(ll, g, c.x, c.y).Some? {
      var d := (c.x - x, c.y - y);
      OffsetAt(d.0, d.1);
      assert x + d.0 == c.x && y + d.1 == c.y && d != (0, 0);
      assert CellAt(ll, g, x, y, d) == [c];
      assert offs[3 * (d.1 + 1) + (d.0 + 1)] == d;
    }
  }

  /** The adjacent cells come in row-major order, so none is counted twice. */
  lemma AdjacentOrdered(ll: nat, g: seq<GridPlace>, x: nat, y: nat)
    ensures var cells := AdjacentCells(ll, g, x, y);
      forall i, j :: 0 <= i < j < |cells| ==> Before(cells[i], cells[j])
  {
    OffsetsSorted();
    CellsFromOrdered(ll, g, x, y, Offsets());
    assert AdjacentCells(ll, g, x, y) == CellsFrom(ll, g, x, y, Offsets());
  }

  /* ---------------------------------------------------------------- */
  /* The seating rule and a round                                      */
  /* ---------------------------------------------------------------- */

  /**
   * The rule of `apply_seating_rules` for one place: an empty seat with no
   * occupied neighbour is taken, an occupied one with `limit` or more
   * occupied neighbours is left; None when the place stays as it is.
   */
  function Decide(place: GridPlace, occupied: nat, limit: nat): (r: Option<GridPlace>)
    ensures r == Some(OccupiedSeat) <==> place == EmptySeat && occupied == 0
    ensures r == Some(EmptySeat) <==> place == OccupiedSeat && occupied >= limit
    ensures r != Some(Floor)
  {
    match place
    case EmptySeat => if occupied == 0 then Some(OccupiedSeat) else None
    case OccupiedSeat => if occupied >= limit then Some(EmptySeat) else None
    case Floor => None
  }

  function Settle(place: GridPlace, occupied: nat, limit: nat): GridPlace {
    match Decide(place, occupied, limit)
    case Some(p) => p
    case None => place
  }

  /**
   * A round decided from the layout as it was: every place takes what the
   * rule gives it from its neighbour count `counts[i]` in the old layout.
   * Floor stays floor and no seat becomes floor.
   */
  function RoundWith(g: seq<GridPlace>, counts: seq<nat>, limit: nat): (r: seq<GridPlace>)
    requires |counts| == |g|
    ensures |r| == |g|
    ensures forall i :: 0 <= i < |g| ==> (r[i] == Floor <==> g[i] == Floor)
  {
    seq(|g|, i requires 0 <= i < |g| => Settle(g[i], counts[i], limit))
  }

  /** A round; with a line length of 0 the iterator visits nothing and nothing changes. */
  function Round(ll: nat, g: seq<GridPlace>, counts: seq<nat>, limit: nat): (r: seq<GridPlace>)
    requires |counts| == |g|
    ensures |r| == |g|
  {
    if ll == 0 then g else RoundWith(g, counts, limit)
  }

  /** Every position of a changeset names a place of a grid of `size` places. */
  predicate AllInGrid(ll: nat, size: nat, cs: seq<(Point, GridPlace)>)
    decreases |cs|
  {
    cs == [] || (AllInGrid(ll, size, cs[..|cs| - 1]) && InGrid(ll, size, cs[|cs| - 1].0))
  }

  /** Every prefix of a changeset in the grid is in the grid, and so is each of its positions. */
  lemma {:induction false} AllInGridPrefix(ll: nat, size: nat, cs: seq<(Point, GridPlace)>, n: nat)
    requires AllInGrid(ll, size, cs) && n <= |cs|
    ensures AllInGrid(ll, size, cs[..n])
    ensures n < |cs| ==> InGrid(ll, size, cs[n].0)
    decreases |cs|
  {
    if n == |cs| {
      assert cs[..n] == cs;
    } else {
      var front := cs[..|cs| - 1];
      AllInGridPrefix(ll, size, front, n);
      assert front[..n] == cs[..n];
      if n < |front| {
        assert front[n] == cs[n];
      }
    }
  }

  /** The changeset of the first `n` places in the iterator's order, each with its position and new place. */
  function ChangesUpTo(ll: nat, g: seq<GridPlace>, counts: seq<nat>, limit: nat, n: nat): (r: seq<(Point, GridPlace)>)
    requires ll > 0 && |counts| == |g| && n <= |g|
    ensures AllInGrid(ll, |g|, r)
  {
    if n == 0 then []
    else
      var i := n - 1;
      PlaceOfIndex(ll, g, i);
      var prev := ChangesUpTo(ll, g, counts, limit, i);
      match Decide(g[i], counts[i], limit)
      case Some(p) =>
        assert (prev + [(PositionOf(ll, i), p)])[..|prev|] == prev;
        prev + [(PositionOf(ll, i), p)]
      case None => prev
  }

  /** One more place adds its change, if the rule changes it. */
  lemma ChangesUpToStep(ll: nat, g: seq<GridPlace>, counts: seq<nat>, limit: nat, i: nat)
    requires ll > 0 && |counts| == |g| && i < |g|
    ensures var d := Decide(g[i], counts[i], limit);
      ChangesUpTo(ll, g, counts, limit, i + 1)
        == ChangesUpTo(ll, g, counts, limit, i) + if d.Some? then [(PositionOf(ll, i), d.value)] else []
  {
  }

  /** The changeset a round collects before it writes anything. */
  function Changes(ll: nat, g: seq<GridPlace>, counts: seq<nat>, limit: nat): (r: seq<(Point, GridPlace)>)
    requires |counts| == |g|
    ensures AllInGrid(ll, |g|, r)
  {
    if ll == 0 then [] else ChangesUpTo(ll, g, counts, limit, |g|)
  }

  /** Writing the changes one after another, each at the index of its position. */
  function Overlay(ll: nat, g: seq<GridPlace>, cs: seq<(Point, GridPlace)>): (r: seq<GridPlace>)
    requires AllInGrid(ll, |g|, cs)
    ensures |r| == |g|
  {
    if cs == [] then g
    else
      var last := cs[|cs| - 1];
      Overlay(ll, g, cs[..|cs| - 1])[Index(ll, last.0) := last.1]
  }

  /** The first `n` places updated by the rule, the others as they were. */
  function PartialRound(g: seq<GridPlace>, counts: seq<nat>, limit: nat, n: nat): seq<GridPlace>
    requires |counts| == |g|
  {
    seq(|g|, j requires 0 <= j < |g| => if j < n then Settle(g[j], counts[j], limit) else g[j])
  }

  /** Updating one more place extends the partial round by that place's new value. */
  lemma PartialRoundStep(g: seq<GridPlace>, counts: seq<nat>, limit: nat, i: nat)
    requires |counts| == |g| && i < |g|
    ensures PartialRound(g, counts, limit, i + 1) == PartialRound(g, counts, limit, i)[i := Settle(g[i], counts[i], limit)]
    ensures Decide(g[i], counts[i], limit).None? ==> PartialRound(g, counts, limit, i + 1) == PartialRound(g, counts, limit, i)
  {
    var a, b := PartialRound(g, counts, limit, i), PartialRound(g, counts, limit, i + 1);
    assert forall j :: 0 <= j < |g| && j != i ==> a[j] == b[j];
  }

  lemma {:induction false} OverlayChangesUpTo(ll: nat, g: seq<GridPlace>, counts: seq<nat>, limit: nat, n: nat)
    requires ll > 0 && |counts| == |g| && n <= |g|
    ensures Overlay(ll, g, ChangesUpTo(ll, g, counts, limit, n)) == PartialRound(g, counts, limit, n)
  {
    if n == 0 {
      assert PartialRound(g, counts, limit, 0) == g;
    } else {
      var i := n - 1;
      var prev := ChangesUpTo(ll, g, counts, limit, i);
      OverlayChangesUpTo(ll, g, counts, limit, i);
      PlaceOfIndex(ll, g, i);
      PartialRoundStep(g, counts, limit, i);
      match Decide(g[i], counts[i], limit)
      case None => {
        assert ChangesUpTo(ll, g, counts, limit, n) == prev;
      }
      case Some(p) => {
        var cs := ChangesUpTo(ll, g, counts, limit, n);
        assert cs == prev + [(PositionOf(ll, i), p)];
        assert cs[..|cs| - 1] == prev;
      }
    }
  }

  /**
   * Collecting the changes first and then writing them in order gives the
   * round decided from the old layout: no write affects another decision.
   */
  lemma OverlayChanges(ll: nat, g: seq<GridPlace>, counts: seq<nat>, limit: nat)
    requires |counts| == |g|
    ensures Overlay(ll, g, Changes(ll, g, counts, limit)) == Round(ll, g, counts, limit)
  {
    if ll > 0 {
      OverlayChangesUpTo(ll, g, counts, limit, |g|);
      assert PartialRound(g, counts, limit, |g|) == RoundWith(g, counts, limit);
    }
  }

  lemma {:induction false} ChangesUpToEmpty(ll: nat, g: seq<GridPlace>, counts: seq<nat>, limit: nat, n: nat)
    requires ll > 0 && |counts| == |g| && n <= |g|
    ensures ChangesUpTo(ll, g, counts, limit, n) == [] <==> forall j :: 0 <= j < n ==> Decide(g[j], counts[j], limit).None?
  {
    if n > 0 {
      ChangesUpToEmpty(ll, g, counts, limit, n - 1);
    }
  }

  /** A round collects no change exactly when it leaves the layout as it is: the loop stops at a fixpoint and only there. */
  lemma FixpointIff(ll: nat, g: seq<GridPlace>, counts: seq<nat>, limit: nat)
    requires |counts| == |g|
    ensures Changes(ll, g, counts, limit) == [] <==> Round(ll, g, counts, limit) == g
  {
    if ll > 0 {
      ChangesUpToEmpty(ll, g, counts, limit, |g|);
      var r := Round(ll, g, counts, limit);
      if r == g {
        forall j | 0 <= j < |g|
          ensures Decide(g[j], counts[j], limit).None?
        {
          assert r[j] == g[j];
        }
      }
    }
  }

  /* ---------------------------------------------------------------- */
  /* Part one                                                          */
  /* ---------------------------------------------------------------- */

  /** For each place, the number of occupied places adjacent to it. */
  function AdjacentCounts(ll: nat, g: seq<GridPlace>): (r: seq<nat>)
    ensures |r| == |g|
  {
    seq(|g|, i requires 0 <= i < |g| =>
      if ll == 0 then 0 else Count(AdjacentPlaces(ll, g, PositionOf(ll, i).x, PositionOf(ll, i).y), OccupiedSeat))
  }

  /** The iterator's next place adds the change the rule decides from its adjacent places. */
  lemma AdjacentChangeStep(ll: nat, g: seq<GridPlace>, i: nat, pos: Point, place: GridPlace, newPlace: Option<GridPlace>)
    requires ll > 0 && i < |g| && pos == PositionOf(ll, i) && place == g[i]
    requires newPlace == Decide(place, Count(AdjacentPlaces(ll, g, pos.x, pos.y), OccupiedSeat), 4)
    ensures ChangesUpTo(ll, g, AdjacentCounts(ll, g), 4, i + 1)
      == ChangesUpTo(ll, g, AdjacentCounts(ll, g), 4, i) + if newPlace.Some? then [(pos, newPlace.value)] else []
  {
    ChangesUpToStep(ll, g, AdjacentCounts(ll, g), 4, i);
  }

  /** One round of part one: four occupied neighbours empty a seat. */
  function Step(ll: nat, g: seq<GridPlace>): (r: seq<GridPlace>)
    ensures |r| == |g|
  {
    Round(ll, g, AdjacentCounts(ll, g), 4)
  }

  /** The layout after `n` rounds. */
  function Rounds(ll: nat, g: seq<GridPlace>, n: nat): (r: seq<GridPlace>)
    ensures |r| == |g|
  {
    if n == 0 then g else Step(ll, Rounds(ll, g, n - 1))
  }

  /** The places a layout has at any cells are places of that layout. */
  lemma PlacesAtIn(ll: nat, g: seq<GridPlace>, cells: seq<Point>, p: GridPlace)
    requires forall k :: 0 <= k < |cells| ==> Place(ll, g, cells[k].x, cells[k].y).Some?
    ensures p in PlacesAt(ll, g, cells) ==> p in g
  {
    if p in PlacesAt(ll, g, cells) {
      var k :| 0 <= k < |cells| && PlacesAt(ll, g, cells)[k] == p;
      assert g[cells[k].y * ll + cells[k].x] == p;
    }
  }

  /** The first round from a layout without occupied seats fills every seat and keeps the floor. */
  lemma FirstRoundFillsSeats(ll: nat, g: seq<GridPlace>)
    requires ll > 0 && OccupiedSeat !in g
    ensures forall i :: 0 <= i < |g| ==> Step(ll, g)[i] == if g[i] == Floor then Floor else OccupiedSeat
  {
    forall i | 0 <= i < |g|
      ensures Step(ll, g)[i] == if g[i] == Floor then Floor else OccupiedSeat
    {
      var p := PositionOf(ll, i);
      PlacesAtIn(ll, g, AdjacentCells(ll, g, p.x, p.y), OccupiedSeat);
      assert AdjacentCounts(ll, g)[i] == 0;
    }
  }

  /** `SeatLayout`: the line length and the places, row after row, changed in place by the rounds. */
  class SeatLayout {
    const lineLength: nat
    const data: array<GridPlace>

    constructor(lineLength: nat, places: seq<GridPlace>)
      ensures this.lineLength == lineLength && data[..] == places && fresh(data)
    {
      this.lineLength := lineLength;
      data := new GridPlace[|places|](i requires 0 <= i < |places| => places[i]);
    }

    /** `get_adjacent_positions`: two nested loops over the offsets -1, 0 and 1, pushing each place found. */
    method AdjacentPositions(x: nat, y: nat) returns (result: seq<GridPlace>)
      ensures result == AdjacentPlaces(lineLength, data[..], x, y)
    {
      ghost var g := data[..];
      ghost var offs := Offsets();
      ghost var k: nat := 0;
      result := [];
      for offsetY := -1 to 2
        invariant k == 3 * (offsetY + 1)
        invariant result == PlacesAt(lineLength, g, CellsFrom(lineLength, g, x, y, offs[..k]))
      {
        for offsetX := -1 to 2
          invariant k == 3 * (offsetY + 1) + (offsetX + 1)
          invariant result == PlacesAt(lineLength, g, CellsFrom(lineLength, g, x, y, offs[..k]))
        {
          var found := OffsetPlace(x, y, offsetX, offsetY);
          PlacesStep(lineLength, g, x, y, offs, offsetX, offsetY, found);
          result, k := result + found, k + 1;
        }
      }
      assert offs[..9] == offs;
    }

    /** The body of the inner loop: the place at one offset, if the checked coordinates exist, differ from (x, y) and `get_position` finds a place. */
    method OffsetPlace(x: nat, y: nat, offsetX: int, offsetY: int) returns (found: seq<GridPlace>)
      ensures found == PlacesAt(lineLength, data[..], CellAt(lineLength, data[..], x, y, (offsetX, offsetY)))
    {
      found := [];
      // the checked subtraction fails below zero; the checked addition cannot overflow here
      if x + offsetX >= 0 && y + offsetY >= 0 {
        var pos := Point(x + offsetX, y + offsetY);
        if pos != Point(x, y) {
          var place := Place(lineLength, data[..], pos.x, pos.y);
          if place.Some? {
            found := [place.value];
          }
        }
      }
    }

    /** The filter-map over the iterator in `apply_seating_rules`: every change of a round, from the layout as it is. */
    method Changeset() returns (changes: seq<(Point, GridPlace)>)
      ensures changes == Changes(lineLength, data[..], AdjacentCounts(lineLength, data[..]), 4)
    {
      ghost var g := data[..];
      ghost var n: nat := 0;
      var it := new SeatLayoutIter(this);
      changes := [];
      while true
        invariant it.layout == this && it.idx == n <= |g| && data[..] == g
        invariant changes == if lineLength == 0 then [] else ChangesUpTo(lineLength, g, AdjacentCounts(lineLength, g), 4, n)
        decreases |g| - n
      {
        var next := it.Next();
        if next.None? {
          break;
        }
        var (pos, place) := next.value;
        var added := PlaceChange(g, changes, n, pos, place);
        changes, n := changes + added, n + 1;
      }
    }

    /** The body of the filter-map: the change the rule decides for the place at `pos`, if any, after the changes of the places before it. */
    method PlaceChange(ghost g: seq<GridPlace>, ghost before: seq<(Point, GridPlace)>, ghost i: nat, pos: Point, place: GridPlace)
      returns (added: seq<(Point, GridPlace)>)
      requires g == data[..] && lineLength > 0 && i < |g| && pos == PositionOf(lineLength, i) && place == g[i]
      requires before == ChangesUpTo(lineLength, g, AdjacentCounts(lineLength, g), 4, i)
      ensures before + added == ChangesUpTo(lineLength, g, AdjacentCounts(lineLength, g), 4, i + 1)
    {
      var adjacent := AdjacentPositions(pos.x, pos.y);
      var newPlace := Decide(place, Count(adjacent, OccupiedSeat), 4);
      AdjacentChangeStep(lineLength, g, i, pos, place, newPlace);
      added := if newPlace.Some? then [(pos, newPlace.value)] else [];
    }

    /** The writing loop of `apply_seating_rules`: each change is written through `get_position_mut`. */
    method ApplyChanges(changes: seq<(Point, GridPlace)>)
      requires AllInGrid(lineLength, data.Length, changes)
      modifies data
      ensures data[..] == Overlay(lineLength, old(data[..]), changes)
    {
      ghost var g := data[..];
      for k := 0 to |changes|
        invariant AllInGrid(lineLength, data.Length, changes[..k])
        invariant data[..] == Overlay(lineLength, g, changes[..k])
      {
        AllInGridPrefix(lineLength, data.Length, changes, k + 1);
        AllInGridPrefix(lineLength, data.Length, changes, k);
        var (pos, place) := changes[k];
        assert changes[..k + 1][..k] == changes[..k];
        data[Index(lineLength, pos)] := place;
      }
      assert changes[..|changes|] == changes;
    }

    /**
     * `apply_seating_rules`: rounds until one collects no change. The loop
     * of the source has no bound; here it runs at most `fuel` rounds and
     * `settled` says whether it stopped at a fixpoint.
     */
    method ApplySeatingRules(fuel: nat) returns (rounds: nat, settled: bool)
      modifies data
      ensures rounds <= fuel
      ensures data[..] == Rounds(lineLength, old(data[..]), rounds)
      ensures settled ==> Step(lineLength, data[..]) == data[..]
      ensures !settled ==> rounds == fuel
    {
      rounds, settled := 0, false;
      while rounds < fuel
        invariant rounds <= fuel
        invariant data[..] == Rounds(lineLength, old(data[..]), rounds)
      {
        var changes := Changeset();
        ghost var g := data[..];
        FixpointIff(lineLength, g, AdjacentCounts(lineLength, g), 4);
        if changes == [] {
          settled := true;
          return;
        }
        ApplyChanges(changes);
        OverlayChanges(lineLength, g, AdjacentCounts(lineLength, g), 4);
        rounds := rounds + 1;
      }
    }

    /** `count_occupied_seats`: the occupied places the iterator visits. */
    method CountOccupiedSeats() returns (n: nat)
      ensures n == if lineLength == 0 then 0 else Count(data[..], OccupiedSeat)
    {
      ghost var g := data[..];
      ghost var i: nat := 0;
      var it := new SeatLayoutIter(this);
      n := 0;
      while true
        invariant it.layout == this && it.idx == i <= |g| && data[..] == g
        invariant n == if lineLength == 0 then 0 else Count(g[..i], OccupiedSeat)
        decreases |g| - i
      {
        var next := it.Next();
        if next.None? {
          if lineLength > 0 {
            assert g[..i] == g;
          }
          break;
        }
        var (_, place) := next.value;
        assert g[..i + 1] == g[..i] + [place];
        if place == OccupiedSeat {
          n := n + 1;
        }
        i := i + 1;
      }
    }
  }

  /** `SeatLayoutIter`: walks the places in order with their positions. */
  class SeatLayoutIter {
    const layout: SeatLayout
    var idx: nat

    constructor(layout: SeatLayout)
      ensures this.layout == layout && idx == 0
    {
      this.layout := layout;
      idx := 0;
    }

    /** `next`: nothing when the line length is 0 or the places are used up; otherwise the next place and its position. */
    method Next() returns (r: Option<(Point, GridPlace)>)
      modifies this
      ensures layout.lineLength == 0 || old(idx) >= layout.data.Length ==> r == None && idx == old(idx)
      ensures layout.lineLength > 0 && old(idx) < layout.data.Length ==>
        && idx == old(idx) + 1
        && r == Some((PositionOf(layout.lineLength, old(idx)), layout.data[old(idx)]))
    {
      if layout.lineLength == 0 || idx >= layout.data.Length {
        return None;
      }
      var place := layout.data[idx];
      var pos := PositionOf(layout.lineLength, idx);
      idx := idx + 1;
      r := Some((pos, place));
    }
  }
}
