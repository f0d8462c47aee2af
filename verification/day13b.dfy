/**
 * Day 13, part two: the earliest timestamp at which every listed bus
 * departs at its offset in the list (bus `id` at offset `idx` departs at
 * `t + idx` when `id` divides `t + idx`).
 *
 * `find_earliest_timestamp` sieves bus by bus: it starts from the first
 * bus's id, and for each further bus steps the timestamp by the product of
 * the ids so far until the new bus fits. That inner loop ends only when the
 * step and the new id share no factor, which the puzzle's ids (distinct
 * primes) guarantee; the model demands it of its input (`PairwiseCoprime`).
 *
 * As written the inner loop steps before it tests, so a timestamp that
 * already suits the next bus is skipped: `TimestampAsWritten` models that,
 * `Timestamp` tests first and is proved to give the earliest timestamp.
 */
module Day13b {
  import opened Common

  /* ---------------------------------------------------------------- */
  /* Divisibility                                                      */
  /* ---------------------------------------------------------------- */

  /** `m` divides `n` (only 0 is divisible by 0). */
  predicate Divides(m: nat, n: int) {
    if m == 0 then n == 0 else n % m == 0
  }

  /** A multiple of `m` is divisible by `m`. */
  lemma MultipleDivides(m: nat, q: int)
    ensures Divides(m, m * q)
  {
    if m > 0 {
      var d, r := (m * q) / m, (m * q) % m;
      assert m * q == d * m + r;
      assert (q - d) * m == r;
      SmallMultiple(q - d, m);
    }
  }

  /** What is divisible by `m` is a multiple of it. */
  lemma DividesMultiple(m: nat, n: int) returns (q: int)
    requires Divides(m, n)
    ensures n == m * q
  {
    if m == 0 {
      q := 0;
    } else {
      q := n / m;
    }
  }

  /** Divisibility is kept by sums of multiples. */
  lemma DividesCombination(m: nat, a: int, b: int, x: int, y: int)
    requires Divides(m, a) && Divides(m, b)
    ensures Divides(m, x * a + y * b)
  {
    var p := DividesMultiple(m, a);
    var q := DividesMultiple(m, b);
    assert x * a + y * b == m * (x * p + y * q);
    MultipleDivides(m, x * p + y * q);
  }

  /** The integer combination `x * a + y * b`. */
  lemma DividesDifference(m: nat, a: int, b: int)
    requires Divides(m, a) && Divides(m, b)
    ensures Divides(m, a - b)
  {
    DividesCombination(m, a, b, 1, -1);
    assert 1 * a + (-1) * b == a - b;
  }

  function Combination(x: int, a: int, y: int, b: int): int {
    x * a + y * b
  }

  /** `a` and `b` share no factor: 1 is an integer combination of them. */
  ghost predicate Coprime(a: nat, b: nat) {
    exists x: int, y: int :: Combination(x, a, y, b) == 1
  }

  lemma CoprimeSymmetric(a: nat, b: nat)
    requires Coprime(a, b)
    ensures Coprime(b, a)
  {
    var x: int, y: int :| Combination(x, a, y, b) == 1;
    assert Combination(y, b, x, a) == 1;
  }

  /** A product of two numbers coprime with `c` is coprime with `c`. */
  lemma CoprimeProduct(a: nat, b: nat, c: nat)
    requires Coprime(a, c) && Coprime(b, c)
    ensures Coprime(a * b, c)
  {
    var x1: int, y1: int :| Combination(x1, a, y1, c) == 1;
    var x2: int, y2: int :| Combination(x2, b, y2, c) == 1;
    var u := x1 * a;
    var v := x2 * b;
    assert (u + y1 * c) * (v + y2 * c) == 1;
    assert (u + y1 * c) * (v + y2 * c) == u * v + (u * y2 + y1 * v + y1 * y2 * c) * c;
    assert u * v == (x1 * x2) * (a * b);
    assert Combination(x1 * x2, a * b, u * y2 + y1 * v + y1 * y2 * c, c) == 1;
  }

  /** Two coprime divisors of `d` divide it together. */
  lemma CoprimeDivisors(a: nat, b: nat, d: int)
    requires Coprime(a, b) && Divides(a, d) && Divides(b, d)
    ensures Divides(a * b, d)
  {
    var x: int, y: int :| Combination(x, a, y, b) == 1;
    var p := DividesMultiple(a, d);
    var q := DividesMultiple(b, d);
    Distribute(d, x * a, y * b);
    Regroup(b, q, x, a);
    Regroup(a, p, y, b);
    assert d == (a * b) * (q * x) + (b * a) * (p * y);
    assert d == (a * b) * (q * x + p * y);
    MultipleDivides(a * b, q * x + p * y);
  }

  lemma Distribute(d: int, u: int, v: int)
    ensures d * (u + v) == d * u + d * v
  {
  }

  lemma Regroup(b: int, q: int, x: int, a: int)
    ensures (b * q) * (x * a) == (a * b) * (q * x)
  {
  }

  /**
   * Stepping by a number coprime with `m` reaches a multiple of `m` within
   * `m` steps: some `k` below `m` makes `a + k * s` divisible by `m`.
   */
  lemma Solvable(a: int, s: nat, m: nat) returns (k: nat)
    requires m > 0 && Coprime(s, m)
    ensures k < m && (a + k * s) % m == 0
  {
    var x: int, y: int :| Combination(x, s, y, m) == 1;
    k := (-a * x) % m;
    var q := (-a * x) / m;
    assert k == -a * x - m * q;
    assert a * (x * s + y * m) == a;
    assert k * s == -a * (x * s) - m * (q * s);
    assert a + k * s == m * (a * y - q * s);
    MultipleDivides(m, a * y - q * s);
  }

  /* ---------------------------------------------------------------- */
  /* The notes                                                         */
  /* ---------------------------------------------------------------- */

  /** The bus list: `Some(id)` for a bus in service, `None` for an "x". */
  type BusIds = seq<Option<nat>>

  /**
   * `parse`: the first line must be a `u32` (the earliest departure, then
   * ignored); the second line is trimmed and split at commas, "x" giving
   * `None` and any other piece a `u32` id. `None` is the source's panic (a
   * missing line or a piece that is not a number).
   */
  function Parse(lines: seq<string>): (r: Option<BusIds>)
    ensures r.Some? ==> |lines| >= 2 && ParseUnsigned(lines[0], U32_LIMIT).Some?
    ensures r.Some? ==> |r.value| > 0
  {
    if |lines| < 2 || ParseUnsigned(lines[0], U32_LIMIT).None? then None
    else ParseIds(Split(Trim(lines[1]), ','))
  }

  /** One piece of the bus list. */
  function ParseId(piece: string): Option<Option<nat>> {
    if piece == "x" then Some(None)
    else match ParseUnsigned(piece, U32_LIMIT)
      case Some(id) => Some(Some(id))
      case None => None
  }

  /** Every piece of the bus list, or `None` at the first piece that is neither "x" nor a `u32`. */
  function ParseIds(pieces: seq<string>): (r: Option<BusIds>)
    ensures r.Some? ==> |r.value| == |pieces|
    ensures r.Some? ==> forall k :: 0 <= k < |pieces| ==> ParseId(pieces[k]) == Some(r.value[k])
    ensures r.None? ==> exists k :: 0 <= k < |pieces| && ParseId(pieces[k]).None?
  {
    if |pieces| == 0 then Some([])
    else match (ParseId(pieces[0]), ParseIds(pieces[1..]))
      case (Some(id), Some(rest)) => Some([id] + rest)
      case (None, _) => None
      case (_, None) => None
  }

  /** The printed form of a bus list entry. */
  function FormatId(id: Option<nat>): (s: string)
    ensures |s| > 0 && ',' !in s
    ensures !IsWhitespace(s[0]) && !IsWhitespace(s[|s| - 1])
  {
    match id
    case None => "x"
    case Some(n) =>
      var d := ToDecimal(n);
      assert forall i :: 0 <= i < |d| ==> d[i] != ',';
      d
  }

  function FormatIds(ids: BusIds): (r: seq<string>)
    ensures |r| == |ids|
    ensures forall k :: 0 <= k < |r| ==> r[k] == FormatId(ids[k])
  {
    if |ids| == 0 then [] else [FormatId(ids[0])] + FormatIds(ids[1..])
  }

  /** Bus ids that fit a `u32`. */
  predicate U32Ids(ids: BusIds) {
    forall k :: 0 <= k < |ids| && ids[k].Some? ==> ids[k].value < U32_LIMIT
  }

  /** The notes `parse` reads: the departure, then the comma-separated bus list. */
  function FormatNotes(departure: nat, ids: BusIds): seq<string>
    requires |ids| > 0
  {
    [ToDecimal(departure), Join(FormatIds(ids), ',')]
  }

  /** Printed notes parse back to their bus list. */
  lemma ParseFormatNotes(departure: nat, ids: BusIds)
    requires departure < U32_LIMIT && |ids| > 0 && U32Ids(ids)
    ensures Parse(FormatNotes(departure, ids)) == Some(ids)
  {
    ParseUnsignedToDecimal(departure, U32_LIMIT);
    var pieces := FormatIds(ids);
    var line := Join(pieces, ',');
    SplitJoin(pieces, ',');
    Common.JoinEnds(pieces, ',', pieces[0], pieces[|pieces| - 1]);
    TrimUnchanged(line);
    ParseFormatIds(ids);
  }

  lemma {:induction false} ParseFormatIds(ids: BusIds)
    requires U32Ids(ids)
    ensures ParseIds(FormatIds(ids)) == Some(ids)
  {
    if |ids| > 0 {
      if ids[0].Some? {
        ParseUnsignedToDecimal(ids[0].value, U32_LIMIT);
      }
      ParseFormatIds(ids[1..]);
      assert FormatIds(ids)[1..] == FormatIds(ids[1..]);
      assert [ids[0]] + ids[1..] == ids;
    }
  }

  /* ---------------------------------------------------------------- */
  /* The timetable                                                     */
  /* ---------------------------------------------------------------- */

  /** Every listed bus before position `j` departs at `t` plus its position. */
  predicate FitsUpTo(ids: BusIds, j: nat, t: int) {
    forall i :: 0 <= i < j && i < |ids| && ids[i].Some? ==> Divides(ids[i].value, t + i)
  }

  /** Every listed bus departs at `t` plus its position. */
  predicate Fits(ids: BusIds, t: int) {
    FitsUpTo(ids, |ids|, t)
  }

  /** No two listed ids share a factor (the puzzle's ids are distinct primes). */
  ghost predicate PairwiseCoprime(ids: BusIds) {
    forall i, j :: 0 <= i < j < |ids| && ids[i].Some? && ids[j].Some? ==> Coprime(ids[i].value, ids[j].value)
  }

  /** `step` is coprime with every listed id from position `j` on. */
  ghost predicate CoprimeWithRest(ids: BusIds, j: nat, step: nat) {
    forall i :: j <= i < |ids| && ids[i].Some? ==> Coprime(step, ids[i].value)
  }

  /**
   * Every listed id before position `j` divides `step`. This is why the sieve
   * may advance by `step`: a multiple of it moves every earlier bus's
   * departure by whole periods, so the buses already suited stay suited.
   */
  predicate DividesStep(ids: BusIds, j: nat, step: nat) {
    forall i :: 0 <= i < j && i < |ids| && ids[i].Some? ==> Divides(ids[i].value, step)
  }

  /** Bus `id` at position `idx` departs at `ts + k * step + idx`. */
  predicate Hits(ts: nat, step: nat, idx: nat, id: nat, k: nat)
    requires id > 0
  {
    (ts + k * step + idx) % id == 0
  }

  /**
   * The inner loop of `find_earliest_timestamp`: the least `k` from `k0`
   * on (up to `id`) at which bus `id` departs in time.
   */
  function SearchFrom(ts: nat, step: nat, idx: nat, id: nat, k0: nat): (r: Option<nat>)
    requires id > 0
    ensures r.Some? ==> k0 <= r.value <= id && Hits(ts, step, idx, id, r.value)
    ensures r.Some? ==> forall k :: k0 <= k < r.value ==> !Hits(ts, step, idx, id, k)
    ensures r.None? ==> forall k :: k0 <= k <= id ==> !Hits(ts, step, idx, id, k)
    decreases id + 1 - k0
  {
    if k0 > id then None
    else if Hits(ts, step, idx, id, k0) then Some(k0)
    else SearchFrom(ts, step, idx, id, k0 + 1)
  }

  /** With a step coprime with `id` the search from 0 or 1 always succeeds. */
  lemma SearchDefined(ts: nat, step: nat, idx: nat, id: nat, k0: nat)
    requires id > 0 && Coprime(step, id) && k0 <= 1
    ensures SearchFrom(ts, step, idx, id, k0).Some?
  {
    var k := Solvable(ts + idx, step, id);
    assert Hits(ts, step, idx, id, k);
    if k < k0 {
      HitsWrap(ts, step, idx, id);
    }
  }

  /** A bus that departs in time at the current timestamp also does `id` steps later. */
  lemma HitsWrap(ts: nat, step: nat, idx: nat, id: nat)
    requires id > 0 && Hits(ts, step, idx, id, 0)
    ensures Hits(ts, step, idx, id, id)
  {
    MultipleDivides(id, step);
    DividesCombination(id, ts + idx, id * step, 1, 1);
    assert 1 * (ts + idx) + 1 * (id * step) == ts + id * step + idx;
  }

  /**
   * The outer loop from position `j`, with the timestamp `ts` and the
   * step so far, each inner search starting at `k0` (1 as written, 0
   * corrected). `None` is the panic on an id of 0 (or a search that cannot
   * succeed, which coprime ids exclude).
   */
  function Sieve(ids: BusIds, j: nat, ts: nat, step: nat, k0: nat): Option<nat>
    requires j <= |ids|
    decreases |ids| - j
  {
    if j == |ids| then Some(ts)
    else if ids[j].None? then Sieve(ids, j + 1, ts, step, k0)
    else if ids[j].value == 0 then None
    else match SearchFrom(ts, step, j, ids[j].value, k0)
      case None => None
      case Some(k) => Sieve(ids, j + 1, ts + k * step, step * ids[j].value, k0)
  }

  /** `find_earliest_timestamp` with the inner search starting at `k0`. */
  function Earliest(ids: BusIds, k0: nat): Option<nat> {
    if |ids| == 0 then Some(0)
    else if |ids| == 1 then Some(if ids[0].Some? then ids[0].value else 0)
    else if ids[0].None? then None
    else Sieve(ids, 1, ids[0].value, ids[0].value, k0)
  }

  /** The timestamp as written: each inner search steps before it tests. */
  function TimestampAsWritten(ids: BusIds): Option<nat> {
    Earliest(ids, 1)
  }

  /** The timestamp with each inner search testing the current timestamp first. */
  function Timestamp(ids: BusIds): Option<nat> {
    Earliest(ids, 0)
  }

  /* ---------------------------------------------------------------- */
  /* What the sieve computes                                           */
  /* ---------------------------------------------------------------- */

  /** Divisibility carries over to multiples. */
  lemma DividesMul(m: nat, a: int, c: int)
    requires Divides(m, a)
    ensures Divides(m, c * a)
  {
    DividesCombination(m, a, a, c, 0);
  }

  /** One listed bus more: the new timestamp suits every bus so far and every id so far divides the new step. */
  lemma SieveStepFits(ids: BusIds, j: nat, ts: nat, step: nat, k: nat)
    requires j < |ids| && ids[j].Some? && ids[j].value > 0
    requires Hits(ts, step, j, ids[j].value, k)
    requires FitsUpTo(ids, j, ts) && DividesStep(ids, j, step)
    ensures FitsUpTo(ids, j + 1, ts + k * step)
    ensures DividesStep(ids, j + 1, step * ids[j].value)
  {
    var id := ids[j].value;
    forall i | 0 <= i < j && ids[i].Some?
      ensures Divides(ids[i].value, ts + k * step + i)
      ensures Divides(ids[i].value, step * id)
    {
      DividesCombination(ids[i].value, ts + i, step, 1, k);
      DividesMul(ids[i].value, step, id);
    }
    MultipleDivides(id, step);
    assert id * step == step * id;
  }

  lemma MulNonnegative(a: nat, b: nat)
    ensures a * b >= 0
  {
  }

  /** An "x" entry asks nothing of the timestamp or the step. */
  lemma SkipUnlisted(ids: BusIds, j: nat, ts: nat, step: nat)
    requires j < |ids| && ids[j].None? && FitsUpTo(ids, j, ts) && DividesStep(ids, j, step)
    ensures FitsUpTo(ids, j + 1, ts) && DividesStep(ids, j + 1, step)
  {
  }

  /** Every timestamp the sieve produces suits every listed bus. */
  lemma {:induction false} SieveFits(ids: BusIds, j: nat, ts: nat, step: nat, k0: nat, t: nat)
    requires j <= |ids| && FitsUpTo(ids, j, ts) && DividesStep(ids, j, step)
    requires Sieve(ids, j, ts, step, k0) == Some(t)
    ensures Fits(ids, t)
    decreases |ids| - j, 1
  {
    if j < |ids| {
      if ids[j].None? {
        SkipUnlisted(ids, j, ts, step);
        SieveFits(ids, j + 1, ts, step, k0, t);
      } else {
        SieveFitsListed(ids, j, ts, step, k0, t);
      }
    }
  }

  /** `SieveFits` at a listed bus. */
  lemma {:induction false} SieveFitsListed(ids: BusIds, j: nat, ts: nat, step: nat, k0: nat, t: nat)
    requires j < |ids| && ids[j].Some? && FitsUpTo(ids, j, ts) && DividesStep(ids, j, step)
    requires Sieve(ids, j, ts, step, k0) == Some(t)
    ensures Fits(ids, t)
    decreases |ids| - j, 0
  {
    var id := ids[j].value;
    var k := SearchFrom(ts, step, j, id, k0).value;
    MulNonnegative(k, step);
    MulNonnegative(step, id);
    var ts', step' := ts + k * step, step * id;
    assert Sieve(ids, j + 1, ts', step', k0) == Some(t);
    SieveStepFits(ids, j, ts, step, k);
    SieveFits(ids, j + 1, ts', step', k0, t);
  }

  /** Either timestamp, when there is one, suits every listed bus. */
  lemma EarliestFits(ids: BusIds, k0: nat)
    requires Earliest(ids, k0).Some?
    ensures Fits(ids, Earliest(ids, k0).value)
  {
    if |ids| >= 2 {
      var first := ids[0].value;
      MultipleDivides(first, 1);
      SieveFits(ids, 1, first, first, k0, Earliest(ids, k0).value);
    } else if |ids| == 1 && ids[0].Some? {
      MultipleDivides(ids[0].value, 1);
    }
  }

  /** A listed id of 0 from position `j` on makes the sieve panic. */
  lemma {:induction false} SieveZero(ids: BusIds, j: nat, ts: nat, step: nat, k0: nat, z: nat)
    requires j <= z < |ids| && ids[z] == Some(0)
    ensures Sieve(ids, j, ts, step, k0).None?
    decreases |ids| - j
  {
    if j < z && ids[j] != Some(0) {
      if ids[j].None? {
        SieveZero(ids, j + 1, ts, step, k0, z);
      } else {
        match SearchFrom(ts, step, j, ids[j].value, k0)
        case None =>
        case Some(k) => SieveZero(ids, j + 1, ts + k * step, step * ids[j].value, k0, z);
      }
    }
  }

  /** No listed id of 0 from position `j` on. */
  predicate NoZeroFrom(ids: BusIds, j: nat) {
    forall i :: j <= i < |ids| ==> ids[i] != Some(0)
  }

  /** With coprime ids the sieve panics only on an id of 0. */
  lemma {:induction false} SieveDefined(ids: BusIds, j: nat, ts: nat, step: nat, k0: nat)
    requires j <= |ids| && k0 <= 1 && PairwiseCoprime(ids) && CoprimeWithRest(ids, j, step) && NoZeroFrom(ids, j)
    ensures Sieve(ids, j, ts, step, k0).Some?
    decreases |ids| - j
  {
    if j < |ids| {
      if ids[j].None? {
        SieveDefined(ids, j + 1, ts, step, k0);
      } else {
        var id := ids[j].value;
        SearchDefined(ts, step, j, id, k0);
        var k := SearchFrom(ts, step, j, id, k0).value;
        forall i | j + 1 <= i < |ids| && ids[i].Some?
          ensures Coprime(step * id, ids[i].value)
        {
          CoprimeProduct(step, id, ids[i].value);
        }
        SieveDefined(ids, j + 1, ts + k * step, step * id, k0);
      }
    }
  }

  /**
   * For coprime ids, `find_earliest_timestamp` (either version) panics
   * exactly when there are two or more entries and the first is an "x" or
   * a later id is 0.
   */
  lemma EarliestNone(ids: BusIds, k0: nat)
    requires PairwiseCoprime(ids) && k0 <= 1
    ensures Earliest(ids, k0).None? <==> |ids| >= 2 && (ids[0].None? || !NoZeroFrom(ids, 1))
  {
    if |ids| >= 2 && ids[0].Some? {
      if NoZeroFrom(ids, 1) {
        SieveDefined(ids, 1, ids[0].value, ids[0].value, k0);
      } else {
        var z :| 1 <= z < |ids| && ids[z] == Some(0);
        SieveZero(ids, 1, ids[0].value, ids[0].value, k0, z);
      }
    }
  }

  /* ---------------------------------------------------------------- */
  /* The corrected sieve gives the earliest timestamp                  */
  /* ---------------------------------------------------------------- */

  lemma MulMonotone(a: nat, b: nat, c: nat)
    requires a <= b
    ensures a * c <= b * c
  {
  }

  /** A timestamp suiting the buses before `j + 1` suits those before `j`. */
  lemma FitsUpToLess(ids: BusIds, j: nat, t: int)
    requires FitsUpTo(ids, j + 1, t)
    ensures FitsUpTo(ids, j, t)
  {
  }

  /**
   * All timestamps that suit the buses before `j` lie a multiple of `step`
   * apart from `ts`, and `ts` is the earliest of them from `lo` on.
   */
  ghost predicate EarliestUpTo(ids: BusIds, j: nat, ts: nat, step: nat, lo: nat) {
    ts >= lo && FitsUpTo(ids, j, ts) && StepsApart(ids, j, ts, step) && LeastFrom(ids, j, ts, lo)
  }

  /** Timestamps suiting the first `j` entries lie whole steps from `ts`. */
  ghost predicate StepsApart(ids: BusIds, j: nat, ts: nat, step: nat) {
    forall t :: FitsUpTo(ids, j, t) ==> Divides(step, t - ts)
  }

  /** No timestamp from `lo` on before `ts` suits the first `j` entries. */
  ghost predicate LeastFrom(ids: BusIds, j: nat, ts: nat, lo: nat) {
    forall t :: t >= lo && FitsUpTo(ids, j, t) ==> ts <= t
  }

  /** A later timestamp that suits the buses so far is reached from `ts` in whole steps. */
  lemma StepsTo(ts: nat, step: nat, t: int) returns (q: nat)
    requires t >= ts && Divides(step, t - ts)
    ensures t == ts + q * step
  {
    var p := DividesMultiple(step, t - ts);
    if step == 0 {
      q := 0;
    } else {
      q := p;
    }
  }

  /** A timestamp suiting one listed bus more lies whole steps of the grown step from the new timestamp. */
  lemma CongruentAt(ids: BusIds, j: nat, ts: nat, step: nat, k: nat, t: int)
    requires j < |ids| && ids[j].Some? && ids[j].value > 0
    requires Coprime(step, ids[j].value) && Divides(ids[j].value, ts + k * step + j)
    requires Divides(step, t - ts) && Divides(ids[j].value, t + j)
    ensures Divides(step * ids[j].value, t - (ts + k * step))
  {
    var id := ids[j].value;
    var ts' := ts + k * step;
    MultipleDivides(step, k);
    DividesDifference(step, t - ts, step * k);
    assert (t - ts) - step * k == t - ts';
    DividesDifference(id, t + j, ts' + j);
    CoprimeDivisors(step, id, t - ts');
  }

  /** One listed bus more: timestamps suiting the buses so far still lie whole steps apart. */
  lemma CongruentStep(ids: BusIds, j: nat, ts: nat, step: nat, k: nat)
    requires j < |ids| && ids[j].Some? && ids[j].value > 0
    requires Coprime(step, ids[j].value) && FitsUpTo(ids, j + 1, ts + k * step)
    requires StepsApart(ids, j, ts, step)
    ensures StepsApart(ids, j + 1, ts + k * step, step * ids[j].value)
  {
    var j' := j + 1;
    forall t | FitsUpTo(ids, j', t)
      ensures Divides(step * ids[j].value, t - (ts + k * step))
    {
      FitsUpToLess(ids, j, t);
      CongruentAt(ids, j, ts, step, k, t);
    }
  }

  /** One listed bus more, searched from 0: nothing from `lo` on before the new timestamp suits the buses so far. */
  lemma LeastStep(ids: BusIds, j: nat, ts: nat, step: nat, lo: nat, k: nat)
    requires j < |ids| && ids[j].Some? && ids[j].value > 0
    requires StepsApart(ids, j, ts, step) && LeastFrom(ids, j, ts, lo)
    requires SearchFrom(ts, step, j, ids[j].value, 0) == Some(k)
    ensures LeastFrom(ids, j + 1, ts + k * step, lo)
  {
    var id := ids[j].value;
    var j' := j + 1;
    forall t | t >= lo && FitsUpTo(ids, j', t)
      ensures ts + k * step <= t
    {
      FitsUpToLess(ids, j, t);
      var q := StepsTo(ts, step, t);
      assert Hits(ts, step, j, id, q);
      MulMonotone(k, q, step);
    }
  }

  /** One listed bus more, searched from 0: the new timestamp is again the earliest. */
  lemma EarliestStep(ids: BusIds, j: nat, ts: nat, step: nat, lo: nat, k: nat)
    requires j < |ids| && ids[j].Some? && ids[j].value > 0
    requires Coprime(step, ids[j].value) && DividesStep(ids, j, step)
    requires EarliestUpTo(ids, j, ts, step, lo)
    requires SearchFrom(ts, step, j, ids[j].value, 0) == Some(k)
    ensures EarliestUpTo(ids, j + 1, ts + k * step, step * ids[j].value, lo)
  {
    SieveStepFits(ids, j, ts, step, k);
    CongruentStep(ids, j, ts, step, k);
    LeastStep(ids, j, ts, step, lo, k);
  }

  /** From a state that is the earliest so far, the corrected sieve ends at the earliest timestamp. */
  lemma {:induction false} SieveEarliest(ids: BusIds, j: nat, ts: nat, step: nat, lo: nat, t: nat)
    requires j <= |ids| && PairwiseCoprime(ids) && CoprimeWithRest(ids, j, step) && DividesStep(ids, j, step)
    requires EarliestUpTo(ids, j, ts, step, lo)
    requires Sieve(ids, j, ts, step, 0) == Some(t)
    ensures t >= lo && forall t' :: t' >= lo && Fits(ids, t') ==> t <= t'
    decreases |ids| - j
  {
    if j < |ids| {
      if ids[j].None? {
        var j' := j + 1;
        forall t' | FitsUpTo(ids, j', t')
          ensures FitsUpTo(ids, j, t')
        {
          FitsUpToLess(ids, j, t');
        }
        SieveEarliest(ids, j + 1, ts, step, lo, t);
      } else {
        var id := ids[j].value;
        var k := SearchFrom(ts, step, j, id, 0).value;
        EarliestStep(ids, j, ts, step, lo, k);
        SieveStepFits(ids, j, ts, step, k);
        forall i | j + 1 <= i < |ids| && ids[i].Some?
          ensures Coprime(step * id, ids[i].value)
        {
          CoprimeProduct(step, id, ids[i].value);
        }
        SieveEarliest(ids, j + 1, ts + k * step, step * id, lo, t);
      }
    }
  }

  /** After the first bus alone, its id is the earliest timestamp from the id on and the step. */
  lemma FirstEarliest(ids: BusIds)
    requires |ids| > 0 && ids[0].Some?
    ensures EarliestUpTo(ids, 1, ids[0].value, ids[0].value, ids[0].value)
  {
    var first := ids[0].value;
    MultipleDivides(first, 1);
    forall t: int | FitsUpTo(ids, 1, t)
      ensures Divides(first, t - first)
    {
      assert Divides(first, t + 0);
      DividesDifference(first, t, first * 1);
    }
  }

  /**
   * For coprime ids led by a bus, the corrected `find_earliest_timestamp`
   * gives the earliest timestamp, from the first bus's id on, at which
   * every listed bus departs at its offset.
   */
  lemma TimestampEarliest(ids: BusIds)
    requires PairwiseCoprime(ids) && |ids| > 0 && ids[0].Some? && Timestamp(ids).Some?
    ensures var t := Timestamp(ids).value;
      t >= ids[0].value && Fits(ids, t) && forall t' :: t' >= ids[0].value && Fits(ids, t') ==> t <= t'
  {
    var first := ids[0].value;
    EarliestFits(ids, 0);
    if |ids| >= 2 {
      FirstEarliest(ids);
      SieveEarliest(ids, 1, first, first, first, Timestamp(ids).value);
    }
  }

  /* ---------------------------------------------------------------- */
  /* find_earliest_timestamp                                           */
  /* ---------------------------------------------------------------- */

  /**
   * The inner loop as written: step, then test, until bus `id` departs at
   * the new timestamp plus `idx`; the current timestamp is never tested.
   */
  method AdvanceAsWritten(ts: nat, step: nat, idx: nat, id: nat) returns (newTs: nat)
    requires id > 0 && SearchFrom(ts, step, idx, id, 1).Some?
    ensures newTs == ts + SearchFrom(ts, step, idx, id, 1).value * step
  {
    ghost var hit := SearchFrom(ts, step, idx, id, 1).value;
    newTs := ts;
    ghost var k := 0;
    while true
      invariant newTs == ts + k * step && k < hit
      decreases hit - k
    {
      newTs := newTs + step;
      k := k + 1;
      assert newTs == ts + k * step;
      if (newTs + idx) % id == 0 {
        assert Hits(ts, step, idx, id, k);
        break;
      }
      assert !Hits(ts, step, idx, id, k);
    }
  }

  /** The inner loop corrected: test, then step, so a timestamp that already suits bus `id` is kept. */
  method Advance(ts: nat, step: nat, idx: nat, id: nat) returns (newTs: nat)
    requires id > 0 && SearchFrom(ts, step, idx, id, 0).Some?
    ensures newTs == ts + SearchFrom(ts, step, idx, id, 0).value * step
  {
    ghost var hit := SearchFrom(ts, step, idx, id, 0).value;
    newTs := ts;
    ghost var k := 0;
    while (newTs + idx) % id != 0
      invariant newTs == ts + k * step && k <= hit
      decreases hit - k
    {
      assert !Hits(ts, step, idx, id, k);
      newTs := newTs + step;
      k := k + 1;
    }
    assert Hits(ts, step, idx, id, k);
  }

  /** After the first bus, its id is coprime with every later listed id. */
  lemma FirstCoprime(ids: BusIds)
    requires PairwiseCoprime(ids) && |ids| > 0 && ids[0].Some?
    ensures CoprimeWithRest(ids, 1, ids[0].value)
  {
  }

  /** Folding bus `idx` into the step keeps the step coprime with the later ids. */
  lemma CoprimeGrow(ids: BusIds, idx: nat, step: nat)
    requires idx < |ids| && ids[idx].Some? && PairwiseCoprime(ids) && CoprimeWithRest(ids, idx, step)
    ensures CoprimeWithRest(ids, idx + 1, step * ids[idx].value)
  {
    forall i | idx + 1 <= i < |ids| && ids[i].Some?
      ensures Coprime(step * ids[idx].value, ids[i].value)
    {
      CoprimeProduct(step, ids[idx].value, ids[i].value);
    }
  }

  /**
   * `find_earliest_timestamp` as written: with no ids 0, with one id that
   * id (0 for an "x"), otherwise the sieve over the later listed buses;
   * `None` is a panic (a leading "x" unwrapped, an id of 0 divided by).
   * The ids must be pairwise coprime, or the inner loop may never end.
   */
  method FindEarliestTimestampAsWritten(ids: BusIds) returns (r: Option<nat>)
    requires PairwiseCoprime(ids)
    ensures r == TimestampAsWritten(ids)
  {
    if |ids| == 0 {
      return Some(0);
    } else if |ids| == 1 {
      return Some(if ids[0].Some? then ids[0].value else 0);
    }
    if ids[0].None? {
      return None;
    }
    var first := ids[0].value;
    var timestamp, step := first, first;
    FirstCoprime(ids);
    // `step` is the product of the ids folded in so far; the lemmas about
    // Sieve carry this as DividesStep, each of those ids dividing it.
    for idx := 1 to |ids|
      invariant Sieve(ids, idx, timestamp, step, 1) == Sieve(ids, 1, first, first, 1)
      invariant CoprimeWithRest(ids, idx, step)
    {
      if ids[idx].Some? {
        var id := ids[idx].value;
        if id == 0 {
          return None;
        }
        SearchDefined(timestamp, step, idx, id, 1);
        CoprimeGrow(ids, idx, step);
        timestamp := AdvanceAsWritten(timestamp, step, idx, id);
        step := step * id;
      }
    }
    return Some(timestamp);
  }

  /** `find_earliest_timestamp` with the corrected inner loop. */
  method FindEarliestTimestamp(ids: BusIds) returns (r: Option<nat>)
    requires PairwiseCoprime(ids)
    ensures r == Timestamp(ids)
  {
    if |ids| == 0 {
      return Some(0);
    } else if |ids| == 1 {
      return Some(if ids[0].Some? then ids[0].value else 0);
    }
    if ids[0].None? {
      return None;
    }
    var first := ids[0].value;
    var timestamp, step := first, first;
    FirstCoprime(ids);
    // `step` is the product of the ids folded in so far; the lemmas about
    // Sieve carry this as DividesStep, each of those ids dividing it.
    for idx := 1 to |ids|
      invariant Sieve(ids, idx, timestamp, step, 0) == Sieve(ids, 1, first, first, 0)
      invariant CoprimeWithRest(ids, idx, step)
    {
      if ids[idx].Some? {
        var id := ids[idx].value;
        if id == 0 {
          return None;
        }
        SearchDefined(timestamp, step, idx, id, 0);
        CoprimeGrow(ids, idx, step);
        timestamp := Advance(timestamp, step, idx, id);
        step := step * id;
      }
    }
    return Some(timestamp);
  }

  /**
   * For the ids 2, 3 the timestamp 2 already suits both buses (3 departs
   * at 3), but the inner loop as written steps past it and answers 8.
   */
  lemma AsWrittenSkips(ids: BusIds)
    requires ids == [Some(2), Some(3)]
    ensures Fits(ids, 2) && Timestamp(ids) == Some(2)
    ensures TimestampAsWritten(ids) == Some(8)
  {
    assert Divides(2, 2 + 0) && Divides(3, 2 + 1);
    assert Hits(2, 2, 1, 3, 0);
    assert Sieve(ids, 2, 2, 6, 0) == Some(2);
    assert SearchFrom(2, 2, 1, 3, 3) == Some(3);
    assert SearchFrom(2, 2, 1, 3, 2) == Some(3);
    assert SearchFrom(2, 2, 1, 3, 1) == Some(3);
    assert Sieve(ids, 2, 8, 6, 1) == Some(8);
  }

  /** The ids 17, x, 13, 19 give 3417, both as written and corrected. */
  lemma Example(ids: BusIds)
    requires ids == [Some(17), None, Some(13), Some(19)]
    ensures Timestamp(ids) == Some(3417) && TimestampAsWritten(ids) == Some(3417)
  {
    ExampleFromFirst(ids, 0);
    ExampleFromFirst(ids, 1);
  }

  /** In the example, from the first bus the sieve leads to 3417 whether or not it tests first. */
  lemma ExampleFromFirst(ids: BusIds, k0: nat)
    requires ids == [Some(17), None, Some(13), Some(19)] && k0 <= 1
    ensures Sieve(ids, 1, 17, 17, k0) == Some(3417)
  {
    SearchThirteen();
    ExampleLastBus(ids);
    assert SearchFrom(17, 17, 2, 13, k0) == Some(5);
    assert Sieve(ids, 3, 17 + 5 * 17, 17 * 13, k0) == Some(3417);
    assert Sieve(ids, 2, 17, 17, k0) == Some(3417);
  }

  /** In the example, from timestamp 102 and step 221 the last bus leads to 3417. */
  lemma ExampleLastBus(ids: BusIds)
    requires ids == [Some(17), None, Some(13), Some(19)]
    ensures Sieve(ids, 3, 102, 221, 0) == Some(3417) && Sieve(ids, 3, 102, 221, 1) == Some(3417)
  {
    SearchNineteen();
    assert Sieve(ids, 4, 3417, 4199, 0) == Some(3417);
    assert Sieve(ids, 4, 3417, 4199, 1) == Some(3417);
  }

  /** In the example, bus 13 at offset 2 first departs 5 steps of 17 on from 17. */
  lemma SearchThirteen()
    ensures SearchFrom(17, 17, 2, 13, 0) == Some(5) && SearchFrom(17, 17, 2, 13, 1) == Some(5)
  {
    assert SearchFrom(17, 17, 2, 13, 5) == Some(5);
    assert SearchFrom(17, 17, 2, 13, 4) == Some(5);
    assert SearchFrom(17, 17, 2, 13, 3) == Some(5);
    assert SearchFrom(17, 17, 2, 13, 2) == Some(5);
  }

  /** In the example, bus 19 at offset 3 first departs 15 steps of 221 on from 102. */
  lemma SearchNineteen()
    ensures SearchFrom(102, 221, 3, 19, 0) == Some(15) && SearchFrom(102, 221, 3, 19, 1) == Some(15)
  {
    assert SearchFrom(102, 221, 3, 19, 15) == Some(15);
    assert SearchFrom(102, 221, 3, 19, 14) == Some(15);
    assert SearchFrom(102, 221, 3, 19, 13) == Some(15);
    assert SearchFrom(102, 221, 3, 19, 12) == Some(15);
    assert SearchFrom(102, 221, 3, 19, 11) == Some(15);
    assert SearchFrom(102, 221, 3, 19, 10) == Some(15);
    assert SearchFrom(102, 221, 3, 19, 9) == Some(15);
    assert SearchFrom(102, 221, 3, 19, 8) == Some(15);
    assert SearchFrom(102, 221, 3, 19, 7) == Some(15);
    assert SearchFrom(102, 221, 3, 19, 6) == Some(15);
    assert SearchFrom(102, 221, 3, 19, 5) == Some(15);
    assert SearchFrom(102, 221, 3, 19, 4) == Some(15);
    assert SearchFrom(102, 221, 3, 19, 3) == Some(15);
    assert SearchFrom(102, 221, 3, 19, 2) == Some(15);
  }
}
