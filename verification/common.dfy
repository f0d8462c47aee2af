/*
 * Helpers shared by all puzzle modules: an Option type, the pieces of
 * Rust's `str` API that the puzzles use (trimming, splitting, prefix and
 * suffix tests) and Rust's `FromStr` for unsigned and signed integers.
 * Each helper follows the documented behaviour of the Rust standard
 * library function it stands for.
 */
module Common {

  datatype Option<T> = None | Some(value: T)

  datatype Result<T, E> = Ok(value: T) | Err(error: E)

  /* ---------------------------------------------------------------- */
  /* Characters                                                        */
  /* ---------------------------------------------------------------- */

  /** `char::is_whitespace`: the Unicode White_Space property. */
  predicate IsWhitespace(c: char) {
    c == ' ' || ('\t' <= c <= '\r') || c == '\U{0085}' || c == '\U{00A0}'
    || c == '\U{1680}' || ('\U{2000}' <= c <= '\U{200A}') || c == '\U{2028}'
    || c == '\U{2029}' || c == '\U{202F}' || c == '\U{205F}' || c == '\U{3000}'
  }

  /** `char::is_ascii_whitespace`: space, tab, line feed, form feed, carriage return. */
  predicate IsAsciiWhitespace(c: char) {
    c == ' ' || c == '\t' || c == '\n' || c == '\U{000C}' || c == '\r'
  }

  predicate IsDigit(c: char) { '0' <= c <= '9' }

  function DigitValue(c: char): (d: nat)
    requires IsDigit(c)
    ensures d < 10
  {
    (c as int) - ('0' as int)
  }

  function DigitChar(d: nat): (c: char)
    requires d < 10
    ensures IsDigit(c) && DigitValue(c) == d
  {
    (('0' as int) + d) as char
  }

  /* ---------------------------------------------------------------- */
  /* Trimming                                                          */
  /* ---------------------------------------------------------------- */

  /** `trim_start_matches(p)`: drops the longest prefix of characters satisfying `p`. */
  function TrimStartWhile(s: string, p: char -> bool): (r: string)
    ensures |r| <= |s| && r == s[|s| - |r|..]
    ensures forall i :: 0 <= i < |s| - |r| ==> p(s[i])
    ensures r == [] || !p(r[0])
    decreases |s|
  {
    if |s| > 0 && p(s[0]) then TrimStartWhile(s[1..], p) else s
  }

  /** `trim_end_matches(p)`: drops the longest suffix of characters satisfying `p`. */
  function TrimEndWhile(s: string, p: char -> bool): (r: string)
    ensures |r| <= |s| && r == s[..|r|]
    ensures forall i :: |r| <= i < |s| ==> p(s[i])
    ensures r == [] || !p(r[|r| - 1])
    decreases |s|
  {
    if |s| > 0 && p(s[|s| - 1]) then TrimEndWhile(s[..|s| - 1], p) else s
  }

  /** `str::trim`: drops leading and trailing Unicode whitespace. */
  function Trim(s: string): string {
    TrimEndWhile(TrimStartWhile(s, IsWhitespace), IsWhitespace)
  }

  /** A text that neither starts nor ends with whitespace is its own trim. */
  lemma TrimUnchanged(s: string)
    requires s == [] || (!IsWhitespace(s[0]) && !IsWhitespace(s[|s| - 1]))
    ensures Trim(s) == s
  {
    assert TrimStartWhile(s, IsWhitespace) == s;
  }

  /** Trimming twice is trimming once. */
  lemma TrimTwice(s: string)
    ensures Trim(Trim(s)) == Trim(s)
  {
    var a := TrimStartWhile(s, IsWhitespace);
    var t := Trim(s);
    if t != [] {
      assert t[0] == a[0];
      TrimUnchanged(t);
    }
  }

  /** Trim(s) is empty exactly when every character of `s` is whitespace. */
  lemma TrimEmptyIff(s: string)
    ensures Trim(s) == [] <==> forall k :: 0 <= k < |s| ==> IsWhitespace(s[k])
  {
    var a := TrimStartWhile(s, IsWhitespace);
    if Trim(s) == [] {
      // the start trim stops before a non-whitespace character, which the end trim would keep
      assert a == [];
    }
  }

  /** `trim_end_matches(pat)` for a non-empty string pattern: strips `pat` repeatedly. */
  function TrimEndPattern(s: string, pat: string): (r: string)
    requires |pat| > 0
    ensures |r| <= |s| && r == s[..|r|]
    ensures !EndsWith(r, pat)
    decreases |s|
  {
    if EndsWith(s, pat) then TrimEndPattern(s[..|s| - |pat|], pat) else s
  }

  /* ---------------------------------------------------------------- */
  /* Prefixes, suffixes, searching                                     */
  /* ---------------------------------------------------------------- */

  predicate StartsWith(s: string, p: string) { |p| <= |s| && s[..|p|] == p }

  predicate EndsWith(s: string, p: string) { |p| <= |s| && s[|s| - |p|..] == p }

  /** Index of the first occurrence of `c` in `s`, if any. */
  function IndexOf<T(==)>(s: seq<T>, c: T): (r: Option<nat>)
    ensures r.None? <==> c !in s
    ensures r.Some? ==> r.value < |s| && s[r.value] == c && c !in s[..r.value]
  {
    if |s| == 0 then None
    else if s[0] == c then Some(0)
    else match IndexOf(s[1..], c)
      case None => None
      case Some(i) => assert s[..i + 1] == [s[0]] + s[1..][..i]; Some(i + 1)
  }

  /** The first occurrence is the one with no occurrence before it. */
  lemma IndexOfIs<T>(s: seq<T>, c: T, i: nat)
    requires i < |s| && s[i] == c && c !in s[..i]
    ensures IndexOf(s, c) == Some(i)
  {
    assert s[i] == c;
  }

  /** `pat` occurs in `s` starting at index `k`. */
  predicate OccursAt(s: string, pat: string, k: nat) {
    k + |pat| <= |s| && s[k..k + |pat|] == pat
  }

  /** Occurrences in `s[1..]` are those in `s` one place earlier. */
  lemma OccursShift(s: string, pat: string)
    requires |s| > 0
    ensures forall k: nat :: 1 <= k ==> OccursAt(s, pat, k) == OccursAt(s[1..], pat, k - 1)
  {
    forall k: nat | 1 <= k
      ensures OccursAt(s, pat, k) == OccursAt(s[1..], pat, k - 1)
    {
      if k + |pat| <= |s| {
        var a, b := s[k..k + |pat|], s[1..][k - 1..k - 1 + |pat|];
        assert |a| == |b| && forall j :: 0 <= j < |a| ==> a[j] == s[k + j] == b[j];
      }
    }
  }

  /** Index of the first occurrence of the non-empty pattern `pat` in `s`, if any. */
  function Find(s: string, pat: string): (r: Option<nat>)
    requires |pat| > 0
    ensures r.Some? ==> OccursAt(s, pat, r.value)
    ensures r.Some? ==> forall k: nat :: k < r.value ==> !OccursAt(s, pat, k)
    ensures r.None? ==> forall k: nat :: !OccursAt(s, pat, k)
    decreases |s|
  {
    if |s| < |pat| then None
    else if s[..|pat|] == pat then Some(0)
    else
      OccursShift(s, pat);
      match Find(s[1..], pat)
      case None => None
      case Some(i) => Some(i + 1)
  }

  /** `s.splitn(2, pat)` with both parts present: the text around the first `pat`. */
  function SplitOnce(s: string, pat: string): (r: Option<(string, string)>)
    requires |pat| > 0
    ensures r.Some? ==> s == r.value.0 + pat + r.value.1
    ensures r.None? <==> Find(s, pat).None?
  {
    match Find(s, pat)
    case None => None
    case Some(i) =>
      assert s == s[..i] + s[i..i + |pat|] + s[i + |pat|..];
      Some((s[..i], s[i + |pat|..]))
  }

  /** A one-character separator absent from `head` splits `head + sep + rest` right after `head`. */
  lemma SplitOnceAfter(head: string, c: char, rest: string)
    requires c !in head
    ensures SplitOnce(head + [c] + rest, [c]) == Some((head, rest))
  {
    var s := head + [c] + rest;
    assert OccursAt(s, [c], |head|);
    forall k: nat | k < |head|
      ensures !OccursAt(s, [c], k)
    {
      assert s[k..k + 1][0] == head[k];
    }
    assert s[..|head|] == head;
    assert s[|head| + 1..] == rest;
  }

  /** Without the separator character there is nothing to split. */
  lemma SplitOnceAbsent(s: string, c: char)
    requires c !in s
    ensures SplitOnce(s, [c]).None?
  {
    forall k: nat | k + 1 <= |s|
      ensures !OccursAt(s, [c], k)
    {
      assert s[k..k + 1][0] == s[k];
    }
  }

  /* ---------------------------------------------------------------- */
  /* Splitting                                                         */
  /* ---------------------------------------------------------------- */

  /**
   * `s.split(sep)` for a single separator element (a character in a string,
   * an empty line in a list of lines): always at least one piece.
   */
  function Split<T(==)>(s: seq<T>, sep: T): (r: seq<seq<T>>)
    ensures |r| >= 1
    ensures forall k :: 0 <= k < |r| ==> sep !in r[k]
    decreases |s|
  {
    match IndexOf(s, sep)
    case None => [s]
    case Some(i) => [s[..i]] + Split(s[i + 1..], sep)
  }

  /** Splitting at the first separator, at `i`. */
  lemma SplitAt<T>(s: seq<T>, sep: T, i: nat)
    requires IndexOf(s, sep) == Some(i)
    ensures Split(s, sep) == [s[..i]] + Split(s[i + 1..], sep)
  {
  }

  /** The first piece runs from the start to the first separator, or to the end. */
  lemma SplitFirstPiece<T>(s: seq<T>, sep: T)
    ensures var f := Split(s, sep)[0]; |f| <= |s| && s[..|f|] == f && (|f| == |s| || s[|f|] == sep)
  {
  }

  /** There is a second piece exactly when the separator occurs. */
  lemma SplitCount<T>(s: seq<T>, sep: T)
    ensures |Split(s, sep)| >= 2 <==> sep in s
  {
    if sep in s {
      SecondPieceAt(s, sep, IndexOf(s, sep).value);
    } else {
      assert Split(s, sep) == [s];
    }
  }

  /** With a separator present, the second piece runs from after the first separator. */
  lemma SplitSecondPiece<T>(s: seq<T>, sep: T)
    requires sep in s
    ensures |Split(s, sep)| >= 2
    ensures var a := Split(s, sep)[0];
      var b := Split(s, sep)[1];
      |a| + 1 + |b| <= |s| && s[..|a|] == a && s[|a|] == sep && s[|a| + 1..|a| + 1 + |b|] == b
      && (|a| + 1 + |b| == |s| || s[|a| + 1 + |b|] == sep)
  {
    var i := IndexOf(s, sep).value;
    SecondPieceAt(s, sep, i);
  }

  /** The pieces around the first separator, at `i`. */
  lemma SecondPieceAt<T>(s: seq<T>, sep: T, i: nat)
    requires IndexOf(s, sep) == Some(i)
    ensures |Split(s, sep)| >= 2 && Split(s, sep)[0] == s[..i]
    ensures var b := Split(s, sep)[1];
      i + 1 + |b| <= |s| && s[i + 1..i + 1 + |b|] == b && (i + 1 + |b| == |s| || s[i + 1 + |b|] == sep)
  {
    SplitAt(s, sep, i);
    var rest := s[i + 1..];
    SplitFirstPiece(rest, sep);
    PiecesAround(s, sep, i, Split(rest, sep)[0]);
  }

  /** The facts of SplitSecondPiece for a separator at `i` and a first piece `b` of what follows. */
  lemma PiecesAround<T>(s: seq<T>, sep: T, i: nat, b: seq<T>)
    requires i < |s| && s[i] == sep
    requires |b| <= |s| - i - 1 && s[i + 1..][..|b|] == b && (|b| == |s| - i - 1 || s[i + 1..][|b|] == sep)
    ensures i + 1 + |b| <= |s| && s[i] == sep && s[i + 1..i + 1 + |b|] == b
    ensures i + 1 + |b| == |s| || s[i + 1 + |b|] == sep
  {
    var rest := s[i + 1..];
    assert s[i + 1..i + 1 + |b|] == rest[..|b|];
    if |b| < |rest| {
      assert s[i + 1 + |b|] == rest[|b|];
    }
  }

  /** Joins pieces with `sep` between them: the inverse of Split. */
  function Join<T>(pieces: seq<seq<T>>, sep: T): seq<T>
    requires |pieces| >= 1
  {
    if |pieces| == 1 then pieces[0] else pieces[0] + [sep] + Join(pieces[1..], sep)
  }

  /** A joined list ends with its last piece, preceded by the separator when there are several. */
  lemma {:induction false} JoinSuffix<T>(pieces: seq<seq<T>>, sep: T)
    requires |pieces| >= 1
    ensures |Join(pieces, sep)| >= |pieces[|pieces| - 1]|
    ensures Join(pieces, sep)[|Join(pieces, sep)| - |pieces[|pieces| - 1]|..] == pieces[|pieces| - 1]
    ensures |pieces| >= 2 ==> |Join(pieces, sep)| > |pieces[|pieces| - 1]|
    ensures |pieces| >= 2 ==> Join(pieces, sep)[|Join(pieces, sep)| - |pieces[|pieces| - 1]| - 1] == sep
  {
    if |pieces| > 1 {
      JoinSuffix(pieces[1..], sep);
      assert pieces[1..][|pieces[1..]| - 1] == pieces[|pieces| - 1];
    }
  }

  /** A joined list starts where its first piece starts and ends where its last piece ends. */
  lemma JoinEnds<T>(pieces: seq<seq<T>>, sep: T, first: seq<T>, last: seq<T>)
    requires |pieces| >= 1 && pieces[0] == first && pieces[|pieces| - 1] == last && |first| > 0 && |last| > 0
    ensures |Join(pieces, sep)| > 0 && Join(pieces, sep)[0] == first[0]
    ensures Join(pieces, sep)[|Join(pieces, sep)| - 1] == last[|last| - 1]
  {
    JoinSuffix(pieces, sep);
    var j := Join(pieces, sep);
    assert j[|j| - |last|..][|last| - 1] == j[|j| - 1];
    if |pieces| > 1 {
      assert j == pieces[0] + ([sep] + Join(pieces[1..], sep));
    }
  }

  lemma {:induction false} JoinSplit<T>(s: seq<T>, sep: T)
    ensures Join(Split(s, sep), sep) == s
    decreases |s|
  {
    match IndexOf(s, sep)
    case None =>
    case Some(i) =>
      var rest := Split(s[i + 1..], sep);
      assert Split(s, sep) == [s[..i]] + rest;
      JoinSplit(s[i + 1..], sep);
      assert ([s[..i]] + rest)[1..] == rest;
      assert Join(Split(s, sep), sep) == s[..i] + [sep] + Join(rest, sep);
      assert s == s[..i] + [sep] + s[i + 1..];
  }

  /** Split undoes Join when no piece holds the separator. */
  lemma {:induction false} SplitJoin<T>(pieces: seq<seq<T>>, sep: T)
    requires |pieces| >= 1 && forall k :: 0 <= k < |pieces| ==> sep !in pieces[k]
    ensures Split(Join(pieces, sep), sep) == pieces
  {
    if |pieces| > 1 {
      var p, rest := pieces[0], Join(pieces[1..], sep);
      SplitAfterFirst(p, sep, rest);
      SplitJoin(pieces[1..], sep);
      assert pieces == [p] + pieces[1..];
    }
  }

  /** Text before the first separator is the first piece. */
  lemma SplitAfterFirst<T>(p: seq<T>, sep: T, rest: seq<T>)
    requires sep !in p
    ensures Split(p + [sep] + rest, sep) == [p] + Split(rest, sep)
  {
    var s := p + [sep] + rest;
    assert s[..|p|] == p && s[|p| + 1..] == rest;
    IndexOfIs(s, sep, |p|);
    SplitAt(s, sep, |p|);
  }

  /** Appending one element either opens a new, empty last piece (a separator) or extends the last piece. */
  lemma {:induction false} SplitSnoc<T>(s: seq<T>, sep: T, x: T)
    ensures var r := Split(s, sep);
      Split(s + [x], sep) == if x == sep then r + [[]] else r[..|r| - 1] + [r[|r| - 1] + [x]]
    decreases |s|, 1
  {
    match IndexOf(s, sep)
    case None =>
      if x == sep {
        SplitSnocLast(s, sep);
      } else {
        assert sep !in s + [x];
      }
    case Some(i) =>
      SplitSnocAfter(s, sep, x, i);
  }

  /** The recursive case of SplitSnoc: `s` has its first separator at `i`. */
  lemma {:induction false} SplitSnocAfter<T>(s: seq<T>, sep: T, x: T, i: nat)
    requires IndexOf(s, sep) == Some(i)
    ensures var r := Split(s, sep);
      Split(s + [x], sep) == if x == sep then r + [[]] else r[..|r| - 1] + [r[|r| - 1] + [x]]
    decreases |s|, 0
  {
    var u := s[i + 1..];
    SnocFirstSeparator(s, sep, x, i);
    SplitSnoc(u, sep, x);
    ConsSnoc(s[..i], Split(u, sep), x == sep, x);
  }

  /** Appending keeps the first separator where it was, so both splits start with the same piece. */
  lemma SnocFirstSeparator<T>(s: seq<T>, sep: T, x: T, i: nat)
    requires IndexOf(s, sep) == Some(i)
    ensures Split(s, sep) == [s[..i]] + Split(s[i + 1..], sep)
    ensures Split(s + [x], sep) == [s[..i]] + Split(s[i + 1..] + [x], sep)
  {
    SplitAt(s, sep, i);
    var t := s + [x];
    assert t[..i] == s[..i];
    IndexOfIs(t, sep, i);
    SplitAt(t, sep, i);
    assert t[i + 1..] == s[i + 1..] + [x];
  }

  /** The base case of SplitSnoc: a separator appended to a sequence without one. */
  lemma SplitSnocLast<T>(s: seq<T>, sep: T)
    requires sep !in s
    ensures Split(s + [sep], sep) == [s, []]
  {
    var t := s + [sep];
    assert t[..|s|] == s;
    IndexOfIs(t, sep, |s|);
    assert t[|s| + 1..] == [];
  }


  /** The list algebra of the recursive case of SplitSnoc. */
  lemma ConsSnoc<T>(head: seq<T>, r: seq<seq<T>>, isSep: bool, x: T)
    requires |r| >= 1
    ensures var c := [head] + r;
      [head] + (if isSep then r + [[]] else r[..|r| - 1] + [r[|r| - 1] + [x]]) ==
      (if isSep then c + [[]] else c[..|c| - 1] + [c[|c| - 1] + [x]])
  {
    var c := [head] + r;
    assert c[..|c| - 1] == [head] + r[..|r| - 1];
  }


  /** Length of the longest prefix of `t` free of separators. */
  function RunLength(t: string, isSep: char -> bool): (n: nat)
    ensures n <= |t|
    ensures forall j :: 0 <= j < n ==> !isSep(t[j])
    ensures n == |t| || isSep(t[n])
  {
    if |t| == 0 || isSep(t[0]) then 0 else 1 + RunLength(t[1..], isSep)
  }

  /** No character of `w` is a separator. */
  predicate NoSeparator(w: string, isSep: char -> bool) {
    forall j :: 0 <= j < |w| ==> !isSep(w[j])
  }

  /** `split_whitespace` / `split_ascii_whitespace`: the maximal runs of non-separators. */
  function Words(s: string, isSep: char -> bool): (r: seq<string>)
    ensures forall w :: w in r ==> w != [] && NoSeparator(w, isSep)
    decreases |s|
  {
    if s == [] then []
    else if isSep(s[0]) then Words(s[1..], isSep)
    else
      var len := RunLength(s, isSep);
      var word := s[..len];
      assert word != [] && NoSeparator(word, isSep) by {
        forall j | 0 <= j < |word|
          ensures !isSep(word[j])
        {
          assert word[j] == s[j];
        }
      }
      [word] + Words(s[len..], isSep)
  }

  /** The tokens, each preceded by one space. */
  function Spaced(tokens: seq<string>): string {
    if tokens == [] then [] else [' '] + tokens[0] + Spaced(tokens[1..])
  }

  /** Spacing a non-empty list of tokens ends with the last token. */
  lemma {:induction false} SpacedSuffix(tokens: seq<string>)
    requires |tokens| >= 1
    ensures |Spaced(tokens)| >= |tokens[|tokens| - 1]|
    ensures Spaced(tokens)[|Spaced(tokens)| - |tokens[|tokens| - 1]|..] == tokens[|tokens| - 1]
  {
    if |tokens| > 1 {
      SpacedSuffix(tokens[1..]);
      assert tokens[1..][|tokens[1..]| - 1] == tokens[|tokens| - 1];
    } else {
      assert Spaced(tokens[1..]) == [];
    }
  }

  /** A run of non-separators followed by a separator or the end has the run's length. */
  lemma {:induction false} RunLengthOf(t: string, rest: string, isSep: char -> bool)
    requires NoSeparator(t, isSep) && (rest == [] || isSep(rest[0]))
    ensures RunLength(t + rest, isSep) == |t|
  {
    if t != [] {
      assert (t + rest)[1..] == t[1..] + rest;
      RunLengthOf(t[1..], rest, isSep);
    }
  }

  /** Splitting spaced tokens on whitespace gives the tokens back. */
  lemma {:induction false} WordsSpaced(tokens: seq<string>)
    requires forall k :: 0 <= k < |tokens| ==> tokens[k] != [] && NoSeparator(tokens[k], IsWhitespace)
    ensures Words(Spaced(tokens), IsWhitespace) == tokens
  {
    if tokens != [] {
      var t, rest := tokens[0], Spaced(tokens[1..]);
      var s := Spaced(tokens);
      assert s[0] == ' ' && s[1..] == t + rest;
      RunLengthOf(t, rest, IsWhitespace);
      assert (t + rest)[..|t|] == t && (t + rest)[|t|..] == rest;
      WordsSpaced(tokens[1..]);
      assert tokens == [t] + tokens[1..];
    }
  }

  /* ---------------------------------------------------------------- */
  /* Integer parsing (Rust `FromStr` for integer types)                */
  /* ---------------------------------------------------------------- */

  const U16_LIMIT: nat := 0x1_0000
  const U32_LIMIT: nat := 0x1_0000_0000
  const U64_LIMIT: nat := 0x1_0000_0000_0000_0000
  const I16_MIN: int := -0x8000
  const I16_MAX: int := 0x7FFF
  const I32_MIN: int := -0x8000_0000
  const I32_MAX: int := 0x7FFF_FFFF
  const I64_MIN: int := -0x8000_0000_0000_0000
  const I64_MAX: int := 0x7FFF_FFFF_FFFF_FFFF

  predicate AllDigits(s: string) { forall i :: 0 <= i < |s| ==> IsDigit(s[i]) }

  /** A run of digits followed by a digit is a longer run of digits. */
  lemma AllDigitsExtend(s: string, i: nat, j: nat)
    requires i <= j < |s| && AllDigits(s[i..j]) && IsDigit(s[j])
    ensures AllDigits(s[i..j + 1])
  {
    assert s[i..j + 1] == s[i..j] + [s[j]];
  }

  /** The decimal value of a string of digits (leading zeros allowed). */
  function DecimalValue(s: string): nat
    requires AllDigits(s)
  {
    if s == [] then 0 else DecimalValue(s[..|s| - 1]) * 10 + DigitValue(s[|s| - 1])
  }

  /** The shortest decimal spelling of `n`. */
  function ToDecimal(n: nat): (s: string)
    ensures |s| > 0 && AllDigits(s)
  {
    if n < 10 then [DigitChar(n)] else ToDecimal(n / 10) + [DigitChar(n % 10)]
  }

  lemma {:induction false} DecimalOfToDecimal(n: nat)
    ensures DecimalValue(ToDecimal(n)) == n
  {
    if n >= 10 {
      DecimalOfToDecimal(n / 10);
      var s := ToDecimal(n);
      assert s[..|s| - 1] == ToDecimal(n / 10);
    }
  }

  /**
   * Unsigned `FromStr` (u16, u32, u64, usize) with `limit` = 2^bits: an
   * optional '+' followed by one or more ASCII digits whose value is
   * below the limit. Everything else is an error.
   */
  function ParseUnsigned(s: string, limit: nat): (r: Option<nat>)
    ensures r.Some? ==> r.value < limit
  {
    var digits := if |s| > 0 && s[0] == '+' then s[1..] else s;
    if |digits| > 0 && AllDigits(digits) && DecimalValue(digits) < limit
    then Some(DecimalValue(digits)) else None
  }

  /**
   * Signed `FromStr` (i16, i32, i64): an optional '+' or '-' followed by
   * one or more ASCII digits whose value lies in [lo, hi].
   */
  function ParseSigned(s: string, lo: int, hi: int): (r: Option<int>)
    ensures r.Some? ==> lo <= r.value <= hi
  {
    var negative := |s| > 0 && s[0] == '-';
    var digits := if |s| > 0 && (s[0] == '+' || s[0] == '-') then s[1..] else s;
    if |digits| > 0 && AllDigits(digits) then
      var v: int := if negative then 0 - (DecimalValue(digits) as int) else DecimalValue(digits);
      if lo <= v <= hi then Some(v) else None
    else None
  }

  /** The printed form of every value below the limit parses back to it. */
  lemma ParseUnsignedToDecimal(n: nat, limit: nat)
    requires n < limit
    ensures ParseUnsigned(ToDecimal(n), limit) == Some(n)
  {
    DecimalOfToDecimal(n);
  }

  /** A signed value written with an explicit sign parses back to itself. */
  lemma ParseSignedRoundTrip(v: int, lo: int, hi: int)
    requires lo <= v <= hi
    ensures ParseSigned((if v < 0 then "-" else "+") + ToDecimal(if v < 0 then -v else v), lo, hi) == Some(v)
  {
    var n: nat := if v < 0 then -v else v;
    var d := ToDecimal(n);
    DecimalOfToDecimal(n);
    if v < 0 {
      var s := "-" + d;
      assert s[0] == '-' && s[1..] == d;
    } else {
      var s := "+" + d;
      assert s[0] == '+' && s[1..] == d;
    }
  }

  /* ---------------------------------------------------------------- */
  /* Counting and summing                                              */
  /* ---------------------------------------------------------------- */

  /** A positive multiple of `d` is at least `d`. */
  lemma MulAtLeast(k: int, d: int)
    requires k >= 1 && d > 0
    ensures k * d >= d
  {
  }

  /** The only multiple of `d` strictly between `-d` and `d` is zero. */
  lemma SmallMultiple(k: int, d: int)
    requires d > 0 && -d < k * d < d
    ensures k == 0
  {
    if k >= 1 {
      MulAtLeast(k, d);
    } else if k <= -1 {
      MulAtLeast(-k, d);
    }
  }

  /** Adding the divisor does not change the remainder. */
  lemma ModAddDivisor(x: nat, d: nat)
    requires d > 0
    ensures (x + d) % d == x % d
  {
    var q, r := x / d, x % d;
    var q', r' := (x + d) / d, (x + d) % d;
    assert (q + 1 - q') * d == r' - r;
    SmallMultiple(q + 1 - q', d);
  }

  /** Number of occurrences of `x` in `s`. */
  function Count<T(==)>(s: seq<T>, x: T): (n: nat)
    ensures n <= |s|
    ensures n == multiset(s)[x]
  {
    if s == [] then 0
    else
      assert s == [s[0]] + s[1..];
      (if s[0] == x then 1 else 0) + Count(s[1..], x)
  }

  function Sum(s: seq<int>): int {
    if s == [] then 0 else s[0] + Sum(s[1..])
  }

  lemma {:induction false} SumAppend(a: seq<int>, b: seq<int>)
    ensures Sum(a + b) == Sum(a) + Sum(b)
  {
    if a != [] {
      assert (a + b)[0] == a[0];
      assert (a + b)[1..] == a[1..] + b;
      SumAppend(a[1..], b);
    } else {
      assert a + b == b;
    }
  }

  /** The sum of the values of a map, in no particular order (`values().sum()`). */
  ghost function SumValues<K>(m: map<K, nat>): nat
    decreases |m|
  {
    if |m| == 0 then 0
    else
      var k := Pick(m.Keys);
      CardRemove(m, k);
      m[k] + SumValues(m - {k})
  }

  /** An arbitrary element of a non-empty set. */
  ghost function Pick<K>(s: set<K>): (k: K)
    requires s != {}
    ensures k in s
  {
    var k :| k in s; k
  }

  lemma CardRemove<K>(m: map<K, nat>, k: K)
    requires k in m
    ensures |m - {k}| == |m| - 1
  {
    assert (m - {k}).Keys == m.Keys - {k};
  }

  /** The sum does not depend on the key taken out first. */
  lemma {:induction false} SumValuesRemove<K>(m: map<K, nat>, k: K)
    requires k in m
    ensures SumValues(m) == m[k] + SumValues(m - {k})
    decreases |m|
  {
    var j := Pick(m.Keys);
    if j != k {
      var mj := m - {j};
      var mk := m - {k};
      CardRemove(m, j);
      CardRemove(m, k);
      assert k in mj && j in mk && mj[k] == m[k] && mk[j] == m[j];
      SumValuesRemove(mj, k);
      SumValuesRemove(mk, j);
      MapMinusTwice(m, {j}, {k});
      MapMinusTwice(m, {k}, {j});
      assert {j} + {k} == {k} + {j};
    }
  }

  /** Storing `v` under `k` replaces whatever `k` held before in the sum. */
  lemma SumValuesUpdate<K>(m: map<K, nat>, k: K, v: nat)
    ensures SumValues(m[k := v]) == SumValues(m - {k}) + v
  {
    var m' := m[k := v];
    SumValuesRemove(m', k);
    assert m' - {k} == m - {k};
  }

  /** Removing two sets of keys in turn removes their union. */
  lemma MapMinusTwice<K, V>(m: map<K, V>, a: set<K>, b: set<K>)
    ensures (m - a) - b == m - (a + b)
  {
  }

  /** Storing under a key outside the removed set commutes with removing it. */
  lemma MapMinusUpdate<K, V>(m: map<K, V>, a: set<K>, k: K, v: V)
    requires k !in a
    ensures m[k := v] - a == (m - a)[k := v]
  {
  }

  /** Marking one more unmarked element as seen leaves one fewer unseen. */
  lemma UnseenShrinks<T>(all: set<T>, seen: set<T>, x: T)
    requires x in all && x !in seen
    ensures |all - (seen + {x})| == |all - seen| - 1
  {
    var left := all - seen;
    assert all - (seen + {x}) == left - {x};
    assert left == (left - {x}) + {x};
  }

  /** The sum of a map with two keys. */
  lemma SumTwo<K>(a: K, x: nat, b: K, y: nat)
    requires a != b
    ensures SumValues(map[a := x, b := y]) == x + y
  {
    SumValuesUpdate(map[a := x], b, y);
    assert map[a := x] - {b} == map[a := x];
    var empty: map<K, nat> := map[];
    SumValuesUpdate(empty, a, x);
    assert empty - {a} == empty;
  }

  /* ---------------------------------------------------------------- */
  /* UTF-8 byte lengths: Rust's `str::len` and byte-offset slicing      */
  /* ---------------------------------------------------------------- */

  /** The number of bytes a character takes in UTF-8. */
  function Utf8Width(c: char): (w: nat)
    ensures 1 <= w <= 4
  {
    if c as int < 0x80 then 1 else if c as int < 0x800 then 2 else if c as int < 0x1_0000 then 3 else 4
  }

  /** `str::len`: the number of bytes of the UTF-8 encoding. */
  function Utf8Length(s: string): (n: nat)
    ensures n >= |s|
  {
    if s == [] then 0 else Utf8Width(s[0]) + Utf8Length(s[1..])
  }

  /** The bytes of a non-empty prefix: its first character's, then the rest's. */
  lemma Utf8Prefix(s: string, k: nat)
    requires 0 < k <= |s|
    ensures Utf8Length(s[..k]) == Utf8Width(s[0]) + Utf8Length(s[1..][..k - 1])
  {
    assert s[..k][0] == s[0] && s[..k][1..] == s[1..][..k - 1];
  }

  /** Byte lengths add over a concatenation. */
  lemma {:induction false} Utf8Append(a: string, b: string)
    ensures Utf8Length(a + b) == Utf8Length(a) + Utf8Length(b)
    decreases |a|
  {
    if a == [] {
      assert a + b == b;
    } else {
      assert (a + b)[0] == a[0] && (a + b)[1..] == a[1..] + b;
      Utf8Append(a[1..], b);
    }
  }

  /** An ASCII string has one byte per character. */
  lemma {:induction false} AsciiLength(s: string)
    requires forall i :: 0 <= i < |s| ==> s[i] as int < 0x80
    ensures Utf8Length(s) == |s|
    decreases |s|
  {
    if s != [] {
      assert forall i :: 0 <= i < |s| - 1 ==> s[1..][i] == s[i + 1];
      AsciiLength(s[1..]);
    }
  }

  /**
   * The character boundary at byte `b`: the number of characters whose bytes
   * are exactly the first `b`, or `None` when byte `b` falls inside a
   * character or past the end, where slicing at `b` panics.
   */
  function ByteBoundary(s: string, b: nat): (r: Option<nat>)
    ensures r.Some? ==> r.value <= |s| && Utf8Length(s[..r.value]) == b
    ensures r.None? ==> forall k :: 0 <= k <= |s| ==> Utf8Length(s[..k]) != b
    decreases |s|
  {
    if b == 0 then Some(0)
    else if s == [] then None
    else if Utf8Width(s[0]) > b then
      assert forall k :: 0 < k <= |s| ==> Utf8Length(s[..k]) > b by {
        forall k | 0 < k <= |s| ensures Utf8Length(s[..k]) > b { Utf8Prefix(s, k); }
      }
      None
    else
      match ByteBoundary(s[1..], b - Utf8Width(s[0]))
      case None =>
        assert forall k :: 0 < k <= |s| ==> Utf8Length(s[..k]) != b by {
          forall k | 0 < k <= |s| ensures Utf8Length(s[..k]) != b { Utf8Prefix(s, k); }
        }
        None
      case Some(j) =>
        Utf8Prefix(s, j + 1);
        Some(j + 1)
  }

  /** The boundary is unique: every character takes at least one byte. */
  lemma {:induction false} ByteBoundaryAt(s: string, k: nat)
    requires k <= |s|
    ensures ByteBoundary(s, Utf8Length(s[..k])) == Some(k)
    decreases k
  {
    var b := Utf8Length(s[..k]);
    if k > 0 {
      Utf8Prefix(s, k);
      ByteBoundaryAt(s[1..], k - 1);
    } else {
      assert s[..k] == [];
    }
  }
}
