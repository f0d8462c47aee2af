/*
 * Day 18, part two: an arithmetic evaluator in three stages. A Scanner
 * turns a line into tokens, a recursive-descent Parser builds an
 * expression tree, and `Evaluate` computes its value. The grammar is
 * inverted on purpose: `+` and `-` bind tighter than `*` and `/`, and
 * both levels are left-associative.
 *
 *   expression := factor
 *   factor     := term (('*' | '/') term)*
 *   term       := unary (('+' | '-') unary)*
 *   unary      := '-' unary | primary
 *   primary    := NUMBER | '(' expression ')'
 */
module Day18b {
  import opened Common

  datatype Token = LeftParen | RightParen | Minus | Plus | Slash | Star | Number(n: nat) | EndOfFile

  datatype Expr =
    | Binary(left: Expr, op: Token, right: Expr)
    | Unary(op: Token, right: Expr)
    | Grouping(inner: Expr)
    | Literal(tok: Token)

  /* ================================================================ */
  /* Scanning: reference definition                                    */
  /* ================================================================ */

  /** Length of the run of ASCII digits at the start of `s`. */
  function DigitRun(s: string): (n: nat)
    ensures n <= |s| && (n == |s| || !IsDigit(s[n]))
    ensures forall j :: 0 <= j < n ==> IsDigit(s[j])
  {
    if s != [] && IsDigit(s[0]) then 1 + DigitRun(s[1..]) else 0
  }

  /** A digit run is determined by where the digits stop. */
  lemma DigitRunIs(s: string, k: nat)
    requires k <= |s| && AllDigits(s[..k]) && (k == |s| || !IsDigit(s[k]))
    ensures DigitRun(s) == k
  {
    forall j | 0 <= j < k
      ensures IsDigit(s[j])
    {
      assert s[..k][j] == s[j];
    }
  }

  /** The token a symbol character stands for. */
  function SymbolToken(c: char): Option<Token> {
    if c == '(' then Some(LeftParen)
    else if c == ')' then Some(RightParen)
    else if c == '-' then Some(Minus)
    else if c == '+' then Some(Plus)
    else if c == '*' then Some(Star)
    else if c == '/' then Some(Slash)
    else None
  }

  /**
   * The tokens that one `scan_token` call produces at the start of `s`, and how many characters it consumes.
   * Whitespace and every other unrecognised character alike produce nothing.
   */
  function ScanStep(s: string): (step: (seq<Token>, nat))
    requires |s| > 0
    ensures 0 < step.1 <= |s| && |step.0| <= 1
  {
    var c := s[0];
    if SymbolToken(c).Some? then ([SymbolToken(c).value], 1)
    else if IsDigit(c) then
      var n := DigitRun(s);
      ([Number(DecimalValue(s[..n]))], n)
    else ([], 1)
  }

  /** The tokens of a line, without the closing EndOfFile. */
  function Lex(s: string): seq<Token>
    decreases |s|
  {
    if s == [] then [] else var step := ScanStep(s); step.0 + Lex(s[step.1..])
  }

  /** Every number literal fits in a u64 (otherwise `number` panics on `unwrap`). */
  predicate Fits(ts: seq<Token>) {
    forall t :: t in ts && t.Number? ==> t.n < U64_LIMIT
  }

  /** Scanning never produces EndOfFile: the one that closes `scan`'s result is the only one. */
  lemma {:induction false} LexHasNoEndOfFile(s: string)
    ensures EndOfFile !in Lex(s)
    decreases |s|
  {
    if s != [] {
      LexHasNoEndOfFile(s[ScanStep(s).1..]);
    }
  }

  /** One `scan_token` step followed by the rest of the scan. */
  lemma LexUnfold(s: string)
    requires |s| > 0
    ensures Lex(s) == ScanStep(s).0 + Lex(s[ScanStep(s).1..])
  {
  }

  /** The scan invariant survives one `scan_token` step. */
  lemma LexStep(before: seq<Token>, rest: string)
    requires |rest| > 0
    ensures before + Lex(rest) == (before + ScanStep(rest).0) + Lex(rest[ScanStep(rest).1..])
  {
    var step := ScanStep(rest);
    var tail := Lex(rest[step.1..]);
    LexUnfold(rest);
    assert before + (step.0 + tail) == (before + step.0) + tail;
  }

  lemma FitsAppend(a: seq<Token>, b: seq<Token>)
    ensures Fits(a + b) <==> Fits(a) && Fits(b)
  {
    assert forall t :: t in a + b <==> t in a || t in b;
  }

  /** Each of the six symbols produces exactly its own token; any other non-digit produces none. */
  lemma LexFirstChar(c: char, rest: string)
    requires !IsDigit(c)
    ensures SymbolToken(c).Some? ==> Lex([c] + rest) == [SymbolToken(c).value] + Lex(rest)
    ensures SymbolToken(c).None? ==> Lex([c] + rest) == Lex(rest)
  {
    assert ([c] + rest)[1..] == rest;
  }

  /** A maximal run of digits becomes one Number holding its decimal value. */
  lemma LexDigits(digits: string, rest: string)
    requires |digits| > 0 && AllDigits(digits)
    requires rest == [] || !IsDigit(rest[0])
    ensures Lex(digits + rest) == [Number(DecimalValue(digits))] + Lex(rest)
  {
    var s := digits + rest;
    assert s[..|digits|] == digits;
    DigitRunIs(s, |digits|);
    assert s[|digits|..] == rest;
  }

  /** Concrete syntax of a token, as the scanner reads it. */
  function TokenText(t: Token): string
    requires t != EndOfFile
  {
    match t
    case LeftParen => "("
    case RightParen => ")"
    case Minus => "-"
    case Plus => "+"
    case Slash => "/"
    case Star => "*"
    case Number(n) => ToDecimal(n)
  }

  /** The space written between two tokens: none after `(` or before `)`, one otherwise. */
  function Gap(left: Token, right: Token): string {
    if left == LeftParen || right == RightParen then "" else " "
  }

  /** Writes tokens out the way the puzzle's lines are written, e.g. `2 * (3 + 4)`. */
  function Unlex(ts: seq<Token>): string
    requires EndOfFile !in ts
  {
    if ts == [] then []
    else if |ts| == 1 then TokenText(ts[0])
    else TokenText(ts[0]) + (Gap(ts[0], ts[1]) + Unlex(ts[1..]))
  }

  lemma SymbolText(t: Token)
    requires t != EndOfFile && !t.Number?
    ensures |TokenText(t)| == 1 && !IsDigit(TokenText(t)[0]) && SymbolToken(TokenText(t)[0]) == Some(t)
  {
  }

  /** A token's text followed by text that cannot continue a number scans to that token first. */
  lemma LexToken(t: Token, tail: string)
    requires t != EndOfFile && (t.Number? ==> tail == [] || !IsDigit(tail[0]))
    ensures Lex(TokenText(t) + tail) == [t] + Lex(tail)
  {
    if t.Number? {
      DecimalOfToDecimal(t.n);
      LexDigits(ToDecimal(t.n), tail);
    } else {
      SymbolText(t);
      assert TokenText(t) == [TokenText(t)[0]];
      LexFirstChar(TokenText(t)[0], tail);
    }
  }

  /** The space between tokens scans to nothing. */
  lemma LexGap(gap: string, rest: string)
    requires gap == "" || gap == " "
    ensures Lex(gap + rest) == Lex(rest)
  {
    if gap == " " {
      LexFirstChar(' ', rest);
      assert gap + rest == [' '] + rest;
    } else {
      assert gap + rest == rest;
    }
  }

  /** One step of LexUnlex: the first token, then the rest as scanned. */
  lemma UnlexCons(ts: seq<Token>)
    requires EndOfFile !in ts && |ts| > 1 && Lex(Unlex(ts[1..])) == ts[1..]
    ensures Lex(Unlex(ts)) == ts
  {
    var t, gap, rest := ts[0], Gap(ts[0], ts[1]), Unlex(ts[1..]);
    assert rest[0] == TokenText(ts[1])[0];
    LexGap(gap, rest);
    LexToken(t, gap + rest);
    assert Unlex(ts) == TokenText(t) + (gap + rest);
    assert ts == [t] + ts[1..];
  }

  /** Scanning is the inverse of writing tokens out. */
  lemma {:induction false} LexUnlex(ts: seq<Token>)
    requires EndOfFile !in ts
    ensures Lex(Unlex(ts)) == ts
  {
    if |ts| == 1 {
      LexToken(ts[0], []);
      assert Unlex(ts) == TokenText(ts[0]) + [];
    } else if |ts| > 1 {
      LexUnlex(ts[1..]);
      UnlexCons(ts);
    }
  }

  /* ================================================================ */
  /* Scanner                                                           */
  /* ================================================================ */

  class Scanner {
    const input: seq<char>
    var start: nat
    var current: nat
    var tokens: seq<Token>

    constructor (input: string)
      ensures this.input == input && start == 0 && current == 0 && tokens == []
    {
      this.input := input;
      start := 0;
      current := 0;
      tokens := [];
    }

    predicate IsAtEnd()
      reads this
    {
      current >= |input|
    }

    function Peek(): (c: char)
      reads this
      ensures IsAtEnd() ==> c == '\0'
      ensures !IsAtEnd() ==> c == input[current]
    {
      if IsAtEnd() then '\0' else input[current]
    }

    method Advance() returns (c: char)
      requires current < |input|
      modifies this`current
      ensures current == old(current) + 1 && c == input[old(current)]
    {
      current := current + 1;
      c := input[current - 1];
    }

    method AddToken(t: Token)
      modifies this`tokens
      ensures tokens == old(tokens) + [t]
    {
      tokens := tokens + [t];
    }

    /** Scans the rest of a number whose first digit is at `start`. */
    method Number()
      requires start < current <= |input| && AllDigits(input[start..current])
      requires DecimalValue(input[start..start + DigitRun(input[start..])]) < U64_LIMIT
      modifies this`current, this`tokens
      ensures current == old(start) + DigitRun(input[start..])
      ensures tokens == old(tokens) + [Token.Number(DecimalValue(input[start..current]))]
    {
      while IsDigit(Peek())
        invariant start < current <= |input| && AllDigits(input[start..current])
        invariant tokens == old(tokens)
        decreases |input| - current
      {
        AllDigitsExtend(input, start, current);
        var _ := Advance();
      }
      assert input[start..][..current - start] == input[start..current];
      DigitRunIs(input[start..], current - start);
      AddToken(Token.Number(DecimalValue(input[start..current])));
    }

    method ScanToken()
      requires start == current < |input|
      requires Fits(ScanStep(input[current..]).0)
      modifies this`current, this`tokens
      ensures var step := ScanStep(input[old(current)..]);
        tokens == old(tokens) + step.0 && current == old(current) + step.1
    {
      ghost var rest := input[current..];
      var c := Advance();
      assert c == rest[0];
      if c == '(' {
        AddToken(LeftParen);
      } else if c == ')' {
        AddToken(RightParen);
      } else if c == '-' {
        AddToken(Minus);
      } else if c == '+' {
        AddToken(Plus);
      } else if c == '*' {
        AddToken(Star);
      } else if c == '/' {
        AddToken(Slash);
      } else if IsWhitespace(c) {
      } else if IsDigit(c) {
        assert input[start..current] == [c];
        ghost var n := DigitRun(rest);
        assert rest[..n] == input[start..start + n];
        assert Token.Number(DecimalValue(rest[..n])) in ScanStep(rest).0;
        Number();
      } else {
      }
    }

    /** `scan`: the tokens of the remaining input, closed by EndOfFile. */
    method Scan() returns (result: seq<Token>)
      requires current <= |input| && Fits(Lex(input[current..]))
      modifies this
      ensures result == old(tokens) + Lex(input[old(current)..]) + [EndOfFile]
    {
      while !IsAtEnd()
        invariant current <= |input|
        invariant tokens + Lex(input[current..]) == old(tokens) + Lex(input[old(current)..])
        invariant Fits(Lex(input[current..]))
        decreases |input| - current
      {
        start := current;
        ghost var rest := input[current..];
        ghost var step := ScanStep(rest);
        LexStep(tokens, rest);
        LexUnfold(rest);
        FitsAppend(step.0, Lex(rest[step.1..]));
        ScanToken();
        assert rest[step.1..] == input[current..];
      }
      assert input[current..] == [];
      tokens := tokens + [EndOfFile];
      result := tokens;
    }
  }

  /* ================================================================ */
  /* Parsing: reference definition                                     */
  /* ================================================================ */

  datatype ParseError =
    | ExpectExpression(found: Token)   // "Expect expression." in the source
    | ExpectRightParen(found: Token)   // "Expect ')' after expression." in the source

  datatype Parsed = Parsed(expr: Expr, next: nat)

  predicate IsAdditive(t: Token) { t == Plus || t == Minus }
  predicate IsMultiplicative(t: Token) { t == Star || t == Slash }
  predicate IsNumberToken(t: Token) { t.Number? }
  predicate IsLeftParen(t: Token) { t == LeftParen }
  predicate IsRightParen(t: Token) { t == RightParen }

  /** The token list ends with EndOfFile and the cursor has not passed any EndOfFile. */
  predicate CursorOk(toks: seq<Token>, pos: nat) {
    |toks| > 0 && toks[|toks| - 1] == EndOfFile && pos < |toks|
  }

  /** Moving past a token that is not EndOfFile keeps the cursor valid. */
  lemma StepOk(toks: seq<Token>, pos: nat)
    requires CursorOk(toks, pos) && toks[pos] != EndOfFile
    ensures CursorOk(toks, pos + 1)
  {
  }

  function ParseExpression(toks: seq<Token>, pos: nat): (r: Result<Parsed, ParseError>)
    requires CursorOk(toks, pos)
    ensures r.Ok? ==> pos < r.value.next && CursorOk(toks, r.value.next)
    ensures r.Ok? ==> !IsAdditive(toks[r.value.next]) && !IsMultiplicative(toks[r.value.next])
    decreases |toks| - pos, 7
  {
    ParseFactor(toks, pos)
  }

  function ParseFactor(toks: seq<Token>, pos: nat): (r: Result<Parsed, ParseError>)
    requires CursorOk(toks, pos)
    ensures r.Ok? ==> pos < r.value.next && CursorOk(toks, r.value.next)
    ensures r.Ok? ==> !IsAdditive(toks[r.value.next]) && !IsMultiplicative(toks[r.value.next])
    decreases |toks| - pos, 6
  {
    match ParseTerm(toks, pos)
    case Err(e) => Err(e)
    case Ok(p) => FactorLoop(toks, p.expr, p.next)
  }

  /** The `while` loop of `factor`, entered with `left` parsed and the cursor at `pos`. */
  function FactorLoop(toks: seq<Token>, left: Expr, pos: nat): (r: Result<Parsed, ParseError>)
    requires CursorOk(toks, pos) && !IsAdditive(toks[pos])
    ensures r.Ok? ==> pos <= r.value.next && CursorOk(toks, r.value.next)
    ensures r.Ok? ==> !IsAdditive(toks[r.value.next]) && !IsMultiplicative(toks[r.value.next])
    decreases |toks| - pos, 5
  {
    if toks[pos] != EndOfFile && IsMultiplicative(toks[pos]) then
      StepOk(toks, pos);
      match ParseTerm(toks, pos + 1)
      case Err(e) => Err(e)
      case Ok(p) => FactorLoop(toks, Binary(left, toks[pos], p.expr), p.next)
    else Ok(Parsed(left, pos))
  }

  function ParseTerm(toks: seq<Token>, pos: nat): (r: Result<Parsed, ParseError>)
    requires CursorOk(toks, pos)
    ensures r.Ok? ==> pos < r.value.next && CursorOk(toks, r.value.next)
    ensures r.Ok? ==> !IsAdditive(toks[r.value.next])
    decreases |toks| - pos, 4
  {
    match ParseUnary(toks, pos)
    case Err(e) => Err(e)
    case Ok(p) => TermLoop(toks, p.expr, p.next)
  }

  /** The `while` loop of `term`, entered with `left` parsed and the cursor at `pos`. */
  function TermLoop(toks: seq<Token>, left: Expr, pos: nat): (r: Result<Parsed, ParseError>)
    requires CursorOk(toks, pos)
    ensures r.Ok? ==> pos <= r.value.next && CursorOk(toks, r.value.next)
    ensures r.Ok? ==> !IsAdditive(toks[r.value.next])
    decreases |toks| - pos, 3
  {
    if toks[pos] != EndOfFile && IsAdditive(toks[pos]) then
      StepOk(toks, pos);
      match ParseUnary(toks, pos + 1)
      case Err(e) => Err(e)
      case Ok(p) => TermLoop(toks, Binary(left, toks[pos], p.expr), p.next)
    else Ok(Parsed(left, pos))
  }

  function ParseUnary(toks: seq<Token>, pos: nat): (r: Result<Parsed, ParseError>)
    requires CursorOk(toks, pos)
    ensures r.Ok? ==> pos < r.value.next && CursorOk(toks, r.value.next)
    decreases |toks| - pos, 2
  {
    if toks[pos] != EndOfFile && toks[pos] == Minus then
      StepOk(toks, pos);
      match ParseUnary(toks, pos + 1)
      case Err(e) => Err(e)
      case Ok(p) => Ok(Parsed(Unary(Minus, p.expr), p.next))
    else ParsePrimary(toks, pos)
  }

  function ParsePrimary(toks: seq<Token>, pos: nat): (r: Result<Parsed, ParseError>)
    requires CursorOk(toks, pos)
    ensures r.Ok? ==> pos < r.value.next && CursorOk(toks, r.value.next)
    decreases |toks| - pos, 1
  {
    if toks[pos] != EndOfFile && toks[pos].Number? then
      StepOk(toks, pos);
      Ok(Parsed(Literal(toks[pos]), pos + 1))
    else if toks[pos] != EndOfFile && toks[pos] == LeftParen then
      StepOk(toks, pos);
      match ParseExpression(toks, pos + 1)
      case Err(e) => Err(e)
      case Ok(p) =>
        if toks[p.next] != EndOfFile && toks[p.next] == RightParen then
          StepOk(toks, p.next);
          Ok(Parsed(Grouping(p.expr), p.next + 1))
        else Err(ExpectRightParen(toks[p.next]))
    else Err(ExpectExpression(toks[pos]))
  }

  /* ---------------------------------------------------------------- */
  /* The grammar, stated on trees                                      */
  /* ---------------------------------------------------------------- */

  /** The tokens an expression tree is written with. */
  function Flatten(e: Expr): seq<Token> {
    match e
    case Binary(l, op, r) => Flatten(l) + [op] + Flatten(r)
    case Unary(op, r) => [op] + Flatten(r)
    case Grouping(inner) => [LeftParen] + Flatten(inner) + [RightParen]
    case Literal(t) => [t]
  }

  predicate IsPrimaryTree(e: Expr)
    decreases e, 0
  {
    (e.Literal? && e.tok.Number?) || (e.Grouping? && IsFactorTree(e.inner))
  }

  predicate IsUnaryTree(e: Expr)
    decreases e, 1
  {
    (e.Unary? && e.op == Minus && IsUnaryTree(e.right)) || IsPrimaryTree(e)
  }

  predicate IsTermTree(e: Expr)
    decreases e, 2
  {
    (e.Binary? && IsAdditive(e.op) && IsTermTree(e.left) && IsUnaryTree(e.right)) || IsUnaryTree(e)
  }

  predicate IsFactorTree(e: Expr)
    decreases e, 3
  {
    (e.Binary? && IsMultiplicative(e.op) && IsFactorTree(e.left) && IsTermTree(e.right)) || IsTermTree(e)
  }

  /** Tree `e` is written at position `pos` of `toks`. */
  predicate WrittenAt(toks: seq<Token>, pos: nat, e: Expr) {
    var w := Flatten(e);
    pos + |w| <= |toks| && forall i :: 0 <= i < |w| ==> w[i] == toks[pos + i]
  }

  /** A slice of what was written at `pos` is written at `pos` plus the slice's start. */
  lemma SliceOfWritten<T>(toks: seq<T>, pos: nat, w: seq<T>, a: nat, b: nat)
    requires pos + |w| <= |toks| && (forall i :: 0 <= i < |w| ==> w[i] == toks[pos + i]) && a <= b <= |w|
    ensures forall i :: 0 <= i < b - a ==> w[a..b][i] == toks[pos + a + i]
  {
    forall i | 0 <= i < b - a
      ensures w[a..b][i] == toks[pos + a + i]
    {
      assert w[a..b][i] == w[a + i];
    }
  }

  /* Soundness: a successful parse consumed exactly the tokens of its tree, and the tree obeys the grammar. */

  lemma {:induction false} ParseFactorSound(toks: seq<Token>, pos: nat)
    requires CursorOk(toks, pos)
    ensures var r := ParseFactor(toks, pos);
      r.Ok? ==> IsFactorTree(r.value.expr) && toks[pos..r.value.next] == Flatten(r.value.expr)
    decreases |toks| - pos, 6
  {
    ParseTermSound(toks, pos);
    var t := ParseTerm(toks, pos);
    if t.Ok? {
      FactorLoopSound(toks, t.value.expr, t.value.next);
      var r := ParseFactor(toks, pos);
      if r.Ok? {
        assert toks[pos..r.value.next] == toks[pos..t.value.next] + toks[t.value.next..r.value.next];
      }
    }
  }

  /** The tokens of a loop's left operand, operator, right operand and later rounds, read off the token list. */
  lemma LoopSlices<T>(toks: seq<T>, pos: nat, m: nat, n: nat, fl: seq<T>, fe: seq<T>, fr: seq<T>)
    requires pos < m <= n <= |toks|
    requires fe == fl + [toks[pos]] + toks[pos + 1..m] && fr == fe + toks[m..n]
    ensures fr == fl + toks[pos..n]
  {
    assert toks[pos..n] == [toks[pos]] + toks[pos + 1..m] + toks[m..n];
  }

  lemma {:induction false} FactorLoopSound(toks: seq<Token>, left: Expr, pos: nat)
    requires CursorOk(toks, pos) && !IsAdditive(toks[pos]) && IsFactorTree(left)
    ensures var r := FactorLoop(toks, left, pos);
      r.Ok? ==> IsFactorTree(r.value.expr) && Flatten(r.value.expr) == Flatten(left) + toks[pos..r.value.next]
    decreases |toks| - pos, 5
  {
    if toks[pos] != EndOfFile && IsMultiplicative(toks[pos]) {
      StepOk(toks, pos);
      ParseTermSound(toks, pos + 1);
      var t := ParseTerm(toks, pos + 1);
      if t.Ok? {
        var e := Binary(left, toks[pos], t.value.expr);
        FactorLoopSound(toks, e, t.value.next);
        var r := FactorLoop(toks, e, t.value.next);
        if r.Ok? {
          LoopSlices(toks, pos, t.value.next, r.value.next, Flatten(left), Flatten(e), Flatten(r.value.expr));
        }
      }
    } else {
      assert toks[pos..pos] == [];
    }
  }

  lemma {:induction false} ParseTermSound(toks: seq<Token>, pos: nat)
    requires CursorOk(toks, pos)
    ensures var r := ParseTerm(toks, pos);
      r.Ok? ==> IsTermTree(r.value.expr) && toks[pos..r.value.next] == Flatten(r.value.expr)
    decreases |toks| - pos, 4
  {
    ParseUnarySound(toks, pos);
    var u := ParseUnary(toks, pos);
    if u.Ok? {
      TermLoopSound(toks, u.value.expr, u.value.next);
      var r := ParseTerm(toks, pos);
      if r.Ok? {
        assert toks[pos..r.value.next] == toks[pos..u.value.next] + toks[u.value.next..r.value.next];
      }
    }
  }

  lemma {:induction false} TermLoopSound(toks: seq<Token>, left: Expr, pos: nat)
    requires CursorOk(toks, pos) && IsTermTree(left)
    ensures var r := TermLoop(toks, left, pos);
      r.Ok? ==> IsTermTree(r.value.expr) && Flatten(r.value.expr) == Flatten(left) + toks[pos..r.value.next]
    decreases |toks| - pos, 3
  {
    if toks[pos] != EndOfFile && IsAdditive(toks[pos]) {
      StepOk(toks, pos);
      ParseUnarySound(toks, pos + 1);
      var u := ParseUnary(toks, pos + 1);
      if u.Ok? {
        var e := Binary(left, toks[pos], u.value.expr);
        TermLoopSound(toks, e, u.value.next);
        var r := TermLoop(toks, e, u.value.next);
        if r.Ok? {
          LoopSlices(toks, pos, u.value.next, r.value.next, Flatten(left), Flatten(e), Flatten(r.value.expr));
        }
      }
    } else {
      assert toks[pos..pos] == [];
    }
  }

  lemma {:induction false} ParseUnarySound(toks: seq<Token>, pos: nat)
    requires CursorOk(toks, pos)
    ensures var r := ParseUnary(toks, pos);
      r.Ok? ==> IsUnaryTree(r.value.expr) && toks[pos..r.value.next] == Flatten(r.value.expr)
    decreases |toks| - pos, 2
  {
    if toks[pos] != EndOfFile && toks[pos] == Minus {
      StepOk(toks, pos);
      ParseUnarySound(toks, pos + 1);
      var u := ParseUnary(toks, pos + 1);
      if u.Ok? {
        assert toks[pos..u.value.next] == [toks[pos]] + toks[pos + 1..u.value.next];
      }
    } else {
      ParsePrimarySound(toks, pos);
    }
  }

  lemma {:induction false} ParsePrimarySound(toks: seq<Token>, pos: nat)
    requires CursorOk(toks, pos)
    ensures var r := ParsePrimary(toks, pos);
      r.Ok? ==> IsPrimaryTree(r.value.expr) && toks[pos..r.value.next] == Flatten(r.value.expr)
    decreases |toks| - pos, 1
  {
    if toks[pos] != EndOfFile && toks[pos].Number? {
      assert toks[pos..pos + 1] == [toks[pos]];
    } else if toks[pos] != EndOfFile && toks[pos] == LeftParen {
      StepOk(toks, pos);
      ParseFactorSound(toks, pos + 1);
      var x := ParseExpression(toks, pos + 1);
      if x.Ok? && toks[x.value.next] == RightParen {
        assert toks[pos..x.value.next + 1] == [toks[pos]] + toks[pos + 1..x.value.next] + [toks[x.value.next]];
      }
    }
  }

  /** Every successful parse consumes exactly the tokens of a grammatical tree. */
  lemma ParseExpressionSound(toks: seq<Token>, pos: nat)
    requires CursorOk(toks, pos)
    ensures var r := ParseExpression(toks, pos);
      r.Ok? ==> IsFactorTree(r.value.expr) && toks[pos..r.value.next] == Flatten(r.value.expr)
  {
    ParseFactorSound(toks, pos);
  }

  /* Completeness: the tokens of a grammatical tree parse back to that very tree. */

  lemma {:induction false} FlattenHasNoEndOfFile(e: Expr)
    requires IsFactorTree(e)
    ensures EndOfFile !in Flatten(e)
    decreases e, 3
  {
    match e
    case Binary(l, op, r) =>
      if IsMultiplicative(op) && IsFactorTree(l) && IsTermTree(r) {
        FlattenHasNoEndOfFile(l);
        TermNoEof(r);
      } else {
        TermNoEof(e);
      }
    case _ => TermNoEof(e);
  }

  lemma {:induction false} TermNoEof(e: Expr)
    requires IsTermTree(e)
    ensures EndOfFile !in Flatten(e)
    decreases e, 2
  {
    if e.Binary? && IsAdditive(e.op) && IsTermTree(e.left) && IsUnaryTree(e.right) {
      TermNoEof(e.left);
      UnaryNoEof(e.right);
    } else {
      UnaryNoEof(e);
    }
  }

  lemma {:induction false} UnaryNoEof(e: Expr)
    requires IsUnaryTree(e)
    ensures EndOfFile !in Flatten(e)
    decreases e, 1
  {
    if e.Unary? && e.op == Minus && IsUnaryTree(e.right) {
      UnaryNoEof(e.right);
    } else if e.Grouping? {
      FlattenHasNoEndOfFile(e.inner);
    }
  }

  /** Writing `e` at `pos` leaves the cursor valid just after it. */
  lemma AfterWritten(toks: seq<Token>, pos: nat, e: Expr)
    requires CursorOk(toks, pos) && WrittenAt(toks, pos, e) && EndOfFile !in Flatten(e)
    ensures CursorOk(toks, pos + |Flatten(e)|)
  {
    var w := Flatten(e);
    assert |w| > 0 ==> w[|w| - 1] == toks[pos + |w| - 1];
  }

  /** The pieces of a binary tree written at `pos`. */
  lemma WrittenBinary(toks: seq<Token>, pos: nat, e: Expr)
    requires e.Binary? && WrittenAt(toks, pos, e)
    ensures |Flatten(e)| == |Flatten(e.left)| + 1 + |Flatten(e.right)|
    ensures WrittenAt(toks, pos, e.left)
    ensures toks[pos + |Flatten(e.left)|] == e.op
    ensures WrittenAt(toks, pos + |Flatten(e.left)| + 1, e.right)
  {
    var w := Flatten(e);
    var nl := |Flatten(e.left)|;
    assert w == Flatten(e.left) + [e.op] + Flatten(e.right);
    AroundOne(Flatten(e.left), e.op, Flatten(e.right));
    SliceOfWritten(toks, pos, w, 0, nl);
    assert w[nl] == toks[pos + nl];
    SliceOfWritten(toks, pos, w, nl + 1, |w|);
  }

  /** The pieces on either side of one element. */
  lemma AroundOne<T>(a: seq<T>, x: T, b: seq<T>)
    ensures |a + [x] + b| == |a| + 1 + |b|
    ensures (a + [x] + b)[0..|a|] == a && (a + [x] + b)[|a|] == x
    ensures (a + [x] + b)[|a| + 1..|a + [x] + b|] == b
  {
  }

  /** The pieces of a parenthesised tree written at `pos`. */
  lemma WrittenGrouping(toks: seq<Token>, pos: nat, e: Expr)
    requires e.Grouping? && WrittenAt(toks, pos, e)
    ensures |Flatten(e)| == |Flatten(e.inner)| + 2
    ensures toks[pos] == LeftParen
    ensures WrittenAt(toks, pos + 1, e.inner)
    ensures toks[pos + 1 + |Flatten(e.inner)|] == RightParen
  {
    var w := Flatten(e);
    var n := |Flatten(e.inner)|;
    assert w == [LeftParen] + Flatten(e.inner) + [RightParen];
    assert w[0] == toks[pos + 0];
    SliceOfWritten(toks, pos, w, 1, 1 + n);
    assert w[1..1 + n] == Flatten(e.inner);
    assert w[1 + n] == toks[pos + (1 + n)];
  }

  lemma TermLoopStops(toks: seq<Token>, left: Expr, pos: nat)
    requires CursorOk(toks, pos) && !IsAdditive(toks[pos])
    ensures TermLoop(toks, left, pos) == Ok(Parsed(left, pos))
  {
  }

  lemma TermLoopStep(toks: seq<Token>, left: Expr, pos: nat, right: Expr, q: nat)
    requires CursorOk(toks, pos) && IsAdditive(toks[pos]) && CursorOk(toks, pos + 1)
    requires ParseUnary(toks, pos + 1) == Ok(Parsed(right, q))
    ensures TermLoop(toks, left, pos) == TermLoop(toks, Binary(left, toks[pos], right), q)
  {
  }

  lemma FactorLoopStops(toks: seq<Token>, left: Expr, pos: nat)
    requires CursorOk(toks, pos) && !IsAdditive(toks[pos]) && !IsMultiplicative(toks[pos])
    ensures FactorLoop(toks, left, pos) == Ok(Parsed(left, pos))
  {
  }

  lemma FactorLoopStep(toks: seq<Token>, left: Expr, pos: nat, right: Expr, q: nat)
    requires CursorOk(toks, pos) && IsMultiplicative(toks[pos]) && CursorOk(toks, pos + 1)
    requires ParseTerm(toks, pos + 1) == Ok(Parsed(right, q))
    ensures FactorLoop(toks, left, pos) == FactorLoop(toks, Binary(left, toks[pos], right), q)
  {
  }

  lemma {:induction false} PrimaryComplete(toks: seq<Token>, pos: nat, e: Expr)
    requires CursorOk(toks, pos) && IsPrimaryTree(e) && WrittenAt(toks, pos, e)
    ensures EndOfFile !in Flatten(e) && CursorOk(toks, pos + |Flatten(e)|)
    ensures ParsePrimary(toks, pos) == Ok(Parsed(e, pos + |Flatten(e)|))
    decreases e, 0, 1
  {
    UnaryNoEof(e);
    AfterWritten(toks, pos, e);
    if e.Grouping? {
      GroupingComplete(toks, pos, e);
    } else {
      assert toks[pos] == Flatten(e)[0];
    }
  }

  /** PrimaryComplete for a parenthesised factor. */
  lemma {:induction false} GroupingComplete(toks: seq<Token>, pos: nat, e: Expr)
    requires CursorOk(toks, pos) && e.Grouping? && IsFactorTree(e.inner) && WrittenAt(toks, pos, e)
    ensures ParsePrimary(toks, pos) == Ok(Parsed(e, pos + |Flatten(e)|))
    decreases e, 0, 0
  {
    WrittenGrouping(toks, pos, e);
    StepOk(toks, pos);
    FactorComplete(toks, pos + 1, e.inner);
    var close := pos + 1 + |Flatten(e.inner)|;
    assert ParseExpression(toks, pos + 1) == Ok(Parsed(e.inner, close));
    assert toks[close] == RightParen && close + 1 == pos + |Flatten(e)|;
  }

  lemma {:induction false} UnaryComplete(toks: seq<Token>, pos: nat, e: Expr)
    requires CursorOk(toks, pos) && IsUnaryTree(e) && WrittenAt(toks, pos, e)
    ensures EndOfFile !in Flatten(e) && CursorOk(toks, pos + |Flatten(e)|)
    ensures ParseUnary(toks, pos) == Ok(Parsed(e, pos + |Flatten(e)|))
    decreases e, 1, 0
  {
    UnaryNoEof(e);
    AfterWritten(toks, pos, e);
    if e.Unary? && e.op == Minus && IsUnaryTree(e.right) {
      var w := Flatten(e);
      assert w == [Minus] + Flatten(e.right);
      assert toks[pos] == w[0] == Minus;
      SliceOfWritten(toks, pos, w, 1, |w|);
      assert w[1..|w|] == Flatten(e.right);
      StepOk(toks, pos);
      UnaryComplete(toks, pos + 1, e.right);
    } else {
      assert toks[pos] == Flatten(e)[0];
      PrimaryComplete(toks, pos, e);
    }
  }

  /** A term is a unary operand followed by the `+`/`-` loop. */
  lemma TermFromUnary(toks: seq<Token>, pos: nat, e: Expr, q: nat)
    requires CursorOk(toks, pos) && CursorOk(toks, q)
    requires ParseUnary(toks, pos) == Ok(Parsed(e, q))
    ensures ParseTerm(toks, pos) == TermLoop(toks, e, q)
  {
  }

  /** One more `+`/`-` round of the term loop, seen from the start of the term. */
  lemma TermGlue(toks: seq<Token>, pos: nat, left: Expr, ql: nat, right: Expr, q: nat)
    requires CursorOk(toks, pos) && CursorOk(toks, ql) && CursorOk(toks, ql + 1)
    requires IsAdditive(toks[ql]) && ParseTerm(toks, pos) == TermLoop(toks, left, ql)
    requires ParseUnary(toks, ql + 1) == Ok(Parsed(right, q))
    ensures ParseTerm(toks, pos) == TermLoop(toks, Binary(left, toks[ql], right), q)
  {
    TermLoopStep(toks, left, ql, right, q);
  }

  /** A factor is a term followed by the `*` loop. */
  lemma FactorFromTerm(toks: seq<Token>, pos: nat, e: Expr, q: nat)
    requires CursorOk(toks, pos) && CursorOk(toks, q) && !IsAdditive(toks[q])
    requires ParseTerm(toks, pos) == TermLoop(toks, e, q)
    ensures ParseFactor(toks, pos) == FactorLoop(toks, e, q)
  {
    TermLoopStops(toks, e, q);
  }

  /** One more `*` round of the factor loop, seen from the start of the factor. */
  lemma FactorGlue(toks: seq<Token>, pos: nat, left: Expr, ql: nat, right: Expr, q: nat)
    requires CursorOk(toks, pos) && CursorOk(toks, ql) && CursorOk(toks, ql + 1) && CursorOk(toks, q)
    requires IsMultiplicative(toks[ql]) && !IsAdditive(toks[ql]) && !IsAdditive(toks[q])
    requires ParseFactor(toks, pos) == FactorLoop(toks, left, ql)
    requires ParseTerm(toks, ql + 1) == TermLoop(toks, right, q)
    ensures ParseFactor(toks, pos) == FactorLoop(toks, Binary(left, toks[ql], right), q)
  {
    TermLoopStops(toks, right, q);
    FactorLoopStep(toks, left, ql, right, q);
  }

  /** Parsing a term that is written at `pos` reaches the loop state "`e` parsed, cursor after it". */
  lemma {:induction false} TermComplete(toks: seq<Token>, pos: nat, e: Expr)
    requires CursorOk(toks, pos) && IsTermTree(e) && WrittenAt(toks, pos, e)
    ensures EndOfFile !in Flatten(e) && CursorOk(toks, pos + |Flatten(e)|)
    ensures ParseTerm(toks, pos) == TermLoop(toks, e, pos + |Flatten(e)|)
    decreases e, 2, 1
  {
    TermNoEof(e);
    AfterWritten(toks, pos, e);
    if e.Binary? && IsAdditive(e.op) && IsTermTree(e.left) && IsUnaryTree(e.right) {
      WrittenBinary(toks, pos, e);
      TermCompleteBinary(toks, pos, e.left, e.op, e.right);
    } else {
      UnaryComplete(toks, pos, e);
      TermFromUnary(toks, pos, e, pos + |Flatten(e)|);
    }
  }

  /** TermComplete for `left op right`, given the three pieces written one after the other. */
  lemma {:induction false} TermCompleteBinary(toks: seq<Token>, pos: nat, left: Expr, op: Token, right: Expr)
    requires CursorOk(toks, pos) && IsAdditive(op) && IsTermTree(left) && IsUnaryTree(right)
    requires WrittenAt(toks, pos, left) && pos + |Flatten(left)| < |toks| && toks[pos + |Flatten(left)|] == op
    requires WrittenAt(toks, pos + |Flatten(left)| + 1, right)
    ensures var q := pos + |Flatten(left)| + 1 + |Flatten(right)|;
      CursorOk(toks, q) && ParseTerm(toks, pos) == TermLoop(toks, Binary(left, op, right), q)
    decreases Binary(left, op, right), 2, 0
  {
    var ql := pos + |Flatten(left)|;
    var q := ql + 1 + |Flatten(right)|;
    assert CursorOk(toks, ql) && ParseTerm(toks, pos) == TermLoop(toks, left, ql) by {
      TermComplete(toks, pos, left);
    }
    assert CursorOk(toks, ql + 1) by {
      StepOk(toks, ql);
    }
    assert CursorOk(toks, q) && ParseUnary(toks, ql + 1) == Ok(Parsed(right, q)) by {
      UnaryComplete(toks, ql + 1, right);
    }
    TermGlue(toks, pos, left, ql, right, q);
  }

  /** Parsing a factor written at `pos`, followed by a token that is not `+`/`-`, reaches the loop state "`e` parsed". */
  lemma {:induction false} FactorComplete(toks: seq<Token>, pos: nat, e: Expr)
    requires CursorOk(toks, pos) && IsFactorTree(e) && WrittenAt(toks, pos, e)
    requires pos + |Flatten(e)| < |toks| && !IsAdditive(toks[pos + |Flatten(e)|])
    ensures EndOfFile !in Flatten(e) && CursorOk(toks, pos + |Flatten(e)|)
    ensures ParseFactor(toks, pos) == FactorLoop(toks, e, pos + |Flatten(e)|)
    decreases e, 3, 1
  {
    FlattenHasNoEndOfFile(e);
    AfterWritten(toks, pos, e);
    if e.Binary? && IsMultiplicative(e.op) && IsFactorTree(e.left) && IsTermTree(e.right) {
      WrittenBinary(toks, pos, e);
      FactorCompleteBinary(toks, pos, e.left, e.op, e.right);
    } else {
      TermComplete(toks, pos, e);
      FactorFromTerm(toks, pos, e, pos + |Flatten(e)|);
    }
  }

  /** FactorComplete for `left * right`, given the three pieces written one after the other. */
  lemma {:induction false} FactorCompleteBinary(toks: seq<Token>, pos: nat, left: Expr, op: Token, right: Expr)
    requires CursorOk(toks, pos) && IsMultiplicative(op) && IsFactorTree(left) && IsTermTree(right)
    requires WrittenAt(toks, pos, left) && pos + |Flatten(left)| < |toks| && toks[pos + |Flatten(left)|] == op
    requires WrittenAt(toks, pos + |Flatten(left)| + 1, right)
    requires var q := pos + |Flatten(left)| + 1 + |Flatten(right)|;
      q < |toks| && !IsAdditive(toks[q])
    ensures var q := pos + |Flatten(left)| + 1 + |Flatten(right)|;
      CursorOk(toks, q) && ParseFactor(toks, pos) == FactorLoop(toks, Binary(left, op, right), q)
    decreases Binary(left, op, right), 3, 0
  {
    var ql := pos + |Flatten(left)|;
    var q := ql + 1 + |Flatten(right)|;
    assert CursorOk(toks, ql) && ParseFactor(toks, pos) == FactorLoop(toks, left, ql) by {
      FactorComplete(toks, pos, left);
    }
    assert CursorOk(toks, ql + 1) by {
      StepOk(toks, ql);
    }
    assert CursorOk(toks, q) && ParseTerm(toks, ql + 1) == TermLoop(toks, right, q) by {
      TermComplete(toks, ql + 1, right);
    }
    FactorGlue(toks, pos, left, ql, right, q);
  }

  /** Parsing is the inverse of writing: a grammatical tree's tokens parse back to the same tree. */
  lemma ParseFlatten(e: Expr)
    requires IsFactorTree(e)
    ensures var toks := Flatten(e) + [EndOfFile];
      CursorOk(toks, 0) && ParseExpression(toks, 0) == Ok(Parsed(e, |Flatten(e)|))
  {
    var toks := Flatten(e) + [EndOfFile];
    FlattenHasNoEndOfFile(e);
    assert forall i :: 0 <= i < |Flatten(e)| ==> Flatten(e)[i] == toks[0 + i];
    FactorComplete(toks, 0, e);
  }

  /** `1 + 2 * 3 + 4` means `(1 + 2) * (3 + 4)`. */
  lemma PrecedenceExample()
    ensures var toks := [Number(1), Plus, Number(2), Star, Number(3), Plus, Number(4), EndOfFile];
      CursorOk(toks, 0) &&
      ParseExpression(toks, 0) == Ok(Parsed(
        Binary(Binary(Literal(Number(1)), Plus, Literal(Number(2))), Star,
               Binary(Literal(Number(3)), Plus, Literal(Number(4)))), 7))
  {
    var toks := [Number(1), Plus, Number(2), Star, Number(3), Plus, Number(4), EndOfFile];
    var left := Binary(Literal(Number(1)), Plus, Literal(Number(2)));
    var right := Binary(Literal(Number(3)), Plus, Literal(Number(4)));
    assert TermLoop(toks, Literal(Number(1)), 1) == Ok(Parsed(left, 3));
    assert ParseTerm(toks, 0) == Ok(Parsed(left, 3));
    assert TermLoop(toks, Literal(Number(3)), 5) == Ok(Parsed(right, 7));
    assert ParseTerm(toks, 4) == Ok(Parsed(right, 7));
  }

  /** Tokens after a complete expression are left unconsumed rather than rejected. */
  lemma TrailingTokensExample()
    ensures var toks := [Number(1), Number(2), EndOfFile];
      CursorOk(toks, 0) && ParseExpression(toks, 0) == Ok(Parsed(Literal(Number(1)), 1))
  {
  }

  /* ================================================================ */
  /* Parser                                                            */
  /* ================================================================ */

  /** A method's result, paired with the cursor it left, in the shape of the reference functions. */
  function Outcome(r: Result<Expr, ParseError>, pos: nat): Result<Parsed, ParseError> {
    match r
    case Ok(e) => Ok(Parsed(e, pos))
    case Err(x) => Err(x)
  }

  class Parser {
    const tokens: seq<Token>
    var current: nat

    /** The cursor never moves past EndOfFile. */
    ghost predicate Valid()
      reads this
    {
      CursorOk(tokens, current)
    }

    constructor (tokens: seq<Token>)
      requires |tokens| > 0 && tokens[|tokens| - 1] == EndOfFile
      ensures Valid() && this.tokens == tokens && current == 0
    {
      this.tokens := tokens;
      current := 0;
    }

    function Peek(): Token
      reads this
      requires Valid()
    {
      tokens[current]
    }

    predicate IsAtEnd()
      reads this
      requires Valid()
    {
      Peek() == EndOfFile
    }

    function Previous(): Token
      reads this
      requires Valid() && current > 0
    {
      tokens[current - 1]
    }

    predicate CheckToken(check: Token -> bool)
      reads this
      requires Valid()
    {
      if IsAtEnd() then false else check(Peek())
    }

    /** Moves past the current token unless it is EndOfFile; `previous` needs a token behind the cursor. */
    method Advance() returns (t: Token)
      requires Valid() && (!IsAtEnd() || current > 0)
      modifies this`current
      ensures Valid()
      ensures current == if old(IsAtEnd()) then old(current) else old(current) + 1
      ensures t == tokens[current - 1]
    {
      if !IsAtEnd() {
        StepOk(tokens, current);
        current := current + 1;
      }
      t := Previous();
    }

    method MatchToken(check: Token -> bool) returns (matched: bool)
      requires Valid()
      modifies this`current
      ensures Valid()
      ensures matched == old(CheckToken(check))
      ensures current == if matched then old(current) + 1 else old(current)
    {
      if CheckToken(check) {
        var _ := Advance();
        matched := true;
      } else {
        matched := false;
      }
    }

    /** `consume_token`: `false` where the source panics with its message. */
    method ConsumeToken(check: Token -> bool) returns (consumed: bool)
      requires Valid()
      modifies this`current
      ensures Valid()
      ensures consumed == old(CheckToken(check))
      ensures current == if consumed then old(current) + 1 else old(current)
    {
      consumed := MatchToken(check);
    }

    method Parse() returns (r: Result<Expr, ParseError>)
      requires Valid()
      modifies this`current
      ensures Valid() && Outcome(r, current) == ParseExpression(tokens, old(current))
    {
      r := Expression();
    }

    method Expression() returns (r: Result<Expr, ParseError>)
      requires Valid()
      modifies this`current
      ensures Valid() && Outcome(r, current) == ParseExpression(tokens, old(current))
      decreases |tokens| - current, 7
    {
      r := Factor();
    }

    method Factor() returns (r: Result<Expr, ParseError>)
      requires Valid()
      modifies this`current
      ensures Valid() && Outcome(r, current) == ParseFactor(tokens, old(current))
      decreases |tokens| - current, 6
    {
      var first := Term();
      if first.Err? {
        return first;
      }
      var expr := first.value;
      var more := MatchToken(IsMultiplicative);
      while more
        invariant Valid() && old(current) < current
        invariant more ==> (IsMultiplicative(tokens[current - 1]) && !IsAdditive(tokens[current - 1])
                            && CursorOk(tokens, current - 1)
                            && FactorLoop(tokens, expr, current - 1) == ParseFactor(tokens, old(current)))
        invariant !more ==> (!IsMultiplicative(tokens[current]) && !IsAdditive(tokens[current])
                             && FactorLoop(tokens, expr, current) == ParseFactor(tokens, old(current)))
        decreases |tokens| - current
      {
        var op := Previous();
        var right := Term();
        if right.Err? {
          return Err(right.error);
        }
        expr := Binary(expr, op, right.value);
        more := MatchToken(IsMultiplicative);
      }
      return Ok(expr);
    }

    method Term() returns (r: Result<Expr, ParseError>)
      requires Valid()
      modifies this`current
      ensures Valid() && Outcome(r, current) == ParseTerm(tokens, old(current))
      decreases |tokens| - current, 4
    {
      var first := Unary();
      if first.Err? {
        return first;
      }
      var expr := first.value;
      var more := MatchToken(IsAdditive);
      while more
        invariant Valid() && old(current) < current
        invariant more ==> (IsAdditive(tokens[current - 1]) && CursorOk(tokens, current - 1)
                            && TermLoop(tokens, expr, current - 1) == ParseTerm(tokens, old(current)))
        invariant !more ==> (!IsAdditive(tokens[current])
                             && TermLoop(tokens, expr, current) == ParseTerm(tokens, old(current)))
        decreases |tokens| - current
      {
        var op := Previous();
        var right := Unary();
        if right.Err? {
          return Err(right.error);
        }
        expr := Binary(expr, op, right.value);
        more := MatchToken(IsAdditive);
      }
      return Ok(expr);
    }

    method Unary() returns (r: Result<Expr, ParseError>)
      requires Valid()
      modifies this`current
      ensures Valid() && Outcome(r, current) == ParseUnary(tokens, old(current))
      decreases |tokens| - current, 2
    {
      var negate := MatchToken(t => t == Minus);
      if negate {
        var op := Previous();
        var right := Unary();
        if right.Err? {
          return right;
        }
        return Ok(Expr.Unary(op, right.value));
      }
      r := Primary();
    }

    method Primary() returns (r: Result<Expr, ParseError>)
      requires Valid()
      modifies this`current
      ensures Valid() && Outcome(r, current) == ParsePrimary(tokens, old(current))
      decreases |tokens| - current, 1
    {
      var isNumber := MatchToken(IsNumberToken);
      if isNumber {
        return Ok(Literal(Previous()));
      }
      var isParen := MatchToken(IsLeftParen);
      if isParen {
        var inner := Expression();
        if inner.Err? {
          return inner;
        }
        var closed := ConsumeToken(IsRightParen);
        if !closed {
          return Err(ExpectRightParen(Peek()));
        }
        return Ok(Grouping(inner.value));
      }
      return Err(ExpectExpression(Peek()));
    }
  }

  /* ================================================================ */
  /* Evaluation                                                        */
  /* ================================================================ */

  predicate InI64(v: int) { I64_MIN <= v <= I64_MAX }

  /** `n as i64` for a u64: values above i64::MAX wrap around. */
  function AsI64(n: nat): (v: int)
    requires n < U64_LIMIT
    ensures InI64(v) && (v - n) % U64_LIMIT == 0
  {
    if n <= I64_MAX then n else n - U64_LIMIT
  }

  /** Rust's integer division: the quotient is truncated toward zero. */
  function TruncDiv(a: int, b: int): int
    requires b != 0
  {
    var q := (if a < 0 then -a else a) / (if b < 0 then -b else b);
    if (a < 0) == (b < 0) then q else -q
  }

  /** The quotient leaves a remainder smaller than the divisor that has the dividend's sign. */
  lemma TruncDivRemainder(a: int, b: int)
    requires b != 0
    ensures var rem := a - TruncDiv(a, b) * b;
      (if rem < 0 then -rem else rem) < (if b < 0 then -b else b) && (rem == 0 || (rem < 0) == (a < 0))
  {
    var ua := if a < 0 then -a else a;
    var ub := if b < 0 then -b else b;
    var q := ua / ub;
    assert ua == q * ub + ua % ub;
    if a < 0 && b < 0 {
      assert a - q * b == -(ua - q * ub);
    } else if a < 0 {
      assert a - (-q) * b == -(ua - q * ub);
    } else if b < 0 {
      assert a - (-q) * b == ua - q * ub;
    }
  }

  /** An i64 result, or None where the source's arithmetic panics on overflow. */
  function Checked(v: int): (r: Option<int>)
    ensures r.Some? <==> InI64(v)
    ensures r.Some? ==> r.value == v
  {
    if InI64(v) then Some(v) else None
  }

  /** The trees `evaluate_expression` handles without reaching `unreachable!`. */
  predicate WellFormed(e: Expr) {
    match e
    case Literal(t) => t.Number? && t.n < U64_LIMIT
    case Grouping(inner) => WellFormed(inner)
    case Unary(op, r) => op == Minus && WellFormed(r)
    case Binary(l, op, r) => (op == Minus || op == Plus || op == Star || op == Slash) && WellFormed(l) && WellFormed(r)
  }

  /**
   * `evaluate_expression` with i64 arithmetic as a debug build runs it:
   * None where the source panics (an overflowing `+`, `-`, `*`, negation or
   * division, or a division by zero).
   */
  function Evaluate(e: Expr): (r: Option<int>)
    requires WellFormed(e)
    ensures r.Some? ==> InI64(r.value)
  {
    match e
    case Literal(t) => Some(AsI64(t.n))
    case Grouping(inner) => Evaluate(inner)
    case Unary(_, right) =>
      (match Evaluate(right)
       case None => None
       case Some(v) => Checked(-v))
    case Binary(left, op, right) =>
      match (Evaluate(left), Evaluate(right))
      case (Some(x), Some(y)) =>
        if op == Minus then Checked(x - y)
        else if op == Plus then Checked(x + y)
        else if op == Star then Checked(x * y)
        else if y == 0 then None
        else Checked(TruncDiv(x, y))
      case _ => None
  }

  /** Literals that fit in a u64. */
  predicate LiteralsFit(e: Expr) {
    match e
    case Literal(t) => !t.Number? || t.n < U64_LIMIT
    case Grouping(inner) => LiteralsFit(inner)
    case Unary(_, r) => LiteralsFit(r)
    case Binary(l, _, r) => LiteralsFit(l) && LiteralsFit(r)
  }

  /** The parser builds only trees that evaluation handles: no `unreachable!` arm is reached. */
  lemma {:induction false} GrammarTreesWellFormed(e: Expr)
    requires IsFactorTree(e) && LiteralsFit(e)
    ensures WellFormed(e)
    decreases e, 3
  {
    if e.Binary? && IsMultiplicative(e.op) && IsFactorTree(e.left) && IsTermTree(e.right) {
      GrammarTreesWellFormed(e.left);
      TermTreesWellFormed(e.right);
    } else {
      TermTreesWellFormed(e);
    }
  }

  lemma {:induction false} TermTreesWellFormed(e: Expr)
    requires IsTermTree(e) && LiteralsFit(e)
    ensures WellFormed(e)
    decreases e, 2
  {
    if e.Binary? && IsAdditive(e.op) && IsTermTree(e.left) && IsUnaryTree(e.right) {
      TermTreesWellFormed(e.left);
      UnaryTreesWellFormed(e.right);
    } else {
      UnaryTreesWellFormed(e);
    }
  }

  lemma {:induction false} UnaryTreesWellFormed(e: Expr)
    requires IsUnaryTree(e) && LiteralsFit(e)
    ensures WellFormed(e)
    decreases e, 1
  {
    if e.Unary? && e.op == Minus && IsUnaryTree(e.right) {
      UnaryTreesWellFormed(e.right);
    } else if e.Grouping? {
      GrammarTreesWellFormed(e.inner);
    }
  }

  /** Literals in the parsed tree are exactly tokens of the input, so they fit when the input's do. */
  lemma {:induction false} FittingTokensFittingTree(e: Expr)
    requires Fits(Flatten(e))
    ensures LiteralsFit(e)
  {
    match e
    case Literal(t) => assert t in Flatten(e);
    case Grouping(inner) =>
      assert forall t :: t in Flatten(inner) ==> t in Flatten(e);
      FittingTokensFittingTree(inner);
    case Unary(op, r) =>
      assert forall t :: t in Flatten(r) ==> t in Flatten(e);
      FittingTokensFittingTree(r);
    case Binary(l, op, r) =>
      assert forall t :: t in Flatten(l) ==> t in Flatten(e);
      assert forall t :: t in Flatten(r) ==> t in Flatten(e);
      FittingTokensFittingTree(l);
      FittingTokensFittingTree(r);
  }

  /**
   * The value of one input line as the source computes it (scan, parse,
   * evaluate): a parse error, or None where evaluation panics.
   */
  function LineValue(line: string): (r: Result<Option<int>, ParseError>)
    requires Fits(Lex(line))
    ensures r.Ok? ==> exists e :: IsFactorTree(e) && WellFormed(e) && Flatten(e) <= Lex(line) && r.value == Evaluate(e)
  {
    var toks := Lex(line) + [EndOfFile];
    LexHasNoEndOfFile(line);
    assert toks[..0] == [];
    match ParseExpression(toks, 0)
    case Err(e) => Err(e)
    case Ok(p) =>
      ParseExpressionSound(toks, 0);
      assert forall t :: t in Flatten(p.expr) ==> t in toks;
      FittingTokensFittingTree(p.expr);
      GrammarTreesWellFormed(p.expr);
      LineValueWitness(line, p);
      Ok(Evaluate(p.expr))
  }

  /** A tree the parser returns is written at the start of the line's tokens. */
  lemma LineValueWitness(line: string, p: Parsed)
    requires IsFactorTree(p.expr) && p.next <= |Lex(line)|
    requires Flatten(p.expr) == (Lex(line) + [EndOfFile])[..p.next]
    ensures Flatten(p.expr) <= Lex(line)
  {
    assert (Lex(line) + [EndOfFile])[..p.next] == Lex(line)[..p.next];
  }

  /** A tree written out with a space around each operator and none inside parentheses. */
  function Written(e: Expr): string
    requires WellFormed(e)
  {
    match e
    case Literal(t) => ToDecimal(t.n)
    case Grouping(inner) => "(" + Written(inner) + ")"
    case Unary(_, r) => "- " + Written(r)
    case Binary(l, op, r) => Written(l) + " " + TokenText(op) + " " + Written(r)
  }

  /** Scanning a written tree gives its tokens, whatever text that cannot continue a number follows. */
  lemma {:induction false} LexWritten(e: Expr, tail: string)
    requires WellFormed(e) && (tail == [] || !IsDigit(tail[0]))
    ensures Lex(Written(e) + tail) == Flatten(e) + Lex(tail)
  {
    match e
    case Literal(t) =>
      LexToken(t, tail);
    case Grouping(inner) =>
      LexWritten(inner, ")" + tail);
      LexGrouping(Written(inner), Flatten(inner), tail);
    case Unary(op, r) =>
      LexWritten(r, tail);
      LexUnary(Written(r), Flatten(r), tail);
    case Binary(l, op, r) =>
      var wr := Written(r);
      LexWritten(r, tail);
      LexWritten(l, " " + (TokenText(op) + (" " + (wr + tail))));
      LexBinary(Written(l), Flatten(l), op, wr, Flatten(r), tail);
  }

  /** The text of a parenthesised expression scans to its tokens between the parentheses. */
  lemma LexGrouping(w: string, f: seq<Token>, tail: string)
    requires Lex(w + (")" + tail)) == f + Lex(")" + tail)
    ensures Lex("(" + w + ")" + tail) == [LeftParen] + f + [RightParen] + Lex(tail)
  {
    LexToken(RightParen, tail);
    LexToken(LeftParen, w + (")" + tail));
    Nest4("(", w, ")", tail);
    Nest4([LeftParen], f, [RightParen], Lex(tail));
  }

  /** The text of a negation scans to Minus, then its operand's tokens. */
  lemma LexUnary(w: string, f: seq<Token>, tail: string)
    requires Lex(w + tail) == f + Lex(tail)
    ensures Lex("- " + w + tail) == [Minus] + f + Lex(tail)
  {
    LexGap(" ", w + tail);
    LexToken(Minus, " " + (w + tail));
    SplitNegation(w, tail);
    Nest3([Minus], f, Lex(tail));
  }

  /** The sign and its space split off the front of a negation's text. */
  lemma SplitNegation(w: string, tail: string)
    ensures "- " + w + tail == "-" + (" " + (w + tail))
  {
  }

  /** An operator between spaces scans to that operator. */
  lemma LexOperator(op: Token, rest: string)
    requires op != EndOfFile && !op.Number?
    ensures Lex(" " + (TokenText(op) + (" " + rest))) == [op] + Lex(rest)
  {
    LexGap(" ", rest);
    LexToken(op, " " + rest);
    LexGap(" ", TokenText(op) + (" " + rest));
  }

  /** The text of a binary operation scans to the left tokens, the operator, then the right tokens. */
  lemma LexBinary(wl: string, fl: seq<Token>, op: Token, wr: string, fr: seq<Token>, tail: string)
    requires op != EndOfFile && !op.Number?
    requires Lex(wr + tail) == fr + Lex(tail)
    requires Lex(wl + (" " + (TokenText(op) + (" " + (wr + tail))))) == fl + Lex(" " + (TokenText(op) + (" " + (wr + tail))))
    ensures Lex(wl + " " + TokenText(op) + " " + wr + tail) == fl + [op] + fr + Lex(tail)
  {
    LexOperator(op, wr + tail);
    Nest5(wl, " ", TokenText(op), " ", wr + tail);
    assert wl + " " + TokenText(op) + " " + wr + tail == wl + " " + TokenText(op) + " " + (wr + tail);
    assert fl + [op] + fr + Lex(tail) == fl + ([op] + (fr + Lex(tail)));
  }

  /** Concatenation regrouped to the right. */
  lemma Nest3<T>(a: seq<T>, b: seq<T>, c: seq<T>)
    ensures a + b + c == a + (b + c)
  {
  }

  /** Concatenation regrouped to the right. */
  lemma Nest4<T>(a: seq<T>, b: seq<T>, c: seq<T>, d: seq<T>)
    ensures a + b + c + d == a + (b + (c + d))
  {
  }

  /** Concatenation regrouped to the right. */
  lemma Nest5<T>(a: seq<T>, b: seq<T>, c: seq<T>, d: seq<T>, e: seq<T>)
    ensures a + b + c + d + e == a + (b + (c + (d + e)))
  {
  }

  /** Writing a tree out as a line and reading it back gives the tree's value. */
  lemma LineValueOfTree(e: Expr)
    requires IsFactorTree(e) && Fits(Flatten(e))
    ensures WellFormed(e) && Lex(Written(e)) == Flatten(e)
    ensures Fits(Lex(Written(e))) && LineValue(Written(e)) == Ok(Evaluate(e))
  {
    FittingTokensFittingTree(e);
    GrammarTreesWellFormed(e);
    LexWritten(e, []);
    assert Written(e) + [] == Written(e);
    assert Flatten(e) + [] == Flatten(e);
    FlattenHasNoEndOfFile(e);
    ParseFlatten(e);
  }

  /**
   * A line's contribution to `main`'s sum: its value, or None where the line
   * panics (a number beyond u64 in the scanner, a parse error, an evaluation panic).
   */
  function LineResult(line: string): (r: Option<int>)
    ensures r.Some? <==> Fits(Lex(line)) && LineValue(line).Ok? && LineValue(line).value.Some?
    ensures r.Some? ==> LineValue(line) == Ok(r)
  {
    if !Fits(Lex(line)) then None
    else
      match LineValue(line)
      case Err(_) => None
      case Ok(v) => v
  }

  /** The lines' contributions, in order. */
  function LineResults(lines: seq<string>): (rs: seq<Option<int>>)
    ensures |rs| == |lines| && forall k :: 0 <= k < |lines| ==> rs[k] == LineResult(lines[k])
  {
    seq(|lines|, k requires 0 <= k < |lines| => LineResult(lines[k]))
  }

  /**
   * `sum::<i64>()` over the values, left to right: None when a value is None
   * (its line panicked) or a partial sum leaves the i64 range (an overflow panics).
   */
  function CheckedSum(vs: seq<Option<int>>): (r: Option<int>)
    ensures r.Some? ==> InI64(r.value)
    decreases |vs|
  {
    if vs == [] then Some(0)
    else
      match CheckedSum(vs[..|vs| - 1])
      case None => None
      case Some(s) =>
        match vs[|vs| - 1]
        case None => None
        case Some(v) => Checked(s + v)
  }

  /** `main`: the sum of the lines' values. */
  function Total(lines: seq<string>): Option<int>
  {
    CheckedSum(LineResults(lines))
  }

  predicate AllSome(vs: seq<Option<int>>) {
    forall k :: 0 <= k < |vs| ==> vs[k].Some?
  }

  /** The mathematical sum of the values. */
  function Sum(vs: seq<Option<int>>): int
    requires AllSome(vs)
    decreases |vs|
  {
    if vs == [] then 0 else Sum(vs[..|vs| - 1]) + vs[|vs| - 1].value
  }

  /** No partial sum leaves the i64 range. */
  predicate PrefixesFit(vs: seq<Option<int>>)
    requires AllSome(vs)
  {
    forall n :: 0 < n <= |vs| ==> InI64(Sum(vs[..n]))
  }

  /**
   * The sum is defined exactly when every value is and no partial sum
   * overflows, and it is then the mathematical sum.
   */
  lemma {:induction false} CheckedSumIsSum(vs: seq<Option<int>>)
    ensures CheckedSum(vs).Some? <==> AllSome(vs) && PrefixesFit(vs)
    ensures CheckedSum(vs).Some? ==> CheckedSum(vs).value == Sum(vs)
    decreases |vs|
  {
    if vs != [] {
      var init := vs[..|vs| - 1];
      assert forall k :: 0 <= k < |init| ==> init[k] == vs[k];
      CheckedSumIsSum(init);
      if AllSome(vs) {
        assert forall n :: 0 < n <= |init| ==> init[..n] == vs[..n];
        assert vs[..|vs|] == vs;
      }
    }
  }

  /** `main` prints a result exactly when every line evaluates and no partial sum overflows. */
  lemma TotalIsSum(lines: seq<string>)
    ensures var rs := LineResults(lines);
      Total(lines).Some? <==>
        (forall k :: 0 <= k < |lines| ==> Fits(Lex(lines[k])) && LineValue(lines[k]).Ok? && LineValue(lines[k]).value.Some?) &&
        AllSome(rs) && PrefixesFit(rs)
    ensures Total(lines).Some? ==> Total(lines).value == Sum(LineResults(lines))
  {
    CheckedSumIsSum(LineResults(lines));
  }

  /** The tokens the scanner produces for `2 * 3 + (4 * 5)`. */
  function ExampleTokens(): seq<Token> {
    [Number(2), Star, Number(3), Plus, LeftParen, Number(4), Star, Number(5), RightParen, EndOfFile]
  }

  /** The parenthesised part of ExampleTokens. */
  lemma GroupExample()
    ensures CursorOk(ExampleTokens(), 4)
    ensures ParsePrimary(ExampleTokens(), 4) == Ok(Parsed(Grouping(Binary(Literal(Number(4)), Star, Literal(Number(5)))), 9))
  {
    var toks := ExampleTokens();
    var inner := Binary(Literal(Number(4)), Star, Literal(Number(5)));
    assert ParseTerm(toks, 5) == Ok(Parsed(Literal(Number(4)), 6));
    assert ParseTerm(toks, 7) == Ok(Parsed(Literal(Number(5)), 8));
    assert ParseFactor(toks, 5) == Ok(Parsed(inner, 8));
  }

  /** The term after the `*` of ExampleTokens: `3 + (4 * 5)`. */
  lemma RightTermExample()
    ensures CursorOk(ExampleTokens(), 2)
    ensures ParseTerm(ExampleTokens(), 2) == Ok(Parsed(ExampleTree().right, 9))
  {
    var toks := ExampleTokens();
    var inner := Binary(Literal(Number(4)), Star, Literal(Number(5)));
    GroupExample();
    assert ParseUnary(toks, 4) == Ok(Parsed(Grouping(inner), 9));
    assert TermLoop(toks, Literal(Number(3)), 3) == Ok(Parsed(ExampleTree().right, 9));
  }

  /** The tokens of `2 * 3 + (4 * 5)` parse to `2 * (3 + (4 * 5))`: `+` binds tighter than `*`. */
  lemma ParseExample()
    ensures CursorOk(ExampleTokens(), 0) && ParseExpression(ExampleTokens(), 0) == Ok(Parsed(ExampleTree(), 9))
  {
    var toks := ExampleTokens();
    var two := Literal(Number(2));
    assert CursorOk(toks, 0) && CursorOk(toks, 1) && toks[1] == Star && toks[9] == EndOfFile;
    assert ParseUnary(toks, 0) == Ok(Parsed(two, 1));
    TermFromUnary(toks, 0, two, 1);
    TermLoopStops(toks, two, 1);
    FactorFromTerm(toks, 0, two, 1);
    RightTermExample();
    FactorLoopStep(toks, two, 1, ExampleTree().right, 9);
    FactorLoopStops(toks, ExampleTree(), 9);
  }

  /** The tree the parser builds for `2 * 3 + (4 * 5)`. */
  function ExampleTree(): Expr {
    Binary(Literal(Number(2)), Star,
           Binary(Literal(Number(3)), Plus, Grouping(Binary(Literal(Number(4)), Star, Literal(Number(5))))))
  }

  /** That tree evaluates to 46, the value the source's test expects for the line. */
  lemma EvaluationExample()
    ensures WellFormed(ExampleTree()) && Evaluate(ExampleTree()) == Some(46)
  {
    var inner := Binary(Literal(Number(4)), Star, Literal(Number(5)));
    var right := Binary(Literal(Number(3)), Plus, Grouping(inner));
    assert Evaluate(Literal(Number(4))) == Some(4) && Evaluate(Literal(Number(5))) == Some(5);
    assert Evaluate(inner) == Some(20);
    assert Evaluate(Grouping(inner)) == Some(20);
    assert Evaluate(Literal(Number(3))) == Some(3);
    assert Evaluate(right) == Some(23);
    assert Evaluate(Literal(Number(2))) == Some(2);
  }

  /* ---------------------------------------------------------------- */
  /* The source's tests, from the text of each line                    */
  /* ---------------------------------------------------------------- */

  function Num(n: nat): Expr { Literal(Number(n)) }
  function Add(left: Expr, right: Expr): Expr { Binary(left, Plus, right) }
  function Mul(left: Expr, right: Expr): Expr { Binary(left, Star, right) }

  /** Tree `e` is written as `text` and has the value `v`. */
  predicate Shows(e: Expr, text: string, v: int) {
    WellFormed(e) && Written(e) == text && Evaluate(e) == Some(v)
  }

  lemma ShowsDigit(d: nat)
    requires d < 10
    ensures Shows(Num(d), [DigitChar(d)], d)
  {
  }

  lemma ShowsGrouping(e: Expr, text: string, v: int)
    requires Shows(e, text, v)
    ensures Shows(Grouping(e), "(" + text + ")", v)
  {
  }

  lemma ShowsAdd(l: Expr, lt: string, x: int, r: Expr, rt: string, y: int)
    requires Shows(l, lt, x) && Shows(r, rt, y) && InI64(x + y)
    ensures Shows(Add(l, r), lt + " + " + rt, x + y)
  {
    assert lt + " " + "+" + " " + rt == lt + " + " + rt;
  }

  lemma ShowsMul(l: Expr, lt: string, x: int, r: Expr, rt: string, y: int)
    requires Shows(l, lt, x) && Shows(r, rt, y) && InI64(x * y)
    ensures Shows(Mul(l, r), lt + " * " + rt, x * y)
  {
    assert lt + " " + "*" + " " + rt == lt + " * " + rt;
  }

  /** The digits 1 to 9 as leaves of a tree. */
  lemma ShowsDigits()
    ensures Shows(Num(1), "1", 1) && Shows(Num(2), "2", 2) && Shows(Num(3), "3", 3)
    ensures Shows(Num(4), "4", 4) && Shows(Num(5), "5", 5) && Shows(Num(6), "6", 6)
    ensures Shows(Num(7), "7", 7) && Shows(Num(8), "8", 8) && Shows(Num(9), "9", 9)
  {
    ShowsDigit(1); ShowsDigit(2); ShowsDigit(3);
    ShowsDigit(4); ShowsDigit(5); ShowsDigit(6);
    ShowsDigit(7); ShowsDigit(8); ShowsDigit(9);
  }

  /** A test line: the parser's tree for it is written as `text` and has value `v`, so the line's value is `v`. */
  lemma TestLine(e: Expr, text: string, v: int)
    requires IsFactorTree(e) && Shows(e, text, v)
    ensures Fits(Lex(text)) && Lex(text) == Flatten(e) && LineValue(text) == Ok(Some(v))
  {
    WellFormedFits(e);
    LineValueOfTree(e);
  }

  /** The numbers of a tree `evaluate_expression` handles all fit in a u64. */
  lemma {:induction false} WellFormedFits(e: Expr)
    requires WellFormed(e)
    ensures Fits(Flatten(e))
  {
    match e
    case Literal(t) =>
    case Grouping(inner) =>
      WellFormedFits(inner);
      FitsAppend([LeftParen], Flatten(inner));
      FitsAppend([LeftParen] + Flatten(inner), [RightParen]);
    case Unary(op, r) =>
      WellFormedFits(r);
      FitsAppend([op], Flatten(r));
    case Binary(l, op, r) =>
      WellFormedFits(l);
      WellFormedFits(r);
      FitsAppend(Flatten(l), [op]);
      FitsAppend(Flatten(l) + [op], Flatten(r));
  }

  /** `test_scanner`: the line `2 * 3 + (4 * 5)` scans to ExampleTokens. */
  method ScannerExample() returns (tokens: seq<Token>)
    ensures tokens == ExampleTokens()
  {
    EvalExample46();
    var scanner := new Scanner("2 * 3 + (4 * 5)");
    assert scanner.input[scanner.current..] == scanner.input;
    tokens := scanner.Scan();
  }

  /** The line `2 * 3 + (4 * 5)` is ExampleTree written out: it scans to ExampleTokens and has the value 46. */
  lemma EvalExample46()
    ensures Fits(Lex("2 * 3 + (4 * 5)")) && Lex("2 * 3 + (4 * 5)") + [EndOfFile] == ExampleTokens()
    ensures LineValue("2 * 3 + (4 * 5)") == Ok(Some(46))
  {
    ShowsDigits();
    Shows46(Num(2), Num(3), Num(4), Num(5));
    Grammar46();
    TestLine(ExampleTree(), "2 * 3 + (4 * 5)", 46);
  }

  lemma Grammar46()
    ensures IsFactorTree(ExampleTree())
    ensures Flatten(ExampleTree()) + [EndOfFile] == ExampleTokens()
  {
  }

  lemma Shows46(n2: Expr, n3: Expr, n4: Expr, n5: Expr)
    requires Shows(n2, "2", 2) && Shows(n3, "3", 3) && Shows(n4, "4", 4) && Shows(n5, "5", 5)
    ensures Shows(Mul(n2, Add(n3, Grouping(Mul(n4, n5)))), "2 * 3 + (4 * 5)", 46)
  {
    var a := "4" + " * " + "5";
    ShowsMul(n4, "4", 4, n5, "5", 5);
    var g := "(" + a + ")";
    ShowsGrouping(Mul(n4, n5), a, 20);
    var b := "3" + " + " + g;
    ShowsAdd(n3, "3", 3, Grouping(Mul(n4, n5)), g, 20);
    ShowsMul(n2, "2", 2, Add(n3, Grouping(Mul(n4, n5))), b, 23);
    Spell46(b);
  }

  lemma Spell46(b: string)
    requires b == "3" + " + " + ("(" + ("4" + " * " + "5") + ")")
    ensures "2" + " * " + b == "2 * 3 + (4 * 5)"
  {
  }

  /** `1 + (2 * 3) + (4 * (5 + 6))` as the parser builds it. */
  function Tree51(): Expr {
    Add(Add(Num(1), Grouping(Mul(Num(2), Num(3)))), Grouping(Mul(Num(4), Grouping(Add(Num(5), Num(6))))))
  }

  lemma EvalExample51()
    ensures Fits(Lex("1 + (2 * 3) + (4 * (5 + 6))")) && LineValue("1 + (2 * 3) + (4 * (5 + 6))") == Ok(Some(51))
  {
    ShowsDigits();
    Shows51(Num(1), Num(2), Num(3), Num(4), Num(5), Num(6));
    Grammar51();
    TestLine(Tree51(), "1 + (2 * 3) + (4 * (5 + 6))", 51);
  }

  lemma Grammar51()
    ensures IsFactorTree(Tree51())
  {
  }

  lemma Shows51(n1: Expr, n2: Expr, n3: Expr, n4: Expr, n5: Expr, n6: Expr)
    requires Shows(n1, "1", 1) && Shows(n2, "2", 2) && Shows(n3, "3", 3)
    requires Shows(n4, "4", 4) && Shows(n5, "5", 5) && Shows(n6, "6", 6)
    ensures Shows(Add(Add(n1, Grouping(Mul(n2, n3))), Grouping(Mul(n4, Grouping(Add(n5, n6))))),
                  "1 + (2 * 3) + (4 * (5 + 6))", 51)
  {
    var a := "2" + " * " + "3";
    ShowsMul(n2, "2", 2, n3, "3", 3);
    var g := "(" + a + ")";
    ShowsGrouping(Mul(n2, n3), a, 6);
    var l := "1" + " + " + g;
    ShowsAdd(n1, "1", 1, Grouping(Mul(n2, n3)), g, 6);
    var b := "5" + " + " + "6";
    ShowsAdd(n5, "5", 5, n6, "6", 6);
    var h := "(" + b + ")";
    ShowsGrouping(Add(n5, n6), b, 11);
    var c := "4" + " * " + h;
    ShowsMul(n4, "4", 4, Grouping(Add(n5, n6)), h, 11);
    var r := "(" + c + ")";
    ShowsGrouping(Mul(n4, Grouping(Add(n5, n6))), c, 44);
    ShowsAdd(Add(n1, Grouping(Mul(n2, n3))), l, 7, Grouping(Mul(n4, Grouping(Add(n5, n6)))), r, 44);
    Spell51(l, r);
  }

  lemma Spell51(l: string, r: string)
    requires l == "1" + " + " + ("(" + ("2" + " * " + "3") + ")")
    requires r == "(" + ("4" + " * " + ("(" + ("5" + " + " + "6") + ")")) + ")"
    ensures l + " + " + r == "1 + (2 * 3) + (4 * (5 + 6))"
  {
  }

  /** `5 + (8 * 3 + 9 + 3 * 4 * 3)` as the parser builds it. */
  function Tree1445(): Expr {
    Add(Num(5), Grouping(Mul(Mul(Mul(Num(8), Add(Add(Num(3), Num(9)), Num(3))), Num(4)), Num(3))))
  }

  lemma EvalExample1445()
    ensures Fits(Lex("5 + (8 * 3 + 9 + 3 * 4 * 3)")) && LineValue("5 + (8 * 3 + 9 + 3 * 4 * 3)") == Ok(Some(1445))
  {
    ShowsDigits();
    Shows1445(Num(3), Num(4), Num(5), Num(8), Num(9));
    Grammar1445();
    TestLine(Tree1445(), "5 + (8 * 3 + 9 + 3 * 4 * 3)", 1445);
  }

  lemma Grammar1445()
    ensures IsFactorTree(Tree1445())
  {
  }

  lemma Shows1445(n3: Expr, n4: Expr, n5: Expr, n8: Expr, n9: Expr)
    requires Shows(n3, "3", 3) && Shows(n4, "4", 4) && Shows(n5, "5", 5) && Shows(n8, "8", 8) && Shows(n9, "9", 9)
    ensures Shows(Add(n5, Grouping(Mul(Mul(Mul(n8, Add(Add(n3, n9), n3)), n4), n3))), "5 + (8 * 3 + 9 + 3 * 4 * 3)", 1445)
  {
    var a := "3" + " + " + "9";
    ShowsAdd(n3, "3", 3, n9, "9", 9);
    var b := a + " + " + "3";
    ShowsAdd(Add(n3, n9), a, 12, n3, "3", 3);
    var c := "8" + " * " + b;
    ShowsMul(n8, "8", 8, Add(Add(n3, n9), n3), b, 15);
    var d := c + " * " + "4";
    ShowsMul(Mul(n8, Add(Add(n3, n9), n3)), c, 120, n4, "4", 4);
    var f := d + " * " + "3";
    ShowsMul(Mul(Mul(n8, Add(Add(n3, n9), n3)), n4), d, 480, n3, "3", 3);
    var g := "(" + f + ")";
    ShowsGrouping(Mul(Mul(Mul(n8, Add(Add(n3, n9), n3)), n4), n3), f, 1440);
    ShowsAdd(n5, "5", 5, Grouping(Mul(Mul(Mul(n8, Add(Add(n3, n9), n3)), n4), n3)), g, 1440);
    Spell1445(g);
  }

  lemma Spell1445(g: string)
    requires g == "(" + ("8" + " * " + ("3" + " + " + "9" + " + " + "3") + " * " + "4" + " * " + "3") + ")"
    ensures "5" + " + " + g == "5 + (8 * 3 + 9 + 3 * 4 * 3)"
  {
  }

  /** `5 * 9 * (7 * 3 * 3 + 9 * 3 + (8 + 6 * 4))` as the parser builds it. */
  function Tree669060(): Expr {
    Mul(Mul(Num(5), Num(9)),
        Grouping(Mul(Mul(Mul(Num(7), Num(3)), Add(Num(3), Num(9))),
                     Add(Num(3), Grouping(Mul(Add(Num(8), Num(6)), Num(4)))))))
  }

  lemma EvalExample669060()
    ensures Fits(Lex("5 * 9 * (7 * 3 * 3 + 9 * 3 + (8 + 6 * 4))"))
    ensures LineValue("5 * 9 * (7 * 3 * 3 + 9 * 3 + (8 + 6 * 4))") == Ok(Some(669060))
  {
    ShowsDigits();
    Shows669060(Num(3), Num(4), Num(5), Num(6), Num(7), Num(8), Num(9));
    Grammar669060();
    TestLine(Tree669060(), "5 * 9 * (7 * 3 * 3 + 9 * 3 + (8 + 6 * 4))", 669060);
  }

  lemma Grammar669060()
    ensures IsFactorTree(Tree669060())
  {
  }

  lemma Shows669060(n3: Expr, n4: Expr, n5: Expr, n6: Expr, n7: Expr, n8: Expr, n9: Expr)
    requires Shows(n3, "3", 3) && Shows(n4, "4", 4) && Shows(n5, "5", 5) && Shows(n6, "6", 6)
    requires Shows(n7, "7", 7) && Shows(n8, "8", 8) && Shows(n9, "9", 9)
    ensures Shows(Mul(Mul(n5, n9), Grouping(Mul(Mul(Mul(n7, n3), Add(n3, n9)), Add(n3, Grouping(Mul(Add(n8, n6), n4)))))),
                  "5 * 9 * (7 * 3 * 3 + 9 * 3 + (8 + 6 * 4))", 669060)
  {
    var inner := Mul(Mul(Mul(n7, n3), Add(n3, n9)), Add(n3, Grouping(Mul(Add(n8, n6), n4))));
    var t := "7 * 3 * 3 + 9" + " * " + "3 + (8 + 6 * 4)";
    Shows14868(n3, n4, n6, n7, n8, n9);
    ShowsMul(n5, "5", 5, n9, "9", 9);
    ShowsGrouping(inner, t, 14868);
    ShowsMul(Mul(n5, n9), "5" + " * " + "9", 45, Grouping(inner), "(" + t + ")", 14868);
    Spell669060("7 * 3 * 3 + 9", "3 + (8 + 6 * 4)");
  }

  lemma Spell669060(c: string, h: string)
    requires c == "7 * 3 * 3 + 9" && h == "3 + (8 + 6 * 4)"
    ensures "5" + " * " + "9" + " * " + ("(" + (c + " * " + h) + ")") == "5 * 9 * (7 * 3 * 3 + 9 * 3 + (8 + 6 * 4))"
  {
    var p := "5" + " * " + "9" + " * " + "(";
    Spell669060Head(p, c);
    assert p + c + " * " + h == "5 * 9 * (7 * 3 * 3 + 9 * 3 + (8 + 6 * 4)";
    Parenthesised("5" + " * " + "9" + " * ", c + " * " + h);
    assert p + (c + " * " + h) == p + c + " * " + h;
  }

  /** Regrouping a parenthesised suffix. */
  lemma Parenthesised(a: string, b: string)
    ensures a + ("(" + b + ")") == a + "(" + b + ")"
  {
  }

  lemma Spell669060Head(p: string, c: string)
    requires p == "5" + " * " + "9" + " * " + "(" && c == "7 * 3 * 3 + 9"
    ensures p + c + " * " == "5 * 9 * (7 * 3 * 3 + 9 * "
  {
    assert p == "5 * 9 * (";
    assert p + c == "5 * 9 * (7 * 3 * 3 + 9";
  }

  lemma Shows14868(n3: Expr, n4: Expr, n6: Expr, n7: Expr, n8: Expr, n9: Expr)
    requires Shows(n3, "3", 3) && Shows(n4, "4", 4) && Shows(n6, "6", 6)
    requires Shows(n7, "7", 7) && Shows(n8, "8", 8) && Shows(n9, "9", 9)
    ensures Shows(Mul(Mul(Mul(n7, n3), Add(n3, n9)), Add(n3, Grouping(Mul(Add(n8, n6), n4)))),
                  "7 * 3 * 3 + 9" + " * " + "3 + (8 + 6 * 4)", 14868)
  {
    var a := "7" + " * " + "3";
    ShowsMul(n7, "7", 7, n3, "3", 3);
    var b := "3" + " + " + "9";
    ShowsAdd(n3, "3", 3, n9, "9", 9);
    var c := a + " * " + b;
    ShowsMul(Mul(n7, n3), a, 21, Add(n3, n9), b, 12);
    var d := "8" + " + " + "6";
    ShowsAdd(n8, "8", 8, n6, "6", 6);
    var f := d + " * " + "4";
    ShowsMul(Add(n8, n6), d, 14, n4, "4", 4);
    var g := "(" + f + ")";
    ShowsGrouping(Mul(Add(n8, n6), n4), f, 56);
    var h := "3" + " + " + g;
    ShowsAdd(n3, "3", 3, Grouping(Mul(Add(n8, n6), n4)), g, 56);
    ShowsMul(Mul(Mul(n7, n3), Add(n3, n9)), c, 252, Add(n3, Grouping(Mul(Add(n8, n6), n4))), h, 59);
    Spell14868(c, h);
  }

  lemma Spell14868(c: string, h: string)
    requires c == "7" + " * " + "3" + " * " + ("3" + " + " + "9")
    requires h == "3" + " + " + ("(" + ("8" + " + " + "6" + " * " + "4") + ")")
    ensures c == "7 * 3 * 3 + 9" && h == "3 + (8 + 6 * 4)"
  {
  }

  /** `((2 + 4 * 9) * (6 + 9 * 8 + 6) + 6) + 2 + 4 * 2` as the parser builds it. */
  function Tree23340(): Expr {
    var left := Grouping(Mul(Add(Num(2), Num(4)), Num(9)));
    var right := Add(Grouping(Mul(Add(Num(6), Num(9)), Add(Num(8), Num(6)))), Num(6));
    Mul(Add(Add(Grouping(Mul(left, right)), Num(2)), Num(4)), Num(2))
  }

  lemma EvalExample23340()
    ensures Fits(Lex("((2 + 4 * 9) * (6 + 9 * 8 + 6) + 6) + 2 + 4 * 2"))
    ensures LineValue("((2 + 4 * 9) * (6 + 9 * 8 + 6) + 6) + 2 + 4 * 2") == Ok(Some(23340))
  {
    ShowsDigits();
    Shows23340(Num(2), Num(4), Num(6), Num(8), Num(9));
    Grammar23340();
    TestLine(Tree23340(), "((2 + 4 * 9) * (6 + 9 * 8 + 6) + 6) + 2 + 4 * 2", 23340);
  }

  lemma Grammar23340()
    ensures IsFactorTree(Tree23340())
  {
  }

  lemma Shows23340(n2: Expr, n4: Expr, n6: Expr, n8: Expr, n9: Expr)
    requires Shows(n2, "2", 2) && Shows(n4, "4", 4) && Shows(n6, "6", 6) && Shows(n8, "8", 8) && Shows(n9, "9", 9)
    ensures Shows(Mul(Add(Add(Grouping(Mul(Grouping(Mul(Add(n2, n4), n9)), Add(Grouping(Mul(Add(n6, n9), Add(n8, n6))), n6))), n2), n4), n2),
                  "((2 + 4 * 9) * (6 + 9 * 8 + 6) + 6) + 2 + 4 * 2", 23340)
  {
    var m := Mul(Grouping(Mul(Add(n2, n4), n9)), Add(Grouping(Mul(Add(n6, n9), Add(n8, n6))), n6));
    var t := "(2 + 4 * 9)" + " * " + "(6 + 9 * 8 + 6) + 6";
    Shows11664(n2, n4, n6, n8, n9);
    ShowsGrouping(m, t, 11664);
    var g := "(" + t + ")";
    ShowsAdd(Grouping(m), g, 11664, n2, "2", 2);
    ShowsAdd(Add(Grouping(m), n2), g + " + " + "2", 11666, n4, "4", 4);
    ShowsMul(Add(Add(Grouping(m), n2), n4), g + " + " + "2" + " + " + "4", 11670, n2, "2", 2);
    Spell23340("(2 + 4 * 9)", "(6 + 9 * 8 + 6) + 6");
  }

  lemma Spell23340(l: string, r: string)
    requires l == "(2 + 4 * 9)" && r == "(6 + 9 * 8 + 6) + 6"
    ensures "(" + (l + " * " + r) + ")" + " + " + "2" + " + " + "4" + " * " + "2"
         == "((2 + 4 * 9) * (6 + 9 * 8 + 6) + 6) + 2 + 4 * 2"
  {
    Spell23340Head(l, r);
    assert "(" + (l + " * " + r) + ")" == "((2 + 4 * 9) * (6 + 9 * 8 + 6) + 6)";
  }

  lemma Spell23340Head(l: string, r: string)
    requires l == "(2 + 4 * 9)" && r == "(6 + 9 * 8 + 6) + 6"
    ensures "(" + (l + " * " + r) == "((2 + 4 * 9) * (6 + 9 * 8 + 6) + 6"
  {
    assert "(" + l + " * " == "((2 + 4 * 9) * ";
  }

  lemma Shows11664(n2: Expr, n4: Expr, n6: Expr, n8: Expr, n9: Expr)
    requires Shows(n2, "2", 2) && Shows(n4, "4", 4) && Shows(n6, "6", 6) && Shows(n8, "8", 8) && Shows(n9, "9", 9)
    ensures Shows(Mul(Grouping(Mul(Add(n2, n4), n9)), Add(Grouping(Mul(Add(n6, n9), Add(n8, n6))), n6)),
                  "(2 + 4 * 9)" + " * " + "(6 + 9 * 8 + 6) + 6", 11664)
  {
    var a := "2" + " + " + "4";
    ShowsAdd(n2, "2", 2, n4, "4", 4);
    var b := a + " * " + "9";
    ShowsMul(Add(n2, n4), a, 6, n9, "9", 9);
    var l := "(" + b + ")";
    ShowsGrouping(Mul(Add(n2, n4), n9), b, 54);
    var c := "6" + " + " + "9";
    ShowsAdd(n6, "6", 6, n9, "9", 9);
    var d := "8" + " + " + "6";
    ShowsAdd(n8, "8", 8, n6, "6", 6);
    var f := c + " * " + d;
    ShowsMul(Add(n6, n9), c, 15, Add(n8, n6), d, 14);
    var g := "(" + f + ")";
    ShowsGrouping(Mul(Add(n6, n9), Add(n8, n6)), f, 210);
    var r := g + " + " + "6";
    ShowsAdd(Grouping(Mul(Add(n6, n9), Add(n8, n6))), g, 210, n6, "6", 6);
    ShowsMul(Grouping(Mul(Add(n2, n4), n9)), l, 54, Add(Grouping(Mul(Add(n6, n9), Add(n8, n6))), n6), r, 216);
    Spell11664(l, r);
  }

  lemma Spell11664(l: string, r: string)
    requires l == "(" + ("2" + " + " + "4" + " * " + "9") + ")"
    requires r == "(" + ("6" + " + " + "9" + " * " + ("8" + " + " + "6")) + ")" + " + " + "6"
    ensures l == "(2 + 4 * 9)" && r == "(6 + 9 * 8 + 6) + 6"
  {
  }

  /** Division truncates toward zero: `7 / -2` is -3. */
  lemma DivisionExample()
    ensures Evaluate(Binary(Literal(Number(7)), Slash, Unary(Minus, Literal(Number(2))))) == Some(-3)
  {
  }

  /** Division by zero has no value (the source panics). */
  lemma DivisionByZeroExample()
    ensures Evaluate(Binary(Literal(Number(1)), Slash, Literal(Number(0)))) == None
  {
  }
}
