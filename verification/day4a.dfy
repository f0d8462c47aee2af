/**
 * Day 4, part one: passport records are groups of `key:value` tokens spread
 * over lines and separated by blank lines; a record converts to a passport
 * when it has all seven required fields (`cid` is optional).
 *
 * The grouping loop is written once, generic in the conversion, and part
 * two reuses it with its validating conversion.
 */
module Day4a {
  import opened Common

  /** The key/value map a record collects (`HashMap<String, String>`). */
  type Record = map<string, string>

  /* ---------------------------------------------------------------- */
  /* Tokens and lines                                                  */
  /* ---------------------------------------------------------------- */

  /**
   * `kv.split(':')` and its first two pieces: the key runs to the first ':'
   * and the value to the next ':' or the end; a token without ':' has none.
   */
  function KeyValue(kv: string): (r: Option<(string, string)>)
    ensures r.Some? <==> ':' in kv
    ensures r.Some? ==> ':' !in r.value.0 && ':' !in r.value.1
    ensures r.Some? ==> StartsWith(kv, r.value.0 + [':'] + r.value.1)
    ensures r.Some? ==> var n := |r.value.0| + 1 + |r.value.1|; n == |kv| || kv[n] == ':'
  {
    var it := Split(kv, ':');
    SplitCount(kv, ':');
    if |it| >= 2 then
      SplitSecondPiece(kv, ':');
      Some((it[0], it[1]))
    else
      None
  }

  /** `parse_kv_into_map`: a token with a ':' sets its key to its value; others change nothing. */
  function ParseKvIntoMap(kv: string, data: Record): (r: Record)
    ensures KeyValue(kv).None? ==> r == data
    ensures KeyValue(kv).Some? ==> r.Keys == data.Keys + {KeyValue(kv).value.0}
    ensures KeyValue(kv).Some? ==> r[KeyValue(kv).value.0] == KeyValue(kv).value.1
    ensures KeyValue(kv).Some? ==> forall k :: k in data && k != KeyValue(kv).value.0 ==> r[k] == data[k]
  {
    match KeyValue(kv)
    case Some((key, value)) => data[key := value]
    case None => data
  }

  /** The tokens of a line: `split_ascii_whitespace`. */
  function Tokens(line: string): seq<string> {
    Words(line, IsAsciiWhitespace)
  }

  /** The tokens applied in order, each with `parse_kv_into_map`. */
  function ParseTokens(tokens: seq<string>, data: Record): Record {
    if tokens == [] then data else ParseTokens(tokens[1..], ParseKvIntoMap(tokens[0], data))
  }

  /** `parse_kv_line_into_map`: every token of the line, left to right. */
  method ParseKvLineIntoMap(line: string, data0: Record) returns (data: Record)
    ensures data == ParseTokens(Tokens(line), data0)
  {
    data := data0;
    var tokens := Tokens(line);
    for i := 0 to |tokens|
      invariant ParseTokens(tokens[i..], data) == ParseTokens(tokens, data0)
    {
      assert tokens[i..][1..] == tokens[i + 1..];
      data := ParseKvIntoMap(tokens[i], data);
    }
    assert tokens[|tokens|..] == [];
  }

  predicate HasKey(kv: string, key: string) {
    KeyValue(kv).Some? && KeyValue(kv).value.0 == key
  }

  /** The keys after a line's tokens: the old keys and every token's key. */
  lemma {:induction false} ParseTokensKeys(tokens: seq<string>, data: Record, key: string)
    ensures key in ParseTokens(tokens, data) <==> key in data || exists i :: 0 <= i < |tokens| && HasKey(tokens[i], key)
  {
    if tokens != [] {
      ParseTokensKeys(tokens[1..], ParseKvIntoMap(tokens[0], data), key);
      if exists i :: 0 <= i < |tokens| - 1 && HasKey(tokens[1..][i], key) {
        var i :| 0 <= i < |tokens| - 1 && HasKey(tokens[1..][i], key);
        assert HasKey(tokens[i + 1], key);
      }
      if exists i :: 0 <= i < |tokens| && HasKey(tokens[i], key) {
        var i :| 0 <= i < |tokens| && HasKey(tokens[i], key);
        if i > 0 {
          assert HasKey(tokens[1..][i - 1], key);
        }
      }
    }
  }

  /** Later duplicates overwrite earlier ones: a key holds the value of its last token. */
  lemma {:induction false} LastTokenWins(tokens: seq<string>, data: Record, i: nat)
    requires i < |tokens| && KeyValue(tokens[i]).Some?
    requires forall j :: i < j < |tokens| ==> !HasKey(tokens[j], KeyValue(tokens[i]).value.0)
    ensures KeyValue(tokens[i]).value.0 in ParseTokens(tokens, data)
    ensures ParseTokens(tokens, data)[KeyValue(tokens[i]).value.0] == KeyValue(tokens[i]).value.1
  {
    var next := ParseKvIntoMap(tokens[0], data);
    if i > 0 {
      LastTokenWins(tokens[1..], next, i - 1);
    } else {
      UntouchedKey(tokens[1..], next, KeyValue(tokens[0]).value.0);
    }
  }

  /** A key no token names keeps its value. */
  lemma {:induction false} UntouchedKey(tokens: seq<string>, data: Record, key: string)
    requires key in data
    requires forall j :: 0 <= j < |tokens| ==> !HasKey(tokens[j], key)
    ensures key in ParseTokens(tokens, data) && ParseTokens(tokens, data)[key] == data[key]
  {
    if tokens != [] {
      UntouchedKey(tokens[1..], ParseKvIntoMap(tokens[0], data), key);
    }
  }

  /* ---------------------------------------------------------------- */
  /* Passports                                                         */
  /* ---------------------------------------------------------------- */

  datatype Passport = Passport(
    birthYear: string, issueYear: string, expirationYear: string, height: string,
    hairColor: string, eyeColor: string, passportId: string, countryId: Option<string>)

  datatype PassportParseError = MissingRequiredField(field: string)

  /** The required fields, in the order the conversion checks them. */
  const RequiredFields: seq<string> := ["byr", "iyr", "eyr", "hgt", "hcl", "ecl", "pid"]

  /** Field `i` is the first required field the record lacks. */
  predicate FirstMissing(value: Record, i: nat) {
    i < |RequiredFields| && RequiredFields[i] !in value && forall j :: 0 <= j < i ==> RequiredFields[j] in value
  }

  /** `Passport::try_from`: every required field is taken out of the record; `cid` is optional. */
  function TryFrom(value: Record): (r: Result<Passport, PassportParseError>)
    ensures r.Ok? <==> forall f :: f in RequiredFields ==> f in value
    ensures r.Err? ==> exists i: nat :: FirstMissing(value, i) && r.error == MissingRequiredField(RequiredFields[i])
    ensures r.Ok? ==> r.value.birthYear == value["byr"] && r.value.issueYear == value["iyr"]
                      && r.value.expirationYear == value["eyr"] && r.value.height == value["hgt"]
                      && r.value.hairColor == value["hcl"] && r.value.eyeColor == value["ecl"]
                      && r.value.passportId == value["pid"]
    ensures r.Ok? ==> (r.value.countryId.Some? <==> "cid" in value)
    ensures r.Ok? && "cid" in value ==> r.value.countryId == Some(value["cid"])
  {
    if "byr" !in value then assert FirstMissing(value, 0); Err(MissingRequiredField("byr"))
    else if "iyr" !in value then assert FirstMissing(value, 1); Err(MissingRequiredField("iyr"))
    else if "eyr" !in value then assert FirstMissing(value, 2); Err(MissingRequiredField("eyr"))
    else if "hgt" !in value then assert FirstMissing(value, 3); Err(MissingRequiredField("hgt"))
    else if "hcl" !in value then assert FirstMissing(value, 4); Err(MissingRequiredField("hcl"))
    else if "ecl" !in value then assert FirstMissing(value, 5); Err(MissingRequiredField("ecl"))
    else if "pid" !in value then assert FirstMissing(value, 6); Err(MissingRequiredField("pid"))
    else
      Ok(Passport(value["byr"], value["iyr"], value["eyr"], value["hgt"], value["hcl"], value["ecl"], value["pid"],
                  if "cid" in value then Some(value["cid"]) else None))
  }

  /* ---------------------------------------------------------------- */
  /* Grouping lines into records                                       */
  /* ---------------------------------------------------------------- */

  /** `line.trim().is_empty()`. */
  predicate Blank(line: string) {
    Trim(line) == []
  }

  /** `option_to_passport`: the pending record, if any, is converted and kept when that succeeds. */
  function OptionToPassport<P, E>(passports: seq<P>, data: Option<Record>, convert: Record -> Result<P, E>): (r: seq<P>)
    ensures data.Some? && convert(data.value).Ok? ==> r == passports + [convert(data.value).value]
    ensures data.None? || convert(data.value).Err? ==> r == passports
  {
    match data
    case None => passports
    case Some(kv) =>
      match convert(kv)
      case Ok(p) => passports + [p]
      case Err(_) => passports
  }

  /**
   * The loop of `parse_passports` over the remaining lines, with the
   * pending record `data` and the passports kept so far.
   */
  function ParseFrom<P, E>(lines: seq<string>, data: Option<Record>, passports: seq<P>, convert: Record -> Result<P, E>): seq<P>
  {
    if lines == [] then OptionToPassport(passports, data, convert)
    else
      var line := lines[0];
      var kept := if Blank(line) then OptionToPassport(passports, data, convert) else passports;
      var pending := if Blank(line) || data.None? then map[] else data.value;
      ParseFrom(lines[1..], Some(ParseTokens(Tokens(line), pending)), kept, convert)
  }

  /** `parse_passports` over the lines of the input (a read error is not modelled). */
  method ParsePassports<P, E>(lines: seq<string>, convert: Record -> Result<P, E>) returns (passports: seq<P>)
    ensures passports == ParseFrom(lines, None, [], convert)
  {
    passports := [];
    var data: Option<Record> := None;
    for i := 0 to |lines|
      invariant ParseFrom(lines[i..], data, passports, convert) == ParseFrom(lines, None, [], convert)
    {
      var line := lines[i];
      assert lines[i..][0] == line && lines[i..][1..] == lines[i + 1..];
      if Trim(line) == [] {
        passports := OptionToPassport(passports, data, convert);
        data := None;
      }
      var pending := if data.Some? then data.value else map[];
      pending := ParseKvLineIntoMap(line, pending);
      data := Some(pending);
    }
    assert lines[|lines|..] == [];
    passports := OptionToPassport(passports, data, convert);
  }

  /**
   * The records of the input, as the blank lines separate them: each is
   * what its lines' tokens make of the record so far (the first starts
   * from `start`, every later one from the empty map).
   */
  function Records(lines: seq<string>, start: Record): (r: seq<Record>)
    ensures |r| == 1 + |BlankLines(lines)|
  {
    if lines == [] then [start]
    else if Blank(lines[0]) then [start] + Records(lines[1..], map[])
    else Records(lines[1..], ParseTokens(Tokens(lines[0]), start))
  }

  function BlankLines(lines: seq<string>): seq<string> {
    if lines == [] then [] else (if Blank(lines[0]) then [lines[0]] else []) + BlankLines(lines[1..])
  }

  /** The passports of the records that convert, in order. */
  function Converted<P, E>(records: seq<Record>, convert: Record -> Result<P, E>): (r: seq<P>)
    ensures |r| <= |records|
  {
    if records == [] then []
    else (if convert(records[0]).Ok? then [convert(records[0]).value] else []) + Converted(records[1..], convert)
  }

  /** A blank line has no ':' in it, so its tokens add nothing to a record. */
  lemma BlankAddsNothing(line: string, data: Record)
    requires Blank(line)
    ensures ParseTokens(Tokens(line), data) == data
  {
    TrimEmptyIff(line);
    forall k | 0 <= k < |line|
      ensures line[k] != ':'
    {
      assert IsWhitespace(line[k]);
    }
    NoColonTokens(line);
    NoKeysNoChange(Tokens(line), data);
  }

  /** The tokens of a line without ':' have no ':' either. */
  lemma {:induction false} NoColonTokens(line: string)
    requires ':' !in line
    ensures forall t :: t in Tokens(line) ==> ':' !in t
    decreases |line|
  {
    if line != [] {
      if IsAsciiWhitespace(line[0]) {
        NoColonTokens(line[1..]);
      } else {
        var len := RunLength(line, IsAsciiWhitespace);
        NoColonTokens(line[len..]);
      }
    }
  }

  lemma {:induction false} NoKeysNoChange(tokens: seq<string>, data: Record)
    requires forall t :: t in tokens ==> ':' !in t
    ensures ParseTokens(tokens, data) == data
  {
    if tokens != [] {
      assert tokens[0] in tokens;
      assert forall t :: t in tokens[1..] ==> t in tokens;
      NoKeysNoChange(tokens[1..], data);
    }
  }

  lemma {:induction false} ConvertedAppend<P, E>(a: seq<Record>, b: seq<Record>, convert: Record -> Result<P, E>)
    ensures Converted(a + b, convert) == Converted(a, convert) + Converted(b, convert)
  {
    if a != [] {
      assert (a + b)[0] == a[0];
      assert (a + b)[1..] == a[1..] + b;
      var h := if convert(a[0]).Ok? then [convert(a[0]).value] else [];
      assert Converted(a + b, convert) == h + Converted(a[1..] + b, convert);
      assert Converted(a, convert) == h + Converted(a[1..], convert);
      ConvertedAppend(a[1..], b, convert);
    } else {
      assert a + b == b;
    }
  }

  /** With a pending record, the loop keeps the converted records, in order. */
  lemma {:induction false} ParseFromRecords<P, E>(lines: seq<string>, data: Record, passports: seq<P>, convert: Record -> Result<P, E>)
    ensures ParseFrom(lines, Some(data), passports, convert) == passports + Converted(Records(lines, data), convert)
  {
    if lines == [] {
      FlushOne(passports, data, convert);
    } else if Blank(lines[0]) {
      ParseFromRecords(lines[1..], map[], OptionToPassport(passports, Some(data), convert), convert);
      BlankLineGlue(lines, data, passports, convert);
    } else {
      ParseFromRecords(lines[1..], ParseTokens(Tokens(lines[0]), data), passports, convert);
      OtherLineStep(lines, data, passports, convert);
    }
  }

  /** The induction step at a blank line. */
  lemma BlankLineGlue<P, E>(lines: seq<string>, data: Record, passports: seq<P>, convert: Record -> Result<P, E>)
    requires lines != [] && Blank(lines[0])
    requires var kept := OptionToPassport(passports, Some(data), convert);
      ParseFrom(lines[1..], Some(map[]), kept, convert) == kept + Converted(Records(lines[1..], map[]), convert)
    ensures ParseFrom(lines, Some(data), passports, convert) == passports + Converted(Records(lines, data), convert)
  {
    var kept := OptionToPassport(passports, Some(data), convert);
    var rest := Records(lines[1..], map[]);
    BlankLineStep(lines, data, passports, convert);
    ConvertedAppend([data], rest, convert);
    FlushOne(passports, data, convert);
    ConcatAssoc(passports, Converted([data], convert), Converted(rest, convert));
  }

  lemma ConcatAssoc<T>(a: seq<T>, b: seq<T>, c: seq<T>)
    ensures (a + b) + c == a + (b + c)
  {
  }

  /** Flushing a pending record keeps what converting the one-record list keeps. */
  lemma FlushOne<P, E>(passports: seq<P>, data: Record, convert: Record -> Result<P, E>)
    ensures OptionToPassport(passports, Some(data), convert) == passports + Converted([data], convert)
  {
    assert Converted([data], convert) == (if convert(data).Ok? then [convert(data).value] else []) + Converted([], convert);
  }

  /** Any other line adds its tokens to the pending record. */
  lemma OtherLineStep<P, E>(lines: seq<string>, data: Record, passports: seq<P>, convert: Record -> Result<P, E>)
    requires lines != [] && !Blank(lines[0])
    ensures ParseFrom(lines, Some(data), passports, convert)
         == ParseFrom(lines[1..], Some(ParseTokens(Tokens(lines[0]), data)), passports, convert)
    ensures Records(lines, data) == Records(lines[1..], ParseTokens(Tokens(lines[0]), data))
  {
  }

  /** At a blank line the pending record is flushed and an empty one starts. */
  lemma BlankLineStep<P, E>(lines: seq<string>, data: Record, passports: seq<P>, convert: Record -> Result<P, E>)
    requires lines != [] && Blank(lines[0])
    ensures ParseFrom(lines, Some(data), passports, convert)
         == ParseFrom(lines[1..], Some(map[]), OptionToPassport(passports, Some(data), convert), convert)
    ensures Records(lines, data) == [data] + Records(lines[1..], map[])
  {
    BlankAddsNothing(lines[0], map[]);
  }

  /**
   * `parse_passports` keeps exactly the records separated by blank lines
   * that convert, in input order, provided the empty record does not
   * convert (it cannot: it lacks every required field).
   */
  lemma ParsePassportsRecords<P, E>(lines: seq<string>, convert: Record -> Result<P, E>)
    requires convert(map[]).Err?
    ensures ParseFrom(lines, None, [], convert) == Converted(Records(lines, map[]), convert)
  {
    EmptyPendingRecord(lines, convert);
    ParseFromRecords(lines, map[], [], convert);
  }

  /** Starting with no record or with an empty one that will not convert is all the same. */
  lemma EmptyPendingRecord<P, E>(lines: seq<string>, convert: Record -> Result<P, E>)
    requires convert(map[]).Err?
    ensures ParseFrom(lines, None, [], convert) == ParseFrom(lines, Some(map[]), [], convert)
  {
    assert OptionToPassport([], None, convert) == [] == OptionToPassport([], Some(map[]), convert);
  }

  /** The empty record lacks `byr`, so part one's conversion refuses it. */
  lemma EmptyRecordRefused()
    ensures TryFrom(map[]) == Err(MissingRequiredField("byr"))
  {
  }

  /**
   * The puzzle's third example record converts without `cid`; its fourth,
   * which also lacks `byr`, is refused for `byr`.
   */
  lemma ExampleRecords()
    ensures TryFrom(map["hcl" := "#ae17e1", "iyr" := "2013", "eyr" := "2024", "ecl" := "brn", "pid" := "760753108",
                        "byr" := "1931", "hgt" := "179cm"]).Ok?
    ensures TryFrom(map["hcl" := "#cfa07d", "eyr" := "2025", "pid" := "166559648", "iyr" := "2011", "ecl" := "brn",
                        "hgt" := "59in"]) == Err(MissingRequiredField("byr"))
  {
  }

  /** The answer: the number of passports parsed. */
  method CountPassports(lines: seq<string>) returns (n: nat)
    ensures n == |Converted(Records(lines, map[]), TryFrom)|
  {
    var passports := ParsePassports(lines, TryFrom);
    ParsePassportsRecords(lines, TryFrom);
    n := |passports|;
  }
}
