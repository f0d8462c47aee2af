/**
 * Day 4, part two: the same records, but each required field must also
 * pass its validator; the first field that is missing or invalid names the
 * error. Grouping lines into records is part one's.
 */
module Day4b {
  import opened Common
  import Day4a

  /** Why a field's text was refused (the source formats these as messages). */
  datatype Reason =
    | NotANumber(text: string)
    | OutOfRange(number: nat, lo: nat, hi: nat)
    | UnknownUnit(text: string)
    | MissingHash(text: string)
    | InvalidCharacter(c: char)
    | UnknownEyeColor(text: string)
    | WrongLength(length: nat)
    | InvalidCharacters(chars: seq<char>)

  datatype Height = Cm(cm: nat) | In(inches: nat)

  datatype EyeColor = Amb | Blu | Brn | Gry | Grn | Hzl | Oth

  datatype Passport = Passport(
    birthYear: nat, issueYear: nat, expirationYear: nat, height: Height,
    hairColor: string, eyeColor: EyeColor, passportId: string, countryId: Option<string>)

  datatype PassportParseError =
    | MissingRequiredField(field: string)
    | ValidationFailure(field: string, message: Reason)

  /* ---------------------------------------------------------------- */
  /* Field validators                                                  */
  /* ---------------------------------------------------------------- */

  /** A `u32` within `lo..=hi`: the shape shared by the year and height validators. */
  function ParseRanged(s: string, lo: nat, hi: nat): (r: Result<nat, Reason>)
    ensures r.Ok? <==> ParseUnsigned(s, U32_LIMIT).Some? && lo <= ParseUnsigned(s, U32_LIMIT).value <= hi
    ensures r.Ok? ==> r.value == ParseUnsigned(s, U32_LIMIT).value
  {
    match ParseUnsigned(s, U32_LIMIT)
    case None => Err(NotANumber(s))
    case Some(n) => if lo <= n <= hi then Ok(n) else Err(OutOfRange(n, lo, hi))
  }

  /** `BirthYear::from_str`: 1920..=2002. */
  function ParseBirthYear(s: string): Result<nat, Reason> { ParseRanged(s, 1920, 2002) }

  /** `IssueYear::from_str`: 2010..=2020. */
  function ParseIssueYear(s: string): Result<nat, Reason> { ParseRanged(s, 2010, 2020) }

  /** `ExpirationYear::from_str`: 2020..=2030. */
  function ParseExpirationYear(s: string): Result<nat, Reason> { ParseRanged(s, 2020, 2030) }

  /** A number in range printed in decimal passes the range check. */
  lemma RangedRoundTrip(n: nat, lo: nat, hi: nat)
    requires lo <= n <= hi < U32_LIMIT
    ensures ParseRanged(ToDecimal(n), lo, hi) == Ok(n)
  {
    ParseUnsignedToDecimal(n, U32_LIMIT);
  }

  /**
   * `Height::from_str`: a text ending in "in" is inches (59..=76), checked
   * before "cm" for centimetres (150..=193); any other ending is refused.
   */
  function ParseHeight(s: string): (r: Result<Height, Reason>)
    ensures r.Ok? && r.value.In? <==> EndsWith(s, "in") && ParseRanged(s[..|s| - 2], 59, 76).Ok?
    ensures r.Ok? && r.value.Cm? <==> !EndsWith(s, "in") && EndsWith(s, "cm") && ParseRanged(s[..|s| - 2], 150, 193).Ok?
    ensures r.Ok? ==> ParseRanged(s[..|s| - 2], 0, U32_LIMIT).Ok?
    ensures r.Ok? ==> (if r.value.In? then r.value.inches else r.value.cm) == ParseRanged(s[..|s| - 2], 0, U32_LIMIT).value
    ensures !EndsWith(s, "in") && !EndsWith(s, "cm") ==> r == Err(UnknownUnit(s))
  {
    if EndsWith(s, "in") then
      match ParseRanged(s[..|s| - 2], 59, 76)
      case Ok(n) => Ok(In(n))
      case Err(e) => Err(e)
    else if EndsWith(s, "cm") then
      match ParseRanged(s[..|s| - 2], 150, 193)
      case Ok(n) => Ok(Cm(n))
      case Err(e) => Err(e)
    else Err(UnknownUnit(s))
  }

  /** Heights in range, printed with their unit, parse back. */
  lemma HeightRoundTrip(h: Height)
    requires if h.Cm? then 150 <= h.cm <= 193 else 59 <= h.inches <= 76
    ensures ParseHeight(ToDecimal(if h.Cm? then h.cm else h.inches) + (if h.Cm? then "cm" else "in")) == Ok(h)
  {
    var n := if h.Cm? then h.cm else h.inches;
    var s := ToDecimal(n) + (if h.Cm? then "cm" else "in");
    assert s[..|s| - 2] == ToDecimal(n);
    if h.Cm? {
      assert s[|s| - 2..] == "cm";
      RangedRoundTrip(n, 150, 193);
    } else {
      assert s[|s| - 2..] == "in";
      RangedRoundTrip(n, 59, 76);
    }
  }

  predicate HairChar(c: char) {
    'a' <= c <= 'z' || '0' <= c <= '9'
  }

  /** The first character that is neither a lowercase letter nor a digit. */
  function FirstInvalid(s: string): (r: Option<char>)
    ensures r.None? <==> forall i :: 0 <= i < |s| ==> HairChar(s[i])
    ensures r.Some? ==> exists i :: 0 <= i < |s| && s[i] == r.value && !HairChar(s[i]) && forall j :: 0 <= j < i ==> HairChar(s[j])
  {
    if s == [] then None
    else if !HairChar(s[0]) then Some(s[0])
    else
      var r := FirstInvalid(s[1..]);
      if r.Some? then
        var i :| 0 <= i < |s[1..]| && s[1..][i] == r.value && !HairChar(s[1..][i]) && forall j :: 0 <= j < i ==> HairChar(s[1..][j]);
        assert s[i + 1] == r.value && forall j :: 0 <= j < i + 1 ==> HairChar(s[j]);
        r
      else r
  }

  /**
   * `HairColor::from_str`: a '#' and then only `a`-`z` and `0`-`9`, of any
   * length; the colour kept is the whole text.
   */
  function ParseHairColor(s: string): (r: Result<string, Reason>)
    ensures r.Ok? <==> StartsWith(s, "#") && forall i :: 1 <= i < |s| ==> HairChar(s[i])
    ensures r.Ok? ==> r.value == s
    ensures !StartsWith(s, "#") ==> r == Err(MissingHash(s))
  {
    if !StartsWith(s, "#") then Err(MissingHash(s))
    else
      match FirstInvalid(s[1..])
      case Some(c) => Err(InvalidCharacter(c))
      case None =>
        assert forall i :: 1 <= i < |s| ==> s[i] == s[1..][i - 1];
        assert s == "#" + s[1..];
        Ok("#" + s[1..])
  }

  /** The character loop of `HairColor::from_str`, returning at the first bad character. */
  method HairColorFromStr(s: string) returns (r: Result<string, Reason>)
    ensures r == ParseHairColor(s)
  {
    if |s| == 0 || s[0] != '#' {
      assert !StartsWith(s, "#");
      return Err(MissingHash(s));
    }
    assert StartsWith(s, "#");
    var rest := s[1..];
    for i := 0 to |rest|
      invariant forall j :: 0 <= j < i ==> HairChar(rest[j])
    {
      if !HairChar(rest[i]) {
        FirstInvalidAt(rest, i);
        return Err(InvalidCharacter(rest[i]));
      }
    }
    return Ok("#" + rest);
  }

  lemma FirstInvalidAt(s: string, i: nat)
    requires i < |s| && !HairChar(s[i]) && forall j :: 0 <= j < i ==> HairChar(s[j])
    ensures FirstInvalid(s) == Some(s[i])
  {
    if i > 0 {
      FirstInvalidAt(s[1..], i - 1);
    }
  }

  function EyeColorName(e: EyeColor): string {
    match e
    case Amb => "amb" case Blu => "blu" case Brn => "brn" case Gry => "gry"
    case Grn => "grn" case Hzl => "hzl" case Oth => "oth"
  }

  /** `EyeColor::from_str`: exactly the seven names. */
  function ParseEyeColor(s: string): (r: Result<EyeColor, Reason>)
    ensures r.Ok? <==> s in {"amb", "blu", "brn", "gry", "grn", "hzl", "oth"}
    ensures r.Ok? ==> EyeColorName(r.value) == s
    ensures r.Err? ==> r.error == UnknownEyeColor(s)
  {
    if s == "amb" then Ok(Amb) else if s == "blu" then Ok(Blu) else if s == "brn" then Ok(Brn)
    else if s == "gry" then Ok(Gry) else if s == "grn" then Ok(Grn) else if s == "hzl" then Ok(Hzl)
    else if s == "oth" then Ok(Oth) else Err(UnknownEyeColor(s))
  }

  lemma EyeColorRoundTrip(e: EyeColor)
    ensures ParseEyeColor(EyeColorName(e)) == Ok(e)
  {
  }

  /** The characters of `s` that are not ASCII digits, in order. */
  function NonDigits(s: string): (r: seq<char>)
    ensures r == [] <==> AllDigits(s)
  {
    if s == [] then []
    else
      assert forall i :: 1 <= i < |s| ==> s[i] == s[1..][i - 1];
      (if IsDigit(s[0]) then [] else [s[0]]) + NonDigits(s[1..])
  }

  /** `PassportId::from_str`: the byte length must be 9, then every character a digit. */
  function ParsePassportId(s: string): (r: Result<string, Reason>)
    ensures r.Ok? <==> |s| == 9 && AllDigits(s)
    ensures r.Ok? ==> r.value == s
  {
    if Utf8Length(s) != 9 then
      DigitsAreBytes(s);
      Err(WrongLength(Utf8Length(s)))
    else if NonDigits(s) != [] then Err(InvalidCharacters(NonDigits(s)))
    else
      DigitsAreBytes(s);
      Ok(s)
  }

  /** Digits are one byte each. */
  lemma {:induction false} DigitsAreBytes(s: string)
    ensures AllDigits(s) ==> Utf8Length(s) == |s|
  {
    if s != [] {
      DigitsAreBytes(s[1..]);
      if AllDigits(s) {
        assert AllDigits(s[1..]) by {
          forall i | 0 <= i < |s| - 1
            ensures IsDigit(s[1..][i])
          {
            assert s[1..][i] == s[i + 1];
          }
        }
      }
    }
  }

  /* ---------------------------------------------------------------- */
  /* The conversion                                                    */
  /* ---------------------------------------------------------------- */

  /**
   * The `from_str` helper of `try_from`: the field must be present and
   * its validator must accept it.
   */
  function FromStr<T>(values: Day4a.Record, field: string, parse: string -> Result<T, Reason>): (r: Result<T, PassportParseError>)
    ensures field !in values ==> r == Err(MissingRequiredField(field))
    ensures field in values ==> (r.Ok? <==> parse(values[field]).Ok?)
    ensures field in values && r.Ok? ==> r.value == parse(values[field]).value
    ensures field in values && r.Err? ==> r.error == ValidationFailure(field, parse(values[field]).error)
  {
    if field !in values then Err(MissingRequiredField(field))
    else
      match parse(values[field])
      case Ok(v) => Ok(v)
      case Err(m) => Err(ValidationFailure(field, m))
  }

  /** The name of required field `i`, in the order `try_from` reads them. */
  function FieldName(i: nat): (f: string)
    requires i < 7
    ensures f == Day4a.RequiredFields[i]
  {
    match i
    case 0 => "byr" case 1 => "iyr" case 2 => "eyr" case 3 => "hgt"
    case 4 => "hcl" case 5 => "ecl" case 6 => "pid"
  }

  /** Whether the text of required field `i` passes its validator (an independent dispatch). */
  predicate Passes(i: nat, text: string)
    requires i < 7
  {
    match i
    case 0 => ParseBirthYear(text).Ok?
    case 1 => ParseIssueYear(text).Ok?
    case 2 => ParseExpirationYear(text).Ok?
    case 3 => ParseHeight(text).Ok?
    case 4 => ParseHairColor(text).Ok?
    case 5 => ParseEyeColor(text).Ok?
    case 6 => ParsePassportId(text).Ok?
  }

  /** Required field `i` is present and valid. */
  predicate FieldValid(value: Day4a.Record, i: nat)
    requires i < 7
  {
    FieldName(i) in value && Passes(i, value[FieldName(i)])
  }

  /** `e` reports field `i`, the first required field that is missing or invalid. */
  predicate FailsFirst(value: Day4a.Record, i: nat, e: PassportParseError)
  {
    i < 7 && !FieldValid(value, i) && (forall j :: 0 <= j < i ==> FieldValid(value, j))
    && e.field == FieldName(i) && (e.MissingRequiredField? <==> FieldName(i) !in value)
  }

  /** `Passport::try_from`: the fields in order byr..pid, stopping at the first failure; `cid` is optional. */
  function TryFrom(value: Day4a.Record): (r: Result<Passport, PassportParseError>)
    ensures r.Ok? <==> forall i :: 0 <= i < 7 ==> FieldValid(value, i)
    ensures r.Err? ==> exists i: nat :: FailsFirst(value, i, r.error)
    ensures r.Ok? ==> r.value.countryId == (if "cid" in value then Some(value["cid"]) else None)
  {
    var byr := FromStr(value, "byr", ParseBirthYear);
    if byr.Err? then assert FailsFirst(value, 0, byr.error); Err(byr.error) else
    var iyr := FromStr(value, "iyr", ParseIssueYear);
    if iyr.Err? then assert FailsFirst(value, 1, iyr.error); Err(iyr.error) else
    var eyr := FromStr(value, "eyr", ParseExpirationYear);
    if eyr.Err? then assert FailsFirst(value, 2, eyr.error); Err(eyr.error) else
    var hgt := FromStr(value, "hgt", ParseHeight);
    if hgt.Err? then assert FailsFirst(value, 3, hgt.error); Err(hgt.error) else
    var hcl := FromStr(value, "hcl", ParseHairColor);
    if hcl.Err? then assert FailsFirst(value, 4, hcl.error); Err(hcl.error) else
    var ecl := FromStr(value, "ecl", ParseEyeColor);
    if ecl.Err? then assert FailsFirst(value, 5, ecl.error); Err(ecl.error) else
    var pid := FromStr(value, "pid", ParsePassportId);
    if pid.Err? then assert FailsFirst(value, 6, pid.error); Err(pid.error) else
    assert FieldValid(value, 6);
    Ok(Passport(byr.value, iyr.value, eyr.value, hgt.value, hcl.value, ecl.value, pid.value,
                if "cid" in value then Some(value["cid"]) else None))
  }

  /** A passport valid here is one part one accepts too. */
  lemma StricterThanPartOne(value: Day4a.Record)
    requires TryFrom(value).Ok?
    ensures Day4a.TryFrom(value).Ok?
  {
    forall f | f in Day4a.RequiredFields
      ensures f in value
    {
      var i :| 0 <= i < 7 && Day4a.RequiredFields[i] == f;
      assert FieldValid(value, i);
    }
  }

  /** The year examples of the puzzle text. */
  lemma BirthYearExamples()
    ensures ParseBirthYear("2002") == Ok(2002) && ParseBirthYear("2003") == Err(OutOfRange(2003, 1920, 2002))
  {
    Decimal2002();
    RangedDecimal(2002, 1920, 2002);
    RangedDecimal(2003, 1920, 2002);
  }

  lemma Decimal2002()
    ensures ToDecimal(2002) == "2002" && ToDecimal(2003) == "2003"
  {
  }

  /** The range check of a number printed in decimal. */
  lemma RangedDecimal(n: nat, lo: nat, hi: nat)
    requires n < U32_LIMIT
    ensures ParseRanged(ToDecimal(n), lo, hi) == if lo <= n <= hi then Ok(n) else Err(OutOfRange(n, lo, hi))
  {
    ParseUnsignedToDecimal(n, U32_LIMIT);
  }

  /** Heights the puzzle text accepts. */
  lemma HeightExamples()
    ensures ParseHeight("60in") == Ok(In(60)) && ParseHeight("190cm") == Ok(Cm(190))
  {
    assert ToDecimal(60) == "60" && ToDecimal(190) == "190";
    HeightRoundTrip(In(60));
    assert ToDecimal(60) + "in" == "60in";
    HeightRoundTrip(Cm(190));
    assert ToDecimal(190) + "cm" == "190cm";
  }

  /** Heights the puzzle text refuses: out of range for the unit, or no unit. */
  lemma HeightRefused()
    ensures ParseHeight("190in") == Err(OutOfRange(190, 59, 76)) && ParseHeight("190") == Err(UnknownUnit("190"))
  {
    assert ToDecimal(190) == "190";
    RangedDecimal(190, 59, 76);
    assert "190in"[..3] == "190";
  }

  /**
   * Hair colours of the puzzle text. Unlike the puzzle's rule (six
   * characters from 0-9 and a-f), any lowercase letter and any length after
   * the '#' pass here, as in the source.
   */
  lemma HairColorExamples()
    ensures ParseHairColor("#123abz") == Ok("#123abz")
    ensures ParseHairColor("123abc") == Err(MissingHash("123abc"))
  {
    var z := "#123abz";
    assert !StartsWith("123abc", "#") by { assert "123abc"[0] == '1'; }
    assert forall i :: 1 <= i < |z| ==> HairChar(z[i]) by {
      assert z[1] == '1' && z[2] == '2' && z[3] == '3' && z[4] == 'a' && z[5] == 'b' && z[6] == 'z';
    }
  }

  /** The first character outside the accepted ones is the one reported. */
  lemma HairColorRefused()
    ensures ParseHairColor("#12-abc") == Err(InvalidCharacter('-'))
  {
    var rest := "12-abc";
    assert HairChar(rest[0]) && HairChar(rest[1]);
    FirstInvalidAt(rest, 2);
    assert "#12-abc"[1..] == rest && "#12-abc"[..1] == "#";
    InvalidAfterHash("#12-abc", '-');
  }

  /** After the "#", the first character that is neither a lowercase letter nor a digit is the one refused. */
  lemma InvalidAfterHash(s: string, c: char)
    requires |s| >= 1 && s[..1] == "#" && FirstInvalid(s[1..]) == Some(c)
    ensures ParseHairColor(s) == Err(InvalidCharacter(c))
  {
  }

  /** Eye colours of the puzzle text. */
  lemma EyeColorExamples()
    ensures ParseEyeColor("brn") == Ok(Brn) && ParseEyeColor("wat") == Err(UnknownEyeColor("wat"))
  {
  }

  /** Passport ids of the puzzle text: nine digits pass, ten do not. */
  lemma PassportIdExamples()
    ensures ParsePassportId("000000001") == Ok("000000001")
    ensures ParsePassportId("0123456789") == Err(WrongLength(10))
  {
    DigitsAreBytes("000000001");
    DigitsAreBytes("0123456789");
  }

  /** The answer: the number of records that convert, grouped as in part one. */
  method CountPassports(lines: seq<string>) returns (n: nat)
    ensures n == |Day4a.Converted(Day4a.Records(lines, map[]), TryFrom)|
  {
    var passports := Day4a.ParsePassports(lines, TryFrom);
    assert TryFrom(map[]) == Err(MissingRequiredField("byr"));
    Day4a.ParsePassportsRecords(lines, TryFrom);
    n := |passports|;
  }
}
