/**
 * Day 7, part one: the bags that can, directly or through other bags,
 * hold a shiny gold bag.
 *
 * Each rule line reads `<bag> bags contain <n> <bag> bag(s), ... .` or
 * `<bag> bags contain no other bags.`; the program collects the rules in
 * `data` (bag to contents, a later line for the same bag replacing an
 * earlier one), inverts them into a contained-by index, and searches the
 * index upwards from the searched bag. A malformed line makes an `unwrap`
 * panic, modelled as `None`.
 *
 * The search has no visited set: it ends only when no bag contains itself
 * through other bags. Here that is a precondition, given as a rank that
 * drops from every bag to each bag it holds.
 */
module Day7a {
  import opened Common

  /** One rule: the outer bag and, per inner bag, how many it holds. */
  datatype Rule = Rule(bag: string, contents: map<string, nat>)

  /* ---------------------------------------------------------------- */
  /* Trimming helpers                                                  */
  /* ---------------------------------------------------------------- */

  predicate AllWhitespace(s: string) {
    forall k :: 0 <= k < |s| ==> IsWhitespace(s[k])
  }

  /** A name as the rules write it: not empty, no whitespace at either end. */
  predicate Clean(name: string) {
    |name| > 0 && !IsWhitespace(name[0]) && !IsWhitespace(name[|name| - 1])
  }

  lemma {:induction false} TrimStartPast(pre: string, x: string)
    requires AllWhitespace(pre) && |x| > 0 && !IsWhitespace(x[0])
    ensures TrimStartWhile(pre + x, IsWhitespace) == x
    decreases |pre|
  {
    if |pre| > 0 {
      assert (pre + x)[1..] == pre[1..] + x;
      TrimStartPast(pre[1..], x);
    } else {
      assert pre + x == x;
    }
  }

  lemma {:induction false} TrimEndPast(x: string, post: string)
    requires AllWhitespace(post) && |x| > 0 && !IsWhitespace(x[|x| - 1])
    ensures TrimEndWhile(x + post, IsWhitespace) == x
    decreases |post|
  {
    if |post| > 0 {
      assert (x + post)[..|x + post| - 1] == x + post[..|post| - 1];
      TrimEndPast(x, post[..|post| - 1]);
    } else {
      assert x + post == x;
    }
  }

  /** Whitespace after a clean text is trimmed away, and nothing else. */
  lemma TrimAfter(x: string, post: string)
    requires AllWhitespace(post) && Clean(x)
    ensures Trim(x + post) == x
  {
    assert (x + post)[0] == x[0];
    assert TrimStartWhile(x + post, IsWhitespace) == x + post;
    TrimEndPast(x, post);
  }

  /** Whitespace before a clean text is trimmed away, and nothing else. */
  lemma TrimBefore(pre: string, x: string)
    requires AllWhitespace(pre) && Clean(x)
    ensures Trim(pre + x) == x
  {
    TrimStartPast(pre, x);
    assert x[|x| - 1] == x[|x| - 1];
  }

  /** Whitespace around a clean text is trimmed away, and nothing else. */
  lemma TrimAround(pre: string, x: string, post: string)
    requires AllWhitespace(pre) && AllWhitespace(post) && Clean(x)
    ensures Trim(pre + x + post) == x
  {
    assert pre + x + post == pre + (x + post);
    TrimStartPast(pre, x + post);
    TrimEndPast(x, post);
  }

  /* ---------------------------------------------------------------- */
  /* strip_bag_suffix                                                  */
  /* ---------------------------------------------------------------- */

  /** `strip_bag_suffix`: trim, drop trailing "bags", then trailing "bag" (each repeatedly), trim again. */
  function StripBagSuffix(s: string): string {
    Trim(TrimEndPattern(TrimEndPattern(Trim(s), "bags"), "bag"))
  }

  /** The word after a count: "bag" for one, "bags" otherwise. */
  function BagWord(n: nat): string {
    if n == 1 then " bag" else " bags"
  }

  /** Trailing "bags" goes, and the space before it stops the repetition. */
  lemma DropBags(name: string)
    requires Clean(name)
    ensures TrimEndPattern(name + " bags", "bags") == name + " "
  {
    var w := name + " bags";
    assert EndsWith(w, "bags") && w[..|w| - 4] == name + " ";
    assert (name + " ")[|name|] == ' ';
    assert !EndsWith(name + " ", "bags");
  }

  /** A trailing "bag" is not "bags"; it goes in the second step. */
  lemma DropBag(name: string)
    requires Clean(name)
    ensures TrimEndPattern(name + " bag", "bags") == name + " bag"
    ensures TrimEndPattern(name + " bag", "bag") == name + " "
  {
    var w := name + " bag";
    assert w[|w| - 1] == 'g';
    assert !EndsWith(w, "bags");
    assert EndsWith(w, "bag") && w[..|w| - 3] == name + " ";
    assert (name + " ")[|name|] == ' ';
    assert !EndsWith(name + " ", "bag");
  }

  /** A trailing space has no "bag" to drop. */
  lemma KeepSpace(name: string)
    ensures TrimEndPattern(name + " ", "bag") == name + " "
  {
    assert (name + " ")[|name|] == ' ';
    assert !EndsWith(name + " ", "bag");
  }

  /** A clean name followed by " bag" or " bags" strips back to the name. */
  lemma StripExact(name: string, n: nat)
    requires Clean(name)
    ensures StripBagSuffix(name + BagWord(n)) == name
  {
    StripNamed(name, n, "");
    assert name + BagWord(n) + "" == name + BagWord(n);
  }

  /** A clean name followed by " bag" or " bags" and whitespace strips back to the name. */
  lemma StripNamed(name: string, n: nat, post: string)
    requires Clean(name) && AllWhitespace(post)
    ensures StripBagSuffix(name + BagWord(n) + post) == name
  {
    var w := name + BagWord(n);
    assert Clean(w) by {
      assert w[|w| - 1] == BagWord(n)[|BagWord(n)| - 1];
    }
    TrimAfter(w, post);
    if n == 1 {
      DropBag(name);
    } else {
      DropBags(name);
      KeepSpace(name);
    }
    TrimAfter(name, " ");
  }

  /* ---------------------------------------------------------------- */
  /* Parsing a rule line                                               */
  /* ---------------------------------------------------------------- */

  /** One comma-separated part, `<n> <bag> bag(s)`: the count must parse as `usize` and a space must follow it. */
  function ParseEntry(part: string): Option<(string, nat)> {
    match SplitOnce(Trim(part), " ")
    case None => None
    case Some((count, rest)) =>
      match ParseUnsigned(count, U64_LIMIT)
      case None => None
      case Some(n) => Some((StripBagSuffix(rest), n))
  }

  /** The parts collected into a map, in order, a later part for the same bag replacing an earlier one. */
  function Collect(parts: seq<string>): Option<map<string, nat>> {
    if parts == [] then Some(map[])
    else
      match Collect(parts[..|parts| - 1])
      case None => None
      case Some(m) =>
        match ParseEntry(parts[|parts| - 1])
        case None => None
        case Some((name, n)) => Some(m[name := n])
  }

  /** The text after "contain": trimmed, trailing dots dropped; "no other bags" is no contents. */
  function ParseContents(content: string): Option<map<string, nat>> {
    var c := TrimEndPattern(Trim(content), ".");
    if c == "no other bags" then Some(map[]) else Collect(Split(c, ','))
  }

  /** A rule line, split at its first "contain". */
  function ParseRule(line: string): Option<Rule> {
    match SplitOnce(line, "contain")
    case None => None
    case Some((container, content)) =>
      match ParseContents(content)
      case None => None
      case Some(contents) => Some(Rule(StripBagSuffix(container), contents))
  }

  /* ---------------------------------------------------------------- */
  /* Writing a rule line, and reading it back                          */
  /* ---------------------------------------------------------------- */

  /** One part as the rules write it; parts after the first follow a space. */
  function EntryText(name: string, n: nat, first: bool): string {
    (if first then "" else " ") + (ToDecimal(n) + [' '] + (name + BagWord(n)))
  }

  function EntryTexts(entries: seq<(string, nat)>): (r: seq<string>)
    ensures |r| == |entries|
    ensures forall i :: 0 <= i < |r| ==> r[i] == EntryText(entries[i].0, entries[i].1, i == 0)
  {
    seq(|entries|, i requires 0 <= i < |entries| => EntryText(entries[i].0, entries[i].1, i == 0))
  }

  /** The text between "contain" and the full stop: the parts joined by commas, or "no other bags". */
  function ContentsBody(entries: seq<(string, nat)>): string {
    if entries == [] then "no other bags" else Join(EntryTexts(entries), ',')
  }

  /** The text after "contain": a space, the body, a full stop. */
  function ContentsText(entries: seq<(string, nat)>): string {
    " " + (ContentsBody(entries) + ".")
  }

  /** A rule line for `bag` holding `entries`. */
  function FormatRule(bag: string, entries: seq<(string, nat)>): string {
    bag + BagWord(2) + " " + "contain" + ContentsText(entries)
  }

  /** The entries as a map, a later entry for the same bag replacing an earlier one. */
  function MapOf(entries: seq<(string, nat)>): map<string, nat> {
    if entries == [] then map[] else MapOf(entries[..|entries| - 1])[entries[|entries| - 1].0 := entries[|entries| - 1].1]
  }

  /** A bag name that the rule syntax can carry. */
  predicate Writable(name: string) {
    Clean(name) && ',' !in name
  }

  /** The names and counts of `entries` can be written and read back. */
  predicate WritableEntries(entries: seq<(string, nat)>) {
    forall i :: 0 <= i < |entries| ==> Writable(entries[i].0) && entries[i].1 < U64_LIMIT
  }

  lemma DigitsNoSpace(n: nat)
    ensures ' ' !in ToDecimal(n) && ',' !in ToDecimal(n) && IsDigit(ToDecimal(n)[0])
  {
    var d := ToDecimal(n);
    forall k | 0 <= k < |d|
      ensures IsDigit(d[k])
    {
    }
  }

  /** A written part reads back as its name and count. */
  lemma EntryRoundTrip(name: string, n: nat, first: bool)
    requires Writable(name) && n < U64_LIMIT
    ensures ParseEntry(EntryText(name, n, first)) == Some((name, n))
  {
    var d := ToDecimal(n);
    DigitsNoSpace(n);
    var tail := name + BagWord(n);
    TrimEntry(name, n, first);
    SplitOnceAfter(d, ' ', tail);
    ParseUnsignedToDecimal(n, U64_LIMIT);
    StripExact(name, n);
  }

  /** A written part trims to its count, a space, the name and "bag(s)". */
  lemma TrimEntry(name: string, n: nat, first: bool)
    requires Clean(name)
    ensures Trim(EntryText(name, n, first)) == ToDecimal(n) + [' '] + (name + BagWord(n))
  {
    var core := ToDecimal(n) + [' '] + (name + BagWord(n));
    DigitsNoSpace(n);
    assert core[|core| - 1] == BagWord(n)[|BagWord(n)| - 1];
    TrimBefore(if first then "" else " ", core);
  }

  /** A written part has no comma. */
  lemma EntryNoComma(name: string, n: nat, first: bool)
    requires ',' !in name
    ensures ',' !in EntryText(name, n, first)
  {
    DigitsNoSpace(n);
    assert ',' !in BagWord(n);
  }

  /** A written part ends with the "s" or "g" of "bag(s)"; the first one starts with the count's first digit. */
  lemma EntryEnds(name: string, n: nat, first: bool)
    ensures var t := EntryText(name, n, first);
      |t| > 0 && (t[|t| - 1] == 's' || t[|t| - 1] == 'g') && (first ==> t[0] == ToDecimal(n)[0])
  {
    var w := name + BagWord(n);
    assert w[|w| - 1] == BagWord(n)[|BagWord(n)| - 1];
  }

  /** The written parts collect into the entries' map. */
  lemma {:induction false} CollectEntries(entries: seq<(string, nat)>)
    requires WritableEntries(entries)
    ensures Collect(EntryTexts(entries)) == Some(MapOf(entries))
    decreases |entries|
  {
    if entries != [] {
      var init := entries[..|entries| - 1];
      var last := entries[|entries| - 1];
      assert EntryTexts(entries)[..|entries| - 1] == EntryTexts(init);
      CollectEntries(init);
      EntryRoundTrip(last.0, last.1, |entries| == 1);
    }
  }

  /** A clean body not ending in a dot comes back from behind its space and full stop. */
  lemma TrimDotted(body: string)
    requires Clean(body) && body[|body| - 1] != '.'
    ensures TrimEndPattern(Trim(" " + (body + ".")), ".") == body
  {
    var dotted := body + ".";
    assert dotted[..|dotted| - 1] == body;
    TrimBefore(" ", dotted);
  }

  /** The contents as written read back as the entries' map. */
  lemma ContentsRoundTrip(entries: seq<(string, nat)>)
    requires WritableEntries(entries)
    ensures ParseContents(ContentsText(entries)) == Some(MapOf(entries))
  {
    if entries == [] {
      TrimDotted("no other bags");
    } else {
      var body := ContentsBody(entries);
      JoinEnds(entries);
      DigitsNoSpace(entries[0].1);
      TrimDotted(body);
      assert body != "no other bags" by {
        assert body[0] != 'n';
      }
      BodyParts(entries);
    }
  }

  /** The body of non-empty contents splits back into its written parts, which collect into the map. */
  lemma BodyParts(entries: seq<(string, nat)>)
    requires entries != [] && WritableEntries(entries)
    ensures Collect(Split(ContentsBody(entries), ',')) == Some(MapOf(entries))
  {
    var texts := EntryTexts(entries);
    forall i | 0 <= i < |texts|
      ensures ',' !in texts[i]
    {
      EntryNoComma(entries[i].0, entries[i].1, i == 0);
    }
    SplitJoin(texts, ',');
    CollectEntries(entries);
  }

  /** The written contents start with a digit and end with the "s" or "g" of "bag(s)". */
  lemma JoinEnds(entries: seq<(string, nat)>)
    requires entries != [] && WritableEntries(entries)
    ensures var body := ContentsBody(entries);
      |body| > 0 && body[0] == ToDecimal(entries[0].1)[0] && (body[|body| - 1] == 's' || body[|body| - 1] == 'g')
  {
    var last := |entries| - 1;
    EntryEnds(entries[0].0, entries[0].1, true);
    EntryEnds(entries[last].0, entries[last].1, last == 0);
    JoinedEnds(EntryTexts(entries), EntryText(entries[0].0, entries[0].1, true),
               EntryText(entries[last].0, entries[last].1, last == 0));
  }

  /** Joined by commas, parts whose last one ends in "s" or "g" end so too, and start as the first part does. */
  lemma JoinedEnds(texts: seq<string>, first: string, last: string)
    requires |texts| >= 1 && texts[0] == first && texts[|texts| - 1] == last && |first| > 0 && |last| > 0
    requires last[|last| - 1] == 's' || last[|last| - 1] == 'g'
    ensures var j := Join(texts, ','); |j| > 0 && j[0] == first[0] && (j[|j| - 1] == 's' || j[|j| - 1] == 'g')
  {
    Common.JoinEnds(texts, ',', first, last);
  }

  /** "contain" first occurs right after the container's " bags " when the container's name has none. */
  lemma FindContain(bag: string, rest: string)
    requires Find(bag, "contain").None?
    ensures Find(bag + BagWord(2) + " " + "contain" + rest, "contain") == Some(|bag| + 6)
  {
    var line := bag + BagWord(2) + " " + "contain" + rest;
    assert BagWord(2) == " bags";
    assert line[|bag|] == ' ' && line[|bag| + 5] == ' ';
    var p := |bag| + 6;
    assert line[p..p + 7] == "contain";
    assert OccursAt(line, "contain", p);
    forall k: nat | k < p
      ensures !OccursAt(line, "contain", k)
    {
      if k + 7 <= |bag| {
        assert bag[k..k + 7] == line[k..k + 7];
        assert !OccursAt(bag, "contain", k);
      } else if k <= |bag| {
        assert line[k..k + 7][|bag| - k] == ' ';
      } else {
        assert line[k..k + 7][|bag| + 5 - k] == ' ';
      }
    }
  }

  /** A rule line as written reads back as the rule. */
  lemma RuleRoundTrip(bag: string, entries: seq<(string, nat)>)
    requires Clean(bag) && Find(bag, "contain").None? && WritableEntries(entries)
    ensures ParseRule(FormatRule(bag, entries)) == Some(Rule(bag, MapOf(entries)))
  {
    var rest := ContentsText(entries);
    FindContain(bag, rest);
    var container := bag + BagWord(2) + " ";
    assert SplitOnce(FormatRule(bag, entries), "contain") == Some((container, rest));
    StripNamed(bag, 2, " ");
    ContentsRoundTrip(entries);
  }

  /* ---------------------------------------------------------------- */
  /* Collecting the rules                                              */
  /* ---------------------------------------------------------------- */

  /** Bag to contents, as `main` collects them. */
  type Data = map<string, map<string, nat>>

  /** Every line parsed, in order; `None` when any line fails to parse (the `unwrap` panics). */
  function ParseAll<T>(lines: seq<string>, parse: string -> Option<T>): (r: Option<seq<T>>)
    ensures r.Some? <==> forall i :: 0 <= i < |lines| ==> parse(lines[i]).Some?
    ensures r.Some? ==> |r.value| == |lines| && forall i :: 0 <= i < |lines| ==> parse(lines[i]) == Some(r.value[i])
  {
    if lines == [] then Some([])
    else
      var init := lines[..|lines| - 1];
      assert forall i :: 0 <= i < |init| ==> init[i] == lines[i];
      match ParseAll(init, parse)
      case None => None
      case Some(values) =>
        match parse(lines[|lines| - 1])
        case None => None
        case Some(v) => Some(values + [v])
  }

  /** One more line parsed extends the values parsed so far; one line that fails fails them all. */
  lemma ParseAllStep<T>(lines: seq<string>, i: nat, parse: string -> Option<T>)
    requires i < |lines| && ParseAll(lines[..i], parse).Some?
    ensures parse(lines[i]).Some? ==> ParseAll(lines[..i + 1], parse) == Some(ParseAll(lines[..i], parse).value + [parse(lines[i]).value])
    ensures parse(lines[i]).None? ==> ParseAll(lines, parse).None?
  {
    assert lines[..i + 1][..i] == lines[..i];
  }

  /** Every line as a rule. */
  function ParseLines(lines: seq<string>): Option<seq<Rule>> {
    ParseAll(lines, ParseRule)
  }

  /** The rules in order, each one's contents stored under its bag. */
  function DataOf(rules: seq<Rule>): Data {
    if rules == [] then map[]
    else DataOf(rules[..|rules| - 1])[rules[|rules| - 1].bag := rules[|rules| - 1].contents]
  }

  /** A further rule stores its contents under its bag. */
  lemma DataOfSnoc(rules: seq<Rule>, rule: Rule)
    ensures DataOf(rules + [rule]) == DataOf(rules)[rule.bag := rule.contents]
  {
    assert (rules + [rule])[..|rules|] == rules;
  }

  /** A bag has an entry exactly when some rule is for it. */
  lemma {:induction false} DataOfKeys(rules: seq<Rule>, bag: string)
    ensures bag in DataOf(rules) <==> exists i :: 0 <= i < |rules| && rules[i].bag == bag
  {
    if rules != [] {
      var init := rules[..|rules| - 1];
      DataOfKeys(init, bag);
      if bag in DataOf(init) {
        var i :| 0 <= i < |init| && init[i].bag == bag;
        assert rules[i].bag == bag;
      }
      if exists i :: 0 <= i < |rules| && rules[i].bag == bag {
        var i :| 0 <= i < |rules| && rules[i].bag == bag;
        if i < |init| {
          assert init[i].bag == bag;
        }
      }
    }
  }

  /** A bag's entry is the contents of the last rule for it. */
  lemma {:induction false} DataOfLast(rules: seq<Rule>, i: nat)
    requires i < |rules|
    requires forall j :: i < j < |rules| ==> rules[j].bag != rules[i].bag
    ensures rules[i].bag in DataOf(rules) && DataOf(rules)[rules[i].bag] == rules[i].contents
  {
    if i < |rules| - 1 {
      var init := rules[..|rules| - 1];
      assert init[i] == rules[i];
      DataOfLast(init, i);
    }
  }

  /** The loop of `main` over the lines: each rule's contents inserted under its bag; a line that does not parse panics (`None`). */
  method BuildData(lines: seq<string>) returns (r: Option<Data>)
    ensures r.None? <==> ParseLines(lines).None?
    ensures r.Some? ==> r.value == DataOf(ParseLines(lines).value)
  {
    var data: Data := map[];
    for i := 0 to |lines|
      invariant ParseLines(lines[..i]).Some? && data == DataOf(ParseLines(lines[..i]).value)
    {
      var rules := ParseLines(lines[..i]).value;
      var parsed := ParseRule(lines[i]);
      ParseAllStep(lines, i, ParseRule);
      match parsed
      case None =>
        return None;
      case Some(rule) =>
        DataOfSnoc(rules, rule);
        data := data[rule.bag := rule.contents];
    }
    assert lines[..|lines|] == lines;
    return Some(data);
  }

  /* ---------------------------------------------------------------- */
  /* The contained-by index                                            */
  /* ---------------------------------------------------------------- */

  /** Bag to the bags whose rules hold it. */
  type Index = map<string, seq<string>>

  predicate Distinct(s: seq<string>) {
    forall i, j :: 0 <= i < j < |s| ==> s[i] != s[j]
  }

  /** `index` inverts `data`: `outer` is listed under `inner` exactly when outer's rule holds inner; every list is non-empty and without repeats. */
  ghost predicate Inverts(index: Index, data: Data) {
    && WellListed(index)
    && (forall outer, inner :: Listed(index, outer, inner) <==> outer in data && inner in data[outer])
  }

  /** `outer` is listed under `inner`. */
  predicate Listed(index: Index, outer: string, inner: string) {
    inner in index && outer in index[inner]
  }

  /** Every list is non-empty and without repeats. */
  predicate WellListed(index: Index) {
    forall inner :: inner in index ==> |index[inner]| > 0 && Distinct(index[inner])
  }

  /** `index.entry(inner).or_insert_with(Vec::new).push(outer)`. */
  function Push(index: Index, inner: string, outer: string): Index {
    if inner in index then index[inner := index[inner] + [outer]] else index[inner := [outer]]
  }

  /** A push lists `outer` under `inner` and changes nothing else; lists stay without repeats when `outer` was not yet listed. */
  lemma PushLists(index: Index, inner: string, outer: string)
    ensures forall o, k :: Listed(Push(index, inner, outer), o, k) <==> Listed(index, o, k) || (o == outer && k == inner)
    ensures WellListed(index) && !Listed(index, outer, inner) ==> WellListed(Push(index, inner, outer))
  {
    var p := Push(index, inner, outer);
    forall o, k
      ensures Listed(p, o, k) <==> Listed(index, o, k) || (o == outer && k == inner)
    {
      if k == inner && inner in index {
        assert o in index[inner] + [outer] <==> o in index[inner] || o == outer;
      }
    }
  }

  /**
   * `contained_by_index`: for each rule, each inner bag gets the outer bag
   * pushed onto its list. Both maps are visited in an unspecified order,
   * so the order of each list is left open.
   */
  method ContainedByIndex(data: Data) returns (index: Index)
    ensures Inverts(index, data)
  {
    index := map[];
    var outers := data.Keys;
    while outers != {}
      invariant outers <= data.Keys && WellListed(index)
      invariant forall o, inner :: Listed(index, o, inner) ==> o in data && o !in outers && inner in data[o]
      invariant forall o, inner :: o in data && o !in outers && inner in data[o] ==> Listed(index, o, inner)
      decreases |outers|
    {
      var outer :| outer in outers;
      var inners := data[outer].Keys;
      while inners != {}
        invariant inners <= data[outer].Keys && WellListed(index)
        invariant forall o, inner :: Listed(index, o, inner) ==>
          o in data && inner in data[o] && (o !in outers || (o == outer && inner !in inners))
        invariant forall o, inner :: o in data && o !in outers && inner in data[o] ==> Listed(index, o, inner)
        invariant forall inner :: inner in data[outer] && inner !in inners ==> Listed(index, outer, inner)
        decreases |inners|
      {
        var inner :| inner in inners;
        PushLists(index, inner, outer);
        index := Push(index, inner, outer);
        inners := inners - {inner};
      }
      outers := outers - {outer};
    }
  }

  /* ---------------------------------------------------------------- */
  /* Holding, directly or through other bags                           */
  /* ---------------------------------------------------------------- */

  /** `p` runs from a bag down through bags each held by the one before it. */
  ghost predicate Chain(data: Data, p: seq<string>) {
    |p| >= 2 && forall i :: 0 <= i < |p| - 1 ==> p[i] in data && p[i + 1] in data[p[i]]
  }

  /** `outer` holds `inner`, directly or through other bags. */
  ghost predicate Holds(data: Data, outer: string, inner: string) {
    exists p :: Chain(data, p) && p[0] == outer && p[|p| - 1] == inner
  }

  /** The bags that hold `bag`, directly or through other bags. */
  ghost function Containers(data: Data, bag: string): set<string> {
    set outer | outer in data.Keys && Holds(data, outer, bag)
  }

  /** Every bag with a rule, and every bag a rule holds, has a rank, and a held bag ranks below its holder. */
  ghost predicate Ranked(data: Data, rank: map<string, nat>) {
    forall outer :: outer in data ==> outer in rank && forall inner :: inner in data[outer] ==> inner in rank && rank[inner] < rank[outer]
  }

  /** A bag whose rule holds `bag` is one of its containers. */
  lemma Direct(data: Data, outer: string, bag: string)
    requires outer in data && bag in data[outer]
    ensures outer in Containers(data, bag)
  {
    assert Chain(data, [outer, bag]);
  }

  /** The bags holding a container of `bag` hold `bag` too. */
  lemma Transitive(data: Data, outer: string, middle: string, bag: string)
    requires outer in Containers(data, middle) && middle in Containers(data, bag)
    ensures outer in Containers(data, bag)
  {
    var p :| Chain(data, p) && p[0] == outer && p[|p| - 1] == middle;
    var q :| Chain(data, q) && q[0] == middle && q[|q| - 1] == bag;
    var pq := p + q[1..];
    forall i | 0 <= i < |pq| - 1
      ensures pq[i] in data && pq[i + 1] in data[pq[i]]
    {
      if i < |p| - 1 {
        assert pq[i] == p[i] && pq[i + 1] == p[i + 1];
      } else {
        assert pq[i] == q[i - |p| + 1] && pq[i + 1] == q[i - |p| + 2];
      }
    }
    assert Chain(data, pq);
  }

  /** The ranks drop strictly along a chain. */
  lemma {:induction false} ChainDrops(data: Data, rank: map<string, nat>, p: seq<string>)
    requires Ranked(data, rank) && Chain(data, p)
    ensures p[0] in rank && p[|p| - 1] in rank && rank[p[|p| - 1]] < rank[p[0]]
  {
    if |p| > 2 {
      var tail := p[1..];
      assert Chain(data, tail) by {
        forall i | 0 <= i < |tail| - 1
          ensures tail[i] in data && tail[i + 1] in data[tail[i]]
        {
          assert tail[i] == p[i + 1] && tail[i + 1] == p[i + 2];
        }
      }
      ChainDrops(data, rank, tail);
    }
  }

  /** With ranks, no bag holds itself. */
  lemma NotOwnContainer(data: Data, rank: map<string, nat>, bag: string)
    requires Ranked(data, rank)
    ensures bag !in Containers(data, bag)
  {
    if bag in Containers(data, bag) {
      var p :| Chain(data, p) && p[0] == bag && p[|p| - 1] == bag;
      ChainDrops(data, rank, p);
    }
  }

  /** The last step of a chain: a container of `bag` is a bag whose rule holds `bag`, or a container of one. */
  lemma LastStep(data: Data, outer: string, bag: string)
    requires outer in Containers(data, bag)
    ensures exists s :: s in data && bag in data[s] && (s == outer || outer in Containers(data, s))
  {
    var p :| Chain(data, p) && p[0] == outer && p[|p| - 1] == bag;
    var s := p[|p| - 2];
    if |p| > 2 {
      var front := p[..|p| - 1];
      assert Chain(data, front) by {
        forall i | 0 <= i < |front| - 1
          ensures front[i] in data && front[i + 1] in data[front[i]]
        {
          assert front[i] == p[i] && front[i + 1] == p[i + 1];
        }
      }
      assert outer in Containers(data, s);
    }
  }

  /** The bags listed in `vs` together with all their containers. */
  ghost function ContainersOf(data: Data, vs: seq<string>): set<string> {
    if vs == [] then {}
    else ContainersOf(data, vs[..|vs| - 1]) + {vs[|vs| - 1]} + Containers(data, vs[|vs| - 1])
  }

  /** One more listed bag adds itself and its containers. */
  lemma ContainersOfSnoc(data: Data, vs: seq<string>, i: nat)
    requires i < |vs|
    ensures ContainersOf(data, vs[..i + 1]) == ContainersOf(data, vs[..i]) + {vs[i]} + Containers(data, vs[i])
  {
    assert vs[..i + 1][..i] == vs[..i];
  }

  /** A bag is among the listed bags and their containers exactly when it is one of them or contains one. */
  lemma {:induction false} ContainersOfMember(data: Data, vs: seq<string>, c: string)
    ensures c in ContainersOf(data, vs) <==> exists k :: 0 <= k < |vs| && (c == vs[k] || c in Containers(data, vs[k]))
  {
    if vs != [] {
      var init := vs[..|vs| - 1];
      ContainersOfMember(data, init, c);
      if c in ContainersOf(data, init) {
        var k :| 0 <= k < |init| && (c == init[k] || c in Containers(data, init[k]));
        assert vs[k] == init[k];
      }
      if exists k :: 0 <= k < |vs| && (c == vs[k] || c in Containers(data, vs[k])) {
        var k :| 0 <= k < |vs| && (c == vs[k] || c in Containers(data, vs[k]));
        if k < |init| {
          assert init[k] == vs[k];
        }
      }
    }
  }

  /** The bags listed under `bag` in the index, with their containers, are exactly the containers of `bag`. */
  lemma IndexedContainers(index: Index, data: Data, bag: string)
    requires Inverts(index, data)
    ensures bag in index ==> ContainersOf(data, index[bag]) == Containers(data, bag)
    ensures bag !in index ==> Containers(data, bag) == {}
  {
    forall c | c in Containers(data, bag)
      ensures bag in index && c in ContainersOf(data, index[bag])
    {
      LastStep(data, c, bag);
      var s :| s in data && bag in data[s] && (s == c || c in Containers(data, s));
      assert Listed(index, s, bag);
      var k :| 0 <= k < |index[bag]| && index[bag][k] == s;
      ContainersOfMember(data, index[bag], c);
    }
    if bag in index {
      var vs := index[bag];
      forall c | c in ContainersOf(data, vs)
        ensures c in Containers(data, bag)
      {
        ContainersOfMember(data, vs, c);
        var k :| 0 <= k < |vs| && (c == vs[k] || c in Containers(data, vs[k]));
        assert Listed(index, vs[k], bag);
        Direct(data, vs[k], bag);
        if c != vs[k] {
          Transitive(data, c, vs[k], bag);
        }
      }
    }
  }

  /** A bag listed under `bag` has fewer containers than `bag`: it is one of them, and not one of its own. */
  lemma Fewer(index: Index, data: Data, rank: map<string, nat>, bag: string, s: string)
    requires Inverts(index, data) && Ranked(data, rank) && bag in index && s in index[bag]
    ensures |Containers(data, s)| < |Containers(data, bag)|
  {
    Direct(data, s, bag);
    NotOwnContainer(data, rank, s);
    forall c | c in Containers(data, s)
      ensures c in Containers(data, bag)
    {
      Transitive(data, c, s, bag);
    }
    UnseenShrinks(Containers(data, bag), Containers(data, s), s);
  }

  /* ---------------------------------------------------------------- */
  /* search_containers and main                                        */
  /* ---------------------------------------------------------------- */

  /**
   * `search_containers`: each bag listed under `searched` is inserted into
   * the set, then searched in turn. `containers` comes in and goes out as
   * the `&mut HashSet`; `data` and `rank` are ghost witnesses.
   */
  method SearchContainers(index: Index, searched: string, containers: set<string>, ghost data: Data, ghost rank: map<string, nat>)
    returns (r: set<string>)
    requires Inverts(index, data) && Ranked(data, rank)
    ensures r == containers + Containers(data, searched)
    decreases |Containers(data, searched)|
  {
    IndexedContainers(index, data, searched);
    r := containers;
    if searched in index {
      var v := index[searched];
      for i := 0 to |v|
        invariant r == containers + ContainersOf(data, v[..i])
      {
        ContainersOfSnoc(data, v, i);
        r := r + {v[i]};
        Fewer(index, data, rank, searched, v[i]);
        r := SearchContainers(index, v[i], r, data, rank);
      }
      assert v[..|v|] == v;
    }
  }

  /** `main`: collect the rules, build the index, and count the bags that hold a shiny gold bag. */
  method CountContainers(lines: seq<string>, ghost rank: map<string, nat>) returns (r: Option<nat>)
    requires ParseLines(lines).Some? ==> Ranked(DataOf(ParseLines(lines).value), rank)
    ensures r.None? <==> ParseLines(lines).None?
    ensures r.Some? ==> r.value == |Containers(DataOf(ParseLines(lines).value), "shiny gold")|
  {
    var data := BuildData(lines);
    if data.None? {
      return None;
    }
    var index := ContainedByIndex(data.value);
    var containers := SearchContainers(index, "shiny gold", {}, data.value, rank);
    return Some(|containers|);
  }
}
