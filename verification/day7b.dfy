/**
 * Day 7, part two: how many bags a shiny gold bag holds, counting the
 * bags inside the bags inside it. The rules are read as in part one;
 * `search_content` answers 0 for a bag without a rule and otherwise adds,
 * over the bag's contents, each count plus the count times what one such
 * inner bag holds.
 *
 * As in part one the recursion ends only when no bag holds itself through
 * other bags, given here as a rank that drops from every bag to each bag
 * it holds.
 */
module Day7b {
  import opened Common
  import Day7a
  import U64Bits

  /** `count + (content_amount * count)`: the inner bags themselves and what they hold. */
  function Term(count: nat, amount: nat): (t: nat)
    ensures t >= count
  {
    count + amount * count
  }

  /** The term is the count times one plus what one bag holds. */
  lemma TermProduct(count: nat, amount: nat)
    ensures Term(count, amount) == count * (1 + amount)
  {
    calc {
      count * (1 + amount);
      count * 1 + count * amount;
    }
  }

  /** What each inner bag of `bag`'s rule adds: its count, and the count times what it holds. */
  ghost function Terms(data: Day7a.Data, rank: map<string, nat>, bag: string): map<string, nat>
    requires Day7a.Ranked(data, rank) && bag in data
    decreases rank[bag], 0
  {
    map inner | inner in data[bag] :: Term(data[bag][inner], Content(data, rank, inner))
  }

  /** The number of bags `bag` holds, all the way down; 0 for a bag without a rule. */
  ghost function Content(data: Day7a.Data, rank: map<string, nat>, bag: string): nat
    requires Day7a.Ranked(data, rank)
    decreases if bag in data then rank[bag] else 0, 1
  {
    if bag !in data then 0 else SumValues(Terms(data, rank, bag))
  }

  /**
   * `search_content`: 0 without a rule; otherwise the terms of the bag's
   * contents, visited in the `HashMap`'s unspecified order, summed.
   * `rank` is a ghost witness that the rules hold no cycle.
   */
  method SearchContent(data: Day7a.Data, inspected: string, ghost rank: map<string, nat>) returns (r: nat)
    requires Day7a.Ranked(data, rank)
    ensures r == Content(data, rank, inspected)
    decreases if inspected in data then rank[inspected] else 0
  {
    if inspected !in data {
      return 0;
    }
    var v := data[inspected];
    ghost var terms := Terms(data, rank, inspected);
    ghost var left := terms;
    var rest := v.Keys;
    r := 0;
    while rest != {}
      invariant rest == left.Keys && rest <= v.Keys
      invariant forall k :: k in left ==> left[k] == terms[k]
      invariant r + SumValues(left) == SumValues(terms)
      decreases |rest|
    {
      var inner :| inner in rest;
      var count := v[inner];
      var amount := SearchContent(data, inner, rank);
      SumValuesRemove(left, inner);
      r := r + Term(count, amount);
      left := left - {inner};
      rest := rest - {inner};
    }
    assert left == map[];
  }

  /** `main` after reading: the rules collected as in part one, then the content of a shiny gold bag. */
  method CountContent(lines: seq<string>, ghost rank: map<string, nat>) returns (r: Option<nat>)
    requires Day7a.ParseLines(lines).Some? ==> Day7a.Ranked(Day7a.DataOf(Day7a.ParseLines(lines).value), rank)
    ensures r.None? <==> Day7a.ParseLines(lines).None?
    ensures r.Some? ==> r.value == Content(Day7a.DataOf(Day7a.ParseLines(lines).value), rank, "shiny gold")
  {
    var data := Day7a.BuildData(lines);
    if data.None? {
      return None;
    }
    var amount := SearchContent(data.value, "shiny gold", rank);
    return Some(amount);
  }

  /* ---------------------------------------------------------------- */
  /* Properties of the content                                         */
  /* ---------------------------------------------------------------- */

  /** "no other bags": a rule with no contents holds nothing. */
  lemma EmptyRule(data: Day7a.Data, rank: map<string, nat>, bag: string)
    requires Day7a.Ranked(data, rank) && bag in data && data[bag] == map[]
    ensures Content(data, rank, bag) == 0
  {
    assert Terms(data, rank, bag) == map[];
  }

  /** A rule holding `n` of one bag holds those and `n` times what one of them holds. */
  lemma SingleEntry(data: Day7a.Data, rank: map<string, nat>, bag: string, inner: string, n: nat)
    requires Day7a.Ranked(data, rank) && bag in data && data[bag] == map[inner := n]
    ensures Content(data, rank, bag) == Term(n, Content(data, rank, inner))
  {
    var terms := Terms(data, rank, bag);
    assert terms.Keys == {inner};
    SumSingle(terms, inner);
  }

  /** Each inner bag adds at least its count times one plus what it holds. */
  lemma HoldsEach(data: Day7a.Data, rank: map<string, nat>, bag: string, inner: string)
    requires Day7a.Ranked(data, rank) && bag in data && inner in data[bag]
    ensures Content(data, rank, bag) >= Term(data[bag][inner], Content(data, rank, inner))
  {
    var terms := Terms(data, rank, bag);
    SumValuesRemove(terms, inner);
    assert terms[inner] == Term(data[bag][inner], Content(data, rank, inner));
  }

  /** A bag holds at least the bags its rule lists directly. */
  lemma AtLeastDirect(data: Day7a.Data, rank: map<string, nat>, bag: string)
    requires Day7a.Ranked(data, rank) && bag in data
    ensures Content(data, rank, bag) >= SumValues(data[bag])
  {
    var terms := Terms(data, rank, bag);
    SumValuesLe(data[bag], terms);
  }

  /** The sum of a map with one key is its value. */
  lemma SumSingle(m: map<string, nat>, k: string)
    requires m.Keys == {k}
    ensures SumValues(m) == m[k]
  {
    SumValuesRemove(m, k);
    assert (m - {k}).Keys == {};
  }

  /** Sums over the same keys keep the order of the values. */
  lemma {:induction false} SumValuesLe(a: map<string, nat>, b: map<string, nat>)
    requires a.Keys == b.Keys && forall k :: k in a ==> a[k] <= b[k]
    ensures SumValues(a) <= SumValues(b)
    decreases |a|
  {
    if |a| > 0 {
      var k := Pick(a.Keys);
      SumValuesRemove(a, k);
      SumValuesRemove(b, k);
      CardRemove(a, k);
      SumValuesLe(a - {k}, b - {k});
    }
  }

  /** The content does not depend on which ranking witnesses that the rules have no cycle. */
  lemma {:induction false} RankIndependent(data: Day7a.Data, rank1: map<string, nat>, rank2: map<string, nat>, bag: string)
    requires Day7a.Ranked(data, rank1) && Day7a.Ranked(data, rank2)
    ensures Content(data, rank1, bag) == Content(data, rank2, bag)
    decreases if bag in data then rank1[bag] else 0
  {
    if bag in data {
      forall inner | inner in data[bag]
        ensures Content(data, rank1, inner) == Content(data, rank2, inner)
      {
        RankIndependent(data, rank1, rank2, inner);
      }
      assert Terms(data, rank1, bag) == Terms(data, rank2, bag);
    }
  }

  /**
   * A chain of bags each holding two of the next, the last holding none:
   * the bag `i` places from the end of a chain of `n` holds 2^(n-i) - 2
   * bags. The second example of the puzzle is the chain shiny gold, dark
   * red, dark orange, dark yellow, dark green, dark blue, dark violet:
   * seven bags, so a shiny gold bag holds 2^7 - 2 = 126 bags.
   */
  lemma {:induction false} DoublingChain(data: Day7a.Data, rank: map<string, nat>, bags: seq<string>, i: nat)
    requires Day7a.Ranked(data, rank) && i < |bags|
    requires forall k :: i <= k < |bags| - 1 ==> bags[k] in data && data[bags[k]] == map[bags[k + 1] := 2]
    requires bags[|bags| - 1] in data && data[bags[|bags| - 1]] == map[]
    ensures Content(data, rank, bags[i]) + 2 == U64Bits.Pow2(|bags| - i)
    decreases |bags| - i
  {
    if i == |bags| - 1 {
      EmptyRule(data, rank, bags[i]);
    } else {
      DoublingChain(data, rank, bags, i + 1);
      SingleEntry(data, rank, bags[i], bags[i + 1], 2);
    }
  }
}
