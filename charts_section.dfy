/** The four chart series of `src/components/ChartsSection.tsx`, computed from
    the filtered records: attack trends by year, the attack-type
    distribution, the ten countries with the most attacks, and the affected
    industries. Each is a reduction into groups, then (except for attack
    types) a sort with a numeric comparator.

    The groups are `Tally` (key, count) and `LossTally` (key, count, loss)
    values; the source names the same fields `year`/`count`/`loss`,
    `name`/`value`, `country`/`attacks`/`loss` and `industry`/`count`. */
module Charts {
  import opened Wrappers
  import opened Numbers
  import opened Totals
  import opened CsvParser
  import opened Grouping
  import opened Sorting

  /** The reduction of the attack-type and industry charts: for each record
      the groups are searched for its key; the group found has its count
      increased, otherwise a group with count 1 is appended. */
  method CountGroups<T, K(==)>(xs: seq<T>, key: T -> K, comparable: K -> bool) returns (acc: seq<Tally<K>>)
    ensures acc == Tallied(xs, key, comparable)
  {
    acc := [];
    for i := 0 to |xs|
      invariant acc == Tallied(xs[..i], key, comparable)
    {
      assert xs[..i + 1][..i] == xs[..i];
      var k := key(xs[i]);
      var j := Find(Keys(acc), k, comparable);
      if j < |acc| {
        acc := acc[j := Tally(acc[j].key, acc[j].count + 1)];
      } else {
        acc := acc + [Tally(k, 1)];
      }
    }
    assert xs[..|xs|] == xs;
  }

  /** The reduction of the year and country charts: as `CountGroups`, and
      the record's loss is added to the group found, or starts the new
      group's loss. */
  method LossGroups<T, K(==)>(xs: seq<T>, key: T -> K, loss: T -> Option<real>, comparable: K -> bool)
    returns (acc: seq<LossTally<K>>)
    ensures acc == LossTallied(xs, key, loss, comparable)
  {
    acc := [];
    for i := 0 to |xs|
      invariant acc == LossTallied(xs[..i], key, loss, comparable)
    {
      assert xs[..i + 1][..i] == xs[..i];
      var k := key(xs[i]);
      var j := Find(LossKeys(acc), k, comparable);
      if j < |acc| {
        acc := acc[j := LossTally(acc[j].key, acc[j].count + 1, AddReal(acc[j].loss, loss(xs[i])))];
      } else {
        acc := acc + [LossTally(k, 1, loss(xs[i]))];
      }
    }
    assert xs[..|xs|] == xs;
  }

  // The comparators, as `after(a, b)`: true when `compareFn(a, b) > 0`.

  /** `(a, b) => a.year - b.year`: a difference involving `NaN` is `NaN`,
      which is not positive. */
  predicate YearAfter(a: LossTally<Option<int>>, b: LossTally<Option<int>>)
  {
    a.key.Some? && b.key.Some? && a.key.value - b.key.value > 0
  }

  /** `(a, b) => b.attacks - a.attacks`. */
  predicate FewerAttacks(a: LossTally<string>, b: LossTally<string>)
  {
    b.count - a.count > 0
  }

  /** `(a, b) => b.count - a.count`. */
  predicate FewerCount(a: Tally<string>, b: Tally<string>)
  {
    b.count - a.count > 0
  }

  lemma YearAfterOrder()
    ensures Irreflexive(YearAfter) && Transitive(YearAfter)
  {
  }

  /** Once a year is `NaN` the year comparator is no strict weak order:
      2021 sorts after 2020, yet a `NaN` year sorts neither before 2021 nor
      after 2020, so engines may order such a list differently. */
  lemma YearAfterNotWeak()
    ensures !Splits(YearAfter)
  {
    var a, b, c := LossTally(Some(2021), 1, None), LossTally(None, 1, None), LossTally(Some(2020), 1, None);
    assert YearAfter(a, c) && !YearAfter(a, b) && !YearAfter(b, c);
  }

  lemma FewerAttacksOrder()
    ensures StrictWeakOrder(FewerAttacks)
  {
  }

  lemma FewerCountOrder()
    ensures StrictWeakOrder(FewerCount)
  {
  }

  /** Loss groups rearranged: every group still describes the records. */
  lemma PermutedLossGroups<K>(a: seq<LossTally<K>>, b: seq<LossTally<K>>, data: seq<CyberThreat>,
                              key: CyberThreat -> K, comparable: K -> bool)
    requires multiset(a) == multiset(b)
    requires forall i :: 0 <= i < |a| ==> LossGroupOf(a[i], data, key, LossOf, comparable)
    requires forall n :: 0 <= n < |data| && comparable(key(data[n])) ==>
               exists i :: 0 <= i < |a| && a[i].key == key(data[n])
    ensures forall i :: 0 <= i < |b| ==> LossGroupOf(b[i], data, key, LossOf, comparable)
    ensures forall n :: 0 <= n < |data| && comparable(key(data[n])) ==>
              exists i :: 0 <= i < |b| && b[i].key == key(data[n])
  {
    forall i | 0 <= i < |b|
      ensures LossGroupOf(b[i], data, key, LossOf, comparable)
    {
      assert b[i] in multiset(a);
      var p :| 0 <= p < |a| && a[p] == b[i];
    }
    forall n | 0 <= n < |data| && comparable(key(data[n]))
      ensures exists i :: 0 <= i < |b| && b[i].key == key(data[n])
    {
      var p :| 0 <= p < |a| && a[p].key == key(data[n]);
      assert a[p] in multiset(b);
      var i :| 0 <= i < |b| && b[i] == a[p];
    }
  }

  /** Count groups rearranged: every group still counts its records. */
  lemma PermutedGroups<K>(a: seq<Tally<K>>, b: seq<Tally<K>>, data: seq<CyberThreat>,
                          key: CyberThreat -> K, comparable: K -> bool)
    requires multiset(a) == multiset(b)
    requires forall i :: 0 <= i < |a| ==> GroupOf(a[i], data, key, comparable)
    requires forall n :: 0 <= n < |data| && comparable(key(data[n])) ==>
               exists i :: 0 <= i < |a| && a[i].key == key(data[n])
    ensures forall i :: 0 <= i < |b| ==> GroupOf(b[i], data, key, comparable)
    ensures forall n :: 0 <= n < |data| && comparable(key(data[n])) ==>
              exists i :: 0 <= i < |b| && b[i].key == key(data[n])
  {
    forall i | 0 <= i < |b|
      ensures GroupOf(b[i], data, key, comparable)
    {
      assert b[i] in multiset(a);
      var p :| 0 <= p < |a| && a[p] == b[i];
    }
    forall n | 0 <= n < |data| && comparable(key(data[n]))
      ensures exists i :: 0 <= i < |b| && b[i].key == key(data[n])
    {
      var p :| 0 <= p < |a| && a[p].key == key(data[n]);
      assert a[p] in multiset(b);
      var i :| 0 <= i < |b| && b[i] == a[p];
    }
  }

  function LossKeyOf<K>(g: LossTally<K>): K
  {
    g.key
  }

  function KeyOf<K>(g: Tally<K>): K
  {
    g.key
  }

  /** Sorting the loss groups of a reduction, by any comparator, keeps what
      the reduction established: faithful groups, distinct keys, a group for
      every record, and counts adding up to the number of records. */
  lemma SortedLossGroups<K>(data: seq<CyberThreat>, key: CyberThreat -> K, comparable: K -> bool,
                            after: (LossTally<K>, LossTally<K>) -> bool)
    ensures var r := SortBy(LossTallied(data, key, LossOf, comparable), after);
            (forall i :: 0 <= i < |r| ==> LossGroupOf(r[i], data, key, LossOf, comparable)) &&
            (forall i, j :: 0 <= i < j < |r| ==> !Same(r[i].key, r[j].key, comparable)) &&
            (forall n :: 0 <= n < |data| && comparable(key(data[n])) ==>
               exists i :: 0 <= i < |r| && r[i].key == key(data[n])) &&
            Total(r, LossCountOf) == |data|
  {
    var acc := LossTallied(data, key, LossOf, comparable);
    var r := SortBy(acc, after);
    LossTalliedGroups(data, key, LossOf, comparable);
    SortPermutation(acc, after);
    SortTotal(acc, after, LossCountOf);
    PermutedLossGroups(acc, r, data, key, comparable);
    assert forall i, j :: 0 <= i < j < |acc| ==> !Same(LossKeyOf(acc[i]), LossKeyOf(acc[j]), comparable);
    DistinctKeysPermuted(acc, r, LossKeyOf, comparable);
    assert forall i, j :: 0 <= i < j < |r| ==> !Same(LossKeyOf(r[i]), LossKeyOf(r[j]), comparable);
  }

  /** As `SortedLossGroups`, for count groups; the sorted groups are a
      permutation of the reduction's. */
  lemma SortedGroups<K>(data: seq<CyberThreat>, key: CyberThreat -> K, comparable: K -> bool,
                        after: (Tally<K>, Tally<K>) -> bool)
    ensures var acc := Tallied(data, key, comparable);
            var r := SortBy(acc, after);
            multiset(r) == multiset(acc) &&
            (forall i :: 0 <= i < |r| ==> GroupOf(r[i], data, key, comparable)) &&
            (forall i, j :: 0 <= i < j < |r| ==> !Same(r[i].key, r[j].key, comparable)) &&
            (forall n :: 0 <= n < |data| && comparable(key(data[n])) ==>
               exists i :: 0 <= i < |r| && r[i].key == key(data[n])) &&
            Total(r, CountOf) == |data|
  {
    var acc := Tallied(data, key, comparable);
    var r := SortBy(acc, after);
    TalliedGroups(data, key, comparable);
    SortPermutation(acc, after);
    SortTotal(acc, after, CountOf);
    PermutedGroups(acc, r, data, key, comparable);
    assert forall i, j :: 0 <= i < j < |acc| ==> !Same(KeyOf(acc[i]), KeyOf(acc[j]), comparable);
    DistinctKeysPermuted(acc, r, KeyOf, comparable);
    assert forall i, j :: 0 <= i < j < |r| ==> !Same(KeyOf(r[i]), KeyOf(r[j]), comparable);
  }

  /** Year groups in comparator order with distinct keys have strictly
      ascending numeric years. */
  lemma YearsAscending(yearly: seq<LossTally<Option<int>>>)
    requires SortedBy(yearly, YearAfter)
    requires forall i, j :: 0 <= i < j < |yearly| ==> !Same(yearly[i].key, yearly[j].key, IsNumber)
    ensures forall i, j :: 0 <= i < j < |yearly| && yearly[i].key.Some? && yearly[j].key.Some? ==>
              yearly[i].key.value < yearly[j].key.value
  {
    forall i, j | 0 <= i < j < |yearly| && yearly[i].key.Some? && yearly[j].key.Some?
      ensures yearly[i].key.value < yearly[j].key.value
    {
      assert !YearAfter(yearly[i], yearly[j]);
      assert !Same(yearly[i].key, yearly[j].key, IsNumber);
    }
  }

  /** `yearlyData`: one group per year with its number of attacks and total
      loss, in ascending year order; every record whose year is `NaN` forms a
      group of its own, since `NaN === NaN` is false. */
  method YearlyData(data: seq<CyberThreat>) returns (yearly: seq<LossTally<Option<int>>>)
    ensures yearly == SortBy(LossTallied(data, YearOf, LossOf, IsNumber), YearAfter)
    ensures forall i :: 0 <= i < |yearly| ==> LossGroupOf(yearly[i], data, YearOf, LossOf, IsNumber)
    ensures forall n :: 0 <= n < |data| && data[n].year.Some? ==>
              exists i :: 0 <= i < |yearly| && yearly[i].key == data[n].year
    ensures (forall n :: 0 <= n < |data| ==> data[n].year.Some?) ==>
              forall i, j :: 0 <= i < j < |yearly| ==>
                yearly[i].key.Some? && yearly[j].key.Some? && yearly[i].key.value < yearly[j].key.value
    ensures Total(yearly, LossCountOf) == |data|
    ensures data == [] ==> yearly == []
  {
    var acc := LossGroups(data, YearOf, LossOf, IsNumber);
    yearly := SortBy(acc, YearAfter);
    SortedLossGroups(data, YearOf, IsNumber, YearAfter);
    YearAfterOrder();
    SortSorted(acc, YearAfter);
    YearsAscending(yearly);
    forall n | 0 <= n < |data| && data[n].year.Some?
      ensures exists i :: 0 <= i < |yearly| && yearly[i].key == data[n].year
    {
      assert IsNumber(YearOf(data[n]));
    }
    if forall n :: 0 <= n < |data| ==> data[n].year.Some? {
      SortPermutation(acc, YearAfter);
      forall i | 0 <= i < |yearly|
        ensures yearly[i].key.Some?
      {
        assert yearly[i] in multiset(acc);
        var n := YearOfSomeRecord(data, yearly[i]);
      }
    }
  }

  /** Every year group's key is the year of some record. */
  lemma YearOfSomeRecord(data: seq<CyberThreat>, g: LossTally<Option<int>>) returns (n: nat)
    requires g in LossTallied(data, YearOf, LossOf, IsNumber)
    ensures n < |data| && data[n].year == g.key
  {
    var acc := LossTallied(data, YearOf, LossOf, IsNumber);
    var ys := MapKeys(data, YearOf);
    LossTalliedCounts(data, YearOf, LossOf, IsNumber);
    TalliedKeys(data, YearOf, IsNumber);
    FirstsMembers(ys, IsNumber);
    var i :| 0 <= i < |acc| && acc[i] == g;
    assert Keys(Counts(acc))[i] == g.key;
    assert g.key in ys;
    n :| 0 <= n < |ys| && ys[n] == g.key;
  }

  /** The attack count shown is the total of the yearly chart's counts. */
  lemma TotalAttacksByYear(d: seq<CyberThreat>)
    ensures |d| == Total(SortBy(LossTallied(d, YearOf, LossOf, IsNumber), YearAfter), LossCountOf)
  {
    SortedLossGroups(d, YearOf, IsNumber, YearAfter);
  }

  /** `attackTypeData`: one slice per attack type with its number of
      attacks, in the order the types first occur; no sort is applied. */
  method AttackTypeData(data: seq<CyberThreat>) returns (slices: seq<Tally<string>>)
    ensures slices == Tallied(data, AttackTypeOf, AnyKey)
    ensures Keys(slices) == Firsts(MapKeys(data, AttackTypeOf), AnyKey)
    ensures forall i :: 0 <= i < |slices| ==> slices[i].count == Occurrences(data, AttackTypeOf, slices[i].key)
    ensures forall i, j :: 0 <= i < j < |slices| ==> slices[i].key != slices[j].key
    ensures forall n :: 0 <= n < |data| ==>
              exists i :: 0 <= i < |slices| && slices[i].key == data[n].attackType
    ensures Total(slices, CountOf) == |data|
  {
    slices := CountGroups(data, AttackTypeOf, AnyKey);
    TalliedGroups(data, AttackTypeOf, AnyKey);
    TalliedKeys(data, AttackTypeOf, AnyKey);
    forall i | 0 <= i < |slices|
      ensures slices[i].count == Occurrences(data, AttackTypeOf, slices[i].key)
    {
      assert GroupOf(slices[i], data, AttackTypeOf, AnyKey);
    }
    forall i, j | 0 <= i < j < |slices|
      ensures slices[i].key != slices[j].key
    {
      assert !Same(slices[i].key, slices[j].key, AnyKey);
    }
    forall n | 0 <= n < |data|
      ensures exists i :: 0 <= i < |slices| && slices[i].key == data[n].attackType
    {
      assert AttackTypeOf(data[n]) == data[n].attackType;
    }
  }

  /** The largest number of groups the country chart shows. */
  const TopCountries := 10

  /** Every country group, most attacks first. */
  function RankedCountries(data: seq<CyberThreat>): (ranked: seq<LossTally<string>>)
    ensures |ranked| == |LossTallied(data, CountryOf, LossOf, AnyKey)|
  {
    SortBy(LossTallied(data, CountryOf, LossOf, AnyKey), FewerAttacks)
  }

  /** The ranking keeps every group, each group still describes its records,
      the keys stay distinct, the counts do not increase, and groups with the
      same count keep their order of first occurrence. */
  lemma RankedCountriesSpec(data: seq<CyberThreat>)
    ensures var ranked := RankedCountries(data);
            (forall i :: 0 <= i < |ranked| ==> LossGroupOf(ranked[i], data, CountryOf, LossOf, AnyKey)) &&
            (forall n :: 0 <= n < |data| ==> exists i :: 0 <= i < |ranked| && ranked[i].key == data[n].country) &&
            (forall i, j :: 0 <= i < j < |ranked| ==> ranked[i].key != ranked[j].key) &&
            (forall i, j :: 0 <= i < j < |ranked| ==> ranked[i].count >= ranked[j].count) &&
            (forall e :: TiesWith(ranked, e, FewerAttacks) ==
                           TiesWith(LossTallied(data, CountryOf, LossOf, AnyKey), e, FewerAttacks))
  {
    var acc := LossTallied(data, CountryOf, LossOf, AnyKey);
    var ranked := RankedCountries(data);
    SortedLossGroups(data, CountryOf, AnyKey, FewerAttacks);
    forall i, j | 0 <= i < j < |ranked|
      ensures ranked[i].key != ranked[j].key
    {
      assert !Same(ranked[i].key, ranked[j].key, AnyKey);
    }
    forall n | 0 <= n < |data|
      ensures exists i :: 0 <= i < |ranked| && ranked[i].key == data[n].country
    {
      assert CountryOf(data[n]) == data[n].country;
    }
    RankedByAttacks(acc);
  }

  /** Sorting by `FewerAttacks` gives non-increasing counts and keeps ties in
      order. */
  lemma RankedByAttacks(acc: seq<LossTally<string>>)
    ensures var ranked := SortBy(acc, FewerAttacks);
            (forall i, j :: 0 <= i < j < |ranked| ==> ranked[i].count >= ranked[j].count) &&
            (forall e :: TiesWith(ranked, e, FewerAttacks) == TiesWith(acc, e, FewerAttacks))
  {
    var ranked := SortBy(acc, FewerAttacks);
    FewerAttacksOrder();
    SortSorted(acc, FewerAttacks);
    forall i, j | 0 <= i < j < |ranked|
      ensures ranked[i].count >= ranked[j].count
    {
      assert !FewerAttacks(ranked[i], ranked[j]);
    }
    forall e
      ensures TiesWith(ranked, e, FewerAttacks) == TiesWith(acc, e, FewerAttacks)
    {
      SortStable(acc, e, FewerAttacks);
    }
  }

  /** `countryData`: the countries by number of attacks, most first, ties in
      order of first occurrence, cut to the first ten. A country left out
      has no more attacks than any country shown. */
  method CountryData(data: seq<CyberThreat>) returns (top: seq<LossTally<string>>)
    ensures top == RankedCountries(data)[..Min(TopCountries, |RankedCountries(data)|)]
    ensures |top| == Min(TopCountries, |LossTallied(data, CountryOf, LossOf, AnyKey)|)
    ensures forall i :: 0 <= i < |top| ==> LossGroupOf(top[i], data, CountryOf, LossOf, AnyKey)
    ensures forall i, j :: 0 <= i < j < |top| ==> top[i].key != top[j].key
    ensures forall i, j :: 0 <= i < j < |top| ==> top[i].count >= top[j].count
    ensures forall k :: |top| <= k < |RankedCountries(data)| ==>
              forall i :: 0 <= i < |top| ==> top[i].count >= RankedCountries(data)[k].count
    ensures data == [] ==> top == []
  {
    var acc := LossGroups(data, CountryOf, LossOf, AnyKey);
    var ranked := SortBy(acc, FewerAttacks);
    top := ranked[..Min(TopCountries, |ranked|)];
    RankedCountriesSpec(data);
  }

  /** Sorting by `FewerCount` gives non-increasing counts and keeps ties in
      order. */
  lemma RankedByCount(acc: seq<Tally<string>>)
    ensures var ranked := SortBy(acc, FewerCount);
            (forall i, j :: 0 <= i < j < |ranked| ==> ranked[i].count >= ranked[j].count) &&
            (forall e :: TiesWith(ranked, e, FewerCount) == TiesWith(acc, e, FewerCount))
  {
    var ranked := SortBy(acc, FewerCount);
    FewerCountOrder();
    SortSorted(acc, FewerCount);
    forall i, j | 0 <= i < j < |ranked|
      ensures ranked[i].count >= ranked[j].count
    {
      assert !FewerCount(ranked[i], ranked[j]);
    }
    forall e
      ensures TiesWith(ranked, e, FewerCount) == TiesWith(acc, e, FewerCount)
    {
      SortStable(acc, e, FewerCount);
    }
  }

  /** `industryData`: every industry with its number of attacks, most first,
      ties in order of first occurrence. */
  method IndustryData(data: seq<CyberThreat>) returns (ranked: seq<Tally<string>>)
    ensures ranked == SortBy(Tallied(data, IndustryOf, AnyKey), FewerCount)
    ensures multiset(ranked) == multiset(Tallied(data, IndustryOf, AnyKey))
    ensures forall i :: 0 <= i < |ranked| ==> ranked[i].count == Occurrences(data, IndustryOf, ranked[i].key)
    ensures forall i, j :: 0 <= i < j < |ranked| ==> ranked[i].key != ranked[j].key
    ensures forall i, j :: 0 <= i < j < |ranked| ==> ranked[i].count >= ranked[j].count
    ensures forall n :: 0 <= n < |data| ==>
              exists i :: 0 <= i < |ranked| && ranked[i].key == data[n].targetIndustry
    ensures Total(ranked, CountOf) == |data|
    ensures forall e :: TiesWith(ranked, e, FewerCount) == TiesWith(Tallied(data, IndustryOf, AnyKey), e, FewerCount)
  {
    var acc := CountGroups(data, IndustryOf, AnyKey);
    ranked := SortBy(acc, FewerCount);
    SortedGroups(data, IndustryOf, AnyKey, FewerCount);
    RankedByCount(acc);
    forall i | 0 <= i < |ranked|
      ensures ranked[i].count == Occurrences(data, IndustryOf, ranked[i].key)
    {
      assert GroupOf(ranked[i], data, IndustryOf, AnyKey);
    }
    forall i, j | 0 <= i < j < |ranked|
      ensures ranked[i].key != ranked[j].key
    {
      assert !Same(ranked[i].key, ranked[j].key, AnyKey);
    }
    forall n | 0 <= n < |data|
      ensures exists i :: 0 <= i < |ranked| && ranked[i].key == data[n].targetIndustry
    {
      assert IndustryOf(data[n]) == data[n].targetIndustry;
    }
  }
}
