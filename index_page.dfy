/** The dashboard page of `src/pages/Index.tsx`: the loaded records and the
    filtered records it shows, the filter handler, the headline figures
    computed from the filtered records, and the sorted option lists offered
    by the filter panel. Fetching the file, the loading flag, the toasts and
    the rendering are not part of this model. */
module IndexPage {
  import opened Wrappers
  import opened Text
  import opened Numbers
  import opened CsvParser
  import opened Grouping
  import opened Sorting

  /** The criteria passed to `handleFilterChange`. `None` is an absent
      property; on the year it also stands for `NaN`, which is falsy as an
      absent property is. */
  datatype Filters = Filters(
    country: Option<string>,
    year: Option<int>,
    attackType: Option<string>,
    industry: Option<string>)

  /** A text criterion is applied when it is truthy: present and non-empty. */
  predicate TruthyText(o: Option<string>)
  {
    o.Some? && o.value != ""
  }

  /** A year criterion is applied when it is truthy: a number other than 0. */
  predicate TruthyYear(o: Option<int>)
  {
    o.Some? && o.value != 0
  }

  /** The record meets every criterion that is applied. A record whose year
      is `NaN` never meets a year criterion. */
  predicate Matches(f: Filters, t: CyberThreat)
  {
    (TruthyText(f.country) ==> t.country == f.country.value) &&
    (TruthyYear(f.year) ==> t.year == f.year) &&
    (TruthyText(f.attackType) ==> t.attackType == f.attackType.value) &&
    (TruthyText(f.industry) ==> t.targetIndustry == f.industry.value)
  }

  /** No criterion is applied. */
  predicate NoCriteria(f: Filters)
  {
    !TruthyText(f.country) && !TruthyYear(f.year) &&
    !TruthyText(f.attackType) && !TruthyText(f.industry)
  }

  /** `s.filter(p)`. */
  function Keep<T>(s: seq<T>, p: T -> bool): (r: seq<T>)
    ensures |r| <= |s|
    decreases |s|
  {
    if s == [] then []
    else Keep(s[..|s| - 1], p) + (if p(s[|s| - 1]) then [s[|s| - 1]] else [])
  }

  /** The records meeting all applied criteria, in their original order: the
      reference the handler is proved against. */
  function Select(data: seq<CyberThreat>, f: Filters): seq<CyberThreat>
  {
    Keep(data, t => Matches(f, t))
  }

  /** `a` is `b` with some elements left out, the rest in order. */
  predicate IsSubsequence<T(==)>(a: seq<T>, b: seq<T>)
    decreases |b|
  {
    a == [] ||
    (b != [] &&
     ((a[|a| - 1] == b[|b| - 1] && IsSubsequence(a[..|a| - 1], b[..|b| - 1])) ||
      IsSubsequence(a, b[..|b| - 1])))
  }

  /** The page state the handler reads and writes. */
  class Dashboard {
    var data: seq<CyberThreat>
    var filteredData: seq<CyberThreat>

    /** Both lists start empty. */
    constructor()
      ensures data == [] && filteredData == []
    {
      data := [];
      filteredData := [];
    }

    /** After a successful load both lists hold the parsed records. */
    method Load(parsed: seq<CyberThreat>)
      modifies this
      ensures data == parsed && filteredData == parsed
    {
      data := parsed;
      filteredData := parsed;
    }

    /** `handleFilterChange`: starting from all records, each truthy criterion
        narrows the list in turn; the loaded records are not changed. */
    method HandleFilterChange(f: Filters)
      modifies this
      ensures data == old(data)
      ensures filteredData == Select(data, f)
    {
      var filtered := data;
      ghost var g := Filters(None, None, None, None);
      SelectNone(data, g);
      if TruthyText(f.country) {
        var c := f.country.value;
        var p := (d: CyberThreat) => d.country == c;
        filtered := Keep(filtered, p);
        ghost var h := g.(country := f.country);
        KeepSelect(data, g, h, p);
        g := h;
      }
      if TruthyYear(f.year) {
        var y := f.year;
        var p := (d: CyberThreat) => d.year == y;
        filtered := Keep(filtered, p);
        ghost var h := g.(year := f.year);
        KeepSelect(data, g, h, p);
        g := h;
      }
      if TruthyText(f.attackType) {
        var a := f.attackType.value;
        var p := (d: CyberThreat) => d.attackType == a;
        filtered := Keep(filtered, p);
        ghost var h := g.(attackType := f.attackType);
        KeepSelect(data, g, h, p);
        g := h;
      }
      if TruthyText(f.industry) {
        var i := f.industry.value;
        var p := (d: CyberThreat) => d.targetIndustry == i;
        filtered := Keep(filtered, p);
        ghost var h := g.(industry := f.industry);
        KeepSelect(data, g, h, p);
        g := h;
      }
      SelectSame(data, g, f);
      filteredData := filtered;
    }
  }

  lemma {:induction false} SelectNone(s: seq<CyberThreat>, f: Filters)
    requires NoCriteria(f)
    ensures Select(s, f) == s
    decreases |s|
  {
    if s != [] {
      SelectNone(s[..|s| - 1], f);
    }
  }

  /** Narrowing by one more criterion `p` is selecting by the criteria with
      `p` added. */
  lemma {:induction false} KeepSelect(s: seq<CyberThreat>, g: Filters, h: Filters, p: CyberThreat -> bool)
    requires forall t :: Matches(h, t) == (Matches(g, t) && p(t))
    ensures Keep(Select(s, g), p) == Select(s, h)
    decreases |s|
  {
    if s != [] {
      var init := s[..|s| - 1];
      var x := s[|s| - 1];
      KeepSelect(init, g, h, p);
      var front := Select(init, g);
      if Matches(g, x) {
        var t := front + [x];
        assert Select(s, g) == t;
        assert t[..|t| - 1] == front && t[|t| - 1] == x;
        assert Keep(t, p) == Keep(front, p) + (if p(x) then [x] else []);
      } else {
        assert Select(s, g) == front;
      }
      assert Select(s, h) == Select(init, h) + (if Matches(h, x) then [x] else []);
    }
  }

  /** Criteria that select the same records give the same list. */
  lemma {:induction false} SelectSame(s: seq<CyberThreat>, g: Filters, f: Filters)
    requires forall t :: Matches(g, t) == Matches(f, t)
    ensures Select(s, g) == Select(s, f)
    decreases |s|
  {
    if s != [] {
      SelectSame(s[..|s| - 1], g, f);
    }
  }

  /** The filtered list keeps the order of the records. */
  lemma {:induction false} KeepSubsequence<T>(s: seq<T>, p: T -> bool)
    ensures IsSubsequence(Keep(s, p), s)
    decreases |s|
  {
    if s != [] {
      var init := s[..|s| - 1];
      var x := s[|s| - 1];
      KeepSubsequence(init, p);
      var k := Keep(init, p);
      if p(x) {
        var r := k + [x];
        assert Keep(s, p) == r;
        assert r[..|r| - 1] == k;
        assert IsSubsequence(r, s);
      } else {
        assert Keep(s, p) == k;
        assert IsSubsequence(k, s);
      }
    }
  }

  lemma SelectSubsequence(s: seq<CyberThreat>, f: Filters)
    ensures IsSubsequence(Select(s, f), s)
  {
    KeepSubsequence(s, t => Matches(f, t));
  }

  /** Each record occurs in the filtered list as often as in the input when
      it meets the criteria, and not at all otherwise. */
  lemma {:induction false} SelectMultiplicity(s: seq<CyberThreat>, f: Filters, t: CyberThreat)
    ensures multiset(Select(s, f))[t] == if Matches(f, t) then multiset(s)[t] else 0
    decreases |s|
  {
    if s != [] {
      var init := s[..|s| - 1];
      SelectMultiplicity(init, f, t);
      assert s == init + [s[|s| - 1]];
    }
  }

  /** Soundness and completeness: a record is in the filtered list exactly
      when it is a loaded record that meets every applied criterion. */
  lemma SelectMembers(s: seq<CyberThreat>, f: Filters)
    ensures forall t :: t in Select(s, f) <==> t in s && Matches(f, t)
  {
    forall t
      ensures t in Select(s, f) <==> t in s && Matches(f, t)
    {
      SelectMultiplicity(s, f, t);
    }
  }

  /** Applying the same criteria again changes nothing. */
  lemma {:induction false} SelectIdempotent(s: seq<CyberThreat>, f: Filters)
    ensures Select(Select(s, f), f) == Select(s, f)
    decreases |s|
  {
    if s != [] {
      var init := s[..|s| - 1];
      var x := s[|s| - 1];
      SelectIdempotent(init, f);
      var front := Select(init, f);
      if Matches(f, x) {
        var t := front + [x];
        assert Select(s, f) == t;
        assert t[..|t| - 1] == front && t[|t| - 1] == x;
        assert Select(t, f) == Select(front, f) + [x];
      } else {
        assert Select(s, f) == front;
      }
    }
  }

  // The headline figures, computed from the filtered records.

  /** `filteredData.reduce((sum, d) => sum + d.financialLoss, 0)`. */
  function TotalLoss(d: seq<CyberThreat>): Option<real>
  {
    SumReal(MapKeys(d, LossOf))
  }

  /** `filteredData.reduce((sum, d) => sum + d.affectedUsers, 0)`. */
  function TotalAffected(d: seq<CyberThreat>): Option<int>
  {
    SumInt(MapKeys(d, AffectedOf))
  }

  /** The mean resolution time, or 0 when there are no records. */
  function AvgResolutionTime(d: seq<CyberThreat>): (r: Option<real>)
    ensures |d| == 0 ==> r == Some(0.0)
    ensures |d| > 0 ==> (r.Some? <==> SumInt(MapKeys(d, ResolutionOf)).Some?)
    ensures |d| > 0 && r.Some? ==> r.value * |d| as real == SumInt(MapKeys(d, ResolutionOf)).value as real
  {
    if |d| > 0 then
      match SumInt(MapKeys(d, ResolutionOf))
      case None => None
      case Some(total) => Some(total as real / |d| as real)
    else Some(0.0)
  }

  /** The total loss of two lists of records is the sum of their totals. */
  lemma TotalLossAppend(a: seq<CyberThreat>, b: seq<CyberThreat>)
    ensures TotalLoss(a + b) == AddReal(TotalLoss(a), TotalLoss(b))
  {
    assert MapKeys(a + b, LossOf) == MapKeys(a, LossOf) + MapKeys(b, LossOf);
    SumRealAppend(MapKeys(a, LossOf), MapKeys(b, LossOf));
  }

  lemma TotalAffectedAppend(a: seq<CyberThreat>, b: seq<CyberThreat>)
    ensures TotalAffected(a + b) == AddInt(TotalAffected(a), TotalAffected(b))
  {
    assert MapKeys(a + b, AffectedOf) == MapKeys(a, AffectedOf) + MapKeys(b, AffectedOf);
    SumIntAppend(MapKeys(a, AffectedOf), MapKeys(b, AffectedOf));
  }

  /** The total loss is a number exactly when every record's loss is one;
      a single `NaN` makes it `NaN`. */
  lemma TotalLossDefined(d: seq<CyberThreat>)
    ensures TotalLoss(d).Some? <==> forall i :: 0 <= i < |d| ==> d[i].financialLoss.Some?
  {
    SumRealDefined(MapKeys(d, LossOf));
  }

  /** A mean of n values in [lo, hi] lies in [lo, hi]. */
  lemma MeanBounds(total: int, n: nat, lo: int, hi: int)
    requires n > 0 && n * lo <= total <= n * hi
    ensures lo as real <= total as real / n as real <= hi as real
  {
    var q := total as real / n as real;
    assert q * n as real == total as real;
    assert (n * lo) as real == n as real * lo as real;
    assert (n * hi) as real == n as real * hi as real;
    assert (q - lo as real) * n as real >= 0.0;
    assert (hi as real - q) * n as real >= 0.0;
  }

  /** The mean resolution time lies between the smallest and the largest
      resolution time. */
  lemma AvgResolutionBounds(d: seq<CyberThreat>, lo: int, hi: int)
    requires |d| > 0
    requires forall i :: 0 <= i < |d| ==> d[i].resolutionTime.Some? && lo <= d[i].resolutionTime.value <= hi
    ensures AvgResolutionTime(d).Some?
    ensures lo as real <= AvgResolutionTime(d).value <= hi as real
  {
    var times := MapKeys(d, ResolutionOf);
    SumIntBounds(times, lo, hi);
    MeanBounds(SumInt(times).value, |d|, lo, hi);
  }

  /** Two incidents in the United States, with no filter chosen: two
      attacks, a loss of 4.0, 1500 affected users and a mean resolution time
      of 16. */
  lemma TwoIncidentFigures(source: string, weakness: string, defense: string)
    ensures var phishing := CyberThreat("USA", Some(2022), "Phishing", "Finance", Some(1.5), Some(1000),
                                        source, weakness, defense, Some(12));
            var ransomware := CyberThreat("USA", Some(2022), "Ransomware", "Finance", Some(2.5), Some(500),
                                          source, weakness, defense, Some(20));
            var shown := Select([phishing, ransomware], Filters(None, None, None, None));
            |shown| == 2 && TotalLoss(shown) == Some(4.0) && TotalAffected(shown) == Some(1500) &&
            AvgResolutionTime(shown) == Some(16.0)
  {
    var phishing := CyberThreat("USA", Some(2022), "Phishing", "Finance", Some(1.5), Some(1000),
                                source, weakness, defense, Some(12));
    var ransomware := CyberThreat("USA", Some(2022), "Ransomware", "Finance", Some(2.5), Some(500),
                                  source, weakness, defense, Some(20));
    var data := [phishing, ransomware];
    SelectNone(data, Filters(None, None, None, None));
    assert [phishing] + [ransomware] == data;
    SumRealAppend(MapKeys([phishing], LossOf), MapKeys([ransomware], LossOf));
    SumIntAppend(MapKeys([phishing], AffectedOf), MapKeys([ransomware], AffectedOf));
    SumIntAppend(MapKeys([phishing], ResolutionOf), MapKeys([ransomware], ResolutionOf));
    assert MapKeys(data, LossOf) == MapKeys([phishing], LossOf) + MapKeys([ransomware], LossOf);
    assert MapKeys(data, AffectedOf) == MapKeys([phishing], AffectedOf) + MapKeys([ransomware], AffectedOf);
    assert MapKeys(data, ResolutionOf) == MapKeys([phishing], ResolutionOf) + MapKeys([ransomware], ResolutionOf);
    SumRealSingle(Some(1.5));
    SumRealSingle(Some(2.5));
    assert SumInt([Some(1000)]) == Some(1000) by { assert [Some(1000)][..0] == []; }
    assert SumInt([Some(500)]) == Some(500) by { assert [Some(500)][..0] == []; }
    assert SumInt([Some(12)]) == Some(12) by { assert [Some(12)][..0] == []; }
    assert SumInt([Some(20)]) == Some(20) by { assert [Some(20)][..0] == []; }
  }

  // The option lists of the filter panel.

  /** The default `sort()` order on strings. */
  predicate TextAfter(a: string, b: string)
  {
    LexLess(b, a)
  }

  /** The default `sort()` order on years: by the text `String(y)`. */
  predicate YearTextAfter(a: Option<int>, b: Option<int>)
  {
    LexLess(ShowNumber(b), ShowNumber(a))
  }

  /** `[...new Set(values)].sort()` for text values. */
  function UniqueTexts(values: seq<string>): seq<string>
  {
    SortBy(Firsts(values, AnyKey), TextAfter)
  }

  function UniqueCountries(data: seq<CyberThreat>): seq<string>
  {
    UniqueTexts(MapKeys(data, CountryOf))
  }

  function UniqueAttackTypes(data: seq<CyberThreat>): seq<string>
  {
    UniqueTexts(MapKeys(data, AttackTypeOf))
  }

  function UniqueIndustries(data: seq<CyberThreat>): seq<string>
  {
    UniqueTexts(MapKeys(data, IndustryOf))
  }

  /** `[...new Set(data.map((d) => d.year))].sort()`: the `Set` treats every
      `NaN` as one value. */
  function UniqueYears(data: seq<CyberThreat>): seq<Option<int>>
  {
    SortBy(Firsts(MapKeys(data, YearOf), AnyKey), YearTextAfter)
  }

  lemma FirstsNoDuplicates<K>(ks: seq<K>)
    ensures NoDuplicates(Firsts(ks, AnyKey))
  {
    FirstsDistinct(ks, AnyKey);
  }

  lemma TextOrder()
    ensures Irreflexive(TextAfter) && Transitive(TextAfter)
  {
    forall a
      ensures !TextAfter(a, a)
    {
      LexIrreflexive(a);
    }
    forall a, b, c | TextAfter(a, b) && TextAfter(b, c)
      ensures TextAfter(a, c)
    {
      LexTransitive(c, b, a);
    }
  }

  /** The text option list holds each value once, exactly the values that
      occur, in strictly ascending string order. */
  lemma UniqueTextsSpec(values: seq<string>)
    ensures var u := UniqueTexts(values);
            NoDuplicates(u) &&
            (forall v :: v in u <==> v in values) &&
            (forall i, j :: 0 <= i < j < |u| ==> LexLess(u[i], u[j]))
  {
    var f := Firsts(values, AnyKey);
    var u := UniqueTexts(values);
    FirstsNoDuplicates(values);
    FirstsMembers(values, AnyKey);
    SortPermutation(f, TextAfter);
    PermutationNoDuplicates(f, u);
    forall v
      ensures v in u <==> v in f
    {
      assert v in u <==> v in multiset(u);
    }
    TextOrder();
    SortSorted(f, TextAfter);
    forall i, j | 0 <= i < j < |u|
      ensures LexLess(u[i], u[j])
    {
      assert !TextAfter(u[i], u[j]);
      LexTotal(u[i], u[j]);
    }
  }

  lemma UniqueCountriesSpec(data: seq<CyberThreat>)
    ensures var u := UniqueCountries(data);
            NoDuplicates(u) &&
            (forall c :: c in u <==> exists i :: 0 <= i < |data| && data[i].country == c) &&
            (forall i, j :: 0 <= i < j < |u| ==> LexLess(u[i], u[j]))
  {
    var ks := MapKeys(data, CountryOf);
    UniqueTextsSpec(ks);
    forall c
      ensures c in ks <==> exists i :: 0 <= i < |data| && data[i].country == c
    {
      if c in ks {
        var i :| 0 <= i < |ks| && ks[i] == c;
        assert data[i].country == c;
      }
    }
  }

  lemma ParseIntNaN()
    ensures ParseInt("NaN") == None
  {
    var nan := "NaN";
    assert !IsWhiteSpace(nan[0]);
    assert LeadingWhiteSpace(nan) == 0;
    assert TrimStart(nan) == nan;
    assert Unsigned(nan) == nan;
    assert DigitValue(nan[0], 10).None?;
    assert DigitRun(nan, 10) == 0;
    assert ParseIntMagnitude(nan) == None;
  }

  /** `parseInt` reads back what `String` writes for a year, `NaN`
      included. */
  lemma ParseShowNumber(y: Option<int>)
    ensures ParseInt(ShowNumber(y)) == y
  {
    if y.Some? {
      ParseIntShowInt(y.value, []);
      assert ShowInt(y.value) + [] == ShowInt(y.value);
    } else {
      ParseIntNaN();
    }
  }

  /** `String` on years is one-to-one. */
  lemma ShowNumberInjective(a: Option<int>, b: Option<int>)
    requires ShowNumber(a) == ShowNumber(b)
    ensures a == b
  {
    ParseShowNumber(a);
    ParseShowNumber(b);
  }

  lemma YearOrder()
    ensures Irreflexive(YearTextAfter) && Transitive(YearTextAfter)
  {
    forall a
      ensures !YearTextAfter(a, a)
    {
      LexIrreflexive(ShowNumber(a));
    }
    forall a, b, c | YearTextAfter(a, b) && YearTextAfter(b, c)
      ensures YearTextAfter(a, c)
    {
      LexTransitive(ShowNumber(c), ShowNumber(b), ShowNumber(a));
    }
  }

  /** The year option list holds each year once (all `NaN` years as one
      entry), exactly the years that occur, in strictly ascending order of
      their text. */
  lemma UniqueYearsSpec(data: seq<CyberThreat>)
    ensures var u := UniqueYears(data);
            NoDuplicates(u) &&
            (forall y :: y in u <==> exists i :: 0 <= i < |data| && data[i].year == y) &&
            (forall i, j :: 0 <= i < j < |u| ==> LexLess(ShowNumber(u[i]), ShowNumber(u[j])))
  {
    var ks := MapKeys(data, YearOf);
    var f := Firsts(ks, AnyKey);
    var u := UniqueYears(data);
    FirstsNoDuplicates(ks);
    FirstsMembers(ks, AnyKey);
    SortPermutation(f, YearTextAfter);
    PermutationNoDuplicates(f, u);
    forall y
      ensures y in u <==> exists i :: 0 <= i < |data| && data[i].year == y
    {
      assert y in u <==> y in multiset(u);
      if y in ks {
        var i :| 0 <= i < |ks| && ks[i] == y;
        assert data[i].year == y;
      }
    }
    YearOrder();
    SortSorted(f, YearTextAfter);
    forall i, j | 0 <= i < j < |u|
      ensures LexLess(ShowNumber(u[i]), ShowNumber(u[j]))
    {
      assert !YearTextAfter(u[i], u[j]);
      if ShowNumber(u[i]) == ShowNumber(u[j]) {
        ShowNumberInjective(u[i], u[j]);
      }
      LexTotal(ShowNumber(u[i]), ShowNumber(u[j]));
    }
  }
}
