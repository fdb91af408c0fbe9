/** The grouping step shared by the four chart reductions: records are
    folded left to right into a list of groups; for each record the list is
    searched (`acc.find`) for a group with the same key, whose count (and
    loss) is then increased, or a new group with count 1 is appended.

    Keys are compared with `===`, under which `NaN` is not equal to itself.
    A grouping is therefore given a `comparable` test: a key that fails it
    never matches, so each record with such a key opens a group of its own. */
module Grouping {
  import opened Wrappers
  import opened Numbers
  import opened Totals
  import opened Sorting

  /** A group counting the records with its key. */
  datatype Tally<K> = Tally(key: K, count: nat)

  /** A group that also adds up the records' financial losses. */
  datatype LossTally<K> = LossTally(key: K, count: nat, loss: Option<real>)

  /** `a === b`: equal, and neither is `NaN`. */
  predicate Same<K(==)>(a: K, b: K, comparable: K -> bool)
  {
    comparable(a) && comparable(b) && a == b
  }

  /** Every key compares, as strings do. */
  predicate AnyKey<K>(k: K)
  {
    true
  }

  /** `ks.findIndex(d => d === k)`, with `|ks|` standing for "not found". */
  function Find<K(==)>(ks: seq<K>, k: K, comparable: K -> bool): (j: nat)
    ensures j <= |ks|
    ensures j < |ks| ==> Same(ks[j], k, comparable)
    ensures forall i :: 0 <= i < j ==> !Same(ks[i], k, comparable)
    decreases |ks|
  {
    if ks == [] then 0
    else if Same(ks[0], k, comparable) then 0
    else 1 + Find(ks[1..], k, comparable)
  }

  function MapKeys<T, K>(xs: seq<T>, key: T -> K): (ks: seq<K>)
    ensures |ks| == |xs|
    ensures forall i :: 0 <= i < |xs| ==> ks[i] == key(xs[i])
  {
    seq(|xs|, i requires 0 <= i < |xs| => key(xs[i]))
  }

  function Keys<K>(acc: seq<Tally<K>>): (ks: seq<K>)
    ensures |ks| == |acc|
    ensures forall i :: 0 <= i < |acc| ==> ks[i] == acc[i].key
  {
    seq(|acc|, i requires 0 <= i < |acc| => acc[i].key)
  }

  /** One step of the count reduction: the record's key `k` is found and its
      count increased, or a group for it is appended. */
  function Bump<K(==)>(acc: seq<Tally<K>>, k: K, comparable: K -> bool): seq<Tally<K>>
  {
    var j := Find(Keys(acc), k, comparable);
    if j < |acc| then acc[j := Tally(acc[j].key, acc[j].count + 1)]
    else acc + [Tally(k, 1)]
  }

  /** The groups of `xs` by `key`, in the order the reduction builds them. */
  function Tallied<T, K(==)>(xs: seq<T>, key: T -> K, comparable: K -> bool): seq<Tally<K>>
    decreases |xs|
  {
    if xs == [] then []
    else Bump(Tallied(xs[..|xs| - 1], key, comparable), key(xs[|xs| - 1]), comparable)
  }

  /** The number of records of `xs` whose key is `k`. */
  function Occurrences<T, K(==)>(xs: seq<T>, key: T -> K, k: K): (n: nat)
    ensures n <= |xs|
    decreases |xs|
  {
    if xs == [] then 0
    else Occurrences(xs[..|xs| - 1], key, k) + (if key(xs[|xs| - 1]) == k then 1 else 0)
  }

  /** The first occurrence of each key, in order of appearance: `ks[i]` is
      kept when no earlier key is the same as it. This is the order in which
      a `Set` built from `ks` lists its elements. */
  function Firsts<K(==)>(ks: seq<K>, comparable: K -> bool): (f: seq<K>)
    ensures |f| <= |ks|
    decreases |ks|
  {
    if ks == [] then []
    else
      var init := ks[..|ks| - 1];
      var k := ks[|ks| - 1];
      Firsts(init, comparable) + (if Find(init, k, comparable) < |init| then [] else [k])
  }

  function CountOf<K>(t: Tally<K>): nat
  {
    t.count
  }

  /** The sum of the groups' counts. */
  function CountSum<K>(acc: seq<Tally<K>>): nat
  {
    Total(acc, CountOf)
  }

  // Facts about the search.

  lemma {:induction false} FindUnique<K>(ks: seq<K>, k: K, comparable: K -> bool, j: nat)
    requires j <= |ks|
    requires j < |ks| ==> Same(ks[j], k, comparable)
    requires forall i :: 0 <= i < j ==> !Same(ks[i], k, comparable)
    ensures Find(ks, k, comparable) == j
    decreases |ks|
  {
    if j > 0 {
      FindUnique(ks[1..], k, comparable, j - 1);
    }
  }

  lemma FindAppend<K>(ks: seq<K>, a: K, k: K, comparable: K -> bool)
    ensures var f := Find(ks, k, comparable);
            Find(ks + [a], k, comparable) ==
              if f < |ks| then f else if Same(a, k, comparable) then |ks| else |ks| + 1
  {
    var f := Find(ks, k, comparable);
    var s := ks + [a];
    var g := if f < |ks| then f else if Same(a, k, comparable) then |ks| else |ks| + 1;
    assert forall i :: 0 <= i < |ks| ==> s[i] == ks[i];
    FindUnique(s, k, comparable, g);
  }

  /** A key occurring in `xs` is the key of one of its records. */
  lemma {:induction false} OccurrenceWitness<T, K>(xs: seq<T>, key: T -> K, k: K) returns (n: nat)
    requires Occurrences(xs, key, k) > 0
    ensures n < |xs| && key(xs[n]) == k
    decreases |xs|
  {
    if key(xs[|xs| - 1]) == k {
      n := |xs| - 1;
    } else {
      n := OccurrenceWitness(xs[..|xs| - 1], key, k);
    }
  }

  lemma OccurrencesSnoc<T, K>(xs: seq<T>, x: T, key: T -> K, k: K)
    ensures Occurrences(xs + [x], key, k) == Occurrences(xs, key, k) + (if key(x) == k then 1 else 0)
  {
    assert (xs + [x])[..|xs|] == xs;
  }

  // The invariants of the reduction.

  /** No two groups have keys that are the same. */
  predicate KeysDistinct<K(==)>(acc: seq<Tally<K>>, comparable: K -> bool)
  {
    forall i, j :: 0 <= i < j < |acc| ==> !Same(acc[i].key, acc[j].key, comparable)
  }

  /** A group with a comparable key counts every record with that key; any
      other group holds one record. */
  predicate CountsMatch<T, K(==)>(acc: seq<Tally<K>>, xs: seq<T>, key: T -> K, comparable: K -> bool)
  {
    forall i :: 0 <= i < |acc| ==>
      if comparable(acc[i].key) then acc[i].count == Occurrences(xs, key, acc[i].key)
      else acc[i].count == 1
  }

  /** Every record with a comparable key has a group. */
  predicate Complete<T, K(==)>(acc: seq<Tally<K>>, xs: seq<T>, key: T -> K, comparable: K -> bool)
  {
    forall n :: 0 <= n < |xs| && comparable(key(xs[n])) ==>
      Find(Keys(acc), key(xs[n]), comparable) < |acc|
  }

  /** Every group holds a record. */
  predicate Inhabited<K>(acc: seq<Tally<K>>)
  {
    forall i :: 0 <= i < |acc| ==> acc[i].count >= 1
  }

  predicate TallyInvariant<T, K(==)>(acc: seq<Tally<K>>, xs: seq<T>, key: T -> K, comparable: K -> bool)
  {
    KeysDistinct(acc, comparable) && CountsMatch(acc, xs, key, comparable) &&
    Complete(acc, xs, key, comparable) && Inhabited(acc) && CountSum(acc) == |xs|
  }

  lemma BumpFoundKeys<K>(acc: seq<Tally<K>>, k: K, comparable: K -> bool)
    ensures Keys(Bump(acc, k, comparable)) ==
              if Find(Keys(acc), k, comparable) < |acc| then Keys(acc) else Keys(acc) + [k]
  {
  }

  lemma BumpDistinct<K>(acc: seq<Tally<K>>, k: K, comparable: K -> bool)
    requires KeysDistinct(acc, comparable)
    ensures KeysDistinct(Bump(acc, k, comparable), comparable)
  {
    var j := Find(Keys(acc), k, comparable);
    var b := Bump(acc, k, comparable);
    if j == |acc| {
      forall i | 0 <= i < |acc|
        ensures !Same(b[i].key, b[|acc|].key, comparable)
      {
        assert !Same(Keys(acc)[i], k, comparable);
      }
    }
  }

  lemma BumpCounts<T, K>(acc: seq<Tally<K>>, xs: seq<T>, x: T, key: T -> K, comparable: K -> bool)
    requires TallyInvariant(acc, xs, key, comparable)
    ensures CountsMatch(Bump(acc, key(x), comparable), xs + [x], key, comparable)
  {
    var k := key(x);
    var j := Find(Keys(acc), k, comparable);
    var b := Bump(acc, k, comparable);
    forall i | 0 <= i < |b|
      ensures if comparable(b[i].key) then b[i].count == Occurrences(xs + [x], key, b[i].key)
              else b[i].count == 1
    {
      OccurrencesSnoc(xs, x, key, b[i].key);
      if i == |acc| && comparable(k) && Occurrences(xs, key, k) > 0 {
        var n := OccurrenceWitness(xs, key, k);
      }
    }
  }

  lemma BumpComplete<T, K>(acc: seq<Tally<K>>, xs: seq<T>, x: T, key: T -> K, comparable: K -> bool)
    requires Complete(acc, xs, key, comparable)
    ensures Complete(Bump(acc, key(x), comparable), xs + [x], key, comparable)
  {
    var k := key(x);
    var b := Bump(acc, k, comparable);
    var s := xs + [x];
    BumpFoundKeys(acc, k, comparable);
    forall n | 0 <= n < |s| && comparable(key(s[n]))
      ensures Find(Keys(b), key(s[n]), comparable) < |b|
    {
      FindAppend(Keys(acc), k, key(s[n]), comparable);
      if n < |xs| {
        assert s[n] == xs[n];
      }
    }
  }

  lemma BumpInvariant<T, K>(acc: seq<Tally<K>>, xs: seq<T>, x: T, key: T -> K, comparable: K -> bool)
    requires TallyInvariant(acc, xs, key, comparable)
    ensures TallyInvariant(Bump(acc, key(x), comparable), xs + [x], key, comparable)
  {
    var j := Find(Keys(acc), key(x), comparable);
    BumpDistinct(acc, key(x), comparable);
    BumpCounts(acc, xs, x, key, comparable);
    BumpComplete(acc, xs, x, key, comparable);
    if j < |acc| {
      TotalUpdate(acc, j, Tally(acc[j].key, acc[j].count + 1), CountOf);
    } else {
      TotalAppend(acc, [Tally(key(x), 1)], CountOf);
      TotalSingle(Tally(key(x), 1), CountOf);
    }
  }

  /** The reduction keeps its invariants: keys are distinct, counts match the
      records, every record is counted, and the counts add up to the number
      of records. */
  lemma {:induction false} TalliedInvariant<T, K>(xs: seq<T>, key: T -> K, comparable: K -> bool)
    ensures TallyInvariant(Tallied(xs, key, comparable), xs, key, comparable)
    decreases |xs|
  {
    if xs != [] {
      var init := xs[..|xs| - 1];
      TalliedInvariant(init, key, comparable);
      BumpInvariant(Tallied(init, key, comparable), init, xs[|xs| - 1], key, comparable);
      assert init + [xs[|xs| - 1]] == xs;
    }
  }

  /** The groups' keys are the first occurrences of the records' keys, in
      order of appearance. */
  lemma {:induction false} TalliedKeys<T, K>(xs: seq<T>, key: T -> K, comparable: K -> bool)
    ensures Keys(Tallied(xs, key, comparable)) == Firsts(MapKeys(xs, key), comparable)
    decreases |xs|
  {
    if xs != [] {
      var init := xs[..|xs| - 1];
      var ks := MapKeys(xs, key);
      var k := key(xs[|xs| - 1]);
      TalliedKeys(init, key, comparable);
      assert ks[..|ks| - 1] == MapKeys(init, key);
      FirstsFind(MapKeys(init, key), k, comparable);
      BumpFoundKeys(Tallied(init, key, comparable), k, comparable);
    }
  }

  /** A key is found among the first occurrences exactly when it is found
      among all keys. */
  lemma {:induction false} FirstsFind<K>(ks: seq<K>, k: K, comparable: K -> bool)
    ensures Find(Firsts(ks, comparable), k, comparable) < |Firsts(ks, comparable)|
            <==> Find(ks, k, comparable) < |ks|
    decreases |ks|
  {
    if ks != [] {
      var init := ks[..|ks| - 1];
      var a := ks[|ks| - 1];
      var f := Firsts(init, comparable);
      FirstsFind(init, k, comparable);
      assert init + [a] == ks;
      FindAppend(init, a, k, comparable);
      FindAppend(f, a, k, comparable);
      if Find(init, a, comparable) < |init| {
        assert Firsts(ks, comparable) == f;
        if Same(a, k, comparable) {
          var j := Find(init, a, comparable);
          assert Same(init[j], k, comparable);
          assert Find(init, k, comparable) <= j;
        }
      } else {
        assert Firsts(ks, comparable) == f + [a];
      }
    }
  }

  // Facts about the first occurrences, which also describe `new Set(ks)`.

  /** No two first occurrences are the same. */
  lemma {:induction false} FirstsDistinct<K>(ks: seq<K>, comparable: K -> bool)
    ensures var f := Firsts(ks, comparable);
            forall i, j :: 0 <= i < j < |f| ==> !Same(f[i], f[j], comparable)
    decreases |ks|
  {
    if ks != [] {
      var init := ks[..|ks| - 1];
      var a := ks[|ks| - 1];
      var f := Firsts(init, comparable);
      FirstsDistinct(init, comparable);
      if Find(init, a, comparable) == |init| {
        FirstsFind(init, a, comparable);
        forall i | 0 <= i < |f|
          ensures !Same(f[i], a, comparable)
        {
        }
      }
    }
  }

  /** Every first occurrence is a key, and every key that compares has a
      first occurrence equal to it; a key that does not compare is kept at
      each of its occurrences. */
  lemma {:induction false} FirstsMembers<K>(ks: seq<K>, comparable: K -> bool)
    ensures forall k :: k in Firsts(ks, comparable) ==> k in ks
    ensures forall k :: k in ks ==> k in Firsts(ks, comparable)
    decreases |ks|
  {
    if ks != [] {
      var init := ks[..|ks| - 1];
      var a := ks[|ks| - 1];
      FirstsMembers(init, comparable);
      assert ks == init + [a];
      var j := Find(init, a, comparable);
      if j < |init| {
        assert init[j] == a;
      }
    }
  }

  // Groups that also add up losses.

  /** The keys of loss groups: the same projection as `Keys`, on the other
      group type. */
  function LossKeys<K>(acc: seq<LossTally<K>>): (ks: seq<K>)
    ensures |ks| == |acc|
    ensures forall i :: 0 <= i < |acc| ==> ks[i] == acc[i].key
  {
    seq(|acc|, i requires 0 <= i < |acc| => acc[i].key)
  }

  /** One step of the loss reduction: as `Bump`, and the record's loss `l` is
      added to its group's loss, or starts the new group's loss. */
  function LossBump<K(==)>(acc: seq<LossTally<K>>, k: K, l: Option<real>, comparable: K -> bool): seq<LossTally<K>>
  {
    var j := Find(LossKeys(acc), k, comparable);
    if j < |acc| then acc[j := LossTally(acc[j].key, acc[j].count + 1, AddReal(acc[j].loss, l))]
    else acc + [LossTally(k, 1, l)]
  }

  function LossTallied<T, K(==)>(xs: seq<T>, key: T -> K, loss: T -> Option<real>, comparable: K -> bool): seq<LossTally<K>>
    decreases |xs|
  {
    if xs == [] then []
    else
      var x := xs[|xs| - 1];
      LossBump(LossTallied(xs[..|xs| - 1], key, loss, comparable), key(x), loss(x), comparable)
  }

  /** The groups without their losses. */
  function Counts<K>(acc: seq<LossTally<K>>): (c: seq<Tally<K>>)
    ensures |c| == |acc|
    ensures forall i :: 0 <= i < |acc| ==> c[i] == Tally(acc[i].key, acc[i].count)
  {
    seq(|acc|, i requires 0 <= i < |acc| => Tally(acc[i].key, acc[i].count))
  }

  /** The losses of the records whose key is `k`, in order. */
  function LossesOf<T, K(==)>(xs: seq<T>, key: T -> K, loss: T -> Option<real>, k: K): (ls: seq<Option<real>>)
    ensures |ls| == Occurrences(xs, key, k)
    decreases |xs|
  {
    if xs == [] then []
    else
      var x := xs[|xs| - 1];
      LossesOf(xs[..|xs| - 1], key, loss, k) + (if key(x) == k then [loss(x)] else [])
  }

  /** Counting with losses groups exactly as counting alone does. */
  lemma {:induction false} LossTalliedCounts<T, K>(xs: seq<T>, key: T -> K, loss: T -> Option<real>, comparable: K -> bool)
    ensures Counts(LossTallied(xs, key, loss, comparable)) == Tallied(xs, key, comparable)
    decreases |xs|
  {
    if xs != [] {
      var init, x := xs[..|xs| - 1], xs[|xs| - 1];
      LossTalliedCounts(init, key, loss, comparable);
      LossBumpCounts(LossTallied(init, key, loss, comparable), key(x), loss(x), comparable);
    }
  }

  /** One step with losses, without its losses, is one step of counting. */
  lemma LossBumpCounts<K>(acc: seq<LossTally<K>>, k: K, l: Option<real>, comparable: K -> bool)
    ensures Counts(LossBump(acc, k, l, comparable)) == Bump(Counts(acc), k, comparable)
  {
    var c := Counts(acc);
    assert LossKeys(acc) == Keys(c);
    var j := Find(LossKeys(acc), k, comparable);
    if j < |acc| {
      assert Counts(acc[j := LossTally(acc[j].key, acc[j].count + 1, AddReal(acc[j].loss, l))]) ==
             c[j := Tally(c[j].key, c[j].count + 1)];
    } else {
      assert Counts(acc + [LossTally(k, 1, l)]) == c + [Tally(k, 1)];
    }
  }

  /** A group with a comparable key has, as its loss, the sum of the losses
      of the records with that key, added in record order. */
  predicate LossesMatch<T, K(==)>(acc: seq<LossTally<K>>, xs: seq<T>, key: T -> K, loss: T -> Option<real>, comparable: K -> bool)
  {
    forall i :: 0 <= i < |acc| && comparable(acc[i].key) ==>
      acc[i].loss == SumReal(LossesOf(xs, key, loss, acc[i].key))
  }

  lemma LossBumpMatches<T, K>(xs: seq<T>, x: T, key: T -> K, loss: T -> Option<real>, comparable: K -> bool)
    requires LossesMatch(LossTallied(xs, key, loss, comparable), xs, key, loss, comparable)
    ensures LossesMatch(LossBump(LossTallied(xs, key, loss, comparable), key(x), loss(x), comparable),
                        xs + [x], key, loss, comparable)
  {
    var acc := LossTallied(xs, key, loss, comparable);
    var k := key(x);
    var j := Find(LossKeys(acc), k, comparable);
    var b := LossBump(acc, k, loss(x), comparable);
    var s := xs + [x];
    LossTalliedCounts(xs, key, loss, comparable);
    TalliedInvariant(xs, key, comparable);
    assert LossKeys(acc) == Keys(Counts(acc));
    assert s[..|xs|] == xs;
    forall i | 0 <= i < |b| && comparable(b[i].key)
      ensures b[i].loss == SumReal(LossesOf(s, key, loss, b[i].key))
    {
      var ls := LossesOf(xs, key, loss, b[i].key);
      if i == j && j < |acc| {
        SumRealAppend(ls, [loss(x)]);
        SumRealSingle(loss(x));
        assert b[i].loss == SumReal(LossesOf(s, key, loss, b[i].key));
      } else if i < |acc| {
        var c := Counts(acc);
        assert b[i] == acc[i];
        assert acc[i].key != k;
        assert LossesOf(s, key, loss, acc[i].key) == ls;
      } else {
        if Occurrences(xs, key, k) > 0 {
          var n := OccurrenceWitness(xs, key, k);
        }
        assert ls == [];
        SumRealSingle(loss(x));
        assert [] + [loss(x)] == [loss(x)];
      }
    }
  }

  lemma {:induction false} LossTalliedLosses<T, K>(xs: seq<T>, key: T -> K, loss: T -> Option<real>, comparable: K -> bool)
    ensures LossesMatch(LossTallied(xs, key, loss, comparable), xs, key, loss, comparable)
    decreases |xs|
  {
    if xs != [] {
      var init := xs[..|xs| - 1];
      LossTalliedLosses(init, key, loss, comparable);
      LossBumpMatches(init, xs[|xs| - 1], key, loss, comparable);
      assert init + [xs[|xs| - 1]] == xs;
    }
  }
  // What a grouping holds, group by group.

  /** `g` is a faithful group of `xs`: a comparable key counts every record
      with it; any other key stands for one record. */
  predicate GroupOf<T, K(==)>(g: Tally<K>, xs: seq<T>, key: T -> K, comparable: K -> bool)
  {
    if comparable(g.key) then g.count == Occurrences(xs, key, g.key) else g.count == 1
  }

  /** As `GroupOf`, and the loss of a comparable key is the sum of the
      losses of its records, in record order. */
  predicate LossGroupOf<T, K(==)>(g: LossTally<K>, xs: seq<T>, key: T -> K, loss: T -> Option<real>, comparable: K -> bool)
  {
    if comparable(g.key) then
      g.count == Occurrences(xs, key, g.key) && g.loss == SumReal(LossesOf(xs, key, loss, g.key))
    else g.count == 1
  }

  function LossCountOf<K>(g: LossTally<K>): nat
  {
    g.count
  }

  /** The groups of a count reduction: each is faithful, no two keys are the
      same, every record with a comparable key is in a group with its key, and
      the counts add up to the number of records. */
  lemma TalliedGroups<T, K>(xs: seq<T>, key: T -> K, comparable: K -> bool)
    ensures var acc := Tallied(xs, key, comparable);
            (forall i :: 0 <= i < |acc| ==> GroupOf(acc[i], xs, key, comparable)) &&
            (forall i, j :: 0 <= i < j < |acc| ==> !Same(acc[i].key, acc[j].key, comparable)) &&
            (forall n :: 0 <= n < |xs| && comparable(key(xs[n])) ==>
               exists i :: 0 <= i < |acc| && acc[i].key == key(xs[n])) &&
            Total(acc, CountOf) == |xs|
  {
    var acc := Tallied(xs, key, comparable);
    TalliedInvariant(xs, key, comparable);
    forall n | 0 <= n < |xs| && comparable(key(xs[n]))
      ensures exists i :: 0 <= i < |acc| && acc[i].key == key(xs[n])
    {
      var i := Find(Keys(acc), key(xs[n]), comparable);
      assert acc[i].key == key(xs[n]);
    }
  }

  lemma {:induction false} LossCountTotal<K>(acc: seq<LossTally<K>>)
    ensures Total(acc, LossCountOf) == Total(Counts(acc), CountOf)
    decreases |acc|
  {
    if acc != [] {
      var init := acc[..|acc| - 1];
      LossCountTotal(init);
      assert Counts(acc)[..|acc| - 1] == Counts(init);
    }
  }

  /** The groups of a loss reduction: as `TalliedGroups`, and each group's
      loss is the sum of its records' losses. */
  lemma LossTalliedGroups<T, K>(xs: seq<T>, key: T -> K, loss: T -> Option<real>, comparable: K -> bool)
    ensures var acc := LossTallied(xs, key, loss, comparable);
            (forall i :: 0 <= i < |acc| ==> LossGroupOf(acc[i], xs, key, loss, comparable)) &&
            (forall i, j :: 0 <= i < j < |acc| ==> !Same(acc[i].key, acc[j].key, comparable)) &&
            (forall n :: 0 <= n < |xs| && comparable(key(xs[n])) ==>
               exists i :: 0 <= i < |acc| && acc[i].key == key(xs[n])) &&
            Total(acc, LossCountOf) == |xs|
  {
    var acc := LossTallied(xs, key, loss, comparable);
    var c := Counts(acc);
    LossTalliedCounts(xs, key, loss, comparable);
    LossTalliedLosses(xs, key, loss, comparable);
    TalliedGroups(xs, key, comparable);
    LossCountTotal(acc);
    forall i | 0 <= i < |acc|
      ensures LossGroupOf(acc[i], xs, key, loss, comparable)
    {
      assert GroupOf(c[i], xs, key, comparable);
    }
    forall i, j | 0 <= i < j < |acc|
      ensures !Same(acc[i].key, acc[j].key, comparable)
    {
      assert c[i].key == acc[i].key && c[j].key == acc[j].key;
    }
    forall n | 0 <= n < |xs| && comparable(key(xs[n]))
      ensures exists i :: 0 <= i < |acc| && acc[i].key == key(xs[n])
    {
      var i :| 0 <= i < |c| && c[i].key == key(xs[n]);
      assert acc[i].key == key(xs[n]);
    }
  }

  /** Rearranging groups whose keys are pairwise not the same keeps them so. */
  lemma DistinctKeysPermuted<G, K>(a: seq<G>, b: seq<G>, gk: G -> K, comparable: K -> bool)
    requires multiset(a) == multiset(b)
    requires forall i, j :: 0 <= i < j < |a| ==> !Same(gk(a[i]), gk(a[j]), comparable)
    ensures forall i, j :: 0 <= i < j < |b| ==> !Same(gk(b[i]), gk(b[j]), comparable)
  {
    forall i, j | 0 <= i < j < |b|
      ensures !Same(gk(b[i]), gk(b[j]), comparable)
    {
      assert b[i] in multiset(a) && b[j] in multiset(a);
      var p :| 0 <= p < |a| && a[p] == b[i];
      var q :| 0 <= q < |a| && a[q] == b[j];
      if p == q {
        TwoOccurrences(b, i, j);
        var r := SecondOccurrence(a, p);
        if p < r {
          assert !Same(gk(a[p]), gk(a[r]), comparable);
        } else {
          assert !Same(gk(a[r]), gk(a[p]), comparable);
        }
      } else if p < q {
        assert !Same(gk(a[p]), gk(a[q]), comparable);
      } else {
        assert !Same(gk(a[q]), gk(a[p]), comparable);
      }
    }
  }
}
