/** `Array.prototype.sort` as the charts and the filter lists use it. The
    comparison is given as `after(a, b)`, true exactly when the comparator
    returns a positive number for `(a, b)`, so that `b` must come first. The
    sort is modelled as a stable insertion sort: ECMAScript requires a stable
    sort, and for a consistent comparator every stable sort gives this
    order. */
module Sorting {
  import opened Totals

  /** The number of leading elements of `q` that do not sort after `x`. */
  function InsertionPoint<T>(q: seq<T>, x: T, after: (T, T) -> bool): (m: nat)
    ensures m <= |q|
    ensures forall i :: 0 <= i < m ==> !after(q[i], x)
    ensures m < |q| ==> after(q[m], x)
    decreases |q|
  {
    if q == [] || after(q[0], x) then 0 else 1 + InsertionPoint(q[1..], x, after)
  }

  /** `x` placed in `q` just before the first element that sorts after it. */
  function Insert<T>(q: seq<T>, x: T, after: (T, T) -> bool): (r: seq<T>)
    ensures |r| == |q| + 1
    decreases |q|
  {
    if q == [] then [x]
    else if after(q[0], x) then [x] + q
    else [q[0]] + Insert(q[1..], x, after)
  }

  /** The elements of `s` inserted one after another, in order. */
  function SortBy<T>(s: seq<T>, after: (T, T) -> bool): (r: seq<T>)
    ensures |r| == |s|
    decreases |s|
  {
    if s == [] then [] else Insert(SortBy(s[..|s| - 1], after), s[|s| - 1], after)
  }

  ghost predicate Irreflexive<T(!new)>(after: (T, T) -> bool)
  {
    forall a :: !after(a, a)
  }

  ghost predicate Transitive<T(!new)>(after: (T, T) -> bool)
  {
    forall a, b, c :: after(a, b) && after(b, c) ==> after(a, c)
  }

  /** A strict weak order: irreflexive, transitive, and whenever `a` sorts
      after `c`, every `b` sorts before `a` or after `c`. Comparing by a
      number or by string order gives one. */
  ghost predicate StrictWeakOrder<T(!new)>(after: (T, T) -> bool)
  {
    Irreflexive(after) && Transitive(after) && Splits(after)
  }

  /** Whenever `a` sorts after `c`, every `b` sorts before `a` or after `c`. */
  ghost predicate Splits<T(!new)>(after: (T, T) -> bool)
  {
    forall a, b, c :: after(a, c) ==> after(a, b) || after(b, c)
  }

  /** No element sorts after a later one. */
  predicate SortedBy<T>(r: seq<T>, after: (T, T) -> bool)
  {
    forall i, j :: 0 <= i < j < |r| ==> !after(r[i], r[j])
  }

  /** Neither of `a` and `b` sorts after the other. */
  predicate Tied<T>(a: T, b: T, after: (T, T) -> bool)
  {
    !after(a, b) && !after(b, a)
  }

  /** The elements of `s` tied with `e`, in order. */
  function TiesWith<T>(s: seq<T>, e: T, after: (T, T) -> bool): (r: seq<T>)
    ensures |r| <= |s|
    decreases |s|
  {
    if s == [] then []
    else TiesWith(s[..|s| - 1], e, after) + (if Tied(s[|s| - 1], e, after) then [s[|s| - 1]] else [])
  }

  lemma {:induction false} InsertAt<T>(q: seq<T>, x: T, after: (T, T) -> bool)
    ensures var m := InsertionPoint(q, x, after);
            Insert(q, x, after) == q[..m] + [x] + q[m..]
    decreases |q|
  {
    if q != [] && !after(q[0], x) {
      var t := q[1..];
      InsertAt(t, x, after);
      var m := InsertionPoint(t, x, after);
      var front := [q[0]] + t[..m];
      assert front == q[..m + 1];
      assert t[m..] == q[m + 1..];
      assert [q[0]] + (t[..m] + [x] + t[m..]) == front + [x] + t[m..];
    }
  }

  lemma InsertMultiset<T>(q: seq<T>, x: T, after: (T, T) -> bool)
    ensures multiset(Insert(q, x, after)) == multiset(q) + multiset{x}
  {
    InsertAt(q, x, after);
    var m := InsertionPoint(q, x, after);
    var front, back := q[..m], q[m..];
    assert front + back == q;
    MultisetSplice(front, x, back);
  }

  /** Placing `x` between two parts adds it to their multiset. */
  lemma MultisetSplice<T>(a: seq<T>, x: T, b: seq<T>)
    ensures multiset(a + [x] + b) == multiset(a + b) + multiset{x}
  {
    calc {
      multiset(a + [x] + b);
      multiset(a + [x]) + multiset(b);
      multiset(a) + multiset{x} + multiset(b);
      multiset(a + b) + multiset{x};
    }
  }

  /** Sorting rearranges the elements and neither adds nor drops any. */
  lemma {:induction false} SortPermutation<T>(s: seq<T>, after: (T, T) -> bool)
    ensures multiset(SortBy(s, after)) == multiset(s)
    decreases |s|
  {
    if s != [] {
      var init := s[..|s| - 1];
      SortPermutation(init, after);
      InsertMultiset(SortBy(init, after), s[|s| - 1], after);
      assert s == init + [s[|s| - 1]];
    }
  }

  /** Where each element of `q` lands when `x` is inserted. */
  lemma InsertIndex<T>(q: seq<T>, x: T, after: (T, T) -> bool)
    ensures var m, r := InsertionPoint(q, x, after), Insert(q, x, after);
            r[m] == x &&
            (forall i :: 0 <= i < m ==> r[i] == q[i]) &&
            (forall i :: m < i < |r| ==> r[i] == q[i - 1])
  {
    InsertAt(q, x, after);
  }

  /** In a sorted sequence, `x` sorts after nothing from its insertion point
      on. */
  lemma NotAfterBehind<T(!new)>(q: seq<T>, x: T, after: (T, T) -> bool, k: nat)
    requires Irreflexive(after) && Transitive(after)
    requires SortedBy(q, after)
    requires InsertionPoint(q, x, after) <= k < |q|
    ensures !after(x, q[k])
  {
    var m := InsertionPoint(q, x, after);
    assert after(q[m], x);
    if k > m {
      assert !after(q[m], q[k]);
    }
  }

  /** Inserting into a sorted sequence keeps it sorted. */
  lemma InsertSorted<T(!new)>(q: seq<T>, x: T, after: (T, T) -> bool)
    requires Irreflexive(after) && Transitive(after)
    requires SortedBy(q, after)
    ensures SortedBy(Insert(q, x, after), after)
  {
    InsertIndex(q, x, after);
    var m := InsertionPoint(q, x, after);
    var r := Insert(q, x, after);
    forall i, j | 0 <= i < j < |r|
      ensures !after(r[i], r[j])
    {
      if j == m {
        assert r[i] == q[i] && r[j] == x;
      } else if i == m {
        NotAfterBehind(q, x, after, j - 1);
      } else {
        var i', j' := if i < m then i else i - 1, if j < m then j else j - 1;
        assert r[i] == q[i'] && r[j] == q[j'] && i' < j';
      }
    }
  }

  /** The result is sorted whenever the comparison is irreflexive and
      transitive. */
  lemma {:induction false} SortSorted<T(!new)>(s: seq<T>, after: (T, T) -> bool)
    requires Irreflexive(after) && Transitive(after)
    ensures SortedBy(SortBy(s, after), after)
    decreases |s|
  {
    if s != [] {
      SortSorted(s[..|s| - 1], after);
      InsertSorted(SortBy(s[..|s| - 1], after), s[|s| - 1], after);
    }
  }

  lemma {:induction false} TiesAppend<T>(a: seq<T>, b: seq<T>, e: T, after: (T, T) -> bool)
    ensures TiesWith(a + b, e, after) == TiesWith(a, e, after) + TiesWith(b, e, after)
    decreases |b|
  {
    if b == [] {
      assert a + b == a;
    } else {
      var b' := b[..|b| - 1];
      assert (a + b)[..|a + b| - 1] == a + b';
      assert (a + b)[|a + b| - 1] == b[|b| - 1];
      TiesAppend(a, b', e, after);
    }
  }

  lemma TiesSingle<T>(x: T, e: T, after: (T, T) -> bool)
    ensures TiesWith([x], e, after) == if Tied(x, e, after) then [x] else []
  {
    assert [x][..0] == [];
  }

  /** Behind the insertion point of a sorted sequence, everything sorts after
      the inserted element. */
  lemma AfterInsertionPoint<T(!new)>(q: seq<T>, x: T, after: (T, T) -> bool, j: nat)
    requires Splits(after) && SortedBy(q, after)
    requires InsertionPoint(q, x, after) <= j < |q|
    ensures after(q[j], x)
  {
    var m := InsertionPoint(q, x, after);
    if j > m {
      assert after(q[m], x);
      assert !after(q[m], q[j]);
      WeakOrderStep(after, q[m], q[j], x);
    }
  }

  /** In a strict weak order, `a` sorting after `c` and not after `b` puts
      `b` after `c`. */
  lemma WeakOrderStep<T(!new)>(after: (T, T) -> bool, a: T, b: T, c: T)
    requires Splits(after)
    requires after(a, c) && !after(a, b)
    ensures after(b, c)
  {
  }

  lemma {:induction false} NoTies<T(!new)>(q: seq<T>, x: T, e: T, after: (T, T) -> bool)
    requires StrictWeakOrder(after)
    requires forall j :: 0 <= j < |q| ==> after(q[j], x)
    requires Tied(x, e, after)
    ensures TiesWith(q, e, after) == []
    decreases |q|
  {
    if q != [] {
      var last := q[|q| - 1];
      assert after(last, x);
      assert after(last, e) || after(e, x);
      NoTies(q[..|q| - 1], x, e, after);
    }
  }

  /** When `x` is tied with `e`, nothing behind its insertion point is. */
  lemma TiesBehind<T(!new)>(q: seq<T>, x: T, e: T, after: (T, T) -> bool)
    requires StrictWeakOrder(after) && SortedBy(q, after)
    requires Tied(x, e, after)
    ensures TiesWith(q[InsertionPoint(q, x, after)..], e, after) == []
  {
    var m := InsertionPoint(q, x, after);
    var back := q[m..];
    forall j | 0 <= j < |back|
      ensures after(back[j], x)
    {
      AfterInsertionPoint(q, x, after, m + j);
    }
    NoTies(back, x, e, after);
  }

  /** The ties of an insertion, split at the insertion point. */
  lemma InsertTiesSplit<T>(q: seq<T>, x: T, e: T, after: (T, T) -> bool)
    ensures var m := InsertionPoint(q, x, after);
            TiesWith(Insert(q, x, after), e, after) ==
              TiesWith(q[..m], e, after) + TiesWith([x], e, after) + TiesWith(q[m..], e, after) &&
            TiesWith(q, e, after) == TiesWith(q[..m], e, after) + TiesWith(q[m..], e, after)
  {
    InsertAt(q, x, after);
    var m := InsertionPoint(q, x, after);
    var front, back := q[..m], q[m..];
    assert q == front + back;
    TiesAppend(front + [x], back, e, after);
    TiesAppend(front, [x], e, after);
    TiesAppend(front, back, e, after);
  }

  /** Inserting `x` adds it to the elements tied with `e` at the end, provided
      none of them lies behind the insertion point when `x` is one of them. */
  lemma InsertTies<T>(q: seq<T>, x: T, e: T, after: (T, T) -> bool)
    requires Tied(x, e, after) ==> TiesWith(q[InsertionPoint(q, x, after)..], e, after) == []
    ensures TiesWith(Insert(q, x, after), e, after) ==
              TiesWith(q, e, after) + (if Tied(x, e, after) then [x] else [])
  {
    var m := InsertionPoint(q, x, after);
    InsertTiesSplit(q, x, e, after);
    TiesSingle(x, e, after);
    TiesJoin(TiesWith(q[..m], e, after), TiesWith([x], e, after), TiesWith(q[m..], e, after), x, Tied(x, e, after));
  }

  /** Joining the ties before, at and behind the insertion point. */
  lemma TiesJoin<T>(front: seq<T>, tie: seq<T>, back: seq<T>, x: T, tied: bool)
    requires tie == if tied then [x] else []
    requires tied ==> back == []
    ensures front + tie + back == front + back + (if tied then [x] else [])
  {
    if tied {
      assert front + tie + back == front + [x];
    } else {
      assert front + tie == front;
    }
  }

  /** Stability: elements tied with one another keep their relative order. */
  lemma {:induction false} SortStable<T(!new)>(s: seq<T>, e: T, after: (T, T) -> bool)
    requires StrictWeakOrder(after)
    ensures TiesWith(SortBy(s, after), e, after) == TiesWith(s, e, after)
    decreases |s|
  {
    if s != [] {
      var init := s[..|s| - 1];
      SortStable(init, e, after);
      SortSorted(init, after);
      var q, x := SortBy(init, after), s[|s| - 1];
      if Tied(x, e, after) {
        TiesBehind(q, x, e, after);
      }
      InsertTies(q, x, e, after);
    }
  }
  lemma InsertTotal<T>(q: seq<T>, x: T, after: (T, T) -> bool, w: T -> nat)
    ensures Total(Insert(q, x, after), w) == Total(q, w) + w(x)
  {
    InsertAt(q, x, after);
    var m := InsertionPoint(q, x, after);
    var front, back := q[..m], q[m..];
    assert q == front + back;
    TotalAppend(front + [x], back, w);
    TotalAppend(front, [x], w);
    TotalAppend(front, back, w);
    TotalSingle(x, w);
  }

  /** Sorting keeps the total of any weight, such as the groups' counts. */
  lemma {:induction false} SortTotal<T>(s: seq<T>, after: (T, T) -> bool, w: T -> nat)
    ensures Total(SortBy(s, after), w) == Total(s, w)
    decreases |s|
  {
    if s != [] {
      SortTotal(s[..|s| - 1], after, w);
      InsertTotal(SortBy(s[..|s| - 1], after), s[|s| - 1], after, w);
    }
  }

  // Facts about rearrangements.

  predicate NoDuplicates<T(==)>(s: seq<T>)
  {
    forall i, j :: 0 <= i < j < |s| ==> s[i] != s[j]
  }

  lemma {:induction false} NoDuplicatesMultiset<T>(s: seq<T>, x: T)
    requires NoDuplicates(s)
    ensures multiset(s)[x] <= 1
    decreases |s|
  {
    if s != [] {
      var init := s[..|s| - 1];
      NoDuplicatesMultiset(init, x);
      assert s == init + [s[|s| - 1]];
      if x == s[|s| - 1] {
        assert x !in init;
      }
    }
  }

  lemma TwoOccurrences<T>(b: seq<T>, i: nat, j: nat)
    requires i < j < |b|
    ensures b[i] == b[j] ==> multiset(b)[b[i]] >= 2
  {
    assert b == b[..j] + b[j..];
    assert b[i] in b[..j] && b[j] in b[j..];
  }

  /** A rearrangement of a list without duplicates has none. */
  lemma PermutationNoDuplicates<T>(a: seq<T>, b: seq<T>)
    requires multiset(a) == multiset(b) && NoDuplicates(a)
    ensures NoDuplicates(b)
  {
    forall i, j | 0 <= i < j < |b|
      ensures b[i] != b[j]
    {
      NoDuplicatesMultiset(a, b[i]);
      TwoOccurrences(b, i, j);
    }
  }

  /** An element occurring twice has a second position. */
  lemma SecondOccurrence<T>(a: seq<T>, p: nat) returns (r: nat)
    requires p < |a| && multiset(a)[a[p]] >= 2
    ensures r < |a| && r != p && a[r] == a[p]
  {
    var x := a[p];
    var front, back := a[..p], a[p + 1..];
    assert a == front + [x] + back;
    if x in front {
      r :| 0 <= r < |front| && front[r] == x;
    } else {
      assert x in back;
      var k :| 0 <= k < |back| && back[k] == x;
      r := p + 1 + k;
    }
  }
}
