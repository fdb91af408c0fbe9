/** Sums of natural-number weights over a sequence, such as the counts of a
    list of chart groups. */
module Totals {

  /** The weights `w(s[0]) + ... + w(s[|s| - 1])`. */
  function Total<T>(s: seq<T>, w: T -> nat): nat
    decreases |s|
  {
    if s == [] then 0 else Total(s[..|s| - 1], w) + w(s[|s| - 1])
  }

  lemma {:induction false} TotalAppend<T>(a: seq<T>, b: seq<T>, w: T -> nat)
    ensures Total(a + b, w) == Total(a, w) + Total(b, w)
    decreases |b|
  {
    if b == [] {
      assert a + b == a;
    } else {
      var b' := b[..|b| - 1];
      assert (a + b)[..|a + b| - 1] == a + b';
      assert (a + b)[|a + b| - 1] == b[|b| - 1];
      TotalAppend(a, b', w);
    }
  }

  lemma TotalSingle<T>(x: T, w: T -> nat)
    ensures Total([x], w) == w(x)
  {
    assert [x][..0] == [];
  }

  /** Replacing one element changes the total by the change in its weight. */
  lemma TotalUpdate<T>(s: seq<T>, j: nat, x: T, w: T -> nat)
    requires j < |s|
    ensures Total(s[j := x], w) + w(s[j]) == Total(s, w) + w(x)
  {
    var front, back := s[..j], s[j + 1..];
    assert s == front + [s[j]] + back;
    assert s[j := x] == front + [x] + back;
    TotalAppend(front + [s[j]], back, w);
    TotalAppend(front, [s[j]], w);
    TotalAppend(front + [x], back, w);
    TotalAppend(front, [x], w);
    TotalSingle(s[j], w);
    TotalSingle(x, w);
  }
}
