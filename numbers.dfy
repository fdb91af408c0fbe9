/** The numeric conversions of the parser (`parseInt`, `parseFloat`), the
    `String(n)` conversion the default sort applies to years, and addition on
    numbers that may be `NaN`.

    A JavaScript number is modelled as `Option<int>` or `Option<real>`, with
    `None` for `NaN`. Numbers are exact: there is no rounding to the nearest
    double. */
module Numbers {
  import opened Wrappers
  import opened Text

  /** The value of `c` as a digit of `radix` (10 or 16), if it is one. */
  function DigitValue(c: char, radix: nat): (d: Option<nat>)
    ensures d.Some? ==> d.value < radix
  {
    var n := if '0' <= c <= '9' then c as int - '0' as int
             else if 'a' <= c <= 'z' then c as int - 'a' as int + 10
             else if 'A' <= c <= 'Z' then c as int - 'A' as int + 10
             else -1;
    if 0 <= n < radix then Some(n as nat) else None
  }

  predicate AllDigits(s: string, radix: nat)
  {
    forall i :: 0 <= i < |s| ==> DigitValue(s[i], radix).Some?
  }

  /** The length of the longest prefix of `s` made of digits of `radix`. */
  function DigitRun(s: string, radix: nat): (n: nat)
    ensures n <= |s|
    ensures AllDigits(s[..n], radix)
    ensures n < |s| ==> DigitValue(s[n], radix).None?
    decreases |s|
  {
    if s != [] && DigitValue(s[0], radix).Some? then 1 + DigitRun(s[1..], radix) else 0
  }

  /** The value of a digit string, most significant digit first. */
  function DigitsValue(ds: string, radix: nat): nat
    requires AllDigits(ds, radix)
    decreases |ds|
  {
    if ds == [] then 0
    else DigitsValue(ds[..|ds| - 1], radix) * radix + DigitValue(ds[|ds| - 1], radix).value
  }

  /** The sign `parseInt` and `parseFloat` read: a leading `-`. */
  predicate Negative(t: string)
  {
    t != [] && t[0] == '-'
  }

  /** `t` without its leading sign character, if any. */
  function Unsigned(t: string): string
  {
    if t != [] && (t[0] == '-' || t[0] == '+') then t[1..] else t
  }

  /** The unsigned part of `parseInt`: a `0x`/`0X` prefix selects radix 16,
      and the longest run of digits that follows is the value. */
  function ParseIntMagnitude(u: string): Option<nat>
  {
    var hex := |u| >= 2 && u[0] == '0' && (u[1] == 'x' || u[1] == 'X');
    var radix := if hex then 16 else 10;
    var v := if hex then u[2..] else u;
    var n := DigitRun(v, radix);
    if n == 0 then None else Some(DigitsValue(v[..n], radix))
  }

  /** `parseInt(s)` without a radix argument: leading white space is skipped, an
      optional sign is read, then the magnitude; no digit at all gives `NaN`.
      Whatever follows the digits is ignored. */
  function ParseInt(s: string): Option<int>
  {
    var t := TrimStart(s);
    match ParseIntMagnitude(Unsigned(t))
    case None => None
    case Some(m) => Some(if Negative(t) then -(m as int) else m as int)
  }

  function Pow10(n: nat): (p: nat)
    ensures p >= 1
  {
    if n == 0 then 1 else 10 * Pow10(n - 1)
  }

  /** `10` raised to a possibly negative exponent, exactly. */
  function Scale(e: int): (r: real)
    ensures r > 0.0
  {
    if e >= 0 then Pow10(e) as real else 1.0 / Pow10(-e) as real
  }

  /** The exponent part `e`/`E`, optional sign, digits at the start of `s`;
      0 when there is none. */
  function Exponent(s: string): int
  {
    if s != [] && (s[0] == 'e' || s[0] == 'E') then
      var w := Unsigned(s[1..]);
      var n := DigitRun(w, 10);
      if n == 0 then 0
      else
        var m: int := DigitsValue(w[..n], 10);
        if Negative(s[1..]) then -m else m
    else 0
  }

  /** The unsigned part of `parseFloat`: digits, an optional point and fraction
      digits (at least one digit in all), then an optional exponent. */
  function ParseFloatMagnitude(u: string): Option<real>
  {
    var a := DigitRun(u, 10);
    var point := a < |u| && u[a] == '.';
    var fraction := if point then u[a + 1..] else [];
    var f := DigitRun(fraction, 10);
    if a == 0 && f == 0 then None
    else
      var mantissa := DigitsValue(u[..a], 10) as real
                      + DigitsValue(fraction[..f], 10) as real / Pow10(f) as real;
      var rest := if point then fraction[f..] else u[a..];
      Some(mantissa * Scale(Exponent(rest)))
  }

  /** `parseFloat(s)`: leading white space is skipped, an optional sign is
      read, then the longest decimal literal that follows is the magnitude; no
      such literal gives `NaN`. */
  function ParseFloat(s: string): Option<real>
  {
    var t := TrimStart(s);
    match ParseFloatMagnitude(Unsigned(t))
    case None => None
    case Some(m) => Some(if Negative(t) then -m else m)
  }

  function DigitChar(d: nat): (c: char)
    requires d < 10
    ensures DigitValue(c, 10) == Some(d)
  {
    ('0' as int + d) as char
  }

  /** The decimal numeral of `n`, as `String(n)` writes it. */
  function ShowNat(n: nat): (s: string)
    ensures s != [] && AllDigits(s, 10)
    decreases n
  {
    if n < 10 then [DigitChar(n)] else ShowNat(n / 10) + [DigitChar(n % 10)]
  }

  /** `String(n)` for an integer-valued number. */
  function ShowInt(n: int): string
  {
    if n < 0 then "-" + ShowNat(-n) else ShowNat(n)
  }

  /** `String(x)` for an integer-valued number that may be `NaN`. */
  function ShowNumber(x: Option<int>): string
  {
    match x
    case None => "NaN"
    case Some(n) => ShowInt(n)
  }

  lemma {:induction false} ShowNatValue(n: nat)
    ensures DigitsValue(ShowNat(n), 10) == n
    decreases n
  {
    if n >= 10 {
      var s := ShowNat(n);
      assert s[..|s| - 1] == ShowNat(n / 10);
      ShowNatValue(n / 10);
    }
  }

  lemma {:induction false} DigitRunAfterDigits(x: string, t: string)
    requires AllDigits(x, 10)
    ensures DigitRun(x + t, 10) == |x| + DigitRun(t, 10)
    decreases |x|
  {
    if x != [] {
      assert (x + t)[1..] == x[1..] + t;
      DigitRunAfterDigits(x[1..], t);
    } else {
      assert x + t == t;
    }
  }

  /** A suffix that cannot continue a decimal numeral read by `parseInt`:
      it starts with neither a digit nor the `x` of a hexadecimal prefix. */
  predicate EndsNumeral(t: string)
  {
    t == [] || (DigitValue(t[0], 10).None? && t[0] != 'x' && t[0] != 'X')
  }

  /** A decimal numeral followed by such a suffix has no `0x` prefix. */
  lemma NoHexPrefix(digits: string, t: string)
    requires digits != [] && AllDigits(digits, 10) && EndsNumeral(t)
    ensures var u := digits + t; !(|u| >= 2 && u[0] == '0' && (u[1] == 'x' || u[1] == 'X'))
  {
    var u := digits + t;
    if |digits| >= 2 {
      assert u[1] == digits[1];
      assert DigitValue(digits[1], 10).Some?;
    } else if |u| >= 2 {
      assert u[1] == t[0];
    }
  }

  lemma MagnitudeOfShowNat(m: nat, t: string)
    requires EndsNumeral(t)
    ensures ParseIntMagnitude(ShowNat(m) + t) == Some(m)
  {
    var digits := ShowNat(m);
    var u := digits + t;
    NoHexPrefix(digits, t);
    DigitRunAfterDigits(digits, t);
    assert DigitRun(t, 10) == 0;
    assert DigitRun(u, 10) == |digits|;
    assert u[..|digits|] == digits;
    ShowNatValue(m);
  }

  /** `parseInt` reads back what `String` writes, and ignores a suffix that
      does not continue the numeral. */
  lemma ParseIntShowInt(n: int, t: string)
    requires EndsNumeral(t)
    ensures ParseInt(ShowInt(n) + t) == Some(n)
  {
    var m: nat := if n < 0 then -n else n;
    var s := ShowInt(n) + t;
    if n < 0 {
      assert s == ['-'] + (ShowNat(m) + t);
    } else {
      assert s == ShowNat(m) + t;
    }
    assert !IsWhiteSpace(s[0]);
    assert TrimStart(s) == s;
    assert Unsigned(s) == ShowNat(m) + t;
    MagnitudeOfShowNat(m, t);
  }

  lemma FloatMagnitudeOfShowNat(m: nat)
    ensures ParseFloatMagnitude(ShowNat(m)) == Some(m as real)
  {
    var digits := ShowNat(m);
    DigitRunAfterDigits(digits, []);
    assert digits + [] == digits;
    assert DigitRun([], 10) == 0;
    assert DigitRun(digits, 10) == |digits|;
    assert digits[..|digits|] == digits;
    ShowNatValue(m);
    assert DigitsValue([], 10) == 0;
    assert digits[|digits|..] == [];
    assert Exponent([]) == 0;
    assert Scale(0) == 1.0;
  }

  /** `parseFloat` reads back what `String` writes for an integer. */
  lemma ParseFloatShowInt(n: int)
    ensures ParseFloat(ShowInt(n)) == Some(n as real)
  {
    var m: nat := if n < 0 then -n else n;
    var s := ShowInt(n);
    assert !IsWhiteSpace(s[0]);
    assert TrimStart(s) == s;
    assert Unsigned(s) == ShowNat(m);
    FloatMagnitudeOfShowNat(m);
  }

  /** `a + b` on numbers, `NaN` absorbing. */
  function AddReal(a: Option<real>, b: Option<real>): (r: Option<real>)
    ensures r.Some? <==> a.Some? && b.Some?
    ensures r.Some? ==> r.value == a.value + b.value
  {
    if a.Some? && b.Some? then Some(a.value + b.value) else None
  }

  /** `a + b` on integer-valued numbers, `NaN` absorbing: the same operation
      as `AddReal`, on the integer-valued fields. */
  function AddInt(a: Option<int>, b: Option<int>): (r: Option<int>)
    ensures r.Some? <==> a.Some? && b.Some?
    ensures r.Some? ==> r.value == a.value + b.value
  {
    if a.Some? && b.Some? then Some(a.value + b.value) else None
  }
  /** `xs.reduce((sum, x) => sum + x, 0)` on numbers that may be `NaN`. */
  function SumReal(xs: seq<Option<real>>): Option<real>
    decreases |xs|
  {
    if xs == [] then Some(0.0) else AddReal(SumReal(xs[..|xs| - 1]), xs[|xs| - 1])
  }

  /** The same sum on integer-valued numbers. */
  function SumInt(xs: seq<Option<int>>): Option<int>
    decreases |xs|
  {
    if xs == [] then Some(0) else AddInt(SumInt(xs[..|xs| - 1]), xs[|xs| - 1])
  }

  /** Starting a sum at a first value is starting it at 0 and adding. */
  lemma SumRealSingle(x: Option<real>)
    ensures SumReal([x]) == x
  {
    assert [x][..0] == [];
  }

  lemma {:induction false} SumRealAppend(a: seq<Option<real>>, b: seq<Option<real>>)
    ensures SumReal(a + b) == AddReal(SumReal(a), SumReal(b))
    decreases |b|
  {
    if b != [] {
      var b' := b[..|b| - 1];
      assert (a + b)[..|a + b| - 1] == a + b';
      assert (a + b)[|a + b| - 1] == b[|b| - 1];
      SumRealAppend(a, b');
    } else {
      assert a + b == a;
    }
  }

  lemma {:induction false} SumIntAppend(a: seq<Option<int>>, b: seq<Option<int>>)
    ensures SumInt(a + b) == AddInt(SumInt(a), SumInt(b))
    decreases |b|
  {
    if b != [] {
      var b' := b[..|b| - 1];
      assert (a + b)[..|a + b| - 1] == a + b';
      assert (a + b)[|a + b| - 1] == b[|b| - 1];
      SumIntAppend(a, b');
    } else {
      assert a + b == a;
    }
  }

  /** A sum is a number exactly when every term is. */
  lemma {:induction false} SumRealDefined(xs: seq<Option<real>>)
    ensures SumReal(xs).Some? <==> forall i :: 0 <= i < |xs| ==> xs[i].Some?
    decreases |xs|
  {
    if xs != [] {
      SumRealDefined(xs[..|xs| - 1]);
    }
  }

  lemma {:induction false} SumIntDefined(xs: seq<Option<int>>)
    ensures SumInt(xs).Some? <==> forall i :: 0 <= i < |xs| ==> xs[i].Some?
    decreases |xs|
  {
    if xs != [] {
      SumIntDefined(xs[..|xs| - 1]);
    }
  }

  /** A sum of terms between `lo` and `hi` lies between `|xs| * lo` and
      `|xs| * hi`. */
  lemma {:induction false} SumIntBounds(xs: seq<Option<int>>, lo: int, hi: int)
    requires forall i :: 0 <= i < |xs| ==> xs[i].Some? && lo <= xs[i].value <= hi
    ensures SumInt(xs).Some?
    ensures |xs| * lo <= SumInt(xs).value <= |xs| * hi
    decreases |xs|
  {
    if xs != [] {
      SumIntBounds(xs[..|xs| - 1], lo, hi);
      assert (|xs| - 1) * lo + lo == |xs| * lo;
      assert (|xs| - 1) * hi + hi == |xs| * hi;
    }
  }
}
