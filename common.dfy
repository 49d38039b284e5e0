/** Small helpers shared by the puzzle models: an optional value, integer
    helpers, sums, and the decimal reading done by atoi/stoi/stoul. */
module Common {

  datatype Option<T> = None | Some(value: T)
  {
    /** Lets `:-` stop at the first None, like a failed assert. */
    predicate IsFailure()
    {
      None?
    }

    function PropagateFailure<U>(): Option<U>
      requires None?
    {
      None
    }

    function Extract(): T
      requires Some?
    {
      value
    }
  }

  function Abs(x: int): (r: nat)
    ensures r == x || r == -x
  {
    if x < 0 then -x else x
  }

  /** The sign of x, as -1, 0 or +1. */
  function Sign(x: int): (r: int)
    ensures -1 <= r <= 1
    ensures r * x == Abs(x)
    ensures (r == 0) == (x == 0)
  {
    if x == 0 then 0 else if x > 0 then 1 else -1
  }

  function Max(a: int, b: int): (r: int)
    ensures r >= a && r >= b && (r == a || r == b)
  {
    if a >= b then a else b
  }

  function Min(a: int, b: int): (r: int)
    ensures r <= a && r <= b && (r == a || r == b)
  {
    if a <= b then a else b
  }

  /** C++ integer division, truncating toward zero. */
  function CDiv(a: int, b: int): (q: int)
    requires b > 0
    ensures Abs(q) * b <= Abs(a) < (Abs(q) + 1) * b
    ensures a >= 0 ==> q >= 0
    ensures a <= 0 ==> q <= 0
  {
    if a >= 0 then a / b else -((-a) / b)
  }

  /** C++ remainder: takes the sign of a, and a == CDiv(a, b) * b + CRem(a, b). */
  function CRem(a: int, b: int): (r: int)
    requires b > 0
    ensures a == CDiv(a, b) * b + r
    ensures a >= 0 ==> 0 <= r < b
    ensures a < 0 ==> -b < r <= 0
  {
    if a >= 0 then a % b else -((-a) % b)
  }

  /** Euclidean quotient and remainder are pinned down by any quotient
      and remainder in range. */
  lemma DivModUnique(x: int, m: int, q: int, r: int)
    requires m > 0 && 0 <= r < m && x == q * m + r
    ensures x / m == q && x % m == r
  {
    var d := q - x / m;
    assert d * m == q * m - (x / m) * m;
    assert d * m == x % m - r;
    MulBounds(d, m);
  }

  /** A nonzero number of laps is at least one lap long. */
  lemma MulBounds(d: int, m: int)
    requires m > 0
    ensures d >= 1 ==> d * m >= m
    ensures d <= -1 ==> d * m <= -m
  {
    if d >= 1 {
      assert d * m == (d - 1) * m + m;
    } else if d <= -1 {
      assert d * m == -((-d - 1) * m) - m;
    }
  }

  function Pow(base: int, n: nat): int
  {
    if n == 0 then 1 else base * Pow(base, n - 1)
  }

  /** x * n as n additions of x: products that the proofs combine are
      written this way, so that they are reasoned about by induction. */
  function Times(x: nat, n: nat): nat
  {
    if n == 0 then 0 else Times(x, n - 1) + x
  }

  lemma {:induction false} TimesIsProduct(x: nat, n: nat)
    ensures Times(x, n) == x * n
  {
    if n > 0 {
      TimesIsProduct(x, n - 1);
      assert x * (n - 1) + x == x * n;
    }
  }

  lemma TimesOne(x: nat)
    ensures Times(x, 1) == x && Times(x, 0) == 0
  {
  }

  lemma {:induction false} TimesUnit(n: nat)
    ensures Times(1, n) == n && Times(0, n) == 0
  {
    if n > 0 {
      TimesUnit(n - 1);
    }
  }

  lemma {:induction false} TimesDistributes(x: nat, m: nat, n: nat)
    ensures Times(x, m + n) == Times(x, m) + Times(x, n)
    decreases n
  {
    if n > 0 {
      TimesDistributes(x, m, n - 1);
    }
  }

  lemma {:induction false} TimesAssoc(x: nat, y: nat, z: nat)
    ensures Times(Times(x, y), z) == Times(x, Times(y, z))
    decreases z
  {
    if z > 0 {
      TimesAssoc(x, y, z - 1);
      TimesDistributes(x, Times(y, z - 1), y);
    }
  }

  /** Sum of a sequence, accumulated from the front as the loops do. */
  function Sum(s: seq<int>): int
  {
    if s == [] then 0 else Sum(s[..|s| - 1]) + s[|s| - 1]
  }

  lemma {:induction false} SumAppend(a: seq<int>, b: seq<int>)
    ensures Sum(a + b) == Sum(a) + Sum(b)
    decreases |b|
  {
    if b == [] {
      assert a + b == a;
    } else {
      assert (a + b)[..|a + b| - 1] == a + b[..|b| - 1];
      SumAppend(a, b[..|b| - 1]);
    }
  }

  /** Changing one entry changes the sum by the difference. */
  lemma {:induction false} SumUpdate(s: seq<int>, i: nat, v: int)
    requires i < |s|
    ensures Sum(s[i := v]) == Sum(s) - s[i] + v
    decreases |s|
  {
    var n := |s| - 1;
    if i < n {
      assert s[i := v][..n] == s[..n][i := v];
      SumUpdate(s[..n], i, v);
    } else {
      assert s[i := v][..n] == s[..n];
    }
  }

  lemma {:induction false} SumNonNegative(s: seq<int>)
    requires forall i :: 0 <= i < |s| ==> s[i] >= 0
    ensures Sum(s) >= 0
    decreases |s|
  {
    if s != [] {
      SumNonNegative(s[..|s| - 1]);
    }
  }

  lemma SumThree(a: int, b: int, c: int)
    ensures Sum([a, b, c]) == a + b + c
  {
    assert [a][..0] == [];
    assert Sum([a]) == a;
    assert [a, b][..1] == [a];
    assert Sum([a, b]) == a + b;
    assert [a, b, c][..2] == [a, b];
  }

  /** Index of the first occurrence of c in s, or -1 (std::string::npos
      read as a signed value, so that adding one gives 0). */
  function IndexOf(s: string, c: char): (i: int)
    ensures -1 <= i < |s|
    ensures i == -1 <==> c !in s
    ensures i >= 0 ==> s[i] == c && c !in s[..i]
  {
    if s == [] then -1
    else if s[0] == c then 0
    else
      var k := IndexOf(s[1..], c);
      assert s[1..][..if k < 0 then 0 else k] == s[1..1 + (if k < 0 then 0 else k)];
      if k < 0 then -1 else k + 1
  }

  predicate IsDigit(c: char) { '0' <= c <= '9' }

  function DigitValue(c: char): nat
    requires IsDigit(c)
  {
    c as int - '0' as int
  }

  predicate AllDigits(s: string) { forall i :: 0 <= i < |s| ==> IsDigit(s[i]) }

  /** Value of a run of decimal digits, most significant first. */
  function DigitsValue(s: string): nat
    requires AllDigits(s)
  {
    if s == [] then 0 else DigitsValue(s[..|s| - 1]) * 10 + DigitValue(s[|s| - 1])
  }

  /** Length of the run of digits at the front of s. */
  function LeadingDigits(s: string): (n: nat)
    ensures n <= |s| && AllDigits(s[..n])
    ensures n < |s| ==> !IsDigit(s[n])
  {
    if s == [] || !IsDigit(s[0]) then 0
    else
      var k := LeadingDigits(s[1..]);
      assert s[..k + 1] == [s[0]] + s[1..][..k];
      k + 1
  }

  /** C's atoi: skip blanks, an optional sign, then as many digits as
      follow (none gives 0). stoi and stoul read numbers the same way. */
  function Atoi(s: string): int
  {
    if s != [] && s[0] == ' ' then Atoi(s[1..])
    else if s != [] && (s[0] == '-' || s[0] == '+') then
      var t := s[1..];
      var v: int := DigitsValue(t[..LeadingDigits(t)]);
      if s[0] == '-' then -v else v
    else DigitsValue(s[..LeadingDigits(s)])
  }

  /** Decimal spelling of a natural number, without leading zeros. */
  function Decimal(n: nat): (s: string)
    ensures |s| > 0 && AllDigits(s)
    ensures DigitsValue(s) == n
    decreases n
  {
    var last := ['0' + (n % 10) as char];
    if n < 10 then last
    else
      var s := Decimal(n / 10) + last;
      assert s[..|s| - 1] == Decimal(n / 10);
      s
  }

  lemma {:induction false} LeadingDigitsOf(ds: string, rest: string)
    requires AllDigits(ds)
    requires rest == [] || !IsDigit(rest[0])
    ensures LeadingDigits(ds + rest) == |ds|
    decreases |ds|
  {
    if ds != [] {
      assert (ds + rest)[1..] == ds[1..] + rest;
      LeadingDigitsOf(ds[1..], rest);
    }
  }

  /** atoi reads back exactly the digits written before a non-digit. */
  lemma AtoiDigits(ds: string, rest: string)
    requires |ds| > 0 && AllDigits(ds)
    requires rest == [] || !IsDigit(rest[0])
    ensures Atoi(ds + rest) == DigitsValue(ds)
  {
    LeadingDigitsOf(ds, rest);
    assert (ds + rest)[..|ds|] == ds;
  }

  lemma AtoiDecimal(n: nat, rest: string)
    requires rest == [] || !IsDigit(rest[0])
    ensures Atoi(Decimal(n) + rest) == n
  {
    AtoiDigits(Decimal(n), rest);
  }

  /** Slicing a sequence with one more element at the end. */
  lemma SnocSlices<T>(p: seq<T>, x: T, k: nat)
    requires k <= |p|
    ensures (p + [x])[..k] == p[..k] && (p + [x])[k..] == p[k..] + [x]
  {
  }

  lemma AppendAssoc<T>(a: seq<T>, b: seq<T>, c: seq<T>)
    ensures (a + b) + c == a + (b + c)
  {
  }

  /** The elements of a sequence. */
  function Elems<T>(s: seq<T>): set<T>
  {
    set x | x in s
  }

  lemma ElemsAppend<T>(a: seq<T>, b: seq<T>)
    ensures Elems(a + b) == Elems(a) + Elems(b)
  {
  }

  /** std::string's operator<: lexicographic by character. */
  predicate Less(a: string, b: string)
  {
    if a == [] then b != []
    else b != [] && (a[0] < b[0] || (a[0] == b[0] && Less(a[1..], b[1..])))
  }

  lemma {:induction false} LessIrreflexive(a: string)
    ensures !Less(a, a)
    decreases |a|
  {
    if a != [] {
      LessIrreflexive(a[1..]);
    }
  }

  lemma {:induction false} LessTransitive(a: string, b: string, c: string)
    requires Less(a, b) && Less(b, c)
    ensures Less(a, c)
    decreases |a|
  {
    if a != [] && a[0] == b[0] && b[0] == c[0] {
      LessTransitive(a[1..], b[1..], c[1..]);
    }
  }

  lemma {:induction false} LessTotal(a: string, b: string)
    ensures a == b || Less(a, b) || Less(b, a)
    decreases |a|
  {
    if a != [] && b != [] && a[0] == b[0] {
      LessTotal(a[1..], b[1..]);
      if a[1..] == b[1..] {
        assert a == [a[0]] + a[1..] && b == [b[0]] + b[1..];
      }
    }
  }

  /** A std::set<string>: its elements in iteration order, ascending. */
  ghost predicate StrictlySorted(s: seq<string>)
  {
    forall i, j :: 0 <= i < j < |s| ==> Less(s[i], s[j])
  }

  /** std::set::insert. */
  function SetInsert(s: seq<string>, x: string): (r: seq<string>)
    requires StrictlySorted(s)
    ensures StrictlySorted(r) && Elems(r) == Elems(s) + {x}
  {
    if s == [] then [x]
    else if x == s[0] then s
    else if Less(x, s[0]) then
      forall j | 0 < j < |s|
        ensures Less(x, s[j])
      {
        LessTransitive(x, s[0], s[j]);
      }
      [x] + s
    else
      LessTotal(x, s[0]);
      var rest := SetInsert(s[1..], x);
      assert s == [s[0]] + s[1..];
      ElemsAppend([s[0]], s[1..]);
      assert Elems([s[0]]) == {s[0]};
      forall j | 0 <= j < |rest|
        ensures Less(s[0], rest[j])
      {
        assert rest[j] in Elems(rest);
        if rest[j] != x {
          var k :| 0 <= k < |s[1..]| && s[1..][k] == rest[j];
          assert s[k + 1] == rest[j];
        }
      }
      ElemsAppend([s[0]], rest);
      assert Elems([s[0]]) == {s[0]};
      [s[0]] + rest
  }

  /** Sorted sequences hold each element once. */
  lemma SortedDistinct(s: seq<string>, i: int, j: int)
    requires StrictlySorted(s) && 0 <= i < |s| && 0 <= j < |s| && s[i] == s[j]
    ensures i == j
  {
    if i < j {
      LessIrreflexive(s[i]);
    } else if j < i {
      LessIrreflexive(s[j]);
    }
  }
}
