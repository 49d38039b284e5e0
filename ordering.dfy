/** std::sort on integers. The library's algorithm is not part of the
    programs; what they rely on is that the result is the sorted
    permutation of the input, and a sequence of integers has only one. */
module Ordering {

  predicate SortedDesc(s: seq<int>)
  {
    forall i, j :: 0 <= i < j < |s| ==> s[i] >= s[j]
  }

  predicate SortedAsc(s: seq<int>)
  {
    forall i, j :: 0 <= i < j < |s| ==> s[i] <= s[j]
  }

  /** The elements of s, last first. */
  function Reverse<T>(s: seq<T>): (r: seq<T>)
    ensures |r| == |s|
  {
    if s == [] then [] else Reverse(s[1..]) + [s[0]]
  }

  /** Position i of the reversal holds position |s| - 1 - i of s. */
  lemma {:induction false} ReverseAt<T>(s: seq<T>)
    ensures forall i :: 0 <= i < |s| ==> Reverse(s)[i] == s[|s| - 1 - i]
    decreases |s|
  {
    if s != [] {
      ReverseAt(s[1..]);
    }
  }

  lemma ReverseCons<T>(x: T, s: seq<T>)
    ensures Reverse([x] + s) == Reverse(s) + [x]
  {
    assert ([x] + s)[1..] == s;
  }

  lemma {:induction false} ReverseSnoc<T>(s: seq<T>, x: T)
    ensures Reverse(s + [x]) == [x] + Reverse(s)
    decreases |s|
  {
    if s != [] {
      assert (s + [x])[1..] == s[1..] + [x];
      ReverseSnoc(s[1..], x);
    }
  }

  lemma {:induction false} ReverseMultiset<T>(s: seq<T>)
    ensures multiset(Reverse(s)) == multiset(s)
    decreases |s|
  {
    if s != [] {
      ReverseMultiset(s[1..]);
      assert s == [s[0]] + s[1..];
    }
  }

  /** Puts x in front of the first element it is at least as large as. */
  function InsertDesc(s: seq<int>, x: int): (r: seq<int>)
    ensures |r| == |s| + 1 && multiset(r) == multiset(s) + multiset{x}
  {
    if s == [] || x >= s[0] then [x] + s
    else
      assert s == [s[0]] + s[1..];
      [s[0]] + InsertDesc(s[1..], x)
  }

  lemma {:induction false} InsertDescSorted(s: seq<int>, x: int)
    requires SortedDesc(s)
    ensures SortedDesc(InsertDesc(s, x))
    decreases |s|
  {
    if s != [] && x < s[0] {
      var rest := InsertDesc(s[1..], x);
      InsertDescSorted(s[1..], x);
      forall k | 0 <= k < |rest|
        ensures rest[k] <= s[0]
      {
        assert rest[k] in multiset(rest);
        if rest[k] != x {
          assert rest[k] in multiset(s[1..]);
          var m :| 0 <= m < |s[1..]| && s[1..][m] == rest[k];
          assert s[m + 1] == rest[k];
        }
      }
    }
  }

  /** The elements of s, largest first (std::sort with greater()). */
  function SortDesc(s: seq<int>): (r: seq<int>)
    ensures |r| == |s| && multiset(r) == multiset(s)
  {
    if s == [] then []
    else
      assert s == s[..|s| - 1] + [s[|s| - 1]];
      InsertDesc(SortDesc(s[..|s| - 1]), s[|s| - 1])
  }

  lemma {:induction false} SortDescSorted(s: seq<int>)
    ensures SortedDesc(SortDesc(s))
    decreases |s|
  {
    if s != [] {
      SortDescSorted(s[..|s| - 1]);
      InsertDescSorted(SortDesc(s[..|s| - 1]), s[|s| - 1]);
    }
  }

  /** The elements of s, smallest first (std::sort). */
  function SortAsc(s: seq<int>): (r: seq<int>)
    ensures |r| == |s| && multiset(r) == multiset(s) && SortedAsc(r)
  {
    SortDescSorted(s);
    ReverseMultiset(SortDesc(s));
    ReverseAt(SortDesc(s));
    Reverse(SortDesc(s))
  }

  /** The head of a descending sequence is its largest element. */
  lemma HeadIsLargest(s: seq<int>, x: int)
    requires SortedDesc(s) && x in multiset(s)
    ensures s != [] && x <= s[0]
  {
    var k :| 0 <= k < |s| && s[k] == x;
  }

  /** A multiset has one descending arrangement: any two sorted
      permutations of each other are equal. */
  lemma {:induction false} SortedDescUnique(a: seq<int>, b: seq<int>)
    requires SortedDesc(a) && SortedDesc(b) && multiset(a) == multiset(b)
    ensures a == b
    decreases |a|
  {
    if a != [] {
      assert a[0] in multiset(a);
      HeadIsLargest(b, a[0]);
      HeadIsLargest(a, b[0]);
      assert a == [a[0]] + a[1..] && b == [b[0]] + b[1..];
      assert multiset(a) == multiset{a[0]} + multiset(a[1..]);
      assert multiset(b) == multiset{b[0]} + multiset(b[1..]);
      assert a[0] == b[0];
      assert multiset(a[1..]) == multiset(a) - multiset{a[0]};
      assert multiset(b[1..]) == multiset(b) - multiset{b[0]};
      SortedDescUnique(a[1..], b[1..]);
    } else {
      assert |b| == |multiset(b)| == 0;
    }
  }

  /** Read from the back, an ascending sequence is descending. */
  lemma ReverseAscIsDesc(s: seq<int>)
    requires SortedAsc(s)
    ensures SortedDesc(Reverse(s))
  {
    ReverseAt(s);
  }

  /** So the ascending sort read backwards is the descending sort. */
  lemma SortAscReversed(s: seq<int>)
    ensures Reverse(SortAsc(s)) == SortDesc(s)
  {
    var r := Reverse(SortAsc(s));
    ReverseAscIsDesc(SortAsc(s));
    ReverseMultiset(SortAsc(s));
    SortDescSorted(s);
    SortedDescUnique(r, SortDesc(s));
  }

  /** The n largest elements of s, each counted as often as it occurs. */
  function Largest(s: seq<int>, n: nat): (r: seq<int>)
    requires n <= |s|
    ensures |r| == n && multiset(r) <= multiset(s)
  {
    var d := SortDesc(s);
    assert d == d[..n] + d[n..];
    d[..n]
  }

  /** Nothing left out of Largest is larger than anything in it. */
  lemma LargestDominates(s: seq<int>, n: nat, x: int, y: int)
    requires n <= |s|
    requires x in multiset(Largest(s, n))
    requires y in multiset(s) - multiset(Largest(s, n))
    ensures y <= x
  {
    var d := SortDesc(s);
    SortDescSorted(s);
    assert d == d[..n] + d[n..];
    assert multiset(s) == multiset(d[..n]) + multiset(d[n..]);
    assert x in d[..n] && y in d[n..];
    var i :| 0 <= i < n && d[..n][i] == x;
    var j :| 0 <= j < |d| - n && d[n..][j] == y;
    assert d[i] == x && d[n + j] == y;
  }
}
