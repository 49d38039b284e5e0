/** Rucksack reorganisation: each line is a pack of items (letters).
    part1 finds the item the two halves of a pack share; part2 finds the
    badge item common to each group of three packs. The answer is the
    sum of the items' priorities. */
module Rucksack {
  import opened Common

  /** The items priority accepts: its assert admits only letters. */
  predicate IsItem(c: char)
  {
    ('A' <= c <= 'Z') || ('a' <= c <= 'z')
  }

  predicate AllItems(s: string)
  {
    forall i :: 0 <= i < |s| ==> IsItem(s[i])
  }

  /** priority: 'a'..'z' are 1..26 and 'A'..'Z' are 27..52. */
  function Priority(item: char): (p: int)
    requires IsItem(item)
    ensures 'a' <= item <= 'z' ==> 1 <= p <= 26 && p == item as int - 'a' as int + 1
    ensures 'A' <= item <= 'Z' ==> 27 <= p <= 52 && p == item as int - 'A' as int + 27
  {
    if 'A' <= item <= 'Z' then item as int - 'A' as int + 27
    else item as int - 'a' as int + 1
  }

  /** Different items have different priorities. */
  lemma PriorityInjective(x: char, y: char)
    requires IsItem(x) && IsItem(y)
    ensures Priority(x) == Priority(y) <==> x == y
  {
  }

  // ---------------------------------------------------------------- part1

  /** find_first_of: the first position of s holding a character of t. */
  function FindFirstOf(s: string, t: string): (r: Option<nat>)
    ensures r.Some? ==> (r.value < |s| && s[r.value] in t &&
      forall j :: 0 <= j < r.value ==> s[j] !in t)
    ensures r.None? <==> forall j :: 0 <= j < |s| ==> s[j] !in t
  {
    if s == [] then None
    else if s[0] in t then Some(0)
    else match FindFirstOf(s[1..], t)
      case None => None
      case Some(i) => Some(i + 1)
  }

  /** The two compartments of a pack. */
  function FirstHalf(pack: string): string
  {
    pack[..|pack| / 2]
  }

  function SecondHalf(pack: string): string
  {
    pack[|pack| / 2..]
  }

  /** What part1 asserts of a pack: it splits evenly, its halves share an
      item, and it holds only letters. */
  predicate SplitPack(pack: string)
  {
    |pack| % 2 == 0 && AllItems(pack) &&
    FindFirstOf(FirstHalf(pack), SecondHalf(pack)).Some?
  }

  /** The item part1 picks from a pack. */
  function SharedItem(pack: string): (c: char)
    requires SplitPack(pack)
    ensures c in FirstHalf(pack) && c in SecondHalf(pack) && IsItem(c)
  {
    var i := FindFirstOf(FirstHalf(pack), SecondHalf(pack)).value;
    assert FirstHalf(pack)[i] == pack[i];
    FirstHalf(pack)[i]
  }

  /** The pick is the earliest item of the first half that the second
      half also holds. */
  lemma SharedItemIsFirst(pack: string, j: int)
    requires SplitPack(pack)
    requires 0 <= j < |pack| / 2 && pack[j] in SecondHalf(pack)
    ensures exists i :: 0 <= i <= j && pack[i] == SharedItem(pack)
  {
    var i := FindFirstOf(FirstHalf(pack), SecondHalf(pack)).value;
    assert FirstHalf(pack)[j] == pack[j];
    assert i <= j && pack[i] == SharedItem(pack);
  }

  /** The part1 total over a list of packs. */
  function SharedTotal(packs: seq<string>): int
    requires forall k :: 0 <= k < |packs| ==> SplitPack(packs[k])
  {
    if packs == [] then 0
    else SharedTotal(packs[..|packs| - 1]) + Priority(SharedItem(packs[|packs| - 1]))
  }

  /** Every pack adds between 1 and 52. */
  lemma {:induction false} SharedTotalBounds(packs: seq<string>)
    requires forall k :: 0 <= k < |packs| ==> SplitPack(packs[k])
    ensures |packs| <= SharedTotal(packs) <= 52 * |packs|
    decreases |packs|
  {
    if packs != [] {
      SharedTotalBounds(packs[..|packs| - 1]);
    }
  }

  /** part1: the loop over the packs adding each shared item's priority. */
  method Part1(packs: seq<string>) returns (total: int)
    requires forall k :: 0 <= k < |packs| ==> SplitPack(packs[k])
    ensures total == SharedTotal(packs)
    ensures |packs| <= total <= 52 * |packs|
  {
    total := 0;
    for k := 0 to |packs|
      invariant total == SharedTotal(packs[..k])
    {
      assert packs[..k + 1][..k] == packs[..k];
      var pack := packs[k];
      var half := |pack| / 2;
      var compartment1 := pack[..half];
      var compartment2 := pack[half..];
      var common := FindFirstOf(compartment1, compartment2);
      total := total + Priority(compartment1[common.value]);
    }
    assert packs[..|packs|] == packs;
    SharedTotalBounds(packs);
  }

  // ---------------------------------------------------------------- part2

  /** A pack in non-decreasing order, as std::sort leaves it. */
  predicate Sorted(s: string)
  {
    forall i, j :: 0 <= i < j < |s| ==> s[i] <= s[j]
  }

  /** Inserting one character into a sorted string. */
  function InsertItem(s: string, x: char): (r: string)
    ensures multiset(r) == multiset(s) + multiset{x}
  {
    if s == [] then [x]
    else if x <= s[0] then [x] + s
    else
      assert s == [s[0]] + s[1..];
      [s[0]] + InsertItem(s[1..], x)
  }

  /** Every item of the insertion is x or an item of s. */
  lemma InsertItemHolds(s: string, x: char, i: int)
    requires 0 <= i < |InsertItem(s, x)|
    ensures InsertItem(s, x)[i] == x || InsertItem(s, x)[i] in s
  {
    var r := InsertItem(s, x);
    assert r[i] in multiset(s) + multiset{x};
  }

  lemma {:induction false} InsertItemSorted(s: string, x: char)
    requires Sorted(s)
    ensures Sorted(InsertItem(s, x))
    decreases |s|
  {
    if s != [] && x > s[0] {
      var t := InsertItem(s[1..], x);
      InsertItemSorted(s[1..], x);
      forall i | 0 <= i < |t|
        ensures s[0] <= t[i]
      {
        InsertItemHolds(s[1..], x, i);
      }
    }
  }

  /** sort on a pack: the sorted permutation of its items. */
  function SortPack(s: string): (r: string)
    ensures Sorted(r) && multiset(r) == multiset(s)
  {
    if s == [] then []
    else
      assert s == s[..|s| - 1] + [s[|s| - 1]];
      InsertItemSorted(SortPack(s[..|s| - 1]), s[|s| - 1]);
      InsertItem(SortPack(s[..|s| - 1]), s[|s| - 1])
  }

  /** Sorting keeps the items a pack holds. */
  lemma SortPackHolds(s: string, c: char)
    ensures c in SortPack(s) <==> c in s
  {
    assert c in multiset(SortPack(s)) <==> c in multiset(s);
  }

  /** c is an item of all three packs. */
  predicate CommonItem(c: char, a: string, b: string, d: string)
  {
    c in a && c in b && c in d
  }

  /** The largest item common to three packs, if there is one. */
  function LargestCommon(a: string, b: string, d: string): (r: Option<char>)
    ensures r.Some? ==> (CommonItem(r.value, a, b, d) &&
      forall x :: CommonItem(x, a, b, d) ==> x <= r.value)
    ensures r.None? ==> forall x :: !CommonItem(x, a, b, d)
  {
    if a == [] then None
    else
      var p := a[..|a| - 1];
      var x := a[|a| - 1];
      assert a == p + [x];
      var best := LargestCommon(p, b, d);
      assert forall y :: CommonItem(y, a, b, d) ==> CommonItem(y, p, b, d) || y == x;
      if x in b && x in d && (best.None? || best.value <= x) then Some(x)
      else best
  }

  /** The badge is the same whichever packs of a group are sorted. */
  lemma LargestCommonSorted(a: string, b: string, d: string)
    ensures LargestCommon(SortPack(a), SortPack(b), SortPack(d)) == LargestCommon(a, b, d)
  {
    var l1 := LargestCommon(SortPack(a), SortPack(b), SortPack(d));
    var l2 := LargestCommon(a, b, d);
    forall x
      ensures CommonItem(x, SortPack(a), SortPack(b), SortPack(d)) <==> CommonItem(x, a, b, d)
    {
      SortPackHolds(a, x);
      SortPackHolds(b, x);
      SortPackHolds(d, x);
    }
    if l1.Some? && l2.Some? {
      assert l1.value <= l2.value && l2.value <= l1.value;
    }
  }

  /** One of the inner while loops of part2: pop p from the back while its
      back item is larger than the back of q or of r. An item p[k] no
      larger than those backs is never popped, since every popped item is
      larger than one of them. */
  method PopLarger(p: string, q: string, r: string, ghost k: nat) returns (p': string)
    requires k < |p| && q != [] && r != []
    requires p[k] <= q[|q| - 1] && p[k] <= r[|r| - 1]
    ensures |p'| <= |p| && p' == p[..|p'|] && k < |p'|
    ensures p'[|p'| - 1] <= q[|q| - 1] && p'[|p'| - 1] <= r[|r| - 1]
  {
    p' := p;
    while p'[|p'| - 1] > q[|q| - 1] || p'[|p'| - 1] > r[|r| - 1]
      invariant |p'| <= |p| && p' == p[..|p'|] && k < |p'|
      decreases |p'|
    {
      p' := p'[..|p'| - 1];
    }
  }

  /** A pass of the three inner loops pops something unless the backs
      already agree. */
  lemma RoundShrinks(p1: string, p2: string, p3: string, q1: string, q2: string, q3: string)
    requires |q1| <= |p1| && q1 == p1[..|q1|] && q1 != []
    requires |q2| <= |p2| && q2 == p2[..|q2|] && q2 != []
    requires |q3| <= |p3| && q3 == p3[..|q3|] && q3 != []
    requires q1[|q1| - 1] <= p2[|p2| - 1] && q1[|q1| - 1] <= p3[|p3| - 1]
    requires q2[|q2| - 1] <= q1[|q1| - 1] && q2[|q2| - 1] <= p3[|p3| - 1]
    requires q3[|q3| - 1] <= q1[|q1| - 1] && q3[|q3| - 1] <= q2[|q2| - 1]
    requires p1[|p1| - 1] != p2[|p2| - 1] || p1[|p1| - 1] != p3[|p3| - 1]
    ensures |q1| + |q2| + |q3| < |p1| + |p2| + |p3|
  {
  }

  /** The body of the outer while loop of part2: the three inner loops in
      turn. The item at k1, k2 and k3 of the sorted packs stays in each. */
  method Round(p1: string, p2: string, p3: string, ghost k1: nat, ghost k2: nat, ghost k3: nat)
    returns (q1: string, q2: string, q3: string)
    requires Sorted(p1) && Sorted(p2) && Sorted(p3)
    requires k1 < |p1| && k2 < |p2| && k3 < |p3| && p1[k1] == p2[k2] == p3[k3]
    requires p1[|p1| - 1] != p2[|p2| - 1] || p1[|p1| - 1] != p3[|p3| - 1]
    ensures |q1| <= |p1| && q1 == p1[..|q1|] && k1 < |q1| && Sorted(q1)
    ensures |q2| <= |p2| && q2 == p2[..|q2|] && k2 < |q2| && Sorted(q2)
    ensures |q3| <= |p3| && q3 == p3[..|q3|] && k3 < |q3| && Sorted(q3)
    ensures |q1| + |q2| + |q3| < |p1| + |p2| + |p3|
  {
    q1 := PopLarger(p1, p2, p3, k1);
    assert q1[k1] <= q1[|q1| - 1] by {
      assert q1[k1] == p1[k1] && q1[|q1| - 1] == p1[|q1| - 1];
    }
    q2 := PopLarger(p2, q1, p3, k2);
    assert q2[k2] <= q2[|q2| - 1] by {
      assert q2[k2] == p2[k2] && q2[|q2| - 1] == p2[|q2| - 1];
    }
    q3 := PopLarger(p3, q1, q2, k3);
    RoundShrinks(p1, p2, p3, q1, q2, q3);
  }

  /** The outer while loop of part2 on one group of sorted packs: run the
      three inner loops until the three backs agree. The badge m stays in
      every pack (at positions k1, k2, k3), so the common back is at least
      m, and being shared it is at most m. */
  method Badge(pack1: string, pack2: string, pack3: string) returns (c: char)
    requires Sorted(pack1) && Sorted(pack2) && Sorted(pack3)
    requires LargestCommon(pack1, pack2, pack3).Some?
    ensures c == LargestCommon(pack1, pack2, pack3).value
  {
    ghost var m := LargestCommon(pack1, pack2, pack3).value;
    ghost var k1 :| 0 <= k1 < |pack1| && pack1[k1] == m;
    ghost var k2 :| 0 <= k2 < |pack2| && pack2[k2] == m;
    ghost var k3 :| 0 <= k3 < |pack3| && pack3[k3] == m;
    var p1, p2, p3 := pack1, pack2, pack3;
    while p1[|p1| - 1] != p2[|p2| - 1] || p1[|p1| - 1] != p3[|p3| - 1]
      invariant k1 < |p1| <= |pack1| && p1 == pack1[..|p1|] && Sorted(p1)
      invariant k2 < |p2| <= |pack2| && p2 == pack2[..|p2|] && Sorted(p2)
      invariant k3 < |p3| <= |pack3| && p3 == pack3[..|p3|] && Sorted(p3)
      decreases |p1| + |p2| + |p3|
    {
      p1, p2, p3 := Round(p1, p2, p3, k1, k2, k3);
    }
    c := p1[|p1| - 1];
    assert CommonItem(c, pack1, pack2, pack3) by {
      assert pack1[|p1| - 1] == c && pack2[|p2| - 1] == c && pack3[|p3| - 1] == c;
    }
    assert p1[k1] <= c;
  }

  /** What part2 asserts and relies on: the packs come in threes, hold
      only letters, and each group shares an item. */
  predicate Grouped(packs: seq<string>)
  {
    |packs| % 3 == 0 &&
    (forall k :: 0 <= k < |packs| ==> AllItems(packs[k])) &&
    forall i :: 0 <= i < |packs| && i % 3 == 0 ==> GroupShares(packs, i)
  }

  /** The three packs from position i on share an item. */
  predicate GroupShares(packs: seq<string>, i: int)
  {
    0 <= i && i + 2 < |packs| && LargestCommon(packs[i], packs[i + 1], packs[i + 2]).Some?
  }

  /** The badge of the group starting at pack i: its largest common item. */
  function GroupBadge(packs: seq<string>, i: nat): (c: char)
    requires Grouped(packs) && i % 3 == 0 && i < |packs|
    ensures IsItem(c) && CommonItem(c, packs[i], packs[i + 1], packs[i + 2])
  {
    assert GroupShares(packs, i);
    var c := LargestCommon(packs[i], packs[i + 1], packs[i + 2]).value;
    assert IsItem(c) by {
      var j :| 0 <= j < |packs[i]| && packs[i][j] == c;
    }
    c
  }

  /** The part2 total over the groups before pack i. */
  function BadgeTotal(packs: seq<string>, i: nat): int
    requires Grouped(packs) && i % 3 == 0 && i <= |packs|
  {
    if i == 0 then 0 else BadgeTotal(packs, i - 3) + Priority(GroupBadge(packs, i - 3))
  }

  /** Each group adds between 1 and 52. */
  lemma {:induction false} BadgeTotalBounds(packs: seq<string>, i: nat)
    requires Grouped(packs) && i % 3 == 0 && i <= |packs|
    ensures i <= 3 * BadgeTotal(packs, i) <= 52 * i
    decreases i
  {
    if i > 0 {
      BadgeTotalBounds(packs, i - 3);
    }
  }

  /** The first loop of part2: sort each pack in place. */
  method SortAll(packs: seq<string>) returns (sorted: seq<string>)
    ensures |sorted| == |packs|
    ensures forall j :: 0 <= j < |packs| ==> sorted[j] == SortPack(packs[j])
  {
    sorted := packs;
    for k := 0 to |sorted|
      invariant |sorted| == |packs|
      invariant forall j :: 0 <= j < k ==> sorted[j] == SortPack(packs[j])
      invariant forall j :: k <= j < |packs| ==> sorted[j] == packs[j]
    {
      sorted := sorted[k := SortPack(sorted[k])];
    }
  }

  /** After sorting, the group at i still has a badge, and the same one. */
  lemma SortedGroup(packs: seq<string>, sorted: seq<string>, i: nat)
    requires Grouped(packs) && i % 3 == 0 && i < |packs| && |sorted| == |packs|
    requires forall j :: 0 <= j < |packs| ==> sorted[j] == SortPack(packs[j])
    ensures Sorted(sorted[i]) && Sorted(sorted[i + 1]) && Sorted(sorted[i + 2])
    ensures LargestCommon(sorted[i], sorted[i + 1], sorted[i + 2]) == Some(GroupBadge(packs, i))
  {
    assert GroupShares(packs, i);
    LargestCommonSorted(packs[i], packs[i + 1], packs[i + 2]);
  }

  /** Groups of three tile a length that is a multiple of 3. */
  lemma NextGroup(i: int, n: int)
    requires i % 3 == 0 && n % 3 == 0 && 0 <= i < n
    ensures i + 3 <= n && (i + 3) % 3 == 0
  {
  }

  /** part2: sort every pack, then add up each group's badge priority. */
  method Part2(packs: seq<string>) returns (total: int)
    requires Grouped(packs)
    ensures total == BadgeTotal(packs, |packs|)
    ensures |packs| <= 3 * total <= 52 * |packs|
  {
    var sorted := SortAll(packs);
    total := 0;
    var i := 0;
    while i < |sorted|
      invariant i % 3 == 0 && 0 <= i <= |packs|
      invariant total == BadgeTotal(packs, i)
    {
      NextGroup(i, |packs|);
      SortedGroup(packs, sorted, i);
      var badge := Badge(sorted[i], sorted[i + 1], sorted[i + 2]);
      total := total + Priority(badge);
      i := i + 3;
    }
    BadgeTotalBounds(packs, |packs|);
  }
}
