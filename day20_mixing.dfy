/** Grove positioning system: the numbers of the encrypted file sit in a
    circular list and are mixed, each moved forward (or backward, when
    negative) as many places as its value, in the order they were read.
    The answer sums the numbers 1000, 2000 and 3000 places after the 0. */
module GrovePositioning {
  import opened Common

  /** A list node: the place in the input of the number it holds (the
      iterator mixing_order keeps for it) and the number. */
  datatype Item = Item(id: nat, value: int)

  function Remove(l: seq<Item>, p: nat): (r: seq<Item>)
    requires p < |l|
    ensures |r| == |l| - 1
  {
    l[..p] + l[p + 1..]
  }

  function Insert(l: seq<Item>, j: nat, x: Item): (r: seq<Item>)
    requires j <= |l|
    ensures |r| == |l| + 1 && r[j] == x
  {
    l[..j] + [x] + l[j..]
  }

  /** The inserted item taken out again leaves the list it went into. */
  lemma RemoveInsert(l: seq<Item>, j: nat, x: Item)
    requires j <= |l|
    ensures Remove(Insert(l, j, x), j) == l
  {
    assert Insert(l, j, x)[..j] == l[..j];
    assert Insert(l, j, x)[j + 1..] == l[j..];
  }

  /** Taking an item out and putting it back keeps the multiset. */
  lemma ReinsertKeeps(l: seq<Item>, p: nat, j: nat)
    requires p < |l| && j <= |l| - 1
    ensures multiset(Insert(Remove(l, p), j, l[p])) == multiset(l)
  {
    var r := Remove(l, p);
    assert r[..j] + r[j..] == r;
    assert l[..p] + [l[p]] + l[p + 1..] == l;
    calc {
      multiset(Insert(r, j, l[p]));
      multiset(r[..j]) + multiset{l[p]} + multiset(r[j..]);
      multiset(r) + multiset{l[p]};
      multiset(l[..p]) + multiset(l[p + 1..]) + multiset{l[p]};
      multiset(l);
    }
  }

  /** The items' iterators. */
  function Ids(l: seq<Item>): set<nat>
  {
    set x | x in l :: x.id
  }

  /** Where an iterator points: the first item with that id. */
  function Position(l: seq<Item>, id: nat): (p: nat)
    requires id in Ids(l)
    ensures p < |l| && l[p].id == id
    ensures forall i :: 0 <= i < p ==> l[i].id != id
  {
    if l[0].id == id then 0
    else
      assert id in Ids(l[1..]) by {
        var x :| x in l && x.id == id;
        var i :| 0 <= i < |l| && l[i] == x;
        assert i > 0 && l[1..][i - 1] == x;
      }
      Position(l[1..], id) + 1
  }

  // --------------------------------------------------------------- shift

  /** The shift count shift computes for a value, as written: a negative
      value becomes szm1 minus the remainder of its magnitude. */
  function ShiftCount(v: int, szm1: int): (s: int)
    requires szm1 > 0
    ensures 0 <= s <= szm1
    ensures s == szm1 <==> v < 0 && (-v) % szm1 == 0
  {
    if v < 0 then szm1 - (-v) % szm1 else v % szm1
  }

  /** How many laps of szm1 the count as written lies from the value. */
  function Laps(v: int, szm1: int): int
    requires szm1 > 0
  {
    if v < 0 then (-v) / szm1 + 1 else -(v / szm1)
  }

  /** One lap less keeps a multiple a multiple. */
  lemma LapBack(x: int, m: int)
    requires m > 0 && x % m == 0
    ensures (x - m) % m == 0
  {
    assert x == (x / m) * m + x % m;
    assert (x / m - 1) * m == (x / m) * m - m;
    DivModUnique(x - m, m, x / m - 1, 0);
  }

  /** The only multiple of m in 0 .. m - 1 is 0: a count in range that
      differs from a multiple by a multiple is 0. */
  lemma MultipleInRange(s: int, v: int, m: int)
    requires m > 0 && 0 <= s < m && (s - v) % m == 0 && v % m == 0
    ensures s == 0
  {
    var k := (s - v) / m + v / m;
    assert s - v == ((s - v) / m) * m + (s - v) % m;
    assert v == (v / m) * m + v % m;
    assert k * m == ((s - v) / m) * m + (v / m) * m;
    DivModUnique(s, m, k, 0);
    DivModUnique(s, m, 0, s);
  }

  /** The count as written is the value moved into 0 .. szm1, a whole
      number of laps of szm1 away. */
  lemma ShiftCountLaps(v: int, szm1: int)
    requires szm1 > 0
    ensures ShiftCount(v, szm1) - v == Laps(v, szm1) * szm1
  {
    if v < 0 {
      var q := (-v) / szm1;
      assert -v == q * szm1 + (-v) % szm1;
      assert (q + 1) * szm1 == q * szm1 + szm1;
    } else {
      assert v == (v / szm1) * szm1 + v % szm1;
      assert -(v / szm1) * szm1 == -((v / szm1) * szm1);
    }
  }

  /** Where next stands after the walk of s + 1 steps from p, wrapping
      past the end to the front. */
  function Walk(p: nat, k: nat, n: nat): nat
  {
    if p + k < n then p + k else p + k - n
  }

  /** The list after erase(it) and insert(next, n): the item at p is put
      back just before the item at q. */
  function Reinsert(l: seq<Item>, p: nat, q: nat): seq<Item>
    requires p < |l| && q < |l| && q != p
  {
    Insert(Remove(l, p), if q > p then q - 1 else q, l[p])
  }

  /** shift as written: None when the walk comes back to the moved item
      itself, which is then erased before the insert uses it. */
  function ShiftAsWritten(l: seq<Item>, id: nat): Option<seq<Item>>
    requires |l| >= 2 && id in Ids(l)
  {
    var p := Position(l, id);
    var s := ShiftCount(l[p].value, |l| - 1);
    if s == 0 then Some(l)
    else
      var q := Walk(p, s + 1, |l|);
      if q == p then None else Some(Reinsert(l, p, q))
  }

  /** The walk comes back to the moved item exactly for a negative value
      whose magnitude is a multiple of the list size less one. */
  lemma AsWrittenFails(l: seq<Item>, id: nat)
    requires |l| >= 2 && id in Ids(l)
    ensures ShiftAsWritten(l, id) == None <==>
      l[Position(l, id)].value < 0 && (-l[Position(l, id)].value) % (|l| - 1) == 0
  {
  }

  /** Two numbers, 0 and -1: moving -1 walks twice round the two nodes
      and back onto itself. */
  lemma AsWrittenFailsOnTwo()
    ensures ShiftAsWritten([Item(0, 0), Item(1, -1)], 1) == None
  {
    var l := [Item(0, 0), Item(1, -1)];
    assert l[1] in l;
    assert Position(l, 1) == 1;
  }

  /** The corrected shift count: the one as written reduced once more
      modulo szm1, so a multiple of szm1 does not move. */
  function FixedCount(v: int, szm1: int): (s: int)
    requires szm1 > 0
    ensures 0 <= s < szm1 && (s - v) % szm1 == 0
  {
    var s := ShiftCount(v, szm1);
    var laps := Laps(v, szm1);
    ShiftCountLaps(v, szm1);
    if s == szm1 then
      assert 0 - v == (laps - 1) * szm1;
      DivModUnique(0 - v, szm1, laps - 1, 0);
      0
    else
      DivModUnique(s - v, szm1, laps, 0);
      s
  }

  /** The item at p moved s places on: walked past s + 1 items and put
      back before the one reached. */
  function MoveBy(l: seq<Item>, p: nat, s: nat): seq<Item>
    requires p < |l| && s < |l| - 1
  {
    if s == 0 then l else Reinsert(l, p, Walk(p, s + 1, |l|))
  }

  /** shift, corrected. */
  function ShiftSpec(l: seq<Item>, id: nat): seq<Item>
    requires |l| >= 2 && id in Ids(l)
  {
    var p := Position(l, id);
    MoveBy(l, p, FixedCount(l[p].value, |l| - 1))
  }

  /** Where the corrected shift puts the moved item. */
  function NewPosition(l: seq<Item>, id: nat): (j: nat)
    requires |l| >= 2 && id in Ids(l)
    ensures j < |l|
  {
    var p := Position(l, id);
    var s := FixedCount(l[p].value, |l| - 1);
    if s == 0 then p
    else
      var q := Walk(p, s + 1, |l|);
      if q > p then q - 1 else q
  }

  /** The fix changes only the cases the source leaves undefined. */
  lemma FixAgrees(l: seq<Item>, id: nat)
    requires |l| >= 2 && id in Ids(l)
    ensures ShiftAsWritten(l, id).Some? ==> ShiftAsWritten(l, id).value == ShiftSpec(l, id)
  {
  }

  /** Mixing one number keeps the items. */
  lemma ShiftKeeps(l: seq<Item>, id: nat)
    requires |l| >= 2 && id in Ids(l)
    ensures |ShiftSpec(l, id)| == |l| && multiset(ShiftSpec(l, id)) == multiset(l)
  {
    var p := Position(l, id);
    var s := FixedCount(l[p].value, |l| - 1);
    if s != 0 {
      var q := Walk(p, s + 1, |l|);
      var j := if q > p then q - 1 else q;
      assert ShiftSpec(l, id) == Insert(Remove(l, p), j, l[p]);
      ReinsertKeeps(l, p, j);
    }
  }

  /** What mixing one number means: the item moves to a new place and the
      other items keep their order. */
  lemma ShiftMoves(l: seq<Item>, id: nat)
    requires |l| >= 2 && id in Ids(l)
    ensures |ShiftSpec(l, id)| == |l|
    ensures ShiftSpec(l, id)[NewPosition(l, id)] == l[Position(l, id)]
    ensures Remove(ShiftSpec(l, id), NewPosition(l, id)) == Remove(l, Position(l, id))
  {
    var p := Position(l, id);
    var s := FixedCount(l[p].value, |l| - 1);
    if s != 0 {
      var q := Walk(p, s + 1, |l|);
      RemoveInsert(Remove(l, p), if q > p then q - 1 else q, l[p]);
    }
  }

  /** The new place is as many steps on, in the circle of the other
      |l| - 1 items, as the item's value. */
  lemma ShiftDistance(l: seq<Item>, id: nat)
    requires |l| >= 2 && id in Ids(l)
    ensures (NewPosition(l, id) - Position(l, id) - l[Position(l, id)].value) % (|l| - 1) == 0
  {
    var p := Position(l, id);
    var v := l[p].value;
    var s := FixedCount(v, |l| - 1);
    if s != 0 {
      var q := Walk(p, s + 1, |l|);
      if q > p {
        assert NewPosition(l, id) - p - v == s - v;
      } else {
        assert NewPosition(l, id) - p - v == s - v - (|l| - 1);
        LapBack(s - v, |l| - 1);
      }
    } else {
      DivModUnique(0, |l| - 1, 0, 0);
    }
  }

  /** A value that is a multiple of the list size less one does not
      move. */
  lemma FullCircleStays(l: seq<Item>, id: nat)
    requires |l| >= 2 && id in Ids(l) && l[Position(l, id)].value % (|l| - 1) == 0
    ensures ShiftSpec(l, id) == l
  {
    var v := l[Position(l, id)].value;
    var s := FixedCount(v, |l| - 1);
    MultipleInRange(s, v, |l| - 1);
  }

  /** The count shift starts from, corrected: a count of a whole lap is
      brought down to 0. */
  method Count(v: int, szm1: int) returns (shifts: int)
    requires szm1 > 0
    ensures shifts == FixedCount(v, szm1)
  {
    shifts := v;
    if shifts < 0 {
      shifts := szm1 - (-shifts) % szm1;
    } else {
      shifts := shifts % szm1;
    }
    if shifts == szm1 {
      shifts := 0;
    }
  }

  /** shift with the corrected count: the walk of next, then the erase
      and insert. */
  method Shift(l: seq<Item>, id: nat) returns (l': seq<Item>)
    requires |l| >= 2 && id in Ids(l)
    ensures l' == ShiftSpec(l, id)
  {
    var p := Position(l, id);
    var shifts := Count(l[p].value, |l| - 1);
    ghost var s := shifts;
    if shifts == 0 {
      return l;
    }
    var next := p;
    while shifts >= 0
      invariant -1 <= shifts <= s && next == Walk(p, s - shifts, |l|)
      decreases shifts
    {
      shifts := shifts - 1;
      next := if next + 1 == |l| then 0 else next + 1;
    }
    l' := Reinsert(l, p, next);
    assert l' == MoveBy(l, p, s);
  }

  // --------------------------------------------------------------- solve

  /** The list as read: each number times the decryption key, each node
      its own iterator. */
  function Start(values: seq<int>, decrypt: int): (l: seq<Item>)
    ensures |l| == |values|
    ensures forall i :: 0 <= i < |l| ==> l[i] == Item(i, values[i] * decrypt)
  {
    seq(|values|, i requires 0 <= i < |values| => Item(i, values[i] * decrypt))
  }

  lemma StartIds(values: seq<int>, decrypt: int)
    ensures forall k :: 0 <= k < |values| ==> k in Ids(Start(values, decrypt))
  {
    forall k | 0 <= k < |values|
      ensures k in Ids(Start(values, decrypt))
    {
      assert Start(values, decrypt)[k] in Start(values, decrypt);
    }
  }

  /** Every iterator 0 .. n - 1 points into the list. */
  predicate AllIds(l: seq<Item>, n: nat)
  {
    forall k :: 0 <= k < n ==> k in Ids(l)
  }

  /** A list with the same items has the same iterators. */
  lemma SameIds(l: seq<Item>, l': seq<Item>)
    requires multiset(l') == multiset(l)
    ensures Ids(l') == Ids(l)
  {
    forall x | x in l
      ensures x in l'
    {
      assert x in multiset(l);
    }
    forall x | x in l'
      ensures x in l
    {
      assert x in multiset(l');
    }
  }

  /** One pass over mixing_order: the first k iterators shifted in turn. */
  function MixRound(l: seq<Item>, k: nat): (r: seq<Item>)
    requires |l| >= 2 && AllIds(l, k)
    ensures |r| == |l| && multiset(r) == multiset(l)
  {
    if k == 0 then l
    else
      var r := MixRound(l, k - 1);
      SameIds(l, r);
      ShiftKeeps(r, k - 1);
      ShiftSpec(r, k - 1)
  }

  /** num_iters passes. */
  function Mixed(l: seq<Item>, iters: nat): (r: seq<Item>)
    requires |l| >= 2 && AllIds(l, |l|)
    ensures |r| == |l| && multiset(r) == multiset(l)
  {
    if iters == 0 then l
    else
      var r := Mixed(l, iters - 1);
      SameIds(l, r);
      MixRound(r, |r|)
  }

  function Values(l: seq<Item>): (vs: seq<int>)
    ensures |vs| == |l| && forall i :: 0 <= i < |l| ==> vs[i] == l[i].value
  {
    seq(|l|, i requires 0 <= i < |l| => l[i].value)
  }

  /** The first index holding 0, or the length when there is none, as
      find returns it. */
  function FindZero(final: seq<int>): (z: nat)
    ensures z <= |final|
    ensures z < |final| ==> final[z] == 0
    ensures forall i :: 0 <= i < z ==> final[i] != 0
  {
    if final == [] then 0
    else if final[0] == 0 then 0
    else FindZero(final[1..]) + 1
  }

  /** The file after num_iters passes of mixing. */
  function MixedFile(values: seq<int>, decrypt: int, iters: nat): (final: seq<int>)
    requires |values| >= 2
    ensures |final| == |values|
  {
    StartIds(values, decrypt);
    Values(Mixed(Start(values, decrypt), iters))
  }

  /** The place k steps after z on a circle of n places. */
  function Around(z: nat, k: nat, n: nat): (i: nat)
    requires n > 0
    ensures i < n
  {
    (z + k) % n
  }

  /** The grove coordinates: the numbers 1000, 2000 and 3000 places after
      the 0, counting round the circle. */
  function Grove(final: seq<int>): int
    requires final != []
  {
    var z := FindZero(final);
    final[Around(z, 1000, |final|)] + final[Around(z, 2000, |final|)] + final[Around(z, 3000, |final|)]
  }

  /** One pass over mixing_order, shifting each number in input order. */
  method MixPass(l: seq<Item>) returns (mixed: seq<Item>)
    requires |l| >= 2 && AllIds(l, |l|)
    ensures mixed == MixRound(l, |l|)
  {
    mixed := l;
    for k := 0 to |l|
      invariant |mixed| == |l| && multiset(mixed) == multiset(l)
      invariant mixed == MixRound(l, k)
    {
      SameIds(l, mixed);
      ShiftKeeps(mixed, k);
      mixed := Shift(mixed, k);
    }
  }

  /** The circle cut at r instead of at 0. */
  function Rotate(final: seq<int>, r: nat): (rot: seq<int>)
    requires r < |final|
    ensures |rot| == |final|
  {
    final[r..] + final[..r]
  }

  /** Place i of the circle cut at r is place i + r, wrapped, of the
      original. */
  lemma RotateAt(final: seq<int>, r: nat, i: nat)
    requires r < |final| && i < |final|
    ensures Rotate(final, r)[i] == final[Walk(i, r, |final|)]
  {
  }

  /** The file holds exactly one 0. */
  predicate OneZero(final: seq<int>)
  {
    0 in final &&
    forall i, j :: 0 <= i < |final| && 0 <= j < |final| && final[i] == 0 && final[j] == 0 ==> i == j
  }

  /** An offset from the 0 lands on the same number whichever way the
      circle is cut. */
  lemma OffsetAcrossCut(z: nat, z': nat, r: nat, n: nat, k: nat)
    requires z < n && z' < n && r < n && z == Walk(z', r, n)
    ensures Walk(Around(z', k, n), r, n) == Around(z, k, n)
  {
    var a := (z' + k) % n;
    var q := (z' + k) / n;
    assert z' + k == q * n + a;
    var c := (if a + r < n then 0 else 1) - (if z' + r < n then 0 else 1);
    assert z + k == (q + c) * n + Walk(a, r, n) by {
      assert (q + c) * n == q * n + c * n;
    }
    DivModUnique(z + k, n, q + c, Walk(a, r, n));
  }

  /** Cutting the circle at r moves the only 0 back by r places. */
  lemma ZeroAcrossCut(final: seq<int>, r: nat)
    requires OneZero(final) && r < |final|
    ensures FindZero(final) < |final| && FindZero(Rotate(final, r)) < |final|
    ensures Walk(FindZero(Rotate(final, r)), r, |final|) == FindZero(final)
  {
    var z := FindZero(final);
    var n := |final|;
    var rot := Rotate(final, r);
    var z' := if z >= r then z - r else z - r + n;
    RotateAt(final, r, z');
    var z2 := FindZero(rot);
    RotateAt(final, r, z2);
  }

  /** The number k places after the 0 is the same whichever way the
      circle is cut. */
  lemma OffsetSame(final: seq<int>, r: nat, k: nat)
    requires OneZero(final) && r < |final|
    ensures FindZero(final) < |final|
    ensures Rotate(final, r)[Around(FindZero(Rotate(final, r)), k, |final|)] == final[Around(FindZero(final), k, |final|)]
  {
    ZeroAcrossCut(final, r);
    var n, rot := |final|, Rotate(final, r);
    var z, z2 := FindZero(final), FindZero(rot);
    OffsetAcrossCut(z, z2, r, n, k);
    RotateAt(final, r, Around(z2, k, n));
  }

  /** The grove coordinates do not depend on where the circle is cut,
      which is why the front and the back of the list are the same place
      to move a number to. */
  lemma GroveRotation(final: seq<int>, r: nat)
    requires OneZero(final) && r < |final|
    ensures Grove(Rotate(final, r)) == Grove(final)
  {
    OffsetSame(final, r, 1000);
    OffsetSame(final, r, 2000);
    OffsetSame(final, r, 3000);
  }

  /** The closing loop of solve: the sum over the three offsets from the
      first 0. */
  method GroveSum(final: seq<int>) returns (ans: int)
    requires final != []
    ensures ans == Grove(final)
  {
    var zero := FindZero(final);
    ans := 0;
    var offset := zero + 1000;
    while offset <= zero + 3000
      invariant offset == zero + 1000 || offset == zero + 2000 || offset == zero + 3000 || offset == zero + 4000
      invariant ans == (if offset > zero + 1000 then final[Around(zero, 1000, |final|)] else 0) +
                       (if offset > zero + 2000 then final[Around(zero, 2000, |final|)] else 0) +
                       (if offset > zero + 3000 then final[Around(zero, 3000, |final|)] else 0)
      decreases zero + 3000 - offset
    {
      assert offset % |final| == Around(zero, offset - zero, |final|);
      ans := ans + final[offset % |final|];
      offset := offset + 1000;
    }
  }

  /** solve: read, mix num_iters times in input order, and sum the grove
      coordinates. */
  method Solve(values: seq<int>, decrypt: int, iters: nat) returns (ans: int)
    requires |values| >= 2
    ensures ans == Grove(MixedFile(values, decrypt, iters))
  {
    var mixed := Start(values, decrypt);
    StartIds(values, decrypt);
    ghost var start := mixed;
    for it := 0 to iters
      invariant |mixed| == |start| && multiset(mixed) == multiset(start)
      invariant mixed == Mixed(start, it)
    {
      SameIds(start, mixed);
      mixed := MixPass(mixed);
    }
    ans := GroveSum(Values(mixed));
  }

  method Part1(values: seq<int>) returns (ans: int)
    requires |values| >= 2
    ensures ans == Grove(MixedFile(values, 1, 1))
  {
    ans := Solve(values, 1, 1);
  }

  /** The decryption key and ten passes. */
  method Part2(values: seq<int>) returns (ans: int)
    requires |values| >= 2
    ensures ans == Grove(MixedFile(values, 811589153, 10))
  {
    ans := Solve(values, 811589153, 10);
  }
}
