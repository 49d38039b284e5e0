/** Camp cleanup: each record is a pair of section ranges s1-e1,s2-e2, and
    a part counts the records where one range contains the other (part1)
    or the two overlap (part2). */
module CampCleanup {

  datatype Record = Record(s1: int, e1: int, s2: int, e2: int)

  /** The assert of count_pairs: both ranges are well formed. */
  predicate WellFormed(r: Record)
  {
    r.s1 <= r.e1 && r.s2 <= r.e2
  }

  /** part1's condition: one range holds the other. */
  predicate FullyContains(s1: int, e1: int, s2: int, e2: int)
  {
    (s1 <= s2 && e2 <= e1) || (s2 <= s1 && e1 <= e2)
  }

  /** part2's condition: the ranges share a section. */
  predicate Overlaps(s1: int, e1: int, s2: int, e2: int)
  {
    (s1 <= e2 && e1 >= s2) || (s2 <= e1 && e2 >= s1)
  }

  datatype Condition = Contain | Overlap

  predicate Holds(c: Condition, r: Record)
  {
    match c
    case Contain => FullyContains(r.s1, r.e1, r.s2, r.e2)
    case Overlap => Overlaps(r.s1, r.e1, r.s2, r.e2)
  }

  lemma ContainsSymmetric(s1: int, e1: int, s2: int, e2: int)
    ensures FullyContains(s1, e1, s2, e2) == FullyContains(s2, e2, s1, e1)
  {
  }

  /** The overlap test is symmetric, and its two halves say the same. */
  lemma OverlapsSymmetric(s1: int, e1: int, s2: int, e2: int)
    ensures Overlaps(s1, e1, s2, e2) == Overlaps(s2, e2, s1, e1)
    ensures Overlaps(s1, e1, s2, e2) <==> s1 <= e2 && s2 <= e1
  {
  }

  /** Section x lies in the range s-e. */
  predicate Covers(s: int, e: int, x: int)
  {
    s <= x <= e
  }

  /** Containment means the sections of one range are all sections of
      the other. */
  lemma ContainsIsSubset(s1: int, e1: int, s2: int, e2: int)
    requires s1 <= e1 && s2 <= e2
    ensures FullyContains(s1, e1, s2, e2) <==>
      (forall x :: Covers(s2, e2, x) ==> Covers(s1, e1, x)) ||
      (forall x :: Covers(s1, e1, x) ==> Covers(s2, e2, x))
  {
    assert Covers(s1, e1, s1) && Covers(s1, e1, e1);
    assert Covers(s2, e2, s2) && Covers(s2, e2, e2);
  }

  /** Overlap means a shared section. */
  lemma OverlapsIsSharedSection(s1: int, e1: int, s2: int, e2: int)
    requires s1 <= e1 && s2 <= e2
    ensures Overlaps(s1, e1, s2, e2) <==> exists x :: Covers(s1, e1, x) && Covers(s2, e2, x)
  {
    if Overlaps(s1, e1, s2, e2) {
      var x := if s1 <= s2 then s2 else s1;
      assert Covers(s1, e1, x) && Covers(s2, e2, x);
    }
  }

  /** For well-formed ranges, containment implies overlap. */
  lemma ContainsImpliesOverlaps(s1: int, e1: int, s2: int, e2: int)
    requires s1 <= e1 && s2 <= e2
    ensures FullyContains(s1, e1, s2, e2) ==> Overlaps(s1, e1, s2, e2)
  {
  }

  /** The number of records meeting the condition. */
  function Count(c: Condition, records: seq<Record>): (n: nat)
    ensures n <= |records|
  {
    if records == [] then 0
    else Count(c, records[..|records| - 1]) + (if Holds(c, records[|records| - 1]) then 1 else 0)
  }

  /** Count is exactly the size of the set of positions where the
      condition holds. */
  lemma {:induction false} CountIsPositions(c: Condition, records: seq<Record>)
    ensures Count(c, records) == |set i | 0 <= i < |records| && Holds(c, records[i])|
    decreases |records|
  {
    if records != [] {
      var n := |records| - 1;
      var p := records[..n];
      CountIsPositions(c, p);
      var before := set i | 0 <= i < n && Holds(c, p[i]);
      var after := set i | 0 <= i < |records| && Holds(c, records[i]);
      if Holds(c, records[n]) {
        assert after == before + {n};
      } else {
        assert after == before;
      }
    }
  }

  /** Every contained pair also overlaps, so part1 never exceeds part2. */
  lemma {:induction false} ContainCountAtMostOverlap(records: seq<Record>)
    requires forall i :: 0 <= i < |records| ==> WellFormed(records[i])
    ensures Count(Contain, records) <= Count(Overlap, records)
    decreases |records|
  {
    if records != [] {
      var r := records[|records| - 1];
      ContainCountAtMostOverlap(records[..|records| - 1]);
      ContainsImpliesOverlaps(r.s1, r.e1, r.s2, r.e2);
    }
  }

  /** count_pairs: the loop over the records with its total counter. */
  method CountPairs(c: Condition, records: seq<Record>) returns (total: int)
    requires forall i :: 0 <= i < |records| ==> WellFormed(records[i])
    ensures total == Count(c, records)
    ensures 0 <= total <= |records|
  {
    total := 0;
    for i := 0 to |records|
      invariant total == Count(c, records[..i])
    {
      assert records[..i + 1][..i] == records[..i];
      var r := records[i];
      var hit := match c
        case Contain => FullyContains(r.s1, r.e1, r.s2, r.e2)
        case Overlap => Overlaps(r.s1, r.e1, r.s2, r.e2);
      if hit {
        total := total + 1;
      }
    }
    assert records[..|records|] == records;
  }
}
