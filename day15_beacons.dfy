/** Beacon exclusion zone: each sensor excludes the diamond of cells no
    farther from it than its closest beacon. The excluded cells of one row
    are kept as a sorted vector of disjoint ranges, which part1 counts on
    one row and part2 scans, row by row, for the one cell left open. */
module BeaconExclusion {
  import opened Common

  // ------------------------------------------------------------- ranges

  /** A closed range [first, second] of columns. */
  datatype Range = Range(first: int, second: int)

  predicate In(r: Range, x: int)
  {
    r.first <= x <= r.second
  }

  /** Some range of rs holds x. */
  predicate Cov(rs: seq<Range>, x: int)
  {
    exists i :: 0 <= i < |rs| && In(rs[i], x)
  }

  predicate WellFormed(rs: seq<Range>)
  {
    forall i :: 0 <= i < |rs| ==> rs[i].first <= rs[i].second
  }

  /** The source's "disjoint" vector: well-formed ranges, each starting
      more than one past the end of every earlier one, so that no two
      overlap or abut. */
  predicate Disjoint(rs: seq<Range>)
  {
    WellFormed(rs) && forall i, j :: 0 <= i < j < |rs| ==> rs[i].second + 1 < rs[j].first
  }

  /** Ranges in order of their starts. */
  predicate StartsSorted(rs: seq<Range>)
  {
    forall i, j :: 0 <= i < j < |rs| ==> rs[i].first <= rs[j].first
  }

  /** What onion's add does to its result: a range starting past the gap
      after the last one is appended, and any other is merged into the
      last. */
  function Merge(result: seq<Range>, r: Range): seq<Range>
  {
    if result == [] || result[|result| - 1].second + 1 < r.first then result + [r]
    else
      var last := result[|result| - 1];
      result[..|result| - 1] + [Range(last.first, Max(last.second, r.second))]
  }

  /** The ranges added one after the other to an empty vector. */
  function Build(rs: seq<Range>): seq<Range>
  {
    if rs == [] then [] else Merge(Build(rs[..|rs| - 1]), rs[|rs| - 1])
  }

  /** Adding a range that starts no earlier than the last keeps the vector
      disjoint and covers exactly the old cells and the new range's. */
  lemma MergeOk(result: seq<Range>, r: Range)
    requires Disjoint(result) && r.first <= r.second
    requires result != [] ==> result[|result| - 1].first <= r.first
    ensures Disjoint(Merge(result, r))
    ensures forall x :: Cov(Merge(result, r), x) <==> Cov(result, x) || In(r, x)
    ensures var m := Merge(result, r); m != [] && m[|m| - 1].first <= r.first
  {
    var m := Merge(result, r);
    if result == [] || result[|result| - 1].second + 1 < r.first {
      forall x | Cov(m, x)
        ensures Cov(result, x) || In(r, x)
      {
        var i :| 0 <= i < |m| && In(m[i], x);
        if i < |result| {
          assert m[i] == result[i];
        }
      }
      forall x | Cov(result, x)
        ensures Cov(m, x)
      {
        var i :| 0 <= i < |result| && In(result[i], x);
        assert m[i] == result[i];
      }
      assert m[|m| - 1] == r;
    } else {
      var n := |result| - 1;
      forall x | Cov(m, x)
        ensures Cov(result, x) || In(r, x)
      {
        var i :| 0 <= i < |m| && In(m[i], x);
        if i < n {
          assert m[i] == result[i];
        } else if x > result[n].second {
          assert In(r, x);
        } else {
          assert In(result[n], x);
        }
      }
      forall x | Cov(result, x) || In(r, x)
        ensures Cov(m, x)
      {
        if Cov(result, x) {
          var i :| 0 <= i < |result| && In(result[i], x);
          if i < n {
            assert m[i] == result[i];
          } else {
            assert In(m[n], x);
          }
        } else {
          assert In(m[n], x);
        }
      }
      forall i, j | 0 <= i < j < |m|
        ensures m[i].second + 1 < m[j].first
      {
        assert m[i] == result[i];
        if j < n {
          assert m[j] == result[j];
        } else {
          assert m[j].first == result[n].first;
        }
      }
    }
  }

  /** Ranges added in order of their starts build a disjoint vector
      covering exactly their cells. */
  lemma {:induction false} BuildOk(rs: seq<Range>)
    requires StartsSorted(rs) && WellFormed(rs)
    ensures Disjoint(Build(rs))
    ensures forall x :: Cov(Build(rs), x) <==> Cov(rs, x)
    ensures rs != [] ==> Build(rs) != [] && Build(rs)[|Build(rs)| - 1].first <= rs[|rs| - 1].first
  {
    if rs != [] {
      var init, r := rs[..|rs| - 1], rs[|rs| - 1];
      BuildOk(init);
      MergeOk(Build(init), r);
      CovLast(rs);
    }
  }

  /** x is covered by some range when it is by an earlier one or the last. */
  lemma CovLast(rs: seq<Range>)
    requires rs != []
    ensures forall x :: Cov(rs, x) <==> Cov(rs[..|rs| - 1], x) || In(rs[|rs| - 1], x)
  {
    var init := rs[..|rs| - 1];
    forall x
      ensures Cov(rs, x) <==> Cov(init, x) || In(rs[|rs| - 1], x)
    {
      if Cov(rs, x) {
        var i :| 0 <= i < |rs| && In(rs[i], x);
        if i < |init| {
          assert init[i] == rs[i];
        }
      }
      if Cov(init, x) {
        var i :| 0 <= i < |init| && In(init[i], x);
        assert rs[i] == init[i];
      }
    }
  }

  /** The ranges onion has added once its second loop reaches i: those
      that start before rnew, rnew, then the rest up to i. */
  function Inserting(rs: seq<Range>, rnew: Range, k: int, i: int): seq<Range>
    requires 0 <= k <= i <= |rs|
  {
    rs[..k] + [rnew] + rs[k..i]
  }

  lemma InsertedIndex(rs: seq<Range>, rnew: Range, k: int)
    requires 0 <= k <= |rs|
    ensures var added := Inserting(rs, rnew, k, |rs|);
      |added| == |rs| + 1 &&
      forall i :: 0 <= i < |added| ==> added[i] == if i < k then rs[i] else if i == k then rnew else rs[i - 1]
  {
  }

  /** Inserting rnew where onion does keeps the ranges well formed and
      sorted by start. */
  lemma InsertedSorted(rs: seq<Range>, rnew: Range, k: int)
    requires Disjoint(rs) && rnew.first <= rnew.second && 0 <= k <= |rs|
    requires StartBefore(rs, k, rnew.first)
    requires k < |rs| ==> rs[k].first >= rnew.first
    ensures StartsSorted(Inserting(rs, rnew, k, |rs|)) && WellFormed(Inserting(rs, rnew, k, |rs|))
  {
    var added := Inserting(rs, rnew, k, |rs|);
    InsertedIndex(rs, rnew, k);
    forall i, j | 0 <= i < j < |added|
      ensures added[i].first <= added[j].first
    {
      if j > k && k < |rs| {
        assert rs[k].first <= rs[j - 1].first by {
          if k < j - 1 {
            assert rs[k].second + 1 < rs[j - 1].first;
          }
        }
      }
    }
  }

  /** Inserting rnew anywhere adds exactly its cells. */
  lemma InsertedCov(rs: seq<Range>, rnew: Range, k: int)
    requires 0 <= k <= |rs|
    ensures forall x :: Cov(Inserting(rs, rnew, k, |rs|), x) <==> Cov(rs, x) || In(rnew, x)
  {
    var added := Inserting(rs, rnew, k, |rs|);
    InsertedIndex(rs, rnew, k);
    forall x
      ensures Cov(added, x) <==> Cov(rs, x) || In(rnew, x)
    {
      if Cov(added, x) {
        var i :| 0 <= i < |added| && In(added[i], x);
        if i < k {
          assert In(rs[i], x);
        } else if i > k {
          assert In(rs[i - 1], x);
        }
      }
      if Cov(rs, x) {
        var i :| 0 <= i < |rs| && In(rs[i], x);
        if i < k {
          assert added[i] == rs[i];
        } else {
          assert added[i + 1] == rs[i];
        }
      }
      if In(rnew, x) {
        assert added[k] == rnew;
      }
    }
  }

  /** The first k ranges start before x. */
  predicate StartBefore(rs: seq<Range>, k: int, x: int)
    requires 0 <= k <= |rs|
  {
    forall j :: 0 <= j < k ==> rs[j].first < x
  }

  /** What onion's two loops build is the vector it promises. */
  lemma Rebuilt(rs: seq<Range>, rnew: Range, k: int, added: seq<Range>, result: seq<Range>)
    requires Disjoint(rs) && rnew.first <= rnew.second && 0 <= k <= |rs|
    requires StartBefore(rs, k, rnew.first)
    requires k < |rs| ==> rs[k].first >= rnew.first
    requires added == Inserting(rs, rnew, k, |rs|) && result == Build(added)
    ensures Disjoint(result)
    ensures forall x :: Cov(result, x) <==> Cov(rs, x) || In(rnew, x)
  {
    InsertedSorted(rs, rnew, k);
    InsertedCov(rs, rnew, k);
    BuildOk(added);
  }

  lemma PrefixNext(rs: seq<Range>, i: int)
    requires 0 <= i < |rs|
    ensures rs[..i + 1] == rs[..i] + [rs[i]]
  {
  }

  lemma BuildSnoc(rs: seq<Range>, r: Range)
    ensures Build(rs + [r]) == Merge(Build(rs), r)
  {
    assert (rs + [r])[..|rs|] == rs;
  }

  /** onion's add lambda: extend the result by r. */
  method AddRange(result: seq<Range>, r: Range) returns (result': seq<Range>)
    ensures result' == Merge(result, r)
  {
    if result == [] || result[|result| - 1].second + 1 < r.first {
      result' := result + [r];
    } else {
      var last := result[|result| - 1];
      result' := result[..|result| - 1] + [Range(last.first, Max(last.second, r.second))];
    }
  }

  /** onion: add a well-formed range to a disjoint vector, giving a
      disjoint vector of exactly the old cells and the new range's. */
  method Onion(rs: seq<Range>, rnew: Range) returns (result: seq<Range>)
    requires Disjoint(rs) && rnew.first <= rnew.second
    ensures rs == [] ==> result == [rnew]
    ensures Disjoint(result)
    ensures forall x :: Cov(result, x) <==> Cov(rs, x) || In(rnew, x)
  {
    if rs == [] {
      assert In([rnew][0], rnew.first);
      return [rnew];
    }
    result := [];
    var i := 0;
    ghost var added: seq<Range> := [];
    while i < |rs| && rs[i].first < rnew.first
      invariant 0 <= i <= |rs| && added == rs[..i] && result == Build(added)
      invariant StartBefore(rs, i, rnew.first)
    {
      result := AddRange(result, rs[i]);
      BuildSnoc(added, rs[i]);
      PrefixNext(rs, i);
      added := added + [rs[i]];
      i := i + 1;
    }
    ghost var k := i;
    result := AddRange(result, rnew);
    BuildSnoc(added, rnew);
    InsertingStart(rs, rnew, k);
    added := added + [rnew];
    while i < |rs|
      invariant k <= i <= |rs| && added == Inserting(rs, rnew, k, i) && result == Build(added)
    {
      result := AddRange(result, rs[i]);
      BuildSnoc(added, rs[i]);
      InsertingNext(rs, rnew, k, i);
      added := added + [rs[i]];
      i := i + 1;
    }
    assert i == |rs|;
    Rebuilt(rs, rnew, k, added, result);
  }


  lemma InsertingStart(rs: seq<Range>, rnew: Range, k: int)
    requires 0 <= k <= |rs|
    ensures Inserting(rs, rnew, k, k) == rs[..k] + [rnew]
  {
    assert Inserting(rs, rnew, k, k) == rs[..k] + [rnew];
    BuildSnoc(rs[..k], rnew);
  }

  lemma InsertingNext(rs: seq<Range>, rnew: Range, k: int, i: int)
    requires 0 <= k <= i < |rs|
    ensures Inserting(rs, rnew, k, i + 1) == Inserting(rs, rnew, k, i) + [rs[i]]
  {
  }


  // ------------------------------------------------------------ sensors

  /** A sensor, the beacon it detected and the Manhattan distance between
      them. */
  datatype Sensor = Sensor(x: int, y: int, beaconX: int, beaconY: int, dist: int)

  /** Manhattan distance. */
  function Distance(x1: int, y1: int, x2: int, y2: int): nat
  {
    Abs(x1 - x2) + Abs(y1 - y2)
  }

  /** The sensor rules out (x, y): no farther than its closest beacon. */
  predicate Covers(s: Sensor, x: int, y: int)
  {
    Distance(s.x, s.y, x, y) <= s.dist
  }

  /** Some sensor rules out (x, y). */
  predicate Excluded(sensors: seq<Sensor>, x: int, y: int)
  {
    exists j :: 0 <= j < |sensors| && Covers(sensors[j], x, y)
  }

  /** Where find or rfind of "x=" or "y=" landed, plus 2; std::string::npos
      plus 2 wraps around to 1. */
  function After(found: int): int
  {
    if found < 0 then 1 else found + 2
  }

  /** First index of the two-character string [a, b] in s, or -1. */
  function Find(s: string, a: char, b: char): (i: int)
    ensures i == -1 || 0 <= i <= |s| - 2
    ensures i >= 0 ==> s[i] == a && s[i + 1] == b
    ensures forall j :: 0 <= j < |s| - 1 && (i < 0 || j < i) ==> !(s[j] == a && s[j + 1] == b)
  {
    if |s| < 2 then -1
    else if s[0] == a && s[1] == b then 0
    else
      var k := Find(s[1..], a, b);
      if k < 0 then -1 else k + 1
  }

  /** Last index of the two-character string [a, b] in s, or -1. */
  function RFind(s: string, a: char, b: char): (i: int)
    ensures i == -1 || 0 <= i <= |s| - 2
    ensures i >= 0 ==> s[i] == a && s[i + 1] == b
    ensures forall j :: 0 <= j < |s| - 1 && j > i ==> !(s[j] == a && s[j + 1] == b)
  {
    if |s| < 2 then -1
    else if s[|s| - 2] == a && s[|s| - 1] == b then |s| - 2
    else RFind(s[..|s| - 1], a, b)
  }

  /** sensor::sensor: the numbers after the first "x=" and "y=" are the
      sensor's, those after the last ones the beacon's, each read with
      atoi. None where a search misses on a line too short for npos + 2,
      which would read past the string's end. */
  function ParseSensor(s: string): (r: Option<Sensor>)
    ensures r.Some? ==> r.value.dist == Distance(r.value.beaconX, r.value.beaconY, r.value.x, r.value.y)
    ensures r.Some? ==> Covers(r.value, r.value.beaconX, r.value.beaconY)
    ensures r.None? <==> |s| < 1
  {
    var p1, p2 := After(Find(s, 'x', '=')), After(Find(s, 'y', '='));
    var p3, p4 := After(RFind(s, 'x', '=')), After(RFind(s, 'y', '='));
    if p1 > |s| || p2 > |s| || p3 > |s| || p4 > |s| then None
    else
      var x, y, bx, bY := Atoi(s[p1..]), Atoi(s[p2..]), Atoi(s[p3..]), Atoi(s[p4..]);
      Some(Sensor(x, y, bx, bY, Distance(bx, bY, x, y)))
  }

  /** A sensor as its constructor leaves it. */
  predicate SensorOk(s: Sensor)
  {
    s.dist == Distance(s.beaconX, s.beaconY, s.x, s.y)
  }

  /** sensor::add: the sensor's cells on row rowY, if any, joined to the
      disjoint vector covered. */
  method SensorAdd(s: Sensor, rowY: int, covered: seq<Range>) returns (covered': seq<Range>)
    requires Disjoint(covered)
    ensures Disjoint(covered')
    ensures Abs(rowY - s.y) > s.dist ==> covered' == covered
    ensures forall x :: Cov(covered', x) <==> Cov(covered, x) || Covers(s, x, rowY)
  {
    var span := s.dist - Abs(rowY - s.y);
    covered' := covered;
    if span >= 0 {
      covered' := Onion(covered, Range(s.x - span, s.x + span));
    }
  }

  /** coverage: every sensor's cells on row rowY, as a disjoint vector. */
  method Coverage(sensors: seq<Sensor>, rowY: int) returns (covered: seq<Range>)
    ensures Disjoint(covered)
    ensures forall x :: Cov(covered, x) <==> Excluded(sensors, x, rowY)
  {
    covered := [];
    for i := 0 to |sensors|
      invariant Disjoint(covered)
      invariant forall x :: Cov(covered, x) <==> Excluded(sensors[..i], x, rowY)
    {
      covered := SensorAdd(sensors[i], rowY, covered);
      forall x
        ensures Excluded(sensors[..i + 1], x, rowY) <==> Excluded(sensors[..i], x, rowY) || Covers(sensors[i], x, rowY)
      {
        if Excluded(sensors[..i + 1], x, rowY) {
          var j :| 0 <= j < i + 1 && Covers(sensors[..i + 1][j], x, rowY);
          if j < i {
            assert sensors[..i][j] == sensors[..i + 1][j];
          }
        }
        if Excluded(sensors[..i], x, rowY) {
          var j :| 0 <= j < i && Covers(sensors[..i][j], x, rowY);
          assert sensors[..i + 1][j] == sensors[..i][j];
        }
        assert sensors[..i + 1][i] == sensors[i];
      }
    }
    assert sensors[..|sensors|] == sensors;
  }

  // -------------------------------------------------------------- part1

  const MaxCoord := 4000000

  /** The cells of a range. */
  function RangeSet(r: Range): set<int>
  {
    set x | r.first <= x <= r.second && In(r, x)
  }

  lemma {:induction false} RangeSetSize(a: int, b: int)
    requires a <= b + 1
    ensures |RangeSet(Range(a, b))| == b - a + 1
    decreases b - a
  {
    if a <= b {
      RangeSetSize(a, b - 1);
      assert RangeSet(Range(a, b)) == RangeSet(Range(a, b - 1)) + {b};
    } else {
      assert RangeSet(Range(a, b)) == {};
    }
  }

  /** The cells of all the ranges. */
  function CovSet(rs: seq<Range>): set<int>
  {
    if rs == [] then {} else CovSet(rs[..|rs| - 1]) + RangeSet(rs[|rs| - 1])
  }

  /** The number of cells part1 adds up, range by range. */
  function Lengths(rs: seq<Range>): int
  {
    if rs == [] then 0 else Lengths(rs[..|rs| - 1]) + rs[|rs| - 1].second - rs[|rs| - 1].first + 1
  }

  lemma {:induction false} CovSetIff(rs: seq<Range>)
    ensures forall x :: x in CovSet(rs) <==> Cov(rs, x)
  {
    if rs != [] {
      var init := rs[..|rs| - 1];
      CovSetIff(init);
      forall x
        ensures Cov(rs, x) <==> Cov(init, x) || In(rs[|rs| - 1], x)
      {
        if Cov(rs, x) {
          var i :| 0 <= i < |rs| && In(rs[i], x);
          if i < |init| {
            assert init[i] == rs[i];
          }
        }
        if Cov(init, x) {
          var i :| 0 <= i < |init| && In(init[i], x);
          assert rs[i] == init[i];
        }
      }
    }
  }

  /** Disjoint ranges hold as many cells as their lengths add up to. */
  lemma {:induction false} CovSetSize(rs: seq<Range>)
    requires Disjoint(rs)
    ensures |CovSet(rs)| == Lengths(rs)
  {
    if rs != [] {
      var init, r := rs[..|rs| - 1], rs[|rs| - 1];
      assert Disjoint(init) by {
        forall i, j | 0 <= i < j < |init|
          ensures init[i].second + 1 < init[j].first
        {
          assert init[i] == rs[i] && init[j] == rs[j];
        }
      }
      CovSetSize(init);
      CovSetIff(init);
      RangeSetSize(r.first, r.second);
      forall x | x in CovSet(init)
        ensures x !in RangeSet(r)
      {
        var i :| 0 <= i < |init| && In(init[i], x);
        assert init[i] == rs[i];
      }
      assert CovSet(init) !! RangeSet(r);
    }
  }

  /** A beacon sits at (x, y). */
  predicate BeaconAt(sensors: seq<Sensor>, x: int, y: int)
  {
    exists j :: 0 <= j < |sensors| && sensors[j].beaconX == x && sensors[j].beaconY == y
  }

  /** part1: on row MaxCoord / 2, the number of cells where no beacon can
      be: cells some sensor rules out, less those holding a detected
      beacon. */
  method Part1(sensors: seq<Sensor>) returns (ans: int, ghost noBeacon: set<int>)
    requires forall j :: 0 <= j < |sensors| ==> SensorOk(sensors[j])
    ensures forall x :: x in noBeacon <==> Excluded(sensors, x, MaxCoord / 2) && !BeaconAt(sensors, x, MaxCoord / 2)
    ensures ans == |noBeacon|
  {
    var targetY := MaxCoord / 2;
    var covered := Coverage(sensors, targetY);
    ans := 0;
    for i := 0 to |covered|
      invariant ans == Lengths(covered[..i])
    {
      assert covered[..i + 1][..i] == covered[..i];
      ans := ans + covered[i].second - covered[i].first + 1;
    }
    assert covered[..|covered|] == covered;
    var detected: set<int> := {};
    for i := 0 to |sensors|
      invariant forall x :: x in detected <==> BeaconAt(sensors[..i], x, targetY)
    {
      if sensors[i].beaconY == targetY {
        detected := detected + {sensors[i].beaconX};
      }
      forall x
        ensures BeaconAt(sensors[..i + 1], x, targetY) <==>
          (BeaconAt(sensors[..i], x, targetY) || (sensors[i].beaconX == x && sensors[i].beaconY == targetY))
      {
        if BeaconAt(sensors[..i + 1], x, targetY) {
          var j :| 0 <= j < i + 1 && sensors[..i + 1][j].beaconX == x && sensors[..i + 1][j].beaconY == targetY;
          if j < i {
            assert sensors[..i][j] == sensors[..i + 1][j];
          }
        }
        if BeaconAt(sensors[..i], x, targetY) {
          var j :| 0 <= j < i && sensors[..i][j].beaconX == x && sensors[..i][j].beaconY == targetY;
          assert sensors[..i + 1][j] == sensors[..i][j];
        }
        assert sensors[..i + 1][i] == sensors[i];
      }
    }
    assert sensors[..|sensors|] == sensors;
    CovSetIff(covered);
    CovSetSize(covered);
    forall x | x in detected
      ensures x in CovSet(covered)
    {
      var j :| 0 <= j < |sensors| && sensors[j].beaconX == x && sensors[j].beaconY == targetY;
      assert Covers(sensors[j], x, targetY);
    }
    noBeacon := CovSet(covered) - detected;
    assert |noBeacon| == |CovSet(covered)| - |detected| by {
      assert CovSet(covered) == noBeacon + detected;
    }
    ans := ans - |detected|;
  }

  // -------------------------------------------------------------- part2

  predicate InArea(x: int, y: int)
  {
    0 <= x <= MaxCoord && 0 <= y <= MaxCoord
  }

  /** A cell of the search area that no sensor rules out, beside one in
      its row that some sensor does: the cells part2 reports. */
  predicate Gap(sensors: seq<Sensor>, x: int, y: int)
  {
    InArea(x, y) && !Excluded(sensors, x, y) && (Excluded(sensors, x - 1, y) || Excluded(sensors, x + 1, y))
  }

  /** The cells either side of a range of a disjoint vector are free. */
  lemma Beside(rs: seq<Range>, i: int)
    requires Disjoint(rs) && 0 <= i < |rs|
    ensures !Cov(rs, rs[i].second + 1) && !Cov(rs, rs[i].first - 1)
  {
    forall j | 0 <= j < |rs|
      ensures !In(rs[j], rs[i].second + 1) && !In(rs[j], rs[i].first - 1)
    {
      if j < i {
        assert rs[j].second + 1 < rs[i].first;
      } else if j > i {
        assert rs[i].second + 1 < rs[j].first;
      }
    }
  }

  /** A free cell next to a covered one lies just past the end, or just
      before the start, of some range. */
  lemma Edge(rs: seq<Range>, x: int)
    requires !Cov(rs, x) && (Cov(rs, x - 1) || Cov(rs, x + 1))
    ensures exists i :: 0 <= i < |rs| && (rs[i].second + 1 == x || rs[i].first - 1 == x)
  {
    if Cov(rs, x - 1) {
      var i :| 0 <= i < |rs| && In(rs[i], x - 1);
      assert !In(rs[i], x);
    } else {
      var i :| 0 <= i < |rs| && In(rs[i], x + 1);
      assert !In(rs[i], x);
    }
  }

  /** part2's scan of one row's ranges, as written: the cell after a
      range is tried when it is at most MaxCoord, the cell before when it
      is at least 0, and the last one tried wins. */
  function ScanAsWritten(covered: seq<Range>, y: int, freq: int): int
  {
    if covered == [] then freq
    else
      var r := covered[|covered| - 1];
      var f := ScanAsWritten(covered[..|covered| - 1], y, freq);
      var f' := if r.second + 1 <= MaxCoord then MaxCoord * (r.second + 1) + y else f;
      if r.first - 1 >= 0 then MaxCoord * (r.first - 1) + y else f'
  }

  /** As written, a range lying left of the area offers a cell outside it:
      the sensor at (-10, 0) whose beacon is at (-8, 0) covers [-12, -8]
      of row 0, a row both part2s scan, and the scan reports column -7. */
  lemma ScanLeavesArea()
    ensures var s := Sensor(-10, 0, -8, 0, 2);
      SensorOk(s) && (forall x :: Covers(s, x, 0) <==> In(Range(-12, -8), x)) &&
      ScanAsWritten([Range(-12, -8)], 0, -1) == MaxCoord * -7 && !InArea(-7, 0)
  {
    assert [Range(-12, -8)][..0] == [];
  }

  /** part2's scan of one row, each candidate checked to lie inside the
      area on both sides: a cell tried is a gap, and when the row has a
      gap one is tried; freq is kept when none is. */
  method ScanRow(ghost sensors: seq<Sensor>, covered: seq<Range>, y: int, freq: int)
    returns (freq': int, ghost found: bool, ghost gx: int)
    requires 0 <= y <= MaxCoord && Disjoint(covered)
    requires forall x :: Cov(covered, x) <==> Excluded(sensors, x, y)
    ensures found ==> Gap(sensors, gx, y) && freq' == MaxCoord * gx + y
    ensures !found ==> freq' == freq && forall x :: !Gap(sensors, x, y)
  {
    freq', found, gx := freq, false, 0;
    for i := 0 to |covered|
      invariant found ==> Gap(sensors, gx, y) && freq' == MaxCoord * gx + y
      invariant !found ==> freq' == freq
      invariant !found ==> forall j :: 0 <= j < i ==>
        !(0 <= covered[j].second + 1 <= MaxCoord) && !(0 <= covered[j].first - 1 <= MaxCoord)
    {
      var r := covered[i];
      Beside(covered, i);
      assert In(covered[i], r.second) && In(covered[i], r.first);
      if 0 <= r.second + 1 <= MaxCoord {
        freq', found, gx := MaxCoord * (r.second + 1) + y, true, r.second + 1;
      }
      if 0 <= r.first - 1 <= MaxCoord {
        freq', found, gx := MaxCoord * (r.first - 1) + y, true, r.first - 1;
      }
    }
    if !found {
      forall x | Gap(sensors, x, y)
        ensures false
      {
        Edge(covered, x);
      }
    }
  }

  /** part2: scan every row of the area and report the tuning frequency
      MaxCoord * x + y of the last gap cell tried; None where none is,
      the case the source's assert rejects. */
  method Part2(sensors: seq<Sensor>) returns (ans: Option<int>, ghost gx: int, ghost gy: int)
    ensures ans.Some? ==> Gap(sensors, gx, gy) && ans.value == MaxCoord * gx + gy
    ensures ans.None? ==> forall x, y :: !Gap(sensors, x, y)
  {
    var freq := -1;
    ghost var found := false;
    gx, gy := 0, 0;
    for y := 0 to MaxCoord + 1
      invariant found ==> Gap(sensors, gx, gy) && freq == MaxCoord * gx + gy
      invariant !found ==> freq == -1 && forall x, y' :: y' < y ==> !Gap(sensors, x, y')
    {
      var covered := Coverage(sensors, y);
      ghost var hit, x;
      freq, hit, x := ScanRow(sensors, covered, y, freq);
      if hit {
        found, gx, gy := true, x, y;
      }
    }
    ans := if freq == -1 then None else Some(freq);
  }

  /** When the area holds exactly one cell no sensor rules out, that cell
      is the only gap, so part2 reports its tuning frequency. */
  lemma OnlyGap(sensors: seq<Sensor>, x0: int, y0: int)
    requires InArea(x0, y0) && !Excluded(sensors, x0, y0)
    requires forall x, y :: InArea(x, y) && (x, y) != (x0, y0) ==> Excluded(sensors, x, y)
    ensures Gap(sensors, x0, y0)
    ensures forall x, y :: Gap(sensors, x, y) ==> x == x0 && y == y0
  {
    if x0 > 0 {
      assert Excluded(sensors, x0 - 1, y0);
    } else {
      assert Excluded(sensors, x0 + 1, y0);
    }
  }
}
