/** The faster part2 of the beacon exclusion zone: instead of every row of
    the area, scan only rows that sensor geometry singles out: where the
    diagonal edge of one sensor's diamond, followed down and right inside
    another's, leaves that other diamond, and just past where a diamond
    reaches the left or right edge of the area. */
module BeaconRows {
  import opened Common
  import opened BeaconExclusion

  /** Strictly ascending: how a std::set<int> keeps and walks its
      elements. */
  predicate Ascending(s: seq<int>)
  {
    forall i, j :: 0 <= i < j < |s| ==> s[i] < s[j]
  }

  /** std::set<int>::insert, on the ascending sequence of the elements. */
  function Insert(s: seq<int>, x: int): seq<int>
  {
    if s == [] then [x]
    else if x == s[0] then s
    else if x < s[0] then [x] + s
    else [s[0]] + Insert(s[1..], x)
  }

  /** Inserting keeps the elements ascending and adds exactly x. */
  lemma {:induction false} InsertOk(s: seq<int>, x: int)
    requires Ascending(s)
    ensures Ascending(Insert(s, x))
    ensures forall y :: y in Insert(s, x) <==> y in s || y == x
  {
    if s != [] && x > s[0] {
      var rest := Insert(s[1..], x);
      InsertOk(s[1..], x);
      assert s == [s[0]] + s[1..];
      forall j | 0 <= j < |rest|
        ensures s[0] < rest[j]
      {
        assert rest[j] in rest;
      }
    }
  }

  /** s covers r's left corner, and r covers s's right corner: the two
      diamonds overlap along the edge get_interesting_y follows. */
  predicate Linked(s: Sensor, r: Sensor)
  {
    Covers(r, s.x + s.dist, s.y) && Covers(s, r.x - r.dist, r.y)
  }

  /** r's left corner, moved down and right along the diagonal until it
      is neither left of nor above s. */
  function Corner(s: Sensor, r: Sensor): (int, int)
  {
    var xr, yr := r.x - r.dist, r.y;
    var xr', yr' := if xr < s.x then s.x else xr, if xr < s.x then yr + (s.x - xr) else yr;
    if yr' < s.y then (xr' + (s.y - yr'), s.y) else (xr', yr')
  }

  /** The row where the diagonal from Corner(s, r) leaves s's diamond. */
  function ExitRow(s: Sensor, r: Sensor): int
  {
    var (xr, yr) := Corner(s, r);
    var margin := s.dist - Distance(s.x, s.y, xr, yr);
    // margin is never negative here (ExitRowLeaves), so / is C's division
    yr + margin / 2 + 1
  }

  /** The diagonal through r's left corner, from the point Corner(s, r),
      is still inside s's diamond one step before ExitRow and outside it
      at ExitRow. */
  lemma ExitRowLeaves(s: Sensor, r: Sensor)
    requires Covers(s, r.x - r.dist, r.y)
    ensures var (xr, yr) := Corner(s, r);
      var steps := ExitRow(s, r) - yr;
      xr >= s.x && yr >= s.y && xr - (r.x - r.dist) == yr - r.y >= 0 &&
      Covers(s, xr, yr) && steps >= 1 &&
      Covers(s, xr + steps - 1, yr + steps - 1) && !Covers(s, xr + steps, yr + steps)
  {
  }

  /** sensor::get_interesting_y, for this sensor s and another sensor r. */
  method InterestingY(s: Sensor, r: Sensor, ys: seq<int>) returns (ys': seq<int>)
    requires Ascending(ys)
    ensures Ascending(ys')
    ensures forall y :: y in ys' <==> y in ys || (Linked(s, r) && y == ExitRow(s, r))
  {
    ys' := ys;
    if !Covers(r, s.x + s.dist, s.y) {
      return;
    }
    var xr := r.x - r.dist;
    var yr := r.y;
    if !Covers(s, xr, yr) {
      return;
    }
    if xr < s.x {
      yr := yr + (s.x - xr);
      xr := s.x;
    }
    if yr < s.y {
      xr := xr + (s.y - yr);
      yr := s.y;
    }
    var margin := s.dist - Distance(s.x, s.y, xr, yr);
    var steps := margin / 2 + 1;
    InsertOk(ys', yr + steps);
    ys' := Insert(ys', yr + steps);
  }

  /** y is a row just past the stretch where s's diamond reaches column 0
      (Left) or column MaxCoord (right), as get_border_ys places it. */
  predicate LeftRow(s: Sensor, y: int)
  {
    s.x - s.dist <= 0 && Abs(y - s.y) == s.dist - s.x + 1
  }

  predicate RightRow(s: Sensor, y: int)
  {
    s.x + s.dist >= MaxCoord && Abs(y - s.y) == s.x + s.dist - MaxCoord + 1
  }

  predicate BorderRow(s: Sensor, y: int)
  {
    LeftRow(s, y) || RightRow(s, y)
  }

  /** The next row toward the sensor's own. */
  function Toward(y: int, sy: int): int
  {
    if y < sy then y + 1 else y - 1
  }

  /** For a sensor at a column of the area, a left border row is the
      first row, going out from the sensor, at which its diamond no longer
      reaches column 0. */
  lemma LeftRowFlank(s: Sensor, y: int)
    requires 0 <= s.x && LeftRow(s, y)
    ensures !Covers(s, 0, y) && Covers(s, 0, Toward(y, s.y))
  {
  }

  /** Likewise for a right border row and column MaxCoord. */
  lemma RightRowFlank(s: Sensor, y: int)
    requires s.x <= MaxCoord && RightRow(s, y)
    ensures !Covers(s, MaxCoord, y) && Covers(s, MaxCoord, Toward(y, s.y))
  {
  }

  /** sensor::get_border_ys. */
  method BorderYs(s: Sensor, ys: seq<int>) returns (ys': seq<int>)
    requires Ascending(ys)
    ensures Ascending(ys')
    ensures forall y :: y in ys' <==> y in ys || BorderRow(s, y)
  {
    ys' := ys;
    if s.x - s.dist <= 0 {
      var extra := s.dist - s.x;
      ys' := InsertPair(ys', s.y, extra);
    }
    ghost var left := ys';
    assert forall y :: y in left <==> y in ys || LeftRow(s, y);
    if s.x + s.dist >= MaxCoord {
      var extra := s.x + s.dist - MaxCoord;
      ys' := InsertPair(ys', s.y, extra);
    }
    assert forall y :: y in ys' <==> y in left || RightRow(s, y);
  }

  /** The two inserts of one branch of get_border_ys: the rows extra + 1
      above and below row c. */
  method InsertPair(ys: seq<int>, c: int, extra: int) returns (ys': seq<int>)
    requires Ascending(ys) && extra >= 0
    ensures Ascending(ys')
    ensures forall y :: y in ys' <==> y in ys || Abs(y - c) == extra + 1
  {
    InsertOk(ys, c - extra - 1);
    ys' := Insert(ys, c - extra - 1);
    InsertOk(ys', c + extra + 1);
    ys' := Insert(ys', c + extra + 1);
  }

  /** y is the exit row of sensor a of the first n with some sensor. */
  predicate ExitBy(sensors: seq<Sensor>, n: int, y: int)
  {
    exists a, b :: 0 <= a < n && a < |sensors| && 0 <= b < |sensors| &&
      Linked(sensors[a], sensors[b]) && ExitRow(sensors[a], sensors[b]) == y
  }

  /** y is the exit row of sensor a with one of the first m sensors. */
  predicate ExitFrom(sensors: seq<Sensor>, a: int, m: int, y: int)
    requires 0 <= a < |sensors|
  {
    exists b :: 0 <= b < m && b < |sensors| && Linked(sensors[a], sensors[b]) && ExitRow(sensors[a], sensors[b]) == y
  }

  /** y is a border row of one of the first n sensors. */
  predicate BorderBy(sensors: seq<Sensor>, n: int, y: int)
  {
    exists a :: 0 <= a < n && a < |sensors| && BorderRow(sensors[a], y)
  }

  /** The rows part2 scans: the top and bottom rows of the area, every
      exit row of two linked sensors and every border row. */
  predicate Interesting(sensors: seq<Sensor>, y: int)
  {
    y == 0 || y == MaxCoord || ExitBy(sensors, |sensors|, y) || BorderBy(sensors, |sensors|, y)
  }

  lemma ExitByNext(sensors: seq<Sensor>, i: int)
    requires 0 <= i < |sensors|
    ensures forall y :: ExitBy(sensors, i + 1, y) <==> ExitBy(sensors, i, y) || ExitFrom(sensors, i, |sensors|, y)
  {
    forall y | ExitBy(sensors, i + 1, y)
      ensures ExitBy(sensors, i, y) || ExitFrom(sensors, i, |sensors|, y)
    {
      var a, b :| 0 <= a < i + 1 && a < |sensors| && 0 <= b < |sensors| &&
        Linked(sensors[a], sensors[b]) && ExitRow(sensors[a], sensors[b]) == y;
    }
  }

  lemma BorderByNext(sensors: seq<Sensor>, i: int)
    requires 0 <= i < |sensors|
    ensures forall y :: BorderBy(sensors, i + 1, y) <==> BorderBy(sensors, i, y) || BorderRow(sensors[i], y)
  {
  }

  /** part2's choice of rows: exactly the interesting ones, in
      ascending order. */
  method InterestingRows(sensors: seq<Sensor>) returns (ys: seq<int>)
    ensures Ascending(ys)
    ensures forall y :: y in ys <==> Interesting(sensors, y)
  {
    ys := [0, MaxCoord];
    for i := 0 to |sensors|
      invariant Ascending(ys)
      invariant forall y :: y in ys <==> y == 0 || y == MaxCoord || ExitBy(sensors, i, y) || BorderBy(sensors, i, y)
    {
      for j := 0 to |sensors|
        invariant Ascending(ys)
        invariant forall y :: y in ys <==>
          (y == 0 || y == MaxCoord || ExitBy(sensors, i, y) || BorderBy(sensors, i, y) || ExitFrom(sensors, i, j, y))
      {
        ys := InterestingY(sensors[i], sensors[j], ys);
      }
      ys := BorderYs(sensors[i], ys);
      ExitByNext(sensors, i);
      BorderByNext(sensors, i);
    }
  }

  /** part2: scan the interesting rows of the area, in ascending order,
      and report the tuning frequency of the last gap cell tried; None
      where none is, the case the source's assert rejects. */
  method Part2(sensors: seq<Sensor>) returns (ans: Option<int>, ghost gx: int, ghost gy: int)
    ensures ans.Some? ==> Gap(sensors, gx, gy) && ans.value == MaxCoord * gx + gy
    ensures ans.None? ==> forall x, y :: Interesting(sensors, y) ==> !Gap(sensors, x, y)
  {
    var ys := InterestingRows(sensors);
    var freq := -1;
    ghost var found := false;
    gx, gy := 0, 0;
    for k := 0 to |ys|
      invariant found ==> Gap(sensors, gx, gy) && freq == MaxCoord * gx + gy
      invariant !found ==> freq == -1 && forall cx, j :: 0 <= j < k ==> !Gap(sensors, cx, ys[j])
    {
      var y := ys[k];
      if y < 0 || y > MaxCoord {
        continue;
      }
      var covered := Coverage(sensors, y);
      ghost var hit, x;
      freq, hit, x := ScanRow(sensors, covered, y, freq);
      if hit {
        found, gx, gy := true, x, y;
      }
    }
    ans := if freq == -1 then None else Some(freq);
  }
}
