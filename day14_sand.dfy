/** Regolith reservoir: rock paths are drawn into a cave of tiles, then
    grains of sand are poured from (500, 0). A grain falls straight
    down, else down and to the left, else down and to the right, and
    comes to rest when all three are blocked. Part 1 counts the grains
    that rest before one falls past the lowest rock into the abyss;
    part 2 adds a floor two rows below the lowest rock and counts the
    grains poured before the source itself is covered. */
module RegolithReservoir {
  import opened Common

  /** (x, y), with y growing downwards. */
  type Coord = (int, int)

  const Source: Coord := (500, 0)

  /** What a tile map holds at a coordinate, ' ' for nothing. */
  function TileAt(tiles: map<Coord, char>, c: Coord): (t: char)
    ensures c !in tiles ==> t == ' '
    ensures c in tiles ==> t == tiles[c]
  {
    if c in tiles then tiles[c] else ' '
  }

  // ------------------------------------------------------------- segments

  /** The step of segment's lambda: towards d2 by one, or none. */
  function StepTo(d1: int, d2: int): (s: int)
    ensures s == Sign(d2 - d1)
  {
    if d1 == d2 then 0 else if d1 < d2 then 1 else -1
  }

  function Next(c: Coord, target: Coord): Coord
  {
    (c.0 + StepTo(c.0, target.0), c.1 + StepTo(c.1, target.1))
  }

  /** The segments segment's loop reaches the end of: horizontal,
      vertical or at 45 degrees. On any other the loop steps past the
      end and never stops. */
  predicate Straight(c1: Coord, c2: Coord)
  {
    c1.0 == c2.0 || c1.1 == c2.1 || Abs(c2.0 - c1.0) == Abs(c2.1 - c1.1)
  }

  /** The number of steps from c1 to c2. */
  function Steps(c1: Coord, c2: Coord): nat
  {
    Max(Abs(c2.0 - c1.0), Abs(c2.1 - c1.1))
  }

  /** One step keeps the segment straight and brings it one step
      shorter. */
  lemma NextStraight(c1: Coord, c2: Coord)
    requires Straight(c1, c2) && c1 != c2
    ensures Straight(Next(c1, c2), c2)
    ensures Steps(Next(c1, c2), c2) + 1 == Steps(c1, c2)
    ensures Next(c1, c2) != c2 ==>
      StepTo(c1.0, c2.0) == StepTo(Next(c1, c2).0, c2.0) && StepTo(c1.1, c2.1) == StepTo(Next(c1, c2).1, c2.1)
  {
  }

  /** x lies between a and b, either way round. */
  predicate Between(a: int, b: int, x: int)
  {
    Min(a, b) <= x <= Max(a, b)
  }

  /** The cells of the straight segment from c1 to c2, ends included,
      defined without stepping: inside the box of the ends and, on a
      diagonal, as far along x as along y. */
  predicate OnSegment(c1: Coord, c2: Coord, c: Coord)
  {
    Between(c1.0, c2.0, c.0) && Between(c1.1, c2.1, c.1) &&
    (c1.0 == c2.0 || c1.1 == c2.1 || Abs(c.0 - c1.0) == Abs(c.1 - c1.1))
  }

  /** The segment from c1 is its first cell followed by the segment
      from the next one. */
  lemma OnSegmentStep(c1: Coord, c2: Coord, c: Coord)
    requires Straight(c1, c2) && c1 != c2
    ensures OnSegment(c1, c2, c) <==> c == c1 || OnSegment(Next(c1, c2), c2, c)
  {
  }

  /** The tiles after segment: every cell from c1 to c2 marked 'X'. */
  function Draw(tiles: map<Coord, char>, c1: Coord, c2: Coord): map<Coord, char>
    requires Straight(c1, c2)
    decreases Steps(c1, c2)
  {
    if c1 == c2 then tiles[c1 := 'X']
    else
      NextStraight(c1, c2);
      Draw(tiles[c1 := 'X'], Next(c1, c2), c2)
  }

  /** segment marks exactly the cells of the segment, ends included,
      and leaves every other tile as it was. */
  lemma {:induction false} DrawMarks(tiles: map<Coord, char>, c1: Coord, c2: Coord, c: Coord)
    requires Straight(c1, c2)
    ensures TileAt(Draw(tiles, c1, c2), c) == if OnSegment(c1, c2, c) then 'X' else TileAt(tiles, c)
    ensures c in Draw(tiles, c1, c2) <==> c in tiles || OnSegment(c1, c2, c)
    decreases Steps(c1, c2)
  {
    if c1 != c2 {
      NextStraight(c1, c2);
      OnSegmentStep(c1, c2, c);
      DrawMarks(tiles[c1 := 'X'], Next(c1, c2), c2, c);
    }
  }

  /** Marking the first cell before drawing changes nothing: segment
      calls rock on it before its loop. */
  lemma DrawFirst(tiles: map<Coord, char>, c1: Coord, c2: Coord)
    requires Straight(c1, c2)
    ensures Draw(tiles[c1 := 'X'], c1, c2) == Draw(tiles, c1, c2)
  {
    assert tiles[c1 := 'X'][c1 := 'X'] == tiles[c1 := 'X'];
  }

  // ---------------------------------------------------------------- sand

  /** The sideways offsets reaches tries below a grain, in order:
      straight down, down-left, down-right. */
  const Offsets: seq<int> := [0, -1, 1]

  /** The first of the cells one row below c, at the given offsets, that
      holds nothing. */
  function FirstClear(tiles: map<Coord, char>, c: Coord, dxs: seq<int>): (r: Option<Coord>)
    ensures r.Some? ==> r.value.1 == c.1 + 1 && r.value.0 - c.0 in dxs && TileAt(tiles, r.value) == ' '
  {
    if dxs == [] then None
    else if TileAt(tiles, (c.0 + dxs[0], c.1 + 1)) == ' ' then Some((c.0 + dxs[0], c.1 + 1))
    else FirstClear(tiles, c, dxs[1..])
  }

  /** No cell is clear exactly when every offset is blocked. */
  lemma {:induction false} FirstClearNone(tiles: map<Coord, char>, c: Coord, dxs: seq<int>)
    ensures FirstClear(tiles, c, dxs).None? <==> forall k :: 0 <= k < |dxs| ==> TileAt(tiles, (c.0 + dxs[k], c.1 + 1)) != ' '
  {
    if dxs != [] {
      FirstClearNone(tiles, c, dxs[1..]);
      if TileAt(tiles, (c.0 + dxs[0], c.1 + 1)) != ' ' {
        forall k | 0 < k < |dxs|
          ensures TileAt(tiles, (c.0 + dxs[k], c.1 + 1)) == TileAt(tiles, (c.0 + dxs[1..][k - 1], c.1 + 1))
        {
        }
      }
    }
  }

  /** Trying one more offset after the first ones. */
  lemma {:induction false} FirstClearSnoc(tiles: map<Coord, char>, c: Coord, dxs: seq<int>, dx: int)
    ensures FirstClear(tiles, c, dxs + [dx]) ==
      if FirstClear(tiles, c, dxs).Some? then FirstClear(tiles, c, dxs)
      else if TileAt(tiles, (c.0 + dx, c.1 + 1)) == ' ' then Some((c.0 + dx, c.1 + 1))
      else None
  {
    if dxs != [] {
      assert (dxs + [dx])[1..] == dxs[1..] + [dx];
      FirstClearSnoc(tiles, c, dxs[1..], dx);
    }
  }

  /** Where a grain falling from c ends: in the abyss once it reaches
      the abyss level, otherwise on the first cell from which down,
      down-left and down-right are all blocked. */
  datatype Landing = Abyss | Rest(at: Coord)

  function Fall(tiles: map<Coord, char>, abyss: int, c: Coord): (l: Landing)
    ensures l.Rest? ==> c.1 <= l.at.1 < abyss && Abs(l.at.0 - c.0) <= l.at.1 - c.1
    ensures l.Rest? && TileAt(tiles, c) == ' ' ==> TileAt(tiles, l.at) == ' '
    decreases abyss - c.1
  {
    if c.1 >= abyss then Abyss
    else match FirstClear(tiles, c, Offsets)
      case None => Rest(c)
      case Some(next) => Fall(tiles, abyss, next)
  }

  /** A grain rests only where down, down-left and down-right are all
      blocked. */
  lemma {:induction false} RestIsBlocked(tiles: map<Coord, char>, abyss: int, c: Coord)
    requires Fall(tiles, abyss, c).Rest?
    ensures forall k :: 0 <= k < |Offsets| ==>
      TileAt(tiles, (Fall(tiles, abyss, c).at.0 + Offsets[k], Fall(tiles, abyss, c).at.1 + 1)) != ' '
    decreases abyss - c.1
  {
    match FirstClear(tiles, c, Offsets)
    case None => FirstClearNone(tiles, c, Offsets);
    case Some(next) => RestIsBlocked(tiles, abyss, next);
  }

  /** The cells a grain from the source can rest on: above the abyss
      level, and no further sideways than down. */
  function Triangle(abyss: int): set<Coord>
  {
    set x: int, y: int | 0 <= y < abyss && 500 - y <= x <= 500 + y :: (x, y)
  }

  /** One call of reaches: the tiles after it and what it returns. A
      covered source is returned as it is; a grain reaching the abyss
      gives 'A'; a grain that rests is stored as 'o' and gives ' '. */
  function Drop(tiles: map<Coord, char>, abyss: int): (map<Coord, char>, char)
  {
    if TileAt(tiles, Source) != ' ' then (tiles, TileAt(tiles, Source))
    else match Fall(tiles, abyss, Source)
      case Abyss => (tiles, 'A')
      case Rest(c) => (tiles[c := 'o'], ' ')
  }

  /** reaches adds at most one tile and never overwrites one: on ' ' a
      single 'o' on an empty cell of the triangle, on anything else no
      change; and it returns ' ', 'A' or what covers the source. */
  lemma DropAddsOneGrain(tiles: map<Coord, char>, abyss: int)
    ensures Drop(tiles, abyss).1 != ' ' ==> Drop(tiles, abyss).0 == tiles
    ensures Drop(tiles, abyss).1 == ' ' ==>
      exists c :: c in Triangle(abyss) && TileAt(tiles, c) == ' ' && Drop(tiles, abyss).0 == tiles[c := 'o']
    ensures Drop(tiles, abyss).1 in {' ', 'A', TileAt(tiles, Source)}
  {
    if TileAt(tiles, Source) == ' ' && Fall(tiles, abyss, Source).Rest? {
      var c := Fall(tiles, abyss, Source).at;
      assert c in Triangle(abyss);
    }
  }

  /** A covered source stops everything: reaches returns what covers it
      and changes nothing. */
  lemma CoveredSource(tiles: map<Coord, char>, abyss: int)
    requires TileAt(tiles, Source) != ' '
    ensures Drop(tiles, abyss) == (tiles, TileAt(tiles, Source))
  {
  }

  /** The cells holding something. */
  function Filled(tiles: map<Coord, char>): set<Coord>
  {
    set c | c in tiles && tiles[c] != ' '
  }

  /** A new tile inside the triangle leaves one fewer empty cell there. */
  lemma FewerEmpty(tiles: map<Coord, char>, abyss: int, c: Coord, t: char)
    requires t != ' '
    requires c in Triangle(abyss) && TileAt(tiles, c) == ' '
    ensures |Triangle(abyss) - Filled(tiles[c := t])| < |Triangle(abyss) - Filled(tiles)|
    ensures Filled(tiles[c := t]) == Filled(tiles) + {c}
  {
    assert Filled(tiles[c := t]) == Filled(tiles) + {c};
    assert c in Triangle(abyss) - Filled(tiles);
    assert Triangle(abyss) - Filled(tiles[c := t]) == (Triangle(abyss) - Filled(tiles)) - {c};
  }

  /** A grain that rests fills one more cell of the triangle. */
  lemma DropShrinks(tiles: map<Coord, char>, abyss: int)
    requires Drop(tiles, abyss).1 == ' '
    ensures |Triangle(abyss) - Filled(Drop(tiles, abyss).0)| < |Triangle(abyss) - Filled(tiles)|
    ensures Filled(Drop(tiles, abyss).0) == Filled(tiles) + {Fall(tiles, abyss, Source).at}
    ensures Fall(tiles, abyss, Source).at !in Filled(tiles)
  {
    var c := Fall(tiles, abyss, Source).at;
    assert c in Triangle(abyss);
    FewerEmpty(tiles, abyss, c, 'o');
  }

  function Plus(n: Option<nat>, k: nat): Option<nat>
  {
    match n
    case None => None
    case Some(m) => Some(m + k)
  }

  lemma PlusPlus(n: Option<nat>, j: nat, k: nat)
    ensures Plus(Plus(n, j), k) == Plus(n, j + k)
  {
  }

  /** What sand counts: the calls of reaches before the one returning the
      goal. None when reaches returns neither the goal nor ' ', since it
      then changes nothing and sand's loop never ends. */
  function Pour(tiles: map<Coord, char>, abyss: int, goal: char): Option<nat>
    decreases |Triangle(abyss) - Filled(tiles)|
  {
    var (tiles', r) := Drop(tiles, abyss);
    if r == goal then Some(0)
    else if r != ' ' then None
    else
      DropShrinks(tiles, abyss);
      Plus(Pour(tiles', abyss, goal), 1)
  }

  /** The tiles when sand stops, or when it starts to go round for ever. */
  function Poured(tiles: map<Coord, char>, abyss: int, goal: char): map<Coord, char>
    decreases |Triangle(abyss) - Filled(tiles)|
  {
    var (tiles', r) := Drop(tiles, abyss);
    if r == goal || r != ' ' then tiles'
    else
      DropShrinks(tiles, abyss);
      Poured(tiles', abyss, goal)
  }

  /** Each counted grain rests on its own empty cell of the triangle: the
      count is at most the number of empty cells there, the filled cells
      grow by exactly that many (one more when the goal is ' ' itself),
      and no earlier tile changes. */
  lemma {:induction false} PourCounts(tiles: map<Coord, char>, abyss: int, goal: char)
    requires Pour(tiles, abyss, goal).Some?
    ensures Pour(tiles, abyss, goal).value <= |Triangle(abyss) - Filled(tiles)|
    ensures |Filled(Poured(tiles, abyss, goal))| ==
      |Filled(tiles)| + Pour(tiles, abyss, goal).value + if goal == ' ' then 1 else 0
    ensures forall c :: TileAt(tiles, c) != ' ' ==> TileAt(Poured(tiles, abyss, goal), c) == TileAt(tiles, c)
    decreases |Triangle(abyss) - Filled(tiles)|
  {
    var (tiles', r) := Drop(tiles, abyss);
    DropAddsOneGrain(tiles, abyss);
    if r == ' ' {
      DropShrinks(tiles, abyss);
      if r != goal {
        PourCounts(tiles', abyss, goal);
      }
    }
  }

  /** One call of reaches inside sand's loop that stops it: it returns
      the goal and sand stops, or returns something else than ' ' and
      sand goes round for ever. */
  lemma PourStops(tiles: map<Coord, char>, abyss: int, goal: char)
    requires Drop(tiles, abyss).1 == goal || Drop(tiles, abyss).1 != ' '
    ensures Pour(tiles, abyss, goal) == if Drop(tiles, abyss).1 == goal then Some(0) else None
    ensures Poured(tiles, abyss, goal) == Drop(tiles, abyss).0
  {
  }

  /** One call of reaches inside sand's loop that stores a grain: sand
      counts it and goes on from the new tiles. */
  lemma PourGoesOn(tiles: map<Coord, char>, abyss: int, goal: char)
    requires Drop(tiles, abyss).1 != goal && Drop(tiles, abyss).1 == ' '
    ensures Pour(tiles, abyss, goal) == Plus(Pour(Drop(tiles, abyss).0, abyss, goal), 1)
    ensures Poured(tiles, abyss, goal) == Poured(Drop(tiles, abyss).0, abyss, goal)
    ensures |Triangle(abyss) - Filled(Drop(tiles, abyss).0)| < |Triangle(abyss) - Filled(tiles)|
  {
    DropShrinks(tiles, abyss);
  }

  /** A source that stays uncovered while grains rest makes sand go round
      for ever when the goal is a covered source: the loop of part 2 on a
      cave whose sand falls into the abyss. */
  lemma AbyssNeverCovers(tiles: map<Coord, char>, abyss: int)
    requires TileAt(tiles, Source) == ' ' && Fall(tiles, abyss, Source).Abyss?
    ensures Pour(tiles, abyss, 'o') == None
  {
  }

  /** A floor row at the abyss level wide enough for every grain: no
      grain from c falls into the abyss. */
  predicate FloorRow(tiles: map<Coord, char>, abyss: int)
  {
    forall x :: 500 - abyss - 1 <= x <= 500 + abyss + 1 ==> TileAt(tiles, (x, abyss)) != ' '
  }

  lemma {:induction false} FloorCatches(tiles: map<Coord, char>, abyss: int, c: Coord)
    requires FloorRow(tiles, abyss) && 0 <= c.1 < abyss && Abs(c.0 - 500) <= c.1
    ensures Fall(tiles, abyss, c).Rest?
    decreases abyss - c.1
  {
    if c.1 + 1 < abyss {
      match FirstClear(tiles, c, Offsets)
      case None =>
      case Some(next) => FloorCatches(tiles, abyss, next);
    } else {
      forall k | 0 <= k < |Offsets|
        ensures TileAt(tiles, (c.0 + Offsets[k], c.1 + 1)) != ' '
      {
      }
    }
  }

  /** Part 2's promise: with the floor in place and the source not rock,
      grains rest one by one until one covers the source, so sand with
      goal 'o' stops. */
  lemma {:induction false} FloorStopsSand(tiles: map<Coord, char>, abyss: int)
    requires FloorRow(tiles, abyss) && abyss > 0
    requires TileAt(tiles, Source) == ' ' || TileAt(tiles, Source) == 'o'
    ensures Pour(tiles, abyss, 'o').Some?
    decreases |Triangle(abyss) - Filled(tiles)|
  {
    if TileAt(tiles, Source) == ' ' {
      FloorCatches(tiles, abyss, Source);
      var c := Fall(tiles, abyss, Source).at;
      var tiles' := tiles[c := 'o'];
      DropShrinks(tiles, abyss);
      assert FloorRow(tiles', abyss) by {
        forall x | 500 - abyss - 1 <= x <= 500 + abyss + 1
          ensures TileAt(tiles', (x, abyss)) != ' '
        {
          assert TileAt(tiles, (x, abyss)) != ' ';
        }
      }
      FloorStopsSand(tiles', abyss);
    }
  }

  // --------------------------------------------------------------- paths

  /** A rock path whose every segment is straight. */
  predicate StraightPath(pts: seq<Coord>)
  {
    |pts| < 2 || (Straight(pts[0], pts[1]) && StraightPath(pts[1..]))
  }

  /** The tiles after path: each segment between consecutive points
      drawn in turn; a line with fewer than two points draws nothing. */
  function DrawPath(tiles: map<Coord, char>, pts: seq<Coord>): map<Coord, char>
    requires StraightPath(pts)
    decreases |pts|
  {
    if |pts| < 2 then tiles else DrawPath(Draw(tiles, pts[0], pts[1]), pts[1..])
  }

  /** The abyss after path: each segment's ends can deepen it. */
  function PathDepth(abyss: int, pts: seq<Coord>): int
    decreases |pts|
  {
    if |pts| < 2 then abyss else PathDepth(Max(abyss, Max(pts[0].1, pts[1].1)), pts[1..])
  }

  /** A path deepens the abyss to its lowest point, and no further. */
  lemma {:induction false} PathDepthIsLowest(abyss: int, pts: seq<Coord>)
    ensures PathDepth(abyss, pts) >= abyss
    ensures |pts| >= 2 ==> forall i :: 0 <= i < |pts| ==> pts[i].1 <= PathDepth(abyss, pts)
    ensures PathDepth(abyss, pts) == abyss || exists i :: 0 <= i < |pts| && pts[i].1 == PathDepth(abyss, pts)
    decreases |pts|
  {
    if |pts| >= 2 {
      var a := Max(abyss, Max(pts[0].1, pts[1].1));
      PathDepthIsLowest(a, pts[1..]);
      var d := PathDepth(abyss, pts);
      assert d == PathDepth(a, pts[1..]);
      if d != abyss && d != a {
        var i :| 0 <= i < |pts[1..]| && pts[1..][i].1 == d;
        assert pts[i + 1].1 == d;
      } else if d == a && d != abyss {
        assert pts[0].1 == d || pts[1].1 == d;
      }
      forall i | 0 <= i < |pts|
        ensures pts[i].1 <= d
      {
        if i > 0 {
          assert pts[i] == pts[1..][i - 1];
        }
      }
    }
  }

  /** Every tile a path draws lies at or above the abyss level it
      leaves: the abyss is the lowest rock. */
  lemma {:induction false} PathAboveAbyss(tiles: map<Coord, char>, abyss: int, pts: seq<Coord>, c: Coord)
    requires StraightPath(pts)
    requires TileAt(tiles, c) != ' ' ==> c.1 <= abyss
    ensures TileAt(DrawPath(tiles, pts), c) != ' ' ==> c.1 <= PathDepth(abyss, pts)
    decreases |pts|
  {
    if |pts| >= 2 {
      var t := Draw(tiles, pts[0], pts[1]);
      var a := Max(abyss, Max(pts[0].1, pts[1].1));
      DrawMarks(tiles, pts[0], pts[1], c);
      PathAboveAbyss(t, a, pts[1..], c);
    }
  }

  /** The rock the input draws: its paths in order. */
  predicate StraightPaths(paths: seq<seq<Coord>>)
  {
    forall i :: 0 <= i < |paths| ==> StraightPath(paths[i])
  }

  function Rocks(paths: seq<seq<Coord>>): map<Coord, char>
    requires StraightPaths(paths)
  {
    if paths == [] then map[] else DrawPath(Rocks(paths[..|paths| - 1]), paths[|paths| - 1])
  }

  function Depth(paths: seq<seq<Coord>>): int
  {
    if paths == [] then 0 else PathDepth(Depth(paths[..|paths| - 1]), paths[|paths| - 1])
  }

  /** The abyss is at or below every rock: a grain below the abyss level
      meets nothing. */
  lemma {:induction false} RocksAboveAbyss(paths: seq<seq<Coord>>, c: Coord)
    requires StraightPaths(paths)
    ensures TileAt(Rocks(paths), c) != ' ' ==> c.1 <= Depth(paths)
    ensures Depth(paths) >= 0
    decreases |paths|
  {
    if paths != [] {
      var init := paths[..|paths| - 1];
      RocksAboveAbyss(init, c);
      PathAboveAbyss(Rocks(init), Depth(init), paths[|paths| - 1], c);
      PathDepthIsLowest(Depth(init), paths[|paths| - 1]);
    }
  }

  // ---------------------------------------------------------------- cave

  /** The cave: the tiles holding rock or sand, and the level from which
      sand falls into the abyss, the largest y of any rock. */
  class Cave {
    var tiles: map<Coord, char>
    var abyss: int

    /** The cave constructor: every input line is a path of rock. */
    constructor (paths: seq<seq<Coord>>)
      requires StraightPaths(paths)
      ensures tiles == Rocks(paths) && abyss == Depth(paths)
    {
      tiles := map[];
      abyss := 0;
      new;
      for i := 0 to |paths|
        invariant tiles == Rocks(paths[..i]) && abyss == Depth(paths[..i])
      {
        assert paths[..i + 1][..i] == paths[..i];
        Path(paths[i]);
      }
      assert paths[..|paths|] == paths;
    }

    /** at: the tile at c, ' ' for nothing. */
    function At(c: Coord): (t: char)
      reads this
      ensures t == TileAt(tiles, c)
    {
      if c in tiles then tiles[c] else ' '
    }

    /** rock: the tile becomes rock and the abyss is at least as deep as
        it. */
    method Rock(c: Coord)
      modifies this
      ensures tiles == old(tiles)[c := 'X'] && abyss == Max(old(abyss), c.1)
    {
      tiles := tiles[c := 'X'];
      abyss := Max(abyss, c.1);
    }

    /** segment: every cell from c1 to c2 becomes rock, stepping by the
        sign of the difference on each axis. */
    method Segment(c1: Coord, c2: Coord)
      requires Straight(c1, c2)
      modifies this
      ensures tiles == Draw(old(tiles), c1, c2)
      ensures abyss == Max(old(abyss), Max(c1.1, c2.1))
    {
      var dx := StepTo(c1.0, c2.0);
      var dy := StepTo(c1.1, c2.1);
      var c := c1;
      Rock(c);
      DrawFirst(old(tiles), c1, c2);
      while c != c2
        invariant Straight(c, c2) && c in tiles && tiles[c] == 'X'
        invariant Draw(tiles, c, c2) == Draw(old(tiles), c1, c2)
        invariant c != c2 ==> dx == StepTo(c.0, c2.0) && dy == StepTo(c.1, c2.1)
        invariant Between(c1.1, c2.1, c.1) && abyss == Max(old(abyss), Max(c1.1, c.1))
        decreases Steps(c, c2)
      {
        NextStraight(c, c2);
        assert tiles[c := 'X'] == tiles;
        ghost var before := tiles;
        c := (c.0 + dx, c.1 + dy);
        Rock(c);
        DrawFirst(before, c, c2);
      }
      assert tiles[c2 := 'X'] == tiles;
    }

    /** path: a segment from each point to the next. */
    method Path(pts: seq<Coord>)
      requires StraightPath(pts)
      modifies this
      ensures tiles == DrawPath(old(tiles), pts) && abyss == PathDepth(old(abyss), pts)
    {
      if |pts| < 2 {
        return;
      }
      var c1 := pts[0];
      var i := 1;
      while i < |pts|
        invariant 1 <= i <= |pts| && c1 == pts[i - 1] && StraightPath(pts[i - 1..])
        invariant DrawPath(tiles, pts[i - 1..]) == DrawPath(old(tiles), pts)
        invariant PathDepth(abyss, pts[i - 1..]) == PathDepth(old(abyss), pts)
      {
        assert pts[i - 1..][1..] == pts[i..];
        Segment(c1, pts[i]);
        c1 := pts[i];
        i := i + 1;
      }
    }

    /** floor: a rock row two below the lowest rock, wide enough that a
        grain moving diagonally all the way still lands on it. */
    method Floor()
      modifies this
      requires abyss >= 0
      ensures abyss == old(abyss) + 2
      ensures tiles == Draw(old(tiles), (500 - abyss - 1, abyss), (500 + abyss + 1, abyss))
      ensures FloorRow(tiles, abyss)
    {
      var floor := abyss + 2;
      Segment((500 - floor - 1, floor), (500 + floor + 1, floor));
      forall x | 500 - abyss - 1 <= x <= 500 + abyss + 1
        ensures TileAt(tiles, (x, abyss)) != ' '
      {
        DrawMarks(old(tiles), (500 - floor - 1, floor), (500 + floor + 1, floor), (x, abyss));
      }
    }

    /** reaches: drop one grain from the source. */
    method Reaches() returns (r: char)
      modifies this
      ensures (tiles, r) == Drop(old(tiles), old(abyss)) && abyss == old(abyss)
    {
      var c := Source;
      if At(c) != ' ' {
        return At(c);
      }
      while c.1 < abyss
        invariant Fall(tiles, abyss, c) == Fall(tiles, abyss, Source)
        invariant tiles == old(tiles) && abyss == old(abyss)
        decreases abyss - c.1
      {
        var next: Option<Coord> := None;
        for k := 0 to |Offsets|
          invariant next == FirstClear(tiles, c, Offsets[..k])
          invariant tiles == old(tiles) && abyss == old(abyss)
        {
          var dx := Offsets[k];
          FirstClearSnoc(tiles, c, Offsets[..k], dx);
          assert Offsets[..k + 1] == Offsets[..k] + [dx];
          if next.None? && At((c.0 + dx, c.1 + 1)) == ' ' {
            next := Some((c.0 + dx, c.1 + 1));
          }
        }
        assert Offsets[..|Offsets|] == Offsets;
        if next.None? {
          tiles := tiles[c := 'o'];
          return ' ';
        }
        c := next.value;
      }
      return 'A';
    }

    /** sand: pour grains until reaches returns the goal. The source's
        loop never ends once reaches returns anything else than the goal
        or ' '; the model returns None there. */
    method Sand(goal: char) returns (ans: Option<nat>)
      modifies this
      ensures ans == Pour(old(tiles), old(abyss), goal)
      ensures tiles == Poured(old(tiles), old(abyss), goal) && abyss == old(abyss)
    {
      var count := 0;
      while true
        invariant abyss == old(abyss)
        invariant Pour(old(tiles), abyss, goal) == Plus(Pour(tiles, abyss, goal), count)
        invariant Poured(old(tiles), abyss, goal) == Poured(tiles, abyss, goal)
        decreases |Triangle(abyss) - Filled(tiles)|
      {
        ghost var before := tiles;
        var r := Reaches();
        if r == goal || r != ' ' {
          PourStops(before, abyss, goal);
          return if r == goal then Some(count) else None;
        }
        PourGoesOn(before, abyss, goal);
        PlusPlus(Pour(tiles, abyss, goal), 1, count);
        count := count + 1;
      }
    }
  }

  /** part1: the grains that rest before one falls into the abyss; None
      when the source is rock (the constructor's assert) or when sand
      covers the source first, where the source goes round for ever. */
  method Part1(paths: seq<seq<Coord>>) returns (ans: Option<nat>)
    requires StraightPaths(paths)
    ensures TileAt(Rocks(paths), Source) != ' ' ==> ans == None
    ensures TileAt(Rocks(paths), Source) == ' ' ==> ans == Pour(Rocks(paths), Depth(paths), 'A')
  {
    var cave := new Cave(paths);
    if cave.At(Source) != ' ' {
      return None;
    }
    ans := cave.Sand('A');
  }

  /** part2: with the floor, the grains poured before the source is
      covered. */
  method Part2(paths: seq<seq<Coord>>) returns (ans: Option<nat>)
    requires StraightPaths(paths)
    ensures TileAt(Rocks(paths), Source) != ' ' <==> ans == None
    ensures TileAt(Rocks(paths), Source) == ' ' ==>
      ans == Pour(Draw(Rocks(paths), (500 - Depth(paths) - 3, Depth(paths) + 2),
                       (500 + Depth(paths) + 3, Depth(paths) + 2)), Depth(paths) + 2, 'o')
  {
    var cave := new Cave(paths);
    if cave.At(Source) != ' ' {
      return None;
    }
    RocksAboveAbyss(paths, Source);
    cave.Floor();
    DrawMarks(Rocks(paths), (500 - Depth(paths) - 3, Depth(paths) + 2), (500 + Depth(paths) + 3, Depth(paths) + 2), Source);
    FloorStopsSand(cave.tiles, cave.abyss);
    ans := cave.Sand('o');
  }
}
