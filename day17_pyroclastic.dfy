/** Pyroclastic Flow (day 17): rocks of five shapes fall in turn into a
    chamber seven units wide, pushed sideways by a cycle of air jets; the
    answer is the height of the tower after a number of rocks, with a
    detected repeat used to skip most of them. */
module PyroclasticFlow {
  import opened Common

  /** An empty row of the chamber. */
  const Nothing := "......."
  const Width := 7

  /** The rocks in the order they fall, each listed bottom row first. */
  const RockCount := 5

  function Rock(i: nat): seq<string>
    requires i < RockCount
  {
    match i
    case 0 => ["@@@@"]
    case 1 => [".@.", "@@@", ".@."]
    case 2 => ["@@@", "..@", "..@"]
    case 3 => ["@", "@", "@", "@"]
    case _ => ["@@", "@@"]
  }

  /** A rock: at least one row, all as wide as the first and no wider than
      the chamber, with a piece in its bottom row. */
  predicate RockShaped(rock: seq<string>)
  {
    |rock| > 0 && 0 < |rock[0]| <= Width &&
    (forall i :: 0 <= i < |rock| ==> |rock[i]| == |rock[0]|) &&
    exists dx :: 0 <= dx < |rock[0]| && rock[0][dx] != '.'
  }

  lemma RocksShaped()
    ensures RockCount == 5 && forall i :: 0 <= i < 5 ==> RockShaped(Rock(i)) && |Rock(i)| <= 4
  {
    assert Rock(0)[0][0] != '.';
    assert Rock(1)[0][1] != '.';
    assert Rock(2)[0][0] != '.';
    assert Rock(3)[0][0] != '.';
    assert Rock(4)[0][0] != '.';
  }

  /** Every row of the chamber is seven cells wide. */
  predicate Rows7(c: seq<string>)
  {
    forall i :: 0 <= i < |c| ==> |c[i]| == Width
  }

  /** No piece of rrow, placed at column x, lands on a filled cell of row. */
  predicate RowClear(row: string, rrow: string, x: int)
    requires 0 <= x && x + |rrow| <= |row|
  {
    forall dx :: 0 <= dx < |rrow| && rrow[dx] != '.' ==> row[x + dx] == '.'
  }

  /** fits: the rock with its lower left corner at (x, y) stays inside the
      walls and above the floor and overlaps nothing. */
  predicate FitsAt(c: seq<string>, rock: seq<string>, x: int, y: int)
    requires Rows7(c) && RockShaped(rock) && y + |rock| <= |c|
  {
    0 <= x && x + |rock[0]| <= Width && 0 <= y &&
    forall dy :: 0 <= dy < |rock| ==> RowClear(c[y + dy], rock[dy], x)
  }

  /** The index after i in a cycle of n, written without the remainder that
      CycleMod shows it equals. */
  function Cycle(i: nat, n: nat): (r: nat)
    requires i < n
    ensures r < n
  {
    if i + 1 < n then i + 1 else 0
  }

  /** get_rock and get_jet step their index as (i + 1) % n. */
  lemma CycleMod(i: nat, n: nat)
    requires i < n
    ensures Cycle(i, n) == (i + 1) % n
  {
  }

  /** -1 for a jet pushing left, +1 otherwise. */
  function Push(jets: string, j: nat): int
    requires j < |jets|
  {
    if jets[j] == '<' then -1 else 1
  }

  /** Where a falling rock comes to rest, and the next jet. */
  datatype Rest = Rest(x: int, y: int, jet: nat)

  /** The jet's push: x moved by the jet when the rock fits there. */
  function Shift(c: seq<string>, rock: seq<string>, jets: string, j: nat, x: int, y: int): (x1: int)
    requires Rows7(c) && RockShaped(rock) && j < |jets| && y + |rock| <= |c| && FitsAt(c, rock, x, y)
    ensures FitsAt(c, rock, x1, y) && (x1 == x || x1 == x + Push(jets, j))
  {
    if FitsAt(c, rock, x + Push(jets, j), y) then x + Push(jets, j) else x
  }

  /** The fall of drop_rock from (x, y) with jet j next: a push when it fits,
      then a drop by one row when that fits, else the rock stops. */
  function Fall(c: seq<string>, rock: seq<string>, jets: string, j: nat, x: int, y: int): (r: Rest)
    requires Rows7(c) && RockShaped(rock) && j < |jets| && y + |rock| <= |c| && FitsAt(c, rock, x, y)
    ensures r.jet < |jets| && r.y <= y && FitsAt(c, rock, r.x, r.y)
    ensures !FitsAt(c, rock, r.x, r.y - 1)
    decreases y, 1
  {
    Drift(c, rock, jets, Cycle(j, |jets|), Shift(c, rock, jets, j, x, y), y)
  }

  /** The rest of a round of the fall once the rock has been pushed to x:
      a drop by one row when that fits, else the rock stops. */
  function Drift(c: seq<string>, rock: seq<string>, jets: string, j: nat, x: int, y: int): (r: Rest)
    requires Rows7(c) && RockShaped(rock) && j < |jets| && y + |rock| <= |c| && FitsAt(c, rock, x, y)
    ensures r.jet < |jets| && r.y <= y && FitsAt(c, rock, r.x, r.y)
    ensures !FitsAt(c, rock, r.x, r.y - 1)
    decreases y, 0
  {
    if FitsAt(c, rock, x, y - 1) then Fall(c, rock, jets, j, x, y - 1) else Rest(x, y, j)
  }

  /** One round of the fall: the rock either drops a row and falls on from
      there, or stops where the push left it. */
  lemma FallStep(c: seq<string>, rock: seq<string>, jets: string, j: nat, x: int, y: int)
    requires Rows7(c) && RockShaped(rock) && j < |jets| && y + |rock| <= |c| && FitsAt(c, rock, x, y)
    ensures var x1 := Shift(c, rock, jets, j, x, y);
      if FitsAt(c, rock, x1, y - 1) then Fall(c, rock, jets, j, x, y) == Fall(c, rock, jets, Cycle(j, |jets|), x1, y - 1)
      else Fall(c, rock, jets, j, x, y) == Rest(x1, y, Cycle(j, |jets|))
  {
    assert Fall(c, rock, jets, j, x, y) == Drift(c, rock, jets, Cycle(j, |jets|), Shift(c, rock, jets, j, x, y), y);
  }

  /** row with the pieces of rrow written at column x. */
  function PlaceRow(row: string, rrow: string, x: int): (r: string)
    requires 0 <= x && x + |rrow| <= |row|
    ensures |r| == |row|
  {
    seq(|row|, c requires 0 <= c < |row| => if x <= c < x + |rrow| && rrow[c - x] != '.' then rrow[c - x] else row[c])
  }

  /** The chamber with the rock's pieces written at (x, y). */
  function Placed(c: seq<string>, rock: seq<string>, x: int, y: int): (r: seq<string>)
    requires Rows7(c) && RockShaped(rock) && 0 <= x && x + |rock[0]| <= Width && 0 <= y && y + |rock| <= |c|
    ensures |r| == |c| && Rows7(r)
  {
    seq(|c|, i requires 0 <= i < |c| => if y <= i < y + |rock| then PlaceRow(c[i], rock[i - y], x) else c[i])
  }

  /** cur is c with the first k rows of the rock written at (x, y). */
  ghost predicate PlacedUpTo(cur: seq<string>, c: seq<string>, rock: seq<string>, x: int, y: int, k: int)
    requires Rows7(c) && RockShaped(rock) && 0 <= x && x + |rock[0]| <= Width && 0 <= y && y + |rock| <= |c|
  {
    0 <= k <= |rock| && |cur| == |c| &&
    forall i :: 0 <= i < |c| ==> cur[i] == if y <= i < y + k then PlaceRow(c[i], rock[i - y], x) else c[i]
  }

  lemma PlacedNone(c: seq<string>, rock: seq<string>, x: int, y: int)
    requires Rows7(c) && RockShaped(rock) && 0 <= x && x + |rock[0]| <= Width && 0 <= y && y + |rock| <= |c|
    ensures PlacedUpTo(c, c, rock, x, y, 0)
  {
  }

  lemma PlacedOneMore(cur: seq<string>, c: seq<string>, rock: seq<string>, x: int, y: int, k: int)
    requires Rows7(c) && RockShaped(rock) && 0 <= x && x + |rock[0]| <= Width && 0 <= y && y + |rock| <= |c|
    requires PlacedUpTo(cur, c, rock, x, y, k) && k < |rock|
    ensures PlacedUpTo(cur[y + k := PlaceRow(c[y + k], rock[k], x)], c, rock, x, y, k + 1)
  {
  }

  lemma PlacedAll(cur: seq<string>, c: seq<string>, rock: seq<string>, x: int, y: int)
    requires Rows7(c) && RockShaped(rock) && 0 <= x && x + |rock[0]| <= Width && 0 <= y && y + |rock| <= |c|
    requires PlacedUpTo(cur, c, rock, x, y, |rock|)
    ensures cur == Placed(c, rock, x, y)
  {
  }

  /** trim: the chamber without its empty rows at the top. */
  function Trimmed(c: seq<string>): (r: seq<string>)
    ensures |r| <= |c| && r == c[..|r|]
    ensures forall i :: |r| <= i < |c| ==> c[i] == Nothing
    ensures r == [] || r[|r| - 1] != Nothing
    ensures Rows7(c) ==> Rows7(r)
  {
    if c != [] && c[|c| - 1] == Nothing then
      var r := Trimmed(c[..|c| - 1]);
      assert c[..|c| - 1][..|r|] == c[..|r|];
      r
    else c
  }

  /** A row below a row that is not empty survives the trim. */
  lemma TrimmedKeeps(c: seq<string>, i: int)
    requires 0 <= i < |c| && c[i] != Nothing
    ensures |Trimmed(c)| > i
  {
  }

  /** n empty rows. */
  function Blank(n: nat): (r: seq<string>)
    ensures |r| == n && Rows7(r) && forall i :: 0 <= i < n ==> r[i] == Nothing
  {
    seq(n, _ => Nothing)
  }

  /** The string find of like_a_floor: four empty cells side by side. */
  predicate GapAt(row: string, i: int)
    requires 0 <= i && i + 4 <= |row|
  {
    row[i] == '.' && row[i + 1] == '.' && row[i + 2] == '.' && row[i + 3] == '.'
  }

  predicate HasGap(row: string)
  {
    exists i | 0 <= i && i + 4 <= |row| :: GapAt(row, i)
  }

  /** The chamber's state: what is in it, the next jet and rock, the rocks
      dropped so far and the first sightings of a floor. */
  datatype Cave = Cave(contents: seq<string>, nextJet: nat, nextRock: nat, numRocks: nat,
                       repeats: map<nat, (nat, nat)>)

  /** What every drop keeps: a valid jet and rock, rows seven wide, a top
      row that is not empty, and sightings no later than now. */
  predicate Good(jets: string, c: Cave)
  {
    |jets| > 0 && c.nextJet < |jets| && c.nextRock < RockCount && Rows7(c.contents) &&
    (c.contents == [] || c.contents[|c.contents| - 1] != Nothing) &&
    forall k :: k in c.repeats ==> c.repeats[k].0 <= c.numRocks && c.repeats[k].1 <= |c.contents|
  }

  /** like_a_floor on a state: the flat rock is next and the top row has
      no gap of four. */
  predicate Floor(c: Cave)
    requires c.contents != []
  {
    c.nextRock == 0 && !HasGap(c.contents[|c.contents| - 1])
  }

  /** check_for_repeats, the state it leaves: the first time a floor shows
      with a given next jet, the rocks and height are recorded for it. */
  function Recorded(c: Cave): Cave
    requires c.contents != []
  {
    if Floor(c) && c.nextJet !in c.repeats then c.(repeats := c.repeats[c.nextJet := (c.numRocks, |c.contents|)])
    else c
  }

  /** check_for_repeats, what it reports: on a later floor with the same
      next jet, the rocks and height since the first one; else nothing. */
  function Sighting(c: Cave): (int, int)
    requires c.contents != []
  {
    if Floor(c) && c.nextJet in c.repeats then
      var prev := c.repeats[c.nextJet];
      (c.numRocks - prev.0, |c.contents| - prev.1)
    else (0, 0)
  }

  /** The height the rock spawns at: three empty rows above the top. */
  function Spawn(c: Cave): int
  {
    |c.contents| + 3
  }

  /** The chamber padded for the next rock. */
  function Padded(c: Cave): (p: seq<string>)
    requires c.nextRock < RockCount
  {
    c.contents + Blank(3 + |Rock(c.nextRock)|)
  }

  /** Where the next rock comes to rest. */
  function Landing(jets: string, c: Cave): (r: Rest)
    requires Good(jets, c)
    ensures RockShaped(Rock(c.nextRock)) && Rows7(Padded(c)) && r.jet < |jets|
    ensures 0 <= r.x && r.x + |Rock(c.nextRock)[0]| <= Width && 0 <= r.y && r.y + |Rock(c.nextRock)| <= |Padded(c)|
  {
    SpawnFits(jets, c);
    Fall(Padded(c), Rock(c.nextRock), jets, c.nextJet, 2, Spawn(c))
  }

  /** The rock spawns at x = 2 in empty rows, so it fits there. */
  lemma SpawnFits(jets: string, c: Cave)
    requires Good(jets, c)
    ensures RockShaped(Rock(c.nextRock)) && Rows7(Padded(c))
    ensures Spawn(c) + |Rock(c.nextRock)| <= |Padded(c)|
    ensures FitsAt(Padded(c), Rock(c.nextRock), 2, Spawn(c))
  {
    RocksShaped();
    var rock, p := Rock(c.nextRock), Padded(c);
    forall dy | 0 <= dy < |rock|
      ensures RowClear(p[Spawn(c) + dy], rock[dy], 2)
    {
      assert p[Spawn(c) + dy] == Nothing;
    }
  }

  /** The chamber once the next rock has come to rest, trimmed. */
  function Settled(jets: string, c: Cave): (s: seq<string>)
    requires Good(jets, c)
    ensures Rows7(s) && |s| > 0 && |s| >= |c.contents| && s[|s| - 1] != Nothing
  {
    var rest := Landing(jets, c);
    SettledShape(jets, c, rest);
    Trimmed(Placed(Padded(c), Rock(c.nextRock), rest.x, rest.y))
  }

  /** The rock placed where it lands, trimmed: rows seven wide, no lower
      than before, a top row that is not empty. */
  lemma SettledShape(jets: string, c: Cave, rest: Rest)
    requires Good(jets, c) && rest == Landing(jets, c)
    ensures RockShaped(Rock(c.nextRock)) && Rows7(Padded(c))
    ensures 0 <= rest.x && rest.x + |Rock(c.nextRock)[0]| <= Width && 0 <= rest.y && rest.y + |Rock(c.nextRock)| <= |Padded(c)|
    ensures var s := Trimmed(Placed(Padded(c), Rock(c.nextRock), rest.x, rest.y));
      Rows7(s) && |s| > 0 && |s| >= |c.contents| && s[|s| - 1] != Nothing
  {
    var n := |c.contents|;
    var p := Padded(c);
    assert n == 0 || p[n - 1] != Nothing by {
      if n > 0 {
        assert p[n - 1] == c.contents[n - 1];
      }
    }
    PlacedKept(p, Rock(c.nextRock), rest.x, rest.y, n);
  }

  /** The state once the next rock has come to rest, before the check
      for a repeat. */
  function Landed(jets: string, c: Cave): (l: Cave)
    requires Good(jets, c)
    ensures l.contents != []
  {
    Cave(Settled(jets, c), Landing(jets, c).jet, Cycle(c.nextRock, RockCount), c.numRocks + 1, c.repeats)
  }

  /** The settled chamber, given where the rock lands. */
  lemma SettledAt(jets: string, c: Cave, rest: Rest)
    requires Good(jets, c) && rest == Landing(jets, c)
    ensures RockShaped(Rock(c.nextRock)) && Rows7(Padded(c))
    ensures 0 <= rest.x && rest.x + |Rock(c.nextRock)[0]| <= Width && 0 <= rest.y && rest.y + |Rock(c.nextRock)| <= |Padded(c)|
    ensures Settled(jets, c) == Trimmed(Placed(Padded(c), Rock(c.nextRock), rest.x, rest.y))
  {
  }

  /** Empty rows pushed in two goes. */
  lemma BlankJoin(c: seq<string>, a: nat, b: nat)
    ensures c + Blank(a) + Blank(b) == c + Blank(a + b)
  {
  }

  /** drop_rock as a function of the state: pad, fall, place, trim, and
      record a floor. */
  function Drop(jets: string, c: Cave): Cave
    requires Good(jets, c)
  {
    Recorded(Landed(jets, c))
  }

  /** What drop_rock reports. */
  function Found(jets: string, c: Cave): (int, int)
    requires Good(jets, c)
  {
    Sighting(Landed(jets, c))
  }

  /** A row of the chamber that is not empty has a filled cell. */
  lemma FilledCell(row: string) returns (k: int)
    requires |row| == Width && row != Nothing
    ensures 0 <= k < Width && row[k] != '.'
  {
    if row[0] != '.' { k := 0; }
    else if row[1] != '.' { k := 1; }
    else if row[2] != '.' { k := 2; }
    else if row[3] != '.' { k := 3; }
    else if row[4] != '.' { k := 4; }
    else if row[5] != '.' { k := 5; }
    else if row[6] != '.' { k := 6; }
    else { assert false; }
  }

  /** A filled cell stays filled when a rock row is written over it. */
  lemma PlaceRowKeeps(row: string, rrow: string, x: int, k: int)
    requires 0 <= x && x + |rrow| <= |row| && 0 <= k < |row| && row[k] != '.'
    ensures PlaceRow(row, rrow, x)[k] != '.'
  {
  }

  /** A piece of the rock row fills its cell. */
  lemma PlaceRowFills(row: string, rrow: string, x: int, dx: int)
    requires 0 <= x && x + |rrow| <= |row| && 0 <= dx < |rrow| && rrow[dx] != '.'
    ensures PlaceRow(row, rrow, x)[x + dx] != '.'
  {
  }

  /** Placing a rock fills a cell of its bottom row. */
  lemma PlacedBottom(p: seq<string>, rock: seq<string>, x: int, y: int)
    requires Rows7(p) && RockShaped(rock) && 0 <= x && x + |rock[0]| <= Width && 0 <= y && y + |rock| <= |p|
    ensures Placed(p, rock, x, y)[y] != Nothing
  {
    var dx :| 0 <= dx < |rock[0]| && rock[0][dx] != '.';
    assert Placed(p, rock, x, y)[y] == PlaceRow(p[y], rock[0], x);
    PlaceRowFills(p[y], rock[0], x, dx);
    assert Nothing[x + dx] == '.';
  }

  /** Placing a rock empties no row. */
  lemma PlacedFilled(p: seq<string>, rock: seq<string>, x: int, y: int, i: int)
    requires Rows7(p) && RockShaped(rock) && 0 <= x && x + |rock[0]| <= Width && 0 <= y && y + |rock| <= |p|
    requires 0 <= i < |p| && p[i] != Nothing
    ensures Placed(p, rock, x, y)[i] != Nothing
  {
    var k := FilledCell(p[i]);
    if y <= i < y + |rock| {
      assert Placed(p, rock, x, y)[i] == PlaceRow(p[i], rock[i - y], x);
      PlaceRowKeeps(p[i], rock[i - y], x, k);
    }
    assert Nothing[k] == '.';
  }

  /** So the trim keeps the rock's bottom row and every row up to a row
      that was not empty. */
  lemma PlacedKept(p: seq<string>, rock: seq<string>, x: int, y: int, n: nat)
    requires Rows7(p) && RockShaped(rock) && 0 <= x && x + |rock[0]| <= Width && 0 <= y && y + |rock| <= |p|
    requires n <= |p| && (n == 0 || p[n - 1] != Nothing)
    ensures |Trimmed(Placed(p, rock, x, y))| > y && |Trimmed(Placed(p, rock, x, y))| >= n
  {
    PlacedBottom(p, rock, x, y);
    TrimmedKeeps(Placed(p, rock, x, y), y);
    if n > 0 {
      PlacedFilled(p, rock, x, y, n - 1);
      TrimmedKeeps(Placed(p, rock, x, y), n - 1);
    }
  }

  /** Every drop keeps the state good, drops one more rock, cycles the
      rock, never lowers the tower and never forgets a first sighting. */
  lemma DropGood(jets: string, c: Cave)
    requires Good(jets, c)
    ensures var d := Drop(jets, c);
      Good(jets, d) && d.numRocks == c.numRocks + 1 && d.nextRock == Cycle(c.nextRock, RockCount) &&
      |d.contents| >= |c.contents| &&
      forall k :: k in c.repeats ==> k in d.repeats && d.repeats[k] == c.repeats[k]
  {
    LandedGood(jets, c);
    RecordedKeeps(jets, Landed(jets, c));
  }

  /** The landed state: one more rock, the next rock, rows seven wide, a
      top row that is not empty, no lower than before, sightings kept. */
  lemma LandedGood(jets: string, c: Cave)
    requires Good(jets, c)
    ensures var l := Landed(jets, c);
      l.nextJet < |jets| && l.nextRock == Cycle(c.nextRock, RockCount) && l.numRocks == c.numRocks + 1 &&
      Rows7(l.contents) && l.contents[|l.contents| - 1] != Nothing && |l.contents| >= |c.contents| &&
      l.repeats == c.repeats
  {
  }

  /** The record keeps a good state good when every sighting is older
      than the rock just dropped, and keeps every earlier sighting. */
  lemma RecordedKeeps(jets: string, l: Cave)
    requires |jets| > 0 && l.nextJet < |jets| && l.nextRock < RockCount && Rows7(l.contents)
    requires l.contents != [] && l.contents[|l.contents| - 1] != Nothing
    requires forall k :: k in l.repeats ==> l.repeats[k].0 < l.numRocks && l.repeats[k].1 <= |l.contents|
    ensures var d := Recorded(l);
      Good(jets, d) && d.contents == l.contents && d.nextJet == l.nextJet && d.nextRock == l.nextRock &&
      d.numRocks == l.numRocks && forall k :: k in l.repeats ==> k in d.repeats && d.repeats[k] == l.repeats[k]
  {
  }

  /** A drop reports either no repeat or a repeat of at least one rock
      that does not lower the tower. */
  lemma FoundShape(jets: string, c: Cave)
    requires Good(jets, c)
    ensures var r := Found(jets, c); r == (0, 0) || (r.0 > 0 && r.1 >= 0)
  {
  }

  // ----------------------------------------------------------- the chamber

  class Chamber {
    var contents: seq<string>
    const jets: string
    var nextJet: nat
    var nextRock: nat
    var numRocks: nat
    var possibleRepeats: map<nat, (nat, nat)>

    function State(): Cave
      reads this
    {
      Cave(contents, nextJet, nextRock, numRocks, possibleRepeats)
    }

    predicate Valid()
      reads this
    {
      Good(jets, State())
    }

    /** The chamber holds the state c, field by field. */
    predicate Holds(c: Cave)
      reads this
    {
      contents == c.contents && nextJet == c.nextJet && nextRock == c.nextRock &&
      numRocks == c.numRocks && possibleRepeats == c.repeats
    }

    /** chamber::chamber: the jets line, an empty chamber. */
    constructor (line: string)
      requires |line| > 0
      ensures jets == line && Holds(Start()) && Valid()
    {
      jets := line;
      contents, nextJet, nextRock, numRocks, possibleRepeats := [], 0, 0, 0, map[];
    }

    /** get_rock: the next rock, and the one after it cyclically. */
    method GetRock() returns (rock: seq<string>)
      requires nextRock < RockCount
      modifies this`nextRock
      ensures rock == Rock(old(nextRock)) && nextRock == Cycle(old(nextRock), RockCount)
    {
      rock := Rock(nextRock);
      nextRock := Cycle(nextRock, RockCount);
    }

    /** get_jet: the next jet, and the one after it cyclically. */
    method GetJet() returns (jet: char)
      requires nextJet < |jets|
      modifies this`nextJet
      ensures jet == jets[old(nextJet)] && nextJet == Cycle(old(nextJet), |jets|)
    {
      jet := jets[nextJet];
      nextJet := Cycle(nextJet, |jets|);
    }

    /** trim: pop empty rows off the top. */
    method Trim()
      modifies this`contents
      ensures contents == Trimmed(old(contents))
    {
      while contents != [] && contents[|contents| - 1] == Nothing
        invariant Trimmed(contents) == Trimmed(old(contents))
        decreases |contents|
      {
        contents := contents[..|contents| - 1];
      }
    }

    /** fits, scanning the rock's cells and stopping at the first overlap. */
    method Fits(rock: seq<string>, x: int, y: int) returns (ok: bool)
      requires Rows7(contents) && RockShaped(rock) && y + |rock| <= |contents|
      ensures ok == FitsAt(contents, rock, x, y)
    {
      if x < 0 || x + |rock[0]| > |Nothing| || y < 0 {
        return false;
      }
      for dy := 0 to |rock|
        invariant forall k :: 0 <= k < dy ==> RowClear(contents[y + k], rock[k], x)
      {
        for dx := 0 to |rock[dy]|
          invariant forall k :: 0 <= k < dx && rock[dy][k] != '.' ==> contents[y + dy][x + k] == '.'
        {
          if rock[dy][dx] != '.' && contents[y + dy][x + dx] != '.' {
            return false;
          }
        }
      }
      return true;
    }

    /** finish: write the rock's pieces, each onto an empty cell, and count
        the rock. */
    method Finish(rock: seq<string>, x: int, y: int)
      requires Rows7(contents) && RockShaped(rock) && y + |rock| <= |contents| && FitsAt(contents, rock, x, y)
      modifies this`contents, this`numRocks
      ensures contents == Placed(old(contents), rock, x, y) && numRocks == old(numRocks) + 1
    {
      ghost var c := contents;
      PlacedNone(c, rock, x, y);
      for dy := 0 to |rock|
        invariant numRocks == old(numRocks) && PlacedUpTo(contents, c, rock, x, y, dy)
      {
        assert RowClear(c[y + dy], rock[dy], x) && contents[y + dy] == c[y + dy];
        var row := FinishRow(contents[y + dy], rock[dy], x);
        PlacedOneMore(contents, c, rock, x, y, dy);
        contents := contents[y + dy := row];
      }
      PlacedAll(contents, c, rock, x, y);
      numRocks := numRocks + 1;
    }

    /** check_for_repeats on the chamber. */
    method CheckForRepeats(ghost c: Cave) returns (repeat: (int, int))
      requires Holds(c) && c.contents != []
      modifies this`possibleRepeats
      ensures Holds(Recorded(c)) && repeat == Sighting(c)
    {
      if !LikeAFloor() {
        return (0, 0);
      }
      if nextJet !in possibleRepeats {
        var height: nat := |contents|;
        possibleRepeats := possibleRepeats[nextJet := (numRocks, height)];
        return (0, 0);
      }
      var prev := possibleRepeats[nextJet];
      return (numRocks - prev.0, |contents| - prev.1);
    }

    /** like_a_floor: the flat rock is next and the top row has no gap of
        four. */
    predicate LikeAFloor()
      requires contents != []
      reads this
    {
      Floor(State())
    }

    /** drop_rock: the state becomes Drop of the old state. */
    method DropRock() returns (repeat: (int, int))
      requires Valid()
      modifies this
      ensures Holds(Drop(jets, old(State()))) && repeat == Found(jets, old(State()))
    {
      ghost var c0 := State();
      Settle();
      repeat := CheckForRepeats(Landed(jets, c0));
    }

    /** drop_rock up to the check: the rock comes to rest and is written
        into the trimmed chamber. */
    method Settle()
      requires Valid()
      modifies this`contents, this`nextJet, this`nextRock, this`numRocks
      ensures Holds(Landed(jets, old(State())))
    {
      ghost var c0 := State();
      var rock, left, bot := Spawned();
      Place(c0, rock, left, bot, nextJet);
    }

    /** drop_rock after the rest: write the rock in and trim. */
    method Place(ghost c: Cave, rock: seq<string>, left: int, bot: int, ghost j: nat)
      requires Good(jets, c) && contents == Padded(c) && rock == Rock(c.nextRock)
      requires Rest(left, bot, j) == Landing(jets, c)
      modifies this`contents, this`numRocks
      ensures contents == Settled(jets, c) && numRocks == old(numRocks) + 1
    {
      SettledAt(jets, c, Rest(left, bot, j));
      Finish(rock, left, bot);
      Trim();
    }

    /** drop_rock up to the rest: pad the chamber, take the next rock and
        let it fall. */
    method Spawned() returns (rock: seq<string>, left: int, bot: int)
      requires Valid()
      modifies this`contents, this`nextJet, this`nextRock
      ensures contents == Padded(old(State())) && rock == Rock(old(nextRock))
      ensures nextRock == Cycle(old(nextRock), RockCount)
      ensures Rest(left, bot, nextJet) == Landing(jets, old(State()))
    {
      ghost var c0 := State();
      SpawnFits(jets, c0);
      PushEmpty(3);
      rock := GetRock();
      left := 2;
      bot := |contents|;
      PushEmpty(|rock|);
      BlankJoin(c0.contents, 3, |rock|);
      assert contents == Padded(c0) && rock == Rock(c0.nextRock) && bot == Spawn(c0);
      left, bot := Land(rock, left, bot);
    }

    /** The pushes of empty rows in drop_rock. */
    method PushEmpty(n: nat)
      modifies this`contents
      ensures contents == old(contents) + Blank(n)
    {
      for k := 0 to n
        invariant contents == old(contents) + Blank(k)
      {
        contents := contents + [Nothing];
      }
    }

    /** The loop of drop_rock: push by the next jet when the rock fits
        there, then fall by one row when it fits there, else stop. */
    method Land(rock: seq<string>, x: int, y: int) returns (left: int, bot: int)
      requires Rows7(contents) && RockShaped(rock) && nextJet < |jets| && y + |rock| <= |contents|
      requires FitsAt(contents, rock, x, y)
      modifies this`nextJet
      ensures Rest(left, bot, nextJet) == Fall(contents, rock, jets, old(nextJet), x, y)
    {
      left, bot := x, y;
      while true
        invariant nextJet < |jets| && bot + |rock| <= |contents| && FitsAt(contents, rock, left, bot)
        invariant Fall(contents, rock, jets, nextJet, left, bot) == Fall(contents, rock, jets, old(nextJet), x, y)
        decreases bot
      {
        var fits;
        left, fits := FallOnce(rock, left, bot);
        if fits {
          bot := bot - 1;
        } else {
          return;
        }
      }
    }

    /** One round of the fall: push, then see whether the rock can drop. */
    method FallOnce(rock: seq<string>, x: int, y: int) returns (x1: int, fits: bool)
      requires Rows7(contents) && RockShaped(rock) && nextJet < |jets| && y + |rock| <= |contents|
      requires FitsAt(contents, rock, x, y)
      modifies this`nextJet
      ensures nextJet < |jets|
      ensures fits ==> (FitsAt(contents, rock, x1, y - 1) &&
        Fall(contents, rock, jets, nextJet, x1, y - 1) == Fall(contents, rock, jets, old(nextJet), x, y))
      ensures !fits ==> Rest(x1, y, nextJet) == Fall(contents, rock, jets, old(nextJet), x, y)
    {
      FallStep(contents, rock, jets, nextJet, x, y);
      x1 := Pushed(rock, x, y);
      fits := Fits(rock, x1, y - 1);
    }

    /** The push of the next jet, when the rock fits there. */
    method Pushed(rock: seq<string>, x: int, y: int) returns (x1: int)
      requires Rows7(contents) && RockShaped(rock) && nextJet < |jets| && y + |rock| <= |contents|
      requires FitsAt(contents, rock, x, y)
      modifies this`nextJet
      ensures x1 == Shift(contents, rock, jets, old(nextJet), x, y) && nextJet == Cycle(old(nextJet), |jets|)
    {
      var jet := GetJet();
      var dir := if jet == '<' then -1 else 1;
      var fits := Fits(rock, x + dir, y);
      x1 := if fits then x + dir else x;
    }
  }

  /** The inner loop of finish for one row of the rock. */
  method FinishRow(row: string, rrow: string, x: int) returns (row': string)
    requires 0 <= x && x + |rrow| <= |row| && RowClear(row, rrow, x)
    ensures row' == PlaceRow(row, rrow, x)
  {
    row' := row;
    for dx := 0 to |rrow|
      invariant |row'| == |row|
      invariant forall k :: 0 <= k < |row| ==> row'[k] == if x <= k < x + dx && rrow[k - x] != '.' then rrow[k - x] else row[k]
    {
      if rrow[dx] != '.' {
        row' := row'[x + dx := rrow[dx]];
      }
    }
  }

  /** The empty chamber before the first rock. */
  function Start(): Cave
  {
    Cave([], 0, 0, 0, map[])
  }

  /** The state after n drops of one solve, paired with what the last of
      them reported ((0, 0) before the first drop). */
  function History(jets: string, n: nat): (h: (Cave, (int, int)))
    requires |jets| > 0
    ensures Good(jets, h.0) && h.0.numRocks == n
    ensures h.1 == (0, 0) || (h.1.0 > 0 && h.1.1 >= 0)
    decreases n, 1
  {
    if n == 0 then (Start(), (0, 0)) else NextDrop(jets, n)
  }

  /** The n-th drop, made on the state after n - 1 drops. */
  function NextDrop(jets: string, n: nat): (h: (Cave, (int, int)))
    requires |jets| > 0 && n >= 1
    ensures Good(jets, h.0) && h.0.numRocks == n
    ensures h.1 == (0, 0) || (h.1.0 > 0 && h.1.1 >= 0)
    decreases n, 0
  {
    var c := History(jets, n - 1).0;
    DropGood(jets, c);
    FoundShape(jets, c);
    (Drop(jets, c), Found(jets, c))
  }

  /** The state after n drops. */
  function Run(jets: string, n: nat): (c: Cave)
    requires |jets| > 0
    ensures Good(jets, c) && c.numRocks == n
  {
    History(jets, n).0
  }

  /** The drop after n drops. */
  lemma RunNext(jets: string, n: nat)
    requires |jets| > 0
    ensures Run(jets, n + 1) == Drop(jets, Run(jets, n))
  {
    HistoryNext(jets, n);
  }

  /** What the drop after n drops reports. */
  lemma RepeatNext(jets: string, n: nat)
    requires |jets| > 0
    ensures RepeatAt(jets, n + 1) == Found(jets, Run(jets, n))
  {
    HistoryNext(jets, n);
  }

  lemma HistoryNext(jets: string, n: nat)
    requires |jets| > 0
    ensures History(jets, n + 1) == NextDrop(jets, n + 1)
  {
  }

  /** What the n-th drop (from 1) reports. */
  function RepeatAt(jets: string, n: nat): (r: (int, int))
    requires |jets| > 0 && n >= 1
    ensures r == (0, 0) || (r.0 > 0 && r.1 >= 0)
  {
    History(jets, n).1
  }

  /** The tower's height after n drops. */
  function Height(jets: string, n: nat): nat
    requires |jets| > 0
  {
    |Run(jets, n).contents|
  }

  /** A drop on a chamber that holds the state after n drops. */
  method DropFrom(ch: Chamber, ghost n: nat) returns (repeat: (int, int))
    requires ch.Valid() && ch.Holds(Run(ch.jets, n))
    modifies ch
    ensures ch.Valid() && ch.Holds(Run(ch.jets, n + 1)) && repeat == RepeatAt(ch.jets, n + 1)
  {
    assert ch.State() == Run(ch.jets, n);
    repeat := ch.DropRock();
    RunNext(ch.jets, n);
    RepeatNext(ch.jets, n);
  }

  /** solve: drop rocks until a repeat shows or none are left; skip as many
      whole repeats as remain, then drop the rest. The answer is the height
      after the rocks actually dropped plus the height of the skipped
      repeats, and the dropped and skipped rocks add up to n. */
  method Solve(jets: string, n: nat) returns (ans: int, ghost d: nat, ghost e: nat, ghost k: nat)
    requires |jets| > 0 && n >= 1
    ensures 1 <= k <= d <= n
    ensures forall i :: 1 <= i < k ==> RepeatAt(jets, i) == (0, 0)
    ensures k < n ==> RepeatAt(jets, k).0 > 0
    ensures e == if RepeatAt(jets, k).0 > 0 then (n - k) / RepeatAt(jets, k).0 else 0
    ensures d + e * RepeatAt(jets, k).0 == n
    ensures ans == Height(jets, d) + e * RepeatAt(jets, k).1
  {
    var c := new Chamber(jets);
    var dropped, repeat := UntilRepeat(c, n);
    k := dropped;
    QuietBefore(jets, k);
    var remaining, repeatHeight;
    remaining, repeatHeight, e := SkipRepeats(n - dropped, repeat);
    d := dropped + remaining;
    DropMore(c, dropped, remaining);
    ans := |c.contents| + repeatHeight;
  }

  /** The middle of solve: of the rocks still to drop, skip as many whole
      repeats as fit; none when no repeat was seen. */
  method SkipRepeats(remaining: nat, repeat: (int, int)) returns (left: nat, height: int, ghost skipped: nat)
    requires repeat == (0, 0) || (repeat.0 > 0 && repeat.1 >= 0)
    ensures skipped == if repeat.0 > 0 then remaining / repeat.0 else 0
    ensures left + skipped * repeat.0 == remaining && height == skipped * repeat.1
  {
    var repeatRocks, repeatHeight := repeat.0, repeat.1;
    left, skipped := remaining, 0;
    if repeatRocks > 0 {
      var extraRepeats := remaining / repeatRocks;
      skipped := extraRepeats;
      left := remaining - extraRepeats * repeatRocks;
      repeatHeight := repeatHeight * extraRepeats;
    }
    height := repeatHeight;
  }

  /** Drops that reported nothing, from the first up to the k-th. */
  lemma QuietBefore(jets: string, k: nat)
    requires |jets| > 0 && k >= 1 && Quiet(jets, k - 1)
    ensures forall i :: 1 <= i < k ==> RepeatAt(jets, i) == (0, 0)
  {
    QuietAll(Reports(jets), k - 1);
    forall i | 1 <= i < k
      ensures RepeatAt(jets, i) == (0, 0)
    {
      assert Reports(jets)(i) == (0, 0);
    }
  }

  /** The first loop of solve: drop rocks until one reports a repeat or
      none are left. */
  method UntilRepeat(c: Chamber, n: nat) returns (k: nat, repeat: (int, int))
    requires c.Valid() && |c.jets| > 0 && c.Holds(Start()) && n >= 1
    modifies c
    ensures c.Valid() && c.Holds(Run(c.jets, k)) && 1 <= k <= n && repeat == RepeatAt(c.jets, k)
    ensures Quiet(c.jets, k - 1)
    ensures k < n ==> repeat.0 > 0
  {
    var remaining := n;
    k := 0;
    while true
      invariant c.Valid() && c.Holds(Run(c.jets, k))
      invariant k + remaining == n && k < n && Quiet(c.jets, k)
      decreases remaining
    {
      repeat := DropFrom(c, k);
      k := k + 1;
      remaining := remaining - 1;
      if !(remaining > 0 && repeat.0 == 0) {
        return;
      }
    }
  }

  /** What each drop reports, numbered from 1. */
  function Reports(jets: string): nat -> (int, int)
    requires |jets| > 0
  {
    i => if i >= 1 then RepeatAt(jets, i) else (0, 0)
  }

  /** None of the first k reports is a repeat. */
  ghost predicate QuietBy(r: nat -> (int, int), k: nat)
  {
    k == 0 || (QuietBy(r, k - 1) && r(k) == (0, 0))
  }

  lemma {:induction false} QuietAll(r: nat -> (int, int), k: nat)
    ensures QuietBy(r, k) <==> forall i :: 1 <= i <= k ==> r(i) == (0, 0)
  {
    if k > 0 {
      QuietAll(r, k - 1);
    }
  }

  /** No drop among the first k reports a repeat. */
  ghost predicate Quiet(jets: string, k: nat)
    requires |jets| > 0
  {
    QuietBy(Reports(jets), k)
  }

  /** The last loop of solve: m more drops. */
  method DropMore(c: Chamber, ghost d: nat, m: nat)
    requires c.Valid() && |c.jets| > 0 && c.Holds(Run(c.jets, d))
    modifies c
    ensures c.Valid() && c.Holds(Run(c.jets, d + m))
  {
    var remaining := m;
    ghost var done := d;
    while remaining > 0
      invariant c.Valid() && c.Holds(Run(c.jets, done)) && done + remaining == d + m
      decreases remaining
    {
      var _ := DropFrom(c, done);
      remaining := remaining - 1;
      done := done + 1;
    }
  }

  method Part1(jets: string) returns (ans: int, ghost d: nat, ghost e: nat, ghost k: nat)
    requires |jets| > 0
    ensures 1 <= k <= d && d + e * RepeatAt(jets, k).0 == 2022 && ans == Height(jets, d) + e * RepeatAt(jets, k).1
  {
    ans, d, e, k := Solve(jets, 2022);
  }

  method Part2(jets: string) returns (ans: int, ghost d: nat, ghost e: nat, ghost k: nat)
    requires |jets| > 0
    ensures 1 <= k <= d && d + e * RepeatAt(jets, k).0 == 1000000000000 && ans == Height(jets, d) + e * RepeatAt(jets, k).1
  {
    ans, d, e, k := Solve(jets, 1000000000000);
  }
}
