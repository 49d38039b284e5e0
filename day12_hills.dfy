/** Hill Climbing: a grid of heights 'a' .. 'z' with a start S (height a)
    and an end E (height z). A step goes to one of the four neighbours at
    most one higher; a breadth-first search gives the fewest steps from
    the start to a goal. Part 2 flips the heights and searches from the
    end to any cell of height a, which is the same as climbing in
    reverse. */
module HillClimbing {
  import opened Common

  /** (row, column). */
  type Pos = (int, int)

  /** The rows of heights, one character per cell. */
  type Rows = seq<string>

  /** w: the length of the first row. */
  function Width(hs: Rows): nat
  {
    if hs == [] then 0 else |hs[0]|
  }

  /** Every row as long as the first, as the constructor asserts. */
  predicate Rect(hs: Rows)
  {
    forall i :: 0 <= i < |hs| ==> |hs[i]| == Width(hs)
  }

  /** valid: the position is on the grid. */
  predicate InGrid(hs: Rows, p: Pos)
  {
    0 <= p.0 < |hs| && 0 <= p.1 < Width(hs)
  }

  /** 'z' + 2: off the grid, too high for any step from a cell of height
      at most z. */
  const OffGrid: char := ('z' as int + 2) as char

  /** at: the height of a cell, OffGrid off the grid. */
  function Height(hs: Rows, p: Pos): char
    requires Rect(hs)
  {
    if InGrid(hs, p) then hs[p.0][p.1] else OffGrid
  }

  /** The four neighbours, in the order steps_from considers them. */
  function Around(p: Pos): seq<Pos>
  {
    [(p.0 + 1, p.1), (p.0 - 1, p.1), (p.0, p.1 + 1), (p.0, p.1 - 1)]
  }

  /** A step from p to q climbs at most one. */
  predicate Climbable(hs: Rows, p: Pos, q: Pos)
    requires Rect(hs)
  {
    Height(hs, q) as int <= Height(hs, p) as int + 1
  }

  /** Every height is at most z. */
  predicate Tame(hs: Rows)
  {
    forall i, j :: 0 <= i < |hs| && 0 <= j < |hs[i]| ==> hs[i][j] <= 'z'
  }

  /** The candidates cs that consider keeps, in order. */
  function Keep(hs: Rows, p: Pos, visited: set<Pos>, cs: seq<Pos>): seq<Pos>
    requires Rect(hs)
  {
    if cs == [] then []
    else
      (if cs[0] !in visited && Climbable(hs, p, cs[0]) then [cs[0]] else []) +
      Keep(hs, p, visited, cs[1..])
  }

  /** steps_from: the unvisited neighbours of p a step can reach. */
  function StepsFrom(hs: Rows, p: Pos, visited: set<Pos>): seq<Pos>
    requires Rect(hs)
  {
    Keep(hs, p, visited, Around(p))
  }

  /** No position is listed twice. */
  predicate Distinct(s: seq<Pos>)
  {
    forall i, j :: 0 <= i < j < |s| ==> s[i] != s[j]
  }

  lemma {:induction false} KeepMeaning(hs: Rows, p: Pos, visited: set<Pos>, cs: seq<Pos>)
    requires Rect(hs) && Distinct(cs)
    ensures Distinct(Keep(hs, p, visited, cs))
    ensures forall q :: q in Keep(hs, p, visited, cs) <==>
      q in cs && q !in visited && Climbable(hs, p, q)
    decreases |cs|
  {
    if cs != [] {
      KeepMeaning(hs, p, visited, cs[1..]);
      var rest := Keep(hs, p, visited, cs[1..]);
      assert cs[0] !in rest;
      var head := if cs[0] !in visited && Climbable(hs, p, cs[0]) then [cs[0]] else [];
      assert Keep(hs, p, visited, cs) == head + rest;
      forall i, j | 0 <= i < j < |head + rest|
        ensures (head + rest)[i] != (head + rest)[j]
      {
        if i < |head| {
          assert (head + rest)[j] == rest[j - |head|];
        }
      }
    }
  }

  /** steps_from returns exactly the unvisited neighbours at most one
      higher, each once. */
  lemma StepsFromMeaning(hs: Rows, p: Pos, visited: set<Pos>)
    requires Rect(hs)
    ensures Distinct(StepsFrom(hs, p, visited))
    ensures forall q :: q in StepsFrom(hs, p, visited) <==>
      q in Around(p) && q !in visited && Climbable(hs, p, q)
  {
    KeepMeaning(hs, p, visited, Around(p));
  }

  /** A cell of height at most z can only step onto the grid. */
  lemma StaysOnGrid(hs: Rows, p: Pos, q: Pos)
    requires Rect(hs) && Tame(hs) && InGrid(hs, p) && Climbable(hs, p, q)
    ensures InGrid(hs, q)
  {
    assert Height(hs, p) <= 'z';
  }

  // ---------------------------------------------------------------------
  // What the search finds: the cells within n steps of the start.

  /** Where one step from the cells of S can go. */
  ghost function Next(hs: Rows, S: set<Pos>): set<Pos>
    requires Rect(hs)
  {
    set p, q | p in S && q in Around(p) && Climbable(hs, p, q) :: q
  }

  /** The cells reachable from s in at most n steps. */
  ghost function Within(hs: Rows, s: Pos, n: nat): set<Pos>
    requires Rect(hs)
  {
    if n == 0 then {s} else Within(hs, s, n - 1) + Next(hs, Within(hs, s, n - 1))
  }

  /** n is the fewest steps from s to a goal. */
  ghost predicate Shortest(hs: Rows, s: Pos, goals: set<Pos>, n: nat)
    requires Rect(hs)
  {
    Within(hs, s, n) * goals != {} && (n > 0 ==> Within(hs, s, n - 1) * goals == {})
  }

  lemma {:induction false} WithinMono(hs: Rows, s: Pos, m: nat, n: nat)
    requires Rect(hs) && m <= n
    ensures Within(hs, s, m) <= Within(hs, s, n)
    decreases n
  {
    if m < n {
      WithinMono(hs, s, m, n - 1);
    }
  }

  lemma NextMono(hs: Rows, S: set<Pos>, T: set<Pos>)
    requires Rect(hs) && S <= T
    ensures Next(hs, S) <= Next(hs, T)
  {
  }

  /** A climbable neighbour of a cell of S is one step from S. */
  lemma InNext(hs: Rows, S: set<Pos>, p: Pos, q: Pos)
    requires Rect(hs) && p in S && q in Around(p) && Climbable(hs, p, q)
    ensures q in Next(hs, S)
  {
  }

  // ---------------------------------------------------------------------
  // The height map.

  /** std::string::find and replace of the first c by d. */
  function Replace(s: string, c: char, d: char): (r: string)
    ensures |r| == |s|
  {
    var k := IndexOf(s, c);
    if k < 0 then s else s[k := d]
  }

  /** A line as stored: its first S becomes a, then its first E becomes
      z. */
  function MarkRow(line: string): string
  {
    Replace(Replace(line, 'S', 'a'), 'E', 'z')
  }

  /** The start and end after reading row r: a line with an S or an E
      records where it is. */
  function Mark(line: string, r: nat, s: Pos, e: Pos): (Pos, Pos)
  {
    var k := IndexOf(line, 'S');
    var k2 := IndexOf(Replace(line, 'S', 'a'), 'E');
    (if k >= 0 then (r, k) else s, if k2 >= 0 then (r, k2) else e)
  }

  /** Replace changes the first c, if any, and nothing else. */
  lemma ReplaceMeaning(s: string, c: char, d: char)
    ensures forall j :: 0 <= j < |s| ==> Replace(s, c, d)[j] == if j == IndexOf(s, c) then d else s[j]
  {
  }

  /** Replacing the first c by d, another character e is found where it
      was, unless d is e. */
  lemma ReplaceKeepsIndex(s: string, c: char, d: char, e: char)
    requires c != e && d != e
    ensures IndexOf(Replace(s, c, d), e) == IndexOf(s, e)
  {
    var l := Replace(s, c, d);
    ReplaceMeaning(s, c, d);
    var k := IndexOf(s, e);
    if k >= 0 {
      assert e !in l[..k] by {
        assert forall j :: 0 <= j < k ==> l[j] != e by {
          assert forall j :: 0 <= j < k ==> s[..k][j] == s[j];
        }
      }
      IndexOfAt(l, e, k);
    }
  }

  /** The line as stored differs from the line read only at its first S,
      now a, and at its first E, now z; a line without them is kept. */
  lemma MarkRowMeaning(line: string)
    ensures |MarkRow(line)| == |line|
    ensures forall j :: 0 <= j < |line| ==>
      MarkRow(line)[j] ==
        if j == IndexOf(line, 'S') then 'a'
        else if j == IndexOf(line, 'E') then 'z'
        else line[j]
  {
    var l := Replace(line, 'S', 'a');
    ReplaceMeaning(line, 'S', 'a');
    ReplaceMeaning(l, 'E', 'z');
    ReplaceKeepsIndex(line, 'S', 'a', 'E');
  }

  /** The index of the first c is the one holding c with no c before. */
  lemma IndexOfAt(s: string, c: char, k: nat)
    requires k < |s| && s[k] == c && c !in s[..k]
    ensures IndexOf(s, c) == k
  {
  }

  /** The constructor's loop from line k on, with the rows read so far;
      None when a line is not as long as the first. */
  function ReadFrom(lines: seq<string>, k: nat, rows: Rows, s: Pos, e: Pos): (r: Option<(Rows, Pos, Pos)>)
    requires k <= |lines| && Rect(rows)
    ensures r.Some? ==> Rect(r.value.0) && |r.value.0| == |rows| + |lines| - k
    decreases |lines| - k
  {
    if k == |lines| then Some((rows, s, e))
    else
      var row := MarkRow(lines[k]);
      var (s', e') := Mark(lines[k], |rows|, s, e);
      if |row| != Width(rows + [row]) then None
      else ReadFrom(lines, k + 1, rows + [row], s', e')
  }

  /** The constructor: the rows, start and end, or None when a line is
      not as long as the first or the final assert fails. */
  function ReadMap(lines: seq<string>): Option<(Rows, Pos, Pos)>
  {
    var (rows, s, e) :- ReadFrom(lines, 0, [], (0, 0), (0, 0));
    if Height(rows, s) == 'a' && Height(rows, e) == 'z' then Some((rows, s, e)) else None
  }

  /** Every line from k on as stored, after the rows read before. */
  lemma {:induction false} ReadFromRows(lines: seq<string>, k: nat, rows: Rows, s: Pos, e: Pos)
    requires k <= |lines| && Rect(rows) && ReadFrom(lines, k, rows, s, e).Some?
    ensures var out := ReadFrom(lines, k, rows, s, e).value.0;
      out[..|rows|] == rows &&
      forall i :: k <= i < |lines| ==> out[|rows| + i - k] == MarkRow(lines[i])
    decreases |lines| - k
  {
    if k < |lines| {
      var row := MarkRow(lines[k]);
      var (s', e') := Mark(lines[k], |rows|, s, e);
      ReadFromRows(lines, k + 1, rows + [row], s', e');
      var out := ReadFrom(lines, k, rows, s, e).value.0;
      assert out[..|rows| + 1][..|rows|] == out[..|rows|];
    }
  }

  /** A read map is a rectangle of the lines as stored, with the start
      on a cell of height a and the end on a cell of height z. */
  lemma ReadMapShape(lines: seq<string>)
    requires ReadMap(lines).Some?
    ensures var (rows, s, e) := ReadMap(lines).value;
      Rect(rows) && |rows| == |lines| &&
      (forall i :: 0 <= i < |lines| ==> rows[i] == MarkRow(lines[i])) &&
      InGrid(rows, s) && InGrid(rows, e) && s != e &&
      Height(rows, s) == 'a' && Height(rows, e) == 'z'
  {
    ReadFromRows(lines, 0, [], (0, 0), (0, 0));
    var (rows, s, e) := ReadMap(lines).value;
    assert forall i :: 0 <= i < |lines| ==> rows[0 + i - 0] == rows[i];
  }

  /** The height map, read in and possibly flipped in place. */
  class HeightMap {
    var heights: Rows
    var start: Pos
    var end: Pos

    constructor (heights: Rows, start: Pos, end: Pos)
      ensures this.heights == heights && this.start == start && this.end == end
    {
      this.heights := heights;
      this.start := start;
      this.end := end;
    }

    /** flip: start and end swap, and every height h becomes a + (z - h). */
    method Flip()
      modifies this
      ensures heights == Flipped(old(heights))
      ensures start == old(end) && end == old(start)
    {
      start, end := end, start;
      for i := 0 to |heights|
        invariant |heights| == |old(heights)|
        invariant forall r :: 0 <= r < i ==> heights[r] == FlipRow(old(heights)[r])
        invariant forall r :: i <= r < |heights| ==> heights[r] == old(heights)[r]
        invariant start == old(end) && end == old(start)
      {
        FlipRowInPlace(i);
      }
    }

    /** The inner loop of flip, over the characters of row i. */
    method FlipRowInPlace(i: nat)
      requires i < |heights|
      modifies this
      ensures heights == old(heights)[i := FlipRow(old(heights)[i])]
      ensures start == old(start) && end == old(end)
    {
      ghost var row := heights[i];
      for j := 0 to |heights[i]|
        invariant |heights| == |old(heights)|
        invariant heights == old(heights)[i := heights[i]]
        invariant |heights[i]| == |row|
        invariant forall c :: 0 <= c < j ==> heights[i][c] == FlipHeight(row[c])
        invariant forall c :: j <= c < |row| ==> heights[i][c] == row[c]
        invariant start == old(start) && end == old(end)
      {
        heights := heights[i := heights[i][j := FlipHeight(heights[i][j])]];
      }
      assert heights[i] == FlipRow(row);
    }
  }

  /** The constructor reading lines, one loop pass per line. */
  method ReadHeightMap(lines: seq<string>) returns (m: HeightMap?)
    ensures m == null <==> ReadMap(lines).None?
    ensures m != null ==> fresh(m) && (m.heights, m.start, m.end) == ReadMap(lines).value
  {
    var rows: Rows := [];
    var s, e := (0, 0), (0, 0);
    for k := 0 to |lines|
      invariant |rows| == k && Rect(rows)
      invariant ReadFrom(lines, k, rows, s, e) == ReadFrom(lines, 0, [], (0, 0), (0, 0))
    {
      var line := lines[k];
      ghost var marked := Mark(line, |rows|, s, e);
      var c := IndexOf(line, 'S');
      if c >= 0 {
        s := (|rows|, c);
        line := line[c := 'a'];
      }
      var c2 := IndexOf(line, 'E');
      if c2 >= 0 {
        e := (|rows|, c2);
        line := line[c2 := 'z'];
      }
      assert line == MarkRow(lines[k]) && (s, e) == marked;
      if |line| != Width(rows + [line]) {
        return null;
      }
      rows := rows + [line];
    }
    if Height(rows, s) != 'a' || Height(rows, e) != 'z' {
      return null;
    }
    m := new HeightMap(rows, s, e);
  }

  // ---------------------------------------------------------------------
  // Flipping.

  /** a + (z - h), kept to the 8 bits a char holds. */
  function FlipHeight(h: char): char
  {
    (('a' as int + ('z' as int - h as int)) % 256) as char
  }

  function FlipRow(row: string): (r: string)
    ensures |r| == |row| && forall j :: 0 <= j < |row| ==> r[j] == FlipHeight(row[j])
  {
    seq(|row|, j requires 0 <= j < |row| => FlipHeight(row[j]))
  }

  function Flipped(hs: Rows): (r: Rows)
    ensures |r| == |hs| && forall i :: 0 <= i < |hs| ==> r[i] == FlipRow(hs[i])
  {
    seq(|hs|, i requires 0 <= i < |hs| => FlipRow(hs[i]))
  }

  /** Every height is a letter a .. z. */
  predicate Letters(hs: Rows)
  {
    forall i, j :: 0 <= i < |hs| && 0 <= j < |hs[i]| ==> 'a' <= hs[i][j] <= 'z'
  }

  /** Flipping keeps the shape, and turns a into z, z into a and letters
      into letters. */
  lemma FlipShape(hs: Rows)
    requires Rect(hs) && Letters(hs)
    ensures Rect(Flipped(hs)) && Letters(Flipped(hs)) && Tame(Flipped(hs))
    ensures forall p :: InGrid(Flipped(hs), p) <==> InGrid(hs, p)
    ensures forall p :: InGrid(hs, p) ==>
      Height(Flipped(hs), p) as int == 'a' as int + 'z' as int - Height(hs, p) as int
  {
  }

  /** Flipping twice restores every height below 256. */
  lemma FlipTwice(hs: Rows)
    requires forall i, j :: 0 <= i < |hs| && 0 <= j < |hs[i]| ==> hs[i][j] as int < 256
    ensures Flipped(Flipped(hs)) == hs
  {
    forall i | 0 <= i < |hs|
      ensures Flipped(Flipped(hs))[i] == hs[i]
    {
      forall j | 0 <= j < |hs[i]|
        ensures FlipHeight(FlipHeight(hs[i][j])) == hs[i][j]
      {
        var h := hs[i][j] as int;
        var x := (219 - h) % 256;
        assert x == if h <= 219 then 219 - h else 475 - h;
      }
    }
  }

  /** After flipping, a step from p to q climbs at most one exactly when
      the step from q to p descends at most one before. */
  lemma FlipReverses(hs: Rows, p: Pos, q: Pos)
    requires Rect(hs) && Letters(hs) && InGrid(hs, p) && InGrid(hs, q)
    ensures Rect(Flipped(hs)) && (Climbable(Flipped(hs), p, q) <==> Climbable(hs, q, p))
  {
    FlipShape(hs);
  }

  /** The goals of part 2: the cells of height z. */
  function Peaks(hs: Rows): set<Pos>
    requires Rect(hs)
  {
    set i, j | 0 <= i < |hs| && 0 <= j < Width(hs) && hs[i][j] == 'z' :: (i, j)
  }

  /** The cells of height a. */
  ghost function Valleys(hs: Rows): set<Pos>
    requires Rect(hs)
  {
    set i, j | 0 <= i < |hs| && 0 <= j < Width(hs) && hs[i][j] == 'a' :: (i, j)
  }

  lemma PeaksAreValleys(hs: Rows)
    requires Rect(hs) && Letters(hs)
    ensures Rect(Flipped(hs)) && Peaks(Flipped(hs)) == Valleys(hs)
  {
    FlipShape(hs);
  }

  // ---------------------------------------------------------------------
  // Climbing in reverse: the cells from which e is within n steps.

  /** The cells one step before a cell of S. */
  ghost function Prev(hs: Rows, S: set<Pos>): set<Pos>
    requires Rect(hs)
  {
    set q, p | q in S && p in Around(q) && InGrid(hs, p) && Climbable(hs, p, q) :: p
  }

  ghost function WithinTo(hs: Rows, e: Pos, n: nat): set<Pos>
    requires Rect(hs)
  {
    if n == 0 then {e} else WithinTo(hs, e, n - 1) + Prev(hs, WithinTo(hs, e, n - 1))
  }

  /** A step is a neighbour both ways round. */
  lemma AroundSymmetric(p: Pos, q: Pos)
    ensures q in Around(p) <==> p in Around(q)
  {
  }

  /** One step on the flipped map is one step back on the map. */
  lemma NextFlipped(hs: Rows, S: set<Pos>)
    requires Rect(hs) && Letters(hs) && forall p :: p in S ==> InGrid(hs, p)
    ensures Rect(Flipped(hs)) && Next(Flipped(hs), S) == Prev(hs, S)
  {
    var fs := Flipped(hs);
    FlipShape(hs);
    forall q | q in Next(fs, S)
      ensures q in Prev(hs, S)
    {
      var p :| p in S && q in Around(p) && Climbable(fs, p, q);
      StaysOnGrid(fs, p, q);
      FlipReverses(hs, p, q);
      AroundSymmetric(p, q);
    }
    forall q | q in Prev(hs, S)
      ensures q in Next(fs, S)
    {
      var p :| p in S && q in Around(p) && InGrid(hs, q) && Climbable(hs, q, p);
      FlipReverses(hs, p, q);
      AroundSymmetric(p, q);
      InNext(fs, S, p, q);
    }
  }

  /** Flipping keeps the grid rectangular. */
  lemma FlipRect(hs: Rows)
    requires Rect(hs)
    ensures Rect(Flipped(hs)) && Width(Flipped(hs)) == Width(hs)
  {
  }

  /** The cells from which e can be climbed to lie on the grid. */
  lemma {:induction false} WithinToOnGrid(hs: Rows, e: Pos, n: nat)
    requires Rect(hs) && InGrid(hs, e)
    ensures forall p :: p in WithinTo(hs, e, n) ==> InGrid(hs, p)
  {
    if n > 0 {
      WithinToOnGrid(hs, e, n - 1);
    }
  }

  /** Searching the flipped map from e reaches, in n steps, exactly the
      cells from which e can be climbed to in n steps. */
  lemma {:induction false} WithinFlipped(hs: Rows, e: Pos, n: nat)
    requires Rect(hs) && Letters(hs) && InGrid(hs, e)
    ensures Rect(Flipped(hs)) && Within(Flipped(hs), e, n) == WithinTo(hs, e, n)
  {
    FlipRect(hs);
    if n > 0 {
      WithinFlipped(hs, e, n - 1);
      WithinToOnGrid(hs, e, n - 1);
      NextFlipped(hs, WithinTo(hs, e, n - 1));
    }
  }

  // ---------------------------------------------------------------------
  // The search.

  /** The positions in the frontier. */
  function Positions(f: seq<(Pos, nat)>): set<Pos>
  {
    set x | x in f :: x.0
  }

  /** The frontier with every position tagged with d steps. */
  function Tag(ps: seq<Pos>, d: nat): (f: seq<(Pos, nat)>)
    ensures |f| == |ps| && forall k :: 0 <= k < |ps| ==> f[k] == (ps[k], d)
  {
    seq(|ps|, k requires 0 <= k < |ps| => (ps[k], d))
  }

  /** The step counts in the frontier never decrease and are at most one
      more than the first. */
  ghost predicate Layered(f: seq<(Pos, nat)>)
  {
    |f| > 0 &&
    (forall i, j :: 0 <= i < j < |f| ==> f[i].1 <= f[j].1) &&
    f[|f| - 1].1 <= f[0].1 + 1
  }

  /** p is exactly n steps from s: within n, and not within fewer. */
  ghost predicate Reached(hs: Rows, s: Pos, p: Pos, n: nat)
    requires Rect(hs)
  {
    p in Within(hs, s, n) && (n > 0 ==> p !in Within(hs, s, n - 1))
  }

  /** Each position in the frontier is exactly its step count away. */
  ghost predicate Exact(hs: Rows, s: Pos, f: seq<(Pos, nat)>)
    requires Rect(hs)
  {
    forall i :: 0 <= i < |f| ==> Reached(hs, s, f[i].0, f[i].1)
  }

  /** No position is in the frontier twice. */
  ghost predicate Once(f: seq<(Pos, nat)>)
  {
    forall i, j :: 0 <= i < j < |f| ==> f[i].0 != f[j].0
  }

  /** The cells of the grid. */
  ghost function Cells(hs: Rows): set<Pos>
  {
    set i, j | 0 <= i < |hs| && 0 <= j < Width(hs) :: (i, j)
  }

  /** What the loop of bfs keeps: visited holds the cells expanded and
      those in the frontier; every cell within the first frontier count
      has been visited; the expanded cells are within it, are no goal,
      and every step from them has been visited. */
  ghost predicate Searching(hs: Rows, s: Pos, goals: set<Pos>, f: seq<(Pos, nat)>,
                            visited: set<Pos>, expanded: set<Pos>)
  {
    Rect(hs) && Layered(f) && Exact(hs, s, f) && Once(f) &&
    visited == expanded + Positions(f) && expanded !! Positions(f) &&
    Within(hs, s, f[0].1) <= visited && expanded <= Within(hs, s, f[0].1) &&
    Next(hs, expanded) <= visited && expanded !! goals && visited <= Cells(hs)
  }

  lemma SearchStarts(hs: Rows, s: Pos, goals: set<Pos>)
    requires Rect(hs) && InGrid(hs, s)
    ensures Searching(hs, s, goals, [(s, 0)], {s}, {})
  {
    assert Positions([(s, 0)]) == {s};
    assert (s.0, s.1) in Cells(hs);
  }

  /** The head of the frontier is a goal: its count is the fewest steps. */
  lemma SearchFound(hs: Rows, s: Pos, goals: set<Pos>, f: seq<(Pos, nat)>,
                    visited: set<Pos>, expanded: set<Pos>)
    requires Searching(hs, s, goals, f, visited, expanded) && f[0].0 in goals
    ensures Shortest(hs, s, goals, f[0].1)
  {
    var d := f[0].1;
    assert f[0].0 in Within(hs, s, d) * goals;
    if d > 0 {
      forall x | x in Within(hs, s, d - 1)
        ensures x !in goals
      {
        WithinMono(hs, s, d - 1, d);
        if x !in expanded {
          var i :| 0 <= i < |f| && f[i].0 == x;
          WithinMono(hs, s, d - 1, f[i].1 - 1);
        }
      }
    }
  }

  /** Expanding the head of the frontier: it leaves, and the cells
      steps_from gives join with one more step. */
  ghost function Expand(hs: Rows, f: seq<(Pos, nat)>, visited: set<Pos>): (seq<(Pos, nat)>, set<Pos>)
    requires Rect(hs) && |f| > 0
  {
    var ns := StepsFrom(hs, f[0].0, visited);
    (f[1..] + Tag(ns, f[0].1 + 1), visited + Elems(ns))
  }

  /** The cells that join are new, one step on from the head, and are
      exactly one more step away. */
  lemma Joining(hs: Rows, s: Pos, goals: set<Pos>, f: seq<(Pos, nat)>,
                visited: set<Pos>, expanded: set<Pos>)
    requires Searching(hs, s, goals, f, visited, expanded) && Tame(hs)
    ensures var ns := StepsFrom(hs, f[0].0, visited);
      Distinct(ns) && Elems(ns) !! visited && Elems(ns) <= Cells(hs) &&
      (forall q :: q in ns ==> Reached(hs, s, q, f[0].1 + 1)) &&
      forall q :: q in Around(f[0].0) && Climbable(hs, f[0].0, q) ==> q in visited + Elems(ns)
  {
    var p, d := f[0].0, f[0].1;
    var ns := StepsFrom(hs, p, visited);
    StepsFromMeaning(hs, p, visited);
    assert p in Positions(f);
    assert InGrid(hs, p);
    forall q | q in ns
      ensures q in Cells(hs) && q in Within(hs, s, d + 1)
    {
      StaysOnGrid(hs, p, q);
      assert (q.0, q.1) in Cells(hs);
      InNext(hs, Within(hs, s, d), p, q);
    }
  }

  /** Expanding a head that is no goal keeps the loop's facts, unless
      the frontier runs out. */
  lemma SearchStep(hs: Rows, s: Pos, goals: set<Pos>, f: seq<(Pos, nat)>,
                   visited: set<Pos>, expanded: set<Pos>)
    requires Searching(hs, s, goals, f, visited, expanded) && Tame(hs)
    requires f[0].0 !in goals && |Expand(hs, f, visited).0| > 0
    ensures var (f', visited') := Expand(hs, f, visited);
      Searching(hs, s, goals, f', visited', expanded + {f[0].0})
  {
    StepLayered(hs, f, visited);
    StepDistinct(hs, f, visited);
    StepExactly(hs, s, goals, f, visited, expanded);
    StepCells(hs, s, goals, f, visited, expanded);
    StepReach(hs, s, goals, f, visited, expanded);
  }

  /** The frontier after an expansion keeps its order. */
  lemma StepLayered(hs: Rows, f: seq<(Pos, nat)>, visited: set<Pos>)
    requires Rect(hs) && Layered(f) && |Expand(hs, f, visited).0| > 0
    ensures Layered(Expand(hs, f, visited).0)
  {
    StepOrder(f, StepsFrom(hs, f[0].0, visited), f[0].1);
  }

  /** The frontier after an expansion lists no cell twice. */
  lemma StepDistinct(hs: Rows, f: seq<(Pos, nat)>, visited: set<Pos>)
    requires Rect(hs) && |f| > 0 && Once(f) && Positions(f) <= visited
    ensures Once(Expand(hs, f, visited).0)
  {
    StepsFromMeaning(hs, f[0].0, visited);
    StepOnce(f, StepsFrom(hs, f[0].0, visited), visited, f[0].1 + 1);
  }

  /** The frontier after an expansion keeps every count exact. */
  lemma StepExactly(hs: Rows, s: Pos, goals: set<Pos>, f: seq<(Pos, nat)>,
                    visited: set<Pos>, expanded: set<Pos>)
    requires Searching(hs, s, goals, f, visited, expanded) && Tame(hs)
    ensures Exact(hs, s, Expand(hs, f, visited).0)
  {
    Joining(hs, s, goals, f, visited, expanded);
    StepExact(hs, s, f, StepsFrom(hs, f[0].0, visited));
  }

  /** The sets after an expansion: the head joins the expanded cells,
      which stay no goal and see every step from them visited. */
  lemma StepCells(hs: Rows, s: Pos, goals: set<Pos>, f: seq<(Pos, nat)>,
                  visited: set<Pos>, expanded: set<Pos>)
    requires Searching(hs, s, goals, f, visited, expanded) && Tame(hs)
    requires f[0].0 !in goals
    ensures var (f', visited') := Expand(hs, f, visited);
      var expanded' := expanded + {f[0].0};
      visited' == expanded' + Positions(f') && expanded' !! Positions(f') &&
      Next(hs, expanded') <= visited' && expanded' !! goals && visited' <= Cells(hs)
  {
    var ns := StepsFrom(hs, f[0].0, visited);
    Joining(hs, s, goals, f, visited, expanded);
    StepSets(f, ns, visited, expanded);
    StepNext(hs, f[0].0, visited, expanded, ns);
  }

  /** The cells within the new first count are visited, and the expanded
      ones are within it. */
  lemma StepReach(hs: Rows, s: Pos, goals: set<Pos>, f: seq<(Pos, nat)>,
                  visited: set<Pos>, expanded: set<Pos>)
    requires Searching(hs, s, goals, f, visited, expanded) && Tame(hs)
    requires |Expand(hs, f, visited).0| > 0
    ensures var (f', visited') := Expand(hs, f, visited);
      Within(hs, s, f'[0].1) <= visited' && expanded + {f[0].0} <= Within(hs, s, f'[0].1)
  {
    var p, d := f[0].0, f[0].1;
    var ns := StepsFrom(hs, p, visited);
    var (f', visited') := Expand(hs, f, visited);
    Joining(hs, s, goals, f, visited, expanded);
    StepOrder(f, ns, d);
    StepNext(hs, p, visited, expanded, ns);
    WithinMono(hs, s, d, f'[0].1);
    if f'[0].1 == d + 1 {
      Ungoaled(hs, s, goals, f, visited, expanded);
      StepCovers(hs, s, f, visited, expanded, ns);
    }
  }

  lemma StepOrder(f: seq<(Pos, nat)>, ns: seq<Pos>, d: nat)
    requires Layered(f) && d == f[0].1 && |f[1..] + Tag(ns, d + 1)| > 0
    ensures Layered(f[1..] + Tag(ns, d + 1))
    ensures (f[1..] + Tag(ns, d + 1))[0].1 in {d, d + 1}
  {
    var f' := f[1..] + Tag(ns, d + 1);
    forall i, j | 0 <= i < j < |f'|
      ensures f'[i].1 <= f'[j].1
    {
      if j < |f| - 1 {
        assert f'[i] == f[i + 1] && f'[j] == f[j + 1];
      } else if i < |f| - 1 {
        assert f'[i] == f[i + 1];
        assert f[i + 1].1 <= f[|f| - 1].1;
      }
    }
    if |f| > 1 {
      assert f'[0] == f[1];
      assert f[0].1 <= f[1].1;
    }
    assert f'[|f'| - 1].1 <= d + 1 by {
      if |ns| == 0 {
        assert f'[|f'| - 1] == f[|f| - 1];
      }
    }
  }

  lemma StepOnce(f: seq<(Pos, nat)>, ns: seq<Pos>, visited: set<Pos>, d: nat)
    requires |f| > 0 && Once(f) && Distinct(ns) && Elems(ns) !! visited
    requires Positions(f) <= visited
    ensures Once(f[1..] + Tag(ns, d))
  {
    var f' := f[1..] + Tag(ns, d);
    forall i, j | 0 <= i < j < |f'|
      ensures f'[i].0 != f'[j].0
    {
      if j < |f| - 1 {
        assert f'[i] == f[i + 1] && f'[j] == f[j + 1];
      } else if i < |f| - 1 {
        assert f'[i] == f[i + 1] && f[i + 1] in f;
        assert f'[i].0 in visited;
        assert f'[j].0 == ns[j - (|f| - 1)];
        assert f'[j].0 in Elems(ns);
      } else {
        assert f'[i].0 == ns[i - (|f| - 1)] && f'[j].0 == ns[j - (|f| - 1)];
      }
    }
  }

  lemma StepExact(hs: Rows, s: Pos, f: seq<(Pos, nat)>, ns: seq<Pos>)
    requires Rect(hs) && |f| > 0 && Exact(hs, s, f)
    requires forall q :: q in ns ==> Reached(hs, s, q, f[0].1 + 1)
    ensures Exact(hs, s, f[1..] + Tag(ns, f[0].1 + 1))
  {
    ExactTail(hs, s, f);
    ExactTag(hs, s, ns, f[0].1 + 1);
    ExactAppend(hs, s, f[1..], Tag(ns, f[0].1 + 1));
  }

  lemma ExactTail(hs: Rows, s: Pos, f: seq<(Pos, nat)>)
    requires Rect(hs) && |f| > 0 && Exact(hs, s, f)
    ensures Exact(hs, s, f[1..])
  {
    forall i | 0 <= i < |f| - 1
      ensures f[1..][i] == f[i + 1]
    {
    }
  }

  lemma ExactTag(hs: Rows, s: Pos, ns: seq<Pos>, d: nat)
    requires Rect(hs) && d > 0
    requires forall q :: q in ns ==> Reached(hs, s, q, d)
    ensures Exact(hs, s, Tag(ns, d))
  {
    forall i | 0 <= i < |ns|
      ensures Tag(ns, d)[i] == (ns[i], d) && ns[i] in ns
    {
    }
  }

  /** Two frontiers with exact counts join into one. */
  lemma ExactAppend(hs: Rows, s: Pos, f: seq<(Pos, nat)>, g: seq<(Pos, nat)>)
    requires Rect(hs) && Exact(hs, s, f) && Exact(hs, s, g)
    ensures Exact(hs, s, f + g)
  {
    forall i | 0 <= i < |f + g|
      ensures (f + g)[i] == if i < |f| then f[i] else g[i - |f|]
    {
    }
  }

  lemma StepSets(f: seq<(Pos, nat)>, ns: seq<Pos>, visited: set<Pos>, expanded: set<Pos>)
    requires |f| > 0 && Once(f) && Elems(ns) !! visited
    requires visited == expanded + Positions(f) && expanded !! Positions(f)
    ensures forall d: nat :: visited + Elems(ns) == (expanded + {f[0].0}) + Positions(f[1..] + Tag(ns, d))
    ensures forall d: nat :: (expanded + {f[0].0}) !! Positions(f[1..] + Tag(ns, d))
  {
    assert f == [f[0]] + f[1..];
    assert Positions(f) == {f[0].0} + Positions(f[1..]);
    assert f[0].0 !in Positions(f[1..]);
    forall d: nat
      ensures Positions(f[1..] + Tag(ns, d)) == Positions(f[1..]) + Elems(ns)
    {
      var f' := f[1..] + Tag(ns, d);
      forall x | x in Elems(ns)
        ensures x in Positions(f')
      {
        var k :| 0 <= k < |ns| && ns[k] == x;
        assert f'[|f| - 1 + k] == (x, d);
      }
    }
  }

  lemma StepNext(hs: Rows, p: Pos, visited: set<Pos>, expanded: set<Pos>, ns: seq<Pos>)
    requires Rect(hs) && Next(hs, expanded) <= visited
    requires forall q :: q in Around(p) && Climbable(hs, p, q) ==> q in visited + Elems(ns)
    ensures Next(hs, expanded + {p}) <= visited + Elems(ns)
  {
  }

  /** When the first count moves on to d + 1, every cell within d + 1 has
      been visited: the cells within d have, and each step from them
      either comes from an expanded cell or from the head. */
  lemma StepCovers(hs: Rows, s: Pos, f: seq<(Pos, nat)>, visited: set<Pos>,
                   expanded: set<Pos>, ns: seq<Pos>)
    requires Searching(hs, s, NoGoals(), f, visited, expanded)
    requires |f[1..] + Tag(ns, f[0].1 + 1)| > 0
    requires (f[1..] + Tag(ns, f[0].1 + 1))[0].1 == f[0].1 + 1
    requires Next(hs, expanded + {f[0].0}) <= visited + Elems(ns)
    ensures Within(hs, s, f[0].1 + 1) <= visited + Elems(ns)
  {
    var d := f[0].1;
    Behind(f, ns, d);
    HeadOnly(hs, s, f, visited, expanded);
    NextMono(hs, Within(hs, s, d), expanded + {f[0].0});
  }

  /** When the next head is one step further, so is all the frontier
      behind the head. */
  lemma Behind(f: seq<(Pos, nat)>, ns: seq<Pos>, d: nat)
    requires Layered(f) && d == f[0].1
    requires |f[1..] + Tag(ns, d + 1)| > 0 && (f[1..] + Tag(ns, d + 1))[0].1 == d + 1
    ensures forall i :: 1 <= i < |f| ==> f[i].1 == d + 1
  {
    forall i | 1 <= i < |f|
      ensures f[i].1 == d + 1
    {
      assert (f[1..] + Tag(ns, d + 1))[0] == f[1];
      assert f[1].1 <= f[i].1 <= f[|f| - 1].1;
    }
  }

  /** With the frontier behind the head one step further, the cells
      within the head's count are the expanded ones and the head. */
  lemma HeadOnly(hs: Rows, s: Pos, f: seq<(Pos, nat)>, visited: set<Pos>, expanded: set<Pos>)
    requires Rect(hs) && |f| > 0 && Exact(hs, s, f)
    requires visited == expanded + Positions(f) && Within(hs, s, f[0].1) <= visited
    requires forall i :: 1 <= i < |f| ==> f[i].1 == f[0].1 + 1
    ensures Within(hs, s, f[0].1) <= expanded + {f[0].0}
  {
    Beyond(hs, s, f);
    OnlyHead(Within(hs, s, f[0].1), f, visited, expanded);
  }

  /** The frontier behind a head is beyond the head's count. */
  lemma Beyond(hs: Rows, s: Pos, f: seq<(Pos, nat)>)
    requires Rect(hs) && |f| > 0 && Exact(hs, s, f)
    requires forall i :: 1 <= i < |f| ==> f[i].1 == f[0].1 + 1
    ensures forall i :: 1 <= i < |f| ==> f[i].0 !in Within(hs, s, f[0].1)
  {
  }

  lemma OnlyHead(w: set<Pos>, f: seq<(Pos, nat)>, visited: set<Pos>, expanded: set<Pos>)
    requires |f| > 0 && visited == expanded + Positions(f) && w <= visited
    requires forall i :: 1 <= i < |f| ==> f[i].0 !in w
    ensures w <= expanded + {f[0].0}
  {
    forall x | x in w && x !in expanded
      ensures x == f[0].0
    {
      assert x in Positions(f);
      var e :| e in f && e.0 == x;
      var i :| 0 <= i < |f| && f[i] == e;
    }
  }

  /** No goals: the facts of the search that do not mention goals. */
  function NoGoals(): set<Pos>
  {
    {}
  }

  /** The facts of the search without its goals. */
  lemma Ungoaled(hs: Rows, s: Pos, goals: set<Pos>, f: seq<(Pos, nat)>,
                 visited: set<Pos>, expanded: set<Pos>)
    requires Searching(hs, s, goals, f, visited, expanded)
    ensures Searching(hs, s, NoGoals(), f, visited, expanded)
  {
  }

  /** Each expansion takes one more cell of the grid. */
  lemma Progress(hs: Rows, s: Pos, goals: set<Pos>, f: seq<(Pos, nat)>,
                 visited: set<Pos>, expanded: set<Pos>)
    requires Searching(hs, s, goals, f, visited, expanded)
    ensures |Cells(hs) - (expanded + {f[0].0})| < |Cells(hs) - expanded|
  {
    var p := f[0].0;
    assert p in Positions(f);
    assert p in Cells(hs) - expanded;
    assert Cells(hs) - (expanded + {p}) == (Cells(hs) - expanded) - {p};
  }

  /** The frontier runs out: the cells expanded with the head are closed
      under steps, hold every cell within the head's count, and none is a
      goal. */
  lemma SearchExhausted(hs: Rows, s: Pos, goals: set<Pos>, f: seq<(Pos, nat)>,
                        visited: set<Pos>, expanded: set<Pos>)
    requires Searching(hs, s, goals, f, visited, expanded) && Tame(hs)
    requires f[0].0 !in goals && |Expand(hs, f, visited).0| == 0
    ensures Within(hs, s, f[0].1) <= expanded + {f[0].0}
    ensures Next(hs, expanded + {f[0].0}) <= expanded + {f[0].0}
    ensures (expanded + {f[0].0}) !! goals
  {
    var p := f[0].0;
    Joining(hs, s, goals, f, visited, expanded);
    Lone(f, StepsFrom(hs, p, visited), f[0].1 + 1);
    StepNext(hs, p, visited, expanded, []);
  }

  /** A frontier that empties when its head leaves held the head alone. */
  lemma Lone(f: seq<(Pos, nat)>, ns: seq<Pos>, d: nat)
    requires |f| > 0 && |f[1..] + Tag(ns, d)| == 0
    ensures ns == [] && Positions(f) == {f[0].0}
  {
    assert f == [f[0]];
  }

  /** A set of cells closed under steps that holds every cell within d
      steps and no goal: no goal is ever reachable. */
  lemma Unreachable(hs: Rows, s: Pos, goals: set<Pos>, d: nat, all: set<Pos>)
    requires Rect(hs) && Within(hs, s, d) <= all && Next(hs, all) <= all && all !! goals
    ensures forall n, g :: g in goals ==> g !in Within(hs, s, n)
  {
    forall n: nat
      ensures Within(hs, s, n) <= all
    {
      Closed(hs, s, d, n, all);
    }
  }

  /** A set closed under steps that holds everything within d steps holds
      everything reachable. */
  lemma {:induction false} Closed(hs: Rows, s: Pos, d: nat, n: nat, all: set<Pos>)
    requires Rect(hs) && Within(hs, s, d) <= all && Next(hs, all) <= all
    ensures Within(hs, s, n) <= all
  {
    if n <= d {
      WithinMono(hs, s, n, d);
    } else {
      Closed(hs, s, d, n - 1, all);
      NextMono(hs, Within(hs, s, n - 1), all);
    }
  }

  /** bfs: the fewest steps from the start to a goal, or None when the
      frontier runs out (the assert fails) because no goal can be
      reached. */
  method Bfs(hmap: HeightMap, goals: set<Pos>) returns (r: Option<nat>)
    requires Rect(hmap.heights) && Tame(hmap.heights) && InGrid(hmap.heights, hmap.start)
    ensures r.Some? ==> Shortest(hmap.heights, hmap.start, goals, r.value)
    ensures r.None? ==> forall n, g :: g in goals ==> g !in Within(hmap.heights, hmap.start, n)
  {
    var hs, s := hmap.heights, hmap.start;
    var frontier: seq<(Pos, nat)> := [(s, 0)];
    var visited: set<Pos> := {s};
    ghost var expanded: set<Pos> := {};
    SearchStarts(hs, s, goals);
    while frontier[0].0 !in goals
      invariant Searching(hs, s, goals, frontier, visited, expanded)
      decreases |Cells(hs) - expanded|
    {
      var pos := frontier[0].0;
      ghost var before, seen := frontier, visited;
      frontier, visited := ExpandHead(hs, frontier, visited);
      if frontier == [] {
        SearchExhausted(hs, s, goals, before, seen, expanded);
        Unreachable(hs, s, goals, before[0].1, expanded + {pos});
        return None;
      }
      SearchStep(hs, s, goals, before, seen, expanded);
      Progress(hs, s, goals, before, seen, expanded);
      expanded := expanded + {pos};
    }
    SearchFound(hs, s, goals, frontier, visited, expanded);
    return Some(frontier[0].1);
  }

  /** One turn of the loop of bfs: the head leaves the frontier and the
      cells steps_from gives are visited with one more step. */
  method ExpandHead(hs: Rows, frontier: seq<(Pos, nat)>, visited: set<Pos>)
    returns (frontier': seq<(Pos, nat)>, visited': set<Pos>)
    requires Rect(hs) && |frontier| > 0
    ensures (frontier', visited') == Expand(hs, frontier, visited)
  {
    var pos, steps := frontier[0].0, frontier[0].1;
    frontier', visited' := Visit(hs, frontier[1..], visited, StepsFrom(hs, pos, visited), steps + 1);
  }

  /** The visit calls for the cells steps_from gives, each joining the
      frontier with count d and marked visited. */
  method Visit(hs: Rows, frontier: seq<(Pos, nat)>, visited: set<Pos>, next: seq<Pos>, d: nat)
    returns (frontier': seq<(Pos, nat)>, visited': set<Pos>)
    ensures frontier' == frontier + Tag(next, d) && visited' == visited + Elems(next)
  {
    frontier', visited' := frontier, visited;
    for k := 0 to |next|
      invariant frontier' == frontier + Tag(next[..k], d)
      invariant visited' == visited + Elems(next[..k])
    {
      assert next[..k + 1] == next[..k] + [next[k]];
      frontier' := frontier' + [(next[k], d)];
      visited' := visited' + {next[k]};
    }
    assert next[..|next|] == next;
  }

  /** part 1: the fewest steps from S to E. */
  method Part1(hmap: HeightMap) returns (r: Option<nat>)
    requires Rect(hmap.heights) && Tame(hmap.heights) && InGrid(hmap.heights, hmap.start)
    ensures r.Some? ==> Shortest(hmap.heights, hmap.start, {hmap.end}, r.value)
    ensures r.None? ==> forall n :: hmap.end !in Within(hmap.heights, hmap.start, n)
  {
    r := Bfs(hmap, {hmap.end});
  }

  /** part 2: flip, then search from E for a cell of height z, which is
      the fewest steps up from any cell of height a to E. */
  method Part2(hmap: HeightMap) returns (r: Option<nat>)
    requires Rect(hmap.heights) && Letters(hmap.heights) && InGrid(hmap.heights, hmap.end)
    modifies hmap
    ensures hmap.heights == Flipped(old(hmap.heights))
    ensures hmap.start == old(hmap.end) && hmap.end == old(hmap.start)
    ensures r.Some? ==> ClimbsFrom(old(hmap.heights), old(hmap.end), r.value)
    ensures r.None? ==> forall n, v :: v in Valleys(old(hmap.heights)) ==> v !in WithinTo(old(hmap.heights), old(hmap.end), n)
  {
    ghost var hs, e := hmap.heights, hmap.end;
    hmap.Flip();
    FlipShape(hs);
    r := Bfs(hmap, Peaks(hmap.heights));
    PeaksAreValleys(hs);
    ReachFlipped(hs, e);
  }

  /** Every search of the flipped map from e is a climb to e. */
  lemma ReachFlipped(hs: Rows, e: Pos)
    requires Rect(hs) && Letters(hs) && InGrid(hs, e)
    ensures Rect(Flipped(hs)) && forall n :: Within(Flipped(hs), e, n) == WithinTo(hs, e, n)
  {
    FlipShape(hs);
    forall n: nat
      ensures Within(Flipped(hs), e, n) == WithinTo(hs, e, n)
    {
      WithinFlipped(hs, e, n);
    }
  }

  /** n is the fewest steps up from any cell of height a to e. */
  ghost predicate ClimbsFrom(hs: Rows, e: Pos, n: nat)
    requires Rect(hs)
  {
    WithinTo(hs, e, n) * Valleys(hs) != {} && (n > 0 ==> WithinTo(hs, e, n - 1) * Valleys(hs) == {})
  }
}
