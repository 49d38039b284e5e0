/** Blizzard basin: crossing a valley whose interior is swept by blizzards
    that move one cell a minute and wrap around inside the walls. The
    earliest arrival is found by a best-first search over (position,
    minute) states, pruned by the distance still to go. */
module BlizzardBasin {
  import opened Common

  /** A (row, column) position, pair<int, int> in the source. */
  datatype Coord = Coord(r: int, c: int)

  function Plus(a: Coord, d: Coord): Coord
  {
    Coord(a.r + d.r, a.c + d.c)
  }

  /** manhattan_dist. */
  function Manhattan(a: Coord, b: Coord): nat
  {
    Abs(a.r - b.r) + Abs(a.c - b.c)
  }

  /** The valley's rows, and the openings in the top and bottom walls. */
  datatype Valley = Valley(rows: seq<string>, start: Coord, goal: Coord)

  /** What valley's asserts demand: at least three rows, every one as long
      as the first, and at least three columns. */
  predicate Rectangular(rows: seq<string>)
  {
    |rows| >= 3 && |rows[0]| >= 3 && forall i :: 0 <= i < |rows| ==> |rows[i]| == |rows[0]|
  }

  /** valley::valley over the lines already read: None where an assert
      fails. The start is the first '.' of the top row and the goal the
      first '.' of the bottom row; a row without one gives column -1, as
      npos does once stored in an int. */
  function ReadValley(lines: seq<string>): (v: Option<Valley>)
    ensures v.Some? <==> Rectangular(lines)
    ensures v.Some? ==> v.value.rows == lines && v.value.start.r == 0 && v.value.goal.r == |lines| - 1
    ensures v.Some? && '.' in lines[0] ==>
      0 <= v.value.start.c < |lines[0]| && lines[0][v.value.start.c] == '.' && '.' !in lines[0][..v.value.start.c]
    ensures v.Some? && '.' in lines[|lines| - 1] ==>
      0 <= v.value.goal.c < |lines[|lines| - 1]| && lines[|lines| - 1][v.value.goal.c] == '.' &&
      '.' !in lines[|lines| - 1][..v.value.goal.c]
    ensures v.Some? && '.' !in lines[0] ==> v.value.start.c == -1
    ensures v.Some? && '.' !in lines[|lines| - 1] ==> v.value.goal.c == -1
  {
    if !Rectangular(lines) then None
    else Some(Valley(lines, Coord(0, IndexOf(lines[0], '.')), Coord(|lines| - 1, IndexOf(lines[|lines| - 1], '.'))))
  }

  /** unsigned_mod: C++'s remainder, which has the sign of a, moved into
      [0, modulus). */
  function UnsignedMod(a: int, modulus: int): (r: int)
    requires modulus > 0
    ensures 0 <= r < modulus
  {
    var result := if a >= 0 then a % modulus else -((-a) % modulus);
    if result < 0 then result + modulus else result
  }

  /** unsigned_mod is the mathematical remainder. */
  lemma UnsignedModIsMod(a: int, m: int)
    requires m > 0
    ensures UnsignedMod(a, m) == a % m
  {
    var result := CRem(a, m);
    assert UnsignedMod(a, m) == if result < 0 then result + m else result;
    if result < 0 {
      DivModUnique(a, m, CDiv(a, m) - 1, result + m);
    } else {
      DivModUnique(a, m, CDiv(a, m), result);
    }
  }

  /** Adding whole laps leaves a remainder unchanged. */
  lemma ModPeriod(x: int, k: int, m: int, y: int)
    requires m > 0 && y == x + k * m
    ensures y % m == x % m
  {
    DivModUnique(y, m, x / m + k, x % m);
  }

  /** A cell strictly inside the walls. */
  predicate Interior(v: Valley, p: Coord)
    requires Rectangular(v.rows)
  {
    1 <= p.r < |v.rows| - 1 && 1 <= p.c < |v.rows[0]| - 1
  }

  /** valley::is_clear: whether the expedition may stand on pos at minute
      t. Off the map and on a wall it may not; on the border (the start or
      the goal) it may; inside, it may unless a blizzard arrives there,
      which is looked up by running each of the four directions backwards
      from pos. */
  function IsClear(v: Valley, pos: Coord, t: int): (r: bool)
    requires Rectangular(v.rows) && t >= 0
    ensures r ==> 0 <= pos.r < |v.rows| && 0 <= pos.c < |v.rows[0]| && v.rows[pos.r][pos.c] != '#'
    ensures Opening(v, pos) ==> r
  {
    var nr, nc := |v.rows|, |v.rows[0]|;
    if pos.r < 0 || pos.r >= nr || pos.c < 0 || pos.c >= nc then false
    else if v.rows[pos.r][pos.c] == '#' then false
    else if pos.r == 0 || pos.c == 0 || pos.r == nr - 1 || pos.c == nc - 1 then true
    else
      NoneArrives(v, pos, t)
  }

  /** The cell is_clear's 'v' lookup reads: t rows above pos, wrapping
      around inside the walls. */
  function FromAbove(v: Valley, pos: Coord, t: int): (b: Coord)
    requires Rectangular(v.rows) && t >= 0 && Interior(v, pos)
    ensures Interior(v, b) && b.c == pos.c
  {
    Coord(UnsignedMod(pos.r - 1 - t, |v.rows| - 2) + 1, pos.c)
  }

  /** The cell the '^' lookup reads, t rows below pos. C++'s % of a number
      that is not negative agrees with the mathematical remainder. */
  function FromBelow(v: Valley, pos: Coord, t: int): (b: Coord)
    requires Rectangular(v.rows) && t >= 0 && Interior(v, pos)
    ensures Interior(v, b) && b.c == pos.c
  {
    Coord((pos.r - 1 + t) % (|v.rows| - 2) + 1, pos.c)
  }

  /** The cell the '<' lookup reads, t columns right of pos. */
  function FromRight(v: Valley, pos: Coord, t: int): (b: Coord)
    requires Rectangular(v.rows) && t >= 0 && Interior(v, pos)
    ensures Interior(v, b) && b.r == pos.r
  {
    Coord(pos.r, (pos.c - 1 + t) % (|v.rows[0]| - 2) + 1)
  }

  /** The cell the '>' lookup reads, t columns left of pos. */
  function FromLeft(v: Valley, pos: Coord, t: int): (b: Coord)
    requires Rectangular(v.rows) && t >= 0 && Interior(v, pos)
    ensures Interior(v, b) && b.r == pos.r
  {
    Coord(pos.r, UnsignedMod(pos.c - 1 - t, |v.rows[0]| - 2) + 1)
  }

  function At(v: Valley, b: Coord): char
    requires Rectangular(v.rows) && Interior(v, b)
  {
    v.rows[b.r][b.c]
  }

  /** is_clear's four lookups for an interior cell find no blizzard
      heading for pos. */
  predicate NoneArrives(v: Valley, pos: Coord, t: int)
    requires Rectangular(v.rows) && t >= 0 && Interior(v, pos)
  {
    At(v, FromAbove(v, pos, t)) != 'v' && At(v, FromBelow(v, pos, t)) != '^' &&
    At(v, FromRight(v, pos, t)) != '<' && At(v, FromLeft(v, pos, t)) != '>'
  }

  // ---------------------------------------------------------- blizzards

  predicate IsBlizzard(ch: char)
  {
    ch == 'v' || ch == '^' || ch == '<' || ch == '>'
  }

  /** Where the blizzard starting on interior cell b is at minute t: one
      cell a minute in its arrow's direction, wrapping around from one
      wall to the opposite one. */
  function Drift(v: Valley, b: Coord, t: int): (p: Coord)
    requires Rectangular(v.rows) && Interior(v, b)
    ensures Interior(v, p)
  {
    var m, n := |v.rows| - 2, |v.rows[0]| - 2;
    match v.rows[b.r][b.c]
    case 'v' => Coord(1 + (b.r - 1 + t) % m, b.c)
    case '^' => Coord(1 + (b.r - 1 - t) % m, b.c)
    case '>' => Coord(b.r, 1 + (b.c - 1 + t) % n)
    case '<' => Coord(b.r, 1 + (b.c - 1 - t) % n)
    case _ => b
  }

  /** Some blizzard of the map is on pos at minute t. */
  ghost predicate Swept(v: Valley, pos: Coord, t: int)
    requires Rectangular(v.rows)
  {
    exists b :: Interior(v, b) && IsBlizzard(v.rows[b.r][b.c]) && Drift(v, b, t) == pos
  }

  /** Running a wrap-around forwards from x lands on y exactly when
      running it backwards from y lands on x. */
  lemma ModMatch(x: int, y: int, t: int, m: int)
    requires m > 0 && 0 <= x < m && 0 <= y < m
    ensures (x + t) % m == y <==> x == (y - t) % m
  {
    var q := (x + t) / m;
    if (x + t) % m == y {
      DivModUnique(y - t, m, -q, x);
    }
    var q' := (y - t) / m;
    if x == (y - t) % m {
      DivModUnique(x + t, m, -q', y);
    }
  }

  /** The 'v' blizzards: only the one that is_clear looks up, in pos's
      column, can be on pos at minute t. */
  lemma DownOnto(v: Valley, pos: Coord, t: int, b: Coord)
    requires Rectangular(v.rows) && t >= 0 && Interior(v, pos) && Interior(v, b) && v.rows[b.r][b.c] == 'v'
    ensures Drift(v, b, t) == pos <==> b == FromAbove(v, pos, t)
  {
    UnsignedModIsMod(pos.r - 1 - t, |v.rows| - 2);
    ModMatch(b.r - 1, pos.r - 1, t, |v.rows| - 2);
  }

  /** The '^' blizzards, likewise. */
  lemma UpOnto(v: Valley, pos: Coord, t: int, b: Coord)
    requires Rectangular(v.rows) && t >= 0 && Interior(v, pos) && Interior(v, b) && v.rows[b.r][b.c] == '^'
    ensures Drift(v, b, t) == pos <==> b == FromBelow(v, pos, t)
  {
    ModMatch(b.r - 1, pos.r - 1, -t, |v.rows| - 2);
  }

  /** The '<' blizzards, in pos's row. */
  lemma LeftOnto(v: Valley, pos: Coord, t: int, b: Coord)
    requires Rectangular(v.rows) && t >= 0 && Interior(v, pos) && Interior(v, b) && v.rows[b.r][b.c] == '<'
    ensures Drift(v, b, t) == pos <==> b == FromRight(v, pos, t)
  {
    ModMatch(b.c - 1, pos.c - 1, -t, |v.rows[0]| - 2);
  }

  /** The '>' blizzards, likewise. */
  lemma RightOnto(v: Valley, pos: Coord, t: int, b: Coord)
    requires Rectangular(v.rows) && t >= 0 && Interior(v, pos) && Interior(v, b) && v.rows[b.r][b.c] == '>'
    ensures Drift(v, b, t) == pos <==> b == FromLeft(v, pos, t)
  {
    UnsignedModIsMod(pos.c - 1 - t, |v.rows[0]| - 2);
    ModMatch(b.c - 1, pos.c - 1, t, |v.rows[0]| - 2);
  }

  /** A blizzard never lands on a cell whose four lookups find nothing. */
  lemma Misses(v: Valley, pos: Coord, t: int, b: Coord)
    requires Rectangular(v.rows) && t >= 0 && Interior(v, pos)
    requires NoneArrives(v, pos, t)
    requires Interior(v, b) && IsBlizzard(v.rows[b.r][b.c])
    ensures Drift(v, b, t) != pos
  {
    var ch := v.rows[b.r][b.c];
    if ch == 'v' {
      DownOnto(v, pos, t, b);
    } else if ch == '^' {
      UpOnto(v, pos, t, b);
    } else if ch == '<' {
      LeftOnto(v, pos, t, b);
    } else {
      RightOnto(v, pos, t, b);
    }
  }

  /** So no blizzard at all is on a cell whose four lookups find nothing. */
  lemma Unswept(v: Valley, pos: Coord, t: int)
    requires Rectangular(v.rows) && t >= 0 && Interior(v, pos)
    requires NoneArrives(v, pos, t)
    ensures !Swept(v, pos, t)
  {
    forall b | Interior(v, b) && IsBlizzard(v.rows[b.r][b.c])
      ensures Drift(v, b, t) != pos
    {
      Misses(v, pos, t, b);
    }
  }

  /** A blizzard that drifts onto pos sweeps it. */
  lemma Sweeps(v: Valley, pos: Coord, t: int, b: Coord)
    requires Rectangular(v.rows) && Interior(v, b) && IsBlizzard(v.rows[b.r][b.c]) && Drift(v, b, t) == pos
    ensures Swept(v, pos, t)
  {
  }

  /** A blizzard found by one of the four lookups is on pos at minute t. */
  lemma Found(v: Valley, pos: Coord, t: int)
    requires Rectangular(v.rows) && t >= 0 && Interior(v, pos)
    requires !NoneArrives(v, pos, t)
    ensures Swept(v, pos, t)
  {
    var down, up := FromAbove(v, pos, t), FromBelow(v, pos, t);
    var left, right := FromRight(v, pos, t), FromLeft(v, pos, t);
    if At(v, down) == 'v' {
      DownOnto(v, pos, t, down);
      Sweeps(v, pos, t, down);
    } else if At(v, up) == '^' {
      UpOnto(v, pos, t, up);
      Sweeps(v, pos, t, up);
    } else if At(v, left) == '<' {
      LeftOnto(v, pos, t, left);
      Sweeps(v, pos, t, left);
    } else {
      RightOnto(v, pos, t, right);
      Sweeps(v, pos, t, right);
    }
  }

  /** is_clear inside the walls is right: an interior cell that is not a
      wall is clear at minute t exactly when no blizzard is on it. */
  lemma ClearIff(v: Valley, pos: Coord, t: int)
    requires Rectangular(v.rows) && t >= 0 && Interior(v, pos) && v.rows[pos.r][pos.c] != '#'
    ensures IsClear(v, pos, t) <==> !Swept(v, pos, t)
  {
    if NoneArrives(v, pos, t) {
      Unswept(v, pos, t);
    } else {
      Found(v, pos, t);
    }
  }

  /** The number of minutes after which every blizzard is back: the
      interior's height times its width. */
  function Period(v: Valley): (p: nat)
    requires Rectangular(v.rows)
  {
    Times(|v.rows| - 2, |v.rows[0]| - 2)
  }

  /** A wrap-around of m cells comes round again after Times(m, n) more
      minutes, forwards and backwards. */
  lemma WrapPeriodic(x: int, t: int, t': int, m: nat, n: nat)
    requires m > 0 && t' == t + Times(m, n)
    ensures (x + t') % m == (x + t) % m && (x - t') % m == (x - t) % m
  {
    TimesIsProduct(m, n);
    var k: int := n;
    ModPeriod(x + t, k, m, x + t');
    ModPeriod(x - t, -k, m, x - t');
  }

  /** Every blizzard is back where it started after Period(v) minutes. */
  lemma DriftPeriodic(v: Valley, b: Coord, t: int)
    requires Rectangular(v.rows) && Interior(v, b)
    ensures Drift(v, b, t + Period(v)) == Drift(v, b, t)
  {
    var m, n := |v.rows| - 2, |v.rows[0]| - 2;
    WrapPeriodic(b.r - 1, t, t + Period(v), m, n);
    TimesIsProduct(m, n);
    TimesIsProduct(n, m);
    WrapPeriodic(b.c - 1, t, t + Period(v), n, m);
  }

  /** So the valley repeats: the same cells are swept at t and at
      t + Period(v). */
  lemma SweptPeriodic(v: Valley, pos: Coord, t: int)
    requires Rectangular(v.rows)
    ensures Swept(v, pos, t + Period(v)) == Swept(v, pos, t)
  {
    forall b | Interior(v, b)
      ensures Drift(v, b, t + Period(v)) == Drift(v, b, t)
    {
      DriftPeriodic(v, b, t);
    }
  }

  /** And is_clear is the same at t and at t + Period(v), for every cell. */
  lemma ClearPeriodic(v: Valley, pos: Coord, t: int)
    requires Rectangular(v.rows) && t >= 0
    ensures IsClear(v, pos, t + Period(v)) == IsClear(v, pos, t)
  {
    if Interior(v, pos) && v.rows[pos.r][pos.c] != '#' {
      ClearIff(v, pos, t);
      ClearIff(v, pos, t + Period(v));
      SweptPeriodic(v, pos, t);
    }
  }

  // ------------------------------------------------------------- search

  /** search's five moves: wait, down, up, right and left. */
  const Deltas: seq<Coord> := [Coord(0, 0), Coord(1, 0), Coord(-1, 0), Coord(0, 1), Coord(0, -1)]

  /** The cell the i-th move leads to from a. */
  function Next(a: Coord, i: int): Coord
    requires 0 <= i < |Deltas|
  {
    Plus(a, Deltas[i])
  }

  /** b is one of the five moves away from a. */
  predicate Move(a: Coord, b: Coord)
  {
    exists i :: 0 <= i < |Deltas| && Next(a, i) == b
  }

  /** The five moves are exactly the cells at most one step away. */
  lemma MoveIff(a: Coord, b: Coord)
    ensures Move(a, b) <==> Manhattan(a, b) <= 1
  {
    if Move(a, b) {
      var i :| 0 <= i < |Deltas| && Next(a, i) == b;
    }
    if Manhattan(a, b) <= 1 {
      var i := if b == a then 0 else if b.r == a.r + 1 then 1 else if b.r == a.r - 1 then 2
               else if b.c == a.c + 1 then 3 else 4;
      assert Next(a, i) == b;
    }
  }

  /** A route the expedition can take, leaving `from` at minute startT:
      each minute it makes one move onto a cell that is clear at that
      minute. search does not check the starting cell itself. */
  predicate Trip(v: Valley, from: Coord, startT: int, p: seq<Coord>)
    requires Rectangular(v.rows) && startT >= 0
  {
    |p| >= 1 && p[0] == from && forall k :: 0 <= k < |p| - 1 ==> Leg(v, startT, p, k)
  }

  /** The k-th minute of trip p: one move onto a cell clear at its end. */
  predicate Leg(v: Valley, startT: int, p: seq<Coord>, k: int)
    requires Rectangular(v.rows) && startT >= 0 && 0 <= k < |p| - 1
  {
    Move(p[k], p[k + 1]) && IsClear(v, p[k + 1], startT + k + 1)
  }

  /** n minutes is the earliest any trip leaving `from` at minute startT
      can reach `to`: some trip does it in n, and none in fewer. */
  ghost predicate Earliest(v: Valley, from: Coord, to: Coord, startT: int, n: int)
    requires Rectangular(v.rows) && startT >= 0
  {
    (exists p :: Trip(v, from, startT, p) && |p| == n + 1 && p[|p| - 1] == to) &&
    forall p :: Trip(v, from, startT, p) && p[|p| - 1] == to ==> |p| - 1 >= n
  }

  /** A trip covers at most one step of distance a minute. */
  lemma {:induction false} TripDistance(v: Valley, from: Coord, startT: int, p: seq<Coord>, k: nat)
    requires Rectangular(v.rows) && startT >= 0 && Trip(v, from, startT, p) && k < |p|
    ensures Manhattan(p[k], p[|p| - 1]) <= |p| - 1 - k
    decreases |p| - k
  {
    if k < |p| - 1 {
      assert Leg(v, startT, p, k);
      TripDistance(v, from, startT, p, k + 1);
      MoveIff(p[k], p[k + 1]);
    }
  }

  /** An opening in the top or bottom wall, where the start and the goal
      are. */
  predicate Opening(v: Valley, c: Coord)
    requires Rectangular(v.rows)
  {
    (c.r == 0 || c.r == |v.rows| - 1) && 0 <= c.c < |v.rows[0]| && v.rows[c.r][c.c] != '#'
  }

  /** What part2's comments rely on: one can always wait on an opening,
      so a trip that leaves an opening d minutes late can be had from the
      earlier minute by waiting there first. */
  lemma Delay(v: Valley, from: Coord, startT: int, d: nat, p: seq<Coord>)
    requires Rectangular(v.rows) && startT >= 0 && Opening(v, from) && Trip(v, from, startT + d, p)
    ensures Trip(v, from, startT, seq(d, _ => from) + p)
  {
    var q := seq(d, _ => from) + p;
    forall k | 0 <= k < |q| - 1
      ensures Leg(v, startT, q, k)
    {
      if k < d {
        assert q[k] == from && q[k + 1] == from && Next(from, 0) == from;
      } else {
        assert q[k] == p[k - d] && q[k + 1] == p[k - d + 1] && Leg(v, startT + d, p, k - d);
      }
    }
  }

  /** A search state: a position and the minutes since the search began. */
  datatype State = State(pos: Coord, t: nat)

  /** route is a trip that is in state s at its end. */
  predicate Reaches(v: Valley, from: Coord, startT: int, route: seq<Coord>, s: State)
    requires Rectangular(v.rows) && startT >= 0
  {
    Trip(v, from, startT, route) && |route| == s.t + 1 && route[|route| - 1] == s.pos
  }

  /** Every visited state has a trip in routes that reaches it. */
  ghost predicate Routed(v: Valley, from: Coord, startT: int, visited: set<State>, routes: map<State, seq<Coord>>)
    requires Rectangular(v.rows) && startT >= 0
  {
    forall x :: x in visited ==> x in routes && Reaches(v, from, startT, routes[x], x)
  }

  /** What popping s has done for good: a state on `to` has brought best
      down to its time; any other was pruned by best, or had every clear
      successor visited. */
  ghost predicate Handled(v: Valley, to: Coord, startT: int, s: State, best: Option<nat>, visited: set<State>)
    requires Rectangular(v.rows) && startT >= 0
  {
    if s.pos == to then
      best.Some? && best.value <= s.t
    else
      (best.Some? && Manhattan(s.pos, to) + s.t >= best.value) ||
      (forall n :: Move(s.pos, n) && IsClear(v, n, s.t + 1 + startT) ==> State(n, s.t + 1) in visited)
  }

  /** Every state of done is handled. */
  ghost predicate AllHandled(v: Valley, to: Coord, startT: int, done: set<State>, best: Option<nat>, visited: set<State>)
    requires Rectangular(v.rows) && startT >= 0
  {
    forall s :: s in done ==> Handled(v, to, startT, s, best, visited)
  }

  /** What is handled stays handled as best comes down and more states
      are visited. */
  lemma StillHandled(v: Valley, to: Coord, startT: int, done: set<State>, best: Option<nat>, visited: set<State>,
                     best': Option<nat>, visited': set<State>)
    requires Rectangular(v.rows) && startT >= 0 && AllHandled(v, to, startT, done, best, visited)
    requires visited <= visited' && (best.Some? ==> best'.Some? && best'.value <= best.value)
    ensures AllHandled(v, to, startT, done, best', visited')
  {
    forall s | s in done
      ensures Handled(v, to, startT, s, best', visited')
    {
      assert Handled(v, to, startT, s, best, visited);
    }
  }

  /** The visited states no longer waiting in the queue. */
  function Done(visited: set<State>, queue: multiset<State>): set<State>
  {
    set x | x in visited && x !in queue
  }

  /** Handling s adds it to what is handled. */
  lemma AddHandled(v: Valley, to: Coord, startT: int, done: set<State>, s: State, best: Option<nat>,
                   visited: set<State>, done': set<State>)
    requires Rectangular(v.rows) && startT >= 0
    requires AllHandled(v, to, startT, done, best, visited) && Handled(v, to, startT, s, best, visited)
    requires done' <= done + {s}
    ensures AllHandled(v, to, startT, done', best, visited)
  {
  }

  /** How a search ends: with the earliest arrival, with the queue empty
      and no arrival (where the source's assert fails), or, in the model
      only, with its step budget spent. */
  datatype Outcome = Arrived(t: int) | Stuck | OutOfFuel

  /** search: a best-first search over (position, minute) states from
      `from`, leaving at minute startT, for `to`. The queue pops states in
      any order, so the heuristic order of the source's priority_queue is
      one of the runs covered. Every arrival brings best down to the
      minimum, and a state that cannot beat best is pruned. */
  method Search(v: Valley, from: Coord, to: Coord, startT: int, fuel: nat) returns (r: Outcome)
    requires Rectangular(v.rows) && startT >= 0
    ensures r.Arrived? ==> r.t >= 0 && Earliest(v, from, to, startT, r.t)
    ensures r.Stuck? ==> forall p :: Trip(v, from, startT, p) ==> p[|p| - 1] != to
  {
    var start := State(from, 0);
    var visited: set<State> := {start};
    var queue: multiset<State> := multiset{start};
    ghost var routes: map<State, seq<Coord>> := map[start := [from]];
    var best: Option<nat> := None;
    ghost var route: seq<Coord> := [];
    var steps := 0;
    while queue != multiset{} && steps < fuel
      invariant start in visited && forall s :: s in queue ==> s in visited
      invariant Routed(v, from, startT, visited, routes)
      invariant best.Some? ==> Reaches(v, from, startT, route, State(to, best.value))
      invariant AllHandled(v, to, startT, Done(visited, queue), best, visited)
      decreases fuel - steps
    {
      var s :| s in queue;
      ghost var done := Done(visited, queue);
      queue := queue - multiset{s};
      steps := steps + 1;
      if s.pos == to {
        if best.None? || s.t < best.value {
          route := routes[s];
        }
        var best' := Some(Min(if best.Some? then best.value else s.t, s.t));
        StillHandled(v, to, startT, done, best, visited, best', visited);
        best := best';
      } else if best.Some? && Manhattan(s.pos, to) + s.t >= best.value {
        // cannot arrive earlier
      } else {
        var visited', queue' := Expand(v, startT, s, visited, queue);
        GrowRoutes(v, from, startT, s, visited, visited', routes);
        routes := Grow(s, routes, visited' - visited);
        StillHandled(v, to, startT, done, best, visited, best, visited');
        visited, queue := visited', queue';
      }
      assert Handled(v, to, startT, s, best, visited);
      AddHandled(v, to, startT, done, s, best, visited, Done(visited, queue));
    }
    if queue != multiset{} {
      r := OutOfFuel;
    } else {
      assert Done(visited, queue) == visited;
      forall p | Trip(v, from, startT, p) && p[|p| - 1] == to
        ensures best.Some? && best.value <= |p| - 1
      {
        Walk(v, from, to, startT, best, visited, p, 0);
      }
      r := if best.Some? then Arrived(best.value) else Stuck;
    }
  }

  /** The routes after expanding s: a newly visited state is reached by
      s's route and one more move. */
  ghost function Grow(s: State, routes: map<State, seq<Coord>>, added: set<State>): map<State, seq<Coord>>
    requires s in routes
  {
    map x | x in routes.Keys + added :: if x in added then routes[s] + [x.pos] else routes[x]
  }

  /** Growing the routes by clear successors of s keeps every visited
      state reached. */
  lemma GrowRoutes(v: Valley, from: Coord, startT: int, s: State, visited: set<State>, visited': set<State>,
                   routes: map<State, seq<Coord>>)
    requires Rectangular(v.rows) && startT >= 0 && Routed(v, from, startT, visited, routes) && s in visited
    requires visited <= visited'
    requires forall x :: x in visited' - visited ==> Successor(v, startT, s, x)
    ensures s in routes && Routed(v, from, startT, visited', Grow(s, routes, visited' - visited))
  {
    var grown := Grow(s, routes, visited' - visited);
    forall x | x in visited'
      ensures x in grown && Reaches(v, from, startT, grown[x], x)
    {
      if x in visited' - visited {
        Extend(v, from, startT, routes[s], s, x);
      } else {
        assert grown[x] == routes[x];
      }
    }
  }

  /** x is the state one clear move from s at the next minute. */
  predicate Successor(v: Valley, startT: int, s: State, x: State)
    requires Rectangular(v.rows) && startT >= 0
  {
    x.t == s.t + 1 && Move(s.pos, x.pos) && IsClear(v, x.pos, s.t + 1 + startT)
  }

  /** The successor loop of search: every clear cell one move from s is
      visited at the next minute, and nothing else is; what is newly
      visited is pushed. */
  method Expand(v: Valley, startT: int, s: State, visited: set<State>, queue: multiset<State>)
    returns (visited': set<State>, queue': multiset<State>)
    requires Rectangular(v.rows) && startT >= 0
    requires forall x :: x in queue ==> x in visited
    ensures visited <= visited' && queue <= queue' && forall x :: x in visited' - visited ==> x in queue'
    ensures forall x :: x in queue' ==> x in visited'
    ensures forall n :: Move(s.pos, n) && IsClear(v, n, s.t + 1 + startT) ==> State(n, s.t + 1) in visited'
    ensures forall x :: x in visited' - visited ==> Successor(v, startT, s, x)
  {
    visited', queue' := visited, queue;
    for i := 0 to |Deltas|
      invariant visited <= visited' && queue <= queue' && forall x :: x in visited' - visited ==> x in queue'
      invariant forall x :: x in queue' ==> x in visited'
      invariant forall j :: 0 <= j < i ==> Covered(v, startT, s, j, visited')
      invariant forall x :: x in visited' - visited ==> Successor(v, startT, s, x)
    {
      var next := Next(s.pos, i);
      ghost var before := visited';
      if IsClear(v, next, s.t + 1 + startT) {
        visited', queue' := Visit(State(next, s.t + 1), visited', queue');
      }
      assert Covered(v, startT, s, i, visited');
      forall j | 0 <= j < i
        ensures Covered(v, startT, s, j, visited')
      {
        CoveredGrows(v, startT, s, j, before, visited');
      }
    }
    forall n | Move(s.pos, n) && IsClear(v, n, s.t + 1 + startT)
      ensures State(n, s.t + 1) in visited'
    {
      var j :| 0 <= j < |Deltas| && Next(s.pos, j) == n;
      assert Covered(v, startT, s, j, visited');
    }
  }

  /** The i-th move from s has been visited, if its cell is clear. */
  ghost predicate Covered(v: Valley, startT: int, s: State, i: int, visited: set<State>)
    requires Rectangular(v.rows) && startT >= 0 && 0 <= i < |Deltas|
  {
    IsClear(v, Next(s.pos, i), s.t + 1 + startT) ==> State(Next(s.pos, i), s.t + 1) in visited
  }

  /** A covered move stays covered as more states are visited. */
  lemma CoveredGrows(v: Valley, startT: int, s: State, i: int, visited: set<State>, visited': set<State>)
    requires Rectangular(v.rows) && startT >= 0 && 0 <= i < |Deltas|
    requires Covered(v, startT, s, i, visited) && visited <= visited'
    ensures Covered(v, startT, s, i, visited')
  {
  }

  /** search's visit: a state seen before is dropped; a new one is marked
      visited and pushed, so no state is ever pushed twice. */
  method Visit(ns: State, visited: set<State>, queue: multiset<State>) returns (visited': set<State>, queue': multiset<State>)
    ensures visited' == visited + {ns}
    ensures queue' == if ns in visited then queue else queue + multiset{ns}
  {
    visited', queue' := visited, queue;
    if ns !in visited {
      visited' := visited + {ns};
      queue' := queue + multiset{ns};
    }
  }

  /** A trip extended by a clear move is a trip. */
  lemma Extend(v: Valley, from: Coord, startT: int, route: seq<Coord>, s: State, x: State)
    requires Rectangular(v.rows) && startT >= 0 && Reaches(v, from, startT, route, s) && Successor(v, startT, s, x)
    ensures Reaches(v, from, startT, route + [x.pos], x)
  {
    var q := route + [x.pos];
    forall k | 0 <= k < |q| - 1
      ensures Leg(v, startT, q, k)
    {
      if k < |route| - 1 {
        assert q[k] == route[k] && q[k + 1] == route[k + 1] && Leg(v, startT, route, k);
      }
    }
  }

  /** Once the queue is empty, every trip to `to` is matched by best:
      following it from its k-th minute, the state it passes through was
      either an arrival, or pruned by a best no later than the trip's
      own end, or expanded so that the trip's next state was visited. */
  lemma {:induction false} Walk(v: Valley, from: Coord, to: Coord, startT: int, best: Option<nat>,
                                visited: set<State>, p: seq<Coord>, k: nat)
    requires Rectangular(v.rows) && startT >= 0 && Trip(v, from, startT, p) && p[|p| - 1] == to
    requires k < |p| && State(p[k], k) in visited
    requires AllHandled(v, to, startT, visited, best, visited)
    ensures best.Some? && best.value <= |p| - 1
    decreases |p| - k
  {
    var s := State(p[k], k);
    assert Handled(v, to, startT, s, best, visited);
    if p[k] == to {
    } else if best.Some? && Manhattan(p[k], to) + k >= best.value {
      TripDistance(v, from, startT, p, k);
    } else {
      assert Leg(v, startT, p, k);
      Walk(v, from, to, startT, best, visited, p, k + 1);
    }
  }

  // -------------------------------------------------------------- parts

  /** part1: the earliest arrival at the goal, leaving the start at
      minute 0. */
  method Part1(v: Valley, fuel: nat) returns (r: Outcome)
    requires Rectangular(v.rows)
    ensures r.Arrived? ==> r.t >= 0 && Earliest(v, v.start, v.goal, 0, r.t)
    ensures r.Stuck? ==> forall p :: Trip(v, v.start, 0, p) ==> p[|p| - 1] != v.goal
  {
    r := Search(v, v.start, v.goal, 0, fuel);
  }

  /** part2: to the goal, back to the start and to the goal again, each
      trip leaving as soon as the one before has arrived; None where one
      of the three searches has no arrival. */
  method Part2(v: Valley, fuel: nat) returns (ans: Option<int>, ghost trip1: int, ghost trip2: int, ghost trip3: int)
    requires Rectangular(v.rows)
    ensures ans.Some? ==> trip1 >= 0 && trip2 >= 0 && trip3 >= 0 && ans.value == trip1 + trip2 + trip3
    ensures ans.Some? ==> Earliest(v, v.start, v.goal, 0, trip1) && Earliest(v, v.goal, v.start, trip1, trip2) &&
                          Earliest(v, v.start, v.goal, trip1 + trip2, trip3)
  {
    trip1, trip2, trip3 := 0, 0, 0;
    ans := None;
    var r1 := Search(v, v.start, v.goal, 0, fuel);
    if r1.Arrived? {
      trip1 := r1.t;
      var r2 := Search(v, v.goal, v.start, r1.t, fuel);
      if r2.Arrived? {
        trip2 := r2.t;
        var r3 := Search(v, v.start, v.goal, r1.t + r2.t, fuel);
        if r3.Arrived? {
          trip3 := r3.t;
          ans := Some(r1.t + r2.t + r3.t);
        }
      }
    }
  }

  /** Leaving each trip as early as possible is best, as part2's comments
      argue: when the start and the goal are openings, any three trips
      that go goal, start, goal, each leaving when the last arrives, take
      at least part2's total. */
  lemma RoundTripBound(v: Valley, trip1: int, trip2: int, trip3: int, a: seq<Coord>, b: seq<Coord>, c: seq<Coord>)
    requires Rectangular(v.rows) && Opening(v, v.start) && Opening(v, v.goal)
    requires trip1 >= 0 && trip2 >= 0
    requires Earliest(v, v.start, v.goal, 0, trip1) && Earliest(v, v.goal, v.start, trip1, trip2) &&
             Earliest(v, v.start, v.goal, trip1 + trip2, trip3)
    requires Trip(v, v.start, 0, a) && a[|a| - 1] == v.goal
    requires Trip(v, v.goal, |a| - 1, b) && b[|b| - 1] == v.start
    requires Trip(v, v.start, |a| - 1 + |b| - 1, c) && c[|c| - 1] == v.goal
    ensures trip1 + trip2 + trip3 <= (|a| - 1) + (|b| - 1) + (|c| - 1)
  {
    LaterStart(v, v.goal, v.start, trip1, trip2, |a| - 1, b);
    LaterStart(v, v.start, v.goal, trip1 + trip2, trip3, |a| - 1 + |b| - 1, c);
  }

  /** The earliest arrival from an opening is no later than that of any
      trip leaving it later. */
  lemma LaterStart(v: Valley, from: Coord, to: Coord, startT: int, n: int, later: int, p: seq<Coord>)
    requires Rectangular(v.rows) && startT >= 0 && Opening(v, from) && Earliest(v, from, to, startT, n)
    requires startT <= later && Trip(v, from, later, p) && p[|p| - 1] == to
    ensures n <= later - startT + |p| - 1
  {
    Delay(v, from, startT, later - startT, p);
    var q := seq(later - startT, _ => from) + p;
    assert q[|q| - 1] == to;
  }
}
