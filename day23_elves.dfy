/** Unstable diffusion: elves on an unbounded grid spread out. Each round
    every elf with a neighbour proposes a step in the first of four
    directions (in an order that rotates every round) that is clear, and
    an elf moves only when no other elf proposed the same cell. Positions
    are (x, y) with y growing upwards: row k of the input is y == -k. */
module UnstableDiffusion {
  import opened Common

  datatype Coord = Coord(x: int, y: int)

  function Plus(a: Coord, b: Coord): Coord
  {
    Coord(a.x + b.x, a.y + b.y)
  }

  /** The cells that must be empty, relative to the elf, and the step it
      then proposes. */
  datatype Direction = Direction(check: seq<Coord>, delta: Coord)

  /** Staying is tried first: it needs all eight neighbours empty. */
  const Stay := Direction([Coord(-1, 1), Coord(0, 1), Coord(1, 1),
                           Coord(-1, 0), Coord(1, 0),
                           Coord(-1, -1), Coord(0, -1), Coord(1, -1)], Coord(0, 0))
  const North := Direction([Coord(0, 1), Coord(-1, 1), Coord(1, 1)], Coord(0, 1))
  const South := Direction([Coord(0, -1), Coord(-1, -1), Coord(1, -1)], Coord(0, -1))
  const West := Direction([Coord(-1, 0), Coord(-1, 1), Coord(-1, -1)], Coord(-1, 0))
  const East := Direction([Coord(1, 0), Coord(1, 1), Coord(1, -1)], Coord(1, 0))

  /** The directions that cycle, in the order of round 0. */
  const Directions := [North, South, West, East]

  /** Every cell dir checks around pos is free of elves. */
  predicate Clear(locs: set<Coord>, pos: Coord, dir: Direction)
  {
    forall j :: 0 <= j < |dir.check| ==> Plus(pos, dir.check[j]) !in locs
  }

  /** The cell the elf at pos proposes in a round whose first direction is
      firstDir: its own when it has no neighbour, else the step of the
      first clear direction in cyclic order from firstDir, else its own. */
  function Proposal(locs: set<Coord>, firstDir: nat, pos: Coord): Coord
  {
    if Clear(locs, pos, Stay) then pos else FirstClear(locs, firstDir, pos, 0)
  }

  /** The direction of absolute number d (0 north, 1 south, 2 west, 3
      east) is clear for the elf at pos. */
  predicate Open(locs: set<Coord>, pos: Coord, d: nat)
    requires d < 4
  {
    Clear(locs, pos, Directions[d])
  }

  /** The number of the i-th direction tried in a round whose first
      direction is firstDir. */
  function Turn(firstDir: nat, i: nat): (d: nat)
    ensures d < 4
  {
    (i + firstDir) % 4
  }

  /** The step of the first clear direction among the i-th to the last in
      the order from firstDir; pos when none is clear. */
  function FirstClear(locs: set<Coord>, firstDir: nat, pos: Coord, i: nat): Coord
    requires i <= 4
    decreases 4 - i
  {
    if i == 4 then pos
    else if Open(locs, pos, Turn(firstDir, i)) then Plus(pos, Directions[Turn(firstDir, i)].delta)
    else FirstClear(locs, firstDir, pos, i + 1)
  }

  /** The elves other than pos itself that stand next to it, diagonals
      included. */
  predicate Alone(locs: set<Coord>, pos: Coord)
  {
    forall c :: c in locs && c != pos ==> Abs(c.x - pos.x) > 1 || Abs(c.y - pos.y) > 1
  }

  /** Staying is clear exactly for an elf with no neighbour. */
  lemma StayIffAlone(locs: set<Coord>, pos: Coord)
    ensures Clear(locs, pos, Stay) <==> Alone(locs, pos)
  {
    if Clear(locs, pos, Stay) {
      forall c | c in locs && c != pos
        ensures Abs(c.x - pos.x) > 1 || Abs(c.y - pos.y) > 1
      {
        var d := Coord(c.x - pos.x, c.y - pos.y);
        assert Plus(pos, d) == c;
        assert Abs(d.x) <= 1 && Abs(d.y) <= 1 && d != Coord(0, 0) ==> d in Stay.check;
      }
    } else {
      var j :| 0 <= j < |Stay.check| && Plus(pos, Stay.check[j]) in locs;
      assert Plus(pos, Stay.check[j]) != pos;
    }
  }

  /** Each of the four directions steps one cell, and checks that cell
      first. */
  lemma DirectionStep(d: nat)
    requires d < 4
    ensures var dir := Directions[d];
      |dir.check| == 3 && dir.check[0] == dir.delta && Abs(dir.delta.x) + Abs(dir.delta.y) == 1
  {
  }

  /** FirstClear from i stays put exactly when none of the remaining
      directions is clear, and a step it takes is to a free cell next to
      pos. */
  lemma {:induction false} FirstClearStays(locs: set<Coord>, firstDir: nat, pos: Coord, i: nat)
    requires i <= 4
    ensures FirstClear(locs, firstDir, pos, i) == pos <==>
      forall k :: i <= k < 4 ==> !Open(locs, pos, Turn(firstDir, k))
    ensures FirstClear(locs, firstDir, pos, i) != pos ==>
      FirstClear(locs, firstDir, pos, i) !in locs &&
      Abs(FirstClear(locs, firstDir, pos, i).x - pos.x) + Abs(FirstClear(locs, firstDir, pos, i).y - pos.y) == 1
    decreases 4 - i
  {
    if i < 4 {
      FirstClearStays(locs, firstDir, pos, i + 1);
      var d := Turn(firstDir, i);
      DirectionStep(d);
      if Open(locs, pos, d) {
        assert Plus(pos, Directions[d].check[0]) !in locs;
      }
    }
  }

  /** Every direction comes up once in the cyclic order from firstDir. */
  lemma Rotation(firstDir: nat, d: nat)
    requires d < 4
    ensures var k := (d - firstDir % 4 + 4) % 4; 0 <= k < 4 && Turn(firstDir, k) == d
  {
  }

  /** An elf proposes to move exactly when it has a neighbour and some
      direction is clear; a move it proposes is one step to a free cell. */
  lemma ProposalMoves(locs: set<Coord>, firstDir: nat, pos: Coord)
    ensures Proposal(locs, firstDir, pos) != pos <==>
      !Alone(locs, pos) && exists d :: 0 <= d < 4 && Open(locs, pos, d)
    ensures var p := Proposal(locs, firstDir, pos);
      p != pos ==> p !in locs && Abs(p.x - pos.x) + Abs(p.y - pos.y) == 1
  {
    StayIffAlone(locs, pos);
    FirstClearStays(locs, firstDir, pos, 0);
    if exists d :: 0 <= d < 4 && Open(locs, pos, d) {
      var d :| 0 <= d < 4 && Open(locs, pos, d);
      Rotation(firstDir, d);
    }
  }

  /** The elves among s that propose p. */
  function Proposers(locs: set<Coord>, firstDir: nat, s: set<Coord>, p: Coord): set<Coord>
  {
    set q | q in s && Proposal(locs, firstDir, q) == p
  }

  /** Where the elf at pos ends the round: its proposal when it is the
      only elf proposing that cell, else where it stands. */
  function Dest(locs: set<Coord>, firstDir: nat, pos: Coord): Coord
  {
    var p := Proposal(locs, firstDir, pos);
    if |Proposers(locs, firstDir, locs, p)| == 1 then p else pos
  }

  /** Where the elves of s end the round. */
  function Image(locs: set<Coord>, firstDir: nat, s: set<Coord>): set<Coord>
  {
    set q | q in s :: Dest(locs, firstDir, q)
  }

  /** The elves' positions after one round. */
  function Next(locs: set<Coord>, firstDir: nat): set<Coord>
  {
    Image(locs, firstDir, locs)
  }

  /** Two elves never end a round on the same cell. */
  lemma DestInjective(locs: set<Coord>, firstDir: nat, a: Coord, b: Coord)
    requires a in locs && b in locs
    requires Dest(locs, firstDir, a) == Dest(locs, firstDir, b)
    ensures a == b
  {
    var pa, pb := Proposal(locs, firstDir, a), Proposal(locs, firstDir, b);
    var sa, sb := Proposers(locs, firstDir, locs, pa), Proposers(locs, firstDir, locs, pb);
    if a != b {
      if |sa| == 1 && |sb| == 1 {
        assert a in sa && b in sa;
        SingleMember(sa, a, b);
        assert false;
      } else if |sa| == 1 {
        ProposalMoves(locs, firstDir, a);
        assert false;
      } else if |sb| == 1 {
        ProposalMoves(locs, firstDir, b);
        assert false;
      }
    }
  }

  lemma SingleMember(s: set<Coord>, a: Coord, b: Coord)
    requires |s| == 1 && a in s && b in s
    ensures a == b
  {
    var rest := s - {a};
    assert s == rest + {a};
    assert rest == {};
  }

  /** No elf is lost or duplicated: as many end positions as elves. */
  lemma {:induction false} ImageSize(locs: set<Coord>, firstDir: nat, s: set<Coord>)
    requires s <= locs
    ensures |Image(locs, firstDir, s)| == |s|
    decreases |s|
  {
    if s != {} {
      var q :| q in s;
      var rest := s - {q};
      ImageSize(locs, firstDir, rest);
      assert Image(locs, firstDir, s) == Image(locs, firstDir, rest) + {Dest(locs, firstDir, q)};
      forall r | r in rest
        ensures Dest(locs, firstDir, r) != Dest(locs, firstDir, q)
      {
        if Dest(locs, firstDir, r) == Dest(locs, firstDir, q) {
          DestInjective(locs, firstDir, r, q);
        }
      }
    }
  }

  /** A round keeps the number of elves. */
  lemma ElfCount(locs: set<Coord>, firstDir: nat)
    ensures |Next(locs, firstDir)| == |locs|
  {
    ImageSize(locs, firstDir, locs);
  }

  /** The positions are unchanged by a round exactly when no elf moves;
      in particular when no elf proposes to move. */
  lemma StillIffNoneMoves(locs: set<Coord>, firstDir: nat)
    ensures Next(locs, firstDir) == locs <==> forall pos :: pos in locs ==> Dest(locs, firstDir, pos) == pos
    ensures (forall pos :: pos in locs ==> Proposal(locs, firstDir, pos) == pos) ==> Next(locs, firstDir) == locs
  {
    if forall pos :: pos in locs ==> Dest(locs, firstDir, pos) == pos {
      assert Next(locs, firstDir) == locs;
    } else {
      var a :| a in locs && Dest(locs, firstDir, a) != a;
      ProposalMoves(locs, firstDir, a);
      assert Dest(locs, firstDir, a) in Next(locs, firstDir);
    }
  }

  /** Where the elves are after n rounds from start, the first direction
      of round k being k. */
  function State(start: set<Coord>, n: nat): set<Coord>
  {
    Iterate(Advance, start, n)
  }

  /** One round, as a value: round number fd takes locs to Next. */
  const Advance := (locs: set<Coord>, fd: nat) => Next(locs, fd)

  /** n rounds of f from start, the k-th round being told its number k. */
  function Iterate(f: (set<Coord>, nat) -> set<Coord>, start: set<Coord>, n: nat): set<Coord>
  {
    if n == 0 then start else f(Iterate(f, start, n - 1), n - 1)
  }

  lemma {:induction false} StateCount(start: set<Coord>, n: nat)
    ensures |State(start, n)| == |start|
  {
    if n > 0 {
      StateCount(start, n - 1);
      ElfCount(State(start, n - 1), n - 1);
    }
  }

  /** Round k (from 0) of f changes nothing. */
  predicate Fixed(f: (set<Coord>, nat) -> set<Coord>, start: set<Coord>, k: nat)
  {
    Iterate(f, start, k + 1) == Iterate(f, start, k)
  }

  /** Each of the first n rounds of f changes something. */
  predicate Changing(f: (set<Coord>, nat) -> set<Coord>, start: set<Coord>, n: nat)
  {
    n == 0 || (Changing(f, start, n - 1) && !Fixed(f, start, n - 1))
  }

  lemma {:induction false} ChangingAll(f: (set<Coord>, nat) -> set<Coord>, start: set<Coord>, n: nat)
    ensures Changing(f, start, n) <==> forall k :: 0 <= k < n ==> !Fixed(f, start, k)
  {
    if n > 0 {
      ChangingAll(f, start, n - 1);
    }
  }

  /** Round k (from 0) moves nobody. */
  predicate Still(start: set<Coord>, k: nat)
  {
    Fixed(Advance, start, k)
  }

  /** An elf's cell, read off the input: row k of the input is y == -k
      and x is the column. */
  predicate IsElf(lines: seq<string>, c: Coord)
  {
    c.y <= 0 && -c.y < |lines| && 0 <= c.x < |lines[-c.y]| && lines[-c.y][c.x] == '#'
  }

  function Grid(lines: seq<string>): set<Coord>
  {
    set y, x | -|lines| < y <= 0 && 0 <= x < |lines[-y]| && lines[-y][x] == '#' :: Coord(x, y)
  }

  lemma GridIsElves(lines: seq<string>)
    ensures forall c :: c in Grid(lines) <==> IsElf(lines, c)
  {
    forall c | IsElf(lines, c)
      ensures c in Grid(lines)
    {
      assert c == Coord(c.x, c.y);
    }
  }

  /** The reading loop of the elves' constructor. */
  method Positions(lines: seq<string>) returns (locs: set<Coord>)
    ensures forall c :: c in locs <==> IsElf(lines, c)
    ensures locs == Grid(lines)
  {
    locs := {};
    var y := 0;
    for k := 0 to |lines|
      invariant y == -k
      invariant forall c :: c in locs <==> IsElf(lines, c) && -c.y < k
    {
      var line := lines[k];
      for x := 0 to |line|
        invariant forall c :: c in locs <==> IsElf(lines, c) && (-c.y < k || (c.y == y && c.x < x))
      {
        if line[x] == '#' {
          locs := locs + {Coord(x, y)};
        }
      }
      y := y - 1;
    }
    GridIsElves(lines);
  }

  /** c lies in the rectangle from lo to hi. */
  predicate Inside(c: Coord, lo: Coord, hi: Coord)
  {
    lo.x <= c.x <= hi.x && lo.y <= c.y <= hi.y
  }

  /** lo and hi are the corners of the smallest rectangle holding locs. */
  predicate Tight(locs: set<Coord>, lo: Coord, hi: Coord)
  {
    (forall c :: c in locs ==> Inside(c, lo, hi)) &&
    (exists c :: c in locs && c.x == lo.x) && (exists c :: c in locs && c.x == hi.x) &&
    (exists c :: c in locs && c.y == lo.y) && (exists c :: c in locs && c.y == hi.y)
  }

  /** The cells of the rectangle from lo to hi. */
  function Box(lo: Coord, hi: Coord): set<Coord>
  {
    set x, y | lo.x <= x <= hi.x && lo.y <= y <= hi.y :: Coord(x, y)
  }

  function Row(x0: int, x1: int, y: int): set<Coord>
  {
    set x | x0 <= x <= x1 :: Coord(x, y)
  }

  lemma {:induction false} RowSize(x0: int, x1: int, y: int)
    requires x0 <= x1 + 1
    ensures |Row(x0, x1, y)| == x1 - x0 + 1
    decreases x1 - x0
  {
    if x0 <= x1 {
      RowSize(x0, x1 - 1, y);
      assert Row(x0, x1, y) == Row(x0, x1 - 1, y) + {Coord(x1, y)};
    } else {
      assert Row(x0, x1, y) == {};
    }
  }

  /** A w by h rectangle has w * h cells. */
  lemma {:induction false} BoxSize(lo: Coord, hi: Coord)
    requires lo.x <= hi.x && lo.y <= hi.y + 1
    ensures |Box(lo, hi)| == (hi.x - lo.x + 1) * (hi.y - lo.y + 1)
    decreases hi.y - lo.y
  {
    var w := hi.x - lo.x + 1;
    if lo.y <= hi.y {
      var below := Coord(hi.x, hi.y - 1);
      BoxSize(lo, below);
      RowSize(lo.x, hi.x, hi.y);
      assert Box(lo, hi) == Box(lo, below) + Row(lo.x, hi.x, hi.y);
      assert Box(lo, below) !! Row(lo.x, hi.x, hi.y);
      assert w * (hi.y - lo.y + 1) == w * (hi.y - lo.y) + w;
    } else {
      assert Box(lo, hi) == {};
    }
  }

  /** The bounding-box area less the elf count is the number of empty
      cells in the box, so it is never negative. */
  lemma EmptyCells(locs: set<Coord>, lo: Coord, hi: Coord)
    requires Tight(locs, lo, hi)
    ensures (hi.x - lo.x + 1) * (hi.y - lo.y + 1) - |locs| == |Box(lo, hi) - locs| >= 0
  {
    var c :| c in locs && c.x == lo.x;
    assert Inside(c, lo, hi);
    BoxSize(lo, hi);
    assert locs <= Box(lo, hi) by {
      forall d | d in locs
        ensures d in Box(lo, hi)
      {
        assert Inside(d, lo, hi);
        assert d == Coord(d.x, d.y);
      }
    }
    assert Box(lo, hi) == (Box(lo, hi) - locs) + locs;
  }

  /** The min/max loop of count_empty, starting from one elf. */
  method BoundingBox(locs: set<Coord>) returns (lo: Coord, hi: Coord)
    requires locs != {}
    ensures Tight(locs, lo, hi)
  {
    var first :| first in locs;
    var minX, minY, maxX, maxY := first.x, first.y, first.x, first.y;
    var todo := locs;
    ghost var done: set<Coord> := {first};
    while todo != {}
      invariant todo + done == locs && first in done
      invariant Tight(done, Coord(minX, minY), Coord(maxX, maxY))
      decreases |todo|
    {
      var c :| c in todo;
      minX := Min(minX, c.x);
      maxX := Max(maxX, c.x);
      minY := Min(minY, c.y);
      maxY := Max(maxY, c.y);
      todo := todo - {c};
      done := done + {c};
    }
    lo, hi := Coord(minX, minY), Coord(maxX, maxY);
  }

  /** The elves of one puzzle, as doit.cc keeps them: the set of their
      positions and the first direction of the next round. */
  class Elves {
    var locs: set<Coord>
    var firstDir: nat

    constructor (lines: seq<string>)
      ensures locs == Grid(lines) && firstDir == 0
    {
      var start := Positions(lines);
      locs := start;
      firstDir := 0;
    }

    /** elves::propose: next becomes pos + dir.delta when every checked
        cell is free, and is left alone otherwise. */
    method Propose(pos: Coord, dir: Direction, next: Coord) returns (ok: bool, next': Coord)
      ensures ok <==> Clear(locs, pos, dir)
      ensures next' == if ok then Plus(pos, dir.delta) else next
    {
      var allClear := true;
      for j := 0 to |dir.check|
        invariant allClear <==> forall i :: 0 <= i < j ==> Plus(pos, dir.check[i]) !in locs
      {
        allClear := allClear && Plus(pos, dir.check[j]) !in locs;
      }
      if !allClear {
        return false, next;
      }
      return true, Plus(pos, dir.delta);
    }

    /** The proposal of the elf at pos, as round works it out. */
    method ProposeFor(pos: Coord) returns (proposal: Coord)
      ensures proposal == Proposal(locs, firstDir, pos)
    {
      proposal := pos;
      var ok;
      ok, proposal := Propose(pos, Stay, proposal);
      if !ok {
        var i := 0;
        while i < 4
          invariant 0 <= i <= 4 && proposal == pos
          invariant FirstClear(locs, firstDir, pos, i) == FirstClear(locs, firstDir, pos, 0)
        {
          ok, proposal := Propose(pos, Directions[Turn(firstDir, i)], proposal);
          if ok {
            break;
          }
          i := i + 1;
        }
      }
    }

    /** The first loop of elves::round: every elf's proposal, and how
        many elves propose each cell (an absent cell counting zero). */
    method Proposals() returns (proposals: map<Coord, Coord>, wanted: map<Coord, nat>)
      ensures proposals.Keys == locs
      ensures forall p :: p in locs ==> proposals[p] == Proposal(locs, firstDir, p)
      ensures forall p :: Wanted(wanted, p) == |Proposers(locs, firstDir, locs, p)|
    {
      proposals, wanted := map[], map[];
      var todo := locs;
      ghost var done: set<Coord> := {};
      ghost var all, fd := locs, firstDir;
      while todo != {}
        invariant todo !! done && todo + done == all
        invariant proposals == ProposalMap(all, fd, done)
        invariant forall p :: Wanted(wanted, p) == |Proposers(all, fd, done, p)|
        decreases |todo|
      {
        var pos :| pos in todo;
        proposals, wanted := Tally(pos, done, proposals, wanted);
        todo := todo - {pos};
        done := done + {pos};
      }
    }

    /** The body of the first loop of elves::round, for the elf at pos. */
    method Tally(pos: Coord, ghost done: set<Coord>, proposals: map<Coord, Coord>, wanted: map<Coord, nat>)
      returns (proposals': map<Coord, Coord>, wanted': map<Coord, nat>)
      requires pos !in done
      requires forall p :: Wanted(wanted, p) == |Proposers(locs, firstDir, done, p)|
      requires proposals == ProposalMap(locs, firstDir, done)
      ensures proposals' == ProposalMap(locs, firstDir, done + {pos})
      ensures forall p :: Wanted(wanted', p) == |Proposers(locs, firstDir, done + {pos}, p)|
    {
      var proposal := ProposeFor(pos);
      proposals' := proposals[pos := proposal];
      assert proposals' == ProposalMap(locs, firstDir, done + {pos});
      wanted' := wanted[proposal := Wanted(wanted, proposal) + 1];
      WantedGrows(locs, firstDir, done, pos, proposal, wanted, wanted');
    }

    /** The second loop of elves::round: each elf at its proposal when it
        is the only one proposing it, else where it stands. */
    method Moves(proposals: map<Coord, Coord>, wanted: map<Coord, nat>) returns (next: set<Coord>)
      requires proposals.Keys == locs
      requires forall p :: p in locs ==> proposals[p] == Proposal(locs, firstDir, p)
      requires forall p :: Wanted(wanted, p) == |Proposers(locs, firstDir, locs, p)|
      ensures next == Next(locs, firstDir)
    {
      next := {};
      var todo := proposals.Keys;
      ghost var done: set<Coord> := {};
      while todo != {}
        invariant todo !! done && todo + done == locs
        invariant next == Image(locs, firstDir, done)
        decreases |todo|
      {
        var pos :| pos in todo;
        var proposal := proposals[pos];
        next := next + {if Wanted(wanted, proposal) == 1 then proposal else pos};
        ImageAdd(locs, firstDir, done, pos);
        todo := todo - {pos};
        done := done + {pos};
      }
    }

    /** elves::round: every elf moves to its Dest, the first direction
        advances, and the answer says whether the positions changed. */
    method Round() returns (anyMoved: bool)
      modifies this
      ensures locs == Next(old(locs), old(firstDir)) && firstDir == old(firstDir) + 1
      ensures |locs| == |old(locs)|
      ensures anyMoved <==> locs != old(locs)
    {
      var proposals, wanted := Proposals();
      var next := Moves(proposals, wanted);
      ElfCount(locs, firstDir);
      assert |locs| == |next|;
      anyMoved := locs != next;
      locs := next;
      firstDir := firstDir + 1;
    }

    /** elves::count_empty: the empty cells of the smallest rectangle
        holding every elf. */
    method CountEmpty() returns (n: nat, lo: Coord, hi: Coord)
      requires locs != {}
      ensures Tight(locs, lo, hi) && n == |Box(lo, hi) - locs|
    {
      lo, hi := BoundingBox(locs);
      EmptyCells(locs, lo, hi);
      n := (hi.x - lo.x + 1) * (hi.y - lo.y + 1) - |locs|;
    }
  }

  lemma ImageAdd(locs: set<Coord>, firstDir: nat, s: set<Coord>, pos: Coord)
    ensures Image(locs, firstDir, s + {pos}) == Image(locs, firstDir, s) + {Dest(locs, firstDir, pos)}
  {
  }

  /** Every elf of s with its proposal. */
  function ProposalMap(locs: set<Coord>, firstDir: nat, s: set<Coord>): map<Coord, Coord>
  {
    map p | p in s :: Proposal(locs, firstDir, p)
  }

  /** wanted[p], where a missing entry counts as zero. */
  function Wanted(wanted: map<Coord, nat>, p: Coord): nat
  {
    if p in wanted then wanted[p] else 0
  }

  /** The tally of proposals stays right as one more elf is counted. */
  lemma WantedGrows(locs: set<Coord>, firstDir: nat, s: set<Coord>, pos: Coord, proposal: Coord,
                    wanted: map<Coord, nat>, wanted': map<Coord, nat>)
    requires pos !in s && proposal == Proposal(locs, firstDir, pos)
    requires forall p :: Wanted(wanted, p) == |Proposers(locs, firstDir, s, p)|
    requires wanted' == wanted[proposal := Wanted(wanted, proposal) + 1]
    ensures forall p :: Wanted(wanted', p) == |Proposers(locs, firstDir, s + {pos}, p)|
  {
    ProposersGrow(locs, firstDir, s, pos);
  }

  /** Taking one more elf into account adds one proposer to its own
      proposal and none to any other cell. */
  lemma ProposersGrow(locs: set<Coord>, firstDir: nat, s: set<Coord>, pos: Coord)
    requires pos !in s
    ensures forall p :: (|Proposers(locs, firstDir, s + {pos}, p)| ==
      |Proposers(locs, firstDir, s, p)| + (if Proposal(locs, firstDir, pos) == p then 1 else 0))
  {
    forall p
      ensures |Proposers(locs, firstDir, s + {pos}, p)| ==
        |Proposers(locs, firstDir, s, p)| + (if Proposal(locs, firstDir, pos) == p then 1 else 0)
    {
      if Proposal(locs, firstDir, pos) == p {
        assert Proposers(locs, firstDir, s + {pos}, p) == Proposers(locs, firstDir, s, p) + {pos};
      } else {
        assert Proposers(locs, firstDir, s + {pos}, p) == Proposers(locs, firstDir, s, p);
      }
    }
  }

  /** part1: the empty cells of the bounding rectangle after ten rounds. */
  method Part1(lines: seq<string>) returns (ans: nat, ghost lo: Coord, ghost hi: Coord)
    requires Grid(lines) != {}
    ensures Tight(State(Grid(lines), 10), lo, hi) && ans == |Box(lo, hi) - State(Grid(lines), 10)|
  {
    var lvs := new Elves(lines);
    ghost var start := lvs.locs;
    for k := 0 to 10
      invariant lvs.locs == State(start, lvs.firstDir) && lvs.firstDir == k
    {
      var _ := RoundFrom(lvs, start);
    }
    StateCount(start, 10);
    ans, lo, hi := lvs.CountEmpty();
  }

  /** part2: the number of the first round in which no elf moves (the
      rounds before it all move someone); None when that is not among the
      first fuel rounds, where the source keeps going. */
  method Part2(lines: seq<string>, fuel: nat) returns (ans: Option<nat>, ghost rounds: nat)
    ensures ans.Some? ==> (ans.value == rounds + 1 <= fuel && Still(Grid(lines), rounds) &&
      forall k :: 0 <= k < rounds ==> !Still(Grid(lines), k))
    ensures ans.None? ==> forall k :: 0 <= k < fuel ==> !Still(Grid(lines), k)
  {
    var lvs := new Elves(lines);
    ghost var start := lvs.locs;
    var steps := 1;
    while steps <= fuel
      invariant 1 <= steps <= fuel + 1 && lvs.firstDir + 1 == steps
      invariant lvs.locs == State(start, lvs.firstDir) && Changing(Advance, start, lvs.firstDir)
    {
      rounds := lvs.firstDir;
      var moved := RoundFrom(lvs, start);
      if !moved {
        ChangingAll(Advance, start, rounds);
        return Some(steps), rounds;
      }
      steps := steps + 1;
    }
    rounds := lvs.firstDir;
    ChangingAll(Advance, start, rounds);
    return None, rounds;
  }

  /** A round of elves that have done every round so far from start. */
  method RoundFrom(lvs: Elves, ghost start: set<Coord>) returns (moved: bool)
    requires lvs.locs == State(start, lvs.firstDir)
    modifies lvs
    ensures lvs.firstDir == old(lvs.firstDir) + 1 && lvs.locs == State(start, lvs.firstDir)
    ensures moved <==> !Still(start, old(lvs.firstDir))
    ensures Changing(Advance, start, lvs.firstDir) <==> Changing(Advance, start, old(lvs.firstDir)) && moved
  {
    ghost var fd, before := lvs.firstDir, lvs.locs;
    moved := lvs.Round();
    StateStep(start, fd, before, lvs.locs);
  }

  /** One round more: the state after round n. */
  lemma StateStep(start: set<Coord>, n: nat, before: set<Coord>, after: set<Coord>)
    requires before == State(start, n) && after == Next(before, n)
    ensures after == State(start, n + 1)
    ensures Still(start, n) <==> after == before
  {
  }
}
