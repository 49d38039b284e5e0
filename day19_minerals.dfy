/** Not Enough Minerals (day 19): blueprints for ore, clay, obsidian and
    geode robots, and a depth-first branch and bound search for the most
    geodes a blueprint lets the robots open in the time allowed. */
module NotEnoughMinerals {
  import opened Common

  /** The resources, which are also the robot kinds, numbered as the enum
      numbers them. */
  const Ore := 0
  const Clay := 1
  const Obsidian := 2
  const Geode := 3
  /** nr: the number of kinds; a robot costs only the first Kinds - 1. */
  const Kinds := 4

  /** A blueprint: its number and costs[robot][resource] for the three
      resources a robot can cost. */
  datatype Blueprint = Blueprint(id: nat, costs: seq<seq<nat>>)

  predicate WellFormed(bp: Blueprint)
  {
    |bp.costs| == Kinds && forall r :: 0 <= r < Kinds ==> |bp.costs[r]| == Kinds - 1
  }

  /** The costs the puzzle's sentences never mention are zero. */
  predicate Standard(bp: Blueprint)
    requires WellFormed(bp)
  {
    bp.costs[Ore][Clay] == 0 && bp.costs[Ore][Obsidian] == 0 &&
    bp.costs[Clay][Clay] == 0 && bp.costs[Clay][Obsidian] == 0 &&
    bp.costs[Obsidian][Obsidian] == 0 && bp.costs[Geode][Clay] == 0
  }

  // ---------------------------------------------------------------- parsing

  /** A word the stream reads as a number: one or more digits. */
  function Number(w: string): Option<nat>
  {
    if |w| > 0 && AllDigits(w) then Some(DigitsValue(w)) else None
  }

  /** The "N:" word: the number, then the character read into colon. */
  function Label(w: string): Option<nat>
  {
    if |w| > 1 && !IsDigit(w[|w| - 1]) then Number(w[..|w| - 1]) else None
  }

  /** blueprint::blueprint on the words of a line: the id from the second
      word and the six costs from their places in the sentences; the other
      words are read and dropped. None where the stream fails. */
  function ParseBlueprint(w: seq<string>): (r: Option<Blueprint>)
    ensures |w| < 32 ==> r.None?
    ensures r.Some? ==> WellFormed(r.value) && Standard(r.value)
  {
    if |w| < 32 then None
    else
      var id, a, b := Label(w[1]), Number(w[6]), Number(w[12]);
      var c, d := Number(w[18]), Number(w[21]);
      var e, f := Number(w[27]), Number(w[30]);
      if id.None? || a.None? || b.None? || c.None? || d.None? || e.None? || f.None? then None
      else
        Some(Blueprint(id.value, [[a.value, 0, 0], [b.value, 0, 0], [c.value, d.value, 0], [e.value, 0, f.value]]))
  }

  /** The line of the puzzle input describing bp, as words. */
  function Describe(bp: Blueprint): (w: seq<string>)
    requires WellFormed(bp)
    ensures |w| == 32
  {
    ["Blueprint", Decimal(bp.id) + ":",
     "Each", "ore", "robot", "costs", Decimal(bp.costs[Ore][Ore]), "ore.",
     "Each", "clay", "robot", "costs", Decimal(bp.costs[Clay][Ore]), "ore.",
     "Each", "obsidian", "robot", "costs", Decimal(bp.costs[Obsidian][Ore]), "ore", "and",
     Decimal(bp.costs[Obsidian][Clay]), "clay.",
     "Each", "geode", "robot", "costs", Decimal(bp.costs[Geode][Ore]), "ore", "and",
     Decimal(bp.costs[Geode][Obsidian]), "obsidian."]
  }

  lemma LabelDecimal(n: nat)
    ensures Label(Decimal(n) + ":") == Some(n)
  {
    var w := Decimal(n) + ":";
    assert w[..|w| - 1] == Decimal(n);
  }

  /** Reading back the line that describes a blueprint gives the blueprint. */
  lemma ParseDescribe(bp: Blueprint)
    requires WellFormed(bp) && Standard(bp)
    ensures ParseBlueprint(Describe(bp)) == Some(bp)
  {
    LabelDecimal(bp.id);
    var w := Describe(bp);
    assert bp.costs == [bp.costs[0], bp.costs[1], bp.costs[2], bp.costs[3]];
    assert bp.costs[0] == [bp.costs[0][0], 0, 0];
    assert bp.costs[1] == [bp.costs[1][0], 0, 0];
    assert bp.costs[2] == [bp.costs[2][0], bp.costs[2][1], 0];
    assert bp.costs[3] == [bp.costs[3][0], 0, bp.costs[3][2]];
  }

  /** read: one blueprint per line; None when a line does not parse. */
  function ParseAll(lines: seq<seq<string>>): (r: Option<seq<Blueprint>>)
    ensures r.Some? ==> (|r.value| == |lines| &&
      forall i :: 0 <= i < |lines| ==> ParseBlueprint(lines[i]) == Some(r.value[i]))
    ensures r.None? ==> exists i :: 0 <= i < |lines| && ParseBlueprint(lines[i]).None?
  {
    if lines == [] then Some([])
    else
      var first := ParseBlueprint(lines[0]);
      var rest := ParseAll(lines[1..]);
      if first.None? then None
      else if rest.None? then
        var i :| 0 <= i < |lines[1..]| && ParseBlueprint(lines[1..][i]).None?;
        assert ParseBlueprint(lines[i + 1]).None?;
        None
      else
        var r := [first.value] + rest.value;
        assert forall i :: 1 <= i < |lines| ==> lines[i] == lines[1..][i - 1];
        Some(r)
  }

  // ------------------------------------------------------------ the search

  /** A search state: the time left, the robots and the resources. */
  datatype State = State(time: int, robots: seq<int>, resources: seq<int>)

  predicate Shaped(s: State)
  {
    |s.robots| == Kinds && |s.resources| == Kinds
  }

  /** state::state: one ore robot, no other robot and no resources. */
  function Initial(t: int): (s: State)
    ensures Shaped(s) && s.time == t
    ensures s.robots[Ore] == 1 && forall i :: Clay <= i < Kinds ==> s.robots[i] == 0
    ensures forall i :: 0 <= i < Kinds ==> s.resources[i] == 0
  {
    State(t, [1, 0, 0, 0], [0, 0, 0, 0])
  }

  /** One time step: every robot adds one of its resource. */
  function Advance(s: State): (r: State)
    requires Shaped(s)
    ensures Shaped(r) && r.time == s.time - 1 && r.robots == s.robots
    ensures forall i :: 0 <= i < Kinds ==> r.resources[i] == s.resources[i] + s.robots[i]
  {
    var p, q := s.resources, s.robots;
    State(s.time - 1, q, [p[0] + q[0], p[1] + q[1], p[2] + q[2], p[3] + q[3]])
  }

  /** The resources held before the step pay for a robot of kind robot. */
  predicate CanBuild(bp: Blueprint, s: State, robot: int)
    requires WellFormed(bp) && Shaped(s) && 0 <= robot < Kinds
  {
    forall res :: 0 <= res < Kinds - 1 ==> bp.costs[robot][res] <= s.resources[res]
  }

  /** next with a robot of kind robot built: its costs paid, one more robot. */
  function Build(bp: Blueprint, next: State, robot: int): (r: State)
    requires WellFormed(bp) && Shaped(next) && 0 <= robot < Kinds
    ensures Shaped(r) && r.time == next.time
  {
    var p, c := next.resources, bp.costs[robot];
    State(next.time, next.robots[robot := next.robots[robot] + 1], [p[0] - c[0], p[1] - c[1], p[2] - c[2], p[3]])
  }

  /** The most geodes open when the time runs out, over every way of
      building at most one affordable robot per step. */
  function MaxGeodes(bp: Blueprint, s: State): int
    requires WellFormed(bp) && Shaped(s) && s.time >= 0
    decreases s.time, 5
  {
    if s.time == 0 then s.resources[Geode] else BestFrom(bp, s, Advance(s), Geode)
  }

  /** The best of building a robot of kind robot, robot - 1, ..., ore
      (each if affordable) or just waiting, from s with next its advance. */
  function BestFrom(bp: Blueprint, s: State, next: State, robot: int): int
    requires WellFormed(bp) && Shaped(s) && s.time > 0 && next == Advance(s) && -1 <= robot < Kinds
    decreases s.time, robot + 1
  {
    if robot < 0 then MaxGeodes(bp, next)
    else if CanBuild(bp, s, robot) then Max(MaxGeodes(bp, Build(bp, next, robot)), BestFrom(bp, s, next, robot - 1))
    else BestFrom(bp, s, next, robot - 1)
  }

  /** Waiting is always among the choices. */
  lemma {:induction false} BestFromWaits(bp: Blueprint, s: State, next: State, robot: int)
    requires WellFormed(bp) && Shaped(s) && s.time > 0 && next == Advance(s) && -1 <= robot < Kinds
    ensures BestFrom(bp, s, next, robot) >= MaxGeodes(bp, next)
    decreases robot + 1
  {
    if robot >= 0 {
      BestFromWaits(bp, s, next, robot - 1);
    }
  }

  /** With no negative robot counts, the search can never end with fewer
      geodes than are already open. */
  lemma {:induction false} GeodesKept(bp: Blueprint, s: State)
    requires WellFormed(bp) && Shaped(s) && s.time >= 0
    requires forall i :: 0 <= i < Kinds ==> s.robots[i] >= 0
    ensures MaxGeodes(bp, s) >= s.resources[Geode]
    decreases s.time
  {
    if s.time > 0 {
      var next := Advance(s);
      BestFromWaits(bp, s, next, Geode);
      GeodesKept(bp, next);
    }
  }

  /** A robot is built only when the resources before the step pay for it,
      so building never leaves a resource negative. */
  lemma BuildKeepsResources(bp: Blueprint, s: State, robot: int)
    requires WellFormed(bp) && Shaped(s) && 0 <= robot < Kinds && CanBuild(bp, s, robot)
    requires forall i :: 0 <= i < Kinds ==> s.robots[i] >= 0 && s.resources[i] >= 0
    ensures var b := Build(bp, Advance(s), robot);
      (forall i :: 0 <= i < Kinds ==> b.resources[i] >= 0) &&
      b.robots[robot] == s.robots[robot] + 1 &&
      (forall i :: 0 <= i < Kinds && i != robot ==> b.robots[i] == s.robots[i])
  {
    var next := Advance(s);
    assert forall res :: 0 <= res < Kinds - 1 ==> next.resources[res] >= s.resources[res];
  }

  // ------------------------------------------------------ the upper bound

  /** n robots of kind robot could have been paid for out of the bounds rb. */
  predicate Affordable(bp: Blueprint, robot: int, n: int, rb: seq<int>)
    requires WellFormed(bp) && 0 <= robot < Kinds && |rb| == Kinds
  {
    forall res :: 0 <= res < Kinds - 1 ==> n * bp.costs[robot][res] <= rb[res]
  }

  /** How many new robots of kind robot there could be after this step. */
  function NextNew(bp: Blueprint, robot: int, nr: seq<int>, rb: seq<int>): int
    requires WellFormed(bp) && 0 <= robot < Kinds && |nr| == Kinds && |rb| == Kinds
  {
    if Affordable(bp, robot, nr[robot] + 1, rb) then nr[robot] + 1 else nr[robot]
  }

  function StepNew(bp: Blueprint, nr: seq<int>, rb: seq<int>): (r: seq<int>)
    requires WellFormed(bp) && |nr| == Kinds && |rb| == Kinds
    ensures |r| == Kinds
  {
    [NextNew(bp, 0, nr, rb), NextNew(bp, 1, nr, rb), NextNew(bp, 2, nr, rb), NextNew(bp, 3, nr, rb)]
  }

  function StepBounds(rb: seq<int>, robots: seq<int>, nr: seq<int>): (r: seq<int>)
    requires |rb| == Kinds && |robots| == Kinds && |nr| == Kinds
    ensures |r| == Kinds
  {
    [rb[0] + robots[0] + nr[0], rb[1] + robots[1] + nr[1], rb[2] + robots[2] + nr[2], rb[3] + robots[3] + nr[3]]
  }

  /** The relaxation upper_bound computes: t more steps in which every
      resource is produced without being spent, and the new robots of a
      kind grow by one whenever the bounds could pay for one more. */
  function Relax(bp: Blueprint, robots: seq<int>, rb: seq<int>, nr: seq<int>, t: int): int
    requires WellFormed(bp) && |robots| == Kinds && |rb| == Kinds && |nr| == Kinds
    decreases t
  {
    if t <= 0 then rb[Geode] else Relax(bp, robots, StepBounds(rb, robots, nr), StepNew(bp, nr, rb), t - 1)
  }

  function Zeros(): (z: seq<int>)
    ensures |z| == Kinds && forall i :: 0 <= i < Kinds ==> z[i] == 0
  {
    [0, 0, 0, 0]
  }

  /** One if i is d, else zero: the robot a child state has in addition. */
  function Extra(d: int, i: int): nat
  {
    if i == d then 1 else 0
  }

  /** What the robot of kind d costs of resource i (nothing when d is not a
      kind: the child that waits). */
  function Paid(bp: Blueprint, d: int, i: int): nat
    requires WellFormed(bp)
  {
    if 0 <= d < Kinds && 0 <= i < Kinds - 1 then bp.costs[d][i] else 0
  }

  /** The count of new robots of one kind keeps its lead over a child
      state's count by the extra robot the child has. */
  lemma NextNewDominates(bp: Blueprint, robot: int, d: int, nrc: seq<int>, nrp: seq<int>, rbc: seq<int>, rbp: seq<int>)
    requires WellFormed(bp) && 0 <= robot < Kinds
    requires |nrc| == Kinds && |nrp| == Kinds && |rbc| == Kinds && |rbp| == Kinds
    requires forall i :: 0 <= i < Kinds ==> rbc[i] + Paid(bp, d, i) <= rbp[i]
    requires nrc[robot] + Extra(d, robot) <= nrp[robot]
    ensures NextNew(bp, robot, nrc, rbc) + Extra(d, robot) <= NextNew(bp, robot, nrp, rbp)
  {
    var nc, np, e := nrc[robot], nrp[robot], Extra(d, robot);
    if Affordable(bp, robot, nc + 1, rbc) && np < nc + 1 + e {
      forall res | 0 <= res < Kinds - 1
        ensures (np + 1) * bp.costs[robot][res] <= rbp[res]
      {
        var k := bp.costs[robot][res];
        assert (nc + 1) * k <= rbc[res];
        if e == 1 {
          assert (nc + 2) * k == (nc + 1) * k + k;
          assert Paid(bp, d, res) == k;
        }
      }
    }
  }

  /** A child state's relaxation never exceeds its parent's, when the child
      has the extra robot d, has paid for it, and counts no more new
      robots than the parent beyond it. */
  lemma {:induction false} Dominates(bp: Blueprint, d: int, robotsC: seq<int>, robotsP: seq<int>,
                                     rbc: seq<int>, rbp: seq<int>, nrc: seq<int>, nrp: seq<int>, t: int)
    requires WellFormed(bp) && |robotsC| == Kinds && |robotsP| == Kinds
    requires |rbc| == Kinds && |rbp| == Kinds && |nrc| == Kinds && |nrp| == Kinds
    requires forall i :: 0 <= i < Kinds ==> robotsC[i] == robotsP[i] + Extra(d, i)
    requires forall i :: 0 <= i < Kinds ==> rbc[i] + Paid(bp, d, i) <= rbp[i]
    requires forall i :: 0 <= i < Kinds ==> nrc[i] + Extra(d, i) <= nrp[i]
    ensures Relax(bp, robotsC, rbc, nrc, t) <= Relax(bp, robotsP, rbp, nrp, t)
    decreases t
  {
    if t > 0 {
      NextNewDominates(bp, 0, d, nrc, nrp, rbc, rbp);
      NextNewDominates(bp, 1, d, nrc, nrp, rbc, rbp);
      NextNewDominates(bp, 2, d, nrc, nrp, rbc, rbp);
      NextNewDominates(bp, 3, d, nrc, nrp, rbc, rbp);
      Dominates(bp, d, robotsC, robotsP, StepBounds(rbc, robotsC, nrc), StepBounds(rbp, robotsP, nrp),
                StepNew(bp, nrc, rbc), StepNew(bp, nrp, rbp), t - 1);
    }
  }

  /** The bound of a child state, reached by building a robot of kind d
      (or waiting, for d = -1), is at most the bound of its parent. */
  lemma ChildBound(bp: Blueprint, s: State, d: int)
    requires WellFormed(bp) && Shaped(s) && s.time > 0 && -1 <= d < Kinds
    requires 0 <= d ==> CanBuild(bp, s, d)
    ensures var next := Advance(s);
      var c := if d < 0 then next else Build(bp, next, d);
      Relax(bp, c.robots, c.resources, Zeros(), c.time) <= Relax(bp, s.robots, s.resources, Zeros(), s.time)
  {
    var next := Advance(s);
    var c := if d < 0 then next else Build(bp, next, d);
    var rb1, nr1 := StepBounds(s.resources, s.robots, Zeros()), StepNew(bp, Zeros(), s.resources);
    assert Relax(bp, s.robots, s.resources, Zeros(), s.time) == Relax(bp, s.robots, rb1, nr1, s.time - 1);
    if 0 <= d {
      assert Affordable(bp, d, 1, s.resources);
    }
    Dominates(bp, d, c.robots, s.robots, c.resources, rb1, Zeros(), nr1, s.time - 1);
  }

  /** upper_bound is admissible: no way of building robots opens more
      geodes than the relaxation allows. */
  lemma {:induction false} WithinBound(bp: Blueprint, s: State)
    requires WellFormed(bp) && Shaped(s) && s.time >= 0
    ensures MaxGeodes(bp, s) <= Relax(bp, s.robots, s.resources, Zeros(), s.time)
    decreases s.time, 5
  {
    if s.time > 0 {
      ChildrenWithin(bp, s, Advance(s), Geode);
    }
  }

  lemma {:induction false} ChildrenWithin(bp: Blueprint, s: State, next: State, robot: int)
    requires WellFormed(bp) && Shaped(s) && s.time > 0 && next == Advance(s) && -1 <= robot < Kinds
    ensures BestFrom(bp, s, next, robot) <= Relax(bp, s.robots, s.resources, Zeros(), s.time)
    decreases s.time, robot + 1
  {
    if robot < 0 {
      WithinBound(bp, next);
      ChildBound(bp, s, -1);
    } else {
      if CanBuild(bp, s, robot) {
        WithinBound(bp, Build(bp, next, robot));
        ChildBound(bp, s, robot);
      }
      ChildrenWithin(bp, s, next, robot - 1);
    }
  }

  // ------------------------------------------------------------ the methods

  /** state::advance. */
  method Advanced(s: State) returns (n: State)
    requires Shaped(s)
    ensures n == Advance(s)
  {
    var resources := s.resources;
    for i := 0 to Kinds
      invariant |resources| == Kinds
      invariant forall j :: 0 <= j < i ==> resources[j] == s.resources[j] + s.robots[j]
      invariant forall j :: i <= j < Kinds ==> resources[j] == s.resources[j]
    {
      resources := resources[i := resources[i] + s.robots[i]];
    }
    n := State(s.time - 1, s.robots, resources);
  }

  /** The can_produce loop of search. */
  method CanProduce(bp: Blueprint, s: State, robot: int) returns (can: bool)
    requires WellFormed(bp) && Shaped(s) && 0 <= robot < Kinds
    ensures can == CanBuild(bp, s, robot)
  {
    can := true;
    for res := 0 to Kinds - 1
      invariant can <==> forall j :: 0 <= j < res ==> bp.costs[robot][j] <= s.resources[j]
    {
      if bp.costs[robot][res] > s.resources[res] {
        can := false;
      }
    }
  }

  /** The build_robot copy of search: pay the costs, add the robot. */
  method BuildRobot(bp: Blueprint, next: State, robot: int) returns (b: State)
    requires WellFormed(bp) && Shaped(next) && 0 <= robot < Kinds
    ensures b == Build(bp, next, robot)
  {
    var resources := next.resources;
    for res := 0 to Kinds - 1
      invariant |resources| == Kinds
      invariant forall j :: 0 <= j < res ==> resources[j] == next.resources[j] - bp.costs[robot][j]
      invariant forall j :: res <= j < Kinds ==> resources[j] == next.resources[j]
    {
      resources := resources[res := resources[res] - bp.costs[robot][res]];
    }
    b := State(next.time, next.robots[robot := next.robots[robot] + 1], resources);
  }

  /** The inner loop of upper_bound for one kind of robot. */
  method NewFor(bp: Blueprint, robot: int, nr: seq<int>, rb: seq<int>) returns (n: int)
    requires WellFormed(bp) && 0 <= robot < Kinds && |nr| == Kinds && |rb| == Kinds
    ensures n == NextNew(bp, robot, nr, rb)
  {
    var needed := bp.costs[robot];
    n := nr[robot] + 1;
    var res := 0;
    while res <= Obsidian
      invariant 0 <= res <= Kinds - 1 && n == nr[robot] + 1
      invariant forall j :: 0 <= j < res ==> n * needed[j] <= rb[j]
    {
      if n * needed[res] > rb[res] {
        n := nr[robot];
        return;
      }
      res := res + 1;
    }
  }

  /** The first inner loop of upper_bound: next_new_robots. */
  method NewRobots(bp: Blueprint, nr: seq<int>, rb: seq<int>) returns (nnr: seq<int>)
    requires WellFormed(bp) && |nr| == Kinds && |rb| == Kinds
    ensures nnr == StepNew(bp, nr, rb)
  {
    nnr := Zeros();
    for robot := 0 to Kinds
      invariant |nnr| == Kinds
      invariant forall j :: 0 <= j < robot ==> nnr[j] == NextNew(bp, j, nr, rb)
    {
      var n := NewFor(bp, robot, nr, rb);
      nnr := nnr[robot := n];
    }
  }

  /** The second inner loop of upper_bound: every robot, old or new,
      produces into the bounds. */
  method Produce(rb: seq<int>, robots: seq<int>, nr: seq<int>) returns (rb': seq<int>)
    requires |rb| == Kinds && |robots| == Kinds && |nr| == Kinds
    ensures rb' == StepBounds(rb, robots, nr)
  {
    rb' := rb;
    for robot := 0 to Kinds
      invariant |rb'| == Kinds
      invariant forall j :: 0 <= j < robot ==> rb'[j] == rb[j] + robots[j] + nr[j]
      invariant forall j :: robot <= j < Kinds ==> rb'[j] == rb[j]
    {
      rb' := rb'[robot := rb'[robot] + robots[robot] + nr[robot]];
    }
  }

  /** state::upper_bound: the relaxation over the time left, which no way
      of building robots beats. */
  method UpperBound(bp: Blueprint, s: State) returns (ub: int)
    requires WellFormed(bp) && Shaped(s) && s.time >= 0
    ensures ub == Relax(bp, s.robots, s.resources, Zeros(), s.time)
    ensures ub >= MaxGeodes(bp, s)
  {
    var rb := s.resources;
    var nr := Zeros();
    for k := 0 to s.time
      invariant |rb| == Kinds && |nr| == Kinds
      invariant Relax(bp, s.robots, rb, nr, s.time - k) == Relax(bp, s.robots, s.resources, Zeros(), s.time)
    {
      var nnr := NewRobots(bp, nr, rb);
      rb := Produce(rb, s.robots, nr);
      nr := nnr;
    }
    ub := rb[Geode];
    WithinBound(bp, s);
  }

  /** search: best becomes the larger of best and the most geodes reachable
      from s; a state whose bound cannot beat best is cut off. */
  method Search(bp: Blueprint, s: State, best: int) returns (best': int)
    requires WellFormed(bp) && Shaped(s) && s.time >= 0
    ensures best' == Max(best, MaxGeodes(bp, s))
    decreases s.time
  {
    if s.time == 0 {
      return Max(best, s.resources[Geode]);
    }
    var bound := UpperBound(bp, s);
    if bound <= best {
      return best;
    }
    var next := Advanced(s);
    best' := best;
    var robot := Geode;
    while robot >= Ore
      invariant -1 <= robot < Kinds
      invariant Max(best', BestFrom(bp, s, next, robot)) == Max(best, MaxGeodes(bp, s))
      decreases robot
    {
      var canProduce := CanProduce(bp, s, robot);
      if canProduce {
        var buildRobot := BuildRobot(bp, next, robot);
        best' := Search(bp, buildRobot, best');
      }
      robot := robot - 1;
    }
    best' := Search(bp, next, best');
  }

  /** The most geodes of a blueprint from the start, over t minutes. */
  function Geodes(bp: Blueprint, t: nat): (g: int)
    requires WellFormed(bp)
    ensures g >= 0
  {
    GeodesKept(bp, Initial(t));
    MaxGeodes(bp, Initial(t))
  }

  lemma ProductNonNegative(a: int, b: int)
    requires a >= 0 && b >= 0
    ensures a * b >= 0
  {
  }

  /** Each blueprint's quality level summed: its id times its geodes in 24
      minutes. */
  function QualitySum(bps: seq<Blueprint>): (q: int)
    requires forall i :: 0 <= i < |bps| ==> WellFormed(bps[i])
    ensures q >= 0
  {
    if bps == [] then 0
    else
      var last := bps[|bps| - 1];
      var g := Geodes(last, 24);
      ProductNonNegative(last.id, g);
      QualitySum(bps[..|bps| - 1]) + last.id * g
  }

  /** The geodes of the first k blueprints in 32 minutes, multiplied. */
  function GeodeProduct(bps: seq<Blueprint>, k: nat): (g: int)
    requires k <= |bps| && forall i :: 0 <= i < |bps| ==> WellFormed(bps[i])
    ensures g >= 0
  {
    if k == 0 then 1
    else
      var p, g := GeodeProduct(bps, k - 1), Geodes(bps[k - 1], 32);
      ProductNonNegative(p, g);
      p * g
  }

  /** A search from the start with best at 0, as both parts run it. */
  method GeodesFor(bp: Blueprint, t: nat) returns (best: int)
    requires WellFormed(bp)
    ensures best == Geodes(bp, t) && best >= 0
  {
    best := Search(bp, Initial(t), 0);
  }

  method Part1(bps: seq<Blueprint>) returns (ans: int)
    requires forall i :: 0 <= i < |bps| ==> WellFormed(bps[i])
    ensures ans == QualitySum(bps)
  {
    ans := 0;
    for i := 0 to |bps|
      invariant ans == QualitySum(bps[..i])
    {
      assert bps[..i + 1][..i] == bps[..i];
      var best := GeodesFor(bps[i], 24);
      ans := ans + bps[i].id * best;
    }
    assert bps[..|bps|] == bps;
  }

  method Part2(bps: seq<Blueprint>) returns (ans: int)
    requires |bps| >= 3 && forall i :: 0 <= i < |bps| ==> WellFormed(bps[i])
    ensures ans == GeodeProduct(bps, 3)
  {
    ans := 1;
    for i := 0 to 3
      invariant ans == GeodeProduct(bps, i)
    {
      var best := GeodesFor(bps[i], 32);
      ans := ans * best;
    }
  }
}
