/** Rope Bridge: a rope of knots on the integer grid. The head moves one
    step at a time and every other knot follows the one before it. */
module Rope {
  import opened Common

  /** knot_pos: a pair of coordinates, x to the right and y upwards. */
  datatype Pos = Pos(x: int, y: int)

  const Origin := Pos(0, 0)

  /** Two knots touch when they are within one step on both axes
      (overlapping or diagonally adjacent included). */
  predicate Touching(p: Pos, q: Pos)
  {
    Abs(p.x - q.x) <= 1 && Abs(p.y - q.y) <= 1
  }

  predicate IsDir(dir: char)
  {
    dir == 'L' || dir == 'R' || dir == 'U' || dir == 'D'
  }

  /** The four directions step's switch knows. */
  datatype Dir = L | R | U | D

  /** The switch's cases: None for any other letter, where the assert of
      the default case fails. */
  function ToDir(c: char): (d: Option<Dir>)
    ensures d.Some? <==> IsDir(c)
    ensures d == Some(L) <==> c == 'L'
    ensures d == Some(R) <==> c == 'R'
    ensures d == Some(U) <==> c == 'U'
    ensures d == Some(D) <==> c == 'D'
  {
    match c
    case 'L' => Some(L)
    case 'R' => Some(R)
    case 'U' => Some(U)
    case 'D' => Some(D)
    case _ => None
  }

  /** knot_pos::step: one unit along the axis the direction names. */
  function Step(p: Pos, d: Dir): (q: Pos)
    ensures Abs(q.x - p.x) + Abs(q.y - p.y) == 1
    ensures q.y == p.y <==> d == L || d == R
    ensures (q.x > p.x <==> d == R) && (q.y > p.y <==> d == U)
  {
    match d
    case L => Pos(p.x - 1, p.y)
    case R => Pos(p.x + 1, p.y)
    case U => Pos(p.x, p.y + 1)
    case D => Pos(p.x, p.y - 1)
  }

  /** knot_pos::follow: a knot touching its leader stays; otherwise it
      moves one step towards the leader on each axis where they differ.
      None when the closing assert (that it now touches) fails. */
  function Follow(p: Pos, leader: Pos): Option<Pos>
  {
    var dx, dy := leader.x - p.x, leader.y - p.y;
    if Abs(dx) <= 1 && Abs(dy) <= 1 then Some(p)
    else
      var q := Pos(p.x + Sign(dx), p.y + Sign(dy));
      if Touching(q, leader) then Some(q) else None
  }

  /** A touching knot stays put; the assert holds exactly when the leader
      is within two steps on both axes, and then the knot ends touching
      both its leader and where it was, no farther from the leader. */
  lemma FollowSpec(p: Pos, leader: Pos)
    ensures Touching(p, leader) ==> Follow(p, leader) == Some(p)
    ensures Follow(p, leader).Some? <==> Abs(leader.x - p.x) <= 2 && Abs(leader.y - p.y) <= 2
    ensures Follow(p, leader).Some? ==>
      var q := Follow(p, leader).value;
      Touching(q, leader) && Touching(q, p) &&
      Abs(leader.x - q.x) <= Abs(leader.x - p.x) && Abs(leader.y - q.y) <= Abs(leader.y - p.y)
  {
  }

  /** Every knot touches the one before it, the first touching leader. */
  predicate Chain(leader: Pos, knots: seq<Pos>)
    decreases |knots|
  {
    knots == [] || (Touching(knots[0], leader) && Chain(knots[0], knots[1..]))
  }

  /** The loop over rest: each knot follows the one before it, which has
      already moved. None when a follow fails its assert. */
  function Drag(leader: Pos, knots: seq<Pos>): (r: Option<seq<Pos>>)
    ensures r.Some? ==> |r.value| == |knots|
    decreases |knots|
  {
    if knots == [] then Some([])
    else match Follow(knots[0], leader)
      case None => None
      case Some(f) =>
        match Drag(f, knots[1..])
        case None => None
        case Some(rest) => Some([f] + rest)
  }

  /** Whenever the drag succeeds, every knot touches the one before it. */
  lemma {:induction false} DragChain(leader: Pos, knots: seq<Pos>)
    requires Drag(leader, knots).Some?
    ensures Chain(leader, Drag(leader, knots).value)
    decreases |knots|
  {
    if knots != [] {
      var f := Follow(knots[0], leader).value;
      FollowSpec(knots[0], leader);
      DragChain(f, knots[1..]);
      assert Drag(leader, knots).value[1..] == Drag(f, knots[1..]).value;
    }
  }

  /** A rope whose knots touch stays whole when its leader moves at most
      one step on each axis: no follow fails, and every knot moves at most
      one step on each axis. */
  lemma {:induction false} DragHolds(was: Pos, leader: Pos, knots: seq<Pos>)
    requires Chain(was, knots) && Touching(leader, was)
    ensures Drag(leader, knots).Some?
    ensures forall k :: 0 <= k < |knots| ==> Touching(Drag(leader, knots).value[k], knots[k])
    decreases |knots|
  {
    if knots != [] {
      FollowSpec(knots[0], leader);
      var f := Follow(knots[0], leader).value;
      DragHolds(knots[0], f, knots[1..]);
      var r := Drag(leader, knots).value;
      forall k | 0 <= k < |knots|
        ensures Touching(r[k], knots[k])
      {
        if k > 0 {
          assert r[k] == Drag(f, knots[1..]).value[k - 1];
        }
      }
    }
  }

  /** The rope: the head, the other knots (the tail last) and the set of
      positions the tail has visited. */
  datatype Rope = Rope(head: Pos, knots: seq<Pos>, visited: set<Pos>)

  function Init(numKnots: int): (r: Rope)
    requires numKnots >= 2
    ensures |r.knots| == numKnots - 1
  {
    Rope(Origin, seq(numKnots - 1, _ => Origin), {Origin})
  }

  function Tail(r: Rope): Pos
    requires r.knots != []
  {
    r.knots[|r.knots| - 1]
  }

  /** One step of the head, the knots dragged after it and the tail's
      new position recorded. */
  function Move(r: Rope, d: Dir): (r': Option<Rope>)
    requires r.knots != []
    ensures r'.Some? ==> |r'.value.knots| == |r.knots|
  {
    var h := Step(r.head, d);
    match Drag(h, r.knots)
    case None => None
    case Some(ks) => Some(Rope(h, ks, r.visited + {ks[|ks| - 1]}))
  }

  /** f applied n times, stopping at the first None; no step at all when
      n is not positive. */
  function Iterate(f: Rope -> Option<Rope>, r: Rope, n: int): Option<Rope>
    decreases n
  {
    if n <= 0 then Some(r)
    else match Iterate(f, r, n - 1)
      case None => None
      case Some(s) => f(s)
  }

  /** One step in a fixed direction, as a function of the rope. */
  function Mover(d: Dir): Rope -> Option<Rope>
  {
    (r: Rope) => if r.knots == [] then None else Move(r, d)
  }

  /** The n steps of one motion. */
  function Repeat(r: Rope, d: Dir, n: int): Option<Rope>
  {
    Iterate(Mover(d), r, n)
  }

  /** One line of input: a direction and a number of steps. */
  datatype Motion = Motion(dir: char, steps: int)

  /** The motions one after the other, stopping at the first failed
      assert. A motion of no steps does not look at its direction. */
  function Run(r: Rope, motions: seq<Motion>): Option<Rope>
    decreases |motions|
  {
    if motions == [] then Some(r)
    else match Run(r, motions[..|motions| - 1])
      case None => None
      case Some(s) => Perform(s, motions[|motions| - 1])
  }

  /** One motion: the direction is only looked at by a first step. */
  function Perform(r: Rope, m: Motion): Option<Rope>
  {
    if m.steps <= 0 then Some(r)
    else match ToDir(m.dir)
      case None => None
      case Some(d) => Repeat(r, d, m.steps)
  }

  /** The rope is whole, and the tail's positions include the origin and
      where the tail is now. */
  predicate Valid(r: Rope)
  {
    r.knots != [] && Chain(r.head, r.knots) && Origin in r.visited && Tail(r) in r.visited
  }

  lemma InitValid(numKnots: int)
    requires numKnots >= 2
    ensures Valid(Init(numKnots)) && Init(numKnots).visited == {Origin}
  {
    var r := Init(numKnots);
    AllAtOrigin(numKnots - 1);
    assert Tail(r) == Origin;
  }

  /** Knots all at the leader's position touch. */
  lemma {:induction false} AllAtOrigin(n: nat)
    ensures Chain(Origin, seq(n, _ => Origin))
  {
    if n > 0 {
      AllAtOrigin(n - 1);
      assert seq(n, _ => Origin)[1..] == seq(n - 1, _ => Origin);
    }
  }

  /** From a whole rope a step never fails its asserts, and the rope
      stays whole. */
  lemma MoveValid(r: Rope, d: Dir)
    requires Valid(r)
    ensures Move(r, d).Some? && Valid(Move(r, d).value)
  {
    var h := Step(r.head, d);
    DragHolds(r.head, h, r.knots);
    DragChain(h, r.knots);
  }

  /** From a whole rope a motion never fails, and leaves the rope whole. */
  lemma {:induction false} RepeatValid(r: Rope, d: Dir, n: int)
    requires Valid(r)
    ensures Repeat(r, d, n).Some? && Valid(Repeat(r, d, n).value)
    decreases n
  {
    if n > 0 {
      RepeatValid(r, d, n - 1);
      var s := Repeat(r, d, n - 1).value;
      RepeatNext(r, d, n - 1, s);
      MoveValid(s, d);
    }
  }

  /** A step records where the tail now is and forgets nothing. */
  lemma MoveGrows(r: Rope, d: Dir)
    requires r.knots != [] && Move(r, d).Some?
    ensures Move(r, d).value.visited == r.visited + {Tail(Move(r, d).value)}
  {
  }

  /** Over a motion the tail's positions only grow, by at most one per
      step. */
  lemma {:induction false} RepeatGrows(r: Rope, d: Dir, n: int)
    requires r.knots != [] && Repeat(r, d, n).Some?
    ensures r.visited <= Repeat(r, d, n).value.visited
    ensures |Repeat(r, d, n).value.visited| <= |r.visited| + Max(n, 0)
    decreases n
  {
    if n > 0 {
      var s := Repeat(r, d, n - 1).value;
      RepeatGrows(r, d, n - 1);
      RepeatNext(r, d, n - 1, s);
      MoveGrows(s, d);
      var s' := Move(s, d).value;
      assert |s.visited + {Tail(s')}| <= |s.visited| + 1;
    }
  }

  /** Some motion of at least one step names an unknown direction. */
  predicate BadMotion(motions: seq<Motion>)
  {
    exists i :: 0 <= i < |motions| && motions[i].steps > 0 && !IsDir(motions[i].dir)
  }

  function TotalSteps(motions: seq<Motion>): nat
  {
    if motions == [] then 0
    else TotalSteps(motions[..|motions| - 1]) + Max(motions[|motions| - 1].steps, 0)
  }

  /** From a whole rope the simulation fails exactly when a motion names
      an unknown direction: the follow assert never fires. The tail's
      positions only grow, by at most one per step. */
  lemma {:induction false} RunValid(r: Rope, motions: seq<Motion>)
    requires Valid(r)
    ensures Run(r, motions).None? <==> BadMotion(motions)
    ensures Run(r, motions).Some? ==>
      var r' := Run(r, motions).value;
      Valid(r') && r.visited <= r'.visited && |r'.visited| <= |r.visited| + TotalSteps(motions)
    decreases |motions|
  {
    if motions != [] {
      var init := motions[..|motions| - 1];
      var last := motions[|motions| - 1];
      RunValid(r, init);
      assert TotalSteps(motions) == TotalSteps(init) + Max(last.steps, 0);
      if Run(r, init).Some? && last.steps > 0 && IsDir(last.dir) {
        var s := Run(r, init).value;
        var d := ToDir(last.dir).value;
        assert Run(r, motions) == Repeat(s, d, last.steps);
        RepeatValid(s, d, last.steps);
        RepeatGrows(s, d, last.steps);
      }
      assert forall i :: 0 <= i < |init| ==> init[i] == motions[i];
    }
  }

  /** What rope_sim prints: the number of positions the tail visited,
      None when an assert fails. */
  function Answer(numKnots: int, motions: seq<Motion>): Option<nat>
    requires numKnots >= 2
  {
    match Run(Init(numKnots), motions)
    case None => None
    case Some(r) => Some(|r.visited|)
  }

  /** The answer counts at least the origin and at most one position per
      step more, and fails exactly on an unknown direction. */
  lemma AnswerBounds(numKnots: int, motions: seq<Motion>)
    requires numKnots >= 2
    ensures Answer(numKnots, motions).None? <==> BadMotion(motions)
    ensures Answer(numKnots, motions).Some? ==> 1 <= Answer(numKnots, motions).value <= 1 + TotalSteps(motions)
  {
    InitValid(numKnots);
    RunValid(Init(numKnots), motions);
    if Run(Init(numKnots), motions).Some? {
      var r := Run(Init(numKnots), motions).value;
      assert Origin in r.visited;
      assert {Origin} <= r.visited;
    }
  }

  /** One more step of a motion is one more move. */
  lemma RepeatNext(r: Rope, d: Dir, s: nat, cur: Rope)
    requires r.knots != [] && Repeat(r, d, s) == Some(cur)
    ensures cur.knots != [] && Repeat(r, d, s + 1) == Move(cur, d)
  {
  }

  /** A motion of no steps or fewer leaves the rope as it is. */
  lemma RepeatClamp(r: Rope, d: Dir, n: int)
    requires r.knots != []
    ensures Repeat(r, d, n) == Repeat(r, d, Max(n, 0))
  {
  }

  lemma {:induction false} RepeatStopped(r: Rope, d: Dir, s: nat, n: int)
    requires r.knots != [] && s <= n && Repeat(r, d, s).None?
    ensures Repeat(r, d, n).None?
    decreases n - s
  {
    if s < n {
      RepeatStopped(r, d, s, n - 1);
      assert Repeat(r, d, n - 1).None?;
    } else {
      assert s == n;
    }
  }

  lemma {:induction false} RunStopped(r: Rope, motions: seq<Motion>, m: nat)
    requires r.knots != [] && m <= |motions| && Run(r, motions[..m]).None?
    ensures Run(r, motions).None?
    decreases |motions|
  {
    if m < |motions| {
      assert motions[..|motions| - 1][..m] == motions[..m];
      RunStopped(r, motions[..|motions| - 1], m);
    } else {
      assert motions[..m] == motions;
    }
  }

  /** Wraps the result of dragging the first k knots around the rest. */
  function Prepend(done: seq<Pos>, rest: Option<seq<Pos>>): Option<seq<Pos>>
  {
    match rest
    case None => None
    case Some(ks) => Some(done + ks)
  }

  /** One more knot of the drag loop. */
  lemma PrependStep(done: seq<Pos>, leader: Pos, knots: seq<Pos>)
    requires knots != []
    ensures Follow(knots[0], leader).None? ==> Prepend(done, Drag(leader, knots)).None?
    ensures Follow(knots[0], leader).Some? ==>
      var f := Follow(knots[0], leader).value;
      Prepend(done, Drag(leader, knots)) == Prepend(done + [f], Drag(f, knots[1..]))
  {
    if Follow(knots[0], leader).Some? {
      var f := Follow(knots[0], leader).value;
      if Drag(f, knots[1..]).Some? {
        assert done + ([f] + Drag(f, knots[1..]).value) == done + [f] + Drag(f, knots[1..]).value;
      }
    }
  }

  /** The drag loop: each knot of rest follows its leader in place; false
      when a follow's assert fails. */
  method DragKnots(head: Pos, rest: array<Pos>) returns (ok: bool)
    modifies rest
    ensures ok <==> Drag(head, old(rest[..])).Some?
    ensures ok ==> rest[..] == Drag(head, old(rest[..])).value
  {
    ghost var orig := rest[..];
    var leader := head;
    assert orig[0..] == orig && rest[..0] == [];
    assert Drag(head, orig).Some? ==> [] + Drag(head, orig).value == Drag(head, orig).value;
    for k := 0 to rest.Length
      invariant rest[k..] == orig[k..]
      invariant Drag(head, orig) == Prepend(rest[..k], Drag(leader, orig[k..]))
    {
      assert orig[k..][1..] == orig[k + 1..];
      PrependStep(rest[..k], leader, orig[k..]);
      var f := Follow(rest[k], leader);
      if f.None? {
        return false;
      }
      rest[k] := f.value;
      leader := f.value;
      assert rest[..k + 1] == rest[..k] + [f.value];
    }
    assert rest[..] == rest[..rest.Length] && orig[rest.Length..] == [];
    return true;
  }

  /** One step of a motion: the head steps, the knots follow and the
      tail's position is recorded; false when an assert fails. */
  method StepRope(head: Pos, rest: array<Pos>, tailPositions: set<Pos>, d: Dir)
    returns (ok: bool, head': Pos, tailPositions': set<Pos>)
    requires rest.Length > 0
    modifies rest
    ensures ok <==> Move(Rope(head, old(rest[..]), tailPositions), d).Some?
    ensures ok ==> Move(Rope(head, old(rest[..]), tailPositions), d) == Some(Rope(head', rest[..], tailPositions'))
  {
    head', tailPositions' := Step(head, d), tailPositions;
    ok := DragKnots(head', rest);
    if ok {
      tailPositions' := tailPositions' + {rest[rest.Length - 1]};
    }
  }

  /** The steps of one motion, n times; false when an assert fails. */
  method MoveRope(head: Pos, rest: array<Pos>, tailPositions: set<Pos>, d: Dir, n: int)
    returns (ok: bool, head': Pos, tailPositions': set<Pos>)
    requires rest.Length > 0
    modifies rest
    ensures ok <==> Repeat(Rope(head, old(rest[..]), tailPositions), d, n).Some?
    ensures ok ==> Repeat(Rope(head, old(rest[..]), tailPositions), d, n) == Some(Rope(head', rest[..], tailPositions'))
  {
    ghost var start := Rope(head, rest[..], tailPositions);
    head', tailPositions' := head, tailPositions;
    var steps := Max(n, 0);
    RepeatClamp(start, d, n);
    for s := 0 to steps
      invariant Repeat(start, d, s) == Some(Rope(head', rest[..], tailPositions'))
    {
      RepeatNext(start, d, s, Rope(head', rest[..], tailPositions'));
      var stepped;
      stepped, head', tailPositions' := StepRope(head', rest, tailPositions', d);
      if !stepped {
        RepeatStopped(start, d, s + 1, steps);
        return false, head', tailPositions';
      }
    }
    ok := true;
  }

  /** The body of the input loop: one motion; false when an assert
      fails. */
  method PerformMotion(head: Pos, rest: array<Pos>, tailPositions: set<Pos>, m: Motion)
    returns (ok: bool, head': Pos, tailPositions': set<Pos>)
    requires rest.Length > 0
    modifies rest
    ensures ok <==> Perform(Rope(head, old(rest[..]), tailPositions), m).Some?
    ensures ok ==> Perform(Rope(head, old(rest[..]), tailPositions), m) == Some(Rope(head', rest[..], tailPositions'))
  {
    head', tailPositions' := head, tailPositions;
    if m.steps <= 0 {
      return true, head', tailPositions';
    }
    var d := ToDir(m.dir);
    if d.None? {
      return false, head', tailPositions';
    }
    ok, head', tailPositions' := MoveRope(head, rest, tailPositions, d.value, m.steps);
  }

  /** rope_sim: every motion moves the rope; the answer is the number of
      positions the tail visited. */
  method RopeSim(numKnots: int, motions: seq<Motion>) returns (count: Option<nat>)
    requires numKnots >= 2
    ensures count == Answer(numKnots, motions)
  {
    var head := Origin;
    var rest := new Pos[numKnots - 1](_ => Origin);
    var tailPositions := {rest[rest.Length - 1]};
    ghost var init := Init(numKnots);
    assert rest[..] == init.knots;
    for m := 0 to |motions|
      invariant rest.Length == numKnots - 1
      invariant Run(init, motions[..m]) == Some(Rope(head, rest[..], tailPositions))
    {
      assert motions[..m + 1][..m] == motions[..m];
      var ok;
      ok, head, tailPositions := PerformMotion(head, rest, tailPositions, motions[m]);
      if !ok {
        RunStopped(init, motions, m + 1);
        return None;
      }
    }
    assert motions[..|motions|] == motions;
    count := Some(|tailPositions|);
  }
}
