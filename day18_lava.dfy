/** Boiling boulders: the surface area of a droplet of lava made of unit
    cubes. Part 1 counts every face not shared by two cubes; part 2 counts
    only the faces reached from outside, by flood filling the air in a box
    padded by one cube around the droplet. */
module BoilingBoulders {
  import opened Common

  /** A unit cube by its integer coordinates (the source reads them as
      doubles, always whole). */
  datatype Cube = Cube(x: int, y: int, z: int)

  /** The six face neighbours, in add_cube's order: for delta -1 and then
      +1, along x, y and z. */
  function Neighbours(c: Cube): (ns: seq<Cube>)
    ensures |ns| == 6
  {
    [Cube(c.x - 1, c.y, c.z), Cube(c.x, c.y - 1, c.z), Cube(c.x, c.y, c.z - 1),
     Cube(c.x + 1, c.y, c.z), Cube(c.x, c.y + 1, c.z), Cube(c.x, c.y, c.z + 1)]
  }

  /** Two cubes share a face: they differ by one along exactly one axis. */
  predicate Adjacent(a: Cube, b: Cube)
  {
    Abs(a.x - b.x) + Abs(a.y - b.y) + Abs(a.z - b.z) == 1
  }

  /** The neighbour list holds exactly the cubes sharing a face. */
  lemma NeighboursAdjacent(c: Cube, d: Cube)
    ensures d in Neighbours(c) <==> Adjacent(c, d)
  {
    if Adjacent(c, d) {
      if d.x != c.x {
        assert d == Neighbours(c)[if d.x < c.x then 0 else 3];
      } else if d.y != c.y {
        assert d == Neighbours(c)[if d.y < c.y then 1 else 4];
      } else {
        assert d == Neighbours(c)[if d.z < c.z then 2 else 5];
      }
    }
  }

  /** One for a cube not in the set. */
  function Flag(c: Cube, cubes: set<Cube>): nat
  {
    if c in cubes then 0 else 1
  }

  /** How many of ns are not in cubes. */
  function Missing(ns: seq<Cube>, cubes: set<Cube>): (n: nat)
    ensures n <= |ns|
  {
    if ns == [] then 0
    else Missing(ns[..|ns| - 1], cubes) + Flag(ns[|ns| - 1], cubes)
  }

  /** Counting one more of ns. */
  lemma MissingStep(ns: seq<Cube>, j: nat, cubes: set<Cube>)
    requires j < |ns|
    ensures Missing(ns[..j + 1], cubes) == Missing(ns[..j], cubes) + Flag(ns[j], cubes)
  {
    assert ns[..j + 1][..j] == ns[..j];
  }

  /** The count over six neighbours, spelled out. */
  lemma MissingSix(ns: seq<Cube>, cubes: set<Cube>)
    requires |ns| == 6
    ensures Missing(ns, cubes) == Flag(ns[0], cubes) + Flag(ns[1], cubes) + Flag(ns[2], cubes) +
                                  Flag(ns[3], cubes) + Flag(ns[4], cubes) + Flag(ns[5], cubes)
  {
    assert ns[..0] == [];
    MissingStep(ns, 0, cubes);
    MissingStep(ns, 1, cubes);
    MissingStep(ns, 2, cubes);
    MissingStep(ns, 3, cubes);
    MissingStep(ns, 4, cubes);
    MissingStep(ns, 5, cubes);
    assert ns[..6] == ns;
  }

  /** add_cube's count for one cube: its faces whose neighbour is not a
      cube of the set. */
  function Open(c: Cube, cubes: set<Cube>): (n: nat)
    ensures n <= 6
  {
    Missing(Neighbours(c), cubes)
  }

  /** A cube that touches no other cube of the set has all six faces
      open. */
  lemma {:induction false} LoneOpen(c: Cube, cubes: set<Cube>)
    requires forall d :: d in cubes ==> !Adjacent(c, d)
    ensures Open(c, cubes) == 6
  {
    var ns := Neighbours(c);
    forall k | 0 <= k < 6
      ensures ns[k] !in cubes
    {
      assert Adjacent(c, ns[k]);
    }
    MissingSix(ns, cubes);
  }

  // ------------------------------------------------------- summing faces

  /** The sum of f over a finite set of cubes. */
  ghost function SumOver(todo: set<Cube>, f: Cube -> nat): nat
    decreases todo
  {
    if todo == {} then 0
    else
      var c :| c in todo;
      f(c) + SumOver(todo - {c}, f)
  }

  /** The sum does not depend on which cube is taken first. */
  lemma {:induction false} SumPick(todo: set<Cube>, f: Cube -> nat, c: Cube)
    requires c in todo
    ensures SumOver(todo, f) == f(c) + SumOver(todo - {c}, f)
    decreases todo
  {
    var d :| d in todo && SumOver(todo, f) == f(d) + SumOver(todo - {d}, f);
    if d != c {
      SumPick(todo - {d}, f, c);
      SumPick(todo - {c}, f, d);
      assert todo - {d} - {c} == todo - {c} - {d};
    }
  }

  /** Sums add up pointwise. */
  lemma {:induction false} SumAdd(todo: set<Cube>, f: Cube -> nat, g: Cube -> nat, h: Cube -> nat)
    requires forall c :: c in todo ==> f(c) == g(c) + h(c)
    ensures SumOver(todo, f) == SumOver(todo, g) + SumOver(todo, h)
    decreases todo
  {
    if todo != {} {
      var c :| c in todo && SumOver(todo, f) == f(c) + SumOver(todo - {c}, f);
      SumPick(todo, g, c);
      SumPick(todo, h, c);
      SumAdd(todo - {c}, f, g, h);
    }
  }

  /** A sum of terms each at most k is at most k times the count. */
  lemma {:induction false} SumBound(todo: set<Cube>, f: Cube -> nat, k: nat)
    requires forall c :: c in todo ==> f(c) <= k
    ensures SumOver(todo, f) <= k * |todo|
    decreases todo
  {
    if todo != {} {
      var c :| c in todo && SumOver(todo, f) == f(c) + SumOver(todo - {c}, f);
      var rest := todo - {c};
      SumBound(rest, f, k);
      assert |todo| == |rest| + 1;
      MulSucc(k, |rest|);
    }
  }

  /** k times one more is k more. */
  lemma MulSucc(k: nat, m: nat)
    ensures k * (m + 1) == k * m + k
  {
  }

  /** count_faces, specified: the open faces of every cube of the set. */
  ghost function Faces(cubes: set<Cube>): nat
  {
    SumOver(cubes, c => Open(c, cubes))
  }

  /** Each cube adds at most six faces. */
  lemma FacesBound(cubes: set<Cube>)
    ensures Faces(cubes) <= 6 * |cubes|
  {
    SumBound(cubes, c => Open(c, cubes), 6);
  }

  /** A lone cube has six faces. */
  lemma LoneCube(c: Cube)
    ensures Faces({c}) == 6
  {
    forall d | d in {c}
      ensures !Adjacent(c, d)
    {
    }
    LoneOpen(c, {c});
    SumPick({c}, d => Open(d, {c}), c);
  }

  /** Two cubes side by side hide one face each: ten faces. */
  lemma TwoCubes(c: Cube)
    ensures Faces({c, Cube(c.x + 1, c.y, c.z)}) == 10
  {
    var d := Cube(c.x + 1, c.y, c.z);
    var s := {c, d};
    var f := e => Open(e, s);
    MissingSix(Neighbours(c), s);
    MissingSix(Neighbours(d), s);
    assert Open(c, s) == 5 && Open(d, s) == 5;
    SumPick(s, f, c);
    assert s - {c} == {d};
    SumPick({d}, f, d);
  }

  /** count_faces: add_cube for every cube, add_face for each of its six
      neighbours. */
  method CountFaces(cubes: set<Cube>) returns (num: nat)
    ensures num == Faces(cubes)
  {
    num := 0;
    var rest := cubes;
    while rest != {}
      invariant rest <= cubes
      invariant num + SumOver(rest, c => Open(c, cubes)) == Faces(cubes)
      decreases rest
    {
      var c :| c in rest;
      SumPick(rest, e => Open(e, cubes), c);
      var open := CountOpen(c, cubes);
      num := num + open;
      rest := rest - {c};
    }
  }

  /** The inner loops of count_faces for one cube: one add_face per
      direction, -1 then +1 along each axis. */
  method CountOpen(c: Cube, cubes: set<Cube>) returns (num: nat)
    ensures num == Open(c, cubes)
  {
    num := 0;
    ghost var ns := Neighbours(c);
    for k := 0 to 2
      invariant num == Missing(ns[..3 * k], cubes)
    {
      var delta := if k == 0 then -1 else 1;
      MissingStep(ns, 3 * k, cubes);
      MissingStep(ns, 3 * k + 1, cubes);
      MissingStep(ns, 3 * k + 2, cubes);
      if Cube(c.x + delta, c.y, c.z) !in cubes {
        num := num + 1;
      }
      if Cube(c.x, c.y + delta, c.z) !in cubes {
        num := num + 1;
      }
      if Cube(c.x, c.y, c.z + delta) !in cubes {
        num := num + 1;
      }
    }
    assert ns[..6] == ns;
  }

  method Part1(lava: set<Cube>) returns (ans: nat)
    ensures ans == Faces(lava) && ans <= 6 * |lava|
  {
    ans := CountFaces(lava);
    FacesBound(lava);
  }

  // ---------------------------------------------------------------- box

  /** The cube lies within the box from ll to ur, both included. */
  predicate InBox(c: Cube, ll: Cube, ur: Cube)
  {
    ll.x <= c.x <= ur.x && ll.y <= c.y <= ur.y && ll.z <= c.z <= ur.z
  }

  /** Every cube of the box. */
  function Box(ll: Cube, ur: Cube): (b: set<Cube>)
    ensures forall c :: c in b <==> InBox(c, ll, ur)
  {
    set x, y, z | ll.x <= x <= ur.x && ll.y <= y <= ur.y && ll.z <= z <= ur.z :: Cube(x, y, z)
  }

  /** The box from ll to ur leaves a margin of at least one around every
      cube of lava. */
  predicate Padded(lava: set<Cube>, ll: Cube, ur: Cube)
  {
    forall c :: c in lava ==>
      ll.x <= c.x - 1 && c.x + 1 <= ur.x && ll.y <= c.y - 1 && c.y + 1 <= ur.y &&
      ll.z <= c.z - 1 && c.z + 1 <= ur.z
  }

  /** part2's bounds: the box of the lava grown by one on every side. The
      source starts from the set's first cube, which is also the first one
      its loop visits; any cube of the lava gives the same box. */
  method Bounds(lava: set<Cube>) returns (ll: Cube, ur: Cube)
    requires lava != {}
    ensures Padded(lava, ll, ur)
    ensures exists c :: c in lava && ll.x == c.x - 1
    ensures exists c :: c in lava && ll.y == c.y - 1
    ensures exists c :: c in lava && ll.z == c.z - 1
    ensures exists c :: c in lava && ur.x == c.x + 1
    ensures exists c :: c in lava && ur.y == c.y + 1
    ensures exists c :: c in lava && ur.z == c.z + 1
  {
    var first :| first in lava;
    ll, ur := first, first;
    ghost var lx, ly, lz, ux, uy, uz := first, first, first, first, first, first;
    var rest := lava;
    var start := true;
    while rest != {}
      invariant rest <= lava
      invariant start ==> ll == first && ur == first && first in rest
      invariant Padded(lava - rest, ll, ur)
      invariant lx in lava && (start || ll.x == lx.x - 1)
      invariant ly in lava && (start || ll.y == ly.y - 1)
      invariant lz in lava && (start || ll.z == lz.z - 1)
      invariant ux in lava && (start || ur.x == ux.x + 1)
      invariant uy in lava && (start || ur.y == uy.y + 1)
      invariant uz in lava && (start || ur.z == uz.z + 1)
      decreases rest
    {
      var c :| c in rest && (start ==> c == first);
      lx := if start || c.x - 1 <= ll.x then c else lx;
      ly := if start || c.y - 1 <= ll.y then c else ly;
      lz := if start || c.z - 1 <= ll.z then c else lz;
      ux := if start || c.x + 1 >= ur.x then c else ux;
      uy := if start || c.y + 1 >= ur.y then c else uy;
      uz := if start || c.z + 1 >= ur.z then c else uz;
      ghost var done := lava - rest;
      PaddedWiden(done, c, ll, ur);
      var grown := Widen(c, ll, ur);
      ll, ur := grown.0, grown.1;
      start := false;
      assert lava - (rest - {c}) == done + {c};
      rest := rest - {c};
    }
  }

  /** The body of part2's bounds loop for one cube: three coordinates. */
  function Widen(c: Cube, ll: Cube, ur: Cube): (r: (Cube, Cube))
    ensures r.0.x <= ll.x && r.0.y <= ll.y && r.0.z <= ll.z
    ensures r.1.x >= ur.x && r.1.y >= ur.y && r.1.z >= ur.z
    ensures Padded({c}, r.0, r.1)
  {
    (Cube(Min(ll.x, c.x - 1), Min(ll.y, c.y - 1), Min(ll.z, c.z - 1)),
     Cube(Max(ur.x, c.x + 1), Max(ur.y, c.y + 1), Max(ur.z, c.z + 1)))
  }

  /** Widening keeps the earlier cubes padded and pads the new one. */
  lemma PaddedWiden(done: set<Cube>, c: Cube, ll: Cube, ur: Cube)
    requires Padded(done, ll, ur)
    ensures Padded(done + {c}, Widen(c, ll, ur).0, Widen(c, ll, ur).1)
  {
  }

  // --------------------------------------------------------- flood fill

  /** visit: a cube that is not lava, not yet explored and inside the box
      joins the outside and the frontier; any other is left alone. */
  method Visit(c: Cube, lava: set<Cube>, ll: Cube, ur: Cube, outside: set<Cube>, frontier: seq<Cube>)
    returns (outside': set<Cube>, frontier': seq<Cube>)
    ensures c in lava || c in outside || !InBox(c, ll, ur) ==> outside' == outside && frontier' == frontier
    ensures !(c in lava || c in outside || !InBox(c, ll, ur)) ==>
      outside' == outside + {c} && frontier' == frontier + [c]
  {
    outside', frontier' := outside, frontier;
    if c in lava || c in outside {
      return;
    }
    if c.x < ll.x || c.x > ur.x || c.y < ll.y || c.y > ur.y || c.z < ll.z || c.z > ur.z {
      return;
    }
    outside' := outside + {c};
    frontier' := frontier + [c];
  }

  /** The explored air is closed: every neighbour of an explored cube that
      is inside the box and not lava has been explored too. */
  predicate Closed(outside: set<Cube>, lava: set<Cube>, ll: Cube, ur: Cube)
  {
    forall c, n :: c in outside && n in Neighbours(c) && InBox(n, ll, ur) && n !in lava ==> n in outside
  }

  /** The cube one step from c along axis i (0, 1, 2 for x, y, z). */
  function Along(c: Cube, i: nat, d: int): Cube
    requires i < 3
  {
    if i == 0 then Cube(c.x + d, c.y, c.z)
    else if i == 1 then Cube(c.x, c.y + d, c.z)
    else Cube(c.x, c.y, c.z + d)
  }

  /** The neighbours are the steps along each axis. */
  lemma NeighboursAlong(c: Cube)
    ensures Neighbours(c) == [Along(c, 0, -1), Along(c, 1, -1), Along(c, 2, -1), Along(c, 0, 1), Along(c, 1, 1), Along(c, 2, 1)]
  {
  }

  /** The loop body of the flood fill for cube c: visit its six
      neighbours. Explored cubes stay explored and the frontier only
      grows at its end, by the newly explored cubes; afterwards every
      neighbour of c inside the box and not lava is explored. */
  method Expand(c: Cube, lava: set<Cube>, ll: Cube, ur: Cube, outside: set<Cube>, frontier: seq<Cube>)
    returns (outside': set<Cube>, frontier': seq<Cube>)
    ensures outside <= outside' && |frontier| <= |frontier'| && frontier'[..|frontier|] == frontier
    ensures forall n :: n in outside' - outside ==> InBox(n, ll, ur) && n !in lava && n in frontier'
    ensures forall i :: |frontier| <= i < |frontier'| ==> frontier'[i] in outside' - outside
    ensures forall n :: n in Neighbours(c) && InBox(n, ll, ur) && n !in lava ==> n in outside'
    ensures forall n :: n in outside' - outside ==> Adjacent(c, n)
    ensures outside' == outside ==> frontier' == frontier
  {
    outside', frontier' := outside, frontier;
    for i := 0 to 3
      invariant outside <= outside' && |frontier| <= |frontier'| && frontier'[..|frontier|] == frontier
      invariant forall n :: n in outside' - outside ==> InBox(n, ll, ur) && n !in lava && n in frontier'
      invariant forall n :: n in outside' - outside ==> Adjacent(c, n)
      invariant forall k :: |frontier| <= k < |frontier'| ==> frontier'[k] in outside' - outside
      invariant forall j, d :: 0 <= j < i && (d == 1 || d == -1) && InBox(Along(c, j, d), ll, ur) && Along(c, j, d) !in lava ==>
        Along(c, j, d) in outside'
      invariant outside' == outside ==> frontier' == frontier
    {
      outside', frontier' := Visit(Along(c, i, 1), lava, ll, ur, outside', frontier');
      outside', frontier' := Visit(Along(c, i, -1), lava, ll, ur, outside', frontier');
    }
    NeighboursAlong(c);
  }

  // ------------------------------------------------------- reachability

  /** A walk of face steps from ll through air: every cube of it lies in
      the box and is not lava, and each cube after the first shares a face
      with the one before. */
  ghost predicate AirPath(p: seq<Cube>, lava: set<Cube>, ll: Cube, ur: Cube)
    decreases |p|
  {
    |p| > 0 && InBox(p[|p| - 1], ll, ur) && p[|p| - 1] !in lava &&
    if |p| == 1 then p[0] == ll
    else AirPath(p[..|p| - 1], lava, ll, ur) && Adjacent(p[|p| - 2], p[|p| - 1])
  }

  /** The cube can be reached from ll by face steps through the air of the
      box: the cubes the fill of part 2 is meant to find. */
  ghost predicate Reachable(c: Cube, lava: set<Cube>, ll: Cube, ur: Cube)
  {
    exists p :: AirPath(p, lava, ll, ur) && p[|p| - 1] == c
  }

  /** ll reaches itself when it is air in the box. */
  lemma ReachStart(lava: set<Cube>, ll: Cube, ur: Cube)
    requires InBox(ll, ll, ur) && ll !in lava
    ensures Reachable(ll, lava, ll, ur)
  {
    assert AirPath([ll], lava, ll, ur);
  }

  /** One face step from a reachable cube to air in the box is reachable. */
  lemma ReachStep(c: Cube, n: Cube, lava: set<Cube>, ll: Cube, ur: Cube)
    requires Reachable(c, lava, ll, ur)
    requires Adjacent(c, n) && InBox(n, ll, ur) && n !in lava
    ensures Reachable(n, lava, ll, ur)
  {
    var p :| AirPath(p, lava, ll, ur) && p[|p| - 1] == c;
    var q := p + [n];
    assert q[..|q| - 1] == p;
    assert AirPath(q, lava, ll, ur);
  }

  /** Air added next to a reachable cube keeps every explored cube
      reachable. */
  lemma ReachGrown(c: Cube, before: set<Cube>, after: set<Cube>, lava: set<Cube>, ll: Cube, ur: Cube)
    requires c in before && forall n :: n in before ==> Reachable(n, lava, ll, ur)
    requires before <= after
    requires forall n :: n in after - before ==> Adjacent(c, n) && InBox(n, ll, ur) && n !in lava
    ensures forall n :: n in after ==> Reachable(n, lava, ll, ur)
  {
    forall n | n in after
      ensures Reachable(n, lava, ll, ur)
    {
      if n !in before {
        ReachStep(c, n, lava, ll, ur);
      }
    }
  }

  /** A reachable cube is air in the box. */
  lemma ReachableIsAir(c: Cube, lava: set<Cube>, ll: Cube, ur: Cube)
    requires Reachable(c, lava, ll, ur)
    ensures InBox(c, ll, ur) && c !in lava
  {
  }

  /** A closed set of air holding ll (when ll is air) holds the end of
      every walk from ll through air. */
  lemma {:induction false} PathInside(p: seq<Cube>, outside: set<Cube>, lava: set<Cube>, ll: Cube, ur: Cube)
    requires AirPath(p, lava, ll, ur)
    requires Closed(outside, lava, ll, ur)
    requires ll !in lava && InBox(ll, ll, ur) ==> ll in outside
    ensures p[|p| - 1] in outside
    decreases |p|
  {
    if |p| > 1 {
      var q := p[..|p| - 1];
      PathInside(q, outside, lava, ll, ur);
      assert q[|q| - 1] == p[|p| - 2];
      NeighboursAdjacent(p[|p| - 2], p[|p| - 1]);
    }
  }

  /** So a closed set of air holding ll holds every reachable cube. */
  lemma ClosedHoldsReachable(outside: set<Cube>, lava: set<Cube>, ll: Cube, ur: Cube)
    requires Closed(outside, lava, ll, ur)
    requires ll !in lava && InBox(ll, ll, ur) ==> ll in outside
    ensures forall c :: Reachable(c, lava, ll, ur) ==> c in outside
  {
    forall c | Reachable(c, lava, ll, ur)
      ensures c in outside
    {
      var p :| AirPath(p, lava, ll, ur) && p[|p| - 1] == c;
      PathInside(p, outside, lava, ll, ur);
    }
  }

  /** The flood fill's loop invariant: the explored air lies in the box
      apart from the lava, holds ll when ll is air, is reachable from ll,
      and every explored cube not waiting on the frontier has its air
      neighbours explored. */
  ghost predicate Filling(outside: set<Cube>, frontier: seq<Cube>, lava: set<Cube>, ll: Cube, ur: Cube)
  {
    outside <= Box(ll, ur) && outside !! lava &&
    (ll !in lava && InBox(ll, ll, ur) ==> ll in outside) &&
    (forall c :: c in outside ==> Reachable(c, lava, ll, ur)) &&
    (forall i :: 0 <= i < |frontier| ==> frontier[i] in outside) &&
    (forall c, n :: c in outside && c !in frontier && n in Neighbours(c) && InBox(n, ll, ur) && n !in lava ==>
       n in outside)
  }

  /** The first visit(ll) starts the invariant. */
  method FillStart(lava: set<Cube>, ll: Cube, ur: Cube) returns (outside: set<Cube>, frontier: seq<Cube>)
    ensures Filling(outside, frontier, lava, ll, ur)
  {
    outside, frontier := Visit(ll, lava, ll, ur, {}, []);
    if ll in outside {
      ReachStart(lava, ll, ur);
    }
  }

  /** One turn of the flood fill: pop the back of the frontier and visit
      its neighbours. The invariant is kept and the explored air grows, or
      else the frontier shrinks. */
  method FillStep(lava: set<Cube>, ll: Cube, ur: Cube, outside: set<Cube>, frontier: seq<Cube>)
    returns (outside': set<Cube>, frontier': seq<Cube>)
    requires frontier != [] && Filling(outside, frontier, lava, ll, ur)
    ensures Filling(outside', frontier', lava, ll, ur)
    ensures outside <= outside' && (outside' == outside ==> |frontier'| < |frontier|)
  {
    var c := frontier[|frontier| - 1];
    var rest := frontier[..|frontier| - 1];
    assert frontier == rest + [c];
    outside', frontier' := Expand(c, lava, ll, ur, outside, rest);
    forall i | 0 <= i < |frontier'|
      ensures frontier'[i] in outside'
    {
      if i < |rest| {
        assert frontier'[i] == rest[i];
      }
    }
    assert forall i :: 0 <= i < |rest| ==> frontier'[i] == rest[i];
    assert forall x :: x in outside' && x !in frontier' ==> x in outside && (x == c || x !in frontier);
    forall x, n | x in outside' && x !in frontier' && n in Neighbours(x) && InBox(n, ll, ur) && n !in lava
      ensures n in outside'
    {
      if x != c {
        assert n in outside;
      }
    }
    ReachGrown(c, outside, outside', lava, ll, ur);
  }

  /** part2's flood fill from ll: the air it finds is exactly the air
      reachable from ll by face steps inside the box; it is closed and
      includes ll unless ll is lava. */
  method Fill(lava: set<Cube>, ll: Cube, ur: Cube) returns (outside: set<Cube>)
    ensures outside <= Box(ll, ur) && outside !! lava
    ensures ll !in lava && InBox(ll, ll, ur) ==> ll in outside
    ensures Closed(outside, lava, ll, ur)
    ensures forall c :: c in outside <==> Reachable(c, lava, ll, ur)
  {
    ghost var box := Box(ll, ur);
    var frontier: seq<Cube>;
    outside, frontier := FillStart(lava, ll, ur);
    while frontier != []
      invariant Filling(outside, frontier, lava, ll, ur)
      decreases |box - outside|, |frontier|
    {
      ghost var before := outside;
      outside, frontier := FillStep(lava, ll, ur, outside, frontier);
      if outside != before {
        Shrinks(box, before, outside);
      }
    }
    ClosedHoldsReachable(outside, lava, ll, ur);
  }

  /** Adding cells of the box leaves fewer of it to add: the fill terminates. */
  lemma Shrinks(box: set<Cube>, before: set<Cube>, after: set<Cube>)
    requires before <= after <= box && before != after
    ensures |box - after| < |box - before|
  {
    assert after == before + (after - before);
    var n :| n in after - before;
    var shrunk := (box - before) - {n};
    assert box - after <= shrunk;
    assert shrunk == (box - after) + (shrunk - (box - after));
  }

  // ------------------------------------------------------------- part 2

  /** How many of ns are lava or lie outside the box: the faces where a
      cube of air meets the droplet or the box's walls. */
  function Blocked(ns: seq<Cube>, lava: set<Cube>, ll: Cube, ur: Cube): (n: nat)
    ensures n <= |ns|
  {
    if ns == [] then 0
    else
      var last := ns[|ns| - 1];
      Blocked(ns[..|ns| - 1], lava, ll, ur) + (if last in lava || !InBox(last, ll, ur) then 1 else 0)
  }

  /** Where membership of the air is exactly "in the box and not lava",
      the neighbours missing from the air are the blocked ones. */
  lemma {:induction false} MissingBlocked(ns: seq<Cube>, outside: set<Cube>, lava: set<Cube>, ll: Cube, ur: Cube)
    requires forall i :: 0 <= i < |ns| ==> (ns[i] in outside <==> ns[i] !in lava && InBox(ns[i], ll, ur))
    ensures Missing(ns, outside) == Blocked(ns, lava, ll, ur)
  {
    if ns != [] {
      MissingBlocked(ns[..|ns| - 1], outside, lava, ll, ur);
    }
  }

  /** A face of a cube of filled air is counted by count_faces(outside)
      exactly when it meets the lava or the box's wall. */
  lemma AirFace(c: Cube, outside: set<Cube>, lava: set<Cube>, ll: Cube, ur: Cube)
    requires c in outside && outside <= Box(ll, ur) && outside !! lava
    requires Closed(outside, lava, ll, ur)
    ensures Open(c, outside) == Blocked(Neighbours(c), lava, ll, ur)
  {
    var ns := Neighbours(c);
    forall i | 0 <= i < |ns|
      ensures ns[i] in outside <==> ns[i] !in lava && InBox(ns[i], ll, ur)
    {
      if ns[i] in outside {
        assert ns[i] in Box(ll, ur);
      }
    }
    MissingBlocked(ns, outside, lava, ll, ur);
  }

  /** Sums of functions that agree on the set are equal. */
  lemma {:induction false} SumSame(todo: set<Cube>, f: Cube -> nat, g: Cube -> nat)
    requires forall c :: c in todo ==> f(c) == g(c)
    ensures SumOver(todo, f) == SumOver(todo, g)
    decreases todo
  {
    if todo != {} {
      var c :| c in todo && SumOver(todo, f) == f(c) + SumOver(todo - {c}, f);
      SumPick(todo, g, c);
      SumSame(todo - {c}, f, g);
    }
  }

  /** What count_faces(outside) counts in part 2: over the filled air,
      the faces against lava plus the faces against the box's walls. */
  lemma AirFaces(outside: set<Cube>, lava: set<Cube>, ll: Cube, ur: Cube)
    requires outside <= Box(ll, ur) && outside !! lava
    requires Closed(outside, lava, ll, ur)
    ensures Faces(outside) == SumOver(outside, c => Blocked(Neighbours(c), lava, ll, ur))
  {
    forall c | c in outside
      ensures Open(c, outside) == Blocked(Neighbours(c), lava, ll, ur)
    {
      AirFace(c, outside, lava, ll, ur);
    }
    SumSame(outside, c => Open(c, outside), c => Blocked(Neighbours(c), lava, ll, ur));
  }

  /** The outer surface of the box from ll to ur, which count_faces counts
      for the air along its walls and part 2 takes off. */
  function FalseBoundary(ll: Cube, ur: Cube): int
  {
    2 * (ur.x - ll.x + 1) * (ur.y - ll.y + 1) + 2 * (ur.x - ll.x + 1) * (ur.z - ll.z + 1) +
    2 * (ur.y - ll.y + 1) * (ur.z - ll.z + 1)
  }

  /** A box of one cube has the surface of one cube. */
  lemma FalseBoundaryCube(c: Cube)
    ensures FalseBoundary(c, c) == Faces({c})
  {
    LoneCube(c);
  }

  // ------------------------------------------------------ outer surface

  /** How many of ns are lava. */
  function LavaCount(ns: seq<Cube>, lava: set<Cube>): (n: nat)
    ensures n <= |ns|
  {
    if ns == [] then 0
    else LavaCount(ns[..|ns| - 1], lava) + (if ns[|ns| - 1] in lava then 1 else 0)
  }

  /** How many of ns lie outside the box. */
  function WallCount(ns: seq<Cube>, ll: Cube, ur: Cube): (n: nat)
    ensures n <= |ns|
  {
    if ns == [] then 0
    else WallCount(ns[..|ns| - 1], ll, ur) + (if InBox(ns[|ns| - 1], ll, ur) then 0 else 1)
  }

  /** The faces of a cube against the lava. */
  function LavaFaces(c: Cube, lava: set<Cube>): nat
  {
    LavaCount(Neighbours(c), lava)
  }

  /** Where no lava lies outside the box, a blocked neighbour is either
      lava or beyond a wall, never both. */
  lemma {:induction false} BlockedSplit(ns: seq<Cube>, lava: set<Cube>, ll: Cube, ur: Cube)
    requires forall i :: 0 <= i < |ns| && ns[i] in lava ==> InBox(ns[i], ll, ur)
    ensures Blocked(ns, lava, ll, ur) == LavaCount(ns, lava) + WallCount(ns, ll, ur)
  {
    if ns != [] {
      BlockedSplit(ns[..|ns| - 1], lava, ll, ur);
    }
  }

  /** One for a true condition. */
  function One(b: bool): nat
  {
    if b then 1 else 0
  }

  /** The faces of a cube of the box against its six walls, in the order
      of Neighbours: the low x, y and z walls, then the high ones. */
  function Walls(c: Cube, ll: Cube, ur: Cube): nat
  {
    One(c.x == ll.x) + One(c.y == ll.y) + One(c.z == ll.z) +
    One(c.x == ur.x) + One(c.y == ur.y) + One(c.z == ur.z)
  }

  /** How many of the first j neighbours lie outside the box, one more. */
  lemma WallStep(ns: seq<Cube>, j: nat, ll: Cube, ur: Cube)
    requires j < |ns|
    ensures WallCount(ns[..j + 1], ll, ur) == WallCount(ns[..j], ll, ur) + One(!InBox(ns[j], ll, ur))
  {
    assert ns[..j + 1][..j] == ns[..j];
  }

  /** For a cube of the box, the neighbours beyond a wall are its wall
      faces. */
  lemma WallFaces(c: Cube, ll: Cube, ur: Cube)
    requires InBox(c, ll, ur)
    ensures WallCount(Neighbours(c), ll, ur) == Walls(c, ll, ur)
  {
    var ns := Neighbours(c);
    assert ns[..0] == [];
    WallStep(ns, 0, ll, ur);
    WallStep(ns, 1, ll, ur);
    WallStep(ns, 2, ll, ur);
    WallStep(ns, 3, ll, ur);
    WallStep(ns, 4, ll, ur);
    WallStep(ns, 5, ll, ur);
    assert ns[..6] == ns;
  }

  /** Every cube of padded lava lies inside the box. */
  lemma LavaInBox(lava: set<Cube>, ll: Cube, ur: Cube)
    requires Padded(lava, ll, ur)
    ensures forall c :: c in lava ==> InBox(c, ll, ur)
  {
  }

  /** For a cube of air in a padded box, its blocked faces are its faces
      against the lava plus its faces against the walls. */
  lemma AirSplit(c: Cube, lava: set<Cube>, ll: Cube, ur: Cube)
    requires Padded(lava, ll, ur) && InBox(c, ll, ur)
    ensures Blocked(Neighbours(c), lava, ll, ur) == LavaFaces(c, lava) + Walls(c, ll, ur)
  {
    LavaInBox(lava, ll, ur);
    BlockedSplit(Neighbours(c), lava, ll, ur);
    WallFaces(c, ll, ur);
  }

  /** A coordinate by axis: 0, 1, 2 for x, y, z. */
  function Coord(c: Cube, i: nat): int
    requires i < 3
  {
    if i == 0 then c.x else if i == 1 then c.y else c.z
  }

  /** The cube with its coordinate along axis i set to v. */
  function With(c: Cube, i: nat, v: int): (r: Cube)
    requires i < 3
    ensures Coord(r, i) == v
    ensures forall j :: 0 <= j < 3 && j != i ==> Coord(r, j) == Coord(c, j)
  {
    if i == 0 then Cube(v, c.y, c.z) else if i == 1 then Cube(c.x, v, c.z) else Cube(c.x, c.y, v)
  }

  /** The cube lies on a wall of the box along axis i. */
  predicate Extreme(c: Cube, i: nat, ll: Cube, ur: Cube)
    requires i < 3
  {
    Coord(c, i) == Coord(ll, i) || Coord(c, i) == Coord(ur, i)
  }

  /** The outer shell of the box: its cubes that touch a wall. */
  predicate OnShell(c: Cube, ll: Cube, ur: Cube)
  {
    InBox(c, ll, ur) && (Extreme(c, 0, ll, ur) || Extreme(c, 1, ll, ur) || Extreme(c, 2, ll, ur))
  }

  /** The padding keeps the lava off the shell. */
  lemma ShellIsAir(c: Cube, lava: set<Cube>, ll: Cube, ur: Cube)
    requires Padded(lava, ll, ur) && OnShell(c, ll, ur)
    ensures c !in lava
  {
  }

  /** From a reachable cube of the box touching a wall along axis j, the
      straight walk along another axis i stays on that wall, so every
      cube of it is reachable. */
  lemma {:induction false} ReachAlong(a: Cube, i: nat, j: nat, t: int, lava: set<Cube>, ll: Cube, ur: Cube)
    requires i < 3 && j < 3 && i != j
    requires Padded(lava, ll, ur)
    requires Reachable(a, lava, ll, ur) && InBox(a, ll, ur) && Extreme(a, j, ll, ur)
    requires Coord(ll, i) <= t <= Coord(ur, i)
    ensures Reachable(With(a, i, t), lava, ll, ur)
    decreases Abs(Coord(a, i) - t)
  {
    if Coord(a, i) == t {
      assert With(a, i, t) == a;
    } else {
      var d := if Coord(a, i) < t then 1 else -1;
      var b := With(a, i, Coord(a, i) + d);
      assert Adjacent(a, b);
      assert OnShell(b, ll, ur);
      ShellIsAir(b, lava, ll, ur);
      ReachStep(a, b, lava, ll, ur);
      ReachAlong(b, i, j, t, lava, ll, ur);
      assert With(b, i, t) == With(a, i, t);
    }
  }

  /** Three straight walks from ll, the first one along a wall that ll
      touches and the next two along the wall the target touches. */
  lemma ReachCorner(c: Cube, i: nat, j: nat, k: nat, lava: set<Cube>, ll: Cube, ur: Cube)
    requires i < 3 && j < 3 && k < 3 && i != j && j != k && i != k
    requires Padded(lava, ll, ur) && InBox(c, ll, ur) && Extreme(c, i, ll, ur)
    ensures Reachable(c, lava, ll, ur)
  {
    assert OnShell(ll, ll, ur);
    ShellIsAir(ll, lava, ll, ur);
    ReachStart(lava, ll, ur);
    var a1 := With(ll, i, Coord(c, i));
    ReachAlong(ll, i, j, Coord(c, i), lava, ll, ur);
    var a2 := With(a1, j, Coord(c, j));
    ReachAlong(a1, j, i, Coord(c, j), lava, ll, ur);
    ReachAlong(a2, k, i, Coord(c, k), lava, ll, ur);
    assert With(a2, k, Coord(c, k)) == c;
  }

  /** Every cube of the shell is reachable from ll: the fill always finds
      the whole shell. */
  lemma ShellReachable(c: Cube, lava: set<Cube>, ll: Cube, ur: Cube)
    requires Padded(lava, ll, ur) && OnShell(c, ll, ur)
    ensures Reachable(c, lava, ll, ur)
  {
    if Extreme(c, 0, ll, ur) {
      ReachCorner(c, 0, 1, 2, lava, ll, ur);
    } else if Extreme(c, 1, ll, ur) {
      ReachCorner(c, 1, 0, 2, lava, ll, ur);
    } else {
      ReachCorner(c, 2, 0, 1, lava, ll, ur);
    }
  }

  /** Adding cubes on which f is zero does not change its sum. */
  lemma {:induction false} SumSubset(small: set<Cube>, large: set<Cube>, f: Cube -> nat)
    requires small <= large
    requires forall c :: c in large - small ==> f(c) == 0
    ensures SumOver(small, f) == SumOver(large, f)
    decreases large
  {
    if large - small != {} {
      var d :| d in large - small;
      SumPick(large, f, d);
      SumSubset(small, large - {d}, f);
    } else {
      forall x | x in large
        ensures x in small
      {
        assert x !in large - small;
      }
      assert large == small;
    }
  }

  /** A sum of ones counts the cubes. */
  lemma {:induction false} SumOnes(todo: set<Cube>, f: Cube -> nat)
    requires forall c :: c in todo ==> f(c) == 1
    ensures SumOver(todo, f) == |todo|
    decreases todo
  {
    if todo != {} {
      var c :| c in todo && SumOver(todo, f) == f(c) + SumOver(todo - {c}, f);
      SumOnes(todo - {c}, f);
    }
  }

  /** The cube at (u, v) of the plane at k across axis i, the other two
      axes taken in order. */
  function Embed(i: nat, k: int, u: int, v: int): (c: Cube)
    requires i < 3
    ensures Coord(c, i) == k
  {
    if i == 0 then Cube(k, u, v) else if i == 1 then Cube(u, k, v) else Cube(u, v, k)
  }

  /** A line of the plane at k across axis i: u fixed, v from v0 to v1. */
  function Line(i: nat, k: int, u: int, v0: int, v1: int): set<Cube>
    requires i < 3
  {
    set v | v0 <= v <= v1 :: Embed(i, k, u, v)
  }

  /** A rectangle of the plane at k across axis i. */
  function Rect(i: nat, k: int, u0: int, u1: int, v0: int, v1: int): set<Cube>
    requires i < 3
  {
    set u, v | u0 <= u <= u1 && v0 <= v <= v1 :: Embed(i, k, u, v)
  }

  /** Different places of a plane are different cubes. */
  lemma EmbedInjective(i: nat, k: int, u: int, v: int, u': int, v': int)
    requires i < 3 && Embed(i, k, u, v) == Embed(i, k, u', v')
    ensures u == u' && v == v'
  {
  }

  /** A line is the line one shorter and its last cube, which is new. */
  lemma LineSplit(i: nat, k: int, u: int, v0: int, v1: int)
    requires i < 3 && v0 <= v1
    ensures Line(i, k, u, v0, v1) == Line(i, k, u, v0, v1 - 1) + {Embed(i, k, u, v1)}
    ensures Embed(i, k, u, v1) !in Line(i, k, u, v0, v1 - 1)
  {
    forall v | v0 <= v <= v1 - 1 && Embed(i, k, u, v) == Embed(i, k, u, v1)
      ensures false
    {
      EmbedInjective(i, k, u, v, u, v1);
    }
  }

  /** A line from v0 to v1 holds v1 - v0 + 1 cubes. */
  lemma {:induction false} LineSize(i: nat, k: int, u: int, v0: int, v1: int)
    requires i < 3 && v0 <= v1 + 1
    ensures |Line(i, k, u, v0, v1)| == v1 - v0 + 1
    decreases v1 - v0
  {
    if v0 <= v1 {
      LineSize(i, k, u, v0, v1 - 1);
      LineSplit(i, k, u, v0, v1);
    } else {
      assert Line(i, k, u, v0, v1) == {};
    }
  }

  /** A rectangle is the rectangle one row shorter and its last line,
      which shares no cube with it. */
  lemma RectSplit(i: nat, k: int, u0: int, u1: int, v0: int, v1: int)
    requires i < 3 && u0 <= u1
    ensures Rect(i, k, u0, u1, v0, v1) == Rect(i, k, u0, u1 - 1, v0, v1) + Line(i, k, u1, v0, v1)
    ensures Rect(i, k, u0, u1 - 1, v0, v1) !! Line(i, k, u1, v0, v1)
  {
    forall u, v, v' | u0 <= u <= u1 - 1 && v0 <= v <= v1 && v0 <= v' <= v1 && Embed(i, k, u, v) == Embed(i, k, u1, v')
      ensures false
    {
      EmbedInjective(i, k, u, v, u1, v');
    }
  }

  /** Disjoint sets add their sizes. */
  lemma DisjointSize(a: set<Cube>, b: set<Cube>)
    requires a !! b
    ensures |a + b| == |a| + |b|
  {
    assert a * b == {};
  }

  /** One more row of w. */
  lemma MulRow(n: int, w: int)
    ensures (n + 1) * w == n * w + w
  {
  }

  /** A rectangle holds (u1 - u0 + 1) * (v1 - v0 + 1) cubes. */
  lemma {:induction false} RectSize(i: nat, k: int, u0: int, u1: int, v0: int, v1: int)
    requires i < 3 && u0 <= u1 + 1 && v0 <= v1 + 1
    ensures |Rect(i, k, u0, u1, v0, v1)| == (u1 - u0 + 1) * (v1 - v0 + 1)
    decreases u1 - u0
  {
    if u0 <= u1 {
      var shorter, line := Rect(i, k, u0, u1 - 1, v0, v1), Line(i, k, u1, v0, v1);
      RectSize(i, k, u0, u1 - 1, v0, v1);
      LineSize(i, k, u1, v0, v1);
      RectSplit(i, k, u0, u1, v0, v1);
      DisjointSize(shorter, line);
      MulRow(u1 - u0, v1 - v0 + 1);
    } else {
      assert Rect(i, k, u0, u1, v0, v1) == {};
    }
  }

  /** The cubes of the box on the plane at k across axis i are a
      rectangle spanning the box along the other two axes. */
  function Side(i: nat, k: int, ll: Cube, ur: Cube): set<Cube>
    requires i < 3
  {
    if i == 0 then Rect(0, k, ll.y, ur.y, ll.z, ur.z)
    else if i == 1 then Rect(1, k, ll.x, ur.x, ll.z, ur.z)
    else Rect(2, k, ll.x, ur.x, ll.y, ur.y)
  }

  /** A cube is on the side exactly when it is in the box on that plane. */
  lemma SideMembers(i: nat, k: int, ll: Cube, ur: Cube)
    requires i < 3 && Coord(ll, i) <= k <= Coord(ur, i)
    ensures forall c :: c in Side(i, k, ll, ur) <==> InBox(c, ll, ur) && Coord(c, i) == k
  {
    forall c | InBox(c, ll, ur) && Coord(c, i) == k
      ensures c in Side(i, k, ll, ur)
    {
      if i == 0 {
        assert c == Embed(0, k, c.y, c.z);
      } else if i == 1 {
        assert c == Embed(1, k, c.x, c.z);
      } else {
        assert c == Embed(2, k, c.x, c.y);
      }
    }
  }

  /** The face of the box on the plane at k across axis i. */
  function Plane(c: Cube, i: nat, k: int): nat
    requires i < 3
  {
    One(Coord(c, i) == k)
  }

  /** Summed over the box, the cubes on a plane of it count the cubes of
      that side. */
  lemma SideSum(i: nat, k: int, ll: Cube, ur: Cube)
    requires i < 3 && Coord(ll, i) <= k <= Coord(ur, i)
    ensures SumOver(Box(ll, ur), c => Plane(c, i, k)) == |Side(i, k, ll, ur)|
  {
    var f := c => Plane(c, i, k);
    SideMembers(i, k, ll, ur);
    SumSubset(Side(i, k, ll, ur), Box(ll, ur), f);
    SumOnes(Side(i, k, ll, ur), f);
  }

  /** The wall faces of the box's cubes, wall by wall. */
  lemma WallsByPlane(ll: Cube, ur: Cube)
    ensures SumOver(Box(ll, ur), c => Walls(c, ll, ur)) ==
      SumOver(Box(ll, ur), c => Plane(c, 0, ll.x)) + SumOver(Box(ll, ur), c => Plane(c, 1, ll.y)) +
      SumOver(Box(ll, ur), c => Plane(c, 2, ll.z)) + SumOver(Box(ll, ur), c => Plane(c, 0, ur.x)) +
      SumOver(Box(ll, ur), c => Plane(c, 1, ur.y)) + SumOver(Box(ll, ur), c => Plane(c, 2, ur.z))
  {
    var b := Box(ll, ur);
    var w1 := c => Plane(c, 0, ll.x);
    var w2 := c => Plane(c, 0, ll.x) + Plane(c, 1, ll.y);
    var w3 := c => Plane(c, 0, ll.x) + Plane(c, 1, ll.y) + Plane(c, 2, ll.z);
    var w4 := c => Plane(c, 0, ll.x) + Plane(c, 1, ll.y) + Plane(c, 2, ll.z) + Plane(c, 0, ur.x);
    var w5 := c => Plane(c, 0, ll.x) + Plane(c, 1, ll.y) + Plane(c, 2, ll.z) + Plane(c, 0, ur.x) + Plane(c, 1, ur.y);
    SumAdd(b, w2, w1, c => Plane(c, 1, ll.y));
    SumAdd(b, w3, w2, c => Plane(c, 2, ll.z));
    SumAdd(b, w4, w3, c => Plane(c, 0, ur.x));
    SumAdd(b, w5, w4, c => Plane(c, 1, ur.y));
    SumAdd(b, c => Walls(c, ll, ur), w5, c => Plane(c, 2, ur.z));
  }

  /** Summed over the box, the cubes on a plane across axis i count the
      product of the box's extents along the other two axes. */
  lemma PlaneSum(i: nat, k: int, ll: Cube, ur: Cube)
    requires i < 3 && Coord(ll, i) <= k <= Coord(ur, i)
    requires ll.x <= ur.x && ll.y <= ur.y && ll.z <= ur.z
    ensures i == 0 ==> SumOver(Box(ll, ur), c => Plane(c, i, k)) == (ur.y - ll.y + 1) * (ur.z - ll.z + 1)
    ensures i == 1 ==> SumOver(Box(ll, ur), c => Plane(c, i, k)) == (ur.x - ll.x + 1) * (ur.z - ll.z + 1)
    ensures i == 2 ==> SumOver(Box(ll, ur), c => Plane(c, i, k)) == (ur.x - ll.x + 1) * (ur.y - ll.y + 1)
  {
    SideSum(i, k, ll, ur);
    if i == 0 {
      RectSize(0, k, ll.y, ur.y, ll.z, ur.z);
    } else if i == 1 {
      RectSize(1, k, ll.x, ur.x, ll.z, ur.z);
    } else {
      RectSize(2, k, ll.x, ur.x, ll.y, ur.y);
    }
  }

  /** false_boundary is twice the area of each pair of opposite sides. */
  lemma FalseBoundarySides(ll: Cube, ur: Cube, a: int, b: int, c: int)
    requires a == (ur.x - ll.x + 1) * (ur.y - ll.y + 1)
    requires b == (ur.x - ll.x + 1) * (ur.z - ll.z + 1)
    requires c == (ur.y - ll.y + 1) * (ur.z - ll.z + 1)
    ensures FalseBoundary(ll, ur) == 2 * a + 2 * b + 2 * c
  {
  }

  /** false_boundary is the number of faces the box's own cubes show
      against its six walls. */
  lemma BoxWalls(ll: Cube, ur: Cube)
    requires ll.x <= ur.x && ll.y <= ur.y && ll.z <= ur.z
    ensures SumOver(Box(ll, ur), c => Walls(c, ll, ur)) == FalseBoundary(ll, ur)
  {
    WallsByPlane(ll, ur);
    PlaneSum(0, ll.x, ll, ur);
    PlaneSum(1, ll.y, ll, ur);
    PlaneSum(2, ll.z, ll, ur);
    PlaneSum(0, ur.x, ll, ur);
    PlaneSum(1, ur.y, ll, ur);
    PlaneSum(2, ur.z, ll, ur);
    FalseBoundarySides(ll, ur, (ur.x - ll.x + 1) * (ur.y - ll.y + 1), (ur.x - ll.x + 1) * (ur.z - ll.z + 1),
      (ur.y - ll.y + 1) * (ur.z - ll.z + 1));
  }

  /** The wall faces of the filled air add up to false_boundary: the fill
      reaches the whole shell, and only the shell touches the walls. */
  lemma AirWalls(outside: set<Cube>, lava: set<Cube>, ll: Cube, ur: Cube)
    requires Padded(lava, ll, ur) && ll.x <= ur.x && ll.y <= ur.y && ll.z <= ur.z
    requires outside <= Box(ll, ur)
    requires forall c :: c in outside <==> Reachable(c, lava, ll, ur)
    ensures SumOver(outside, c => Walls(c, ll, ur)) == FalseBoundary(ll, ur)
  {
    forall c | c in Box(ll, ur) - outside
      ensures Walls(c, ll, ur) == 0
    {
      if Walls(c, ll, ur) != 0 {
        assert OnShell(c, ll, ur);
        ShellReachable(c, lava, ll, ur);
      }
    }
    SumSubset(outside, Box(ll, ur), c => Walls(c, ll, ur));
    BoxWalls(ll, ur);
  }

  /** So what part 2 prints is the faces of the filled air against the
      lava: the droplet's exterior surface. */
  lemma ExteriorSurface(outside: set<Cube>, lava: set<Cube>, ll: Cube, ur: Cube)
    requires Padded(lava, ll, ur) && ll.x <= ur.x && ll.y <= ur.y && ll.z <= ur.z
    requires outside <= Box(ll, ur)
    requires forall c :: c in outside <==> Reachable(c, lava, ll, ur)
    ensures SumOver(outside, c => Blocked(Neighbours(c), lava, ll, ur)) - FalseBoundary(ll, ur) ==
      SumOver(outside, c => LavaFaces(c, lava))
  {
    forall c | c in outside
      ensures Blocked(Neighbours(c), lava, ll, ur) == LavaFaces(c, lava) + Walls(c, ll, ur)
    {
      AirSplit(c, lava, ll, ur);
    }
    SumAdd(outside, c => Blocked(Neighbours(c), lava, ll, ur), c => LavaFaces(c, lava), c => Walls(c, ll, ur));
    AirWalls(outside, lava, ll, ur);
  }

  /** part2: bound the lava, fill the air from ll, count the air's faces
      and take off the box's outer surface. */
  method Part2(lava: set<Cube>) returns (ans: int, ghost ll: Cube, ghost ur: Cube, ghost outside: set<Cube>)
    requires lava != {}
    ensures Padded(lava, ll, ur)
    ensures outside <= Box(ll, ur) && outside !! lava && ll in outside
    ensures Closed(outside, lava, ll, ur)
    ensures forall c :: c in outside <==> Reachable(c, lava, ll, ur)
    ensures ans == Faces(outside) - FalseBoundary(ll, ur)
    ensures ans == SumOver(outside, c => Blocked(Neighbours(c), lava, ll, ur)) - FalseBoundary(ll, ur)
    ensures ans == SumOver(outside, c => LavaFaces(c, lava))
  {
    var lo, hi := Bounds(lava);
    var air := Fill(lava, lo, hi);
    var faces := CountFaces(air);
    ans := faces - FalseBoundary(lo, hi);
    ll, ur, outside := lo, hi, air;
    AirFaces(outside, lava, ll, ur);
    ghost var some :| some in lava;
    assert ll.x < some.x < ur.x && ll.y < some.y < ur.y && ll.z < some.z < ur.z;
    ExteriorSurface(outside, lava, ll, ur);
  }
}
