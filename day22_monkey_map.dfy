/** Monkey Map (day 22): a walk over a board of open tiles ('.') and walls
    ('#') following a path of step counts and turns. A step off the board
    wraps around, either flat to the far end of the row or column (part 1)
    or across an edge of the cube the board folds into (part 2). The answer
    is a password made of the final row, column and facing. Board rows are
    padded with spaces and counted from 1, as are columns. */
module MonkeyMap {
  import opened Common

  /** A board position, row first. */
  datatype Coord = Coord(r: int, c: int)

  // ------------------------------------------------------- face coordinates

  /** face_coord: the face a board position lies on, counted in sides, and
      the position within that face. */
  function FaceCoord(rc: Coord, side: int): (fl: (Coord, Coord))
    requires side > 0
  {
    (Coord(CDiv(rc.r - 1, side), CDiv(rc.c - 1, side)), Coord(CRem(rc.r - 1, side), CRem(rc.c - 1, side)))
  }

  /** board_coord: a position within a face back to board coordinates. */
  function BoardCoord(faceRc: Coord, local: Coord, side: int): Coord
  {
    Coord(side * faceRc.r + local.r + 1, side * faceRc.c + local.c + 1)
  }

  /** A position within a face of the given side. */
  predicate Within(local: Coord, side: int)
  {
    0 <= local.r < side && 0 <= local.c < side
  }

  /** On the board (row and column from 1) the position lies within its
      face, on a face of the board's quadrant, and board_coord undoes
      face_coord. */
  lemma FaceThenBoard(rc: Coord, side: int)
    requires side > 0 && rc.r >= 1 && rc.c >= 1
    ensures var fl := FaceCoord(rc, side);
      0 <= fl.0.r && 0 <= fl.0.c && Within(fl.1, side) && BoardCoord(fl.0, fl.1, side) == rc
  {
  }

  /** And face_coord undoes board_coord for any position within a face. */
  lemma BoardThenFace(faceRc: Coord, local: Coord, side: int)
    requires side > 0 && 0 <= faceRc.r && 0 <= faceRc.c && Within(local, side)
    ensures FaceCoord(BoardCoord(faceRc, local, side), side) == (faceRc, local)
  {
    DivModUnique(side * faceRc.r + local.r, side, faceRc.r, local.r);
    DivModUnique(side * faceRc.c + local.c, side, faceRc.c, local.c);
  }

  // ------------------------------------------------------------------ edges

  /** Edges are numbered like facings: 0 right, 1 bottom, 2 left, 3 top. A
      place along an edge is counted from the left when facing the edge. */
  predicate OnEdge(local: Coord, edge: int, side: int)
    requires 0 <= edge < 4
  {
    Within(local, side) &&
    match edge
    case 0 => local.c == side - 1
    case 1 => local.r == side - 1
    case 2 => local.c == 0
    case _ => local.r == 0
  }

  /** to_edge: the place along an edge of a position on the face; any
      position within the face gives a place within the edge. */
  function ToEdge(local: Coord, edge: int, side: int): (k: int)
    requires 0 <= edge < 4
    ensures Within(local, side) ==> 0 <= k < side
  {
    match edge
    case 0 => local.r
    case 1 => side - 1 - local.c
    case 2 => side - 1 - local.r
    case _ => local.c
  }

  /** from_edge: the position at place k along an edge, which lies on that
      edge, and which to_edge reads back as k. */
  function FromEdge(k: int, edge: int, side: int): (local: Coord)
    requires 0 <= edge < 4
    ensures ToEdge(local, edge, side) == k
    ensures 0 <= k < side ==> OnEdge(local, edge, side)
  {
    match edge
    case 0 => Coord(k, side - 1)
    case 1 => Coord(side - 1, side - 1 - k)
    case 2 => Coord(side - 1 - k, 0)
    case _ => Coord(0, k)
  }

  /** The other way round: from_edge gives back every position on the edge
      from its place. */
  lemma EdgeRoundTrip(local: Coord, edge: int, side: int)
    requires 0 <= edge < 4 && OnEdge(local, edge, side)
    ensures FromEdge(ToEdge(local, edge, side), edge, side) == local
  {
  }

  // ------------------------------------------------------------------ faces

  /** A link across an edge: the face on the other side and the edge of
      that face that meets this one. */
  datatype Adj = Adj(face: Face, edge: int)

  /** A face of the cube, a side-by-side square of the board. */
  class Face {
    const side: int
    /** Where the face sits on the board, counted in sides. */
    const faceRc: Coord
    /** adj[e]: the link across edge e, None until it is known. */
    var adj: seq<Option<Adj>>

    /** face::face: no edge linked yet. */
    constructor (side: int, faceRc: Coord)
      ensures this.side == side && this.faceRc == faceRc && adj == [None, None, None, None]
    {
      this.side := side;
      this.faceRc := faceRc;
      adj := [None, None, None, None];
    }

    /** link: an empty slot takes the link and a filled one keeps what it
        has; ok is link's assert, that the slot now holds the link given. */
    method Link(edge: int, f: Face, fedge: int) returns (ok: bool)
      requires 0 <= edge < |adj|
      modifies this
      ensures adj == if old(adj[edge]).None? then old(adj)[edge := Some(Adj(f, fedge))] else old(adj)
      ensures ok <==> old(adj[edge]).None? || old(adj[edge]) == Some(Adj(f, fedge))
    {
      if adj[edge].None? {
        adj := adj[edge := Some(Adj(f, fedge))];
      }
      ok := adj[edge] == Some(Adj(f, fedge));
    }

    /** The position is on this face. */
    predicate Holds(rc: Coord)
    {
      side > 0 && rc.r >= 1 && rc.c >= 1 && FaceCoord(rc, side).0 == faceRc
    }

    /** wrap_incoming: enter this face at place k along an edge, facing
        away from that edge. Entering at a place within the edge lands on
        the face, on that edge, at that place. */
    function WrapIncoming(edge: int, k: int): (r: (Coord, int))
      requires 0 <= edge < 4
      ensures r.1 == (edge + 2) % 4
      ensures side > 0 && 0 <= faceRc.r && 0 <= faceRc.c && 0 <= k < side ==>
        Holds(r.0) && FaceCoord(r.0, side).1 == FromEdge(k, edge, side) && ToEdge(FaceCoord(r.0, side).1, edge, side) == k
    {
      var local := FromEdge(k, edge, side);
      assert side > 0 && 0 <= faceRc.r && 0 <= faceRc.c && 0 <= k < side ==>
        FaceCoord(BoardCoord(faceRc, local, side), side) == (faceRc, local) by {
        if side > 0 && 0 <= faceRc.r && 0 <= faceRc.c && 0 <= k < side {
          BoardThenFace(faceRc, local, side);
        }
      }
      (BoardCoord(faceRc, local, side), (edge + 2) % 4)
    }

    /** Every edge is linked to a face of the same side on the board. */
    predicate Linked()
      reads this
    {
      side > 0 && |adj| == 4 &&
      forall e :: 0 <= e < 4 ==>
        adj[e].Some? && 0 <= adj[e].value.edge < 4 && adj[e].value.face.side == side &&
        0 <= adj[e].value.face.faceRc.r && 0 <= adj[e].value.face.faceRc.c
    }

    /** wrap: a position whose face is not this one is left alone (false).
        A position on this face leaves across the edge it faces, enters the
        linked face on the linked edge, facing away from it, and a
        position on the board lands on that face at the place along the
        edge reversed. */
    function Wrap(rc: Coord, facing: int): (r: (bool, Coord, int))
      requires side > 0 && 0 <= facing < 4 && |adj| == 4
      requires FaceCoord(rc, side).0 == faceRc ==> adj[facing].Some? && 0 <= adj[facing].value.edge < 4
      reads this
      ensures r.0 <==> FaceCoord(rc, side).0 == faceRc
      ensures !r.0 ==> r.1 == rc && r.2 == facing
      ensures r.0 ==> r.2 == (adj[facing].value.edge + 2) % 4
      ensures r.0 && rc.r >= 1 && rc.c >= 1 && Linked() ==> var a := adj[facing].value;
        a.face.Holds(r.1) &&
        ToEdge(FaceCoord(r.1, side).1, a.edge, side) == side - 1 - ToEdge(FaceCoord(rc, side).1, facing, side)
    {
      var fl := FaceCoord(rc, side);
      if fl.0 != faceRc then (false, rc, facing)
      else
        assert rc.r >= 1 && rc.c >= 1 ==> Within(fl.1, side) by {
          if rc.r >= 1 && rc.c >= 1 {
            FaceThenBoard(rc, side);
          }
        }
        var k := side - 1 - ToEdge(fl.1, facing, side);
        var a := adj[facing].value;
        var w := a.face.WrapIncoming(a.edge, k);
        (true, w.0, w.1)
    }
  }

  // ------------------------------------------------------------------ board

  /** board::at: the tile at rc, a space off the stored rows. */
  function AtIn(rows: seq<string>, rc: Coord): (ch: char)
    ensures ch != ' ' ==> 0 <= rc.r < |rows| && 0 <= rc.c < |rows[rc.r]| && ch == rows[rc.r][rc.c]
  {
    if rc.r < 0 || rc.c < 0 || rc.r >= |rows| || rc.c >= |rows[rc.r]| then ' ' else rows[rc.r][rc.c]
  }

  /** A tile the walk may stand on. */
  predicate Open(rows: seq<string>, rc: Coord)
  {
    AtIn(rows, rc) != ' ' && AtIn(rows, rc) != '#'
  }

  /** The move of one step facing right, down, left or up. */
  function Delta(facing: int): Coord
  {
    Coord(if facing == 1 then 1 else if facing == 3 then -1 else 0,
          if facing == 0 then 1 else if facing == 2 then -1 else 0)
  }

  function Ahead(rc: Coord, facing: int): Coord
  {
    Coord(rc.r + Delta(facing).r, rc.c + Delta(facing).c)
  }

  /** The position j steps behind rc. */
  function Back(rc: Coord, facing: int, j: int): Coord
    requires 0 <= facing < 4
  {
    match facing
    case 0 => Coord(rc.r, rc.c - j)
    case 1 => Coord(rc.r - j, rc.c)
    case 2 => Coord(rc.r, rc.c + j)
    case _ => Coord(rc.r + j, rc.c)
  }

  /** How far the flat wrap can still back up: the distance to the edge of
      the stored rows behind rc. */
  function Room(rows: seq<string>, rc: Coord, facing: int): int
  {
    if facing == 0 then rc.c
    else if facing == 1 then rc.r
    else if facing == 2 then (if 0 <= rc.r < |rows| then |rows[rc.r]| - rc.c else 0)
    else |rows| - rc.r
  }

  /** The loop of step's flat wrap: back up from p while the tile behind
      is not a space. */
  function FlatBack(rows: seq<string>, p: Coord, facing: int): Coord
    requires 0 <= facing < 4
    decreases Room(rows, p, facing)
  {
    var prev := Back(p, facing, 1);
    if AtIn(rows, prev) != ' ' then FlatBack(rows, prev, facing) else p
  }

  /** The flat wrap backs up k steps, over tiles that are not spaces, and
      stops before a space. */
  lemma {:induction false} FlatBackRun(rows: seq<string>, p: Coord, facing: int) returns (k: nat)
    requires 0 <= facing < 4
    ensures FlatBack(rows, p, facing) == Back(p, facing, k)
    ensures forall j :: 1 <= j <= k ==> AtIn(rows, Back(p, facing, j)) != ' '
    ensures AtIn(rows, Back(p, facing, k + 1)) == ' '
    decreases Room(rows, p, facing)
  {
    var prev := Back(p, facing, 1);
    if AtIn(rows, prev) != ' ' {
      var k1 := FlatBackRun(rows, prev, facing);
      k := k1 + 1;
      forall j | 1 <= j <= k
        ensures AtIn(rows, Back(p, facing, j)) != ' '
      {
        if j > 1 {
          assert Back(p, facing, j) == Back(prev, facing, j - 1);
        }
      }
      assert Back(p, facing, k + 1) == Back(prev, facing, k1 + 1);
    } else {
      k := 0;
    }
  }

  /** So the flat wrap from a tile that is not a space, with a space
      ahead, lands on the farthest tile behind it that a run of tiles
      without spaces reaches. */
  lemma FlatWrapFarthest(rows: seq<string>, rc: Coord, facing: int) returns (k: nat)
    requires 0 <= facing < 4 && AtIn(rows, rc) != ' '
    ensures FlatBack(rows, Ahead(rc, facing), facing) == Back(rc, facing, k)
    ensures forall j :: 0 <= j <= k ==> AtIn(rows, Back(rc, facing, j)) != ' '
    ensures AtIn(rows, Back(rc, facing, k + 1)) == ' '
  {
    var p := Ahead(rc, facing);
    var k1 := FlatBackRun(rows, p, facing);
    assert Back(p, facing, 1) == rc;
    k := k1 - 1;
    forall j | 0 <= j <= k
      ensures AtIn(rows, Back(rc, facing, j)) != ' '
    {
      assert Back(rc, facing, j) == Back(p, facing, j + 1);
    }
    assert Back(rc, facing, k + 1) == Back(p, facing, k1 + 1);
  }

  /** The faces as fold leaves them: all of one side, on the board's
      quadrant, every edge linked to a face among them. */
  predicate Folded(faces: seq<Face>, side: int)
    reads faces
  {
    forall f :: f in faces ==>
      f.side == side && 0 <= f.faceRc.r && 0 <= f.faceRc.c && f.Linked() &&
      forall e :: 0 <= e < 4 ==> f.adj[e].value.face in faces
  }

  /** The loop of step's cube wrap: the first face that holds rc wraps it;
      when none does, rc and the facing stay. From a position on the board
      the wrap lands on one of the faces. */
  function CubeWrap(faces: seq<Face>, side: int, rc: Coord, facing: int, i: nat): (r: (Coord, int))
    requires 0 <= facing < 4 && i <= |faces| && Folded(faces, side)
    reads faces
    ensures 0 <= r.1 < 4
    ensures rc.r >= 1 && rc.c >= 1 ==> r == (rc, facing) || exists g :: g in faces && g.Holds(r.0)
    decreases |faces| - i
  {
    if i == |faces| then (rc, facing)
    else
      assert faces[i] in faces && faces[i].Linked();
      var w := faces[i].Wrap(rc, facing);
      if w.0 then (w.1, w.2) else CubeWrap(faces, side, rc, facing, i + 1)
  }

  /** Every position within every face is a tile of the board. */
  predicate Covered(rows: seq<string>, faces: seq<Face>)
  {
    forall f, a, b :: f in faces && 0 <= a < f.side && 0 <= b < f.side ==>
      AtIn(rows, BoardCoord(f.faceRc, Coord(a, b), f.side)) != ' '
  }

  lemma HeldCovered(rows: seq<string>, faces: seq<Face>, g: Face, p: Coord)
    requires Covered(rows, faces) && g in faces && g.Holds(p)
    ensures AtIn(rows, p) != ' '
  {
    FaceThenBoard(p, g.side);
    var l := FaceCoord(p, g.side).1;
    assert p == BoardCoord(g.faceRc, Coord(l.r, l.c), g.side);
  }

  /** step: one step ahead, wrapping when the tile ahead is a space; a
      wall where the step lands blocks it (false, nothing changes). */
  function StepIn(rows: seq<string>, cube: bool, faces: seq<Face>, side: int, rc: Coord, facing: int): (r: (bool, Coord, int))
    requires 0 <= facing < 4 && Folded(faces, side)
    reads faces
    ensures !r.0 ==> r.1 == rc && r.2 == facing
    ensures 0 <= r.2 < 4
  {
    var next := Ahead(rc, facing);
    var landing :=
      if AtIn(rows, next) != ' ' then (next, facing)
      else if !cube then (FlatBack(rows, next, facing), facing)
      else CubeWrap(faces, side, rc, facing, 0);
    if AtIn(rows, landing.0) == '#' then (false, rc, facing) else (true, landing.0, landing.1)
  }

  /** The padding board's constructor puts around the rows it reads: an
      empty row 0 and a space before every other row. */
  predicate Padded(rows: seq<string>)
  {
    |rows| > 0 && (forall j :: 0 <= j < |rows[0]| ==> rows[0][j] == ' ') &&
    forall i :: 0 < i < |rows| && |rows[i]| > 0 ==> rows[i][0] == ' '
  }

  /** On a padded board every tile lies at row and column 1 or more. */
  lemma PaddedTile(rows: seq<string>, rc: Coord)
    requires Padded(rows) && AtIn(rows, rc) != ' '
    ensures rc.r >= 1 && rc.c >= 1
  {
  }

  /** From an open tile, on a padded board that covers its faces, a step
      ends on an open tile: it is blocked exactly when it would land on a
      wall. */
  lemma StepOpen(rows: seq<string>, cube: bool, faces: seq<Face>, side: int, rc: Coord, facing: int)
    requires 0 <= facing < 4 && Folded(faces, side) && Covered(rows, faces) && Padded(rows) && Open(rows, rc)
    ensures Open(rows, StepIn(rows, cube, faces, side, rc, facing).1)
  {
    var next := Ahead(rc, facing);
    if AtIn(rows, next) == ' ' {
      if !cube {
        var k := FlatWrapFarthest(rows, rc, facing);
      } else {
        PaddedTile(rows, rc);
        CubeWrapCovered(rows, faces, side, rc, facing);
      }
    }
  }

  /** From a position on the board the cube wrap lands on a tile, or
      stays where it was. */
  lemma CubeWrapCovered(rows: seq<string>, faces: seq<Face>, side: int, rc: Coord, facing: int)
    requires 0 <= facing < 4 && Folded(faces, side) && Covered(rows, faces) && rc.r >= 1 && rc.c >= 1
    ensures var w := CubeWrap(faces, side, rc, facing, 0);
      w == (rc, facing) || AtIn(rows, w.0) != ' '
  {
    var w := CubeWrap(faces, side, rc, facing, 0);
    if w != (rc, facing) {
      var g :| g in faces && g.Holds(w.0);
      HeldCovered(rows, faces, g, w.0);
    }
  }

  // ------------------------------------------------------------ trail marks

  /** The tiles of two boards agree on what is a space and what is a wall;
      marks on open tiles keep this. */
  predicate SameShape(rows: seq<string>, rows0: seq<string>)
  {
    |rows| == |rows0| &&
    forall i :: 0 <= i < |rows| ==>
      (|rows[i]| == |rows0[i]| &&
       forall j :: 0 <= j < |rows[i]| ==>
         (rows[i][j] == ' ' <==> rows0[i][j] == ' ') && (rows[i][j] == '#' <==> rows0[i][j] == '#'))
  }

  lemma SameShapeAt(rows: seq<string>, rows0: seq<string>, p: Coord)
    requires SameShape(rows, rows0)
    ensures (AtIn(rows, p) == ' ' <==> AtIn(rows0, p) == ' ') && (AtIn(rows, p) == '#' <==> AtIn(rows0, p) == '#')
  {
  }

  lemma {:induction false} SameShapeFlat(rows: seq<string>, rows0: seq<string>, p: Coord, facing: int)
    requires SameShape(rows, rows0) && 0 <= facing < 4
    ensures FlatBack(rows, p, facing) == FlatBack(rows0, p, facing)
    decreases Room(rows, p, facing)
  {
    var prev := Back(p, facing, 1);
    SameShapeAt(rows, rows0, prev);
    if AtIn(rows, prev) != ' ' {
      SameShapeFlat(rows, rows0, prev, facing);
    }
  }

  /** The walk does not see the marks: a step on a marked board is the
      step on the board as read. */
  lemma SameShapeStep(rows: seq<string>, rows0: seq<string>, cube: bool, faces: seq<Face>, side: int, rc: Coord, facing: int)
    requires SameShape(rows, rows0) && 0 <= facing < 4 && Folded(faces, side)
    ensures StepIn(rows, cube, faces, side, rc, facing) == StepIn(rows0, cube, faces, side, rc, facing)
  {
    var next := Ahead(rc, facing);
    SameShapeAt(rows, rows0, next);
    SameShapeFlat(rows, rows0, next, facing);
    var landing :=
      if AtIn(rows, next) != ' ' then (next, facing)
      else if !cube then (FlatBack(rows, next, facing), facing)
      else CubeWrap(faces, side, rc, facing, 0);
    SameShapeAt(rows, rows0, landing.0);
  }

  /** The mark simulate writes for a facing. */
  function Mark(facing: int): (ch: char)
    requires 0 <= facing < 4
    ensures ch != ' ' && ch != '#'
  {
    ">v<^"[facing]
  }

  /** rows with the tile at rc overwritten by ch. */
  function Marked(rows: seq<string>, rc: Coord, ch: char): seq<string>
    requires 0 <= rc.r < |rows| && 0 <= rc.c < |rows[rc.r]|
  {
    rows[rc.r := rows[rc.r][rc.c := ch]]
  }

  /** A mark on an open tile keeps the board's shape and the tile open. */
  lemma MarkKeepsShape(rows: seq<string>, rows0: seq<string>, rc: Coord, facing: int)
    requires SameShape(rows, rows0) && Open(rows, rc) && 0 <= facing < 4
    ensures SameShape(Marked(rows, rc, Mark(facing)), rows0) && Open(Marked(rows, rc, Mark(facing)), rc)
  {
  }

  // ----------------------------------------------------------------- the walk

  /** A path of turns L and R and step counts in decimal. */
  predicate PathOk(path: string)
  {
    forall i :: 0 <= i < |path| ==> path[i] == 'L' || path[i] == 'R' || IsDigit(path[i])
  }

  /** A quarter turn: L is three turns to the right. */
  function Turn(facing: int, instr: char): (f: int)
    requires 0 <= facing < 4
    ensures 0 <= f < 4
  {
    (facing + (if instr == 'L' then 3 else 1)) % 4
  }

  /** Turning left undoes turning right and the other way round, and four
      turns one way come back to the start. */
  lemma TurnsUndo(facing: int)
    requires 0 <= facing < 4
    ensures Turn(Turn(facing, 'L'), 'R') == facing && Turn(Turn(facing, 'R'), 'L') == facing
    ensures Turn(Turn(Turn(Turn(facing, 'R'), 'R'), 'R'), 'R') == facing
    ensures Turn(facing, 'L') == Turn(Turn(Turn(facing, 'R'), 'R'), 'R')
  {
  }

  /** Up to n steps, stopping at the first blocked one. */
  function Forward(rows: seq<string>, cube: bool, faces: seq<Face>, side: int, rc: Coord, facing: int, n: int): (r: (Coord, int))
    requires 0 <= facing < 4 && Folded(faces, side)
    reads faces
    ensures 0 <= r.1 < 4
    decreases n, 1
  {
    if n <= 0 then (rc, facing) else ForwardFrom(rows, cube, faces, side, rc, facing, n)
  }

  /** The first of at least one step, then the rest. */
  function ForwardFrom(rows: seq<string>, cube: bool, faces: seq<Face>, side: int, rc: Coord, facing: int, n: int): (r: (Coord, int))
    requires 0 <= facing < 4 && Folded(faces, side) && n > 0
    reads faces
    ensures 0 <= r.1 < 4
    decreases n, 0
  {
    var s := StepIn(rows, cube, faces, side, rc, facing);
    if !s.0 then (rc, facing) else Forward(rows, cube, faces, side, s.1, s.2, n - 1)
  }

  lemma ForwardNext(rows: seq<string>, cube: bool, faces: seq<Face>, side: int, rc: Coord, facing: int, n: int)
    requires 0 <= facing < 4 && Folded(faces, side) && n > 0
    ensures var s := StepIn(rows, cube, faces, side, rc, facing);
      Forward(rows, cube, faces, side, rc, facing, n) ==
        if !s.0 then (rc, facing) else Forward(rows, cube, faces, side, s.1, s.2, n - 1)
  {
    assert Forward(rows, cube, faces, side, rc, facing, n) == ForwardFrom(rows, cube, faces, side, rc, facing, n);
  }

  /** The walk from instruction i of the path. */
  function Walk(rows: seq<string>, cube: bool, faces: seq<Face>, side: int, path: string, i: nat, rc: Coord, facing: int): (r: (Coord, int))
    requires PathOk(path) && i <= |path| && 0 <= facing < 4 && Folded(faces, side)
    reads faces
    ensures 0 <= r.1 < 4
    decreases |path| - i, 1
  {
    if i == |path| then (rc, facing) else WalkFrom(rows, cube, faces, side, path, i, rc, facing)
  }

  /** Instruction i, a turn or a count of steps, then the rest. */
  function WalkFrom(rows: seq<string>, cube: bool, faces: seq<Face>, side: int, path: string, i: nat, rc: Coord, facing: int): (r: (Coord, int))
    requires PathOk(path) && i < |path| && 0 <= facing < 4 && Folded(faces, side)
    reads faces
    ensures 0 <= r.1 < 4
    decreases |path| - i, 0
  {
    if path[i] == 'L' || path[i] == 'R' then Walk(rows, cube, faces, side, path, i + 1, rc, Turn(facing, path[i]))
    else
      var n := LeadingDigits(path[i..]);
      var f := Forward(rows, cube, faces, side, rc, facing, Atoi(path[i..]));
      Walk(rows, cube, faces, side, path, i + n, f.0, f.1)
  }

  lemma WalkTurn(rows: seq<string>, cube: bool, faces: seq<Face>, side: int, path: string, i: nat, rc: Coord, facing: int)
    requires PathOk(path) && i < |path| && 0 <= facing < 4 && Folded(faces, side)
    requires path[i] == 'L' || path[i] == 'R'
    ensures Walk(rows, cube, faces, side, path, i, rc, facing) == Walk(rows, cube, faces, side, path, i + 1, rc, Turn(facing, path[i]))
  {
    assert Walk(rows, cube, faces, side, path, i, rc, facing) == WalkFrom(rows, cube, faces, side, path, i, rc, facing);
  }

  lemma WalkCount(rows: seq<string>, cube: bool, faces: seq<Face>, side: int, path: string, i: nat, rc: Coord, facing: int)
    requires PathOk(path) && i < |path| && 0 <= facing < 4 && Folded(faces, side)
    requires path[i] != 'L' && path[i] != 'R'
    ensures i + LeadingDigits(path[i..]) <= |path|
    ensures var f := Forward(rows, cube, faces, side, rc, facing, Atoi(path[i..]));
      Walk(rows, cube, faces, side, path, i, rc, facing) == Walk(rows, cube, faces, side, path, i + LeadingDigits(path[i..]), f.0, f.1)
  {
    assert Walk(rows, cube, faces, side, path, i, rc, facing) == WalkFrom(rows, cube, faces, side, path, i, rc, facing);
  }

  /** From an open tile, the steps end on an open tile. */
  lemma {:induction false} ForwardOpen(rows: seq<string>, cube: bool, faces: seq<Face>, side: int, rc: Coord, facing: int, n: int)
    requires 0 <= facing < 4 && Folded(faces, side) && Covered(rows, faces) && Padded(rows) && Open(rows, rc)
    ensures Open(rows, Forward(rows, cube, faces, side, rc, facing, n).0)
    decreases n
  {
    if n > 0 {
      StepOpen(rows, cube, faces, side, rc, facing);
      ForwardNext(rows, cube, faces, side, rc, facing, n);
      var s := StepIn(rows, cube, faces, side, rc, facing);
      if s.0 {
        ForwardOpen(rows, cube, faces, side, s.1, s.2, n - 1);
      }
    }
  }

  /** So the whole walk from an open tile ends on an open tile. */
  lemma {:induction false} WalkOpen(rows: seq<string>, cube: bool, faces: seq<Face>, side: int, path: string, i: nat, rc: Coord, facing: int)
    requires PathOk(path) && i <= |path| && 0 <= facing < 4 && Folded(faces, side)
    requires Covered(rows, faces) && Padded(rows) && Open(rows, rc)
    ensures Open(rows, Walk(rows, cube, faces, side, path, i, rc, facing).0)
    decreases |path| - i
  {
    if i < |path| {
      if path[i] == 'L' || path[i] == 'R' {
        WalkTurn(rows, cube, faces, side, path, i, rc, facing);
        WalkOpen(rows, cube, faces, side, path, i + 1, rc, Turn(facing, path[i]));
      } else {
        var n := LeadingDigits(path[i..]);
        WalkCount(rows, cube, faces, side, path, i, rc, facing);
        ForwardOpen(rows, cube, faces, side, rc, facing, Atoi(path[i..]));
        var f := Forward(rows, cube, faces, side, rc, facing, Atoi(path[i..]));
        WalkOpen(rows, cube, faces, side, path, i + n, f.0, f.1);
      }
    }
  }

  /** The password of the final position and facing. */
  function Password(rc: Coord, facing: int): int
  {
    1000 * rc.r + 4 * rc.c + facing
  }

  /** The password gives back the row, the column and the facing, as long
      as the column is below 250. */
  lemma PasswordDecodes(rc: Coord, facing: int)
    requires 0 <= facing < 4 && 0 <= rc.c < 250
    ensures Password(rc, facing) / 1000 == rc.r && Password(rc, facing) % 1000 / 4 == rc.c
    ensures Password(rc, facing) % 4 == facing
  {
    var p := Password(rc, facing);
    DivModUnique(p, 1000, rc.r, 4 * rc.c + facing);
    DivModUnique(4 * rc.c + facing, 4, rc.c, facing);
    DivModUnique(p, 4, 250 * rc.r + rc.c, facing);
  }

  // ------------------------------------------------------------- the board

  class Board {
    /** The rows as read, each between a space on the left and the right,
        with an empty row above and below. */
    var rows: seq<string>
    /** The column of the first open tile of row 1. */
    const startingCol: int
    const cubeWrapping: bool
    const side: int
    const faces: seq<Face>

    /** board::at. */
    function At(rc: Coord): char
      reads this
    {
      AtIn(rows, rc)
    }

    /** step, with rc and facing passed back. */
    method Step(rc: Coord, facing: int) returns (moved: bool, rc': Coord, facing': int)
      requires 0 <= facing < 4 && Folded(faces, side)
      ensures (moved, rc', facing') == StepIn(rows, cubeWrapping, faces, side, rc, facing)
    {
      var rcnext := Ahead(rc, facing);
      var facingnext := facing;
      var ahead := At(rcnext);
      if ahead == ' ' {
        if !cubeWrapping {
          rcnext := FlatWrap(rcnext, facing);
        } else {
          rcnext, facingnext := CubeWrapAll(rc, facing);
        }
        ahead := At(rcnext);
      }
      if ahead == '#' {
        return false, rc, facing;
      }
      return true, rcnext, facingnext;
    }

    /** The loop of step's flat wrap. */
    method FlatWrap(p: Coord, facing: int) returns (q: Coord)
      requires 0 <= facing < 4
      ensures q == FlatBack(rows, p, facing)
    {
      var delta := Delta(facing);
      q := p;
      while At(Coord(q.r - delta.r, q.c - delta.c)) != ' '
        invariant FlatBack(rows, q, facing) == FlatBack(rows, p, facing)
        decreases Room(rows, q, facing)
      {
        assert Coord(q.r - delta.r, q.c - delta.c) == Back(q, facing, 1);
        q := Coord(q.r - delta.r, q.c - delta.c);
      }
      assert Coord(q.r - delta.r, q.c - delta.c) == Back(q, facing, 1);
    }

    /** The loop of step's cube wrap over the faces. */
    method CubeWrapAll(rc: Coord, facing: int) returns (rc': Coord, facing': int)
      requires 0 <= facing < 4 && Folded(faces, side)
      ensures (rc', facing') == CubeWrap(faces, side, rc, facing, 0)
    {
      for i := 0 to |faces|
        invariant CubeWrap(faces, side, rc, facing, i) == CubeWrap(faces, side, rc, facing, 0)
      {
        assert faces[i] in faces && faces[i].Linked();
        var w := faces[i].Wrap(rc, facing);
        if w.0 {
          return w.1, w.2;
        }
      }
      return rc, facing;
    }

    /** The steps of one count, marking each tile reached. */
    method Advance(rc: Coord, facing: int, n: int, ghost rows0: seq<string>) returns (rc': Coord, facing': int)
      requires 0 <= facing < 4 && Folded(faces, side) && Covered(rows0, faces) && Padded(rows0)
      requires SameShape(rows, rows0) && Open(rows, rc)
      modifies this`rows
      ensures SameShape(rows, rows0) && Open(rows, rc')
      ensures (rc', facing') == Forward(rows0, cubeWrapping, faces, side, rc, facing, n)
    {
      rc', facing' := rc, facing;
      var remaining := n;
      while remaining > 0
        invariant 0 <= facing' < 4 && SameShape(rows, rows0) && Open(rows, rc')
        invariant Forward(rows0, cubeWrapping, faces, side, rc', facing', remaining) == Forward(rows0, cubeWrapping, faces, side, rc, facing, n)
        decreases remaining
      {
        ForwardNext(rows0, cubeWrapping, faces, side, rc', facing', remaining);
        var moved, next, nextFacing := StepMark(rc', facing', rows0);
        if !moved {
          return;
        }
        remaining := remaining - 1;
        rc', facing' := next, nextFacing;
      }
    }

    /** One step of a count and its mark on the tile reached. */
    method StepMark(rc: Coord, facing: int, ghost rows0: seq<string>) returns (moved: bool, rc': Coord, facing': int)
      requires 0 <= facing < 4 && Folded(faces, side) && Covered(rows0, faces) && Padded(rows0)
      requires SameShape(rows, rows0) && Open(rows, rc)
      modifies this`rows
      ensures SameShape(rows, rows0) && Open(rows, rc') && 0 <= facing' < 4
      ensures (moved, rc', facing') == StepIn(rows0, cubeWrapping, faces, side, rc, facing)
    {
      SameShapeStep(rows, rows0, cubeWrapping, faces, side, rc, facing);
      moved, rc', facing' := Step(rc, facing);
      if moved {
        SameShapeAt(rows, rows0, rc');
        StepOpen(rows0, cubeWrapping, faces, side, rc, facing);
        MarkKeepsShape(rows, rows0, rc', facing');
        rows := Marked(rows, rc', Mark(facing'));
      }
    }
  }

  /** simulate, on a board already read and folded: follow the path from
      the first open tile of row 1 facing right, marking the trail, and
      answer the password of where the walk ends. The marks leave the
      board's spaces and walls as they were. */
  method Simulate(b: Board, path: string) returns (password: int)
    requires |b.rows| > 1 && b.startingCol == IndexOf(b.rows[1], '.') && b.startingCol >= 0
    requires Folded(b.faces, b.side) && Covered(b.rows, b.faces) && Padded(b.rows) && PathOk(path)
    modifies b`rows
    ensures var w := Walk(old(b.rows), b.cubeWrapping, b.faces, b.side, path, 0, Coord(1, b.startingCol), 0);
      password == Password(w.0, w.1)
    ensures SameShape(b.rows, old(b.rows))
  {
    ghost var rows0 := b.rows;
    var rc := Coord(1, b.startingCol);
    var facing := 0;
    var i := 0;
    while i < |path|
      invariant i <= |path| && 0 <= facing < 4 && SameShape(b.rows, rows0) && Open(b.rows, rc)
      invariant Walk(rows0, b.cubeWrapping, b.faces, b.side, path, i, rc, facing) ==
        Walk(rows0, b.cubeWrapping, b.faces, b.side, path, 0, Coord(1, b.startingCol), 0)
      decreases |path| - i
    {
      i, rc, facing := Follow(b, path, i, rc, facing, rows0);
    }
    password := 1000 * rc.r + 4 * rc.c + facing;
  }

  /** One pass of simulate's loop: mark the tile, then follow instruction
      i, a turn or a count of steps. */
  method Follow(b: Board, path: string, i: nat, rc: Coord, facing: int, ghost rows0: seq<string>) returns (i': nat, rc': Coord, facing': int)
    requires PathOk(path) && i < |path| && 0 <= facing < 4
    requires Folded(b.faces, b.side) && Covered(rows0, b.faces) && Padded(rows0)
    requires SameShape(b.rows, rows0) && Open(b.rows, rc)
    modifies b`rows
    ensures i < i' <= |path| && 0 <= facing' < 4 && SameShape(b.rows, rows0) && Open(b.rows, rc')
    ensures Walk(rows0, b.cubeWrapping, b.faces, b.side, path, i', rc', facing') ==
      Walk(rows0, b.cubeWrapping, b.faces, b.side, path, i, rc, facing)
  {
    MarkKeepsShape(b.rows, rows0, rc, facing);
    b.rows := Marked(b.rows, rc, Mark(facing));
    var instr := path[i];
    if instr == 'L' || instr == 'R' {
      WalkTurn(rows0, b.cubeWrapping, b.faces, b.side, path, i, rc, facing);
      facing' := (facing + (if instr == 'L' then 3 else 1)) % 4;
      i', rc' := i + 1, rc;
    } else {
      WalkCount(rows0, b.cubeWrapping, b.faces, b.side, path, i, rc, facing);
      var numSteps := Atoi(path[i..]);
      i' := SkipDigits(path, i);
      rc', facing' := b.Advance(rc, facing, numSteps, rows0);
    }
  }

  /** simulate's skip over the digits of a count. */
  method SkipDigits(path: string, i: nat) returns (next: nat)
    requires i < |path| && IsDigit(path[i])
    ensures next == i + LeadingDigits(path[i..]) && next > i
  {
    next := i + 1;
    while next < |path| && IsDigit(path[next])
      invariant i < next <= |path|
      invariant forall j :: i <= j < next ==> IsDigit(path[j])
      decreases |path| - next
    {
      next := next + 1;
    }
    assert AllDigits(path[i..next]);
    LeadingDigitsOf(path[i..next], path[next..]);
    assert path[i..] == path[i..next] + path[next..];
  }
}
