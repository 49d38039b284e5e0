/** Treetop tree house: a rectangular grid of tree heights, scanned in
    straight lines from all four edges.  Part 1 counts the trees visible
    from outside the grid, part 2 finds the best scenic score. */
module Treetop {
  import opened Common

  /** The rows of height characters, as read. */
  type Grid = seq<string>

  /** The trees constructor asserts that every row is as long as the
      first. */
  predicate Rect(g: Grid)
  {
    |g| > 0 && forall r :: 0 <= r < |g| ==> |g[r]| == |g[0]|
  }

  function W(g: Grid): nat
    requires g != []
  {
    |g[0]|
  }

  predicate Valid(g: Grid, i: int, j: int)
    requires g != []
  {
    0 <= i < |g| && 0 <= j < W(g)
  }

  /** at: the height character, or NUL off the grid. */
  function At(g: Grid, i: int, j: int): char
    requires Rect(g)
  {
    if Valid(g, i, j) then g[i][j] else '\0'
  }

  predicate NoNul(g: Grid)
  {
    forall r, c :: 0 <= r < |g| && 0 <= c < |g[r]| ==> g[r][c] != '\0'
  }

  /** at is NUL exactly off the grid, once the rows hold no NUL. */
  lemma AtZero(g: Grid, i: int, j: int)
    requires Rect(g) && NoNul(g)
    ensures At(g, i, j) == '\0' <==> !Valid(g, i, j)
    ensures Valid(g, i, j) ==> At(g, i, j) == g[i][j]
  {
  }

  // ------------------------------------------------------------ scans

  /** One call of the scan callback: a start (i, j) and a direction. */
  datatype Call = Call(i: int, j: int, di: int, dj: int)

  predicate Inward(c: Call)
  {
    (c.di == 0 && (c.dj == 1 || c.dj == -1)) || (c.dj == 0 && (c.di == 1 || c.di == -1))
  }

  /** k steps along one axis of a direction: k * d for d in {-1, 0, 1}. */
  function Along(d: int, k: int): int
  {
    if d == 1 then k else if d == -1 then -k else 0
  }

  /** The k-th cell a scan visits. */
  function Cell(c: Call, k: int): (int, int)
  {
    (c.i + Along(c.di, k), c.j + Along(c.dj, k))
  }

  function Next(c: Call): Call
  {
    Call(c.i + c.di, c.j + c.dj, c.di, c.dj)
  }

  /** How many more steps a scan can take before it leaves the grid. */
  function Dist(g: Grid, c: Call): int
    requires g != []
  {
    if c.di == 1 then |g| - c.i
    else if c.di == -1 then c.i + 1
    else if c.dj == 1 then W(g) - c.j
    else c.j + 1
  }

  /** The heights a scan loop sees: it stops at the first NUL from at. */
  function Ray(g: Grid, c: Call): seq<char>
    requires Rect(g) && Inward(c)
    decreases Dist(g, c)
  {
    if At(g, c.i, c.j) == '\0' then [] else [At(g, c.i, c.j)] + Ray(g, Next(c))
  }

  /** Where (a, b) lies on the line of a scan, if it lies there at all. */
  function Index(c: Call, a: int, b: int): Option<nat>
  {
    if c.di == 0 then
      if a == c.i && Along(c.dj, b - c.j) >= 0 then Some(Along(c.dj, b - c.j)) else None
    else
      if b == c.j && Along(c.di, a - c.i) >= 0 then Some(Along(c.di, a - c.i)) else None
  }

  lemma IndexCell(c: Call, k: nat, a: int, b: int)
    requires Inward(c)
    ensures Index(c, a, b) == Some(k) <==> (a, b) == Cell(c, k)
  {
    if c.di == 0 && c.dj == 1 {
      assert Cell(c, k) == (c.i, c.j + k);
    } else if c.di == 0 {
      assert Cell(c, k) == (c.i, c.j - k);
    } else if c.di == 1 {
      assert Cell(c, k) == (c.i + k, c.j);
    } else {
      assert Cell(c, k) == (c.i - k, c.j);
    }
  }

  /** scan4: for every row a scan from its left and from its right end,
      then for every column from its top and from its bottom. */
  function Scan4(g: Grid): seq<Call>
    requires g != []
  {
    RowCalls(g, |g|) + ColCalls(g, W(g))
  }

  function RowCalls(g: Grid, n: nat): (calls: seq<Call>)
    requires g != []
    ensures |calls| == 2 * n
  {
    if n == 0 then [] else RowCalls(g, n - 1) + [FromLeft(g, n - 1), FromRight(g, n - 1)]
  }

  function ColCalls(g: Grid, n: nat): (calls: seq<Call>)
    requires g != []
    ensures |calls| == 2 * n
  {
    if n == 0 then [] else ColCalls(g, n - 1) + [FromTop(g, n - 1), FromBottom(g, n - 1)]
  }

  function FromLeft(g: Grid, a: int): Call requires g != [] { Call(a, 0, 0, 1) }
  function FromRight(g: Grid, a: int): Call requires g != [] { Call(a, W(g) - 1, 0, -1) }
  function FromTop(g: Grid, b: int): Call requires g != [] { Call(0, b, 1, 0) }
  function FromBottom(g: Grid, b: int): Call requires g != [] { Call(|g| - 1, b, -1, 0) }

  predicate AllInward(calls: seq<Call>)
  {
    forall q :: 0 <= q < |calls| ==> Inward(calls[q])
  }

  /** A scan that starts on the grid, at a cell whose predecessor in its
      direction is off the grid. */
  predicate FromEdge(g: Grid, c: Call)
    requires g != []
  {
    Valid(g, c.i, c.j) && !Valid(g, c.i - c.di, c.j - c.dj)
  }

  lemma {:induction false} RowCallsFromEdge(g: Grid, n: nat)
    requires Rect(g) && n <= |g|
    ensures forall q :: 0 <= q < |RowCalls(g, n)| ==>
      Inward(RowCalls(g, n)[q]) && (W(g) > 0 ==> FromEdge(g, RowCalls(g, n)[q]))
  {
    if n > 0 {
      RowCallsFromEdge(g, n - 1);
    }
  }

  lemma {:induction false} ColCallsFromEdge(g: Grid, n: nat)
    requires Rect(g) && n <= W(g)
    ensures forall q :: 0 <= q < |ColCalls(g, n)| ==> Inward(ColCalls(g, n)[q]) && FromEdge(g, ColCalls(g, n)[q])
  {
    if n > 0 {
      ColCallsFromEdge(g, n - 1);
    }
  }

  /** scan4 makes 2h + 2w calls, each from an edge cell pointing into the
      grid. */
  lemma Scan4Calls(g: Grid)
    requires Rect(g)
    ensures |Scan4(g)| == 2 * |g| + 2 * W(g)
    ensures forall q :: 0 <= q < |Scan4(g)| ==> Inward(Scan4(g)[q]) && (W(g) > 0 ==> FromEdge(g, Scan4(g)[q]))
  {
    RowCallsFromEdge(g, |g|);
    ColCallsFromEdge(g, W(g));
    var rows, cols := RowCalls(g, |g|), ColCalls(g, W(g));
    assert forall q :: 0 <= q < |rows| ==> Scan4(g)[q] == rows[q];
    assert forall q :: |rows| <= q < |Scan4(g)| ==> Scan4(g)[q] == cols[q - |rows|];
  }

  // ------------------------------------------------- what a scan sees

  /** The scan reaches every cell between its start and a cell on the
      grid, and sees that cell's height there, when the rows hold no NUL. */
  lemma {:induction false} RayReach(g: Grid, c: Call, k: nat)
    requires Rect(g) && NoNul(g) && Inward(c)
    requires Valid(g, c.i, c.j) && Valid(g, Cell(c, k).0, Cell(c, k).1)
    ensures k < |Ray(g, c)| && Ray(g, c)[k] == g[Cell(c, k).0][Cell(c, k).1]
    decreases k
  {
    if k > 0 {
      var n := Next(c);
      assert Cell(n, k - 1) == Cell(c, k);
      assert Valid(g, n.i, n.j) by {
        if c.di == 0 {
          if c.dj == 1 { assert Cell(c, k).1 == c.j + k; } else { assert Cell(c, k).1 == c.j - k; }
        } else {
          if c.di == 1 { assert Cell(c, k).0 == c.i + k; } else { assert Cell(c, k).0 == c.i - k; }
        }
      }
      RayReach(g, n, k - 1);
    }
  }

  /** The trees a scan passes before reaching position k, in scan order. */
  function Passed(g: Grid, c: Call, k: nat): seq<char>
    requires Rect(g)
  {
    seq(k, l => At(g, Cell(c, l).0, Cell(c, l).1))
  }

  /** With no NUL in the rows, a scan that reaches a cell has passed
      exactly the cells before it on its line. */
  lemma RayBefore(g: Grid, c: Call, k: nat)
    requires Rect(g) && NoNul(g) && Inward(c)
    requires Valid(g, c.i, c.j) && Valid(g, Cell(c, k).0, Cell(c, k).1)
    ensures k < |Ray(g, c)| && Ray(g, c)[k] == g[Cell(c, k).0][Cell(c, k).1]
    ensures Ray(g, c)[..k] == Passed(g, c, k)
  {
    RayReach(g, c, k);
    forall l | 0 <= l < k
      ensures Ray(g, c)[l] == Passed(g, c, k)[l]
    {
      assert Valid(g, Cell(c, l).0, Cell(c, l).1) by {
        if c.di == 0 {
          if c.dj == 1 { assert Cell(c, l).1 == c.j + l; } else { assert Cell(c, l).1 == c.j - l; }
        } else {
          if c.di == 1 { assert Cell(c, l).0 == c.i + l; } else { assert Cell(c, l).0 == c.i - l; }
        }
      }
      RayReach(g, c, l);
    }
  }

  // ---------------------------------------------------------- part 1

  /** Part 1's test at position m of a scan: a height above '0' - 1 and
      strictly taller than every earlier tree of the scan. */
  predicate Taller(s: seq<char>, m: nat)
  {
    m < |s| && s[m] > '/' && forall l :: 0 <= l < m ==> s[l] < s[m]
  }

  /** The cells a scan marks visible. */
  predicate Hit(g: Grid, c: Call, a: int, b: int)
    requires Rect(g) && Inward(c)
  {
    Index(c, a, b).Some? && Taller(Ray(g, c), Index(c, a, b).value)
  }

  /** max_height after m trees: the largest of '0' - 1 and their heights. */
  function PrefixMax(s: seq<char>, m: nat): char
    requires m <= |s|
  {
    if m == 0 then '/'
    else
      var before := PrefixMax(s, m - 1);
      if s[m - 1] > before then s[m - 1] else before
  }

  lemma {:induction false} PrefixMaxBounds(s: seq<char>, m: nat)
    requires m <= |s|
    ensures PrefixMax(s, m) >= '/'
    ensures forall l :: 0 <= l < m ==> s[l] <= PrefixMax(s, m)
    ensures PrefixMax(s, m) == '/' || exists l :: 0 <= l < m && s[l] == PrefixMax(s, m)
  {
    if m > 0 {
      PrefixMaxBounds(s, m - 1);
    }
  }

  /** Comparing with the running maximum is the part 1 test. */
  lemma TallerIff(s: seq<char>, m: nat)
    requires m < |s|
    ensures Taller(s, m) <==> s[m] > PrefixMax(s, m)
  {
    PrefixMaxBounds(s, m);
  }

  predicate Shaped<T>(g: Grid, m: seq<seq<T>>)
    requires g != []
  {
    |m| == |g| && forall a :: 0 <= a < |m| ==> |m[a]| == W(g)
  }

  lemma SameMap<T>(g: Grid, x: seq<seq<T>>, y: seq<seq<T>>)
    requires g != [] && Shaped(g, x) && Shaped(g, y)
    requires forall a, b :: 0 <= a < |g| && 0 <= b < W(g) ==> x[a][b] == y[a][b]
    ensures x == y
  {
    forall a | 0 <= a < |g|
      ensures x[a] == y[a]
    {
      assert forall b :: 0 <= b < W(g) ==> x[a][b] == y[a][b];
    }
  }

  /** The cells the first k trees of a scan marked. */
  predicate Seen(c: Call, ray: seq<char>, k: nat, a: int, b: int)
  {
    Index(c, a, b).Some? && Index(c, a, b).value < k && Taller(ray, Index(c, a, b).value)
  }

  /** The marks once the first k trees of a scan have been looked at,
      over the marks vis the scan started from. */
  function SeenMap(g: Grid, c: Call, ray: seq<char>, k: nat, vis: seq<seq<bool>>): (m: seq<seq<bool>>)
    requires Rect(g) && Shaped(g, vis)
    ensures Shaped(g, m)
  {
    seq(|g|, a requires 0 <= a < |g| => seq(W(g), b requires 0 <= b < W(g) => vis[a][b] || Seen(c, ray, k, a, b)))
  }

  /** The marks a whole scan leaves over vis. */
  function HitMap(g: Grid, c: Call, vis: seq<seq<bool>>): (m: seq<seq<bool>>)
    requires Rect(g) && Inward(c) && Shaped(g, vis)
    ensures Shaped(g, m)
  {
    seq(|g|, a requires 0 <= a < |g| => seq(W(g), b requires 0 <= b < W(g) => vis[a][b] || Hit(g, c, a, b)))
  }

  /** Before the first tree nothing is marked; after the last, exactly
      the trees the scan hits. */
  lemma SeenEnds(g: Grid, c: Call, vis: seq<seq<bool>>)
    requires Rect(g) && Inward(c) && Shaped(g, vis)
    ensures SeenMap(g, c, Ray(g, c), 0, vis) == vis
    ensures SeenMap(g, c, Ray(g, c), |Ray(g, c)|, vis) == HitMap(g, c, vis)
  {
    SameMap(g, SeenMap(g, c, Ray(g, c), 0, vis), vis);
    SameMap(g, SeenMap(g, c, Ray(g, c), |Ray(g, c)|, vis), HitMap(g, c, vis));
  }

  /** Marking the k-th tree when it is taller extends the marks by one
      tree of the scan. */
  lemma MarkStep(g: Grid, c: Call, ray: seq<char>, k: nat, vis: seq<seq<bool>>, next: seq<seq<bool>>)
    requires Rect(g) && Inward(c) && k < |ray| && Valid(g, Cell(c, k).0, Cell(c, k).1) && Shaped(g, vis)
    requires var cur := SeenMap(g, c, ray, k, vis);
      next == if Taller(ray, k) then cur[Cell(c, k).0 := cur[Cell(c, k).0][Cell(c, k).1 := true]] else cur
    ensures next == SeenMap(g, c, ray, k + 1, vis)
  {
    forall a, b | 0 <= a < |g| && 0 <= b < W(g)
      ensures next[a][b] == SeenMap(g, c, ray, k + 1, vis)[a][b]
    {
      IndexCell(c, k, a, b);
    }
    SameMap(g, next, SeenMap(g, c, ray, k + 1, vis));
  }

  /** One step of a scan loop: the tree at (i, j) is the k-th the scan
      sees, and the rest of the scan starts at the next cell. */
  lemma RayUnfold(g: Grid, c: Call, ray: seq<char>, k: nat, i: int, j: int)
    requires Rect(g) && Inward(c) && At(g, i, j) != '\0'
    requires i == Cell(c, k).0 && j == Cell(c, k).1
    requires k <= |ray| && ray == ray[..k] + Ray(g, Call(i, j, c.di, c.dj))
    ensures k < |ray| && ray[k] == At(g, i, j) && Valid(g, i, j)
    ensures ray[..k + 1] == ray[..k] + [ray[k]]
    ensures ray == ray[..k + 1] + Ray(g, Call(i + c.di, j + c.dj, c.di, c.dj))
    ensures i + c.di == Cell(c, k + 1).0 && j + c.dj == Cell(c, k + 1).1
  {
    var here := Call(i, j, c.di, c.dj);
    var rest := Ray(g, Call(i + c.di, j + c.dj, c.di, c.dj));
    assert Next(here) == Call(i + c.di, j + c.dj, c.di, c.dj);
    assert Ray(g, here) == [At(g, i, j)] + rest;
    assert ray[..k] + ([At(g, i, j)] + rest) == (ray[..k] + [At(g, i, j)]) + rest;
    assert Along(c.di, k + 1) == Along(c.di, k) + c.di;
    assert Along(c.dj, k + 1) == Along(c.dj, k) + c.dj;
  }

  /** The scan loop's move to the next cell keeps its position on the
      scan and what is left of the ray. */
  lemma RayAdvance(g: Grid, c: Call, ray: seq<char>, k: nat, i: int, j: int, i': int, j': int)
    requires Rect(g) && Inward(c) && At(g, i, j) != '\0'
    requires i == Cell(c, k).0 && j == Cell(c, k).1
    requires k <= |ray| && ray == ray[..k] + Ray(g, Call(i, j, c.di, c.dj))
    requires i' == i + c.di && j' == j + c.dj
    ensures k + 1 <= |ray| && ray == ray[..k + 1] + Ray(g, Call(i', j', c.di, c.dj))
    ensures i' == Cell(c, k + 1).0 && j' == Cell(c, k + 1).1
  {
    RayUnfold(g, c, ray, k, i, j);
  }

  /** One turn of the part 1 scan loop: mark the tree at (i, j) when it
      is taller than max_height, then raise max_height to it. */
  method MarkTree(g: Grid, c: Call, ghost ray: seq<char>, ghost k: nat, i: int, j: int, maxHeight: char,
                  ghost vis: seq<seq<bool>>, cur: seq<seq<bool>>)
    returns (next: seq<seq<bool>>, maxHeight': char, i': int, j': int)
    requires Rect(g) && Inward(c) && At(g, i, j) != '\0'
    requires i == Cell(c, k).0 && j == Cell(c, k).1
    requires k <= |ray| && ray == ray[..k] + Ray(g, Call(i, j, c.di, c.dj))
    requires maxHeight == PrefixMax(ray, k)
    requires Shaped(g, vis) && cur == SeenMap(g, c, ray, k, vis)
    ensures i' == i + c.di && j' == j + c.dj
    ensures k + 1 <= |ray| && ray == ray[..k + 1] + Ray(g, Call(i', j', c.di, c.dj))
    ensures i' == Cell(c, k + 1).0 && j' == Cell(c, k + 1).1
    ensures maxHeight' == PrefixMax(ray, k + 1)
    ensures next == SeenMap(g, c, ray, k + 1, vis)
  {
    var t := At(g, i, j);
    RayUnfold(g, c, ray, k, i, j);
    TallerIff(ray, k);
    next := cur;
    if t > maxHeight {
      next := cur[i := cur[i][j := true]];
    }
    MarkStep(g, c, ray, k, vis, next);
    maxHeight' := if t > maxHeight then t else maxHeight;
    i', j' := i + c.di, j + c.dj;
    RayAdvance(g, c, ray, k, i, j, i', j');
  }

  /** The part 1 callback: walks one scan, marking each tree taller than
      all before it. */
  method ScanVisible(g: Grid, vis: seq<seq<bool>>, c: Call) returns (vis': seq<seq<bool>>)
    requires Rect(g) && Inward(c) && Shaped(g, vis)
    ensures vis' == HitMap(g, c, vis)
  {
    ghost var ray := Ray(g, c);
    SeenEnds(g, c, vis);
    var i, j := c.i, c.j;
    var maxHeight := '/';
    ghost var k: nat := 0;
    vis' := vis;
    while At(g, i, j) != '\0'
      invariant k <= |ray| && ray == ray[..k] + Ray(g, Call(i, j, c.di, c.dj))
      invariant i == Cell(c, k).0 && j == Cell(c, k).1
      invariant maxHeight == PrefixMax(ray, k)
      invariant vis' == SeenMap(g, c, ray, k, vis)
      decreases Dist(g, Call(i, j, c.di, c.dj))
    {
      vis', maxHeight, i, j := MarkTree(g, c, ray, k, i, j, maxHeight, vis, vis');
      k := k + 1;
    }
    assert Ray(g, Call(i, j, c.di, c.dj)) == [];
  }

  /** Visibility after a sequence of scans. */
  predicate VisAfter(g: Grid, calls: seq<Call>, a: int, b: int)
    requires Rect(g) && AllInward(calls)
  {
    calls != [] && (VisAfter(g, calls[..|calls| - 1], a, b) || Hit(g, calls[|calls| - 1], a, b))
  }

  /** The marks after a sequence of scans. */
  function VisMap(g: Grid, calls: seq<Call>): (m: seq<seq<bool>>)
    requires Rect(g) && AllInward(calls)
    ensures Shaped(g, m)
  {
    seq(|g|, a requires 0 <= a < |g| => seq(W(g), b requires 0 <= b < W(g) => VisAfter(g, calls, a, b)))
  }

  /** Before any scan nothing is marked. */
  lemma VisMapNone(g: Grid)
    requires Rect(g)
    ensures VisMap(g, []) == seq(|g|, _ => seq(W(g), _ => false))
  {
    SameMap(g, VisMap(g, []), seq(|g|, _ => seq(W(g), _ => false)));
  }

  /** One more scan adds its hits to the marks. */
  lemma VisMapStep(g: Grid, calls: seq<Call>, p: nat)
    requires Rect(g) && AllInward(calls) && p < |calls|
    ensures HitMap(g, calls[p], VisMap(g, calls[..p])) == VisMap(g, calls[..p + 1])
  {
    assert calls[..p + 1][..p] == calls[..p];
    SameMap(g, HitMap(g, calls[p], VisMap(g, calls[..p])), VisMap(g, calls[..p + 1]));
  }

  lemma {:induction false} VisAfterAppend(g: Grid, xs: seq<Call>, ys: seq<Call>, a: int, b: int)
    requires Rect(g) && AllInward(xs) && AllInward(ys)
    ensures AllInward(xs + ys)
    ensures VisAfter(g, xs + ys, a, b) == (VisAfter(g, xs, a, b) || VisAfter(g, ys, a, b))
    decreases |ys|
  {
    if ys != [] {
      assert (xs + ys)[..|xs + ys| - 1] == xs + ys[..|ys| - 1];
      VisAfterAppend(g, xs, ys[..|ys| - 1], a, b);
    } else {
      assert xs + ys == xs;
    }
  }

  lemma {:induction false} VisAfterRows(g: Grid, n: nat, a: int, b: int)
    requires Rect(g) && n <= |g|
    ensures AllInward(RowCalls(g, n))
    ensures VisAfter(g, RowCalls(g, n), a, b) == (0 <= a < n && (Hit(g, FromLeft(g, a), a, b) || Hit(g, FromRight(g, a), a, b)))
  {
    if n > 0 {
      VisAfterRows(g, n - 1, a, b);
      var xs := RowCalls(g, n - 1);
      var x, y := FromLeft(g, n - 1), FromRight(g, n - 1);
      assert RowCalls(g, n) == xs + [x] + [y];
      assert (xs + [x] + [y])[..2 * n - 1] == xs + [x];
      assert (xs + [x])[..2 * n - 2] == xs;
    }
  }

  lemma {:induction false} VisAfterCols(g: Grid, n: nat, a: int, b: int)
    requires Rect(g) && n <= W(g)
    ensures AllInward(ColCalls(g, n))
    ensures VisAfter(g, ColCalls(g, n), a, b) == (0 <= b < n && (Hit(g, FromTop(g, b), a, b) || Hit(g, FromBottom(g, b), a, b)))
  {
    if n > 0 {
      VisAfterCols(g, n - 1, a, b);
      var xs := ColCalls(g, n - 1);
      var x, y := FromTop(g, n - 1), FromBottom(g, n - 1);
      assert ColCalls(g, n) == xs + [x] + [y];
      assert (xs + [x] + [y])[..2 * n - 1] == xs + [x];
      assert (xs + [x])[..2 * n - 2] == xs;
    }
  }

  // -------------------------------------------------- the grid's view

  /** The trees between a tree and each edge, in the order a scan from
      that edge passes them. */
  function Left(g: Grid, a: nat, b: nat): seq<char>
    requires Rect(g) && a < |g| && b < W(g)
  {
    seq(b, l requires 0 <= l < b => g[a][l])
  }

  function Right(g: Grid, a: nat, b: nat): seq<char>
    requires Rect(g) && a < |g| && b < W(g)
  {
    seq(W(g) - 1 - b, l requires 0 <= l < W(g) - 1 - b => g[a][W(g) - 1 - l])
  }

  function Up(g: Grid, a: nat, b: nat): seq<char>
    requires Rect(g) && a < |g| && b < W(g)
  {
    seq(a, l requires 0 <= l < a => g[l][b])
  }

  function Down(g: Grid, a: nat, b: nat): seq<char>
    requires Rect(g) && a < |g| && b < W(g)
  {
    seq(|g| - 1 - a, l requires 0 <= l < |g| - 1 - a => g[|g| - 1 - l][b])
  }

  predicate Shorter(s: seq<char>, h: char)
  {
    forall l :: 0 <= l < |s| ==> s[l] < h
  }

  /** A tree is visible when its height is a digit (or above) and all the
      trees between it and some edge are shorter. */
  predicate Visible(g: Grid, a: nat, b: nat)
    requires Rect(g) && a < |g| && b < W(g)
  {
    var h := g[a][b];
    h > '/' &&
    (Shorter(Left(g, a, b), h) || Shorter(Right(g, a, b), h) ||
     Shorter(Up(g, a, b), h) || Shorter(Down(g, a, b), h))
  }

  /** The four scans through a cell pass, before it, exactly the trees
      between it and the scan's edge. */
  lemma PassedLines(g: Grid, a: nat, b: nat)
    requires Rect(g) && NoNul(g) && a < |g| && b < W(g)
    ensures Index(FromLeft(g, a), a, b) == Some(b)
    ensures b < |Ray(g, FromLeft(g, a))| && Ray(g, FromLeft(g, a))[..b] == Left(g, a, b)
    ensures Ray(g, FromLeft(g, a))[b] == g[a][b]
    ensures Index(FromRight(g, a), a, b) == Some(W(g) - 1 - b)
    ensures W(g) - 1 - b < |Ray(g, FromRight(g, a))| && Ray(g, FromRight(g, a))[..W(g) - 1 - b] == Right(g, a, b)
    ensures Ray(g, FromRight(g, a))[W(g) - 1 - b] == g[a][b]
    ensures Index(FromTop(g, b), a, b) == Some(a)
    ensures a < |Ray(g, FromTop(g, b))| && Ray(g, FromTop(g, b))[..a] == Up(g, a, b)
    ensures Ray(g, FromTop(g, b))[a] == g[a][b]
    ensures Index(FromBottom(g, b), a, b) == Some(|g| - 1 - a)
    ensures |g| - 1 - a < |Ray(g, FromBottom(g, b))| && Ray(g, FromBottom(g, b))[..|g| - 1 - a] == Down(g, a, b)
    ensures Ray(g, FromBottom(g, b))[|g| - 1 - a] == g[a][b]
  {
    PassedLeft(g, a, b);
    PassedRight(g, a, b);
    PassedTop(g, a, b);
    PassedBottom(g, a, b);
  }

  lemma PassedLeft(g: Grid, a: nat, b: nat)
    requires Rect(g) && NoNul(g) && a < |g| && b < W(g)
    ensures Index(FromLeft(g, a), a, b) == Some(b)
    ensures b < |Ray(g, FromLeft(g, a))| && Ray(g, FromLeft(g, a))[..b] == Left(g, a, b)
    ensures Ray(g, FromLeft(g, a))[b] == g[a][b]
  {
    var c := FromLeft(g, a);
    IndexCell(c, b, a, b);
    RayBefore(g, c, b);
    var passed, line := Passed(g, c, b), Left(g, a, b);
    forall l | 0 <= l < b
      ensures passed[l] == line[l]
    {
      assert Cell(c, l) == (a, l);
    }
    assert passed == line;
  }

  lemma PassedRight(g: Grid, a: nat, b: nat)
    requires Rect(g) && NoNul(g) && a < |g| && b < W(g)
    ensures Index(FromRight(g, a), a, b) == Some(W(g) - 1 - b)
    ensures W(g) - 1 - b < |Ray(g, FromRight(g, a))| && Ray(g, FromRight(g, a))[..W(g) - 1 - b] == Right(g, a, b)
    ensures Ray(g, FromRight(g, a))[W(g) - 1 - b] == g[a][b]
  {
    var c := FromRight(g, a);
    var k := W(g) - 1 - b;
    IndexCell(c, k, a, b);
    RayBefore(g, c, k);
    var passed, line := Passed(g, c, k), Right(g, a, b);
    forall l | 0 <= l < k
      ensures passed[l] == line[l]
    {
      assert Cell(c, l) == (a, W(g) - 1 - l);
    }
    assert passed == line;
  }

  lemma PassedTop(g: Grid, a: nat, b: nat)
    requires Rect(g) && NoNul(g) && a < |g| && b < W(g)
    ensures Index(FromTop(g, b), a, b) == Some(a)
    ensures a < |Ray(g, FromTop(g, b))| && Ray(g, FromTop(g, b))[..a] == Up(g, a, b)
    ensures Ray(g, FromTop(g, b))[a] == g[a][b]
  {
    var c := FromTop(g, b);
    IndexCell(c, a, a, b);
    RayBefore(g, c, a);
    var passed, line := Passed(g, c, a), Up(g, a, b);
    forall l | 0 <= l < a
      ensures passed[l] == line[l]
    {
      assert Cell(c, l) == (l, b);
    }
    assert passed == line;
  }

  lemma PassedBottom(g: Grid, a: nat, b: nat)
    requires Rect(g) && NoNul(g) && a < |g| && b < W(g)
    ensures Index(FromBottom(g, b), a, b) == Some(|g| - 1 - a)
    ensures |g| - 1 - a < |Ray(g, FromBottom(g, b))| && Ray(g, FromBottom(g, b))[..|g| - 1 - a] == Down(g, a, b)
    ensures Ray(g, FromBottom(g, b))[|g| - 1 - a] == g[a][b]
  {
    var c := FromBottom(g, b);
    var k := |g| - 1 - a;
    IndexCell(c, k, a, b);
    RayBefore(g, c, k);
    var passed, line := Passed(g, c, k), Down(g, a, b);
    forall l | 0 <= l < k
      ensures passed[l] == line[l]
    {
      assert Cell(c, l) == (|g| - 1 - l, b);
    }
    assert passed == line;
  }

  lemma HitIff(s: seq<char>, m: nat, before: seq<char>, h: char)
    requires m < |s| && s[..m] == before && s[m] == h
    ensures Taller(s, m) <==> h > '/' && Shorter(before, h)
  {
    assert forall l :: 0 <= l < m ==> s[l] == before[l];
  }

  /** With no NUL in the rows, the trees part 1 marks are exactly the
      visible ones. */
  lemma ScannedIsVisible(g: Grid, a: nat, b: nat)
    requires Rect(g) && NoNul(g) && a < |g| && b < W(g)
    ensures Scan4Inward(g)
    ensures VisAfter(g, Scan4(g), a, b) == Visible(g, a, b)
  {
    VisAfterRows(g, |g|, a, b);
    VisAfterCols(g, W(g), a, b);
    VisAfterAppend(g, RowCalls(g, |g|), ColCalls(g, W(g)), a, b);
    PassedLines(g, a, b);
    var h := g[a][b];
    HitIff(Ray(g, FromLeft(g, a)), b, Left(g, a, b), h);
    HitIff(Ray(g, FromRight(g, a)), W(g) - 1 - b, Right(g, a, b), h);
    HitIff(Ray(g, FromTop(g, b)), a, Up(g, a, b), h);
    HitIff(Ray(g, FromBottom(g, b)), |g| - 1 - a, Down(g, a, b), h);
  }

  predicate Scan4Inward(g: Grid)
    requires g != []
  {
    AllInward(Scan4(g))
  }

  /** A tree on the edge with a digit height is always visible. */
  lemma EdgeVisible(g: Grid, a: nat, b: nat)
    requires Rect(g) && a < |g| && b < W(g) && IsDigit(g[a][b])
    requires a == 0 || b == 0 || a == |g| - 1 || b == W(g) - 1
    ensures Visible(g, a, b)
  {
  }

  /** The part 1 map: whether some scan marked each tree. */
  function ScanMap(g: Grid): (m: seq<seq<bool>>)
    requires Rect(g)
    ensures Shaped(g, m)
  {
    Scan4Calls(g);
    VisMap(g, Scan4(g))
  }

  /** The cells of a map that hold true. */
  function Marked(m: seq<seq<bool>>): set<(int, int)>
  {
    set a, b | 0 <= a < |m| && 0 <= b < |m[a]| && m[a][b] :: (a, b)
  }

  /** The true cells in the rows before a, and in row a before column b. */
  function MarkedBefore(m: seq<seq<bool>>, a: int, b: int): set<(int, int)>
  {
    set r, c | 0 <= r < |m| && 0 <= c < |m[r]| && (r < a || (r == a && c < b)) && m[r][c] :: (r, c)
  }

  lemma MarkedStep(m: seq<seq<bool>>, a: nat, b: nat)
    requires a < |m| && b < |m[a]|
    ensures |MarkedBefore(m, a, b + 1)| == |MarkedBefore(m, a, b)| + (if m[a][b] then 1 else 0)
  {
    if m[a][b] {
      assert MarkedBefore(m, a, b + 1) == MarkedBefore(m, a, b) + {(a, b)};
    } else {
      assert MarkedBefore(m, a, b + 1) == MarkedBefore(m, a, b);
    }
  }

  lemma MarkedRow(m: seq<seq<bool>>, a: nat)
    requires a < |m|
    ensures MarkedBefore(m, a, |m[a]|) == MarkedBefore(m, a + 1, 0)
  {
  }

  /** The part 1 count: every marked tree once. */
  method CountMarked(m: seq<seq<bool>>) returns (n: nat)
    ensures n == |Marked(m)|
  {
    n := 0;
    for a := 0 to |m|
      invariant n == |MarkedBefore(m, a, 0)|
    {
      for b := 0 to |m[a]|
        invariant n == |MarkedBefore(m, a, b)|
      {
        MarkedStep(m, a, b);
        if m[a][b] {
          n := n + 1;
        }
      }
      MarkedRow(m, a);
    }
    assert MarkedBefore(m, |m|, 0) == Marked(m);
  }

  /** The map of visible trees. */
  function VisibleMap(g: Grid): (m: seq<seq<bool>>)
    requires Rect(g)
  {
    seq(|g|, a requires 0 <= a < |g| => seq(W(g), b requires 0 <= b < W(g) => Visible(g, a, b)))
  }

  /** part1: None when the rows differ in length; otherwise the number of
      trees some scan marked, which with no NUL in the rows is the number
      of visible trees. */
  method Part1(lines: seq<string>) returns (ans: Option<nat>)
    requires lines != []
    ensures ans.None? <==> !Rect(lines)
    ensures ans.Some? ==> ans.value == |Marked(ScanMap(lines))|
    ensures ans.Some? && NoNul(lines) ==> ans.value == |Marked(VisibleMap(lines))|
  {
    if !Rect(lines) {
      return None;
    }
    var g := lines;
    var vis := seq(|g|, _ => seq(W(g), _ => false));
    Scan4Calls(g);
    var calls := Scan4(g);
    VisMapNone(g);
    assert calls[..0] == [];
    for p := 0 to |calls|
      invariant vis == VisMap(g, calls[..p])
    {
      VisMapStep(g, calls, p);
      vis := ScanVisible(g, vis, calls[p]);
    }
    assert calls[..|calls|] == calls;
    var n := CountMarked(vis);
    ans := Some(n);
    if NoNul(g) {
      forall a, b | 0 <= a < |g| && 0 <= b < W(g)
        ensures vis[a][b] == VisibleMap(g)[a][b]
      {
        ScannedIsVisible(g, a, b);
      }
      SameMap(g, vis, VisibleMap(g));
    }
  }

  // ---------------------------------------------------------- part 2

  /** How many trees a tree of height h sees looking back over s (the
      nearest last): up to and including the first at least as tall, or
      all of them. */
  function ViewBack(s: seq<char>, h: char): nat
  {
    if s == [] then 0
    else if s[|s| - 1] >= h then 1
    else 1 + ViewBack(s[..|s| - 1], h)
  }

  /** The viewing distance: no trees at the edge; otherwise every tree
      inside the distance is shorter, and the one at the distance blocks
      the view unless it is the edge. */
  lemma {:induction false} ViewBackSpec(s: seq<char>, h: char)
    ensures s == [] ==> ViewBack(s, h) == 0
    ensures s != [] ==>
      var v := ViewBack(s, h);
      1 <= v <= |s| &&
      (forall l :: |s| - v < l < |s| ==> s[l] < h) &&
      (v == |s| || s[|s| - v] >= h)
  {
    if s != [] && s[|s| - 1] < h {
      var init := s[..|s| - 1];
      ViewBackSpec(init, h);
      assert forall l :: 0 <= l < |init| ==> init[l] == s[l];
    }
  }

  /** The height character for digit d. */
  function Digit(d: int): char
    requires 0 <= d < 10
  {
    (48 + d) as char
  }

  /** The num_seen update after a tree of height t: trees up to t see
      only it, taller ones see one tree more. */
  method UpdateSeen(numSeen: seq<nat>, t: int) returns (r: seq<nat>)
    requires |numSeen| == 10 && 0 <= t < 10
    ensures |r| == 10 && forall d :: 0 <= d < 10 ==> r[d] == if d <= t then 1 else numSeen[d] + 1
  {
    r := numSeen;
    for small := 0 to t + 1
      invariant |r| == 10
      invariant forall d :: 0 <= d < 10 ==> r[d] == if d < small then 1 else numSeen[d]
    {
      r := r[small := 1];
    }
    for big := t + 1 to 10
      invariant |r| == 10
      invariant forall d :: 0 <= d < 10 ==> r[d] == if d <= t then 1 else if d < big then numSeen[d] + 1 else numSeen[d]
    {
      r := r[big := r[big] + 1];
    }
  }

  /** The factor the first k trees of a scan contribute to a cell's
      score: its view back when it is among them, 1 otherwise. */
  function Factor(c: Call, ray: seq<char>, k: nat, a: int, b: int): nat
  {
    match Index(c, a, b)
    case Some(m) => if m < k && m < |ray| then ViewBack(ray[..m], ray[m]) else 1
    case None => 1
  }

  /** The factor a whole scan contributes to a cell's scenic score. */
  function View(g: Grid, c: Call, a: int, b: int): nat
    requires Rect(g) && Inward(c)
  {
    Factor(c, Ray(g, c), |Ray(g, c)|, a, b)
  }

  /** The scores once the first k trees of a scan have been looked at,
      over the scores the scan started from. */
  function FactorMap(g: Grid, c: Call, ray: seq<char>, k: nat, score: seq<seq<nat>>): (m: seq<seq<nat>>)
    requires Rect(g) && Shaped(g, score)
    ensures Shaped(g, m)
  {
    seq(|g|, a requires 0 <= a < |g| => seq(W(g), b requires 0 <= b < W(g) => Times(score[a][b], Factor(c, ray, k, a, b))))
  }

  /** The scores a whole scan leaves over score. */
  function ViewMap(g: Grid, c: Call, score: seq<seq<nat>>): (m: seq<seq<nat>>)
    requires Rect(g) && Inward(c) && Shaped(g, score)
    ensures Shaped(g, m)
  {
    seq(|g|, a requires 0 <= a < |g| => seq(W(g), b requires 0 <= b < W(g) => Times(score[a][b], View(g, c, a, b))))
  }

  /** Before the first tree every score is as it was; after the last,
      each is multiplied by the scan's view. */
  lemma FactorEnds(g: Grid, c: Call, score: seq<seq<nat>>)
    requires Rect(g) && Inward(c) && Shaped(g, score)
    ensures FactorMap(g, c, Ray(g, c), 0, score) == score
    ensures FactorMap(g, c, Ray(g, c), |Ray(g, c)|, score) == ViewMap(g, c, score)
  {
    forall a, b | 0 <= a < |g| && 0 <= b < W(g)
      ensures FactorMap(g, c, Ray(g, c), 0, score)[a][b] == score[a][b]
    {
      TimesOne(score[a][b]);
    }
    SameMap(g, FactorMap(g, c, Ray(g, c), 0, score), score);
    SameMap(g, FactorMap(g, c, Ray(g, c), |Ray(g, c)|, score), ViewMap(g, c, score));
  }

  /** Multiplying the k-th tree's score by num_seen for its height
      extends the factors by one tree of the scan. */
  lemma ScoreStep(g: Grid, c: Call, ray: seq<char>, k: nat, seen: nat, score: seq<seq<nat>>, next: seq<seq<nat>>)
    requires Rect(g) && Inward(c) && k < |ray| && Valid(g, Cell(c, k).0, Cell(c, k).1)
    requires Shaped(g, score)
    requires seen == ViewBack(ray[..k], ray[k])
    requires var cur := FactorMap(g, c, ray, k, score);
      Shaped(g, next) && next[Cell(c, k).0][Cell(c, k).1] == Times(cur[Cell(c, k).0][Cell(c, k).1], seen) &&
      forall a, b :: 0 <= a < |g| && 0 <= b < W(g) && (a, b) != Cell(c, k) ==> next[a][b] == cur[a][b]
    ensures next == FactorMap(g, c, ray, k + 1, score)
  {
    forall a, b | 0 <= a < |g| && 0 <= b < W(g)
      ensures next[a][b] == FactorMap(g, c, ray, k + 1, score)[a][b]
    {
      IndexCell(c, k, a, b);
      if (a, b) == Cell(c, k) {
        TimesOne(score[a][b]);
        assert Factor(c, ray, k, a, b) == 1;
        assert Factor(c, ray, k + 1, a, b) == seen;
      } else {
        assert Factor(c, ray, k + 1, a, b) == Factor(c, ray, k, a, b);
      }
    }
    SameMap(g, next, FactorMap(g, c, ray, k + 1, score));
  }

  /** After tree t, num_seen for each height is its view back over one
      tree more. */
  lemma ViewBackStep(s: seq<char>, k: nat, t: int, numSeen: seq<nat>, r: seq<nat>)
    requires k < |s| && 0 <= t < 10 && s[k] == Digit(t)
    requires |numSeen| == 10 && forall d :: 0 <= d < 10 ==> numSeen[d] == ViewBack(s[..k], Digit(d))
    requires |r| == 10 && forall d :: 0 <= d < 10 ==> r[d] == if d <= t then 1 else numSeen[d] + 1
    ensures forall d :: 0 <= d < 10 ==> r[d] == ViewBack(s[..k + 1], Digit(d))
  {
    assert s[..k + 1][..k] == s[..k];
  }

  lemma DigitsSnoc(s: seq<char>, k: nat)
    requires k < |s| && AllDigits(s[..k]) && IsDigit(s[k])
    ensures AllDigits(s[..k + 1])
  {
    var t := s[..k + 1];
    forall l | 0 <= l < |t|
      ensures IsDigit(t[l])
    {
      if l < k {
        assert t[l] == s[..k][l];
      }
    }
  }

  /** score[i][j] *= f. */
  method MultiplyAt(g: Grid, cur: seq<seq<nat>>, i: int, j: int, f: nat) returns (next: seq<seq<nat>>)
    requires Rect(g) && Shaped(g, cur) && Valid(g, i, j)
    ensures Shaped(g, next) && next[i][j] == Times(cur[i][j], f)
    ensures forall a, b :: 0 <= a < |g| && 0 <= b < W(g) && (a, b) != (i, j) ==> next[a][b] == cur[a][b]
  {
    var product: nat := cur[i][j] * f;
    TimesIsProduct(cur[i][j], f);
    var row: seq<nat> := cur[i][j := product];
    next := cur[i := row];
  }

  /** One turn of the part 2 scan loop on a digit height: multiply the
      tree's score by num_seen for its height, then update num_seen. */
  method ScoreTree(g: Grid, c: Call, ghost ray: seq<char>, ghost k: nat, i: int, j: int, numSeen: seq<nat>,
                   ghost score: seq<seq<nat>>, cur: seq<seq<nat>>)
    returns (next: seq<seq<nat>>, numSeen': seq<nat>, i': int, j': int)
    requires Rect(g) && Inward(c) && IsDigit(At(g, i, j))
    requires i == Cell(c, k).0 && j == Cell(c, k).1
    requires k <= |ray| && ray == ray[..k] + Ray(g, Call(i, j, c.di, c.dj))
    requires AllDigits(ray[..k])
    requires |numSeen| == 10 && forall d :: 0 <= d < 10 ==> numSeen[d] == ViewBack(ray[..k], Digit(d))
    requires Shaped(g, score) && cur == FactorMap(g, c, ray, k, score)
    ensures i' == i + c.di && j' == j + c.dj
    ensures k + 1 <= |ray| && ray == ray[..k + 1] + Ray(g, Call(i', j', c.di, c.dj))
    ensures i' == Cell(c, k + 1).0 && j' == Cell(c, k + 1).1
    ensures AllDigits(ray[..k + 1])
    ensures |numSeen'| == 10 && forall d :: 0 <= d < 10 ==> numSeen'[d] == ViewBack(ray[..k + 1], Digit(d))
    ensures next == FactorMap(g, c, ray, k + 1, score)
  {
    var t := At(g, i, j);
    RayUnfold(g, c, ray, k, i, j);
    DigitsSnoc(ray, k);
    var d := t as int - '0' as int;
    assert Digit(d) == t;
    next := MultiplyAt(g, cur, i, j, numSeen[d]);
    ScoreStep(g, c, ray, k, numSeen[d], score, next);
    numSeen' := UpdateSeen(numSeen, d);
    ViewBackStep(ray, k, d, numSeen, numSeen');
    i', j' := i + c.di, j + c.dj;
    RayAdvance(g, c, ray, k, i, j, i', j');
  }

  /** The part 2 callback: multiplies each tree's score by how far it
      sees back along the scan; None when a height is not a digit. */
  method ScanScenic(g: Grid, score: seq<seq<nat>>, c: Call) returns (r: Option<seq<seq<nat>>>)
    requires Rect(g) && Inward(c) && Shaped(g, score)
    ensures r.None? <==> !AllDigits(Ray(g, c))
    ensures r.Some? ==> r.value == ViewMap(g, c, score)
  {
    ghost var ray := Ray(g, c);
    FactorEnds(g, c, score);
    var i, j := c.i, c.j;
    var numSeen: seq<nat> := [0, 0, 0, 0, 0, 0, 0, 0, 0, 0];
    ghost var k: nat := 0;
    var s := score;
    while At(g, i, j) != '\0'
      invariant k <= |ray| && ray == ray[..k] + Ray(g, Call(i, j, c.di, c.dj))
      invariant i == Cell(c, k).0 && j == Cell(c, k).1
      invariant AllDigits(ray[..k])
      invariant |numSeen| == 10 && forall d :: 0 <= d < 10 ==> numSeen[d] == ViewBack(ray[..k], Digit(d))
      invariant s == FactorMap(g, c, ray, k, score)
      decreases Dist(g, Call(i, j, c.di, c.dj))
    {
      if !IsDigit(At(g, i, j)) {
        RayUnfold(g, c, ray, k, i, j);
        return None;
      }
      s, numSeen, i, j := ScoreTree(g, c, ray, k, i, j, numSeen, score, s);
      k := k + 1;
    }
    assert Ray(g, Call(i, j, c.di, c.dj)) == [];
    assert ray[..k] == ray;
    r := Some(s);
  }

  /** Scores after a sequence of scans, from 1. */
  function ScoreAfter(g: Grid, calls: seq<Call>, a: int, b: int): nat
    requires Rect(g) && AllInward(calls)
  {
    if calls == [] then 1
    else Times(ScoreAfter(g, calls[..|calls| - 1], a, b), View(g, calls[|calls| - 1], a, b))
  }

  /** The scores after a sequence of scans. */
  function ScoresAfter(g: Grid, calls: seq<Call>): (m: seq<seq<nat>>)
    requires Rect(g) && AllInward(calls)
    ensures Shaped(g, m)
  {
    seq(|g|, a requires 0 <= a < |g| => seq(W(g), b requires 0 <= b < W(g) => ScoreAfter(g, calls, a, b)))
  }

  /** Before any scan every score is 1. */
  lemma ScoresAfterNone(g: Grid)
    requires Rect(g)
    ensures ScoresAfter(g, []) == seq(|g|, _ => seq(W(g), _ => 1))
  {
    SameMap(g, ScoresAfter(g, []), seq(|g|, _ => seq(W(g), _ => 1)));
  }

  /** One more scan multiplies the scores by its views. */
  lemma ScoresAfterStep(g: Grid, calls: seq<Call>, p: nat)
    requires Rect(g) && AllInward(calls) && p < |calls|
    ensures ViewMap(g, calls[p], ScoresAfter(g, calls[..p])) == ScoresAfter(g, calls[..p + 1])
  {
    assert calls[..p + 1][..p] == calls[..p];
    SameMap(g, ViewMap(g, calls[p], ScoresAfter(g, calls[..p])), ScoresAfter(g, calls[..p + 1]));
  }

  lemma {:induction false} ScoreAfterAppend(g: Grid, xs: seq<Call>, ys: seq<Call>, a: int, b: int)
    requires Rect(g) && AllInward(xs) && AllInward(ys)
    ensures AllInward(xs + ys)
    ensures ScoreAfter(g, xs + ys, a, b) == Times(ScoreAfter(g, xs, a, b), ScoreAfter(g, ys, a, b))
    decreases |ys|
  {
    if ys != [] {
      var init, last := ys[..|ys| - 1], ys[|ys| - 1];
      assert (xs + ys)[..|xs + ys| - 1] == xs + init;
      ScoreAfterAppend(g, xs, init, a, b);
      var p, q, v := ScoreAfter(g, xs, a, b), ScoreAfter(g, init, a, b), View(g, last, a, b);
      assert ScoreAfter(g, xs + ys, a, b) == Times(ScoreAfter(g, xs + init, a, b), v);
      assert ScoreAfter(g, ys, a, b) == Times(q, v);
      TimesAssoc(p, q, v);
    } else {
      assert xs + ys == xs;
    }
  }

  lemma {:induction false} ScoreAfterRows(g: Grid, n: nat, a: int, b: int)
    requires Rect(g) && n <= |g|
    ensures AllInward(RowCalls(g, n))
    ensures ScoreAfter(g, RowCalls(g, n), a, b) ==
      if 0 <= a < n then Times(View(g, FromLeft(g, a), a, b), View(g, FromRight(g, a), a, b)) else 1
  {
    if n > 0 {
      ScoreAfterRows(g, n - 1, a, b);
      var xs := RowCalls(g, n - 1);
      var x, y := FromLeft(g, n - 1), FromRight(g, n - 1);
      assert RowCalls(g, n) == xs + [x] + [y];
      assert (xs + [x] + [y])[..2 * n - 1] == xs + [x];
      assert (xs + [x])[..2 * n - 2] == xs;
      var p, vx, vy := ScoreAfter(g, xs, a, b), View(g, x, a, b), View(g, y, a, b);
      TimesOne(p);
      TimesOne(Times(p, vx));
      TimesUnit(vx);
    }
  }

  lemma {:induction false} ScoreAfterCols(g: Grid, n: nat, a: int, b: int)
    requires Rect(g) && n <= W(g)
    ensures AllInward(ColCalls(g, n))
    ensures ScoreAfter(g, ColCalls(g, n), a, b) ==
      if 0 <= b < n then Times(View(g, FromTop(g, b), a, b), View(g, FromBottom(g, b), a, b)) else 1
  {
    if n > 0 {
      ScoreAfterCols(g, n - 1, a, b);
      var xs := ColCalls(g, n - 1);
      var x, y := FromTop(g, n - 1), FromBottom(g, n - 1);
      assert ColCalls(g, n) == xs + [x] + [y];
      assert (xs + [x] + [y])[..2 * n - 1] == xs + [x];
      assert (xs + [x])[..2 * n - 2] == xs;
      var p, vx, vy := ScoreAfter(g, xs, a, b), View(g, x, a, b), View(g, y, a, b);
      TimesOne(p);
      TimesOne(Times(p, vx));
      TimesUnit(vx);
    }
  }

  /** The scenic score: the product of the viewing distances toward the
      four edges. */
  function Scenic(g: Grid, a: nat, b: nat): nat
    requires Rect(g) && a < |g| && b < W(g)
  {
    var h := g[a][b];
    Times(Times(Times(ViewBack(Left(g, a, b), h), ViewBack(Right(g, a, b), h)),
                ViewBack(Up(g, a, b), h)), ViewBack(Down(g, a, b), h))
  }

  /** With no NUL in the rows, the scores part 2 computes are the scenic
      scores. */
  lemma ScoredIsScenic(g: Grid, a: nat, b: nat)
    requires Rect(g) && NoNul(g) && a < |g| && b < W(g)
    ensures Scan4Inward(g)
    ensures ScoreAfter(g, Scan4(g), a, b) == Scenic(g, a, b)
  {
    ScoreAfterRows(g, |g|, a, b);
    ScoreAfterCols(g, W(g), a, b);
    ScoreAfterAppend(g, RowCalls(g, |g|), ColCalls(g, W(g)), a, b);
    PassedLines(g, a, b);
    var h := g[a][b];
    var l, r, u, d := ViewBack(Left(g, a, b), h), ViewBack(Right(g, a, b), h),
      ViewBack(Up(g, a, b), h), ViewBack(Down(g, a, b), h);
    assert View(g, FromLeft(g, a), a, b) == l;
    assert View(g, FromRight(g, a), a, b) == r;
    assert View(g, FromTop(g, b), a, b) == u;
    assert View(g, FromBottom(g, b), a, b) == d;
    assert ScoreAfter(g, Scan4(g), a, b) == Times(Times(l, r), Times(u, d));
    TimesAssoc(Times(l, r), u, d);
  }

  /** A tree on the edge sees nothing toward it: its scenic score is 0. */
  lemma EdgeScenic(g: Grid, a: nat, b: nat)
    requires Rect(g) && a < |g| && b < W(g)
    requires a == 0 || b == 0 || a == |g| - 1 || b == W(g) - 1
    ensures Scenic(g, a, b) == 0
  {
    var h := g[a][b];
    var l, r, u, d := ViewBack(Left(g, a, b), h), ViewBack(Right(g, a, b), h),
      ViewBack(Up(g, a, b), h), ViewBack(Down(g, a, b), h);
    assert l == 0 || r == 0 || u == 0 || d == 0;
    TimesUnit(r);
    TimesUnit(u);
    TimesUnit(d);
    TimesOne(l);
    TimesOne(Times(l, r));
    TimesOne(Times(Times(l, r), u));
  }

  /** Every height on the grid is a digit. */
  predicate DigitGrid(g: Grid)
  {
    forall r, c :: 0 <= r < |g| && 0 <= c < |g[r]| ==> IsDigit(g[r][c])
  }

  /** The scans see every cell, so with no NUL part 2's assert holds on
      every scan exactly when every height is a digit. */
  lemma RaysDigits(g: Grid)
    requires Rect(g) && NoNul(g)
    ensures Scan4Inward(g)
    ensures (forall q :: 0 <= q < |Scan4(g)| ==> AllDigits(Ray(g, Scan4(g)[q]))) <==> DigitGrid(g)
  {
    Scan4Calls(g);
    var calls := Scan4(g);
    if DigitGrid(g) {
      forall q | 0 <= q < |calls|
        ensures AllDigits(Ray(g, calls[q]))
      {
        RayDigits(g, calls[q]);
      }
    } else {
      var a, b :| 0 <= a < |g| && 0 <= b < |g[a]| && !IsDigit(g[a][b]);
      PassedLines(g, a, b);
      var q := 2 * a;
      assert calls[q] == RowCalls(g, |g|)[q];
      RowCallAt(g, |g|, a);
      assert !AllDigits(Ray(g, calls[q]));
    }
  }

  lemma {:induction false} RowCallAt(g: Grid, n: nat, a: nat)
    requires g != [] && a < n
    ensures RowCalls(g, n)[2 * a] == FromLeft(g, a)
  {
    if a < n - 1 {
      RowCallAt(g, n - 1, a);
      assert RowCalls(g, n) == RowCalls(g, n - 1) + [FromLeft(g, n - 1), FromRight(g, n - 1)];
    }
  }

  lemma {:induction false} RayDigits(g: Grid, c: Call)
    requires Rect(g) && Inward(c) && DigitGrid(g)
    ensures AllDigits(Ray(g, c))
    decreases Dist(g, c)
  {
    if At(g, c.i, c.j) != '\0' {
      RayDigits(g, Next(c));
    }
  }

  /** m is the largest entry of the map, or 0 when the map is empty. */
  predicate IsLargest(m: nat, score: seq<seq<nat>>)
  {
    (forall a, b :: 0 <= a < |score| && 0 <= b < |score[a]| ==> score[a][b] <= m) &&
    (m == 0 || exists a, b :: 0 <= a < |score| && 0 <= b < |score[a]| && score[a][b] == m)
  }

  /** The part 2 answer loop: the largest score, starting from 0. */
  method MaxScore(score: seq<seq<nat>>) returns (m: nat)
    ensures IsLargest(m, score)
  {
    m := 0;
    for a := 0 to |score|
      invariant forall r, c :: 0 <= r < a && 0 <= c < |score[r]| ==> score[r][c] <= m
      invariant m == 0 || exists r, c :: 0 <= r < |score| && 0 <= c < |score[r]| && score[r][c] == m
    {
      for b := 0 to |score[a]|
        invariant forall r, c :: 0 <= r < a && 0 <= c < |score[r]| ==> score[r][c] <= m
        invariant forall c :: 0 <= c < b ==> score[a][c] <= m
        invariant m == 0 || exists r, c :: 0 <= r < |score| && 0 <= c < |score[r]| && score[r][c] == m
      {
        m := Max(m, score[a][b]);
      }
    }
  }

  /** The part 2 scores: the product of what every scan contributed. */
  function ScoreMap(g: Grid): (m: seq<seq<nat>>)
    requires Rect(g)
    ensures Shaped(g, m)
  {
    Scan4Calls(g);
    ScoresAfter(g, Scan4(g))
  }

  function ScenicMap(g: Grid): (m: seq<seq<nat>>)
    requires Rect(g)
  {
    seq(|g|, a requires 0 <= a < |g| => seq(W(g), b requires 0 <= b < W(g) => Scenic(g, a, b)))
  }

  /** The scans all pass their assert. */
  predicate ScansDigits(g: Grid)
    requires Rect(g)
  {
    Scan4Calls(g);
    forall q :: 0 <= q < |Scan4(g)| ==> AllDigits(Ray(g, Scan4(g)[q]))
  }

  /** The part 2 loop over the scans: None when one of them fails its
      assert, otherwise the scores. */
  method ScoreAll(g: Grid) returns (r: Option<seq<seq<nat>>>)
    requires Rect(g)
    ensures r.None? <==> !ScansDigits(g)
    ensures r.Some? ==> r.value == ScoreMap(g)
  {
    var score := seq(|g|, _ => seq(W(g), _ => 1));
    Scan4Calls(g);
    var calls := Scan4(g);
    ScoresAfterNone(g);
    assert calls[..0] == [];
    for p := 0 to |calls|
      invariant forall q :: 0 <= q < p ==> AllDigits(Ray(g, calls[q]))
      invariant score == ScoresAfter(g, calls[..p])
    {
      ScoresAfterStep(g, calls, p);
      var next := ScanScenic(g, score, calls[p]);
      if next.None? {
        return None;
      }
      score := next.value;
    }
    assert calls[..|calls|] == calls;
    r := Some(score);
  }

  /** part2: None when the rows differ in length or a scan meets a height
      that is not a digit (with no NUL in the rows: some height is not a
      digit); otherwise the largest score, which with no NUL in the rows
      is the largest scenic score. */
  method Part2(lines: seq<string>) returns (ans: Option<nat>)
    requires lines != []
    ensures ans.None? <==> !Rect(lines) || !ScansDigits(lines)
    ensures Rect(lines) && NoNul(lines) ==> (ans.None? <==> !DigitGrid(lines))
    ensures ans.Some? ==> IsLargest(ans.value, ScoreMap(lines))
    ensures ans.Some? && NoNul(lines) ==> IsLargest(ans.value, ScenicMap(lines))
  {
    if !Rect(lines) {
      return None;
    }
    var g := lines;
    if NoNul(g) {
      RaysDigits(g);
    }
    var score := ScoreAll(g);
    if score.None? {
      return None;
    }
    var m := MaxScore(score.value);
    ans := Some(m);
    if NoNul(g) {
      forall a, b | 0 <= a < |g| && 0 <= b < W(g)
        ensures score.value[a][b] == ScenicMap(g)[a][b]
      {
        ScoredIsScenic(g, a, b);
      }
      SameMap(g, score.value, ScenicMap(g));
    }
  }
}
