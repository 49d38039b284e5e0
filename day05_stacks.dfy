/** Supply stacks: a drawing of crate stacks is parsed into one string per
    stack (index 0 the bottom crate), then a crane carries out moves
    "move count from a to b". The CrateMover 9000 (part1) lifts one crate
    at a time, the CrateMover 9001 (part2) lifts them all at once. The
    answer is the top crate of every stack. */
module SupplyStacks {
  import opened Common
  import opened Ordering

  // ------------------------------------------------------------ read_stacks

  /** The crate, if any, a drawing line shows for stack i: the character
      in column 4i+1, with a space meaning no crate. */
  function Item(line: string, i: nat): string
    requires 4 * i + 1 < |line|
  {
    if line[4 * i + 1] != ' ' then [line[4 * i + 1]] else []
  }

  /** The stack i that the layer lines build: the bottom line (the last)
      is pushed first, so the crates appear bottom first. */
  function Column(layers: seq<string>, i: nat): (s: string)
    requires forall k :: 0 <= k < |layers| ==> 4 * i + 1 < |layers[k]|
    ensures |s| <= |layers|
  {
    if layers == [] then [] else Column(layers[1..], i) + Item(layers[0], i)
  }

  /** No stack holds a space: blanks in the drawing are skipped. */
  lemma {:induction false} ColumnHasNoSpaces(layers: seq<string>, i: nat)
    requires forall k :: 0 <= k < |layers| ==> 4 * i + 1 < |layers[k]|
    ensures ' ' !in Column(layers, i)
    decreases |layers|
  {
    if layers != [] {
      ColumnHasNoSpaces(layers[1..], i);
    }
  }

  /** The crate drawn in the bottom line for stack i, if any, sits at the
      bottom of stack i. */
  lemma ColumnBottom(layers: seq<string>, i: nat)
    requires forall k :: 0 <= k < |layers| ==> 4 * i + 1 < |layers[k]|
    requires layers != [] && layers[|layers| - 1][4 * i + 1] != ' '
    ensures Column(layers, i) != [] && Column(layers, i)[0] == layers[|layers| - 1][4 * i + 1]
    decreases |layers|
  {
    if |layers| > 1 {
      ColumnBottom(layers[1..], i);
    }
  }

  /** What read_stacks asserts of the lines before the first blank one: the
      last one holds the labels, whose length is 4n - 1 for n stacks, and
      every line above it has the same length. */
  predicate WellDrawn(lines: seq<string>)
  {
    lines != [] &&
    (|lines[|lines| - 1]| + 1) % 4 == 0 &&
    forall k :: 0 <= k < |lines| - 1 ==> |lines[k]| == |lines[|lines| - 1]|
  }

  function NumStacks(lines: seq<string>): nat
    requires WellDrawn(lines)
  {
    (|lines[|lines| - 1]| + 1) / 4
  }

  /** Every stack's column lies inside every line. */
  lemma ColumnsInside(lines: seq<string>, i: nat)
    requires WellDrawn(lines) && i < NumStacks(lines)
    ensures forall k :: 0 <= k < |lines| - 1 ==> 4 * i + 1 < |lines[k]|
  {
    var len := |lines[|lines| - 1]|;
    assert len + 1 == 4 * ((len + 1) / 4);
  }

  /** The inner for loop of read_stacks: push each stack's crate of one
      layer line. */
  method PushLayer(stacks: seq<string>, line: string) returns (stacks': seq<string>)
    requires 4 * |stacks| - 1 <= |line|
    ensures |stacks'| == |stacks|
    ensures forall i :: 0 <= i < |stacks| ==> stacks'[i] == stacks[i] + Item(line, i)
  {
    stacks' := stacks;
    for i := 0 to |stacks|
      invariant |stacks'| == |stacks|
      invariant forall j :: 0 <= j < i ==> stacks'[j] == stacks[j] + Item(line, j)
      invariant forall j :: i <= j < |stacks| ==> stacks'[j] == stacks[j]
    {
      var item := line[4 * i + 1];
      if item != ' ' {
        stacks' := stacks'[i := stacks'[i] + [item]];
      }
    }
  }

  /** read_stacks: the label line fixes the number of stacks, then the
      layer lines are popped from the bottom up and pushed onto the
      stacks. */
  method ReadStacks(lines: seq<string>) returns (stacks: seq<string>)
    requires WellDrawn(lines)
    ensures |stacks| == NumStacks(lines)
    ensures forall i :: 0 <= i < |stacks| ==>
      (ColumnsInside(lines, i); stacks[i] == Column(lines[..|lines| - 1], i))
  {
    var labels := lines[|lines| - 1];
    var numStacks := (|labels| + 1) / 4;
    assert |labels| + 1 == 4 * numStacks;
    var layers := lines[..|lines| - 1];
    stacks := seq(numStacks, _ => "");
    while layers != []
      invariant |layers| <= |lines| - 1 && layers == lines[..|layers|]
      invariant |stacks| == numStacks
      invariant forall i :: 0 <= i < numStacks ==>
        (ColumnsInside(lines, i); stacks[i] == Column(lines[|layers|..|lines| - 1], i))
    {
      var line := layers[|layers| - 1];
      var below := lines[|layers|..|lines| - 1];
      layers := layers[..|layers| - 1];
      assert lines[|layers|..|lines| - 1][1..] == below;
      stacks := PushLayer(stacks, line);
    }
  }

  // ------------------------------------------------------------ the moves

  datatype Crane = CrateMover9000 | CrateMover9001

  /** A parsed move, stack numbers 1-based as in the input. */
  datatype Move = Move(count: nat, from: int, to: int)

  /** The asserts of crane_sim: both stack numbers exist. */
  predicate ValidMove(m: Move, numStacks: nat)
  {
    1 <= m.from <= numStacks && 1 <= m.to <= numStacks
  }

  /** The asserts inside the move functions. The part1 crane pops and
      pushes one crate at a time, so when both stacks are the same it only
      needs one crate to be there; the part2 crane needs count crates. */
  predicate CanMove(stacks: seq<string>, count: nat, from: nat, to: nat, crane: Crane)
    requires from < |stacks| && to < |stacks|
  {
    match crane
    case CrateMover9000 => if from == to then count == 0 || stacks[from] != [] else count <= |stacks[from]|
    case CrateMover9001 => count <= |stacks[from]|
  }

  /** The crates as they land: the part1 crane moves them one by one, so
      the top crate ends up lowest. */
  function Lifted(crates: string, crane: Crane): (r: string)
    ensures |r| == |crates|
  {
    if crane == CrateMover9000 then Reverse(crates) else crates
  }

  /** The stacks after a move, with 0-based stack numbers. Moving within
      one stack leaves it as it was; otherwise the top count crates leave
      from and land on to, reversed by the part1 crane. */
  function AfterMove(stacks: seq<string>, count: nat, from: nat, to: nat, crane: Crane): seq<string>
    requires from < |stacks| && to < |stacks| && CanMove(stacks, count, from, to, crane)
  {
    if from == to then stacks
    else stacks[from := stacks[from][..|stacks[from]| - count]]
               [to := stacks[to] + Lifted(stacks[from][|stacks[from]| - count..], crane)]
  }

  /** The height of every stack. */
  function Heights(stacks: seq<string>): (h: seq<int>)
    ensures |h| == |stacks|
  {
    seq(|stacks|, i requires 0 <= i < |stacks| => |stacks[i]|)
  }

  /** The total number of crates. */
  function Crates(stacks: seq<string>): int
  {
    Sum(Heights(stacks))
  }

  /** A move keeps the number of stacks, and touches only the from and to
      stacks. */
  lemma MoveTouchesTwo(stacks: seq<string>, count: nat, from: nat, to: nat, crane: Crane)
    requires from < |stacks| && to < |stacks| && CanMove(stacks, count, from, to, crane)
    ensures |AfterMove(stacks, count, from, to, crane)| == |stacks|
    ensures forall j :: 0 <= j < |stacks| && j != from && j != to ==>
      AfterMove(stacks, count, from, to, crane)[j] == stacks[j]
  {
  }

  /** A move keeps every crate. */
  lemma MoveKeepsCrates(stacks: seq<string>, count: nat, from: nat, to: nat, crane: Crane)
    requires from < |stacks| && to < |stacks| && CanMove(stacks, count, from, to, crane)
    ensures Crates(AfterMove(stacks, count, from, to, crane)) == Crates(stacks)
  {
    if from != to {
      var src := stacks[from];
      var left := src[..|src| - count];
      var landed := stacks[to] + Lifted(src[|src| - count..], crane);
      var h := Heights(stacks);
      assert Heights(AfterMove(stacks, count, from, to, crane)) == h[from := |left|][to := |landed|];
      SumUpdate(h, from, |left|);
      SumUpdate(h[from := |left|], to, |landed|);
    }
  }

  /** Both cranes take the same crates off the from stack and land the
      same crates on the to stack, but the part1 crane leaves the deepest
      moved crate on top while the part2 crane keeps the old top on top. */
  lemma CranesDiffer(stacks: seq<string>, count: nat, from: nat, to: nat)
    requires from < |stacks| && to < |stacks| && from != to && 0 < count <= |stacks[from]|
    ensures var a := AfterMove(stacks, count, from, to, CrateMover9000);
      var b := AfterMove(stacks, count, from, to, CrateMover9001);
      a[from] == b[from] && multiset(a[to]) == multiset(b[to]) &&
      a[to][|a[to]| - 1] == stacks[from][|stacks[from]| - count] &&
      b[to][|b[to]| - 1] == stacks[from][|stacks[from]| - 1]
  {
    var src := stacks[from];
    var crates := src[|src| - count..];
    ReverseMultiset(crates);
    ReverseAt(crates);
    assert Reverse(crates)[count - 1] == crates[0];
  }

  /** Moving i + 1 crates one at a time is moving i of them and then
      popping the back of from and pushing it onto to. */
  lemma MoveOneMore(stacks: seq<string>, i: nat, from: nat, to: nat)
    requires from < |stacks| && to < |stacks| && CanMove(stacks, i + 1, from, to, CrateMover9000)
    ensures var a := AfterMove(stacks, i, from, to, CrateMover9000);
      a[from] != [] &&
      var popped := a[from := a[from][..|a[from]| - 1]];
      AfterMove(stacks, i + 1, from, to, CrateMover9000) == popped[to := popped[to] + [a[from][|a[from]| - 1]]]
  {
    var src := stacks[from];
    var n := |src|;
    if from != to {
      var x := src[n - (i + 1)];
      var tail := src[n - i..];
      var a := AfterMove(stacks, i, from, to, CrateMover9000);
      assert a == stacks[from := src[..n - i]][to := stacks[to] + Reverse(tail)];
      assert src[n - (i + 1)..] == [x] + tail;
      ReverseCons(x, tail);
      assert src[..n - i][..n - i - 1] == src[..n - (i + 1)];
      assert stacks[to] + Reverse([x] + tail) == stacks[to] + Reverse(tail) + [x];
    } else {
      assert src[..n - 1] + [src[n - 1]] == src;
    }
  }

  /** The part1 move function: count times, pop the back of from and push
      it onto to. When from and to are the same stack each crate goes
      straight back where it was. */
  method Move9000(stacks: seq<string>, count: nat, from: nat, to: nat) returns (stacks': seq<string>)
    requires from < |stacks| && to < |stacks| && CanMove(stacks, count, from, to, CrateMover9000)
    ensures stacks' == AfterMove(stacks, count, from, to, CrateMover9000)
  {
    stacks' := stacks;
    assert AfterMove(stacks, 0, from, to, CrateMover9000) == stacks by {
      var src := stacks[from];
      assert src[..|src|] == src && src[|src|..] == [];
      assert Reverse(src[|src|..]) == [];
      assert stacks[to] + [] == stacks[to];
    }
    for i := 0 to count
      invariant stacks' == AfterMove(stacks, i, from, to, CrateMover9000)
    {
      MoveOneMore(stacks, i, from, to);
      var item := stacks'[from][|stacks'[from]| - 1];
      stacks' := stacks'[from := stacks'[from][..|stacks'[from]| - 1]];
      stacks' := stacks'[to := stacks'[to] + [item]];
    }
  }

  /** The part2 move function: cut the top count crates off from in one
      piece and append them to to. */
  method Move9001(stacks: seq<string>, count: nat, from: nat, to: nat) returns (stacks': seq<string>)
    requires from < |stacks| && to < |stacks| && CanMove(stacks, count, from, to, CrateMover9001)
    ensures stacks' == AfterMove(stacks, count, from, to, CrateMover9001)
  {
    var src := stacks[from];
    var crates := src[|src| - count..];
    stacks' := stacks[from := src[..|src| - count]];
    stacks' := stacks'[to := stacks'[to] + crates];
    if from == to {
      assert src[..|src| - count] + crates == src;
    }
  }

  /** One move of crane_sim with 1-based stack numbers: None when one of
      its asserts or the move function's assert fails. */
  function Apply(current: seq<string>, m: Move, crane: Crane): Option<seq<string>>
  {
    if !ValidMove(m, |current|) || !CanMove(current, m.count, m.from - 1, m.to - 1, crane) then None
    else Some(AfterMove(current, m.count, m.from - 1, m.to - 1, crane))
  }

  /** A move that goes through keeps the stacks and the crates. */
  lemma ApplyKeepsCrates(current: seq<string>, m: Move, crane: Crane)
    requires Apply(current, m, crane).Some?
    ensures |Apply(current, m, crane).value| == |current|
    ensures Crates(Apply(current, m, crane).value) == Crates(current)
  {
    MoveTouchesTwo(current, m.count, m.from - 1, m.to - 1, crane);
    MoveKeepsCrates(current, m.count, m.from - 1, m.to - 1, crane);
  }

  /** What crane_sim ends with: the stacks after the moves, or None when
      one of its asserts or a move function's assert fails. */
  function Simulate(stacks: seq<string>, moves: seq<Move>, crane: Crane): Option<seq<string>>
    decreases |moves|
  {
    if moves == [] then Some(stacks)
    else match Simulate(stacks, moves[..|moves| - 1], crane)
      case None => None
      case Some(current) => Apply(current, moves[|moves| - 1], crane)
  }

  /** One more move is carried out on the stacks the earlier moves left. */
  lemma SimulateStep(stacks: seq<string>, moves: seq<Move>, i: nat, crane: Crane, current: seq<string>)
    requires i < |moves| && Simulate(stacks, moves[..i], crane) == Some(current)
    ensures Simulate(stacks, moves[..i + 1], crane) == Apply(current, moves[i], crane)
  {
    assert moves[..i + 1][..i] == moves[..i];
  }

  /** Once an assert has failed, later moves do not matter. */
  lemma {:induction false} SimulateStopped(stacks: seq<string>, moves: seq<Move>, k: nat, crane: Crane)
    requires k <= |moves| && Simulate(stacks, moves[..k], crane).None?
    ensures Simulate(stacks, moves, crane).None?
    decreases |moves|
  {
    if k < |moves| {
      var n := |moves| - 1;
      assert moves[..n][..k] == moves[..k];
      SimulateStopped(stacks, moves[..n], k, crane);
    } else {
      assert moves[..k] == moves;
    }
  }

  /** Simulation never loses or makes a crate, nor a stack. */
  lemma {:induction false} SimulateKeepsCrates(stacks: seq<string>, moves: seq<Move>, crane: Crane)
    requires Simulate(stacks, moves, crane).Some?
    ensures |Simulate(stacks, moves, crane).value| == |stacks|
    ensures Crates(Simulate(stacks, moves, crane).value) == Crates(stacks)
    decreases |moves|
  {
    if moves != [] {
      SimulateKeepsCrates(stacks, moves[..|moves| - 1], crane);
      ApplyKeepsCrates(Simulate(stacks, moves[..|moves| - 1], crane).value, moves[|moves| - 1], crane);
    }
  }

  /** What the final loop of crane_sim prints: the top crate of every
      stack, or None when one is empty and its assert fails. */
  function Tops(stacks: seq<string>): Option<string>
  {
    if forall i :: 0 <= i < |stacks| ==> stacks[i] != [] then
      Some(seq(|stacks|, i requires 0 <= i < |stacks| && stacks[i] != [] => stacks[i][|stacks[i]| - 1]))
    else None
  }

  /** The final loop of crane_sim: the back of each stack in turn. */
  method ReadTops(stacks: seq<string>) returns (answer: Option<string>)
    ensures answer.Some? <==> forall i :: 0 <= i < |stacks| ==> stacks[i] != []
    ensures answer.Some? ==> (|answer.value| == |stacks| &&
      forall i :: 0 <= i < |stacks| ==> answer.value[i] == stacks[i][|stacks[i]| - 1])
    ensures answer == Tops(stacks)
  {
    var out := "";
    for k := 0 to |stacks|
      invariant |out| == k
      invariant forall i :: 0 <= i < k ==> stacks[i] != [] && out[i] == stacks[i][|stacks[i]| - 1]
    {
      if stacks[k] == [] {
        assert !(forall i :: 0 <= i < |stacks| ==> stacks[i] != []);
        return None;
      }
      out := out + [stacks[k][|stacks[k]| - 1]];
    }
    answer := Some(out);
    assert Tops(stacks).value == out;
  }

  /** The call through crane_sim's move parameter: the crane's move
      function on the from and to stacks. */
  method CallMove(stacks: seq<string>, count: nat, from: nat, to: nat, crane: Crane) returns (stacks': seq<string>)
    requires from < |stacks| && to < |stacks| && CanMove(stacks, count, from, to, crane)
    ensures stacks' == AfterMove(stacks, count, from, to, crane)
  {
    if crane == CrateMover9000 {
      stacks' := Move9000(stacks, count, from, to);
    } else {
      stacks' := Move9001(stacks, count, from, to);
    }
  }

  /** One pass of crane_sim's move loop: the asserts on the stack numbers,
      then the crane's move function. */
  method StepMove(current: seq<string>, m: Move, crane: Crane) returns (next: Option<seq<string>>)
    ensures next == Apply(current, m, crane)
  {
    if !(1 <= m.from <= |current| && 1 <= m.to <= |current|) ||
       !CanMove(current, m.count, m.from - 1, m.to - 1, crane) {
      return None;
    }
    var after := CallMove(current, m.count, m.from - 1, m.to - 1, crane);
    next := Some(after);
  }

  /** crane_sim after read_stacks: run the moves with the given crane, then
      read off the top crates. None stands for a failed assert. */
  method CraneSim(stacks: seq<string>, moves: seq<Move>, crane: Crane) returns (answer: Option<string>)
    ensures Simulate(stacks, moves, crane).None? ==> answer.None?
    ensures Simulate(stacks, moves, crane).Some? ==> answer == Tops(Simulate(stacks, moves, crane).value)
  {
    var current := stacks;
    for i := 0 to |moves|
      invariant Simulate(stacks, moves[..i], crane) == Some(current)
    {
      SimulateStep(stacks, moves, i, crane, current);
      var next := StepMove(current, moves[i], crane);
      if next.None? {
        SimulateStopped(stacks, moves, i + 1, crane);
        return None;
      }
      current := next.value;
    }
    assert moves[..|moves|] == moves;
    answer := ReadTops(current);
  }
}
