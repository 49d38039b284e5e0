/** Cathode-Ray Tube: a CPU with one register X runs noop (one cycle) and
    addx (two cycles, then X changes). The value of X during every cycle
    is traced; the trace gives a signal strength sum and drives a screen
    of six rows of forty pixels. */
module CathodeRay {
  import opened Common

  /** One instruction as read: noop, addx with its operand (None when no
      number follows the word) or any other word. */
  datatype Instr = Noop | Addx(delta: Option<int>) | Unknown

  /** An instruction that passes the asserts. */
  predicate Runs(i: Instr)
  {
    i.Noop? || (i.Addx? && i.delta.Some?)
  }

  /** Cycles an instruction takes: one for noop, two for addx. */
  function Cycles(i: Instr): nat
  {
    if i.Addx? then 2 else 1
  }

  function TotalCycles(prog: seq<Instr>): nat
  {
    if prog == [] then 0 else TotalCycles(prog[..|prog| - 1]) + Cycles(prog[|prog| - 1])
  }

  /** The operands of the addx instructions added up. */
  function TotalDelta(prog: seq<Instr>): int
  {
    if prog == [] then 0
    else
      var i := prog[|prog| - 1];
      TotalDelta(prog[..|prog| - 1]) + (if i.Addx? && i.delta.Some? then i.delta.value else 0)
  }

  /** One pass of Xecute's loop: a copy of the last value for the cycle
      in which nothing happens, and for addx the changed value after it.
      None when an assert fails. */
  function Exec(xs: seq<int>, i: Instr): Option<seq<int>>
    requires xs != []
  {
    var last := xs[|xs| - 1];
    match i
    case Noop => Some(xs + [last])
    case Addx(Some(d)) => Some(xs + [last, last + d])
    case _ => None
  }

  /** Xecute: X during every cycle, starting from X = 1 before the
      first; xs[i] is X during cycle i + 1. None when an assert fails. */
  function Trace(prog: seq<Instr>): Option<seq<int>>
  {
    if prog == [] then Some([1])
    else match Trace(prog[..|prog| - 1])
      case None => None
      case Some(xs) => if xs == [] then None else Exec(xs, prog[|prog| - 1])
  }

  /** The trace exists exactly when every instruction passes the asserts;
      it has one entry more than there are cycles, starts at 1 and ends
      at 1 plus all the addx operands. */
  lemma {:induction false} TraceShape(prog: seq<Instr>)
    ensures Trace(prog).Some? <==> forall k :: 0 <= k < |prog| ==> Runs(prog[k])
    ensures Trace(prog).Some? ==>
      var xs := Trace(prog).value;
      |xs| == 1 + TotalCycles(prog) && xs[0] == 1 && xs[|xs| - 1] == 1 + TotalDelta(prog)
    decreases |prog|
  {
    if prog != [] {
      var init := prog[..|prog| - 1];
      TraceShape(init);
      assert forall k :: 0 <= k < |init| ==> init[k] == prog[k];
    }
  }

  /** A noop repeats X; an addx repeats X for its first cycle and adds
      its operand for the cycle after. */
  lemma ExecCycles(xs: seq<int>, i: Instr)
    requires xs != [] && Exec(xs, i).Some?
    ensures var ys := Exec(xs, i).value;
      |ys| == |xs| + Cycles(i) && ys[..|xs|] == xs && ys[|xs|] == xs[|xs| - 1] &&
      (i.Addx? ==> ys[|xs| + 1] == xs[|xs| - 1] + i.delta.value)
  {
  }

  /** Once an assert has failed the rest of the program does not matter. */
  lemma {:induction false} TraceStopped(prog: seq<Instr>, k: nat)
    requires k <= |prog| && Trace(prog[..k]).None?
    ensures Trace(prog).None?
    decreases |prog|
  {
    if k < |prog| {
      assert prog[..|prog| - 1][..k] == prog[..k];
      TraceStopped(prog[..|prog| - 1], k);
    } else {
      assert prog[..k] == prog;
    }
  }

  /** Xecute's loop, pushing onto the trace. */
  method Xecute(prog: seq<Instr>) returns (xs: Option<seq<int>>)
    ensures xs == Trace(prog)
  {
    var trace := [1];
    for k := 0 to |prog|
      invariant Trace(prog[..k]) == Some(trace) && trace != []
    {
      assert prog[..k + 1][..k] == prog[..k];
      ghost var before := trace;
      trace := trace + [trace[|trace| - 1]];
      match prog[k]
      case Noop =>
        assert Exec(before, prog[k]) == Some(trace);
      case Addx(delta) =>
        if delta.None? {
          TraceStopped(prog, k + 1);
          return None;
        }
        var last := trace[|trace| - 1];
        trace := trace + [last + delta.value];
        assert trace == before + [last, last + delta.value];
      case Unknown =>
        TraceStopped(prog, k + 1);
        return None;
    }
    assert prog[..|prog|] == prog;
    xs := Some(trace);
  }

  /** The cycles part 1 samples: the 20th and every 40th after it. */
  predicate Probed(c: int)
  {
    (c + 20) % 40 == 0
  }

  /** Signal strength (cycle times X during it) summed over the probed
      cycles among the first n. */
  function Strength(xs: seq<int>, n: nat): int
    requires n <= |xs|
  {
    if n == 0 then 0
    else Strength(xs, n - 1) + (if Probed(n) then n * xs[n - 1] else 0)
  }

  /** No probed cycle lies strictly between two probed cycles 40 apart,
      so the sum does not change over such a gap. */
  lemma {:induction false} StrengthGap(xs: seq<int>, a: nat, b: nat)
    requires a <= b <= |xs| && forall c :: a < c <= b ==> !Probed(c)
    ensures Strength(xs, b) == Strength(xs, a)
    decreases b
  {
    if a < b {
      StrengthGap(xs, a, b - 1);
    }
  }

  /** A probed cycle is followed by 39 unprobed ones. */
  lemma ProbedGap(i: int)
    requires Probed(i)
    ensures forall c :: i < c <= i + 39 ==> !Probed(c)
  {
  }

  /** A probed cycle adds its strength, and nothing is added up to the
      next probed cycle 40 later. */
  lemma StrengthProbe(xs: seq<int>, i: int)
    requires 20 <= i <= 220 && Probed(i) && |xs| >= 220
    ensures Probed(i + 40)
    ensures Strength(xs, Min(i + 39, 220)) == Strength(xs, i - 1) + i * xs[i - 1]
  {
    ProbedGap(i);
    if i < 220 {
      StrengthGap(xs, i, i + 39);
    }
  }

  /** part1: cycles 20, 60, ..., 220 weighted by X during them. */
  method Part1(xs: seq<int>) returns (ans: int)
    requires |xs| >= 220
    ensures ans == Strength(xs, 220)
  {
    ans := 0;
    var i := 20;
    StrengthGap(xs, 0, 19);
    while i <= 220
      invariant 20 <= i <= 260 && Probed(i)
      invariant ans == Strength(xs, Min(i - 1, 220))
      decreases 260 - i
    {
      ans := ans + i * xs[i - 1];
      StrengthProbe(xs, i);
      i := i + 40;
    }
  }

  /** The sprite is three pixels wide, centred on X: a pixel in column c
      is lit exactly when X is within one of c. */
  function Pixel(c: int, x: int): (p: char)
    ensures p == '@' <==> Abs(c - x) <= 1
    ensures p == '@' || p == ' '
  {
    if c >= x - 1 && c <= x + 1 then '@' else ' '
  }

  /** The screen after n pixels: each pixel in column n % 40 of its row,
      a newline after every fortieth. Open leaves the last row's newline
      out. */
  function Render(xs: seq<int>, n: nat): string
    requires n <= |xs|
    decreases n, 1
  {
    Open(xs, n) + (if n > 0 && n % 40 == 0 then "\n" else "")
  }

  function Open(xs: seq<int>, n: nat): string
    requires n <= |xs|
    decreases n, 0
  {
    if n == 0 then [] else Render(xs, n - 1) + [Pixel((n - 1) % 40, xs[n - 1])]
  }

  /** One row of the screen: forty pixels, column c showing cycle
      40 * r + c + 1. */
  function Row(xs: seq<int>, r: nat): (row: string)
    requires 40 * r + 40 <= |xs|
    ensures |row| == 40
  {
    seq(40, c requires 0 <= c < 40 => Pixel(c, xs[40 * r + c]))
  }

  /** The first m rows, each ended by a newline. */
  function Rows(xs: seq<int>, m: nat): string
    requires 40 * m <= |xs|
  {
    if m == 0 then [] else Rows(xs, m - 1) + Row(xs, m - 1) + "\n"
  }

  /** Pixel 40 * r + c is in column c. */
  lemma Column(r: nat, c: nat)
    requires c < 40
    ensures (40 * r + c) % 40 == c
  {
  }

  /** Pixel c - 1 of row r, and no newline before it unless it starts
      the row. */
  lemma OpenAt(xs: seq<int>, r: nat, c: nat)
    requires 1 <= c <= 40 && 40 * r + 40 <= |xs|
    ensures Open(xs, 40 * r + c) == Render(xs, 40 * r + c - 1) + [Row(xs, r)[c - 1]]
    ensures c > 1 ==> Render(xs, 40 * r + c - 1) == Open(xs, 40 * r + c - 1)
  {
    Column(r, c - 1);
  }

  /** Part of the way through row r. */
  lemma {:induction false} RenderWithin(xs: seq<int>, r: nat, c: nat)
    requires 1 <= c <= 40 && 40 * r + 40 <= |xs|
    ensures Open(xs, 40 * r + c) == Rows(xs, r) + Row(xs, r)[..c]
    decreases r, c
  {
    var row := Row(xs, r);
    OpenAt(xs, r, c);
    if c == 1 {
      RenderRows(xs, r);
      assert row[..1] == [row[0]];
    } else {
      RenderWithin(xs, r, c - 1);
      assert row[..c] == row[..c - 1] + [row[c - 1]];
    }
  }

  /** After whole rows the screen is exactly those rows. */
  lemma {:induction false} RenderRows(xs: seq<int>, m: nat)
    requires 40 * m <= |xs|
    ensures Render(xs, 40 * m) == Rows(xs, m)
    decreases m, 0
  {
    if m > 0 {
      RenderWithin(xs, m - 1, 40);
      assert Row(xs, m - 1)[..40] == Row(xs, m - 1);
    }
  }

  /** The next pixel, in column c of its row. */
  lemma OpenNext(xs: seq<int>, i: nat, c: nat)
    requires i < |xs| && c < 40 && i % 40 == c
    ensures Open(xs, i + 1) == (if c == 0 then Render(xs, i) else Open(xs, i)) + [Pixel(c, xs[i])]
  {
  }

  /** One row of part2: forty pixels then a newline; false when the
      assert on the trace's length fails, after the pixels printed so
      far. */
  method DrawRow(xs: seq<int>, out: string, r: nat) returns (out': string, ok: bool)
    requires 40 * r <= |xs| && out == Render(xs, 40 * r)
    ensures ok <==> 40 * r + 40 <= |xs|
    ensures ok ==> out' == Render(xs, 40 * r + 40)
    ensures !ok ==> out' == Render(xs, |xs|)
  {
    out' := out;
    var i := 40 * r;
    for c := 0 to 40
      invariant i == 40 * r + c && i <= |xs|
      invariant out' == if c == 0 then Render(xs, i) else Open(xs, i)
    {
      if i >= |xs| {
        return out', false;
      }
      Column(r, c);
      OpenNext(xs, i, c);
      out' := out' + [Pixel(c, xs[i])];
      i := i + 1;
    }
    out' := out' + "\n";
    ok := true;
  }

  /** part2: six rows of forty pixels, pixel i showing X during cycle
      i + 1; the assert that the trace is long enough fails part of the
      way through when it is not, after the pixels printed so far. */
  method Part2(xs: seq<int>) returns (out: string, ok: bool)
    ensures ok <==> |xs| >= 240
    ensures out == Render(xs, Min(|xs|, 240))
  {
    out := [];
    for r := 0 to 6
      invariant 40 * r <= |xs| && out == Render(xs, 40 * r)
    {
      var drawn;
      out, drawn := DrawRow(xs, out, r);
      if !drawn {
        return out, false;
      }
    }
    ok := true;
  }
}
