/** Cathode-Ray Tube, second version: instead of tracing X into a vector,
    the CPU calls back once per cycle with the cycle number and X during
    it. The callbacks are modelled by the stream of (cycle, X) pairs they
    receive. */
module CathodeTicks {
  import opened Common
  import opened CathodeRay

  /** One call of tick: the cycle t and X during it. */
  datatype Tick = Tick(t: int, x: int)

  /** The loop variables and the ticks made so far. */
  datatype Cpu = Cpu(t: int, x: int, ticks: seq<Tick>)

  /** One pass of Xecute's loop: noop ticks once; addx ticks twice and
      then changes X; any other word fails its assert before ticking, and
      an addx with no number fails after its two ticks. The flag is false
      when an assert fails. */
  function Exec(cpu: Cpu, i: Instr): (Cpu, bool)
  {
    var t, x := cpu.t, cpu.x;
    match i
    case Noop => (Cpu(t + 1, x, cpu.ticks + [Tick(t, x)]), true)
    case Unknown => (cpu, false)
    case Addx(delta) =>
      var ticks := cpu.ticks + [Tick(t, x), Tick(t + 1, x)];
      match delta
      case None => (Cpu(t + 2, x, ticks), false)
      case Some(d) => (Cpu(t + 2, x + d, ticks), true)
  }

  /** Xecute from t = 1 and x = 1, stopping at the first failed assert. */
  function Run(prog: seq<Instr>): (Cpu, bool)
  {
    if prog == [] then (Cpu(1, 1, []), true)
    else
      var (cpu, ok) := Run(prog[..|prog| - 1]);
      if !ok then (cpu, false) else Exec(cpu, prog[|prog| - 1])
  }

  /** The loop runs to the end exactly when every instruction passes the
      asserts; then tick was called once per noop and twice per addx,
      with consecutive t from 1, and each call saw X as the vector
      version traces it for that cycle. */
  lemma {:induction false} RunMatchesTrace(prog: seq<Instr>)
    ensures Run(prog).1 <==> Trace(prog).Some?
    ensures Run(prog).1 ==>
      var cpu := Run(prog).0;
      var xs := Trace(prog).value;
      |cpu.ticks| == TotalCycles(prog) == |xs| - 1 &&
      cpu.t == |xs| && cpu.x == xs[|xs| - 1] &&
      forall k :: 0 <= k < |cpu.ticks| ==> cpu.ticks[k] == Tick(k + 1, xs[k])
    decreases |prog|
  {
    TraceShape(prog);
    if prog != [] {
      var init := prog[..|prog| - 1];
      var i := prog[|prog| - 1];
      RunMatchesTrace(init);
      TraceShape(init);
      if Run(init).1 && Run(prog).1 {
        var cpu := Run(init).0;
        var xs := Trace(init).value;
        ExecCycles(xs, i);
        var ys := Trace(prog).value;
        var ticks := Run(prog).0.ticks;
        forall k | 0 <= k < |ticks|
          ensures ticks[k] == Tick(k + 1, ys[k])
        {
          if k < |cpu.ticks| {
            assert ticks[k] == cpu.ticks[k];
            assert ys[k] == ys[..|xs|][k];
          }
        }
      }
    }
  }

  /** Once an assert has failed the rest of the program does not matter. */
  lemma {:induction false} RunStopped(prog: seq<Instr>, k: nat)
    requires k <= |prog| && !Run(prog[..k]).1
    ensures !Run(prog).1 && Run(prog) == Run(prog[..k])
    decreases |prog|
  {
    if k < |prog| {
      assert prog[..|prog| - 1][..k] == prog[..k];
      RunStopped(prog[..|prog| - 1], k);
    } else {
      assert prog[..k] == prog;
    }
  }

  /** Xecute: the loop over the instructions, returning the ticks made
      (up to a failed assert) and whether it ran to the end. */
  method Xecute(prog: seq<Instr>) returns (ticks: seq<Tick>, ok: bool)
    ensures ticks == Run(prog).0.ticks && ok == Run(prog).1
  {
    var t, x := 1, 1;
    ticks := [];
    for k := 0 to |prog|
      invariant Run(prog[..k]) == (Cpu(t, x, ticks), true)
    {
      assert prog[..k + 1][..k] == prog[..k];
      match prog[k]
      case Noop =>
        ticks := ticks + [Tick(t, x)];
        t := t + 1;
      case Unknown =>
        RunStopped(prog, k + 1);
        return ticks, false;
      case Addx(delta) =>
        ghost var before := ticks;
        ticks := ticks + [Tick(t, x)];
        t := t + 1;
        ticks := ticks + [Tick(t, x)];
        t := t + 1;
        assert ticks == before + [Tick(t - 2, x), Tick(t - 1, x)];
        if delta.None? {
          RunStopped(prog, k + 1);
          return ticks, false;
        }
        x := x + delta.value;
    }
    assert prog[..|prog|] == prog;
    ok := true;
  }

  /** What part1's callback adds up: t * x for every t with
      (t + 20) % 40 == 0. */
  function Signal(ticks: seq<Tick>): int
  {
    if ticks == [] then 0
    else
      var tick := ticks[|ticks| - 1];
      Signal(ticks[..|ticks| - 1]) + (if Probed(tick.t) then tick.t * tick.x else 0)
  }

  /** part1's callback over the ticks. None when Xecute fails an assert,
      before the answer is printed. */
  method Part1(prog: seq<Instr>) returns (ans: Option<int>)
    ensures ans == if Run(prog).1 then Some(Signal(Run(prog).0.ticks)) else None
  {
    var ticks, ok := Xecute(prog);
    if !ok {
      return None;
    }
    var sum := 0;
    for k := 0 to |ticks|
      invariant sum == Signal(ticks[..k])
    {
      assert ticks[..k + 1][..k] == ticks[..k];
      if (ticks[k].t + 20) % 40 == 0 {
        sum := sum + ticks[k].t * ticks[k].x;
      }
    }
    assert ticks[..|ticks|] == ticks;
    ans := Some(sum);
  }

  /** Ticks that follow the trace sum to the trace's signal strength over
      as many cycles. */
  lemma {:induction false} SignalIsStrength(ticks: seq<Tick>, xs: seq<int>)
    requires |ticks| < |xs|
    requires forall k :: 0 <= k < |ticks| ==> ticks[k] == Tick(k + 1, xs[k])
    ensures Signal(ticks) == Strength(xs, |ticks|)
    decreases |ticks|
  {
    if ticks != [] {
      SignalIsStrength(ticks[..|ticks| - 1], xs);
    }
  }

  /** The two versions print the same part 1 answer when the program runs
      at least 220 cycles and fewer than 260 (the callback would also
      count cycle 260 and later ones). */
  lemma Part1Agrees(prog: seq<Instr>, xs: seq<int>)
    requires Trace(prog) == Some(xs) && 220 <= |xs| - 1 < 260
    ensures Run(prog).1
    ensures Signal(Run(prog).0.ticks) == Strength(xs, 220)
  {
    RunMatchesTrace(prog);
    SignalIsStrength(Run(prog).0.ticks, xs);
    StrengthGap(xs, 220, |xs| - 1);
  }

  /** What part2's callback prints: a pixel per tick in column c, which
      wraps to 0 after a newline every 40 ticks. */
  function Picture(ticks: seq<Tick>): string
  {
    if ticks == [] then []
    else
      var n := |ticks|;
      Picture(ticks[..n - 1]) + [Pixel((n - 1) % 40, ticks[n - 1].x)] + (if n % 40 == 0 then "\n" else "")
  }

  /** part2's callback over the ticks, printing as they come: the pixels
      are printed even when an assert fails later. */
  method Part2(prog: seq<Instr>) returns (out: string, ok: bool)
    ensures out == Picture(Run(prog).0.ticks) && ok == Run(prog).1
  {
    var ticks;
    ticks, ok := Xecute(prog);
    out := [];
    var c := 0;
    for k := 0 to |ticks|
      invariant c == k % 40
      invariant out == Picture(ticks[..k])
    {
      PictureNext(ticks, k);
      ColumnNext(k);
      out := out + [Pixel(c, ticks[k].x)];
      c := c + 1;
      if c == 40 {
        out := out + "\n";
        c := 0;
      }
    }
    assert ticks[..|ticks|] == ticks;
  }

  /** The column after column k % 40: the next one, or 0 after the
      last. */
  lemma ColumnNext(k: nat)
    ensures (k + 1) % 40 == if k % 40 == 39 then 0 else k % 40 + 1
  {
  }

  /** One more tick: its pixel, and a newline after every fortieth. */
  lemma PictureNext(ticks: seq<Tick>, k: nat)
    requires k < |ticks|
    ensures Picture(ticks[..k + 1]) ==
      Picture(ticks[..k]) + [Pixel(k % 40, ticks[k].x)] + (if (k + 1) % 40 == 0 then "\n" else "")
  {
    assert ticks[..k + 1][..k] == ticks[..k];
  }

  /** Ticks that follow the trace draw the trace's screen. */
  lemma {:induction false} PictureIsRender(ticks: seq<Tick>, xs: seq<int>)
    requires |ticks| <= |xs|
    requires forall k :: 0 <= k < |ticks| ==> ticks[k] == Tick(k + 1, xs[k])
    ensures Picture(ticks) == Render(xs, |ticks|)
    decreases |ticks|
  {
    if ticks != [] {
      PictureIsRender(ticks[..|ticks| - 1], xs);
    }
  }

  /** On a program of exactly 240 cycles both versions draw the same six
      rows of forty pixels. */
  lemma Part2Agrees(prog: seq<Instr>, xs: seq<int>)
    requires Trace(prog) == Some(xs) && |xs| == 241
    ensures Run(prog).1
    ensures Picture(Run(prog).0.ticks) == Render(xs, 240) == Rows(xs, 6)
  {
    RunMatchesTrace(prog);
    PictureIsRender(Run(prog).0.ticks, xs);
    RenderRows(xs, 6);
  }
}
