/** Calorie counting, first version: the lines are grouped into elves,
    one elf per run of non-blank lines, then the best elf or the best
    three elves are summed. */
module Calories {
  import opened Common
  import opened Ordering

  /** An input line, as read: blank, or the number stoi reads from it. */
  datatype Line = Blank | Number(value: int)

  function ValueOf(l: Line): int
  {
    if l.Number? then l.value else 0
  }

  /** The number of non-blank lines at the front. */
  function RunLength(lines: seq<Line>): (k: nat)
    ensures k <= |lines|
    ensures forall i :: 0 <= i < k ==> lines[i] != Blank
    ensures k < |lines| ==> lines[k] == Blank
  {
    if lines == [] || lines[0] == Blank then 0 else 1 + RunLength(lines[1..])
  }

  /** The number on every line. */
  function Values(lines: seq<Line>): (vs: seq<int>)
    ensures |vs| == |lines| && forall i :: 0 <= i < |lines| ==> vs[i] == ValueOf(lines[i])
  {
    seq(|lines|, i requires 0 <= i < |lines| => ValueOf(lines[i]))
  }

  /** The elves: one group per maximal run of non-blank lines, holding
      the values of that run. */
  function Groups(lines: seq<Line>): seq<seq<int>>
    decreases |lines|
  {
    if lines == [] then []
    else if lines[0] == Blank then Groups(lines[1..])
    else
      var k := RunLength(lines);
      [Values(lines[..k])] + Groups(lines[k..])
  }

  /** The non-blank lines, in order. */
  function NonBlank(lines: seq<Line>): (r: seq<Line>)
    ensures forall l :: l in r <==> l in lines && l != Blank
  {
    if lines == [] then []
    else (if lines[0] == Blank then [] else [lines[0]]) + NonBlank(lines[1..])
  }

  function Flatten(gs: seq<seq<int>>): seq<int>
  {
    if gs == [] then [] else gs[0] + Flatten(gs[1..])
  }

  /** The sum of every group, in order. */
  function Sums(gs: seq<seq<int>>): (r: seq<int>)
    ensures |r| == |gs| && forall i :: 0 <= i < |gs| ==> r[i] == Sum(gs[i])
  {
    seq(|gs|, i requires 0 <= i < |gs| => Sum(gs[i]))
  }

  // ---------------------------------------------------------------------
  // What the grouping promises

  /** No elf is empty: runs of blank lines never start a group. */
  lemma {:induction false} GroupsNonEmpty(lines: seq<Line>)
    ensures forall g :: g in Groups(lines) ==> g != []
    decreases |lines|
  {
    if lines != [] {
      if lines[0] == Blank {
        GroupsNonEmpty(lines[1..]);
      } else {
        GroupsNonEmpty(lines[RunLength(lines)..]);
      }
    }
  }

  lemma {:induction false} NonBlankAppend(a: seq<Line>, b: seq<Line>)
    ensures NonBlank(a + b) == NonBlank(a) + NonBlank(b)
    decreases |a|
  {
    if a != [] {
      assert (a + b)[0] == a[0] && (a + b)[1..] == a[1..] + b;
      NonBlankAppend(a[1..], b);
    } else {
      assert a + b == b;
    }
  }

  lemma {:induction false} NonBlankRun(lines: seq<Line>)
    requires forall i :: 0 <= i < |lines| ==> lines[i] != Blank
    ensures NonBlank(lines) == lines
    decreases |lines|
  {
    if lines != [] {
      NonBlankRun(lines[1..]);
    }
  }

  /** Read one after another, the elves hold the values of the non-blank
      lines in input order. */
  lemma {:induction false} GroupsFlatten(lines: seq<Line>)
    ensures Flatten(Groups(lines)) == Values(NonBlank(lines))
    decreases |lines|
  {
    if lines != [] {
      if lines[0] == Blank {
        GroupsFlatten(lines[1..]);
      } else {
        var k := RunLength(lines);
        GroupsFlatten(lines[k..]);
        assert lines == lines[..k] + lines[k..];
        NonBlankAppend(lines[..k], lines[k..]);
        NonBlankRun(lines[..k]);
        assert Values(NonBlank(lines)) == Values(lines[..k]) + Values(NonBlank(lines[k..]));
      }
    }
  }

  /** One more line. A blank line adds nothing. */
  lemma {:induction false} GroupsSnocBlank(p: seq<Line>)
    ensures Groups(p + [Blank]) == Groups(p)
    decreases |p|
  {
    var q := p + [Blank];
    if p == [] {
      assert q[1..] == [];
    } else if p[0] == Blank {
      assert q[1..] == p[1..] + [Blank];
      GroupsSnocBlank(p[1..]);
    } else {
      var k := RunLength(p);
      if k < |p| {
        RunLengthPrefix(p, [Blank]);
        assert q[..k] == p[..k] && q[k..] == p[k..] + [Blank];
        GroupsSnocBlank(p[k..]);
      } else {
        RunLengthOf(p, [Blank]);
        assert q[..k] == p[..k] && q[k..] == [Blank] && [Blank][1..] == [];
      }
    }
  }

  /** A line at the start or after a blank line opens a new elf. */
  lemma {:induction false} GroupsSnocStart(p: seq<Line>, l: Line)
    requires l != Blank && (p == [] || p[|p| - 1] == Blank)
    ensures Groups(p + [l]) == Groups(p) + [[ValueOf(l)]]
    decreases |p|
  {
    var q := p + [l];
    if p == [] {
      GroupsOfRun([l]);
      assert q == [l] && Values([l]) == [ValueOf(l)];
    } else if p[0] == Blank {
      assert q[1..] == p[1..] + [l];
      GroupsSnocStart(p[1..], l);
    } else {
      var k := RunLength(p);
      RunLengthPrefix(p, [l]);
      assert q[..k] == p[..k] && q[k..] == p[k..] + [l];
      GroupsSnocStart(p[k..], l);
    }
  }

  /** Any other line joins the last elf. */
  lemma {:induction false} GroupsSnocJoin(p: seq<Line>, l: Line)
    requires l != Blank && p != [] && p[|p| - 1] != Blank
    ensures Groups(p) != []
    ensures Groups(p + [l]) == Groups(p)[..|Groups(p)| - 1] + [Groups(p)[|Groups(p)| - 1] + [ValueOf(l)]]
    decreases |p|
  {
    var q := p + [l];
    if p[0] == Blank {
      assert q[1..] == p[1..] + [l];
      GroupsSnocJoin(p[1..], l);
    } else {
      var k := RunLength(p);
      if k < |p| {
        GroupsSnocJoin(p[k..], l);
        GroupsSnocJoinStep(p, l, k);
      } else {
        GroupsSnocJoinRun(p, l);
      }
    }
  }

  lemma GroupsSnocJoinStep(p: seq<Line>, l: Line, k: nat)
    requires l != Blank && k == RunLength(p) < |p| && p[0] != Blank && p[|p| - 1] != Blank
    requires Groups(p[k..]) != []
    requires Groups(p[k..] + [l]) == Groups(p[k..])[..|Groups(p[k..])| - 1] + [Groups(p[k..])[|Groups(p[k..])| - 1] + [ValueOf(l)]]
    ensures Groups(p) != []
    ensures Groups(p + [l]) == Groups(p)[..|Groups(p)| - 1] + [Groups(p)[|Groups(p)| - 1] + [ValueOf(l)]]
  {
    var head := Values(p[..k]);
    var rest := Groups(p[k..]);
    var n := |rest|;
    var last := [rest[n - 1] + [ValueOf(l)]];
    assert Groups(p) == [head] + rest by {
      GroupsCons(p);
    }
    calc {
      Groups(p + [l]);
    == { GroupsSnocCons(p, l, k); }
      [head] + Groups(p[k..] + [l]);
    ==
      [head] + (rest[..n - 1] + last);
    == { assert ([head] + rest)[..n] == [head] + rest[..n - 1]; }
      ([head] + rest)[..n] + last;
    }
  }

  /** Groups of input that starts with a number: the leading run, then
      the rest. */
  lemma GroupsCons(p: seq<Line>)
    requires p != [] && p[0] != Blank
    ensures Groups(p) == [Values(p[..RunLength(p)])] + Groups(p[RunLength(p)..])
  {
  }

  lemma GroupsSnocCons(p: seq<Line>, l: Line, k: nat)
    requires k == RunLength(p) < |p| && p[0] != Blank
    ensures Groups(p + [l]) == [Values(p[..k])] + Groups(p[k..] + [l])
  {
    var q := p + [l];
    calc {
      Groups(q);
    == { GroupsCons(q); }
      [Values(q[..RunLength(q)])] + Groups(q[RunLength(q)..]);
    == { RunLengthPrefix(p, [l]); }
      [Values(q[..k])] + Groups(q[k..]);
    == { SnocSlices(p, l, k); }
      [Values(p[..k])] + Groups(p[k..] + [l]);
    }
  }

  lemma GroupsSnocJoinRun(p: seq<Line>, l: Line)
    requires l != Blank && p != [] && forall i :: 0 <= i < |p| ==> p[i] != Blank
    ensures Groups(p) != []
    ensures Groups(p + [l]) == Groups(p)[..|Groups(p)| - 1] + [Groups(p)[|Groups(p)| - 1] + [ValueOf(l)]]
  {
    var q := p + [l];
    GroupsOfRun(p);
    GroupsOfRun(q);
    var vs := Values(p);
    assert Values(q) == vs + [ValueOf(l)];
    assert [vs][..0] == [];
  }

  /** A run of non-blank lines is a single elf. */
  lemma GroupsOfRun(p: seq<Line>)
    requires p != [] && forall i :: 0 <= i < |p| ==> p[i] != Blank
    ensures Groups(p) == [Values(p)]
  {
    RunLengthOf(p, []);
    assert p + [] == p && p[..|p|] == p && p[|p|..] == [];
  }

  lemma {:induction false} RunLengthPrefix(p: seq<Line>, rest: seq<Line>)
    requires RunLength(p) < |p|
    ensures RunLength(p + rest) == RunLength(p)
    decreases |p|
  {
    if p[0] != Blank {
      assert (p + rest)[1..] == p[1..] + rest;
      RunLengthPrefix(p[1..], rest);
    }
  }

  lemma {:induction false} RunLengthOf(p: seq<Line>, rest: seq<Line>)
    requires forall i :: 0 <= i < |p| ==> p[i] != Blank
    requires rest == [] || rest[0] == Blank
    ensures RunLength(p + rest) == |p|
    decreases |p|
  {
    if p != [] {
      assert (p + rest)[1..] == p[1..] + rest;
      RunLengthOf(p[1..], rest);
    } else {
      assert p + rest == rest;
    }
  }

  // ---------------------------------------------------------------------
  // The program

  /** read(): the loop over the lines with the next_elf flag. */
  method Read(lines: seq<Line>) returns (elves: seq<seq<int>>)
    ensures elves == Groups(lines)
  {
    elves := [];
    var nextElf := true;
    for i := 0 to |lines|
      invariant elves == Groups(lines[..i])
      invariant nextElf <==> (i == 0 || lines[i - 1] == Blank)
    {
      var line := lines[i];
      assert lines[..i + 1] == lines[..i] + [line];
      if line == Blank {
        GroupsSnocBlank(lines[..i]);
        nextElf := true;
        continue;
      }
      if nextElf {
        GroupsSnocStart(lines[..i], line);
        elves := elves + [[]];
        nextElf := false;
        assert elves[..|elves| - 1] == Groups(lines[..i]) && elves[|elves| - 1] + [ValueOf(line)] == [ValueOf(line)];
      } else {
        GroupsSnocJoin(lines[..i], line);
      }
      elves := elves[..|elves| - 1] + [elves[|elves| - 1] + [ValueOf(line)]];
    }
    assert lines[..|lines|] == lines;
  }

  /** part1's loop: the largest elf total, or 0 when every total is
      below 0. */
  method MaxCalories(elves: seq<seq<int>>) returns (maxCalories: int)
    ensures maxCalories >= 0
    ensures forall k :: 0 <= k < |elves| ==> Sum(elves[k]) <= maxCalories
    ensures maxCalories == 0 || exists k :: 0 <= k < |elves| && Sum(elves[k]) == maxCalories
  {
    maxCalories := 0;
    for i := 0 to |elves|
      invariant maxCalories >= 0
      invariant forall k :: 0 <= k < i ==> Sum(elves[k]) <= maxCalories
      invariant maxCalories == 0 || exists k :: 0 <= k < i && Sum(elves[k]) == maxCalories
    {
      maxCalories := Max(maxCalories, Sum(elves[i]));
    }
  }

  /** part1. */
  method Part1(lines: seq<Line>) returns (maxCalories: int)
    ensures maxCalories >= 0
    ensures forall k :: 0 <= k < |Groups(lines)| ==> Sum(Groups(lines)[k]) <= maxCalories
    ensures maxCalories == 0 || exists k :: 0 <= k < |Groups(lines)| && Sum(Groups(lines)[k]) == maxCalories
  {
    var elves := Read(lines);
    maxCalories := MaxCalories(elves);
  }

  /** part2: the elf totals sorted largest first, and the first three
      added. */
  method TopThree(elves: seq<seq<int>>) returns (top3: int)
    requires |elves| > 2
    ensures top3 == Sum(Largest(Sums(elves), 3))
  {
    var calories: seq<int> := [];
    for i := 0 to |elves|
      invariant calories == Sums(elves[..i])
    {
      calories := calories + [Sum(elves[i])];
    }
    assert elves[..|elves|] == elves;
    calories := SortDesc(calories);
    top3 := calories[0] + calories[1] + calories[2];
    assert calories[..3] == [calories[0], calories[1], calories[2]];
    SumThree(calories[0], calories[1], calories[2]);
  }

  /** part2. */
  method Part2(lines: seq<Line>) returns (top3: int)
    requires |Groups(lines)| > 2
    ensures top3 == Sum(Largest(Sums(Groups(lines)), 3))
  {
    var elves := Read(lines);
    top3 := TopThree(elves);
  }
}
