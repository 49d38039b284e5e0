/** Calorie counting, second version: every blank line closes an elf,
    the totals are sorted ascending and the top n are popped off the
    back. */
module CaloriesTop {
  import opened Common
  import opened Ordering
  import opened Calories

  /** The elf totals as the loop of print_top accumulates them: a blank
      line closes the current elf and opens an empty one, any other line
      adds its value to the current elf. */
  function Totals(lines: seq<Line>): (ts: seq<int>)
    ensures |ts| >= 1
    decreases |lines|
  {
    if lines == [] then [0]
    else
      var ts := Totals(lines[..|lines| - 1]);
      var l := lines[|lines| - 1];
      if l == Blank then ts + [0] else AddToLast(ts, ValueOf(l))
  }

  /** The totals with v added to the last one. */
  function AddToLast(ts: seq<int>, v: int): (r: seq<int>)
    requires ts != []
    ensures |r| == |ts| && r[..|ts| - 1] == ts[..|ts| - 1] && r[|ts| - 1] == ts[|ts| - 1] + v
  {
    ts[..|ts| - 1] + [ts[|ts| - 1] + v]
  }

  /** There is one elf more than there are blank lines. */
  function Blanks(lines: seq<Line>): nat
  {
    if lines == [] then 0
    else Blanks(lines[..|lines| - 1]) + (if lines[|lines| - 1] == Blank then 1 else 0)
  }

  lemma {:induction false} TotalsCount(lines: seq<Line>)
    ensures |Totals(lines)| == Blanks(lines) + 1
    decreases |lines|
  {
    if lines != [] {
      TotalsCount(lines[..|lines| - 1]);
    }
  }

  /** Every line's value is counted in exactly one total. */
  lemma {:induction false} TotalsSum(lines: seq<Line>)
    ensures Sum(Totals(lines)) == Sum(Values(lines))
    decreases |lines|
  {
    if lines != [] {
      var p := lines[..|lines| - 1];
      var l := lines[|lines| - 1];
      TotalsSum(p);
      var ts := Totals(p);
      assert Values(lines)[..|p|] == Values(p);
      if l == Blank {
        assert (ts + [0])[..|ts|] == ts;
      } else {
        var r := AddToLast(ts, ValueOf(l));
        assert r[..|r| - 1] == ts[..|ts| - 1];
        assert ts == ts[..|ts| - 1] + [ts[|ts| - 1]];
        SumAppend(ts[..|ts| - 1], [ts[|ts| - 1]]);
        assert [ts[|ts| - 1]][..0] == [];
      }
    }
  }

  /** The reading loop of print_top: every blank line pushes the current
      elf, and the last elf is pushed at the end. */
  method ReadTotals(lines: seq<Line>) returns (elves: seq<int>)
    ensures elves == Totals(lines)
  {
    elves := [];
    var currentElf := 0;
    for i := 0 to |lines|
      invariant elves + [currentElf] == Totals(lines[..i])
    {
      var line := lines[i];
      assert lines[..i + 1] == lines[..i] + [line];
      TotalsSnoc(lines[..i], line);
      if line == Blank {
        elves := elves + [currentElf];
        currentElf := 0;
      } else {
        AddToLastOf(elves, currentElf, ValueOf(line));
        currentElf := currentElf + ValueOf(line);
      }
    }
    assert lines[..|lines|] == lines;
    elves := elves + [currentElf];
  }

  lemma AddToLastOf(ts: seq<int>, t: int, v: int)
    ensures AddToLast(ts + [t], v) == ts + [t + v]
  {
    assert (ts + [t])[..|ts|] == ts;
  }

  /** print_top(n): reads the totals, sorts them ascending, and pops n
      of them off the back. */
  method PrintTop(lines: seq<Line>, n: nat) returns (ans: int)
    requires n <= |Totals(lines)|
    ensures ans == Sum(Largest(Totals(lines), n))
  {
    var elves := ReadTotals(lines);
    elves := SortAsc(elves);
    SortAscReversed(Totals(lines));
    ans := PopLargest(elves, n);
  }

  /** The pop loop of print_top: takes n elements off the back of the
      vector and adds them up. */
  method PopLargest(elves: seq<int>, n: nat) returns (ans: int)
    requires n <= |elves|
    ensures ans == Sum(Reverse(elves)[..n])
  {
    var rest := elves;
    ans := 0;
    var count := n;
    while count > 0
      invariant 0 <= count <= n
      invariant rest == elves[..|elves| - (n - count)]
      invariant ans == Sum(Reverse(elves)[..n - count])
    {
      ghost var m := n - count;
      ghost var top := Reverse(elves);
      ReverseAt(elves);
      assert rest[|rest| - 1] == top[m];
      assert top[..m + 1][..m] == top[..m];
      ans := ans + rest[|rest| - 1];
      rest := rest[..|rest| - 1];
      count := count - 1;
    }
  }

  /** Part 1 and part 2 of this version. */
  method Part1(lines: seq<Line>) returns (ans: int)
    ensures ans == Sum(Largest(Totals(lines), 1))
  {
    ans := PrintTop(lines, 1);
  }

  method Part2(lines: seq<Line>) returns (ans: int)
    requires |Totals(lines)| >= 3
    ensures ans == Sum(Largest(Totals(lines), 3))
  {
    ans := PrintTop(lines, 3);
  }

  // ---------------------------------------------------------------------
  // Agreement with the first version

  /** Input where blank lines only separate elves: not first, not last,
      never two in a row. */
  predicate WellSpaced(lines: seq<Line>)
  {
    && lines != [] && lines[0] != Blank && lines[|lines| - 1] != Blank
    && NoDoubleBlank(lines)
  }

  predicate NoDoubleBlank(lines: seq<Line>)
  {
    forall i :: 0 <= i < |lines| - 1 ==> lines[i] != Blank || lines[i + 1] != Blank
  }

  lemma SumSnoc(g: seq<int>, v: int)
    ensures Sum(g + [v]) == Sum(g) + v
  {
    assert (g + [v])[..|g|] == g;
  }

  /** The loop view of a well-spaced prefix: the totals are the group
      sums, plus the empty elf a trailing blank line has opened. */
  lemma {:induction false} TotalsOfPrefix(p: seq<Line>)
    requires p != [] && p[0] != Blank && NoDoubleBlank(p)
    ensures p[|p| - 1] != Blank ==> Totals(p) == Sums(Groups(p))
    ensures p[|p| - 1] == Blank ==> Totals(p) == Sums(Groups(p)) + [0]
    decreases |p|
  {
    var q := p[..|p| - 1];
    var l := p[|p| - 1];
    assert p == q + [l];
    if q == [] {
      TotalsStepFirst(l);
    } else {
      assert q[0] == p[0];
      assert NoDoubleBlank(q) by {
        forall i | 0 <= i < |q| - 1
          ensures q[i] != Blank || q[i + 1] != Blank
        {
          assert q[i] == p[i] && q[i + 1] == p[i + 1];
        }
      }
      TotalsOfPrefix(q);
      if l == Blank {
        TotalsStepBlank(q);
      } else if q[|q| - 1] == Blank {
        TotalsStepStart(q, l);
      } else {
        TotalsStepJoin(q, l);
      }
    }
  }

  /** The last line's step of Totals, stated on p + [l]. */
  lemma TotalsSnoc(p: seq<Line>, l: Line)
    ensures Totals(p + [l]) == if l == Blank then Totals(p) + [0] else AddToLast(Totals(p), ValueOf(l))
  {
    assert (p + [l])[..|p|] == p;
  }

  lemma TotalsStepFirst(l: Line)
    requires l != Blank
    ensures Totals([l]) == Sums(Groups([l]))
  {
    var e: seq<Line> := [];
    assert [l] == e + [l] && [l][..0] == e;
    GroupsSnocStart(e, l);
    SumSnoc([], ValueOf(l));
  }

  lemma TotalsStepBlank(q: seq<Line>)
    requires q != [] && Totals(q) == Sums(Groups(q))
    ensures Totals(q + [Blank]) == Sums(Groups(q + [Blank])) + [0]
  {
    assert (q + [Blank])[..|q|] == q;
    GroupsSnocBlank(q);
  }

  lemma TotalsStepStart(q: seq<Line>, l: Line)
    requires l != Blank && q != [] && q[|q| - 1] == Blank
    requires Totals(q) == Sums(Groups(q)) + [0]
    ensures Totals(q + [l]) == Sums(Groups(q + [l]))
  {
    var v := ValueOf(l);
    var gs := Groups(q);
    GroupsSnocStart(q, l);
    calc {
      Totals(q + [l]);
    == { TotalsSnoc(q, l); }
      AddToLast(Totals(q), v);
    ==
      AddToLast(Sums(gs) + [0], v);
    == { SumsStart(gs, v); }
      Sums(gs + [[v]]);
    ==
      Sums(Groups(q + [l]));
    }
  }

  lemma TotalsStepJoin(q: seq<Line>, l: Line)
    requires l != Blank && q != [] && q[|q| - 1] != Blank
    requires Totals(q) == Sums(Groups(q))
    ensures Totals(q + [l]) == Sums(Groups(q + [l]))
  {
    var v := ValueOf(l);
    var gs := Groups(q);
    GroupsSnocJoin(q, l);
    calc {
      Totals(q + [l]);
    == { TotalsSnoc(q, l); }
      AddToLast(Totals(q), v);
    ==
      AddToLast(Sums(gs), v);
    == { SumsJoin(gs, v); }
      Sums(gs[..|gs| - 1] + [gs[|gs| - 1] + [v]]);
    ==
      Sums(Groups(q + [l]));
    }
  }

  /** A new group holding v adds a total of v. */
  lemma SumsStart(gs: seq<seq<int>>, v: int)
    ensures AddToLast(Sums(gs) + [0], v) == Sums(gs + [[v]])
  {
    var a := Sums(gs) + [0];
    var b := Sums(gs + [[v]]);
    SumSnoc([], v);
    assert a[..|gs|] == Sums(gs);
    forall i | 0 <= i < |gs|
      ensures b[i] == Sums(gs)[i]
    {
      assert (gs + [[v]])[i] == gs[i];
    }
    assert b[|gs|] == Sum([v]);
  }

  /** v joining the last group adds v to the last total. */
  lemma SumsJoin(gs: seq<seq<int>>, v: int)
    requires gs != []
    ensures AddToLast(Sums(gs), v) == Sums(gs[..|gs| - 1] + [gs[|gs| - 1] + [v]])
  {
    var n := |gs|;
    var hs := gs[..n - 1] + [gs[n - 1] + [v]];
    var b := Sums(hs);
    SumSnoc(gs[n - 1], v);
    forall i | 0 <= i < n - 1
      ensures b[i] == Sums(gs)[i]
    {
      assert hs[i] == gs[i];
    }
    assert b[n - 1] == Sum(gs[n - 1]) + v;
  }

  /** On such input both versions see the same elves. */
  lemma TotalsAreGroupSums(lines: seq<Line>)
    requires WellSpaced(lines)
    ensures Totals(lines) == Sums(Groups(lines))
  {
    TotalsOfPrefix(lines);
  }

  /** The single largest total is part1's maximum when some total is not
      negative. */
  lemma TopOneIsMax(s: seq<int>, m: int)
    requires |s| >= 1 && exists i :: 0 <= i < |s| && s[i] >= 0
    requires forall i :: 0 <= i < |s| ==> s[i] <= m
    requires m == 0 || exists i :: 0 <= i < |s| && s[i] == m
    ensures Sum(Largest(s, 1)) == m
  {
    var d := SortDesc(s);
    var top := d[0];
    assert Largest(s, 1) == [top];
    assert Sum([top]) == top by {
      assert [top][..0] == [];
    }
    assert top <= m by {
      assert top in multiset(s);
      var k :| 0 <= k < |s| && s[k] == top;
    }
    assert m <= top by {
      SortDescSorted(s);
      var j :| 0 <= j < |s| && s[j] >= 0;
      var x := if m == 0 then s[j] else m;
      assert x in multiset(s) by {
        if m != 0 {
          var i :| 0 <= i < |s| && s[i] == m;
        }
      }
      HeadIsLargest(d, x);
    }
  }

  /** With non-negative values no total is negative. */
  lemma {:induction false} TotalsNonNegative(lines: seq<Line>)
    requires forall i :: 0 <= i < |lines| ==> ValueOf(lines[i]) >= 0
    ensures forall i :: 0 <= i < |Totals(lines)| ==> Totals(lines)[i] >= 0
    decreases |lines|
  {
    if lines != [] {
      var p := lines[..|lines| - 1];
      assert forall i :: 0 <= i < |p| ==> p[i] == lines[i];
      TotalsNonNegative(p);
    }
  }

  /** The largest group sum, when the first is not negative. */
  lemma TopOneOfSums(gs: seq<seq<int>>, m: int)
    requires gs != [] && Sum(gs[0]) >= 0
    requires forall k :: 0 <= k < |gs| ==> Sum(gs[k]) <= m
    requires m == 0 || exists k :: 0 <= k < |gs| && Sum(gs[k]) == m
    ensures Sum(Largest(Sums(gs), 1)) == m
  {
    var s := Sums(gs);
    assert m == 0 || exists i :: 0 <= i < |s| && s[i] == m by {
      if m != 0 {
        var i :| 0 <= i < |gs| && Sum(gs[i]) == m;
        assert s[i] == m;
      }
    }
    TopOneIsMax(s, m);
  }

  /** With non-negative values, print_top(1) gives the maximum part1 of the
      first version computes (and by TotalsAreGroupSums print_top(3) sums
      the same three elves as its part2). */
  lemma AgreesWithFirstVersion(lines: seq<Line>, maxCalories: int)
    requires WellSpaced(lines) && forall i :: 0 <= i < |lines| ==> ValueOf(lines[i]) >= 0
    requires maxCalories >= 0
    requires forall k :: 0 <= k < |Groups(lines)| ==> Sum(Groups(lines)[k]) <= maxCalories
    requires maxCalories == 0 || exists k :: 0 <= k < |Groups(lines)| && Sum(Groups(lines)[k]) == maxCalories
    ensures Sum(Largest(Totals(lines), 1)) == maxCalories
  {
    var gs := Groups(lines);
    assert Totals(lines) == Sums(gs) by {
      TotalsAreGroupSums(lines);
    }
    assert gs != [] && Sum(gs[0]) >= 0 by {
      TotalsNonNegative(lines);
    }
    TopOneOfSums(gs, maxCalories);
  }
}
