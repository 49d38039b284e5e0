/** No space left on device, second version: the transcript is read as a
    depth-first walk, keeping a stack with the running size of every
    directory being walked; a directory's size is final when it is left. */
module SizeStack {
  import opened Common
  import FileTree

  /** The running sizes of the directories being walked (top last) and
      the sizes of the completed ones. */
  datatype Walk = Walk(sizes: seq<nat>, dirSizes: seq<nat>)

  /** pop_dir: the top size is final; it is saved and added to the new
      top, if any. */
  function PopDir(w: Walk): (r: Walk)
    requires w.sizes != []
    ensures |r.sizes| == |w.sizes| - 1 && |r.dirSizes| == |w.dirSizes| + 1
    ensures r.dirSizes == w.dirSizes + [w.sizes[|w.sizes| - 1]]
  {
    var n := |w.sizes|;
    var top := w.sizes[n - 1];
    var rest := w.sizes[..n - 1];
    Walk(if rest == [] then [] else rest[n - 2 := rest[n - 2] + top], w.dirSizes + [top])
  }

  /** Popping keeps the running total unless it completes the outermost
      directory, which takes its size out. */
  lemma PopDirTotal(w: Walk)
    requires w.sizes != []
    ensures |w.sizes| >= 2 ==> Sum(PopDir(w).sizes) == Sum(w.sizes)
    ensures |w.sizes| == 1 ==> PopDir(w).sizes == [] && Sum(w.sizes) == w.sizes[0]
  {
    var n := |w.sizes|;
    var top := w.sizes[n - 1];
    var rest := w.sizes[..n - 1];
    if n >= 2 {
      assert w.sizes[..n - 1] == rest;
      SumUpdate(rest, n - 2, rest[n - 2] + top);
    } else {
      assert w.sizes[..0] == [];
    }
  }

  /** The kinds of lines read tells apart, in its order of tests. */
  predicate IsUp(line: string) { line == "$ cd .." }
  predicate IsCd(line: string) { !IsUp(line) && |line| >= 5 && line[..5] == "$ cd " }
  predicate IsLs(line: string) { !IsUp(line) && !IsCd(line) && line == "$ ls" }
  predicate IsDir(line: string)
  {
    !IsUp(line) && !IsCd(line) && !IsLs(line) && |line| >= 4 && line[..4] == "dir "
  }
  predicate IsFile(line: string) { !IsUp(line) && !IsCd(line) && !IsLs(line) && !IsDir(line) }

  /** stoul on a file line: its leading digits, None when there are none
      and stoul throws. */
  function FileSize(line: string): Option<nat>
  {
    var k := LeadingDigits(line);
    if k == 0 then None else Some(DigitsValue(line[..k]))
  }

  /** One line of the transcript, None when an assert fails. */
  function Step(w: Walk, line: string): Option<Walk>
  {
    if IsUp(line) then
      if w.sizes == [] then None else Some(PopDir(w))
    else if IsCd(line) then Some(Walk(w.sizes + [0], w.dirSizes))
    else if IsLs(line) || IsDir(line) then Some(w)
    else match FileSize(line)
      case None => None
      case Some(size) =>
        if size > 0 && w.sizes != [] then
          Some(Walk(w.sizes[|w.sizes| - 1 := w.sizes[|w.sizes| - 1] + size], w.dirSizes))
        else None
  }

  /** The walk after the lines, from nothing. */
  function Walked(lines: seq<string>): Option<Walk>
    decreases |lines|
  {
    if lines == [] then Some(Walk([], []))
    else match Walked(lines[..|lines| - 1])
      case None => None
      case Some(w) => Step(w, lines[|lines| - 1])
  }

  /** The final loop: pop until the stack is empty. */
  function PopAll(w: Walk): (r: seq<nat>)
    ensures |r| == |w.dirSizes| + |w.sizes|
    decreases |w.sizes|
  {
    if w.sizes == [] then w.dirSizes else PopAll(PopDir(w))
  }

  /** What read returns. */
  function ReadSpec(lines: seq<string>): Option<seq<nat>>
  {
    match Walked(lines)
    case None => None
    case Some(w) => Some(PopAll(w))
  }

  /** The directories walked: the cd lines other than "$ cd ..". */
  function Pushes(lines: seq<string>): nat
  {
    if lines == [] then 0
    else Pushes(lines[..|lines| - 1]) + (if IsCd(lines[|lines| - 1]) then 1 else 0)
  }

  /** Every cd into a directory is counted once, in the stack while it is
      walked and in the completed sizes afterwards. */
  lemma {:induction false} WalkedCounts(lines: seq<string>)
    requires Walked(lines).Some?
    ensures |Walked(lines).value.sizes| + |Walked(lines).value.dirSizes| == Pushes(lines)
    decreases |lines|
  {
    if lines != [] {
      WalkedCounts(lines[..|lines| - 1]);
    }
  }

  /** read returns one size per directory entered. */
  lemma ReadCounts(lines: seq<string>)
    requires ReadSpec(lines).Some?
    ensures |ReadSpec(lines).value| == Pushes(lines)
  {
    WalkedCounts(lines);
  }

  /** The size a line contributes: a file line's size, 0 for the rest. */
  function LineSize(line: string): nat
  {
    if IsFile(line) && FileSize(line).Some? then FileSize(line).value else 0
  }

  function FileTotal(lines: seq<string>): nat
  {
    if lines == [] then 0 else FileTotal(lines[..|lines| - 1]) + LineSize(lines[|lines| - 1])
  }

  /** The transcript never leaves its first directory: the stack is not
      empty after any nonempty prefix. */
  predicate StaysInside(lines: seq<string>)
  {
    forall k :: 1 <= k <= |lines| ==> Walked(lines[..k]).Some? && Walked(lines[..k]).value.sizes != []
  }

  /** While the walk stays inside its first directory, the stack holds
      every file size read so far. */
  lemma {:induction false} StackHoldsFiles(lines: seq<string>)
    requires lines != [] && StaysInside(lines)
    ensures Walked(lines).Some? && Sum(Walked(lines).value.sizes) == FileTotal(lines)
    decreases |lines|
  {
    var init := lines[..|lines| - 1];
    var line := lines[|lines| - 1];
    assert lines[..|lines|] == lines;
    var w := Walked(lines).value;
    if init == [] {
      var w0 := Walk([], []);
      assert Walked(init) == Some(w0);
      assert IsCd(line);
      assert [0][..0] == [];
    } else {
      forall k | 1 <= k <= |init|
        ensures Walked(init[..k]).Some? && Walked(init[..k]).value.sizes != []
      {
        assert init[..k] == lines[..k];
      }
      StackHoldsFiles(init);
      var v := Walked(init).value;
      if IsUp(line) {
        PopDirTotal(v);
      } else if IsCd(line) {
        SumAppend(v.sizes, [0]);
        assert Sum([0]) == 0 by { assert [0][..0] == []; }
      } else if IsFile(line) {
        var n := |v.sizes| - 1;
        SumUpdate(v.sizes, n, v.sizes[n] + FileSize(line).value);
      }
    }
  }

  /** Popping everything left leaves the stack's total as the last size. */
  lemma {:induction false} PopAllLast(w: Walk)
    requires w.sizes != []
    ensures PopAll(w)[|PopAll(w)| - 1] == Sum(w.sizes)
    decreases |w.sizes|
  {
    PopDirTotal(w);
    if |w.sizes| >= 2 {
      PopAllLast(PopDir(w));
    }
  }

  /** When the transcript stays inside its first directory, the last size
      read returns is that of the root: all file sizes added up. */
  lemma RootIsFileTotal(lines: seq<string>)
    requires lines != [] && StaysInside(lines)
    ensures ReadSpec(lines).Some? && ReadSpec(lines).value != []
    ensures ReadSpec(lines).value[|ReadSpec(lines).value| - 1] == FileTotal(lines)
  {
    assert lines[..|lines|] == lines;
    StackHoldsFiles(lines);
    PopAllLast(Walked(lines).value);
  }

  /** pop_dir on the two vectors. */
  method PopDirOf(sizes: seq<nat>, dirSizes: seq<nat>) returns (sizes': seq<nat>, dirSizes': seq<nat>)
    requires sizes != []
    ensures Walk(sizes', dirSizes') == PopDir(Walk(sizes, dirSizes))
  {
    var dirSize := sizes[|sizes| - 1];
    sizes' := sizes[..|sizes| - 1];
    dirSizes' := dirSizes + [dirSize];
    if sizes' != [] {
      sizes' := sizes'[|sizes'| - 1 := sizes'[|sizes'| - 1] + dirSize];
    }
  }

  /** read: the loop over the lines, then popping back to the root. None
      stands for a failed assert. */
  method Read(lines: seq<string>) returns (dirSizes: Option<seq<nat>>)
    ensures dirSizes == ReadSpec(lines)
  {
    var sizes: seq<nat> := [];
    var done: seq<nat> := [];
    for i := 0 to |lines|
      invariant Walked(lines[..i]) == Some(Walk(sizes, done))
    {
      var line := lines[i];
      assert lines[..i + 1][..i] == lines[..i];
      if line == "$ cd .." {
        if sizes == [] {
          WalkedStopped(lines, i + 1);
          return None;
        }
        sizes, done := PopDirOf(sizes, done);
      } else if |line| >= 5 && line[..5] == "$ cd " {
        sizes := sizes + [0];
      } else if line == "$ ls" {
      } else if |line| >= 4 && line[..4] == "dir " {
      } else {
        var size := FileSize(line);
        if size.None? || !(size.value > 0 && sizes != []) {
          WalkedStopped(lines, i + 1);
          return None;
        }
        sizes := sizes[|sizes| - 1 := sizes[|sizes| - 1] + size.value];
      }
    }
    assert lines[..|lines|] == lines;
    while sizes != []
      invariant PopAll(Walk(sizes, done)) == PopAll(Walked(lines).value)
      decreases |sizes|
    {
      sizes, done := PopDirOf(sizes, done);
    }
    dirSizes := Some(done);
  }

  /** Once an assert has failed the rest of the transcript does not
      matter. */
  lemma {:induction false} WalkedStopped(lines: seq<string>, k: nat)
    requires k <= |lines| && Walked(lines[..k]).None?
    ensures Walked(lines).None?
    decreases |lines|
  {
    if k < |lines| {
      assert lines[..|lines| - 1][..k] == lines[..k];
      WalkedStopped(lines[..|lines| - 1], k);
    } else {
      assert lines[..k] == lines;
    }
  }

  /** part1: the sizes at most 100000 added up. */
  method Part1(lines: seq<string>) returns (ans: Option<nat>)
    ensures ReadSpec(lines).None? ==> ans.None?
    ensures ReadSpec(lines).Some? ==> ans == Some(Sum(FileTree.Small(ReadSpec(lines).value)))
  {
    var dirSizes := Read(lines);
    if dirSizes.None? {
      return None;
    }
    var total := FileTree.SumSmall(dirSizes.value);
    ans := Some(total);
  }

  /** part2: the root is the last size; the answer is the smallest size
      whose deletion frees enough space, or the root's own size. */
  method Part2(lines: seq<string>) returns (ans: Option<nat>)
    ensures ReadSpec(lines).None? || ReadSpec(lines).value == [] ==> ans.None?
    ensures ReadSpec(lines).Some? && ReadSpec(lines).value != [] ==>
      (ans.None? <==> FileTree.Free(ReadSpec(lines).value[|ReadSpec(lines).value| - 1]).None?)
    ensures ans.Some? ==>
      var sizes := ReadSpec(lines).value;
      var used := sizes[|sizes| - 1];
      FileTree.Free(used).Some? &&
      var free := FileTree.Free(used).value;
      ans.value in sizes && free + ans.value >= FileTree.Required &&
      forall k :: 0 <= k < |sizes| && free + sizes[k] >= FileTree.Required ==> ans.value <= sizes[k]
  {
    var dirSizes := Read(lines);
    if dirSizes.None? || dirSizes.value == [] {
      return None;
    }
    var sizes := dirSizes.value;
    var used := sizes[|sizes| - 1];
    ans := FileTree.SmallestFreeing(sizes, used);
  }
}
