/** No space left on device: a shell transcript of cd and ls commands is
    replayed to rebuild the directory tree, and the directory sizes are
    then summed (part1) or searched for the smallest one whose deletion
    frees enough space (part2). */
module FileTree {
  import opened Common

  // ------------------------------------------------------------- inodes

  /** An inode: a size (0 for directories) and the entries of a
      directory, in the order they were made. */
  datatype Inode = Inode(size: nat, contents: seq<Entry>)
  datatype Entry = Entry(name: string, node: Inode)

  predicate IsDirectory(n: Inode)
  {
    n.size == 0
  }

  /** contents.find(name): the position of the entry with that name. */
  function Find(contents: seq<Entry>, name: string): (r: Option<nat>)
    ensures r.Some? ==> r.value < |contents| && contents[r.value].name == name
    ensures r.None? <==> forall i :: 0 <= i < |contents| ==> contents[i].name != name
  {
    if contents == [] then None
    else if contents[|contents| - 1].name == name then Some(|contents| - 1)
    else Find(contents[..|contents| - 1], name)
  }

  /** No two entries of a directory share a name. */
  predicate UniqueNames(contents: seq<Entry>)
  {
    forall i, j :: 0 <= i < j < |contents| ==> contents[i].name != contents[j].name
  }

  /** With unique names the entry found is the only one with that name. */
  lemma FindUnique(contents: seq<Entry>, name: string, i: nat)
    requires UniqueNames(contents) && i < |contents| && contents[i].name == name
    ensures Find(contents, name) == Some(i)
  {
  }

  /** make_entry: a fresh name gets a new empty inode of the given size;
      None when the name is taken and the assert fails. */
  function MakeEntry(dir: Inode, name: string, size: nat): Option<Inode>
  {
    if Find(dir.contents, name).Some? then None
    else Some(Inode(dir.size, dir.contents + [Entry(name, Inode(size, []))]))
  }

  lemma MakeEntrySpec(dir: Inode, name: string, size: nat)
    ensures MakeEntry(dir, name, size).Some? <==>
      forall i :: 0 <= i < |dir.contents| ==> dir.contents[i].name != name
    ensures MakeEntry(dir, name, size).Some? ==>
      var d := MakeEntry(dir, name, size).value;
      d.size == dir.size && |d.contents| == |dir.contents| + 1 &&
      d.contents[..|dir.contents|] == dir.contents &&
      d.contents[|dir.contents|] == Entry(name, Inode(size, [])) &&
      (UniqueNames(dir.contents) ==> UniqueNames(d.contents) && Find(d.contents, name) == Some(|dir.contents|))
  {
    if MakeEntry(dir, name, size).Some? {
      var d := MakeEntry(dir, name, size).value;
      assert d.contents[..|dir.contents|] == dir.contents;
      if UniqueNames(dir.contents) {
        assert UniqueNames(d.contents);
        FindUnique(d.contents, name, |dir.contents|);
      }
    }
  }

  // -------------------------------------------------------------- paths

  /** The inode a path of names leads to from root, following find. The
      current directory is kept as such a path; its parent is the path
      without its last name. */
  function At(root: Inode, path: seq<string>): Option<Inode>
    decreases |path|
  {
    if path == [] then Some(root)
    else match Find(root.contents, path[0])
      case None => None
      case Some(i) => At(root.contents[i].node, path[1..])
  }

  /** The tree with the inode at path replaced by sub. */
  function Replace(root: Inode, path: seq<string>, sub: Inode): Inode
    requires At(root, path).Some?
    decreases |path|
  {
    if path == [] then sub
    else
      var i := Find(root.contents, path[0]).value;
      Inode(root.size, root.contents[i := Entry(path[0], Replace(root.contents[i].node, path[1..], sub))])
  }

  /** find only looks at the names. */
  lemma {:induction false} FindSameNames(a: seq<Entry>, b: seq<Entry>, name: string)
    requires |a| == |b| && forall k :: 0 <= k < |a| ==> a[k].name == b[k].name
    ensures Find(a, name) == Find(b, name)
    decreases |a|
  {
    if a != [] && a[|a| - 1].name != name {
      FindSameNames(a[..|a| - 1], b[..|b| - 1], name);
    }
  }

  /** After the replacement the path leads to the new inode. */
  lemma {:induction false} ReplaceAt(root: Inode, path: seq<string>, sub: Inode)
    requires At(root, path).Some?
    ensures At(Replace(root, path, sub), path) == Some(sub)
    decreases |path|
  {
    if path != [] {
      var i := Find(root.contents, path[0]).value;
      var r := Replace(root, path, sub);
      FindSameNames(root.contents, r.contents, path[0]);
      ReplaceAt(root.contents[i].node, path[1..], sub);
    }
  }

  /** Every prefix of a path that leads somewhere leads somewhere: the
      parent of the current directory exists. */
  lemma {:induction false} AtPrefix(root: Inode, path: seq<string>, k: nat)
    requires At(root, path).Some? && k <= |path|
    ensures At(root, path[..k]).Some?
    decreases |path|
  {
    if k > 0 {
      var i := Find(root.contents, path[0]).value;
      assert path[..k][1..] == path[1..][..k - 1];
      AtPrefix(root.contents[i].node, path[1..], k - 1);
    }
  }

  /** Every directory of the tree has unique names. */
  predicate AllUnique(n: Inode)
    decreases n
  {
    UniqueNames(n.contents) &&
    forall i :: 0 <= i < |n.contents| ==> AllUnique(n.contents[i].node)
  }

  lemma {:induction false} AtUnique(root: Inode, path: seq<string>)
    requires AllUnique(root) && At(root, path).Some?
    ensures AllUnique(At(root, path).value)
    decreases |path|
  {
    if path != [] {
      var i := Find(root.contents, path[0]).value;
      AtUnique(root.contents[i].node, path[1..]);
    }
  }

  lemma {:induction false} ReplaceUnique(root: Inode, path: seq<string>, sub: Inode)
    requires AllUnique(root) && AllUnique(sub) && At(root, path).Some?
    ensures AllUnique(Replace(root, path, sub))
    decreases |path|
  {
    if path != [] {
      var i := Find(root.contents, path[0]).value;
      var r := Replace(root, path, sub);
      ReplaceUnique(root.contents[i].node, path[1..], sub);
      forall a, b | 0 <= a < b < |r.contents|
        ensures r.contents[a].name != r.contents[b].name
      {
        assert r.contents[a].name == root.contents[a].name;
        assert r.contents[b].name == root.contents[b].name;
      }
    }
  }

  // --------------------------------------------------------------- scan

  /** scan: the line starts with the prefix; then the prefix is cut off,
      otherwise the line is left alone. */
  function Scan(line: string, prefix: string): (bool, string)
  {
    if |prefix| <= |line| && line[..|prefix|] == prefix then (true, line[|prefix|..])
    else (false, line)
  }

  /** A successful scan splits the line into the prefix and the rest; an
      unsuccessful one means the line does not start with the prefix. */
  lemma ScanSplits(line: string, prefix: string)
    ensures Scan(line, prefix).0 ==> line == prefix + Scan(line, prefix).1
    ensures !Scan(line, prefix).0 ==>
      Scan(line, prefix).1 == line && forall rest :: line != prefix + rest
  {
    if !Scan(line, prefix).0 {
      forall rest
        ensures line != prefix + rest
      {
        if line == prefix + rest {
          assert false;
        }
      }
    }
  }

  // --------------------------------------------------------------- read

  /** The tree read so far and the current directory. */
  datatype Shell = Shell(root: Inode, cwd: seq<string>)

  predicate Valid(st: Shell)
  {
    At(st.root, st.cwd).Some? && AllUnique(st.root)
  }

  /** What stoul leaves of a file line: the size and the position after
      the digits, or None when the line does not start with a digit. */
  function Stoul(line: string): Option<(nat, nat)>
  {
    var k := LeadingDigits(line);
    if k == 0 then None else Some((DigitsValue(line[..k]), k))
  }

  /** A new entry in the current directory. */
  function AddEntry(st: Shell, name: string, size: nat): Option<Shell>
    requires Valid(st)
  {
    match MakeEntry(At(st.root, st.cwd).value, name, size)
    case None => None
    case Some(d) => Some(Shell(Replace(st.root, st.cwd, d), st.cwd))
  }

  /** One line of the transcript, None when an assert fails. */
  function Step(st: Shell, line: string): Option<Shell>
    requires Valid(st)
  {
    if Scan(line, "$ cd /").0 then Some(Shell(st.root, []))
    else if Scan(line, "$ cd ..").0 then
      if st.cwd == [] then None else Some(Shell(st.root, st.cwd[..|st.cwd| - 1]))
    else if Scan(line, "$ cd ").0 then
      var name := Scan(line, "$ cd ").1;
      if Find(At(st.root, st.cwd).value.contents, name).None? then None
      else Some(Shell(st.root, st.cwd + [name]))
    else if Scan(line, "$ ls").0 then Some(st)
    else if Scan(line, "dir ").0 then AddEntry(st, Scan(line, "dir ").1, 0)
    else match Stoul(line)
      case None => None
      case Some(parsed) =>
        if parsed.0 > 0 && parsed.1 + 1 < |line| then AddEntry(st, line[parsed.1 + 1..], parsed.0)
        else None
  }

  /** A new entry keeps the tree's names unique and the current directory
      where it is. */
  lemma AddEntryValid(st: Shell, name: string, size: nat)
    requires Valid(st) && AddEntry(st, name, size).Some?
    ensures Valid(AddEntry(st, name, size).value)
    ensures AddEntry(st, name, size).value.cwd == st.cwd
  {
    var dir := At(st.root, st.cwd).value;
    var d := MakeEntry(dir, name, size).value;
    AtUnique(st.root, st.cwd);
    MakeEntrySpec(dir, name, size);
    forall i | 0 <= i < |d.contents|
      ensures AllUnique(d.contents[i].node)
    {
      if i < |dir.contents| {
        assert d.contents[i] == dir.contents[i];
      }
    }
    ReplaceAt(st.root, st.cwd, d);
    ReplaceUnique(st.root, st.cwd, d);
  }

  /** Every line keeps the current directory an existing inode and the
      names in each directory unique. */
  lemma StepValid(st: Shell, line: string)
    requires Valid(st)
    ensures Step(st, line).Some? ==> Valid(Step(st, line).value)
  {
    if Step(st, line).None? {
    } else if Scan(line, "$ cd /").0 {
    } else if Scan(line, "$ cd ..").0 {
      AtPrefix(st.root, st.cwd, |st.cwd| - 1);
    } else if Scan(line, "$ cd ").0 {
      var name := Scan(line, "$ cd ").1;
      AtExtend(st.root, st.cwd, name);
    } else if Scan(line, "$ ls").0 {
    } else if Scan(line, "dir ").0 {
      AddEntryValid(st, Scan(line, "dir ").1, 0);
    } else {
      var parsed := Stoul(line).value;
      AddEntryValid(st, line[parsed.1 + 1..], parsed.0);
    }
  }

  /** A path extended by the name of an entry of where it leads. */
  lemma {:induction false} AtExtend(root: Inode, path: seq<string>, name: string)
    requires At(root, path).Some? && Find(At(root, path).value.contents, name).Some?
    ensures At(root, path + [name]).Some?
    decreases |path|
  {
    if path != [] {
      var i := Find(root.contents, path[0]).value;
      assert (path + [name])[1..] == path[1..] + [name];
      AtExtend(root.contents[i].node, path[1..], name);
    }
  }

  /** The state after the lines, from an empty root directory. */
  function ReadSpec(lines: seq<string>): (r: Option<Shell>)
    ensures r.Some? ==> Valid(r.value)
    decreases |lines|
  {
    if lines == [] then Some(Shell(Inode(0, []), []))
    else match ReadSpec(lines[..|lines| - 1])
      case None => None
      case Some(st) =>
        StepValid(st, lines[|lines| - 1]);
        Step(st, lines[|lines| - 1])
  }

  /** The body of read's loop, with scan's cuts. */
  method Execute(root: Inode, cwd: seq<string>, line: string) returns (r: Option<Shell>)
    requires Valid(Shell(root, cwd))
    ensures r == Step(Shell(root, cwd), line)
  {
    var dir := At(root, cwd).value;
    var line := line;
    var found, rest := Scan(line, "$ cd /").0, Scan(line, "$ cd /").1;
    if found {
      return Some(Shell(root, []));
    }
    found, rest := Scan(line, "$ cd ..").0, Scan(line, "$ cd ..").1;
    if found {
      if cwd == [] {
        return None;
      }
      return Some(Shell(root, cwd[..|cwd| - 1]));
    }
    found, rest := Scan(line, "$ cd ").0, Scan(line, "$ cd ").1;
    if found {
      var child := Find(dir.contents, rest);
      if child.None? {
        return None;
      }
      return Some(Shell(root, cwd + [rest]));
    }
    found, rest := Scan(line, "$ ls").0, Scan(line, "$ ls").1;
    if found {
      return Some(Shell(root, cwd));
    }
    found, rest := Scan(line, "dir ").0, Scan(line, "dir ").1;
    if found {
      return AddEntry(Shell(root, cwd), rest, 0);
    }
    var parsed := Stoul(line);
    if parsed.None? || !(parsed.value.0 > 0 && parsed.value.1 + 1 < |line|) {
      return None;
    }
    r := AddEntry(Shell(root, cwd), line[parsed.value.1 + 1..], parsed.value.0);
  }

  /** read: replay the transcript from an empty root. None stands for a
      failed assert. */
  method Read(lines: seq<string>) returns (root: Option<Inode>)
    ensures ReadSpec(lines).None? ==> root.None?
    ensures ReadSpec(lines).Some? ==> root == Some(ReadSpec(lines).value.root) && AllUnique(root.value)
  {
    var tree := Inode(0, []);
    var cwd: seq<string> := [];
    for i := 0 to |lines|
      invariant ReadSpec(lines[..i]) == Some(Shell(tree, cwd))
    {
      assert lines[..i + 1][..i] == lines[..i];
      var next := Execute(tree, cwd, lines[i]);
      if next.None? {
        ReadStopped(lines, i + 1);
        return None;
      }
      tree, cwd := next.value.root, next.value.cwd;
    }
    assert lines[..|lines|] == lines;
    root := Some(tree);
  }

  /** Once an assert has failed the rest of the transcript does not
      matter. */
  lemma {:induction false} ReadStopped(lines: seq<string>, k: nat)
    requires k <= |lines| && ReadSpec(lines[..k]).None?
    ensures ReadSpec(lines).None?
    decreases |lines|
  {
    if k < |lines| {
      assert lines[..|lines| - 1][..k] == lines[..k];
      ReadStopped(lines[..|lines| - 1], k);
    } else {
      assert lines[..k] == lines;
    }
  }

  // --------------------------------------------------------- total_size

  /** total_size: a file's size, or the sum over a directory's entries. */
  function TotalSize(n: Inode): nat
    decreases n, 1
  {
    if !IsDirectory(n) then n.size else EntriesSize(n.contents)
  }

  function EntriesSize(es: seq<Entry>): nat
    decreases es, 0
  {
    if es == [] then 0 else EntriesSize(es[..|es| - 1]) + TotalSize(es[|es| - 1].node)
  }

  /** The arguments total_size passes to process_dir, each directory's
      size after those of everything below it. Entries are visited in the
      order they were created, where the source's map visits them by
      name: the two agree as multisets. */
  function Calls(n: Inode): seq<nat>
    decreases n, 1
  {
    if !IsDirectory(n) then [] else EntriesCalls(n.contents) + [TotalSize(n)]
  }

  function EntriesCalls(es: seq<Entry>): seq<nat>
    decreases es, 0
  {
    if es == [] then [] else EntriesCalls(es[..|es| - 1]) + Calls(es[|es| - 1].node)
  }

  /** The sizes of the files of a tree, leaf by leaf. */
  function Files(n: Inode): seq<int>
    decreases n, 1
  {
    if !IsDirectory(n) then [n.size] else EntriesFiles(n.contents)
  }

  function EntriesFiles(es: seq<Entry>): seq<int>
    decreases es, 0
  {
    if es == [] then [] else EntriesFiles(es[..|es| - 1]) + Files(es[|es| - 1].node)
  }

  /** The total size of a tree is the sum of its file sizes. */
  lemma {:induction false} TotalIsFileSum(n: Inode)
    ensures TotalSize(n) == Sum(Files(n))
    decreases n, 1
  {
    if IsDirectory(n) {
      EntriesTotalIsFileSum(n.contents);
    } else {
      assert [n.size][..0] == [];
    }
  }

  lemma {:induction false} EntriesTotalIsFileSum(es: seq<Entry>)
    ensures EntriesSize(es) == Sum(EntriesFiles(es))
    decreases es, 0
  {
    if es != [] {
      EntriesTotalIsFileSum(es[..|es| - 1]);
      TotalIsFileSum(es[|es| - 1].node);
      SumAppend(EntriesFiles(es[..|es| - 1]), Files(es[|es| - 1].node));
    }
  }

  /** No directory below n is larger than n, and a directory's own size
      is the last one handed to process_dir. */
  lemma {:induction false} CallsBounded(n: Inode)
    ensures forall k :: 0 <= k < |Calls(n)| ==> Calls(n)[k] <= TotalSize(n)
    ensures IsDirectory(n) ==> Calls(n) != [] && Calls(n)[|Calls(n)| - 1] == TotalSize(n)
    decreases n, 1
  {
    if IsDirectory(n) {
      EntriesCallsBounded(n.contents);
    }
  }

  lemma {:induction false} EntriesCallsBounded(es: seq<Entry>)
    ensures forall k :: 0 <= k < |EntriesCalls(es)| ==> EntriesCalls(es)[k] <= EntriesSize(es)
    decreases es, 0
  {
    if es != [] {
      var init := es[..|es| - 1];
      var last := es[|es| - 1].node;
      EntriesCallsBounded(init);
      CallsBounded(last);
      var a := EntriesCalls(init);
      var b := Calls(last);
      forall k | 0 <= k < |a + b|
        ensures (a + b)[k] <= EntriesSize(es)
      {
        if k < |a| {
          assert (a + b)[k] == a[k];
        } else {
          assert (a + b)[k] == b[k - |a|];
        }
      }
    }
  }

  // -------------------------------------------------------------- parts

  const SmallLimit := 100000
  const TotalDisk := 70000000
  const Required := 30000000

  /** The sizes part1 adds up: those at most 100000, in order. */
  function Small(sizes: seq<nat>): seq<int>
  {
    if sizes == [] then []
    else
      var last := sizes[|sizes| - 1];
      if last <= SmallLimit then Small(sizes[..|sizes| - 1]) + [last]
      else Small(sizes[..|sizes| - 1])
  }

  /** Small keeps exactly the sizes at most 100000, each as often as it
      occurs. */
  lemma {:induction false} SmallSpec(sizes: seq<nat>)
    ensures forall k :: 0 <= k < |Small(sizes)| ==> 0 <= Small(sizes)[k] <= SmallLimit
    ensures forall x :: x <= SmallLimit ==> multiset(Small(sizes))[x] == multiset(sizes)[x]
    ensures forall x :: x > SmallLimit ==> multiset(Small(sizes))[x] == 0
    decreases |sizes|
  {
    if sizes != [] {
      var init := sizes[..|sizes| - 1];
      var last := sizes[|sizes| - 1];
      SmallSpec(init);
      assert sizes == init + [last];
    }
  }

  /** part1's callback over the directory sizes: add those at most
      100000. */
  method SumSmall(sizes: seq<nat>) returns (ans: nat)
    ensures ans == Sum(Small(sizes))
    ensures ans <= SmallLimit * |sizes|
  {
    ans := 0;
    for i := 0 to |sizes|
      invariant ans == Sum(Small(sizes[..i]))
      invariant ans <= SmallLimit * i
    {
      assert sizes[..i + 1][..i] == sizes[..i];
      if sizes[i] <= SmallLimit {
        var before := Small(sizes[..i]);
        assert (before + [sizes[i]])[..|before|] == before;
        ans := ans + sizes[i];
      }
    }
    assert sizes[..|sizes|] == sizes;
  }

  /** The free space part2 starts from, None when its assert fails. The
      unsigned subtraction wraps for a used size above the disk, which
      makes the free space huge and fails the assert too. */
  function Free(used: nat): Option<nat>
  {
    if used > TotalDisk || TotalDisk - used >= Required then None else Some(TotalDisk - used)
  }

  /** part2's callback over the directory sizes: the smallest size whose
      deletion leaves enough free space, starting from used. */
  method SmallestFreeing(sizes: seq<nat>, used: nat) returns (ans: Option<nat>)
    ensures ans.None? <==> Free(used).None?
    ensures ans.Some? ==>
      var free := Free(used).value;
      ans.value <= used &&
      (ans.value == used || (ans.value in sizes && free + ans.value >= Required)) &&
      forall k :: 0 <= k < |sizes| && free + sizes[k] >= Required ==> ans.value <= sizes[k]
  {
    if used > TotalDisk {
      return None;
    }
    var free := TotalDisk - used;
    if !(free < Required) {
      return None;
    }
    var best := used;
    for i := 0 to |sizes|
      invariant best <= used
      invariant best == used || (best in sizes && free + best >= Required)
      invariant forall k :: 0 <= k < i && free + sizes[k] >= Required ==> best <= sizes[k]
    {
      if free + sizes[i] >= Required && sizes[i] < best {
        best := sizes[i];
      }
    }
    ans := Some(best);
  }

  /** part1 on the tree. */
  method Part1(root: Inode) returns (ans: nat)
    ensures ans == Sum(Small(Calls(root)))
  {
    ans := SumSmall(Calls(root));
  }

  /** part2 on the tree: the root itself always qualifies, so the answer
      is the size of a directory that frees enough space, and no smaller
      such directory exists. */
  method Part2(root: Inode) returns (ans: Option<nat>)
    requires IsDirectory(root)
    ensures ans.None? <==> Free(TotalSize(root)).None?
    ensures ans.Some? ==>
      var calls := Calls(root);
      ans.value in calls && Free(TotalSize(root)).value + ans.value >= Required &&
      forall k :: 0 <= k < |calls| && Free(TotalSize(root)).value + calls[k] >= Required ==> ans.value <= calls[k]
  {
    var used := TotalSize(root);
    CallsBounded(root);
    ans := SmallestFreeing(Calls(root), used);
    if ans.Some? {
      assert Calls(root)[|Calls(root)| - 1] == used;
    }
  }
}
