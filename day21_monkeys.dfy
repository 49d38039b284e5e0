/** Monkey math: each monkey yells a number, or the result of an operation
    on the numbers two other monkeys yell. Part 1 evaluates the root; part
    2 finds what the human ("humn") must yell so that the root's two
    operands are equal, by inverting the operations down the one path
    that depends on the human. */
module MonkeyMath {
  import opened Common

  // --------------------------------------------------------- operations

  datatype Op = Plus | Minus | Times | Divide

  /** The keys of the ops table. */
  function OpOf(s: string): (r: Option<Op>)
    ensures r.Some? <==> s == "+" || s == "-" || s == "*" || s == "/"
  {
    if s == "+" then Some(Plus)
    else if s == "-" then Some(Minus)
    else if s == "*" then Some(Times)
    else if s == "/" then Some(Divide)
    else None
  }

  /** C++ division of long values, truncating toward zero, for any
      nonzero divisor. */
  function Quot(a: int, b: int): int
    requires b != 0
  {
    if b > 0 then CDiv(a, b) else -CDiv(a, -b)
  }

  /** A positive divisor of an exact multiple gives back the factor. */
  lemma CDivExact(a: int, b: int)
    requires b > 0
    ensures CDiv(a * b, b) == a
  {
    if a >= 0 {
      DivModUnique(a * b, b, a, 0);
    } else {
      assert -(a * b) == (-a) * b;
      DivModUnique((-a) * b, b, -a, 0);
    }
  }

  /** Dividing an exact multiple by a nonzero factor gives back the other
      factor. */
  lemma QuotExact(a: int, b: int)
    requires b != 0
    ensures Quot(a * b, b) == a
  {
    if b > 0 {
      CDivExact(a, b);
    } else {
      assert a * b == (-a) * (-b);
      CDivExact(-a, -b);
    }
  }

  /** eval: None stands for a division by zero. */
  function Eval(op: Op, n1: int, n2: int): Option<int>
  {
    match op
    case Plus => Some(n1 + n2)
    case Minus => Some(n1 - n2)
    case Times => Some(n1 * n2)
    case Divide => if n2 == 0 then None else Some(Quot(n1, n2))
  }

  /** solve1: the first operand that makes op yield res with the second
      given. */
  function Solve1(op: Op, res: int, n2: int): Option<int>
  {
    match op
    case Plus => Some(res - n2)
    case Minus => Some(res + n2)
    case Times => if n2 == 0 then None else Some(Quot(res, n2))
    case Divide => Some(res * n2)
  }

  /** solve2: the second operand that makes op yield res with the first
      given. */
  function Solve2(op: Op, res: int, n1: int): Option<int>
  {
    match op
    case Plus => Some(res - n1)
    case Minus => Some(n1 - res)
    case Times => if n1 == 0 then None else Some(Quot(res, n1))
    case Divide => if res == 0 then None else Some(Quot(n1, res))
  }

  /** solve1 undoes eval for +, - and, with a nonzero second operand, *. */
  lemma SolveFirst(op: Op, a: int, b: int)
    requires op != Divide && (op == Times ==> b != 0)
    ensures Eval(op, a, b).Some? && Solve1(op, Eval(op, a, b).value, b) == Some(a)
  {
    if op == Times {
      QuotExact(a, b);
    }
  }

  /** solve2 undoes eval for +, - and, with a nonzero first operand, *. */
  lemma SolveSecond(op: Op, a: int, b: int)
    requires op != Divide && (op == Times ==> a != 0)
    ensures Eval(op, a, b).Some? && Solve2(op, Eval(op, a, b).value, a) == Some(b)
  {
    if op == Times {
      assert a * b == b * a;
      QuotExact(b, a);
    }
  }

  /** For / the inverses hold when the division is exact. */
  lemma SolveDivide(q: int, b: int)
    requires b != 0
    ensures Eval(Divide, q * b, b) == Some(q)
    ensures Solve1(Divide, q, b) == Some(q * b)
    ensures q != 0 ==> Solve2(Divide, q, q * b) == Some(b)
  {
    QuotExact(q, b);
    if q != 0 {
      assert q * b == b * q;
      QuotExact(b, q);
    }
  }

  /** And only then: 7 / 2 is 3, and solve1 gives back 6. */
  lemma DivideLosesRemainder()
    ensures Eval(Divide, 7, 2) == Some(3) && Solve1(Divide, 3, 2) == Some(6)
  {
    DivModUnique(7, 2, 3, 1);
  }

  // ------------------------------------------------------------ monkeys

  /** What a monkey does: yell a number, or listen to two monkeys and
      combine what they yell. */
  datatype Job = Number(n: int) | Listen(op: Op, first: string, second: string)

  type Troop = map<string, Job>

  const Human := "humn"
  const Root := "root"

  /** Every monkey listened to exists (find asserts it) and ranks below
      its listener, so the listening relation has no cycle. */
  ghost predicate Ranked(ms: Troop, rank: map<string, nat>)
  {
    (forall n :: n in ms ==> n in rank) &&
    forall n :: n in ms && ms[n].Listen? ==>
      ms[n].first in ms && ms[n].second in ms &&
      rank[ms[n].first] < rank[n] && rank[ms[n].second] < rank[n]
  }

  /** monkey::yell, without the cache: None stands for a division by
      zero. */
  function Yell(ms: Troop, ghost rank: map<string, nat>, name: string): Option<int>
    requires Ranked(ms, rank) && name in ms
    decreases rank[name]
  {
    match ms[name]
    case Number(n) => Some(n)
    case Listen(op, f, s) =>
      var n1 :- Yell(ms, rank, f);
      var n2 :- Yell(ms, rank, s);
      Eval(op, n1, n2)
  }

  /** monkey::depends_on_human. */
  function DependsOnHuman(ms: Troop, ghost rank: map<string, nat>, name: string): bool
    requires Ranked(ms, rank) && name in ms
    decreases rank[name]
  {
    if name == Human then true
    else
      match ms[name]
      case Number(_) => false
      case Listen(_, f, s) => DependsOnHuman(ms, rank, f) || DependsOnHuman(ms, rank, s)
  }

  /** The troop with the human yelling h. */
  function WithHuman(ms: Troop, h: int): Troop
  {
    ms[Human := Number(h)]
  }

  /** The human yells a number, so the ranking still holds. */
  lemma WithHumanRanked(ms: Troop, rank: map<string, nat>, h: int)
    requires Ranked(ms, rank) && Human in ms
    ensures Ranked(WithHuman(ms, h), rank)
  {
  }

  /** A monkey that does not depend on the human yells the same whatever
      the human yells. */
  lemma {:induction false} HumanFree(ms: Troop, rank: map<string, nat>, name: string, h: int)
    requires Ranked(ms, rank) && name in ms && Human in ms
    requires !DependsOnHuman(ms, rank, name)
    ensures Ranked(WithHuman(ms, h), rank) && Yell(WithHuman(ms, h), rank, name) == Yell(ms, rank, name)
    decreases rank[name]
  {
    WithHumanRanked(ms, rank, h);
    match ms[name]
    case Number(_) =>
    case Listen(_, f, s) =>
      HumanFree(ms, rank, f, h);
      HumanFree(ms, rank, s, h);
  }

  /** monkey::solve: what the human should yell so that this monkey
      yells wanted. At the root, wanted is ignored and the side that
      depends on the human is solved for the other side's yell. None
      stands for a division by zero, and for solve reaching a monkey
      that yells a number (the source asserts it listens). */
  function Solve(ms: Troop, ghost rank: map<string, nat>, name: string, wanted: int): Option<int>
    requires Ranked(ms, rank) && name in ms
    decreases rank[name]
  {
    if name == Human then Some(wanted)
    else
      match ms[name]
      case Number(_) => None
      case Listen(op, f, s) =>
        if name == Root then
          if DependsOnHuman(ms, rank, f) then
            var n2 :- Yell(ms, rank, s);
            Solve(ms, rank, f, n2)
          else
            var n1 :- Yell(ms, rank, f);
            Solve(ms, rank, s, n1)
        else if DependsOnHuman(ms, rank, f) then
          var n2 :- Yell(ms, rank, s);
          var w :- Solve1(op, wanted, n2);
          Solve(ms, rank, f, w)
        else
          var n1 :- Yell(ms, rank, f);
          var w :- Solve2(op, wanted, n1);
          Solve(ms, rank, s, w)
  }

  /** When solve's inversion below the root is sound: on the path it
      descends, no monkey is the root, exactly one operand of each monkey
      depends on the human, the other can be yelled, and each inverse,
      evaluated again, gives back what was wanted (so no remainder of a
      division is lost). */
  ghost predicate Invertible(ms: Troop, rank: map<string, nat>, name: string, wanted: int)
    requires Ranked(ms, rank) && name in ms
    decreases rank[name]
  {
    if name == Human then true
    else
      match ms[name]
      case Number(_) => false
      case Listen(op, f, s) =>
        name != Root &&
        DependsOnHuman(ms, rank, f) != DependsOnHuman(ms, rank, s) &&
        if DependsOnHuman(ms, rank, f) then
          Yell(ms, rank, s).Some? &&
          var n2 := Yell(ms, rank, s).value;
          Solve1(op, wanted, n2).Some? &&
          Eval(op, Solve1(op, wanted, n2).value, n2) == Some(wanted) &&
          Invertible(ms, rank, f, Solve1(op, wanted, n2).value)
        else
          Yell(ms, rank, f).Some? &&
          var n1 := Yell(ms, rank, f).value;
          Solve2(op, wanted, n1).Some? &&
          Eval(op, n1, Solve2(op, wanted, n1).value) == Some(wanted) &&
          Invertible(ms, rank, s, Solve2(op, wanted, n1).value)
  }

  /** The same at the root: it listens, exactly one of its operands
      depends on the human, the other can be yelled, and below the
      depending one the inversion is sound. */
  ghost predicate RootInvertible(ms: Troop, rank: map<string, nat>)
    requires Ranked(ms, rank)
  {
    Root in ms && ms[Root].Listen? &&
    var f, s := ms[Root].first, ms[Root].second;
    DependsOnHuman(ms, rank, f) != DependsOnHuman(ms, rank, s) &&
    if DependsOnHuman(ms, rank, f) then
      Yell(ms, rank, s).Some? && Invertible(ms, rank, f, Yell(ms, rank, s).value)
    else
      Yell(ms, rank, f).Some? && Invertible(ms, rank, s, Yell(ms, rank, f).value)
  }

  /** Below the root, solve's answer makes the monkey yell what was
      wanted. */
  lemma {:induction false} SolveYieldsWanted(ms: Troop, rank: map<string, nat>, name: string, wanted: int)
    requires Ranked(ms, rank) && name in ms && Human in ms
    requires Invertible(ms, rank, name, wanted)
    ensures Solve(ms, rank, name, wanted).Some?
    ensures Ranked(WithHuman(ms, Solve(ms, rank, name, wanted).value), rank)
    ensures Yell(WithHuman(ms, Solve(ms, rank, name, wanted).value), rank, name) == Some(wanted)
    decreases rank[name]
  {
    if name != Human {
      var Listen(op, f, s) := ms[name];
      if DependsOnHuman(ms, rank, f) {
        var n2 := Yell(ms, rank, s).value;
        var w := Solve1(op, wanted, n2).value;
        SolveYieldsWanted(ms, rank, f, w);
        var h := Solve(ms, rank, f, w).value;
        assert Solve(ms, rank, name, wanted) == Some(h);
        HumanFree(ms, rank, s, h);
      } else {
        var n1 := Yell(ms, rank, f).value;
        var w := Solve2(op, wanted, n1).value;
        SolveYieldsWanted(ms, rank, s, w);
        var h := Solve(ms, rank, s, w).value;
        assert Solve(ms, rank, name, wanted) == Some(h);
        HumanFree(ms, rank, f, h);
      }
    } else {
      WithHumanRanked(ms, rank, wanted);
    }
  }

  /** Part 2's promise: with the human yelling solve's answer, the root's
      two operands yell the same number (whatever wanted the root was
      given). */
  lemma RootBalanced(ms: Troop, rank: map<string, nat>, wanted: int)
    requires Ranked(ms, rank) && Human in ms && RootInvertible(ms, rank)
    ensures Solve(ms, rank, Root, wanted).Some?
    ensures Ranked(WithHuman(ms, Solve(ms, rank, Root, wanted).value), rank)
    ensures Yell(WithHuman(ms, Solve(ms, rank, Root, wanted).value), rank, ms[Root].first).Some?
    ensures Yell(WithHuman(ms, Solve(ms, rank, Root, wanted).value), rank, ms[Root].first) ==
            Yell(WithHuman(ms, Solve(ms, rank, Root, wanted).value), rank, ms[Root].second)
  {
    var Listen(op, f, s) := ms[Root];
    if DependsOnHuman(ms, rank, f) {
      var n2 := Yell(ms, rank, s).value;
      SolveYieldsWanted(ms, rank, f, n2);
      var h := Solve(ms, rank, f, n2).value;
      assert Solve(ms, rank, Root, wanted) == Some(h);
      HumanFree(ms, rank, s, h);
    } else {
      var n1 := Yell(ms, rank, f).value;
      SolveYieldsWanted(ms, rank, s, n1);
      var h := Solve(ms, rank, s, n1).value;
      assert Solve(ms, rank, Root, wanted) == Some(h);
      HumanFree(ms, rank, f, h);
    }
  }

  // --------------------------------------------------------------- read

  /** One monkey's line from the whitespace-separated words at i:
      "name: number" or "name: first op second". Gives the name without
      its ':', the job and where the next line starts; None where the
      source's asserts fail (no ':' at the end of the name, input ending
      early, an operator not in the ops table). */
  function ParseLine(words: seq<string>, i: nat): (r: Option<(string, Job, nat)>)
    requires i < |words|
    ensures r.Some? ==> words[i] == r.value.0 + [':'] && i < r.value.2 <= |words|
    ensures r.Some? && r.value.1.Listen? ==>
      r.value.2 == i + 4 && r.value.1.first == words[i + 1] && r.value.1.second == words[i + 3] &&
      OpOf(words[i + 2]) == Some(r.value.1.op)
    ensures r.Some? && r.value.1.Number? ==>
      r.value.2 == i + 2 && words[i + 1] != [] && IsDigit(words[i + 1][0]) && r.value.1.n == Atoi(words[i + 1])
  {
    var word := words[i];
    if word == [] || word[|word| - 1] != ':' then None
    else
      var name := word[..|word| - 1];
      assert words[i] == name + [':'];
      if i + 1 == |words| then None
      else
        var first := words[i + 1];
        if first != [] && IsDigit(first[0]) then Some((name, Number(Atoi(first)), i + 2))
        else if i + 3 >= |words| then None
        else
          match OpOf(words[i + 2])
          case None => None
          case Some(op) => Some((name, Listen(op, first, words[i + 3]), i + 4))
  }

  /** read from word i on, into the monkeys read so far; None where an
      assert fails, including a name read twice. */
  function ReadFrom(words: seq<string>, i: nat, acc: Troop): Option<Troop>
    requires i <= |words|
    decreases |words| - i
  {
    if i == |words| then Some(acc)
    else
      match ParseLine(words, i)
      case None => None
      case Some((name, job, next)) =>
        if name in acc then None else ReadFrom(words, next, acc[name := job])
  }

  /** No monkey is ever redefined: the monkeys read before word i keep
      their jobs, and every new monkey was named by a word ending in ':'
      from i on. */
  lemma {:induction false} ReadKeeps(words: seq<string>, i: nat, acc: Troop)
    requires i <= |words| && ReadFrom(words, i, acc).Some?
    ensures forall n :: n in acc ==> n in ReadFrom(words, i, acc).value && ReadFrom(words, i, acc).value[n] == acc[n]
    ensures forall n :: n in ReadFrom(words, i, acc).value && n !in acc ==> n + [':'] in words[i..]
    decreases |words| - i
  {
    if i < |words| {
      var Some((name, job, next)) := ParseLine(words, i);
      ReadKeeps(words, next, acc[name := job]);
      assert words[i] in words[i..];
      forall n | n in ReadFrom(words, i, acc).value && n !in acc[name := job]
        ensures n + [':'] in words[i..]
      {
        assert words[next..] == words[i..][next - i..];
      }
    }
  }

  /** read: the loop over the input's lines. */
  method Read(words: seq<string>) returns (ms: Option<Troop>)
    ensures ms == ReadFrom(words, 0, map[])
  {
    var i := 0;
    var acc: Troop := map[];
    while i < |words|
      invariant i <= |words|
      invariant ReadFrom(words, i, acc) == ReadFrom(words, 0, map[])
      decreases |words| - i
    {
      match ParseLine(words, i)
      case None =>
        return None;
      case Some((name, job, next)) =>
        if name in acc {
          return None;
        }
        acc := acc[name := job];
        i := next;
    }
    return Some(acc);
  }

  /** part1: the root's yell; None also where read's or find's asserts
      fail. A troop that reads is given with a ranking showing its
      listening has no cycle. */
  method Part1(words: seq<string>, ghost rank: map<string, nat>) returns (ans: Option<int>)
    requires ReadFrom(words, 0, map[]).Some? ==> Ranked(ReadFrom(words, 0, map[]).value, rank)
    ensures ReadFrom(words, 0, map[]).None? || Root !in ReadFrom(words, 0, map[]).value ==> ans.None?
    ensures ReadFrom(words, 0, map[]).Some? && Root in ReadFrom(words, 0, map[]).value ==>
              ans == Yell(ReadFrom(words, 0, map[]).value, rank, Root)
  {
    var ms := Read(words);
    if ms.None? || Root !in ms.value {
      return None;
    }
    ans := Yell(ms.value, rank, Root);
  }

  /** part2: solve at the root, which ignores the 1 it is given. */
  method Part2(words: seq<string>, ghost rank: map<string, nat>) returns (ans: Option<int>)
    requires ReadFrom(words, 0, map[]).Some? ==> Ranked(ReadFrom(words, 0, map[]).value, rank)
    ensures ReadFrom(words, 0, map[]).None? || Root !in ReadFrom(words, 0, map[]).value ==> ans.None?
    ensures ReadFrom(words, 0, map[]).Some? && Root in ReadFrom(words, 0, map[]).value ==>
              ans == Solve(ReadFrom(words, 0, map[]).value, rank, Root, 1)
  {
    var ms := Read(words);
    if ms.None? || Root !in ms.value {
      return None;
    }
    ans := Solve(ms.value, rank, Root, 1);
  }
}
