/** Distress Signal: packets are integers or lists of packets, written
    with brackets and commas. Two packets compare element by element; an
    integer met by a list is compared as the list holding just it. Part 1
    sums the indices of the pairs in the right order; part 2 sorts all
    packets with two divider packets and multiplies the dividers'
    positions. */
module DistressSignal {
  import opened Common

  /** packet: an integer, or a list of packets. */
  datatype Packet = Int(v: int) | List(items: seq<Packet>)

  /** How many packets a packet is built of, itself included. */
  function Size(p: Packet): (n: nat)
    ensures n >= 1
  {
    match p
    case Int(_) => 1
    case List(xs) => 1 + Sizes(xs)
  }

  function Sizes(xs: seq<Packet>): nat
  {
    if xs == [] then 0 else Size(xs[0]) + Sizes(xs[1..])
  }

  /** wrap: the list holding exactly this packet, one level deeper. */
  function Wrap(p: Packet): (r: Packet)
    ensures r.List? && r.items == [p] && Size(r) == Size(p) + 1
  {
    var r := List([p]);
    assert r.items[1..] == [];
    assert Sizes([p]) == Size(p) + Sizes([]);
    r
  }

  /** Every item of a list is smaller than the list. */
  lemma {:induction false} SizeOfItem(xs: seq<Packet>, i: nat)
    requires i < |xs|
    ensures Size(xs[i]) <= Sizes(xs)
    decreases i
  {
    if i > 0 {
      SizeOfItem(xs[1..], i - 1);
    }
  }

  // ---------------------------------------------------------------------
  // right_order.

  /** What right_order recurses on: the sizes of both packets, and
      whether one integer still has to be wrapped. */
  function Measure(l: Packet, r: Packet): nat
  {
    2 * (Size(l) + Size(r)) + if l.Int? != r.Int? then 3 else 0
  }

  /** right_order: Some(true) when l comes first, Some(false) when r
      does, None when neither decides. */
  function RightOrder(l: Packet, r: Packet): Option<bool>
    decreases Measure(l, r), 0
  {
    if l.Int? && r.Int? then
      if l.v == r.v then None else Some(l.v < r.v)
    else if l.Int? then RightOrder(Wrap(l), r)
    else if r.Int? then RightOrder(l, Wrap(r))
    else Lexicographic(l.items, r.items)
  }

  /** The loop of right_order over the items both lists have, then the
      comparison of the lengths. */
  function Lexicographic(ls: seq<Packet>, rs: seq<Packet>): Option<bool>
    decreases 2 * (Sizes(ls) + Sizes(rs)) + 3, 1
  {
    if ls == [] || rs == [] then
      if |ls| == |rs| then None else Some(|ls| < |rs|)
    else
      match RightOrder(ls[0], rs[0])
      case Some(b) => Some(b)
      case None => Lexicographic(ls[1..], rs[1..])
  }

  /** The outcome as a sign: -1 when the left comes first, 1 when the
      right does, 0 when neither. */
  function Verdict(o: Option<bool>): int
  {
    match o
    case Some(b) => if b then -1 else 1
    case None => 0
  }

  function Ord(l: Packet, r: Packet): int
  {
    Verdict(RightOrder(l, r))
  }

  function LexOrd(ls: seq<Packet>, rs: seq<Packet>): int
  {
    Verdict(Lexicographic(ls, rs))
  }

  /** The items a packet is compared by: an integer counts as the list
      holding just it. */
  function AsList(p: Packet): (xs: seq<Packet>)
    ensures Sizes(xs) <= Size(p) && (p.List? ==> Sizes(xs) < Size(p))
  {
    if p.Int? then Wrap(p).items else p.items
  }

  /** Every comparison is one of lists, once integers are wrapped: two
      integers compare as the one-item lists holding them. */
  lemma AsLists(l: Packet, r: Packet)
    ensures Ord(l, r) == LexOrd(AsList(l), AsList(r))
  {
    if l.Int? && r.Int? {
      Singletons(l, r);
    } else if l.Int? {
      assert RightOrder(l, r) == RightOrder(Wrap(l), r);
    } else if r.Int? {
      assert RightOrder(l, r) == RightOrder(l, Wrap(r));
    }
  }

  /** One-item lists compare as their items. */
  lemma Singletons(l: Packet, r: Packet)
    ensures Lexicographic([l], [r]) == RightOrder(l, r)
  {
    assert [l][1..] == [] && [r][1..] == [];
    assert Lexicographic([], []) == None;
  }

  /** Two integers compare by value, None exactly when equal. */
  lemma IntegersCompare(a: int, b: int)
    ensures RightOrder(Int(a), Int(b)) == None <==> a == b
    ensures a != b ==> RightOrder(Int(a), Int(b)) == Some(a < b)
  {
  }

  /** An integer against a list compares as the list holding just it. */
  lemma MixedWraps(a: int, r: Packet, l: Packet)
    requires r.List? && l.List?
    ensures RightOrder(Int(a), r) == RightOrder(List([Int(a)]), r)
    ensures RightOrder(l, Int(a)) == RightOrder(l, List([Int(a)]))
  {
  }

  /** Wrapping both sides changes no comparison. */
  lemma WrapBoth(l: Packet, r: Packet)
    ensures RightOrder(Wrap(l), Wrap(r)) == RightOrder(l, r)
  {
    Singletons(l, r);
  }

  /** Item k is the first to decide the comparison of ls and rs with
      outcome o, or, at the end of the shorter list, the lengths do. */
  predicate DecidesAt(ls: seq<Packet>, rs: seq<Packet>, k: nat, o: Option<bool>)
  {
    k <= |ls| && k <= |rs| &&
    (forall i :: 0 <= i < k ==> RightOrder(ls[i], rs[i]) == None) &&
    if k < |ls| && k < |rs| then RightOrder(ls[k], rs[k]).Some? && o == RightOrder(ls[k], rs[k])
    else |ls| != |rs| && o == Some(|ls| < |rs|)
  }

  /** Lists compare by their first decisive item, then by length: None
      exactly when the lengths agree and no item decides; otherwise the
      outcome of the first item that decides, or of the lengths. */
  lemma {:induction false} LexicographicMeaning(ls: seq<Packet>, rs: seq<Packet>)
    ensures Lexicographic(ls, rs) == None <==>
      |ls| == |rs| && forall i :: 0 <= i < |ls| ==> RightOrder(ls[i], rs[i]) == None
    ensures Lexicographic(ls, rs).Some? ==> exists k: nat :: DecidesAt(ls, rs, k, Lexicographic(ls, rs))
    decreases |ls|
  {
    var o := Lexicographic(ls, rs);
    if ls == [] || rs == [] {
      if o.Some? {
        assert DecidesAt(ls, rs, 0, o);
      }
    } else {
      LexicographicMeaning(ls[1..], rs[1..]);
      if RightOrder(ls[0], rs[0]).Some? {
        assert DecidesAt(ls, rs, 0, o);
      } else if o.Some? {
        var k: nat :| DecidesAt(ls[1..], rs[1..], k, o);
        ShiftDecides(ls, rs, k, o);
      } else {
        forall i | 0 < i < |ls|
          ensures RightOrder(ls[i], rs[i]) == None
        {
          assert ls[i] == ls[1..][i - 1] && rs[i] == rs[1..][i - 1];
        }
      }
    }
  }

  lemma ShiftDecides(ls: seq<Packet>, rs: seq<Packet>, k: nat, o: Option<bool>)
    requires ls != [] && rs != [] && RightOrder(ls[0], rs[0]) == None
    requires DecidesAt(ls[1..], rs[1..], k, o)
    ensures DecidesAt(ls, rs, k + 1, o)
  {
    forall i | 0 < i < k + 1
      ensures RightOrder(ls[i], rs[i]) == None
    {
      assert ls[i] == ls[1..][i - 1] && rs[i] == rs[1..][i - 1];
    }
    if k + 1 < |ls| && k + 1 < |rs| {
      assert ls[k + 1] == ls[1..][k] && rs[k + 1] == rs[1..][k];
    }
  }

  // ---------------------------------------------------------------------
  // The order right_order gives: what sort needs of a comparator.

  /** Every packet compares undecided with itself, so operator== holds. */
  lemma {:induction false} Reflexive(p: Packet)
    ensures RightOrder(p, p) == None
    decreases Size(p), 0
  {
    AsLists(p, p);
    if p.List? {
      LexReflexive(p.items);
    }
  }

  lemma {:induction false} LexReflexive(xs: seq<Packet>)
    ensures Lexicographic(xs, xs) == None
    decreases Sizes(xs), 1
  {
    if xs != [] {
      Reflexive(xs[0]);
      LexReflexive(xs[1..]);
    }
  }

  /** Swapping the packets swaps the outcome. */
  lemma {:induction false} Antisymmetric(l: Packet, r: Packet)
    ensures Ord(r, l) == -Ord(l, r)
    decreases Size(l) + Size(r), 0
  {
    if !(l.Int? && r.Int?) {
      AsLists(l, r);
      AsLists(r, l);
      LexAntisymmetric(AsList(l), AsList(r));
    }
  }

  lemma {:induction false} LexAntisymmetric(ls: seq<Packet>, rs: seq<Packet>)
    ensures LexOrd(rs, ls) == -LexOrd(ls, rs)
    decreases Sizes(ls) + Sizes(rs), 1
  {
    if ls != [] && rs != [] {
      Antisymmetric(ls[0], rs[0]);
      LexAntisymmetric(ls[1..], rs[1..]);
    }
  }

  /** The order is a total preorder: a before-or-level-with b, and b
      before-or-level-with c, puts a before-or-level-with c, level only
      when all three are. */
  lemma {:induction false} Transitive(a: Packet, b: Packet, c: Packet)
    requires Ord(a, b) <= 0 && Ord(b, c) <= 0
    ensures Ord(a, c) <= 0 && (Ord(a, c) == 0 ==> Ord(a, b) == 0 && Ord(b, c) == 0)
    decreases Size(a) + Size(b) + Size(c), 0
  {
    if !(a.Int? && b.Int? && c.Int?) {
      AsLists(a, b);
      AsLists(b, c);
      AsLists(a, c);
      LexTransitive(AsList(a), AsList(b), AsList(c));
    }
  }

  lemma {:induction false} LexTransitive(xs: seq<Packet>, ys: seq<Packet>, zs: seq<Packet>)
    requires LexOrd(xs, ys) <= 0 && LexOrd(ys, zs) <= 0
    ensures LexOrd(xs, zs) <= 0 && (LexOrd(xs, zs) == 0 ==> LexOrd(xs, ys) == 0 && LexOrd(ys, zs) == 0)
    decreases Sizes(xs) + Sizes(ys) + Sizes(zs), 1
  {
    if xs != [] && ys != [] && zs != [] {
      var o1, o2 := Ord(xs[0], ys[0]), Ord(ys[0], zs[0]);
      assert o1 <= 0 && o2 <= 0;
      Transitive(xs[0], ys[0], zs[0]);
      if o1 == 0 && o2 == 0 {
        LexTransitive(xs[1..], ys[1..], zs[1..]);
      }
    }
  }

  /** right_order as written: a loop over the items both lists have,
      returning at the first decisive one. */
  method CompareMethod(l: Packet, r: Packet) returns (c: Option<bool>)
    ensures c == RightOrder(l, r)
    decreases Measure(l, r)
  {
    if l.Int? && r.Int? {
      if l.v == r.v {
        return None;
      }
      return Some(l.v < r.v);
    }
    if l.Int? {
      c := CompareMethod(Wrap(l), r);
      return;
    }
    if r.Int? {
      c := CompareMethod(l, Wrap(r));
      return;
    }
    var ls, rs := l.items, r.items;
    for i := 0 to if |ls| < |rs| then |ls| else |rs|
      invariant Lexicographic(ls[i..], rs[i..]) == Lexicographic(ls, rs)
    {
      SizeOfItem(ls, i);
      SizeOfItem(rs, i);
      var cmp := CompareMethod(ls[i], rs[i]);
      assert ls[i..][1..] == ls[i + 1..] && rs[i..][1..] == rs[i + 1..];
      if cmp.Some? {
        return cmp;
      }
    }
    if |ls| == |rs| {
      return None;
    }
    return Some(|ls| < |rs|);
  }

  // ---------------------------------------------------------------------
  // The parsing constructor, on a line read from position p; past the
  // end of the line it meets the terminating NUL. None stands for a
  // failed assert.

  /** The character at p, NUL past the end. */
  function At(s: string, p: nat): char
  {
    if p < |s| then s[p] else '\0'
  }

  /** packet(s): a run of digits read by atoi, or '[' then items until
      ']', each item followed by an optional ','; the position after what
      was read. */
  function Parse(s: string, p: nat): (r: Option<(Packet, nat)>)
    requires p <= |s|
    ensures r.Some? ==> p < r.value.1 <= |s|
    decreases |s| - p, 0
  {
    if IsDigit(At(s, p)) then
      Some((Int(Atoi(s[p..])), p + LeadingDigits(s[p..])))
    else if At(s, p) == '[' then ParseItems(s, p + 1, [])
    else None
  }

  /** The loop of the constructor over the items of a list, with the
      items read so far. */
  function ParseItems(s: string, p: nat, acc: seq<Packet>): (r: Option<(Packet, nat)>)
    requires p <= |s|
    ensures r.Some? ==> p < r.value.1 <= |s|
    decreases |s| - p, 1
  {
    if At(s, p) == ']' then Some((List(acc), p + 1))
    else
      match Parse(s, p)
      case None => None
      case Some((x, q)) =>
        ParseItems(s, if At(s, q) == ',' then q + 1 else q, acc + [x])
  }

  /** The parsing constructor as written: a loop skipping the digits, or
      a loop pushing items until ']'. */
  method ParsePacket(s: string, p: nat) returns (r: Option<(Packet, nat)>)
    requires p <= |s|
    ensures r == Parse(s, p)
    decreases |s| - p
  {
    if IsDigit(At(s, p)) {
      var v := Atoi(s[p..]);
      var q := SkipDigits(s, p);
      return Some((Int(v), q));
    }
    if At(s, p) != '[' {
      return None;
    }
    var q := p + 1;
    var items: seq<Packet> := [];
    while At(s, q) != ']'
      invariant p < q <= |s|
      invariant ParseItems(s, q, items) == Parse(s, p)
      decreases |s| - q
    {
      var item := ParsePacket(s, q);
      if item.None? {
        return None;
      }
      var x := item.value.0;
      q := item.value.1;
      if At(s, q) == ',' {
        q := q + 1;
      }
      items := items + [x];
    }
    return Some((List(items), q + 1));
  }

  /** The loop of the constructor past the digits atoi read. */
  method SkipDigits(s: string, p: nat) returns (q: nat)
    requires p <= |s|
    ensures q == p + LeadingDigits(s[p..])
  {
    q := p;
    while IsDigit(At(s, q))
      invariant p <= q <= |s| && AllDigits(s[p..q])
      decreases |s| - q
    {
      assert s[p..q + 1] == s[p..q] + [s[q]];
      q := q + 1;
    }
    DigitRun(s, p, q);
  }

  /** The digits skipped are the ones LeadingDigits counts. */
  lemma DigitRun(s: string, p: nat, q: nat)
    requires p <= q <= |s| && AllDigits(s[p..q]) && !IsDigit(At(s, q))
    ensures LeadingDigits(s[p..]) == q - p
  {
    assert s[p..] == s[p..q] + s[q..];
    LeadingDigitsOf(s[p..q], s[q..]);
  }

  // ---------------------------------------------------------------------
  // Writing packets back: the parser reads what is written.

  /** Every integer in the packet is a natural number, as written in
      the input. */
  predicate Natural(p: Packet)
    decreases Size(p), 0
  {
    match p
    case Int(v) => v >= 0
    case List(xs) => AllNatural(xs)
  }

  predicate AllNatural(xs: seq<Packet>)
    decreases Sizes(xs), 1
  {
    xs != [] ==> Natural(xs[0]) && AllNatural(xs[1..])
  }

  /** The text of a packet: decimal digits, or the items between
      brackets, separated by commas. */
  function Show(p: Packet): (w: string)
    requires Natural(p)
    ensures |w| > 0 && (w[0] == '[' || IsDigit(w[0]))
    decreases Size(p), 0
  {
    match p
    case Int(v) => Decimal(v)
    case List(xs) => "[" + ShowItems(xs) + "]"
  }

  function ShowItems(xs: seq<Packet>): string
    requires AllNatural(xs)
    decreases Sizes(xs), 1
  {
    if xs == [] then ""
    else if |xs| == 1 then Show(xs[0])
    else Show(xs[0]) + "," + ShowItems(xs[1..])
  }

  /** The line holds the text w from position p on. */
  predicate Spelled(s: string, p: nat, w: string)
  {
    p + |w| <= |s| && s[p..p + |w|] == w
  }

  lemma SpelledSplit(s: string, p: nat, a: string, b: string)
    requires Spelled(s, p, a + b)
    ensures Spelled(s, p, a) && Spelled(s, p + |a|, b)
  {
    var whole := s[p..p + |a + b|];
    assert s[p..p + |a|] == whole[..|a|] == a;
    assert s[p + |a|..p + |a| + |b|] == whole[|a|..] == b;
  }

  /** A spelled word's first letter is at the reading position. */
  lemma SpelledFirst(s: string, p: nat, w: string)
    requires |w| > 0 && Spelled(s, p, w)
    ensures At(s, p) == w[0]
  {
    assert s[p..p + |w|][0] == s[p];
  }

  /** The text of a packet parses back to the packet, stopping right
      after the text, when no digit follows it. */
  lemma {:induction false} ParseShow(s: string, p: nat, x: Packet)
    requires p <= |s| && Natural(x) && Spelled(s, p, Show(x)) && !IsDigit(At(s, p + |Show(x)|))
    ensures Parse(s, p) == Some((x, p + |Show(x)|))
    decreases Size(x), 0
  {
    if x.Int? {
      ParseShowInt(s, p, x.v);
    } else {
      var xs := x.items;
      var w := Show(x);
      assert w == "[" + (ShowItems(xs) + "]");
      SpelledSplit(s, p, "[", ShowItems(xs) + "]");
      SpelledFirst(s, p, w);
      ItemsShow(s, p + 1, [], xs);
      assert [] + xs == xs;
    }
  }

  lemma ParseShowInt(s: string, p: nat, v: nat)
    requires p <= |s| && Spelled(s, p, Decimal(v)) && !IsDigit(At(s, p + |Decimal(v)|))
    ensures Parse(s, p) == Some((Int(v), p + |Decimal(v)|))
  {
    var w := Decimal(v);
    SpelledFirst(s, p, w);
    var rest := s[p + |w|..];
    assert s[p..] == w + rest;
    LeadingDigitsOf(w, rest);
    AtoiDecimal(v, rest);
  }

  /** One turn of the item loop: an item parses, then a comma, if any,
      is skipped. */
  lemma ItemStep(s: string, p: nat, acc: seq<Packet>, xs: seq<Packet>, q: nat, more: bool, e: nat)
    requires p <= |s| && xs != [] && At(s, p) != ']' && Parse(s, p) == Some((xs[0], q))
    requires At(s, q) == if more then ',' else ']'
    requires var q' := if more then q + 1 else q;
      q' <= |s| && ParseItems(s, q', acc + [xs[0]]) == Some((List(acc + [xs[0]] + xs[1..]), e))
    ensures ParseItems(s, p, acc) == Some((List(acc + xs), e))
  {
    assert acc + [xs[0]] + xs[1..] == acc + xs;
  }

  lemma {:induction false} ItemsShow(s: string, p: nat, acc: seq<Packet>, xs: seq<Packet>)
    requires p <= |s| && AllNatural(xs) && Spelled(s, p, ShowItems(xs) + "]")
    ensures ParseItems(s, p, acc) == Some((List(acc + xs), p + |ShowItems(xs)| + 1))
    decreases Sizes(xs), 1
  {
    if xs == [] {
      SpelledFirst(s, p, ShowItems(xs) + "]");
      assert acc + xs == acc;
    } else {
      var w0, r := Show(xs[0]), ShowItems(xs[1..]);
      var more := |xs| > 1;
      var q := p + |w0|;
      var q' := if more then q + 1 else q;
      ShowItemsCons(xs);
      SpelledHead(s, p, w0, more, r);
      ParseShow(s, p, xs[0]);
      ItemsShow(s, q', acc + [xs[0]], xs[1..]);
      ItemStep(s, p, acc, xs, q, more, q' + |r| + 1);
    }
  }

  /** The text of the items is the first item's text, then a comma and the
      text of the rest when more items follow. */
  lemma ShowItemsCons(xs: seq<Packet>)
    requires xs != [] && AllNatural(xs)
    ensures ShowItems(xs) + "]" ==
      Show(xs[0]) + if |xs| > 1 then "," + (ShowItems(xs[1..]) + "]") else "]"
    ensures |ShowItems(xs)| == |Show(xs[0])| + (if |xs| > 1 then 1 else 0) + |ShowItems(xs[1..])|
    ensures |xs| == 1 ==> ShowItems(xs[1..]) == ""
  {
    var w0, r := Show(xs[0]), ShowItems(xs[1..]);
    if |xs| == 1 {
      assert ShowItems(xs) == w0;
    } else {
      assert ShowItems(xs) == w0 + "," + r;
      AppendAssoc(w0 + ",", r, "]");
      AppendAssoc(w0, ",", r + "]");
    }
  }

  /** An item's text inside a list is followed by a comma or by the
      closing bracket. */
  lemma SpelledHead(s: string, p: nat, w0: string, more: bool, rest: string)
    requires |w0| > 0 && (more || rest == "")
    requires Spelled(s, p, w0 + if more then "," + (rest + "]") else "]")
    ensures Spelled(s, p, w0) && At(s, p) == w0[0]
    ensures At(s, p + |w0|) == if more then ',' else ']'
    ensures Spelled(s, p + |w0| + (if more then 1 else 0), rest + "]")
  {
    var tail := if more then "," + (rest + "]") else "]";
    SpelledSplit(s, p, w0, tail);
    SpelledFirst(s, p, w0);
    SpelledFirst(s, p + |w0|, tail);
    if more {
      SpelledSplit(s, p + |w0|, ",", rest + "]");
    } else {
      assert tail == rest + "]";
    }
  }

  /** A line holding just the text of a packet reads back as it. */
  lemma LineRoundTrip(x: Packet)
    requires Natural(x)
    ensures Parse(Show(x), 0) == Some((x, |Show(x)|))
  {
    ParseShow(Show(x), 0, x);
  }

  // ---------------------------------------------------------------------
  // read_packet: the next nonempty line, parsed from its start.

  /** All packets of the input lines, skipping empty lines; None when a
      line does not parse. */
  function ReadAll(lines: seq<string>): (r: Option<seq<Packet>>)
    ensures r.Some? ==> |r.value| <= |lines|
  {
    if lines == [] then Some([])
    else if lines[0] == "" then ReadAll(lines[1..])
    else
      match Parse(lines[0], 0)
      case None => None
      case Some((x, _)) =>
        match ReadAll(lines[1..])
        case None => None
        case Some(rest) => Some([x] + rest)
  }

  /** One line per packet, holding its text. */
  function ShowLines(ps: seq<Packet>): (lines: seq<string>)
    requires AllNatural(ps)
    ensures |lines| == |ps|
  {
    if ps == [] then [] else [Show(ps[0])] + ShowLines(ps[1..])
  }

  /** The lines holding the packets' texts read back as the packets. */
  lemma {:induction false} ReadShown(ps: seq<Packet>)
    requires AllNatural(ps)
    ensures ReadAll(ShowLines(ps)) == Some(ps)
  {
    if ps != [] {
      var lines := ShowLines(ps);
      LineRoundTrip(ps[0]);
      assert lines[0] == Show(ps[0]) && lines[1..] == ShowLines(ps[1..]);
      ReadShown(ps[1..]);
      assert [ps[0]] + ps[1..] == ps;
    }
  }

  /** Empty lines, wherever they are, do not change what is read. */
  lemma ReadSkipsBlank(a: seq<string>, b: seq<string>)
    ensures ReadAll(a + [""] + b) == ReadAll(a + b)
  {
    if a != [] {
      assert (a + [""] + b)[1..] == a[1..] + [""] + b;
      assert (a + b)[1..] == a[1..] + b;
      ReadSkipsBlank(a[1..], b);
    } else {
      assert (a + [""] + b)[0] == "" && (a + [""] + b)[1..] == b;
      assert a + b == b;
    }
  }

  // ---------------------------------------------------------------------
  // operator< and operator==.

  /** operator<: whether p1 comes first; None where its assert that the
      comparison decides fails. */
  function Less(p1: Packet, p2: Packet): (b: Option<bool>)
    ensures b == None <==> Same(p1, p2)
  {
    RightOrder(p1, p2)
  }

  /** operator==: neither packet comes first. */
  predicate Same(p1: Packet, p2: Packet)
  {
    RightOrder(p1, p2) == None
  }

  /** Which packet comes first does not depend on the order they are
      asked in. */
  lemma LessFlips(p1: Packet, p2: Packet)
    ensures Less(p1, p2) == None <==> Less(p2, p1) == None
    ensures Less(p1, p2).Some? ==> Less(p2, p1) == Some(!Less(p1, p2).value)
    ensures Less(p1, p2) == Some(true) <==> Ord(p1, p2) < 0
  {
    Antisymmetric(p1, p2);
  }

  /** operator== is an equivalence. */
  lemma SameIsEquivalence(a: Packet, b: Packet, c: Packet)
    ensures Same(a, a)
    ensures Same(a, b) ==> Same(b, a)
    ensures Same(a, b) && Same(b, c) ==> Same(a, c)
    ensures Same(a, b) <==> Ord(a, b) == 0
  {
    Reflexive(a);
    Antisymmetric(a, b);
    if Same(a, b) && Same(b, c) {
      Antisymmetric(b, c);
      Antisymmetric(a, c);
      Transitive(a, b, c);
      Transitive(c, b, a);
      assert Ord(a, c) == 0;
    }
  }

  // ---------------------------------------------------------------------
  // part1: pairs of packets, counted from 1.

  /** The sum of the indices of the first k pairs that are in the right
      order; None when a pair does not decide. */
  function PairsSum(ps: seq<Packet>, k: nat): Option<int>
    requires 2 * k <= |ps|
  {
    if k == 0 then Some(0)
    else
      match PairsSum(ps, k - 1)
      case None => None
      case Some(a) =>
        match Less(ps[2 * k - 2], ps[2 * k - 1])
        case None => None
        case Some(b) => Some(if b then a + k else a)
  }

  /** The answer of part 1; None for an odd number of packets, where the
      second packet of the last pair is missing. */
  function Part1Sum(ps: seq<Packet>): Option<int>
  {
    if |ps| % 2 == 1 then None else PairsSum(ps, |ps| / 2)
  }

  /** 1 + 2 + ... + k. */
  function Triangle(k: nat): nat
  {
    if k == 0 then 0 else Triangle(k - 1) + k
  }

  /** The sum is at least 0 and at most the sum of all indices. */
  lemma {:induction false} PairsSumBounds(ps: seq<Packet>, k: nat)
    requires 2 * k <= |ps| && PairsSum(ps, k).Some?
    ensures 0 <= PairsSum(ps, k).value <= Triangle(k)
  {
    if k > 0 {
      PairsSumBounds(ps, k - 1);
    }
  }

  /** qs holds the first k pairs of ps, each pair swapped. */
  predicate SwappedPairs(ps: seq<Packet>, qs: seq<Packet>, k: nat)
    requires 2 * k <= |ps| && 2 * k <= |qs|
  {
    k == 0 ||
    (qs[2 * k - 2] == ps[2 * k - 1] && qs[2 * k - 1] == ps[2 * k - 2] && SwappedPairs(ps, qs, k - 1))
  }

  /** Swapping both packets of every pair turns the pairs in the right
      order into exactly the others. */
  lemma {:induction false} PairsSumSwapped(ps: seq<Packet>, qs: seq<Packet>, k: nat)
    requires 2 * k <= |ps| && 2 * k <= |qs| && SwappedPairs(ps, qs, k)
    ensures PairsSum(ps, k).None? <==> PairsSum(qs, k).None?
    ensures PairsSum(ps, k).Some? ==> PairsSum(qs, k) == Some(Triangle(k) - PairsSum(ps, k).value)
  {
    if k > 0 {
      PairsSumSwapped(ps, qs, k - 1);
      LessFlips(ps[2 * k - 2], ps[2 * k - 1]);
    }
  }

  /** Once a pair does not decide, the sum stays undefined. */
  lemma {:induction false} UndecidedStays(ps: seq<Packet>, k: nat, m: nat)
    requires k <= m && 2 * m <= |ps| && PairsSum(ps, k).None?
    ensures PairsSum(ps, m).None?
    decreases m - k
  {
    if k < m {
      UndecidedStays(ps, k + 1, m);
    }
  }

  /** part1 as written: a pair at a time, comparing with operator<. */
  method Part1(ps: seq<Packet>) returns (ans: Option<int>)
    ensures ans == Part1Sum(ps)
  {
    if |ps| % 2 == 1 {
      return None;
    }
    var sum := 0;
    for k := 1 to |ps| / 2 + 1
      invariant PairsSum(ps, k - 1) == Some(sum)
    {
      var c := CompareMethod(ps[2 * k - 2], ps[2 * k - 1]);
      if c.None? {
        UndecidedStays(ps, k, |ps| / 2);
        return None;
      }
      if c.value {
        sum := sum + k;
      }
    }
    return Some(sum);
  }

  // ---------------------------------------------------------------------
  // part2: sort with two dividers and find them.

  /** The divider packets [[2]] and [[6]]. */
  function Divider(n: int): (d: Packet)
    ensures d == List([List([Int(n)])])
  {
    Wrap(Wrap(Int(n)))
  }

  /** [[2]] comes before [[6]], and a line "[[2]]" reads as the first. */
  lemma DividersOrdered()
    ensures Less(Divider(2), Divider(6)) == Some(true)
    ensures Less(Divider(6), Divider(2)) == Some(false)
    ensures Parse("[[2]]", 0) == Some((Divider(2), 5))
  {
    var d2, d6 := Divider(2), Divider(6);
    Singletons(d2.items[0], d6.items[0]);
    Singletons(Int(2), Int(6));
    Singletons(d6.items[0], d2.items[0]);
    Singletons(Int(6), Int(2));
    assert Natural(d2) by {
      assert AllNatural([Int(2)]) by { assert [Int(2)][1..] == []; }
      assert AllNatural(d2.items) by { assert d2.items[1..] == []; }
    }
    LineRoundTrip(d2);
    assert Show(Int(2)) == "2";
    assert ShowItems([Int(2)]) == "2";
    assert Show(d2.items[0]) == "[2]";
    assert ShowItems(d2.items) == "[2]";
    assert Show(d2) == "[[2]]";
  }

  /** The number of packets of s that come strictly before d. */
  function Below(s: seq<Packet>, d: Packet): nat
  {
    if s == [] then 0 else (if Ord(s[0], d) < 0 then 1 else 0) + Below(s[1..], d)
  }

  lemma {:induction false} BelowAppend(a: seq<Packet>, b: seq<Packet>, d: Packet)
    ensures Below(a + b, d) == Below(a, d) + Below(b, d)
  {
    if a != [] {
      assert (a + b)[1..] == a[1..] + b;
      BelowAppend(a[1..], b, d);
    } else {
      assert a + b == b;
    }
  }

  /** Sorted by the comparator: no packet comes after its successor. */
  predicate Sorted(s: seq<Packet>)
  {
    |s| < 2 || (Ord(s[0], s[1]) <= 0 && Sorted(s[1..]))
  }

  /** Insertion of x before the first packet it does not come after. */
  function Insert(x: Packet, s: seq<Packet>): (r: seq<Packet>)
    ensures |r| == |s| + 1 && r[0] in {x, if s == [] then x else s[0]}
  {
    if s == [] || Ord(x, s[0]) <= 0 then [x] + s else [s[0]] + Insert(x, s[1..])
  }

  /** Insertion keeps a sorted sequence sorted, adds exactly x, and
      adds one to the count below d exactly when x comes before d. */
  lemma {:induction false} InsertSorted(x: Packet, s: seq<Packet>, d: Packet)
    ensures Sorted(s) ==> Sorted(Insert(x, s))
    ensures multiset(Insert(x, s)) == multiset(s) + multiset{x}
    ensures Below(Insert(x, s), d) == Below(s, d) + if Ord(x, d) < 0 then 1 else 0
  {
    var r := Insert(x, s);
    if s == [] || Ord(x, s[0]) <= 0 {
      assert r[1..] == s;
    } else {
      var r' := Insert(x, s[1..]);
      InsertSorted(x, s[1..], d);
      assert r[1..] == r';
      assert s == [s[0]] + s[1..];
      Antisymmetric(x, s[0]);
      if Sorted(s) && |s| > 1 {
        assert Ord(s[0], s[1]) <= 0;
      }
    }
  }

  /** Any two packets of a sorted sequence are in order. */
  lemma {:induction false} SortedPair(s: seq<Packet>, a: nat, b: nat)
    requires Sorted(s) && a <= b < |s|
    ensures Ord(s[a], s[b]) <= 0
    decreases b
  {
    if a == b {
      Reflexive(s[a]);
    } else {
      SortedPair(s, a, b - 1);
      SortedStep(s, b - 1);
      Transitive(s[a], s[b - 1], s[b]);
    }
  }

  lemma {:induction false} SortedStep(s: seq<Packet>, i: nat)
    requires Sorted(s) && i + 1 < |s|
    ensures Ord(s[i], s[i + 1]) <= 0
    decreases i
  {
    if i > 0 {
      SortedStep(s[1..], i - 1);
    }
  }

  /** std::sort, as an insertion sort with the comparator taken to
      decide every pair. */
  method SortPackets(ps: seq<Packet>) returns (r: seq<Packet>)
    ensures Sorted(r) && multiset(r) == multiset(ps)
    ensures forall d :: Below(r, d) == Below(ps, d)
  {
    r := [];
    var i := |ps|;
    while i > 0
      invariant 0 <= i <= |ps|
      invariant Sorted(r) && multiset(r) == multiset(ps[i..])
      invariant forall d :: Below(r, d) == Below(ps[i..], d)
    {
      i := i - 1;
      var r' := Insert(ps[i], r);
      forall d
        ensures Below(r', d) == Below(ps[i..], d)
      {
        InsertSorted(ps[i], r, d);
        assert ps[i..][1..] == ps[i + 1..];
      }
      InsertSorted(ps[i], r, ps[i]);
      assert ps[i..] == [ps[i]] + ps[i + 1..];
      r := r';
    }
  }

  /** std::find with operator==: the first packet level with d, or |s|. */
  method Find(s: seq<Packet>, d: Packet) returns (i: nat)
    ensures i <= |s| && (i < |s| ==> Same(s[i], d))
    ensures forall j :: 0 <= j < i ==> !Same(s[j], d)
  {
    i := 0;
    while i < |s|
      invariant i <= |s| && forall j :: 0 <= j < i ==> !Same(s[j], d)
    {
      var c := CompareMethod(s[i], d);
      if c.None? {
        return;
      }
      i := i + 1;
    }
  }

  /** In a sorted sequence the first packet level with d has exactly the
      packets before d ahead of it. */
  lemma FirstLevel(s: seq<Packet>, d: Packet, i: nat)
    requires Sorted(s) && i < |s| && Same(s[i], d)
    requires forall j :: 0 <= j < i ==> !Same(s[j], d)
    ensures Below(s, d) == i
  {
    forall j | 0 <= j < i
      ensures Ord(s[j], d) < 0
    {
      SortedPair(s, j, i);
      Transitive(s[j], s[i], d);
    }
    forall j | i <= j < |s|
      ensures Ord(s[j], d) >= 0
    {
      SortedPair(s, i, j);
      Antisymmetric(s[i], d);
      Transitive(d, s[i], s[j]);
      Antisymmetric(d, s[j]);
    }
    CountBelow(s, d, i);
  }

  lemma {:induction false} CountBelow(s: seq<Packet>, d: Packet, i: nat)
    requires i <= |s|
    requires forall j :: 0 <= j < i ==> Ord(s[j], d) < 0
    requires forall j :: i <= j < |s| ==> Ord(s[j], d) >= 0
    ensures Below(s, d) == i
  {
    if s != [] {
      assert Ord(s[0], d) < 0 <==> i > 0;
      CountBelow(s[1..], d, if i > 0 then i - 1 else 0);
    }
  }

  /** part2: each divider's position, counted from 1, is one more than
      the number of packets before it, the other divider included. */
  method Part2(ps: seq<Packet>) returns (key: int)
    ensures key == (Below(ps, Divider(2)) + 1) * (Below(ps, Divider(6)) + 2)
  {
    var d2, d6 := Divider(2), Divider(6);
    var all := ps + [d2, d6];
    var sorted := SortPackets(all);
    var i2 := Find(sorted, d2);
    var i6 := Find(sorted, d6);
    DividerIndex(sorted, d2, i2);
    DividerIndex(sorted, d6, i6);
    DividersBelow(ps);
    key := (i2 + 1) * (i6 + 1);
  }

  /** find stops at the divider's place among the sorted packets. */
  lemma DividerIndex(sorted: seq<Packet>, d: Packet, i: nat)
    requires Sorted(sorted) && d in multiset(sorted)
    requires i <= |sorted| && (i < |sorted| ==> Same(sorted[i], d))
    requires forall j :: 0 <= j < i ==> !Same(sorted[j], d)
    ensures i == Below(sorted, d)
  {
    Reflexive(d);
    LevelFound(sorted, d, i);
    FirstLevel(sorted, d, i);
  }

  /** With both dividers added, [[2]] has the packets before it ahead of
      it, and [[6]] those and [[2]]. */
  lemma DividersBelow(ps: seq<Packet>)
    ensures Below(ps + [Divider(2), Divider(6)], Divider(2)) == Below(ps, Divider(2))
    ensures Below(ps + [Divider(2), Divider(6)], Divider(6)) == Below(ps, Divider(6)) + 1
  {
    var d2, d6 := Divider(2), Divider(6);
    DividersOrdered();
    Reflexive(d2);
    Reflexive(d6);
    BelowAppend(ps, [d2, d6], d2);
    BelowAppend(ps, [d2, d6], d6);
    assert [d2, d6][1..] == [d6] && [d6][1..] == [];
    assert Ord(d2, d6) == -1 && Ord(d6, d2) == 1 && Ord(d2, d2) == 0 && Ord(d6, d6) == 0;
    assert Below([d6], d2) == 0 && Below([d6], d6) == 0;
  }

  /** A packet that is in s has a level packet in s, so find stops
      inside s. */
  lemma LevelFound(s: seq<Packet>, d: Packet, i: nat)
    requires d in multiset(s) && RightOrder(d, d) == None
    requires i <= |s| && forall j :: 0 <= j < i ==> !Same(s[j], d)
    ensures i < |s|
  {
    var k :| 0 <= k < |s| && s[k] == d;
    assert Same(s[k], d);
  }

  /** An input packet [2], or 2, is level with the divider [[2]], so the
      comparator's assert can fail while sorting. */
  lemma DividerTies()
    ensures Less(List([Int(2)]), Divider(2)) == None
    ensures Less(Int(2), Divider(2)) == None
  {
    var d2 := Divider(2);
    Singletons(Int(2), d2.items[0]);
    Singletons(Int(2), Int(2));
    Singletons(d2.items[0], d2.items[0]);
    assert RightOrder(Int(2), d2) == RightOrder(Wrap(Int(2)), d2);
  }
}
