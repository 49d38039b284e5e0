/** Monkey in the Middle: monkeys hold items with worry levels, inspect
    them in turn (updating the level, dividing by the relief and reducing
    it modulo the lcm of all divisors) and throw each to one of two other
    monkeys depending on divisibility. The answer is the product of the
    two largest numbers of items handled. */
module MonkeyMiddle {
  import opened Common
  import opened Ordering

  /** How a monkey updates the worry level: add or multiply by a constant,
      or square it. */
  datatype Op = Add(v: nat) | Mul(v: nat) | Square

  /** What never changes about a monkey: its update, the divisor of its
      test and the monkeys it throws to when the test passes or fails. */
  datatype Rule = Rule(op: Op, divisor: nat, onTrue: nat, onFalse: nat)

  /** A monkey: the items it holds (front first), its rule and how many
      items it has handled. */
  datatype Monkey = Monkey(holding: seq<nat>, rule: Rule, handled: nat)

  function Apply(op: Op, w: nat): nat
  {
    match op
    case Add(v) => w + v
    case Mul(v) => w * v
    case Square => w * w
  }

  // ---------------------------------------------------------------------
  // Reading the notes: a stream of whitespace-separated tokens, read from
  // position p on. None stands for a failed assert or a throwing stoul.

  /** The next token; None when the input has run out. */
  function Token(ts: seq<string>, p: nat): Option<(string, nat)>
  {
    if p < |ts| then Some((ts[p], p + 1)) else None
  }

  /** Consume the words ws, in order. */
  function ExpectAll(ts: seq<string>, p: nat, ws: seq<string>): (r: Option<nat>)
    ensures r.Some? ==> r.value == p + |ws| <= |ts|
    decreases |ws|
  {
    if p > |ts| then None
    else if ws == [] then Some(p)
    else if p < |ts| && ts[p] == ws[0] then ExpectAll(ts, p + 1, ws[1..])
    else None
  }

  /** expect succeeds exactly when the next tokens are the words. */
  lemma {:induction false} ExpectAllMeaning(ts: seq<string>, p: nat, ws: seq<string>)
    ensures ExpectAll(ts, p, ws).Some? <==> p + |ws| <= |ts| && ts[p..p + |ws|] == ws
    decreases |ws|
  {
    if p <= |ts| && ws != [] {
      if p < |ts| && ts[p] == ws[0] {
        ExpectAllMeaning(ts, p + 1, ws[1..]);
        if p + |ws| <= |ts| {
          assert ts[p..p + |ws|] == [ts[p]] + ts[p + 1..p + |ws|];
        }
      } else if p + |ws| <= |ts| {
        assert ts[p..p + |ws|][0] == ts[p];
      }
    }
  }

  /** stoul: the leading digits of the token; it throws when there are
      none. */
  function Stoul(t: string): Option<nat>
  {
    var k := LeadingDigits(t);
    if k == 0 then None else Some(DigitsValue(t[..k]))
  }

  predicate EndsWithComma(t: string)
  {
    t != [] && t[|t| - 1] == ','
  }

  /** numbers: a token per number, continuing while the token ends with a
      comma. The numbers and the position after them. */
  function Numbers(ts: seq<string>, p: nat): (r: Option<(seq<nat>, nat)>)
    ensures r.Some? ==> p < r.value.1 <= |ts|
    decreases |ts| - p
  {
    var t :- Token(ts, p);
    var v :- Stoul(t.0);
    if EndsWithComma(t.0) then
      var rest :- Numbers(ts, p + 1);
      Some(([v] + rest.0, rest.1))
    else Some(([v], p + 1))
  }

  /** The tokens p .. q - 1 form one list: each but the last ends with a
      comma and each reads as a number. */
  predicate IsList(ts: seq<string>, p: nat, q: nat)
  {
    p < q <= |ts| &&
    (forall k :: p <= k < q - 1 ==> EndsWithComma(ts[k])) &&
    !EndsWithComma(ts[q - 1]) &&
    forall k :: p <= k < q ==> Stoul(ts[k]).Some?
  }

  /** numbers reads at least one number, one per token, exactly up to
      the first token without a comma. */
  lemma {:induction false} NumbersShape(ts: seq<string>, p: nat)
    requires Numbers(ts, p).Some?
    ensures var (vs, q) := Numbers(ts, p).value;
      IsList(ts, p, q) && |vs| == q - p &&
      forall k :: p <= k < q ==> Stoul(ts[k]) == Some(vs[k - p])
    decreases |ts| - p
  {
    if EndsWithComma(ts[p]) {
      NumbersShape(ts, p + 1);
    }
  }

  /** Conversely, a list of tokens is read whole. */
  lemma {:induction false} NumbersComplete(ts: seq<string>, p: nat, q: nat)
    requires IsList(ts, p, q)
    ensures Numbers(ts, p).Some? && Numbers(ts, p).value.1 == q
    decreases q - p
  {
    if p + 1 < q {
      NumbersComplete(ts, p + 1, q);
    }
  }

  /** Numbers with a prefix put in front of what was read, if anything. */
  function Prepend(ns: seq<nat>, r: Option<(seq<nat>, nat)>): Option<(seq<nat>, nat)>
  {
    match r
    case None => None
    case Some((vs, q)) => Some((ns + vs, q))
  }

  /** numbers as the do-while loop it is. */
  method ReadNumbers(ts: seq<string>, p: nat) returns (r: Option<(seq<nat>, nat)>)
    ensures r == Numbers(ts, p)
  {
    var ns: seq<nat> := [];
    var q := p;
    assert Numbers(ts, q).Some? ==> [] + Numbers(ts, q).value.0 == Numbers(ts, q).value.0;
    while true
      invariant Numbers(ts, p) == Prepend(ns, Numbers(ts, q))
      decreases |ts| - q
    {
      if q >= |ts| {
        return None;
      }
      var t := ts[q];
      var v := Stoul(t);
      if v.None? {
        return None;
      }
      ghost var before := ns;
      ns := ns + [v.value];
      q := q + 1;
      if !EndsWithComma(t) {
        return Some((ns, q));
      }
      assert forall vs: seq<nat> :: before + ([v.value] + vs) == ns + vs;
    }
  }

  /** number: a list of exactly one. */
  function Number(ts: seq<string>, p: nat): (r: Option<(nat, nat)>)
    ensures r.Some? <==> Numbers(ts, p).Some? && |Numbers(ts, p).value.0| == 1
  {
    var ns :- Numbers(ts, p);
    if |ns.0| == 1 then Some((ns.0[0], ns.1)) else None
  }

  /** The update after "new = old": "+" and a number, or "*" and either
      "old" or a number read straight by stoul. */
  function ParseOp(ts: seq<string>, p: nat): (r: Option<(Op, nat)>)
    ensures r.Some? ==> p < r.value.1 <= |ts|
  {
    var op :- Token(ts, p);
    if op.0 == "+" then
      var v :- Number(ts, op.1);
      Some((Add(v.0), v.1))
    else if op.0 != "*" then None
    else
      var t :- Token(ts, op.1);
      if t.0 == "old" then Some((Square, t.1))
      else
        var v :- Stoul(t.0);
        Some((Mul(v), t.1))
  }

  /** The monkey constructor: one monkey's notes, in their fixed order:
      its number and items, its update, its test. */
  function ParseMonkey(ts: seq<string>, p: nat): (r: Option<(Monkey, nat)>)
    ensures r.Some? ==> p < r.value.1 <= |ts| && r.value.0.handled == 0
  {
    var head :- ParseHead(ts, p);
    var op :- ParseUpdate(ts, head.1);
    var test :- ParseTest(ts, op.1, op.0);
    Some((Monkey(head.0, test.0, 0), test.1))
  }

  /** "Monkey N:" (the number is read and dropped) and the starting
      items. */
  function ParseHead(ts: seq<string>, p: nat): (r: Option<(seq<nat>, nat)>)
    ensures r.Some? ==> p < r.value.1 <= |ts|
  {
    var p1 :- ExpectAll(ts, p, ["Monkey"]);
    var id :- Number(ts, p1);
    var p2 :- ExpectAll(ts, id.1, ["Starting", "items:"]);
    Numbers(ts, p2)
  }

  /** "Operation: new = old" and the update. */
  function ParseUpdate(ts: seq<string>, p: nat): (r: Option<(Op, nat)>)
    ensures r.Some? ==> p < r.value.1 <= |ts|
  {
    var p1 :- ExpectAll(ts, p, ["Operation:", "new", "=", "old"]);
    ParseOp(ts, p1)
  }

  /** The divisor of the test and the two recipients. */
  function ParseTest(ts: seq<string>, p: nat, op: Op): (r: Option<(Rule, nat)>)
    ensures r.Some? ==> p < r.value.1 <= |ts|
  {
    var p1 :- ExpectAll(ts, p, ["Test:", "divisible", "by"]);
    var divisor :- Number(ts, p1);
    var p2 :- ExpectAll(ts, divisor.1, ["If", "true:", "throw", "to", "monkey"]);
    var onTrue :- Number(ts, p2);
    var p3 :- ExpectAll(ts, onTrue.1, ["If", "false:", "throw", "to", "monkey"]);
    var onFalse :- Number(ts, p3);
    Some((Rule(op, divisor.0, onTrue.0, onFalse.0), onFalse.1))
  }

  // ---------------------------------------------------------------------
  // Writing notes back: the monkey constructor reads what they say.

  /** stoul reads a decimal number back, whatever non-digit follows it. */
  lemma StoulDecimal(v: nat, rest: string)
    requires rest == [] || !IsDigit(rest[0])
    ensures Stoul(Decimal(v) + rest) == Some(v)
  {
    LeadingDigitsOf(Decimal(v), rest);
    assert (Decimal(v) + rest)[..|Decimal(v)|] == Decimal(v);
  }

  /** A number token, possibly followed by a colon, reads as one number. */
  lemma NumberDecimal(ts: seq<string>, p: nat, v: nat, rest: string)
    requires p < |ts| && ts[p] == Decimal(v) + rest && (rest == "" || rest == ":")
    ensures Numbers(ts, p) == Some(([v], p + 1)) && Number(ts, p) == Some((v, p + 1))
  {
    StoulDecimal(v, rest);
    var t := Decimal(v) + rest;
    assert t[|t| - 1] != ',' by {
      if rest == "" {
        assert t[|t| - 1] == Decimal(v)[|Decimal(v)| - 1];
      }
    }
  }

  /** The tokens of a list of numbers: a comma after all but the last. */
  function ListTokens(vs: seq<nat>): (ts: seq<string>)
    ensures |ts| == |vs|
  {
    if vs == [] then []
    else if |vs| == 1 then [Decimal(vs[0])]
    else [Decimal(vs[0]) + ","] + ListTokens(vs[1..])
  }

  /** numbers reads a written list back. */
  lemma {:induction false} NumbersRoundTrip(ts: seq<string>, p: nat, vs: seq<nat>)
    requires vs != [] && At(ts, p, ListTokens(vs))
    ensures Numbers(ts, p) == Some((vs, p + |vs|))
    decreases |vs|
  {
    assert ts[p] == ListTokens(vs)[0];
    if |vs| == 1 {
      assert Decimal(vs[0]) + "" == Decimal(vs[0]) && [vs[0]] == vs;
      NumberDecimal(ts, p, vs[0], "");
    } else {
      StoulDecimal(vs[0], ",");
      Peel(ts, p, [Decimal(vs[0]) + ","], ListTokens(vs[1..]));
      NumbersRoundTrip(ts, p + 1, vs[1..]);
      assert [vs[0]] + vs[1..] == vs;
    }
  }

  /** The tokens of an update, after "new = old". */
  function OpTokens(op: Op): seq<string>
  {
    match op
    case Add(v) => ["+", Decimal(v)]
    case Mul(v) => ["*", Decimal(v)]
    case Square => ["*", "old"]
  }

  lemma OpRoundTrip(ts: seq<string>, p: nat, op: Op)
    requires At(ts, p, OpTokens(op))
    ensures ParseOp(ts, p) == Some((op, p + 2))
  {
    AtIndex(ts, p, OpTokens(op));
    assert ts[p + 0] == OpTokens(op)[0] && ts[p + 1] == OpTokens(op)[1];
    match op
    case Add(v) =>
      assert ts[p + 1] == Decimal(v) + "";
      NumberDecimal(ts, p + 1, v, "");
    case Mul(v) =>
      StoulDecimal(v, "");
      assert Decimal(v) + "" == Decimal(v);
      assert Decimal(v) != "old" by {
        assert IsDigit(Decimal(v)[0]);
      }
    case Square =>
  }

  /** One monkey's notes, as the tokens the constructor expects, for a
      monkey numbered id: its number and items, its update, its test. */
  function MonkeyTokens(id: nat, m: Monkey): seq<string>
  {
    HeadTokens(id, m.holding) + (UpdateTokens(m.rule.op) + TestTokens(m.rule))
  }

  function HeadTokens(id: nat, holding: seq<nat>): seq<string>
  {
    ["Monkey", Decimal(id) + ":", "Starting", "items:"] + ListTokens(holding)
  }

  function UpdateTokens(op: Op): seq<string>
  {
    ["Operation:", "new", "=", "old"] + OpTokens(op)
  }

  function TestTokens(r: Rule): seq<string>
  {
    ["Test:", "divisible", "by", Decimal(r.divisor)] +
    (["If", "true:", "throw", "to", "monkey", Decimal(r.onTrue)] +
     ["If", "false:", "throw", "to", "monkey", Decimal(r.onFalse)])
  }
  /** The tokens from position p on start with w. */
  predicate At(ts: seq<string>, p: nat, w: seq<string>)
  {
    AtFrom(ts, p, w, 0)
  }

  /** The tokens from position p + i on hold w from its i-th word on. */
  predicate AtFrom(ts: seq<string>, p: nat, w: seq<string>, i: nat)
    decreases |w| - i
  {
    if i >= |w| then p + |w| <= |ts|
    else p + i < |ts| && ts[p + i] == w[i] && AtFrom(ts, p, w, i + 1)
  }

  lemma {:induction false} AtFromInside(ts: seq<string>, p: nat, w: seq<string>, i: nat)
    requires AtFrom(ts, p, w, i)
    ensures p + |w| <= |ts|
    decreases |w| - i
  {
    if i < |w| {
      AtFromInside(ts, p, w, i + 1);
    }
  }

  lemma {:induction false} PeelFrom(ts: seq<string>, p: nat, x: seq<string>, y: seq<string>, i: nat)
    requires i <= |x| && AtFrom(ts, p, x + y, i)
    ensures AtFrom(ts, p, x, i)
    decreases |x| - i
  {
    if i < |x| {
      assert (x + y)[i] == x[i];
      PeelFrom(ts, p, x, y, i + 1);
    } else {
      AtFromInside(ts, p, x + y, i);
    }
  }

  lemma {:induction false} ShiftFrom(ts: seq<string>, p: nat, x: seq<string>, y: seq<string>, j: nat)
    requires j <= |y| && AtFrom(ts, p, x + y, |x| + j)
    ensures AtFrom(ts, p + |x|, y, j)
    decreases |y| - j
  {
    if j < |y| {
      assert (x + y)[|x| + j] == y[j];
      ShiftFrom(ts, p, x, y, j + 1);
    }
  }

  lemma {:induction false} SkipFrom(ts: seq<string>, p: nat, w: seq<string>, i: nat)
    requires i <= |w| && At(ts, p, w)
    ensures AtFrom(ts, p, w, i)
    decreases i
  {
    if i > 0 {
      SkipFrom(ts, p, w, i - 1);
    }
  }

  /** A window on the tokens holding x + y holds x, then y. */
  lemma Peel(ts: seq<string>, p: nat, x: seq<string>, y: seq<string>)
    requires At(ts, p, x + y)
    ensures At(ts, p, x) && At(ts, p + |x|, y)
  {
    PeelFrom(ts, p, x, y, 0);
    SkipFrom(ts, p, x + y, |x|);
    ShiftFrom(ts, p, x, y, 0);
  }

  /** A window holds its words at their offsets. */
  lemma AtIndex(ts: seq<string>, p: nat, w: seq<string>)
    requires At(ts, p, w)
    ensures p + |w| <= |ts| && forall k :: 0 <= k < |w| ==> ts[p + k] == w[k]
  {
    AtFromInside(ts, p, w, 0);
    forall k | 0 <= k < |w|
      ensures ts[p + k] == w[k]
    {
      SkipFrom(ts, p, w, k);
    }
  }

  /** The words are there, so expect consumes them. */
  lemma {:induction false} ExpectAt(ts: seq<string>, p: nat, ws: seq<string>)
    requires p + |ws| <= |ts| && forall k :: 0 <= k < |ws| ==> ts[p + k] == ws[k]
    ensures ExpectAll(ts, p, ws) == Some(p + |ws|)
    decreases |ws|
  {
    if ws != [] {
      forall k | 0 <= k < |ws| - 1
        ensures ts[p + 1 + k] == ws[1..][k]
      {
        assert ts[p + (k + 1)] == ws[k + 1];
      }
      ExpectAt(ts, p + 1, ws[1..]);
    }
  }

  /** The same, for words that sit at offset a of a window t. */
  lemma ExpectIn(ts: seq<string>, p: nat, t: seq<string>, a: nat, ws: seq<string>)
    requires p + |t| <= |ts| && forall k :: 0 <= k < |t| ==> ts[p + k] == t[k]
    requires a + |ws| <= |t| && t[a..a + |ws|] == ws
    ensures ExpectAll(ts, p + a, ws) == Some(p + a + |ws|)
  {
    forall k | 0 <= k < |ws|
      ensures ts[p + a + k] == ws[k]
    {
      assert ws[k] == t[a..a + |ws|][k];
      assert ts[p + (a + k)] == t[a + k];
    }
    ExpectAt(ts, p + a, ws);
  }

  /** The head of the notes reads back as the monkey's items. */
  lemma HeadAt(ts: seq<string>, p: nat, id: nat, holding: seq<nat>)
    requires holding != [] && At(ts, p, HeadTokens(id, holding))
    ensures ParseHead(ts, p) == Some((holding, p + 4 + |holding|))
  {
    var fixed := ["Monkey", Decimal(id) + ":", "Starting", "items:"];
    Peel(ts, p, fixed, ListTokens(holding));
    AtIndex(ts, p, fixed);
    assert ts[p + 0] == fixed[0] && ts[p + 1] == fixed[1] && ts[p + 2] == fixed[2] && ts[p + 3] == fixed[3];
    NumbersRoundTrip(ts, p + 4, holding);
    HeadCompose(ts, p, id, holding);
  }

  lemma HeadCompose(ts: seq<string>, p: nat, id: nat, holding: seq<nat>)
    requires holding != [] && p + 4 <= |ts|
    requires ts[p] == "Monkey" && ts[p + 1] == Decimal(id) + ":"
    requires ts[p + 2] == "Starting" && ts[p + 3] == "items:"
    requires Numbers(ts, p + 4) == Some((holding, p + 4 + |holding|))
    ensures ParseHead(ts, p) == Some((holding, p + 4 + |holding|))
  {
    ExpectAt(ts, p, ["Monkey"]);
    NumberDecimal(ts, p + 1, id, ":");
    ExpectAt(ts, p + 2, ["Starting", "items:"]);
  }

  /** The update reads back. */
  lemma UpdateAt(ts: seq<string>, p: nat, op: Op)
    requires At(ts, p, UpdateTokens(op))
    ensures ParseUpdate(ts, p) == Some((op, p + 6))
  {
    var fixed := ["Operation:", "new", "=", "old"];
    Peel(ts, p, fixed, OpTokens(op));
    AtIndex(ts, p, fixed);
    ExpectAt(ts, p, fixed);
    OpRoundTrip(ts, p + 4, op);
  }

  /** The test reads back as the divisor and the two recipients. */
  lemma TestAt(ts: seq<string>, p: nat, r: Rule)
    requires At(ts, p, TestTokens(r))
    ensures ParseTest(ts, p, r.op) == Some((r, p + 16))
  {
    var divisor := ["Test:", "divisible", "by"];
    var onTrue := ["If", "true:", "throw", "to", "monkey"];
    var onFalse := ["If", "false:", "throw", "to", "monkey"];
    assert TestTokens(r) == (divisor + [Decimal(r.divisor)]) +
      ((onTrue + [Decimal(r.onTrue)]) + (onFalse + [Decimal(r.onFalse)]));
    Peel(ts, p, divisor + [Decimal(r.divisor)],
      (onTrue + [Decimal(r.onTrue)]) + (onFalse + [Decimal(r.onFalse)]));
    Peel(ts, p + 4, onTrue + [Decimal(r.onTrue)], onFalse + [Decimal(r.onFalse)]);
    ClauseAt(ts, p, divisor, r.divisor);
    ClauseAt(ts, p + 4, onTrue, r.onTrue);
    ClauseAt(ts, p + 10, onFalse, r.onFalse);
    assert r == Rule(r.op, r.divisor, r.onTrue, r.onFalse);
  }

  /** Some expected words, then a number. */
  lemma ClauseAt(ts: seq<string>, p: nat, words: seq<string>, v: nat)
    requires At(ts, p, words + [Decimal(v)])
    ensures ExpectAll(ts, p, words) == Some(p + |words|)
    ensures Number(ts, p + |words|) == Some((v, p + |words| + 1))
  {
    var w := words + [Decimal(v)];
    AtIndex(ts, p, w);
    forall k | 0 <= k < |words|
      ensures ts[p + k] == words[k]
    {
      assert w[k] == words[k];
    }
    ExpectAt(ts, p, words);
    assert ts[p + |words|] == w[|words|] == Decimal(v) + "";
    NumberDecimal(ts, p + |words|, v, "");
  }

  /** The notes of a monkey are its head, update and test, one after the
      other. */
  lemma MonkeyWindows(ts: seq<string>, p: nat, id: nat, m: Monkey)
    requires At(ts, p, MonkeyTokens(id, m))
    ensures |MonkeyTokens(id, m)| == 26 + |m.holding|
    ensures At(ts, p, HeadTokens(id, m.holding))
    ensures At(ts, p + 4 + |m.holding|, UpdateTokens(m.rule.op))
    ensures At(ts, p + 10 + |m.holding|, TestTokens(m.rule))
  {
    assert |OpTokens(m.rule.op)| == 2;
    Peel(ts, p, HeadTokens(id, m.holding), UpdateTokens(m.rule.op) + TestTokens(m.rule));
    Peel(ts, p + 4 + |m.holding|, UpdateTokens(m.rule.op), TestTokens(m.rule));
  }

  /** The constructor reads written notes back: the monkey, and the
      position after its notes. A monkey starts with at least one item,
      since numbers always reads one. */
  lemma ParseMonkeyRoundTrip(ts: seq<string>, p: nat, id: nat, m: Monkey)
    requires m.holding != [] && m.handled == 0
    requires At(ts, p, MonkeyTokens(id, m))
    ensures ParseMonkey(ts, p) == Some((m, p + 26 + |m.holding|))
  {
    MonkeyWindows(ts, p, id, m);
    MonkeyReads(ts, p, id, m);
    MonkeyCompose(ts, p, p + 4 + |m.holding|, m);
  }

  lemma MonkeyReads(ts: seq<string>, p: nat, id: nat, m: Monkey)
    requires m.holding != [] && m.handled == 0
    requires At(ts, p, HeadTokens(id, m.holding))
    requires At(ts, p + 4 + |m.holding|, UpdateTokens(m.rule.op))
    requires At(ts, p + 10 + |m.holding|, TestTokens(m.rule))
    ensures ParseHead(ts, p) == Some((m.holding, p + 4 + |m.holding|))
    ensures ParseUpdate(ts, p + 4 + |m.holding|) == Some((m.rule.op, p + 10 + |m.holding|))
    ensures ParseTest(ts, p + 10 + |m.holding|, m.rule.op) == Some((m.rule, p + 26 + |m.holding|))
  {
    var q := p + 4 + |m.holding|;
    HeadAt(ts, p, id, m.holding);
    UpdateAt(ts, q, m.rule.op);
    TestAt(ts, q + 6, m.rule);
  }

  lemma MonkeyCompose(ts: seq<string>, p: nat, q: nat, m: Monkey)
    requires m.handled == 0
    requires ParseHead(ts, p) == Some((m.holding, q))
    requires ParseUpdate(ts, q) == Some((m.rule.op, q + 6))
    requires ParseTest(ts, q + 6, m.rule.op) == Some((m.rule, q + 22))
    ensures ParseMonkey(ts, p) == Some((m, q + 22))
  {
  }

  // ---------------------------------------------------------------------
  // The lcm of the divisors, kept up to date as each monkey is read.

  /** std::gcd, by Euclid's algorithm. */
  function Gcd(a: nat, b: nat): (g: nat)
    ensures a > 0 || b > 0 ==> g > 0
    decreases b
  {
    if b == 0 then a else Gcd(b, a % b)
  }

  /** std::lcm: 0 when either is 0, otherwise a / gcd * b. */
  function Lcm(a: nat, b: nat): nat
  {
    if a == 0 || b == 0 then 0 else a / Gcd(a, b) * b
  }

  /** A multiple of d leaves no remainder. */
  lemma MulMod(d: nat, k: nat)
    requires d > 0
    ensures (d * k) % d == 0
  {
    ModShift(0, d, k);
  }

  /** Euclidean division is unique: n = d * q + r with 0 <= r < d fixes
      the quotient and the remainder. */
  lemma DivModUnique(n: int, d: int, q: int, r: int)
    requires d > 0 && 0 <= r < d && n == d * q + r
    ensures n / d == q && n % d == r
  {
    var z := q - n / d;
    assert d * z == n % d - r;
  }

  /** Adding a multiple of d keeps the remainder. */
  lemma ModShift(r: nat, d: nat, k: nat)
    requires d > 0
    ensures (r + d * k) % d == r % d
  {
    assert r + d * k == d * (k + r / d) + r % d;
    DivModUnique(r + d * k, d, k + r / d, r % d);
  }

  /** A number that leaves no remainder is d times its quotient. */
  lemma Quotient(n: nat, d: nat)
    requires d > 0 && n % d == 0
    ensures n == d * (n / d)
  {
  }

  /** The gcd of two numbers not both zero divides both. */
  lemma {:induction false} GcdDivides(a: nat, b: nat)
    requires a > 0 || b > 0
    ensures Gcd(a, b) > 0 && a % Gcd(a, b) == 0 && b % Gcd(a, b) == 0
    decreases b
  {
    if b == 0 {
      MulMod(a, 1);
      MulMod(a, 0);
    } else {
      GcdDivides(b, a % b);
      DividesSum(a, b, Gcd(b, a % b));
    }
  }

  /** What divides b and a % b divides a. */
  lemma DividesSum(a: nat, b: nat, g: nat)
    requires b > 0 && g > 0 && b % g == 0 && (a % b) % g == 0
    ensures a % g == 0
  {
    Quotient(b, g);
    Quotient(a % b, g);
    var q, r := a / b, a % b;
    var x, y := b / g, r / g;
    FactorOut(a, b, q, r, g, x, y);
    MulMod(g, x * q + y);
  }

  /** A number made of two multiples of g is itself one. */
  lemma FactorOut(a: int, b: int, q: int, r: int, g: int, x: int, y: int)
    requires a == b * q + r && b == g * x && r == g * y
    ensures a == g * (x * q + y)
  {
    calc {
      a;
      (g * x) * q + g * y;
      { assert (g * x) * q == g * (x * q); }
      g * (x * q) + g * y;
    }
  }

  /** The lcm of two positive numbers is a positive multiple of both. */
  lemma LcmMultiple(a: nat, b: nat)
    requires a > 0 && b > 0
    ensures Lcm(a, b) > 0 && Lcm(a, b) % a == 0 && Lcm(a, b) % b == 0
  {
    var g := Gcd(a, b);
    GcdDivides(a, b);
    Quotient(a, g);
    Quotient(b, g);
    var x, y := a / g, b / g;
    assert x > 0;
    assert Lcm(a, b) == b * x;
    MulMod(b, x);
    assert Lcm(a, b) == a * y;
    MulMod(a, y);
  }

  /** Divisibility is transitive. */
  lemma DividesTrans(d: nat, m: nat, n: nat)
    requires d > 0 && m > 0 && m % d == 0 && n % m == 0
    ensures n % d == 0
  {
    Quotient(m, d);
    Quotient(n, m);
    assert n == d * ((m / d) * (n / m));
    MulMod(d, (m / d) * (n / m));
  }

  /** The divisors of the monkeys, in order. */
  function Divisors(ms: seq<Monkey>): (ds: seq<nat>)
    ensures |ds| == |ms| && forall j :: 0 <= j < |ms| ==> ds[j] == ms[j].rule.divisor
  {
    seq(|ms|, j requires 0 <= j < |ms| => ms[j].rule.divisor)
  }

  /** lcm_divisors after the divisors ds were read, starting from 1. */
  function LcmAll(ds: seq<nat>): nat
  {
    if ds == [] then 1 else Lcm(LcmAll(ds[..|ds| - 1]), ds[|ds| - 1])
  }

  /** When every divisor is positive, their lcm is a positive common
      multiple of all of them. */
  lemma {:induction false} LcmAllMultiple(ds: seq<nat>)
    requires forall k :: 0 <= k < |ds| ==> ds[k] > 0
    ensures LcmAll(ds) > 0 && forall k :: 0 <= k < |ds| ==> LcmAll(ds) % ds[k] == 0
    decreases |ds|
  {
    if ds != [] {
      var init := ds[..|ds| - 1];
      var d := ds[|ds| - 1];
      LcmAllMultiple(init);
      var l := LcmAll(init);
      LcmMultiple(l, d);
      forall k | 0 <= k < |ds|
        ensures LcmAll(ds) % ds[k] == 0
      {
        if k < |ds| - 1 {
          assert ds[k] == init[k];
          DividesTrans(ds[k], l, LcmAll(ds));
        }
      }
    }
  }

  /** read: monkeys until the input runs out, each adding its divisor to
      the lcm; from position p with the monkeys and lcm so far. */
  function ReadFrom(ts: seq<string>, p: nat, ms: seq<Monkey>, lcm: nat): Option<(seq<Monkey>, nat)>
    requires p <= |ts|
    decreases |ts| - p
  {
    if p == |ts| then Some((ms, lcm))
    else
      var m :- ParseMonkey(ts, p);
      ReadFrom(ts, m.1, ms + [m.0], Lcm(lcm, m.0.rule.divisor))
  }

  /** read and the static lcm_divisors, from lcm 1. */
  method Read(ts: seq<string>) returns (r: Option<(seq<Monkey>, nat)>)
    ensures r == ReadFrom(ts, 0, [], 1)
  {
    var monkeys: seq<Monkey> := [];
    var lcm := 1;
    var p := 0;
    while p < |ts|
      invariant p <= |ts|
      invariant ReadFrom(ts, p, monkeys, lcm) == ReadFrom(ts, 0, [], 1)
      decreases |ts| - p
    {
      var m := ParseMonkey(ts, p);
      if m.None? {
        return None;
      }
      monkeys := monkeys + [m.value.0];
      lcm := Lcm(lcm, m.value.0.rule.divisor);
      p := m.value.1;
    }
    r := Some((monkeys, lcm));
  }

  /** After every monkey, lcm_divisors is the lcm of the divisors read so
      far. */
  lemma {:induction false} ReadLcm(ts: seq<string>, p: nat, ms: seq<Monkey>)
    requires p <= |ts| && ReadFrom(ts, p, ms, LcmAll(Divisors(ms))).Some?
    ensures var (all, lcm) := ReadFrom(ts, p, ms, LcmAll(Divisors(ms))).value;
      |all| >= |ms| && all[..|ms|] == ms && lcm == LcmAll(Divisors(all))
    decreases |ts| - p
  {
    if p < |ts| {
      var m := ParseMonkey(ts, p).value;
      var ms' := ms + [m.0];
      assert Divisors(ms')[..|ms|] == Divisors(ms);
      ReadLcm(ts, m.1, ms');
    }
  }

  /** So when every divisor read is positive, the lcm read returns is a
      positive multiple of each monkey's divisor. */
  lemma ReadCommonMultiple(ts: seq<string>)
    requires ReadFrom(ts, 0, [], 1).Some?
    requires var ms := ReadFrom(ts, 0, [], 1).value.0;
      forall j :: 0 <= j < |ms| ==> ms[j].rule.divisor > 0
    ensures var (ms, lcm) := ReadFrom(ts, 0, [], 1).value;
      lcm > 0 && forall j :: 0 <= j < |ms| ==> lcm % ms[j].rule.divisor == 0
  {
    assert LcmAll(Divisors([])) == 1;
    ReadLcm(ts, 0, []);
    var ms := ReadFrom(ts, 0, [], 1).value.0;
    LcmAllMultiple(Divisors(ms));
  }

  // ---------------------------------------------------------------------
  // Turns. Each worry level is updated, divided by the relief and, when a
  // modulus is given, reduced modulo it.

  /** The relief is a positive divisor and the modulus, if any, is
      positive. */
  predicate Calm(relief: nat, modulus: Option<nat>)
  {
    relief > 0 && (modulus.Some? ==> modulus.value > 0)
  }

  /** The worry level after monkey inspection. */
  function Inspect(rule: Rule, w: nat, relief: nat, modulus: Option<nat>): nat
    requires Calm(relief, modulus)
  {
    var v := Apply(rule.op, w) / relief;
    if modulus.Some? then v % modulus.value else v
  }

  /** recipient[0] when the level is divisible by the divisor, else
      recipient[1]. */
  function Target(rule: Rule, w: nat): nat
    requires rule.divisor > 0
  {
    if w % rule.divisor != 0 then rule.onFalse else rule.onTrue
  }

  /** Where monkey i's rule throws an item it inspects. */
  function Throw(rule: Rule, w: nat, relief: nat, modulus: Option<nat>): nat
    requires rule.divisor > 0 && Calm(relief, modulus)
  {
    Target(rule, Inspect(rule, w, relief, modulus))
  }

  /** Monkey i's rule can be followed: the divisor is not 0 and it never
      throws to itself. */
  predicate Fits(rule: Rule, i: nat)
  {
    rule.divisor > 0 && rule.onTrue != i && rule.onFalse != i
  }

  /** Every monkey's rule fits. */
  predicate Sane(ms: seq<Monkey>)
  {
    forall j :: 0 <= j < |ms| ==> Fits(ms[j].rule, j)
  }

  /** The same monkeys with the same rules. */
  predicate SameRules(a: seq<Monkey>, b: seq<Monkey>)
  {
    |a| == |b| && forall j :: 0 <= j < |a| ==> a[j].rule == b[j].rule
  }

  /** receive: the item goes to the back. */
  function Receive(m: Monkey, w: nat): Monkey
  {
    m.(holding := m.holding + [w])
  }

  /** One pass of turn's loop: monkey i takes its front item, counts it
      as handled, inspects it and throws it; None when the recipient does
      not exist. */
  function Pass(ms: seq<Monkey>, i: nat, relief: nat, modulus: Option<nat>): (r: Option<seq<Monkey>>)
    requires i < |ms| && Fits(ms[i].rule, i) && Calm(relief, modulus) && ms[i].holding != []
    ensures r.Some? ==> SameRules(r.value, ms) && r.value[i].holding == ms[i].holding[1..]
  {
    var m := ms[i];
    var w := Inspect(m.rule, m.holding[0], relief, modulus);
    var to := Target(m.rule, w);
    if to >= |ms| then None
    else
      var ms' := ms[i := Monkey(m.holding[1..], m.rule, m.handled + 1)];
      Some(ms'[to := Receive(ms'[to], w)])
  }

  /** turn: passes until monkey i holds nothing. */
  function TurnSpec(ms: seq<Monkey>, i: nat, relief: nat, modulus: Option<nat>): (r: Option<seq<Monkey>>)
    requires i < |ms| && Fits(ms[i].rule, i) && Calm(relief, modulus)
    ensures r.Some? ==> SameRules(r.value, ms)
    decreases |ms[i].holding|
  {
    if ms[i].holding == [] then Some(ms)
    else
      var next :- Pass(ms, i, relief, modulus);
      TurnSpec(next, i, relief, modulus)
  }

  /** A pass changes monkey i and the recipient only: monkey i loses its
      front item and counts it, and the recipient gets the inspected
      level at the back. */
  lemma PassResult(ms: seq<Monkey>, i: nat, relief: nat, modulus: Option<nat>)
    requires i < |ms| && Fits(ms[i].rule, i) && Calm(relief, modulus) && ms[i].holding != []
    ensures var m := ms[i];
      var w := Inspect(m.rule, m.holding[0], relief, modulus);
      (Pass(ms, i, relief, modulus).Some? <==> Target(m.rule, w) < |ms|) &&
      (Pass(ms, i, relief, modulus).Some? ==>
        var r := Pass(ms, i, relief, modulus).value;
        |r| == |ms| && r[i] == Monkey(m.holding[1..], m.rule, m.handled + 1) &&
        forall j :: 0 <= j < |ms| && j != i ==>
          r[j] == Receives(ms[j], if Target(m.rule, w) == j then [w] else []))
  {
    var m := ms[i];
    var w := Inspect(m.rule, m.holding[0], relief, modulus);
    var to := Target(m.rule, w);
    if to < |ms| {
      var r := Pass(ms, i, relief, modulus).value;
      forall j | 0 <= j < |ms| && j != i
        ensures r[j] == Receives(ms[j], if to == j then [w] else [])
      {
        if to != j {
          assert ms[j].holding + [] == ms[j].holding;
        }
      }
    }
  }

  /** One pass of turn's loop in place. */
  method PassInPlace(monkeys: array<Monkey>, i: nat, relief: nat, modulus: Option<nat>) returns (ok: bool)
    requires i < monkeys.Length && Fits(monkeys[i].rule, i) && Calm(relief, modulus)
    requires monkeys[i].holding != []
    modifies monkeys
    ensures ok <==> Pass(old(monkeys[..]), i, relief, modulus).Some?
    ensures ok ==> monkeys[..] == Pass(old(monkeys[..]), i, relief, modulus).value
  {
    var m := monkeys[i];
    var w := m.holding[0];
    monkeys[i] := Monkey(m.holding[1..], m.rule, m.handled + 1);
    w := Apply(m.rule.op, w) / relief;
    if modulus.Some? {
      w := w % modulus.value;
    }
    var to := if w % m.rule.divisor != 0 then m.rule.onFalse else m.rule.onTrue;
    if to >= monkeys.Length {
      return false;
    }
    monkeys[to] := Receive(monkeys[to], w);
    return true;
  }

  /** turn on the monkeys in place. */
  method Turn(monkeys: array<Monkey>, i: nat, relief: nat, modulus: Option<nat>) returns (ok: bool)
    requires i < monkeys.Length && Fits(monkeys[i].rule, i) && Calm(relief, modulus)
    modifies monkeys
    ensures ok <==> TurnSpec(old(monkeys[..]), i, relief, modulus).Some?
    ensures ok ==> monkeys[..] == TurnSpec(old(monkeys[..]), i, relief, modulus).value
  {
    while monkeys[i].holding != []
      invariant Fits(monkeys[i].rule, i)
      invariant TurnSpec(monkeys[..], i, relief, modulus) == TurnSpec(old(monkeys[..]), i, relief, modulus)
      decreases |monkeys[i].holding|
    {
      ok := PassInPlace(monkeys, i, relief, modulus);
      if !ok {
        return;
      }
    }
    return true;
  }

  /** The items monkey i throws to monkey j, in order, as they arrive. */
  function Sent(rule: Rule, items: seq<nat>, j: nat, relief: nat, modulus: Option<nat>): seq<nat>
    requires rule.divisor > 0 && Calm(relief, modulus)
  {
    if items == [] then []
    else
      var w := Inspect(rule, items[0], relief, modulus);
      (if Target(rule, w) == j then [w] else []) + Sent(rule, items[1..], j, relief, modulus)
  }

  /** A turn goes through exactly when every item lands on an existing
      monkey. */
  lemma {:induction false} TurnDefined(ms: seq<Monkey>, i: nat, relief: nat, modulus: Option<nat>)
    requires i < |ms| && Fits(ms[i].rule, i) && Calm(relief, modulus)
    ensures TurnSpec(ms, i, relief, modulus).Some? <==>
      forall k :: 0 <= k < |ms[i].holding| ==> Throw(ms[i].rule, ms[i].holding[k], relief, modulus) < |ms|
    decreases |ms[i].holding|
  {
    var m := ms[i];
    if m.holding != [] {
      PassResult(ms, i, relief, modulus);
      var p := Pass(ms, i, relief, modulus);
      if p.Some? {
        TurnDefined(p.value, i, relief, modulus);
        assert forall k :: 1 <= k < |m.holding| ==> m.holding[k] == p.value[i].holding[k - 1];
      }
    }
  }

  /** Receiving two batches is receiving them one after the other. */
  lemma ReceivesTwice(m: Monkey, xs: seq<nat>, ys: seq<nat>)
    ensures Receives(Receives(m, xs), ys) == Receives(m, xs + ys)
  {
    assert m.holding + xs + ys == m.holding + (xs + ys);
  }

  /** After its turn monkey i holds nothing and has handled one more item
      per item it held; every other monkey has received, at the back and
      in order, the items thrown to it; nothing else changes. */
  lemma {:induction false} TurnResult(ms: seq<Monkey>, i: nat, relief: nat, modulus: Option<nat>)
    requires i < |ms| && Fits(ms[i].rule, i) && Calm(relief, modulus)
    requires TurnSpec(ms, i, relief, modulus).Some?
    ensures var r := TurnSpec(ms, i, relief, modulus).value;
      |r| == |ms| &&
      r[i] == Monkey([], ms[i].rule, ms[i].handled + |ms[i].holding|) &&
      forall j :: 0 <= j < |ms| && j != i ==>
        r[j] == Receives(ms[j], Sent(ms[i].rule, ms[i].holding, j, relief, modulus))
    decreases |ms[i].holding|
  {
    var m := ms[i];
    if m.holding != [] {
      PassResult(ms, i, relief, modulus);
      var w := Inspect(m.rule, m.holding[0], relief, modulus);
      var next := Pass(ms, i, relief, modulus).value;
      TurnResult(next, i, relief, modulus);
      var r := TurnSpec(ms, i, relief, modulus).value;
      forall j | 0 <= j < |ms| && j != i
        ensures r[j] == Receives(ms[j], Sent(m.rule, m.holding, j, relief, modulus))
      {
        var mine := if Target(m.rule, w) == j then [w] else [];
        ReceivesTwice(ms[j], mine, Sent(m.rule, m.holding[1..], j, relief, modulus));
      }
    }
  }

  /** A monkey that has been thrown the items ws. */
  function Receives(m: Monkey, ws: seq<nat>): Monkey
  {
    m.(holding := m.holding + ws)
  }

  /** How many items each monkey holds. */
  function Counts(ms: seq<Monkey>): (cs: seq<int>)
    ensures |cs| == |ms| && forall j :: 0 <= j < |ms| ==> cs[j] == |ms[j].holding|
  {
    seq(|ms|, j requires 0 <= j < |ms| => |ms[j].holding|)
  }

  /** All the items the monkeys hold. */
  function Items(ms: seq<Monkey>): int
  {
    Sum(Counts(ms))
  }

  /** Replacing one monkey changes the items by the difference in what
      it holds. */
  lemma ItemsUpdate(ms: seq<Monkey>, j: nat, m: Monkey)
    requires j < |ms|
    ensures Items(ms[j := m]) == Items(ms) - |ms[j].holding| + |m.holding|
  {
    assert Counts(ms[j := m]) == Counts(ms)[j := |m.holding|];
    SumUpdate(Counts(ms), j, |m.holding|);
  }

  /** A pass moves one item from monkey i to another monkey. */
  lemma PassKeepsItems(ms: seq<Monkey>, i: nat, relief: nat, modulus: Option<nat>)
    requires i < |ms| && Fits(ms[i].rule, i) && Calm(relief, modulus) && ms[i].holding != []
    requires Pass(ms, i, relief, modulus).Some?
    ensures Items(Pass(ms, i, relief, modulus).value) == Items(ms)
  {
    var m := ms[i];
    var w := Inspect(m.rule, m.holding[0], relief, modulus);
    var to := Target(m.rule, w);
    var m' := Monkey(m.holding[1..], m.rule, m.handled + 1);
    var ms' := ms[i := m'];
    ItemsUpdate(ms, i, m');
    ItemsUpdate(ms', to, Receive(ms'[to], w));
  }

  /** No monkey throws to itself, so a turn moves items between monkeys
      and keeps their number. */
  lemma {:induction false} TurnKeepsItems(ms: seq<Monkey>, i: nat, relief: nat, modulus: Option<nat>)
    requires i < |ms| && Fits(ms[i].rule, i) && Calm(relief, modulus)
    requires TurnSpec(ms, i, relief, modulus).Some?
    ensures Items(TurnSpec(ms, i, relief, modulus).value) == Items(ms)
    decreases |ms[i].holding|
  {
    if ms[i].holding != [] {
      PassKeepsItems(ms, i, relief, modulus);
      TurnKeepsItems(Pass(ms, i, relief, modulus).value, i, relief, modulus);
    }
  }

  // ---------------------------------------------------------------------
  // Rounds: every monkey takes its turn, in order.

  /** The turns of monkeys 0 .. k - 1. */
  function Turns(ms: seq<Monkey>, k: nat, relief: nat, modulus: Option<nat>): (r: Option<seq<Monkey>>)
    requires k <= |ms| && Sane(ms) && Calm(relief, modulus)
    ensures r.Some? ==> SameRules(r.value, ms)
  {
    if k == 0 then Some(ms)
    else
      match Turns(ms, k - 1, relief, modulus)
      case None => None
      case Some(before) => TurnSpec(before, k - 1, relief, modulus)
  }

  function Round(ms: seq<Monkey>, relief: nat, modulus: Option<nat>): (r: Option<seq<Monkey>>)
    requires Sane(ms) && Calm(relief, modulus)
    ensures r.Some? ==> SameRules(r.value, ms) && Sane(r.value)
  {
    Turns(ms, |ms|, relief, modulus)
  }

  /** n rounds. */
  function Rounds(ms: seq<Monkey>, n: nat, relief: nat, modulus: Option<nat>): (r: Option<seq<Monkey>>)
    requires Sane(ms) && Calm(relief, modulus)
    ensures r.Some? ==> SameRules(r.value, ms) && Sane(r.value)
  {
    if n == 0 then Some(ms)
    else
      match Rounds(ms, n - 1, relief, modulus)
      case None => None
      case Some(before) => Round(before, relief, modulus)
  }

  /** Rounds keep the number of items. */
  lemma {:induction false} TurnsKeepItems(ms: seq<Monkey>, k: nat, relief: nat, modulus: Option<nat>)
    requires k <= |ms| && Sane(ms) && Calm(relief, modulus)
    requires Turns(ms, k, relief, modulus).Some?
    ensures Items(Turns(ms, k, relief, modulus).value) == Items(ms)
  {
    if k > 0 {
      var before := Turns(ms, k - 1, relief, modulus).value;
      TurnsNext(ms, k - 1, before, relief, modulus);
      TurnsKeepItems(ms, k - 1, relief, modulus);
      TurnKeepsItems(before, k - 1, relief, modulus);
    }
  }

  lemma {:induction false} RoundsKeepItems(ms: seq<Monkey>, n: nat, relief: nat, modulus: Option<nat>)
    requires Sane(ms) && Calm(relief, modulus)
    requires Rounds(ms, n, relief, modulus).Some?
    ensures Items(Rounds(ms, n, relief, modulus).value) == Items(ms)
  {
    if n > 0 {
      var before := Rounds(ms, n - 1, relief, modulus).value;
      RoundsKeepItems(ms, n - 1, relief, modulus);
      TurnsKeepItems(before, |before|, relief, modulus);
    }
  }

  /** One round in place. */
  method PlayRound(monkeys: array<Monkey>, relief: nat, modulus: Option<nat>) returns (ok: bool)
    requires Sane(monkeys[..]) && Calm(relief, modulus)
    modifies monkeys
    ensures ok <==> Round(old(monkeys[..]), relief, modulus).Some?
    ensures ok ==> monkeys[..] == Round(old(monkeys[..]), relief, modulus).value
  {
    ghost var start := monkeys[..];
    for i := 0 to monkeys.Length
      invariant Turns(start, i, relief, modulus) == Some(monkeys[..])
    {
      TurnsNext(start, i, monkeys[..], relief, modulus);
      ok := Turn(monkeys, i, relief, modulus);
      if !ok {
        TurnsStopped(start, i + 1, |start|, relief, modulus);
        return;
      }
    }
    assert Round(start, relief, modulus) == Some(monkeys[..]);
    ok := true;
  }

  /** The turns of monkeys 0 .. k are those of 0 .. k - 1, then k's. */
  lemma TurnsNext(ms: seq<Monkey>, k: nat, before: seq<Monkey>, relief: nat, modulus: Option<nat>)
    requires k < |ms| && Sane(ms) && Calm(relief, modulus)
    requires Turns(ms, k, relief, modulus) == Some(before)
    ensures k < |before| && Fits(before[k].rule, k)
    ensures Turns(ms, k + 1, relief, modulus) == TurnSpec(before, k, relief, modulus)
  {
    assert before[k].rule == ms[k].rule;
  }

  /** Once a turn has failed, the round fails. */
  lemma {:induction false} TurnsStopped(ms: seq<Monkey>, k: nat, n: nat, relief: nat, modulus: Option<nat>)
    requires k <= n <= |ms| && Sane(ms) && Calm(relief, modulus)
    requires Turns(ms, k, relief, modulus).None?
    ensures Turns(ms, n, relief, modulus).None?
    decreases n
  {
    if k < n {
      TurnsStopped(ms, k, n - 1, relief, modulus);
    }
  }

  /** Once a round has failed, the rest fail. */
  lemma {:induction false} RoundsStopped(ms: seq<Monkey>, k: nat, n: nat, relief: nat, modulus: Option<nat>)
    requires k <= n && Sane(ms) && Calm(relief, modulus)
    requires Rounds(ms, k, relief, modulus).None?
    ensures Rounds(ms, n, relief, modulus).None?
    decreases n
  {
    if k < n {
      RoundsStopped(ms, k, n - 1, relief, modulus);
      var before := Rounds(ms, n - 1, relief, modulus);
      assert before.None?;
    }
  }

  /** The activity of the monkeys: how many items each has handled. */
  function Activity(ms: seq<Monkey>): (a: seq<int>)
    ensures |a| == |ms| && forall j :: 0 <= j < |ms| ==> a[j] == ms[j].handled
  {
    seq(|ms|, j requires 0 <= j < |ms| => ms[j].handled as int)
  }

  /** The activity sorted largest first; the first two multiplied; None
      when there are fewer than two monkeys. */
  function TopTwo(a: seq<int>): Option<int>
  {
    if |a| < 2 then None
    else
      var sorted := SortDesc(a);
      Some(sorted[0] * sorted[1])
  }

  /** The answer is the product of two of the counts, x >= y, with no
      other count above y. */
  lemma TopTwoLargest(a: seq<int>)
    requires |a| >= 2
    ensures exists x, y :: (TopTwo(a) == Some(x * y) && x >= y &&
      multiset{x, y} <= multiset(a) &&
      forall z :: z in multiset(a) - multiset{x, y} ==> z <= y)
  {
    var sorted := SortDesc(a);
    SortDescSorted(a);
    var x, y := sorted[0], sorted[1];
    var top := Largest(a, 2);
    assert top == [x, y];
    assert multiset(top) == multiset{x, y};
    forall z | z in multiset(a) - multiset{x, y}
      ensures z <= y
    {
      assert y in multiset(top);
      LargestDominates(a, 2, y, z);
    }
  }

  /** What monkey_business computes after the given rounds. */
  function Business(ms: seq<Monkey>, rounds: nat, relief: nat, modulus: Option<nat>): Option<int>
    requires Sane(ms) && Calm(relief, modulus)
  {
    var after :- Rounds(ms, rounds, relief, modulus);
    TopTwo(Activity(after))
  }

  /** The modulus items are reduced by: the lcm of the divisors when there
      is no relief, and none when worry levels are divided by the relief,
      since division does not respect remainders. */
  function Modulus(relief: nat, lcm: nat): Option<nat>
  {
    if relief == 1 then Some(lcm) else None
  }

  /** monkey_business: read monkeys play the rounds in place, then the
      two largest activities are multiplied. */
  method MonkeyBusiness(start: seq<Monkey>, lcm: nat, rounds: nat, relief: nat) returns (ans: Option<int>)
    requires Sane(start) && relief > 0 && lcm > 0
    ensures ans == Business(start, rounds, relief, Modulus(relief, lcm))
  {
    var modulus := Modulus(relief, lcm);
    var monkeys := new Monkey[|start|](j requires 0 <= j < |start| => start[j]);
    assert monkeys[..] == start;
    for r := 0 to rounds
      invariant Rounds(start, r, relief, modulus) == Some(monkeys[..])
    {
      var ok := PlayRound(monkeys, relief, modulus);
      if !ok {
        RoundsStopped(start, r + 1, rounds, relief, modulus);
        return None;
      }
    }
    var activity: seq<int> := [];
    for j := 0 to monkeys.Length
      invariant activity == Activity(monkeys[..j])
    {
      activity := activity + [monkeys[j].handled];
    }
    assert monkeys[..monkeys.Length] == monkeys[..];
    if |activity| < 2 {
      return None;
    }
    var sorted := SortDesc(activity);
    ans := Some(sorted[0] * sorted[1]);
  }

  // ---------------------------------------------------------------------
  // Reduction: worry levels equal modulo a common multiple of the
  // divisors are thrown alike, for ever, as long as there is no relief.

  /** Taking the remainder by a multiple of d keeps the remainder by d. */
  lemma ReducePreserves(w: nat, lcm: nat, d: nat)
    requires lcm > 0 && d > 0 && lcm % d == 0
    ensures (w % lcm) % d == w % d
  {
    Quotient(lcm, d);
    var x := lcm / d;
    assert w == w % lcm + d * (x * (w / lcm));
    ModShift(w % lcm, d, x * (w / lcm));
  }

  /** Each update respects remainders. */
  lemma ApplyCongruent(op: Op, w: nat, lcm: nat)
    requires lcm > 0
    ensures Apply(op, w % lcm) % lcm == Apply(op, w) % lcm
  {
    var q, r := w / lcm, w % lcm;
    assert w == r + lcm * q;
    match op
    case Add(v) =>
      ModShift(r + v, lcm, q);
    case Mul(v) =>
      assert w * v == r * v + lcm * (q * v);
      ModShift(r * v, lcm, q * v);
    case Square =>
      assert w * w == r * r + lcm * (q * (w + r));
      ModShift(r * r, lcm, q * (w + r));
  }

  /** Two levels equal modulo a multiple of the divisor, one reduced and
      one not, stay equal modulo it after inspection without relief and
      go to the same monkey. */
  lemma InspectAlike(rule: Rule, wa: nat, wb: nat, lcm: nat)
    requires lcm > 0 && rule.divisor > 0 && lcm % rule.divisor == 0
    requires wa % lcm == wb % lcm
    ensures Inspect(rule, wa, 1, Some(lcm)) % lcm == Inspect(rule, wb, 1, None) % lcm
    ensures Throw(rule, wa, 1, Some(lcm)) == Throw(rule, wb, 1, None)
  {
    var a, b := Apply(rule.op, wa), Apply(rule.op, wb);
    ApplyCongruent(rule.op, wa, lcm);
    ApplyCongruent(rule.op, wb, lcm);
    assert a % lcm == b % lcm;
    DivModUnique(a % lcm, lcm, 0, a % lcm);
    ReducePreserves(a, lcm, rule.divisor);
    ReducePreserves(b, lcm, rule.divisor);
  }

  /** Two monkeys alike but for items equal modulo lcm. */
  predicate Alike(ma: Monkey, mb: Monkey, lcm: nat)
    requires lcm > 0
  {
    ma.rule == mb.rule && ma.handled == mb.handled && |ma.holding| == |mb.holding| &&
    forall k :: 0 <= k < |ma.holding| ==> ma.holding[k] % lcm == mb.holding[k] % lcm
  }

  predicate Congruent(a: seq<Monkey>, b: seq<Monkey>, lcm: nat)
    requires lcm > 0
  {
    |a| == |b| && forall j :: 0 <= j < |a| ==> Alike(a[j], b[j], lcm)
  }

  /** Both runs go through or neither, and then end alike. */
  predicate Simulated(ra: Option<seq<Monkey>>, rb: Option<seq<Monkey>>, lcm: nat)
    requires lcm > 0
  {
    (ra.Some? <==> rb.Some?) && (ra.Some? ==> Congruent(ra.value, rb.value, lcm))
  }

  /** lcm is a positive multiple of every monkey's divisor. */
  predicate CommonMultiple(ms: seq<Monkey>, lcm: nat)
  {
    lcm > 0 && forall j :: 0 <= j < |ms| ==> ms[j].rule.divisor > 0 && lcm % ms[j].rule.divisor == 0
  }

  /** Alike monkeys stay alike when given levels equal modulo lcm. */
  lemma AlikeReceives(ma: Monkey, mb: Monkey, xs: seq<nat>, ys: seq<nat>, lcm: nat)
    requires lcm > 0 && Alike(ma, mb, lcm) && |xs| == |ys|
    requires forall k :: 0 <= k < |xs| ==> xs[k] % lcm == ys[k] % lcm
    ensures Alike(Receives(ma, xs), Receives(mb, ys), lcm)
  {
  }

  /** A pass with reduction behaves like one without, when there is no
      relief. */
  lemma PassSimulates(a: seq<Monkey>, b: seq<Monkey>, i: nat, lcm: nat)
    requires i < |a| && Fits(a[i].rule, i) && lcm > 0 && lcm % a[i].rule.divisor == 0
    requires Congruent(a, b, lcm) && a[i].holding != []
    ensures b[i].rule == a[i].rule && b[i].holding != []
    ensures Simulated(Pass(a, i, 1, Some(lcm)), Pass(b, i, 1, None), lcm)
  {
    var ma, mb := a[i], b[i];
    assert Alike(ma, mb, lcm);
    var rule := ma.rule;
    InspectAlike(rule, ma.holding[0], mb.holding[0], lcm);
    PassResult(a, i, 1, Some(lcm));
    PassResult(b, i, 1, None);
    var wa := Inspect(rule, ma.holding[0], 1, Some(lcm));
    var wb := Inspect(rule, mb.holding[0], 1, None);
    var to := Target(rule, wa);
    if to < |a| {
      var a', b' := Pass(a, i, 1, Some(lcm)).value, Pass(b, i, 1, None).value;
      forall j | 0 <= j < |a|
        ensures Alike(a'[j], b'[j], lcm)
      {
        if j == i {
          assert forall k :: 0 <= k < |ma.holding| - 1 ==> ma.holding[1..][k] == ma.holding[k + 1];
        } else {
          assert Alike(a[j], b[j], lcm);
          AlikeReceives(a[j], b[j], if to == j then [wa] else [], if to == j then [wb] else [], lcm);
        }
      }
    }
  }

  /** A turn with reduction behaves like one without, when there is no
      relief: both go through or neither, and the monkeys stay alike. */
  lemma {:induction false} TurnSimulates(a: seq<Monkey>, b: seq<Monkey>, i: nat, lcm: nat)
    requires i < |a| && Fits(a[i].rule, i) && lcm > 0 && lcm % a[i].rule.divisor == 0
    requires Congruent(a, b, lcm)
    ensures Simulated(TurnSpec(a, i, 1, Some(lcm)), TurnSpec(b, i, 1, None), lcm)
    decreases |a[i].holding|
  {
    assert Alike(a[i], b[i], lcm);
    if a[i].holding != [] {
      PassSimulates(a, b, i, lcm);
      var pa, pb := Pass(a, i, 1, Some(lcm)), Pass(b, i, 1, None);
      if pa.Some? {
        TurnSimulates(pa.value, pb.value, i, lcm);
      }
    }
  }

  /** Congruent monkeys have the same rules. */
  lemma CongruentRules(a: seq<Monkey>, b: seq<Monkey>, lcm: nat)
    requires lcm > 0 && Congruent(a, b, lcm)
    ensures SameRules(a, b)
  {
    assert forall j :: 0 <= j < |a| ==> Alike(a[j], b[j], lcm);
  }

  lemma {:induction false} TurnsSimulate(a: seq<Monkey>, b: seq<Monkey>, k: nat, lcm: nat)
    requires k <= |a| && Sane(a) && CommonMultiple(a, lcm) && Congruent(a, b, lcm) && Sane(b)
    ensures Simulated(Turns(a, k, 1, Some(lcm)), Turns(b, k, 1, None), lcm)
  {
    if k > 0 {
      TurnsSimulate(a, b, k - 1, lcm);
      TurnsSimulateNext(a, b, k, lcm);
    }
  }

  /** One more turn keeps the two runs alike. */
  lemma TurnsSimulateNext(a: seq<Monkey>, b: seq<Monkey>, k: nat, lcm: nat)
    requires 0 < k <= |a| && Sane(a) && CommonMultiple(a, lcm) && Congruent(a, b, lcm) && Sane(b)
    requires Simulated(Turns(a, k - 1, 1, Some(lcm)), Turns(b, k - 1, 1, None), lcm)
    ensures Simulated(Turns(a, k, 1, Some(lcm)), Turns(b, k, 1, None), lcm)
  {
    var ra, rb := Turns(a, k - 1, 1, Some(lcm)), Turns(b, k - 1, 1, None);
    if ra.Some? {
      var a', b' := ra.value, rb.value;
      TurnsNext(a, k - 1, a', 1, Some(lcm));
      TurnsNext(b, k - 1, b', 1, None);
      assert a'[k - 1].rule == a[k - 1].rule;
      TurnSimulates(a', b', k - 1, lcm);
    } else {
      TurnsStopped(a, k - 1, k, 1, Some(lcm));
      TurnsStopped(b, k - 1, k, 1, None);
    }
  }

  lemma {:induction false} RoundsSimulate(a: seq<Monkey>, b: seq<Monkey>, n: nat, lcm: nat)
    requires Sane(a) && CommonMultiple(a, lcm) && Congruent(a, b, lcm) && Sane(b)
    ensures Simulated(Rounds(a, n, 1, Some(lcm)), Rounds(b, n, 1, None), lcm)
  {
    if n > 0 {
      RoundsSimulate(a, b, n - 1, lcm);
      var ra := Rounds(a, n - 1, 1, Some(lcm));
      if ra.Some? {
        var a', b' := ra.value, Rounds(b, n - 1, 1, None).value;
        assert forall j :: 0 <= j < |a| ==> a'[j].rule == a[j].rule;
        TurnsSimulate(a', b', |a'|, lcm);
      }
    }
  }

  /** Reducing by a common multiple of the divisors gives the answer the
      unreduced worry levels give. */
  lemma ReductionIsSound(ms: seq<Monkey>, lcm: nat, rounds: nat, relief: nat)
    requires Sane(ms) && relief > 0 && CommonMultiple(ms, lcm)
    ensures Business(ms, rounds, relief, Modulus(relief, lcm)) == Business(ms, rounds, relief, None)
  {
    if relief == 1 {
      RoundsSimulate(ms, ms, rounds, lcm);
      if Rounds(ms, rounds, 1, Some(lcm)).Some? {
        var a, b := Rounds(ms, rounds, 1, Some(lcm)).value, Rounds(ms, rounds, 1, None).value;
        assert Activity(a) == Activity(b);
      }
    }
  }

  /** monkey_business as written: every worry level is reduced modulo
      the lcm, whatever the relief. */
  function BusinessAsWritten(ms: seq<Monkey>, lcm: nat, rounds: nat, relief: nat): Option<int>
    requires Sane(ms) && relief > 0 && lcm > 0
  {
    Business(ms, rounds, relief, Some(lcm))
  }

  /** Without relief (part 2) the program as written is right: reducing
      by a common multiple of the divisors keeps the answer. */
  lemma AsWrittenWithoutRelief(ms: seq<Monkey>, lcm: nat, rounds: nat)
    requires Sane(ms) && lcm > 0 && CommonMultiple(ms, lcm)
    ensures BusinessAsWritten(ms, lcm, rounds, 1) == Business(ms, rounds, 1, None)
  {
    ReductionIsSound(ms, lcm, rounds, 1);
  }

  /** Three monkeys, each testing divisibility by 2, so the lcm is 2. */
  function Sample(): seq<Monkey>
  {
    [Monkey([15], Rule(Add(0), 2, 1, 1), 0),
     Monkey([], Rule(Add(5), 2, 2, 0), 0),
     Monkey([0], Rule(Add(0), 2, 0, 0), 0)]
  }

  /** The sample's rules fit and its lcm is 2. */
  lemma SampleLcm()
    ensures Sane(Sample()) && LcmAll(Divisors(Sample())) == 2
  {
    var ms := Sample();
    assert Divisors(ms) == [2, 2, 2];
    assert [2, 2, 2][..2] == [2, 2] && [2, 2][..1] == [2] && [2][..0] == [];
    assert Gcd(1, 2) == 1 && Gcd(2, 2) == 2;
  }

  /** The sample's monkeys once all three, as written, have had their
      turn. */
  function SampleReduced(): seq<Monkey>
  {
    [Monkey([0, 0], Rule(Add(0), 2, 1, 1), 1),
     Monkey([], Rule(Add(5), 2, 2, 0), 1),
     Monkey([], Rule(Add(0), 2, 0, 0), 2)]
  }

  /** The same without reduction. */
  function SampleUnreduced(): seq<Monkey>
  {
    [Monkey([3, 0], Rule(Add(0), 2, 1, 1), 1),
     Monkey([], Rule(Add(5), 2, 2, 0), 1),
     Monkey([], Rule(Add(0), 2, 0, 0), 1)]
  }

  lemma SampleRoundReduced()
    ensures Sane(Sample()) && Rounds(Sample(), 1, 3, Some(2)) == Some(SampleReduced())
  {
    SampleLcm();
    var ms := Sample();
    var r0, r1, r2 := ms[0].rule, ms[1].rule, ms[2].rule;
    var a1 := [Monkey([], r0, 1), Monkey([1], r1, 0), Monkey([0], r2, 0)];
    var a2 := [Monkey([], r0, 1), Monkey([], r1, 1), Monkey([0, 0], r2, 0)];
    var a3 := SampleReduced();
    TurnSample1(ms, a1);
    TurnSample2(a1, a2);
    TurnSample3(a2, a3);
    assert Turns(ms, 3, 3, Some(2)) == Some(a3);
  }

  lemma TurnSample1(ms: seq<Monkey>, a1: seq<Monkey>)
    requires ms == Sample()
    requires a1 == [Monkey([], ms[0].rule, 1), Monkey([1], ms[1].rule, 0), Monkey([0], ms[2].rule, 0)]
    ensures Fits(ms[0].rule, 0) && TurnSpec(ms, 0, 3, Some(2)) == Some(a1)
  {
    var m := ms[0];
    var w := Inspect(m.rule, m.holding[0], 3, Some(2));
    assert w == 1;
    var ms' := ms[0 := Monkey(m.holding[1..], m.rule, m.handled + 1)];
    assert TurnSpec(ms, 0, 3, Some(2)) == TurnSpec(ms'[1 := Receive(ms'[1], w)], 0, 3, Some(2));
    assert m.holding[1..] == [] && ms'[1].holding + [w] == [1];
    assert ms'[1 := Receive(ms'[1], w)] == a1;
  }

  lemma TurnSample2(a1: seq<Monkey>, a2: seq<Monkey>)
    requires a1 == [Monkey([], Sample()[0].rule, 1), Monkey([1], Sample()[1].rule, 0), Monkey([0], Sample()[2].rule, 0)]
    requires a2 == [Monkey([], a1[0].rule, 1), Monkey([], a1[1].rule, 1), Monkey([0, 0], a1[2].rule, 0)]
    ensures Fits(a1[1].rule, 1) && TurnSpec(a1, 1, 3, Some(2)) == Some(a2)
  {
    var m := a1[1];
    var w := Inspect(m.rule, m.holding[0], 3, Some(2));
    assert w == 0;
    var ms' := a1[1 := Monkey(m.holding[1..], m.rule, m.handled + 1)];
    assert TurnSpec(a1, 1, 3, Some(2)) == TurnSpec(ms'[2 := Receive(ms'[2], w)], 1, 3, Some(2));
    assert m.holding[1..] == [] && ms'[2].holding + [w] == [0, 0];
    assert ms'[2 := Receive(ms'[2], w)] == a2;
  }

  lemma TurnSample3(a2: seq<Monkey>, a3: seq<Monkey>)
    requires a2 == [Monkey([], Sample()[0].rule, 1), Monkey([], Sample()[1].rule, 1), Monkey([0, 0], Sample()[2].rule, 0)]
    requires a3 == SampleReduced()
    ensures Fits(a2[2].rule, 2) && TurnSpec(a2, 2, 3, Some(2)) == Some(a3)
  {
    var m := a2[2];
    var w := Inspect(m.rule, m.holding[0], 3, Some(2));
    assert w == 0;
    var ms' := a2[2 := Monkey(m.holding[1..], m.rule, m.handled + 1)];
    var c := ms'[0 := Receive(ms'[0], w)];
    assert TurnSpec(a2, 2, 3, Some(2)) == TurnSpec(c, 2, 3, Some(2));
    assert m.holding[1..] == [0] && ms'[0].holding + [w] == [0];
    assert c == [Monkey([0], a2[0].rule, 1), Monkey([], a2[1].rule, 1), Monkey([0], a2[2].rule, 1)];
    var m' := c[2];
    var ms'' := c[2 := Monkey(m'.holding[1..], m'.rule, m'.handled + 1)];
    assert TurnSpec(c, 2, 3, Some(2)) == TurnSpec(ms''[0 := Receive(ms''[0], w)], 2, 3, Some(2));
    assert m'.holding[1..] == [] && ms''[0].holding + [w] == [0, 0];
    assert ms''[0 := Receive(ms''[0], w)] == a3;
  }

  lemma SampleRoundUnreduced()
    ensures Sane(Sample()) && Rounds(Sample(), 1, 3, None) == Some(SampleUnreduced())
  {
    SampleLcm();
    var ms := Sample();
    var r0, r1, r2 := ms[0].rule, ms[1].rule, ms[2].rule;
    var b1 := [Monkey([], r0, 1), Monkey([5], r1, 0), Monkey([0], r2, 0)];
    var b2 := [Monkey([3], r0, 1), Monkey([], r1, 1), Monkey([0], r2, 0)];
    var b3 := SampleUnreduced();
    UnreducedSample1(ms, b1);
    UnreducedSample2(b1, b2);
    UnreducedSample3(b2, b3);
    assert Turns(ms, 3, 3, None) == Some(b3);
  }

  lemma UnreducedSample1(ms: seq<Monkey>, b1: seq<Monkey>)
    requires ms == Sample()
    requires b1 == [Monkey([], ms[0].rule, 1), Monkey([5], ms[1].rule, 0), Monkey([0], ms[2].rule, 0)]
    ensures Fits(ms[0].rule, 0) && TurnSpec(ms, 0, 3, None) == Some(b1)
  {
    var m := ms[0];
    var w := Inspect(m.rule, m.holding[0], 3, None);
    assert w == 5;
    var ms' := ms[0 := Monkey(m.holding[1..], m.rule, m.handled + 1)];
    assert TurnSpec(ms, 0, 3, None) == TurnSpec(ms'[1 := Receive(ms'[1], w)], 0, 3, None);
    assert m.holding[1..] == [] && ms'[1].holding + [w] == [5];
    assert ms'[1 := Receive(ms'[1], w)] == b1;
  }

  lemma UnreducedSample2(b1: seq<Monkey>, b2: seq<Monkey>)
    requires b1 == [Monkey([], Sample()[0].rule, 1), Monkey([5], Sample()[1].rule, 0), Monkey([0], Sample()[2].rule, 0)]
    requires b2 == [Monkey([3], b1[0].rule, 1), Monkey([], b1[1].rule, 1), Monkey([0], b1[2].rule, 0)]
    ensures Fits(b1[1].rule, 1) && TurnSpec(b1, 1, 3, None) == Some(b2)
  {
    var m := b1[1];
    var w := Inspect(m.rule, m.holding[0], 3, None);
    assert w == 3;
    var ms' := b1[1 := Monkey(m.holding[1..], m.rule, m.handled + 1)];
    assert TurnSpec(b1, 1, 3, None) == TurnSpec(ms'[0 := Receive(ms'[0], w)], 1, 3, None);
    assert m.holding[1..] == [] && ms'[0].holding + [w] == [3];
    assert ms'[0 := Receive(ms'[0], w)] == b2;
  }

  lemma UnreducedSample3(b2: seq<Monkey>, b3: seq<Monkey>)
    requires b2 == [Monkey([3], Sample()[0].rule, 1), Monkey([], Sample()[1].rule, 1), Monkey([0], Sample()[2].rule, 0)]
    requires b3 == SampleUnreduced()
    ensures Fits(b2[2].rule, 2) && TurnSpec(b2, 2, 3, None) == Some(b3)
  {
    var m := b2[2];
    var w := Inspect(m.rule, m.holding[0], 3, None);
    assert w == 0;
    var ms' := b2[2 := Monkey(m.holding[1..], m.rule, m.handled + 1)];
    assert TurnSpec(b2, 2, 3, None) == TurnSpec(ms'[0 := Receive(ms'[0], w)], 2, 3, None);
    assert m.holding[1..] == [] && ms'[0].holding + [w] == [3, 0];
    assert ms'[0 := Receive(ms'[0], w)] == b3;
  }

  /** The answer, known from any descending permutation of the
      activity. */
  lemma TopTwoIs(a: seq<int>, sorted: seq<int>)
    requires |a| >= 2 && |sorted| == |a| && SortedDesc(sorted) && multiset(sorted) == multiset(a)
    ensures TopTwo(a) == Some(sorted[0] * sorted[1])
  {
    SortDescSorted(a);
    SortedDescUnique(SortDesc(a), sorted);
  }

  /** The answers the two rounds give. */
  lemma SampleAnswerReduced(a: seq<Monkey>)
    requires |a| == 3 && a[0].handled == 1 && a[1].handled == 1 && a[2].handled == 2
    ensures TopTwo(Activity(a)) == Some(2)
  {
    var act := Activity(a);
    assert act == [1, 1, 2];
    TopTwoIs(act, [2, 1, 1]);
  }

  lemma SampleAnswerUnreduced(b: seq<Monkey>)
    requires |b| == 3 && b[0].handled == 1 && b[1].handled == 1 && b[2].handled == 1
    ensures TopTwo(Activity(b)) == Some(1)
  {
    var act := Activity(b);
    assert act == [1, 1, 1];
    TopTwoIs(act, act);
  }

  /** With relief 3 the reduction changes the answer after one round:
      the first monkey's item has worry 5, reduced to 1; the second
      monkey then computes (1 + 5) / 3 = 2 and throws to the third
      monkey instead of (5 + 5) / 3 = 3, which goes back to the first.
      The third monkey handles two items instead of one. */
  lemma ReliefBreaksReduction()
    ensures Sane(Sample()) && LcmAll(Divisors(Sample())) == 2
    ensures BusinessAsWritten(Sample(), 2, 1, 3) == Some(2)
    ensures Business(Sample(), 1, 3, None) == Some(1)
  {
    SampleLcm();
    SampleRoundReduced();
    SampleRoundUnreduced();
    SampleAnswerReduced(SampleReduced());
    SampleAnswerUnreduced(SampleUnreduced());
  }
}
