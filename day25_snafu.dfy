/** SNAFU numbers: balanced base 5 with digits '=' (-2), '-' (-1), '0',
    '1' and '2', most significant first. */
module Snafu {
  import opened Common
  import opened Ordering

  /** The value to_decimal gives a character: '-' and '=' are -1 and -2,
      and any other character counts as its distance from '0'. */
  function Digit(c: char): int
  {
    if c == '-' then -1 else if c == '=' then -2 else c as int - '0' as int
  }

  /** The value of a SNAFU string: each digit weighted by the power of 5
      of its place counted from the right. */
  function Value(s: string): int
  {
    if s == [] then 0 else Value(s[..|s| - 1]) * 5 + Digit(s[|s| - 1])
  }

  /** The leading digit carries the highest power of 5. */
  lemma {:induction false} ValueCons(c: char, t: string)
    ensures Value([c] + t) == Digit(c) * Pow(5, |t|) + Value(t)
    decreases |t|
  {
    if t == [] {
      assert [c] + t == [c] && [c][..0] == [];
    } else {
      var u := t[..|t| - 1];
      var x := t[|t| - 1];
      assert ([c] + t)[..|t|] == [c] + u;
      ValueCons(c, u);
      calc {
        Value([c] + t);
        Value([c] + u) * 5 + Digit(x);
        (Digit(c) * Pow(5, |u|) + Value(u)) * 5 + Digit(x);
        Digit(c) * (Pow(5, |u|) * 5) + (Value(u) * 5 + Digit(x));
        Digit(c) * Pow(5, |t|) + Value(t);
      }
    }
  }

  /** to_decimal: the loop from the last character to the first, adding
      d * pow5 with pow5 growing by a factor 5. */
  method ToDecimal(snafu: string) returns (result: int)
    ensures result == Value(snafu)
  {
    result := 0;
    var pow5 := 1;
    var n := |snafu|;
    for k := 0 to n
      invariant result == Value(snafu[n - k..])
      invariant pow5 == Pow(5, k)
    {
      var c := snafu[n - 1 - k];
      var d := c as int - '0' as int;
      if c == '-' {
        d := -1;
      } else if c == '=' {
        d := -2;
      }
      assert snafu[n - 1 - k..] == [c] + snafu[n - k..];
      ValueCons(c, snafu[n - k..]);
      result := result + d * pow5;
      pow5 := pow5 * 5;
    }
    assert snafu[0..] == snafu;
  }

  /** The character to_snafu writes for a remainder d: '=' for 3, '-' for
      4, and otherwise the character d places after '0'. */
  function DigitChar(d: int): char
    requires -4 <= d <= 4
  {
    if d == 3 then '=' else if d == 4 then '-' else ('0' as int + d) as char
  }

  /** One step of to_snafu: the remainder, its carry, and what is left. */
  function Rem5(n: int): (d: int)
    ensures -4 <= d <= 4
  {
    CRem(n, 5)
  }

  function Carry(n: int): int
  {
    if Rem5(n) > 2 then 1 else 0
  }

  function Next(n: int): (m: int)
    ensures n != 0 && m != 0 ==> Abs(m) < Abs(n)
  {
    CDiv(n, 5) + Carry(n)
  }

  /** The string to_snafu returns: the digits pushed from the least
      significant one, read backwards. */
  function ToSnafu(n: int): (s: string)
    ensures |s| >= 1
    decreases Abs(n)
  {
    var rest := if n == 0 || Next(n) == 0 then [] else ToSnafu(Next(n));
    rest + [DigitChar(Rem5(n))]
  }

  /** Pushing the last digit of what is left onto the reversed output. */
  lemma PushStep(whole: string, left: string, rest: string, pushed: string, ch: char)
    requires whole == left + Reverse(pushed)
    requires left == rest + [ch]
    ensures whole == rest + Reverse(pushed + [ch])
  {
    ReverseSnoc(pushed, ch);
  }

  /** The do-while of to_snafu followed by the in-place reverse. */
  method ToSnafuLoop(n: int) returns (result: string)
    ensures result == ToSnafu(n)
  {
    var pushed: string := [];
    var m := n;
    while true
      invariant ToSnafu(n) == ToSnafu(m) + Reverse(pushed)
      decreases Abs(m)
    {
      var d := CRem(m, 5);
      var carry := if d > 2 then 1 else 0;
      var ch := DigitChar(d);
      var next := CDiv(m, 5) + carry;
      assert ToSnafu(m) == (if m == 0 || next == 0 then [] else ToSnafu(next)) + [ch] by {
        assert d == Rem5(m) && next == Next(m);
      }
      PushStep(ToSnafu(n), ToSnafu(m), if m == 0 || next == 0 then [] else ToSnafu(next), pushed, ch);
      pushed := pushed + [ch];
      if next == 0 {
        result := Reverse(pushed);
        return;
      }
      m := next;
    }
  }

  /** Zero is written "0". */
  lemma ToSnafuZero()
    ensures ToSnafu(0) == "0"
  {
  }

  predicate IsSnafuChar(c: char)
  {
    c == '=' || c == '-' || c == '0' || c == '1' || c == '2'
  }

  /** For n >= 0 only the five SNAFU characters appear. */
  lemma {:induction false} ToSnafuChars(n: int)
    requires n >= 0
    ensures forall i :: 0 <= i < |ToSnafu(n)| ==> IsSnafuChar(ToSnafu(n)[i])
    decreases n
  {
    if n != 0 && Next(n) != 0 {
      ToSnafuChars(Next(n));
    }
  }

  /** For n > 0 the leading digit is '1' or '2': no leading zeros. */
  lemma {:induction false} ToSnafuLeading(n: int)
    requires n > 0
    ensures ToSnafu(n)[0] == '1' || ToSnafu(n)[0] == '2'
    decreases n
  {
    if Next(n) != 0 {
      ToSnafuLeading(Next(n));
    }
  }

  /** For n >= 0, to_decimal reads back what to_snafu writes. */
  lemma {:induction false} RoundTrip(n: int)
    requires n >= 0
    ensures Value(ToSnafu(n)) == n
    decreases n
  {
    var s := ToSnafu(n);
    var d := Rem5(n);
    var next := Next(n);
    var rest := if n == 0 || next == 0 then [] else ToSnafu(next);
    assert s[..|s| - 1] == rest;
    assert Digit(DigitChar(d)) == d - 5 * Carry(n);
    if n != 0 && next != 0 {
      RoundTrip(next);
    }
    assert Value(rest) == next;
  }

  /** part1: the sum of the decimal values of the lines, written back in
      SNAFU. */
  method Part1(lines: seq<string>) returns (answer: string)
    ensures answer == ToSnafu(Total(lines))
    ensures Total(lines) >= 0 ==> Value(answer) == Total(lines)
  {
    var sum := 0;
    for i := 0 to |lines|
      invariant sum == Total(lines[..i])
    {
      assert lines[..i + 1][..i] == lines[..i];
      var v := ToDecimal(lines[i]);
      sum := sum + v;
    }
    assert lines[..|lines|] == lines;
    answer := ToSnafuLoop(sum);
    if sum >= 0 {
      RoundTrip(sum);
    }
  }

  function Total(lines: seq<string>): int
  {
    if lines == [] then 0 else Total(lines[..|lines| - 1]) + Value(lines[|lines| - 1])
  }
}
