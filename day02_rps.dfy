/** Rock paper scissors: each round is a line "<opponent> <column>", the
    moves are 0 (rock), 1 (paper) and 2 (scissors), and a round scores
    the points for my choice plus 6, 3 or 0 for a win, draw or loss. */
module RockPaperScissors {

  /** The letters a round may hold: 'A'..'C' and 'X'..'Z'. */
  predicate IsMoveChar(c: char)
  {
    ('X' <= c <= 'Z') || ('A' <= c <= 'C')
  }

  predicate IsMove(m: int)
  {
    0 <= m <= 2
  }

  /** to_rps: both letter groups onto 0..2, in alphabet order. */
  function ToRps(c: char): (r: int)
    requires IsMoveChar(c)
    ensures IsMove(r)
    ensures 'X' <= c <= 'Z' ==> r == c as int - 'X' as int
    ensures 'A' <= c <= 'C' ==> r == c as int - 'A' as int
  {
    if 'X' <= c <= 'Z' then c as int - 'X' as int else c as int - 'A' as int
  }

  /** Two letters name the same move exactly when they sit at the same
      place in their group. */
  lemma ToRpsSameMove(c: char, d: char)
    requires 'A' <= c <= 'C' && 'X' <= d <= 'Z'
    ensures ToRps(c) == ToRps(d) <==> c as int - 'A' as int == d as int - 'X' as int
  {
  }

  function ChoicePoints(rps: int): (p: int)
    ensures IsMove(rps) ==> 1 <= p <= 3
  {
    rps + 1
  }

  /** rps1 beats rps2: rock beats scissors, paper rock, scissors paper. */
  predicate Beats(rps1: int, rps2: int)
  {
    rps1 == (rps2 + 1) % 3
  }

  /** For two moves exactly one of "a wins", "b wins" and "draw" holds. */
  lemma Trichotomy(a: int, b: int)
    requires IsMove(a) && IsMove(b)
    ensures (if Beats(a, b) then 1 else 0) + (if Beats(b, a) then 1 else 0) + (if a == b then 1 else 0) == 1
  {
  }

  /** Neither move can beat the other both ways, whatever the integers. */
  lemma BeatsAsymmetric(a: int, b: int)
    ensures !(Beats(a, b) && Beats(b, a))
  {
  }

  /** round_points. The assert in the source is its precondition, and
      Trichotomy shows it holds for every pair of moves. */
  function RoundPoints(me: int, opponent: int): (p: int)
    requires Beats(me, opponent) || Beats(opponent, me) || me == opponent
    ensures p == 6 <==> Beats(me, opponent)
    ensures p == 0 <==> Beats(opponent, me)
    ensures p == 3 <==> me == opponent
  {
    BeatsAsymmetric(me, opponent);
    if Beats(me, opponent) then 6
    else if Beats(opponent, me) then 0
    else 3
  }

  /** The points of one round. */
  function RoundScore(me: int, opponent: int): int
    requires IsMove(me) && IsMove(opponent)
  {
    Trichotomy(me, opponent);
    ChoicePoints(me) + RoundPoints(me, opponent)
  }

  lemma RoundScoreRange(me: int, opponent: int)
    requires IsMove(me) && IsMove(opponent)
    ensures 1 <= RoundScore(me, opponent) <= 9
  {
  }

  /** The two strategies handed to score: part1 plays the second column
      as a move, part2 reads it as the outcome to aim for. */
  datatype Strategy = AsMove | AsOutcome

  function Play(strategy: Strategy, column: int, opponent: int): (me: int)
    requires IsMove(column) && IsMove(opponent)
    ensures IsMove(me)
    ensures strategy == AsMove ==> me == column
    ensures strategy == AsOutcome ==>
      (column == 0 && Beats(opponent, me)) ||
      (column == 2 && Beats(me, opponent)) ||
      (column == 1 && me == opponent)
  {
    match strategy
    case AsMove => column
    case AsOutcome => (opponent + 2 + column) % 3
  }

  /** With the part2 strategy the round earns three times the goal. */
  lemma OutcomeRoundPoints(goal: int, opponent: int)
    requires IsMove(goal) && IsMove(opponent)
    ensures RoundPoints(Play(AsOutcome, goal, opponent), opponent) == 3 * goal
  {
  }

  /** A round line as score asserts it: "<letter> <letter>". */
  predicate IsRound(line: string)
  {
    |line| == 3 && line[1] == ' ' && IsMoveChar(line[0]) && IsMoveChar(line[2])
  }

  /** The score of one round line under a strategy. */
  function LineScore(strategy: Strategy, line: string): int
    requires IsRound(line)
  {
    var opponent := ToRps(line[0]);
    RoundScore(Play(strategy, ToRps(line[2]), opponent), opponent)
  }

  /** The total over the lines. */
  function TotalScore(strategy: Strategy, lines: seq<string>): int
    requires forall i :: 0 <= i < |lines| ==> IsRound(lines[i])
  {
    if lines == [] then 0
    else TotalScore(strategy, lines[..|lines| - 1]) + LineScore(strategy, lines[|lines| - 1])
  }

  /** Every round scores between 1 and 9. */
  lemma {:induction false} TotalScoreBounds(strategy: Strategy, lines: seq<string>)
    requires forall i :: 0 <= i < |lines| ==> IsRound(lines[i])
    ensures |lines| <= TotalScore(strategy, lines) <= 9 * |lines|
    decreases |lines|
  {
    if lines != [] {
      var line := lines[|lines| - 1];
      TotalScoreBounds(strategy, lines[..|lines| - 1]);
      var opponent := ToRps(line[0]);
      RoundScoreRange(Play(strategy, ToRps(line[2]), opponent), opponent);
    }
  }

  /** score: the loop over the lines accumulating my_score. */
  method Score(strategy: Strategy, lines: seq<string>) returns (myScore: int)
    requires forall i :: 0 <= i < |lines| ==> IsRound(lines[i])
    ensures myScore == TotalScore(strategy, lines)
    ensures |lines| <= myScore <= 9 * |lines|
  {
    myScore := 0;
    for i := 0 to |lines|
      invariant myScore == TotalScore(strategy, lines[..i])
    {
      var line := lines[i];
      assert lines[..i + 1][..i] == lines[..i];
      var opponent := ToRps(line[0]);
      var me := Play(strategy, ToRps(line[2]), opponent);
      Trichotomy(me, opponent);
      myScore := myScore + ChoicePoints(me) + RoundPoints(me, opponent);
    }
    assert lines[..|lines|] == lines;
    TotalScoreBounds(strategy, lines);
  }
}
