/** The second version of the elves' diffusion: the positions are the keys
    of a map whose values hold, during a round, each elf's proposal, and a
    round reports whether any elf proposed to move, even to a contested
    cell. */
module UnstableDiffusionMap {
  import opened Common
  import opened UnstableDiffusion

  /** Round k (from 0) of the rounds f plays from start passes test g. */
  predicate ProposingBy(f: (set<Coord>, nat) -> set<Coord>, g: (set<Coord>, nat) -> bool, start: set<Coord>, k: nat)
  {
    g(Iterate(f, start, k), k)
  }

  /** Each of the first n rounds passes test g. */
  predicate BusyBy(f: (set<Coord>, nat) -> set<Coord>, g: (set<Coord>, nat) -> bool, start: set<Coord>, n: nat)
  {
    n == 0 || (BusyBy(f, g, start, n - 1) && ProposingBy(f, g, start, n - 1))
  }

  lemma {:induction false} BusyAll(f: (set<Coord>, nat) -> set<Coord>, g: (set<Coord>, nat) -> bool, start: set<Coord>, n: nat)
    ensures BusyBy(f, g, start, n) <==> forall k :: 0 <= k < n ==> ProposingBy(f, g, start, k)
  {
    if n > 0 {
      BusyAll(f, g, start, n - 1);
    }
  }

  /** Some elf of round k (from 0) of the diffusion proposes to move. */
  predicate Proposing(start: set<Coord>, k: nat)
  {
    ProposingBy(Advance, Astir, start, k)
  }

  /** Some elf of locs proposes to move. */
  const Astir := (locs: set<Coord>, fd: nat) => Moved(locs, fd, locs)

  /** Some elf of s proposes a cell other than its own. */
  predicate Moved(locs: set<Coord>, firstDir: nat, s: set<Coord>)
  {
    exists q :: q in s && Proposal(locs, firstDir, q) != q
  }

  lemma MovedAdd(locs: set<Coord>, firstDir: nat, s: set<Coord>, pos: Coord)
    ensures Moved(locs, firstDir, s + {pos}) <==> Moved(locs, firstDir, s) || Proposal(locs, firstDir, pos) != pos
  {
    if Moved(locs, firstDir, s + {pos}) && Proposal(locs, firstDir, pos) == pos {
      var q :| q in s + {pos} && Proposal(locs, firstDir, q) != q;
      assert q in s;
    }
  }

  /** A round in which nobody proposes to move leaves every elf where it
      is, so the round part2 of this version reports is one in which no
      elf moves. */
  lemma QuietIsStill(start: set<Coord>, k: nat)
    requires !Proposing(start, k)
    ensures Still(start, k)
  {
    var l := State(start, k);
    StillIffNoneMoves(l, k);
    StateStep(start, k, l, Next(l, k));
  }

  /** A round in which the elves' positions change is one in which some
      elf proposed to move. */
  lemma MovingIsProposing(start: set<Coord>, k: nat)
    requires !Still(start, k)
    ensures Proposing(start, k)
  {
    if !Proposing(start, k) {
      QuietIsStill(start, k);
    }
  }

  /** The elves at s, each with the placeholder proposal a round starts
      from. */
  function Blank(s: set<Coord>): (m: map<Coord, Coord>)
    ensures m.Keys == s
  {
    map c | c in s :: Coord(0, 0)
  }

  /** Every elf's entry holds its proposal. */
  ghost predicate Proposed(m: map<Coord, Coord>, firstDir: nat)
  {
    forall p :: p in m ==> m[p] == Proposal(m.Keys, firstDir, p)
  }

  /** wanted counts the proposers of each cell. */
  ghost predicate Counted(wanted: map<Coord, nat>, locs: set<Coord>, firstDir: nat)
  {
    forall p :: Wanted(wanted, p) == |Proposers(locs, firstDir, locs, p)|
  }

  /** next and anyMoved are what the second loop of a round has made of
      the elves of done. */
  ghost predicate Scanned(locs: set<Coord>, firstDir: nat, done: set<Coord>, next: map<Coord, Coord>, anyMoved: bool)
  {
    next == Blank(Image(locs, firstDir, done)) && (anyMoved <==> Moved(locs, firstDir, done))
  }

  /** Before the second loop no elf has been placed or has moved. */
  lemma ScannedNone(locs: set<Coord>, firstDir: nat)
    ensures Scanned(locs, firstDir, {}, map[], false)
  {
    assert Image(locs, firstDir, {}) == {};
  }

  /** The elves as doit1.cc keeps them: each position maps to the elf's
      latest proposal. */
  class Elves {
    var locs: map<Coord, Coord>
    var firstDir: nat

    constructor (lines: seq<string>)
      ensures locs == Blank(Grid(lines)) && firstDir == 0
    {
      var start := Positions(lines);
      locs := map c | c in start :: Coord(0, 0);
      firstDir := 0;
    }

    /** elves::propose, returning at the first occupied cell. */
    method Propose(pos: Coord, dir: Direction, next: Coord) returns (ok: bool, next': Coord)
      ensures ok <==> Clear(locs.Keys, pos, dir)
      ensures next' == if ok then Plus(pos, dir.delta) else next
    {
      for i := 0 to |dir.check|
        invariant forall j :: 0 <= j < i ==> Plus(pos, dir.check[j]) !in locs
      {
        if Plus(pos, dir.check[i]) in locs {
          return false, next;
        }
      }
      return true, Plus(pos, dir.delta);
    }

    /** The proposal of the elf at pos, as round works it out. */
    method ProposeFor(pos: Coord) returns (proposal: Coord)
      ensures proposal == Proposal(locs.Keys, firstDir, pos)
    {
      proposal := pos;
      var ok;
      ok, proposal := Propose(pos, Stay, proposal);
      if !ok {
        var i := 0;
        while i < 4
          invariant 0 <= i <= 4 && proposal == pos
          invariant FirstClear(locs.Keys, firstDir, pos, i) == FirstClear(locs.Keys, firstDir, pos, 0)
        {
          ok, proposal := Propose(pos, Directions[Turn(firstDir, i)], proposal);
          if ok {
            break;
          }
          i := i + 1;
        }
      }
    }

    /** The body of the first loop of elves::round: the elf at pos writes
        its proposal into its own entry and is counted in wanted. */
    method Tally(pos: Coord, ghost done: set<Coord>, wanted: map<Coord, nat>) returns (wanted': map<Coord, nat>)
      requires pos in locs && pos !in done
      requires forall p :: Wanted(wanted, p) == |Proposers(locs.Keys, firstDir, done, p)|
      modifies this
      ensures firstDir == old(firstDir)
      ensures locs == old(locs)[pos := Proposal(old(locs).Keys, firstDir, pos)]
      ensures forall p :: Wanted(wanted', p) == |Proposers(old(locs).Keys, firstDir, done + {pos}, p)|
    {
      var proposal := ProposeFor(pos);
      WantedGrows(locs.Keys, firstDir, done, pos, proposal, wanted, wanted[proposal := Wanted(wanted, proposal) + 1]);
      wanted' := wanted[proposal := Wanted(wanted, proposal) + 1];
      locs := locs[pos := proposal];
    }

    /** The first loop of elves::round: every entry of locs now holds its
        elf's proposal, and wanted counts the proposers of each cell. */
    method Proposals() returns (wanted: map<Coord, nat>)
      modifies this
      ensures firstDir == old(firstDir) && locs.Keys == old(locs).Keys
      ensures Proposed(locs, firstDir) && Counted(wanted, locs.Keys, firstDir)
    {
      wanted := map[];
      ghost var keys := locs.Keys;
      var todo := locs.Keys;
      ghost var done: set<Coord> := {};
      while todo != {}
        invariant todo !! done && todo + done == keys
        invariant firstDir == old(firstDir) && locs.Keys == keys
        invariant forall p :: p in done ==> locs[p] == Proposal(keys, firstDir, p)
        invariant forall p :: Wanted(wanted, p) == |Proposers(keys, firstDir, done, p)|
        decreases |todo|
      {
        var pos :| pos in todo;
        wanted := Tally(pos, done, wanted);
        todo := todo - {pos};
        done := done + {pos};
      }
    }

    /** The second loop of elves::round: the new positions, and whether
        any elf proposed a cell other than its own. */
    method Moves(wanted: map<Coord, nat>) returns (next: map<Coord, Coord>, anyMoved: bool)
      requires Proposed(locs, firstDir) && Counted(wanted, locs.Keys, firstDir)
      ensures next == Blank(Next(locs.Keys, firstDir))
      ensures anyMoved <==> Moved(locs.Keys, firstDir, locs.Keys)
    {
      next, anyMoved := map[], false;
      ghost var keys := locs.Keys;
      var todo := locs.Keys;
      ghost var done: set<Coord> := {};
      ScannedNone(keys, firstDir);
      while todo != {}
        invariant todo !! done && todo + done == keys
        invariant Scanned(keys, firstDir, done, next, anyMoved)
        decreases |todo|
      {
        var pos :| pos in todo;
        next, anyMoved := MoveOne(pos, done, wanted, next, anyMoved);
        todo := todo - {pos};
        done := done + {pos};
      }
      assert done == keys;
    }

    /** The body of the second loop of elves::round, for the elf at pos. */
    method MoveOne(pos: Coord, ghost done: set<Coord>, wanted: map<Coord, nat>, next: map<Coord, Coord>, anyMoved: bool)
      returns (next': map<Coord, Coord>, anyMoved': bool)
      requires pos in locs && Proposed(locs, firstDir) && Counted(wanted, locs.Keys, firstDir)
      requires Scanned(locs.Keys, firstDir, done, next, anyMoved)
      ensures Scanned(locs.Keys, firstDir, done + {pos}, next', anyMoved')
    {
      var proposal;
      var dest;
      proposal, dest := DestFor(pos, wanted);
      next' := next;
      if dest !in next' {
        next' := next'[dest := Coord(0, 0)];
      }
      assert next' == Blank(next.Keys + {dest});
      anyMoved' := anyMoved || pos != proposal;
      MovedAdd(locs.Keys, firstDir, done, pos);
      ImageAdd(locs.Keys, firstDir, done, pos);
    }

    /** The elf at pos reads its proposal and moves there when it is the
        only one wanting that cell. */
    method DestFor(pos: Coord, wanted: map<Coord, nat>) returns (proposal: Coord, dest: Coord)
      requires pos in locs && Proposed(locs, firstDir) && Counted(wanted, locs.Keys, firstDir)
      ensures proposal == Proposal(locs.Keys, firstDir, pos) && dest == Dest(locs.Keys, firstDir, pos)
    {
      proposal := locs[pos];
      dest := if Wanted(wanted, proposal) == 1 then proposal else pos;
    }

    /** elves::round: the positions become Next of the old ones, the
        first direction advances, and the answer says whether any elf
        proposed to move. */
    method Round() returns (anyMoved: bool)
      modifies this
      ensures locs == Blank(Next(old(locs).Keys, old(firstDir))) && firstDir == old(firstDir) + 1
      ensures |locs| == |old(locs)|
      ensures anyMoved <==> Moved(old(locs).Keys, old(firstDir), old(locs).Keys)
    {
      var wanted := Proposals();
      var next;
      next, anyMoved := Moves(wanted);
      ElfCount(locs.Keys, firstDir);
      assert |locs| == |next|;
      locs := next;
      firstDir := firstDir + 1;
    }

    /** elves::count_empty: the empty cells of the smallest rectangle
        holding every elf. */
    method CountEmpty() returns (n: nat, lo: Coord, hi: Coord)
      requires locs != map[]
      ensures Tight(locs.Keys, lo, hi) && n == |Box(lo, hi) - locs.Keys|
    {
      assert locs.Keys != {};
      lo, hi := BoundingBox(locs.Keys);
      EmptyCells(locs.Keys, lo, hi);
      n := (hi.x - lo.x + 1) * (hi.y - lo.y + 1) - |locs|;
    }
  }

  /** A round of elves that have done every round so far from start. */
  method RoundFrom(lvs: Elves, ghost start: set<Coord>) returns (moved: bool)
    requires lvs.locs.Keys == State(start, lvs.firstDir)
    modifies lvs
    ensures lvs.firstDir == old(lvs.firstDir) + 1 && lvs.locs.Keys == State(start, lvs.firstDir)
    ensures moved <==> Proposing(start, old(lvs.firstDir))
    ensures BusyBy(Advance, Astir, start, lvs.firstDir) <==> BusyBy(Advance, Astir, start, old(lvs.firstDir)) && moved
  {
    ghost var fd, before := lvs.firstDir, lvs.locs.Keys;
    moved := lvs.Round();
    StateStep(start, fd, before, lvs.locs.Keys);
  }

  /** part1 of doit1.cc: the empty cells of the bounding rectangle after
      ten rounds, the same count as the first version's. */
  method Part1(lines: seq<string>) returns (ans: nat, ghost lo: Coord, ghost hi: Coord)
    requires Grid(lines) != {}
    ensures Tight(State(Grid(lines), 10), lo, hi) && ans == |Box(lo, hi) - State(Grid(lines), 10)|
  {
    var lvs := new Elves(lines);
    ghost var start := lvs.locs.Keys;
    for k := 0 to 10
      invariant lvs.locs.Keys == State(start, lvs.firstDir) && lvs.firstDir == k
    {
      var _ := RoundFrom(lvs, start);
    }
    StateCount(start, 10);
    ans, lo, hi := lvs.CountEmpty();
  }

  /** part2 of doit1.cc: the number of the first round in which no elf
      proposes to move; no elf moves in it either. None when that is not
      among the first fuel rounds, where the source keeps going. */
  method Part2(lines: seq<string>, fuel: nat) returns (ans: Option<nat>, ghost rounds: nat)
    ensures ans.Some? ==> (ans.value == rounds + 1 <= fuel && !Proposing(Grid(lines), rounds) &&
      Still(Grid(lines), rounds) && forall k :: 0 <= k < rounds ==> Proposing(Grid(lines), k))
    ensures ans.None? ==> forall k :: 0 <= k < fuel ==> Proposing(Grid(lines), k)
  {
    var lvs := new Elves(lines);
    ghost var start := lvs.locs.Keys;
    var steps := 1;
    while steps <= fuel
      invariant 1 <= steps <= fuel + 1 && lvs.firstDir + 1 == steps
      invariant lvs.locs.Keys == State(start, lvs.firstDir) && BusyBy(Advance, Astir, start, lvs.firstDir)
    {
      rounds := lvs.firstDir;
      var moved := RoundFrom(lvs, start);
      if !moved {
        BusyAll(Advance, Astir, start, rounds);
        QuietIsStill(start, rounds);
        return Some(steps), rounds;
      }
      steps := steps + 1;
    }
    rounds := lvs.firstDir;
    BusyAll(Advance, Astir, start, rounds);
    return None, rounds;
  }
}
