/** The valve-opening optimiser: valve records, the breadth-first hop
    counts from every valve, the enumeration of every time-bounded
    opening order, and the best single path or best pair of disjoint
    paths. */
module Valves {
  import opened Common

  /** A valve record and the hop counts computed for it. */
  datatype Valve = Valve(name: string, flowRate: int, tunnels: seq<string>, shortest: map<string, int>)

  /** A search state: where the agent is, the minutes left, the valves
      openValves so far and the pressure they will release in total. */
  datatype Path = Path(loc: string, minRemaining: int, openValves: set<string>, total: int)

  const Start: string := "AA"

  // ---------------------------------------------------------------------
  // Parsing one record, given as its whitespace-separated words

  /** Word i, or "" when the record is shorter (a failed >> leaves "") */
  function WordAt(words: seq<string>, i: nat): string
  {
    if i < |words| then words[i] else ""
  }

  /** The text after the first '='; the whole text when there is none,
      since find() gives npos and npos + 1 wraps to 0. */
  function AfterEquals(s: string): (r: string)
    ensures '=' !in s ==> r == s
    ensures '=' in s ==> exists k :: 0 <= k < |s| && s[k] == '=' && '=' !in s[..k] && r == s[k + 1..]
  {
    var k := IndexOf(s, '=');
    s[k + 1..]
  }

  /** A tunnel word loses one trailing comma. */
  function StripComma(w: string): (r: string)
    ensures w != [] && w[|w| - 1] == ',' ==> r + [','] == w
    ensures (w == [] || w[|w| - 1] != ',') ==> r == w
  {
    if w != [] && w[|w| - 1] == ',' then w[..|w| - 1] else w
  }

  /** The valve a record describes. */
  function ValveOf(words: seq<string>): Valve
  {
    Valve(WordAt(words, 1), Atoi(AfterEquals(WordAt(words, 4))),
          seq(if |words| > 9 then |words| - 9 else 0, i requires 0 <= i < |words| - 9 => StripComma(words[9 + i])),
          map[])
  }

  /** The record constructor: fixed words, then every remaining word is
      a tunnel. */
  method ParseValve(words: seq<string>) returns (v: Valve)
    ensures v == ValveOf(words)
  {
    var name := WordAt(words, 1);
    var rate := WordAt(words, 4);
    var flowRate := Atoi(AfterEquals(rate));
    var tunnels: seq<string> := [];
    var i := 9;
    while i < |words|
      invariant 9 <= i && (i > 9 ==> i <= |words|)
      invariant |tunnels| == i - 9
      invariant forall k :: 0 <= k < |tunnels| ==> tunnels[k] == StripComma(words[9 + k])
    {
      tunnels := tunnels + [StripComma(words[i])];
      i := i + 1;
    }
    SameTunnels(words, tunnels);
    v := Valve(name, flowRate, tunnels, map[]);
  }

  /** The tunnel words read one by one are the record's tunnels. */
  lemma SameTunnels(words: seq<string>, tunnels: seq<string>)
    requires |tunnels| == if |words| > 9 then |words| - 9 else 0
    requires forall k :: 0 <= k < |tunnels| ==> tunnels[k] == StripComma(words[9 + k])
    ensures tunnels == ValveOf(words).tunnels
  {
  }

  /** The words of a record with the given rate field. */
  function RecordWords(name: string, rateField: string, tunnels: seq<string>): seq<string>
  {
    ["Valve", name, "has", "flow", rateField, "tunnels", "lead", "to", "valves"] + TunnelWords(tunnels)
  }

  /** The rate field of a well-formed record. */
  function RateField(rate: nat): string
  {
    "rate=" + Decimal(rate) + ";"
  }

  /** The tunnel names, each but the last followed by a comma. */
  function TunnelWords(tunnels: seq<string>): (ws: seq<string>)
    ensures |ws| == |tunnels|
  {
    seq(|tunnels|, i requires 0 <= i < |tunnels| => if i + 1 < |tunnels| then tunnels[i] + "," else tunnels[i])
  }

  /** Parsing a well-formed record gives back its name, rate and tunnels. */
  lemma ParseRecord(name: string, rate: nat, tunnels: seq<string>)
    requires forall i :: 0 <= i < |tunnels| ==> tunnels[i] != [] && tunnels[i][|tunnels[i]| - 1] != ','
    ensures ValveOf(RecordWords(name, RateField(rate), tunnels)) == Valve(name, rate, tunnels, map[])
  {
    ParseRate(rate);
    ParseFields(name, RateField(rate), tunnels);
  }

  /** The name, the rate field and the tunnels are read from their places. */
  lemma ParseFields(name: string, rateField: string, tunnels: seq<string>)
    requires forall i :: 0 <= i < |tunnels| ==> tunnels[i] != [] && tunnels[i][|tunnels[i]| - 1] != ','
    ensures ValveOf(RecordWords(name, rateField, tunnels)) == Valve(name, Atoi(AfterEquals(rateField)), tunnels, map[])
  {
    var words := RecordWords(name, rateField, tunnels);
    assert WordAt(words, 1) == name && WordAt(words, 4) == rateField;
    ParseTunnels(tunnels);
    var v := ValveOf(words);
    assert |v.tunnels| == |tunnels|;
    forall i | 0 <= i < |tunnels|
      ensures v.tunnels[i] == tunnels[i]
    {
      assert words[9 + i] == TunnelWords(tunnels)[i];
    }
    assert v.tunnels == tunnels;
  }

  /** Each tunnel word loses exactly the comma that was added. */
  lemma ParseTunnels(tunnels: seq<string>)
    requires forall i :: 0 <= i < |tunnels| ==> tunnels[i] != [] && tunnels[i][|tunnels[i]| - 1] != ','
    ensures forall i :: 0 <= i < |tunnels| ==> StripComma(TunnelWords(tunnels)[i]) == tunnels[i]
  {
    forall i | 0 <= i < |tunnels|
      ensures StripComma(TunnelWords(tunnels)[i]) == tunnels[i]
    {
      var w := TunnelWords(tunnels)[i];
      if i + 1 < |tunnels| {
        assert w == tunnels[i] + "," && w[..|w| - 1] == tunnels[i];
      }
    }
  }

  /** The rate field reads back as the rate. */
  lemma ParseRate(rate: nat)
    ensures Atoi(AfterEquals(RateField(rate))) == rate
  {
    var field := RateField(rate);
    assert field[4] == '=' && '=' !in field[..4];
    assert IndexOf(field, '=') == 4;
    assert AfterEquals(field) == Decimal(rate) + ";";
    AtoiDecimal(rate, ";");
  }


  // ---------------------------------------------------------------------
  // The tunnel graph and breadth-first hop counts

  /** The tunnels of every valve. */
  function Topology(valves: map<string, Valve>): (adj: map<string, seq<string>>)
    ensures adj.Keys == valves.Keys
    ensures forall n :: n in valves ==> adj[n] == valves[n].tunnels
  {
    map n | n in valves :: valves[n].tunnels
  }

  /** Storing hop counts leaves the tunnels as they were. */
  lemma TopologyKeepsTunnels(valves: map<string, Valve>, name: string, shortest: map<string, int>)
    requires name in valves
    ensures Topology(valves[name := valves[name].(shortest := shortest)]) == Topology(valves)
  {
  }

  /** Every tunnel leads to a known valve. */
  ghost predicate Closed(adj: map<string, seq<string>>)
  {
    forall n, t :: n in adj && t in adj[n] ==> t in adj
  }

  /** The valves within k hops of src. */
  ghost function Ball(adj: map<string, seq<string>>, src: string, k: nat): set<string>
  {
    if k == 0 then {src}
    else
      var prev := Ball(adj, src, k - 1);
      prev + set m, t | m in prev && m in adj && t in adj[m] :: t
  }

  ghost predicate Reachable(adj: map<string, seq<string>>, src: string, v: string)
  {
    exists k: nat :: v in Ball(adj, src, k)
  }

  /** d is the least number of hops from src to v. */
  ghost predicate IsHopCount(adj: map<string, seq<string>>, src: string, v: string, d: int)
  {
    d >= 0 && v in Ball(adj, src, d) && (d > 0 ==> v !in Ball(adj, src, d - 1))
  }

  /** dist holds one entry per reachable valve, its hop count. */
  ghost predicate IsHopMap(adj: map<string, seq<string>>, src: string, dist: map<string, int>)
  {
    && (forall v :: v in dist <==> Reachable(adj, src, v))
    && (forall v :: v in dist ==> IsHopCount(adj, src, v, dist[v]))
  }

  lemma {:induction false} BallMonotone(adj: map<string, seq<string>>, src: string, j: nat, k: nat)
    requires j <= k
    ensures Ball(adj, src, j) <= Ball(adj, src, k)
    decreases k
  {
    if j < k {
      BallMonotone(adj, src, j, k - 1);
    }
  }

  lemma {:induction false} BallsInClosedSet(adj: map<string, seq<string>>, src: string, s: set<string>, k: nat)
    requires src in s
    requires forall m, t :: m in s && m in adj && t in adj[m] ==> t in s
    ensures Ball(adj, src, k) <= s
    decreases k
  {
    if k > 0 {
      BallsInClosedSet(adj, src, s, k - 1);
    }
  }

  lemma {:induction false} BallInGraph(adj: map<string, seq<string>>, src: string, k: nat)
    requires Closed(adj) && src in adj
    ensures Ball(adj, src, k) <= adj.Keys
    decreases k
  {
    if k > 0 {
      BallInGraph(adj, src, k - 1);
    }
  }

  /** Hop counts are unique. */
  lemma HopCountUnique(adj: map<string, seq<string>>, src: string, v: string, d1: int, d2: int)
    requires IsHopCount(adj, src, v, d1) && IsHopCount(adj, src, v, d2)
    ensures d1 == d2
  {
    if d1 < d2 {
      BallMonotone(adj, src, d1, d2 - 1);
    } else if d2 < d1 {
      BallMonotone(adj, src, d2, d1 - 1);
    }
  }

  /** A valve at h hops is outside every smaller ball. */
  lemma HopCountAbove(adj: map<string, seq<string>>, src: string, v: string, h: int, d: nat)
    requires IsHopCount(adj, src, v, h) && d < h
    ensures v !in Ball(adj, src, d)
  {
    BallMonotone(adj, src, d, h - 1);
  }

  /** Hop counts obey the triangle inequality. */
  lemma {:induction false} BallCompose(adj: map<string, seq<string>>, a: string, b: string, j: nat, k: nat)
    requires b in Ball(adj, a, j)
    ensures Ball(adj, b, k) <= Ball(adj, a, j + k)
    decreases k
  {
    if k > 0 {
      BallCompose(adj, a, b, j, k - 1);
    }
  }

  lemma BallTriangle(adj: map<string, seq<string>>, a: string, b: string, c: string, j: nat, k: nat, d: nat)
    requires b in Ball(adj, a, j) && c in Ball(adj, b, k) && j + k <= d
    ensures c in Ball(adj, a, d)
  {
    BallCompose(adj, a, b, j, k);
    BallMonotone(adj, a, j + k, d);
  }

  lemma HopCountTriangle(adj: map<string, seq<string>>, a: string, b: string, c: string, dab: int, dbc: int, dac: int)
    requires IsHopCount(adj, a, b, dab) && IsHopCount(adj, b, c, dbc) && IsHopCount(adj, a, c, dac)
    ensures dac <= dab + dbc
  {
    if dac > dab + dbc {
      BallTriangle(adj, a, b, c, dab, dbc, dac - 1);
    }
  }




  /** Every valve of shortest sits at its hop count. */
  ghost predicate Exact(adj: map<string, seq<string>>, src: string, shortest: map<string, int>)
  {
    forall v :: v in shortest ==> IsHopCount(adj, src, v, shortest[v])
  }

  /** The frontier list of a search at level lo: each entry is recorded
      in shortest, the steps are sorted and lie in lo .. lo + 1. */
  ghost predicate Queued(frontier: seq<(string, int)>, shortest: map<string, int>, lo: int)
  {
    && (forall i :: 0 <= i < |frontier| ==>
          frontier[i].0 in shortest && shortest[frontier[i].0] == frontier[i].1 && lo <= frontier[i].1 <= lo + 1)
    && (forall i, j :: 0 <= i < j < |frontier| ==> frontier[i].1 <= frontier[j].1)
  }

  ghost predicate Queues(frontier: seq<(string, int)>, v: string)
  {
    exists i :: 0 <= i < |frontier| && frontier[i].0 == v
  }

  /** The state of the search between two pops, at level lo: every
      recorded valve sits at its hop count, everything within lo hops is
      recorded, and a recorded valve is either still queued or has had
      all its tunnels recorded. */
  ghost predicate Searching(adj: map<string, seq<string>>, src: string, shortest: map<string, int>,
                            frontier: seq<(string, int)>, processed: set<string>, lo: nat)
  {
    && shortest.Keys <= adj.Keys && src in shortest && shortest[src] == 0
    && Exact(adj, src, shortest) && Queued(frontier, shortest, lo)
    && (frontier != [] ==> frontier[0].1 == lo)
    && (forall v :: v in shortest ==> v in processed || Queues(frontier, v))
    && (forall v, t :: v in processed && v in adj && t in adj[v] ==> t in shortest)
    && Ball(adj, src, lo) <= shortest.Keys
  }

  /** The visit lambda: a valve not yet seen is recorded with its step
      count and queued; one already seen is left alone. */
  method Visit(next: string, steps: int, shortest: map<string, int>, frontier: seq<(string, int)>)
    returns (shortest': map<string, int>, frontier': seq<(string, int)>)
    ensures shortest'.Keys == shortest.Keys + {next}
    ensures forall v :: v in shortest ==> shortest'[v] == shortest[v]
    ensures next in shortest ==> frontier' == frontier
    ensures next !in shortest ==> shortest'[next] == steps && frontier' == frontier + [(next, steps)]
  {
    if next in shortest {
      return shortest, frontier;
    }
    shortest' := shortest[next := steps];
    frontier' := frontier + [(next, steps)];
  }

  /** The valves a step of the search adds, all at the same count. */
  ghost predicate Added(shortest: map<string, int>, shortest': map<string, int>, frontier: seq<(string, int)>,
                        frontier': seq<(string, int)>, steps: int)
  {
    && shortest.Keys <= shortest'.Keys
    && (forall v :: v in shortest ==> shortest'[v] == shortest[v])
    && (forall v :: v in shortest' && v !in shortest ==> shortest'[v] == steps && Queues(frontier', v))
    && |frontier| <= |frontier'| && frontier'[..|frontier|] == frontier
    && (forall i :: |frontier| <= i < |frontier'| ==> frontier'[i].1 == steps && frontier'[i].0 in shortest' && frontier'[i].0 !in shortest)
  }

  /** The loop over the tunnels of the valve just popped: each tunnel not
      yet seen is recorded at steps and queued, in tunnel order. */
  method VisitTunnels(tunnels: seq<string>, steps: int, shortest: map<string, int>, frontier: seq<(string, int)>)
    returns (shortest': map<string, int>, frontier': seq<(string, int)>)
    ensures shortest'.Keys == shortest.Keys + Elems(tunnels)
    ensures Added(shortest, shortest', frontier, frontier', steps)
  {
    shortest', frontier' := shortest, frontier;
    for j := 0 to |tunnels|
      invariant shortest'.Keys == shortest.Keys + Elems(tunnels[..j])
      invariant Added(shortest, shortest', frontier, frontier', steps)
    {
      ghost var (s0, f0) := (shortest', frontier');
      shortest', frontier' := Visit(tunnels[j], steps, shortest', frontier');
      assert tunnels[..j + 1] == tunnels[..j] + [tunnels[j]];
      ElemsAppend(tunnels[..j], [tunnels[j]]);
      AddedStep(shortest, s0, shortest', frontier, f0, frontier', steps, tunnels[j]);
    }
    assert tunnels[..|tunnels|] == tunnels;
  }

  /** One more visit extends what a step of the search has added. */
  lemma AddedStep(shortest: map<string, int>, s0: map<string, int>, s1: map<string, int>,
                  frontier: seq<(string, int)>, f0: seq<(string, int)>, f1: seq<(string, int)>, steps: int, next: string)
    requires Added(shortest, s0, frontier, f0, steps)
    requires s1.Keys == s0.Keys + {next} && (forall v :: v in s0 ==> s1[v] == s0[v])
    requires next in s0 ==> f1 == f0
    requires next !in s0 ==> s1[next] == steps && f1 == f0 + [(next, steps)]
    ensures Added(shortest, s1, frontier, f1, steps)
  {
    if next !in s0 {
      assert f1[|f0|].0 == next;
      forall v | v in s1 && v !in shortest
        ensures Queues(f1, v)
      {
        if v != next {
          var i :| 0 <= i < |f0| && f0[i].0 == v;
          assert f1[i].0 == v;
        }
      }
      assert f1[..|frontier|] == f0[..|frontier|];
    }
  }

  /** The valves first seen from loc, at level lo, sit at hop count
      lo + 1. */
  lemma AddedExact(adj: map<string, seq<string>>, src: string, loc: string, lo: nat,
                   shortest: map<string, int>, shortest': map<string, int>, frontier: seq<(string, int)>,
                   frontier': seq<(string, int)>)
    requires loc in adj && loc in shortest && shortest[loc] == lo
    requires Exact(adj, src, shortest) && Ball(adj, src, lo) <= shortest.Keys
    requires shortest'.Keys == shortest.Keys + Elems(adj[loc])
    requires Added(shortest, shortest', frontier, frontier', lo + 1)
    ensures Exact(adj, src, shortest')
  {
    forall v | v in shortest'
      ensures IsHopCount(adj, src, v, shortest'[v])
    {
      if v in shortest {
        assert shortest'[v] == shortest[v];
      } else {
        assert shortest'[v] == lo + 1 && v in adj[loc];
        NeighbourInNextBall(adj, src, loc, v, lo);
      }
    }
  }

  /** Appending entries at lo + 1 to a queue of level lo keeps it one. */
  lemma AddedQueued(shortest: map<string, int>, shortest': map<string, int>, frontier: seq<(string, int)>,
                    rest: seq<(string, int)>, frontier': seq<(string, int)>, lo: int)
    requires frontier != [] && rest == frontier[1..] && Queued(frontier, shortest, lo)
    requires Added(shortest, shortest', rest, frontier', lo + 1)
    ensures Queued(frontier', shortest', lo)
  {
    forall i | 0 <= i < |frontier'|
      ensures frontier'[i].0 in shortest' && shortest'[frontier'[i].0] == frontier'[i].1 && lo <= frontier'[i].1 <= lo + 1
    {
      if i < |rest| {
        assert frontier'[i] == rest[i] == frontier[i + 1];
      }
    }
    forall i, j | 0 <= i < j < |frontier'|
      ensures frontier'[i].1 <= frontier'[j].1
    {
      if j < |rest| {
        assert frontier'[i] == frontier[i + 1] && frontier'[j] == frontier[j + 1];
      } else if i < |rest| {
        assert frontier'[i] == frontier[i + 1];
      }
    }
  }

  /** A recorded valve is still queued or has been expanded. */
  lemma AddedCovered(shortest: map<string, int>, shortest': map<string, int>, frontier: seq<(string, int)>,
                     rest: seq<(string, int)>, frontier': seq<(string, int)>, processed: set<string>, steps: int)
    requires frontier != [] && rest == frontier[1..]
    requires forall v :: v in shortest ==> v in processed || Queues(frontier, v)
    requires Added(shortest, shortest', rest, frontier', steps)
    ensures forall v :: v in shortest' ==> v in processed + {frontier[0].0} || Queues(frontier', v)
  {
    forall v | v in shortest'
      ensures v in processed + {frontier[0].0} || Queues(frontier', v)
    {
      if v in shortest && v !in processed && v != frontier[0].0 {
        var i :| 0 <= i < |frontier| && frontier[i].0 == v;
        assert frontier'[i - 1] == rest[i - 1] == frontier[i];
      }
    }
  }

  lemma AddedEntryIsNew(shortest: map<string, int>, shortest': map<string, int>, frontier: seq<(string, int)>,
                        frontier': seq<(string, int)>, steps: int, i: int)
    requires Added(shortest, shortest', frontier, frontier', steps) && |frontier| <= i < |frontier'|
    ensures frontier'[i].0 in shortest'.Keys - shortest.Keys
  {
  }

  /** A step that records nothing new only shortens the queue. */
  lemma AddedNothing(shortest: map<string, int>, shortest': map<string, int>, frontier: seq<(string, int)>,
                     frontier': seq<(string, int)>, steps: int)
    requires Added(shortest, shortest', frontier, frontier', steps) && shortest'.Keys == shortest.Keys
    ensures frontier' == frontier
  {
    if |frontier'| > |frontier| {
      AddedEntryIsNew(shortest, shortest', frontier, frontier', steps, |frontier|);
      assert false;
    }
    assert frontier' == frontier'[..|frontier|];
  }

  /** Popping the front valve and visiting its tunnels keeps the search
      state, at the same level or the next one. */
  lemma AfterVisit(adj: map<string, seq<string>>, src: string, shortest: map<string, int>,
                   frontier: seq<(string, int)>, processed: set<string>, lo: nat,
                   shortest': map<string, int>, frontier': seq<(string, int)>)
    requires Closed(adj) && frontier != []
    requires Searching(adj, src, shortest, frontier, processed, lo)
    requires frontier[0].0 in adj && shortest'.Keys == shortest.Keys + Elems(adj[frontier[0].0])
    requires Added(shortest, shortest', frontier[1..], frontier', lo + 1)
    ensures frontier' != [] && frontier'[0].1 == lo + 1 ==> Searching(adj, src, shortest', frontier', processed + {frontier[0].0}, lo + 1)
    ensures !(frontier' != [] && frontier'[0].1 == lo + 1) ==> Searching(adj, src, shortest', frontier', processed + {frontier[0].0}, lo)
  {
    var loc := frontier[0].0;
    var processed' := processed + {loc};
    AddedExact(adj, src, loc, lo, shortest, shortest', frontier[1..], frontier');
    AddedQueued(shortest, shortest', frontier, frontier[1..], frontier', lo);
    AddedCovered(shortest, shortest', frontier, frontier[1..], frontier', processed, lo + 1);
    if frontier' != [] && frontier'[0].1 == lo + 1 {
      QueuedNextLevel(frontier', shortest', lo);
      NextLevelVisited(adj, src, processed', frontier', shortest', lo);
    }
  }

  lemma NeighbourInNextBall(adj: map<string, seq<string>>, src: string, loc: string, next: string, steps: nat)
    requires loc in Ball(adj, src, steps) && loc in adj && next in adj[loc]
    ensures next in Ball(adj, src, steps + 1)
  {
  }

  /** A queue of level lo whose front is at lo + 1 is a queue of level
      lo + 1. */
  lemma QueuedNextLevel(frontier: seq<(string, int)>, shortest: map<string, int>, lo: int)
    requires Queued(frontier, shortest, lo) && frontier != [] && frontier[0].1 == lo + 1
    ensures Queued(frontier, shortest, lo + 1)
  {
    forall i | 0 <= i < |frontier|
      ensures lo + 1 <= frontier[i].1
    {
      if i > 0 {
        assert frontier[0].1 <= frontier[i].1;
      }
    }
  }

  /** When the queue moves on to level d + 1, every valve within d + 1
      hops has been seen. */
  lemma NextLevelVisited(adj: map<string, seq<string>>, src: string, processed: set<string>,
                         frontier: seq<(string, int)>, shortest: map<string, int>, d: nat)
    requires Queued(frontier, shortest, d + 1)
    requires forall v :: v in shortest ==> v in processed || Queues(frontier, v)
    requires Exact(adj, src, shortest)
    requires forall v, t :: v in processed && v in adj && t in adj[v] ==> t in shortest
    requires Ball(adj, src, d) <= shortest.Keys
    ensures Ball(adj, src, d + 1) <= shortest.Keys
  {
    var prev := Ball(adj, src, d);
    forall m | m in prev
      ensures m in processed
    {
      if m !in processed {
        var i :| 0 <= i < |frontier| && frontier[i].0 == m;
        HopCountAbove(adj, src, m, shortest[m], d);
      }
    }
  }

  /** An exhausted search has recorded every reachable valve. */
  lemma SearchDone(adj: map<string, seq<string>>, src: string, shortest: map<string, int>,
                   processed: set<string>, lo: nat)
    requires Searching(adj, src, shortest, [], processed, lo)
    ensures IsHopMap(adj, src, shortest)
  {
    forall k: nat
      ensures Ball(adj, src, k) <= shortest.Keys
    {
      BallsInClosedSet(adj, src, shortest.Keys, k);
    }
  }

  /** One turn of the search loop: pop the front valve and visit its
      tunnels. The search state is kept, and either a new valve is
      recorded or the queue gets shorter. */
  method SearchStep(ghost adj: map<string, seq<string>>, ghost src: string, tunnelsOf: map<string, seq<string>>,
                    shortest: map<string, int>, frontier: seq<(string, int)>,
                    ghost processed: set<string>, ghost lo: nat)
    returns (shortest': map<string, int>, frontier': seq<(string, int)>, ghost processed': set<string>, ghost lo': nat)
    requires tunnelsOf == adj && Closed(adj) && frontier != []
    requires Searching(adj, src, shortest, frontier, processed, lo)
    ensures Searching(adj, src, shortest', frontier', processed', lo')
    ensures shortest.Keys < shortest'.Keys || (shortest'.Keys == shortest.Keys && |frontier'| < |frontier|)
  {
    var (loc, steps) := frontier[0];
    shortest', frontier' := VisitTunnels(tunnelsOf[loc], steps + 1, shortest, frontier[1..]);
    AfterVisit(adj, src, shortest, frontier, processed, lo, shortest', frontier');
    if shortest'.Keys == shortest.Keys {
      AddedNothing(shortest, shortest', frontier[1..], frontier', steps + 1);
    }
    processed' := processed + {loc};
    lo' := if frontier' != [] && frontier'[0].1 == lo + 1 then lo + 1 else lo;
  }

  /** Breadth-first search from src over the tunnels, as run for one
      valve by path_compression: a valve is recorded when first seen,
      which is at its hop count. */
  method Bfs(adj: map<string, seq<string>>, src: string) returns (shortest: map<string, int>)
    requires Closed(adj) && src in adj
    ensures IsHopMap(adj, src, shortest)
    ensures src in shortest && shortest[src] == 0
  {
    var frontier: seq<(string, int)> := [(src, 0)];
    shortest := map[src := 0];
    ghost var processed: set<string> := {};
    ghost var lo: nat := 0;
    assert frontier[0].0 == src;
    while frontier != []
      invariant Searching(adj, src, shortest, frontier, processed, lo)
      decreases adj.Keys - shortest.Keys, |frontier|
    {
      shortest, frontier, processed, lo := SearchStep(adj, src, adj, shortest, frontier, processed, lo);
    }
    SearchDone(adj, src, shortest, processed, lo);
  }



  // ---------------------------------------------------------------------
  // Paths

  /** The empty path of a given length. */
  function InitialPath(length: int): Path
  {
    Path(Start, length, {}, 0)
  }

  /** path::extend on a copy: walk to vlv, spend timeToOpen minutes and
      open it; it then releases its flow for every minute left. */
  function Extend(p: Path, vlv: Valve, timeToOpen: int): (q: Path)
    requires vlv.name !in p.openValves
    requires timeToOpen < p.minRemaining
    ensures q.loc == vlv.name
    ensures q.openValves == p.openValves + {vlv.name} && |q.openValves| == |p.openValves| + 1
    ensures 0 < q.minRemaining && q.minRemaining + timeToOpen == p.minRemaining
    ensures q.total - p.total == q.minRemaining * vlv.flowRate
    ensures vlv.flowRate >= 0 ==> q.total >= p.total
  {
    var remaining := p.minRemaining - timeToOpen;
    assert vlv.flowRate >= 0 ==> remaining * vlv.flowRate >= 0;
    Path(vlv.name, remaining, p.openValves + {vlv.name}, p.total + remaining * vlv.flowRate)
  }

  /** Two paths are disjoint when no valve of other is opened by p. */
  function IsDisjointWith(p: Path, other: Path): (r: bool)
    ensures r <==> p.openValves !! other.openValves
  {
    forall i :: i in other.openValves ==> i !in p.openValves
  }

  lemma DisjointSymmetric(p: Path, q: Path)
    ensures IsDisjointWith(p, q) == IsDisjointWith(q, p)
  {
  }

  /** A path is disjoint with itself exactly when it opened nothing. */
  lemma DisjointWithSelf(p: Path)
    ensures IsDisjointWith(p, p) <==> p.openValves == {}
  {
    if p.openValves != {} {
      var v :| v in p.openValves;
      assert !IsDisjointWith(p, p);
    }
  }

  // ---------------------------------------------------------------------
  // The compressed network and the search over it

  /** What the search reads of the volcano: the valves, and the working
      valves in the ascending order a std::set iterates them. */
  datatype Network = Network(valves: map<string, Valve>, working: seq<string>)

  /** Every valve is filed under its own name, the tunnels lead to known
      valves and the working valves are known. */
  ghost predicate WellFormed(net: Network)
  {
    && (forall n :: n in net.valves ==> net.valves[n].name == n)
    && Closed(Topology(net.valves))
    && StrictlySorted(net.working)
    && (forall w :: w in net.working ==> w in net.valves)
  }

  /** After path compression: every valve holds its hop-count map. */
  ghost predicate Compressed(net: Network)
  {
    forall n :: n in net.valves ==> IsHopMap(Topology(net.valves), n, net.valves[n].shortest)
  }

  /** What the search needs: the start valve exists, working valves are
      filed under their names, and every working valve has a stored hop
      count from the start and from every working valve. */
  ghost predicate Ready(net: Network)
  {
    && Start in net.valves
    && (forall n :: n in net.working ==> n in net.valves && net.valves[n].name == n)
    && (forall a, w :: (a == Start || a in net.working) && w in net.working ==>
          w in net.valves[a].shortest && net.valves[a].shortest[w] >= 0)
  }

  /** A compressed network is ready once every working valve can be
      reached from the start and from every working valve. */
  lemma CompressedReady(net: Network)
    requires WellFormed(net) && Compressed(net) && Start in net.valves
    requires forall a, w :: (a == Start || a in net.working) && w in net.working ==> Reachable(Topology(net.valves), a, w)
    ensures Ready(net)
  {
  }

  /** A path the search can be at. */
  ghost predicate PathOk(net: Network, p: Path)
  {
    p.openValves <= Elems(net.working) && (p.loc == Start || p.loc in net.working)
  }

  lemma ReadyHasCount(net: Network, p: Path, next: string)
    requires Ready(net) && PathOk(net, p) && next in net.working
    ensures p.loc in net.valves && next in net.valves[p.loc].shortest && net.valves[p.loc].shortest[next] >= 0
    ensures next in net.valves
  {
  }

  /** Can p still open valve next in time? */
  predicate Viable(net: Network, p: Path, next: string)
    requires Ready(net) && PathOk(net, p) && next in net.working
  {
    next !in p.openValves && net.valves[p.loc].shortest[next] + 1 < p.minRemaining
  }

  /** p, walked to next and with next opened. */
  function Child(net: Network, p: Path, next: string): (q: Path)
    requires Ready(net) && PathOk(net, p) && next in net.working && Viable(net, p, next)
    ensures PathOk(net, q) && q.openValves == p.openValves + {next} && q.loc == next
  {
    Extend(p, net.valves[next], net.valves[p.loc].shortest[next] + 1)
  }

  /** The list volcano::paths(p, all_paths) appends: p, then for each
      working valve in order that p can still open, the list of the path
      that opens it. */
  function PathsFrom(net: Network, p: Path): (ps: seq<Path>)
    requires Ready(net) && PathOk(net, p)
    ensures |ps| > 0 && ps[0] == p
    decreases Elems(net.working) - p.openValves, 1, 0
  {
    [p] + PathsVia(net, p, |net.working|)
  }

  /** The lists of the children through the first k working valves. */
  function PathsVia(net: Network, p: Path, k: nat): seq<Path>
    requires Ready(net) && PathOk(net, p) && k <= |net.working|
    decreases Elems(net.working) - p.openValves, 0, k
  {
    if k == 0 then []
    else
      var next := net.working[k - 1];
      PathsVia(net, p, k - 1)
        + if Viable(net, p, next) then PathsFrom(net, Child(net, p, next)) else []
  }

  /** A valve p cannot open adds nothing to the list. */
  lemma PathsViaSkip(net: Network, p: Path, i: nat)
    requires Ready(net) && PathOk(net, p) && i < |net.working| && !Viable(net, p, net.working[i])
    ensures PathsVia(net, p, i + 1) == PathsVia(net, p, i)
  {
  }

  /** A valve p can open adds the list of its child. */
  lemma PathsViaNext(net: Network, p: Path, i: nat)
    requires Ready(net) && PathOk(net, p) && i < |net.working| && Viable(net, p, net.working[i])
    ensures PathsVia(net, p, i + 1) == PathsVia(net, p, i) + PathsFrom(net, Child(net, p, net.working[i]))
  {
  }

  /** Every path below p comes from a child of p. */
  lemma {:induction false} PathsViaFrom(net: Network, p: Path, k: nat, q: Path)
    requires Ready(net) && PathOk(net, p) && k <= |net.working| && q in PathsVia(net, p, k)
    ensures exists j :: 0 <= j < k && Viable(net, p, net.working[j]) && q in PathsFrom(net, Child(net, p, net.working[j]))
    decreases k
  {
    var next := net.working[k - 1];
    if q !in PathsVia(net, p, k - 1) {
      assert Viable(net, p, next) && q in PathsFrom(net, Child(net, p, next));
    } else {
      PathsViaFrom(net, p, k - 1, q);
    }
  }

  /** The lists of all viable children through the first k working valves
      are part of the list. */
  lemma {:induction false} PathsViaHolds(net: Network, p: Path, k: nat, j: nat, q: Path)
    requires Ready(net) && PathOk(net, p) && j < k <= |net.working|
    requires Viable(net, p, net.working[j]) && q in PathsFrom(net, Child(net, p, net.working[j]))
    ensures q in PathsVia(net, p, k)
    decreases k
  {
    if j < k - 1 {
      PathsViaHolds(net, p, k - 1, j, q);
    }
  }

  /** Every listed path keeps the search's invariants: valves are only
      added, each is working, and opening one always leaves time. */
  lemma {:induction false} PathsKeepInvariants(net: Network, p: Path, q: Path)
    requires Ready(net) && PathOk(net, p) && q in PathsFrom(net, p)
    ensures PathOk(net, q) && p.openValves <= q.openValves
    ensures q == p || (0 < q.minRemaining < p.minRemaining && q.loc in q.openValves - p.openValves)
    ensures (forall w :: w in net.working ==> net.valves[w].flowRate >= 0) ==> q.total >= p.total
    decreases Elems(net.working) - p.openValves
  {
    if q != p {
      PathsViaFrom(net, p, |net.working|, q);
      var j :| 0 <= j < |net.working| && Viable(net, p, net.working[j]) && q in PathsFrom(net, Child(net, p, net.working[j]));
      var c := Child(net, p, net.working[j]);
      assert c.loc in c.openValves - p.openValves && 0 < c.minRemaining < p.minRemaining;
      if q != c {
        PathsKeepInvariants(net, c, q);
      }
    }
  }

  /** The list is closed under opening: a viable child of a listed path
      is listed. */
  lemma {:induction false} PathsComplete(net: Network, p: Path, q: Path, n: string)
    requires Ready(net) && PathOk(net, p) && q in PathsFrom(net, p)
    requires PathOk(net, q) && n in net.working && Viable(net, q, n)
    ensures Child(net, q, n) in PathsFrom(net, p)
    decreases Elems(net.working) - p.openValves
  {
    var j :| 0 <= j < |net.working| && net.working[j] == n;
    if q == p {
      PathsViaHolds(net, p, |net.working|, j, Child(net, p, n));
    } else {
      PathsViaFrom(net, p, |net.working|, q);
      var i :| 0 <= i < |net.working| && Viable(net, p, net.working[i]) && q in PathsFrom(net, Child(net, p, net.working[i]));
      var c := Child(net, p, net.working[i]);
      PathsComplete(net, c, q, n);
      PathsViaHolds(net, p, |net.working|, i, Child(net, q, n));
    }
  }

  /** And every listed path but p is a viable child of a listed path. */
  lemma {:induction false} PathsSound(net: Network, p: Path, q: Path)
    requires Ready(net) && PathOk(net, p) && q in PathsFrom(net, p) && q != p
    ensures exists r, n :: r in PathsFrom(net, p) && PathOk(net, r) && n in net.working && Viable(net, r, n) && q == Child(net, r, n)
    decreases Elems(net.working) - p.openValves
  {
    PathsViaFrom(net, p, |net.working|, q);
    var i :| 0 <= i < |net.working| && Viable(net, p, net.working[i]) && q in PathsFrom(net, Child(net, p, net.working[i]));
    var c := Child(net, p, net.working[i]);
    if q == c {
      assert p in PathsFrom(net, p);
    } else {
      PathsSound(net, c, q);
      var r, n :| r in PathsFrom(net, c) && PathOk(net, r) && n in net.working && Viable(net, r, n) && q == Child(net, r, n);
      PathsViaHolds(net, p, |net.working|, i, r);
    }
  }

  // ---------------------------------------------------------------------
  // Reading the records: emplace keeps the first record of a name

  /** The valve of every record, in order. */
  function Parsed(records: seq<seq<string>>): (vs: seq<Valve>)
    ensures |vs| == |records| && forall i :: 0 <= i < |records| ==> vs[i] == ValveOf(records[i])
  {
    seq(|records|, i requires 0 <= i < |records| => ValveOf(records[i]))
  }

  /** The valve map after emplacing the valves in order. */
  function FirstValves(vs: seq<Valve>): map<string, Valve>
  {
    if vs == [] then map[]
    else
      var m := FirstValves(vs[..|vs| - 1]);
      var vlv := vs[|vs| - 1];
      if vlv.name in m then m else m[vlv.name := vlv]
  }

  /** The working set after reading the valves in order. */
  function WorkingOf(vs: seq<Valve>): (ws: seq<string>)
    ensures StrictlySorted(ws)
  {
    if vs == [] then []
    else
      var vlv := vs[|vs| - 1];
      var ws := WorkingOf(vs[..|vs| - 1]);
      if vlv.flowRate > 0 then SetInsert(ws, vlv.name) else ws
  }

  /** The first valve of each name. */
  ghost predicate FirstOfName(vs: seq<Valve>, i: int)
    requires 0 <= i < |vs|
  {
    forall k :: 0 <= k < i ==> vs[k].name != vs[i].name
  }

  /** The map holds one valve per name read. */
  lemma {:induction false} FirstValvesKeys(vs: seq<Valve>)
    ensures FirstValves(vs).Keys == set v | v in vs :: v.name
    decreases |vs|
  {
    if vs != [] {
      FirstValvesKeys(vs[..|vs| - 1]);
      assert vs == vs[..|vs| - 1] + [vs[|vs| - 1]];
    }
  }

  /** Each valve is filed under its own name and was read. */
  lemma {:induction false} FirstValvesNamed(vs: seq<Valve>)
    ensures forall n :: n in FirstValves(vs) ==> FirstValves(vs)[n].name == n && FirstValves(vs)[n] in vs
    decreases |vs|
  {
    if vs != [] {
      FirstValvesNamed(vs[..|vs| - 1]);
    }
  }

  /** The valve filed under a name is the first one read with it. */
  lemma {:induction false} FirstValvesFirst(vs: seq<Valve>, i: int)
    requires 0 <= i < |vs| && FirstOfName(vs, i)
    ensures vs[i].name in FirstValves(vs) && FirstValves(vs)[vs[i].name] == vs[i]
    decreases |vs|
  {
    var init := vs[..|vs| - 1];
    if i < |init| {
      assert init[i] == vs[i] && FirstOfName(init, i);
      FirstValvesFirst(init, i);
    } else {
      FirstValvesKeys(init);
    }
  }

  /** The working set is every name some valve gives a positive rate. */
  lemma {:induction false} WorkingOfHolds(vs: seq<Valve>)
    ensures Elems(WorkingOf(vs)) == set v | v in vs && v.flowRate > 0 :: v.name
    decreases |vs|
  {
    if vs != [] {
      WorkingOfHolds(vs[..|vs| - 1]);
      assert vs == vs[..|vs| - 1] + [vs[|vs| - 1]];
    }
  }

  /** With one record per name, a valve is working exactly when its
      stored rate is positive. */
  lemma WorkingIsPositiveRate(vs: seq<Valve>)
    requires forall i, k :: 0 <= k < i < |vs| ==> vs[k].name != vs[i].name
    ensures forall n :: n in WorkingOf(vs) <==> n in FirstValves(vs) && FirstValves(vs)[n].flowRate > 0
  {
    FirstValvesNamed(vs);
    WorkingOfHolds(vs);
    forall n | n in WorkingOf(vs)
      ensures n in FirstValves(vs) && FirstValves(vs)[n].flowRate > 0
    {
      assert n in Elems(WorkingOf(vs));
      var v :| v in vs && v.flowRate > 0 && v.name == n;
      var i :| 0 <= i < |vs| && vs[i] == v;
      assert FirstOfName(vs, i);
      FirstValvesFirst(vs, i);
    }
    forall n | n in FirstValves(vs) && FirstValves(vs)[n].flowRate > 0
      ensures n in WorkingOf(vs)
    {
      assert n in Elems(WorkingOf(vs));
    }
  }

  /** The loop of the volcano constructor over the records. */
  method ReadValves(records: seq<seq<string>>) returns (valves: map<string, Valve>, working: seq<string>)
    ensures valves == FirstValves(Parsed(records)) && working == WorkingOf(Parsed(records))
  {
    ghost var vs := Parsed(records);
    valves, working := map[], [];
    for i := 0 to |records|
      invariant valves == FirstValves(vs[..i]) && working == WorkingOf(vs[..i])
    {
      var vlv := ParseValve(records[i]);
      assert vs[..i + 1][..i] == vs[..i] && vs[i] == vlv;
      if vlv.flowRate > 0 {
        working := SetInsert(working, vlv.name);
      }
      if vlv.name !in valves {
        valves := valves[vlv.name := vlv];
      }
    }
    assert vs[..|records|] == vs;
  }

  // ---------------------------------------------------------------------
  // The volcano

  class Volcano {
    /** All valves by name */
    var valves: map<string, Valve>
    /** The valves that can relieve pressure, in ascending order */
    var working: seq<string>

    function Net(): Network
      reads this
    {
      Network(valves, working)
    }

    /** Reads the records, notes the working valves, then compresses. */
    constructor (records: seq<seq<string>>)
      requires Closed(Topology(FirstValves(Parsed(records))))
      ensures WellFormed(Net()) && Compressed(Net())
      ensures working == WorkingOf(Parsed(records)) && valves.Keys == FirstValves(Parsed(records)).Keys
      ensures forall n :: n in valves ==> valves[n] == FirstValves(Parsed(records))[n].(shortest := valves[n].shortest)
    {
      var vs, ws := ReadValves(records);
      valves, working := vs, ws;
      new;
      FirstValvesKeys(Parsed(records));
      FirstValvesNamed(Parsed(records));
      WorkingOfHolds(Parsed(records));
      forall w | w in working
        ensures w in valves
      {
        assert w in Elems(WorkingOf(Parsed(records)));
      }
      PathCompression();
    }

    /** Runs a breadth-first search from every valve and stores the hop
        counts; nothing else about the valves changes. */
    method PathCompression()
      requires (forall n :: n in valves ==> valves[n].name == n) && Closed(Topology(valves))
      requires StrictlySorted(working) && forall w :: w in working ==> w in valves
      modifies this
      ensures WellFormed(Net()) && Compressed(Net())
      ensures working == old(working) && valves.Keys == old(valves).Keys
      ensures forall n :: n in valves ==> valves[n] == old(valves)[n].(shortest := valves[n].shortest)
    {
      ghost var adj := Topology(valves);
      var todo := valves.Keys;
      while todo != {}
        invariant todo <= valves.Keys && valves.Keys == old(valves).Keys && working == old(working)
        invariant forall n :: n in valves ==> valves[n] == old(valves)[n].(shortest := valves[n].shortest)
        invariant Topology(valves) == adj
        invariant forall n :: n in valves && n !in todo ==> IsHopMap(adj, n, valves[n].shortest)
        decreases todo
      {
        var name :| name in todo;
        todo := todo - {name};
        var shortest := Bfs(Topology(valves), name);
        TopologyKeepsTunnels(valves, name, shortest);
        valves := valves[name := valves[name].(shortest := shortest)];
      }
    }

    /** The hop count stored for from -> to. */
    function ShortestPath(from: string, to: string): int
      reads this
      requires from in valves && to in valves[from].shortest
    {
      valves[from].shortest[to]
    }

    /** After compression the stored count is the least number of hops. */
    lemma ShortestIsHopCount(from: string, to: string)
      requires from in valves && to in valves[from].shortest
      requires Compressed(Net())
      ensures IsHopCount(Topology(valves), from, to, ShortestPath(from, to))
    {
    }

    /** volcano::paths(p, all_paths): records p, then every extension by a
        working valve, in order, that can still be opened in time. */
    method CollectPaths(p: Path, allPaths: seq<Path>) returns (result: seq<Path>)
      requires Ready(Net()) && PathOk(Net(), p)
      ensures result == allPaths + PathsFrom(Net(), p)
      decreases Elems(working) - p.openValves
    {
      ghost var net := Net();
      result := allPaths + [p];
      ghost var start := result;
      for i := 0 to |working|
        invariant result == start + PathsVia(net, p, i)
      {
        var next := working[i];
        ReadyHasCount(net, p, next);
        if next in p.openValves {
          PathsViaSkip(net, p, i);
          continue;
        }
        var timeToOpen := ShortestPath(p.loc, next) + 1;
        if timeToOpen >= p.minRemaining {
          PathsViaSkip(net, p, i);
          continue;
        }
        var child := Extend(p, valves[next], timeToOpen);
        assert child == Child(net, p, next);
        result := CollectPaths(child, result);
        PathsViaNext(net, p, i);
        AppendAssoc(start, PathsVia(net, p, i), PathsFrom(net, Child(net, p, next)));
      }
      AppendAssoc(allPaths, [p], PathsVia(net, p, |working|));
    }

    /** volcano::paths(length): every path from the empty path, sorted by
        total, best first. */
    method PathsOfLength(length: int) returns (paths: seq<Path>)
      requires Ready(Net())
      ensures multiset(paths) == multiset(PathsFrom(Net(), InitialPath(length)))
      ensures SortedByTotal(paths)
    {
      var all := CollectPaths(InitialPath(length), []);
      paths := SortByTotal(all);
    }

    /** part1: the total of the front of the sorted list is the best total
        of any path. */
    method BestSingle(length: int) returns (best: int)
      requires Ready(Net())
      ensures IsBestSingle(Elems(PathsFrom(Net(), InitialPath(length))), best)
    {
      var paths := PathsOfLength(length);
      assert InitialPath(length) in multiset(paths);
      best := paths[0].total;
      forall q | q in Elems(PathsFrom(Net(), InitialPath(length)))
        ensures q.total <= best
      {
        assert q in multiset(paths);
        var k :| 0 <= k < |paths| && paths[k] == q;
        if k > 0 {
          assert paths[0].total >= paths[k].total;
        }
      }
      assert paths[0] in multiset(PathsFrom(Net(), InitialPath(length)));
    }

    /** part2: the best sum of totals of two disjoint paths. */
    method BestPairOfLength(length: int) returns (best: int)
      requires Ready(Net())
      ensures IsBestPair(Elems(PathsFrom(Net(), InitialPath(length))), best)
    {
      var paths := PathsOfLength(length);
      best := BestPair(paths);
      ghost var all := PathsFrom(Net(), InitialPath(length));
      forall q
        ensures q in paths <==> q in all
      {
        assert q in multiset(paths) <==> q in multiset(all);
      }
      BestPairOfSet(paths, Elems(all), best);
    }
  }

  // ---------------------------------------------------------------------
  // Sorting and the pair scan

  ghost predicate SortedByTotal(ps: seq<Path>)
  {
    forall i, j :: 0 <= i < j < |ps| ==> ps[i].total >= ps[j].total
  }

  /** Inserts x after every path whose total is at least x's. */
  function InsertByTotal(sorted: seq<Path>, x: Path): (r: seq<Path>)
    ensures multiset(r) == multiset(sorted) + multiset{x}
  {
    if sorted == [] then [x]
    else if sorted[0].total >= x.total then
      var r := [sorted[0]] + InsertByTotal(sorted[1..], x);
      assert sorted == [sorted[0]] + sorted[1..];
      r
    else [x] + sorted
  }

  /** Inserting into a sorted list keeps it sorted. */
  lemma {:induction false} InsertByTotalSorted(sorted: seq<Path>, x: Path)
    requires SortedByTotal(sorted)
    ensures SortedByTotal(InsertByTotal(sorted, x))
    decreases |sorted|
  {
    if sorted != [] && sorted[0].total >= x.total {
      var rest := InsertByTotal(sorted[1..], x);
      InsertByTotalSorted(sorted[1..], x);
      forall k | 0 <= k < |rest|
        ensures rest[k].total <= sorted[0].total
      {
        assert rest[k] in multiset(rest);
        if rest[k] != x {
          assert rest[k] in multiset(sorted[1..]);
          var m :| 0 <= m < |sorted[1..]| && sorted[1..][m] == rest[k];
          assert sorted[m + 1] == rest[k];
        }
      }
      assert InsertByTotal(sorted, x) == [sorted[0]] + rest;
    }
  }

  /** The list's sort with p1.total > p2.total as comparator, so best
      first; an insertion sort on a sequence. */
  method SortByTotal(ps: seq<Path>) returns (sorted: seq<Path>)
    ensures multiset(sorted) == multiset(ps)
    ensures SortedByTotal(sorted)
  {
    sorted := [];
    var i := 0;
    while i < |ps|
      invariant 0 <= i <= |ps|
      invariant multiset(sorted) == multiset(ps[..i])
      invariant SortedByTotal(sorted)
    {
      InsertByTotalSorted(sorted, ps[i]);
      sorted := InsertByTotal(sorted, ps[i]);
      assert ps[..i + 1] == ps[..i] + [ps[i]];
      i := i + 1;
    }
    assert ps[..i] == ps;
  }

  /** best is the largest total of the paths. */
  ghost predicate IsBestSingle(paths: set<Path>, best: int)
  {
    (exists q :: q in paths && q.total == best) && forall q :: q in paths ==> q.total <= best
  }

  /** best is the largest sum of totals of two disjoint paths, or 0. */
  ghost predicate IsBestPair(paths: set<Path>, best: int)
  {
    && best >= 0
    && (forall p, q :: p in paths && q in paths && IsDisjointWith(p, q) ==> p.total + q.total <= best)
    && (best == 0 || exists p, q :: p in paths && q in paths && IsDisjointWith(p, q) && p.total + q.total == best)
  }

  /** The same, over the positions i <= j of a list. */
  ghost predicate IsBestPairAt(ps: seq<Path>, best: int)
  {
    && best >= 0
    && (forall i, j :: 0 <= i <= j < |ps| && IsDisjointWith(ps[i], ps[j]) ==> ps[i].total + ps[j].total <= best)
    && (best == 0 || exists i, j :: 0 <= i <= j < |ps| && IsDisjointWith(ps[i], ps[j]) && ps[i].total + ps[j].total == best)
  }

  /** part2's scan: for each i, the first disjoint j at or after i is the
      best partner, because later paths have no larger totals. */
  method BestPair(ps: seq<Path>) returns (best: int)
    requires SortedByTotal(ps)
    ensures IsBestPairAt(ps, best)
  {
    best := 0;
    for i := 0 to |ps|
      invariant best >= 0
      invariant forall a, b :: 0 <= a < i && a <= b < |ps| && IsDisjointWith(ps[a], ps[b]) ==> ps[a].total + ps[b].total <= best
      invariant best == 0 || exists a, b :: 0 <= a <= b < |ps| && IsDisjointWith(ps[a], ps[b]) && ps[a].total + ps[b].total == best
    {
      var j := i;
      while j < |ps|
        invariant i <= j <= |ps|
        invariant forall b :: i <= b < j ==> !IsDisjointWith(ps[i], ps[b])
      {
        if IsDisjointWith(ps[i], ps[j]) {
          best := Max(best, ps[i].total + ps[j].total);
          break;
        }
        j := j + 1;
      }
    }
  }

  /** Scanning positions i <= j covers every unordered pair of paths. */
  lemma BestPairOfSet(ps: seq<Path>, paths: set<Path>, best: int)
    requires IsBestPairAt(ps, best)
    requires Elems(ps) == paths
    ensures IsBestPair(paths, best)
  {
    forall p, q | p in paths && q in paths && IsDisjointWith(p, q)
      ensures p.total + q.total <= best
    {
      var i :| 0 <= i < |ps| && ps[i] == p;
      var j :| 0 <= j < |ps| && ps[j] == q;
      if j < i {
        DisjointSymmetric(p, q);
      }
    }
    if best != 0 {
      var i, j :| 0 <= i <= j < |ps| && IsDisjointWith(ps[i], ps[j]) && ps[i].total + ps[j].total == best;
      assert ps[i] in paths && ps[j] in paths;
    }
  }

  /** Two agents do at least as well as one: the best path pairs with the
      empty path. */
  lemma PairAtLeastSingle(paths: set<Path>, length: int, single: int, pair: int)
    requires InitialPath(length) in paths
    requires IsBestSingle(paths, single) && IsBestPair(paths, pair)
    ensures pair >= single
  {
    var q :| q in paths && q.total == single;
    assert IsDisjointWith(q, InitialPath(length));
  }
}
