/**
 * A functional description of the breadth-first search run by `Solver.solve`
 * (Solver.java:45-64), used as the specification of the imperative solver.
 *
 * The state between two dequeues is a `Search` value; `Run` repeats the loop
 * body until the frontier is empty or a solution has been dequeued.  Besides
 * the fields of the solver, the state records the BFS level at which every
 * configuration was discovered (`depth`); the source keeps no such map, it is
 * bookkeeping that lets the proofs speak about shortest paths.
 */
module Bfs {
  import opened Wrappers
  import opened Configuration

  datatype Search<T> = Search(
    queue: seq<T>,           // the FIFO frontier
    visit: set<T>,           // every configuration ever enqueued
    predecessor: map<T, T>,  // the configuration whose expansion discovered each key
    depth: map<T, nat>,      // the level at which each visited configuration was discovered
    total: nat)              // neighbours generated so far, duplicates included

  /** What a finished search leaves: its state, and the solution it dequeued, if any. */
  datatype Outcome<T> = Outcome(final: Search<T>, goal: Option<T>)

  /** The state right before the loop: only the start is queued and visited. */
  ghost function Start<T>(start: T): Search<T>
  {
    Search([start], {start}, map[], map[start := 0], 0)
  }

  /** The elements of a sequence, as a set. */
  ghost function Elements<T>(s: seq<T>): set<T>
  {
    set x | x in s
  }

  /** One turn of the inner loop: `current`, at level `d - 1`, generates neighbour `n`. */
  ghost function DiscoverOne<T>(current: T, d: nat, n: T, s: Search<T>): Search<T>
  {
    if n in s.visit then s.(total := s.total + 1)
    else Search(s.queue + [n], s.visit + {n}, s.predecessor[n := current], s.depth[n := d], s.total + 1)
  }

  /** The inner loop over the neighbours `ns` of `current`: the counter grows by one per
      neighbour and every neighbour ends up visited. */
  ghost function DiscoverAll<T>(current: T, d: nat, ns: seq<T>, s: Search<T>): (r: Search<T>)
    ensures r.total == s.total + |ns|
    ensures r.visit == s.visit + Elements(ns)
    decreases |ns|
  {
    if ns == [] then s
    else
      var front := ns[..|ns| - 1];
      assert Elements(ns) == Elements(front) + {ns[|ns| - 1]} by {
        assert ns == front + [ns[|ns| - 1]];
      }
      DiscoverOne(current, d, ns[|ns| - 1], DiscoverAll(current, d, front, s))
  }

  /** The configurations of `ns` that are not in `seen`, left to right, each at its first
      occurrence: what the inner loop appends to the frontier. */
  ghost function Fresh<T>(ns: seq<T>, seen: set<T>): (r: seq<T>)
    ensures forall i :: 0 <= i < |r| ==> r[i] in ns && r[i] !in seen
    ensures forall i, j :: 0 <= i < j < |r| ==> r[i] != r[j]
    ensures forall x :: x in ns && x !in seen ==> x in r
    decreases |ns|
  {
    if ns == [] then []
    else
      var front := ns[..|ns| - 1];
      var n := ns[|ns| - 1];
      if n in seen || n in front then Fresh(front, seen) else Fresh(front, seen) + [n]
  }

  /** The neighbours enqueued by the inner loop are exactly the ones not visited before,
      each once, appended behind the old frontier. */
  lemma {:induction false} DiscoverAllQueue<T>(current: T, d: nat, ns: seq<T>, s: Search<T>)
    ensures var r := DiscoverAll(current, d, ns, s);
      && |s.queue| <= |r.queue| && r.queue[..|s.queue|] == s.queue
      && (forall i :: |s.queue| <= i < |r.queue| ==> r.queue[i] in r.visit && r.queue[i] !in s.visit)
      && (forall i, j :: |s.queue| <= i < j < |r.queue| ==> r.queue[i] != r.queue[j])
      && (forall v :: v in r.visit && v !in s.visit ==> v in r.queue[|s.queue|..])
    decreases |ns|
  {
    if ns != [] {
      var front := ns[..|ns| - 1];
      var n := ns[|ns| - 1];
      DiscoverAllQueue(current, d, front, s);
      var r' := DiscoverAll(current, d, front, s);
      var r := DiscoverAll(current, d, ns, s);
      assert r == DiscoverOne(current, d, n, r');
      if n !in r'.visit {
        assert r.queue == r'.queue + [n];
        assert r.queue[|s.queue|..] == r'.queue[|s.queue|..] + [n];
      }
    }
  }

  /** The inner loop appends the fresh neighbours in the order `ns` lists them. */
  lemma {:induction false} DiscoverAllOrder<T>(current: T, d: nat, ns: seq<T>, s: Search<T>)
    ensures DiscoverAll(current, d, ns, s).queue == s.queue + Fresh(ns, s.visit)
    decreases |ns|
  {
    if ns != [] {
      var front := ns[..|ns| - 1];
      var n := ns[|ns| - 1];
      DiscoverAllOrder(current, d, front, s);
      var r' := DiscoverAll(current, d, front, s);
      assert DiscoverAll(current, d, ns, s) == DiscoverOne(current, d, n, r');
      assert n in r'.visit <==> n in s.visit || n in front by {
        assert n in Elements(front) <==> n in front;
      }
    }
  }

  /** Each key the inner loop adds to the predecessor map is a newly visited neighbour,
      mapped to `current`; the entries of configurations visited before do not change. */
  lemma {:induction false} DiscoverAllPredecessors<T>(current: T, d: nat, ns: seq<T>, s: Search<T>)
    ensures var r := DiscoverAll(current, d, ns, s);
      && r.predecessor.Keys == s.predecessor.Keys + (r.visit - s.visit)
      && (forall v :: v in r.visit && v !in s.visit ==> r.predecessor[v] == current)
      && (forall v :: v in s.predecessor && v in s.visit ==> r.predecessor[v] == s.predecessor[v])
    decreases |ns|
  {
    if ns != [] {
      var front := ns[..|ns| - 1];
      DiscoverAllPredecessors(current, d, front, s);
      assert DiscoverAll(current, d, ns, s)
          == DiscoverOne(current, d, ns[|ns| - 1], DiscoverAll(current, d, front, s));
    }
  }

  /** The inner loop visits at most one new configuration per neighbour it generates. */
  lemma {:induction false} DiscoverAllCount<T>(current: T, d: nat, ns: seq<T>, s: Search<T>)
    ensures |DiscoverAll(current, d, ns, s).visit| <= |s.visit| + |ns|
    decreases |ns|
  {
    if ns != [] {
      DiscoverAllCount(current, d, ns[..|ns| - 1], s);
    }
  }

  /** Each newly visited neighbour gets level `d`; the levels of configurations visited
      before do not change. */
  lemma {:induction false} DiscoverAllDepths<T>(current: T, d: nat, ns: seq<T>, s: Search<T>)
    ensures var r := DiscoverAll(current, d, ns, s);
      && r.depth.Keys == s.depth.Keys + (r.visit - s.visit)
      && (forall v :: v in r.visit && v !in s.visit ==> r.depth[v] == d)
      && (forall v :: v in s.depth && v in s.visit ==> r.depth[v] == s.depth[v])
    decreases |ns|
  {
    if ns != [] {
      var front := ns[..|ns| - 1];
      DiscoverAllDepths(current, d, front, s);
      assert DiscoverAll(current, d, ns, s)
          == DiscoverOne(current, d, ns[|ns| - 1], DiscoverAll(current, d, front, s));
    }
  }

  /** The frontier holds visited configurations only, and every visited configuration
      has a level. */
  ghost predicate WellFormed<T>(s: Search<T>)
  {
    (forall i :: 0 <= i < |s.queue| ==> s.queue[i] in s.visit) && s.depth.Keys == s.visit
  }

  /** One turn of the outer loop when the head of the frontier is not a solution:
      dequeue it and generate its neighbours. */
  ghost function Expand<T>(p: Puzzle<T>, s: Search<T>): Search<T>
    requires s.queue != [] && s.queue[0] in s.depth
  {
    var current := s.queue[0];
    DiscoverAll(current, s.depth[current] + 1, p.neighbors(current), s.(queue := s.queue[1..]))
  }

  /** Expanding keeps the state well formed and inside a closed universe; when it
      visits nothing new it shortens the frontier. */
  lemma ExpandProgress<T>(p: Puzzle<T>, universe: set<T>, s: Search<T>)
    requires Closed(p, universe) && s.visit <= universe && WellFormed(s) && s.queue != []
    ensures var r := Expand(p, s);
      && WellFormed(r) && r.visit <= universe
      && (r.visit == s.visit ==> |r.queue| < |s.queue|)
  {
    var current := s.queue[0];
    var rest := s.(queue := s.queue[1..]);
    var ns := p.neighbors(current);
    var r := Expand(p, s);
    DiscoverAllQueue(current, s.depth[current] + 1, ns, rest);
    DiscoverAllDepths(current, s.depth[current] + 1, ns, rest);
    forall x | x in Elements(ns) ensures x in universe {
      var k :| 0 <= k < |ns| && ns[k] == x;
    }
    if |r.queue| > |rest.queue| {
      assert r.queue[|rest.queue|] in r.visit - s.visit;
    }
    forall i | 0 <= i < |r.queue| ensures r.queue[i] in r.visit {
      if i < |rest.queue| {
        assert r.queue[i] == rest.queue[i];
      }
    }
  }

  /** Visiting something new leaves fewer unvisited configurations in the universe. */
  lemma ExpandShrinks<T>(p: Puzzle<T>, universe: set<T>, s: Search<T>)
    requires Closed(p, universe) && s.visit <= universe && WellFormed(s) && s.queue != []
    ensures var r := Expand(p, s);
      r.visit != s.visit ==> |universe - r.visit| < |universe - s.visit|
  {
    var r := Expand(p, s);
    if r.visit != s.visit {
      var x :| x in r.visit && x !in s.visit;
      ProperSubsetSmaller(universe - r.visit, universe - s.visit, x);
    }
  }

  /** The outer loop of `solve`: stop with no goal when the frontier is empty, stop with
      the dequeued configuration when it is a solution, expand it otherwise. */
  ghost function Run<T>(p: Puzzle<T>, universe: set<T>, s: Search<T>): Outcome<T>
    requires Closed(p, universe) && s.visit <= universe && WellFormed(s)
    decreases |universe - s.visit|, |s.queue|
  {
    if s.queue == [] then Outcome(s, None)
    else if p.isSolution(s.queue[0]) then Outcome(s.(queue := s.queue[1..]), Some(s.queue[0]))
    else
      ExpandProgress(p, universe, s);
      ExpandShrinks(p, universe, s);
      Run(p, universe, Expand(p, s))
  }

  /** The outer loop of `solve` stops at a solution at the head of the frontier. */
  lemma RunStop<T>(p: Puzzle<T>, universe: set<T>, s: Search<T>)
    requires Closed(p, universe) && s.visit <= universe && WellFormed(s)
    requires s.queue != [] && p.isSolution(s.queue[0])
    ensures Run(p, universe, s) == Outcome(s.(queue := s.queue[1..]), Some(s.queue[0]))
  {
  }

  /** A start configuration that is itself a solution is found on the first dequeue:
      nothing is expanded, no configuration is generated and no predecessor recorded. */
  lemma SolvedAtStart<T>(p: Puzzle<T>, universe: set<T>, start: T)
    requires Closed(p, universe) && start in universe && p.isSolution(start)
    ensures var o := Run(p, universe, Start(start));
      && o.goal == Some(start) && o.final.queue == [] && o.final.visit == {start}
      && o.final.total == 0 && o.final.predecessor == map[]
  {
    RunStop(p, universe, Start(start));
  }

  /** The outer loop of `solve` expands a head of the frontier that is not a solution,
      staying well formed and inside the universe and making progress. */
  lemma RunContinue<T>(p: Puzzle<T>, universe: set<T>, s: Search<T>)
    requires Closed(p, universe) && s.visit <= universe && WellFormed(s)
    requires s.queue != [] && !p.isSolution(s.queue[0])
    ensures var r := Expand(p, s);
      && WellFormed(r) && r.visit <= universe
      && Run(p, universe, s) == Run(p, universe, r)
      && (r.visit == s.visit ==> |r.queue| < |s.queue|)
      && (r.visit != s.visit ==> |universe - r.visit| < |universe - s.visit|)
  {
    ExpandProgress(p, universe, s);
    ExpandShrinks(p, universe, s);
  }

  /** Removing an element makes a finite set smaller. */
  lemma ProperSubsetSmaller<T>(a: set<T>, b: set<T>, x: T)
    requires a <= b && x in b && x !in a
    ensures |a| < |b|
  {
    assert b == a + (b - a);
    assert x in b - a;
  }
}
