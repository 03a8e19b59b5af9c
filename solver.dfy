/**
 * The generic breadth-first solver (Solver.java).  Its fields are the ones the
 * source keeps (visited set, predecessor map, generated-neighbour counter,
 * solution flag), plus `goal`, the solution `solve` dequeued, which the source
 * does not keep (see `GetSolutionPath` and `GetShortestSolutionPath`), and the
 * ghost level map the proofs use.
 */
module Solver {
  import opened Wrappers
  import opened Configuration
  import opened Bfs
  import opened BfsInvariant
  import opened BfsProperties

  /** The sequence in reverse order. */
  function Reversed<T>(s: seq<T>): (r: seq<T>)
    ensures |r| == |s| && forall i :: 0 <= i < |s| ==> r[i] == s[|s| - 1 - i]
  {
    if s == [] then [] else Reversed(s[1..]) + [s[0]]
  }

  /** Appending at the back of a list puts the element at the front of its reversal. */
  lemma ReversedSnoc<T>(s: seq<T>, x: T)
    ensures Reversed(s + [x]) == [x] + Reversed(s)
  {
    var r := Reversed(s + [x]);
    assert forall i :: 0 <= i < |r| ==> r[i] == ([x] + Reversed(s))[i];
  }

  /** The state `solve` loops from: the start is queued and added to the visited set;
      everything else is left as a previous call left it. */
  ghost function Restart<T>(s: Search<T>, start: T): Search<T>
  {
    Search([start], s.visit + {start}, s.predecessor,
           if start in s.visit then s.depth else s.depth[start := 0], s.total)
  }

  /** Restarting a search from a state that a solver keeps valid: the search stays
      well formed and keeps the chains, and from a fresh state it finishes as
      `Finished` says. */
  lemma RestartSound<T>(p: Puzzle<T>, universe: set<T>, start: T, s: Search<T>)
    requires Closed(p, universe) && start in universe && s.visit <= universe
    requires s.queue == [] && s.depth.Keys == s.visit
    requires s.visit == {} ==> s.predecessor == map[] && s.total == 0
    requires s.visit != {} ==> Chains(p, start, s)
    requires |s.predecessor| <= s.total
    ensures var s0 := Restart(s, start); WellFormed(s0) && s0.visit <= universe
    ensures var o := Run(p, universe, Restart(s, start));
      && Chains(p, start, o.final.(queue := [])) && |o.final.predecessor| <= o.final.total
      && s.visit <= o.final.visit && o.final.depth.Keys == o.final.visit
      && (o.goal.Some? ==> o.goal.value in o.final.visit && p.isSolution(o.goal.value))
      && (s.visit == {} ==> Finished(p, start, Outcome(o.final.(queue := []), o.goal)))
  {
    var s0 := Restart(s, start);
    if s.visit == {} {
      assert s0 == Start(start);
      StartInv(p, start);
      RunFinished(p, universe, start, s0);
      FinishedWithQueue(p, start, Run(p, universe, s0), []);
    } else {
      ChainsWithQueue(p, start, s, [start]);
      assert s0 == s.(queue := [start]);
    }
    RunKeepsChains(p, universe, start, s0);
    ChainsWithQueue(p, start, Run(p, universe, s0).final, []);
  }

  /** `Expand` in terms of the inner loop it runs. */
  lemma ExpandUnfold<T>(p: Puzzle<T>, s: Search<T>, current: T, d: nat, ns: seq<T>, rest: Search<T>)
    requires s.queue != [] && current == s.queue[0] && current in s.depth
    requires d == s.depth[current] + 1 && ns == p.neighbors(current) && rest == s.(queue := s.queue[1..])
    ensures Expand(p, s) == DiscoverAll(current, d, ns, rest)
  {
  }

  class Solver<T(==)> {
    const puzzle: Puzzle<T>
    const initialConfig: T
    var visit: set<T>
    var predecessor: map<T, T>
    var totalConfigurations: nat
    var sol: bool
    var goal: Option<T>
    ghost var depth: map<T, nat>

    /** The solver's maps as a search state with an empty frontier. */
    ghost function State(): Search<T>
      reads this
    {
      Search([], visit, predecessor, depth, totalConfigurations)
    }

    ghost predicate Valid()
      reads this
    {
      && depth.Keys == visit
      && (visit == {} ==> predecessor == map[] && totalConfigurations == 0 && !sol)
      && (visit != {} ==> Chains(puzzle, initialConfig, State()))
      && |predecessor| <= totalConfigurations
      && (sol <==> goal.Some?)
      && (goal.Some? ==> goal.value in visit && puzzle.isSolution(goal.value))
    }

    /** A solver for the puzzle that starts at `initialConfig`, with nothing visited yet. */
    constructor (puzzle: Puzzle<T>, initialConfig: T)
      ensures Valid()
      ensures this.puzzle == puzzle && this.initialConfig == initialConfig
      ensures visit == {} && predecessor == map[] && totalConfigurations == 0 && !sol
    {
      this.puzzle := puzzle;
      this.initialConfig := initialConfig;
      visit := {};
      predecessor := map[];
      totalConfigurations := 0;
      sol := false;
      goal := None;
      depth := map[];
    }

    /** Breadth-first search from `initialConfig`.  The state afterwards is the one `Run`
        describes; on a fresh solver it satisfies `Finished`: shortest predecessor
        chains, and either a nearest solution or an exhausted search.  `universe` is a
        finite set of configurations closed under moves; it only bounds the search. */
    method Solve(ghost universe: set<T>) returns (found: bool)
      requires Valid() && Closed(puzzle, universe)
      requires initialConfig in universe && visit <= universe
      modifies this
      ensures Valid()
      ensures var o := Run(puzzle, universe, Restart(old(State()), initialConfig));
        && visit == o.final.visit && predecessor == o.final.predecessor && depth == o.final.depth
        && totalConfigurations == o.final.total
        && sol == (old(sol) || o.goal.Some?) && found == sol
        && goal == (if o.goal.Some? then o.goal else old(goal))
      ensures old(visit) == {} ==> found == goal.Some? && Finished(puzzle, initialConfig, Outcome(State(), goal))
    {
      ghost var s0 := Restart(State(), initialConfig);
      RestartSound(puzzle, universe, initialConfig, State());
      var queue := [initialConfig];
      visit := visit + {initialConfig};
      if initialConfig !in depth {
        depth := depth[initialConfig := 0];
      }
      assert Search(queue, visit, predecessor, depth, totalConfigurations) == s0;
      ghost var o := Run(puzzle, universe, s0);
      Explore(universe, queue);
      assert State() == o.final.(queue := []);
      found := sol;
    }

    /** The loop of `solve`, from frontier `queue`: dequeue a configuration, stop if it
        is a solution, otherwise generate its neighbours. */
    method Explore(ghost universe: set<T>, queue: seq<T>)
      requires Closed(puzzle, universe) && visit <= universe
      requires WellFormed(Search(queue, visit, predecessor, depth, totalConfigurations))
      modifies this
      ensures var o := Run(puzzle, universe, Search(queue, old(visit), old(predecessor), old(depth), old(totalConfigurations)));
        && visit == o.final.visit && predecessor == o.final.predecessor && depth == o.final.depth
        && totalConfigurations == o.final.total
        && (o.goal.Some? ==> sol && goal == o.goal)
        && (o.goal.None? ==> sol == old(sol) && goal == old(goal))
    {
      ghost var target := Run(puzzle, universe, Search(queue, visit, predecessor, depth, totalConfigurations));
      var queue := queue;
      while queue != []
        invariant WellFormed(Search(queue, visit, predecessor, depth, totalConfigurations))
        invariant visit <= universe
        invariant Run(puzzle, universe, Search(queue, visit, predecessor, depth, totalConfigurations)) == target
        invariant sol == old(sol) && goal == old(goal)
        decreases |universe - visit|, |queue|
      {
        var stop;
        queue, stop := Step(universe, queue);
        if stop {
          break;
        }
      }
    }

    /** One turn of the loop of `solve`: dequeue the head of `queue`; if it is a
        solution, record it and stop; otherwise generate its neighbours.  Either way the
        search ends as it would have from the old state. */
    method Step(ghost universe: set<T>, queue: seq<T>) returns (queue': seq<T>, stop: bool)
      requires Closed(puzzle, universe) && visit <= universe && queue != []
      requires WellFormed(Search(queue, visit, predecessor, depth, totalConfigurations))
      modifies this
      ensures var s := Search(queue, old(visit), old(predecessor), old(depth), old(totalConfigurations));
        var r := Search(queue', visit, predecessor, depth, totalConfigurations);
        && (stop ==> Run(puzzle, universe, s) == Outcome(r, goal) && sol && goal == Some(queue[0]))
        && (stop ==> puzzle.isSolution(queue[0]))
        && (!stop ==> && !puzzle.isSolution(queue[0]) && r == Expand(puzzle, s)
                      && WellFormed(r) && visit <= universe && Run(puzzle, universe, s) == Run(puzzle, universe, r)
                      && sol == old(sol) && goal == old(goal)
                      && (visit == old(visit) ==> |queue'| < |queue|)
                      && (visit != old(visit) ==> |universe - visit| < |universe - old(visit)|))
    {
      ghost var s := Search(queue, visit, predecessor, depth, totalConfigurations);
      var currentConfig := queue[0];
      queue' := queue[1..];
      ghost var rest := s.(queue := s.queue[1..]);
      assert rest == Search(queue', visit, predecessor, depth, totalConfigurations);
      if puzzle.isSolution(currentConfig) {
        RunStop(puzzle, universe, s);
        sol := true;
        goal := Some(currentConfig);
        return queue', true;
      }
      RunContinue(puzzle, universe, s);
      var neighbors := puzzle.neighbors(currentConfig);
      ghost var d := depth[currentConfig] + 1;
      ExpandUnfold(puzzle, s, currentConfig, d, neighbors, rest);
      queue' := Discover(currentConfig, d, neighbors, queue');
      stop := false;
    }

    /** The inner loop of `solve`: counts every neighbour of `currentConfig` and marks
        the ones not visited yet as visited, enqueues them and records `currentConfig` as
        their predecessor (and, in the ghost level map, level `d`). */
    method Discover(currentConfig: T, ghost d: nat, neighbors: seq<T>, queue: seq<T>) returns (queue': seq<T>)
      modifies this`visit, this`predecessor, this`depth, this`totalConfigurations
      ensures Search(queue', visit, predecessor, depth, totalConfigurations)
        == DiscoverAll(currentConfig, d, neighbors,
                       Search(queue, old(visit), old(predecessor), old(depth), old(totalConfigurations)))
    {
      ghost var s1 := Search(queue, visit, predecessor, depth, totalConfigurations);
      queue' := queue;
      for i := 0 to |neighbors|
        invariant Search(queue', visit, predecessor, depth, totalConfigurations) == DiscoverAll(currentConfig, d, neighbors[..i], s1)
      {
        var neighbor := neighbors[i];
        assert neighbors[..i + 1][..i] == neighbors[..i];
        totalConfigurations := totalConfigurations + 1;
        if neighbor !in visit {
          visit := visit + {neighbor};
          queue' := queue' + [neighbor];
          predecessor := predecessor[neighbor := currentConfig];
          depth := depth[neighbor := d];
        }
      }
      assert neighbors[..|neighbors|] == neighbors;
    }

    /** Follows the predecessor links back from `v` to the start, collecting the
        configurations, and reverses the list: the chain of moves that discovered `v`. */
    method ChainFrom(v: T) returns (path: seq<T>)
      requires Valid() && v in visit
      ensures path == PathTo(puzzle, initialConfig, State(), v)
    {
      ghost var s := State();
      var walk: seq<T> := [];
      var currentConfig: Option<T> := Some(v);
      while currentConfig.Some?
        invariant currentConfig.Some? ==>
          && currentConfig.value in visit
          && PathTo(puzzle, initialConfig, s, v) == PathTo(puzzle, initialConfig, s, currentConfig.value) + Reversed(walk)
        invariant currentConfig.None? ==> PathTo(puzzle, initialConfig, s, v) == Reversed(walk)
        decreases if currentConfig.Some? then depth[currentConfig.value] + 1 else 0
      {
        var c := currentConfig.value;
        ReversedSnoc(walk, c);
        walk := walk + [c];
        if c in predecessor {
          assert Linked(puzzle, s, c);
          currentConfig := Some(predecessor[c]);
        } else {
          currentConfig := None;
        }
      }
      path := Reversed(walk);
    }

    /** The solution path as the source builds it: the chain to the first solution met
        while iterating over the visited set, in no particular order.  Any visited
        solution may come first, so the path need not be the one to the solution
        `solve` dequeued; see `Findings.SolutionPathNotShortest`. */
    method GetSolutionPath() returns (path: seq<T>)
      requires Valid()
      ensures !sol ==> path == []
      ensures sol ==> exists g :: (g in visit && puzzle.isSolution(g)
        && path == PathTo(puzzle, initialConfig, State(), g))
    {
      path := [];
      if sol {
        var remaining := visit;
        var currentConfig: Option<T> := None;
        while remaining != {} && currentConfig.None?
          invariant remaining <= visit
          invariant currentConfig.Some? ==> currentConfig.value in visit && puzzle.isSolution(currentConfig.value)
          invariant currentConfig.None? ==> goal.value in remaining
          decreases |remaining|
        {
          var config :| config in remaining;
          remaining := remaining - {config};
          if puzzle.isSolution(config) {
            currentConfig := Some(config);
          }
        }
        path := ChainFrom(currentConfig.value);
      }
    }

    /** The solution path to the solution `solve` dequeued, which is a shortest path to
        any solution (`BfsProperties.GoalPathShortest`). */
    method GetShortestSolutionPath() returns (path: seq<T>)
      requires Valid()
      ensures !sol ==> path == []
      ensures sol ==> goal.Some? && path == PathTo(puzzle, initialConfig, State(), goal.value)
      ensures sol ==> IsPath(puzzle, path) && path[0] == initialConfig && puzzle.isSolution(path[|path| - 1])
    {
      path := [];
      if sol {
        path := ChainFrom(goal.value);
      }
    }

    /** The neighbours generated so far, duplicates included. */
    method GetTotalConfigurations() returns (t: nat)
      requires Valid()
      ensures t == totalConfigurations && t >= |predecessor|
    {
      t := totalConfigurations;
    }

    /** The number of predecessor entries: every visited configuration except the start. */
    method GetUniqueConfigurations() returns (u: nat)
      requires Valid()
      ensures u == |predecessor| && u <= totalConfigurations
      ensures visit != {} ==> u == |visit| - 1
    {
      u := |predecessor|;
      if visit != {} {
        assert predecessor.Keys == visit - {initialConfig};
      }
    }
  }
}
