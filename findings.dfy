/**
 * A configuration graph on which `getSolutionPath` may return a path that is
 * not a shortest one: from 0 the moves lead to 1 and 2, from 1 to 3, and both
 * 2 and 3 are solutions.  The search dequeues 2 after one move, but by then it
 * has also visited 3, whose predecessor chain takes two moves, and the
 * as-written solution path may follow either.
 */
module Findings {
  import opened Wrappers
  import opened Configuration
  import opened Bfs
  import opened BfsInvariant
  import opened BfsProperties

  /** Puzzles on integers whose moves and solutions are those of the graph above. */
  ghost predicate TwoGoals(p: Puzzle<int>)
  {
    && (forall n :: p.neighbors(n) == if n == 0 then [1, 2] else if n == 1 then [3] else [])
    && (forall n :: p.isSolution(n) == (n == 2 || n == 3))
  }

  lemma TwoGoalsClosed(p: Puzzle<int>)
    requires TwoGoals(p)
    ensures Closed(p, {0, 1, 2, 3})
  {
    forall u, k | u in {0, 1, 2, 3} && 0 <= k < |p.neighbors(u)| ensures p.neighbors(u)[k] in {0, 1, 2, 3} {
      assert p.neighbors(u) == if u == 0 then [1, 2] else if u == 1 then [3] else [];
    }
  }

  /** Expanding 0 discovers 1 and 2 one move away. */
  lemma ExpandZero(p: Puzzle<int>)
    requires TwoGoals(p)
    ensures Expand(p, Start(0)) == AfterZero()
  {
    var s := Start(0);
    assert s.queue[0] == 0 && s.depth[0] + 1 == 1;
    assert p.neighbors(0) == [1, 2];
    var rest := s.(queue := s.queue[1..]);
    assert rest == s.(queue := []);
    assert Expand(p, s) == DiscoverAll(0, 1, [1, 2], rest);
    DiscoverZero(rest);
    DiscoveredZero(rest);
  }

  /** The inner loop over the neighbours 1, 2 of 0 is two single discoveries. */
  lemma DiscoverZero(rest: Search<int>)
    ensures DiscoverAll(0, 1, [1, 2], rest) == DiscoverOne(0, 1, 2, DiscoverOne(0, 1, 1, rest))
  {
    assert [1, 2][..1] == [1] && [1][..0] == [];
    assert DiscoverAll(0, 1, [1], rest) == DiscoverOne(0, 1, 1, rest);
  }

  /** Discovering 1 and then 2 from the start leaves the state after expanding 0. */
  lemma DiscoveredZero(rest: Search<int>)
    requires rest == Start(0).(queue := [])
    ensures DiscoverOne(0, 1, 2, DiscoverOne(0, 1, 1, rest)) == AfterZero()
  {
    var one := DiscoverOne(0, 1, 1, rest);
    assert one == Search([1], {0, 1}, map[1 := 0], map[0 := 0, 1 := 1], 1);
  }

  /** Expanding 1 then discovers 3 two moves away. */
  lemma ExpandOne(p: Puzzle<int>)
    requires TwoGoals(p)
    ensures Expand(p, AfterZero()) == AfterOne()
  {
    var rest := Search([2], {0, 1, 2}, map[1 := 0, 2 := 0], map[0 := 0, 1 := 1, 2 := 1], 2);
    assert p.neighbors(1) == [3];
    assert [3][..0] == [];
    assert DiscoverAll(1, 2, [3], rest) == DiscoverOne(1, 2, 3, rest);
  }

  /** The state after expanding 0. */
  ghost function AfterZero(): Search<int>
  {
    Search([1, 2], {0, 1, 2}, map[1 := 0, 2 := 0], map[0 := 0, 1 := 1, 2 := 1], 2)
  }

  /** The state after expanding 0 and then 1. */
  ghost function AfterOne(): Search<int>
  {
    Search([2, 3], {0, 1, 2, 3}, map[1 := 0, 2 := 0, 3 := 1], map[0 := 0, 1 := 1, 2 := 1, 3 := 2], 3)
  }

  lemma RunFromStart(p: Puzzle<int>)
    requires TwoGoals(p)
    ensures Closed(p, {0, 1, 2, 3})
    ensures Run(p, {0, 1, 2, 3}, Start(0)) == Run(p, {0, 1, 2, 3}, AfterZero())
  {
    TwoGoalsClosed(p);
    ExpandZero(p);
    RunContinue(p, {0, 1, 2, 3}, Start(0));
  }

  lemma RunFromZero(p: Puzzle<int>)
    requires TwoGoals(p)
    ensures Closed(p, {0, 1, 2, 3})
    ensures Run(p, {0, 1, 2, 3}, AfterZero()) == Run(p, {0, 1, 2, 3}, AfterOne())
  {
    TwoGoalsClosed(p);
    ExpandOne(p);
    RunContinue(p, {0, 1, 2, 3}, AfterZero());
  }

  lemma RunFromOne(p: Puzzle<int>)
    requires TwoGoals(p)
    ensures Closed(p, {0, 1, 2, 3})
    ensures Run(p, {0, 1, 2, 3}, AfterOne()) == Outcome(AfterOne().(queue := [3]), Some(2))
  {
    TwoGoalsClosed(p);
    RunStop(p, {0, 1, 2, 3}, AfterOne());
  }

  /** The state the search stops in: 2 dequeued, 3 still queued. */
  ghost function Final(): Search<int>
  {
    Search([3], {0, 1, 2, 3}, map[1 := 0, 2 := 0, 3 := 1], map[0 := 0, 1 := 1, 2 := 1, 3 := 2], 3)
  }

  /** The search stops at 2 with the predecessor chains of a finished search. */
  lemma TwoGoalsRun(p: Puzzle<int>)
    requires TwoGoals(p)
    ensures Closed(p, {0, 1, 2, 3})
    ensures Run(p, {0, 1, 2, 3}, Start(0)) == Outcome(Final(), Some(2))
    ensures Chains(p, 0, Final())
  {
    RunFromStart(p);
    RunFromZero(p);
    RunFromOne(p);
    assert AfterOne().(queue := [3]) == Final();
    SearchFinished(p, {0, 1, 2, 3}, 0);
  }

  /** The as-written solution path may be the chain to 3, of two moves, although the
      path 0, 2 reaches a solution in one move; the chain to the dequeued goal 2 is
      that shortest path. */
  lemma SolutionPathNotShortest(p: Puzzle<int>)
    requires TwoGoals(p)
    ensures Closed(p, {0, 1, 2, 3})
    ensures Run(p, {0, 1, 2, 3}, Start(0)) == Outcome(Final(), Some(2))
    ensures Chains(p, 0, Final()) && p.isSolution(2) && p.isSolution(3)
    ensures PathTo(p, 0, Final(), 3) == [0, 1, 3]
    ensures PathTo(p, 0, Final(), 2) == [0, 2]
  {
    TwoGoalsRun(p);
    var f := Final();
    assert PathTo(p, 0, f, 0) == [0];
    assert PathTo(p, 0, f, 1) == [0, 1];
  }
}
