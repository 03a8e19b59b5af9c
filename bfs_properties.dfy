/**
 * What a finished breadth-first search guarantees (Solver.java:45-104): the
 * predecessor chains are shortest paths, a search that finds nothing has seen
 * everything reachable, and the solution it dequeues is a nearest one.
 */
module BfsProperties {
  import opened Wrappers
  import opened Configuration
  import opened Bfs
  import opened BfsInvariant

  /** The head of the frontier is its shallowest element. */
  lemma FrontShallowest<T>(s: Search<T>)
    requires Levels(s) && s.queue != []
    ensures forall i :: 0 <= i < |s.queue| ==> s.depth[s.queue[0]] <= s.depth[s.queue[i]]
  {
    forall i | 0 < i < |s.queue| ensures s.depth[s.queue[0]] <= s.depth[s.queue[i]] {
      assert 0 < i;
    }
  }

  /** Every configuration reachable in `j` moves is visited at a level of at most `j`,
      as long as the frontier is empty or has not yet gone past level `j`. */
  lemma {:induction false} LevelComplete<T>(p: Puzzle<T>, start: T, s: Search<T>, j: nat)
    requires Inv(p, start, s)
    requires s.queue == [] || j <= s.depth[s.queue[0]]
    ensures forall w :: w in Reach(p, start, j) ==> w in s.visit && s.depth[w] <= j
  {
    if j > 0 {
      LevelComplete(p, start, s, j - 1);
      forall w | w in Reach(p, start, j) ensures w in s.visit && s.depth[w] <= j {
        if w !in Reach(p, start, j - 1) {
          var u, k :| u in Reach(p, start, j - 1) && 0 <= k < |p.neighbors(u)| && p.neighbors(u)[k] == w;
          AboveFrontExpanded(p, start, s, u, j - 1);
        }
      }
    }
  }

  /** A configuration visited at a level above the frontier's head has been expanded:
      its neighbours are visited, at most one level below it. */
  lemma AboveFrontExpanded<T>(p: Puzzle<T>, start: T, s: Search<T>, u: T, j: nat)
    requires Inv(p, start, s) && u in s.visit && s.depth[u] <= j
    requires s.queue == [] || j < s.depth[s.queue[0]]
    ensures forall k :: 0 <= k < |p.neighbors(u)| ==>
              p.neighbors(u)[k] in s.visit && s.depth[p.neighbors(u)[k]] <= j + 1
  {
    if s.queue != [] {
      FrontShallowest(s);
    }
    assert u !in s.queue;
    assert Expanded(p, s, u);
  }

  /** Levels are exact: no visited configuration is reachable in fewer moves than its level. */
  lemma InvShortest<T>(p: Puzzle<T>, start: T, s: Search<T>, v: T, j: nat)
    requires Inv(p, start, s) && v in s.visit && j < s.depth[v]
    ensures v !in Reach(p, start, j)
  {
    assert s.queue == [] || j <= s.depth[s.queue[0]] by {
      if s.queue != [] {
        DepthBound(p, start, s, v);
      }
    }
    LevelComplete(p, start, s, j);
  }

  /** The predecessor and level maps describe shortest paths from the start: every
      configuration is discovered along a shortest path. */
  ghost predicate Sound<T>(p: Puzzle<T>, start: T, s: Search<T>)
  {
    && Chains(p, start, s)
    && |s.predecessor| <= s.total
    && (forall v, j: nat :: v in s.visit && j < s.depth[v] ==> v !in Reach(p, start, j))
  }

  /** Nothing visited is a solution and everything reachable is visited. */
  ghost predicate Exhausted<T>(p: Puzzle<T>, start: T, s: Search<T>)
  {
    && (forall v :: v in s.visit ==> !p.isSolution(v))
    && (forall j: nat :: Reach(p, start, j) <= s.visit)
  }

  /** No configuration of `c` is a solution. */
  ghost predicate NoSolutionIn<T>(p: Puzzle<T>, c: set<T>)
  {
    forall w :: w in c ==> !p.isSolution(w)
  }

  /** `g` is a visited solution and no solution is nearer to the start. */
  ghost predicate Nearest<T>(p: Puzzle<T>, start: T, s: Search<T>, g: T)
  {
    && g in s.visit && g in s.depth && p.isSolution(g)
    && (forall j: nat :: j < s.depth[g] ==> NoSolutionIn(p, Reach(p, start, j)))
  }

  /** What a finished search guarantees about the state it leaves and the goal it reports. */
  ghost predicate Finished<T>(p: Puzzle<T>, start: T, o: Outcome<T>)
  {
    && Sound(p, start, o.final)
    && (o.goal.None? ==> Exhausted(p, start, o.final))
    && (o.goal.Some? ==> Nearest(p, start, o.final, o.goal.value))
  }

  /** Levels of an invariant state are exact. */
  lemma AllShortest<T>(p: Puzzle<T>, start: T, s: Search<T>)
    requires Inv(p, start, s)
    ensures Sound(p, start, s)
  {
    forall v, j: nat | v in s.visit && j < s.depth[v] ensures v !in Reach(p, start, j) {
      InvShortest(p, start, s, v, j);
    }
  }

  /** A search whose frontier ran dry has visited everything reachable. */
  lemma ExhaustedComplete<T>(p: Puzzle<T>, start: T, s: Search<T>)
    requires Inv(p, start, s) && s.queue == []
    ensures Exhausted(p, start, s)
  {
    forall j: nat ensures Reach(p, start, j) <= s.visit {
      LevelComplete(p, start, s, j);
    }
  }

  /** No solution is reachable in fewer moves than the level of the head of the frontier. */
  lemma HeadNearest<T>(p: Puzzle<T>, start: T, s: Search<T>, j: nat)
    requires Inv(p, start, s) && s.queue != [] && j < s.depth[s.queue[0]]
    ensures NoSolutionIn(p, Reach(p, start, j))
  {
    FrontShallowest(s);
    LevelComplete(p, start, s, j);
    forall w | w in Reach(p, start, j) ensures !p.isSolution(w) {
      assert w !in s.queue;
      assert Expanded(p, s, w);
    }
  }

  /** The frontier plays no part in `Chains`. */
  lemma ChainsWithQueue<T>(p: Puzzle<T>, start: T, s: Search<T>, queue: seq<T>)
    requires Chains(p, start, s)
    ensures Chains(p, start, s.(queue := queue))
  {
    var f := s.(queue := queue);
    forall v | v in f.predecessor ensures Linked(p, f, v) {
      assert Linked(p, s, v);
    }
  }

  /** The frontier plays no part in `Sound` and `Nearest`. */
  lemma SoundWithQueue<T>(p: Puzzle<T>, start: T, s: Search<T>, queue: seq<T>, g: T)
    requires Sound(p, start, s) && Nearest(p, start, s, g)
    ensures Sound(p, start, s.(queue := queue)) && Nearest(p, start, s.(queue := queue), g)
  {
    ChainsWithQueue(p, start, s, queue);
  }

  /** The frontier plays no part in `Finished`. */
  lemma FinishedWithQueue<T>(p: Puzzle<T>, start: T, o: Outcome<T>, queue: seq<T>)
    requires Finished(p, start, o)
    ensures Finished(p, start, Outcome(o.final.(queue := queue), o.goal))
  {
    ChainsWithQueue(p, start, o.final, queue);
  }

  /** Whatever state it starts from, a search keeps the predecessor chains intact, only
      adds to the visited set, and reports a visited solution if it reports one. */
  lemma {:induction false} RunKeepsChains<T>(p: Puzzle<T>, universe: set<T>, start: T, s: Search<T>)
    requires Closed(p, universe) && s.visit <= universe && WellFormed(s)
    requires Chains(p, start, s) && |s.predecessor| <= s.total
    ensures var o := Run(p, universe, s);
      && WellFormed(o.final) && Chains(p, start, o.final) && |o.final.predecessor| <= o.final.total
      && s.visit <= o.final.visit && s.total <= o.final.total
      && (o.goal.Some? ==> o.goal.value in o.final.visit && p.isSolution(o.goal.value))
    decreases |universe - s.visit|, |s.queue|
  {
    if s.queue == [] {
    } else if p.isSolution(s.queue[0]) {
      ChainsWithQueue(p, start, s, s.queue[1..]);
    } else {
      ExpandProgress(p, universe, s);
      ExpandShrinks(p, universe, s);
      ExpandChains(p, start, s);
      ExpandCount(p, start, s);
      RunKeepsChains(p, universe, start, Expand(p, s));
    }
  }

  /** A solution at the head of the frontier is a nearest solution. */
  lemma HeadIsNearest<T>(p: Puzzle<T>, start: T, s: Search<T>)
    requires Inv(p, start, s) && s.queue != [] && p.isSolution(s.queue[0])
    ensures Nearest(p, start, s, s.queue[0])
  {
    var g := s.queue[0];
    forall j: nat | j < s.depth[g] ensures NoSolutionIn(p, Reach(p, start, j)) {
      HeadNearest(p, start, s, j);
    }
  }

  /** Stopping at a solution at the head of the frontier finishes as `Finished` says. */
  lemma FinishedAtGoal<T>(p: Puzzle<T>, start: T, s: Search<T>)
    requires Inv(p, start, s) && s.queue != [] && p.isSolution(s.queue[0])
    ensures Finished(p, start, Outcome(s.(queue := s.queue[1..]), Some(s.queue[0])))
  {
    AllShortest(p, start, s);
    HeadIsNearest(p, start, s);
    SoundWithQueue(p, start, s, s.queue[1..], s.queue[0]);
  }

  /** Stopping with an empty frontier finishes as `Finished` says. */
  lemma FinishedExhausted<T>(p: Puzzle<T>, start: T, s: Search<T>)
    requires Inv(p, start, s) && s.queue == []
    ensures Finished(p, start, Outcome(s, None))
  {
    AllShortest(p, start, s);
    ExhaustedComplete(p, start, s);
  }

  /** Searching from a state that satisfies the invariant finishes as `Finished` says. */
  lemma {:induction false} RunFinished<T>(p: Puzzle<T>, universe: set<T>, start: T, s: Search<T>)
    requires Closed(p, universe) && s.visit <= universe && Inv(p, start, s)
    ensures Finished(p, start, Run(p, universe, s))
    decreases |universe - s.visit|, |s.queue|
  {
    if s.queue == [] {
      FinishedExhausted(p, start, s);
    } else if p.isSolution(s.queue[0]) {
      FinishedAtGoal(p, start, s);
    } else {
      ExpandProgress(p, universe, s);
      ExpandShrinks(p, universe, s);
      ExpandInv(p, start, s);
      RunFinished(p, universe, start, Expand(p, s));
    }
  }

  /** A search that starts as `solve` does finishes as `Finished` says. */
  lemma SearchFinished<T>(p: Puzzle<T>, universe: set<T>, start: T)
    requires Closed(p, universe) && start in universe
    ensures Finished(p, start, Run(p, universe, Start(start)))
  {
    StartInv(p, start);
    RunFinished(p, universe, start, Start(start));
  }

  /** The chain of predecessors from the start to visited configuration `v`: the list
      `getSolutionPath` collects by following predecessor links back from `v`, in
      start-to-`v` order. */
  ghost function PathTo<T>(p: Puzzle<T>, start: T, s: Search<T>, v: T): (path: seq<T>)
    requires Chains(p, start, s) && v in s.visit
    ensures |path| == s.depth[v] + 1 && path[0] == start && path[|path| - 1] == v
    ensures IsPath(p, path) && forall i :: 0 <= i < |path| ==> path[i] in s.visit
    decreases s.depth[v]
  {
    if v in s.predecessor then
      assert Linked(p, s, v);
      PathTo(p, start, s, s.predecessor[v]) + [v]
    else
      [v]
  }

  /** A predecessor chain is a shortest path: no path from the start to the same
      configuration has fewer moves. */
  lemma PathToShortest<T>(p: Puzzle<T>, start: T, o: Outcome<T>, v: T, path: seq<T>)
    requires Finished(p, start, o) && v in o.final.visit
    requires IsPath(p, path) && path[0] == start && path[|path| - 1] == v
    ensures |PathTo(p, start, o.final, v)| <= |path|
  {
    PathReaches(p, path);
  }

  /** The path to the dequeued solution is a shortest path to any solution at all. */
  lemma GoalPathShortest<T>(p: Puzzle<T>, start: T, o: Outcome<T>, path: seq<T>)
    requires Finished(p, start, o) && o.goal.Some?
    requires IsPath(p, path) && path[0] == start && p.isSolution(path[|path| - 1])
    ensures |PathTo(p, start, o.final, o.goal.value)| <= |path|
  {
    PathReaches(p, path);
  }

  /** After an exhausted search, every path from the start stays among the visited
      configurations and never meets a solution. */
  lemma ExhaustedUnsolvable<T>(p: Puzzle<T>, start: T, o: Outcome<T>, path: seq<T>)
    requires Finished(p, start, o) && o.goal.None?
    requires IsPath(p, path) && path[0] == start
    ensures path[|path| - 1] in o.final.visit && !p.isSolution(path[|path| - 1])
  {
    PathReaches(p, path);
  }
}
