/**
 * The invariant of the breadth-first search loop (Solver.java:45-64) and the
 * proof that every turn of the loop keeps it.
 */
module BfsInvariant {
  import opened Configuration
  import opened Bfs

  /** Visited configuration `v` other than the start was discovered by a visited
      configuration of which it is a neighbour, one level further from the start. */
  ghost predicate Linked<T>(p: Puzzle<T>, s: Search<T>, v: T)
  {
    && v in s.predecessor && v in s.depth
    && var u := s.predecessor[v];
       u in s.visit && u in s.depth && v in p.neighbors(u) && s.depth[v] == s.depth[u] + 1
  }

  /** The shape of the predecessor map: its keys are exactly the visited configurations
      other than the start, the start is at level 0, and every key is linked. */
  ghost predicate Chains<T>(p: Puzzle<T>, start: T, s: Search<T>)
  {
    && s.depth.Keys == s.visit
    && start in s.visit && s.depth[start] == 0
    && s.predecessor.Keys == s.visit - {start}
    && forall v :: v in s.predecessor ==> Linked(p, s, v)
  }

  /** The frontier holds distinct configurations, by non-decreasing level, spanning at
      most two consecutive levels. */
  ghost predicate Levels<T>(s: Search<T>)
  {
    && (forall i :: 0 <= i < |s.queue| ==> s.queue[i] in s.depth)
    && (forall i, j :: 0 <= i < j < |s.queue| ==>
          s.depth[s.queue[i]] <= s.depth[s.queue[j]] && s.queue[i] != s.queue[j])
    && (s.queue != [] ==> s.depth[s.queue[|s.queue| - 1]] <= s.depth[s.queue[0]] + 1)
  }

  /** Configuration `v` has been dequeued and expanded: it is no solution, its neighbours
      are all visited at most one level below it, and it is no deeper than the head of
      the frontier. */
  ghost predicate Expanded<T>(p: Puzzle<T>, s: Search<T>, v: T)
  {
    && v in s.depth
    && !p.isSolution(v)
    && (forall k :: 0 <= k < |p.neighbors(v)| ==>
          p.neighbors(v)[k] in s.depth && s.depth[p.neighbors(v)[k]] <= s.depth[v] + 1)
    && (s.queue != [] && s.queue[0] in s.depth ==> s.depth[v] <= s.depth[s.queue[0]])
  }

  /** The loop invariant. */
  ghost predicate Inv<T>(p: Puzzle<T>, start: T, s: Search<T>)
  {
    && WellFormed(s)
    && Chains(p, start, s)
    && Levels(s)
    && |s.predecessor| <= s.total
    && forall v :: v in s.visit && v !in s.queue ==> Expanded(p, s, v)
  }

  /** The invariant holds before the first turn. */
  lemma StartInv<T>(p: Puzzle<T>, start: T)
    ensures Inv(p, start, Start(start))
  {
  }

  /** No visited configuration is more than one level deeper than the head of the frontier. */
  lemma DepthBound<T>(p: Puzzle<T>, start: T, s: Search<T>, v: T)
    requires Inv(p, start, s) && s.queue != [] && v in s.visit
    ensures s.depth[v] <= s.depth[s.queue[0]] + 1
  {
    if v in s.queue {
      var i :| 0 <= i < |s.queue| && s.queue[i] == v;
      if 0 < i < |s.queue| - 1 {
        assert s.depth[s.queue[i]] <= s.depth[s.queue[|s.queue| - 1]];
      }
    } else {
      assert Expanded(p, s, v);
    }
  }

  /** What one expansion does to the frontier: the head leaves it, and exactly the newly
      visited neighbours join it at the back, once each. */
  lemma ExpandQueue<T>(p: Puzzle<T>, s: Search<T>)
    requires WellFormed(s) && s.queue != []
    ensures var r := Expand(p, s); var n := |s.queue| - 1;
      && n <= |r.queue|
      && (forall i :: 0 <= i < n ==> r.queue[i] == s.queue[i + 1])
      && (forall i :: n <= i < |r.queue| ==> r.queue[i] in r.visit && r.queue[i] !in s.visit)
      && (forall i, j :: n <= i < j < |r.queue| ==> r.queue[i] != r.queue[j])
      && (forall v :: v in r.visit && v !in s.visit ==> v in r.queue)
  {
    var c := s.queue[0];
    var rest := s.(queue := s.queue[1..]);
    DiscoverAllQueue(c, s.depth[c] + 1, p.neighbors(c), rest);
    var r := Expand(p, s);
    forall v | v in r.visit && v !in s.visit ensures v in r.queue {
      assert v in r.queue[|rest.queue|..];
    }
  }

  /** The configurations an expansion enqueues follow the order in which the head
      lists its neighbours. */
  lemma ExpandOrder<T>(p: Puzzle<T>, s: Search<T>)
    requires WellFormed(s) && s.queue != []
    ensures Expand(p, s).queue == s.queue[1..] + Fresh(p.neighbors(s.queue[0]), s.visit)
  {
    var c := s.queue[0];
    DiscoverAllOrder(c, s.depth[c] + 1, p.neighbors(c), s.(queue := s.queue[1..]));
  }

  /** What one expansion does to the visited set and the two maps: the neighbours of the
      head become visited; the new ones get the head as predecessor and the level below
      it; nothing already visited changes. */
  lemma ExpandMaps<T>(p: Puzzle<T>, s: Search<T>)
    requires WellFormed(s) && s.queue != []
    ensures var c := s.queue[0]; var r := Expand(p, s);
      && r.visit == s.visit + Elements(p.neighbors(c))
      && r.depth.Keys == r.visit
      && r.total == s.total + |p.neighbors(c)|
      && |r.visit| <= |s.visit| + |p.neighbors(c)|
      && (forall v :: v in s.visit ==> r.depth[v] == s.depth[v])
      && (forall v :: v in r.visit && v !in s.visit ==> r.depth[v] == s.depth[c] + 1)
      && (forall v :: v in s.predecessor && v in s.visit ==> v in r.predecessor && r.predecessor[v] == s.predecessor[v])
      && (forall v :: v in r.visit && v !in s.visit ==> v in r.predecessor && r.predecessor[v] == c)
      && r.predecessor.Keys == s.predecessor.Keys + (r.visit - s.visit)
  {
    var c := s.queue[0];
    var d := s.depth[c] + 1;
    var rest := s.(queue := s.queue[1..]);
    var ns := p.neighbors(c);
    var r := DiscoverAll(c, d, ns, rest);
    assert Expand(p, s) == r;
    DiscoverAllPredecessors(c, d, ns, rest);
    DiscoverAllDepths(c, d, ns, rest);
    DiscoverAllCount(c, d, ns, rest);
    assert r.visit == s.visit + Elements(ns);
    assert r.depth.Keys == r.visit;
  }

  /** Expanding keeps the shape of the predecessor map. */
  lemma ExpandChains<T>(p: Puzzle<T>, start: T, s: Search<T>)
    requires WellFormed(s) && Chains(p, start, s) && s.queue != []
    ensures Chains(p, start, Expand(p, s))
  {
    var c := s.queue[0];
    var r := Expand(p, s);
    ExpandQueue(p, s);
    ExpandMaps(p, s);
    forall v | v in r.predecessor ensures Linked(p, r, v) {
      if v in s.visit {
        assert Linked(p, s, v);
      } else {
        assert v in Elements(p.neighbors(c));
      }
    }
  }

  /** Expanding adds no more predecessor entries than neighbours it generates. */
  lemma ExpandCount<T>(p: Puzzle<T>, start: T, s: Search<T>)
    requires WellFormed(s) && Chains(p, start, s) && |s.predecessor| <= s.total && s.queue != []
    ensures |Expand(p, s).predecessor| <= Expand(p, s).total
  {
    var r := Expand(p, s);
    ExpandQueue(p, s);
    ExpandMaps(p, s);
    assert |r.predecessor| == |r.predecessor.Keys| == |r.visit - {start}| == |r.visit| - 1;
    assert |s.predecessor| == |s.predecessor.Keys| == |s.visit - {start}| == |s.visit| - 1;
  }

  /** Expanding keeps the frontier ordered by level. */
  lemma ExpandLevels<T>(p: Puzzle<T>, start: T, s: Search<T>)
    requires Inv(p, start, s) && s.queue != []
    ensures Levels(Expand(p, s))
  {
    ExpandQueue(p, s);
    ExpandMaps(p, s);
    LevelsShift(s, Expand(p, s));
  }

  /** Dropping the head of the frontier and appending distinct configurations one level
      below it keeps the frontier ordered by level within two levels. */
  lemma LevelsShift<T>(s: Search<T>, r: Search<T>)
    requires Levels(s) && WellFormed(s) && s.queue != []
    requires |s.queue| - 1 <= |r.queue|
    requires forall i :: 0 <= i < |s.queue| - 1 ==> r.queue[i] == s.queue[i + 1]
    requires forall v :: v in s.visit ==> v in r.depth && r.depth[v] == s.depth[v]
    requires forall i :: |s.queue| - 1 <= i < |r.queue| ==>
      r.queue[i] !in s.visit && r.queue[i] in r.depth && r.depth[r.queue[i]] == s.depth[s.queue[0]] + 1
    requires forall i, j :: |s.queue| - 1 <= i < j < |r.queue| ==> r.queue[i] != r.queue[j]
    ensures Levels(r)
  {
    var n := |s.queue| - 1;
    var dc := s.depth[s.queue[0]];
    forall i | 0 <= i < |r.queue|
      ensures r.queue[i] in r.depth && dc <= r.depth[r.queue[i]] <= dc + 1
    {
      if i < n {
        assert r.queue[i] == s.queue[i + 1];
        assert s.depth[s.queue[0]] <= s.depth[s.queue[i + 1]] <= s.depth[s.queue[n]];
      }
    }
    forall i, j | 0 <= i < j < |r.queue|
      ensures r.depth[r.queue[i]] <= r.depth[r.queue[j]] && r.queue[i] != r.queue[j]
    {
      if j < n {
        assert r.queue[i] == s.queue[i + 1] && r.queue[j] == s.queue[j + 1];
      } else if i < n {
        assert r.queue[i] == s.queue[i + 1];
      }
    }
  }

  /** After an expansion the head of the frontier is at least as deep as the
      configuration just expanded. */
  lemma ExpandHeadDeepens<T>(p: Puzzle<T>, start: T, s: Search<T>)
    requires Inv(p, start, s) && s.queue != []
    ensures var r := Expand(p, s);
      r.queue != [] ==> r.queue[0] in r.depth && s.depth[s.queue[0]] <= r.depth[r.queue[0]]
  {
    var c := s.queue[0];
    var r := Expand(p, s);
    ExpandQueue(p, s);
    ExpandMaps(p, s);
    if r.queue != [] {
      if |s.queue| > 1 {
        assert r.queue[0] == s.queue[1];
        assert s.depth[s.queue[0]] <= s.depth[s.queue[1]];
      } else {
        assert r.queue[0] !in s.visit;
      }
    }
  }

  /** The configuration just expanded is expanded afterwards. */
  lemma ExpandedHead<T>(p: Puzzle<T>, start: T, s: Search<T>)
    requires Inv(p, start, s) && s.queue != [] && !p.isSolution(s.queue[0])
    ensures Expanded(p, Expand(p, s), s.queue[0])
  {
    var c := s.queue[0];
    var ns := p.neighbors(c);
    var r := Expand(p, s);
    ExpandMaps(p, s);
    ExpandHeadDeepens(p, start, s);
    forall k | 0 <= k < |ns| ensures ns[k] in r.depth && r.depth[ns[k]] <= r.depth[c] + 1 {
      assert ns[k] in Elements(ns);
      if ns[k] in s.visit {
        DepthBound(p, start, s, ns[k]);
      }
    }
  }

  /** A configuration expanded before an expansion stays expanded. */
  lemma ExpandedStays<T>(p: Puzzle<T>, start: T, s: Search<T>, v: T)
    requires Inv(p, start, s) && s.queue != []
    requires v in Expand(p, s).visit && v !in Expand(p, s).queue && v != s.queue[0]
    ensures Expanded(p, Expand(p, s), v)
  {
    var r := Expand(p, s);
    ExpandQueue(p, s);
    ExpandMaps(p, s);
    ExpandHeadDeepens(p, start, s);
    forall i | 1 <= i < |s.queue| ensures s.queue[i] in r.queue {
      assert r.queue[i - 1] == s.queue[i];
    }
    assert v in s.visit && v !in s.queue;
    assert Expanded(p, s, v);
  }

  /** Expanding the head of the frontier, when it is no solution, makes it expanded and
      keeps every configuration expanded before expanded. */
  lemma ExpandExpanded<T>(p: Puzzle<T>, start: T, s: Search<T>)
    requires Inv(p, start, s) && s.queue != [] && !p.isSolution(s.queue[0])
    ensures var r := Expand(p, s); forall v :: v in r.visit && v !in r.queue ==> Expanded(p, r, v)
  {
    var r := Expand(p, s);
    forall v | v in r.visit && v !in r.queue ensures Expanded(p, r, v) {
      if v == s.queue[0] {
        ExpandedHead(p, start, s);
      } else {
        ExpandedStays(p, start, s, v);
      }
    }
  }

  /** Every turn of the loop that expands a configuration keeps the invariant. */
  lemma ExpandInv<T>(p: Puzzle<T>, start: T, s: Search<T>)
    requires Inv(p, start, s) && s.queue != [] && !p.isSolution(s.queue[0])
    ensures Inv(p, start, Expand(p, s))
  {
    var c := s.queue[0];
    var rest := s.(queue := s.queue[1..]);
    var r := Expand(p, s);
    ExpandChains(p, start, s);
    ExpandCount(p, start, s);
    ExpandLevels(p, start, s);
    ExpandExpanded(p, start, s);
    ExpandQueue(p, s);
    ExpandMaps(p, s);
    forall i | 0 <= i < |r.queue| ensures r.queue[i] in r.visit {
      if i < |rest.queue| {
        assert r.queue[i] == s.queue[i + 1];
      }
    }
  }
}
