/**
 * The configuration contract (Configuration.java): the only things the solver
 * ever asks of a puzzle state are a goal test and the enumeration of its
 * neighbours, plus the equality it deduplicates by.
 *
 * A puzzle is modelled as a value holding those two queries over a state type
 * `T`.  The equality of `T` plays the role of `equals`: it is an equivalence
 * relation by construction, and because Dafny functions are pure, a goal test
 * or a neighbour list cannot depend on anything but the state it is asked
 * about (so `hashCode` agreeing with `equals` is automatic here).
 */
module Configuration {

  /** The two queries of the contract: `isSolution` and `getNeighbors`, the latter
      a finite sequence in the order the solver iterates over it. */
  datatype Puzzle<!T> = Puzzle(isSolution: T -> bool, neighbors: T -> seq<T>)

  /** Each element of `path` is among the neighbours of the one before it. */
  ghost predicate IsPath<T>(p: Puzzle<T>, path: seq<T>)
  {
    |path| >= 1 && forall i :: 0 <= i < |path| - 1 ==> path[i + 1] in p.neighbors(path[i])
  }

  /** Every configuration one move away from some configuration of `s`. */
  ghost function Successors<T>(p: Puzzle<T>, s: set<T>): set<T>
  {
    set u, k | u in s && 0 <= k < |p.neighbors(u)| :: p.neighbors(u)[k]
  }

  /** The configurations that can be reached from `start` in at most `j` moves. */
  ghost function Reach<T>(p: Puzzle<T>, start: T, j: nat): set<T>
  {
    if j == 0 then {start} else Reach(p, start, j - 1) + Successors(p, Reach(p, start, j - 1))
  }

  /** No move leads out of `universe`.  A finite closed set containing the start
      configuration is what makes a breadth-first search terminate. */
  ghost predicate Closed<T>(p: Puzzle<T>, universe: set<T>)
  {
    forall u, k :: u in universe && 0 <= k < |p.neighbors(u)| ==> p.neighbors(u)[k] in universe
  }

  /** A path of `n` moves ends in a configuration reachable in `n` moves. */
  lemma {:induction false} PathReaches<T>(p: Puzzle<T>, path: seq<T>)
    requires IsPath(p, path)
    ensures path[|path| - 1] in Reach(p, path[0], |path| - 1)
  {
    if |path| > 1 {
      var shorter := path[..|path| - 1];
      assert IsPath(p, shorter) by {
        forall i | 0 <= i < |shorter| - 1 ensures shorter[i + 1] in p.neighbors(shorter[i]) {
          assert shorter[i + 1] == path[i + 1] && shorter[i] == path[i];
        }
      }
      PathReaches(p, shorter);
      var u := path[|path| - 2];
      var last := path[|path| - 1];
      assert last in p.neighbors(u);
      var k :| 0 <= k < |p.neighbors(u)| && p.neighbors(u)[k] == last;
      assert last in Successors(p, Reach(p, path[0], |path| - 2));
    }
  }

  /** Everything reachable from a configuration of a closed set stays in it. */
  lemma {:induction false} ClosedContainsReach<T>(p: Puzzle<T>, universe: set<T>, start: T, j: nat)
    requires Closed(p, universe) && start in universe
    ensures Reach(p, start, j) <= universe
  {
    if j > 0 {
      ClosedContainsReach(p, universe, start, j - 1);
    }
  }
}
