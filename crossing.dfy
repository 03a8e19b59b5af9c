/**
 * The river-crossing puzzle (CrossingConfiguration.java): pups and wolves on
 * the two banks of a river and a boat on one of them.  The boat carries one
 * wolf, or one or two pups, to the other bank; from the right bank it may
 * also return empty.  The puzzle is solved once no animal is left on the left
 * bank.  A configuration never changes after construction and `equals`
 * compares all five fields, so a configuration is a datatype value.
 */
module Crossing {
  import opened Configuration
  import opened Bfs
  import opened BfsProperties

  /** The bank the boat is at. */
  datatype Side = Left | Right

  datatype Crossing = Crossing(leftPups: int, leftWolves: int, rightPups: int, rightWolves: int, boat: Side)

  /** The two-argument constructor: every animal on the left bank, with the boat. */
  function Initial(pups: int, wolves: int): (c: Crossing)
    ensures IsSolution(c) <==> pups == 0 && wolves == 0
    ensures pups >= 0 && wolves >= 0 ==> NonNegative(c) && TotalPups(c) == pups && TotalWolves(c) == wolves
  {
    Crossing(pups, wolves, 0, 0, Left)
  }

  /** No pup and no wolf is left on the left bank. */
  predicate IsSolution(c: Crossing)
  {
    c.leftPups == 0 && c.leftWolves == 0
  }

  /** All counts are non-negative. */
  predicate NonNegative(c: Crossing)
  {
    c.leftPups >= 0 && c.leftWolves >= 0 && c.rightPups >= 0 && c.rightWolves >= 0
  }

  function TotalPups(c: Crossing): int
  {
    c.leftPups + c.rightPups
  }

  function TotalWolves(c: Crossing): int
  {
    c.leftWolves + c.rightWolves
  }

  /** For configurations with non-negative counts, solved means that every animal is
      on the right bank. */
  lemma SolutionIsAllAcross(c: Crossing)
    requires NonNegative(c)
    ensures IsSolution(c) <==> c.rightPups == TotalPups(c) && c.rightWolves == TotalWolves(c)
  {
  }

  /** The pups waiting on the bank the boat is at. */
  function PupsAtBoat(c: Crossing): int
  {
    if c.boat == Left then c.leftPups else c.rightPups
  }

  /** The wolves waiting on the bank the boat is at. */
  function WolvesAtBoat(c: Crossing): int
  {
    if c.boat == Left then c.leftWolves else c.rightWolves
  }

  /** The configuration after the boat takes `pups` pups and `wolves` wolves to the
      other bank. */
  function Ferry(c: Crossing, pups: int, wolves: int): (n: Crossing)
    ensures n.boat != c.boat
    ensures TotalPups(n) == TotalPups(c) && TotalWolves(n) == TotalWolves(c)
    ensures PupsAtBoat(n) == (if c.boat == Left then c.rightPups else c.leftPups) + pups
    ensures WolvesAtBoat(n) == (if c.boat == Left then c.rightWolves else c.leftWolves) + wolves
  {
    match c.boat
    case Left => Crossing(c.leftPups - pups, c.leftWolves - wolves, c.rightPups + pups, c.rightWolves + wolves, Right)
    case Right => Crossing(c.leftPups + pups, c.leftWolves + wolves, c.rightPups - pups, c.rightWolves - wolves, Left)
  }

  /** The trips with `k` pups, for `lo <= k < hi` in increasing order, of which there
      are enough pups on the boat's bank. */
  function PupTrips(c: Crossing, lo: int, hi: int): (ts: seq<Crossing>)
    ensures |ts| <= if lo < hi then hi - lo else 0
    decreases hi - lo
  {
    if hi <= lo then []
    else PupTrips(c, lo, hi - 1) + (if PupsAtBoat(c) >= hi - 1 then [Ferry(c, hi - 1, 0)] else [])
  }

  /** The pup trips are the trips with `k` pups, `lo <= k < hi`, for which there are
      enough pups. */
  lemma {:induction false} PupTripsExactly(c: Crossing, lo: int, hi: int, n: Crossing)
    ensures n in PupTrips(c, lo, hi) <==> exists k :: lo <= k < hi && PupsAtBoat(c) >= k && n == Ferry(c, k, 0)
    decreases hi - lo
  {
    if lo < hi {
      PupTripsExactly(c, lo, hi - 1, n);
      if k :| lo <= k < hi && PupsAtBoat(c) >= k && n == Ferry(c, k, 0) {
        if k < hi - 1 {
          assert n in PupTrips(c, lo, hi - 1);
        }
      }
    }
  }

  /** The smallest boat load of pups: one from the left bank, none from the right. */
  function FewestPups(c: Crossing): int
  {
    if c.boat == Left then 1 else 0
  }

  /** The neighbours in the order the program lists them: one wolf across, then one
      and two pups across (from the right bank first an empty boat). */
  function Neighbors(c: Crossing): (ns: seq<Crossing>)
    ensures |ns| <= 4
  {
    (if WolvesAtBoat(c) >= 1 then [Ferry(c, 0, 1)] else []) + PupTrips(c, FewestPups(c), 3)
  }

  /** A boat load the rules allow: one wolf, if a wolf waits at the boat; or one or
      two pups, or from the right bank nobody, if that many pups wait at the boat. */
  predicate Load(c: Crossing, pups: int, wolves: int)
  {
    || (pups == 0 && wolves == 1 && WolvesAtBoat(c) >= 1)
    || (wolves == 0 && (pups == 1 || pups == 2 || (pups == 0 && c.boat == Right)) && PupsAtBoat(c) >= pups)
  }

  /** The neighbours are exactly the trips with an allowed load. */
  lemma NeighborsExactly(c: Crossing, n: Crossing)
    ensures n in Neighbors(c) <==> exists pups, wolves :: Load(c, pups, wolves) && n == Ferry(c, pups, wolves)
  {
    if n in Neighbors(c) {
      if WolvesAtBoat(c) >= 1 && n == Ferry(c, 0, 1) {
        assert Load(c, 0, 1);
      } else {
        assert n in PupTrips(c, FewestPups(c), 3);
        PupTripsExactly(c, FewestPups(c), 3, n);
        var k :| FewestPups(c) <= k <= 2 && PupsAtBoat(c) >= k && n == Ferry(c, k, 0);
        assert Load(c, k, 0);
      }
    }
    if pups, wolves :| Load(c, pups, wolves) && n == Ferry(c, pups, wolves) {
      if wolves == 0 {
        PupTripsExactly(c, FewestPups(c), 3, n);
      }
    }
  }

  /** Every move flips the boat and conserves the number of pups and of wolves, and
      keeps the counts non-negative. */
  lemma NeighborsConserve(c: Crossing, n: Crossing)
    requires n in Neighbors(c)
    ensures n.boat != c.boat
    ensures TotalPups(n) == TotalPups(c) && TotalWolves(n) == TotalWolves(c)
    ensures NonNegative(c) ==> NonNegative(n)
  {
    NeighborsExactly(c, n);
  }

  /** Builds the neighbour list as the program does, with a loop over the number of
      pups. */
  method GetNeighbors(c: Crossing) returns (ns: seq<Crossing>)
    ensures ns == Neighbors(c)
  {
    ns := [];
    if c.boat == Left {
      if c.leftWolves >= 1 {
        ns := ns + [Crossing(c.leftPups, c.leftWolves - 1, c.rightPups, c.rightWolves + 1, Right)];
      }
      ghost var wolf := ns;
      for pups := 1 to 3
        invariant ns == wolf + PupTrips(c, 1, pups)
      {
        if c.leftPups >= pups {
          ns := ns + [Crossing(c.leftPups - pups, c.leftWolves, c.rightPups + pups, c.rightWolves, Right)];
        }
      }
    } else {
      if c.rightWolves >= 1 {
        ns := ns + [Crossing(c.leftPups, c.leftWolves + 1, c.rightPups, c.rightWolves - 1, Left)];
      }
      ghost var wolf := ns;
      for pups := 0 to 3
        invariant ns == wolf + PupTrips(c, 0, pups)
      {
        if c.rightPups >= pups {
          ns := ns + [Crossing(c.leftPups + pups, c.leftWolves, c.rightPups - pups, c.rightWolves, Left)];
        }
      }
    }
  }

  /** Field-by-field comparison, which is equality of configurations. */
  predicate Equals(a: Crossing, b: Crossing): (r: bool)
    ensures r <==> a == b
  {
    && a.leftPups == b.leftPups && a.rightPups == b.rightPups
    && a.leftWolves == b.leftWolves && a.rightWolves == b.rightWolves
    && a.boat == b.boat
  }

  /** The river-crossing puzzle as the solver sees it. */
  function CrossingPuzzle(): Puzzle<Crossing>
  {
    Puzzle(IsSolution, Neighbors)
  }

  // ---------------------------------------------------------------------------
  // The search space

  /** The configurations of `pups` pups and `wolves` wolves with non-negative counts. */
  ghost function States(pups: nat, wolves: nat): set<Crossing>
  {
    (set lp, lw, rp, rw | 0 <= lp <= pups && 0 <= rp <= pups && lp + rp == pups
                           && 0 <= lw <= wolves && 0 <= rw <= wolves && lw + rw == wolves
       :: Crossing(lp, lw, rp, rw, Left))
    + (set lp, lw, rp, rw | 0 <= lp <= pups && 0 <= rp <= pups && lp + rp == pups
                             && 0 <= lw <= wolves && 0 <= rw <= wolves && lw + rw == wolves
         :: Crossing(lp, lw, rp, rw, Right))
  }

  lemma InStates(pups: nat, wolves: nat, c: Crossing)
    ensures c in States(pups, wolves) <==> NonNegative(c) && TotalPups(c) == pups && TotalWolves(c) == wolves
  {
    if NonNegative(c) && TotalPups(c) == pups && TotalWolves(c) == wolves {
      if c.boat == Left {
        assert c == Crossing(c.leftPups, c.leftWolves, c.rightPups, c.rightWolves, Left);
      } else {
        assert c == Crossing(c.leftPups, c.leftWolves, c.rightPups, c.rightWolves, Right);
      }
    }
  }

  /** No move leaves the configurations of a fixed number of animals. */
  lemma StatesClosed(pups: nat, wolves: nat)
    ensures Closed(CrossingPuzzle(), States(pups, wolves))
  {
    var p := CrossingPuzzle();
    forall u, k | u in States(pups, wolves) && 0 <= k < |p.neighbors(u)|
      ensures p.neighbors(u)[k] in States(pups, wolves)
    {
      var n := p.neighbors(u)[k];
      InStates(pups, wolves, u);
      NeighborsConserve(u, n);
      InStates(pups, wolves, n);
    }
  }

  /** Every configuration a search from the two-argument constructor reaches has
      non-negative counts and the start's animal totals. */
  lemma ReachConserves(pups: nat, wolves: nat, j: nat, n: Crossing)
    requires n in Reach(CrossingPuzzle(), Initial(pups, wolves), j)
    ensures NonNegative(n) && TotalPups(n) == pups && TotalWolves(n) == wolves
  {
    InStates(pups, wolves, Initial(pups, wolves));
    StatesClosed(pups, wolves);
    ClosedContainsReach(CrossingPuzzle(), States(pups, wolves), Initial(pups, wolves), j);
    InStates(pups, wolves, n);
  }

  /** A search from the two-argument constructor's configuration terminates, and its
      outcome is a shortest solution or the proof that none is reachable. */
  lemma CrossingSearchFinished(pups: nat, wolves: nat)
    ensures Initial(pups, wolves) in States(pups, wolves) && Closed(CrossingPuzzle(), States(pups, wolves))
    ensures Finished(CrossingPuzzle(), Initial(pups, wolves),
                     Run(CrossingPuzzle(), States(pups, wolves), Start(Initial(pups, wolves))))
  {
    InStates(pups, wolves, Initial(pups, wolves));
    StatesClosed(pups, wolves);
    SearchFinished(CrossingPuzzle(), States(pups, wolves), Initial(pups, wolves));
  }
}
