/**
 * The sliding-tiles puzzle (SlideConfig.java).  A board is a rectangular grid
 * of numbers in which 0 is the empty space; a move slides a tile orthogonally
 * adjacent to the empty space into it.  Board equality (`Arrays.deepEquals`)
 * is value equality of grids, so the search runs over `Grid` values, and the
 * class `SlideConfig` models the object the program builds around a board.
 */
module Slide {
  import opened Wrappers
  import opened Configuration

  /** A board, one sequence of cells per row. */
  type Grid = seq<seq<int>>

  /** A (row, column) position. */
  type Coordinate = (int, int)

  /** Every row is as long as the first. */
  predicate Rectangular(b: Grid)
  {
    forall r :: 0 <= r < |b| ==> |b[r]| == |b[0]|
  }

  predicate InGrid(b: Grid, c: Coordinate)
  {
    0 <= c.0 < |b| && 0 <= c.1 < |b[c.0]|
  }

  function Cell(b: Grid, c: Coordinate): int
    requires InGrid(b, c)
  {
    b[c.0][c.1]
  }

  /** Position `x` comes before position `y` in row-major order. */
  predicate Before(x: Coordinate, y: Coordinate)
  {
    x.0 < y.0 || (x.0 == y.0 && x.1 < y.1)
  }

  function Abs(n: int): nat
  {
    if n < 0 then -n else n
  }

  /** Two positions at Manhattan distance 1. */
  predicate Adjacent(x: Coordinate, y: Coordinate)
  {
    Abs(x.0 - y.0) + Abs(x.1 - y.1) == 1
  }

  // ---------------------------------------------------------------------------
  // The empty space

  /** The first 0 of a row. */
  function ZeroInRow(cells: seq<int>): (k: Option<nat>)
    ensures k.Some? ==> k.value < |cells| && cells[k.value] == 0
  {
    if cells == [] then None
    else if cells[0] == 0 then Some(0)
    else match ZeroInRow(cells[1..])
      case None => None
      case Some(j) => Some(j + 1)
  }

  /** No 0 comes before the one `ZeroInRow` finds, and there is none when it finds none. */
  lemma {:induction false} ZeroInRowFirst(cells: seq<int>, j: int)
    requires 0 <= j < |cells| && cells[j] == 0
    ensures ZeroInRow(cells).Some? && ZeroInRow(cells).value <= j
  {
    if cells[0] != 0 {
      ZeroInRowFirst(cells[1..], j - 1);
    }
  }

  /** The first 0 in row-major order among the rows from `row` on. */
  function ZeroFrom(b: Grid, row: nat): (r: Option<Coordinate>)
    requires row <= |b|
    ensures r.Some? ==> row <= r.value.0 && InGrid(b, r.value) && Cell(b, r.value) == 0
    decreases |b| - row
  {
    if row == |b| then None
    else match ZeroInRow(b[row])
      case Some(k) => Some((row, k))
      case None => ZeroFrom(b, row + 1)
  }

  /** No 0 from row `row` on comes before the one `ZeroFrom` finds, and there is none
      when it finds none. */
  lemma {:induction false} ZeroFromFirst(b: Grid, row: nat, c: Coordinate)
    requires row <= c.0 && InGrid(b, c) && Cell(b, c) == 0
    ensures ZeroFrom(b, row).Some? && !Before(c, ZeroFrom(b, row).value)
    decreases |b| - row
  {
    if row < c.0 {
      if ZeroInRow(b[row]).None? {
        ZeroFromFirst(b, row + 1, c);
      }
    } else {
      ZeroInRowFirst(b[row], c.1);
    }
  }

  /** The empty space the constructor records: the first 0 in row-major order, if any. */
  function FirstZero(b: Grid): (r: Option<Coordinate>)
    ensures r.Some? ==> InGrid(b, r.value) && Cell(b, r.value) == 0
  {
    ZeroFrom(b, 0)
  }

  /** Every 0 of the board is at or after the one `FirstZero` finds; in particular
      `FirstZero` finds one whenever the board has one. */
  lemma FirstZeroFirst(b: Grid, c: Coordinate)
    requires InGrid(b, c) && Cell(b, c) == 0
    ensures FirstZero(b).Some? && !Before(c, FirstZero(b).value)
  {
    ZeroFromFirst(b, 0, c);
  }

  /** A 0 with no 0 before it is the one `FirstZero` finds. */
  lemma FirstZeroUnique(b: Grid, c: Coordinate)
    requires InGrid(b, c) && Cell(b, c) == 0
    requires forall d :: InGrid(b, d) && Before(d, c) ==> Cell(b, d) != 0
    ensures FirstZero(b) == Some(c)
  {
    FirstZeroFirst(b, c);
    var r := FirstZero(b).value;
    assert !Before(r, c);
  }

  /** `e` is the only empty space of the board. */
  ghost predicate SingleZero(b: Grid, e: Coordinate)
  {
    InGrid(b, e) && Cell(b, e) == 0 && forall c :: InGrid(b, c) && Cell(b, c) == 0 ==> c == e
  }

  // ---------------------------------------------------------------------------
  // Moves

  /** The board with cell `c` set to `v`. */
  function Put(b: Grid, c: Coordinate, v: int): Grid
    requires InGrid(b, c)
  {
    b[c.0 := b[c.0][c.1 := v]]
  }

  /** The board after the tile at `t` slides into the empty space `e`. */
  function Slid(b: Grid, e: Coordinate, t: Coordinate): Grid
    requires InGrid(b, e) && InGrid(b, t)
  {
    Put(Put(b, e, Cell(b, t)), t, 0)
  }

  /** Sliding keeps the shape, writes the tile into `e` and 0 into `t`, and leaves every
      other cell as it was. */
  lemma SlidCells(b: Grid, e: Coordinate, t: Coordinate)
    requires InGrid(b, e) && InGrid(b, t)
    ensures var r := Slid(b, e, t);
      && |r| == |b| && (forall i :: 0 <= i < |b| ==> |r[i]| == |b[i]|)
      && InGrid(r, e) && InGrid(r, t) && Cell(r, t) == 0 && (e != t ==> Cell(r, e) == Cell(b, t))
      && forall c :: InGrid(b, c) && c != e && c != t ==> InGrid(r, c) && Cell(r, c) == Cell(b, c)
  {
  }

  /** Sliding keeps a board rectangular. */
  lemma SlidRectangular(b: Grid, e: Coordinate, t: Coordinate)
    requires Rectangular(b) && InGrid(b, e) && InGrid(b, t)
    ensures Rectangular(Slid(b, e, t))
  {
    SlidCells(b, e, t);
  }

  /** The cells orthogonally next to `e`, in the order north, south, west, east,
      that lie on the board. */
  function Targets(b: Grid, e: Coordinate): (ts: seq<Coordinate>)
    requires Rectangular(b) && InGrid(b, e)
    ensures |ts| <= 4
  {
    North(b, e) + South(b, e) + West(b, e) + East(b, e)
  }

  /** The target cells are exactly the cells on the board next to `e`. */
  lemma TargetsExactly(b: Grid, e: Coordinate, t: Coordinate)
    requires Rectangular(b) && InGrid(b, e)
    ensures t in Targets(b, e) <==> InGrid(b, t) && Adjacent(e, t)
  {
    if Adjacent(e, t) {
      assert t == (e.0 - 1, e.1) || t == (e.0 + 1, e.1) || t == (e.0, e.1 - 1) || t == (e.0, e.1 + 1);
    }
  }

  function North(b: Grid, e: Coordinate): seq<Coordinate>
  {
    if e.0 > 0 then [(e.0 - 1, e.1)] else []
  }

  function South(b: Grid, e: Coordinate): seq<Coordinate>
  {
    if e.0 < |b| - 1 then [(e.0 + 1, e.1)] else []
  }

  function West(b: Grid, e: Coordinate): seq<Coordinate>
  {
    if e.1 > 0 then [(e.0, e.1 - 1)] else []
  }

  function East(b: Grid, e: Coordinate): seq<Coordinate>
    requires |b| > 0
  {
    if e.1 < |b[0]| - 1 then [(e.0, e.1 + 1)] else []
  }

  /** The boards one slide away, one per target cell of the empty space in the order
      of `Targets`; a board that is not rectangular or has no empty space has none. */
  function NeighborBoards(b: Grid): (ns: seq<Grid>)
    ensures |ns| <= 4
  {
    if !Rectangular(b) then []
    else match FirstZero(b)
      case None => []
      case Some(e) =>
        var ts := Targets(b, e);
        seq(|ts|, i requires 0 <= i < |ts| => Slid(b, e, ts[i]))
  }

  /** Neighbour `i` slides the tile at target cell `i` into the empty space. */
  lemma NeighborBoardsSlides(b: Grid, e: Coordinate)
    requires Rectangular(b) && FirstZero(b) == Some(e)
    ensures |NeighborBoards(b)| == |Targets(b, e)|
    ensures forall i :: 0 <= i < |Targets(b, e)| ==> NeighborBoards(b)[i] == Slid(b, e, Targets(b, e)[i])
  {
  }

  /** The neighbours are exactly the slides of an adjacent tile into the empty space. */
  lemma NeighborBoardsExactly(b: Grid, m: Grid)
    requires Rectangular(b) && FirstZero(b).Some?
    ensures var e := FirstZero(b).value;
      m in NeighborBoards(b) <==> exists t :: InGrid(b, t) && Adjacent(e, t) && m == Slid(b, e, t)
  {
    var e := FirstZero(b).value;
    var ts := Targets(b, e);
    var ns := NeighborBoards(b);
    if t :| InGrid(b, t) && Adjacent(e, t) && m == Slid(b, e, t) {
      TargetsExactly(b, e, t);
      var i :| 0 <= i < |ts| && ts[i] == t;
      assert ns[i] == m;
    }
    if m in ns {
      var i :| 0 <= i < |ns| && ns[i] == m;
      TargetsExactly(b, e, ts[i]);
    }
  }

  /** Every move can be undone: with a single empty space, sliding tile `t` in leaves `t`
      as the single empty space, and the original board is among the new board's
      neighbours. */
  lemma SlideReversible(b: Grid, e: Coordinate, t: Coordinate)
    requires Rectangular(b) && SingleZero(b, e) && InGrid(b, t) && Adjacent(e, t)
    ensures var r := Slid(b, e, t);
      && Rectangular(r) && SingleZero(r, t) && FirstZero(r) == Some(t)
      && Slid(r, t, e) == b && b in NeighborBoards(r)
  {
    var r := Slid(b, e, t);
    SlidCells(b, e, t);
    SlidRectangular(b, e, t);
    assert Cell(b, t) != 0;
    forall c | InGrid(r, c) && Cell(r, c) == 0 ensures c == t {
      assert InGrid(b, c);
    }
    FirstZeroUnique(r, t);
    var back := Slid(r, t, e);
    SlidCells(r, t, e);
    assert |back| == |b|;
    forall i | 0 <= i < |b| ensures back[i] == b[i] {
      assert |back[i]| == |b[i]|;
      forall j | 0 <= j < |b[i]| ensures back[i][j] == b[i][j] {
        assert Cell(back, (i, j)) == Cell(b, (i, j));
      }
    }
    assert Adjacent(t, e);
    NeighborBoardsExactly(r, b);
  }

  /** What a user move writes: the source cell becomes empty and the target gets the
      piece. */
  function Moved(b: Grid, from: Coordinate, to: Coordinate): Grid
    requires InGrid(b, from) && InGrid(b, to)
  {
    Put(Put(b, from, 0), to, Cell(b, from))
  }

  /** A user move keeps the shape, empties the source cell, puts the piece on the target
      cell and leaves every other cell as it was. */
  lemma MovedCells(b: Grid, from: Coordinate, to: Coordinate)
    requires InGrid(b, from) && InGrid(b, to) && from != to
    ensures var m := Moved(b, from, to);
      && |m| == |b| && (forall i :: 0 <= i < |b| ==> |m[i]| == |b[i]|)
      && Cell(m, from) == 0 && Cell(m, to) == Cell(b, from)
      && forall c :: InGrid(b, c) && c != from && c != to ==> InGrid(m, c) && Cell(m, c) == Cell(b, c)
  {
  }

  /** A user move is legal when source and target are adjacent and the target is empty. */
  predicate LegalMove(b: Grid, from: Coordinate, to: Coordinate)
    requires InGrid(b, from) && (Adjacent(from, to) ==> InGrid(b, to))
  {
    Adjacent(from, to) && Cell(b, to) == 0
  }

  /** On a board with a single empty space a legal user move is one of the moves the
      solver generates. */
  lemma LegalMoveIsNeighbor(b: Grid, from: Coordinate, to: Coordinate)
    requires Rectangular(b) && InGrid(b, from) && InGrid(b, to)
    requires FirstZero(b).Some? && SingleZero(b, FirstZero(b).value)
    requires LegalMove(b, from, to)
    ensures to == FirstZero(b).value
    ensures Moved(b, from, to) == Slid(b, to, from) && Moved(b, from, to) in NeighborBoards(b)
  {
    var m, r := Moved(b, from, to), Slid(b, to, from);
    SlidCells(b, to, from);
    assert from != to;
    assert |m| == |r|;
    forall i | 0 <= i < |m| ensures m[i] == r[i] {
      assert |m[i]| == |r[i]|;
      forall j | 0 <= j < |m[i]| ensures m[i][j] == r[i][j] {
        assert InGrid(b, (i, j));
      }
    }
    assert Adjacent(to, from);
    NeighborBoardsExactly(b, m);
  }

  // ---------------------------------------------------------------------------
  // The goal test

  /** The cells in row-major order. */
  function Flat(b: Grid): seq<int>
  {
    if b == [] then [] else Flat(b[..|b| - 1]) + b[|b| - 1]
  }

  /** The cells of the first `r` rows come first among the cells of the first `s` rows. */
  lemma {:induction false} FlatPrefix(b: Grid, r: nat, s: nat)
    requires r <= s <= |b|
    ensures Flat(b[..r]) <= Flat(b[..s])
    decreases s - r
  {
    if r < s {
      FlatPrefix(b, r, s - 1);
      assert b[..s][..s - 1] == b[..s - 1];
    }
  }

  /** A rectangular board has rows times columns cells. */
  lemma {:induction false} FlatLength(b: Grid, r: nat)
    requires Rectangular(b) && 0 < |b| && r <= |b|
    ensures |Flat(b[..r])| == r * |b[0]|
  {
    if r > 0 {
      FlatLength(b, r - 1);
      assert b[..r][..r - 1] == b[..r - 1];
    }
  }

  /** The cells read 1, 2, ... in row-major order, except that the last cell may also
      be empty; a board without cells counts as solved. */
  predicate Solved(b: Grid)
  {
    var f := Flat(b);
    && (forall k :: 0 <= k < |f| - 1 ==> f[k] == k + 1)
    && (|f| > 0 ==> f[|f| - 1] == |f| || f[|f| - 1] == 0)
  }

  /** The sliding-tiles puzzle as the solver sees it. */
  function SlidePuzzle(): Puzzle<Grid>
  {
    Puzzle(Solved, NeighborBoards)
  }

  // ---------------------------------------------------------------------------
  // The configuration object

  /** The outcome of building a configuration: the board has no empty space, which the
      program reports with an `IllegalStateException`. */
  datatype Construction = Constructed(config: SlideConfig) | NoEmptySpace

  class SlideConfig {
    const board: Grid
    const emptySpace: Coordinate
    var lastMoveSuccessful: bool

    ghost predicate Valid()
    {
      Rectangular(board) && FirstZero(board) == Some(emptySpace)
    }

    /** Scans the rows, and each row's columns, for the first 0; `None` where the
        program throws. */
    static method FindEmptySpace(board: Grid) returns (r: Option<Coordinate>)
      requires Rectangular(board)
      ensures r == FirstZero(board)
    {
      for row := 0 to |board|
        invariant forall c :: InGrid(board, c) && c.0 < row ==> Cell(board, c) != 0
      {
        for col := 0 to |board[0]|
          invariant forall j :: 0 <= j < col ==> board[row][j] != 0
        {
          if board[row][col] == 0 {
            FirstZeroUnique(board, (row, col));
            return Some((row, col));
          }
        }
      }
      return None;
    }

    /** A configuration over a board that has an empty space. */
    constructor (board: Grid)
      requires Rectangular(board) && FirstZero(board).Some?
      ensures Valid() && this.board == board && lastMoveSuccessful
    {
      var e := FindEmptySpace(board);
      this.board := board;
      this.emptySpace := e.value;
      lastMoveSuccessful := true;
    }

    /** Builds a configuration, or reports that the board has no empty space. */
    static method Create(board: Grid) returns (r: Construction)
      requires Rectangular(board)
      ensures FirstZero(board).None? <==> r.NoEmptySpace?
      ensures r.Constructed? ==> (fresh(r.config) && r.config.Valid() && r.config.board == board
                                  && r.config.lastMoveSuccessful)
    {
      var e := FindEmptySpace(board);
      if e.None? {
        return NoEmptySpace;
      }
      var c := new SlideConfig(board);
      return Constructed(c);
    }

    /** A copy of the board with the tile at (`newRow`, `newCol`) slid into the empty
        space, as a new configuration. */
    method SlideBlock(newRow: int, newCol: int) returns (c: SlideConfig)
      requires Valid() && InGrid(board, (newRow, newCol))
      ensures fresh(c) && c.Valid() && c.board == Slid(board, emptySpace, (newRow, newCol))
      ensures c.lastMoveSuccessful
    {
      var newBoard: Grid := [];
      for row := 0 to |board|
        invariant newBoard == board[..row]
      {
        newBoard := newBoard + [board[row]];
      }
      assert newBoard == board;
      var numToSlide := newBoard[newRow][newCol];
      newBoard := newBoard[emptySpace.0 := newBoard[emptySpace.0][emptySpace.1 := numToSlide]];
      newBoard := newBoard[newRow := newBoard[newRow][newCol := 0]];
      assert newBoard == Slid(board, emptySpace, (newRow, newCol));
      SlidRectangular(board, emptySpace, (newRow, newCol));
      SlidCells(board, emptySpace, (newRow, newCol));
      FirstZeroFirst(newBoard, (newRow, newCol));
      c := new SlideConfig(newBoard);
    }

    /** The configurations one slide away, in the order north, south, west, east. */
    method GetNeighbors() returns (ns: seq<SlideConfig>)
      requires Valid()
      ensures |ns| == |NeighborBoards(board)|
      ensures forall c :: c in ns ==> fresh(c) && c.Valid()
      ensures forall i :: 0 <= i < |ns| ==> ns[i].board == NeighborBoards(board)[i]
    {
      DirectionsOnBoard();
      var north := SlideFrom(North(board, emptySpace));
      var south := SlideFrom(South(board, emptySpace));
      var west := SlideFrom(West(board, emptySpace));
      var east := SlideFrom(East(board, emptySpace));
      ns := north + south + west + east;
      MatchesNeighbors(north, south, west, east);
    }

    /** Slides towards the four directions, in order, are the neighbour boards. */
    lemma MatchesNeighbors(north: seq<SlideConfig>, south: seq<SlideConfig>, west: seq<SlideConfig>, east: seq<SlideConfig>)
      requires Valid()
      requires Matches(north, North(board, emptySpace)) && Matches(south, South(board, emptySpace))
      requires Matches(west, West(board, emptySpace)) && Matches(east, East(board, emptySpace))
      ensures var ns := north + south + west + east;
        && |ns| == |NeighborBoards(board)|
        && forall i :: 0 <= i < |ns| ==> ns[i].board == NeighborBoards(board)[i]
    {
      MatchesAppend(north, North(board, emptySpace), south, South(board, emptySpace));
      MatchesAppend(north + south, North(board, emptySpace) + South(board, emptySpace), west, West(board, emptySpace));
      MatchesAppend(north + south + west, North(board, emptySpace) + South(board, emptySpace) + West(board, emptySpace),
                    east, East(board, emptySpace));
      NeighborBoardsSlides(board, emptySpace);
    }

    /** Configuration `i` of `ns` holds the slide from target cell `i` of `ts`. */
    ghost predicate Matches(ns: seq<SlideConfig>, ts: seq<Coordinate>)
      requires Valid()
    {
      && |ns| == |ts|
      && forall i :: 0 <= i < |ns| ==>
           InGrid(board, ts[i]) && ns[i].board == Slid(board, emptySpace, ts[i])
    }

    lemma MatchesAppend(ns: seq<SlideConfig>, ts: seq<Coordinate>, ms: seq<SlideConfig>, us: seq<Coordinate>)
      requires Valid() && Matches(ns, ts) && Matches(ms, us)
      ensures Matches(ns + ms, ts + us)
    {
    }

    /** The cells `ts` lie on the board. */
    ghost predicate OnBoard(ts: seq<Coordinate>)
    {
      forall i :: 0 <= i < |ts| ==> InGrid(board, ts[i])
    }

    /** Each direction names at most one cell, on the board. */
    lemma DirectionsOnBoard()
      requires Valid()
      ensures |North(board, emptySpace)| <= 1 && OnBoard(North(board, emptySpace))
      ensures |South(board, emptySpace)| <= 1 && OnBoard(South(board, emptySpace))
      ensures |West(board, emptySpace)| <= 1 && OnBoard(West(board, emptySpace))
      ensures |East(board, emptySpace)| <= 1 && OnBoard(East(board, emptySpace))
    {
    }

    /** The new configuration sliding the tile at the one cell of `ts` into the empty
        space, if `ts` names a cell, and none otherwise. */
    method SlideFrom(ts: seq<Coordinate>) returns (ns: seq<SlideConfig>)
      requires Valid() && |ts| <= 1 && OnBoard(ts)
      ensures forall c :: c in ns ==> fresh(c) && c.Valid()
      ensures Matches(ns, ts)
    {
      ns := [];
      if |ts| == 1 {
        var c := SlideBlock(ts[0].0, ts[0].1);
        ns := [c];
      }
    }

    /** A user move of the piece at (`fromRow`, `fromCol`) to (`toRow`, `toCol`): a new
        configuration when the move is legal; otherwise this configuration, with the
        last move marked unsuccessful. */
    method MovePiece(fromRow: int, fromCol: int, toRow: int, toCol: int) returns (c: SlideConfig)
      requires Valid() && InGrid(board, (fromRow, fromCol))
      requires Adjacent((fromRow, fromCol), (toRow, toCol)) ==> InGrid(board, (toRow, toCol))
      modifies this
      ensures LegalMove(board, (fromRow, fromCol), (toRow, toCol)) ==>
        && fresh(c) && c.Valid() && c.board == Moved(board, (fromRow, fromCol), (toRow, toCol))
        && c.lastMoveSuccessful && lastMoveSuccessful == old(lastMoveSuccessful)
      ensures !LegalMove(board, (fromRow, fromCol), (toRow, toCol)) ==> c == this && !lastMoveSuccessful
    {
      var newBoard: Grid := [];
      for row := 0 to |board|
        invariant newBoard == board[..row]
      {
        newBoard := newBoard + [board[row]];
      }
      assert newBoard == board;
      var pieceValue := newBoard[fromRow][fromCol];
      if Abs(fromRow - toRow) + Abs(fromCol - toCol) == 1 && newBoard[toRow][toCol] == 0 {
        newBoard := newBoard[fromRow := newBoard[fromRow][fromCol := 0]];
        newBoard := newBoard[toRow := newBoard[toRow][toCol := pieceValue]];
        var m := Moved(board, (fromRow, fromCol), (toRow, toCol));
        assert newBoard == m;
        assert Rectangular(m) by {
          assert |m[0]| == |board[0]|;
        }
        assert InGrid(m, (fromRow, fromCol)) && Cell(m, (fromRow, fromCol)) == 0;
        FirstZeroFirst(m, (fromRow, fromCol));
        c := new SlideConfig(newBoard);
      } else {
        lastMoveSuccessful := false;
        c := this;
      }
    }

    /** Reads the cells in row-major order, expecting 1, 2, ...; the first mismatch
        decides: it is a solution only if it is the last cell and that cell is empty. */
    method IsSolution() returns (r: bool)
      requires Valid()
      ensures r == Solved(board)
    {
      FlatLength(board, |board|);
      assert board[..|board|] == board;
      var expectedValue := 1;
      for row := 0 to |board|
        invariant expectedValue == |Flat(board[..row])| + 1
        invariant forall k :: 0 <= k < |Flat(board[..row])| ==> Flat(board[..row])[k] == k + 1
      {
        FlatPrefix(board, row + 1, |board|);
        assert board[..row + 1][..row] == board[..row];
        ghost var done := Flat(board[..row]);
        assert Flat(board[..row + 1]) == done + board[row];
        for col := 0 to |board[row]|
          invariant expectedValue == |done| + col + 1
          invariant forall j :: 0 <= j < col ==> board[row][j] == |done| + j + 1
        {
          assert Flat(board)[|done| + col] == board[row][col];
          if board[row][col] != expectedValue {
            FlatLength(board, row + 1);
            if expectedValue == |board| * |board[row]| && board[row][col] == 0 {
              return true;
            }
            return false;
          }
          expectedValue := expectedValue + 1;
        }
      }
      return true;
    }

    /** Configurations are equal when their boards hold the same cells. */
    predicate Equals(other: SlideConfig): (r: bool)
      ensures r <==> board == other.board
    {
      this == other || board == other.board
    }
  }
}
