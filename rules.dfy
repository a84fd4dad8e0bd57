/** Move legality and move execution (main.cpp:52-98, 139-140). Both
    predicates only read the board, so they are stated over its Grid value. */
module Rules {
  import opened Board

  /** The piece type of the player whose turn it is. */
  function Own(player1Turn: bool): Cell {
    if player1Turn then PlayerOne else PlayerTwo
  }

  /** The piece type of the other player. */
  function Opponent(player1Turn: bool): Cell {
    if player1Turn then PlayerTwo else PlayerOne
  }

  /** Row direction of the player to move: player 1 moves down the board
      (increasing row), player 2 up. */
  function Forward(player1Turn: bool): int {
    if player1Turn then 1 else -1
  }

  function Abs(n: int): nat {
    if n < 0 then -n else n
  }

  /** A normal move from (x1, y1) to (x2, y2): one row forward, one column
      sideways, onto an empty cell. */
  function IsValidMove(g: Grid, x1: int, y1: int, x2: int, y2: int, player1Turn: bool): (r: bool)
    ensures r <==>
      InBounds(x2, y2) && At(g, x2, y2) == Empty &&
      x2 - x1 == Forward(player1Turn) && Abs(y2 - y1) == 1
  {
    if !InBounds(x2, y2) then false
    else if At(g, x2, y2) != Empty then false
    else
      var dx := x2 - x1;
      var dy := Abs(y2 - y1);
      if player1Turn && dx != 1 then false
      else if !player1Turn && dx != -1 then false
      else dy == 1
  }

  /** The cell jumped over when going from (x1, y1) to (x2, y2): the integer
      midpoint. Both sums are non-negative for in-bounds cells, so the C
      division (truncating) and Dafny's agree. */
  function MidX(x1: int, x2: int): int { (x1 + x2) / 2 }
  function MidY(y1: int, y2: int): int { (y1 + y2) / 2 }

  lemma MidInBounds(x1: int, y1: int, x2: int, y2: int)
    requires InBounds(x1, y1) && InBounds(x2, y2)
    ensures InBounds(MidX(x1, x2), MidY(y1, y2))
  {
  }

  /** A capture from (x1, y1) to (x2, y2): two rows forward onto an empty
      cell with an opponent piece on the midpoint. The column distance is
      not checked, exactly as in the source. */
  function IsCaptureMove(g: Grid, x1: int, y1: int, x2: int, y2: int, player1Turn: bool): (r: bool)
    requires InBounds(x1, y1)
    ensures r <==>
      InBounds(x2, y2) && At(g, x2, y2) == Empty &&
      x2 - x1 == 2 * Forward(player1Turn) &&
      At(g, x1 + Forward(player1Turn), MidY(y1, y2)) == Opponent(player1Turn)
  {
    if !InBounds(x2, y2) then false
    else if At(g, x2, y2) != Empty then false
    else
      var dx := x2 - x1;
      var opponent := if player1Turn then PlayerTwo else PlayerOne;
      if (player1Turn && dx != 2) || (!player1Turn && dx != -2) then false
      else if dx == 2 || dx == -2 then
        At(g, MidX(x1, x2), MidY(y1, y2)) == opponent
      else false
  }

  /** A cell is never both the target of a capture and of a normal move. */
  lemma MovesExclusive(g: Grid, x1: int, y1: int, x2: int, y2: int, player1Turn: bool)
    requires InBounds(x1, y1)
    ensures !(IsCaptureMove(g, x1, y1, x2, y2, player1Turn) && IsValidMove(g, x1, y1, x2, y2, player1Turn))
  {
  }

  /** A step one row backwards is never a normal move, and two rows
      backwards never a capture. */
  lemma NoBackwardMoves(g: Grid, x1: int, y1: int, y2: int, player1Turn: bool)
    requires InBounds(x1, y1)
    ensures !IsValidMove(g, x1, y1, x1 - Forward(player1Turn), y2, player1Turn)
    ensures !IsCaptureMove(g, x1, y1, x1 - 2 * Forward(player1Turn), y2, player1Turn)
  {
  }

  /** The board after capturePiece: the midpoint is emptied, the destination
      takes what the source then holds, and the source is emptied, in that
      order. */
  function Captured(g: Grid, x1: int, y1: int, x2: int, y2: int): Grid
    requires InBounds(x1, y1) && InBounds(x2, y2)
  {
    MidInBounds(x1, y1, x2, y2);
    var g1 := g[Idx(MidX(x1, x2), MidY(y1, y2)) := Empty];
    var g2 := g1[Idx(x2, y2) := g1[Idx(x1, y1)]];
    g2[Idx(x1, y1) := Empty]
  }

  /** capturePiece: writes the three cells of a capture in place. */
  method CapturePiece(board: array2<Cell>, x1: int, y1: int, x2: int, y2: int)
    requires board.Length0 == Size && board.Length1 == Size
    requires InBounds(x1, y1) && InBounds(x2, y2)
    modifies board
    ensures Cells(board) == Captured(old(Cells(board)), x1, y1, x2, y2)
  {
    ghost var g := Cells(board);
    var midX := (x1 + x2) / 2;
    var midY := (y1 + y2) / 2;
    board[midX, midY] := Empty;
    board[x2, y2] := board[x1, y1];
    board[x1, y1] := Empty;
    ghost var r := Captured(g, x1, y1, x2, y2);
    forall x, y | InBounds(x, y)
      ensures board[x, y] == At(r, x, y)
    {
      IdxInjective(x, y, x1, y1);
      IdxInjective(x, y, x2, y2);
      IdxInjective(x, y, midX, midY);
      IdxInjective(x1, y1, x2, y2);
      IdxInjective(x1, y1, midX, midY);
    }
    CellsEqual(board, r);
  }

  /** The board after a normal move: the destination takes the source's
      piece and the source is emptied. */
  function Moved(g: Grid, x1: int, y1: int, x2: int, y2: int): Grid
    requires InBounds(x1, y1) && InBounds(x2, y2)
  {
    var g1 := g[Idx(x2, y2) := g[Idx(x1, y1)]];
    g1[Idx(x1, y1) := Empty]
  }

  /** What a capture two rows away does to each cell: the jumped cell and the
      source become empty, the destination holds the moving piece, and every
      other cell is unchanged. */
  lemma CaptureEffect(g: Grid, x1: int, y1: int, x2: int, y2: int)
    requires InBounds(x1, y1) && InBounds(x2, y2) && Abs(x2 - x1) == 2
    ensures InBounds(MidX(x1, x2), MidY(y1, y2))
    ensures At(Captured(g, x1, y1, x2, y2), MidX(x1, x2), MidY(y1, y2)) == Empty
    ensures At(Captured(g, x1, y1, x2, y2), x2, y2) == At(g, x1, y1)
    ensures At(Captured(g, x1, y1, x2, y2), x1, y1) == Empty
    ensures forall x, y ::
      InBounds(x, y) && (x, y) != (x1, y1) && (x, y) != (x2, y2) && (x, y) != (MidX(x1, x2), MidY(y1, y2))
      ==> At(Captured(g, x1, y1, x2, y2), x, y) == At(g, x, y)
  {
  }

  /** What a normal move does to each cell: the source becomes empty, the
      destination holds the moving piece, every other cell is unchanged. */
  lemma MoveEffect(g: Grid, x1: int, y1: int, x2: int, y2: int)
    requires InBounds(x1, y1) && InBounds(x2, y2) && (x1, y1) != (x2, y2)
    ensures At(Moved(g, x1, y1, x2, y2), x2, y2) == At(g, x1, y1)
    ensures At(Moved(g, x1, y1, x2, y2), x1, y1) == Empty
    ensures forall x, y :: InBounds(x, y) && (x, y) != (x1, y1) && (x, y) != (x2, y2) ==>
      At(Moved(g, x1, y1, x2, y2), x, y) == At(g, x, y)
  {
  }

  /** Overwriting one cell moves one unit of count from its old content to
      the new one. */
  lemma CountAfterUpdate(s: seq<Cell>, k: int, v: Cell, t: Cell)
    requires 0 <= k < |s|
    ensures CountOf(s[k := v], t) ==
      CountOf(s, t) - (if s[k] == t then 1 else 0) + (if v == t then 1 else 0)
  {
    CountIsMultiplicity(s, t);
    CountIsMultiplicity(s[k := v], t);
  }

  /** A capture accepted by isCaptureMove removes exactly one opponent piece
      and leaves the mover's count as it was, whatever the source cell holds. */
  lemma CaptureCounts(g: Grid, x1: int, y1: int, x2: int, y2: int, player1Turn: bool)
    requires InBounds(x1, y1)
    requires IsCaptureMove(g, x1, y1, x2, y2, player1Turn)
    ensures CountOf(Captured(g, x1, y1, x2, y2), Opponent(player1Turn)) == CountOf(g, Opponent(player1Turn)) - 1
    ensures CountOf(Captured(g, x1, y1, x2, y2), Own(player1Turn)) == CountOf(g, Own(player1Turn))
  {
    MidInBounds(x1, y1, x2, y2);
    var m, d, s := Idx(MidX(x1, x2), MidY(y1, y2)), Idx(x2, y2), Idx(x1, y1);
    IdxInjective(MidX(x1, x2), MidY(y1, y2), x2, y2);
    IdxInjective(MidX(x1, x2), MidY(y1, y2), x1, y1);
    IdxInjective(x1, y1, x2, y2);
    var g1 := g[m := Empty];
    var g2 := g1[d := g1[s]];
    var opp, own := Opponent(player1Turn), Own(player1Turn);
    CountAfterUpdate(g, m, Empty, opp);
    CountAfterUpdate(g1, d, g1[s], opp);
    CountAfterUpdate(g2, s, Empty, opp);
    CountAfterUpdate(g, m, Empty, own);
    CountAfterUpdate(g1, d, g1[s], own);
    CountAfterUpdate(g2, s, Empty, own);
  }

  /** A normal move accepted by isValidMove changes no piece count. */
  lemma MoveKeepsCounts(g: Grid, x1: int, y1: int, x2: int, y2: int, player1Turn: bool, t: Cell)
    requires InBounds(x1, y1)
    requires IsValidMove(g, x1, y1, x2, y2, player1Turn)
    ensures CountOf(Moved(g, x1, y1, x2, y2), t) == CountOf(g, t)
  {
    var d, s := Idx(x2, y2), Idx(x1, y1);
    IdxInjective(x1, y1, x2, y2);
    var g1 := g[d := g[s]];
    CountAfterUpdate(g, d, g[s], t);
    CountAfterUpdate(g1, s, Empty, t);
  }

  /** Pieces leave their starting rows: from the opening layout, the 'o' on
      (2, 1) may step into row 3. */
  lemma OpeningMoveLeavesStartRows()
    ensures IsValidMove(InitialGrid(), 2, 1, 3, 2, true)
    ensures At(Moved(InitialGrid(), 2, 1, 3, 2), 3, 2) == PlayerOne
  {
    MoveEffect(InitialGrid(), 2, 1, 3, 2);
  }

  /** Every piece stands on a dark square ((row + column) odd). */
  ghost predicate OnDarkSquares(g: Grid) {
    forall x, y :: InBounds(x, y) && At(g, x, y) != Empty ==> (x + y) % 2 == 1
  }

  lemma InitialOnDarkSquares()
    ensures OnDarkSquares(InitialGrid())
  {
  }

  /** A normal move keeps every piece on a dark square. */
  lemma MoveKeepsDarkSquares(g: Grid, x1: int, y1: int, x2: int, y2: int, player1Turn: bool)
    requires InBounds(x1, y1) && OnDarkSquares(g)
    requires IsValidMove(g, x1, y1, x2, y2, player1Turn)
    ensures OnDarkSquares(Moved(g, x1, y1, x2, y2))
  {
    MoveEffect(g, x1, y1, x2, y2);
  }

  /** Because the column distance of a capture is not checked, a capture can
      put a piece on a light square: from (2, 3) over an 'x' on (3, 2) to
      (4, 2), one column sideways. */
  lemma CaptureCanLeaveDarkSquares()
    ensures var g := InitialGrid()[Idx(3, 2) := PlayerTwo];
      OnDarkSquares(g) &&
      IsCaptureMove(g, 2, 3, 4, 2, true) &&
      At(Captured(g, 2, 3, 4, 2), 4, 2) == PlayerOne &&
      !OnDarkSquares(Captured(g, 2, 3, 4, 2))
  {
  }
}
