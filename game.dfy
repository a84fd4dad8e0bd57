/** The turn and selection state machine driven by board clicks, and the win
    check with restart of the game loop (main.cpp:114-158, 276-321). */
module Game {
  import opened Board
  import opened Rules

  /** What the game loop keeps between clicks; (-1, -1) means no selection. */
  datatype GameState = GameState(grid: Grid, player1Turn: bool, selectedX: int, selectedY: int)

  /** The source's test for "a piece is selected". */
  predicate HasSelection(s: GameState) {
    s.selectedX != -1 && s.selectedY != -1
  }

  /** The invariant of the loop: either nothing is selected, or the selected
      cell is on the board and holds a piece of the player to move. */
  predicate Consistent(s: GameState) {
    (s.selectedX == -1 && s.selectedY == -1) ||
    (InBounds(s.selectedX, s.selectedY) && At(s.grid, s.selectedX, s.selectedY) == Own(s.player1Turn))
  }

  /** A fresh game: the opening layout, player 1 to move, nothing selected. */
  function InitialState(): (s: GameState)
    ensures Consistent(s)
  {
    GameState(InitialGrid(), true, -1, -1)
  }

  predicate CaptureApplies(s: GameState, x: int, y: int)
    requires Consistent(s)
  {
    InBounds(x, y) && HasSelection(s) &&
    IsCaptureMove(s.grid, s.selectedX, s.selectedY, x, y, s.player1Turn)
  }

  /** A click at (x, y) applies a capture or a normal move from the selection. */
  predicate MoveApplies(s: GameState, x: int, y: int)
    requires Consistent(s)
  {
    CaptureApplies(s, x, y) ||
    (InBounds(x, y) && HasSelection(s) &&
     IsValidMove(s.grid, s.selectedX, s.selectedY, x, y, s.player1Turn))
  }

  /** The state after a click on board cell (x, y) (row x, column y): off the
      board nothing happens; with a selection a capture is tried first, then
      a normal move, the turn passes only if one was applied, and the
      selection is dropped; without one, a click on a piece of the player to
      move selects it. */
  function Click(s: GameState, x: int, y: int): (r: GameState)
    requires Consistent(s)
    ensures Consistent(r)
  {
    if !InBounds(x, y) then s
    else if HasSelection(s) then
      var sx, sy, p1 := s.selectedX, s.selectedY, s.player1Turn;
      if IsCaptureMove(s.grid, sx, sy, x, y, p1) then
        GameState(Captured(s.grid, sx, sy, x, y), !p1, -1, -1)
      else if IsValidMove(s.grid, sx, sy, x, y, p1) then
        GameState(Moved(s.grid, sx, sy, x, y), !p1, -1, -1)
      else
        GameState(s.grid, p1, -1, -1)
    else if At(s.grid, x, y) == Own(s.player1Turn) then
      s.(selectedX := x, selectedY := y)
    else s
  }

  /** A click off the board changes nothing at all. */
  lemma OffBoardClickIgnored(s: GameState, x: int, y: int)
    requires Consistent(s) && !InBounds(x, y)
    ensures Click(s, x, y) == s
  {
  }

  /** Without a selection a click changes neither the board nor the turn, and
      selects (x, y) exactly when it holds a piece of the player to move. */
  lemma ClickWithoutSelection(s: GameState, x: int, y: int)
    requires Consistent(s) && !HasSelection(s)
    ensures Click(s, x, y).grid == s.grid
    ensures Click(s, x, y).player1Turn == s.player1Turn
    ensures HasSelection(Click(s, x, y)) <==> InBounds(x, y) && At(s.grid, x, y) == Own(s.player1Turn)
    ensures HasSelection(Click(s, x, y)) ==> Click(s, x, y).selectedX == x && Click(s, x, y).selectedY == y
  {
  }

  /** With a selection, a click on the board always drops it, the turn
      passes exactly when a capture or a normal move was applied, a capture
      is tried first, and a normal move carries the piece over and empties
      its source. */
  lemma ClickWithSelection(s: GameState, x: int, y: int)
    requires Consistent(s) && HasSelection(s) && InBounds(x, y)
    ensures Click(s, x, y).selectedX == -1 && Click(s, x, y).selectedY == -1
    ensures Click(s, x, y).player1Turn != s.player1Turn <==> MoveApplies(s, x, y)
    ensures CaptureApplies(s, x, y) ==>
      Click(s, x, y).grid == Captured(s.grid, s.selectedX, s.selectedY, x, y)
    ensures !CaptureApplies(s, x, y) && IsValidMove(s.grid, s.selectedX, s.selectedY, x, y, s.player1Turn) ==>
      Click(s, x, y).grid == Moved(s.grid, s.selectedX, s.selectedY, x, y) &&
      At(Click(s, x, y).grid, x, y) == Own(s.player1Turn) &&
      At(Click(s, x, y).grid, s.selectedX, s.selectedY) == Empty
  {
  }

  /** The turn passes exactly when the board changes: an applied move always
      puts the mover's piece on a cell that was empty. */
  lemma TurnPassesIffBoardChanges(s: GameState, x: int, y: int)
    requires Consistent(s)
    ensures Click(s, x, y).player1Turn != s.player1Turn <==> Click(s, x, y).grid != s.grid
    ensures Click(s, x, y).player1Turn != s.player1Turn <==> MoveApplies(s, x, y)
  {
  }

  /** A click never changes the count of the mover's pieces, and lowers the
      opponent's count by one exactly when it applies a capture. */
  lemma ClickCounts(s: GameState, x: int, y: int)
    requires Consistent(s)
    ensures CountOf(Click(s, x, y).grid, Own(s.player1Turn)) == CountOf(s.grid, Own(s.player1Turn))
    ensures CountOf(Click(s, x, y).grid, Opponent(s.player1Turn)) ==
      CountOf(s.grid, Opponent(s.player1Turn)) - (if CaptureApplies(s, x, y) then 1 else 0)
  {
    if InBounds(x, y) && HasSelection(s) {
      var sx, sy, p1 := s.selectedX, s.selectedY, s.player1Turn;
      if IsCaptureMove(s.grid, sx, sy, x, y, p1) {
        CaptureCounts(s.grid, sx, sy, x, y, p1);
      } else if IsValidMove(s.grid, sx, sy, x, y, p1) {
        MoveKeepsCounts(s.grid, sx, sy, x, y, p1, Own(p1));
        MoveKeepsCounts(s.grid, sx, sy, x, y, p1, Opponent(p1));
      }
    }
  }

  datatype Outcome = InProgress | PlayerOneWins | PlayerTwoWins

  /** The win check of the game loop: no 'o' left means player 2 wins, tested
      first; otherwise no 'x' left means player 1 wins. */
  function Winner(g: Grid): (o: Outcome)
    ensures o == PlayerTwoWins <==> PlayerOne !in g
    ensures o == PlayerOneWins <==> PlayerOne in g && PlayerTwo !in g
    ensures o == InProgress <==> PlayerOne in g && PlayerTwo in g
  {
    CountZeroIffAbsent(g, PlayerOne);
    CountZeroIffAbsent(g, PlayerTwo);
    if CountOf(g, PlayerOne) == 0 then PlayerTwoWins
    else if CountOf(g, PlayerTwo) == 0 then PlayerOneWins
    else InProgress
  }

  /** A fresh game is in progress. */
  lemma InitialInProgress()
    ensures Winner(InitialGrid()) == InProgress
  {
    InitialCounts();
    CountZeroIffAbsent(InitialGrid(), PlayerOne);
    CountZeroIffAbsent(InitialGrid(), PlayerTwo);
  }

  /** The state after the win check: a won game restarts (the win message is
      taken as acknowledged), any other state is kept. */
  function AfterWinCheck(s: GameState): (r: GameState)
    ensures Winner(s.grid) == InProgress ==> r == s
    ensures Winner(s.grid) != InProgress ==> r == InitialState() && Winner(r.grid) == InProgress
  {
    InitialInProgress();
    if Winner(s.grid) == InProgress then s else InitialState()
  }

  /** The mutable state of playGame: the board array, whose turn it is and
      the selected cell. */
  class Game {
    var board: array2<Cell>
    var player1Turn: bool
    var selectedX: int
    var selectedY: int

    ghost predicate Valid()
      reads this, board
    {
      board.Length0 == Size && board.Length1 == Size && Consistent(View())
    }

    function View(): GameState
      requires board.Length0 == Size && board.Length1 == Size
      reads this, board
    {
      GameState(Cells(board), player1Turn, selectedX, selectedY)
    }

    /** The start of playGame: a board with the opening layout, player 1 to
        move, nothing selected. */
    constructor ()
      ensures Valid() && fresh(board)
      ensures View() == InitialState()
    {
      var b := new Cell[Size, Size];
      InitializeBoard(b);
      board := b;
      player1Turn := true;
      selectedX := -1;
      selectedY := -1;
    }

    /** handleMouseClick, given the board cell (x, y) that was clicked. */
    method HandleClick(x: int, y: int)
      requires Valid()
      modifies this, board
      ensures Valid() && board == old(board)
      ensures View() == Click(old(View()), x, y)
    {
      ghost var s := View();
      if 0 <= x < Size && 0 <= y < Size {
        var currentPlayer := if player1Turn then PlayerOne else PlayerTwo;
        if selectedX != -1 && selectedY != -1 {
          var validMove := false;
          if IsCaptureMove(Cells(board), selectedX, selectedY, x, y, player1Turn) {
            CapturePiece(board, selectedX, selectedY, x, y);
            validMove := true;
          } else if IsValidMove(Cells(board), selectedX, selectedY, x, y, player1Turn) {
            board[x, y] := board[selectedX, selectedY];
            board[selectedX, selectedY] := Empty;
            validMove := true;
            MoveWritten(s.grid, selectedX, selectedY, x, y);
          }
          if validMove {
            player1Turn := !player1Turn;
          }
          selectedX := -1;
          selectedY := -1;
        } else if board[x, y] == currentPlayer {
          selectedX := x;
          selectedY := y;
        }
      }
    }

    /** The two writes of a normal move leave the board seen as Moved. */
    lemma MoveWritten(g: Grid, x1: int, y1: int, x2: int, y2: int)
      requires board.Length0 == Size && board.Length1 == Size
      requires InBounds(x1, y1) && InBounds(x2, y2) && (x1, y1) != (x2, y2)
      requires board[x2, y2] == At(g, x1, y1) && board[x1, y1] == Empty
      requires forall x, y :: InBounds(x, y) && (x, y) != (x1, y1) && (x, y) != (x2, y2) ==>
        board[x, y] == At(g, x, y)
      ensures Cells(board) == Moved(g, x1, y1, x2, y2)
    {
      MoveEffect(g, x1, y1, x2, y2);
      CellsEqual(board, Moved(g, x1, y1, x2, y2));
    }

    /** The restart after a win: the opening layout, player 1 to move, nothing
        selected, whatever the state was. */
    method Restart()
      requires board.Length0 == Size && board.Length1 == Size
      modifies this, board
      ensures Valid() && board == old(board)
      ensures View() == InitialState()
    {
      InitializeBoard(board);
      player1Turn := true;
      selectedX := -1;
      selectedY := -1;
    }

    /** The win check of the game loop, followed by the restart that the
        acknowledged win message triggers. */
    method CheckWinner() returns (outcome: Outcome)
      requires Valid()
      modifies this, board
      ensures Valid() && board == old(board)
      ensures outcome == Winner(old(View()).grid)
      ensures View() == AfterWinCheck(old(View()))
    {
      var ones := CountPieces(board, PlayerOne);
      if ones == 0 {
        outcome := PlayerTwoWins;
        Restart();
      } else {
        var twos := CountPieces(board, PlayerTwo);
        if twos == 0 {
          outcome := PlayerOneWins;
          Restart();
        } else {
          outcome := InProgress;
        }
      }
    }
  }
}
