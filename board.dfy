/** The 8x8 checkers board: cell contents, the row-major view of the board
    array, the opening layout and piece counting (main.cpp:6-50, 100-112). */
module Board {

  /** Side length of the board (SIZE in main.cpp). */
  const Size: int := 8

  /** Number of cells on the board. */
  const CellCount: int := 64

  /** Contents of one cell: ' ' (Empty), 'o' (PlayerOne) or 'x' (PlayerTwo). */
  datatype Cell = Empty | PlayerOne | PlayerTwo

  /** A board as a value: its 64 cells in row-major order. */
  type Grid = g: seq<Cell> | |g| == CellCount witness seq(CellCount, _ => Empty)

  predicate InBounds(x: int, y: int) {
    0 <= x < Size && 0 <= y < Size
  }

  /** Position of cell (x, y) (row x, column y) in a Grid. */
  function Idx(x: int, y: int): (k: nat)
    requires InBounds(x, y)
    ensures k < CellCount
    ensures k / Size == x && k % Size == y
  {
    x * Size + y
  }

  function At(g: Grid, x: int, y: int): Cell
    requires InBounds(x, y)
  {
    g[Idx(x, y)]
  }

  /** Two in-bounds coordinates name the same cell exactly when their positions agree. */
  lemma IdxInjective(x1: int, y1: int, x2: int, y2: int)
    requires InBounds(x1, y1) && InBounds(x2, y2)
    ensures Idx(x1, y1) == Idx(x2, y2) <==> x1 == x2 && y1 == y2
  {
  }

  /** The board array seen as a Grid. */
  function Cells(board: array2<Cell>): (g: Grid)
    requires board.Length0 == Size && board.Length1 == Size
    reads board
    ensures forall x, y :: InBounds(x, y) ==> g[Idx(x, y)] == board[x, y]
  {
    seq(CellCount, k requires 0 <= k < CellCount reads board => board[k / Size, k % Size])
  }

  /** A board array whose every cell agrees with a Grid is seen as that Grid. */
  lemma CellsEqual(board: array2<Cell>, g: Grid)
    requires board.Length0 == Size && board.Length1 == Size
    requires forall x, y :: InBounds(x, y) ==> board[x, y] == At(g, x, y)
    ensures Cells(board) == g
  {
  }

  /** The cell the opening layout puts at (i, j): 'o' on rows 0-2 and 'x' on
      rows 5-7 wherever i + j is odd, empty everywhere else. */
  function InitialCell(i: int, j: int): Cell {
    if (i + j) % 2 == 1 && 0 <= i < 3 then PlayerOne
    else if (i + j) % 2 == 1 && 5 <= i < Size then PlayerTwo
    else Empty
  }

  function InitialGrid(): (g: Grid)
    ensures forall x, y :: InBounds(x, y) ==> At(g, x, y) == InitialCell(x, y)
  {
    seq(CellCount, k requires 0 <= k < CellCount => InitialCell(k / Size, k % Size))
  }

  /** Fills the board with the opening layout: first every cell is cleared,
      then rows 0-2 get 'o' and rows 5-7 get 'x' on the odd squares. The
      result does not depend on what the board held before, so calling it
      twice gives the same board as calling it once. */
  method InitializeBoard(board: array2<Cell>)
    requires board.Length0 == Size && board.Length1 == Size
    modifies board
    ensures Cells(board) == InitialGrid()
  {
    for i := 0 to Size
      invariant forall x, y :: 0 <= x < i && 0 <= y < Size ==> board[x, y] == Empty
    {
      for j := 0 to Size
        invariant forall x, y :: 0 <= x < i && 0 <= y < Size ==> board[x, y] == Empty
        invariant forall y :: 0 <= y < j ==> board[i, y] == Empty
      {
        board[i, j] := Empty;
      }
    }
    for i := 0 to 3
      invariant forall x, y :: 0 <= x < i && 0 <= y < Size ==> board[x, y] == InitialCell(x, y)
      invariant forall x, y :: i <= x < Size && 0 <= y < Size ==> board[x, y] == Empty
    {
      for j := 0 to Size
        invariant forall x, y :: 0 <= x < i && 0 <= y < Size ==> board[x, y] == InitialCell(x, y)
        invariant forall y :: 0 <= y < j ==> board[i, y] == InitialCell(i, y)
        invariant forall x, y :: i <= x < Size && j <= y < Size ==> board[x, y] == Empty
        invariant forall x, y :: i < x < Size && 0 <= y < Size ==> board[x, y] == Empty
      {
        if (i + j) % 2 == 1 {
          board[i, j] := PlayerOne;
        }
      }
    }
    for i := 5 to Size
      invariant forall x, y :: 0 <= x < i && 0 <= y < Size ==> board[x, y] == InitialCell(x, y)
      invariant forall x, y :: i <= x < Size && 0 <= y < Size ==> board[x, y] == Empty
    {
      for j := 0 to Size
        invariant forall x, y :: 0 <= x < i && 0 <= y < Size ==> board[x, y] == InitialCell(x, y)
        invariant forall y :: 0 <= y < j ==> board[i, y] == InitialCell(i, y)
        invariant forall x, y :: i <= x < Size && j <= y < Size ==> board[x, y] == Empty
        invariant forall x, y :: i < x < Size && 0 <= y < Size ==> board[x, y] == Empty
      {
        if (i + j) % 2 == 1 {
          board[i, j] := PlayerTwo;
        }
      }
    }
    CellsEqual(board, InitialGrid());
  }

  /** Number of cells of s that hold t, counted from the left as the loop of
      countPieces does. */
  function CountOf(s: seq<Cell>, t: Cell): (n: nat)
    ensures n <= |s|
  {
    if s == [] then 0
    else CountOf(s[..|s| - 1], t) + (if s[|s| - 1] == t then 1 else 0)
  }

  /** The count is the multiplicity of t in the multiset of cells. */
  lemma {:induction false} CountIsMultiplicity(s: seq<Cell>, t: Cell)
    ensures CountOf(s, t) == multiset(s)[t]
  {
    if s != [] {
      CountIsMultiplicity(s[..|s| - 1], t);
      assert s == s[..|s| - 1] + [s[|s| - 1]];
    }
  }

  /** The three counts of a board add up to its 64 cells. */
  lemma {:induction false} CountsPartition(s: seq<Cell>)
    ensures CountOf(s, Empty) + CountOf(s, PlayerOne) + CountOf(s, PlayerTwo) == |s|
  {
    if s != [] {
      CountsPartition(s[..|s| - 1]);
    }
  }

  /** One row of the opening layout: empty cells with piece c on the odd
      columns (offset 1) or on the even columns (offset 0). */
  function LayoutRow(c: Cell, offset: int): seq<Cell> {
    if offset == 1 then [Empty, c, Empty, c, Empty, c, Empty, c]
    else [c, Empty, c, Empty, c, Empty, c, Empty]
  }

  /** The piece of row i of the opening layout. */
  function RowPiece(i: int): Cell {
    if i < 3 then PlayerOne else if i < 5 then Empty else PlayerTwo
  }

  /** Whether the pieces of row i of the opening layout sit on the odd
      columns (1) or the even columns (0). */
  function RowOffset(i: int): int {
    if i % 2 == 0 then 1 else 0
  }

  lemma LayoutRowAt(c: Cell, offset: int, j: int)
    requires offset == 0 || offset == 1
    requires 0 <= j < Size
    ensures LayoutRow(c, offset)[j] == if j % 2 == offset then c else Empty
  {
  }

  lemma InitialRow(i: int)
    requires 0 <= i < Size
    ensures InitialGrid()[i * Size..i * Size + Size] == LayoutRow(RowPiece(i), RowOffset(i))
  {
    var row := InitialGrid()[i * Size..i * Size + Size];
    forall j | 0 <= j < Size
      ensures row[j] == LayoutRow(RowPiece(i), RowOffset(i))[j]
    {
      assert row[j] == At(InitialGrid(), i, j) == InitialCell(i, j);
      assert (i + j) % 2 == 1 <==> j % 2 == RowOffset(i);
      LayoutRowAt(RowPiece(i), RowOffset(i), j);
    }
  }

  lemma {:induction false} CountOfAppend(a: seq<Cell>, b: seq<Cell>, t: Cell)
    ensures CountOf(a + b, t) == CountOf(a, t) + CountOf(b, t)
  {
    CountIsMultiplicity(a, t);
    CountIsMultiplicity(b, t);
    CountIsMultiplicity(a + b, t);
  }

  lemma LayoutRowCount(c: Cell, offset: int, t: Cell)
    ensures CountOf(LayoutRow(c, offset), t) == (if c == t then 4 else 0) + (if t == Empty then 4 else 0)
  {
    var pair := if offset == 1 then [Empty, c] else [c, Empty];
    assert LayoutRow(c, offset) == pair + pair + pair + pair;
    CountIsMultiplicity(pair, t);
    CountOfAppend(pair, pair, t);
    CountOfAppend(pair + pair, pair, t);
    CountOfAppend(pair + pair + pair, pair, t);
  }

  /** Counting the opening layout row by row: the first i + 1 rows hold what
      the first i rows hold plus row i. */
  lemma InitialPrefixStep(i: int, t: Cell)
    requires 0 <= i < Size
    ensures CountOf(InitialGrid()[..(i + 1) * Size], t) ==
      CountOf(InitialGrid()[..i * Size], t) + (if RowPiece(i) == t then 4 else 0) + (if t == Empty then 4 else 0)
  {
    var g := InitialGrid();
    assert g[..(i + 1) * Size] == g[..i * Size] + g[i * Size..i * Size + Size];
    CountOfAppend(g[..i * Size], g[i * Size..i * Size + Size], t);
    InitialRow(i);
    LayoutRowCount(RowPiece(i), RowOffset(i), t);
  }

  /** A count is zero exactly when no cell holds that piece type. */
  lemma {:induction false} CountZeroIffAbsent(s: seq<Cell>, t: Cell)
    ensures CountOf(s, t) == 0 <==> t !in s
  {
    if s != [] {
      CountZeroIffAbsent(s[..|s| - 1], t);
      assert s == s[..|s| - 1] + [s[|s| - 1]];
    }
  }

  /** The opening layout holds 12 'o', 12 'x' and 40 empty cells. */
  lemma InitialCounts()
    ensures CountOf(InitialGrid(), PlayerOne) == 12
    ensures CountOf(InitialGrid(), PlayerTwo) == 12
    ensures CountOf(InitialGrid(), Empty) == 40
  {
    var g := InitialGrid();
    assert g[..0] == [];
    assert g[..8 * Size] == g;
    for i := 0 to Size
      invariant CountOf(g[..i * Size], PlayerOne) == 4 * (if i < 3 then i else 3)
      invariant CountOf(g[..i * Size], PlayerTwo) == 4 * (if i < 5 then 0 else i - 5)
      invariant CountOf(g[..i * Size], Empty) == 4 * i + 4 * (if i < 3 then 0 else if i < 5 then i - 3 else 2)
    {
      InitialPrefixStep(i, PlayerOne);
      InitialPrefixStep(i, PlayerTwo);
      InitialPrefixStep(i, Empty);
    }
  }

  /** Extending a prefix by one cell adds that cell to the count. */
  lemma CountOfPrefix(s: seq<Cell>, k: nat, t: Cell)
    requires k < |s|
    ensures CountOf(s[..k + 1], t) == CountOf(s[..k], t) + (if s[k] == t then 1 else 0)
  {
    assert s[..k + 1][..k] == s[..k];
  }

  /** Counts the cells of the board that hold t, row by row. */
  method CountPieces(board: array2<Cell>, t: Cell) returns (count: int)
    requires board.Length0 == Size && board.Length1 == Size
    ensures count == CountOf(Cells(board), t)
    ensures 0 <= count <= CellCount
  {
    ghost var g := Cells(board);
    count := 0;
    for i := 0 to Size
      invariant count == CountOf(g[..i * Size], t)
    {
      for j := 0 to Size
        invariant count == CountOf(g[..i * Size + j], t)
      {
        CountOfPrefix(g, i * Size + j, t);
        assert g[Idx(i, j)] == board[i, j];
        if board[i, j] == t {
          count := count + 1;
        }
      }
    }
    assert g[..CellCount] == g;
  }
}
