/**
 * The board view: the cells of a game laid out as five offset rows of five
 * hexagons. Each hexagon reports its position on the board, row times five
 * plus column, when clicked.
 */
module GameBoard {
  import opened Wrappers
  import opened Board

  /** What one hexagon is given. */
  datatype HexCellProps = HexCellProps(letter: char, owner: Owner, clickId: int, isSelected: bool)

  /** Number of rows, and the most cells a row takes. */
  const RowCount: nat := 5
  const RowLength: nat := 5

  /**
   * `Array.prototype.slice(start, end)` for `0 <= start <= end`: the elements
   * at positions `start` up to `end`, clamped to the length, so a slice past
   * the end is short or empty rather than an error.
   */
  function Slice<T>(s: seq<T>, start: nat, end: nat): (r: seq<T>)
    requires start <= end
    ensures |r| == if end <= |s| then end - start else if start <= |s| then |s| - start else 0
    ensures forall k :: 0 <= k < |r| ==> r[k] == s[start + k]
  {
    if start >= |s| then [] else s[start..if end <= |s| then end else |s|]
  }

  /** The hexagon for board position `id`; it is selected when the selected id is `id`. */
  function Hex(board: seq<Cell>, selectedCellId: Option<int>, id: nat): HexCellProps
    requires id < |board|
  {
    HexCellProps(board[id].letter, board[id].owner, id, selectedCellId == Some(id))
  }

  /**
   * Row `i`: the board's cells `5i .. 5i+4` as far as the board reaches, the
   * cell in column `j` reporting `5i + j`.
   */
  function RowCells(board: seq<Cell>, i: nat, selectedCellId: Option<int>): (row: seq<HexCellProps>)
    ensures |row| == if |board| >= (i + 1) * RowLength then RowLength
                     else if |board| > i * RowLength then |board| - i * RowLength
                     else 0
    ensures forall j :: 0 <= j < |row| ==>
              i * RowLength + j < |board| && row[j] == Hex(board, selectedCellId, i * RowLength + j)
  {
    var rowCells := Slice(board, i * RowLength, (i + 1) * RowLength);
    seq(|rowCells|, j requires 0 <= j < |rowCells| =>
      HexCellProps(rowCells[j].letter, rowCells[j].owner, i * RowLength + j,
                   selectedCellId == Some(i * RowLength + j)))
  }

  /** The grid the board view renders: rows `0..4`. */
  function Grid(board: seq<Cell>, selectedCellId: Option<int>): seq<seq<HexCellProps>>
  {
    seq(RowCount, i requires 0 <= i < RowCount => RowCells(board, i, selectedCellId))
  }

  /** Builds the rows one by one, as the view does. */
  method CreateHexGrid(board: seq<Cell>, selectedCellId: Option<int>) returns (rows: seq<seq<HexCellProps>>)
    ensures |rows| == RowCount
    ensures rows == Grid(board, selectedCellId)
  {
    rows := [];
    for i := 0 to RowCount
      invariant |rows| == i
      invariant forall k :: 0 <= k < i ==> rows[k] == RowCells(board, k, selectedCellId)
    {
      var rowCells := RowCells(board, i, selectedCellId);
      rows := rows + [rowCells];
    }
  }

  /** The rows read one after the other. */
  function Flatten(rows: seq<seq<HexCellProps>>): seq<HexCellProps>
  {
    if rows == [] then [] else Flatten(rows[..|rows| - 1]) + rows[|rows| - 1]
  }

  /** The hexagons of board positions `0 .. n-1`, in order. */
  function BoardView(board: seq<Cell>, selectedCellId: Option<int>, n: nat): (v: seq<HexCellProps>)
    requires n <= |board|
    ensures |v| == n
    ensures forall k :: 0 <= k < n ==> v[k] == Hex(board, selectedCellId, k)
  {
    seq(n, k requires 0 <= k < n => Hex(board, selectedCellId, k))
  }

  function Min(a: int, b: int): int
  {
    if a <= b then a else b
  }

  /** The first `n` rows, read in order, are the hexagons of the first `5n` positions. */
  lemma {:induction false} GridPrefix(board: seq<Cell>, selectedCellId: Option<int>, n: nat)
    requires n <= RowCount
    ensures Flatten(Grid(board, selectedCellId)[..n]) ==
            BoardView(board, selectedCellId, Min(|board|, n * RowLength))
  {
    var g := Grid(board, selectedCellId);
    if n > 0 {
      GridPrefix(board, selectedCellId, n - 1);
      assert g[..n][..n - 1] == g[..n - 1];
      var before := BoardView(board, selectedCellId, Min(|board|, (n - 1) * RowLength));
      var row := RowCells(board, n - 1, selectedCellId);
      assert Flatten(g[..n]) == before + row;
      var after := BoardView(board, selectedCellId, Min(|board|, n * RowLength));
      assert |before + row| == |after|;
      forall k | 0 <= k < |after|
        ensures (before + row)[k] == after[k]
      {
        if k >= |before| {
          assert row[k - |before|] == Hex(board, selectedCellId, (n - 1) * RowLength + (k - |before|));
        }
      }
    }
  }

  /**
   * The grid shows the board in order: read row by row it is exactly the
   * hexagons of positions `0 .. min(|board|, 25) - 1`, each reporting its own
   * position and carrying that cell's letter and owner.
   */
  lemma GridCoversBoard(board: seq<Cell>, selectedCellId: Option<int>)
    ensures Flatten(Grid(board, selectedCellId)) ==
            BoardView(board, selectedCellId, Min(|board|, RowCount * RowLength))
  {
    var g := Grid(board, selectedCellId);
    GridPrefix(board, selectedCellId, RowCount);
    assert g[..RowCount] == g;
  }

  /**
   * On a 25-cell board every position is reported by exactly one hexagon:
   * position `k` is shown, with its cell's letter and owner, in row `k / 5`
   * at column `k % 5`, and two hexagons reporting the same position are the
   * same hexagon.
   */
  lemma EachPositionOnce(board: seq<Cell>, selectedCellId: Option<int>)
    requires |board| == RowCount * RowLength
    ensures forall k: nat :: k < |board| ==>
              k / RowLength < RowCount && k % RowLength < |Grid(board, selectedCellId)[k / RowLength]| &&
              Grid(board, selectedCellId)[k / RowLength][k % RowLength] == Hex(board, selectedCellId, k)
    ensures var g := Grid(board, selectedCellId);
            forall i1, j1, i2, j2 ::
              (0 <= i1 < |g| && 0 <= j1 < |g[i1]| && 0 <= i2 < |g| && 0 <= j2 < |g[i2]| &&
               g[i1][j1].clickId == g[i2][j2].clickId) ==>
                i1 == i2 && j1 == j2
  {
    forall k: nat | k < |board|
      ensures k / RowLength < RowCount && k % RowLength < |Grid(board, selectedCellId)[k / RowLength]|
      ensures Grid(board, selectedCellId)[k / RowLength][k % RowLength] == Hex(board, selectedCellId, k)
    {
      var i, j := k / RowLength, k % RowLength;
      assert Grid(board, selectedCellId)[i] == RowCells(board, i, selectedCellId);
      assert i * RowLength + j == k;
    }
  }

  /**
   * When every cell's id is its position, as on a board the entry screen
   * builds, the id a hexagon reports finds exactly the cell it shows.
   */
  lemma ClickFindsCell(board: seq<Cell>, selectedCellId: Option<int>, i: nat, j: nat)
    requires IdsAreIndices(board)
    requires i < RowCount && j < |Grid(board, selectedCellId)[i]|
    ensures var hex := Grid(board, selectedCellId)[i][j];
            FindCell(board, hex.clickId) == Some(board[hex.clickId]) &&
            board[hex.clickId].letter == hex.letter && board[hex.clickId].owner == hex.owner
  {
    var hex := Grid(board, selectedCellId)[i][j];
    IndicesAreDistinct(board);
    FindCellAt(board, hex.clickId);
  }
}
