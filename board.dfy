/** A small Option type used throughout the model. */
module Wrappers {
  datatype Option<+T> = None | Some(value: T)
}

/**
 * The board of the letters game: 25 hexagonal cells, each holding one
 * letter and owned by the green team, the purple team or nobody.
 *
 * The source keeps owners and teams as the strings "green", "purple" and
 * "none"; here they are a datatype, and a team is an owner other than
 * `Unowned`, since the same strings serve as team names and as cell owners.
 */
module Board {
  import opened Wrappers

  datatype Owner = Unowned | Green | Purple

  type Team = o: Owner | o != Unowned witness Green

  datatype Cell = Cell(id: int, letter: char, owner: Owner)

  /** The team that plays next: purple after green, green after purple. */
  function Toggle(t: Team): (r: Team)
    ensures r != t
  {
    if t == Green then Purple else Green
  }

  /** Number of cells owned by `o`; a team's score is the number of cells it owns. */
  function Count(board: seq<Cell>, o: Owner): (n: nat)
    ensures n <= |board|
    ensures n == 0 <==> forall i :: 0 <= i < |board| ==> board[i].owner != o
  {
    if board == [] then 0
    else (if board[0].owner == o then 1 else 0) + Count(board[1..], o)
  }

  /** Every cell is owned by exactly one of the three owners. */
  lemma {:induction false} CountsPartition(board: seq<Cell>)
    ensures Count(board, Green) + Count(board, Purple) + Count(board, Unowned) == |board|
  {
    if board != [] {
      CountsPartition(board[1..]);
    }
  }

  /**
   * The board after answering: every cell whose id is `id` gets owner `o`,
   * every other cell is kept as it was.
   */
  function SetOwner(board: seq<Cell>, id: int, o: Owner): (r: seq<Cell>)
    ensures |r| == |board|
    ensures forall i :: 0 <= i < |board| ==>
              r[i].id == board[i].id && r[i].letter == board[i].letter
    ensures forall i :: 0 <= i < |board| && board[i].id == id ==> r[i].owner == o
    ensures forall i :: 0 <= i < |board| && board[i].id != id ==> r[i] == board[i]
  {
    seq(|board|, i requires 0 <= i < |board| =>
      if board[i].id == id then board[i].(owner := o) else board[i])
  }

  /** No two cells share an id. */
  ghost predicate IdsDistinct(board: seq<Cell>)
  {
    forall i, j :: 0 <= i < j < |board| ==> board[i].id != board[j].id
  }

  /** Cell `i` has id `i`, as the boards built at session start do. */
  ghost predicate IdsAreIndices(board: seq<Cell>)
  {
    forall i :: 0 <= i < |board| ==> board[i].id == i
  }

  lemma IndicesAreDistinct(board: seq<Cell>)
    requires IdsAreIndices(board)
    ensures IdsDistinct(board)
  {
  }

  /** A board on which no cell has id `id` is left as it was by `SetOwner`. */
  lemma SetOwnerAbsent(board: seq<Cell>, id: int, o: Owner)
    requires forall i :: 0 <= i < |board| ==> board[i].id != id
    ensures SetOwner(board, id, o) == board
  {
  }

  /**
   * On a board with distinct ids, giving cell `k` the owner `o` moves at most
   * one cell between owners: the count of `c` loses the cell's old owner and
   * gains its new one.
   */
  lemma {:induction false} SetOwnerCount(board: seq<Cell>, k: nat, o: Owner, c: Owner)
    requires k < |board| && IdsDistinct(board)
    ensures Count(SetOwner(board, board[k].id, o), c)
         == Count(board, c) - (if board[k].owner == c then 1 else 0) + (if o == c then 1 else 0)
  {
    var id := board[k].id;
    var r := SetOwner(board, id, o);
    assert r[1..] == SetOwner(board[1..], id, o);
    if k == 0 {
      SetOwnerAbsent(board[1..], id, o);
    } else {
      SetOwnerCount(board[1..], k - 1, o, c);
    }
  }

  /** The first cell, in board order, whose id is `id`, if any. */
  function FindCell(board: seq<Cell>, id: int): (r: Option<Cell>)
    ensures r.None? <==> forall i :: 0 <= i < |board| ==> board[i].id != id
    ensures r.Some? ==> r.value.id == id && r.value in board
    ensures r.Some? ==> exists k :: FirstWithId(board, id, r.value, k)
  {
    if board == [] then None
    else if board[0].id == id then assert FirstWithId(board, id, board[0], 0); Some(board[0])
    else
      var rest := FindCell(board[1..], id);
      if rest.Some? then FirstWithIdShift(board, id, rest.value); rest else rest
  }

  /** The first cell with `id` is at `k`: every earlier cell has another id. */
  ghost predicate FirstWithId(board: seq<Cell>, id: int, c: Cell, k: int)
  {
    0 <= k < |board| && c == board[k] && forall j :: 0 <= j < k ==> board[j].id != id
  }

  /** A first match among the later cells is the first match of the board when the head lacks the id. */
  lemma FirstWithIdShift(board: seq<Cell>, id: int, c: Cell)
    requires board != [] && board[0].id != id
    requires exists k :: FirstWithId(board[1..], id, c, k)
    ensures exists k :: FirstWithId(board, id, c, k)
  {
    var k :| FirstWithId(board[1..], id, c, k);
    assert FirstWithId(board, id, c, k + 1);
  }

  /** With distinct ids the cell found is the one holding that id. */
  lemma {:induction false} FindCellAt(board: seq<Cell>, k: nat)
    requires k < |board| && IdsDistinct(board)
    ensures FindCell(board, board[k].id) == Some(board[k])
  {
    if k > 0 {
      FindCellAt(board[1..], k - 1);
    }
  }
}
