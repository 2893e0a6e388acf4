/**
  * The board-cell model of the Go engine (games/go/entities.py).
  *
  * The source has three tile classes: `tile` (an empty point, owner None),
  * `stone` (owned by a player) and `wall` (owner None, produced only by an
  * out-of-range lookup). Every tile remembers its own row and column. Here a
  * tile is a value carrying its coordinates and its kind; the back-reference
  * from a stone to the game that holds the board becomes an explicit `Board`
  * parameter.
  */
module GoEntities {
  import opened Wrappers

  /** Go.BOARD_X and Go.BOARD_Y. */
  const BOARD_X: int := 9
  const BOARD_Y: int := 9

  /** A chat member; players are compared by identity, modelled as their id. */
  type PlayerId = int

  /** Which class a tile object is an instance of. */
  datatype Kind = Blank | Stone(owner: PlayerId) | Wall

  datatype Tile = Tile(row: int, col: int, kind: Kind)

  /** The board: a list of BOARD_Y rows of BOARD_X tiles. */
  type Board = seq<seq<Tile>>

  predicate InBounds(row: int, col: int) {
    0 <= row < BOARD_Y && 0 <= col < BOARD_X
  }

  /** The shape every board keeps: the tile at [r][c] knows it is at (r, c),
      and no wall is ever stored. */
  ghost predicate ValidBoard(b: Board) {
    |b| == BOARD_Y &&
    (forall r :: 0 <= r < BOARD_Y ==> |b[r]| == BOARD_X) &&
    (forall r, c :: 0 <= r < BOARD_Y && 0 <= c < BOARD_X ==>
       b[r][c].row == r && b[r][c].col == c && !b[r][c].kind.Wall?)
  }

  /** The `owner` attribute: a player for stones, None for empty tiles and walls. */
  function Owner(t: Tile): (o: Option<PlayerId>)
    ensures o.Some? <==> t.kind.Stone?
  {
    match t.kind
    case Stone(p) => Some(p)
    case _ => None
  }

  predicate IsOwnedBy(t: Tile, check: PlayerId) {
    Owner(t).Some? && Owner(t).value == check
  }

  predicate IsNotOwnedBy(t: Tile, check: PlayerId) {
    Owner(t).Some? && Owner(t).value != check
  }

  /** `get_board_tile`: a wall for coordinates off the board, else the board's tile. */
  function GetBoardTile(b: Board, row: int, col: int): (t: Tile)
    requires ValidBoard(b)
    ensures t.row == row && t.col == col
    ensures t.kind.Wall? <==> !InBounds(row, col)
    ensures InBounds(row, col) ==> t == b[row][col]
  {
    if row < 0 || row >= BOARD_Y || col < 0 || col >= BOARD_X then Tile(row, col, Wall)
    else b[row][col]
  }

  /** Row and column steps to the top, right, bottom and left neighbours. */
  const DROW: seq<int> := [-1, 0, 1, 0]
  const DCOL: seq<int> := [0, 1, 0, -1]

  /** `stone.liberties`: the four orthogonal neighbours, top, right, bottom, left. */
  function Liberties(b: Board, t: Tile): (r: seq<Tile>)
    requires ValidBoard(b)
    ensures |r| == 4
    ensures forall i :: 0 <= i < 4 ==>
      r[i].row == t.row + DROW[i] && r[i].col == t.col + DCOL[i] &&
      (r[i].kind.Wall? <==> !InBounds(t.row + DROW[i], t.col + DCOL[i]))
  {
    [GetBoardTile(b, t.row - 1, t.col),
     GetBoardTile(b, t.row, t.col + 1),
     GetBoardTile(b, t.row + 1, t.col),
     GetBoardTile(b, t.row, t.col - 1)]
  }

  /** A liberty on the board is the board's own tile at that point (a stone
      or an empty tile), so liberties see the current board. */
  lemma LibertiesReadBoard(b: Board, t: Tile)
    requires ValidBoard(b)
    ensures forall i :: 0 <= i < 4 && InBounds(t.row + DROW[i], t.col + DCOL[i]) ==>
      Liberties(b, t)[i] == b[t.row + DROW[i]][t.col + DCOL[i]]
  {
  }

  /** Every liberty is one orthogonal step away (never a diagonal), and the
      four liberties are four different points. */
  lemma LibertiesAreOrthogonal(b: Board, t: Tile)
    requires ValidBoard(b)
    ensures forall i :: 0 <= i < 4 ==>
      Abs(Liberties(b, t)[i].row - t.row) + Abs(Liberties(b, t)[i].col - t.col) == 1
    ensures forall i, j :: 0 <= i < j < 4 ==>
      (Liberties(b, t)[i].row, Liberties(b, t)[i].col) != (Liberties(b, t)[j].row, Liberties(b, t)[j].col)
  {
  }

  function Abs(x: int): nat { if x < 0 then -x else x }

  /** Liberty lookup is symmetric: the tile found in direction i of `t` sees
      `t` again in the opposite direction, when both are on the board. */
  lemma LibertySymmetric(b: Board, t: Tile, i: int)
    requires ValidBoard(b) && 0 <= i < 4
    requires InBounds(t.row, t.col) && t == b[t.row][t.col]
    requires InBounds(Liberties(b, t)[i].row, Liberties(b, t)[i].col)
    ensures Liberties(b, Liberties(b, t)[i])[(i + 2) % 4] == t
  {
  }

  /** Empty tiles and walls are neither owned nor not-owned by anybody; a
      stone is exactly one of the two for any player. */
  lemma OwnershipDichotomy(t: Tile, p: PlayerId)
    ensures !t.kind.Stone? ==> !IsOwnedBy(t, p) && !IsNotOwnedBy(t, p)
    ensures t.kind.Stone? ==> IsOwnedBy(t, p) != IsNotOwnedBy(t, p)
  {
  }

  /** `stone.__eq__`: same owner and same hash of the coordinates. The hash
      `z_order_hash` is not part of this model; it is taken to be injective
      on board coordinates, so the hash comparison is a coordinate comparison. */
  predicate StoneEquals(s: Tile, other: Tile) {
    s.kind.Stone? && other.kind.Stone? && Owner(s) == Owner(other) &&
    (s.row, s.col) == (other.row, other.col)
  }

  lemma StoneEqualsIsIdentity(s: Tile, other: Tile)
    requires s.kind.Stone? && other.kind.Stone?
    ensures StoneEquals(s, other) <==> s == other
  {
  }
}
