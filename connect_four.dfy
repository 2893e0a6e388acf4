/**
  * Connect Four (games/connect4.py; the class of the same name in
  * connect_4.py is line for line the same game).
  *
  * The board is six rows of seven cells, row 0 on top; a cell holds None or
  * the id of the player whose piece it is. A move drops a piece into a
  * column: it lands in the lowest cell that is not taken (Python truthiness:
  * None and 0 both read as free). After each piece the game looks for four
  * of the current player's pieces in a row, horizontally, vertically or
  * diagonally; a line makes that player the winner, otherwise the turn
  * passes. Against the bot user, the bot answers at once in the first
  * column, in a shuffled order, that still has room.
  */
module ConnectFour {
  import opened Wrappers

  type PlayerId = int

  const BOARD_X: int := 7
  const BOARD_Y: int := 6

  type Cell = Option<PlayerId>
  type Grid = seq<seq<Cell>>

  predicate ValidGrid(g: Grid) {
    |g| == BOARD_Y && forall y :: 0 <= y < BOARD_Y ==> |g[y]| == BOARD_X
  }

  predicate InGrid(y: int, x: int) {
    0 <= y < BOARD_Y && 0 <= x < BOARD_X
  }

  /** `not board[y][col]`: the cell reads as free. */
  predicate Vacant(c: Cell) {
    c.None? || c.value == 0
  }

  /** The board `__init__` builds: every cell None. */
  function EmptyGrid(): (g: Grid)
    ensures ValidGrid(g)
    ensures forall y, x :: InGrid(y, x) ==> g[y][x].None?
  {
    seq(BOARD_Y, y => seq(BOARD_X, x => None))
  }

  /** The piece at (y, x), if any, rests on the bottom row or on another piece. */
  predicate RestsAt(g: Grid, y: int, x: int)
    requires ValidGrid(g) && InGrid(y, x)
  {
    !Vacant(g[y][x]) ==> y == BOARD_Y - 1 || !Vacant(g[y + 1][x])
  }

  /** Every piece rests on the bottom row or on another piece. */
  ghost predicate Stacked(g: Grid)
    requires ValidGrid(g)
  {
    forall y, x :: InGrid(y, x) ==> RestsAt(g, y, x)
  }

  // ---------------------------------------------------------------------
  // Lines of four.
  // ---------------------------------------------------------------------

  /** The four directions scanned: along a row, down a column, up-right and
      up-left. */
  const DY: seq<int> := [0, 1, -1, -1]
  const DX: seq<int> := [1, 0, 1, -1]

  /** A line of four starting at (y, x) in direction (dy, dx) lies inside the board. */
  predicate RunFits(y: int, x: int, dy: int, dx: int) {
    InGrid(y, x) && InGrid(y + 3 * dy, x + 3 * dx)
  }

  /** The four cells of the line all hold `id` (the source's chained `==`). */
  predicate RunAt(g: Grid, id: PlayerId, y: int, x: int, dy: int, dx: int)
    requires ValidGrid(g)
  {
    RunFits(y, x, dy, dx) &&
    g[y][x] == Some(id) &&
    g[y + dy][x + dx] == Some(id) &&
    g[y + 2 * dy][x + 2 * dx] == Some(id) &&
    g[y + 3 * dy][x + 3 * dx] == Some(id)
  }

  /** `id` has four in a row somewhere on the board. */
  ghost predicate FourInARow(g: Grid, id: PlayerId)
    requires ValidGrid(g)
  {
    exists y, x, k :: 0 <= k < 4 && RunAt(g, id, y, x, DY[k], DX[k])
  }

  /** The start points the source scans for each direction are exactly the
      ones whose line fits on the board, so no line is missed. */
  lemma ScanRangesCoverLines(y: int, x: int, k: int)
    requires 0 <= k < 4 && RunFits(y, x, DY[k], DX[k])
    ensures k == 0 ==> 0 <= y < BOARD_Y && 0 <= x < BOARD_X - 3
    ensures k == 1 ==> 0 <= y < BOARD_Y - 3 && 0 <= x < BOARD_X
    ensures k == 2 ==> 3 <= y < BOARD_Y && 0 <= x < BOARD_X - 3
    ensures k == 3 ==> 3 <= y < BOARD_Y && 3 <= x < BOARD_X
  {
  }

  lemma WitnessLine(g: Grid, id: PlayerId, k: int, dy: int, dx: int)
    requires ValidGrid(g) && 0 <= k < 4 && dy == DY[k] && dx == DX[k]
    requires exists y, x :: RunAt(g, id, y, x, dy, dx)
    ensures FourInARow(g, id)
  {
    var y, x :| RunAt(g, id, y, x, dy, dx);
  }

  // ---------------------------------------------------------------------
  // Dropping a piece.
  // ---------------------------------------------------------------------

  /** The cell a piece dropped at row `y` or above would reach: the lowest
      free cell of the column among rows 0..y, or None if all are taken. */
  function LowestVacantFrom(g: Grid, col: int, y: int): (r: Option<int>)
    requires ValidGrid(g) && 0 <= col < BOARD_X && -1 <= y < BOARD_Y
    ensures r.Some? ==> 0 <= r.value <= y && Vacant(g[r.value][col])
    ensures r.Some? ==> forall y' :: r.value < y' <= y ==> !Vacant(g[y'][col])
    ensures r.None? ==> forall y' :: 0 <= y' <= y ==> !Vacant(g[y'][col])
    decreases y + 1
  {
    if y < 0 then None
    else if Vacant(g[y][col]) then Some(y)
    else LowestVacantFrom(g, col, y - 1)
  }

  /** Where a piece dropped into `col` lands. */
  function LowestVacant(g: Grid, col: int): Option<int>
    requires ValidGrid(g) && 0 <= col < BOARD_X
  {
    LowestVacantFrom(g, col, BOARD_Y - 1)
  }

  /** The board with cell (y, x) set to `id`. */
  function Put(g: Grid, y: int, x: int, id: PlayerId): (g': Grid)
    requires ValidGrid(g) && InGrid(y, x)
    ensures ValidGrid(g')
    ensures g'[y][x] == Some(id)
    ensures forall y', x' :: InGrid(y', x') && (y', x') != (y, x) ==> g'[y'][x'] == g[y'][x']
  {
    g[y := g[y][x := Some(id)]]
  }

  /** On a stacked board a column is full exactly when its top cell is taken. */
  lemma {:induction false} FullColumnIffTopTaken(g: Grid, col: int)
    requires ValidGrid(g) && Stacked(g) && 0 <= col < BOARD_X
    ensures LowestVacant(g, col).None? <==> !Vacant(g[0][col])
  {
    if !Vacant(g[0][col]) {
      forall y | 0 <= y < BOARD_Y
        ensures !Vacant(g[y][col])
      {
        TakenBelow(g, col, 0, y);
      }
    }
  }

  lemma {:induction false} TakenBelow(g: Grid, col: int, y: int, y': int)
    requires ValidGrid(g) && Stacked(g) && 0 <= col < BOARD_X
    requires 0 <= y <= y' < BOARD_Y && !Vacant(g[y][col])
    ensures !Vacant(g[y'][col])
    decreases y' - y
  {
    if y < y' {
      assert RestsAt(g, y, col);
      TakenBelow(g, col, y + 1, y');
    }
  }

  /** Dropping a piece keeps every piece resting on something. */
  lemma DropKeepsStacked(g: Grid, col: int, id: PlayerId)
    requires ValidGrid(g) && Stacked(g) && 0 <= col < BOARD_X
    requires LowestVacant(g, col).Some?
    ensures Stacked(Put(g, LowestVacant(g, col).value, col, id))
  {
    var y := LowestVacant(g, col).value;
    var g' := Put(g, y, col, id);
    forall y0, x | InGrid(y0, x)
      ensures RestsAt(g', y0, x)
    {
      assert RestsAt(g, y0, x);
      if x == col && y0 + 1 == y && !Vacant(g'[y0][x]) {
        // the cell above the landing cell was free before the drop
        assert false;
      }
    }
  }

  /** Pieces never move or disappear, so a line of four of a real player
      (ids read as taken only when non-zero) survives every drop. */
  lemma DropKeepsLines(g: Grid, col: int, id: PlayerId, owner: PlayerId)
    requires ValidGrid(g) && 0 <= col < BOARD_X && owner != 0
    requires LowestVacant(g, col).Some?
    requires FourInARow(g, owner)
    ensures FourInARow(Put(g, LowestVacant(g, col).value, col, id), owner)
  {
    var y, x, k :| 0 <= k < 4 && RunAt(g, owner, y, x, DY[k], DX[k]);
    var g' := Put(g, LowestVacant(g, col).value, col, id);
    assert RunAt(g', owner, y, x, DY[k], DX[k]);
  }

  // ---------------------------------------------------------------------
  // The game state and the turn rule, as values.
  // ---------------------------------------------------------------------

  datatype State = State(board: Grid, current: PlayerId, winner: Option<PlayerId>)

  function Opponent(primary: PlayerId, tertiary: PlayerId, current: PlayerId): PlayerId {
    if current == tertiary then primary else tertiary
  }

  /** One piece of the current player into `col`: None when the column is
      full; otherwise the piece lands, and a line of four makes the current
      player the winner, else the turn passes. */
  ghost function DropState(s: State, col: int, primary: PlayerId, tertiary: PlayerId): Option<State>
    requires ValidGrid(s.board) && 0 <= col < BOARD_X
  {
    var y := LowestVacant(s.board, col);
    if y.None? then None
    else
      var g := Put(s.board, y.value, col, s.current);
      if FourInARow(g, s.current) then Some(State(g, s.current, Some(s.current)))
      else Some(State(g, Opponent(primary, tertiary, s.current), s.winner))
  }

  /** The bot's answer: the first column of `cols` that has room. */
  ghost function BotState(s: State, cols: seq<int>, primary: PlayerId, tertiary: PlayerId): State
    requires ValidGrid(s.board)
    requires ColumnsOk(cols)
  {
    if cols == [] then s
    else
      var d := DropState(s, cols[0], primary, tertiary);
      if d.Some? then d.value else BotState(s, cols[1..], primary, tertiary)
  }

  predicate ColumnsOk(cols: seq<int>) {
    forall i :: 0 <= i < |cols| ==> 0 <= cols[i] < BOARD_X
  }

  /** A shuffle of the seven column buttons. */
  predicate IsColumnOrder(cols: seq<int>) {
    multiset(cols) == multiset{0, 1, 2, 3, 4, 5, 6}
  }

  lemma ColumnOrderInRange(cols: seq<int>)
    requires IsColumnOrder(cols)
    ensures ColumnsOk(cols)
    ensures forall col :: 0 <= col < BOARD_X ==> col in cols
  {
    forall i | 0 <= i < |cols|
      ensures 0 <= cols[i] < BOARD_X
    {
      assert cols[i] in multiset(cols);
    }
    forall col | 0 <= col < BOARD_X
      ensures col in cols
    {
      assert col in multiset(cols);
    }
  }

  /** The bot moves whenever some column has room: it plays the first
      column of its order that has room, and a shuffle names every column. */
  lemma {:induction false} BotFindsRoom(s: State, cols: seq<int>, col: int, primary: PlayerId, tertiary: PlayerId)
    requires ValidGrid(s.board) && ColumnsOk(cols)
    requires col in cols && 0 <= col < BOARD_X && LowestVacant(s.board, col).Some?
    ensures exists i :: (0 <= i < |cols| && DropState(s, cols[i], primary, tertiary).Some? &&
      BotState(s, cols, primary, tertiary) == DropState(s, cols[i], primary, tertiary).value)
    decreases |cols|
  {
    if DropState(s, cols[0], primary, tertiary).None? {
      assert cols[0] != col;
      assert col in cols[1..];
      BotFindsRoom(s, cols[1..], col, primary, tertiary);
      var i :| 0 <= i < |cols[1..]| && DropState(s, cols[1..][i], primary, tertiary).Some? &&
        BotState(s, cols[1..], primary, tertiary) == DropState(s, cols[1..][i], primary, tertiary).value;
      assert cols[1..][i] == cols[i + 1];
    }
  }

  class Connect4 {
    const primary: PlayerId
    const tertiary: PlayerId
    /** The id of the bot's own user (`client.user`). */
    const botUser: PlayerId
    var board: Grid
    var currentPlayer: PlayerId
    var winner: Option<PlayerId>

    ghost predicate Valid()
      reads this
    {
      ValidGrid(board) && Stacked(board) && (currentPlayer == primary || currentPlayer == tertiary)
    }

    ghost function Snapshot(): State
      reads this
    {
      State(board, currentPlayer, winner)
    }

    /** `__init__`: an empty board; the primary player starts against the
        bot, otherwise `primaryFirst` stands for the random choice. */
    constructor (primary: PlayerId, tertiary: PlayerId, botUser: PlayerId, primaryFirst: bool)
      ensures Valid()
      ensures this.primary == primary && this.tertiary == tertiary && this.botUser == botUser
      ensures board == EmptyGrid() && winner.None?
      ensures currentPlayer == (if tertiary != botUser && !primaryFirst then tertiary else primary)
    {
      this.primary := primary;
      this.tertiary := tertiary;
      this.botUser := botUser;
      board := EmptyGrid();
      currentPlayer := if tertiary != botUser && !primaryFirst then tertiary else primary;
      winner := None;
    }

    predicate IsCompleted()
      reads this
    {
      winner.Some?
    }

    predicate IsPlayerCurrent(player: PlayerId)
      reads this
    {
      currentPlayer == player
    }

    /** One nest of loops of `detect_current_player_win`: every start point
        (y, x) in the given ranges, direction (dy, dx). */
    method ScanRuns(id: PlayerId, dy: int, dx: int, rowLo: int, rowHi: int, colLo: int, colHi: int)
      returns (found: bool)
      requires ValidGrid(board) && rowLo <= rowHi && colLo <= colHi
      requires forall y, x :: rowLo <= y < rowHi && colLo <= x < colHi ==> RunFits(y, x, dy, dx)
      ensures found <==> exists y, x :: rowLo <= y < rowHi && colLo <= x < colHi && RunAt(board, id, y, x, dy, dx)
    {
      for y := rowLo to rowHi
        invariant forall y', x :: rowLo <= y' < y && colLo <= x < colHi ==> !RunAt(board, id, y', x, dy, dx)
      {
        for x := colLo to colHi
          invariant forall x' :: colLo <= x' < x ==> !RunAt(board, id, y, x', dy, dx)
        {
          assert RunFits(y, x, dy, dx);
          if board[y][x] == Some(id) && board[y + dy][x + dx] == Some(id) &&
             board[y + 2 * dy][x + 2 * dx] == Some(id) && board[y + 3 * dy][x + 3 * dx] == Some(id) {
            assert RunAt(board, id, y, x, dy, dx);
            return true;
          }
        }
      }
      return false;
    }

    /** `detect_current_player_win`: the four scans, in the source's order. */
    method DetectCurrentPlayerWin() returns (win: bool)
      requires ValidGrid(board)
      ensures win <==> FourInARow(board, currentPlayer)
    {
      var id := currentPlayer;
      win := ScanRuns(id, 0, 1, 0, BOARD_Y, 0, BOARD_X - 3);
      if win {
        WitnessLine(board, id, 0, 0, 1);
        return;
      }
      win := ScanRuns(id, 1, 0, 0, BOARD_Y - 3, 0, BOARD_X);
      if win {
        WitnessLine(board, id, 1, 1, 0);
        return;
      }
      win := ScanRuns(id, -1, 1, 3, BOARD_Y, 0, BOARD_X - 3);
      if win {
        WitnessLine(board, id, 2, -1, 1);
        return;
      }
      win := ScanRuns(id, -1, -1, 3, BOARD_Y, 3, BOARD_X);
      if win {
        WitnessLine(board, id, 3, -1, -1);
        return;
      }
      forall y, x, k | 0 <= k < 4 && RunAt(board, id, y, x, DY[k], DX[k])
        ensures false
      {
        ScanRangesCoverLines(y, x, k);
      }
    }

    /** The drop loop of `play_move` for the current player: scan the column
        from the bottom, take the first free cell, then check for a line. */
    method Drop(col: int) returns (dropped: bool)
      requires Valid() && 0 <= col < BOARD_X
      modifies this
      ensures Valid()
      ensures dropped <==> DropState(old(Snapshot()), col, primary, tertiary).Some?
      ensures dropped ==> Snapshot() == DropState(old(Snapshot()), col, primary, tertiary).value
      ensures !dropped ==> Snapshot() == old(Snapshot())
    {
      var y := BOARD_Y - 1;
      while y >= 0
        invariant -1 <= y < BOARD_Y
        invariant LowestVacant(board, col) == LowestVacantFrom(board, col, y)
        invariant board == old(board) && currentPlayer == old(currentPlayer) && winner == old(winner)
        decreases y + 1
      {
        if Vacant(board[y][col]) {
          DropKeepsStacked(board, col, currentPlayer);
          board := Put(board, y, col, currentPlayer);
          var win := DetectCurrentPlayerWin();
          if win {
            winner := Some(currentPlayer);
          } else {
            currentPlayer := if IsPlayerCurrent(tertiary) then primary else tertiary;
          }
          return true;
        }
        y := y - 1;
      }
      return false;
    }

    /** `play_move` for a member holding the turn (both reaction handlers
        check this) who pressed column button `col`. The result says whether
        the member's piece was placed. `cols` stands for the shuffled column
        order the bot would try. */
    method PlayMove(col: int, cols: seq<int>) returns (placed: bool)
      requires Valid() && 0 <= col < BOARD_X && IsColumnOrder(cols)
      modifies this
      ensures Valid()
      ensures var human := DropState(old(Snapshot()), col, primary, tertiary);
        placed <==> human.Some?
      ensures var human := DropState(old(Snapshot()), col, primary, tertiary);
        var s1 := if human.Some? then human.value else old(Snapshot());
        ColumnsOk(cols) && Snapshot() == (if tertiary == botUser && s1.current == tertiary
                       then BotState(s1, cols, primary, tertiary) else s1)
    {
      ColumnOrderInRange(cols);
      placed := Drop(col);
      if tertiary == botUser && IsPlayerCurrent(tertiary) {
        BotMove(cols);
      }
    }

    /** The bot AI of `play_move`: try the columns in the shuffled order and
        drop into the first that has room. */
    method BotMove(cols: seq<int>)
      requires Valid() && IsColumnOrder(cols)
      modifies this
      ensures Valid()
      ensures ColumnsOk(cols) && Snapshot() == BotState(old(Snapshot()), cols, primary, tertiary)
    {
      ColumnOrderInRange(cols);
      ghost var s0 := Snapshot();
      var i := 0;
      var escape := false;
      while i < |cols| && !escape
        invariant 0 <= i <= |cols|
        invariant Valid()
        invariant !escape ==> Snapshot() == s0 && BotState(s0, cols[i..], primary, tertiary) == BotState(s0, cols, primary, tertiary)
        invariant escape ==> Snapshot() == BotState(s0, cols, primary, tertiary)
        decreases |cols| - i
      {
        escape := Drop(cols[i]);
        assert cols[i..][1..] == cols[i + 1..];
        i := i + 1;
      }
    }
  }
}
