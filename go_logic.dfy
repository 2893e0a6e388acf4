/**
  * The Go ruleset (games/go/logic.py): validation, capture discovery,
  * capture resolution, suicide rejection and the placement transaction.
  *
  * `attempt_placement` works on the game's board in place: it validates the
  * point, writes the new stone, looks for captured opponent groups, rejects a
  * capture-less move whose own group has no liberty (restoring the cell), and
  * otherwise clears the captured stones. Here the board is a value: the
  * methods take the board and return the board they leave behind.
  */
module GoLogic {
  import opened Wrappers
  import opened GoEntities
  import opened GoGroups

  /** `last_state`: (id of the player who moved, row, col) of the last accepted move. */
  datatype LastState = LastState(player: PlayerId, row: int, col: int)

  /** `initialize_board`: BOARD_Y rows of BOARD_X empty tiles. */
  function InitializeBoard(): (b: Board)
    ensures ValidBoard(b)
    ensures forall r, c :: InBounds(r, c) ==> b[r][c].kind == Blank
  {
    seq(BOARD_Y, r => seq(BOARD_X, c => Tile(r, c, Blank)))
  }

  /** `placed_on_occupied_space`: the point already holds a stone. */
  predicate PlacedOnOccupiedSpace(b: Board, row: int, col: int)
    requires ValidBoard(b) && InBounds(row, col)
  {
    b[row][col].kind.Stone?
  }

  /** `placed_on_previously_played_space`: the point is the one of the last
      accepted move, whoever made it. */
  predicate PlacedOnPreviouslyPlayedSpace(row: int, col: int, lastState: Option<LastState>) {
    lastState.Some? && (row, col) == (lastState.value.row, lastState.value.col)
  }

  /** The board with the new stone written at (row, col). */
  function Place(b: Board, row: int, col: int, owner: PlayerId): (b': Board)
    requires ValidBoard(b) && InBounds(row, col)
    ensures ValidBoard(b')
    ensures b'[row][col] == Tile(row, col, Stone(owner))
    ensures forall r, c :: InBounds(r, c) && (r, c) != (row, col) ==> b'[r][c] == b[r][c]
  {
    b[row := b[row][col := Tile(row, col, Stone(owner))]]
  }

  /** Some member of the group has an empty tile (exactly `tile`, so not a
      wall and not a stone) among its liberties. */
  ghost predicate HasLiberty(b: Board, G: set<Tile>)
    requires ValidBoard(b)
  {
    exists t, i :: t in G && 0 <= i < 4 && Liberties(b, t)[i].kind.Blank?
  }

  /** The stones `find_captures` reports: every group, seeded at a liberty of
      `root` that is a stone not owned by `owner`, that has no liberty. */
  ghost function Captured(b: Board, owner: PlayerId, root: Tile): set<Tile>
    requires ValidBoard(b)
  {
    set i, t | 0 <= i < 4 && Joins(Liberties(b, root)[i], owner) &&
               !HasLiberty(b, Group(b, owner, Liberties(b, root)[i])) &&
               t in Group(b, owner, Liberties(b, root)[i]) :: t
  }

  /** The acceptance rule of `attempt_placement`: the point is free and not
      the last move's, and on the board with the new stone either something
      is captured or the new stone's group (grown through stones not owned by
      `other`) has a liberty. */
  ghost predicate Legal(b: Board, owner: PlayerId, other: PlayerId, row: int, col: int, lastState: Option<LastState>)
    requires ValidBoard(b) && InBounds(row, col)
  {
    !PlacedOnOccupiedSpace(b, row, col) &&
    !PlacedOnPreviouslyPlayedSpace(row, col, lastState) &&
    var b1 := Place(b, row, col, owner);
    var root := Tile(row, col, Stone(owner));
    (Captured(b1, owner, root) != {} || HasLiberty(b1, Group(b1, other, root)))
  }

  /** b' is b with every tile of S replaced by an empty tile at the same point. */
  ghost predicate ClearedFrom(b: Board, S: set<Tile>, b': Board)
    requires ValidBoard(b)
  {
    ValidBoard(b') &&
    forall r, c :: InBounds(r, c) ==>
      b'[r][c] == if b[r][c] in S then Tile(r, c, Blank) else b[r][c]
  }

  function Elems(s: seq<Tile>): set<Tile> {
    set x | x in s
  }

  lemma BoardTileAt(b: Board, t: Tile)
    requires ValidBoard(b) && t in BoardTiles(b)
    ensures InBounds(t.row, t.col) && b[t.row][t.col] == t
  {
    var r, c :| 0 <= r < BOARD_Y && 0 <= c < BOARD_X && b[r][c] == t;
  }

  /** Every captured tile is a stone of the board that `owner` does not own. */
  lemma CapturedAreOpponentStones(b: Board, owner: PlayerId, root: Tile)
    requires ValidBoard(b)
    ensures forall t :: t in Captured(b, owner, root) ==>
      Joins(t, owner) && InBounds(t.row, t.col) && b[t.row][t.col] == t
  {
    forall t | t in Captured(b, owner, root)
      ensures Joins(t, owner) && InBounds(t.row, t.col) && b[t.row][t.col] == t
    {
      var i :| 0 <= i < 4 && Joins(Liberties(b, root)[i], owner) &&
               !HasLiberty(b, Group(b, owner, Liberties(b, root)[i])) &&
               t in Group(b, owner, Liberties(b, root)[i]);
      var seed := Liberties(b, root)[i];
      GroupIsLeastClosed(b, owner, seed);
      if t == seed {
        JoinerOnBoard(b, root, i, owner);
      } else {
        BoardTileAt(b, t);
      }
    }
  }

  /** The liberty scan shared by `find_captures` and `sacrificed_stone`: the
      union of the members' liberties is searched for an empty tile. The
      source reduces over the members' liberty sets, which fails on an empty
      group; groups always hold their seed. */
  method IsCaptured(b: Board, group: set<Tile>) returns (isCaptured: bool)
    requires ValidBoard(b) && group != {}
    ensures isCaptured <==> !HasLiberty(b, group)
  {
    var liberties := set t, i | t in group && 0 <= i < 4 :: Liberties(b, t)[i];
    isCaptured := true;
    var rest := liberties;
    while rest != {}
      invariant rest <= liberties
      invariant forall d :: d in liberties - rest ==> !d.kind.Blank?
      decreases rest
    {
      var dame :| dame in rest;
      if dame.kind.Blank? {
        isCaptured := false;
        break;
      }
      rest := rest - {dame};
    }
    if isCaptured {
      forall t, i | t in group && 0 <= i < 4
        ensures !Liberties(b, t)[i].kind.Blank?
      {
        assert Liberties(b, t)[i] in liberties;
      }
    }
  }

  /** `captures.extend(capture_group)`: the group's stones appended in some order. */
  method AppendAll(xs: seq<Tile>, group: set<Tile>) returns (ys: seq<Tile>)
    ensures Elems(ys) == Elems(xs) + group
  {
    ys := xs;
    var rest := group;
    while rest != {}
      invariant rest <= group
      invariant Elems(ys) == Elems(xs) + (group - rest)
      decreases rest
    {
      var t :| t in rest;
      assert Elems(ys + [t]) == Elems(ys) + {t};
      ys := ys + [t];
      rest := rest - {t};
    }
  }

  /** `find_captures`: collects the group of each liberty of `root` that is a
      stone not owned by `owner`, then keeps the groups without an empty
      liberty. The same group reached from two liberties is listed twice;
      the set of listed stones is exactly `Captured`. */
  method FindCaptures(b: Board, owner: PlayerId, root: Tile) returns (captures: seq<Tile>)
    requires ValidBoard(b)
    ensures Elems(captures) == Captured(b, owner, root)
  {
    var libs := Liberties(b, root);
    var captureGroups: seq<set<Tile>> := [];
    ghost var seeds: seq<int> := [];
    for i := 0 to 4
      invariant |seeds| == |captureGroups|
      invariant forall k :: 0 <= k < |seeds| ==>
        0 <= seeds[k] < i && Joins(libs[seeds[k]], owner) &&
        captureGroups[k] == Group(b, owner, libs[seeds[k]]) && libs[seeds[k]] in captureGroups[k]
      invariant forall j :: 0 <= j < i && Joins(libs[j], owner) ==> j in seeds
    {
      var dame := libs[i];
      if dame.kind.Stone? && IsNotOwnedBy(dame, owner) {
        var group := FindGroup(b, owner, dame, {dame});
        captureGroups := captureGroups + [group];
        seeds := seeds + [i];
      }
    }
    captures := [];
    for k := 0 to |captureGroups|
      invariant forall t :: t in Elems(captures) <==>
        exists m :: 0 <= m < k && !HasLiberty(b, captureGroups[m]) && t in captureGroups[m]
    {
      var isCaptured := IsCaptured(b, captureGroups[k]);
      if isCaptured {
        captures := AppendAll(captures, captureGroups[k]);
      }
    }
    forall t
      ensures t in Elems(captures) <==> t in Captured(b, owner, root)
    {
      if t in Elems(captures) {
        var m :| 0 <= m < |captureGroups| && !HasLiberty(b, captureGroups[m]) && t in captureGroups[m];
        var i := seeds[m];
        assert 0 <= i < 4 && Joins(libs[i], owner) && !HasLiberty(b, Group(b, owner, libs[i])) &&
               t in Group(b, owner, libs[i]);
      }
      if t in Captured(b, owner, root) {
        var i :| 0 <= i < 4 && Joins(libs[i], owner) && !HasLiberty(b, Group(b, owner, libs[i])) &&
                 t in Group(b, owner, libs[i]);
        assert i in seeds;
        var m :| 0 <= m < |seeds| && seeds[m] == i;
        assert !HasLiberty(b, captureGroups[m]) && t in captureGroups[m];
      }
    }
  }

  /** `sacrificed_stone`: the group of `root`, grown through stones not owned
      by `other`, has no empty liberty. */
  method SacrificedStone(b: Board, other: PlayerId, root: Tile) returns (isCaptured: bool)
    requires ValidBoard(b)
    ensures isCaptured <==> !HasLiberty(b, Group(b, other, root))
  {
    var captureGroup := FindGroup(b, other, root, {root});
    isCaptured := IsCaptured(b, captureGroup);
  }

  /** `resolve_captures`: every listed point becomes an empty tile; listing a
      point twice changes nothing more. */
  method ResolveCaptures(b: Board, captures: seq<Tile>) returns (b': Board)
    requires ValidBoard(b)
    requires forall t :: t in captures ==> InBounds(t.row, t.col) && b[t.row][t.col] == t
    ensures ClearedFrom(b, Elems(captures), b')
  {
    b' := b;
    for k := 0 to |captures|
      invariant ClearedFrom(b, Elems(captures[..k]), b')
    {
      var capture := captures[k];
      assert Elems(captures[..k + 1]) == Elems(captures[..k]) + {capture} by {
        assert captures[..k + 1] == captures[..k] + [capture];
      }
      b' := b'[capture.row := b'[capture.row][capture.col := Tile(capture.row, capture.col, Blank)]];
    }
    assert captures[..|captures|] == captures;
  }

  /** `attempt_placement`: validate, write the stone, find captures, reject a
      capture-less move whose group has no liberty (restoring the cell), or
      accept and clear the captured stones. */
  method AttemptPlacement(board: Board, owner: PlayerId, other: PlayerId, row: int, col: int,
                          lastState: Option<LastState>)
    returns (isValidPlacement: bool, board': Board)
    requires ValidBoard(board) && InBounds(row, col)
    ensures ValidBoard(board')
    ensures isValidPlacement <==> Legal(board, owner, other, row, col, lastState)
    ensures PlacedOnOccupiedSpace(board, row, col) ==> !isValidPlacement
    ensures PlacedOnPreviouslyPlayedSpace(row, col, lastState) ==> !isValidPlacement
    ensures !isValidPlacement ==> board' == board
    ensures isValidPlacement ==>
      var b1 := Place(board, row, col, owner);
      ClearedFrom(b1, Captured(b1, owner, Tile(row, col, Stone(owner))), board')
  {
    var tempStone := board[row][col];
    var placement := Tile(row, col, Stone(owner));
    board' := board;
    if PlacedOnOccupiedSpace(board, row, col) || PlacedOnPreviouslyPlayedSpace(row, col, lastState) {
      // validate_placement raised before the cell was written; it is reset anyway
      board' := board'[row := board'[row][col := tempStone]];
      assert board'[row] == board[row];
      isValidPlacement := false;
      return;
    }
    board' := board'[row := board'[row][col := placement]];
    assert board' == Place(board, row, col, owner);
    var captures := FindCaptures(board', owner, placement);
    if |captures| == 0 {
      var sacrificed := SacrificedStone(board', other, placement);
      if sacrificed {
        assert Elems(captures) == {};
        board' := board'[row := board'[row][col := tempStone]];
        assert board'[row] == board[row];
        isValidPlacement := false;
        return;
      }
    } else {
      assert captures[0] in Elems(captures);
    }
    isValidPlacement := true;
    CapturedAreOpponentStones(board', owner, placement);
    board' := ResolveCaptures(board', captures);
  }

  /** `end_game`: both the current and the previous turn were passes. Nothing
      in the engine calls it. */
  function EndGame(currentPass: bool, lastPassState: bool): bool {
    currentPass && lastPassState
  }

  // ---------------------------------------------------------------------
  // Properties of the acceptance rule and of the board it leaves behind.
  // ---------------------------------------------------------------------

  /** After an accepted placement the new stone stands on its point, every
      captured point is empty, every captured stone belonged to somebody
      other than the mover, and every other point is as before. */
  lemma AcceptedBoard(board: Board, owner: PlayerId, row: int, col: int, board': Board)
    requires ValidBoard(board) && InBounds(row, col)
    requires var b1 := Place(board, row, col, owner);
             ClearedFrom(b1, Captured(b1, owner, Tile(row, col, Stone(owner))), board')
    ensures board'[row][col] == Tile(row, col, Stone(owner))
    ensures forall r, c :: InBounds(r, c) && (r, c) != (row, col) ==>
      board'[r][c] == board[r][c] ||
      (board'[r][c] == Tile(r, c, Blank) && Joins(board[r][c], owner))
  {
    var b1 := Place(board, row, col, owner);
    CapturedAreOpponentStones(b1, owner, Tile(row, col, Stone(owner)));
  }

  /** A capturing move never leaves its own stone without a liberty: at
      least one neighbouring point has just been emptied. */
  lemma CaptureLeavesLiberty(board: Board, owner: PlayerId, row: int, col: int, board': Board)
    requires ValidBoard(board) && InBounds(row, col)
    requires var b1 := Place(board, row, col, owner);
             Captured(b1, owner, Tile(row, col, Stone(owner))) != {} &&
             ClearedFrom(b1, Captured(b1, owner, Tile(row, col, Stone(owner))), board')
    ensures exists i :: 0 <= i < 4 && Liberties(board', Tile(row, col, Stone(owner)))[i].kind.Blank?
  {
    var b1 := Place(board, row, col, owner);
    var root := Tile(row, col, Stone(owner));
    var C := Captured(b1, owner, root);
    var i := CapturingDirection(b1, owner, root);
    var seed := Liberties(b1, root)[i];
    JoinerOnBoard(b1, root, i, owner);
    ClearedPoint(b1, C, board', seed.row, seed.col);
    SameLiberty(b1, board', root, i);
  }

  /** Some direction from `root` holds a captured stone. */
  lemma CapturingDirection(b: Board, owner: PlayerId, root: Tile) returns (i: int)
    requires ValidBoard(b) && Captured(b, owner, root) != {}
    ensures 0 <= i < 4 && Joins(Liberties(b, root)[i], owner)
    ensures Liberties(b, root)[i] in Captured(b, owner, root)
  {
    var t :| t in Captured(b, owner, root);
    i :| 0 <= i < 4 && Joins(Liberties(b, root)[i], owner) &&
         !HasLiberty(b, Group(b, owner, Liberties(b, root)[i])) &&
         t in Group(b, owner, Liberties(b, root)[i]);
    GroupIsLeastClosed(b, owner, Liberties(b, root)[i]);
  }

  /** The liberty of `root` in direction i on b' is the tile b' stores at
      that point, when the point is on the board. */
  lemma SameLiberty(b: Board, b': Board, root: Tile, i: int)
    requires ValidBoard(b) && ValidBoard(b') && 0 <= i < 4
    requires InBounds(Liberties(b, root)[i].row, Liberties(b, root)[i].col)
    ensures Liberties(b', root)[i] == b'[Liberties(b, root)[i].row][Liberties(b, root)[i].col]
  {
  }

  lemma ClearedPoint(b: Board, S: set<Tile>, b': Board, r: int, c: int)
    requires ValidBoard(b) && ClearedFrom(b, S, b') && InBounds(r, c) && b[r][c] in S
    ensures b'[r][c] == Tile(r, c, Blank)
  {
  }

  /** A free point that is not the last move's and has an empty neighbour is
      always accepted. */
  lemma EmptyNeighbourMeansAccepted(board: Board, owner: PlayerId, other: PlayerId, row: int, col: int,
                                    lastState: Option<LastState>, i: int)
    requires ValidBoard(board) && InBounds(row, col) && 0 <= i < 4
    requires !board[row][col].kind.Stone?
    requires !PlacedOnPreviouslyPlayedSpace(row, col, lastState)
    requires Liberties(board, Tile(row, col, Blank))[i].kind.Blank?
    ensures Legal(board, owner, other, row, col, lastState)
  {
    var b1 := Place(board, row, col, owner);
    var root := Tile(row, col, Stone(owner));
    GroupIsLeastClosed(b1, other, root);
    assert Liberties(b1, root)[i].kind.Blank?;
  }

  /** With no stone of another player next to the point, nothing is captured. */
  lemma NoAdjacentOpponentNoCapture(b: Board, owner: PlayerId, root: Tile)
    requires ValidBoard(b)
    requires forall i :: 0 <= i < 4 ==> !Joins(Liberties(b, root)[i], owner)
    ensures Captured(b, owner, root) == {}
  {
  }

  /** A group that has a liberty is never captured, even when it is adjacent
      to the new stone; a group counts as captured exactly when it has none. */
  lemma CapturedGroupsHaveNoLiberty(b: Board, owner: PlayerId, root: Tile, i: int)
    requires ValidBoard(b) && 0 <= i < 4
    requires Joins(Liberties(b, root)[i], owner)
    ensures !HasLiberty(b, Group(b, owner, Liberties(b, root)[i])) <==>
            Group(b, owner, Liberties(b, root)[i]) <= Captured(b, owner, root)
  {
    var seed := Liberties(b, root)[i];
    GroupIsLeastClosed(b, owner, seed);
    if Group(b, owner, seed) <= Captured(b, owner, root) {
      assert seed in Captured(b, owner, root);
      var j :| 0 <= j < 4 && Joins(Liberties(b, root)[j], owner) &&
               !HasLiberty(b, Group(b, owner, Liberties(b, root)[j])) &&
               seed in Group(b, owner, Liberties(b, root)[j]);
      var other := Liberties(b, root)[j];
      GroupIsLeastClosed(b, owner, other);
      assert Group(b, owner, seed) <= Group(b, owner, other);
    }
  }
}
