/**
  * One Go match (games/go/go.py): the two players, whose turn it is, the
  * row and column picked so far through reactions on the two messages, the
  * last accepted move and the board.
  *
  * A move takes two reactions: a row button on the main message and a
  * column button on the sub-message, in either order. Once both are chosen
  * the placement is attempted with the ruleset, the choices are cleared, and
  * on success the move is remembered and the turn passes.
  *
  * Message edits are modelled as the sequence of texts written to the
  * sub-message; the board image, the main message and the reactions are not
  * part of this model. A verbose match (the mock game used for scripted
  * scenarios) writes only the "Invalid Placement:" text.
  */
module GoSession {
  import opened Wrappers
  import opened GoEntities
  import opened GoLogic

  /** A reaction: the message it was added to, who added it, and the index
      the emoji maps to in BUTTONS_ROW / BUTTONS_COL. */
  datatype Payload = Payload(messageId: int, member: PlayerId, button: int)

  const MAKE_PLACEMENT: string := "Make your placement:"
  const INVALID_PLACEMENT: string := "Invalid Placement:"
  const OPPONENT_CHOSE: string := "Your opponent chose:"

  /** Both BUTTONS_ROW and BUTTONS_COL map nine emojis onto 0..8. */
  predicate IsButton(i: int) {
    0 <= i < 9
  }

  predicate SelectionOk(s: Option<int>) {
    s.Some? ==> IsButton(s.value)
  }

  predicate LastStateOk(last: Option<LastState>) {
    last.Some? ==> IsButton(last.value.row) && IsButton(last.value.col)
  }

  // ---------------------------------------------------------------------
  // The selection texts (render_selection_state and its two halves).
  // ---------------------------------------------------------------------

  function Digit(n: int): char
    requires 0 <= n <= 9
  {
    ('0' as int + n) as char
  }

  /** `string.ascii_uppercase[n]` */
  function Letter(n: int): char
    requires 0 <= n < 26
  {
    ('A' as int + n) as char
  }

  /** The row half: the 1-based row number and a space, or a lone space. */
  function RowPart(r: Option<int>): string
    requires SelectionOk(r)
  {
    if r.Some? then [Digit(r.value + 1), ' '] else " "
  }

  /** The column half: the column letter and a space, or a lone space. */
  function ColPart(c: Option<int>): string
    requires SelectionOk(c)
  {
    if c.Some? then [Letter(c.value), ' '] else " "
  }

  /** `render_selection` */
  function RenderSelection(msg: string, r: Option<int>, c: Option<int>): string
    requires SelectionOk(r) && SelectionOk(c)
  {
    "`" + msg + " " + RowPart(r) + ColPart(c) + "`\n"
  }

  /** `render_last_selection`: the last accepted move, or a single space. */
  function RenderLastSelection(msg: string, last: Option<LastState>): string
    requires LastStateOk(last)
  {
    if last.Some? then
      "`" + msg + RowPart(Some(last.value.row)) + ColPart(Some(last.value.col)) + "`"
    else " "
  }

  /** `render_selection_state` */
  function RenderSelectionState(msg: string, lastMsg: string, r: Option<int>, c: Option<int>,
                                last: Option<LastState>): string
    requires SelectionOk(r) && SelectionOk(c) && LastStateOk(last)
  {
    "\n" + RenderSelection(msg, r, c) + RenderLastSelection(lastMsg, last)
  }

  /** Reads back the two halves written by RowPart and ColPart. */
  function ParseParts(t: string): Option<(Option<int>, Option<int>)> {
    var row: Option<(Option<int>, string)> :=
      if |t| >= 1 && t[0] == ' ' then Some((None, t[1..]))
      else if |t| >= 2 && '1' <= t[0] <= '9' && t[1] == ' ' then Some((Some(t[0] as int - '1' as int), t[2..]))
      else None;
    if row.None? then None
    else
      var rest := row.value.1;
      if rest == " " then Some((row.value.0, None))
      else if |rest| == 2 && 'A' <= rest[0] <= 'I' && rest[1] == ' ' then
        Some((row.value.0, Some(rest[0] as int - 'A' as int)))
      else None
  }

  /** Reads the selection back from a `render_selection` text. */
  function DecodeSelection(msg: string, s: string): Option<(Option<int>, Option<int>)> {
    var head := "`" + msg + " ";
    if |s| >= |head| + 2 && s[..|head|] == head && s[|s| - 2..] == "`\n" then
      ParseParts(s[|head|..|s| - 2])
    else None
  }

  /** The selection text determines the selection: decoding it gives back
      the row and column that were rendered. */
  lemma DecodeRenderSelection(msg: string, r: Option<int>, c: Option<int>)
    requires SelectionOk(r) && SelectionOk(c)
    ensures DecodeSelection(msg, RenderSelection(msg, r, c)) == Some((r, c))
  {
    var head := "`" + msg + " ";
    var parts := RowPart(r) + ColPart(c);
    var s := RenderSelection(msg, r, c);
    assert s == head + parts + "`\n";
    assert s[..|head|] == head;
    assert s[|s| - 2..] == "`\n";
    assert s[|head|..|s| - 2] == parts;
    if r.Some? {
      assert parts[2..] == ColPart(c);
    } else {
      assert parts[1..] == ColPart(c);
    }
  }

  // ---------------------------------------------------------------------
  // The partial-selection prompt (go.py line 110).
  // ---------------------------------------------------------------------

  /** Python truthiness of a selection: None and 0 are false. */
  predicate Truthy(s: Option<int>) {
    s.Some? && s.value != 0
  }

  /** The condition as written: `(row and not col) or (col and not row)`. */
  predicate PromptsPartialSelectionAsWritten(row: Option<int>, col: Option<int>) {
    (Truthy(row) && !Truthy(col)) || (Truthy(col) && !Truthy(row))
  }

  /** The condition as intended: exactly one of row and column is chosen. */
  predicate PromptsPartialSelection(row: Option<int>, col: Option<int>) {
    row.Some? != col.Some?
  }

  /** Choosing the first row (index 0) with no column yet does not prompt
      as written, although exactly one half of the move is chosen; and when
      a column completes that row, the prompt is written as if only the
      column were chosen. */
  lemma FirstRowSuppressesPrompt()
    ensures !PromptsPartialSelectionAsWritten(Some(0), None)
    ensures PromptsPartialSelection(Some(0), None)
    ensures PromptsPartialSelectionAsWritten(Some(0), Some(3))
    ensures !PromptsPartialSelection(Some(0), Some(3))
  {
  }

  /** The two conditions differ only when a selection is index 0. */
  lemma PromptAgreesAwayFromZero(row: Option<int>, col: Option<int>)
    requires row != Some(0) && col != Some(0)
    ensures PromptsPartialSelectionAsWritten(row, col) <==> PromptsPartialSelection(row, col)
  {
  }

  // ---------------------------------------------------------------------
  // The match.
  // ---------------------------------------------------------------------

  /** The player who moves after `current`: `other_player`, and equally the
      turn switch at the end of `play_move`. */
  function Opponent(primary: PlayerId, tertiary: PlayerId, current: PlayerId): PlayerId {
    if current == tertiary then primary else tertiary
  }

  /** Between two players the turn always passes to the other one; in a
      match against oneself it stays. */
  lemma OpponentAlternates(primary: PlayerId, tertiary: PlayerId, current: PlayerId)
    requires current == primary || current == tertiary
    ensures Opponent(primary, tertiary, current) == primary || Opponent(primary, tertiary, current) == tertiary
    ensures primary != tertiary ==> Opponent(primary, tertiary, current) != current
    ensures Opponent(primary, tertiary, Opponent(primary, tertiary, current)) == current
  {
  }

  /** What a completed move leaves behind, from board b0 with `current` to
      move and `last` the previous accepted move, at (row, col): when the
      placement is legal, the captured stones are cleared around the new
      stone, the move is remembered, the turn passes and the prompt is reset;
      otherwise board, turn and last move stay and "Invalid Placement:" is
      shown with the rejected choice. A verbose match skips the reset prompt
      (render_message does nothing then) but still shows the refusal. */
  ghost predicate MoveOutcome(verbose: bool, primary: PlayerId, tertiary: PlayerId, b0: Board, current: PlayerId,
                              last: Option<LastState>, row: int, col: int,
                              b: Board, current': PlayerId, last': Option<LastState>, edits: seq<string>)
    requires ValidBoard(b0) && IsButton(row) && IsButton(col) && LastStateOk(last)
  {
    var other := Opponent(primary, tertiary, current);
    var b1 := Place(b0, row, col, current);
    if Legal(b0, current, other, row, col, last) then
      ClearedFrom(b1, Captured(b1, current, Tile(row, col, Stone(current))), b) &&
      last' == Some(LastState(current, row, col)) &&
      current' == other &&
      edits == (if verbose then [] else [RenderSelectionState(MAKE_PLACEMENT, OPPONENT_CHOSE, None, None, last')])
    else
      b == b0 && current' == current && last' == last &&
      edits == [RenderSelectionState(INVALID_PLACEMENT, OPPONENT_CHOSE, Some(row), Some(col), last)]
  }

  class Go {
    const primary: PlayerId
    const tertiary: PlayerId
    const messageId: int
    const verbose: bool
    var subMessageId: Option<int>
    var currentPlayer: PlayerId
    var board: Board
    var rowSelection: Option<int>
    var colSelection: Option<int>
    var lastState: Option<LastState>
    var lock: bool
    var hasPlayed: bool
    var winner: Option<PlayerId>

    /** Between two reactions: a well-formed board, the turn held by one of
        the two players, choices that are button indices and never both set,
        the lock released, and the last accepted move's stone still standing
        where it was placed. */
    ghost predicate Valid()
      reads this
    {
      ValidBoard(board) &&
      (currentPlayer == primary || currentPlayer == tertiary) &&
      SelectionOk(rowSelection) && SelectionOk(colSelection) &&
      !(rowSelection.Some? && colSelection.Some?) &&
      !lock &&
      LastStateOk(lastState) &&
      (lastState.Some? ==>
        board[lastState.value.row][lastState.value.col] ==
        Tile(lastState.value.row, lastState.value.col, Stone(lastState.value.player)))
    }

    /** `__init__` with `initialize_helper`; `primaryFirst` stands for the
        outcome of the random player order, and `verbose` is the argument
        that defaults to false and that the mock game sets. */
    constructor (primary: PlayerId, tertiary: PlayerId, messageId: int, primaryFirst: bool, verbose: bool)
      ensures Valid()
      ensures this.primary == primary && this.tertiary == tertiary && this.messageId == messageId
      ensures this.verbose == verbose
      ensures currentPlayer == (if primaryFirst then primary else tertiary)
      ensures board == InitializeBoard()
      ensures subMessageId.None? && rowSelection.None? && colSelection.None? && lastState.None?
      ensures !hasPlayed && winner.None?
    {
      this.primary := primary;
      this.tertiary := tertiary;
      this.messageId := messageId;
      this.verbose := verbose;
      subMessageId := None;
      hasPlayed := false;
      winner := None;
      rowSelection := None;
      colSelection := None;
      lastState := None;
      lock := false;
      currentPlayer := if primaryFirst then primary else tertiary;
      board := InitializeBoard();
    }

    /** `initialize_sub_message` */
    method InitializeSubMessage(id: int)
      modifies this
      ensures subMessageId == Some(id)
      ensures currentPlayer == old(currentPlayer) && board == old(board)
      ensures rowSelection == old(rowSelection) && colSelection == old(colSelection)
      ensures lastState == old(lastState) && lock == old(lock)
      ensures hasPlayed == old(hasPlayed) && winner == old(winner)
    {
      subMessageId := Some(id);
    }

    /** `is_completed`: a winner has been set (nothing in the Go engine sets one). */
    predicate IsCompleted()
      reads this
    {
      winner.Some?
    }

    predicate IsPlayerCurrent(player: PlayerId)
      reads this
    {
      currentPlayer == player
    }

    /** `other_player` */
    function OtherPlayer(): PlayerId
      reads this
    {
      Opponent(primary, tertiary, currentPlayer)
    }

    /** `play_move`, entered only when the lock is free and the reacting
        member holds the turn. The reaction sets the row (main message) or
        the column (sub-message); a match that is not verbose refreshes the
        prompt when the source's truthiness test holds, so index 0 reads as
        unchosen (see
        FirstRowSuppressesPrompt); once both are chosen the placement is
        attempted (Commit). `edits` lists the texts written to the
        sub-message, in order. */
    method PlayMove(p: Payload) returns (edits: seq<string>)
      requires Valid() && subMessageId.Some?
      requires !lock && IsPlayerCurrent(p.member)
      requires p.messageId == messageId || p.messageId == subMessageId.value ==> IsButton(p.button)
      modifies this
      ensures Valid()
      ensures subMessageId == old(subMessageId) && winner == old(winner)
      ensures
        var row := if p.messageId == messageId then Some(p.button) else old(rowSelection);
        var col := if p.messageId != messageId && p.messageId == old(subMessageId).value
                   then Some(p.button) else old(colSelection);
        var prompt := if !verbose && PromptsPartialSelectionAsWritten(row, col)
                      then [RenderSelectionState(MAKE_PLACEMENT, OPPONENT_CHOSE, row, col, old(lastState))]
                      else [];
        if !(row.Some? && col.Some?) then
          rowSelection == row && colSelection == col &&
          board == old(board) && currentPlayer == old(currentPlayer) &&
          lastState == old(lastState) && hasPlayed == old(hasPlayed) &&
          edits == prompt
        else
          hasPlayed && rowSelection.None? && colSelection.None? &&
          |edits| >= |prompt| && edits[..|prompt|] == prompt &&
          MoveOutcome(verbose, primary, tertiary, old(board), old(currentPlayer), old(lastState), row.value, col.value,
                      board, currentPlayer, lastState, edits[|prompt|..])
    {
      if p.messageId == messageId {
        rowSelection := Some(p.button);
      } else if p.messageId == subMessageId.value {
        colSelection := Some(p.button);
      }
      edits := [];
      if !verbose && PromptsPartialSelectionAsWritten(rowSelection, colSelection) {
        edits := edits + [RenderSelectionState(MAKE_PLACEMENT, OPPONENT_CHOSE, rowSelection, colSelection, lastState)];
      }
      if rowSelection.Some? && colSelection.Some? {
        var outcome := Commit();
        edits := edits + outcome;
      }
    }

    /** The second half of `play_move`, once both the row and the column are
        chosen: lock, attempt the placement, clear the choices, and on success
        remember the move, pass the turn and re-render; then unlock. */
    method Commit() returns (edits: seq<string>)
      requires ValidBoard(board) && (currentPlayer == primary || currentPlayer == tertiary)
      requires rowSelection.Some? && colSelection.Some?
      requires SelectionOk(rowSelection) && SelectionOk(colSelection) && LastStateOk(lastState)
      requires lastState.Some? ==>
        board[lastState.value.row][lastState.value.col] ==
        Tile(lastState.value.row, lastState.value.col, Stone(lastState.value.player))
      modifies this
      ensures Valid()
      ensures subMessageId == old(subMessageId) && winner == old(winner)
      ensures hasPlayed && rowSelection.None? && colSelection.None?
      ensures MoveOutcome(verbose, primary, tertiary, old(board), old(currentPlayer), old(lastState),
                          old(rowSelection).value, old(colSelection).value,
                          board, currentPlayer, lastState, edits)
    {
      lock := true;
      hasPlayed := true;
      var row, col := rowSelection.value, colSelection.value;
      var isValidPlacement, board' := AttemptPlacement(board, currentPlayer, OtherPlayer(), row, col, lastState);
      if isValidPlacement {
        AcceptedBoard(board, currentPlayer, row, col, board');
      }
      board := board';
      edits := [];
      if !isValidPlacement {
        edits := edits + [RenderSelectionState(INVALID_PLACEMENT, OPPONENT_CHOSE, rowSelection, colSelection, lastState)];
      }
      if isValidPlacement {
        lastState := Some(LastState(currentPlayer, row, col));
      }
      rowSelection := None;
      colSelection := None;
      if isValidPlacement {
        currentPlayer := if IsPlayerCurrent(tertiary) then primary else tertiary;
        // render_message rewrites the sub-message with the cleared choices
        if !verbose {
          edits := edits + [RenderSelectionState(MAKE_PLACEMENT, OPPONENT_CHOSE, rowSelection, colSelection, lastState)];
        }
      }
      lock := false;
    }
  }
}
