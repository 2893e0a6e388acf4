# goboto game engines in Dafny

goboto is a Discord bot that runs two-player board games through message
reactions. A session manager routes each reaction to the game session it
belongs to, and each game keeps its own board and turn state. This project
models the game logic and the session registry:

- **Go engine**, in four modules:
  - `GoEntities`: tiles, stones, walls, liberties and ownership.
  - `GoGroups`: the flood fill over connected stones. A group is the least
    set that contains its seed and is closed under "a neighbour that is a
    stone not owned by the excluded player".
  - `GoLogic`: the ruleset. It covers:
    - occupied-point and repeated-point rejection;
    - capture discovery and capture resolution;
    - suicide rejection;
    - the placement transaction, which restores the board when the move
      is rejected.
  - `GoSession`: one match. A move takes two reactions, a row and then a
    column in either order. The module covers the partial-selection
    prompt, the lock, the turn switch, and the texts written to the
    sub-message.
- **Session registry** (`SessionRegistry`): three dictionaries, keyed by
  session, by message and by player. A session id depends only on the
  unordered pair of players.
- **Connect Four** (`ConnectFour`): gravity drops, the four-direction scan
  for four in a row, and the bot's answer in a shuffled column order.
- **waveRPG** (`WaveRpg`): units on a 4x7 board. Pawns are spawned by the
  players and bugs are the monsters. Every turn, every unit advances in
  priority order: pawns (speed 1) before bugs (speed -1), and within a
  speed the units with the larger row index first.
- **The legacy Go game** (`LegacyGo`): the single-file version that came
  before the Go package. It differs from the package in four ways:
  - its occupied-point check never fires;
  - it checks for suicide before it resolves captures;
  - it clears captured groups one at a time, re-checking each group against
    the partly cleared board;
  - it renders the selection text differently.

  The model proves that the sequential clearing removes exactly the
  package's set of captured stones.

The older single-file bot, connect_4.py, keeps its own copies of the
session registry (lines 55-105) and of Connect Four (lines 109-196). They
behave like router/session.py without a sub-message and like
games/connect4.py. The `SessionRegistry` and `ConnectFour` members model
both copies; a `None` sub-message stands for the older registry.

Boards are values (`seq<seq<Tile>>`, `seq<seq<Option<PlayerId>>>`,
`map<Coord, Unit>`). Sessions are classes whose methods reassign their
fields. The algorithms that loop in the source are methods with loop
invariants, each proved against a ghost specification:
- `FindGroup` against `Group`;
- `FindCaptures` against `Captured`;
- `IsCaptured` against `HasLiberty`;
- `DetectCurrentPlayerWin` against `FourInARow`;
- `PriorityOrder` against `IsPriorityOrder`;
- `LegacyResolveCaptures` against `Captured` and `ClearedFrom`.

## Model

| member | source | states |
|---|---|---|
| GoEntities.Owner | games/go/entities.py:3-35 | a tile has an owner exactly when it is a stone |
| GoEntities.GetBoardTile | games/go/entities.py:22-26 | an in-bounds point reads the board's tile there; an out-of-bounds point gives a wall at that point, and only then |
| GoEntities.Liberties | games/go/entities.py:62-69 | exactly four neighbours in the fixed up/right/down/left order, each at its offset from the stone, and each a wall exactly when off the board |
| GoEntities.LibertiesReadBoard | games/go/entities.py:62-69 | an in-bounds liberty is the board's own tile at that point |
| GoEntities.LibertiesAreOrthogonal | games/go/entities.py:62-69 | each liberty is at Manhattan distance 1, and the four are pairwise distinct points |
| GoEntities.LibertySymmetric | games/go/entities.py:62-69 | the stone is the opposite-direction liberty of each of its in-bounds liberties |
| GoEntities.OwnershipDichotomy | games/go/entities.py:16-20 | empty tiles and walls are neither owned nor not-owned by anyone; a stone is exactly one of owned-by and not-owned-by |
| GoEntities.StoneEqualsIsIdentity | games/go/entities.py:71-76 | stone equality by owner and hashed position holds exactly for identical stones |
| GoGroups.Grow | games/go/logic.py:97-103 | the grown set contains its start, is closed under joining neighbours, and adds only board stones that join |
| GoGroups.GrowLeast | games/go/logic.py:97-103 | the grown set lies inside every closed superset of its start |
| GoGroups.GroupIsLeastClosed | games/go/logic.py:97-103 | a group contains its seed, is closed, and is contained in every closed set holding the seed |
| GoGroups.LeastClosedIsGroup | games/go/logic.py:97-103 | any least closed set around the seed equals the group, so the group is uniquely characterised |
| GoGroups.FindGroup | games/go/logic.py:97-103 | the recursive fill returns a closed superset of `captures` inside every closed superset; called with `{leaf}` it returns exactly `Group` |
| GoLogic.InitializeBoard | games/go/logic.py:8-10 | a well-formed 9x9 board of empty tiles |
| GoLogic.Place | games/go/logic.py:18-23 | the new stone stands at its point and every other point is unchanged |
| GoLogic.CapturedAreOpponentStones | games/go/logic.py:64-83 | every captured tile is an on-board stone not owned by the mover |
| GoLogic.IsCaptured | games/go/logic.py:72-79 | a group is reported captured exactly when no member has an empty liberty |
| GoLogic.AppendAll | games/go/logic.py:81-82 | the extended list holds the old entries plus the whole group |
| GoLogic.FindCaptures | games/go/logic.py:64-83 | the reported tiles are exactly the stones of the libertyless opponent groups next to the new stone |
| GoLogic.SacrificedStone | games/go/logic.py:85-95 | the new stone is sacrificed exactly when its group (grown through stones not owned by the opponent) has no empty liberty |
| GoLogic.ResolveCaptures | games/go/logic.py:59-62 | the captured points become empty tiles and all other points stay |
| GoLogic.AttemptPlacement | games/go/logic.py:12-57 | accepted exactly when Legal: occupied and repeated points are refused, and a capture-less suicide is refused; a refusal leaves the board unchanged; an acceptance places the stone and clears exactly the captured stones |
| GoLogic.AcceptedBoard | games/go/logic.py:34-56 | after an acceptance the new stone stands, and every other point is unchanged or an emptied opponent stone |
| GoLogic.CaptureLeavesLiberty | games/go/logic.py:36-56 | a capturing move leaves its own stone an empty liberty |
| GoLogic.EmptyNeighbourMeansAccepted | games/go/logic.py:12-57 | a free, non-repeated point with an empty neighbour is always legal |
| GoLogic.NoAdjacentOpponentNoCapture | games/go/logic.py:64-83 | without an adjacent opponent stone nothing is captured |
| GoLogic.CapturedGroupsHaveNoLiberty | games/go/logic.py:64-83 | an adjacent opponent group is inside the captured set exactly when it has no liberty |
| GoSession.DecodeRenderSelection | games/go/go.py:166-172 | the selection text can be decoded back to the row and column it shows |
| GoSession.FirstRowSuppressesPrompt | games/go/go.py:110 | as written, choosing row index 0 alone does not prompt, though exactly one half is chosen |
| GoSession.PromptAgreesAwayFromZero | games/go/go.py:110-116 | away from index 0 the written and intended prompt conditions agree |
| GoSession.OpponentAlternates | games/go/go.py:95-97 | the turn passes between the two players and back; in a self-match it stays |
| GoSession.Go.constructor | games/go/go.py:36-74 | an empty board; the first player follows the random order; the `verbose` argument is kept; no selection, last move or winner |
| GoSession.Go.InitializeSubMessage | games/go/go.py:76-78 | records the sub-message id and changes nothing else |
| GoSession.Go.PlayMove | games/go/go.py:99-143 | the reaction sets the row or the column; unless the match is verbose, the "Make your placement:" prompt is written when the source's truthiness test holds (index 0 reads as unchosen); a partial selection otherwise leaves the game alone; a complete one appends the MoveOutcome texts after any prompt and clears the choices |
| GoSession.Go.Commit | games/go/go.py:119-143 | a legal move clears the captures, records the last move, passes the turn and, unless the match is verbose, resets the prompt; an illegal one, verbose or not, keeps the board and turn and shows "Invalid Placement:" with the choice |
| SessionRegistry.GenerateSessionId | router/session.py:61-66 | the id is the unordered pair of players, larger first |
| SessionRegistry.SessionIdSymmetric | router/session.py:61-66 | the id does not depend on who challenged whom |
| SessionRegistry.SessionIdInjective | router/session.py:61-66 | two pairs share an id exactly when they are the same two players |
| SessionRegistry.Enroll | router/session.py:27-32 | the player's set gains the id (a missing player starts from the empty set), and nothing else changes |
| SessionRegistry.Withdraw | router/session.py:42-45 | the player's set loses the id, the player stays a key, and nothing else changes |
| SessionRegistry.Route | router/session.py:27-32 | the main message and the sub-message (when present) lead to the id; other routes stay |
| SessionRegistry.SessionManager.constructor | router/session.py:6-11 | all three dictionaries start empty |
| SessionRegistry.SessionManager.GetSession | router/session.py:51-52 | the stored session, or None when the id is unknown |
| SessionRegistry.SessionManager.GetSessionByMessage | router/session.py:54-56 | the session of a routed message while it is live, otherwise None |
| SessionRegistry.SessionManager.GetSessionByPlayer | router/session.py:58-59 | None for a player never enrolled; otherwise exactly the player's live sessions |
| SessionRegistry.SessionManager.AddSession | router/session.py:13-35 | refused exactly when the pair already has a live session; otherwise the session is stored, enrolled under both players and routed from its messages |
| SessionRegistry.SessionManager.RemoveSession | router/session.py:37-49 | removes the pair's live session and withdraws its id from both players; stale routes no longer lead anywhere |
| ConnectFour.EmptyGrid | games/connect4.py:22-27 | a 6x7 grid with every cell free |
| ConnectFour.ScanRangesCoverLines | games/connect4.py:35-56 | the start ranges of the four scans are exactly the starts of the lines that fit on the board |
| ConnectFour.WitnessLine | games/connect4.py:35-56 | a run found by any one scan is four in a row |
| ConnectFour.LowestVacantFrom | games/connect4.py:62-72 | the landing row is the lowest free cell, with every cell below it taken; None means the column is full |
| ConnectFour.Put | games/connect4.py:65 | the cell gets the piece and every other cell is unchanged |
| ConnectFour.FullColumnIffTopTaken | games/connect4.py:62-72 | on a stacked board a column is full exactly when its top cell is taken |
| ConnectFour.TakenBelow | games/connect4.py:62-72 | on a stacked board every cell below a taken one is taken |
| ConnectFour.DropKeepsStacked | games/connect4.py:62-72 | a drop keeps every piece resting on the bottom or on another piece |
| ConnectFour.DropKeepsLines | games/connect4.py:62-72 | a drop never destroys an existing four in a row |
| ConnectFour.ColumnOrderInRange | games/connect4.py:74-91 | a shuffled button order holds every column, each in range |
| ConnectFour.BotFindsRoom | games/connect4.py:74-91 | whenever some column has room, the bot plays the first column of its order that has room |
| ConnectFour.Connect4.constructor | games/connect4.py:15-30 | an empty board; against the bot the primary player starts, otherwise the random choice decides |
| ConnectFour.Connect4.ScanRuns | games/connect4.py:35-56 | one nest of scan loops finds a run exactly when one exists among its start points |
| ConnectFour.Connect4.DetectCurrentPlayerWin | games/connect4.py:35-56 | true exactly when the current player has four in a row anywhere |
| ConnectFour.Connect4.Drop | games/connect4.py:62-72 | drops into the lowest free cell and then either records the winner or passes the turn; a full column changes nothing |
| ConnectFour.Connect4.PlayMove | games/connect4.py:58-93 | the human drop followed by the bot's answer when the bot holds the turn; returns whether the human piece was placed |
| ConnectFour.Connect4.BotMove | games/connect4.py:74-91 | the state after the bot's first drop into a column with room, in the shuffled order |
| WaveRpg.MonsterAndPlayerExclusive | games/waveRPG.py:175-180 | no square holds both a monster and a player unit |
| WaveRpg.InitBoard | games/waveRPG.py:48-49 | level 0 starts with a single unit: a bug with speed -1 at (0, 0), stored under its own square |
| WaveRpg.BugFacts | games/waveRPG.py:168-172 | a bug's advance keeps every unit under its own square, keeps the other squares occupied, and never adds units |
| WaveRpg.PawnFacts | games/waveRPG.py:148-161 | the same for a pawn's advance |
| WaveRpg.AdvanceFacts | games/waveRPG.py:130-172 | the same for either kind of unit |
| WaveRpg.RemoveCard | games/waveRPG.py:130-131 | removing an occupied square shrinks the board by one unit |
| WaveRpg.UpdateCard | games/waveRPG.py:130-131 | writing a square adds at most one unit, and none when it was occupied |
| WaveRpg.BugStepsDown | games/waveRPG.py:168-172 | a bug ends one row lower, its old square is empty, and nothing else moves |
| WaveRpg.PawnCapturesLeft | games/waveRPG.py:148-161 | a pawn with a monster up-left takes that square and removes the monster |
| WaveRpg.PawnBlocked | games/waveRPG.py:148-161 | a pawn with no monster diagonally ahead and a unit straight ahead stays put |
| WaveRpg.FirstExists | games/waveRPG.py:56-58 | every non-empty set of units has one that goes first |
| WaveRpg.PriorityOrder | games/waveRPG.py:56-58 | lists each unit's square exactly once, ordered by speed and then by row index, both descending |
| WaveRpg.AdvanceAll | games/waveRPG.py:63-64 | advancing every listed unit keeps units under their squares and never adds units |
| WaveRpg.CapturingPawnAdvancesTwice | games/waveRPG.py:63-64 | squares are visited as they were at the start of the turn, so a pawn that captures into a later square moves again |
| WaveRpg.SpawnPlacesPawn | games/waveRPG.py:66-71 | a column button puts a fresh pawn on the bottom row of that column and the wait button places nothing |
| WaveRpg.WaveRPG.constructor | games/waveRPG.py:17-40 | the primary player moves, with three lives and the level-0 board |
| WaveRpg.WaveRPG.PlayMove | games/waveRPG.py:51-74 | the units advance in some priority order, then the button's pawn is spawned; the turn, lives and winner are unchanged and the move is accepted |
| LegacyGo.LegacyOwner | games/go.py:235-251 | a tile's owner is None exactly for empty tiles and the class `go` exactly for walls |
| LegacyGo.LegacyTestsAgree | games/go.py:235-251 | walls are not-owned-by everyone but never liberties; the legacy join and liberty tests agree with the package's |
| LegacyGo.HashPacks | games/go.py:385-387 | the xor hash equals row times 65536 plus column, for columns below 65536 |
| LegacyGo.HashInjective | games/go.py:385-387 | two points hash equally exactly when they are the same point |
| LegacyGo.LegacyStoneEqualsIsIdentity | games/go.py:296-301 | legacy stone equality by owner and hash holds exactly for identical stones |
| LegacyGo.OccupiedCheckNeverFires | games/go.py:364-368 | the occupied check as written rejects nothing |
| LegacyGo.OccupiedPointAcceptedAsWritten | games/go.py:364-368 | as written, player 1 may play on player 2's centre stone; the corrected rule refuses it |
| LegacyGo.LegacyRulesAgreeOnFreePoints | games/go.py:351-374 | on a point without a stone the written and corrected rules agree |
| LegacyGo.LegacyStricter | games/go.py:351-362 | the corrected legacy rule (LegacyLegal) accepts only moves the package also accepts |
| LegacyGo.LegacyStricterAsWritten | games/go.py:351-374 | the rule the legacy match runs (LegacyLegalAsWritten) accepts only moves the package also accepts, on points that hold no stone |
| LegacyGo.AsWrittenAcceptsWhatPackageRefuses | games/go.py:364-368 | on an occupied point the rule the legacy match runs accepts a move the package refuses |
| LegacyGo.CornerStoneHasNoLiberty | games/go.py:331-341 | in the corner position, the new stone alone has no liberty before captures |
| LegacyGo.CornerCaptures | games/go.py:314-329 | in the corner position the move would capture |
| LegacyGo.CaptureIntoCornerRejected | games/go.py:351-362 | a capturing move into the corner is legal in the package and refused by the legacy game, under the rule as written and the corrected rule |
| LegacyGo.ClearGroup | games/go.py:321-329 | the group's points become empty tiles and all others stay |
| LegacyGo.GroupAvoidsClosed | games/go.py:321-329 | a group seeded outside a closed set of stones never meets it |
| LegacyGo.LibertiesOutsideCleared | games/go.py:321-329 | clearing other closed groups does not change whether a group has a liberty |
| LegacyGo.CollectCaptureGroups | games/go.py:316-319 | exactly one group per joining liberty, in top/right/bottom/left order, each equal to `Group` of its seed |
| LegacyGo.CapturedIsUnion | games/go.py:314-329 | the union of the collected libertyless groups is the package's captured set |
| LegacyGo.LegacyResolveCaptures | games/go.py:314-329 | clearing the collected groups one at a time, each re-checked on the partly cleared board, clears exactly the captured stones |
| LegacyGo.LegacyAttemptPlacementAsWritten | games/go.py:82-111 | accepted exactly when LegacyLegalAsWritten (no occupied-point rejection, suicide checked before captures); a refusal restores the board; an acceptance writes the stone, over any stone standing there, and clears exactly the captured stones |
| LegacyGo.LegacyAttemptPlacement | games/go.py:351-374 | the corrected transaction: accepted exactly when LegacyLegal, which also refuses an occupied point; otherwise as the as-written transaction |
| LegacyGo.LegacyRenderSelectionInjective | games/go.py:178-181 | different selections always render to different texts |
| LegacyGo.LegacyGoMatch.constructor | games/go.py:25-54 | an empty board, the first player by random order, nothing selected and the lock free |
| LegacyGo.LegacyGoMatch.InitializeSubMessage | games/go.py:63-65 | records the sub-message id and changes nothing else |
| LegacyGo.LegacyGoMatch.PlayMove | games/go.py:70-117 | lock, record the reaction's half, and on a complete selection end in LegacyMoveOutcome (the rule as written) with the choices cleared; unlock |
| LegacyGo.LegacyGoMatch.Commit | games/go.py:82-114 | decides by the rule as written: an accepted move (an occupied point included) clears the captures, records the last move and passes the turn; a refused one keeps the board and shows "Invalid Placement:" |

## Left out

- Discord I/O is not modelled: messages, embeds, images, reactions, the
  database and logging, and `on_complete`. Message edits appear only as the
  texts written to the Go sub-message.
- The random first player (go.py, legacy go.py and Connect Four) is the
  parameter `primaryFirst`. The bot's shuffled column order is the parameter
  `cols`, constrained by `IsColumnOrder` to be a permutation of the seven
  columns.
- An emoji that is not a button raises KeyError in the source. Here the
  button index is a precondition (`IsButton`, a column in range).
- The `verbose` argument of `add_session` is not modelled: the source never
  passes it on to the game. The game's own `verbose` argument is modelled.
- SessionRegistry.SessionManager.AddSession: returns only a flag, where the
  source returns the new session object or False.
- `z_order_hash` (utils/hash.py) is not part of this model. `StoneEquals`
  compares positions directly, which assumes the hash is injective on the
  board.
- The Faker uuid drawn from the seeded generator is modelled as the seed
  pair itself. The model assumes that distinct seeds give distinct uuids.
- `__copy__` of tiles is not modelled: tiles are immutable values here.
- `GoLogic.EndGame` is modelled but has no contract: nothing in the engine
  calls `end_game`.
- `is_completed` is modelled only as "a winner is set". Neither Go engine
  nor waveRPG ever sets one.
- ConnectFour.Connect4.PlayMove: the human piece is written as the current
  player's id, where the source writes `payload.member.id`. The two are equal
  because the dispatcher (bot.py:119, connect_4.py:299) calls `play_move`
  only for the current player.
- WaveRpg.WaveRPG.PlayMove: Python's stable sort orders units with equal
  (speed, y) by dictionary insertion order. The model allows any order that
  is consistent with `Before`, and states the result for some such order.
- waveRPG's levels beyond level 0, lives and the win check are not
  modelled: the source defines only level 0 and never decrements lives.
- The legacy game's `mock` flag, `render_last_selection` and main-message
  embed are not modelled. Only the sub-message selection text is.
- The lock of the Go games is held only inside one `play_move`. The model
  has no concurrency, so the lock is visible only as the precondition
  `!lock`.

## Findings

| source | as written | input that shows it | evidently intended | confidence | as-written member | corrected member |
|---|---|---|---|---|---|---|
| games/go/go.py:110 | the "Make your placement" prompt for a half-made move tests the truthiness of the row and column indices, so index 0 counts as "not chosen"; the match (Go.PlayMove) runs this test | the first row (index 0) is chosen and no column yet: no prompt is shown; a column 3 then completing that row is prompted for as if only the column were chosen, before the placement | prompt whenever exactly one of row and column is chosen | not executed | GoSession.FirstRowSuppressesPrompt | GoSession.PromptAgreesAwayFromZero |
| games/go.py:364-368 | `placed_on_occupied_space` asks whether the tile's owner has type `tile`, which no owner has, so the check never fires; the legacy match runs this (LegacyAttemptPlacementAsWritten) | player 1 plays (4,4) on top of player 2's stone on an otherwise empty board: accepted, overwriting the stone | refuse a point that already holds a stone | not executed | LegacyGo.OccupiedPointAcceptedAsWritten | LegacyGo.LegacyAttemptPlacement |
