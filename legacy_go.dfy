/**
  * The earlier single-file Go engine (games/go.py). Its board, tiles and
  * flood fill are those of the games/go package, so the types, `Group`,
  * `HasLiberty`, `Captured` and `ClearedFrom` are shared. Where it differs:
  *
  *  - walls have the game class `go` as their owner instead of None;
  *  - stones compare by owner and `generate_hash(row, col)`;
  *  - the occupied-space check cannot fire as written, so a stone may be
  *    written over another (the match runs the transaction as written;
  *    `LegacyAttemptPlacement` is the corrected transaction);
  *  - the suicide check runs BEFORE captures are resolved, so a move whose
  *    own group has no liberty is rejected even if it would capture;
  *  - `resolve_captures` checks each candidate group against the board as
  *    it is being cleared, one group after the other;
  *  - the lock is held for the whole of `play_move`, and the sub-message
  *    shows a different selection text.
  */
module LegacyGo {
  import opened Wrappers
  import opened GoEntities
  import opened GoGroups
  import opened GoLogic
  import GoSession

  // ---------------------------------------------------------------------
  // Tiles: the owner attribute and its Python type.
  // ---------------------------------------------------------------------

  /** The value of a tile's `owner` attribute: None, a chat member, or the
      class `go` (walls). */
  datatype PyOwner = NoOwner | MemberOwner(id: PlayerId) | GoClass

  /** `type(...)` of an owner value. `TileType` is what the occupied check
      compares against; no owner value has it. */
  datatype PyType = NoneType | MemberType | ClassType | TileType

  function LegacyOwner(t: Tile): (o: PyOwner)
    ensures o == NoOwner <==> t.kind.Blank?
    ensures o == GoClass <==> t.kind.Wall?
  {
    match t.kind
    case Blank => NoOwner
    case Stone(p) => MemberOwner(p)
    case Wall => GoClass
  }

  function TypeOf(o: PyOwner): PyType {
    match o
    case NoOwner => NoneType
    case MemberOwner(_) => MemberType
    case GoClass => ClassType
  }

  /** `tile.is_not_owned_by` on the legacy tiles. */
  predicate LegacyIsNotOwnedBy(t: Tile, check: PlayerId) {
    LegacyOwner(t) != NoOwner && LegacyOwner(t) != MemberOwner(check)
  }

  /** The liberty test of `resolve_captures` and `sacrificed_stone`:
      `isinstance(dame, tile) and dame.owner is None`. */
  predicate LegacyIsLiberty(t: Tile) {
    LegacyOwner(t) == NoOwner
  }

  /** Walls count as not owned by every player, unlike in the package; the
      flood fill still never steps onto them because it asks for a stone,
      and they are never a liberty. So the legacy tests agree with the
      package's `Joins` and empty-tile test. */
  lemma LegacyTestsAgree(t: Tile, p: PlayerId)
    ensures t.kind.Wall? ==> LegacyIsNotOwnedBy(t, p) && !LegacyIsLiberty(t)
    ensures (t.kind.Stone? && LegacyIsNotOwnedBy(t, p)) <==> Joins(t, p)
    ensures LegacyIsLiberty(t) <==> t.kind.Blank?
  {
  }

  // ---------------------------------------------------------------------
  // Stone identity: generate_hash.
  // ---------------------------------------------------------------------

  /** Bitwise exclusive or of two non-negative Python ints. */
  function Xor(a: nat, b: nat): nat
    decreases a + b
  {
    if a == 0 && b == 0 then 0
    else 2 * Xor(a / 2, b / 2) + (if a % 2 != b % 2 then 1 else 0)
  }

  function Pow2(k: nat): (p: nat)
    ensures p >= 1
  {
    if k == 0 then 1 else 2 * Pow2(k - 1)
  }

  /** `generate_hash(row, col) = (row << 16) ^ col`, for the non-negative
      coordinates of stones on the board. */
  function GenerateHash(row: nat, col: nat): nat {
    Xor(row * Pow2(16), col)
  }

  lemma {:induction false} XorZero(a: nat)
    ensures Xor(a, 0) == a
    decreases a
  {
    if a != 0 {
      XorZero(a / 2);
    }
  }

  /** When the low k bits of the left operand are zero and the right one
      fits in k bits, exclusive or is addition. */
  lemma {:induction false} XorDisjoint(a: nat, k: nat, c: nat)
    requires c < Pow2(k)
    ensures Xor(a * Pow2(k), c) == a * Pow2(k) + c
    decreases k
  {
    if k == 0 {
      XorZero(a);
    } else {
      var x := a * Pow2(k);
      assert x == 2 * (a * Pow2(k - 1));
      assert x % 2 == 0 && x / 2 == a * Pow2(k - 1);
      assert c / 2 < Pow2(k - 1);
      XorDisjoint(a, k - 1, c / 2);
      if x != 0 || c != 0 {
        assert Xor(x, c) == 2 * Xor(x / 2, c / 2) + (if x % 2 != c % 2 then 1 else 0);
      }
    }
  }

  lemma Pow2Sixteen()
    ensures Pow2(16) == 65536
  {
    assert Pow2(4) == 16;
    assert Pow2(8) == 256;
    assert Pow2(12) == 4096;
  }

  /** The hash packs the row above the low 16 bits, which hold the column. */
  lemma HashPacks(row: nat, col: nat)
    requires col < 65536
    ensures GenerateHash(row, col) == row * 65536 + col
  {
    Pow2Sixteen();
    XorDisjoint(row, 16, col);
  }

  /** `generate_hash` is injective for columns below 2^16, so two stones
      hash alike exactly when they stand on the same point. */
  lemma HashInjective(r1: nat, c1: nat, r2: nat, c2: nat)
    requires c1 < 65536 && c2 < 65536
    ensures GenerateHash(r1, c1) == GenerateHash(r2, c2) <==> (r1, c1) == (r2, c2)
  {
    HashPacks(r1, c1);
    HashPacks(r2, c2);
  }

  /** `stone.__eq__`: another stone with the same owner and the same hash. */
  predicate LegacyStoneEquals(s: Tile, other: Tile)
    requires InBounds(s.row, s.col) && InBounds(other.row, other.col)
  {
    s.kind.Stone? && other.kind.Stone? && LegacyOwner(s) == LegacyOwner(other) &&
    GenerateHash(s.row, s.col) == GenerateHash(other.row, other.col)
  }

  /** On the board, stone equality is value equality, which is what lets
      the visited set of the flood fill be a set of tiles. */
  lemma LegacyStoneEqualsIsIdentity(s: Tile, other: Tile)
    requires InBounds(s.row, s.col) && InBounds(other.row, other.col)
    requires s.kind.Stone? && other.kind.Stone?
    ensures LegacyStoneEquals(s, other) <==> s == other
  {
    HashInjective(s.row, s.col, other.row, other.col);
  }

  // ---------------------------------------------------------------------
  // Validation.
  // ---------------------------------------------------------------------

  /** `placed_on_occupied_space` as written: it reads `board[col][row]` and
      asks whether that tile's owner is exactly of type `tile`. A tile object
      is always truthy. */
  predicate PlacedOnOccupiedSpaceAsWritten(b: Board, row: int, col: int)
    requires ValidBoard(b) && InBounds(row, col)
  {
    TypeOf(LegacyOwner(b[col][row])) == TileType
  }

  /** No owner has type `tile`, so the check as written never fires. */
  lemma OccupiedCheckNeverFires(b: Board, row: int, col: int)
    requires ValidBoard(b) && InBounds(row, col)
    ensures !PlacedOnOccupiedSpaceAsWritten(b, row, col)
  {
  }

  /** The legacy acceptance rule as written: no occupied-space rejection,
      not the last move's point, and the new stone's group (grown through
      stones not owned by `other`) has a liberty before anything is
      captured. */
  ghost predicate LegacyLegalAsWritten(b: Board, owner: PlayerId, other: PlayerId, row: int, col: int,
                                       lastState: Option<LastState>)
    requires ValidBoard(b) && InBounds(row, col)
  {
    !PlacedOnOccupiedSpaceAsWritten(b, row, col) &&
    !PlacedOnPreviouslyPlayedSpace(row, col, lastState) &&
    var b1 := Place(b, row, col, owner);
    HasLiberty(b1, Group(b1, other, Tile(row, col, Stone(owner))))
  }

  /** The legacy acceptance rule with the occupied check corrected to the
      package's (`GoLogic.PlacedOnOccupiedSpace`: the point holds a stone). */
  ghost predicate LegacyLegal(b: Board, owner: PlayerId, other: PlayerId, row: int, col: int,
                              lastState: Option<LastState>)
    requires ValidBoard(b) && InBounds(row, col)
  {
    !PlacedOnOccupiedSpace(b, row, col) &&
    !PlacedOnPreviouslyPlayedSpace(row, col, lastState) &&
    var b1 := Place(b, row, col, owner);
    HasLiberty(b1, Group(b1, other, Tile(row, col, Stone(owner))))
  }

  /** The board with a single stone of player 2 at the centre. */
  function CentreStoneBoard(): (b: Board)
    ensures ValidBoard(b)
  {
    seq(BOARD_Y, r => seq(BOARD_X, c => Tile(r, c, if (r, c) == (4, 4) then Stone(2) else Blank)))
  }

  /** As written, player 1 may play on top of player 2's stone at the
      centre (its empty neighbours give the new stone a liberty); the
      corrected rule rejects it. */
  lemma OccupiedPointAcceptedAsWritten()
    ensures CentreStoneBoard()[4][4].kind == Stone(2)
    ensures LegacyLegalAsWritten(CentreStoneBoard(), 1, 2, 4, 4, None)
    ensures !LegacyLegal(CentreStoneBoard(), 1, 2, 4, 4, None)
  {
    var b := CentreStoneBoard();
    var b1 := Place(b, 4, 4, 1);
    var root := Tile(4, 4, Stone(1));
    GroupIsLeastClosed(b1, 2, root);
    assert Liberties(b1, root)[0] == Tile(3, 4, Blank);
  }

  /** Away from occupied points the as-written and corrected rules agree. */
  lemma LegacyRulesAgreeOnFreePoints(b: Board, owner: PlayerId, other: PlayerId, row: int, col: int,
                                     lastState: Option<LastState>)
    requires ValidBoard(b) && InBounds(row, col) && !b[row][col].kind.Stone?
    ensures LegacyLegalAsWritten(b, owner, other, row, col, lastState) <==>
            LegacyLegal(b, owner, other, row, col, lastState)
  {
  }

  /** The corrected legacy rule (LegacyLegal) accepts only moves the
      package accepts. */
  lemma LegacyStricter(b: Board, owner: PlayerId, other: PlayerId, row: int, col: int,
                       lastState: Option<LastState>)
    requires ValidBoard(b) && InBounds(row, col)
    requires LegacyLegal(b, owner, other, row, col, lastState)
    ensures Legal(b, owner, other, row, col, lastState)
  {
  }

  /** The rule the legacy match runs accepts only moves the package accepts
      on points that hold no stone; on an occupied point it may accept a
      move the package refuses. */
  lemma LegacyStricterAsWritten(b: Board, owner: PlayerId, other: PlayerId, row: int, col: int,
                                lastState: Option<LastState>)
    requires ValidBoard(b) && InBounds(row, col) && !b[row][col].kind.Stone?
    requires LegacyLegalAsWritten(b, owner, other, row, col, lastState)
    ensures Legal(b, owner, other, row, col, lastState)
  {
    LegacyRulesAgreeOnFreePoints(b, owner, other, row, col, lastState);
    LegacyStricter(b, owner, other, row, col, lastState);
  }

  /** On the centre-stone board the rule as written accepts player 1's move
      onto player 2's stone, which the package refuses. */
  lemma AsWrittenAcceptsWhatPackageRefuses()
    ensures LegacyLegalAsWritten(CentreStoneBoard(), 1, 2, 4, 4, None)
    ensures !Legal(CentreStoneBoard(), 1, 2, 4, 4, None)
  {
    OccupiedPointAcceptedAsWritten();
    assert PlacedOnOccupiedSpace(CentreStoneBoard(), 4, 4);
  }

  function CornerKind(r: int, c: int): Kind {
    if (r, c) == (0, 1) || (r, c) == (1, 0) then Stone(2)
    else if (r, c) == (0, 2) || (r, c) == (1, 1) then Stone(1)
    else Blank
  }

  /** Player 2 has stones at (0, 1) and (1, 0); player 1 has stones at
      (0, 2) and (1, 1). */
  function CornerBoard(): (b: Board)
    ensures ValidBoard(b)
  {
    seq(BOARD_Y, r => seq(BOARD_X, c => Tile(r, c, CornerKind(r, c))))
  }

  /** A tile none of whose neighbours may be joined is a group of one. */
  lemma LoneStone(b: Board, excl: PlayerId, t: Tile)
    requires ValidBoard(b)
    requires forall i :: 0 <= i < 4 ==> !Joins(Liberties(b, t)[i], excl)
    ensures Group(b, excl, t) == {t}
  {
    assert Closed(b, excl, {t});
    GroupIsLeastClosed(b, excl, t);
  }

  /** On the corner board with player 1 at (0, 0), that stone's group
      (grown through stones not owned by player 2) has no empty liberty. */
  lemma CornerStoneHasNoLiberty()
    ensures var b1 := Place(CornerBoard(), 0, 0, 1);
      !HasLiberty(b1, Group(b1, 2, Tile(0, 0, Stone(1))))
  {
    var b := CornerBoard();
    var b1 := Place(b, 0, 0, 1);
    var root := Tile(0, 0, Stone(1));
    assert b1[0][1] == b[0][1] == Tile(0, 1, Stone(2));
    assert b1[1][0] == b[1][0] == Tile(1, 0, Stone(2));
    var libs := Liberties(b1, root);
    assert libs[0].kind == Wall && libs[1].kind == Stone(2) && libs[2].kind == Stone(2) && libs[3].kind == Wall;
    LoneStone(b1, 2, root);
  }

  /** On the same board, player 2's stone at (0, 1) is captured. */
  lemma CornerCaptures()
    ensures var b1 := Place(CornerBoard(), 0, 0, 1);
      Tile(0, 1, Stone(2)) in Captured(b1, 1, Tile(0, 0, Stone(1)))
  {
    var b := CornerBoard();
    var b1 := Place(b, 0, 0, 1);
    var root := Tile(0, 0, Stone(1));
    var seed := Tile(0, 1, Stone(2));
    assert b1[0][1] == b[0][1] == seed;
    assert b1[0][2] == b[0][2] == Tile(0, 2, Stone(1));
    assert b1[1][1] == b[1][1] == Tile(1, 1, Stone(1));
    var libs := Liberties(b1, seed);
    assert libs[0].kind == Wall && libs[1].kind == Stone(1) && libs[2].kind == Stone(1) && libs[3].kind == Stone(1);
    LoneStone(b1, 1, seed);
    assert Liberties(b1, root)[1] == seed;
    assert 0 <= 1 < 4 && Joins(Liberties(b1, root)[1], 1) &&
           !HasLiberty(b1, Group(b1, 1, Liberties(b1, root)[1])) && seed in Group(b1, 1, Liberties(b1, root)[1]);
  }

  /** Player 1 playing the corner (0, 0) would capture the stone at (0, 1),
      but the new stone has no liberty of its own before the capture: the
      package accepts the move, the legacy engine rejects it, under the
      rule as written and the corrected rule alike. */
  lemma CaptureIntoCornerRejected()
    ensures Legal(CornerBoard(), 1, 2, 0, 0, None)
    ensures !LegacyLegalAsWritten(CornerBoard(), 1, 2, 0, 0, None)
    ensures !LegacyLegal(CornerBoard(), 1, 2, 0, 0, None)
  {
    CornerStoneHasNoLiberty();
    CornerCaptures();
  }

  // ---------------------------------------------------------------------
  // Capture resolution, one group at a time.
  // ---------------------------------------------------------------------

  /** The points of a set of tiles. */
  function Points(S: set<Tile>): set<(int, int)> {
    set t | t in S :: (t.row, t.col)
  }

  /** `for capture in capture_group: board[...] = tile(...)`: every point
      of the group becomes an empty tile; the rest of the board stays. */
  method ClearGroup(b: Board, group: set<Tile>) returns (b': Board)
    requires ValidBoard(b)
    requires forall t :: t in group ==> InBounds(t.row, t.col)
    ensures ValidBoard(b')
    ensures forall r, c :: InBounds(r, c) ==>
      b'[r][c] == if (r, c) in Points(group) then Tile(r, c, Blank) else b[r][c]
  {
    b' := b;
    var rest := group;
    while rest != {}
      invariant rest <= group
      invariant ValidBoard(b')
      invariant forall r, c :: InBounds(r, c) ==>
        b'[r][c] == if (r, c) in Points(group - rest) then Tile(r, c, Blank) else b[r][c]
      decreases rest
    {
      var capture :| capture in rest;
      assert Points(group - (rest - {capture})) == Points(group - rest) + {(capture.row, capture.col)};
      b' := b'[capture.row := b'[capture.row][capture.col := Tile(capture.row, capture.col, Blank)]];
      rest := rest - {capture};
    }
  }

  /** A group seeded outside a closed set U of the board never meets U: a
      member next to U would join U by the symmetry of neighbours. */
  lemma GroupAvoidsClosed(b: Board, excl: PlayerId, seed: Tile, U: set<Tile>)
    requires ValidBoard(b) && Closed(b, excl, U)
    requires InBounds(seed.row, seed.col) && b[seed.row][seed.col] == seed && Joins(seed, excl)
    requires seed !in U
    ensures Group(b, excl, seed) * U == {}
  {
    GroupIsLeastClosed(b, excl, seed);
    var G := Group(b, excl, seed);
    var T := G - U;
    forall y, i | y in T && 0 <= i < 4 && Joins(Liberties(b, y)[i], excl)
      ensures Liberties(b, y)[i] in T
    {
      var z := Liberties(b, y)[i];
      if y != seed {
        BoardTileAt(b, y);
      }
      JoinerOnBoard(b, y, i, excl);
      LibertySymmetric(b, y, i);
    }
    assert G <= T;
  }

  /** Clearing a closed set U does not change the liberties of a group that
      avoids U: each liberty is either a wall or a point outside U. */
  lemma LibertiesOutsideCleared(b: Board, excl: PlayerId, G: set<Tile>, U: set<Tile>, b': Board)
    requires ValidBoard(b) && ClearedFrom(b, U, b')
    requires Closed(b, excl, G) && G * U == {}
    requires forall t :: t in U ==> Joins(t, excl)
    ensures HasLiberty(b', G) <==> HasLiberty(b, G)
  {
    forall t, i | t in G && 0 <= i < 4
      ensures Liberties(b', t)[i] == Liberties(b, t)[i]
    {
      var n := Liberties(b, t)[i];
      assert InBounds(n.row, n.col) ==> n == b[n.row][n.col];
      assert Joins(n, excl) ==> n in G;
      assert n in U ==> n in G * U;
    }
    if HasLiberty(b', G) {
      var t, i :| t in G && 0 <= i < 4 && Liberties(b', t)[i].kind.Blank?;
      assert Liberties(b, t)[i].kind.Blank?;
    }
    if HasLiberty(b, G) {
      var t, i :| t in G && 0 <= i < 4 && Liberties(b, t)[i].kind.Blank?;
      assert Liberties(b', t)[i].kind.Blank?;
    }
  }

  /** Clearing the points of a group of board tiles extends the cleared set. */
  lemma ClearMore(b: Board, U: set<Tile>, b': Board, G: set<Tile>, b'': Board)
    requires ValidBoard(b) && ClearedFrom(b, U, b') && ValidBoard(b'')
    requires forall t :: t in G ==> InBounds(t.row, t.col) && b[t.row][t.col] == t
    requires forall r, c :: InBounds(r, c) ==>
      b''[r][c] == if (r, c) in Points(G) then Tile(r, c, Blank) else b'[r][c]
    ensures ClearedFrom(b, U + G, b'')
  {
    forall r, c | InBounds(r, c)
      ensures b''[r][c] == if b[r][c] in U + G then Tile(r, c, Blank) else b[r][c]
    {
      if (r, c) in Points(G) {
        var t :| t in G && (t.row, t.col) == (r, c);
        assert b[r][c] == t;
      }
    }
  }

  /** The members of a group seeded at a joining liberty of `root` are
      joining stones of the board. */
  lemma GroupOnBoard(b: Board, excl: PlayerId, root: Tile, i: int)
    requires ValidBoard(b) && 0 <= i < 4 && Joins(Liberties(b, root)[i], excl)
    ensures forall t :: t in Group(b, excl, Liberties(b, root)[i]) ==>
      InBounds(t.row, t.col) && b[t.row][t.col] == t && Joins(t, excl)
    ensures Closed(b, excl, Group(b, excl, Liberties(b, root)[i]))
  {
    var seed := Liberties(b, root)[i];
    GroupIsLeastClosed(b, excl, seed);
    JoinerOnBoard(b, root, i, excl);
    BoardTileAt(b, seed);
    forall t | t in Group(b, excl, seed)
      ensures InBounds(t.row, t.col) && b[t.row][t.col] == t && Joins(t, excl)
    {
      if t != seed {
        BoardTileAt(b, t);
      }
    }
  }

  /** One round of the legacy clearing loop: checking a group against the
      board with the earlier captured groups U already cleared, and clearing
      it when that check finds no liberty, clears exactly what checking it
      against the original board would. */
  lemma CheckAgainstPartlyCleared(b: Board, owner: PlayerId, root: Tile, i: int, U: set<Tile>,
                                  b': Board, isCaptured: bool, next: Board)
    requires ValidBoard(b) && 0 <= i < 4 && Joins(Liberties(b, root)[i], owner)
    requires ClearedFrom(b, U, b') && Closed(b, owner, U)
    requires forall t :: t in U ==> Joins(t, owner)
    requires isCaptured <==> !HasLiberty(b', Group(b, owner, Liberties(b, root)[i]))
    requires !isCaptured ==> next == b'
    requires isCaptured ==> ValidBoard(next) && forall r, c :: InBounds(r, c) ==>
      next[r][c] == if (r, c) in Points(Group(b, owner, Liberties(b, root)[i])) then Tile(r, c, Blank) else b'[r][c]
    ensures var G := Group(b, owner, Liberties(b, root)[i]);
      var U' := if !HasLiberty(b, G) then U + G else U;
      ClearedFrom(b, U', next) && Closed(b, owner, U') && forall t :: t in U' ==> Joins(t, owner)
  {
    var seed := Liberties(b, root)[i];
    var G := Group(b, owner, seed);
    GroupOnBoard(b, owner, root, i);
    GroupIsLeastClosed(b, owner, seed);
    if seed in U {
      assert G <= U;
      if isCaptured {
        ClearMore(b, U, b', G, next);
        assert U + G == U;
      }
    } else {
      GroupAvoidsClosed(b, owner, seed, U);
      LibertiesOutsideCleared(b, owner, G, U, b');
      if isCaptured {
        ClearMore(b, U, b', G, next);
      }
    }
  }

  /** `groups` lists the group of every liberty of `root` that is a stone
      not owned by `owner`, once each and in direction order; `seeds` are
      those directions. */
  ghost predicate ListsGroups(b: Board, owner: PlayerId, root: Tile, groups: seq<set<Tile>>, seeds: seq<int>)
    requires ValidBoard(b)
  {
    |seeds| == |groups| &&
    (forall k :: 0 <= k < |seeds| ==>
       0 <= seeds[k] < 4 && Joins(Liberties(b, root)[seeds[k]], owner) &&
       groups[k] == Group(b, owner, Liberties(b, root)[seeds[k]])) &&
    (forall k, l :: 0 <= k < l < |seeds| ==> seeds[k] < seeds[l]) &&
    (forall j :: 0 <= j < 4 && Joins(Liberties(b, root)[j], owner) ==> j in seeds)
  }

  /** The first loop of the legacy `resolve_captures`. */
  method CollectCaptureGroups(b: Board, owner: PlayerId, root: Tile)
    returns (captureGroups: seq<set<Tile>>, ghost seeds: seq<int>)
    requires ValidBoard(b)
    ensures ListsGroups(b, owner, root, captureGroups, seeds)
  {
    var libs := Liberties(b, root);
    captureGroups := [];
    seeds := [];
    for i := 0 to 4
      invariant |seeds| == |captureGroups|
      invariant forall k :: 0 <= k < |seeds| ==>
        0 <= seeds[k] < i && Joins(libs[seeds[k]], owner) &&
        captureGroups[k] == Group(b, owner, libs[seeds[k]])
      invariant forall k, l :: 0 <= k < l < |seeds| ==> seeds[k] < seeds[l]
      invariant forall j :: 0 <= j < i && Joins(libs[j], owner) ==> j in seeds
    {
      var dame := libs[i];
      if dame.kind.Stone? && IsNotOwnedBy(dame, owner) {
        var group := FindGroup(b, owner, dame, {dame});
        captureGroups := captureGroups + [group];
        seeds := seeds + [i];
      }
    }
  }

  /** The stones of the first k listed groups that have no liberty. */
  ghost function CapturedAmong(b: Board, groups: seq<set<Tile>>, k: int): set<Tile>
    requires ValidBoard(b) && 0 <= k <= |groups|
  {
    set m, t | 0 <= m < k && !HasLiberty(b, groups[m]) && t in groups[m] :: t
  }

  lemma CapturedAmongStep(b: Board, groups: seq<set<Tile>>, k: int)
    requires ValidBoard(b) && 0 <= k < |groups|
    ensures CapturedAmong(b, groups, k + 1) ==
      if !HasLiberty(b, groups[k]) then CapturedAmong(b, groups, k) + groups[k] else CapturedAmong(b, groups, k)
  {
  }

  /** The union of the listed groups without a liberty is `Captured`. */
  lemma CapturedIsUnion(b: Board, owner: PlayerId, root: Tile, groups: seq<set<Tile>>, seeds: seq<int>)
    requires ValidBoard(b) && ListsGroups(b, owner, root, groups, seeds)
    ensures CapturedAmong(b, groups, |groups|) == Captured(b, owner, root)
  {
    var libs := Liberties(b, root);
    var U := CapturedAmong(b, groups, |groups|);
    forall t
      ensures t in U <==> t in Captured(b, owner, root)
    {
      if t in U {
        var m :| 0 <= m < |groups| && !HasLiberty(b, groups[m]) && t in groups[m];
        var i := seeds[m];
        assert 0 <= i < 4 && Joins(libs[i], owner) && !HasLiberty(b, Group(b, owner, libs[i])) &&
               t in Group(b, owner, libs[i]);
      }
      if t in Captured(b, owner, root) {
        var i :| 0 <= i < 4 && Joins(libs[i], owner) && !HasLiberty(b, Group(b, owner, libs[i])) &&
                 t in Group(b, owner, libs[i]);
        assert i in seeds;
        var m :| 0 <= m < |seeds| && seeds[m] == i;
        assert !HasLiberty(b, groups[m]) && t in groups[m];
      }
    }
  }

  /** `resolve_captures` (legacy): collects the group of each liberty of
      `root` that is a stone not owned by `owner`, then for each group in
      turn looks for an empty liberty on the board AS IT STANDS, clearing the
      group when there is none. Checking against the partly cleared board
      gives the same result as checking against the board before: distinct
      groups never touch, and a group met twice is already cleared. */
  method LegacyResolveCaptures(b: Board, owner: PlayerId, root: Tile) returns (b': Board)
    requires ValidBoard(b)
    ensures ClearedFrom(b, Captured(b, owner, root), b')
  {
    var captureGroups, seeds := CollectCaptureGroups(b, owner, root);
    b' := b;
    for k := 0 to |captureGroups|
      invariant ClearedFrom(b, CapturedAmong(b, captureGroups, k), b')
      invariant Closed(b, owner, CapturedAmong(b, captureGroups, k))
      invariant forall t :: t in CapturedAmong(b, captureGroups, k) ==> Joins(t, owner)
    {
      var G := captureGroups[k];
      GroupOnBoard(b, owner, root, seeds[k]);
      var isCaptured := IsCaptured(b', G);
      var next := b';
      if isCaptured {
        next := ClearGroup(b', G);
      }
      CheckAgainstPartlyCleared(b, owner, root, seeds[k], CapturedAmong(b, captureGroups, k), b', isCaptured, next);
      CapturedAmongStep(b, captureGroups, k);
      b' := next;
    }
    CapturedIsUnion(b, owner, root, captureGroups, seeds);
  }

  /** The body of the legacy `play_move` transaction with the occupied check
      corrected to the package's: validate, write the stone, reject
      (restoring the cell) when the new stone's group has no liberty,
      otherwise clear the captured groups. */
  method LegacyAttemptPlacement(board: Board, owner: PlayerId, other: PlayerId, row: int, col: int,
                                lastState: Option<LastState>)
    returns (isValidPlacement: bool, board': Board)
    requires ValidBoard(board) && InBounds(row, col)
    ensures ValidBoard(board')
    ensures isValidPlacement <==> LegacyLegal(board, owner, other, row, col, lastState)
    ensures !isValidPlacement ==> board' == board
    ensures isValidPlacement ==>
      var b1 := Place(board, row, col, owner);
      ClearedFrom(b1, Captured(b1, owner, Tile(row, col, Stone(owner))), board')
  {
    var tempStone := board[row][col];
    var placement := Tile(row, col, Stone(owner));
    board' := board;
    if PlacedOnOccupiedSpace(board, row, col) || PlacedOnPreviouslyPlayedSpace(row, col, lastState) {
      board' := board'[row := board'[row][col := tempStone]];
      assert board'[row] == board[row];
      isValidPlacement := false;
      return;
    }
    board' := board'[row := board'[row][col := placement]];
    assert board' == Place(board, row, col, owner);
    var sacrificed := SacrificedStone(board', other, placement);
    if sacrificed {
      board' := board'[row := board'[row][col := tempStone]];
      assert board'[row] == board[row];
      isValidPlacement := false;
      return;
    }
    isValidPlacement := true;
    board' := LegacyResolveCaptures(board', owner, placement);
  }

  /** The same transaction with the occupied check as written: it never
      fires, so a stone on an occupied point is written over the stone that
      stood there whenever its group has a liberty. This is what the legacy
      match runs. */
  method LegacyAttemptPlacementAsWritten(board: Board, owner: PlayerId, other: PlayerId, row: int, col: int,
                                         lastState: Option<LastState>)
    returns (isValidPlacement: bool, board': Board)
    requires ValidBoard(board) && InBounds(row, col)
    ensures ValidBoard(board')
    ensures isValidPlacement <==> LegacyLegalAsWritten(board, owner, other, row, col, lastState)
    ensures !isValidPlacement ==> board' == board
    ensures isValidPlacement ==>
      var b1 := Place(board, row, col, owner);
      ClearedFrom(b1, Captured(b1, owner, Tile(row, col, Stone(owner))), board')
  {
    var tempStone := board[row][col];
    var placement := Tile(row, col, Stone(owner));
    board' := board;
    if PlacedOnOccupiedSpaceAsWritten(board, row, col) || PlacedOnPreviouslyPlayedSpace(row, col, lastState) {
      board' := board'[row := board'[row][col := tempStone]];
      assert board'[row] == board[row];
      isValidPlacement := false;
      return;
    }
    board' := board'[row := board'[row][col := placement]];
    assert board' == Place(board, row, col, owner);
    var sacrificed := SacrificedStone(board', other, placement);
    if sacrificed {
      board' := board'[row := board'[row][col := tempStone]];
      assert board'[row] == board[row];
      isValidPlacement := false;
      return;
    }
    isValidPlacement := true;
    board' := LegacyResolveCaptures(board', owner, placement);
  }

  // ---------------------------------------------------------------------
  // The sub-message text.
  // ---------------------------------------------------------------------

  const SUB_MESSAGE: string := "`Select a row and a column`"

  /** The BUTTONS_ROW key of a row index: a keycap digit. */
  function RowEmoji(i: int): string
    requires 0 <= i < 9
  {
    [GoSession.Digit(i + 1), '\U{FE0F}', '\U{20E3}']
  }

  /** The BUTTONS_COL key of a column index: a regional indicator letter. */
  function ColEmoji(i: int): string
    requires 0 <= i < 9
  {
    [(0x1F1E6 + i) as char]
  }

  /** `render_selection` (legacy): the message in backticks, then the row
      and column emojis, tab-separated; an unset part is two tabs. */
  function LegacyRenderSelection(msg: string, r: Option<int>, c: Option<int>): string
    requires GoSession.SelectionOk(r) && GoSession.SelectionOk(c)
  {
    "`" + msg + "`\t" + (if r.Some? then RowEmoji(r.value) else "\t\t") + "\t" +
    (if c.Some? then ColEmoji(c.value) else "\t\t")
  }

  /** The text tells the selection apart: different selections never
      render alike. */
  lemma LegacyRenderSelectionInjective(msg: string, r1: Option<int>, c1: Option<int>,
                                       r2: Option<int>, c2: Option<int>)
    requires GoSession.SelectionOk(r1) && GoSession.SelectionOk(c1)
    requires GoSession.SelectionOk(r2) && GoSession.SelectionOk(c2)
    requires LegacyRenderSelection(msg, r1, c1) == LegacyRenderSelection(msg, r2, c2)
    ensures r1 == r2 && c1 == c2
  {
    var head := "`" + msg + "`\t";
    var s1 := LegacyRenderSelection(msg, r1, c1);
    var s2 := LegacyRenderSelection(msg, r2, c2);
    var rp1 := if r1.Some? then RowEmoji(r1.value) else "\t\t";
    var rp2 := if r2.Some? then RowEmoji(r2.value) else "\t\t";
    var cp1 := if c1.Some? then ColEmoji(c1.value) else "\t\t";
    var cp2 := if c2.Some? then ColEmoji(c2.value) else "\t\t";
    assert s1 == head + rp1 + "\t" + cp1;
    assert s2 == head + rp2 + "\t" + cp2;
    assert s1[|head|] == rp1[0] && s2[|head|] == rp2[0];
    assert r1 == r2;
    assert s1[|head| + |rp1| + 1] == cp1[0] && s2[|head| + |rp2| + 1] == cp2[0];
    assert c1 == c2;
  }

  // ---------------------------------------------------------------------
  // The match.
  // ---------------------------------------------------------------------

  /** What a completed legacy move leaves behind: as in the package, but
      with the legacy acceptance rule as written (no occupied-point
      rejection, suicide checked before captures) and the legacy texts. */
  ghost predicate LegacyMoveOutcome(primary: PlayerId, tertiary: PlayerId, b0: Board, current: PlayerId,
                                    last: Option<LastState>, row: int, col: int,
                                    b: Board, current': PlayerId, last': Option<LastState>, edits: seq<string>)
    requires ValidBoard(b0) && InBounds(row, col)
  {
    var other := GoSession.Opponent(primary, tertiary, current);
    var b1 := Place(b0, row, col, current);
    if LegacyLegalAsWritten(b0, current, other, row, col, last) then
      ClearedFrom(b1, Captured(b1, current, Tile(row, col, Stone(current))), b) &&
      last' == Some(LastState(current, row, col)) &&
      current' == other &&
      edits == [SUB_MESSAGE]
    else
      b == b0 && current' == current && last' == last &&
      edits == [LegacyRenderSelection("Invalid Placement:", Some(row), Some(col))]
  }

  class LegacyGoMatch {
    const primary: PlayerId
    const tertiary: PlayerId
    const messageId: int
    var subMessageId: Option<int>
    var currentPlayer: PlayerId
    var board: Board
    var rowSelection: Option<int>
    var colSelection: Option<int>
    var lastState: Option<LastState>
    var lock: bool
    var winner: Option<PlayerId>

    /** Between two reactions: a well-formed board, the turn held by one of
        the players, never both choices set, the lock released, and the last
        accepted move's stone still standing. */
    ghost predicate Valid()
      reads this
    {
      ValidBoard(board) &&
      (currentPlayer == primary || currentPlayer == tertiary) &&
      GoSession.SelectionOk(rowSelection) && GoSession.SelectionOk(colSelection) &&
      !(rowSelection.Some? && colSelection.Some?) &&
      !lock &&
      GoSession.LastStateOk(lastState) &&
      (lastState.Some? ==>
        board[lastState.value.row][lastState.value.col] ==
        Tile(lastState.value.row, lastState.value.col, Stone(lastState.value.player)))
    }

    /** `__init__` with `initialize_board`; `primaryFirst` stands for the
        outcome of the random player order (the mock game always starts with
        the primary player). */
    constructor (primary: PlayerId, tertiary: PlayerId, messageId: int, primaryFirst: bool)
      ensures Valid()
      ensures this.primary == primary && this.tertiary == tertiary && this.messageId == messageId
      ensures currentPlayer == (if primaryFirst then primary else tertiary)
      ensures board == InitializeBoard()
      ensures subMessageId.None? && rowSelection.None? && colSelection.None? && lastState.None?
      ensures winner.None?
    {
      this.primary := primary;
      this.tertiary := tertiary;
      this.messageId := messageId;
      subMessageId := None;
      winner := None;
      currentPlayer := if primaryFirst then primary else tertiary;
      board := InitializeBoard();
      rowSelection := None;
      colSelection := None;
      lastState := None;
      lock := false;
    }

    /** `initialize_sub_message` */
    method InitializeSubMessage(id: int)
      modifies this
      ensures subMessageId == Some(id)
      ensures currentPlayer == old(currentPlayer) && board == old(board)
      ensures rowSelection == old(rowSelection) && colSelection == old(colSelection)
      ensures lastState == old(lastState) && lock == old(lock) && winner == old(winner)
    {
      subMessageId := Some(id);
    }

    /** `play_move` (legacy), entered when the lock is free and the reacting
        member holds the turn. The lock is held throughout; the reaction sets
        the row or the column; once both are chosen the placement is
        attempted (Commit). `edits` lists the texts written to the
        sub-message. */
    method PlayMove(p: Payload) returns (edits: seq<string>)
      requires Valid() && subMessageId.Some?
      requires !lock && currentPlayer == p.member
      requires p.messageId == messageId || p.messageId == subMessageId.value ==> GoSession.IsButton(p.button)
      modifies this
      ensures Valid()
      ensures subMessageId == old(subMessageId) && winner == old(winner)
      ensures
        var row := if p.messageId == messageId then Some(p.button) else old(rowSelection);
        var col := if p.messageId != messageId && p.messageId == old(subMessageId).value
                   then Some(p.button) else old(colSelection);
        if !(row.Some? && col.Some?) then
          rowSelection == row && colSelection == col &&
          board == old(board) && currentPlayer == old(currentPlayer) &&
          lastState == old(lastState) && edits == []
        else
          rowSelection.None? && colSelection.None? &&
          LegacyMoveOutcome(primary, tertiary, old(board), old(currentPlayer), old(lastState),
                            row.value, col.value, board, currentPlayer, lastState, edits)
    {
      lock := true;
      if p.messageId == messageId {
        rowSelection := Some(p.button);
      } else if p.messageId == subMessageId.value {
        colSelection := Some(p.button);
      }
      edits := [];
      if rowSelection.Some? && colSelection.Some? {
        edits := Commit();
      }
      lock := false;
    }

    /** The placement half of the legacy `play_move`: attempt, report, clear
        both choices (the `finally` block), and on success remember the move
        and pass the turn. */
    method Commit() returns (edits: seq<string>)
      requires ValidBoard(board) && (currentPlayer == primary || currentPlayer == tertiary)
      requires rowSelection.Some? && colSelection.Some?
      requires GoSession.SelectionOk(rowSelection) && GoSession.SelectionOk(colSelection)
      requires GoSession.LastStateOk(lastState)
      requires lastState.Some? ==>
        board[lastState.value.row][lastState.value.col] ==
        Tile(lastState.value.row, lastState.value.col, Stone(lastState.value.player))
      modifies this
      ensures ValidBoard(board) && (currentPlayer == primary || currentPlayer == tertiary)
      ensures GoSession.LastStateOk(lastState)
      ensures lastState.Some? ==>
        board[lastState.value.row][lastState.value.col] ==
        Tile(lastState.value.row, lastState.value.col, Stone(lastState.value.player))
      ensures subMessageId == old(subMessageId) && winner == old(winner) && lock == old(lock)
      ensures rowSelection.None? && colSelection.None?
      ensures LegacyMoveOutcome(primary, tertiary, old(board), old(currentPlayer), old(lastState),
                                old(rowSelection).value, old(colSelection).value,
                                board, currentPlayer, lastState, edits)
    {
      var row, col := rowSelection.value, colSelection.value;
      var other := GoSession.Opponent(primary, tertiary, currentPlayer);
      var isValidPlacement, board' := LegacyAttemptPlacementAsWritten(board, currentPlayer, other, row, col, lastState);
      if isValidPlacement {
        AcceptedBoard(board, currentPlayer, row, col, board');
      }
      board := board';
      if !isValidPlacement {
        edits := [LegacyRenderSelection("Invalid Placement:", rowSelection, colSelection)];
      } else {
        edits := [SUB_MESSAGE];
        lastState := Some(LastState(currentPlayer, row, col));
        currentPlayer := if currentPlayer == tertiary then primary else tertiary;
      }
      rowSelection := None;
      colSelection := None;
    }
  }

  /** A reaction, as in the package's match. */
  type Payload = GoSession.Payload
}
