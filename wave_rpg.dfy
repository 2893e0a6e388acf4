/**
  * The wave game (games/waveRPG.py): a single player against waves of
  * monsters on a board four columns wide and seven rows deep.
  *
  * The units live in `tile_state`, a dictionary from (x, y) to the unit
  * standing there. Each turn every unit advances once, in order of speed and
  * then row, highest first: a bug crawls one row down (onto whatever stands
  * there), a pawn captures a monster diagonally up-left or else up-right, or
  * else steps one row up when that square is free. Then, unless the player
  * pressed the wait button, a new pawn appears in the chosen column on the
  * bottom row.
  *
  * Each unit advances as a fresh copy, so a unit is a value here and
  * `advance` is a function from the dictionary to the new dictionary.
  */
module WaveRpg {
  import opened Wrappers

  type PlayerId = int
  type Coord = (int, int)

  const BOARD_X: int := 4
  const BOARD_Y: int := 7
  /** The hourglass button: advance without placing a pawn. */
  const WAIT_BUTTON: int := 4

  /** The class a unit is an instance of. */
  datatype Kind = PlainUnit | Monster | Player | Pawn | Bug

  datatype Unit = Unit(kind: Kind, x: int, y: int, speed: int, icon: string)

  type TileState = map<Coord, Unit>

  /** `pawn(x, y, icon=...)`: speed 1. */
  function NewPawn(x: int, y: int, icon: string): Unit {
    Unit(Pawn, x, y, 1, icon)
  }

  /** `bug(x, y)`: speed -1. */
  function NewBug(x: int, y: int): Unit {
    Unit(Bug, x, y, -1, "🐛")
  }

  /** `isinstance(u, monster)`: bugs are monsters. */
  predicate IsMonsterUnit(u: Unit) {
    u.kind == Monster || u.kind == Bug
  }

  /** `isinstance(u, player)`: pawns are players. */
  predicate IsPlayerUnit(u: Unit) {
    u.kind == Player || u.kind == Pawn
  }

  /** `is_monster`: a monster stands at (x, y). */
  predicate IsMonster(x: int, y: int, ts: TileState) {
    (x, y) in ts && IsMonsterUnit(ts[(x, y)])
  }

  /** `is_player`: a player unit stands at (x, y). */
  predicate IsPlayer(x: int, y: int, ts: TileState) {
    (x, y) in ts && IsPlayerUnit(ts[(x, y)])
  }

  /** No square holds a monster and a player unit at once. */
  lemma MonsterAndPlayerExclusive(x: int, y: int, ts: TileState)
    ensures !(IsMonster(x, y, ts) && IsPlayer(x, y, ts))
  {
  }

  /** Every unit is stored under its own coordinates. */
  ghost predicate Consistent(ts: TileState) {
    forall k :: k in ts ==> (ts[k].x, ts[k].y) == k
  }

  /** `init_board` for level 0, the only level: one bug in the top-left corner. */
  function InitBoard(): (ts: TileState)
    ensures Consistent(ts)
    ensures |ts| == 1 && forall k :: k in ts ==> IsMonsterUnit(ts[k]) && k.1 == 0
    ensures (0, 0) in ts && ts[(0, 0)].kind == Bug && ts[(0, 0)].speed == -1
  {
    map[(0, 0) := NewBug(0, 0)]
  }

  // ---------------------------------------------------------------------
  // advance
  // ---------------------------------------------------------------------

  /** `bug.advance`: leave the square and crawl one row down, replacing
      whatever stands there. */
  function BugAdvance(u: Unit, ts: TileState): TileState {
    if (u.x, u.y) !in ts then ts
    else (ts - {(u.x, u.y)})[(u.x, u.y + 1) := u.(y := u.y + 1)]
  }

  /** `pawn.advance`: leave the square; capture a monster up-left, else one
      up-right, else step up if that square is free, else stay. */
  function PawnAdvance(u: Unit, ts: TileState): TileState {
    if (u.x, u.y) !in ts then ts
    else
      var t1 := ts - {(u.x, u.y)};
      if IsMonster(u.x - 1, u.y - 1, t1) then
        (t1 - {(u.x - 1, u.y - 1)})[(u.x - 1, u.y - 1) := u.(x := u.x - 1, y := u.y - 1)]
      else if IsMonster(u.x + 1, u.y - 1, t1) then
        (t1 - {(u.x + 1, u.y - 1)})[(u.x + 1, u.y - 1) := u.(x := u.x + 1, y := u.y - 1)]
      else if (u.x, u.y - 1) !in t1 then
        t1[(u.x, u.y - 1) := u.(y := u.y - 1)]
      else
        t1[(u.x, u.y) := u]
  }

  /** `advance`, dispatched on the unit's class; the base class stores the
      unit back under its coordinates. */
  function Advance(u: Unit, ts: TileState): TileState {
    match u.kind
    case Bug => BugAdvance(u, ts)
    case Pawn => PawnAdvance(u, ts)
    case _ => ts[(u.x, u.y) := u]
  }

  lemma RemoveCard(m: TileState, k: Coord)
    requires k in m
    ensures |m - {k}| == |m| - 1
  {
    assert m.Keys == (m - {k}).Keys + {k};
  }

  lemma UpdateCard(m: TileState, k: Coord, v: Unit)
    ensures |m[k := v]| <= |m| + 1
    ensures k in m ==> |m[k := v]| == |m|
  {
    if k in m {
      assert m[k := v].Keys == m.Keys;
    } else {
      assert m[k := v].Keys == m.Keys + {k};
    }
  }

  lemma BugFacts(ts: TileState, k: Coord)
    requires Consistent(ts) && k in ts && ts[k].kind == Bug
    ensures Consistent(Advance(ts[k], ts))
    ensures forall k' :: k' in ts && k' != k ==> k' in Advance(ts[k], ts)
    ensures |Advance(ts[k], ts)| <= |ts|
  {
    var u := ts[k];
    RemoveCard(ts, k);
    UpdateCard(ts - {k}, (u.x, u.y + 1), u.(y := u.y + 1));
  }

  /** Stepping onto square `to` after capturing what stands there. */
  lemma CaptureFacts(t1: TileState, to: Coord, v: Unit)
    requires Consistent(t1) && to in t1 && (v.x, v.y) == to
    ensures Consistent((t1 - {to})[to := v])
    ensures (t1 - {to})[to := v].Keys == t1.Keys
  {
  }

  lemma PawnFacts(ts: TileState, k: Coord)
    requires Consistent(ts) && k in ts && ts[k].kind == Pawn
    ensures Consistent(Advance(ts[k], ts))
    ensures forall k' :: k' in ts && k' != k ==> k' in Advance(ts[k], ts)
    ensures |Advance(ts[k], ts)| <= |ts|
  {
    var u := ts[k];
    var t1 := ts - {k};
    RemoveCard(ts, k);
    if IsMonster(u.x - 1, u.y - 1, t1) {
      CaptureFacts(t1, (u.x - 1, u.y - 1), u.(x := u.x - 1, y := u.y - 1));
    } else if IsMonster(u.x + 1, u.y - 1, t1) {
      CaptureFacts(t1, (u.x + 1, u.y - 1), u.(x := u.x + 1, y := u.y - 1));
    } else if (u.x, u.y - 1) !in t1 {
      UpdateCard(t1, (u.x, u.y - 1), u.(y := u.y - 1));
    } else {
      UpdateCard(t1, (u.x, u.y), u);
    }
  }

  /** Advancing the unit stored at k keeps every unit under its own
      coordinates, keeps every other occupied square occupied (so the
      squares still to be visited this turn are all found), and never adds
      a unit. */
  lemma AdvanceFacts(ts: TileState, k: Coord)
    requires Consistent(ts) && k in ts
    ensures Consistent(Advance(ts[k], ts))
    ensures forall k' :: k' in ts && k' != k ==> k' in Advance(ts[k], ts)
    ensures |Advance(ts[k], ts)| <= |ts|
  {
    match ts[k].kind
    case Bug => BugFacts(ts, k);
    case Pawn => PawnFacts(ts, k);
    case _ =>
      assert ts[k := ts[k]] == ts;
  }

  /** A bug ends one row lower, its old square is empty, and nothing else
      changes except that a unit it lands on is gone. */
  lemma BugStepsDown(ts: TileState, k: Coord)
    requires Consistent(ts) && k in ts && ts[k].kind == Bug
    ensures var r := Advance(ts[k], ts);
      (k.0, k.1 + 1) in r && r[(k.0, k.1 + 1)] == ts[k].(y := k.1 + 1) && k !in r &&
      forall k' :: k' != k && k' != (k.0, k.1 + 1) ==>
        (k' in r <==> k' in ts) && (k' in r ==> r[k'] == ts[k'])
  {
  }

  /** A pawn with a monster diagonally up-left captures it: the pawn takes
      that square and there is one unit fewer. */
  lemma PawnCapturesLeft(ts: TileState, k: Coord)
    requires Consistent(ts) && k in ts && ts[k].kind == Pawn
    requires IsMonster(k.0 - 1, k.1 - 1, ts)
    ensures var r := Advance(ts[k], ts);
      r[(k.0 - 1, k.1 - 1)] == ts[k].(x := k.0 - 1, y := k.1 - 1) && k !in r && |r| == |ts| - 1
  {
    var t1 := ts - {k};
    var l := (k.0 - 1, k.1 - 1);
    assert ts.Keys == t1.Keys + {k};
    assert t1.Keys == (t1 - {l}).Keys + {l};
  }

  /** A pawn with no monster on either forward diagonal and a unit right in
      front of it stays where it is. */
  lemma PawnBlocked(ts: TileState, k: Coord)
    requires Consistent(ts) && k in ts && ts[k].kind == Pawn
    requires !IsMonster(k.0 - 1, k.1 - 1, ts) && !IsMonster(k.0 + 1, k.1 - 1, ts)
    requires (k.0, k.1 - 1) in ts
    ensures Advance(ts[k], ts) == ts
  {
  }

  // ---------------------------------------------------------------------
  // The turn order.
  // ---------------------------------------------------------------------

  /** Unit a goes no later than unit b: `sorted` by (speed, y), reversed. */
  predicate Before(a: Unit, b: Unit) {
    a.speed > b.speed || (a.speed == b.speed && a.y >= b.y)
  }

  /** The coordinates of every unit, each once, in turn order. */
  ghost predicate IsPriorityOrder(ts: TileState, coords: seq<Coord>) {
    (forall i, j :: 0 <= i < j < |coords| ==> coords[i] != coords[j]) &&
    (forall i :: 0 <= i < |coords| ==> coords[i] in ts) &&
    (forall k :: k in ts ==> k in coords) &&
    (forall i, j :: 0 <= i < j < |coords| ==> Before(ts[coords[i]], ts[coords[j]]))
  }

  /** Every non-empty set of squares has a unit that goes first. */
  lemma FirstExists(ts: TileState, S: set<Coord>)
    requires S != {} && S <= ts.Keys
    ensures exists c :: c in S && forall d :: d in S ==> Before(ts[c], ts[d])
    decreases S
  {
    var x :| x in S;
    var S' := S - {x};
    if S' == {} {
      forall d | d in S
        ensures Before(ts[x], ts[d])
      {
        assert d !in S';
      }
    } else {
      FirstExists(ts, S');
      var m :| m in S' && forall d :: d in S' ==> Before(ts[m], ts[d]);
      if Before(ts[m], ts[x]) {
        assert forall d :: d in S ==> Before(ts[m], ts[d]);
      } else {
        assert forall d :: d in S ==> Before(ts[x], ts[d]);
      }
    }
  }

  /** `priority` and `current_coordinates`: the units' squares in turn order,
      built by repeatedly taking a unit that goes first among the rest. */
  method PriorityOrder(ts: TileState) returns (coords: seq<Coord>)
    ensures IsPriorityOrder(ts, coords)
  {
    coords := [];
    var rest := ts.Keys;
    while rest != {}
      invariant rest <= ts.Keys
      invariant forall i, j :: 0 <= i < j < |coords| ==> coords[i] != coords[j]
      invariant forall i :: 0 <= i < |coords| ==> coords[i] in ts && coords[i] !in rest
      invariant forall k :: k in ts ==> k in rest || k in coords
      invariant forall i, j :: 0 <= i < j < |coords| ==> Before(ts[coords[i]], ts[coords[j]])
      invariant forall i, k :: 0 <= i < |coords| && k in rest ==> Before(ts[coords[i]], ts[k])
      decreases rest
    {
      FirstExists(ts, rest);
      var c :| c in rest && forall d :: d in rest ==> Before(ts[c], ts[d]);
      coords := coords + [c];
      rest := rest - {c};
    }
  }

  /** Every unit advances once, in the given order, each found under the
      square it stood on when the turn began. */
  function AdvanceAll(ts: TileState, coords: seq<Coord>): (r: TileState)
    requires Consistent(ts)
    requires forall i, j :: 0 <= i < j < |coords| ==> coords[i] != coords[j]
    requires forall i :: 0 <= i < |coords| ==> coords[i] in ts
    ensures Consistent(r) && |r| <= |ts|
    decreases |coords|
  {
    if coords == [] then ts
    else
      AdvanceFacts(ts, coords[0]);
      var ts' := Advance(ts[coords[0]], ts);
      assert forall i :: 0 <= i < |coords[1..]| ==> coords[1..][i] == coords[i + 1] && coords[i + 1] != coords[0];
      AdvanceAll(ts', coords[1..])
  }

  /** The squares are visited as they were when the turn began, so a pawn
      that captures a monster yet to move is found again on the monster's
      square and advances a second time: here it captures the bug and then
      steps up once more. */
  lemma CapturingPawnAdvancesTwice()
    ensures var ts := map[(0, 4) := NewBug(0, 4), (1, 5) := NewPawn(1, 5, "p")];
      IsPriorityOrder(ts, [(1, 5), (0, 4)]) &&
      AdvanceAll(ts, [(1, 5), (0, 4)]) == map[(0, 3) := NewPawn(0, 3, "p")]
  {
    var ts := map[(0, 4) := NewBug(0, 4), (1, 5) := NewPawn(1, 5, "p")];
    var t1 := map[(0, 4) := NewPawn(0, 4, "p")];
    var t2 := map[(0, 3) := NewPawn(0, 3, "p")];
    PawnCapturesBug(ts, t1);
    assert Advance(t1[(0, 4)], t1) == t2 by {
      assert t1 - {(0, 4)} == map[];
    }
    assert [(1, 5), (0, 4)][1..] == [(0, 4)];
    assert [(0, 4)][1..] == [];
    assert AdvanceAll(t1, [(0, 4)]) == AdvanceAll(t2, []);
    assert AdvanceAll(ts, [(1, 5), (0, 4)]) == AdvanceAll(t1, [(0, 4)]);
  }

  /** The first step of the example above: the pawn captures the bug. */
  lemma PawnCapturesBug(ts: TileState, t1: TileState)
    requires ts == map[(0, 4) := NewBug(0, 4), (1, 5) := NewPawn(1, 5, "p")]
    requires t1 == map[(0, 4) := NewPawn(0, 4, "p")]
    ensures Consistent(ts) && IsPriorityOrder(ts, [(1, 5), (0, 4)])
    ensures Advance(ts[(1, 5)], ts) == t1
  {
    assert ts - {(1, 5)} == map[(0, 4) := NewBug(0, 4)];
    assert (ts - {(1, 5)}) - {(0, 4)} == map[];
  }

  /** The pawn placed by a column button; the wait button places nothing. */
  function Spawn(ts: TileState, inputX: int, icon: string): TileState {
    if inputX != WAIT_BUTTON then ts[(inputX, BOARD_Y - 1) := NewPawn(inputX, BOARD_Y - 1, icon)]
    else ts
  }

  /** A column button puts a fresh pawn on the bottom row of its column,
      replacing whatever stood there, and touches no other square; the wait
      button changes nothing. */
  lemma SpawnPlacesPawn(ts: TileState, inputX: int, icon: string)
    requires 0 <= inputX <= WAIT_BUTTON
    ensures inputX == WAIT_BUTTON ==> Spawn(ts, inputX, icon) == ts
    ensures inputX != WAIT_BUTTON ==>
      (inputX, BOARD_Y - 1) in Spawn(ts, inputX, icon) &&
      Spawn(ts, inputX, icon)[(inputX, BOARD_Y - 1)] == NewPawn(inputX, BOARD_Y - 1, icon) &&
      IsPlayer(inputX, BOARD_Y - 1, Spawn(ts, inputX, icon))
    ensures forall k :: k != (inputX, BOARD_Y - 1) ==>
      (k in Spawn(ts, inputX, icon) <==> k in ts) &&
      (k in ts ==> Spawn(ts, inputX, icon)[k] == ts[k])
    ensures Consistent(ts) ==> Consistent(Spawn(ts, inputX, icon))
  {
  }

  class WaveRPG {
    const primary: PlayerId
    const tertiary: PlayerId
    var currentPlayer: PlayerId
    var winner: Option<PlayerId>
    var lives: int
    var currentLevel: int
    var tileState: TileState

    ghost predicate Valid()
      reads this
    {
      Consistent(tileState) && currentLevel == 0
    }

    /** `__init__`: the primary player plays, three lives, level 0. */
    constructor (primary: PlayerId, tertiary: PlayerId)
      ensures Valid()
      ensures this.primary == primary && this.tertiary == tertiary
      ensures currentPlayer == primary && winner.None? && lives == 3
      ensures tileState == InitBoard()
    {
      this.primary := primary;
      this.tertiary := tertiary;
      currentPlayer := primary;
      winner := None;
      lives := 3;
      currentLevel := 0;
      tileState := InitBoard();
    }

    /** `is_completed`: nothing in the game sets a winner yet. */
    predicate IsCompleted()
      reads this
    {
      winner.Some?
    }

    predicate IsPlayerCurrent(player: PlayerId)
      reads this
    {
      currentPlayer == player
    }

    /** `play_move` with the pressed button (0..3 a column, 4 wait) and the
        player's pawn icon: every unit advances in turn order, then the new
        pawn is placed. The source always returns True. */
    method PlayMove(inputX: int, icon: string) returns (r: bool)
      requires Valid() && 0 <= inputX <= WAIT_BUTTON
      modifies this
      ensures Valid() && r
      ensures exists coords :: (IsPriorityOrder(old(tileState), coords) &&
        tileState == Spawn(AdvanceAll(old(tileState), coords), inputX, icon))
      ensures inputX == WAIT_BUTTON ==> |tileState| <= |old(tileState)|
      ensures currentPlayer == old(currentPlayer) && winner == old(winner) && lives == old(lives)
    {
      var coords := PriorityOrder(tileState);
      ghost var start := tileState;
      var i := 0;
      while i < |coords|
        invariant 0 <= i <= |coords|
        invariant Consistent(tileState)
        invariant forall j :: i <= j < |coords| ==> coords[j] in tileState
        invariant AdvanceAll(start, coords) == AdvanceAll(tileState, coords[i..])
        invariant currentLevel == 0
        invariant currentPlayer == old(currentPlayer) && winner == old(winner) && lives == old(lives)
      {
        var c := coords[i];
        AdvanceFacts(tileState, c);
        assert coords[i..][1..] == coords[i + 1..];
        tileState := Advance(tileState[c], tileState);
        i := i + 1;
      }
      if inputX != WAIT_BUTTON {
        tileState := tileState[(inputX, BOARD_Y - 1) := NewPawn(inputX, BOARD_Y - 1, icon)];
      }
      return true;
    }
  }
}
