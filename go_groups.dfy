/**
  * Group discovery for the Go ruleset (games/go/logic.py, `find_group`).
  *
  * `find_group(board, owner, leaf, captures)` grows the set `captures` by a
  * recursive flood fill: from `leaf` it steps to every orthogonal neighbour
  * that is a stone NOT owned by `owner` and not yet collected. Called with
  * the set `{seed}`, it yields the group of `seed`.
  *
  * The reference definition here is `Group`: the fixed point of repeatedly
  * adding joining neighbours (`Grow`), which is the least set containing the
  * seed that is closed under joining neighbours. `FindGroup` is the source's
  * recursive method, proved to compute exactly that set.
  */
module GoGroups {
  import opened GoEntities

  /** `isinstance(dame, stone) and dame.is_not_owned_by(owner)`: the tiles
      the flood fill may step onto. */
  predicate Joins(t: Tile, excl: PlayerId) {
    t.kind.Stone? && IsNotOwnedBy(t, excl)
  }

  /** Every tile stored on the board. */
  function BoardTiles(b: Board): set<Tile>
    requires ValidBoard(b)
  {
    set r, c | 0 <= r < BOARD_Y && 0 <= c < BOARD_X :: b[r][c]
  }

  lemma OnBoard(b: Board, r: int, c: int)
    requires ValidBoard(b) && InBounds(r, c)
    ensures b[r][c] in BoardTiles(b)
  {
  }

  /** A tile the flood fill may step onto is a stone of the board. */
  lemma JoinerOnBoard(b: Board, t: Tile, i: int, excl: PlayerId)
    requires ValidBoard(b) && 0 <= i < 4
    requires Joins(Liberties(b, t)[i], excl)
    ensures Liberties(b, t)[i] in BoardTiles(b)
    ensures Liberties(b, t)[i] == b[Liberties(b, t)[i].row][Liberties(b, t)[i].col]
  {
    var n := Liberties(b, t)[i];
    OnBoard(b, n.row, n.col);
  }

  /** S is closed: every joining neighbour of a member is a member. */
  ghost predicate Closed(b: Board, excl: PlayerId, S: set<Tile>)
    requires ValidBoard(b)
  {
    forall t, i :: t in S && 0 <= i < 4 && Joins(Liberties(b, t)[i], excl) ==>
      Liberties(b, t)[i] in S
  }

  /** The joining neighbours of the members of S. */
  function Frontier(b: Board, excl: PlayerId, S: set<Tile>): set<Tile>
    requires ValidBoard(b)
  {
    set t, i | t in S && 0 <= i < 4 && Joins(Liberties(b, t)[i], excl) :: Liberties(b, t)[i]
  }

  lemma InFrontier(b: Board, excl: PlayerId, S: set<Tile>, t: Tile, i: int)
    requires ValidBoard(b) && t in S && 0 <= i < 4 && Joins(Liberties(b, t)[i], excl)
    ensures Liberties(b, t)[i] in Frontier(b, excl, S)
  {
  }

  lemma FrontierOnBoard(b: Board, excl: PlayerId, S: set<Tile>)
    requires ValidBoard(b)
    ensures forall n :: n in Frontier(b, excl, S) ==> n in BoardTiles(b) && Joins(n, excl)
  {
    forall n | n in Frontier(b, excl, S)
      ensures n in BoardTiles(b) && Joins(n, excl)
    {
      var t, i :| t in S && 0 <= i < 4 && Joins(Liberties(b, t)[i], excl) && n == Liberties(b, t)[i];
      JoinerOnBoard(b, t, i, excl);
    }
  }

  lemma FrontierWithin(b: Board, excl: PlayerId, S: set<Tile>, T: set<Tile>)
    requires ValidBoard(b) && S <= T && Closed(b, excl, T)
    ensures Frontier(b, excl, S) <= T
  {
  }

  lemma ShrinksStrictly<X>(all: set<X>, S: set<X>, S': set<X>)
    requires S <= S' && S' != S && S' - S <= all
    ensures all - S' < all - S
  {
    assert S' - S != {} by {
      if S' - S == {} {
        forall x | x in S' ensures x in S { assert x !in S' - S; }
        assert false;
      }
    }
    var x :| x in S' - S;
    assert x in all - S && x !in all - S';
  }

  lemma ShrinksByOne<X>(all: set<X>, S: set<X>, R: set<X>, x: X)
    requires S <= R && x in all && x !in R
    ensures all - (R + {x}) < all - S
  {
    assert x in all - S && x !in all - (R + {x});
  }

  /** The reference closure: add the frontier until nothing new appears.
      Everything added is a joining stone of the board, and the result is
      closed. */
  function Grow(b: Board, excl: PlayerId, S: set<Tile>): (G: set<Tile>)
    requires ValidBoard(b)
    ensures S <= G
    ensures Closed(b, excl, G)
    ensures forall t :: t in G - S ==> t in BoardTiles(b) && Joins(t, excl)
    decreases BoardTiles(b) - S
  {
    FrontierOnBoard(b, excl, S);
    var S' := S + Frontier(b, excl, S);
    if S' == S then
      assert Closed(b, excl, S) by {
        forall t, i | t in S && 0 <= i < 4 && Joins(Liberties(b, t)[i], excl)
          ensures Liberties(b, t)[i] in S
        {
          InFrontier(b, excl, S, t, i);
        }
      }
      S
    else
      ShrinksStrictly(BoardTiles(b), S, S');
      Grow(b, excl, S')
  }

  /** The group of `seed`: the seed plus everything the flood fill reaches. */
  function Group(b: Board, excl: PlayerId, seed: Tile): set<Tile>
    requires ValidBoard(b)
  {
    Grow(b, excl, {seed})
  }

  /** Grow yields the LEAST closed superset: any closed T containing S
      contains Grow(S). */
  lemma {:induction false} GrowLeast(b: Board, excl: PlayerId, S: set<Tile>, T: set<Tile>)
    requires ValidBoard(b) && S <= T && Closed(b, excl, T)
    ensures Grow(b, excl, S) <= T
    decreases BoardTiles(b) - S
  {
    FrontierOnBoard(b, excl, S);
    var S' := S + Frontier(b, excl, S);
    if S' != S {
      FrontierWithin(b, excl, S, T);
      ShrinksStrictly(BoardTiles(b), S, S');
      GrowLeast(b, excl, S', T);
    }
  }

  /** Characterisation of the group: it contains the seed, is closed, every
      member other than the seed is a joining stone on the board, and it lies
      inside every closed set that contains the seed. */
  lemma GroupIsLeastClosed(b: Board, excl: PlayerId, seed: Tile)
    requires ValidBoard(b)
    ensures seed in Group(b, excl, seed)
    ensures Closed(b, excl, Group(b, excl, seed))
    ensures forall t :: t in Group(b, excl, seed) && t != seed ==> t in BoardTiles(b) && Joins(t, excl)
    ensures forall T :: seed in T && Closed(b, excl, T) ==> Group(b, excl, seed) <= T
  {
    forall T | seed in T && Closed(b, excl, T)
      ensures Group(b, excl, seed) <= T
    {
      GrowLeast(b, excl, {seed}, T);
    }
  }

  /** Two closed sets that are both least among closed sets containing the
      seed are the group. */
  lemma LeastClosedIsGroup(b: Board, excl: PlayerId, seed: Tile, G: set<Tile>)
    requires ValidBoard(b)
    requires seed in G && Closed(b, excl, G)
    requires forall T :: seed in T && Closed(b, excl, T) ==> G <= T
    ensures G == Group(b, excl, seed)
  {
    GroupIsLeastClosed(b, excl, seed);
  }

  /** `find_group`: recursive flood fill threading the collected set. On
      return, the collected set contains the one passed in, every joining
      neighbour of `leaf` and of every newly collected tile, and nothing that
      a closed superset of the input would not contain. Started from `{seed}`,
      it returns exactly the group of `seed`. */
  method FindGroup(b: Board, excl: PlayerId, leaf: Tile, captures: set<Tile>) returns (result: set<Tile>)
    requires ValidBoard(b)
    requires leaf in captures
    ensures captures <= result
    ensures forall j :: 0 <= j < 4 && Joins(Liberties(b, leaf)[j], excl) ==> Liberties(b, leaf)[j] in result
    ensures forall t, j :: t in result - captures && 0 <= j < 4 && Joins(Liberties(b, t)[j], excl) ==>
      Liberties(b, t)[j] in result
    ensures forall T :: captures <= T && Closed(b, excl, T) ==> result <= T
    ensures captures == {leaf} ==> result == Group(b, excl, leaf)
    decreases BoardTiles(b) - captures
  {
    result := captures;
    var libs := Liberties(b, leaf);
    for i := 0 to 4
      invariant captures <= result
      invariant forall j :: 0 <= j < i && Joins(libs[j], excl) ==> libs[j] in result
      invariant forall t, j :: t in result - captures && 0 <= j < 4 && Joins(Liberties(b, t)[j], excl) ==>
        Liberties(b, t)[j] in result
      invariant forall T :: captures <= T && Closed(b, excl, T) ==> result <= T
    {
      var dame := libs[i];
      if dame.kind.Stone? && IsNotOwnedBy(dame, excl) && dame !in result {
        JoinerOnBoard(b, leaf, i, excl);
        ghost var before := result;
        ShrinksByOne(BoardTiles(b), captures, result, dame);
        result := result + {dame};
        ghost var added := result;
        result := FindGroup(b, excl, dame, result);
        forall T | captures <= T && Closed(b, excl, T)
          ensures result <= T
        {
          assert before <= T;
          assert dame in T;
          assert added <= T;
        }
      }
    }
    if captures == {leaf} {
      assert Closed(b, excl, result);
      LeastClosedIsGroup(b, excl, leaf, result);
    }
  }
}
