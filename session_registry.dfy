/**
  * The session registry (router/session.py; the older copy in connect_4.py
  * behaves the same apart from having no sub-message).
  *
  * Three dictionaries: session id to session, message id to session id, and
  * player id to the set of session ids the player takes part in (a
  * `defaultdict(set)`, so a missing player reads as an empty set when
  * written). A session id depends only on the unordered pair of players, so
  * each pair has at most one live session.
  *
  * The chat side effects (sending messages, rendering the new game, the
  * database insert and `on_complete`) are not part of this model.
  */
module SessionRegistry {
  import opened Wrappers

  type PlayerId = int
  type MessageId = int

  /** `generate_session_id` seeds a Faker instance with the pair of player ids,
      larger first, and returns the uuid it draws. The uuid is determined by
      the seed; it is modelled as the seed itself. */
  datatype SessionId = SessionId(high: PlayerId, low: PlayerId)

  function GenerateSessionId(primary: PlayerId, tertiary: PlayerId): (id: SessionId)
    ensures id.high >= id.low
    ensures {id.high, id.low} == {primary, tertiary}
  {
    if primary > tertiary then SessionId(primary, tertiary) else SessionId(tertiary, primary)
  }

  /** The id does not depend on who challenged whom. */
  lemma SessionIdSymmetric(a: PlayerId, b: PlayerId)
    ensures GenerateSessionId(a, b) == GenerateSessionId(b, a)
  {
  }

  /** Two pairs share an id exactly when they are the same two players. */
  lemma SessionIdInjective(a: PlayerId, b: PlayerId, c: PlayerId, d: PlayerId)
    ensures GenerateSessionId(a, b) == GenerateSessionId(c, d) <==> {a, b} == {c, d}
  {
    if {a, b} == {c, d} {
      assert a in {c, d} && b in {c, d} && c in {a, b} && d in {a, b};
    }
  }

  /** `_players[p].add(id)` on a `defaultdict(set)`. */
  function Enroll(players: map<PlayerId, set<SessionId>>, p: PlayerId, id: SessionId)
    : (r: map<PlayerId, set<SessionId>>)
    ensures p in r && id in r[p]
    ensures p in players ==> r[p] == players[p] + {id}
    ensures p !in players ==> r[p] == {id}
    ensures forall q :: q != p ==> (q in r <==> q in players)
    ensures forall q :: q != p && q in players ==> r[q] == players[q]
  {
    players[p := (if p in players then players[p] else {}) + {id}]
  }

  /** `_players[p].remove(id)`: the player stays a key, with a smaller set. */
  function Withdraw(players: map<PlayerId, set<SessionId>>, p: PlayerId, id: SessionId)
    : (r: map<PlayerId, set<SessionId>>)
    requires p in players && id in players[p]
    ensures r.Keys == players.Keys
    ensures r[p] == players[p] - {id} && id !in r[p]
    ensures forall q :: q != p && q in players ==> r[q] == players[q]
  {
    players[p := players[p] - {id}]
  }

  /** Routes the session's messages to its id. */
  function Route(messages: map<MessageId, SessionId>, messageId: MessageId, subMessageId: Option<MessageId>,
                 id: SessionId): (r: map<MessageId, SessionId>)
    ensures messageId in r && r[messageId] == id
    ensures subMessageId.Some? ==> subMessageId.value in r && r[subMessageId.value] == id
    ensures forall m :: m != messageId && (subMessageId.None? || m != subMessageId.value) ==>
      (m in r <==> m in messages) && (m in messages ==> r[m] == messages[m])
  {
    var r := messages[messageId := id];
    if subMessageId.Some? then r[subMessageId.value := id] else r
  }

  class SessionManager<S(==)> {
    var sessions: map<SessionId, S>
    var messages: map<MessageId, SessionId>
    var players: map<PlayerId, set<SessionId>>

    /** Each live session is listed under both of its players. */
    ghost predicate Valid()
      reads this
    {
      forall id :: id in sessions ==>
        id.high in players && id in players[id.high] &&
        id.low in players && id in players[id.low]
    }

    constructor ()
      ensures Valid()
      ensures sessions == map[] && messages == map[] && players == map[]
    {
      sessions := map[];
      messages := map[];
      players := map[];
    }

    /** `get_session` */
    function GetSession(id: SessionId): (r: Option<S>)
      reads this
      ensures r.Some? <==> id in sessions
      ensures r.Some? ==> r.value == sessions[id]
    {
      if id in sessions then Some(sessions[id]) else None
    }

    /** `get_session_by_message`: a message finds its session only while
        that session is live; removal leaves the routing entry behind. */
    function GetSessionByMessage(messageId: MessageId): (r: Option<S>)
      reads this
      ensures r.Some? <==> messageId in messages && messages[messageId] in sessions
      ensures r.Some? ==> r.value == sessions[messages[messageId]]
    {
      if messageId in messages && messages[messageId] in sessions then Some(sessions[messages[messageId]])
      else None
    }

    /** `get_session_by_player`: None for a player never enrolled, otherwise
        the live sessions among the player's ids, one entry per id, in the
        set's iteration order. */
    method GetSessionByPlayer(p: PlayerId) returns (r: Option<seq<S>>)
      ensures r.Some? <==> p in players
      ensures r.Some? ==> |r.value| == |players[p] * sessions.Keys|
      ensures r.Some? ==> forall id :: id in players[p] && id in sessions ==> sessions[id] in r.value
      ensures r.Some? ==> forall i :: 0 <= i < |r.value| ==>
        exists id :: id in players[p] && id in sessions && r.value[i] == sessions[id]
    {
      if p !in players {
        return None;
      }
      var ids := players[p] * sessions.Keys;
      var out: seq<S> := [];
      ghost var outIds: seq<SessionId> := [];
      var rest := ids;
      while rest != {}
        invariant rest <= ids
        invariant |out| == |outIds| == |ids - rest|
        invariant forall i :: 0 <= i < |out| ==> outIds[i] in ids && out[i] == sessions[outIds[i]]
        invariant forall id :: id in ids - rest ==> sessions[id] in out
        decreases rest
      {
        var id :| id in rest;
        assert ids - (rest - {id}) == (ids - rest) + {id};
        out := out + [sessions[id]];
        outIds := outIds + [id];
        rest := rest - {id};
      }
      forall i | 0 <= i < |out|
        ensures exists id :: id in players[p] && id in sessions && out[i] == sessions[id]
      {
        assert outIds[i] in ids;
      }
      r := Some(out);
    }

    /** `add_session`: refused when the pair already has a live session;
        otherwise the session is stored, listed under both players and
        reachable from its message and sub-message. */
    method AddSession(primary: PlayerId, tertiary: PlayerId, session: S, messageId: MessageId,
                      subMessageId: Option<MessageId>) returns (added: bool)
      requires Valid()
      modifies this
      ensures Valid()
      ensures var id := GenerateSessionId(primary, tertiary);
        added <==> id !in old(sessions)
      ensures var id := GenerateSessionId(primary, tertiary);
        added ==>
          sessions == old(sessions)[id := session] &&
          players == Enroll(Enroll(old(players), primary, id), tertiary, id) &&
          messages == Route(old(messages), messageId, subMessageId, id)
      ensures !added ==> sessions == old(sessions) && players == old(players) && messages == old(messages)
      ensures added ==> GetSessionByMessage(messageId) == Some(session)
      ensures added && subMessageId.Some? ==> GetSessionByMessage(subMessageId.value) == Some(session)
    {
      var id := GenerateSessionId(primary, tertiary);
      if GetSession(id).None? {
        sessions := sessions[id := session];
        players := Enroll(players, primary, id);
        players := Enroll(players, tertiary, id);
        messages := Route(messages, messageId, subMessageId, id);
        return true;
      }
      return false;
    }

    /** `remove_session`: drops the pair's live session and its id from both
        players' sets (once when a player plays themself); the message routes
        stay but no longer lead to a session. */
    method RemoveSession(primary: PlayerId, tertiary: PlayerId) returns (removed: bool)
      requires Valid()
      modifies this
      ensures Valid()
      ensures var id := GenerateSessionId(primary, tertiary);
        removed <==> id in old(sessions)
      ensures var id := GenerateSessionId(primary, tertiary);
        removed ==>
          sessions == old(sessions) - {id} && messages == old(messages) &&
          primary in old(players) && id in old(players)[primary] &&
          players == (if primary != tertiary
                      then Withdraw(Withdraw(old(players), primary, id), tertiary, id)
                      else Withdraw(old(players), primary, id))
      ensures !removed ==> sessions == old(sessions) && players == old(players) && messages == old(messages)
      ensures var id := GenerateSessionId(primary, tertiary);
        forall m :: m in messages && messages[m] == id ==> GetSessionByMessage(m).None?
    {
      var id := GenerateSessionId(primary, tertiary);
      if GetSession(id).Some? {
        sessions := sessions - {id};
        players := Withdraw(players, primary, id);
        if primary != tertiary {
          players := Withdraw(players, tertiary, id);
        }
        return true;
      }
      return false;
    }
  }
}
