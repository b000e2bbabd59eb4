/** The Session collection: one record per login, never deleted. A session's
    id is its position in the collection. */
module SessionSchema {
  import opened Wrappers

  datatype Session = Session(userId: nat, isValid: bool, loginTime: int, logoutTime: Option<int>)

  /** A session as `create({ userId })` stores it at time `now`: the schema
      defaults make it valid, logged in now, with no logout time. */
  function NewSession(userId: nat, now: int): (s: Session)
    ensures s.userId == userId && s.isValid
    ensures s.loginTime == now && s.logoutTime.None?
  {
    Session(userId, true, now, None)
  }

  /** Logout's update of the session with that id: it is marked invalid and
      stamped with the logout time. */
  function Invalidate(sessions: seq<Session>, sessionId: nat, now: int): (r: seq<Session>)
    ensures |r| == |sessions|
    ensures sessionId < |sessions| ==>
      r[sessionId] == sessions[sessionId].(isValid := false, logoutTime := Some(now))
    ensures forall i :: 0 <= i < |sessions| && i != sessionId ==> r[i] == sessions[i]
  {
    if sessionId < |sessions| then
      sessions[sessionId := sessions[sessionId].(isValid := false, logoutTime := Some(now))]
    else
      sessions
  }

  /** The JWT callback's session lookup finds a session with that id, owned by
      that user and still valid. */
  predicate IsLive(sessions: seq<Session>, sessionId: nat, userId: nat) {
    sessionId < |sessions| && sessions[sessionId].userId == userId && sessions[sessionId].isValid
  }

  /** Every session names an existing user. */
  predicate SessionsValid(sessions: seq<Session>, userCount: nat) {
    forall i :: 0 <= i < |sessions| ==> sessions[i].userId < userCount
  }

  /** After invalidation the session is dead, every other session is as live
      as before, and an unknown id changes nothing. */
  lemma InvalidateEffect(sessions: seq<Session>, sessionId: nat, now: int, other: nat, userId: nat)
    ensures !IsLive(Invalidate(sessions, sessionId, now), sessionId, userId)
    ensures other != sessionId ==>
      IsLive(Invalidate(sessions, sessionId, now), other, userId) == IsLive(sessions, other, userId)
    ensures sessionId >= |sessions| ==> Invalidate(sessions, sessionId, now) == sessions
  {
  }

  /** Creating a session at login makes the new id live for its user and no
      other, and leaves every existing session as live as before. */
  lemma CreateEffect(sessions: seq<Session>, userId: nat, now: int, other: nat, u: nat)
    ensures IsLive(sessions + [NewSession(userId, now)], |sessions|, u) <==> u == userId
    ensures other < |sessions| ==>
      IsLive(sessions + [NewSession(userId, now)], other, u) == IsLive(sessions, other, u)
  {
    var after := sessions + [NewSession(userId, now)];
    assert after[|sessions|] == NewSession(userId, now);
    if other < |sessions| {
      assert after[other] == sessions[other];
    }
  }

  /** Invalidating twice is the same as once, apart from the logout stamp. */
  lemma InvalidateIdempotent(sessions: seq<Session>, sessionId: nat, t1: int, t2: int)
    ensures Invalidate(Invalidate(sessions, sessionId, t1), sessionId, t2) == Invalidate(sessions, sessionId, t2)
  {
  }

  /** No session ever becomes valid again: invalidating only turns flags off. */
  lemma InvalidateNeverRevives(sessions: seq<Session>, sessionId: nat, now: int, i: nat)
    requires i < |sessions| && !sessions[i].isValid
    ensures !Invalidate(sessions, sessionId, now)[i].isValid
  {
  }
}
