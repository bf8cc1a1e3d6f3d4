/** The call manager of the signalling server. */
module Calls {
  import opened Bytes

  datatype CallState = Ringing | Active | Ended

  /** Times are readings of the steady clock, in the unit of the ring timeout. */
  datatype CallSession = CallSession(callId: string, callerId: string, calleeId: string, state: CallState,
                                       createdAt: int)
  {
    predicate Involves(userId: string) {
      callerId == userId || calleeId == userId
    }
  }

  type Sessions = map<string, CallSession>

  datatype Outcome<+T> = Success(value: T) | Failure(reason: string)

  // ----- what each operation does to the sessions -----

  predicate IsBusy(sessions: Sessions, userId: string) {
    exists id :: id in sessions && sessions[id].state != Ended && sessions[id].Involves(userId)
  }

  function Create(sessions: Sessions, caller: string, callee: string, freshId: string, now: int):
    (Sessions, Outcome<string>)
  {
    if IsBusy(sessions, caller) then (sessions, Failure("caller is busy"))
    else if IsBusy(sessions, callee) then (sessions, Failure("callee is busy"))
    else (sessions[freshId := CallSession(freshId, caller, callee, Ringing, now)], Success(freshId))
  }

  /** Why a callee may not accept or reject. */
  function AnswerRefusal(sessions: Sessions, callId: string, callee: string): Option<string> {
    if callId !in sessions then Some("call not found: " + callId)
    else if sessions[callId].calleeId != callee then Some("wrong callee")
    else if sessions[callId].state != Ringing then Some("call not ringing")
    else None
  }

  function Accept(sessions: Sessions, callId: string, callee: string): (Sessions, Outcome<CallSession>) {
    match AnswerRefusal(sessions, callId, callee)
    case Some(reason) => (sessions, Failure(reason))
    case None =>
      var s := sessions[callId].(state := Active);
      (sessions[callId := s], Success(s))
  }

  function Reject(sessions: Sessions, callId: string, callee: string): (Sessions, Outcome<CallSession>) {
    match AnswerRefusal(sessions, callId, callee)
    case Some(reason) => (sessions, Failure(reason))
    case None => (sessions - {callId}, Success(sessions[callId].(state := Ended)))
  }

  function Hangup(sessions: Sessions, callId: string, userId: string): (Sessions, Outcome<CallSession>) {
    if callId !in sessions then (sessions, Failure("call not found: " + callId))
    else if !sessions[callId].Involves(userId) then (sessions, Failure("user not in call"))
    else (sessions - {callId}, Success(sessions[callId].(state := Ended)))
  }

  predicate Overdue(s: CallSession, timeout: int, now: int) {
    s.state == Ringing && now - s.createdAt > timeout
  }

  function Remaining(sessions: Sessions, timeout: int, now: int): Sessions {
    map id | id in sessions && !Overdue(sessions[id], timeout, now) :: sessions[id]
  }

  /** The list names every overdue session once, as ended, in some order. */
  ghost predicate ListsOverdue(sessions: Sessions, timeout: int, now: int, expired: seq<CallSession>) {
    && (forall i :: 0 <= i < |expired| ==>
          && expired[i].callId in sessions && Overdue(sessions[expired[i].callId], timeout, now)
          && expired[i] == sessions[expired[i].callId].(state := Ended))
    && (forall i, j :: 0 <= i < j < |expired| ==> expired[i].callId != expired[j].callId)
    && (forall id :: id in sessions && Overdue(sessions[id], timeout, now) ==>
        exists i :: 0 <= i < |expired| && expired[i].callId == id)
  }

  // ----- the invariant -----

  /** Sessions are stored under their own id, are ringing or active, and share no user. */
  ghost predicate SessionsOk(sessions: Sessions) {
    && (forall id :: id in sessions ==> sessions[id].callId == id && sessions[id].state != Ended)
    && (forall i, j, u :: i in sessions && j in sessions && sessions[i].Involves(u) && sessions[j].Involves(u) ==>
        i == j)
  }

  /** Every operation keeps it, even if the random id collides with a stored one. */
  lemma OperationsKeepSessionsOk(sessions: Sessions, id: string, user: string, other: string, timeout: int, now: int)
    requires SessionsOk(sessions)
    ensures SessionsOk(Create(sessions, user, other, id, now).0)
    ensures SessionsOk(Accept(sessions, id, user).0)
    ensures SessionsOk(Reject(sessions, id, user).0)
    ensures SessionsOk(Hangup(sessions, id, user).0)
    ensures SessionsOk(Remaining(sessions, timeout, now))
  {
    if !IsBusy(sessions, user) && !IsBusy(sessions, other) {
      assert forall k :: k in sessions ==> !sessions[k].Involves(user) && !sessions[k].Involves(other);
    }
  }

  /** A user is busy exactly while taking part in a stored session, and then in exactly one. */
  lemma BusyMeansInOneSession(sessions: Sessions, userId: string)
    requires SessionsOk(sessions)
    ensures IsBusy(sessions, userId) <==> exists id :: id in sessions && sessions[id].Involves(userId)
    ensures |set id | id in sessions && sessions[id].Involves(userId)| == if IsBusy(sessions, userId) then 1 else 0
  {
    var mine := set id | id in sessions && sessions[id].Involves(userId);
    if IsBusy(sessions, userId) {
      var id :| id in sessions && sessions[id].state != Ended && sessions[id].Involves(userId);
      assert mine == {id};
    } else {
      assert forall id :: id in sessions ==> !sessions[id].Involves(userId);
      assert mine == {};
    }
  }

  // ----- the class -----

  class CallManager {
    const ringTimeout: int
    var sessions: Sessions

    constructor (ringTimeout: int)
      ensures this.ringTimeout == ringTimeout && sessions == map[]
    {
      this.ringTimeout := ringTimeout;
      sessions := map[];
    }

    method CheckBusy(userId: string) returns (busy: bool)
      ensures busy == IsBusy(sessions, userId)
    {
      var todo := sessions.Keys;
      while todo != {}
        invariant todo <= sessions.Keys
        invariant forall id :: id in sessions.Keys - todo ==>
            sessions[id].state == Ended || !sessions[id].Involves(userId)
      {
        var id :| id in todo;
        if sessions[id].state != Ended && (sessions[id].callerId == userId || sessions[id].calleeId == userId) {
          return true;
        }
        todo := todo - {id};
      }
      busy := false;
    }

    method CreateCall(caller: string, callee: string, freshId: string, now: int) returns (r: Outcome<string>)
      modifies this
      ensures (sessions, r) == Create(old(sessions), caller, callee, freshId, now)
    {
      var busy := CheckBusy(caller);
      if busy {
        return Failure("caller is busy");
      }
      busy := CheckBusy(callee);
      if busy {
        return Failure("callee is busy");
      }
      var s := CallSession(freshId, caller, callee, Ringing, now);
      sessions := sessions[s.callId := s];
      r := Success(s.callId);
    }

    method AcceptCall(callId: string, callee: string) returns (r: Outcome<CallSession>)
      modifies this
      ensures (sessions, r) == Accept(old(sessions), callId, callee)
    {
      if callId !in sessions {
        return Failure("call not found: " + callId);
      }
      if sessions[callId].calleeId != callee {
        return Failure("wrong callee");
      }
      if sessions[callId].state != Ringing {
        return Failure("call not ringing");
      }
      sessions := sessions[callId := sessions[callId].(state := Active)];
      r := Success(sessions[callId]);
    }

    method RejectCall(callId: string, callee: string) returns (r: Outcome<CallSession>)
      modifies this
      ensures (sessions, r) == Reject(old(sessions), callId, callee)
    {
      if callId !in sessions {
        return Failure("call not found: " + callId);
      }
      if sessions[callId].calleeId != callee {
        return Failure("wrong callee");
      }
      if sessions[callId].state != Ringing {
        return Failure("call not ringing");
      }
      var s := sessions[callId].(state := Ended);
      sessions := sessions - {callId};
      r := Success(s);
    }

    method HangupCall(callId: string, userId: string) returns (r: Outcome<CallSession>)
      modifies this
      ensures (sessions, r) == Hangup(old(sessions), callId, userId)
    {
      if callId !in sessions {
        return Failure("call not found: " + callId);
      }
      var s := sessions[callId];
      if s.callerId != userId && s.calleeId != userId {
        return Failure("user not in call");
      }
      sessions := sessions - {callId};
      r := Success(s.(state := Ended));
    }

    method Find(callId: string) returns (r: Option<CallSession>)
      ensures r == if callId in sessions then Some(sessions[callId]) else None
    {
      r := if callId in sessions then Some(sessions[callId]) else None;
    }

    /** Erases while it iterates; the order of the result is the map's. */
    method ExpireRinging(now: int) returns (expired: seq<CallSession>)
      requires forall id :: id in sessions ==> sessions[id].callId == id
      modifies this
      ensures sessions == Remaining(old(sessions), ringTimeout, now)
      ensures ListsOverdue(old(sessions), ringTimeout, now, expired)
    {
      ghost var before := sessions;
      expired := [];
      var todo := sessions.Keys;
      while todo != {}
        invariant todo <= before.Keys
        invariant sessions
          == map id | id in before && (id in todo || !Overdue(before[id], ringTimeout, now)) :: before[id]
        invariant forall i :: 0 <= i < |expired| ==>
          && expired[i].callId in before && expired[i].callId !in todo
              && Overdue(before[expired[i].callId], ringTimeout, now)
          && expired[i] == before[expired[i].callId].(state := Ended)
        invariant forall i, j :: 0 <= i < j < |expired| ==> expired[i].callId != expired[j].callId
        invariant forall id :: id in before && id !in todo && Overdue(before[id], ringTimeout, now) ==>
          exists i :: 0 <= i < |expired| && expired[i].callId == id
      {
        var id :| id in todo;
        var s := sessions[id];
        ghost var listed := expired;
        if s.state == Ringing && now - s.createdAt > ringTimeout {
          expired := expired + [s.(state := Ended)];
          sessions := sessions - {id};
          assert expired[|listed|].callId == id;
        }
        assert forall i :: 0 <= i < |listed| ==> expired[i] == listed[i];
        todo := todo - {id};
      }
    }
  }
}
