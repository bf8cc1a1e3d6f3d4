/** The signalling router: what each client message and the expiry timer do and send. */
module Signalling {
  import opened Bytes
  import opened Calls

  /** A client message after JSON decoding; None stands for a missing or non-string field. */
  datatype ClientMsg =
    | CallCreate(to: Option<string>)
    | CallAccept(callId: Option<string>)
    | CallReject(callId: Option<string>)
    | CallHangup(callId: Option<string>)
    | Webrtc(callId: Option<string>, text: string)
    | UnknownType(typ: string)
    | MissingType
    | InvalidJson

  datatype ServerMsg =
    | Created(callId: string)
    | Incoming(callId: string, from: string)
    | RtcConfig(callId: string, config: string)
    | CallEnded(callId: string, reason: string)
    | CallFailed(callId: string, reason: string)
    | Error(message: string)
    | Relayed(text: string)

  datatype Notice = Notice(to: string, msg: ServerMsg)

  /** The configuration generator of the accept handler. */
  type RtcConfigGenerator = string -> string

  function Other(s: CallSession, userId: string): string {
    if s.callerId == userId then s.calleeId else s.callerId
  }

  /** The effect of one client message: the sessions afterwards, and what the handler sends, in order. */
  function HandleMsg(sessions: Sessions, user: string, msg: ClientMsg, freshId: string, now: int,
      gen: RtcConfigGenerator):
    (Sessions, seq<Notice>)
  {
    match msg
    case CallCreate(None) => (sessions, [Notice(user, Error("missing to"))])
    case CallCreate(Some(to)) =>
      var (sessions', r) := Create(sessions, user, to, freshId, now);
      (sessions', match r
                  case Failure(reason) => [Notice(user, Error(reason))]
                  case Success(id) => [Notice(user, Created(id)), Notice(to, Incoming(id, user))])
    case CallAccept(None) => (sessions, [Notice(user, Error("missing callId"))])
    case CallAccept(Some(id)) =>
      var (sessions', r) := Accept(sessions, id, user);
      (sessions', match r
                  case Failure(reason) => [Notice(user, Error(reason))]
                  case Success(s) => [Notice(s.callerId, RtcConfig(id, gen(s.callerId))),
                                      Notice(s.calleeId, RtcConfig(id, gen(s.calleeId)))])
    case CallReject(None) => (sessions, [Notice(user, Error("missing callId"))])
    case CallReject(Some(id)) =>
      var (sessions', r) := Reject(sessions, id, user);
      (sessions', match r
                  case Failure(reason) => [Notice(user, Error(reason))]
                  case Success(s) => [Notice(s.callerId, CallEnded(id, "rejected"))])
    case CallHangup(None) => (sessions, [Notice(user, Error("missing callId"))])
    case CallHangup(Some(id)) =>
      var (sessions', r) := Hangup(sessions, id, user);
      (sessions', match r
                  case Failure(reason) => [Notice(user, Error(reason))]
                  case Success(s) => [Notice(Other(s, user), CallEnded(id, "hangup"))])
    case Webrtc(None, _) => (sessions, [Notice(user, Error("missing callId"))])
    case Webrtc(Some(id), text) =>
      (sessions, if id !in sessions then [Notice(user, Error("call not found"))]
                 else [Notice(Other(sessions[id], user), Relayed(text))])
    case UnknownType(typ) => (sessions, [Notice(user, Error("unknown type: " + typ))])
    case MissingType => (sessions, [Notice(user, Error("missing type"))])
    case InvalidJson => (sessions, [Notice(user, Error("invalid json"))])
  }

  /** What the expiry timer sends for the sessions it removed. */
  function ExpiryNotices(expired: seq<CallSession>): seq<Notice> {
    if expired == [] then []
    else
      var s := expired[|expired| - 1];
      ExpiryNotices(expired[..|expired| - 1])
      + [Notice(s.callerId, CallFailed(s.callId, "timeout")), Notice(s.calleeId, CallFailed(s.callId, "timeout"))]
  }

  class Router {
    const manager: CallManager
    const gen: RtcConfigGenerator
    var outbox: seq<Notice>

    constructor (manager: CallManager, gen: RtcConfigGenerator)
      ensures this.manager == manager && this.gen == gen && outbox == []
    {
      this.manager, this.gen, outbox := manager, gen, [];
    }

    method SendJson(to: string, msg: ServerMsg)
      modifies this
      ensures outbox == old(outbox) + [Notice(to, msg)]
    {
      outbox := outbox + [Notice(to, msg)];
    }

    method OnCallCreate(user: string, to: Option<string>, freshId: string, now: int)
      modifies this, manager
      ensures var (sessions, notices) := HandleMsg(old(manager.sessions), user, CallCreate(to), freshId, now, gen);
              manager.sessions == sessions && outbox == old(outbox) + notices
    {
      if to.None? {
        SendJson(user, Error("missing to"));
        return;
      }
      var r := manager.CreateCall(user, to.value, freshId, now);
      if r.Failure? {
        SendJson(user, Error(r.reason));
        return;
      }
      SendJson(user, Created(r.value));
      SendJson(to.value, Incoming(r.value, user));
    }

    method OnCallAccept(user: string, callId: Option<string>, freshId: string, now: int)
      modifies this, manager
      ensures var (sessions, notices) := HandleMsg(old(manager.sessions), user, CallAccept(callId), freshId, now, gen);
              manager.sessions == sessions && outbox == old(outbox) + notices
    {
      if callId.None? {
        SendJson(user, Error("missing callId"));
        return;
      }
      var r := manager.AcceptCall(callId.value, user);
      if r.Failure? {
        SendJson(user, Error(r.reason));
        return;
      }
      var callerConfig, calleeConfig := gen(r.value.callerId), gen(r.value.calleeId);
      SendJson(r.value.callerId, RtcConfig(callId.value, callerConfig));
      SendJson(r.value.calleeId, RtcConfig(callId.value, calleeConfig));
    }

    method OnCallReject(user: string, callId: Option<string>, freshId: string, now: int)
      modifies this, manager
      ensures var (sessions, notices) := HandleMsg(old(manager.sessions), user, CallReject(callId), freshId, now, gen);
              manager.sessions == sessions && outbox == old(outbox) + notices
    {
      if callId.None? {
        SendJson(user, Error("missing callId"));
        return;
      }
      var r := manager.RejectCall(callId.value, user);
      if r.Failure? {
        SendJson(user, Error(r.reason));
        return;
      }
      SendJson(r.value.callerId, CallEnded(callId.value, "rejected"));
    }

    method OnCallHangup(user: string, callId: Option<string>, freshId: string, now: int)
      modifies this, manager
      ensures var (sessions, notices) := HandleMsg(old(manager.sessions), user, CallHangup(callId), freshId, now, gen);
              manager.sessions == sessions && outbox == old(outbox) + notices
    {
      if callId.None? {
        SendJson(user, Error("missing callId"));
        return;
      }
      var r := manager.HangupCall(callId.value, user);
      if r.Failure? {
        SendJson(user, Error(r.reason));
        return;
      }
      var otherId := if r.value.callerId == user then r.value.calleeId else r.value.callerId;
      SendJson(otherId, CallEnded(callId.value, "hangup"));
    }

    method OnWebrtcRelay(user: string, callId: Option<string>, text: string, freshId: string, now: int)
      modifies this
      ensures var (sessions, notices) := HandleMsg(manager.sessions, user, Webrtc(callId, text), freshId, now, gen);
              manager.sessions == sessions && outbox == old(outbox) + notices
    {
      if callId.None? {
        SendJson(user, Error("missing callId"));
        return;
      }
      var s := manager.Find(callId.value);
      if s.None? {
        SendJson(user, Error("call not found"));
        return;
      }
      SendJson(if s.value.callerId == user then s.value.calleeId else s.value.callerId, Relayed(text));
    }

    method Handle(user: string, msg: ClientMsg, freshId: string, now: int)
      modifies this, manager
      ensures var (sessions, notices) := HandleMsg(old(manager.sessions), user, msg, freshId, now, gen);
              manager.sessions == sessions && outbox == old(outbox) + notices
    {
      match msg
      case CallCreate(to) => OnCallCreate(user, to, freshId, now);
      case CallAccept(id) => OnCallAccept(user, id, freshId, now);
      case CallReject(id) => OnCallReject(user, id, freshId, now);
      case CallHangup(id) => OnCallHangup(user, id, freshId, now);
      case Webrtc(id, text) => OnWebrtcRelay(user, id, text, freshId, now);
      case UnknownType(typ) => SendJson(user, Error("unknown type: " + typ));
      case MissingType => SendJson(user, Error("missing type"));
      case InvalidJson => SendJson(user, Error("invalid json"));
    }

    method CheckExpired(now: int) returns (ghost expired: seq<CallSession>)
      requires forall id :: id in manager.sessions ==> manager.sessions[id].callId == id
      modifies this, manager
      ensures ListsOverdue(old(manager.sessions), manager.ringTimeout, now, expired)
      ensures manager.sessions == Remaining(old(manager.sessions), manager.ringTimeout, now)
      ensures outbox == old(outbox) + ExpiryNotices(expired)
    {
      var listed := manager.ExpireRinging(now);
      expired := listed;
      for i := 0 to |listed|
        invariant outbox == old(outbox) + ExpiryNotices(listed[..i])
        invariant manager.sessions == Remaining(old(manager.sessions), manager.ringTimeout, now)
      {
        assert listed[..i + 1][..i] == listed[..i];
        SendJson(listed[i].callerId, CallFailed(listed[i].callId, "timeout"));
        SendJson(listed[i].calleeId, CallFailed(listed[i].callId, "timeout"));
      }
      assert listed[..|listed|] == listed;
    }
  }
}
