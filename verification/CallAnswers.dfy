/** What each step of the call protocol does to the calls and whom it tells, in terms of the sessions' fields. */
module CallAnswers {
  import opened Bytes
  import opened Calls
  import opened Signalling
  import opened CallProtocol

  /** The client's message changes the sessions to these and makes the router send these notices. */
  ghost predicate Answers(y: System, gen: RtcConfigGenerator, user: string, msg: ClientMsg, freshId: string, now: int,
                          sessions: Sessions, notices: multiset<Notice>)
  {
    forall timeout :: var y' := Apply(y, timeout, gen, Receive(user, msg, freshId, now));
      y'.sessions == sessions && y'.pending == y.pending + notices && y'.delivered == y.delivered
  }

  lemma HandlerAnswers(y: System, gen: RtcConfigGenerator, user: string, msg: ClientMsg, freshId: string, now: int)
    ensures var (sessions, notices) := HandleMsg(y.sessions, user, msg, freshId, now, gen);
      Answers(y, gen, user, msg, freshId, now, sessions, multiset(notices))
  {
    hide HandleMsg, OwnEnds;
  }

  predicate Busy(y: System, user: string) {
    exists id :: id in y.sessions && (y.sessions[id].callerId == user || y.sessions[id].calleeId == user)
  }

  lemma BusyIs(y: System, user: string)
    requires SystemOk(y)
    ensures IsBusy(y.sessions, user) <==> Busy(y, user)
  {
    hide EndEvents, Expected;
  }

  /** A call is created if and only if neither party is in one; the caller is told its id, the callee who calls.
      Otherwise nothing changes and the caller alone is told why. */
  lemma CreateMeans(y: System, gen: RtcConfigGenerator, user: string, to: string, freshId: string, now: int)
    requires SystemOk(y)
    ensures var msg := CallCreate(Some(to));
      && (Busy(y, user) ==>
            Answers(y, gen, user, msg, freshId, now, y.sessions, multiset{Notice(user, Error("caller is busy"))}))
      && (!Busy(y, user) && Busy(y, to) ==>
            Answers(y, gen, user, msg, freshId, now, y.sessions, multiset{Notice(user, Error("callee is busy"))}))
      && (!Busy(y, user) && !Busy(y, to) ==>
            Answers(y, gen, user, msg, freshId, now,
                    y.sessions[freshId := CallSession(freshId, user, to, Ringing, now)],
                    multiset{Notice(user, Created(freshId)), Notice(to, Incoming(freshId, user))}))
  {
    hide IsBusy, SystemOk, Busy, Answers;
    HandlerAnswers(y, gen, user, CallCreate(Some(to)), freshId, now);
    BusyIs(y, user);
    BusyIs(y, to);
  }

  /** The call exists, rings, and this user is the one who is called. */
  predicate MayAnswer(y: System, user: string, id: string) {
    id in y.sessions && y.sessions[id].calleeId == user && y.sessions[id].state == Ringing
  }

  function WhyNotAnswer(y: System, user: string, id: string): string {
    if id !in y.sessions then "call not found: " + id
    else if y.sessions[id].calleeId != user then "wrong callee"
    else "call not ringing"
  }

  /** The callee's accept of a ringing call makes it active and gives each party its own configuration; any
      other accept changes nothing and gives its sender one error. */
  lemma AcceptMeans(y: System, gen: RtcConfigGenerator, user: string, id: string, freshId: string, now: int)
    ensures var msg := CallAccept(Some(id));
      && (MayAnswer(y, user, id) ==>
            var s := y.sessions[id];
            Answers(y, gen, user, msg, freshId, now,
                    y.sessions[id := CallSession(s.callId, s.callerId, s.calleeId, Active, s.createdAt)],
                    multiset{Notice(s.callerId, RtcConfig(id, gen(s.callerId))),
                        Notice(user, RtcConfig(id, gen(user)))}))
      && (!MayAnswer(y, user, id) ==>
            Answers(y, gen, user, msg, freshId, now, y.sessions,
                    multiset{Notice(user, Error(WhyNotAnswer(y, user, id)))}))
  {
    hide Answers;
    HandlerAnswers(y, gen, user, CallAccept(Some(id)), freshId, now);
  }

  /** The callee's reject of a ringing call removes it and tells the caller; any other reject changes nothing. */
  lemma RejectMeans(y: System, gen: RtcConfigGenerator, user: string, id: string, freshId: string, now: int)
    ensures var msg := CallReject(Some(id));
      && (MayAnswer(y, user, id) ==>
            Answers(y, gen, user, msg, freshId, now, y.sessions - {id},
                    multiset{Notice(y.sessions[id].callerId, CallEnded(id, "rejected"))}))
      && (!MayAnswer(y, user, id) ==>
            Answers(y, gen, user, msg, freshId, now, y.sessions,
                    multiset{Notice(user, Error(WhyNotAnswer(y, user, id)))}))
  {
    hide Answers;
    HandlerAnswers(y, gen, user, CallReject(Some(id)), freshId, now);
  }

  predicate TakesPart(y: System, user: string, id: string) {
    id in y.sessions && (y.sessions[id].callerId == user || y.sessions[id].calleeId == user)
  }

  /** A participant's hangup removes the call in any state and tells the other party; any other changes nothing. */
  lemma HangupMeans(y: System, gen: RtcConfigGenerator, user: string, id: string, freshId: string, now: int)
    ensures var msg := CallHangup(Some(id));
      && (TakesPart(y, user, id) ==>
            var s := y.sessions[id];
            Answers(y, gen, user, msg, freshId, now, y.sessions - {id},
                    multiset{Notice(if s.callerId == user then s.calleeId else s.callerId, CallEnded(id, "hangup"))}))
      && (!TakesPart(y, user, id) ==>
            Answers(y, gen, user, msg, freshId, now, y.sessions,
                    multiset{Notice(user, Error(if id in y.sessions then "user not in call"
                        else "call not found: " + id))}))
  {
    hide Answers;
    HandlerAnswers(y, gen, user, CallHangup(Some(id)), freshId, now);
  }

  /** A message without what it needs changes nothing and gives its sender one error. */
  lemma MalformedMeans(y: System, gen: RtcConfigGenerator, user: string, msg: ClientMsg, freshId: string, now: int)
    requires msg in {CallCreate(None), CallAccept(None), CallReject(None), CallHangup(None), MissingType, InvalidJson}
             || msg.UnknownType? || (msg.Webrtc? && msg.callId == None)
    ensures var reason := match msg
                          case CallCreate(_) => "missing to"
                          case UnknownType(typ) => "unknown type: " + typ
                          case MissingType => "missing type"
                          case InvalidJson => "invalid json"
                          case _ => "missing callId";
      Answers(y, gen, user, msg, freshId, now, y.sessions, multiset{Notice(user, Error(reason))})
  {
    hide Answers;
    HandlerAnswers(y, gen, user, msg, freshId, now);
  }

  // ----- the ring timer -----

  /** The call has been ringing for longer than the timeout. */
  predicate RingsTooLong(s: CallSession, timeout: int, now: int) {
    s.state == Ringing && s.createdAt + timeout < now
  }

  /** The timer removes exactly the calls that have been ringing too long. An active call stays, whatever its age. */
  lemma TimerMeans(y: System, timeout: int, gen: RtcConfigGenerator, now: int, expired: seq<CallSession>)
    ensures var y' := Apply(y, timeout, gen, Expire(now, expired));
      && (forall id :: id in y'.sessions <==> id in y.sessions && !RingsTooLong(y.sessions[id], timeout, now))
      && (forall id :: id in y'.sessions ==> y'.sessions[id] == y.sessions[id])
      && (forall id :: id in y.sessions && y.sessions[id].state == Active ==> id in y'.sessions)
      && y'.delivered == y.delivered
  {
    hide ExpiryNotices;
  }

  /** Its list names exactly those calls, once each, and its notices are what it makes the router send. */
  lemma TimerLists(y: System, timeout: int, gen: RtcConfigGenerator, now: int, expired: seq<CallSession>)
    requires SystemOk(y) && Enabled(y, timeout, Expire(now, expired))
    ensures forall id :: (exists i :: 0 <= i < |expired| && expired[i].callId == id)
                         <==> id in y.sessions && RingsTooLong(y.sessions[id], timeout, now)
    ensures forall i :: 0 <= i < |expired| ==>
      && expired[i].callId in y.sessions && expired[i].callerId == y.sessions[expired[i].callId].callerId
      && expired[i].calleeId == y.sessions[expired[i].callId].calleeId
    ensures forall i, j :: 0 <= i < j < |expired| ==> expired[i].callId != expired[j].callId
    ensures Apply(y, timeout, gen, Expire(now, expired)).pending == y.pending + multiset(ExpiryNotices(expired))
  {
    hide EndEvents, Expected, ExpiryNotices, SessionsOk;
  }

  /** The timer's notices, two for each call in its list: caller and callee are told that the call timed out. */
  lemma {:induction false} TimerNotices(expired: seq<CallSession>)
    ensures |ExpiryNotices(expired)| == 2 * |expired|
    ensures forall i :: 0 <= i < |expired| ==>
      && ExpiryNotices(expired)[2 * i] == TimeoutNotice(expired[i], expired[i].callerId)
      && ExpiryNotices(expired)[2 * i + 1] == TimeoutNotice(expired[i], expired[i].calleeId)
  {
    if expired != [] {
      var m := |expired| - 1;
      TimerNotices(expired[..m]);
      forall i | 0 <= i < m
        ensures ExpiryNotices(expired)[2 * i] == TimeoutNotice(expired[i], expired[i].callerId)
        ensures ExpiryNotices(expired)[2 * i + 1] == TimeoutNotice(expired[i], expired[i].calleeId)
      {
        assert expired[..m][i] == expired[i];
      }
    }
  }

  function TimeoutNotice(s: CallSession, to: string): Notice {
    Notice(to, CallFailed(s.callId, "timeout"))
  }

  // ----- how calls end, over runs -----

  /** The action is this user's hangup of the call. */
  predicate HangsUp(a: Action, user: string, id: string) {
    a.Receive? && a.user == user && a.msg == CallHangup(Some(id))
  }

  lemma ActiveHandler(sessions: Sessions, user: string, msg: ClientMsg, freshId: string, now: int,
                      gen: RtcConfigGenerator, id: string)
    requires id in sessions && sessions[id].state == Active && freshId != id
    ensures var after := HandleMsg(sessions, user, msg, freshId, now, gen).0;
      || (id in after && after[id] == sessions[id])
      || (msg == CallHangup(Some(id)) && sessions[id].Involves(user))
  {
    hide IsBusy;
  }

  /** A step leaves an active call as it is unless it is the hangup of a participant. */
  lemma ActiveStep(y: System, timeout: int, gen: RtcConfigGenerator, a: Action, id: string)
    requires SystemOk(y) && Enabled(y, timeout, a) && id in y.sessions && y.sessions[id].state == Active
    ensures var y' := Apply(y, timeout, gen, a);
      || (id in y'.sessions && y'.sessions[id] == y.sessions[id])
      || (a.Receive? && HangsUp(a, a.user, id) && y.sessions[id].Involves(a.user))
  {
    hide EndEvents, Expected, ExpiryNotices, OwnEnds, SessionsOk, ListsOverdue, HandleMsg;
    if a.Receive? {
      ActiveHandler(y.sessions, a.user, a.msg, a.freshId, a.now, gen, id);
    }
  }

  /** Over any run, an accepted call leaves the sessions only by a participant's hangup. */
  lemma {:induction false} ActiveEndsByHangup(states: seq<System>, actions: seq<Action>, timeout: int,
                                              gen: RtcConfigGenerator, i: nat, j: nat, id: string)
    returns (k: nat)
    requires IsRun(states, actions, timeout, gen) && i <= j < |states|
    requires id in states[i].sessions && states[i].sessions[id].state == Active && id !in states[j].sessions
    ensures i <= k < j && actions[k].Receive? && HangsUp(actions[k], actions[k].user, id)
    ensures id in states[k].sessions && states[k].sessions[id] == states[i].sessions[id]
    ensures states[i].sessions[id].Involves(actions[k].user)
    decreases j - i
  {
    hide Apply, Enabled, SystemOk;
    if i == j {
      assert false;
    } else {
      ReachableOk(states, actions, timeout, gen, i);
      ActiveStep(states[i], timeout, gen, actions[i], id);
      if id in states[i + 1].sessions && states[i + 1].sessions[id] == states[i].sessions[id] {
        k := ActiveEndsByHangup(states, actions, timeout, gen, i + 1, j, id);
      } else {
        k := i;
      }
    }
  }
}
