/** The call protocol on a multi-threaded server: handlers run the call manager under its lock and send
    afterwards, so their sends may be delivered in any order, mixed with later steps. */
module CallProtocol {
  import opened Bytes
  import opened Calls
  import opened Signalling

  /** created remembers every call ever made, own every successful reject or hangup by its author; neither
      exists in the source. */
  datatype System = System(
    sessions: Sessions, pending: multiset<Notice>, delivered: multiset<Notice>,
    created: Sessions, own: multiset<(string, string)>)

  datatype Action =
    | Receive(user: string, msg: ClientMsg, freshId: string, now: int)
    | Expire(now: int, expired: seq<CallSession>)
    | Deliver(notice: Notice)

  const INITIAL := System(map[], multiset{}, multiset{}, map[], multiset{})

  function OwnEnds(sessions: Sessions, user: string, msg: ClientMsg): multiset<(string, string)> {
    match msg
    case CallReject(Some(id)) => if Reject(sessions, id, user).1.Success? then multiset{(user, id)} else multiset{}
    case CallHangup(Some(id)) => if Hangup(sessions, id, user).1.Success? then multiset{(user, id)} else multiset{}
    case _ => multiset{}
  }

  /** The random id is new, and the timer lists the overdue sessions in some order. */
  ghost predicate Enabled(y: System, timeout: int, a: Action) {
    match a
    case Receive(_, _, freshId, _) => freshId !in y.created
    case Expire(now, expired) => ListsOverdue(y.sessions, timeout, now, expired)
    case Deliver(notice) => notice in y.pending
  }

  function Apply(y: System, timeout: int, gen: RtcConfigGenerator, a: Action): System {
    match a
    case Receive(user, msg, freshId, now) =>
      var (sessions, notices) := HandleMsg(y.sessions, user, msg, freshId, now, gen);
      System(sessions, y.pending + multiset(notices), y.delivered,
             if freshId in sessions && freshId !in y.sessions then y.created[freshId := sessions[freshId]]
             else y.created,
             y.own + OwnEnds(y.sessions, user, msg))
    case Expire(now, expired) =>
      y.(sessions := Remaining(y.sessions, timeout, now), pending := y.pending + multiset(ExpiryNotices(expired)))
    case Deliver(notice) =>
      y.(pending := y.pending - multiset{notice}, delivered := y.delivered + multiset{notice})
  }

  ghost predicate IsRun(states: seq<System>, actions: seq<Action>, timeout: int, gen: RtcConfigGenerator) {
    && |states| == |actions| + 1 && states[0] == INITIAL
    && forall i :: 0 <= i < |actions| ==>
         Enabled(states[i], timeout, actions[i]) && states[i + 1] == Apply(states[i], timeout, gen, actions[i])
  }

  // ----- counting end events -----

  /** Notices that tell a user that a call is over. */
  function EndNotices(m: multiset<Notice>, user: string, id: string): nat {
    m[Notice(user, CallEnded(id, "rejected"))] + m[Notice(user, CallEnded(id, "hangup"))]
    + m[Notice(user, CallFailed(id, "timeout"))]
  }

  /** All end events of a call for a user, sent or about to be sent, and the user's own. */
  function EndEvents(y: System, user: string, id: string): nat {
    EndNotices(y.pending, user, id) + EndNotices(y.delivered, user, id) + y.own[(user, id)]
  }

  /** One per participant once the call is gone; two for someone who called himself. */
  function Expected(y: System, user: string, id: string): nat {
    if id !in y.created || id in y.sessions || !y.created[id].Involves(user) then 0
    else if y.created[id].callerId == y.created[id].calleeId then 2
    else 1
  }

  ghost predicate SystemOk(y: System) {
    && SessionsOk(y.sessions)
    && (forall id :: id in y.sessions ==>
          && id in y.created
          && y.created[id].callerId == y.sessions[id].callerId && y.created[id].calleeId == y.sessions[id].calleeId)
    && (forall id, user :: EndEvents(y, user, id) == Expected(y, user, id))
  }

  lemma EndNoticesAdd(m: multiset<Notice>, n: multiset<Notice>, user: string, id: string)
    ensures EndNotices(m + n, user, id) == EndNotices(m, user, id) + EndNotices(n, user, id)
  {
  }

  function IsEnd(n: Notice, user: string, id: string): nat {
    if n.to == user && n.msg in {CallEnded(id, "rejected"), CallEnded(id, "hangup"), CallFailed(id, "timeout")}
    then 1 else 0
  }

  lemma EndNoticesOne(n: Notice, user: string, id: string)
    ensures EndNotices(multiset{n}, user, id) == IsEnd(n, user, id)
  {
    assert "rejected"[0] != "hangup"[0];
  }

  lemma EndNoticesSeq(ns: seq<Notice>, user: string, id: string)
    requires |ns| <= 2
    ensures EndNotices(multiset(ns), user, id)
         == (if |ns| > 0 then IsEnd(ns[0], user, id) else 0) + (if |ns| > 1 then IsEnd(ns[1], user, id) else 0)
  {
    hide EndNotices, IsEnd;
    if |ns| == 0 {
      assert multiset(ns) == multiset{};
      NoEndNotices(user, id);
    } else if |ns| == 1 {
      assert ns == [ns[0]] && multiset(ns) == multiset{ns[0]};
      EndNoticesOne(ns[0], user, id);
    } else {
      assert ns == [ns[0]] + [ns[1]] && multiset(ns) == multiset{ns[0]} + multiset{ns[1]};
      EndNoticesAdd(multiset{ns[0]}, multiset{ns[1]}, user, id);
      EndNoticesOne(ns[0], user, id);
      EndNoticesOne(ns[1], user, id);
    }
  }

  lemma NoEndNotices(user: string, id: string)
    ensures EndNotices(multiset{}, user, id) == 0
  {
  }

  function Parts(s: CallSession, user: string): nat {
    (if s.callerId == user then 1 else 0) + (if s.calleeId == user then 1 else 0)
  }

  /** How often the listed sessions with this id involve the user. */
  function Announced(expired: seq<CallSession>, user: string, id: string): nat {
    if expired == [] then 0
    else
      var s := expired[|expired| - 1];
      Announced(expired[..|expired| - 1], user, id) + if s.callId == id then Parts(s, user) else 0
  }

  lemma {:induction false} ExpiryNoticesCount(expired: seq<CallSession>, user: string, id: string)
    ensures EndNotices(multiset(ExpiryNotices(expired)), user, id) == Announced(expired, user, id)
  {
    hide EndNotices;
    if expired == [] {
      assert multiset(ExpiryNotices(expired)) == multiset{};
      NoEndNotices(user, id);
    } else {
      var init, s := expired[..|expired| - 1], expired[|expired| - 1];
      var two := [Notice(s.callerId, CallFailed(s.callId, "timeout")),
          Notice(s.calleeId, CallFailed(s.callId, "timeout"))];
      ExpiryNoticesCount(init, user, id);
      EndNoticesSeq(two, user, id);
      EndNoticesAdd(multiset(ExpiryNotices(init)), multiset(two), user, id);
      assert multiset(ExpiryNotices(expired)) == multiset(ExpiryNotices(init)) + multiset(two);
    }
  }

  ghost predicate DistinctIds(expired: seq<CallSession>) {
    forall i, j :: 0 <= i < j < |expired| ==> expired[i].callId != expired[j].callId
  }

  lemma {:induction false} AnnouncedOnce(expired: seq<CallSession>, user: string, k: nat)
    requires DistinctIds(expired) && k < |expired|
    ensures Announced(expired, user, expired[k].callId) == Parts(expired[k], user)
  {
    var n := |expired| - 1;
    var init, id := expired[..n], expired[k].callId;
    if k < n {
      assert init[k] == expired[k];
      AnnouncedOnce(init, user, k);
    } else {
      assert forall i :: 0 <= i < n ==> init[i] == expired[i] && expired[i].callId != id;
      NotAnnounced(init, user, id);
    }
  }

  lemma {:induction false} NotAnnounced(expired: seq<CallSession>, user: string, id: string)
    requires forall i :: 0 <= i < |expired| ==> expired[i].callId != id
    ensures Announced(expired, user, id) == 0
  {
    if expired != [] {
      NotAnnounced(expired[..|expired| - 1], user, id);
    }
  }

  /** How often a user takes part in a call that leaves the sessions in this step. */
  function Leaving(before: Sessions, after: Sessions, user: string, id: string): nat {
    if id in before && id !in after then Parts(before[id], user) else 0
  }

  /** The four ways a handler can leave the sessions. */
  datatype Change = Same | Added(session: CallSession) | Activated(callId: string) | Removed(callId: string)

  function ChangeOf(sessions: Sessions, actor: string, msg: ClientMsg, freshId: string, now: int): Change {
    match msg
    case CallCreate(Some(to)) =>
      if IsBusy(sessions, actor) || IsBusy(sessions, to) then Same
      else Added(CallSession(freshId, actor, to, Ringing, now))
    case CallAccept(Some(id)) => if AnswerRefusal(sessions, id, actor).None? then Activated(id) else Same
    case CallReject(Some(id)) => if AnswerRefusal(sessions, id, actor).None? then Removed(id) else Same
    case CallHangup(Some(id)) => if id in sessions && sessions[id].Involves(actor) then Removed(id) else Same
    case _ => Same
  }

  function Changed(sessions: Sessions, c: Change): Sessions {
    match c
    case Same => sessions
    case Added(s) => sessions[s.callId := s]
    case Activated(id) => if id in sessions then sessions[id := sessions[id].(state := Active)] else sessions
    case Removed(id) => sessions - {id}
  }

  lemma ChangeOfHandler(sessions: Sessions, actor: string, msg: ClientMsg, freshId: string, now: int,
      gen: RtcConfigGenerator)
    ensures var c := ChangeOf(sessions, actor, msg, freshId, now);
            && HandleMsg(sessions, actor, msg, freshId, now, gen).0 == Changed(sessions, c)
            && (c.Removed? ==> c.callId in sessions && sessions[c.callId].Involves(actor))
            && (c.Activated? ==> c.callId in sessions)
            && (c.Added? ==> c.session.callId == freshId)
  {
    hide IsBusy;
  }

  function EndReason(msg: ClientMsg): string {
    if msg.CallReject? then "rejected" else "hangup"
  }

  /** A handler that ends a call tells the other party, and nobody else. */
  lemma NoticesOfEnd(sessions: Sessions, actor: string, msg: ClientMsg, freshId: string, now: int,
      gen: RtcConfigGenerator)
    requires ChangeOf(sessions, actor, msg, freshId, now).Removed?
    ensures var id := ChangeOf(sessions, actor, msg, freshId, now).callId;
            && id in sessions && OwnEnds(sessions, actor, msg) == multiset{(actor, id)}
            && HandleMsg(sessions, actor, msg, freshId, now, gen).1
               == [Notice(Other(sessions[id], actor), CallEnded(id, EndReason(msg)))]
  {
    hide IsBusy;
  }

  lemma NoticesOfOthers(sessions: Sessions, actor: string, msg: ClientMsg, freshId: string, now: int,
      gen: RtcConfigGenerator)
    requires !ChangeOf(sessions, actor, msg, freshId, now).Removed?
    ensures var notices := HandleMsg(sessions, actor, msg, freshId, now, gen).1;
            && OwnEnds(sessions, actor, msg) == multiset{} && |notices| <= 2
            && (|notices| > 0 ==> !notices[0].msg.CallEnded? && !notices[0].msg.CallFailed?)
            && (|notices| > 1 ==> !notices[1].msg.CallEnded? && !notices[1].msg.CallFailed?)
  {
    hide IsBusy;
  }

  /** Every handler accounts for exactly the calls it ends. */
  lemma HandlerAccounts(sessions: Sessions, actor: string, msg: ClientMsg, freshId: string, now: int,
                        gen: RtcConfigGenerator, user: string, id: string)
    ensures var (sessions', notices) := HandleMsg(sessions, actor, msg, freshId, now, gen);
            EndNotices(multiset(notices), user, id) + OwnEnds(sessions, actor, msg)[(user, id)]
            == Leaving(sessions, sessions', user, id)
  {
    hide EndNotices, HandleMsg, OwnEnds, ChangeOf;
    var c, notices := ChangeOf(sessions, actor, msg, freshId, now),
        HandleMsg(sessions, actor, msg, freshId, now, gen).1;
    ChangeOfHandler(sessions, actor, msg, freshId, now, gen);
    if c.Removed? {
      NoticesOfEnd(sessions, actor, msg, freshId, now, gen);
    } else {
      NoticesOfOthers(sessions, actor, msg, freshId, now, gen);
    }
    EndNoticesSeq(notices, user, id);
  }

  lemma ExpiryAccounts(sessions: Sessions, timeout: int, now: int, expired: seq<CallSession>, user: string, id: string)
    requires ListsOverdue(sessions, timeout, now, expired)
    ensures EndNotices(multiset(ExpiryNotices(expired)), user, id)
         == Leaving(sessions, Remaining(sessions, timeout, now), user, id)
  {
    hide EndNotices, ExpiryNotices, Overdue;
    ExpiryNoticesCount(expired, user, id);
    if id in sessions && Overdue(sessions[id], timeout, now) {
      var i :| 0 <= i < |expired| && expired[i].callId == id;
      AnnouncedOnce(expired, user, i);
    } else {
      NotAnnounced(expired, user, id);
    }
  }

  /** Sessions after a step come from before, with the same parties, or are newly recorded. */
  ghost predicate Continues(y: System, sessions: Sessions, created: Sessions) {
    && (forall id :: id in y.created ==> id in created && created[id] == y.created[id])
    && (forall id :: id in sessions && id in y.sessions ==>
          sessions[id].callerId == y.sessions[id].callerId && sessions[id].calleeId == y.sessions[id].calleeId)
    && (forall id :: id in sessions && id !in y.sessions ==>
        id !in y.created && id in created && created[id] == sessions[id])
    && (forall id :: id in created && id !in y.created ==> id in sessions)
  }

  lemma ExpectedAfter(y: System, y': System, user: string, id: string)
    requires SystemOk(y) && Continues(y, y'.sessions, y'.created)
    ensures Expected(y', user, id) == Expected(y, user, id) + Leaving(y.sessions, y'.sessions, user, id)
  {
    hide EndEvents, SessionsOk;
  }

  lemma HandlerContinues(y: System, actor: string, msg: ClientMsg, freshId: string, now: int, timeout: int,
      gen: RtcConfigGenerator)
    requires SystemOk(y) && freshId !in y.created
    ensures var y' := Apply(y, timeout, gen, Receive(actor, msg, freshId, now)); Continues(y, y'.sessions, y'.created)
  {
    hide EndEvents, SessionsOk, HandleMsg, ChangeOf, OwnEnds;
    ChangeOfHandler(y.sessions, actor, msg, freshId, now, gen);
  }

  lemma HandlerKeepsSessionsOk(sessions: Sessions, actor: string, msg: ClientMsg, freshId: string, now: int,
      gen: RtcConfigGenerator)
    requires SessionsOk(sessions)
    ensures SessionsOk(HandleMsg(sessions, actor, msg, freshId, now, gen).0)
  {
    hide SessionsOk, Create, Accept, Reject, Hangup;
    match msg
    case CallCreate(Some(to)) => OperationsKeepSessionsOk(sessions, freshId, actor, to, 0, now);
    case CallAccept(Some(id)) => OperationsKeepSessionsOk(sessions, id, actor, actor, 0, now);
    case CallReject(Some(id)) => OperationsKeepSessionsOk(sessions, id, actor, actor, 0, now);
    case CallHangup(Some(id)) => OperationsKeepSessionsOk(sessions, id, actor, actor, 0, now);
    case _ =>
  }

  lemma DeliverMoves(y: System, notice: Notice, user: string, id: string)
    requires notice in y.pending
    ensures EndNotices(y.pending - multiset{notice}, user, id) + EndNotices(y.delivered + multiset{notice}, user, id)
         == EndNotices(y.pending, user, id) + EndNotices(y.delivered, user, id)
  {
    hide EndNotices;
    var rest := y.pending - multiset{notice};
    assert y.pending == rest + multiset{notice};
    EndNoticesAdd(rest, multiset{notice}, user, id);
    EndNoticesAdd(y.delivered, multiset{notice}, user, id);
  }

  lemma StepAccounts(y: System, timeout: int, gen: RtcConfigGenerator, a: Action, user: string, id: string)
    requires Enabled(y, timeout, a)
    ensures var y' := Apply(y, timeout, gen, a);
            EndEvents(y', user, id) == EndEvents(y, user, id) + Leaving(y.sessions, y'.sessions, user, id)
  {
    hide EndNotices, HandleMsg, OwnEnds, Remaining, ExpiryNotices, ListsOverdue;
    match a
    case Receive(actor, msg, freshId, now) =>
      var notices := HandleMsg(y.sessions, actor, msg, freshId, now, gen).1;
      HandlerAccounts(y.sessions, actor, msg, freshId, now, gen, user, id);
      EndNoticesAdd(y.pending, multiset(notices), user, id);
    case Expire(now, expired) =>
      ExpiryAccounts(y.sessions, timeout, now, expired, user, id);
      EndNoticesAdd(y.pending, multiset(ExpiryNotices(expired)), user, id);
    case Deliver(notice) => DeliverMoves(y, notice, user, id);
  }

  lemma StepKeepsSystemOk(y: System, timeout: int, gen: RtcConfigGenerator, a: Action)
    requires SystemOk(y) && Enabled(y, timeout, a)
    ensures SystemOk(Apply(y, timeout, gen, a))
  {
    hide EndEvents, Expected, HandleMsg, OwnEnds, ExpiryNotices, ListsOverdue, SessionsOk, Overdue;
    var y' := Apply(y, timeout, gen, a);
    match a {
      case Receive(actor, msg, freshId, now) =>
        HandlerContinues(y, actor, msg, freshId, now, timeout, gen);
        HandlerKeepsSessionsOk(y.sessions, actor, msg, freshId, now, gen);
      case Expire(now, expired) => OperationsKeepSessionsOk(y.sessions, "", "", "", timeout, now);
      case Deliver(notice) =>
    }
    assert Continues(y, y'.sessions, y'.created);
    forall id, user ensures EndEvents(y', user, id) == Expected(y', user, id) {
      StepAccounts(y, timeout, gen, a, user, id);
      ExpectedAfter(y, y', user, id);
    }
  }

  lemma {:induction false} ReachableOk(states: seq<System>, actions: seq<Action>, timeout: int,
      gen: RtcConfigGenerator, n: nat)
    requires IsRun(states, actions, timeout, gen) && n < |states|
    ensures SystemOk(states[n])
  {
    hide SystemOk, Enabled, Apply;
    if n == 0 {
      InitialOk();
    } else {
      ReachableOk(states, actions, timeout, gen, n - 1);
      StepKeepsSystemOk(states[n - 1], timeout, gen, actions[n - 1]);
    }
  }

  lemma InitialOk()
    ensures SystemOk(INITIAL)
  {
  }

  /** Each call ends exactly once for each party. Under any interleaving: before a call leaves the sessions
      nobody has an end event of it; once it has left and its sends are out, a participant has exactly one,
      his own reject or hangup or one notice, if and only if caller and callee are different users. Someone who
      called himself has two. */
  lemma CallEndsOnce(states: seq<System>, actions: seq<Action>, timeout: int, gen: RtcConfigGenerator, n: nat,
                     id: string, user: string)
    requires IsRun(states, actions, timeout, gen) && n < |states| && id in states[n].created
    ensures id in states[n].sessions ==> EndEvents(states[n], user, id) == 0
    ensures var y := states[n];
      id !in y.sessions && EndNotices(y.pending, user, id) == 0 && y.created[id].Involves(user) ==>
        (y.own[(user, id)] + EndNotices(y.delivered, user, id) == 1
         <==> y.created[id].callerId != y.created[id].calleeId)
    ensures !states[n].created[id].Involves(user) ==> EndEvents(states[n], user, id) == 0
  {
    hide EndNotices;
    ReachableOk(states, actions, timeout, gen, n);
    assert EndEvents(states[n], user, id) == Expected(states[n], user, id);
  }

  lemma FirstCall(gen: RtcConfigGenerator, caller: string, callee: string, id: string)
    ensures var y := Apply(INITIAL, 30, gen, Receive(caller, CallCreate(Some(callee)), id, 0));
            y.sessions == y.created == map[id := CallSession(id, caller, callee, Ringing, 0)]
  {
    hide OwnEnds;
  }

  lemma HangupStep(y: System, gen: RtcConfigGenerator, user: string, id: string, freshId: string, now: int)
    requires id in y.sessions && y.sessions[id].Involves(user) && freshId != id && freshId !in y.sessions
    ensures var y' := Apply(y, 30, gen, Receive(user, CallHangup(Some(id)), freshId, now));
            y'.sessions == y.sessions - {id} && y'.created == y.created
  {
    hide OwnEnds;
  }

  /** A self-call is possible, and ends twice for its only party. */
  lemma SelfCallEndsTwice(gen: RtcConfigGenerator)
    ensures exists states, actions ::
      IsRun(states, actions, 30, gen) && |actions| == 2 && EndEvents(states[2], "u", "i") == 2
  {
    hide EndEvents, Apply;
    var a0, a1 := Receive("u", CallCreate(Some("u")), "i", 0), Receive("u", CallHangup(Some("i")), "j", 1);
    var y1 := Apply(INITIAL, 30, gen, a0);
    var y2 := Apply(y1, 30, gen, a1);
    var states, actions := [INITIAL, y1, y2], [a0, a1];
    FirstCall(gen, "u", "u", "i");
    HangupStep(y1, gen, "u", "i", "j", 1);
    assert IsRun(states, actions, 30, gen);
    ReachableOk(states, actions, 30, gen, 2);
    assert EndEvents(states[2], "u", "i") == Expected(y2, "u", "i") == 2;
  }

  // ----- relaying -----

  /** A WebRTC message is relayed if and only if its call exists: the sessions stay, and one copy goes to the
      other party of the sender, or to the caller if the sender takes no part in the call. Otherwise the
      sender gets an error. */
  lemma RelayedIffCallExists(sessions: Sessions, user: string, id: string, text: string, freshId: string, now: int,
                             gen: RtcConfigGenerator)
    ensures var (sessions', notices) := HandleMsg(sessions, user, Webrtc(Some(id), text), freshId, now, gen);
            && sessions' == sessions && |notices| == 1
            && (notices[0].msg == Relayed(text) <==> id in sessions)
            && (id !in sessions ==> notices == [Notice(user, Error("call not found"))])
            && (id in sessions ==>
                  && sessions[id].Involves(notices[0].to)
                  && (!sessions[id].Involves(user) ==> notices[0].to == sessions[id].callerId)
                  && (sessions[id].callerId != sessions[id].calleeId ==> notices[0].to != user))
  {
  }

  lemma RelayStep(y: System, gen: RtcConfigGenerator, user: string, id: string, text: string, freshId: string, now: int)
    requires id in y.sessions && !y.sessions[id].Involves(user)
    ensures Notice(y.sessions[id].callerId, Relayed(text))
         in Apply(y, 30, gen, Receive(user, Webrtc(Some(id), text), freshId, now)).pending
  {
    hide OwnEnds;
    var notices := HandleMsg(y.sessions, user, Webrtc(Some(id), text), freshId, now, gen).1;
    assert notices[0] in multiset(notices);
  }

  /** A run in which a user who takes no part in the call reaches its caller. */
  lemma OutsiderRelays(gen: RtcConfigGenerator)
    ensures exists states: seq<System>, actions: seq<Action> ::
      && IsRun(states, actions, 30, gen) && |actions| == 2
          && actions[1] == Receive("c", Webrtc(Some("i"), "offer"), "j", 1)
      && "i" in states[1].sessions && !states[1].sessions["i"].Involves("c")
      && Notice("a", Relayed("offer")) in states[2].pending
  {
    hide Apply;
    var a0, a1 := Receive("a", CallCreate(Some("b")), "i", 0), Receive("c", Webrtc(Some("i"), "offer"), "j", 1);
    var y1 := Apply(INITIAL, 30, gen, a0);
    var y2 := Apply(y1, 30, gen, a1);
    var states, actions := [INITIAL, y1, y2], [a0, a1];
    FirstCall(gen, "a", "b", "i");
    RelayStep(y1, gen, "c", "i", "offer", "j", 1);
    assert IsRun(states, actions, 30, gen);
  }
}
