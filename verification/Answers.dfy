/** What each request is answered, in terms of its attributes and the table, and what that does to the table. */
module Answers {
  import opened Bytes
  import opened Text
  import opened Stun
  import opened StunCodec
  import opened Builder
  import opened Integrity
  import opened Allocations
  import opened TableInvariants
  import opened TurnServer
  import opened ServerRuns
  import opened EndToEnd
  import opened Authentication

  /** The error attribute spells its code as class and number. */
  lemma ErrorBytesOf(tid: Octets, code: u16, reason: string)
    requires code < 800
    ensures ErrorMessage(tid, code, reason) == ErrorBytes(tid, code / 100, code % 100, reason)
  {
    hide BuildMessage, BytesOf;
    assert code / 100 % 8 == code / 100;
  }

  /** The errors of the allocation manager. */
  lemma ErrorTexts(tid: Octets)
    ensures ErrorMessage(tid, 400, "Bad Request") == ErrorBytes(tid, 4, 0, "Bad Request")
    ensures ErrorMessage(tid, 403, "Forbidden") == ErrorBytes(tid, 4, 3, "Forbidden")
    ensures ErrorMessage(tid, 437, "Allocation Mismatch") == ErrorBytes(tid, 4, 37, "Allocation Mismatch")
    ensures ErrorMessage(tid, 441, "Wrong Credentials") == ErrorBytes(tid, 4, 41, "Wrong Credentials")
    ensures ErrorMessage(tid, 442, "Unsupported Transport Protocol")
         == ErrorBytes(tid, 4, 42, "Unsupported Transport Protocol")
    ensures ErrorMessage(tid, 486, "Allocation Quota Reached") == ErrorBytes(tid, 4, 86, "Allocation Quota Reached")
    ensures ErrorMessage(tid, 508, "Insufficient Capacity") == ErrorBytes(tid, 5, 8, "Insufficient Capacity")
  {
    hide ErrorMessage, ErrorBytes;
    ErrorBytesOf(tid, 400, "Bad Request");
    ErrorBytesOf(tid, 403, "Forbidden");
    ErrorBytesOf(tid, 437, "Allocation Mismatch");
    ErrorBytesOf(tid, 441, "Wrong Credentials");
    ErrorBytesOf(tid, 442, "Unsupported Transport Protocol");
    ErrorBytesOf(tid, 486, "Allocation Quota Reached");
    ErrorBytesOf(tid, 508, "Insufficient Capacity");
  }

  /** The class that a reader decodes from the first two bytes of a reply. */
  function ReplyClass(reply: Octets): Option<MessageClass> {
    if |reply| < 2 then None else Some(DecodeClass(reply[0], reply[1]))
  }

  lemma ClassOfBuilt(m: Method, c: MessageClass, tid: Octets, attrs: seq<Attribute>)
    requires |tid| == 12
    ensures ReplyClass(BuildMessage(m, c, tid, attrs)) == Some(c)
  {
    hide EncodeAttrs, TypeHigh, TypeLow;
    HeaderOfFrame(m, c, tid, EncodeAttrs(attrs));
    TypeRoundTrip(m, c);
  }

  lemma ClassOfError(tid: Octets, level: byte, number: byte, reason: string)
    requires |tid| == 12
    ensures ReplyClass(ErrorBytes(tid, level, number, reason)) == Some(ErrorResponse)
  {
    hide BuildMessage, ReplyClass, BytesOf;
    ClassOfBuilt(Allocate, ErrorResponse, tid, [Attribute(0x0009, [0, 0, level, number] + BytesOf(reason))]);
  }

  // ----- Allocate -----

  /** UDP is asked for. */
  predicate AsksForUdp(msg: TurnMessage) {
    var transport := msg.Find(0x0019);
    transport.Some? && |transport.value| >= 4 && transport.value[0] == 17
  }

  /** The endpoints at which this user holds an allocation. */
  ghost function Held(t: Table, username: string): set<string> {
    set k | k in t.allocs && t.allocs[k].username == username
  }

  lemma HeldIsOwned(t: Table, username: string)
    ensures Held(t, username) == OwnedBy(t.allocs, username)
  {
  }

  /** An Allocate makes a record if and only if the endpoint has none, UDP is asked for, the user is below the
      quota and a drawn port is free; each obstacle has its own error, and then the table stays as it is. */
  lemma AllocateMeans(cfg: Config, t: Table, msg: TurnMessage, client: Endpoint, username: string, realm: string,
                      draws: seq<u16>, now: Instant)
    requires |msg.tid| == 12
    ensures var (t', reply) := OnAllocate(cfg, t, msg, client, username, realm, draws, now);
      var key, room := EndpointKey(client), |Held(t, username)| < cfg.maxPerUser;
      var free := exists d :: d in draws && PortAt(cfg, d) !in RelayPorts(t.allocs);
      && (key in t.allocs ==> (t', reply) == (t, ErrorBytes(msg.tid, 4, 37, "Allocation Mismatch")))
      && (key !in t.allocs && msg.Find(0x0019).None? ==> (t', reply) == (t, ErrorBytes(msg.tid, 4, 0, "Bad Request")))
      && (key !in t.allocs && msg.Find(0x0019).Some? && !AsksForUdp(msg) ==>
            (t', reply) == (t, ErrorBytes(msg.tid, 4, 42, "Unsupported Transport Protocol")))
      && (key !in t.allocs && AsksForUdp(msg) && !room ==>
            (t', reply) == (t, ErrorBytes(msg.tid, 4, 86, "Allocation Quota Reached")))
      && (key !in t.allocs && AsksForUdp(msg) && room && !free ==>
            (t', reply) == (t, ErrorBytes(msg.tid, 5, 8, "Insufficient Capacity")))
      && (key !in t.allocs && AsksForUdp(msg) && room && free
          ==> NewAllocation(cfg, t, t', msg, client, username, realm, draws, now))
      && (ReplyClass(reply) == Some(SuccessResponse) <==> key !in t.allocs && AsksForUdp(msg) && room && free)
  {
    hide EndpointKey, FindAttr, ErrorMessage, ErrorBytes, BuildMessage, PortAt, RelayPorts, OwnedBy, AllocateAttrs;
    hide RequestedLifetime, Asks, ReplyClass, Held;
    HeldIsOwned(t, username);
    ErrorTexts(msg.tid);
    ClassOfError(msg.tid, 4, 37, "Allocation Mismatch");
    ClassOfError(msg.tid, 4, 0, "Bad Request");
    ClassOfError(msg.tid, 4, 42, "Unsupported Transport Protocol");
    ClassOfError(msg.tid, 4, 86, "Allocation Quota Reached");
    ClassOfError(msg.tid, 5, 8, "Insufficient Capacity");
    AsksForLifetime(msg);
    if AllocateRefusal(cfg, t, msg, client, username, draws).None? {
      var port := FirstFree(cfg, draws, RelayPorts(t.allocs)).value;
      ClassOfBuilt(Allocate, SuccessResponse, msg.tid, AllocateAttrs(cfg, port, client, GrantedLifetime(msg)));
    }
  }

  /** The new record: the next number, a free drawn port, the requested lifetime, and nothing permitted or bound. */
  ghost predicate NewAllocation(cfg: Config, t: Table, t': Table, msg: TurnMessage, client: Endpoint, username: string,
                                realm: string, draws: seq<u16>, now: Instant)
  {
    exists d, asked: u32 ::
      && d in draws && PortAt(cfg, d) !in RelayPorts(t.allocs) && Asks(msg, asked)
      && var lifetime := if asked == 0 then 600 else asked;
      && var r := Record(t.nextId, client, Endpoint(cfg.relayAddress, PortAt(cfg, d)), username, realm,
                         now + lifetime * 1_000_000_000, map[], map[]);
      && t' == Table(t.allocs[EndpointKey(client) := r], t.nextId + 1)
  }

  // ----- Refresh -----

  lemma RefreshMeans(t: Table, msg: TurnMessage, client: Endpoint, username: string, now: Instant)
    requires |msg.tid| == 12
    ensures var (t', reply) := OnRefresh(t, msg, client, username, now);
      var key := EndpointKey(client);
      && (key !in t.allocs ==> (t', reply) == (t, ErrorBytes(msg.tid, 4, 37, "Allocation Mismatch")))
      && (key in t.allocs && t.allocs[key].username != username ==>
            (t', reply) == (t, ErrorBytes(msg.tid, 4, 41, "Wrong Credentials")))
      && (ReplyClass(reply) == Some(SuccessResponse) <==> key in t.allocs && t.allocs[key].username == username)
  {
    hide EndpointKey, FindAttr, ErrorMessage, ErrorBytes, BuildMessage, RequestedLifetime, ReplyClass;
    ErrorTexts(msg.tid);
    ClassOfError(msg.tid, 4, 37, "Allocation Mismatch");
    ClassOfError(msg.tid, 4, 41, "Wrong Credentials");
    ClassOfBuilt(Refresh, SuccessResponse, msg.tid, [Attribute(LIFETIME, Be32(RequestedLifetime(msg)))]);
  }

  // ----- CreatePermission -----

  /** A CreatePermission asks for an address in each XOR-PEER-ADDRESS of at least eight bytes. */
  lemma AskedMeans(attrs: seq<Attribute>, i: nat, address: string)
    requires i < |attrs|
    ensures Asked(attrs, i) == Some(address)
            <==> attrs[i].typ == 0x0012 && |attrs[i].value| >= 8 && PeerOf(attrs[i].value).address == address
  {
    hide PeerOf;
  }

  /** The errors of a CreatePermission; what a success does is said by CreatePermissionMeans. */
  lemma CreatePermissionErrors(t: Table, msg: TurnMessage, client: Endpoint, now: Instant)
    ensures var (t', reply) := OnCreatePermission(t, msg, client, now);
      var denied := exists i :: DeniedAt(msg.attributes, i);
      && (EndpointKey(client) !in t.allocs ==> (t', reply) == (t, ErrorBytes(msg.tid, 4, 37, "Allocation Mismatch")))
      && (EndpointKey(client) in t.allocs && denied ==> reply == ErrorBytes(msg.tid, 4, 3, "Forbidden"))
      && (EndpointKey(client) in t.allocs && !denied && (forall a :: !Installs(msg.attributes, a)) ==>
            reply == ErrorBytes(msg.tid, 4, 0, "Bad Request"))
  {
    hide EndpointKey, ErrorMessage, ErrorBytes, BuildMessage, InstallPeers, Installs, DeniedAt;
    ErrorTexts(msg.tid);
    if EndpointKey(client) in t.allocs {
      InstallPeersMeans(msg.attributes, Install(t.allocs[EndpointKey(client)].permissions, false, false), now);
    }
  }

  // ----- ChannelBind -----

  /** Both attributes are there and long enough, and the number is one of a channel. */
  predicate BindWellFormed(msg: TurnMessage) {
    var number, peer := msg.Find(0x000C), msg.Find(0x0012);
    && number.Some? && |number.value| >= 2 && peer.Some? && |peer.value| >= 8
    && 0x4000 <= NumberIn(number.value) <= 0x4FFF
  }

  /** The first two bytes as a number. */
  function NumberIn(value: Octets): nat
    requires |value| >= 2
  {
    0x100 * value[0] as int + value[1]
  }

  function PeerIn(msg: TurnMessage): Endpoint
    requires BindWellFormed(msg)
  {
    PeerOf(msg.Find(0x0012).value)
  }

  function ChannelIn(msg: TurnMessage): u16
    requires BindWellFormed(msg)
  {
    NumberIn(msg.Find(0x000C).value)
  }

  /** The number has another peer, or the peer another number. */
  predicate Clashes(r: Record, n: u16, peer: Endpoint) {
    exists m :: m in r.channels && ((m == n && r.channels[m].peer != peer) || (m != n && r.channels[m].peer == peer))
  }

  lemma ClashIsConflict(r: Record, n: u16, peer: Endpoint)
    ensures BindConflict(r, n, peer) <==> Clashes(r, n, peer)
  {
    if n in r.channels && r.channels[n].peer != peer {
      assert Clashes(r, n, peer);
    }
  }

  lemma BindRequestIs(msg: TurnMessage)
    ensures BindRequest(msg) == if BindWellFormed(msg) then Some((ChannelIn(msg), PeerIn(msg))) else None
  {
    hide FindAttr, PeerOf, Value;
    var number := msg.Find(0x000C);
    if number.Some? && |number.value| >= 2 {
      Word16Is(number.value[0], number.value[1]);
    }
  }

  /** A ChannelBind binds the channel, for 600 seconds and with 300 seconds of permission, and answers with a
      success, if and only if it is well formed, its peer is not denied and it does not clash; otherwise the table
      stays as it is and the answer says why. */
  lemma ChannelBindMeans(t: Table, msg: TurnMessage, client: Endpoint, now: Instant)
    requires |msg.tid| == 12
    ensures var (t', reply) := OnChannelBind(t, msg, client, now);
      var key := EndpointKey(client);
      && (key !in t.allocs ==> (t', reply) == (t, ErrorBytes(msg.tid, 4, 37, "Allocation Mismatch")))
      && (key in t.allocs && !BindWellFormed(msg) ==> (t', reply) == (t, ErrorBytes(msg.tid, 4, 0, "Bad Request")))
      && (key in t.allocs && BindWellFormed(msg) ==>
            var r, n, peer := t.allocs[key], ChannelIn(msg), PeerIn(msg);
            && (IsDeniedAddress(peer.address) ==> (t', reply) == (t, ErrorBytes(msg.tid, 4, 3, "Forbidden")))
            && (!IsDeniedAddress(peer.address) && Clashes(r, n, peer) ==>
                  (t', reply) == (t, ErrorBytes(msg.tid, 4, 0, "Bad Request")))
            && (!IsDeniedAddress(peer.address) && !Clashes(r, n, peer) ==>
                  && t' == Table(t.allocs[key := NewBinding(r, n, peer, now)], t.nextId)
                  && reply == BuildMessage(ChannelBind, SuccessResponse, msg.tid, [])))
      && (ReplyClass(reply) == Some(SuccessResponse) <==> Bindable(t, msg, client))
  {
    hide EndpointKey, FindAttr, ErrorMessage, ErrorBytes, BuildMessage, PeerOf, IsDeniedAddress, BindConflict, Clashes;
    hide BindRequest, BindWellFormed, ChannelIn, PeerIn, ReplyClass;
    ErrorTexts(msg.tid);
    ClassOfError(msg.tid, 4, 37, "Allocation Mismatch");
    ClassOfError(msg.tid, 4, 0, "Bad Request");
    ClassOfError(msg.tid, 4, 3, "Forbidden");
    ClassOfBuilt(ChannelBind, SuccessResponse, msg.tid, []);
    BindRequestIs(msg);
    if EndpointKey(client) in t.allocs && BindWellFormed(msg) {
      ClashIsConflict(t.allocs[EndpointKey(client)], ChannelIn(msg), PeerIn(msg));
    }
  }

  function NewBinding(r: Record, n: u16, peer: Endpoint, now: Instant): Record {
    r.(channels := r.channels[n := ChannelBinding(n, peer, now + 600 * 1_000_000_000)],
       permissions := r.permissions[peer.address := Permission(peer.address, now + 300 * 1_000_000_000)])
  }

  predicate Bindable(t: Table, msg: TurnMessage, client: Endpoint) {
    var key := EndpointKey(client);
    && key in t.allocs && BindWellFormed(msg) && !IsDeniedAddress(PeerIn(msg).address)
    && !Clashes(t.allocs[key], ChannelIn(msg), PeerIn(msg))
  }

  // ----- answers on the wire -----

  /** An authenticated request for anything else is answered with 400. */
  lemma OtherMethods(env: Env, t: Table, msg: TurnMessage, p: Packet)
    requires msg.kind !in {Allocate, Refresh, CreatePermission, ChannelBind}
    ensures OnRequest(env, t, msg, p) == (t, ErrorBytes(msg.tid, 4, 0, "Bad Request"))
  {
    hide ErrorMessage, ErrorBytes;
    ErrorTexts(msg.tid);
  }

  /** What goes out is the handler's reply, with a digest its receiver accepts if it is a success, and as it is
      if it is an error. */
  lemma ReplyOnWire(env: Env, s: Server, e: Event)
    requires Authentic(env, s, e)
    ensures var (table, reply) := OnRequest(env, s.table, RequestOf(e).value, e.packet);
      var (s', out) := Step(env, s, e);
      && s'.table == table && s'.nonces == s.nonces && |out| == 1 && out[0].to == e.packet.from
      && GoodReply(env, RequestOf(e).value, out[0].payload)
      && ReplyClass(out[0].payload) == ReplyClass(reply)
      && (ReplyClass(reply) != Some(SuccessResponse) ==> out[0].payload == reply)
  {
    hide OnRequest, Step, SignedFor, GoodReply, RequestOf, Verdict, BuildMessage, ErrorMessage, ReplyClass;
    var msg := RequestOf(e).value;
    var reply := OnRequest(env, s.table, msg, e.packet).1;
    TidOfRequest(e);
    StepOfRequest(env, s, e);
    RequestsAnswered(env, s, e);
    ReplyShape(env, s.table, msg, e.packet);
    if attrs :| SuccessReply(msg, reply, attrs) {
      ClassOfBuilt(msg.kind, SuccessResponse, msg.tid, attrs);
      ClassOfSigned(env, msg, attrs);
    } else {
      var code, reason :| |reason| < 1000 && reply == ErrorMessage(msg.tid, code, reason);
      ErrorReplyGood(env, msg, code, reason);
    }
  }

  lemma ClassOfSigned(env: Env, msg: TurnMessage, attrs: seq<Attribute>)
    requires |msg.tid| == 12
    ensures ReplyClass(SignedFor(env, msg, BuildMessage(msg.kind, SuccessResponse, msg.tid, attrs)))
        == Some(SuccessResponse)
  {
    hide UsernameOf, EncodeAttrs, TypeHigh, TypeLow;
    var username := UsernameOf(msg);
    var password := env.cred.Validator().GetPassword(username);
    HeaderOfFrame(msg.kind, SuccessResponse, msg.tid, EncodeAttrs(attrs));
    TypeRoundTrip(msg.kind, SuccessResponse);
    env.cred.MacIsBuilt(msg.kind, SuccessResponse, msg.tid, attrs, username, password);
    ClassOfBuilt(msg.kind, SuccessResponse, msg.tid,
                 attrs + [env.cred.MacAttr(msg.kind, SuccessResponse, msg.tid, attrs, username, password)]);
  }

  /** An authenticated ChannelBind, at the server: the client is told of a success, under a digest it accepts, if
      and only if its channel is bound. */
  lemma ChannelBindAnswered(env: Env, s: Server, e: Event)
    requires Authentic(env, s, e) && RequestOf(e).value.kind == ChannelBind
    ensures var msg, p, (s', out) := RequestOf(e).value, e.packet, Step(env, s, e);
      var key := EndpointKey(p.from);
      && |out| == 1 && out[0].to == p.from && GoodReply(env, msg, out[0].payload)
      && (ReplyClass(out[0].payload) == Some(SuccessResponse) <==> Bindable(s.table, msg, p.from))
      && s'.table == if Bindable(s.table, msg, p.from)
                     then
                       var r := NewBinding(s.table.allocs[key], ChannelIn(msg), PeerIn(msg), p.now);
                       Table(s.table.allocs[key := r], s.table.nextId)
                     else s.table
  {
    hide OnRequest, OnChannelBind, Step, GoodReply, RequestOf, Verdict, BuildMessage, ErrorBytes, ReplyClass;
    hide EndpointKey;
    hide IsDeniedAddress, Clashes, BindWellFormed, ChannelIn, PeerIn;
    TidOfRequest(e);
    ReplyOnWire(env, s, e);
    KindOfRequest(env, s.table, RequestOf(e).value, e.packet);
    ChannelBindMeans(s.table, RequestOf(e).value, e.packet.from, e.packet.now);
  }
}
