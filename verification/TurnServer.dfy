/** The TURN server as a state machine over packets: what one packet does to the table of allocations and
    the issued nonces, and what is sent for it. */
module TurnServer {
  import opened Bytes
  import opened Text
  import opened Stun
  import opened Builder
  import opened ChannelData
  import opened Integrity
  import opened Allocations
  import opened TableInvariants

  const NONCE_TTL: int := 3600 * SECOND

  datatype Env = Env(cred: LongTermCred, cfg: Config)

  datatype Server = Server(table: Table, nonces: map<string, Instant>)

  /** A packet with everything the server reads from its surroundings while handling it: the two clocks,
      the random port draws and the random nonce. */
  datatype Packet = Packet(raw: Octets, from: Endpoint, now: Instant, wall: int, draws: seq<u16>, nonce: string)

  const INITIAL := Server(INITIAL_TABLE, map[])

  function AllocatedUsername(t: Table, msg: TurnMessage, from: Endpoint): string {
    if msg.kind != Allocate && EndpointKey(from) in t.allocs then t.allocs[EndpointKey(from)].username else ""
  }

  function Verdict(env: Env, s: Server, msg: TurnMessage, p: Packet): AuthResult {
    env.cred.Authenticate(msg, p.raw, AllocatedUsername(s.table, msg, p.from), s.nonces, p.now, p.wall)
  }

  function Challenge(env: Env, msg: TurnMessage, code: u16, reason: string, nonce: string): Octets {
    BuildMessage(msg.kind, ErrorResponse, msg.tid,
                 [Attribute(ERROR_CODE, ErrorValue(code, reason)), Attribute(REALM, BytesOf(env.cred.realm)),
                  Attribute(NONCE, BytesOf(nonce))])
  }

  function Challenged(env: Env, s: Server, msg: TurnMessage, p: Packet, code: u16, reason: string):
    (Server, seq<Datagram>)
  {
    (s.(nonces := s.nonces[p.nonce := p.now + NONCE_TTL]),
        [Datagram(Challenge(env, msg, code, reason, p.nonce), p.from)])
  }

  function UsernameOf(msg: TurnMessage): string {
    match msg.Find(USERNAME)
    case None => ""
    case Some(v) => StringOf(v)
  }

  /** An authenticated request of the client at from. */
  ghost function OnRequest(env: Env, t: Table, msg: TurnMessage, p: Packet): (Table, Octets) {
    match msg.kind
    case Allocate => OnAllocate(env.cfg, t, msg, p.from, UsernameOf(msg), env.cred.realm, p.draws, p.now)
    case Refresh => OnRefresh(t, msg, p.from, UsernameOf(msg), p.now)
    case CreatePermission => OnCreatePermission(t, msg, p.from, p.now)
    case ChannelBind => OnChannelBind(t, msg, p.from, p.now)
    case _ => (t, ErrorMessage(msg.tid, 400, "Bad Request"))
  }

  function SignedFor(env: Env, msg: TurnMessage, reply: Octets): Octets {
    env.cred.Signed(reply, UsernameOf(msg), env.cred.Validator().GetPassword(UsernameOf(msg)))
  }

  ghost function OnVerdict(env: Env, s: Server, msg: TurnMessage, p: Packet, verdict: AuthResult):
    (Server, seq<Datagram>)
  {
    match verdict
    case MissingCredentials => Challenged(env, s, msg, p, 401, "Unauthorized")
    case StaleNonce => Challenged(env, s, msg, p, 438, "Stale Nonce")
    case BadIntegrity => Challenged(env, s, msg, p, 401, "Unauthorized")
    case CredentialsExpired => Challenged(env, s, msg, p, 401, "Unauthorized")
    case WrongCredentials => (s, [Datagram(ErrorMessage(msg.tid, 441, "Wrong Credentials"), p.from)])
    case AuthOk =>
      var (table, reply) := OnRequest(env, s.table, msg, p);
      (s.(table := table), [Datagram(SignedFor(env, msg, reply), p.from)])
  }

  /** Everything that is not an indication goes through authentication, responses included. */
  ghost function OnStun(env: Env, s: Server, msg: TurnMessage, p: Packet): (Server, seq<Datagram>) {
    if msg.msgClass == Indication then
      (s, if msg.kind == Send then SendOutput(s.table, msg, p.from, p.now) else [])
    else OnVerdict(env, s, msg, p, Verdict(env, s, msg, p))
  }

  ghost function OnPacket(env: Env, s: Server, p: Packet): (Server, seq<Datagram>) {
    if p.raw == [] then (s, [])
    else if p.raw[0] / 0x40 == 1 then
      match ParseChannelData(p.raw)
      case Ok(number, data) => (s, ChannelOutput(s.table, number, data, p.from, p.now))
      case _ => (s, [])
    else if p.raw[0] / 0x40 == 0 then
      match ParseMessage(p.raw)
      case Ok(msg) => OnStun(env, s, msg, p)
      case _ => (s, [])
    else (s, [])
  }

  // ----- the invariant -----

  ghost predicate OwnersNamed(allocs: map<string, Record>) {
    forall k :: k in allocs ==> ':' in allocs[k].username
  }

  ghost predicate ServerOk(env: Env, s: Server) {
    TableOk(env.cfg, s.table) && OwnersNamed(s.table.allocs)
  }

  lemma RequestKeepsTableOk(env: Env, t: Table, msg: TurnMessage, p: Packet)
    requires TableOk(env.cfg, t) && ValidDraws(env.cfg, p.draws)
    ensures TableOk(env.cfg, OnRequest(env, t, msg, p).0)
  {
    hide TableOk, OnAllocate, OnRefresh, OnCreatePermission, OnChannelBind, ValidDraws;
    match msg.kind
    case Allocate => AllocateKeepsTableOk(env.cfg, t, msg, p.from, UsernameOf(msg), env.cred.realm, p.draws, p.now);
    case Refresh => RefreshKeepsTableOk(env.cfg, t, msg, p.from, UsernameOf(msg), p.now);
    case CreatePermission => CreatePermissionKeepsTableOk(env.cfg, t, msg, p.from, p.now);
    case ChannelBind => ChannelBindKeepsTableOk(env.cfg, t, msg, p.from, p.now);
    case _ =>
  }

  /** A request touches the record of its sender only, and only Allocate makes a new one, with the
      username of the request. */
  lemma RequestIsLocal(env: Env, t: Table, msg: TurnMessage, p: Packet)
    ensures var t', key := OnRequest(env, t, msg, p).0, EndpointKey(p.from);
            && (forall k :: k != key ==> (k in t'.allocs <==> k in t.allocs))
            && (forall k :: k != key && k in t.allocs ==> t'.allocs[k] == t.allocs[k])
            && (key in t'.allocs ==>
                  t'.allocs[key].username == if key in t.allocs then t.allocs[key].username else UsernameOf(msg))
  {
    hide EndpointKey, ErrorMessage, BuildMessage, AllocateAttrs, FindAttr, FirstFree, OwnedBy, RelayPorts;
    hide RequestedLifetime;
    hide InstallPeers, BindConflict, IsDeniedAddress, BindRequest;
  }

  // ----- events -----

  /** What drives the server: a packet from a client, or data from a peer at a relayed address. */
  datatype Event =
    | FromClient(packet: Packet)
    | FromPeer(data: Octets, peer: Endpoint, relay: Endpoint, at: Instant)
  {
    function Now(): Instant {
      if FromClient? then packet.now else at
    }
  }

  ghost function Step(env: Env, s: Server, e: Event): (Server, seq<Datagram>) {
    match e
    case FromClient(p) => OnPacket(env, s, p)
    case FromPeer(data, peer, relay, at) => (s, PeerDataOutput(s.table, data, peer, relay, at))
  }

  /** The message of a packet that asks for something, as opposed to relaying data. */
  function RequestOf(e: Event): (request: Option<TurnMessage>)
    ensures request.Some? ==> e.FromClient?
  {
    if !e.FromClient? || e.packet.raw == [] || e.packet.raw[0] / 0x40 != 0 then None
    else
      match ParseMessage(e.packet.raw)
      case Ok(msg) => if msg.msgClass == Indication then None else Some(msg)
      case _ => None
  }

  /** The request in this event is authenticated in this state. */
  predicate Authentic(env: Env, s: Server, e: Event) {
    RequestOf(e).Some? && Verdict(env, s, RequestOf(e).value, e.packet) == AuthOk
  }

  /** The table changes only for an authenticated request, and then as that request says. */
  lemma StepOfTable(env: Env, s: Server, e: Event)
    ensures Step(env, s, e).0.table
         == if Authentic(env, s, e) then OnRequest(env, s.table, RequestOf(e).value, e.packet).0 else s.table
  {
    hide OnRequest, SendOutput, ChannelOutput, PeerDataOutput, ParseMessage, ParseChannelData, Verdict, Challenge;
    hide ErrorMessage, BuildMessage, SignedFor;
  }

  predicate ValidEvent(env: Env, s: Server, e: Event) {
    e.FromClient? ==> ValidDraws(env.cfg, e.packet.draws) && e.packet.nonce !in s.nonces
  }

  lemma AuthenticUsername(env: Env, s: Server, e: Event)
    requires Authentic(env, s, e)
    ensures ':' in UsernameOf(RequestOf(e).value)
    ensures var key := EndpointKey(e.packet.from);
            RequestOf(e).value.kind != Allocate && key in s.table.allocs && s.table.allocs[key].username != "" ==>
            UsernameOf(RequestOf(e).value) == s.table.allocs[key].username
  {
    var msg, p := RequestOf(e).value, e.packet;
    env.cred.AuthenticatedUsername(msg, p.raw, AllocatedUsername(s.table, msg, p.from), s.nonces, p.now, p.wall);
  }

  lemma StepKeepsServerOk(env: Env, s: Server, e: Event)
    requires ServerOk(env, s) && ValidEvent(env, s, e)
    ensures ServerOk(env, Step(env, s, e).0)
  {
    hide TableOk, OnRequest, Step, Verdict, RequestOf, ValidDraws;
    StepOfTable(env, s, e);
    if Authentic(env, s, e) {
      var msg := RequestOf(e).value;
      RequestKeepsTableOk(env, s.table, msg, e.packet);
      RequestIsLocal(env, s.table, msg, e.packet);
      AuthenticUsername(env, s, e);
    }
  }

  /** Ownership: an event changes at most the allocation of the client it comes from; only an authenticated
      request changes it; and an existing allocation changes only for a request under its owner's name. */
  lemma OnlyTheOwnerChanges(env: Env, s: Server, e: Event, client: Endpoint)
    requires ServerOk(env, s)
    requires var key, allocs' := EndpointKey(client), Step(env, s, e).0.table.allocs;
             !(key in s.table.allocs <==> key in allocs')
             || (key in s.table.allocs && s.table.allocs[key] != allocs'[key])
    ensures Authentic(env, s, e) && e.packet.from == client
    ensures var key, msg := EndpointKey(client), RequestOf(e).value;
            if key in s.table.allocs then
              msg.kind in {Refresh, CreatePermission, ChannelBind} && UsernameOf(msg) == s.table.allocs[key].username
            else msg.kind == Allocate
  {
    hide TableOk, Step, Verdict, RequestOf, EndpointKey, OnRequest, UsernameOf;
    StepOfTable(env, s, e);
    if Authentic(env, s, e) {
      var msg := RequestOf(e).value;
      assert client == e.packet.from by {
        RequestIsLocal(env, s.table, msg, e.packet);
        if EndpointKey(client) == EndpointKey(e.packet.from) {
          EndpointKeyInjective(client, e.packet.from);
        }
      }
      AuthenticUsername(env, s, e);
      RequestKind(env, s.table, msg, e.packet);
    }
  }

  lemma RequestKind(env: Env, t: Table, msg: TurnMessage, p: Packet)
    ensures var t', key := OnRequest(env, t, msg, p).0, EndpointKey(p.from);
            && (t'.allocs != t.allocs && key in t.allocs ==> msg.kind in {Refresh, CreatePermission, ChannelBind})
            && (t'.allocs != t.allocs && key !in t.allocs ==> msg.kind == Allocate)
  {
    hide EndpointKey, ErrorMessage, BuildMessage, AllocateAttrs, FindAttr, FirstFree, OwnedBy, RelayPorts;
    hide RequestedLifetime;
    hide InstallPeers, BindConflict, IsDeniedAddress, BindRequest, Allocated;
  }
}
