/** Allocations, their permissions and channels, and what each request does to the table of allocations
    (sections 6 to 12 of RFC 8656). The table is keyed by the endpoint key of the client. */
module Allocations {
  import opened Bytes
  import opened Text
  import opened Stun
  import opened Builder
  import opened ChannelData
  import opened Integrity

  const DEFAULT_LIFETIME: u32 := 600
  const MAX_LIFETIME: u32 := 3600
  const PERMISSION_TTL: int := 300 * SECOND
  const CHANNEL_TTL: int := 600 * SECOND
  const UDP: byte := 17
  const PORT_ATTEMPTS := 1000

  const DENIED_RANGES: seq<(u32, u32)> := [(0x0A000000, 0x0AFFFFFF), (0xAC100000, 0xAC1FFFFF)]

  predicate IsDeniedAddress(address: string) {
    match ParseV4(address)
    case None => false
    case Some(ip) => exists i :: 0 <= i < |DENIED_RANGES| && DENIED_RANGES[i].0 <= ip <= DENIED_RANGES[i].1
  }

  datatype Permission = Permission(address: string, expiresAt: Instant)

  datatype ChannelBinding = ChannelBinding(channelNumber: u16, peer: Endpoint, expiresAt: Instant)

  datatype Record = Record(
    id: nat, clientAddr: Endpoint, relayedAddr: Endpoint, username: string, realm: string, expiresAt: Instant,
    permissions: map<string, Permission>, channels: map<u16, ChannelBinding>)
  {
    predicate HasPermission(address: string, now: Instant) {
      address in permissions && now < permissions[address].expiresAt
    }

    predicate BoundTo(n: u16, peer: Endpoint) {
      n in channels && channels[n].peer == peer
    }

    predicate LiveBinding(n: u16, peer: Endpoint, now: Instant) {
      BoundTo(n, peer) && now < channels[n].expiresAt
    }

    function FindChannelByNumber(n: u16, now: Instant): Option<ChannelBinding> {
      if n in channels && now < channels[n].expiresAt then Some(channels[n]) else None
    }

    /** The source returns the first match of an unordered iteration. */
    ghost function FindChannelByPeer(peer: Endpoint, now: Instant): Option<ChannelBinding> {
      if exists n :: LiveBinding(n, peer, now) then
        var n :| LiveBinding(n, peer, now);
        Some(channels[n])
      else None
    }

    ghost predicate PermissionsOk() {
      forall address :: address in permissions ==>
        permissions[address].address == address && ParseV4(address).Some? && !IsDeniedAddress(address)
    }

    ghost predicate ChannelsOk() {
      && (forall n :: n in channels ==>
            && IsChannelNumber(n) && channels[n].channelNumber == n
            && ParseV4(channels[n].peer.address).Some? && !IsDeniedAddress(channels[n].peer.address))
      && (forall m, n :: m in channels && n in channels && channels[m].peer == channels[n].peer ==> m == n)
    }

    /** At one instant the two lookups are inverse to each other on the live bindings. */
    lemma ChannelLookupsInverse(peer: Endpoint, b: ChannelBinding, now: Instant)
      requires ChannelsOk()
      ensures FindChannelByPeer(peer, now) == Some(b)
              <==> b.peer == peer && FindChannelByNumber(b.channelNumber, now) == Some(b)
    {
      if b.peer == peer && FindChannelByNumber(b.channelNumber, now) == Some(b) {
        assert LiveBinding(b.channelNumber, peer, now);
      }
    }
  }

  datatype Config = Config(relayAddress: string, portMin: u16, portMax: u16, maxPerUser: nat)

  datatype Table = Table(allocs: map<string, Record>, nextId: nat)

  const INITIAL_TABLE := Table(map[], 1)

  datatype Datagram = Datagram(payload: Octets, to: Endpoint)

  // ----- the invariant -----

  /** Offsets of the relay ports from portMin; 16-bit arithmetic wraps when portMin is above portMax. */
  function PortSpan(cfg: Config): (n: u16) {
    (cfg.portMax as int - cfg.portMin as int) % 0x1_0000
  }

  predicate InPortRange(cfg: Config, port: u16) {
    (port as int - cfg.portMin as int) % 0x1_0000 <= PortSpan(cfg) as int
  }

  lemma PortRangePlain(cfg: Config, port: u16)
    requires cfg.portMin <= cfg.portMax
    ensures InPortRange(cfg, port) <==> cfg.portMin <= port <= cfg.portMax
  {
  }

  ghost predicate RecordOk(cfg: Config, key: string, r: Record) {
    && key == EndpointKey(r.clientAddr)
    && r.relayedAddr.address == cfg.relayAddress && InPortRange(cfg, r.relayedAddr.port)
    && r.PermissionsOk() && r.ChannelsOk()
  }

  ghost function OwnedBy(allocs: map<string, Record>, username: string): set<string> {
    set k | k in allocs && allocs[k].username == username
  }

  ghost function RelayPorts(allocs: map<string, Record>): set<u16> {
    set k | k in allocs :: allocs[k].relayedAddr.port
  }

  ghost predicate Distinct(allocs: map<string, Record>) {
    forall j, k :: j in allocs && k in allocs && j != k ==>
      allocs[j].relayedAddr.port != allocs[k].relayedAddr.port && allocs[j].id != allocs[k].id
  }

  ghost predicate QuotaOk(cfg: Config, allocs: map<string, Record>) {
    forall u :: |OwnedBy(allocs, u)| <= cfg.maxPerUser
  }

  ghost predicate TableOk(cfg: Config, t: Table) {
    && (forall k :: k in t.allocs ==> RecordOk(cfg, k, t.allocs[k]) && t.allocs[k].id < t.nextId)
    && Distinct(t.allocs)
    && QuotaOk(cfg, t.allocs)
  }

  // ----- requests -----

  function RequestedLifetime(msg: TurnMessage): (seconds: u32)
    ensures seconds == 0 || seconds <= MAX_LIFETIME
  {
    match msg.Find(LIFETIME)
    case None => DEFAULT_LIFETIME
    case Some(v) =>
      if |v| < 4 then DEFAULT_LIFETIME
      else if Word32(v[..4]) > MAX_LIFETIME then MAX_LIFETIME
      else Word32(v[..4])
  }

  function PortAt(cfg: Config, draw: u16): u16 {
    (cfg.portMin as int + draw as int) % 0x1_0000
  }

  /** The first drawn port that is not in use. */
  function FirstFree(cfg: Config, draws: seq<u16>, used: set<u16>): (port: Option<u16>)
    ensures port.Some? ==> port.value !in used && exists d :: d in draws && port.value == PortAt(cfg, d)
    ensures port.None? ==> forall d :: d in draws ==> PortAt(cfg, d) in used
  {
    if draws == [] then None
    else if PortAt(cfg, draws[0]) !in used then Some(PortAt(cfg, draws[0]))
    else FirstFree(cfg, draws[1..], used)
  }

  /** What the random generator may deliver: offsets of ports of the range, one for each attempt. */
  predicate ValidDraws(cfg: Config, draws: seq<u16>) {
    |draws| == PORT_ATTEMPTS && forall d :: d in draws ==> d <= PortSpan(cfg)
  }

  function V4OrZero(address: string): u32 {
    match ParseV4(address)
    case None => 0
    case Some(ip) => ip
  }

  function GrantedLifetime(msg: TurnMessage): u32 {
    if RequestedLifetime(msg) == 0 then DEFAULT_LIFETIME else RequestedLifetime(msg)
  }

  function AllocateAttrs(cfg: Config, port: u16, client: Endpoint, lifetime: u32): seq<Attribute> {
    [Attribute(XOR_RELAYED_ADDRESS, XorAddressValue(V4OrZero(cfg.relayAddress), port)),
     Attribute(XOR_MAPPED_ADDRESS, XorAddressValue(V4OrZero(client.address), client.port)),
     Attribute(LIFETIME, Be32(lifetime))]
  }

  /** Why an Allocate request is refused, in the order of the checks: error code and reason. */
  ghost function AllocateRefusal(cfg: Config, t: Table, msg: TurnMessage, client: Endpoint, username: string,
      draws: seq<u16>):
    Option<(u16, string)>
  {
    var transport := msg.Find(REQUESTED_TRANSPORT);
    if EndpointKey(client) in t.allocs then Some((437, "Allocation Mismatch"))
    else if transport.None? then Some((400, "Bad Request"))
    else if |transport.value| < 4 || transport.value[0] != UDP then Some((442, "Unsupported Transport Protocol"))
    else if |OwnedBy(t.allocs, username)| >= cfg.maxPerUser then Some((486, "Allocation Quota Reached"))
    else if FirstFree(cfg, draws, RelayPorts(t.allocs)).None? then Some((508, "Insufficient Capacity"))
    else None
  }

  function Allocated(cfg: Config, t: Table, client: Endpoint, username: string, realm: string, port: u16,
                     expiresAt: Instant): Table
  {
    var r := Record(t.nextId, client, Endpoint(cfg.relayAddress, port), username, realm, expiresAt, map[], map[]);
    Table(t.allocs[EndpointKey(client) := r], t.nextId + 1)
  }

  ghost function OnAllocate(cfg: Config, t: Table, msg: TurnMessage, client: Endpoint, username: string, realm: string,
                          draws: seq<u16>, now: Instant): (Table, Octets)
  {
    match AllocateRefusal(cfg, t, msg, client, username, draws)
    case Some((code, reason)) => (t, ErrorMessage(msg.tid, code, reason))
    case None =>
      var port := FirstFree(cfg, draws, RelayPorts(t.allocs)).value;
      (Allocated(cfg, t, client, username, realm, port, now + GrantedLifetime(msg) * SECOND),
       BuildMessage(Allocate, SuccessResponse, msg.tid, AllocateAttrs(cfg, port, client, GrantedLifetime(msg))))
  }

  function OnRefresh(t: Table, msg: TurnMessage, client: Endpoint, username: string, now: Instant): (Table, Octets) {
    var key, lifetime := EndpointKey(client), RequestedLifetime(msg);
    if key !in t.allocs then (t, ErrorMessage(msg.tid, 437, "Allocation Mismatch"))
    else if t.allocs[key].username != username then (t, ErrorMessage(msg.tid, 441, "Wrong Credentials"))
    else
      (if lifetime == 0 then t.(allocs := t.allocs - {key})
       else t.(allocs := t.allocs[key := t.allocs[key].(expiresAt := now + lifetime * SECOND)]),
       BuildMessage(Refresh, SuccessResponse, msg.tid, [Attribute(LIFETIME, Be32(lifetime))]))
  }

  predicate IsPeerAttr(a: Attribute) {
    a.typ == XOR_PEER_ADDRESS && |a.value| >= 8
  }

  datatype Install = Install(permissions: map<string, Permission>, found: bool, denied: bool)

  /** The effect of the peer addresses of a CreatePermission request, one after the other. */
  function InstallPeers(attrs: seq<Attribute>, state: Install, now: Instant): Install {
    if attrs == [] then state
    else if !IsPeerAttr(attrs[0]) then InstallPeers(attrs[1..], state, now)
    else
      var address := PeerOf(attrs[0].value).address;
      if IsDeniedAddress(address) then state.(denied := true)
      else
        var p := Permission(address, now + PERMISSION_TTL);
        InstallPeers(attrs[1..], Install(state.permissions[address := p], true, state.denied), now)
  }

  function OnCreatePermission(t: Table, msg: TurnMessage, client: Endpoint, now: Instant): (Table, Octets) {
    var key := EndpointKey(client);
    if key !in t.allocs then (t, ErrorMessage(msg.tid, 437, "Allocation Mismatch"))
    else
      var r := t.allocs[key];
      var done := InstallPeers(msg.attributes, Install(r.permissions, false, false), now);
      (t.(allocs := t.allocs[key := r.(permissions := done.permissions)]),
       if done.denied then ErrorMessage(msg.tid, 403, "Forbidden")
       else if !done.found then ErrorMessage(msg.tid, 400, "Bad Request")
       else BuildMessage(CreatePermission, SuccessResponse, msg.tid, []))
  }

  /** Channel number and peer of a ChannelBind request that is well formed and may be bound in r. */
  function BindRequest(msg: TurnMessage): Option<(u16, Endpoint)> {
    var number, peer := msg.Find(CHANNEL_NUMBER), msg.Find(XOR_PEER_ADDRESS);
    if number.None? || peer.None? || |number.value| < 2 || |peer.value| < 8 then None
    else if !IsChannelNumber(Word16(number.value[0], number.value[1])) then None
    else Some((Word16(number.value[0], number.value[1]), PeerOf(peer.value)))
  }

  predicate BindConflict(r: Record, n: u16, peer: Endpoint) {
    || (n in r.channels && r.channels[n].peer != peer)
    || exists m :: m in r.channels && m != n && r.channels[m].peer == peer
  }

  function Bound(r: Record, n: u16, peer: Endpoint, now: Instant): Record {
    r.(channels := r.channels[n := ChannelBinding(n, peer, now + CHANNEL_TTL)],
       permissions := r.permissions[peer.address := Permission(peer.address, now + PERMISSION_TTL)])
  }

  function OnChannelBind(t: Table, msg: TurnMessage, client: Endpoint, now: Instant): (Table, Octets) {
    var key := EndpointKey(client);
    if key !in t.allocs then (t, ErrorMessage(msg.tid, 437, "Allocation Mismatch"))
    else
      match BindRequest(msg)
      case None => (t, ErrorMessage(msg.tid, 400, "Bad Request"))
      case Some((n, peer)) =>
        if IsDeniedAddress(peer.address) then (t, ErrorMessage(msg.tid, 403, "Forbidden"))
        else if BindConflict(t.allocs[key], n, peer) then (t, ErrorMessage(msg.tid, 400, "Bad Request"))
        else
          (t.(allocs := t.allocs[key := Bound(t.allocs[key], n, peer, now)]),
           BuildMessage(ChannelBind, SuccessResponse, msg.tid, []))
  }

  // ----- relaying -----

  /** The allocation behind a relayed address. */
  ghost function RelayOwner(t: Table, relay: Endpoint): Option<string> {
    if exists k :: k in t.allocs && t.allocs[k].relayedAddr == relay then
      var k :| k in t.allocs && t.allocs[k].relayedAddr == relay;
      Some(k)
    else None
  }

  /** The peer and payload of a Send indication. */
  function SendRequest(msg: TurnMessage): Option<(Endpoint, Octets)> {
    match (msg.Find(XOR_PEER_ADDRESS), msg.Find(DATA))
    case (Some(peer), Some(data)) => if |peer| < 8 then None else Some((PeerOf(peer), data))
    case _ => None
  }

  ghost function SendOutput(t: Table, msg: TurnMessage, client: Endpoint, now: Instant): seq<Datagram> {
    var key := EndpointKey(client);
    if key !in t.allocs || SendRequest(msg).None? then []
    else
      var r, peer, data := t.allocs[key], SendRequest(msg).value.0, SendRequest(msg).value.1;
      if !r.HasPermission(peer.address, now) then []
      else
        match RelayOwner(t, peer)
        case None => [Datagram(data, peer)]
        case Some(k) =>
          [Datagram(DataIndication(V4OrZero(r.relayedAddr.address), r.relayedAddr.port, data), t.allocs[k].clientAddr)]
  }

  /** Data arriving from a peer at a relayed address. */
  ghost function PeerDataOutput(t: Table, data: Octets, peer: Endpoint, relay: Endpoint, now: Instant): seq<Datagram> {
    match RelayOwner(t, relay)
    case None => []
    case Some(k) =>
      var r := t.allocs[k];
      if !r.HasPermission(peer.address, now) then []
      else
        match r.FindChannelByPeer(peer, now)
        case Some(b) => [Datagram(ChannelFrame(b.channelNumber, data), r.clientAddr)]
        case None => [Datagram(DataIndication(V4OrZero(peer.address), peer.port, data), r.clientAddr)]
  }

  /** The channel of r bound to the given peer, expired or not. */
  ghost function ChannelTo(r: Record, peer: Endpoint): Option<u16> {
    if exists n :: r.BoundTo(n, peer) then
      var n :| r.BoundTo(n, peer);
      Some(n)
    else None
  }

  /** What the owner of the target address gets: a frame on the channel it bound to the sending address,
      or else a Data indication. */
  ghost function ForwardOutput(owner: Record, from: Endpoint, data: Octets): seq<Datagram> {
    match ChannelTo(owner, from)
    case Some(n) => [Datagram(ChannelFrame(n, data), owner.clientAddr)]
    case None =>
      match ParseV4(from.address)
      case Some(ip) => [Datagram(DataIndication(ip, from.port, data), owner.clientAddr)]
      case None => []
  }

  /** A ChannelData message from a client. The lookup of its channel ignores the binding's expiry. */
  ghost function ChannelOutput(t: Table, number: u16, data: Octets, client: Endpoint, now: Instant): seq<Datagram> {
    var key := EndpointKey(client);
    if key !in t.allocs || number !in t.allocs[key].channels then []
    else
      var r := t.allocs[key];
      var peer := r.channels[number].peer;
      if !r.HasPermission(peer.address, now) then []
      else
        match RelayOwner(t, peer)
        case None => [Datagram(data, peer)]
        case Some(k) =>
          ForwardOutput(t.allocs[k], r.relayedAddr, data)
  }
}
