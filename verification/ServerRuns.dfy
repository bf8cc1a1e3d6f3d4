/** Safety of the TURN server over whole runs. */
module ServerRuns {
  import opened Bytes
  import opened Text
  import opened Stun
  import opened Builder
  import opened ChannelData
  import opened Integrity
  import opened Allocations
  import opened TableInvariants
  import opened TurnServer

  /** states[i] is the server before events[i]. Nothing is assumed about the clocks. */
  ghost predicate IsRun(env: Env, states: seq<Server>, events: seq<Event>) {
    && |states| == |events| + 1
    && states[0] == INITIAL
    && forall i :: 0 <= i < |events| ==>
         ValidEvent(env, states[i], events[i]) && states[i + 1] == Step(env, states[i], events[i]).0
  }

  lemma {:induction false} ReachableOk(env: Env, states: seq<Server>, events: seq<Event>, n: nat)
    requires IsRun(env, states, events) && n < |states|
    ensures ServerOk(env, states[n])
  {
    hide ServerOk, Step;
    if n == 0 {
      InitialOk(env);
    } else {
      ReachableOk(env, states, events, n - 1);
      StepKeepsServerOk(env, states[n - 1], events[n - 1]);
    }
  }

  lemma InitialOk(env: Env)
    ensures ServerOk(env, INITIAL)
  {
    InitialTableOk(env.cfg);
  }

  // ----- where permissions come from -----

  /** The message names a peer with this address. */
  ghost predicate Names(msg: TurnMessage, address: string) {
    exists i :: 0 <= i < |msg.attributes| && Asked(msg.attributes, i) == Some(address)
  }

  /** An authenticated CreatePermission or ChannelBind of the client with this key names this address. */
  ghost predicate Grants(env: Env, s: Server, e: Event, key: string, address: string) {
    && Authentic(env, s, e) && EndpointKey(e.packet.from) == key
    && RequestOf(e).value.kind in {CreatePermission, ChannelBind}
    && Names(RequestOf(e).value, address)
  }

  ghost predicate Permits(t: Table, key: string, address: string) {
    key in t.allocs && address in t.allocs[key].permissions
  }

  function Deadline(t: Table, key: string, address: string): Instant
    requires key in t.allocs && address in t.allocs[key].permissions
  {
    t.allocs[key].permissions[address].expiresAt
  }

  lemma {:induction false} FindAttrIn(attrs: seq<Attribute>, typ: u16)
    requires FindAttr(attrs, typ).Some?
    ensures exists i :: 0 <= i < |attrs| && attrs[i] == Attribute(typ, FindAttr(attrs, typ).value)
  {
    if attrs[0].typ != typ {
      FindAttrIn(attrs[1..], typ);
      var i :| 0 <= i < |attrs[1..]| && attrs[1..][i] == Attribute(typ, FindAttr(attrs[1..], typ).value);
      assert attrs[i + 1] == attrs[1..][i];
    } else {
      assert attrs[0] == Attribute(typ, FindAttr(attrs, typ).value);
    }
  }

  /** A permission after a CreatePermission is old or named in it. */
  lemma CreatedPermission(t: Table, msg: TurnMessage, client: Endpoint, now: Instant, address: string)
    requires Permits(OnCreatePermission(t, msg, client, now).0, EndpointKey(client), address)
    ensures var t', key := OnCreatePermission(t, msg, client, now).0, EndpointKey(client);
            && key in t.allocs && t'.allocs[key].id == t.allocs[key].id
            && ((Permits(t, key, address) && Deadline(t', key, address) == Deadline(t, key, address))
                || (Names(msg, address) && Deadline(t', key, address) == now + PERMISSION_TTL))
  {
    hide EndpointKey, ErrorMessage, BuildMessage, InstallPeers, PeerOf, IsDeniedAddress;
    var key := EndpointKey(client);
    InstallPeersMeans(msg.attributes, Install(t.allocs[key].permissions, false, false), now);
  }

  lemma BoundPermission(t: Table, msg: TurnMessage, client: Endpoint, now: Instant, address: string)
    requires Permits(OnChannelBind(t, msg, client, now).0, EndpointKey(client), address)
    ensures var t', key := OnChannelBind(t, msg, client, now).0, EndpointKey(client);
            && key in t.allocs && t'.allocs[key].id == t.allocs[key].id
            && ((Permits(t, key, address) && Deadline(t', key, address) == Deadline(t, key, address))
                || (Names(msg, address) && Deadline(t', key, address) == now + PERMISSION_TTL))
  {
    hide EndpointKey, ErrorMessage, BuildMessage, PeerOf, IsDeniedAddress, FindAttr, BindConflict;
    if msg.Find(XOR_PEER_ADDRESS).Some? {
      FindAttrIn(msg.attributes, XOR_PEER_ADDRESS);
      var i :| 0 <= i < |msg.attributes|
            && msg.attributes[i] == Attribute(XOR_PEER_ADDRESS, msg.Find(XOR_PEER_ADDRESS).value);
      if BindRequest(msg).Some? {
        assert Asked(msg.attributes, i) == Some(BindRequest(msg).value.1.address);
      }
    }
  }

  /** Every other request leaves permissions alone; a new allocation has none. */
  lemma OtherPermission(env: Env, t: Table, msg: TurnMessage, p: Packet, address: string)
    requires msg.kind !in {CreatePermission, ChannelBind}
    requires Permits(OnRequest(env, t, msg, p).0, EndpointKey(p.from), address)
    ensures var t', key := OnRequest(env, t, msg, p).0, EndpointKey(p.from);
            && Permits(t, key, address) && Deadline(t', key, address) == Deadline(t, key, address)
            && t'.allocs[key].id == t.allocs[key].id
  {
    hide EndpointKey, ErrorMessage, BuildMessage, AllocateAttrs, FindAttr, FirstFree, OwnedBy, RelayPorts;
    hide RequestedLifetime;
  }

  /** A permission after a step was there before, or this very step grants it for 300 seconds. */
  lemma PermissionOrigin(env: Env, s: Server, e: Event, key: string, address: string)
    requires Permits(Step(env, s, e).0.table, key, address)
    ensures var t, t' := s.table, Step(env, s, e).0.table;
            || (Permits(t, key, address) && Deadline(t', key, address) == Deadline(t, key, address)
                && t'.allocs[key].id == t.allocs[key].id)
            || (Grants(env, s, e, key, address) && Deadline(t', key, address) == e.Now() + PERMISSION_TTL)
  {
    hide Step, Verdict, RequestOf, EndpointKey, OnRequest, OnCreatePermission, OnChannelBind, Names;
    StepOfTable(env, s, e);
    if Authentic(env, s, e) {
      var msg, p := RequestOf(e).value, e.packet;
      RequestIsLocal(env, s.table, msg, p);
      if key == EndpointKey(p.from) {
        KindOfRequest(env, s.table, msg, p);
        if msg.kind == CreatePermission {
          CreatedPermission(s.table, msg, p.from, p.now, address);
        } else if msg.kind == ChannelBind {
          BoundPermission(s.table, msg, p.from, p.now, address);
        } else {
          OtherPermission(env, s.table, msg, p, address);
        }
      }
    }
  }

  lemma KindOfRequest(env: Env, t: Table, msg: TurnMessage, p: Packet)
    ensures msg.kind == CreatePermission ==> OnRequest(env, t, msg, p) == OnCreatePermission(t, msg, p.from, p.now)
    ensures msg.kind == ChannelBind ==> OnRequest(env, t, msg, p) == OnChannelBind(t, msg, p.from, p.now)
  {
    hide OnCreatePermission, OnChannelBind, OnAllocate, OnRefresh;
  }

  /** Event j of the run granted the permission that key holds for address before event n, to the same
      allocation. */
  ghost predicate GrantedBy(env: Env, states: seq<Server>, events: seq<Event>, n: nat, key: string, address: string,
      j: nat)
    requires n < |states| && j < n <= |events| && |states| == |events| + 1
    requires Permits(states[n].table, key, address)
  {
    && Grants(env, states[j], events[j], key, address)
    && Deadline(states[n].table, key, address) == events[j].Now() + PERMISSION_TTL
    && key in states[j + 1].table.allocs && states[j + 1].table.allocs[key].id == states[n].table.allocs[key].id
  }

  lemma {:induction false} EveryPermissionGranted(env: Env, states: seq<Server>, events: seq<Event>, n: nat,
                                                  key: string, address: string)
    returns (j: nat)
    requires IsRun(env, states, events) && n < |states| && Permits(states[n].table, key, address)
    ensures j < n && GrantedBy(env, states, events, n, key, address, j)
  {
    hide Step, Grants, ValidEvent;
    if n == 0 {
      assert false;
    } else {
      PermissionOrigin(env, states[n - 1], events[n - 1], key, address);
      if Grants(env, states[n - 1], events[n - 1], key, address)
         && Deadline(states[n].table, key, address) == events[n - 1].Now() + PERMISSION_TTL {
        j := n - 1;
      } else {
        j := EveryPermissionGranted(env, states, events, n - 1, key, address);
      }
    }
  }

  // ----- relayed data -----

  /** The application data in an event: the payload of a ChannelData message or of a Send indication, or what
      a peer sent. */
  function DataOf(e: Event): Option<Octets> {
    match e
    case FromPeer(data, _, _, _) => Some(data)
    case FromClient(p) =>
      if ParseChannelData(p.raw).Ok? then Some(ParseChannelData(p.raw).data)
      else if ParseMessage(p.raw).Ok? && SendRequest(ParseMessage(p.raw).msg).Some? then
        Some(SendRequest(ParseMessage(p.raw).msg).value.1)
      else None
  }

  /** The form in which the client of r hears data from an endpoint: on a channel it has bound to that
      endpoint (by its key or its number, which agree in every reachable state), or as a Data indication
      naming it. */
  ghost predicate Wraps(r: Record, payload: Octets, from: Endpoint, data: Octets) {
    || payload == DataIndication(V4OrZero(from.address), from.port, data)
    || exists m: u16, n: u16 ::
         r.BoundTo(m, from) && n in {m, r.channels[m].channelNumber} && payload == ChannelFrame(n, data)
  }

  /** The datagram carries the event's data between the allocation of key and this peer, under a live
      permission: bare towards the peer, or wrapped for the client behind the peer's relayed address, or
      wrapped for the allocation's own client. */
  ghost predicate Carries(t: Table, e: Event, d: Datagram, key: string, peer: Endpoint) {
    && key in t.allocs && t.allocs[key].HasPermission(peer.address, e.Now()) && DataOf(e).Some?
    && match e
       case FromClient(p) =>
         && key == EndpointKey(p.from)
         && (d == Datagram(DataOf(e).value, peer)
             || exists k :: Reaches(t, d, k, peer, t.allocs[key].relayedAddr, DataOf(e).value))
       case FromPeer(_, from, relay, _) =>
         peer == from && Reaches(t, d, key, relay, from, DataOf(e).value)
  }

  /** The datagram reaches the client of allocation k, whose relayed address is relay, with data from an endpoint. */
  ghost predicate Reaches(t: Table, d: Datagram, k: string, relay: Endpoint, from: Endpoint, data: Octets) {
    && k in t.allocs && t.allocs[k].relayedAddr == relay
    && d.to == t.allocs[k].clientAddr && Wraps(t.allocs[k], d.payload, from, data)
  }

  lemma NotBothKinds(raw: Octets)
    requires ParseMessage(raw).Ok?
    ensures !ParseChannelData(raw).Ok?
  {
    hide Value;
    Word16Is(raw[0], raw[1]);
  }

  lemma SendCarries(t: Table, p: Packet, msg: TurnMessage, d: Datagram) returns (peer: Endpoint)
    requires ParseMessage(p.raw) == Stun.Ok(msg) && d in SendOutput(t, msg, p.from, p.now)
    ensures Carries(t, FromClient(p), d, EndpointKey(p.from), peer)
  {
    hide EndpointKey, DataIndication, ChannelFrame, SendRequest, PeerOf, V4OrZero, ParseMessage, ParseChannelData;
    NotBothKinds(p.raw);
    peer := SendRequest(msg).value.0;
    var k := RelayOwner(t, peer);
    assert k.Some? ==> Reaches(t, d, k.value, peer, t.allocs[EndpointKey(p.from)].relayedAddr,
        SendRequest(msg).value.1);
  }

  lemma ChannelCarries(t: Table, p: Packet, number: u16, data: Octets, d: Datagram) returns (peer: Endpoint)
    requires ParseChannelData(p.raw) == ChannelData.Ok(number, data)
        && d in ChannelOutput(t, number, data, p.from, p.now)
    ensures Carries(t, FromClient(p), d, EndpointKey(p.from), peer)
  {
    hide EndpointKey, DataIndication, ChannelFrame, ParseV4, ParseMessage, ParseChannelData;
    peer := t.allocs[EndpointKey(p.from)].channels[number].peer;
    var k := RelayOwner(t, peer);
    assert k.Some? ==> Reaches(t, d, k.value, peer, t.allocs[EndpointKey(p.from)].relayedAddr, data);
  }

  lemma PeerDataCarries(t: Table, e: Event, d: Datagram) returns (key: string)
    requires e.FromPeer? && d in PeerDataOutput(t, e.data, e.peer, e.relay, e.at)
    ensures Carries(t, e, d, key, e.peer)
  {
    hide EndpointKey, DataIndication, ChannelFrame, V4OrZero;
    key := RelayOwner(t, e.relay).value;
  }

  lemma RelayNeedsPermission(env: Env, s: Server, e: Event, d: Datagram) returns (key: string, peer: Endpoint)
    requires RequestOf(e).None? && d in Step(env, s, e).1
    ensures Carries(s.table, e, d, key, peer)
  {
    hide EndpointKey, SendOutput, ChannelOutput, PeerDataOutput, ParseMessage, ParseChannelData, Carries, Verdict;
    hide OnRequest;
    match e
    case FromPeer(data, from, relay, at) =>
      key := PeerDataCarries(s.table, e, d);
      peer := from;
    case FromClient(p) =>
      key := EndpointKey(p.from);
      if p.raw[0] / 0x40 == 1 {
        var m := ParseChannelData(p.raw);
        peer := ChannelCarries(s.table, p, m.number, m.data, d);
      } else {
        peer := SendCarries(s.table, p, ParseMessage(p.raw).msg, d);
      }
  }

  /** Whatever is relayed at event n was allowed less than 300 seconds earlier, by an authenticated
      CreatePermission or ChannelBind from the allocation's own client that names the peer's address, on the
      same allocation. */
  lemma RelayedOnlyWhenGranted(env: Env, states: seq<Server>, events: seq<Event>, n: nat, d: Datagram)
    returns (j: nat, key: string, peer: Endpoint)
    requires IsRun(env, states, events) && n < |events|
    requires RequestOf(events[n]).None? && d in Step(env, states[n], events[n]).1
    ensures Carries(states[n].table, events[n], d, key, peer)
    ensures j < n && Permits(states[n].table, key, peer.address)
    ensures GrantedBy(env, states, events, n, key, peer.address, j)
    ensures events[n].Now() < events[j].Now() + PERMISSION_TTL
  {
    hide Step, RequestOf, Grants;
    key, peer := RelayNeedsPermission(env, states[n], events[n], d);
    j := EveryPermissionGranted(env, states, events, n, key, peer.address);
  }

  // ----- nonces -----

  /** Event e made the server send a challenge with this nonce to the sender. */
  ghost predicate Issues(env: Env, s: Server, e: Event, nonce: string) {
    && e.FromClient? && e.packet.nonce == nonce && RequestOf(e).Some?
    && Step(env, s, e).1 in {ChallengeTo(env, e, 401, "Unauthorized", nonce),
        ChallengeTo(env, e, 438, "Stale Nonce", nonce)}
  }

  function ChallengeTo(env: Env, e: Event, code: u16, reason: string, nonce: string): seq<Datagram>
    requires RequestOf(e).Some?
  {
    [Datagram(Challenge(env, RequestOf(e).value, code, reason, nonce), e.packet.from)]
  }

  lemma NonceOrigin(env: Env, s: Server, e: Event, nonce: string)
    requires nonce in Step(env, s, e).0.nonces
    ensures var before, after := s.nonces, Step(env, s, e).0.nonces;
            || (nonce in before && after[nonce] == before[nonce])
            || (Issues(env, s, e, nonce) && after[nonce] == e.Now() + NONCE_TTL)
  {
    hide EndpointKey, SendOutput, ChannelOutput, PeerDataOutput, ParseMessage, ParseChannelData, Verdict, OnRequest;
    hide Challenge;
    hide ErrorMessage, SignedFor;
  }

  lemma {:induction false} EveryNonceIssued(env: Env, states: seq<Server>, events: seq<Event>, n: nat, nonce: string)
    returns (j: nat)
    requires IsRun(env, states, events) && n < |states| && nonce in states[n].nonces
    ensures j < n && Issues(env, states[j], events[j], nonce)
    ensures states[n].nonces[nonce] == events[j].Now() + NONCE_TTL
  {
    hide Step, Issues, ValidEvent;
    if n == 0 {
      assert false;
    } else {
      NonceOrigin(env, states[n - 1], events[n - 1], nonce);
      if Issues(env, states[n - 1], events[n - 1], nonce)
         && states[n].nonces[nonce] == events[n - 1].Now() + NONCE_TTL {
        j := n - 1;
      } else {
        j := EveryNonceIssued(env, states, events, n - 1, nonce);
      }
    }
  }

  /** An authenticated request uses a nonce that the server itself sent out, in a challenge less than 3600
      seconds before. */
  lemma AuthenticNonceIssued(env: Env, states: seq<Server>, events: seq<Event>, n: nat) returns (j: nat, nonce: string)
    requires IsRun(env, states, events) && n < |events| && Authentic(env, states[n], events[n])
    ensures RequestOf(events[n]).value.Find(NONCE).Some?
    ensures nonce == StringOf(RequestOf(events[n]).value.Find(NONCE).value)
    ensures j < n && Issues(env, states[j], events[j], nonce) && events[n].Now() < events[j].Now() + NONCE_TTL
  {
    hide Step, Issues;
    var s, e := states[n], events[n];
    var msg, p := RequestOf(e).value, e.packet;
    env.cred.AuthenticatedUsername(msg, p.raw, AllocatedUsername(s.table, msg, p.from), s.nonces, p.now, p.wall);
    nonce := StringOf(msg.Find(NONCE).value);
    j := EveryNonceIssued(env, states, events, n, nonce);
  }

  /** The event makes the server challenge its sender with this nonce. */
  ghost predicate Challenges(env: Env, s: Server, e: Event, nonce: string) {
    && RequestOf(e).Some? && e.packet.nonce == nonce
    && Verdict(env, s, RequestOf(e).value, e.packet) !in {AuthOk, WrongCredentials}
  }

  lemma ChallengeStored(env: Env, s: Server, e: Event, nonce: string)
    requires Challenges(env, s, e, nonce)
    ensures Issues(env, s, e, nonce)
    ensures var after := Step(env, s, e).0.nonces; nonce in after && after[nonce] == e.Now() + NONCE_TTL
  {
    hide ParseMessage, Verdict, Challenge, SendOutput, OnRequest, SignedFor, ErrorMessage;
  }

  /** A stored nonce is neither removed nor given a new deadline. */
  lemma NonceStays(env: Env, s: Server, e: Event, nonce: string)
    requires ValidEvent(env, s, e) && nonce in s.nonces
    ensures var after := Step(env, s, e).0.nonces; nonce in after && after[nonce] == s.nonces[nonce]
  {
    hide EndpointKey, SendOutput, ChannelOutput, PeerDataOutput, ParseMessage, ParseChannelData, Verdict, OnRequest;
    hide Challenge, ErrorMessage, SignedFor, ValidDraws;
  }

  /** Over any run a nonce sent in a challenge is honoured until 3600 seconds after it. */
  lemma {:induction false} ChallengeNonceStays(env: Env, states: seq<Server>, events: seq<Event>, i: nat, n: nat,
                                               nonce: string)
    requires IsRun(env, states, events) && i < n < |states| && Challenges(env, states[i], events[i], nonce)
    ensures nonce in states[n].nonces && states[n].nonces[nonce] == events[i].Now() + NONCE_TTL
  {
    hide Step, Challenges, ValidEvent;
    if n == i + 1 {
      ChallengeStored(env, states[i], events[i], nonce);
    } else {
      ChallengeNonceStays(env, states, events, i, n - 1, nonce);
      NonceStays(env, states[n - 1], events[n - 1], nonce);
    }
  }
}
