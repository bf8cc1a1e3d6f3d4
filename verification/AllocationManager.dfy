/** The allocation manager: two indexes over shared allocation objects, and the set of ports in use. */
module AllocationManager {
  import opened Bytes
  import opened Text
  import opened Stun
  import opened Builder
  import opened ChannelData
  import opened Integrity
  import opened Allocations

  /** One allocation, shared by both indexes. */
  class Allocation {
    const id: nat
    const clientAddr: Endpoint
    const relayedAddr: Endpoint
    const username: string
    const realm: string
    var expiresAt: Instant
    var permissions: map<string, Permission>
    var channels: map<u16, ChannelBinding>

    constructor (id: nat, clientAddr: Endpoint, relayedAddr: Endpoint, username: string, realm: string,
        expiresAt: Instant)
      ensures View() == Record(id, clientAddr, relayedAddr, username, realm, expiresAt, map[], map[])
      ensures this.clientAddr == clientAddr && this.relayedAddr == relayedAddr
    {
      this.id, this.clientAddr, this.relayedAddr := id, clientAddr, relayedAddr;
      this.username, this.realm, this.expiresAt := username, realm, expiresAt;
      permissions, channels := map[], map[];
    }

    function View(): Record
      reads this
    {
      Record(id, clientAddr, relayedAddr, username, realm, expiresAt, permissions, channels)
    }

    predicate HasPermission(address: string, now: Instant)
      reads this
      ensures HasPermission(address, now) == View().HasPermission(address, now)
    {
      address in permissions && now < permissions[address].expiresAt
    }

    /** The loop of findChannelByPeer over an unordered map. */
    method FindChannelByPeer(peer: Endpoint, now: Instant) returns (found: Option<ChannelBinding>)
      requires View().ChannelsOk()
      ensures found == View().FindChannelByPeer(peer, now)
    {
      var todo := channels.Keys;
      while todo != {}
        invariant todo <= channels.Keys
        invariant forall n :: n in channels.Keys - todo ==> !View().LiveBinding(n, peer, now)
      {
        var n :| n in todo;
        if channels[n].peer == peer && now < channels[n].expiresAt {
          assert View().LiveBinding(n, peer, now);
          return Some(channels[n]);
        }
        todo := todo - {n};
      }
      found := None;
    }

    /** The first channel bound to peer in iteration order, expired or not. */
    method FindChannelTo(peer: Endpoint) returns (found: Option<u16>)
      requires View().ChannelsOk()
      ensures found == ChannelTo(View(), peer)
    {
      var todo := channels.Keys;
      while todo != {}
        invariant todo <= channels.Keys
        invariant forall n :: n in channels.Keys - todo ==> !View().BoundTo(n, peer)
      {
        var n :| n in todo;
        if channels[n].peer == peer {
          assert View().BoundTo(n, peer);
          return Some(n);
        }
        todo := todo - {n};
      }
      found := None;
    }

    method CheckConflict(number: u16, peer: Endpoint) returns (conflict: bool)
      ensures conflict == BindConflict(View(), number, peer)
    {
      if number in channels && channels[number].peer != peer {
        return true;
      }
      var todo := channels.Keys;
      while todo != {}
        invariant todo <= channels.Keys
        invariant forall m :: m in channels.Keys - todo ==> m == number || channels[m].peer != peer
      {
        var m :| m in todo;
        if m != number && channels[m].peer == peer {
          return true;
        }
        todo := todo - {m};
      }
      conflict := false;
    }
  }

  ghost function PortsOf(index: map<string, Allocation>): set<u16> {
    set k | k in index :: index[k].relayedAddr.port
  }

  lemma PortsOfInsert(index: map<string, Allocation>, key: string, a: Allocation)
    requires key !in index
    ensures PortsOf(index[key := a]) == PortsOf(index) + {a.relayedAddr.port}
  {
    var index' := index[key := a];
    assert a.relayedAddr.port in PortsOf(index') by { assert index'[key] == a; }
    forall p | p in PortsOf(index) ensures p in PortsOf(index') {
      var k :| k in index && index[k].relayedAddr.port == p;
      assert index'[k] == index[k];
    }
  }

  ghost predicate Within(index: map<string, Allocation>, objects: set<Allocation>) {
    forall k :: k in index ==> index[k] in objects
  }

  ghost function ViewOf(index: map<string, Allocation>, objects: set<Allocation>): map<string, Record>
    requires Within(index, objects)
    reads objects
  {
    map k | k in index :: index[k].View()
  }

  lemma ViewOfUpdate(index: map<string, Allocation>, objects: set<Allocation>, key: string, a: Allocation)
    requires Within(index, objects)
    ensures ViewOf(index[key := a], objects + {a}) == ViewOf(index, objects)[key := a.View()]
  {
  }

  class Manager {
    const cfg: Config
    var byClient: map<string, Allocation>
    var byRelay: map<string, Allocation>
    var usedPorts: map<u16, bool>
    var nextId: nat
    ghost var objects: set<Allocation>

    /** The table the two indexes stand for. */
    ghost function View(): Table
      requires Within(byClient, objects)
      reads this, objects
    {
      Table(ViewOf(byClient, objects), nextId)
    }

    /** Both indexes hold the same objects, each under the key of its own address. */
    ghost predicate IndexesAgree()
      reads this`byClient, this`byRelay
    {
      && (forall k :: k in byClient ==>
            && k == EndpointKey(byClient[k].clientAddr)
            && byClient[k].relayedAddr.address == cfg.relayAddress
            && EndpointKey(byClient[k].relayedAddr) in byRelay
            && byRelay[EndpointKey(byClient[k].relayedAddr)] == byClient[k])
      && (forall r :: r in byRelay ==>
            && r == EndpointKey(byRelay[r].relayedAddr)
            && EndpointKey(byRelay[r].clientAddr) in byClient
            && byClient[EndpointKey(byRelay[r].clientAddr)] == byRelay[r])
    }

    ghost predicate PortsMarked()
      reads this`usedPorts
    {
      forall port :: port in usedPorts ==> usedPorts[port]
    }

    /** ... and the ports in use are exactly their relay ports. */
    ghost predicate Indexed()
      reads this
    {
      Within(byClient, objects) && IndexesAgree() && PortsMarked() && usedPorts.Keys == PortsOf(byClient)
    }

    constructor (cfg: Config)
      ensures this.cfg == cfg && Indexed() && View() == INITIAL_TABLE && objects == {}
    {
      this.cfg := cfg;
      byClient, byRelay, usedPorts, nextId := map[], map[], map[], 1;
      objects := {};
    }

    lemma PortsAreRelayPorts()
      requires Within(byClient, objects)
      ensures PortsOf(byClient) == RelayPorts(View().allocs)
    {
      var allocs := View().allocs;
      assert forall k :: k in byClient ==> allocs[k].relayedAddr.port == byClient[k].relayedAddr.port;
    }

    lemma OwnedKeys(username: string)
      requires Within(byClient, objects)
      ensures OwnedBy(View().allocs, username) == set k | k in byClient && byClient[k].username == username
    {
    }

    method FindByClient(client: Endpoint) returns (alloc: Allocation?)
      requires Indexed()
      ensures alloc == null <==> EndpointKey(client) !in View().allocs
      ensures alloc != null ==>
        && EndpointKey(client) in byClient && alloc == byClient[EndpointKey(client)]
        && alloc.View() == View().allocs[EndpointKey(client)]
    {
      var key := EndpointKey(client);
      alloc := if key in byClient then byClient[key] else null;
    }

    /** The second index finds exactly the owner of a relayed address. */
    method FindByRelay(relay: Endpoint) returns (alloc: Allocation?)
      requires Indexed()
      ensures alloc == null <==> RelayOwner(View(), relay).None?
      ensures alloc != null ==>
        && var owner := RelayOwner(View(), relay).value;
        && owner in byClient && alloc == byClient[owner] && alloc.View() == View().allocs[owner]
    {
      var key := EndpointKey(relay);
      if key in byRelay {
        alloc := byRelay[key];
        EndpointKeyInjective(alloc.relayedAddr, relay);
        assert View().allocs[EndpointKey(alloc.clientAddr)].relayedAddr == relay;
      } else {
        alloc := null;
      }
      assert forall k :: k in byClient ==> View().allocs[k].relayedAddr == byClient[k].relayedAddr;
    }

    method AllocatePort(draws: seq<u16>) returns (port: Option<u16>)
      requires ValidDraws(cfg, draws) && PortsMarked()
      modifies this`usedPorts
      ensures port == FirstFree(cfg, draws, old(usedPorts).Keys)
      ensures usedPorts == if port.Some? then old(usedPorts)[port.value := true] else old(usedPorts)
    {
      for attempts := 0 to PORT_ATTEMPTS
        invariant usedPorts == old(usedPorts)
        invariant FirstFree(cfg, draws[attempts..], usedPorts.Keys) == FirstFree(cfg, draws, usedPorts.Keys)
      {
        assert draws[attempts..][1..] == draws[attempts + 1..];
        var p := PortAt(cfg, draws[attempts]);
        if p !in usedPorts {
          usedPorts := usedPorts[p := false];
        }
        if !usedPorts[p] {
          usedPorts := usedPorts[p := true];
          return Some(p);
        }
      }
      port := None;
    }

    method CountOwned(username: string) returns (count: nat)
      requires Indexed()
      ensures count == |OwnedBy(View().allocs, username)|
    {
      hide IndexesAgree, PortsOf, EndpointKey;
      count := 0;
      var todo := byClient.Keys;
      ghost var counted: set<string> := {};
      while todo != {}
        invariant todo <= byClient.Keys && count == |counted|
        invariant counted == set k | k in byClient && k !in todo && byClient[k].username == username
      {
        var k :| k in todo;
        if byClient[k].username == username {
          count := count + 1;
          counted := counted + {k};
        }
        todo := todo - {k};
      }
      OwnedKeys(username);
      assert counted == OwnedBy(View().allocs, username);
    }

    /** The object enters both indexes. */
    method Insert(a: Allocation)
      requires Within(byClient, objects) && IndexesAgree()
      requires EndpointKey(a.clientAddr) !in byClient && EndpointKey(a.relayedAddr) !in byRelay
      requires a.relayedAddr.address == cfg.relayAddress
      modifies this`byClient, this`byRelay, this`objects
      ensures Within(byClient, objects) && IndexesAgree()
      ensures byClient == old(byClient)[EndpointKey(a.clientAddr) := a]
      ensures ViewOf(byClient, objects) == old(ViewOf(byClient, objects))[EndpointKey(a.clientAddr) := a.View()]
      ensures PortsOf(byClient) == old(PortsOf(byClient)) + {a.relayedAddr.port}
      ensures objects == old(objects) + {a}
    {
      hide EndpointKey, PortsOf;
      ViewOfUpdate(byClient, objects, EndpointKey(a.clientAddr), a);
      PortsOfInsert(byClient, EndpointKey(a.clientAddr), a);
      byClient := byClient[EndpointKey(a.clientAddr) := a];
      byRelay := byRelay[EndpointKey(a.relayedAddr) := a];
      objects := objects + {a};
    }

    lemma FreshRelayKey(relay: Endpoint)
      requires IndexesAgree() && relay.port !in PortsOf(byClient)
      ensures EndpointKey(relay) !in byRelay
    {
      var key := EndpointKey(relay);
      if key in byRelay {
        var a := byRelay[key];
        assert a.relayedAddr.port in PortsOf(byClient) by { assert byClient[EndpointKey(a.clientAddr)] == a; }
        EndpointKeyInjective(a.relayedAddr, relay);
        assert false;
      }
    }

    method AllocateReply(msg: TurnMessage, client: Endpoint, port: u16, lifetime: u32) returns (reply: Octets)
      ensures reply == BuildMessage(Stun.Allocate, SuccessResponse, msg.tid, AllocateAttrs(cfg, port, client, lifetime))
    {
      var b := new MessageBuilder(Stun.Allocate, SuccessResponse, msg.tid);
      b.AppendXorAddress(XOR_RELAYED_ADDRESS, V4OrZero(cfg.relayAddress), port);
      b.AppendXorAddress(XOR_MAPPED_ADDRESS, V4OrZero(client.address), client.port);
      b.AddLifetime(lifetime);
      assert b.attrs == AllocateAttrs(cfg, port, client, lifetime);
      reply := b.Build();
    }

    method Grant(client: Endpoint, username: string, realm: string, port: u16, expiresAt: Instant)
      requires Within(byClient, objects) && IndexesAgree() && PortsMarked()
      requires usedPorts.Keys == PortsOf(byClient) + {port}
      requires EndpointKey(client) !in byClient && port !in PortsOf(byClient)
      modifies this`byClient, this`byRelay, this`objects, this`nextId
      ensures Indexed() && fresh(objects - old(objects))
      ensures View() == Allocated(cfg, old(View()), client, username, realm, port, expiresAt)
    {
      hide EndpointKey, PortsOf, IndexesAgree, ViewOf, Within;
      var relay := Endpoint(cfg.relayAddress, port);
      FreshRelayKey(relay);
      var a := new Allocation(nextId, client, relay, username, realm, expiresAt);
      Insert(a);
      nextId := nextId + 1;
    }

    method HandleAllocate(msg: TurnMessage, client: Endpoint, username: string, realm: string,
                          draws: seq<u16>, now: Instant) returns (reply: Octets)
      requires Indexed() && ValidDraws(cfg, draws)
      modifies this
      ensures Indexed() && fresh(objects - old(objects))
      ensures (View(), reply) == OnAllocate(cfg, old(View()), msg, client, username, realm, draws, now)
    {
      hide EndpointKey, ErrorMessage, BuildMessage, FindAttr, AllocateAttrs, Allocated, FirstFree, OwnedBy, RelayPorts;
      hide RequestedLifetime, PortsOf, IndexesAgree;
      var key := EndpointKey(client);
      if key in byClient {
        reply := MakeError(msg.tid, 437, "Allocation Mismatch");
        return;
      }
      var transport := msg.Find(REQUESTED_TRANSPORT);
      if transport.None? || |transport.value| < 4 || transport.value[0] != UDP {
        if transport.Some? {
          reply := MakeError(msg.tid, 442, "Unsupported Transport Protocol");
          return;
        } else {
          reply := MakeError(msg.tid, 400, "Bad Request");
          return;
        }
      }
      var count := CountOwned(username);
      assert count == |OwnedBy(View().allocs, username)|;
      if count >= cfg.maxPerUser {
        reply := MakeError(msg.tid, 486, "Allocation Quota Reached");
        return;
      }
      PortsAreRelayPorts();
      var port := AllocatePort(draws);
      if port.None? {
        reply := MakeError(msg.tid, 508, "Insufficient Capacity");
        return;
      }
      var lifetime := RequestedLifetime(msg);
      if lifetime == 0 {
        lifetime := DEFAULT_LIFETIME;
      }
      Grant(client, username, realm, port.value, now + lifetime * SECOND);
      reply := AllocateReply(msg, client, port.value, lifetime);
    }

    /** After a change to one object only, the table differs in that client's record only. */
    twostate lemma Touched(key: string)
      requires old(Within(byClient, objects) && IndexesAgree()) && key in byClient
      requires byClient == old(byClient) && objects == old(objects) && nextId == old(nextId)
      requires forall o :: o in objects && o != byClient[key] ==> o.View() == old(o.View())
      ensures View() == old(View()).(allocs := old(View()).allocs[key := byClient[key].View()])
    {
      hide EndpointKey;
      forall k | k in byClient && k != key ensures byClient[k] != byClient[key] {
        assert k == EndpointKey(byClient[k].clientAddr);
      }
    }

    method ReplyWith(kind: Method, tid: Octets) returns (reply: Octets)
      ensures reply == BuildMessage(kind, SuccessResponse, tid, [])
    {
      var b := new MessageBuilder(kind, SuccessResponse, tid);
      reply := b.Build();
    }

    method ReplyWithLifetime(tid: Octets, lifetime: u32) returns (reply: Octets)
      ensures reply == BuildMessage(Stun.Refresh, SuccessResponse, tid, [Attribute(LIFETIME, Be32(lifetime))])
    {
      var b := new MessageBuilder(Stun.Refresh, SuccessResponse, tid);
      b.AddLifetime(lifetime);
      assert b.attrs == [Attribute(LIFETIME, Be32(lifetime))];
      reply := b.Build();
    }

    lemma PortsOfRemove(key: string)
      requires IndexesAgree() && key in byClient
      ensures PortsOf(byClient - {key}) == PortsOf(byClient) - {byClient[key].relayedAddr.port}
    {
      hide EndpointKey;
      var rest, port := byClient - {key}, byClient[key].relayedAddr.port;
      forall p | p in PortsOf(byClient) && p != port ensures p in PortsOf(rest) {
        var k :| k in byClient && byClient[k].relayedAddr.port == p;
        assert k in rest && rest[k] == byClient[k];
      }
      forall k | k in rest ensures rest[k].relayedAddr.port != port {
        assert rest[k] == byClient[k] && byClient[k] != byClient[key];
      }
    }

    /** Erase an allocation from both indexes and free its port. */
    method Remove(key: string)
      requires Indexed() && key in byClient
      modifies this`byClient, this`byRelay, this`usedPorts
      ensures Indexed() && byClient == old(byClient) - {key}
      ensures ViewOf(byClient, objects) == old(ViewOf(byClient, objects)) - {key}
    {
      hide EndpointKey;
      PortsOfRemove(key);
      var a := byClient[key];
      byRelay := byRelay - {EndpointKey(a.relayedAddr)};
      usedPorts := usedPorts - {a.relayedAddr.port};
      byClient := byClient - {key};
    }

    method HandleRefresh(msg: TurnMessage, client: Endpoint, username: string, now: Instant) returns (reply: Octets)
      requires Indexed()
      modifies this`byClient, this`byRelay, this`usedPorts, objects
      ensures Indexed()
      ensures (View(), reply) == OnRefresh(old(View()), msg, client, username, now)
    {
      hide EndpointKey, ErrorMessage, BuildMessage, FindAttr, RequestedLifetime, PortsOf, IndexesAgree;
      var key := EndpointKey(client);
      if key !in byClient {
        reply := MakeError(msg.tid, 437, "Allocation Mismatch");
        return;
      }
      var a := byClient[key];
      if a.username != username {
        reply := MakeError(msg.tid, 441, "Wrong Credentials");
        return;
      }
      var lifetime := RequestedLifetime(msg);
      if lifetime == 0 {
        Remove(key);
        reply := ReplyWithLifetime(msg.tid, 0);
        return;
      }
      a.expiresAt := now + lifetime * SECOND;
      Touched(key);
      reply := ReplyWithLifetime(msg.tid, lifetime);
    }

    method HandleCreatePermission(msg: TurnMessage, client: Endpoint, now: Instant) returns (reply: Octets)
      requires Indexed()
      modifies objects
      ensures Indexed()
      ensures (View(), reply) == OnCreatePermission(old(View()), msg, client, now)
    {
      hide EndpointKey, ErrorMessage, BuildMessage, PortsOf;
      var key := EndpointKey(client);
      if key !in byClient {
        reply := MakeError(msg.tid, 437, "Allocation Mismatch");
        return;
      }
      var a := byClient[key];
      var found, denied := Install(a, msg.attributes, now);
      Touched(key);
      if denied {
        reply := MakeError(msg.tid, 403, "Forbidden");
      } else if !found {
        reply := MakeError(msg.tid, 400, "Bad Request");
      } else {
        reply := ReplyWith(Stun.CreatePermission, msg.tid);
      }
    }

    /** The loop over the peer addresses; it stops at the first denied one. */
    method Install(a: Allocation, attrs: seq<Attribute>, now: Instant) returns (found: bool, denied: bool)
      modifies a`permissions
      ensures Allocations.Install(a.permissions, found, denied)
           == InstallPeers(attrs, Allocations.Install(old(a.permissions), false, false), now)
    {
      found, denied := false, false;
      ghost var start := Allocations.Install(a.permissions, false, false);
      for i := 0 to |attrs|
        invariant InstallPeers(attrs[i..], Allocations.Install(a.permissions, found, false), now)
               == InstallPeers(attrs, start, now)
      {
        assert attrs[i..][0] == attrs[i] && attrs[i..][1..] == attrs[i + 1..];
        if attrs[i].typ == XOR_PEER_ADDRESS && |attrs[i].value| >= 8 {
          var address := PeerOf(attrs[i].value).address;
          if IsDeniedAddress(address) {
            denied := true;
            return;
          }
          a.permissions := a.permissions[address := Permission(address, now + PERMISSION_TTL)];
          found := true;
        }
      }
    }

    method HandleChannelBind(msg: TurnMessage, client: Endpoint, now: Instant) returns (reply: Octets)
      requires Indexed()
      modifies objects
      ensures Indexed()
      ensures (View(), reply) == OnChannelBind(old(View()), msg, client, now)
    {
      hide EndpointKey, ErrorMessage, BuildMessage, PortsOf, FindAttr, PeerOf, IsDeniedAddress, BindConflict;
      hide IndexesAgree;
      var key := EndpointKey(client);
      if key !in byClient {
        reply := MakeError(msg.tid, 437, "Allocation Mismatch");
        return;
      }
      var a := byClient[key];
      var numberAttr, peerAttr := msg.Find(CHANNEL_NUMBER), msg.Find(XOR_PEER_ADDRESS);
      if numberAttr.None? || peerAttr.None? || |numberAttr.value| < 2 || |peerAttr.value| < 8 {
        reply := MakeError(msg.tid, 400, "Bad Request");
        return;
      }
      var number := Word16(numberAttr.value[0], numberAttr.value[1]);
      if number < 0x4000 || number > 0x4FFF {
        reply := MakeError(msg.tid, 400, "Bad Request");
        return;
      }
      var peer := PeerOf(peerAttr.value);
      if IsDeniedAddress(peer.address) {
        reply := MakeError(msg.tid, 403, "Forbidden");
        return;
      }
      var conflict := a.CheckConflict(number, peer);
      if conflict {
        reply := MakeError(msg.tid, 400, "Bad Request");
        return;
      }
      a.channels := a.channels[number := ChannelBinding(number, peer, now + CHANNEL_TTL)];
      a.permissions := a.permissions[peer.address := Permission(peer.address, now + PERMISSION_TTL)];
      Touched(key);
      reply := ReplyWith(Stun.ChannelBind, msg.tid);
    }

    method HandleSend(msg: TurnMessage, client: Endpoint, now: Instant) returns (out: seq<Datagram>)
      requires Indexed()
      ensures out == SendOutput(View(), msg, client, now)
    {
      hide EndpointKey, BuildMessage, FindAttr, PeerOf, RelayOwner, DataIndication, V4OrZero;
      var a := FindByClient(client);
      if a == null {
        return [];
      }
      var peerAttr, dataAttr := msg.Find(XOR_PEER_ADDRESS), msg.Find(DATA);
      if peerAttr.None? || |peerAttr.value| < 8 {
        return [];
      }
      var peer := PeerOf(peerAttr.value);
      if !a.HasPermission(peer.address, now) {
        return [];
      }
      if dataAttr.None? {
        return [];
      }
      var owner := FindByRelay(peer);
      if owner != null {
        var indication := MakeDataIndication(V4OrZero(a.relayedAddr.address), a.relayedAddr.port, dataAttr.value);
        return [Datagram(indication, owner.clientAddr)];
      }
      out := [Datagram(dataAttr.value, peer)];
    }

    method HandlePeerData(data: Octets, peer: Endpoint, relay: Endpoint, now: Instant) returns (out: seq<Datagram>)
      requires Indexed() && forall k :: k in byClient ==> byClient[k].View().ChannelsOk()
      ensures out == PeerDataOutput(View(), data, peer, relay, now)
    {
      hide EndpointKey, BuildMessage, RelayOwner, DataIndication, ChannelFrame, V4OrZero, IndexesAgree, PortsOf;
      hide Record.FindChannelByPeer;
      var a := FindByRelay(relay);
      if a == null {
        return [];
      }
      if !a.HasPermission(peer.address, now) {
        return [];
      }
      var channel := a.FindChannelByPeer(peer, now);
      if channel.Some? {
        var message := MakeChannelData(channel.value.channelNumber, data);
        return [Datagram(message, a.clientAddr)];
      }
      var indication := MakeDataIndication(V4OrZero(peer.address), peer.port, data);
      out := [Datagram(indication, a.clientAddr)];
    }
  }
}
