/** What every request keeps, and what each of them means for the table of allocations. */
module TableInvariants {
  import opened Bytes
  import opened Text
  import opened Stun
  import opened Builder
  import opened ChannelData
  import opened Integrity
  import opened Allocations

  lemma InitialTableOk(cfg: Config)
    ensures TableOk(cfg, INITIAL_TABLE)
  {
    forall u ensures |OwnedBy(map[], u)| <= cfg.maxPerUser {
      assert OwnedBy(map[], u) == {};
    }
  }

  lemma UpdateKeepsQuota(cfg: Config, allocs: map<string, Record>, key: string, r: Record)
    requires QuotaOk(cfg, allocs) && key in allocs && r.username == allocs[key].username
    ensures QuotaOk(cfg, allocs[key := r])
  {
    var allocs' := allocs[key := r];
    forall u ensures |OwnedBy(allocs', u)| <= cfg.maxPerUser {
      assert OwnedBy(allocs', u) == OwnedBy(allocs, u);
    }
  }

  lemma UpdateKeepsDistinct(allocs: map<string, Record>, key: string, r: Record)
    requires Distinct(allocs) && key in allocs
    requires r.id == allocs[key].id && r.relayedAddr == allocs[key].relayedAddr
    ensures Distinct(allocs[key := r])
  {
  }

  /** Replacing one record by one with the same identity and owner. */
  lemma UpdateKeepsTableOk(cfg: Config, t: Table, key: string, r: Record)
    requires TableOk(cfg, t) && key in t.allocs && RecordOk(cfg, key, r)
    requires r.id == t.allocs[key].id && r.username == t.allocs[key].username
    requires r.relayedAddr == t.allocs[key].relayedAddr
    ensures TableOk(cfg, t.(allocs := t.allocs[key := r]))
  {
    UpdateKeepsQuota(cfg, t.allocs, key, r);
    UpdateKeepsDistinct(t.allocs, key, r);
  }

  lemma RemoveKeepsTableOk(cfg: Config, t: Table, key: string)
    requires TableOk(cfg, t)
    ensures TableOk(cfg, t.(allocs := t.allocs - {key}))
  {
    var t' := t.(allocs := t.allocs - {key});
    forall u ensures |OwnedBy(t'.allocs, u)| <= cfg.maxPerUser {
      SubsetSize(OwnedBy(t'.allocs, u), OwnedBy(t.allocs, u));
    }
  }

  lemma {:induction false} SubsetSize<T>(a: set<T>, b: set<T>)
    requires a <= b
    ensures |a| <= |b|
  {
    if a != {} {
      var x :| x in a;
      SubsetSize(a - {x}, b - {x});
    }
  }

  lemma InsertKeepsQuota(cfg: Config, allocs: map<string, Record>, key: string, r: Record)
    requires QuotaOk(cfg, allocs) && key !in allocs && |OwnedBy(allocs, r.username)| < cfg.maxPerUser
    ensures QuotaOk(cfg, allocs[key := r])
  {
    var allocs' := allocs[key := r];
    forall u ensures |OwnedBy(allocs', u)| <= cfg.maxPerUser {
      if u == r.username {
        assert OwnedBy(allocs', u) == OwnedBy(allocs, u) + {key};
      } else {
        assert OwnedBy(allocs', u) == OwnedBy(allocs, u);
      }
    }
  }

  lemma InsertKeepsDistinct(allocs: map<string, Record>, key: string, r: Record)
    requires Distinct(allocs) && r.relayedAddr.port !in RelayPorts(allocs)
    requires forall k :: k in allocs ==> allocs[k].id < r.id
    ensures Distinct(allocs[key := r])
  {
    forall k | k in allocs ensures allocs[k].relayedAddr.port != r.relayedAddr.port {
      assert allocs[k].relayedAddr.port in RelayPorts(allocs);
    }
  }

  lemma InsertKeepsTableOk(cfg: Config, t: Table, key: string, r: Record)
    requires TableOk(cfg, t) && key !in t.allocs && RecordOk(cfg, key, r)
    requires r.id == t.nextId && r.relayedAddr.port !in RelayPorts(t.allocs)
    requires |OwnedBy(t.allocs, r.username)| < cfg.maxPerUser
    ensures TableOk(cfg, Table(t.allocs[key := r], t.nextId + 1))
  {
    InsertKeepsQuota(cfg, t.allocs, key, r);
    InsertKeepsDistinct(t.allocs, key, r);
  }

  /** The port is that of the first draw whose port is free. */
  lemma {:induction false} FirstFreeIsFirst(cfg: Config, draws: seq<u16>, used: set<u16>)
    returns (i: nat)
    requires FirstFree(cfg, draws, used).Some?
    ensures i < |draws| && FirstFree(cfg, draws, used).value == PortAt(cfg, draws[i])
    ensures forall j :: 0 <= j < i ==> PortAt(cfg, draws[j]) in used
  {
    hide PortAt;
    if PortAt(cfg, draws[0]) !in used {
      i := 0;
    } else {
      i := FirstFreeIsFirst(cfg, draws[1..], used);
      i := i + 1;
    }
  }

  lemma DrawnPortInRange(cfg: Config, draw: u16)
    requires draw <= PortSpan(cfg)
    ensures InPortRange(cfg, PortAt(cfg, draw))
  {
  }

  lemma AllocateKeepsTableOk(cfg: Config, t: Table, msg: TurnMessage, client: Endpoint, username: string,
                             realm: string, draws: seq<u16>, now: Instant)
    requires TableOk(cfg, t) && ValidDraws(cfg, draws)
    ensures TableOk(cfg, OnAllocate(cfg, t, msg, client, username, realm, draws, now).0)
  {
    hide EndpointKey, ErrorMessage, BuildMessage, FindAttr, InPortRange, PortAt, AllocateAttrs, RequestedLifetime;
    hide RelayPorts, OwnedBy, FirstFree, Distinct, QuotaOk, IsDeniedAddress, ParseV4, PortSpan;
    if AllocateRefusal(cfg, t, msg, client, username, draws).None? {
      var port := FirstFree(cfg, draws, RelayPorts(t.allocs)).value;
      var d :| d in draws && port == PortAt(cfg, d);
      DrawnPortInRange(cfg, d);
      var t' := Allocated(cfg, t, client, username, realm, port, now + GrantedLifetime(msg) * SECOND);
      InsertKeepsTableOk(cfg, t, EndpointKey(client), t'.allocs[EndpointKey(client)]);
    }
  }

  lemma RefreshKeepsTableOk(cfg: Config, t: Table, msg: TurnMessage, client: Endpoint, username: string, now: Instant)
    requires TableOk(cfg, t)
    ensures TableOk(cfg, OnRefresh(t, msg, client, username, now).0)
  {
    hide EndpointKey, ErrorMessage, BuildMessage, FindAttr, InPortRange;
    var key := EndpointKey(client);
    if key in t.allocs && t.allocs[key].username == username {
      if RequestedLifetime(msg) == 0 {
        RemoveKeepsTableOk(cfg, t, key);
      } else {
        var r := t.allocs[key];
        var r' := r.(expiresAt := now + RequestedLifetime(msg) * SECOND);
        assert r'.PermissionsOk() == r.PermissionsOk() && r'.ChannelsOk() == r.ChannelsOk();
        UpdateKeepsTableOk(cfg, t, key, r');
      }
    }
  }

  // ----- CreatePermission -----

  /** The address attribute i asks for, if it is a well-formed peer address. */
  function Asked(attrs: seq<Attribute>, i: nat): Option<string>
    requires i < |attrs|
  {
    if IsPeerAttr(attrs[i]) then Some(PeerOf(attrs[i].value).address) else None
  }

  ghost predicate DeniedAt(attrs: seq<Attribute>, i: nat) {
    i < |attrs| && Asked(attrs, i).Some? && IsDeniedAddress(Asked(attrs, i).value)
  }

  /** The request asks for this address before any denied one. */
  ghost predicate Installs(attrs: seq<Attribute>, address: string) {
    exists i :: 0 <= i < |attrs| && Asked(attrs, i) == Some(address) && forall j :: 0 <= j <= i ==> !DeniedAt(attrs, j)
  }

  /** Declarative meaning of the loop: exactly the well-formed peers before the first denied one are
      installed, each for 300 seconds from now, and every other permission is as before. */
  lemma {:induction false} InstallPeersMeans(attrs: seq<Attribute>, state: Install, now: Instant)
    requires !state.denied
    ensures var done := InstallPeers(attrs, state, now);
            && (forall a :: a in done.permissions <==> a in state.permissions || Installs(attrs, a))
            && (forall a :: a in done.permissions ==>
                  done.permissions[a] == if Installs(attrs, a) then Permission(a, now + PERMISSION_TTL)
                                         else state.permissions[a])
            && (done.denied <==> exists i :: DeniedAt(attrs, i))
            && (done.found <==> state.found || exists a :: Installs(attrs, a))
  {
    if attrs != [] {
      if IsPeerAttr(attrs[0]) && IsDeniedAddress(PeerOf(attrs[0].value).address) {
        assert DeniedAt(attrs, 0);
      } else {
        DeniedCons(attrs);
        forall a ensures Installs(attrs, a) <==> Asked(attrs, 0) == Some(a) || Installs(attrs[1..], a) {
          InstallsCons(attrs, a);
        }
        var next := if IsPeerAttr(attrs[0]) then
          var address := PeerOf(attrs[0].value).address;
          Install(state.permissions[address := Permission(address, now + PERMISSION_TTL)], true, state.denied)
          else state;
        InstallPeersMeans(attrs[1..], next, now);
      }
    }
  }

  lemma DeniedCons(attrs: seq<Attribute>)
    requires attrs != [] && !DeniedAt(attrs, 0)
    ensures (exists i :: DeniedAt(attrs, i)) <==> exists i :: DeniedAt(attrs[1..], i)
  {
    if i: nat :| DeniedAt(attrs, i) {
      assert DeniedAt(attrs[1..], i - 1);
    }
    if i: nat :| DeniedAt(attrs[1..], i) {
      assert DeniedAt(attrs, i + 1);
    }
  }

  lemma InstallsCons(attrs: seq<Attribute>, a: string)
    requires attrs != [] && !DeniedAt(attrs, 0)
    ensures Installs(attrs, a) <==> Asked(attrs, 0) == Some(a) || Installs(attrs[1..], a)
  {
    hide IsPeerAttr, PeerOf, IsDeniedAddress;
    var rest := attrs[1..];
    forall i: nat | i < |rest| ensures Asked(attrs, i + 1) == Asked(rest, i) {}
    forall i: nat ensures DeniedAt(attrs, i + 1) <==> DeniedAt(rest, i) {}
    if Installs(attrs, a) {
      var i :| 0 <= i < |attrs| && Asked(attrs, i) == Some(a) && forall j :: 0 <= j <= i ==> !DeniedAt(attrs, j);
      if i > 0 {
        assert Asked(rest, i - 1) == Some(a);
        assert forall j :: 0 <= j <= i - 1 ==> !DeniedAt(rest, j) by {
          forall j | 0 <= j <= i - 1 ensures !DeniedAt(rest, j) { assert !DeniedAt(attrs, j + 1); }
        }
      }
    }
    if Installs(rest, a) {
      var i :| 0 <= i < |rest| && Asked(rest, i) == Some(a) && forall j :: 0 <= j <= i ==> !DeniedAt(rest, j);
      assert Asked(attrs, i + 1) == Some(a);
      forall j | 0 <= j <= i + 1 ensures !DeniedAt(attrs, j) {
        if j > 0 { assert !DeniedAt(rest, j - 1); }
      }
    }
    if Asked(attrs, 0) == Some(a) {
      assert forall j :: 0 <= j <= 0 ==> !DeniedAt(attrs, j);
    }
  }

  lemma PeerAddressIsV4(value: Octets)
    requires |value| >= 8
    ensures ParseV4(PeerOf(value).address).Some?
  {
    V4TextRoundTrip(XorAddr(Word32(value[4..8])));
  }

  lemma {:induction false} InstallKeepsPermissions(attrs: seq<Attribute>, r: Record, state: Install, now: Instant)
    requires r.(permissions := state.permissions).PermissionsOk()
    ensures r.(permissions := InstallPeers(attrs, state, now).permissions).PermissionsOk()
  {
    hide PeerOf, IsDeniedAddress, ParseV4;
    if attrs != [] {
      if !IsPeerAttr(attrs[0]) {
        InstallKeepsPermissions(attrs[1..], r, state, now);
      } else if !IsDeniedAddress(PeerOf(attrs[0].value).address) {
        var address := PeerOf(attrs[0].value).address;
        PeerAddressIsV4(attrs[0].value);
        var p := Permission(address, now + PERMISSION_TTL);
        var next := Install(state.permissions[address := p], true, state.denied);
        InstallKeepsPermissions(attrs[1..], r, next, now);
      }
    }
  }

  lemma CreatePermissionKeepsTableOk(cfg: Config, t: Table, msg: TurnMessage, client: Endpoint, now: Instant)
    requires TableOk(cfg, t)
    ensures TableOk(cfg, OnCreatePermission(t, msg, client, now).0)
  {
    var key := EndpointKey(client);
    if key in t.allocs {
      var r := t.allocs[key];
      var start := Install(r.permissions, false, false);
      assert r.(permissions := start.permissions) == r;
      InstallKeepsPermissions(msg.attributes, r, start, now);
      var r' := r.(permissions := InstallPeers(msg.attributes, start, now).permissions);
      assert r'.ChannelsOk() == r.ChannelsOk();
      UpdateKeepsTableOk(cfg, t, key, r');
    }
  }

  lemma BoundKeepsRecordOk(r: Record, n: u16, peer: Endpoint, now: Instant)
    requires r.PermissionsOk() && r.ChannelsOk() && IsChannelNumber(n) && !BindConflict(r, n, peer)
    requires ParseV4(peer.address).Some? && !IsDeniedAddress(peer.address)
    ensures Bound(r, n, peer, now).PermissionsOk() && Bound(r, n, peer, now).ChannelsOk()
  {
  }

  lemma ChannelBindKeepsTableOk(cfg: Config, t: Table, msg: TurnMessage, client: Endpoint, now: Instant)
    requires TableOk(cfg, t)
    ensures TableOk(cfg, OnChannelBind(t, msg, client, now).0)
  {
    var key := EndpointKey(client);
    if key in t.allocs && BindRequest(msg).Some? {
      var (n, peer) := BindRequest(msg).value;
      if !IsDeniedAddress(peer.address) && !BindConflict(t.allocs[key], n, peer) {
        PeerAddressIsV4(msg.Find(XOR_PEER_ADDRESS).value);
        BoundKeepsRecordOk(t.allocs[key], n, peer, now);
        UpdateKeepsTableOk(cfg, t, key, Bound(t.allocs[key], n, peer, now));
      }
    }
  }

  // ----- which peers are denied -----

  predicate InBlock(ip: u32, low: u32, high: u32) { low <= ip <= high }

  /** The private addresses of RFC 1918. */
  predicate IsPrivate(ip: u32) {
    InBlock(ip, 0x0A000000, 0x0AFFFFFF) || InBlock(ip, 0xAC100000, 0xAC1FFFFF) || InBlock(ip, 0xC0A80000, 0xC0A8FFFF)
  }

  /** Not every private address is denied: exactly those outside 192.168.0.0/16 are, and no other address is. */
  lemma DeniedMeans(ip: u32)
    ensures IsDeniedAddress(FormatV4(ip)) <==> IsPrivate(ip) && !InBlock(ip, 0xC0A80000, 0xC0A8FFFF)
  {
    hide ParseV4, FormatV4;
    V4TextRoundTrip(ip);
    if IsPrivate(ip) && !InBlock(ip, 0xC0A80000, 0xC0A8FFFF) {
      var i := if ip <= 0x0AFFFFFF then 0 else 1;
      assert DENIED_RANGES[i].0 <= ip <= DENIED_RANGES[i].1;
    }
  }

  /** A CreatePermission that names one peer, among whatever other attributes, permits it if and only if its
      address is not denied; in particular it permits the private address 192.168.1.1. */
  lemma OnePeerInstalled(t: Table, msg: TurnMessage, client: Endpoint, now: Instant, i: nat, ip: u32, port: u16)
    requires EndpointKey(client) in t.allocs && FormatV4(ip) !in t.allocs[EndpointKey(client)].permissions
    requires i < |msg.attributes| && msg.attributes[i] == Attribute(XOR_PEER_ADDRESS, XorAddressValue(ip, port))
    requires forall j :: 0 <= j < |msg.attributes| && j != i ==> !IsPeerAttr(msg.attributes[j])
    ensures var key, t' := EndpointKey(client), OnCreatePermission(t, msg, client, now).0;
            && (t'.allocs[key].HasPermission(FormatV4(ip), now) <==> !IsDeniedAddress(FormatV4(ip)))
            && (ip == 0xC0A80101 ==> t'.allocs[key].HasPermission("192.168.1.1", now))
  {
    hide EndpointKey, ParseV4, FormatV4, XorAddressValue, PeerOf, IsDeniedAddress, ErrorMessage, BuildMessage;
    hide InstallPeers;
    var address := FormatV4(ip);
    PeerOfXorAddress(ip, port);
    InstallPeersMeans(msg.attributes, Install(t.allocs[EndpointKey(client)].permissions, false, false), now);
    assert Asked(msg.attributes, i) == Some(address);
    assert forall j: nat :: j < |msg.attributes| && j != i ==> Asked(msg.attributes, j) == None;
    assert DeniedAt(msg.attributes, i) == IsDeniedAddress(address);
    if ip == 0xC0A80101 {
      DeniedMeans(ip);
      PrivateText();
    }
  }

  lemma PrivateText()
    ensures FormatV4(0xC0A80101) == "192.168.1.1"
  {
    assert Be32(0xC0A80101) == [192, 168, 1, 1];
    OctetTexts();
    hide Dec, Be32;
    JoinCons("1", 1, [1]);
    JoinCons("168", 168, [1, 1]);
    JoinCons("192", 192, [168, 1, 1]);
    assert [192] + [168, 1, 1] == [192, 168, 1, 1] && [168] + [1, 1] == [168, 1, 1] && [1] + [1] == [1, 1];
  }

  lemma OctetTexts()
    ensures Dec(192) == "192" && Dec(168) == "168" && Dec(1) == "1"
  {
  }

  // ----- what a request undoes or opens -----

  /** A Refresh with lifetime 0 takes back an Allocate: the same allocations, the same free ports. */
  lemma ReleaseUndoesAllocate(cfg: Config, t: Table, msg: TurnMessage, client: Endpoint, username: string,
                              realm: string, draws: seq<u16>, now: Instant, release: TurnMessage, later: Instant)
    requires AllocateRefusal(cfg, t, msg, client, username, draws).None? && RequestedLifetime(release) == 0
    ensures var granted := OnAllocate(cfg, t, msg, client, username, realm, draws, now).0;
            var released := OnRefresh(granted, release, client, username, later).0;
            && granted.allocs != t.allocs && released.allocs == t.allocs
            && RelayPorts(released.allocs) == RelayPorts(t.allocs)
  {
    hide EndpointKey, ErrorMessage, BuildMessage, FindAttr, FirstFree, OwnedBy, RelayPorts, RequestedLifetime;
    hide AllocateAttrs;
    var key := EndpointKey(client);
    var granted := OnAllocate(cfg, t, msg, client, username, realm, draws, now).0;
    assert key in granted.allocs && key !in t.allocs;
    assert granted.allocs - {key} == t.allocs;
  }

  /** A binding that is granted opens the channel for 600 seconds and the permission for 300, and touches
      no other channel or permission. */
  lemma BindOpensChannel(r: Record, n: u16, peer: Endpoint, now: Instant, later: Instant)
    requires r.ChannelsOk() && !BindConflict(r, n, peer)
    ensures var r' := Bound(r, n, peer, now);
            && r'.BoundTo(n, peer)
            && (r'.HasPermission(peer.address, later) <==> later < now + PERMISSION_TTL)
            && (r'.FindChannelByNumber(n, later).Some? <==> later < now + CHANNEL_TTL)
            && (forall m: u16, p :: (m, p) != (n, peer) ==> (r'.BoundTo(m, p) <==> r.BoundTo(m, p)))
            && (forall a :: a != peer.address ==> (r'.HasPermission(a, later) <==> r.HasPermission(a, later)))
  {
  }

  // ----- consequences -----

  /** A relayed address has one owner, so the choice in RelayOwner is no choice. */
  lemma RelayOwnerUnique(cfg: Config, t: Table, key: string)
    requires TableOk(cfg, t) && key in t.allocs
    ensures RelayOwner(t, t.allocs[key].relayedAddr) == Some(key)
  {
  }

  /** Likewise for the channel bound to a peer. */
  lemma ChannelToUnique(r: Record, n: u16)
    requires r.ChannelsOk() && n in r.channels
    ensures ChannelTo(r, r.channels[n].peer) == Some(n)
  {
    assert r.BoundTo(n, r.channels[n].peer);
  }

  lemma {:induction false} InjectiveSize<K, V>(keys: set<K>, f: map<K, V>, range: set<V>)
    requires keys <= f.Keys && forall k :: k in keys ==> f[k] in range
    requires forall j, k :: j in keys && k in keys && f[j] == f[k] ==> j == k
    ensures |keys| <= |range|
  {
    if keys != {} {
      var k :| k in keys;
      InjectiveSize(keys - {k}, f, range - {f[k]});
    }
  }

  ghost function PortsFrom(cfg: Config, n: nat): (ports: set<u16>)
    requires n <= 0x1_0000
    ensures |ports| <= n
    ensures forall d: u16 :: d < n ==> PortAt(cfg, d) in ports
  {
    if n == 0 then {} else PortsFrom(cfg, n - 1) + {PortAt(cfg, n - 1)}
  }

  lemma PortIsDrawn(cfg: Config, port: u16)
    requires InPortRange(cfg, port)
    ensures var d: u16 := (port as int - cfg.portMin as int) % 0x1_0000; d <= PortSpan(cfg) && PortAt(cfg, d) == port
  {
  }

  /** There are never more allocations than ports in the configured range. */
  lemma AllocationsBounded(cfg: Config, t: Table)
    requires TableOk(cfg, t)
    ensures |t.allocs| <= PortSpan(cfg) as int + 1
  {
    var ports := PortsFrom(cfg, PortSpan(cfg) as int + 1);
    var portOf := map k | k in t.allocs :: t.allocs[k].relayedAddr.port;
    forall k | k in t.allocs ensures portOf[k] in ports {
      PortIsDrawn(cfg, portOf[k]);
    }
    InjectiveSize(t.allocs.Keys, portOf, ports);
  }
}
