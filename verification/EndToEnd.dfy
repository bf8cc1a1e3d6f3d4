/** What the two ends see: relayed data and replies, as bytes that parse again. */
module EndToEnd {
  import opened Bytes
  import opened Text
  import opened Stun
  import opened StunCodec
  import opened Builder
  import opened ChannelData
  import opened Credentials
  import opened Integrity
  import opened Allocations
  import opened TableInvariants
  import opened TurnServer

  // ----- channels -----

  /** Client a has bound channel x to the relayed address of client b. */
  ghost predicate ChannelBetween(t: Table, a: Endpoint, x: u16, b: Endpoint) {
    var ka, kb := EndpointKey(a), EndpointKey(b);
    ka in t.allocs && kb in t.allocs && t.allocs[ka].BoundTo(x, t.allocs[kb].relayedAddr)
  }

  lemma ChannelRelay(env: Env, s: Server, a: Endpoint, x: u16, b: Endpoint, y: u16, p: Packet, data: Octets)
    requires ServerOk(env, s) && ChannelBetween(s.table, a, x, b) && ChannelBetween(s.table, b, y, a)
    requires p.from == a && ParseChannelData(p.raw) == ChannelData.Ok(x, data)
    ensures OnPacket(env, s, p)
         == (s, if s.table.allocs[EndpointKey(a)].HasPermission(env.cfg.relayAddress, p.now)
                then [Datagram(ChannelFrame(y, data), b)] else [])
    ensures ParseChannelData(ChannelFrame(y, data)) == ChannelData.Ok(y, data)
  {
    hide EndpointKey, OnStun, ChannelFrame, ParseChannelData, DataIndication, ParseV4, QuotaOk, Distinct;
    var ka, kb := EndpointKey(a), EndpointKey(b);
    var ra, rb := s.table.allocs[ka], s.table.allocs[kb];
    ParsedFrame(p.raw);
    ChannelDataRoundTrip(y, data);
    RelayOwnerUnique(env.cfg, s.table, kb);
    ChannelToUnique(rb, y);
    assert rb.clientAddr == b by { EndpointKeyInjective(rb.clientAddr, b); }
  }

  /** In particular a channel whose binding has expired is used as long as the permission is live, although a
      lookup of the channel by its number finds nothing any more. */
  lemma ExpiredChannelRelays(env: Env, s: Server, a: Endpoint, x: u16, b: Endpoint, y: u16, p: Packet, data: Octets)
    requires ServerOk(env, s) && ChannelBetween(s.table, a, x, b) && ChannelBetween(s.table, b, y, a)
    requires p.from == a && ParseChannelData(p.raw) == ChannelData.Ok(x, data)
    requires s.table.allocs[EndpointKey(a)].channels[x].expiresAt <= p.now
    requires s.table.allocs[EndpointKey(a)].HasPermission(env.cfg.relayAddress, p.now)
    ensures s.table.allocs[EndpointKey(a)].FindChannelByNumber(x, p.now).None?
    ensures OnPacket(env, s, p) == (s, [Datagram(ChannelFrame(y, data), b)])
  {
    hide ServerOk, OnPacket, ChannelFrame, ParseChannelData, EndpointKey;
    ChannelRelay(env, s, a, x, b, y, p, data);
  }

  /** A packet that parses as ChannelData, padded or not, is recognised by its first byte. */
  lemma ParsedFrame(raw: Octets)
    requires ParseChannelData(raw).Ok?
    ensures raw != [] && raw[0] / 0x40 == 1
    ensures IsChannelNumber(ParseChannelData(raw).number) && |ParseChannelData(raw).data| < 0x1_0000
  {
    hide Value;
    Word16Is(raw[0], raw[1]);
  }

  /** Channel relaying is symmetric: when two clients have bound channels to each other's relayed address, a
      frame on the one channel reaches the other client as the same payload on the other channel, and back,
      exactly as long as the sender's permission for the relay address is live. */
  lemma ChannelsSymmetric(env: Env, s: Server, a: Endpoint, x: u16, b: Endpoint, y: u16,
                          there: Packet, back: Packet, data: Octets, answer: Octets)
    requires ServerOk(env, s) && ChannelBetween(s.table, a, x, b) && ChannelBetween(s.table, b, y, a)
    requires there.from == a && ParseChannelData(there.raw) == ChannelData.Ok(x, data)
    requires back.from == b && ParseChannelData(back.raw) == ChannelData.Ok(y, answer)
    ensures OnPacket(env, s, there).0 == OnPacket(env, s, back).0 == s
    ensures OnPacket(env, s, there).1 == [Datagram(ChannelFrame(y, data), b)]
            <==> s.table.allocs[EndpointKey(a)].HasPermission(env.cfg.relayAddress, there.now)
    ensures OnPacket(env, s, back).1 == [Datagram(ChannelFrame(x, answer), a)]
            <==> s.table.allocs[EndpointKey(b)].HasPermission(env.cfg.relayAddress, back.now)
    ensures ParseChannelData(ChannelFrame(y, data)) == ChannelData.Ok(y, data)
    ensures ParseChannelData(ChannelFrame(x, answer)) == ChannelData.Ok(x, answer)
  {
    hide EndpointKey, OnPacket, ChannelFrame, ParseChannelData, ServerOk;
    ChannelRelay(env, s, a, x, b, y, there, data);
    ChannelRelay(env, s, b, y, a, x, back, answer);
  }

  /** Without a channel back, the other client hears a Data indication from the sender's relayed address. The
      sizes for which it can read the payload leave out 65517 to 65532 bytes, which ChannelData can carry. */
  lemma ChannelBecomesData(env: Env, s: Server, a: Endpoint, x: u16, b: Endpoint, p: Packet, data: Octets)
    requires ServerOk(env, s) && ChannelBetween(s.table, a, x, b)
    requires ChannelTo(s.table.allocs[EndpointKey(b)], s.table.allocs[EndpointKey(a)].relayedAddr).None?
    requires s.table.allocs[EndpointKey(a)].HasPermission(env.cfg.relayAddress, p.now)
    requires p.from == a && ParseChannelData(p.raw) == ChannelData.Ok(x, data)
    ensures var (s', out) := OnPacket(env, s, p);
            && s' == s && |out| == 1 && out[0].to == b
            && (ShowsData(out[0].payload, s.table.allocs[EndpointKey(a)].relayedAddr, data)
                <==> IndicationReadable(|data|))
  {
    hide EndpointKey, OnStun, ParseChannelData, DataIndication, ParseV4, FormatV4, QuotaOk, Distinct, ShowsData;
    hide ChannelTo;
    hide IsDeniedAddress, BytesOf;
    var ka, kb := EndpointKey(a), EndpointKey(b);
    var ra, rb := s.table.allocs[ka], s.table.allocs[kb];
    ParsedFrame(p.raw);
    RelayOwnerUnique(env.cfg, s.table, kb);
    assert rb.clientAddr == b by { EndpointKeyInjective(rb.clientAddr, b); }
    assert ParseV4(rb.relayedAddr.address).Some?;
    var ip := ParseV4(ra.relayedAddr.address).value;
    V4TextIsCanonical(ra.relayedAddr.address);
    IndicationShowsData(ip, ra.relayedAddr.port, data);
  }

  /** The request binds this channel to this peer, and the allocation of its sender can take it. */
  ghost predicate Binds(t: Table, msg: TurnMessage, client: Endpoint, n: u16, peer: Endpoint) {
    && EndpointKey(client) in t.allocs && BindRequest(msg) == Some((n, peer))
    && !IsDeniedAddress(peer.address) && !BindConflict(t.allocs[EndpointKey(client)], n, peer)
  }

  lemma BindGranted(t: Table, msg: TurnMessage, client: Endpoint, n: u16, peer: Endpoint, now: Instant)
    requires Binds(t, msg, client, n, peer)
    ensures var key := EndpointKey(client);
            OnChannelBind(t, msg, client, now).0 == t.(allocs := t.allocs[key := Bound(t.allocs[key], n, peer, now)])
  {
    hide EndpointKey, BindRequest, BindConflict, IsDeniedAddress, ErrorMessage, BuildMessage, Bound;
  }

  /** From requests to data: once two clients have bound channels to each other's relayed addresses, at times
      ta and tb, frames pass both ways, each for 300 seconds after its sender's request. */
  lemma BoundChannelsRelay(env: Env, s: Server, a: Endpoint, ma: TurnMessage, x: u16, ta: Instant,
                           b: Endpoint, mb: TurnMessage, y: u16, tb: Instant,
                           there: Packet, back: Packet, data: Octets, answer: Octets)
    requires ServerOk(env, s) && a != b && EndpointKey(a) in s.table.allocs && EndpointKey(b) in s.table.allocs
    requires Binds(s.table, ma, a, x, s.table.allocs[EndpointKey(b)].relayedAddr)
    requires Binds(s.table, mb, b, y, s.table.allocs[EndpointKey(a)].relayedAddr)
    requires there.from == a && ParseChannelData(there.raw) == ChannelData.Ok(x, data)
    requires back.from == b && ParseChannelData(back.raw) == ChannelData.Ok(y, answer)
    ensures var t1 := OnChannelBind(s.table, ma, a, ta).0;
            var s' := s.(table := OnChannelBind(t1, mb, b, tb).0);
            && (OnPacket(env, s', there).1 == [Datagram(ChannelFrame(y, data), b)] <==> there.now < ta + PERMISSION_TTL)
            && (OnPacket(env, s', back).1 == [Datagram(ChannelFrame(x, answer), a)] <==> back.now < tb + PERMISSION_TTL)
  {
    hide EndpointKey, BindRequest, BindConflict, IsDeniedAddress, OnPacket, ChannelFrame, ParseChannelData, Bound;
    hide OnChannelBind;
    hide TableOk, RecordOk, OwnersNamed, Record.ChannelsOk;
    var ka, kb := EndpointKey(a), EndpointKey(b);
    var ra, rb := s.table.allocs[ka], s.table.allocs[kb];
    var t1 := OnChannelBind(s.table, ma, a, ta).0;
    if ka == kb { EndpointKeyInjective(a, b); }
    RecordsOk(env, s, ka);
    RecordsOk(env, s, kb);
    BindGranted(s.table, ma, a, x, rb.relayedAddr, ta);
    BindGranted(t1, mb, b, y, ra.relayedAddr, tb);
    BoundSame(ra, x, rb.relayedAddr, ta);
    BoundSame(rb, y, ra.relayedAddr, tb);
    BindOpensChannel(ra, x, rb.relayedAddr, ta, there.now);
    BindOpensChannel(rb, y, ra.relayedAddr, tb, back.now);
    BothBindsKeepOk(env, s, ma, a, ta, mb, b, tb);
    ChannelsSymmetric(env, s.(table := OnChannelBind(t1, mb, b, tb).0), a, x, b, y, there, back, data, answer);
  }

  lemma BoundSame(r: Record, n: u16, peer: Endpoint, now: Instant)
    ensures Bound(r, n, peer, now).relayedAddr == r.relayedAddr && Bound(r, n, peer, now).username == r.username
  {
  }

  lemma RecordsOk(env: Env, s: Server, k: string)
    requires ServerOk(env, s) && k in s.table.allocs
    ensures s.table.allocs[k].ChannelsOk() && s.table.allocs[k].PermissionsOk()
    ensures s.table.allocs[k].relayedAddr.address == env.cfg.relayAddress
  {
    hide EndpointKey, QuotaOk, Distinct, InPortRange, Record.PermissionsOk, Record.ChannelsOk, OwnersNamed;
    assert RecordOk(env.cfg, k, s.table.allocs[k]);
  }

  lemma BothBindsKeepOk(env: Env, s: Server, ma: TurnMessage, a: Endpoint, ta: Instant, mb: TurnMessage, b: Endpoint,
      tb: Instant)
    requires ServerOk(env, s)
    ensures ServerOk(env, s.(table := OnChannelBind(OnChannelBind(s.table, ma, a, ta).0, mb, b, tb).0))
  {
    hide TableOk, EndpointKey, BindRequest, BindConflict, IsDeniedAddress, ErrorMessage, BuildMessage;
    var t1 := OnChannelBind(s.table, ma, a, ta).0;
    ChannelBindKeepsTableOk(env.cfg, s.table, ma, a, ta);
    ChannelBindKeepsTableOk(env.cfg, t1, mb, b, tb);
  }

  // ----- Send and Data -----

  lemma {:induction false} OneValueFits(raw: Octets, offset: nat, end: int, typ: u16)
    requires offset <= |raw| && end <= |raw| && FindAttr(ParseFrom(raw, offset, end), typ).Some?
    ensures |FindAttr(ParseFrom(raw, offset, end), typ).value| + 4 <= |raw| - offset
    decreases |raw| - offset
  {
    hide Padding;
    FindAttrCons(AttrAt(raw, offset), ParseFrom(raw, NextAt(raw, offset), end), typ);
    if TypeAt(raw, offset) != typ {
      OneValueFits(raw, NextAt(raw, offset), end, typ);
    }
  }

  /** Two attributes of a parsed message fit the packet side by side. */
  lemma {:induction false} TwoValuesFit(raw: Octets, offset: nat, end: int, t1: u16, t2: u16)
    requires offset <= |raw| && end <= |raw| && t1 != t2
    requires FindAttr(ParseFrom(raw, offset, end), t1).Some? && FindAttr(ParseFrom(raw, offset, end), t2).Some?
    ensures |FindAttr(ParseFrom(raw, offset, end), t1).value| + |FindAttr(ParseFrom(raw, offset, end), t2).value| + 8
         <= |raw| - offset
    decreases |raw| - offset
  {
    hide Padding;
    var next := NextAt(raw, offset);
    var more := ParseFrom(raw, next, end);
    FindAttrCons(AttrAt(raw, offset), more, t1);
    FindAttrCons(AttrAt(raw, offset), more, t2);
    if TypeAt(raw, offset) == t1 {
      OneValueFits(raw, next, end, t2);
    } else if TypeAt(raw, offset) == t2 {
      OneValueFits(raw, next, end, t1);
    } else {
      TwoValuesFit(raw, next, end, t1, t2);
    }
  }

  /** The largest packet whose length field is a multiple of four. */
  const LARGEST_PACKET := 20 + 0xFFFC

  lemma SendPayloadReadable(raw: Octets)
    requires ParseMessage(raw).Ok? && SendRequest(ParseMessage(raw).msg).Some?
    ensures |SendRequest(ParseMessage(raw).msg).value.1| < 0x1_0000
    ensures |raw| <= LARGEST_PACKET ==> IndicationReadable(|SendRequest(ParseMessage(raw).msg).value.1|)
  {
    hide PeerOf, DecodeMethod, DecodeClass;
    var msg := ParseMessage(raw).msg;
    TwoValuesFit(raw, 20, 20 + msg.length as int, XOR_PEER_ADDRESS, DATA);
    ParsedSized(raw, 20, 20 + msg.length as int, DATA);
  }

  lemma {:induction false} ParsedSized(raw: Octets, offset: nat, end: int, typ: u16)
    requires end <= |raw| && FindAttr(ParseFrom(raw, offset, end), typ).Some?
    ensures |FindAttr(ParseFrom(raw, offset, end), typ).value| < 0x1_0000
    decreases |raw| - offset
  {
    hide Padding;
    FindAttrCons(AttrAt(raw, offset), ParseFrom(raw, NextAt(raw, offset), end), typ);
    if TypeAt(raw, offset) != typ {
      ParsedSized(raw, NextAt(raw, offset), end, typ);
    }
  }

  /** The datagram is a Data indication showing this endpoint and payload to the parser. */
  ghost predicate ShowsData(d: Octets, from: Endpoint, data: Octets) {
    && ParseMessage(d).Ok?
    && var msg := ParseMessage(d).msg;
    && msg.kind == Data && msg.msgClass == Indication && msg.Find(DATA) == Some(data)
    && msg.Find(XOR_PEER_ADDRESS).Some? && |msg.Find(XOR_PEER_ADDRESS).value| >= 8
    && PeerOf(msg.Find(XOR_PEER_ADDRESS).value) == from
  }

  /** No attribute of a message can hold more than its 16-bit length says. */
  lemma ShownDataFits(d: Octets, from: Endpoint, data: Octets)
    requires ShowsData(d, from, data)
    ensures |data| < 0x1_0000
  {
    hide PeerOf, DecodeMethod, DecodeClass;
    var msg := ParseMessage(d).msg;
    ParsedSized(d, 20, 20 + msg.length as int, DATA);
  }

  lemma IndicationShowsData(ip: u32, port: u16, data: Octets)
    ensures ShowsData(DataIndication(ip, port, data), Endpoint(FormatV4(ip), port), data)
        <==> IndicationReadable(|data|)
  {
    hide ShowsData, IndicationReadable;
    if |data| < 0x1_0000 {
      SizedIndicationShowsData(ip, port, data);
    } else {
      if ShowsData(DataIndication(ip, port, data), Endpoint(FormatV4(ip), port), data) {
        ShownDataFits(DataIndication(ip, port, data), Endpoint(FormatV4(ip), port), data);
      }
      TooLargeIsUnreadable(|data|);
    }
  }

  lemma TooLargeIsUnreadable(n: nat)
    requires n >= 0x1_0000
    ensures !IndicationReadable(n)
  {
  }

  lemma SizedIndicationShowsData(ip: u32, port: u16, data: Octets)
    requires |data| < 0x1_0000
    ensures ShowsData(DataIndication(ip, port, data), Endpoint(FormatV4(ip), port), data)
        <==> IndicationReadable(|data|)
  {
    hide XorAddressValue, DataIndication, PeerOf, FormatV4, ParseMessage;
    var peer := Attribute(XOR_PEER_ADDRESS, XorAddressValue(ip, port));
    var attrs := DataAttrs(ip, port, data);
    DataIndicationParses(ip, port, data);
    PeerOfXorAddress(ip, port);
    assert attrs == [peer] + [Attribute(DATA, data)] && [Attribute(DATA, data)] == [Attribute(DATA, data)] + [];
    FindAttrCons(peer, [Attribute(DATA, data)], XOR_PEER_ADDRESS);
    FindAttrCons(peer, [Attribute(DATA, data)], DATA);
    FindAttrCons(Attribute(DATA, data), [], DATA);
    if !IndicationReadable(|data|) {
      UnreadableHidesData(ip, port, data);
    }
  }

  /** A payload of 65520 bytes fits a ChannelData message but not the Data indication made of it. */
  lemma LongPayloadIsHidden(ip: u32, port: u16)
    ensures |Zeros(65520)| < 0x1_0000
    ensures !ShowsData(DataIndication(ip, port, Zeros(65520)), Endpoint(FormatV4(ip), port), Zeros(65520))
  {
    hide ShowsData, DataIndication, FormatV4, Zeros;
    IndicationShowsData(ip, port, Zeros(65520));
  }

  /** For the other sizes the wrapped length field hides the DATA attribute. */
  lemma UnreadableHidesData(ip: u32, port: u16, data: Octets)
    requires |data| < 0x1_0000 && !IndicationReadable(|data|)
    ensures ParseMessage(DataIndication(ip, port, data)).Ok?
    ensures ParseMessage(DataIndication(ip, port, data)).msg.Find(DATA).None?
  {
    hide XorAddressValue, ParseMessage, EncodeAttr, Frame;
    var attrs := DataAttrs(ip, port, data);
    var length := |EncodeAttrs(attrs)| % 0x1_0000;
    DataAttrsSize(ip, port, data);
    ReadableSizes(|data|);
    BuildThenParse(Data, Indication, ZERO_TID, attrs);
    AttrSize(attrs[0]);
    assert length - |EncodeAttr(attrs[0])| < 4;
    var visible := TruncatedAll(Visible(attrs, length));
    assert |visible| <= 1 && (visible != [] ==> visible[0].typ == XOR_PEER_ADDRESS);
    assert visible == [] || (visible[1..] == [] && FindAttr(visible[1..], DATA) == None);
    assert FindAttr(visible, DATA) == None;
  }

  /** A Send indication to the relayed address of another client, under a live permission, reaches that
      client as one Data indication with the same payload, coming from the sender's relayed address. The
      sizes for which the receiver can read it include all that fit a packet of regular length. */
  lemma SendBecomesData(env: Env, s: Server, p: Packet, msg: TurnMessage, data: Octets, b: Endpoint)
    requires ServerOk(env, s) && EndpointKey(p.from) in s.table.allocs && EndpointKey(b) in s.table.allocs
    requires ParseMessage(p.raw) == Stun.Ok(msg) && msg.kind == Send && msg.msgClass == Indication
    requires SendRequest(msg) == Some((s.table.allocs[EndpointKey(b)].relayedAddr, data))
    requires s.table.allocs[EndpointKey(p.from)].HasPermission(env.cfg.relayAddress, p.now)
    ensures var (s', out) := OnPacket(env, s, p);
            && s' == s && |out| == 1 && out[0].to == b
            && (ShowsData(out[0].payload, s.table.allocs[EndpointKey(p.from)].relayedAddr, data)
                <==> IndicationReadable(|data|))
            && (|p.raw| <= LARGEST_PACKET ==> IndicationReadable(|data|))
  {
    hide EndpointKey, ParseMessage, SendRequest, ParseV4, QuotaOk, Distinct, ShowsData, DataIndication, FormatV4;
    var ka, kb := EndpointKey(p.from), EndpointKey(b);
    var ra, rb := s.table.allocs[ka], s.table.allocs[kb];
    FirstByteOfStun(p.raw);
    SendPayloadReadable(p.raw);
    RelayOwnerUnique(env.cfg, s.table, kb);
    assert rb.clientAddr == b by { EndpointKeyInjective(rb.clientAddr, b); }
    RelayAddressIsV4(msg, env.cfg.relayAddress);
    IndicationShowsData(V4OrZero(env.cfg.relayAddress), ra.relayedAddr.port, data);
  }

  /** Data from a peer reaches the client behind the relayed address exactly if the peer's address is permitted:
      on the channel bound to that very endpoint if it is live, readable up to 65535 bytes, and otherwise as one
      Data indication naming it, readable for the sizes that such indications can show. */
  lemma PeerDataReachesClient(env: Env, s: Server, e: Event, key: string)
    requires ServerOk(env, s) && e.FromPeer? && key in s.table.allocs && s.table.allocs[key].relayedAddr == e.relay
    ensures var r, (s', out) := s.table.allocs[key], Step(env, s, e);
      && s' == s
      && (!r.HasPermission(e.peer.address, e.at) ==> out == [])
      && (r.HasPermission(e.peer.address, e.at) ==>
            && |out| == 1 && out[0].to == r.clientAddr
            && (forall n :: r.LiveBinding(n, e.peer, e.at) ==>
                  (ParseChannelData(out[0].payload) == ChannelData.Ok(n, e.data) <==> |e.data| < 0x1_0000))
            && ((forall n :: !r.LiveBinding(n, e.peer, e.at)) ==>
                  (ShowsData(out[0].payload, e.peer, e.data) <==> IndicationReadable(|e.data|))))
  {
    hide EndpointKey, DataIndication, ChannelFrame, ParseChannelData, ParseV4, FormatV4, QuotaOk, Distinct, ShowsData;
    hide IsDeniedAddress, IndicationReadable, OwnersNamed, Record.FindChannelByPeer, TableOk, RecordOk;
    hide Record.ChannelsOk, Record.PermissionsOk, RelayOwner;
    var r := s.table.allocs[key];
    RelayOwnerUnique(env.cfg, s.table, key);
    RecordsOk(env, s, key);
    if r.HasPermission(e.peer.address, e.at) {
      PermittedIsV4(r, e.peer.address, e.at);
      V4TextIsCanonical(e.peer.address);
      IndicationShowsData(ParseV4(e.peer.address).value, e.peer.port, e.data);
      LiveChannelFound(r, e.peer, e.at);
      forall n | r.LiveBinding(n, e.peer, e.at)
        ensures r.FindChannelByPeer(e.peer, e.at) == Some(r.channels[n])
        ensures r.channels[n].channelNumber == n && IsChannelNumber(n)
      {
        LiveChannelIs(r, n, e.peer, e.at);
      }
      forall n: u16 ensures ParseChannelData(ChannelFrame(n, e.data)) == ChannelData.Ok(n, e.data)
                            <==> IsChannelNumber(n) && |e.data| < 0x1_0000
      {
        ChannelDataRoundTrip(n, e.data);
      }
    }
  }

  lemma LiveChannelIs(r: Record, n: u16, peer: Endpoint, now: Instant)
    requires r.ChannelsOk() && r.LiveBinding(n, peer, now)
    ensures r.FindChannelByPeer(peer, now) == Some(r.channels[n])
    ensures r.channels[n].channelNumber == n && IsChannelNumber(n)
  {
    hide ParseV4, IsDeniedAddress;
    r.ChannelLookupsInverse(peer, r.channels[n], now);
  }

  lemma PermittedIsV4(r: Record, address: string, now: Instant)
    requires r.PermissionsOk() && r.HasPermission(address, now)
    ensures ParseV4(address).Some?
  {
    hide ParseV4, IsDeniedAddress;
  }

  lemma LiveChannelFound(r: Record, peer: Endpoint, now: Instant)
    ensures r.FindChannelByPeer(peer, now).None? <==> forall n :: !r.LiveBinding(n, peer, now)
  {
  }

  lemma FirstByteOfStun(raw: Octets)
    requires ParseMessage(raw).Ok?
    ensures raw != [] && raw[0] / 0x40 == 0
  {
  }

  /** A relay address that a Send indication can name is IPv4 text, and is written out exactly. */
  lemma RelayAddressIsV4(msg: TurnMessage, address: string)
    requires SendRequest(msg).Some? && SendRequest(msg).value.0.address == address
    ensures FormatV4(V4OrZero(address)) == address
  {
    hide FormatV4, ParseV4, FindAttr;
    V4TextRoundTrip(XorAddr(Word32(msg.Find(XOR_PEER_ADDRESS).value[4..8])));
  }

  // ----- replies -----

  /** Attributes that leave room for the digest and carry none yet. */
  ghost predicate Signable(attrs: seq<Attribute>) {
    Sized(attrs) && |EncodeAttrs(attrs)| <= 1000 && FindAttr(attrs, MESSAGE_INTEGRITY).None?
  }

  /** The reply to an authenticated request is an error of method Allocate, or a success of its own method. */
  ghost predicate SuccessReply(msg: TurnMessage, reply: Octets, attrs: seq<Attribute>) {
    reply == BuildMessage(msg.kind, SuccessResponse, msg.tid, attrs) && Signable(attrs)
  }

  lemma SmallAttrs(a: Attribute, more: seq<Attribute>)
    requires |a.value| <= 8 && a.typ != MESSAGE_INTEGRITY && Sized(more) && FindAttr(more, MESSAGE_INTEGRITY).None?
    ensures Sized([a] + more) && FindAttr([a] + more, MESSAGE_INTEGRITY).None?
    ensures |EncodeAttrs([a] + more)| <= 16 + |EncodeAttrs(more)|
  {
    hide EncodeAttr;
    AttrSize(a);
    FindAttrCons(a, more, MESSAGE_INTEGRITY);
    assert ([a] + more)[1..] == more;
  }

  lemma AllocateAttrsSignable(cfg: Config, port: u16, client: Endpoint, lifetime: u32)
    ensures Signable(AllocateAttrs(cfg, port, client, lifetime))
    ensures Signable([Attribute(LIFETIME, Be32(lifetime))]) && Signable([])
  {
    hide XorAddressValue, V4OrZero;
    var attrs := AllocateAttrs(cfg, port, client, lifetime);
    SmallAttrs(attrs[2], []);
    assert [attrs[2]] + [] == [attrs[2]] == [Attribute(LIFETIME, Be32(lifetime))];
    SmallAttrs(attrs[1], [attrs[2]]);
    SmallAttrs(attrs[0], [attrs[1]] + [attrs[2]]);
    assert attrs == [attrs[0]] + ([attrs[1]] + [attrs[2]]);
  }

  lemma ReplyShape(env: Env, t: Table, msg: TurnMessage, p: Packet)
    ensures var reply := OnRequest(env, t, msg, p).1;
            || (exists attrs :: SuccessReply(msg, reply, attrs))
            || ErrorReply(msg, reply)
  {
    hide EndpointKey, ErrorMessage, BuildMessage, AllocateAttrs, FindAttr, FirstFree, OwnedBy, RelayPorts;
    hide RequestedLifetime;
    hide InstallPeers, BindConflict, IsDeniedAddress, BindRequest, Allocated, Signable;
    var reply := OnRequest(env, t, msg, p).1;
    AllocateAttrsSignable(env.cfg, 0, p.from, RequestedLifetime(msg));
    match msg.kind
    case Allocate =>
      if AllocateRefusal(env.cfg, t, msg, p.from, UsernameOf(msg), p.draws).None? {
        var port := FirstFree(env.cfg, p.draws, RelayPorts(t.allocs)).value;
        var attrs := AllocateAttrs(env.cfg, port, p.from, GrantedLifetime(msg));
        AllocateAttrsSignable(env.cfg, port, p.from, GrantedLifetime(msg));
        assert SuccessReply(msg, reply, attrs);
      }
    case Refresh => assert SuccessReply(msg, reply, [Attribute(LIFETIME, Be32(RequestedLifetime(msg)))])
        || ErrorReply(msg, reply);
    case CreatePermission => assert SuccessReply(msg, reply, []) || ErrorReply(msg, reply);
    case ChannelBind => assert SuccessReply(msg, reply, []) || ErrorReply(msg, reply);
    case _ =>
  }

  ghost predicate ErrorReply(msg: TurnMessage, reply: Octets) {
    exists code, reason :: |reason| < 1000 && reply == ErrorMessage(msg.tid, code, reason)
  }

  lemma TidOfRequest(e: Event)
    requires RequestOf(e).Some?
    ensures |RequestOf(e).value.tid| == 12
  {
    hide ParseFrom, DecodeClass, DecodeMethod;
  }

  lemma StepOfRequest(env: Env, s: Server, e: Event)
    requires Authentic(env, s, e)
    ensures var (table, reply) := OnRequest(env, s.table, RequestOf(e).value, e.packet);
            Step(env, s, e)
            == (s.(table := table), [Datagram(SignedFor(env, RequestOf(e).value, reply), e.packet.from)])
  {
    hide OnRequest, SendOutput, ChannelOutput, PeerDataOutput, ParseMessage, ParseChannelData, Verdict, Challenge;
    hide ErrorMessage, BuildMessage, SignedFor;
  }

  /** What an authenticated client gets back: one message with its transaction id. A success is signed under
      the client's own name and password, so the client's check of the digest passes; an error is not. */
  ghost predicate GoodReply(env: Env, msg: TurnMessage, d: Octets) {
    && ParseMessage(d).Ok?
    && var got, username := ParseMessage(d).msg, UsernameOf(msg);
    && got.tid == msg.tid
    && match got.msgClass
       case SuccessResponse =>
         && got.kind == msg.kind && got.Find(MESSAGE_INTEGRITY).Some?
         && env.cred.MacMd5(d, username, env.cred.Validator().GetPassword(username))
       case ErrorResponse => got.kind == Allocate && got.Find(ERROR_CODE).Some? && got.Find(MESSAGE_INTEGRITY).None?
       case _ => false
  }

  lemma SuccessReplyGood(env: Env, msg: TurnMessage, attrs: seq<Attribute>)
    requires |msg.tid| == 12 && Signable(attrs)
    ensures var username := UsernameOf(msg);
            var d := SignedFor(env, msg, BuildMessage(msg.kind, SuccessResponse, msg.tid, attrs));
            && GoodReply(env, msg, d) && ParseMessage(d).Ok? && ParseMessage(d).msg.msgClass == SuccessResponse
            && attrs <= ParseMessage(d).msg.attributes
  {
    hide Frame, BytesOf, ParseMessage, UsernameOf, EncodeAttrs;
    var username := UsernameOf(msg);
    var password := env.cred.Validator().GetPassword(username);
    var resp := BuildMessage(msg.kind, SuccessResponse, msg.tid, attrs);
    var mac := env.cred.MacAttr(msg.kind, SuccessResponse, msg.tid, attrs, username, password);
    HeaderOfFrame(msg.kind, SuccessResponse, msg.tid, EncodeAttrs(attrs));
    TypeRoundTrip(msg.kind, SuccessResponse);
    env.cred.SignedVerifies(msg.kind, SuccessResponse, msg.tid, attrs, username, password);
    FindAttrAppend(attrs, [mac], MESSAGE_INTEGRITY);
    FindAttrCons(mac, [], MESSAGE_INTEGRITY);
    assert [mac] + [] == [mac];
  }

  lemma ErrorReplyGood(env: Env, msg: TurnMessage, code: u16, reason: string)
    requires |msg.tid| == 12 && |reason| < 1000
    ensures SignedFor(env, msg, ErrorMessage(msg.tid, code, reason)) == ErrorMessage(msg.tid, code, reason)
    ensures GoodReply(env, msg, ErrorMessage(msg.tid, code, reason))
  {
    hide Frame, ParseMessage, UsernameOf, EncodeAttrs, ErrorValue;
    var a := Attribute(ERROR_CODE, ErrorValue(code, reason));
    assert |a.value| == 4 + |reason| by { ErrorValueSize(code, reason); }
    AttrSize(a);
    HeaderOfFrame(Allocate, ErrorResponse, msg.tid, EncodeAttrs([a]));
    TypeRoundTrip(Allocate, ErrorResponse);
    BuildParseRoundTrip(Allocate, ErrorResponse, msg.tid, [a]);
    FindAttrCons(a, [], ERROR_CODE);
    FindAttrCons(a, [], MESSAGE_INTEGRITY);
    assert [a] + [] == [a];
  }

  lemma ErrorValueSize(code: u16, reason: string)
    ensures |ErrorValue(code, reason)| == 4 + |reason|
  {
  }

  lemma RequestsAnswered(env: Env, s: Server, e: Event)
    requires Authentic(env, s, e)
    ensures var out := Step(env, s, e).1;
            |out| == 1 && out[0].to == e.packet.from && GoodReply(env, RequestOf(e).value, out[0].payload)
  {
    hide OnRequest, Step, SignedFor, GoodReply, RequestOf, Verdict, BuildMessage, ErrorMessage;
    var msg := RequestOf(e).value;
    var reply := OnRequest(env, s.table, msg, e.packet).1;
    TidOfRequest(e);
    StepOfRequest(env, s, e);
    ReplyShape(env, s.table, msg, e.packet);
    if attrs :| SuccessReply(msg, reply, attrs) {
      SuccessReplyGood(env, msg, attrs);
    } else {
      var code, reason :| |reason| < 1000 && reply == ErrorMessage(msg.tid, code, reason);
      ErrorReplyGood(env, msg, code, reason);
    }
  }

  /** The lifetime a request asks for: the number in its LIFETIME attribute but at most an hour, and ten
      minutes if it carries none. */
  ghost predicate Asks(msg: TurnMessage, lifetime: u32) {
    match msg.Find(LIFETIME)
    case None => lifetime == 600
    case Some(v) =>
      if |v| < 4 then lifetime == 600
      else forall w: u32 :: v[..4] == Be32(w) ==> lifetime == if w > 3600 then 3600 else w
  }

  lemma AsksForLifetime(msg: TurnMessage)
    ensures Asks(msg, RequestedLifetime(msg))
  {
    hide FindAttr, Be32, Word32;
    if msg.Find(LIFETIME).Some? && |msg.Find(LIFETIME).value| >= 4 {
      var v := msg.Find(LIFETIME).value[..4];
      forall w: u32 | v == Be32(w) ensures Word32(v) == w {
        Word32OfBe32(w);
      }
    }
  }

  /** A client that obtains an allocation is told the truth about it: its signed reply shows the relayed
      address and lifetime of the record in the table, and the client's own address. */
  lemma AllocateReplyTrue(env: Env, s: Server, e: Event)
    requires Authentic(env, s, e) && RequestOf(e).value.kind == Allocate
    requires EndpointKey(e.packet.from) !in s.table.allocs
    requires EndpointKey(e.packet.from) in Step(env, s, e).0.table.allocs
    ensures |Step(env, s, e).1| == 1
    ensures var r := Step(env, s, e).0.table.allocs[EndpointKey(e.packet.from)];
            var d := Step(env, s, e).1[0].payload;
            && GoodReply(env, RequestOf(e).value, d) && ParseMessage(d).msg.msgClass == SuccessResponse
            && exists asked: u32 ::
                 && Asks(RequestOf(e).value, asked)
                 && var lifetime := if asked == 0 then 600 else asked;
                 && r.expiresAt == e.Now() + lifetime * SECOND
                 && ParseMessage(d).msg.Find(LIFETIME) == Some(Be32(lifetime))
                 && ShowsAddress(ParseMessage(d).msg, XOR_RELAYED_ADDRESS, r.relayedAddr)
                 && ShowsAddress(ParseMessage(d).msg, XOR_MAPPED_ADDRESS, e.packet.from)
  {
    hide OnRequest, Step, SignedFor, GoodReply, RequestOf, Verdict, BuildMessage, ErrorMessage, EndpointKey;
    hide ParseMessage;
    hide FirstFree, RelayPorts, RequestedLifetime, FindAttr, Signable, XorAddressValue, ShowsAddress, Asks;
    var msg, p := RequestOf(e).value, e.packet;
    TidOfRequest(e);
    StepOfRequest(env, s, e);
    var lifetime := GrantedLifetime(msg);
    AsksForLifetime(msg);
    assert OnRequest(env, s.table, msg, p)
        == OnAllocate(env.cfg, s.table, msg, p.from, UsernameOf(msg), env.cred.realm, p.draws, p.now)
    by {
      AllocateRequest(env, s.table, msg, p);
    }
    var port := FirstFree(env.cfg, p.draws, RelayPorts(s.table.allocs)).value;
    var attrs := AllocateAttrs(env.cfg, port, p.from, lifetime);
    AllocateAttrsSignable(env.cfg, port, p.from, lifetime);
    SuccessReplyGood(env, msg, attrs);
    ShownInPrefix(env.cfg, port, p.from, lifetime, ParseMessage(Step(env, s, e).1[0].payload).msg);
  }

  /** A signed Allocate request of a user with issued credentials, carrying these further attributes. */
  ghost predicate IssuedAllocate(env: Env, raw: Octets, tid: Octets, extra: seq<Attribute>, c: HmacCredentials,
                                 nonce: string)
  {
    && |tid| == 12 && IsByteString(nonce) && env.cred.NoCredentials(extra)
    && Sized(env.cred.RequestAttrs(extra, c.username, nonce))
    && |EncodeAttrs(env.cred.RequestAttrs(extra, c.username, nonce))| + 24 < 0x1_0000
    && raw == env.cred.WithMac(BuildMessage(Allocate, Request, tid, env.cred.RequestAttrs(extra, c.username, nonce)),
                               c.username, c.password)
  }

  /** What the parser finds in it. */
  lemma IssuedAllocateParses(env: Env, raw: Octets, tid: Octets, extra: seq<Attribute>, c: HmacCredentials,
      nonce: string)
    requires IssuedAllocate(env, raw, tid, extra, c, nonce) && IsByteString(c.username)
    ensures raw != [] && raw[0] / 0x40 == 0 && ParseMessage(raw).Ok?
    ensures var msg := ParseMessage(raw).msg;
            && msg.kind == Allocate && msg.msgClass == Request && UsernameOf(msg) == c.username
            && (FindAttr(extra, REQUESTED_TRANSPORT).Some? ==>
                msg.Find(REQUESTED_TRANSPORT) == FindAttr(extra, REQUESTED_TRANSPORT))
  {
    hide ParseMessage, EncodeAttrs, BuildMessage, LongTermCred.WithMac, FindAttr, LongTermCred.NoCredentials;
    hide LongTermCred.MacMd5;
    var attrs := env.cred.RequestAttrs(extra, c.username, nonce);
    var mac := env.cred.MacAttr(Allocate, Request, tid, attrs, c.username, c.password);
    env.cred.FindInRequest(extra, c.username, nonce, mac);
    env.cred.SignedVerifies(Allocate, Request, tid, attrs, c.username, c.password);
    FirstByteOfStun(raw);
    StringOfBytesOf(c.username);
    assert attrs + [mac] == extra + (attrs[|extra|..] + [mac]);
    FindAttrAppend(extra, attrs[|extra|..] + [mac], REQUESTED_TRANSPORT);
  }

  /** From the credentials to the allocation: a user whose credentials the backend issued, with a nonce the
      server still honours, gets an allocation under the issued name if he asks for UDP, has none at this
      endpoint, is below his quota and a drawn port is free. */
  lemma IssuedClientAllocates(env: Env, s: Server, e: Event, tid: Octets, extra: seq<Attribute>,
                              userId: string, ttl: int, issued: int, nonce: string)
    requires IsInt64(issued + ttl) && IsByteString(userId)
    requires e.FromClient? && e.packet.wall <= issued + ttl && nonce in s.nonces && e.packet.now < s.nonces[nonce]
    requires IssuedAllocate(env, e.packet.raw, tid, extra, env.cred.Validator().Generate(userId, ttl, issued), nonce)
    requires var transport := FindAttr(extra, REQUESTED_TRANSPORT);
             transport.Some? && |transport.value| >= 4 && transport.value[0] == UDP
    requires EndpointKey(e.packet.from) !in s.table.allocs
    requires |OwnedBy(s.table.allocs, env.cred.Validator().Generate(userId, ttl, issued).username)| < env.cfg.maxPerUser
    requires FirstFree(env.cfg, e.packet.draws, RelayPorts(s.table.allocs)).Some?
    ensures Authentic(env, s, e)
    ensures var key, after := EndpointKey(e.packet.from), Step(env, s, e).0.table.allocs;
            && key in after && after[key].clientAddr == e.packet.from
            && after[key].username == env.cred.Validator().Generate(userId, ttl, issued).username
            && Some(after[key].relayedAddr.port) == FirstFree(env.cfg, e.packet.draws, RelayPorts(s.table.allocs))
  {
    hide ParseMessage, EncodeAttrs, BuildMessage, LongTermCred.WithMac, FindAttr, LongTermCred.NoCredentials;
    hide LongTermCred.MacMd5;
    hide EndpointKey, FirstFree, OwnedBy, RelayPorts, LongTermCred.Authenticate, OnRequest, Step, ErrorMessage, Sized;
    var c, p := env.cred.Validator().Generate(userId, ttl, issued), e.packet;
    assert IsByteString(c.username);
    IssuedAllocateParses(env, p.raw, tid, extra, c, nonce);
    var msg := ParseMessage(p.raw).msg;
    env.cred.IssuedCredentialsAuthenticate(Allocate, tid, extra, userId, ttl, issued, nonce, "", s.nonces, p.now,
        p.wall);
    assert RequestOf(e) == Some(msg);
    assert Authentic(env, s, e);
    StepOfTable(env, s, e);
    AllocateRequest(env, s.table, msg, p);
  }

  /** A client that refreshes its allocation is told how long it now lives: not at all after a request for
      lifetime 0, and else up to the deadline in the table. */
  lemma RefreshReplyTrue(env: Env, s: Server, e: Event)
    requires ServerOk(env, s) && Authentic(env, s, e) && RequestOf(e).value.kind == Refresh
    requires EndpointKey(e.packet.from) in s.table.allocs
    ensures |Step(env, s, e).1| == 1
    ensures var key, after := EndpointKey(e.packet.from), Step(env, s, e).0.table.allocs;
            var d := Step(env, s, e).1[0].payload;
            && GoodReply(env, RequestOf(e).value, d) && ParseMessage(d).msg.msgClass == SuccessResponse
            && exists lifetime: u32 ::
                 && Asks(RequestOf(e).value, lifetime)
                 && ParseMessage(d).msg.Find(LIFETIME) == Some(Be32(lifetime))
                 && (key in after <==> lifetime > 0)
                 && (lifetime > 0 ==> after[key] == s.table.allocs[key].(expiresAt := e.Now() + lifetime * SECOND))
  {
    hide OnRequest, Step, SignedFor, GoodReply, RequestOf, Verdict, BuildMessage, ErrorMessage, EndpointKey;
    hide ParseMessage;
    hide RequestedLifetime, FindAttr, Signable, ServerOk, UsernameOf, Asks;
    var msg := RequestOf(e).value;
    var lifetime := RequestedLifetime(msg);
    AsksForLifetime(msg);
    TidOfRequest(e);
    StepOfRequest(env, s, e);
    OwnersRefresh(env, s, e);
    LifetimeReplyGood(env, msg, lifetime);
  }

  lemma RequestKeepsKey(env: Env, t: Table, msg: TurnMessage, p: Packet, key: string)
    requires key in t.allocs && key !in OnRequest(env, t, msg, p).0.allocs
    ensures key == EndpointKey(p.from) && msg.kind == Refresh && RequestedLifetime(msg) == 0
  {
    hide EndpointKey, ErrorMessage, BuildMessage, AllocateAttrs, FindAttr, FirstFree, OwnedBy, RelayPorts;
    hide InstallPeers, BindConflict, IsDeniedAddress, BindRequest, RequestedLifetime;
  }

  /** The event is an authenticated request of this client to release its allocation. */
  ghost predicate Releases(env: Env, s: Server, e: Event, client: Endpoint) {
    && Authentic(env, s, e) && e.packet.from == client
    && RequestOf(e).value.kind == Refresh && RequestedLifetime(RequestOf(e).value) == 0
  }

  /** An allocation, expired or not, leaves the table exactly when its client releases it. */
  lemma ReleasedOnlyByClient(env: Env, s: Server, e: Event, client: Endpoint)
    requires ServerOk(env, s) && EndpointKey(client) in s.table.allocs
    ensures EndpointKey(client) !in Step(env, s, e).0.table.allocs <==> Releases(env, s, e, client)
  {
    hide TableOk, Step, Verdict, RequestOf, EndpointKey, OnRequest, UsernameOf, RequestedLifetime, BuildMessage;
    var key := EndpointKey(client);
    StepOfTable(env, s, e);
    if Authentic(env, s, e) {
      var msg, p := RequestOf(e).value, e.packet;
      if key !in Step(env, s, e).0.table.allocs {
        OnlyTheOwnerChanges(env, s, e, client);
        RequestKeepsKey(env, s.table, msg, p, key);
      }
      if Releases(env, s, e, client) {
        OwnersRefresh(env, s, e);
      }
    }
  }

  lemma LifetimeReplyGood(env: Env, msg: TurnMessage, lifetime: u32)
    requires |msg.tid| == 12
    ensures var d := SignedFor(env, msg, BuildMessage(msg.kind, SuccessResponse, msg.tid,
        [Attribute(LIFETIME, Be32(lifetime))]));
            && GoodReply(env, msg, d) && ParseMessage(d).Ok? && ParseMessage(d).msg.msgClass == SuccessResponse
            && ParseMessage(d).msg.Find(LIFETIME) == Some(Be32(lifetime))
  {
    hide SignedFor, GoodReply, BuildMessage, ParseMessage, FindAttr, Signable;
    var attrs := [Attribute(LIFETIME, Be32(lifetime))];
    AllocateAttrsSignable(Config("", 0, 0, 0), 0, Endpoint("", 0), lifetime);
    SuccessReplyGood(env, msg, attrs);
    var got := ParseMessage(SignedFor(env, msg, BuildMessage(msg.kind, SuccessResponse, msg.tid, attrs))).msg;
    assert got.attributes == [attrs[0]] + got.attributes[1..];
    FindAttrCons(attrs[0], got.attributes[1..], LIFETIME);
  }

  /** An authenticated Refresh of an existing allocation is its owner's, so it is granted. */
  lemma OwnersRefresh(env: Env, s: Server, e: Event)
    requires ServerOk(env, s) && Authentic(env, s, e) && RequestOf(e).value.kind == Refresh
    requires EndpointKey(e.packet.from) in s.table.allocs
    ensures var msg, key := RequestOf(e).value, EndpointKey(e.packet.from);
            var lifetime, allocs := RequestedLifetime(msg), s.table.allocs;
            && OnRequest(env, s.table, msg, e.packet).0.allocs
               == (if lifetime == 0 then allocs - {key}
                   else allocs[key := allocs[key].(expiresAt := e.Now() + lifetime * SECOND)])
            && OnRequest(env, s.table, msg, e.packet).1
               == BuildMessage(Refresh, SuccessResponse, msg.tid, [Attribute(LIFETIME, Be32(lifetime))])
  {
    hide OnRequest, RequestOf, Verdict, BuildMessage, ErrorMessage, EndpointKey, RequestedLifetime, TableOk, UsernameOf;
    var msg, p := RequestOf(e).value, e.packet;
    AuthenticUsername(env, s, e);
    RefreshRequest(env, s.table, msg, p);
  }

  lemma RefreshRequest(env: Env, t: Table, msg: TurnMessage, p: Packet)
    requires msg.kind == Refresh
    ensures OnRequest(env, t, msg, p) == OnRefresh(t, msg, p.from, UsernameOf(msg), p.now)
  {
    hide OnRefresh;
  }

  /** What a CreatePermission does to a client's allocation: exactly the well-formed peers before the first
      denied one get a permission of 300 seconds, nothing else changes, and the reply is a success if and only
      if there is such a peer and none is denied. */
  lemma CreatePermissionMeans(t: Table, msg: TurnMessage, client: Endpoint, now: Instant)
    requires EndpointKey(client) in t.allocs && |msg.tid| == 12
    ensures var (t', reply) := OnCreatePermission(t, msg, client, now);
            var key := EndpointKey(client);
            && key in t'.allocs && t' == t.(allocs := t.allocs[key := t'.allocs[key]])
            && t'.allocs[key] == t.allocs[key].(permissions := t'.allocs[key].permissions)
            && (forall a ::
                  a in t'.allocs[key].permissions <==> a in t.allocs[key].permissions || Installs(msg.attributes, a))
            && (forall a :: a in t'.allocs[key].permissions ==>
                  t'.allocs[key].permissions[a] == if Installs(msg.attributes, a)
                                                   then Permission(a, now + PERMISSION_TTL)
                                                   else t.allocs[key].permissions[a])
            && |reply| >= 2
            && (DecodeClass(reply[0], reply[1]) == SuccessResponse
                <==> (exists a :: Installs(msg.attributes, a)) && !exists i :: DeniedAt(msg.attributes, i))
  {
    hide EndpointKey, EncodeAttrs, TypeHigh, TypeLow, Frame, InstallPeers, Installs, DeniedAt;
    var key := EndpointKey(client);
    InstallPeersMeans(msg.attributes, Install(t.allocs[key].permissions, false, false), now);
    forall m, c, attrs | c in {SuccessResponse, ErrorResponse}
      ensures |BuildMessage(m, c, msg.tid, attrs)| >= 20
      ensures DecodeClass(BuildMessage(m, c, msg.tid, attrs)[0], BuildMessage(m, c, msg.tid, attrs)[1]) == c
    {
      HeaderOfFrame(m, c, msg.tid, EncodeAttrs(attrs));
      TypeRoundTrip(m, c);
    }
  }

  lemma AllocateRequest(env: Env, t: Table, msg: TurnMessage, p: Packet)
    requires msg.kind == Allocate
    ensures OnRequest(env, t, msg, p)
         == OnAllocate(env.cfg, t, msg, p.from, UsernameOf(msg), env.cred.realm, p.draws, p.now)
  {
    hide OnAllocate;
  }

  /** The attribute decodes to this endpoint; an address that is no IPv4 text is shown as zero. */
  ghost predicate ShowsAddress(msg: TurnMessage, typ: u16, ep: Endpoint) {
    && msg.Find(typ).Some? && |msg.Find(typ).value| == 8
    && PeerOf(msg.Find(typ).value) == if ParseV4(ep.address).Some? then ep else Endpoint(FormatV4(0), ep.port)
  }

  lemma ShownInPrefix(cfg: Config, port: u16, client: Endpoint, lifetime: u32, msg: TurnMessage)
    requires AllocateAttrs(cfg, port, client, lifetime) <= msg.attributes
    ensures msg.Find(LIFETIME) == Some(Be32(lifetime))
    ensures ShowsAddress(msg, XOR_RELAYED_ADDRESS, Endpoint(cfg.relayAddress, port))
    ensures ShowsAddress(msg, XOR_MAPPED_ADDRESS, client)
  {
    hide XorAddressValue, PeerOf, ParseV4, FormatV4;
    var attrs := AllocateAttrs(cfg, port, client, lifetime);
    var rest := msg.attributes[3..];
    assert msg.attributes == [attrs[0]] + ([attrs[1]] + ([attrs[2]] + rest));
    forall typ | typ in {LIFETIME, XOR_RELAYED_ADDRESS, XOR_MAPPED_ADDRESS}
      ensures msg.Find(typ) == Some(if typ == LIFETIME then attrs[2].value
                                    else if typ == XOR_RELAYED_ADDRESS then attrs[0].value else attrs[1].value)
    {
      FindAttrCons(attrs[2], rest, typ);
      FindAttrCons(attrs[1], [attrs[2]] + rest, typ);
      FindAttrCons(attrs[0], [attrs[1]] + ([attrs[2]] + rest), typ);
    }
    PeerOfXorAddress(V4OrZero(cfg.relayAddress), port);
    PeerOfXorAddress(V4OrZero(client.address), client.port);
    if ParseV4(cfg.relayAddress).Some? { V4TextIsCanonical(cfg.relayAddress); }
    if ParseV4(client.address).Some? { V4TextIsCanonical(client.address); }
  }
}
