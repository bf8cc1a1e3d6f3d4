/** What clients can count on over a run: from the challenge to the allocation, and on to relayed frames. */
module ClientRuns {
  import opened Bytes
  import opened Text
  import opened Stun
  import opened StunCodec
  import opened Builder
  import opened Credentials
  import opened Integrity
  import opened Allocations
  import opened TurnServer
  import opened ServerRuns
  import opened EndToEnd
  import opened ChannelData
  import opened ChannelRuns
  import opened DigestCoverage

  function ChallengeAttrs(env: Env, code: u16, reason: string, nonce: string): seq<Attribute> {
    [Attribute(ERROR_CODE, ErrorValue(code, reason)), Attribute(REALM, BytesOf(env.cred.realm)),
     Attribute(NONCE, BytesOf(nonce))]
  }

  /** A challenge that fits a message shows its error, the realm and the nonce to the parser. */
  lemma ChallengeParses(env: Env, msg: TurnMessage, code: u16, reason: string, nonce: string)
    requires |msg.tid| == 12 && Sized(ChallengeAttrs(env, code, reason, nonce))
    requires |EncodeAttrs(ChallengeAttrs(env, code, reason, nonce))| < 0x1_0000
    ensures ParseMessage(Challenge(env, msg, code, reason, nonce)).Ok?
    ensures var got := ParseMessage(Challenge(env, msg, code, reason, nonce)).msg;
            && got.kind == msg.kind && got.msgClass == ErrorResponse && got.tid == msg.tid
            && got.Find(ERROR_CODE) == Some(ErrorValue(code, reason))
            && got.Find(REALM) == Some(BytesOf(env.cred.realm)) && got.Find(NONCE) == Some(BytesOf(nonce))
  {
    hide ParseMessage, BuildMessage, EncodeAttrs, FindAttr, ErrorValue, BytesOf;
    var attrs := ChallengeAttrs(env, code, reason, nonce);
    BuildParseRoundTrip(msg.kind, ErrorResponse, msg.tid, attrs);
    assert attrs == [attrs[0]] + ([attrs[1]] + ([attrs[2]] + []));
    forall typ ensures FindAttr(attrs, typ) == if attrs[0].typ == typ then Some(attrs[0].value)
                                               else if attrs[1].typ == typ then Some(attrs[1].value)
                                               else if attrs[2].typ == typ then Some(attrs[2].value)
                                               else FindAttr([], typ)
    {
      FindAttrCons(attrs[0], [attrs[1]] + ([attrs[2]] + []), typ);
      FindAttrCons(attrs[1], [attrs[2]] + [], typ);
      FindAttrCons(attrs[2], [], typ);
    }
  }

  /** The code and reason of a challenge, by the verdict that causes it. */
  function ChallengeCode(verdict: AuthResult): (u16, string) {
    if verdict == StaleNonce then (438, "Stale Nonce") else (401, "Unauthorized")
  }

  /** The nonce a client reads in the answer to its request. */
  function ShownNonce(payload: Octets): Option<string> {
    if !ParseMessage(payload).Ok? then None
    else
      match ParseMessage(payload).msg.Find(NONCE)
      case None => None
      case Some(v) => Some(StringOf(v))
  }

  /** The challenge for this event fits a message. */
  ghost predicate ChallengeFits(env: Env, s: Server, e: Event, nonce: string)
    requires RequestOf(e).Some?
  {
    var (code, reason) := ChallengeCode(Verdict(env, s, RequestOf(e).value, e.packet));
    && Sized(ChallengeAttrs(env, code, reason, nonce))
    && |EncodeAttrs(ChallengeAttrs(env, code, reason, nonce))| < 0x1_0000
  }

  /** A request that is not let in is answered by one challenge, from which its sender reads the nonce. */
  lemma ChallengeShowsNonce(env: Env, s: Server, e: Event, nonce: string)
    requires Challenges(env, s, e, nonce) && IsByteString(nonce) && ChallengeFits(env, s, e, nonce)
    ensures |Step(env, s, e).1| == 1 && Step(env, s, e).1[0].to == e.packet.from
    ensures ShownNonce(Step(env, s, e).1[0].payload) == Some(nonce)
  {
    hide ParseMessage, Verdict, Challenge, EncodeAttrs, Sized, ChallengeAttrs, OnRequest, SendOutput, SignedFor;
    hide FindAttr;
    var (code, reason) := ChallengeCode(Verdict(env, s, RequestOf(e).value, e.packet));
    TidOfRequest(e);
    ChallengeParses(env, RequestOf(e).value, code, reason, nonce);
    StringOfBytesOf(nonce);
  }

  /** From the challenge to the allocation, over any run: a client that is challenged at event i reads a nonce,
      and a UDP Allocate request signed with issued credentials under that nonce, at any event within 3600
      seconds, is authenticated and makes an allocation, if its endpoint is free, its quota is not used up and
      a drawn port is free. */
  lemma ChallengedClientAllocates(env: Env, states: seq<Server>, events: seq<Event>, i: nat, n: nat, tid: Octets,
                                  extra: seq<Attribute>, userId: string, ttl: int, issued: int, nonce: string)
    requires IsRun(env, states, events) && i < n < |events|
    requires Challenges(env, states[i], events[i], nonce) && IsByteString(nonce)
    requires ChallengeFits(env, states[i], events[i], nonce)
    requires IsInt64(issued + ttl) && IsByteString(userId)
    requires events[n].FromClient? && events[n].packet.wall <= issued + ttl
    requires events[n].Now() < events[i].Now() + NONCE_TTL
    requires IssuedAllocate(env, events[n].packet.raw, tid, extra, env.cred.Validator().Generate(userId, ttl, issued),
        nonce)
    requires var transport := FindAttr(extra, REQUESTED_TRANSPORT);
             transport.Some? && |transport.value| >= 4 && transport.value[0] == UDP
    requires var t, p := states[n].table, events[n].packet;
             && EndpointKey(p.from) !in t.allocs
             && |OwnedBy(t.allocs, env.cred.Validator().Generate(userId, ttl, issued).username)| < env.cfg.maxPerUser
             && FirstFree(env.cfg, p.draws, RelayPorts(t.allocs)).Some?
    ensures |Step(env, states[i], events[i]).1| == 1
    ensures ShownNonce(Step(env, states[i], events[i]).1[0].payload) == Some(nonce)
    ensures Authentic(env, states[n], events[n])
    ensures var key, after := EndpointKey(events[n].packet.from), states[n + 1].table.allocs;
            && key in after && after[key].clientAddr == events[n].packet.from
            && after[key].username == env.cred.Validator().Generate(userId, ttl, issued).username
  {
    hide Step, Challenges, IssuedAllocate, FirstFree, RelayPorts, OwnedBy, FindAttr, EndpointKey, ValidEvent, Authentic;
    hide ChallengeFits, ShownNonce, HmacValidator.Generate;
    ChallengeShowsNonce(env, states[i], events[i], nonce);
    ChallengeNonceStays(env, states, events, i, n, nonce);
    IssuedClientAllocates(env, states[n], events[n], tid, extra, userId, ttl, issued, nonce);
  }

  // ----- from the allocation to the channel -----

  /** The channel and the peer that a request with these attributes asks to bind. */
  ghost predicate AsksToBind(extra: seq<Attribute>, x: u16, peer: Endpoint) {
    var number, address := FindAttr(extra, CHANNEL_NUMBER), FindAttr(extra, XOR_PEER_ADDRESS);
    && number.Some? && |number.value| >= 2 && Word16(number.value[0], number.value[1]) == x && IsChannelNumber(x)
    && address.Some? && |address.value| >= 8 && PeerOf(address.value) == peer
  }

  lemma AskedInFront(extra: seq<Attribute>, more: seq<Attribute>, msg: TurnMessage, x: u16, peer: Endpoint)
    requires AsksToBind(extra, x, peer) && msg.attributes == extra + more
    ensures BindRequest(msg) == Some((x, peer))
  {
    hide PeerOf, Word16, FindAttr;
    FindAttrAppend(extra, more, CHANNEL_NUMBER);
    FindAttrAppend(extra, more, XOR_PEER_ADDRESS);
  }

  /** A ChannelBind signed with issued credentials, under either digest and a nonce the server still honours,
      binds its channel in the user's own allocation, if the peer is not denied and does not conflict. */
  lemma IssuedClientBinds(env: Env, s: Server, e: Event, typ: u16, tid: Octets, extra: seq<Attribute>,
                          userId: string, ttl: int, issued: int, nonce: string, x: u16, peer: Endpoint)
    requires IsInt64(issued + ttl) && IsByteString(userId) && e.FromClient? && e.packet.wall <= issued + ttl
    requires nonce in s.nonces && e.packet.now < s.nonces[nonce]
    requires var c := env.cred.Validator().Generate(userId, ttl, issued);
             && RequestFits(env.cred, typ, tid, extra, c, nonce, [])
             && e.packet.raw == BuildMessage(ChannelBind, Request, tid,
                                             SignedRequest(env.cred, typ, ChannelBind, tid, extra, c, nonce, []))
             && EndpointKey(e.packet.from) in s.table.allocs
             && s.table.allocs[EndpointKey(e.packet.from)].username == c.username
    requires AsksToBind(extra, x, peer) && !IsDeniedAddress(peer.address)
    requires !BindConflict(s.table.allocs[EndpointKey(e.packet.from)], x, peer)
    ensures BindsAt(env, s, e, e.packet.from, x, peer)
  {
    hide BuildMessage, ParseMessage, RequestFits, SignedRequest, IsDeniedAddress, BindConflict, BindRequest, FindAttr;
    hide LongTermCred.Authenticate, LongTermCred.MacMd5, LongTermCred.MacSha256, EndpointKey, UsernameOf, AsksToBind;
    var c, p := env.cred.Validator().Generate(userId, ttl, issued), e.packet;
    NonceIsBytes(env.cred, typ, tid, extra, c, nonce, []);
    SignedRequestParses(env.cred, typ, ChannelBind, tid, extra, c, nonce, []);
    SignedRequestAuthenticates(env.cred, typ, ChannelBind, tid, extra, [], userId, ttl, issued, nonce,
                               c.username, s.nonces, p.now, p.wall);
    FirstByteOfStun(p.raw);
    var msg := ParseMessage(p.raw).msg;
    assert RequestOf(e) == Some(msg) && Authentic(env, s, e);
    var more := SignedBehind(env.cred, typ, ChannelBind, tid, extra, c, nonce, []);
    AskedInFront(extra, more, msg, x, peer);
  }

  /** A signed request starts with the attributes of its own. */
  lemma SignedBehind(cred: LongTermCred, typ: u16, m: Method, tid: Octets, extra: seq<Attribute>, c: HmacCredentials,
                     nonce: string, more: seq<Attribute>)
    returns (rest: seq<Attribute>)
    requires |tid| == 12
    ensures SignedRequest(cred, typ, m, tid, extra, c, nonce, more) == extra + rest
  {
    hide DigestAttr;
    var attrs := cred.RequestAttrs(extra, c.username, nonce);
    rest := attrs[|extra|..] + [DigestAttr(cred, typ, m, Request, tid, attrs, c.username, c.password)] + more;
  }

  // ----- one run -----

  /** A client with issued credentials: the events at which it is challenged, allocates and binds its channel,
      and what its two requests carry. */
  datatype Client = Client(
    from: Endpoint, userId: string, ttl: int, issued: int, nonce: string,
    challenged: nat, granted: nat, bound: nat,
    allocateTid: Octets, allocateExtra: seq<Attribute>,
    digest: u16, bindTid: Octets, bindExtra: seq<Attribute>, channel: u16)
  {
    function Credentials(env: Env): HmacCredentials {
      env.cred.Validator().Generate(userId, ttl, issued)
    }
  }

  /** The client is challenged, and within 3600 seconds sends the request that ChallengedClientAllocates is
      about. */
  ghost predicate Allocates(env: Env, states: seq<Server>, events: seq<Event>, c: Client)
    requires |states| == |events| + 1
  {
    && c.challenged < c.granted < |events|
    && Challenges(env, states[c.challenged], events[c.challenged], c.nonce) && IsByteString(c.nonce)
    && ChallengeFits(env, states[c.challenged], events[c.challenged], c.nonce)
    && IsInt64(c.issued + c.ttl) && IsByteString(c.userId)
    && var s, e := states[c.granted], events[c.granted];
    && e.FromClient? && e.packet.from == c.from && e.packet.wall <= c.issued + c.ttl
    && e.Now() < events[c.challenged].Now() + NONCE_TTL
    && IssuedAllocate(env, e.packet.raw, c.allocateTid, c.allocateExtra, c.Credentials(env), c.nonce)
    && var transport := FindAttr(c.allocateExtra, REQUESTED_TRANSPORT);
    && transport.Some? && |transport.value| >= 4 && transport.value[0] == UDP
    && EndpointKey(c.from) !in s.table.allocs
    && |OwnedBy(s.table.allocs, c.Credentials(env).username)| < env.cfg.maxPerUser
    && FirstFree(env.cfg, e.packet.draws, RelayPorts(s.table.allocs)).Some?
  }

  /** Later, under the same nonce, it binds its channel to the relayed address of another client. */
  ghost predicate BindsTo(env: Env, states: seq<Server>, events: seq<Event>, c: Client, other: Client)
    requires |states| == |events| + 1
  {
    && c.challenged < c.granted < c.bound < |events|
    && var s, e := states[c.bound], events[c.bound];
    && e.FromClient? && e.packet.from == c.from && e.packet.wall <= c.issued + c.ttl
    && e.Now() < events[c.challenged].Now() + NONCE_TTL
    && RequestFits(env.cred, c.digest, c.bindTid, c.bindExtra, c.Credentials(env), c.nonce, [])
    && e.packet.raw == BuildMessage(ChannelBind, Request, c.bindTid,
                                    SignedRequest(env.cred, c.digest, ChannelBind, c.bindTid, c.bindExtra,
                                                  c.Credentials(env), c.nonce, []))
    && EndpointKey(c.from) in s.table.allocs && EndpointKey(other.from) in s.table.allocs
    && var peer := s.table.allocs[EndpointKey(other.from)].relayedAddr;
    && AsksToBind(c.bindExtra, c.channel, peer) && !IsDeniedAddress(peer.address)
    && !BindConflict(s.table.allocs[EndpointKey(c.from)], c.channel, peer)
  }

  /** It does not release its allocation before event n. */
  ghost predicate Keeps(env: Env, states: seq<Server>, events: seq<Event>, c: Client, n: nat)
    requires |states| == |events| + 1 && n <= |events|
  {
    forall k :: c.granted < k < n ==> !Releases(env, states[k], events[k], c.from)
  }

  ghost predicate Owns(s: Server, client: Endpoint, username: string) {
    var key, allocs := EndpointKey(client), s.table.allocs;
    key in allocs && allocs[key].username == username
  }

  lemma AllocatedFromThenOn(env: Env, states: seq<Server>, events: seq<Event>, c: Client, n: nat)
    requires IsRun(env, states, events) && Allocates(env, states, events, c) && c.granted < n <= |events|
    requires Keeps(env, states, events, c, n)
    ensures forall i, j :: c.granted < i <= j <= n ==> Lives(states, EndpointKey(c.from), i, j)
    ensures forall i :: c.granted < i <= n ==> Owns(states[i], c.from, c.Credentials(env).username)
  {
    hide Step, Challenges, ChallengeFits, IssuedAllocate, FirstFree, RelayPorts, OwnedBy, FindAttr, EndpointKey;
    hide ValidEvent, Authentic, ShownNonce, HmacValidator.Generate, Releases, ServerOk;
    var start, key := c.granted + 1, EndpointKey(c.from);
    ChallengedClientAllocates(env, states, events, c.challenged, c.granted, c.allocateTid, c.allocateExtra,
                              c.userId, c.ttl, c.issued, c.nonce);
    forall i, j | start <= i <= j <= n ensures Lives(states, key, i, j) {
      AllocationStays(env, states, events, c.from, start, i);
      AllocationStays(env, states, events, c.from, i, j);
    }
    forall i | start <= i <= n ensures Owns(states[i], c.from, c.Credentials(env).username) {
      assert Lives(states, key, start, i);
      BindingsLast(env, states, events, key, start, i);
    }
  }

  lemma ClientBinds(env: Env, states: seq<Server>, events: seq<Event>, c: Client, other: Client)
    requires IsRun(env, states, events) && Allocates(env, states, events, c) && BindsTo(env, states, events, c, other)
    requires Keeps(env, states, events, c, c.bound)
    ensures var s := states[c.bound];
            && EndpointKey(other.from) in s.table.allocs
            && BindsAt(env, s, events[c.bound], c.from, c.channel, s.table.allocs[EndpointKey(other.from)].relayedAddr)
  {
    hide Step, Challenges, ChallengeFits, IssuedAllocate, FirstFree, RelayPorts, OwnedBy, FindAttr, EndpointKey;
    hide ValidEvent, HmacValidator.Generate, Releases, AsksToBind, RequestFits, SignedRequest, BuildMessage;
    hide BindConflict, IsDeniedAddress, BindsAt;
    AllocatedFromThenOn(env, states, events, c, c.bound);
    ChallengeNonceStays(env, states, events, c.challenged, c.bound, c.nonce);
    var peer := states[c.bound].table.allocs[EndpointKey(other.from)].relayedAddr;
    IssuedClientBinds(env, states[c.bound], events[c.bound], c.digest, c.bindTid, c.bindExtra, c.userId, c.ttl,
                      c.issued, c.nonce, c.channel, peer);
  }

  /** From two challenges to relayed frames, over one run with a steady clock. Two clients are challenged,
      allocate and bind channels to each other's relayed addresses, each in its own time and with any events in
      between, and do not release their allocations. Then a ChannelData message of the one reaches the other on
      its own channel with the same payload for 300 seconds after the sender's bind. */
  lemma ChallengesToFrames(env: Env, states: seq<Server>, events: seq<Event>, a: Client, b: Client, n: nat,
                           data: Octets)
    requires IsRun(env, states, events) && Monotone(events) && n < |events|
    requires Allocates(env, states, events, a) && Allocates(env, states, events, b)
    requires a.granted < b.bound < n && b.granted < a.bound < n
    requires BindsTo(env, states, events, a, b) && BindsTo(env, states, events, b, a)
    requires Keeps(env, states, events, a, n) && Keeps(env, states, events, b, n)
    requires events[n].FromClient? && events[n].packet.from == a.from
    requires ParseChannelData(events[n].packet.raw) == ChannelData.Ok(a.channel, data)
    ensures var (s', out) := Step(env, states[n], events[n]);
            && s' == states[n] && out in {[], [Datagram(ChannelFrame(b.channel, data), b.from)]}
            && (events[n].Now() < events[a.bound].Now() + PERMISSION_TTL ==>
                  out == [Datagram(ChannelFrame(b.channel, data), b.from)])
  {
    hide Step, EndpointKey, ValidEvent, Allocates, BindsAt, ChannelFrame, ParseChannelData, Releases, ServerOk;
    var m := if a.granted < b.granted then b.granted + 1 else a.granted + 1;
    var ka, kb := EndpointKey(a.from), EndpointKey(b.from);
    AllocatedInOrder(env, states, events, a);
    AllocatedInOrder(env, states, events, b);
    AllocatedFromThenOn(env, states, events, a, n);
    AllocatedFromThenOn(env, states, events, b, n);
    ClientBinds(env, states, events, a, b);
    ClientBinds(env, states, events, b, a);
    assert Lives(states, ka, m, n) && Lives(states, kb, m, n);
    assert Lives(states, ka, m, b.bound) && Lives(states, kb, m, a.bound);
    BindingsLast(env, states, events, ka, m, b.bound);
    BindingsLast(env, states, events, kb, m, a.bound);
    FramesPassAfterBinds(env, states, events, m, n, a.from, a.channel, a.bound, b.from, b.channel, b.bound, data);
  }

  lemma AllocatedInOrder(env: Env, states: seq<Server>, events: seq<Event>, c: Client)
    requires |states| == |events| + 1 && Allocates(env, states, events, c)
    ensures c.challenged < c.granted < |events|
  {
  }
}
