/** Which attributes of an authenticated request the checked digest covers, and what the others can do. */
module DigestCoverage {
  import opened Bytes
  import opened Text
  import opened Stun
  import opened StunCodec
  import opened Builder
  import opened Credentials
  import opened Integrity
  import opened Allocations
  import opened TableInvariants
  import opened TurnServer
  import opened ServerRuns
  import opened EndToEnd

  // ----- covered and behind -----

  /** The attribute whose digest is checked: SHA-256 whenever it is there, and then no other. */
  function CheckedType(msg: TurnMessage): u16 {
    if msg.Find(MESSAGE_INTEGRITY_SHA256).Some? then MESSAGE_INTEGRITY_SHA256 else MESSAGE_INTEGRITY
  }

  /** The bytes that a digest at this offset is computed over. */
  function SignedPart(raw: Octets, typ: u16, at: nat): Octets
    requires 20 <= at <= |raw| && (typ == MESSAGE_INTEGRITY_SHA256 ==> at + 36 <= |raw|)
  {
    if typ == MESSAGE_INTEGRITY_SHA256 then SignedSha256(raw, at) else SignedMd5(raw, at)
  }

  lemma SignedAgrees(raw: Octets, typ: u16, at: nat)
    requires 20 <= at <= |raw| && (typ == MESSAGE_INTEGRITY_SHA256 ==> at + 36 <= |raw|)
    ensures at <= |SignedPart(raw, typ, at)| && AgreeUpTo(raw, SignedPart(raw, typ, at)[..at], 20, at)
  {
    hide Be16;
    var s := SignedPart(raw, typ, at);
    if typ == MESSAGE_INTEGRITY_SHA256 {
      FourthOn(raw[..2] + Be16((at - 20 + 36) % 0x1_0000), raw[4..at + 4], Zeros(32), s, raw, at);
    } else {
      var head := raw[..2] + Be16((at - 20 + 24) % 0x1_0000);
      assert s == head + raw[4..at] + [];
      FourthOn(head, raw[4..at], [], s, raw, at);
    }
  }

  lemma FourthOn(head: Octets, middle: Octets, last: Octets, s: Octets, raw: Octets, at: nat)
    requires |head| == 4 && s == head + middle + last && 4 <= at <= |raw| && at <= 4 + |middle|
    requires forall i :: 0 <= i < at - 4 ==> middle[i] == raw[4 + i]
    ensures at <= |s| && AgreeUpTo(raw, s[..at], 20, at)
  {
    forall i | 20 <= i < at ensures s[..at][i] == raw[i] {
      assert s[i] == middle[i - 4] == raw[4 + (i - 4)];
    }
  }

  predicate HasDigest(raw: Octets, typ: u16) {
    && |raw| >= 20 && 20 + AttrsLen(raw) <= |raw| && Locate(raw, typ).Some?
    && (typ == MESSAGE_INTEGRITY_SHA256 ==> Locate(raw, typ).value + 36 <= |raw|)
  }

  /** The attributes that the parser reads off the signed bytes. */
  function Covered(raw: Octets, typ: u16): seq<Attribute>
    requires HasDigest(raw, typ)
  {
    var at := Locate(raw, typ).value;
    SignedAgrees(raw, typ, at);
    ParseFrom(SignedPart(raw, typ, at)[..at], 20, at)
  }

  /** The digest attribute itself and whatever follows it. */
  function Behind(raw: Octets, typ: u16): seq<Attribute>
    requires HasDigest(raw, typ)
  {
    ParseFrom(raw, Locate(raw, typ).value, 20 + AttrsLen(raw))
  }

  /** A digest covers exactly the attributes in front of it, and none of them is another digest of its kind. */
  lemma DigestCovers(raw: Octets, typ: u16)
    requires ParseMessage(raw).Ok? && HasDigest(raw, typ)
    ensures ParseMessage(raw).msg.attributes == Covered(raw, typ) + Behind(raw, typ)
    ensures FindAttr(Covered(raw, typ), typ).None?
  {
    hide FindFrom, ParseFrom, ParseMessage, FindAttr, AttrsLen, SignedPart;
    ParsedAttributes(raw);
    var at := Locate(raw, typ).value;
    SignedAgrees(raw, typ, at);
    SplitAtFound(raw, 20, 20 + AttrsLen(raw), typ, SignedPart(raw, typ, at)[..at]);
  }

  /** An accepted request carries the digest that was checked, and splits into what it covers and the rest. */
  lemma AcceptedIsCovered(cred: LongTermCred, raw: Octets, allocatedUsername: string, nonces: map<string, Instant>,
                          now: Instant, wall: int)
    requires ParseMessage(raw).Ok? && ParseMessage(raw).msg.msgClass != Indication
    requires cred.Authenticate(ParseMessage(raw).msg, raw, allocatedUsername, nonces, now, wall) == AuthOk
    ensures var msg := ParseMessage(raw).msg;
            HasDigest(raw, CheckedType(msg))
            && msg.attributes == Covered(raw, CheckedType(msg)) + Behind(raw, CheckedType(msg))
  {
    hide ParseMessage, FindAttr, ParseExpiry, Locate, Covered, Behind, AttrsLen;
    ParsedAttributes(raw);
    DigestCovers(raw, CheckedType(ParseMessage(raw).msg));
  }

  // ----- what the part behind adds -----

  ghost predicate AnyDenied(attrs: seq<Attribute>) {
    exists i :: DeniedAt(attrs, i)
  }

  lemma AskedInParts(x: seq<Attribute>, y: seq<Attribute>)
    ensures forall i: nat :: i < |x| ==> Asked(x + y, i) == Asked(x, i)
    ensures forall i: nat :: i < |y| ==> Asked(x + y, |x| + i) == Asked(y, i)
    ensures forall i: nat :: i < |x| ==> DeniedAt(x + y, i) == DeniedAt(x, i)
    ensures forall i: nat :: DeniedAt(x + y, |x| + i) == DeniedAt(y, i)
  {
    hide IsPeerAttr, PeerOf, IsDeniedAddress;
    forall i: nat | i < |y| ensures Asked(x + y, |x| + i) == Asked(y, i) {
      assert (x + y)[|x| + i] == y[i];
    }
  }

  /** What two lists of attributes install: what the first does, and what the second does unless a denied peer
      in the first has ended the loop. */
  lemma InstallsAppend(x: seq<Attribute>, y: seq<Attribute>, a: string)
    ensures Installs(x + y, a) <==> Installs(x, a) || (!AnyDenied(x) && Installs(y, a))
  {
    hide Asked, DeniedAt;
    AskedInParts(x, y);
    DeniedInside(x);
    if Installs(x + y, a) {
      var i :| 0 <= i < |x + y| && Asked(x + y, i) == Some(a) && forall j :: 0 <= j <= i ==> !DeniedAt(x + y, j);
      if i < |x| {
        assert forall j :: 0 <= j <= i ==> !DeniedAt(x, j) by {
          forall j | 0 <= j <= i ensures !DeniedAt(x, j) { assert !DeniedAt(x + y, j); }
        }
      } else {
        assert Asked(y, i - |x|) == Asked(x + y, |x| + (i - |x|));
        forall j: nat | j < |x| ensures !DeniedAt(x, j) { assert !DeniedAt(x + y, j); }
        forall j: nat | j <= i - |x| ensures !DeniedAt(y, j) { assert !DeniedAt(x + y, |x| + j); }
      }
    }
    if Installs(x, a) {
      var i :| 0 <= i < |x| && Asked(x, i) == Some(a) && forall j :: 0 <= j <= i ==> !DeniedAt(x, j);
      assert Asked(x + y, i) == Some(a);
    }
    if !AnyDenied(x) && Installs(y, a) {
      var i :| 0 <= i < |y| && Asked(y, i) == Some(a) && forall j :: 0 <= j <= i ==> !DeniedAt(y, j);
      assert Asked(x + y, |x| + i) == Some(a);
      forall j: nat | j <= |x| + i ensures !DeniedAt(x + y, j) {
        if j < |x| { assert !DeniedAt(x, j); } else { assert DeniedAt(x + y, |x| + (j - |x|)) == DeniedAt(y, j - |x|); }
      }
    }
  }

  lemma DeniedInside(x: seq<Attribute>)
    ensures forall i: nat :: DeniedAt(x, i) ==> i < |x|
  {
    hide Asked, IsDeniedAddress;
  }

  /** The request of this event, and the type of the digest that let it in. */
  function DigestOf(e: Event): u16
    requires RequestOf(e).Some?
  {
    CheckedType(RequestOf(e).value)
  }

  lemma AuthenticIsCovered(env: Env, s: Server, e: Event)
    requires Authentic(env, s, e)
    ensures HasDigest(e.packet.raw, DigestOf(e))
    ensures RequestOf(e).value.attributes == Covered(e.packet.raw, DigestOf(e)) + Behind(e.packet.raw, DigestOf(e))
  {
    hide ParseMessage, LongTermCred.Authenticate, HasDigest, Covered, Behind;
    var p := e.packet;
    AcceptedIsCovered(env.cred, p.raw, AllocatedUsername(s.table, RequestOf(e).value, p.from), s.nonces, p.now, p.wall);
  }

  /** What an authenticated CreatePermission permits: what the digest covers, and, unless a covered peer is
      denied, also what stands behind the digest. So everything it installs is covered if and only if a covered
      peer is denied or the part behind installs nothing that the covered part does not. */
  lemma PermissionsCovered(env: Env, s: Server, e: Event)
    requires Authentic(env, s, e) && RequestOf(e).value.kind == CreatePermission
    requires EndpointKey(e.packet.from) in s.table.allocs
    ensures HasDigest(e.packet.raw, DigestOf(e))
    ensures var covered, behind := Covered(e.packet.raw, DigestOf(e)), Behind(e.packet.raw, DigestOf(e));
            var t, t', key := s.table, Step(env, s, e).0.table, EndpointKey(e.packet.from);
            && key in t'.allocs
            && (forall a :: Permits(t', key, a) <==>
                  Permits(t, key, a) || Installs(covered, a) || (!AnyDenied(covered) && Installs(behind, a)))
            && ((forall a :: Installs(RequestOf(e).value.attributes, a) ==> Installs(covered, a))
                <==> AnyDenied(covered) || forall a :: Installs(behind, a) ==> Installs(covered, a))
  {
    hide Step, RequestOf, Verdict, OnRequest, OnCreatePermission, EndpointKey, Covered, Behind, Installs, AnyDenied;
    hide HasDigest;
    var msg, p := RequestOf(e).value, e.packet;
    AuthenticIsCovered(env, s, e);
    var covered, behind := Covered(p.raw, DigestOf(e)), Behind(p.raw, DigestOf(e));
    StepOfTable(env, s, e);
    KindOfRequest(env, s.table, msg, p);
    TidOfRequest(e);
    CreatePermissionMeans(s.table, msg, p.from, p.now);
    forall a
      ensures Installs(msg.attributes, a) <==> Installs(covered, a) || (!AnyDenied(covered) && Installs(behind, a))
    {
      InstallsAppend(covered, behind, a);
    }
  }

  /** Of the attributes that a request carries once, the server uses the covered one if there is one, and else
      the first behind the digest. */
  lemma AttributeCovered(env: Env, s: Server, e: Event, typ: u16)
    requires Authentic(env, s, e)
    ensures HasDigest(e.packet.raw, DigestOf(e))
    ensures var covered := FindAttr(Covered(e.packet.raw, DigestOf(e)), typ);
            RequestOf(e).value.Find(typ)
            == if covered.Some? then covered else FindAttr(Behind(e.packet.raw, DigestOf(e)), typ)
  {
    hide RequestOf, Verdict, Covered, Behind, HasDigest, FindAttr;
    AuthenticIsCovered(env, s, e);
    FindAttrAppend(Covered(e.packet.raw, DigestOf(e)), Behind(e.packet.raw, DigestOf(e)), typ);
  }

  // ----- requests with attributes behind the digest -----

  /** The SHA-256 attribute of a message with these attributes in front of it. */
  function ShaAttr(cred: LongTermCred, m: Method, c: MessageClass, tid: Octets, attrs: seq<Attribute>,
                   username: string, password: string): Attribute
  {
    var zeroed := BuildMessage(m, c, tid, attrs + [Attribute(MESSAGE_INTEGRITY_SHA256, Zeros(32))]);
    Attribute(MESSAGE_INTEGRITY_SHA256, cred.crypto.hmacSha256(cred.KeySha256(username, password), zeroed))
  }

  function DigestAttr(cred: LongTermCred, typ: u16, m: Method, c: MessageClass, tid: Octets, attrs: seq<Attribute>,
                      username: string, password: string): Attribute
    requires |tid| == 12
  {
    if typ == MESSAGE_INTEGRITY_SHA256 then ShaAttr(cred, m, c, tid, attrs, username, password)
    else cred.MacAttr(m, c, tid, attrs, username, password)
  }

  lemma ShaAttrBytes(value: Octets)
    requires |value| == 32
    ensures EncodeAttrs([Attribute(MESSAGE_INTEGRITY_SHA256, value)])
        == Be16(MESSAGE_INTEGRITY_SHA256) + Be16(32) + value
  {
    var a := Attribute(MESSAGE_INTEGRITY_SHA256, value);
    assert value[..32] == value;
    assert EncodeAttrs([a]) == EncodeAttr(a) + [];
  }

  lemma ShaLocated(m: Method, c: MessageClass, tid: Octets, attrs: seq<Attribute>, tail: Octets)
    requires |tid| == 12 && |tail| >= 36 && |EncodeAttrs(attrs)| + |tail| < 0x1_0000
    requires FindAttr(attrs, MESSAGE_INTEGRITY_SHA256).None? && tail[..2] == Be16(MESSAGE_INTEGRITY_SHA256)
    ensures var body := EncodeAttrs(attrs);
            var f := Frame(m, c, tid, body + tail);
            && |f| == 20 + |body| + |tail| && AttrsLen(f) == |body| + |tail|
            && Locate(f, MESSAGE_INTEGRITY_SHA256) == Some(20 + |body|) && f[20 + |body|..] == tail
  {
    hide EncodeAttrs, Frame, FindFrom, FindAttr, Word16, Be16;
    var body := EncodeAttrs(attrs);
    var f, at := Frame(m, c, tid, body + tail), 20 + |body|;
    HeaderOfFrame(m, c, tid, body + tail);
    SmallRemainder(|body + tail|);
    assert f[20..] == body + tail;
    assert f[at..] == f[20..][|body|..] == tail;
    assert f[20..20 + |body|] == f[20..][..|body|];
    FindPastEncoded(f, 20, attrs, 20 + |body| + |tail|, MESSAGE_INTEGRITY_SHA256);
    FoundHere(f, at, 20 + |body| + |tail|, tail, MESSAGE_INTEGRITY_SHA256);
  }

  lemma FrameEnds(m: Method, c: MessageClass, tid: Octets, body: Octets)
    requires |tid| == 12
    ensures var f := Frame(m, c, tid, body);
            && |f| == 20 + |body| && f[..2] == [TypeHigh(m, c), TypeLow(m, c)]
            && f[4..] == Be32(MAGIC_COOKIE) + tid + body
            && f == f[..2] + Be16(|body| % 0x1_0000) + f[4..]
  {
    hide Be16, Be32, TypeHigh, TypeLow;
  }

  lemma SwapEnd(front: Octets, body: Octets, head: Octets, tail: Octets, other: Octets)
    ensures (front + (body + (head + tail)))[..|front| + |body| + |head|] + other == front + (body + (head + other))
  {
    assert front + (body + (head + tail)) == front + body + head + tail;
    assert front + (body + (head + other)) == front + body + head + other;
  }

  /** The bytes under a SHA-256 digest are the message that ends with the attribute, its value zeroed. */
  lemma ShaSignedBytes(m: Method, c: MessageClass, tid: Octets, body: Octets, head: Octets, tail: Octets)
    requires |tid| == 12 && |head| == 4 && |tail| >= 32 && |body| + 36 < 0x1_0000
    ensures var f := Frame(m, c, tid, body + (head + tail));
            && |f| == 24 + |body| + |tail|
            && SignedSha256(f, 20 + |body|) == Frame(m, c, tid, body + (head + Zeros(32)))
  {
    hide Frame, Be16, Be32, TypeHigh, TypeLow, Zeros;
    var f, g, at := Frame(m, c, tid, body + (head + tail)), Frame(m, c, tid, body + (head + Zeros(32))), 20 + |body|;
    FrameEnds(m, c, tid, body + (head + tail));
    FrameEnds(m, c, tid, body + (head + Zeros(32)));
    SwapEnd(Be32(MAGIC_COOKIE) + tid, body, head, tail, Zeros(32));
    assert f[4..at + 4] == f[4..][..at];
    assert |body + (head + Zeros(32))| == |body| + 36;
    Reassociated(f[..2] + Be16(|body| + 36), f[4..at + 4], Zeros(32));
  }

  lemma Reassociated(a: Octets, b: Octets, c: Octets)
    ensures a + (b + c) == a + b + c
  {
  }

  lemma DigestBytes(raw: Octets, at: nat, head: Octets, value: Octets, more: Octets)
    requires at <= |raw| && |head| == 4 && |value| == 32 && raw[at..] == head + (value + more)
    ensures at + 36 <= |raw| && raw[at + 4..at + 36] == value
  {
    assert raw[at + 4..at + 36] == raw[at..][4..36];
  }

  /** A message signed with SHA-256 is accepted, and attributes appended behind the digest do not change that. */
  lemma ShaAppendedAccepted(cred: LongTermCred, m: Method, c: MessageClass, tid: Octets, attrs: seq<Attribute>,
                            more: seq<Attribute>, username: string, password: string)
    requires |tid| == 12 && Sized(attrs) && Sized(more) && FindAttr(attrs, MESSAGE_INTEGRITY_SHA256).None?
    requires |EncodeAttrs(attrs)| + 36 + |EncodeAttrs(more)| < 0x1_0000
    ensures var all := attrs + [ShaAttr(cred, m, c, tid, attrs, username, password)] + more;
            var raw := BuildMessage(m, c, tid, all);
            && cred.MacSha256(raw, username, password)
            && ParseMessage(raw) == Ok(TurnMessage(c, m, |EncodeAttrs(attrs)| + 36 + |EncodeAttrs(more)|, tid, all))
  {
    hide ParseMessage, Frame, EncodeAttr, EncodeAttrs, FindAttr, Word16, Locate, SignedSha256;
    hide LongTermCred.KeySha256, Be16;
    var a := ShaAttr(cred, m, c, tid, attrs, username, password);
    var body, moreBytes := EncodeAttrs(attrs), EncodeAttrs(more);
    var head := Be16(MESSAGE_INTEGRITY_SHA256) + Be16(32);
    EncodeAttrsAppend(attrs, [a]);
    EncodeAttrsAppend(attrs + [a], more);
    EncodeAttrsAppend(attrs, [Attribute(MESSAGE_INTEGRITY_SHA256, Zeros(32))]);
    ShaAttrBytes(a.value);
    ShaAttrBytes(Zeros(32));
    var tail := a.value + moreBytes;
    Reassociated(head, a.value, moreBytes);
    Reassociated(body, head + a.value, moreBytes);
    assert (head + tail)[..2] == Be16(MESSAGE_INTEGRITY_SHA256);
    ShaLocated(m, c, tid, attrs, head + tail);
    ShaSignedBytes(m, c, tid, body, head, tail);
    DigestBytes(Frame(m, c, tid, body + (head + tail)), 20 + |body|, head, a.value, moreBytes);
    BuildParseRoundTrip(m, c, tid, attrs + [a] + more);
  }

  /** The request with a digest of either kind behind its credentials, and further attributes behind the digest. */
  function SignedRequest(cred: LongTermCred, typ: u16, m: Method, tid: Octets, extra: seq<Attribute>,
                         c: HmacCredentials, nonce: string, more: seq<Attribute>): seq<Attribute>
    requires |tid| == 12
  {
    var attrs := cred.RequestAttrs(extra, c.username, nonce);
    attrs + [DigestAttr(cred, typ, m, Request, tid, attrs, c.username, c.password)] + more
  }

  ghost predicate RequestFits(cred: LongTermCred, typ: u16, tid: Octets, extra: seq<Attribute>, c: HmacCredentials,
                           nonce: string, more: seq<Attribute>)
  {
    var attrs := cred.RequestAttrs(extra, c.username, nonce);
    && |tid| == 12 && typ in {MESSAGE_INTEGRITY, MESSAGE_INTEGRITY_SHA256} && IsByteString(nonce)
    && cred.NoCredentials(extra) && Sized(attrs) && Sized(more)
    && |EncodeAttrs(attrs)| + 36 + |EncodeAttrs(more)| < 0x1_0000
    && (typ == MESSAGE_INTEGRITY ==> FindAttr(more, MESSAGE_INTEGRITY_SHA256).None?)
  }

  /** What the parser finds in such a request, and that its digest is right. */
  lemma SignedRequestParses(cred: LongTermCred, typ: u16, m: Method, tid: Octets, extra: seq<Attribute>,
                            c: HmacCredentials, nonce: string, more: seq<Attribute>)
    requires RequestFits(cred, typ, tid, extra, c, nonce, more)
    ensures var all := SignedRequest(cred, typ, m, tid, extra, c, nonce, more);
            var raw := BuildMessage(m, Request, tid, all);
            && ParseMessage(raw).Ok?
            && var msg := ParseMessage(raw).msg;
            && msg.kind == m && msg.msgClass == Request && msg.attributes == all && CheckedType(msg) == typ
            && msg.Find(typ).Some? && msg.Find(USERNAME) == Some(BytesOf(c.username))
            && msg.Find(REALM).Some? && msg.Find(NONCE) == Some(BytesOf(nonce))
            && (if typ == MESSAGE_INTEGRITY then cred.MacMd5(raw, c.username, c.password)
                else cred.MacSha256(raw, c.username, c.password))
  {
    hide ParseMessage, BuildMessage, EncodeAttrs, FindAttr, LongTermCred.RequestAttrs, LongTermCred.MacMd5;
    hide LongTermCred.MacSha256, LongTermCred.NoCredentials, LongTermCred.MacAttr, ShaAttr;
    var attrs := cred.RequestAttrs(extra, c.username, nonce);
    var digest := DigestAttr(cred, typ, m, Request, tid, attrs, c.username, c.password);
    DigestTyp(cred, typ, m, tid, attrs, c);
    cred.FindCredentials(extra, c.username, nonce, [digest] + more);
    assert attrs + [digest] + more == attrs + ([digest] + more);
    FindAttrCons(digest, more, MESSAGE_INTEGRITY);
    FindAttrCons(digest, more, MESSAGE_INTEGRITY_SHA256);
    if typ == MESSAGE_INTEGRITY {
      cred.AppendedAttributesAccepted(m, Request, tid, attrs, more, c.username, c.password);
    } else {
      ShaAppendedAccepted(cred, m, Request, tid, attrs, more, c.username, c.password);
    }
  }

  lemma DigestTyp(cred: LongTermCred, typ: u16, m: Method, tid: Octets, attrs: seq<Attribute>, c: HmacCredentials)
    requires |tid| == 12 && typ in {MESSAGE_INTEGRITY, MESSAGE_INTEGRITY_SHA256}
    ensures DigestAttr(cred, typ, m, Request, tid, attrs, c.username, c.password).typ == typ
  {
    hide BuildMessage;
  }

  /** Issued credentials let a request in with either digest and whatever stands behind it, exactly until they
      expire. */
  lemma SignedRequestAuthenticates(cred: LongTermCred, typ: u16, m: Method, tid: Octets, extra: seq<Attribute>,
                                   more: seq<Attribute>, userId: string, ttl: int, issued: int, nonce: string,
                                   allocatedUsername: string, nonces: map<string, Instant>, now: Instant, wall: int)
    requires IsInt64(issued + ttl) && IsByteString(userId) && nonce in nonces && now < nonces[nonce]
    requires RequestFits(cred, typ, tid, extra, cred.Validator().Generate(userId, ttl, issued), nonce, more)
    requires m == Allocate || allocatedUsername in {"", cred.Validator().Generate(userId, ttl, issued).username}
    ensures var c := cred.Validator().Generate(userId, ttl, issued);
            var raw := BuildMessage(m, Request, tid, SignedRequest(cred, typ, m, tid, extra, c, nonce, more));
            && ParseMessage(raw).Ok?
            && cred.Authenticate(ParseMessage(raw).msg, raw, allocatedUsername, nonces, now, wall)
               == if wall <= issued + ttl then AuthOk else CredentialsExpired
  {
    hide BuildMessage, ParseMessage, SignedRequest, RequestFits, FindAttr, Stoll, LongTermCred.MacMd5;
    hide LongTermCred.MacSha256;
    var c := cred.Validator().Generate(userId, ttl, issued);
    cred.Validator().CredentialWindow(userId, ttl, issued, wall);
    ExpiryOfIssued(issued + ttl, userId);
    SignedRequestParses(cred, typ, m, tid, extra, c, nonce, more);
    StringOfBytesOf(c.username);
    NonceIsBytes(cred, typ, tid, extra, c, nonce, more);
  }

  lemma NonceIsBytes(cred: LongTermCred, typ: u16, tid: Octets, extra: seq<Attribute>, c: HmacCredentials,
                     nonce: string, more: seq<Attribute>)
    requires RequestFits(cred, typ, tid, extra, c, nonce, more)
    ensures StringOf(BytesOf(nonce)) == nonce && |tid| == 12 && typ in {MESSAGE_INTEGRITY, MESSAGE_INTEGRITY_SHA256}
  {
    hide EncodeAttrs, FindAttr, LongTermCred.NoCredentials, LongTermCred.RequestAttrs;
    StringOfBytesOf(nonce);
  }

  lemma {:induction false} NoneFound(attrs: seq<Attribute>, typ: u16)
    requires FindAttr(attrs, typ).None?
    ensures forall i :: 0 <= i < |attrs| ==> attrs[i].typ != typ
  {
    if attrs != [] {
      NoneFound(attrs[1..], typ);
      assert forall i :: 0 < i < |attrs| ==> attrs[i] == attrs[1..][i - 1];
    }
  }

  /** Attributes before the first one of a type cannot name a peer if none of those that precede it does. */
  lemma NoPeerBefore(front: seq<Attribute>, digest: Attribute, rest: seq<Attribute>, covered: seq<Attribute>)
    requires covered <= front + [digest] + rest && FindAttr(covered, digest.typ).None?
    requires forall a :: a in front ==> !IsPeerAttr(a)
    ensures forall address :: !Installs(covered, address)
  {
    hide IsPeerAttr, PeerOf, IsDeniedAddress, FindAttr;
    NoneFound(covered, digest.typ);
    assert (front + [digest] + rest)[|front|] == digest;
    assert forall i :: 0 <= i < |covered| ==> covered[i] == front[i] && covered[i] in front;
    forall i: nat | i < |covered| ensures Asked(covered, i) == None {
      NotAsked(covered, i);
    }
  }

  lemma NotAsked(attrs: seq<Attribute>, i: nat)
    requires i < |attrs| && !IsPeerAttr(attrs[i])
    ensures Asked(attrs, i) == None
  {
  }

  /** A peer that no checked digest covers is permitted. The request is authenticated under issued credentials,
      with a digest of either kind, and names its only peer behind that digest. */
  lemma AppendedPeerIsPermitted(env: Env, s: Server, e: Event, typ: u16, tid: Octets, extra: seq<Attribute>,
                                userId: string, ttl: int, issued: int, nonce: string, ip: u32, port: u16)
    requires IsInt64(issued + ttl) && IsByteString(userId) && e.FromClient? && e.packet.wall <= issued + ttl
    requires nonce in s.nonces && e.packet.now < s.nonces[nonce]
    requires var c := env.cred.Validator().Generate(userId, ttl, issued);
             var more := [Attribute(XOR_PEER_ADDRESS, XorAddressValue(ip, port))];
             && RequestFits(env.cred, typ, tid, extra, c, nonce, more) && (forall a :: a in extra ==> !IsPeerAttr(a))
             && e.packet.raw == BuildMessage(CreatePermission, Request, tid,
                                             SignedRequest(env.cred, typ, CreatePermission, tid, extra, c, nonce, more))
             && EndpointKey(e.packet.from) in s.table.allocs
             && s.table.allocs[EndpointKey(e.packet.from)].username == c.username
    requires !IsDeniedAddress(FormatV4(ip))
    ensures Authentic(env, s, e) && DigestOf(e) == typ && HasDigest(e.packet.raw, typ)
    ensures forall address :: !Installs(Covered(e.packet.raw, typ), address)
    ensures Permits(Step(env, s, e).0.table, EndpointKey(e.packet.from), FormatV4(ip))
  {
    hide BuildMessage, ParseMessage, RequestFits, SignedRequest, IsDeniedAddress, FormatV4, XorAddressValue, PeerOf;
    hide FindAttr;
    hide LongTermCred.Authenticate, LongTermCred.MacMd5, LongTermCred.MacSha256, OnRequest, Step, EndpointKey;
    hide Installs, HasDigest, Covered, Behind, UsernameOf, LongTermCred.RequestAttrs, DigestAttr, IsPeerAttr;
    var c, p := env.cred.Validator().Generate(userId, ttl, issued), e.packet;
    var peer := Attribute(XOR_PEER_ADDRESS, XorAddressValue(ip, port));
    NonceIsBytes(env.cred, typ, tid, extra, c, nonce, [peer]);
    SignedRequestParses(env.cred, typ, CreatePermission, tid, extra, c, nonce, [peer]);
    SignedRequestAuthenticates(env.cred, typ, CreatePermission, tid, extra, [peer], userId, ttl, issued, nonce,
                               c.username, s.nonces, p.now, p.wall);
    FirstByteOfStun(p.raw);
    var msg := ParseMessage(p.raw).msg;
    assert RequestOf(e) == Some(msg) && Authentic(env, s, e);
    AuthenticIsCovered(env, s, e);
    DigestCovers(p.raw, typ);
    PeerBehind(env.cred, typ, tid, extra, c, nonce, ip, port, Covered(p.raw, typ));
    StepOfTable(env, s, e);
    KindOfRequest(env, s.table, msg, p);
    TidOfRequest(e);
    CreatePermissionMeans(s.table, msg, p.from, p.now);
  }

  lemma PeerBehind(cred: LongTermCred, typ: u16, tid: Octets, extra: seq<Attribute>, c: HmacCredentials, nonce: string,
                   ip: u32, port: u16, covered: seq<Attribute>)
    requires |tid| == 12 && typ in {MESSAGE_INTEGRITY, MESSAGE_INTEGRITY_SHA256} && !IsDeniedAddress(FormatV4(ip))
    requires forall a :: a in extra ==> !IsPeerAttr(a)
    requires var more := [Attribute(XOR_PEER_ADDRESS, XorAddressValue(ip, port))];
             && covered <= SignedRequest(cred, typ, CreatePermission, tid, extra, c, nonce, more)
             && FindAttr(covered, typ).None?
    ensures forall address :: !Installs(covered, address)
    ensures var more := [Attribute(XOR_PEER_ADDRESS, XorAddressValue(ip, port))];
            Installs(SignedRequest(cred, typ, CreatePermission, tid, extra, c, nonce, more), FormatV4(ip))
  {
    hide IsDeniedAddress, FormatV4, XorAddressValue, PeerOf, FindAttr, BytesOf, DigestAttr;
    var peer := Attribute(XOR_PEER_ADDRESS, XorAddressValue(ip, port));
    var attrs := cred.RequestAttrs(extra, c.username, nonce);
    var digest := DigestAttr(cred, typ, CreatePermission, Request, tid, attrs, c.username, c.password);
    DigestTyp(cred, typ, CreatePermission, tid, attrs, c);
    NoPeerBefore(attrs, digest, [peer], covered);
    PeerOfXorAddress(ip, port);
    var all, n := attrs + [digest] + [peer], |attrs| + 1;
    assert all[n] == peer;
    forall i: nat | i < n ensures !DeniedAt(all, i) {
      assert all[i] == (attrs + [digest])[i];
      assert !IsPeerAttr(all[i]);
    }
    assert Asked(all, n) == Some(FormatV4(ip));
    assert forall j: nat :: j <= n ==> !DeniedAt(all, j);
  }
}
