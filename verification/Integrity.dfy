/** Message integrity: the verifier's own attribute walker, signing, and the authentication of requests. */
module Integrity {
  import opened Bytes
  import opened Text
  import opened Stun
  import opened StunCodec
  import opened Credentials

  type Instant = int // nanoseconds of a steady clock

  const SECOND: int := 1_000_000_000

  // ----- the walker -----

  /** Offset of the first attribute of the given type. Unlike the parser, the walker never looks at values. */
  function FindFrom(raw: Octets, offset: nat, end: int, typ: u16): (at: Option<nat>)
    ensures at.Some? ==> offset <= at.value && at.value + 4 <= end && at.value + 4 <= |raw|
    decreases |raw| - offset
  {
    if offset + 4 > end || offset + 4 > |raw| then None
    else if TypeAt(raw, offset) == typ then Some(offset)
    else FindFrom(raw, NextAt(raw, offset), end, typ)
  }

  function AttrsLen(raw: Octets): nat
    requires |raw| >= 20
  {
    Word16(raw[2], raw[3])
  }

  /** The position of an integrity attribute in the packet. */
  function Locate(raw: Octets, typ: u16): Option<nat>
    requires |raw| >= 20
  {
    FindFrom(raw, 20, 20 + AttrsLen(raw), typ)
  }

  /** The walker and the parser agree: an attribute the parser returns is the one the walker stops at, and
      the walker stops elsewhere only at a last attribute whose value runs past the packet. */
  lemma {:induction false} WalkerMatchesParser(raw: Octets, offset: nat, end: int, typ: u16)
    requires end <= |raw|
    ensures var attr := FindAttr(ParseFrom(raw, offset, end), typ);
            var at := FindFrom(raw, offset, end, typ);
            && (attr.Some? <==> at.Some? && ValueInside(raw, at.value))
            && (attr.Some? ==> attr.value == AttrAt(raw, at.value).value)
    decreases |raw| - offset
  {
    if offset + 4 <= end && ValueInside(raw, offset) {
      FindAttrCons(AttrAt(raw, offset), ParseFrom(raw, NextAt(raw, offset), end), typ);
      WalkerMatchesParser(raw, NextAt(raw, offset), end, typ);
    }
  }

  lemma FindAttrCons(a: Attribute, more: seq<Attribute>, typ: u16)
    ensures FindAttr([a] + more, typ) == if a.typ == typ then Some(a.value) else FindAttr(more, typ)
  {
    assert ([a] + more)[1..] == more;
  }

  predicate AgreeUpTo(a: Octets, b: Octets, from: nat, n: nat) {
    n <= |a| && n <= |b| && forall i :: from <= i < n ==> a[i] == b[i]
  }

  /** Other bytes behind the attribute, or another end, do not move the offset as long as that end still
      reaches it; a shorter end loses it. */
  lemma {:induction false} FindFromLocal(raw: Octets, offset: nat, end: int, typ: u16, other: Octets, end': int)
    requires FindFrom(raw, offset, end, typ).Some?
    requires AgreeUpTo(raw, other, offset, FindFrom(raw, offset, end, typ).value + 4)
    ensures var at := FindFrom(raw, offset, end, typ);
            FindFrom(other, offset, end', typ) == if at.value + 4 <= end' then at else None
    decreases |raw| - offset
  {
    assert TypeAt(other, offset) == TypeAt(raw, offset) && LenAt(other, offset) == LenAt(raw, offset);
    if TypeAt(raw, offset) != typ {
      FindFromLocal(raw, NextAt(raw, offset), end, typ, other, end');
    }
  }

  /** The bytes under the SHA-1 digest: everything before the attribute, with the length field set as if
      the attribute ended the message. */
  function SignedMd5(raw: Octets, at: nat): Octets
    requires 20 <= at <= |raw|
  {
    raw[..2] + Be16((at - 20 + 24) % 0x1_0000) + raw[4..at]
  }

  /** The SHA-256 variant also covers its own attribute header and 32 zero bytes in place of the digest. */
  function SignedSha256(raw: Octets, at: nat): Octets
    requires 20 <= at && at + 36 <= |raw|
  {
    raw[..2] + Be16((at - 20 + 36) % 0x1_0000) + raw[4..at + 4] + Zeros(32)
  }

  /** Writing a length into a message byte by byte. */
  lemma PatchedLength(b: Octets, length: u16)
    requires |b| >= 4
    ensures b[2 := length / 0x100][3 := length % 0x100] == b[..2] + Be16(length) + b[4..]
  {
  }

  lemma PatchedMd5(raw: Octets, at: nat)
    requires 20 <= at <= |raw|
    ensures var length: u16 := (at - 20 + 24) % 0x1_0000;
            raw[..at][2 := length / 0x100][3 := length % 0x100] == SignedMd5(raw, at)
  {
    hide Be16;
    PatchedLength(raw[..at], (at - 20 + 24) % 0x1_0000);
    assert raw[..at][..2] == raw[..2] && raw[..at][4..] == raw[4..at];
  }

  lemma PatchedSha256(raw: Octets, at: nat)
    requires 20 <= at && at + 36 <= |raw|
    ensures var length: u16 := (at - 20 + 36) % 0x1_0000;
            raw[..at + 36][2 := length / 0x100][3 := length % 0x100][..at + 4] + Zeros(32) == SignedSha256(raw, at)
  {
    hide Be16;
    var length: u16, b := (at - 20 + 36) % 0x1_0000, raw[..at + 36];
    PatchedLength(b, length);
    assert (b[..2] + Be16(length) + b[4..])[..at + 4] == raw[..2] + Be16(length) + raw[4..at + 4];
  }

  // ----- authentication -----

  datatype AuthResult = AuthOk | MissingCredentials | StaleNonce | BadIntegrity | WrongCredentials | CredentialsExpired

  datatype LongTermCred = LongTermCred(crypto: Crypto, secret: string, realm: string) {

    function Validator(): HmacValidator { HmacValidator(crypto, secret) }

    function KeyMd5(username: string, password: string): Octets {
      crypto.md5(username + ":" + realm + ":" + password)
    }

    function KeySha256(username: string, password: string): Octets {
      crypto.sha256(username + ":" + realm + ":" + password)
    }

    predicate MacMd5(raw: Octets, username: string, password: string) {
      && |raw| >= 20
      && Locate(raw, MESSAGE_INTEGRITY).Some?
      && MacMd5At(raw, Locate(raw, MESSAGE_INTEGRITY).value, username, password)
    }

    predicate MacMd5At(raw: Octets, at: nat, username: string, password: string)
      requires at >= 20
    {
      && at + 24 <= |raw|
      && crypto.hmacSha1(KeyMd5(username, password), SignedMd5(raw, at)) == raw[at + 4..at + 24]
    }

    predicate MacSha256(raw: Octets, username: string, password: string) {
      && |raw| >= 20
      && Locate(raw, MESSAGE_INTEGRITY_SHA256).Some?
      && MacSha256At(raw, Locate(raw, MESSAGE_INTEGRITY_SHA256).value, username, password)
    }

    predicate MacSha256At(raw: Octets, at: nat, username: string, password: string)
      requires at >= 20
    {
      && at + 36 <= |raw|
      && crypto.hmacSha256(KeySha256(username, password), SignedSha256(raw, at)) == raw[at + 4..at + 36]
    }

    /** The loop both verifiers share. */
    method Walk(raw: Octets, typ: u16) returns (at: Option<nat>)
      requires |raw| >= 20
      ensures at == Locate(raw, typ)
    {
      hide Word16;
      var end := 20 + AttrsLen(raw);
      var offset := 20;
      while offset + 4 <= end && offset + 4 <= |raw|
        invariant FindFrom(raw, offset, end, typ) == Locate(raw, typ)
        decreases |raw| - offset
      {
        var len: nat := Word16(raw[offset + 2], raw[offset + 3]);
        if Word16(raw[offset], raw[offset + 1]) == typ {
          return Some(offset);
        }
        offset := offset + 4 + len;
        if len % 4 != 0 {
          offset := offset + 4 - len % 4;
        }
      }
      at := None;
    }

    method VerifyMessageIntegrityMd5(raw: Octets, username: string, password: string) returns (ok: bool)
      ensures ok == MacMd5(raw, username, password)
    {
      hide FindFrom, SignedMd5, SignedSha256, Word16, KeyMd5, KeySha256;
      if |raw| < 20 {
        return false;
      }
      var found := Walk(raw, MESSAGE_INTEGRITY);
      if found.None? {
        return false;
      }
      var at := found.value;
      if at + 24 > |raw| {
        return false;
      }
      var adjusted: u16 := (at - 20 + 24) % 0x1_0000;
      var buf := raw[..at];
      buf := buf[2 := adjusted / 0x100];
      buf := buf[3 := adjusted % 0x100];
      PatchedMd5(raw, at);
      ok := crypto.hmacSha1(KeyMd5(username, password), buf) == raw[at + 4..at + 24];
    }

    method VerifyMessageIntegrity(raw: Octets, username: string, password: string) returns (ok: bool)
      ensures ok == MacSha256(raw, username, password)
    {
      hide FindFrom, SignedMd5, SignedSha256, Word16, KeyMd5, KeySha256;
      if |raw| < 20 {
        return false;
      }
      var found := Walk(raw, MESSAGE_INTEGRITY_SHA256);
      if found.None? {
        return false;
      }
      var at := found.value;
      if at + 36 > |raw| {
        return false;
      }
      var adjusted: u16 := (at - 20 + 36) % 0x1_0000;
      var buf := raw[..at + 36];
      buf := buf[2 := adjusted / 0x100];
      buf := buf[3 := adjusted % 0x100];
      buf := buf[..at + 4] + Zeros(32);
      PatchedSha256(raw, at);
      ok := crypto.hmacSha256(KeySha256(username, password), buf) == raw[at + 4..at + 36];
    }

    lemma MacAtLocal(raw: Octets, other: Octets, at: nat, username: string, password: string)
      requires at >= 20 && |raw| >= 20 && |other| >= 20 && raw[..2] == other[..2]
      ensures AgreeUpTo(raw, other, 4, at + 24) ==>
        MacMd5At(raw, at, username, password) == MacMd5At(other, at, username, password)
      ensures AgreeUpTo(raw, other, 4, at + 36) ==>
        MacSha256At(raw, at, username, password) == MacSha256At(other, at, username, password)
    {
      if AgreeUpTo(raw, other, 4, at + 24) {
        assert other[4..at] == raw[4..at] && other[at + 4..at + 24] == raw[at + 4..at + 24];
      }
      if AgreeUpTo(raw, other, 4, at + 36) {
        assert other[4..at + 4] == raw[4..at + 4] && other[at + 4..at + 36] == raw[at + 4..at + 36];
      }
    }

    lemma LocateLocal(raw: Octets, other: Octets, typ: u16)
      requires |raw| >= 20 && |other| >= 20 && Locate(raw, typ).Some?
      requires AgreeUpTo(raw, other, 4, Locate(raw, typ).value + 4)
      ensures Locate(other, typ)
           == if Locate(raw, typ).value + 4 <= 20 + AttrsLen(other) then Locate(raw, typ) else None
    {
      hide FindFrom, Word16;
      FindFromLocal(raw, 20, 20 + AttrsLen(raw), typ, other, 20 + AttrsLen(other));
    }

    /** The verdict depends only on the bytes before the attribute and on its digest: any other bytes behind
        the digest and any other length field give the same verdict, unless that length no longer reaches
        the attribute header, and then the message is rejected. */
    lemma VerdictIsLocal(raw: Octets, other: Octets, username: string, password: string)
      requires |raw| >= 20 && |other| >= 20 && raw[..2] == other[..2]
      requires var at := Locate(raw, MESSAGE_INTEGRITY); at.Some? && AgreeUpTo(raw, other, 4, at.value + 24)
      ensures MacMd5(other, username, password)
              <==> MacMd5(raw, username, password)
                   && Locate(raw, MESSAGE_INTEGRITY).value + 4 <= 20 + AttrsLen(other)
    {
      var at := Locate(raw, MESSAGE_INTEGRITY).value;
      LocateLocal(raw, other, MESSAGE_INTEGRITY);
      MacAtLocal(raw, other, at, username, password);
      assert MacMd5(raw, username, password) == MacMd5At(raw, at, username, password);
    }

    lemma VerdictIsLocalSha256(raw: Octets, other: Octets, username: string, password: string)
      requires |raw| >= 20 && |other| >= 20 && raw[..2] == other[..2]
      requires var at := Locate(raw, MESSAGE_INTEGRITY_SHA256); at.Some? && AgreeUpTo(raw, other, 4, at.value + 36)
      ensures MacSha256(other, username, password)
              <==> MacSha256(raw, username, password)
                   && Locate(raw, MESSAGE_INTEGRITY_SHA256).value + 4 <= 20 + AttrsLen(other)
    {
      var at := Locate(raw, MESSAGE_INTEGRITY_SHA256).value;
      LocateLocal(raw, other, MESSAGE_INTEGRITY_SHA256);
      MacAtLocal(raw, other, at, username, password);
      assert MacSha256(raw, username, password) == MacSha256At(raw, at, username, password);
    }

    // ----- signing -----

    /** The response with its length field set as if a 24-byte attribute followed. */
    function Patched(resp: Octets): Octets
      requires |resp| >= 20
    {
      resp[..2] + Be16((|resp| - 20 + 24) % 0x1_0000) + resp[4..]
    }

    function MacOf(message: Octets, username: string, password: string): Digest20
      requires |message| >= 20
    {
      crypto.hmacSha1(KeyMd5(username, password), Patched(message))
    }

    function WithMac(message: Octets, username: string, password: string): Octets
      requires |message| >= 20
    {
      Patched(message) + (Be16(MESSAGE_INTEGRITY) + Be16(20) + MacOf(message, username, password))
    }

    /** signResponse: append MESSAGE-INTEGRITY to a success response, leave anything else alone. */
    function Signed(resp: Octets, username: string, password: string): Octets {
      if |resp| < 20 || DecodeClass(resp[0], resp[1]) != SuccessResponse then resp
      else WithMac(resp, username, password)
    }

    method SignResponse(resp: Octets, username: string, password: string) returns (result: Octets)
      ensures result == Signed(resp, username, password)
    {
      if |resp| < 20 {
        return resp;
      }
      if DecodeClass(resp[0], resp[1]) != SuccessResponse {
        return resp;
      }
      var adjusted: u16 := (|resp| - 20 + 24) % 0x1_0000;
      var buf := resp[2 := adjusted / 0x100][3 := adjusted % 0x100];
      PatchedLength(resp, adjusted);
      var mac := crypto.hmacSha1(KeyMd5(username, password), buf);
      result := buf + (Be16(MESSAGE_INTEGRITY) + Be16(20) + mac);
    }

    lemma CoveredExtends(m: Method, c: MessageClass, tid: Octets, body: Octets, last: Octets)
      requires |tid| == 12 && |last| == 24
      ensures Patched(Frame(m, c, tid, body)) + last == Frame(m, c, tid, body + last)
    {
      var resp := Frame(m, c, tid, body);
      assert resp[..2] == [TypeHigh(m, c), TypeLow(m, c)];
      assert resp[4..] == Be32(MAGIC_COOKIE) + tid + body;
      assert |body + last| == |resp| - 20 + 24;
    }

    lemma MacAttrBytes(mac: Digest20)
      ensures EncodeAttrs([Attribute(MESSAGE_INTEGRITY, mac)]) == Be16(MESSAGE_INTEGRITY) + Be16(20) + mac
    {
      assert mac[..20] == mac;
      assert EncodeAttrs([Attribute(MESSAGE_INTEGRITY, mac)]) == EncodeAttr(Attribute(MESSAGE_INTEGRITY, mac)) + [];
    }

    function MacAttr(m: Method, c: MessageClass, tid: Octets, attrs: seq<Attribute>, username: string,
        password: string):
      Attribute
      requires |tid| == 12
    {
      Attribute(MESSAGE_INTEGRITY, MacOf(BuildMessage(m, c, tid, attrs), username, password))
    }

    /** Signing a built message gives the message one would build with the digest as a last attribute. */
    lemma MacIsBuilt(m: Method, c: MessageClass, tid: Octets, attrs: seq<Attribute>, username: string, password: string)
      requires |tid| == 12
      ensures WithMac(BuildMessage(m, c, tid, attrs), username, password)
           == BuildMessage(m, c, tid, attrs + [MacAttr(m, c, tid, attrs, username, password)])
    {
      var body := EncodeAttrs(attrs);
      var a := MacAttr(m, c, tid, attrs, username, password);
      HeaderOfFrame(m, c, tid, body);
      EncodeAttrsAppend(attrs, [a]);
      MacAttrBytes(a.value);
      CoveredExtends(m, c, tid, body, Be16(MESSAGE_INTEGRITY) + Be16(20) + a.value);
    }

    lemma FrameExtension(m: Method, c: MessageClass, tid: Octets, body: Octets, last: Octets)
      requires |tid| == 12 && |last| == 24 && |body| + 24 < 0x1_0000
      ensures var f := Frame(m, c, tid, body + last);
              && |f| == 44 + |body| && AttrsLen(f) == |body| + 24
              && EncodedAt(f, 20, body) && f[20 + |body|..] == last
              && f[..2] == Frame(m, c, tid, body)[..2]
              && f[4..20 + |body|] == Frame(m, c, tid, body)[4..]
    {
      HeaderOfFrame(m, c, tid, body);
      HeaderOfFrame(m, c, tid, body + last);
      SmallRemainder(|body + last|);
      var f := Frame(m, c, tid, body + last);
      assert f[20..] == body + last;
      assert f[20 + |body|..] == f[20..][|body|..];
      assert f[20..20 + |body|] == f[20..][..|body|];
    }

    /** Signing and verifying agree: a built message without an integrity attribute, with room for one, is
        accepted after signing under the same name and password, and parses to the same attributes plus the
        digest. */
    lemma SignedVerifies(m: Method, c: MessageClass, tid: Octets, attrs: seq<Attribute>, username: string,
        password: string)
      requires |tid| == 12 && Sized(attrs) && |EncodeAttrs(attrs)| + 24 < 0x1_0000
      requires FindAttr(attrs, MESSAGE_INTEGRITY).None?
      ensures var signed := WithMac(BuildMessage(m, c, tid, attrs), username, password);
              && MacMd5(signed, username, password)
              && ParseMessage(signed) == Ok(TurnMessage(c, m, |EncodeAttrs(attrs)| + 24, tid,
                                                        attrs + [MacAttr(m, c, tid, attrs, username, password)]))
    {
      var body, a := EncodeAttrs(attrs), MacAttr(m, c, tid, attrs, username, password);
      var last := Be16(MESSAGE_INTEGRITY) + Be16(20) + a.value;
      MacIsBuilt(m, c, tid, attrs, username, password);
      EncodeAttrsAppend(attrs, [a]);
      MacAttrBytes(a.value);
      BuildParseRoundTrip(m, c, tid, attrs + [a]);
      MacFound(m, c, tid, attrs, a, username, password);
    }

    lemma MacFound(m: Method, c: MessageClass, tid: Octets, attrs: seq<Attribute>, a: Attribute,
                   username: string, password: string)
      requires |tid| == 12 && |EncodeAttrs(attrs)| + 24 < 0x1_0000
      requires FindAttr(attrs, MESSAGE_INTEGRITY).None?
      requires a == MacAttr(m, c, tid, attrs, username, password)
      ensures var last := Be16(MESSAGE_INTEGRITY) + Be16(20) + a.value;
              MacMd5(Frame(m, c, tid, EncodeAttrs(attrs) + last), username, password)
    {
      var body, last := EncodeAttrs(attrs), Be16(MESSAGE_INTEGRITY) + Be16(20) + a.value;
      var resp, f := Frame(m, c, tid, body), Frame(m, c, tid, body + last);
      MacLocated(m, c, tid, attrs, last);
      FrameExtension(m, c, tid, body, last);
      HeaderOfFrame(m, c, tid, body);
      assert SignedMd5(f, 20 + |body|) == Patched(resp);
      assert f[24 + |body|..44 + |body|] == last[4..] == a.value;
    }

    lemma MacLocated(m: Method, c: MessageClass, tid: Octets, attrs: seq<Attribute>, last: Octets)
      requires |tid| == 12 && |EncodeAttrs(attrs)| + 24 < 0x1_0000 && |last| == 24
      requires FindAttr(attrs, MESSAGE_INTEGRITY).None? && last[..2] == Be16(MESSAGE_INTEGRITY)
      ensures var body := EncodeAttrs(attrs);
              var f := Frame(m, c, tid, body + last);
              && |f| == 44 + |body| && Locate(f, MESSAGE_INTEGRITY) == Some(20 + |body|)
              && f[24 + |body|..44 + |body|] == last[4..]
    {
      hide EncodeAttrs, Frame, FindFrom, FindAttr, Word16, Be16;
      var body := EncodeAttrs(attrs);
      var f, at := Frame(m, c, tid, body + last), 20 + |body|;
      FrameExtension(m, c, tid, body, last);
      FindPastEncoded(f, 20, attrs, at + 24, MESSAGE_INTEGRITY);
      FoundHere(f, at, at + 24, last, MESSAGE_INTEGRITY);
    }

    // ----- what a digest covers -----

    /** Attributes appended behind the digest, with the length field adjusted, do not change the verdict, and
        the parser returns them with the others. */
    lemma AppendedAttributesAccepted(m: Method, c: MessageClass, tid: Octets, attrs: seq<Attribute>,
                                     more: seq<Attribute>, username: string, password: string)
      requires |tid| == 12 && Sized(attrs) && Sized(more) && FindAttr(attrs, MESSAGE_INTEGRITY).None?
      requires |EncodeAttrs(attrs)| + 24 + |EncodeAttrs(more)| < 0x1_0000
      ensures var all := attrs + [MacAttr(m, c, tid, attrs, username, password)] + more;
              var raw := BuildMessage(m, c, tid, all);
              && MacMd5(raw, username, password)
              && ParseMessage(raw) == Ok(TurnMessage(c, m, |EncodeAttrs(attrs)| + 24 + |EncodeAttrs(more)|, tid, all))
    {
      hide ParseMessage, Locate, MacMd5, Frame, EncodeAttr, FindAttr, Word16;
      var body, a := EncodeAttrs(attrs), MacAttr(m, c, tid, attrs, username, password);
      var last := Be16(MESSAGE_INTEGRITY) + Be16(20) + a.value;
      EncodeAttrsAppend(attrs, [a]);
      EncodeAttrsAppend(attrs + [a], more);
      MacAttrBytes(a.value);
      MacLocated(m, c, tid, attrs, last);
      MacFound(m, c, tid, attrs, a, username, password);
      LongerFrame(m, c, tid, body + last, EncodeAttrs(more));
      VerdictIsLocal(Frame(m, c, tid, body + last), Frame(m, c, tid, body + last + EncodeAttrs(more)), username,
          password);
      BuildParseRoundTrip(m, c, tid, attrs + [a] + more);
    }

    lemma LongerFrame(m: Method, c: MessageClass, tid: Octets, body: Octets, more: Octets)
      requires |tid| == 12 && |body| + |more| < 0x1_0000
      ensures var f, g := Frame(m, c, tid, body), Frame(m, c, tid, body + more);
              && |f| == 20 + |body| && |g| == 20 + |body| + |more| && f[..2] == g[..2]
              && AgreeUpTo(f, g, 4, 20 + |body|) && AttrsLen(g) == |body| + |more|
    {
      hide Word16;
      HeaderOfFrame(m, c, tid, body);
      HeaderOfFrame(m, c, tid, body + more);
      SmallRemainder(|body + more|);
      var f, g := Frame(m, c, tid, body), Frame(m, c, tid, body + more);
      assert f[..2] == [TypeHigh(m, c), TypeLow(m, c)] == g[..2];
      assert f[4..] == Be32(MAGIC_COOKIE) + tid + body;
      assert g[4..] == f[4..] + more;
      forall i | 4 <= i < 20 + |body| ensures f[i] == g[i] {
        assert g[i] == g[4..][i - 4] && f[i] == f[4..][i - 4];
      }
    }

    // ----- requests -----

    /** The checks of one request, in the order the source makes them. now drives the nonce, wall the
        expiry inside the username. */
    function Authenticate(msg: TurnMessage, raw: Octets, allocatedUsername: string, nonces: map<string, Instant>,
                          now: Instant, wall: int): AuthResult
    {
      if msg.msgClass == Indication then AuthOk
      else if msg.Find(USERNAME).None? || msg.Find(REALM).None? || msg.Find(NONCE).None? then MissingCredentials
      else if msg.Find(MESSAGE_INTEGRITY_SHA256).None? && msg.Find(MESSAGE_INTEGRITY).None? then MissingCredentials
      else
        var username, nonce := StringOf(msg.Find(USERNAME).value), StringOf(msg.Find(NONCE).value);
        var expiry, password := ParseExpiry(username), Validator().GetPassword(username);
        if !(nonce in nonces && now < nonces[nonce]) then StaleNonce
        else if expiry.None? then BadIntegrity
        else if wall > expiry.value then CredentialsExpired
        else if password == "" then BadIntegrity
        else if !(if msg.Find(MESSAGE_INTEGRITY_SHA256).Some? then MacSha256(raw, username, password)
                  else MacMd5(raw, username, password)) then BadIntegrity
        else if msg.kind != Allocate && allocatedUsername != "" && username != allocatedUsername then WrongCredentials
        else AuthOk
    }

    method AuthenticateRequest(msg: TurnMessage, raw: Octets, allocatedUsername: string, nonces: map<string, Instant>,
                               now: Instant, wall: int) returns (r: AuthResult)
      ensures r == Authenticate(msg, raw, allocatedUsername, nonces, now, wall)
    {
      if msg.msgClass == Indication {
        return AuthOk;
      }
      var usernameAttr, realmAttr, nonceAttr := msg.Find(USERNAME), msg.Find(REALM), msg.Find(NONCE);
      var sha256, md5 := msg.Find(MESSAGE_INTEGRITY_SHA256), msg.Find(MESSAGE_INTEGRITY);
      var hasMi := sha256.Some? || md5.Some?;
      if usernameAttr.None? || realmAttr.None? || nonceAttr.None? || !hasMi {
        return MissingCredentials;
      }
      var username, nonce := StringOf(usernameAttr.value), StringOf(nonceAttr.value);
      if nonce !in nonces || now >= nonces[nonce] {
        return StaleNonce;
      }
      var expiry := ParseExpiry(username);
      if expiry.None? {
        return BadIntegrity;
      }
      if wall > expiry.value {
        return CredentialsExpired;
      }
      var password := Validator().GetPassword(username);
      if password == "" {
        return BadIntegrity;
      }
      var ok;
      if sha256.Some? {
        ok := VerifyMessageIntegrity(raw, username, password);
      } else {
        ok := VerifyMessageIntegrityMd5(raw, username, password);
      }
      if !ok {
        return BadIntegrity;
      }
      if msg.kind != Allocate && allocatedUsername != "" && username != allocatedUsername {
        return WrongCredentials;
      }
      r := AuthOk;
    }

    /** Only usernames with an expiry in front of a colon are ever authenticated, so an owner's name is
        never empty. */
    lemma AuthenticatedUsername(msg: TurnMessage, raw: Octets, allocatedUsername: string,
                                nonces: map<string, Instant>, now: Instant, wall: int)
      requires msg.msgClass != Indication
      requires Authenticate(msg, raw, allocatedUsername, nonces, now, wall) == AuthOk
      ensures msg.Find(USERNAME).Some? && ':' in StringOf(msg.Find(USERNAME).value)
      ensures msg.kind != Allocate && allocatedUsername != "" ==>
          StringOf(msg.Find(USERNAME).value) == allocatedUsername
      ensures msg.Find(NONCE).Some?
      ensures var nonce := StringOf(msg.Find(NONCE).value); nonce in nonces && now < nonces[nonce]
    {
    }

    /** The credentials a request carries, after whatever attributes it needs. */
    function RequestAttrs(extra: seq<Attribute>, username: string, nonce: string): seq<Attribute> {
      extra + [Attribute(USERNAME, BytesOf(username)), Attribute(REALM, BytesOf(realm)),
          Attribute(NONCE, BytesOf(nonce))]
    }

    ghost predicate NoCredentials(extra: seq<Attribute>) {
      forall typ :: typ in {USERNAME, REALM, NONCE, MESSAGE_INTEGRITY, MESSAGE_INTEGRITY_SHA256} ==>
        FindAttr(extra, typ).None?
    }

    /** A request built and signed with issued credentials and a live nonce is authenticated exactly until
        the credentials expire, whatever it asks for. */
    lemma IssuedCredentialsAuthenticate(
      m: Method, tid: Octets, extra: seq<Attribute>, userId: string, ttl: int, issued: int, nonce: string,
      allocatedUsername: string, nonces: map<string, Instant>, now: Instant, wall: int)
      requires IsInt64(issued + ttl) && IsByteString(userId) && IsByteString(nonce)
      requires nonce in nonces && now < nonces[nonce]
      requires var username := Validator().Generate(userId, ttl, issued).username;
               && |tid| == 12 && NoCredentials(extra) && Sized(RequestAttrs(extra, username, nonce))
               && |EncodeAttrs(RequestAttrs(extra, username, nonce))| + 24 < 0x1_0000
               && (m == Allocate || allocatedUsername in {"", username})
      ensures var c := Validator().Generate(userId, ttl, issued);
              var raw := WithMac(BuildMessage(m, Request, tid, RequestAttrs(extra, c.username, nonce)),
                                 c.username, c.password);
              && ParseMessage(raw).Ok?
              && Authenticate(ParseMessage(raw).msg, raw, allocatedUsername, nonces, now, wall)
                 == if wall <= issued + ttl then AuthOk else CredentialsExpired
    {
      hide BuildMessage, ParseMessage, EncodeAttrs, WithMac, RequestAttrs, NoCredentials, FindAttr, Stoll;
      var c := Validator().Generate(userId, ttl, issued);
      var attrs := RequestAttrs(extra, c.username, nonce);
      var a := MacAttr(m, Request, tid, attrs, c.username, c.password);
      Validator().CredentialWindow(userId, ttl, issued, wall);
      ExpiryOfIssued(issued + ttl, userId);
      FindInRequest(extra, c.username, nonce, a);
      SignedVerifies(m, Request, tid, attrs, c.username, c.password);
      StringOfBytesOf(c.username);
      StringOfBytesOf(nonce);
    }

    /** The credentials of a request are found whatever follows them, and only what follows can be a digest. */
    lemma FindCredentials(extra: seq<Attribute>, username: string, nonce: string, more: seq<Attribute>)
      requires NoCredentials(extra)
      ensures var attrs := RequestAttrs(extra, username, nonce);
              && FindAttr(attrs, MESSAGE_INTEGRITY).None? && FindAttr(attrs, MESSAGE_INTEGRITY_SHA256).None?
              && FindAttr(attrs + more, USERNAME) == Some(BytesOf(username))
              && FindAttr(attrs + more, REALM) == Some(BytesOf(realm))
              && FindAttr(attrs + more, NONCE) == Some(BytesOf(nonce))
              && FindAttr(attrs + more, MESSAGE_INTEGRITY) == FindAttr(more, MESSAGE_INTEGRITY)
              && FindAttr(attrs + more, MESSAGE_INTEGRITY_SHA256) == FindAttr(more, MESSAGE_INTEGRITY_SHA256)
    {
      var u, r := Attribute(USERNAME, BytesOf(username)), Attribute(REALM, BytesOf(realm));
      var n := Attribute(NONCE, BytesOf(nonce));
      var attrs := RequestAttrs(extra, username, nonce);
      assert [u, r, n] == [u] + [r, n] && [r, n] == [r] + [n] && [n] == [n] + [];
      forall typ | typ in {USERNAME, REALM, NONCE, MESSAGE_INTEGRITY, MESSAGE_INTEGRITY_SHA256}
        ensures FindAttr(attrs, typ) == if typ == USERNAME then Some(u.value) else if typ == REALM then Some(r.value)
                                        else if typ == NONCE then Some(n.value) else None
        ensures FindAttr(attrs + more, typ) == if FindAttr(attrs, typ).Some? then FindAttr(attrs, typ)
                                               else FindAttr(more, typ)
      {
        FindAttrAppend(extra, [u, r, n], typ);
        FindAttrCons(u, [r, n], typ);
        FindAttrCons(r, [n], typ);
        FindAttrCons(n, [], typ);
        FindAttrAppend(attrs, more, typ);
      }
    }

    lemma FindInRequest(extra: seq<Attribute>, username: string, nonce: string, mac: Attribute)
      requires NoCredentials(extra) && mac.typ == MESSAGE_INTEGRITY
      ensures var attrs := RequestAttrs(extra, username, nonce);
              && FindAttr(attrs, MESSAGE_INTEGRITY).None?
              && FindAttr(attrs + [mac], USERNAME) == Some(BytesOf(username))
              && FindAttr(attrs + [mac], REALM) == Some(BytesOf(realm))
              && FindAttr(attrs + [mac], NONCE) == Some(BytesOf(nonce))
              && FindAttr(attrs + [mac], MESSAGE_INTEGRITY) == Some(mac.value)
              && FindAttr(attrs + [mac], MESSAGE_INTEGRITY_SHA256) == None
    {
      hide NoCredentials, RequestAttrs, FindAttr;
      FindCredentials(extra, username, nonce, [mac]);
      assert [mac] == [mac] + [];
      FindAttrCons(mac, [], MESSAGE_INTEGRITY);
      FindAttrCons(mac, [], MESSAGE_INTEGRITY_SHA256);
      NothingFound(MESSAGE_INTEGRITY_SHA256);
    }
  }

  lemma NothingFound(typ: u16)
    ensures FindAttr([], typ).None?
  {
  }

  /** The parser's result splits at the attribute the walker finds, and what comes before is read off the
      bytes before it. */
  lemma {:induction false} SplitAtFound(raw: Octets, offset: nat, end: int, typ: u16, other: Octets)
    requires end <= |raw| && FindFrom(raw, offset, end, typ).Some?
    requires var at := FindFrom(raw, offset, end, typ).value; |other| == at && AgreeUpTo(raw, other, offset, at)
    ensures var at := FindFrom(raw, offset, end, typ).value;
            && ParseFrom(raw, offset, end) == ParseFrom(other, offset, at) + ParseFrom(raw, at, end)
            && FindAttr(ParseFrom(other, offset, at), typ).None?
    decreases |raw| - offset
  {
    hide TypeAt, NextAt, AttrAt, ValueInside;
    var at := FindFrom(raw, offset, end, typ).value;
    if TypeAt(raw, offset) != typ {
      var next := NextAt(raw, offset);
      SameAttribute(raw, offset, other);
      SplitAtFound(raw, next, end, typ, other);
      var before := ParseFrom(other, next, at);
      FindAttrCons(AttrAt(raw, offset), before, typ);
      assert [AttrAt(raw, offset)] + (before + ParseFrom(raw, at, end))
          == [AttrAt(raw, offset)] + before + ParseFrom(raw, at, end);
    }
  }

  lemma SameAttribute(raw: Octets, offset: nat, other: Octets)
    requires offset + 4 <= |raw| && NextAt(raw, offset) <= |other| <= |raw| && AgreeUpTo(raw, other, offset, |other|)
    ensures ValueInside(raw, offset) && ValueInside(other, offset)
    ensures TypeAt(other, offset) == TypeAt(raw, offset) == AttrAt(raw, offset).typ
        && NextAt(other, offset) == NextAt(raw, offset)
    ensures AttrAt(other, offset) == AttrAt(raw, offset)
  {
    hide Padding, Word16;
    assert TypeAt(other, offset) == TypeAt(raw, offset) && LenAt(other, offset) == LenAt(raw, offset);
  }

  lemma ParsedAttributes(raw: Octets)
    requires ParseMessage(raw).Ok?
    ensures |raw| >= 20 && 20 + AttrsLen(raw) <= |raw|
    ensures ParseMessage(raw).msg.attributes == ParseFrom(raw, 20, 20 + AttrsLen(raw))
  {
    hide Word16, Word32, ParseFrom, DecodeMethod, DecodeClass;
  }

  lemma FoundHere(raw: Octets, at: nat, end: int, last: Octets, typ: u16)
    requires at + 4 <= |raw| && at + 4 <= end && raw[at..] == last && last[..2] == Be16(typ)
    ensures FindFrom(raw, at, end, typ) == Some(at)
    ensures raw[at + 4..] == last[4..] && raw[at + 4..|raw|] == last[4..]
  {
    assert raw[at] == last[..2][0] && raw[at + 1] == last[..2][1];
    Word16OfBe16(typ);
    hide Word16, Be16;
    assert raw[at + 4..] == raw[at..][4..];
  }

  lemma {:induction false} FindAttrAppend(a: seq<Attribute>, b: seq<Attribute>, typ: u16)
    ensures FindAttr(a + b, typ) == if FindAttr(a, typ).Some? then FindAttr(a, typ) else FindAttr(b, typ)
  {
    if a == [] {
      assert a + b == b;
    } else {
      assert (a + b)[1..] == a[1..] + b;
      FindAttrAppend(a[1..], b, typ);
    }
  }

  lemma {:induction false} FindPastEncoded(raw: Octets, offset: nat, attrs: seq<Attribute>, end: int, typ: u16)
    requires EncodedAt(raw, offset, EncodeAttrs(attrs)) && offset + |EncodeAttrs(attrs)| <= end
    requires FindAttr(attrs, typ).None?
    ensures FindFrom(raw, offset, end, typ) == FindFrom(raw, offset + |EncodeAttrs(attrs)|, end, typ)
    decreases attrs
  {
    hide EncodeAttr, Padding;
    if attrs != [] {
      var a := attrs[0];
      SplitEncoded(raw, offset, EncodeAttr(a), EncodeAttrs(attrs[1..]));
      AttrOfEncode(raw, offset, a);
      FindPastEncoded(raw, offset + |EncodeAttr(a)|, attrs[1..], end, typ);
    }
  }
}
