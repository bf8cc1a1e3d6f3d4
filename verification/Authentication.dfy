/** What lets a request in, in terms of its bytes, and what the others are answered. */
module Authentication {
  import opened Bytes
  import opened Text
  import opened Stun
  import opened Credentials
  import opened Integrity
  import opened Allocations
  import opened TurnServer

  // ----- the conditions, written out -----

  /** The password of a username: the base64 text of its HMAC under the shared secret. */
  function PasswordOf(cred: LongTermCred, username: string): string {
    cred.crypto.base64(cred.crypto.hmacSha1(BytesOf(cred.secret), BytesOf(username)))
  }

  function KeyText(cred: LongTermCred, username: string): string {
    username + ":" + cred.realm + ":" + PasswordOf(cred, username)
  }

  /** The 20 bytes of a MESSAGE-INTEGRITY at this offset are the HMAC-SHA-1 of what is in front of it, with the
      length field ending behind it. */
  predicate Sha1Right(cred: LongTermCred, raw: Octets, at: nat, username: string) {
    && 20 <= at && at + 24 <= |raw|
    && var covered := raw[..2] + Be16((at + 4) % 0x1_0000) + raw[4..at];
    && raw[at + 4..at + 24] == cred.crypto.hmacSha1(cred.crypto.md5(KeyText(cred, username)), covered)
  }

  /** The 32 bytes of a MESSAGE-INTEGRITY-SHA256 at this offset are the HMAC-SHA-256 of what is in front of it,
      its own header and 32 zero bytes, with the length field ending behind it. */
  predicate Sha256Right(cred: LongTermCred, raw: Octets, at: nat, username: string) {
    && 20 <= at && at + 36 <= |raw|
    && var covered := raw[..2] + Be16((at + 16) % 0x1_0000) + raw[4..at + 4] + Zeros(32);
    && raw[at + 4..at + 36] == cred.crypto.hmacSha256(cred.crypto.sha256(KeyText(cred, username)), covered)
  }

  /** The digest that counts is right: SHA-256 if the message carries that attribute, and else SHA-1. */
  predicate DigestRight(cred: LongTermCred, msg: TurnMessage, raw: Octets, username: string) {
    var typ: u16 := if msg.Find(0x001C).Some? then 0x001C else 0x0008;
    && |raw| >= 20 && Locate(raw, typ).Some?
    && if typ == 0x001C then Sha256Right(cred, raw, Locate(raw, typ).value, username)
       else Sha1Right(cred, raw, Locate(raw, typ).value, username)
  }

  /** USERNAME, REALM, NONCE and a digest are there. */
  predicate HasCredentials(msg: TurnMessage) {
    && msg.Find(0x0006).Some? && msg.Find(0x0014).Some? && msg.Find(0x0015).Some?
    && (msg.Find(0x001C).Some? || msg.Find(0x0008).Some?)
  }

  predicate NonceLive(msg: TurnMessage, nonces: map<string, Instant>, now: Instant)
    requires HasCredentials(msg)
  {
    var nonce := StringOf(msg.Find(0x0015).value);
    nonce in nonces && now < nonces[nonce]
  }

  function NameOf(msg: TurnMessage): string
    requires HasCredentials(msg)
  {
    StringOf(msg.Find(0x0006).value)
  }

  /** The number in front of the first colon of the name, if there is one. */
  function ExpiryOf(msg: TurnMessage): Option<int>
    requires HasCredentials(msg)
  {
    match IndexOf(NameOf(msg), ':')
    case None => None
    case Some(p) => Stoll(NameOf(msg)[..p])
  }

  predicate Unexpired(msg: TurnMessage, wall: int)
    requires HasCredentials(msg)
  {
    ExpiryOf(msg).Some? && wall <= ExpiryOf(msg).value
  }

  /** The name may act for an allocation of this owner; "" stands for no allocation. */
  predicate OwnerMatches(msg: TurnMessage, owner: string)
    requires HasCredentials(msg)
  {
    msg.kind == Allocate || owner == "" || NameOf(msg) == owner
  }

  // ----- the verdict -----

  lemma DigestIsMac(cred: LongTermCred, msg: TurnMessage, raw: Octets, username: string)
    requires ':' in username
    ensures var password := cred.Validator().GetPassword(username);
      && password != "" && password == PasswordOf(cred, username)
      && (msg.Find(0x001C).Some? ==> (cred.MacSha256(raw, username, password)
          <==> DigestRight(cred, msg, raw, username)))
      && (msg.Find(0x001C).None? ==> (cred.MacMd5(raw, username, password) <==> DigestRight(cred, msg, raw, username)))
  {
    hide FindAttr, FindFrom, Be16, Zeros, BytesOf, AttrsLen;
  }

  /** A request that is not an indication is accepted if and only if it carries credentials, its nonce is live, its
      name has not expired, the bytes of its digest are right, and the name is that of the allocation's owner;
      and every other verdict has its one cause. */
  lemma VerdictMeans(cred: LongTermCred, msg: TurnMessage, raw: Octets, owner: string, nonces: map<string, Instant>,
                     now: Instant, wall: int)
    requires msg.msgClass != Indication
    ensures var v, has := cred.Authenticate(msg, raw, owner, nonces, now, wall), HasCredentials(msg);
      && (v == MissingCredentials <==> !has)
      && (v == StaleNonce <==> has && !NonceLive(msg, nonces, now))
      && (v == CredentialsExpired <==>
            has && NonceLive(msg, nonces, now) && ExpiryOf(msg).Some? && !Unexpired(msg, wall))
      && (v == BadIntegrity <==>
            && has && NonceLive(msg, nonces, now)
            && (ExpiryOf(msg).None? || (Unexpired(msg, wall) && !DigestRight(cred, msg, raw, NameOf(msg)))))
      && (v == WrongCredentials <==>
            && has && NonceLive(msg, nonces, now) && Unexpired(msg, wall)
            && DigestRight(cred, msg, raw, NameOf(msg)) && !OwnerMatches(msg, owner))
      && (v == AuthOk <==>
            && has && NonceLive(msg, nonces, now) && Unexpired(msg, wall)
            && DigestRight(cred, msg, raw, NameOf(msg)) && OwnerMatches(msg, owner))
  {
    hide FindAttr, Stoll, DigestRight, LongTermCred.MacMd5, LongTermCred.MacSha256, StringOf, HmacValidator.GetPassword;
    if HasCredentials(msg) && ExpiryOf(msg).Some? {
      DigestIsMac(cred, msg, raw, NameOf(msg));
    }
  }

  /** In a parsed message the checked offset is that of the attribute the parser returns. */
  lemma DigestPlace(raw: Octets, msg: TurnMessage, typ: u16)
    requires ParseMessage(raw) == Ok(msg) && msg.Find(typ).Some?
    ensures |raw| >= 20 && Locate(raw, typ).Some?
    ensures var at := Locate(raw, typ).value;
      && at + 4 <= |raw| && ValueInside(raw, at) && msg.Find(typ).value == AttrAt(raw, at).value
  {
    hide ParseFrom, FindFrom, FindAttr, AttrAt, ValueInside, AttrsLen;
    ParsedAttributes(raw);
    WalkerMatchesParser(raw, 20, 20 + AttrsLen(raw), typ);
  }

  // ----- at the server -----

  /** The owner of the allocation at the sender's endpoint, or "" if there is none. */
  function OwnerAt(s: Server, client: Endpoint): string {
    var key := EndpointKey(client);
    if key in s.table.allocs then s.table.allocs[key].username else ""
  }

  lemma OwnerOfRequest(env: Env, s: Server, msg: TurnMessage, p: Packet)
    requires HasCredentials(msg)
    ensures OwnerMatches(msg, AllocatedUsername(s.table, msg, p.from)) <==> OwnerMatches(msg, OwnerAt(s, p.from))
  {
    hide EndpointKey, FindAttr;
  }

  lemma AuthenticMeans(env: Env, s: Server, e: Event)
    requires RequestOf(e).Some?
    ensures var msg, p := RequestOf(e).value, e.packet;
      Authentic(env, s, e) <==>
        && HasCredentials(msg) && NonceLive(msg, s.nonces, p.now) && Unexpired(msg, p.wall)
        && DigestRight(env.cred, msg, p.raw, NameOf(msg)) && OwnerMatches(msg, OwnerAt(s, p.from))
  {
    hide HasCredentials, NonceLive, Unexpired, DigestRight, NameOf, OwnerMatches, OwnerAt, AllocatedUsername;
    hide ParseMessage;
    hide LongTermCred.Authenticate;
    var msg, p := RequestOf(e).value, e.packet;
    VerdictMeans(env.cred, msg, p.raw, AllocatedUsername(s.table, msg, p.from), s.nonces, p.now, p.wall);
    if HasCredentials(msg) { OwnerOfRequest(env, s, msg, p); }
  }

  /** A challenge: the error of class 4 with this number, the realm and a new nonce. */
  function ChallengeBytes(env: Env, msg: TurnMessage, number: byte, reason: string, nonce: string): Octets {
    BuildMessage(msg.kind, ErrorResponse, msg.tid,
                 [Attribute(0x0009, [0, 0, 4, number] + BytesOf(reason)), Attribute(0x0014, BytesOf(env.cred.realm)),
                  Attribute(0x0015, BytesOf(nonce))])
  }

  /** The request is turned away with this challenge, whose nonce is stored for an hour, and nothing else changes. */
  ghost predicate TurnedAway(env: Env, s: Server, e: Event, number: byte, reason: string)
    requires RequestOf(e).Some?
  {
    var p := e.packet;
    Step(env, s, e) == (Server(s.table, s.nonces[p.nonce := p.now + 3600 * 1_000_000_000]),
                        [Datagram(ChallengeBytes(env, RequestOf(e).value, number, reason, p.nonce), p.from)])
  }

  lemma RefusalOfVerdict(env: Env, s: Server, e: Event)
    requires RequestOf(e).Some?
    ensures var msg, p := RequestOf(e).value, e.packet;
      var v := Verdict(env, s, msg, p);
      && (v in {MissingCredentials, BadIntegrity, CredentialsExpired} ==> TurnedAway(env, s, e, 1, "Unauthorized"))
      && (v == StaleNonce ==> TurnedAway(env, s, e, 38, "Stale Nonce"))
      && (v == WrongCredentials ==>
            Step(env, s, e) == (s, [Datagram(ErrorBytes(msg.tid, 4, 41, "Wrong Credentials"), p.from)]))
  {
    hide ParseMessage, Verdict, OnRequest, SendOutput, ChannelOutput, BuildMessage, SignedFor, BytesOf;
  }

  /** An error of the server: method Allocate, and one attribute with class, number and reason. */
  function ErrorBytes(tid: Octets, level: byte, number: byte, reason: string): Octets {
    BuildMessage(Allocate, ErrorResponse, tid, [Attribute(0x0009, [0, 0, level, number] + BytesOf(reason))])
  }

  /** What a request that is not accepted is answered, by its one cause. In particular a request whose digest has
      any other bytes leaves the table as it is and is challenged with 401. */
  lemma RefusalMeans(env: Env, s: Server, e: Event)
    requires RequestOf(e).Some?
    ensures var msg, p := RequestOf(e).value, e.packet;
      && (!HasCredentials(msg) ==> TurnedAway(env, s, e, 1, "Unauthorized"))
      && (HasCredentials(msg) ==>
            && (!NonceLive(msg, s.nonces, p.now) ==> TurnedAway(env, s, e, 38, "Stale Nonce"))
            && (NonceLive(msg, s.nonces, p.now) ==>
                  && (!Unexpired(msg, p.wall) || !DigestRight(env.cred, msg, p.raw, NameOf(msg)) ==>
                        TurnedAway(env, s, e, 1, "Unauthorized"))
                  && (Unexpired(msg, p.wall) && DigestRight(env.cred, msg, p.raw, NameOf(msg))
                      && !OwnerMatches(msg, OwnerAt(s, p.from)) ==>
                        Step(env, s, e) == (s, [Datagram(ErrorBytes(msg.tid, 4, 41, "Wrong Credentials"), p.from)]))))
  {
    hide HasCredentials, NonceLive, DigestRight, NameOf, OwnerMatches, OwnerAt, AllocatedUsername, ParseMessage;
    hide LongTermCred.Authenticate, Step, TurnedAway, ErrorBytes, ExpiryOf;
    var msg, p := RequestOf(e).value, e.packet;
    VerdictMeans(env.cred, msg, p.raw, AllocatedUsername(s.table, msg, p.from), s.nonces, p.now, p.wall);
    RefusalOfVerdict(env, s, e);
    if HasCredentials(msg) { OwnerOfRequest(env, s, msg, p); }
  }
}
