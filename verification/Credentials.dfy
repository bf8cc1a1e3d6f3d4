/** Cryptographic primitives as parameters, and the time-limited TURN credentials. */
module Credentials {
  import opened Bytes
  import opened Text

  type Digest16 = d: Octets | |d| == 16 witness Zeros(16)
  type Digest20 = d: Octets | |d| == 20 witness Zeros(20)
  type Digest32 = d: Octets | |d| == 32 witness Zeros(32)

  /** Base64 text of a 20-byte digest. */
  type Base64Digest = s: string | |s| == 28 witness seq(28, _ => 'A')

  /** The OpenSSL calls: any functions with these output sizes. */
  datatype Crypto = Crypto(
    hmacSha1: (Octets, Octets) -> Digest20,
    hmacSha256: (Octets, Octets) -> Digest32,
    md5: string -> Digest16,
    sha256: string -> Digest32,
    base64: Digest20 -> Base64Digest)

  datatype HmacCredentials = HmacCredentials(username: string, password: string)

  /** The part of a username before the first colon, read as a 64-bit number of seconds. */
  function ParseExpiry(username: string): Option<int> {
    match IndexOf(username, ':')
    case None => None
    case Some(p) => Stoll(username[..p])
  }

  lemma ExpiryOfIssued(expiry: int, userId: string)
    requires IsInt64(expiry)
    ensures ParseExpiry(DecInt(expiry) + ":" + userId) == Some(expiry)
  {
    var head := DecInt(expiry);
    assert ':' !in head;
    IndexOfFirst(head, ':', userId);
    assert (head + ":" + userId)[..|head|] == head;
    StollOfDecInt(expiry);
  }

  datatype HmacValidator = HmacValidator(crypto: Crypto, secret: string) {

    function ComputeHmac(username: string): string {
      crypto.base64(crypto.hmacSha1(BytesOf(secret), BytesOf(username)))
    }

    function GetPassword(username: string): string {
      if ':' !in username then "" else ComputeHmac(username)
    }

    predicate Validate(username: string, password: string, now: int) {
      match ParseExpiry(username)
      case None => false
      case Some(expiry) => now <= expiry && ComputeHmac(username) == password
    }

    function Generate(userId: string, ttl: int, now: int): HmacCredentials {
      var username := DecInt(now + ttl) + ":" + userId;
      HmacCredentials(username, ComputeHmac(username))
    }

    /** Credentials made at time t are accepted up to and including t + ttl and never later, for every user
        id (colons and digits included), and the server derives the same password from the username. */
    lemma CredentialWindow(userId: string, ttl: int, t: int, now: int)
      requires IsInt64(t + ttl)
      ensures var c := Generate(userId, ttl, t);
              && (Validate(c.username, c.password, now) <==> now <= t + ttl)
              && GetPassword(c.username) == c.password
    {
      ExpiryOfIssued(t + ttl, userId);
    }

    /** A name and password validate if and only if the name starts with a number and a colon, that time has not
        passed, and the password is the base64 text of the name's HMAC under the shared secret. */
    lemma ValidateMeans(username: string, password: string, now: int)
      ensures Validate(username, password, now) <==>
        && IndexOf(username, ':').Some?
        && Stoll(username[..IndexOf(username, ':').value]).Some?
        && now <= Stoll(username[..IndexOf(username, ':').value]).value
        && password == crypto.base64(crypto.hmacSha1(BytesOf(secret), BytesOf(username)))
    {
      hide Stoll, BytesOf;
    }

    /** No other password goes with an issued name. */
    lemma OnlyIssuedPassword(userId: string, ttl: int, t: int, password: string, now: int)
      requires IsInt64(t + ttl)
      ensures var c := Generate(userId, ttl, t);
              Validate(c.username, password, now) <==> now <= t + ttl && password == c.password
    {
      ExpiryOfIssued(t + ttl, userId);
    }

    /** Different users, or different expiry times, never share a username. */
    lemma UsernamesDistinct(userId: string, ttl: int, t: int, userId': string, ttl': int, t': int)
      requires IsInt64(t + ttl) && IsInt64(t' + ttl')
      requires Generate(userId, ttl, t).username == Generate(userId', ttl', t').username
      ensures userId == userId' && t + ttl == t' + ttl'
    {
      ExpiryOfIssued(t + ttl, userId);
      ExpiryOfIssued(t' + ttl', userId');
      var head := DecInt(t + ttl);
      assert (head + ":" + userId)[|head| + 1..] == userId;
      assert (head + ":" + userId')[|head| + 1..] == userId';
    }
  }

  datatype TurnConfig = TurnConfig(sharedSecret: string, ttl: int)

  /** The username and credential of the backend's ICE configuration. */
  function RtcCredentials(crypto: Crypto, userId: string, cfg: TurnConfig, now: int): HmacCredentials {
    var expiry := now + cfg.ttl;
    var username := DecInt(expiry) + ":" + userId;
    HmacCredentials(username, crypto.base64(crypto.hmacSha1(BytesOf(cfg.sharedSecret), BytesOf(username))))
  }

  /** What the backend issues is accepted by a TURN server with the same secret, exactly while it is fresh. */
  lemma RtcCredentialsAccepted(v: HmacValidator, userId: string, cfg: TurnConfig, t: int, now: int)
    requires cfg.sharedSecret == v.secret && IsInt64(t + cfg.ttl)
    ensures var c := RtcCredentials(v.crypto, userId, cfg, t);
            && (v.Validate(c.username, c.password, now) <==> now <= t + cfg.ttl)
            && v.GetPassword(c.username) == c.password
  {
    v.CredentialWindow(userId, cfg.ttl, t, now);
  }
}
