/** STUN messages: the type field, attributes, the parser and the builder (RFC 8489, sections 5 and 14). */
module Stun {
  import opened Bytes

  datatype MessageClass = Request | Indication | SuccessResponse | ErrorResponse

  datatype Method = Allocate | Refresh | Send | Data | CreatePermission | ChannelBind | Unknown

  const USERNAME: u16 := 0x0006
  const MESSAGE_INTEGRITY: u16 := 0x0008
  const ERROR_CODE: u16 := 0x0009
  const CHANNEL_NUMBER: u16 := 0x000C
  const LIFETIME: u16 := 0x000D
  const XOR_PEER_ADDRESS: u16 := 0x0012
  const DATA: u16 := 0x0013
  const REALM: u16 := 0x0014
  const NONCE: u16 := 0x0015
  const XOR_RELAYED_ADDRESS: u16 := 0x0016
  const REQUESTED_TRANSPORT: u16 := 0x0019
  const MESSAGE_INTEGRITY_SHA256: u16 := 0x001C
  const XOR_MAPPED_ADDRESS: u16 := 0x0020

  datatype Attribute = Attribute(typ: u16, value: Octets)

  datatype TurnMessage = TurnMessage(
    msgClass: MessageClass, kind: Method, length: u16, tid: Octets, attributes: seq<Attribute>)
  {
    function Find(typ: u16): Option<Octets> {
      FindAttr(attributes, typ)
    }
  }

  datatype ParseResult = Ok(msg: TurnMessage) | TooShort | BadMagicCookie | BadLength | NotTurnMessage

  // ----- the message type field -----

  // The type field holds the bits 00MMMMMC MMMCMMMM of a twelve-bit method and a two-bit class. Masks and
  // shifts on its two bytes are written as quotients, remainders and sums.

  function MethodCode(m: Method): nat {
    match m
    case Allocate => 0x003
    case Refresh => 0x004
    case Send => 0x006
    case Data => 0x007
    case CreatePermission => 0x008
    case ChannelBind => 0x009
    case Unknown => 0xFFF
  }

  function ClassCode(c: MessageClass): nat {
    match c
    case Request => 0
    case Indication => 1
    case SuccessResponse => 2
    case ErrorResponse => 3
  }

  function MethodOf(code: nat): Method {
    if code == 0x003 then Allocate
    else if code == 0x004 then Refresh
    else if code == 0x006 then Send
    else if code == 0x007 then Data
    else if code == 0x008 then CreatePermission
    else if code == 0x009 then ChannelBind
    else Unknown
  }

  function ClassOf(c1: nat, c0: nat): MessageClass {
    if c1 == 0 then (if c0 == 0 then Request else Indication)
    else (if c0 == 0 then SuccessResponse else ErrorResponse)
  }

  /** The five high bits of the method, then the high bit of the class. */
  function TypeHigh(m: Method, c: MessageClass): (r: byte)
    ensures r < 0x40
  {
    (if m.Unknown? then 0x1F else 0) * 2 + (if c.SuccessResponse? || c.ErrorResponse? then 1 else 0)
  }

  function TypeLow(m: Method, c: MessageClass): byte {
    (if m.Unknown? then 0xEF else MethodCode(m)) + (if c.Indication? || c.ErrorResponse? then 0x10 else 0)
  }

  function MethodBits(hi: byte, lo: byte): nat {
    hi / 2 * 0x80 + lo / 0x20 * 0x10 + lo % 0x10
  }

  function DecodeMethod(hi: byte, lo: byte): Method {
    MethodOf(MethodBits(hi, lo))
  }

  function DecodeClass(hi: byte, lo: byte): MessageClass {
    ClassOf(hi % 2, lo / 0x10 % 2)
  }

  lemma TypeRoundTrip(m: Method, c: MessageClass)
    ensures DecodeMethod(TypeHigh(m, c), TypeLow(m, c)) == m
    ensures DecodeClass(TypeHigh(m, c), TypeLow(m, c)) == c
  {
    assert TypeHigh(m, c) / 2 == if m.Unknown? then 0x1F else 0;
    assert TypeLow(m, c) / 0x20 == if m.Unknown? then 7 else 0;
    assert MethodBits(TypeHigh(m, c), TypeLow(m, c)) == MethodCode(m);
  }

  /** The two bytes spell the builder's mask-and-shift expression. */
  lemma TypeIsMasked(m: Method, c: MessageClass, mw: bv16, cw: bv16)
    requires mw as int == MethodCode(m) && cw as int == ClassCode(c)
    ensures (((mw & 0x0F80) << 2) | ((cw & 2) << 7) | ((mw & 0x0070) << 1) | ((cw & 1) << 4) | (mw & 0x000F)) as int
            == Word16(TypeHigh(m, c), TypeLow(m, c))
  {
    Word16Is(TypeHigh(m, c), TypeLow(m, c));
    match c
    case Request => assert cw == 0;
    case Indication => assert cw == 1;
    case SuccessResponse => assert cw == 2;
    case ErrorResponse => assert cw == 3;
  }

  /** A method the builder can write: one of the six, or the all-ones code of Method::Unknown. */
  predicate WritableMethod(hi: byte, lo: byte) {
    MethodBits(hi, lo) == MethodCode(DecodeMethod(hi, lo))
  }

  lemma TypeReencoded(hi: byte, lo: byte)
    requires hi < 0x40
    ensures var m, c := DecodeMethod(hi, lo), DecodeClass(hi, lo);
            TypeHigh(m, c) == hi && TypeLow(m, c) == lo <==> WritableMethod(hi, lo)
  {
    assert lo == lo / 0x20 * 0x20 + lo / 0x10 % 2 * 0x10 + lo % 0x10;
    TypeRoundTrip(DecodeMethod(hi, lo), DecodeClass(hi, lo));
  }

  // ----- attributes -----

  function FindAttr(attrs: seq<Attribute>, typ: u16): Option<Octets> {
    if attrs == [] then None
    else if attrs[0].typ == typ then Some(attrs[0].value)
    else FindAttr(attrs[1..], typ)
  }

  /** The value as the builder writes it: its 16-bit length field also cuts the bytes that follow. */
  function Truncated(a: Attribute): Attribute {
    a.(value := a.value[..|a.value| % 0x1_0000])
  }

  function EncodeAttr(a: Attribute): (r: Octets)
    ensures |r| >= 4
  {
    var v := Truncated(a).value;
    Be16(a.typ) + Be16(|v|) + v + Zeros(Padding(|v|))
  }

  function EncodeAttrs(attrs: seq<Attribute>): Octets {
    if attrs == [] then [] else EncodeAttr(attrs[0]) + EncodeAttrs(attrs[1..])
  }

  lemma {:induction false} EncodeAttrsAppend(a: seq<Attribute>, b: seq<Attribute>)
    ensures EncodeAttrs(a + b) == EncodeAttrs(a) + EncodeAttrs(b)
  {
    if a == [] {
      assert a + b == b;
    } else {
      assert (a + b)[1..] == a[1..] + b;
      EncodeAttrsAppend(a[1..], b);
    }
  }

  /** The 20-byte header followed by the attribute bytes; the length field keeps 16 bits only. */
  function Frame(m: Method, c: MessageClass, tid: Octets, attrBytes: Octets): Octets {
    [TypeHigh(m, c), TypeLow(m, c)] + Be16(|attrBytes| % 0x1_0000) + Be32(MAGIC_COOKIE) + tid + attrBytes
  }

  function BuildMessage(m: Method, c: MessageClass, tid: Octets, attrs: seq<Attribute>): Octets {
    Frame(m, c, tid, EncodeAttrs(attrs))
  }

  function TypeAt(raw: Octets, offset: nat): u16
    requires offset + 4 <= |raw|
  {
    Word16(raw[offset], raw[offset + 1])
  }

  function LenAt(raw: Octets, offset: nat): u16
    requires offset + 4 <= |raw|
  {
    Word16(raw[offset + 2], raw[offset + 3])
  }

  function NextAt(raw: Octets, offset: nat): (next: nat)
    requires offset + 4 <= |raw|
    ensures next >= offset + 4
  {
    offset + 4 + LenAt(raw, offset) as nat + Padding(LenAt(raw, offset))
  }

  predicate ValueInside(raw: Octets, offset: nat)
    requires offset + 4 <= |raw|
  {
    offset + 4 + LenAt(raw, offset) <= |raw|
  }

  function AttrAt(raw: Octets, offset: nat): Attribute
    requires offset + 4 <= |raw| && ValueInside(raw, offset)
  {
    Attribute(TypeAt(raw, offset), raw[offset + 4..offset + 4 + LenAt(raw, offset)])
  }

  /** The attributes from offset on whose header lies before end. A value is bounded by the packet, not by
      end, and one that does not fit stops the parser. */
  function ParseFrom(raw: Octets, offset: nat, end: int): seq<Attribute>
    requires end <= |raw|
    decreases |raw| - offset
  {
    if offset + 4 > end || !ValueInside(raw, offset) then []
    else [AttrAt(raw, offset)] + ParseFrom(raw, NextAt(raw, offset), end)
  }

  function ParseMessage(data: Octets): ParseResult {
    if |data| < 20 then TooShort
    else if data[0] >= 0x40 then NotTurnMessage
    else
      var length := Word16(data[2], data[3]);
      if |data| < 20 + length then BadLength
      else if Word32(data[4..8]) != MAGIC_COOKIE then BadMagicCookie
      else
        Ok(TurnMessage(DecodeClass(data[0], data[1]), DecodeMethod(data[0], data[1]), length, data[8..20],
                       ParseFrom(data, 20, 20 + length as int)))
  }

  /** Why a packet is no message, in the order of the checks. */
  lemma ParseErrors(data: Octets)
    ensures ParseMessage(data) == TooShort <==> |data| < 20
    ensures ParseMessage(data) == NotTurnMessage <==> |data| >= 20 && data[0] / 0x40 != 0
    ensures ParseMessage(data) == BadLength <==>
      |data| >= 20 && data[0] / 0x40 == 0 && |data| < 20 + Word16(data[2], data[3]) as int
    ensures ParseMessage(data) == BadMagicCookie <==>
      |data| >= 20 && data[0] / 0x40 == 0 && |data| >= 20 + Word16(data[2], data[3]) as int
      && data[4..8] != [0x21, 0x12, 0xA4, 0x42]
  {
    hide ParseFrom, DecodeMethod, DecodeClass, Word16, Value;
    if |data| >= 20 {
      Be32OfWord32(data[4..8]);
      Word32OfBe32(MAGIC_COOKIE);
      assert Be32(MAGIC_COOKIE) == [0x21, 0x12, 0xA4, 0x42];
      hide Word32;
    }
  }

  lemma ParseStep(raw: Octets, offset: nat, end: int)
    requires end <= |raw|
    ensures ParseFrom(raw, offset, end)
         == if offset + 4 > end || !ValueInside(raw, offset) then []
            else [AttrAt(raw, offset)] + ParseFrom(raw, NextAt(raw, offset), end)
  {
    hide Word16, Padding;
  }

  lemma Reassociate(done: seq<Attribute>, a: Attribute, more: seq<Attribute>)
    ensures done + ([a] + more) == done + [a] + more
  {
  }

  method ParseAttributes(data: Octets, end: nat) returns (attributes: seq<Attribute>)
    requires end <= |data|
    ensures attributes == ParseFrom(data, 20, end)
  {
    hide Word16, ParseFrom;
    attributes := [];
    var offset := 20;
    while offset + 4 <= end
      invariant attributes + ParseFrom(data, offset, end) == ParseFrom(data, 20, end)
    {
      ParseStep(data, offset, end);
      var typ := Word16(data[offset], data[offset + 1]);
      var len: nat := Word16(data[offset + 2], data[offset + 3]);
      offset := offset + 4;
      if offset + len > |data| {
        return;
      }
      Reassociate(attributes, AttrAt(data, offset - 4), ParseFrom(data, NextAt(data, offset - 4), end));
      attributes := attributes + [Attribute(typ, data[offset..offset + len])];
      offset := offset + len;
      if len % 4 != 0 {
        offset := offset + 4 - len % 4;
      }
    }
    ParseStep(data, offset, end);
  }

  method Parse(data: Octets) returns (r: ParseResult)
    ensures r == ParseMessage(data)
  {
    if |data| < 20 {
      return TooShort;
    }
    if data[0] >= 0x40 {
      return NotTurnMessage;
    }
    var length := Word16(data[2], data[3]);
    if |data| < 20 + length as int {
      return BadLength;
    }
    if Word32(data[4..8]) != MAGIC_COOKIE {
      return BadMagicCookie;
    }
    var attributes := ParseAttributes(data, 20 + length as int);
    r := Ok(TurnMessage(DecodeClass(data[0], data[1]), DecodeMethod(data[0], data[1]), length, data[8..20],
                        attributes));
  }
}
