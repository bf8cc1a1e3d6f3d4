/** MessageBuilder and the messages the server makes with it. */
module Builder {
  import opened Bytes
  import opened Text
  import opened Stun
  import opened StunCodec

  function XorAddressValue(ip: u32, port: u16): (v: Octets)
    ensures |v| == 8
  {
    [0, 1] + Be16(XorPort(port)) + Be32(XorAddr(ip))
  }

  /** The reader's side: the family byte is ignored, and the address is kept as text. */
  function PeerOf(v: Octets): Endpoint
    requires |v| >= 8
  {
    Endpoint(FormatV4(XorAddr(Word32(v[4..8]))), XorPort(Word16(v[2], v[3])))
  }

  lemma PeerOfXorAddress(ip: u32, port: u16)
    ensures PeerOf(XorAddressValue(ip, port)) == Endpoint(FormatV4(ip), port)
  {
    hide XorPort, XorAddr, Value;
    var v := XorAddressValue(ip, port);
    Word16OfBe16(XorPort(port));
    assert v[4..8] == Be32(XorAddr(ip));
    Word32OfBe32(XorAddr(ip));
    XorIsInvolution(ip, port);
  }

  function ErrorValue(code: u16, reason: string): Octets {
    [0, 0, code / 100 % 8, code % 100] + BytesOf(reason)
  }

  class MessageBuilder {
    const kind: Method
    const msgClass: MessageClass
    const tid: Octets
    var attrsBuf: Octets
    ghost var attrs: seq<Attribute>

    ghost predicate Valid()
      reads this
    {
      attrsBuf == EncodeAttrs(attrs)
    }

    constructor (kind: Method, msgClass: MessageClass, tid: Octets)
      ensures Valid() && attrs == []
      ensures this.kind == kind && this.msgClass == msgClass && this.tid == tid
    {
      this.kind, this.msgClass, this.tid := kind, msgClass, tid;
      attrsBuf, attrs := [], [];
    }

    method AppendAttrRaw(typ: u16, value: Octets, len: u16)
      requires len as int <= |value|
      modifies this
      ensures attrsBuf == old(attrsBuf) + Be16(typ) + Be16(len) + value[..len] + Zeros(Padding(len))
      ensures attrs == old(attrs)
    {
      attrsBuf := attrsBuf + [typ / 0x100, typ % 0x100, len / 0x100, len % 0x100];
      attrsBuf := attrsBuf + value[..len];
      if len % 4 != 0 {
        var pad := 4 - len % 4;
        attrsBuf := attrsBuf + Zeros(pad);
      }
    }

    method AddAttr(typ: u16, value: Octets)
      requires Valid()
      modifies this
      ensures Valid() && attrs == old(attrs) + [Attribute(typ, value)]
    {
      hide Be16, Padding, Zeros;
      ghost var a := Attribute(typ, value);
      AppendAttrRaw(typ, value, |value| % 0x1_0000);
      EncodeAttrsAppend(attrs, [a]);
      assert EncodeAttrs([a]) == EncodeAttr(a) + EncodeAttrs([]) == EncodeAttr(a);
      attrs := attrs + [a];
    }

    method AddErrorCode(code: u16, reason: string)
      requires Valid()
      modifies this
      ensures Valid() && attrs == old(attrs) + [Attribute(ERROR_CODE, ErrorValue(code, reason))]
    {
      AddAttr(ERROR_CODE, ErrorValue(code, reason));
    }

    method AddLifetime(seconds: u32)
      requires Valid()
      modifies this
      ensures Valid() && attrs == old(attrs) + [Attribute(LIFETIME, Be32(seconds))]
    {
      AddAttr(LIFETIME, Be32(seconds));
    }

    method AppendXorAddress(typ: u16, ip: u32, port: u16)
      requires Valid()
      modifies this
      ensures Valid() && attrs == old(attrs) + [Attribute(typ, XorAddressValue(ip, port))]
    {
      AddAttr(typ, XorAddressValue(ip, port));
    }

    method Build() returns (out: Octets)
      requires Valid()
      ensures out == BuildMessage(kind, msgClass, tid, attrs)
    {
      out := Frame(kind, msgClass, tid, attrsBuf);
    }
  }

  const ZERO_TID: Octets := Zeros(12)

  function DataAttrs(ip: u32, port: u16, payload: Octets): seq<Attribute> {
    [Attribute(XOR_PEER_ADDRESS, XorAddressValue(ip, port)), Attribute(DATA, payload)]
  }

  function DataIndication(ip: u32, port: u16, payload: Octets): Octets {
    BuildMessage(Data, Indication, ZERO_TID, DataAttrs(ip, port, payload))
  }

  method MakeDataIndication(ip: u32, port: u16, payload: Octets) returns (out: Octets)
    ensures out == DataIndication(ip, port, payload)
  {
    var b := new MessageBuilder(Data, Indication, ZERO_TID);
    b.AppendXorAddress(XOR_PEER_ADDRESS, ip, port);
    b.AddAttr(DATA, payload);
    out := b.Build();
  }

  /** Every error reply of the allocation manager carries the method Allocate. */
  function ErrorMessage(tid: Octets, code: u16, reason: string): Octets {
    BuildMessage(Allocate, ErrorResponse, tid, [Attribute(ERROR_CODE, ErrorValue(code, reason))])
  }

  method MakeError(tid: Octets, code: u16, reason: string) returns (out: Octets)
    ensures out == ErrorMessage(tid, code, reason)
  {
    var b := new MessageBuilder(Allocate, ErrorResponse, tid);
    b.AddErrorCode(code, reason);
    assert b.attrs == [Attribute(ERROR_CODE, ErrorValue(code, reason))];
    out := b.Build();
  }

  /** Payload sizes for which a Data indication still shows both of its attributes to the parser: up to
      65516 bytes it fits the length field, and from 65533 on the wrapped length is again at least 16. */
  predicate IndicationReadable(n: nat) {
    n <= 65516 || 65533 <= n <= 65535
  }

  lemma AttrSize(a: Attribute)
    requires |a.value| < 0x1_0000
    ensures |EncodeAttrs([a])| == |EncodeAttr(a)| == 4 + |a.value| + Padding(|a.value|)
  {
    assert EncodeAttrs([a]) == EncodeAttr(a) + [];
  }

  lemma DataAttrsSize(ip: u32, port: u16, payload: Octets)
    requires |payload| < 0x1_0000
    ensures var attrs := DataAttrs(ip, port, payload);
            && |EncodeAttrs(attrs)| == 16 + |payload| + Padding(|payload|)
            && |EncodeAttrs(attrs[..1])| == 12 && Sized(attrs)
  {
    var attrs := DataAttrs(ip, port, payload);
    assert attrs[..1] == [attrs[0]] && attrs[1..] == [attrs[1]];
    AttrSize(attrs[0]);
    AttrSize(attrs[1]);
  }

  /** A Data indication comes back as the same endpoint and payload exactly for the readable sizes. */
  lemma DataIndicationParses(ip: u32, port: u16, payload: Octets)
    requires |payload| < 0x1_0000
    ensures ParseMessage(DataIndication(ip, port, payload)).Ok?
    ensures var msg := ParseMessage(DataIndication(ip, port, payload)).msg;
            && msg.kind == Data && msg.msgClass == Indication && msg.tid == ZERO_TID
            && (msg.attributes == DataAttrs(ip, port, payload) <==> IndicationReadable(|payload|))
  {
    var attrs := DataAttrs(ip, port, payload);
    DataAttrsSize(ip, port, payload);
    BuildThenParse(Data, Indication, ZERO_TID, attrs);
    BuildParseExact(Data, Indication, ZERO_TID, attrs);
    ReadableSizes(|payload|);
  }

  lemma ReadableSizes(n: nat)
    requires n < 0x1_0000
    ensures 16 <= (16 + n + Padding(n)) % 0x1_0000 <==> IndicationReadable(n)
  {
  }
}
