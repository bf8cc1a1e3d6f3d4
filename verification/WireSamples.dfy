/** Messages as bytes: the codes on the wire, and samples of each layout. */
module WireSamples {
  import opened Bytes
  import opened Text
  import opened Stun
  import opened Builder
  import opened ChannelData

  /** The type fields of section 18 of RFC 8656, as the builder writes them. */
  lemma WireTypes()
    ensures TypeHigh(Allocate, Request) == 0x00 && TypeLow(Allocate, Request) == 0x03
    ensures TypeHigh(Allocate, SuccessResponse) == 0x01 && TypeLow(Allocate, SuccessResponse) == 0x03
    ensures TypeHigh(Allocate, ErrorResponse) == 0x01 && TypeLow(Allocate, ErrorResponse) == 0x13
    ensures TypeHigh(Refresh, Request) == 0x00 && TypeLow(Refresh, Request) == 0x04
    ensures TypeHigh(Send, Indication) == 0x00 && TypeLow(Send, Indication) == 0x16
    ensures TypeHigh(Data, Indication) == 0x00 && TypeLow(Data, Indication) == 0x17
    ensures TypeHigh(CreatePermission, Request) == 0x00 && TypeLow(CreatePermission, Request) == 0x08
    ensures TypeHigh(ChannelBind, Request) == 0x00 && TypeLow(ChannelBind, Request) == 0x09
  {
  }

  /** The attribute codes of section 18.3 of RFC 8489 and section 18 of RFC 8656. */
  lemma WireAttributes()
    ensures USERNAME == 0x0006 && MESSAGE_INTEGRITY == 0x0008 && ERROR_CODE == 0x0009 && REALM == 0x0014
    ensures NONCE == 0x0015
    ensures MESSAGE_INTEGRITY_SHA256 == 0x001C && XOR_MAPPED_ADDRESS == 0x0020
    ensures CHANNEL_NUMBER == 0x000C && LIFETIME == 0x000D && XOR_PEER_ADDRESS == 0x0012 && DATA == 0x0013
    ensures XOR_RELAYED_ADDRESS == 0x0016 && REQUESTED_TRANSPORT == 0x0019
  {
  }

  /** An XOR address: a zero byte, the family, the masked port and the masked address (section 14.2 of RFC 8489). */
  lemma AddressLayout(ip: u32, port: u16)
    ensures var v := XorAddressValue(ip, port);
      && |v| == 8 && v[0] == 0 && v[1] == 1
      && Word16(v[2], v[3]) == XorPort(port) && Word32(v[4..]) == XorAddr(ip)
  {
    hide XorPort, XorAddr, Value, Word32;
    var v := XorAddressValue(ip, port);
    Word16OfBe16(XorPort(port));
    Word32OfBe32(XorAddr(ip));
    assert v[4..] == Be32(XorAddr(ip));
  }

  /** A frame of one byte on channel 0x4001, padded to eight bytes. */
  lemma FrameSample()
    ensures ChannelFrame(0x4001, [7]) == [0x40, 0x01, 0x00, 0x01, 7, 0, 0, 0]
  {
    assert Zeros(Padding(1)) == [0, 0, 0];
  }

  /** An Allocate request for UDP: header, then type, length and value of the one attribute. */
  lemma MessageSample(tid: Octets)
    requires |tid| == 12
    ensures BuildMessage(Allocate, Request, tid, [Attribute(REQUESTED_TRANSPORT, [17, 0, 0, 0])])
         == [0x00, 0x03, 0x00, 0x08, 0x21, 0x12, 0xA4, 0x42] + tid + [0x00, 0x19, 0x00, 0x04, 17, 0, 0, 0]
  {
    var a := Attribute(REQUESTED_TRANSPORT, [17, 0, 0, 0]);
    assert a.value[..4] == a.value && Zeros(Padding(4)) == [];
    assert EncodeAttr(a) == [0x00, 0x19, 0x00, 0x04, 17, 0, 0, 0];
    hide EncodeAttr, Padding, Zeros;
    assert EncodeAttrs([a]) == EncodeAttr(a) + [];
    assert Be16(8) == [0, 8] && Be32(MAGIC_COOKIE) == [0x21, 0x12, 0xA4, 0x42];
  }

  /** An error attribute carries its code as hundreds and rest, then the reason. */
  lemma ErrorValueMeans(code: u16, reason: string)
    requires code < 800
    ensures var v := ErrorValue(code, reason);
      && v[..2] == [0, 0] && 100 * v[2] as int + v[3] as int == code && v[3] < 100 && v[4..] == BytesOf(reason)
  {
    assert code / 100 % 8 == code / 100;
  }
}
