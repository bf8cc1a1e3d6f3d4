/** ChannelData messages (section 12.4 of RFC 8656). */
module ChannelData {
  import opened Bytes

  datatype ChannelDataResult = Ok(number: u16, data: Octets) | TooShort | InvalidChannel

  /** The length field keeps 16 bits of the payload size, and the padding follows that field. */
  function ChannelFrame(number: u16, data: Octets): Octets {
    Be16(number) + Be16(|data| % 0x1_0000) + data + Zeros(Padding(|data| % 0x1_0000))
  }

  method MakeChannelData(number: u16, data: Octets) returns (out: Octets)
    ensures out == ChannelFrame(number, data)
  {
    var len := |data| % 0x1_0000;
    out := [number / 0x100, number % 0x100, len / 0x100, len % 0x100];
    out := out + data;
    if len % 4 != 0 {
      out := out + Zeros(4 - len % 4);
    } else {
      assert out + Zeros(0) == out;
    }
  }

  predicate IsChannelNumber(n: u16) { 0x4000 <= n <= 0x4FFF }

  function ParseChannelData(raw: Octets): ChannelDataResult {
    if |raw| < 4 then TooShort
    else
      var number, len := Word16(raw[0], raw[1]), Word16(raw[2], raw[3]);
      if !IsChannelNumber(number) then InvalidChannel
      else if |raw| < 4 + len then TooShort
      else Ok(number, raw[4..4 + len])
  }

  /** Why a packet is no ChannelData, in the order of the checks. */
  lemma ChannelDataErrors(raw: Octets)
    ensures ParseChannelData(raw) == InvalidChannel <==> |raw| >= 4 && !IsChannelNumber(Word16(raw[0], raw[1]))
    ensures ParseChannelData(raw) == TooShort <==>
      |raw| < 4 || (IsChannelNumber(Word16(raw[0], raw[1])) && |raw| < 4 + Word16(raw[2], raw[3]) as int)
  {
    hide Word16;
  }

  /** A ChannelData message comes back exactly when its number is a channel number and the payload fits 16 bits. */
  lemma ChannelDataRoundTrip(number: u16, data: Octets)
    ensures ParseChannelData(ChannelFrame(number, data)) == Ok(number, data)
            <==> IsChannelNumber(number) && |data| < 0x1_0000
  {
    var f := ChannelFrame(number, data);
    var len := |data| % 0x1_0000;
    Word16OfBe16(number);
    Word16OfBe16(len);
    assert Word16(f[0], f[1]) == number && Word16(f[2], f[3]) == len;
    assert f[4..4 + |data|] == data;
    assert |f[4..4 + len]| == len;
  }
}
