/** The two round trips between building and parsing STUN messages. */
module StunCodec {
  import opened Bytes
  import opened Stun

  predicate Sized(attrs: seq<Attribute>) {
    forall a :: a in attrs ==> |a.value| < 0x1_0000
  }

  function TruncatedAll(attrs: seq<Attribute>): (r: seq<Attribute>)
    ensures |r| == |attrs|
  {
    seq(|attrs|, i requires 0 <= i < |attrs| => Truncated(attrs[i]))
  }

  /** The attributes whose header lies within the first room bytes of their encoding. */
  function Visible(attrs: seq<Attribute>, room: int): seq<Attribute> {
    if attrs == [] || room < 4 then []
    else [attrs[0]] + Visible(attrs[1..], room - |EncodeAttr(attrs[0])|)
  }

  predicate EncodedAt(raw: Octets, offset: nat, bytes: Octets) {
    offset + |bytes| <= |raw| && raw[offset..offset + |bytes|] == bytes
  }

  lemma SmallRemainder(n: nat)
    requires n < 0x1_0000
    ensures n % 0x1_0000 == n
  {
  }

  lemma EncodedParts(a: Attribute)
    ensures var v, e := Truncated(a).value, EncodeAttr(a);
            && |v| < 0x1_0000 && |e| == 4 + |v| + Padding(|v|) && e[4..4 + |v|] == v
            && Word16(e[0], e[1]) == a.typ && Word16(e[2], e[3]) == |v|
  {
    var n := |Truncated(a).value|;
    assert Be16(a.typ) == [a.typ / 0x100, a.typ % 0x100] && Be16(n) == [n / 0x100, n % 0x100];
    hide Padding, Zeros, Be16, Word16;
    Word16OfBe16(a.typ);
    Word16OfBe16(n);
  }

  lemma AttrOfEncode(raw: Octets, offset: nat, a: Attribute)
    requires EncodedAt(raw, offset, EncodeAttr(a))
    ensures ValueInside(raw, offset) && AttrAt(raw, offset) == Truncated(a)
    ensures NextAt(raw, offset) == offset + |EncodeAttr(a)|
  {
    EncodedParts(a);
    hide Padding, EncodeAttr, Word16;
    var v, e := Truncated(a).value, EncodeAttr(a);
    assert forall i :: 0 <= i < |e| ==> raw[offset + i] == raw[offset..offset + |e|][i] == e[i];
    assert raw[offset + 4..offset + 4 + |v|] == raw[offset..offset + |e|][4..4 + |v|];
  }

  lemma SplitEncoded(raw: Octets, offset: nat, x: Octets, y: Octets)
    requires EncodedAt(raw, offset, x + y)
    ensures EncodedAt(raw, offset, x) && EncodedAt(raw, offset + |x|, y)
  {
    var both := raw[offset..offset + |x + y|];
    assert raw[offset..offset + |x|] == both[..|x|] == x;
    assert raw[offset + |x|..offset + |x| + |y|] == both[|x|..] == y;
  }

  lemma TruncatedCons(a: Attribute, visible: seq<Attribute>)
    ensures TruncatedAll([a] + visible) == [Truncated(a)] + TruncatedAll(visible)
  {
  }

  lemma {:induction false} ParseOfEncode(raw: Octets, offset: nat, attrs: seq<Attribute>, end: int)
    requires EncodedAt(raw, offset, EncodeAttrs(attrs)) && end <= offset + |EncodeAttrs(attrs)|
    ensures ParseFrom(raw, offset, end) == TruncatedAll(Visible(attrs, end - offset))
    decreases attrs
  {
    hide EncodeAttr, Truncated;
    if attrs != [] && end - offset >= 4 {
      var a, n := attrs[0], |EncodeAttr(attrs[0])|;
      SplitEncoded(raw, offset, EncodeAttr(a), EncodeAttrs(attrs[1..]));
      AttrOfEncode(raw, offset, a);
      ParseOfEncode(raw, offset + n, attrs[1..], end);
      TruncatedCons(a, Visible(attrs[1..], end - offset - n));
    }
  }

  lemma HeaderOfFrame(m: Method, c: MessageClass, tid: Octets, attrBytes: Octets)
    requires |tid| == 12
    ensures var f := Frame(m, c, tid, attrBytes);
            && |f| == 20 + |attrBytes|
            && f[0] == TypeHigh(m, c) && f[1] == TypeLow(m, c)
            && Word16(f[2], f[3]) == |attrBytes| % 0x1_0000
            && Word32(f[4..8]) == MAGIC_COOKIE && f[8..20] == tid && f[20..] == attrBytes
  {
    var f := Frame(m, c, tid, attrBytes);
    assert f[4..8] == Be32(MAGIC_COOKIE);
    assert f[2..4] == Be16(|attrBytes| % 0x1_0000);
    Word16OfBe16(|attrBytes| % 0x1_0000);
    Word32OfBe32(MAGIC_COOKIE);
  }

  lemma ParseOfHeader(f: Octets, m: Method, c: MessageClass)
    requires |f| >= 20 && f[0] == TypeHigh(m, c) && f[1] == TypeLow(m, c)
    requires |f| >= 20 + Word16(f[2], f[3]) as int && Word32(f[4..8]) == MAGIC_COOKIE
    ensures ParseMessage(f)
         == Ok(TurnMessage(c, m, Word16(f[2], f[3]), f[8..20], ParseFrom(f, 20, 20 + Word16(f[2], f[3]) as int)))
  {
    TypeRoundTrip(m, c);
  }

  /** What the parser makes of any built message, oversized ones included. */
  lemma BuildThenParse(m: Method, c: MessageClass, tid: Octets, attrs: seq<Attribute>)
    requires |tid| == 12
    ensures var length := |EncodeAttrs(attrs)| % 0x1_0000;
            ParseMessage(BuildMessage(m, c, tid, attrs))
            == Ok(TurnMessage(c, m, length, tid, TruncatedAll(Visible(attrs, length))))
  {
    hide ParseMessage, ParseFrom, Frame, Word16, Word32, EncodeAttrs, Visible, TruncatedAll;
    var length := |EncodeAttrs(attrs)| % 0x1_0000;
    HeaderOfFrame(m, c, tid, EncodeAttrs(attrs));
    ParseOfHeader(BuildMessage(m, c, tid, attrs), m, c);
    ParseOfEncode(BuildMessage(m, c, tid, attrs), 20, attrs, 20 + length);
  }

  /** The header of the last attribute still lies inside the 16-bit length field. */
  predicate LastHeaderVisible(attrs: seq<Attribute>) {
    attrs == []
    || |EncodeAttrs(attrs[..|attrs| - 1])| + 4 <= |EncodeAttrs(attrs)| % 0x1_0000
  }

  lemma {:induction false} VisibleWhole(attrs: seq<Attribute>, room: int)
    ensures |Visible(attrs, room)| <= |attrs|
    ensures Visible(attrs, room) == attrs <==> attrs == [] || |EncodeAttrs(attrs[..|attrs| - 1])| + 4 <= room
  {
    if attrs != [] {
      var size := |EncodeAttr(attrs[0])|;
      var init := attrs[..|attrs| - 1];
      VisibleWhole(attrs[1..], room - size);
      if |attrs| > 1 {
        assert init[0] == attrs[0] && init[1..] == attrs[1..][..|attrs| - 2];
        assert |EncodeAttrs(init)| == size + |EncodeAttrs(init[1..])|;
      }
      if room >= 4 {
        assert Visible(attrs, room)[1..] == Visible(attrs[1..], room - size);
        assert attrs == [attrs[0]] + attrs[1..];
      }
    }
  }

  lemma TruncatedWhole(attrs: seq<Attribute>)
    ensures TruncatedAll(attrs) == attrs <==> Sized(attrs)
  {
    forall i | 0 <= i < |attrs|
      ensures Truncated(attrs[i]) == attrs[i] <==> |attrs[i].value| < 0x1_0000
    {
      var v := attrs[i].value;
      assert |Truncated(attrs[i]).value| == |v| % 0x1_0000;
    }
    if !Sized(attrs) {
      var i :| 0 <= i < |attrs| && |attrs[i].value| >= 0x1_0000;
      assert TruncatedAll(attrs)[i] != attrs[i];
    }
  }

  /** parse after build gives every attribute back exactly when each value fits its length field and the
      message length, cut to 16 bits, still reaches the header of the last attribute. */
  lemma BuildParseExact(m: Method, c: MessageClass, tid: Octets, attrs: seq<Attribute>)
    requires |tid| == 12
    ensures ParseMessage(BuildMessage(m, c, tid, attrs)).Ok?
    ensures ParseMessage(BuildMessage(m, c, tid, attrs)).msg.attributes == attrs
            <==> Sized(attrs) && LastHeaderVisible(attrs)
  {
    hide ParseMessage, BuildMessage, EncodeAttr, EncodeAttrs, Visible, Truncated;
    var length := |EncodeAttrs(attrs)| % 0x1_0000;
    BuildThenParse(m, c, tid, attrs);
    VisibleWhole(attrs, length);
    TruncatedWhole(attrs);
    if Visible(attrs, length) != attrs {
      VisibleIsPrefix(attrs, length);
    }
  }

  lemma {:induction false} VisibleIsPrefix(attrs: seq<Attribute>, room: int)
    ensures Visible(attrs, room) <= attrs
  {
    if attrs != [] && room >= 4 {
      VisibleIsPrefix(attrs[1..], room - |EncodeAttr(attrs[0])|);
      assert attrs == [attrs[0]] + attrs[1..];
    }
  }

  lemma AllVisible(attrs: seq<Attribute>)
    requires Sized(attrs)
    ensures TruncatedAll(Visible(attrs, |EncodeAttrs(attrs)|)) == attrs
  {
    if attrs != [] {
      var n := |attrs| - 1;
      EncodeAttrsAppend(attrs[..n], [attrs[n]]);
      assert attrs == attrs[..n] + [attrs[n]];
      assert EncodeAttrs([attrs[n]]) == EncodeAttr(attrs[n]) + [];
    }
    VisibleWhole(attrs, |EncodeAttrs(attrs)|);
    TruncatedWhole(attrs);
  }

  /** A value of 65536 bytes is written with length 0 and does not come back. */
  lemma OversizedValueIsLost(m: Method, c: MessageClass, tid: Octets)
    requires |tid| == 12
    ensures var attrs := [Attribute(DATA, Zeros(0x1_0000))];
            ParseMessage(BuildMessage(m, c, tid, attrs)).Ok?
            && ParseMessage(BuildMessage(m, c, tid, attrs)).msg.attributes != attrs
  {
    hide ParseMessage, BuildMessage, EncodeAttrs;
    var attrs := [Attribute(DATA, Zeros(0x1_0000))];
    assert attrs[0] in attrs && !Sized(attrs);
    BuildThenParse(m, c, tid, attrs);
    BuildParseExact(m, c, tid, attrs);
  }

  /** In particular they come back whenever the padded attributes fit the length field. */
  lemma BuildParseRoundTrip(m: Method, c: MessageClass, tid: Octets, attrs: seq<Attribute>)
    requires |tid| == 12 && Sized(attrs) && |EncodeAttrs(attrs)| < 0x1_0000
    ensures ParseMessage(BuildMessage(m, c, tid, attrs)) == Ok(TurnMessage(c, m, |EncodeAttrs(attrs)|, tid, attrs))
  {
    BuildThenParse(m, c, tid, attrs);
    AllVisible(attrs);
    SmallRemainder(|EncodeAttrs(attrs)|);
  }

  // ----- build after parse -----

  /** From offset on the bytes are a row of complete attributes, each padded with zeros. */
  predicate ZeroPadded(raw: Octets, offset: nat)
    requires offset <= |raw|
    decreases |raw| - offset
  {
    offset < |raw| ==>
      && offset + 4 <= |raw| && NextAt(raw, offset) <= |raw|
      && PaddingAt(raw, offset) == Zeros(|PaddingAt(raw, offset)|)
      && ZeroPadded(raw, NextAt(raw, offset))
  }

  function PaddingAt(raw: Octets, offset: nat): Octets
    requires offset + 4 <= |raw| && NextAt(raw, offset) <= |raw|
  {
    raw[offset + 4 + LenAt(raw, offset) as int..NextAt(raw, offset)]
  }

  lemma EncodeOfAttrAt(raw: Octets, offset: nat)
    requires offset + 4 <= |raw| && NextAt(raw, offset) <= |raw|
    ensures EncodeAttr(AttrAt(raw, offset))
         == raw[offset..offset + 4 + LenAt(raw, offset) as int] + Zeros(|PaddingAt(raw, offset)|)
  {
    hide Padding, Zeros, Be16, Word16;
    var len: nat := LenAt(raw, offset);
    SmallRemainder(len);
    Be16OfWord16(raw[offset], raw[offset + 1]);
    Be16OfWord16(raw[offset + 2], raw[offset + 3]);
    var v := raw[offset + 4..offset + 4 + len];
    assert raw[offset..offset + 4 + len] == raw[offset..offset + 2] + raw[offset + 2..offset + 4] + v;
    assert raw[offset..offset + 2] == Be16(TypeAt(raw, offset)) && raw[offset + 2..offset + 4] == Be16(len);
  }

  lemma EncodedAttrSize(raw: Octets, offset: nat)
    requires offset + 4 <= |raw| && ValueInside(raw, offset)
    ensures |EncodeAttr(AttrAt(raw, offset))| == NextAt(raw, offset) - offset
  {
    hide Padding, Zeros;
    SmallRemainder(LenAt(raw, offset));
  }

  lemma {:induction false} EncodeOfParse(raw: Octets, offset: nat)
    requires offset <= |raw|
    ensures EncodeAttrs(ParseFrom(raw, offset, |raw|)) == raw[offset..] <==> ZeroPadded(raw, offset)
    decreases |raw| - offset
  {
    hide EncodeAttr, AttrAt, Padding;
    if offset + 4 <= |raw| && ValueInside(raw, offset) {
      var a, next := AttrAt(raw, offset), NextAt(raw, offset);
      var more := ParseFrom(raw, next, |raw|);
      assert ([a] + more)[1..] == more;
      assert EncodeAttrs([a] + more) == EncodeAttr(a) + EncodeAttrs(more);
      if next <= |raw| {
        EncodeOfParse(raw, next);
        EncodeOfAttrAt(raw, offset);
        SplitEqual(raw, offset, next, EncodeAttrs(more));
      } else {
        EncodedAttrSize(raw, offset);
      }
    }
  }

  lemma SplitEqual(raw: Octets, offset: nat, next: nat, more: Octets)
    requires offset + 4 <= |raw| && NextAt(raw, offset) == next <= |raw|
    ensures var head := raw[offset..offset + 4 + LenAt(raw, offset) as int];
            var zeros := Zeros(|PaddingAt(raw, offset)|);
            head + zeros + more == raw[offset..] <==> PaddingAt(raw, offset) == zeros && more == raw[next..]
  {
    var n := offset + 4 + LenAt(raw, offset) as int;
    var head, zeros := raw[offset..n], Zeros(|PaddingAt(raw, offset)|);
    var again, rest := head + zeros + more, raw[offset..];
    assert rest == head + PaddingAt(raw, offset) + raw[next..];
    assert again[n - offset..next - offset] == zeros && again[next - offset..] == more;
    assert rest[n - offset..next - offset] == PaddingAt(raw, offset) && rest[next - offset..] == raw[next..];
  }

  /** Rebuilding a parsed message of exact length gives the same bytes if and only if it carries a writable
      method and its body is a row of zero-padded attributes. */
  lemma ParseBuildIdentity(data: Octets)
    requires ParseMessage(data).Ok? && |data| == 20 + ParseMessage(data).msg.length as int
    ensures var msg := ParseMessage(data).msg;
            BuildMessage(msg.kind, msg.msgClass, msg.tid, msg.attributes) == data
            <==> WritableMethod(data[0], data[1]) && ZeroPadded(data, 20)
  {
    var msg := ParseMessage(data).msg;
    TypeReencoded(data[0], data[1]);
    EncodeOfParse(data, 20);
    FrameIdentity(data, msg.kind, msg.msgClass, EncodeAttrs(msg.attributes));
  }

  lemma FrameIdentity(data: Octets, m: Method, c: MessageClass, attrBytes: Octets)
    requires |data| >= 20 && Word32(data[4..8]) == MAGIC_COOKIE
    requires |data| - 20 == Word16(data[2], data[3])
    ensures Frame(m, c, data[8..20], attrBytes) == data
            <==> TypeHigh(m, c) == data[0] && TypeLow(m, c) == data[1] && attrBytes == data[20..]
  {
    HeaderOfFrame(m, c, data[8..20], attrBytes);
    if TypeHigh(m, c) == data[0] && TypeLow(m, c) == data[1] && attrBytes == data[20..] {
      FrameOfParts(data, m, c);
    }
  }

  lemma FrameOfParts(data: Octets, m: Method, c: MessageClass)
    requires |data| >= 20 && Word32(data[4..8]) == MAGIC_COOKIE
    requires |data| - 20 == Word16(data[2], data[3])
    requires TypeHigh(m, c) == data[0] && TypeLow(m, c) == data[1]
    ensures Frame(m, c, data[8..20], data[20..]) == data
  {
    hide Be16, Word16, Word32, Be32;
    var length := Word16(data[2], data[3]);
    Be16OfWord16(data[2], data[3]);
    assert Be16(length) == data[2..4];
    Be32OfWord32(data[4..8]);
    assert [TypeHigh(m, c), TypeLow(m, c)] == data[..2];
    assert data == data[..2] + data[2..4] + data[4..8] + data[8..20] + data[20..];
  }
}
