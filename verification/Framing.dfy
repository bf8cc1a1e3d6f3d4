/** The deframer against the senders: what build() and make_channel_data() write comes back message by message. */
module Framing {
  import opened Bytes
  import opened Stun
  import opened StunCodec
  import opened ChannelData
  import opened Deframer

  datatype Packet =
    | StunPacket(kind: Method, msgClass: MessageClass, tid: Octets, attrs: seq<Attribute>)
    | ChannelPacket(number: u16, data: Octets)
  {
    /** What the types of the source guarantee, and the two top bits that mark ChannelData. */
    predicate WellTyped() {
      match this
      case StunPacket(_, _, tid, _) => |tid| == 12
      case ChannelPacket(number, _) => 0x4000 <= number < 0x8000
    }

    function Wire(): (w: Octets)
      ensures w != []
    {
      match this
      case StunPacket(kind, msgClass, tid, attrs) => BuildMessage(kind, msgClass, tid, attrs)
      case ChannelPacket(number, data) => ChannelFrame(number, data)
    }

    /** The message without the padding of a ChannelData frame. */
    function Bare(): Octets {
      match this
      case StunPacket(_, _, _, _) => Wire()
      case ChannelPacket(number, data) => Wire()[..4 + |data|]
    }

    predicate Fits() {
      match this
      case StunPacket(_, _, _, attrs) => |EncodeAttrs(attrs)| < 0x1_0000
      case ChannelPacket(_, data) => |data| <= 65532
    }
  }

  function Stream(ps: seq<Packet>): Octets {
    if ps == [] then [] else ps[0].Wire() + Stream(ps[1..])
  }

  function Bares(ps: seq<Packet>): (r: seq<Octets>)
    ensures |r| == |ps|
  {
    seq(|ps|, i requires 0 <= i < |ps| => ps[i].Bare())
  }

  lemma NextOfStun(p: Packet, tail: Octets)
    requires p.StunPacket? && p.WellTyped()
    ensures var r := NextMessage(p.Wire() + tail);
            if p.Fits() then r == Whole(p.Bare(), |p.Wire()|)
            else r.Whole? && |r.message| < |p.Bare()|
  {
    hide Frame, EncodeAttrs, TypeHigh, TypeLow, Word16;
    var body := EncodeAttrs(p.attrs);
    HeaderOfFrame(p.kind, p.msgClass, p.tid, body);
    var w := p.Wire();
    var s := w + tail;
    assert s[0] == w[0] && s[2] == w[2] && s[3] == w[3];
    assert s[..|w|] == w;
  }

  lemma ChannelParts(number: u16, data: Octets, tail: Octets)
    ensures var w, len := ChannelFrame(number, data), |data| % 0x1_0000;
      var s := w + tail;
      && |w| == 4 + |data| + Padding(len)
      && s[0] == number / 0x100 && Word16(s[2], s[3]) == len
      && s[..4 + |data|] == w[..4 + |data|]
  {
    hide Padding;
    var w, len := ChannelFrame(number, data), |data| % 0x1_0000;
    assert w[..4] == Be16(number) + Be16(len);
    Word16OfBe16(len);
    assert w[0] == number / 0x100 && w[2] == len / 0x100 && w[3] == len % 0x100;
  }

  /** The padded length wraps exactly for the three largest payloads. */
  lemma PaddedLength(n: u16)
    ensures var padded := (n + Padding(n)) % 0x1_0000;
      if n <= 65532 then padded == n + Padding(n) else padded < n
  {
  }

  lemma NextOfChannel(p: Packet, tail: Octets)
    requires p.ChannelPacket? && p.WellTyped()
    ensures var r := NextMessage(p.Wire() + tail);
            if p.Fits() then r == Whole(p.Bare(), |p.Wire()|)
            else r.Fault? || (r.Whole? && |r.message| < |p.Bare()|)
  {
    hide ChannelFrame, Padding, Zeros, Word16;
    ChannelParts(p.number, p.data, tail);
    PaddedLength(|p.data| % 0x1_0000);
    var s := p.Wire() + tail;
    assert s[0] / 0x40 == 1;
    if p.Fits() {
      assert |p.data| % 0x1_0000 == |p.data|;
    }
  }

  lemma PrependInjective(m: Octets, a: Deframed, b: Deframed)
    ensures Prepend([m], a) == Prepend([m], b) <==> a == b
  {
    assert Prepend([m], a).messages[1..] == a.messages;
    assert Prepend([m], b).messages[1..] == b.messages;
  }

  /** One packet in front of a stream. */
  lemma StreamStep(p: Packet, tail: Octets, bares: seq<Octets>)
    requires p.WellTyped()
    ensures Deframe(p.Wire() + tail) == Deframed([p.Bare()] + bares, [], false)
      <==> p.Fits() && Deframe(tail) == Deframed(bares, [], false)
  {
    if p.StunPacket? { NextOfStun(p, tail); } else { NextOfChannel(p, tail); }
    hide NextMessage, Packet.Wire, Packet.Bare, Packet.Fits;
    var s := p.Wire() + tail;
    if p.Fits() {
      assert s[|p.Wire()|..] == tail;
      PrependInjective(p.Bare(), Deframe(tail), Deframed(bares, [], false));
    } else if NextMessage(s).Whole? {
      assert Deframe(s).messages[0] == NextMessage(s).message;
    }
  }

  lemma EmptyStream()
    ensures Deframe([]) == Deframed(Bares([]), [], false)
  {
  }

  /** A stream of packets falls apart into exactly those packets, with nothing left over, if and only if all of them
      fit. */
  lemma {:induction false} StreamMeans(ps: seq<Packet>)
    requires forall p :: p in ps ==> p.WellTyped()
    ensures Deframe(Stream(ps)) == Deframed(Bares(ps), [], false) <==> forall p :: p in ps ==> p.Fits()
  {
    hide Deframe, Packet.Wire, Packet.Bare, Packet.Fits, Packet.WellTyped;
    if ps == [] {
      EmptyStream();
    } else {
      var p, rest := ps[0], ps[1..];
      assert ps == [p] + rest;
      assert Bares(ps) == [p.Bare()] + Bares(rest);
      StreamMeans(rest);
      StreamStep(p, Stream(rest), Bares(rest));
    }
  }

  /** A single frame of 65533 payload bytes is not delivered as it was sent. */
  lemma LargeFrameIsLost()
    ensures var p := ChannelPacket(0x4000, Zeros(65533));
            p.WellTyped() && Deframe(Stream([p])) != Deframed(Bares([p]), [], false)
  {
    hide Deframe, Stream, Zeros;
    var p := ChannelPacket(0x4000, Zeros(65533));
    assert p in [p] && !p.Fits();
    StreamMeans([p]);
  }

  function Concat(chunks: seq<Octets>): Octets {
    if chunks == [] then [] else Concat(chunks[..|chunks| - 1]) + chunks[|chunks| - 1]
  }

  ghost predicate Sendable(ps: seq<Packet>) {
    forall p :: p in ps ==> p.WellTyped() && p.Fits()
  }

  /** One session reads a stream cut into any chunks. Whatever packets the stream was made of, they are
      delivered one by one, and the session waits for a first byte again. */
  method ReadStream(chunks: seq<Octets>) returns (delivered: seq<Octets>, reading: Reading)
    ensures delivered == Deframe(Concat(chunks)).messages
    ensures forall ps :: Sendable(ps) && Stream(ps) == Concat(chunks) ==> delivered == Bares(ps) && reading == FirstByte
  {
    var session := new TcpSession();
    for i := 0 to |chunks|
      invariant session.Valid() && session.received == Concat(chunks[..i])
    {
      assert chunks[..i + 1][..i] == chunks[..i];
      session.OnBytes(chunks[i]);
    }
    assert chunks[..|chunks|] == chunks;
    session.Summary();
    delivered, reading := session.delivered, session.reading;
    forall ps | Sendable(ps) && Stream(ps) == Concat(chunks)
      ensures delivered == Bares(ps) && reading == FirstByte
    {
      StreamMeans(ps);
    }
  }

  /** Losing its padding does not change how a frame is read. */
  lemma BareFrame(number: u16, data: Octets)
    requires |data| < 0x1_0000
    ensures ParseChannelData(ChannelFrame(number, data)[..4 + |data|]) == ParseChannelData(ChannelFrame(number, data))
  {
    hide ChannelFrame;
    var w := ChannelFrame(number, data);
    ChannelParts(number, data, []);
    assert w + [] == w;
    var b := w[..4 + |data|];
    assert b[0] == w[0] && b[1] == w[1] && b[2] == w[2] && b[3] == w[3];
    assert b[4..4 + |data|] == w[4..4 + |data|];
  }

  /** A delivered packet reads back as what was sent. */
  lemma BareParses(p: Packet)
    requires p.WellTyped() && p.Fits()
    ensures match p
      case StunPacket(kind, msgClass, tid, attrs) =>
        Sized(attrs) ==> ParseMessage(p.Bare()) == Stun.Ok(TurnMessage(msgClass, kind, |EncodeAttrs(attrs)|, tid,
            attrs))
      case ChannelPacket(number, data) =>
        IsChannelNumber(number) ==> ParseChannelData(p.Bare()) == ChannelData.Ok(number, data)
  {
    match p
    case StunPacket(kind, msgClass, tid, attrs) =>
      if Sized(attrs) {
        BuildParseRoundTrip(kind, msgClass, tid, attrs);
      }
    case ChannelPacket(number, data) =>
      BareFrame(number, data);
      ChannelDataRoundTrip(number, data);
  }
}
