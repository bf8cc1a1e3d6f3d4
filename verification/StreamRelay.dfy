/** Channel relaying from a TCP stream to a TCP stream. */
module StreamRelay {
  import opened Bytes
  import opened Text
  import opened ChannelData
  import opened Deframer
  import opened Framing
  import opened Allocations
  import opened TurnServer
  import opened EndToEnd

  /** One ChannelData message for each payload, all on the same channel. */
  function Frames(number: u16, payloads: seq<Octets>): (ps: seq<Framing.Packet>)
    ensures |ps| == |payloads|
    ensures forall k :: 0 <= k < |ps| ==> ps[k] == ChannelPacket(number, payloads[k])
  {
    seq(|payloads|, k requires 0 <= k < |payloads| => ChannelPacket(number, payloads[k]))
  }

  /** A stream of frames deframes into messages that parse to exactly the payloads, in order. */
  lemma FramesParse(number: u16, payloads: seq<Octets>)
    requires IsChannelNumber(number) && forall k :: 0 <= k < |payloads| ==> |payloads[k]| <= 65532
    ensures var d := Deframe(Stream(Frames(number, payloads)));
            && |d.messages| == |payloads| && d.rest == [] && !d.faulted
            && forall k :: 0 <= k < |payloads| ==>
                 ParseChannelData(d.messages[k]) == ChannelData.Ok(number, payloads[k])
  {
    hide Deframe, Stream, ParseChannelData, Framing.Packet.Bare, Framing.Packet.Wire;
    var ps := Frames(number, payloads);
    assert forall p :: p in ps ==> p.WellTyped() && p.Fits();
    StreamMeans(ps);
    forall k | 0 <= k < |payloads| ensures ParseChannelData(ps[k].Bare()) == ChannelData.Ok(number, payloads[k]) {
      BareParses(ps[k]);
    }
  }

  /** Two clients have bound channels to each other's relayed addresses. What the one sends as frames in a TCP
      stream, cut into any chunks, the server takes in message by message and sends on as frames of the other
      client's channel; the stream of those frames gives the other client the same payloads in the same order. */
  lemma StreamedFramesRelayed(env: Env, s: Server, a: Endpoint, x: u16, b: Endpoint, y: u16, payloads: seq<Octets>,
                              chunks: seq<Octets>, packets: seq<TurnServer.Packet>)
    requires ServerOk(env, s) && ChannelBetween(s.table, a, x, b) && ChannelBetween(s.table, b, y, a)
    requires forall k :: 0 <= k < |payloads| ==> |payloads[k]| <= 65532
    requires Concat(chunks) == Stream(Frames(x, payloads))
    requires |packets| == |Deframe(Concat(chunks)).messages|
    requires forall k :: 0 <= k < |packets| ==>
      && packets[k].raw == Deframe(Concat(chunks)).messages[k] && packets[k].from == a
      && s.table.allocs[EndpointKey(a)].HasPermission(env.cfg.relayAddress, packets[k].now)
    ensures |packets| == |payloads|
    ensures forall k :: 0 <= k < |packets| ==>
      OnPacket(env, s, packets[k]) == (s, [Datagram(Frames(y, payloads)[k].Wire(), b)])
    ensures var d := Deframe(Stream(Frames(y, payloads)));
            && |d.messages| == |payloads| && d.rest == [] && !d.faulted
            && forall k :: 0 <= k < |payloads| ==> ParseChannelData(d.messages[k]) == ChannelData.Ok(y, payloads[k])
  {
    hide Deframe, Stream, ParseChannelData, OnPacket, ServerOk, EndpointKey, ChannelFrame, Concat;
    BoundNumbers(env, s, a, x, b);
    BoundNumbers(env, s, b, y, a);
    FramesParse(x, payloads);
    FramesParse(y, payloads);
    forall k | 0 <= k < |packets|
      ensures OnPacket(env, s, packets[k]) == (s, [Datagram(Frames(y, payloads)[k].Wire(), b)])
    {
      ChannelRelay(env, s, a, x, b, y, packets[k], payloads[k]);
    }
  }

  lemma BoundNumbers(env: Env, s: Server, a: Endpoint, x: u16, b: Endpoint)
    requires ServerOk(env, s) && ChannelBetween(s.table, a, x, b)
    ensures IsChannelNumber(x)
  {
    hide EndpointKey, ServerOk;
    RecordsOk(env, s, EndpointKey(a));
  }
}
