/** Relaying to ordinary peers, and what the server lets drop. */
module PeerRelay {
  import opened Bytes
  import opened Text
  import opened Stun
  import opened Builder
  import opened ChannelData
  import opened Allocations
  import opened TurnServer
  import opened EndToEnd

  /** The endpoint is the relayed address of some client. */
  ghost predicate IsRelay(t: Table, peer: Endpoint) {
    exists k :: k in t.allocs && t.allocs[k].relayedAddr == peer
  }

  /** The sender has an allocation, and peer and data are there. */
  predicate Sendable(t: Table, msg: TurnMessage, client: Endpoint) {
    && EndpointKey(client) in t.allocs
    && msg.Find(0x0012).Some? && |msg.Find(0x0012).value| >= 8 && msg.Find(0x0013).Some?
  }

  /** A Send to a permitted peer that is nobody's relayed address goes to that peer as it is; one that is
      incomplete, comes from nobody's endpoint or names a peer without permission is dropped. */
  lemma SendMeans(env: Env, s: Server, p: Packet, msg: TurnMessage)
    requires ParseMessage(p.raw) == Stun.Ok(msg) && msg.kind == Send && msg.msgClass == Indication
    ensures !Sendable(s.table, msg, p.from) ==> OnPacket(env, s, p) == (s, [])
    ensures Sendable(s.table, msg, p.from) ==>
      var r, peer := s.table.allocs[EndpointKey(p.from)], PeerOf(msg.Find(0x0012).value);
      && (!r.HasPermission(peer.address, p.now) ==> OnPacket(env, s, p) == (s, []))
      && (r.HasPermission(peer.address, p.now) && !IsRelay(s.table, peer) ==>
            OnPacket(env, s, p) == (s, [Datagram(msg.Find(0x0013).value, peer)]))
  {
    hide EndpointKey, ParseMessage, ParseChannelData, PeerOf, FindAttr, DataIndication, ChannelOutput;
    FirstByteOfStun(p.raw);
  }

  /** ChannelData to a permitted peer that is nobody's relayed address goes to that peer as the bare payload; on
      a channel that is not bound, from nobody's endpoint or without permission it is dropped. */
  lemma ChannelDataMeans(env: Env, s: Server, p: Packet, x: u16, data: Octets)
    requires ParseChannelData(p.raw) == ChannelData.Ok(x, data)
    ensures var key := EndpointKey(p.from);
      && (key !in s.table.allocs || x !in s.table.allocs[key].channels ==> OnPacket(env, s, p) == (s, []))
      && (key in s.table.allocs && x in s.table.allocs[key].channels ==>
            var r, peer := s.table.allocs[key], s.table.allocs[key].channels[x].peer;
            && (!r.HasPermission(peer.address, p.now) ==> OnPacket(env, s, p) == (s, []))
            && (r.HasPermission(peer.address, p.now) && !IsRelay(s.table, peer) ==>
                  OnPacket(env, s, p) == (s, [Datagram(data, peer)])))
  {
    hide EndpointKey, ParseMessage, ParseChannelData, ForwardOutput, OnStun;
    ParsedFrame(p.raw);
  }

  /** Data that arrives at an address that is nobody's is dropped. */
  lemma PeerDataToNobody(env: Env, s: Server, e: Event)
    requires e.FromPeer? && !IsRelay(s.table, e.relay)
    ensures Step(env, s, e) == (s, [])
  {
    hide OnPacket, DataIndication, ChannelFrame;
  }

  /** A packet that is neither a STUN message nor ChannelData is ignored, and so is every indication but Send. */
  lemma OthersIgnored(env: Env, s: Server, p: Packet)
    ensures !ParseMessage(p.raw).Ok? && !ParseChannelData(p.raw).Ok? ==> OnPacket(env, s, p) == (s, [])
    ensures ParseMessage(p.raw).Ok? ==>
      var msg := ParseMessage(p.raw).msg;
      msg.msgClass == Indication && msg.kind != Send ==> OnPacket(env, s, p) == (s, [])
  {
    hide ParseMessage, ParseChannelData, ChannelOutput, SendOutput, OnVerdict;
    if ParseMessage(p.raw).Ok? {
      FirstByteOfStun(p.raw);
    }
  }
}
