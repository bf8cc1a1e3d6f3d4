/** Channels over whole runs: a binding lasts as long as its allocation, and what it promises holds whatever
    happens in between. */
module ChannelRuns {
  import opened Bytes
  import opened Text
  import opened Stun
  import opened Builder
  import opened ChannelData
  import opened Integrity
  import opened Allocations
  import opened TurnServer
  import opened ServerRuns
  import opened EndToEnd

  /** The same allocation later: its addresses, its owner and its bindings are as before, and no permission has been
      taken away. */
  ghost predicate Continues(r: Record, r': Record) {
    && r'.id == r.id && r'.clientAddr == r.clientAddr && r'.relayedAddr == r.relayedAddr && r'.username == r.username
    && (forall n, peer :: r.BoundTo(n, peer) ==> r'.BoundTo(n, peer))
    && r.permissions.Keys <= r'.permissions.Keys
  }

  lemma InstallKeepsKeys(attrs: seq<Attribute>, state: Install, now: Instant)
    ensures state.permissions.Keys <= InstallPeers(attrs, state, now).permissions.Keys
  {
    hide PeerOf, IsDeniedAddress, IsPeerAttr;
  }

  /** A record after a request is an old one that continues, or a new one under the next number. */
  lemma RequestOfRecord(env: Env, t: Table, msg: TurnMessage, p: Packet, key: string)
    ensures var t' := OnRequest(env, t, msg, p).0;
            && t.nextId <= t'.nextId
            && (key in t'.allocs ==>
                  if key in t.allocs then Continues(t.allocs[key], t'.allocs[key]) else t'.allocs[key].id == t.nextId)
  {
    hide EndpointKey, ErrorMessage, BuildMessage, AllocateAttrs, FindAttr, FirstFree, OwnedBy, RelayPorts;
    hide RequestedLifetime;
    hide InstallPeers, IsDeniedAddress, BindRequest;
    if EndpointKey(p.from) in t.allocs {
      InstallKeepsKeys(msg.attributes, Install(t.allocs[EndpointKey(p.from)].permissions, false, false), p.now);
    }
  }

  lemma StepOfRecord(env: Env, s: Server, e: Event, key: string)
    ensures var t, t' := s.table, Step(env, s, e).0.table;
            && t.nextId <= t'.nextId
            && (key in t'.allocs ==>
                  if key in t.allocs then Continues(t.allocs[key], t'.allocs[key]) else t'.allocs[key].id == t.nextId)
  {
    hide Step, Verdict, RequestOf, OnRequest;
    StepOfTable(env, s, e);
    if Authentic(env, s, e) {
      RequestOfRecord(env, s.table, RequestOf(e).value, e.packet, key);
    }
  }

  lemma {:induction false} NextIdGrows(env: Env, states: seq<Server>, events: seq<Event>, i: nat, j: nat)
    requires IsRun(env, states, events) && i <= j < |states|
    ensures states[i].table.nextId <= states[j].table.nextId
  {
    hide Step, ValidEvent;
    if i < j {
      NextIdGrows(env, states, events, i, j - 1);
      StepOfRecord(env, states[j - 1], events[j - 1], "");
    }
  }

  /** The client of this key has the same allocation in both states. */
  ghost predicate Lives(states: seq<Server>, key: string, i: nat, j: nat) {
    && i <= j < |states| && key in states[i].table.allocs && key in states[j].table.allocs
    && states[i].table.allocs[key].id == states[j].table.allocs[key].id
  }

  lemma IdBelowNext(env: Env, s: Server, key: string)
    requires ServerOk(env, s) && key in s.table.allocs
    ensures s.table.allocs[key].id < s.table.nextId
  {
    hide RecordOk, Distinct, QuotaOk, OwnersNamed;
  }

  /** Numbers are never used again: an allocation with the same number has been there all the time, and its
      bindings have stayed what they were. */
  lemma {:induction false} BindingsLast(env: Env, states: seq<Server>, events: seq<Event>, key: string, i: nat, j: nat)
    requires IsRun(env, states, events) && Lives(states, key, i, j)
    ensures Continues(states[i].table.allocs[key], states[j].table.allocs[key])
    ensures forall k :: i <= k <= j ==> Lives(states, key, i, k) && Lives(states, key, k, j)
    decreases j
  {
    hide Step, ServerOk, ValidEvent;
    if i < j {
      StepOfRecord(env, states[j - 1], events[j - 1], key);
      if key in states[j - 1].table.allocs {
        BindingsLast(env, states, events, key, i, j - 1);
      } else {
        ReachableOk(env, states, events, i);
        IdBelowNext(env, states[i], key);
        NextIdGrows(env, states, events, i, j - 1);
        assert false;
      }
    }
  }

  /** An allocation stays in the table, however long ago it expired, until its client releases it. */
  lemma {:induction false} AllocationStays(env: Env, states: seq<Server>, events: seq<Event>, client: Endpoint,
                                           i: nat, j: nat)
    requires IsRun(env, states, events) && i <= j < |states| && EndpointKey(client) in states[i].table.allocs
    requires forall k :: i <= k < j ==> !Releases(env, states[k], events[k], client)
    ensures Lives(states, EndpointKey(client), i, j)
    decreases j
  {
    hide Step, ServerOk, ValidEvent, Releases, EndpointKey;
    if i < j {
      AllocationStays(env, states, events, client, i, j - 1);
      ReachableOk(env, states, events, j - 1);
      ReleasedOnlyByClient(env, states[j - 1], events[j - 1], client);
      StepOfRecord(env, states[j - 1], events[j - 1], EndpointKey(client));
    }
  }

  ghost predicate Monotone(events: seq<Event>) {
    forall i, j :: 0 <= i <= j < |events| ==> events[i].Now() <= events[j].Now()
  }

  /** With a clock that does not run backwards no deadline of a permission ever moves back. */
  lemma {:induction false} DeadlineGrows(env: Env, states: seq<Server>, events: seq<Event>, key: string,
                                         address: string, i: nat, j: nat)
    requires IsRun(env, states, events) && Monotone(events) && Lives(states, key, i, j)
    requires Permits(states[i].table, key, address)
    ensures Permits(states[j].table, key, address)
    ensures Deadline(states[i].table, key, address) <= Deadline(states[j].table, key, address)
    decreases j
  {
    hide Step, ValidEvent, Grants;
    if i < j {
      BindingsLast(env, states, events, key, i, j);
      DeadlineGrows(env, states, events, key, address, i, j - 1);
      assert Lives(states, key, j - 1, j);
      BindingsLast(env, states, events, key, j - 1, j);
      PermissionOrigin(env, states[j - 1], events[j - 1], key, address);
      var k := EveryPermissionGranted(env, states, events, j - 1, key, address);
      assert events[k].Now() <= events[j - 1].Now();
    }
  }

  /** The event is an authenticated request that binds this channel of client a to this peer. */
  ghost predicate BindsAt(env: Env, s: Server, e: Event, a: Endpoint, x: u16, peer: Endpoint) {
    && Authentic(env, s, e) && e.packet.from == a && RequestOf(e).value.kind == ChannelBind
    && Binds(s.table, RequestOf(e).value, a, x, peer)
  }

  lemma StepOfBind(env: Env, s: Server, e: Event, a: Endpoint, x: u16, peer: Endpoint)
    requires BindsAt(env, s, e, a, x, peer)
    ensures var key, t' := EndpointKey(a), Step(env, s, e).0.table;
            && key in s.table.allocs && key in t'.allocs && t'.allocs[key].BoundTo(x, peer)
            && Permits(t', key, peer.address) && Deadline(t', key, peer.address) == e.Now() + PERMISSION_TTL
  {
    hide Step, RequestOf, Verdict, OnRequest, OnChannelBind, EndpointKey, BindRequest, BindConflict, IsDeniedAddress;
    StepOfTable(env, s, e);
    KindOfRequest(env, s.table, RequestOf(e).value, e.packet);
    BindGranted(s.table, RequestOf(e).value, a, x, peer, e.packet.now);
  }

  /** Once bound, a channel stays bound to the same peer while its allocation lives, and the permission that came
      with it stays live for 300 seconds at least. */
  lemma BoundFromThenOn(env: Env, states: seq<Server>, events: seq<Event>, i: nat, n: nat, a: Endpoint, x: u16,
      peer: Endpoint)
    requires IsRun(env, states, events) && Monotone(events) && i < n < |states|
    requires BindsAt(env, states[i], events[i], a, x, peer) && Lives(states, EndpointKey(a), i, n)
    ensures var r := states[n].table.allocs[EndpointKey(a)];
            && r.BoundTo(x, peer)
            && forall now :: now < events[i].Now() + PERMISSION_TTL ==> r.HasPermission(peer.address, now)
  {
    hide Step, ValidEvent, BindsAt, EndpointKey;
    var key := EndpointKey(a);
    StepOfBind(env, states[i], events[i], a, x, peer);
    BindingsLast(env, states, events, key, i, n);
    assert Lives(states, key, i + 1, n);
    BindingsLast(env, states, events, key, i + 1, n);
    DeadlineGrows(env, states, events, key, peer.address, i + 1, n);
  }

  /** Channel relaying over runs. Two clients hold their allocations from event m to event n and meanwhile bind
      channels to each other's relayed addresses. Whatever else happens in between, a frame the one sends at
      event n reaches the other on its own channel with the same payload, if less than 300 seconds have
      passed since the sender's bind; later it does so or is dropped. */
  lemma FramesPassAfterBinds(env: Env, states: seq<Server>, events: seq<Event>, m: nat, n: nat,
                             a: Endpoint, x: u16, i: nat, b: Endpoint, y: u16, j: nat, data: Octets)
    requires IsRun(env, states, events) && Monotone(events) && m <= i < n && m <= j < n < |events|
    requires Lives(states, EndpointKey(a), m, n) && Lives(states, EndpointKey(b), m, n)
    requires BindsAt(env, states[i], events[i], a, x, states[m].table.allocs[EndpointKey(b)].relayedAddr)
    requires BindsAt(env, states[j], events[j], b, y, states[m].table.allocs[EndpointKey(a)].relayedAddr)
    requires events[n].FromClient? && events[n].packet.from == a
    requires ParseChannelData(events[n].packet.raw) == ChannelData.Ok(x, data)
    ensures var (s', out) := Step(env, states[n], events[n]);
            && s' == states[n] && out in {[], [Datagram(ChannelFrame(y, data), b)]}
            && (events[n].Now() < events[i].Now() + PERMISSION_TTL ==> out == [Datagram(ChannelFrame(y, data), b)])
    ensures ParseChannelData(ChannelFrame(y, data)) == ChannelData.Ok(y, data)
  {
    hide ValidEvent, BindsAt, EndpointKey, OnPacket, ServerOk, ChannelFrame, ParseChannelData, IsRun;
    var ka, kb := EndpointKey(a), EndpointKey(b);
    ReachableOk(env, states, events, n);
    BindingsLast(env, states, events, ka, m, n);
    BindingsLast(env, states, events, kb, m, n);
    RecordsOk(env, states[n], kb);
    BoundFromThenOn(env, states, events, i, n, a, x, states[m].table.allocs[kb].relayedAddr);
    BoundFromThenOn(env, states, events, j, n, b, y, states[m].table.allocs[ka].relayedAddr);
    ChannelRelay(env, states[n], a, x, b, y, events[n].packet, data);
  }
}
