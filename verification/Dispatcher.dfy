/** The dispatcher: packets in, datagrams out, over the allocation manager and the nonce store. */
module Dispatcher {
  import opened Bytes
  import opened Text
  import opened Stun
  import opened Builder
  import opened ChannelData
  import opened Credentials
  import opened Integrity
  import opened Allocations
  import opened TableInvariants
  import opened AllocationManager
  import TS = TurnServer
  import opened TurnServer

  class TurnDispatcher {
    const env: Env
    const manager: Manager
    var nonces: map<string, Instant>
    var sent: seq<Datagram>

    ghost function View(): Server
      requires Within(manager.byClient, manager.objects)
      reads this, manager, manager.objects
    {
      Server(manager.View(), nonces)
    }

    ghost predicate Valid()
      reads this, manager, manager.objects
    {
      manager.cfg == env.cfg && manager.Indexed() && ServerOk(env, View())
    }

    constructor (env: Env)
      ensures Valid() && View() == INITIAL && sent == [] && this.env == env
      ensures fresh(manager) && manager.objects == {}
    {
      this.env := env;
      manager := new Manager(env.cfg);
      nonces, sent := map[], [];
      new;
      InitialTableOk(env.cfg);
    }

    method MakeChallenge(p: Packet)
      requires p.nonce !in nonces
      modifies this`nonces
      ensures nonces == old(nonces)[p.nonce := p.now + NONCE_TTL]
    {
      nonces := nonces[p.nonce := p.now + NONCE_TTL];
    }

    method SendChallenge(msg: TurnMessage, p: Packet, code: u16, reason: string)
      requires p.nonce !in nonces
      modifies this`nonces, this`sent
      ensures nonces == old(nonces)[p.nonce := p.now + NONCE_TTL]
      ensures sent == old(sent) + [Datagram(Challenge(env, msg, code, reason, p.nonce), p.from)]
    {
      MakeChallenge(p);
      var b := new MessageBuilder(msg.kind, ErrorResponse, msg.tid);
      b.AddErrorCode(code, reason);
      b.AddAttr(REALM, BytesOf(env.cred.realm));
      b.AddAttr(NONCE, BytesOf(p.nonce));
      assert b.attrs == [Attribute(ERROR_CODE, ErrorValue(code, reason)), Attribute(REALM, BytesOf(env.cred.realm)),
                         Attribute(NONCE, BytesOf(p.nonce))];
      var resp := b.Build();
      sent := sent + [Datagram(resp, p.from)];
    }

    method HandleRequest(msg: TurnMessage, p: Packet) returns (resp: Octets)
      requires manager.cfg == env.cfg && manager.Indexed() && ValidDraws(env.cfg, p.draws)
      modifies manager, manager.objects
      ensures manager.Indexed() && fresh(manager.objects - old(manager.objects))
      ensures (manager.View(), resp) == OnRequest(env, old(manager.View()), msg, p)
    {
      hide OnAllocate, OnRefresh, OnCreatePermission, OnChannelBind, ErrorMessage;
      var username := UsernameOf(msg);
      match msg.kind
      case Allocate => resp := manager.HandleAllocate(msg, p.from, username, env.cred.realm, p.draws, p.now);
      case Refresh => resp := manager.HandleRefresh(msg, p.from, username, p.now);
      case CreatePermission => resp := manager.HandleCreatePermission(msg, p.from, p.now);
      case ChannelBind => resp := manager.HandleChannelBind(msg, p.from, p.now);
      case _ => resp := MakeError(msg.tid, 400, "Bad Request");
    }

    method OwnerName(msg: TurnMessage, from: Endpoint) returns (username: string)
      requires manager.Indexed()
      ensures username == AllocatedUsername(manager.View(), msg, from)
    {
      hide EndpointKey, PortsOf;
      username := "";
      if msg.kind != Allocate {
        var a := manager.FindByClient(from);
        if a != null {
          username := a.username;
        }
      }
    }

    method HandleStun(msg: TurnMessage, p: Packet)
      requires manager.cfg == env.cfg && manager.Indexed()
      requires ValidDraws(env.cfg, p.draws) && p.nonce !in nonces
      modifies this, manager, manager.objects
      ensures manager.Indexed() && fresh(manager.objects - old(manager.objects))
      ensures View() == OnStun(env, old(View()), msg, p).0
      ensures sent == old(sent) + OnStun(env, old(View()), msg, p).1
    {
      hide EndpointKey, SendOutput, OnVerdict, ValidDraws, AllocatedUsername, PortsOf;
      hide LongTermCred.Authenticate, Manager.IndexesAgree, Manager.PortsMarked;
      if msg.msgClass == Indication {
        if msg.kind == Send {
          var out := manager.HandleSend(msg, p.from, p.now);
          sent := sent + out;
        }
        return;
      }
      var allocatedUsername := OwnerName(msg, p.from);
      var verdict := env.cred.AuthenticateRequest(msg, p.raw, allocatedUsername, nonces, p.now, p.wall);
      Respond(msg, p, verdict);
    }

    /** The switch over the result of authentication. */
    method Respond(msg: TurnMessage, p: Packet, verdict: AuthResult)
      requires manager.cfg == env.cfg && manager.Indexed()
      requires ValidDraws(env.cfg, p.draws) && p.nonce !in nonces
      modifies this, manager, manager.objects
      ensures manager.Indexed() && fresh(manager.objects - old(manager.objects))
      ensures View() == OnVerdict(env, old(View()), msg, p, verdict).0
      ensures sent == old(sent) + OnVerdict(env, old(View()), msg, p, verdict).1
    {
      hide EndpointKey, OnRequest, Challenge, ErrorMessage, ValidDraws, PortsOf, SignedFor;
      hide Manager.IndexesAgree, Manager.PortsMarked;
      match verdict
      case MissingCredentials => SendChallenge(msg, p, 401, "Unauthorized");
      case StaleNonce => SendChallenge(msg, p, 438, "Stale Nonce");
      case BadIntegrity => SendChallenge(msg, p, 401, "Unauthorized");
      case CredentialsExpired => SendChallenge(msg, p, 401, "Unauthorized");
      case WrongCredentials =>
        var resp := MakeError(msg.tid, 441, "Wrong Credentials");
        sent := sent + [Datagram(resp, p.from)];
      case AuthOk => AnswerRequest(msg, p);
    }

    method AnswerRequest(msg: TurnMessage, p: Packet)
      requires manager.cfg == env.cfg && manager.Indexed() && ValidDraws(env.cfg, p.draws)
      modifies this`sent, manager, manager.objects
      ensures manager.Indexed() && fresh(manager.objects - old(manager.objects))
      ensures var (table, reply) := OnRequest(env, old(manager.View()), msg, p);
              manager.View() == table && sent == old(sent) + [Datagram(SignedFor(env, msg, reply), p.from)]
    {
      hide EndpointKey, OnRequest, UsernameOf, ValidDraws, PortsOf;
      hide LongTermCred.Signed, Manager.IndexesAgree, HmacValidator.GetPassword;
      var username := UsernameOf(msg);
      var password := env.cred.Validator().GetPassword(username);
      var resp := HandleRequest(msg, p);
      var signed := env.cred.SignResponse(resp, username, password);
      sent := sent + [Datagram(signed, p.from)];
    }

    lemma ChannelsOkOf(k: string)
      requires Valid() && k in manager.byClient
      ensures manager.byClient[k].View().ChannelsOk()
    {
      hide EndpointKey, QuotaOk, Distinct, InPortRange, Record.PermissionsOk, Record.ChannelsOk, OwnersNamed;
      assert View().table.allocs[k] == manager.byClient[k].View();
      assert RecordOk(env.cfg, k, View().table.allocs[k]);
    }

    /** Data from another relayed address, as the owner of the target address hears it. */
    method Forward(owner: Allocation, from: Endpoint, data: Octets)
      requires owner.View().ChannelsOk()
      modifies this`sent
      ensures sent == old(sent) + ForwardOutput(owner.View(), from, data)
    {
      hide ChannelTo, DataIndication, ChannelFrame, ParseV4, Record.ChannelsOk;
      var channel := owner.FindChannelTo(from);
      if channel.Some? {
        var fwd := MakeChannelData(channel.value, data);
        sent := sent + [Datagram(fwd, owner.clientAddr)];
        return;
      }
      var ip := ParseV4(from.address);
      if ip.Some? {
        var indication := MakeDataIndication(ip.value, from.port, data);
        sent := sent + [Datagram(indication, owner.clientAddr)];
      }
    }

    method HandleChannelData(p: Packet)
      requires Valid()
      modifies this`sent
      ensures sent == old(sent) + match ParseChannelData(p.raw)
                                  case Ok(number, data) => ChannelOutput(View().table, number, data, p.from, p.now)
                                  case _ => []
    {
      hide EndpointKey, ParseChannelData, RelayOwner;
      hide PortsOf, Manager.IndexesAgree, ForwardOutput;
      hide ServerOk, TableOk, Record.ChannelsOk;
      var r := ParseChannelData(p.raw);
      if !r.Ok? {
        return;
      }
      var a := manager.FindByClient(p.from);
      if a == null {
        return;
      }
      if r.number !in a.channels {
        return;
      }
      var peer := a.channels[r.number].peer;
      if !a.HasPermission(peer.address, p.now) {
        return;
      }
      var owner := manager.FindByRelay(peer);
      if owner == null {
        sent := sent + [Datagram(r.data, peer)];
        return;
      }
      ChannelsOkOf(RelayOwner(View().table, peer).value);
      Forward(owner, a.relayedAddr, r.data);
    }

    /** One packet does to the objects what the state machine says, and sends what it says. */
    method OnPacket(p: Packet)
      requires Valid() && ValidDraws(env.cfg, p.draws) && p.nonce !in nonces
      modifies this, manager, manager.objects
      ensures Valid() && fresh(manager.objects - old(manager.objects))
      ensures View() == TS.OnPacket(env, old(View()), p).0
      ensures sent == old(sent) + TS.OnPacket(env, old(View()), p).1
    {
      hide OnStun, ChannelOutput, ServerOk, ValidDraws, ParseMessage, ParseChannelData;
      StepKeepsServerOk(env, View(), FromClient(p));
      assert Step(env, View(), FromClient(p)) == TS.OnPacket(env, View(), p);
      if |p.raw| == 0 {
        return;
      }
      if p.raw[0] / 0x40 == 1 {
        HandleChannelData(p);
        return;
      }
      if p.raw[0] / 0x40 == 0 {
        var r := Parse(p.raw);
        if !r.Ok? {
          return;
        }
        HandleStun(r.msg, p);
      }
    }
  }
}
