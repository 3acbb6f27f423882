/** The bus controller as an object: the loop body changes its fields in place and is proved to be `BusModel.Step`. */
module BusControllers {
  import opened Prelude
  import opened Labels
  import opened BusModel

  /** A received frame, told apart by the type of its payload. */
  datatype Packet =
    | Routable(msg: Message)
    | Connecting(reply: Option<Remote>, payload: Option<Connect>)
    | FetchingProcessHandle

  class BusController {
    const cfg: Config
    var endpoints: seq<Endpoint>
    var messageBuffer: seq<Parked>
    var messageBufferSwap: seq<Parked>
    var lastDetectReachable: nat
    /** False once a send to the local queue has failed: its receiver is gone for good. */
    var localOpen: bool
    var nextId: nat
    var arrived: nat
    ghost var log: seq<Event>
    ghost var arrivals: seq<Message>
    ghost var dropped: seq<Drop>

    ghost predicate Valid()
      reads this
    {
      messageBufferSwap == [] && arrived == |arrivals|
    }

    ghost function StateWith(buffer: seq<Parked>): Bus
      reads this
    {
      Bus(endpoints, buffer, lastDetectReachable, localOpen, nextId, log, arrivals, dropped)
    }

    ghost function State(): Bus
      reads this
    {
      StateWith(messageBuffer)
    }

    constructor (cfg: Config, start: nat)
      ensures Valid() && this.cfg == cfg && State() == Init(start)
    {
      this.cfg := cfg;
      endpoints, messageBuffer, messageBufferSwap := [], [], [];
      lastDetectReachable, localOpen, nextId, arrived := start, true, 0, 0;
      log, arrivals, dropped := [], [], [];
    }

    /** One iteration of `run`. */
    method RunOnce(input: Input, env: Env)
      requires Valid()
      modifies this
      ensures Valid()
      ensures State() == Step(cfg, old(State()), input, env)
    {
      var packet;
      match input {
        case BadVersion(reply) =>
          if reply.Some? {
            SendAckTo(reply.value, ErrVersion, env);
          }
          return;
        case RecvFailed => return;
        case Ordinary(op, mode, ttl) =>
          var m := Message(arrived, env.now, op, mode, ttl);
          arrived := arrived + 1;
          arrivals := arrivals + [m];
          packet := Routable(m);
        case ConnectRequest(reply, payload) => packet := Connecting(reply, payload);
        case FetchProcessHandle => packet := FetchingProcessHandle;
      }
      HandlePacket(packet, env);
      assert State() == Dispatch(cfg, old(State()), input, env);
      DetectReachable(env);
      MaintainBuffer(env);
    }

    /** The part of an iteration that a packet decides: route it and park what remains, or replay after a join. */
    method HandlePacket(packet: Packet, env: Env)
      requires Valid()
      modifies this`endpoints, this`messageBuffer, this`messageBufferSwap, this`localOpen, this`log, this`dropped, this`nextId
      ensures Valid()
      ensures State() == match packet
        case Routable(m) => Handle(cfg, old(State()), Parked(env.now + m.ttl, m), env)
        case Connecting(reply, payload) => AdmitAndReplay(cfg, old(State()), reply, payload, env)
        case FetchingProcessHandle => old(State())
    {
      var remain, connected := HandleMessage(packet, env);
      if remain.Some? {
        if remain.value.ttl != 0 {
          messageBuffer := messageBuffer + [Parked(env.now + remain.value.ttl, remain.value)];
        } else {
          dropped := dropped + [Drop(remain.value, env.now)];
        }
      } else if connected && |messageBuffer| != 0 {
        ReplayBuffer(env);
      }
    }

    /** Drain the buffer through the swap buffer. */
    method ReplayBuffer(env: Env)
      requires messageBufferSwap == []
      modifies this`endpoints, this`messageBuffer, this`messageBufferSwap, this`localOpen, this`log, this`dropped, this`nextId
      ensures messageBufferSwap == []
      ensures State() == Replay(cfg, old(StateWith([])), old(messageBuffer), env)
    {
      ghost var before := StateWith([]);
      var drained := messageBuffer;
      messageBuffer := [];
      for i := 0 to |drained|
        invariant lastDetectReachable == before.lastDetect && arrivals == before.arrivals
        invariant Replay(cfg, StateWith(messageBufferSwap), drained[i..], env) == Replay(cfg, before, drained, env)
      {
        assert drained[i..][0] == drained[i] && drained[i..][1..] == drained[i + 1..];
        ReplayOne(drained[i], env);
      }
      messageBuffer := [];
      messageBuffer, messageBufferSwap := messageBufferSwap, messageBuffer;
    }

    /** Try a parked message again; if it remains and has not expired it goes to the swap buffer. */
    method ReplayOne(p: Parked, env: Env)
      modifies this`endpoints, this`messageBufferSwap, this`localOpen, this`log, this`dropped, this`nextId
      ensures StateWith(messageBufferSwap) == Handle(cfg, old(StateWith(messageBufferSwap)), p, env)
    {
      var remain, _ := HandleMessage(Routable(p.msg), env);
      RouteIgnoresBuffer(cfg, old(StateWith(messageBufferSwap)), messageBuffer, p.msg, env);
      if remain.Some? {
        if p.expire > env.now {
          messageBufferSwap := messageBufferSwap + [Parked(p.expire, remain.value)];
        } else {
          dropped := dropped + [Drop(remain.value, env.now)];
        }
      }
    }

    /** Routes a message or registers an endpoint; does not touch the buffers. */
    method HandleMessage(packet: Packet, env: Env) returns (remain: Option<Message>, endpointConnected: bool)
      modifies this`endpoints, this`localOpen, this`log, this`nextId
      ensures packet.Routable? ==>
        && State() == Route(cfg, old(State()), packet.msg, env).bus
        && remain == (if Route(cfg, old(State()), packet.msg, env).remain then Some(packet.msg) else None)
        && !endpointConnected
      ensures packet.Connecting? ==>
        && Connected(State(), endpointConnected) == Admit(cfg, old(State()), packet.reply, packet.payload, env)
        && remain.None?
      ensures packet.FetchingProcessHandle? ==> State() == old(State()) && remain.None? && !endpointConnected
    {
      var routed := false;
      remain, endpointConnected := None, false;
      match packet {
        case Connecting(reply, payload) => endpointConnected := EndpointConnect(reply, payload, env);
        case FetchingProcessHandle =>
        case Routable(m) =>
          routed := SendToEndpoints(m, env);
          if (!routed || m.mode.Multicast?) && Validate(m.op, cfg.tags) {
            if localOpen && env.localOk(m.id) {
              log := log + [Delivered(m, ToLocal)];
            } else {
              localOpen := false;
              if !routed {
                remain := Some(m);
              }
            }
          } else {
            if !routed {
              remain := Some(m);
            }
          }
      }
    }

    /** The `retain` over the endpoints. */
    method SendToEndpoints(m: Message, env: Env) returns (routed: bool)
      modifies this`endpoints, this`log
      ensures var w := SweepEndpoints(old(endpoints), m, env.sendOk);
        && endpoints == w.kept
        && log == old(log) + DeliveredTo(m, w.reached)
        && routed == (w.reached != [])
    {
      routed := false;
      var kept: seq<Endpoint> := [];
      ghost var reached: seq<Endpoint> := [];
      for i := 0 to |endpoints|
        invariant endpoints == old(endpoints)
        invariant SweepEndpoints(endpoints[..i], m, env.sendOk) == Sweep(kept, reached)
        invariant log == old(log) + DeliveredTo(m, reached)
        invariant routed == (reached != [])
      {
        assert endpoints[..i + 1][..i] == endpoints[..i];
        var online := true;
        if !(routed && m.mode.Unicast?) && Validate(m.op, endpoints[i].tags) {
          if env.sendOk(m.id, endpoints[i].id) {
            routed := true;
            assert DeliveredTo(m, reached + [endpoints[i]]) == DeliveredTo(m, reached) + [Delivered(m, ToEndpoint(endpoints[i]))];
            log := log + [Delivered(m, ToEndpoint(endpoints[i]))];
            reached := reached + [endpoints[i]];
          } else {
            online := false;
          }
        }
        if online {
          kept := kept + [endpoints[i]];
        }
      }
      assert endpoints[..|endpoints|] == endpoints;
      endpoints := kept;
    }

    method SendAckTo(remote: Remote, ack: Ack, env: Env)
      modifies this`log
      ensures State() == SendAck(old(State()), remote, ack, env.ackOk)
    {
      if env.ackOk {
        log := log + [Acked(remote, ack)];
      }
    }

    method EndpointConnect(reply: Option<Remote>, payload: Option<Connect>, env: Env) returns (joined: bool)
      modifies this`endpoints, this`log, this`nextId
      ensures Connected(State(), joined) == Admit(cfg, old(State()), reply, payload, env)
    {
      if reply.None? {
        return false;
      }
      var remote := reply.value;
      if payload.None? {
        SendAckTo(remote, ErrVersion, env);
        return false;
      }
      if !payload.value.version.Compatible(cfg.version) {
        SendAckTo(remote, ErrVersion, env);
        return false;
      }
      if payload.value.token != cfg.token {
        SendAckTo(remote, ErrToken, env);
        return false;
      }
      var endpointId := nextId;
      nextId := nextId + 1;
      SendAckTo(remote, AckOk(endpointId), env);
      if !env.ackOk {
        return false;
      }
      var pair := Endpoint(endpointId, payload.value.tags, remote);
      for i := 0 to |endpoints|
        invariant forall k | 0 <= k < i :: !(endpoints[k].tags == pair.tags && endpoints[k].remote == pair.remote)
      {
        if endpoints[i].tags == pair.tags && endpoints[i].remote == pair.remote {
          assert Registered(old(State()), pair.tags, remote);
          return false;
        }
      }
      endpoints := endpoints + [pair];
      return true;
    }

    method DetectReachable(env: Env)
      modifies this`endpoints, this`lastDetectReachable
      ensures State() == BusModel.DetectReachable(old(State()), env)
    {
      if env.now > lastDetectReachable + DETECT_PERIOD {
        var kept: seq<Endpoint> := [];
        for i := 0 to |endpoints|
          invariant endpoints == old(endpoints)
          invariant kept == Filter(endpoints[..i], (ep: Endpoint) => !env.dead(ep.id))
        {
          assert endpoints[..i + 1][..i] == endpoints[..i];
          if !env.dead(endpoints[i].id) {
            kept := kept + [endpoints[i]];
          }
        }
        assert endpoints[..|endpoints|] == endpoints;
        endpoints := kept;
        lastDetectReachable := env.now;
      }
    }

    method MaintainBuffer(env: Env)
      modifies this`messageBuffer, this`dropped
      ensures State() == Maintain(old(State()), env)
    {
      var kept: seq<Parked> := [];
      ghost var gone: seq<Parked> := [];
      for i := 0 to |messageBuffer|
        invariant messageBuffer == old(messageBuffer)
        invariant kept == Filter(messageBuffer[..i], (p: Parked) => p.expire > env.now)
        invariant gone == Filter(messageBuffer[..i], (p: Parked) => p.expire <= env.now)
      {
        assert messageBuffer[..i + 1][..i] == messageBuffer[..i];
        if messageBuffer[i].expire > env.now {
          kept := kept + [messageBuffer[i]];
        } else {
          gone := gone + [messageBuffer[i]];
        }
      }
      assert messageBuffer[..|messageBuffer|] == messageBuffer;
      messageBuffer := kept;
      dropped := dropped + DropsOf(gone, env.now);
    }
  }

  /** Routing neither reads nor writes the message buffer. */
  lemma RouteIgnoresBuffer(cfg: Config, s: Bus, buffer: seq<Parked>, m: Message, env: Env)
    ensures var r := Route(cfg, s, m, env);
      Route(cfg, s.(buffer := buffer), m, env) == Routed(r.bus.(buffer := buffer), r.remain)
  {
  }
}
