/** What one iteration of the bus controller does to the bus, as functions on values. */
module BusModel {
  import opened Prelude
  import opened Labels
  import opened Versions

  datatype Mode = Unicast | Multicast

  /** `id` is the position in arrival order and `at` the arrival time; neither is on the wire. */
  datatype Message = Message(id: nat, at: nat, op: LabelOp, mode: Mode, ttl: nat)

  /** The comparable identity of a reply channel. */
  type Remote = int

  datatype Endpoint = Endpoint(id: nat, tags: Label, remote: Remote)

  datatype Parked = Parked(expire: nat, msg: Message)

  datatype Ack = AckOk(id: nat) | ErrVersion | ErrToken

  datatype Target = ToEndpoint(ep: Endpoint) | ToLocal

  /** Something that really left the controller: sends that failed leave no event. */
  datatype Event = Delivered(msg: Message, to: Target) | Acked(remote: Remote, ack: Ack)

  datatype Drop = Drop(msg: Message, at: nat)

  datatype Config = Config(tags: Label, token: string, version: Version)

  datatype Connect = Connect(version: Version, token: string, tags: Label)

  /** One result of `IoHub::recv`. A missing payload is one that does not decode. */
  datatype Input =
    | Ordinary(op: LabelOp, mode: Mode, ttl: nat)
    | ConnectRequest(reply: Option<Remote>, payload: Option<Connect>)
    | FetchProcessHandle
    | BadVersion(reply: Option<Remote>)
    | RecvFailed

  /** The outside world during one iteration. A send either succeeds or disconnects; the outcome may differ
      for every message and endpoint. */
  datatype Env = Env(now: nat, sendOk: (nat, nat) -> bool, localOk: nat -> bool, ackOk: bool, dead: nat -> bool)

  /** The controller's fields, the state of its local queue, and the history of the run. */
  datatype Bus = Bus(
    endpoints: seq<Endpoint>,
    buffer: seq<Parked>,
    lastDetect: nat,
    localOpen: bool,
    nextId: nat,
    log: seq<Event>,
    arrivals: seq<Message>,
    dropped: seq<Drop>)

  const DETECT_PERIOD: nat := 30_000

  datatype Sweep = Sweep(kept: seq<Endpoint>, reached: seq<Endpoint>)

  /** The `retain` pass over the endpoints: who stays registered and who got the message. */
  function SweepEndpoints(eps: seq<Endpoint>, m: Message, sendOk: (nat, nat) -> bool): Sweep {
    if eps == [] then Sweep([], [])
    else
      var w := SweepEndpoints(eps[..|eps| - 1], m, sendOk);
      var e := eps[|eps| - 1];
      if (w.reached != [] && m.mode.Unicast?) || !Validate(m.op, e.tags) then Sweep(w.kept + [e], w.reached)
      else if sendOk(m.id, e.id) then Sweep(w.kept + [e], w.reached + [e])
      else Sweep(w.kept, w.reached)
  }

  function DeliveredTo(m: Message, eps: seq<Endpoint>): (r: seq<Event>) {
    seq(|eps|, i requires 0 <= i < |eps| => Delivered(m, ToEndpoint(eps[i])))
  }

  predicate TriesLocal(cfg: Config, m: Message, reached: seq<Endpoint>) {
    (reached == [] || m.mode.Multicast?) && Validate(m.op, cfg.tags)
  }

  predicate SendsLocal(cfg: Config, s: Bus, m: Message, reached: seq<Endpoint>, env: Env) {
    TriesLocal(cfg, m, reached) && s.localOpen && env.localOk(m.id)
  }

  function Deliveries(cfg: Config, s: Bus, m: Message, env: Env): seq<Event> {
    var reached := SweepEndpoints(s.endpoints, m, env.sendOk).reached;
    DeliveredTo(m, reached) + if SendsLocal(cfg, s, m, reached, env) then [Delivered(m, ToLocal)] else []
  }

  datatype Routed = Routed(bus: Bus, remain: bool)

  /** One routing attempt; `remain` when nobody got the message. */
  function Route(cfg: Config, s: Bus, m: Message, env: Env): Routed {
    var w := SweepEndpoints(s.endpoints, m, env.sendOk);
    Routed(
      s.(endpoints := w.kept,
         localOpen := s.localOpen && (TriesLocal(cfg, m, w.reached) ==> env.localOk(m.id)),
         log := s.log + Deliveries(cfg, s, m, env)),
      w.reached == [] && !SendsLocal(cfg, s, m, w.reached, env))
  }

  /** Route a message that may wait until `p.expire`: deliver it, park it, or drop it. */
  function Handle(cfg: Config, s: Bus, p: Parked, env: Env): Bus {
    var r := Route(cfg, s, p.msg, env);
    if !r.remain then r.bus
    else if p.expire > env.now then r.bus.(buffer := r.bus.buffer + [p])
    else r.bus.(dropped := r.bus.dropped + [Drop(p.msg, env.now)])
  }

  function Replay(cfg: Config, s: Bus, queue: seq<Parked>, env: Env): Bus
    decreases |queue|
  {
    if queue == [] then s else Replay(cfg, Handle(cfg, s, queue[0], env), queue[1..], env)
  }

  function SendAck(s: Bus, remote: Remote, ack: Ack, ok: bool): Bus {
    if ok then s.(log := s.log + [Acked(remote, ack)]) else s
  }

  predicate Registered(s: Bus, tags: Label, remote: Remote) {
    exists ep :: ep in s.endpoints && ep.tags == tags && ep.remote == remote
  }

  datatype Connected = Connected(bus: Bus, joined: bool)

  function Admit(cfg: Config, s: Bus, reply: Option<Remote>, payload: Option<Connect>, env: Env): Connected {
    if reply.None? then Connected(s, false)
    else if payload.None? || !payload.value.version.Compatible(cfg.version) then
      Connected(SendAck(s, reply.value, ErrVersion, env.ackOk), false)
    else if payload.value.token != cfg.token then
      Connected(SendAck(s, reply.value, ErrToken, env.ackOk), false)
    else
      var acked := SendAck(s, reply.value, AckOk(s.nextId), env.ackOk).(nextId := s.nextId + 1);
      if !env.ackOk || Registered(s, payload.value.tags, reply.value) then Connected(acked, false)
      else
        Connected(acked.(endpoints := acked.endpoints + [Endpoint(s.nextId, payload.value.tags, reply.value)]), true)
  }

  function DetectReachable(s: Bus, env: Env): Bus {
    if env.now > s.lastDetect + DETECT_PERIOD then
      s.(endpoints := Filter(s.endpoints, (ep: Endpoint) => !env.dead(ep.id)), lastDetect := env.now)
    else s
  }

  function DropsOf(parked: seq<Parked>, now: nat): seq<Drop> {
    seq(|parked|, i requires 0 <= i < |parked| => Drop(parked[i].msg, now))
  }

  function Maintain(s: Bus, env: Env): Bus {
    s.(buffer := Filter(s.buffer, (p: Parked) => p.expire > env.now),
       dropped := s.dropped + DropsOf(Filter(s.buffer, (p: Parked) => p.expire <= env.now), env.now))
  }

  function Arrive(s: Bus, i: Input, now: nat): (m: Message)
    requires i.Ordinary?
  {
    Message(|s.arrivals|, now, i.op, i.mode, i.ttl)
  }

  function Accept(cfg: Config, s: Bus, i: Input, env: Env): Bus
    requires i.Ordinary?
  {
    var m := Arrive(s, i, env.now);
    Handle(cfg, s.(arrivals := s.arrivals + [m]), Parked(env.now + i.ttl, m), env)
  }

  function AdmitAndReplay(cfg: Config, s: Bus, reply: Option<Remote>, payload: Option<Connect>, env: Env): Bus {
    var c := Admit(cfg, s, reply, payload, env);
    if c.joined then Replay(cfg, c.bus.(buffer := []), c.bus.buffer, env) else c.bus
  }

  /** The part of an iteration before housekeeping. */
  function Dispatch(cfg: Config, s: Bus, i: Input, env: Env): Bus {
    match i
    case Ordinary(_, _, _) => Accept(cfg, s, i, env)
    case ConnectRequest(reply, payload) => AdmitAndReplay(cfg, s, reply, payload, env)
    case FetchProcessHandle => s
    case BadVersion(reply) => if reply.None? then s else SendAck(s, reply.value, ErrVersion, env.ackOk)
    case RecvFailed => s
  }

  /** `continue` skips the housekeeping. */
  predicate Skips(i: Input) { i.BadVersion? || i.RecvFailed? }

  function Step(cfg: Config, s: Bus, i: Input, env: Env): Bus {
    var d := Dispatch(cfg, s, i, env);
    if Skips(i) then d else Maintain(DetectReachable(d, env), env)
  }

  function Init(start: nat): Bus { Bus([], [], start, true, 0, [], [], []) }

  datatype Turn = Turn(input: Input, env: Env)

  function Run(cfg: Config, start: nat, turns: seq<Turn>): Bus {
    if turns == [] then Init(start)
    else
      var last := turns[|turns| - 1];
      Step(cfg, Run(cfg, start, turns[..|turns| - 1]), last.input, last.env)
  }
}
