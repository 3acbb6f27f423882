/** What a client finds on the reply channel it connected with. */
module BusChannels {
  import opened Prelude
  import opened Labels
  import opened Versions
  import opened BusModel
  import opened BusProofs

  predicate OnChannel(e: Event, c: Remote) {
    match e
    case Acked(remote, _) => remote == c
    case Delivered(_, to) => to.ToEndpoint? && to.ep.remote == c
  }

  function Channel(log: seq<Event>, c: Remote): seq<Event> { Filter(log, (e: Event) => OnChannel(e, c)) }

  predicate Presents(i: Input, c: Remote) {
    (i.ConnectRequest? || i.BadVersion?) && i.reply == Some(c)
  }

  function Presentations(turns: seq<Turn>, c: Remote): nat {
    if turns == [] then 0
    else Presentations(turns[..|turns| - 1], c) + if Presents(turns[|turns| - 1].input, c) then 1 else 0
  }

  /** What the controller owes the client behind a channel, and whether its ack went out. */
  datatype Verdict = Unseen | Refused(ack: Ack, sent: bool) | Admitted(tags: Label, sent: bool)

  function Judge(cfg: Config, i: Input, sent: bool): Verdict
    requires i.ConnectRequest? || i.BadVersion?
  {
    if i.BadVersion? || i.payload.None? || !i.payload.value.version.Compatible(cfg.version) then Refused(ErrVersion, sent)
    else if i.payload.value.token != cfg.token then Refused(ErrToken, sent)
    else Admitted(i.payload.value.tags, sent)
  }

  function VerdictOf(cfg: Config, turns: seq<Turn>, c: Remote): Verdict {
    if turns == [] then Unseen
    else
      var last := turns[|turns| - 1];
      if Presents(last.input, c) then Judge(cfg, last.input, last.env.ackOk) else VerdictOf(cfg, turns[..|turns| - 1], c)
  }

  /** A channel of an admitted client: one positive ack, then only messages for that registration that its label
      validates. */
  ghost predicate AckThenMatching(ch: seq<Event>, tags: Label) {
    && |ch| > 0
    && ch[0].Acked? && ch[0].ack.AckOk?
    && forall k | 1 <= k < |ch| ::
         ch[k].Delivered? && ch[k].to.ToEndpoint? && ch[k].to.ep.id == ch[0].ack.id && Validate(ch[k].msg.op, tags)
  }

  ghost predicate ChannelOk(s: Bus, c: Remote, v: Verdict) {
    var ch := Channel(s.log, c);
    match v
    case Unseen => ch == [] && forall ep | ep in s.endpoints :: ep.remote != c
    case Refused(a, sent) => ch == (if sent then [Acked(c, a)] else []) && forall ep | ep in s.endpoints :: ep.remote != c
    case Admitted(tags, sent) =>
      if sent then
        && AckThenMatching(ch, tags)
        && forall ep | ep in s.endpoints && ep.remote == c :: ep.id == ch[0].ack.id && ep.tags == tags
      else ch == [] && forall ep | ep in s.endpoints :: ep.remote != c
  }

  lemma {:induction false} SweepReachesRegistered(eps: seq<Endpoint>, m: Message, ok: (nat, nat) -> bool)
    ensures forall e | e in SweepEndpoints(eps, m, ok).reached :: e in eps && Validate(m.op, e.tags)
    ensures forall e | e in SweepEndpoints(eps, m, ok).kept :: e in eps
  {
    if eps != [] {
      SweepReachesRegistered(eps[..|eps| - 1], m, ok);
    }
  }

  lemma SentMatches(cfg: Config, s: Bus, m: Message, env: Env, e: Event)
    requires e in Deliveries(cfg, s, m, env)
    ensures e.Delivered? && e.msg == m
    ensures e.to.ToEndpoint? ==> e.to.ep in s.endpoints && Validate(m.op, e.to.ep.tags)
  {
    SweepReachesRegistered(s.endpoints, m, env.sendOk);
  }

  /** What one routing attempt adds to a channel: messages for endpoints registered with that channel. */
  lemma HandleOnChannel(cfg: Config, s: Bus, p: Parked, env: Env, c: Remote) returns (more: seq<Event>)
    ensures var h := Handle(cfg, s, p, env);
      && Channel(h.log, c) == Channel(s.log, c) + more
      && (forall e | e in h.endpoints :: e in s.endpoints)
    ensures forall e | e in more ::
      e.Delivered? && e.to.ToEndpoint? && e.to.ep in s.endpoints && e.to.ep.remote == c && Validate(e.msg.op, e.to.ep.tags)
    ensures more != [] ==> exists ep :: ep in s.endpoints && ep.remote == c
  {
    var sent, on := Deliveries(cfg, s, p.msg, env), (e: Event) => OnChannel(e, c);
    more := Channel(sent, c);
    FilterMembers(sent, on);
    forall e | e in more
      ensures e.Delivered? && e.to.ToEndpoint? && e.to.ep in s.endpoints && e.to.ep.remote == c && Validate(e.msg.op, e.to.ep.tags)
    {
      SentMatches(cfg, s, p.msg, env, e);
    }
    if more != [] {
      assert more[0] in more && more[0].to.ep in s.endpoints;
    }
    assert Channel(s.log + sent, c) == Channel(s.log, c) + more by {
      FilterConcat(s.log, sent, on);
    }
    assert Handle(cfg, s, p, env).log == s.log + sent;
    SweepReachesRegistered(s.endpoints, p.msg, env.sendOk);
  }

  lemma HandleKeepsChannel(cfg: Config, s: Bus, p: Parked, env: Env, c: Remote, v: Verdict)
    requires ChannelOk(s, c, v)
    ensures ChannelOk(Handle(cfg, s, p, env), c, v)
  {
    var more := HandleOnChannel(cfg, s, p, env, c);
    if more != [] {
      var before, after := Channel(s.log, c), Channel(Handle(cfg, s, p, env).log, c);
      forall k | |before| <= k < |after| ensures after[k] in more {
        assert after[k] == more[k - |before|];
      }
    }
  }

  lemma {:induction false} ReplayKeepsChannel(cfg: Config, s: Bus, queue: seq<Parked>, env: Env, c: Remote, v: Verdict)
    requires ChannelOk(s, c, v)
    ensures ChannelOk(Replay(cfg, s, queue, env), c, v)
    decreases |queue|
  {
    if queue != [] {
      HandleKeepsChannel(cfg, s, queue[0], env, c, v);
      ReplayKeepsChannel(cfg, Handle(cfg, s, queue[0], env), queue[1..], env, c, v);
    }
  }

  lemma HousekeepingKeepsChannel(s: Bus, env: Env, c: Remote, v: Verdict)
    requires ChannelOk(s, c, v)
    ensures ChannelOk(Maintain(DetectReachable(s, env), env), c, v)
  {
    FilterMembers(s.endpoints, (ep: Endpoint) => !env.dead(ep.id));
  }

  lemma AckOnChannel(log: seq<Event>, r: Remote, a: Ack, c: Remote)
    ensures Channel(log + [Acked(r, a)], c) == if r == c then Channel(log, c) + [Acked(r, a)] else Channel(log, c)
  {
  }

  lemma OtherAckKeepsChannel(s: Bus, r: Remote, a: Ack, ok: bool, c: Remote, v: Verdict)
    requires ChannelOk(s, c, v) && r != c
    ensures ChannelOk(SendAck(s, r, a, ok), c, v)
  {
  }

  /** Registering an endpoint on another channel. */
  lemma OtherJoinKeepsChannel(s: Bus, u: Bus, c: Remote, v: Verdict)
    requires ChannelOk(s, c, v) && u.log == s.log
    requires forall e | e in u.endpoints :: e in s.endpoints || e.remote != c
    ensures ChannelOk(u, c, v)
  {
  }

  /** A connect request on another channel. */
  lemma OtherAdmitKeepsChannel(cfg: Config, s: Bus, r: Remote, payload: Option<Connect>, env: Env, c: Remote, v: Verdict)
    requires ChannelOk(s, c, v) && r != c
    ensures ChannelOk(Admit(cfg, s, Some(r), payload, env).bus, c, v)
  {
    if payload.None? || !payload.value.version.Compatible(cfg.version) {
      OtherAckKeepsChannel(s, r, ErrVersion, env.ackOk, c, v);
    } else if payload.value.token != cfg.token {
      OtherAckKeepsChannel(s, r, ErrToken, env.ackOk, c, v);
    } else {
      var acked, u := SendAck(s, r, AckOk(s.nextId), env.ackOk), Admit(cfg, s, Some(r), payload, env).bus;
      OtherAckKeepsChannel(s, r, AckOk(s.nextId), env.ackOk, c, v);
      OtherJoinKeepsChannel(acked, u, c, v);
    }
  }

  lemma DispatchKeepsChannel(cfg: Config, s: Bus, i: Input, env: Env, c: Remote, v: Verdict)
    requires ChannelOk(s, c, v) && !Presents(i, c)
    ensures ChannelOk(Dispatch(cfg, s, i, env), c, v)
  {
    match i
    case Ordinary(_, _, _) =>
      var m := Arrive(s, i, env.now);
      HandleKeepsChannel(cfg, s.(arrivals := s.arrivals + [m]), Parked(env.now + i.ttl, m), env, c, v);
    case ConnectRequest(reply, payload) =>
      if reply.Some? {
        OtherAdmitKeepsChannel(cfg, s, reply.value, payload, env, c, v);
        var a := Admit(cfg, s, reply, payload, env);
        if a.joined {
          ReplayKeepsChannel(cfg, a.bus.(buffer := []), a.bus.buffer, env, c, v);
        }
      }
    case FetchProcessHandle =>
    case BadVersion(reply) =>
      if reply.Some? {
        AckOnChannel(s.log, reply.value, ErrVersion, c);
      }
    case RecvFailed =>
  }

  /** A refusal is all that an unseen channel then holds, if it could be delivered. */
  lemma FirstRefusal(s: Bus, c: Remote, a: Ack, ok: bool)
    requires ChannelOk(s, c, Unseen)
    ensures ChannelOk(SendAck(s, c, a, ok), c, Refused(a, ok))
  {
    AckOnChannel(s.log, c, a, c);
    assert Channel(SendAck(s, c, a, ok).log, c) == if ok then [Acked(c, a)] else [];
  }

  /** An admission that could not be acknowledged leaves the channel empty and unregistered. */
  lemma FirstLostAck(s: Bus, c: Remote, tags: Label)
    requires ChannelOk(s, c, Unseen)
    ensures ChannelOk(s.(nextId := s.nextId + 1), c, Admitted(tags, false))
  {
    assert Channel(s.(nextId := s.nextId + 1).log, c) == [];
  }

  lemma FirstRegistration(s: Bus, u: Bus, c: Remote, tags: Label)
    requires ChannelOk(s, c, Unseen)
    requires u.log == s.log + [Acked(c, AckOk(s.nextId))] && u.endpoints == s.endpoints + [Endpoint(s.nextId, tags, c)]
    ensures ChannelOk(u, c, Admitted(tags, true))
  {
    AckOnChannel(s.log, c, AckOk(s.nextId), c);
    var ch := Channel(u.log, c);
    assert ch == [Acked(c, AckOk(s.nextId))];
    assert AckThenMatching(ch, tags);
  }

  lemma FirstAdmit(cfg: Config, s: Bus, i: Input, env: Env, c: Remote)
    requires ChannelOk(s, c, Unseen) && i.ConnectRequest? && i.reply == Some(c)
    ensures ChannelOk(Admit(cfg, s, i.reply, i.payload, env).bus, c, Judge(cfg, i, env.ackOk))
  {
    var u := Admit(cfg, s, i.reply, i.payload, env).bus;
    if i.payload.None? || !i.payload.value.version.Compatible(cfg.version) {
      FirstRefusal(s, c, ErrVersion, env.ackOk);
    } else if i.payload.value.token != cfg.token {
      FirstRefusal(s, c, ErrToken, env.ackOk);
    } else if !env.ackOk {
      FirstLostAck(s, c, i.payload.value.tags);
    } else {
      FirstRegistration(s, u, c, i.payload.value.tags);
    }
  }

  lemma FirstPresentation(cfg: Config, s: Bus, i: Input, env: Env, c: Remote)
    requires ChannelOk(s, c, Unseen) && Presents(i, c)
    ensures ChannelOk(Dispatch(cfg, s, i, env), c, Judge(cfg, i, env.ackOk))
  {
    if i.BadVersion? {
      AckOnChannel(s.log, c, ErrVersion, c);
    } else {
      FirstAdmit(cfg, s, i, env, c);
      var a := Admit(cfg, s, i.reply, i.payload, env);
      if a.joined {
        ReplayKeepsChannel(cfg, a.bus.(buffer := []), a.bus.buffer, env, c, Judge(cfg, i, env.ackOk));
      }
    }
  }

  lemma {:induction false} ChannelsOk(cfg: Config, start: nat, turns: seq<Turn>, c: Remote)
    requires Presentations(turns, c) <= 1
    ensures ChannelOk(Run(cfg, start, turns), c, VerdictOf(cfg, turns, c))
    ensures Presentations(turns, c) == 0 ==> VerdictOf(cfg, turns, c).Unseen?
  {
    if turns != [] {
      var front, last := turns[..|turns| - 1], turns[|turns| - 1];
      ChannelsOk(cfg, start, front, c);
      var s := Run(cfg, start, front);
      if Presents(last.input, c) {
        FirstPresentation(cfg, s, last.input, last.env, c);
      } else {
        DispatchKeepsChannel(cfg, s, last.input, last.env, c, VerdictOf(cfg, front, c));
      }
      HousekeepingKeepsChannel(Dispatch(cfg, s, last.input, last.env), last.env, c, VerdictOf(cfg, turns, c));
    }
  }

  /** The whole life of a reply channel that is presented once, at `turns[k]`. It stays empty if the ack could not be sent.
      Otherwise the channel of a refused client holds the one matching refusal, for ever. An admitted client speaks a
      compatible version and knows the token; its channel holds the positive ack first and then only messages its own label
      validates, in arrival order, so the label check it makes on receipt never fails; and it accepts the frames of every
      sender the controller accepts. */
  lemma ChannelHistory(cfg: Config, start: nat, turns: seq<Turn>, c: Remote, k: nat, sender: Version)
    requires k < |turns| && Presents(turns[k].input, c) && Presentations(turns, c) == 1
    ensures var ch := Channel(Run(cfg, start, turns).log, c); var i := turns[k].input;
      var v := Judge(cfg, i, turns[k].env.ackOk);
      && (ch == [] <==> !turns[k].env.ackOk)
      && (v.Refused? && ch != [] ==> ch == [Acked(c, v.ack)])
      && (v.Admitted? ==>
            && i.ConnectRequest? && i.payload.Some? && v.tags == i.payload.value.tags
            && i.payload.value.token == cfg.token
            && (cfg.version.Compatible(sender) ==> i.payload.value.version.Compatible(sender))
            && (ch != [] ==> AckThenMatching(ch, v.tags))
            && (forall m, n | 1 <= m < n < |ch| :: ch[m].msg.id < ch[n].msg.id))
  {
    ChannelsOk(cfg, start, turns, c);
    VerdictAt(cfg, turns, c, k);
    Reachable(cfg, start, turns);
    var log := Run(cfg, start, turns).log;
    FilterInOrder(log, c);
  }

  lemma {:induction false} VerdictAt(cfg: Config, turns: seq<Turn>, c: Remote, k: nat)
    requires k < |turns| && Presents(turns[k].input, c) && Presentations(turns, c) == 1
    ensures VerdictOf(cfg, turns, c) == Judge(cfg, turns[k].input, turns[k].env.ackOk)
  {
    var front := turns[..|turns| - 1];
    if k < |front| {
      assert front[k] == turns[k];
      PresentedAt(front, c, k);
      VerdictAt(cfg, front, c, k);
    }
  }

  lemma {:induction false} PresentedAt(turns: seq<Turn>, c: Remote, k: nat)
    requires k < |turns| && Presents(turns[k].input, c)
    ensures Presentations(turns, c) > 0
  {
    if k < |turns| - 1 {
      assert turns[..|turns| - 1][k] == turns[k];
      PresentedAt(turns[..|turns| - 1], c, k);
    }
  }

  lemma {:induction false} FilterInOrder(log: seq<Event>, c: Remote)
    requires InOrder(log)
    ensures InOrder(Channel(log, c))
  {
    if log != [] {
      var front, last := log[..|log| - 1], log[|log| - 1];
      FilterInOrder(front, c);
      FilterMembers(front, (e: Event) => OnChannel(e, c));
      var ch := Channel(front, c);
      forall i | 0 <= i < |ch| && ch[i].Delivered? && last.Delivered?
        ensures SameTarget(ch[i].to, last.to) ==> ch[i].msg.id < last.msg.id
        ensures ch[i].msg.id == last.msg.id ==> ch[i].msg.mode.Multicast?
      {
        assert ch[i] in ch;
        var j :| 0 <= j < |front| && front[j] == ch[i];
        assert log[j] == ch[i];
      }
    }
  }
}
