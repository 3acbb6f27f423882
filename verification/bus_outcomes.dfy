/** What exactly one iteration does for an arriving message, for the registered endpoints, and for a newcomer. */
module BusOutcomes {
  import opened Prelude
  import opened Labels
  import opened BusModel
  import opened BusProofs
  import opened BusTheorems
  import BusChannels

  // ---------- an arriving message ----------

  /** The `k`-th endpoint is a recipient: it matches and its send succeeds, and for a unicast it is the first such one. */
  ghost predicate Recipient(eps: seq<Endpoint>, m: Message, ok: (nat, nat) -> bool, k: nat) {
    && k < |eps|
    && Takes(m, ok, eps[k])
    && (m.mode.Unicast? ==> forall j | 0 <= j < k :: !Takes(m, ok, eps[j]))
  }

  ghost predicate NoTaker(eps: seq<Endpoint>, m: Message, ok: (nat, nat) -> bool) {
    forall k | 0 <= k < |eps| :: !Takes(m, ok, eps[k])
  }

  ghost predicate ReachedExactly(eps: seq<Endpoint>, m: Message, ok: (nat, nat) -> bool, reached: seq<Endpoint>) {
    && (forall k: nat | k < |eps| :: eps[k] in reached <==> Recipient(eps, m, ok, k))
    && (forall e | e in reached :: e in eps)
    && (reached == [] <==> NoTaker(eps, m, ok))
  }

  lemma MulticastReaches(eps: seq<Endpoint>, m: Message, ok: (nat, nat) -> bool)
    requires m.mode.Multicast?
    ensures ReachedExactly(eps, m, ok, SweepEndpoints(eps, m, ok).reached)
  {
    var takes := (e: Endpoint) => Validate(m.op, e.tags) && ok(m.id, e.id);
    MulticastSweep(eps, m, ok);
    FilterMembers(eps, takes);
    var reached := SweepEndpoints(eps, m, ok).reached;
    if reached != [] {
      assert reached[0] in reached;
      var k :| 0 <= k < |eps| && eps[k] == reached[0];
      assert Takes(m, ok, eps[k]);
    }
  }

  /** The first endpoint that takes the message, or the number of endpoints. */
  ghost function FirstTaker(eps: seq<Endpoint>, m: Message, ok: (nat, nat) -> bool): (first: nat)
    ensures first <= |eps|
    ensures forall k | 0 <= k < first :: !Takes(m, ok, eps[k])
    ensures first < |eps| ==> Takes(m, ok, eps[first])
  {
    if eps == [] then 0
    else
      var first := FirstTaker(eps[..|eps| - 1], m, ok);
      if first == |eps| - 1 && !Takes(m, ok, eps[first]) then |eps| else first
  }

  lemma FirstIsOnlyRecipient(eps: seq<Endpoint>, m: Message, ok: (nat, nat) -> bool, first: nat)
    requires m.mode.Unicast? && Ascending(eps, EpId) && first < |eps| && Takes(m, ok, eps[first])
    requires forall k | 0 <= k < first :: !Takes(m, ok, eps[k])
    ensures ReachedExactly(eps, m, ok, [eps[first]])
  {
    forall k: nat | k < |eps| ensures eps[k] in [eps[first]] <==> Recipient(eps, m, ok, k) {
      if k != first {
        assert EpId(eps[k]) != EpId(eps[first]);
      }
    }
  }

  lemma UnicastReaches(eps: seq<Endpoint>, m: Message, ok: (nat, nat) -> bool)
    requires m.mode.Unicast? && Ascending(eps, EpId)
    ensures ReachedExactly(eps, m, ok, SweepEndpoints(eps, m, ok).reached)
  {
    var first := FirstTaker(eps, m, ok);
    UnicastSweep(eps, m, ok, first);
    if first < |eps| {
      FirstIsOnlyRecipient(eps, m, ok, first);
    }
  }

  lemma SweepReachesExactly(eps: seq<Endpoint>, m: Message, ok: (nat, nat) -> bool)
    requires Ascending(eps, EpId)
    ensures ReachedExactly(eps, m, ok, SweepEndpoints(eps, m, ok).reached)
  {
    if m.mode.Multicast? {
      MulticastReaches(eps, m, ok);
    } else {
      UnicastReaches(eps, m, ok);
    }
  }

  ghost predicate TakenLocally(cfg: Config, s: Bus, m: Message, env: Env) {
    && s.localOpen && Validate(m.op, cfg.tags) && env.localOk(m.id)
    && (m.mode.Multicast? || NoTaker(s.endpoints, m, env.sendOk))
  }

  lemma EventInDeliveries(cfg: Config, s: Bus, m: Message, env: Env)
    requires EndpointsOk(s)
    ensures var sent := Deliveries(cfg, s, m, env);
      && (forall k: nat | k < |s.endpoints| ::
            Delivered(m, ToEndpoint(s.endpoints[k])) in sent <==> Recipient(s.endpoints, m, env.sendOk, k))
      && (Delivered(m, ToLocal) in sent <==> TakenLocally(cfg, s, m, env))
      && (sent == [] <==> NoTaker(s.endpoints, m, env.sendOk) && !TakenLocally(cfg, s, m, env))
  {
    SweepReachesExactly(s.endpoints, m, env.sendOk);
    var reached := SweepEndpoints(s.endpoints, m, env.sendOk).reached;
    forall e | e in reached ensures Delivered(m, ToEndpoint(e)) in DeliveredTo(m, reached) {
      var j :| 0 <= j < |reached| && reached[j] == e;
      assert DeliveredTo(m, reached)[j] == Delivered(m, ToEndpoint(e));
    }
  }

  ghost predicate NobodyTakes(cfg: Config, s: Bus, m: Message, env: Env) {
    NoTaker(s.endpoints, m, env.sendOk) && !TakenLocally(cfg, s, m, env)
  }

  lemma AcceptDelivers(cfg: Config, s: Bus, i: Input, env: Env, m: Message)
    requires Inv(cfg, s, []) && i.Ordinary? && m == Message(|s.arrivals|, env.now, i.op, i.mode, i.ttl)
    ensures var a := Accept(cfg, s, i, env);
      && (forall k: nat | k < |s.endpoints| ::
            Delivered(m, ToEndpoint(s.endpoints[k])) in a.log <==> Recipient(s.endpoints, m, env.sendOk, k))
      && (Delivered(m, ToLocal) in a.log <==> TakenLocally(cfg, s, m, env))
  {
    var t := s.(arrivals := s.arrivals + [m]);
    assert Accept(cfg, s, i, env).log == s.log + Deliveries(cfg, t, m, env);
    EventInDeliveries(cfg, t, m, env);
    NeverSeenBefore(cfg, s, m);
  }

  lemma AcceptParks(cfg: Config, s: Bus, i: Input, env: Env, m: Message)
    requires Inv(cfg, s, []) && i.Ordinary? && m == Message(|s.arrivals|, env.now, i.op, i.mode, i.ttl)
    ensures var a := Accept(cfg, s, i, env);
      && a.buffer == s.buffer + (if NobodyTakes(cfg, s, m, env) && i.ttl > 0 then [Parked(env.now + i.ttl, m)] else [])
      && a.dropped == s.dropped + (if NobodyTakes(cfg, s, m, env) && i.ttl == 0 then [Drop(m, env.now)] else [])
  {
    SweepReachesExactly(s.endpoints, m, env.sendOk);
  }

  /** The fate of a message in the iteration in which it arrives, exactly: which endpoints get it, whether the controller's
      own queue does, and, if nobody does, whether it is parked or dropped. */
  lemma ArrivalOutcome(cfg: Config, start: nat, turns: seq<Turn>, i: Input, env: Env)
    requires i.Ordinary?
    ensures var s, t := Run(cfg, start, turns), Step(cfg, Run(cfg, start, turns), i, env);
      var m := Message(|s.arrivals|, env.now, i.op, i.mode, i.ttl);
      var nobody := NoTaker(s.endpoints, m, env.sendOk) && !TakenLocally(cfg, s, m, env);
      && (forall k: nat | k < |s.endpoints| ::
            Delivered(m, ToEndpoint(s.endpoints[k])) in t.log <==> Recipient(s.endpoints, m, env.sendOk, k))
      && (Delivered(m, ToLocal) in t.log <==> TakenLocally(cfg, s, m, env))
      && (Parked(env.now + i.ttl, m) in t.buffer <==> nobody && i.ttl > 0)
      && (Drop(m, env.now) in t.dropped <==> nobody && i.ttl == 0)
  {
    var s := Run(cfg, start, turns);
    var m := Message(|s.arrivals|, env.now, i.op, i.mode, i.ttl);
    Reachable(cfg, start, turns);
    AcceptDelivers(cfg, s, i, env, m);
    AcceptParks(cfg, s, i, env, m);
    NeverSeenBefore(cfg, s, m);
    HousekeepingSpares(Accept(cfg, s, i, env), Parked(env.now + i.ttl, m), env);
    assert Step(cfg, s, i, env) == Maintain(DetectReachable(Accept(cfg, s, i, env), env), env);
  }

  lemma NeverSeenBefore(cfg: Config, s: Bus, m: Message)
    requires Inv(cfg, s, []) && m.id == |s.arrivals|
    ensures forall e | e in s.log && e.Delivered? :: e.msg != m
    ensures forall p | p in s.buffer :: p.msg != m
    ensures forall d | d in s.dropped :: d.msg != m
  {
    assert s.buffer + [] == s.buffer;
    forall e | e in s.log && e.Delivered? ensures e.msg != m {
      assert EventOk(cfg, s, e);
    }
  }

  /** Housekeeping leaves an unexpired entry parked and does not drop it. */
  lemma HousekeepingSpares(s: Bus, p: Parked, env: Env)
    requires p.expire > env.now || p !in s.buffer
    requires forall q | q in s.buffer && q.msg == p.msg :: q == p
    ensures var t := Maintain(DetectReachable(s, env), env);
      && (p in t.buffer <==> p in s.buffer)
      && (Drop(p.msg, env.now) in t.dropped <==> Drop(p.msg, env.now) in s.dropped)
      && t.log == s.log
  {
    FilterMembers(s.buffer, (q: Parked) => q.expire > env.now);
    FilterMembers(s.buffer, (q: Parked) => q.expire <= env.now);
    var gone := Filter(s.buffer, (q: Parked) => q.expire <= env.now);
    forall d | d in DropsOf(gone, env.now) ensures d.msg != p.msg {
      var k :| 0 <= k < |gone| && DropsOf(gone, env.now)[k] == d;
      assert gone[k] in gone;
    }
  }

  // ---------- who stays registered ----------

  /** The send to the `k`-th endpoint was tried and failed: it matches, and no earlier endpoint has taken a unicast. */
  ghost predicate SendFails(eps: seq<Endpoint>, m: Message, ok: (nat, nat) -> bool, k: nat) {
    && k < |eps|
    && Validate(m.op, eps[k].tags) && !ok(m.id, eps[k].id)
    && (m.mode.Unicast? ==> forall j | 0 <= j < k :: !Takes(m, ok, eps[j]))
  }

  ghost predicate KeptExactly(eps: seq<Endpoint>, m: Message, ok: (nat, nat) -> bool, kept: seq<Endpoint>) {
    forall k: nat | k < |eps| :: eps[k] !in kept <==> SendFails(eps, m, ok, k)
  }

  lemma MulticastKeeps(eps: seq<Endpoint>, m: Message, ok: (nat, nat) -> bool)
    requires m.mode.Multicast?
    ensures KeptExactly(eps, m, ok, SweepEndpoints(eps, m, ok).kept)
  {
    MulticastSweep(eps, m, ok);
    FilterMembers(eps, (e: Endpoint) => Validate(m.op, e.tags) ==> ok(m.id, e.id));
  }

  lemma UnicastKeeps(eps: seq<Endpoint>, m: Message, ok: (nat, nat) -> bool)
    requires m.mode.Unicast? && Ascending(eps, EpId)
    ensures KeptExactly(eps, m, ok, SweepEndpoints(eps, m, ok).kept)
  {
    var first := FirstTaker(eps, m, ok);
    UnicastSweep(eps, m, ok, first);
    FilterMembers(eps[..first], (e: Endpoint) => !Validate(m.op, e.tags));
    var kept := Strangers(eps[..first], m) + eps[first..];
    forall k: nat | k < |eps| ensures eps[k] !in kept <==> SendFails(eps, m, ok, k) {
      if k < first {
        assert eps[..first][k] == eps[k] && !Takes(m, ok, eps[k]);
        NotAmongLater(eps, k, first);
      } else {
        assert eps[first..][k - first] == eps[k];
      }
    }
  }

  lemma NotAmongLater(eps: seq<Endpoint>, k: nat, first: nat)
    requires Ascending(eps, EpId) && k < first <= |eps|
    ensures eps[k] !in eps[first..]
  {
    forall j | first <= j < |eps| ensures eps[j] != eps[k] {
      assert EpId(eps[k]) < EpId(eps[j]);
    }
  }

  /** The same, for the endpoint rather than its place. */
  ghost predicate Loses(eps: seq<Endpoint>, m: Message, env: Env, e: Endpoint) {
    exists k: nat :: k < |eps| && eps[k] == e && SendFails(eps, m, env.sendOk, k)
  }

  lemma HandleLosesExactly(cfg: Config, s: Bus, p: Parked, env: Env, e: Endpoint)
    requires EndpointsOk(s)
    ensures var h := Handle(cfg, s, p, env);
      && EndpointsOk(h)
      && (e in h.endpoints <==> e in s.endpoints && !Loses(s.endpoints, p.msg, env, e))
  {
    SweepKeeps(s.endpoints, p.msg, env.sendOk);
    if p.msg.mode.Multicast? {
      MulticastKeeps(s.endpoints, p.msg, env.sendOk);
    } else {
      UnicastKeeps(s.endpoints, p.msg, env.sendOk);
    }
  }

  lemma {:induction false} ReplaySnoc(cfg: Config, s: Bus, queue: seq<Parked>, p: Parked, env: Env)
    ensures Replay(cfg, s, queue + [p], env) == Handle(cfg, Replay(cfg, s, queue, env), p, env)
    decreases |queue|
  {
    if queue == [] {
      assert queue + [p] == [p] && [p][1..] == [];
    } else {
      assert (queue + [p])[1..] == queue[1..] + [p];
      ReplaySnoc(cfg, Handle(cfg, s, queue[0], env), queue[1..], p, env);
    }
  }

  /** At some entry of the queue, with the endpoints that are left by then, the send to `e` fails. */
  ghost predicate LosesInReplay(cfg: Config, s: Bus, queue: seq<Parked>, env: Env, e: Endpoint) {
    exists n: nat :: n < |queue| && Loses(Replay(cfg, s, queue[..n], env).endpoints, queue[n].msg, env, e)
  }

  lemma LosesInReplaySnoc(cfg: Config, s: Bus, queue: seq<Parked>, p: Parked, env: Env, e: Endpoint)
    ensures LosesInReplay(cfg, s, queue + [p], env, e) <==>
            LosesInReplay(cfg, s, queue, env, e) || Loses(Replay(cfg, s, queue, env).endpoints, p.msg, env, e)
  {
    var all := queue + [p];
    assert forall n: nat | n <= |queue| :: all[..n] == queue[..n];
    assert queue[..|queue|] == queue && all[|queue|] == p;
  }

  lemma {:induction false} ReplayLosesExactly(cfg: Config, s: Bus, queue: seq<Parked>, env: Env, e: Endpoint)
    requires EndpointsOk(s)
    ensures var r := Replay(cfg, s, queue, env);
      && EndpointsOk(r)
      && (e in r.endpoints <==> e in s.endpoints && !LosesInReplay(cfg, s, queue, env, e))
  {
    if queue != [] {
      var front, last := queue[..|queue| - 1], queue[|queue| - 1];
      assert queue == front + [last];
      ReplayLosesExactly(cfg, s, front, env, e);
      ReplaySnoc(cfg, s, front, last, env);
      LosesInReplaySnoc(cfg, s, front, last, env, e);
      HandleLosesExactly(cfg, Replay(cfg, s, front, env), last, env, e);
    }
  }

  lemma {:induction false} ReplayKeepsRest(cfg: Config, s: Bus, queue: seq<Parked>, env: Env)
    ensures var r := Replay(cfg, s, queue, env);
      && r.lastDetect == s.lastDetect && r.nextId == s.nextId && s.log <= r.log
      && forall e | e in r.endpoints :: e in s.endpoints
    decreases |queue|
  {
    if queue != [] {
      BusChannels.SweepReachesRegistered(s.endpoints, queue[0].msg, env.sendOk);
      ReplayKeepsRest(cfg, Handle(cfg, s, queue[0], env), queue[1..], env);
    }
  }

  /** When the remotes were last checked, from the turns alone: more than 30 seconds apart, whenever an iteration gets as
      far as its housekeeping. */
  function LastCheck(start: nat, turns: seq<Turn>): nat {
    if turns == [] then start
    else
      var before, last := LastCheck(start, turns[..|turns| - 1]), turns[|turns| - 1];
      if last.input.BadVersion? || last.input.RecvFailed? || last.env.now <= before + 30_000 then before else last.env.now
  }

  lemma {:induction false} LastCheckIs(cfg: Config, start: nat, turns: seq<Turn>)
    ensures Run(cfg, start, turns).lastDetect == LastCheck(start, turns)
  {
    if turns != [] {
      var front, last := turns[..|turns| - 1], turns[|turns| - 1];
      LastCheckIs(cfg, start, front);
      DispatchKeepsLastDetect(cfg, Run(cfg, start, front), last.input, last.env);
    }
  }

  lemma DispatchKeepsLastDetect(cfg: Config, s: Bus, i: Input, env: Env)
    ensures Dispatch(cfg, s, i, env).lastDetect == s.lastDetect
  {
    if i.ConnectRequest? {
      var c := Admit(cfg, s, i.reply, i.payload, env);
      ReplayKeepsRest(cfg, c.bus.(buffer := []), c.bus.buffer, env);
    }
  }

  ghost predicate FoundDead(start: nat, turns: seq<Turn>, i: Input, env: Env, e: Endpoint) {
    !i.BadVersion? && !i.RecvFailed? && env.now > LastCheck(start, turns) + 30_000 && env.dead(e.id)
  }

  /** What an endpoint loses its registration for, in an iteration: the arriving message, or one that is replayed. */
  ghost predicate LosesInStep(cfg: Config, s: Bus, i: Input, env: Env, e: Endpoint) {
    match i
    case Ordinary(op, mode, ttl) => Loses(s.endpoints, Message(|s.arrivals|, env.now, op, mode, ttl), env, e)
    case ConnectRequest(Some(reply), Some(payload)) =>
      Admissible(cfg, s, reply, payload, env) && LosesInReplay(cfg, Joined(s, reply, payload), s.buffer, env, e)
    case _ => false
  }

  lemma DispatchLosesExactly(cfg: Config, s: Bus, i: Input, env: Env, e: Endpoint)
    requires EndpointsOk(s) && e in s.endpoints
    ensures e !in Dispatch(cfg, s, i, env).endpoints <==> LosesInStep(cfg, s, i, env, e)
  {
    if i.Ordinary? {
      var m := Arrive(s, i, env.now);
      HandleLosesExactly(cfg, s.(arrivals := s.arrivals + [m]), Parked(env.now + i.ttl, m), env, e);
    } else if i.ConnectRequest? && i.reply.Some? && i.payload.Some? {
      var reply, payload := i.reply.value, i.payload.value;
      AdmissibleJoins(cfg, s, reply, payload, env);
      if Admissible(cfg, s, reply, payload, env) {
        var u := Joined(s, reply, payload);
        AdmissibleIsJoined(cfg, s, reply, payload, env);
        JoinedOk(s, reply, payload);
        ReplayLosesExactly(cfg, u, s.buffer, env, e);
      }
    }
  }

  lemma JoinedOk(s: Bus, reply: Remote, payload: Connect)
    requires EndpointsOk(s)
    ensures var u := Joined(s, reply, payload);
      EndpointsOk(u) && (forall e | e in s.endpoints :: e in u.endpoints) && u.endpoints[|s.endpoints|] in u.endpoints
  {
  }

  lemma StepKeepsAllButDead(cfg: Config, start: nat, turns: seq<Turn>, i: Input, env: Env, e: Endpoint)
    ensures var s := Run(cfg, start, turns);
      e in Step(cfg, s, i, env).endpoints <==>
      e in Dispatch(cfg, s, i, env).endpoints && !FoundDead(start, turns, i, env, e)
  {
    var s := Run(cfg, start, turns);
    LastCheckIs(cfg, start, turns);
    DispatchKeepsLastDetect(cfg, s, i, env);
    FilterMembers(Dispatch(cfg, s, i, env).endpoints, (ep: Endpoint) => !env.dead(ep.id));
  }

  /** Who is unregistered, exactly. In an iteration an endpoint leaves if and only if it is found dead, or a send to it was
      tried and failed: of the arriving message, or of a parked one in a replay, and of a unicast only if no endpoint
      before it has taken the message. */
  lemma UnregisteredIff(cfg: Config, start: nat, turns: seq<Turn>, i: Input, env: Env, e: Endpoint)
    requires e in Run(cfg, start, turns).endpoints
    ensures var s := Run(cfg, start, turns);
      e !in Step(cfg, s, i, env).endpoints <==> FoundDead(start, turns, i, env, e) || LosesInStep(cfg, s, i, env, e)
  {
    Reachable(cfg, start, turns);
    DispatchLosesExactly(cfg, Run(cfg, start, turns), i, env, e);
    StepKeepsAllButDead(cfg, start, turns, i, env, e);
  }

  lemma DispatchAdmits(cfg: Config, s: Bus, reply: Remote, payload: Connect, env: Env)
    requires EndpointsOk(s)
    ensures var e := Endpoint(s.nextId, payload.tags, reply);
      e in AdmitAndReplay(cfg, s, Some(reply), Some(payload), env).endpoints <==>
      Admissible(cfg, s, reply, payload, env) && !LosesInReplay(cfg, Joined(s, reply, payload), s.buffer, env, e)
  {
    var e := Endpoint(s.nextId, payload.tags, reply);
    AdmissibleJoins(cfg, s, reply, payload, env);
    if Admissible(cfg, s, reply, payload, env) {
      AdmissibleIsJoined(cfg, s, reply, payload, env);
      JoinedOk(s, reply, payload);
      ReplayLosesExactly(cfg, Joined(s, reply, payload), s.buffer, env, e);
    } else {
      assert AdmitAndReplay(cfg, s, Some(reply), Some(payload), env).endpoints == s.endpoints;
    }
  }

  /** Who is registered, exactly. A connect request leaves its sender registered if and only if it has a compatible version
      and the token, the ack went out, nobody else is registered with the same label and the same channel, the newcomer is
      not found dead, and no send of a parked message to it fails in the replay. */
  lemma NewcomerIff(cfg: Config, start: nat, turns: seq<Turn>, reply: Remote, payload: Connect, env: Env)
    ensures var s, i := Run(cfg, start, turns), ConnectRequest(Some(reply), Some(payload));
      var e := Endpoint(s.nextId, payload.tags, reply);
      e in Step(cfg, s, i, env).endpoints <==>
      && payload.version.Compatible(cfg.version) && payload.token == cfg.token
      && env.ackOk
      && (forall f | f in s.endpoints :: !(f.tags == payload.tags && f.remote == reply))
      && !FoundDead(start, turns, i, env, e)
      && !LosesInReplay(cfg, Joined(s, reply, payload), s.buffer, env, e)
  {
    var s, i := Run(cfg, start, turns), ConnectRequest(Some(reply), Some(payload));
    assert EndpointsOk(s) by {
      Reachable(cfg, start, turns);
    }
    DispatchAdmits(cfg, s, reply, payload, env);
    StepKeepsAllButDead(cfg, start, turns, i, env, Endpoint(s.nextId, payload.tags, reply));
  }

  // ---------- the controller's own queue ----------

  /** Turn `k` brought a message for the controller's own queue, and the queue refused it. */
  ghost predicate RefusedAt(cfg: Config, start: nat, turns: seq<Turn>, k: nat)
    requires k < |turns|
  {
    var s, i, env := Run(cfg, start, turns[..k]), turns[k].input, turns[k].env;
    i.Ordinary? &&
    var m := Message(|s.arrivals|, env.now, i.op, i.mode, i.ttl);
    && Validate(m.op, cfg.tags)
    && (m.mode.Multicast? || NoTaker(s.endpoints, m, env.sendOk))
    && !env.localOk(m.id)
  }

  lemma {:induction false} ReplaySparesLocal(cfg: Config, s: Bus, queue: seq<Parked>, env: Env)
    requires s.localOpen ==> forall p | p in queue :: !Validate(p.msg.op, cfg.tags)
    ensures Replay(cfg, s, queue, env).localOpen == s.localOpen
    decreases |queue|
  {
    if queue != [] {
      ReplaySparesLocal(cfg, Handle(cfg, s, queue[0], env), queue[1..], env);
    }
  }

  lemma StepClosesIff(cfg: Config, s: Bus, i: Input, env: Env)
    requires Inv(cfg, s, [])
    ensures Step(cfg, s, i, env).localOpen <==>
      s.localOpen &&
      !(i.Ordinary? &&
        var m := Message(|s.arrivals|, env.now, i.op, i.mode, i.ttl);
        && Validate(m.op, cfg.tags)
        && (m.mode.Multicast? || NoTaker(s.endpoints, m, env.sendOk))
        && !env.localOk(m.id))
  {
    if i.Ordinary? {
      SweepReachesExactly(s.endpoints, Arrive(s, i, env.now), env.sendOk);
    } else if i.ConnectRequest? {
      var c := Admit(cfg, s, i.reply, i.payload, env);
      if s.localOpen {
        forall p | p in s.buffer ensures !Validate(p.msg.op, cfg.tags) {
          assert Unwanted(cfg, s, p.msg);
        }
      }
      ReplaySparesLocal(cfg, c.bus.(buffer := []), c.bus.buffer, env);
    }
  }

  /** The controller's own queue is open until it refuses a message that arrives for it, and closed for ever after. */
  lemma {:induction false} LocalOpenIff(cfg: Config, start: nat, turns: seq<Turn>)
    ensures Run(cfg, start, turns).localOpen <==> forall k: nat | k < |turns| :: !RefusedAt(cfg, start, turns, k)
  {
    if turns != [] {
      var front, last := turns[..|turns| - 1], turns[|turns| - 1];
      LocalOpenIff(cfg, start, front);
      Reachable(cfg, start, front);
      StepClosesIff(cfg, Run(cfg, start, front), last.input, last.env);
      forall k: nat | k < |front| ensures RefusedAt(cfg, start, front, k) <==> RefusedAt(cfg, start, turns, k) {
        assert front[..k] == turns[..k] && front[k] == turns[k];
      }
      assert turns[..|front|] == front;
      assert Run(cfg, start, turns).localOpen <==> Run(cfg, start, front).localOpen && !RefusedAt(cfg, start, turns, |front|);
      if Run(cfg, start, front).localOpen {
        assert forall k: nat | k < |front| :: !RefusedAt(cfg, start, turns, k);
      } else {
        var k: nat :| k < |front| && RefusedAt(cfg, start, front, k);
        assert RefusedAt(cfg, start, turns, k);
      }
    }
  }

  /** If the queue never refuses, it gets, in the iteration of its arrival, every message that the controller's label
      validates and that is a multicast or that no endpoint took. */
  lemma LocalQueueIsServed(cfg: Config, start: nat, turns: seq<Turn>, i: Input, env: Env)
    requires forall turn, id | turn in turns :: turn.env.localOk(id)
    requires i.Ordinary? && env.localOk(|Run(cfg, start, turns).arrivals|)
    ensures Run(cfg, start, turns).localOpen
    ensures var s := Run(cfg, start, turns); var m := Message(|s.arrivals|, env.now, i.op, i.mode, i.ttl);
      Delivered(m, ToLocal) in Step(cfg, s, i, env).log <==>
        Validate(i.op, cfg.tags) && (i.mode.Multicast? || NoTaker(s.endpoints, m, env.sendOk))
  {
    forall k: nat | k < |turns| ensures !RefusedAt(cfg, start, turns, k) {
      assert turns[k] in turns;
    }
    LocalOpenIff(cfg, start, turns);
    ArrivalOutcome(cfg, start, turns, i, env);
  }

  // ---------- what arrived ----------

  /** The messages of a run, from its turns alone. */
  function ArrivalsOf(turns: seq<Turn>): seq<Message> {
    if turns == [] then []
    else
      var before, last := ArrivalsOf(turns[..|turns| - 1]), turns[|turns| - 1];
      match last.input
      case Ordinary(op, mode, ttl) => before + [Message(|before|, last.env.now, op, mode, ttl)]
      case _ => before
  }

  lemma StepArrivals(cfg: Config, s: Bus, i: Input, env: Env)
    ensures Step(cfg, s, i, env).arrivals == s.arrivals +
      (if i.Ordinary? then [Message(|s.arrivals|, env.now, i.op, i.mode, i.ttl)] else [])
  {
    if i.ConnectRequest? {
      var c := Admit(cfg, s, i.reply, i.payload, env);
      ReplayKeepsArrivals(cfg, c.bus.(buffer := []), c.bus.buffer, env);
    }
  }

  /** The arrivals that order and conservation are about are exactly the ordinary messages of the turns, one by one. */
  lemma {:induction false} ArrivalsAreTheTurns(cfg: Config, start: nat, turns: seq<Turn>)
    ensures Run(cfg, start, turns).arrivals == ArrivalsOf(turns)
  {
    if turns != [] {
      var front, last := turns[..|turns| - 1], turns[|turns| - 1];
      ArrivalsAreTheTurns(cfg, start, front);
      StepArrivals(cfg, Run(cfg, start, front), last.input, last.env);
    }
  }

  // ---------- who was ever registered ----------

  /** A connect request that gets a positive ack, if it can be delivered. */
  predicate IsValidRequest(cfg: Config, i: Input) {
    && i.ConnectRequest? && i.reply.Some? && i.payload.Some?
    && i.payload.value.version.Compatible(cfg.version) && i.payload.value.token == cfg.token
  }

  ghost predicate JoinsAs(cfg: Config, s: Bus, i: Input, env: Env, e: Endpoint) {
    && IsValidRequest(cfg, i) && env.ackOk
    && e == Endpoint(s.nextId, i.payload.value.tags, i.reply.value)
  }

  ghost predicate AllDifferent(s: Bus) {
    forall e, f | e in s.endpoints && f in s.endpoints && e.tags == f.tags && e.remote == f.remote :: e == f
  }

  lemma DispatchAdds(cfg: Config, s: Bus, i: Input, env: Env)
    ensures var d := Dispatch(cfg, s, i, env);
      && (forall e | e in d.endpoints :: e in s.endpoints || (JoinsAs(cfg, s, i, env, e) && Acked(e.remote, AckOk(e.id)) in d.log))
      && d.nextId == s.nextId + (if IsValidRequest(cfg, i) then 1 else 0)
      && s.log <= d.log
      && (AllDifferent(s) ==> AllDifferent(d))
  {
    if i.Ordinary? {
      BusChannels.SweepReachesRegistered(s.endpoints, Arrive(s, i, env.now), env.sendOk);
    } else if i.ConnectRequest? {
      var c := Admit(cfg, s, i.reply, i.payload, env);
      AdmitAdds(cfg, s, i, env);
      if c.joined {
        ReplayKeepsRest(cfg, c.bus.(buffer := []), c.bus.buffer, env);
      }
    }
  }

  lemma AdmitAdds(cfg: Config, s: Bus, i: Input, env: Env)
    requires i.ConnectRequest?
    ensures var a := Admit(cfg, s, i.reply, i.payload, env).bus;
      && (forall e | e in a.endpoints :: e in s.endpoints || (JoinsAs(cfg, s, i, env, e) && Acked(e.remote, AckOk(e.id)) in a.log))
      && a.nextId == s.nextId + (if IsValidRequest(cfg, i) then 1 else 0)
      && s.log <= a.log
      && (AllDifferent(s) ==> AllDifferent(a))
  {
  }

  lemma StepAdds(cfg: Config, s: Bus, i: Input, env: Env)
    ensures var t := Step(cfg, s, i, env);
      && (forall e | e in t.endpoints :: e in s.endpoints || (JoinsAs(cfg, s, i, env, e) && Acked(e.remote, AckOk(e.id)) in t.log))
      && t.nextId == s.nextId + (if IsValidRequest(cfg, i) then 1 else 0)
      && s.log <= t.log
      && (AllDifferent(s) ==> AllDifferent(t))
  {
    DispatchAdds(cfg, s, i, env);
    FilterMembers(Dispatch(cfg, s, i, env).endpoints, (ep: Endpoint) => !env.dead(ep.id));
  }

  /** Turn `k` is the connect request that made `e`: compatible, with the token, acknowledged with the identifier of `e`. */
  ghost predicate Admits(cfg: Config, start: nat, turns: seq<Turn>, k: nat, e: Endpoint) {
    k < |turns| && JoinsAs(cfg, Run(cfg, start, turns[..k]), turns[k].input, turns[k].env, e)
  }

  lemma {:induction false} IdsGrow(cfg: Config, start: nat, turns: seq<Turn>, k: nat)
    requires k <= |turns|
    ensures Run(cfg, start, turns[..k]).nextId <= Run(cfg, start, turns).nextId
    ensures k < |turns| && IsValidRequest(cfg, turns[k].input) ==>
      Run(cfg, start, turns[..k]).nextId < Run(cfg, start, turns).nextId
  {
    if k == |turns| {
      assert turns[..k] == turns;
    } else {
      var front, last := turns[..|turns| - 1], turns[|turns| - 1];
      assert front[..k] == turns[..k];
      IdsGrow(cfg, start, front, k);
      StepAdds(cfg, Run(cfg, start, front), last.input, last.env);
    }
  }

  lemma {:induction false} RegisteredWasAdmitted(cfg: Config, start: nat, turns: seq<Turn>, e: Endpoint) returns (k: nat)
    requires e in Run(cfg, start, turns).endpoints
    ensures Admits(cfg, start, turns, k, e)
    ensures Acked(e.remote, AckOk(e.id)) in Run(cfg, start, turns).log
  {
    assert turns != [];
    var front, last := turns[..|turns| - 1], turns[|turns| - 1];
    var s := Run(cfg, start, front);
    StepAdds(cfg, s, last.input, last.env);
    if e in s.endpoints {
      k := RegisteredWasAdmitted(cfg, start, front, e);
      assert front[..k] == turns[..k] && front[k] == turns[k];
    } else {
      k := |turns| - 1;
    }
  }

  /** Every registered endpoint stems from exactly one connect request of the run; that request had a compatible version
      and the token, and its positive ack, which carries the identifier, was delivered. */
  lemma AdmittedOnce(cfg: Config, start: nat, turns: seq<Turn>, e: Endpoint)
    requires e in Run(cfg, start, turns).endpoints
    ensures exists k: nat :: Admits(cfg, start, turns, k, e)
    ensures forall j: nat, k: nat | Admits(cfg, start, turns, j, e) && Admits(cfg, start, turns, k, e) :: j == k
    ensures Acked(e.remote, AckOk(e.id)) in Run(cfg, start, turns).log
  {
    var _ := RegisteredWasAdmitted(cfg, start, turns, e);
    forall j: nat, k: nat | Admits(cfg, start, turns, j, e) && Admits(cfg, start, turns, k, e) ensures j >= k {
      if j < k {
        assert turns[..k][..j] == turns[..j] && turns[..k][j] == turns[j];
        IdsGrow(cfg, start, turns[..k], j);
      }
    }
  }

  lemma {:induction false} AllDifferentAlways(cfg: Config, start: nat, turns: seq<Turn>)
    ensures AllDifferent(Run(cfg, start, turns))
  {
    if turns != [] {
      var front, last := turns[..|turns| - 1], turns[|turns| - 1];
      AllDifferentAlways(cfg, start, front);
      StepAdds(cfg, Run(cfg, start, front), last.input, last.env);
    }
  }

  /** In every reachable state no two registered endpoints share both label and reply channel, nor an identifier. */
  lemma NoTwoAlike(cfg: Config, start: nat, turns: seq<Turn>, i: nat, j: nat)
    requires i < j < |Run(cfg, start, turns).endpoints|
    ensures var e, f := Run(cfg, start, turns).endpoints[i], Run(cfg, start, turns).endpoints[j];
      e.id < f.id && (e.tags != f.tags || e.remote != f.remote)
  {
    Reachable(cfg, start, turns);
    AllDifferentAlways(cfg, start, turns);
    var eps := Run(cfg, start, turns).endpoints;
    assert EpId(eps[i]) < EpId(eps[j]);
  }
}
