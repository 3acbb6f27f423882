/** The invariant of the bus controller and its preservation by every iteration. */
module BusProofs {
  import opened Prelude
  import opened Labels
  import opened BusModel

  // ---------- vocabulary ----------

  function EpId(e: Endpoint): int { e.id }
  function ParkedId(p: Parked): int { p.msg.id }

  predicate SameTarget(a: Target, b: Target) {
    (a.ToLocal? && b.ToLocal?) || (a.ToEndpoint? && b.ToEndpoint? && a.ep.id == b.ep.id)
  }

  /** Would a routing attempt now try to give `m` to target `t`? */
  ghost predicate Reaches(cfg: Config, s: Bus, m: Message, t: Target) {
    match t
    case ToEndpoint(ep) => exists f :: f in s.endpoints && f.id == ep.id && Validate(m.op, f.tags)
    case ToLocal => s.localOpen && Validate(m.op, cfg.tags)
  }

  /** Nobody registered wants `m`, and neither does the controller's own open queue. */
  ghost predicate Unwanted(cfg: Config, s: Bus, m: Message) {
    && (forall ep | ep in s.endpoints :: !Validate(m.op, ep.tags))
    && (s.localOpen ==> !Validate(m.op, cfg.tags))
  }

  /** Everything already delivered to a target that `m` could reach arrived before `m`. */
  ghost predicate Clear(cfg: Config, s: Bus, m: Message) {
    forall i | 0 <= i < |s.log| && s.log[i].Delivered? && Reaches(cfg, s, m, s.log[i].to) :: s.log[i].msg.id < m.id
  }

  ghost predicate EndpointsOk(s: Bus) {
    && Ascending(s.endpoints, EpId)
    && forall e | e in s.endpoints :: e.id < s.nextId
  }

  ghost predicate EventOk(cfg: Config, s: Bus, e: Event) {
    e.Delivered? ==>
      && e.msg.id < |s.arrivals|
      && s.arrivals[e.msg.id] == e.msg
      && match e.to
         case ToEndpoint(ep) => ep.id < s.nextId && Validate(e.msg.op, ep.tags)
         case ToLocal => Validate(e.msg.op, cfg.tags)
  }

  ghost predicate InOrder(log: seq<Event>) {
    forall i, j | 0 <= i < j < |log| && log[i].Delivered? && log[j].Delivered? ::
      && (SameTarget(log[i].to, log[j].to) ==> log[i].msg.id < log[j].msg.id)
      && (log[i].msg.id == log[j].msg.id ==> log[i].msg.mode.Multicast?)
  }

  ghost predicate LogOk(cfg: Config, s: Bus) {
    && (forall e | e in s.log :: EventOk(cfg, s, e))
    && InOrder(s.log)
  }

  ghost predicate WaitingOk(s: Bus, waiting: seq<Parked>) {
    && Ascending(waiting, ParkedId)
    && forall p | p in waiting ::
         && p.msg.id < |s.arrivals|
         && s.arrivals[p.msg.id] == p.msg
         && p.expire == p.msg.at + p.msg.ttl
  }

  ghost predicate DropsOk(s: Bus) {
    forall d | d in s.dropped ::
      && d.msg.id < |s.arrivals|
      && s.arrivals[d.msg.id] == d.msg
      && d.at >= d.msg.at + d.msg.ttl
  }

  ghost function DeliveredIds(log: seq<Event>): set<nat> { set e | e in log && e.Delivered? :: e.msg.id }
  ghost function DroppedIds(dropped: seq<Drop>): set<nat> { set d | d in dropped :: d.msg.id }
  ghost function WaitingIds(waiting: seq<Parked>): set<nat> { set p | p in waiting :: p.msg.id }
  ghost function ArrivedIds(arrivals: seq<Message>): set<nat> { set m | m in arrivals :: m.id }

  /** Every arrival has exactly one fate: delivered, dropped or still waiting. */
  ghost predicate Accounted(s: Bus, waiting: seq<Parked>) {
    var d, x, w := DeliveredIds(s.log), DroppedIds(s.dropped), WaitingIds(waiting);
    && d + x + w == ArrivedIds(s.arrivals)
    && d !! x
    && d !! w
    && x !! w
  }

  /** The invariant in the middle of an iteration: `queue` is what is still to be routed. */
  ghost predicate Inv(cfg: Config, s: Bus, queue: seq<Parked>) {
    && EndpointsOk(s)
    && (forall k | 0 <= k < |s.arrivals| :: s.arrivals[k].id == k)
    && LogOk(cfg, s)
    && DropsOk(s)
    && WaitingOk(s, s.buffer + queue)
    && Accounted(s, s.buffer + queue)
    && (forall p | p in s.buffer :: Unwanted(cfg, s, p.msg))
    && (forall p | p in queue :: Clear(cfg, s, p.msg))
  }

  // ---------- the sweep over the endpoints ----------

  /** Who stays registered: everyone, except matching endpoints whose send failed. */
  lemma {:induction false} SweepKeeps(eps: seq<Endpoint>, m: Message, ok: (nat, nat) -> bool)
    requires Ascending(eps, EpId)
    ensures var w := SweepEndpoints(eps, m, ok);
      && (forall e | e in w.kept :: e in eps)
      && (forall e | e in eps && e !in w.kept :: Validate(m.op, e.tags) && !ok(m.id, e.id))
      && Ascending(w.kept, EpId)
  {
    if eps != [] {
      var front, e := eps[..|eps| - 1], eps[|eps| - 1];
      SweepKeeps(front, m, ok);
      var kept, w := SweepEndpoints(front, m, ok).kept, SweepEndpoints(eps, m, ok);
      assert w.kept == kept + [e] || (w.kept == kept && Validate(m.op, e.tags) && !ok(m.id, e.id));
      assert eps == front + [e];
      LastAscends(front, e, kept);
    }
  }

  lemma LastAscends(front: seq<Endpoint>, e: Endpoint, kept: seq<Endpoint>)
    requires Ascending(front + [e], EpId) && Ascending(kept, EpId) && forall x | x in kept :: x in front
    ensures Ascending(kept + [e], EpId)
  {
    var all := front + [e];
    forall k | 0 <= k < |kept| ensures EpId(kept[k]) < EpId(e) {
      assert kept[k] in kept;
      var j :| 0 <= j < |front| && front[j] == kept[k];
      assert all[j] == kept[k] && all[|front|] == e;
    }
  }

  lemma {:induction false} ReachedMatch(eps: seq<Endpoint>, m: Message, ok: (nat, nat) -> bool)
    ensures var w := SweepEndpoints(eps, m, ok);
      forall e | e in w.reached :: e in eps && e in w.kept && Validate(m.op, e.tags) && ok(m.id, e.id)
  {
    if eps != [] {
      ReachedMatch(eps[..|eps| - 1], m, ok);
    }
  }

  lemma {:induction false} ReachedAscend(eps: seq<Endpoint>, m: Message, ok: (nat, nat) -> bool)
    requires Ascending(eps, EpId)
    ensures Ascending(SweepEndpoints(eps, m, ok).reached, EpId)
  {
    if eps != [] {
      var front, e := eps[..|eps| - 1], eps[|eps| - 1];
      var reached := SweepEndpoints(front, m, ok).reached;
      ReachedAscend(front, m, ok);
      ReachedMatch(front, m, ok);
      assert eps == front + [e];
      LastAscends(front, e, reached);
      assert SweepEndpoints(eps, m, ok).reached == reached || SweepEndpoints(eps, m, ok).reached == reached + [e];
    }
  }

  lemma {:induction false} ReachedEnough(eps: seq<Endpoint>, m: Message, ok: (nat, nat) -> bool)
    ensures var w := SweepEndpoints(eps, m, ok);
      && (m.mode.Unicast? ==> |w.reached| <= 1)
      && (w.reached == [] ==> forall e | e in w.kept :: !Validate(m.op, e.tags))
  {
    if eps != [] {
      ReachedEnough(eps[..|eps| - 1], m, ok);
    }
  }

  /** Who gets the message: only matching endpoints that stay, in order of registration; one at most for a
      unicast; and if there is none, no matching endpoint is left. */
  lemma SweepReaches(eps: seq<Endpoint>, m: Message, ok: (nat, nat) -> bool)
    requires Ascending(eps, EpId)
    ensures var w := SweepEndpoints(eps, m, ok);
      && (forall e | e in w.reached :: e in w.kept && Validate(m.op, e.tags) && ok(m.id, e.id))
      && Ascending(w.reached, EpId)
      && (m.mode.Unicast? ==> |w.reached| <= 1)
      && (w.reached == [] ==> forall e | e in w.kept :: !Validate(m.op, e.tags))
  {
    ReachedMatch(eps, m, ok);
    ReachedAscend(eps, m, ok);
    ReachedEnough(eps, m, ok);
  }

  // ---------- one routing attempt ----------

  lemma NewDeliveriesInOrder(cfg: Config, s: Bus, m: Message, env: Env)
    requires EndpointsOk(s) && m.id < |s.arrivals| && s.arrivals[m.id] == m
    ensures var sent := Deliveries(cfg, s, m, env);
      && InOrder(sent)
      && (forall e | e in sent :: e.Delivered? && e.msg == m && EventOk(cfg, s, e) && Reaches(cfg, s, m, e.to))
      && (sent == [] <==> Route(cfg, s, m, env).remain)
  {
    SweepKeeps(s.endpoints, m, env.sendOk);
    SweepReaches(s.endpoints, m, env.sendOk);
  }

  lemma InOrderConcat(past: seq<Event>, sent: seq<Event>, m: Message)
    requires InOrder(past) && InOrder(sent) && m.id !in DeliveredIds(past)
    requires forall e | e in sent :: e.Delivered? && e.msg == m
    requires forall i, j | 0 <= i < |past| && 0 <= j < |sent| && past[i].Delivered? && SameTarget(past[i].to, sent[j].to) ::
      past[i].msg.id < m.id
    ensures InOrder(past + sent)
  {
  }

  lemma DeliveredIdsConcat(a: seq<Event>, b: seq<Event>)
    ensures DeliveredIds(a + b) == DeliveredIds(a) + DeliveredIds(b)
  {
  }

  lemma NewDeliveriesFollow(cfg: Config, s: Bus, m: Message, env: Env)
    requires EndpointsOk(s) && LogOk(cfg, s) && Clear(cfg, s, m)
    requires m.id < |s.arrivals| && s.arrivals[m.id] == m && m.id !in DeliveredIds(s.log)
    ensures InOrder(s.log + Deliveries(cfg, s, m, env))
  {
    var sent := Deliveries(cfg, s, m, env);
    NewDeliveriesInOrder(cfg, s, m, env);
    forall i, j | 0 <= i < |s.log| && 0 <= j < |sent| && s.log[i].Delivered? && SameTarget(s.log[i].to, sent[j].to)
      ensures s.log[i].msg.id < m.id
    {
      assert sent[j] in sent && Reaches(cfg, s, m, sent[j].to);
      assert Reaches(cfg, s, m, s.log[i].to);
    }
    InOrderConcat(s.log, sent, m);
  }

  lemma DeliveredIdsOfOne(sent: seq<Event>, m: Message)
    requires forall e | e in sent :: e.Delivered? && e.msg == m
    ensures DeliveredIds(sent) == if sent == [] then {} else {m.id}
  {
    if sent != [] {
      assert sent[0] in sent;
    }
  }

  lemma RouteKeepsLog(cfg: Config, s: Bus, m: Message, env: Env)
    requires EndpointsOk(s) && LogOk(cfg, s) && Clear(cfg, s, m)
    requires m.id < |s.arrivals| && s.arrivals[m.id] == m && m.id !in DeliveredIds(s.log)
    ensures var r := Route(cfg, s, m, env);
      && LogOk(cfg, r.bus)
      && DeliveredIds(r.bus.log) == DeliveredIds(s.log) + (if r.remain then {} else {m.id})
  {
    var r, sent := Route(cfg, s, m, env), Deliveries(cfg, s, m, env);
    NewDeliveriesInOrder(cfg, s, m, env);
    NewDeliveriesFollow(cfg, s, m, env);
    DeliveredIdsConcat(s.log, sent);
    DeliveredIdsOfOne(sent, m);
    assert r.bus.log == s.log + sent;
    forall e | e in r.bus.log ensures EventOk(cfg, r.bus, e) {
      assert e in s.log || e in sent;
      assert EventOk(cfg, s, e);
    }
  }

  /** What a routing attempt of `m` means for another message `x`. */
  lemma RouteKeepsOthers(cfg: Config, s: Bus, m: Message, env: Env, x: Message)
    requires EndpointsOk(s)
    ensures var r := Route(cfg, s, m, env);
      && (Unwanted(cfg, s, x) ==> Unwanted(cfg, r.bus, x))
      && (Clear(cfg, s, x) && m.id < x.id ==> Clear(cfg, r.bus, x))
      && (r.remain ==> Unwanted(cfg, r.bus, m))
      && EndpointsOk(r.bus)
  {
    var r, sent := Route(cfg, s, m, env), Deliveries(cfg, s, m, env);
    SweepKeeps(s.endpoints, m, env.sendOk);
    SweepReaches(s.endpoints, m, env.sendOk);
    if Clear(cfg, s, x) && m.id < x.id {
      forall i | 0 <= i < |r.bus.log| && r.bus.log[i].Delivered? && Reaches(cfg, r.bus, x, r.bus.log[i].to)
        ensures r.bus.log[i].msg.id < x.id
      {
        if i < |s.log| {
          assert r.bus.log[i] == s.log[i];
          assert Reaches(cfg, s, x, s.log[i].to);
        } else {
          assert r.bus.log[i] == sent[i - |s.log|];
        }
      }
    }
  }

  // ---------- handling one waiting message, and replaying a queue ----------

  lemma RemoveWaiting(before: seq<Parked>, p: Parked, after: seq<Parked>)
    requires Ascending(before + ([p] + after), ParkedId)
    ensures Ascending(before + after, ParkedId)
    ensures WaitingIds(before + after) == WaitingIds(before + ([p] + after)) - {p.msg.id}
    ensures p.msg.id in WaitingIds(before + ([p] + after))
    ensures forall q | q in before + after :: q in before + ([p] + after)
    ensures forall q | q in after :: p.msg.id < q.msg.id
  {
    var all, less := before + ([p] + after), before + after;
    assert all[|before|] == p;
    forall i | 0 <= i < |less|
      ensures i < |before| ==> less[i] == all[i]
      ensures i >= |before| ==> less[i] == all[i + 1]
      ensures less[i] in all
    {
    }
    forall q | q in after ensures p.msg.id < q.msg.id {
      var k :| 0 <= k < |after| && after[k] == q;
      assert all[|before| + 1 + k] == q;
    }
    forall q | q in before ensures q.msg.id < p.msg.id {
      var k :| 0 <= k < |before| && before[k] == q;
      assert all[k] == q;
    }
    assert forall q | q in all :: q in before || q == p || q in after;
    forall i, j | 0 <= i < j < |less| ensures ParkedId(less[i]) < ParkedId(less[j]) {
      var i', j' := if i < |before| then i else i + 1, if j < |before| then j else j + 1;
      assert less[i] == all[i'] && less[j] == all[j'] && i' < j';
    }
  }

  lemma HandleKeepsInv(cfg: Config, s: Bus, p: Parked, rest: seq<Parked>, env: Env)
    requires Inv(cfg, s, [p] + rest)
    ensures Inv(cfg, Handle(cfg, s, p, env), rest)
  {
    RemoveWaiting(s.buffer, p, rest);
    assert p in [p] + rest && p in s.buffer + ([p] + rest);
    RouteKeepsLog(cfg, s, p.msg, env);
    HandleKeepsOthers(cfg, s, p, rest, env);
    HandleAccounts(cfg, s, p, rest, env);
    HandleKeepsLog(cfg, s, p, env);
  }

  lemma HandleKeepsLog(cfg: Config, s: Bus, p: Parked, env: Env)
    requires LogOk(cfg, Route(cfg, s, p.msg, env).bus)
    ensures LogOk(cfg, Handle(cfg, s, p, env))
  {
  }

  /** What handling one message means for the messages that wait. */
  lemma HandleKeepsOthers(cfg: Config, s: Bus, p: Parked, rest: seq<Parked>, env: Env)
    requires EndpointsOk(s)
    requires forall x | x in s.buffer :: Unwanted(cfg, s, x.msg)
    requires forall x | x in rest :: Clear(cfg, s, x.msg) && p.msg.id < x.msg.id
    ensures var h := Handle(cfg, s, p, env);
      && EndpointsOk(h)
      && (forall x | x in h.buffer :: Unwanted(cfg, h, x.msg))
      && (forall x | x in rest :: Clear(cfg, h, x.msg))
  {
    var m, r, h := p.msg, Route(cfg, s, p.msg, env), Handle(cfg, s, p, env);
    RouteKeepsOthers(cfg, s, m, env, m);
    forall x | x in h.buffer ensures Unwanted(cfg, h, x.msg) {
      assert Unwanted(cfg, r.bus, x.msg) by {
        assert x in s.buffer || x == p;
        RouteKeepsOthers(cfg, s, m, env, x.msg);
      }
    }
    forall x | x in rest ensures Clear(cfg, h, x.msg) {
      RouteKeepsOthers(cfg, s, m, env, x.msg);
      forall i | 0 <= i < |h.log| && h.log[i].Delivered? && Reaches(cfg, h, x.msg, h.log[i].to)
        ensures h.log[i].msg.id < x.msg.id
      {
        assert Reaches(cfg, r.bus, x.msg, r.bus.log[i].to);
      }
    }
  }

  /** The bookkeeping half of `HandleKeepsInv`. */
  lemma HandleAccounts(cfg: Config, s: Bus, p: Parked, rest: seq<Parked>, env: Env)
    requires WaitingOk(s, s.buffer + ([p] + rest)) && Accounted(s, s.buffer + ([p] + rest)) && DropsOk(s)
    requires DeliveredIds(Route(cfg, s, p.msg, env).bus.log) ==
             DeliveredIds(s.log) + (if Route(cfg, s, p.msg, env).remain then {} else {p.msg.id})
    ensures var h := Handle(cfg, s, p, env);
      && WaitingOk(h, h.buffer + rest) && Accounted(h, h.buffer + rest) && DropsOk(h)
  {
    var r := Route(cfg, s, p.msg, env).bus;
    if !Route(cfg, s, p.msg, env).remain {
      DeliveredAccounts(s, r, p, rest);
    } else if p.expire > env.now {
      var h := Handle(cfg, s, p, env);
      assert h.buffer + rest == s.buffer + ([p] + rest);
    } else {
      DroppedAccounts(s, r, p, rest, env.now);
    }
  }

  lemma DeliveredAccounts(s: Bus, r: Bus, p: Parked, rest: seq<Parked>)
    requires WaitingOk(s, s.buffer + ([p] + rest)) && Accounted(s, s.buffer + ([p] + rest))
    requires r.arrivals == s.arrivals && r.dropped == s.dropped
    requires DeliveredIds(r.log) == DeliveredIds(s.log) + {p.msg.id}
    ensures WaitingOk(r, s.buffer + rest) && Accounted(r, s.buffer + rest)
  {
    RemoveWaiting(s.buffer, p, rest);
  }

  lemma DroppedAccounts(s: Bus, r: Bus, p: Parked, rest: seq<Parked>, now: nat)
    requires WaitingOk(s, s.buffer + ([p] + rest)) && Accounted(s, s.buffer + ([p] + rest)) && DropsOk(s)
    requires r.arrivals == s.arrivals && r.dropped == s.dropped && p.expire <= now
    requires DeliveredIds(r.log) == DeliveredIds(s.log)
    ensures var h := r.(dropped := r.dropped + [Drop(p.msg, now)]);
      WaitingOk(h, s.buffer + rest) && Accounted(h, s.buffer + rest) && DropsOk(h)
  {
    RemoveWaiting(s.buffer, p, rest);
    assert p in s.buffer + ([p] + rest);
    var h := r.(dropped := r.dropped + [Drop(p.msg, now)]);
    DroppedIdsConcat(s.dropped, [Drop(p.msg, now)]);
    assert DroppedIds(h.dropped) == DroppedIds(s.dropped) + {p.msg.id};
  }

  lemma {:induction false} ReplayKeepsInv(cfg: Config, s: Bus, queue: seq<Parked>, env: Env)
    requires Inv(cfg, s, queue)
    ensures Inv(cfg, Replay(cfg, s, queue, env), [])
    decreases |queue|
  {
    if queue != [] {
      assert queue == [queue[0]] + queue[1..];
      HandleKeepsInv(cfg, s, queue[0], queue[1..], env);
      ReplayKeepsInv(cfg, Handle(cfg, s, queue[0], env), queue[1..], env);
    }
  }

  // ---------- the steps of an iteration ----------

  /** An ack changes nothing the invariant speaks of. */
  lemma AckKeepsInv(cfg: Config, s: Bus, remote: Remote, ack: Ack, ok: bool)
    requires Inv(cfg, s, [])
    ensures Inv(cfg, SendAck(s, remote, ack, ok), [])
  {
  }

  lemma NewIdKeepsInv(cfg: Config, s: Bus)
    requires Inv(cfg, s, [])
    ensures Inv(cfg, s.(nextId := s.nextId + 1), [])
  {
  }

  /** Registering an endpoint makes the whole buffer routable again, in order. */
  lemma JoinKeepsInv(cfg: Config, s: Bus, ep: Endpoint)
    requires Inv(cfg, s, []) && ep.id == s.nextId
    ensures Inv(cfg, s.(nextId := s.nextId + 1, endpoints := s.endpoints + [ep], buffer := []), s.buffer)
  {
    var t := s.(nextId := s.nextId + 1, endpoints := s.endpoints + [ep], buffer := []);
    assert s.buffer + [] == s.buffer && t.buffer + s.buffer == s.buffer;
    forall e | e in t.log ensures EventOk(cfg, t, e) {
      assert EventOk(cfg, s, e);
    }
    forall p | p in s.buffer ensures Clear(cfg, t, p.msg) {
      forall i | 0 <= i < |t.log| && t.log[i].Delivered? ensures !Reaches(cfg, t, p.msg, t.log[i].to) {
        assert EventOk(cfg, s, s.log[i]);
        assert Unwanted(cfg, s, p.msg);
      }
    }
  }

  lemma ArriveKeepsInv(cfg: Config, s: Bus, m: Message, t: Bus, p: Parked)
    requires Inv(cfg, s, [])
    requires m.id == |s.arrivals| && t == s.(arrivals := s.arrivals + [m]) && p == Parked(m.at + m.ttl, m)
    ensures Inv(cfg, t, [p] + [])
  {
    var q := [p];
    assert s.buffer + [] == s.buffer && q + [] == q;
    forall e | e in t.log ensures EventOk(cfg, t, e) {
      assert EventOk(cfg, s, e);
    }
    assert WaitingIds(t.buffer + q) == WaitingIds(s.buffer) + {m.id};
    assert ArrivedIds(t.arrivals) == ArrivedIds(s.arrivals) + {m.id};
    forall x | x in ArrivedIds(s.arrivals) ensures x < m.id {
      var a :| a in s.arrivals && a.id == x;
    }
    forall e | e in t.log && e.Delivered? ensures e.msg.id < m.id {
      assert EventOk(cfg, s, e);
    }
  }

  lemma AcceptKeepsInv(cfg: Config, s: Bus, i: Input, env: Env)
    requires Inv(cfg, s, []) && i.Ordinary?
    ensures Inv(cfg, Accept(cfg, s, i, env), [])
  {
    var m := Arrive(s, i, env.now);
    var t, p := s.(arrivals := s.arrivals + [m]), Parked(env.now + i.ttl, m);
    ArriveKeepsInv(cfg, s, m, t, p);
    HandleKeepsInv(cfg, t, p, [], env);
    assert Accept(cfg, s, i, env) == Handle(cfg, t, p, env);
  }

  lemma AdmitKeepsInv(cfg: Config, s: Bus, reply: Remote, payload: Connect, env: Env)
    requires Inv(cfg, s, [])
    requires Admit(cfg, s, Some(reply), Some(payload), env).joined
    ensures var c := Admit(cfg, s, Some(reply), Some(payload), env).bus;
      Inv(cfg, c.(buffer := []), c.buffer)
  {
    AckKeepsInv(cfg, s, reply, AckOk(s.nextId), true);
    JoinKeepsInv(cfg, SendAck(s, reply, AckOk(s.nextId), true), Endpoint(s.nextId, payload.tags, reply));
  }

  lemma RejectKeepsInv(cfg: Config, s: Bus, reply: Remote, payload: Option<Connect>, env: Env)
    requires Inv(cfg, s, [])
    requires !Admit(cfg, s, Some(reply), payload, env).joined
    ensures Inv(cfg, Admit(cfg, s, Some(reply), payload, env).bus, [])
  {
    if payload.None? || !payload.value.version.Compatible(cfg.version) {
      AckKeepsInv(cfg, s, reply, ErrVersion, env.ackOk);
    } else if payload.value.token != cfg.token {
      AckKeepsInv(cfg, s, reply, ErrToken, env.ackOk);
    } else {
      AckKeepsInv(cfg, s, reply, AckOk(s.nextId), env.ackOk);
      NewIdKeepsInv(cfg, SendAck(s, reply, AckOk(s.nextId), env.ackOk));
    }
  }

  lemma ConnectKeepsInv(cfg: Config, s: Bus, reply: Option<Remote>, payload: Option<Connect>, env: Env)
    requires Inv(cfg, s, [])
    ensures Inv(cfg, AdmitAndReplay(cfg, s, reply, payload, env), [])
  {
    if reply.Some? {
      var c := Admit(cfg, s, reply, payload, env);
      if c.joined {
        AdmitKeepsInv(cfg, s, reply.value, payload.value, env);
        ReplayKeepsInv(cfg, c.bus.(buffer := []), c.bus.buffer, env);
      } else {
        RejectKeepsInv(cfg, s, reply.value, payload, env);
      }
    }
  }

  lemma DispatchKeepsInv(cfg: Config, s: Bus, i: Input, env: Env)
    requires Inv(cfg, s, [])
    ensures Inv(cfg, Dispatch(cfg, s, i, env), [])
  {
    match i
    case Ordinary(_, _, _) => AcceptKeepsInv(cfg, s, i, env);
    case ConnectRequest(reply, payload) => ConnectKeepsInv(cfg, s, reply, payload, env);
    case FetchProcessHandle =>
    case BadVersion(reply) =>
      if reply.Some? {
        AckKeepsInv(cfg, s, reply.value, ErrVersion, env.ackOk);
      }
    case RecvFailed =>
  }

  lemma DetectKeepsInv(cfg: Config, s: Bus, env: Env)
    requires Inv(cfg, s, [])
    ensures Inv(cfg, DetectReachable(s, env), [])
  {
    var alive := (ep: Endpoint) => !env.dead(ep.id);
    FilterMembers(s.endpoints, alive);
    FilterAscending(s.endpoints, alive, EpId);
    var t := DetectReachable(s, env);
    forall e | e in t.log ensures EventOk(cfg, t, e) {
      assert EventOk(cfg, s, e);
    }
    assert t.buffer + [] == s.buffer + [];
    forall p | p in t.buffer ensures Unwanted(cfg, t, p.msg) {
      assert Unwanted(cfg, s, p.msg);
    }
  }

  lemma DropsOfIds(parked: seq<Parked>, now: nat)
    ensures DroppedIds(DropsOf(parked, now)) == WaitingIds(parked)
  {
    var d := DropsOf(parked, now);
    forall p | p in parked ensures p.msg.id in DroppedIds(d) {
      var k :| 0 <= k < |parked| && parked[k] == p;
      assert d[k] in d;
    }
  }

  lemma DroppedIdsConcat(a: seq<Drop>, b: seq<Drop>)
    ensures DroppedIds(a + b) == DroppedIds(a) + DroppedIds(b)
  {
  }

  lemma MaintainKeepsInv(cfg: Config, s: Bus, env: Env)
    requires Inv(cfg, s, [])
    ensures Inv(cfg, Maintain(s, env), [])
  {
    var fresh_, stale := (p: Parked) => p.expire > env.now, (p: Parked) => p.expire <= env.now;
    var kept, gone := Filter(s.buffer, fresh_), Filter(s.buffer, stale);
    var t := Maintain(s, env);
    assert s.buffer + [] == s.buffer && t.buffer + [] == t.buffer == kept;
    FilterMembers(s.buffer, fresh_);
    FilterMembers(s.buffer, stale);
    FilterAscending(s.buffer, fresh_, ParkedId);
    DropsOfIds(gone, env.now);
    DroppedIdsConcat(s.dropped, DropsOf(gone, env.now));
    forall e | e in t.log ensures EventOk(cfg, t, e) {
      assert EventOk(cfg, s, e);
    }
    forall p, q | p in kept && q in gone ensures p.msg.id != q.msg.id {
      assert s.arrivals[p.msg.id] == p.msg && s.arrivals[q.msg.id] == q.msg;
    }
    assert WaitingIds(kept) + WaitingIds(gone) == WaitingIds(s.buffer);
    forall d | d in t.dropped ensures d.msg.id < |t.arrivals| && t.arrivals[d.msg.id] == d.msg && d.at >= d.msg.at + d.msg.ttl {
      if d !in s.dropped {
        var k :| 0 <= k < |gone| && DropsOf(gone, env.now)[k] == d;
        assert gone[k] in gone;
      }
    }
    forall p | p in t.buffer ensures Unwanted(cfg, t, p.msg) {
      assert Unwanted(cfg, s, p.msg);
    }
  }

  lemma StepKeepsInv(cfg: Config, s: Bus, i: Input, env: Env)
    requires Inv(cfg, s, [])
    ensures Inv(cfg, Step(cfg, s, i, env), [])
  {
    DispatchKeepsInv(cfg, s, i, env);
    var d := Dispatch(cfg, s, i, env);
    DetectKeepsInv(cfg, d, env);
    MaintainKeepsInv(cfg, DetectReachable(d, env), env);
  }

  /** Every reachable bus satisfies the invariant. */
  lemma {:induction false} Reachable(cfg: Config, start: nat, turns: seq<Turn>)
    ensures Inv(cfg, Run(cfg, start, turns), [])
  {
    if turns != [] {
      var front, last := turns[..|turns| - 1], turns[|turns| - 1];
      Reachable(cfg, start, front);
      StepKeepsInv(cfg, Run(cfg, start, front), last.input, last.env);
    }
  }
}
