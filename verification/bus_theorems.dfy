/** What holds of every run of the bus controller, whatever arrives, whichever sends fail and however the clock moves. */
module BusTheorems {
  import opened Prelude
  import opened Labels
  import opened Versions
  import opened BusModel
  import opened BusProofs

  // ---------- what one pass over the endpoints decides ----------

  ghost predicate Takes(m: Message, ok: (nat, nat) -> bool, e: Endpoint) { Validate(m.op, e.tags) && ok(m.id, e.id) }

  /** A multicast reaches exactly the matching endpoints whose send succeeds, and unregisters exactly the matching
      endpoints whose send fails. */
  lemma {:induction false} MulticastSweep(eps: seq<Endpoint>, m: Message, ok: (nat, nat) -> bool)
    requires m.mode.Multicast?
    ensures SweepEndpoints(eps, m, ok).reached == Filter(eps, (e: Endpoint) => Validate(m.op, e.tags) && ok(m.id, e.id))
    ensures SweepEndpoints(eps, m, ok).kept == Filter(eps, (e: Endpoint) => Validate(m.op, e.tags) ==> ok(m.id, e.id))
  {
    if eps != [] {
      MulticastSweep(eps[..|eps| - 1], m, ok);
    }
  }

  /** The endpoints that do not match. */
  function Strangers(eps: seq<Endpoint>, m: Message): seq<Endpoint> {
    Filter(eps, (e: Endpoint) => !Validate(m.op, e.tags))
  }

  lemma {:induction false} NobodyTakes(eps: seq<Endpoint>, m: Message, ok: (nat, nat) -> bool)
    requires forall k | 0 <= k < |eps| :: !Takes(m, ok, eps[k])
    ensures SweepEndpoints(eps, m, ok) == Sweep(Strangers(eps, m), [])
  {
    if eps != [] {
      NobodyTakes(eps[..|eps| - 1], m, ok);
      assert !Takes(m, ok, eps[|eps| - 1]);
    }
  }

  /** A unicast goes to the earliest registered endpoint that takes it, and to no other; only the matching endpoints
      before that one are unregistered. */
  lemma {:induction false} UnicastSweep(eps: seq<Endpoint>, m: Message, ok: (nat, nat) -> bool, first: nat)
    requires m.mode.Unicast? && first <= |eps|
    requires forall k | 0 <= k < first :: !Takes(m, ok, eps[k])
    requires first < |eps| ==> Takes(m, ok, eps[first])
    ensures SweepEndpoints(eps, m, ok) ==
      Sweep(Strangers(eps[..first], m) + eps[first..], if first < |eps| then [eps[first]] else [])
  {
    if first == |eps| {
      assert eps[..first] == eps && eps[first..] == [];
      NobodyTakes(eps, m, ok);
    } else if first == |eps| - 1 {
      assert eps[first..] == [eps[first]];
      NobodyTakes(eps[..first], m, ok);
    } else {
      var front := eps[..|eps| - 1];
      UnicastSweep(front, m, ok, first);
      assert front[..first] == eps[..first] && front[first..] + [eps[|eps| - 1]] == eps[first..];
    }
  }

  // ---------- order ----------

  function MsgId(m: Message): int { m.id }

  /** Everything delivered to a target, oldest first. */
  function Received(log: seq<Event>, t: Target): seq<Message> {
    if log == [] then []
    else
      var rest, e := Received(log[..|log| - 1], t), log[|log| - 1];
      if e.Delivered? && SameTarget(e.to, t) then rest + [e.msg] else rest
  }

  ghost predicate Subsequence(a: seq<Message>, b: seq<Message>) {
    exists at: seq<nat> :: IsEmbedding(a, b, at)
  }

  ghost predicate IsEmbedding(a: seq<Message>, b: seq<Message>, at: seq<nat>) {
    && |at| == |a|
    && (forall k | 0 <= k < |at| :: at[k] < |b| && b[at[k]] == a[k])
    && forall j, k | 0 <= j < k < |at| :: at[j] < at[k]
  }

  lemma {:induction false} ReceivedInOrder(log: seq<Event>, t: Target)
    requires InOrder(log)
    ensures Ascending(Received(log, t), MsgId)
    ensures forall m | m in Received(log, t) :: exists e :: e in log && e.Delivered? && SameTarget(e.to, t) && e.msg == m
  {
    if log != [] {
      var front, last := log[..|log| - 1], log[|log| - 1];
      ReceivedInOrder(front, t);
      var r := Received(front, t);
      if last.Delivered? && SameTarget(last.to, t) {
        forall k | 0 <= k < |r| ensures r[k].id < last.msg.id {
          assert r[k] in r;
          var e :| e in front && e.Delivered? && SameTarget(e.to, t) && e.msg == r[k];
          var i :| 0 <= i < |front| && front[i] == e;
          assert log[i] == e && SameTarget(e.to, last.to);
        }
      }
    }
  }

  /** Per-endpoint FIFO: what any endpoint, or the controller's own queue, has received is a subsequence of what
      arrived at the controller, even though some of it was parked and replayed. */
  lemma DeliveryIsFifo(cfg: Config, start: nat, turns: seq<Turn>, t: Target)
    ensures var s := Run(cfg, start, turns); Subsequence(Received(s.log, t), s.arrivals)
  {
    var s := Run(cfg, start, turns);
    Reachable(cfg, start, turns);
    ReceivedInOrder(s.log, t);
    var r := Received(s.log, t);
    var at := seq(|r|, i requires 0 <= i < |r| => r[i].id);
    forall k | 0 <= k < |at| ensures at[k] < |s.arrivals| && s.arrivals[at[k]] == r[k] {
      assert r[k] in r;
      var e :| e in s.log && e.Delivered? && SameTarget(e.to, t) && e.msg == r[k];
      assert EventOk(cfg, s, e);
    }
    assert forall j, k | 0 <= j < k < |at| :: MsgId(r[j]) < MsgId(r[k]);
    assert IsEmbedding(r, s.arrivals, at);
  }

  // ---------- parked messages ----------

  /** No parked message is wanted by a registered endpoint, nor by the controller's own queue while its receiver is
      open. */
  lemma NothingStranded(cfg: Config, start: nat, turns: seq<Turn>, p: Parked)
    requires p in Run(cfg, start, turns).buffer
    ensures var s := Run(cfg, start, turns);
      && (forall ep | ep in s.endpoints :: !Validate(p.msg.op, ep.tags))
      && (Validate(p.msg.op, cfg.tags) ==> !s.localOpen)
  {
    Reachable(cfg, start, turns);
    var s := Run(cfg, start, turns);
    assert Unwanted(cfg, s, p.msg);
  }

  // ---------- no double delivery ----------

  /** The same message is never delivered twice to one target; a unicast message is never delivered twice at all; and
      a message that is still parked has been delivered to nobody. */
  lemma NoDoubleDelivery(cfg: Config, start: nat, turns: seq<Turn>, i: nat, j: nat)
    requires var log := Run(cfg, start, turns).log;
      i < j < |log| && log[i].Delivered? && log[j].Delivered? && log[i].msg.id == log[j].msg.id
    ensures var s := Run(cfg, start, turns);
      && s.log[i].msg == s.log[j].msg
      && s.log[i].msg.mode.Multicast?
      && !SameTarget(s.log[i].to, s.log[j].to)
      && forall p | p in s.buffer :: p.msg.id != s.log[i].msg.id
  {
    Reachable(cfg, start, turns);
    var s := Run(cfg, start, turns);
    assert s.log[i] in s.log && s.log[j] in s.log;
    assert EventOk(cfg, s, s.log[i]) && EventOk(cfg, s, s.log[j]);
    assert s.log[i].msg.id in DeliveredIds(s.log);
    assert s.buffer + [] == s.buffer;
    forall p | p in s.buffer ensures p.msg.id != s.log[i].msg.id {
      assert p.msg.id in WaitingIds(s.buffer);
    }
  }

  // ---------- conservation ----------

  ghost predicate WasDelivered(s: Bus, m: Message) { exists e :: e in s.log && e.Delivered? && e.msg == m }
  ghost predicate WasDropped(s: Bus, m: Message) { exists d :: d in s.dropped && d.msg == m && d.at >= m.at + m.ttl }
  ghost predicate IsParked(s: Bus, m: Message) { exists p :: p in s.buffer && p.msg == m && p.expire == m.at + m.ttl }

  /** Every message that ever arrived has exactly one fate: delivered to somebody, still parked, or dropped no earlier
      than its arrival time plus its time to live. */
  lemma MessagesConserved(cfg: Config, start: nat, turns: seq<Turn>, k: nat)
    requires k < |Run(cfg, start, turns).arrivals|
    ensures var s := Run(cfg, start, turns); var m := s.arrivals[k];
      && (WasDelivered(s, m) || WasDropped(s, m) || IsParked(s, m))
      && !(WasDelivered(s, m) && WasDropped(s, m))
      && !(WasDelivered(s, m) && IsParked(s, m))
      && !(WasDropped(s, m) && IsParked(s, m))
  {
    Reachable(cfg, start, turns);
    var s := Run(cfg, start, turns);
    var m := s.arrivals[k];
    assert s.buffer + [] == s.buffer;
    assert m in s.arrivals && m.id == k && k in ArrivedIds(s.arrivals);
    if k in DeliveredIds(s.log) {
      var e :| e in s.log && e.Delivered? && e.msg.id == k;
      assert EventOk(cfg, s, e);
    }
    assert WasDelivered(s, m) <==> k in DeliveredIds(s.log);
    assert WasDropped(s, m) <==> k in DroppedIds(s.dropped);
    assert IsParked(s, m) <==> k in WaitingIds(s.buffer);
  }

  /** After an iteration that reaches its housekeeping, whatever is parked expires later than now; the others leave the
      buffer alone. */
  lemma ParkedIsUnexpired(cfg: Config, s: Bus, i: Input, env: Env)
    ensures var t := Step(cfg, s, i, env);
      if i.BadVersion? || i.RecvFailed? then t.buffer == s.buffer else forall p | p in t.buffer :: p.expire > env.now
  {
    var d := DetectReachable(Dispatch(cfg, s, i, env), env);
    FilterMembers(d.buffer, (p: Parked) => p.expire > env.now);
  }

  // ---------- expired messages ----------

  /** Messages in `queue` matching `ep` up to and including `p`. */
  ghost predicate AllSendsOk(queue: seq<Parked>, p: Parked, ep: Endpoint, ok: (nat, nat) -> bool) {
    forall q | q in queue && q.msg.id <= p.msg.id && Validate(q.msg.op, ep.tags) :: ok(q.msg.id, ep.id)
  }

  ghost predicate OnlyWantedBy(cfg: Config, s: Bus, m: Message, ep: Endpoint) {
    && (forall e | e in s.endpoints && e != ep :: !Validate(m.op, e.tags))
    && (s.localOpen ==> !Validate(m.op, cfg.tags))
  }

  /** The sweep when nobody but `ep` can match. */
  lemma SweepForOne(eps: seq<Endpoint>, m: Message, ep: Endpoint, ok: (nat, nat) -> bool)
    requires Ascending(eps, EpId)
    requires forall e | e in eps && e != ep :: !Validate(m.op, e.tags)
    ensures var w := SweepEndpoints(eps, m, ok); var hit := ep in eps && Validate(m.op, ep.tags);
      && (w.reached != [] <==> hit && ok(m.id, ep.id))
      && (ep in w.kept <==> ep in eps && (hit ==> ok(m.id, ep.id)))
      && (forall e | e in w.kept :: e in eps)
  {
  }

  lemma DeliveriesToOne(cfg: Config, s: Bus, m: Message, env: Env)
    requires s.localOpen ==> !Validate(m.op, cfg.tags)
    ensures var w := SweepEndpoints(s.endpoints, m, env.sendOk);
      && DeliveredIds(Route(cfg, s, m, env).bus.log) == DeliveredIds(s.log) + (if w.reached == [] then {} else {m.id})
  {
    var sent := Deliveries(cfg, s, m, env);
    DeliveredIdsConcat(s.log, sent);
    DeliveredIdsOfOne(sent, m);
  }

  lemma SweepOfOne(cfg: Config, s: Bus, p: Parked, ep: Endpoint, env: Env)
    requires EndpointsOk(s) && OnlyWantedBy(cfg, s, p.msg, ep)
    ensures var h := Handle(cfg, s, p, env); var hit := ep in s.endpoints && Validate(p.msg.op, ep.tags);
      && EndpointsOk(h)
      && DeliveredIds(h.log) == DeliveredIds(s.log) + (if hit && env.sendOk(p.msg.id, ep.id) then {p.msg.id} else {})
      && (ep in h.endpoints <==> ep in s.endpoints && (hit ==> env.sendOk(p.msg.id, ep.id)))
      && (forall e | e in h.endpoints :: e in s.endpoints)
      && (h.localOpen ==> s.localOpen)
  {
    SweepForOne(s.endpoints, p.msg, ep, env.sendOk);
    DeliveriesToOne(cfg, s, p.msg, env);
    SweepKeeps(s.endpoints, p.msg, env.sendOk);
  }

  lemma TailOrdered(q: Parked, rest: seq<Parked>)
    requires Ascending([q] + rest, ParkedId)
    ensures Ascending(rest, ParkedId)
    ensures forall x | x in rest :: q.msg.id < x.msg.id
  {
    var all := [q] + rest;
    assert forall k | 0 <= k < |rest| :: all[k + 1] == rest[k];
    forall x | x in rest ensures ParkedId(q) < ParkedId(x) {
      var k :| 0 <= k < |rest| && rest[k] == x;
      assert all[k + 1] == x && all[0] == q;
    }
    forall i, j | 0 <= i < j < |rest| ensures ParkedId(rest[i]) < ParkedId(rest[j]) {
      assert all[i + 1] == rest[i] && all[j + 1] == rest[j];
    }
  }

  lemma AllSendsOkSplits(q: Parked, rest: seq<Parked>, p: Parked, ep: Endpoint, ok: (nat, nat) -> bool)
    requires p in [q] + rest && forall x | x in rest :: q.msg.id < x.msg.id
    ensures p == q ==> (AllSendsOk([q] + rest, p, ep, ok) <==> (Validate(p.msg.op, ep.tags) ==> ok(p.msg.id, ep.id)))
    ensures p != q ==> p in rest
    ensures p != q ==> (AllSendsOk([q] + rest, p, ep, ok) <==>
                        (Validate(q.msg.op, ep.tags) ==> ok(q.msg.id, ep.id)) && AllSendsOk(rest, p, ep, ok))
  {
  }

  ghost predicate Undelivered(s: Bus, queue: seq<Parked>) { forall q | q in queue :: q.msg.id !in DeliveredIds(s.log) }

  ghost predicate AllOnlyWantedBy(cfg: Config, s: Bus, queue: seq<Parked>, ep: Endpoint) {
    forall q | q in queue :: OnlyWantedBy(cfg, s, q.msg, ep)
  }

  lemma RestStaysOnlyWanted(cfg: Config, s: Bus, q: Parked, rest: seq<Parked>, ep: Endpoint, env: Env)
    requires EndpointsOk(s) && AllOnlyWantedBy(cfg, s, [q] + rest, ep) && Undelivered(s, [q] + rest)
    requires forall x | x in rest :: q.msg.id < x.msg.id
    ensures var h := Handle(cfg, s, q, env); AllOnlyWantedBy(cfg, h, rest, ep) && Undelivered(h, rest)
  {
    assert q in [q] + rest;
    SweepOfOne(cfg, s, q, ep, env);
    var h := Handle(cfg, s, q, env);
    forall x | x in rest ensures OnlyWantedBy(cfg, h, x.msg, ep) && x.msg.id !in DeliveredIds(h.log) {
      assert x in [q] + rest;
      assert OnlyWantedBy(cfg, s, x.msg, ep);
    }
  }

  /** Replay decides by label and connection alone: a queued message that only the newcomer wants is delivered exactly
      when it matches and no send to the newcomer has failed so far. */
  lemma {:induction false} ReplayDelivers(cfg: Config, s: Bus, queue: seq<Parked>, ep: Endpoint, env: Env, p: Parked)
    requires EndpointsOk(s) && Ascending(queue, ParkedId) && p in queue
    requires AllOnlyWantedBy(cfg, s, queue, ep) && Undelivered(s, queue)
    ensures p.msg.id in DeliveredIds(Replay(cfg, s, queue, env).log) <==>
            ep in s.endpoints && Validate(p.msg.op, ep.tags) && AllSendsOk(queue, p, ep, env.sendOk)
    decreases |queue|
  {
    var q, rest := queue[0], queue[1..];
    var h := Handle(cfg, s, q, env);
    assert queue == [q] + rest && q in queue;
    SweepOfOne(cfg, s, q, ep, env);
    TailOrdered(q, rest);
    AllSendsOkSplits(q, rest, p, ep, env.sendOk);
    if p == q {
      ReplayKeepsUnqueued(cfg, h, rest, env, p.msg.id);
    } else {
      RestStaysOnlyWanted(cfg, s, q, rest, ep, env);
      ReplayDelivers(cfg, h, rest, ep, env, p);
    }
  }

  /** Replay neither delivers nor takes back a message that is not in its queue. */
  lemma {:induction false} ReplayKeepsUnqueued(cfg: Config, s: Bus, queue: seq<Parked>, env: Env, id: nat)
    requires EndpointsOk(s) && forall q | q in queue :: q.msg.id != id
    ensures id in DeliveredIds(Replay(cfg, s, queue, env).log) <==> id in DeliveredIds(s.log)
    decreases |queue|
  {
    if queue != [] {
      var sent := Deliveries(cfg, s, queue[0].msg, env);
      RouteKeepsOthers(cfg, s, queue[0].msg, env, queue[0].msg);
      DeliveredIdsConcat(s.log, sent);
      DeliveredIdsOfOne(sent, queue[0].msg);
      ReplayKeepsUnqueued(cfg, Handle(cfg, s, queue[0], env), queue[1..], env, id);
    }
  }

  /** Right after an endpoint joins, everything parked is wanted by the newcomer or by nobody. */
  lemma NewcomerOnly(cfg: Config, s: Bus, reply: Remote, payload: Connect, env: Env)
    requires Inv(cfg, s, [])
    requires Admit(cfg, s, Some(reply), Some(payload), env).joined
    ensures var u := Admit(cfg, s, Some(reply), Some(payload), env).bus.(buffer := []);
      var ep := Endpoint(s.nextId, payload.tags, reply);
      && EndpointsOk(u)
      && ep in u.endpoints
      && Ascending(s.buffer, ParkedId)
      && AllOnlyWantedBy(cfg, u, s.buffer, ep)
      && Undelivered(u, s.buffer)
  {
    AdmitKeepsInv(cfg, s, reply, payload, env);
    var u, ep := Admit(cfg, s, Some(reply), Some(payload), env).bus.(buffer := []), Endpoint(s.nextId, payload.tags, reply);
    assert s.buffer + [] == s.buffer && u.buffer + s.buffer == s.buffer;
    assert ep == u.endpoints[|s.endpoints|];
    forall q | q in s.buffer ensures OnlyWantedBy(cfg, u, q.msg, ep) && q.msg.id !in DeliveredIds(u.log) {
      assert Unwanted(cfg, s, q.msg);
      assert q.msg.id in WaitingIds(s.buffer);
    }
  }

  /** The request is valid, its ack goes out, and nobody is registered with the same label and the same channel. */
  ghost predicate Admissible(cfg: Config, s: Bus, reply: Remote, payload: Connect, env: Env) {
    && payload.version.Compatible(cfg.version) && payload.token == cfg.token
    && env.ackOk
    && forall e | e in s.endpoints :: !(e.tags == payload.tags && e.remote == reply)
  }

  lemma AdmissibleJoins(cfg: Config, s: Bus, reply: Remote, payload: Connect, env: Env)
    ensures Admit(cfg, s, Some(reply), Some(payload), env).joined <==> Admissible(cfg, s, reply, payload, env)
  {
  }

  /** The bus that a newcomer has joined, with everything parked about to be replayed. */
  function Joined(s: Bus, reply: Remote, payload: Connect): Bus {
    s.(nextId := s.nextId + 1,
       endpoints := s.endpoints + [Endpoint(s.nextId, payload.tags, reply)],
       buffer := [],
       log := s.log + [Acked(reply, AckOk(s.nextId))])
  }

  lemma AdmissibleIsJoined(cfg: Config, s: Bus, reply: Remote, payload: Connect, env: Env)
    requires Admissible(cfg, s, reply, payload, env)
    ensures AdmitAndReplay(cfg, s, Some(reply), Some(payload), env) == Replay(cfg, Joined(s, reply, payload), s.buffer, env)
  {
    AdmissibleJoins(cfg, s, reply, payload, env);
    assert Admit(cfg, s, Some(reply), Some(payload), env).bus.(buffer := []) == Joined(s, reply, payload);
  }

  lemma ReplayAfterJoin(cfg: Config, s: Bus, reply: Remote, payload: Connect, env: Env, p: Parked)
    requires Inv(cfg, s, []) && p in s.buffer && Admissible(cfg, s, reply, payload, env)
    ensures p.msg.id in DeliveredIds(Replay(cfg, Joined(s, reply, payload), s.buffer, env).log) <==>
      && Validate(p.msg.op, payload.tags)
      && forall q | q in s.buffer && q.msg.id <= p.msg.id && Validate(q.msg.op, payload.tags) :: env.sendOk(q.msg.id, s.nextId)
  {
    AdmissibleJoins(cfg, s, reply, payload, env);
    NewcomerOnly(cfg, s, reply, payload, env);
    assert Admit(cfg, s, Some(reply), Some(payload), env).bus.(buffer := []) == Joined(s, reply, payload);
    ReplayDelivers(cfg, Joined(s, reply, payload), s.buffer, Endpoint(s.nextId, payload.tags, reply), env, p);
  }

  lemma ReplayAfterJoinKeepsLog(cfg: Config, s: Bus, reply: Remote, payload: Connect, env: Env, p: Parked)
    requires Inv(cfg, s, []) && p in s.buffer && Admissible(cfg, s, reply, payload, env)
    ensures var r := Replay(cfg, Joined(s, reply, payload), s.buffer, env);
      LogOk(cfg, r) && p.msg.id < |r.arrivals| && r.arrivals[p.msg.id] == p.msg
  {
    AdmissibleJoins(cfg, s, reply, payload, env);
    assert Admit(cfg, s, Some(reply), Some(payload), env).bus.(buffer := []) == Joined(s, reply, payload);
    AdmitKeepsInv(cfg, s, reply, payload, env);
    ReplayKeepsInv(cfg, Joined(s, reply, payload), s.buffer, env);
    ReplayKeepsArrivals(cfg, Joined(s, reply, payload), s.buffer, env);
    assert p in s.buffer + [];
  }

  /** When an endpoint joins, a parked message is delivered exactly when the newcomer matches and every send to it so
      far succeeded. Its expiry plays no part: an entry that is past its time, but not yet swept away, is delivered. */
  lemma JoinDelivers(cfg: Config, start: nat, turns: seq<Turn>, reply: Remote, payload: Connect, env: Env, p: Parked)
    requires p in Run(cfg, start, turns).buffer
    requires Admissible(cfg, Run(cfg, start, turns), reply, payload, env)
    ensures var s := Run(cfg, start, turns);
      var t := Step(cfg, s, ConnectRequest(Some(reply), Some(payload)), env);
      WasDelivered(t, p.msg) <==>
      && Validate(p.msg.op, payload.tags)
      && forall q | q in s.buffer && q.msg.id <= p.msg.id && Validate(q.msg.op, payload.tags) :: env.sendOk(q.msg.id, s.nextId)
  {
    var s := Run(cfg, start, turns);
    var r, t := Replay(cfg, Joined(s, reply, payload), s.buffer, env), Step(cfg, s, ConnectRequest(Some(reply), Some(payload)), env);
    Reachable(cfg, start, turns);
    ReplayAfterJoin(cfg, s, reply, payload, env, p);
    ReplayAfterJoinKeepsLog(cfg, s, reply, payload, env, p);
    AdmissibleIsJoined(cfg, s, reply, payload, env);
    DeliveredIdMeansDelivered(cfg, r, t, p.msg);
  }

  lemma DeliveredIdMeansDelivered(cfg: Config, r: Bus, t: Bus, m: Message)
    requires LogOk(cfg, r) && t.log == r.log
    requires m.id < |r.arrivals| ==> r.arrivals[m.id] == m
    ensures WasDelivered(t, m) <==> m.id in DeliveredIds(r.log)
  {
  }

  lemma {:induction false} ReplayKeepsArrivals(cfg: Config, s: Bus, queue: seq<Parked>, env: Env)
    ensures Replay(cfg, s, queue, env).arrivals == s.arrivals
    decreases |queue|
  {
    if queue != [] {
      ReplayKeepsArrivals(cfg, Handle(cfg, s, queue[0], env), queue[1..], env);
    }
  }

  /** A message that nobody wants, with time to live, is parked by an empty controller. */
  lemma FirstMessageParks(cfg: Config, i: Input, env: Env)
    requires i.Ordinary? && !Validate(i.op, cfg.tags) && i.ttl > 0 && env.now <= DETECT_PERIOD
    ensures var m := Message(0, env.now, i.op, i.mode, i.ttl);
      Step(cfg, Init(0), i, env) == Bus([], [Parked(env.now + i.ttl, m)], 0, true, 0, [], [m], [])
  {
  }

  lemma {:induction false} SkipsKeepBuffer(cfg: Config, start: nat, turns: seq<Turn>, skipped: seq<Turn>)
    requires forall turn | turn in skipped :: Skips(turn.input)
    ensures var s, t := Run(cfg, start, turns), Run(cfg, start, turns + skipped);
      t.buffer == s.buffer && t.endpoints == s.endpoints && t.nextId == s.nextId
  {
    if skipped == [] {
      assert turns + skipped == turns;
    } else {
      var front, last := skipped[..|skipped| - 1], skipped[|skipped| - 1];
      assert last in skipped && (turns + skipped)[..|turns + skipped| - 1] == turns + front;
      SkipsKeepBuffer(cfg, start, turns, front);
    }
  }

  lemma ParkedAndSkipped(cfg: Config, i: Input, first: Env, skipped: seq<Turn>)
    requires i.Ordinary? && !Validate(i.op, cfg.tags) && i.ttl > 0 && first.now <= DETECT_PERIOD
    requires forall turn | turn in skipped :: Skips(turn.input)
    ensures var s := Run(cfg, 0, [Turn(i, first)] + skipped);
      && s.buffer == [Parked(first.now + i.ttl, Message(0, first.now, i.op, i.mode, i.ttl))]
      && s.endpoints == [] && s.nextId == 0
  {
    assert [Turn(i, first)][..0] == [] && Run(cfg, 0, []) == Init(0);
    assert Run(cfg, 0, [Turn(i, first)]) == Step(cfg, Init(0), i, first);
    FirstMessageParks(cfg, i, first);
    SkipsKeepBuffer(cfg, 0, [Turn(i, first)], skipped);
  }

  /** A message that an empty controller has parked is delivered to a matching client whose ack and send succeed if that
      client's request is the next thing the controller serves, however late it comes. In between there may be any number
      of failed receives and of frames of foreign versions, which reach no housekeeping; anything else that is served
      after the expiry sweeps the message away. */
  lemma ParkedOutlivesExpiry(
      cfg: Config, i: Input, first: Env, skipped: seq<Turn>, reply: Remote, payload: Connect, later: Env)
    requires i.Ordinary? && !Validate(i.op, cfg.tags) && Validate(i.op, payload.tags)
    requires i.ttl > 0 && first.now <= DETECT_PERIOD
    requires forall turn | turn in skipped :: Skips(turn.input)
    requires payload.version.Compatible(cfg.version) && payload.token == cfg.token
    requires later.ackOk && later.sendOk(0, 0)
    ensures var join := Turn(ConnectRequest(Some(reply), Some(payload)), later);
      WasDelivered(Run(cfg, 0, [Turn(i, first)] + skipped + [join]), Message(0, first.now, i.op, i.mode, i.ttl))
  {
    var turns, join := [Turn(i, first)] + skipped, Turn(ConnectRequest(Some(reply), Some(payload)), later);
    var s, p := Run(cfg, 0, turns), Parked(first.now + i.ttl, Message(0, first.now, i.op, i.mode, i.ttl));
    ParkedAndSkipped(cfg, i, first, skipped);
    JoinDelivers(cfg, 0, turns, reply, payload, later, p);
    assert (turns + [join])[..|turns|] == turns;
    assert Run(cfg, 0, turns + [join]) == Step(cfg, s, join.input, later);
  }

  /** In particular, a message with a time to live of 1 is delivered 99 time units after it expired. */
  lemma LateDeliveryHappens(cfg: Config, ok: Env)
    requires cfg == Config([], "", Version(0, 8, 0))
    requires ok.ackOk && ok.now == 0 && ok.sendOk(0, 0)
    ensures var join := ConnectRequest(Some(7), Some(Connect(cfg.version, "", ["moon"])));
      WasDelivered(Run(cfg, 0, [Turn(Ordinary(Leaf("moon"), Unicast, 1), ok), Turn(join, ok.(now := 100))]),
                   Message(0, 0, Leaf("moon"), Unicast, 1))
  {
    assert "moon" in ["moon"];
    var i, join := Ordinary(Leaf("moon"), Unicast, 1), Connect(cfg.version, "", ["moon"]);
    ParkedOutlivesExpiry(cfg, i, ok, [], 7, join, ok.(now := 100));
    assert [Turn(i, ok)] + [] + [Turn(ConnectRequest(Some(7), Some(join)), ok.(now := 100))] ==
           [Turn(i, ok), Turn(ConnectRequest(Some(7), Some(join)), ok.(now := 100))];
  }
}
