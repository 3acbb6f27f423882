/** Waking a hub that sleeps in epoll: senders enqueue and then write to an eventfd; the hub looks at the queue, sleeps,
    and clears the eventfd. */
module IoHubs {
  /** What epoll reports. A local socket either has something for us, or is no longer known. */
  datatype Ev = Waker | Listener | Local(known: bool, id: nat)

  /** `Draining` goes through what epoll has reported; `Returned` is between two calls of `recv`. */
  datatype HubState = Trying | Waiting | Draining(events: seq<Ev>) | Returned

  /** `counter` is the eventfd; `owing` are the messages whose senders have enqueued but not yet written to it. */
  datatype System = System(queue: seq<nat>, counter: nat, owing: set<nat>, hub: HubState, sent: seq<nat>, taken: seq<nat>)

  datatype Action =
    | Enqueue(m: nat)
    | Wake(m: nat)
    | HubCall
    | HubTry
    | HubReports(events: seq<Ev>)
    | HubTimesOut
    | HubEvent

  ghost predicate Distinct(events: seq<Ev>) { forall i, j | 0 <= i < j < |events| :: events[i] != events[j] }

  /** epoll reports each ready descriptor at most once per call; the eventfd is ready when its counter is positive. A read
      of an eventfd at zero blocks. */
  ghost predicate Enabled(s: System, a: Action) {
    match a
    case Enqueue(m) => m !in s.sent
    case Wake(m) => m in s.owing
    case HubCall => s.hub.Returned?
    case HubTry => s.hub.Trying?
    case HubReports(events) => s.hub.Waiting? && events != [] && Distinct(events) && (Waker in events ==> s.counter > 0)
    case HubTimesOut => s.hub.Waiting?
    case HubEvent => s.hub.Draining? && !Blocks(s)
  }

  /** The hub is about to read the eventfd and would hang. */
  predicate Blocks(s: System) { s.hub.Draining? && s.hub.events != [] && s.hub.events[0].Waker? && s.counter == 0 }

  function Next(s: System, a: Action): System {
    match a
    case Enqueue(m) => s.(queue := s.queue + [m], owing := s.owing + {m}, sent := s.sent + [m])
    case Wake(m) => s.(counter := s.counter + 1, owing := s.owing - {m})
    case HubCall => s.(hub := Trying)
    case HubTry =>
      if s.queue != [] then s.(queue := s.queue[1..], taken := s.taken + [s.queue[0]], hub := Returned)
      else s.(hub := Waiting)
    case HubReports(events) => s.(hub := Draining(events))
    case HubTimesOut => s.(hub := Returned)
    case HubEvent =>
      if !s.hub.Draining? then s
      else if s.hub.events == [] then s.(hub := Trying)
      else
        match s.hub.events[0]
        case Waker => s.(counter := 0, hub := Draining(s.hub.events[1..]))
        case Listener => s.(hub := Draining(s.hub.events[1..]))
        case Local(known, _) => s.(hub := if known then Returned else Draining(s.hub.events[1..]))
  }

  const Start: System := System([], 0, {}, Returned, [], [])

  ghost predicate IsRun(states: seq<System>, acts: seq<Action>) {
    && |states| == |acts| + 1
    && states[0] == Start
    && forall i | 0 <= i < |acts| :: Enabled(states[i], acts[i]) && states[i + 1] == Next(states[i], acts[i])
  }

  /** Whoever waits in the queue still owes its wake, or the eventfd is set. */
  ghost predicate Covered(s: System) { s.counter == 0 ==> forall m | m in s.queue :: m in s.owing }

  ghost predicate Inv(s: System) {
    && (s.hub.Waiting? ==> Covered(s))
    && (s.hub.Draining? ==> Distinct(s.hub.events) && (Waker in s.hub.events ==> s.counter > 0))
    && s.sent == s.taken + s.queue
    && (forall m | m in s.owing :: m in s.sent)
  }

  lemma NextKeepsInv(s: System, a: Action)
    requires Inv(s) && Enabled(s, a)
    ensures Inv(Next(s, a))
  {
  }

  lemma {:induction false} RunKeepsInv(states: seq<System>, acts: seq<Action>, i: nat)
    requires IsRun(states, acts) && i < |states|
    ensures Inv(states[i])
  {
    if i > 0 {
      RunKeepsInv(states, acts, i - 1);
      NextKeepsInv(states[i - 1], acts[i - 1]);
    }
  }

  /** No lost wake-up: whenever the hub sleeps on a zero eventfd, every queued message belongs to a sender that is still
      going to wake it. */
  lemma NoLostWakeUp(states: seq<System>, acts: seq<Action>, i: nat)
    requires IsRun(states, acts) && i < |states| && states[i].hub.Waiting? && states[i].counter == 0
    ensures forall m | m in states[i].queue :: m in states[i].owing
  {
    RunKeepsInv(states, acts, i);
  }

  /** The hub never reads the eventfd at zero, so clearing it never blocks. */
  lemma ClearNeverBlocks(states: seq<System>, acts: seq<Action>, i: nat)
    requires IsRun(states, acts) && i < |states|
    ensures !Blocks(states[i])
  {
    RunKeepsInv(states, acts, i);
    if states[i].hub.Draining? && states[i].hub.events != [] {
      assert states[i].hub.events[0] in states[i].hub.events;
    }
  }

  /** Messages leave the queue in the order in which they entered it, each once, and none is lost. */
  lemma QueueIsFifo(states: seq<System>, acts: seq<Action>, i: nat)
    requires IsRun(states, acts) && i < |states|
    ensures states[i].taken + states[i].queue == states[i].sent == Enqueued(acts[..i])
  {
    RunKeepsInv(states, acts, i);
    SentWasEnqueued(states, acts, i);
  }

  /** The messages that senders put into the queue, in order, from the actions alone. */
  function Enqueued(acts: seq<Action>): seq<nat> {
    if acts == [] then []
    else
      var a := acts[|acts| - 1];
      Enqueued(acts[..|acts| - 1]) + if a.Enqueue? then [a.m] else []
  }

  lemma {:induction false} SentWasEnqueued(states: seq<System>, acts: seq<Action>, i: nat)
    requires IsRun(states, acts) && i < |states|
    ensures states[i].sent == Enqueued(acts[..i])
  {
    if i > 0 {
      SentWasEnqueued(states, acts, i - 1);
      assert acts[..i][..i - 1] == acts[..i - 1] && acts[..i][i - 1] == acts[i - 1];
    }
  }

  /** What the hub makes of a reported event: the waker resets the eventfd and it goes on; so it does after a new connection
      and after a socket that is gone; a known socket ends the call. When all events are looked at it tries the queue again. */
  lemma DrainOutcome(states: seq<System>, acts: seq<Action>, i: nat)
    requires IsRun(states, acts) && i < |acts| && acts[i].HubEvent?
    ensures states[i].hub.Draining?
    ensures var s, u := states[i], states[i + 1]; var events := s.hub.events;
      && (events == [] ==> u.hub.Trying?)
      && (events != [] && events[0].Waker? ==> u.counter == 0)
      && (events == [] || !events[0].Waker? ==> u.counter == s.counter)
      && (events != [] ==> u.hub == if events[0].Local? && events[0].known then Returned else Draining(events[1..]))
  {
  }

  /** A sleeping hub with an undelivered message that no sender owes a wake for can be woken, and then takes the message. */
  lemma SleeperDelivers(states: seq<System>, acts: seq<Action>, i: nat)
    requires IsRun(states, acts) && i < |states|
    requires states[i].hub.Waiting? && states[i].queue != [] && states[i].queue[0] !in states[i].owing
    ensures Enabled(states[i], HubReports([Waker]))
    ensures var s1 := Next(states[i], HubReports([Waker]));
      && Enabled(s1, HubEvent)
      && var s2 := Next(s1, HubEvent);
         && Enabled(s2, HubEvent)
         && var s3 := Next(s2, HubEvent);
            && Enabled(s3, HubTry)
            && Next(s3, HubTry).taken == states[i].taken + [states[i].queue[0]]
  {
    RunKeepsInv(states, acts, i);
    assert states[i].queue[0] in states[i].queue;
  }

  // ---------- the hub as an object ----------

  datatype SenderStep = Enqueued(m: nat) | Woke(m: nat)

  /** One turn of the receive loop as the world arranges it: what senders do before the hub looks at the queue, before it
      goes to sleep, and while it sleeps; what else epoll reports; and whether it reports the eventfd before or after. */
  datatype Moment = Moment(
    beforeTry: seq<SenderStep>, beforeWait: seq<SenderStep>, asleep: seq<SenderStep>, draining: seq<SenderStep>,
    before: seq<Ev>, wakerToo: bool, after: seq<Ev>)

  datatype Received = FromBus(m: nat) | FromLocal(id: nat) | TimedOut | StillLooping

  class IoHub {
    var queue: seq<nat>
    var counter: nat
    var owing: set<nat>
    var sent: seq<nat>
    ghost var taken: seq<nat>

    ghost predicate Valid()
      reads this
    {
      sent == taken + queue && forall m | m in owing :: m in sent
    }

    constructor ()
      ensures Valid() && sent == [] && counter == 0
    {
      queue, counter, owing, sent, taken := [], 0, {}, [], [];
    }

    /** `IoMultiplexing::wake`. */
    method Wake()
      modifies this`counter
      ensures counter == old(counter) + 1
    {
      counter := counter + 1;
    }

    /** `IoMultiplexing::clear_waker`; a read of an eventfd at zero would block, hence the precondition. */
    method ClearWaker()
      requires counter > 0
      modifies this`counter
      ensures counter == 0
    {
      counter := 0;
    }

    /** Steps of other threads; steps nobody can take are passed over. */
    method Interfere(steps: seq<SenderStep>)
      requires Valid()
      modifies this`queue, this`counter, this`owing, this`sent
      ensures Valid() && old(sent) <= sent && counter >= old(counter)
      ensures old(Covered(System(queue, counter, owing, Waiting, sent, taken))) ==>
        Covered(System(queue, counter, owing, Waiting, sent, taken))
    {
      for i := 0 to |steps|
        invariant Valid() && old(sent) <= sent && counter >= old(counter)
        invariant old(Covered(System(queue, counter, owing, Waiting, sent, taken))) ==>
          Covered(System(queue, counter, owing, Waiting, sent, taken))
      {
        match steps[i] {
          case Enqueued(m) =>
            if m !in sent {
              queue, sent, owing := queue + [m], sent + [m], owing + {m};
            }
          case Woke(m) =>
            if m in owing {
              owing := owing - {m};
              Wake();
            }
        }
      }
    }

    /** `IoMultiplexing::wait`: refill the events; the eventfd can only be among them when it is set. */
    method Wait(before: seq<Ev>, wakerToo: bool, after: seq<Ev>) returns (events: seq<Ev>)
      requires Waker !in before && Waker !in after
      ensures events == before + (if wakerToo && counter > 0 then [Waker] else []) + after
    {
      events := before + (if wakerToo && counter > 0 then [Waker] else []) + after;
    }

    /** `IoHub::recv`. At the point where it sleeps, the queue is covered, whatever the senders did in the meantime; and it
        clears the eventfd only when it is set. A call takes at most one message off the queue, always the oldest. */
    method Recv(script: seq<Moment>) returns (r: Received)
      requires Valid()
      requires forall x | x in script :: Waker !in x.before && Waker !in x.after
      modifies this
      ensures Valid() && old(sent) <= sent
      ensures taken == old(taken) + (if r.FromBus? then [r.m] else [])
      ensures r.FromLocal? ==> exists x :: x in script && Local(true, r.id) in x.before + x.after
      ensures r.TimedOut? ==> exists x :: x in script && x.before == [] && x.after == []
    {
      for i := 0 to |script|
        invariant Valid() && old(sent) <= sent && taken == old(taken)
      {
        var x := script[i];
        assert x in script;
        Interfere(x.beforeTry);
        if queue != [] {
          r := FromBus(queue[0]);
          assert taken + queue == taken + [queue[0]] + queue[1..];
          taken := taken + [queue[0]];
          queue := queue[1..];
          return;
        }
        assert Covered(System(queue, counter, owing, Waiting, sent, taken));
        Interfere(x.beforeWait);
        Interfere(x.asleep);
        assert counter == 0 ==> forall m | m in queue :: m in owing;
        var events := Wait(x.before, x.wakerToo, x.after);
        if events == [] {
          return TimedOut;
        }
        ghost var woken := counter;
        ghost var cleared := false;
        for j := 0 to |events|
          invariant Valid() && old(sent) <= sent && taken == old(taken)
          invariant !cleared ==> counter >= woken
          invariant cleared ==> exists k :: 0 <= k < j && events[k].Waker?
        {
          Interfere(x.draining);
          match events[j] {
            case Waker =>
              WakerOnce(x.before, x.after, events, j, woken > 0 && x.wakerToo);
              ClearWaker();
              cleared := true;
            case Listener =>
            case Local(known, id) =>
              if known {
                return FromLocal(id);
              }
          }
        }
      }
      return StillLooping;
    }
  }

  lemma WakerOnce(before: seq<Ev>, after: seq<Ev>, events: seq<Ev>, j: nat, present: bool)
    requires Waker !in before && Waker !in after && events == before + (if present then [Waker] else []) + after
    requires j < |events| && events[j].Waker?
    ensures present && j == |before| && forall k | 0 <= k < j :: !events[k].Waker?
  {
  }
}
