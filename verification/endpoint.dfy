/** How the senders and the receiver of one endpoint share a connection, and replace it when it breaks. */
module Endpoints {
  /** Epochs are 32-bit and wrap around. */
  const EPOCHS: nat := 0x1_0000_0000

  /** What the lock protects. A client may have lost its io hub; `receiver` is the queue behind a local controller. */
  datatype Rule =
    | Client(epoch: nat, hub: bool, readerClosed: bool)
    | Server(receiver: bool)

  datatype JoinResult = JoinedClient | JoinedServer | JoinFailed

  function ReaderClose(rule: Rule): Rule {
    match rule
    case Client(epoch, _, _) => Client(epoch, false, true)
    case Server(_) => Server(false)
  }

  function JoinedAs(result: JoinResult, epoch: nat): Rule
    requires !result.JoinFailed?
  {
    if result.JoinedClient? then Client(epoch, true, false) else Server(true)
  }

  /** The section under the write lock: replace the connection, unless somebody else has. */
  function Rejoin(rule: Rule, epoch: nat, result: JoinResult): Rule {
    if rule.Server? || rule.epoch != epoch then rule
    else if result.JoinFailed? then rule.(hub := false)
    else
      var joined := JoinedAs(result, (epoch + 1) % EPOCHS);
      if rule.readerClosed then ReaderClose(joined) else joined
  }

  predicate Replaces(rule: Rule, epoch: nat, result: JoinResult) {
    rule.Client? && rule.epoch == epoch && !result.JoinFailed?
  }

  // ---------- the threads ----------

  /** A call of `send`. A stale thread has seen a disconnect under the read lock and waits for the write lock; it knows
      the epoch it saw, and the model also the generation. */
  datatype SendState = Trying | SendStale(epoch: nat, seen: nat) | Returned(ok: bool)

  /** The one receiver. `Gone` once it has been dropped. */
  datatype RecvState = Outside | Receiving | RecvStale(epoch: nat, seen: nat) | Panicked | Gone

  /** A successful rejoin: which connection it replaced. */
  datatype Replacement = Replacement(epoch: nat, generation: nat)

  datatype System = System(
    rule: Rule,
    generation: nat,
    sends: map<nat, SendState>,
    recv: RecvState,
    replaced: seq<Replacement>)

  datatype RecvResult = GotMessage | GotForeign | GotTimeout | GotGarbage | GotDisconnect

  datatype Action =
    | SendBegin(call: nat)
    | SendTry(call: nat, delivered: bool)
    | SendRejoin(call: nat, joined: JoinResult)
    | RecvBegin
    | RecvTry(got: RecvResult)
    | RecvRejoin(joined: JoinResult)
    | ReceiverDrop

  /** The queue behind a local controller never disconnects: the controller's thread runs for ever. */
  ghost predicate Enabled(s: System, a: Action) {
    match a
    case SendBegin(c) => c !in s.sends
    case SendTry(c, _) => c in s.sends && s.sends[c].Trying?
    case SendRejoin(c, _) => c in s.sends && s.sends[c].SendStale?
    case RecvBegin => s.recv.Outside?
    case RecvTry(got) => s.recv.Receiving? && (s.rule.Server? ==> !got.GotDisconnect?)
    case RecvRejoin(_) => s.recv.RecvStale?
    case ReceiverDrop => s.recv.Outside?
  }

  /** The write-locked section of any thread. */
  function Replace(s: System, epoch: nat, result: JoinResult): System {
    s.(rule := Rejoin(s.rule, epoch, result),
       generation := if Replaces(s.rule, epoch, result) then s.generation + 1 else s.generation,
       replaced := if Replaces(s.rule, epoch, result) then s.replaced + [Replacement(epoch, s.generation)] else s.replaced)
  }

  predicate FailsIn(s: System, epoch: nat, result: JoinResult) {
    s.rule.Client? && s.rule.epoch == epoch && result.JoinFailed?
  }

  /** What `recv` does under the read lock. */
  function RecvUnderLock(s: System, result: RecvResult): RecvState {
    match s.rule
    case Client(epoch, hub, readerClosed) =>
      if !readerClosed && !hub then RecvStale(epoch, s.generation)
      else if !hub then Panicked
      else if result.GotDisconnect? then RecvStale(epoch, s.generation)
      else if result.GotForeign? then Receiving
      else Outside
    case Server(receiver) =>
      if !receiver then Panicked
      else if result.GotForeign? then Receiving
      else Outside
  }

  function Next(s: System, a: Action): System
    requires Enabled(s, a)
  {
    match a
    case SendBegin(c) => s.(sends := s.sends[c := Trying])
    case SendTry(c, delivered) =>
      if s.rule.Client? && !delivered then s.(sends := s.sends[c := SendStale(s.rule.epoch, s.generation)])
      else s.(sends := s.sends[c := Returned(true)])
    case SendRejoin(c, result) =>
      var epoch := s.sends[c].epoch;
      Replace(s, epoch, result).(sends := s.sends[c := if FailsIn(s, epoch, result) then Returned(false) else Trying])
    case RecvBegin => s.(recv := Receiving)
    case RecvTry(result) => s.(recv := RecvUnderLock(s, result))
    case RecvRejoin(result) =>
      var epoch := s.recv.epoch;
      Replace(s, epoch, result).(recv := if FailsIn(s, epoch, result) then Outside else Receiving)
    case ReceiverDrop => s.(rule := ReaderClose(s.rule), recv := Gone)
  }

  /** The state right after the first, successful join. */
  predicate Initial(s: System) {
    && (s.rule == Client(0, true, false) || s.rule == Server(true))
    && s.generation == 0 && s.sends == map[] && s.recv.Outside? && s.replaced == []
  }

  // ---------- the invariant ----------

  predicate ReaderIsClosed(rule: Rule) { if rule.Client? then rule.readerClosed else !rule.receiver }

  ghost predicate RuleOk(s: System) {
    && (s.rule.Client? ==> s.rule.epoch == s.generation % EPOCHS)
    && (s.rule.Client? && s.rule.readerClosed ==> !s.rule.hub)
    && (ReaderIsClosed(s.rule) <==> s.recv.Gone?)
    && !s.recv.Panicked?
  }

  ghost predicate StaleOk(s: System) {
    && (s.recv.RecvStale? ==> s.recv.epoch == s.recv.seen % EPOCHS && s.recv.seen <= s.generation)
    && forall c | c in s.sends && s.sends[c].SendStale? ::
         s.sends[c].epoch == s.sends[c].seen % EPOCHS && s.sends[c].seen <= s.generation
  }

  ghost predicate ReplacedOk(s: System) {
    && |s.replaced| == s.generation
    && forall i | 0 <= i < |s.replaced| :: s.replaced[i] == Replacement(i % EPOCHS, i)
  }

  ghost predicate Inv(s: System) { RuleOk(s) && StaleOk(s) && ReplacedOk(s) }

  lemma NextEpoch(generation: nat)
    ensures (generation % EPOCHS + 1) % EPOCHS == (generation + 1) % EPOCHS
  {
  }

  lemma NextKeepsRule(s: System, a: Action)
    requires Inv(s) && Enabled(s, a)
    ensures RuleOk(Next(s, a))
  {
    NextEpoch(s.generation);
  }

  lemma NextKeepsStale(s: System, a: Action)
    requires Inv(s) && Enabled(s, a)
    ensures StaleOk(Next(s, a))
  {
  }

  lemma NextKeepsReplaced(s: System, a: Action)
    requires RuleOk(s) && ReplacedOk(s) && Enabled(s, a)
    ensures ReplacedOk(Next(s, a))
  {
  }

  lemma NextKeepsInv(s: System, a: Action)
    requires Inv(s) && Enabled(s, a)
    ensures Inv(Next(s, a))
  {
    NextKeepsRule(s, a);
    NextKeepsStale(s, a);
    NextKeepsReplaced(s, a);
  }

  ghost predicate IsRun(states: seq<System>, acts: seq<Action>) {
    && |states| == |acts| + 1
    && Initial(states[0])
    && forall i | 0 <= i < |acts| :: Enabled(states[i], acts[i]) && states[i + 1] == Next(states[i], acts[i])
  }

  lemma {:induction false} RunKeepsInv(states: seq<System>, acts: seq<Action>, i: nat)
    requires IsRun(states, acts) && i < |states|
    ensures Inv(states[i])
  {
    if i > 0 {
      RunKeepsInv(states, acts, i - 1);
      NextKeepsInv(states[i - 1], acts[i - 1]);
    }
  }

  // ---------- what holds of every interleaving ----------

  /** How often, in the first `i` steps, the message of call `c` really left: as a frame that the system delivered, or into
      the queue of the local controller. */
  ghost function HandOffs(states: seq<System>, acts: seq<Action>, i: nat, c: nat): nat
    requires |states| == |acts| + 1 && i <= |acts|
  {
    if i == 0 then 0
    else
      var s, a := states[i - 1], acts[i - 1];
      HandOffs(states, acts, i - 1, c) +
      if a.SendTry? && a.call == c && (a.delivered || s.rule.Server?) then 1 else 0
  }

  /** Exact hand-off: a call that returned Ok has handed its message off exactly once, to the controller or to the local
      queue; a call that returned an error, or is still trying, not at all. */
  lemma {:induction false} ExactHandOff(states: seq<System>, acts: seq<Action>, i: nat, c: nat)
    requires IsRun(states, acts) && i < |states|
    ensures HandOffs(states, acts, i, c) == if c in states[i].sends && states[i].sends[c] == Returned(true) then 1 else 0
  {
    if i > 0 {
      ExactHandOff(states, acts, i - 1, c);
    }
  }

  /** What an attempt to send comes to: it returns Ok if the frame was delivered or the endpoint is the controller, and
      otherwise goes to rejoin the connection it was made on; it never replaces the connection itself. */
  lemma SendTryOutcome(states: seq<System>, acts: seq<Action>, i: nat)
    requires IsRun(states, acts) && i < |acts| && acts[i].SendTry?
    ensures var s, u, a := states[i], states[i + 1], acts[i];
      && a.call in u.sends
      && u.sends[a.call] ==
         (if a.delivered || s.rule.Server? then Returned(true) else SendStale(s.rule.epoch, s.generation))
      && u.rule == s.rule && u.generation == s.generation
  {
  }

  /** What a turn of a live receiver comes to, under the read lock: it goes to rejoin if and only if the endpoint is a client
      whose hub is missing or reports a disconnect; it goes on if the message is of a foreign type or for another label; and
      otherwise the call ends. */
  lemma RecvTryOutcome(states: seq<System>, acts: seq<Action>, i: nat)
    requires IsRun(states, acts) && i < |acts| && acts[i].RecvTry?
    ensures var s, u, got := states[i], states[i + 1], acts[i].got;
      && u.recv ==
         (if s.rule.Client? && (!s.rule.hub || got.GotDisconnect?) then RecvStale(s.rule.epoch, s.generation)
          else if got.GotForeign? then Receiving
          else Outside)
      && u.rule == s.rule && u.generation == s.generation
  {
    RunKeepsInv(states, acts, i);
    RunKeepsInv(states, acts, i + 1);
  }

  /** A closed reader has no io hub, and stays closed through every rejoin, as client or as server; an open receiver never
      runs into either `expect`. */
  lemma ReaderStateHolds(states: seq<System>, acts: seq<Action>, i: nat)
    requires IsRun(states, acts) && i < |states|
    ensures var s := states[i];
      && (s.rule.Client? && s.rule.readerClosed ==> !s.rule.hub)
      && (s.recv.Gone? <==> ReaderIsClosed(s.rule))
      && !s.recv.Panicked?
  {
    RunKeepsInv(states, acts, i);
  }

  lemma {:induction false} GoneIsForever(states: seq<System>, acts: seq<Action>, i: nat, j: nat)
    requires IsRun(states, acts) && i <= j < |states| && states[i].recv.Gone?
    ensures states[j].recv.Gone? && ReaderIsClosed(states[j].rule)
  {
    RunKeepsInv(states, acts, j);
    if i < j {
      GoneIsForever(states, acts, i, j - 1);
    }
  }

  /** The write-locked section of a thread whose join fails. */
  ghost predicate FailsAt(s: System, a: Action)
    requires Enabled(s, a)
  {
    (a.SendRejoin? || a.RecvRejoin?) && Matches(s, a) && a.joined.JoinFailed?
  }

  /** A failed rejoin leaves the old connection without an io hub, and the reader as it was: open, unless the receiver has
      been dropped. */
  lemma FailedRejoinLeaves(states: seq<System>, acts: seq<Action>, f: nat)
    requires IsRun(states, acts) && f < |acts| && FailsAt(states[f], acts[f])
    ensures var u := states[f + 1];
      && u.rule == states[f].rule.(hub := false)
      && u.generation == states[f].generation
      && (u.rule.readerClosed <==> u.recv.Gone?)
  {
    RunKeepsInv(states, acts, f + 1);
  }

  lemma {:induction false} GenerationGrows(states: seq<System>, acts: seq<Action>, i: nat, j: nat)
    requires IsRun(states, acts) && i <= j < |states|
    ensures states[i].generation <= states[j].generation
  {
    if i < j {
      GenerationGrows(states, acts, i, j - 1);
    }
  }

  /** A missing hub stays missing until the connection is replaced, whatever the other threads try. */
  lemma {:induction false} HubStaysMissing(states: seq<System>, acts: seq<Action>, i: nat, j: nat)
    requires IsRun(states, acts) && i <= j < |states|
    requires states[i].rule.Client? && !states[i].rule.hub && states[j].generation == states[i].generation
    ensures states[j].rule == Client(states[i].rule.epoch, false, states[j].recv.Gone?)
  {
    RunKeepsInv(states, acts, j);
    if i < j {
      GenerationGrows(states, acts, i, j - 1);
      GenerationGrows(states, acts, j - 1, j);
      HubStaysMissing(states, acts, i, j - 1);
      HubStaysMissingOnce(states[j - 1], acts[j - 1]);
    }
  }

  lemma HubStaysMissingOnce(s: System, a: Action)
    requires Enabled(s, a) && s.rule.Client? && !s.rule.hub && Next(s, a).generation == s.generation
    ensures Next(s, a).rule.Client? && !Next(s, a).rule.hub && Next(s, a).rule.epoch == s.rule.epoch
  {
  }

  /** A receiver that waits for the write lock waits until it gets it. */
  lemma {:induction false} StaleRecvWaits(states: seq<System>, acts: seq<Action>, i: nat, j: nat)
    requires IsRun(states, acts) && i <= j < |states| && states[i].recv.RecvStale?
    requires forall k | i <= k < j :: !acts[k].RecvRejoin?
    ensures states[j].recv == states[i].recv
  {
    if i < j {
      StaleRecvWaits(states, acts, i, j - 1);
    }
  }

  /** However long after a failed rejoin, with whatever other threads do in between: unless one of them has replaced the
      connection, the next `recv` does not touch the missing hub but goes to rejoin. */
  lemma NextRecvGoesToRejoin(states: seq<System>, acts: seq<Action>, f: nat, i: nat)
    requires IsRun(states, acts) && f < i < |acts| && FailsAt(states[f], acts[f]) && acts[i].RecvTry?
    ensures states[f].generation <= states[i].generation && !states[i + 1].recv.Panicked?
    ensures states[i].generation == states[f].generation ==>
      && states[i].rule == Client(states[f].rule.epoch, false, false)
      && states[i + 1].recv == RecvStale(states[f].rule.epoch, states[f].generation)
  {
    FailedRejoinLeaves(states, acts, f);
    GenerationGrows(states, acts, f, i);
    RunKeepsInv(states, acts, i + 1);
    if states[i].generation == states[f].generation {
      HubStaysMissing(states, acts, f + 1, i);
    }
  }

  /** And what that `recv` then does when it gets the write lock, at `j`. If nobody has replaced the connection meanwhile, it
      joins once: success gives the receiver a hub or a queue and it goes on receiving, failure ends the call and leaves the
      state as it was, for the next one. If somebody has, it leaves the new connection alone and goes on receiving. */
  lemma NextRecvRepairs(states: seq<System>, acts: seq<Action>, i: nat, j: nat)
    requires IsRun(states, acts) && i < j < |acts| && acts[i].RecvTry? && acts[j].RecvRejoin?
    requires states[i].rule.Client? && !states[i].rule.hub
    requires forall k | i < k < j :: !acts[k].RecvRejoin?
    ensures var s, u, seen, result := states[j], states[j + 1], states[i].generation, acts[j].joined;
      && s.recv == RecvStale(states[i].rule.epoch, seen)
      && seen <= s.generation
      && (s.generation == seen ==>
            && s.rule == Client(states[i].rule.epoch, false, false)
            && u.rule == 
               (if result.JoinFailed? then s.rule
                else if result.JoinedClient? then Client((s.rule.epoch + 1) % EPOCHS, true, false)
                else Server(true))
            && u.generation == (if result.JoinFailed? then seen else seen + 1)
            && u.recv == (if result.JoinFailed? then Outside else Receiving))
      && (seen < s.generation && (s.rule.Server? || s.generation < seen + EPOCHS) ==>
            u.rule == s.rule && u.generation == s.generation && u.recv == Receiving)
  {
    RunKeepsInv(states, acts, i);
    StaleRecvWaits(states, acts, i + 1, j);
    GenerationGrows(states, acts, i, j);
    TearsDownIff(states, acts, j);
    if states[j].generation == states[i].generation {
      HubStaysMissing(states, acts, i, j);
    }
  }

  /** The connection a stale thread saw. */
  ghost function SeenBy(s: System, a: Action): nat
    requires Enabled(s, a) && (a.SendRejoin? || a.RecvRejoin?)
  {
    if a.SendRejoin? then s.sends[a.call].seen else s.recv.seen
  }

  /** Epoch safety, exactly. A stale thread replaces the current connection if and only if it is still a client's and the
      number of rejoins since the thread saw its disconnect is a multiple of 2^32. Then it joins once: as client or as
      controller, with the reader closed if the receiver has been dropped; or, if that fails, it leaves the connection
      without a hub, and this, and nothing else, makes the call return an error. */
  lemma TearsDownIff(states: seq<System>, acts: seq<Action>, i: nat)
    requires IsRun(states, acts) && i < |acts| && (acts[i].SendRejoin? || acts[i].RecvRejoin?)
    ensures var s, u, a := states[i], states[i + 1], acts[i]; var seen := SeenBy(s, a);
      && seen <= s.generation
      && var hit := s.rule.Client? && (s.generation - seen) % EPOCHS == 0;
         && (hit <==> Matches(s, a))
         && u.generation == s.generation + (if hit && !a.joined.JoinFailed? then 1 else 0)
         && u.rule ==
            (if !hit then s.rule
             else if a.joined.JoinFailed? then s.rule.(hub := false)
             else if a.joined.JoinedClient? then Client((s.rule.epoch + 1) % EPOCHS, !s.recv.Gone?, s.recv.Gone?)
             else Server(!s.recv.Gone?))
         && (a.SendRejoin? ==>
               a.call in u.sends && u.sends[a.call] == if hit && a.joined.JoinFailed? then Returned(false) else Trying)
         && (a.RecvRejoin? ==> u.recv == if hit && a.joined.JoinFailed? then Outside else Receiving)
  {
    RunKeepsInv(states, acts, i);
    CongruentIff(states[i].generation, SeenBy(states[i], acts[i]));
  }

  ghost predicate Matches(s: System, a: Action)
    requires Enabled(s, a) && (a.SendRejoin? || a.RecvRejoin?)
  {
    s.rule.Client? && s.rule.epoch == if a.SendRejoin? then s.sends[a.call].epoch else s.recv.epoch
  }

  lemma CongruentIff(a: nat, b: nat)
    requires b <= a
    ensures a % EPOCHS == b % EPOCHS <==> (a - b) % EPOCHS == 0
  {
  }

  /** With fewer than 2^32 rejoins in its stale window, a thread only ever tears down the very connection that it saw
      disconnect. */
  lemma NeverTearsDownNewer(states: seq<System>, acts: seq<Action>, i: nat)
    requires IsRun(states, acts) && i < |acts| && (acts[i].SendRejoin? || acts[i].RecvRejoin?)
    requires states[i].generation < SeenBy(states[i], acts[i]) + EPOCHS
    ensures states[i + 1].rule != states[i].rule ==> SeenBy(states[i], acts[i]) == states[i].generation
  {
    TearsDownIff(states, acts, i);
  }

  // ---------- the wrap-around is real ----------

  /** A run in which thread 0 sees its connection break and then sleeps while thread 1 rejoins `n` times. */
  ghost predicate SleepsThrough(states: seq<System>, acts: seq<Action>, n: nat) {
    && IsRun(states, acts)
    && var s := states[|acts|];
       && s.rule == Client(n % EPOCHS, true, false)
       && s.generation == n
       && s.sends == map[0 := SendStale(0, 0), 1 := Trying]
  }

  lemma RunExtends(states: seq<System>, acts: seq<Action>, a: Action)
    requires IsRun(states, acts) && Enabled(states[|acts|], a)
    ensures IsRun(states + [Next(states[|acts|], a)], acts + [a])
  {
    var more, steps := states + [Next(states[|acts|], a)], acts + [a];
    forall i | 0 <= i < |steps| ensures Enabled(more[i], steps[i]) && more[i + 1] == Next(more[i], steps[i]) {
      if i < |acts| {
        assert more[i] == states[i] && more[i + 1] == states[i + 1] && steps[i] == acts[i];
      }
    }
  }

  lemma FallsAsleep() returns (states: seq<System>, acts: seq<Action>)
    ensures SleepsThrough(states, acts, 0)
  {
    var s0 := System(Client(0, true, false), 0, map[], Outside, []);
    var s1 := Next(s0, SendBegin(0));
    var s2 := Next(s1, SendTry(0, false));
    var s3 := Next(s2, SendBegin(1));
    states, acts := [s0, s1, s2, s3], [SendBegin(0), SendTry(0, false), SendBegin(1)];
    assert s3.sends == map[0 := SendStale(0, 0), 1 := Trying];
  }

  lemma {:induction false} SleepsOn(n: nat) returns (states: seq<System>, acts: seq<Action>)
    ensures SleepsThrough(states, acts, n)
  {
    if n == 0 {
      states, acts := FallsAsleep();
    } else {
      states, acts := SleepsOn(n - 1);
      var s := states[|acts|];
      var broken := Next(s, SendTry(1, false));
      RunExtends(states, acts, SendTry(1, false));
      states, acts := states + [broken], acts + [SendTry(1, false)];
      NextEpoch(n - 1);
      var joined := Next(broken, SendRejoin(1, JoinedClient));
      RunExtends(states, acts, SendRejoin(1, JoinedClient));
      states, acts := states + [joined], acts + [SendRejoin(1, JoinedClient)];
      assert joined.sends == map[0 := SendStale(0, 0), 1 := Trying];
    }
  }

  ghost predicate TearsDownNewer(states: seq<System>, acts: seq<Action>, i: nat) {
    && IsRun(states, acts) && i < |acts| && (acts[i].SendRejoin? || acts[i].RecvRejoin?)
    && SeenBy(states[i], acts[i]) < states[i].generation
    && states[i + 1].generation == states[i].generation + 1
  }

  /** It happens: there is a run in which a thread replaces a live connection that is newer than the one it saw break. */
  lemma NewerIsTornDown()
    ensures exists states: seq<System>, acts: seq<Action>, i: nat :: TearsDownNewer(states, acts, i)
  {
    var states, acts := SleepsOn(EPOCHS);
    var last := |acts|;
    RunExtends(states, acts, SendRejoin(0, JoinedClient));
    states, acts := states + [Next(states[last], SendRejoin(0, JoinedClient))], acts + [SendRejoin(0, JoinedClient)];
    assert TearsDownNewer(states, acts, last);
  }

  /** Successful rejoins replace each connection once, in order; so two of them replace the same epoch only 2^32 rejoins
      apart. */
  lemma ReplacedOnce(states: seq<System>, acts: seq<Action>, i: nat, m: nat, n: nat)
    requires IsRun(states, acts) && i < |states| && m < n < |states[i].replaced|
    ensures states[i].replaced[m].generation == m && states[i].replaced[n].generation == n
    ensures states[i].replaced[m].epoch == states[i].replaced[n].epoch <==> (n - m) % EPOCHS == 0
    ensures |states[i].replaced| == states[i].generation
  {
    RunKeepsInv(states, acts, i);
    CongruentIff(n, m);
  }

  /** Server is terminal: no thread ever replaces it, and every send from then on succeeds at once. */
  lemma {:induction false} ServerIsTerminal(states: seq<System>, acts: seq<Action>, i: nat, j: nat)
    requires IsRun(states, acts) && i <= j < |states| && states[i].rule.Server?
    ensures states[j].rule.Server? && states[j].generation == states[i].generation
    ensures j < |acts| && acts[j].SendTry? ==> states[j + 1].sends[acts[j].call] == Returned(true)
  {
    if i < j {
      ServerIsTerminal(states, acts, i, j - 1);
    }
  }
}
