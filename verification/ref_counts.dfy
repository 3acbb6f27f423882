/** The cross-process reference counter of a shared memory region, as a state machine whose steps are the single atomic
    operations of any number of processes, interleaved at will.

    The count of a region is a 32-bit word in shared memory. Beside it the model keeps one token for each increment that
    has not been taken back; a step moves the counter as the program does and the tokens as their meaning asks. */
module RefCounts {
  import opened Prelude

  const WRAP: nat := 0x1_0000_0000

  /** `AtomicU32::fetch_add(1)` and `fetch_sub(1)` wrap around. */
  function FetchAdd(count: nat): nat { if count + 1 == WRAP then 0 else count + 1 }
  function FetchSub(count: nat): nat { if count == 0 then WRAP - 1 else count - 1 }

  /** Why a count is held: a live `MemoryRegion`; an increment of a send that has not been settled (`index` within send
      `op`); a copy in flight in a packet; a copy taken from the socket whose increment is still to be handed over; or a
      copy that nobody can give back any more. */
  datatype Kind =
    | Handle
    | Bump(op: nat, index: nat)
    | Flight(packet: nat, index: nat)
    | Taken(op: nat, index: nat)
    | Lost

  datatype Token = Token(region: nat, proc: nat, kind: Kind)

  /** A send in progress. The program knows the attached handles and how far its loops got; `bumps` are the tokens of its
      increments. `undone` is set once the system call has failed. */
  datatype Send = Send(proc: nat, handles: seq<nat>, bumps: seq<nat>, undone: Option<nat>)

  datatype Packet = Packet(regions: seq<nat>, tokens: seq<nat>)

  /** A receive in progress: `next` regions have been settled; `adopted` when the next one has been mapped and counted,
      but the sender's increment has not been taken back yet. */
  datatype Recv = Recv(proc: nat, regions: seq<nat>, tokens: seq<nat>, next: nat, adopted: bool)

  datatype System = System(
    count: map<nat, nat>,
    tokens: map<nat, Token>,
    sends: map<nat, Send>,
    packets: map<nat, Packet>,
    recvs: map<nat, Recv>)

  /** The atomic steps. `t` names the token of a new handle or increment. */
  datatype Action =
    | New(region: nat, proc: nat, t: nat)
    | Clone(handle: nat, t: nat)
    | DropHandle(handle: nat)
    | SendBegin(op: nat, proc: nat, handles: seq<nat>)
    | SendBump(op: nat, t: nat)
    | SendDone(op: nat, packet: nat)
    | SendFailed(op: nat)
    | SendUndo(op: nat)
    | SendEnd(op: nat)
    | RecvTake(packet: nat, op: nat, proc: nat)
    | RecvReject(op: nat)
    | RecvAdopt(op: nat, t: nat)
    | RecvSettle(op: nat)
    | RecvEnd(op: nat)
    | PacketLost(packet: nat)
    | Crash(proc: nat)

  ghost predicate IsHandle(s: System, h: nat) { h in s.tokens && s.tokens[h].kind.Handle? }

  /** A handle attached to a message that is being sent is borrowed. */
  ghost predicate Borrowed(s: System, h: nat) { exists op :: op in s.sends && h in s.sends[op].handles }

  ghost predicate Enabled(s: System, a: Action) {
    match a
    case New(r, _, t) => r !in s.count && t !in s.tokens
    case Clone(h, t) => IsHandle(s, h) && t !in s.tokens
    case DropHandle(h) => IsHandle(s, h) && !Borrowed(s, h)
    case SendBegin(op, p, hs) =>
      op !in s.sends && forall h | h in hs :: IsHandle(s, h) && s.tokens[h].proc == p && !Borrowed(s, h)
    case SendBump(op, t) =>
      op in s.sends && s.sends[op].undone.None? && |s.sends[op].bumps| < |s.sends[op].handles| && t !in s.tokens
    case SendDone(op, k) =>
      op in s.sends && s.sends[op].undone.None? && |s.sends[op].bumps| == |s.sends[op].handles| && k !in s.packets
    case SendFailed(op) =>
      op in s.sends && s.sends[op].undone.None? && |s.sends[op].bumps| == |s.sends[op].handles|
    case SendUndo(op) =>
      op in s.sends && s.sends[op].undone.Some? && s.sends[op].undone.value < |s.sends[op].handles|
    case SendEnd(op) =>
      op in s.sends && s.sends[op].undone.Some? && s.sends[op].undone.value == |s.sends[op].handles|
    case RecvTake(k, op, _) => k in s.packets && op !in s.recvs
    case RecvReject(op) => op in s.recvs && s.recvs[op].next == 0 && !s.recvs[op].adopted
    case RecvAdopt(op, t) =>
      op in s.recvs && !s.recvs[op].adopted && s.recvs[op].next < |s.recvs[op].regions| && t !in s.tokens
    case RecvSettle(op) => op in s.recvs && s.recvs[op].adopted && s.recvs[op].next < |s.recvs[op].regions|
    case RecvEnd(op) => op in s.recvs && !s.recvs[op].adopted && s.recvs[op].next == |s.recvs[op].regions|
    case PacketLost(k) => k in s.packets
    case Crash(_) => true
  }

  // ---------- the tokens ----------

  ghost function Of(s: System, r: nat): set<nat> { set t | t in s.tokens && s.tokens[t].region == r }

  ghost function OfKind(s: System, r: nat, q: Kind -> bool): set<nat> {
    set t | t in s.tokens && s.tokens[t].region == r && q(s.tokens[t].kind)
  }

  /** The tokens of a send, a packet or a receive line up with the regions the program works on. */
  ghost predicate SendOk(s: System, op: nat, d: Send) {
    && |d.bumps| <= |d.handles|
    && (forall i | 0 <= i < |d.handles| :: IsHandle(s, d.handles[i]) && s.tokens[d.handles[i]].proc == d.proc)
    && (d.undone.Some? ==> d.undone.value <= |d.handles| == |d.bumps|)
    && forall i | Settled(d) <= i < |d.bumps| ::
         d.bumps[i] in s.tokens && s.tokens[d.bumps[i]] == Token(s.tokens[d.handles[i]].region, d.proc, Bump(op, i))
  }

  function Settled(d: Send): nat { if d.undone.Some? then d.undone.value else 0 }

  ghost predicate PacketOk(s: System, k: nat, p: Packet) {
    && |p.regions| == |p.tokens|
    && forall i | 0 <= i < |p.tokens| ::
         p.tokens[i] in s.tokens && s.tokens[p.tokens[i]].region == p.regions[i] && s.tokens[p.tokens[i]].kind == Flight(k, i)
  }

  ghost predicate RecvOk(s: System, op: nat, d: Recv) {
    && |d.regions| == |d.tokens|
    && d.next <= |d.regions| && (d.adopted ==> d.next < |d.regions|)
    && forall i | d.next <= i < |d.tokens| ::
         d.tokens[i] in s.tokens && s.tokens[d.tokens[i]] == Token(d.regions[i], d.proc, Taken(op, i))
  }

  /** Conservation: the counter is the number of tokens, as far as 32 bits can tell. */
  ghost predicate Conserved(s: System) {
    && (forall t | t in s.tokens :: s.tokens[t].region in s.count)
    && forall r | r in s.count :: s.count[r] == |Of(s, r)| % WRAP
  }

  ghost predicate OpsOk(s: System) {
    && (forall op | op in s.sends :: SendOk(s, op, s.sends[op]))
    && (forall k | k in s.packets :: PacketOk(s, k, s.packets[k]))
    && (forall op | op in s.recvs :: RecvOk(s, op, s.recvs[op]))
  }

  /** Conversely, every unsettled token belongs to an operation that will settle it. */
  ghost predicate Owned(s: System, t: nat)
    requires t in s.tokens
  {
    match s.tokens[t].kind
    case Handle => true
    case Bump(op, i) =>
      op in s.sends && Settled(s.sends[op]) <= i < |s.sends[op].bumps| && s.sends[op].bumps[i] == t
    case Flight(k, i) => k in s.packets && i < |s.packets[k].tokens| && s.packets[k].tokens[i] == t
    case Taken(op, i) => op in s.recvs && s.recvs[op].next <= i < |s.recvs[op].tokens| && s.recvs[op].tokens[i] == t
    case Lost => true
  }

  ghost predicate AllOwned(s: System) { forall t | t in s.tokens :: Owned(s, t) }

  ghost predicate Sound(s: System) { Conserved(s) && OpsOk(s) }

  ghost predicate Inv(s: System) { Sound(s) && AllOwned(s) }

  // ---------- the steps ----------

  /** Change why tokens are held, and by whom, without creating or destroying any. */
  function Relabelled(tokens: map<nat, Token>, f: Token -> Token): map<nat, Token> {
    map t | t in tokens :: f(tokens[t])
  }

  function Sent(op: nat, packet: nat): Token -> Token {
    (x: Token) => if x.kind.Bump? && x.kind.op == op then x.(kind := Flight(packet, x.kind.index)) else x
  }

  function TakenBy(packet: nat, op: nat, proc: nat): Token -> Token {
    (x: Token) =>
      if x.kind.Flight? && x.kind.packet == packet then x.(kind := Taken(op, x.kind.index), proc := proc) else x
  }

  function LostWith(dies: Token -> bool): Token -> Token {
    (x: Token) => if dies(x) then x.(kind := Lost) else x
  }

  /** What a crash leaks: live handles, unsettled increments and half-received copies of the process. */
  predicate DiesWith(proc: nat, x: Token) { x.proc == proc && (x.kind.Handle? || x.kind.Bump? || x.kind.Taken?) }

  ghost function Next(s: System, a: Action): System
    requires Sound(s) && Enabled(s, a)
  {
    match a
    case New(r, p, t) => s.(count := s.count[r := 1], tokens := s.tokens[t := Token(r, p, Handle)])
    case Clone(h, t) =>
      var r := s.tokens[h].region;
      s.(count := s.count[r := FetchAdd(s.count[r])], tokens := s.tokens[t := Token(r, s.tokens[h].proc, Handle)])
    case DropHandle(h) =>
      var r := s.tokens[h].region;
      s.(count := s.count[r := FetchSub(s.count[r])], tokens := s.tokens - {h})
    case SendBegin(op, p, hs) => s.(sends := s.sends[op := Send(p, hs, [], None)])
    case SendBump(op, t) =>
      var d := s.sends[op];
      var i := |d.bumps|;
      var r := s.tokens[d.handles[i]].region;
      s.(count := s.count[r := FetchAdd(s.count[r])],
         tokens := s.tokens[t := Token(r, d.proc, Bump(op, i))],
         sends := s.sends[op := d.(bumps := d.bumps + [t])])
    case SendDone(op, k) =>
      var d := s.sends[op];
      s.(tokens := Relabelled(s.tokens, Sent(op, k)),
         sends := s.sends - {op},
         packets := s.packets[k :=
           Packet(seq(|d.handles|, i requires 0 <= i < |d.handles| => s.tokens[d.handles[i]].region), d.bumps)])
    case SendFailed(op) => s.(sends := s.sends[op := s.sends[op].(undone := Some(0))])
    case SendUndo(op) =>
      var d := s.sends[op];
      var i := d.undone.value;
      var r := s.tokens[d.handles[i]].region;
      s.(count := s.count[r := FetchSub(s.count[r])],
         tokens := s.tokens - {d.bumps[i]},
         sends := s.sends[op := d.(undone := Some(i + 1))])
    case SendEnd(op) => s.(sends := s.sends - {op})
    case RecvTake(k, op, p) =>
      s.(tokens := Relabelled(s.tokens, TakenBy(k, op, p)),
         packets := s.packets - {k},
         recvs := s.recvs[op := Recv(p, s.packets[k].regions, s.packets[k].tokens, 0, false)])
    case RecvReject(op) =>
      s.(tokens := Relabelled(s.tokens, LostWith((x: Token) => x.kind.Taken? && x.kind.op == op)),
         recvs := s.recvs - {op})
    case RecvAdopt(op, t) =>
      var d := s.recvs[op];
      var r := d.regions[d.next];
      s.(count := s.count[r := FetchAdd(s.count[r])],
         tokens := s.tokens[t := Token(r, d.proc, Handle)],
         recvs := s.recvs[op := d.(adopted := true)])
    case RecvSettle(op) =>
      var d := s.recvs[op];
      var r := d.regions[d.next];
      s.(count := s.count[r := FetchSub(s.count[r])],
         tokens := s.tokens - {d.tokens[d.next]},
         recvs := s.recvs[op := d.(next := d.next + 1, adopted := false)])
    case RecvEnd(op) => s.(recvs := s.recvs - {op})
    case PacketLost(k) =>
      s.(tokens := Relabelled(s.tokens, LostWith((x: Token) => x.kind.Flight? && x.kind.packet == k)),
         packets := s.packets - {k})
    case Crash(p) =>
      s.(tokens := Relabelled(s.tokens, LostWith((x: Token) => DiesWith(p, x))),
         sends := map op | op in s.sends && s.sends[op].proc != p :: s.sends[op],
         recvs := map op | op in s.recvs && s.recvs[op].proc != p :: s.recvs[op])
  }

  // ---------- conservation ----------

  lemma AddWraps(n: nat)
    ensures FetchAdd(n % WRAP) == (n + 1) % WRAP
    ensures FetchSub((n + 1) % WRAP) == n % WRAP
  {
  }

  lemma OfAdded(s: System, t: nat, x: Token, q: nat)
    requires t !in s.tokens
    ensures |Of(s.(tokens := s.tokens[t := x]), q)| == |Of(s, q)| + if q == x.region then 1 else 0
  {
    var u := s.(tokens := s.tokens[t := x]);
    assert Of(u, q) == Of(s, q) + if q == x.region then {t} else {};
  }

  lemma OfRemoved(s: System, t: nat, q: nat)
    requires t in s.tokens
    ensures |Of(s, q)| == |Of(s.(tokens := s.tokens - {t}), q)| + if q == s.tokens[t].region then 1 else 0
  {
    var u := s.(tokens := s.tokens - {t});
    if q == s.tokens[t].region {
      assert Of(s, q) == Of(u, q) + {t};
    } else {
      assert Of(s, q) == Of(u, q);
    }
  }

  lemma TokenAdded(s: System, r: nat, t: nat, x: Token)
    requires Conserved(s) && r in s.count && t !in s.tokens && x.region == r
    ensures Conserved(s.(count := s.count[r := FetchAdd(s.count[r])], tokens := s.tokens[t := x]))
  {
    var u := s.(count := s.count[r := FetchAdd(s.count[r])], tokens := s.tokens[t := x]);
    forall q | q in u.count ensures u.count[q] == |Of(u, q)| % WRAP {
      OfAdded(s, t, x, q);
      AddWraps(|Of(s, q)|);
      assert Of(u, q) == Of(s.(tokens := s.tokens[t := x]), q);
    }
  }

  lemma TokenRemoved(s: System, t: nat)
    requires Conserved(s) && t in s.tokens
    ensures var r := s.tokens[t].region;
      && |Of(s, r)| > 0
      && Conserved(s.(count := s.count[r := FetchSub(s.count[r])], tokens := s.tokens - {t}))
  {
    var r := s.tokens[t].region;
    var u := s.(count := s.count[r := FetchSub(s.count[r])], tokens := s.tokens - {t});
    assert t in Of(s, r);
    forall q | q in u.count ensures u.count[q] == |Of(u, q)| % WRAP {
      OfRemoved(s, t, q);
      AddWraps(|Of(u, q)|);
      assert Of(u, q) == Of(s.(tokens := s.tokens - {t}), q);
    }
  }

  lemma TokensRelabelled(s: System, f: Token -> Token)
    requires Conserved(s) && forall t | t in s.tokens :: f(s.tokens[t]).region == s.tokens[t].region
    ensures Conserved(s.(tokens := Relabelled(s.tokens, f)))
    ensures forall r :: Of(s.(tokens := Relabelled(s.tokens, f)), r) == Of(s, r)
  {
    forall r ensures Of(s.(tokens := Relabelled(s.tokens, f)), r) == Of(s, r) {
    }
  }

  lemma NewConserves(s: System, a: Action)
    requires Sound(s) && Enabled(s, a) && a.New?
    ensures Conserved(Next(s, a))
  {
    var u := Next(s, a);
    forall q | q in u.count ensures u.count[q] == |Of(u, q)| % WRAP {
      assert Of(u, q) == if q == a.region then {a.t} else Of(s, q);
    }
  }

  lemma IncrementsConserve(s: System, a: Action)
    requires Sound(s) && Enabled(s, a) && (a.Clone? || a.SendBump? || a.RecvAdopt?)
    ensures Conserved(Next(s, a))
  {
    if a.Clone? {
      TokenAdded(s, s.tokens[a.handle].region, a.t, s.tokens[a.handle]);
    } else if a.SendBump? {
      var d := s.sends[a.op];
      assert SendOk(s, a.op, d);
      var r := s.tokens[d.handles[|d.bumps|]].region;
      TokenAdded(s, r, a.t, Token(r, d.proc, Bump(a.op, |d.bumps|)));
    } else {
      var d := s.recvs[a.op];
      assert RecvOk(s, a.op, d);
      TokenAdded(s, d.regions[d.next], a.t, Token(d.regions[d.next], d.proc, Handle));
    }
  }

  lemma DecrementsConserve(s: System, a: Action)
    requires Sound(s) && Enabled(s, a) && (a.DropHandle? || a.SendUndo? || a.RecvSettle?)
    ensures Conserved(Next(s, a))
  {
    if a.DropHandle? {
      TokenRemoved(s, a.handle);
    } else if a.SendUndo? {
      assert SendOk(s, a.op, s.sends[a.op]);
      TokenRemoved(s, s.sends[a.op].bumps[s.sends[a.op].undone.value]);
    } else {
      assert RecvOk(s, a.op, s.recvs[a.op]);
      TokenRemoved(s, s.recvs[a.op].tokens[s.recvs[a.op].next]);
    }
  }

  lemma HandOversConserve(s: System, a: Action)
    requires Sound(s) && Enabled(s, a) && (a.SendDone? || a.RecvTake?)
    ensures Conserved(Next(s, a))
  {
    if a.SendDone? {
      TokensRelabelled(s, Sent(a.op, a.packet));
    } else {
      TokensRelabelled(s, TakenBy(a.packet, a.op, a.proc));
    }
  }

  lemma LossesConserve(s: System, a: Action)
    requires Sound(s) && Enabled(s, a) && (a.RecvReject? || a.PacketLost? || a.Crash?)
    ensures Conserved(Next(s, a))
  {
    match a
    case RecvReject(op) => TokensRelabelled(s, LostWith((x: Token) => x.kind.Taken? && x.kind.op == op));
    case PacketLost(k) => TokensRelabelled(s, LostWith((x: Token) => x.kind.Flight? && x.kind.packet == k));
    case Crash(p) => TokensRelabelled(s, LostWith((x: Token) => DiesWith(p, x)));
  }

  lemma NextConserves(s: System, a: Action)
    requires Sound(s) && Enabled(s, a)
    ensures Conserved(Next(s, a))
  {
    if a.New? {
      NewConserves(s, a);
    } else if a.Clone? || a.SendBump? || a.RecvAdopt? {
      IncrementsConserve(s, a);
    } else if a.DropHandle? || a.SendUndo? || a.RecvSettle? {
      DecrementsConserve(s, a);
    } else if a.SendDone? || a.RecvTake? {
      HandOversConserve(s, a);
    } else if a.RecvReject? || a.PacketLost? || a.Crash? {
      LossesConserve(s, a);
    }
  }

  // ---------- the operations keep their tokens ----------

  ghost predicate Same(s: System, u: System, t: nat) { t in s.tokens && t in u.tokens && u.tokens[t] == s.tokens[t] }

  lemma SendFrame(s: System, u: System, op: nat, d: Send)
    requires SendOk(s, op, d)
    requires forall h | h in d.handles :: Same(s, u, h)
    requires forall t | t in s.tokens && s.tokens[t].kind.Bump? && s.tokens[t].kind.op == op :: Same(s, u, t)
    ensures SendOk(u, op, d)
  {
    forall i | 0 <= i < |d.handles| ensures Same(s, u, d.handles[i]) {
    }
  }

  /** Which operations a step leaves alone, given what it does to the tokens. */
  lemma OpsFrame(s: System, u: System, changed: set<nat>)
    requires OpsOk(s)
    requires forall t | t in s.tokens && t !in changed :: Same(s, u, t)
    ensures forall op | op in s.sends && (forall h | h in s.sends[op].handles :: h !in changed)
              && (forall t | t in changed && t in s.tokens :: !(s.tokens[t].kind.Bump? && s.tokens[t].kind.op == op)) ::
              SendOk(u, op, s.sends[op])
    ensures forall k | k in s.packets
              && (forall t | t in changed && t in s.tokens :: !(s.tokens[t].kind.Flight? && s.tokens[t].kind.packet == k)) ::
              PacketOk(u, k, s.packets[k])
    ensures forall op | op in s.recvs
              && (forall t | t in changed && t in s.tokens :: !(s.tokens[t].kind.Taken? && s.tokens[t].kind.op == op)) ::
              RecvOk(u, op, s.recvs[op])
  {
  }

  lemma HandleStepsKeepOps(s: System, a: Action)
    requires Sound(s) && Enabled(s, a) && (a.New? || a.Clone? || a.DropHandle?)
    ensures OpsOk(Next(s, a))
  {
    OpsFrame(s, Next(s, a), if a.DropHandle? then {a.handle} else {});
  }

  /** A send step that leaves every token of other operations alone, and its own operation in order. */
  lemma OneSendChanges(s: System, u: System, op: nat, changed: set<nat>)
    requires OpsOk(s) && op in s.sends
    requires forall t | t in s.tokens && t !in changed :: Same(s, u, t)
    requires forall t | t in changed && t in s.tokens :: s.tokens[t].kind.Bump? && s.tokens[t].kind.op == op
    requires u.packets == s.packets && u.recvs == s.recvs && u.sends - {op} == s.sends - {op}
    requires op in u.sends ==> SendOk(u, op, u.sends[op])
    ensures OpsOk(u)
  {
    OpsFrame(s, u, changed);
    forall o | o in u.sends && o != op ensures SendOk(u, o, u.sends[o]) {
      assert o in u.sends - {op};
      assert o in s.sends - {op};
      assert SendOk(s, o, s.sends[o]);
    }
  }

  lemma SendBeginKeepsOps(s: System, a: Action)
    requires Sound(s) && Enabled(s, a) && a.SendBegin?
    ensures OpsOk(Next(s, a))
  {
    OpsFrame(s, Next(s, a), {});
    forall i | 0 <= i < |a.handles| ensures IsHandle(s, a.handles[i]) && s.tokens[a.handles[i]].proc == a.proc {
      assert a.handles[i] in a.handles;
    }
  }

  lemma BumpExtends(u: System, op: nat, d: Send, t: nat)
    requires SendOk(u, op, d) && d.undone.None? && |d.bumps| < |d.handles| && t in u.tokens
    requires u.tokens[t] == Token(u.tokens[d.handles[|d.bumps|]].region, d.proc, Bump(op, |d.bumps|))
    ensures SendOk(u, op, d.(bumps := d.bumps + [t]))
  {
  }

  lemma SendBumpKeepsOps(s: System, a: Action)
    requires Sound(s) && Enabled(s, a) && a.SendBump?
    ensures OpsOk(Next(s, a))
  {
    var d, u := s.sends[a.op], Next(s, a);
    assert SendOk(s, a.op, d);
    SendFrame(s, u, a.op, d);
    BumpExtends(u, a.op, d, a.t);
    OneSendChanges(s, u, a.op, {});
  }

  lemma SendFailKeepsOps(s: System, a: Action)
    requires Sound(s) && Enabled(s, a) && (a.SendFailed? || a.SendEnd?)
    ensures OpsOk(Next(s, a))
  {
    assert SendOk(s, a.op, s.sends[a.op]);
    OneSendChanges(s, Next(s, a), a.op, {});
  }

  lemma SendUndoKeepsOps(s: System, a: Action)
    requires Sound(s) && Enabled(s, a) && a.SendUndo?
    ensures OpsOk(Next(s, a))
  {
    var d, u := s.sends[a.op], Next(s, a);
    assert SendOk(s, a.op, d);
    var i := d.undone.value;
    assert s.tokens[d.bumps[i]].kind == Bump(a.op, i);
    forall h | h in d.handles ensures h != d.bumps[i] {
      assert IsHandle(s, h);
    }
    forall j | i < j < |d.bumps| ensures d.bumps[j] != d.bumps[i] {
      assert s.tokens[d.bumps[j]].kind == Bump(a.op, j);
    }
    OneSendChanges(s, u, a.op, {d.bumps[i]});
  }

  lemma SendDoneKeepsOps(s: System, a: Action)
    requires Sound(s) && Enabled(s, a) && a.SendDone?
    ensures OpsOk(Next(s, a))
  {
    assert SendOk(s, a.op, s.sends[a.op]);
    OpsFrame(s, Next(s, a), set t | t in s.tokens && s.tokens[t].kind.Bump? && s.tokens[t].kind.op == a.op);
  }

  lemma RecvTakeKeepsOps(s: System, a: Action)
    requires Sound(s) && Enabled(s, a) && a.RecvTake?
    ensures OpsOk(Next(s, a))
  {
    assert PacketOk(s, a.packet, s.packets[a.packet]);
    OpsFrame(s, Next(s, a), set t | t in s.tokens && s.tokens[t].kind.Flight? && s.tokens[t].kind.packet == a.packet);
  }

  /** A receive step that leaves every token of other operations alone, and its own operation in order. */
  lemma OneRecvChanges(s: System, u: System, op: nat, changed: set<nat>)
    requires OpsOk(s) && op in s.recvs
    requires forall t | t in s.tokens && t !in changed :: Same(s, u, t)
    requires forall t | t in changed && t in s.tokens :: s.tokens[t].kind.Taken? && s.tokens[t].kind.op == op
    requires u.packets == s.packets && u.sends == s.sends && u.recvs - {op} == s.recvs - {op}
    requires op in u.recvs ==> RecvOk(u, op, u.recvs[op])
    ensures OpsOk(u)
  {
    OpsFrame(s, u, changed);
    forall o | o in u.sends ensures SendOk(u, o, u.sends[o]) {
      assert SendOk(s, o, s.sends[o]);
      forall h | h in s.sends[o].handles ensures h !in changed {
        assert IsHandle(s, h);
      }
    }
    forall o | o in u.recvs && o != op ensures RecvOk(u, o, u.recvs[o]) {
      assert o in u.recvs - {op};
      assert o in s.recvs - {op};
    }
  }

  lemma RecvAdoptKeepsOps(s: System, a: Action)
    requires Sound(s) && Enabled(s, a) && (a.RecvAdopt? || a.RecvEnd?)
    ensures OpsOk(Next(s, a))
  {
    assert RecvOk(s, a.op, s.recvs[a.op]);
    OneRecvChanges(s, Next(s, a), a.op, {});
  }

  lemma RecvSettleKeepsOps(s: System, a: Action)
    requires Sound(s) && Enabled(s, a) && a.RecvSettle?
    ensures OpsOk(Next(s, a))
  {
    var d := s.recvs[a.op];
    assert RecvOk(s, a.op, d);
    assert s.tokens[d.tokens[d.next]].kind == Taken(a.op, d.next);
    forall j | d.next < j < |d.tokens| ensures d.tokens[j] != d.tokens[d.next] {
      assert s.tokens[d.tokens[j]].kind == Taken(a.op, j);
    }
    OneRecvChanges(s, Next(s, a), a.op, {d.tokens[d.next]});
  }

  lemma LossesKeepOps(s: System, a: Action)
    requires Sound(s) && Enabled(s, a) && (a.RecvReject? || a.PacketLost?)
    ensures OpsOk(Next(s, a))
  {
    OpsFrame(s, Next(s, a), set t | t in s.tokens &&
      if a.RecvReject? then s.tokens[t].kind.Taken? && s.tokens[t].kind.op == a.op
      else s.tokens[t].kind.Flight? && s.tokens[t].kind.packet == a.packet);
  }

  lemma CrashKeepsOps(s: System, a: Action)
    requires Sound(s) && Enabled(s, a) && a.Crash?
    ensures OpsOk(Next(s, a))
  {
    var u := Next(s, a);
    forall op | op in u.sends ensures SendOk(u, op, u.sends[op]) {
      assert SendOk(s, op, s.sends[op]);
    }
    forall k | k in u.packets ensures PacketOk(u, k, u.packets[k]) {
      assert PacketOk(s, k, s.packets[k]);
    }
    forall op | op in u.recvs ensures RecvOk(u, op, u.recvs[op]) {
      assert RecvOk(s, op, s.recvs[op]);
    }
  }

  // ---------- every unsettled token keeps its owner ----------

  lemma NonSendStepsKeepOwned(s: System, a: Action)
    requires Inv(s) && Enabled(s, a) && (a.New? || a.Clone? || a.DropHandle? || a.SendBegin? || a.RecvEnd?)
    ensures AllOwned(Next(s, a))
  {
  }

  lemma SendBumpKeepsOwned(s: System, a: Action)
    requires Inv(s) && Enabled(s, a) && a.SendBump?
    ensures AllOwned(Next(s, a))
  {
  }

  lemma SendUndoKeepsOwned(s: System, a: Action)
    requires Inv(s) && Enabled(s, a) && (a.SendFailed? || a.SendUndo? || a.SendEnd?)
    ensures AllOwned(Next(s, a))
  {
    var u := Next(s, a);
    assert SendOk(s, a.op, s.sends[a.op]);
    forall t | t in u.tokens ensures Owned(u, t) {
      assert Owned(s, t);
    }
  }

  lemma HandOverKeepsOwned(s: System, a: Action)
    requires Inv(s) && Enabled(s, a) && (a.SendDone? || a.RecvTake?)
    ensures AllOwned(Next(s, a))
  {
    var u := Next(s, a);
    forall t | t in u.tokens ensures Owned(u, t) {
      assert Owned(s, t);
    }
  }

  lemma RecvStepsKeepOwned(s: System, a: Action)
    requires Inv(s) && Enabled(s, a) && (a.RecvAdopt? || a.RecvSettle?)
    ensures AllOwned(Next(s, a))
  {
    var d, u := s.recvs[a.op], Next(s, a);
    assert RecvOk(s, a.op, d);
    forall t | t in u.tokens ensures Owned(u, t) {
      assert t in s.tokens ==> Owned(s, t);
    }
  }

  lemma LossesKeepOwned(s: System, a: Action)
    requires Inv(s) && Enabled(s, a) && (a.RecvReject? || a.PacketLost? || a.Crash?)
    ensures AllOwned(Next(s, a))
  {
    var u := Next(s, a);
    forall t | t in u.tokens ensures Owned(u, t) {
      assert Owned(s, t);
      if s.tokens[t].kind.Bump? {
        assert SendOk(s, s.tokens[t].kind.op, s.sends[s.tokens[t].kind.op]);
      } else if s.tokens[t].kind.Taken? {
        assert RecvOk(s, s.tokens[t].kind.op, s.recvs[s.tokens[t].kind.op]);
      }
    }
  }

  lemma NextKeepsOwned(s: System, a: Action)
    requires Inv(s) && Enabled(s, a)
    ensures AllOwned(Next(s, a))
  {
    if a.SendDone? || a.RecvTake? {
      HandOverKeepsOwned(s, a);
    } else if a.RecvReject? || a.PacketLost? || a.Crash? {
      LossesKeepOwned(s, a);
    } else if a.RecvAdopt? || a.RecvSettle? {
      RecvStepsKeepOwned(s, a);
    } else if a.SendBump? {
      SendBumpKeepsOwned(s, a);
    } else if a.SendFailed? || a.SendUndo? || a.SendEnd? {
      SendUndoKeepsOwned(s, a);
    } else {
      NonSendStepsKeepOwned(s, a);
    }
  }

  lemma NextKeepsInv(s: System, a: Action)
    requires Inv(s) && Enabled(s, a)
    ensures Inv(Next(s, a))
  {
    NextConserves(s, a);
    NextKeepsOwned(s, a);
    match a
    case New(_, _, _) => HandleStepsKeepOps(s, a);
    case Clone(_, _) => HandleStepsKeepOps(s, a);
    case DropHandle(_) => HandleStepsKeepOps(s, a);
    case SendBegin(_, _, _) => SendBeginKeepsOps(s, a);
    case SendBump(_, _) => SendBumpKeepsOps(s, a);
    case SendDone(_, _) => SendDoneKeepsOps(s, a);
    case SendFailed(_) => SendFailKeepsOps(s, a);
    case SendUndo(_) => SendUndoKeepsOps(s, a);
    case SendEnd(_) => SendFailKeepsOps(s, a);
    case RecvTake(_, _, _) => RecvTakeKeepsOps(s, a);
    case RecvReject(_) => LossesKeepOps(s, a);
    case RecvAdopt(_, _) => RecvAdoptKeepsOps(s, a);
    case RecvSettle(_) => RecvSettleKeepsOps(s, a);
    case RecvEnd(_) => RecvAdoptKeepsOps(s, a);
    case PacketLost(_) => LossesKeepOps(s, a);
    case Crash(_) => CrashKeepsOps(s, a);
  }
}
