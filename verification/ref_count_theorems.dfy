/** What the reference counter means, in every interleaving of any number of processes. */
module RefCountTheorems {
  import opened Prelude
  import opened RefCounts

  const Nothing: System := System(map[], map[], map[], map[], map[])

  /** A run: every step is one a process can take in the state it finds. (`Next` asks for a sound state; `RunsAreSound`
      shows that a run has no others, so the guard excludes nothing.) */
  ghost predicate IsRun(states: seq<System>, acts: seq<Action>) {
    && |states| == |acts| + 1
    && states[0] == Nothing
    && forall i | 0 <= i < |acts| ::
         Enabled(states[i], acts[i]) && (Sound(states[i]) ==> states[i + 1] == Next(states[i], acts[i]))
  }

  lemma {:induction false} RunsAreSound(states: seq<System>, acts: seq<Action>, i: nat)
    requires IsRun(states, acts) && i < |states|
    ensures Inv(states[i])
  {
    if i > 0 {
      RunsAreSound(states, acts, i - 1);
      NextKeepsInv(states[i - 1], acts[i - 1]);
    }
  }

  function LiveHandle(): Kind -> bool { (k: Kind) => k.Handle? }
  function Unsettled(): Kind -> bool { (k: Kind) => k.Bump? || k.Taken? }
  function InFlight(): Kind -> bool { (k: Kind) => k.Flight? }
  function Leaked(): Kind -> bool { (k: Kind) => k.Lost? }

  lemma KindsPartition(s: System, r: nat)
    ensures |Of(s, r)| ==
            |OfKind(s, r, LiveHandle())| + |OfKind(s, r, Unsettled())| + |OfKind(s, r, InFlight())| + |OfKind(s, r, Leaked())|
  {
    var h, u := OfKind(s, r, LiveHandle()), OfKind(s, r, Unsettled());
    var f, l := OfKind(s, r, InFlight()), OfKind(s, r, Leaked());
    assert Of(s, r) == h + u + f + l;
    assert h !! u && (h + u) !! f && (h + u + f) !! l;
  }

  /** Conservation: in every reachable state the counter equals live handles, plus increments not settled yet, plus copies
      in flight, plus copies lost (modulo the width of the counter). */
  lemma CounterConserved(states: seq<System>, acts: seq<Action>, i: nat, r: nat)
    requires IsRun(states, acts) && i < |states| && r in states[i].count
    ensures var s := states[i];
      s.count[r] == (|OfKind(s, r, LiveHandle())| + |OfKind(s, r, Unsettled())|
                     + |OfKind(s, r, InFlight())| + |OfKind(s, r, Leaked())|) % WRAP
  {
    RunsAreSound(states, acts, i);
    KindsPartition(states[i], r);
  }

  /** Below the width of the counter it never falls short of the live handles and in-flight copies. */
  lemma CounterNeverTooLow(states: seq<System>, acts: seq<Action>, i: nat, r: nat)
    requires IsRun(states, acts) && i < |states| && r in states[i].count && |Of(states[i], r)| < WRAP
    ensures var s := states[i]; s.count[r] >= |OfKind(s, r, LiveHandle())| + |OfKind(s, r, InFlight())|
  {
    CounterConserved(states, acts, i, r);
    KindsPartition(states[i], r);
  }

  /** The region whose counter a step decrements. */
  ghost function Decrements(s: System, a: Action): Option<nat>
    requires Sound(s) && Enabled(s, a)
  {
    match a
    case DropHandle(h) => Some(s.tokens[h].region)
    case SendUndo(op) => Some(s.tokens[s.sends[op].handles[s.sends[op].undone.value]].region)
    case RecvSettle(op) => Some(s.recvs[op].regions[s.recvs[op].next])
    case _ => None
  }

  lemma DecrementsOwnToken(s: System, a: Action)
    requires Sound(s) && Enabled(s, a) && Decrements(s, a).Some?
    ensures var r := Decrements(s, a).value;
      r in s.count && |Of(s, r)| > 0 && Next(s, a).count == s.count[r := FetchSub(s.count[r])]
  {
    match a
    case DropHandle(h) => TokenRemoved(s, h);
    case SendUndo(op) =>
      assert SendOk(s, op, s.sends[op]);
      TokenRemoved(s, s.sends[op].bumps[s.sends[op].undone.value]);
    case RecvSettle(op) =>
      assert RecvOk(s, op, s.recvs[op]);
      TokenRemoved(s, s.recvs[op].tokens[s.recvs[op].next]);
  }

  /** No decrement ever underflows. */
  lemma CounterNeverUnderflows(states: seq<System>, acts: seq<Action>, i: nat)
    requires IsRun(states, acts) && i < |acts|
    ensures Sound(states[i])
    ensures Decrements(states[i], acts[i]).Some? ==>
      var r := Decrements(states[i], acts[i]).value;
      && r in states[i].count && r in states[i + 1].count
      && (|Of(states[i], r)| < WRAP ==> states[i].count[r] > 0 && states[i + 1].count[r] == states[i].count[r] - 1)
  {
    RunsAreSound(states, acts, i);
    if Decrements(states[i], acts[i]).Some? {
      DecrementsOwnToken(states[i], acts[i]);
    }
  }

  /** At rest, with no send, receive or packet pending, only live handles and leaks count; a send that has failed and undone
      its increments has therefore left no trace. */
  lemma CounterAtRest(states: seq<System>, acts: seq<Action>, i: nat, r: nat)
    requires IsRun(states, acts) && i < |states| && r in states[i].count
    requires states[i].sends == map[] && states[i].packets == map[] && states[i].recvs == map[]
    ensures var s := states[i];
      s.count[r] == (|OfKind(s, r, LiveHandle())| + |OfKind(s, r, Leaked())|) % WRAP
  {
    CounterConserved(states, acts, i, r);
    RunsAreSound(states, acts, i);
    var s := states[i];
    assert forall t | t in s.tokens :: Owned(s, t);
    assert OfKind(s, r, Unsettled()) == {};
    assert OfKind(s, r, InFlight()) == {};
  }

  /** A failed send leaves nothing behind: once undone it owns no increment of any region. */
  lemma FailedSendLeavesNothing(states: seq<System>, acts: seq<Action>, i: nat, op: nat, t: nat)
    requires IsRun(states, acts) && i < |acts| && acts[i] == SendEnd(op) && t in states[i].tokens
    ensures states[i + 1].count == states[i].count
    ensures !(states[i].tokens[t].kind.Bump? && states[i].tokens[t].kind.op == op)
  {
    RunsAreSound(states, acts, i);
    assert Owned(states[i], t);
  }

  // ---------- handing over ----------

  /** A completed send puts all attached regions, in order, in flight, each with one increment of its own; it changes no
      counter, since they were counted before the system call. */
  lemma SentIsInFlight(states: seq<System>, acts: seq<Action>, i: nat, op: nat, k: nat)
    requires IsRun(states, acts) && i < |acts| && acts[i] == SendDone(op, k)
    ensures var s, u := states[i], states[i + 1];
      && op in s.sends && k in u.packets && op !in u.sends && u.count == s.count
      && var handles, packet := s.sends[op].handles, u.packets[k];
         && |packet.regions| == |packet.tokens| == |handles|
         && forall j | 0 <= j < |handles| ::
              && handles[j] in s.tokens && packet.regions[j] == s.tokens[handles[j]].region
              && packet.tokens[j] in u.tokens
              && u.tokens[packet.tokens[j]].region == packet.regions[j]
              && u.tokens[packet.tokens[j]].kind == Flight(k, j)
  {
    RunsAreSound(states, acts, i);
    RunsAreSound(states, acts, i + 1);
    var s, u := states[i], states[i + 1];
    assert SendOk(s, op, s.sends[op]);
    assert PacketOk(u, k, u.packets[k]);
  }

  /** At step `m` the receive `op` gets a live handle of process `p` to region `r`. */
  ghost predicate AdoptedAt(states: seq<System>, acts: seq<Action>, m: nat, op: nat, r: nat, p: nat) {
    && m < |acts| && m + 1 < |states|
    && acts[m].RecvAdopt? && acts[m].op == op
    && acts[m].t in states[m + 1].tokens && states[m + 1].tokens[acts[m].t] == Token(r, p, Handle)
  }

  /** The receive `op` began at step `i`; of its regions the first `n` have been adopted. */
  ghost predicate TookAndAdopted(states: seq<System>, acts: seq<Action>, i: nat, j: nat, op: nat, d: Recv, n: nat) {
    && i < j <= |acts| < |states|
    && acts[i].RecvTake? && acts[i].op == op && acts[i].proc == d.proc
    && acts[i].packet in states[i].packets && states[i].packets[acts[i].packet].regions == d.regions
    && n <= |d.regions|
    && forall q | 0 <= q < n :: AdoptedWithin(states, acts, i, j, op, d.regions[q], d.proc)
  }

  /** How many regions of a receive have a handle already. */
  function Handled(d: Recv): nat { d.next + if d.adopted then 1 else 0 }

  ghost predicate AdoptedWithin(states: seq<System>, acts: seq<Action>, i: nat, j: nat, op: nat, r: nat, p: nat) {
    exists m: nat :: i < m < j && AdoptedAt(states, acts, m, op, r, p)
  }

  lemma RecvStarts(s: System, a: Action, op: nat)
    requires Sound(s) && Enabled(s, a) && op !in s.recvs && op in Next(s, a).recvs
    ensures a.RecvTake? && a.op == op && a.packet in s.packets
    ensures Next(s, a).recvs[op] == Recv(a.proc, s.packets[a.packet].regions, s.packets[a.packet].tokens, 0, false)
  {
  }

  /** A step of a receive: it adopts its next region, or has handled as many as before. */
  lemma RecvStays(s: System, a: Action, op: nat)
    requires Sound(s) && Enabled(s, a) && op in s.recvs && op in Next(s, a).recvs
    ensures var u := Next(s, a); var was, d := s.recvs[op], u.recvs[op];
      && d.proc == was.proc && d.regions == was.regions && Handled(was) <= Handled(d) <= |d.regions|
      && (Handled(was) < Handled(d) ==>
            && Handled(d) == Handled(was) + 1
            && a.RecvAdopt? && a.op == op
            && a.t in u.tokens && u.tokens[a.t] == Token(d.regions[Handled(was)], d.proc, Handle))
  {
    assert RecvOk(s, op, s.recvs[op]);
  }

  lemma AdoptOneMore(
      states: seq<System>, acts: seq<Action>, i: nat, j: nat, op: nat, was: Recv, d: Recv)
    requires TookAndAdopted(states, acts, i, j, op, was, Handled(was)) && j < |acts|
    requires d.proc == was.proc && d.regions == was.regions && Handled(was) <= Handled(d) <= |d.regions|
    requires Handled(was) < Handled(d) ==>
      Handled(d) == Handled(was) + 1 && AdoptedAt(states, acts, j, op, d.regions[Handled(was)], d.proc)
    ensures TookAndAdopted(states, acts, i, j + 1, op, d, Handled(d))
  {
    forall q | 0 <= q < Handled(d) ensures AdoptedWithin(states, acts, i, j + 1, op, d.regions[q], d.proc) {
      if q < Handled(was) {
        assert AdoptedWithin(states, acts, i, j, op, was.regions[q], was.proc);
        var m: nat :| i < m < j && AdoptedAt(states, acts, m, op, was.regions[q], was.proc);
        assert i < m < j + 1 && AdoptedAt(states, acts, m, op, d.regions[q], d.proc);
      } else {
        assert i < j < j + 1 && AdoptedAt(states, acts, j, op, d.regions[q], d.proc);
      }
    }
  }

  lemma ProgressStep(states: seq<System>, acts: seq<Action>, i: nat, j: nat, op: nat)
    requires IsRun(states, acts) && j < |acts| && Sound(states[j])
    requires op in states[j].recvs && op in states[j + 1].recvs
    requires TookAndAdopted(states, acts, i, j, op, states[j].recvs[op], Handled(states[j].recvs[op]))
    ensures TookAndAdopted(states, acts, i, j + 1, op, states[j + 1].recvs[op], Handled(states[j + 1].recvs[op]))
  {
    RecvStays(states[j], acts[j], op);
    AdoptOneMore(states, acts, i, j, op, states[j].recvs[op], states[j + 1].recvs[op]);
  }

  lemma ProgressStart(states: seq<System>, acts: seq<Action>, i: nat, op: nat)
    requires IsRun(states, acts) && i < |acts| && Sound(states[i])
    requires op !in states[i].recvs && op in states[i + 1].recvs
    ensures TookAndAdopted(states, acts, i, i + 1, op, states[i + 1].recvs[op], Handled(states[i + 1].recvs[op]))
  {
    RecvStarts(states[i], acts[i], op);
  }

  lemma {:induction false} RecvProgress(states: seq<System>, acts: seq<Action>, j: nat, op: nat) returns (i: nat)
    requires IsRun(states, acts) && j < |states| && op in states[j].recvs
    ensures TookAndAdopted(states, acts, i, j, op, states[j].recvs[op], Handled(states[j].recvs[op]))
  {
    assert j > 0 by {
      assert op !in states[0].recvs;
    }
    var last := j - 1;
    assert Sound(states[last]) by {
      RunsAreSound(states, acts, last);
    }
    if op in states[last].recvs {
      i := RecvProgress(states, acts, last, op);
      ProgressStep(states, acts, i, last, op);
    } else {
      i := last;
      ProgressStart(states, acts, i, op);
    }
  }

  /** A receive that comes to its end has given the receiving process a live handle to every region of the packet. */
  lemma ReceiverOwns(states: seq<System>, acts: seq<Action>, j: nat, op: nat)
    requires IsRun(states, acts) && j < |acts| && acts[j] == RecvEnd(op)
    ensures op in states[j].recvs
    ensures exists i :: TookAndAdopted(states, acts, i, j, op, states[j].recvs[op], |states[j].recvs[op].regions|)
  {
    var i := RecvProgress(states, acts, j, op);
  }

  // ---------- exclusive reuse ----------

  /** Steps that work on the handle `h` itself, and so can only be taken by its owner (or end its owner). */
  ghost predicate Touches(s: System, a: Action, h: nat)
    requires h in s.tokens
  {
    match a
    case Clone(x, _) => x == h
    case DropHandle(x) => x == h
    case SendBegin(_, _, hs) => h in hs
    case Crash(p) => p == s.tokens[h].proc
    case _ => false
  }

  /** `h` is the only thing that refers to its region, anywhere. */
  ghost predicate Alone(s: System, h: nat) {
    && IsHandle(s, h)
    && !Borrowed(s, h)
    && Of(s, s.tokens[h].region) == {h}
  }

  lemma OneMeansAlone(s: System, h: nat)
    requires Inv(s) && IsHandle(s, h) && !Borrowed(s, h)
    requires |Of(s, s.tokens[h].region)| < WRAP
    ensures s.count[s.tokens[h].region] == 1 <==> Alone(s, h)
  {
    var r := s.tokens[h].region;
    assert h in Of(s, r);
    if |Of(s, r)| == 1 {
      forall t | t in Of(s, r) ensures t == h {
        if t != h {
          assert {t, h} <= Of(s, r);
          SubsetSize({t, h}, Of(s, r));
        }
      }
      assert Of(s, r) == {h};
    }
  }

  lemma {:induction false} SubsetSize(a: set<nat>, b: set<nat>)
    requires a <= b
    ensures |a| <= |b|
  {
    if a != {} {
      var x :| x in a;
      SubsetSize(a - {x}, b - {x});
    }
  }

  /** No step of another process creates a token for the region of an idle handle that is alone. */
  lemma AloneBlocksGrowth(s: System, a: Action, h: nat)
    requires Sound(s) && Enabled(s, a) && Alone(s, h) && !Touches(s, a, h)
    ensures var r := s.tokens[h].region;
      forall t | t in Next(s, a).tokens && Next(s, a).tokens[t].region == r :: t in s.tokens && s.tokens[t].region == r
  {
    var r := s.tokens[h].region;
    forall t | t in s.tokens && s.tokens[t].region == r ensures t == h {
      assert t in Of(s, r);
    }
    assert h in Of(s, r) && r in s.count;
    if a.SendBump? {
      var d := s.sends[a.op];
      assert SendOk(s, a.op, d);
      assert d.handles[|d.bumps|] in d.handles;
    } else if a.RecvAdopt? {
      assert RecvOk(s, a.op, s.recvs[a.op]);
    }
  }

  lemma OthersKeepHandle(s: System, a: Action, h: nat)
    requires Sound(s) && Enabled(s, a) && IsHandle(s, h) && !Touches(s, a, h)
    ensures h in Next(s, a).tokens && Next(s, a).tokens[h] == s.tokens[h]
  {
    if a.SendUndo? {
      assert SendOk(s, a.op, s.sends[a.op]);
    } else if a.RecvSettle? {
      assert RecvOk(s, a.op, s.recvs[a.op]);
    }
  }

  lemma OthersDoNotBorrow(s: System, a: Action, h: nat)
    requires Sound(s) && Enabled(s, a) && IsHandle(s, h) && !Touches(s, a, h) && !Borrowed(s, h)
    ensures !Borrowed(Next(s, a), h)
  {
    var u := Next(s, a);
    forall op | op in u.sends ensures h !in u.sends[op].handles {
      if op in s.sends {
        assert h !in s.sends[op].handles;
      }
    }
  }

  lemma AloneStays(s: System, a: Action, h: nat)
    requires Sound(s) && Enabled(s, a) && Alone(s, h) && !Touches(s, a, h)
    ensures Alone(Next(s, a), h)
    ensures Next(s, a).tokens[h] == s.tokens[h]
  {
    var r, u := s.tokens[h].region, Next(s, a);
    OthersKeepHandle(s, a, h);
    OthersDoNotBorrow(s, a, h);
    AloneBlocksGrowth(s, a, h);
    forall t | t in Of(u, r) ensures t == h {
      assert t in Of(s, r);
    }
    assert Of(u, r) == {h};
  }

  /** Exclusive reuse. If a process reads the counter of its own idle handle as 1, nothing else refers to the region: no
      handle in any process, no copy in flight or half received, no leak. Whatever the other processes then do, none can
      appear and the counter stays 1, until the process itself uses that handle, for instance to clone it. */
  lemma {:induction false} ExclusiveUntilTouched(states: seq<System>, acts: seq<Action>, i: nat, j: nat, h: nat)
    requires IsRun(states, acts) && i <= j < |states|
    requires IsHandle(states[i], h) && !Borrowed(states[i], h) && |Of(states[i], states[i].tokens[h].region)| < WRAP
    requires states[i].tokens[h].region in states[i].count && states[i].count[states[i].tokens[h].region] == 1
    requires forall k | i <= k < j :: h in states[k].tokens ==> !Touches(states[k], acts[k], h)
    ensures Alone(states[j], h)
    ensures states[j].tokens[h] == states[i].tokens[h]
    ensures states[i].tokens[h].region in states[j].count && states[j].count[states[i].tokens[h].region] == 1
  {
    RunsAreSound(states, acts, j);
    if i == j {
      OneMeansAlone(states[i], h);
    } else {
      ExclusiveUntilTouched(states, acts, i, j - 1, h);
      RunsAreSound(states, acts, j - 1);
      AloneStays(states[j - 1], acts[j - 1], h);
      OneMeansAlone(states[j], h);
    }
  }

  /** So the registry may hand the region out: when it clones a handle whose count it has read as 1, however many steps
      of other processes came between the two, its own handle and the clone are all there is. */
  lemma ReuseIsExclusive(states: seq<System>, acts: seq<Action>, i: nat, j: nat, h: nat, t: nat)
    requires IsRun(states, acts) && i <= j < |acts| && acts[j] == Clone(h, t)
    requires IsHandle(states[i], h) && !Borrowed(states[i], h) && |Of(states[i], states[i].tokens[h].region)| < WRAP
    requires states[i].tokens[h].region in states[i].count && states[i].count[states[i].tokens[h].region] == 1
    requires forall k | i <= k < j :: h in states[k].tokens ==> !Touches(states[k], acts[k], h)
    ensures var r := states[i].tokens[h].region;
      && t != h
      && Of(states[j + 1], r) == {h, t}
      && IsHandle(states[j + 1], h) && IsHandle(states[j + 1], t)
      && r in states[j + 1].count && states[j + 1].count[r] == 2
  {
    var r := states[i].tokens[h].region;
    ExclusiveUntilTouched(states, acts, i, j, h);
    RunsAreSound(states, acts, j);
    var s, u := states[j], states[j + 1];
    assert Of(s, r) == {h} && u == Next(s, acts[j]);
    assert Of(u, r) == Of(s, r) + {t};
  }

  /** A leak is for ever, and errs on the safe side: a region of which a copy was lost is never found with a count of 1
      again while it has a live handle, so it is never handed out for reuse. */
  lemma {:induction false} LeakPreventsReuse(states: seq<System>, acts: seq<Action>, i: nat, j: nat, t: nat, h: nat)
    requires IsRun(states, acts) && i <= j < |states|
    requires t in states[i].tokens && states[i].tokens[t].kind.Lost?
    requires IsHandle(states[j], h) && states[j].tokens[h].region == states[i].tokens[t].region
    requires |Of(states[j], states[i].tokens[t].region)| < WRAP
    ensures states[i].tokens[t].region in states[j].count && states[j].count[states[i].tokens[t].region] >= 2
  {
    LeakStays(states, acts, i, j, t);
    RunsAreSound(states, acts, j);
    var r := states[i].tokens[t].region;
    assert {t, h} <= Of(states[j], r);
    SubsetSize({t, h}, Of(states[j], r));
  }

  lemma NextKeepsLeak(s: System, a: Action, t: nat)
    requires Sound(s) && Enabled(s, a) && t in s.tokens && s.tokens[t].kind.Lost?
    ensures t in Next(s, a).tokens && Next(s, a).tokens[t] == s.tokens[t]
  {
    if a.SendUndo? {
      assert SendOk(s, a.op, s.sends[a.op]);
    } else if a.RecvSettle? {
      assert RecvOk(s, a.op, s.recvs[a.op]);
    }
  }

  lemma {:induction false} LeakStays(states: seq<System>, acts: seq<Action>, i: nat, j: nat, t: nat)
    requires IsRun(states, acts) && i <= j < |states|
    requires t in states[i].tokens && states[i].tokens[t].kind.Lost?
    ensures t in states[j].tokens && states[j].tokens[t] == states[i].tokens[t]
  {
    if i < j {
      LeakStays(states, acts, i, j - 1, t);
      RunsAreSound(states, acts, j - 1);
      NextKeepsLeak(states[j - 1], acts[j - 1], t);
    }
  }
}
