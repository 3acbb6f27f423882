/** The Node.js binding's rendezvous between promises that wait for a message and messages that wait for a promise. */
module LocalBuffers {
  import opened Prelude

  /** A promise, with the time at which it may be given up. */
  datatype Deferred = Deferred(id: nat, deadline: Option<nat>)

  datatype Settlement = Result(msg: nat) | TimedOut | Closed

  datatype Settled = Settled(id: nat, how: Settlement)

  /** `messages` are results of `recv` on the bus, ok or not, in order of arrival; `arrived` and `issued` count results and
      promises so far, and `settled` is the history of the promises. */
  datatype Buffer = Buffer(
    closed: bool,
    messages: seq<nat>,
    deferred: seq<Deferred>,
    arrived: nat,
    issued: nat,
    settled: seq<Settled>)

  /** What happens to a buffer; `JsClose` only sets the flag, the `Close` action follows later from the receiving thread. */
  datatype Event =
    | JsRecv(now: nat, timeout: Option<nat>)
    | JsClose
    | Arrival
    | CleanTimeout(now: nat)
    | Close

  function Deadline(now: nat, timeout: Option<nat>): Option<nat> {
    if timeout.Some? then Some(now + timeout.value) else None
  }

  predicate Expired(d: Deferred, now: nat) { d.deadline.Some? && d.deadline.value < now }

  function Alive(ds: seq<Deferred>, now: nat): seq<Deferred> { Filter(ds, (d: Deferred) => !Expired(d, now)) }
  function Late(ds: seq<Deferred>, now: nat): seq<Deferred> { Filter(ds, (d: Deferred) => Expired(d, now)) }

  function Rejected(ds: seq<Deferred>, how: Settlement): (r: seq<Settled>)
    ensures |r| == |ds|
  {
    seq(|ds|, i requires 0 <= i < |ds| => Settled(ds[i].id, how))
  }

  function Step(b: Buffer, e: Event): Buffer {
    match e
    case JsRecv(now, timeout) =>
      if b.closed then b
      else if b.messages != [] then
        b.(messages := b.messages[1..], issued := b.issued + 1, settled := b.settled + [Settled(b.issued, Result(b.messages[0]))])
      else b.(deferred := b.deferred + [Deferred(b.issued, Deadline(now, timeout))], issued := b.issued + 1)
    case JsClose => b.(closed := true)
    case Arrival =>
      if b.deferred == [] then b.(messages := b.messages + [b.arrived], arrived := b.arrived + 1)
      else
        b.(deferred := b.deferred[1..], arrived := b.arrived + 1,
           settled := b.settled + [Settled(b.deferred[0].id, Result(b.arrived))])
    case CleanTimeout(now) =>
      b.(deferred := Alive(b.deferred, now), settled := b.settled + Rejected(Late(b.deferred, now), TimedOut))
    case Close =>
      b.(closed := true, deferred := [], settled := b.settled + Rejected(b.deferred, Closed))
  }

  const Empty: Buffer := Buffer(false, [], [], 0, 0, [])

  function Run(events: seq<Event>): Buffer {
    if events == [] then Empty else Step(Run(events[..|events| - 1]), events[|events| - 1])
  }

  // ---------- the object ----------

  class LocalBuffer {
    var closed: bool
    var messages: seq<nat>
    var deferredList: seq<Deferred>
    var arrived: nat
    var issued: nat
    ghost var settled: seq<Settled>

    ghost function State(): Buffer
      reads this
    {
      Buffer(closed, messages, deferredList, arrived, issued, settled)
    }

    constructor ()
      ensures State() == Empty
    {
      closed, messages, deferredList, arrived, issued, settled := false, [], [], 0, 0, [];
    }

    /** `Receiver::recv`. The error of a closed buffer is `None`; otherwise the promise, settled already or waiting. */
    method Recv(now: nat, timeout: Option<nat>) returns (promise: Option<nat>)
      modifies this
      ensures State() == Step(old(State()), JsRecv(now, timeout))
      ensures promise == if old(closed) then None else Some(old(issued))
    {
      if closed {
        return None;
      }
      var deferred := issued;
      issued := issued + 1;
      if messages != [] {
        var r := messages[0];
        messages := messages[1..];
        settled := settled + [Settled(deferred, Result(r))];
      } else {
        var deadline := None;
        if timeout.Some? {
          deadline := Some(now + timeout.value);
        }
        deferredList := deferredList + [Deferred(deferred, deadline)];
      }
      return Some(deferred);
    }

    /** `DelegateAction::Recv`. */
    method Deliver()
      modifies this
      ensures State() == Step(old(State()), Arrival)
    {
      var r := arrived;
      arrived := arrived + 1;
      if deferredList == [] {
        messages := messages + [r];
      } else {
        var d := deferredList[0];
        deferredList := deferredList[1..];
        settled := settled + [Settled(d.id, Result(r))];
      }
    }

    /** `clean_timeout`: an index loop that removes from the list it walks. */
    method CleanTimeouts(now: nat)
      modifies this`deferredList, this`settled
      ensures State() == Step(old(State()), CleanTimeout(now))
    {
      ghost var before, done := deferredList, 0;
      assert before[..0] == [] && Rejected([], TimedOut) == [];
      if deferredList == [] {
        return;
      }
      var i := 0;
      while i < |deferredList|
        invariant Walked(before, done, deferredList, i, now)
        invariant settled == old(settled) + Rejected(Late(before[..done], now), TimedOut)
        decreases |deferredList| - i
      {
        var d := deferredList[i];
        WalkStep(before, done, deferredList, i, now);
        if d.deadline.None? {
          i := i + 1;
        } else if d.deadline.value < now {
          deferredList := deferredList[..i] + deferredList[i + 1..];
          settled := settled + [Settled(d.id, TimedOut)];
        } else {
          i := i + 1;
        }
        done := done + 1;
      }
      WalkEnd(before, done, deferredList, i, now);
    }

    /** `LocalBuffer::close`: take the list, then reject what was in it. */
    method CloseAction()
      modifies this
      ensures State() == Step(old(State()), Close)
    {
      closed := true;
      var taken := deferredList;
      deferredList := [];
      for i := 0 to |taken|
        invariant closed && deferredList == [] && messages == old(messages) && arrived == old(arrived) && issued == old(issued)
        invariant settled == old(settled) + Rejected(taken[..i], Closed)
      {
        assert Rejected(taken[..i + 1], Closed) == Rejected(taken[..i], Closed) + [Settled(taken[i].id, Closed)];
        settled := settled + [Settled(taken[i].id, Closed)];
      }
      assert taken[..|taken|] == taken;
    }

    /** The synchronous part of `Receiver::close`. */
    method MarkClosed()
      modifies this`closed
      ensures State() == Step(old(State()), JsClose)
    {
      closed := true;
    }
  }

  /** A list `l` that is being walked: `done` promises of the original list `s` were looked at, and those that stay are
      behind the index. */
  ghost predicate Walked(s: seq<Deferred>, done: nat, l: seq<Deferred>, i: nat, now: nat) {
    && done <= |s|
    && i == |Alive(s[..done], now)|
    && l == Alive(s[..done], now) + s[done..]
  }

  lemma WalkStep(s: seq<Deferred>, done: nat, l: seq<Deferred>, i: nat, now: nat)
    requires Walked(s, done, l, i, now) && i < |l|
    ensures done < |s|
    ensures if Expired(l[i], now)
      then Walked(s, done + 1, l[..i] + l[i + 1..], i, now) &&
           Rejected(Late(s[..done + 1], now), TimedOut) == Rejected(Late(s[..done], now), TimedOut) + [Settled(l[i].id, TimedOut)]
      else Walked(s, done + 1, l, i + 1, now) && Late(s[..done + 1], now) == Late(s[..done], now)
  {
    assert l[i] == s[done];
    assert s[..done + 1][..done] == s[..done];
    var kept := Alive(s[..done], now);
    if Expired(s[done], now) {
      assert l[..i] + l[i + 1..] == kept + s[done + 1..];
    } else {
      assert l == kept + [s[done]] + s[done + 1..];
    }
  }

  lemma WalkEnd(s: seq<Deferred>, done: nat, l: seq<Deferred>, i: nat, now: nat)
    requires Walked(s, done, l, i, now) && i == |l|
    ensures l == Alive(s, now) && Late(s[..done], now) == Late(s, now)
  {
    assert s[..done] == s && s[done..] == [];
  }

  // ---------- the invariant ----------

  function DeferredId(d: Deferred): int { d.id }

  /** The results handed to promises, in the order in which that happened. */
  function Results(settled: seq<Settled>): seq<Settled> { Filter(settled, (x: Settled) => x.how.Result?) }

  ghost function SettledIds(settled: seq<Settled>): set<nat> { set x | x in settled :: x.id }
  ghost function PendingIds(ds: seq<Deferred>): set<nat> { set d | d in ds :: d.id }
  function Below(n: nat): (s: set<nat>)
    ensures forall k: nat :: k in s <==> k < n
  {
    if n == 0 then {} else Below(n - 1) + {n - 1}
  }

  /** Every promise so far is either pending, or settled and settled once. */
  ghost predicate PromisesOk(b: Buffer) {
    && SettledIds(b.settled) + PendingIds(b.deferred) == Below(b.issued)
    && SettledIds(b.settled) !! PendingIds(b.deferred)
    && (forall i, j | 0 <= i < j < |b.settled| :: b.settled[i].id != b.settled[j].id)
    && Ascending(b.deferred, DeferredId)
  }

  function SettledId(x: Settled): int { x.id }

  /** Results go to promises first come, first served: the k-th result handed out is the k-th that arrived, to ever younger
      promises, all older than those still pending. */
  ghost predicate PairingOk(b: Buffer) {
    var rs := Results(b.settled);
    && |rs| + |b.messages| == b.arrived
    && (forall k | 0 <= k < |rs| :: rs[k].how.Result? && rs[k].how.msg == k)
    && (forall k | 0 <= k < |b.messages| :: b.messages[k] == |rs| + k)
    && Ascending(rs, SettledId)
    && (forall x, d | x in rs && d in b.deferred :: x.id < d.id)
    && (forall x | x in rs :: x.id < b.issued)
  }

  ghost predicate Inv(b: Buffer) {
    && (b.messages == [] || b.deferred == [])
    && PromisesOk(b)
    && PairingOk(b)
  }

  lemma SettledIdsConcat(a: seq<Settled>, b: seq<Settled>)
    ensures SettledIds(a + b) == SettledIds(a) + SettledIds(b)
  {
  }

  lemma RejectedIds(ds: seq<Deferred>, how: Settlement)
    ensures SettledIds(Rejected(ds, how)) == PendingIds(ds)
  {
    var r := Rejected(ds, how);
    forall d | d in ds ensures d.id in SettledIds(r) {
      var k :| 0 <= k < |ds| && ds[k] == d;
      assert r[k] in r;
    }
  }

  lemma {:induction false} RejectedAreNoResults(ds: seq<Deferred>, how: Settlement)
    requires !how.Result?
    ensures Results(Rejected(ds, how)) == []
  {
    if ds != [] {
      var front := ds[..|ds| - 1];
      RejectedAreNoResults(front, how);
      assert Rejected(ds, how)[..|ds| - 1] == Rejected(front, how);
    }
  }

  lemma {:induction false} AscendingIdsDistinct(ds: seq<Deferred>)
    requires Ascending(ds, DeferredId)
    ensures forall i, j | 0 <= i < j < |ds| :: ds[i].id != ds[j].id
  {
  }

  /** Rejecting some of the pending promises, in one go. */
  lemma RejectKeepsInv(b: Buffer, kept: seq<Deferred>, gone: seq<Deferred>, how: Settlement)
    requires Inv(b) && !how.Result?
    requires Ascending(kept, DeferredId) && Ascending(gone, DeferredId)
    requires PendingIds(kept) + PendingIds(gone) == PendingIds(b.deferred) && PendingIds(kept) !! PendingIds(gone)
    requires (forall d | d in kept :: d in b.deferred) && |kept| <= |b.deferred|
    ensures Inv(b.(deferred := kept, settled := b.settled + Rejected(gone, how)))
  {
    var u, r := b.(deferred := kept, settled := b.settled + Rejected(gone, how)), Rejected(gone, how);
    SettledIdsConcat(b.settled, r);
    RejectedIds(gone, how);
    RejectedAreNoResults(gone, how);
    FilterConcat(b.settled, r, (x: Settled) => x.how.Result?);
    assert Results(u.settled) == Results(b.settled) + [] == Results(b.settled);
    AscendingIdsDistinct(gone);
    forall i, j | 0 <= i < j < |u.settled| ensures u.settled[i].id != u.settled[j].id {
      if i < |b.settled| <= j {
        assert u.settled[i] in b.settled && u.settled[i].id in SettledIds(b.settled);
        assert gone[j - |b.settled|] in gone && u.settled[j].id in PendingIds(gone);
      }
    }
  }

  /** A time-out splits the pending promises. */
  lemma SplitPending(ds: seq<Deferred>, now: nat)
    requires Ascending(ds, DeferredId)
    ensures var kept, gone := Alive(ds, now), Late(ds, now);
      && Ascending(kept, DeferredId) && Ascending(gone, DeferredId)
      && (forall d | d in ds :: if Expired(d, now) then d in gone else d in kept)
      && (forall d | d in kept :: d in ds && !Expired(d, now))
      && (forall d | d in gone :: d in ds && Expired(d, now))
  {
    FilterMembers(ds, (d: Deferred) => !Expired(d, now));
    FilterMembers(ds, (d: Deferred) => Expired(d, now));
    FilterAscending(ds, (d: Deferred) => !Expired(d, now), DeferredId);
    FilterAscending(ds, (d: Deferred) => Expired(d, now), DeferredId);
  }

  lemma SameIdSamePromise(ds: seq<Deferred>, d: Deferred, e: Deferred)
    requires Ascending(ds, DeferredId) && d in ds && e in ds && d.id == e.id
    ensures d == e
  {
  }

  lemma CleanKeepsInv(b: Buffer, now: nat)
    requires Inv(b)
    ensures Inv(Step(b, CleanTimeout(now)))
  {
    var kept, gone := Alive(b.deferred, now), Late(b.deferred, now);
    SplitPending(b.deferred, now);
    forall d, e | d in kept && e in gone ensures d.id != e.id {
      if d.id == e.id {
        SameIdSamePromise(b.deferred, d, e);
      }
    }
    RejectKeepsInv(b, kept, gone, TimedOut);
  }

  /** Settling one promise with the oldest undelivered result. */
  lemma PairKeepsPairing(b: Buffer, id: nat, u: Buffer)
    requires PairingOk(b) && u.settled == b.settled + [Settled(id, Result(|Results(b.settled)|))]
    requires forall x | x in Results(b.settled) :: x.id < id
    requires id < u.issued && b.issued <= u.issued
    requires forall d | d in u.deferred :: id < d.id && d in b.deferred
    requires |Results(b.settled)| + 1 + |u.messages| == u.arrived
    requires forall k | 0 <= k < |u.messages| :: u.messages[k] == |Results(b.settled)| + 1 + k
    ensures PairingOk(u)
  {
  }

  lemma SettleOneKeepsPromises(b: Buffer, x: Settled)
    requires PromisesOk(b) && x.id !in SettledIds(b.settled)
    ensures var s := b.settled + [x];
      && SettledIds(s) == SettledIds(b.settled) + {x.id}
      && forall i, j | 0 <= i < j < |s| :: s[i].id != s[j].id
  {
  }

  lemma WaitKeepsInv(b: Buffer, deadline: Option<nat>)
    requires Inv(b) && b.messages == []
    ensures Inv(b.(deferred := b.deferred + [Deferred(b.issued, deadline)], issued := b.issued + 1))
  {
    var ds := b.deferred + [Deferred(b.issued, deadline)];
    assert PendingIds(ds) == PendingIds(b.deferred) + {b.issued};
    forall i | 0 <= i < |b.deferred| ensures b.deferred[i].id < b.issued {
      assert b.deferred[i] in b.deferred && b.deferred[i].id in PendingIds(b.deferred);
    }
  }

  lemma TakeKeepsInv(b: Buffer, u: Buffer)
    requires Inv(b) && b.messages != []
    requires u == b.(messages := b.messages[1..], issued := b.issued + 1,
                     settled := b.settled + [Settled(b.issued, Result(b.messages[0]))])
    ensures Inv(u)
  {
    SettleOneKeepsPromises(b, Settled(b.issued, Result(b.messages[0])));
    assert b.messages[0] == |Results(b.settled)|;
    PairKeepsPairing(b, b.issued, u);
    assert PromisesOk(u);
  }

  lemma RecvKeepsInv(b: Buffer, now: nat, timeout: Option<nat>)
    requires Inv(b)
    ensures Inv(Step(b, JsRecv(now, timeout)))
  {
    if b.closed {
    } else if b.messages != [] {
      TakeKeepsInv(b, Step(b, JsRecv(now, timeout)));
    } else {
      WaitKeepsInv(b, Deadline(now, timeout));
    }
  }

  /** The oldest pending promise. */
  lemma HeadPromise(ds: seq<Deferred>)
    requires ds != [] && Ascending(ds, DeferredId)
    ensures PendingIds(ds[1..]) == PendingIds(ds) - {ds[0].id} && ds[0].id in PendingIds(ds)
    ensures forall e | e in ds[1..] :: ds[0].id < e.id && e in ds
    ensures Ascending(ds[1..], DeferredId)
  {
  }

  lemma GiveKeepsPromises(b: Buffer, u: Buffer, x: Settled)
    requires PromisesOk(b) && b.deferred != [] && x.id == b.deferred[0].id
    requires u.deferred == b.deferred[1..] && u.settled == b.settled + [x] && u.issued == b.issued
    ensures PromisesOk(u)
  {
    HeadPromise(b.deferred);
    SettleOneKeepsPromises(b, x);
  }

  lemma GiveKeepsInv(b: Buffer, u: Buffer)
    requires Inv(b) && b.deferred != []
    requires u == b.(deferred := b.deferred[1..], arrived := b.arrived + 1,
                     settled := b.settled + [Settled(b.deferred[0].id, Result(b.arrived))])
    ensures Inv(u)
  {
    var d := b.deferred[0];
    HeadPromise(b.deferred);
    GiveKeepsPromises(b, u, Settled(d.id, Result(b.arrived)));
    assert d in b.deferred && d.id in PendingIds(b.deferred);
    PairKeepsPairing(b, d.id, u);
  }

  lemma ArrivalKeepsInv(b: Buffer)
    requires Inv(b)
    ensures Inv(Step(b, Arrival))
  {
    if b.deferred != [] {
      GiveKeepsInv(b, Step(b, Arrival));
    }
  }

  lemma CloseKeepsInv(b: Buffer)
    requires Inv(b)
    ensures Inv(Step(b, Close))
  {
    RejectKeepsInv(b, [], b.deferred, Closed);
  }

  lemma StepKeepsInv(b: Buffer, e: Event)
    requires Inv(b)
    ensures Inv(Step(b, e))
  {
    match e
    case JsRecv(now, timeout) => RecvKeepsInv(b, now, timeout);
    case JsClose =>
    case Arrival => ArrivalKeepsInv(b);
    case CleanTimeout(now) => CleanKeepsInv(b, now);
    case Close => CloseKeepsInv(b);
  }

  lemma {:induction false} RunKeepsInv(events: seq<Event>)
    ensures Inv(Run(events))
  {
    if events != [] {
      RunKeepsInv(events[..|events| - 1]);
      StepKeepsInv(Run(events[..|events| - 1]), events[|events| - 1]);
    }
  }

  // ---------- what holds of every run ----------

  /** Promises and messages never wait for each other at the same time. */
  lemma {:induction false} NeverBothWaiting(events: seq<Event>)
    ensures Run(events).messages == [] || Run(events).deferred == []
  {
    RunKeepsInv(events);
  }

  /** Every promise handed out is pending or settled, not both, and never settled twice. */
  lemma SettledAtMostOnce(events: seq<Event>, id: nat)
    requires id < Run(events).issued
    ensures var b := Run(events);
      && ((exists d :: d in b.deferred && d.id == id) <==> !exists x :: x in b.settled && x.id == id)
      && forall i, j | 0 <= i < j < |b.settled| :: b.settled[i].id != b.settled[j].id
  {
    RunKeepsInv(events);
    var b := Run(events);
    assert id in Below(b.issued);
    assert id in PendingIds(b.deferred) <==> exists d :: d in b.deferred && d.id == id;
    assert id in SettledIds(b.settled) <==> exists x :: x in b.settled && x.id == id;
  }

  /** No message is lost, duplicated or reordered: the k-th result given to a promise is the k-th that arrived, the rest is
      still buffered in order; and of two promises that got results the older one got the older result. */
  lemma ResultsInOrder(events: seq<Event>)
    ensures var b := Run(events); var rs := Results(b.settled);
      && |rs| + |b.messages| == b.arrived
      && (forall k | 0 <= k < |rs| :: rs[k].how == Result(k))
      && (forall k | 0 <= k < |b.messages| :: b.messages[k] == |rs| + k)
      && (forall j, k | 0 <= j < k < |rs| :: rs[j].id < rs[k].id)
      && (forall x, d | x in rs && d in b.deferred :: x.id < d.id)
  {
    RunKeepsInv(events);
    var rs := Results(Run(events).settled);
    assert forall j, k | 0 <= j < k < |rs| :: SettledId(rs[j]) < SettledId(rs[k]);
  }

  /** A time-out takes exactly the promises whose deadline has passed and leaves the others in their order. */
  lemma CleanTakesExpired(b: Buffer, now: nat, d: Deferred)
    requires Inv(b) && d in b.deferred
    ensures var u := Step(b, CleanTimeout(now));
      && (d in u.deferred <==> !(d.deadline.Some? && d.deadline.value < now))
      && (d !in u.deferred <==> Settled(d.id, TimedOut) in u.settled)
      && Ascending(u.deferred, DeferredId)
  {
    SplitPending(b.deferred, now);
    var u, gone := Step(b, CleanTimeout(now)), Late(b.deferred, now);
    if d in gone {
      var k :| 0 <= k < |gone| && gone[k] == d;
      assert Rejected(gone, TimedOut)[k] in Rejected(gone, TimedOut);
    } else {
      assert d.id in PendingIds(b.deferred);
      forall x | x in u.settled ensures x.id != d.id {
        if x in b.settled {
          assert x.id in SettledIds(b.settled);
        } else {
          var k :| 0 <= k < |gone| && Rejected(gone, TimedOut)[k] == x;
          assert gone[k] in gone;
          if gone[k].id == d.id {
            SameIdSamePromise(b.deferred, gone[k], d);
          }
        }
      }
    }
  }

  ghost predicate AnyClose(events: seq<Event>) { exists e :: e in events && (e.JsClose? || e.Close?) }

  /** The deadlines of all promises in the order in which they were handed out, from the events alone: every call of `recv`
      gets a promise until somebody closes. */
  ghost function Deadlines(events: seq<Event>): seq<Option<nat>> {
    if events == [] then []
    else
      var front, e := events[..|events| - 1], events[|events| - 1];
      if !e.JsRecv? || AnyClose(front) then Deadlines(front)
      else if e.timeout.None? then Deadlines(front) + [None]
      else Deadlines(front) + [Some(e.now + e.timeout.value)]
  }

  lemma StepIssues(b: Buffer, e: Event)
    ensures var u := Step(b, e);
      && (u.closed <==> b.closed || e.JsClose? || e.Close?)
      && u.issued == b.issued + (if e.JsRecv? && !b.closed then 1 else 0)
      && forall d | d in u.deferred ::
           d in b.deferred || (e.JsRecv? && !b.closed && d == Deferred(b.issued, Deadline(e.now, e.timeout)))
  {
    if e.CleanTimeout? {
      FilterMembers(b.deferred, (x: Deferred) => !Expired(x, e.now));
    }
  }

  /** A buffer counts as closed from the first close on, hands out a promise for every earlier call of `recv`, and keeps with
      each that is pending the deadline of the very call that it belongs to. */
  lemma {:induction false} DeadlinesAreKept(events: seq<Event>)
    ensures Run(events).closed <==> AnyClose(events)
    ensures Run(events).issued == |Deadlines(events)|
    ensures forall d | d in Run(events).deferred :: d.id < |Deadlines(events)| && d.deadline == Deadlines(events)[d.id]
  {
    if events != [] {
      var front, e := events[..|events| - 1], events[|events| - 1];
      var b := Run(front);
      DeadlinesAreKept(front);
      assert events == front + [e];
      assert AnyClose(events) <==> AnyClose(front) || e.JsClose? || e.Close?;
      StepIssues(b, e);
      if !e.JsRecv? || b.closed {
        assert Deadlines(events) == Deadlines(front);
      } else {
        assert Deadlines(events) == Deadlines(front) + [Deadline(e.now, e.timeout)];
      }
    }
  }

  function ArrivalsIn(events: seq<Event>): nat {
    if events == [] then 0 else ArrivalsIn(events[..|events| - 1]) + if events[|events| - 1].Arrival? then 1 else 0
  }

  /** Every result that arrives is counted, and so, by `ResultsInOrder`, buffered or given to a promise. */
  lemma {:induction false} ArrivalsAreCounted(events: seq<Event>)
    ensures Run(events).arrived == ArrivalsIn(events)
  {
    if events != [] {
      ArrivalsAreCounted(events[..|events| - 1]);
    }
  }

  /** A time-out leaves a promise pending if and only if its call gave no timeout, or the time it gave is not over. */
  lemma TimeoutTakesLate(events: seq<Event>, d: Deferred, now: nat)
    requires d in Run(events).deferred
    ensures d.id < |Deadlines(events)|
    ensures var deadline, u := Deadlines(events)[d.id], Run(events + [CleanTimeout(now)]);
      && (d in u.deferred <==> deadline.None? || deadline.value >= now)
      && (Settled(d.id, TimedOut) in u.settled <==> deadline.Some? && deadline.value < now)
  {
    RunKeepsInv(events);
    DeadlinesAreKept(events);
    assert (events + [CleanTimeout(now)])[..|events|] == events;
    CleanTakesExpired(Run(events), now, d);
  }

  /** No promise is timed out early, and none without a timeout ever. */
  lemma {:induction false} TimedOutIsLate(events: seq<Event>, id: nat)
    requires Settled(id, TimedOut) in Run(events).settled
    ensures id < |Deadlines(events)| && Deadlines(events)[id].Some?
    ensures exists e :: e in events && e.CleanTimeout? && e.now > Deadlines(events)[id].value
  {
    var front, e := events[..|events| - 1], events[|events| - 1];
    var b, x := Run(front), Settled(id, TimedOut);
    assert events == front + [e];
    if x in b.settled {
      TimedOutIsLate(front, id);
      var c :| c in front && c.CleanTimeout? && c.now > Deadlines(front)[id].value;
      assert c in events && Deadlines(events)[id] == Deadlines(front)[id];
    } else {
      DeadlinesAreKept(front);
      TimedOutByClean(b, e, x);
      var d :| d in b.deferred && d.id == id && Expired(d, e.now);
      assert e in events && Deadlines(events) == Deadlines(front);
    }
  }

  lemma TimedOutByClean(b: Buffer, e: Event, x: Settled)
    requires x.how.TimedOut? && x !in b.settled && x in Step(b, e).settled
    ensures e.CleanTimeout? && exists d :: d in b.deferred && d.id == x.id && Expired(d, e.now)
  {
    if e.CleanTimeout? {
      var gone := Late(b.deferred, e.now);
      FilterMembers(b.deferred, (d: Deferred) => Expired(d, e.now));
      var k :| 0 <= k < |gone| && Rejected(gone, TimedOut)[k] == x;
      assert gone[k] in gone;
    }
  }

  /** Closing rejects every promise that was pending, and leaves earlier settlements and buffered results alone. */
  lemma CloseRejectsPending(b: Buffer, d: Deferred)
    requires Inv(b) && d in b.deferred
    ensures var u := Step(b, Close);
      && Settled(d.id, Closed) in u.settled
      && b.settled <= u.settled && u.messages == b.messages
      && forall x | x in u.settled && x.id == d.id :: x.how == Closed
  {
    var r := Rejected(b.deferred, Closed);
    var k :| 0 <= k < |b.deferred| && b.deferred[k] == d;
    assert r[k] in r;
    assert d.id in PendingIds(b.deferred);
    forall x | x in b.settled ensures x.id != d.id {
      assert x.id in SettledIds(b.settled);
    }
  }

  /** Once closed from both sides, nothing is pending, and nothing ever will be. */
  lemma {:induction false} NothingPendingAfterClose(events: seq<Event>, k: nat)
    requires k < |events| && events[k].Close?
    ensures Run(events).closed && Run(events).deferred == []
  {
    var front := events[..|events| - 1];
    if k < |front| {
      assert front[k] == events[k];
      NothingPendingAfterClose(front, k);
    }
  }
}
