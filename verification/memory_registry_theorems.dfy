/** Best fit, exclusive reuse and the fate of free callbacks, over every history of a registry. */
module MemoryRegistryTheorems {
  import opened Prelude
  import opened MemoryRegistries

  // ---------- the invariant ----------

  ghost predicate KeysOk(inner: Inner) {
    forall k, i | k in inner && 0 <= i < |inner[k]| :: inner[k][i].region.size == k
  }

  function BucketGuards(rs: seq<Entry>): set<nat> {
    set i | 0 <= i < |rs| && rs[i].guard.Some? :: rs[i].guard.value
  }

  ghost predicate GuardsDistinct(rs: seq<Entry>) {
    forall i, j | 0 <= i < j < |rs| && rs[i].guard.Some? :: rs[i].guard != rs[j].guard
  }

  function Pending(inner: Inner): set<nat> {
    set k, c | k in inner && c in BucketGuards(inner[k]) :: c
  }

  /** Each pending callback sits in exactly one entry. */
  ghost predicate OnePlaceEach(inner: Inner) {
    && (forall k | k in inner :: GuardsDistinct(inner[k]))
    && forall k, l | k in inner && l in inner && k != l :: BucketGuards(inner[k]) !! BucketGuards(inner[l])
  }

  function BucketRegions(rs: seq<Entry>): set<nat> { set i | 0 <= i < |rs| :: rs[i].region.id }

  ghost predicate RegionsDistinct(rs: seq<Entry>) {
    forall i, j | 0 <= i < j < |rs| :: rs[i].region.id != rs[j].region.id
  }

  ghost predicate RegionsOk(inner: Inner, next: nat) {
    && (forall k, id | k in inner && id in BucketRegions(inner[k]) :: id < next)
    && (forall k | k in inner :: RegionsDistinct(inner[k]))
    && forall k, l | k in inner && l in inner && k != l :: BucketRegions(inner[k]) !! BucketRegions(inner[l])
  }

  /** Every accepted callback is either pending, in one place, or has run; none is both. */
  ghost predicate CallbacksOk(r: Registry) {
    && OnePlaceEach(r.inner)
    && Pending(r.inner) + r.fired == r.accepted
    && Pending(r.inner) !! r.fired
    && forall c | c in r.accepted :: c < r.nextCallback
  }

  ghost predicate Inv(r: Registry) {
    KeysOk(r.inner) && RegionsOk(r.inner, r.nextRegion) && CallbacksOk(r)
  }

  // ---------- maintenance keeps it ----------

  ghost predicate Survives(rs: seq<Entry>, now: nat, idle: nat -> bool, x: Entry) {
    exists i :: 0 <= i < |rs| && Recent(rs[i], now) && x == Swept(rs[i], idle)
  }

  lemma {:induction false} MaintainBucketFacts(rs: seq<Entry>, now: nat, idle: nat -> bool)
    ensures forall x | x in MaintainBucket(rs, now, idle) :: Survives(rs, now, idle, x)
  {
    if rs != [] {
      var front, last := rs[..|rs| - 1], rs[|rs| - 1];
      MaintainBucketFacts(front, now, idle);
      forall x | x in MaintainBucket(rs, now, idle) ensures Survives(rs, now, idle, x) {
        if x in MaintainBucket(front, now, idle) {
          var i :| 0 <= i < |front| && Recent(front[i], now) && x == Swept(front[i], idle);
          assert rs[i] == front[i];
        } else {
          assert x == Swept(rs[|rs| - 1], idle);
        }
      }
    }
  }

  lemma {:induction false} MaintainBucketRegions(rs: seq<Entry>, now: nat, idle: nat -> bool)
    ensures BucketRegions(MaintainBucket(rs, now, idle)) <= BucketRegions(rs)
    ensures RegionsDistinct(rs) ==> RegionsDistinct(MaintainBucket(rs, now, idle))
  {
    if rs != [] {
      var front, last := rs[..|rs| - 1], rs[|rs| - 1];
      var m := MaintainBucket(front, now, idle);
      MaintainBucketRegions(front, now, idle);
      BucketAppend(front, last, now, idle);
      BucketAppend(m, Swept(last, idle), now, idle);
      assert rs == front + [last];
      forall i | 0 <= i < |m| && RegionsDistinct(rs) ensures m[i].region.id != last.region.id {
        assert m[i].region.id in BucketRegions(front);
      }
    }
  }

  lemma {:induction false} MaintainBucketGuards(rs: seq<Entry>, now: nat, idle: nat -> bool)
    requires GuardsDistinct(rs)
    ensures var m := MaintainBucket(rs, now, idle);
      && BucketGuards(m) == BucketGuards(rs) - BucketFired(rs, now, idle)
      && GuardsDistinct(m)
  {
    if rs != [] {
      var front, e := rs[..|rs| - 1], rs[|rs| - 1];
      MaintainBucketGuards(front, now, idle);
      BucketAppend(front, e, now, idle);
      assert rs == front + [e];
      var m := MaintainBucket(front, now, idle);
      BucketAppend(m, Swept(e, idle), now, idle);
      forall i | 0 <= i < |m| && m[i].guard.Some? ensures m[i].guard.value in BucketGuards(front) {
        assert m[i].guard.value in BucketGuards(m);
      }
      assert e.guard.Some? ==> e.guard.value !in BucketGuards(front);
    }
  }

  lemma BucketAppend(rs: seq<Entry>, e: Entry, now: nat, idle: nat -> bool)
    ensures BucketGuards(rs + [e]) == BucketGuards(rs) + Opt(e.guard)
    ensures BucketFired(rs + [e], now, idle) == BucketFired(rs, now, idle) + (if Fires(e, now, idle) then Opt(e.guard) else {})
    ensures BucketRegions(rs + [e]) == BucketRegions(rs) + {e.region.id}
  {
    var all := rs + [e];
    forall i | 0 <= i < |rs| ensures all[i] == rs[i] {
    }
    assert all[|rs|] == e;
    forall c | c in BucketGuards(rs) + Opt(e.guard) ensures c in BucketGuards(all) {
      if c in BucketGuards(rs) {
        var i :| 0 <= i < |rs| && rs[i].guard == Some(c);
        assert all[i].guard == Some(c);
      } else {
        assert all[|rs|].guard == Some(c);
      }
    }
    forall c | c in BucketFired(rs, now, idle) ensures c in BucketFired(all, now, idle) {
      var i :| 0 <= i < |rs| && rs[i].guard == Some(c) && Fires(rs[i], now, idle);
      assert all[i].guard == Some(c);
    }
    if e.guard.Some? && Fires(e, now, idle) {
      assert all[|rs|].guard == e.guard;
    }
    forall id | id in BucketRegions(rs) ensures id in BucketRegions(all) {
      var i :| 0 <= i < |rs| && rs[i].region.id == id;
      assert all[i].region.id == id;
    }
    assert all[|rs|].region.id in BucketRegions(all);
  }

  lemma MaintainKeepsInv(r: Registry, now: nat, idle: nat -> bool)
    requires Inv(r)
    ensures Inv(Maintained(r, now, idle))
  {
    var m := Maintained(r, now, idle);
    forall k | k in m.inner
      ensures forall i | 0 <= i < |m.inner[k]| :: m.inner[k][i].region.size == k
      ensures BucketRegions(m.inner[k]) <= BucketRegions(r.inner[k]) && RegionsDistinct(m.inner[k])
    {
      MaintainBucketFacts(r.inner[k], now, idle);
      MaintainBucketRegions(r.inner[k], now, idle);
      forall i | 0 <= i < |m.inner[k]| ensures m.inner[k][i].region.size == k {
        assert m.inner[k][i] in m.inner[k];
      }
    }
    MaintainKeepsCallbacks(r, now, idle);
  }

  lemma MaintainKeepsCallbacks(r: Registry, now: nat, idle: nat -> bool)
    requires CallbacksOk(r)
    ensures CallbacksOk(Maintained(r, now, idle))
    ensures FiredBy(r.inner, now, idle) <= Pending(r.inner)
  {
    var m := Maintained(r, now, idle);
    forall k | k in r.inner
      ensures BucketGuards(MaintainBucket(r.inner[k], now, idle)) == BucketGuards(r.inner[k]) - BucketFired(r.inner[k], now, idle)
      ensures GuardsDistinct(MaintainBucket(r.inner[k], now, idle))
      ensures BucketFired(r.inner[k], now, idle) <= BucketGuards(r.inner[k])
    {
      MaintainBucketGuards(r.inner[k], now, idle);
    }
    forall c | c in Pending(r.inner) && c !in FiredBy(r.inner, now, idle) ensures c in Pending(m.inner) {
      var k :| k in r.inner && c in BucketGuards(r.inner[k]);
      assert c in BucketGuards(MaintainBucket(r.inner[k], now, idle));
      assert k in m.inner;
    }
    forall c | c in Pending(m.inner) ensures c in Pending(r.inner) && c !in FiredBy(r.inner, now, idle) {
      var k :| k in m.inner && c in BucketGuards(m.inner[k]);
    }
    assert Pending(m.inner) == Pending(r.inner) - FiredBy(r.inner, now, idle);
  }

  // ---------- allocation keeps it ----------

  lemma BucketUpdate(rs: seq<Entry>, i: nat, e: Entry)
    requires i < |rs| && GuardsDistinct(rs) && e.region == rs[i].region
    requires e.guard == rs[i].guard || (e.guard.Some? ==> e.guard.value !in BucketGuards(rs))
    ensures var us := rs[i := e];
      && BucketGuards(us) == BucketGuards(rs) - Opt(rs[i].guard) + Opt(e.guard)
      && GuardsDistinct(us)
  {
    var us := rs[i := e];
    forall c | c in BucketGuards(rs) - Opt(rs[i].guard) + Opt(e.guard) ensures c in BucketGuards(us) {
      if Some(c) == e.guard {
        assert us[i].guard == Some(c);
      } else {
        var j :| 0 <= j < |rs| && rs[j].guard == Some(c);
        assert us[j] == rs[j];
      }
    }
    forall j | 0 <= j < |us| && us[j].guard.Some? && j != i ensures us[j].guard.value in BucketGuards(rs) - Opt(rs[i].guard) {
      assert us[j] == rs[j];
    }
  }

  lemma PendingUpdate(inner: Inner, k: nat, rs: seq<Entry>)
    requires forall l | l in inner && l != k :: k in inner ==> BucketGuards(inner[k]) !! BucketGuards(inner[l])
    ensures Pending(inner[k := rs]) ==
            Pending(inner) - (if k in inner then BucketGuards(inner[k]) else {}) + BucketGuards(rs)
  {
    var u := inner[k := rs];
    forall c | c in BucketGuards(rs) ensures c in Pending(u) {
      assert k in u && u[k] == rs;
    }
    forall c | c in Pending(inner) && !(k in inner && c in BucketGuards(inner[k])) ensures c in Pending(u) {
      var l :| l in inner && c in BucketGuards(inner[l]);
      assert u[l] == inner[l];
    }
  }

  /** `u` is `r` with the entry at `p` replaced: its old callback is settled, its new one taken on. */
  ghost predicate Replaced(r: Registry, p: Place, e: Entry, u: Registry)
    requires p.key in r.inner && p.index < |r.inner[p.key]|
  {
    var o := r.inner[p.key][p.index];
    && e.region == o.region
    && u.inner == r.inner[p.key := r.inner[p.key][p.index := e]] && u.nextRegion == r.nextRegion
    && u.nextCallback >= r.nextCallback
    && if e.guard == o.guard then u.accepted == r.accepted && u.fired == r.fired
       else
         && (e.guard.Some? ==> e.guard.value !in r.accepted && e.guard.value < u.nextCallback)
         && u.accepted == r.accepted + Opt(e.guard) && u.fired == r.fired + Opt(o.guard)
  }

  lemma ReplaceKeepsRegions(r: Registry, p: Place, e: Entry, u: Registry)
    requires Inv(r) && p.key in r.inner && p.index < |r.inner[p.key]| && Replaced(r, p, e, u)
    ensures KeysOk(u.inner) && RegionsOk(u.inner, u.nextRegion)
  {
    var rs := r.inner[p.key];
    BucketRegionsUpdate(rs, p.index, e);
    forall k, id | k in u.inner && id in BucketRegions(u.inner[k]) ensures id < u.nextRegion {
      assert id in BucketRegions(r.inner[k]);
    }
  }

  lemma BucketRegionsUpdate(rs: seq<Entry>, i: nat, e: Entry)
    requires i < |rs| && e.region == rs[i].region
    ensures BucketRegions(rs[i := e]) == BucketRegions(rs)
    ensures RegionsDistinct(rs) ==> RegionsDistinct(rs[i := e])
  {
    var us := rs[i := e];
    forall j | 0 <= j < |us| ensures us[j].region == rs[j].region {
    }
    forall id | id in BucketRegions(rs) ensures id in BucketRegions(us) {
      var j :| 0 <= j < |rs| && rs[j].region.id == id;
      assert us[j].region.id == id;
    }
  }

  lemma ReplaceKeepsInv(r: Registry, p: Place, e: Entry, u: Registry)
    requires Inv(r) && p.key in r.inner && p.index < |r.inner[p.key]| && Replaced(r, p, e, u)
    ensures Inv(u)
  {
    var rs, o := r.inner[p.key], r.inner[p.key][p.index];
    assert BucketGuards(rs) <= Pending(r.inner);
    assert o.guard.Some? ==> o.guard.value in BucketGuards(rs);
    ReplaceKeepsRegions(r, p, e, u);
    ReplaceKeepsPlaces(r.inner, p, e);
    assert Pending(u.inner) == Pending(r.inner) - Opt(o.guard) + Opt(e.guard) by {
      ReplaceMovesPending(r.inner, p, e);
    }
  }

  lemma ReplaceMovesPending(inner: Inner, p: Place, e: Entry)
    requires OnePlaceEach(inner) && p.key in inner && p.index < |inner[p.key]|
    requires e.region == inner[p.key][p.index].region
    requires e.guard == inner[p.key][p.index].guard || (e.guard.Some? ==> e.guard.value !in Pending(inner))
    ensures Pending(inner[p.key := inner[p.key][p.index := e]]) ==
            Pending(inner) - Opt(inner[p.key][p.index].guard) + Opt(e.guard)
  {
    var rs := inner[p.key];
    assert BucketGuards(rs) <= Pending(inner);
    BucketUpdate(rs, p.index, e);
    PendingUpdate(inner, p.key, rs[p.index := e]);
  }

  lemma ReplaceKeepsPlaces(inner: Inner, p: Place, e: Entry)
    requires OnePlaceEach(inner) && p.key in inner && p.index < |inner[p.key]|
    requires e.region == inner[p.key][p.index].region
    requires e.guard == inner[p.key][p.index].guard || (e.guard.Some? ==> e.guard.value !in Pending(inner))
    ensures OnePlaceEach(inner[p.key := inner[p.key][p.index := e]])
  {
    assert BucketGuards(inner[p.key]) <= Pending(inner);
    BucketUpdate(inner[p.key], p.index, e);
    var u := inner[p.key := inner[p.key][p.index := e]];
    forall k, l | k in u && l in u && k != l ensures BucketGuards(u[k]) !! BucketGuards(u[l]) {
      assert BucketGuards(inner[k]) !! BucketGuards(inner[l]);
      assert BucketGuards(inner[k]) <= Pending(inner) && BucketGuards(inner[l]) <= Pending(inner);
    }
  }

  lemma ArmingKeepsInv(r: Registry, p: Place, free: Option<nat>, env: Env)
    requires Inv(r) && p.key in r.inner && p.index < |r.inner[p.key]|
    requires free.Some? ==> free.value !in r.accepted && free.value < r.nextCallback
    ensures Inv(Armed(r, p, free, env))
  {
    var e, armed := r.inner[p.key][p.index], Armed(r, p, free, env);
    assert e.guard.Some? ==> e.guard.value in BucketGuards(r.inner[p.key]) && e.guard.value in Pending(r.inner);
    if e.guard.None? && free.None? {
      assert armed.accepted == r.accepted && armed.fired == r.fired;
    }
    ReplaceKeepsInv(r, p, e.(lastAlloc := env.now, guard := free), armed);
  }

  lemma ReuseKeepsInv(r: Registry, p: Place, free: Option<nat>, env: Env)
    requires Inv(r) && p.key in r.inner && p.index < |r.inner[p.key]|
    requires free.Some? ==> free.value !in r.accepted && free.value < r.nextCallback
    ensures Inv(Reuse(r, p, free, env).registry)
  {
    var e := r.inner[p.key][p.index];
    var touched := e.(lastAlloc := env.now);
    assert e.guard.Some? ==> e.guard.value in BucketGuards(r.inner[p.key]) && e.guard.value in Pending(r.inner);
    if !env.cloneOk {
      ReplaceKeepsInv(r, p, touched, Reuse(r, p, free, env).registry);
    } else {
      ArmingKeepsInv(r, p, free, env);
      MaintainKeepsInv(Armed(r, p, free, env), env.now, Idle(env.sweep, Some(e.region.id)));
    }
  }

  lemma PushKeepsPlaces(inner: Inner, key: nat, e: Entry)
    requires OnePlaceEach(inner) && key in inner && (e.guard.Some? ==> e.guard.value !in Pending(inner))
    ensures OnePlaceEach(Pushed(inner, key, e))
    ensures Pending(Pushed(inner, key, e)) == Pending(inner) + Opt(e.guard)
  {
    var rs := inner[key];
    BucketAppend(rs, e, 0, (id: nat) => false);
    forall k | k in inner ensures BucketGuards(inner[k]) <= Pending(inner) {
    }
    PendingUpdate(inner, key, rs + [e]);
    forall i | 0 <= i < |rs| && rs[i].guard.Some? ensures rs[i].guard != e.guard {
      assert rs[i].guard.value in BucketGuards(rs);
    }
  }

  lemma PushKeepsRegions(inner: Inner, key: nat, e: Entry, next: nat)
    requires KeysOk(inner) && RegionsOk(inner, next) && key in inner && e.region.size == key
    requires (forall k | k in inner :: e.region.id !in BucketRegions(inner[k])) && e.region.id < next
    ensures KeysOk(Pushed(inner, key, e)) && RegionsOk(Pushed(inner, key, e), next)
  {
    var rs := inner[key];
    BucketAppend(rs, e, 0, (id: nat) => false);
    forall i | 0 <= i < |rs| ensures rs[i].region.id != e.region.id {
      assert rs[i].region.id in BucketRegions(rs);
    }
  }

  lemma PushKeepsInv(r: Registry, key: nat, e: Entry)
    requires Inv(r) && key in r.inner && e.region.size == key
    requires (forall k | k in r.inner :: e.region.id !in BucketRegions(r.inner[k])) && e.region.id < r.nextRegion
    requires e.guard.Some? ==> e.guard.value !in r.accepted && e.guard.value < r.nextCallback
    ensures Inv(r.(inner := Pushed(r.inner, key, e), accepted := r.accepted + Opt(e.guard)))
  {
    PushKeepsPlaces(r.inner, key, e);
    PushKeepsRegions(r.inner, key, e, r.nextRegion);
  }

  lemma EnterKeepsInv(r: Registry, key: nat)
    requires Inv(r)
    ensures var u := r.(inner := Entered(r.inner, key), nextRegion := r.nextRegion + 1);
      Inv(u) && forall k | k in u.inner :: r.nextRegion !in BucketRegions(u.inner[k])
  {
    var u := r.(inner := Entered(r.inner, key), nextRegion := r.nextRegion + 1);
    assert BucketGuards([]) == {} && BucketRegions([]) == {};
    if key !in r.inner {
      PendingUpdate(r.inner, key, []);
      assert Pending(u.inner) == Pending(r.inner);
    }
  }

  lemma FreshKeepsInv(r: Registry, minSize: nat, tag: Option<string>, free: Option<nat>, env: Env)
    requires Inv(r)
    requires free.Some? ==> free.value !in r.accepted && free.value < r.nextCallback
    ensures Inv(Fresh(r, minSize, tag, free, env).registry)
  {
    var m := Maintained(r, env.now, Idle(env.sweep, None));
    MaintainKeepsInv(r, env.now, Idle(env.sweep, None));
    if env.newOk {
      EnterKeepsInv(m, minSize);
      if env.cloneOk {
        var entered := m.(nextRegion := m.nextRegion + 1, inner := Entered(m.inner, minSize));
        PushKeepsInv(entered, minSize, Entry(Region(m.nextRegion, minSize), env.now, tag, free));
      }
    }
  }

  lemma AllocKeepsInv(r: Registry, minSize: nat, tag: Option<string>, withFree: bool, env: Env)
    requires Inv(r)
    ensures Inv(Alloc(r, minSize, tag, withFree, env).registry)
  {
    var free := if withFree then Some(r.nextCallback) else None;
    var r' := if withFree then r.(nextCallback := r.nextCallback + 1) else r;
    FindFacts(r'.inner, minSize, minSize * 2, tag, env.scan);
    var place := Find(r'.inner, minSize, minSize * 2, tag, env.scan);
    if place.Some? {
      ReuseKeepsInv(r', place.value, free, env);
    } else {
      FreshKeepsInv(r', minSize, tag, free, env);
    }
  }

  // ---------- every history ----------

  datatype Call =
    | AllocCall(minSize: nat, tag: Option<string>, withFree: bool, env: Env)
    | MaintainCall(now: nat, sweep: nat -> nat)

  function Apply(r: Registry, c: Call): Registry {
    match c
    case AllocCall(minSize, tag, withFree, env) => Alloc(r, minSize, tag, withFree, env).registry
    case MaintainCall(now, sweep) => Maintained(r, now, Idle(sweep, None))
  }

  const Empty: Registry := Registry(map[], 0, 0, {}, {})

  function History(calls: seq<Call>): Registry {
    if calls == [] then Empty else Apply(History(calls[..|calls| - 1]), calls[|calls| - 1])
  }

  lemma {:induction false} HistoryKeepsInv(calls: seq<Call>)
    ensures Inv(History(calls))
  {
    if calls != [] {
      var front, last := calls[..|calls| - 1], calls[|calls| - 1];
      HistoryKeepsInv(front);
      match last {
        case AllocCall(minSize, tag, withFree, env) => AllocKeepsInv(History(front), minSize, tag, withFree, env);
        case MaintainCall(now, sweep) => MaintainKeepsInv(History(front), now, Idle(sweep, None));
      }
    }
  }

  ghost predicate PendingAt(inner: Inner, p: Place, c: nat) {
    p.key in inner && p.index < |inner[p.key]| && inner[p.key][p.index].guard == Some(c)
  }

  /** In every history, an accepted callback has either run, or is pending in one entry and in no other, never both; and
      every entry lies under the key that is its region's size. */
  lemma CallbackFate(calls: seq<Call>, c: nat)
    requires c in History(calls).accepted
    ensures var r := History(calls);
      && (c in r.fired <==> !exists p :: PendingAt(r.inner, p, c))
      && (forall p, q | PendingAt(r.inner, p, c) && PendingAt(r.inner, q, c) :: p == q)
      && (forall k, i | k in r.inner && 0 <= i < |r.inner[k]| :: r.inner[k][i].region.size == k)
  {
    HistoryKeepsInv(calls);
    var r := History(calls);
    if c in Pending(r.inner) {
      var k :| k in r.inner && c in BucketGuards(r.inner[k]);
      var i :| 0 <= i < |r.inner[k]| && r.inner[k][i].guard == Some(c);
      assert PendingAt(r.inner, Place(k, i), c);
    }
    forall p | PendingAt(r.inner, p, c) ensures c in BucketGuards(r.inner[p.key]) && c in Pending(r.inner) {
    }
    forall p, q | PendingAt(r.inner, p, c) && PendingAt(r.inner, q, c) ensures p == q {
      assert c in BucketGuards(r.inner[p.key]) && c in BucketGuards(r.inner[q.key]);
      assert p.key == q.key;
    }
  }

  lemma {:induction false} CallbacksNeverTakenBack(calls: seq<Call>, n: nat)
    requires n <= |calls|
    ensures History(calls[..n]).fired <= History(calls).fired
    ensures History(calls[..n]).accepted <= History(calls).accepted
  {
    if n < |calls| {
      var front := calls[..|calls| - 1];
      assert front[..n] == calls[..n];
      CallbacksNeverTakenBack(front, n);
    } else {
      assert calls[..n] == calls;
    }
  }

  lemma FiredIff(r: Registry, now: nat, idle: nat -> bool, p: Place, c: nat)
    requires Inv(r) && PendingAt(r.inner, p, c)
    ensures c in Maintained(r, now, idle).fired <==> Fires(r.inner[p.key][p.index], now, idle)
  {
    assert c in BucketGuards(r.inner[p.key]) && c in Pending(r.inner);
    if c in FiredBy(r.inner, now, idle) {
      var k :| k in r.inner && c in BucketFired(r.inner[k], now, idle);
      var i :| 0 <= i < |r.inner[k]| && r.inner[k][i].guard == Some(c) && Fires(r.inner[k][i], now, idle);
      assert c in BucketGuards(r.inner[k]);
      assert k == p.key && i == p.index;
    } else {
      assert c !in BucketFired(r.inner[p.key], now, idle);
    }
  }

  /** Maintenance runs a pending callback exactly when its region is idle or its entry has not been allocated from for the
      whole expiry period, whether or not the region is still held elsewhere. */
  lemma MaintenanceFires(r: Registry, now: nat, sweep: nat -> nat, p: Place, c: nat)
    requires Inv(r) && PendingAt(r.inner, p, c)
    ensures var e := r.inner[p.key][p.index];
      c in Maintained(r, now, Idle(sweep, None)).fired <==> sweep(e.region.id) == 0 || now >= e.lastAlloc + 5_000
  {
    FiredIff(r, now, Idle(sweep, None), p, c);
  }

  lemma FirstAllocation(minSize: nat, tag: Option<string>, env: Env)
    requires env.newOk && env.cloneOk
    ensures Alloc(Empty, minSize, tag, true, env).registry ==
            Registry(map[minSize := [Entry(Region(0, minSize), env.now, tag, Some(0))]], 1, 1, {0}, {})
  {
    var r := Empty.(nextCallback := 1);
    FindFacts(r.inner, minSize, minSize * 2, tag, env.scan);
    var m := Maintained(r, env.now, Idle(env.sweep, None));
    assert m.inner == map[] && m.fired == {};
    var entry := Entry(Region(0, minSize), env.now, tag, Some(0));
    var entered := Entered(m.inner, minSize);
    assert entered == map[minSize := []] && entered[minSize] + [entry] == [entry];
    assert Pushed(entered, minSize, entry) == map[minSize := [entry]];
  }

  /** It does happen that a callback runs while its region is held elsewhere: in a history of two calls, the allocation of
      a region and, once the expiry period is over, a maintenance that finds the region in use. */
  lemma FiresWhileHeld(minSize: nat, tag: Option<string>, env: Env, now: nat, sweep: nat -> nat)
    requires env.newOk && env.cloneOk && now >= env.now + 5_000 && sweep(0) > 0
    ensures var before := History([AllocCall(minSize, tag, true, env)]);
      && before.inner == map[minSize := [Entry(Region(0, minSize), env.now, tag, Some(0))]]
      && 0 !in before.fired
      && 0 in History([AllocCall(minSize, tag, true, env), MaintainCall(now, sweep)]).fired
  {
    var first, second := AllocCall(minSize, tag, true, env), MaintainCall(now, sweep);
    assert [first, second][..1] == [first] && [first][..0] == [];
    var before := History([first]);
    FirstAllocation(minSize, tag, env);
    HistoryKeepsInv([first]);
    assert History([]) == Empty && before == Apply(Empty, first);
    assert before.inner[minSize] == [Entry(Region(0, minSize), env.now, tag, Some(0))];
    assert PendingAt(before.inner, Place(minSize, 0), 0);
    MaintenanceFires(before, now, sweep, Place(minSize, 0), 0);
  }

  /** Eviction runs the callback: whatever maintenance removes has nothing pending left. */
  lemma EvictedHasFired(r: Registry, now: nat, idle: nat -> bool, p: Place, c: nat)
    requires Inv(r) && PendingAt(r.inner, p, c)
    ensures var m := Maintained(r, now, idle); c in m.fired <==> c !in Pending(m.inner)
  {
    assert c in BucketGuards(r.inner[p.key]) && c in Pending(r.inner);
    MaintainKeepsInv(r, now, idle);
  }

  // ---------- one allocation ----------

  /** Best fit with bounded waste. A positive request is served with a region of at least the requested size and less than
      twice that. If the cache holds a region in that range to which only the registry refers, with the same tag, the
      smallest such region is handed out, and nobody else holds it; otherwise, and always for a request of size 0, a new
      region of exactly the requested size is made. */
  lemma BestFit(r: Registry, minSize: nat, tag: Option<string>, withFree: bool, env: Env)
    requires Inv(r) && Alloc(r, minSize, tag, withFree, env).region.Some?
    ensures var region := Alloc(r, minSize, tag, withFree, env).region.value;
      && minSize <= region.size
      && (if minSize > 0 then region.size < 2 * minSize else region.size == 0)
      && ((exists k: nat, i: nat | minSize <= k < 2 * minSize :: IsEligible(r.inner, k, i, tag, env.scan)) ==>
            && env.scan(region.id) == 0
            && (exists i: nat :: IsEligible(r.inner, region.size, i, tag, env.scan) && r.inner[region.size][i].region == region)
            && (forall k: nat, i: nat | minSize <= k < 2 * minSize && IsEligible(r.inner, k, i, tag, env.scan) :: region.size <= k))
      && ((forall k: nat, i: nat | minSize <= k < 2 * minSize :: !IsEligible(r.inner, k, i, tag, env.scan)) ==>
            region == Region(r.nextRegion, minSize))
  {
    FindFacts(r.inner, minSize, minSize * 2, tag, env.scan);
    var p := Find(r.inner, minSize, minSize * 2, tag, env.scan);
    if p.Some? {
      assert IsEligible(r.inner, p.value.key, p.value.index, tag, env.scan);
      assert r.inner[p.value.key][p.value.index].region.size == p.value.key;
    }
  }

  /** An allocation fails exactly when a system call does that it needs: the clone of the cached region if there is one,
      otherwise the creation of a region or its clone. A callback that came with a failed allocation is not accepted. */
  lemma AllocFailsIff(r: Registry, minSize: nat, tag: Option<string>, withFree: bool, env: Env)
    requires Inv(r)
    ensures var o := Alloc(r, minSize, tag, withFree, env);
      var cached := exists k: nat, i: nat | minSize <= k < 2 * minSize :: IsEligible(r.inner, k, i, tag, env.scan);
      && (o.region.None? <==> if cached then !env.cloneOk else !env.newOk || !env.cloneOk)
      && (o.region.None? ==> o.registry.accepted == r.accepted)
  {
    FindFacts(r.inner, minSize, minSize * 2, tag, env.scan);
  }

  lemma {:induction false} RecentStays(rs: seq<Entry>, now: nat, idle: nat -> bool, i: nat)
    requires i < |rs| && Recent(rs[i], now)
    ensures Swept(rs[i], idle) in MaintainBucket(rs, now, idle)
  {
    if i < |rs| - 1 {
      assert rs[..|rs| - 1][i] == rs[i];
      RecentStays(rs[..|rs| - 1], now, idle, i);
    }
  }

  ghost predicate Cached(inner: Inner, e: Entry) { e.region.size in inner && e in inner[e.region.size] }

  /** Eviction, exactly: maintenance keeps a region in the cache if and only if it was allocated from within the expiry
      period, whether or not anybody uses it, and takes nothing from its entry but the callback of an idle region. */
  lemma EvictedIff(r: Registry, now: nat, idle: nat -> bool, p: Place)
    requires Inv(r) && p.key in r.inner && p.index < |r.inner[p.key]|
    ensures var e := r.inner[p.key][p.index]; var m := Maintained(r, now, idle);
      && (Cached(m.inner, Swept(e, idle)) <==> now < e.lastAlloc + 5_000)
      && (forall x | Cached(m.inner, x) && x.region == e.region :: x == Swept(e, idle))
  {
    var rs := r.inner[p.key];
    var e, b := rs[p.index], MaintainBucket(rs, now, idle);
    assert e.region.size == p.key;
    MaintainBucketFacts(rs, now, idle);
    if Recent(e, now) {
      RecentStays(rs, now, idle, p.index);
    }
    forall x | x in b && x.region == e.region ensures x == Swept(e, idle) && Recent(e, now) {
      var i :| 0 <= i < |rs| && Recent(rs[i], now) && x == Swept(rs[i], idle);
      assert i == p.index;
    }
  }

  ghost predicate StillCached(inner: Inner, region: Region) { exists x: Entry :: Cached(inner, x) && x.region == region }

  lemma MaintainedKeepsIff(r: Registry, now: nat, idle: nat -> bool, p: Place)
    requires Inv(r) && p.key in r.inner && p.index < |r.inner[p.key]|
    ensures var e, m := r.inner[p.key][p.index], Maintained(r, now, idle);
      && (StillCached(m.inner, e.region) <==> now < e.lastAlloc + 5_000)
      && (e.guard.Some? ==> (e.guard.value in m.fired <==> idle(e.region.id) || now >= e.lastAlloc + 5_000))
  {
    var e, m := r.inner[p.key][p.index], Maintained(r, now, idle);
    EvictedIff(r, now, idle, p);
    assert Cached(m.inner, Swept(e, idle)) ==> StillCached(m.inner, e.region);
    if e.guard.Some? {
      assert PendingAt(r.inner, p, e.guard.value);
      FiredIff(r, now, idle, p, e.guard.value);
    }
  }

  lemma PushSpares(inner: Inner, key: nat, e: Entry, region: Region)
    requires e.region != region
    ensures StillCached(Entered(inner, key), region) <==> StillCached(inner, region)
    ensures StillCached(Pushed(Entered(inner, key), key, e), region) <==> StillCached(inner, region)
  {
    var entered := Entered(inner, key);
    var pushed := Pushed(entered, key, e);
    forall x: Entry | x.region == region
      ensures Cached(inner, x) <==> Cached(entered, x)
      ensures Cached(entered, x) <==> Cached(pushed, x)
    {
    }
  }

  lemma PlacesDiffer(r: Registry, p: Place, q: Place)
    requires Inv(r) && p.key in r.inner && p.index < |r.inner[p.key]| && q.key in r.inner && q.index < |r.inner[q.key]|
    ensures r.inner[p.key][p.index].region.id == r.inner[q.key][q.index].region.id <==> p == q
  {
    assert r.inner[p.key][p.index].region.id in BucketRegions(r.inner[p.key]);
    assert r.inner[q.key][q.index].region.id in BucketRegions(r.inner[q.key]);
  }

  lemma FreshMaintains(r: Registry, minSize: nat, tag: Option<string>, free: Option<nat>, env: Env, p: Place)
    requires Inv(r) && p.key in r.inner && p.index < |r.inner[p.key]|
    ensures var o, e := Fresh(r, minSize, tag, free, env), r.inner[p.key][p.index];
      && (StillCached(o.registry.inner, e.region) <==> env.now < e.lastAlloc + 5_000)
      && (e.guard.Some? ==>
            (e.guard.value in o.registry.fired <==> env.sweep(e.region.id) == 0 || env.now >= e.lastAlloc + 5_000))
  {
    var e, m := r.inner[p.key][p.index], Maintained(r, env.now, Idle(env.sweep, None));
    MaintainedKeepsIff(r, env.now, Idle(env.sweep, None), p);
    assert e.region.id in BucketRegions(r.inner[p.key]);
    PushSpares(m.inner, minSize, Entry(Region(m.nextRegion, minSize), env.now, tag, free), e.region);
  }

  lemma ReuseMaintains(r: Registry, q: Place, free: Option<nat>, env: Env, p: Place)
    requires Inv(r) && p.key in r.inner && p.index < |r.inner[p.key]| && q.key in r.inner && q.index < |r.inner[q.key]|
    requires p != q && env.cloneOk && (free.Some? ==> free.value !in r.accepted && free.value < r.nextCallback)
    ensures var o, e := Reuse(r, q, free, env), r.inner[p.key][p.index];
      && (StillCached(o.registry.inner, e.region) <==> env.now < e.lastAlloc + 5_000)
      && (e.guard.Some? ==>
            (e.guard.value in o.registry.fired <==> env.sweep(e.region.id) == 0 || env.now >= e.lastAlloc + 5_000))
  {
    var armed, mine := Armed(r, q, free, env), r.inner[q.key][q.index].region.id;
    PlacesDiffer(r, p, q);
    ArmingKeepsInv(r, q, free, env);
    assert armed.inner[p.key][p.index] == r.inner[p.key][p.index];
    MaintainedKeepsIff(armed, env.now, Idle(env.sweep, Some(mine)), p);
  }

  lemma FailedCloneKeeps(r: Registry, q: Place, free: Option<nat>, env: Env, p: Place)
    requires Inv(r) && p.key in r.inner && p.index < |r.inner[p.key]| && q.key in r.inner && q.index < |r.inner[q.key]|
    requires !env.cloneOk
    ensures var o, e := Reuse(r, q, free, env), r.inner[p.key][p.index];
      StillCached(o.registry.inner, e.region) && o.registry.fired == r.fired
  {
    var inner: Inner, e := Reuse(r, q, free, env).registry.inner, r.inner[p.key][p.index];
    assert inner[p.key][p.index] in inner[p.key] && inner[p.key][p.index].region == e.region;
    assert Cached(inner, inner[p.key][p.index]);
  }

  /** Every allocation maintains the whole cache, unless it fails to clone the region it has found. Of every entry but the one
      handed out: it stays cached if and only if it was allocated from within the last 5 seconds, and its callback has run
      afterwards if and only if nobody holds the region or it is that old. A failed clone evicts nothing and runs nothing. */
  lemma AllocMaintains(r: Registry, minSize: nat, tag: Option<string>, withFree: bool, env: Env, p: Place)
    requires Inv(r) && p.key in r.inner && p.index < |r.inner[p.key]|
    requires Alloc(r, minSize, tag, withFree, env).region != Some(r.inner[p.key][p.index].region)
    ensures var u, e := Alloc(r, minSize, tag, withFree, env).registry, r.inner[p.key][p.index];
      var cached := exists k: nat, i: nat | minSize <= k < 2 * minSize :: IsEligible(r.inner, k, i, tag, env.scan);
      var maintains := !cached || env.cloneOk;
      && (StillCached(u.inner, e.region) <==> !maintains || env.now < e.lastAlloc + 5_000)
      && (e.guard.Some? ==>
            (e.guard.value in u.fired <==>
               maintains && (env.sweep(e.region.id) == 0 || env.now >= e.lastAlloc + 5_000)))
  {
    var r' := if withFree then r.(nextCallback := r.nextCallback + 1) else r;
    var free := if withFree then Some(r.nextCallback) else None;
    FindFacts(r.inner, minSize, minSize * 2, tag, env.scan);
    var q := Find(r.inner, minSize, minSize * 2, tag, env.scan);
    if q.None? {
      FreshMaintains(r', minSize, tag, free, env, p);
    } else if env.cloneOk {
      ReuseMaintains(r', q.value, free, env, p);
    } else {
      var e := r.inner[p.key][p.index];
      assert e.guard.Some? ==> e.guard.value in BucketGuards(r.inner[p.key]) && e.guard.value in Pending(r.inner);
      FailedCloneKeeps(r', q.value, free, env, p);
    }
  }

  /** An armed entry that was allocated from just now, and whose region this very call holds, survives the maintenance of
      the call with its callback unfired. */
  lemma ArmedSurvives(r: Registry, p: Place, c: nat, env: Env)
    requires Inv(r) && PendingAt(r.inner, p, c) && r.inner[p.key][p.index].lastAlloc == env.now
    ensures var e := r.inner[p.key][p.index];
      var m := Maintained(r, env.now, Idle(env.sweep, Some(e.region.id)));
      c !in m.fired && exists q :: PendingAt(m.inner, q, c) && m.inner[q.key][q.index].region == e.region
  {
    var e := r.inner[p.key][p.index];
    var idle := Idle(env.sweep, Some(e.region.id));
    var m := Maintained(r, env.now, idle);
    FiredIff(r, env.now, idle, p, c);
    RecentStays(r.inner[p.key], env.now, idle, p.index);
    var i :| 0 <= i < |m.inner[p.key]| && m.inner[p.key][i] == e;
    assert PendingAt(m.inner, Place(p.key, i), c);
  }

  /** A new callback is accepted by a successful allocation only. The maintenance inside that allocation does not run it:
      it ends up pending in the entry of the region handed out. */
  lemma NewCallbackIsPending(r: Registry, minSize: nat, tag: Option<string>, env: Env)
    requires Inv(r)
    ensures var o := Alloc(r, minSize, tag, true, env); var u := o.registry;
      && u.accepted == (if o.region.Some? then r.accepted + {r.nextCallback} else r.accepted)
      && (o.region.Some? ==>
            && r.nextCallback !in u.fired
            && exists q :: PendingAt(u.inner, q, r.nextCallback) && u.inner[q.key][q.index].region == o.region.value)
  {
    var r' := r.(nextCallback := r.nextCallback + 1);
    var free := Some(r.nextCallback);
    var o := Alloc(r, minSize, tag, true, env);
    FindFacts(r.inner, minSize, minSize * 2, tag, env.scan);
    var p := Find(r.inner, minSize, minSize * 2, tag, env.scan);
    if o.region.Some? && p.Some? {
      ArmingKeepsInv(r', p.value, free, env);
      ArmedSurvives(Armed(r', p.value, free, env), p.value, r.nextCallback, env);
    } else if o.region.Some? {
      MaintainKeepsInv(r', env.now, Idle(env.sweep, None));
      var rs := o.registry.inner[minSize];
      assert PendingAt(o.registry.inner, Place(minSize, |rs| - 1), r.nextCallback);
    }
  }

  /** What a successful allocation hands out is in the cache under its size, time-stamped now, with the tag asked for and
      with the new callback, if there is one, and no other. */
  lemma AllocatedIsCached(r: Registry, minSize: nat, tag: Option<string>, withFree: bool, env: Env)
    requires Inv(r) && Alloc(r, minSize, tag, withFree, env).region.Some?
    ensures var o := Alloc(r, minSize, tag, withFree, env);
      Cached(o.registry.inner, Entry(o.region.value, env.now, tag, if withFree then Some(r.nextCallback) else None))
  {
    var r' := if withFree then r.(nextCallback := r.nextCallback + 1) else r;
    var free := if withFree then Some(r.nextCallback) else None;
    FindFacts(r.inner, minSize, minSize * 2, tag, env.scan);
    var p := Find(r.inner, minSize, minSize * 2, tag, env.scan);
    if p.Some? {
      ReusedIsCached(r', p.value, free, env);
    } else {
      MadeIsCached(r', minSize, tag, free, env);
    }
  }

  lemma ReusedIsCached(r: Registry, p: Place, free: Option<nat>, env: Env)
    requires Inv(r) && p.key in r.inner && p.index < |r.inner[p.key]| && env.cloneOk
    requires free.Some? ==> free.value !in r.accepted && free.value < r.nextCallback
    ensures var e := r.inner[p.key][p.index];
      Cached(Reuse(r, p, free, env).registry.inner, Entry(e.region, env.now, e.tag, free))
  {
    var armed, e := Armed(r, p, free, env), r.inner[p.key][p.index];
    ArmingKeepsInv(r, p, free, env);
    assert armed.inner[p.key][p.index] == Entry(e.region, env.now, e.tag, free);
    EvictedIff(armed, env.now, Idle(env.sweep, Some(e.region.id)), p);
  }

  lemma MadeIsCached(r: Registry, minSize: nat, tag: Option<string>, free: Option<nat>, env: Env)
    requires env.newOk && env.cloneOk
    ensures var o := Fresh(r, minSize, tag, free, env);
      Cached(o.registry.inner, Entry(o.region.value, env.now, tag, free))
  {
    var m := Maintained(r, env.now, Idle(env.sweep, None));
    var e, entered := Entry(Region(m.nextRegion, minSize), env.now, tag, free), Entered(m.inner, minSize);
    assert Pushed(entered, minSize, e)[minSize] == entered[minSize] + [e];
  }

  /** By the time a cached region is handed out again, the callback its entry still had has run. */
  lemma OldCallbackHasRun(r: Registry, minSize: nat, tag: Option<string>, withFree: bool, env: Env, p: Place, c: nat)
    requires Inv(r) && PendingAt(r.inner, p, c)
    requires Alloc(r, minSize, tag, withFree, env).region == Some(r.inner[p.key][p.index].region)
    ensures c in Alloc(r, minSize, tag, withFree, env).registry.fired
  {
    FindFacts(r.inner, minSize, minSize * 2, tag, env.scan);
    var q := Find(r.inner, minSize, minSize * 2, tag, env.scan);
    assert r.inner[p.key][p.index].region.id in BucketRegions(r.inner[p.key]);
    assert q.Some?;
    assert q.value == p;
  }
}
