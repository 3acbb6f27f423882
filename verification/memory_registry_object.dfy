/** The registry as an object: its map of vectors is searched and changed in place. */
module MemoryRegistryObjects {
  import opened Prelude
  import opened MemoryRegistries
  import opened MemoryRegistryTheorems

  class MemoryRegistry {
    var inner: Inner
    var nextRegion: nat
    var nextCallback: nat
    ghost var accepted: set<nat>
    ghost var fired: set<nat>

    ghost function State(): Registry
      reads this
    {
      Registry(inner, nextRegion, nextCallback, accepted, fired)
    }

    constructor ()
      ensures State() == Empty
    {
      inner, nextRegion, nextCallback := map[], 0, 0;
      accepted, fired := {}, {};
    }

    /** Dropping a guard runs its callback. A callback can be run once: the precondition is what every caller owes. */
    method DropGuard(guard: Option<nat>)
      requires guard.Some? ==> guard.value !in fired
      modifies this`fired
      ensures fired == old(fired) + Opt(guard)
    {
      if guard.Some? {
        fired := fired + {guard.value};
      }
    }

    /** The `retain_mut` over one vector. */
    method MaintainVector(rs: seq<Entry>, now: nat, sweep: nat -> nat, mine: Option<nat>) returns (kept: seq<Entry>)
      requires GuardsDistinct(rs) && BucketGuards(rs) !! fired
      modifies this`fired
      ensures kept == MaintainBucket(rs, now, Idle(sweep, mine))
      ensures fired == old(fired) + BucketFired(rs, now, Idle(sweep, mine))
    {
      kept := [];
      ghost var idle := Idle(sweep, mine);
      for i := 0 to |rs|
        invariant kept == MaintainBucket(rs[..i], now, idle)
        invariant fired == old(fired) + BucketFired(rs[..i], now, idle)
      {
        var e := rs[i];
        assert rs[..i + 1] == rs[..i] + [e] && rs[..i + 1][..i] == rs[..i];
        BucketAppend(rs[..i], e, now, idle);
        assert e.guard.Some? ==> e.guard.value in BucketGuards(rs);
        assert e.guard.Some? ==> e.guard.value !in BucketFired(rs[..i], now, idle);
        var shouldRetain := now < e.lastAlloc + EXPIRY;
        var others := (if Some(e.region.id) == mine then 1 else 0) + sweep(e.region.id);
        if 1 + others == 1 {
          DropGuard(e.guard);
          e := e.(guard := None);
        }
        if shouldRetain {
          kept := kept + [e];
        } else {
          DropGuard(e.guard);
        }
      }
      assert rs[..|rs|] == rs;
    }

    method Maintain(now: nat, sweep: nat -> nat, mine: Option<nat>)
      requires Inv(State())
      modifies this`inner, this`fired
      ensures State() == Maintained(old(State()), now, Idle(sweep, mine))
    {
      ghost var idle := Idle(sweep, mine);
      var todo := inner.Keys;
      var kept: Inner := map[];
      MaintainKeepsCallbacks(State(), now, idle);
      while todo != {}
        invariant inner == old(inner) && todo <= inner.Keys
        invariant kept == MaintainInner(inner - todo, now, idle)
        invariant fired == old(fired) + FiredBy(inner - todo, now, idle)
      {
        var key :| key in todo;
        VectorIsUnfired(State(), old(fired), inner - todo, key, now, idle);
        var rs := MaintainVector(inner[key], now, sweep, mine);
        if rs != [] {
          kept := kept[key := rs];
        }
        OneMore(inner, todo, key, now, idle);
        todo := todo - {key};
      }
      assert inner - {} == inner;
      inner := kept;
    }

    /** `alloc_inner`. Doubling the size must not overflow a machine word. */
    method AllocInner(minSize: nat, tag: Option<string>, free: Option<nat>, env: Env) returns (region: Option<Region>)
      requires Inv(State()) && minSize * 2 < USIZE_LIMIT
      requires free.Some? ==> free.value !in accepted && free.value < nextCallback
      modifies this
      ensures Outcome(State(), region) == MemoryRegistries.AllocInner(old(State()), minSize, tag, free, env)
    {
      FindFacts(inner, minSize, minSize * 2, tag, env.scan);
      for key := minSize to minSize * 2
        invariant State() == old(State())
        invariant Find(inner, minSize, minSize * 2, tag, env.scan) == Find(inner, key, minSize * 2, tag, env.scan)
      {
        if key in inner {
          for i := 0 to |inner[key]|
            invariant State() == old(State())
            invariant FirstIn(inner[key], i, tag, env.scan) == FirstIn(inner[key], 0, tag, env.scan)
          {
            var e := inner[key][i];
            if 1 + env.scan(e.region.id) == 1 && tag == e.tag {
              assert Find(inner, minSize, minSize * 2, tag, env.scan) == Some(Place(key, i));
              region := TakeCached(key, i, free, env);
              return;
            }
          }
        }
      }
      Maintain(env.now, env.sweep, None);
      if !env.newOk {
        return None;
      }
      var r := Region(nextRegion, minSize);
      nextRegion := nextRegion + 1;
      if minSize !in inner {
        inner := inner[minSize := []];
      }
      if !env.cloneOk {
        return None;
      }
      inner := inner[minSize := inner[minSize] + [Entry(r, env.now, tag, free)]];
      accepted := accepted + Opt(free);
      return Some(r);
    }

    /** The body of the search, once it has found its entry. */
    method TakeCached(key: nat, i: nat, free: Option<nat>, env: Env) returns (region: Option<Region>)
      requires Inv(State()) && key in inner && i < |inner[key]|
      requires free.Some? ==> free.value !in accepted && free.value < nextCallback
      modifies this
      ensures Outcome(State(), region) == Reuse(old(State()), Place(key, i), free, env)
    {
      ghost var before := State();
      var e := inner[key][i];
      inner := inner[key := inner[key][i := e.(lastAlloc := env.now)]];
      if !env.cloneOk {
        return None;
      }
      assert e.guard.Some? ==> e.guard.value in BucketGuards(before.inner[key]) && e.guard.value in Pending(before.inner);
      DropGuard(e.guard);
      inner := inner[key := inner[key][i := e.(lastAlloc := env.now, guard := free)]];
      accepted := accepted + Opt(free);
      ArmingKeepsInv(before, Place(key, i), free, env);
      OverwrittenTwice(before.inner, key, i, e.(lastAlloc := env.now), e.(lastAlloc := env.now, guard := free));
      assert State() == Armed(before, Place(key, i), free, env);
      Maintain(env.now, env.sweep, Some(e.region.id));
      return Some(e.region);
    }

    method Alloc(minSize: nat, tag: Option<string>, env: Env) returns (region: Option<Region>)
      requires Inv(State()) && minSize * 2 < USIZE_LIMIT
      modifies this
      ensures Inv(State())
      ensures Outcome(State(), region) == MemoryRegistries.Alloc(old(State()), minSize, tag, false, env)
    {
      AllocKeepsInv(State(), minSize, tag, false, env);
      region := AllocInner(minSize, tag, None, env);
    }

    method AllocWithFree(minSize: nat, tag: Option<string>, env: Env) returns (region: Option<Region>)
      requires Inv(State()) && minSize * 2 < USIZE_LIMIT
      modifies this
      ensures Inv(State())
      ensures Outcome(State(), region) == MemoryRegistries.Alloc(old(State()), minSize, tag, true, env)
    {
      AllocKeepsInv(State(), minSize, tag, true, env);
      var free := nextCallback;
      nextCallback := nextCallback + 1;
      region := AllocInner(minSize, tag, Some(free), env);
    }
  }

  lemma OverwrittenTwice(inner: Inner, key: nat, i: nat, a: Entry, b: Entry)
    requires key in inner && i < |inner[key]|
    ensures var once := inner[key := inner[key][i := a]];
      once[key := once[key][i := b]] == inner[key := inner[key][i := b]]
  {
    assert inner[key][i := a][i := b] == inner[key][i := b];
  }

  /** Callbacks run for some vectors are not those of another. */
  lemma VectorIsUnfired(r: Registry, before: set<nat>, done: Inner, key: nat, now: nat, idle: nat -> bool)
    requires OnePlaceEach(r.inner) && key in r.inner && key !in done
    requires Pending(r.inner) !! before && r.fired == before + FiredBy(done, now, idle)
    requires forall k | k in done :: k in r.inner && done[k] == r.inner[k]
    ensures GuardsDistinct(r.inner[key]) && BucketGuards(r.inner[key]) !! r.fired
  {
  }

  lemma OneMore(inner: Inner, todo: set<nat>, key: nat, now: nat, idle: nat -> bool)
    requires key in todo && todo <= inner.Keys
    ensures var done, more := inner - todo, inner - (todo - {key}); var m := MaintainBucket(inner[key], now, idle);
      && FiredBy(more, now, idle) == FiredBy(done, now, idle) + BucketFired(inner[key], now, idle)
      && MaintainInner(more, now, idle) ==
         if m == [] then MaintainInner(done, now, idle) else MaintainInner(done, now, idle)[key := m]
  {
    var done := inner - todo;
    assert inner - (todo - {key}) == done[key := inner[key]];
    OneMoreKept(done, key, inner[key], now, idle);
    OneMoreFired(done, key, inner[key], now, idle);
  }

  lemma OneMoreFired(done: Inner, key: nat, rs: seq<Entry>, now: nat, idle: nat -> bool)
    requires key !in done
    ensures FiredBy(done[key := rs], now, idle) == FiredBy(done, now, idle) + BucketFired(rs, now, idle)
  {
    var u := done[key := rs];
    forall c | c in BucketFired(rs, now, idle) ensures c in FiredBy(u, now, idle) {
      assert key in u && u[key] == rs;
    }
    forall c | c in FiredBy(done, now, idle) ensures c in FiredBy(u, now, idle) {
      var k :| k in done && c in BucketFired(done[k], now, idle);
      assert u[k] == done[k];
    }
  }

  lemma OneMoreKept(done: Inner, key: nat, rs: seq<Entry>, now: nat, idle: nat -> bool)
    requires key !in done
    ensures var m := MaintainBucket(rs, now, idle);
      MaintainInner(done[key := rs], now, idle) ==
      if m == [] then MaintainInner(done, now, idle) else MaintainInner(done, now, idle)[key := m]
  {
  }
}
