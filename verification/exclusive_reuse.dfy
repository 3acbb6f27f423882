/** What the registry concludes from a counter is true of all processes: the two models put together. */
module ExclusiveReuse {
  import opened Prelude
  import opened RefCounts
  import opened RefCountTheorems
  import Registry = MemoryRegistries
  import RegistryTheorems = MemoryRegistryTheorems

  /** At `at`, the registry reads the counter of region `id`, of which it has the idle handle `h`, and finds what the search
      is told. */
  ghost predicate Reads(states: seq<System>, at: nat, id: nat, h: nat, scan: nat -> nat) {
    && at < |states|
    && IsHandle(states[at], h) && !Borrowed(states[at], h)
    && states[at].tokens[h].region == id
    && |Of(states[at], id)| < WRAP
    && id in states[at].count && states[at].count[id] == 1 + scan(id)
  }

  ghost predicate Available(r: Registry.Registry, minSize: nat, tag: Option<string>, scan: nat -> nat) {
    exists k: nat, i: nat | minSize <= k < 2 * minSize :: Registry.IsEligible(r.inner, k, i, tag, scan)
  }

  /** Exclusive reuse, of `alloc` itself. The region it serves from the cache, after reading the counter at `at` and cloning
      its own handle at `j`, belongs to the registry's entry and the caller alone, in all processes, whatever those did
      between the two. */
  lemma AllocReusesExclusively(
      r: Registry.Registry, minSize: nat, tag: Option<string>, withFree: bool, env: Registry.Env,
      states: seq<System>, acts: seq<Action>, at: nat, j: nat, h: nat, t: nat)
    requires RegistryTheorems.Inv(r) && Available(r, minSize, tag, env.scan)
    requires Registry.Alloc(r, minSize, tag, withFree, env).region.Some?
    requires IsRun(states, acts) && at <= j < |acts| && acts[j] == Clone(h, t)
    requires Reads(states, at, Registry.Alloc(r, minSize, tag, withFree, env).region.value.id, h, env.scan)
    requires forall k | at <= k < j :: h in states[k].tokens ==> !Touches(states[k], acts[k], h)
    ensures var id := Registry.Alloc(r, minSize, tag, withFree, env).region.value.id; var u := states[j + 1];
      && t != h && IsHandle(u, h) && IsHandle(u, t)
      && Of(u, id) == {h, t}
      && id in u.count && u.count[id] == 2
  {
    RegistryTheorems.BestFit(r, minSize, tag, withFree, env);
    ReuseIsExclusive(states, acts, at, j, h, t);
  }

  /** And the other way round: a cached region that anybody else refers to when its counter is read, be it a handle, a copy
      in flight or a leak, is not handed out. */
  lemma HeldIsNotReused(
      r: Registry.Registry, minSize: nat, tag: Option<string>, withFree: bool, env: Registry.Env,
      states: seq<System>, acts: seq<Action>, at: nat, h: nat, p: Registry.Place)
    requires RegistryTheorems.Inv(r) && p.key in r.inner && p.index < |r.inner[p.key]|
    requires IsRun(states, acts) && Reads(states, at, r.inner[p.key][p.index].region.id, h, env.scan)
    requires Of(states[at], r.inner[p.key][p.index].region.id) != {h}
    ensures Registry.Alloc(r, minSize, tag, withFree, env).region != Some(r.inner[p.key][p.index].region)
  {
    var region := r.inner[p.key][p.index].region;
    RunsAreSound(states, acts, at);
    OneMeansAlone(states[at], h);
    assert env.scan(region.id) > 0;
    Registry.FindFacts(r.inner, minSize, minSize * 2, tag, env.scan);
    assert region.id in RegistryTheorems.BucketRegions(r.inner[p.key]);
    var found := Registry.Find(r.inner, minSize, minSize * 2, tag, env.scan);
    if found.Some? {
      assert Registry.IsEligible(r.inner, found.value.key, found.value.index, tag, env.scan);
    }
  }
}
