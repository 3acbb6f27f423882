/** The memory registry: regions are cached by size and handed out again once nobody else refers to them. */
module MemoryRegistries {
  import opened Prelude

  datatype Region = Region(id: nat, size: nat)

  /** `guard` names the free callback that the entry still has to run. */
  datatype Entry = Entry(region: Region, lastAlloc: nat, tag: Option<string>, guard: Option<nat>)

  type Inner = map<nat, seq<Entry>>

  const EXPIRY: nat := 5_000
  const USIZE_LIMIT: nat := 0x1_0000_0000_0000_0000

  /** The outside world during one call. Other processes come and go between any two reads of a counter, so `scan` and
      `sweep` give, for each region, the references that are neither the registry's own nor this call's: as seen by the
      search, and as seen by the maintenance. The rest says which system calls succeed. */
  datatype Env = Env(now: nat, scan: nat -> nat, sweep: nat -> nat, cloneOk: bool, newOk: bool)

  /** The registry's fields, with the accepted callbacks and those that have run. */
  datatype Registry = Registry(inner: Inner, nextRegion: nat, nextCallback: nat, accepted: set<nat>, fired: set<nat>)

  // ---------- searching ----------

  /** The registry reads a count of 1, its own reference, and the tags agree. */
  predicate Eligible(e: Entry, tag: Option<string>, scan: nat -> nat) {
    1 + scan(e.region.id) == 1 && tag == e.tag
  }

  function FirstIn(rs: seq<Entry>, from: nat, tag: Option<string>, scan: nat -> nat): Option<nat>
    requires from <= |rs|
    decreases |rs| - from
  {
    if from == |rs| then None
    else if Eligible(rs[from], tag, scan) then Some(from)
    else FirstIn(rs, from + 1, tag, scan)
  }

  datatype Place = Place(key: nat, index: nat)

  /** Search the keys in `lo..hi` upwards. */
  function Find(inner: Inner, lo: nat, hi: nat, tag: Option<string>, scan: nat -> nat): Option<Place>
    decreases hi - lo
  {
    if lo >= hi then None
    else if lo in inner && FirstIn(inner[lo], 0, tag, scan).Some? then
      Some(Place(lo, FirstIn(inner[lo], 0, tag, scan).value))
    else Find(inner, lo + 1, hi, tag, scan)
  }

  // ---------- maintenance ----------

  predicate Recent(e: Entry, now: nat) { now < e.lastAlloc + EXPIRY }

  /** The callback of an entry runs when the region is idle or the entry is evicted. */
  predicate Fires(e: Entry, now: nat, idle: nat -> bool) { idle(e.region.id) || !Recent(e, now) }

  /** An idle entry loses its guard. */
  function Swept(e: Entry, idle: nat -> bool): Entry { if idle(e.region.id) then e.(guard := None) else e }

  function MaintainBucket(rs: seq<Entry>, now: nat, idle: nat -> bool): seq<Entry> {
    if rs == [] then []
    else
      var rest, e := MaintainBucket(rs[..|rs| - 1], now, idle), rs[|rs| - 1];
      if !Recent(e, now) then rest
      else rest + [Swept(e, idle)]
  }

  function BucketFired(rs: seq<Entry>, now: nat, idle: nat -> bool): set<nat> {
    set i | 0 <= i < |rs| && rs[i].guard.Some? && Fires(rs[i], now, idle) :: rs[i].guard.value
  }

  function MaintainInner(inner: Inner, now: nat, idle: nat -> bool): Inner {
    map k | k in inner && MaintainBucket(inner[k], now, idle) != [] :: MaintainBucket(inner[k], now, idle)
  }

  function FiredBy(inner: Inner, now: nat, idle: nat -> bool): set<nat> {
    set k, c | k in inner && c in BucketFired(inner[k], now, idle) :: c
  }

  function Maintained(r: Registry, now: nat, idle: nat -> bool): Registry {
    r.(inner := MaintainInner(r.inner, now, idle), fired := r.fired + FiredBy(r.inner, now, idle))
  }

  // ---------- allocation ----------

  datatype Outcome = Outcome(registry: Registry, region: Option<Region>)

  function Opt(c: Option<nat>): set<nat> { if c.Some? then {c.value} else {} }

  /** A region is idle when the registry's entry is all that is left; `mine` is held by the call itself. */
  function Idle(sweep: nat -> nat, mine: Option<nat>): nat -> bool {
    (id: nat) => Some(id) != mine && sweep(id) == 0
  }

  /** The vector for a key is there from the moment it is asked for. */
  function Entered(inner: Inner, key: nat): Inner { if key in inner then inner else inner[key := []] }

  function Pushed(inner: Inner, key: nat, e: Entry): Inner
    requires key in inner
  {
    inner[key := inner[key] + [e]]
  }

  /** The entry at `p` gets a new guard, which drops the old one. */
  function Armed(r: Registry, p: Place, free: Option<nat>, env: Env): Registry
    requires p.key in r.inner && p.index < |r.inner[p.key]|
  {
    var e := r.inner[p.key][p.index];
    r.(inner := r.inner[p.key := r.inner[p.key][p.index := e.(lastAlloc := env.now, guard := free)]],
       accepted := r.accepted + Opt(free),
       fired := r.fired + Opt(e.guard))
  }

  function Reuse(r: Registry, p: Place, free: Option<nat>, env: Env): Outcome
    requires p.key in r.inner && p.index < |r.inner[p.key]|
  {
    var e := r.inner[p.key][p.index];
    if !env.cloneOk then
      Outcome(r.(inner := r.inner[p.key := r.inner[p.key][p.index := e.(lastAlloc := env.now)]]), None)
    else
      Outcome(Maintained(Armed(r, p, free, env), env.now, Idle(env.sweep, Some(e.region.id))), Some(e.region))
  }

  function Fresh(r: Registry, minSize: nat, tag: Option<string>, free: Option<nat>, env: Env): Outcome {
    var m := Maintained(r, env.now, Idle(env.sweep, None));
    if !env.newOk then Outcome(m, None)
    else
      var region := Region(m.nextRegion, minSize);
      var entered := m.(nextRegion := m.nextRegion + 1, inner := Entered(m.inner, minSize));
      if !env.cloneOk then Outcome(entered, None)
      else
        Outcome(entered.(inner := Pushed(entered.inner, minSize, Entry(region, env.now, tag, free)),
                         accepted := entered.accepted + Opt(free)),
                Some(region))
  }

  /** `alloc_inner`. */
  function AllocInner(r: Registry, minSize: nat, tag: Option<string>, free: Option<nat>, env: Env): Outcome {
    var place := Find(r.inner, minSize, minSize * 2, tag, env.scan);
    if place.Some? then
      FindFacts(r.inner, minSize, minSize * 2, tag, env.scan);
      Reuse(r, place.value, free, env)
    else Fresh(r, minSize, tag, free, env)
  }

  /** `alloc` and `alloc_with_free`; the latter brings a callback nobody has seen before. */
  function Alloc(r: Registry, minSize: nat, tag: Option<string>, withFree: bool, env: Env): Outcome {
    if withFree then AllocInner(r.(nextCallback := r.nextCallback + 1), minSize, tag, Some(r.nextCallback), env)
    else AllocInner(r, minSize, tag, None, env)
  }

  // ---------- the search finds the best fit ----------

  /** Nobody but the registry refers to the region, and the tags are equal. */
  ghost predicate IsEligible(inner: Inner, k: nat, i: nat, tag: Option<string>, scan: nat -> nat) {
    k in inner && i < |inner[k]| && scan(inner[k][i].region.id) == 0 && inner[k][i].tag == tag
  }

  lemma {:induction false} FirstInFacts(rs: seq<Entry>, from: nat, tag: Option<string>, scan: nat -> nat)
    requires from <= |rs|
    ensures match FirstIn(rs, from, tag, scan)
      case Some(i) => from <= i < |rs| && Eligible(rs[i], tag, scan) && forall j | from <= j < i :: !Eligible(rs[j], tag, scan)
      case None => forall j | from <= j < |rs| :: !Eligible(rs[j], tag, scan)
    decreases |rs| - from
  {
    if from < |rs| {
      FirstInFacts(rs, from + 1, tag, scan);
    }
  }

  /** The place found is the first eligible entry under the smallest key that has one; none is found exactly when there
      is none in the range. */
  lemma {:induction false} FindFacts(inner: Inner, lo: nat, hi: nat, tag: Option<string>, scan: nat -> nat)
    ensures match Find(inner, lo, hi, tag, scan)
      case Some(p) =>
        && lo <= p.key < hi
        && IsEligible(inner, p.key, p.index, tag, scan)
        && (forall k: nat, i: nat | lo <= k < p.key :: !IsEligible(inner, k, i, tag, scan))
        && (forall i: nat | i < p.index :: !IsEligible(inner, p.key, i, tag, scan))
      case None => forall k: nat, i: nat | lo <= k < hi :: !IsEligible(inner, k, i, tag, scan)
    decreases hi - lo
  {
    if lo < hi {
      if lo in inner {
        FirstInFacts(inner[lo], 0, tag, scan);
      }
      FindFacts(inner, lo + 1, hi, tag, scan);
    }
  }
}
