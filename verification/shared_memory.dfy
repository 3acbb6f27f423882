/** The reference counters as one process uses them: each method is the sequence of atomic operations that one library call
    performs, here without interference. `RefCounts` has the same operations under interference. */
module SharedMemories {
  import opened RefCounts

  class SharedMemory {
    /** Counter and buffer size of every region, as stored in its shared header. */
    var count: map<nat, nat>
    var size: map<nat, nat>

    ghost predicate Valid()
      reads this
    {
      count.Keys == size.Keys && forall r | r in count :: count[r] < WRAP
    }

    constructor ()
      ensures Valid() && count == map[] && size == map[]
    {
      count, size := map[], map[];
    }

    /** Load for 0, add for a positive, subtract for a negative amount; returns the value before. */
    method RefCountInner(r: nat, val: int) returns (before: nat)
      requires Valid() && r in count && 0 < WRAP + val && val < WRAP
      modifies this`count
      ensures Valid()
      ensures before == old(count[r])
      ensures count == old(count)[r := (old(count[r]) + WRAP + val) % WRAP]
      ensures val == 1 ==> count[r] == FetchAdd(before)
      ensures val == -1 ==> count[r] == FetchSub(before)
    {
      before := count[r];
      if val == 0 {
        assert count == count[r := count[r]];
      } else if val > 0 {
        count := count[r := (before + val) % WRAP];
      } else {
        count := count[r := (before + WRAP - (-val)) % WRAP];
      }
    }

    /** `MemoryRegion::new`: a new object starts with one reference. */
    method New(r: nat, bytes: nat)
      requires Valid() && r !in count
      modifies this
      ensures Valid() && count == old(count)[r := 1] && size == old(size)[r := bytes]
    {
      count := count[r := 1];
      size := size[r := bytes];
    }

    /** `MemoryRegion::from_object`: map the header, read the size another process wrote there, and count this handle. */
    method FromObject(r: nat) returns (bytes: nat)
      requires Valid() && r in count
      modifies this`count
      ensures Valid() && count == old(count)[r := FetchAdd(old(count[r]))] && bytes == size[r]
    {
      bytes := size[r];
      var _ := RefCountInner(r, 1);
    }

    /** The increments before a send. */
    method AddReferences(regions: seq<nat>)
      requires Valid() && forall r | r in regions :: r in count
      modifies this`count
      ensures Valid() && Raised(count, old(count), regions)
    {
      NothingRaised(count);
      for i := 0 to |regions|
        invariant Valid() && Raised(count, old(count), regions[..i])
      {
        var r := regions[i];
        assert r in regions;
        ghost var before := count;
        var _ := RefCountInner(r, 1);
        assert count == before[r := FetchAdd(before[r])];
        RaisedOnce(before, old(count), regions[..i], r);
        assert regions[..i + 1] == regions[..i] + [r];
      }
      assert regions[..|regions|] == regions;
    }

    /** The decrements after a failed send. */
    method DropReferences(regions: seq<nat>, ghost base: map<nat, nat>)
      requires Valid() && Raised(count, base, regions) && forall r | r in regions :: r in count
      modifies this`count
      ensures Valid() && Raised(count, base, [])
    {
      assert regions[0..] == regions;
      for i := 0 to |regions|
        invariant Valid() && Raised(count, base, regions[i..])
      {
        var r := regions[i];
        assert r in regions;
        assert regions[i..] == [r] + regions[i + 1..];
        LoweredOnce(count, base, r, regions[i + 1..]);
        ghost var lowered := count[r := FetchSub(count[r])];
        var _ := RefCountInner(r, -1);
        assert count == lowered;
      }
      assert regions[|regions|..] == [];
    }

    /** `EncodedMessage::send`: count every attached region, then make the system call, and take the increments back if it
        fails. A region attached more than once is counted as often. */
    method Send(regions: seq<nat>, delivered: bool) returns (ok: bool)
      requires Valid() && forall r | r in regions :: r in count
      modifies this`count
      ensures Valid() && ok == delivered
      ensures if ok then Raised(count, old(count), regions) else count == old(count)
    {
      AddReferences(regions);
      if delivered {
        return true;
      }
      DropReferences(regions, old(count));
      NothingRaised(old(count));
      return false;
    }

    /** The receiving end of `from_local`: adopt every attached region, then take back the increment of its sender. Nothing
        is left but the handover: the counts are as the sender left them. */
    method Receive(regions: seq<nat>) returns (sizes: seq<nat>)
      requires Valid() && forall r | r in regions :: r in count
      modifies this`count
      ensures Valid() && count == old(count)
      ensures |sizes| == |regions| && forall i | 0 <= i < |regions| :: sizes[i] == size[regions[i]]
    {
      sizes := [];
      for i := 0 to |regions|
        invariant Valid() && count == old(count) && |sizes| == i
        invariant forall j | 0 <= j < i :: sizes[j] == size[regions[j]]
      {
        assert regions[i] in regions;
        var bytes := FromObject(regions[i]);
        var _ := RefCountInner(regions[i], -1);
        sizes := sizes + [bytes];
      }
    }
  }

  /** `count` is `base` with one increment for each occurrence in `regions`. */
  ghost predicate Raised(count: map<nat, nat>, base: map<nat, nat>, regions: seq<nat>) {
    && count.Keys == base.Keys
    && forall r | r in count :: count[r] == (base[r] + multiset(regions)[r]) % WRAP
  }

  lemma NothingRaised(base: map<nat, nat>)
    requires forall r | r in base :: base[r] < WRAP
    ensures forall count :: Raised(count, base, []) <==> count == base
  {
  }

  lemma RaisedOnce(count: map<nat, nat>, base: map<nat, nat>, regions: seq<nat>, r: nat)
    requires Raised(count, base, regions) && r in count
    ensures Raised(count[r := FetchAdd(count[r])], base, regions + [r])
  {
    var before, after := multiset(regions), multiset(regions + [r]);
    assert after == before + multiset{r};
    AddWraps(base[r] + before[r]);
    forall q | q in count && q != r ensures after[q] == before[q] {
    }
  }

  lemma LoweredOnce(count: map<nat, nat>, base: map<nat, nat>, r: nat, rest: seq<nat>)
    requires Raised(count, base, [r] + rest) && r in count
    ensures Raised(count[r := FetchSub(count[r])], base, rest)
  {
    assert multiset([r] + rest) == multiset(rest) + multiset{r};
    AddWraps(base[r] + multiset(rest)[r]);
  }
}
