/** The Windows wire frame: the same buffer is sent to many remotes, and before each send the handle slots in its middle are
    overwritten with handles that are valid in the receiving process. */
module WindowsFrames {
  import opened Prelude
  import opened Versions
  import opened Words
  import opened LinuxFrames

  const U64: nat := 0x1_0000_0000_0000_0000

  /** A handle slot: 64 bits, low word first. */
  function PutSlot(order: ByteOrder, v: nat): bytes { order.put(v % U32) + order.put(v / U32) }

  function GetSlot(order: ByteOrder, b: bytes): nat
    requires |b| == 8
  {
    order.get(b[0..4]) + U32 * order.get(b[4..8])
  }

  lemma SlotRoundTrip(order: ByteOrder, v: nat)
    requires order.Valid() && v < U64
    ensures |PutSlot(order, v)| == 8 && GetSlot(order, PutSlot(order, v)) == v
  {
    var lo, hi := order.put(v % U32), order.put(v / U32);
    assert v / U32 < U32;
    assert (lo + hi)[0..4] == lo && (lo + hi)[4..8] == hi;
  }

  function SlotsEnd(count: nat): nat { 8 + 8 * count }

  /** Everything of a frame but its slots and its padding. */
  ghost predicate IsFrameAround(b: bytes, order: ByteOrder, v: Version, count: nat, s: bytes, p: bytes) {
    && |b| == SlotsEnd(count) + 8 + Align4(|s|) + Align4(|p|)
    && Holds(b, 0, [0xFF] + VersionBytes(v))
    && Holds(b, 4, order.put(count))
    && TailHolds(b, order, SlotsEnd(count), s, p)
  }

  /** From `at` on: selector and payload, each behind its size. */
  ghost predicate TailHolds(b: bytes, order: ByteOrder, at: nat, s: bytes, p: bytes) {
    var behind := at + 4 + Align4(|s|);
    && Holds(b, at, order.put(|s|))
    && Holds(b, at + 4, s)
    && Holds(b, behind, order.put(|p|))
    && Holds(b, behind + 4, p)
  }

  function VersionBytes(v: Version): bytes {
    if FitsBytes(v) then [v.major, v.minor, v.patch] else [0, 0, 0]
  }

  // ---------- patching ----------

  function WithSlot(b: bytes, order: ByteOrder, i: nat, v: nat): bytes
    requires order.Valid() && SlotsEnd(i + 1) <= |b|
  {
    b[..SlotsEnd(i)] + PutSlot(order, v) + b[SlotsEnd(i + 1)..]
  }

  /** One pass over the slots from slot `i` on, up to the first handle that cannot be duplicated into the remote process. */
  function Patch(b: bytes, order: ByteOrder, i: nat, handles: seq<Option<nat>>): (c: bytes)
    requires order.Valid() && SlotsEnd(i + |handles|) <= |b|
    ensures |c| == |b|
    decreases |handles|
  {
    if handles == [] || handles[0].None? then b
    else
      assert |PutSlot(order, handles[0].value)| == 8;
      Patch(WithSlot(b, order, i, handles[0].value), order, i + 1, handles[1..])
  }

  /** Any number of passes, for any remotes, complete or not. */
  function PatchAll(b: bytes, order: ByteOrder, count: nat, passes: seq<seq<Option<nat>>>): (c: bytes)
    requires order.Valid() && SlotsEnd(count) <= |b| && forall pass | pass in passes :: |pass| == count
    ensures |c| == |b|
  {
    if passes == [] then b
    else
      var last := passes[|passes| - 1];
      assert last in passes;
      Patch(PatchAll(b, order, count, passes[..|passes| - 1]), order, 0, last)
  }

  lemma {:induction false} PatchKeepsOthers(b: bytes, order: ByteOrder, i: nat, handles: seq<Option<nat>>)
    requires order.Valid() && SlotsEnd(i + |handles|) <= |b|
    ensures KeptOutside(b, Patch(b, order, i, handles), SlotsEnd(i), SlotsEnd(i + |handles|))
    decreases |handles|
  {
    if handles != [] && handles[0].Some? {
      assert |PutSlot(order, handles[0].value)| == 8;
      PatchKeepsOthers(WithSlot(b, order, i, handles[0].value), order, i + 1, handles[1..]);
    }
  }

  lemma SlotSurvives(c: bytes, order: ByteOrder, i: nat, rest: seq<Option<nat>>, slot: bytes)
    requires order.Valid() && |slot| == 8 && SlotsEnd(i + 1 + |rest|) <= |c|
    requires Holds(c, SlotsEnd(i), slot)
    ensures Holds(Patch(c, order, i + 1, rest), SlotsEnd(i), slot)
  {
    PatchKeepsOthers(c, order, i + 1, rest);
    StillHolds(c, Patch(c, order, i + 1, rest), SlotsEnd(i + 1), SlotsEnd(i + 1 + |rest|), SlotsEnd(i), slot);
  }

  lemma WithSlotHolds(b: bytes, order: ByteOrder, i: nat, v: nat)
    requires order.Valid() && SlotsEnd(i + 1) <= |b|
    ensures |PutSlot(order, v)| == 8 && |WithSlot(b, order, i, v)| == |b|
    ensures Holds(WithSlot(b, order, i, v), SlotsEnd(i), PutSlot(order, v))
  {
  }

  /** A complete pass leaves every slot with the new handle. */
  lemma {:induction false} FullPatchHolds(
      b: bytes, order: ByteOrder, i: nat, handles: seq<Option<nat>>, k: nat, at: nat, slot: bytes)
    requires order.Valid() && SlotsEnd(i + |handles|) <= |b|
    requires (forall j | 0 <= j < |handles| :: handles[j].Some?) && k < |handles|
    requires at == SlotsEnd(i + k) && slot == PutSlot(order, handles[k].value)
    ensures Holds(Patch(b, order, i, handles), at, slot)
    decreases |handles|
  {
    var c, rest := WithSlot(b, order, i, handles[0].value), handles[1..];
    WithSlotHolds(b, order, i, handles[0].value);
    if k == 0 {
      SlotSurvives(c, order, i, rest, slot);
    } else {
      FullPatchHolds(c, order, i + 1, rest, k - 1, at, slot);
    }
  }

  lemma TailSurvives(b: bytes, c: bytes, order: ByteOrder, from: nat, to: nat, at: nat, s: bytes, p: bytes)
    requires KeptOutside(b, c, from, to) && to <= at && TailHolds(b, order, at, s, p)
    ensures TailHolds(c, order, at, s, p)
  {
  }

  lemma PatchKeepsFrame(b: bytes, order: ByteOrder, v: Version, handles: seq<Option<nat>>, s: bytes, p: bytes)
    requires order.Valid() && IsFrameAround(b, order, v, |handles|, s, p)
    ensures IsFrameAround(Patch(b, order, 0, handles), order, v, |handles|, s, p)
  {
    var n, c := |handles|, Patch(b, order, 0, handles);
    PatchKeepsOthers(b, order, 0, handles);
    StillHolds(b, c, SlotsEnd(0), SlotsEnd(n), 0, [0xFF] + VersionBytes(v));
    StillHolds(b, c, SlotsEnd(0), SlotsEnd(n), 4, order.put(n));
    TailSurvives(b, c, order, SlotsEnd(0), SlotsEnd(n), SlotsEnd(n), s, p);
  }

  lemma {:induction false} PatchAllKeepsFrame(
      b: bytes, order: ByteOrder, v: Version, count: nat, passes: seq<seq<Option<nat>>>, s: bytes, p: bytes)
    requires order.Valid() && IsFrameAround(b, order, v, count, s, p)
    requires forall pass | pass in passes :: |pass| == count
    ensures IsFrameAround(PatchAll(b, order, count, passes), order, v, count, s, p)
  {
    if passes != [] {
      var front, last := passes[..|passes| - 1], passes[|passes| - 1];
      assert last in passes;
      PatchAllKeepsFrame(b, order, v, count, front, s, p);
      PatchKeepsFrame(PatchAll(b, order, count, front), order, v, last, s, p);
    }
  }

  // ---------- sending ----------

  /** `send_helper` up to and including the write: patch the slots in place, give up at the first handle that cannot be
      duplicated, and report a disconnect also if the pipe does not take the frame. `WriteFile` takes a 32-bit length. */
  method SendHelper(buf: array<byte>, order: ByteOrder, handles: seq<Option<nat>>, taken: bool)
    returns (wire: Option<bytes>)
    requires order.Valid() && SlotsEnd(|handles|) <= buf.Length < U32
    modifies buf
    ensures buf[..] == Patch(old(buf[..]), order, 0, handles)
    ensures wire == if taken && (forall h | h in handles :: h.Some?) then Some(buf[..]) else None
  {
    ghost var before := buf[..];
    for i := 0 to |handles|
      invariant Patch(buf[..], order, i, handles[i..]) == Patch(before, order, 0, handles)
      invariant forall j | 0 <= j < i :: handles[j].Some?
    {
      assert handles[i..][0] == handles[i] && handles[i..][1..] == handles[i + 1..];
      if handles[i].None? {
        assert handles[i] in handles;
        return None;
      }
      ghost var mid := buf[..];
      var slot := PutSlot(order, handles[i].value);
      assert |slot| == 8;
      CopyBytes(buf, SlotsEnd(i), slot);
      SlotWritten(mid, buf[..], order, i, handles[i].value);
    }
    return if taken then Some(buf[..]) else None;
  }

  lemma SlotWritten(b: bytes, c: bytes, order: ByteOrder, i: nat, v: nat)
    requires order.Valid() && SlotsEnd(i + 1) <= |b|
    requires Holds(c, SlotsEnd(i), PutSlot(order, v)) && KeptOutside(b, c, SlotsEnd(i), SlotsEnd(i + 1))
    ensures c == WithSlot(b, order, i, v)
  {
  }

  /** `encode_inner`: a frame with room for the handles of all attachments, whatever the slots hold at first. */
  method EncodeInner(order: ByteOrder, v: Version, count: nat, s: bytes, p: bytes, garbage: nat -> byte)
    returns (buf: array<byte>)
    requires order.Valid() && FitsBytes(v)
    ensures fresh(buf) && IsFrameAround(buf[..], order, v, count, s, p)
  {
    FieldsAligned(count, |s|);
    AlignFacts(|p|);
    buf := NewBuffer(4 + 4 + count * 8 + 4 + Align4(|s|) + 4 + Align4(|p|), garbage);
    WriteFields(buf, order, [0xFF] + VersionBytes(v), count, s, p, SlotsEnd(count), SlotsEnd(count) + 4 + Align4(|s|));
  }

  lemma SlotsAligned(count: nat)
    ensures SlotsEnd(count) % 4 == 0
  {
  }

  lemma FieldsAligned(count: nat, n: nat)
    ensures SlotsEnd(count) % 4 == 0 && (SlotsEnd(count) + 4 + Align4(n)) % 4 == 0 && n <= Align4(n)
  {
    AlignFacts(n);
    SlotsAligned(count);
    SumAligned(SlotsEnd(count), 4);
    SumAligned(SlotsEnd(count) + 4, Align4(n));
  }

  /** Capacity reserved and length set: the bytes are whatever the memory held before. */
  method NewBuffer(size: nat, garbage: nat -> byte) returns (buf: array<byte>)
    ensures fresh(buf) && buf.Length == size
  {
    buf := new byte[size](i requires 0 <= i < size => garbage(i));
  }

  method WriteFields(buf: array<byte>, order: ByteOrder, head: bytes, count: nat, s: bytes, p: bytes, at: nat, behind: nat)
    requires order.Valid() && at % 4 == 0 && behind % 4 == 0 && |head| == 4
    requires 8 <= at && at + 4 + |s| <= behind && behind + 4 + |p| <= buf.Length
    modifies buf
    ensures Holds(buf[..], 0, head) && Holds(buf[..], 4, order.put(count))
    ensures Holds(buf[..], at, order.put(|s|)) && Holds(buf[..], at + 4, s)
    ensures Holds(buf[..], behind, order.put(|p|)) && Holds(buf[..], behind + 4, p)
  {
    CopyBytes(buf, 0, head);
    ghost var b0 := buf[..];
    WriteWord(buf, 4, order, count);
    ghost var b1 := buf[..];
    StillHolds(b0, b1, 4, 8, 0, head);
    WriteTail(buf, order, s, p, at, behind);
    StillHolds(b1, buf[..], 8, buf.Length, 0, head);
    StillHolds(b1, buf[..], 8, buf.Length, 4, order.put(count));
  }

  method WriteTail(buf: array<byte>, order: ByteOrder, s: bytes, p: bytes, at: nat, behind: nat)
    requires order.Valid() && at % 4 == 0 && behind % 4 == 0
    requires 8 <= at && at + 4 + |s| <= behind && behind + 4 + |p| <= buf.Length
    modifies buf
    ensures KeptOutside(old(buf[..]), buf[..], 8, buf.Length)
    ensures Holds(buf[..], at, order.put(|s|)) && Holds(buf[..], at + 4, s)
    ensures Holds(buf[..], behind, order.put(|p|)) && Holds(buf[..], behind + 4, p)
  {
    ghost var sizeOfS, sizeOfP := order.put(|s|), order.put(|p|);
    WriteWord(buf, at, order, |s|);
    ghost var b1 := buf[..];
    CopyBytes(buf, at + 4, s);
    ghost var b2 := buf[..];
    StillHolds(b1, b2, at + 4, at + 4 + |s|, at, sizeOfS);
    WriteWord(buf, behind, order, |p|);
    ghost var b3 := buf[..];
    StillHolds(b2, b3, behind, behind + 4, at, sizeOfS);
    StillHolds(b2, b3, behind, behind + 4, at + 4, s);
    CopyBytes(buf, behind + 4, p);
    ghost var b4 := buf[..];
    StillHolds(b3, b4, behind + 4, behind + 4 + |p|, at, sizeOfS);
    StillHolds(b3, b4, behind + 4, behind + 4 + |p|, at + 4, s);
    StillHolds(b3, b4, behind + 4, behind + 4 + |p|, behind, sizeOfP);
  }

  // ---------- parsing ----------

  function Slots(b: bytes, order: ByteOrder, count: nat): (r: seq<nat>)
    requires SlotsEnd(count) <= |b|
    ensures |r| == count
  {
    if count == 0 then []
    else Slots(b, order, count - 1) + [GetSlot(order, b[SlotsEnd(count - 1)..SlotsEnd(count)])]
  }

  function ParsePipe(b: bytes, order: ByteOrder, own: Version, decode: bytes -> Option<Selector>): Parsed {
    if |b| < 4 then Undefined
    else if b[0] != 0xFF then VersionMismatch(Version(0, 0, 0))
    else if |b| < 8 || SlotsEnd(order.get(b[4..8])) > |b| then Undefined
    else if !own.Compatible(Version(b[1], b[2], b[3])) then VersionMismatch(Version(b[1], b[2], b[3]))
    else ParseBehindSlots(b, order, decode, Slots(b, order, order.get(b[4..8])), SlotsEnd(order.get(b[4..8])))
  }

  /** From the selector size at `at` on. */
  function ParseBehindSlots(
      b: bytes, order: ByteOrder, decode: bytes -> Option<Selector>, handles: seq<nat>, at: nat): Parsed
  {
    if at + 4 > |b| || at + 4 + order.get(b[at..at + 4]) > |b| then Undefined
    else ParseTail(b[at + 4..], order, decode, handles, order.get(b[at..at + 4]))
  }

  /** From the selector on, with a selector of `n` bytes. */
  function ParseTail(t: bytes, order: ByteOrder, decode: bytes -> Option<Selector>, handles: seq<nat>, n: nat): Parsed
    requires n <= |t|
  {
    var selector := decode(t[..n]);
    if selector.None? then Undecodable
    else if selector.value.regionCount > |handles| then Panics
    else
      var at := Align4U32(n);
      if at + 4 > |t| || at + 4 + order.get(t[at..at + 4]) > |t| then Undefined
      else
        var split := |handles| - selector.value.regionCount;
        Frame(selector.value, t[at + 4..at + 4 + order.get(t[at..at + 4])], handles[..split], handles[split..])
  }

  /** The loop in `EncodedMessage::new` that collects the handles. */
  method ReadHandles(buf: array<byte>, order: ByteOrder, count: nat) returns (handles: seq<nat>)
    requires SlotsEnd(count) <= buf.Length
    ensures handles == Slots(buf[..], order, count)
  {
    handles := [];
    for i := 0 to count
      invariant handles == Slots(buf[..], order, i)
    {
      assert buf[..][SlotsEnd(i)..SlotsEnd(i + 1)] == buf[SlotsEnd(i)..SlotsEnd(i + 1)];
      handles := handles + [GetSlot(order, buf[SlotsEnd(i)..SlotsEnd(i + 1)])];
    }
  }

  /** `EncodedMessage::new`, for frames whose sizes stay within the buffer. The word reads are aligned and in bounds; the
      handles are taken before the version is looked at. */
  method FromPipe(buf: array<byte>, order: ByteOrder, own: Version, decode: bytes -> Option<Selector>) returns (r: Parsed)
    requires order.Valid() && !ParsePipe(buf[..], order, own, decode).Undefined?
    ensures r == ParsePipe(buf[..], order, own, decode)
  {
    var remoteVersion := Version(buf[1], buf[2], buf[3]);
    if buf[0] != 0xFF {
      return VersionMismatch(Version(0, 0, 0));
    }
    assert buf[..][4..8] == buf[4..8];
    var objectCount := ReadWord(buf, 4, order);
    var handles := ReadHandles(buf, order, objectCount);
    if !own.Compatible(remoteVersion) {
      return VersionMismatch(remoteVersion);
    }
    FieldsAligned(objectCount, 0);
    r := BehindSlots(buf, order, decode, handles, SlotsEnd(objectCount));
  }

  method BehindSlots(buf: array<byte>, order: ByteOrder, decode: bytes -> Option<Selector>, handles: seq<nat>, at: nat)
    returns (r: Parsed)
    requires order.Valid() && at % 4 == 0 && !ParseBehindSlots(buf[..], order, decode, handles, at).Undefined?
    ensures r == ParseBehindSlots(buf[..], order, decode, handles, at)
  {
    assert buf[..][at..at + 4] == buf[at..at + 4];
    var selectorSize := ReadWord(buf, at, order);
    r := Tail(buf, order, decode, handles, at + 4, selectorSize);
  }

  method Tail(
      buf: array<byte>, order: ByteOrder, decode: bytes -> Option<Selector>, handles: seq<nat>, at: nat, selectorSize: nat)
    returns (r: Parsed)
    requires order.Valid() && at % 4 == 0 && selectorSize < U32 && at + selectorSize <= buf.Length
    requires !ParseTail(buf[..][at..], order, decode, handles, selectorSize).Undefined?
    ensures r == ParseTail(buf[..][at..], order, decode, handles, selectorSize)
  {
    SliceOfRest(buf[..], at, 0, selectorSize);
    var selector := decode(buf[at..at + selectorSize]);
    if selector.None? {
      return Undecodable;
    }
    if selector.value.regionCount > |handles| {
      return Panics;
    }
    var split := |handles| - selector.value.regionCount;
    AlignFacts(selectorSize);
    var payload := Payload(buf, order, at, Align4U32(selectorSize));
    return Frame(selector.value, payload, handles[..split], handles[split..]);
  }

  method Payload(buf: array<byte>, order: ByteOrder, at: nat, offset: nat) returns (payload: bytes)
    requires order.Valid() && at % 4 == 0 && offset % 4 == 0 && at + offset + 4 <= buf.Length
    requires at + offset + 4 + order.get(buf[..][at..][offset..offset + 4]) <= buf.Length
    ensures var t := buf[..][at..]; payload == t[offset + 4..offset + 4 + order.get(t[offset..offset + 4])]
  {
    SumAligned(at, offset);
    SliceOfRest(buf[..], at, offset, offset + 4);
    ghost var n := order.get(buf[..][at..][offset..offset + 4]);
    SliceOfRest(buf[..], at, offset + 4, offset + 4 + n);
    payload := ReadPayload(buf, order, at + offset);
  }

  lemma SliceOfRest(b: bytes, at: nat, x: nat, y: nat)
    requires x <= y && at + y <= |b|
    ensures b[at..][x..y] == b[at + x..at + y]
  {
  }

  /** The handles of a pass in which every duplication succeeds. */
  function Duplicated(handles: seq<nat>): (r: seq<Option<nat>>)
    ensures |r| == |handles| && forall i | 0 <= i < |r| :: r[i] == Some(handles[i])
  {
    seq(|handles|, i requires 0 <= i < |handles| => Some(handles[i]))
  }

  lemma SlotReads(b: bytes, order: ByteOrder, i: nat, v: nat)
    requires order.Valid() && v < U64 && SlotsEnd(i + 1) <= |b| && Holds(b, SlotsEnd(i), PutSlot(order, v))
    ensures GetSlot(order, b[SlotsEnd(i)..SlotsEnd(i + 1)]) == v
  {
    SlotRoundTrip(order, v);
    SliceOf(b, SlotsEnd(i), PutSlot(order, v));
  }

  ghost predicate SlotIs(b: bytes, order: ByteOrder, k: nat, v: nat) {
    SlotsEnd(k + 1) <= |b| && GetSlot(order, b[SlotsEnd(k)..SlotsEnd(k + 1)]) == v
  }

  lemma {:induction false} SlotsAre(b: bytes, order: ByteOrder, handles: seq<nat>, count: nat)
    requires count <= |handles| && SlotsEnd(count) <= |b|
    requires forall k: nat | k < count :: SlotIs(b, order, k, handles[k])
    ensures Slots(b, order, count) == handles[..count]
  {
    if count > 0 {
      SlotsAre(b, order, handles, count - 1);
      assert SlotIs(b, order, count - 1, handles[count - 1]);
      assert handles[..count] == handles[..count - 1] + [handles[count - 1]];
    }
  }

  ghost predicate SlotsHold(b: bytes, order: ByteOrder, handles: seq<nat>) {
    && SlotsEnd(|handles|) <= |b|
    && forall k: nat | k < |handles| :: SlotHolds(b, order, k, handles[k])
  }

  ghost predicate SlotHolds(b: bytes, order: ByteOrder, k: nat, v: nat) {
    v < U64 && SlotsEnd(k + 1) <= |b| && Holds(b, SlotsEnd(k), PutSlot(order, v))
  }

  lemma SlotsRead(b: bytes, order: ByteOrder, handles: seq<nat>)
    requires order.Valid() && SlotsHold(b, order, handles)
    ensures Slots(b, order, |handles|) == handles
  {
    forall k: nat | k < |handles| ensures SlotIs(b, order, k, handles[k]) {
      assert SlotHolds(b, order, k, handles[k]);
      SlotReads(b, order, k, handles[k]);
    }
    SlotsAre(b, order, handles, |handles|);
    assert handles[..|handles|] == handles;
  }

  lemma SizesFit(length: nat, count: nat, s: nat, p: nat)
    requires length == SlotsEnd(count) + 8 + Align4(s) + Align4(p) && length < U32
    ensures count < U32 && s <= U32 - 4 && p < U32
  {
    AlignFacts(s);
    AlignFacts(p);
  }

  lemma HeadParses(
      b: bytes, order: ByteOrder, v: Version, handles: seq<nat>, own: Version, decode: bytes -> Option<Selector>)
    requires order.Valid() && FitsBytes(v) && |handles| < U32
    requires Holds(b, 0, [0xFF] + VersionBytes(v)) && Holds(b, 4, order.put(|handles|))
    requires SlotsHold(b, order, handles)
    ensures ParsePipe(b, order, own, decode) ==
      if own.Compatible(v) then ParseBehindSlots(b, order, decode, handles, SlotsEnd(|handles|)) else VersionMismatch(v)
  {
    HeadIs(b, v);
    SliceOf(b, 4, order.put(|handles|));
    SlotsRead(b, order, handles);
  }

  /** What becomes of a selector and the handles before the payload is looked at. */
  function Decoded(selector: Option<Selector>, p: bytes, handles: seq<nat>): Parsed {
    if selector.None? then Undecodable
    else if selector.value.regionCount > |handles| then Panics
    else
      var objects := |handles| - selector.value.regionCount;
      Frame(selector.value, p, handles[..objects], handles[objects..])
  }

  lemma RestParses(
      b: bytes, order: ByteOrder, s: bytes, p: bytes, decode: bytes -> Option<Selector>, handles: seq<nat>, at: nat)
    requires order.Valid() && |s| <= U32 - 4 && |p| < U32 && TailHolds(b, order, at, s, p)
    ensures ParseBehindSlots(b, order, decode, handles, at) == Decoded(decode(s), p, handles)
  {
    SliceOf(b, at, order.put(|s|));
    TailOfFrame(b, order, s, p, at);
    TailParses(b[at + 4..], order, s, p, decode, handles);
  }

  /** The fate of every well-formed frame whose slots are known: the version first, then the selector, which may not decode
      or may claim more regions than there are handles. */
  lemma FrameFate(
      b: bytes, order: ByteOrder, v: Version, handles: seq<nat>, s: bytes, p: bytes, own: Version, decode: bytes -> Option<Selector>)
    requires order.Valid() && IsFrameAround(b, order, v, |handles|, s, p) && FitsBytes(v)
    requires |b| < U32 && SlotsHold(b, order, handles)
    ensures ParsePipe(b, order, own, decode) ==
      if own.Compatible(v) then Decoded(decode(s), p, handles) else VersionMismatch(v)
  {
    SizesFit(|b|, |handles|, |s|, |p|);
    HeadParses(b, order, v, handles, own, decode);
    RestParses(b, order, s, p, decode, handles, SlotsEnd(|handles|));
  }

  lemma TailOfFrame(b: bytes, order: ByteOrder, s: bytes, p: bytes, at: nat)
    requires Holds(b, at + 4, s)
    requires Holds(b, at + 4 + Align4(|s|), order.put(|p|)) && Holds(b, at + 4 + Align4(|s|) + 4, p)
    ensures var t := b[at + 4..];
      Holds(t, 0, s) && Holds(t, Align4(|s|), order.put(|p|)) && Holds(t, Align4(|s|) + 4, p)
  {
  }

  lemma HeadIs(b: bytes, v: Version)
    requires FitsBytes(v) && Holds(b, 0, [0xFF] + VersionBytes(v))
    ensures |b| >= 4 && b[0] == 0xFF && Version(b[1], b[2], b[3]) == v
  {
    var head := [0xFF] + VersionBytes(v);
    assert b[0] == head[0] && b[0 + 1] == head[1] && b[0 + 2] == head[2] && b[0 + 3] == head[3];
  }

  lemma TailParses(
      t: bytes, order: ByteOrder, s: bytes, p: bytes, decode: bytes -> Option<Selector>, handles: seq<nat>)
    requires order.Valid() && |s| <= U32 - 4 && |p| < U32
    requires Holds(t, 0, s) && Holds(t, Align4(|s|), order.put(|p|)) && Holds(t, Align4(|s|) + 4, p)
    ensures |s| <= |t|
    ensures ParseTail(t, order, decode, handles, |s|) == Decoded(decode(s), p, handles)
  {
    AlignFacts(|s|);
    SliceOf(t, 0, s);
    assert t[..|s|] == t[0..0 + |s|];
    SliceOf(t, Align4(|s|), order.put(|p|));
    SliceOf(t, Align4(|s|) + 4, p);
  }

  lemma FullPatchSlots(b: bytes, order: ByteOrder, handles: seq<nat>)
    requires order.Valid() && SlotsEnd(|handles|) <= |b|
    requires forall k | 0 <= k < |handles| :: handles[k] < U64
    ensures SlotsHold(Patch(b, order, 0, Duplicated(handles)), order, handles)
  {
    var c := Patch(b, order, 0, Duplicated(handles));
    forall k: nat | k < |handles| ensures SlotHolds(c, order, k, handles[k]) {
      FullPatchHolds(b, order, 0, Duplicated(handles), k, SlotsEnd(k), PutSlot(order, handles[k]));
    }
  }

  /** Patched slots. However often, for whichever remotes, and however incompletely the slots of a frame were patched
      before, a full pass makes it parse to exactly the new handles, split into objects and regions, with selector and
      payload untouched; unless the receiver's version is not compatible, its decoder refuses the selector, or the selector
      claims more regions than there are handles. */
  lemma FullPassParses(
      b: bytes, order: ByteOrder, v: Version, s: bytes, p: bytes, passes: seq<seq<Option<nat>>>, handles: seq<nat>,
      own: Version, decode: bytes -> Option<Selector>)
    requires order.Valid() && IsFrameAround(b, order, v, |handles|, s, p) && FitsBytes(v)
    requires |b| < U32
    requires forall pass | pass in passes :: |pass| == |handles|
    requires forall k | 0 <= k < |handles| :: handles[k] < U64
    ensures var wire := Patch(PatchAll(b, order, |handles|, passes), order, 0, Duplicated(handles));
      ParsePipe(wire, order, own, decode) ==
        if !own.Compatible(v) then VersionMismatch(v)
        else if decode(s).None? then Undecodable
        else if decode(s).value.regionCount > |handles| then Panics
        else
          var objects := |handles| - decode(s).value.regionCount;
          Frame(decode(s).value, p, handles[..objects], handles[objects..])
  {
    var before := PatchAll(b, order, |handles|, passes);
    PatchAllKeepsFrame(b, order, v, |handles|, passes, s, p);
    PatchKeepsFrame(before, order, v, Duplicated(handles), s, p);
    FullPatchSlots(before, order, handles);
    FrameFate(Patch(before, order, 0, Duplicated(handles)), order, v, handles, s, p, own, decode);
  }
}
