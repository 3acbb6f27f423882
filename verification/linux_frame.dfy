/** The Linux wire frame: written into a fresh buffer by the sender, walked with aligned word reads by the receiver. */
module LinuxFrames {
  import opened Prelude
  import opened Versions
  import opened Words

  /** Of a decoded selector, the frame parser needs the number of attached regions. */
  datatype Selector = Selector(encoded: bytes, regionCount: nat)

  /** Attachments are file descriptors. */
  type Fd = nat

  datatype Parsed =
    | Frame(selector: Selector, payload: bytes, objects: seq<Fd>, regions: seq<Fd>)
    | VersionMismatch(version: Version)
    | Undecodable
    | Panics
    | Undefined
    | Disconnected

  /** The bytes of a frame, whatever its padding holds. */
  ghost predicate IsFrame(b: bytes, order: ByteOrder, v: Version, s: bytes, p: bytes) {
    var at := 8 + Align4(|s|);
    && |b| == 12 + Align4(|s|) + Align4(|p|)
    && b[0] == 0xFF && b[1] == v.major && b[2] == v.minor && b[3] == v.patch
    && b[4..8] == order.put(|s|)
    && b[8..8 + |s|] == s
    && b[at..at + 4] == order.put(|p|)
    && b[at + 4..at + 4 + |p|] == p
  }

  predicate FitsBytes(v: Version) { v.major < 0x100 && v.minor < 0x100 && v.patch < 0x100 }

  // ---------- reading ----------

  /** What becomes of the bytes of a message; `Undefined` where the parser would read beyond the buffer, for it trusts the
      sizes it finds. The length that was peeked is kept in 32 bits, so the buffer for a longer message is too small; and
      the control buffer takes four descriptors. Either way something is cut off, which is treated as a disconnect. */
  function Parse(b: bytes, order: ByteOrder, own: Version, decode: bytes -> Option<Selector>, attached: seq<Fd>): Parsed {
    if !FitsIov(|b|) || !FitsControl(|attached|) then Disconnected
    else if |b| < 4 then Undefined
    else if b[0] != 0xFF then VersionMismatch(Version(0, 0, 0))
    else if !own.Compatible(Version(b[1], b[2], b[3])) then VersionMismatch(Version(b[1], b[2], b[3]))
    else if |b| < 8 || 8 + order.get(b[4..8]) > |b| then Undefined
    else ParseBody(b, order, decode, attached, order.get(b[4..8]))
  }

  /** The frame behind its version word, with a selector of `n` bytes. */
  function ParseBody(b: bytes, order: ByteOrder, decode: bytes -> Option<Selector>, attached: seq<Fd>, n: nat): Parsed
    requires 8 + n <= |b|
  {
    var selector := decode(b[8..8 + n]);
    if selector.None? then Undecodable
    else if selector.value.regionCount > |attached| then Panics
    else
      var at := 8 + Align4U32(n);
      if at + 4 > |b| || at + 4 + order.get(b[at..at + 4]) > |b| then Undefined
      else
        var split := |attached| - selector.value.regionCount;
        Frame(selector.value, b[at + 4..at + 4 + order.get(b[at..at + 4])], attached[..split], attached[split..])
  }

  /** `Meta::iov_len` is a `u32`; the buffer has that many bytes, rounded up to whole words. */
  predicate FitsIov(length: nat) { length <= Align4(length % U32) }

  const CONTROL_BUFFER: nat := 32
  const CONTROL_HEADER: nat := 16
  const FD_SIZE: nat := 4

  predicate FitsControl(count: nat) { CONTROL_HEADER + count * FD_SIZE <= CONTROL_BUFFER }

  /** A word read through a `*const u32`: in bounds and aligned. */
  method ReadWord(buf: array<byte>, at: nat, order: ByteOrder) returns (v: nat)
    requires at % 4 == 0 && at + 4 <= buf.Length
    ensures v == order.get(buf[at..at + 4])
  {
    v := order.get(buf[at..at + 4]);
  }

  /** Parsing in `from_local`, for buffers whose sizes are consistent. All its word reads are aligned and in bounds. */
  method FromLocal(
      buf: array<byte>, order: ByteOrder, own: Version, decode: bytes -> Option<Selector>, attached: seq<Fd>)
    returns (r: Parsed)
    requires order.Valid() && !Parse(buf[..], order, own, decode, attached).Undefined?
    ensures r == Parse(buf[..], order, own, decode, attached)
  {
    IovFits(buf.Length);
    if buf.Length > Align4(buf.Length % U32) || CONTROL_HEADER + |attached| * FD_SIZE > CONTROL_BUFFER {
      return Disconnected;
    }
    var remoteVersion := Version(buf[1], buf[2], buf[3]);
    if buf[0] != 0xFF {
      return VersionMismatch(Version(0, 0, 0));
    }
    if !own.Compatible(remoteVersion) {
      return VersionMismatch(remoteVersion);
    }
    assert buf[..][4..8] == buf[4..8];
    var selectorSize := ReadWord(buf, 4, order);
    r := BodyFromLocal(buf, order, decode, attached, selectorSize);
  }

  method BodyFromLocal(
      buf: array<byte>, order: ByteOrder, decode: bytes -> Option<Selector>, attached: seq<Fd>, selectorSize: nat)
    returns (r: Parsed)
    requires order.Valid() && selectorSize < U32 && 8 + selectorSize <= buf.Length
    requires !ParseBody(buf[..], order, decode, attached, selectorSize).Undefined?
    ensures r == ParseBody(buf[..], order, decode, attached, selectorSize)
  {
    assert buf[..][8..8 + selectorSize] == buf[8..8 + selectorSize];
    var selector := decode(buf[8..8 + selectorSize]);
    if selector.None? {
      return Undecodable;
    }
    if selector.value.regionCount > |attached| {
      return Panics;
    }
    var split := |attached| - selector.value.regionCount;
    AlignFacts(selectorSize);
    SumAligned(8, Align4U32(selectorSize));
    var payload := ReadPayload(buf, order, 8 + Align4U32(selectorSize));
    return Frame(selector.value, payload, attached[..split], attached[split..]);
  }

  /** The payload behind its size. */
  method ReadPayload(buf: array<byte>, order: ByteOrder, at: nat) returns (payload: bytes)
    requires order.Valid() && at % 4 == 0 && at + 4 <= buf.Length && at + 4 + order.get(buf[..][at..at + 4]) <= buf.Length
    ensures var b := buf[..]; payload == b[at + 4..at + 4 + order.get(b[at..at + 4])]
  {
    assert buf[..][at..at + 4] == buf[at..at + 4];
    var payloadSize := ReadWord(buf, at, order);
    assert buf[..][at + 4..at + 4 + payloadSize] == buf[at + 4..at + 4 + payloadSize];
    return buf[at + 4..at + 4 + payloadSize];
  }

  // ---------- writing ----------

  /** `alloc_buffer`: whole units, not initialised; `garbage` is what the memory held before. */
  method AllocBuffer(unit: nat, size: nat, garbage: nat -> byte) returns (buf: array<byte>)
    requires unit == 4 || unit == 8
    ensures fresh(buf)
    ensures buf.Length % unit == 0 && size <= buf.Length < size + unit
  {
    var units := size / unit;
    if size % unit != 0 {
      units := units + 1;
    }
    if unit == 4 {
      RoundedUp4(size);
    } else {
      RoundedUp8(size);
    }
    buf := new byte[units * unit](i requires 0 <= i < units * unit => garbage(i));
  }

  lemma RoundedUp4(size: nat)
    ensures var units := if size % 4 != 0 then size / 4 + 1 else size / 4;
      (4 * units) % 4 == 0 && size <= 4 * units < size + 4
  {
  }

  lemma RoundedUp8(size: nat)
    ensures var units := if size % 8 != 0 then size / 8 + 1 else size / 8;
      (8 * units) % 8 == 0 && size <= 8 * units < size + 8
  {
  }

  /** A word written through a `*mut u32`. */
  method WriteWord(buf: array<byte>, at: nat, order: ByteOrder, v: nat)
    requires order.Valid() && at % 4 == 0 && at + 4 <= buf.Length
    modifies buf
    ensures Holds(buf[..], at, order.put(v))
    ensures KeptOutside(old(buf[..]), buf[..], at, at + 4)
  {
    var w := order.put(v);
    buf[at], buf[at + 1], buf[at + 2], buf[at + 3] := w[0], w[1], w[2], w[3];
  }

  method CopyBytes(buf: array<byte>, at: nat, data: bytes)
    requires at + |data| <= buf.Length
    modifies buf
    ensures Holds(buf[..], at, data)
    ensures KeptOutside(old(buf[..]), buf[..], at, at + |data|)
  {
    forall i | 0 <= i < |data| {
      buf[at + i] := data[i];
    }
  }

  /** The descriptors of the control message: objects first, then the objects behind the regions. */
  method Attach(objects: seq<Fd>, regions: seq<Fd>) returns (attached: seq<Fd>)
    ensures attached == objects + regions
  {
    attached := [];
    for i := 0 to |objects|
      invariant attached == objects[..i]
    {
      attached := attached + [objects[i]];
    }
    for i := 0 to |regions|
      invariant attached == objects + regions[..i]
    {
      attached := attached + [regions[i]];
    }
  }

  /** `encode_inner`: a frame of exactly the announced length, all of whose words are written aligned and in bounds. */
  method EncodeInner(order: ByteOrder, v: Version, s: bytes, p: bytes, garbage: nat -> byte) returns (buf: array<byte>)
    requires order.Valid() && FitsBytes(v)
    ensures fresh(buf) && IsFrame(buf[..], order, v, s, p)
    ensures buf.Length == 12 + Align4(|s|) + Align4(|p|)
  {
    AlignFacts(|s|);
    AlignFacts(|p|);
    SumsAligned(|s|, |p|);
    buf := AllocBuffer(4, 12 + Align4(|s|) + Align4(|p|), garbage);
    WholeWords(12 + Align4(|s|) + Align4(|p|), buf.Length);
    WriteFrame(buf, order, [0xFF, v.major, v.minor, v.patch], s, p, 8 + Align4(|s|));
    HasParts(buf[..], order, v, s, p);
  }

  /** The writes, one field after the other; none disturbs an earlier one. */
  method WriteFrame(buf: array<byte>, order: ByteOrder, head: bytes, s: bytes, p: bytes, at: nat)
    requires order.Valid() && |head| == 4
    requires at % 4 == 0 && 8 + |s| <= at && at + 4 + |p| <= buf.Length
    modifies buf
    ensures Holds(buf[..], 0, head) && Holds(buf[..], 4, order.put(|s|)) && Holds(buf[..], 8, s)
    ensures Holds(buf[..], at, order.put(|p|)) && Holds(buf[..], at + 4, p)
  {
    ghost var sizeOfS, sizeOfP := order.put(|s|), order.put(|p|);
    CopyBytes(buf, 0, head);
    ghost var b1 := buf[..];
    WriteWord(buf, 4, order, |s|);
    ghost var b2 := buf[..];
    StillHolds(b1, b2, 4, 8, 0, head);
    CopyBytes(buf, 8, s);
    ghost var b3 := buf[..];
    StillHolds(b2, b3, 8, 8 + |s|, 0, head);
    StillHolds(b2, b3, 8, 8 + |s|, 4, sizeOfS);
    WriteWord(buf, at, order, |p|);
    ghost var b4 := buf[..];
    StillHolds(b3, b4, at, at + 4, 0, head);
    StillHolds(b3, b4, at, at + 4, 4, sizeOfS);
    StillHolds(b3, b4, at, at + 4, 8, s);
    CopyBytes(buf, at + 4, p);
    ghost var b5 := buf[..];
    StillHolds(b4, b5, at + 4, at + 4 + |p|, 0, head);
    StillHolds(b4, b5, at + 4, at + 4 + |p|, 4, sizeOfS);
    StillHolds(b4, b5, at + 4, at + 4 + |p|, 8, s);
    StillHolds(b4, b5, at + 4, at + 4 + |p|, at, sizeOfP);
  }

  ghost predicate KeptOutside(b: bytes, c: bytes, from: nat, to: nat) {
    |b| == |c| && forall i | 0 <= i < |b| && !(from <= i < to) :: c[i] == b[i]
  }

  lemma StillHolds(b: bytes, c: bytes, from: nat, to: nat, at: nat, data: bytes)
    requires KeptOutside(b, c, from, to) && Holds(b, at, data)
    requires at + |data| <= from || to <= at
    ensures Holds(c, at, data)
  {
  }

  ghost predicate Holds(b: bytes, at: nat, data: bytes) {
    at + |data| <= |b| && forall i | 0 <= i < |data| :: b[at + i] == data[i]
  }

  lemma HasParts(b: bytes, order: ByteOrder, v: Version, s: bytes, p: bytes)
    requires FitsBytes(v) && |b| == 12 + Align4(|s|) + Align4(|p|)
    requires order.Valid()
    requires Holds(b, 0, [0xFF, v.major, v.minor, v.patch])
    requires Holds(b, 4, order.put(|s|)) && Holds(b, 8, s)
    requires Holds(b, 8 + Align4(|s|), order.put(|p|)) && Holds(b, 12 + Align4(|s|), p)
    ensures IsFrame(b, order, v, s, p)
  {
    var head: bytes := [0xFF, v.major, v.minor, v.patch];
    assert b[0] == head[0] && b[0 + 1] == head[1] && b[0 + 2] == head[2] && b[0 + 3] == head[3];
    SliceOf(b, 4, order.put(|s|));
    SliceOf(b, 8, s);
    SliceOf(b, 8 + Align4(|s|), order.put(|p|));
    SliceOf(b, 12 + Align4(|s|), p);
  }

  lemma SliceOf(b: bytes, at: nat, data: bytes)
    requires Holds(b, at, data)
    ensures b[at..at + |data|] == data
  {
  }

  // ---------- there and back ----------

  /** The buffer for the message is large enough exactly for messages below 2^32 bytes. */
  lemma IovFits(length: nat)
    ensures FitsIov(length) <==> length < U32
  {
    AlignFacts(length % U32);
    if length >= U32 {
      assert length >= U32 + length % U32;
    }
  }

  /** In a frame that gets to the parser, rounding the selector length up in 32 bits, as the parser does, is the same as
      rounding it up in a machine word, as the writer does: such a frame is too short for the 32-bit sum to wrap. */
  lemma WrapNeverShows(b: bytes, order: ByteOrder, v: Version, s: bytes, p: bytes)
    requires order.Valid() && IsFrame(b, order, v, s, p) && FitsIov(|b|)
    ensures Align4U32(order.get(b[4..8])) == Align4(|s|)
    ensures order.get(b[4..8]) == |s| && order.get(b[8 + Align4(|s|)..12 + Align4(|s|)]) == |p|
  {
    IovFits(|b|);
    AlignFacts(|s|);
    AlignFacts(|p|);
  }

  /** The fate of every well-formed frame, whatever its padding bytes hold: the sizes first, then the version, then the
      selector, which may not decode or may claim more regions than there are attachments. */
  lemma FrameFate(
      b: bytes, order: ByteOrder, v: Version, s: bytes, p: bytes, attached: seq<Fd>, own: Version, decode: bytes -> Option<Selector>)
    requires order.Valid() && IsFrame(b, order, v, s, p) && FitsBytes(v)
    ensures Parse(b, order, own, decode, attached) ==
      if |attached| > 4 || 12 + Align4(|s|) + Align4(|p|) >= U32 then Disconnected
      else if !own.Compatible(v) then VersionMismatch(v)
      else if decode(s).None? then Undecodable
      else if decode(s).value.regionCount > |attached| then Panics
      else
        var objects := |attached| - decode(s).value.regionCount;
        Frame(decode(s).value, p, attached[..objects], attached[objects..])
  {
    IovFits(|b|);
    if FitsIov(|b|) {
      WrapNeverShows(b, order, v, s, p);
      AlignFacts(|s|);
      AlignFacts(|p|);
    }
  }

  /** Round trip, exactly. A frame between compatible versions, with a selector that decodes and counts the attached regions,
      is parsed back to the same selector, payload, objects and regions if and only if there are at most four attachments
      and the frame is shorter than 2^32 bytes; otherwise it reads as a disconnect. */
  lemma FrameRoundTrip(
      b: bytes, order: ByteOrder, v: Version, s: bytes, p: bytes, objects: seq<Fd>, regions: seq<Fd>,
      own: Version, decode: bytes -> Option<Selector>, selector: Selector)
    requires order.Valid() && IsFrame(b, order, v, s, p)
    requires own.Compatible(v) && FitsBytes(v)
    requires decode(s) == Some(selector) && selector.regionCount == |regions|
    ensures Parse(b, order, own, decode, objects + regions) ==
      if |objects| + |regions| <= 4 && 12 + Align4(|s|) + Align4(|p|) < U32 then Frame(selector, p, objects, regions)
      else Disconnected
  {
    var attached := objects + regions;
    FrameFate(b, order, v, s, p, attached, own, decode);
    assert attached[..|objects|] == objects && attached[|objects|..] == regions;
  }

  /** A frame is refused with its sender's version if and only if the two versions are not compatible. */
  lemma ForeignFrameRefused(
      b: bytes, order: ByteOrder, v: Version, s: bytes, p: bytes, attached: seq<Fd>, own: Version, decode: bytes -> Option<Selector>)
    requires IsFrame(b, order, v, s, p) && FitsBytes(v) && FitsIov(|b|) && FitsControl(|attached|)
    ensures Parse(b, order, own, decode, attached) == VersionMismatch(v) <==> !own.Compatible(v)
  {
  }
}
