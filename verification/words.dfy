/** Bytes, 32-bit words in native byte order, and rounding up to whole words. */
module Words {

  type byte = x: int | 0 <= x < 0x100
  type bytes = seq<byte>

  const U32: nat := 0x1_0000_0000

  /** How a machine stores a 32-bit word. Both ends of a connection run on one machine and agree on it. */
  datatype ByteOrder = ByteOrder(put: nat -> bytes, get: bytes -> nat) {
    ghost predicate Valid() {
      && (forall v: nat :: |put(v)| == 4)
      && (forall v: nat | v < U32 :: get(put(v)) == v)
      && (forall b | |b| == 4 :: get(b) < U32)
    }
  }

  function PutLittle(v: nat): (b: bytes)
    ensures |b| == 4
  {
    [v % 0x100, v / 0x100 % 0x100, v / 0x1_0000 % 0x100, v / 0x100_0000 % 0x100]
  }

  function GetLittle(b: bytes): nat {
    if |b| != 4 then 0
    else (b[0] as int) + 0x100 * (b[1] as int) + 0x1_0000 * (b[2] as int) + 0x100_0000 * (b[3] as int)
  }

  function Reversed(b: bytes): bytes { seq(|b|, i requires 0 <= i < |b| => b[|b| - 1 - i]) }

  lemma LittleRoundTrip(v: nat)
    requires v < U32
    ensures GetLittle(PutLittle(v)) == v
  {
    var q0 := v / 0x100;
    var q1 := q0 / 0x100;
    var q2 := q1 / 0x100;
    assert v / 0x1_0000 == q1 && v / 0x100_0000 == q2;
    assert v == v % 0x100 + 0x100 * q0 && q0 == q0 % 0x100 + 0x100 * q1 && q1 == q1 % 0x100 + 0x100 * q2;
  }

  /** Little and big endian storage are both byte orders in this sense. */
  lemma EndiannessIsByteOrder()
    ensures ByteOrder(v => PutLittle(v), b => GetLittle(b)).Valid()
    ensures ByteOrder(v => Reversed(PutLittle(v)), b => GetLittle(Reversed(b))).Valid()
  {
    forall v: nat | v < U32
      ensures GetLittle(PutLittle(v)) == v && GetLittle(Reversed(Reversed(PutLittle(v)))) == v
    {
      LittleRoundTrip(v);
      assert Reversed(Reversed(PutLittle(v))) == PutLittle(v);
    }
  }

  /** `align4` of a `usize`. */
  function Align4(n: nat): nat { if n % 4 != 0 then n - n % 4 + 4 else n }

  /** `align4` of a `u32`, in 32-bit arithmetic. */
  function Align4U32(n: nat): nat { if n % 4 != 0 then (n - n % 4 + 4) % U32 else n }

  lemma AlignFacts(n: nat)
    ensures Align4(n) % 4 == 0 && n <= Align4(n) < n + 4
    ensures n < U32 ==> Align4U32(n) % 4 == 0
    ensures n < U32 ==> (Align4U32(n) == Align4(n) <==> n <= U32 - 4)
  {
  }

  lemma SumAligned(a: nat, b: nat)
    requires a % 4 == 0 && b % 4 == 0
    ensures (a + b) % 4 == 0
  {
  }

  /** Fields behind rounded fields are aligned too. */
  lemma SumsAligned(n: nat, m: nat)
    ensures (8 + Align4(n)) % 4 == 0 && (12 + Align4(n) + Align4(m)) % 4 == 0
  {
    AlignFacts(n);
    AlignFacts(m);
    SumAligned(8, Align4(n));
    SumAligned(12, Align4(n));
    SumAligned(12 + Align4(n), Align4(m));
  }

  lemma WholeWords(size: nat, length: nat)
    requires size % 4 == 0 && length % 4 == 0 && size <= length < size + 4
    ensures length == size
  {
  }
}
