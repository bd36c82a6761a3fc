/** Byte strings: big-endian integers, and cursors over concatenated chunks. */
module Bytes {
  import opened Wrappers

  type Byte = b: int | 0 <= b < 256

  type bytes = seq<Byte>

  function Pow256(w: nat): (p: nat)
    ensures p >= 1
  {
    if w == 0 then 1 else 256 * Pow256(w - 1)
  }

  /** The low `w` bytes of `n`, most significant first (`to_bytes(w, "big")`). */
  function BigEndian(n: nat, w: nat): (b: bytes)
    ensures |b| == w
    decreases w
  {
    if w == 0 then [] else BigEndian(n / 256, w - 1) + [n % 256]
  }

  /** `int.from_bytes(b, "big")`. */
  function Value(b: bytes): (n: nat)
    ensures n < Pow256(|b|)
  {
    if b == [] then 0 else 256 * Value(b[..|b| - 1]) + b[|b| - 1]
  }

  lemma {:induction false} ValueOfBigEndian(n: nat, w: nat)
    requires n < Pow256(w)
    ensures Value(BigEndian(n, w)) == n
  {
    if w > 0 {
      ValueOfBigEndian(n / 256, w - 1);
      var b := BigEndian(n, w);
      assert b[..w - 1] == BigEndian(n / 256, w - 1);
    }
  }

  lemma {:induction false} BigEndianOfValue(b: bytes)
    ensures BigEndian(Value(b), |b|) == b
  {
    if b != [] {
      var init := b[..|b| - 1];
      BigEndianOfValue(init);
      assert Value(b) / 256 == Value(init) && Value(b) % 256 == b[|b| - 1];
      assert b == init + [b[|b| - 1]];
    }
  }

  /** A signed value in `w` bytes of two's complement. */
  function TwosComplement(n: int, w: nat): (b: bytes)
    requires 0 <= n + Pow256(w)
    ensures |b| == w
  {
    BigEndian(if n < 0 then n + Pow256(w) else n, w)
  }

  function SignedValue(b: bytes): int {
    var n := Value(b);
    if 2 * n >= Pow256(|b|) then n - Pow256(|b|) else n
  }

  predicate FitsSigned(n: int, w: nat) {
    0 <= 2 * n + Pow256(w) && 2 * n < Pow256(w)
  }

  lemma {:induction false} SignedValueOfTwosComplement(n: int, w: nat)
    requires w > 0 && FitsSigned(n, w)
    ensures SignedValue(TwosComplement(n, w)) == n
  {
    ValueOfBigEndian(if n < 0 then n + Pow256(w) else n, w);
  }

  /** `struct.pack(">H", n)`. */
  function U16(n: nat): (b: bytes)
    requires n < 0x1_0000
    ensures |b| == 2
  {
    [n / 0x100, n % 0x100]
  }

  /** `struct.pack(">I", n)`. */
  function U32(n: nat): (b: bytes)
    requires n < 0x1_0000_0000
    ensures |b| == 4
  {
    U16(n / 0x1_0000) + U16(n % 0x1_0000)
  }

  /** `struct.pack(">Q", n)`. */
  function U64(n: nat): (b: bytes)
    requires n < 0x1_0000_0000_0000_0000
    ensures |b| == 8
  {
    U32(n / 0x1_0000_0000) + U32(n % 0x1_0000_0000)
  }

  predicate IsI32(n: int) {
    -0x8000_0000 <= n < 0x8000_0000
  }

  /** `struct.pack(">i", n)`. */
  function I32(n: int): (b: bytes)
    requires IsI32(n)
    ensures |b| == 4
  {
    U32(if n < 0 then n + 0x1_0000_0000 else n)
  }

  // -------------------------------------------------------------- cursors

  /** `b` stands in `data` at `at`. */
  ghost predicate Has(data: bytes, at: nat, b: bytes) {
    at + |b| <= |data| && forall i :: 0 <= i < |b| ==> b[i] == data[at + i]
  }

  lemma HasParts(data: bytes, at: nat, a: bytes, b: bytes)
    requires Has(data, at, a + b)
    ensures Has(data, at, a) && Has(data, at + |a|, b)
  {
    forall i | 0 <= i < |a| ensures a[i] == data[at + i] {
      assert (a + b)[i] == a[i];
    }
    forall i | 0 <= i < |b| ensures b[i] == data[at + |a| + i] {
      assert (a + b)[|a| + i] == b[i];
    }
  }

  lemma HasByte(data: bytes, at: nat, x: Byte)
    requires Has(data, at, [x])
    ensures at < |data| && data[at] == x
  {
    assert [x][0] == x;
  }

  lemma HasTwo(data: bytes, at: nat, x: Byte, y: Byte)
    requires Has(data, at, [x, y])
    ensures at + 1 < |data| && data[at] == x && data[at + 1] == y
  {
    assert [x, y][0] == x && [x, y][1] == y;
  }

  lemma HasAll(data: bytes)
    ensures Has(data, 0, data)
  {
  }

  // -------------------------------------------------------------- readers

  /** `struct.unpack(">H", data[at:at + 2])`. */
  function ReadU16(data: bytes, at: nat): (r: Result<nat>)
    ensures r.Ok? ==> r.value < 0x1_0000
  {
    if at + 2 <= |data| then Ok(0x100 * (data[at] as int) + data[at + 1]) else Raised
  }

  function ReadU32(data: bytes, at: nat): Result<nat> {
    var high :- ReadU16(data, at);
    var low :- ReadU16(data, at + 2);
    Ok(0x1_0000 * high + low)
  }

  function ReadI32(data: bytes, at: nat): Result<int> {
    var n :- ReadU32(data, at);
    Ok(if n >= 0x8000_0000 then n - 0x1_0000_0000 else n)
  }

  /** `data[at]`. */
  function ReadByte(data: bytes, at: nat): Result<Byte> {
    if at < |data| then Ok(data[at]) else Raised
  }

  /** `data[at:at + n]`: a slice stops at the end of the data. */
  function Slice(data: bytes, at: nat, n: nat): bytes {
    if at >= |data| then []
    else if at + n <= |data| then data[at..at + n]
    else data[at..]
  }

  lemma ReadU16At(data: bytes, at: nat, n: nat)
    requires n < 0x1_0000 && Has(data, at, U16(n))
    ensures ReadU16(data, at) == Ok(n)
  {
    HasTwo(data, at, n / 0x100, n % 0x100);
  }

  lemma ReadU32At(data: bytes, at: nat, n: nat)
    requires n < 0x1_0000_0000 && Has(data, at, U32(n))
    ensures ReadU32(data, at) == Ok(n)
  {
    HasParts(data, at, U16(n / 0x1_0000), U16(n % 0x1_0000));
    ReadU16At(data, at, n / 0x1_0000);
    ReadU16At(data, at + 2, n % 0x1_0000);
  }

  lemma ReadI32At(data: bytes, at: nat, n: int)
    requires IsI32(n) && Has(data, at, I32(n))
    ensures ReadI32(data, at) == Ok(n)
  {
    ReadU32At(data, at, if n < 0 then n + 0x1_0000_0000 else n);
  }

  lemma SliceAt(data: bytes, at: nat, b: bytes)
    requires Has(data, at, b)
    ensures Slice(data, at, |b|) == b
  {
  }
}
