/** Shortest big-endian literals (`_unsigned_literal` and the integer case of
    `_condition_literal`, keepkeylib/erc7730_compiler.py). */
module Integers {
  import opened Wrappers
  import opened Bytes

  function Pow2(n: nat): (p: nat)
    ensures p >= 1
  {
    if n == 0 then 1 else 2 * Pow2(n - 1)
  }

  /** `int.bit_length`. */
  function BitLength(n: nat): nat {
    if n == 0 then 0 else 1 + BitLength(n / 2)
  }

  lemma {:induction false} BitLengthBounds(n: nat)
    ensures n < Pow2(BitLength(n))
    ensures n > 0 ==> Pow2(BitLength(n) - 1) <= n
  {
    if n > 0 {
      BitLengthBounds(n / 2);
    }
  }

  lemma {:induction false} Pow2Monotone(a: nat, b: nat)
    requires a <= b
    ensures Pow2(a) <= Pow2(b)
  {
    if a < b {
      Pow2Monotone(a, b - 1);
    }
  }

  /** A number has at most `k` bits exactly when it is below 2^k. */
  lemma {:induction false} FitsBits(n: nat, k: nat)
    ensures n < Pow2(k) <==> BitLength(n) <= k
  {
    BitLengthBounds(n);
    if BitLength(n) <= k {
      Pow2Monotone(BitLength(n), k);
    } else {
      Pow2Monotone(k, BitLength(n) - 1);
    }
  }

  lemma {:induction false} Pow256IsPow2(w: nat)
    ensures Pow256(w) == Pow2(8 * w)
  {
    if w > 0 {
      Pow256IsPow2(w - 1);
      Pow2Plus8(8 * (w - 1));
    }
  }

  lemma Pow2Plus8(n: nat)
    ensures Pow2(n + 8) == 256 * Pow2(n)
  {
    assert Pow2(n + 3) == 2 * Pow2(n + 2) == 4 * Pow2(n + 1) == 8 * Pow2(n);
    assert Pow2(n + 6) == 2 * Pow2(n + 5) == 4 * Pow2(n + 4) == 8 * Pow2(n + 3);
    assert Pow2(n + 8) == 2 * Pow2(n + 7) == 4 * Pow2(n + 6);
  }

  function Max(a: nat, b: nat): nat {
    if a >= b then a else b
  }

  function UnsignedWidth(n: nat): nat {
    Max(1, (BitLength(n) + 7) / 8)
  }

  /** `_unsigned_literal`. */
  function UnsignedLiteral(n: int): Result<bytes> {
    if n < 0 || n >= Pow256(32) then Raised else Ok(BigEndian(n, UnsignedWidth(n)))
  }

  /** `_condition_literal` on a signed leaf. */
  function SignedWidth(n: int): nat {
    Max(1, (BitLength(if n >= 0 then n else -n - 1) + 8) / 8)
  }

  function SignedLiteral(n: int): (b: bytes) {
    SignedWidthFits(n);
    TwosComplement(n, SignedWidth(n))
  }

  lemma {:induction false} UnsignedWidthFits(n: nat, w: nat)
    requires w >= 1
    ensures n < Pow256(w) <==> UnsignedWidth(n) <= w
  {
    Pow256IsPow2(w);
    FitsBits(n, 8 * w);
  }

  lemma {:induction false} SignedFits(n: int, w: nat)
    requires w >= 1
    ensures FitsSigned(n, w) <==> SignedWidth(n) <= w
  {
    var m := if n >= 0 then n else -n - 1;
    Pow256IsPow2(w);
    assert Pow2(8 * w) == 2 * Pow2(8 * w - 1);
    FitsBits(m, 8 * w - 1);
  }

  lemma {:induction false} SignedWidthFits(n: int)
    ensures FitsSigned(n, SignedWidth(n)) && 0 <= n + Pow256(SignedWidth(n))
  {
    SignedFits(n, SignedWidth(n));
  }

  /** An unsigned literal decodes to its number in the fewest bytes that can
      hold it. */
  lemma {:induction false} UnsignedLiteralMinimal(n: nat, w: nat)
    requires n < Pow256(32) && w >= 1
    ensures UnsignedLiteral(n).Ok? && Value(UnsignedLiteral(n).value) == n
    ensures |UnsignedLiteral(n).value| <= w <==> n < Pow256(w)
  {
    UnsignedWidthFits(n, UnsignedWidth(n));
    ValueOfBigEndian(n, UnsignedWidth(n));
    UnsignedWidthFits(n, w);
  }

  /** A signed literal decodes to its number in the fewest two's-complement
      bytes: -128 takes one byte, 128 takes two. */
  lemma {:induction false} SignedLiteralMinimal(n: int, w: nat)
    requires w >= 1
    ensures SignedValue(SignedLiteral(n)) == n
    ensures |SignedLiteral(n)| <= w <==> FitsSigned(n, w)
  {
    SignedWidthFits(n);
    SignedValueOfTwosComplement(n, SignedWidth(n));
    SignedFits(n, w);
  }
}
