/** UTF-8, as `str.encode` and `bytes.decode` have it. */
module Utf8 {
  import opened Wrappers
  import opened Bytes

  function EncodeChar(c: char): (b: bytes)
    ensures 1 <= |b| <= 4
  {
    var n := c as int;
    if n < 0x80 then [n]
    else if n < 0x800 then [0xc0 + n / 0x40, 0x80 + n % 0x40]
    else if n < 0x1_0000 then [0xe0 + n / 0x1000, 0x80 + n / 0x40 % 0x40, 0x80 + n % 0x40]
    else [0xf0 + n / 0x4_0000, 0x80 + n / 0x1000 % 0x40, 0x80 + n / 0x40 % 0x40, 0x80 + n % 0x40]
  }

  function Encode(s: string): bytes {
    if s == "" then [] else EncodeChar(s[0]) + Encode(s[1..])
  }

  predicate Continues(b: bytes, i: nat) {
    i < |b| && 0x80 <= b[i] < 0xc0
  }

  predicate IsScalar(n: int) {
    0 <= n < 0xd800 || 0xe000 <= n < 0x11_0000
  }

  /** The six payload bits of a continuation byte. */
  function Six(b: bytes, i: nat): (n: int)
    requires Continues(b, i)
    ensures 0 <= n < 0x40
  {
    (b[i] as int) - 0x80
  }

  function Two(b: bytes): (n: int)
    requires b != [] && 0xc2 <= b[0] < 0xe0 && Continues(b, 1)
    ensures 0x80 <= n < 0x800
  {
    0x40 * ((b[0] as int) - 0xc0) + Six(b, 1)
  }

  function Three(b: bytes): int
    requires b != [] && Continues(b, 1) && Continues(b, 2)
  {
    0x1000 * ((b[0] as int) - 0xe0) + 0x40 * Six(b, 1) + Six(b, 2)
  }

  function Four(b: bytes): int
    requires b != [] && Continues(b, 1) && Continues(b, 2) && Continues(b, 3)
  {
    0x4_0000 * ((b[0] as int) - 0xf0) + 0x1000 * Six(b, 1) + 0x40 * Six(b, 2) + Six(b, 3)
  }

  /** The first character and its length; overlong forms, surrogates and
      numbers past the last code point raise. */
  function DecodeChar(b: bytes): (r: Result<(char, nat)>)
    ensures r.Ok? ==> 1 <= r.value.1 <= |b|
  {
    if b == [] then Raised
    else if b[0] < 0x80 then Ok((b[0] as char, 1))
    else if 0xc2 <= b[0] < 0xe0 && Continues(b, 1) then Ok((Two(b) as char, 2))
    else if 0xe0 <= b[0] < 0xf0 && Continues(b, 1) && Continues(b, 2) then
      if Three(b) >= 0x800 && IsScalar(Three(b)) then Ok((Three(b) as char, 3)) else Raised
    else if 0xf0 <= b[0] < 0xf5 && Continues(b, 1) && Continues(b, 2) && Continues(b, 3) then
      if Four(b) >= 0x1_0000 && IsScalar(Four(b)) then Ok((Four(b) as char, 4)) else Raised
    else Raised
  }

  function Decode(b: bytes): Result<string>
    decreases |b|
  {
    if b == [] then Ok("")
    else
      var (c, n) :- DecodeChar(b);
      var rest :- Decode(b[n..]);
      Ok([c] + rest)
  }

  lemma DecodeOne(b: bytes, n: int)
    requires 0 <= n < 0x80 && b != [] && b[0] == n
    ensures DecodeChar(b) == Ok((n as char, 1))
  {
  }

  lemma DecodeTwo(b: bytes, n: int)
    requires 0x80 <= n < 0x800 && |b| >= 2
    requires b[0] == 0xc0 + n / 0x40 && b[1] == 0x80 + n % 0x40
    ensures DecodeChar(b) == Ok((n as char, 2))
  {
  }

  lemma DecodeThree(b: bytes, n: int)
    requires 0x800 <= n < 0x1_0000 && IsScalar(n) && |b| >= 3
    requires b[0] == 0xe0 + n / 0x1000 && b[1] == 0x80 + n / 0x40 % 0x40 && b[2] == 0x80 + n % 0x40
    ensures DecodeChar(b) == Ok((n as char, 3))
  {
    assert Three(b) == n;
  }

  lemma SixBitDigits(n: nat)
    ensures n == 0x4_0000 * (n / 0x4_0000) + 0x1000 * (n / 0x1000 % 0x40) + 0x40 * (n / 0x40 % 0x40) + n % 0x40
  {
    var a := n / 0x40;
    var b := a / 0x40;
    assert n / 0x1000 == b && n / 0x4_0000 == b / 0x40;
  }

  lemma DecodeFour(b: bytes, n: int)
    requires 0x1_0000 <= n < 0x11_0000 && |b| >= 4
    requires b[0] == 0xf0 + n / 0x4_0000 && b[1] == 0x80 + n / 0x1000 % 0x40
    requires b[2] == 0x80 + n / 0x40 % 0x40 && b[3] == 0x80 + n % 0x40
    ensures DecodeChar(b) == Ok((n as char, 4))
  {
    SixBitDigits(n);
    var x, y, z, w := n / 0x4_0000, n / 0x1000 % 0x40, n / 0x40 % 0x40, n % 0x40;
    assert Six(b, 1) == y && Six(b, 2) == z && Six(b, 3) == w;
    assert Four(b) == n;
  }

  lemma DecodeUndoesEncodeChar(c: char, rest: bytes)
    ensures DecodeChar(EncodeChar(c) + rest) == Ok((c, |EncodeChar(c)|))
  {
    hide DecodeChar;
    var n := c as int;
    var b := EncodeChar(c) + rest;
    if n < 0x80 {
      DecodeOne(b, n);
    } else if n < 0x800 {
      DecodeTwo(b, n);
    } else if n < 0x1_0000 {
      DecodeThree(b, n);
    } else {
      DecodeFour(b, n);
    }
  }

  /** Decoding encoded text gives the text back. */
  lemma {:induction false} DecodeUndoesEncode(s: string)
    ensures Decode(Encode(s)) == Ok(s)
  {
    if s != "" {
      var first, rest := EncodeChar(s[0]), Encode(s[1..]);
      DecodeUndoesEncodeChar(s[0], rest);
      assert (first + rest)[|first|..] == rest;
      DecodeUndoesEncode(s[1..]);
      assert s == [s[0]] + s[1..];
    }
  }

  lemma EncodeUndoesDecodeChar(b: bytes)
    requires DecodeChar(b).Ok?
    ensures var (c, n) := DecodeChar(b).value; EncodeChar(c) == b[..n]
  {
    var (c, n) := DecodeChar(b).value;
    if n == 1 {
      assert b[..n] == [b[0]];
    } else if n == 2 {
      EncodeTwo(b);
    } else if n == 3 {
      EncodeThree(b);
    } else {
      EncodeFour(b);
    }
  }

  lemma EncodeTwo(b: bytes)
    requires b != [] && 0xc2 <= b[0] < 0xe0 && Continues(b, 1)
    ensures EncodeChar(Two(b) as char) == b[..2]
  {
    var n, x, y := Two(b), (b[0] as int) - 0xc0, Six(b, 1);
    assert n / 0x40 == x && n % 0x40 == y;
  }

  lemma SixBits(a: int, b: int, c: int)
    requires 0 <= a && 0 <= b < 0x40 && 0 <= c < 0x40
    ensures var n := 0x1000 * a + 0x40 * b + c; n / 0x1000 == a && n / 0x40 % 0x40 == b && n % 0x40 == c
  {
    var n := 0x1000 * a + 0x40 * b + c;
    assert n / 0x40 == 0x40 * a + b;
  }

  lemma EncodeThree(b: bytes)
    requires b != [] && 0xe0 <= b[0] < 0xf0 && Continues(b, 1) && Continues(b, 2)
    requires Three(b) >= 0x800 && IsScalar(Three(b))
    ensures EncodeChar(Three(b) as char) == b[..3]
  {
    SixBits((b[0] as int) - 0xe0, Six(b, 1), Six(b, 2));
  }

  lemma EncodeFour(b: bytes)
    requires b != [] && 0xf0 <= b[0] < 0xf5 && Continues(b, 1) && Continues(b, 2) && Continues(b, 3)
    requires Four(b) >= 0x1_0000 && IsScalar(Four(b))
    ensures EncodeChar(Four(b) as char) == b[..4]
  {
    var a, x, y, z := (b[0] as int) - 0xf0, Six(b, 1), Six(b, 2), Six(b, 3);
    SixBits(0x40 * a + x, y, z);
    var n := Four(b);
    assert n / 0x1000 == 0x40 * a + x;
    assert n / 0x4_0000 == a && n / 0x1000 % 0x40 == x;
  }

  /** Encoding decoded bytes gives the bytes back: no two byte strings hold the
      same text. */
  lemma {:induction false} EncodeUndoesDecode(b: bytes)
    requires Decode(b).Ok?
    ensures Encode(Decode(b).value) == b
    decreases |b|
  {
    hide DecodeChar, EncodeChar;
    if b != [] {
      EncodeUndoesDecodeChar(b);
      var (c, n) := DecodeChar(b).value;
      EncodeUndoesDecode(b[n..]);
      var s := [c] + Decode(b[n..]).value;
      assert s[1..] == Decode(b[n..]).value;
      assert b == b[..n] + b[n..];
    }
  }

  /** Text the device shows: well-formed and without control characters. */
  predicate Printable(b: bytes) {
    Decode(b).Ok? && forall i :: 0 <= i < |Decode(b).value| ==> ' ' <= Decode(b).value[i] != '\U{7f}'
  }
}
