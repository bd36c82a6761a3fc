/** Hexadecimal text (`bytes.fromhex` and `int(s, 16)`). */
module Hex {
  import opened Wrappers
  import opened Bytes

  function HexDigit(c: char): (r: Result<nat>)
    ensures r.Ok? ==> r.value < 16
  {
    if '0' <= c <= '9' then Ok(c as int - '0' as int)
    else if 'a' <= c <= 'f' then Ok(c as int - 'a' as int + 10)
    else if 'A' <= c <= 'F' then Ok(c as int - 'A' as int + 10)
    else Raised
  }

  /** The white space `bytes.fromhex` skips. */
  predicate IsAsciiSpace(c: char) {
    c == ' ' || '\t' <= c <= '\r'
  }

  /** `bytes.fromhex`: blanks may stand between bytes, not within one. */
  function HexBytes(s: string): Result<bytes> {
    if s == "" then Ok([])
    else if IsAsciiSpace(s[0]) then HexBytes(s[1..])
    else if |s| == 1 then Raised
    else
      var high :- HexDigit(s[0]);
      var low :- HexDigit(s[1]);
      var rest :- HexBytes(s[2..]);
      Ok([(16 * high + low) as Byte] + rest)
  }

  predicate AllHex(s: string) {
    forall i :: 0 <= i < |s| ==> HexDigit(s[i]).Ok?
  }

  function HexValue(s: string): Result<nat> {
    if s == "" then Ok(0)
    else
      var init :- HexValue(s[..|s| - 1]);
      var last :- HexDigit(s[|s| - 1]);
      Ok(16 * init + last)
  }

  // ---------------------------------------------------------------- spelling

  const LOWER: string := "0123456789abcdef"
  const UPPER: string := "0123456789ABCDEF"

  /** `c` is the digit of `n`, in either case. */
  predicate Digit(c: char, n: nat) {
    n < 16 && (c == LOWER[n] || c == UPPER[n])
  }

  lemma HexDigitIff(c: char, n: nat)
    ensures HexDigit(c) == Ok(n) <==> Digit(c, n)
  {
  }

  /** Two digits for each byte, in order. */
  predicate Spells(s: string, b: bytes) {
    && |s| == 2 * |b|
    && forall i :: 0 <= i < |b| ==> Digit(s[2 * i], b[i] / 16) && Digit(s[2 * i + 1], b[i] % 16)
  }

  lemma PairValue(high: char, low: char, x: Byte)
    ensures HexDigit(high).Ok? && HexDigit(low).Ok? && 16 * HexDigit(high).value + HexDigit(low).value == x <==>
            Digit(high, x / 16) && Digit(low, x % 16)
  {
    hide HexDigit, Digit;
    HexDigitIff(high, x / 16);
    HexDigitIff(low, x % 16);
  }

  lemma SpellsTail(s: string, b: bytes)
    requires |s| >= 2 && b != []
    ensures Spells(s, b) <==> Digit(s[0], b[0] / 16) && Digit(s[1], b[0] % 16) && Spells(s[2..], b[1..])
  {
    hide Digit;
    if Spells(s, b) {
      assert s[2 * 0] == s[0];
      forall i | 0 <= i < |b[1..]|
        ensures Digit(s[2..][2 * i], b[1..][i] / 16) && Digit(s[2..][2 * i + 1], b[1..][i] % 16) {
        assert s[2..][2 * i] == s[2 * (i + 1)] && s[2..][2 * i + 1] == s[2 * (i + 1) + 1];
      }
    }
    if Digit(s[0], b[0] / 16) && Digit(s[1], b[0] % 16) && Spells(s[2..], b[1..]) {
      forall i | 0 <= i < |b| ensures Digit(s[2 * i], b[i] / 16) && Digit(s[2 * i + 1], b[i] % 16) {
        if i > 0 {
          assert s[2 * i] == s[2..][2 * (i - 1)] && s[2 * i + 1] == s[2..][2 * (i - 1) + 1] && b[i] == b[1..][i - 1];
        }
      }
    }
  }

  /** Text of digits alone is taken exactly when it spells bytes, and for those
      bytes. */
  lemma {:induction false} HexBytesIff(s: string, b: bytes)
    ensures AllHex(s) && HexBytes(s) == Ok(b) <==> Spells(s, b)
    decreases |s|
  {
    hide Digit, HexDigit;
    if |s| < 2 || b == [] {
      if s != "" && AllHex(s) {
        NoBlankDigit(s[0]);
      }
    } else {
      SpellsTail(s, b);
      PairValue(s[0], s[1], b[0]);
      HexBytesIff(s[2..], b[1..]);
      NoBlankDigit(s[0]);
      PairFirst(s);
      assert b == [b[0]] + b[1..];
    }
  }

  /** Digits alone fail exactly when their number is odd. */
  lemma {:induction false} HexBytesRaise(s: string)
    requires AllHex(s)
    ensures HexBytes(s).Ok? <==> |s| % 2 == 0
    decreases |s|
  {
    hide HexDigit;
    if s != "" {
      NoBlankDigit(s[0]);
      if |s| >= 2 {
        PairFirst(s);
        HexBytesRaise(s[2..]);
      }
    }
  }

  /** What is taken and holds no blank is digits alone. */
  lemma {:induction false} TakenIsHex(s: string)
    requires HexBytes(s).Ok? && forall i :: 0 <= i < |s| ==> !IsAsciiSpace(s[i])
    ensures AllHex(s)
    decreases |s|
  {
    hide HexDigit;
    if s != "" {
      assert |s| >= 2;
      forall i | 0 <= i < |s[2..]| ensures !IsAsciiSpace(s[2..][i]) {
        assert s[2..][i] == s[i + 2];
      }
      TakenIsHex(s[2..]);
      PairFirst(s);
    }
  }

  /** Blanks between bytes change nothing. */
  lemma {:induction false} HexBytesUnspaced(s: string)
    ensures HexBytes(s).Ok? ==> HexBytes(Unspaced(s)) == HexBytes(s)
    decreases |s|
  {
    hide HexDigit;
    if s != "" {
      if IsAsciiSpace(s[0]) {
        HexBytesUnspaced(s[1..]);
        assert Unspaced(s) == Unspaced(s[1..]);
      } else if HexBytes(s).Ok? {
        NoBlankDigit(s[1]);
        HexBytesUnspaced(s[2..]);
        var rest := Unspaced(s[2..]);
        assert s[1..][1..] == s[2..];
        assert Unspaced(s) == [s[0]] + ([s[1]] + rest);
        assert Unspaced(s)[2..] == rest;
      }
    }
  }

  /** The text without its blanks. */
  function Unspaced(s: string): string {
    if s == "" then "" else (if IsAsciiSpace(s[0]) then "" else [s[0]]) + Unspaced(s[1..])
  }

  /** `int(s, 16)` is the number the digits' bytes hold; a leading zero digit
      changes nothing, so an odd number of digits is covered too. */
  lemma {:induction false} HexValueOfBytes(s: string, b: bytes)
    requires Spells(s, b)
    ensures HexValue(s) == Ok(Value(b))
    decreases |s|
  {
    hide HexDigit, Digit;
    if b != [] {
      var n := |b| - 1;
      var init, last := b[..n], b[n];
      var front := s[..2 * n];
      forall i | 0 <= i < |init| ensures Digit(front[2 * i], init[i] / 16) && Digit(front[2 * i + 1], init[i] % 16) {
        assert front[2 * i] == s[2 * i] && front[2 * i + 1] == s[2 * i + 1];
      }
      HexValueOfBytes(front, init);
      PairValue(s[2 * n], s[2 * n + 1], last);
      assert s[..|s| - 1][..|s[..|s| - 1]| - 1] == front;
      assert s[..|s| - 1][|s| - 2] == s[2 * n];
    }
  }

  lemma {:induction false} HexValueZero(s: string)
    ensures HexValue(['0'] + s) == HexValue(s)
  {
    var t := ['0'] + s;
    if s == "" {
      assert t[..0] == "";
    } else {
      HexValueZero(s[..|s| - 1]);
      assert t[..|t| - 1] == ['0'] + s[..|s| - 1];
    }
  }

  lemma {:induction false} HexValueRaise(s: string)
    ensures HexValue(s).Ok? <==> AllHex(s)
  {
    hide HexDigit;
    if s != "" {
      var n := |s| - 1;
      HexValueRaise(s[..n]);
      assert AllHex(s) <==> AllHex(s[..n]) && HexDigit(s[n]).Ok? by {
        assert forall i :: 0 <= i < n ==> s[..n][i] == s[i];
      }
    }
  }

  lemma NoBlankDigit(c: char)
    ensures HexDigit(c).Ok? ==> !IsAsciiSpace(c)
  {
  }

  lemma PairFirst(s: string)
    requires |s| >= 2
    ensures AllHex(s) <==> HexDigit(s[0]).Ok? && HexDigit(s[1]).Ok? && AllHex(s[2..])
  {
    hide HexDigit;
    if HexDigit(s[0]).Ok? && HexDigit(s[1]).Ok? && AllHex(s[2..]) {
      forall i | 0 <= i < |s| ensures HexDigit(s[i]).Ok? {
        assert i >= 2 ==> s[i] == s[2..][i - 2];
      }
    }
    if AllHex(s) {
      forall i | 0 <= i < |s[2..]| ensures HexDigit(s[2..][i]).Ok? {
        assert s[2..][i] == s[i + 2];
      }
    }
  }
}
