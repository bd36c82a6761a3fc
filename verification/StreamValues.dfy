/** Leaf values of the EIP-712 streaming host (`encode_value` and
    `encode_array_length`, keepkeylib/eip712_stream.py). */
module StreamValues {
  import opened Wrappers
  import opened Text
  import opened Bytes
  import opened Hex
  import opened StreamTypes
  import Utf8

  const MAX_LEAF: nat := 1024
  const MAX_VALUE: nat := 1024 * 1024

  /** A value of a typed-data document. */
  datatype Json =
    | List(items: seq<Json>)
    | Object(members: map<string, Json>)
    | Number(n: int)
    | Truth(b: bool)
    | Words(text: string)
    | Raw(data: bytes)
    | Null

  predicate IsDecimalText(s: string) {
    s != "" && (if s[0] == '-' then s[1..] != "" && AllDigits(s[1..]) else AllDigits(s))
  }

  function DecimalOf(s: string): int
    requires IsDecimalText(s)
  {
    if s[0] == '-' then 0 - DigitsValue(s[1..]) else DigitsValue(s)
  }

  /** `_to_int`. */
  function ToInt(v: Json): Result<int> {
    match v
    case Number(n) => Ok(n)
    case Words(text) =>
      var s := Strip(text);
      if IsDecimalText(s) then Ok(DecimalOf(s))
      else if StartsWith(s, "0x") && s != "0x" then HexValue(s[2..])
      else Raised
    case _ => Raised
  }

  /** `_hex_bytes`. */
  function ToBytes(v: Json): Result<bytes> {
    match v
    case Raw(data) => Ok(data)
    case Words(text) =>
      var digits := if StartsWith(text, "0x") || StartsWith(text, "0X") then text[2..] else text;
      if AllHex(digits) then HexBytes(digits) else Raised
    case _ => Raised
  }

  function Bounded(b: bytes, limit: nat): Result<bytes> {
    if |b| > limit then Raised else Ok(b)
  }

  /** `encode_value`. */
  function Encode(f: Field, v: Json, limit: nat): (r: Result<bytes>)
    ensures r.Ok? && f.dataType in {UintData, IntData} ==> f.size.Some? && |r.value| == f.size.value
  {
    match f.dataType
    case UintData =>
      if f.size.None? then Raised
      else
        var n :- ToInt(v);
        if 0 <= n < Pow256(f.size.value) then Ok(BigEndian(n, f.size.value)) else Raised
    case IntData =>
      if f.size.None? || f.size.value == 0 then Raised
      else
        var n :- ToInt(v);
        if FitsSigned(n, f.size.value) then Ok(TwosComplement(n, f.size.value)) else Raised
    case BoolData => if v.Truth? then Ok([if v.b then 1 else 0]) else Raised
    case AddressData =>
      var b :- ToBytes(v);
      if |b| == 20 then Ok(b) else Raised
    case BytesData =>
      var b :- ToBytes(v);
      if f.size.None? then Bounded(b, limit)
      else if |b| == f.size.value then Ok(b) else Raised
    case StringData => if v.Words? then Bounded(Utf8.Encode(v.text), limit) else Raised
    case StructData => Raised
  }

  // ------------------------------------------------- what a leaf's bytes say

  /** What a device can read out of a leaf. */
  datatype Shown = ShownInteger(n: int) | ShownTruth(b: bool) | ShownBytes(data: bytes) | ShownText(text: string)

  /** A leaf read by its declared type alone. */
  function Reading(f: Field, b: bytes): Result<Shown> {
    match f.dataType
    case UintData => Ok(ShownInteger(Value(b)))
    case IntData => Ok(ShownInteger(SignedValue(b)))
    case BoolData => if b == [1] then Ok(ShownTruth(true)) else if b == [0] then Ok(ShownTruth(false)) else Raised
    case AddressData => Ok(ShownBytes(b))
    case BytesData => Ok(ShownBytes(b))
    case StringData =>
      var text :- Utf8.Decode(b);
      Ok(ShownText(text))
    case StructData => Raised
  }

  /** Hexadecimal text without its prefix. */
  function Unprefixed(text: string): string {
    if |text| >= 2 && text[0] == '0' && text[1] in {'x', 'X'} then text[2..] else text
  }

  /** A document's value says what is shown. */
  predicate Says(v: Json, shown: Shown) {
    match shown
    case ShownInteger(n) => ToInt(v) == Ok(n)
    case ShownTruth(b) => v == Truth(b)
    case ShownBytes(data) => v == Raw(data) || (v.Words? && Spells(Unprefixed(v.text), data))
    case ShownText(text) => v == Words(text)
  }

  /** The lengths a leaf of a type can have. */
  predicate LengthAllowed(f: Field, n: nat, limit: nat) {
    match f.dataType
    case UintData => f.size == Some(n)
    case IntData => f.size == Some(n) && n > 0
    case BoolData => n == 1
    case AddressData => n == 20
    case BytesData => f.size == Some(n) || (f.size.None? && n <= limit)
    case StringData => n <= limit
    case StructData => false
  }

  /** `b` is a leaf of the type that reads as what `v` says. */
  predicate Carries(f: Field, v: Json, limit: nat, b: bytes) {
    LengthAllowed(f, |b|, limit) && Reading(f, b).Ok? && Says(v, Reading(f, b).value)
  }

  lemma BytesIff(v: Json, b: bytes)
    ensures ToBytes(v) == Ok(b) <==> Says(v, ShownBytes(b))
  {
    hide AllHex, HexBytes, Spells;
    if v.Words? {
      var text := v.text;
      assert StartsWith(text, "0x") || StartsWith(text, "0X") <==>
             |text| >= 2 && text[0] == '0' && text[1] in {'x', 'X'};
      HexBytesIff(Unprefixed(text), b);
    }
  }

  lemma UintIff(f: Field, v: Json, limit: nat, b: bytes)
    requires f.dataType.UintData?
    ensures Encode(f, v, limit) == Ok(b) <==> Carries(f, v, limit, b)
  {
    hide ToInt, BigEndian, Value, Pow256;
    BigEndianOfValue(b);
    if f.size.Some? && ToInt(v).Ok? && 0 <= ToInt(v).value < Pow256(f.size.value) {
      ValueOfBigEndian(ToInt(v).value, f.size.value);
    }
  }

  lemma IntIff(f: Field, v: Json, limit: nat, b: bytes)
    requires f.dataType.IntData?
    ensures Encode(f, v, limit) == Ok(b) <==> Carries(f, v, limit, b)
  {
    hide ToInt, BigEndian, Value;
    BigEndianOfValue(b);
    if f.size.Some? && f.size.value > 0 && ToInt(v).Ok? && FitsSigned(ToInt(v).value, f.size.value) {
      SignedValueOfTwosComplement(ToInt(v).value, f.size.value);
    }
  }

  lemma TextIff(f: Field, v: Json, limit: nat, b: bytes)
    requires f.dataType.StringData?
    ensures Encode(f, v, limit) == Ok(b) <==> Carries(f, v, limit, b)
  {
    if v.Words? {
      Utf8.DecodeUndoesEncode(v.text);
    }
    if Utf8.Decode(b).Ok? {
      Utf8.EncodeUndoesDecode(b);
    }
  }

  /** A value is accepted as `b` exactly when `b` has a length of its type and,
      read by the type alone, says what the value says. */
  lemma EncodeIff(f: Field, v: Json, limit: nat, b: bytes)
    ensures Encode(f, v, limit) == Ok(b) <==> Carries(f, v, limit, b)
  {
    hide ToBytes, ToInt, Says;
    match f.dataType
    case UintData => UintIff(f, v, limit, b);
    case IntData => IntIff(f, v, limit, b);
    case BoolData => TruthIff(f, v, limit, b);
    case AddressData => BytesIff(v, b);
    case BytesData => BytesIff(v, b);
    case StringData => TextIff(f, v, limit, b);
    case StructData =>
  }

  lemma TruthIff(f: Field, v: Json, limit: nat, b: bytes)
    requires f.dataType.BoolData?
    ensures Encode(f, v, limit) == Ok(b) <==> Carries(f, v, limit, b)
  {
  }

  /** Integers in text: decimal with or without a minus sign, or hexadecimal
      behind `0x`, blanks around them aside. */
  lemma IntegerText(left: string, s: string, right: string)
    requires AllSpace(left) && AllSpace(right) && s != "" && !IsSpace(s[0]) && !IsSpace(s[|s| - 1])
    ensures ToInt(Words(left + s + right)) ==
            (if AllDigits(s) then Ok(DigitsValue(s))
             else if |s| > 1 && s[0] == '-' && AllDigits(s[1..]) then Ok(0 - DigitsValue(s[1..]))
             else if |s| > 2 && s[..2] == "0x" then HexValue(s[2..])
             else Raised)
  {
    hide DigitsValue, HexValue, IsSpace, AllSpace;
    StripSpaces(left, s, right);
    assert StartsWith(s, "0x") && s != "0x" <==> |s| > 2 && s[..2] == "0x";
  }

  /** The byte loop: the last byte first, shifting the number right. */
  method EncodeInteger(number: nat, width: nat) returns (out: bytes)
    ensures out == BigEndian(number, width)
  {
    var buffer := new Byte[width](_ => 0);
    var n := number;
    var i := width;
    while i > 0
      invariant i <= width && BigEndian(number, width) == BigEndian(n, i) + buffer[i..]
    {
      i := i - 1;
      buffer[i] := n % 256;
      ghost var tail := buffer[i..];
      assert tail == [(n % 256) as Byte] + buffer[i + 1..];
      n := n / 256;
    }
    assert buffer[0..] == buffer[..];
    return buffer[..];
  }

  method EncodeValue(f: Field, v: Json, limit: nat) returns (r: Result<bytes>)
    ensures r == Encode(f, v, limit)
    ensures forall b :: r == Ok(b) <==> Carries(f, v, limit, b)
  {
    forall b ensures Encode(f, v, limit) == Ok(b) <==> Carries(f, v, limit, b) {
      EncodeIff(f, v, limit, b);
    }
    hide Carries;
    match f.dataType {
      case UintData =>
        if f.size.None? {
          return Raised;
        }
        var n :- ToInt(v);
        if n < 0 || n >= Pow256(f.size.value) {
          return Raised;
        }
        var out := EncodeInteger(n, f.size.value);
        return Ok(out);
      case IntData =>
        if f.size.None? || f.size.value == 0 {
          return Raised;
        }
        var n :- ToInt(v);
        if !FitsSigned(n, f.size.value) {
          return Raised;
        }
        var out := EncodeInteger(if n < 0 then n + Pow256(f.size.value) else n, f.size.value);
        return Ok(out);
      case _ => return Encode(f, v, limit);
    }
  }

  /** Integer leaves are read back at their width, signed ones in two's
      complement, so no two numbers share an encoding. */
  lemma IntegerReadsBack(f: Field, v: Json, limit: nat)
    requires f.dataType in {UintData, IntData} && Encode(f, v, limit).Ok?
    ensures var b := Encode(f, v, limit).value;
            ToInt(v) == Ok(if f.dataType.UintData? then Value(b) else SignedValue(b))
  {
    var n := ToInt(v).value;
    if f.dataType.UintData? {
      ValueOfBigEndian(n, f.size.value);
    } else {
      SignedValueOfTwosComplement(n, f.size.value);
    }
  }

  /** The integers a width takes are exactly those that fit it. */
  lemma IntegerAcceptedIff(f: Field, n: int, limit: nat)
    requires f.dataType in {UintData, IntData} && f.size.Some? && f.size.value > 0
    ensures Encode(f, Number(n), limit).Ok? <==>
            if f.dataType.UintData? then 0 <= n < Pow256(f.size.value)
            else 0 - Pow256(f.size.value) <= 2 * n < Pow256(f.size.value)
  {
  }

  /** `encode_array_length`. */
  function EncodeLength(n: nat): Result<bytes> {
    if n >= 0x1_0000 then Raised else Ok(U16(n))
  }
}
